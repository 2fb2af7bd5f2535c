/** Change detection between a snapshot of the disk and the recorded files. */
module Manifest {
  type Path = string
  type Hash = seq<int>

  datatype FileRow = FileRow(path: Path, hash: Hash)

  datatype Changes = Changes(added: seq<Path>, modified: seq<Path>, removed: seq<Path>, same: seq<Path>)

  predicate Distinct(s: seq<Path>) {
    forall i, j :: 0 <= i < j < |s| ==> s[i] != s[j]
  }

  /** `s` lists exactly the members of `members`, each once. */
  predicate Lists(s: seq<Path>, members: set<Path>) {
    Distinct(s) && (forall p :: p in s ==> p in members) && forall p :: p in members ==> p in s
  }

  /** The recorded hash of each path; a later row wins. */
  function Recorded(previous: seq<FileRow>): map<Path, Hash> {
    if |previous| == 0 then map[]
    else Recorded(previous[..|previous| - 1])[previous[|previous| - 1].path := previous[|previous| - 1].hash]
  }

  /** The paths of the rows that are no longer on disk, in order. */
  function Gone(current: map<Path, Hash>, previous: seq<FileRow>): seq<Path> {
    if |previous| == 0 then []
    else
      var last := previous[|previous| - 1].path;
      Gone(current, previous[..|previous| - 1]) + (if last in current then [] else [last])
  }

  function Added(current: map<Path, Hash>, prev: map<Path, Hash>): set<Path> {
    current.Keys - prev.Keys
  }

  function Modified(current: map<Path, Hash>, prev: map<Path, Hash>): set<Path> {
    set p | p in current && p in prev && prev[p] != current[p]
  }

  function Unchanged(current: map<Path, Hash>, prev: map<Path, Hash>): set<Path> {
    set p | p in current && p in prev && prev[p] == current[p]
  }

  method RecordedRows(previous: seq<FileRow>) returns (prev: map<Path, Hash>)
    ensures prev == Recorded(previous)
  {
    prev := map[];
    for k := 0 to |previous|
      invariant prev == Recorded(previous[..k])
    {
      assert previous[..k + 1][..k] == previous[..k];
      prev := prev[previous[k].path := previous[k].hash];
    }
    assert previous[..|previous|] == previous;
  }

  method RemovedPaths(current: map<Path, Hash>, previous: seq<FileRow>) returns (removed: seq<Path>)
    ensures removed == Gone(current, previous)
  {
    removed := [];
    for k := 0 to |previous|
      invariant removed == Gone(current, previous[..k])
    {
      assert previous[..k + 1][..k] == previous[..k];
      if previous[k].path !in current {
        removed := removed + [previous[k].path];
      }
    }
    assert previous[..|previous|] == previous;
  }

  /** Every snapshot is listed exactly once, under what happened to it. The
    * snapshots come in whatever order their hash map yields. */
  method DetectChanges(current: map<Path, Hash>, previous: seq<FileRow>) returns (c: Changes)
    ensures var prev := Recorded(previous);
      && Lists(c.added, Added(current, prev))
      && Lists(c.modified, Modified(current, prev))
      && Lists(c.same, Unchanged(current, prev))
      && c.removed == Gone(current, previous)
  {
    var prev := RecordedRows(previous);
    var added: seq<Path>, modified: seq<Path>, same: seq<Path> := [], [], [];
    var left := current.Keys;
    while left != {}
      invariant left <= current.Keys
      invariant Lists(added, Added(current, prev) - left)
      invariant Lists(modified, Modified(current, prev) - left)
      invariant Lists(same, Unchanged(current, prev) - left)
      decreases |left|
    {
      var p :| p in left;
      left := left - {p};
      if p !in prev {
        added := added + [p];
      } else if current[p] == prev[p] {
        same := same + [p];
      } else {
        modified := modified + [p];
      }
    }
    var removed := RemovedPaths(current, previous);
    c := Changes(added, modified, removed, same);
  }

  lemma {:induction false} RecordedKeys(previous: seq<FileRow>, p: Path)
    ensures p in Recorded(previous) <==> exists k :: 0 <= k < |previous| && previous[k].path == p
  {
    if |previous| > 0 {
      var n := |previous| - 1;
      var init := previous[..n];
      RecordedKeys(init, p);
      if k :| 0 <= k < |previous| && previous[k].path == p {
        assert k < n ==> init[k].path == p;
      }
      if k :| 0 <= k < |init| && init[k].path == p {
        assert previous[k].path == p;
      }
      assert previous[n].path == p ==> p in Recorded(previous);
    }
  }

  lemma {:induction false} GoneMembers(current: map<Path, Hash>, previous: seq<FileRow>, p: Path)
    ensures p in Gone(current, previous) <==> p in Recorded(previous) && p !in current
  {
    if |previous| > 0 {
      GoneMembers(current, previous[..|previous| - 1], p);
    }
  }

  /** What is on record for a path is the hash of the last row that names it. */
  lemma {:induction false} RecordedIsLast(previous: seq<FileRow>, k: nat)
    requires k < |previous| && forall j :: k < j < |previous| ==> previous[j].path != previous[k].path
    ensures previous[k].path in Recorded(previous) && Recorded(previous)[previous[k].path] == previous[k].hash
    decreases |previous|
  {
    if k + 1 < |previous| {
      var init := previous[..|previous| - 1];
      assert init[k] == previous[k] && forall j :: k < j < |init| ==> init[j] == previous[j];
      RecordedIsLast(init, k);
    }
  }

  /** `at` lists the positions of the rows that are no longer on disk, in order. */
  ghost predicate GonePositions(current: map<Path, Hash>, previous: seq<FileRow>, at: seq<nat>) {
    && (forall i :: 0 <= i < |at| ==> at[i] < |previous| && previous[at[i]].path !in current)
    && (forall i, j :: 0 <= i < j < |at| ==> at[i] < at[j])
    && forall k: nat {:trigger Listed(at, k)} :: k < |previous| && previous[k].path !in current ==> Listed(at, k)
  }

  predicate Listed(at: seq<nat>, k: nat) {
    exists i :: 0 <= i < |at| && at[i] == k
  }

  lemma GonePositionsMore(current: map<Path, Hash>, previous: seq<FileRow>, front: seq<nat>)
    requires 0 < |previous| && GonePositions(current, previous[..|previous| - 1], front)
    ensures var n := |previous| - 1;
      GonePositions(current, previous, if previous[n].path in current then front else front + [n])
  {
    var n := |previous| - 1;
    var at := if previous[n].path in current then front else front + [n];
    forall k: nat | k < |previous| && previous[k].path !in current
      ensures Listed(at, k)
    {
      if k < n {
        assert previous[..n][k] == previous[k] && Listed(front, k);
        var i :| 0 <= i < |front| && front[i] == k;
        assert at[i] == k;
      } else {
        assert at[|front|] == k;
      }
    }
  }

  /** Removed paths keep the order of their rows. */
  lemma {:induction false} GoneInOrder(current: map<Path, Hash>, previous: seq<FileRow>) returns (at: seq<nat>)
    ensures GonePositions(current, previous, at) && |Gone(current, previous)| == |at|
    ensures forall i :: 0 <= i < |at| ==> Gone(current, previous)[i] == previous[at[i]].path
  {
    if |previous| == 0 {
      at := [];
    } else {
      var n := |previous| - 1;
      var front := GoneInOrder(current, previous[..n]);
      at := if previous[n].path in current then front else front + [n];
      GonePositionsMore(current, previous, front);
    }
  }

  /** The four lists partition the paths on disk and on record: a path on disk is new,
    * or has another hash than its record, or the same. */
  lemma {:induction false} ChangesPartition(current: map<Path, Hash>, previous: seq<FileRow>, p: Path)
    ensures var prev := Recorded(previous);
      && (p in Added(current, prev) <==> p in current && p !in prev)
      && (p in Modified(current, prev) <==> p in current && p in prev && current[p] != prev[p])
      && (p in Unchanged(current, prev) <==> p in current && p in prev && current[p] == prev[p])
      && (p in Gone(current, previous) <==> p !in current && p in prev)
  {
    GoneMembers(current, previous, p);
  }
}
