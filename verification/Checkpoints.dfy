/** The tables an indexing run writes, and its checkpoints. Every step that
  * waits for something outside may fail. */
module Checkpoints {
  import opened Wrappers
  import opened Manifest
  import opened IndexRun

  function SetOf(paths: seq<Path>): set<Path> {
    set p | p in paths
  }

  /** Waits for something that can fail, or looks at a flag that can be up. */
  method Oracle() returns (b: bool) {
    b := *;
  }

  method Survivors(rows: seq<Row>, paths: seq<Path>) returns (kept: seq<Row>)
    ensures forall r :: r in kept ==> r in rows
    ensures forall r :: r in rows && r.chunk.path !in paths ==> r in kept
  {
    kept := [];
    for k := 0 to |rows|
      invariant forall r :: r in kept ==> r in rows
      invariant forall j :: 0 <= j < k && rows[j].chunk.path !in paths ==> rows[j] in kept
    {
      var matches := Oracle();
      if rows[k].chunk.path !in paths || !matches {
        kept := kept + [rows[k]];
      }
    }
  }

  class Db {
    var files: map<Path, Hash>
    var chunks: seq<Row>
    var project: Option<nat>

    ghost function Now(): Tables
      reads this
    {
      Tables(files, chunks, project)
    }

    method List() returns (rows: Option<seq<FileRow>>)
      ensures rows.Some? ==> Recorded(rows.value) == files
    {
      var fails := Oracle();
      if fails {
        return None;
      }
      var out: seq<FileRow> := [];
      var left := files.Keys;
      while left != {}
        invariant left <= files.Keys && Recorded(out) == files - left
        decreases |left|
      {
        var p :| p in left;
        left := left - {p};
        assert (out + [FileRow(p, files[p])])[..|out|] == out;
        out := out + [FileRow(p, files[p])];
      }
      rows := Some(out);
    }

    /** Removes the rows of the listed files from the files table; of their chunk
      * rows, those stored under the path as listed. */
    method DeleteFor(paths: seq<Path>) returns (ok: bool)
      modifies this
      ensures if ok then Deleted(old(Now()), SetOf(paths), Now()) else Now() == old(Now())
    {
      var fails := Oracle();
      if fails {
        return false;
      }
      chunks := Survivors(chunks, paths);
      files := files - SetOf(paths);
      ok := true;
    }

    method Append(rows: seq<Row>) returns (ok: bool)
      modifies this`chunks
      ensures chunks == if ok then old(chunks) + rows else old(chunks)
    {
      ok := Oracle();
      if ok {
        chunks := chunks + rows;
      }
    }

    method UpsertFiles(snaps: map<Path, Hash>, paths: seq<Path>) returns (ok: bool)
      requires SetOf(paths) <= snaps.Keys
      modifies this`files
      ensures files == if ok then Upserted(old(files), snaps, SetOf(paths)) else old(files)
    {
      if paths == [] {
        return true;
      }
      ok := Oracle();
      if ok {
        files := files + map p | p in paths :: snaps[p];
      }
    }

    method UpsertProject() returns (ok: bool)
      modifies this`project
      ensures project == if ok then Some(INDEX_FORMAT_VERSION) else old(project)
    {
      ok := Oracle();
      if ok {
        project := Some(INDEX_FORMAT_VERSION);
      }
    }
  }

  // ---------- checkpoints ----------

  /** `remaining` counts, file by file, the items from the k-th on. */
  predicate Counts(remaining: seq<nat>, need: seq<Path>, items: seq<Item>, k: nat)
    requires k <= |items|
  {
    |remaining| == |need| && forall f :: 0 <= f < |need| ==> remaining[f] == Left(items, k, need[f])
  }

  ghost predicate Filed(snaps: map<Path, Hash>, need: seq<Path>, items: seq<Item>) {
    && Distinct(need)
    && (forall p :: p in need ==> p in snaps)
    && forall j :: 0 <= j < |items| ==> Belongs(snaps, need, items[j])
  }

  lemma {:induction false} LeftShrinks(items: seq<Item>, lo: nat, hi: nat, p: Path)
    requires lo <= hi <= |items|
    ensures Left(items, hi, p) <= Left(items, lo, p)
    decreases hi - lo
  {
    if lo < hi {
      LeftShrinks(items, lo + 1, hi, p);
    }
  }

  lemma FinishedGrows(need: seq<Path>, items: seq<Item>, lo: nat, hi: nat)
    requires lo <= hi <= |items|
    ensures Finished(need, items, lo) <= Finished(need, items, hi)
  {
    forall p | p in Finished(need, items, lo)
      ensures p in Finished(need, items, hi)
    {
      LeftShrinks(items, lo, hi, p);
    }
  }

  method CountRemaining(ghost snaps: map<Path, Hash>, need: seq<Path>, items: seq<Item>) returns (remaining: array<nat>)
    requires Filed(snaps, need, items)
    ensures fresh(remaining) && Counts(remaining[..], need, items, 0)
  {
    remaining := new nat[|need|](_ => 0);
    for k := 0 to |items|
      invariant forall f :: 0 <= f < |need| ==> remaining[f] + Left(items, k, need[f]) == Left(items, 0, need[f])
    {
      assert Belongs(snaps, need, items[k]);
      remaining[items[k].fidx] := remaining[items[k].fidx] + 1;
    }
  }

  method ZeroChunkFiles(need: seq<Path>, remaining: array<nat>, ghost items: seq<Item>) returns (paths: seq<Path>)
    requires Counts(remaining[..], need, items, 0)
    ensures SetOf(paths) == Finished(need, items, 0)
  {
    paths := [];
    for f := 0 to |need|
      invariant forall p :: p in paths <==> p in need[..f] && Left(items, 0, p) == 0
    {
      assert remaining[..][f] == Left(items, 0, need[f]);
      assert need[..f + 1] == need[..f] + [need[f]];
      if remaining[f] == 0 {
        paths := paths + [need[f]];
      }
    }
    assert need[..|need|] == need;
  }

  /** Takes a flush off the counts; a file whose count reaches zero is completed,
    * and no file is completed twice. */
  method Decrement(need: seq<Path>, remaining: array<nat>, flushed: seq<nat>,
                   ghost snaps: map<Path, Hash>, ghost items: seq<Item>, ghost lo: nat)
    returns (completed: seq<Path>)
    requires Filed(snaps, need, items) && lo + |flushed| <= |items|
    requires forall j :: 0 <= j < |flushed| ==> flushed[j] == items[lo + j].fidx
    requires Counts(remaining[..], need, items, lo)
    modifies remaining
    ensures Counts(remaining[..], need, items, lo + |flushed|)
    ensures Lists(completed, Newly(need, items, lo, lo + |flushed|))
  {
    completed := [];
    for j := 0 to |flushed|
      invariant Counts(remaining[..], need, items, lo + j)
      invariant Lists(completed, Newly(need, items, lo, lo + j))
    {
      var f := flushed[j];
      Advance(snaps, need, items, lo, lo + j, remaining[..], completed);
      ghost var after := remaining[..][f := remaining[f] - 1];
      remaining[f] := if remaining[f] > 0 then remaining[f] - 1 else 0;
      assert remaining[..] == after;
      if remaining[f] == 0 {
        completed := completed + [need[f]];
      }
    }
  }

  ghost function Newly(need: seq<Path>, items: seq<Item>, lo: nat, hi: nat): set<Path>
    requires lo <= hi <= |items|
  {
    Finished(need, items, hi) - Finished(need, items, lo)
  }

  /** One more item: only the count of its own file drops, and only that file can finish. */
  lemma Advance(snaps: map<Path, Hash>, need: seq<Path>, items: seq<Item>, lo: nat, k: nat,
                remaining: seq<nat>, completed: seq<Path>)
    requires Filed(snaps, need, items) && lo <= k < |items|
    requires Counts(remaining, need, items, k) && Lists(completed, Newly(need, items, lo, k))
    ensures var f := items[k].fidx;
      && f < |need| && remaining[f] > 0
      && Counts(remaining[f := remaining[f] - 1], need, items, k + 1)
      && Lists(if remaining[f] == 1 then completed + [need[f]] else completed, Newly(need, items, lo, k + 1))
  {
    assert Belongs(snaps, need, items[k]);
    var p := items[k].chunk.path;
    LeftShrinks(items, lo, k, p);
    assert Left(items, k, p) == Left(items, k + 1, p) + 1;
    assert Newly(need, items, lo, k + 1) == Newly(need, items, lo, k) + if Left(items, k + 1, p) == 0 then {p} else {};
  }

  method CheckpointCompleted(db: Db, snaps: map<Path, Hash>, need: seq<Path>, remaining: array<nat>, flushed: seq<nat>,
                             ghost items: seq<Item>, ghost lo: nat)
    returns (ok: bool)
    requires Filed(snaps, need, items) && lo + |flushed| <= |items|
    requires forall j :: 0 <= j < |flushed| ==> flushed[j] == items[lo + j].fidx
    requires Counts(remaining[..], need, items, lo)
    modifies db`files, remaining
    ensures Counts(remaining[..], need, items, lo + |flushed|)
    ensures var newly := Newly(need, items, lo, lo + |flushed|);
      db.files == if ok then Upserted(old(db.files), snaps, newly) else old(db.files)
  {
    var completed := Decrement(need, remaining, flushed, snaps, items, lo);
    assert SetOf(completed) == Newly(need, items, lo, lo + |flushed|);
    ok := db.UpsertFiles(snaps, completed);
  }
}
