/** What one indexing run does to the tables, and what any history of runs keeps. */
module IndexRun {
  import opened Wrappers
  import opened Manifest

  type Vector = seq<real>

  /** One chunk of one version of one file. */
  datatype Chunk = Chunk(path: Path, hash: Hash, ordinal: nat, body: string)

  datatype Row = Row(chunk: Chunk, emb: Vector)

  /** A chunk in the queue of a run, with the index of its file in the run's list. */
  datatype Item = Item(chunk: Chunk, fidx: nat)

  /** The chunker, which sees a file through its path and content hash, and the embedder. */
  datatype Env = Env(bodies: (Path, Hash) -> seq<string>, embed: string -> Vector, hasNan: Vector -> bool)

  datatype Tables = Tables(files: map<Path, Hash>, chunks: seq<Row>, project: Option<nat>)

  const INDEX_FORMAT_VERSION: nat := 2

  const NO_TABLES := Tables(map[], [], None)

  function RowOf(env: Env, c: Chunk): Row {
    Row(c, env.embed(c.body))
  }

  function ChunkAt(env: Env, p: Path, h: Hash, k: nat): Chunk
    requires k < |env.bodies(p, h)|
  {
    Chunk(p, h, k, env.bodies(p, h)[k])
  }

  // ---------- the checkpoint invariant ----------

  /** Every chunk of this version of the file is stored, with its embedding. */
  ghost predicate AllStored(env: Env, p: Path, h: Hash, chunks: seq<Row>) {
    forall k: nat {:trigger ChunkAt(env, p, h, k)} ::
      k < |env.bodies(p, h)| ==> RowOf(env, ChunkAt(env, p, h, k)) in chunks
  }

  ghost predicate Inv(env: Env, t: Tables) {
    forall p {:trigger t.files[p]} :: p in t.files ==> AllStored(env, p, t.files[p], t.chunks)
  }

  // ---------- planning ----------

  function Stale(project: Option<nat>): bool {
    project.Some? && project.value < INDEX_FORMAT_VERSION
  }

  predicate Forced(refresh: bool, prev: map<Path, Hash>, t: Tables) {
    || refresh
    || Stale(t.project)
    || (t.project.None? && |t.chunks| > 0)
    || (prev != map[] && |t.chunks| == 0)
  }

  function ToReindex(forced: bool, snaps: map<Path, Hash>, prev: map<Path, Hash>): set<Path> {
    if forced then snaps.Keys else Added(snaps, prev) + Modified(snaps, prev)
  }

  function ToDelete(forced: bool, snaps: map<Path, Hash>, prev: map<Path, Hash>): set<Path> {
    if forced then prev.Keys else (prev.Keys - snaps.Keys) + ToReindex(forced, snaps, prev)
  }

  /** The deletion phase, as one step. Rows are stored under another spelling of
    * the path than the one they are deleted by, so all that is known of the chunk
    * rows is that those of files not listed stay and that nothing new appears. */
  ghost predicate Deleted(before: Tables, listed: set<Path>, after: Tables) {
    && after.files == before.files - listed
    && after.project == before.project
    && (forall r :: r in after.chunks ==> r in before.chunks)
    && (forall r :: r in before.chunks && r.chunk.path !in listed ==> r in after.chunks)
  }

  // ---------- the queue ----------

  function FileItems(env: Env, p: Path, h: Hash, fidx: nat): seq<Item> {
    seq(|env.bodies(p, h)|, k requires 0 <= k < |env.bodies(p, h)| => Item(ChunkAt(env, p, h, k), fidx))
  }

  /** The chunks of all files to reindex, file by file. */
  function Queue(env: Env, snaps: map<Path, Hash>, need: seq<Path>): seq<Item>
    requires forall p :: p in need ==> p in snaps
  {
    if |need| == 0 then []
    else
      var f := |need| - 1;
      Queue(env, snaps, need[..f]) + FileItems(env, need[f], snaps[need[f]], f)
  }

  function RowsOf(env: Env, items: seq<Item>): seq<Row> {
    seq(|items|, k requires 0 <= k < |items| => RowOf(env, items[k].chunk))
  }

  /** How many of the items from the k-th on belong to `p`. */
  function Left(items: seq<Item>, k: nat, p: Path): nat
    requires k <= |items|
    decreases |items| - k
  {
    if k == |items| then 0 else (if items[k].chunk.path == p then 1 else 0) + Left(items, k + 1, p)
  }

  /** The files all of whose chunks are among the first `done` items. */
  function Finished(need: seq<Path>, items: seq<Item>, done: nat): set<Path>
    requires done <= |items|
  {
    set p | p in need && Left(items, done, p) == 0
  }

  function Upserted(files: map<Path, Hash>, snaps: map<Path, Hash>, paths: set<Path>): map<Path, Hash>
    requires paths <= snaps.Keys
  {
    files + map p | p in paths :: snaps[p]
  }

  // ---------- runs ----------

  /** `NothingToDo` is the early return of a run that finds no changes. */
  datatype Outcome = Failed | NothingToDo | Paused | Complete

  /** One run: what it saw, what it planned, the tables right after its deletion
    * phase, how many items it committed and which files it recorded. */
  datatype Run = Run(snaps: map<Path, Hash>, listed: bool, refresh: bool, outcome: Outcome,
                     need: seq<Path>, deleted: Option<Tables>, done: nat, recorded: set<Path>)

  function Previous(run: Run, before: Tables): map<Path, Hash> {
    if run.listed then before.files else map[]
  }

  predicate IsForced(run: Run, before: Tables) {
    Forced(run.refresh, Previous(run, before), before)
  }

  ghost predicate Planned(run: Run, before: Tables) {
    Lists(run.need, ToReindex(IsForced(run, before), run.snaps, Previous(run, before)))
  }

  /** The tables behind the deletion phase when `done` items are committed. */
  ghost predicate Advanced(env: Env, run: Run, mid: Tables, after: Tables)
    requires forall p :: p in run.need ==> p in run.snaps
  {
    var items := Queue(env, run.snaps, run.need);
    && run.done <= |items|
    && run.recorded <= Finished(run.need, items, run.done)
    && after.chunks == mid.chunks + RowsOf(env, items[..run.done])
    && after.files == Upserted(mid.files, run.snaps, run.recorded)
  }

  /** All a run can do to the tables, whatever fails and whenever it is paused. */
  ghost predicate Ran(env: Env, before: Tables, run: Run, after: Tables) {
    if run.deleted.None? then run.outcome == Failed && after == before
    else
      var mid := run.deleted.value;
      && Planned(run, before)
      && Deleted(before, ToDelete(IsForced(run, before), run.snaps, Previous(run, before)), mid)
      && Advanced(env, run, mid, after)
      && (run.outcome == NothingToDo <==> run.need == [])
      && (run.outcome == NothingToDo ==> after.project == before.project)
      && (run.outcome in {Paused, Complete} ==>
        && run.recorded == Finished(run.need, Queue(env, run.snaps, run.need), run.done)
        && after.project == Some(INDEX_FORMAT_VERSION))
      && (run.outcome == Complete ==> run.done == |Queue(env, run.snaps, run.need)|)
      && after.project in {before.project, Some(INDEX_FORMAT_VERSION)}
  }

  // ---------- the queue, once ----------

  /** The queue holds exactly the chunks of the files to reindex, under the right index. */
  lemma {:induction false} QueueHolds(env: Env, snaps: map<Path, Hash>, need: seq<Path>)
    requires forall p :: p in need ==> p in snaps
    ensures forall j :: 0 <= j < |Queue(env, snaps, need)| ==> Belongs(snaps, need, Queue(env, snaps, need)[j])
    ensures forall p, k: nat {:trigger ChunkAt(env, p, snaps[p], k)} ::
              p in need && k < |env.bodies(p, snaps[p])|
              ==> Queued(Queue(env, snaps, need), ChunkAt(env, p, snaps[p], k))
  {
    if |need| > 0 {
      var f := |need| - 1;
      var init, last := Queue(env, snaps, need[..f]), FileItems(env, need[f], snaps[need[f]], f);
      var all := init + last;
      QueueHolds(env, snaps, need[..f]);
      forall j | 0 <= j < |all|
        ensures Belongs(snaps, need, all[j])
      {
        if j < |init| {
          assert Belongs(snaps, need[..f], init[j]);
        } else {
          assert all[j] == last[j - |init|];
        }
      }
      forall p, k: nat | p in need && k < |env.bodies(p, snaps[p])|
        ensures Queued(all, ChunkAt(env, p, snaps[p], k))
      {
        if p in need[..f] {
          assert Queued(init, ChunkAt(env, p, snaps[p], k));
          var j :| 0 <= j < |init| && init[j].chunk == ChunkAt(env, p, snaps[p], k);
          assert all[j].chunk == ChunkAt(env, p, snaps[p], k);
        } else {
          assert p == need[f] && all[|init| + k] == last[k];
        }
      }
    }
  }

  /** Each item is a chunk of its file, as the chunker cuts it. */
  lemma {:induction false} QueueIsCut(env: Env, snaps: map<Path, Hash>, need: seq<Path>, j: nat)
    requires (forall p :: p in need ==> p in snaps) && j < |Queue(env, snaps, need)|
    ensures var c := Queue(env, snaps, need)[j].chunk;
      c.ordinal < |env.bodies(c.path, c.hash)| && c.body == env.bodies(c.path, c.hash)[c.ordinal]
  {
    var f := |need| - 1;
    var init, last := Queue(env, snaps, need[..f]), FileItems(env, need[f], snaps[need[f]], f);
    if j < |init| {
      QueueIsCut(env, snaps, need[..f], j);
    } else {
      assert Queue(env, snaps, need)[j] == last[j - |init|];
    }
  }

  /** The queue goes file by file, in the order of the list, and through each file chunk by chunk. */
  lemma {:induction false} QueueInOrder(env: Env, snaps: map<Path, Hash>, need: seq<Path>, i: nat, j: nat)
    requires (forall p :: p in need ==> p in snaps) && i < j < |Queue(env, snaps, need)|
    ensures var a, b := Queue(env, snaps, need)[i], Queue(env, snaps, need)[j];
      a.fidx < b.fidx || (a.fidx == b.fidx && b.chunk.ordinal - a.chunk.ordinal == j - i)
  {
    var f := |need| - 1;
    var init, last := Queue(env, snaps, need[..f]), FileItems(env, need[f], snaps[need[f]], f);
    if j < |init| {
      QueueInOrder(env, snaps, need[..f], i, j);
    } else if i < |init| {
      QueueHolds(env, snaps, need[..f]);
      assert Belongs(snaps, need[..f], init[i]);
      assert Queue(env, snaps, need)[j] == last[j - |init|];
    } else {
      assert Queue(env, snaps, need)[i] == last[i - |init|] && Queue(env, snaps, need)[j] == last[j - |init|];
    }
  }

  predicate Belongs(snaps: map<Path, Hash>, need: seq<Path>, item: Item) {
    && item.fidx < |need| && need[item.fidx] == item.chunk.path
    && item.chunk.path in snaps && item.chunk.hash == snaps[item.chunk.path]
  }

  ghost predicate Queued(items: seq<Item>, c: Chunk) {
    exists j :: 0 <= j < |items| && items[j].chunk == c
  }

  lemma {:induction false} NoneLeft(items: seq<Item>, k: nat, p: Path, j: nat)
    requires k <= j < |items| && Left(items, k, p) == 0
    ensures items[j].chunk.path != p
    decreases j - k
  {
    if k < j {
      NoneLeft(items, k + 1, p, j);
    }
  }

  lemma {:induction false} LeftSplits(items: seq<Item>, more: seq<Item>, k: nat, p: Path)
    requires k <= |items|
    ensures Left(items + more, k, p) == Left(items, k, p) + Left(more, 0, p)
    decreases |items| - k
  {
    if k == |items| {
      LeftBehind(items, more, 0, p);
    } else {
      LeftSplits(items, more, k + 1, p);
    }
  }

  lemma LeftBehind(items: seq<Item>, more: seq<Item>, k: nat, p: Path)
    requires k <= |more|
    ensures Left(items + more, |items| + k, p) == Left(more, k, p)
    decreases |more| - k
  {
    if k < |more| {
      LeftBehind(items, more, k + 1, p);
      assert (items + more)[|items| + k] == more[k];
    }
  }

  lemma {:induction false} FileItemsLeft(env: Env, p: Path, h: Hash, fidx: nat, k: nat, q: Path)
    requires k <= |env.bodies(p, h)|
    ensures Left(FileItems(env, p, h, fidx), k, q) == if p == q then |env.bodies(p, h)| - k else 0
    decreases |env.bodies(p, h)| - k
  {
    if k < |env.bodies(p, h)| {
      FileItemsLeft(env, p, h, fidx, k + 1, q);
    }
  }

  /** Each file to reindex is queued with exactly as many items as it has chunks. */
  lemma {:induction false} QueueCounts(env: Env, snaps: map<Path, Hash>, need: seq<Path>, p: Path)
    requires Distinct(need) && forall q :: q in need ==> q in snaps
    ensures Left(Queue(env, snaps, need), 0, p) == if p in need then |env.bodies(p, snaps[p])| else 0
  {
    if |need| > 0 {
      var f := |need| - 1;
      assert need == need[..f] + [need[f]];
      QueueCounts(env, snaps, need[..f], p);
      LeftSplits(Queue(env, snaps, need[..f]), FileItems(env, need[f], snaps[need[f]], f), 0, p);
      FileItemsLeft(env, need[f], snaps[need[f]], f, 0, p);
    }
  }

  // ---------- main results ----------

  /** The rows of file `p` among `rows`. */
  function RowsFor(rows: seq<Row>, p: Path): nat {
    if |rows| == 0 then 0
    else RowsFor(rows[..|rows| - 1], p) + if rows[|rows| - 1].chunk.path == p then 1 else 0
  }

  lemma {:induction false} CommittedCount(env: Env, items: seq<Item>, done: nat, p: Path)
    requires done <= |items|
    ensures RowsFor(RowsOf(env, items[..done]), p) + Left(items, done, p) == Left(items, 0, p)
  {
    if done > 0 {
      CommittedCount(env, items, done - 1, p);
      var rows := RowsOf(env, items[..done]);
      assert rows[..done - 1] == RowsOf(env, items[..done - 1]);
    }
  }

  /** At every commit point, what remains of a file and the rows of it that this
    * run has committed add up to the number of its chunks. */
  lemma {:induction false} RemainingAndCommitted(env: Env, snaps: map<Path, Hash>, need: seq<Path>, done: nat, p: Path)
    requires Distinct(need) && forall q :: q in need ==> q in snaps
    requires p in need && done <= |Queue(env, snaps, need)|
    ensures var items := Queue(env, snaps, need);
      RowsFor(RowsOf(env, items[..done]), p) + Left(items, done, p) == |env.bodies(p, snaps[p])|
  {
    CommittedCount(env, Queue(env, snaps, need), done, p);
    QueueCounts(env, snaps, need, p);
  }

  /** A finished file has all its chunks among the committed rows. */
  lemma {:induction false} FinishedIsStored(env: Env, snaps: map<Path, Hash>, need: seq<Path>, done: nat, p: Path,
                                            earlier: seq<Row>)
    requires forall q :: q in need ==> q in snaps
    requires var items := Queue(env, snaps, need); done <= |items| && p in Finished(need, items, done)
    ensures AllStored(env, p, snaps[p], earlier + RowsOf(env, Queue(env, snaps, need)[..done]))
  {
    var items := Queue(env, snaps, need);
    var rows := RowsOf(env, items[..done]);
    QueueHolds(env, snaps, need);
    forall k: nat | k < |env.bodies(p, snaps[p])|
      ensures RowOf(env, ChunkAt(env, p, snaps[p], k)) in earlier + rows
    {
      var c := ChunkAt(env, p, snaps[p], k);
      assert Queued(items, c);
      var j :| 0 <= j < |items| && items[j].chunk == c;
      if j >= done {
        NoneLeft(items, done, p, j);
      }
      assert (earlier + rows)[|earlier| + j] == rows[j] == RowOf(env, c);
    }
  }

  /** The deletion phase keeps the invariant, whatever rows of listed files survive it. */
  lemma DeletionKeepsInv(env: Env, before: Tables, listed: set<Path>, after: Tables)
    requires Inv(env, before) && Deleted(before, listed, after)
    ensures Inv(env, after)
  {
    forall p | p in after.files
      ensures AllStored(env, p, after.files[p], after.chunks)
    {
      assert AllStored(env, p, before.files[p], before.chunks);
    }
  }

  /** Whatever fails and whenever it is paused, a run leaves no file on record
    * that lacks a chunk of the recorded version; a failed run stops in the state
    * of the step that failed, so this covers every step behind the deletion. */
  lemma RunKeepsInv(env: Env, before: Tables, run: Run, after: Tables)
    requires Inv(env, before) && Ran(env, before, run, after)
    ensures Inv(env, after)
    ensures run.deleted.Some? ==> Inv(env, run.deleted.value)
  {
    if run.deleted.Some? {
      var mid := run.deleted.value;
      DeletionKeepsInv(env, before, ToDelete(IsForced(run, before), run.snaps, Previous(run, before)), mid);
      forall p | p in after.files
        ensures AllStored(env, p, after.files[p], after.chunks)
      {
        if p in run.recorded {
          FinishedIsStored(env, run.snaps, run.need, run.done, p, mid.chunks);
        } else {
          assert AllStored(env, p, mid.files[p], mid.chunks);
        }
      }
    }
  }

  /** Runs one after another, with any edits of the disk between them. */
  ghost predicate History(env: Env, tables: seq<Tables>, runs: seq<Run>) {
    && |tables| == |runs| + 1
    && forall i {:trigger runs[i]} :: 0 <= i < |runs| ==> Ran(env, tables[i], runs[i], tables[i + 1])
  }

  /** Over any history that starts with empty tables the invariant holds throughout. */
  lemma HistoryKeepsInv(env: Env, tables: seq<Tables>, runs: seq<Run>, i: nat)
    requires History(env, tables, runs) && tables[0] == NO_TABLES && i <= |runs|
    ensures Inv(env, tables[i])
    ensures i < |runs| && runs[i].deleted.Some? ==> Inv(env, runs[i].deleted.value)
    decreases i
  {
    if i > 0 {
      HistoryKeepsInv(env, tables, runs, i - 1);
      assert Ran(env, tables[i - 1], runs[i - 1], tables[i - 1 + 1]);
      RunKeepsInv(env, tables[i - 1], runs[i - 1], tables[i]);
    }
    if i < |runs| {
      RunKeepsInv(env, tables[i], runs[i], tables[i + 1]);
    }
  }

  /** What a run without failures leaves on record, path by path. */
  lemma CompleteRecords(env: Env, before: Tables, run: Run, after: Tables, p: Path)
    requires Ran(env, before, run, after) && run.outcome in {NothingToDo, Complete}
    ensures p in run.snaps ==> p in after.files && after.files[p] == run.snaps[p]
    ensures p !in run.snaps ==> (p in after.files <==> p in before.files && !run.listed)
  {
    var items := Queue(env, run.snaps, run.need);
    var recorded := Finished(run.need, items, |items|);
    assert p in recorded <==> p in run.need;
    assert run.recorded == if run.outcome == Complete then recorded else {};
  }

  /** A run that completes leaves the files table equal to the snapshot, exactly
    * when the table could be read or held no path outside the snapshot: a read
    * error counts as an empty table, and rows of vanished files then stay. */
  lemma CompleteRecordsSnapshot(env: Env, before: Tables, run: Run, after: Tables)
    requires Ran(env, before, run, after) && run.outcome in {NothingToDo, Complete}
    ensures after.files == run.snaps <==> run.listed || before.files.Keys <= run.snaps.Keys
  {
    forall p
      ensures p in run.snaps ==> p in after.files && after.files[p] == run.snaps[p]
      ensures p !in run.snaps ==> (p in after.files <==> p in before.files && !run.listed)
    {
      CompleteRecords(env, before, run, after, p);
    }
    if p :| p in before.files && p !in run.snaps {
      assert p in after.files <==> !run.listed;
    }
  }

  /** The files on disk whose present version is on record. */
  function UpToDate(files: map<Path, Hash>, snaps: map<Path, Hash>): set<Path> {
    set p | p in snaps && p in files && files[p] == snaps[p]
  }

  /** What is on record at its present version after a run, however it ended: the
    * files the run recorded, and those that were and that it did not delete. */
  lemma RecordsAfterRun(env: Env, before: Tables, run: Run, after: Tables)
    requires Ran(env, before, run, after) && run.deleted.Some?
    ensures UpToDate(after.files, run.snaps)
         == run.recorded + (UpToDate(before.files, run.snaps)
                            - ToDelete(IsForced(run, before), run.snaps, Previous(run, before)))
    ensures run.listed ==> after.files.Keys == UpToDate(after.files, run.snaps)
  {
  }

  /** A run reindexes exactly the files that are not on record at their present
    * version, if and only if it could read the records and nothing forces a
    * rebuild, or no file is up to date anyway. This holds for the tables any
    * earlier run left, whether it completed, was paused or failed. */
  lemma ResumeReindexesTheRest(env: Env, mid: Tables, next: Run, after: Tables)
    requires Ran(env, mid, next, after) && next.deleted.Some?
    ensures var current := UpToDate(mid.files, next.snaps);
      (forall p :: p in next.need <==> p in next.snaps && p !in current)
      <==> (next.listed && !IsForced(next, mid)) || current == {}
  {
    var current := UpToDate(mid.files, next.snaps);
    if !(next.listed && !IsForced(next, mid)) {
      assert forall p :: p in next.need <==> p in next.snaps;
      if p :| p in current {
        assert p in next.need;
      }
    }
  }

  /** Which files a run reindexes, by the tables it finds: those not on record at their
    * present version, and all of them on request, for an index of an older format
    * than 2, for chunk rows without a project row, and for records without chunk rows. */
  lemma ReindexedByTables(env: Env, before: Tables, run: Run, after: Tables, p: Path)
    requires Ran(env, before, run, after) && run.deleted.Some?
    ensures p in run.need
       <==> (p in run.snaps
             && (|| run.refresh
                 || (before.project.Some? && before.project.value < 2)
                 || (before.project.None? && |before.chunks| > 0)
                 || (run.listed && before.files != map[] && |before.chunks| == 0)
                 || !run.listed || p !in before.files || before.files[p] != run.snaps[p]))
  {
  }

  /** Every row a run adds holds a chunk of a file on disk, as the chunker cuts its
    * present version, beside the embedding of that chunk's own text. */
  lemma {:induction false} NewRowsAreTrue(env: Env, before: Tables, run: Run, after: Tables, r: Row)
    requires Ran(env, before, run, after) && r in after.chunks && r !in before.chunks
    ensures var c := r.chunk;
      && r.emb == env.embed(c.body)
      && c.path in run.need && c.path in run.snaps && c.hash == run.snaps[c.path]
      && c.ordinal < |env.bodies(c.path, c.hash)| && c.body == env.bodies(c.path, c.hash)[c.ordinal]
  {
    var items := Queue(env, run.snaps, run.need);
    var rows := RowsOf(env, items[..run.done]);
    assert r !in run.deleted.value.chunks;
    var j :| 0 <= j < |rows| && rows[j] == r;
    assert r == RowOf(env, items[j].chunk);
    QueueHolds(env, run.snaps, run.need);
    QueueIsCut(env, run.snaps, run.need, j);
    assert Belongs(run.snaps, run.need, items[j]);
  }

  /** A run that was paused or completed records format 2. */
  lemma FormatIsRecorded(env: Env, before: Tables, run: Run, after: Tables)
    requires Ran(env, before, run, after) && run.outcome in {Paused, Complete}
    ensures after.project == Some(2)
  {
  }

  /** When the run after a paused or complete one is forced to rebuild: it was
    * asked to, or the only records are of files without chunks. */
  lemma ForcedAfterPause(env: Env, before: Tables, run: Run, mid: Tables, next: Run)
    requires Ran(env, before, run, mid) && run.outcome in {Paused, Complete}
    ensures IsForced(next, mid) <==> next.refresh || (next.listed && mid.files != map[] && |mid.chunks| == 0)
  {
  }

  /** When the run after a failed one is: in addition, a project row that the
    * failed run did not get to write may be stale, or missing beside its rows. */
  lemma ForcedAfterFailure(env: Env, before: Tables, run: Run, mid: Tables, next: Run)
    requires Ran(env, before, run, mid) && run.outcome == Failed
    ensures mid.project in {before.project, Some(INDEX_FORMAT_VERSION)}
    ensures IsForced(next, mid) <==>
      || next.refresh
      || (next.listed && mid.files != map[] && |mid.chunks| == 0)
      || (mid.project == before.project && (Stale(before.project) || (before.project.None? && |mid.chunks| > 0)))
  {
  }

  /** A checkpoint survives the next run exactly if that run stops before its
    * deletion phase, records the file again, or keeps it: because it could read
    * the records and nothing forces a rebuild, or because it rebuilds without
    * having read any. */
  lemma CheckpointsSurvive(env: Env, mid: Tables, next: Run, after: Tables, p: Path)
    requires Ran(env, mid, next, after) && p in UpToDate(mid.files, next.snaps)
    ensures p in UpToDate(after.files, next.snaps)
       <==> next.deleted.None? || p in next.recorded || (next.listed <==> !IsForced(next, mid))
  {
    if next.deleted.Some? {
      RecordsAfterRun(env, mid, next, after);
    }
  }

  /** What a run does not reindex and the disk still has, it leaves alone. */
  lemma OtherFilesStay(env: Env, before: Tables, run: Run, after: Tables, p: Path)
    requires Ran(env, before, run, after) && run.listed && p in before.files && p in run.snaps && p !in run.need
    ensures p in after.files && after.files[p] == before.files[p]
    ensures forall r :: r in before.chunks && r.chunk.path == p ==> r in after.chunks
  {
  }
}
