/** One indexing run over a project. Every step that waits for something outside
  * may fail, and the pause flag may be up in front of any batch. */
module IndexProject {
  import opened Wrappers
  import opened Manifest
  import opened IndexRun
  import opened Checkpoints
  import opened EmbedLoop

  const CHUNK_FLUSH_ROWS: nat := 256

  /** The tables behind the deletion phase `mid` when the first `done` items are committed. */
  ghost predicate Committed(env: Env, snaps: map<Path, Hash>, items: seq<Item>, mid: Tables, done: nat,
                            recorded: set<Path>, files: map<Path, Hash>, chunks: seq<Row>)
    requires done <= |items| && recorded <= snaps.Keys
  {
    chunks == mid.chunks + RowsOf(env, items[..done]) && files == Upserted(mid.files, snaps, recorded)
  }

  /** What waits for the next flush: the rows and file indices of items lo to hi. */
  predicate Waiting(env: Env, items: seq<Item>, lo: nat, hi: nat, rows: seq<Row>, fidxs: seq<nat>)
    requires lo <= hi <= |items|
  {
    && rows == RowsOf(env, items[lo..hi])
    && |fidxs| == hi - lo
    && forall j :: 0 <= j < |fidxs| ==> fidxs[j] == items[lo + j].fidx
  }

  /** The rows of one batch, or nothing if an embedding is not a number. */
  method BuildRows(env: Env, items: seq<Item>, embs: seq<Vector>) returns (rows: Option<seq<Row>>, fidxs: seq<nat>)
    requires |embs| == |items| && embs == Embeddings(env, Texts(items))
    ensures rows.Some? <==> forall k :: 0 <= k < |items| ==> !env.hasNan(env.embed(items[k].chunk.body))
    ensures rows.Some? ==> Waiting(env, items, 0, |items|, rows.value, fidxs)
  {
    var out: seq<Row> := [];
    fidxs := [];
    for k := 0 to |items|
      invariant Waiting(env, items, 0, k, out, fidxs)
      invariant forall j :: 0 <= j < k ==> !env.hasNan(env.embed(items[j].chunk.body))
    {
      fidxs := fidxs + [items[k].fidx];
      assert embs[k] == env.embed(items[k].chunk.body);
      if env.hasNan(embs[k]) {
        return None, fidxs;
      }
      out := out + [Row(items[k].chunk, embs[k])];
    }
    assert items[0..|items|] == items;
    rows := Some(out);
  }

  lemma CommittedMore(env: Env, items: seq<Item>, lo: nat, hi: nat)
    requires lo <= hi <= |items|
    ensures RowsOf(env, items[..hi]) == RowsOf(env, items[..lo]) + RowsOf(env, items[lo..hi])
  {
  }

  lemma UpsertedMore(files: map<Path, Hash>, snaps: map<Path, Hash>, a: set<Path>, b: set<Path>)
    requires a <= b <= snaps.Keys
    ensures Upserted(Upserted(files, snaps, a), snaps, b - a) == Upserted(files, snaps, b)
  {
  }

  /** Appends first, checkpoints second: if the second step fails, rows are
    * committed that no file record vouches for yet, never the other way round. */
  method Flush(env: Env, db: Db, snaps: map<Path, Hash>, need: seq<Path>, remaining: array<nat>,
               rows: seq<Row>, fidxs: seq<nat>, ghost items: seq<Item>, ghost mid: Tables, ghost lo: nat, ghost hi: nat)
    returns (ok: bool, ghost done: nat, ghost recorded: set<Path>)
    requires Filed(snaps, need, items) && lo <= hi <= |items| && Waiting(env, items, lo, hi, rows, fidxs)
    requires Counts(remaining[..], need, items, lo)
    requires Committed(env, snaps, items, mid, lo, Finished(need, items, lo), db.files, db.chunks)
    modifies db`files, db`chunks, remaining
    ensures done in {lo, hi} && recorded <= Finished(need, items, done)
    ensures Committed(env, snaps, items, mid, done, recorded, db.files, db.chunks)
    ensures ok ==> done == hi && recorded == Finished(need, items, hi) && Counts(remaining[..], need, items, hi)
  {
    done, recorded := lo, Finished(need, items, lo);
    ok := db.Append(rows);
    if ok {
      CommittedMore(env, items, lo, hi);
      FinishedGrows(need, items, lo, hi);
      UpsertedMore(mid.files, snaps, Finished(need, items, lo), Finished(need, items, hi));
      done := hi;
      ok := CheckpointCompleted(db, snaps, need, remaining, fidxs, items, lo);
      if ok {
        recorded := Finished(need, items, hi);
      }
    }
  }

  /** Flushes once 256 rows are waiting. */
  method FlushWhenFull(env: Env, db: Db, snaps: map<Path, Hash>, need: seq<Path>, remaining: array<nat>,
                       rows: seq<Row>, fidxs: seq<nat>,
                       ghost items: seq<Item>, ghost mid: Tables, ghost lo: nat, ghost hi: nat)
    returns (ok: bool, rest: seq<Row>, restIdxs: seq<nat>, ghost from: nat, ghost done: nat, ghost recorded: set<Path>)
    requires Filed(snaps, need, items) && lo <= hi <= |items| && Waiting(env, items, lo, hi, rows, fidxs)
    requires Counts(remaining[..], need, items, lo)
    requires Committed(env, snaps, items, mid, lo, Finished(need, items, lo), db.files, db.chunks)
    modifies db`files, db`chunks, remaining
    ensures ok ==>
      && from == (if hi - lo < 256 then lo else hi) && Waiting(env, items, from, hi, rest, restIdxs)
      && Counts(remaining[..], need, items, from)
      && Committed(env, snaps, items, mid, from, Finished(need, items, from), db.files, db.chunks)
    ensures !ok ==>
      && done in {lo, hi} && recorded <= Finished(need, items, done)
      && Committed(env, snaps, items, mid, done, recorded, db.files, db.chunks)
  {
    ok, rest, restIdxs, from, done, recorded := true, rows, fidxs, lo, lo, {};
    if |rows| >= CHUNK_FLUSH_ROWS {
      ok, done, recorded := Flush(env, db, snaps, need, remaining, rows, fidxs, items, mid, lo, hi);
      rest, restIdxs, from := [], [], hi;
      assert items[hi..hi] == [];
    }
  }

  /** Flushes what is left, if anything. */
  method FlushRest(env: Env, db: Db, snaps: map<Path, Hash>, need: seq<Path>, remaining: array<nat>,
                   rows: seq<Row>, fidxs: seq<nat>,
                   ghost items: seq<Item>, ghost mid: Tables, ghost lo: nat, ghost hi: nat)
    returns (ok: bool, ghost done: nat, ghost recorded: set<Path>)
    requires Filed(snaps, need, items) && lo <= hi <= |items| && Waiting(env, items, lo, hi, rows, fidxs)
    requires Counts(remaining[..], need, items, lo)
    requires Committed(env, snaps, items, mid, lo, Finished(need, items, lo), db.files, db.chunks)
    modifies db`files, db`chunks, remaining
    ensures done in {lo, hi} && recorded <= Finished(need, items, done)
    ensures Committed(env, snaps, items, mid, done, recorded, db.files, db.chunks)
    ensures ok ==> done == hi && recorded == Finished(need, items, hi)
  {
    ok, done, recorded := true, lo, Finished(need, items, lo);
    if |rows| > 0 {
      ok, done, recorded := Flush(env, db, snaps, need, remaining, rows, fidxs, items, mid, lo, hi);
    }
  }

  /** One batch from the pipeline, as rows. */
  method EmbedRows(env: Env, engine: Engine, items: seq<Item>, batch: nat, cursor: nat, rx: Option<nat>,
                   ghost base: seq<seq<string>>)
    returns (ok: bool, rows: seq<Row>, idxs: seq<nat>, next: Option<nat>, ghost reach: nat)
    requires batch > 0 && cursor < |items|
    requires Pipeline(engine.remote, engine.submitted, base, Texts(items), batch, cursor, rx)
    modifies engine
    ensures SentUpTo(engine.remote, engine.submitted, base, Texts(items), batch, reach)
    ensures reach <= cursor + 2 * batch
    ensures var end := End(cursor, batch, |items|);
      ok ==>
        && Waiting(env, items, cursor, end, rows, idxs)
        && Pipeline(engine.remote, engine.submitted, base, Texts(items), batch, end, next)
  {
    var end := End(cursor, batch, |items|);
    rows, idxs, ok := [], [], false;
    var embs;
    embs, next, reach := EmbedBatch(env, engine, Texts(items), batch, cursor, rx, base);
    if embs.None? || |embs.value| != end - cursor {
      return;
    }
    assert Texts(items)[cursor..end] == Texts(items[cursor..end]);
    var built;
    built, idxs := BuildRows(env, items[cursor..end], embs.value);
    if built.None? {
      return;
    }
    assert items[cursor..end][0..end - cursor] == items[cursor..end];
    ok, rows := true, built.value;
  }

  /** One turn of the loop: embed the batch at the cursor, and flush once 256 rows wait. */
  method EmbedTurn(env: Env, db: Db, engine: Engine, snaps: map<Path, Hash>, need: seq<Path>, items: seq<Item>,
                   remaining: array<nat>, batch: nat, cursor: nat, waiting: seq<Row>, waitingIdxs: seq<nat>,
                   rx: Option<nat>, ghost mid: Tables, ghost base: seq<seq<string>>, ghost lo: nat)
    returns (ok: bool, pending: seq<Row>, fidxs: seq<nat>, next: Option<nat>,
             ghost from: nat, ghost done: nat, ghost recorded: set<Path>, ghost reach: nat)
    requires batch > 0 && lo <= cursor < |items| && cursor < lo + 256 && Filed(snaps, need, items)
    requires Waiting(env, items, lo, cursor, waiting, waitingIdxs) && Counts(remaining[..], need, items, lo)
    requires Committed(env, snaps, items, mid, lo, Finished(need, items, lo), db.files, db.chunks)
    requires Pipeline(engine.remote, engine.submitted, base, Texts(items), batch, cursor, rx)
    modifies db`files, db`chunks, engine, remaining
    ensures SentUpTo(engine.remote, engine.submitted, base, Texts(items), batch, reach) && reach <= cursor + 2 * batch
    ensures var end := End(cursor, batch, |items|);
      ok ==>
        && from <= end < from + 256 && Waiting(env, items, from, end, pending, fidxs)
        && Counts(remaining[..], need, items, from)
        && Committed(env, snaps, items, mid, from, Finished(need, items, from), db.files, db.chunks)
        && Pipeline(engine.remote, engine.submitted, base, Texts(items), batch, end, next)
    ensures !ok ==>
      && lo <= done <= |items| && recorded <= Finished(need, items, done)
      && Committed(env, snaps, items, mid, done, recorded, db.files, db.chunks)
  {
    pending, fidxs, from, done, recorded := waiting, waitingIdxs, lo, lo, Finished(need, items, lo);
    var rows, idxs;
    ok, rows, idxs, next, reach := EmbedRows(env, engine, items, batch, cursor, rx, base);
    if ok {
      var end := End(cursor, batch, |items|);
      WaitingMore(env, items, lo, cursor, end, pending, fidxs, rows, idxs);
      ok, pending, fidxs, from, done, recorded :=
        FlushWhenFull(env, db, snaps, need, remaining, pending + rows, fidxs + idxs, items, mid, lo, end);
    }
  }

  method EmbedAll(env: Env, db: Db, engine: Engine, snaps: map<Path, Hash>, need: seq<Path>, items: seq<Item>,
                  remaining: array<nat>, batch: nat, ghost mid: Tables)
    returns (outcome: Outcome, ghost done: nat, ghost recorded: set<Path>, ghost reach: nat)
    requires batch > 0 && Filed(snaps, need, items) && Counts(remaining[..], need, items, 0)
    requires Committed(env, snaps, items, mid, 0, Finished(need, items, 0), db.files, db.chunks)
    modifies db`files, db`chunks, engine, remaining
    ensures outcome in {Failed, Paused, Complete} && done <= |items| && recorded <= Finished(need, items, done)
    ensures Committed(env, snaps, items, mid, done, recorded, db.files, db.chunks)
    ensures outcome != Failed ==> recorded == Finished(need, items, done)
    ensures outcome == Complete ==> done == |items|
    ensures SentUpTo(engine.remote, engine.submitted, old(engine.submitted), Texts(items), batch, reach)
    ensures outcome == Complete ==> reach == |items|
    ensures outcome == Paused ==> reach <= End(done, batch, |items|)
    ensures reach < done + 256 + 2 * batch
  {
    var n := |items|;
    ghost var texts := Texts(items);
    ghost var base := engine.submitted;
    ghost var lo: nat := 0;
    var cursor := 0;
    var pending: seq<Row>, fidxs: seq<nat> := [], [];
    var rx: Option<nat> := None;
    var paused := false;
    assert items[0..0] == [];
    while cursor < n
      invariant lo <= cursor <= n && |texts| == n
      invariant Waiting(env, items, lo, cursor, pending, fidxs) && cursor < lo + 256
      invariant Counts(remaining[..], need, items, lo)
      invariant Committed(env, snaps, items, mid, lo, Finished(need, items, lo), db.files, db.chunks)
      invariant Pipeline(engine.remote, engine.submitted, base, texts, batch, cursor, rx)
      decreases n - cursor
    {
      var cancelled := Oracle();
      if cancelled {
        paused := true;
        break;
      }
      var ok;
      ok, pending, fidxs, rx, lo, done, recorded, reach :=
        EmbedTurn(env, db, engine, snaps, need, items, remaining, batch, cursor, pending, fidxs, rx, mid, base, lo);
      if !ok {
        return Failed, done, recorded, reach;
      }
      cursor := End(cursor, batch, n);
    }
    reach := if rx.Some? then End(cursor, batch, n) else cursor;
    var flushed;
    flushed, done, recorded := FlushRest(env, db, snaps, need, remaining, pending, fidxs, items, mid, lo, cursor);
    outcome := if !flushed then Failed else if paused then Paused else Complete;
  }

  lemma WaitingMore(env: Env, items: seq<Item>, lo: nat, mid: nat, hi: nat, rows: seq<Row>, fidxs: seq<nat>,
                    more: seq<Row>, idxs: seq<nat>)
    requires lo <= mid <= hi <= |items| && Waiting(env, items, lo, mid, rows, fidxs)
    requires Waiting(env, items, mid, hi, more, idxs)
    ensures Waiting(env, items, lo, hi, rows + more, fidxs + idxs)
  {
    assert items[lo..hi] == items[lo..mid] + items[mid..hi];
  }

  // ---------- the whole run ----------

  method KeysOf(snaps: map<Path, Hash>) returns (keys: seq<Path>)
    ensures Lists(keys, snaps.Keys)
  {
    keys := [];
    var left := snaps.Keys;
    while left != {}
      invariant left <= snaps.Keys && Lists(keys, snaps.Keys - left)
      decreases |left|
    {
      var p :| p in left;
      left := left - {p};
      keys := keys + [p];
    }
  }

  function PathsOf(rows: seq<FileRow>): seq<Path> {
    seq(|rows|, k requires 0 <= k < |rows| => rows[k].path)
  }

  lemma ListsBoth(a: seq<Path>, b: seq<Path>, as': set<Path>, bs: set<Path>)
    requires Lists(a, as') && Lists(b, bs) && as' !! bs
    ensures Lists(a + b, as' + bs)
  {
    forall i, j | 0 <= i < j < |a + b|
      ensures (a + b)[i] != (a + b)[j]
    {
      assert i < |a| <= j ==> a[i] in as' && b[j - |a|] in bs;
    }
  }

  /** Which files to reindex, and whose rows to delete first. */
  method Plan(snaps: map<Path, Hash>, previous: seq<FileRow>, forced: bool)
    returns (need: seq<Path>, listed: seq<Path>)
    ensures Lists(need, ToReindex(forced, snaps, Recorded(previous)))
    ensures SetOf(listed) == ToDelete(forced, snaps, Recorded(previous))
  {
    ghost var prev := Recorded(previous);
    if forced {
      need := KeysOf(snaps);
      listed := PathsOf(previous);
      forall p
        ensures p in listed <==> p in prev
      {
        RecordedKeys(previous, p);
        if k :| 0 <= k < |previous| && previous[k].path == p {
          assert listed[k] == p;
        }
      }
    } else {
      var changes := DetectChanges(snaps, previous);
      need := changes.added + changes.modified;
      ListsBoth(changes.added, changes.modified, Added(snaps, prev), Modified(snaps, prev));
      listed := changes.removed + need;
      forall p
        ensures p in changes.removed <==> p in prev && p !in snaps
      {
        GoneMembers(snaps, previous, p);
      }
    }
  }

  /** Counts the queue and records the files without chunks, which are done at once. */
  method Start(env: Env, db: Db, snaps: map<Path, Hash>, need: seq<Path>, items: seq<Item>, ghost mid: Tables)
    returns (ok: bool, remaining: array<nat>)
    requires Filed(snaps, need, items) && db.Now() == mid
    modifies db`files
    ensures fresh(remaining) && Counts(remaining[..], need, items, 0)
    ensures Committed(env, snaps, items, mid, 0, if ok then Finished(need, items, 0) else {}, db.files, db.chunks)
  {
    remaining := CountRemaining(snaps, need, items);
    var zeroChunk := ZeroChunkFiles(need, remaining, items);
    assert items[..0] == [] && RowsOf(env, []) == [] && mid.chunks + [] == mid.chunks;
    ok := true;
    if zeroChunk != [] {
      ok := db.UpsertFiles(snaps, zeroChunk);
    } else {
      assert SetOf(zeroChunk) == {};
    }
  }

  /** The part of a run behind its deletion phase. */
  method Reindex(env: Env, db: Db, engine: Engine, snaps: map<Path, Hash>, need: seq<Path>, recommended: nat,
                 ghost mid: Tables)
    returns (outcome: Outcome, ghost done: nat, ghost recorded: set<Path>, ghost reach: nat)
    requires Distinct(need) && (forall p :: p in need ==> p in snaps) && db.Now() == mid
    modifies db, engine
    ensures var items := Queue(env, snaps, need);
      var batch := if recommended > 1 then recommended else 1;
      && outcome in {Failed, Paused, Complete} && done <= |items| && recorded <= Finished(need, items, done)
      && Committed(env, snaps, items, mid, done, recorded, db.files, db.chunks)
      && (outcome != Failed ==> recorded == Finished(need, items, done) && db.project == Some(INDEX_FORMAT_VERSION))
      && (outcome == Complete ==> done == reach == |items|)
      && (outcome == Paused ==> reach <= End(done, batch, |items|))
      && reach < done + 256 + 2 * batch
      && SentUpTo(engine.remote, engine.submitted, old(engine.submitted), Texts(items), batch, reach)
    ensures db.project in {mid.project, Some(INDEX_FORMAT_VERSION)}
  {
    var items := Queue(env, snaps, need);
    QueueHolds(env, snaps, need);
    var ok, remaining := Start(env, db, snaps, need, items, mid);
    if !ok {
      return Failed, 0, {}, 0;
    }
    var batch := if recommended > 1 then recommended else 1;
    outcome, done, recorded, reach := EmbedAll(env, db, engine, snaps, need, items, remaining, batch, mid);
    if outcome == Failed {
      return;
    }
    var indexed := Oracle();
    if !indexed {
      outcome := Failed;
      return;
    }
    ok := db.UpsertProject();
    if !ok {
      outcome := Failed;
    }
  }

  method DeleteListed(db: Db, listed: seq<Path>) returns (ok: bool)
    modifies db
    ensures if ok then Deleted(old(db.Now()), SetOf(listed), db.Now()) else db.Now() == old(db.Now())
  {
    ok := true;
    if listed != [] {
      ok := db.DeleteFor(listed);
    } else {
      assert SetOf(listed) == {};
    }
  }

  /** Everything up to and including the deletion phase, which is one step. */
  method PlanAndDelete(db: Db, snaps: map<Path, Hash>, refresh: bool)
    returns (ok: bool, need: seq<Path>, ghost run: Run)
    modifies db
    ensures run.snaps == snaps && run.refresh == refresh && run.need == need && run.outcome == Failed
    ensures run.done == 0 && run.recorded == {}
    ensures !ok ==> run.deleted.None? && db.Now() == old(db.Now())
    ensures var before := old(db.Now());
      ok ==>
        && run.deleted == Some(db.Now()) && Planned(run, before)
        && Deleted(before, ToDelete(IsForced(run, before), snaps, Previous(run, before)), db.Now())
  {
    var rows := db.List();
    var previous := if rows.Some? then rows.value else [];
    run := Run(snaps, rows.Some?, refresh, Failed, [], None, 0, {});
    need := [];
    ok := Oracle();
    if !ok {
      return;
    }
    var prev := RecordedRows(previous);
    var forced := refresh || Stale(db.project) || (db.project.None? && |db.chunks| > 0)
                  || (prev != map[] && |db.chunks| == 0);
    var listed;
    need, listed := Plan(snaps, previous, forced);
    run := run.(need := need);
    ok := DeleteListed(db, listed);
    if ok {
      run := run.(deleted := Some(db.Now()));
    }
  }

  method IndexProject(env: Env, db: Db, engine: Engine, snaps: map<Path, Hash>, refresh: bool, recommended: nat)
    returns (outcome: Outcome, ghost run: Run, ghost reach: nat)
    modifies db, engine
    ensures run.snaps == snaps && run.refresh == refresh && run.outcome == outcome
    ensures Ran(env, old(db.Now()), run, db.Now())
    ensures run.deleted.None? ==> engine.submitted == old(engine.submitted)
    ensures run.deleted.Some? ==>
      var items := Queue(env, snaps, run.need);
      var batch := if recommended > 1 then recommended else 1;
      && SentUpTo(engine.remote, engine.submitted, old(engine.submitted), Texts(items), batch, reach)
      && (outcome == Complete ==> reach == |items|)
      && (outcome == Paused ==> reach <= End(run.done, batch, |items|))
      && reach < run.done + 256 + 2 * batch
  {
    var ok, need;
    ok, need, run := PlanAndDelete(db, snaps, refresh);
    if !ok {
      return Failed, run, 0;
    }
    ghost var mid := db.Now();
    if need == [] {
      return NothingToDo, run.(outcome := NothingToDo), 0;
    }
    ghost var done, recorded;
    outcome, done, recorded, reach := Reindex(env, db, engine, snaps, need, recommended, mid);
    run := run.(outcome := outcome, done := done, recorded := recorded);
  }
}
