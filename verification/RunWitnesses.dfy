/** Runs on which the indexing protocol does less than one might expect. */
module RunWitnesses {
  import opened Wrappers
  import opened Manifest
  import opened IndexRun

  /** File "z" has no chunks, every other file has one. */
  const ENV := Env((p: Path, h: Hash) => if p == "z" then [] else ["text"], (t: string) => [], (v: Vector) => false)

  const HASH: Hash := [1]

  const CHUNK := Chunk("a", HASH, 0, "text")

  const ROW := Row(CHUNK, [])

  lemma QueueOfA(snaps: map<Path, Hash>)
    requires "a" in snaps && snaps["a"] == HASH
    ensures Queue(ENV, snaps, ["a"]) == [Item(CHUNK, 0)] && RowsOf(ENV, [Item(CHUNK, 0)]) == [ROW]
  {
    assert ["a"][..0] == [];
    assert FileItems(ENV, "a", HASH, 0) == [Item(CHUNK, 0)];
  }

  lemma LeftOfA()
    ensures Left([Item(CHUNK, 0)], 1, "a") == 0 && Left([Item(CHUNK, 0)], 0, "a") == 1
    ensures Finished(["a"], [Item(CHUNK, 0)], 1) == {"a"} && Finished(["a"], [Item(CHUNK, 0)], 0) == {}
  {
  }

  /** A first run that fails behind its last checkpoint leaves no project row, so
    * the next one, on the same disk, deletes the checkpoint. */
  lemma FailedFirstRunLosesItsCheckpoints() returns (run: Run, mid: Tables, next: Run, after: Tables)
    ensures Ran(ENV, NO_TABLES, run, mid) && run.outcome == Failed && run.listed
    ensures Ran(ENV, mid, next, after) && next.listed && !next.refresh && next.snaps == run.snaps
    ensures "a" in UpToDate(mid.files, run.snaps) && after.files == map[]
    ensures "a" in next.need && IsForced(next, mid)
  {
    var snaps: map<Path, Hash> := map["a" := HASH];
    QueueOfA(snaps);
    LeftOfA();
    run := Run(snaps, true, false, Failed, ["a"], Some(NO_TABLES), 1, {"a"});
    mid := Tables(snaps, [ROW], None);
    var bare := Tables(map[], [ROW], None);
    next := Run(snaps, true, false, Failed, ["a"], Some(bare), 0, {});
    after := bare;
    assert [Item(CHUNK, 0)][..1] == [Item(CHUNK, 0)] && [Item(CHUNK, 0)][..0] == [];
    assert Advanced(ENV, run, NO_TABLES, mid);
    assert Advanced(ENV, next, bare, after);
  }

  /** A run that cannot read the records completes and leaves that of a vanished file. */
  lemma UnreadRecordsOutliveTheirFiles() returns (before: Tables, run: Run, after: Tables)
    ensures Inv(ENV, before) && Ran(ENV, before, run, after) && run.outcome == Complete && !run.listed
    ensures "z" !in run.snaps && "z" in after.files
  {
    var snaps: map<Path, Hash> := map["a" := HASH];
    QueueOfA(snaps);
    LeftOfA();
    before := Tables(map["z" := HASH], [], Some(INDEX_FORMAT_VERSION));
    run := Run(snaps, false, false, Complete, ["a"], Some(before), 1, {"a"});
    after := Tables(map["z" := HASH, "a" := HASH], [ROW], Some(INDEX_FORMAT_VERSION));
    assert [Item(CHUNK, 0)][..1] == [Item(CHUNK, 0)];
    assert [] + [ROW] == [ROW];
    assert Deleted(before, {"a"}, before);
    assert Advanced(ENV, run, before, after);
  }

  const BOTH: map<Path, Hash> := map["a" := HASH, "z" := HASH]

  const NEED := ["a", "z"]

  lemma QueueOfBoth()
    ensures Queue(ENV, BOTH, NEED) == [Item(CHUNK, 0)]
    ensures Finished(NEED, [Item(CHUNK, 0)], 0) == {"z"}
  {
    QueueOfA(BOTH);
    LeftOfA();
    assert NEED[..1] == ["a"] && FileItems(ENV, "z", HASH, 1) == [];
    assert Left([Item(CHUNK, 0)], 1, "z") == 0;
  }

  const PAUSED := Run(BOTH, true, false, Paused, NEED, Some(NO_TABLES), 0, {"z"})

  const PAUSED_TABLES := Tables(map["z" := HASH], [], Some(INDEX_FORMAT_VERSION))

  lemma FirstRunIsPaused()
    ensures Ran(ENV, NO_TABLES, PAUSED, PAUSED_TABLES)
  {
    QueueOfBoth();
    assert [Item(CHUNK, 0)][..0] == [] && RowsOf(ENV, []) == [];
    assert Upserted(map[], BOTH, {"z"}) == map["z" := HASH];
    assert Advanced(ENV, PAUSED, NO_TABLES, PAUSED_TABLES);
  }

  /** A first run, paused before its first batch, has recorded only the file
    * without chunks; the next one, on the same disk, takes the empty chunks table
    * for damage and reindexes that file as well. */
  lemma PauseWithoutRowsStartsOver() returns (next: Run, after: Tables)
    ensures Ran(ENV, NO_TABLES, PAUSED, PAUSED_TABLES) && "z" in UpToDate(PAUSED_TABLES.files, BOTH)
    ensures Ran(ENV, PAUSED_TABLES, next, after) && next.listed && !next.refresh && next.snaps == PAUSED.snaps
    ensures "z" in next.need && IsForced(next, PAUSED_TABLES)
  {
    FirstRunIsPaused();
    QueueOfBoth();
    assert [Item(CHUNK, 0)][..0] == [] && RowsOf(ENV, []) == [];
    after := Tables(map[], [], Some(INDEX_FORMAT_VERSION));
    next := Run(BOTH, true, false, Failed, NEED, Some(after), 0, {});
    assert Advanced(ENV, next, after, after);
  }
}
