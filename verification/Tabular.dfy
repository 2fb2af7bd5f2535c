/** Row-aware chunks of a tabular file. */
module Tabular {
  import opened Wrappers
  import opened Text
  import opened Packing

  /** A line of text: its 1-based number and its bytes lo to hi, without the line ending. */
  datatype Line = Line(phys: nat, lo: nat, hi: nat)

  const NEWLINE := Byte(NL, true, true)

  function LineEnd(t: seq<Byte>, i: nat): (e: nat)
    requires i <= |t|
    ensures i <= e <= |t| && (e < |t| ==> t[e].code == NL) && forall k :: i <= k < e ==> t[k].code != NL
    decreases |t| - i
  {
    if i == |t| || t[i].code == NL then i else LineEnd(t, i + 1)
  }

  /** `str::lines` from offset i on: a line feed or a carriage return with a line
    * feed ends a line, and a final line feed opens no further one. */
  function LinesFrom(t: seq<Byte>, i: nat, phys: nat): seq<Line>
    requires i <= |t|
    decreases |t| - i
  {
    if i == |t| then []
    else
      var e := LineEnd(t, i);
      var hi := if i < e < |t| && t[e - 1].code == CR then e - 1 else e;
      [Line(phys, i, hi)] + if e == |t| then [] else LinesFrom(t, e + 1, phys + 1)
  }

  /** The records: every line but the first that is not empty. */
  function Records(ls: seq<Line>): seq<Line> {
    if |ls| == 0 then []
    else (if ls[0].phys > 1 && ls[0].lo < ls[0].hi then [ls[0]] else []) + Records(ls[1..])
  }

  function RowsOf(t: seq<Byte>): seq<Line> {
    Records(LinesFrom(t, 0, 1))
  }

  ghost predicate OnLine(t: seq<Byte>, l: Line) {
    l.lo <= l.hi <= |t| && forall p :: l.lo <= p <= l.hi ==> LineOf(t, p) == l.phys
  }

  lemma {:induction false} NoNewlines(t: seq<Byte>, i: nat, p: nat)
    requires i <= p <= |t| && forall k :: i <= k < p ==> t[k].code != NL
    ensures Newlines(t, p) == Newlines(t, i)
    decreases p
  {
    if i < p {
      NoNewlines(t, i, p - 1);
    }
  }

  lemma {:induction false} LinesAreTrue(t: seq<Byte>, i: nat, phys: nat)
    requires i <= |t| && LineOf(t, i) == phys
    ensures forall l :: l in LinesFrom(t, i, phys) ==> OnLine(t, l)
    decreases |t| - i
  {
    if i < |t| {
      var e := LineEnd(t, i);
      forall p | i <= p <= e
        ensures LineOf(t, p) == phys
      {
        NoNewlines(t, i, p);
      }
      assert LineOf(t, e) == phys;
      if e < |t| {
        assert LineOf(t, e + 1) == phys + 1;
        LinesAreTrue(t, e + 1, phys + 1);
      }
    }
  }

  lemma {:induction false} RecordsAreLines(ls: seq<Line>)
    ensures forall l :: l in Records(ls) ==> l in ls && l.phys > 1 && l.lo < l.hi
  {
    if |ls| > 0 {
      RecordsAreLines(ls[1..]);
    }
  }

  /** Every record carries its true line number in the file. */
  lemma RowsAreTrue(t: seq<Byte>)
    ensures forall l :: l in RowsOf(t) ==> OnLine(t, l) && l.phys > 1 && l.lo < l.hi
  {
    LinesAreTrue(t, 0, 1);
    RecordsAreLines(LinesFrom(t, 0, 1));
  }

  // ---------- packing ----------

  ghost predicate Inside(t: seq<Byte>, rows: seq<Line>) {
    forall l :: l in rows ==> l.lo <= l.hi <= |t|
  }

  /** The bytes rows i to j take with line feeds between them. */
  function JoinedSize(rows: seq<Line>, i: nat, j: nat): int
    requires i < j <= |rows|
  {
    var size := rows[j - 1].hi - rows[j - 1].lo;
    if j == i + 1 then size else JoinedSize(rows, i, j - 1) + 1 + size
  }

  function JoinedRows(t: seq<Byte>, rows: seq<Line>, i: nat, j: nat): (body: seq<Byte>)
    requires i < j <= |rows| && Inside(t, rows)
    ensures |body| == JoinedSize(rows, i, j)
  {
    var row := t[rows[j - 1].lo..rows[j - 1].hi];
    if j == i + 1 then row else JoinedRows(t, rows, i, j - 1) + [NEWLINE] + row
  }

  ghost function Fits(rows: seq<Line>, target: nat): (nat, nat) -> bool {
    (i: nat, j: nat) => i < j <= |rows| && JoinedSize(rows, i, j) <= target
  }

  lemma SizeDropsFirst(rows: seq<Line>, i: nat, j: nat)
    requires i + 1 < j <= |rows| && rows[i].lo <= rows[i].hi
    ensures JoinedSize(rows, i + 1, j) < JoinedSize(rows, i, j)
    decreases j
  {
    if i + 2 < j {
      SizeDropsFirst(rows, i, j - 1);
    } else {
      assert JoinedSize(rows, i, i + 1) == rows[i].hi - rows[i].lo;
    }
  }

  lemma {:induction false} SizeShrinks(rows: seq<Line>, i: nat, j: nat, i': nat, j': nat)
    requires i <= i' < j' <= j <= |rows| && forall l :: l in rows ==> l.lo <= l.hi
    ensures JoinedSize(rows, i', j') <= JoinedSize(rows, i, j)
    decreases j - i
  {
    if j' < j {
      SizeShrinks(rows, i, j - 1, i', j');
    } else if i < i' {
      SizeDropsFirst(rows, i, j);
      SizeShrinks(rows, i + 1, j, i', j');
    }
  }

  lemma FitsShrinks(rows: seq<Line>, target: nat)
    requires forall l :: l in rows ==> l.lo <= l.hi
    ensures Shrinks(Fits(rows, target))
  {
    var fits := Fits(rows, target);
    forall i: nat, j: nat, i': nat, j': nat | i <= i' < j' <= j && fits(i, j)
      ensures fits(i', j')
    {
      SizeShrinks(rows, i, j, i', j');
    }
  }

  datatype RowChunk = RowChunk(startLine: nat, endLine: nat, body: seq<Byte>)

  function ChunkOf(t: seq<Byte>, rows: seq<Line>, i: nat, j: nat): RowChunk
    requires i < j <= |rows| && Inside(t, rows)
  {
    RowChunk(rows[i].phys, rows[j - 1].phys, JoinedRows(t, rows, i, j))
  }

  /** The chunks of a cut. */
  ghost predicate ChunksOf(t: seq<Byte>, rows: seq<Line>, ends: seq<nat>, n: nat, chunks: seq<RowChunk>)
    requires Inside(t, rows) && n <= |rows| && IsCut(ends, n)
  {
    && |chunks| == |ends|
    && forall k {:trigger chunks[k]} :: 0 <= k < |ends| ==> IsChunk(t, rows, From(ends, k), ends[k], chunks[k])
  }

  ghost predicate IsChunk(t: seq<Byte>, rows: seq<Line>, i: nat, j: nat, chunk: RowChunk)
    requires Inside(t, rows)
  {
    i < j <= |rows| && chunk == ChunkOf(t, rows, i, j)
  }

  lemma ChunksMore(t: seq<Byte>, rows: seq<Line>, fits: (nat, nat) -> bool, ends: seq<nat>, i: nat, j: nat,
                   chunks: seq<RowChunk>)
    requires Inside(t, rows) && i < j <= |rows| && IsCut(ends, i) && ChunksOf(t, rows, ends, i, chunks)
    requires Allowed(fits, i, j) && Closed(fits, ends)
    ensures GreedyCut(fits, ends + [j], j) && (!fits(i, j + 1) ==> Closed(fits, ends + [j]))
    ensures ChunksOf(t, rows, ends + [j], j, chunks + [ChunkOf(t, rows, i, j)])
  {
    CutMore(fits, ends, i, j);
    var more, all := ends + [j], chunks + [ChunkOf(t, rows, i, j)];
    forall k {:trigger all[k]} | 0 <= k < |more|
      ensures IsChunk(t, rows, From(more, k), more[k], all[k])
    {
      assert From(more, k) == From(ends, k);
      assert k < |ends| ==> IsChunk(t, rows, From(ends, k), ends[k], chunks[k]);
    }
  }

  /** One more row in a group that starts at row i. */
  lemma GrowsBy(t: seq<Byte>, rows: seq<Line>, i: nat, j: nat)
    requires Inside(t, rows) && i <= j < |rows|
    ensures var line := t[rows[j].lo..rows[j].hi];
      if i == j then ChunkOf(t, rows, i, j + 1) == RowChunk(rows[j].phys, rows[j].phys, line)
      else
        var group := ChunkOf(t, rows, i, j);
        && ChunkOf(t, rows, i, j + 1) == RowChunk(group.startLine, rows[j].phys, group.body + [NEWLINE] + line)
        && JoinedSize(rows, i, j + 1) == |group.body| + 1 + |line|
  {
  }

  /** Puts row k into the pending group, or closes that group and opens the next. */
  method PackRow(content: seq<Byte>, rows: seq<Line>, target: nat, k: nat, pending: Option<RowChunk>, ghost start: nat)
    returns (full: Option<RowChunk>, group: RowChunk)
    requires Inside(content, rows) && start <= k < |rows| && (pending.None? ==> start == k)
    requires pending.Some? ==> start < k && pending.value == ChunkOf(content, rows, start, k)
    ensures if full.Some?
            then full == pending && !Fits(rows, target)(start, k + 1) && group == ChunkOf(content, rows, k, k + 1)
            else group == ChunkOf(content, rows, start, k + 1) && Allowed(Fits(rows, target), start, k + 1)
  {
    var line := content[rows[k].lo..rows[k].hi];
    var startNew := pending.None? || |pending.value.body| + 1 + |line| > target;
    GrowsBy(content, rows, start, k);
    if startNew {
      GrowsBy(content, rows, k, k);
      full := pending;
      group := RowChunk(rows[k].phys, rows[k].phys, line);
    } else {
      full := None;
      group := RowChunk(pending.value.startLine, rows[k].phys, pending.value.body + [NEWLINE] + line);
    }
  }

  /** The chunks are those of a greedy cut of the records. */
  ghost predicate PackedRows(content: seq<Byte>, target: nat, chunks: seq<RowChunk>) {
    var rows := RowsOf(content);
    Inside(content, rows) &&
    exists ends {:trigger GreedyCut(Fits(rows, target), ends, |rows|)} ::
      GreedyCut(Fits(rows, target), ends, |rows|) && ChunksOf(content, rows, ends, |rows|, chunks)
  }

  /** Packs the records of a tabular file in order, each group until the next
    * record would pass the byte target. */
  method ChunkTabularFile(content: seq<Byte>, target: nat) returns (done: seq<RowChunk>)
    ensures PackedRows(content, target, done)
  {
    var rows := RowsOf(content);
    RowsAreTrue(content);
    ghost var fits := Fits(rows, target);
    done := [];
    ghost var ends: seq<nat> := [];
    var pending: Option<RowChunk> := None;
    ghost var start: nat := 0;
    for k := 0 to |rows|
      invariant start <= k && (pending.None? <==> k == 0) && (pending.Some? ==> start < k)
      invariant IsCut(ends, start) && ChunksOf(content, rows, ends, start, done)
      invariant pending.Some? ==> pending.value == ChunkOf(content, rows, start, k) && Allowed(fits, start, k)
      invariant Closed(fits, ends)
    {
      var full, group := PackRow(content, rows, target, k, pending, start);
      if full.Some? {
        ChunksMore(content, rows, fits, ends, start, k, done);
        done, ends, start := done + [full.value], ends + [k], k;
      }
      pending := Some(group);
    }
    if pending.Some? {
      ChunksMore(content, rows, fits, ends, start, |rows|, done);
      done, ends := done + [pending.value], ends + [|rows|];
    }
    assert GreedyCut(fits, ends, |rows|);
  }

  /** Each chunk starts and ends on the true lines of its first and last record,
    * and fits the target unless it is a single record. */
  lemma ChunkLinesAreTrue(content: seq<Byte>, target: nat, ends: seq<nat>, done: seq<RowChunk>, k: nat)
    requires Inside(content, RowsOf(content))
    requires var rows := RowsOf(content);
      GreedyCut(Fits(rows, target), ends, |rows|) && ChunksOf(content, rows, ends, |rows|, done)
    requires k < |done|
    ensures var rows := RowsOf(content);
      && From(ends, k) < ends[k] <= |rows|
      && done[k].startLine == LineOf(content, rows[From(ends, k)].lo)
      && done[k].endLine == LineOf(content, rows[ends[k] - 1].hi)
      && (|done[k].body| <= target || ends[k] == From(ends, k) + 1)
  {
    var rows := RowsOf(content);
    RowsAreTrue(content);
    var i, j := From(ends, k), ends[k];
    assert Allowed(Fits(rows, target), i, j) && IsChunk(content, rows, i, j, done[k]);
    assert OnLine(content, rows[i]) && OnLine(content, rows[j - 1]);
  }

  /** All records, in order, and no packing that keeps to the target has fewer chunks. */
  lemma {:induction false} TabularIsMinimal(content: seq<Byte>, target: nat, ends: seq<nat>, other: seq<nat>)
    requires var rows := RowsOf(content);
      GreedyCut(Fits(rows, target), ends, |rows|) && AllowedCut(Fits(rows, target), other, |rows|)
    ensures |ends| <= |other|
    ensures Concat(Groups(RowsOf(content), ends, |ends|)) == RowsOf(content)
  {
    var rows := RowsOf(content);
    RowsAreTrue(content);
    FitsShrinks(rows, target);
    GreedyIsMinimal(Fits(rows, target), ends, other, |rows|);
    GroupsTile(rows, ends, |ends|);
    assert rows[..|rows|] == rows;
  }
}
