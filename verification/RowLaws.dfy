/** What a record of a tabular file is, and where its text ends up. */
module RowLaws {
  import opened Text
  import opened Tabular

  predicate LineFeedAt(t: seq<Byte>, p: nat) {
    p < |t| && t[p].code == NL
  }

  /** A line feed, or a carriage return with one behind it. */
  predicate LineEndsAt(t: seq<Byte>, p: nat) {
    LineFeedAt(t, p) || (p < |t| && t[p].code == CR && LineFeedAt(t, p + 1))
  }

  ghost predicate Starts(ls: seq<Line>, p: nat) {
    exists k :: 0 <= k < |ls| && ls[k].lo == p
  }

  /** Lines between i and n follow one another and are numbered in turn from phys on. */
  ghost predicate InTurn(ls: seq<Line>, i: nat, n: nat, phys: nat) {
    && (forall k :: 0 <= k < |ls| ==> i <= ls[k].lo <= ls[k].hi <= n && ls[k].phys == phys + k)
    && Apart(ls)
  }

  ghost predicate Apart(ls: seq<Line>) {
    forall j, k :: 0 <= j < k < |ls| ==> ls[j].hi < ls[k].lo
  }

  // ---------- lines ----------

  /** The first line from i on, which ends at the line feed at e, or where the text does. */
  function FirstLine(t: seq<Byte>, i: nat, phys: nat): Line
    requires i < |t|
  {
    var e := LineEnd(t, i);
    Line(phys, i, if i < e < |t| && t[e - 1].code == CR then e - 1 else e)
  }

  /** The lines behind the first one from i on. */
  function LaterLines(t: seq<Byte>, i: nat, phys: nat): seq<Line>
    requires i < |t|
  {
    var e := LineEnd(t, i);
    if e == |t| then [] else LinesFrom(t, e + 1, phys + 1)
  }

  lemma LinesSplit(t: seq<Byte>, i: nat, phys: nat)
    requires i < |t|
    ensures LinesFrom(t, i, phys) == [FirstLine(t, i, phys)] + LaterLines(t, i, phys)
  {
  }

  lemma InTurnCons(first: Line, rest: seq<Line>, n: nat, phys: nat, next: nat)
    requires first.lo <= first.hi < next && first.hi <= n && first.phys == phys && InTurn(rest, next, n, phys + 1)
    ensures InTurn([first] + rest, first.lo, n, phys)
  {
    var ls := [first] + rest;
    forall k | 0 <= k < |ls|
      ensures first.lo <= ls[k].lo <= ls[k].hi <= n && ls[k].phys == phys + k
    {
      assert k > 0 ==> ls[k] == rest[k - 1];
    }
    forall j, k | 0 <= j < k < |ls|
      ensures ls[j].hi < ls[k].lo
    {
      assert ls[k] == rest[k - 1] && (j > 0 ==> ls[j] == rest[j - 1]);
    }
  }

  lemma {:induction false} LinesInTurn(t: seq<Byte>, i: nat, phys: nat)
    requires i <= |t|
    ensures InTurn(LinesFrom(t, i, phys), i, |t|, phys)
    decreases |t| - i
  {
    if i < |t| {
      LinesSplit(t, i, phys);
      var e := LineEnd(t, i);
      if e < |t| {
        LinesInTurn(t, e + 1, phys + 1);
        InTurnCons(FirstLine(t, i, phys), LinesFrom(t, e + 1, phys + 1), |t|, phys, e + 1);
      }
    }
  }

  lemma StartsCons(first: Line, rest: seq<Line>, p: nat)
    ensures Starts([first] + rest, p) <==> first.lo == p || Starts(rest, p)
  {
    var ls := [first] + rest;
    assert ls[0] == first;
    if k :| 0 <= k < |rest| && rest[k].lo == p {
      assert ls[k + 1].lo == p;
    }
    if k :| 0 <= k < |ls| && ls[k].lo == p {
      assert k > 0 ==> rest[k - 1].lo == p;
    }
  }

  /** Lines start where the text does and behind line feeds, unless it ends there. */
  lemma {:induction false} LineStarts(t: seq<Byte>, i: nat, phys: nat, p: nat)
    requires i <= p <= |t|
    ensures Starts(LinesFrom(t, i, phys), p) <==> p < |t| && (p == i || LineFeedAt(t, p - 1))
    decreases |t| - i, 1
  {
    if i < |t| {
      LaterStarts(t, i, phys, p);
      FirstStarts(t, i, phys, LineEnd(t, i), LaterLines(t, i, phys), p);
      LinesSplit(t, i, phys);
    }
  }

  lemma {:induction false} LaterStarts(t: seq<Byte>, i: nat, phys: nat, p: nat)
    requires i < |t| && i <= p <= |t|
    ensures var e := LineEnd(t, i);
      Starts(LaterLines(t, i, phys), p) <==> e < p < |t| && (p == e + 1 || LineFeedAt(t, p - 1))
    decreases |t| - i, 0
  {
    var e := LineEnd(t, i);
    if e < p {
      LineStarts(t, e + 1, phys + 1, p);
    } else if e < |t| {
      NoneStartsBefore(t, e + 1, phys + 1, p);
    }
  }

  lemma FirstStarts(t: seq<Byte>, i: nat, phys: nat, e: nat, rest: seq<Line>, p: nat)
    requires i < |t| && i <= p <= |t| && e == LineEnd(t, i)
    requires Starts(rest, p) <==> e < p < |t| && (p == e + 1 || LineFeedAt(t, p - 1))
    ensures Starts([FirstLine(t, i, phys)] + rest, p) <==> p < |t| && (p == i || LineFeedAt(t, p - 1))
  {
    StartsCons(FirstLine(t, i, phys), rest, p);
    if i < p <= e {
      NoFeedInLine(t, i, p);
    }
    if p == e + 1 {
      assert LineFeedAt(t, e);
    }
  }

  lemma NoFeedInLine(t: seq<Byte>, i: nat, p: nat)
    requires i < |t| && i < p <= LineEnd(t, i)
    ensures !LineFeedAt(t, p - 1)
  {
  }

  lemma NoneStartsBefore(t: seq<Byte>, i: nat, phys: nat, p: nat)
    requires p < i <= |t|
    ensures !Starts(LinesFrom(t, i, phys), p)
  {
    LinesInTurn(t, i, phys);
  }

  /** A line runs up to the first place at which a line ends. */
  ghost predicate Runs(t: seq<Byte>, l: Line) {
    && l.lo <= l.hi <= |t| && (l.hi < |t| ==> LineEndsAt(t, l.hi))
    && forall q :: l.lo <= q < l.hi ==> !LineEndsAt(t, q)
  }

  lemma FirstLineRuns(t: seq<Byte>, i: nat, phys: nat)
    requires i < |t|
    ensures Runs(t, FirstLine(t, i, phys))
  {
    var e, l := LineEnd(t, i), FirstLine(t, i, phys);
    forall q | l.lo <= q < l.hi
      ensures !LineEndsAt(t, q)
    {
      assert !LineFeedAt(t, q) && (q + 1 < e ==> !LineFeedAt(t, q + 1));
    }
  }

  lemma {:induction false} LinesRun(t: seq<Byte>, i: nat, phys: nat, l: Line)
    requires i <= |t| && l in LinesFrom(t, i, phys)
    ensures Runs(t, l)
    decreases |t| - i
  {
    LinesSplit(t, i, phys);
    if l == FirstLine(t, i, phys) {
      FirstLineRuns(t, i, phys);
    } else {
      LinesRun(t, LineEnd(t, i) + 1, phys + 1, l);
    }
  }

  // ---------- records ----------

  lemma {:induction false} RecordsAre(ls: seq<Line>)
    requires Apart(ls)
    ensures forall l :: l in Records(ls) <==> l in ls && l.phys > 1 && l.lo < l.hi
    ensures Apart(Records(ls))
  {
    if |ls| > 0 {
      var rest := ls[1..];
      RecordsAre(rest);
      forall l | l in rest
        ensures ls[0].hi < l.lo
      {
        var k :| 0 <= k < |rest| && rest[k] == l;
        assert ls[k + 1] == l;
      }
      assert ls == [ls[0]] + rest;
    }
  }

  /** Records are apart and in the order of the text, and each runs up to the first
    * place at which a line ends. */
  lemma RecordsRun(t: seq<Byte>)
    ensures Apart(RowsOf(t)) && forall l :: l in RowsOf(t) ==> Runs(t, l) && l.lo < l.hi
  {
    var ls := LinesFrom(t, 0, 1);
    LinesInTurn(t, 0, 1);
    RecordsAre(ls);
    forall l | l in ls
      ensures Runs(t, l)
    {
      LinesRun(t, 0, 1, l);
    }
  }

  /** A record starts exactly behind each line feed at which no line ends at once. */
  lemma RecordStarts(t: seq<Byte>, p: nat)
    requires p <= |t|
    ensures Starts(RowsOf(t), p) <==> 0 < p < |t| && LineFeedAt(t, p - 1) && !LineEndsAt(t, p)
  {
    var ls, rows := LinesFrom(t, 0, 1), RowsOf(t);
    LineStarts(t, 0, 1, p);
    LinesInTurn(t, 0, 1);
    RecordsAre(ls);
    if Starts(ls, p) {
      var k :| 0 <= k < |ls| && ls[k].lo == p;
      LineStartsRecord(t, ls, k);
    } else if j :| 0 <= j < |rows| && rows[j].lo == p {
      assert rows[j] in rows && rows[j] in ls;
    }
  }

  lemma LineStartsRecord(t: seq<Byte>, ls: seq<Line>, k: nat)
    requires k < |ls| && ls == LinesFrom(t, 0, 1) && InTurn(ls, 0, |t|, 1)
    requires forall l :: l in Records(ls) <==> l in ls && l.phys > 1 && l.lo < l.hi
    ensures Starts(RowsOf(t), ls[k].lo) <==> 0 < ls[k].lo && !LineEndsAt(t, ls[k].lo)
  {
    var rows, p := RowsOf(t), ls[k].lo;
    LinesRun(t, 0, 1, ls[k]);
    LinesSplit(t, 0, 1);
    assert ls[0].lo == 0;
    if p > 0 && !LineEndsAt(t, p) {
      assert ls[k].lo < ls[k].hi by {
        LineStarts(t, 0, 1, p);
      }
      var j :| 0 <= j < |rows| && rows[j] == ls[k];
      assert rows[j].lo == p;
    }
    if j :| 0 <= j < |rows| && rows[j].lo == p {
      assert rows[j] in rows && rows[j] in ls;
      var m :| 0 <= m < |ls| && ls[m] == rows[j];
      assert m == k;
    }
  }

  // ---------- bodies ----------

  /** Row m stands in the body behind the rows before it, with a line feed in front of it. */
  lemma {:induction false} RowInBody(t: seq<Byte>, rows: seq<Line>, i: nat, m: nat, j: nat)
    requires i <= m < j <= |rows| && Inside(t, rows)
    ensures var body, row := JoinedRows(t, rows, i, j), t[rows[m].lo..rows[m].hi];
      if m == i then row <= body else JoinedRows(t, rows, i, m) + [NEWLINE] + row <= body
    decreases j
  {
    if m + 1 < j {
      RowInBody(t, rows, i, m, j - 1);
    }
  }
}
