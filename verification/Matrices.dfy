/** Rebuilding a matrix from the positioned runs between two fences. */
module Matrices {
  import opened Wrappers
  import opened Sorting
  import opened PdfInterp

  const ROW_MIN_GAP := 3.0

  /** Decoded page text, and which characters are white space. */
  datatype Glyphs = Glyphs(arena: string, isSpace: char -> bool)

  function RunText(g: Glyphs, r: PosRun): string {
    if r.t0 <= r.t1 <= |g.arena| then g.arena[r.t0..r.t1] else ""
  }

  predicate IsDigit(g: Glyphs, r: PosRun) {
    var text := RunText(g, r);
    exists k :: 0 <= k < |text| && !g.isSpace(text[k])
  }

  /** A glyph that decoded to nothing is a lost minus sign. */
  predicate IsSign(r: PosRun) {
    r.t0 == r.t1
  }

  function Xs(body: seq<PosRun>): seq<real> {
    seq(|body|, k requires 0 <= k < |body| => body[k].x)
  }

  function Ys(body: seq<PosRun>): seq<real> {
    seq(|body|, k requires 0 <= k < |body| => body[k].y)
  }

  function Digits(g: Glyphs, body: seq<PosRun>): seq<bool> {
    seq(|body|, k requires 0 <= k < |body| => IsDigit(g, body[k]))
  }

  // ---------- rows ----------

  ghost predicate Below(s: seq<nat>, n: nat) {
    forall k :: 0 <= k < |s| ==> s[k] < n
  }

  /** How far order[k] lies below its predecessor. */
  function Gap(ys: seq<real>, order: seq<nat>, k: nat): real
    requires 0 < k < |order| && Below(order, |ys|)
  {
    ys[order[k]] - ys[order[k - 1]]
  }

  /** The gaps among the first n that can separate rows. */
  function LargeGaps(ys: seq<real>, order: seq<nat>, n: nat): seq<real>
    requires n <= |order| && Below(order, |ys|)
  {
    if n < 2 then []
    else
      var gap := Gap(ys, order, n - 1);
      LargeGaps(ys, order, n - 1) + if gap > ROW_MIN_GAP then [gap] else []
  }

  /** Half the median large gap; nothing separates rows if there is none. */
  function Tolerance(ys: seq<real>, order: seq<nat>): Option<real>
    requires Below(order, |ys|)
  {
    var large := LargeGaps(ys, order, |order|);
    if |large| == 0 then None
    else
      UptoIs(|large|, 0);
      var sorted := SortBy(large, Upto(|large|));
      Some(large[sorted[|large| / 2]] * 0.5)
  }

  predicate Breaks(tol: Option<real>, gap: real) {
    tol.Some? && gap > tol.value
  }

  function Extended(rows: seq<seq<nat>>, x: nat): seq<seq<nat>>
    requires |rows| > 0
  {
    rows[|rows| - 1 := rows[|rows| - 1] + [x]]
  }

  /** The rows of the first n in order. */
  function Rows(ys: seq<real>, order: seq<nat>, tol: Option<real>, n: nat): (rows: seq<seq<nat>>)
    requires n <= |order| && Below(order, |ys|)
    ensures |rows| == 0 <==> n == 0
  {
    if n == 0 then []
    else
      var rest := Rows(ys, order, tol, n - 1);
      if n == 1 || Breaks(tol, Gap(ys, order, n - 1)) then rest + [[order[n - 1]]]
      else Extended(rest, order[n - 1])
  }

  function Flat(rows: seq<seq<nat>>): seq<nat> {
    if |rows| == 0 then [] else Flat(rows[..|rows| - 1]) + rows[|rows| - 1]
  }

  lemma {:induction false} FlatPush(rows: seq<seq<nat>>, x: nat)
    ensures Flat(rows + [[x]]) == Flat(rows) + [x]
    ensures |rows| > 0 ==> Flat(Extended(rows, x)) == Flat(rows) + [x]
  {
    assert (rows + [[x]])[..|rows|] == rows;
    if |rows| > 0 {
      var m := |rows| - 1;
      assert Extended(rows, x)[..m] == rows[..m];
      assert Flat(rows[..m]) + (rows[m] + [x]) == Flat(rows[..m]) + rows[m] + [x];
    }
  }

  /** Rows only cut the order into consecutive pieces. */
  lemma {:induction false} RowsCutOrder(ys: seq<real>, order: seq<nat>, tol: Option<real>, n: nat)
    requires n <= |order| && Below(order, |ys|)
    ensures Flat(Rows(ys, order, tol, n)) == order[..n]
  {
    if n > 0 {
      RowsCutOrder(ys, order, tol, n - 1);
      FlatPush(Rows(ys, order, tol, n - 1), order[n - 1]);
      assert order[..n] == order[..n - 1] + [order[n - 1]];
    }
  }

  /** The c-th and the next of a row are within the tolerance. */
  predicate Near(ys: seq<real>, row: seq<nat>, c: nat, tol: Option<real>)
    requires c + 1 < |row|
  {
    row[c] < |ys| && row[c + 1] < |ys| && !Breaks(tol, ys[row[c + 1]] - ys[row[c]])
  }

  predicate Together(ys: seq<real>, row: seq<nat>, tol: Option<real>) {
    row != [] && forall c {:trigger Near(ys, row, c, tol)} :: 0 <= c < |row| - 1 ==> Near(ys, row, c, tol)
  }

  /** The last of row r and the first of the next are not. */
  predicate Apart(ys: seq<real>, rows: seq<seq<nat>>, r: nat, tol: Option<real>)
    requires r + 1 < |rows|
  {
    var a, b := rows[r], rows[r + 1];
    a != [] && b != [] && a[|a| - 1] < |ys| && b[0] < |ys| && Breaks(tol, ys[b[0]] - ys[a[|a| - 1]])
  }

  /** The rows break exactly at the gaps that pass the tolerance. */
  ghost predicate BreaksBetween(ys: seq<real>, rows: seq<seq<nat>>, tol: Option<real>) {
    && (forall r :: 0 <= r < |rows| ==> Together(ys, rows[r], tol))
    && forall r {:trigger Apart(ys, rows, r, tol)} :: 0 <= r < |rows| - 1 ==> Apart(ys, rows, r, tol)
  }

  function LastOf(rows: seq<seq<nat>>): Option<nat> {
    if |rows| > 0 && |rows[|rows| - 1]| > 0 then Some(rows[|rows| - 1][|rows[|rows| - 1]| - 1]) else None
  }

  lemma PushKeepsBreaks(ys: seq<real>, rows: seq<seq<nat>>, x: nat, tol: Option<real>)
    requires BreaksBetween(ys, rows, tol) && x < |ys|
    requires |rows| > 0 ==>
      LastOf(rows).Some? && LastOf(rows).value < |ys| && Breaks(tol, ys[x] - ys[LastOf(rows).value])
    ensures BreaksBetween(ys, rows + [[x]], tol)
  {
    var more := rows + [[x]];
    forall r | 0 <= r < |more| - 1
      ensures Apart(ys, more, r, tol)
    {
      assert r < |rows| - 1 ==> Apart(ys, rows, r, tol);
    }
  }

  lemma ExtendKeepsBreaks(ys: seq<real>, rows: seq<seq<nat>>, x: nat, tol: Option<real>)
    requires BreaksBetween(ys, rows, tol) && x < |ys|
    requires LastOf(rows).Some? && LastOf(rows).value < |ys| && !Breaks(tol, ys[x] - ys[LastOf(rows).value])
    ensures BreaksBetween(ys, Extended(rows, x), tol) && LastOf(Extended(rows, x)) == Some(x)
  {
    var more, m := Extended(rows, x), |rows| - 1;
    assert Together(ys, rows[m], tol);
    forall c | 0 <= c < |more[m]| - 1
      ensures Near(ys, more[m], c, tol)
    {
      assert c < |rows[m]| - 1 ==> Near(ys, rows[m], c, tol);
    }
    forall r | 0 <= r < |more| - 1
      ensures Apart(ys, more, r, tol)
    {
      assert Apart(ys, rows, r, tol);
    }
  }

  lemma {:induction false} RowsBreakAtGaps(ys: seq<real>, order: seq<nat>, tol: Option<real>, n: nat)
    requires n <= |order| && Below(order, |ys|)
    ensures BreaksBetween(ys, Rows(ys, order, tol, n), tol)
    ensures n > 0 ==> LastOf(Rows(ys, order, tol, n)) == Some(order[n - 1])
  {
    if n > 0 {
      RowsBreakAtGaps(ys, order, tol, n - 1);
      if n == 1 || Breaks(tol, Gap(ys, order, n - 1)) {
        PushKeepsBreaks(ys, Rows(ys, order, tol, n - 1), order[n - 1], tol);
      } else {
        ExtendKeepsBreaks(ys, Rows(ys, order, tol, n - 1), order[n - 1], tol);
      }
    }
  }

  function YOrder(body: seq<PosRun>): (order: seq<nat>)
    ensures Below(order, |body|)
  {
    UptoIs(|body|, 0);
    SortBy(Ys(body), Upto(|body|))
  }

  function RowTolerance(body: seq<PosRun>): Option<real> {
    Tolerance(Ys(body), YOrder(body))
  }

  /** The rows of a body, by rising y. */
  function RowsOf(body: seq<PosRun>): seq<seq<nat>> {
    Rows(Ys(body), YOrder(body), RowTolerance(body), |YOrder(body)|)
  }

  method ClusterRows(body: seq<PosRun>) returns (rows: seq<seq<nat>>)
    ensures rows == RowsOf(body)
  {
    var order := YOrder(body);
    var tol := RowTolerance(body);
    rows := RowsAlong(Ys(body), order, tol);
  }

  method RowsAlong(ys: seq<real>, order: seq<nat>, tol: Option<real>) returns (rows: seq<seq<nat>>)
    requires Below(order, |ys|)
    ensures rows == Rows(ys, order, tol, |order|)
  {
    rows := [];
    var cur: seq<nat> := [];
    var prevY: Option<real> := None;
    for k := 0 to |order|
      invariant k == 0 ==> rows == [] && cur == [] && prevY.None?
      invariant k > 0 ==> cur != [] && rows + [cur] == Rows(ys, order, tol, k) && prevY == Some(ys[order[k - 1]])
    {
      var y := ys[order[k]];
      var splits := prevY.Some? && Breaks(tol, y - prevY.value);
      assert k > 0 && !splits ==> Extended(rows + [cur], order[k]) == rows + [cur + [order[k]]];
      if splits {
        rows := rows + [cur];
        cur := [];
      }
      assert cur == [] ==> cur + [order[k]] == [order[k]];
      cur := cur + [order[k]];
      prevY := Some(y);
    }
    if cur != [] {
      rows := rows + [cur];
    }
  }

  /** Every run of the body is in exactly one row, exactly once, and the rows are
    * the stretches of the y order without a gap that passes the tolerance. */
  lemma {:induction false} RowsPartitionBody(body: seq<PosRun>, k: nat)
    ensures Times(Flat(RowsOf(body)), k) == if k < |body| then 1 else 0
    ensures Sorted(Ys(body), YOrder(body)) && Flat(RowsOf(body)) == YOrder(body)
    ensures BreaksBetween(Ys(body), RowsOf(body), RowTolerance(body))
  {
    var order := YOrder(body);
    RowsCutOrder(Ys(body), order, RowTolerance(body), |order|);
    assert order[..|order|] == order;
    RowsBreakAtGaps(Ys(body), order, RowTolerance(body), |order|);
    UptoIs(|body|, k);
    SortCounts(Ys(body), Upto(|body|), [], k);
    SortSorts(Ys(body), Upto(|body|));
  }
}
