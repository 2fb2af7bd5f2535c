/** The grid of a matrix: when a body is accepted, and where its runs end up. */
module MatrixGrid {
  import opened Wrappers
  import opened Sorting
  import opened PdfInterp
  import opened Matrices

  type Grid = seq<seq<string>>

  /** The digit runs of a row, in order. */
  function DigitsIn(digits: seq<bool>, row: seq<nat>): (ds: seq<nat>)
    ensures |ds| == Count(digits, row) && Below(ds, |digits|)
  {
    if |row| == 0 then []
    else
      var last := row[|row| - 1];
      DigitsIn(digits, row[..|row| - 1]) + if last < |digits| && digits[last] then [last] else []
  }

  /** How many of the listed runs stand left of x. */
  function LeftOf(xs: seq<real>, ds: seq<nat>, x: real): nat
    requires Below(ds, |xs|)
  {
    if |ds| == 0 then 0
    else LeftOf(xs, ds[..|ds| - 1], x) + if xs[ds[|ds| - 1]] < x then 1 else 0
  }

  /** How many of the first n signs of a row belong to column c: those with c digits to their left. */
  function SignsAt(body: seq<PosRun>, row: seq<nat>, ds: seq<nat>, c: nat, n: nat): nat
    requires n <= |row| && Below(row, |body|) && Below(ds, |body|)
  {
    if n == 0 then 0
    else
      var run := body[row[n - 1]];
      SignsAt(body, row, ds, c, n - 1) + if IsSign(run) && LeftOf(Xs(body), ds, run.x) == c then 1 else 0
  }

  function Minuses(n: nat): string {
    if n == 0 then "" else "-" + Minuses(n - 1)
  }

  /** The digits of a row by rising x. */
  function RowLayout(g: Glyphs, body: seq<PosRun>, row: seq<nat>): (ds: seq<nat>)
    requires Below(row, |body|)
    ensures Below(ds, |body|)
  {
    DigitsIn(Digits(g, body), SortBy(Xs(body), row))
  }

  function Cell(g: Glyphs, body: seq<PosRun>, row: seq<nat>, ds: seq<nat>, c: nat, n: nat): string
    requires n <= |row| && c < |ds| && Below(row, |body|) && Below(ds, |body|)
  {
    Minuses(SignsAt(body, row, ds, c, n)) + RunText(g, body[ds[c]])
  }

  /** The cells of a row: each digit's text behind the minus signs that belong to it. */
  function Cells(g: Glyphs, body: seq<PosRun>, row: seq<nat>): seq<string>
    requires Below(row, |body|)
  {
    var sorted := SortBy(Xs(body), row);
    var ds := RowLayout(g, body, row);
    seq(|ds|, c requires 0 <= c < |ds| => Cell(g, body, sorted, ds, c, |sorted|))
  }

  /** The grid is uniform: all rows have the same positive number of digits. */
  predicate Uniform(digits: seq<bool>, rows: seq<seq<nat>>) {
    |rows| > 0 && Count(digits, rows[0]) > 0
    && forall r :: 0 <= r < |rows| ==> Count(digits, rows[r]) == Count(digits, rows[0])
  }

  ghost predicate RowsBelow(rows: seq<seq<nat>>, n: nat) {
    forall r :: 0 <= r < |rows| ==> Below(rows[r], n)
  }

  function GridOf(g: Glyphs, body: seq<PosRun>, rows: seq<seq<nat>>): Grid
    requires RowsBelow(rows, |body|)
  {
    seq(|rows|, r requires 0 <= r < |rows| => Cells(g, body, rows[r]))
  }

  // ---------- counting ----------

  lemma {:induction false} CountAdds(digits: seq<bool>, a: seq<nat>, b: seq<nat>)
    ensures Count(digits, a + b) == Count(digits, a) + Count(digits, b)
  {
    if |b| == 0 {
      assert a + b == a;
    } else {
      assert (a + b)[..|a + b| - 1] == a + b[..|b| - 1];
      CountAdds(digits, a, b[..|b| - 1]);
    }
  }

  lemma {:induction false} TimesAdds(a: seq<nat>, b: seq<nat>, x: nat)
    ensures Times(a + b, x) == Times(a, x) + Times(b, x)
  {
    if |b| == 0 {
      assert a + b == a;
    } else {
      assert (a + b)[..|a + b| - 1] == a + b[..|b| - 1];
      TimesAdds(a, b[..|b| - 1], x);
    }
  }

  lemma OneMore(cols: nat, n: nat)
    ensures cols * n + cols == cols * (n + 1)
  {
  }

  lemma {:induction false} EqualRowsCount(digits: seq<bool>, rows: seq<seq<nat>>, cols: nat)
    requires forall r :: 0 <= r < |rows| ==> Count(digits, rows[r]) == cols
    ensures Count(digits, Flat(rows)) == cols * |rows|
  {
    if |rows| > 0 {
      var n := |rows| - 1;
      EqualRowsCount(digits, rows[..n], cols);
      CountAdds(digits, Flat(rows[..n]), rows[n]);
      OneMore(cols, n);
    }
  }

  lemma AtLeastOnce(a: int, n: nat)
    requires a >= 1
    ensures a * n >= n
  {
  }

  lemma DivideBack(cols: nat, n: nat)
    requires n > 0
    ensures cols * n / n == cols && cols * n % n == 0
  {
    var p := cols * n;
    var q, r := p / n, p % n;
    assert p == n * q + r;
    assert (cols - q) * n == r;
    if cols > q {
      AtLeastOnce(cols - q, n);
    } else if cols < q {
      AtLeastOnce(q - cols, n);
    }
  }

  function Quotient(a: nat, n: nat): nat
    requires n > 0
  {
    a / n
  }

  /** The tests of the code accept exactly the uniform grids. */
  lemma {:induction false} AcceptsUniform(digits: seq<bool>, rows: seq<seq<nat>>)
    requires |rows| > 0
    ensures var total := Count(digits, Flat(rows));
      Uniform(digits, rows) <==>
        && total != 0 && total % |rows| == 0 && Quotient(total, |rows|) != 0
        && forall r :: 0 <= r < |rows| ==> Count(digits, rows[r]) == Quotient(total, |rows|)
  {
    if Uniform(digits, rows) {
      var cols := Count(digits, rows[0]);
      EqualRowsCount(digits, rows, cols);
      DivideBack(cols, |rows|);
      assert cols * |rows| > 0;
    }
  }

  lemma {:induction false} FlatBelow(rows: seq<seq<nat>>, n: nat)
    requires Below(Flat(rows), n)
    ensures RowsBelow(rows, n)
  {
    if |rows| > 0 {
      var m := |rows| - 1;
      var init, last := Flat(rows[..m]), rows[m];
      forall k | 0 <= k < |init|
        ensures init[k] < n
      {
        assert Flat(rows)[k] == init[k];
      }
      forall k | 0 <= k < |last|
        ensures last[k] < n
      {
        assert Flat(rows)[|init| + k] == last[k];
      }
      FlatBelow(rows[..m], n);
      forall r | 0 <= r < |rows|
        ensures Below(rows[r], n)
      {
        assert r < m ==> rows[r] == rows[..m][r];
      }
    }
  }

  lemma RowsOfBelow(body: seq<PosRun>)
    ensures RowsBelow(RowsOf(body), |body|)
  {
    RowsPartitionBody(body, 0);
    FlatBelow(RowsOf(body), |body|);
  }

  /** The matrix between two fences, if the grid is uniform. */
  function MatrixOf(g: Glyphs, body: seq<PosRun>): Option<Grid> {
    RowsOfBelow(body);
    if Uniform(Digits(g, body), RowsOf(body)) then Some(GridOf(g, body, RowsOf(body))) else None
  }

  // ---------- the code ----------

  /** The cells of one row: the digits first, then each sign put before the first
    * digit on its right. */
  method BuildCells(g: Glyphs, body: seq<PosRun>, sorted: seq<nat>, ds: seq<nat>) returns (cells: seq<string>)
    requires Below(sorted, |body|) && Below(ds, |body|)
    ensures |cells| == |ds| && forall c :: 0 <= c < |ds| ==> cells[c] == Cell(g, body, sorted, ds, c, |sorted|)
  {
    cells := seq(|ds|, c requires 0 <= c < |ds| => RunText(g, body[ds[c]]));
    for n := 0 to |sorted|
      invariant |cells| == |ds|
      invariant forall c :: 0 <= c < |ds| ==> cells[c] == Cell(g, body, sorted, ds, c, n)
    {
      cells := PutSign(g, body, sorted, ds, n, cells);
    }
  }

  /** Puts run n of the row before its digit, if it is a sign that has one. */
  method PutSign(g: Glyphs, body: seq<PosRun>, sorted: seq<nat>, ds: seq<nat>, n: nat, before: seq<string>)
    returns (cells: seq<string>)
    requires Below(sorted, |body|) && Below(ds, |body|) && n < |sorted| && |before| == |ds|
    requires forall c :: 0 <= c < |ds| ==> before[c] == Cell(g, body, sorted, ds, c, n)
    ensures |cells| == |ds| && forall c :: 0 <= c < |ds| ==> cells[c] == Cell(g, body, sorted, ds, c, n + 1)
  {
    cells := before;
    var run := body[sorted[n]];
    if IsSign(run) {
      var col := LeftOf(Xs(body), ds, run.x);
      if col < |cells| {
        cells := cells[col := "-" + cells[col]];
      }
    }
  }

  method BuildRow(g: Glyphs, body: seq<PosRun>, row: seq<nat>, cols: nat) returns (cells: Option<seq<string>>)
    requires Below(row, |body|)
    ensures cells == if Count(Digits(g, body), row) == cols then Some(Cells(g, body, row)) else None
  {
    var sorted := SortBy(Xs(body), row);
    var ds := DigitsIn(Digits(g, body), sorted);
    SortCounts(Xs(body), row, Digits(g, body), 0);
    if |ds| != cols {
      return None;
    }
    var built := BuildCells(g, body, sorted, ds);
    assert built == Cells(g, body, row);
    cells := Some(built);
  }

  method CollectGrid(g: Glyphs, body: seq<PosRun>, rows: seq<seq<nat>>, cols: nat) returns (grid: Option<Grid>)
    requires RowsBelow(rows, |body|)
    ensures grid.Some? <==> forall r :: 0 <= r < |rows| ==> Count(Digits(g, body), rows[r]) == cols
    ensures grid.Some? ==> grid.value == GridOf(g, body, rows)
  {
    var out: Grid := [];
    for r := 0 to |rows|
      invariant |out| == r
      invariant forall i :: 0 <= i < r ==> Count(Digits(g, body), rows[i]) == cols && out[i] == Cells(g, body, rows[i])
    {
      var cells := BuildRow(g, body, rows[r], cols);
      if cells.None? {
        return None;
      }
      out := out + [cells.value];
    }
    assert out == GridOf(g, body, rows);
    grid := Some(out);
  }

  method FromBody(g: Glyphs, body: seq<PosRun>) returns (m: Option<Grid>)
    ensures m == MatrixOf(g, body)
  {
    var rows := ClusterRows(body);
    RowsOfBelow(body);
    if |rows| == 0 {
      return None;
    }
    var digits := Count(Digits(g, body), Upto(|body|));
    TotalDigits(g, body);
    AcceptsUniform(Digits(g, body), rows);
    if digits == 0 || digits % |rows| != 0 {
      return None;
    }
    var cols := Quotient(digits, |rows|);
    if cols == 0 {
      return None;
    }
    m := CollectGrid(g, body, rows, cols);
  }

  lemma {:induction false} TotalDigits(g: Glyphs, body: seq<PosRun>)
    ensures Count(Digits(g, body), Upto(|body|)) == Count(Digits(g, body), Flat(RowsOf(body)))
  {
    var flags, rows := Digits(g, body), RowsOf(body);
    assert Flat(rows) == YOrder(body) by {
      RowsPartitionBody(body, 0);
    }
    UptoIs(|body|, 0);
    SortCounts(Ys(body), Upto(|body|), flags, 0);
    assert Count(flags, YOrder(body)) == Count(flags, Upto(|body|));
  }

  // ---------- main results ----------

  /** Which run's text stands in which cell. */
  function LayoutOf(g: Glyphs, body: seq<PosRun>, rows: seq<seq<nat>>): seq<seq<nat>>
    requires RowsBelow(rows, |body|)
  {
    seq(|rows|, r requires 0 <= r < |rows| => RowLayout(g, body, rows[r]))
  }

  lemma {:induction false} DigitsInTimes(digits: seq<bool>, row: seq<nat>, k: nat)
    ensures Times(DigitsIn(digits, row), k) == if k < |digits| && digits[k] then Times(row, k) else 0
  {
    if |row| > 0 {
      var init, last := row[..|row| - 1], row[|row| - 1];
      DigitsInTimes(digits, init, k);
      if last < |digits| && digits[last] {
        assert DigitsIn(digits, row)[..|DigitsIn(digits, init)|] == DigitsIn(digits, init);
      } else {
        assert DigitsIn(digits, row) == DigitsIn(digits, init);
      }
    }
  }

  lemma {:induction false} LayoutTimes(g: Glyphs, body: seq<PosRun>, rows: seq<seq<nat>>, k: nat)
    requires RowsBelow(rows, |body|)
    ensures Times(Flat(LayoutOf(g, body, rows)), k)
         == if k < |body| && IsDigit(g, body[k]) then Times(Flat(rows), k) else 0
  {
    if |rows| > 0 {
      var m := |rows| - 1;
      var init := rows[..m];
      LayoutTimes(g, body, init, k);
      assert LayoutOf(g, body, rows)[..m] == LayoutOf(g, body, init);
      TimesAdds(Flat(init), rows[m], k);
      TimesAdds(Flat(LayoutOf(g, body, init)), RowLayout(g, body, rows[m]), k);
      DigitsInTimes(Digits(g, body), SortBy(Xs(body), rows[m]), k);
      SortCounts(Xs(body), rows[m], [], k);
    }
  }

  /** Every digit run of a body fills exactly one cell, and nothing else fills any. */
  lemma {:induction false} EachDigitOnce(g: Glyphs, body: seq<PosRun>, k: nat)
    ensures RowsBelow(RowsOf(body), |body|)
    ensures Times(Flat(LayoutOf(g, body, RowsOf(body))), k) == if k < |body| && IsDigit(g, body[k]) then 1 else 0
  {
    RowsOfBelow(body);
    LayoutTimes(g, body, RowsOf(body), k);
    RowsPartitionBody(body, k);
  }

  lemma {:induction false} MinusesOnly(n: nat)
    ensures |Minuses(n)| == n && forall k :: 0 <= k < n ==> Minuses(n)[k] == '-'
  {
    if n > 0 {
      MinusesOnly(n - 1);
    }
  }

  /** `cell` is `text` behind minus signs only. */
  predicate IsSigned(cell: string, text: string) {
    && |text| <= |cell| && cell[|cell| - |text|..] == text
    && forall k :: 0 <= k < |cell| - |text| ==> cell[k] == '-'
  }

  lemma {:induction false} SignedText(n: nat, text: string)
    ensures IsSigned(Minuses(n) + text, text)
  {
    MinusesOnly(n);
  }

  lemma CellsAreSigned(g: Glyphs, body: seq<PosRun>, row: seq<nat>, c: nat)
    requires Below(row, |body|) && c < |Cells(g, body, row)|
    ensures |Cells(g, body, row)| == |RowLayout(g, body, row)|
    ensures IsSigned(Cells(g, body, row)[c], RunText(g, body[RowLayout(g, body, row)[c]]))
  {
    var sorted, ds := SortBy(Xs(body), row), RowLayout(g, body, row);
    SignedText(SignsAt(body, sorted, ds, c, |sorted|), RunText(g, body[ds[c]]));
  }

  lemma {:induction false} CellsCount(g: Glyphs, body: seq<PosRun>, row: seq<nat>)
    requires Below(row, |body|)
    ensures |Cells(g, body, row)| == Count(Digits(g, body), row)
  {
    SortCounts(Xs(body), row, Digits(g, body), 0);
  }

  /** An accepted matrix is rectangular, and each cell is the text of its digit
    * run behind minus signs only. */
  lemma GridIsRectangular(g: Glyphs, body: seq<PosRun>, r: nat, c: nat)
    requires MatrixOf(g, body).Some? && r < |MatrixOf(g, body).value| && c < |MatrixOf(g, body).value[0]|
    ensures RowsBelow(RowsOf(body), |body|)
    ensures var grid, layout := MatrixOf(g, body).value, LayoutOf(g, body, RowsOf(body));
      && |grid| == |layout| && |grid[r]| == |grid[0]| == |layout[r]|
      && layout[r][c] < |body| && IsSigned(grid[r][c], RunText(g, body[layout[r][c]]))
  {
    RowsOfBelow(body);
    var rows := RowsOf(body);
    CellsCount(g, body, rows[r]);
    CellsCount(g, body, rows[0]);
    CellsAreSigned(g, body, rows[r], c);
  }

  /** A sign belongs to the first digit that is not left of it. */
  lemma {:induction false} SignColumn(xs: seq<real>, ds: seq<nat>, x: real, c: nat)
    requires Below(ds, |xs|) && Sorted(xs, ds) && c < |ds|
    ensures c < LeftOf(xs, ds, x) <==> xs[ds[c]] < x
    ensures LeftOf(xs, ds, x) <= |ds|
  {
    var init, last := ds[..|ds| - 1], ds[|ds| - 1];
    if |init| > 0 {
      SignColumn(xs, init, x, if c < |init| then c else |init| - 1);
    }
  }
}
