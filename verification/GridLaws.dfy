/** What stands in which cell of a matrix, by the positions of the runs. */
module GridLaws {
  import opened Wrappers
  import opened Sorting
  import opened PdfInterp
  import opened Matrices
  import opened MatrixGrid

  // ---------- minus signs ----------

  /** Run k decoded to nothing, and stands right of the digit before column c, if there
    * is one, but not right of the digit of column c. */
  predicate SignFor(body: seq<PosRun>, ds: seq<nat>, c: nat, k: nat)
    requires c < |ds| && Below(ds, |body|) && k < |body|
  {
    && body[k].t0 == body[k].t1
    && (c == 0 || body[ds[c - 1]].x < body[k].x)
    && body[k].x <= body[ds[c]].x
  }

  ghost function SignFlags(body: seq<PosRun>, ds: seq<nat>, c: nat): seq<bool>
    requires c < |ds| && Below(ds, |body|)
  {
    seq(|body|, k requires 0 <= k < |body| => SignFor(body, ds, c, k))
  }

  lemma ColumnIs(body: seq<PosRun>, ds: seq<nat>, c: nat, k: nat)
    requires c < |ds| && Below(ds, |body|) && k < |body| && Sorted(Xs(body), ds)
    ensures IsSign(body[k]) && LeftOf(Xs(body), ds, body[k].x) == c <==> SignFor(body, ds, c, k)
  {
    SignColumn(Xs(body), ds, body[k].x, c);
    if c > 0 {
      SignColumn(Xs(body), ds, body[k].x, c - 1);
    }
  }

  lemma {:induction false} SignsAreCounted(body: seq<PosRun>, row: seq<nat>, ds: seq<nat>, c: nat, n: nat)
    requires n <= |row| && Below(row, |body|) && Below(ds, |body|) && c < |ds| && Sorted(Xs(body), ds)
    ensures SignsAt(body, row, ds, c, n) == Count(SignFlags(body, ds, c), row[..n])
  {
    if n > 0 {
      SignsAreCounted(body, row, ds, c, n - 1);
      ColumnIs(body, ds, c, row[n - 1]);
      assert row[..n][..n - 1] == row[..n - 1];
    }
  }

  /** How often `flags` is up, as the size of a set. */
  lemma {:induction false} CountIsSize(flags: seq<bool>, s: seq<nat>)
    requires forall k :: Times(s, k) <= 1
    ensures Count(flags, s) == |Flagged(flags, s)|
  {
    if |s| == 0 {
      assert Flagged(flags, s) == {};
    } else {
      var init, last := s[..|s| - 1], s[|s| - 1];
      forall k
        ensures Times(init, k) <= 1
      {
        assert Times(s, k) <= 1;
      }
      CountIsSize(flags, init);
      LastIsNew(s);
      FlaggedMore(flags, init, last);
      assert s == init + [last];
    }
  }

  ghost function Flagged(flags: seq<bool>, s: seq<nat>): set<nat> {
    set k | k in s && k < |flags| && flags[k]
  }

  lemma LastIsNew(s: seq<nat>)
    requires 0 < |s| && Times(s, s[|s| - 1]) <= 1
    ensures s[|s| - 1] !in s[..|s| - 1]
  {
    TimesIn(s[..|s| - 1], s[|s| - 1]);
  }

  lemma FlaggedMore(flags: seq<bool>, init: seq<nat>, last: nat)
    requires last !in init
    ensures |Flagged(flags, init + [last])|
         == |Flagged(flags, init)| + if last < |flags| && flags[last] then 1 else 0
  {
    assert Flagged(flags, init + [last])
        == Flagged(flags, init) + if last < |flags| && flags[last] then {last} else {};
  }

  lemma {:induction false} TimesIn(s: seq<nat>, x: nat)
    ensures x in s <==> Times(s, x) > 0
  {
    if |s| > 0 {
      TimesIn(s[..|s| - 1], x);
      assert s == s[..|s| - 1] + [s[|s| - 1]];
    }
  }

  lemma {:induction false} RowsShare(rows: seq<seq<nat>>, r: nat, k: nat)
    requires r < |rows|
    ensures Times(rows[r], k) <= Times(Flat(rows), k)
  {
    var m := |rows| - 1;
    TimesAdds(Flat(rows[..m]), rows[m], k);
    if r < m {
      RowsShare(rows[..m], r, k);
    }
  }

  /** The empty runs of a row that belong to column c. */
  ghost function SignsOf(body: seq<PosRun>, row: seq<nat>, ds: seq<nat>, c: nat): set<nat>
    requires c < |ds| && Below(ds, |body|)
  {
    set k | k in row && k < |body| && SignFor(body, ds, c, k)
  }

  /** The digits of a row stand by rising x, and come from that row. */
  lemma LayoutIsSorted(g: Glyphs, body: seq<PosRun>, row: seq<nat>)
    requires Below(row, |body|)
    ensures var ds := RowLayout(g, body, row);
      && (forall i, j :: 0 <= i < j < |ds| ==> body[ds[i]].x <= body[ds[j]].x)
      && forall k :: k in ds <==> k in row && IsDigit(g, body[k])
  {
    SortSorts(Xs(body), row);
    var sorted := SortBy(Xs(body), row);
    DigitsInSorted(Xs(body), Digits(g, body), sorted);
    forall k
      ensures k in RowLayout(g, body, row) <==> k in row && IsDigit(g, body[k])
    {
      if k in RowLayout(g, body, row) || k in row {
        DigitsInAre(Digits(g, body), sorted, k);
      }
    }
  }

  lemma {:induction false} DigitsInAre(digits: seq<bool>, row: seq<nat>, k: nat)
    ensures k in DigitsIn(digits, row) <==> k in row && k < |digits| && digits[k]
  {
    if |row| > 0 {
      DigitsInAre(digits, row[..|row| - 1], k);
      assert row == row[..|row| - 1] + [row[|row| - 1]];
    }
  }

  lemma {:induction false} DigitsInSorted(keys: seq<real>, digits: seq<bool>, row: seq<nat>)
    requires Indices(keys, row) && Sorted(keys, row) && |digits| == |keys|
    ensures Sorted(keys, DigitsIn(digits, row))
  {
    if |row| > 0 {
      var init, last := row[..|row| - 1], row[|row| - 1];
      DigitsInSorted(keys, digits, init);
      var ds := DigitsIn(digits, init);
      forall i | 0 <= i < |ds|
        ensures keys[ds[i]] <= keys[last]
      {
        assert ds[i] in ds;
        DigitsInAre(digits, init, ds[i]);
        var j :| 0 <= j < |init| && init[j] == ds[i];
        assert row[j] == ds[i] && row[|row| - 1] == last;
      }
    }
  }

  /** A cell of an accepted matrix, before its signs are placed by position. */
  lemma CellIs(g: Glyphs, body: seq<PosRun>, r: nat, c: nat)
    requires MatrixOf(g, body).Some? && r < |MatrixOf(g, body).value| && c < |MatrixOf(g, body).value[r]|
    ensures RowsBelow(RowsOf(body), |body|) && r < |RowsOf(body)|
    ensures var row := RowsOf(body)[r];
      var sorted, ds := SortBy(Xs(body), row), RowLayout(g, body, row);
      && LayoutOf(g, body, RowsOf(body))[r] == ds && c < |ds|
      && MatrixOf(g, body).value[r][c] == Minuses(SignsAt(body, sorted, ds, c, |sorted|)) + RunText(g, body[ds[c]])
  {
    RowsOfBelow(body);
  }

  lemma {:induction false} RowRepeatsNothing(body: seq<PosRun>, r: nat)
    requires r < |RowsOf(body)|
    ensures forall k :: Times(RowsOf(body)[r], k) <= 1
  {
    forall k
      ensures Times(RowsOf(body)[r], k) <= 1
    {
      RowsPartitionBody(body, k);
      RowsShare(RowsOf(body), r, k);
    }
  }

  /** `cell` is `text` behind this many minus signs. */
  predicate HasSigns(cell: string, signs: nat, text: string) {
    && |cell| == signs + |text| && cell[signs..] == text
    && forall k :: 0 <= k < signs ==> cell[k] == '-'
  }

  /** In front of the text of a cell stand as many minus signs as its row has empty
    * runs right of the digit before and not right of the cell's own. */
  lemma SignsBelongToCells(g: Glyphs, body: seq<PosRun>, r: nat, c: nat)
    requires MatrixOf(g, body).Some? && r < |MatrixOf(g, body).value| && c < |MatrixOf(g, body).value[r]|
    ensures RowsBelow(RowsOf(body), |body|) && r < |RowsOf(body)|
    ensures var rows := RowsOf(body);
      var ds := LayoutOf(g, body, rows)[r];
      && c < |ds| && Below(ds, |body|)
      && HasSigns(MatrixOf(g, body).value[r][c], |SignsOf(body, rows[r], ds, c)|, RunText(g, body[ds[c]]))
  {
    CellIs(g, body, r, c);
    var row := RowsOf(body)[r];
    var sorted, ds := SortBy(Xs(body), row), RowLayout(g, body, row);
    LayoutIsSorted(g, body, row);
    SignsInRow(body, row, ds, c);
    RowRepeatsNothing(body, r);
    CountIsSize(SignFlags(body, ds, c), row);
    SignsAreFlagged(body, row, ds, c);
    MinusesOnly(SignsAt(body, sorted, ds, c, |sorted|));
  }

  lemma SignsAreFlagged(body: seq<PosRun>, row: seq<nat>, ds: seq<nat>, c: nat)
    requires c < |ds| && Below(ds, |body|)
    ensures SignsOf(body, row, ds, c)
         == Flagged(SignFlags(body, ds, c), row)
  {
  }

  lemma SignsInRow(body: seq<PosRun>, row: seq<nat>, ds: seq<nat>, c: nat)
    requires Below(row, |body|) && Below(ds, |body|) && c < |ds| && Sorted(Xs(body), ds)
    ensures var sorted := SortBy(Xs(body), row);
      SignsAt(body, sorted, ds, c, |sorted|) == Count(SignFlags(body, ds, c), row)
  {
    var sorted := SortBy(Xs(body), row);
    SignsAreCounted(body, sorted, ds, c, |sorted|);
    assert sorted[..|sorted|] == sorted;
    SortCounts(Xs(body), row, SignFlags(body, ds, c), 0);
  }

  // ---------- the tolerance between rows ----------

  /** `at` lists the positions below n where the order drops by more than 3. */
  ghost predicate LargeDrops(ys: seq<real>, order: seq<nat>, n: nat, at: seq<nat>)
    requires n <= |order| && Below(order, |ys|)
  {
    && (forall j :: 0 <= j < |at| ==> at[j] < n && IsLargeDrop(ys, order, at[j]))
    && (forall i, j :: 0 <= i < j < |at| ==> at[i] < at[j])
    && forall k: nat {:trigger Listed(at, k)} :: k < n && IsLargeDrop(ys, order, k) ==> Listed(at, k)
  }

  predicate IsLargeDrop(ys: seq<real>, order: seq<nat>, k: nat)
    requires Below(order, |ys|) && k < |order|
  {
    0 < k && ys[order[k]] - ys[order[k - 1]] > 3.0
  }

  predicate Listed(at: seq<nat>, k: nat) {
    exists j :: 0 <= j < |at| && at[j] == k
  }

  /** The drops at some positions. */
  predicate DropsAt(ys: seq<real>, order: seq<nat>, at: seq<nat>, drops: seq<real>)
    requires Below(order, |ys|)
  {
    && |drops| == |at|
    && forall j :: 0 <= j < |at| ==> 0 < at[j] < |order| && drops[j] == ys[order[at[j]]] - ys[order[at[j] - 1]]
  }

  lemma ListsMore(ys: seq<real>, order: seq<nat>, n: nat, front: seq<nat>)
    requires n < |order| && Below(order, |ys|) && LargeDrops(ys, order, n, front) && IsLargeDrop(ys, order, n)
    ensures LargeDrops(ys, order, n + 1, front + [n])
  {
    var at := front + [n];
    forall k: nat | k < n + 1 && IsLargeDrop(ys, order, k)
      ensures Listed(at, k)
    {
      if k < n {
        assert Listed(front, k);
        ListedStill(front, at, k);
      } else {
        assert at[|front|] == k;
      }
    }
  }

  lemma ListsSame(ys: seq<real>, order: seq<nat>, n: nat, front: seq<nat>)
    requires n < |order| && Below(order, |ys|) && LargeDrops(ys, order, n, front) && !IsLargeDrop(ys, order, n)
    ensures LargeDrops(ys, order, n + 1, front)
  {
  }

  lemma ListedStill(front: seq<nat>, at: seq<nat>, k: nat)
    requires front <= at && Listed(front, k)
    ensures Listed(at, k)
  {
    var j :| 0 <= j < |front| && front[j] == k;
    assert at[j] == k;
  }

  lemma {:induction false} LargeGapsAre(ys: seq<real>, order: seq<nat>, n: nat) returns (at: seq<nat>)
    requires n <= |order| && Below(order, |ys|)
    ensures LargeDrops(ys, order, n, at) && DropsAt(ys, order, at, LargeGaps(ys, order, n))
  {
    if n < 2 {
      at := [];
    } else {
      var front := LargeGapsAre(ys, order, n - 1);
      if IsLargeDrop(ys, order, n - 1) {
        at := front + [n - 1];
        ListsMore(ys, order, n - 1, front);
        DropsMore(ys, order, front, LargeGaps(ys, order, n - 1), n - 1);
      } else {
        at := front;
        ListsSame(ys, order, n - 1, front);
      }
    }
  }

  lemma DropsMore(ys: seq<real>, order: seq<nat>, at: seq<nat>, drops: seq<real>, k: nat)
    requires Below(order, |ys|) && 0 < k < |order| && DropsAt(ys, order, at, drops)
    ensures DropsAt(ys, order, at + [k], drops + [Gap(ys, order, k)])
  {
  }

  /** Half the median of the drops of more than 3, the upper one of two; none without any. */
  lemma ToleranceIsHalfMedian(ys: seq<real>, order: seq<nat>) returns (at: seq<nat>, drops: seq<real>, byDrop: seq<nat>)
    requires Below(order, |ys|)
    ensures LargeDrops(ys, order, |order|, at) && DropsAt(ys, order, at, drops)
    ensures |byDrop| == |drops| && Indices(drops, byDrop) && Sorted(drops, byDrop)
    ensures forall j: nat :: Times(byDrop, j) == if j < |drops| then 1 else 0
    ensures Tolerance(ys, order)
         == if |drops| == 0 then None else Some(drops[byDrop[|drops| / 2]] / 2.0)
  {
    at := LargeGapsAre(ys, order, |order|);
    drops := LargeGaps(ys, order, |order|);
    UptoIs(|drops|, 0);
    byDrop := SortBy(drops, Upto(|drops|));
    SortSorts(drops, Upto(|drops|));
    forall j: nat
      ensures Times(byDrop, j) == if j < |drops| then 1 else 0
    {
      UptoIs(|drops|, j);
      SortCounts(drops, Upto(|drops|), [], j);
    }
  }

  // ---------- ties ----------

  /** a is listed before b. */
  ghost predicate Precedes(s: seq<nat>, a: nat, b: nat) {
    exists i, j :: 0 <= i < j < |s| && s[i] == a && s[j] == b
  }

  lemma {:induction false} InsertKeepsOrder(keys: seq<real>, x: nat, s: seq<nat>, a: nat, b: nat)
    requires Indices(keys, s) && x < |keys| && Precedes(s, a, b)
    ensures Precedes(Insert(keys, x, s), a, b)
  {
    var i, j :| 0 <= i < j < |s| && s[i] == a && s[j] == b;
    var r := Insert(keys, x, s);
    if keys[s[|s| - 1]] <= keys[x] {
      assert r[i] == a && r[j] == b;
    } else {
      var init := s[..|s| - 1];
      if j < |s| - 1 {
        assert init[i] == a && init[j] == b;
        InsertKeepsOrder(keys, x, init, a, b);
        var p, q :| 0 <= p < q < |Insert(keys, x, init)| && Insert(keys, x, init)[p] == a
                    && Insert(keys, x, init)[q] == b;
        assert r[p] == a && r[q] == b;
      } else {
        InsertHolds(keys, x, init, i);
        var p :| 0 <= p < |Insert(keys, x, init)| && Insert(keys, x, init)[p] == a;
        assert r[p] == a && r[|r| - 1] == b;
      }
    }
  }

  lemma {:induction false} InsertHolds(keys: seq<real>, x: nat, s: seq<nat>, i: nat)
    requires Indices(keys, s) && x < |keys| && i < |s|
    ensures s[i] in Insert(keys, x, s)
  {
    if !(keys[s[|s| - 1]] <= keys[x]) && i < |s| - 1 {
      InsertHolds(keys, x, s[..|s| - 1], i);
    }
  }

  lemma {:induction false} InsertBehindTies(keys: seq<real>, x: nat, s: seq<nat>, a: nat)
    requires Indices(keys, s) && x < |keys| && a in s && a < |keys| && keys[a] == keys[x] && Sorted(keys, s)
    ensures Precedes(Insert(keys, x, s), a, x)
  {
    var r := Insert(keys, x, s);
    var i :| 0 <= i < |s| && s[i] == a;
    if keys[s[|s| - 1]] <= keys[x] {
      assert r[i] == a && r[|s|] == x;
    } else {
      var init := s[..|s| - 1];
      assert init[i] == a;
      InsertBehindTies(keys, x, init, a);
      var p, q :| 0 <= p < q < |Insert(keys, x, init)| && Insert(keys, x, init)[p] == a
                  && Insert(keys, x, init)[q] == x;
      assert r[p] == a && r[q] == x;
    }
  }

  /** Runs at the same position keep their order: the sort is stable. */
  lemma {:induction false} TiesKeepOrder(keys: seq<real>, s: seq<nat>, a: nat, b: nat)
    requires Indices(keys, s) && Precedes(s, a, b) && a < |keys| && b < |keys| && keys[a] == keys[b]
    ensures Precedes(SortBy(keys, s), a, b)
  {
    var init, x := s[..|s| - 1], s[|s| - 1];
    var i, j :| 0 <= i < j < |s| && s[i] == a && s[j] == b;
    if j < |s| - 1 {
      assert init[i] == a && init[j] == b;
      TiesKeepOrder(keys, init, a, b);
      InsertKeepsOrder(keys, x, SortBy(keys, init), a, b);
    } else {
      assert init[i] == a;
      SortSorts(keys, init);
      InsertBehindTies(keys, x, SortBy(keys, init), a);
    }
  }
}
