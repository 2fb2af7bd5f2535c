/** What fences and regions are, on the runs of the page. */
module FenceLaws {
  import opened Wrappers
  import opened Sorting
  import opened PdfInterp
  import opened Matrices
  import opened MatrixGrid
  import opened MathRegions

  // ---------- fences ----------

  /** A stack is read one run after the other, in the order given. */
  lemma {:induction false} ReadsAlong(g: Glyphs, runs: seq<PosRun>, a: seq<nat>, b: seq<nat>)
    requires Below(a, |runs|) && Below(b, |runs|)
    ensures TextOf(g, runs, a + b) == TextOf(g, runs, a) + TextOf(g, runs, b)
    ensures |b| == 1 ==> TextOf(g, runs, b) == RunText(g, runs[b[0]])
  {
    if |b| == 0 {
      assert a + b == a;
    } else {
      var front, last := b[..|b| - 1], b[|b| - 1];
      ReadsAlong(g, runs, a, front);
      assert b == front + [last];
      assert a + b == (a + front) + [last];
      ReadsOneMore(g, runs, a + b, a + front, last);
      ReadsOneMore(g, runs, b, front, last);
      Regroup(TextOf(g, runs, a), TextOf(g, runs, front), RunText(g, runs[last]));
      assert |b| == 1 ==> TextOf(g, runs, front) == "";
    }
  }

  lemma Regroup(x: string, y: string, z: string)
    ensures x + (y + z) == x + y + z
  {
  }

  lemma ReadsOneMore(g: Glyphs, runs: seq<PosRun>, all: seq<nat>, front: seq<nat>, last: nat)
    requires Below(all, |runs|) && last < |runs| && all == front + [last]
    ensures Below(front, |runs|) && TextOf(g, runs, all) == TextOf(g, runs, front) + RunText(g, runs[last])
  {
    assert all[..|all| - 1] == front;
  }

  /** The order in which a stack is read lists each of its runs once, by rising y. */
  lemma StackOrder(cluster: seq<PosRun>, k: nat)
    requires k < |cluster|
    ensures var order := YOrder(cluster);
      && |order| == |cluster| && Below(order, |cluster|) && Times(order, k) == 1
      && forall i, j :: 0 <= i < j < |order| ==> cluster[order[i]].y <= cluster[order[j]].y
  {
    UptoIs(|cluster|, k);
    SortSorts(Ys(cluster), Upto(|cluster|));
    SortCounts(Ys(cluster), Upto(|cluster|), [], k);
  }

  /** The runs i to e stand within 2 units of run i, and run e, if there is one, does not. */
  predicate IsStretch(runs: seq<PosRun>, i: nat, e: nat) {
    && i < e <= |runs|
    && (forall k :: i <= k < e ==> -2.0 <= runs[k].x - runs[i].x <= 2.0)
    && (e < |runs| ==> !(-2.0 <= runs[e].x - runs[i].x <= 2.0))
  }

  ghost predicate SpellsLeft(g: Glyphs, cluster: seq<PosRun>) {
    exists n :: Spelled(g, cluster) == "0" + Repeat('B', n) + "@"
  }

  ghost predicate SpellsRight(g: Glyphs, cluster: seq<PosRun>) {
    exists n :: Spelled(g, cluster) == "1" + Repeat('C', n) + "A"
  }

  lemma StretchEnds(runs: seq<PosRun>, i: nat, e: nat)
    requires IsStretch(runs, i, e)
    ensures ClusterEnd(runs, i, i + 1) == e
  {
    var end := ClusterEnd(runs, i, i + 1);
    assert end < e ==> SameColumn(runs[i], runs[end]);
  }

  lemma SpellsOneOf(g: Glyphs, cluster: seq<PosRun>)
    ensures Classify(g, cluster) == Some(LeftSide) <==> SpellsLeft(g, cluster)
    ensures Classify(g, cluster) == Some(RightSide) <==> SpellsRight(g, cluster)
  {
    ClassifySpells(g, cluster);
  }

  /** A run starts a fence exactly if the longest stretch of runs in its column
    * spells one, and the fence is that stretch. */
  lemma FenceIsStretch(g: Glyphs, runs: seq<PosRun>, i: nat, e: nat)
    requires IsStretch(runs, i, e)
    ensures FenceAt(g, runs, i) == Some(Fence(LeftSide, i, e - 1)) <==> SpellsLeft(g, runs[i..e])
    ensures FenceAt(g, runs, i) == Some(Fence(RightSide, i, e - 1)) <==> SpellsRight(g, runs[i..e])
    ensures FenceAt(g, runs, i).None? <==> !SpellsLeft(g, runs[i..e]) && !SpellsRight(g, runs[i..e])
  {
    StretchEnds(runs, i, e);
    SpellsOneOf(g, runs[i..e]);
  }

  /** Every run starts such a stretch. */
  lemma StretchExists(runs: seq<PosRun>, i: nat) returns (e: nat)
    requires i < |runs|
    ensures IsStretch(runs, i, e)
  {
    e := ClusterEnd(runs, i, i + 1);
    forall k | i <= k < e
      ensures -2.0 <= runs[k].x - runs[i].x <= 2.0
    {
      assert k > i ==> SameColumn(runs[i], runs[k]);
    }
  }

  // ---------- regions ----------

  /** The region between two fences: from the one to the other, as large as the
    * first run behind the left one, with the drawing of the matrix between them. */
  ghost predicate IsRegion(g: Glyphs, render: Grid -> string, runs: seq<PosRun>, left: Fence, right: Fence, r: Region) {
    && left.side == LeftSide && right.side == RightSide && left.hi < right.lo <= |runs|
    && r.lo == left.lo && r.hi == right.hi
    && (var body := runs[left.hi + 1..right.lo];
        && MatrixOf(g, body).Some? && |body| > 0
        && r.size == body[0].size && r.block == render(MatrixOf(g, body).value))
  }

  /** Some fence and the very next one hold region r. */
  ghost predicate Between(g: Glyphs, render: Grid -> string, runs: seq<PosRun>, fences: seq<Fence>, n: nat, r: Region)
    requires n <= |fences|
  {
    exists k {:trigger fences[k]} :: 0 < k < n && IsRegion(g, render, runs, fences[k - 1], fences[k], r)
  }

  lemma PairIsRegion(g: Glyphs, render: Grid -> string, runs: seq<PosRun>, left: Fence, right: Fence, r: Region)
    ensures PairingOf(g, render, runs)(left, right) == Some(r) <==> IsRegion(g, render, runs, left, right, r)
  {
  }

  lemma {:induction false} RegionsToArePairs(g: Glyphs, render: Grid -> string, runs: seq<PosRun>, fences: seq<Fence>,
                                             n: nat, r: Region)
    requires n <= |fences|
    ensures r in RegionsTo(PairingOf(g, render, runs), fences, n) <==> Between(g, render, runs, fences, n, r)
  {
    if n >= 2 {
      RegionsToArePairs(g, render, runs, fences, n - 1, r);
      PairIsRegion(g, render, runs, fences[n - 2], fences[n - 1], r);
      if Between(g, render, runs, fences, n - 1, r) {
        var k :| 0 < k < n - 1 && IsRegion(g, render, runs, fences[k - 1], fences[k], r);
        assert Between(g, render, runs, fences, n, r);
      }
    }
  }

  /** The regions of a page are exactly those between a left fence and the very
    * next fence, a right one, that hold a matrix. */
  lemma RegionsArePairs(g: Glyphs, render: Grid -> string, runs: seq<PosRun>, r: Region)
    ensures StartsThere(FenceMapOf(g, runs), |runs|)
    ensures var fences := FencesFrom(FenceMapOf(g, runs), |runs|, 0);
      r in RegionsOf(g, render, runs) <==> Between(g, render, runs, fences, |fences|, r)
  {
    FenceMapStartsThere(g, runs);
    var fences := FencesFrom(FenceMapOf(g, runs), |runs|, 0);
    RegionsToArePairs(g, render, runs, fences, |fences|, r);
  }
}
