/** Finding the paren-fenced matrices among the runs of a page. */
module MathRegions {
  import opened Wrappers
  import opened PdfInterp
  import opened Matrices
  import opened MatrixGrid

  const X_TOL := 2.0

  datatype Side = LeftSide | RightSide

  datatype Fence = Fence(side: Side, lo: nat, hi: nat)

  datatype Region = Region(lo: nat, hi: nat, size: real, block: string)

  // ---------- fences ----------

  predicate SameColumn(a: PosRun, b: PosRun) {
    -X_TOL <= b.x - a.x <= X_TOL
  }

  /** The end of the stretch behind i of runs in the column of run i. */
  function ClusterEnd(runs: seq<PosRun>, i: nat, j: nat): (e: nat)
    requires i < j <= |runs|
    ensures j <= e <= |runs| && (forall k :: j <= k < e ==> SameColumn(runs[i], runs[k]))
    ensures e < |runs| ==> !SameColumn(runs[i], runs[e])
    decreases |runs| - j
  {
    if j < |runs| && SameColumn(runs[i], runs[j]) then ClusterEnd(runs, i, j + 1) else j
  }

  function TextOf(g: Glyphs, runs: seq<PosRun>, order: seq<nat>): string
    requires Below(order, |runs|)
  {
    if |order| == 0 then "" else TextOf(g, runs, order[..|order| - 1]) + RunText(g, runs[order[|order| - 1]])
  }

  /** What a glyph stack spells by rising y. */
  function Spelled(g: Glyphs, cluster: seq<PosRun>): string {
    TextOf(g, cluster, YOrder(cluster))
  }

  /** All characters but the first and the last are `c`. */
  predicate OnlyInside(chars: string, c: char) {
    forall k :: 1 <= k < |chars| - 1 ==> chars[k] == c
  }

  function Classify(g: Glyphs, cluster: seq<PosRun>): Option<Side> {
    var chars := Spelled(g, cluster);
    var n := |chars|;
    if n < 2 then None
    else if chars[0] == '0' && chars[n - 1] == '@' && OnlyInside(chars, 'B') then Some(LeftSide)
    else if chars[0] == '1' && chars[n - 1] == 'A' && OnlyInside(chars, 'C') then Some(RightSide)
    else None
  }

  function Repeat(c: char, n: nat): (s: string)
    ensures |s| == n && forall k :: 0 <= k < n ==> s[k] == c
  {
    if n == 0 then "" else Repeat(c, n - 1) + [c]
  }

  /** A left fence spells 0B*@, a right one 1C*A, and nothing else is a fence. */
  lemma ClassifySpells(g: Glyphs, cluster: seq<PosRun>)
    ensures Classify(g, cluster) == Some(LeftSide) <==> exists n :: Spelled(g, cluster) == "0" + Repeat('B', n) + "@"
    ensures Classify(g, cluster) == Some(RightSide) <==> exists n :: Spelled(g, cluster) == "1" + Repeat('C', n) + "A"
  {
    var s := Spelled(g, cluster);
    if Classify(g, cluster) == Some(LeftSide) {
      assert s == "0" + Repeat('B', |s| - 2) + "@";
    }
    if Classify(g, cluster) == Some(RightSide) {
      assert s == "1" + Repeat('C', |s| - 2) + "A";
    }
    if n :| s == "0" + Repeat('B', n) + "@" {
      assert s[0] == '0' && s[|s| - 1] == '@';
    }
    if n :| s == "1" + Repeat('C', n) + "A" {
      assert s[0] == '1' && s[|s| - 1] == 'A';
    }
  }

  /** The fence that starts at a run, if one does: the maximal same-column stretch from there. */
  function FenceAt(g: Glyphs, runs: seq<PosRun>, i: nat): Option<Fence> {
    if i >= |runs| then None
    else
      var e := ClusterEnd(runs, i, i + 1);
      match Classify(g, runs[i..e])
      case None => None
      case Some(side) => Some(Fence(side, i, e - 1))
  }

  type FenceMap = nat -> Option<Fence>

  /** `FenceAt` as a function of the start. */
  function FenceMapOf(g: Glyphs, runs: seq<PosRun>): FenceMap {
    (i: nat) => FenceAt(g, runs, i)
  }

  ghost predicate StartsThere(at: FenceMap, n: nat) {
    forall i: nat {:trigger at(i)} :: at(i).Some? ==> at(i).value.lo == i <= at(i).value.hi < n
  }

  lemma FenceMapStartsThere(g: Glyphs, runs: seq<PosRun>)
    ensures StartsThere(FenceMapOf(g, runs), |runs|)
  {
    forall i: nat
      ensures var f := FenceMapOf(g, runs)(i); f.Some? ==> f.value.lo == i <= f.value.hi < |runs|
    {
      assert FenceMapOf(g, runs)(i) == FenceAt(g, runs, i);
    }
  }

  function Head(at: FenceMap, i: nat): seq<Fence> {
    if at(i).Some? then [at(i).value] else []
  }

  /** Behind the fence that starts at i, or behind run i. */
  function NextStart(at: FenceMap, i: nat): nat {
    if at(i).Some? then at(i).value.hi + 1 else i + 1
  }

  /** The scan: a fence is taken where one starts, and skipped over. */
  function FencesFrom(at: FenceMap, n: nat, i: nat): seq<Fence>
    requires i <= n && StartsThere(at, n)
    decreases n - i
  {
    if i == n then [] else Head(at, i) + FencesFrom(at, n, NextStart(at, i))
  }

  lemma {:induction false} ScanStep(at: FenceMap, n: nat, i: nat, fences: seq<Fence>)
    requires i < n && StartsThere(at, n)
    ensures i < NextStart(at, i) <= n
    ensures fences + FencesFrom(at, n, i) == fences + Head(at, i) + FencesFrom(at, n, NextStart(at, i))
  {
    var rest := FencesFrom(at, n, NextStart(at, i));
    assert fences + (Head(at, i) + rest) == fences + Head(at, i) + rest;
  }

  method Fences(g: Glyphs, runs: seq<PosRun>) returns (fences: seq<Fence>)
    ensures StartsThere(FenceMapOf(g, runs), |runs|)
    ensures fences == FencesFrom(FenceMapOf(g, runs), |runs|, 0)
  {
    FenceMapStartsThere(g, runs);
    fences := FencesAlong(g, runs, FenceMapOf(g, runs));
  }

  method FencesAlong(g: Glyphs, runs: seq<PosRun>, ghost at: FenceMap) returns (fences: seq<Fence>)
    requires StartsThere(at, |runs|) && at == FenceMapOf(g, runs)
    ensures fences == FencesFrom(at, |runs|, 0)
  {
    fences := [];
    var i := 0;
    while i < |runs|
      invariant i <= |runs| && fences + FencesFrom(at, |runs|, i) == FencesFrom(at, |runs|, 0)
    {
      ScanStep(at, |runs|, i, fences);
      fences, i := TakeFence(g, runs, i, fences);
    }
    assert fences + [] == fences;
  }

  /** One turn of the scan: take the fence that starts at i, or move on. */
  method TakeFence(g: Glyphs, runs: seq<PosRun>, i: nat, before: seq<Fence>) returns (fences: seq<Fence>, next: nat)
    requires i < |runs|
    ensures fences == before + Head(FenceMapOf(g, runs), i) && next == NextStart(FenceMapOf(g, runs), i)
  {
    var fence := ScanFence(g, runs, i);
    assert FenceMapOf(g, runs)(i) == fence;
    if fence.Some? {
      fences, next := before + [fence.value], fence.value.hi + 1;
    } else {
      fences, next := before, i + 1;
    }
  }

  method ScanFence(g: Glyphs, runs: seq<PosRun>, i: nat) returns (fence: Option<Fence>)
    requires i < |runs|
    ensures fence == FenceAt(g, runs, i)
  {
    var j := i + 1;
    while j < |runs| && SameColumn(runs[i], runs[j])
      invariant i < j <= |runs| && ClusterEnd(runs, i, j) == ClusterEnd(runs, i, i + 1)
    {
      j := j + 1;
    }
    var side := Classify(g, runs[i..j]);
    fence := if side.Some? then Some(Fence(side.value, i, j - 1)) else None;
  }

  ghost predicate InOrder(fences: seq<Fence>, from: nat, n: nat) {
    && (forall k :: 0 <= k < |fences| ==> from <= fences[k].lo <= fences[k].hi < n)
    && forall k, l :: 0 <= k < l < |fences| ==> fences[k].hi < fences[l].lo
  }

  ghost predicate Covered(fences: seq<Fence>, m: nat) {
    exists f :: f in fences && f.lo <= m <= f.hi
  }

  /** Fences are real, in range, in order and disjoint. */
  lemma {:induction false} FencesAreReal(at: FenceMap, n: nat, i: nat)
    requires i <= n && StartsThere(at, n)
    ensures InOrder(FencesFrom(at, n, i), i, n)
    ensures forall f :: f in FencesFrom(at, n, i) ==> at(f.lo) == Some(f)
    decreases n - i
  {
    if i < n {
      FencesAreReal(at, n, NextStart(at, i));
    }
  }

  /** No stack is missed: a run outside all fences does not start one. */
  lemma {:induction false} FencesAreAll(at: FenceMap, n: nat, i: nat, m: nat)
    requires i <= m < n && StartsThere(at, n) && at(m).Some?
    ensures Covered(FencesFrom(at, n, i), m)
    decreases n - i
  {
    var fences, next := FencesFrom(at, n, i), NextStart(at, i);
    if m < next {
      assert fences[0] == at(i).value;
    } else {
      FencesAreAll(at, n, next, m);
      var f :| f in FencesFrom(at, n, next) && f.lo <= m <= f.hi;
      assert f in fences;
    }
  }

  // ---------- regions ----------

  /** The region of a left fence and the right fence behind it, if they hold a matrix. */
  function Paired(g: Glyphs, render: Grid -> string, runs: seq<PosRun>, left: Fence, right: Fence): Option<Region> {
    if left.side != LeftSide || right.side != RightSide || !(left.hi < right.lo <= |runs|) then None
    else
      var body := runs[left.hi + 1..right.lo];
      Framed(render, body, left, right, MatrixOf(g, body))
  }

  function Framed(render: Grid -> string, body: seq<PosRun>, left: Fence, right: Fence,
                  grid: Option<Grid>): Option<Region>
  {
    if grid.None? then None
    else Some(Region(left.lo, right.hi, if |body| > 0 then body[0].size else 0.0, render(grid.value)))
  }

  type Pairing = (Fence, Fence) -> Option<Region>

  function PairingOf(g: Glyphs, render: Grid -> string, runs: seq<PosRun>): Pairing {
    (left: Fence, right: Fence) => Paired(g, render, runs, left, right)
  }

  ghost predicate Spans(pair: Pairing) {
    forall l, r {:trigger pair(l, r)} :: pair(l, r).Some? ==>
      pair(l, r).value.lo == l.lo && pair(l, r).value.hi == r.hi && l.side == LeftSide && r.side == RightSide
  }

  lemma PairingSpans(g: Glyphs, render: Grid -> string, runs: seq<PosRun>)
    ensures Spans(PairingOf(g, render, runs))
  {
  }

  /** The regions that end with one of the first k fences: each is a left fence
    * and the very next fence, a right one. */
  function RegionsTo(pair: Pairing, fences: seq<Fence>, k: nat): seq<Region>
    requires k <= |fences|
  {
    if k < 2 then []
    else
      var region := pair(fences[k - 2], fences[k - 1]);
      RegionsTo(pair, fences, k - 1) + if region.Some? then [region.value] else []
  }

  function RegionsOf(g: Glyphs, render: Grid -> string, runs: seq<PosRun>): seq<Region> {
    FenceMapStartsThere(g, runs);
    var fences := FencesFrom(FenceMapOf(g, runs), |runs|, 0);
    RegionsTo(PairingOf(g, render, runs), fences, |fences|)
  }

  method Detect(g: Glyphs, render: Grid -> string, runs: seq<PosRun>) returns (regions: seq<Region>)
    ensures regions == RegionsOf(g, render, runs)
  {
    var fences := Fences(g, runs);
    FencesAreReal(FenceMapOf(g, runs), |runs|, 0);
    ghost var pair := PairingOf(g, render, runs);
    regions := [];
    var pending: Option<Fence> := None;
    for k := 0 to |fences|
      invariant pending == if k > 0 && fences[k - 1].side == LeftSide then Some(fences[k - 1]) else None
      invariant regions == RegionsTo(pair, fences, k)
    {
      var fence := fences[k];
      match fence.side {
        case LeftSide =>
          assert k > 0 ==> pair(fences[k - 1], fence) == None;
          pending := Some(fence);
        case RightSide =>
          if pending.Some? && fence.lo > pending.value.hi {
            var region := PairUp(g, render, runs, pending.value, fence);
            assert region == pair(fences[k - 1], fence);
            if region.Some? {
              regions := regions + [region.value];
            }
          } else {
            assert k > 0 ==> pair(fences[k - 1], fence) == None;
          }
          pending := None;
      }
    }
  }

  method PairUp(g: Glyphs, render: Grid -> string, runs: seq<PosRun>, left: Fence, right: Fence)
    returns (region: Option<Region>)
    requires left.side == LeftSide && right.side == RightSide && left.hi < right.lo <= |runs|
    ensures region == Paired(g, render, runs, left, right)
  {
    var body := runs[left.hi + 1..right.lo];
    var matrix := FromBody(g, body);
    assert Paired(g, render, runs, left, right) == Framed(render, body, left, right, matrix);
    if matrix.None? {
      return None;
    }
    var size := if |body| > 0 then body[0].size else 0.0;
    return Some(Region(left.lo, right.hi, size, render(matrix.value)));
  }

  /** Regions lie in range from `from` on, in order and apart. */
  predicate Ordered(regions: seq<Region>, from: nat, n: nat) {
    && (forall k :: 0 <= k < |regions| ==> from <= regions[k].lo <= regions[k].hi < n)
    && forall k, l :: 0 <= k < l < |regions| ==> regions[k].hi < regions[l].lo
  }

  lemma {:induction false} RegionsToOrdered(pair: Pairing, fences: seq<Fence>, k: nat, n: nat)
    requires k <= |fences| && InOrder(fences, 0, n) && Spans(pair)
    ensures var regions := RegionsTo(pair, fences, k);
      && Ordered(regions, 0, n)
      && (forall r :: r in regions ==> 1 < k && r.hi <= fences[k - 1].hi)
      && (k > 0 && fences[k - 1].side == LeftSide ==> forall r :: r in regions ==> r.hi < fences[k - 1].lo)
    decreases k
  {
    if k >= 2 {
      RegionsToOrdered(pair, fences, k - 1, n);
      assert fences[k - 2].hi < fences[k - 1].lo;
    }
  }

  /** Detected regions are in range, sorted and disjoint. */
  lemma RegionsAreOrdered(g: Glyphs, render: Grid -> string, runs: seq<PosRun>)
    ensures Ordered(RegionsOf(g, render, runs), 0, |runs|)
  {
    FenceMapStartsThere(g, runs);
    PairingSpans(g, render, runs);
    FencesAreReal(FenceMapOf(g, runs), |runs|, 0);
    var fences := FencesFrom(FenceMapOf(g, runs), |runs|, 0);
    RegionsToOrdered(PairingOf(g, render, runs), fences, |fences|, |runs|);
  }
}
