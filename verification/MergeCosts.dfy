/** What the merge charges for a chunk, read off the atoms. */
module MergeCosts {
  import opened Atoms
  import opened Merge
  import opened MergeLaws

  // ---------- syntax ----------

  /** No boundary strictly inside the atoms s..i lies above level `level`. */
  ghost predicate NoneCoarser(atoms: seq<Atom>, s: nat, i: nat, level: nat)
    requires i < |atoms|
  {
    forall k :: s < k <= i ==> level <= atoms[k].boundarySyntax
  }

  /** Boundary m is a coarsest one strictly inside the atoms s..i. */
  ghost predicate Coarsest(atoms: seq<Atom>, s: nat, i: nat, m: nat)
    requires i < |atoms|
  {
    s < m <= i && NoneCoarser(atoms, s, i, atoms[m].boundarySyntax)
  }

  function Sum(s: seq<nat>): nat {
    if |s| == 0 then 0 else Sum(s[..|s| - 1]) + s[|s| - 1]
  }

  /** 512, 512/2, ..., 512/g. */
  function Shares(g: nat): seq<nat> {
    seq(g, j requires 0 <= j < g => 512 / (j + 1))
  }

  /** `charge` is due for an outer boundary of this level: nothing if none inside is
    * coarser, else the shares for each level it lies below the coarsest one inside. */
  ghost predicate IsSyntaxCharge(atoms: seq<Atom>, s: nat, i: nat, level: nat, charge: nat)
    requires i < |atoms|
  {
    && (charge == 0 <==> NoneCoarser(atoms, s, i, level))
    && forall m: nat {:trigger Coarsest(atoms, s, i, m)} ::
         Coarsest(atoms, s, i, m) && atoms[m].boundarySyntax < level ==>
           charge == Sum(Shares(level - atoms[m].boundarySyntax))
  }

  lemma {:induction false} GapCostIsSum(g: nat)
    ensures GapCost(g) == Sum(Shares(g))
  {
    if g > 0 {
      GapCostIsSum(g - 1);
      assert Shares(g)[..g - 1] == Shares(g - 1);
    }
  }

  lemma {:induction false} GapCostGrows(a: nat, b: nat)
    requires a <= b
    ensures GapCost(a) <= GapCost(b) && (0 < b ==> 512 <= GapCost(b))
    decreases b
  {
    if a < b {
      GapCostGrows(a, b - 1);
    } else if 1 < b {
      GapCostGrows(b - 1, b - 1);
    }
  }

  lemma SyntaxCostIsCharge(atoms: seq<Atom>, s: nat, i: nat, level: nat)
    requires s <= i < |atoms|
    ensures IsSyntaxCharge(atoms, s, i, level, SyntaxCost(level, InnerSyntax(atoms, s, i)))
  {
    InnerSyntaxIsLeast(atoms, s, i);
    if s < i {
      var inner := InnerSyntax(atoms, s, i).value;
      var k :| s < k <= i && inner == atoms[k].boundarySyntax;
      assert Coarsest(atoms, s, i, k);
      if inner < level {
        GapCostIsSum(level - inner);
        GapCostGrows(0, level - inner);
      }
    }
  }

  /** The deeper a boundary lies, the more a cut there costs. */
  lemma DeeperCostsMore(atoms: seq<Atom>, s: nat, i: nat, level: nat, charge: nat, deeper: nat, charge': nat)
    requires s <= i < |atoms| && level <= deeper
    requires IsSyntaxCharge(atoms, s, i, level, charge) && IsSyntaxCharge(atoms, s, i, deeper, charge')
    ensures charge <= charge'
  {
    InnerSyntaxIsLeast(atoms, s, i);
    if !NoneCoarser(atoms, s, i, level) {
      var m :| s < m <= i && InnerSyntax(atoms, s, i).value == atoms[m].boundarySyntax;
      assert Coarsest(atoms, s, i, m);
      GapCostIsSum(level - atoms[m].boundarySyntax);
      GapCostIsSum(deeper - atoms[m].boundarySyntax);
      GapCostGrows(level - atoms[m].boundarySyntax, deeper - atoms[m].boundarySyntax);
    }
  }

  // ---------- line breaks ----------

  /** `levels` is how far a boundary's line break is weaker than the strongest one
    * inside an atom of s+1..i. */
  ghost predicate IsBreakGap(atoms: seq<Atom>, s: nat, i: nat, boundary: LineBreak, levels: nat)
    requires i < |atoms|
  {
    && (forall k :: s < k <= i ==> atoms[k].internalLb.Ord() <= boundary.Ord() + levels)
    && (0 < levels ==> exists k :: s < k <= i && atoms[k].internalLb.Ord() == boundary.Ord() + levels)
  }

  lemma LbGapIsGap(atoms: seq<Atom>, s: nat, i: nat, boundary: LineBreak)
    requires s <= i < |atoms|
    ensures IsBreakGap(atoms, s, i, boundary, LbGap(boundary, InnerBreak(atoms, s, i)))
  {
    InnerBreakIsGreatest(atoms, s, i);
  }

  // ---------- a whole chunk ----------

  datatype Charges = Charges(synBefore: nat, synAfter: nat, lbBefore: nat, lbAfter: nat)

  /** Both outer boundaries of the chunk of atoms s..i, charged by what lies inside. */
  ghost predicate AreCharges(atoms: seq<Atom>, s: nat, i: nat, x: Charges)
    requires s <= i < |atoms| - 1
  {
    && IsSyntaxCharge(atoms, s, i, atoms[s].boundarySyntax, x.synBefore)
    && IsSyntaxCharge(atoms, s, i, atoms[i + 1].boundarySyntax, x.synAfter)
    && IsBreakGap(atoms, s, i, atoms[s].boundaryLb, x.lbBefore)
    && IsBreakGap(atoms, s, i, atoms[i + 1].boundaryLb, x.lbAfter)
  }

  /** 64 for each line break level, and a prohibitive charge below the minimum size. */
  function Total(c: Config, atoms: seq<Atom>, s: nat, i: nat, x: Charges): nat
    requires s <= i < |atoms| - 1
  {
    x.synBefore + x.synAfter + 64 * (x.lbBefore + x.lbAfter)
    + if atoms[i].end - atoms[s].start < c.minChunk then 1048576 else 0
  }

  lemma SyntaxChargeUnique(atoms: seq<Atom>, s: nat, i: nat, level: nat, a: nat, b: nat)
    requires s <= i < |atoms|
    requires IsSyntaxCharge(atoms, s, i, level, a) && IsSyntaxCharge(atoms, s, i, level, b)
    ensures a == b
  {
    DeeperCostsMore(atoms, s, i, level, a, level, b);
    DeeperCostsMore(atoms, s, i, level, b, level, a);
  }

  lemma BreakGapUnique(atoms: seq<Atom>, s: nat, i: nat, boundary: LineBreak, a: nat, b: nat)
    requires s <= i < |atoms|
    requires IsBreakGap(atoms, s, i, boundary, a) && IsBreakGap(atoms, s, i, boundary, b)
    ensures a == b
  {
  }

  /** The charges of a chunk are what the atoms say, and nothing else. */
  lemma ChunkIsCharged(c: Config, atoms: seq<Atom>, s: nat, i: nat) returns (x: Charges)
    requires s <= i < |atoms| - 1
    ensures AreCharges(atoms, s, i, x) && BreakCost(c, atoms, s, i) == Total(c, atoms, s, i, x)
    ensures forall y :: AreCharges(atoms, s, i, y) ==> y == x
  {
    var inner, lb := InnerSyntax(atoms, s, i), InnerBreak(atoms, s, i);
    x := Charges(SyntaxCost(atoms[s].boundarySyntax, inner), SyntaxCost(atoms[i + 1].boundarySyntax, inner),
                 LbGap(atoms[s].boundaryLb, lb), LbGap(atoms[i + 1].boundaryLb, lb));
    SyntaxCostIsCharge(atoms, s, i, atoms[s].boundarySyntax);
    SyntaxCostIsCharge(atoms, s, i, atoms[i + 1].boundarySyntax);
    LbGapIsGap(atoms, s, i, atoms[s].boundaryLb);
    LbGapIsGap(atoms, s, i, atoms[i + 1].boundaryLb);
    forall y | AreCharges(atoms, s, i, y)
      ensures y == x
    {
      SyntaxChargeUnique(atoms, s, i, atoms[s].boundarySyntax, x.synBefore, y.synBefore);
      SyntaxChargeUnique(atoms, s, i, atoms[i + 1].boundarySyntax, x.synAfter, y.synAfter);
      BreakGapUnique(atoms, s, i, atoms[s].boundaryLb, x.lbBefore, y.lbBefore);
      BreakGapUnique(atoms, s, i, atoms[i + 1].boundaryLb, x.lbAfter, y.lbAfter);
    }
  }

  // ---------- the overlap ----------

  /** A chunk that shares no bytes with the one before pays 512 in full; the shared
    * bytes are taken off in proportion to the overlap allowed, up to rounding. */
  lemma SharedBytesAreTakenOff(c: Config, end: nat, start: nat)
    requires 0 < c.overlap && end <= c.textLen && start <= c.textLen && end - start <= c.overlap
    ensures var term := OverlapTerm(c, OverlapBase(c.textLen, end, c.overlap), start);
      if end <= start then term == 512
      else 0 <= 512 * (end - start) / c.overlap <= 512 - term <= 512 * (end - start) / c.overlap + 1
  {
    var a, b := (c.textLen - end) * 512, (c.textLen - start) * 512;
    if end <= start {
      DivisionMonotone(b, a, c.overlap);
    } else {
      assert b == a + 512 * (end - start);
      QuotientOfSum(a, 512 * (end - start), c.overlap);
      DivisionMonotone(a, b, c.overlap);
    }
  }

  lemma QuotientOfSum(x: nat, y: nat, d: nat)
    requires 0 < d
    ensures x / d + y / d <= (x + y) / d <= x / d + y / d + 1
  {
    var p, q := x / d, y / d;
    SumBetween(x, y, d, p, q);
    QuotientBelow(x + y, d, p + q + 2);
    QuotientExact(p + q, d);
    DivisionMonotone((p + q) * d, x + y, d);
  }

  lemma SumBetween(x: nat, y: nat, d: nat, p: nat, q: nat)
    requires p * d <= x < (p + 1) * d && q * d <= y < (q + 1) * d
    ensures (p + q) * d <= x + y < (p + q + 2) * d
  {
    assert (p + q) * d == p * d + q * d && (p + q + 2) * d == (p + 1) * d + (q + 1) * d;
  }

  lemma QuotientExact(k: nat, d: nat)
    requires 0 < d
    ensures k * d / d == k
  {
    QuotientBelow(k * d, d, k + 1);
    MultiplyMonotone(k * d / d + 1, k, d);
  }

  /** Later ends leave smaller overlap bases. */
  lemma BaseFalls(c: Config, a: nat, b: nat)
    requires 0 < c.overlap && a <= b <= c.textLen
    ensures OverlapBase(c.textLen, b, c.overlap) <= OverlapBase(c.textLen, a, c.overlap)
  {
    DivisionMonotone((c.textLen - b) * 512, (c.textLen - a) * 512, c.overlap);
  }

  /** Of the plans that share bytes with a chunk within the limit, none is cheaper
    * than the one chosen, its charge for the overlap included. */
  lemma SharingIsCheapest(c: Config, atoms: seq<Atom>, plans: seq<Plan>, s: nat, i: nat, p: nat, q: nat)
    requires Ordered(atoms, c.textLen) && PlansOk(c, atoms, plans) && 0 < c.overlap
    requires s < q <= i < |atoms| - 1 && i < |plans|
    requires atoms[i].end - atoms[s].start <= c.chunkSize && atoms[q].end - atoms[s].start <= c.overlap
    requires IsPrev(c, atoms, plans, s, i, p)
    ensures plans[p].cost + OverlapTerm(c, plans[p].overlapBase, atoms[s].start)
         <= plans[q].cost + OverlapTerm(c, plans[q].overlapBase, atoms[s].start)
  {
    assert Admissible(c, atoms, s, i, q) && NotWorse(plans, p, q);
    assert PlanOk(c, atoms, plans, p) && PlanOk(c, atoms, plans, q);
    BaseFalls(c, atoms[s].start, atoms[q - 1].end);
    if p == s {
      BaseFalls(c, if s == 0 then 0 else atoms[s - 1].end, atoms[s].start);
    } else {
      BaseFalls(c, atoms[s].start, atoms[p - 1].end);
    }
  }

  // ---------- the cheapest cut, in these charges ----------

  /** The charge for a run of atoms as a chunk without overlap: its boundaries, and
    * half of 512 unless it is one atom over the size limit. */
  ghost predicate IsRunCharge(c: Config, atoms: seq<Atom>, s: nat, i: nat, charge: nat)
    requires s <= i < |atoms| - 1
  {
    exists x :: AreCharges(atoms, s, i, x)
                && charge == Total(c, atoms, s, i, x) + if atoms[i].end - atoms[s].start > c.chunkSize then 0 else 256
  }

  lemma RunCostIsCharge(c: Config, atoms: seq<Atom>, s: nat, i: nat, charge: nat)
    requires s <= i < |atoms| - 1
    ensures IsRunCharge(c, atoms, s, i, charge) <==> charge == RunCost(c, atoms, s, i)
  {
    var x := ChunkIsCharged(c, atoms, s, i);
  }

  ghost predicate RunCharged(c: Config, atoms: seq<Atom>, run: (nat, nat), charge: nat) {
    run.0 < run.1 < |atoms| && IsRunCharge(c, atoms, run.0, run.1 - 1, charge)
  }

  /** One charge for each run of a cut. */
  ghost predicate AreRunCharges(c: Config, atoms: seq<Atom>, cut: seq<(nat, nat)>, charges: seq<nat>) {
    |charges| == |cut| && forall j :: 0 <= j < |cut| ==> RunCharged(c, atoms, cut[j], charges[j])
  }

  lemma RunChargedIsCost(c: Config, atoms: seq<Atom>, s: nat, k: nat, charge: nat)
    requires s < k < |atoms|
    ensures RunCharged(c, atoms, (s, k), charge) <==> charge == RunCost(c, atoms, s, k - 1)
  {
    RunCostIsCharge(c, atoms, s, k - 1, charge);
  }

  lemma FrontIsCharged(c: Config, atoms: seq<Atom>, cut: seq<(nat, nat)>, charges: seq<nat>)
    requires AreRunCharges(c, atoms, cut, charges) && 0 < |cut|
    ensures AreRunCharges(c, atoms, cut[..|cut| - 1], charges[..|cut| - 1])
    ensures RunCharged(c, atoms, cut[|cut| - 1], charges[|cut| - 1])
  {
  }

  lemma {:induction false} CutCostIsSum(c: Config, atoms: seq<Atom>, cut: seq<(nat, nat)>, k: nat, charges: seq<nat>)
    requires k < |atoms| && IsCut(c, atoms, cut, k) && AreRunCharges(c, atoms, cut, charges)
    ensures CutCost(c, atoms, cut, k) == Sum(charges)
    decreases |cut|
  {
    var n := |cut|;
    if n > 0 {
      var s := cut[n - 1].0;
      FrontIsCharged(c, atoms, cut, charges);
      assert cut[n - 1] == (s, k);
      RunChargedIsCost(c, atoms, s, k, charges[n - 1]);
      CutCostIsSum(c, atoms, cut[..n - 1], s, charges[..n - 1]);
    }
  }

  lemma {:induction false} EveryCutIsCharged(c: Config, atoms: seq<Atom>, cut: seq<(nat, nat)>, k: nat)
    returns (charges: seq<nat>)
    requires k < |atoms| && IsCut(c, atoms, cut, k)
    ensures AreRunCharges(c, atoms, cut, charges)
    decreases |cut|
  {
    var n := |cut|;
    if n == 0 {
      charges := [];
    } else {
      var s := cut[n - 1].0;
      var run := RunCost(c, atoms, s, k - 1);
      charges := EveryCutIsCharged(c, atoms, cut[..n - 1], s);
      assert cut[n - 1] == (s, k);
      RunChargedIsCost(c, atoms, s, k, run);
      charges := charges + [run];
    }
  }

  lemma SumsCompare(c: Config, atoms: seq<Atom>, chain: seq<(nat, nat)>, cut: seq<(nat, nat)>, k: nat,
                    chosen: seq<nat>, other: seq<nat>)
    requires k < |atoms| && IsCut(c, atoms, chain, k) && IsCut(c, atoms, cut, k)
    requires CutCost(c, atoms, chain, k) <= CutCost(c, atoms, cut, k)
    requires AreRunCharges(c, atoms, chain, chosen) && AreRunCharges(c, atoms, cut, other)
    ensures Sum(chosen) <= Sum(other)
  {
    CutCostIsSum(c, atoms, cut, k, other);
    CutCostIsSum(c, atoms, chain, k, chosen);
  }

  /** Without overlap the chosen chunks are a cut, and whatever other cut of the atoms
    * there is, its charges, read off the levels and line breaks of the atoms, do
    * not add up to less. */
  lemma ChargedLeast(c: Config, atoms: seq<Atom>, plans: seq<Plan>, chain: seq<(nat, nat)>, cut: seq<(nat, nat)>,
                     chosen: seq<nat>, other: seq<nat>)
    requires PlansOk(c, atoms, plans) && c.overlap == 0 && |plans| == |atoms| && Linked(plans)
    requires chain == Chain(plans, |plans| - 1) && AreRunCharges(c, atoms, chain, chosen)
    requires IsCut(c, atoms, cut, |atoms| - 1) && AreRunCharges(c, atoms, cut, other)
    ensures IsCut(c, atoms, chain, |atoms| - 1) && Sum(chosen) <= Sum(other)
  {
    var n := |atoms| - 1;
    assert IsCut(c, atoms, chain, n) && CutCost(c, atoms, chain, n) <= CutCost(c, atoms, cut, n) by {
      MergeIsOptimal(c, atoms, plans, cut);
    }
    SumsCompare(c, atoms, chain, cut, n, chosen, other);
  }
}
