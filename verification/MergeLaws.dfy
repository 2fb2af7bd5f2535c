/** What the merge promises: a cheapest chunking, and full coverage. */
module MergeLaws {
  import opened Atoms
  import opened Merge

  // ---------- optimality without overlap ----------

  /** A cut of the first k atoms: consecutive runs, each within the size limit or one atom. */
  ghost predicate IsCut(c: Config, atoms: seq<Atom>, cut: seq<(nat, nat)>, k: nat)
    requires k < |atoms|
    decreases |cut|
  {
    if |cut| == 0 then k == 0
    else
      var last := cut[|cut| - 1];
      last.0 < last.1 == k && Fits(c, atoms, last.0, k - 1) && IsCut(c, atoms, cut[..|cut| - 1], last.0)
  }

  /** The charge for a run; an oversized atom is not charged for its missing overlap. */
  function RunCost(c: Config, atoms: seq<Atom>, s: nat, i: nat): nat
    requires s <= i < |atoms| - 1
  {
    BreakCost(c, atoms, s, i) + if Size(atoms, s, i) > c.chunkSize then 0 else MISSING_OVERLAP / 2
  }

  ghost function CutCost(c: Config, atoms: seq<Atom>, cut: seq<(nat, nat)>, k: nat): nat
    requires k < |atoms| && IsCut(c, atoms, cut, k)
    decreases |cut|
  {
    if |cut| == 0 then 0
    else
      var last := cut[|cut| - 1];
      CutCost(c, atoms, cut[..|cut| - 1], last.0) + RunCost(c, atoms, last.0, k - 1)
  }

  lemma {:induction false} PlanBeatsCut(c: Config, atoms: seq<Atom>, plans: seq<Plan>, cut: seq<(nat, nat)>, k: nat)
    requires PlansOk(c, atoms, plans) && c.overlap == 0 && k < |plans| && k < |atoms|
    requires IsCut(c, atoms, cut, k)
    ensures plans[k].cost <= CutCost(c, atoms, cut, k)
    decreases |cut|
  {
    assert PlanOk(c, atoms, plans, k);
    if |cut| > 0 {
      var s := cut[|cut| - 1].0;
      PlanBeatsCut(c, atoms, plans, cut[..|cut| - 1], s);
      assert IsPrev(c, atoms, plans[..k], s, k - 1, s);
    }
  }

  lemma {:induction false} PlanIsRealised(c: Config, atoms: seq<Atom>, plans: seq<Plan>, k: nat)
    requires PlansOk(c, atoms, plans) && c.overlap == 0 && k < |plans| && k < |atoms| && Linked(plans)
    ensures IsCut(c, atoms, Chain(plans, k), k)
    ensures CutCost(c, atoms, Chain(plans, k), k) == plans[k].cost
    decreases k
  {
    assert PlanOk(c, atoms, plans, k);
    if k > 0 {
      var p := plans[k].prev;
      var chain := Chain(plans, k);
      assert p == plans[k].start;
      PlanIsRealised(c, atoms, plans, p);
      assert chain[..|chain| - 1] == Chain(plans, p);
    }
  }

  /** Without overlap the backtracked chunks are a cut, and no cut costs less. */
  lemma MergeIsOptimal(c: Config, atoms: seq<Atom>, plans: seq<Plan>, cut: seq<(nat, nat)>)
    requires PlansOk(c, atoms, plans) && c.overlap == 0 && |plans| == |atoms| && Linked(plans)
    requires IsCut(c, atoms, cut, |atoms| - 1)
    ensures IsCut(c, atoms, Chain(plans, |plans| - 1), |atoms| - 1)
    ensures CutCost(c, atoms, Chain(plans, |plans| - 1), |atoms| - 1) <= CutCost(c, atoms, cut, |atoms| - 1)
  {
    PlanBeatsCut(c, atoms, plans, cut, |atoms| - 1);
    PlanIsRealised(c, atoms, plans, |atoms| - 1);
  }

  // ---------- what the inner levels are ----------

  /** `InnerSyntax` is the least boundary level strictly inside the chunk. */
  lemma {:induction false} InnerSyntaxIsLeast(atoms: seq<Atom>, s: nat, i: nat)
    requires s <= i < |atoms|
    ensures InnerSyntax(atoms, s, i).None? <==> s == i
    ensures s < i ==>
      && (forall k :: s < k <= i ==> InnerSyntax(atoms, s, i).value <= atoms[k].boundarySyntax)
      && exists k :: s < k <= i && InnerSyntax(atoms, s, i).value == atoms[k].boundarySyntax
    decreases i - s
  {
    if s < i {
      InnerSyntaxIsLeast(atoms, s + 1, i);
      assert atoms[s + 1].boundarySyntax >= InnerSyntax(atoms, s, i).value;
    }
  }

  /** `InnerBreak` is the strongest line break inside the atoms after the first. */
  lemma {:induction false} InnerBreakIsGreatest(atoms: seq<Atom>, s: nat, i: nat)
    requires s <= i < |atoms|
    ensures forall k :: s < k <= i ==> atoms[k].internalLb.Ord() <= InnerBreak(atoms, s, i).Ord()
    ensures InnerBreak(atoms, s, i) == Inline
         || exists k :: s < k <= i && InnerBreak(atoms, s, i) == atoms[k].internalLb
    decreases i - s
  {
    if s < i {
      InnerBreakIsGreatest(atoms, s + 1, i);
    }
  }

  // ---------- coverage, for any overlap ----------

  /** The bytes a chunk ending before atom `end` shares with one starting at atom `start`. */
  function Shared(atoms: seq<Atom>, end: nat, start: nat): int
    requires 0 < end <= |atoms| && start < |atoms|
  {
    atoms[end - 1].end - atoms[start].start
  }

  ghost predicate GoodChain(c: Config, atoms: seq<Atom>, chain: seq<(nat, nat)>, k: nat) {
    && k < |atoms|
    && (forall j :: 0 <= j < |chain| ==>
          chain[j].0 < chain[j].1 < |atoms| && Fits(c, atoms, chain[j].0, chain[j].1 - 1))
    && (|chain| == 0 ==> k == 0)
    && (0 < |chain| ==> chain[0].0 == 0 && chain[|chain| - 1].1 == k)
    && (forall j {:trigger Joined(c, atoms, chain, j)} :: 0 < j < |chain| ==> Joined(c, atoms, chain, j))
  }

  /** Chunk j starts no later than chunk j - 1 ends, ends after it, and shares at most the overlap with it. */
  ghost predicate Joined(c: Config, atoms: seq<Atom>, chain: seq<(nat, nat)>, j: nat)
    requires 0 < j < |chain|
    requires forall k :: 0 <= k < |chain| ==> chain[k].0 < chain[k].1 < |atoms|
  {
    && chain[j].0 <= chain[j - 1].1 < chain[j].1
    && Shared(atoms, chain[j - 1].1, chain[j].0) <= c.overlap
  }

  lemma AppendIsGood(c: Config, atoms: seq<Atom>, chain: seq<(nat, nat)>, p: nat, s: nat, k: nat)
    requires GoodChain(c, atoms, chain, p) && s <= p < k < |atoms| && Fits(c, atoms, s, k - 1)
    requires 0 < p ==> Shared(atoms, p, s) <= c.overlap
    ensures GoodChain(c, atoms, chain + [(s, k)], k)
  {
    var all := chain + [(s, k)];
    forall j | 0 < j < |all|
      ensures Joined(c, atoms, all, j)
    {
      if j < |chain| {
        assert Joined(c, atoms, chain, j);
      }
    }
  }

  /** The overlap of a chunk with the chunk before it is what the window allowed. */
  lemma SharedIsBounded(c: Config, atoms: seq<Atom>, plans: seq<Plan>, k: nat)
    requires Ordered(atoms, c.textLen) && PlansOk(c, atoms, plans) && 0 < k < |plans| && k < |atoms|
    ensures plans[k].start <= plans[k].prev < k && Fits(c, atoms, plans[k].start, k - 1)
    ensures 0 < plans[k].prev ==> Shared(atoms, plans[k].prev, plans[k].start) <= c.overlap
  {
    assert PlanOk(c, atoms, plans, k);
    var p := plans[k];
    if 0 < p.prev {
      assert atoms[p.prev - 1].end <= atoms[p.prev].start <= atoms[p.prev].end;
    }
  }

  lemma {:induction false} ChainIsGood(c: Config, atoms: seq<Atom>, plans: seq<Plan>, k: nat)
    requires Ordered(atoms, c.textLen) && PlansOk(c, atoms, plans) && k < |plans| && k < |atoms| && Linked(plans)
    ensures GoodChain(c, atoms, Chain(plans, k), k)
    decreases k
  {
    if k > 0 {
      SharedIsBounded(c, atoms, plans, k);
      ChainIsGood(c, atoms, plans, plans[k].prev);
      AppendIsGood(c, atoms, Chain(plans, plans[k].prev), plans[k].prev, plans[k].start, k);
    }
  }

  /** The chunks of a good chain jointly cover every atom. */
  lemma ChainCovers(c: Config, atoms: seq<Atom>, chain: seq<(nat, nat)>, k: nat, a: nat) returns (j: nat)
    requires GoodChain(c, atoms, chain, k) && a < k
    ensures j < |chain| && chain[j].0 <= a < chain[j].1
    decreases |chain|
  {
    j := |chain| - 1;
    if a < chain[j].0 {
      var front := chain[..j];
      assert Joined(c, atoms, chain, j);
      forall i | 0 < i < |front|
        ensures Joined(c, atoms, front, i)
      {
        assert Joined(c, atoms, chain, i);
      }
      j := ChainCovers(c, atoms, front, chain[j - 1].1, a);
    }
  }

  /** Backtracking: starts precede the previous plan's end, which precedes the plan's own. */
  lemma PlansPointBack(c: Config, atoms: seq<Atom>, plans: seq<Plan>, k: nat)
    requires PlansOk(c, atoms, plans) && 0 < k < |plans|
    ensures plans[k].start <= plans[k].prev < k
  {
    assert PlanOk(c, atoms, plans, k);
  }
}
