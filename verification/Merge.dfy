/** Choosing the cheapest chunking of a sequence of atoms. */
module Merge {
  import opened Atoms
  import opened Wrappers

  const SYNTAX_GAP: nat := 512
  const MISSING_OVERLAP: nat := 512
  const PER_LB: nat := 64
  const TOO_SMALL: nat := 1048576

  datatype Config = Config(textLen: nat, chunkSize: nat, overlap: nat, minChunk: nat)

  /** Plan k chunks the first k atoms: its last chunk starts at atom `start`, and
    * the chunks before it are those of plan `prev`. */
  datatype Plan = Plan(start: nat, prev: nat, cost: nat, overlapBase: nat)

  /** What the collector hands over: atoms in text order, none empty but the closing sentinel. */
  ghost predicate Ordered(atoms: seq<Atom>, textLen: nat) {
    && (forall k :: 0 <= k < |atoms| ==> atoms[k].start <= atoms[k].end <= textLen)
    && (forall k :: 0 <= k < |atoms| - 1 ==> atoms[k].start < atoms[k].end)
    && forall j, k :: 0 <= j < k < |atoms| ==> atoms[j].end <= atoms[k].start
  }

  // ---------- the cost of one chunk ----------

  function LbGap(boundary: LineBreak, inner: LineBreak): nat {
    if boundary.Ord() < inner.Ord() then inner.Ord() - boundary.Ord() else 0
  }

  /** The sum of 512 / j for j = 1..g. */
  function GapCost(g: nat): nat {
    if g == 0 then 0 else GapCost(g - 1) + SYNTAX_GAP / g
  }

  /** The shallowest boundary strictly inside the chunk of atoms s..i, if it has one. */
  function InnerSyntax(atoms: seq<Atom>, s: nat, i: nat): Option<nat>
    requires s <= i < |atoms|
    decreases i - s
  {
    if s == i then None
    else Tighten(InnerSyntax(atoms, s + 1, i), atoms[s + 1].boundarySyntax)
  }

  /** `int_syn.min(level)`, where no level stands for the initial `usize::MAX`. */
  function Tighten(inner: Option<nat>, level: nat): Option<nat> {
    match inner
    case None => Some(level)
    case Some(rest) => Some(if level < rest then level else rest)
  }

  /** The strongest line break inside the atoms s+1..i. */
  function InnerBreak(atoms: seq<Atom>, s: nat, i: nat): LineBreak
    requires s <= i < |atoms|
    decreases i - s
  {
    if s == i then Inline
    else Stronger(InnerBreak(atoms, s + 1, i), atoms[s + 1].internalLb)
  }

  function Stronger(a: LineBreak, b: LineBreak): LineBreak {
    if a.Ord() < b.Ord() then b else a
  }

  function SyntaxCost(level: nat, inner: Option<nat>): nat {
    if inner.Some? && level > inner.value then GapCost(level - inner.value) else 0
  }

  /** Bytes from the start of atom s to the end of atom i. */
  function Size(atoms: seq<Atom>, s: nat, i: nat): int
    requires s <= i < |atoms|
  {
    atoms[i].end - atoms[s].start
  }

  /** What cutting before atom s and after atom i costs, given what lies between. */
  function BreakCost(c: Config, atoms: seq<Atom>, s: nat, i: nat): nat
    requires s <= i < |atoms| - 1
  {
    var inner := InnerSyntax(atoms, s, i);
    var lb := InnerBreak(atoms, s, i);
    SyntaxCost(atoms[s].boundarySyntax, inner)
    + SyntaxCost(atoms[i + 1].boundarySyntax, inner)
    + (LbGap(atoms[s].boundaryLb, lb) + LbGap(atoms[i + 1].boundaryLb, lb)) * PER_LB
    + if Size(atoms, s, i) < c.minChunk then TOO_SMALL else 0
  }

  function OverlapBase(textLen: nat, offset: nat, overlap: nat): nat {
    if overlap == 0 then 0
    else (if offset <= textLen then textLen - offset else 0) * MISSING_OVERLAP / overlap
  }

  /** The charge for the overlap between a chunk starting at offset `start` and a
    * plan whose overlap base is `base`. */
  function OverlapTerm(c: Config, base: nat, start: nat): int {
    if c.overlap == 0 then MISSING_OVERLAP / 2
    else
      var sb := OverlapBase(c.textLen, start, c.overlap);
      if base < sb then MISSING_OVERLAP + base - sb else MISSING_OVERLAP
  }

  /** A chunk may hold any number of atoms within the size limit, or one atom of any size. */
  predicate Fits(c: Config, atoms: seq<Atom>, s: nat, i: nat)
    requires s <= i < |atoms|
  {
    s == i || Size(atoms, s, i) <= c.chunkSize
  }

  // ---------- the choice of the previous plan ----------

  function Key(plans: seq<Plan>, q: nat): nat
    requires q < |plans|
  {
    plans[q].cost + plans[q].overlapBase
  }

  /** Plan q may precede a chunk of atoms s..i: either there is no overlap, or the
    * overlap, counted up to the end of atom q, is within the limit. */
  predicate Admissible(c: Config, atoms: seq<Atom>, s: nat, i: nat, q: nat)
    requires s <= i < |atoms|
  {
    q == s || (s < q <= i && Size(atoms, s, q) <= c.overlap)
  }

  predicate NotWorse(plans: seq<Plan>, p: nat, q: nat)
    requires p < |plans| && q < |plans|
  {
    Key(plans, p) < Key(plans, q) || (Key(plans, p) == Key(plans, q) && q <= p)
  }

  /** The plan a scan over all admissible ones picks: the cheapest, the latest of equals. */
  ghost predicate IsPrev(c: Config, atoms: seq<Atom>, plans: seq<Plan>, s: nat, i: nat, p: nat)
    requires s <= i < |atoms| && i < |plans|
  {
    if c.overlap == 0 || Size(atoms, s, i) > c.chunkSize then p == s
    else
      && Admissible(c, atoms, s, i, p)
      && forall q: nat :: Admissible(c, atoms, s, i, q) ==> NotWorse(plans, p, q)
  }

  /** The cost of ending with the chunk s..i after plan p. */
  function Candidate(c: Config, atoms: seq<Atom>, plans: seq<Plan>, s: nat, i: nat, p: nat): int
    requires s <= i < |atoms| - 1 && s < |plans| && p < |plans|
  {
    if Size(atoms, s, i) > c.chunkSize then BreakCost(c, atoms, s, i) + plans[s].cost
    else BreakCost(c, atoms, s, i) + plans[p].cost + OverlapTerm(c, plans[p].overlapBase, atoms[s].start)
  }

  /** `plan` is the cheapest way to chunk atoms 0..i whose last chunk starts at or
    * after `from`, the latest start winning ties. */
  ghost predicate BestFrom(c: Config, atoms: seq<Atom>, plans: seq<Plan>, from: nat, i: nat, start: nat, prev: nat,
                           cost: int)
    requires i < |atoms| - 1 && i < |plans|
  {
    && from <= start <= prev <= i && Fits(c, atoms, start, i)
    && IsPrev(c, atoms, plans, start, i, prev)
    && cost == Candidate(c, atoms, plans, start, i, prev)
    && forall s: nat, p: nat :: from <= s <= p <= i && Fits(c, atoms, s, i) && IsPrev(c, atoms, plans, s, i, p) ==>
         var other := Candidate(c, atoms, plans, s, i, p);
         cost < other || (cost == other && s <= start)
  }

  ghost predicate PlanOk(c: Config, atoms: seq<Atom>, plans: seq<Plan>, k: nat)
    requires k < |plans| && (k == 0 || k < |atoms|)
  {
    var p := plans[k];
    && p.overlapBase == OverlapBase(c.textLen, if k == 0 then 0 else atoms[k - 1].end, c.overlap)
    && if k == 0 then p.start == 0 && p.prev == 0 && p.cost == 0
       else BestFrom(c, atoms, plans[..k], 0, k - 1, p.start, p.prev, p.cost)
  }

  ghost predicate PlansOk(c: Config, atoms: seq<Atom>, plans: seq<Plan>) {
    && 1 <= |plans| && (|plans| == 1 || |plans| <= |atoms|)
    && forall k: nat {:trigger PlanOk(c, atoms, plans, k)} :: k < |plans| ==> PlanOk(c, atoms, plans, k)
  }

  // ---------- no underflow ----------

  lemma MultiplyMonotone(a: nat, b: nat, d: nat)
    ensures a <= b ==> a * d <= b * d
  {
  }

  lemma QuotientBelow(n: nat, d: nat, k: nat)
    requires 0 < d && n < k * d
    ensures n / d < k
  {
    MultiplyMonotone(k, n / d, d);
  }

  lemma DivisionStep(x: nat, d: nat, overlap: nat)
    requires 0 < overlap && d <= overlap
    ensures (x + d * MISSING_OVERLAP) / overlap <= x / overlap + MISSING_OVERLAP
  {
    var q := x / overlap + 1;
    assert x < q * overlap;
    assert (q + MISSING_OVERLAP) * overlap == q * overlap + MISSING_OVERLAP * overlap;
    QuotientBelow(x + d * MISSING_OVERLAP, overlap, q + MISSING_OVERLAP);
  }

  lemma DivisionMonotone(x: nat, y: nat, d: nat)
    requires x <= y && 0 < d
    ensures x / d <= y / d
  {
    assert y < (y / d + 1) * d;
    QuotientBelow(x, d, y / d + 1);
  }

  /** The discount `512 + base - sb` is never negative for a plan the window admits. */
  lemma DiscountNeverUnderflows(c: Config, atoms: seq<Atom>, s: nat, i: nat, p: nat)
    requires Ordered(atoms, c.textLen) && s <= i < |atoms| - 1 && 0 < c.overlap
    requires Admissible(c, atoms, s, i, p)
    ensures OverlapBase(c.textLen, atoms[s].start, c.overlap)
         <= MISSING_OVERLAP + OverlapBase(c.textLen, if p == 0 then 0 else atoms[p - 1].end, c.overlap)
  {
    var off := if p == 0 then 0 else atoms[p - 1].end;
    var x := (c.textLen - off) * MISSING_OVERLAP;
    if off <= atoms[s].start {
      DivisionMonotone((c.textLen - atoms[s].start) * MISSING_OVERLAP, x, c.overlap);
    } else {
      var d := off - atoms[s].start;
      assert (c.textLen - atoms[s].start) * MISSING_OVERLAP == x + d * MISSING_OVERLAP;
      DivisionStep(x, d, c.overlap);
    }
  }

  // ---------- the gap cache ----------

  ghost predicate CacheOk(cache: seq<nat>) {
    0 < |cache| && forall g :: 0 <= g < |cache| ==> cache[g] == GapCost(g)
  }

  method CachedGap(cache: seq<nat>, gap: nat) returns (cache': seq<nat>, cost: nat)
    requires CacheOk(cache)
    ensures CacheOk(cache') && cache <= cache' && gap < |cache'| && cost == GapCost(gap)
  {
    cache' := cache;
    while |cache'| <= gap
      invariant CacheOk(cache') && cache <= cache'
    {
      var j := |cache'|;
      cache' := cache' + [cache'[j - 1] + SYNTAX_GAP / j];
    }
    cost := cache'[gap];
  }

  method CachedSyntaxCost(cache: seq<nat>, level: nat, inner: Option<nat>) returns (cache': seq<nat>, cost: nat)
    requires CacheOk(cache)
    ensures CacheOk(cache') && cost == SyntaxCost(level, inner)
  {
    cache', cost := cache, 0;
    if inner.Some? && level > inner.value {
      cache', cost := CachedGap(cache, level - inner.value);
    }
  }

  // ---------- the heap ----------

  /** `BinaryHeap<(Reverse<usize>, usize)>`: entries (cost, index), the cheapest
    * on top, the larger index first among equals. */
  type Heap = set<(nat, nat)>

  predicate Outranks(a: (nat, nat), b: (nat, nat)) {
    a.0 < b.0 || (a.0 == b.0 && b.1 <= a.1)
  }

  lemma TopExists(heap: Heap)
    requires heap != {}
    ensures exists top :: top in heap && forall e :: e in heap ==> Outranks(top, e)
    decreases |heap|
  {
    var x :| x in heap;
    var rest := heap - {x};
    if rest == {} {
      assert heap == {x};
    } else {
      TopExists(rest);
      var t :| t in rest && forall e :: e in rest ==> Outranks(t, e);
      var top := if Outranks(x, t) then x else t;
      assert forall e :: e in heap ==> e == x || e in rest;
      assert top in heap && forall e :: e in heap ==> Outranks(top, e);
    }
  }

  method Peek(heap: Heap) returns (top: Option<(nat, nat)>)
    ensures top.None? <==> heap == {}
    ensures top.Some? ==> top.value in heap && forall e :: e in heap ==> Outranks(top.value, e)
  {
    if heap == {} {
      return None;
    }
    TopExists(heap);
    var t :| t in heap && forall e :: e in heap ==> Outranks(t, e);
    return Some(t);
  }

  /** The heap holds the plans lo..i, except some that the window of start s excludes. */
  ghost predicate HeapOk(c: Config, atoms: seq<Atom>, plans: seq<Plan>, heap: Heap, lo: nat, s: nat, i: nat)
    requires s <= i < |atoms| && i < |plans|
  {
    && (forall e :: e in heap ==> lo <= e.1 <= i && e.0 == Key(plans, e.1))
    && forall q: nat :: lo <= q <= i ==> (Key(plans, q), q) in heap || !Admissible(c, atoms, s, i, q)
  }

  /** Moving the start left never readmits a plan, so popped entries stay out. */
  lemma WindowShrinks(c: Config, atoms: seq<Atom>, plans: seq<Plan>, heap: Heap, s: nat, i: nat)
    requires Ordered(atoms, c.textLen) && s < i < |atoms| - 1 && i < |plans|
    requires HeapOk(c, atoms, plans, heap, s + 1, s + 1, i)
    ensures HeapOk(c, atoms, plans, heap, s + 1, s, i)
  {
    assert atoms[s].start <= atoms[s + 1].start;
    forall q: nat | s + 1 <= q <= i && Admissible(c, atoms, s, i, q)
      ensures Admissible(c, atoms, s + 1, i, q)
    {
    }
  }

  /** Pop entries off the top while the window of start s excludes them. */
  method Prune(c: Config, atoms: seq<Atom>, plans: seq<Plan>, heap0: Heap, s: nat, i: nat)
    returns (heap: Heap, top: Option<(nat, nat)>)
    requires s <= i < |atoms| - 1 && i < |plans|
    requires HeapOk(c, atoms, plans, heap0, s + 1, s, i)
    ensures HeapOk(c, atoms, plans, heap, s + 1, s, i)
    ensures top.None? <==> heap == {}
    ensures top.Some? ==> top.value in heap && forall e :: e in heap ==> Outranks(top.value, e)
    ensures top.Some? ==> Admissible(c, atoms, s, i, top.value.1)
  {
    heap := heap0;
    top := Peek(heap);
    while top.Some? && Size(atoms, s, top.value.1) > c.overlap
      invariant HeapOk(c, atoms, plans, heap, s + 1, s, i)
      invariant top.None? <==> heap == {}
      invariant top.Some? ==> top.value in heap && forall e :: e in heap ==> Outranks(top.value, e)
      decreases |heap|
    {
      heap := heap - {top.value};
      top := Peek(heap);
    }
  }

  /** The top of the heap, once it is admissible or the new start, beats every admissible plan. */
  lemma TopIsPrev(c: Config, atoms: seq<Atom>, plans: seq<Plan>, heap: Heap, s: nat, i: nat, best: (nat, nat))
    requires s <= i < |atoms| - 1 && i < |plans| && 0 < c.overlap && Size(atoms, s, i) <= c.chunkSize
    requires HeapOk(c, atoms, plans, heap, s, s, i)
    requires best in heap && forall e :: e in heap ==> Outranks(best, e)
    requires Admissible(c, atoms, s, i, best.1)
    ensures IsPrev(c, atoms, plans, s, i, best.1)
  {
    forall q: nat | Admissible(c, atoms, s, i, q)
      ensures NotWorse(plans, best.1, q)
    {
      assert (Key(plans, q), q) in heap;
      assert Outranks(best, (Key(plans, q), q));
    }
  }

  /** Prune, push, peek: the lazily pruned heap answers like a scan of every plan. */
  method ChoosePrev(c: Config, atoms: seq<Atom>, plans: seq<Plan>, heap0: Heap, s: nat, i: nat)
    returns (heap: Heap, prev: nat)
    requires Ordered(atoms, c.textLen) && s <= i < |atoms| - 1 && i < |plans|
    requires 0 < c.overlap && Size(atoms, s, i) <= c.chunkSize
    requires if s == i then heap0 == {} else HeapOk(c, atoms, plans, heap0, s + 1, s + 1, i)
    ensures HeapOk(c, atoms, plans, heap, s, s, i)
    ensures s <= prev <= i && IsPrev(c, atoms, plans, s, i, prev)
  {
    if s < i { WindowShrinks(c, atoms, plans, heap0, s, i); }
    var top;
    heap, top := Prune(c, atoms, plans, heap0, s, i);
    ghost var pruned := heap;
    var own := (Key(plans, s), s);
    heap := heap + {own};
    var best := Peek(heap);
    assert own in heap;
    prev := s;
    if best.Some? {
      prev := best.value.1;
    }
    assert best.value == own || best == top by {
      if best.value != own {
        assert best.value in pruned && top.value in heap;
        assert Outranks(top.value, best.value) && Outranks(best.value, top.value);
      }
    }
    TopIsPrev(c, atoms, plans, heap, s, i, best.value);
  }

  // ---------- the search for the last chunk ----------

  method ChunkCost(c: Config, atoms: seq<Atom>, s: nat, i: nat, intSyn: Option<nat>, intLb: LineBreak, cache0: seq<nat>)
    returns (cache: seq<nat>, cost: nat)
    requires s <= i < |atoms| - 1 && CacheOk(cache0)
    requires intSyn == InnerSyntax(atoms, s, i) && intLb == InnerBreak(atoms, s, i)
    ensures CacheOk(cache) && cost == BreakCost(c, atoms, s, i)
  {
    var sc := atoms[s];
    var a, b;
    cache, a := CachedSyntaxCost(cache0, sc.boundarySyntax, intSyn);
    cache, b := CachedSyntaxCost(cache, atoms[i + 1].boundarySyntax, intSyn);
    cost := a + b;
    cost := cost + (LbGap(sc.boundaryLb, intLb) + LbGap(atoms[i + 1].boundaryLb, intLb)) * PER_LB;
    if atoms[i].end - sc.start < c.minChunk {
      cost := cost + TOO_SMALL;
    }
  }

  method AddPlanCost(c: Config, atoms: seq<Atom>, plans: seq<Plan>, s: nat, i: nat, prev: nat, breakCost: nat)
    returns (cost: nat)
    requires Ordered(atoms, c.textLen) && s <= prev <= i < |atoms| - 1 && i < |plans|
    requires Size(atoms, s, i) <= c.chunkSize && IsPrev(c, atoms, plans, s, i, prev)
    requires PlanOk(c, atoms, plans, prev) && breakCost == BreakCost(c, atoms, s, i)
    ensures cost == Candidate(c, atoms, plans, s, i, prev)
  {
    var p := plans[prev];
    cost := breakCost + p.cost;
    if c.overlap == 0 {
      cost := cost + MISSING_OVERLAP / 2;
    } else {
      var sb := OverlapBase(c.textLen, atoms[s].start, c.overlap);
      DiscountNeverUnderflows(c, atoms, s, i, prev);
      cost := cost + if p.overlapBase < sb then MISSING_OVERLAP + p.overlapBase - sb else MISSING_OVERLAP;
    }
  }

  /** The loop's memory: the best start found so far and the heap. */
  datatype Search = Search(best: Option<nat>, start: nat, prev: nat, heap: Heap)

  /** Every start after s was considered, and all of them fit. */
  ghost predicate SearchedAfter(c: Config, atoms: seq<Atom>, plans: seq<Plan>, s: nat, i: nat, m: Search)
    requires s <= i < |atoms| - 1 && i < |plans|
  {
    if s == i then m.best.None? && m.heap == {}
    else
      && m.best.Some? && BestFrom(c, atoms, plans, s + 1, i, m.start, m.prev, m.best.value)
      && (0 < c.overlap ==> HeapOk(c, atoms, plans, m.heap, s + 1, s + 1, i))
  }

  ghost predicate Searched(c: Config, atoms: seq<Atom>, plans: seq<Plan>, i: nat, m: Search)
    requires i < |atoms| - 1 && i < |plans|
  {
    m.best.Some? && BestFrom(c, atoms, plans, 0, i, m.start, m.prev, m.best.value)
  }

  /** One iteration: consider start s; `done` when no earlier start can fit. */
  method Consider(c: Config, atoms: seq<Atom>, plans: seq<Plan>, s: nat, i: nat, breakCost: nat, m: Search)
    returns (done: bool, m': Search)
    requires Ordered(atoms, c.textLen) && s <= i < |atoms| - 1 && |plans| == i + 1
    requires PlansOk(c, atoms, plans) && breakCost == BreakCost(c, atoms, s, i)
    requires SearchedAfter(c, atoms, plans, s, i, m)
    ensures if done || s == 0 then Searched(c, atoms, plans, i, m') else SearchedAfter(c, atoms, plans, s - 1, i, m')
  {
    if atoms[i].end - atoms[s].start > c.chunkSize {
      done, m' := true, m;
      if m.best.None? {
        m' := Search(Some(breakCost + plans[s].cost), s, s, m.heap);
        OnlyStart(c, atoms, plans, i);
      } else {
        NothingFurther(c, atoms, plans, s, i, m.start, m.prev, m.best.value);
      }
      return;
    }
    done := false;
    var heap, prev := m.heap, s;
    if c.overlap > 0 {
      heap, prev := ChoosePrev(c, atoms, plans, heap, s, i);
    }
    assert PlanOk(c, atoms, plans, prev);
    var cost := AddPlanCost(c, atoms, plans, s, i, prev, breakCost);
    Extend(c, atoms, plans, s, i, m.start, m.prev, m.best, prev, cost);
    if m.best.None? || cost < m.best.value {
      m' := Search(Some(cost), s, prev, heap);
    } else {
      m' := m.(heap := heap);
    }
  }

  /** What lies strictly between start s and atom i, and the gap cache. */
  datatype Inside = Inside(syntax: Option<nat>, lb: LineBreak, cache: seq<nat>)

  ghost predicate InsideOk(atoms: seq<Atom>, s: nat, i: nat, x: Inside)
    requires s <= i < |atoms|
  {
    CacheOk(x.cache) && x.syntax == InnerSyntax(atoms, s, i) && x.lb == InnerBreak(atoms, s, i)
  }

  /** The start moves one atom left. */
  function Widen(x: Inside, left: Atom): Inside {
    x.(syntax := Tighten(x.syntax, left.boundarySyntax), lb := Stronger(x.lb, left.internalLb))
  }

  lemma WidenOk(atoms: seq<Atom>, s: nat, i: nat, x: Inside)
    requires 0 < s <= i < |atoms| && InsideOk(atoms, s, i, x)
    ensures InsideOk(atoms, s - 1, i, Widen(x, atoms[s]))
  {
  }

  /** One turn of the search: price the chunk s..i, then move the start left or stop. */
  method SearchStep(c: Config, atoms: seq<Atom>, plans: seq<Plan>, s: nat, i: nat, m0: Search, x0: Inside)
    returns (stop: bool, m: Search, x: Inside)
    requires Ordered(atoms, c.textLen) && s <= i < |atoms| - 1 && |plans| == i + 1 && PlansOk(c, atoms, plans)
    requires InsideOk(atoms, s, i, x0) && SearchedAfter(c, atoms, plans, s, i, m0)
    ensures if stop then CacheOk(x.cache) && Searched(c, atoms, plans, i, m)
            else 0 < s && InsideOk(atoms, s - 1, i, x) && SearchedAfter(c, atoms, plans, s - 1, i, m)
  {
    var breakCost, grown;
    grown, breakCost := ChunkCost(c, atoms, s, i, x0.syntax, x0.lb, x0.cache);
    x := x0.(cache := grown);
    stop, m := Consider(c, atoms, plans, s, i, breakCost, m0);
    if s == 0 {
      stop := true;
    } else if !stop {
      WidenOk(atoms, s, i, x);
      x := Widen(x, atoms[s]);
    }
  }

  method BestPlan(c: Config, atoms: seq<Atom>, plans: seq<Plan>, i: nat, cache0: seq<nat>)
    returns (start: nat, prev: nat, cost: nat, cache: seq<nat>)
    requires Ordered(atoms, c.textLen) && i < |atoms| - 1 && |plans| == i + 1
    requires PlansOk(c, atoms, plans) && CacheOk(cache0)
    ensures CacheOk(cache)
    ensures BestFrom(c, atoms, plans, 0, i, start, prev, cost)
  {
    var m := Search(None, 0, 0, {});
    var x := Inside(None, Inline, cache0);
    var s := i;
    var searching := true;
    while searching
      invariant 0 <= s <= i && CacheOk(x.cache)
      invariant if searching then InsideOk(atoms, s, i, x) && SearchedAfter(c, atoms, plans, s, i, m)
                else Searched(c, atoms, plans, i, m)
      decreases s, searching
    {
      var stop;
      stop, m, x := SearchStep(c, atoms, plans, s, i, m, x);
      if stop {
        searching := false;
      } else {
        s := s - 1;
      }
    }
    start, prev, cost, cache := m.start, m.prev, m.best.value, x.cache;
  }

  /** `IsPrev` picks one plan only. */
  lemma PrevUnique(c: Config, atoms: seq<Atom>, plans: seq<Plan>, s: nat, i: nat, p: nat, q: nat)
    requires s <= i < |atoms| && i < |plans|
    requires IsPrev(c, atoms, plans, s, i, p) && IsPrev(c, atoms, plans, s, i, q)
    ensures p == q
  {
  }

  /** One more start considered: the cheaper of the old best and the new candidate. */
  lemma Extend(c: Config, atoms: seq<Atom>, plans: seq<Plan>, s: nat, i: nat,
               start: nat, prev: nat, best: Option<nat>, p: nat, cost: nat)
    requires s <= i < |atoms| - 1 && |plans| == i + 1 && s <= p <= i
    requires Fits(c, atoms, s, i) && IsPrev(c, atoms, plans, s, i, p)
    requires cost == Candidate(c, atoms, plans, s, i, p)
    requires if s == i then best.None? else best.Some? && BestFrom(c, atoms, plans, s + 1, i, start, prev, best.value)
    ensures if best.None? || cost < best.value
            then BestFrom(c, atoms, plans, s, i, s, p, cost)
            else BestFrom(c, atoms, plans, s, i, start, prev, best.value)
  {
    forall s': nat, p': nat | s <= s' <= p' <= i && s' == s && IsPrev(c, atoms, plans, s', i, p')
      ensures p' == p
    {
      PrevUnique(c, atoms, plans, s, i, p, p');
    }
  }

  /** Once a start is out of the size window, so is every earlier one. */
  lemma NothingFurther(c: Config, atoms: seq<Atom>, plans: seq<Plan>, s: nat, i: nat, start: nat, prev: nat, best: nat)
    requires Ordered(atoms, c.textLen) && s < i < |atoms| - 1 && |plans| == i + 1
    requires Size(atoms, s, i) > c.chunkSize
    requires BestFrom(c, atoms, plans, s + 1, i, start, prev, best)
    ensures BestFrom(c, atoms, plans, 0, i, start, prev, best)
  {
    forall s': nat | s' <= s
      ensures !Fits(c, atoms, s', i)
    {
      assert s' < s ==> atoms[s'].end <= atoms[s].start;
    }
  }

  /** An oversized atom is a chunk of its own. */
  lemma OnlyStart(c: Config, atoms: seq<Atom>, plans: seq<Plan>, i: nat)
    requires Ordered(atoms, c.textLen) && i < |atoms| - 1 && |plans| == i + 1
    requires Size(atoms, i, i) > c.chunkSize
    ensures BestFrom(c, atoms, plans, 0, i, i, i, BreakCost(c, atoms, i, i) + plans[i].cost)
  {
    forall s': nat | s' < i
      ensures !Fits(c, atoms, s', i)
    {
      assert atoms[s'].end <= atoms[i].start;
    }
  }

  // ---------- all plans, then backtracking ----------

  /** The chunks of plan k, as atom ranges [start, end). */
  function Chain(plans: seq<Plan>, k: nat): seq<(nat, nat)>
    requires Linked(plans) && k < |plans|
    decreases k
  {
    if k == 0 then [] else Chain(plans, plans[k].prev) + [(plans[k].start, k)]
  }

  predicate Linked(plans: seq<Plan>) {
    forall k :: 0 < k < |plans| ==> plans[k].start <= plans[k].prev < k
  }

  lemma PlansAreLinked(c: Config, atoms: seq<Atom>, plans: seq<Plan>)
    requires PlansOk(c, atoms, plans)
    ensures Linked(plans)
  {
    forall k | 0 < k < |plans|
      ensures plans[k].start <= plans[k].prev < k
    {
      assert PlanOk(c, atoms, plans, k);
    }
  }

  function Bytes(atoms: seq<Atom>, chain: seq<(nat, nat)>): seq<(nat, nat)>
    requires forall j :: 0 <= j < |chain| ==> chain[j].0 < |atoms| && 0 < chain[j].1 <= |atoms|
  {
    seq(|chain|, j requires 0 <= j < |chain| => (atoms[chain[j].0].start, atoms[chain[j].1 - 1].end))
  }

  lemma {:induction false} ChainInRange(plans: seq<Plan>, k: nat)
    requires Linked(plans) && k < |plans|
    ensures forall j :: 0 <= j < |Chain(plans, k)| ==> Chain(plans, k)[j].0 < Chain(plans, k)[j].1 <= k
    decreases k
  {
    if k > 0 { ChainInRange(plans, plans[k].prev); }
  }

  /** A plan stays right when later plans are appended. */
  lemma PlanOkPrefix(c: Config, atoms: seq<Atom>, plans: seq<Plan>, p: Plan)
    requires PlansOk(c, atoms, plans) && |plans| < |atoms|
    requires PlanOk(c, atoms, plans + [p], |plans|)
    ensures PlansOk(c, atoms, plans + [p])
  {
    var all := plans + [p];
    forall k | 0 <= k < |plans|
      ensures PlanOk(c, atoms, all, k)
    {
      assert PlanOk(c, atoms, plans, k);
      assert all[..k] == plans[..k];
    }
  }

  method BuildPlans(c: Config, atoms: seq<Atom>) returns (plans: seq<Plan>)
    requires Ordered(atoms, c.textLen)
    ensures PlansOk(c, atoms, plans) && |plans| == if |atoms| == 0 then 1 else |atoms|
  {
    plans := [Plan(0, 0, 0, OverlapBase(c.textLen, 0, c.overlap))];
    var cache: seq<nat> := [0];
    var i := 0;
    while i + 1 < |atoms|
      invariant PlansOk(c, atoms, plans) && CacheOk(cache)
      invariant |plans| == i + 1 && (i == 0 || i < |atoms|)
    {
      var start, prev, cost;
      start, prev, cost, cache := BestPlan(c, atoms, plans, i, cache);
      var plan := Plan(start, prev, cost, OverlapBase(c.textLen, atoms[i].end, c.overlap));
      assert (plans + [plan])[..i + 1] == plans;
      PlanOkPrefix(c, atoms, plans, plan);
      plans := plans + [plan];
      i := i + 1;
    }
  }

  function Reverse<T>(s: seq<T>): (r: seq<T>)
    ensures |r| == |s|
  {
    if |s| == 0 then [] else Reverse(s[1..]) + [s[0]]
  }

  lemma {:induction false} ReverseSnoc<T>(s: seq<T>, x: T)
    ensures Reverse(s + [x]) == [x] + Reverse(s)
  {
    if |s| > 0 {
      assert (s + [x])[1..] == s[1..] + [x];
      ReverseSnoc(s[1..], x);
    }
  }

  /** Follow the `prev` links from the last plan. */
  method Backtrack(plans: seq<Plan>) returns (chain: seq<(nat, nat)>)
    requires Linked(plans) && 0 < |plans|
    ensures chain == Chain(plans, |plans| - 1)
  {
    var out: seq<(nat, nat)> := [];
    var pi := |plans| - 1;
    while pi > 0
      invariant 0 <= pi < |plans|
      invariant Chain(plans, |plans| - 1) == Chain(plans, pi) + Reverse(out)
    {
      ReverseSnoc(out, (plans[pi].start, pi));
      out := out + [(plans[pi].start, pi)];
      pi := plans[pi].prev;
    }
    chain := Reverse(out);
  }

  method MergeAtoms(c: Config,
                    atoms: seq<Atom>) returns (out: seq<(nat, nat)>, chain: seq<(nat, nat)>, ghost plans: seq<Plan>)
    requires Ordered(atoms, c.textLen)
    ensures PlansOk(c, atoms, plans) && |plans| == if |atoms| == 0 then 1 else |atoms|
    ensures Linked(plans) && chain == Chain(plans, |plans| - 1)
    ensures forall j :: 0 <= j < |chain| ==> chain[j].0 < chain[j].1 < |atoms|
    ensures out == Bytes(atoms, chain)
  {
    var ps := BuildPlans(c, atoms);
    plans := ps;
    PlansAreLinked(c, atoms, ps);
    chain := Backtrack(ps);
    ChainInRange(ps, |ps| - 1);
    out := Bytes(atoms, chain);
  }
}
