/** In-order greedy packing, and why it needs the fewest groups. */
module Packing {
  /** The ends of a cut of 0..n into consecutive non-empty groups. */
  predicate IsCut(ends: seq<nat>, n: nat) {
    && (forall k {:trigger From(ends, k)} :: 0 <= k < |ends| ==> From(ends, k) < ends[k])
    && From(ends, |ends|) == n
  }

  /** Where group k starts. */
  function From(ends: seq<nat>, k: nat): nat
    requires k <= |ends|
  {
    if k == 0 then 0 else ends[k - 1]
  }

  /** Items i to j may share a group: they fit, or there is just one. */
  ghost predicate Allowed(fits: (nat, nat) -> bool, i: nat, j: nat) {
    j == i + 1 || fits(i, j)
  }

  ghost predicate AllowedCut(fits: (nat, nat) -> bool, ends: seq<nat>, n: nat) {
    IsCut(ends, n) && forall k {:trigger From(ends, k)} :: 0 <= k < |ends| ==> Allowed(fits, From(ends, k), ends[k])
  }

  /** A cut whose groups are closed only when the next item does not fit. */
  ghost predicate GreedyCut(fits: (nat, nat) -> bool, ends: seq<nat>, n: nat) {
    && AllowedCut(fits, ends, n)
    && forall k {:trigger From(ends, k)} :: 0 <= k < |ends| && ends[k] < n ==> !fits(From(ends, k), ends[k] + 1)
  }

  /** Groups that were closed because the next item did not fit. */
  ghost predicate Closed(fits: (nat, nat) -> bool, ends: seq<nat>) {
    forall k {:trigger From(ends, k)} :: 0 <= k < |ends| ==>
      Allowed(fits, From(ends, k), ends[k]) && !fits(From(ends, k), ends[k] + 1)
  }

  /** Closing one more group. */
  lemma CutMore(fits: (nat, nat) -> bool, ends: seq<nat>, i: nat, j: nat)
    requires IsCut(ends, i) && i < j && Allowed(fits, i, j) && Closed(fits, ends)
    ensures GreedyCut(fits, ends + [j], j)
    ensures !fits(i, j + 1) ==> Closed(fits, ends + [j])
    ensures forall k {:trigger From(ends + [j], k)} :: 0 <= k <= |ends| ==> From(ends + [j], k) == From(ends, k)
  {
    assert forall k {:trigger From(ends + [j], k)} :: 0 <= k <= |ends| ==> From(ends + [j], k) == From(ends, k);
  }

  /** What fits still fits without its first or last items. */
  ghost predicate Shrinks(fits: (nat, nat) -> bool) {
    forall i: nat, j: nat, i': nat, j': nat {:trigger fits(i, j), fits(i', j')} ::
      i <= i' < j' <= j && fits(i, j) ==> fits(i', j')
  }

  lemma EndsGrow(ends: seq<nat>, n: nat, j: nat, k: nat)
    requires IsCut(ends, n) && j <= k <= |ends|
    ensures From(ends, j) + (k - j) <= From(ends, k)
    decreases k
  {
    if j < k {
      EndsGrow(ends, n, j, k - 1);
      assert From(ends, k - 1) < ends[k - 1] == From(ends, k);
    }
  }

  /** After each group the greedy cut is at least as far as any other. */
  lemma StaysAhead(fits: (nat, nat) -> bool, greedy: seq<nat>, other: seq<nat>, n: nat, k: nat)
    requires Shrinks(fits) && GreedyCut(fits, greedy, n) && AllowedCut(fits, other, n)
    requires k <= |greedy| && k <= |other|
    ensures From(other, k) <= From(greedy, k)
    decreases k
  {
    if k > 0 {
      StaysAhead(fits, greedy, other, n, k - 1);
      EndsGrow(other, n, k, |other|);
      assert From(greedy, k - 1) < greedy[k - 1];
      assert Allowed(fits, From(other, k - 1), other[k - 1]);
    }
  }

  /** No cut into allowed groups has fewer groups than the greedy one. */
  lemma GreedyIsMinimal(fits: (nat, nat) -> bool, greedy: seq<nat>, other: seq<nat>, n: nat)
    requires Shrinks(fits) && GreedyCut(fits, greedy, n) && AllowedCut(fits, other, n)
    ensures |greedy| <= |other|
  {
    if |other| < |greedy| {
      StaysAhead(fits, greedy, other, n, |other|);
      EndsGrow(greedy, n, |other|, |greedy|);
    }
  }

  /** The groups of a cut, in order. */
  function Groups<T>(items: seq<T>, ends: seq<nat>, k: nat): seq<seq<T>>
    requires IsCut(ends, |items|) && k <= |ends|
  {
    if k == 0 then []
    else
      EndsGrow(ends, |items|, k, |ends|);
      assert From(ends, k - 1) < ends[k - 1];
      Groups(items, ends, k - 1) + [items[From(ends, k - 1)..ends[k - 1]]]
  }

  function Concat<T>(groups: seq<seq<T>>): seq<T> {
    if |groups| == 0 then [] else Concat(groups[..|groups| - 1]) + groups[|groups| - 1]
  }

  /** Groups put back together are the items: nothing is lost, doubled or moved. */
  lemma {:induction false} GroupsTile<T>(items: seq<T>, ends: seq<nat>, k: nat)
    requires IsCut(ends, |items|) && k <= |ends|
    ensures From(ends, k) <= |items| && Concat(Groups(items, ends, k)) == items[..From(ends, k)]
    decreases k
  {
    EndsGrow(ends, |items|, k, |ends|);
    if k > 0 {
      GroupsTile(items, ends, k - 1);
      var i, j := From(ends, k - 1), ends[k - 1];
      assert items[..j] == items[..i] + items[i..j];
    }
  }
}
