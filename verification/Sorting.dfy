/** Stable sorting of indices by a key, as the library sort does it. */
module Sorting {
  ghost predicate Indices(keys: seq<real>, s: seq<nat>) {
    forall k :: 0 <= k < |s| ==> s[k] < |keys|
  }

  /** Puts x behind everything with a key that is not larger. */
  function Insert(keys: seq<real>, x: nat, s: seq<nat>): (r: seq<nat>)
    requires Indices(keys, s) && x < |keys|
    ensures Indices(keys, r) && |r| == |s| + 1
  {
    if |s| == 0 || keys[s[|s| - 1]] <= keys[x] then s + [x]
    else Insert(keys, x, s[..|s| - 1]) + [s[|s| - 1]]
  }

  function SortBy(keys: seq<real>, s: seq<nat>): (r: seq<nat>)
    requires Indices(keys, s)
    ensures Indices(keys, r) && |r| == |s|
  {
    if |s| == 0 then [] else Insert(keys, s[|s| - 1], SortBy(keys, s[..|s| - 1]))
  }

  predicate Sorted(keys: seq<real>, s: seq<nat>)
    requires forall k :: 0 <= k < |s| ==> s[k] < |keys|
  {
    forall i, j :: 0 <= i < j < |s| ==> keys[s[i]] <= keys[s[j]]
  }

  /** How often `flags` is up at the indices listed. */
  function Count(flags: seq<bool>, s: seq<nat>): nat {
    if |s| == 0 then 0
    else Count(flags, s[..|s| - 1]) + if s[|s| - 1] < |flags| && flags[s[|s| - 1]] then 1 else 0
  }

  /** How often x is listed. */
  function Times(s: seq<nat>, x: nat): nat {
    if |s| == 0 then 0 else Times(s[..|s| - 1], x) + if s[|s| - 1] == x then 1 else 0
  }

  lemma {:induction false} InsertSorts(keys: seq<real>, x: nat, s: seq<nat>)
    requires Indices(keys, s) && x < |keys| && Sorted(keys, s)
    ensures Sorted(keys, Insert(keys, x, s))
    ensures forall y :: y in Insert(keys, x, s) <==> y == x || y in s
  {
    if !(|s| == 0 || keys[s[|s| - 1]] <= keys[x]) {
      var init, last := s[..|s| - 1], s[|s| - 1];
      InsertSorts(keys, x, init);
      assert s == init + [last];
      var r := Insert(keys, x, init);
      forall k | 0 <= k < |r|
        ensures keys[r[k]] <= keys[last]
      {
        assert r[k] in r;
      }
    }
  }

  lemma {:induction false} SortSorts(keys: seq<real>, s: seq<nat>)
    requires Indices(keys, s)
    ensures Sorted(keys, SortBy(keys, s))
    ensures forall y :: y in SortBy(keys, s) <==> y in s
  {
    if |s| > 0 {
      assert s == s[..|s| - 1] + [s[|s| - 1]];
      SortSorts(keys, s[..|s| - 1]);
      InsertSorts(keys, s[|s| - 1], SortBy(keys, s[..|s| - 1]));
    }
  }

  lemma {:induction false} InsertCounts(keys: seq<real>, x: nat, s: seq<nat>, flags: seq<bool>, y: nat)
    requires Indices(keys, s) && x < |keys|
    ensures Count(flags, Insert(keys, x, s)) == Count(flags, s) + if x < |flags| && flags[x] then 1 else 0
    ensures Times(Insert(keys, x, s), y) == Times(s, y) + if x == y then 1 else 0
  {
    var r := Insert(keys, x, s);
    if |s| == 0 || keys[s[|s| - 1]] <= keys[x] {
      assert r[..|s|] == s;
    } else {
      InsertCounts(keys, x, s[..|s| - 1], flags, y);
      assert r[..|s|] == Insert(keys, x, s[..|s| - 1]);
    }
  }

  /** Sorting only rearranges. */
  lemma {:induction false} SortCounts(keys: seq<real>, s: seq<nat>, flags: seq<bool>, y: nat)
    requires Indices(keys, s)
    ensures Count(flags, SortBy(keys, s)) == Count(flags, s)
    ensures Times(SortBy(keys, s), y) == Times(s, y)
  {
    if |s| > 0 {
      SortCounts(keys, s[..|s| - 1], flags, y);
      InsertCounts(keys, s[|s| - 1], SortBy(keys, s[..|s| - 1]), flags, y);
    }
  }

  /** The indices below n, in order. */
  function Upto(n: nat): seq<nat> {
    if n == 0 then [] else Upto(n - 1) + [n - 1]
  }

  lemma {:induction false} UptoIs(n: nat, x: nat)
    ensures |Upto(n)| == n && (forall k :: 0 <= k < n ==> Upto(n)[k] == k)
    ensures Times(Upto(n), x) == if x < n then 1 else 0
  {
    if n > 0 {
      UptoIs(n - 1, x);
      assert Upto(n)[..n - 1] == Upto(n - 1);
    }
  }
}
