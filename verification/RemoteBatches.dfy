/** Sub-batches of a remote embed call. */
module RemoteBatches {
  import opened Packing

  const BATCH_CHAR_LIMIT: nat := 20000 * 4

  function Chars(texts: seq<string>, i: nat, j: nat): nat
    requires i <= j <= |texts|
  {
    if i == j then 0 else Chars(texts, i, j - 1) + |texts[j - 1]|
  }

  /** A request under both caps. */
  ghost function Fits(texts: seq<string>, maxItems: nat): (nat, nat) -> bool {
    (i: nat, j: nat) => i <= j <= |texts| && j - i <= maxItems && Chars(texts, i, j) <= BATCH_CHAR_LIMIT
  }

  /** The ranges of a cut. */
  ghost predicate RangesOf(ends: seq<nat>, ranges: seq<(nat, nat)>) {
    && |ranges| == |ends|
    && forall k {:trigger From(ends, k)} :: 0 <= k < |ends| ==> ranges[k] == (From(ends, k), ends[k])
  }

  /** The ranges are those of a greedy cut of the texts. */
  ghost predicate PackedRanges(texts: seq<string>, maxItems: nat, ranges: seq<(nat, nat)>) {
    exists ends {:trigger RangesOf(ends, ranges)} ::
      GreedyCut(Fits(texts, maxItems), ends, |texts|) && RangesOf(ends, ranges)
  }

  method SplitRanges(texts: seq<string>, providerMax: nat) returns (ranges: seq<(nat, nat)>)
    ensures PackedRanges(texts, if providerMax > 1 then providerMax else 1, ranges)
  {
    var maxItems := if providerMax > 1 then providerMax else 1;
    ghost var fits := Fits(texts, maxItems);
    ranges := [];
    ghost var ends: seq<nat> := [];
    if |texts| == 0 {
      assert GreedyCut(fits, ends, 0) && RangesOf(ends, ranges);
      return;
    }
    var start, batchChars: nat := 0, 0;
    for i := 0 to |texts|
      invariant start <= i && (start == i ==> i == 0)
      invariant batchChars == Chars(texts, start, i)
      invariant IsCut(ends, start) && RangesOf(ends, ranges) && Closed(fits, ends)
      invariant start < i ==> Allowed(fits, start, i)
    {
      var len := |texts[i]|;
      if i > start && (i - start >= maxItems || batchChars + len > BATCH_CHAR_LIMIT) {
        assert Chars(texts, start, i + 1) == batchChars + len;
        CutMore(fits, ends, start, i);
        ranges, ends := ranges + [(start, i)], ends + [i];
        start := i;
        batchChars := 0;
      }
      batchChars := batchChars + len;
    }
    CutMore(fits, ends, start, |texts|);
    ranges, ends := ranges + [(start, |texts|)], ends + [|texts|];
    assert GreedyCut(fits, ends, |texts|) && RangesOf(ends, ranges);
  }

  lemma {:induction false} CharsShrink(texts: seq<string>, i: nat, j: nat, i': nat, j': nat)
    requires i <= i' <= j' <= j <= |texts|
    ensures Chars(texts, i', j') <= Chars(texts, i, j)
    decreases j
  {
    if j' < j {
      CharsShrink(texts, i, j - 1, i', j');
    } else if i' < j {
      CharsShrink(texts, i, j - 1, i', j' - 1);
    }
  }

  lemma FitsShrinks(texts: seq<string>, maxItems: nat)
    ensures Shrinks(Fits(texts, maxItems))
  {
    var fits := Fits(texts, maxItems);
    forall i: nat, j: nat, i': nat, j': nat | i <= i' < j' <= j && fits(i, j)
      ensures fits(i', j')
    {
      CharsShrink(texts, i, j, i', j');
    }
  }

  lemma {:induction false} CharsAreCounted(texts: seq<string>, i: nat, j: nat)
    requires i <= j <= |texts|
    ensures Chars(texts, i, j) == |Concat(texts[i..j])|
    decreases j
  {
    if i < j {
      CharsAreCounted(texts, i, j - 1);
      assert texts[i..j][..j - i - 1] == texts[i..j - 1];
    }
  }

  /** Each request holds at most as many texts as the provider takes, and 80000
    * characters, unless it is a single text; it would pass a cap with the next text. */
  lemma {:induction false} RequestsKeepCaps(texts: seq<string>, maxItems: nat, ends: seq<nat>, k: nat)
    requires 1 <= maxItems && k < |ends| && GreedyCut(Fits(texts, maxItems), ends, |texts|)
    ensures var i, j := From(ends, k), ends[k];
      && i < j <= |texts|
      && j - i <= maxItems && (|Concat(texts[i..j])| <= 80000 || j == i + 1)
      && (j < |texts| ==> j - i == maxItems || |Concat(texts[i..j + 1])| > 80000)
  {
    var i, j := From(ends, k), ends[k];
    assert i < j && Allowed(Fits(texts, maxItems), i, j);
    EndsGrow(ends, |texts|, k + 1, |ends|);
    CharsAreCounted(texts, i, j);
    if j < |texts| {
      CharsAreCounted(texts, i, j + 1);
    }
  }

  /** The ranges tile the texts in order, and no split under both caps needs fewer requests. */
  lemma {:induction false} SplitIsMinimal(texts: seq<string>, maxItems: nat, ends: seq<nat>, other: seq<nat>)
    requires GreedyCut(Fits(texts, maxItems), ends, |texts|) && AllowedCut(Fits(texts, maxItems), other, |texts|)
    ensures |ends| <= |other|
    ensures Concat(Groups(texts, ends, |ends|)) == texts
  {
    FitsShrinks(texts, maxItems);
    GreedyIsMinimal(Fits(texts, maxItems), ends, other, |texts|);
    GroupsTile(texts, ends, |ends|);
    assert texts[..|texts|] == texts;
  }
}
