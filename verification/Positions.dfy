/** Attaching line numbers to byte offsets in one scan of the text. */
module Positions {
  import opened Text
  import opened Wrappers

  class BytePos {
    const byteOffset: nat
    var output: Option<nat>

    constructor (byteOffset: nat)
      ensures this.byteOffset == byteOffset && output == None
    {
      this.byteOffset := byteOffset;
      output := None;
    }
  }

  /** A position the scan stops at: it starts a character of the text. */
  predicate OnChar(t: seq<Byte>, p: nat) {
    p < |t| && t[p].lead
  }

  ghost function Offsets(ps: seq<BytePos>): set<nat> {
    set p | p in ps :: p.byteOffset
  }

  /** Some requested offset, at most `p`, is inside the text but not at the start of a character. */
  ghost predicate StuckBefore(t: seq<Byte>, offsets: set<nat>, p: nat) {
    exists q :: q in offsets && q <= p && q < |t| && !t[q].lead
  }

  /** The line the scan writes at offset `p`: the line of `p`, clipped to the
    * end of the text, unless the scan got stuck at or before it. */
  ghost function LineWritten(t: seq<Byte>, offsets: set<nat>, p: nat): nat {
    if StuckBefore(t, offsets, p) || p >= |t| then LineOf(t, |t|) else LineOf(t, p)
  }

  /** On character boundaries, and only if every earlier request is on one too,
    * the answer is one more than the line feeds before the offset. */
  lemma {:induction false} LineWrittenOnBoundaries(t: seq<Byte>, offsets: set<nat>, p: nat)
    requires p <= |t| && forall q :: q in offsets ==> Boundary(t, q) || q > |t|
    ensures LineWritten(t, offsets, p) == 1 + Newlines(t, p)
  {
  }

  ghost predicate SortedByOffset(ps: seq<BytePos>) {
    forall i, j :: 0 <= i < j < |ps| ==> ps[i].byteOffset <= ps[j].byteOffset
  }

  method InsertionPoint(out: seq<BytePos>, p: BytePos) returns (k: nat)
    ensures k <= |out| && (0 < k ==> out[k - 1].byteOffset <= p.byteOffset)
    ensures forall j :: k <= j < |out| ==> out[j].byteOffset > p.byteOffset
  {
    k := |out|;
    while k > 0 && out[k - 1].byteOffset > p.byteOffset
      invariant 0 <= k <= |out|
      invariant forall j :: k <= j < |out| ==> out[j].byteOffset > p.byteOffset
    {
      k := k - 1;
    }
  }

  /** `out` with `p` put at index k. */
  function Inserted(out: seq<BytePos>, p: BytePos, k: nat): (more: seq<BytePos>)
    requires k <= |out|
    ensures |more| == |out| + 1 && more[k] == p
    ensures forall i :: 0 <= i < |more| ==> more[i] == if i < k then out[i] else if i == k then p else out[i - 1]
  {
    out[..k] + [p] + out[k..]
  }

  lemma InsertedInOrder(out: seq<BytePos>, p: BytePos, k: nat)
    requires SortedByOffset(out) && k <= |out| && (0 < k ==> out[k - 1].byteOffset <= p.byteOffset)
    requires forall j :: k <= j < |out| ==> out[j].byteOffset > p.byteOffset
    ensures SortedByOffset(Inserted(out, p, k))
  {
  }

  lemma InsertedMembers(out: seq<BytePos>, p: BytePos, k: nat, q: BytePos)
    requires k <= |out|
    ensures q in Inserted(out, p, k) <==> q == p || q in out
  {
    assert out == out[..k] + out[k..];
  }

  method SortByOffset(ps: seq<BytePos>) returns (out: seq<BytePos>)
    ensures SortedByOffset(out)
    ensures |out| == |ps| && forall p :: p in ps <==> p in out
  {
    out := [];
    for i := 0 to |ps|
      invariant |out| == i && SortedByOffset(out)
      invariant forall p :: p in ps[..i] <==> p in out
    {
      var k := InsertionPoint(out, ps[i]);
      assert ps[..i + 1] == ps[..i] + [ps[i]];
      InsertedInOrder(out, ps[i], k);
      forall q {
        InsertedMembers(out, ps[i], k, q);
      }
      out := Inserted(out, ps[i], k);
    }
    assert ps[..|ps|] == ps;
  }

  ghost predicate Served(t: seq<Byte>, offsets: set<nat>, sorted: seq<BytePos>, k: nat)
    requires k <= |sorted|
    reads sorted
  {
    forall j :: 0 <= j < k ==> sorted[j].output == Some(LineWritten(t, offsets, sorted[j].byteOffset))
  }

  /** Every position before index `k` was met by the scan before offset `i`. */
  ghost predicate MetBefore(t: seq<Byte>, sorted: seq<BytePos>, k: nat, i: nat)
    requires k <= |sorted|
  {
    forall j :: 0 <= j < k ==> OnChar(t, sorted[j].byteOffset) && sorted[j].byteOffset < i
  }

  /** Nothing at or before position `k` blocks the scan if every earlier one was met. */
  lemma NotStuck(t: seq<Byte>, sorted: seq<BytePos>, k: nat, i: nat)
    requires SortedByOffset(sorted) && k < |sorted| && MetBefore(t, sorted, k, i + 1)
    requires sorted[k].byteOffset == i && OnChar(t, i)
    ensures LineWritten(t, Offsets(sorted), i) == LineOf(t, i)
  {
    forall q | q in Offsets(sorted) && q <= i
      ensures OnChar(t, q)
    {
      var p :| p in sorted && p.byteOffset == q;
      var j :| 0 <= j < |sorted| && sorted[j] == p;
    }
  }

  /** A position the scan cannot meet makes the last line of the text the answer for it and all later ones. */
  lemma LeftOver(t: seq<Byte>, sorted: seq<BytePos>, first: nat)
    requires SortedByOffset(sorted) && first < |sorted|
    requires sorted[first].byteOffset < |t| ==> !t[sorted[first].byteOffset].lead
    ensures forall j :: first <= j < |sorted| ==>
              LineWritten(t, Offsets(sorted), sorted[j].byteOffset) == LineOf(t, |t|)
  {
    assert sorted[first] in sorted && sorted[first].byteOffset in Offsets(sorted);
  }

  method Serve(t: seq<Byte>, ghost offsets: set<nat>, sorted: seq<BytePos>, next: nat, line: nat)
    requires next < |sorted| && Served(t, offsets, sorted, next)
    requires line == LineWritten(t, offsets, sorted[next].byteOffset)
    modifies sorted[next]
    ensures Served(t, offsets, sorted, next + 1)
  {
    sorted[next].output := Some(line);
  }

  /** One iteration's inner loop: serve every position at the character starting at `i`. */
  method ServeAt(t: seq<Byte>, sorted: seq<BytePos>, first: nat, i: nat, line: nat) returns (next: nat)
    requires SortedByOffset(sorted) && first < |sorted| && OnChar(t, i) && line == LineOf(t, i)
    requires MetBefore(t, sorted, first, i) && Served(t, Offsets(sorted), sorted, first)
    modifies sorted
    ensures first <= next <= |sorted| && MetBefore(t, sorted, next, i + 1) && Served(t, Offsets(sorted), sorted, next)
    ensures next < |sorted| && sorted[next].byteOffset <= i ==> next == first && sorted[next].byteOffset < i
  {
    next := first;
    while next < |sorted| && sorted[next].byteOffset == i
      invariant first <= next <= |sorted|
      invariant MetBefore(t, sorted, next, i + 1) && Served(t, Offsets(sorted), sorted, next)
      invariant first < next ==> sorted[next - 1].byteOffset == i
    {
      NotStuck(t, sorted, next, i);
      assert sorted[next] in sorted;
      Serve(t, Offsets(sorted), sorted, next, line);
      next := next + 1;
    }
  }

  /** After the scan: everything left gets the last line. */
  method ServeRest(t: seq<Byte>, sorted: seq<BytePos>, first: nat, line: nat)
    requires first <= |sorted| && Served(t, Offsets(sorted), sorted, first)
    requires forall j :: first <= j < |sorted| ==> LineWritten(t, Offsets(sorted), sorted[j].byteOffset) == line
    modifies sorted
    ensures Served(t, Offsets(sorted), sorted, |sorted|)
  {
    for next := first to |sorted|
      invariant Served(t, Offsets(sorted), sorted, next)
    {
      assert sorted[next] in sorted;
      Serve(t, Offsets(sorted), sorted, next, line);
    }
  }

  /** The pass over the characters of `t`. */
  method Scan(t: seq<Byte>, sorted: seq<BytePos>) returns (next: nat, line: nat)
    requires Utf8(t) && SortedByOffset(sorted)
    modifies sorted
    ensures next <= |sorted| && Served(t, Offsets(sorted), sorted, next)
    ensures next < |sorted| ==> line == LineOf(t, |t|)
    ensures next < |sorted| && sorted[next].byteOffset < |t| ==> !t[sorted[next].byteOffset].lead
  {
    next, line := 0, 1;
    var i := 0;
    while i < |t| && next < |sorted|
      invariant i <= |t| && next <= |sorted|
      invariant line == LineOf(t, i)
      invariant MetBefore(t, sorted, next, i) && Served(t, Offsets(sorted), sorted, next)
      invariant next < |sorted| && sorted[next].byteOffset < i ==> !t[sorted[next].byteOffset].lead
    {
      if t[i].lead {
        next := ServeAt(t, sorted, next, i, line);
        if t[i].code == NL {
          line := line + 1;
        }
      }
      i := i + 1;
    }
  }

  method ComputePositions(t: seq<Byte>, positions: seq<BytePos>)
    requires Utf8(t)
    modifies positions
    ensures forall p :: p in positions ==> p.output == Some(LineWritten(t, Offsets(positions), p.byteOffset))
  {
    var sorted := SortByOffset(positions);
    assert Offsets(positions) == Offsets(sorted);
    assert forall j :: 0 <= j < |sorted| ==> sorted[j] in positions;
    var next, line := Scan(t, sorted);
    if next < |sorted| {
      LeftOver(t, sorted, next);
      ServeRest(t, sorted, next, line);
    }
    forall p | p in positions
      ensures p.output == Some(LineWritten(t, Offsets(sorted), p.byteOffset))
    {
      var j :| 0 <= j < |sorted| && sorted[j] == p;
    }
  }
}
