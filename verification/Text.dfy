/** UTF-8 text as a sequence of bytes.
  *
  * Offsets are byte offsets, as in the Rust source.  Decoding is not modelled:
  * each byte carries whether it starts a character and whether the character
  * it belongs to is whitespace.
  */
module Text {
  datatype Byte = Byte(code: nat, lead: bool, space: bool)

  const NL := 10
  const CR := 13
  const TAB := 9
  const BLANK := 32

  /** What decoding guarantees about the bytes of a `str`. */
  ghost predicate Utf8(t: seq<Byte>) {
    && (forall i :: 0 <= i < |t| && t[i].code < 0x80 ==> t[i].lead)
    && (forall i :: 0 <= i < |t| && t[i].code in {TAB, NL, CR, BLANK} ==> t[i].space)
    && (forall i {:trigger Continues(t, i)} :: 0 <= i < |t| && !t[i].lead ==> Continues(t, i))
  }

  /** Byte `i` is inside the character of byte `i - 1`. */
  predicate Continues(t: seq<Byte>, i: nat)
    requires i < |t|
  {
    0 < i && t[i].space == t[i - 1].space
  }

  /** `str::is_char_boundary`. */
  predicate Boundary(t: seq<Byte>, p: nat) {
    p == |t| || (p < |t| && t[p].lead)
  }

  lemma StartIsBoundary(t: seq<Byte>)
    requires Utf8(t)
    ensures Boundary(t, 0)
  {
    if |t| > 0 {
      assert Continues(t, 0) || t[0].lead;
    }
  }

  /** The number of line feeds before offset `p`. */
  function Newlines(t: seq<Byte>, p: nat): nat
    requires p <= |t|
  {
    if p == 0 then 0
    else Newlines(t, p - 1) + if t[p - 1].code == NL then 1 else 0
  }

  /** The 1-based line on which the byte at offset `p` lies. */
  function LineOf(t: seq<Byte>, p: nat): nat
    requires p <= |t|
  {
    1 + Newlines(t, p)
  }

  lemma {:induction false} NewlinesMonotone(t: seq<Byte>, p: nat, q: nat)
    requires p <= q <= |t|
    ensures Newlines(t, p) <= Newlines(t, q)
    decreases q
  {
    if p < q {
      NewlinesMonotone(t, p, q - 1);
    }
  }

  /** Line feeds in a part of the text add to those before it. */
  lemma NewlinesInPart(t: seq<Byte>, part: seq<Byte>, lo: nat, p: nat)
    requires lo + |part| <= |t| && part == t[lo..lo + |part|] && p <= |part|
    ensures Newlines(t, lo + p) == Newlines(t, lo) + Newlines(part, p)
    decreases p
  {
    if p > 0 {
      NewlinesInPart(t, part, lo, p - 1);
      assert part[p - 1] == t[lo + p - 1];
    }
  }
}
