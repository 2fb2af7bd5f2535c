/** PDF string operands: the literal form (section 7.3.4.2 of ISO 32000-1) and
  * the hexadecimal form (section 7.3.4.3). */
module PdfTokens {
  import opened Wrappers

  type byte = b: nat | b < 256

  const OPEN: byte := 0x28
  const CLOSE: byte := 0x29
  const BACKSLASH: byte := 0x5C
  const LESS: byte := 0x3C
  const GREATER: byte := 0x3E
  const LF: byte := 0x0A
  const CR: byte := 0x0D
  const ZERO: byte := 0x30

  predicate IsWs(b: byte) {
    b in {0x00, 0x09, 0x0A, 0x0C, 0x0D, 0x20}
  }

  predicate IsRegular(b: byte) {
    !IsWs(b) && b !in {0x28, 0x29, 0x3C, 0x3E, 0x5B, 0x5D, 0x7B, 0x7D, 0x2F, 0x25}
  }

  predicate IsDigit(b: byte) {
    0x30 <= b <= 0x39
  }

  type Nibble = n: nat | n < 16

  function Join(hi: Nibble, lo: Nibble): byte {
    hi * 16 + lo
  }

  function HexVal(b: byte): Option<Nibble> {
    if 0x30 <= b <= 0x39 then Some(b - 0x30)
    else if 0x61 <= b <= 0x66 then Some(b - 0x61 + 10)
    else if 0x41 <= b <= 0x46 then Some(b - 0x41 + 10)
    else None
  }

  // ---------- the literal form ----------

  /** Up to `k` more digits of an octal escape: the value and the index behind them. */
  function OctalFrom(data: seq<byte>, i: nat, k: nat, val: nat): (r: (nat, nat))
    requires i <= |data|
    ensures i <= r.1 <= |data|
    decreases k
  {
    if k > 0 && i < |data| && IsDigit(data[i]) then OctalFrom(data, i + 1, k - 1, val * 8 + (data[i] - ZERO))
    else (val, i)
  }

  /** The byte a one-character escape stands for. */
  function NamedEscape(e: byte): Option<byte> {
    if e == 0x6E then Some(0x0A)
    else if e == 0x72 then Some(0x0D)
    else if e == 0x74 then Some(0x09)
    else if e == 0x62 then Some(0x08)
    else if e == 0x66 then Some(0x0C)
    else if e in {OPEN, CLOSE, BACKSLASH} then Some(e)
    else None
  }

  /** What the escape after a backslash yields, and the index behind it. */
  function EscapeAt(data: seq<byte>, i: nat): (r: (seq<byte>, nat))
    requires i < |data|
    ensures i < r.1 <= |data|
  {
    var e := data[i];
    if NamedEscape(e).Some? then ([NamedEscape(e).value], i + 1)
    else if e == CR then ([], if i + 1 < |data| && data[i + 1] == LF then i + 2 else i + 1)
    else if IsDigit(e) then
      var (val, next) := OctalFrom(data, i + 1, 2, e - ZERO);
      (if val < 256 then [val] else [], next)
    else ([], i + 1)
  }

  /** The rest of a literal at nesting depth `depth`: its bytes and the index behind it. */
  function LiteralFrom(data: seq<byte>, i: nat, depth: nat): (r: (seq<byte>, nat))
    requires i <= |data| && 0 < depth
    ensures i <= r.1 <= |data|
    decreases |data| - i
  {
    if i == |data| then ([], i)
    else if data[i] == BACKSLASH then
      if i + 1 == |data| then ([], i + 1)
      else
        var (e, next) := EscapeAt(data, i + 1);
        After(e, LiteralFrom(data, next, depth))
    else if data[i] == CLOSE && depth == 1 then ([], i + 1)
    else
      var depth' := if data[i] == OPEN then depth + 1 else if data[i] == CLOSE then depth - 1 else depth;
      After([data[i]], LiteralFrom(data, i + 1, depth'))
  }

  method ParseOctal(data: seq<byte>, start: nat) returns (val: nat, next: nat)
    requires start < |data| && IsDigit(data[start])
    ensures (val, next) == OctalFrom(data, start + 1, 2, data[start] - ZERO)
    ensures start < next <= |data|
  {
    val, next := 0, start;
    var k := 0;
    while k < 3 && next < |data| && IsDigit(data[next])
      invariant k <= 3 && start <= next <= |data| && (k == 0 <==> next == start)
      invariant OctalFrom(data, next, 3 - k, val) == OctalFrom(data, start, 3, 0)
    {
      val := val * 8 + (data[next] - ZERO);
      next := next + 1;
      k := k + 1;
    }
  }

  /** The branch behind a backslash; `i` is the index of the byte after it. */
  method ParseEscape(data: seq<byte>, i: nat) returns (out: seq<byte>, next: nat)
    requires i < |data|
    ensures (out, next) == EscapeAt(data, i)
  {
    out, next := [], i;
    var e := data[i];
    if NamedEscape(e).Some? {
      out := [NamedEscape(e).value];
      next := next + 1;
    } else if e == LF {
      next := next + 1;
    } else if e == CR {
      next := next + 1;
      if next < |data| && data[next] == LF {
        next := next + 1;
      }
    } else if IsDigit(e) {
      var val;
      val, next := ParseOctal(data, i);
      if val < 256 {
        out := [val];
      }
    } else {
      next := next + 1;
    }
  }

  /** A result with more output before it. */
  function After(out: seq<byte>, r: (seq<byte>, nat)): (seq<byte>, nat) {
    (out + r.0, r.1)
  }

  lemma AfterNothing(r: (seq<byte>, nat))
    ensures After([], r) == r
  {
    assert [] + r.0 == r.0;
  }

  lemma AfterMore(out: seq<byte>, e: seq<byte>, r: (seq<byte>, nat))
    ensures After(out, After(e, r)) == After(out + e, r)
  {
    assert out + (e + r.0) == out + e + r.0;
  }

  method ParseLiteral(data: seq<byte>, start: nat) returns (out: seq<byte>, next: nat)
    requires start <= |data|
    ensures (out, next) == LiteralFrom(data, start, 1)
    ensures start <= next <= |data|
  {
    out := [];
    var i := start;
    var depth := 1;
    AfterNothing(LiteralFrom(data, start, 1));
    while i < |data|
      invariant start <= i <= |data| && 0 < depth
      invariant After(out, LiteralFrom(data, i, depth)) == LiteralFrom(data, start, 1)
      decreases |data| - i
    {
      var b := data[i];
      var e := [b];
      var step := i + 1;
      if b == BACKSLASH {
        i := i + 1;
        if i == |data| {
          assert out + [] == out;
          return out, i;
        }
        e, step := ParseEscape(data, i);
      } else if b == OPEN {
        depth := depth + 1;
      } else if b == CLOSE {
        depth := depth - 1;
        if depth == 0 {
          assert out + [] == out;
          return out, i + 1;
        }
      }
      AfterMore(out, e, LiteralFrom(data, step, depth));
      out := out + e;
      i := step;
    }
    assert out + [] == out;
    return out, i;
  }

  // ---------- writing literals ----------

  /** A byte may stand for itself, unless it is a backslash or a parenthesis. */
  predicate IsPlain(b: byte) {
    b !in {BACKSLASH, OPEN, CLOSE}
  }

  /** Three octal digits that stand for `b`. */
  predicate IsOctal(d: byte, e: byte, f: byte, b: byte) {
    && 0x30 <= d <= 0x33 && 0x30 <= e <= 0x37 && 0x30 <= f <= 0x37
    && b == ((d - ZERO) * 8 + (e - ZERO)) * 8 + (f - ZERO)
  }

  function OctalDigits(b: byte): seq<byte> {
    [ZERO + b / 64, ZERO + b / 8 % 8, ZERO + b % 8]
  }

  /** `code` is a piece of a literal that stands for `bytes`, whatever follows it. */
  predicate Piece(code: seq<byte>, bytes: seq<byte>) {
    || (|code| == 1 && IsPlain(code[0]) && bytes == code)
    || (|code| == 2 && code[0] == BACKSLASH && NamedEscape(code[1]) == Some(OneByte(bytes)) && |bytes| == 1)
    || (|code| == 4 && code[0] == BACKSLASH && IsOctal(code[1], code[2], code[3], OneByte(bytes)) && |bytes| == 1)
    || (code in {[BACKSLASH, LF], [BACKSLASH, CR, LF]} && bytes == [])
  }

  function OneByte(bytes: seq<byte>): byte {
    if |bytes| == 1 then bytes[0] else 0
  }

  datatype Written = Written(code: seq<byte>, bytes: seq<byte>)

  function Code(ps: seq<Written>): seq<byte> {
    if |ps| == 0 then [] else ps[0].code + Code(ps[1..])
  }

  function Bytes(ps: seq<Written>): seq<byte> {
    if |ps| == 0 then [] else ps[0].bytes + Bytes(ps[1..])
  }

  /** `code` stands at position i of `data`. */
  predicate At(data: seq<byte>, i: nat, code: seq<byte>) {
    i + |code| <= |data| && data[i..i + |code|] == code
  }

  lemma AtSplit(data: seq<byte>, i: nat, a: seq<byte>, b: seq<byte>)
    requires At(data, i, a + b)
    ensures At(data, i, a) && At(data, i + |a|, b)
  {
    assert data[i..i + |a|] == (a + b)[..|a|];
    assert data[i + |a|..i + |a| + |b|] == (a + b)[|a|..];
  }

  lemma AtByte(data: seq<byte>, i: nat, code: seq<byte>, k: nat)
    requires At(data, i, code) && k < |code|
    ensures data[i + k] == code[k]
  {
    assert data[i..i + |code|][k] == code[k];
  }

  lemma OctalReads(data: seq<byte>, i: nat, b: byte)
    requires i + 3 <= |data| && IsOctal(data[i], data[i + 1], data[i + 2], b)
    ensures EscapeAt(data, i) == ([b], i + 3)
  {
    var a0, a1, a2 := data[i] - ZERO, data[i + 1] - ZERO, data[i + 2] - ZERO;
    assert OctalFrom(data, i + 3, 0, (a0 * 8 + a1) * 8 + a2) == ((a0 * 8 + a1) * 8 + a2, i + 3);
    assert OctalFrom(data, i + 2, 1, a0 * 8 + a1) == ((a0 * 8 + a1) * 8 + a2, i + 3);
    assert OctalFrom(data, i + 1, 2, a0) == ((a0 * 8 + a1) * 8 + a2, i + 3);
  }

  /** Reading one piece yields its bytes and continues right behind it. */
  lemma PieceReads(data: seq<byte>, i: nat, p: Written, depth: nat)
    requires Piece(p.code, p.bytes) && At(data, i, p.code) && 0 < depth
    ensures LiteralFrom(data, i, depth) == After(p.bytes, LiteralFrom(data, i + |p.code|, depth))
  {
    var code := p.code;
    AtByte(data, i, code, 0);
    if |code| == 1 {
      assert p.bytes == [data[i]];
    } else {
      AtByte(data, i, code, 1);
      if |code| == 4 {
        AtByte(data, i, code, 2);
        AtByte(data, i, code, 3);
        OctalReads(data, i + 1, p.bytes[0]);
        assert p.bytes == [p.bytes[0]] && data[i] == BACKSLASH;
        assert EscapeAt(data, i + 1) == (p.bytes, i + 4);
      } else if |code| == 3 {
        AtByte(data, i, code, 2);
      } else if |p.bytes| == 1 {
        assert p.bytes == [OneByte(p.bytes)];
      }
    }
  }

  lemma {:induction false} CodeCons(ps: seq<Written>)
    requires |ps| > 0
    ensures Code(ps) + [CLOSE] == ps[0].code + (Code(ps[1..]) + [CLOSE])
  {
    assert ps[0].code + Code(ps[1..]) + [CLOSE] == ps[0].code + (Code(ps[1..]) + [CLOSE]);
  }

  /** Any literal written in pieces reads back as its bytes, up to its closing parenthesis. */
  lemma {:induction false} PiecesRead(data: seq<byte>, i: nat, ps: seq<Written>)
    requires forall p :: p in ps ==> Piece(p.code, p.bytes)
    requires At(data, i, Code(ps) + [CLOSE])
    ensures LiteralFrom(data, i, 1) == (Bytes(ps), i + |Code(ps)| + 1)
    decreases |ps|
  {
    if |ps| == 0 {
      AtByte(data, i, [CLOSE], 0);
    } else {
      var p, rest := ps[0], ps[1..];
      CodeCons(ps);
      AtSplit(data, i, p.code, Code(rest) + [CLOSE]);
      PieceReads(data, i, p, 1);
      PiecesRead(data, i + |p.code|, rest);
    }
  }

  /** The escaped form: backslashes before backslashes and parentheses. */
  function EscapedForm(s: seq<byte>): seq<byte> {
    if |s| == 0 then [] else (if IsPlain(s[0]) then [s[0]] else [BACKSLASH, s[0]]) + EscapedForm(s[1..])
  }

  /** The all-octal form. */
  function OctalForm(s: seq<byte>): seq<byte> {
    if |s| == 0 then [] else [BACKSLASH] + OctalDigits(s[0]) + OctalForm(s[1..])
  }

  function EscapedPieces(s: seq<byte>): (ps: seq<Written>)
    ensures Code(ps) == EscapedForm(s) && Bytes(ps) == s
    ensures forall p :: p in ps ==> Piece(p.code, p.bytes)
  {
    if |s| == 0 then []
    else
      var p := Written(if IsPlain(s[0]) then [s[0]] else [BACKSLASH, s[0]], [s[0]]);
      assert Piece(p.code, p.bytes);
      [p] + EscapedPieces(s[1..])
  }

  function OctalPieces(s: seq<byte>): (ps: seq<Written>)
    ensures Code(ps) == OctalForm(s) && Bytes(ps) == s
    ensures forall p :: p in ps ==> Piece(p.code, p.bytes)
  {
    if |s| == 0 then []
    else
      var d := OctalDigits(s[0]);
      assert IsOctal(d[0], d[1], d[2], s[0]);
      [Written([BACKSLASH] + d, [s[0]])] + OctalPieces(s[1..])
  }

  lemma AtInside(before: seq<byte>, code: seq<byte>, after: seq<byte>)
    ensures At(before + code + after, |before|, code)
  {
  }

  lemma {:induction false} EscapedReads(data: seq<byte>, i: nat, s: seq<byte>)
    requires At(data, i, EscapedForm(s) + [CLOSE])
    ensures LiteralFrom(data, i, 1) == (s, i + |EscapedForm(s)| + 1)
  {
    PiecesRead(data, i, EscapedPieces(s));
  }

  lemma {:induction false} OctalFormReads(data: seq<byte>, i: nat, s: seq<byte>)
    requires At(data, i, OctalForm(s) + [CLOSE])
    ensures LiteralFrom(data, i, 1) == (s, i + |OctalForm(s)| + 1)
  {
    PiecesRead(data, i, OctalPieces(s));
  }

  /** Every byte string survives the escaped form, in any context. */
  lemma {:induction false} EscapedRoundTrip(before: seq<byte>, s: seq<byte>, after: seq<byte>)
    ensures LiteralFrom(before + (EscapedForm(s) + [CLOSE]) + after, |before|, 1)
         == (s, |before| + |EscapedForm(s)| + 1)
  {
    AtInside(before, EscapedForm(s) + [CLOSE], after);
    EscapedReads(before + (EscapedForm(s) + [CLOSE]) + after, |before|, s);
  }

  /** Every byte string survives the all-octal form, in any context. */
  lemma {:induction false} OctalRoundTrip(before: seq<byte>, s: seq<byte>, after: seq<byte>)
    ensures LiteralFrom(before + (OctalForm(s) + [CLOSE]) + after, |before|, 1) == (s, |before| + |OctalForm(s)| + 1)
  {
    AtInside(before, OctalForm(s) + [CLOSE], after);
    OctalFormReads(before + (OctalForm(s) + [CLOSE]) + after, |before|, s);
  }

  // ---------- the hexadecimal form ----------

  function HexFrom(data: seq<byte>, i: nat, hi: Option<Nibble>): (r: (seq<byte>, nat))
    requires i <= |data|
    ensures i <= r.1 <= |data|
    decreases |data| - i
  {
    if i == |data| then ([], i)
    else if data[i] == GREATER then (if hi.Some? then [Join(hi.value, 0)] else [], i + 1)
    else
      match (HexVal(data[i]), hi)
      case (None, _) => HexFrom(data, i + 1, hi)
      case (Some(d), None) => HexFrom(data, i + 1, Some(d))
      case (Some(d), Some(h)) =>
        After([Join(h, d)], HexFrom(data, i + 1, None))
  }

  method ParseHex(data: seq<byte>, start: nat) returns (out: seq<byte>, next: nat)
    requires start <= |data|
    ensures (out, next) == HexFrom(data, start, None)
    ensures start <= next <= |data|
  {
    out := [];
    var i := start;
    var hi: Option<Nibble> := None;
    AfterNothing(HexFrom(data, start, None));
    while i < |data|
      invariant start <= i <= |data|
      invariant After(out, HexFrom(data, i, hi)) == HexFrom(data, start, None)
    {
      var b := data[i];
      if b == GREATER {
        assert out + [] == out;
        if hi.Some? {
          out := out + [Join(hi.value, 0)];
        }
        return out, i + 1;
      }
      var d := HexVal(b);
      if d.Some? {
        match hi {
          case None => hi := d;
          case Some(h) =>
            AfterMore(out, [Join(h, d.value)], HexFrom(data, i + 1, None));
            out := out + [Join(h, d.value)];
            hi := None;
        }
      }
      i := i + 1;
    }
    assert out + [] == out;
    return out, i;
  }

  /** The hex digits of a text, everything else ignored. */
  function Nibbles(h: seq<byte>): seq<Nibble> {
    if |h| == 0 then []
    else if HexVal(h[0]).Some? then [HexVal(h[0]).value] + Nibbles(h[1..])
    else Nibbles(h[1..])
  }

  /** Digits paired high nibble first, an odd last one padded with zero; `held`
    * is a high nibble that still waits for its partner. */
  function Paired(held: Option<Nibble>, ns: seq<Nibble>): seq<byte>
    decreases |ns|
  {
    if |ns| == 0 then (if held.Some? then [Join(held.value, 0)] else [])
    else if held.None? then Paired(Some(ns[0]), ns[1..])
    else [Join(held.value, ns[0])] + Paired(None, ns[1..])
  }

  /** What a hex string means, for every content up to the first `>`. */
  lemma {:induction false} HexReads(data: seq<byte>, i: nat, h: seq<byte>, hi: Option<Nibble>)
    requires At(data, i, h + [GREATER]) && GREATER !in h
    ensures HexFrom(data, i, hi) == (Paired(hi, Nibbles(h)), i + |h| + 1)
    decreases |h|
  {
    AtByte(data, i, h + [GREATER], 0);
    if |h| > 0 {
      assert h + [GREATER] == [h[0]] + (h[1..] + [GREATER]);
      AtSplit(data, i, [h[0]], h[1..] + [GREATER]);
      var d, ns := HexVal(h[0]), Nibbles(h[1..]);
      assert d.Some? ==> ([d.value] + ns)[1..] == ns;
      HexReads(data, i + 1, h[1..], if d.None? then hi else if hi.None? then d else None);
    }
  }

  /** The nibbles of a byte string. */
  function NibblesOf(s: seq<byte>): seq<Nibble> {
    if |s| == 0 then [] else [s[0] / 16] + ([s[0] % 16] + NibblesOf(s[1..]))
  }

  lemma {:induction false} PairedNibbles(s: seq<byte>)
    ensures Paired(None, NibblesOf(s)) == s
  {
    if |s| > 0 {
      var a, b, rest := s[0] / 16, s[0] % 16, NibblesOf(s[1..]);
      PairedNibbles(s[1..]);
      assert ([a] + ([b] + rest))[1..] == [b] + rest && ([b] + rest)[1..] == rest;
      assert Paired(Some(a), [b] + rest) == [Join(a, b)] + s[1..];
    }
  }

  /** Every byte string survives the hex form, with digits of either case and
    * anything but digits and `>` between them. */
  lemma {:induction false} HexFormReads(data: seq<byte>, i: nat, h: seq<byte>, s: seq<byte>)
    requires At(data, i, h + [GREATER]) && GREATER !in h && Nibbles(h) == NibblesOf(s)
    ensures HexFrom(data, i, None) == (s, i + |h| + 1)
  {
    HexReads(data, i, h, None);
    PairedNibbles(s);
  }

  lemma {:induction false} HexRoundTrips(before: seq<byte>, h: seq<byte>, s: seq<byte>, after: seq<byte>)
    requires GREATER !in h && Nibbles(h) == NibblesOf(s)
    ensures HexFrom(before + (h + [GREATER]) + after, |before|, None) == (s, |before| + |h| + 1)
  {
    AtInside(before, h + [GREATER], after);
    HexFormReads(before + (h + [GREATER]) + after, |before|, h, s);
  }

  function HexDigit(n: Nibble): (b: byte)
    ensures HexVal(b) == Some(n) && b != GREATER
  {
    if n < 10 then 0x30 + n else 0x41 + n - 10
  }

  /** The plain hex form: two upper-case digits a byte. */
  function HexForm(s: seq<byte>): (h: seq<byte>)
    ensures GREATER !in h
  {
    if |s| == 0 then [] else [HexDigit(s[0] / 16)] + ([HexDigit(s[0] % 16)] + HexForm(s[1..]))
  }

  /** The plain form spells the bytes. */
  lemma {:induction false} HexFormSpells(s: seq<byte>)
    ensures Nibbles(HexForm(s)) == NibblesOf(s)
  {
    if |s| > 0 {
      var a, b, rest := HexDigit(s[0] / 16), HexDigit(s[0] % 16), HexForm(s[1..]);
      HexFormSpells(s[1..]);
      assert ([a] + ([b] + rest))[1..] == [b] + rest && ([b] + rest)[1..] == rest;
      assert Nibbles([b] + rest) == [HexVal(b).value] + Nibbles(rest);
    }
  }

  /** White space between the digits never matters. */
  lemma {:induction false} WhitespaceIsIgnored(a: seq<byte>, w: byte, b: seq<byte>)
    requires IsWs(w)
    ensures Nibbles(a + [w] + b) == Nibbles(a + b)
  {
    if |a| == 0 {
      assert a + [w] + b == [w] + b && a + b == b && ([w] + b)[1..] == b;
    } else {
      assert (a + [w] + b)[1..] == a[1..] + [w] + b && (a + b)[1..] == a[1..] + b;
      WhitespaceIsIgnored(a[1..], w, b);
    }
  }
}
