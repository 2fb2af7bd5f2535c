/** Literal strings as section 7.3.4.2 of ISO 32000-1 reads them, and where the
  * tokenizer reads them otherwise. */
module LiteralStandard {
  import opened Wrappers
  import opened PdfTokens

  predicate IsOctalDigit(b: byte) {
    0x30 <= b <= 0x37
  }

  // ---------- the standard's reading ----------

  /** Up to `k` more octal digits. */
  function OctalDigitsFrom(data: seq<byte>, i: nat, k: nat, val: nat): (r: (nat, nat))
    requires i <= |data|
    ensures i <= r.1 <= |data|
    decreases k
  {
    if k > 0 && i < |data| && IsOctalDigit(data[i]) then OctalDigitsFrom(data, i + 1, k - 1, val * 8 + (data[i] - ZERO))
    else (val, i)
  }

  /** High-order overflow is ignored; a backslash before any other character is too. */
  function StandardEscape(data: seq<byte>, i: nat): (r: (seq<byte>, nat))
    requires i < |data|
    ensures i < r.1 <= |data|
  {
    var e := data[i];
    if NamedEscape(e).Some? then ([NamedEscape(e).value], i + 1)
    else if e == LF then ([], i + 1)
    else if e == CR then ([], if i + 1 < |data| && data[i + 1] == LF then i + 2 else i + 1)
    else if IsOctalDigit(e) then
      var (val, next) := OctalDigitsFrom(data, i + 1, 2, e - ZERO);
      ([val % 256], next)
    else ([e], i + 1)
  }

  /** An end of line that is not escaped reads as one line feed. */
  function StandardFrom(data: seq<byte>, i: nat, depth: nat): (r: (seq<byte>, nat))
    requires i <= |data| && 0 < depth
    ensures i <= r.1 <= |data|
    decreases |data| - i
  {
    if i == |data| then ([], i)
    else if data[i] == BACKSLASH then
      if i + 1 == |data| then ([], i + 1)
      else
        var (e, next) := StandardEscape(data, i + 1);
        After(e, StandardFrom(data, next, depth))
    else if data[i] == CLOSE && depth == 1 then ([], i + 1)
    else if data[i] == CR then
      After([LF], StandardFrom(data, if IsCrLf(data, i) then i + 2 else i + 1, depth))
    else After([data[i]], StandardFrom(data, i + 1, Nested(data[i], depth)))
  }

  predicate IsCrLf(data: seq<byte>, i: nat) {
    i + 1 < |data| && data[i] == CR && data[i + 1] == LF
  }

  /** The nesting depth behind a byte that does not close the literal. */
  function Nested(b: byte, depth: nat): nat
    requires 0 < depth
    ensures !(b == CLOSE && depth == 1) ==> 0 < Nested(b, depth)
  {
    if b == OPEN then depth + 1 else if b == CLOSE then depth - 1 else depth
  }

  // ---------- one token, read both ways ----------

  /** What either reading makes of the token at an index, and where both go on. */
  datatype Token = Token(code: seq<byte>, std: seq<byte>, next: nat)

  /** The standard's reading of the digits an escape of the tokenizer takes. */
  function EscapeToken(data: seq<byte>, i: nat): (t: Token)
    requires i < |data|
    ensures i < t.next <= |data|
  {
    var (code, next) := EscapeAt(data, i);
    var (std, stdNext) := StandardEscape(data, i);
    Token(code, if stdNext < next then std + data[stdNext..next] else std, next)
  }

  function TokenAt(data: seq<byte>, i: nat): (t: Token)
    requires i < |data|
    ensures i < t.next <= |data|
  {
    if data[i] == BACKSLASH then
      if i + 1 == |data| then Token([], [], i + 1) else EscapeToken(data, i + 1)
    else if IsCrLf(data, i) then Token([CR, LF], [LF], i + 2)
    else if data[i] == CR then Token([CR], [LF], i + 1)
    else Token([data[i]], [data[i]], i + 1)
  }

  lemma CodeStep(data: seq<byte>, i: nat, depth: nat)
    requires i < |data| && 0 < depth && !(data[i] == CLOSE && depth == 1)
    ensures var t := TokenAt(data, i);
      LiteralFrom(data, i, depth) == After(t.code, LiteralFrom(data, t.next, Nested(data[i], depth)))
  {
    if IsCrLf(data, i) {
      AfterMore([CR], [LF], LiteralFrom(data, i + 2, depth));
      assert [CR] + [LF] == [CR, LF];
    } else if data[i] == BACKSLASH && i + 1 == |data| {
      AfterNothing(LiteralFrom(data, i + 1, depth));
    }
  }

  /** The digits behind an octal escape are read one by one. */
  lemma {:induction false} DigitsRead(data: seq<byte>, i: nat, j: nat, depth: nat)
    requires i <= j <= |data| && 0 < depth
    requires forall k :: i <= k < j ==> IsDigit(data[k])
    ensures StandardFrom(data, i, depth) == After(data[i..j], StandardFrom(data, j, depth))
    decreases j - i
  {
    if i == j {
      AfterNothing(StandardFrom(data, j, depth));
    } else {
      assert IsDigit(data[i]);
      DigitsRead(data, i + 1, j, depth);
      AfterMore([data[i]], data[i + 1..j], StandardFrom(data, j, depth));
      assert [data[i]] + data[i + 1..j] == data[i..j];
    }
  }

  lemma {:induction false} OctalPrefix(data: seq<byte>, i: nat, k: nat, val: nat)
    requires i <= |data| && k <= 2 && (k == 2 ==> val < 8) && (k == 1 ==> val < 64)
    ensures var (v, n) := OctalFrom(data, i, k, val);
      var (w, m) := OctalDigitsFrom(data, i, k, val);
      && val <= v && m <= n <= |data|
      && (forall j :: i <= j < n ==> IsDigit(data[j]))
      && (forall j :: i <= j < m ==> IsOctalDigit(data[j]))
      && (m == n ==> v == w)
      && (m < n ==> !IsOctalDigit(data[m]) && w < 64 && 8 * w + 8 <= v)
    decreases k
  {
    if k > 0 && i < |data| && IsDigit(data[i]) {
      var more := val * 8 + (data[i] - ZERO);
      if IsOctalDigit(data[i]) {
        OctalPrefix(data, i + 1, k - 1, more);
      } else {
        OctalGrows(data, i + 1, k - 1, more);
      }
    }
  }

  lemma {:induction false} OctalGrows(data: seq<byte>, i: nat, k: nat, val: nat)
    requires i <= |data|
    ensures var (v, n) := OctalFrom(data, i, k, val);
      && (forall j :: i <= j < n ==> IsDigit(data[j]))
      && (n == i ==> v == val) && (n > i ==> 8 * val <= v)
    decreases k
  {
    if k > 0 && i < |data| && IsDigit(data[i]) {
      OctalGrows(data, i + 1, k - 1, val * 8 + (data[i] - ZERO));
    }
  }

  lemma StandardStep(data: seq<byte>, i: nat, depth: nat)
    requires i < |data| && 0 < depth && !(data[i] == CLOSE && depth == 1)
    ensures var t := TokenAt(data, i);
      StandardFrom(data, i, depth) == After(t.std, StandardFrom(data, t.next, Nested(data[i], depth)))
  {
    if data[i] == BACKSLASH {
      if i + 1 == |data| {
        AfterNothing(StandardFrom(data, i + 1, depth));
      } else {
        EscapeStep(data, i + 1, depth);
      }
    }
  }

  lemma EscapeStep(data: seq<byte>, i: nat, depth: nat)
    requires i < |data| && 0 < depth
    ensures var (std, stdNext) := StandardEscape(data, i);
      var t := EscapeToken(data, i);
      After(std, StandardFrom(data, stdNext, depth)) == After(t.std, StandardFrom(data, t.next, depth))
  {
    var e := data[i];
    if IsDigit(e) {
      var (std, stdNext) := StandardEscape(data, i);
      var t := EscapeToken(data, i);
      if IsOctalDigit(e) {
        OctalPrefix(data, i + 1, 2, e - ZERO);
      } else {
        OctalGrows(data, i + 1, 2, e - ZERO);
      }
      if stdNext < t.next {
        DigitsRead(data, stdNext, t.next, depth);
        AfterMore(std, data[stdNext..t.next], StandardFrom(data, t.next, depth));
      }
    }
  }

  // ---------- what offends ----------

  /** An escape the standard reads otherwise: a digit above 7 among the up to three
    * digits taken, a value above 255, or a character that names no escape. */
  predicate OffendingEscape(data: seq<byte>, i: nat)
    requires i < |data|
  {
    var e := data[i];
    if NamedEscape(e).Some? || e == LF || e == CR then false
    else if IsDigit(e) then
      var (val, next) := OctalFrom(data, i + 1, 2, e - ZERO);
      val > 255 || exists k :: i <= k < next && !IsOctalDigit(data[k])
    else true
  }

  /** An offending escape that leaves nothing behind. */
  predicate DroppedEscape(data: seq<byte>, i: nat)
    requires i < |data|
  {
    OffendingEscape(data, i) && (IsDigit(data[i]) ==> OctalFrom(data, i + 1, 2, data[i] - ZERO).0 > 255)
  }

  predicate Offends(data: seq<byte>, i: nat)
    requires i < |data|
  {
    data[i] == CR || (data[i] == BACKSLASH && i + 1 < |data| && OffendingEscape(data, i + 1))
  }

  predicate Drops(data: seq<byte>, i: nat)
    requires i < |data|
  {
    data[i] == BACKSLASH && i + 1 < |data| && DroppedEscape(data, i + 1)
  }

  /** No token offends up to the closing parenthesis. */
  predicate Conforming(data: seq<byte>, i: nat, depth: nat)
    requires i <= |data| && 0 < depth
    decreases |data| - i
  {
    i == |data| || (data[i] == CLOSE && depth == 1)
    || (!Offends(data, i) && Conforming(data, TokenAt(data, i).next, Nested(data[i], depth)))
  }

  /** Some raw carriage return is followed by a line feed. */
  predicate RawCrLf(data: seq<byte>, i: nat, depth: nat)
    requires i <= |data| && 0 < depth
    decreases |data| - i
  {
    && i < |data| && !(data[i] == CLOSE && depth == 1)
    && (IsCrLf(data, i) || RawCrLf(data, TokenAt(data, i).next, Nested(data[i], depth)))
  }

  /** The first offence drops an escape, and a raw CR LF comes later: one byte too
    * few, then one too many. */
  predicate Hidden(data: seq<byte>, i: nat, depth: nat)
    requires i <= |data| && 0 < depth
    decreases |data| - i
  {
    && i < |data| && !(data[i] == CLOSE && depth == 1)
    && var next, depth' := TokenAt(data, i).next, Nested(data[i], depth);
    if Offends(data, i) then Drops(data, i) && RawCrLf(data, next, depth') else Hidden(data, next, depth')
  }

  lemma DigitEscapeCases(data: seq<byte>, i: nat)
    requires i < |data| && IsDigit(data[i])
    ensures var t := EscapeToken(data, i);
      && (!OffendingEscape(data, i) ==> t.code == t.std)
      && (DroppedEscape(data, i) ==> t.code == [] && t.std != [])
      && (OffendingEscape(data, i) && !DroppedEscape(data, i) ==>
            |t.code| == 1 && t.std != [] && t.code[0] != t.std[0])
  {
    var e := data[i];
    var (val, next) := OctalFrom(data, i + 1, 2, e - ZERO);
    if IsOctalDigit(e) {
      OctalPrefix(data, i + 1, 2, e - ZERO);
      var (w, m) := OctalDigitsFrom(data, i + 1, 2, e - ZERO);
      assert m < next ==> !IsOctalDigit(data[m]);
    } else {
      OctalGrows(data, i + 1, 2, e - ZERO);
    }
  }

  /** Tokens agree unless they offend; then they differ in their first byte, or the
    * tokenizer has none. */
  lemma TokenCases(data: seq<byte>, i: nat)
    requires i < |data|
    ensures var t := TokenAt(data, i);
      && (!Offends(data, i) ==> t.code == t.std)
      && (Drops(data, i) ==> t.code == [] && t.std != [])
      && (Offends(data, i) && !Drops(data, i) ==> t.code != [] && t.std != [] && t.code[0] != t.std[0])
      && (!IsCrLf(data, i) ==> |t.code| <= |t.std|)
  {
    if data[i] == BACKSLASH && i + 1 < |data| && IsDigit(data[i + 1]) {
      DigitEscapeCases(data, i + 1);
    }
  }

  // ---------- exactly when the readings agree ----------

  /** Whatever the bytes, both readings close the literal at the same place. */
  lemma {:induction false} SameEnd(data: seq<byte>, i: nat, depth: nat)
    requires i <= |data| && 0 < depth
    ensures LiteralFrom(data, i, depth).1 == StandardFrom(data, i, depth).1
    decreases |data| - i
  {
    if i < |data| && !(data[i] == CLOSE && depth == 1) {
      CodeStep(data, i, depth);
      StandardStep(data, i, depth);
      SameEnd(data, TokenAt(data, i).next, Nested(data[i], depth));
    }
  }

  lemma {:induction false} NeverLonger(data: seq<byte>, i: nat, depth: nat)
    requires i <= |data| && 0 < depth && !RawCrLf(data, i, depth)
    ensures |LiteralFrom(data, i, depth).0| <= |StandardFrom(data, i, depth).0|
    decreases |data| - i
  {
    if i < |data| && !(data[i] == CLOSE && depth == 1) {
      CodeStep(data, i, depth);
      StandardStep(data, i, depth);
      TokenCases(data, i);
      NeverLonger(data, TokenAt(data, i).next, Nested(data[i], depth));
    }
  }

  lemma SamePrefix(out: seq<byte>, a: (seq<byte>, nat), b: (seq<byte>, nat))
    ensures After(out, a) == After(out, b) <==> a == b
  {
    if After(out, a) == After(out, b) {
      assert (out + a.0)[|out|..] == a.0 && (out + b.0)[|out|..] == b.0;
    }
  }

  lemma FirstByteDiffers(a: seq<byte>, b: seq<byte>, r: (seq<byte>, nat), s: (seq<byte>, nat))
    requires a != [] && b != [] && a[0] != b[0]
    ensures After(a, r) != After(b, s)
  {
    assert After(a, r).0[0] == a[0] && After(b, s).0[0] == b[0];
  }

  /** The tokenizer reads what the standard reads exactly if nothing offends up to
    * the closing parenthesis; only behind a dropped escape can a raw CR LF make up
    * for the difference. */
  lemma {:induction false} ReadsAsStandard(data: seq<byte>, i: nat, depth: nat)
    requires i <= |data| && 0 < depth
    ensures Conforming(data, i, depth) ==> LiteralFrom(data, i, depth) == StandardFrom(data, i, depth)
    ensures LiteralFrom(data, i, depth) == StandardFrom(data, i, depth) ==>
      Conforming(data, i, depth) || Hidden(data, i, depth)
    ensures Hidden(data, i, depth) ==> !Conforming(data, i, depth)
    decreases |data| - i
  {
    if i < |data| && !(data[i] == CLOSE && depth == 1) {
      var t, depth' := TokenAt(data, i), Nested(data[i], depth);
      CodeStep(data, i, depth);
      StandardStep(data, i, depth);
      TokenCases(data, i);
      var a, b := LiteralFrom(data, t.next, depth'), StandardFrom(data, t.next, depth');
      if !Offends(data, i) {
        ReadsAsStandard(data, t.next, depth');
        SamePrefix(t.code, a, b);
      } else if !Drops(data, i) {
        FirstByteDiffers(t.code, t.std, a, b);
      } else if !RawCrLf(data, t.next, depth') {
        NeverLonger(data, t.next, depth');
      }
    }
  }

  // ---------- inputs on which they differ ----------

  /** A literal of one token. */
  lemma OneToken(data: seq<byte>, t: Token)
    requires |data| > 1 && data[0] !in {OPEN, CLOSE} && data[|data| - 1] == CLOSE
    requires TokenAt(data, 0) == t && t.next == |data| - 1
    ensures LiteralFrom(data, 0, 1) == (t.code, |data|) && StandardFrom(data, 0, 1) == (t.std, |data|)
  {
    CodeStep(data, 0, 1);
    StandardStep(data, 0, 1);
    assert t.code + [] == t.code && t.std + [] == t.std;
  }

  /** A raw carriage return is kept; it should read as a line feed. */
  lemma RawCarriageReturn()
    ensures LiteralFrom([CR, CLOSE], 0, 1) == ([CR], 2) && StandardFrom([CR, CLOSE], 0, 1) == ([LF], 2)
  {
    OneToken([CR, CLOSE], Token([CR], [LF], 1));
  }

  /** So are both bytes of a raw CR LF. */
  lemma RawCarriageReturnLineFeed()
    ensures LiteralFrom([CR, LF, CLOSE], 0, 1) == ([CR, LF], 3) && StandardFrom([CR, LF, CLOSE], 0, 1) == ([LF], 3)
  {
    OneToken([CR, LF, CLOSE], Token([CR, LF], [LF], 2));
  }

  /** An escape that is none loses its character; it should lose the backslash. */
  lemma UnknownEscape(e: byte)
    requires NamedEscape(e).None? && !IsDigit(e) && e != CR && e != LF
    ensures var data := [BACKSLASH, e, CLOSE];
      LiteralFrom(data, 0, 1) == ([], 3) && StandardFrom(data, 0, 1) == ([e], 3)
  {
    OneToken([BACKSLASH, e, CLOSE], Token([], [e], 2));
  }

  /** The digits 8 and 9 count as octal digits; they should be ordinary characters. */
  lemma DigitAboveSeven(e: byte)
    requires e in {0x38, 0x39}
    ensures var data := [BACKSLASH, e, CLOSE];
      LiteralFrom(data, 0, 1) == ([e - ZERO], 3) && StandardFrom(data, 0, 1) == ([e], 3)
  {
    var data := [BACKSLASH, e, CLOSE];
    assert OctalFrom(data, 2, 2, e - ZERO) == (e - ZERO, 2);
    OneToken(data, Token([e - ZERO], [e], 2));
  }

  /** A value above 255 is dropped; it should lose its highest bit. */
  lemma OctalOverflow(d: byte, e: byte, f: byte)
    requires IsOctalDigit(d) && IsOctalDigit(e) && IsOctalDigit(f) && 0x34 <= d
    ensures var data := [BACKSLASH, d, e, f, CLOSE];
      && LiteralFrom(data, 0, 1) == ([], 5)
      && StandardFrom(data, 0, 1) == ([(d - 0x34) * 64 + (e - ZERO) * 8 + (f - ZERO)], 5)
  {
    var data := [BACKSLASH, d, e, f, CLOSE];
    OverflowToken(data, 0);
    OneToken(data, TokenAt(data, 0));
  }

  lemma OverflowToken(data: seq<byte>, i: nat)
    requires i + 4 <= |data| && data[i] == BACKSLASH && 0x34 <= data[i + 1]
    requires IsOctalDigit(data[i + 1]) && IsOctalDigit(data[i + 2]) && IsOctalDigit(data[i + 3])
    ensures TokenAt(data, i)
         == Token([], [(data[i + 1] - 0x34) * 64 + (data[i + 2] - ZERO) * 8 + (data[i + 3] - ZERO)], i + 4)
  {
    var a, b, c := data[i + 1] - ZERO, data[i + 2] - ZERO, data[i + 3] - ZERO;
    var val := (a * 8 + b) * 8 + c;
    assert OctalFrom(data, i + 4, 0, val) == (val, i + 4);
    assert OctalFrom(data, i + 3, 1, a * 8 + b) == (val, i + 4);
    assert OctalDigitsFrom(data, i + 4, 0, val) == (val, i + 4);
    assert OctalDigitsFrom(data, i + 3, 1, a * 8 + b) == (val, i + 4);
    assert val % 256 == (a - 4) * 64 + b * 8 + c;
  }

  /** The one way to agree by accident: \415 is dropped where the standard reads a
    * carriage return, and the raw CR LF behind it brings one. */
  lemma TwoOffencesCancel()
    ensures var data := [BACKSLASH, 0x34, 0x31, 0x35, CR, LF, CLOSE];
      && LiteralFrom(data, 0, 1) == StandardFrom(data, 0, 1) == ([CR, LF], 7)
      && !Conforming(data, 0, 1)
  {
    var data := [BACKSLASH, 0x34, 0x31, 0x35, CR, LF, CLOSE];
    OverflowToken(data, 0);
    CodeStep(data, 0, 1);
    StandardStep(data, 0, 1);
    assert TokenAt(data, 4) == Token([CR, LF], [LF], 6);
    CodeStep(data, 4, 1);
    StandardStep(data, 4, 1);
    assert [CR, LF] + [] == [CR, LF] && [LF] + [] == [LF] && [CR] + [LF] == [CR, LF];
    assert LiteralFrom(data, 4, 1) == ([CR, LF], 7) && StandardFrom(data, 4, 1) == ([LF], 7);
    AfterNothing(([CR, LF], 7));
    assert TokenAt(data, 0) == Token([], [CR], 4);
    assert Offends(data, 0);
  }

  // ---------- balanced parentheses ----------

  /** Without a backslash, the parentheses of `s` nest and close down to depth 1. */
  predicate Nests(s: seq<byte>, depth: nat) {
    if |s| == 0 then depth == 1
    else s[0] != BACKSLASH && 0 < depth && !(s[0] == CLOSE && depth == 1) && Nests(s[1..], Nested(s[0], depth))
  }

  /** Balanced parentheses need no escapes. */
  lemma {:induction false} BalancedReads(data: seq<byte>, i: nat, s: seq<byte>, depth: nat)
    requires 0 < depth && Nests(s, depth) && At(data, i, s + [CLOSE])
    ensures LiteralFrom(data, i, depth) == (s, i + |s| + 1)
    decreases |s|
  {
    AtByte(data, i, s + [CLOSE], 0);
    if |s| > 0 {
      assert s + [CLOSE] == [s[0]] + (s[1..] + [CLOSE]);
      AtSplit(data, i, [s[0]], s[1..] + [CLOSE]);
      BalancedReads(data, i + 1, s[1..], Nested(s[0], depth));
      assert [s[0]] + s[1..] == s;
    }
  }
}
