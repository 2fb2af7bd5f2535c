/** What the content-stream interpreter guarantees on every page. */
module PdfLaws {
  import opened Wrappers
  import opened PdfTokens
  import opened PdfInterp

  // ---------- the runs tile the arena ----------

  /** Where the k-th slice has to start. */
  function SliceStart(runs: seq<PosRun>, k: nat): nat
    requires k <= |runs|
  {
    if k == 0 then 0 else runs[k - 1].t1
  }

  predicate Tiled(runs: seq<PosRun>, arena: seq<byte>) {
    && (forall k :: 0 <= k < |runs| ==> SliceStart(runs, k) == runs[k].t0 <= runs[k].t1)
    && SliceStart(runs, |runs|) == |arena|
  }

  /** The shown position and the line position always agree: only `emit` could
    * advance x, and it does not. */
  predicate OnLine(t: Text) {
    t.x == t.lineX && t.y == t.lastLineY
  }

  ghost predicate Good(s: State) {
    Tiled(s.runs, s.arena) && OnLine(s.text)
  }

  lemma EmittedTiles(env: Env, s: State, bytes: seq<byte>)
    requires Tiled(s.runs, s.arena)
    ensures var s' := Emitted(env, s, bytes); Tiled(s'.runs, s'.arena) && s.runs <= s'.runs && s.arena <= s'.arena
  {
    var s' := Emitted(env, s, bytes);
    forall k | 0 <= k < |s'.runs|
      ensures SliceStart(s'.runs, k) == s'.runs[k].t0 <= s'.runs[k].t1
    {
      assert k < |s.runs| ==> SliceStart(s.runs, k) == s.runs[k].t0 <= s.runs[k].t1;
    }
  }

  lemma AppliedKeeps(env: Env, s: State, op: Operator, stack: seq<Operand>)
    requires Good(s)
    ensures var s' := Applied(env, s, op, stack); Good(s') && s.runs <= s'.runs && s.arena <= s'.arena
  {
    if |stack| > 0 && stack[|stack| - 1].Str? {
      var bytes := stack[|stack| - 1].bytes;
      EmittedTiles(env, s, bytes);
      EmittedTiles(env, s.(text := LineDown(s.text)), bytes);
    }
  }

  lemma {:induction false} InterpretedKeeps(env: Env, data: seq<byte>, i: nat, stack: seq<Operand>, s: State)
    requires i <= |data| && Good(s)
    ensures var s' := Interpreted(env, data, i, stack, s); Good(s') && s.runs <= s'.runs && s.arena <= s'.arena
    decreases |data| - i
  {
    if i < |data| {
      var (token, next) := Lex(data, i);
      var (stack', s') := Taken(env, token, stack, s);
      if token.Word? {
        AppliedKeeps(env, s, OperatorOf(token.word), stack);
      }
      InterpretedKeeps(env, data, next, stack', s');
    }
  }

  /** On every content stream the run slices tile the arena, first to last. */
  lemma {:induction false} PageIsTiled(env: Env, data: seq<byte>)
    ensures var s := Interpreted(env, data, 0, [], INITIAL); Tiled(s.runs, s.arena) && OnLine(s.text)
  {
    InterpretedKeeps(env, data, 0, [], INITIAL);
  }

  // ---------- operators defined by other operators (section 9.4 of ISO 32000-1) ----------

  /** `tx ty TD` is `-ty TL` followed by `tx ty Td`. */
  lemma TDIsTLThenTd(env: Env, s: State, stack: seq<Operand>, tx: real, ty: real)
    ensures var both := stack + [Num(tx), Num(ty)];
      Applied(env, s, TD, both) == Applied(env, Applied(env, s, TL, [Num(-ty)]), Td, both)
  {
  }

  /** `T*` is `0 -lead Td`, except that it always breaks the line: inside a text
    * object the two agree exactly when a break is pending already or the leading
    * passes the break threshold; outside, exactly when the leading is zero. */
  lemma TStarIsTd(env: Env, s: State, stack: seq<Operand>)
    requires OnLine(s.text)
    ensures var t := s.text;
      Applied(env, s, TStar, []) == Applied(env, s, Td, stack + [Num(0.0), Num(-t.lead)])
      <==> if t.inText then t.pendingNl || t.lead > t.size * 0.3 else t.lead == 0.0
  {
    var t := s.text;
    var both := stack + [Num(0.0), Num(-t.lead)];
    assert NumAt(both, 1) == Some(0.0) && NumAt(both, 0) == Some(-t.lead);
    var moved := Applied(env, s, Td, both).text;
    var down := Applied(env, s, TStar, []).text;
    assert moved.y == t.y - t.lead && moved.x == t.lineX;
    if t.inText {
      assert down.pendingNl && (moved.pendingNl <==> t.pendingNl || -t.lead < -t.size * 0.3);
    } else {
      assert down == t && (moved == t <==> t.y - t.lead == t.y);
    }
  }

  /** Right behind `BT` on a new page, `T*` breaks a line and `0 0 Td` does not. */
  lemma TStarBreaksWithoutLeading(env: Env)
    ensures var s := Applied(env, INITIAL, BT, []);
      && s.text.lead == 0.0
      && Applied(env, s, TStar, []) != Applied(env, s, Td, [Num(0.0), Num(0.0)])
  {
    var s := Applied(env, INITIAL, BT, []);
    assert [] + [Num(0.0), Num(-s.text.lead)] == [Num(0.0), Num(0.0)];
    TStarIsTd(env, s, []);
  }

  /** `'` is `T*` followed by `Tj`: it does not reset x itself, but x is at the
    * line start in every state a stream can reach. */
  lemma QuoteIsTStarThenShow(env: Env, s: State, stack: seq<Operand>, str: seq<byte>)
    ensures var shown := stack + [Str(str)];
      Applied(env, s, Quote, shown) == Applied(env, Applied(env, s, TStar, []), Show, shown)
      <==> !s.text.inText || s.text.x == s.text.lineX
  {
    var t := s.text;
    var shown := stack + [Str(str)];
    if t.inText && t.x != t.lineX {
      assert Applied(env, s, Quote, shown).text.x == t.x;
      assert Applied(env, Applied(env, s, TStar, []), Show, shown).text.x == t.lineX;
    } else if t.inText {
      assert LineDown(t).(x := t.lineX) == LineDown(t);
    }
  }

  /** `"` is `'` behind two spacing operands that this interpreter does not use. */
  lemma DoubleQuoteIsQuote(env: Env, s: State, stack: seq<Operand>, aw: real, ac: real, str: seq<byte>)
    ensures Applied(env, s, DoubleQuote, stack + [Num(aw), Num(ac), Str(str)]) == Applied(env, s, Quote, [Str(str)])
  {
  }

  /** Outside a text object no operator shows anything. */
  lemma NothingShownOutsideText(env: Env, s: State, op: Operator, stack: seq<Operand>)
    requires !s.text.inText
    ensures var s' := Applied(env, s, op, stack); s'.runs == s.runs && s'.arena == s.arena
  {
  }

  /** Some token from index i on is the word `BT`. */
  predicate Begins(data: seq<byte>, i: nat)
    requires i <= |data|
    decreases |data| - i
  {
    i < |data| &&
    var (token, next) := Lex(data, i);
    (token.Word? && OperatorOf(token.word) == BT) || Begins(data, next)
  }

  /** A stretch of any tokens that opens no text object shows nothing. */
  lemma {:induction false} NothingShownWithoutBegin(env: Env, data: seq<byte>, i: nat, stack: seq<Operand>, s: State)
    requires i <= |data| && !s.text.inText && !Begins(data, i)
    ensures var s' := Interpreted(env, data, i, stack, s);
      s'.runs == s.runs && s'.arena == s.arena && !s'.text.inText
    decreases |data| - i
  {
    if i < |data| {
      var (token, next) := Lex(data, i);
      var (stack', s') := Taken(env, token, stack, s);
      if token.Word? {
        NothingShownOutsideText(env, s, OperatorOf(token.word), stack);
      }
      NothingShownWithoutBegin(env, data, next, stack', s');
    }
  }

  /** Every state a stream passes through, including those between its tokens. */
  ghost predicate Reachable(env: Env, data: seq<byte>, i: nat, stack: seq<Operand>, s: State, steps: nat)
    decreases steps
  {
    if steps == 0 then i == 0 && stack == [] && s == INITIAL
    else exists i0: nat, stack0, s0 {:trigger Reachable(env, data, i0, stack0, s0, steps - 1)} ::
      Reachable(env, data, i0, stack0, s0, steps - 1) && i0 < |data|
      && Lex(data, i0).1 == i && Taken(env, Lex(data, i0).0, stack0, s0) == (stack, s)
  }

  lemma {:induction false} ReachableIsGood(env: Env, data: seq<byte>, i: nat, stack: seq<Operand>, s: State, steps: nat)
    requires Reachable(env, data, i, stack, s, steps)
    ensures Good(s) && steps <= i <= |data|
    decreases steps
  {
    if steps > 0 {
      var i0: nat, stack0, s0 :| Reachable(env, data, i0, stack0, s0, steps - 1) && i0 < |data|
        && Lex(data, i0).1 == i && Taken(env, Lex(data, i0).0, stack0, s0) == (stack, s);
      ReachableIsGood(env, data, i0, stack0, s0, steps - 1);
      var token := Lex(data, i0).0;
      if token.Word? {
        AppliedKeeps(env, s0, OperatorOf(token.word), stack0);
      }
    }
  }

  // ---------- arrays and strings, end to end ----------

  /** A closing bracket joins the strings since its opening one, in order. */
  lemma {:induction false} CloseJoins(env: Env, stack: seq<Operand>, ops: seq<Operand>, s: State)
    requires ArrayStart !in ops
    ensures Taken(env, Close, stack + [ArrayStart] + ops, s) == (stack + [Str(StringsOf(ops))], s)
  {
    var whole := stack + [ArrayStart] + ops;
    var k := LastStart(whole);
    assert whole[|stack|] == ArrayStart;
    assert whole[|stack| + 1..] == ops;
    assert whole[..|stack|] == stack;
  }

  const TJ: seq<byte> := [0x54, 0x6A]

  /** Behind `code` stands a `Tj`. */
  predicate ShowsAt(data: seq<byte>, i: nat, code: seq<byte>) {
    At(data, i, code + TJ) && (i + |code| + 2 < |data| ==> !IsRegular(data[i + |code| + 2]))
  }

  /** When a string operand in front of `Tj` reads as `str`, exactly `str` is shown. */
  lemma ShowShows(env: Env, data: seq<byte>, i: nat, code: seq<byte>, str: seq<byte>, stack: seq<Operand>, s: State)
    requires env.isUtf8(TJ) && env.parseNum(TJ).None?
    requires s.text.inText && |code| > 0 && ShowsAt(data, i, code)
    requires Lex(data, i) == (Push(Str(str)), i + |code|)
    ensures Interpreted(env, data, i, stack, s) == Interpreted(env, data, i + |code| + 2, [], Emitted(env, s, str))
  {
    var j := i + |code|;
    AtSplit(data, i, code, TJ);
    AtByte(data, j, TJ, 0);
    AtByte(data, j, TJ, 1);
    assert RegularEnd(data, j + 1) == j + 2 by {
      assert RegularEnd(data, j + 2) == j + 2;
    }
    assert data[j..j + 2] == TJ;
    assert Lex(data, j) == (Word(TJ), j + 2);
    assert Taken(env, Word(TJ), stack + [Str(str)], s) == ([], Emitted(env, s, str));
    assert Interpreted(env, data, i, stack, s) == Interpreted(env, data, j, stack + [Str(str)], s);
  }

  /** Inside a text object, `(escaped) Tj` shows exactly the escaped bytes. */
  lemma EscapedIsShown(env: Env, data: seq<byte>, i: nat, str: seq<byte>, stack: seq<Operand>, s: State)
    requires env.isUtf8(TJ) && env.parseNum(TJ).None? && s.text.inText
    requires ShowsAt(data, i, [OPEN] + (EscapedForm(str) + [CLOSE]))
    ensures Interpreted(env, data, i, stack, s)
         == Interpreted(env, data, i + |EscapedForm(str)| + 4, [], Emitted(env, s, str))
  {
    var body := EscapedForm(str) + [CLOSE];
    var code := [OPEN] + body;
    AtSplit(data, i, code, TJ);
    AtSplit(data, i, [OPEN], body);
    AtByte(data, i, [OPEN], 0);
    EscapedReads(data, i + 1, str);
    ShowShows(env, data, i, code, str, stack, s);
  }

  /** And so does `<hex> Tj`, for every spelling of the hex digits. */
  lemma HexIsShown(env: Env, data: seq<byte>, i: nat, h: seq<byte>, str: seq<byte>, stack: seq<Operand>, s: State)
    requires env.isUtf8(TJ) && env.parseNum(TJ).None? && s.text.inText
    requires ShowsAt(data, i, [LESS] + (h + [GREATER]))
    requires GREATER !in h && Nibbles(h) == NibblesOf(str) && (|h| > 0 ==> h[0] != LESS)
    ensures Interpreted(env, data, i, stack, s) == Interpreted(env, data, i + |h| + 4, [], Emitted(env, s, str))
  {
    var body := h + [GREATER];
    var code := [LESS] + body;
    AtSplit(data, i, code, TJ);
    AtSplit(data, i, [LESS], body);
    AtByte(data, i, [LESS], 0);
    AtByte(data, i + 1, body, 0);
    HexFormReads(data, i + 1, h, str);
    ShowShows(env, data, i, code, str, stack, s);
  }
}
