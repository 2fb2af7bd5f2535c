/** Where shown text ends up on the page, read off the content stream (sections
  * 9.3 and 9.4 of ISO 32000-1). */
module PageLaws {
  import opened Wrappers
  import opened PdfTokens
  import opened PdfInterp
  import PdfLaws

  // ---------- stretches of a stream ----------

  /** Between i and j the stream holds these tokens, besides blanks, comments and
    * delimiters that stand for nothing. */
  predicate Holds(data: seq<byte>, i: nat, tokens: seq<Token>, j: nat)
    requires i <= |data|
    decreases |data| - i
  {
    if i == |data| then j == i && tokens == []
    else if j == i && tokens == [] then true
    else
      var (token, next) := Lex(data, i);
      if token.Skip? then Holds(data, next, tokens, j)
      else 0 < |tokens| && token == tokens[0] && Holds(data, next, tokens[1..], j)
  }

  /** Operand stack and state behind some tokens. */
  function Behind(env: Env, tokens: seq<Token>, stack: seq<Operand>, s: State): (seq<Operand>, State)
    decreases |tokens|
  {
    if |tokens| == 0 then (stack, s)
    else
      var (stack', s') := Taken(env, tokens[0], stack, s);
      Behind(env, tokens[1..], stack', s')
  }

  lemma {:induction false} HeldIsInterpreted(env: Env, data: seq<byte>, i: nat, tokens: seq<Token>, j: nat,
                                             stack: seq<Operand>, s: State)
    requires i <= |data| && Holds(data, i, tokens, j)
    ensures j <= |data|
    ensures var (stack', s') := Behind(env, tokens, stack, s);
      Interpreted(env, data, i, stack, s) == Interpreted(env, data, j, stack', s')
    decreases |data| - i
  {
    if i < |data| && !(j == i && tokens == []) {
      var (token, next) := Lex(data, i);
      var (stack', s') := Taken(env, token, stack, s);
      HeldIsInterpreted(env, data, next, if token.Skip? then tokens else tokens[1..], j, stack', s');
    }
  }

  lemma {:induction false} BehindBoth(env: Env, a: seq<Token>, b: seq<Token>, stack: seq<Operand>, s: State)
    ensures var (stack', s') := Behind(env, a, stack, s); Behind(env, a + b, stack, s) == Behind(env, b, stack', s')
    decreases |a|
  {
    if |a| == 0 {
      assert a + b == b;
    } else {
      var (stack', s') := Taken(env, a[0], stack, s);
      assert (a + b)[1..] == a[1..] + b;
      BehindBoth(env, a[1..], b, stack', s');
    }
  }

  // ---------- words ----------

  predicate IsNumber(env: Env, word: seq<byte>, value: real) {
    env.isUtf8(word) && env.parseNum(word) == Some(value)
  }

  /** The words of the operators are text, and no numbers. */
  predicate KnowsWords(env: Env) {
    forall t :: t in {BEGIN, END, FONT, MATRIX, MOVE, MOVE_AND_LEAD, LEAD, NEXT, SHOW, SHOW_ARRAY} ==>
                  t.Word? && env.isUtf8(t.word) && env.parseNum(t.word).None?
  }

  const BEGIN: Token := Word([0x42, 0x54])
  const END: Token := Word([0x45, 0x54])
  const FONT: Token := Word([0x54, 0x66])
  const MATRIX: Token := Word([0x54, 0x6D])
  const MOVE: Token := Word([0x54, 0x64])
  const MOVE_AND_LEAD: Token := Word([0x54, 0x44])
  const LEAD: Token := Word([0x54, 0x4C])
  const NEXT: Token := Word([0x54, 0x2A])
  const SHOW: Token := Word([0x54, 0x6A])
  const SHOW_ARRAY: Token := Word([0x54, 0x4A])

  /** The operands of an operator: numbers, as written. */
  datatype Number = Number(word: seq<byte>, value: real)

  predicate AreNumbers(env: Env, ns: seq<Number>) {
    forall k :: 0 <= k < |ns| ==> IsNumber(env, ns[k].word, ns[k].value)
  }

  function Written(ns: seq<Number>): seq<Token> {
    seq(|ns|, k requires 0 <= k < |ns| => Word(ns[k].word))
  }

  function Values(ns: seq<Number>): seq<Operand> {
    seq(|ns|, k requires 0 <= k < |ns| => Num(ns[k].value))
  }

  lemma {:induction false} NumbersArePushed(env: Env, ns: seq<Number>, stack: seq<Operand>, s: State)
    requires AreNumbers(env, ns)
    ensures Behind(env, Written(ns), stack, s) == (stack + Values(ns), s)
    decreases |ns|
  {
    if |ns| > 0 {
      assert Written(ns)[1..] == Written(ns[1..]);
      NumbersArePushed(env, ns[1..], stack + [Num(ns[0].value)], s);
      assert stack + [Num(ns[0].value)] + Values(ns[1..]) == stack + Values(ns);
    } else {
      assert stack + Values(ns) == stack;
    }
  }

  /** Numbers and an operator behind them. */
  lemma OperatorWithNumbers(env: Env, ns: seq<Number>, op: Token, stack: seq<Operand>, s: State)
    requires AreNumbers(env, ns) && op.Word? && env.isUtf8(op.word) && env.parseNum(op.word).None?
    ensures Behind(env, Written(ns) + [op], stack, s)
         == ([], Applied(env, s, OperatorOf(op.word), stack + Values(ns)))
  {
    NumbersArePushed(env, ns, stack, s);
    BehindBoth(env, Written(ns), [op], stack, s);
    assert [op][1..] == [];
  }

  /** A string and the operator that shows it. */
  function Showing(str: seq<byte>): seq<Token> {
    [Push(Str(str)), SHOW]
  }

  /** One run was added, for these bytes under this font; nothing else was shown. */
  ghost predicate ShowsOne(env: Env, s: State, s': State, font: seq<byte>, str: seq<byte>) {
    && |s'.runs| == |s.runs| + 1 && s.runs == s'.runs[..|s.runs|]
    && s'.arena == s.arena + env.decode(if |font| > 0 then Some(font) else None, str)
    && NewRun(s').t0 == |s.arena| && NewRun(s').t1 == |s'.arena|
  }

  function NewRun(s: State): PosRun {
    if |s.runs| > 0 then s.runs[|s.runs| - 1] else PosRun(0.0, 0.0, 0.0, 0, 0, false)
  }

  lemma ShowingShows(env: Env, str: seq<byte>, t: State)
    requires KnowsWords(env) && t.text.inText
    ensures Behind(env, Showing(str), [], t) == ([], Emitted(env, t, str))
  {
    var tokens := Showing(str);
    assert tokens[1..] == [SHOW] && tokens[1..][1..] == [] && [] + [Str(str)] == [Str(str)];
    assert Taken(env, SHOW, [Str(str)], t) == ([], Emitted(env, t, str));
    assert Behind(env, [SHOW], [Str(str)], t) == Behind(env, [], [], Emitted(env, t, str));
  }

  lemma ShownAt(env: Env, tokens: seq<Token>, str: seq<byte>, stack: seq<Operand>, s: State, t: State)
    returns (s': State)
    requires KnowsWords(env) && Behind(env, tokens, stack, s) == ([], t) && t.text.inText
    requires t.runs == s.runs && t.arena == s.arena
    ensures Behind(env, tokens + Showing(str), stack, s) == ([], s')
    ensures ShowsOne(env, s, s', t.text.font, str) && s'.text == t.text.(pendingNl := false)
    ensures var run := NewRun(s');
      run.x == t.text.x && run.y == t.text.y && run.size == t.text.size && run.nl == t.text.pendingNl
  {
    BehindBoth(env, tokens, Showing(str), stack, s);
    s' := Emitted(env, t, str);
    ShowingShows(env, str, t);
  }

  // ---------- what each operator does to the text shown behind it ----------

  /** `a b c d e f Tm`: the text stands at (e, f), on a new line if one was pending or f
    * lies more than 0.3 sizes below the line before. */
  lemma MatrixPlaces(env: Env, ns: seq<Number>, str: seq<byte>, stack: seq<Operand>, s: State) returns (s': State)
    requires KnowsWords(env) && AreNumbers(env, ns) && |ns| == 6 && s.text.inText
    ensures Behind(env, Written(ns) + [MATRIX] + Showing(str), stack, s) == ([], s')
    ensures ShowsOne(env, s, s', s.text.font, str)
    ensures var run := NewRun(s');
      && run.x == ns[4].value && run.y == ns[5].value && run.size == s.text.size
      && (run.nl <==> s.text.pendingNl || ns[5].value < s.text.lastLineY - s.text.size * 0.3)
  {
    OperatorWithNumbers(env, ns, MATRIX, stack, s);
    var all := stack + Values(ns);
    assert all[|all| - 1] == Num(ns[5].value) && all[|all| - 2] == Num(ns[4].value);
    var t := Applied(env, s, Tm, all);
    s' := ShownAt(env, Written(ns) + [MATRIX], str, stack, s, t);
  }

  /** `/name size Tf`: the text is that large, and decoded under that font. */
  lemma FontSizes(env: Env, name: seq<byte>, size: Number, str: seq<byte>, stack: seq<Operand>, s: State)
    returns (s': State)
    requires KnowsWords(env) && IsNumber(env, size.word, size.value) && s.text.inText
    ensures Behind(env, [Push(Name(name))] + (Written([size]) + [FONT]) + Showing(str), stack, s) == ([], s')
    ensures ShowsOne(env, s, s', name, str)
    ensures var run := NewRun(s');
      run.size == size.value && run.x == s.text.x && run.y == s.text.y && run.nl == s.text.pendingNl
  {
    var named := stack + [Name(name)];
    BehindBoth(env, [Push(Name(name))], Written([size]) + [FONT], stack, s);
    assert [Push(Name(name))][1..] == [];
    OperatorWithNumbers(env, [size], FONT, named, s);
    var all := named + Values([size]);
    assert all[|all| - 1] == Num(size.value) && all[|all| - 2] == Name(name);
    var t := Applied(env, s, Tf, all);
    s' := ShownAt(env, [Push(Name(name))] + (Written([size]) + [FONT]), str, stack, s, t);
  }

  /** `tx ty Td`: the text stands that far from the start of the line before, which
    * becomes the start of this one. */
  lemma MoveMoves(env: Env, tx: Number, ty: Number, str: seq<byte>, stack: seq<Operand>, s: State) returns (s': State)
    requires KnowsWords(env) && AreNumbers(env, [tx, ty]) && s.text.inText
    ensures Behind(env, Written([tx, ty]) + [MOVE] + Showing(str), stack, s) == ([], s')
    ensures ShowsOne(env, s, s', s.text.font, str)
    ensures var run := NewRun(s');
      && run.x == s.text.lineX + tx.value && run.y == s.text.y + ty.value && run.size == s.text.size
      && s'.text.lineX == run.x && s'.text.y == run.y && s'.text.inText
      && (run.nl <==> s.text.pendingNl || ty.value < -s.text.size * 0.3)
  {
    var ns := [tx, ty];
    OperatorWithNumbers(env, ns, MOVE, stack, s);
    var all := stack + Values(ns);
    assert all[|all| - 1] == Num(ty.value) && all[|all| - 2] == Num(tx.value);
    var t := Applied(env, s, Td, all);
    s' := ShownAt(env, Written(ns) + [MOVE], str, stack, s, t);
  }

  /** Moves add up: each starts from the line start the one before it left, wherever
    * the text between them was shown. */
  lemma MovesAddUp(env: Env, a: Number, b: Number, str: seq<byte>, c: Number, d: Number, str': seq<byte>,
                   stack: seq<Operand>, s: State) returns (s'': State)
    requires KnowsWords(env) && AreNumbers(env, [a, b]) && AreNumbers(env, [c, d]) && s.text.inText
    ensures Behind(env, Written([a, b]) + [MOVE] + Showing(str) + (Written([c, d]) + [MOVE] + Showing(str')), stack, s)
         == ([], s'')
    ensures |s''.runs| == |s.runs| + 2
    ensures NewRun(s'').x == s.text.lineX + a.value + c.value && NewRun(s'').y == s.text.y + b.value + d.value
  {
    var s' := MoveMoves(env, a, b, str, stack, s);
    s'' := MoveMoves(env, c, d, str', [], s');
    BehindBoth(env, Written([a, b]) + [MOVE] + Showing(str), Written([c, d]) + [MOVE] + Showing(str'), stack, s);
  }

  /** `ET`, then `BT`: the text starts a new line, at the origin. */
  lemma EndBreaks(env: Env, str: seq<byte>, stack: seq<Operand>, s: State) returns (s': State)
    requires KnowsWords(env)
    ensures Behind(env, [END] + [BEGIN] + Showing(str), stack, s) == ([], s')
    ensures ShowsOne(env, s, s', s.text.font, str)
    ensures var run := NewRun(s'); run.nl && run.x == 0.0 && run.y == 0.0 && run.size == s.text.size
  {
    var ended := Applied(env, s, ET, stack);
    BehindBoth(env, [END], [BEGIN], stack, s);
    assert [END][1..] == [] && [BEGIN][1..] == [];
    assert Behind(env, [END], stack, s) == ([], ended);
    var t := Applied(env, ended, BT, []);
    assert Behind(env, [BEGIN], [], ended) == ([], t);
    s' := ShownAt(env, [END] + [BEGIN], str, stack, s, t);
  }

  /** `BT` alone: at the origin, on a new line only if one was pending. */
  lemma BeginStarts(env: Env, str: seq<byte>, stack: seq<Operand>, s: State) returns (s': State)
    requires KnowsWords(env)
    ensures Behind(env, [BEGIN] + Showing(str), stack, s) == ([], s')
    ensures ShowsOne(env, s, s', s.text.font, str)
    ensures var run := NewRun(s');
      run.x == 0.0 && run.y == 0.0 && run.size == s.text.size && run.nl == s.text.pendingNl
  {
    assert [BEGIN][1..] == [];
    var t := Applied(env, s, BT, stack);
    s' := ShownAt(env, [BEGIN], str, stack, s, t);
  }

  /** `l TL`, then `T*`: the text starts a new line, l below, at the line start. */
  lemma LeadLeads(env: Env, l: Number, str: seq<byte>, stack: seq<Operand>, s: State) returns (s': State)
    requires KnowsWords(env) && AreNumbers(env, [l]) && s.text.inText
    ensures Behind(env, Written([l]) + [LEAD] + [NEXT] + Showing(str), stack, s) == ([], s')
    ensures ShowsOne(env, s, s', s.text.font, str)
    ensures var run := NewRun(s');
      run.nl && run.x == s.text.lineX && run.y == s.text.y - l.value && run.size == s.text.size
  {
    OperatorWithNumbers(env, [l], LEAD, stack, s);
    var all := stack + Values([l]);
    assert all[|all| - 1] == Num(l.value);
    var led := Applied(env, s, TL, all);
    NextShown(env, Written([l]) + [LEAD], stack, s, led);
    var t := Applied(env, led, TStar, []);
    s' := ShownAt(env, Written([l]) + [LEAD] + [NEXT], str, stack, s, t);
  }

  lemma NextShown(env: Env, tokens: seq<Token>, stack: seq<Operand>, s: State, t: State)
    requires KnowsWords(env) && Behind(env, tokens, stack, s) == ([], t)
    ensures Behind(env, tokens + [NEXT], stack, s) == ([], Applied(env, t, TStar, []))
  {
    BehindBoth(env, tokens, [NEXT], stack, s);
    assert [NEXT][1..] == [];
  }

  /** `tx ty TD`, then `T*`: the leading is the drop, so the line after lies as far
    * below again. */
  lemma MoveAndLeadRepeats(env: Env, tx: Number, ty: Number, str: seq<byte>, stack: seq<Operand>, s: State)
    returns (s': State)
    requires KnowsWords(env) && AreNumbers(env, [tx, ty]) && s.text.inText
    ensures Behind(env, Written([tx, ty]) + [MOVE_AND_LEAD] + [NEXT] + Showing(str), stack, s) == ([], s')
    ensures ShowsOne(env, s, s', s.text.font, str)
    ensures var run := NewRun(s');
      run.nl && run.x == s.text.lineX + tx.value && run.y == s.text.y + ty.value + ty.value && run.size == s.text.size
  {
    var ns := [tx, ty];
    OperatorWithNumbers(env, ns, MOVE_AND_LEAD, stack, s);
    var all := stack + Values(ns);
    assert all[|all| - 1] == Num(ty.value) && all[|all| - 2] == Num(tx.value);
    var moved := Applied(env, s, TD, all);
    NextShown(env, Written(ns) + [MOVE_AND_LEAD], stack, s, moved);
    var t := Applied(env, moved, TStar, []);
    s' := ShownAt(env, Written(ns) + [MOVE_AND_LEAD] + [NEXT], str, stack, s, t);
  }

  /** Strings, each with a number behind it, as in the array of a `TJ`. */
  function Kerned(strs: seq<seq<byte>>, ns: seq<Number>): seq<Token>
    requires |strs| == |ns|
  {
    if |strs| == 0 then [] else [Push(Str(strs[0])), Word(ns[0].word)] + Kerned(strs[1..], ns[1..])
  }

  function Joined(strs: seq<seq<byte>>): seq<byte> {
    if |strs| == 0 then [] else strs[0] + Joined(strs[1..])
  }

  /** What such an array leaves on the stack: its strings, in order, among numbers. */
  lemma {:induction false} KernedIsPushed(env: Env, strs: seq<seq<byte>>, ns: seq<Number>, stack: seq<Operand>,
                                          s: State)
    returns (ops: seq<Operand>)
    requires |strs| == |ns| && AreNumbers(env, ns)
    ensures Behind(env, Kerned(strs, ns), stack, s) == (stack + ops, s) && StringsOf(ops) == Joined(strs)
    ensures ArrayStart !in ops
    decreases |strs|
  {
    if |strs| == 0 {
      ops := [];
      assert stack + ops == stack;
    } else {
      var pair: seq<Operand> := [Str(strs[0]), Num(ns[0].value)];
      var rest := KernedIsPushed(env, strs[1..], ns[1..], stack + pair, s);
      ops := pair + rest;
      PairIsPushed(env, strs[0], ns[0], stack, s);
      BehindBoth(env, [Push(Str(strs[0])), Word(ns[0].word)], Kerned(strs[1..], ns[1..]), stack, s);
      assert stack + ops == stack + pair + rest;
      PairJoins(strs[0], ns[0].value, rest);
    }
  }

  lemma PairIsPushed(env: Env, str: seq<byte>, n: Number, stack: seq<Operand>, s: State)
    requires IsNumber(env, n.word, n.value)
    ensures Behind(env, [Push(Str(str)), Word(n.word)], stack, s) == (stack + [Str(str), Num(n.value)], s)
  {
    var tokens := [Push(Str(str)), Word(n.word)];
    assert tokens[1..] == [Word(n.word)] && tokens[1..][1..] == [];
    assert Taken(env, tokens[0], stack, s) == (stack + [Str(str)], s);
    NumbersArePushed(env, [n], stack + [Str(str)], s);
    assert Written([n]) == [Word(n.word)];
    assert stack + [Str(str)] + Values([n]) == stack + [Str(str), Num(n.value)];
  }

  lemma PairJoins(str: seq<byte>, n: real, rest: seq<Operand>)
    ensures StringsOf([Str(str), Num(n)] + rest) == str + StringsOf(rest)
  {
    var all := [Str(str), Num(n)] + rest;
    assert all[1..] == [Num(n)] + rest && all[1..][1..] == rest;
    assert str + ([] + StringsOf(rest)) == str + StringsOf(rest);
  }

  /** `[(a) n (b) m ...] TJ` shows the strings joined in order, as one run; the numbers
    * between them move nothing. */
  lemma ArrayShows(env: Env, strs: seq<seq<byte>>, ns: seq<Number>, stack: seq<Operand>, s: State) returns (s': State)
    requires KnowsWords(env) && |strs| == |ns| && AreNumbers(env, ns) && s.text.inText
    ensures Behind(env, [Push(ArrayStart)] + Kerned(strs, ns) + [Close, SHOW_ARRAY], stack, s) == ([], s')
    ensures ShowsOne(env, s, s', s.text.font, Joined(strs))
    ensures var run := NewRun(s');
      run.x == s.text.x && run.y == s.text.y && run.size == s.text.size && run.nl == s.text.pendingNl
  {
    var open := stack + [ArrayStart];
    var ops := KernedIsPushed(env, strs, ns, open, s);
    s' := Emitted(env, s, Joined(strs));
    assert Behind(env, [Push(ArrayStart)], stack, s) == (open, s) by {
      assert [Push(ArrayStart)][1..] == [];
    }
    BehindBoth(env, [Push(ArrayStart)], Kerned(strs, ns), stack, s);
    BehindBoth(env, [Push(ArrayStart)] + Kerned(strs, ns), [Close, SHOW_ARRAY], stack, s);
    PdfLaws.CloseJoins(env, stack, ops, s);
    ShownFromArray(env, Joined(strs), open + ops, stack, s);
  }

  lemma ShownFromArray(env: Env, str: seq<byte>, full: seq<Operand>, stack: seq<Operand>, s: State)
    requires KnowsWords(env) && s.text.inText && Taken(env, Close, full, s) == (stack + [Str(str)], s)
    ensures Behind(env, [Close, SHOW_ARRAY], full, s) == ([], Emitted(env, s, str))
  {
    var tokens := [Close, SHOW_ARRAY];
    assert tokens[1..] == [SHOW_ARRAY] && tokens[1..][1..] == [];
    assert Taken(env, SHOW_ARRAY, stack + [Str(str)], s) == ([], Emitted(env, s, str));
    assert Behind(env, [SHOW_ARRAY], stack + [Str(str)], s) == Behind(env, [], [], Emitted(env, s, str));
  }

  /** An operator with fewer operands than it takes does nothing. */
  lemma TooFewOperands(env: Env, ns: seq<Number>, op: Token, s: State)
    requires KnowsWords(env) && AreNumbers(env, ns)
    requires (op == MATRIX && |ns| < 6) || (op in {FONT, MOVE, MOVE_AND_LEAD} && |ns| < 2) || (op == LEAD && |ns| == 0)
    ensures Behind(env, Written(ns) + [op], [], s) == ([], s)
  {
    OperatorWithNumbers(env, ns, op, [], s);
    assert [] + Values(ns) == Values(ns);
  }

  // ---------- writing tokens ----------

  const BLANK: byte := 0x20

  /** A token as bytes; strings in the escaped form. */
  function Spelled(t: Token): seq<byte> {
    match t
    case Skip => []
    case Push(Str(bytes)) => [0x28] + (EscapedForm(bytes) + [0x29])
    case Push(Name(name)) => [0x2F] + name
    case Push(Num(_)) => []
    case Push(ArrayStart) => [0x5B]
    case Close => [0x5D]
    case Word(word) => word
  }

  /** Words and names are made of regular characters; numbers are words until they are read. */
  predicate CanBeSpelled(t: Token) {
    match t
    case Skip => false
    case Push(Name(name)) => forall k :: 0 <= k < |name| ==> IsRegular(name[k])
    case Push(Num(_)) => false
    case Push(_) => true
    case Close => true
    case Word(word) => 0 < |word| && forall k :: 0 <= k < |word| ==> IsRegular(word[k])
  }

  lemma {:induction false} RegularRun(data: seq<byte>, i: nat, word: seq<byte>)
    requires At(data, i, word + [BLANK]) && forall k :: 0 <= k < |word| ==> IsRegular(word[k])
    ensures RegularEnd(data, i) == i + |word|
    decreases |word|
  {
    AtByte(data, i, word + [BLANK], 0);
    if 0 < |word| {
      assert word + [BLANK] == [word[0]] + (word[1..] + [BLANK]);
      AtSplit(data, i, [word[0]], word[1..] + [BLANK]);
      RegularRun(data, i + 1, word[1..]);
    }
  }

  /** The token at i is t, in the bytes that spell it. */
  predicate LexesTo(data: seq<byte>, i: nat, t: Token) {
    i < |data| && Lex(data, i) == (t, i + |Spelled(t)|)
  }

  lemma LiteralIsTaken(data: seq<byte>, i: nat)
    requires i < |data| && data[i] == OPEN
    ensures var (str, next) := LiteralFrom(data, i + 1, 1); Lex(data, i) == (Push(Str(str)), next)
  {
  }

  lemma NameIsTaken(data: seq<byte>, i: nat)
    requires i < |data| && data[i] == 0x2F
    ensures var j := RegularEnd(data, i + 1); Lex(data, i) == (Push(Name(data[i + 1..j])), j)
  {
  }

  lemma OpenedBytes(data: seq<byte>, i: nat, body: seq<byte>)
    requires At(data, i, [OPEN] + body + [BLANK])
    ensures i < |data| && data[i] == OPEN && At(data, i + 1, body)
  {
    AtSplit(data, i, [OPEN] + body, [BLANK]);
    AtSplit(data, i, [OPEN], body);
    AtByte(data, i, [OPEN], 0);
  }

  lemma StringLexes(data: seq<byte>, i: nat, bytes: seq<byte>)
    requires At(data, i, Spelled(Push(Str(bytes))) + [BLANK])
    ensures LexesTo(data, i, Push(Str(bytes)))
  {
    OpenedBytes(data, i, EscapedForm(bytes) + [CLOSE]);
    EscapedReads(data, i + 1, bytes);
    LiteralIsTaken(data, i);
  }

  lemma NameBytes(data: seq<byte>, i: nat, name: seq<byte>)
    requires At(data, i, Spelled(Push(Name(name))) + [BLANK]) && forall k :: 0 <= k < |name| ==> IsRegular(name[k])
    ensures var j := RegularEnd(data, i + 1);
      i + 1 <= j == i + 1 + |name| && data[i] == 0x2F && data[i + 1..j] == name
  {
    assert [0x2F] + name + [BLANK] == [0x2F] + (name + [BLANK]);
    AtByte(data, i, [0x2F] + name + [BLANK], 0);
    AtSplit(data, i, [0x2F], name + [BLANK]);
    RegularRun(data, i + 1, name);
    AtSplit(data, i + 1, name, [BLANK]);
  }

  lemma NameLexes(data: seq<byte>, i: nat, name: seq<byte>)
    requires At(data, i, Spelled(Push(Name(name))) + [BLANK]) && forall k :: 0 <= k < |name| ==> IsRegular(name[k])
    ensures LexesTo(data, i, Push(Name(name)))
  {
    NameBytes(data, i, name);
    NameIsTaken(data, i);
  }

  lemma WordLexes(data: seq<byte>, i: nat, word: seq<byte>)
    requires At(data, i, word + [BLANK]) && 0 < |word| && forall k :: 0 <= k < |word| ==> IsRegular(word[k])
    ensures LexesTo(data, i, Word(word))
  {
    AtByte(data, i, word + [BLANK], 0);
    RegularRun(data, i, word);
    AtSplit(data, i, word, [BLANK]);
  }

  lemma BracketLexes(data: seq<byte>, i: nat, t: Token)
    requires t in {Push(ArrayStart), Close} && At(data, i, Spelled(t) + [BLANK])
    ensures LexesTo(data, i, t)
  {
    AtByte(data, i, Spelled(t) + [BLANK], 0);
  }

  /** A written token reads back as itself, wherever it stands in front of a blank. */
  lemma SpelledLexes(data: seq<byte>, i: nat, t: Token)
    requires CanBeSpelled(t) && At(data, i, Spelled(t) + [BLANK])
    ensures LexesTo(data, i, t)
  {
    match t
    case Push(Str(bytes)) => StringLexes(data, i, bytes);
    case Push(Name(name)) => NameLexes(data, i, name);
    case Push(ArrayStart) => BracketLexes(data, i, t);
    case Close => BracketLexes(data, i, t);
    case Word(word) => WordLexes(data, i, word);
  }

  /** A comment stands for nothing, up to the end of its line. */
  lemma {:induction false} CommentIsSkipped(data: seq<byte>, i: nat, text: seq<byte>, eol: byte)
    requires At(data, i, [0x25] + text + [eol]) && eol in {0x0A, 0x0D} && 0x0A !in text && 0x0D !in text
    ensures Lex(data, i) == (Skip, i + |text| + 2)
  {
    assert [0x25] + text + [eol] == [0x25] + (text + [eol]);
    AtSplit(data, i, [0x25], text + [eol]);
    AtByte(data, i, [0x25], 0);
    CommentRuns(data, i + 1, text, eol);
  }

  lemma {:induction false} CommentRuns(data: seq<byte>, i: nat, text: seq<byte>, eol: byte)
    requires At(data, i, text + [eol]) && eol in {0x0A, 0x0D} && 0x0A !in text && 0x0D !in text
    ensures CommentEnd(data, i) == i + |text| + 1
    decreases |text|
  {
    AtByte(data, i, text + [eol], 0);
    if 0 < |text| {
      assert text + [eol] == [text[0]] + (text[1..] + [eol]);
      AtSplit(data, i, [text[0]], text[1..] + [eol]);
      CommentRuns(data, i + 1, text[1..], eol);
    }
  }

  // ---------- on the stream itself ----------

  /** Inside a text object, six numbers, `Tm`, a string and `Tj` on the stream, however
    * they are spaced: one run with the string at the last two of the numbers. */
  lemma MatrixOnStream(env: Env, data: seq<byte>, i: nat, j: nat, ns: seq<Number>, str: seq<byte>, stack: seq<Operand>,
                       s: State) returns (s': State)
    requires KnowsWords(env) && AreNumbers(env, ns) && |ns| == 6 && s.text.inText && i <= |data|
    requires Holds(data, i, Written(ns) + [MATRIX] + Showing(str), j)
    ensures j <= |data| && Interpreted(env, data, i, stack, s) == Interpreted(env, data, j, [], s')
    ensures ShowsOne(env, s, s', s.text.font, str)
    ensures var run := NewRun(s');
      && run.x == ns[4].value && run.y == ns[5].value && run.size == s.text.size
      && (run.nl <==> s.text.pendingNl || ns[5].value < s.text.lastLineY - s.text.size * 0.3)
  {
    s' := MatrixPlaces(env, ns, str, stack, s);
    HeldIsInterpreted(env, data, i, Written(ns) + [MATRIX] + Showing(str), j, stack, s);
  }
}
