/** The text interpreter of one page's content stream. */
module PdfInterp {
  import opened Wrappers
  import opened PdfTokens

  datatype Operand = Str(bytes: seq<byte>) | Name(name: seq<byte>) | Num(value: real) | ArrayStart

  /** The glyphs shown at one position: bytes t0..t1 of the page's arena. */
  datatype PosRun = PosRun(x: real, y: real, size: real, t0: nat, t1: nat, nl: bool)

  /** What the interpreter calls and this model does not see into. The decoder
    * gets the font name, if one is set, and the shown bytes, and appends. */
  datatype Env = Env(isUtf8: seq<byte> -> bool, parseNum: seq<byte> -> Option<real>,
                     decode: (Option<seq<byte>>, seq<byte>) -> seq<byte>)

  datatype Operator = BT | ET | Tf | Tm | Td | TD | TL | TStar | Show | Quote | DoubleQuote | Ignored

  function OperatorOf(word: seq<byte>): Operator {
    if word == [0x42, 0x54] then BT
    else if word == [0x45, 0x54] then ET
    else if word == [0x54, 0x66] then Tf
    else if word == [0x54, 0x6D] then Tm
    else if word == [0x54, 0x64] then Td
    else if word == [0x54, 0x44] then TD
    else if word == [0x54, 0x4C] then TL
    else if word == [0x54, 0x2A] then TStar
    else if word == [0x54, 0x6A] || word == [0x54, 0x4A] then Show
    else if word == [0x27] then Quote
    else if word == [0x22] then DoubleQuote
    else Ignored
  }

  // ---------- the text state ----------

  datatype Text = Text(size: real, y: real, lastLineY: real, lead: real, inText: bool,
                       x: real, lineX: real, font: seq<byte>, pendingNl: bool)

  datatype State = State(text: Text, runs: seq<PosRun>, arena: seq<byte>)

  const INITIAL := State(Text(0.0, 0.0, 0.0, 0.0, false, 0.0, 0.0, [], false), [], [])

  /** The k-th operand from the top of the stack, if it is a number. */
  function NumAt(stack: seq<Operand>, k: nat): Option<real> {
    if k < |stack| && stack[|stack| - 1 - k].Num? then Some(stack[|stack| - 1 - k].value) else None
  }

  function FontOf(font: seq<byte>): Option<seq<byte>> {
    if |font| > 0 then Some(font) else None
  }

  function Emitted(env: Env, s: State, bytes: seq<byte>): State {
    var arena := s.arena + env.decode(FontOf(s.text.font), bytes);
    var t := s.text;
    State(t.(pendingNl := false), s.runs + [PosRun(t.x, t.y, t.size, |s.arena|, |arena|, t.pendingNl)], arena)
  }

  /** Shows the operand on top of the stack, if it is a string. */
  function Shown(env: Env, s: State, stack: seq<Operand>): State {
    if |stack| > 0 && stack[|stack| - 1].Str? then Emitted(env, s, stack[|stack| - 1].bytes) else s
  }

  /** A move of the line start by (tx, ty); a drop of more than 0.3 font sizes breaks the line. */
  function Moved(t: Text, tx: real, ty: real): Text {
    t.(pendingNl := t.pendingNl || (t.inText && ty < -t.size * 0.3),
    lineX := t.lineX + tx, x := t.lineX + tx, y := t.y + ty, lastLineY := t.y + ty)
  }

  function Positioned(t: Text, e: real, f: real): Text {
    t.(pendingNl := t.pendingNl || (t.inText && f < t.lastLineY - t.size * 0.3),
    x := e, lineX := e, y := f, lastLineY := f)
  }

  function LineDown(t: Text): Text {
    t.(pendingNl := true, y := t.y - t.lead, lastLineY := t.y - t.lead)
  }

  function FontSet(t: Text, stack: seq<Operand>): Text
    requires |stack| >= 2
  {
    var sized := if NumAt(stack, 0).Some? then t.(size := NumAt(stack, 0).value) else t;
    if stack[|stack| - 2].Name? then sized.(font := stack[|stack| - 2].name) else sized
  }

  /** The state after one operator. */
  function Applied(env: Env, s: State, op: Operator, stack: seq<Operand>): State {
    var t := s.text;
    var n := |stack|;
    var a, b := NumAt(stack, 1), NumAt(stack, 0);
    match op
    case BT => s.(text := t.(inText := true, y := 0.0, lastLineY := 0.0, x := 0.0, lineX := 0.0))
    case ET => s.(text := t.(inText := false, pendingNl := true))
    case Tf => if n >= 2 then s.(text := FontSet(t, stack)) else s
    case Tm => if n >= 6 && a.Some? && b.Some? then s.(text := Positioned(t, a.value, b.value)) else s
    case Td => if a.Some? && b.Some? then s.(text := Moved(t, a.value, b.value)) else s
    case TD => if a.Some? && b.Some? then s.(text := Moved(t.(lead := -b.value), a.value, b.value)) else s
    case TL => if b.Some? then s.(text := t.(lead := b.value)) else s
    case TStar => if t.inText then s.(text := LineDown(t).(x := t.lineX)) else s
    case Show => if t.inText then Shown(env, s, stack) else s
    case Quote => if n >= 1 && t.inText then Shown(env, s.(text := LineDown(t)), stack) else s
    case DoubleQuote => if n >= 3 && t.inText then Shown(env, s.(text := LineDown(t)), stack) else s
    case Ignored => s
  }

  class Interp {
    var runs: seq<PosRun>
    var arena: seq<byte>
    var size: real
    var y: real
    var lastLineY: real
    var lead: real
    var inText: bool
    var x: real
    var lineX: real
    var font: seq<byte>
    var pendingNl: bool

    ghost function TextState(): Text
      reads this
    {
      Text(size, y, lastLineY, lead, inText, x, lineX, font, pendingNl)
    }

    ghost function Whole(): State
      reads this
    {
      State(TextState(), runs, arena)
    }

    constructor ()
      ensures Whole() == INITIAL
    {
      runs, arena, font := [], [], [];
      size, y, lastLineY, lead, x, lineX := 0.0, 0.0, 0.0, 0.0, 0.0, 0.0;
      inText, pendingNl := false, false;
    }

    method Emit(env: Env, bytes: seq<byte>)
      modifies this
      ensures Whole() == Emitted(env, old(Whole()), bytes)
    {
      var t0 := |arena|;
      arena := arena + env.decode(FontOf(font), bytes);
      runs := runs + [PosRun(x, y, size, t0, |arena|, pendingNl)];
      pendingNl := false;
    }

    /** `Td`, and the part `TD` shares with it. */
    method MoveBy(tx: real, ty: real)
      modifies this
      ensures Whole() == old(Whole()).(text := Moved(old(TextState()), tx, ty))
    {
      if inText && ty < -size * 0.3 {
        pendingNl := true;
      }
      lineX := lineX + tx;
      x := lineX;
      y := y + ty;
      lastLineY := y;
    }

    method MoveTo(e: real, f: real)
      modifies this
      ensures Whole() == old(Whole()).(text := Positioned(old(TextState()), e, f))
    {
      if inText && f < lastLineY - size * 0.3 {
        pendingNl := true;
      }
      x, lineX, y, lastLineY := e, e, f, f;
    }

    method NextLine()
      modifies this
      ensures Whole() == old(Whole()).(text := LineDown(old(TextState())))
    {
      pendingNl := true;
      y := y - lead;
      lastLineY := y;
    }

    method ShowTop(env: Env, stack: seq<Operand>)
      modifies this
      ensures Whole() == Shown(env, old(Whole()), stack)
    {
      if |stack| > 0 && stack[|stack| - 1].Str? {
        Emit(env, stack[|stack| - 1].bytes);
      }
    }

    method Op(env: Env, op: Operator, stack: seq<Operand>)
      modifies this
      ensures Whole() == Applied(env, old(Whole()), op, stack)
    {
      var n := |stack|;
      var a, b := NumAt(stack, 1), NumAt(stack, 0);
      match op {
        case BT =>
          inText, y, lastLineY, x, lineX := true, 0.0, 0.0, 0.0, 0.0;
        case ET =>
          inText, pendingNl := false, true;
        case Tf =>
          if n >= 2 {
            if b.Some? {
              size := b.value;
            }
            if stack[n - 2].Name? {
              font := stack[n - 2].name;
            }
          }
        case Tm =>
          if n >= 6 && a.Some? && b.Some? {
            MoveTo(a.value, b.value);
          }
        case Td =>
          if n >= 2 && a.Some? && b.Some? {
            MoveBy(a.value, b.value);
          }
        case TD =>
          if n >= 2 && a.Some? && b.Some? {
            lead := -b.value;
            MoveBy(a.value, b.value);
          }
        case TL =>
          if n >= 1 && b.Some? {
            lead := b.value;
          }
        case TStar =>
          if inText {
            NextLine();
            x := lineX;
          }
        case Show =>
          if n >= 1 && inText {
            ShowTop(env, stack);
          }
        case Quote =>
          if n >= 1 && inText {
            NextLine();
            ShowTop(env, stack);
          }
        case DoubleQuote =>
          if n >= 3 && inText {
            NextLine();
            ShowTop(env, stack);
          }
        case Ignored =>
      }
    }
  }

  // ---------- tokens ----------

  datatype Token = Skip | Push(operand: Operand) | Close | Word(word: seq<byte>)

  /** The end of the run of regular characters that starts at i. */
  function RegularEnd(data: seq<byte>, i: nat): (j: nat)
    requires i <= |data|
    ensures i <= j <= |data| && (j < |data| ==> !IsRegular(data[j]))
    ensures forall k :: i <= k < j ==> IsRegular(data[k])
    decreases |data| - i
  {
    if i < |data| && IsRegular(data[i]) then RegularEnd(data, i + 1) else i
  }

  /** Just behind the end of line that closes the comment at i. */
  function CommentEnd(data: seq<byte>, i: nat): (j: nat)
    requires i <= |data|
    ensures i <= j <= |data| && (i < |data| ==> i < j)
    decreases |data| - i
  {
    if i == |data| then i
    else if data[i] in {LF, CR} then i + 1
    else CommentEnd(data, i + 1)
  }

  /** The token at i and the index behind it, which is always further on. */
  function Lex(data: seq<byte>, i: nat): (r: (Token, nat))
    requires i < |data|
    ensures i < r.1 <= |data|
  {
    var b := data[i];
    if IsWs(b) then (Skip, i + 1)
    else if b == 0x25 then (Skip, CommentEnd(data, i))
    else if b == OPEN then
      var (s, next) := LiteralFrom(data, i + 1, 1);
      (Push(Str(s)), next)
    else if b == LESS then
      if i + 1 < |data| && data[i + 1] == LESS then (Skip, i + 2)
      else
        var (s, next) := HexFrom(data, i + 1, None);
        (Push(Str(s)), next)
    else if b == GREATER && i + 1 < |data| && data[i + 1] == GREATER then (Skip, i + 2)
    else if b == 0x5B then (Push(ArrayStart), i + 1)
    else if b == 0x5D then (Close, i + 1)
    else if b == 0x2F then
      var j := RegularEnd(data, i + 1);
      (Push(Name(data[i + 1..j])), j)
    else if IsRegular(b) then
      var j := RegularEnd(data, i + 1);
      (Word(data[i..j]), j)
    else (Skip, i + 1)
  }

  /** The string bytes among operands, in order; all other operands drop out. */
  function StringsOf(ops: seq<Operand>): seq<byte> {
    if |ops| == 0 then []
    else (if ops[0].Str? then ops[0].bytes else []) + StringsOf(ops[1..])
  }

  /** The index of the last `[` on the stack. */
  function LastStart(stack: seq<Operand>): (k: Option<nat>)
    ensures k.Some? ==> k.value < |stack| && stack[k.value] == ArrayStart && ArrayStart !in stack[k.value + 1..]
    ensures k.None? ==> ArrayStart !in stack
  {
    if |stack| == 0 then None
    else if stack[|stack| - 1] == ArrayStart then Some(|stack| - 1)
    else
      var k := LastStart(stack[..|stack| - 1]);
      assert k.Some? ==> stack[k.value + 1..] == stack[..|stack| - 1][k.value + 1..] + [stack[|stack| - 1]];
      k
  }

  /** `]` replaces everything since the last `[`, or the whole stack, by one string. */
  function Collapsed(stack: seq<Operand>): seq<Operand> {
    match LastStart(stack)
    case None => [Str(StringsOf(stack))]
    case Some(k) => stack[..k] + [Str(StringsOf(stack[k + 1..]))]
  }

  /** The operand stack and the text state after one token. */
  function Taken(env: Env, token: Token, stack: seq<Operand>, s: State): (seq<Operand>, State) {
    match token
    case Skip => (stack, s)
    case Push(operand) => (stack + [operand], s)
    case Close => (Collapsed(stack), s)
    case Word(word) =>
      if !env.isUtf8(word) then ([], s)
      else if env.parseNum(word).Some? then (stack + [Num(env.parseNum(word).value)], s)
      else ([], Applied(env, s, OperatorOf(word), stack))
  }

  /** The state after the rest of the stream. */
  function Interpreted(env: Env, data: seq<byte>, i: nat, stack: seq<Operand>, s: State): State
    requires i <= |data|
    decreases |data| - i
  {
    if i == |data| then s
    else
      var (token, next) := Lex(data, i);
      var (stack', s') := Taken(env, token, stack, s);
      Interpreted(env, data, next, stack', s')
  }

  // ---------- the loop ----------

  method ScanRegular(data: seq<byte>, start: nat) returns (j: nat)
    requires start <= |data|
    ensures j == RegularEnd(data, start)
  {
    j := start;
    while j < |data| && IsRegular(data[j])
      invariant start <= j <= |data| && RegularEnd(data, j) == RegularEnd(data, start)
    {
      j := j + 1;
    }
  }

  method ScanComment(data: seq<byte>, start: nat) returns (i: nat)
    requires start <= |data|
    ensures i == CommentEnd(data, start)
  {
    i := start;
    while i < |data|
      invariant start <= i <= |data| && CommentEnd(data, i) == CommentEnd(data, start)
    {
      i := i + 1;
      if data[i - 1] in {LF, CR} {
        return;
      }
    }
  }

  /** The last of `parts` first. */
  function JoinedBack(parts: seq<seq<byte>>): seq<byte> {
    if |parts| == 0 then [] else parts[|parts| - 1] + JoinedBack(parts[..|parts| - 1])
  }

  lemma {:induction false} JoinedBackPush(parts: seq<seq<byte>>, p: seq<byte>)
    ensures JoinedBack(parts + [p]) == p + JoinedBack(parts)
  {
    assert (parts + [p])[..|parts|] == parts;
  }

  lemma {:induction false} StringsOfSplit(a: seq<Operand>, b: seq<Operand>)
    ensures StringsOf(a + b) == StringsOf(a) + StringsOf(b)
  {
    if |a| == 0 {
      assert a + b == b;
    } else {
      assert (a + b)[1..] == a[1..] + b;
      StringsOfSplit(a[1..], b);
    }
  }

  lemma StringsOfOne(op: Operand)
    ensures StringsOf([op]) == if op.Str? then op.bytes else []
  {
    assert [op][1..] == [];
  }

  /** Where the strings that `]` joins start. */
  function JoinStart(stack: seq<Operand>): (from: nat)
    ensures from <= |stack|
  {
    if LastStart(stack).Some? then LastStart(stack).value + 1 else 0
  }

  /** What stays below the joined string. */
  function Kept(stack: seq<Operand>): seq<Operand> {
    if LastStart(stack).Some? then stack[..LastStart(stack).value] else []
  }

  /** `Collapsed` with strings already taken off the top. */
  function CollapsedOnto(stack: seq<Operand>, taken: seq<byte>): seq<Operand> {
    Kept(stack) + [Str(StringsOf(stack[JoinStart(stack)..]) + taken)]
  }

  lemma CollapsedOntoNothing(stack: seq<Operand>)
    ensures CollapsedOnto(stack, []) == Collapsed(stack)
  {
    assert stack[0..] == stack;
    assert StringsOf(stack[JoinStart(stack)..]) + [] == StringsOf(stack[JoinStart(stack)..]);
  }

  lemma {:induction false} TakenOff(ops: seq<Operand>, op: Operand, taken: seq<byte>)
    ensures StringsOf(ops + [op]) + taken == StringsOf(ops) + if op.Str? then op.bytes + taken else taken
  {
    StringsOfSplit(ops, [op]);
    StringsOfOne(op);
    if op.Str? {
      assert StringsOf(ops) + op.bytes + taken == StringsOf(ops) + (op.bytes + taken);
    } else {
      assert StringsOf(ops) + [] == StringsOf(ops);
    }
  }

  lemma LastStartBelow(stack: seq<Operand>)
    requires |stack| > 0 && stack[|stack| - 1] != ArrayStart
    ensures var rest := stack[..|stack| - 1];
      && Kept(stack) == Kept(rest) && JoinStart(stack) == JoinStart(rest)
      && stack[JoinStart(stack)..] == rest[JoinStart(rest)..] + [stack[|stack| - 1]]
  {
  }

  /** Pops one operand that is not a `[`, keeping what has been collected behind it. */
  lemma PoppedOne(stack: seq<Operand>, parts: seq<seq<byte>>)
    requires |stack| > 0 && stack[|stack| - 1] != ArrayStart
    ensures var op, rest := stack[|stack| - 1], stack[..|stack| - 1];
      CollapsedOnto(stack, JoinedBack(parts))
      == CollapsedOnto(rest, JoinedBack(if op.Str? then parts + [op.bytes] else parts))
  {
    var op, rest := stack[|stack| - 1], stack[..|stack| - 1];
    LastStartBelow(stack);
    TakenOff(rest[JoinStart(rest)..], op, JoinedBack(parts));
    if op.Str? {
      JoinedBackPush(parts, op.bytes);
    }
  }

  method CollapseTop(before: seq<Operand>) returns (stack: seq<Operand>)
    ensures stack == Collapsed(before)
  {
    stack := before;
    var parts: seq<seq<byte>> := [];
    CollapsedOntoNothing(before);
    while |stack| > 0
      invariant CollapsedOnto(stack, JoinedBack(parts)) == Collapsed(before)
      decreases |stack|
    {
      var op := stack[|stack| - 1];
      if op == ArrayStart {
        assert StringsOf(stack[|stack|..]) + JoinedBack(parts) == JoinedBack(parts);
        stack := stack[..|stack| - 1];
        break;
      }
      PoppedOne(stack, parts);
      stack := stack[..|stack| - 1];
      if op.Str? {
        parts := parts + [op.bytes];
      }
    }
    var concat := JoinBack(parts);
    assert [] + concat == concat && [] + [Str(concat)] == [Str(concat)];
    stack := stack + [Str(concat)];
  }

  method JoinBack(parts: seq<seq<byte>>) returns (concat: seq<byte>)
    ensures concat == JoinedBack(parts)
  {
    concat := [];
    var k := |parts|;
    assert parts[..|parts|] == parts;
    while k > 0
      invariant 0 <= k <= |parts| && concat + JoinedBack(parts[..k]) == JoinedBack(parts)
    {
      k := k - 1;
      assert parts[..k + 1][..k] == parts[..k];
      concat := concat + parts[k];
    }
  }

  /** A bare word: a number is pushed, anything else is an operator and takes the stack. */
  method TakeWord(env: Env, it: Interp, word: seq<byte>, before: seq<Operand>) returns (stack: seq<Operand>)
    modifies it
    ensures (stack, it.Whole()) == Taken(env, Word(word), before, old(it.Whole()))
  {
    if !env.isUtf8(word) {
      return [];
    }
    var num := env.parseNum(word);
    if num.Some? {
      return before + [Num(num.value)];
    }
    it.Op(env, OperatorOf(word), before);
    return [];
  }

  method InterpretRuns(env: Env, data: seq<byte>) returns (runs: seq<PosRun>, arena: seq<byte>)
    ensures var end := Interpreted(env, data, 0, [], INITIAL); runs == end.runs && arena == end.arena
  {
    var it := new Interp();
    var stack: seq<Operand> := [];
    var i := 0;
    while i < |data|
      invariant i <= |data|
      invariant Interpreted(env, data, i, stack, it.Whole()) == Interpreted(env, data, 0, [], INITIAL)
      decreases |data| - i
    {
      ghost var lexed := Lex(data, i);
      ghost var taken := Taken(env, lexed.0, stack, it.Whole());
      var b0 := data[i];
      if IsWs(b0) {
        i := i + 1;
      } else if b0 == 0x25 {
        i := ScanComment(data, i);
      } else if b0 == OPEN {
        var s, next := ParseLiteral(data, i + 1);
        stack, i := stack + [Str(s)], next;
      } else if b0 == LESS {
        if i + 1 < |data| && data[i + 1] == LESS {
          i := i + 2;
        } else {
          var s, next := ParseHex(data, i + 1);
          stack, i := stack + [Str(s)], next;
        }
      } else if b0 == GREATER && i + 1 < |data| && data[i + 1] == GREATER {
        i := i + 2;
      } else if b0 == 0x5B {
        stack, i := stack + [ArrayStart], i + 1;
      } else if b0 == 0x5D {
        stack := CollapseTop(stack);
        i := i + 1;
      } else if b0 == 0x2F {
        var j := ScanRegular(data, i + 1);
        stack, i := stack + [Name(data[i + 1..j])], j;
      } else {
        var start := i;
        i := ScanRegular(data, i);
        if i == start {
          i := i + 1;
        } else {
          stack := TakeWord(env, it, data[start..i], stack);
        }
      }
      assert i == lexed.1 && (stack, it.Whole()) == taken;
    }
    runs, arena := it.runs, it.arena;
  }
}
