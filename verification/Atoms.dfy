/** Cutting text into atoms: the collector and the two recursive splitters. */
module Atoms {
  import opened Text

  datatype LineBreak = Inline | Newline | DoubleNewline {
    function Ord(): nat {
      match this
      case Inline => 0
      case Newline => 1
      case DoubleNewline => 2
    }
  }

  datatype Atom = Atom(
    start: nat, end: nat, boundarySyntax: nat, internalLb: LineBreak, boundaryLb: LineBreak)

  // ---------- line break levels ----------

  predicate IsBreak(b: Byte) {
    b.code == NL || b.code == CR
  }

  predicate AllBreaks(t: seq<Byte>, a: nat, j: nat) {
    j < |t| && forall k :: a <= k <= j ==> IsBreak(t[k])
  }

  /** A maximal run of break characters starts at `a`. */
  predicate RunStart(t: seq<Byte>, a: nat) {
    a < |t| && IsBreak(t[a]) && (a == 0 || !IsBreak(t[a - 1]))
  }

  /** Some run of break characters repeats its first character. */
  ghost predicate Repeats(t: seq<Byte>) {
    exists a: nat, j: nat :: RunStart(t, a) && a < j && AllBreaks(t, a, j) && t[j].code == t[a].code
  }

  ghost function LevelOf(t: seq<Byte>): LineBreak {
    if Repeats(t) then DoubleNewline
    else if exists k :: 0 <= k < |t| && IsBreak(t[k]) then Newline
    else Inline
  }

  /** No run starting before `i` repeats its first character before `i`. */
  ghost predicate NoRepeatBefore(t: seq<Byte>, i: nat) {
    forall a: nat, j: nat :: RunStart(t, a) && a < j < i && AllBreaks(t, a, j) ==> t[j].code != t[a].code
  }

  method LineBreakLevel(t: seq<Byte>) returns (level: LineBreak)
    ensures level == LevelOf(t)
  {
    level := Inline;
    var i := 0;
    while i < |t|
      invariant i <= |t| && NoRepeatBefore(t, i)
      invariant level == if exists k :: 0 <= k < i && IsBreak(t[k]) then Newline else Inline
      invariant 0 < i < |t| ==> !IsBreak(t[i - 1])
    {
      var a := i;
      i := i + 1;
      if IsBreak(t[a]) {
        level := Newline;
        var repeated;
        i, repeated := ScanRun(t, a);
        if repeated {
          return DoubleNewline;
        }
      }
    }
  }

  /** The rest of the run of breaks that starts at `a`, and the character behind it. */
  method ScanRun(t: seq<Byte>, a: nat) returns (i: nat, repeated: bool)
    requires RunStart(t, a) && NoRepeatBefore(t, a)
    ensures repeated ==> Repeats(t)
    ensures !repeated ==> a < i <= |t| && NoRepeatBefore(t, i) && (i < |t| ==> !IsBreak(t[i - 1]))
  {
    i := a + 1;
    var inRun := true;
    while i < |t| && inRun
      invariant a < i <= |t| && NoRepeatBefore(t, i)
      invariant inRun ==> AllBreaks(t, a, i - 1)
      invariant !inRun ==> !IsBreak(t[i - 1])
      decreases |t| - i, inRun
    {
      var c2 := t[i];
      i := i + 1;
      if IsBreak(c2) {
        if t[a].code == c2.code {
          assert AllBreaks(t, a, i - 1);
          return i, true;
        }
        OnlyRunStart(t, a, i - 1);
      } else {
        inRun := false;
      }
    }
    return i, false;
  }

  /** Only one maximal run reaches `j`. */
  lemma OnlyRunStart(t: seq<Byte>, a: nat, j: nat)
    requires RunStart(t, a) && a <= j && AllBreaks(t, a, j)
    ensures forall b: nat :: RunStart(t, b) && b <= j && AllBreaks(t, b, j) ==> b == a
  {
  }

  // ---------- trimming ----------

  /** `text[a..b].trim_end()` ends here. */
  function TrimEnd(t: seq<Byte>, a: nat, b: nat): (e: nat)
    requires a <= b <= |t|
    ensures a <= e <= b && (a < e ==> !t[e - 1].space)
    ensures forall p :: e <= p < b ==> t[p].space
  {
    if a < b && t[b - 1].space then TrimEnd(t, a, b - 1) else b
  }

  /** `text[a..b].trim_start()` starts here. */
  function TrimStart(t: seq<Byte>, a: nat, b: nat): (s: nat)
    requires a <= b <= |t|
    ensures a <= s <= b && (s < b ==> !t[s].space)
    ensures forall p :: a <= p < s ==> t[p].space
    decreases b - a
  {
    if a < b && t[a].space then TrimStart(t, a + 1, b) else a
  }

  predicate IsBlank(b: Byte) {
    b.code == BLANK || b.code == TAB
  }

  /** `text[a..b].trim_end_matches([' ', '\t'])` ends here. */
  function TrimBlanks(t: seq<Byte>, a: nat, b: nat): (e: nat)
    requires a <= b <= |t|
    ensures a <= e <= b && (a < e ==> !IsBlank(t[e - 1]))
    ensures forall p :: e <= p < b ==> IsBlank(t[p])
  {
    if a < b && IsBlank(t[b - 1]) then TrimBlanks(t, a, b - 1) else b
  }

  // ---------- the collector as a value ----------

  /** The fields of `AtomCollector` that `add` updates. */
  datatype State = State(currLevel: nat, minLevel: nat, chunks: seq<Atom>)

  function LastEnd(chunks: seq<Atom>): nat {
    if |chunks| == 0 then 0 else chunks[|chunks| - 1].end
  }

  /** The atom `add(start, end)` appends for a non-blank range: the range without
    * surrounding whitespace, pulled left to its line's indentation when a line
    * break separates it from the previous atom, which ends at `prev`. */
  ghost function NewAtom(t: seq<Byte>, prev: nat, minLevel: nat, start: nat, end: nat): (a: Atom)
    requires prev <= start <= end <= |t| && start < TrimEnd(t, start, end)
    ensures prev <= a.start && a.end == TrimEnd(t, start, end)
  {
    var e := TrimEnd(t, start, end);
    var s := TrimStart(t, start, e);
    var level := LevelOf(t[prev..s]);
    Atom(if level == Inline then s else TrimBlanks(t, prev, s), e, minLevel, LevelOf(t[s..e]), level)
  }

  ghost function Added(t: seq<Byte>, st: State, start: nat, end: nat): (r: State)
    requires LastEnd(st.chunks) <= start <= end <= |t|
    ensures LastEnd(r.chunks) <= end && r.currLevel == st.currLevel
  {
    if TrimEnd(t, start, end) == start then st
    else State(st.currLevel, st.currLevel,
               st.chunks + [NewAtom(t, LastEnd(st.chunks), st.minLevel, start, end)])
  }

  // ---------- separators and syntax trees ----------

  datatype Span = Span(start: nat, end: nat)

  /** What `find_iter` returns on `text[lo..hi]`: ordered, disjoint, non-empty spans. */
  ghost predicate MatchesOk(t: seq<Byte>, ms: seq<Span>, lo: nat, hi: nat) {
    && (forall k :: 0 <= k < |ms| ==>
          && lo <= ms[k].start < ms[k].end <= hi <= |t|
          && Boundary(t, ms[k].start) && Boundary(t, ms[k].end))
    && forall j, k :: 0 <= j < k < |ms| ==> ms[j].end <= ms[k].start
  }

  /** The scan of the matches has passed the first `k` of them. */
  predicate Reached(ms: seq<Span>, k: nat, cursor: nat) {
    k < |ms| ==> cursor <= ms[k].start
  }

  /** The text, its separator expressions, coarsest first, and the atom size. */
  datatype Splitter = Splitter(text: seq<Byte>, separators: seq<(nat, nat) -> seq<Span>>, minAtom: nat) {
    ghost predicate Valid() {
      && Utf8(text)
      && forall k: nat, lo: nat, hi: nat :: k < |separators| && lo <= hi <= |text| ==>
           MatchesOk(text, separators[k](lo, hi), lo, hi)
    }
  }

  /** A syntax tree node, reduced to its span and whether its kind is terminal. */
  datatype Node = Node(start: nat, end: nat, terminal: bool, children: seq<Node>) {
    ghost predicate Valid(t: seq<Byte>) {
      && start <= end <= |t| && Boundary(t, start) && Boundary(t, end)
      && (forall k :: 0 <= k < |children| ==>
            children[k].Valid(t) && start <= children[k].start && children[k].end <= end)
      && forall j, k :: 0 <= j < k < |children| ==> children[j].end <= children[k].start
    }
  }

  // ---------- the two splitters as functions of the collector's state ----------

  ghost function Ranged(sp: Splitter, lo: nat, hi: nat, base: nat, sep: nat, st: State): (r: State)
    requires sp.Valid() && LastEnd(st.chunks) <= lo <= hi <= |sp.text| && sep <= |sp.separators|
    ensures LastEnd(r.chunks) <= hi
    decreases |sp.separators| - sep, 1, 0
  {
    var level := base + sep + 1;
    if hi - lo <= sp.minAtom || sep == |sp.separators| then
      Added(sp.text, st.(currLevel := level), lo, hi)
    else
      var r := RangedFrom(sp, lo, sp.separators[sep](lo, hi), 0, lo, hi, base, sep, st);
      r.(minLevel := if level < r.minLevel then level else r.minLevel, currLevel := level)
  }

  /** The pieces between matches `k..` of one separator, then the piece after the last. */
  ghost function RangedFrom(sp: Splitter, lo: nat, ms: seq<Span>, k: nat, cursor: nat, hi: nat, base: nat,
                            sep: nat, st: State): (r: State)
    requires sp.Valid() && sep < |sp.separators| && k <= |ms| && cursor <= hi <= |sp.text|
    requires LastEnd(st.chunks) <= cursor && MatchesOk(sp.text, ms, lo, hi) && Reached(ms, k, cursor)
    ensures LastEnd(r.chunks) <= hi
    decreases |sp.separators| - sep, 0, |ms| - k
  {
    if k < |ms| then
      RangedFrom(sp, lo, ms, k + 1, ms[k].end, hi, base, sep,
                 Ranged(sp, cursor, ms[k].start, base, sep + 1, st))
    else if cursor < hi then Ranged(sp, cursor, hi, base, sep + 1, st)
    else st
  }

  ghost function Treed(sp: Splitter, node: Node, level: nat, st: State): (r: State)
    requires sp.Valid() && node.Valid(sp.text) && LastEnd(st.chunks) <= node.start
    ensures LastEnd(r.chunks) <= node.end
    decreases node, 1, 0
  {
    if node.end - node.start <= sp.minAtom || node.terminal then
      Added(sp.text, st.(currLevel := level), node.start, node.end)
    else if |node.children| == 0 then
      Ranged(sp, node.start, node.end, level, 0, st)
    else
      TreedFrom(sp, node, 0, node.start, level, st)
  }

  /** The text between two siblings is split like plain text. */
  ghost function Gap(sp: Splitter, from: nat, to: nat, level: nat, st: State): (r: State)
    requires sp.Valid() && LastEnd(st.chunks) <= from <= to <= |sp.text|
    ensures LastEnd(r.chunks) <= to
  {
    if from < to then Ranged(sp, from, to, level, 0, st) else st
  }

  ghost function TreedFrom(sp: Splitter, node: Node, k: nat, prevEnd: nat, level: nat, st: State): (r: State)
    requires sp.Valid() && node.Valid(sp.text) && k <= |node.children|
    requires LastEnd(st.chunks) <= prevEnd <= node.end
    requires k < |node.children| ==> prevEnd <= node.children[k].start
    ensures LastEnd(r.chunks) <= node.end
    decreases node, 0, |node.children| - k
  {
    if k < |node.children| then
      var child := node.children[k];
      assert child.Valid(sp.text);
      var st' := Treed(sp, child, level + 1, Gap(sp, prevEnd, child.start, level, st));
      TreedFrom(sp, node, k + 1, child.end, level, st')
    else
      Gap(sp, prevEnd, node.end, level, st)
  }

  // ---------- the separator text the splitting removes ----------

  predicate Within(m: Span, p: nat) {
    m.start <= p < m.end
  }

  ghost function SpanBytes(m: Span): set<nat> {
    set p: nat | p < m.end && Within(m, p)
  }

  /** The bytes of the matches found while a range is split: those of the separator
    * tried on it, and those found in the pieces between them. */
  ghost function RangedSeps(sp: Splitter, lo: nat, hi: nat, sep: nat): set<nat>
    requires sp.Valid() && lo <= hi <= |sp.text| && sep <= |sp.separators|
    decreases |sp.separators| - sep, 1, 0
  {
    if hi - lo <= sp.minAtom || sep == |sp.separators| then {}
    else RangedFromSeps(sp, lo, sp.separators[sep](lo, hi), 0, lo, hi, sep)
  }

  ghost function RangedFromSeps(sp: Splitter, lo: nat, ms: seq<Span>, k: nat, cursor: nat, hi: nat, sep: nat): set<nat>
    requires sp.Valid() && sep < |sp.separators| && k <= |ms| && cursor <= hi <= |sp.text|
    requires MatchesOk(sp.text, ms, lo, hi) && Reached(ms, k, cursor)
    decreases |sp.separators| - sep, 0, |ms| - k
  {
    if k < |ms| then
      RangedSeps(sp, cursor, ms[k].start, sep + 1) + SpanBytes(ms[k])
      + RangedFromSeps(sp, lo, ms, k + 1, ms[k].end, hi, sep)
    else if cursor < hi then RangedSeps(sp, cursor, hi, sep + 1)
    else {}
  }

  ghost function TreedSeps(sp: Splitter, node: Node): set<nat>
    requires sp.Valid() && node.Valid(sp.text)
    decreases node, 1, 0
  {
    if node.end - node.start <= sp.minAtom || node.terminal then {}
    else if |node.children| == 0 then RangedSeps(sp, node.start, node.end, 0)
    else TreedFromSeps(sp, node, 0, node.start)
  }

  ghost function GapSeps(sp: Splitter, from: nat, to: nat): set<nat>
    requires sp.Valid() && from <= to <= |sp.text|
  {
    if from < to then RangedSeps(sp, from, to, 0) else {}
  }

  ghost function TreedFromSeps(sp: Splitter, node: Node, k: nat, prevEnd: nat): set<nat>
    requires sp.Valid() && node.Valid(sp.text) && k <= |node.children| && prevEnd <= node.end
    requires k < |node.children| ==> prevEnd <= node.children[k].start
    decreases node, 0, |node.children| - k
  {
    if k < |node.children| then
      var child := node.children[k];
      assert child.Valid(sp.text);
      GapSeps(sp, prevEnd, child.start) + TreedSeps(sp, child) + TreedFromSeps(sp, node, k + 1, child.end)
    else
      GapSeps(sp, prevEnd, node.end)
  }

  // ---------- the collector itself ----------

  class AtomCollector {
    const splitter: Splitter
    var currLevel: nat
    var minLevel: nat
    var chunks: seq<Atom>

    constructor (splitter: Splitter)
      ensures this.splitter == splitter && Value() == State(0, 0, [])
    {
      this.splitter := splitter;
      currLevel, minLevel, chunks := 0, 0, [];
    }

    ghost function Value(): State
      reads this
    {
      State(currLevel, minLevel, chunks)
    }

    method Add(start: nat, end: nat)
      requires LastEnd(chunks) <= start <= end <= |splitter.text|
      modifies this
      ensures Value() == Added(splitter.text, old(Value()), start, end)
    {
      var text := splitter.text;
      var ne := TrimEnd(text, start, end);
      if ne == start {
        return;
      }
      var ns := TrimStart(text, start, ne);
      var prev := LastEnd(chunks);
      var bl := LineBreakLevel(text[prev..ns]);
      var atomStart := if bl != Inline then TrimBlanks(text, prev, ns) else ns;
      var internal := LineBreakLevel(text[ns..ne]);
      chunks := chunks + [Atom(atomStart, ne, minLevel, internal, bl)];
      minLevel := currLevel;
    }

    method Seal() returns (atoms: seq<Atom>)
      modifies this
      ensures atoms == Sealed(splitter.text, old(chunks))
    {
      minLevel := 0;
      chunks := chunks + [Atom(|splitter.text|, |splitter.text|, minLevel, Inline, DoubleNewline)];
      atoms := chunks;
    }

    method CollectAtoms(lo: nat, hi: nat, base: nat, sep: nat)
      requires splitter.Valid() && LastEnd(chunks) <= lo <= hi <= |splitter.text| && sep <= |splitter.separators|
      modifies this
      ensures Value() == Ranged(splitter, lo, hi, base, sep, old(Value()))
      decreases |splitter.separators| - sep, 1
    {
      if hi - lo <= splitter.minAtom {
        currLevel := base + sep + 1;
        Add(lo, hi);
        return;
      }
      if sep >= |splitter.separators| {
        currLevel := base + sep + 1;
        Add(lo, hi);
        return;
      }
      var ms := splitter.separators[sep](lo, hi);
      var cursor := lo;
      var k := 0;
      assert MatchesOk(splitter.text, ms, lo, hi);
      while k < |ms|
        invariant k <= |ms| && LastEnd(chunks) <= cursor <= hi
        invariant Reached(ms, k, cursor)
        invariant RangedFrom(splitter, lo, ms, k, cursor, hi, base, sep, Value())
               == RangedFrom(splitter, lo, ms, 0, lo, hi, base, sep, old(Value()))
      {
        CollectPiece(lo, ms, k, cursor, hi, base, sep);
        cursor := ms[k].end;
        k := k + 1;
      }
      if cursor < hi {
        CollectAtoms(cursor, hi, base, sep + 1);
      }
      Settle(base + sep + 1);
    }

    /** The piece between the cursor and match k. */
    method CollectPiece(lo: nat, ms: seq<Span>, k: nat, cursor: nat, hi: nat, base: nat, sep: nat)
      requires splitter.Valid() && sep < |splitter.separators| && k < |ms| && hi <= |splitter.text|
      requires LastEnd(chunks) <= cursor <= hi && MatchesOk(splitter.text, ms, lo, hi) && Reached(ms, k, cursor)
      modifies this
      ensures LastEnd(chunks) <= ms[k].end && Reached(ms, k + 1, ms[k].end)
      ensures RangedFrom(splitter, lo, ms, k + 1, ms[k].end, hi, base, sep, Value())
           == RangedFrom(splitter, lo, ms, k, cursor, hi, base, sep, old(Value()))
      decreases |splitter.separators| - sep, 0
    {
      if cursor < ms[k].end {
        CollectAtoms(cursor, ms[k].start, base, sep + 1);
      }
    }

    /** A range that was split leaves its own level behind, unless a lower one waits. */
    method Settle(level: nat)
      modifies this`minLevel, this`currLevel
      ensures currLevel == level && minLevel == if level < old(minLevel) then level else old(minLevel)
    {
      if level < minLevel {
        minLevel := level;
      }
      currLevel := level;
    }

    method CollectAtomsTs(node: Node, level: nat)
      requires splitter.Valid() && node.Valid(splitter.text) && LastEnd(chunks) <= node.start
      modifies this
      ensures Value() == Treed(splitter, node, level, old(Value()))
      decreases node, 1
    {
      if node.end - node.start <= splitter.minAtom {
        currLevel := level;
        Add(node.start, node.end);
        return;
      }
      if node.terminal {
        currLevel := level;
        Add(node.start, node.end);
        return;
      }
      if |node.children| == 0 {
        CollectAtoms(node.start, node.end, level, 0);
        return;
      }
      var prevEnd := node.start;
      var k := 0;
      while k < |node.children|
        invariant k <= |node.children| && LastEnd(chunks) <= prevEnd <= node.end
        invariant k < |node.children| ==> prevEnd <= node.children[k].start
        invariant TreedFrom(splitter, node, k, prevEnd, level, Value())
               == TreedFrom(splitter, node, 0, node.start, level, old(Value()))
      {
        CollectChild(node, k, prevEnd, level);
        prevEnd := node.children[k].end;
        k := k + 1;
      }
      CollectGap(prevEnd, node.end, level);
    }

    /** Child k behind the gap in front of it. */
    method CollectChild(node: Node, k: nat, prevEnd: nat, level: nat)
      requires splitter.Valid() && node.Valid(splitter.text) && k < |node.children|
      requires LastEnd(chunks) <= prevEnd <= node.children[k].start && prevEnd <= node.end
      modifies this
      ensures node.children[k].end <= node.end && LastEnd(chunks) <= node.children[k].end
      ensures TreedFrom(splitter, node, k + 1, node.children[k].end, level, Value())
           == TreedFrom(splitter, node, k, prevEnd, level, old(Value()))
      decreases node, 0
    {
      var child := node.children[k];
      assert child.Valid(splitter.text);
      CollectGap(prevEnd, child.start, level);
      CollectAtomsTs(child, level + 1);
    }

    /** The text between two siblings, if any, falls through to the separators. */
    method CollectGap(from: nat, to: nat, level: nat)
      requires splitter.Valid() && LastEnd(chunks) <= from <= to <= |splitter.text|
      modifies this
      ensures Value() == Gap(splitter, from, to, level, old(Value()))
    {
      if from < to {
        CollectAtoms(from, to, level, 0);
      }
    }
  }

  /** The atoms handed to the merge: the collected ones and a closing sentinel. */
  function Sealed(t: seq<Byte>, chunks: seq<Atom>): seq<Atom> {
    chunks + [Atom(|t|, |t|, 0, Inline, DoubleNewline)]
  }
}
