/** What the splitters guarantee about the atoms they collect. */
module AtomLaws {
  import opened Text
  import opened Atoms

  ghost predicate InAtom(chunks: seq<Atom>, p: nat) {
    exists k :: 0 <= k < |chunks| && chunks[k].start <= p < chunks[k].end
  }

  /** Ordered, disjoint, non-empty atoms on character boundaries, each ending in a visible character. */
  ghost predicate Tidy(t: seq<Byte>, chunks: seq<Atom>) {
    && (forall k :: 0 <= k < |chunks| ==>
          && chunks[k].start < chunks[k].end <= |t|
          && Boundary(t, chunks[k].start) && Boundary(t, chunks[k].end)
          && !t[chunks[k].end - 1].space)
    && forall j, k :: 0 <= j < k < |chunks| ==> chunks[j].end <= chunks[k].start
  }

  /** Each atom carries the line break level of its own text, and of the text between
    * it and the atom before. It starts with a visible character, or, if a line break
    * comes before it, with the indentation of its line. */
  ghost predicate Leveled(t: seq<Byte>, chunks: seq<Atom>) {
    forall k {:trigger LevelsAt(t, chunks, k)} :: 0 <= k < |chunks| ==> LevelsAt(t, chunks, k)
  }

  ghost predicate LevelsAt(t: seq<Byte>, chunks: seq<Atom>, k: nat)
    requires k < |chunks|
  {
    var a, prev := chunks[k], if k == 0 then 0 else chunks[k - 1].end;
    && prev <= a.start < a.end <= |t|
    && a.internalLb == LevelOf(t[a.start..a.end]) && a.boundaryLb == LevelOf(t[prev..a.start])
    && StartsWell(t, prev, a)
  }

  predicate StartsWell(t: seq<Byte>, prev: nat, a: Atom)
    requires prev <= a.start < |t|
  {
    if a.boundaryLb == Inline then !t[a.start].space
    else a.start == prev || !IsBlank(t[a.start - 1])
  }

  /** Text without line breaks around it does not change the level of a text. */
  lemma LevelOfMiddle(u: seq<Byte>, v: seq<Byte>, d: nat)
    requires d + |u| <= |v| && v[d..d + |u|] == u
    requires forall p :: 0 <= p < |v| && !(d <= p < d + |u|) ==> !IsBreak(v[p])
    ensures LevelOf(v) == LevelOf(u)
  {
    assert forall p :: 0 <= p < |u| ==> v[d + p] == u[p];
    if Repeats(u) {
      var a: nat, j: nat :| RunStart(u, a) && a < j && AllBreaks(u, a, j) && u[j].code == u[a].code;
      assert v[d + a] == u[a] && v[d + j] == u[j];
      assert a > 0 ==> v[d + a - 1] == u[a - 1];
      assert RunStart(v, d + a);
      assert AllBreaks(v, d + a, d + j) by {
        forall p | d + a <= p <= d + j
          ensures IsBreak(v[p])
        {
          assert v[p] == u[p - d];
        }
      }
    }
    if Repeats(v) {
      var a: nat, j: nat :| RunStart(v, a) && a < j && AllBreaks(v, a, j) && v[j].code == v[a].code;
      assert d <= a && j < d + |u|;
      assert v[a] == u[a - d] && v[j] == u[j - d];
      assert a > d ==> v[a - 1] == u[a - 1 - d];
      assert RunStart(u, a - d);
      assert AllBreaks(u, a - d, j - d) by {
        forall p | a - d <= p <= j - d
          ensures IsBreak(u[p])
        {
          assert v[p + d] == u[p];
        }
      }
    }
    if k :| 0 <= k < |u| && IsBreak(u[k]) {
      assert v[d + k] == u[k];
    }
    if k :| 0 <= k < |v| && IsBreak(v[k]) {
      assert v[k] == u[k - d];
    }
  }

  lemma BlanksBefore(t: seq<Byte>, p: nat, s: nat, e: nat)
    requires p <= s <= e <= |t| && forall k :: p <= k < s ==> IsBlank(t[k])
    ensures LevelOf(t[p..e]) == LevelOf(t[s..e])
  {
    var wide := t[p..e];
    forall k | 0 <= k < s - p
      ensures !IsBreak(wide[k])
    {
      assert wide[k] == t[p + k];
    }
    LevelOfMiddle(t[s..e], wide, s - p);
  }

  lemma BlanksBehind(t: seq<Byte>, p: nat, s: nat, e: nat)
    requires p <= s <= e <= |t| && forall k :: s <= k < e ==> IsBlank(t[k])
    ensures LevelOf(t[p..e]) == LevelOf(t[p..s])
  {
    var wide := t[p..e];
    forall k | s - p <= k < e - p
      ensures !IsBreak(wide[k])
    {
      assert wide[k] == t[p + k];
    }
    LevelOfMiddle(t[p..s], wide, 0);
  }

  lemma NewAtomIsLeveled(t: seq<Byte>, prev: nat, minLevel: nat, start: nat, end: nat)
    requires prev <= start <= end <= |t| && start < TrimEnd(t, start, end)
    ensures var a := NewAtom(t, prev, minLevel, start, end);
      && a.start < a.end && StartsWell(t, prev, a)
      && a.internalLb == LevelOf(t[a.start..a.end]) && a.boundaryLb == LevelOf(t[prev..a.start])
  {
    var e := TrimEnd(t, start, end);
    var s := TrimStart(t, start, e);
    var a := NewAtom(t, prev, minLevel, start, end);
    assert s < e && !t[s].space;
    IndentedStart(t, prev, s, e, a.start);
    AtomStartsWell(t, prev, s, a);
  }

  lemma AtomStartsWell(t: seq<Byte>, prev: nat, s: nat, a: Atom)
    requires prev <= s < |t| && !t[s].space && a.start == if a.boundaryLb == Inline then s else TrimBlanks(t, prev, s)
    ensures StartsWell(t, prev, a)
  {
  }

  /** Taking blanks in front of a text into it changes no level. */
  lemma IndentedStart(t: seq<Byte>, prev: nat, s: nat, e: nat, from: nat)
    requires prev <= from <= s <= e <= |t| && forall k :: from <= k < s ==> IsBlank(t[k])
    ensures LevelOf(t[from..e]) == LevelOf(t[s..e]) && LevelOf(t[prev..from]) == LevelOf(t[prev..s])
  {
    BlanksBefore(t, from, s, e);
    BlanksBehind(t, prev, from, s);
  }

  lemma AppendLeveled(t: seq<Byte>, chunks: seq<Atom>, a: Atom)
    requires Leveled(t, chunks) && LastEnd(chunks) <= a.start < a.end <= |t| && StartsWell(t, LastEnd(chunks), a)
    requires a.internalLb == LevelOf(t[a.start..a.end]) && a.boundaryLb == LevelOf(t[LastEnd(chunks)..a.start])
    ensures Leveled(t, chunks + [a])
  {
    var all := chunks + [a];
    forall k | 0 <= k < |all|
      ensures LevelsAt(t, all, k)
    {
      assert k < |chunks| ==> LevelsAt(t, chunks, k);
    }
  }

  /** Every byte before `upto` is in an atom, is whitespace, or is one of `seps`. */
  ghost predicate Accounted(t: seq<Byte>, seps: set<nat>, chunks: seq<Atom>, upto: nat) {
    upto <= |t| &&
    forall p: nat {:trigger InAtom(chunks, p)} :: p < upto ==> t[p].space || InAtom(chunks, p) || p in seps
  }

  ghost predicate Collected(t: seq<Byte>, seps: set<nat>, chunks: seq<Atom>, upto: nat) {
    && Tidy(t, chunks) && LastEnd(chunks) <= upto && Accounted(t, seps, chunks, upto) && Boundary(t, upto)
    && Leveled(t, chunks)
  }

  /** Trimming stops on character boundaries. */
  lemma {:induction false} TrimsOnBoundaries(t: seq<Byte>, a: nat, b: nat)
    requires Utf8(t) && a <= b <= |t| && Boundary(t, a) && Boundary(t, b)
    ensures Boundary(t, TrimEnd(t, a, b)) && Boundary(t, TrimStart(t, a, b))
  {
    var e, s := TrimEnd(t, a, b), TrimStart(t, a, b);
    if a < e < b { assert Continues(t, e) || t[e].lead; }
    if a < s < b { assert Continues(t, s) || t[s].lead; }
  }

  lemma {:induction false} NewAtomIsTidy(t: seq<Byte>, prev: nat, minLevel: nat, start: nat, end: nat)
    requires Utf8(t) && prev <= start <= end <= |t| && start < TrimEnd(t, start, end)
    requires Boundary(t, start) && Boundary(t, end)
    ensures var a := NewAtom(t, prev, minLevel, start, end);
            && prev <= a.start < a.end <= end && !t[a.end - 1].space
            && Boundary(t, a.start) && Boundary(t, a.end)
            && forall p :: start <= p < end && !(a.start <= p < a.end) ==> t[p].space
  {
    var e := TrimEnd(t, start, end);
    var s := TrimStart(t, start, e);
    TrimsOnBoundaries(t, start, end);
    TrimsOnBoundaries(t, start, e);
    assert s < e;
    if TrimBlanks(t, prev, s) < s {
      assert IsBlank(t[TrimBlanks(t, prev, s)]);
    }
  }

  lemma AddedCollects(t: seq<Byte>, seps: set<nat>, st: State, start: nat, end: nat)
    requires Utf8(t) && Collected(t, seps, st.chunks, start)
    requires start <= end <= |t| && Boundary(t, end)
    ensures Collected(t, seps, Added(t, st, start, end).chunks, end)
  {
    if TrimEnd(t, start, end) > start {
      var prev := LastEnd(st.chunks);
      var a := NewAtom(t, prev, st.minLevel, start, end);
      NewAtomIsTidy(t, prev, st.minLevel, start, end);
      NewAtomIsLeveled(t, prev, st.minLevel, start, end);
      AppendLeveled(t, st.chunks, a);
      AppendAccounts(t, seps, st.chunks, a, start, end);
      AppendTidy(t, st.chunks, a);
    } else {
      SkipCollects(t, seps, st.chunks, start, end);
    }
  }

  lemma AppendTidy(t: seq<Byte>, chunks: seq<Atom>, a: Atom)
    requires Tidy(t, chunks) && LastEnd(chunks) <= a.start < a.end <= |t|
    requires Boundary(t, a.start) && Boundary(t, a.end) && !t[a.end - 1].space
    ensures Tidy(t, chunks + [a])
  {
  }

  lemma AppendAccounts(t: seq<Byte>, seps: set<nat>, chunks: seq<Atom>, a: Atom, start: nat, end: nat)
    requires Accounted(t, seps, chunks, start) && start <= end <= |t|
    requires forall p :: start <= p < end && !(a.start <= p < a.end) ==> t[p].space
    ensures Accounted(t, seps, chunks + [a], end)
  {
    var all := chunks + [a];
    forall p: nat | p < end
      ensures t[p].space || InAtom(all, p) || p in seps
    {
      if p < start && InAtom(chunks, p) {
        var k :| 0 <= k < |chunks| && chunks[k].start <= p < chunks[k].end;
        assert all[k] == chunks[k];
      } else if a.start <= p < a.end {
        assert all[|chunks|] == a;
      }
    }
  }

  /** Skipping a separator match, or blank text, keeps everything accounted for. */
  lemma SkipCollects(t: seq<Byte>, seps: set<nat>, chunks: seq<Atom>, from: nat, to: nat)
    requires Collected(t, seps, chunks, from) && from <= to <= |t| && Boundary(t, to)
    requires forall p: nat :: from <= p < to ==> t[p].space || p in seps
    ensures Collected(t, seps, chunks, to)
  {
    forall p: nat {:trigger InAtom(chunks, p)} | p < to
      ensures t[p].space || InAtom(chunks, p) || p in seps
    {
    }
  }

  lemma SkipMatch(t: seq<Byte>, seps: set<nat>, chunks: seq<Atom>, ms: seq<Span>, lo: nat, hi: nat, k: nat)
    requires k < |ms| && MatchesOk(t, ms, lo, hi) && SpanBytes(ms[k]) <= seps
    requires Collected(t, seps, chunks, ms[k].start)
    ensures Collected(t, seps, chunks, ms[k].end)
  {
    forall p: nat | ms[k].start <= p < ms[k].end
      ensures p in seps
    {
      assert Within(ms[k], p) && p in SpanBytes(ms[k]);
    }
    SkipCollects(t, seps, chunks, ms[k].start, ms[k].end);
  }

  lemma {:induction false} RangedCollects(
      sp: Splitter, seps: set<nat>, lo: nat, hi: nat, base: nat, sep: nat, st: State)
    requires sp.Valid() && sep <= |sp.separators| && lo <= hi <= |sp.text| && Boundary(sp.text, hi)
    requires RangedSeps(sp, lo, hi, sep) <= seps
    requires Collected(sp.text, seps, st.chunks, lo)
    ensures Collected(sp.text, seps, Ranged(sp, lo, hi, base, sep, st).chunks, hi)
    decreases |sp.separators| - sep, 1, 0
  {
    if hi - lo <= sp.minAtom || sep == |sp.separators| {
      AddedCollects(sp.text, seps, st.(currLevel := base + sep + 1), lo, hi);
    } else {
      var ms := sp.separators[sep](lo, hi);
      assert MatchesOk(sp.text, ms, lo, hi);
      RangedFromCollects(sp, seps, lo, ms, 0, lo, hi, base, sep, st);
    }
  }

  lemma {:induction false} RangedFromCollects(
      sp: Splitter, seps: set<nat>, lo: nat, ms: seq<Span>, k: nat, cursor: nat, hi: nat, base: nat, sep: nat,
      st: State)
    requires sp.Valid() && sep < |sp.separators| && k <= |ms| && lo <= cursor <= hi <= |sp.text|
    requires LastEnd(st.chunks) <= cursor && MatchesOk(sp.text, ms, lo, hi) && Reached(ms, k, cursor)
    requires Boundary(sp.text, hi) && RangedFromSeps(sp, lo, ms, k, cursor, hi, sep) <= seps
    requires Collected(sp.text, seps, st.chunks, cursor)
    ensures Collected(sp.text, seps, RangedFrom(sp, lo, ms, k, cursor, hi, base, sep, st).chunks, hi)
    decreases |sp.separators| - sep, 0, |ms| - k
  {
    if k < |ms| {
      var st' := PieceCollects(sp, seps, lo, ms, k, cursor, hi, base, sep, st);
      RangedFromCollects(sp, seps, lo, ms, k + 1, ms[k].end, hi, base, sep, st');
    } else if cursor < hi {
      RangedCollects(sp, seps, cursor, hi, base, sep + 1, st);
    }
  }

  /** The piece in front of match k, and the match itself. */
  lemma {:induction false} PieceCollects(
      sp: Splitter, seps: set<nat>, lo: nat, ms: seq<Span>, k: nat, cursor: nat, hi: nat, base: nat, sep: nat,
      st: State)
    returns (st': State)
    requires sp.Valid() && sep < |sp.separators| && k < |ms| && lo <= cursor <= hi <= |sp.text|
    requires LastEnd(st.chunks) <= cursor && MatchesOk(sp.text, ms, lo, hi) && Reached(ms, k, cursor)
    requires RangedSeps(sp, cursor, ms[k].start, sep + 1) + SpanBytes(ms[k]) <= seps
    requires Collected(sp.text, seps, st.chunks, cursor)
    ensures st' == Ranged(sp, cursor, ms[k].start, base, sep + 1, st)
    ensures Collected(sp.text, seps, st'.chunks, ms[k].end) && Reached(ms, k + 1, ms[k].end)
    decreases |sp.separators| - sep, 0, 0
  {
    RangedCollects(sp, seps, cursor, ms[k].start, base, sep + 1, st);
    st' := Ranged(sp, cursor, ms[k].start, base, sep + 1, st);
    SkipMatch(sp.text, seps, st'.chunks, ms, lo, hi, k);
  }

  lemma {:induction false} TreedCollects(sp: Splitter, seps: set<nat>, node: Node, level: nat, st: State)
    requires sp.Valid() && node.Valid(sp.text) && Collected(sp.text, seps, st.chunks, node.start)
    requires TreedSeps(sp, node) <= seps
    ensures Collected(sp.text, seps, Treed(sp, node, level, st).chunks, node.end)
    decreases node, 1, 0
  {
    if node.end - node.start <= sp.minAtom || node.terminal {
      AddedCollects(sp.text, seps, st.(currLevel := level), node.start, node.end);
    } else if |node.children| == 0 {
      RangedCollects(sp, seps, node.start, node.end, level, 0, st);
    } else {
      TreedFromCollects(sp, seps, node, 0, node.start, level, st);
    }
  }

  lemma {:induction false} TreedFromCollects(
      sp: Splitter, seps: set<nat>, node: Node, k: nat, prevEnd: nat, level: nat, st: State)
    requires sp.Valid() && node.Valid(sp.text) && k <= |node.children|
    requires prevEnd <= node.end && Collected(sp.text, seps, st.chunks, prevEnd)
    requires k < |node.children| ==> prevEnd <= node.children[k].start
    requires TreedFromSeps(sp, node, k, prevEnd) <= seps
    ensures Collected(sp.text, seps, TreedFrom(sp, node, k, prevEnd, level, st).chunks, node.end)
    decreases node, 0, |node.children| - k
  {
    if k < |node.children| {
      var child := node.children[k];
      assert child.Valid(sp.text);
      if prevEnd < child.start {
        RangedCollects(sp, seps, prevEnd, child.start, level, 0, st);
      }
      var st1 := Gap(sp, prevEnd, child.start, level, st);
      TreedCollects(sp, seps, child, level + 1, st1);
      TreedFromCollects(sp, seps, node, k + 1, child.end, level, Treed(sp, child, level + 1, st1));
    } else if prevEnd < node.end {
      RangedCollects(sp, seps, prevEnd, node.end, level, 0, st);
    }
  }

  // ---------- what a boundary level means in plain text ----------

  /** The atoms `st'` has beyond those of `st`: the first continues at level
    * `st.minLevel`, every later one starts at level `inner` or deeper. */
  ghost predicate NewAtomsAt(st: State, st': State, inner: nat) {
    && st.chunks <= st'.chunks
    && (|st.chunks| < |st'.chunks| ==> st'.chunks[|st.chunks|].boundarySyntax == st.minLevel)
    && forall k :: |st.chunks| < k < |st'.chunks| ==> st'.chunks[k].boundarySyntax >= inner
  }

  /** A range cut by separator `sep` leaves level `base + sep + 1` behind it, and
    * boundaries inside it are strictly deeper: the level of a boundary names the
    * coarsest separator crossed there. */
  lemma {:induction false} RangedLevels(sp: Splitter, lo: nat, hi: nat, base: nat, sep: nat, st: State)
    requires sp.Valid() && LastEnd(st.chunks) <= lo <= hi <= |sp.text| && sep <= |sp.separators|
    requires st.minLevel <= base + sep + 1
    ensures var r := Ranged(sp, lo, hi, base, sep, st);
            && NewAtomsAt(st, r, base + sep + 2)
            && r.minLevel == if |r.chunks| == |st.chunks| then st.minLevel else base + sep + 1
    decreases |sp.separators| - sep, 1, 0
  {
    if hi - lo > sp.minAtom && sep < |sp.separators| {
      var ms := sp.separators[sep](lo, hi);
      assert MatchesOk(sp.text, ms, lo, hi);
      RangedFromLevels(sp, lo, ms, 0, lo, hi, base, sep, st);
    }
  }

  lemma NewAtomsCompose(st: State, mid: State, end: State, inner: nat)
    requires NewAtomsAt(st, mid, inner + 1) && NewAtomsAt(mid, end, inner)
    requires mid.minLevel == if |mid.chunks| == |st.chunks| then st.minLevel else inner
    ensures NewAtomsAt(st, end, inner)
  {
    assert forall k :: 0 <= k < |mid.chunks| ==> end.chunks[k] == mid.chunks[k];
  }

  /** Pieces of one range are separated at level `base + sep + 2` exactly. */
  lemma {:induction false} RangedFromLevels(
      sp: Splitter, lo: nat, ms: seq<Span>, k: nat, cursor: nat, hi: nat, base: nat, sep: nat, st: State)
    requires sp.Valid() && sep < |sp.separators| && k <= |ms| && cursor <= hi <= |sp.text|
    requires LastEnd(st.chunks) <= cursor && MatchesOk(sp.text, ms, lo, hi) && Reached(ms, k, cursor)
    requires st.minLevel <= base + sep + 2
    ensures var r := RangedFrom(sp, lo, ms, k, cursor, hi, base, sep, st);
            && NewAtomsAt(st, r, base + sep + 2)
            && r.minLevel == if |r.chunks| == |st.chunks| then st.minLevel else base + sep + 2
    decreases |sp.separators| - sep, 0, |ms| - k
  {
    if k < |ms| {
      RangedLevels(sp, cursor, ms[k].start, base, sep + 1, st);
      var st' := Ranged(sp, cursor, ms[k].start, base, sep + 1, st);
      RangedFromLevels(sp, lo, ms, k + 1, ms[k].end, hi, base, sep, st');
      NewAtomsCompose(st, st', RangedFrom(sp, lo, ms, k, cursor, hi, base, sep, st), base + sep + 2);
    } else if cursor < hi {
      RangedLevels(sp, cursor, hi, base, sep + 1, st);
    }
  }

  // ---------- what is not cut ----------

  predicate IsWhite(t: seq<Byte>, lo: nat, hi: nat)
    requires lo <= hi <= |t|
  {
    forall p :: lo <= p < hi ==> t[p].space
  }

  /** A range within the atom size is one atom, or none if nothing in it is visible. */
  lemma {:induction false} SmallRangeIsWhole(sp: Splitter, lo: nat, hi: nat, base: nat, sep: nat, st: State)
    requires sp.Valid() && LastEnd(st.chunks) <= lo <= hi <= |sp.text| && sep <= |sp.separators|
    requires hi - lo <= sp.minAtom
    ensures var r := Ranged(sp, lo, hi, base, sep, st);
      |r.chunks| == |st.chunks| + if IsWhite(sp.text, lo, hi) then 0 else 1
  {
    VisibleIsAdded(sp.text, st.(currLevel := base + sep + 1), lo, hi);
  }

  /** So is a node within the atom size, or of a terminal kind. */
  lemma {:induction false} SmallNodeIsWhole(sp: Splitter, node: Node, level: nat, st: State)
    requires sp.Valid() && node.Valid(sp.text) && LastEnd(st.chunks) <= node.start
    requires node.end - node.start <= sp.minAtom || node.terminal
    ensures var r := Treed(sp, node, level, st);
      |r.chunks| == |st.chunks| + if IsWhite(sp.text, node.start, node.end) then 0 else 1
  {
    VisibleIsAdded(sp.text, st.(currLevel := level), node.start, node.end);
  }

  lemma VisibleIsAdded(t: seq<Byte>, st: State, lo: nat, hi: nat)
    requires LastEnd(st.chunks) <= lo <= hi <= |t|
    ensures |Added(t, st, lo, hi).chunks| == |st.chunks| + if IsWhite(t, lo, hi) then 0 else 1
  {
    var e := TrimEnd(t, lo, hi);
    if lo < e {
      assert !t[e - 1].space;
    }
  }

  // ---------- what a boundary level means in a tree ----------

  /** `st'` follows `st`: atoms leave the level `inner` behind them, and without any
    * the level can only come down, to no less than `inner`. */
  predicate Leaves(st: State, st': State, inner: nat) {
    && |st.chunks| <= |st'.chunks|
    && (|st.chunks| < |st'.chunks| ==> st'.minLevel == inner)
    && (|st.chunks| == |st'.chunks| ==> st'.minLevel == st.minLevel || inner <= st'.minLevel <= st.minLevel)
  }

  /** A range leaves the level of the coarsest separator tried on it. */
  lemma {:induction false} RangedLeaves(sp: Splitter, lo: nat, hi: nat, base: nat, sep: nat, st: State)
    requires sp.Valid() && LastEnd(st.chunks) <= lo <= hi <= |sp.text| && sep <= |sp.separators|
    ensures Leaves(st, Ranged(sp, lo, hi, base, sep, st), base + sep + 1)
    decreases |sp.separators| - sep, 1, 0
  {
    if hi - lo > sp.minAtom && sep < |sp.separators| {
      var ms := sp.separators[sep](lo, hi);
      assert MatchesOk(sp.text, ms, lo, hi);
      RangedFromLeaves(sp, lo, ms, 0, lo, hi, base, sep, st);
    }
  }

  lemma {:induction false} RangedFromLeaves(
      sp: Splitter, lo: nat, ms: seq<Span>, k: nat, cursor: nat, hi: nat, base: nat, sep: nat, st: State)
    requires sp.Valid() && sep < |sp.separators| && k <= |ms| && cursor <= hi <= |sp.text|
    requires LastEnd(st.chunks) <= cursor && MatchesOk(sp.text, ms, lo, hi) && Reached(ms, k, cursor)
    ensures Leaves(st, RangedFrom(sp, lo, ms, k, cursor, hi, base, sep, st), base + sep + 2)
    decreases |sp.separators| - sep, 0, |ms| - k
  {
    if k < |ms| {
      RangedLeaves(sp, cursor, ms[k].start, base, sep + 1, st);
      RangedFromLeaves(sp, lo, ms, k + 1, ms[k].end, hi, base, sep, Ranged(sp, cursor, ms[k].start, base, sep + 1, st));
    } else if cursor < hi {
      RangedLeaves(sp, cursor, hi, base, sep + 1, st);
    }
  }

  /** The node is one atom, or none if it is blank. */
  predicate IsLeaf(sp: Splitter, node: Node) {
    node.terminal || node.end - node.start <= sp.minAtom
  }

  /** As `Leaves`, but atoms may leave any level from `inner` on. */
  predicate LeavesFrom(st: State, st': State, inner: nat) {
    && |st.chunks| <= |st'.chunks|
    && (|st.chunks| < |st'.chunks| ==> inner <= st'.minLevel)
    && (|st.chunks| == |st'.chunks| ==> st'.minLevel == st.minLevel || inner <= st'.minLevel <= st.minLevel)
  }

  /** A leaf leaves its own level behind it, every other node a deeper one. */
  lemma {:induction false} TreedLeaves(sp: Splitter, node: Node, level: nat, st: State)
    requires sp.Valid() && node.Valid(sp.text) && LastEnd(st.chunks) <= node.start
    ensures var r := Treed(sp, node, level, st);
      if IsLeaf(sp, node) then Leaves(st, r, level) else LeavesFrom(st, r, level + 1)
    decreases node, 1, 0
  {
    if !IsLeaf(sp, node) {
      if |node.children| == 0 {
        RangedLeaves(sp, node.start, node.end, level, 0, st);
      } else {
        TreedFromLeaves(sp, node, 0, node.start, level, st);
      }
    }
  }

  lemma {:induction false} TreedFromLeaves(sp: Splitter, node: Node, k: nat, prevEnd: nat, level: nat, st: State)
    requires sp.Valid() && node.Valid(sp.text) && k <= |node.children|
    requires LastEnd(st.chunks) <= prevEnd <= node.end
    requires k < |node.children| ==> prevEnd <= node.children[k].start
    ensures LeavesFrom(st, TreedFrom(sp, node, k, prevEnd, level, st), level + 1)
    decreases node, 0, |node.children| - k
  {
    if k < |node.children| {
      var child := node.children[k];
      assert child.Valid(sp.text);
      GapLeaves(sp, prevEnd, child.start, level, st);
      var gap := Gap(sp, prevEnd, child.start, level, st);
      TreedLeaves(sp, child, level + 1, gap);
      TreedFromLeaves(sp, node, k + 1, child.end, level, Treed(sp, child, level + 1, gap));
    } else {
      GapLeaves(sp, prevEnd, node.end, level, st);
    }
  }

  lemma GapLeaves(sp: Splitter, from: nat, to: nat, level: nat, st: State)
    requires sp.Valid() && LastEnd(st.chunks) <= from <= to <= |sp.text|
    ensures Leaves(st, Gap(sp, from, to, level, st), level + 1)
  {
    if from < to {
      RangedLeaves(sp, from, to, level, 0, st);
    }
  }

  /** Text between two siblings leaves the level below their parent's behind it; a
    * sibling with atoms leaves the same one exactly if it is a leaf, and a deeper
    * one otherwise. */
  lemma {:induction false} GapsAndSiblingsOnOneScale(sp: Splitter, child: Node, level: nat, from: nat, st: State)
    requires sp.Valid() && child.Valid(sp.text)
    requires LastEnd(st.chunks) <= from <= child.start
    ensures var gap := Gap(sp, from, child.start, level, st);
            var r := Treed(sp, child, level + 1, gap);
            && (|gap.chunks| > |st.chunks| ==> gap.minLevel == level + 1)
            && (|r.chunks| > |gap.chunks| ==>
                  && level + 1 <= r.minLevel
                  && (r.minLevel == level + 1 <==> IsLeaf(sp, child)))
  {
    GapLeaves(sp, from, child.start, level, st);
    TreedLeaves(sp, child, level + 1, Gap(sp, from, child.start, level, st));
  }

  /** A leaf of one visible byte. */
  lemma LetterIsAdded(sp: Splitter, leaf: Node, level: nat, st: State)
    requires sp.Valid() && leaf.Valid(sp.text) && LastEnd(st.chunks) <= leaf.start
    requires leaf.end == leaf.start + 1 && 1 <= sp.minAtom && !sp.text[leaf.start].space
    ensures var r := Treed(sp, leaf, level, st);
      && |r.chunks| == |st.chunks| + 1 && st.chunks == r.chunks[..|st.chunks|]
      && r.chunks[|st.chunks|].boundarySyntax == st.minLevel && r.minLevel == level
  {
    assert TrimEnd(sp.text, leaf.start, leaf.end) == leaf.end;
  }

  /** The children of a node with two adjacent children that fill it. */
  lemma TwoChildren(sp: Splitter, node: Node, level: nat, st: State)
    requires sp.Valid() && node.Valid(sp.text) && LastEnd(st.chunks) <= node.start
    requires !IsLeaf(sp, node) && |node.children| == 2
    requires node.start == node.children[0].start && node.children[1].end == node.end
    requires node.children[0].end == node.children[1].start
    ensures node.children[0].Valid(sp.text) && node.children[1].Valid(sp.text)
    ensures Treed(sp, node, level, st)
         == Treed(sp, node.children[1], level + 1, Treed(sp, node.children[0], level + 1, st))
  {
    var a, b := node.children[0], node.children[1];
    var mid := Treed(sp, a, level + 1, st);
    var end := Treed(sp, b, level + 1, mid);
    assert a.Valid(sp.text) && b.Valid(sp.text);
    assert TreedFrom(sp, node, 2, node.end, level, end) == end;
    assert TreedFrom(sp, node, 1, a.end, level, mid) == end;
  }

  function ThreeLetters(): Node {
    Node(0, 3, false, [Node(0, 2, false, [Node(0, 1, false, []), Node(1, 2, false, [])]), Node(2, 3, false, [])])
  }

  lemma ThreeLettersAreATree()
    ensures var letter := Byte('a' as nat, true, false);
      var sp := Splitter([letter, letter, letter], [], 1);
      sp.Valid() && ThreeLetters().Valid(sp.text)
  {
    var letter := Byte('a' as nat, true, false);
    var t := [letter, letter, letter];
    var inner := ThreeLetters().children[0];
    assert inner.children[0].Valid(t) && inner.children[1].Valid(t) && ThreeLetters().children[1].Valid(t);
    assert inner.Valid(t);
  }

  /** Three letters in a tree: the boundary between the siblings `ab` and `c` counts as
    * deep as the one inside `ab`, because `ab` is no leaf. */
  lemma InnerSiblingLeavesADeeperLevel(sp: Splitter, root: Node)
    requires sp.Valid() && root.Valid(sp.text) && root == ThreeLetters() && sp.minAtom == 1
    requires |sp.text| == 3 && forall k :: 0 <= k < 3 ==> !sp.text[k].space
    ensures var atoms := Treed(sp, root, 0, State(0, 0, [])).chunks;
      |atoms| == 3 && atoms[1].boundarySyntax == 2 && atoms[2].boundarySyntax == 2
  {
    var none := State(0, 0, []);
    var inner, c := root.children[0], root.children[1];
    TwoChildren(sp, root, 0, none);
    TwoChildren(sp, inner, 1, none);
    LetterIsAdded(sp, inner.children[0], 2, none);
    var one := Treed(sp, inner.children[0], 2, none);
    LetterIsAdded(sp, inner.children[1], 2, one);
    var two := Treed(sp, inner.children[1], 2, one);
    LetterIsAdded(sp, c, 1, two);
    assert Treed(sp, c, 1, two).chunks[..2] == two.chunks;
  }

  /** A sibling without children that is too long for one atom leaves a deeper level
    * even if no separator cuts it. */
  lemma LongSiblingLeavesADeeperLevel(sp: Splitter, child: Node, level: nat, st: State)
    requires sp.Valid() && child.Valid(sp.text) && LastEnd(st.chunks) <= child.start
    requires child.children == [] && !IsLeaf(sp, child)
    ensures var r := Treed(sp, child, level + 1, st); |r.chunks| > |st.chunks| ==> r.minLevel == level + 2
  {
    RangedLeaves(sp, child.start, child.end, level + 1, 0, st);
  }
}
