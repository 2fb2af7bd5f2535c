/** Line arithmetic: the one-shot scan and the precomputed line index. */
module Lines {
  import opened Text
  import opened Wrappers

  /** Line k (0-based) of `t` starts at `s`: at the start of the text or right after the k-th line feed. */
  predicate IsLineStart(t: seq<Byte>, k: nat, s: nat) {
    && s <= |t| && Newlines(t, s) == k
    && if k == 0 then s == 0 else 0 < s && t[s - 1].code == NL
  }

  /** `LineIndex`: built once, then queried. */
  datatype LineIndex = LineIndex(lineStarts: seq<nat>, len: nat) {
    /** The index lists the start of every line of `src`; a final line feed opens one more, empty line. */
    ghost predicate For(src: seq<Byte>) {
      && len == |src| && |lineStarts| == 1 + Newlines(src, |src|)
      && forall k :: 0 <= k < |lineStarts| ==> IsLineStart(src, k, lineStarts[k])
    }

    function ByteRange(startLine: nat, endLine: nat): (nat, nat) {
      if startLine == 0 || endLine < startLine then (0, 0)
      else
        var start := if startLine - 1 < |lineStarts| then lineStarts[startLine - 1] else len;
        var end :=
          if endLine < |lineStarts| then
            if lineStarts[endLine] == 0 then 0 else lineStarts[endLine] - 1
          else len;
        if start > end then (start, start) else (start, end)
    }

    /** Where the k-th line (0-based) ends: at its line feed, or at the end of the text. */
    function End(k: nat): int {
      if k + 1 < |lineStarts| then lineStarts[k + 1] - 1 else len
    }
  }

  method NewLineIndex(src: seq<Byte>) returns (index: LineIndex)
    ensures index.For(src)
  {
    var starts: seq<nat> := [0];
    for i := 0 to |src|
      invariant |starts| == 1 + Newlines(src, i)
      invariant forall k :: 0 <= k < |starts| ==> IsLineStart(src, k, starts[k])
    {
      if src[i].code == NL {
        starts := starts + [i + 1];
      }
    }
    index := LineIndex(starts, |src|);
  }

  /** Line k has started by offset `p` iff there are k line feeds before `p`. */
  lemma {:induction false} StartedIff(src: seq<Byte>, k: nat, s: nat, p: nat)
    requires IsLineStart(src, k, s) && p <= |src|
    ensures s <= p <==> k <= Newlines(src, p)
  {
    if s <= p {
      NewlinesMonotone(src, s, p);
    } else {
      NewlinesMonotone(src, p, s - 1);
    }
  }

  /** The fast index and the single-pass scan agree on every source and range. */
  method LineByteRange(src: seq<Byte>, startLine: nat, endLine: nat, ghost index: LineIndex) returns (lo: nat, hi: nat)
    requires index.For(src)
    ensures (lo, hi) == index.ByteRange(startLine, endLine)
  {
    if startLine == 0 || endLine < startLine {
      return 0, 0;
    }
    var startTarget, endTarget := startLine - 1, endLine;
    var line := 0;
    var startByte: Option<nat> := None;
    var endByte := |src|;
    if startTarget == 0 {
      startByte := Some(0);
    }
    assert IsLineStart(src, 0, index.lineStarts[0]);
    var i := 0;
    while i < |src|
      invariant i <= |src|
      invariant line == Newlines(src, i) < endTarget && line < |index.lineStarts|
      invariant startByte == if startTarget <= line then Some(index.lineStarts[startTarget]) else None
      invariant endByte == |src|
    {
      NewlinesMonotone(src, i + 1, |src|);
      if src[i].code == NL {
        line := line + 1;
        StartedIff(src, line, index.lineStarts[line], i);
        StartedIff(src, line, index.lineStarts[line], i + 1);
        if startByte.None? && line == startTarget {
          startByte := Some(i + 1);
        }
        if line == endTarget {
          endByte := i;
          break;
        }
      }
      i := i + 1;
    }
    var start := if startByte.Some? then startByte.value else |src|;
    if start > endByte {
      return start, start;
    }
    return start, endByte;
  }

  lemma {:induction false} LineEndMeaning(src: seq<Byte>, index: LineIndex, k: nat)
    requires index.For(src) && k < |index.lineStarts|
    ensures index.lineStarts[k] <= index.End(k) <= |src|
    ensures Newlines(src, index.End(k)) == k
  {
    StartedIff(src, k, index.lineStarts[k], index.End(k));
  }

  /** A range of existing lines runs from the start of the first to the end of the last. */
  lemma ByteRangeForm(src: seq<Byte>, index: LineIndex, startLine: nat, endLine: nat)
    requires index.For(src) && 1 <= startLine <= endLine
    ensures var n := |index.lineStarts|;
            index.ByteRange(startLine, endLine) ==
              if startLine <= n
              then (index.lineStarts[startLine - 1], index.End((if endLine < n then endLine else n) - 1))
              else (|src|, |src|)
  {
    var n := |index.lineStarts|;
    if startLine <= n {
      var last := (if endLine < n then endLine else n) - 1;
      LineEndMeaning(src, index, last);
      StartedIff(src, startLine - 1, index.lineStarts[startLine - 1], index.End(last));
    }
  }

  /** What the range means: exactly the bytes of the requested lines, without
    * the line feed that closes the last of them. */
  lemma ByteRangeMeaning(src: seq<Byte>, index: LineIndex, startLine: nat, endLine: nat, p: nat)
    requires index.For(src) && 1 <= startLine <= endLine && p < |src|
    ensures var (lo, hi) := index.ByteRange(startLine, endLine);
            && lo <= hi <= |src|
            && (lo <= p < hi <==>
                startLine <= LineOf(src, p) <= endLine && !(LineOf(src, p) == endLine && src[p].code == NL))
  {
    var n := |index.lineStarts|;
    NewlinesMonotone(src, p + 1, |src|);
    ByteRangeForm(src, index, startLine, endLine);
    if startLine <= n {
      var last := (if endLine < n then endLine else n) - 1;
      LineEndMeaning(src, index, last);
      StartedIff(src, startLine - 1, index.lineStarts[startLine - 1], p);
      StartedIff(src, startLine - 1, index.lineStarts[startLine - 1], index.End(last));
      if last + 1 < n {
        StartedIff(src, last + 1, index.lineStarts[last + 1], p + 1);
      }
    }
  }
}
