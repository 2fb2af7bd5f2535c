/** Chunks cut along symbols, and the absolute lines of their sub-chunks. */
module SymbolChunks {
  import opened Text
  import opened Wrappers
  import opened Lines
  import Atoms
  import Chunker

  // ---------- doc-comment lines ----------

  predicate StartsWith(t: seq<Byte>, codes: seq<nat>) {
    |codes| <= |t| && forall k :: 0 <= k < |codes| ==> t[k].code == codes[k]
  }

  const SLASH := 0x2F
  const BANG := 0x21
  const STAR := 0x2A
  const HASH := 0x23
  const BRACKET := 0x5B
  const AT := 0x40

  predicate LooksLikeDocOrAttr(t: seq<Byte>) {
    || StartsWith(t, [SLASH, SLASH, SLASH])
    || StartsWith(t, [SLASH, SLASH, BANG])
    || StartsWith(t, [SLASH, STAR, STAR])
    || StartsWith(t, [STAR, SLASH])
    || StartsWith(t, [STAR])
    || StartsWith(t, [HASH, BRACKET])
    || StartsWith(t, [AT])
  }

  predicate IsDocLine(line: seq<Byte>) {
    LooksLikeDocOrAttr(line[Atoms.TrimStart(line, 0, |line|)..])
  }

  /** The text goes on with these characters. */
  predicate Begins(t: seq<Byte>, s: string) {
    |s| <= |t| && forall k :: 0 <= k < |s| ==> t[k].code == s[k] as int
  }

  /** A line belongs to a doc block if and only if, behind its leading white space, it
    * starts a doc comment, goes on with one, or starts an attribute. */
  lemma DocLineBegins(line: seq<Byte>, i: nat)
    requires i <= |line| && (forall k :: 0 <= k < i ==> line[k].space) && (i < |line| ==> !line[i].space)
    ensures IsDocLine(line)
       <==> (|| Begins(line[i..], "///") || Begins(line[i..], "//!") || Begins(line[i..], "/**")
             || Begins(line[i..], "*") || Begins(line[i..], "#[") || Begins(line[i..], "@"))
  {
    assert Atoms.TrimStart(line, 0, |line|) == i;
  }

  /** The k-th line (0-based) exists and belongs to a doc block. */
  ghost predicate DocAt(src: seq<Byte>, index: LineIndex, k: nat)
    requires index.For(src)
  {
    k < |index.lineStarts| &&
    (LineEndMeaning(src, index, k);
     IsDocLine(src[index.lineStarts[k]..index.End(k)]))
  }

  /** The start of the last line of `src[..hi]`. */
  method LastLineStart(src: seq<Byte>, hi: nat, ghost index: LineIndex, ghost k: nat) returns (lo: nat)
    requires index.For(src) && k < |index.lineStarts| && index.End(k) == hi <= |src|
    ensures lo == index.lineStarts[k] <= hi
  {
    LineEndMeaning(src, index, k);
    ghost var s := index.lineStarts[k];
    assert IsLineStart(src, k, s);
    lo := hi;
    while 0 < lo && src[lo - 1].code != NL
      invariant s <= lo <= hi
    {
      lo := lo - 1;
    }
    if s < lo {
      NewlinesMonotone(src, lo, hi);
      NewlinesMonotone(src, s, lo - 1);
    }
  }

  /** One step of the walk: look at the last line of `src[..hi]`. */
  method DocLineEndingAt(src: seq<Byte>, hi: nat, ghost index: LineIndex, ghost k: nat) returns (isDoc: bool, lo: nat)
    requires index.For(src) && k < |index.lineStarts| && index.End(k) == hi <= |src|
    ensures isDoc == DocAt(src, index, k)
    ensures lo == 0 <==> k == 0
    ensures 0 < k ==> 0 < lo <= |src| && lo - 1 == index.End(k - 1)
  {
    lo := LastLineStart(src, hi, index, k);
    assert IsLineStart(src, k, index.lineStarts[k]);
    isDoc := IsDocLine(src[lo..hi]);
  }

  /** The number of lines before `symLine` that the walk can see. */
  function LinesAbove(index: LineIndex, symLine: nat): nat
    requires 1 < symLine
  {
    if symLine - 1 < |index.lineStarts| then symLine - 1 else |index.lineStarts|
  }

  /** Lines lo to hi all belong to doc blocks. */
  ghost predicate DocLines(src: seq<Byte>, index: LineIndex, lo: int, hi: int)
    requires index.For(src)
  {
    forall k: nat {:trigger DocAt(src, index, k)} :: lo <= k < hi ==> DocAt(src, index, k)
  }

  /** `docLine` is the first line of the maximal doc block that ends right above the symbol. */
  ghost predicate IsDocStart(src: seq<Byte>, index: LineIndex, symLine: nat, docLine: nat)
    requires index.For(src)
  {
    if symLine <= 1 then docLine == symLine
    else
      docLine <= symLine && MaximalDocs(src, index, LinesAbove(index, symLine), symLine - docLine)
  }

  /** The last `back` of the first `above` lines are doc lines, and the one before them is not. */
  ghost predicate MaximalDocs(src: seq<Byte>, index: LineIndex, above: nat, back: nat)
    requires index.For(src)
  {
    && back <= above && DocLines(src, index, above - back, above)
    && (back < above ==> !DocAt(src, index, above - back - 1))
  }

  /** The backward scan over the lines of `src[..end]`. */
  method CountDocLines(src: seq<Byte>, end: nat, ghost index: LineIndex, ghost above: nat) returns (back: nat)
    requires index.For(src) && 0 < above <= |index.lineStarts| && end == index.End(above - 1) <= |src|
    ensures MaximalDocs(src, index, above, back)
  {
    back := 0;
    var hi := end;
    var more := true;
    while more
      invariant back <= above && DocLines(src, index, above - back, above)
      invariant more ==> back < above && hi == index.End(above - 1 - back) <= |src|
      invariant !more ==> MaximalDocs(src, index, above, back)
      decreases above - back, more
    {
      var isDoc, lo := DocLineEndingAt(src, hi, index, above - 1 - back);
      if isDoc {
        back := back + 1;
        if lo == 0 {
          more := false;
        } else {
          hi := lo - 1;
        }
      } else {
        more := false;
      }
    }
  }

  /** Walks back over contiguous doc-comment and attribute lines. */
  method FindDocStartLine(src: seq<Byte>, symLine: nat, index: LineIndex) returns (docLine: nat)
    requires index.For(src)
    ensures IsDocStart(src, index, symLine, docLine)
  {
    if symLine <= 1 {
      return symLine;
    }
    var range := index.ByteRange(1, symLine - 1);
    ByteRangeForm(src, index, 1, symLine - 1);
    ghost var above := LinesAbove(index, symLine);
    LineEndMeaning(src, index, above - 1);
    var back := CountDocLines(src, range.1, index, above);
    docLine := symLine - back;
  }

  // ---------- symbol chunks ----------

  datatype Symbol = Symbol(line: nat, endLine: nat, hasDoc: bool)

  datatype Chunk = Chunk(startLine: nat, endLine: nat, body: seq<Byte>)

  /** Where a chunk's body lies in its source file. */
  ghost predicate ChunkAt(src: seq<Byte>, chunk: Chunk, lo: nat) {
    && lo + |chunk.body| <= |src| && chunk.body == src[lo..lo + |chunk.body|]
    && chunk.startLine == LineOf(src, lo)
  }

  /** `make_chunk`: the symbol's lines, with its doc block; nothing for an empty range. */
  method MakeChunk(src: seq<Byte>, sym: Symbol, index: LineIndex)
    returns (chunk: Option<Chunk>, ghost docLine: nat, ghost lo: nat)
    requires index.For(src)
    ensures sym.line == 0 || sym.endLine < sym.line ==> chunk.None?
    ensures 1 <= sym.line <= sym.endLine ==>
      && (if sym.hasDoc then IsDocStart(src, index, sym.line, docLine) else docLine == sym.line)
      && (chunk.None? <==> index.ByteRange(docLine, sym.endLine).0 == index.ByteRange(docLine, sym.endLine).1)
    ensures chunk.Some? ==>
      && chunk.value.startLine == docLine && chunk.value.endLine == sym.endLine
      && (lo, lo + |chunk.value.body|) == index.ByteRange(docLine, sym.endLine)
      && ChunkAt(src, chunk.value, lo)
  {
    lo, docLine := 0, sym.line;
    if sym.line == 0 || sym.endLine < sym.line {
      return None, docLine, lo;
    }
    var docStart := sym.line;
    if sym.hasDoc {
      docStart := FindDocStartLine(src, sym.line, index);
    }
    docLine := docStart;
    var range := index.ByteRange(docStart, sym.endLine);
    if range.0 == range.1 {
      return None, docLine, lo;
    }
    RangeStartsLine(src, index, docStart, sym.endLine);
    lo := range.0;
    chunk := Some(Chunk(docStart, sym.endLine, src[range.0..range.1]));
  }

  /** A non-empty line range starts at the start of its first line. */
  lemma RangeStartsLine(src: seq<Byte>, index: LineIndex, first: nat, last: nat)
    requires index.For(src) && 1 <= first <= last
    requires index.ByteRange(first, last).0 != index.ByteRange(first, last).1
    ensures var (lo, hi) := index.ByteRange(first, last); lo < hi <= |src| && LineOf(src, lo) == first
  {
    ByteRangeForm(src, index, first, last);
    assert IsLineStart(src, first - 1, index.lineStarts[first - 1]);
    LineEndMeaning(src, index, (if last < |index.lineStarts| then last else |index.lineStarts|) - 1);
  }

  /** `chunk_text_file`: the whole file as one chunk. */
  function ChunkTextFile(content: seq<Byte>): Chunk {
    Chunk(1, if |content| == 0 then 1 else Newlines(content, |content|) + 1, content)
  }

  /** A whole-file chunk is the file from line 1 on; it ends on the line of its last
    * byte, or one further exactly if that byte is a line feed. */
  lemma TextFileAt(content: seq<Byte>)
    ensures ChunkAt(content, ChunkTextFile(content), 0)
    ensures ChunkTextFile(content).endLine == LineOf(content, |content|)
    ensures 0 < |content| ==>
      ChunkTextFile(content).endLine
      == LineOf(content, |content| - 1) + if content[|content| - 1].code == NL then 1 else 0
  {
    assert content[0..|content|] == content;
  }

  // ---------- absolute lines of sub-chunks ----------

  /** `generate_sub_chunks`: the part of the chunk a sub-chunk covers, on absolute lines. */
  function SubChunkOf(chunk: Chunk, sub: Chunker.SubChunk): Chunk
    requires 1 <= chunk.startLine && 1 <= sub.startLine && 1 <= sub.endLine
    requires sub.byteStart <= sub.byteEnd <= |chunk.body|
  {
    Chunk(chunk.startLine + sub.startLine - 1, chunk.startLine + sub.endLine - 1,
          chunk.body[sub.byteStart..sub.byteEnd])
  }

  lemma SliceOfSlice(src: seq<Byte>, lo: nat, n: nat, a: nat, b: nat)
    requires lo + n <= |src| && a <= b <= n
    ensures src[lo..lo + n][a..b] == src[lo + a..lo + b]
  {
    var part := src[lo..lo + n];
    forall k | 0 <= k < b - a
      ensures part[a..b][k] == src[lo + a..lo + b][k]
    {
      assert part[a + k] == src[lo + a + k];
    }
    assert part[a..b] == src[lo + a..lo + b];
  }

  /** Lines counted inside the body are lines of the file, shifted. */
  lemma LineInBody(src: seq<Byte>, chunk: Chunk, lo: nat, p: nat)
    requires ChunkAt(src, chunk, lo) && p <= |chunk.body|
    ensures LineOf(src, lo + p) == chunk.startLine + LineOf(chunk.body, p) - 1
  {
    NewlinesInPart(src, chunk.body, lo, p);
  }

  /** A sub-chunk's absolute lines are the lines, in the source file, of its first and last byte. */
  lemma SubChunkLines(src: seq<Byte>, chunk: Chunk, lo: nat, chunkSize: nat, atoms: seq<Atoms.Atom>,
                      sub: Chunker.SubChunk)
    requires ChunkAt(src, chunk, lo) && Chunker.GoodChunk(chunk.body, chunkSize, atoms, sub)
    ensures var s := SubChunkOf(chunk, sub);
            && s.startLine == LineOf(src, lo + sub.byteStart)
            && s.endLine == LineOf(src, lo + sub.byteEnd - 1)
            && s.body == src[lo + sub.byteStart..lo + sub.byteEnd]
  {
    LineInBody(src, chunk, lo, sub.byteStart);
    LineInBody(src, chunk, lo, sub.byteEnd - 1);
    SliceOfSlice(src, lo, |chunk.body|, sub.byteStart, sub.byteEnd);
  }
}
