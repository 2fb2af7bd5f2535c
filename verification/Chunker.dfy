/** The recursive chunker end to end: atoms, merge, line numbers. */
module Chunker {
  import opened Text
  import opened Wrappers
  import opened Atoms
  import AtomLaws
  import opened Merge
  import MergeCosts
  import MergeLaws
  import opened Positions

  datatype SubChunk = SubChunk(byteStart: nat, byteEnd: nat, startLine: nat, endLine: nat)

  datatype ChunkConfig = ChunkConfig(chunkSize: nat, minChunkSize: nat, chunkOverlap: nat)

  function MinAtomSize(overlap: nat, minChunk: nat): nat {
    if overlap > 0 then overlap else minChunk
  }

  // ---------- what a chunking guarantees ----------

  ghost predicate IsAtom(atoms: seq<Atom>, s: SubChunk) {
    exists a :: 0 <= a < |atoms| && atoms[a].start == s.byteStart && atoms[a].end == s.byteEnd
  }

  /** A non-empty span ending in a visible character, within the size limit or
    * one atom, carrying the lines of its first and last byte. */
  ghost predicate GoodChunk(t: seq<Byte>, chunkSize: nat, atoms: seq<Atom>, s: SubChunk) {
    && s.byteStart < s.byteEnd <= |t| && !t[s.byteEnd - 1].space
    && Boundary(t, s.byteStart) && Boundary(t, s.byteEnd)
    && (s.byteEnd - s.byteStart <= chunkSize || IsAtom(atoms, s))
    && s.startLine == LineOf(t, s.byteStart)
    && s.endLine == LineOf(t, s.byteEnd - 1)
  }

  ghost predicate InChunk(out: seq<SubChunk>, p: nat) {
    exists j :: 0 <= j < |out| && out[j].byteStart <= p < out[j].byteEnd
  }

  /** Chunk j + 1 ends later than chunk j and shares at most `overlap` bytes with it. */
  predicate Follows(out: seq<SubChunk>, overlap: nat, j: nat)
    requires 0 < j < |out|
  {
    && out[j - 1].byteEnd < out[j].byteEnd
    && out[j - 1].byteEnd - out[j].byteStart <= overlap
  }

  ghost predicate GoodChunking(t: seq<Byte>, seps: set<nat>, c: Config, atoms: seq<Atom>, out: seq<SubChunk>) {
    && (forall j :: 0 <= j < |out| ==> GoodChunk(t, c.chunkSize, atoms, out[j]))
    && (forall j {:trigger Follows(out, c.overlap, j)} :: 0 < j < |out| ==> Follows(out, c.overlap, j))
    && forall p: nat {:trigger InChunk(out, p)} ::
         p < |t| ==> t[p].space || p in seps || InChunk(out, p)
  }

  // ---------- positions ----------

  /** Spans on character boundaries of `t`. */
  predicate OnBoundaries(t: seq<Byte>, spans: seq<(nat, nat)>) {
    forall j :: 0 <= j < |spans| ==>
      spans[j].0 <= |t| && spans[j].1 <= |t| && Boundary(t, spans[j].0) && Boundary(t, spans[j].1)
  }

  /** The `BytePos` pairs made for the spans, starts before ends. */
  ghost predicate Paired(spans: seq<(nat, nat)>, all: seq<BytePos>) {
    && |all| == 2 * |spans|
    && forall j :: 0 <= j < |spans| ==>
         all[j].byteOffset == spans[j].0 && all[|spans| + j].byteOffset == spans[j].1
  }

  method MakePositions(spans: seq<(nat, nat)>) returns (all: seq<BytePos>)
    ensures Paired(spans, all) && fresh(set p | p in all)
  {
    var starts: seq<BytePos>, ends: seq<BytePos> := [], [];
    for j := 0 to |spans|
      invariant |starts| == |ends| == j
      invariant fresh(set p | p in starts) && fresh(set p | p in ends)
      invariant forall k :: 0 <= k < j ==> starts[k].byteOffset == spans[k].0
      invariant forall k :: 0 <= k < j ==> ends[k].byteOffset == spans[k].1
    {
      var s := new BytePos(spans[j].0);
      var e := new BytePos(spans[j].1);
      starts, ends := starts + [s], ends + [e];
    }
    all := starts + ends;
  }

  lemma PairedOnBoundaries(t: seq<Byte>, spans: seq<(nat, nat)>, all: seq<BytePos>)
    requires OnBoundaries(t, spans) && Paired(spans, all)
    ensures forall q :: q in Offsets(all) ==> Boundary(t, q)
  {
    forall q | q in Offsets(all)
      ensures Boundary(t, q)
    {
      var p :| p in all && p.byteOffset == q;
      var k :| 0 <= k < |all| && all[k] == p;
      var j := if k < |spans| then k else k - |spans|;
      assert all[j].byteOffset == spans[j].0 && all[|spans| + j].byteOffset == spans[j].1;
    }
  }

  function LinesOf(t: seq<Byte>, s: (nat, nat)): SubChunk
    requires s.0 <= |t| && s.1 <= |t|
  {
    SubChunk(s.0, s.1, LineOf(t, s.0), LineOf(t, s.1))
  }

  function LineOr1(p: Option<nat>): nat {
    match p
    case Some(line) => line
    case None => 1
  }

  /** The line numbers `finish_chunks` attaches to byte spans. */
  method Located(t: seq<Byte>, spans: seq<(nat, nat)>) returns (out: seq<SubChunk>)
    requires Utf8(t) && OnBoundaries(t, spans)
    ensures |out| == |spans| && forall j :: 0 <= j < |spans| ==> out[j] == LinesOf(t, spans[j])
  {
    var all := MakePositions(spans);
    ComputePositions(t, all);
    PairedOnBoundaries(t, spans, all);
    forall j | 0 <= j < |all|
      ensures all[j].byteOffset <= |t| && all[j].output == Some(LineOf(t, all[j].byteOffset))
    {
      assert all[j] in all && all[j].byteOffset in Offsets(all);
      LineWrittenOnBoundaries(t, Offsets(all), all[j].byteOffset);
    }
    out := [];
    for j := 0 to |spans|
      invariant |out| == j
      invariant forall k :: 0 <= k < j ==> out[k] == LinesOf(t, spans[k])
    {
      var s, e := all[j], all[|spans| + j];
      out := out + [SubChunk(s.byteOffset, e.byteOffset, LineOr1(s.output), LineOr1(e.output))];
    }
  }

  // ---------- assembling the chunks ----------

  lemma SealedIsOrdered(t: seq<Byte>, chunks: seq<Atom>)
    requires AtomLaws.Tidy(t, chunks)
    ensures Ordered(Sealed(t, chunks), |t|)
  {
  }

  /** The bytes of atoms r.0 to r.1 - 1. */
  function AtomBytes(chunks: seq<Atom>, r: (nat, nat)): (nat, nat)
    requires r.0 < r.1 <= |chunks|
  {
    (chunks[r.0].start, chunks[r.1 - 1].end)
  }

  /** Chunk j spans the atoms of chain[j]. */
  ghost predicate Spanned(chunks: seq<Atom>, chain: seq<(nat, nat)>, out: seq<SubChunk>) {
    && |out| == |chain|
    && forall j :: 0 <= j < |chain| ==>
         && chain[j].0 < chain[j].1 <= |chunks|
         && (out[j].byteStart, out[j].byteEnd) == AtomBytes(chunks, chain[j])
  }

  /** Each chunk carries the lines of its two ends. */
  ghost predicate Lined(t: seq<Byte>, out: seq<SubChunk>) {
    forall j :: 0 <= j < |out| ==>
      out[j].byteStart <= |t| && out[j].byteEnd <= |t| && out[j] == LinesOf(t, (out[j].byteStart, out[j].byteEnd))
  }

  /** Bytes of atoms b within a..c lie within the bytes of a..c. */
  lemma TidyOrder(t: seq<Byte>, chunks: seq<Atom>, a: nat, b: nat)
    requires AtomLaws.Tidy(t, chunks) && a <= b < |chunks|
    ensures chunks[a].start <= chunks[b].start && chunks[a].end <= chunks[b].end <= |t|
    ensures a < b ==> chunks[a].end < chunks[b].end
  {
  }

  /** One chunk of a good chain is a good chunk. */
  lemma ChunkIsGood(t: seq<Byte>, c: Config, chunks: seq<Atom>, r: (nat, nat))
    requires AtomLaws.Tidy(t, chunks) && Utf8(t)
    requires r.0 < r.1 <= |chunks| && Fits(c, Sealed(t, chunks), r.0, r.1 - 1)
    requires AtomBytes(chunks, r).0 <= |t| && AtomBytes(chunks, r).1 <= |t|
    ensures GoodChunk(t, c.chunkSize, Sealed(t, chunks), LinesOf(t, AtomBytes(chunks, r)))
  {
    var atoms := Sealed(t, chunks);
    var s := LinesOf(t, AtomBytes(chunks, r));
    assert atoms[r.0] == chunks[r.0] && atoms[r.1 - 1] == chunks[r.1 - 1];
    TidyOrder(t, chunks, r.0, r.1 - 1);
  }

  lemma ChunksFollow(t: seq<Byte>, c: Config, chunks: seq<Atom>, chain: seq<(nat, nat)>, out: seq<SubChunk>, j: nat)
    requires AtomLaws.Tidy(t, chunks) && Spanned(chunks, chain, out)
    requires MergeLaws.GoodChain(c, Sealed(t, chunks), chain, |chunks|)
    requires 0 < j < |out|
    ensures Follows(out, c.overlap, j)
  {
    var atoms := Sealed(t, chunks);
    assert MergeLaws.Joined(c, atoms, chain, j);
    assert atoms[chain[j].0] == chunks[chain[j].0] && atoms[chain[j - 1].1 - 1] == chunks[chain[j - 1].1 - 1];
    TidyOrder(t, chunks, chain[j - 1].1 - 1, chain[j].1 - 1);
  }

  /** A byte of atom a lies in every chunk whose atoms include a. */
  lemma AtomInSpan(t: seq<Byte>, chunks: seq<Atom>, r: (nat, nat), a: nat, p: nat)
    requires AtomLaws.Tidy(t, chunks) && r.0 <= a < r.1 <= |chunks|
    requires chunks[a].start <= p < chunks[a].end
    ensures AtomBytes(chunks, r).0 <= p < AtomBytes(chunks, r).1
  {
    TidyOrder(t, chunks, r.0, a);
    TidyOrder(t, chunks, a, r.1 - 1);
  }

  lemma ChunksCover(t: seq<Byte>, c: Config, chunks: seq<Atom>, chain: seq<(nat, nat)>, out: seq<SubChunk>, p: nat)
    requires AtomLaws.Tidy(t, chunks) && Spanned(chunks, chain, out)
    requires MergeLaws.GoodChain(c, Sealed(t, chunks), chain, |chunks|)
    requires AtomLaws.InAtom(chunks, p)
    ensures InChunk(out, p)
  {
    var a :| 0 <= a < |chunks| && chunks[a].start <= p < chunks[a].end;
    var j := MergeLaws.ChainCovers(c, Sealed(t, chunks), chain, |chunks|, a);
    AtomInSpan(t, chunks, chain[j], a, p);
    assert out[j].byteStart <= p < out[j].byteEnd;
  }

  lemma ChainedChunksAreGood(t: seq<Byte>, seps: set<nat>, c: Config, chunks: seq<Atom>, chain: seq<(nat, nat)>,
                             out: seq<SubChunk>)
    requires Utf8(t) && AtomLaws.Collected(t, seps, chunks, |t|)
    requires Spanned(chunks, chain, out) && Lined(t, out)
    requires MergeLaws.GoodChain(c, Sealed(t, chunks), chain, |chunks|)
    ensures GoodChunking(t, seps, c, Sealed(t, chunks), out)
  {
    forall j | 0 <= j < |out|
      ensures GoodChunk(t, c.chunkSize, Sealed(t, chunks), out[j])
    {
      ChunkIsGood(t, c, chunks, chain[j]);
    }
    forall j | 0 < j < |out|
      ensures Follows(out, c.overlap, j)
    {
      ChunksFollow(t, c, chunks, chain, out, j);
    }
    forall p: nat {:trigger InChunk(out, p)} | p < |t|
      ensures t[p].space || p in seps || InChunk(out, p)
    {
      if AtomLaws.InAtom(chunks, p) {
        ChunksCover(t, c, chunks, chain, out, p);
      }
    }
  }

  lemma SpansAreChained(t: seq<Byte>, c: Config, chunks: seq<Atom>, chain: seq<(nat, nat)>, raw: seq<(nat, nat)>)
    requires AtomLaws.Tidy(t, chunks) && MergeLaws.GoodChain(c, Sealed(t, chunks), chain, |chunks|)
    requires raw == Bytes(Sealed(t, chunks), chain)
    ensures OnBoundaries(t, raw)
    ensures forall j :: 0 <= j < |chain| ==> SpanIsChained(chunks, chain, raw, j)
  {
    forall j | 0 <= j < |chain|
      ensures SpanIsChained(chunks, chain, raw, j)
    {
      SpanOfAtoms(t, chunks, chain[j]);
    }
    forall j | 0 <= j < |raw|
      ensures raw[j].0 <= |t| && raw[j].1 <= |t| && Boundary(t, raw[j].0) && Boundary(t, raw[j].1)
    {
      assert SpanIsChained(chunks, chain, raw, j);
    }
  }

  ghost predicate SpanIsChained(chunks: seq<Atom>, chain: seq<(nat, nat)>, raw: seq<(nat, nat)>, j: nat)
    requires j < |chain|
  {
    |raw| == |chain| && chain[j].0 < chain[j].1 <= |chunks| && raw[j] == AtomBytes(chunks, chain[j])
  }

  /** The closing sentinel is in no chunk. */
  lemma SpanOfAtoms(t: seq<Byte>, chunks: seq<Atom>, r: (nat, nat))
    requires r.0 < r.1 <= |chunks|
    ensures Sealed(t, chunks)[r.0] == chunks[r.0] && Sealed(t, chunks)[r.1 - 1] == chunks[r.1 - 1]
  {
  }

  /** Everything the finished chunks promise, from their spans. */
  lemma FinishedIsGood(t: seq<Byte>, seps: set<nat>, c: Config, chunks: seq<Atom>, chain: seq<(nat, nat)>,
                       raw: seq<(nat, nat)>, out: seq<SubChunk>)
    requires Utf8(t) && AtomLaws.Collected(t, seps, chunks, |t|)
    requires MergeLaws.GoodChain(c, Sealed(t, chunks), chain, |chunks|)
    requires raw == Bytes(Sealed(t, chunks), chain) && OnBoundaries(t, raw)
    requires |out| == |raw| && forall j :: 0 <= j < |raw| ==> out[j] == LinesOf(t, raw[j])
    ensures Spanned(chunks, chain, out) && GoodChunking(t, seps, c, Sealed(t, chunks), out)
  {
    SpansAreChained(t, c, chunks, chain, raw);
    forall j | 0 <= j < |chain|
      ensures chain[j].0 < chain[j].1 <= |chunks| && (out[j].byteStart, out[j].byteEnd) == AtomBytes(chunks, chain[j])
    {
      assert SpanIsChained(chunks, chain, raw, j);
    }
    ChainedChunksAreGood(t, seps, c, chunks, chain, out);
  }

  /** Without overlap, `chain` cuts the first k atoms, and no other cut of them costs less. */
  ghost predicate Cheapest(c: Config, atoms: seq<Atom>, chain: seq<(nat, nat)>, k: nat)
    requires k < |atoms|
  {
    c.overlap == 0 ==>
      && MergeLaws.IsCut(c, atoms, chain, k)
      && forall cut {:trigger MergeLaws.IsCut(c, atoms, cut, k)} :: NotDearer(c, atoms, chain, cut, k)
  }

  /** `cut` is no cut of the first k atoms, or its charges, read off the atoms, add
    * up to no less than those of `chain`. */
  ghost predicate NotDearer(c: Config, atoms: seq<Atom>, chain: seq<(nat, nat)>, cut: seq<(nat, nat)>, k: nat)
    requires k < |atoms|
  {
    MergeLaws.IsCut(c, atoms, cut, k) ==>
      forall chosen, other {:trigger SumsCompare(c, atoms, chain, cut, chosen, other)} ::
        SumsCompare(c, atoms, chain, cut, chosen, other)
  }

  ghost predicate SumsCompare(c: Config, atoms: seq<Atom>, chain: seq<(nat, nat)>, cut: seq<(nat, nat)>,
                              chosen: seq<nat>, other: seq<nat>)
  {
    MergeCosts.AreRunCharges(c, atoms, chain, chosen) && MergeCosts.AreRunCharges(c, atoms, cut, other) ==>
      MergeCosts.Sum(chosen) <= MergeCosts.Sum(other)
  }

  lemma MergedIsGood(c: Config, atoms: seq<Atom>, plans: seq<Plan>, chain: seq<(nat, nat)>)
    requires Ordered(atoms, c.textLen) && PlansOk(c, atoms, plans) && 0 < |plans| == |atoms| && Linked(plans)
    requires chain == Chain(plans, |plans| - 1)
    ensures MergeLaws.GoodChain(c, atoms, chain, |atoms| - 1) && Cheapest(c, atoms, chain, |atoms| - 1)
  {
    MergeLaws.ChainIsGood(c, atoms, plans, |atoms| - 1);
    ChainIsCheapest(c, atoms, plans);
  }

  /** The merge with its guarantees about the chunks alone. */
  method Merged(c: Config, atoms: seq<Atom>) returns (raw: seq<(nat, nat)>, chain: seq<(nat, nat)>)
    requires Ordered(atoms, c.textLen) && 0 < |atoms|
    ensures MergeLaws.GoodChain(c, atoms, chain, |atoms| - 1) && raw == Bytes(atoms, chain)
    ensures Cheapest(c, atoms, chain, |atoms| - 1)
  {
    ghost var plans;
    raw, chain, plans := MergeAtoms(c, atoms);
    MergedIsGood(c, atoms, plans, chain);
  }

  lemma {:induction false} ChainIsCheapest(c: Config, atoms: seq<Atom>, plans: seq<Plan>)
    requires Ordered(atoms, c.textLen) && PlansOk(c, atoms, plans) && |plans| == |atoms| && Linked(plans)
    ensures Cheapest(c, atoms, Chain(plans, |atoms| - 1), |atoms| - 1)
  {
    if c.overlap == 0 {
      var k := |atoms| - 1;
      MergeLaws.PlanIsRealised(c, atoms, plans, k);
      forall cut
        ensures NotDearer(c, atoms, Chain(plans, k), cut, k)
      {
        ChainIsNotDearer(c, atoms, plans, cut);
      }
    }
  }

  lemma {:induction false} ChainIsNotDearer(c: Config, atoms: seq<Atom>, plans: seq<Plan>, cut: seq<(nat, nat)>)
    requires PlansOk(c, atoms, plans) && |plans| == |atoms| && Linked(plans) && c.overlap == 0
    requires MergeLaws.IsCut(c, atoms, Chain(plans, |atoms| - 1), |atoms| - 1)
    ensures NotDearer(c, atoms, Chain(plans, |atoms| - 1), cut, |atoms| - 1)
  {
    var chain := Chain(plans, |atoms| - 1);
    if MergeLaws.IsCut(c, atoms, cut, |atoms| - 1) {
      forall chosen, other | MergeCosts.AreRunCharges(c, atoms, chain, chosen)
                             && MergeCosts.AreRunCharges(c, atoms, cut, other)
        ensures MergeCosts.Sum(chosen) <= MergeCosts.Sum(other)
      {
        MergeCosts.ChargedLeast(c, atoms, plans, chain, cut, chosen, other);
      }
    }
  }

  method FinishChunks(collector: AtomCollector, c: Config, ghost seps: set<nat>)
    returns (out: seq<SubChunk>, ghost atoms: seq<Atom>, ghost chain: seq<(nat, nat)>)
    requires collector.splitter.Valid() && c.textLen == |collector.splitter.text|
    requires AtomLaws.Collected(collector.splitter.text, seps, collector.chunks, c.textLen)
    modifies collector
    ensures atoms == Sealed(collector.splitter.text, old(collector.chunks))
    ensures Spanned(old(collector.chunks), chain, out) && Cheapest(c, atoms, chain, |atoms| - 1)
    ensures GoodChunking(collector.splitter.text, seps, c, atoms, out)
  {
    var sp := collector.splitter;
    ghost var chunks := collector.chunks;
    var sealed := collector.Seal();
    atoms := sealed;
    SealedIsOrdered(sp.text, chunks);
    var raw, runs := Merged(c, sealed);
    chain := runs;
    SpansAreChained(sp.text, c, chunks, chain, raw);
    out := Located(sp.text, raw);
    FinishedIsGood(sp.text, seps, c, chunks, chain, raw, out);
  }

  /** The chunking keeps all promises, and is the cheapest one of these atoms. */
  ghost predicate BestChunking(t: seq<Byte>, seps: set<nat>, c: Config, atoms: seq<Atom>, out: seq<SubChunk>)
    requires 0 < |atoms|
  {
    && GoodChunking(t, seps, c, atoms, out)
    && exists chain {:trigger Spanned(atoms[..|atoms| - 1], chain, out)} ::
         Spanned(atoms[..|atoms| - 1], chain, out) && Cheapest(c, atoms, chain, |atoms| - 1)
  }

  /** The atoms of a plain text. */
  ghost function TextAtoms(sp: Splitter): (atoms: seq<Atom>)
    requires sp.Valid()
    ensures 0 < |atoms|
  {
    Sealed(sp.text, Ranged(sp, 0, |sp.text|, 0, 0, State(0, 0, [])).chunks)
  }

  /** The separator text removed from a plain text. */
  ghost function TextSeps(sp: Splitter): set<nat>
    requires sp.Valid()
  {
    RangedSeps(sp, 0, |sp.text|, 0)
  }

  method ChunkText(sp: Splitter, c: Config) returns (out: seq<SubChunk>)
    requires sp.Valid() && c.textLen == |sp.text|
    ensures BestChunking(sp.text, TextSeps(sp), c, TextAtoms(sp), out)
  {
    var collector := new AtomCollector(sp);
    StartIsBoundary(sp.text);
    EmptyIsCollected(sp.text, TextSeps(sp), 0);
    AtomLaws.RangedCollects(sp, TextSeps(sp), 0, |sp.text|, 0, 0, State(0, 0, []));
    collector.CollectAtoms(0, |sp.text|, 0, 0);
    ghost var chunks := collector.chunks;
    ghost var atoms, chain;
    out, atoms, chain := FinishChunks(collector, c, TextSeps(sp));
    assert atoms[..|atoms| - 1] == chunks;
  }

  /** A tree whose root covers all visible text. */
  ghost predicate RootCovers(t: seq<Byte>, root: Node) {
    root.Valid(t) && forall p :: 0 <= p < |t| && !(root.start <= p < root.end) ==> t[p].space
  }

  /** The atoms of a text with a syntax tree. */
  ghost function TreeAtoms(sp: Splitter, root: Node): (atoms: seq<Atom>)
    requires sp.Valid() && root.Valid(sp.text)
    ensures 0 < |atoms|
  {
    Sealed(sp.text, Treed(sp, root, 0, State(0, 0, [])).chunks)
  }

  /** The separator text removed from a text with a syntax tree. */
  ghost function TreeSeps(sp: Splitter, root: Node): set<nat>
    requires sp.Valid() && root.Valid(sp.text)
  {
    TreedSeps(sp, root)
  }

  method ChunkTextWithTs(sp: Splitter, root: Node, c: Config) returns (out: seq<SubChunk>)
    requires sp.Valid() && c.textLen == |sp.text| && RootCovers(sp.text, root)
    ensures BestChunking(sp.text, TreeSeps(sp, root), c, TreeAtoms(sp, root), out)
  {
    var collector := new AtomCollector(sp);
    EmptyIsCollected(sp.text, TreeSeps(sp, root), root.start);
    AtomLaws.TreedCollects(sp, TreeSeps(sp, root), root, 0, State(0, 0, []));
    collector.CollectAtomsTs(root, 0);
    ghost var chunks := collector.chunks;
    AtomLaws.SkipCollects(sp.text, TreeSeps(sp, root), chunks, root.end, |sp.text|);
    ghost var atoms, chain;
    out, atoms, chain := FinishChunks(collector, c, TreeSeps(sp, root));
    assert atoms[..|atoms| - 1] == chunks;
  }

  lemma EmptyIsCollected(t: seq<Byte>, seps: set<nat>, upto: nat)
    requires Utf8(t) && upto <= |t| && Boundary(t, upto)
    requires forall p :: 0 <= p < upto ==> t[p].space
    ensures AtomLaws.Collected(t, seps, [], upto)
  {
  }

  /** The overlap in effect: capped by the minimum chunk size. */
  function Overlap(config: ChunkConfig): (overlap: nat)
    ensures overlap <= config.chunkOverlap && overlap <= config.minChunkSize
    ensures overlap == 0 <==> config.chunkOverlap == 0 || config.minChunkSize == 0
  {
    if config.chunkOverlap < config.minChunkSize then config.chunkOverlap else config.minChunkSize
  }

  function SplitterFor(text: seq<Byte>, separators: seq<(nat, nat) -> seq<Span>>, config: ChunkConfig): Splitter {
    Splitter(text, separators, MinAtomSize(Overlap(config), config.minChunkSize))
  }

  function ConfigFor(text: seq<Byte>, config: ChunkConfig): Config {
    Config(|text|, config.chunkSize, Overlap(config), config.minChunkSize)
  }

  /** `split_text`: a parsed tree, when there is one, guides the cut. */
  method SplitText(text: seq<Byte>, separators: seq<(nat, nat) -> seq<Span>>, config: ChunkConfig, root: Option<Node>)
    returns (out: seq<SubChunk>)
    requires Splitter(text, separators, 0).Valid()
    requires root.Some? ==> RootCovers(text, root.value)
    ensures SplitterFor(text, separators, config).Valid()
    ensures var sp := SplitterFor(text, separators, config);
      BestChunking(text, if root.Some? then TreeSeps(sp, root.value) else TextSeps(sp), ConfigFor(text, config),
                   if root.Some? then TreeAtoms(sp, root.value) else TextAtoms(sp), out)
  {
    var sp := SplitterFor(text, separators, config);
    ValidForAnyAtomSize(text, separators, sp.minAtom);
    if root.Some? {
      out := ChunkTextWithTs(sp, root.value, ConfigFor(text, config));
    } else {
      out := ChunkText(sp, ConfigFor(text, config));
    }
  }

  lemma ValidForAnyAtomSize(text: seq<Byte>, separators: seq<(nat, nat) -> seq<Span>>, minAtom: nat)
    requires Splitter(text, separators, 0).Valid()
    ensures Splitter(text, separators, minAtom).Valid()
  {
    forall k: nat, lo: nat, hi: nat | k < |separators| && lo <= hi <= |text|
      ensures MatchesOk(text, separators[k](lo, hi), lo, hi)
    {
      assert MatchesOk(text, Splitter(text, separators, 0).separators[k](lo, hi), lo, hi);
    }
  }
}
