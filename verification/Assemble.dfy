/** Folding runs into lines of text, with region blocks spliced in. */
module Assemble {
  import opened PdfInterp
  import opened Matrices
  import opened MathRegions
  import MatrixGrid

  datatype Line = Line(text: string, fontSize: real)

  /** The line under construction and what the next run is placed against. */
  datatype Pen = Pen(out: seq<Line>, cur: string, lineSize: real, baseSize: real, baseY: real, script: int, lastX: real)

  const START := Pen([], "", 0.0, 0.0, 0.0, 0, 0.0)

  function Flushed(p: Pen): Pen {
    if p.cur == "" then p else p.(out := p.out + [Line(p.cur, p.lineSize)], cur := "")
  }

  function Unbased(p: Pen): Pen {
    p.(baseSize := 0.0, baseY := 0.0, script := 0)
  }

  /** `cur` with glyphs behind it: control characters become blanks, and blanks do not repeat. */
  function Pushed(isControl: char -> bool, cur: string, s: string): string {
    if s == "" then cur
    else
      var before := Pushed(isControl, cur, s[..|s| - 1]);
      var c := if isControl(s[|s| - 1]) then ' ' else s[|s| - 1];
      if c == ' ' && before != "" && before[|before| - 1] == ' ' then before else before + [c]
  }

  /** 1 for a superscript, -1 for a subscript, 0 for body text. */
  function KindOf(p: Pen, run: PosRun): int {
    var smaller := p.baseSize > 0.0 && run.size < p.baseSize * 0.8;
    var dy := run.y - p.baseY;
    if smaller && dy < -p.baseSize * 0.05 then -1 else if smaller && dy > p.baseSize * 0.05 then 1 else 0
  }

  /** The blank or script marker in front of a run. */
  function Placed(p: Pen, run: PosRun): Pen {
    var kind := KindOf(p, run);
    if kind == 0 then
      p.(baseSize := run.size, baseY := run.y, script := 0,
      cur := if p.cur != "" && run.x > p.lastX + run.size * 0.25 then p.cur + " " else p.cur)
    else if p.script != kind then p.(cur := p.cur + (if kind < 0 then "_" else "^"), script := kind)
    else p
  }

  /** A run behind a line break starts a new line. */
  function Broken(p: Pen, run: PosRun): Pen {
    if run.nl then Unbased(Flushed(p)) else p
  }

  function Shown(isControl: char -> bool, p: Pen, run: PosRun, text: string): Pen {
    var placed := Placed(Broken(p, run), run);
    placed.(cur := Pushed(isControl, placed.cur, text), lastX := run.x, lineSize := run.size)
  }

  function Spliced(p: Pen, region: Region): Pen {
    var f := Flushed(p);
    Unbased(f.(out := f.out + [Line(region.block, region.size)]))
  }

  // ---------- what is rendered, in which order ----------

  datatype Event = Block(region: nat) | Glyph(run: nat)

  /** From run i and region r on: a region stands for the runs it spans. */
  function Events(n: nat, regions: seq<Region>, r: nat, i: nat): seq<Event>
    requires r <= |regions| && Ordered(regions, 0, n)
    decreases n - i
  {
    if i >= n then []
    else if r < |regions| && regions[r].lo == i then [Block(r)] + Events(n, regions, r + 1, regions[r].hi + 1)
    else [Glyph(i)] + Events(n, regions, r, i + 1)
  }

  datatype Page = Page(g: Glyphs, isControl: char -> bool, runs: seq<PosRun>, regions: seq<Region>)

  function RenderOne(page: Page, p: Pen, e: Event): Pen {
    match e
    case Block(r) => if r < |page.regions| then Spliced(p, page.regions[r]) else p
    case Glyph(i) =>
      if i < |page.runs| then Shown(page.isControl, p, page.runs[i], RunText(page.g, page.runs[i])) else p
  }

  function Rendered(page: Page, p: Pen, events: seq<Event>): Pen
    decreases |events|
  {
    if |events| == 0 then p else Rendered(page, RenderOne(page, p, events[0]), events[1..])
  }

  /** The state of the loop at run i and region r, taken to the end. */
  ghost function Rest(page: Page, p: Pen, r: nat, i: nat): Pen
    requires r <= |page.regions| && Ordered(page.regions, 0, |page.runs|)
  {
    Rendered(page, p, Events(|page.runs|, page.regions, r, i))
  }

  lemma RestStep(page: Page, p: Pen, r: nat, i: nat)
    requires r <= |page.regions| && Ordered(page.regions, 0, |page.runs|) && i < |page.runs|
    ensures Rest(page, p, r, i) ==
            if r < |page.regions| && page.regions[r].lo == i
            then Rest(page, Spliced(p, page.regions[r]), r + 1, page.regions[r].hi + 1)
            else Rest(page, Shown(page.isControl, p, page.runs[i], RunText(page.g, page.runs[i])), r, i + 1)
  {
    var n := |page.runs|;
    var events := Events(n, page.regions, r, i);
    if r < |page.regions| && page.regions[r].lo == i {
      assert events[1..] == Events(n, page.regions, r + 1, page.regions[r].hi + 1);
    } else {
      assert events[1..] == Events(n, page.regions, r, i + 1);
    }
  }

  // ---------- the loop ----------

  method PushGlyphs(isControl: char -> bool, before: string, s: string) returns (cur: string)
    ensures cur == Pushed(isControl, before, s)
  {
    cur := before;
    for k := 0 to |s|
      invariant cur == Pushed(isControl, before, s[..k])
    {
      assert s[..k + 1][..k] == s[..k];
      var c := if isControl(s[k]) then ' ' else s[k];
      if !(c == ' ' && cur != "" && cur[|cur| - 1] == ' ') {
        cur := cur + [c];
      }
    }
    assert s[..|s|] == s;
  }

  /** One run, onto the line that `p` describes. */
  method ShowRun(page: Page, p: Pen, run: PosRun) returns (q: Pen)
    ensures q == Shown(page.isControl, p, run, RunText(page.g, run))
  {
    var out, cur := p.out, p.cur;
    var baseSize, baseY, script := p.baseSize, p.baseY, p.script;
    if run.nl {
      if cur != "" {
        out, cur := out + [Line(cur, p.lineSize)], "";
      }
      baseSize, baseY, script := 0.0, 0.0, 0;
    }
    var smaller := baseSize > 0.0 && run.size < baseSize * 0.8;
    var dy := run.y - baseY;
    var kind := if smaller && dy < -baseSize * 0.05 then -1 else if smaller && dy > baseSize * 0.05 then 1 else 0;
    if kind == 0 {
      baseSize, baseY, script := run.size, run.y, 0;
      if cur != "" && run.x > p.lastX + run.size * 0.25 {
        cur := cur + " ";
      }
    } else if script != kind {
      cur := cur + (if kind < 0 then "_" else "^");
      script := kind;
    }
    cur := PushGlyphs(page.isControl, cur, RunText(page.g, run));
    q := Pen(out, cur, run.size, baseSize, baseY, script, run.x);
  }

  /** The lines of a page. The regions are those `Detect` finds, in order and apart. */
  method AssembleLines(page: Page) returns (lines: seq<Line>)
    requires Ordered(page.regions, 0, |page.runs|)
    ensures lines == Flushed(Rest(page, START, 0, 0)).out
  {
    var pen := START;
    var i, r := 0, 0;
    var n := |page.runs|;
    while i < n
      invariant r <= |page.regions| && Rest(page, pen, r, i) == Rest(page, START, 0, 0)
      decreases n - i
    {
      RestStep(page, pen, r, i);
      if r < |page.regions| && page.regions[r].lo == i {
        var region := page.regions[r];
        if pen.cur != "" {
          pen := pen.(out := pen.out + [Line(pen.cur, pen.lineSize)], cur := "");
        }
        pen := pen.(out := pen.out + [Line(region.block, region.size)], baseSize := 0.0, baseY := 0.0, script := 0);
        r, i := r + 1, region.hi + 1;
      } else {
        pen := ShowRun(page, pen, page.runs[i]);
        i := i + 1;
      }
    }
    if pen.cur != "" {
      pen := pen.(out := pen.out + [Line(pen.cur, pen.lineSize)], cur := "");
    }
    lines := pen.out;
  }

  // ---------- main results ----------

  function Blocks(events: seq<Event>): seq<nat> {
    if |events| == 0 then []
    else (if events[0].Block? then [events[0].region] else []) + Blocks(events[1..])
  }

  function Shows(events: seq<Event>): seq<nat> {
    if |events| == 0 then []
    else (if events[0].Glyph? then [events[0].run] else []) + Shows(events[1..])
  }

  predicate Inside(regions: seq<Region>, i: nat) {
    exists k :: 0 <= k < |regions| && regions[k].lo <= i <= regions[k].hi
  }

  /** The runs from i to n outside all regions, in order. */
  function Outside(regions: seq<Region>, i: nat, n: nat): seq<nat>
    decreases n - i
  {
    if i >= n then [] else (if Inside(regions, i) then [] else [i]) + Outside(regions, i + 1, n)
  }

  function FromTo(r: nat, n: nat): seq<nat>
    decreases n - r
  {
    if r >= n then [] else [r] + FromTo(r + 1, n)
  }

  lemma {:induction false} OutsideSkips(regions: seq<Region>, i: nat, j: nat, n: nat)
    requires i <= j <= n && forall m :: i <= m < j ==> Inside(regions, m)
    ensures Outside(regions, i, n) == Outside(regions, j, n)
    decreases j - i
  {
    if i < j {
      OutsideSkips(regions, i + 1, j, n);
    }
  }

  /** Each region is rendered exactly once and in order, and so is each run outside all of them. */
  lemma {:induction false} EventsAreExact(n: nat, regions: seq<Region>, r: nat, i: nat)
    requires Ordered(regions, 0, n) && r <= |regions| && i <= n
    requires r < |regions| ==> i <= regions[r].lo
    requires forall k :: 0 <= k < r ==> regions[k].hi < i
    ensures Blocks(Events(n, regions, r, i)) == FromTo(r, |regions|)
    ensures Shows(Events(n, regions, r, i)) == Outside(regions, i, n)
    decreases n - i
  {
    if i < n {
      var events := Events(n, regions, r, i);
      if r < |regions| && regions[r].lo == i {
        var j := regions[r].hi + 1;
        EventsAreExact(n, regions, r + 1, j);
        assert events[1..] == Events(n, regions, r + 1, j);
        forall m | i <= m < j
          ensures Inside(regions, m)
        {
          assert regions[r].lo <= m <= regions[r].hi;
        }
        OutsideSkips(regions, i, j, n);
      } else {
        EventsAreExact(n, regions, r, i + 1);
        assert events[1..] == Events(n, regions, r, i + 1);
        assert !Inside(regions, i);
      }
    }
  }

  /** Where on the page an event stands. */
  function PositionOf(regions: seq<Region>, e: Event): nat {
    match e
    case Block(r) => if r < |regions| then regions[r].lo else 0
    case Glyph(i) => i
  }

  predicate InPageOrder(regions: seq<Region>, events: seq<Event>) {
    forall a, b :: 0 <= a < b < |events| ==> PositionOf(regions, events[a]) < PositionOf(regions, events[b])
  }

  /** Events stand at `from` or behind it, each behind the one before it. */
  predicate Rise(regions: seq<Region>, events: seq<Event>, from: nat)
    decreases |events|
  {
    |events| == 0 ||
    (from <= PositionOf(regions, events[0]) && Rise(regions, events[1..], PositionOf(regions, events[0]) + 1))
  }

  lemma {:induction false} RiseFrom(regions: seq<Region>, events: seq<Event>, from: nat, k: nat)
    requires Rise(regions, events, from) && k < |events|
    ensures from <= PositionOf(regions, events[k])
    decreases |events|
  {
    if k > 0 {
      RiseFrom(regions, events[1..], PositionOf(regions, events[0]) + 1, k - 1);
    }
  }

  lemma {:induction false} RiseInOrder(regions: seq<Region>, events: seq<Event>, from: nat, a: nat, b: nat)
    requires Rise(regions, events, from) && a < b < |events|
    ensures PositionOf(regions, events[a]) < PositionOf(regions, events[b])
    decreases |events|
  {
    var next := PositionOf(regions, events[0]) + 1;
    if a > 0 {
      RiseInOrder(regions, events[1..], next, a - 1, b - 1);
    } else {
      RiseFrom(regions, events[1..], next, b - 1);
    }
  }

  lemma {:induction false} RiseEarlier(regions: seq<Region>, events: seq<Event>, from: nat, from': nat)
    requires Rise(regions, events, from) && from' <= from
    ensures Rise(regions, events, from')
  {
  }

  lemma {:induction false} EventsRise(n: nat, regions: seq<Region>, r: nat, i: nat)
    requires Ordered(regions, 0, n) && r <= |regions|
    requires r < |regions| ==> i <= regions[r].lo
    ensures Rise(regions, Events(n, regions, r, i), i)
    decreases n - i
  {
    if i < n {
      var events := Events(n, regions, r, i);
      if r < |regions| && regions[r].lo == i {
        var j := regions[r].hi + 1;
        EventsRise(n, regions, r + 1, j);
        RiseEarlier(regions, Events(n, regions, r + 1, j), j, i + 1);
        assert events[0] == Block(r) && events[1..] == Events(n, regions, r + 1, j);
      } else {
        EventsRise(n, regions, r, i + 1);
        assert events[0] == Glyph(i) && events[1..] == Events(n, regions, r, i + 1);
      }
    }
  }

  /** Blocks and runs together stand in page order: a block takes the place of its runs. */
  lemma EventsInPageOrder(n: nat, regions: seq<Region>)
    requires Ordered(regions, 0, n)
    ensures InPageOrder(regions, Events(n, regions, 0, 0))
  {
    var events := Events(n, regions, 0, 0);
    EventsRise(n, regions, 0, 0);
    forall a, b | 0 <= a < b < |events|
      ensures PositionOf(regions, events[a]) < PositionOf(regions, events[b])
    {
      RiseInOrder(regions, events, 0, a, b);
    }
  }

  /** A text without blanks, control characters and script markers. */
  function Ink(isControl: char -> bool, s: string): string {
    if s == "" then ""
    else
      var c := s[|s| - 1];
      Ink(isControl, s[..|s| - 1]) + if isControl(c) || c in {' ', '_', '^'} then "" else [c]
  }

  lemma {:induction false} InkPush(isControl: char -> bool, s: string, c: char)
    ensures Ink(isControl, s + [c]) == Ink(isControl, s) + if isControl(c) || c in {' ', '_', '^'} then "" else [c]
  {
    assert (s + [c])[..|s|] == s;
  }

  lemma {:induction false} InkPushed(isControl: char -> bool, cur: string, s: string)
    ensures Ink(isControl, Pushed(isControl, cur, s)) == Ink(isControl, cur) + Ink(isControl, s)
  {
    if s == "" {
      assert Ink(isControl, cur) + "" == Ink(isControl, cur);
    } else {
      var init, c := s[..|s| - 1], s[|s| - 1];
      InkPushed(isControl, cur, init);
      InkPush(isControl, Pushed(isControl, cur, init), if isControl(c) then ' ' else c);
      var ink := if isControl(c) || c in {' ', '_', '^'} then "" else [c];
      assert Ink(isControl, cur) + Ink(isControl, init) + ink == Ink(isControl, cur) + (Ink(isControl, init) + ink);
    }
  }

  /** The ink of finished lines. */
  function LineInk(isControl: char -> bool, lines: seq<Line>): string {
    if |lines| == 0 then ""
    else LineInk(isControl, lines[..|lines| - 1]) + Ink(isControl, lines[|lines| - 1].text)
  }

  function PenInk(isControl: char -> bool, p: Pen): string {
    LineInk(isControl, p.out) + Ink(isControl, p.cur)
  }

  lemma {:induction false} LineInkPush(isControl: char -> bool, lines: seq<Line>, line: Line)
    ensures LineInk(isControl, lines + [line]) == LineInk(isControl, lines) + Ink(isControl, line.text)
  {
    assert (lines + [line])[..|lines|] == lines;
  }

  lemma FlushedInk(isControl: char -> bool, p: Pen)
    ensures PenInk(isControl, Flushed(p)) == PenInk(isControl, p) && Flushed(p).cur == ""
    ensures LineInk(isControl, Flushed(p).out) == PenInk(isControl, p)
  {
    LineInkPush(isControl, p.out, Line(p.cur, p.lineSize));
    assert LineInk(isControl, Flushed(p).out) + "" == LineInk(isControl, Flushed(p).out);
  }

  lemma PlacedInk(isControl: char -> bool, p: Pen, run: PosRun)
    ensures PenInk(isControl, Placed(p, run)) == PenInk(isControl, p)
  {
    InkPush(isControl, p.cur, ' ');
    InkPush(isControl, p.cur, '_');
    InkPush(isControl, p.cur, '^');
    assert Ink(isControl, p.cur) + "" == Ink(isControl, p.cur);
  }

  lemma {:induction false} ShownInk(isControl: char -> bool, p: Pen, run: PosRun, text: string)
    ensures PenInk(isControl, Shown(isControl, p, run, text)) == PenInk(isControl, p) + Ink(isControl, text)
  {
    var broken := Broken(p, run);
    assert PenInk(isControl, broken) == PenInk(isControl, p) by {
      FlushedInk(isControl, p);
    }
    var placed := Placed(broken, run);
    PlacedInk(isControl, broken, run);
    WrittenInk(isControl, placed, run, text);
  }

  lemma {:induction false} WrittenInk(isControl: char -> bool, p: Pen, run: PosRun, text: string)
    ensures var q := p.(cur := Pushed(isControl, p.cur, text), lastX := run.x, lineSize := run.size);
      PenInk(isControl, q) == PenInk(isControl, p) + Ink(isControl, text)
  {
    InkPushed(isControl, p.cur, text);
    AddInk(LineInk(isControl, p.out), Ink(isControl, p.cur), Ink(isControl, text));
  }

  lemma AddInk(a: string, b: string, c: string)
    ensures a + (b + c) == a + b + c
  {
  }

  lemma SplicedInk(isControl: char -> bool, p: Pen, region: Region)
    ensures PenInk(isControl, Spliced(p, region)) == PenInk(isControl, p) + Ink(isControl, region.block)
  {
    FlushedInk(isControl, p);
    var f := Flushed(p);
    LineInkPush(isControl, f.out, Line(region.block, region.size));
    var all := LineInk(isControl, f.out) + Ink(isControl, region.block);
    assert all + "" == all;
  }

  /** What an event puts on the page. */
  function EventText(page: Page, e: Event): string {
    match e
    case Block(r) => if r < |page.regions| then page.regions[r].block else ""
    case Glyph(i) => if i < |page.runs| then RunText(page.g, page.runs[i]) else ""
  }

  function EventInk(page: Page, events: seq<Event>): string {
    if |events| == 0 then "" else Ink(page.isControl, EventText(page, events[0])) + EventInk(page, events[1..])
  }

  lemma RenderOneInk(page: Page, p: Pen, e: Event)
    ensures PenInk(page.isControl, RenderOne(page, p, e))
         == PenInk(page.isControl, p) + Ink(page.isControl, EventText(page, e))
  {
    assert PenInk(page.isControl, p) + "" == PenInk(page.isControl, p);
    match e {
      case Block(r) =>
        if r < |page.regions| {
          SplicedInk(page.isControl, p, page.regions[r]);
        }
      case Glyph(i) =>
        if i < |page.runs| {
          ShownInk(page.isControl, p, page.runs[i], RunText(page.g, page.runs[i]));
        }
    }
  }

  lemma JoinInk(a: string, ink: string, b: string, rest: string, c: string)
    requires b == a + ink && c == b + rest
    ensures c == a + (ink + rest)
  {
  }

  lemma {:induction false} RenderedInk(page: Page, p: Pen, events: seq<Event>)
    ensures PenInk(page.isControl, Rendered(page, p, events)) == PenInk(page.isControl, p) + EventInk(page, events)
    decreases |events|
  {
    if |events| == 0 {
      assert PenInk(page.isControl, p) + "" == PenInk(page.isControl, p);
    } else {
      var q := RenderOne(page, p, events[0]);
      RenderOneInk(page, p, events[0]);
      RenderedInk(page, q, events[1..]);
      RenderedInkCons(page, p, q, events);
    }
  }

  lemma {:induction false} RenderedInkCons(page: Page, p: Pen, q: Pen, events: seq<Event>)
    requires |events| > 0 && Rendered(page, p, events) == Rendered(page, q, events[1..])
    requires PenInk(page.isControl, q) == PenInk(page.isControl, p) + Ink(page.isControl, EventText(page, events[0]))
    requires PenInk(page.isControl, Rendered(page, q, events[1..]))
          == PenInk(page.isControl, q) + EventInk(page, events[1..])
    ensures PenInk(page.isControl, Rendered(page, p, events)) == PenInk(page.isControl, p) + EventInk(page, events)
  {
    JoinInk(PenInk(page.isControl, p), Ink(page.isControl, EventText(page, events[0])), PenInk(page.isControl, q),
            EventInk(page, events[1..]), PenInk(page.isControl, Rendered(page, q, events[1..])));
  }

  /** The lines of a page carry the ink of every region block and of every run
    * outside all regions, each once, blocks and runs in page order, and no other ink. */
  lemma {:induction false} PageInk(page: Page)
    requires Ordered(page.regions, 0, |page.runs|)
    ensures var events := Events(|page.runs|, page.regions, 0, 0);
      && LineInk(page.isControl, Flushed(Rest(page, START, 0, 0)).out) == EventInk(page, events)
      && Blocks(events) == FromTo(0, |page.regions|)
      && Shows(events) == Outside(page.regions, 0, |page.runs|)
      && InPageOrder(page.regions, events)
  {
    var events := Events(|page.runs|, page.regions, 0, 0);
    EventsAreExact(|page.runs|, page.regions, 0, 0);
    EventsInPageOrder(|page.runs|, page.regions);
    RenderedInk(page, START, events);
    FlushedInk(page.isControl, Rest(page, START, 0, 0));
    assert "" + EventInk(page, events) == EventInk(page, events);
  }

  /** A page with its matrices replaced by their blocks. */
  method Rewrite(g: Glyphs, isControl: char -> bool, render: MatrixGrid.Grid -> string, runs: seq<PosRun>)
    returns (lines: seq<Line>)
    ensures var page := Page(g, isControl, runs, RegionsOf(g, render, runs));
      && Ordered(page.regions, 0, |runs|)
      && lines == Flushed(Rest(page, START, 0, 0)).out
      && LineInk(isControl, lines) == EventInk(page, Events(|runs|, page.regions, 0, 0))
  {
    var regions := Detect(g, render, runs);
    RegionsAreOrdered(g, render, runs);
    PageInk(Page(g, isControl, runs, regions));
    lines := AssembleLines(Page(g, isControl, runs, regions));
  }
}
