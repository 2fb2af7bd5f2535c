/** Where the lines of a page break, and what stands before a run. */
module LineLaws {
  import opened PdfInterp
  import opened Matrices
  import opened MathRegions
  import opened Assemble

  // ---------- finished lines stay ----------

  lemma {:induction false} OutGrows(page: Page, p: Pen, events: seq<Event>)
    ensures p.out <= Rendered(page, p, events).out
    decreases |events|
  {
    if 0 < |events| {
      OutGrows(page, RenderOne(page, p, events[0]), events[1..]);
    }
  }

  lemma {:induction false} RenderedBoth(page: Page, p: Pen, a: seq<Event>, b: seq<Event>)
    ensures Rendered(page, p, a + b) == Rendered(page, Rendered(page, p, a), b)
    decreases |a|
  {
    if |a| == 0 {
      assert a + b == b;
    } else {
      assert (a + b)[1..] == a[1..] + b;
      RenderedBoth(page, RenderOne(page, p, a[0]), a[1..], b);
    }
  }

  /** The lines of a list of events. */
  function LinesOf(page: Page, events: seq<Event>): seq<Line> {
    Flushed(Rendered(page, START, events)).out
  }

  lemma {:induction false} LineInkBoth(isControl: char -> bool, a: seq<Line>, b: seq<Line>)
    ensures LineInk(isControl, a + b) == LineInk(isControl, a) + LineInk(isControl, b)
  {
    if |b| == 0 {
      assert a + b == a && LineInk(isControl, a) + "" == LineInk(isControl, a);
    } else {
      var front, last := b[..|b| - 1], b[|b| - 1];
      assert (a + b)[..|a + b| - 1] == a + front;
      LineInkBoth(isControl, a, front);
      AddInk(LineInk(isControl, a), LineInk(isControl, front), Ink(isControl, last.text));
    }
  }

  lemma RestOfInk(isControl: char -> bool, out: seq<Line>, lines: seq<Line>, ink: string)
    requires out <= lines && LineInk(isControl, lines) == LineInk(isControl, out) + ink
    ensures LineInk(isControl, lines[|out|..]) == ink
  {
    assert lines == out + lines[|out|..];
    LineInkBoth(isControl, out, lines[|out|..]);
    SameFront(LineInk(isControl, out), LineInk(isControl, lines[|out|..]), ink);
  }

  lemma CleanPenInk(isControl: char -> bool, p: Pen)
    requires p.cur == ""
    ensures PenInk(isControl, p) == LineInk(isControl, p.out)
  {
    assert LineInk(isControl, p.out) + "" == LineInk(isControl, p.out);
  }

  /** A pen whose current line is empty: what follows goes on lines of its own. */
  lemma {:induction false} CleanPen(page: Page, p: Pen, events: seq<Event>)
    requires p.cur == ""
    ensures var lines := Flushed(Rendered(page, p, events)).out;
      && p.out <= lines
      && LineInk(page.isControl, lines[|p.out|..]) == EventInk(page, events)
  {
    OutGrows(page, p, events);
    RenderedInk(page, p, events);
    FlushedInk(page.isControl, Rendered(page, p, events));
    CleanPenInk(page.isControl, p);
    RestOfInk(page.isControl, p.out, Flushed(Rendered(page, p, events)).out, EventInk(page, events));
  }

  lemma SameFront(a: string, b: string, c: string)
    requires a + b == a + c
    ensures b == c
  {
    assert (a + b)[|a|..] == b && (a + c)[|a|..] == c;
  }

  /** The event starts a line: a block, or a run behind a line break. */
  predicate StartsLine(page: Page, e: Event) {
    match e
    case Block(r) => r < |page.regions|
    case Glyph(i) => i < |page.runs| && page.runs[i].nl
  }

  lemma StartIsClean(page: Page, p: Pen, e: Event)
    requires StartsLine(page, e)
    ensures RenderOne(page, p, e) == RenderOne(page, Unbased(Flushed(p)), e)
  {
  }

  /** What stands before such an event and what stands from it on share no line:
    * some number of lines holds exactly the ink of the events before. */
  lemma BreaksSeparate(page: Page, before: seq<Event>, e: Event, after: seq<Event>) returns (n: nat)
    requires StartsLine(page, e)
    ensures var lines := LinesOf(page, before + ([e] + after));
      && n <= |lines|
      && LineInk(page.isControl, lines[..n]) == EventInk(page, before)
      && LineInk(page.isControl, lines[n..]) == EventInk(page, [e] + after)
  {
    var p := Rendered(page, START, before);
    var clean := Unbased(Flushed(p));
    RenderedBoth(page, START, before, [e] + after);
    StartIsClean(page, p, e);
    assert ([e] + after)[1..] == after;
    assert Rendered(page, p, [e] + after) == Rendered(page, clean, [e] + after);
    CleanPen(page, clean, [e] + after);
    n := |clean.out|;
    RenderedInk(page, START, before);
    FlushedInk(page.isControl, p);
    var lines := LinesOf(page, before + ([e] + after));
    assert lines[..n] == clean.out;
    assert "" + EventInk(page, before) == EventInk(page, before);
  }

  /** A block stands on a line of its own, with its own text and size. */
  lemma BlockIsALine(page: Page, before: seq<Event>, r: nat, after: seq<Event>) returns (n: nat)
    requires r < |page.regions|
    ensures var lines := LinesOf(page, before + ([Block(r)] + after));
      && n < |lines| && lines[n] == Line(page.regions[r].block, page.regions[r].size)
      && LineInk(page.isControl, lines[..n]) == EventInk(page, before)
      && LineInk(page.isControl, lines[n + 1..]) == EventInk(page, after)
  {
    var p := Rendered(page, START, before);
    var q := Spliced(p, page.regions[r]);
    RenderedBoth(page, START, before, [Block(r)] + after);
    assert ([Block(r)] + after)[1..] == after;
    CleanPen(page, q, after);
    n := |q.out| - 1;
    RenderedInk(page, START, before);
    FlushedInk(page.isControl, p);
    var lines := LinesOf(page, before + ([Block(r)] + after));
    assert lines[..n] == Flushed(p).out;
    assert "" + EventInk(page, before) == EventInk(page, before);
  }

  // ---------- two runs on a line ----------

  /** What is put between run a, which starts a line, and run b on the same line. */
  function Between(a: PosRun, b: PosRun, written: string): string {
    if 0.0 < a.size && b.size < a.size * 0.8 && b.y - a.y > a.size * 0.05 then "^"
    else if 0.0 < a.size && b.size < a.size * 0.8 && a.y - b.y > a.size * 0.05 then "_"
    else if written != "" && b.x > a.x + b.size * 0.25 then " "
    else ""
  }

  /** A smaller run behind the one that starts the line is marked `^` if it is raised and
    * `_` if it is lowered; any other is set off by a blank if it stands further right
    * than a quarter of its size. Both stand on the same line. */
  lemma PairOnLine(page: Page, p: Pen, a: PosRun, ta: string, b: PosRun, tb: string)
    requires a.nl && !b.nl
    ensures var first := Pushed(page.isControl, "", ta);
      var q := Assemble.Shown(page.isControl, Assemble.Shown(page.isControl, p, a, ta), b, tb);
      q.out == Flushed(p).out && q.cur == Pushed(page.isControl, first + Between(a, b, first), tb)
  {
    var q := Assemble.Shown(page.isControl, p, a, ta);
    var first := Pushed(page.isControl, "", ta);
    assert q.cur == first && q.baseSize == a.size && q.baseY == a.y && q.script == 0 && q.lastX == a.x;
    assert first + "" == first;
  }

  /** A further run of the same script, raised or lowered alike, gets no second mark. */
  lemma ScriptMarkedOnce(page: Page, p: Pen, a: PosRun, ta: string, b: PosRun, tb: string, c: PosRun, tc: string)
    requires a.nl && !b.nl && !c.nl && 0.0 < a.size && b.size < a.size * 0.8 && c.size < a.size * 0.8
    requires (b.y - a.y > a.size * 0.05 && c.y - a.y > a.size * 0.05)
             || (a.y - b.y > a.size * 0.05 && a.y - c.y > a.size * 0.05)
    ensures var q := Assemble.Shown(page.isControl, Assemble.Shown(page.isControl, p, a, ta), b, tb);
      Assemble.Shown(page.isControl, q, c, tc).cur == Pushed(page.isControl, q.cur, tc)
  {
  }

  // ---------- glyphs ----------

  /** Glyphs are appended with control characters as blanks, and no blank behind a blank. */
  lemma {:induction false} PushedText(isControl: char -> bool, cur: string, s: string)
    requires !isControl(' ')
    ensures var r := Pushed(isControl, cur, s);
      && cur <= r && |r| <= |cur| + |s|
      && (forall k :: |cur| <= k < |r| ==> !isControl(r[k]))
      && forall k :: |cur| <= k < |r| && 0 < k && r[k] == ' ' ==> r[k - 1] != ' '
  {
    if s != "" {
      PushedText(isControl, cur, s[..|s| - 1]);
    }
  }

  /** Text without blanks and control characters is appended as it is. */
  lemma {:induction false} PlainTextIsKept(isControl: char -> bool, cur: string, s: string)
    requires forall k :: 0 <= k < |s| ==> s[k] != ' ' && !isControl(s[k])
    ensures Pushed(isControl, cur, s) == cur + s
  {
    if s == "" {
      assert cur + s == cur;
    } else {
      PlainTextIsKept(isControl, cur, s[..|s| - 1]);
      assert cur + s == cur + s[..|s| - 1] + [s[|s| - 1]];
    }
  }
}
