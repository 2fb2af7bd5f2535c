/** What a symbol says about the place of its node: parent, qualified name, kind. */
module SymbolLaws {
  import opened Wrappers
  import opened Types
  import opened Walker
  import opened WalkerLaws
  import opened ScopeLaws

  // ---------- what the nodes above a node opened ----------

  /** The symbol whose scope a node opens: its own, or the type it reopens. */
  ghost function Opens(w: Walk, a: Node): Option<nat> {
    match MadeFor(w.made, a.tag)
    case Some(j) => Some(w.start + j)
    case None =>
      match ReopenedBy(w.cfg, w.root, w.made, a)
      case Some(j) => Some(w.start + j)
      case None => None
  }

  /** `id` is what the last of these nodes that opens a scope opens. */
  ghost predicate OpenedLast(w: Walk, above: seq<Node>, id: Option<nat>) {
    match id
    case None => forall i :: 0 <= i < |above| ==> Opens(w, above[i]).None?
    case Some(_) =>
      exists i :: 0 <= i < |above| && Opens(w, above[i]) == id
                  && forall j :: i < j < |above| ==> Opens(w, above[j]).None?
  }

  lemma OpenedByNew(w: Walk, front: seq<Node>, a: Node)
    requires Opens(w, a).Some?
    ensures OpenedLast(w, front + [a], Opens(w, a))
  {
    assert (front + [a])[|front|] == a;
  }

  lemma OpenedStays(w: Walk, front: seq<Node>, a: Node, id: Option<nat>)
    requires Opens(w, a).None? && OpenedLast(w, front, id)
    ensures OpenedLast(w, front + [a], id)
  {
    var above := front + [a];
    if id.Some? {
      var i :| 0 <= i < |front| && Opens(w, front[i]) == id && forall j :: i < j < |front| ==> Opens(w, front[j]).None?;
      assert Opens(w, above[i]) == id;
    }
  }

  /** A node that opens a scope is the parent from there on; any other keeps the parent. */
  lemma ParentBelow(w: Walk, front: seq<Node>, a: Node)
    ensures On(w, front + [a]).Parent() == if Opens(w, a).Some? then Opens(w, a) else On(w, front).Parent()
  {
    var above := front + [a];
    assert above[..|above| - 1] == front;
    assert On(w, above) == ScopeBelow(w.cfg, w.root, w.made, w.start, On(w, front), a);
  }

  lemma {:induction false} ParentOn(w: Walk, above: seq<Node>)
    ensures OpenedLast(w, above, On(w, above).Parent())
    decreases |above|
  {
    if 0 < |above| {
      var front, a := above[..|above| - 1], above[|above| - 1];
      ParentOn(w, front);
      ParentBelow(w, front, a);
      assert front + [a] == above;
      if Opens(w, a).Some? {
        OpenedByNew(w, front, a);
      } else {
        OpenedStays(w, front, a, On(w, front).Parent());
      }
    }
  }

  /** The scope names of the nodes with a symbol, outermost first. */
  ghost function NamesOn(w: Walk, above: seq<Node>): seq<string> {
    if |above| == 0 then []
    else
      var a := above[|above| - 1];
      NamesOn(w, above[..|above| - 1])
      + match MadeFor(w.made, a.tag)
        case Some(j) => [ScopeName(w.cfg, a, w.made[j])]
        case None => []
  }

  lemma {:induction false} NamesAreOn(w: Walk, above: seq<Node>)
    ensures On(w, above).names == NamesOn(w, above)
  {
    if 0 < |above| {
      NamesAreOn(w, above[..|above| - 1]);
    }
  }

  ghost predicate BelowFunction(w: Walk, above: seq<Node>) {
    exists i {:trigger above[i]} :: 0 <= i < |above| && OpensFunction(w, above[i])
  }

  ghost predicate OpensFunction(w: Walk, a: Node) {
    var j := MadeFor(w.made, a.tag);
    j.Some? && IsFunction(w.cfg, a, w.made[j.value])
  }

  ghost predicate BelowContainer(w: Walk, above: seq<Node>) {
    exists i {:trigger above[i]} :: 0 <= i < |above| && OpensContainer(w, above[i])
  }

  ghost predicate OpensContainer(w: Walk, a: Node) {
    match MadeFor(w.made, a.tag)
    case Some(j) => IsContainer(w.cfg, a, w.made[j])
    case None => ReopenedBy(w.cfg, w.root, w.made, a).Some?
  }

  ghost predicate BelowType(w: Walk, above: seq<Node>) {
    exists i {:trigger above[i]} :: 0 <= i < |above| && OpensType(w, above[i])
  }

  ghost predicate OpensType(w: Walk, a: Node) {
    var j := MadeFor(w.made, a.tag);
    j.Some? && w.made[j.value].symbol.kind in {Struct, Enum, Class, Kind.Impl, Interface}
  }

  lemma {:induction false} DepthsOn(w: Walk, above: seq<Node>)
    ensures On(w, above).fnDepth > 0 <==> BelowFunction(w, above)
    ensures On(w, above).containerDepth > 0 <==> BelowContainer(w, above)
    ensures On(w, above).InMethodContainer() <==> BelowType(w, above)
  {
    if 0 < |above| {
      var front, a := above[..|above| - 1], above[|above| - 1];
      DepthsOn(w, front);
      BelowMore(w, above);
      var outer, scope := On(w, front), On(w, above);
      assert scope.kinds == outer.kinds + scope.kinds[|outer.kinds|..];
      KindsMore(outer, scope);
    }
  }

  lemma BelowMore(w: Walk, above: seq<Node>)
    requires 0 < |above|
    ensures var front, a := above[..|above| - 1], above[|above| - 1];
      && (BelowFunction(w, above) <==> BelowFunction(w, front) || OpensFunction(w, a))
      && (BelowContainer(w, above) <==> BelowContainer(w, front) || OpensContainer(w, a))
      && (BelowType(w, above) <==> BelowType(w, front) || OpensType(w, a))
  {
    var front, a := above[..|above| - 1], above[|above| - 1];
    assert above == front + [a];
    forall i | 0 <= i < |front|
      ensures front[i] == above[i]
    {
    }
  }

  lemma KindsMore(outer: Scope, inner: Scope)
    requires |outer.kinds| <= |inner.kinds| <= |outer.kinds| + 1 && outer.kinds == inner.kinds[..|outer.kinds|]
    ensures inner.InMethodContainer() <==>
      outer.InMethodContainer()
      || (|outer.kinds| < |inner.kinds| && inner.kinds[|outer.kinds|] in {Struct, Enum, Class, Kind.Impl, Interface})
  {
    if outer.InMethodContainer() {
      var i :| 0 <= i < |outer.kinds| && outer.kinds[i] in {Struct, Enum, Class, Kind.Impl, Interface};
      assert inner.kinds[i] == outer.kinds[i];
    }
  }

  // ---------- the laws ----------

  /** `path` leads from the root to the node of symbol k. */
  ghost predicate LeadsTo(w: Walk, path: seq<Node>, k: nat)
    requires k < |w.made|
  {
    0 < |path| && IsPath(w.root, path) && path[|path| - 1].tag == w.made[k].tag
  }

  lemma PathOf(cfg: LangConfig, root: Node, fileIdx: nat, start: nat, k: nat) returns (path: seq<Node>)
    requires DistinctTags(root) && k < |FileWalk(cfg, root, fileIdx, start).made|
    ensures var w := FileWalkOf(cfg, root, fileIdx, start); LeadsTo(w, path, k) && MadeOn(w, path, k)
  {
    SymbolsAreExplained(cfg, root, fileIdx, start, k);
    path :| MadeOn(FileWalkOf(cfg, root, fileIdx, start), path, k);
  }

  /** A symbol's parent is what the nearest node above it opened that opened anything;
    * it has none if no node above did. */
  lemma ParentIsNearest(cfg: LangConfig, root: Node, fileIdx: nat, start: nat, k: nat) returns (path: seq<Node>)
    requires DistinctTags(root) && k < |FileWalk(cfg, root, fileIdx, start).made|
    ensures var w := FileWalkOf(cfg, root, fileIdx, start);
      LeadsTo(w, path, k) && OpenedLast(w, path[..|path| - 1], w.made[k].symbol.parent)
  {
    path := PathOf(cfg, root, fileIdx, start, k);
    ParentOn(FileWalkOf(cfg, root, fileIdx, start), path[..|path| - 1]);
  }

  /** Its qualified name is the `::`-join of the scope names above it and its own name,
    * exactly unless the outermost of them is empty. */
  lemma QualifiedNameIsJoin(cfg: LangConfig, root: Node, fileIdx: nat, start: nat, k: nat) returns (path: seq<Node>)
    requires DistinctTags(root) && k < |FileWalk(cfg, root, fileIdx, start).made|
    ensures var w := FileWalkOf(cfg, root, fileIdx, start);
      && LeadsTo(w, path, k)
      && var names, symbol := NamesOn(w, path[..|path| - 1]), w.made[k].symbol;
         symbol.qualified == Join(names + [symbol.name]) <==> names == [] || names[0] != ""
  {
    path := PathOf(cfg, root, fileIdx, start, k);
    var w := FileWalkOf(cfg, root, fileIdx, start);
    var names, symbol := NamesOn(w, path[..|path| - 1]), w.made[k].symbol;
    NamesAreOn(w, path[..|path| - 1]);
    QualifierSnoc(names, symbol.name);
    QualifierIsJoin(names + [symbol.name]);
  }

  /** `s` with blanks for line feeds. */
  function Blanked(s: string): string {
    seq(|s|, k requires 0 <= k < |s| => if s[k] == '\n' then ' ' else s[k])
  }

  lemma {:induction false} SquashIsBlanked(s: string)
    ensures Squash(s) == Blanked(s)
  {
    if |s| > 0 {
      SquashIsBlanked(s[1..]);
      assert Blanked(s) == [if s[0] == '\n' then ' ' else s[0]] + Blanked(s[1..]);
    }
  }

  /** `name` is what an impl block of a type, and of a trait if it has one, is called. */
  predicate NamesImpl(name: string, n: Node) {
    match (FieldText(n, "type"), FieldText(n, "trait"))
    case (Some(ty), Some(tr)) => name == "impl " + Blanked(tr) + " for " + Blanked(ty)
    case (Some(ty), None) => name == "impl " + Blanked(ty)
    case _ => false
  }

  lemma ImplIsNamed(n: Node)
    requires FieldText(n, "type").Some?
    ensures NamesImpl(ImplName(FieldText(n, "type").value, FieldText(n, "trait")), n)
  {
    SquashIsBlanked(FieldText(n, "type").value);
    if FieldText(n, "trait").Some? {
      SquashIsBlanked(FieldText(n, "trait").value);
    }
  }

  /** The kind a node has by itself: an arrow function bound to a constant is a function. */
  function OwnKind(n: Node, kind: Kind): Kind {
    if kind == Const && n.kind == "variable_declarator" && n.Child("value").Some?
       && n.Child("value").value.kind == "arrow_function"
    then Function else kind
  }

  /** Its lines, name and kind are those of its node; a function below a type is a method. */
  lemma SymbolDescribesNode(cfg: LangConfig, root: Node, fileIdx: nat, start: nat, k: nat) returns (path: seq<Node>)
    requires DistinctTags(root) && k < |FileWalk(cfg, root, fileIdx, start).made|
    ensures var w := FileWalkOf(cfg, root, fileIdx, start);
      && LeadsTo(w, path, k)
      && var n, symbol := path[|path| - 1], w.made[k].symbol;
         && symbol.id == start + k && symbol.line == n.row + 1 && symbol.endLine == n.endRow + 1
         && if cfg.implNode == Some(n.kind) then symbol.kind == Kind.Impl && NamesImpl(symbol.name, n)
            else
              && n.name == Some(symbol.name) && cfg.KindFor(n).Some?
              && var own := OwnKind(n, cfg.KindFor(n).value);
                 if own == Function && n.kind !in cfg.noRetagKinds && BelowType(w, path[..|path| - 1])
                 then symbol.kind == Method else symbol.kind == own
  {
    path := PathOf(cfg, root, fileIdx, start, k);
    DepthsOn(FileWalkOf(cfg, root, fileIdx, start), path[..|path| - 1]);
    if cfg.implNode == Some(path[|path| - 1].kind) {
      ImplIsNamed(path[|path| - 1]);
    }
  }

  predicate Paramless(n: Node) {
    forall i :: 0 <= i < |n.children| ==> n.children[i].kind != "parameter"
  }

  /** A node of one of the language's symbol kinds that may have a symbol where it
    * stands: constants below functions may not, nor may fields of types. */
  ghost predicate StandsWell(w: Walk, path: seq<Node>)
    requires 0 < |path|
  {
    var n, above := path[|path| - 1], path[..|path| - 1];
    && w.cfg.KindFor(n).Some?
    && var kind := w.cfg.KindFor(n).value;
       if BelowFunction(w, above) then
         kind != Const && !(w.cfg.skipParamless && kind == Function && Paramless(n))
       else
         !(kind == Const && n.kind in w.cfg.instanceFieldKinds && BelowContainer(w, above))
  }

  ghost predicate MayHaveSymbol(w: Walk, path: seq<Node>)
    requires 0 < |path|
  {
    var n := path[|path| - 1];
    if TransparentRule(w.cfg.transparentKinds, n.kind).Some? then false
    else if w.cfg.implNode == Some(n.kind) then FieldText(n, "type").Some?
    else StandsWell(w, path) && n.name.Some? && !HasSkippedName(w.cfg, n.name.value)
  }

  /** The walk leaves out a node with a name to skip, and all below it. */
  ghost predicate LeftOut(w: Walk, path: seq<Node>)
    requires 0 < |path|
  {
    var n := path[|path| - 1];
    && TransparentRule(w.cfg.transparentKinds, n.kind).None? && w.cfg.implNode != Some(n.kind)
    && StandsWell(w, path) && n.name.Some? && HasSkippedName(w.cfg, n.name.value)
  }

  lemma SkipsAtIff(w: Walk, path: seq<Node>, i: nat)
    requires i < |path|
    ensures SkipsAt(w, path, i) <==> LeftOut(w, path[..i + 1])
  {
    assert path[..i + 1][..i] == path[..i];
    DepthsOn(w, path[..i]);
  }

  ghost predicate LeftOutAbove(w: Walk, path: seq<Node>) {
    exists i {:trigger path[..i]} :: 0 < i < |path| && LeftOut(w, path[..i])
  }

  lemma SkipsAreLeftOut(w: Walk, path: seq<Node>)
    ensures SkipsFrom(w, path, 0) <==> LeftOutAbove(w, path)
  {
    if SkipsFrom(w, path, 0) {
      var j :| 0 <= j < |path| - 1 && SkipsAt(w, path, j);
      SkipsAtIff(w, path, j);
    }
    if LeftOutAbove(w, path) {
      var i :| 0 < i < |path| && LeftOut(w, path[..i]);
      SkipsAtIff(w, path, i - 1);
      assert SkipsAt(w, path, i - 1);
    }
  }

  /** A node has a symbol exactly if the walk leaves out no node above it, and it may have one. */
  lemma HasSymbolIff(cfg: LangConfig, root: Node, fileIdx: nat, start: nat, path: seq<Node>)
    requires DistinctTags(root) && 0 < |path| && IsPath(root, path)
    ensures var w := FileWalkOf(cfg, root, fileIdx, start);
      MadeFor(w.made, path[|path| - 1].tag).Some? <==> !LeftOutAbove(w, path) && MayHaveSymbol(w, path)
  {
    var w := FileWalkOf(cfg, root, fileIdx, start);
    NodeIsDecided(cfg, root, fileIdx, start, path);
    DepthsOn(w, path[..|path| - 1]);
    SkipsAreLeftOut(w, path);
  }
}
