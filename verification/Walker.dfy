/** Walking a syntax tree into symbols and edges. */
module Walker {
  import opened Wrappers
  import opened Types

  /** A syntax tree node.  `name` is what name extraction finds at the node, and
    * `tag` tells nodes apart; `fields` maps field names to children. */
  datatype Node = Node(
    tag: nat, kind: string, text: string, row: nat, endRow: nat, name: Option<string>,
    fields: map<string, nat>, children: seq<Node>) {

    /** `child_by_field_name` */
    function Child(field: string): (c: Option<Node>)
      ensures c.Some? ==> c.value in children
    {
      if field in fields && fields[field] < |children| then Some(children[fields[field]]) else None
    }
  }

  datatype LangConfig = LangConfig(
    transparentKinds: seq<(string, string)>, implNode: Option<string>, kindMap: map<string, Kind>,
    containerKinds: set<Kind>, callNodes: set<string>, callField: string, refNode: string,
    instanceFieldKinds: set<string>, noRetagKinds: set<string>,
    skipNames: set<string>, skipPrefixes: seq<string>, skipParamless: bool) {

    function KindFor(n: Node): Option<Kind> {
      if n.kind in kindMap then Some(kindMap[n.kind]) else None
    }

    /** Impl blocks are symbol nodes too, as in every language table that has them. */
    predicate Valid() {
      implNode.Some? ==> implNode.value in kindMap
    }
  }

  // ---------- qualified names ----------

  /** What `push_scope` builds up in the qualifier buffer. */
  function Qualifier(names: seq<string>): string {
    if |names| == 0 then ""
    else Qualify(Qualifier(names[..|names| - 1]), names[|names| - 1])
  }

  function Qualify(qualifier: string, name: string): string {
    if |qualifier| == 0 then name else qualifier + "::" + name
  }

  lemma {:induction false} QualifierSnoc(names: seq<string>, name: string)
    ensures Qualifier(names + [name]) == Qualify(Qualifier(names), name)
    ensures Qualifier(names) <= Qualifier(names + [name])
  {
    assert (names + [name])[..|names|] == names;
  }

  function Join(names: seq<string>): string {
    if |names| == 0 then ""
    else if |names| == 1 then names[0]
    else Join(names[..|names| - 1]) + "::" + names[|names| - 1]
  }

  /** The buffer is the '::'-join of the scope names exactly unless the outermost
    * of several is empty: an empty outer name leaves no separator behind. */
  lemma {:induction false} QualifierIsJoin(names: seq<string>)
    ensures Qualifier(names) == Join(names) <==> |names| <= 1 || names[0] != ""
    ensures |names| > 0 && names[0] != "" ==> Qualifier(names) != ""
    ensures |Qualifier(names)| <= |Join(names)|
    ensures |names| > 1 && names[0] == "" ==> |Qualifier(names)| < |Join(names)|
  {
    if |names| > 1 {
      var front := names[..|names| - 1];
      QualifierIsJoin(front);
      assert front[0] == names[0];
      if |front| == 1 { assert Qualifier(front) == front[0]; }
    }
  }

  // ---------- edges of one symbol ----------

  /** `resolve_call_name` */
  function CallName(n: Node): string
    decreases n
  {
    if n.kind in {"field_expression", "member_expression", "selector_expression"} && n.Child("field").Some? then
      CallName(n.Child("field").value)
    else if n.kind in {"scoped_identifier", "identifier", "property_identifier"} then n.text
    else if n.kind in {"generic_function", "generic_type"} && |n.children| > 0 then CallName(n.children[0])
    else n.text
  }

  /** The function node of a call: the call field, or the first child. */
  function Callee(cfg: LangConfig, n: Node): Option<Node> {
    var f := n.Child(cfg.callField);
    if f.Some? then f else if |n.children| > 0 then Some(n.children[0]) else None
  }

  /** An edge and the node it was read from. */
  datatype Found = Found(tag: nat, edge: Edge)

  function CallEdges(cfg: LangConfig, c: Node, from: nat): seq<Found> {
    if c.kind in cfg.callNodes && Callee(cfg, c).Some? && CallName(Callee(cfg, c).value) != "" then
      [Found(c.tag, Edge(from, Unresolved(CallName(Callee(cfg, c).value)), Call, c.row + 1))]
    else []
  }

  function RefEdges(cfg: LangConfig, c: Node, from: nat): seq<Found> {
    if c.kind == cfg.refNode && c.text != "" then
      [Found(c.tag, Edge(from, Unresolved(c.text), Ref, c.row + 1))]
    else []
  }

  /** The edges a node itself gives rise to. */
  function EdgesAt(cfg: LangConfig, c: Node, from: nat): seq<Found> {
    CallEdges(cfg, c, from) + RefEdges(cfg, c, from)
  }

  /** The edges below `n`, without entering nested symbol nodes, from child k on. */
  function EdgesBelow(cfg: LangConfig, n: Node, k: nat, from: nat): seq<Found>
    requires k <= |n.children|
    decreases n, |n.children| - k
  {
    if k == |n.children| then []
    else
      ChildEdges(cfg, n.children[k], from) + EdgesBelow(cfg, n, k + 1, from)
  }

  function ChildEdges(cfg: LangConfig, c: Node, from: nat): seq<Found>
    decreases c, |c.children| + 1
  {
    if cfg.KindFor(c).Some? then [] else EdgesAt(cfg, c, from) + EdgesBelow(cfg, c, 0, from)
  }

  // ---------- the walk, passing the scope down ----------

  /** The scope a node is visited in. */
  datatype Scope = Scope(ids: seq<nat>, names: seq<string>, kinds: seq<Kind>, fnDepth: nat, containerDepth: nat) {
    function Parent(): Option<nat> {
      if |ids| == 0 then None else Some(ids[|ids| - 1])
    }

    predicate InMethodContainer() {
      exists i :: 0 <= i < |kinds| && kinds[i] in {Struct, Enum, Class, Kind.Impl, Interface}
    }

    function Enter(id: nat, name: string, isContainer: bool, isFn: bool, kind: Kind): Scope {
      Scope(ids + [id], names + [name], kinds + [kind],
            fnDepth + (if isFn then 1 else 0), containerDepth + (if isContainer then 1 else 0))
    }

    /** A transparent scope reopens a known symbol and adds no name. */
    function Reopen(id: nat): Scope {
      this.(ids := ids + [id], kinds := kinds + [Kind.Module], containerDepth := containerDepth + 1)
    }
  }

  /** A symbol and the node it was made for, by tag and syntax kind. */
  datatype Made = Made(tag: nat, kind: string, symbol: Symbol)

  /** What the walk has produced so far. */
  datatype Output = Output(nextId: nat, made: seq<Made>, found: seq<Found>, nameMap: map<string, nat>)

  /** What to do at a node. */
  datatype Action =
    | Skip
    | Descend
    | Transparent(id: nat)
    | Emit(kind: Kind, name: string, scopeName: string, isContainer: bool, isFn: bool, mapped: bool)

  function Squash(s: string): string {
    if |s| == 0 then "" else [if s[0] == '\n' then ' ' else s[0]] + Squash(s[1..])
  }

  function ImplName(ty: string, trait_: Option<string>): string {
    if trait_.Some? then "impl " + Squash(trait_.value) + " for " + Squash(ty) else "impl " + Squash(ty)
  }

  function FieldText(n: Node, field: string): Option<string> {
    match n.Child(field)
    case Some(c) => Some(c.text)
    case None => None
  }

  /** The first transparent-scope rule for this kind of node. */
  function TransparentRule(rules: seq<(string, string)>, kind: string): Option<string> {
    if |rules| == 0 then None
    else if rules[0].0 == kind then Some(rules[0].1)
    else TransparentRule(rules[1..], kind)
  }

  function TransparentAction(n: Node, field: string, nameMap: map<string, nat>): Action {
    match FieldText(n, field)
    case Some(name) => if name in nameMap then Transparent(nameMap[name]) else Descend
    case None => Descend
  }

  function HasSkippedName(cfg: LangConfig, name: string): bool {
    name in cfg.skipNames || exists i :: 0 <= i < |cfg.skipPrefixes| && cfg.skipPrefixes[i] <= name
  }

  /** Kinds refined by context: arrow functions are functions, functions in types are methods. */
  function Retagged(cfg: LangConfig, n: Node, scope: Scope, kind: Kind): Kind {
    var k := if kind == Const && n.kind == "variable_declarator"
                && n.Child("value").Some? && n.Child("value").value.kind == "arrow_function"
             then Function else kind;
    if k == Function && scope.InMethodContainer() && n.kind !in cfg.noRetagKinds then Method else k
  }

  predicate IsNested(cfg: LangConfig, n: Node, scope: Scope, kind: Kind) {
    || (kind == Const && scope.fnDepth > 0)
    || (cfg.skipParamless && kind == Function && scope.fnDepth > 0
        && !exists i :: 0 <= i < |n.children| && n.children[i].kind == "parameter")
    || (n.kind in cfg.instanceFieldKinds && scope.fnDepth == 0 && scope.containerDepth > 0 && kind == Const)
  }

  function SymbolAction(cfg: LangConfig, n: Node, scope: Scope, kind: Kind): Action {
    if IsNested(cfg, n, scope, kind) then Descend
    else
      match n.name
      case None => Descend
      case Some(name) =>
        if HasSkippedName(cfg, name) then Skip
        else
          var k := Retagged(cfg, n, scope, kind);
          var isContainer := k in cfg.containerKinds;
          Emit(k, name, name, isContainer, k == Function || k == Method, isContainer)
  }

  function ActionFor(cfg: LangConfig, n: Node, scope: Scope, nameMap: map<string, nat>): Action {
    match TransparentRule(cfg.transparentKinds, n.kind)
    case Some(field) => TransparentAction(n, field, nameMap)
    case None =>
      if cfg.implNode == Some(n.kind) then
        match FieldText(n, "type")
        case Some(ty) => Emit(Kind.Impl, ImplName(ty, FieldText(n, "trait")), ty, true, false, false)
        case None => Descend
      else
        match cfg.KindFor(n)
        case Some(kind) => SymbolAction(cfg, n, scope, kind)
        case None => Descend
  }

  function MadeSymbol(n: Node, id: nat, a: Action, scope: Scope, fileIdx: nat): Symbol
    requires a.Emit?
  {
    Symbol(id, a.kind, a.name, Qualify(Qualifier(scope.names), a.name), fileIdx, n.row + 1, n.endRow + 1,
           scope.Parent())
  }

  /** Emitting a symbol: the next id, the parent and qualifier of the scope, and its own edges. */
  function Emitted(cfg: LangConfig, fileIdx: nat, n: Node, scope: Scope, out: Output, a: Action): Output
    requires a.Emit?
  {
    Output(
      out.nextId + 1,
      out.made + [Made(n.tag, n.kind, MadeSymbol(n, out.nextId, a, scope, fileIdx))],
      out.found + EdgesBelow(cfg, n, 0, out.nextId),
      if a.mapped then out.nameMap[a.name := out.nextId] else out.nameMap)
  }

  function Walked(cfg: LangConfig, fileIdx: nat, n: Node, scope: Scope, out: Output): Output
    decreases n, |n.children| + 1, 1
  {
    WalkedAs(cfg, fileIdx, n, scope, out, ActionFor(cfg, n, scope, out.nameMap))
  }

  function WalkedAs(cfg: LangConfig, fileIdx: nat, n: Node, scope: Scope, out: Output, a: Action): Output
    decreases n, |n.children| + 1, 0
  {
    match a
    case Skip => out
    case Descend => WalkedFrom(cfg, fileIdx, n, 0, scope, out)
    case Transparent(id) => WalkedFrom(cfg, fileIdx, n, 0, scope.Reopen(id), out)
    case Emit(kind, _, scopeName, isContainer, isFn, _) =>
      WalkedFrom(cfg, fileIdx, n, 0, scope.Enter(out.nextId, scopeName, isContainer, isFn, kind),
                 Emitted(cfg, fileIdx, n, scope, out, a))
  }

  /** Children from k on, each in the same scope. */
  function WalkedFrom(cfg: LangConfig, fileIdx: nat, n: Node, k: nat, scope: Scope, out: Output): Output
    requires k <= |n.children|
    decreases n, |n.children| - k, 0
  {
    if k == |n.children| then out
    else WalkedFrom(cfg, fileIdx, n, k + 1, scope, Walked(cfg, fileIdx, n.children[k], scope, out))
  }

  // ---------- the walker with its scope stacks ----------

  class WalkState {
    const config: LangConfig
    const fileIdx: nat
    var nextId: nat
    var scopeStack: seq<nat>
    var qualBuf: string
    var qualLens: seq<nat>
    var scopeKinds: seq<Kind>
    var fnDepth: nat
    var containerDepth: nat
    var found: seq<Found>
    var made: seq<Made>
    var nameMap: map<string, nat>
    ghost var names: seq<string>

    constructor (config: LangConfig, fileIdx: nat, idStart: nat)
      ensures Valid() && this.config == config && this.fileIdx == fileIdx
      ensures InScope() == Scope([], [], [], 0, 0) && Out() == Output(idStart, [], [], map[])
    {
      this.config, this.fileIdx, nextId := config, fileIdx, idStart;
      scopeStack, qualBuf, qualLens, scopeKinds := [], "", [], [];
      fnDepth, containerDepth := 0, 0;
      found, made, nameMap := [], [], map[];
      names := [];
    }

    ghost predicate Valid()
      reads `qualBuf, `names
    {
      qualBuf == Qualifier(names)
    }

    ghost function InScope(): Scope
      reads this
    {
      Scope(scopeStack, names, scopeKinds, fnDepth, containerDepth)
    }

    ghost function Out(): Output
      reads this
    {
      Output(nextId, made, found, nameMap)
    }

    method PushScope(id: nat, name: string, isContainer: bool, isFn: bool, kind: Kind)
      requires Valid()
      modifies this
      ensures Valid() && Out() == old(Out())
      ensures InScope() == old(InScope()).Enter(id, name, isContainer, isFn, kind)
      ensures qualLens == old(qualLens) + [|old(qualBuf)|] && old(qualBuf) <= qualBuf
    {
      PushFrame(id, isContainer, isFn, kind);
      ExtendQualifier(name);
    }

    method PushFrame(id: nat, isContainer: bool, isFn: bool, kind: Kind)
      modifies this`scopeStack, this`scopeKinds, this`containerDepth, this`fnDepth
      ensures scopeStack == old(scopeStack) + [id] && scopeKinds == old(scopeKinds) + [kind]
      ensures containerDepth == old(containerDepth) + if isContainer then 1 else 0
      ensures fnDepth == old(fnDepth) + if isFn then 1 else 0
    {
      scopeStack := scopeStack + [id];
      scopeKinds := scopeKinds + [kind];
      if isContainer {
        containerDepth := containerDepth + 1;
      }
      if isFn {
        fnDepth := fnDepth + 1;
      }
    }

    method ExtendQualifier(name: string)
      requires Valid()
      modifies this`qualBuf, this`qualLens, this`names
      ensures Valid() && names == old(names) + [name]
      ensures qualLens == old(qualLens) + [|old(qualBuf)|] && old(qualBuf) <= qualBuf
    {
      QualifierSnoc(names, name);
      var prevLen := |qualBuf|;
      if |qualBuf| > 0 {
        qualBuf := qualBuf + "::";
      }
      qualBuf := qualBuf + name;
      qualLens := qualLens + [prevLen];
      names := names + [name];
    }

    /** Undoes `PushScope`: the caller's scope is back, buffer and all. */
    method PopScope(wasContainer: bool, wasFn: bool, ghost scope: Scope, ghost buf: string)
      requires Valid() && buf == Qualifier(scope.names) && buf <= qualBuf
      requires 0 < |scopeStack| && 0 < |scopeKinds| && 0 < |qualLens| && qualLens[|qualLens| - 1] == |buf|
      requires exists id, name, kind :: InScope() == scope.Enter(id, name, wasContainer, wasFn, kind)
      modifies this
      ensures Valid() && Out() == old(Out())
      ensures InScope() == scope && qualBuf == buf
      ensures qualLens == old(qualLens)[..|old(qualLens)| - 1]
    {
      scopeStack := scopeStack[..|scopeStack| - 1];
      scopeKinds := scopeKinds[..|scopeKinds| - 1];
      var prevLen := qualLens[|qualLens| - 1];
      qualLens := qualLens[..|qualLens| - 1];
      qualBuf := qualBuf[..prevLen];
      containerDepth := containerDepth - if wasContainer then 1 else 0;
      fnDepth := fnDepth - if wasFn then 1 else 0;
      names := scope.names;
    }

    method PushTransparent(id: nat)
      requires Valid()
      modifies this
      ensures Valid() && Out() == old(Out())
      ensures InScope() == old(InScope()).Reopen(id)
      ensures qualLens == old(qualLens) + [|qualBuf|] && qualBuf == old(qualBuf)
    {
      scopeStack := scopeStack + [id];
      qualLens := qualLens + [|qualBuf|];
      scopeKinds := scopeKinds + [Kind.Module];
      containerDepth := containerDepth + 1;
    }

    method PopTransparent(ghost scope: Scope)
      requires Valid() && 0 < |scopeStack| && 0 < |scopeKinds| && 0 < |qualLens|
      requires exists id :: InScope() == scope.Reopen(id)
      modifies this
      ensures Valid() && Out() == old(Out())
      ensures InScope() == scope && qualBuf == old(qualBuf)
      ensures qualLens == old(qualLens)[..|old(qualLens)| - 1]
    {
      scopeStack := scopeStack[..|scopeStack| - 1];
      scopeKinds := scopeKinds[..|scopeKinds| - 1];
      qualLens := qualLens[..|qualLens| - 1];
      containerDepth := containerDepth - 1;
    }

    method AddEdge(from: nat, to: Target, kind: EdgeKind, line: nat, tag: nat)
      modifies this`found
      ensures found == old(found) + [Found(tag, Edge(from, to, kind, line))]
    {
      found := found + [Found(tag, Edge(from, to, kind, line))];
    }

    /** The edges of one child that is not a symbol node itself. */
    method AddEdgesAt(c: Node, from: nat)
      modifies this`found
      ensures found == old(found) + EdgesAt(config, c, from)
    {
      if c.kind in config.callNodes {
        var f := Callee(config, c);
        if f.Some? {
          var callee := CallName(f.value);
          if callee != "" {
            AddEdge(from, Unresolved(callee), Call, c.row + 1, c.tag);
          }
        }
      }
      if c.kind == config.refNode {
        if c.text != "" {
          AddEdge(from, Unresolved(c.text), Ref, c.row + 1, c.tag);
        }
      }
    }

    /** Nested symbol nodes are left to their own walk. */
    method CollectChild(c: Node, from: nat)
      modifies this`found
      ensures found == old(found) + ChildEdges(config, c, from)
      decreases c, 1
    {
      if config.KindFor(c).None? {
        AddEdgesAt(c, from);
        if |c.children| > 0 {
          CollectEdges(c, from);
        }
      }
    }

    method CollectEdges(n: Node, from: nat)
      modifies this`found
      ensures found == old(found) + EdgesBelow(config, n, 0, from)
      decreases n, 0
    {
      for k := 0 to |n.children|
        invariant found + EdgesBelow(config, n, k, from) == old(found) + EdgesBelow(config, n, 0, from)
      {
        CollectChild(n.children[k], from);
      }
    }

    /** The walk leaves every part of the scope as it found it, and produces what
      * the scope-passing walk produces. */
    method WalkNode(n: Node)
      requires Valid()
      modifies this
      ensures Valid() && InScope() == old(InScope()) && qualBuf == old(qualBuf) && qualLens == old(qualLens)
      ensures Out() == Walked(config, fileIdx, n, old(InScope()), old(Out()))
      decreases n, |n.children| + 1, 1
    {
      ghost var scope := InScope();
      var a := ActionFor(config, n, Scope(scopeStack, [], scopeKinds, fnDepth, containerDepth), nameMap);
      assert a == ActionFor(config, n, scope, nameMap);
      match a {
        case Skip =>
        case Descend => WalkChildren(n);
        case Transparent(id) =>
          PushTransparent(id);
          WalkChildren(n);
          PopTransparent(scope);
        case Emit(_, _, _, _, _, _) => EmitSymbol(n, a, scope);
      }
    }

    /** Emit the node's symbol, then visit its children inside its scope. */
    method EmitSymbol(n: Node, a: Action, ghost scope: Scope)
      requires Valid() && a.Emit? && scope == InScope()
      modifies this
      ensures Valid() && InScope() == scope && qualBuf == old(qualBuf) && qualLens == old(qualLens)
      ensures Out() == WalkedFrom(config, fileIdx, n, 0,
                                  scope.Enter(old(nextId), a.scopeName, a.isContainer, a.isFn, a.kind),
                                  Emitted(config, fileIdx, n, scope, old(Out()), a))
      decreases n, |n.children| + 1, 0
    {
      ghost var buf := qualBuf;
      var id := nextId;
      AllocateSymbol(n, a);
      PushScope(id, a.scopeName, a.isContainer, a.isFn, a.kind);
      CollectEdges(n, id);
      WalkChildren(n);
      PopScope(a.isContainer, a.isFn, scope, buf);
    }

    method AllocateSymbol(n: Node, a: Action)
      requires Valid() && a.Emit?
      modifies this`nextId, this`made, this`nameMap
      ensures Out().found == old(found)
      ensures Out().(found := found + EdgesBelow(config, n, 0, old(nextId)))
           == Emitted(config, fileIdx, n, InScope(), old(Out()), a)
    {
      var id := nextId;
      nextId := nextId + 1;
      var parent := if |scopeStack| == 0 then None else Some(scopeStack[|scopeStack| - 1]);
      var qualified := if |qualBuf| == 0 then a.name else qualBuf + "::" + a.name;
      if a.mapped {
        nameMap := nameMap[a.name := id];
      }
      var symbol := Symbol(id, a.kind, a.name, qualified, fileIdx, n.row + 1, n.endRow + 1, parent);
      made := made + [Made(n.tag, n.kind, symbol)];
    }

    method WalkChildren(n: Node)
      requires Valid()
      modifies this
      ensures Valid() && InScope() == old(InScope()) && qualBuf == old(qualBuf) && qualLens == old(qualLens)
      ensures Out() == WalkedFrom(config, fileIdx, n, 0, old(InScope()), old(Out()))
      decreases n, |n.children|, 0
    {
      for k := 0 to |n.children|
        invariant Valid() && InScope() == old(InScope()) && qualBuf == old(qualBuf) && qualLens == old(qualLens)
        invariant WalkedFrom(config, fileIdx, n, k, InScope(), Out())
               == WalkedFrom(config, fileIdx, n, 0, old(InScope()), old(Out()))
      {
        WalkNode(n.children[k]);
      }
    }
  }

  function Symbols(made: seq<Made>): seq<Symbol> {
    seq(|made|, i requires 0 <= i < |made| => made[i].symbol)
  }

  function Edges(found: seq<Found>): seq<Edge> {
    seq(|found|, i requires 0 <= i < |found| => found[i].edge)
  }

  /** The walk of a whole file. */
  function FileWalk(cfg: LangConfig, root: Node, fileIdx: nat, idStart: nat): Output {
    Walked(cfg, fileIdx, root, Scope([], [], [], 0, 0), Output(idStart, [], [], map[]))
  }

  lemma WalkedEmit(cfg: LangConfig, fileIdx: nat, n: Node, scope: Scope, out: Output, a: Action)
    requires a == ActionFor(cfg, n, scope, out.nameMap) && a.Emit?
    ensures Walked(cfg, fileIdx, n, scope, out)
         == WalkedFrom(cfg, fileIdx, n, 0, scope.Enter(out.nextId, a.scopeName, a.isContainer, a.isFn, a.kind),
                       Emitted(cfg, fileIdx, n, scope, out, a))
  {
  }

  lemma WalkedSkip(cfg: LangConfig, fileIdx: nat, n: Node, scope: Scope, out: Output)
    requires ActionFor(cfg, n, scope, out.nameMap).Skip?
    ensures Walked(cfg, fileIdx, n, scope, out) == out
  {
  }

  lemma WalkedOn(cfg: LangConfig, fileIdx: nat, n: Node, scope: Scope, out: Output, a: Action, inner: Scope)
    requires a == ActionFor(cfg, n, scope, out.nameMap)
    requires (a.Descend? && inner == scope) || (a.Transparent? && inner == scope.Reopen(a.id))
    ensures Walked(cfg, fileIdx, n, scope, out) == WalkedFrom(cfg, fileIdx, n, 0, inner, out)
  {
  }

  /** A node without children yields at most its own symbol. */
  lemma WalkedLeaf(cfg: LangConfig, fileIdx: nat, n: Node, scope: Scope, out: Output)
    requires n.children == []
    ensures var a := ActionFor(cfg, n, scope, out.nameMap);
      Walked(cfg, fileIdx, n, scope, out) == if a.Emit? then Emitted(cfg, fileIdx, n, scope, out, a) else out
  {
    var a := ActionFor(cfg, n, scope, out.nameMap);
    match a
    case Skip =>
    case Descend => WalkedNone(cfg, fileIdx, n, scope, out);
    case Transparent(id) => WalkedNone(cfg, fileIdx, n, scope.Reopen(id), out);
    case Emit(kind, _, scopeName, isContainer, isFn, _) =>
      WalkedNone(cfg, fileIdx, n, scope.Enter(out.nextId, scopeName, isContainer, isFn, kind),
                 Emitted(cfg, fileIdx, n, scope, out, a));
  }

  lemma WalkedNone(cfg: LangConfig, fileIdx: nat, n: Node, scope: Scope, out: Output)
    requires n.children == []
    ensures WalkedFrom(cfg, fileIdx, n, 0, scope, out) == out
  {
  }

  lemma WalkedPair(cfg: LangConfig, fileIdx: nat, n: Node, scope: Scope, out: Output)
    requires |n.children| == 2
    ensures WalkedFrom(cfg, fileIdx, n, 0, scope, out)
         == Walked(cfg, fileIdx, n.children[1], scope, Walked(cfg, fileIdx, n.children[0], scope, out))
  {
    var mid := Walked(cfg, fileIdx, n.children[0], scope, out);
    var end := Walked(cfg, fileIdx, n.children[1], scope, mid);
    assert WalkedFrom(cfg, fileIdx, n, 2, scope, end) == end;
    assert WalkedFrom(cfg, fileIdx, n, 1, scope, mid) == end;
  }

  /** An impl block around a type and a function. */
  predicate IsImplAround(cfg: LangConfig, impl: Node, ty: Node, fn: Node, name: string) {
    && cfg.transparentKinds == [] && cfg.implNode == Some(impl.kind) && !cfg.skipParamless
    && impl.fields == map["type" := 0] && impl.children == [ty, fn] && ty.children == [] && fn.children == []
    && ty.kind != impl.kind && fn.kind != impl.kind && fn.kind !in cfg.noRetagKinds + cfg.instanceFieldKinds
    && cfg.KindFor(ty).None? && cfg.KindFor(fn) == Some(Function)
    && fn.name == Some(name) && !HasSkippedName(cfg, name)
  }

  lemma ImplAround(cfg: LangConfig, fileIdx: nat, start: nat, impl: Node, ty: Node, fn: Node, name: string)
    requires IsImplAround(cfg, impl, ty, fn, name)
    ensures var made := FileWalk(cfg, impl, fileIdx, start).made;
      |made| == 2 && made[1].symbol.qualified == Qualify(Qualifier([ty.text]), name)
  {
    var none, out := Scope([], [], [], 0, 0), Output(start, [], [], map[]);
    var a := ActionFor(cfg, impl, none, map[]);
    assert impl.Child("type") == Some(ty);
    assert a == Emit(Kind.Impl, ImplName(ty.text, FieldText(impl, "trait")), ty.text, true, false, false);
    var inner := none.Enter(start, ty.text, true, false, Kind.Impl);
    var out' := Emitted(cfg, fileIdx, impl, none, out, a);
    WalkedEmit(cfg, fileIdx, impl, none, out, a);
    WalkedPair(cfg, fileIdx, impl, inner, out');
    WalkedLeaf(cfg, fileIdx, ty, inner, out');
    WalkedLeaf(cfg, fileIdx, fn, inner, out');
    assert ActionFor(cfg, fn, inner, out'.nameMap).Emit?;
    assert [] + [ty.text] == [ty.text];
  }

  /** A function inside an impl block whose type has no text, as error recovery may
    * leave it: its qualified name is not the join of the scope's name and its own. */
  lemma UnnamedOuterScope(cfg: LangConfig, fileIdx: nat, start: nat, impl: Node, ty: Node, fn: Node, name: string)
    requires IsImplAround(cfg, impl, ty, fn, name) && ty.text == ""
    ensures var made := FileWalk(cfg, impl, fileIdx, start).made;
      |made| == 2 && made[1].symbol.qualified == name && Join([ty.text, name]) == "::" + name
  {
    ImplAround(cfg, fileIdx, start, impl, ty, fn, name);
    assert [""][..0] == [] && ["", name][..1] == [""];
  }

  method ParseFile(root: Node, fileIdx: nat, config: LangConfig, idStart: nat)
    returns (symbols: seq<Symbol>, edges: seq<Edge>)
    ensures symbols == Symbols(FileWalk(config, root, fileIdx, idStart).made)
    ensures edges == Edges(FileWalk(config, root, fileIdx, idStart).found)
  {
    var state := new WalkState(config, fileIdx, idStart);
    state.WalkNode(root);
    symbols, edges := Symbols(state.made), Edges(state.found);
  }
}
