/** Where symbols stand in the syntax tree: parents, qualified names, kinds. */
module ScopeLaws {
  import opened Wrappers
  import opened Types
  import opened Walker
  import opened WalkerLaws

  // ---------- the tree in the order of the walk ----------

  /** The tags of a tree, each node before its children. */
  function Preorder(n: Node): seq<nat>
    decreases n, |n.children| + 1
  {
    [n.tag] + KidsPreorder(n, 0)
  }

  function KidsPreorder(n: Node, k: nat): seq<nat>
    requires k <= |n.children|
    decreases n, |n.children| - k
  {
    if k == |n.children| then [] else Preorder(n.children[k]) + KidsPreorder(n, k + 1)
  }

  ghost predicate Unique(tags: seq<nat>) {
    forall t :: multiset(tags)[t] <= 1
  }

  lemma {:induction false} PreorderCounts(n: Node, tag: nat)
    ensures multiset(Preorder(n))[tag] == NodeCount(n, tag)
    decreases n, |n.children| + 1
  {
    KidsPreorderCounts(n, 0, tag);
  }

  lemma {:induction false} KidsPreorderCounts(n: Node, k: nat, tag: nat)
    requires k <= |n.children|
    ensures multiset(KidsPreorder(n, k))[tag] == KidCount(n, k, tag)
    decreases n, |n.children| - k
  {
    if k < |n.children| {
      PreorderCounts(n.children[k], tag);
      KidsPreorderCounts(n, k + 1, tag);
    }
  }

  lemma Apart(a: seq<nat>, b: seq<nat>, c: seq<nat>, t: nat)
    requires Unique(a + b + c)
    ensures t in a ==> t !in b && t !in c
    ensures t in b ==> t !in c
  {
    assert multiset(a + b + c)[t] == multiset(a)[t] + multiset(b)[t] + multiset(c)[t];
    assert t in a ==> t in multiset(a);
    assert t in b ==> t in multiset(b);
    assert t in c ==> t in multiset(c);
  }

  /** What stands before the first `t`. */
  function Before(tags: seq<nat>, t: nat): seq<nat> {
    if |tags| == 0 || tags[0] == t then [] else [tags[0]] + Before(tags[1..], t)
  }

  lemma {:induction false} BeforeIs(a: seq<nat>, t: nat, b: seq<nat>)
    requires t !in a
    ensures Before(a + ([t] + b), t) == a
    decreases |a|
  {
    if |a| > 0 {
      assert (a + ([t] + b))[1..] == a[1..] + ([t] + b);
      BeforeIs(a[1..], t, b);
    }
  }

  /** Each node of the path is a child of the one before it, and the first is the root. */
  ghost predicate IsPath(root: Node, path: seq<Node>) {
    && (0 < |path| ==> path[0] == root)
    && forall i {:trigger path[i]} :: 0 < i < |path| ==> path[i] in path[i - 1].children
  }

  // ---------- what a path of nodes opens ----------

  /** The symbol made for the node with a tag. */
  function MadeFor(made: seq<Made>, tag: nat): (r: Option<nat>)
    ensures r.Some? ==> r.value < |made| && made[r.value].tag == tag
    ensures r.None? ==> forall j :: 0 <= j < |made| ==> made[j].tag != tag
  {
    if |made| == 0 then None
    else if made[|made| - 1].tag == tag then Some(|made| - 1)
    else MadeFor(made[..|made| - 1], tag)
  }

  /** A type of this name whose node stands before the given point. */
  predicate IsNamed(cfg: LangConfig, m: Made, before: seq<nat>, name: string) {
    && m.tag in before && m.symbol.name == name
    && cfg.implNode != Some(m.kind) && m.symbol.kind in cfg.containerKinds
  }

  /** The last one. */
  function LastNamed(cfg: LangConfig, made: seq<Made>, before: seq<nat>, name: string): (r: Option<nat>)
    ensures r.Some? ==> r.value < |made| && IsNamed(cfg, made[r.value], before, name)
    ensures r.Some? ==> forall j :: r.value < j < |made| ==> !IsNamed(cfg, made[j], before, name)
    ensures r.None? ==> forall j :: 0 <= j < |made| ==> !IsNamed(cfg, made[j], before, name)
  {
    if |made| == 0 then None
    else if IsNamed(cfg, made[|made| - 1], before, name) then Some(|made| - 1)
    else LastNamed(cfg, made[..|made| - 1], before, name)
  }

  /** The symbol a transparent node reopens: the last type before it with the name it holds. */
  function ReopenedBy(cfg: LangConfig, root: Node, made: seq<Made>, a: Node): Option<nat> {
    match TransparentRule(cfg.transparentKinds, a.kind)
    case None => None
    case Some(field) =>
      match FieldText(a, field)
      case None => None
      case Some(name) => LastNamed(cfg, made, Before(Preorder(root), a.tag), name)
  }

  function ScopeName(cfg: LangConfig, a: Node, m: Made): string {
    if cfg.implNode == Some(a.kind) && FieldText(a, "type").Some? then FieldText(a, "type").value else m.symbol.name
  }

  predicate IsContainer(cfg: LangConfig, a: Node, m: Made) {
    cfg.implNode == Some(a.kind) || m.symbol.kind in cfg.containerKinds
  }

  predicate IsFunction(cfg: LangConfig, a: Node, m: Made) {
    cfg.implNode != Some(a.kind) && (m.symbol.kind == Function || m.symbol.kind == Method)
  }

  /** The scope below the nodes of a path. */
  ghost function ScopeOn(cfg: LangConfig, root: Node, made: seq<Made>, start: nat, path: seq<Node>): Scope {
    if |path| == 0 then Scope([], [], [], 0, 0)
    else
      var outer, a := ScopeOn(cfg, root, made, start, path[..|path| - 1]), path[|path| - 1];
      ScopeBelow(cfg, root, made, start, outer, a)
  }

  ghost function ScopeBelow(cfg: LangConfig, root: Node, made: seq<Made>, start: nat, outer: Scope, a: Node): Scope {
    match MadeFor(made, a.tag)
    case Some(j) =>
      var m := made[j];
      outer.Enter(start + j, ScopeName(cfg, a, m), IsContainer(cfg, a, m), IsFunction(cfg, a, m), m.symbol.kind)
    case None =>
      match ReopenedBy(cfg, root, made, a)
      case Some(j) => outer.Reopen(start + j)
      case None => outer
  }

  // ---------- symbols made so far ----------

  predicate TagsIn(made: seq<Made>, tags: seq<nat>) {
    forall j :: 0 <= j < |made| ==> made[j].tag in tags
  }

  /** `name` is remembered exactly if a type of that name was made, and then as the last one. */
  ghost predicate Remembered(cfg: LangConfig, out: Output, start: nat, pre: seq<nat>, name: string) {
    match LastNamed(cfg, out.made, pre, name)
    case None => name !in out.nameMap
    case Some(j) => name in out.nameMap && out.nameMap[name] == start + j
  }

  /** Symbols made so far belong to visited nodes, and the remembered names are the last types. */
  ghost predicate OutOk(cfg: LangConfig, out: Output, start: nat, pre: seq<nat>) {
    && out.nextId == start + |out.made| && TagsIn(out.made, pre)
    && forall name {:trigger Remembered(cfg, out, start, pre, name)} :: Remembered(cfg, out, start, pre, name)
  }

  lemma {:induction false} LastNamedAgrees(cfg: LangConfig, made: seq<Made>, a: seq<nat>, b: seq<nat>, name: string)
    requires TagsIn(made, a) && TagsIn(made, b)
    ensures LastNamed(cfg, made, a, name) == LastNamed(cfg, made, b, name)
  {
    if |made| > 0 {
      LastNamedAgrees(cfg, made[..|made| - 1], a, b, name);
    }
  }

  lemma OutMore(cfg: LangConfig, out: Output, start: nat, pre: seq<nat>, more: seq<nat>)
    requires OutOk(cfg, out, start, pre)
    ensures OutOk(cfg, out, start, pre + more)
  {
    forall name
      ensures Remembered(cfg, out, start, pre + more, name)
    {
      assert Remembered(cfg, out, start, pre, name);
      LastNamedAgrees(cfg, out.made, pre, pre + more, name);
    }
  }

  /** The facts about an action the laws need. */
  lemma EmitFacts(cfg: LangConfig, n: Node, scope: Scope, nameMap: map<string, nat>)
    requires ActionFor(cfg, n, scope, nameMap).Emit?
    ensures var a := ActionFor(cfg, n, scope, nameMap);
      && TransparentRule(cfg.transparentKinds, n.kind).None?
      && a == ActionFor(cfg, n, scope, map[])
      && a.mapped == (cfg.implNode != Some(n.kind) && a.kind in cfg.containerKinds)
      && a.isContainer == (cfg.implNode == Some(n.kind) || a.kind in cfg.containerKinds)
      && a.isFn == (cfg.implNode != Some(n.kind) && (a.kind == Function || a.kind == Method))
      && a.scopeName == (if cfg.implNode == Some(n.kind) && FieldText(n, "type").Some? then FieldText(n, "type").value
                         else a.name)
  {
  }

  lemma EmittedOut(cfg: LangConfig, fileIdx: nat, n: Node, scope: Scope, out: Output, a: Action, start: nat,
                   pre: seq<nat>)
    requires OutOk(cfg, out, start, pre) && a == ActionFor(cfg, n, scope, out.nameMap) && a.Emit?
    ensures OutOk(cfg, Emitted(cfg, fileIdx, n, scope, out, a), start, pre + [n.tag])
  {
    EmitFacts(cfg, n, scope, out.nameMap);
    var r := Emitted(cfg, fileIdx, n, scope, out, a);
    var m := r.made[|out.made|];
    forall name
      ensures Remembered(cfg, r, start, pre + [n.tag], name)
    {
      assert Remembered(cfg, out, start, pre, name);
      LastNamedAgrees(cfg, out.made, pre, pre + [n.tag], name);
      assert r.made[..|r.made| - 1] == out.made;
      assert IsNamed(cfg, m, pre + [n.tag], name) <==> a.mapped && name == a.name;
    }
  }

  /** A walk keeps this, and makes symbols for nodes of its tree only. */
  ghost predicate Grown(cfg: LangConfig, out: Output, r: Output, start: nat, pre: seq<nat>, tags: seq<nat>) {
    OutOk(cfg, r, start, pre + tags) && out.made <= r.made && TagsIn(r.made[|out.made|..], tags)
  }

  lemma GrownTwice(cfg: LangConfig, out: Output, mid: Output, r: Output, start: nat, pre: seq<nat>, a: seq<nat>,
                   b: seq<nat>)
    requires Grown(cfg, out, mid, start, pre, a) && Grown(cfg, mid, r, start, pre + a, b)
    ensures Grown(cfg, out, r, start, pre, a + b)
  {
    assert pre + (a + b) == pre + a + b;
    var more := r.made[|out.made|..];
    forall j | 0 <= j < |more|
      ensures more[j].tag in a + b
    {
      if j < |mid.made| - |out.made| {
        assert more[j] == mid.made[|out.made|..][j];
      } else {
        assert more[j] == r.made[|mid.made|..][j - (|mid.made| - |out.made|)];
      }
    }
  }

  lemma {:induction false} WalkGrows(cfg: LangConfig, fileIdx: nat, n: Node, scope: Scope, out: Output, start: nat,
                                     pre: seq<nat>)
    requires OutOk(cfg, out, start, pre)
    ensures Grown(cfg, out, Walked(cfg, fileIdx, n, scope, out), start, pre, Preorder(n))
    decreases n, |n.children| + 1
  {
    var a := ActionFor(cfg, n, scope, out.nameMap);
    match a
    case Skip =>
      OutMore(cfg, out, start, pre, Preorder(n));
    case Descend => StayGrows(cfg, fileIdx, n, scope, out, start, pre);
    case Transparent(id) => StayGrows(cfg, fileIdx, n, scope.Reopen(id), out, start, pre);
    case Emit(kind, _, scopeName, isContainer, isFn, _) =>
      var out' := Emitted(cfg, fileIdx, n, scope, out, a);
      var inner := scope.Enter(out.nextId, scopeName, isContainer, isFn, kind);
      EmittedOut(cfg, fileIdx, n, scope, out, a, start, pre);
      assert out'.made[|out.made|..] == [Made(n.tag, n.kind, MadeSymbol(n, out.nextId, a, scope, fileIdx))];
      KidsGrow(cfg, fileIdx, n, 0, inner, out', start, pre + [n.tag]);
      GrownTwice(cfg, out, out', WalkedFrom(cfg, fileIdx, n, 0, inner, out'), start, pre, [n.tag], KidsPreorder(n, 0));
  }

  lemma {:induction false} StayGrows(cfg: LangConfig, fileIdx: nat, n: Node, scope: Scope, out: Output, start: nat,
                                     pre: seq<nat>)
    requires OutOk(cfg, out, start, pre)
    ensures Grown(cfg, out, WalkedFrom(cfg, fileIdx, n, 0, scope, out), start, pre, Preorder(n))
    decreases n, |n.children| + 1, 0
  {
    OutMore(cfg, out, start, pre, [n.tag]);
    assert Grown(cfg, out, out, start, pre, [n.tag]);
    KidsGrow(cfg, fileIdx, n, 0, scope, out, start, pre + [n.tag]);
    GrownTwice(cfg, out, out, WalkedFrom(cfg, fileIdx, n, 0, scope, out), start, pre, [n.tag], KidsPreorder(n, 0));
  }

  lemma {:induction false} KidsGrow(cfg: LangConfig, fileIdx: nat, n: Node, k: nat, scope: Scope, out: Output,
                                    start: nat, pre: seq<nat>)
    requires OutOk(cfg, out, start, pre) && k <= |n.children|
    ensures Grown(cfg, out, WalkedFrom(cfg, fileIdx, n, k, scope, out), start, pre, KidsPreorder(n, k))
    decreases n, |n.children| - k
  {
    if k == |n.children| {
      OutMore(cfg, out, start, pre, []);
    } else {
      var c := n.children[k];
      var mid := Walked(cfg, fileIdx, c, scope, out);
      WalkGrows(cfg, fileIdx, c, scope, out, start, pre);
      KidsGrow(cfg, fileIdx, n, k + 1, scope, mid, start, pre + Preorder(c));
      GrownTwice(cfg, out, mid, WalkedFrom(cfg, fileIdx, n, k, scope, out), start, pre, Preorder(c),
                 KidsPreorder(n, k + 1));
    }
  }

  // ---------- the walk visits each node in the scope of its path ----------

  /** A finished walk of a file. */
  datatype Walk = Walk(cfg: LangConfig, root: Node, fileIdx: nat, start: nat, made: seq<Made>)

  ghost function On(w: Walk, path: seq<Node>): Scope {
    ScopeOn(w.cfg, w.root, w.made, w.start, path)
  }

  /** The walk is about to visit `n` below `path`: tags before it, its own, tags behind it. */
  ghost predicate Visits(w: Walk, path: seq<Node>, n: Node, out: Output, pre: seq<nat>, post: seq<nat>) {
    && Unique(Preorder(w.root)) && Preorder(w.root) == pre + Preorder(n) + post
    && IsPath(w.root, path + [n]) && OutOk(w.cfg, out, w.start, pre)
  }

  /** The finished walk goes on from `made` with symbols for later nodes only. */
  ghost predicate GoesOn(w: Walk, made: seq<Made>, post: seq<nat>) {
    made <= w.made && TagsIn(w.made[|made|..], post)
  }

  /** Symbol k was made for the last node of a path, in the scope of the nodes above it. */
  ghost predicate MadeOn(w: Walk, path: seq<Node>, k: nat)
    requires k < |w.made|
  {
    && 0 < |path| && IsPath(w.root, path)
    && var n, scope := path[|path| - 1], On(w, path[..|path| - 1]);
       var a := ActionFor(w.cfg, n, scope, map[]);
       a.Emit? && w.made[k] == Made(n.tag, n.kind, MadeSymbol(n, w.start + k, a, scope, w.fileIdx))
  }

  ghost predicate Explained(w: Walk, k: nat)
    requires k < |w.made|
  {
    exists path :: MadeOn(w, path, k)
  }

  /** Symbols lo to hi are explained. */
  ghost predicate AllExplained(w: Walk, lo: nat, hi: nat) {
    hi <= |w.made| && forall k :: lo <= k < hi ==> Explained(w, k)
  }

  lemma {:induction false} MadeForFirst(made: seq<Made>, tag: nat, j: nat)
    requires j < |made| && made[j].tag == tag && forall i :: j < i < |made| ==> made[i].tag != tag
    ensures MadeFor(made, tag) == Some(j)
  {
    if j < |made| - 1 {
      MadeForFirst(made[..|made| - 1], tag, j);
    }
  }

  lemma {:induction false} LastNamedStays(cfg: LangConfig, made: seq<Made>, all: seq<Made>, before: seq<nat>,
                                          name: string)
    requires made <= all && forall j :: |made| <= j < |all| ==> all[j].tag !in before
    ensures LastNamed(cfg, all, before, name) == LastNamed(cfg, made, before, name)
    decreases |all|
  {
    if |made| < |all| {
      LastNamedStays(cfg, made, all[..|all| - 1], before, name);
    } else {
      assert made == all;
    }
  }

  /** Behind the visit of `n` itself, only symbols for nodes below and behind it are made. */
  lemma LaterTags(w: Walk, path: seq<Node>, n: Node, out: Output, pre: seq<nat>, post: seq<nat>, out': Output,
                  r: Output)
    requires Visits(w, path, n, out, pre, post) && GoesOn(w, r.made, post)
    requires Grown(w.cfg, out', r, w.start, pre + [n.tag], KidsPreorder(n, 0))
    ensures out'.made <= w.made
    ensures forall j :: |out'.made| <= j < |w.made| ==> w.made[j].tag != n.tag && w.made[j].tag !in pre
    ensures n.tag !in pre && Before(Preorder(w.root), n.tag) == pre
  {
    var kids := KidsPreorder(n, 0);
    assert pre + Preorder(n) + post == pre + ([n.tag] + (kids + post));
    assert pre + [n.tag] + (kids + post) == Preorder(w.root);
    Apart(pre, [n.tag], kids + post, n.tag);
    BeforeIs(pre, n.tag, kids + post);
    forall j | |out'.made| <= j < |w.made|
      ensures w.made[j].tag != n.tag && w.made[j].tag !in pre
    {
      if j < |r.made| {
        assert w.made[j] == r.made[|out'.made|..][j - |out'.made|];
      } else {
        assert w.made[j] == w.made[|r.made|..][j - |r.made|];
      }
      assert w.made[j].tag in kids + post;
      Apart(pre, [n.tag], kids + post, w.made[j].tag);
    }
  }

  lemma OnMore(w: Walk, path: seq<Node>, n: Node)
    ensures On(w, path + [n]) == ScopeBelow(w.cfg, w.root, w.made, w.start, On(w, path), n)
  {
    assert (path + [n])[..|path|] == path;
  }

  /** The symbol of an emitted node, and the scope below it. */
  lemma ScopeWhenEmitted(w: Walk, path: seq<Node>, n: Node, j: nat, a: Action)
    requires j < |w.made| && MadeFor(w.made, n.tag) == Some(j) && IsPath(w.root, path + [n])
    requires a == ActionFor(w.cfg, n, On(w, path), map[]) && a.Emit?
    requires w.made[j] == Made(n.tag, n.kind, MadeSymbol(n, w.start + j, a, On(w, path), w.fileIdx))
    ensures On(w, path + [n]) == On(w, path).Enter(w.start + j, a.scopeName, a.isContainer, a.isFn, a.kind)
    ensures MadeOn(w, path + [n], j)
  {
    EmitFacts(w.cfg, n, On(w, path), map[]);
    OnMore(w, path, n);
    var p := path + [n];
    assert p[|p| - 1] == n && p[..|p| - 1] == path;
  }

  lemma EmittedIsMade(w: Walk, path: seq<Node>, n: Node, out: Output, pre: seq<nat>, post: seq<nat>, a: Action,
                      r: Output)
    requires Visits(w, path, n, out, pre, post) && GoesOn(w, r.made, post)
    requires a == ActionFor(w.cfg, n, On(w, path), out.nameMap) && a.Emit?
    requires Grown(w.cfg, Emitted(w.cfg, w.fileIdx, n, On(w, path), out, a), r, w.start, pre + [n.tag],
                   KidsPreorder(n, 0))
    ensures |out.made| < |w.made| && MadeFor(w.made, n.tag) == Some(|out.made|)
    ensures w.made[|out.made|] == Made(n.tag, n.kind, MadeSymbol(n, w.start + |out.made|, a, On(w, path), w.fileIdx))
  {
    var out' := Emitted(w.cfg, w.fileIdx, n, On(w, path), out, a);
    LaterTags(w, path, n, out, pre, post, out', r);
    assert w.made[|out.made|] == out'.made[|out.made|];
    MadeForFirst(w.made, n.tag, |out.made|);
  }

  lemma NotMade(w: Walk, path: seq<Node>, n: Node, out: Output, pre: seq<nat>, post: seq<nat>, r: Output)
    requires Visits(w, path, n, out, pre, post) && GoesOn(w, r.made, post)
    requires Grown(w.cfg, out, r, w.start, pre + [n.tag], KidsPreorder(n, 0))
    ensures MadeFor(w.made, n.tag).None?
    ensures out.made <= w.made && Before(Preorder(w.root), n.tag) == pre
    ensures forall j :: |out.made| <= j < |w.made| ==> w.made[j].tag !in pre
  {
    LaterTags(w, path, n, out, pre, post, out, r);
  }

  /** A node without a symbol leaves the scope as it is, or reopens the last type of its name. */
  lemma ScopeWhenNot(w: Walk, path: seq<Node>, n: Node, out: Output, pre: seq<nat>, a: Action)
    requires OutOk(w.cfg, out, w.start, pre) && MadeFor(w.made, n.tag).None?
    requires out.made <= w.made && Before(Preorder(w.root), n.tag) == pre
    requires forall j :: |out.made| <= j < |w.made| ==> w.made[j].tag !in pre
    requires a == ActionFor(w.cfg, n, On(w, path), out.nameMap)
    ensures a.Transparent? ==> On(w, path + [n]) == On(w, path).Reopen(a.id)
    ensures a.Descend? ==> On(w, path + [n]) == On(w, path)
  {
    OnMore(w, path, n);
    var rule := TransparentRule(w.cfg.transparentKinds, n.kind);
    if rule.Some? && FieldText(n, rule.value).Some? {
      var name := FieldText(n, rule.value).value;
      LastNamedStays(w.cfg, out.made, w.made, pre, name);
      assert Remembered(w.cfg, out, w.start, pre, name);
    }
  }

  lemma {:induction false} WalkExplains(w: Walk, path: seq<Node>, n: Node, out: Output, pre: seq<nat>, post: seq<nat>)
    requires Visits(w, path, n, out, pre, post)
    requires GoesOn(w, Walked(w.cfg, w.fileIdx, n, On(w, path), out).made, post)
    ensures AllExplained(w, |out.made|, |Walked(w.cfg, w.fileIdx, n, On(w, path), out).made|)
    decreases n, |n.children| + 1, 2
  {
    var a := ActionFor(w.cfg, n, On(w, path), out.nameMap);
    match a
    case Skip =>
    case Descend =>
      WalkedOn(w.cfg, w.fileIdx, n, On(w, path), out, a, On(w, path));
      StayExplains(w, path, n, out, pre, post, a, On(w, path));
    case Transparent(id) =>
      WalkedOn(w.cfg, w.fileIdx, n, On(w, path), out, a, On(w, path).Reopen(id));
      StayExplains(w, path, n, out, pre, post, a, On(w, path).Reopen(id));
    case Emit(_, _, _, _, _, _) =>
      WalkedEmit(w.cfg, w.fileIdx, n, On(w, path), out, a);
      var inner := On(w, path).Enter(out.nextId, a.scopeName, a.isContainer, a.isFn, a.kind);
      EmitExplains(w, path, n, out, pre, post, a, inner, Emitted(w.cfg, w.fileIdx, n, On(w, path), out, a));
  }

  lemma {:induction false} StayExplains(w: Walk, path: seq<Node>, n: Node, out: Output, pre: seq<nat>, post: seq<nat>,
                                        a: Action, inner: Scope)
    requires Visits(w, path, n, out, pre, post) && a == ActionFor(w.cfg, n, On(w, path), out.nameMap)
    requires (a.Descend? && inner == On(w, path)) || (a.Transparent? && inner == On(w, path).Reopen(a.id))
    requires GoesOn(w, WalkedFrom(w.cfg, w.fileIdx, n, 0, inner, out).made, post)
    ensures AllExplained(w, |out.made|, |WalkedFrom(w.cfg, w.fileIdx, n, 0, inner, out).made|)
    decreases n, |n.children| + 1, 1
  {
    OutMore(w.cfg, out, w.start, pre, [n.tag]);
    KidsGrow(w.cfg, w.fileIdx, n, 0, inner, out, w.start, pre + [n.tag]);
    NotMade(w, path, n, out, pre, post, WalkedFrom(w.cfg, w.fileIdx, n, 0, inner, out));
    ScopeWhenNot(w, path, n, out, pre, a);
    BelowExplains(w, path, n, out, pre, post);
  }

  /** An emitted symbol is explained, and the walk goes on below it in the scope it opens. */
  lemma EmittedIsExplained(w: Walk, path: seq<Node>, n: Node, out: Output, pre: seq<nat>, post: seq<nat>, a: Action,
                           inner: Scope, out': Output)
    requires Visits(w, path, n, out, pre, post) && a == ActionFor(w.cfg, n, On(w, path), out.nameMap) && a.Emit?
    requires inner == On(w, path).Enter(out.nextId, a.scopeName, a.isContainer, a.isFn, a.kind)
    requires out' == Emitted(w.cfg, w.fileIdx, n, On(w, path), out, a)
    requires GoesOn(w, WalkedFrom(w.cfg, w.fileIdx, n, 0, inner, out').made, post)
    ensures On(w, path + [n]) == inner && OutOk(w.cfg, out', w.start, pre + [n.tag])
    ensures |out'.made| == |out.made| + 1 && |out.made| < |w.made| && Explained(w, |out.made|)
  {
    EmittedOut(w.cfg, w.fileIdx, n, On(w, path), out, a, w.start, pre);
    KidsGrow(w.cfg, w.fileIdx, n, 0, inner, out', w.start, pre + [n.tag]);
    EmittedIsMade(w, path, n, out, pre, post, a, WalkedFrom(w.cfg, w.fileIdx, n, 0, inner, out'));
    EmitFacts(w.cfg, n, On(w, path), out.nameMap);
    ScopeWhenEmitted(w, path, n, |out.made|, a);
  }

  lemma {:induction false} EmitExplains(w: Walk, path: seq<Node>, n: Node, out: Output, pre: seq<nat>, post: seq<nat>,
                                        a: Action, inner: Scope, out': Output)
    requires Visits(w, path, n, out, pre, post) && a == ActionFor(w.cfg, n, On(w, path), out.nameMap) && a.Emit?
    requires inner == On(w, path).Enter(out.nextId, a.scopeName, a.isContainer, a.isFn, a.kind)
    requires out' == Emitted(w.cfg, w.fileIdx, n, On(w, path), out, a)
    requires GoesOn(w, WalkedFrom(w.cfg, w.fileIdx, n, 0, inner, out').made, post)
    ensures AllExplained(w, |out.made|, |WalkedFrom(w.cfg, w.fileIdx, n, 0, inner, out').made|)
    decreases n, |n.children| + 1, 1
  {
    EmittedIsExplained(w, path, n, out, pre, post, a, inner, out');
    BelowExplains(w, path, n, out', pre, post);
  }

  /** The children of `n`, behind its own symbol. */
  lemma {:induction false} BelowExplains(w: Walk, path: seq<Node>, n: Node, out: Output, pre: seq<nat>,
                                         post: seq<nat>)
    requires Unique(Preorder(w.root)) && Preorder(w.root) == pre + Preorder(n) + post && IsPath(w.root, path + [n])
    requires OutOk(w.cfg, out, w.start, pre + [n.tag])
    requires GoesOn(w, WalkedFrom(w.cfg, w.fileIdx, n, 0, On(w, path + [n]), out).made, post)
    ensures AllExplained(w, |out.made|, |WalkedFrom(w.cfg, w.fileIdx, n, 0, On(w, path + [n]), out).made|)
    decreases n, |n.children| + 1, 0
  {
    assert pre + Preorder(n) + post == pre + [n.tag] + KidsPreorder(n, 0) + post;
    KidsExplain(w, path + [n], n, 0, out, pre + [n.tag], post);
  }

  lemma {:induction false} KidsExplain(w: Walk, path: seq<Node>, n: Node, k: nat, out: Output, pre: seq<nat>,
                                       post: seq<nat>)
    requires k <= |n.children| && 0 < |path| && path[|path| - 1] == n && IsPath(w.root, path)
    requires Unique(Preorder(w.root)) && Preorder(w.root) == pre + KidsPreorder(n, k) + post
    requires OutOk(w.cfg, out, w.start, pre)
    requires GoesOn(w, WalkedFrom(w.cfg, w.fileIdx, n, k, On(w, path), out).made, post)
    ensures AllExplained(w, |out.made|, |WalkedFrom(w.cfg, w.fileIdx, n, k, On(w, path), out).made|)
    decreases n, |n.children| - k, 0
  {
    if k < |n.children| {
      var c := n.children[k];
      var mid := Walked(w.cfg, w.fileIdx, c, On(w, path), out);
      WalkGrows(w.cfg, w.fileIdx, c, On(w, path), out, w.start, pre);
      KidsGrow(w.cfg, w.fileIdx, n, k + 1, On(w, path), mid, w.start, pre + Preorder(c));
      KidVisited(w, path, n, k, out, pre, post);
      WalkExplains(w, path, c, out, pre, KidsPreorder(n, k + 1) + post);
      assert pre + KidsPreorder(n, k) + post == pre + Preorder(c) + KidsPreorder(n, k + 1) + post;
      KidsExplain(w, path, n, k + 1, mid, pre + Preorder(c), post);
    }
  }

  /** Child k is visited with the later children and what follows still to come. */
  lemma KidVisited(w: Walk, path: seq<Node>, n: Node, k: nat, out: Output, pre: seq<nat>, post: seq<nat>)
    requires k < |n.children| && 0 < |path| && path[|path| - 1] == n && IsPath(w.root, path)
    requires Unique(Preorder(w.root)) && Preorder(w.root) == pre + KidsPreorder(n, k) + post
    requires OutOk(w.cfg, out, w.start, pre)
    requires var mid := Walked(w.cfg, w.fileIdx, n.children[k], On(w, path), out);
      var r := WalkedFrom(w.cfg, w.fileIdx, n, k, On(w, path), out);
      && GoesOn(w, r.made, post)
      && Grown(w.cfg, mid, r, w.start, pre + Preorder(n.children[k]), KidsPreorder(n, k + 1))
    ensures Visits(w, path, n.children[k], out, pre, KidsPreorder(n, k + 1) + post)
    ensures GoesOn(w, Walked(w.cfg, w.fileIdx, n.children[k], On(w, path), out).made, KidsPreorder(n, k + 1) + post)
  {
    var c, later := n.children[k], KidsPreorder(n, k + 1);
    var mid := Walked(w.cfg, w.fileIdx, c, On(w, path), out);
    var r := WalkedFrom(w.cfg, w.fileIdx, n, k, On(w, path), out);
    assert pre + KidsPreorder(n, k) + post == pre + Preorder(c) + (later + post);
    assert IsPath(w.root, path + [c]);
    var more := w.made[|mid.made|..];
    forall j | 0 <= j < |more|
      ensures more[j].tag in later + post
    {
      if |mid.made| + j < |r.made| {
        assert more[j] == r.made[|mid.made|..][j];
      } else {
        assert more[j] == w.made[|r.made|..][|mid.made| + j - |r.made|];
      }
    }
  }

  ghost function FileWalkOf(cfg: LangConfig, root: Node, fileIdx: nat, start: nat): Walk {
    Walk(cfg, root, fileIdx, start, FileWalk(cfg, root, fileIdx, start).made)
  }

  /** Every symbol of a file was made for the last node of a path from the root, in
    * the scope that the nodes above it opened. */
  lemma SymbolsAreExplained(cfg: LangConfig, root: Node, fileIdx: nat, start: nat, k: nat)
    requires DistinctTags(root) && k < |FileWalk(cfg, root, fileIdx, start).made|
    ensures Explained(FileWalkOf(cfg, root, fileIdx, start), k)
  {
    var w := FileWalkOf(cfg, root, fileIdx, start);
    var out := Output(start, [], [], map[]);
    RootIsVisited(w, out);
    WalkExplains(w, [], root, out, [], []);
  }

  lemma RootIsVisited(w: Walk, out: Output)
    requires DistinctTags(w.root) && out == Output(w.start, [], [], map[])
    ensures Visits(w, [], w.root, out, [], [])
  {
    forall t
      ensures multiset(Preorder(w.root))[t] <= 1
    {
      PreorderCounts(w.root, t);
      assert NodeCount(w.root, t) <= 1;
    }
    assert [] + Preorder(w.root) + [] == Preorder(w.root);
    forall name
      ensures Remembered(w.cfg, out, w.start, [], name)
    {
      assert LastNamed(w.cfg, [], [], name).None?;
    }
  }

  // ---------- which nodes get a symbol ----------

  /** The walk leaves out everything below this node of the path. */
  ghost predicate SkipsAt(w: Walk, path: seq<Node>, i: nat)
    requires i < |path|
  {
    ActionFor(w.cfg, path[i], On(w, path[..i]), map[]).Skip?
  }

  ghost predicate SkipsFrom(w: Walk, path: seq<Node>, i: nat) {
    exists j {:trigger SkipsAt(w, path, j)} :: i <= j < |path| - 1 && SkipsAt(w, path, j)
  }

  /** From node i of the path on: the last node has a symbol exactly if the walk gets
    * there and makes one. */
  ghost predicate Decided(w: Walk, path: seq<Node>, i: nat) {
    0 < |path| ==>
      var last := |path| - 1;
      MadeFor(w.made, path[last].tag).Some? <==>
      !SkipsFrom(w, path, i) && ActionFor(w.cfg, path[last], On(w, path[..last]), map[]).Emit?
  }

  lemma ActionKind(cfg: LangConfig, n: Node, scope: Scope, nameMap: map<string, nat>)
    ensures ActionFor(cfg, n, scope, nameMap).Skip? <==> ActionFor(cfg, n, scope, map[]).Skip?
    ensures ActionFor(cfg, n, scope, nameMap).Emit? <==> ActionFor(cfg, n, scope, map[]).Emit?
  {
  }

  lemma {:induction false} KidInPreorder(n: Node, k: nat, j: nat, tag: nat)
    requires k <= j < |n.children| && tag in Preorder(n.children[j])
    ensures tag in KidsPreorder(n, k)
    decreases j - k
  {
    if k < j {
      KidInPreorder(n, k + 1, j, tag);
    }
  }

  lemma {:induction false} LastInPreorder(root: Node, path: seq<Node>, i: nat)
    requires IsPath(root, path) && i < |path|
    ensures path[|path| - 1].tag in Preorder(path[i])
    decreases |path| - i
  {
    if i < |path| - 1 {
      LastInPreorder(root, path, i + 1);
      assert path[i + 1] in path[i].children;
      var k :| 0 <= k < |path[i].children| && path[i].children[k] == path[i + 1];
      KidInPreorder(path[i], 0, k, path[|path| - 1].tag);
    }
  }

  lemma {:induction false} NodeDecides(w: Walk, path: seq<Node>, i: nat, out: Output, pre: seq<nat>, post: seq<nat>)
    requires i < |path| && IsPath(w.root, path) && Visits(w, path[..i], path[i], out, pre, post)
    requires GoesOn(w, Walked(w.cfg, w.fileIdx, path[i], On(w, path[..i]), out).made, post)
    ensures Decided(w, path, i)
    decreases path[i], |path[i].children| + 1, 1
  {
    var n, scope := path[i], On(w, path[..i]);
    var a := ActionFor(w.cfg, n, scope, out.nameMap);
    ActionKind(w.cfg, n, scope, out.nameMap);
    match a
    case Skip =>
      WalkedSkip(w.cfg, w.fileIdx, n, scope, out);
      SkipDecides(w, path, i, out, pre, post);
    case Descend =>
      WalkedOn(w.cfg, w.fileIdx, n, scope, out, a, scope);
      StayDecides(w, path, i, out, pre, post, a, scope);
    case Transparent(id) =>
      WalkedOn(w.cfg, w.fileIdx, n, scope, out, a, scope.Reopen(id));
      StayDecides(w, path, i, out, pre, post, a, scope.Reopen(id));
    case Emit(_, _, _, _, _, _) =>
      WalkedEmit(w.cfg, w.fileIdx, n, scope, out, a);
      EmitDecides(w, path, i, out, pre, post, a);
  }

  lemma NoSymbolInside(w: Walk, made: seq<Made>, pre: seq<nat>, tags: seq<nat>, post: seq<nat>, t: nat)
    requires Unique(pre + tags + post) && TagsIn(made, pre) && GoesOn(w, made, post) && t in tags
    ensures MadeFor(w.made, t).None?
  {
    forall j | 0 <= j < |w.made|
      ensures w.made[j].tag != t
    {
      Apart(pre, tags, post, w.made[j].tag);
      if j < |made| {
        assert made[j].tag in pre;
      } else {
        assert w.made[j] == w.made[|made|..][j - |made|];
      }
    }
  }

  /** Nothing at or below a skipped node has a symbol. */
  lemma {:induction false} SkipDecides(w: Walk, path: seq<Node>, i: nat, out: Output, pre: seq<nat>, post: seq<nat>)
    requires i < |path| && IsPath(w.root, path) && Visits(w, path[..i], path[i], out, pre, post)
    requires SkipsAt(w, path, i) && GoesOn(w, out.made, post)
    ensures Decided(w, path, i)
  {
    LastInPreorder(w.root, path, i);
    NoSymbolInside(w, out.made, pre, Preorder(path[i]), post, path[|path| - 1].tag);
  }

  /** Below node i the question is one of node i + 1, if the walk goes on there. */
  lemma StepDecides(w: Walk, path: seq<Node>, i: nat)
    requires i < |path| - 1 && !SkipsAt(w, path, i) && Decided(w, path, i + 1)
    ensures Decided(w, path, i)
  {
    if SkipsFrom(w, path, i) {
      var j :| i <= j < |path| - 1 && SkipsAt(w, path, j);
      assert i + 1 <= j;
    }
  }

  lemma {:induction false} StayDecides(w: Walk, path: seq<Node>, i: nat, out: Output, pre: seq<nat>, post: seq<nat>,
                                       a: Action, inner: Scope)
    requires i < |path| && IsPath(w.root, path) && Visits(w, path[..i], path[i], out, pre, post)
    requires a == ActionFor(w.cfg, path[i], On(w, path[..i]), out.nameMap)
    requires (a.Descend? && inner == On(w, path[..i])) || (a.Transparent? && inner == On(w, path[..i]).Reopen(a.id))
    requires GoesOn(w, WalkedFrom(w.cfg, w.fileIdx, path[i], 0, inner, out).made, post)
    ensures Decided(w, path, i)
    decreases path[i], |path[i].children| + 1, 0
  {
    var n := path[i];
    OutMore(w.cfg, out, w.start, pre, [n.tag]);
    KidsGrow(w.cfg, w.fileIdx, n, 0, inner, out, w.start, pre + [n.tag]);
    NotMade(w, path[..i], n, out, pre, post, WalkedFrom(w.cfg, w.fileIdx, n, 0, inner, out));
    ScopeWhenNot(w, path[..i], n, out, pre, a);
    ActionKind(w.cfg, n, On(w, path[..i]), out.nameMap);
    if i < |path| - 1 {
      BelowDecides(w, path, i, out, pre, post);
    }
  }

  lemma {:induction false} EmitDecides(w: Walk, path: seq<Node>, i: nat, out: Output, pre: seq<nat>, post: seq<nat>,
                                       a: Action)
    requires i < |path| && IsPath(w.root, path) && Visits(w, path[..i], path[i], out, pre, post)
    requires a == ActionFor(w.cfg, path[i], On(w, path[..i]), out.nameMap) && a.Emit?
    requires var inner := On(w, path[..i]).Enter(out.nextId, a.scopeName, a.isContainer, a.isFn, a.kind);
      var out' := Emitted(w.cfg, w.fileIdx, path[i], On(w, path[..i]), out, a);
      GoesOn(w, WalkedFrom(w.cfg, w.fileIdx, path[i], 0, inner, out').made, post)
    ensures Decided(w, path, i)
    decreases path[i], |path[i].children| + 1, 0
  {
    var n, scope := path[i], On(w, path[..i]);
    var inner := scope.Enter(out.nextId, a.scopeName, a.isContainer, a.isFn, a.kind);
    var out' := Emitted(w.cfg, w.fileIdx, n, scope, out, a);
    EmittedOut(w.cfg, w.fileIdx, n, scope, out, a, w.start, pre);
    KidsGrow(w.cfg, w.fileIdx, n, 0, inner, out', w.start, pre + [n.tag]);
    EmittedIsMade(w, path[..i], n, out, pre, post, a, WalkedFrom(w.cfg, w.fileIdx, n, 0, inner, out'));
    EmitFacts(w.cfg, n, scope, out.nameMap);
    ScopeWhenEmitted(w, path[..i], n, |out.made|, a);
    if i < |path| - 1 {
      assert !SkipsAt(w, path, i);
      BelowDecides(w, path, i, out', pre, post);
    } else {
      EmittedLast(w, path, i);
    }
  }

  lemma EmittedLast(w: Walk, path: seq<Node>, i: nat)
    requires i + 1 == |path| && MadeFor(w.made, path[i].tag).Some?
    requires ActionFor(w.cfg, path[i], On(w, path[..i]), map[]).Emit?
    ensures Decided(w, path, i)
  {
  }

  lemma {:induction false} BelowDecides(w: Walk, path: seq<Node>, i: nat, out: Output, pre: seq<nat>, post: seq<nat>)
    requires i < |path| - 1 && IsPath(w.root, path) && !SkipsAt(w, path, i)
    requires Unique(Preorder(w.root)) && Preorder(w.root) == pre + Preorder(path[i]) + post
    requires OutOk(w.cfg, out, w.start, pre + [path[i].tag])
    requires GoesOn(w, WalkedFrom(w.cfg, w.fileIdx, path[i], 0, On(w, path[..i] + [path[i]]), out).made, post)
    ensures Decided(w, path, i)
    decreases path[i], |path[i].children|, 1
  {
    var n := path[i];
    assert path[..i] + [n] == path[..i + 1];
    assert pre + Preorder(n) + post == pre + [n.tag] + KidsPreorder(n, 0) + post;
    assert path[i + 1] in n.children;
    var j :| 0 <= j < |n.children| && n.children[j] == path[i + 1];
    KidsDecide(w, path, i, 0, j, out, pre + [n.tag], post);
    StepDecides(w, path, i);
  }

  lemma {:induction false} KidsDecide(w: Walk, path: seq<Node>, i: nat, k: nat, j: nat, out: Output, pre: seq<nat>,
                                      post: seq<nat>)
    requires i < |path| - 1 && IsPath(w.root, path)
    requires k <= j < |path[i].children| && path[i].children[j] == path[i + 1]
    requires Unique(Preorder(w.root)) && Preorder(w.root) == pre + KidsPreorder(path[i], k) + post
    requires OutOk(w.cfg, out, w.start, pre)
    requires GoesOn(w, WalkedFrom(w.cfg, w.fileIdx, path[i], k, On(w, path[..i + 1]), out).made, post)
    ensures Decided(w, path, i + 1)
    decreases path[i], |path[i].children| - k, 0
  {
    var n, c, above := path[i], path[i].children[k], path[..i + 1];
    var mid := Walked(w.cfg, w.fileIdx, c, On(w, above), out);
    WalkGrows(w.cfg, w.fileIdx, c, On(w, above), out, w.start, pre);
    KidsGrow(w.cfg, w.fileIdx, n, k + 1, On(w, above), mid, w.start, pre + Preorder(c));
    if k < j {
      assert pre + KidsPreorder(n, k) + post == pre + Preorder(c) + KidsPreorder(n, k + 1) + post;
      KidsDecide(w, path, i, k + 1, j, mid, pre + Preorder(c), post);
    } else {
      KidVisited(w, above, n, k, out, pre, post);
      NodeDecides(w, path, i + 1, out, pre, KidsPreorder(n, k + 1) + post);
    }
  }

  /** A node of a file has a symbol exactly if no node above it is skipped and the
    * scope it stands in lets it have one. */
  lemma NodeIsDecided(cfg: LangConfig, root: Node, fileIdx: nat, start: nat, path: seq<Node>)
    requires DistinctTags(root) && 0 < |path| && IsPath(root, path)
    ensures Decided(FileWalkOf(cfg, root, fileIdx, start), path, 0)
  {
    var w := FileWalkOf(cfg, root, fileIdx, start);
    var out := Output(start, [], [], map[]);
    RootIsVisited(w, out);
    assert path[..0] == [];
    NodeDecides(w, path, 0, out, [], []);
  }
}
