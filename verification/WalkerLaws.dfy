/** What a walk guarantees about its symbols and edges. */
module WalkerLaws {
  import opened Wrappers
  import opened Types
  import opened Walker

  // ---------- dense ids, older parents ----------

  /** Symbol k has id `start + k`, and parents and remembered names are earlier symbols of the file. */
  ghost predicate Dense(out: Output, start: nat) {
    && out.nextId == start + |out.made|
    && (forall k :: 0 <= k < |out.made| ==>
          var sym := out.made[k].symbol;
          sym.id == start + k && (sym.parent.Some? ==> start <= sym.parent.value < sym.id))
    && forall name :: name in out.nameMap ==> start <= out.nameMap[name] < out.nextId
  }

  ghost predicate OpenScopes(scope: Scope, start: nat, nextId: nat) {
    forall i :: 0 <= i < |scope.ids| ==> start <= scope.ids[i] < nextId
  }

  /** What the laws need to know about the choice of action. */
  lemma ActionFacts(cfg: LangConfig, n: Node, scope: Scope, nameMap: map<string, nat>)
    ensures var a := ActionFor(cfg, n, scope, nameMap);
            && (a.Transparent? ==> exists name :: name in nameMap && nameMap[name] == a.id)
            && (cfg.Valid() && (a.Skip? || a.Emit?) ==> cfg.KindFor(n).Some?)
  {
    var rule := TransparentRule(cfg.transparentKinds, n.kind);
    if rule.Some? {
      var text := FieldText(n, rule.value);
      assert text.Some? && text.value in nameMap ==> nameMap[text.value] == nameMap[text.value];
    }
  }

  lemma {:induction false} WalkIsDense(cfg: LangConfig, fileIdx: nat, n: Node, scope: Scope, out: Output, start: nat)
    requires Dense(out, start) && OpenScopes(scope, start, out.nextId)
    ensures var r := Walked(cfg, fileIdx, n, scope, out);
            Dense(r, start) && out.made <= r.made && out.found <= r.found && out.nextId <= r.nextId
    decreases n, |n.children| + 1, 1
  {
    ActionFacts(cfg, n, scope, out.nameMap);
    AsIsDense(cfg, fileIdx, n, scope, out, ActionFor(cfg, n, scope, out.nameMap), start);
  }

  lemma {:induction false} AsIsDense(cfg: LangConfig, fileIdx: nat, n: Node, scope: Scope, out: Output, a: Action,
                                     start: nat)
    requires Dense(out, start) && OpenScopes(scope, start, out.nextId)
    requires a.Transparent? ==> start <= a.id < out.nextId
    ensures var r := WalkedAs(cfg, fileIdx, n, scope, out, a);
            Dense(r, start) && out.made <= r.made && out.found <= r.found && out.nextId <= r.nextId
    decreases n, |n.children| + 1, 0
  {
    match a
    case Skip =>
    case Descend => FromIsDense(cfg, fileIdx, n, 0, scope, out, start);
    case Transparent(id) => FromIsDense(cfg, fileIdx, n, 0, scope.Reopen(id), out, start);
    case Emit(kind, _, scopeName, isContainer, isFn, _) =>
      EmittedIsDense(cfg, fileIdx, n, scope, out, a, start);
      FromIsDense(cfg, fileIdx, n, 0, scope.Enter(out.nextId, scopeName, isContainer, isFn, kind),
                  Emitted(cfg, fileIdx, n, scope, out, a), start);
  }

  lemma EmittedIsDense(cfg: LangConfig, fileIdx: nat, n: Node, scope: Scope, out: Output, a: Action, start: nat)
    requires Dense(out, start) && OpenScopes(scope, start, out.nextId) && a.Emit?
    ensures Dense(Emitted(cfg, fileIdx, n, scope, out, a), start)
  {
  }

  lemma {:induction false} FromIsDense(cfg: LangConfig, fileIdx: nat, n: Node, k: nat, scope: Scope, out: Output,
                                       start: nat)
    requires k <= |n.children| && Dense(out, start) && OpenScopes(scope, start, out.nextId)
    ensures var r := WalkedFrom(cfg, fileIdx, n, k, scope, out);
            Dense(r, start) && out.made <= r.made && out.found <= r.found && out.nextId <= r.nextId
    decreases n, |n.children| - k, 0
  {
    if k < |n.children| {
      WalkIsDense(cfg, fileIdx, n.children[k], scope, out, start);
      FromIsDense(cfg, fileIdx, n, k + 1, scope, Walked(cfg, fileIdx, n.children[k], scope, out), start);
    }
  }

  // ---------- at most one edge of a kind per node ----------

  /** How many edges of a kind were read from the node with a tag. */
  function Count(found: seq<Found>, tag: nat, kind: EdgeKind): nat {
    if |found| == 0 then 0
    else
      var last := found[|found| - 1];
      Count(found[..|found| - 1], tag, kind) + if last.tag == tag && last.edge.kind == kind then 1 else 0
  }

  /** How many nodes of the tree carry a tag. */
  function NodeCount(n: Node, tag: nat): nat
    decreases n, |n.children| + 1
  {
    (if n.tag == tag then 1 else 0) + KidCount(n, 0, tag)
  }

  function KidCount(n: Node, k: nat, tag: nat): nat
    requires k <= |n.children|
    decreases n, |n.children| - k
  {
    if k == |n.children| then 0 else NodeCount(n.children[k], tag) + KidCount(n, k + 1, tag)
  }

  lemma {:induction false} CountConcat(a: seq<Found>, b: seq<Found>, tag: nat, kind: EdgeKind)
    ensures Count(a + b, tag, kind) == Count(a, tag, kind) + Count(b, tag, kind)
  {
    if |b| == 0 {
      assert a + b == a;
    } else {
      CountConcat(a, b[..|b| - 1], tag, kind);
      assert (a + b)[..|a + b| - 1] == a + b[..|b| - 1];
    }
  }

  lemma {:induction false} CountAt(cfg: LangConfig, c: Node, x: nat, y: nat, tag: nat, kind: EdgeKind)
    ensures Count(EdgesAt(cfg, c, x), tag, kind) == Count(EdgesAt(cfg, c, y), tag, kind)
         <= if c.tag == tag then 1 else 0
  {
    CountConcat(CallEdges(cfg, c, x), RefEdges(cfg, c, x), tag, kind);
    CountConcat(CallEdges(cfg, c, y), RefEdges(cfg, c, y), tag, kind);
  }

  /** Where edges come from does not depend on whom they are charged to. */
  lemma {:induction false} CountBelowFromAny(cfg: LangConfig, n: Node, k: nat, x: nat, y: nat, tag: nat, kind: EdgeKind)
    requires k <= |n.children|
    ensures Count(EdgesBelow(cfg, n, k, x), tag, kind) == Count(EdgesBelow(cfg, n, k, y), tag, kind)
    decreases n, |n.children| - k
  {
    if k < |n.children| {
      var c := n.children[k];
      CountBelowFromAny(cfg, n, k + 1, x, y, tag, kind);
      CountChildFromAny(cfg, c, x, y, tag, kind);
      CountConcat(ChildEdges(cfg, c, x), EdgesBelow(cfg, n, k + 1, x), tag, kind);
      CountConcat(ChildEdges(cfg, c, y), EdgesBelow(cfg, n, k + 1, y), tag, kind);
    }
  }

  lemma {:induction false} CountChild(cfg: LangConfig, c: Node, x: nat, tag: nat, kind: EdgeKind)
    requires cfg.KindFor(c).None?
    ensures Count(ChildEdges(cfg, c, x), tag, kind)
         == Count(EdgesAt(cfg, c, x), tag, kind) + Count(EdgesBelow(cfg, c, 0, x), tag, kind)
  {
    CountConcat(EdgesAt(cfg, c, x), EdgesBelow(cfg, c, 0, x), tag, kind);
  }

  lemma {:induction false} CountChildFromAny(cfg: LangConfig, c: Node, x: nat, y: nat, tag: nat, kind: EdgeKind)
    ensures Count(ChildEdges(cfg, c, x), tag, kind) == Count(ChildEdges(cfg, c, y), tag, kind)
    decreases c, |c.children| + 1
  {
    if cfg.KindFor(c).None? {
      CountBelowFromAny(cfg, c, 0, x, y, tag, kind);
      CountAt(cfg, c, x, y, tag, kind);
      CountChild(cfg, c, x, tag, kind);
      CountChild(cfg, c, y, tag, kind);
    }
  }

  /** The edges a walk adds, with those an enclosing symbol would read here, never exceed one of a kind per node. */
  lemma {:induction false} WalkCount(cfg: LangConfig, fileIdx: nat, n: Node, scope: Scope, out: Output, tag: nat,
                                     kind: EdgeKind)
    requires cfg.Valid()
    ensures Count(Walked(cfg, fileIdx, n, scope, out).found, tag, kind) + Count(ChildEdges(cfg, n, 0), tag, kind)
         <= Count(out.found, tag, kind) + NodeCount(n, tag)
    decreases n, |n.children| + 1, 1
  {
    ActionFacts(cfg, n, scope, out.nameMap);
    AsCount(cfg, fileIdx, n, scope, out, ActionFor(cfg, n, scope, out.nameMap), tag, kind);
  }

  lemma {:induction false} AsCount(cfg: LangConfig, fileIdx: nat, n: Node, scope: Scope, out: Output, a: Action,
                                   tag: nat, kind: EdgeKind)
    requires cfg.Valid() && (a.Skip? || a.Emit? ==> cfg.KindFor(n).Some?)
    ensures Count(WalkedAs(cfg, fileIdx, n, scope, out, a).found, tag, kind) + Count(ChildEdges(cfg, n, 0), tag, kind)
         <= Count(out.found, tag, kind) + NodeCount(n, tag)
    decreases n, |n.children| + 1, 0
  {
    ChildShare(cfg, n, tag, kind);
    match a
    case Skip =>
    case Descend => FromCount(cfg, fileIdx, n, 0, scope, out, tag, kind);
    case Transparent(id) => FromCount(cfg, fileIdx, n, 0, scope.Reopen(id), out, tag, kind);
    case Emit(k, _, scopeName, isContainer, isFn, _) =>
      var out' := Emitted(cfg, fileIdx, n, scope, out, a);
      EmittedCount(cfg, fileIdx, n, scope, out, a, tag, kind);
      FromCount(cfg, fileIdx, n, 0, scope.Enter(out.nextId, scopeName, isContainer, isFn, k), out', tag, kind);
  }

  /** What a node yields for an enclosing symbol: nothing if it is a symbol node
    * itself, else its own edge at most and those below it. */
  lemma {:induction false} ChildShare(cfg: LangConfig, n: Node, tag: nat, kind: EdgeKind)
    ensures cfg.KindFor(n).Some? ==> Count(ChildEdges(cfg, n, 0), tag, kind) == 0
    ensures Count(ChildEdges(cfg, n, 0), tag, kind)
         <= Count(EdgesBelow(cfg, n, 0, 0), tag, kind) + if n.tag == tag then 1 else 0
  {
    if cfg.KindFor(n).None? {
      CountChild(cfg, n, 0, tag, kind);
      CountAt(cfg, n, 0, 0, tag, kind);
    }
  }

  /** A new symbol reads the edges below its node. */
  lemma {:induction false} EmittedCount(cfg: LangConfig, fileIdx: nat, n: Node, scope: Scope, out: Output, a: Action,
                                        tag: nat, kind: EdgeKind)
    requires a.Emit?
    ensures Count(Emitted(cfg, fileIdx, n, scope, out, a).found, tag, kind)
         == Count(out.found, tag, kind) + Count(EdgesBelow(cfg, n, 0, 0), tag, kind)
  {
    CountConcat(out.found, EdgesBelow(cfg, n, 0, out.nextId), tag, kind);
    CountBelowFromAny(cfg, n, 0, out.nextId, 0, tag, kind);
  }

  lemma {:induction false} FromCount(cfg: LangConfig, fileIdx: nat, n: Node, k: nat, scope: Scope, out: Output,
                                     tag: nat, kind: EdgeKind)
    requires cfg.Valid() && k <= |n.children|
    ensures Count(WalkedFrom(cfg, fileIdx, n, k, scope, out).found, tag, kind)
          + Count(EdgesBelow(cfg, n, k, 0), tag, kind)
         <= Count(out.found, tag, kind) + KidCount(n, k, tag)
    decreases n, |n.children| - k, 0
  {
    if k < |n.children| {
      var c := n.children[k];
      WalkCount(cfg, fileIdx, c, scope, out, tag, kind);
      FromCount(cfg, fileIdx, n, k + 1, scope, Walked(cfg, fileIdx, c, scope, out), tag, kind);
      CountConcat(ChildEdges(cfg, c, 0), EdgesBelow(cfg, n, k + 1, 0), tag, kind);
    }
  }

  ghost predicate DistinctTags(n: Node) {
    forall tag: nat :: NodeCount(n, tag) <= 1
  }

  /** Each node of a file yields at most one call edge and at most one reference edge. */
  lemma OneEdgePerNode(cfg: LangConfig, root: Node, fileIdx: nat, start: nat, i: nat, j: nat)
    requires cfg.Valid() && DistinctTags(root)
    requires var found := FileWalk(cfg, root, fileIdx, start).found;
             i < j < |found| && found[i].edge.kind == found[j].edge.kind
    ensures var found := FileWalk(cfg, root, fileIdx, start).found; found[i].tag != found[j].tag
  {
    var found := FileWalk(cfg, root, fileIdx, start).found;
    var tag, kind := found[i].tag, found[i].edge.kind;
    WalkCount(cfg, fileIdx, root, Scope([], [], [], 0, 0), Output(start, [], [], map[]), tag, kind);
    assert NodeCount(root, tag) <= 1;
    if found[j].tag == tag {
      CountTwo(found, i, j);
    }
  }

  lemma {:induction false} CountTwo(found: seq<Found>, i: nat, j: nat)
    requires i < j < |found| && found[i].tag == found[j].tag && found[i].edge.kind == found[j].edge.kind
    ensures Count(found, found[i].tag, found[i].edge.kind) >= 2
  {
    var tag, kind := found[i].tag, found[i].edge.kind;
    CountConcat(found[..j], found[j..], tag, kind);
    CountConcat(found[..i], found[i..j], tag, kind);
    assert found == found[..j] + found[j..] && found[..j] == found[..i] + found[i..j];
    CountFirst(found[j..]);
    CountFirst(found[i..j]);
  }

  lemma {:induction false} CountFirst(found: seq<Found>)
    requires 0 < |found|
    ensures Count(found, found[0].tag, found[0].edge.kind) >= 1
  {
    if |found| > 1 {
      CountFirst(found[..|found| - 1]);
    }
  }

  // ---------- edges belong to the nearest enclosing symbol ----------

  /** Node `t` lies below `n` with no symbol node between them, nor is one itself. */
  ghost predicate Below(cfg: LangConfig, n: Node, t: nat)
    decreases n
  {
    exists k :: 0 <= k < |n.children| && cfg.KindFor(n.children[k]).None?
                && (n.children[k].tag == t || Below(cfg, n.children[k], t))
  }

  ghost predicate InTree(n: Node, m: Node)
    decreases n
  {
    m == n || exists k :: 0 <= k < |n.children| && InTree(n.children[k], m)
  }

  lemma {:induction false} EdgesAreBelow(cfg: LangConfig, n: Node, k: nat, from: nat, i: nat)
    requires k <= |n.children| && i < |EdgesBelow(cfg, n, k, from)|
    ensures EdgesBelow(cfg, n, k, from)[i].edge.from == from && Below(cfg, n, EdgesBelow(cfg, n, k, from)[i].tag)
    decreases n, |n.children| - k
  {
    var c := n.children[k];
    var own := ChildEdges(cfg, c, from);
    if i < |own| {
      var at := EdgesAt(cfg, c, from);
      if i >= |at| {
        EdgesAreBelow(cfg, c, 0, from, i - |at|);
        assert own[i] == EdgesBelow(cfg, c, 0, from)[i - |at|];
      }
      assert cfg.KindFor(n.children[k]).None?;
    } else {
      EdgesAreBelow(cfg, n, k + 1, from, i - |own|);
    }
  }

  /** The edge's source is the symbol made for a symbol node of `n` right above the edge's node. */
  ghost predicate Owned(cfg: LangConfig, n: Node, made: seq<Made>, start: nat, f: Found) {
    && start <= f.edge.from < start + |made|
    && exists m :: InTree(n, m) && cfg.KindFor(m).Some? && m.tag == made[f.edge.from - start].tag
         && Below(cfg, m, f.tag)
  }

  lemma OwnedGrows(cfg: LangConfig, c: Node, n: Node, k: nat, made: seq<Made>, made': seq<Made>, start: nat, f: Found)
    requires k < |n.children| && c == n.children[k] && made <= made' && Owned(cfg, c, made, start, f)
    ensures Owned(cfg, n, made', start, f)
  {
    var m :| InTree(c, m) && cfg.KindFor(m).Some? && m.tag == made[f.edge.from - start].tag && Below(cfg, m, f.tag);
    assert InTree(n, m);
  }

  lemma {:induction false} WalkOwns(cfg: LangConfig, fileIdx: nat, n: Node, scope: Scope, out: Output, start: nat,
                                    i: nat)
    requires cfg.Valid() && Dense(out, start) && OpenScopes(scope, start, out.nextId)
    requires |out.found| <= i < |Walked(cfg, fileIdx, n, scope, out).found|
    ensures var r := Walked(cfg, fileIdx, n, scope, out); Owned(cfg, n, r.made, start, r.found[i])
    decreases n, |n.children| + 1, 1
  {
    ActionFacts(cfg, n, scope, out.nameMap);
    AsOwns(cfg, fileIdx, n, scope, out, ActionFor(cfg, n, scope, out.nameMap), start, i);
  }

  lemma {:induction false} AsOwns(cfg: LangConfig, fileIdx: nat, n: Node, scope: Scope, out: Output, a: Action,
                                  start: nat, i: nat)
    requires Dense(out, start) && OpenScopes(scope, start, out.nextId) && cfg.Valid()
    requires (a.Transparent? ==> start <= a.id < out.nextId) && (a.Emit? ==> cfg.KindFor(n).Some?)
    requires |out.found| <= i < |WalkedAs(cfg, fileIdx, n, scope, out, a).found|
    ensures var r := WalkedAs(cfg, fileIdx, n, scope, out, a); Owned(cfg, n, r.made, start, r.found[i])
    decreases n, |n.children| + 1, 0
  {
    match a
    case Skip =>
    case Descend => FromOwns(cfg, fileIdx, n, 0, scope, out, start, i);
    case Transparent(id) => FromOwns(cfg, fileIdx, n, 0, scope.Reopen(id), out, start, i);
    case Emit(kind, _, scopeName, isContainer, isFn, _) =>
      var scope' := scope.Enter(out.nextId, scopeName, isContainer, isFn, kind);
      var out' := Emitted(cfg, fileIdx, n, scope, out, a);
      EmittedIsDense(cfg, fileIdx, n, scope, out, a, start);
      FromIsDense(cfg, fileIdx, n, 0, scope', out', start);
      if i >= |out'.found| {
        FromOwns(cfg, fileIdx, n, 0, scope', out', start, i);
      } else {
        EmittedOwns(cfg, fileIdx, n, scope, out, a, start, WalkedFrom(cfg, fileIdx, n, 0, scope', out'), i);
      }
  }

  lemma EmittedOwns(cfg: LangConfig, fileIdx: nat, n: Node, scope: Scope, out: Output, a: Action, start: nat,
                    r: Output, i: nat)
    requires a.Emit? && cfg.KindFor(n).Some? && Dense(out, start)
    requires var out' := Emitted(cfg, fileIdx, n, scope, out, a);
             out'.found <= r.found && out'.made <= r.made && |out.found| <= i < |out'.found|
    ensures Owned(cfg, n, r.made, start, r.found[i])
  {
    var out' := Emitted(cfg, fileIdx, n, scope, out, a);
    EdgesAreBelow(cfg, n, 0, out.nextId, i - |out.found|);
    assert r.found[i] == out'.found[i] && r.made[|out.made|] == out'.made[|out.made|];
    assert InTree(n, n);
  }

  lemma {:induction false} FromOwns(cfg: LangConfig, fileIdx: nat, n: Node, k: nat, scope: Scope, out: Output,
                                    start: nat, i: nat)
    requires cfg.Valid() && k <= |n.children| && Dense(out, start) && OpenScopes(scope, start, out.nextId)
    requires |out.found| <= i < |WalkedFrom(cfg, fileIdx, n, k, scope, out).found|
    ensures var r := WalkedFrom(cfg, fileIdx, n, k, scope, out); Owned(cfg, n, r.made, start, r.found[i])
    decreases n, |n.children| - k, 0
  {
    var c := n.children[k];
    var mid := Walked(cfg, fileIdx, c, scope, out);
    WalkIsDense(cfg, fileIdx, c, scope, out, start);
    if i >= |mid.found| {
      FromOwns(cfg, fileIdx, n, k + 1, scope, mid, start, i);
    } else {
      WalkOwns(cfg, fileIdx, c, scope, out, start, i);
      FromIsDense(cfg, fileIdx, n, k + 1, scope, mid, start);
      var r := WalkedFrom(cfg, fileIdx, n, k, scope, out);
      assert r.found[i] == mid.found[i];
      OwnedGrows(cfg, c, n, k, mid.made, r.made, start, r.found[i]);
    }
  }

  /** The guarantees for a file: dense ids, older parents, edges from the nearest enclosing symbol. */
  lemma FileWalkLaws(cfg: LangConfig, root: Node, fileIdx: nat, start: nat)
    requires cfg.Valid()
    ensures var r := FileWalk(cfg, root, fileIdx, start);
            && Dense(r, start)
            && forall i :: 0 <= i < |r.found| ==> Owned(cfg, root, r.made, start, r.found[i])
  {
    var scope, out := Scope([], [], [], 0, 0), Output(start, [], [], map[]);
    WalkIsDense(cfg, fileIdx, root, scope, out, start);
    forall i | 0 <= i < |FileWalk(cfg, root, fileIdx, start).found|
      ensures var r := FileWalk(cfg, root, fileIdx, start); Owned(cfg, root, r.made, start, r.found[i])
    {
      WalkOwns(cfg, fileIdx, root, scope, out, start, i);
    }
  }

  // ---------- every symbol belongs to the file and is qualified ----------

  /** What emission writes into a symbol besides its id and parent. */
  ghost predicate OfFile(m: Made, fileIdx: nat) {
    && m.symbol.fileIdx == fileIdx
    && exists qualifier :: m.symbol.qualified == Qualify(qualifier, m.symbol.name)
  }

  ghost predicate AllOfFile(made: seq<Made>, fileIdx: nat) {
    forall i {:trigger OfFile(made[i], fileIdx)} :: 0 <= i < |made| ==> OfFile(made[i], fileIdx)
  }

  lemma {:induction false} WalkOfFile(cfg: LangConfig, fileIdx: nat, n: Node, scope: Scope, out: Output)
    requires AllOfFile(out.made, fileIdx)
    ensures AllOfFile(Walked(cfg, fileIdx, n, scope, out).made, fileIdx)
    decreases n, |n.children| + 1, 1
  {
    AsOfFile(cfg, fileIdx, n, scope, out, ActionFor(cfg, n, scope, out.nameMap));
  }

  lemma {:induction false} AsOfFile(cfg: LangConfig, fileIdx: nat, n: Node, scope: Scope, out: Output, a: Action)
    requires AllOfFile(out.made, fileIdx)
    ensures AllOfFile(WalkedAs(cfg, fileIdx, n, scope, out, a).made, fileIdx)
    decreases n, |n.children| + 1, 0
  {
    match a
    case Skip =>
    case Descend => FromOfFile(cfg, fileIdx, n, 0, scope, out);
    case Transparent(id) => FromOfFile(cfg, fileIdx, n, 0, scope.Reopen(id), out);
    case Emit(kind, _, scopeName, isContainer, isFn, _) =>
      var out' := Emitted(cfg, fileIdx, n, scope, out, a);
      assert OfFile(out'.made[|out.made|], fileIdx) by {
        assert out'.made[|out.made|].symbol.qualified == Qualify(Qualifier(scope.names), a.name);
      }
      FromOfFile(cfg, fileIdx, n, 0, scope.Enter(out.nextId, scopeName, isContainer, isFn, kind), out');
  }

  lemma {:induction false} FromOfFile(cfg: LangConfig, fileIdx: nat, n: Node, k: nat, scope: Scope, out: Output)
    requires k <= |n.children| && AllOfFile(out.made, fileIdx)
    ensures AllOfFile(WalkedFrom(cfg, fileIdx, n, k, scope, out).made, fileIdx)
    decreases n, |n.children| - k, 0
  {
    if k < |n.children| {
      WalkOfFile(cfg, fileIdx, n.children[k], scope, out);
      FromOfFile(cfg, fileIdx, n, k + 1, scope, Walked(cfg, fileIdx, n.children[k], scope, out));
    }
  }

  lemma FileIndexes(cfg: LangConfig, root: Node, fileIdx: nat, start: nat)
    ensures AllOfFile(FileWalk(cfg, root, fileIdx, start).made, fileIdx)
  {
    WalkOfFile(cfg, fileIdx, root, Scope([], [], [], 0, 0), Output(start, [], [], map[]));
  }
}
