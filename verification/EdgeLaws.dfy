/** Which calls and references of a file become edges. */
module EdgeLaws {
  import opened Wrappers
  import opened Types
  import opened Walker
  import opened WalkerLaws

  // ---------- nodes and their tags ----------

  lemma {:induction false} InTreeCounts(n: Node, m: Node)
    requires InTree(n, m)
    ensures NodeCount(n, m.tag) >= 1
    decreases n
  {
    if m != n {
      var k :| 0 <= k < |n.children| && InTree(n.children[k], m);
      InTreeCounts(n.children[k], m);
      KidCounts(n, 0, k, m.tag);
    }
  }

  /** Child j counts among the children from k on. */
  lemma {:induction false} KidCounts(n: Node, k: nat, j: nat, tag: nat)
    requires k <= j < |n.children|
    ensures KidCount(n, k, tag) >= NodeCount(n.children[j], tag)
    decreases j - k
  {
    if k < j {
      KidCounts(n, k + 1, j, tag);
    }
  }

  lemma {:induction false} TwoKidsCount(n: Node, k: nat, i: nat, j: nat, tag: nat)
    requires k <= i < j < |n.children|
    ensures KidCount(n, k, tag) >= NodeCount(n.children[i], tag) + NodeCount(n.children[j], tag)
    decreases i - k
  {
    if k < i {
      TwoKidsCount(n, k + 1, i, j, tag);
    } else {
      KidCounts(n, k + 1, j, tag);
    }
  }

  /** Tags tell nodes apart. */
  lemma {:induction false} SameTagSameNode(n: Node, a: Node, b: Node)
    requires InTree(n, a) && InTree(n, b) && a.tag == b.tag && NodeCount(n, a.tag) <= 1
    ensures a == b
    decreases n
  {
    if a != n && b != n {
      var i :| 0 <= i < |n.children| && InTree(n.children[i], a);
      var j :| 0 <= j < |n.children| && InTree(n.children[j], b);
      InTreeCounts(n.children[i], a);
      InTreeCounts(n.children[j], b);
      if i == j {
        KidCounts(n, 0, i, a.tag);
        SameTagSameNode(n.children[i], a, b);
      } else {
        TwoKidsCount(n, 0, if i < j then i else j, if i < j then j else i, a.tag);
      }
    } else if a != b {
      var c := if a == n then b else a;
      var i :| 0 <= i < |n.children| && InTree(n.children[i], c);
      InTreeCounts(n.children[i], c);
      KidCounts(n, 0, i, c.tag);
    }
  }

  lemma {:induction false} InTreeTransitive(n: Node, m: Node, c: Node)
    requires InTree(n, m) && InTree(m, c)
    ensures InTree(n, c)
    decreases n
  {
    if m != n {
      var k :| 0 <= k < |n.children| && InTree(n.children[k], m);
      InTreeTransitive(n.children[k], m, c);
    }
  }

  // ---------- the edges an emitted symbol reads ----------

  /** `c` lies below `n`; neither it nor a node between them is a symbol node. */
  ghost predicate BelowNode(cfg: LangConfig, n: Node, c: Node)
    decreases n
  {
    exists k :: 0 <= k < |n.children| && cfg.KindFor(n.children[k]).None?
                && (n.children[k] == c || BelowNode(cfg, n.children[k], c))
  }

  lemma {:induction false} TagBelow(cfg: LangConfig, n: Node, t: nat) returns (c: Node)
    requires Below(cfg, n, t)
    ensures c.tag == t && BelowNode(cfg, n, c) && InTree(n, c)
    decreases n
  {
    var k :| 0 <= k < |n.children| && cfg.KindFor(n.children[k]).None?
             && (n.children[k].tag == t || Below(cfg, n.children[k], t));
    c := n.children[k];
    if c.tag != t {
      c := TagBelow(cfg, n.children[k], t);
    }
    assert InTree(n.children[k], c);
  }

  lemma {:induction false} ChildIsRead(cfg: LangConfig, n: Node, k: nat, j: nat, from: nat, f: Found)
    requires k <= j < |n.children| && f in ChildEdges(cfg, n.children[j], from)
    ensures f in EdgesBelow(cfg, n, k, from)
    decreases j - k
  {
    if k < j {
      ChildIsRead(cfg, n, k + 1, j, from, f);
    }
  }

  /** A symbol reads the edges of every node below it that no other symbol node hides. */
  lemma {:induction false} BelowIsRead(cfg: LangConfig, n: Node, c: Node, from: nat, f: Found)
    requires BelowNode(cfg, n, c) && f in EdgesAt(cfg, c, from)
    ensures f in EdgesBelow(cfg, n, 0, from)
    decreases n
  {
    var k :| 0 <= k < |n.children| && cfg.KindFor(n.children[k]).None?
             && (n.children[k] == c || BelowNode(cfg, n.children[k], c));
    if n.children[k] != c {
      BelowIsRead(cfg, n.children[k], c, from, f);
    }
    ChildIsRead(cfg, n, 0, k, from, f);
  }

  /** Symbol k was made for a symbol node of `n`, and all edges below that node are found. */
  ghost predicate Charged(cfg: LangConfig, n: Node, r: Output, start: nat, k: nat)
    requires k < |r.made|
  {
    exists m {:trigger InTree(n, m)} ::
      && InTree(n, m) && cfg.KindFor(m).Some? && m.tag == r.made[k].tag
      && AllFound(EdgesBelow(cfg, m, 0, start + k), r.found)
  }

  predicate AllFound(fs: seq<Found>, found: seq<Found>) {
    forall f :: f in fs ==> f in found
  }

  lemma ChargedGrows(cfg: LangConfig, c: Node, n: Node, i: nat, r: Output, r': Output, start: nat, k: nat)
    requires i < |n.children| && c == n.children[i] && r.made <= r'.made && r.found <= r'.found
    requires k < |r.made| && Charged(cfg, c, r, start, k)
    ensures Charged(cfg, n, r', start, k)
  {
    var m :| InTree(c, m) && cfg.KindFor(m).Some? && m.tag == r.made[k].tag
             && AllFound(EdgesBelow(cfg, m, 0, start + k), r.found);
    assert InTree(n, m);
  }

  lemma {:induction false} WalkCharges(cfg: LangConfig, fileIdx: nat, n: Node, scope: Scope, out: Output, start: nat,
                                       k: nat)
    requires cfg.Valid() && Dense(out, start) && OpenScopes(scope, start, out.nextId)
    requires |out.made| <= k < |Walked(cfg, fileIdx, n, scope, out).made|
    ensures Charged(cfg, n, Walked(cfg, fileIdx, n, scope, out), start, k)
    decreases n, |n.children| + 1, 1
  {
    ActionFacts(cfg, n, scope, out.nameMap);
    AsCharges(cfg, fileIdx, n, scope, out, ActionFor(cfg, n, scope, out.nameMap), start, k);
  }

  lemma {:induction false} AsCharges(cfg: LangConfig, fileIdx: nat, n: Node, scope: Scope, out: Output, a: Action,
                                     start: nat, k: nat)
    requires Dense(out, start) && OpenScopes(scope, start, out.nextId) && cfg.Valid()
    requires (a.Transparent? ==> start <= a.id < out.nextId) && (a.Emit? ==> cfg.KindFor(n).Some?)
    requires |out.made| <= k < |WalkedAs(cfg, fileIdx, n, scope, out, a).made|
    ensures Charged(cfg, n, WalkedAs(cfg, fileIdx, n, scope, out, a), start, k)
    decreases n, |n.children| + 1, 0
  {
    match a
    case Skip =>
    case Descend => FromCharges(cfg, fileIdx, n, 0, scope, out, start, k);
    case Transparent(id) => FromCharges(cfg, fileIdx, n, 0, scope.Reopen(id), out, start, k);
    case Emit(kind, _, scopeName, isContainer, isFn, _) =>
      var scope' := scope.Enter(out.nextId, scopeName, isContainer, isFn, kind);
      var out' := Emitted(cfg, fileIdx, n, scope, out, a);
      EmittedIsDense(cfg, fileIdx, n, scope, out, a, start);
      if k > |out.made| {
        FromCharges(cfg, fileIdx, n, 0, scope', out', start, k);
      } else {
        FromIsDense(cfg, fileIdx, n, 0, scope', out', start);
        EmittedCharges(cfg, fileIdx, n, scope, out, a, start, WalkedFrom(cfg, fileIdx, n, 0, scope', out'));
      }
  }

  lemma EmittedCharges(cfg: LangConfig, fileIdx: nat, n: Node, scope: Scope, out: Output, a: Action, start: nat,
                       r: Output)
    requires a.Emit? && cfg.KindFor(n).Some? && Dense(out, start)
    requires var out' := Emitted(cfg, fileIdx, n, scope, out, a); out'.found <= r.found && out'.made <= r.made
    ensures Charged(cfg, n, r, start, |out.made|)
  {
    var out' := Emitted(cfg, fileIdx, n, scope, out, a);
    assert r.made[|out.made|] == out'.made[|out.made|];
    assert InTree(n, n);
    forall f | f in EdgesBelow(cfg, n, 0, out.nextId)
      ensures f in r.found
    {
      assert f in out'.found;
    }
  }

  lemma {:induction false} FromCharges(cfg: LangConfig, fileIdx: nat, n: Node, j: nat, scope: Scope, out: Output,
                                       start: nat, k: nat)
    requires cfg.Valid() && j <= |n.children| && Dense(out, start) && OpenScopes(scope, start, out.nextId)
    requires |out.made| <= k < |WalkedFrom(cfg, fileIdx, n, j, scope, out).made|
    ensures Charged(cfg, n, WalkedFrom(cfg, fileIdx, n, j, scope, out), start, k)
    decreases n, |n.children| - j, 0
  {
    var c := n.children[j];
    var mid := Walked(cfg, fileIdx, c, scope, out);
    WalkIsDense(cfg, fileIdx, c, scope, out, start);
    if k >= |mid.made| {
      FromCharges(cfg, fileIdx, n, j + 1, scope, mid, start, k);
    } else {
      WalkCharges(cfg, fileIdx, c, scope, out, start, k);
      FromIsDense(cfg, fileIdx, n, j + 1, scope, mid, start);
      ChargedGrows(cfg, c, n, j, mid, WalkedFrom(cfg, fileIdx, n, j, scope, out), start, k);
    }
  }

  // ---------- exactly one edge ----------

  /** The node itself gives rise to an edge of this kind. */
  predicate Yields(cfg: LangConfig, c: Node, kind: EdgeKind) {
    match kind
    case Call => CallEdges(cfg, c, 0) != []
    case Ref => RefEdges(cfg, c, 0) != []
  }

  /** The nearest symbol node above `c` was made into a symbol. */
  ghost predicate HasSymbolAbove(cfg: LangConfig, root: Node, made: seq<Made>, c: Node) {
    exists m {:trigger BelowNode(cfg, m, c)} ::
      InTree(root, m) && cfg.KindFor(m).Some? && BelowNode(cfg, m, c)
      && exists k :: 0 <= k < |made| && made[k].tag == m.tag
  }

  lemma {:induction false} CountsSome(found: seq<Found>, tag: nat, kind: EdgeKind)
    ensures Count(found, tag, kind) > 0 <==> exists f :: f in found && f.tag == tag && f.edge.kind == kind
  {
    if |found| > 0 {
      var front, last := found[..|found| - 1], found[|found| - 1];
      CountsSome(front, tag, kind);
      assert found == front + [last];
    }
  }

  lemma FoundHasSymbol(cfg: LangConfig, root: Node, fileIdx: nat, start: nat, c: Node, f: Found)
    requires cfg.Valid() && DistinctTags(root) && InTree(root, c)
    requires f in FileWalk(cfg, root, fileIdx, start).found && f.tag == c.tag
    ensures HasSymbolAbove(cfg, root, FileWalk(cfg, root, fileIdx, start).made, c)
  {
    var r := FileWalk(cfg, root, fileIdx, start);
    FileWalkLaws(cfg, root, fileIdx, start);
    var i :| 0 <= i < |r.found| && r.found[i] == f;
    assert Owned(cfg, root, r.made, start, r.found[i]);
    var k := f.edge.from - start;
    var m :| InTree(root, m) && cfg.KindFor(m).Some? && m.tag == r.made[k].tag && Below(cfg, m, f.tag);
    var d := TagBelow(cfg, m, f.tag);
    InTreeTransitive(root, m, d);
    assert NodeCount(root, c.tag) <= 1;
    SameTagSameNode(root, c, d);
  }

  /** The node of symbol k, and what is found below it. */
  lemma SymbolReads(cfg: LangConfig, root: Node, fileIdx: nat, start: nat, m: Node, k: nat)
    requires cfg.Valid() && DistinctTags(root) && InTree(root, m)
    requires var r := FileWalk(cfg, root, fileIdx, start); k < |r.made| && r.made[k].tag == m.tag
    ensures AllFound(EdgesBelow(cfg, m, 0, start + k), FileWalk(cfg, root, fileIdx, start).found)
  {
    var r := FileWalk(cfg, root, fileIdx, start);
    WalkCharges(cfg, fileIdx, root, Scope([], [], [], 0, 0), Output(start, [], [], map[]), start, k);
    var m' :| InTree(root, m') && cfg.KindFor(m').Some? && m'.tag == r.made[k].tag
              && AllFound(EdgesBelow(cfg, m', 0, start + k), r.found);
    assert NodeCount(root, m.tag) <= 1;
    SameTagSameNode(root, m, m');
  }

  lemma OwnEdge(cfg: LangConfig, c: Node, kind: EdgeKind, from: nat) returns (f: Found)
    requires Yields(cfg, c, kind)
    ensures f in EdgesAt(cfg, c, from) && f.tag == c.tag && f.edge.kind == kind
  {
    f := if kind == Call then CallEdges(cfg, c, from)[0] else RefEdges(cfg, c, from)[0];
  }

  lemma SymbolFinds(cfg: LangConfig, root: Node, fileIdx: nat, start: nat, c: Node, kind: EdgeKind) returns (f: Found)
    requires cfg.Valid() && DistinctTags(root) && Yields(cfg, c, kind)
    requires HasSymbolAbove(cfg, root, FileWalk(cfg, root, fileIdx, start).made, c)
    ensures f in FileWalk(cfg, root, fileIdx, start).found && f.tag == c.tag && f.edge.kind == kind
  {
    var r := FileWalk(cfg, root, fileIdx, start);
    var m :| InTree(root, m) && cfg.KindFor(m).Some? && BelowNode(cfg, m, c)
             && exists k :: 0 <= k < |r.made| && r.made[k].tag == m.tag;
    var k :| 0 <= k < |r.made| && r.made[k].tag == m.tag;
    SymbolReads(cfg, root, fileIdx, start, m, k);
    f := OwnEdge(cfg, c, kind, start + k);
    BelowIsRead(cfg, m, c, start + k, f);
  }

  /** A call with a callee, or a reference, becomes exactly one edge if the nearest
    * symbol node above it was made into a symbol, and none otherwise. */
  lemma OneEdgeIffSymbolAbove(cfg: LangConfig, root: Node, fileIdx: nat, start: nat, c: Node, kind: EdgeKind)
    requires cfg.Valid() && DistinctTags(root) && InTree(root, c) && Yields(cfg, c, kind)
    ensures var r := FileWalk(cfg, root, fileIdx, start);
      Count(r.found, c.tag, kind) == if HasSymbolAbove(cfg, root, r.made, c) then 1 else 0
  {
    var r := FileWalk(cfg, root, fileIdx, start);
    WalkCount(cfg, fileIdx, root, Scope([], [], [], 0, 0), Output(start, [], [], map[]), c.tag, kind);
    assert NodeCount(root, c.tag) <= 1;
    CountsSome(r.found, c.tag, kind);
    if HasSymbolAbove(cfg, root, r.made, c) {
      var f := SymbolFinds(cfg, root, fileIdx, start, c, kind);
    } else if Count(r.found, c.tag, kind) > 0 {
      var f :| f in r.found && f.tag == c.tag && f.edge.kind == kind;
      FoundHasSymbol(cfg, root, fileIdx, start, c, f);
    }
  }

  // ---------- what a call is called ----------

  predicate IsName(n: Node) {
    n.kind in {"scoped_identifier", "identifier", "property_identifier"} && n.text != ""
  }

  /** A call of a plain name is an edge to that name, on the line of the call. */
  lemma PlainCall(cfg: LangConfig, c: Node, callee: Node, from: nat)
    requires c.kind in cfg.callNodes && c.Child(cfg.callField) == Some(callee) && IsName(callee)
    ensures CallEdges(cfg, c, from) == [Found(c.tag, Edge(from, Unresolved(callee.text), Call, c.row + 1))]
  {
  }

  /** A call of a member is an edge to the member's name, whatever it is a member of. */
  lemma MemberCall(cfg: LangConfig, c: Node, callee: Node, field: Node, from: nat)
    requires c.kind in cfg.callNodes && c.Child(cfg.callField) == Some(callee)
    requires callee.kind in {"field_expression", "member_expression", "selector_expression"}
    requires callee.Child("field") == Some(field) && IsName(field)
    ensures CallEdges(cfg, c, from) == [Found(c.tag, Edge(from, Unresolved(field.text), Call, c.row + 1))]
  {
    assert CallName(callee) == CallName(field) == field.text;
  }

  /** A call with type arguments is an edge to the name in front of them. */
  lemma GenericCall(cfg: LangConfig, c: Node, callee: Node, from: nat)
    requires c.kind in cfg.callNodes && c.Child(cfg.callField) == Some(callee)
    requires callee.kind in {"generic_function", "generic_type"} && 0 < |callee.children| && IsName(callee.children[0])
    ensures CallEdges(cfg, c, from) == [Found(c.tag, Edge(from, Unresolved(callee.children[0].text), Call, c.row + 1))]
  {
    assert CallName(callee) == CallName(callee.children[0]) == callee.children[0].text;
  }

  /** A reference is an edge to its text. */
  lemma Reference(cfg: LangConfig, c: Node, from: nat)
    requires c.kind == cfg.refNode && c.text != ""
    ensures RefEdges(cfg, c, from) == [Found(c.tag, Edge(from, Unresolved(c.text), Ref, c.row + 1))]
  {
  }
}
