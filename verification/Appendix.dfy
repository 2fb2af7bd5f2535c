/** The appendix of a chunk: the chunked symbols its symbol calls, directly or
  * through one chunked callee. */
module Appendix {
  import opened Types

  const APPENDIX_DEPTH: nat := 2
  const APPENDIX_CAP_PER_CHUNK: nat := 32

  /** Outgoing edges by source symbol. */
  type Graph = map<nat, seq<Edge>>

  ghost predicate Calls(g: Graph, a: nat, b: nat) {
    a in g && exists i :: 0 <= i < |g[a]| && g[a][i].kind == Call && g[a][i].to == Resolved(b)
  }

  /** Symbols reachable from `start` by at most n calls, every symbol on the way chunked. */
  ghost function Within(g: Graph, chunked: set<nat>, start: nat, n: nat): set<nat> {
    if n == 0 then {start}
    else
      var prev := Within(g, chunked, start, n - 1);
      prev + set r | r in chunked && exists m :: m in prev && Calls(g, m, r)
  }

  lemma {:induction false} WithinGrows(g: Graph, chunked: set<nat>, start: nat, m: nat, n: nat)
    requires m <= n
    ensures Within(g, chunked, start, m) <= Within(g, chunked, start, n)
    decreases n
  {
    if m < n {
      WithinGrows(g, chunked, start, m, n - 1);
    }
  }

  // ---------- the search ----------

  datatype Entry = Entry(id: nat, depth: nat)

  predicate Holds(order: seq<Entry>, r: nat) {
    exists i :: 0 <= i < |order| && order[i].id == r
  }

  /** An entry's depth is the exact call distance of its symbol. */
  ghost predicate Exact(g: Graph, chunked: set<nat>, start: nat, e: Entry) {
    && e.depth <= APPENDIX_DEPTH
    && e.id in Within(g, chunked, start, e.depth)
    && (0 < e.depth ==> e.id in chunked && e.id !in Within(g, chunked, start, e.depth - 1))
  }

  predicate Precedes(order: seq<Entry>, i: nat, j: nat)
    requires i < |order| && j < |order|
  {
    order[i].id != order[j].id && order[i].depth <= order[j].depth
  }

  /** Everything queued so far, in order: distinct symbols at nondecreasing exact distance. */
  ghost predicate Queued(g: Graph, chunked: set<nat>, start: nat, order: seq<Entry>) {
    && 0 < |order| && order[0] == Entry(start, 0)
    && (forall i: nat, j: nat {:trigger Precedes(order, i, j)} :: i < j < |order| ==> Precedes(order, i, j))
    && (forall i: nat {:trigger Exact(g, chunked, start, order[i])} ::
          i < |order| ==> Exact(g, chunked, start, order[i]))
  }

  /** Every chunked callee of a shallow symbol queued before position h is queued. */
  ghost predicate Closed(g: Graph, chunked: set<nat>, order: seq<Entry>, h: nat) {
    h <= |order| &&
    forall j, r :: 0 <= j < h && order[j].depth < APPENDIX_DEPTH && r in chunked && Calls(g, order[j].id, r) ==>
      Holds(order, r)
  }

  /** While position h is expanded: all symbols up to its distance are queued, none beyond the next. */
  ghost predicate Frontier(g: Graph, chunked: set<nat>, start: nat, order: seq<Entry>, h: nat)
    requires h < |order|
  {
    && (forall r :: r in Within(g, chunked, start, order[h].depth) ==> Holds(order, r))
    && forall i :: 0 <= i < |order| ==> order[i].depth <= order[h].depth + 1
  }

  /** `visited` agrees with the queue on the symbols that matter. */
  ghost predicate Marks(chunked: set<nat>, start: nat, order: seq<Entry>, visited: set<nat>) {
    forall r :: r in chunked || r == start ==> (r in visited <==> Holds(order, r))
  }

  /** A callee found at the frontier is exactly one call further away. */
  lemma CalleeIsExact(g: Graph, chunked: set<nat>, start: nat, order: seq<Entry>, h: nat, r: nat)
    requires Queued(g, chunked, start, order) && h < |order| && order[h].depth < APPENDIX_DEPTH
    requires Frontier(g, chunked, start, order, h)
    requires r in chunked && !Holds(order, r) && Calls(g, order[h].id, r)
    ensures Exact(g, chunked, start, Entry(r, order[h].depth + 1))
  {
    assert Exact(g, chunked, start, order[h]);
    assert order[h].id in Within(g, chunked, start, order[h].depth);
  }

  lemma QueueOne(g: Graph, chunked: set<nat>, start: nat, order: seq<Entry>, h: nat, r: nat)
    requires Queued(g, chunked, start, order) && h < |order| && order[h].depth < APPENDIX_DEPTH
    requires Closed(g, chunked, order, h) && Frontier(g, chunked, start, order, h)
    requires r in chunked && !Holds(order, r) && Calls(g, order[h].id, r)
    ensures var order' := order + [Entry(r, order[h].depth + 1)];
            && Queued(g, chunked, start, order') && Closed(g, chunked, order', h)
            && Frontier(g, chunked, start, order', h)
  {
    var e := Entry(r, order[h].depth + 1);
    var order' := order + [e];
    CalleeIsExact(g, chunked, start, order, h, r);
    HoldsAppend(order, e);
    forall i: nat, j: nat | i < j < |order'|
      ensures Precedes(order', i, j)
    {
      if j < |order| {
        assert Precedes(order, i, j);
      } else {
        assert order[i].depth <= e.depth && order[i].id != r;
      }
    }
    forall i: nat | i < |order'|
      ensures Exact(g, chunked, start, order'[i])
    {
      assert i < |order| ==> Exact(g, chunked, start, order[i]);
    }
  }

  lemma HoldsAppend(order: seq<Entry>, e: Entry)
    ensures forall r :: Holds(order + [e], r) <==> Holds(order, r) || r == e.id
  {
    var all := order + [e];
    assert all[|order|] == e;
    forall r | Holds(order, r)
      ensures Holds(all, r)
    {
      var i :| 0 <= i < |order| && order[i].id == r;
      assert all[i].id == r;
    }
  }

  /** What the inner loop keeps while position h is expanded. */
  ghost predicate Expanding(g: Graph, chunked: set<nat>, start: nat, order: seq<Entry>, h: nat,
                            queue: seq<Entry>, visited: set<nat>, out: seq<nat>) {
    && h < |order| && order[h].depth < APPENDIX_DEPTH
    && Queued(g, chunked, start, order) && Closed(g, chunked, order, h) && Frontier(g, chunked, start, order, h)
    && Marks(chunked, start, order, visited) && queue == order[h + 1..] && IsCapped(order, out)
  }

  lemma MarksAppend(chunked: set<nat>, start: nat, order: seq<Entry>, visited: set<nat>, e: Entry)
    requires Marks(chunked, start, order, visited)
    ensures Marks(chunked, start, order + [e], visited + {e.id})
  {
    HoldsAppend(order, e);
  }

  /** One callee that has not been visited and may be listed. */
  method Enqueue(g: Graph, chunked: set<nat>, start: nat, ghost order: seq<Entry>, ghost h: nat, depth: nat, rid: nat,
                 queue0: seq<Entry>, visited: set<nat>, out0: seq<nat>)
    returns (queue: seq<Entry>, out: seq<nat>)
    requires Expanding(g, chunked, start, order, h, queue0, visited, out0) && depth == order[h].depth
    requires rid in chunked && rid !in visited && Calls(g, order[h].id, rid)
    ensures Expanding(g, chunked, start, order + [Entry(rid, depth + 1)], h, queue, visited + {rid}, out)
    ensures forall r :: Holds(order + [Entry(rid, depth + 1)], r) <==> Holds(order, r) || r == rid
  {
    QueueOne(g, chunked, start, order, h, rid);
    CappedAppend(order, Entry(rid, depth + 1), out0);
    HoldsAppend(order, Entry(rid, depth + 1));
    MarksAppend(chunked, start, order, visited, Entry(rid, depth + 1));
    out := if |out0| < APPENDIX_CAP_PER_CHUNK then out0 + [rid] else out0;
    queue := queue0 + [Entry(rid, depth + 1)];
  }

  /** Expand one queued symbol: the inner loop over its outgoing edges. */
  method Expand(g: Graph, chunked: set<nat>, start: nat, ghost order0: seq<Entry>, ghost h: nat, cur: Entry,
                queue0: seq<Entry>, visited0: set<nat>, out0: seq<nat>)
    returns (queue: seq<Entry>, visited: set<nat>, out: seq<nat>, ghost order: seq<Entry>)
    requires Queued(g, chunked, start, order0) && h < |order0| && order0[h] == cur && cur.depth < APPENDIX_DEPTH
    requires Closed(g, chunked, order0, h) && Frontier(g, chunked, start, order0, h)
    requires Marks(chunked, start, order0, visited0)
    requires queue0 == order0[h + 1..] && IsCapped(order0, out0)
    ensures Queued(g, chunked, start, order) && order0 <= order && Closed(g, chunked, order, h + 1)
    ensures Frontier(g, chunked, start, order, h) && Marks(chunked, start, order, visited)
    ensures queue == order[h + 1..] && IsCapped(order, out)
    ensures visited0 <= visited <= visited0 + Targets(g) && (visited == visited0 ==> queue == queue0)
  {
    queue, visited, out, order := queue0, visited0, out0, order0;
    if cur.id !in g {
      return;
    }
    var edges := g[cur.id];
    for i := 0 to |edges|
      invariant Expanding(g, chunked, start, order, h, queue, visited, out) && order0 <= order
      invariant visited0 <= visited <= visited0 + Targets(g) && (visited == visited0 ==> queue == queue0)
      invariant forall j :: 0 <= j < i && edges[j].kind == Call && edges[j].to.Resolved? && edges[j].to.id in chunked
                  ==> Holds(order, edges[j].to.id)
    {
      if edges[i].kind == Call && edges[i].to.Resolved? {
        var rid := edges[i].to.id;
        if rid !in visited {
          assert rid in Targets(g);
          if rid in chunked {
            assert Calls(g, order[h].id, rid);
            queue, out := Enqueue(g, chunked, start, order, h, cur.depth, rid, queue, visited, out);
            order := order + [Entry(rid, cur.depth + 1)];
          }
          visited := visited + {rid};
        }
      }
    }
  }

  ghost function Targets(g: Graph): set<nat> {
    set a, i | a in g && 0 <= i < |g[a]| && g[a][i].to.Resolved? :: g[a][i].to.id
  }

  /** The output is the queued symbols after the start, cut at the cap. */
  ghost predicate IsCapped(order: seq<Entry>, out: seq<nat>) {
    && 0 < |order|
    && |out| == (if |order| - 1 < APPENDIX_CAP_PER_CHUNK then |order| - 1 else APPENDIX_CAP_PER_CHUNK)
    && forall i :: 0 <= i < |out| ==> out[i] == order[i + 1].id
  }

  lemma CappedAppend(order: seq<Entry>, e: Entry, out: seq<nat>)
    requires IsCapped(order, out)
    ensures IsCapped(order + [e], if |out| < APPENDIX_CAP_PER_CHUNK then out + [e.id] else out)
  {
  }

  /** When the search moves on to a deeper symbol, its whole distance class is queued. */
  lemma MoveOn(g: Graph, chunked: set<nat>, start: nat, order: seq<Entry>, h: nat)
    requires Queued(g, chunked, start, order) && Closed(g, chunked, order, h + 1) && h + 1 < |order|
    requires Frontier(g, chunked, start, order, h)
    ensures Frontier(g, chunked, start, order, h + 1)
  {
    var d := order[h].depth;
    assert Precedes(order, h, h + 1) && Exact(g, chunked, start, order[h + 1]);
    if order[h + 1].depth > d {
      forall j: nat | h + 1 < j < |order|
        ensures order[j].depth > d
      {
        assert Precedes(order, h + 1, j);
      }
      NextClass(g, chunked, start, order, h + 1, d);
    }
  }

  /** If all symbols within distance d are queued and expanded, those within d + 1 are queued. */
  lemma NextClass(g: Graph, chunked: set<nat>, start: nat, order: seq<Entry>, h: nat, d: nat)
    requires Queued(g, chunked, start, order) && Closed(g, chunked, order, h) && d < APPENDIX_DEPTH
    requires forall r :: r in Within(g, chunked, start, d) ==> Holds(order, r)
    requires forall j :: 0 <= j < |order| && order[j].depth <= d ==> j < h
    ensures forall r :: r in Within(g, chunked, start, d + 1) ==> Holds(order, r)
  {
    forall r | r in Within(g, chunked, start, d + 1) && r !in Within(g, chunked, start, d)
      ensures Holds(order, r)
    {
      var m :| m in Within(g, chunked, start, d) && Calls(g, m, r);
      var j :| 0 <= j < |order| && order[j].id == m;
      assert Exact(g, chunked, start, order[j]);
      WithinGrows(g, chunked, start, d, if d < order[j].depth then order[j].depth - 1 else d);
      assert order[j].depth <= d && j < h;
    }
  }

  /** Distinct chunked symbols near `start`, nearest first, and none left out but for the cap. */
  ghost predicate IsAppendix(g: Graph, chunked: set<nat>, start: nat, out: seq<nat>) {
    var near := Within(g, chunked, start, APPENDIX_DEPTH) - {start};
    && |out| <= APPENDIX_CAP_PER_CHUNK
    && (forall i, j :: 0 <= i < j < |out| ==> out[i] != out[j])
    && (forall r :: r in out ==> r in near)
    && (forall i, j, n: nat :: 0 <= i < j < |out| && out[j] in Within(g, chunked, start, n) ==>
          out[i] in Within(g, chunked, start, n))
    && (forall r :: r in near && r !in out ==> |out| == APPENDIX_CAP_PER_CHUNK && NoNearer(g, chunked, start, out, r))
  }

  /** Nothing listed is further away than `r`. */
  ghost predicate NoNearer(g: Graph, chunked: set<nat>, start: nat, out: seq<nat>, r: nat) {
    forall i, n: nat :: 0 <= i < |out| && r in Within(g, chunked, start, n) ==> out[i] in Within(g, chunked, start, n)
  }

  method AppendixOf(g: Graph, chunked: set<nat>, start: nat) returns (out: seq<nat>)
    ensures IsAppendix(g, chunked, start, out)
  {
    ghost var all;
    out, all := SearchCallees(g, chunked, start);
    forall r | r in all && r !in out
      ensures |out| == APPENDIX_CAP_PER_CHUNK && NoNearer(g, chunked, start, out, r)
    {
      var j :| 0 <= j < |all| && all[j] == r;
      assert |out| <= j;
    }
  }

  /** The search itself: `all` lists every symbol in reach, and the cap keeps the first of them. */
  method SearchCallees(g: Graph, chunked: set<nat>, start: nat) returns (out: seq<nat>, ghost all: seq<nat>)
    ensures |out| == (if |all| < APPENDIX_CAP_PER_CHUNK then |all| else APPENDIX_CAP_PER_CHUNK) && out == all[..|out|]
    ensures forall i, j :: 0 <= i < j < |all| ==> all[i] != all[j]
    ensures forall r :: r in all <==> r in Within(g, chunked, start, APPENDIX_DEPTH) && r != start
    ensures forall i, j, n: nat :: 0 <= i < j < |all| && all[j] in Within(g, chunked, start, n) ==>
              all[i] in Within(g, chunked, start, n)
  {
    var visited := {start};
    var queue := [Entry(start, 0)];
    out := [];
    ghost var order := queue;
    ghost var h := 0;
    while |queue| > 0
      invariant Queued(g, chunked, start, order) && Closed(g, chunked, order, h)
      invariant Marks(chunked, start, order, visited)
      invariant queue == order[h..] && IsCapped(order, out)
      invariant h < |order| ==> Frontier(g, chunked, start, order, h)
      invariant visited <= {start} + Targets(g)
      decreases {start} + Targets(g) - visited, |queue|
    {
      var cur := queue[0];
      queue := queue[1..];
      ghost var was, rest := visited, queue;
      if cur.depth < APPENDIX_DEPTH {
        queue, visited, out, order := Expand(g, chunked, start, order, h, cur, queue, visited, out);
      }
      if h + 1 < |order| {
        MoveOn(g, chunked, start, order, h);
      }
      h := h + 1;
      if visited != was {
        assert {start} + Targets(g) - visited < {start} + Targets(g) - was;
      }
    }
    AllQueued(g, chunked, start, order, APPENDIX_DEPTH);
    all := seq(|order| - 1, i requires 0 <= i < |order| - 1 => order[i + 1].id);
    forall i, j | 0 <= i < j < |all|
      ensures all[i] != all[j]
    {
      assert Precedes(order, i + 1, j + 1);
    }
    AllIsWithin(g, chunked, start, order, all);
  }

  lemma {:induction false} AllQueued(g: Graph, chunked: set<nat>, start: nat, order: seq<Entry>, n: nat)
    requires Queued(g, chunked, start, order) && Closed(g, chunked, order, |order|) && n <= APPENDIX_DEPTH
    ensures forall r :: r in Within(g, chunked, start, n) ==> Holds(order, r)
    decreases n
  {
    if n == 0 {
      assert order[0].id == start;
    } else {
      AllQueued(g, chunked, start, order, n - 1);
      NextClass(g, chunked, start, order, |order|, n - 1);
    }
  }

  lemma {:induction false} AllIsWithin(g: Graph, chunked: set<nat>, start: nat, order: seq<Entry>, all: seq<nat>)
    requires Queued(g, chunked, start, order)
    requires forall r :: r in Within(g, chunked, start, APPENDIX_DEPTH) ==> Holds(order, r)
    requires |all| == |order| - 1 && forall i :: 0 <= i < |all| ==> all[i] == order[i + 1].id
    ensures forall r :: r in all <==> r in Within(g, chunked, start, APPENDIX_DEPTH) && r != start
    ensures forall i, j, n: nat :: 0 <= i < j < |all| && all[j] in Within(g, chunked, start, n) ==>
              all[i] in Within(g, chunked, start, n)
  {
    forall r | r in all
      ensures r in Within(g, chunked, start, APPENDIX_DEPTH) && r != start
    {
      var i :| 0 <= i < |all| && all[i] == r;
      assert Exact(g, chunked, start, order[i + 1]);
      WithinGrows(g, chunked, start, order[i + 1].depth, APPENDIX_DEPTH);
      assert Precedes(order, 0, i + 1);
    }
    forall r | r in Within(g, chunked, start, APPENDIX_DEPTH) && r != start
      ensures r in all
    {
      var i :| 0 <= i < |order| && order[i].id == r;
      assert all[i - 1] == r;
    }
    forall i, j, n: nat | 0 <= i < j < |all| && all[j] in Within(g, chunked, start, n)
      ensures all[i] in Within(g, chunked, start, n)
    {
      var ei, ej := order[i + 1], order[j + 1];
      assert Precedes(order, i + 1, j + 1);
      assert Exact(g, chunked, start, ei) && Exact(g, chunked, start, ej);
      if n < ej.depth {
        WithinGrows(g, chunked, start, n, ej.depth - 1);
      } else {
        WithinGrows(g, chunked, start, ei.depth, n);
      }
    }
  }

  /** Among the outgoing edges of `a` is one that is a call, not a mention, and was resolved to `b`. */
  predicate HasCall(g: Graph, a: nat, b: nat) {
    a in g && exists e :: e in g[a] && e.to == Resolved(b) && e.kind != EdgeKind.Ref
  }

  lemma CallsAreEdges(g: Graph, a: nat, b: nat)
    ensures Calls(g, a, b) <==> HasCall(g, a, b)
  {
    if a in g {
      if e :| e in g[a] && e.to == Resolved(b) && e.kind != EdgeKind.Ref {
        var i :| 0 <= i < |g[a]| && g[a][i] == e;
      }
      if i :| 0 <= i < |g[a]| && g[a][i].kind == Call && g[a][i].to == Resolved(b) {
        assert g[a][i] in g[a];
      }
    }
  }

  /** What two calls reach: direct callees, and callees of chunked direct callees. */
  lemma {:induction false} PathsOfTwo(g: Graph, chunked: set<nat>, start: nat, r: nat)
    requires r != start
    ensures r in Within(g, chunked, start, APPENDIX_DEPTH) <==>
            && r in chunked
            && (HasCall(g, start, r) || exists m :: m in chunked && HasCall(g, start, m) && HasCall(g, m, r))
  {
    forall a, b
      ensures Calls(g, a, b) <==> HasCall(g, a, b)
    {
      CallsAreEdges(g, a, b);
    }
    var one := Within(g, chunked, start, 1);
    assert forall m :: m in one <==> m == start || (m in chunked && Calls(g, start, m)) by {
      assert Within(g, chunked, start, 0) == {start};
    }
    assert Within(g, chunked, start, 2) == one + set x | x in chunked && exists m :: m in one && Calls(g, m, x);
  }
}
