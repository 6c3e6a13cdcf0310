/**
 Depth-first walks over the edges of a build graph, which may share inputs and
 may be cyclic, and the slave's table from hashes to edges.
 */
module EdgeWalks {
  import opened Options
  import opened Sets
  import Plans

  type Edge = Plans.Edge

  /** For each edge, the edges that produce its inputs; a source file has none. */
  datatype BuildGraph = BuildGraph(inputs: seq<seq<Option<Edge>>>)

  predicate IsEdge(g: BuildGraph, e: Edge) {
    e < |g.inputs|
  }

  ghost predicate InputsExist(g: BuildGraph) {
    forall e: Edge, i | IsEdge(g, e) && 0 <= i < |g.inputs[e]| && g.inputs[e][i].Some? ::
      IsEdge(g, g.inputs[e][i].value)
  }

  /** p produces an input of e. */
  predicate Produces(g: BuildGraph, p: Edge, e: Edge) {
    IsEdge(g, e) && Some(p) in g.inputs[e]
  }

  // ---- Reachability ----

  /** path leads from its first edge through producers to its last. */
  ghost predicate IsPath(g: BuildGraph, path: seq<Edge>) {
    path != [] && forall i :: 0 < i < |path| ==> Produces(g, path[i], path[i - 1])
  }

  ghost predicate Leads(g: BuildGraph, path: seq<Edge>, e: Edge, f: Edge) {
    IsPath(g, path) && path[0] == e && path[|path| - 1] == f
  }

  ghost predicate Reaches(g: BuildGraph, e: Edge, f: Edge) {
    exists path :: Leads(g, path, e, f)
  }

  /** f is reached from a root that is an edge. */
  ghost predicate ReachedFrom(g: BuildGraph, roots: seq<Option<Edge>>, f: Edge) {
    exists i :: 0 <= i < |roots| && roots[i].Some? && Reaches(g, roots[i].value, f)
  }

  lemma ReachesItself(g: BuildGraph, e: Edge)
    ensures Reaches(g, e, e)
  {
    assert Leads(g, [e], e, e);
  }

  lemma ReachesThrough(g: BuildGraph, e: Edge, p: Edge, f: Edge)
    requires Produces(g, p, e) && Reaches(g, p, f)
    ensures Reaches(g, e, f)
  {
    var path :| Leads(g, path, p, f);
    assert Leads(g, [e] + path, e, f);
  }

  /** Every producer of an edge in s is in t. */
  ghost predicate Covered(g: BuildGraph, s: set<Edge>, t: set<Edge>) {
    forall e, p | e in s && Produces(g, p, e) :: p in t
  }

  lemma {:induction false} PathStaysInside(g: BuildGraph, s: set<Edge>, path: seq<Edge>)
    requires Covered(g, s, s) && IsPath(g, path) && path[0] in s
    ensures path[|path| - 1] in s
    decreases |path|
  {
    if |path| > 1 {
      assert Produces(g, path[1], path[0]);
      var rest := path[1..];
      forall i | 0 < i < |rest|
        ensures Produces(g, rest[i], rest[i - 1])
      {
        assert Produces(g, path[i + 1], path[i]);
      }
      PathStaysInside(g, s, rest);
    }
  }

  /** A covered set that holds the roots holds all that they reach. */
  lemma CoveredIsComplete(g: BuildGraph, s: set<Edge>, e: Edge, f: Edge)
    requires Covered(g, s, s) && e in s && Reaches(g, e, f)
    ensures f in s
  {
    var path :| Leads(g, path, e, f);
    PathStaysInside(g, s, path);
  }

  // ---- GetAllEdges ----

  /** The edges not visited yet. */
  function Unseen(g: BuildGraph, seen: set<Edge>): set<Edge> {
    Below(|g.inputs|) - seen
  }

  lemma FewerUnseen(g: BuildGraph, seen: set<Edge>, more: set<Edge>, e: Edge)
    requires seen + {e} <= more && e !in seen && IsEdge(g, e)
    ensures |Unseen(g, more)| < |Unseen(g, seen)|
  {
    assert Unseen(g, more) <= Unseen(g, seen) - {e};
    SubsetSize(Unseen(g, more), Unseen(g, seen) - {e});
  }

  ghost predicate AllReachedFrom(g: BuildGraph, e: Option<Edge>, s: set<Edge>) {
    forall f | f in s :: e.Some? && Reaches(g, e.value, f)
  }

  /** What a walk from e has added to the edges seen. */
  ghost predicate Grows(g: BuildGraph, e: Option<Edge>, before: set<Edge>, after: set<Edge>) {
    && before <= after
    && (e.Some? ==> e.value in after)
    && AllReachedFrom(g, e, after - before)
    && Covered(g, after - before, after)
  }

  /** The walk from e has come through its first i inputs. */
  ghost predicate GrowsSoFar(g: BuildGraph, e: Edge, i: nat, before: set<Edge>, now: set<Edge>)
    requires IsEdge(g, e) && i <= |g.inputs[e]|
  {
    && before + {e} <= now
    && AllReachedFrom(g, Some(e), now - before)
    && Covered(g, now - before - {e}, now)
    && forall j :: 0 <= j < i && g.inputs[e][j].Some? ==> g.inputs[e][j].value in now
  }

  lemma GrowsFirst(g: BuildGraph, e: Edge, before: set<Edge>)
    requires IsEdge(g, e)
    ensures GrowsSoFar(g, e, 0, before, before + {e})
  {
    ReachesItself(g, e);
  }

  lemma GrowsMore(g: BuildGraph, e: Edge, i: nat, before: set<Edge>, now: set<Edge>, next: set<Edge>)
    requires IsEdge(g, e) && i < |g.inputs[e]| && GrowsSoFar(g, e, i, before, now)
    requires Grows(g, g.inputs[e][i], now, next)
    ensures GrowsSoFar(g, e, i + 1, before, next)
  {
    forall f | f in next - before
      ensures Reaches(g, e, f)
    {
      if f !in now {
        assert f in next - now;
        ReachesThrough(g, e, g.inputs[e][i].value, f);
      }
    }
  }

  lemma GrowsAll(g: BuildGraph, e: Edge, before: set<Edge>, now: set<Edge>)
    requires IsEdge(g, e) && GrowsSoFar(g, e, |g.inputs[e]|, before, now)
    ensures Grows(g, Some(e), before, now)
  {
    forall f, p | f in now - before && Produces(g, p, f)
      ensures p in now
    {
      if f == e {
        var j :| 0 <= j < |g.inputs[e]| && g.inputs[e][j] == Some(p);
      }
    }
  }

  class EdgeSet {
    var edges: set<Edge>

    constructor ()
      ensures edges == {}
    {
      edges := {};
    }

    /**
     Adds edges reached from e and, of those it adds, covers every producer,
     whatever walk is under way around it.
     */
    method GetAllEdgesHelper(g: BuildGraph, e: Option<Edge>)
      requires InputsExist(g) && (e.Some? ==> IsEdge(g, e.value))
      modifies this
      ensures Grows(g, e, old(edges), edges)
      decreases |Unseen(g, edges)|
    {
      if e.None? || e.value in edges {
        return;
      }
      ghost var before := edges;
      edges := edges + {e.value};
      GrowsFirst(g, e.value, before);
      for i := 0 to |g.inputs[e.value]|
        invariant GrowsSoFar(g, e.value, i, before, edges)
      {
        ghost var here := edges;
        FewerUnseen(g, before, here, e.value);
        GetAllEdgesHelper(g, g.inputs[e.value][i]);
        GrowsMore(g, e.value, i, before, here, edges);
      }
      GrowsAll(g, e.value, before, edges);
    }

    /** Precisely the edges reached from the default nodes, on every graph. */
    method GetAllEdges(g: BuildGraph, nodes: seq<Option<Edge>>)
      requires InputsExist(g) && forall i :: 0 <= i < |nodes| && nodes[i].Some? ==> IsEdge(g, nodes[i].value)
      modifies this
      ensures forall f: Edge :: f in edges <==> ReachedFrom(g, nodes, f)
    {
      edges := {};
      for i := 0 to |nodes|
        invariant Covered(g, edges, edges)
        invariant forall f :: f in edges ==> ReachedFrom(g, nodes, f)
        invariant forall j :: 0 <= j < i && nodes[j].Some? ==> nodes[j].value in edges
      {
        ghost var before := edges;
        GetAllEdgesHelper(g, nodes[i]);
        forall f | f in edges
          ensures ReachedFrom(g, nodes, f)
        {
          assert f !in before ==> f in edges - before;
        }
        assert edges == before + (edges - before);
      }
      forall f | ReachedFrom(g, nodes, f)
        ensures f in edges
      {
        var i :| 0 <= i < |nodes| && nodes[i].Some? && Reaches(g, nodes[i].value, f);
        CoveredIsComplete(g, edges, nodes[i].value, f);
      }
    }
  }

  // ---- FindAllEdges ----

  ghost predicate RanksEdges(g: BuildGraph, rank: seq<nat>) {
    |rank| == |g.inputs|
    && forall e: Edge, p: Edge | Produces(g, p, e) && IsEdge(g, p) :: rank[p] < rank[e]
  }

  ghost predicate HasNoCycle(g: BuildGraph) {
    exists rank :: RanksEdges(g, rank)
  }

  ghost predicate NoRepeats(s: seq<Edge>) {
    forall i, j :: 0 <= i < j < |s| ==> s[i] != s[j]
  }

  /** Each edge comes after the producers of all its inputs. */
  ghost predicate ProducersFirst(g: BuildGraph, order: seq<Edge>) {
    forall k, p | 0 <= k < |order| && Produces(g, p, order[k]) :: p in order[..k]
  }

  /** Every edge whose visit is under way ranks above e. */
  ghost predicate RanksBelow(rank: seq<nat>, e: Edge, open: set<Edge>) {
    e < |rank| && forall f | f in open :: f < |rank| && rank[e] < rank[f]
  }

  lemma InputRanksBelow(g: BuildGraph, rank: seq<nat>, e: Edge, p: Edge, open: set<Edge>)
    requires RanksEdges(g, rank) && RanksBelow(rank, e, open) && Produces(g, p, e) && IsEdge(g, p)
    ensures RanksBelow(rank, p, open + {e})
  {
  }

  /** The first i inputs of e are listed. */
  ghost predicate InputsListed(g: BuildGraph, e: Edge, i: nat, order: seq<Edge>)
    requires IsEdge(g, e) && i <= |g.inputs[e]|
  {
    forall j :: 0 <= j < i && g.inputs[e][j].Some? ==> g.inputs[e][j].value in order
  }

  lemma InputsListedMore(g: BuildGraph, e: Edge, i: nat, order: seq<Edge>, more: seq<Edge>)
    requires IsEdge(g, e) && i < |g.inputs[e]| && InputsListed(g, e, i, order) && order <= more
    requires g.inputs[e][i].Some? ==> g.inputs[e][i].value in more
    ensures InputsListed(g, e, i + 1, more)
  {
  }

  lemma AllInputsListed(g: BuildGraph, e: Edge, order: seq<Edge>)
    requires IsEdge(g, e) && InputsListed(g, e, |g.inputs[e]|, order)
    ensures forall p | Produces(g, p, e) :: p in order
  {
    forall p | Produces(g, p, e)
      ensures p in order
    {
      var j :| 0 <= j < |g.inputs[e]| && g.inputs[e][j] == Some(p);
    }
  }

  /** The order lists, once each, the seen edges whose visit is over. */
  ghost predicate Lists(order: seq<Edge>, seen: set<Edge>, open: set<Edge>) {
    && NoRepeats(order) && open <= seen
    && (forall f :: f in order <==> f in seen && f !in open)
  }

  lemma ListsOneMore(order: seq<Edge>, seen: set<Edge>, open: set<Edge>, e: Edge)
    requires Lists(order, seen, open) && e in open
    ensures Lists(order + [e], seen, open - {e})
  {
  }

  lemma ProducersFirstOneMore(g: BuildGraph, order: seq<Edge>, e: Edge)
    requires ProducersFirst(g, order) && forall p | Produces(g, p, e) :: p in order
    ensures ProducersFirst(g, order + [e])
  {
    var longer := order + [e];
    forall k, p | 0 <= k < |longer| && Produces(g, p, longer[k])
      ensures p in longer[..k]
    {
      if k < |order| {
        assert longer[..k] == order[..k];
      } else {
        assert longer[..k] == order;
      }
    }
  }

  class EdgeWalk {
    var seen: set<Edge>
    var order: seq<Edge>
    /** The edges whose visit is under way. */
    ghost var open: set<Edge>

    constructor ()
      ensures seen == {} && order == [] && open == {}
    {
      seen, order, open := {}, [], {};
    }

    /** Producers come first, and edges under way rank above e. */
    ghost predicate Ordered(g: BuildGraph, rank: seq<nat>, e: Edge)
      reads this
    {
      RanksEdges(g, rank) && ProducersFirst(g, order) && RanksBelow(rank, e, open)
    }

    /**
     Emits each newly seen edge once, and covers every producer of those.
     When the edges under way rank above e, producers come first.
     */
    method FindAllEdges(g: BuildGraph, e: Option<Edge>, ghost rank: seq<nat>)
      requires InputsExist(g) && Lists(order, seen, open) && (e.Some? ==> IsEdge(g, e.value))
      modifies this
      ensures Lists(order, seen, open) && open == old(open) && old(order) <= order
      ensures Grows(g, e, old(seen), seen)
      ensures e.Some? && old(Ordered(g, rank, e.value)) ==> ProducersFirst(g, order) && e.value in order
      ensures e.None? ==> order == old(order)
      decreases |Unseen(g, seen)|
    {
      if e.None? || e.value in seen {
        return;
      }
      ghost var before, emitted, around := seen, order, open;
      ghost var ordered := Ordered(g, rank, e.value);
      seen, open := seen + {e.value}, open + {e.value};
      GrowsFirst(g, e.value, before);
      for i := 0 to |g.inputs[e.value]|
        invariant Lists(order, seen, open) && open == around + {e.value} && emitted <= order
        invariant GrowsSoFar(g, e.value, i, before, seen)
        invariant ordered ==> ProducersFirst(g, order) && InputsListed(g, e.value, i, order)
      {
        var p := g.inputs[e.value][i];
        ghost var here := seen;
        FewerUnseen(g, before, here, e.value);
        ghost var listed := order;
        if ordered && p.Some? {
          InputRanksBelow(g, rank, e.value, p.value, around);
        }
        FindAllEdges(g, p, rank);
        GrowsMore(g, e.value, i, before, here, seen);
        if ordered {
          InputsListedMore(g, e.value, i, listed, order);
        }
      }
      GrowsAll(g, e.value, before, seen);
      ListsOneMore(order, seen, open, e.value);
      if ordered {
        AllInputsListed(g, e.value, order);
        ProducersFirstOneMore(g, order, e.value);
      }
      order := order + [e.value];
      open := open - {e.value};
    }
  }

  /** From one root: exactly the edges reached, once each, producers first when the graph is acyclic. */
  method FindAllEdgesFrom(g: BuildGraph, e: Edge) returns (order: seq<Edge>)
    requires InputsExist(g) && IsEdge(g, e)
    ensures NoRepeats(order) && forall f: Edge :: f in order <==> Reaches(g, e, f)
    ensures HasNoCycle(g) ==> ProducersFirst(g, order)
  {
    var walk := new EdgeWalk();
    ghost var rank: seq<nat> := [];
    if HasNoCycle(g) {
      rank :| RanksEdges(g, rank);
    }
    walk.FindAllEdges(g, Some(e), rank);
    order := walk.order;
    forall f: Edge
      ensures f in order <==> Reaches(g, e, f)
    {
      if Reaches(g, e, f) {
        CoveredIsComplete(g, walk.seen, e, f);
      }
    }
  }

  // ---- The slave's table of edges ----

  ghost predicate Injective(hash: Edge -> nat, s: set<Edge>) {
    forall e, f | e in s && f in s && hash(e) == hash(f) :: e == f
  }

  /** table leads from the hash of each edge of s to that edge, and from nothing else. */
  ghost predicate Inverts(hash: Edge -> nat, s: set<Edge>, table: map<nat, Edge>) {
    && (forall e | e in s :: hash(e) in table && table[hash(e)] == e)
    && (forall h | h in table :: table[h] in s && hash(table[h]) == h)
  }

  lemma InvertsOneMore(hash: Edge -> nat, s: set<Edge>, table: map<nat, Edge>, e: Edge)
    requires Inverts(hash, s, table) && hash(e) !in table
    ensures Inverts(hash, s + {e}, table[hash(e) := e])
  {
  }

  lemma InvertsIsInjective(hash: Edge -> nat, s: set<Edge>, table: map<nat, Edge>)
    requires Inverts(hash, s, table)
    ensures Injective(hash, s)
  {
    forall e, f | e in s && f in s && hash(e) == hash(f)
      ensures e == f
    {
      assert table[hash(e)] == e;
    }
  }

  /** The loop of PostCreateThreads over the edges; None is the failed CHECK. */
  method HashEdges(edges: set<Edge>, hash: Edge -> nat) returns (table: Option<map<nat, Edge>>)
    ensures table.Some? <==> Injective(hash, edges)
    ensures table.Some? ==> Inverts(hash, edges, table.value)
  {
    var m: map<nat, Edge> := map[];
    var left := edges;
    while left != {}
      invariant left <= edges && Inverts(hash, edges - left, m)
      decreases |left|
    {
      var e: Edge :| e in left;
      if hash(e) in m {
        assert m[hash(e)] in edges - left;
        return None;
      }
      InvertsOneMore(hash, edges - left, m, e);
      m := m[hash(e) := e];
      assert edges - (left - {e}) == edges - left + {e};
      left := left - {e};
    }
    assert edges - left == edges;
    InvertsIsInjective(hash, edges, m);
    return Some(m);
  }

  /** PostCreateThreads: a request is allowed exactly when its id is the hash of a reachable edge. */
  method PostCreateThreads(g: BuildGraph, nodes: seq<Option<Edge>>, hash: Edge -> nat)
    returns (table: Option<map<nat, Edge>>)
    requires InputsExist(g) && forall i :: 0 <= i < |nodes| && nodes[i].Some? ==> IsEdge(g, nodes[i].value)
    ensures table.Some? <==>
              forall e: Edge, f: Edge | ReachedFrom(g, nodes, e) && ReachedFrom(g, nodes, f) && hash(e) == hash(f) ::
                e == f
    ensures table.Some? ==>
              && (forall e: Edge | ReachedFrom(g, nodes, e) :: hash(e) in table.value && table.value[hash(e)] == e)
              && (forall h | h in table.value :: ReachedFrom(g, nodes, table.value[h]) && hash(table.value[h]) == h)
  {
    var all := new EdgeSet();
    all.GetAllEdges(g, nodes);
    table := HashEdges(all.edges, hash);
  }
}
