/** The edges a build wants, as ninja's Plan hands them out. */
module Plans {
  type Edge = nat

  /**
   wanted: the edges that have to be run; inputs: the edges that produce an
   edge's inputs; phony: edges without a command, whose command string says
   nothing; command and hash: Edge::EvaluateCommand and common::HashEdge.
   */
  datatype Graph = Graph(
    wanted: set<Edge>,
    inputs: map<Edge, set<Edge>>,
    phony: set<Edge>,
    command: map<Edge, string>,
    hash: map<Edge, nat>)

  /** Producers that are not wanted are up to date already. */
  function Needs(g: Graph, e: Edge): set<Edge> {
    if e in g.inputs then g.inputs[e] * g.wanted else {}
  }

  /** rank strictly decreases from an edge to the edges it needs. */
  ghost predicate IsRank(g: Graph, rank: map<Edge, nat>) {
    && rank.Keys == g.wanted
    && forall e, i :: e in g.wanted && i in Needs(g, e) ==> rank[i] < rank[e]
  }

  ghost predicate Acyclic(g: Graph) {
    exists rank :: IsRank(g, rank)
  }

  /** No two edges that run a command run the same one. */
  ghost predicate DistinctCommands(g: Graph)
    requires g.wanted <= g.command.Keys
  {
    forall e, f :: e in g.wanted - g.phony && f in g.wanted - g.phony && g.command[e] == g.command[f] ==> e == f
  }

  ghost predicate WellFormed(g: Graph) {
    && g.wanted <= g.command.Keys && g.wanted <= g.hash.Keys
    && DistinctCommands(g)
    && (forall e, f :: e in g.wanted && f in g.wanted && g.hash[e] == g.hash[f] ==> e == f)
    && Acyclic(g)
  }

  /** Every non-empty set of wanted edges has one that needs no other of them. */
  lemma MinimalEdge(g: Graph, s: set<Edge>) returns (e: Edge)
    requires Acyclic(g) && s <= g.wanted && s != {}
    ensures e in s && Needs(g, e) !! s
  {
    var rank :| IsRank(g, rank);
    e := LowestRank(s, rank);
  }

  lemma LowestRank(s: set<Edge>, rank: map<Edge, nat>) returns (e: Edge)
    requires s <= rank.Keys && s != {}
    ensures e in s && forall f :: f in s ==> rank[e] <= rank[f]
    decreases |s|
  {
    e :| e in s;
    var rest := s - {e};
    if rest != {} {
      var f := LowestRank(rest, rank);
      if rank[f] < rank[e] {
        e := f;
      }
    }
  }

  function Count(es: seq<Edge>, e: Edge): nat {
    if es == [] then 0 else Count(es[..|es| - 1], e) + if es[|es| - 1] == e then 1 else 0
  }

  lemma {:induction false} CountIn(es: seq<Edge>, e: Edge)
    ensures Count(es, e) > 0 <==> e in es
  {
    if es != [] {
      CountIn(es[..|es| - 1], e);
      assert es == es[..|es| - 1] + [es[|es| - 1]];
    }
  }

  lemma CountSnoc(es: seq<Edge>, f: Edge, e: Edge)
    ensures Count(es + [f], e) == Count(es, e) + if f == e then 1 else 0
  {
    assert (es + [f])[..|es|] == es;
  }

  lemma {:induction false} CountConcat(es: seq<Edge>, fs: seq<Edge>, e: Edge)
    ensures Count(es + fs, e) == Count(es, e) + Count(fs, e)
  {
    if fs == [] {
      assert es + fs == es;
    } else {
      var n := |fs| - 1;
      assert es + fs == (es + fs[..n]) + [fs[n]];
      CountSnoc(es + fs[..n], fs[n], e);
      CountConcat(es, fs[..n], e);
    }
  }

  /** es without the element at index i. */
  function Without(es: seq<Edge>, i: nat): seq<Edge>
    requires i < |es|
  {
    es[..i] + es[i + 1..]
  }

  lemma CountWithout(es: seq<Edge>, i: nat, e: Edge)
    requires i < |es|
    ensures Count(Without(es, i), e) == Count(es, e) - if es[i] == e then 1 else 0
  {
    CountConcat(es[..i], es[i + 1..], e);
    assert es == (es[..i] + [es[i]]) + es[i + 1..];
    CountConcat(es[..i] + [es[i]], es[i + 1..], e);
    CountSnoc(es[..i], es[i], e);
  }

  /** Nothing occurs twice, and each edge comes after all the edges it needs. */
  ghost predicate InOrder(g: Graph, log: seq<Edge>) {
    && (forall i, j :: 0 <= i < j < |log| ==> log[i] != log[j])
    && (forall i, e :: 0 <= i < |log| && e in Needs(g, log[i]) ==> e in log[..i])
  }

  lemma InOrderSnoc(g: Graph, log: seq<Edge>, e: Edge)
    requires InOrder(g, log) && e !in log && forall i :: i in Needs(g, e) ==> i in log
    ensures InOrder(g, log + [e])
  {
    var more := log + [e];
    forall i, f | 0 <= i < |more| && f in Needs(g, more[i])
      ensures f in more[..i]
    {
      if i < |log| {
        assert more[..i] == log[..i];
      } else {
        assert more[..i] == log;
      }
    }
  }
}
