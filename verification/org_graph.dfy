/**
 `build_org_graph`: a breadth-first walk from the organisation's first root
 over organisational units, recording every parent/child pair as an
 undirected edge. `accounts(p)` and `units(p)` stand for the one
 `list_accounts_for_parent` and `list_organizational_units_for_parent`
 response read per parent; `units` is ranked, so the unit hierarchy is
 finite and acyclic.
 */
module OrgGraph {
  import opened Forest

  /** An undirected graph: node ids and edges as unordered pairs of ids. */
  datatype Graph<Id> = Graph(nodes: set<Id>, edges: set<set<Id>>)

  /** `add_node`. */
  function AddNode<Id(==,!new)>(g: Graph<Id>, x: Id): (r: Graph<Id>)
    ensures r.nodes == g.nodes + {x} && r.edges == g.edges
  {
    g.(nodes := g.nodes + {x})
  }

  /** `add_edge`: adds the edge and both of its endpoints. */
  function AddEdge<Id(==,!new)>(g: Graph<Id>, u: Id, v: Id): (r: Graph<Id>)
    ensures HasEdge(r, u, v) && HasEdge(r, v, u)
    ensures r.nodes == g.nodes + {u, v} && r.edges == g.edges + {{u, v}}
  {
    assert {v, u} == {u, v};
    Graph(g.nodes + {u, v}, g.edges + {{u, v}})
  }

  /** The graph has an edge between `u` and `v`, in either orientation. */
  predicate HasEdge<Id(==,!new)>(g: Graph<Id>, u: Id, v: Id) {
    {u, v} in g.edges
  }

  /** `c` is listed as an account or as a unit under `p`. */
  predicate Listed<Id(==,!new)>(accounts: Id -> seq<Id>, units: Id -> seq<Id>, p: Id, c: Id) {
    c in accounts(p) || c in units(p)
  }

  /** `p` is joined to every id of `cs`. */
  ghost predicate Joined<Id(!new)>(g: Graph<Id>, p: Id, cs: seq<Id>) {
    forall c :: c in cs ==> HasEdge(g, p, c)
  }

  /** Every dequeued parent is a node joined to all its listed accounts and units. */
  ghost predicate Complete<Id(!new)>(g: Graph<Id>, accounts: Id -> seq<Id>, units: Id -> seq<Id>, ds: seq<Id>) {
    forall j :: 0 <= j < |ds| ==> ds[j] in g.nodes && Joined(g, ds[j], accounts(ds[j])) && Joined(g, ds[j], units(ds[j]))
  }

  /** `e` joins some dequeued parent to one of its listed children. */
  ghost predicate EdgeListed<Id(!new)>(accounts: Id -> seq<Id>, units: Id -> seq<Id>, ds: seq<Id>, e: set<Id>) {
    exists j, c :: 0 <= j < |ds| && Listed(accounts, units, ds[j], c) && e == {ds[j], c}
  }

  /** `x` is a dequeued parent or one of their listed children. */
  ghost predicate NodeListed<Id(!new)>(accounts: Id -> seq<Id>, units: Id -> seq<Id>, ds: seq<Id>, x: Id) {
    exists j :: 0 <= j < |ds| && (ds[j] == x || Listed(accounts, units, ds[j], x))
  }

  /** Nothing is in the graph but dequeued parents, their listed children and the edges between them. */
  ghost predicate Sound<Id(!new)>(g: Graph<Id>, accounts: Id -> seq<Id>, units: Id -> seq<Id>, ds: seq<Id>) {
    && (forall e :: e in g.edges ==> EdgeListed(accounts, units, ds, e))
    && (forall x :: x in g.nodes ==> NodeListed(accounts, units, ds, x))
    && (forall e :: e in g.edges ==> e <= g.nodes)
  }

  /** `add_node` of a parent as it is dequeued keeps the graph made only of dequeued parents, their listed children and the edges between them. */
  lemma AddNodeKeepsSound<Id(!new)>(g: Graph<Id>, accounts: Id -> seq<Id>, units: Id -> seq<Id>, ds: seq<Id>, p: Id)
    requires Sound(g, accounts, units, ds)
    ensures Sound(AddNode(g, p), accounts, units, ds + [p])
  {
    var ds' := ds + [p];
    forall e | EdgeListed(accounts, units, ds, e) ensures EdgeListed(accounts, units, ds', e) {
      var j, c :| 0 <= j < |ds| && Listed(accounts, units, ds[j], c) && e == {ds[j], c};
      assert ds'[j] == ds[j];
    }
    forall x | NodeListed(accounts, units, ds, x) ensures NodeListed(accounts, units, ds', x) {
      var j :| 0 <= j < |ds| && (ds[j] == x || Listed(accounts, units, ds[j], x));
      assert ds'[j] == ds[j];
    }
    assert ds'[|ds|] == p;
  }

  lemma AddEdgeKeepsSound<Id(!new)>(g: Graph<Id>, accounts: Id -> seq<Id>, units: Id -> seq<Id>, ds: seq<Id>, c: Id)
    requires Sound(g, accounts, units, ds)
    requires ds != [] && Listed(accounts, units, ds[|ds| - 1], c)
    ensures Sound(AddEdge(g, ds[|ds| - 1], c), accounts, units, ds)
  {
    var p := ds[|ds| - 1];
    assert EdgeListed(accounts, units, ds, {p, c});
    assert NodeListed(accounts, units, ds, p) && NodeListed(accounts, units, ds, c);
  }

  /** A graph only grows: completeness is kept. */
  lemma CompleteGrows<Id(!new)>(g: Graph<Id>, g': Graph<Id>, accounts: Id -> seq<Id>, units: Id -> seq<Id>, ds: seq<Id>, p: Id)
    requires Complete(g, accounts, units, ds)
    requires g.nodes <= g'.nodes && g.edges <= g'.edges
    requires p in g'.nodes && Joined(g', p, accounts(p)) && Joined(g', p, units(p))
    ensures Complete(g', accounts, units, ds + [p])
  {
    var ds' := ds + [p];
    forall j | 0 <= j < |ds'|
      ensures ds'[j] in g'.nodes && Joined(g', ds'[j], accounts(ds'[j])) && Joined(g', ds'[j], units(ds'[j]))
    {
      if j < |ds| {
        assert ds'[j] == ds[j];
      }
    }
  }

  /** The `add_edge(parent, c)` calls for each listed child `c` of the last dequeued parent, in order. */
  method AddEdges<Id(==,!new)>(g0: Graph<Id>, accounts: Id -> seq<Id>, units: Id -> seq<Id>, ds: seq<Id>, cs: seq<Id>)
    returns (g: Graph<Id>)
    requires Sound(g0, accounts, units, ds)
    requires ds != [] && forall c :: c in cs ==> Listed(accounts, units, ds[|ds| - 1], c)
    ensures Sound(g, accounts, units, ds)
    ensures Joined(g, ds[|ds| - 1], cs)
    ensures g0.nodes <= g.nodes && g0.edges <= g.edges
  {
    g := g0;
    for i := 0 to |cs|
      invariant Sound(g, accounts, units, ds)
      invariant Joined(g, ds[|ds| - 1], cs[..i])
      invariant g0.nodes <= g.nodes && g0.edges <= g.edges
    {
      assert cs[i] in cs && cs[..i + 1] == cs[..i] + [cs[i]];
      AddEdgeKeepsSound(g, accounts, units, ds, cs[i]);
      g := AddEdge(g, ds[|ds| - 1], cs[i]);
    }
    assert cs[..|cs|] == cs;
  }

  /** Taking a parent off the queue and putting its units moves it from the queue's unfolding to the dequeued ones. */
  lemma WalkStep<Id(!new)>(units: Id -> seq<Id>, rank: Id -> nat, ds: seq<Id>, queue: seq<Id>, start: seq<Id>)
    requires Ranked(units, rank) && queue != []
    requires multiset(ds) + multiset(Reach(units, rank, queue)) == multiset(Reach(units, rank, start))
    ensures var queue' := queue[1..] + units(queue[0]);
      && multiset(ds + [queue[0]]) + multiset(Reach(units, rank, queue')) == multiset(Reach(units, rank, start))
      && |Reach(units, rank, queue')| < |Reach(units, rank, queue)|
  {
    ReachStep(units, rank, queue);
  }

  /** What completeness and soundness say about the finished graph. */
  lemma Conclude<Id(!new)>(g: Graph<Id>, accounts: Id -> seq<Id>, units: Id -> seq<Id>, ds: seq<Id>)
    requires Complete(g, accounts, units, ds) && Sound(g, accounts, units, ds)
    ensures forall e :: e in g.edges ==> e <= g.nodes
    ensures forall j, c :: 0 <= j < |ds| && Listed(accounts, units, ds[j], c) ==>
      HasEdge(g, ds[j], c) && HasEdge(g, c, ds[j])
    ensures forall j :: 0 <= j < |ds| ==> ds[j] in g.nodes
    ensures forall e :: e in g.edges ==> EdgeListed(accounts, units, ds, e)
    ensures forall x :: x in g.nodes ==> NodeListed(accounts, units, ds, x)
  {
    forall j, c | 0 <= j < |ds| && Listed(accounts, units, ds[j], c)
      ensures HasEdge(g, ds[j], c) && HasEdge(g, c, ds[j])
    {
      assert {c, ds[j]} == {ds[j], c};
    }
  }

  /**
   One pass of the loop body for a dequeued `parent`: `add_node(parent)`,
   then `add_edge(parent, a)` for each listed account `a`, then
   `add_edge(parent, u)` for each listed unit `u` (the caller puts the
   units on the queue).
   */
  method VisitParent<Id(==,!new)>(g0: Graph<Id>, accounts: Id -> seq<Id>, units: Id -> seq<Id>, ds: seq<Id>, parent: Id)
    returns (g: Graph<Id>)
    requires Complete(g0, accounts, units, ds) && Sound(g0, accounts, units, ds)
    ensures Complete(g, accounts, units, ds + [parent]) && Sound(g, accounts, units, ds + [parent])
    ensures g0.nodes <= g.nodes && g0.edges <= g.edges
  {
    AddNodeKeepsSound(g0, accounts, units, ds, parent);
    g := AddNode(g0, parent);
    g := AddEdges(g, accounts, units, ds + [parent], accounts(parent));
    g := AddEdges(g, accounts, units, ds + [parent], units(parent));
    CompleteGrows(g0, g, accounts, units, ds, parent);
  }

  /**
   The graph `build_org_graph` returns, with the order in which it took
   parents off its queue. With no root the graph is empty. Otherwise only
   the first root is walked: every unit reachable from it is dequeued
   exactly as often as it occurs in the unit hierarchy's unfolding (once,
   in a tree), accounts are never dequeued, and the graph holds exactly the
   dequeued parents, their listed accounts and units, and an edge from each
   parent to each of them.
   */
  method BuildOrgGraph<Id(==,!new)>(roots: seq<Id>, accounts: Id -> seq<Id>, units: Id -> seq<Id>, rank: Id -> nat)
    returns (g: Graph<Id>, dequeued: seq<Id>)
    requires Ranked(units, rank)
    ensures roots == [] ==> g.nodes == {} && g.edges == {} && dequeued == []
    ensures roots != [] ==> roots[0] in g.nodes
    ensures roots != [] ==> multiset(dequeued) == multiset(Reach(units, rank, [roots[0]]))
    ensures forall e :: e in g.edges ==> e <= g.nodes
    ensures forall j, c :: 0 <= j < |dequeued| && Listed(accounts, units, dequeued[j], c) ==>
      HasEdge(g, dequeued[j], c) && HasEdge(g, c, dequeued[j])
    ensures forall j :: 0 <= j < |dequeued| ==> dequeued[j] in g.nodes
    ensures forall e :: e in g.edges ==> EdgeListed(accounts, units, dequeued, e)
    ensures forall x :: x in g.nodes ==> NodeListed(accounts, units, dequeued, x)
  {
    g := Graph({}, {});
    var queue: seq<Id> := [];
    if roots != [] {
      queue := [roots[0]];
    }
    ghost var start := queue;
    dequeued := [];
    while queue != []
      invariant multiset(dequeued) + multiset(Reach(units, rank, queue)) == multiset(Reach(units, rank, start))
      invariant Complete(g, accounts, units, dequeued) && Sound(g, accounts, units, dequeued)
      invariant roots == [] ==> start == [] && dequeued == [] && g == Graph({}, {})
      invariant roots != [] ==> start == [roots[0]] && (dequeued == [] ==> queue == start) && (dequeued != [] ==> dequeued[0] == roots[0])
      decreases |Reach(units, rank, queue)|
    {
      var parent := queue[0];
      WalkStep(units, rank, dequeued, queue, start);
      g := VisitParent(g, accounts, units, dequeued, parent);
      dequeued := dequeued + [parent];
      queue := queue[1..] + units(parent);
    }
    Conclude(g, accounts, units, dequeued);
  }
}
