/**
 The traversal with the worker's loop body guarded: every exception that
 `get_children` or `visit` raises (`queue.Empty` included) is caught, the
 node is recorded in `failed`, and then the item is marked done. The
 children a failing `get_children` yielded before raising stay queued,
 the rest are never visited, and `join` always returns.
 */
module GuardedTraversal {
  import opened Options
  import opened Forest
  import opened Traversal

  /**
   The guarded loop body: the head is taken, visited when its visit
   returns, the children listed before any exception are put, and the
   item is marked done on every path.
   */
  function ProcessGuarded<N>(e: Engine<N>, children: N -> seq<N>, fault: N -> Fault): (o: Outcome<N>)
    requires e.inFlight.None?
    ensures o.TimedOut? || o.Processed?
    ensures o.TimedOut? <==> e.queue == []
    ensures o.TimedOut? ==> o.e == e
    ensures o.e.inFlight.None?
    ensures Lost(o.e) == Lost(e)
    ensures e.queue != [] ==>
      var it := e.queue[0];
      && o.e.queue == e.queue[1..] + ChildItems(it.node, Yielded(children, fault, it.node))
      && o.e.log == e.log + (if Logged(fault(it.node)) then [it] else [])
    ensures e.queue != [] && fault(e.queue[0].node) == Healthy ==> o == Process(e, children, fault)
  {
    if e.queue == [] then TimedOut(e)
    else
      var held := Get(e);
      var it := e.queue[0];
      var visited := if Logged(fault(it.node)) then Visit(held) else held;
      Processed(TaskDone(PutAll(visited, ChildItems(it.node, Yielded(children, fault, it.node)))))
  }

  /** The guarded loop body keeps the causal order: it queues and logs what the unguarded one does. */
  lemma GuardedKeepsCausal<N>(e: Engine<N>, children: N -> seq<N>, fault: N -> Fault)
    requires e.inFlight.None? && Causal(e)
    ensures Causal(ProcessGuarded(e, children, fault).e)
  {
    ProcessKeepsCausal(e, children, fault);
    if e.queue != [] {
      var p := Process(e, children, fault).e;
      var g := ProcessGuarded(e, children, fault).e;
      assert g.log == p.log && g.queue == p.queue;
    }
  }

  /**
   The loop invariant of the guarded worker: `taken` is a prefix of the
   pruned order whose logged items are the log and whose faulty nodes are
   `failed`; the queue unfolds to the rest of that order; no item is lost;
   and while every node is healthy the log and the queue unfold to the
   full level order.
   */
  ghost predicate Guarded<N(!new)>(e: Engine<N>, children: N -> seq<N>, rank: N -> nat, fault: N -> Fault,
                                   order: seq<Item<N>>, full: seq<Item<N>>, healthy: bool,
                                   taken: seq<Item<N>>, failed: seq<N>)
  {
    && Ranked(children, rank) && Ranked(Pruned(children, fault), rank)
    && Causal(e) && e.inFlight.None? && Counted(e)
    && taken + Bfs(Pruned(children, fault), rank, e.queue) == order
    && e.log == Where(taken, fault, Logged)
    && failed == Nodes(Where(taken, fault, Faulty))
    && (healthy <==> forall i :: 0 <= i < |full| ==> fault(full[i].node) == Healthy)
    && (healthy ==> e.log + Bfs(children, rank, e.queue) == full && failed == [])
  }

  /** Once every root is put, nothing is taken yet. */
  lemma GuardedStart<N(!new)>(e: Engine<N>, children: N -> seq<N>, rank: N -> nat, fault: N -> Fault,
                              roots: seq<N>, healthy: bool)
    requires Ranked(children, rank)
    requires e == PutAll(Engine([], 0, None, []), RootItems(roots))
    requires var full := LevelOrder(children, rank, roots);
      healthy <==> forall i :: 0 <= i < |full| ==> fault(full[i].node) == Healthy
    ensures Guarded(e, children, rank, fault, PrunedOrder(children, rank, fault, roots),
                    LevelOrder(children, rank, roots), healthy, [], [])
  {
    RunningStart(e, children, rank, fault, roots, healthy);
    assert Nodes(Where([], fault, Faulty)) == [];
  }

  /** One pass of the guarded loop body keeps the invariant and shrinks what is left to reach. */
  lemma GuardedStep<N(!new)>(e: Engine<N>, children: N -> seq<N>, rank: N -> nat, fault: N -> Fault,
                             order: seq<Item<N>>, full: seq<Item<N>>, healthy: bool,
                             taken: seq<Item<N>>, failed: seq<N>)
    requires Guarded(e, children, rank, fault, order, full, healthy, taken, failed) && e.queue != []
    ensures var o := ProcessGuarded(e, children, fault);
      var it := e.queue[0];
      && Guarded(o.e, children, rank, fault, order, full, healthy, taken + [it],
                 failed + (if Faulty(fault(it.node)) then [it.node] else []))
      && |Reach(Pruned(children, fault), rank, Nodes(o.e.queue))| < |Reach(Pruned(children, fault), rank, Nodes(e.queue))|
  {
    var it := e.queue[0];
    var pruned := Pruned(children, fault);
    assert pruned(it.node) == Yielded(children, fault, it.node);
    GuardedKeepsCausal(e, children, fault);
    BfsStep(pruned, rank, taken, e.queue, order);
    WhereSnoc(taken, it, fault, Logged);
    WhereSnoc(taken, it, fault, Faulty);
    NodesAppend(Where(taken, fault, Faulty), if Faulty(fault(it.node)) then [it] else []);
    if healthy {
      HealthyStep(e, children, rank, fault, full);
    }
  }

  /** Whatever a node of `order` is kept for is kept exactly for the reached nodes of that kind. */
  lemma SelectionCovers<N>(order: seq<Item<N>>, reach: seq<N>, fault: N -> Fault, keep: Fault -> bool)
    requires multiset(Nodes(order)) == multiset(reach)
    ensures forall x :: x in Nodes(Where(order, fault, keep)) <==> x in reach && keep(fault(x))
  {
    var w := Where(order, fault, keep);
    forall x | x in Nodes(w) ensures x in reach && keep(fault(x)) {
      var j :| 0 <= j < |w| && Nodes(w)[j] == x;
      var i :| 0 <= i < |order| && order[i] == w[j];
      assert Nodes(order)[i] == x;
      assert x in multiset(Nodes(order));
    }
    forall x | x in reach && keep(fault(x)) ensures x in Nodes(w) {
      assert x in multiset(Nodes(order));
      var i :| 0 <= i < |order| && Nodes(order)[i] == x;
      WhereHas(order, fault, keep, i);
      var j :| 0 <= j < |w| && w[j] == order[i];
      assert Nodes(w)[j] == x;
    }
  }

  /** When the guarded worker's queue is empty, the invariant gives every postcondition. */
  lemma GuardedEnds<N(!new)>(e: Engine<N>, children: N -> seq<N>, rank: N -> nat, fault: N -> Fault, roots: seq<N>,
                             order: seq<Item<N>>, full: seq<Item<N>>, healthy: bool,
                             taken: seq<Item<N>>, failed: seq<N>)
    requires Ranked(children, rank)
    requires order == PrunedOrder(children, rank, fault, roots) && full == LevelOrder(children, rank, roots)
    requires Guarded(e, children, rank, fault, order, full, healthy, taken, failed) && e.queue == []
    ensures e.pending == 0 && ParentEarlier(e.log)
    ensures e.log == Where(order, fault, Logged) && failed == Nodes(Where(order, fault, Faulty))
    ensures forall x :: Visited(e.log, x) <==> x in PrunedReach(children, rank, fault, roots) && Logged(fault(x))
    ensures forall x :: x in failed <==> x in PrunedReach(children, rank, fault, roots) && Faulty(fault(x))
    ensures forall i :: 0 <= i < |roots| && Logged(fault(roots[i])) ==> Visited(e.log, roots[i])
    ensures forall i :: 0 <= i < |roots| && Faulty(fault(roots[i])) ==> roots[i] in failed
    ensures healthy ==> e.log == full && failed == []
  {
    EmptyAppend(taken);
    EmptyAppend(e.log);
    var reach := PrunedReach(children, rank, fault, roots);
    VisitsCover(order, reach, fault, e.log);
    SelectionCovers(order, reach, fault, Faulty);
    forall i | 0 <= i < |roots| ensures roots[i] in reach {
      assert Nodes(order)[i] == roots[i];
      assert roots[i] in multiset(Nodes(order));
    }
  }

  /**
   `concurrent_traversal` with the guarded loop body and one worker.
   `join` returns. The log is the pruned level order with the nodes whose
   visit raised left out, and `failed` lists, in the same order, every
   reached node a collaborator raised on: a node is visited exactly when
   it is reached and its visit returns, and recorded exactly when it is
   reached and something raised on it. Every root is dealt with, and
   without failures the log is the full level order.
   */
  method TraverseGuarded<N(!new)>(roots: seq<N>, children: N -> seq<N>, rank: N -> nat, fault: N -> Fault)
    returns (log: seq<Item<N>>, pending: int, failed: seq<N>)
    requires Ranked(children, rank)
    ensures pending == 0
    ensures ParentEarlier(log)
    ensures var order := PrunedOrder(children, rank, fault, roots);
      log == Where(order, fault, Logged) && failed == Nodes(Where(order, fault, Faulty))
    ensures forall x :: Visited(log, x) <==> x in PrunedReach(children, rank, fault, roots) && Logged(fault(x))
    ensures forall x :: x in failed <==> x in PrunedReach(children, rank, fault, roots) && Faulty(fault(x))
    ensures forall i :: 0 <= i < |roots| && Logged(fault(roots[i])) ==> Visited(log, roots[i])
    ensures forall i :: 0 <= i < |roots| && Faulty(fault(roots[i])) ==> roots[i] in failed
    ensures var full := LevelOrder(children, rank, roots);
      (forall i :: 0 <= i < |full| ==> fault(full[i].node) == Healthy) ==> log == full && failed == []
  {
    var e := PutAll(Engine([], 0, None, []), RootItems(roots));
    ghost var order := PrunedOrder(children, rank, fault, roots);
    ghost var full := LevelOrder(children, rank, roots);
    ghost var healthy := forall i :: 0 <= i < |full| ==> fault(full[i].node) == Healthy;
    ghost var taken: seq<Item<N>> := [];
    failed := [];
    GuardedStart(e, children, rank, fault, roots, healthy);
    while e.queue != []
      invariant Guarded(e, children, rank, fault, order, full, healthy, taken, failed)
      decreases |Reach(Pruned(children, fault), rank, Nodes(e.queue))|
    {
      var it := e.queue[0];
      var o := ProcessGuarded(e, children, fault);
      GuardedStep(e, children, rank, fault, order, full, healthy, taken, failed);
      if Faulty(fault(it.node)) {
        failed := failed + [it.node];
      }
      taken := taken + [it];
      e := o.e;
    }
    log, pending := e.log, e.pending;
    GuardedEnds(e, children, rank, fault, roots, order, full, healthy, taken, failed);
  }
}
