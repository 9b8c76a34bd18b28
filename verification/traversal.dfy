/**
 The worklist traversal engine (`concurrent_traversal`), run by one worker.

 The engine owns a FIFO queue of (node, parent) work items and a pending
 counter: `put` appends and counts up, `task_done` counts down once an
 item's whole unit of work is over, and `join` returns when the counter is
 zero. The roots are put first; then the worker's loop body gets an item,
 visits it, puts every child of its node, and marks it done. The children
 oracle is ranked (see `Forest`), so the hierarchy is finite and acyclic.
 */
module Traversal {
  import opened Options
  import opened Forest

  /** A work item: a node and the node whose children listing produced it. */
  datatype Item<N> = Item(node: N, parent: Option<N>)

  /** The nodes of a sequence of work items, in order. */
  function Nodes<N>(q: seq<Item<N>>): (r: seq<N>)
    ensures |r| == |q|
  {
    seq(|q|, i requires 0 <= i < |q| => q[i].node)
  }

  /** The work items `put` for the roots: no parent. */
  function RootItems<N>(roots: seq<N>): (r: seq<Item<N>>)
    ensures Nodes(r) == roots
    ensures forall i :: 0 <= i < |r| ==> r[i].parent.None?
  {
    seq(|roots|, i requires 0 <= i < |roots| => Item(roots[i], None))
  }

  /** The work items `put` for the children `cs` of `n`. */
  function ChildItems<N>(n: N, cs: seq<N>): (r: seq<Item<N>>)
    ensures Nodes(r) == cs
    ensures forall i :: 0 <= i < |r| ==> r[i].parent == Some(n)
  {
    seq(|cs|, i requires 0 <= i < |cs| => Item(cs[i], Some(n)))
  }

  lemma NodesAppend<N>(a: seq<Item<N>>, b: seq<Item<N>>)
    ensures Nodes(a + b) == Nodes(a) + Nodes(b)
  {
  }

  lemma NodesOfChildItems<N>(n: N, cs: seq<N>)
    ensures Nodes(ChildItems(n, cs)) == cs
  {
  }

  // ---------------------------------------------------------------------
  // Engine state and the queue operations
  // ---------------------------------------------------------------------

  /**
   The engine between two steps: the queue, the pending counter, the item
   the worker holds between `get` and `task_done`, and the items visited so
   far, in visiting order.
   */
  datatype Engine<N> = Engine(queue: seq<Item<N>>, pending: int, inFlight: Option<Item<N>>, log: seq<Item<N>>)

  /** How many items are counted as pending but neither queued nor held: nobody will mark them done. */
  function Lost<N>(e: Engine<N>): (n: int) {
    e.pending - |e.queue| - (if e.inFlight.Some? then 1 else 0)
  }

  /** Every item put but not yet marked done is either queued or held. */
  predicate Counted<N>(e: Engine<N>) {
    Lost(e) == 0
  }

  /** `join` returns exactly when the pending counter is zero. */
  predicate JoinReturns<N>(e: Engine<N>) {
    e.pending == 0
  }

  /** `put`: append the item and count it. */
  function Put<N>(e: Engine<N>, it: Item<N>): (r: Engine<N>)
    ensures Lost(r) == Lost(e)
    ensures r.queue == e.queue + [it]
  {
    e.(queue := e.queue + [it], pending := e.pending + 1)
  }

  /** The `put` of every item of `items`, in order. */
  function PutAll<N>(e: Engine<N>, items: seq<Item<N>>): (r: Engine<N>)
    ensures r.queue == e.queue + items
    ensures r.pending == e.pending + |items|
    ensures r.inFlight == e.inFlight && r.log == e.log
    decreases |items|
  {
    if items == [] then e
    else PutAll(Put(e, items[0]), items[1..])
  }

  /** `get` on a non-empty queue: the worker now holds the first item. */
  function Get<N>(e: Engine<N>): (r: Engine<N>)
    requires e.queue != [] && e.inFlight.None?
    ensures Lost(r) == Lost(e)
    ensures r.inFlight == Some(e.queue[0]) && r.queue == e.queue[1..]
  {
    e.(queue := e.queue[1..], inFlight := Some(e.queue[0]))
  }

  /** `visit` of the held item. */
  function Visit<N>(e: Engine<N>): (r: Engine<N>)
    requires e.inFlight.Some?
    ensures r.log == e.log + [e.inFlight.value]
  {
    e.(log := e.log + [e.inFlight.value])
  }

  /** `task_done` for the held item: it stops being counted and the worker holds nothing. */
  function TaskDone<N>(e: Engine<N>): (r: Engine<N>)
    requires e.inFlight.Some?
    ensures r.inFlight.None? && r.pending == e.pending - 1 && Lost(r) == Lost(e)
  {
    e.(pending := e.pending - 1, inFlight := None)
  }

  /** How the collaborators behave on one node. */
  datatype Fault =
    | Healthy
      /** `visit` raises. */
    | VisitRaises
      /** `visit` raises `queue.Empty`, which the loop body's handler takes for a timed-out `get`. */
    | VisitRaisesEmpty
      /** `get_children` raises after yielding its first `yielded` children. */
    | ChildrenRaise(yielded: nat)

  /** The visit returned, so the item is in the log. */
  predicate Logged(f: Fault) {
    f.Healthy? || f.ChildrenRaise?
  }

  /** An exception other than `Empty` leaves the loop body. */
  predicate Escapes(f: Fault) {
    f.VisitRaises? || f.ChildrenRaise?
  }

  /** `order[k]` is the first node of `order` whose exception escapes the loop body. */
  ghost predicate StopsAt<N>(order: seq<Item<N>>, fault: N -> Fault, k: int) {
    && 0 <= k < |order| && Escapes(fault(order[k].node))
    && forall i :: 0 <= i < k ==> !Escapes(fault(order[i].node))
  }

  /** The loop body swallows the exception and goes on. */
  predicate Swallows(f: Fault) {
    f.VisitRaisesEmpty?
  }

  /** Something about the node raised. */
  predicate Faulty(f: Fault) {
    !f.Healthy?
  }

  /** The children of `n` that are put before its unit of work ends, normally or not. */
  function Yielded<N>(children: N -> seq<N>, fault: N -> Fault, n: N): (r: seq<N>)
    ensures r <= children(n)
    ensures fault(n) == Healthy ==> r == children(n)
    ensures !Logged(fault(n)) ==> r == []
  {
    match fault(n)
    case Healthy => children(n)
    case ChildrenRaise(k) => if k < |children(n)| then children(n)[..k] else children(n)
    case _ => []
  }

  /** The result of one pass of the worker's loop body. */
  datatype Outcome<N> =
    | TimedOut(e: Engine<N>)   // `get` raised `Empty`: poll again
    | Processed(e: Engine<N>)  // the item's unit of work completed
    | Swallowed(e: Engine<N>)  // `visit` raised `Empty`: the worker polls again, the item is dropped but still counted
    | Raised(e: Engine<N>)     // an exception escaped the loop body: the worker is gone

  /**
   One pass of the worker's loop body: get, visit, put each child paired
   with the node, task_done. Only `Empty` is caught, and the handler
   covers `visit` as well as `get`: an `Empty` from `visit` drops the item
   without marking it done, and any other exception from `visit` or from
   `get_children` leaves the loop body (and the worker) with the item still
   held and never marked done.
   */
  function Process<N>(e: Engine<N>, children: N -> seq<N>, fault: N -> Fault): (o: Outcome<N>)
    requires e.inFlight.None?
    ensures o.TimedOut? <==> e.queue == []
    ensures o.TimedOut? ==> o.e == e
    ensures Lost(o.e) == Lost(e) + (if o.Swallowed? then 1 else 0)
    ensures e.queue != [] ==>
      var it := e.queue[0];
      var f := fault(it.node);
      && (o.Processed? <==> f == Healthy)
      && (o.Swallowed? <==> Swallows(f))
      && (o.Raised? <==> Escapes(f))
      && o.e.queue == e.queue[1..] + ChildItems(it.node, Yielded(children, fault, it.node))
      && o.e.log == e.log + (if Logged(f) then [it] else [])
      && o.e.inFlight == (if o.Raised? then Some(it) else None)
  {
    if e.queue == [] then TimedOut(e)
    else
      var held := Get(e);
      var it := held.inFlight.value;
      var put := ChildItems(it.node, Yielded(children, fault, it.node));
      match fault(it.node)
      case VisitRaises =>
        assert held.queue == e.queue[1..] + put;
        Raised(held)
      case VisitRaisesEmpty =>
        assert held.queue == e.queue[1..] + put;
        Swallowed(held.(inFlight := None))
      case ChildrenRaise(_) =>
        Raised(PutAll(Visit(held), put))
      case Healthy =>
        Processed(TaskDone(PutAll(Visit(held), put)))
  }

  /** With one root whose processing raises, the unguarded loop body leaves the root counted forever. */
  lemma FailureBlocksJoin<N>(root: N, children: N -> seq<N>, fault: N -> Fault)
    requires Escapes(fault(root))
    ensures var o := Process(Put(Engine([], 0, None, []), Item(root, None)), children, fault);
      o.Raised? && o.e.inFlight == Some(Item(root, None)) && o.e.pending >= 1 && !JoinReturns(o.e)
  {
    var e := Put(Engine([], 0, None, []), Item(root, None));
    assert e.queue == [Item(root, None)];
  }

  /**
   With one root whose visit raises `Empty`, the worker survives and polls
   an empty queue forever, while the dropped root stays counted: `join`
   never returns and nothing is reported.
   */
  lemma SwallowedEmptyBlocksJoin<N>(root: N, children: N -> seq<N>, fault: N -> Fault)
    requires Swallows(fault(root))
    ensures var o := Process(Put(Engine([], 0, None, []), Item(root, None)), children, fault);
      && o.Swallowed? && o.e.queue == [] && o.e.inFlight.None? && o.e.log == []
      && o.e.pending == 1 && !JoinReturns(o.e)
      && Process(o.e, children, fault) == TimedOut(o.e)
  {
    var e := Put(Engine([], 0, None, []), Item(root, None));
    assert e.queue == [Item(root, None)];
  }

  // ---------------------------------------------------------------------
  // Orders of visiting
  // ---------------------------------------------------------------------

  /** The worklist step removes exactly the head's node from the unfolding. */
  lemma WorkStep<N(!new)>(children: N -> seq<N>, rank: N -> nat, q: seq<Item<N>>)
    requires Ranked(children, rank)
    requires q != []
    ensures var rest := q[1..] + ChildItems(q[0].node, children(q[0].node));
      && |Reach(children, rank, Nodes(rest))| + 1 == |Reach(children, rank, Nodes(q))|
      && multiset(Reach(children, rank, Nodes(q))) == multiset{q[0].node} + multiset(Reach(children, rank, Nodes(rest)))
  {
    var n := q[0].node;
    NodesAppend(q[1..], ChildItems(n, children(n)));
    NodesOfChildItems(n, children(n));
    assert Nodes(q[1..]) == Nodes(q)[1..];
    ReachStep(children, rank, Nodes(q));
  }

  /**
   The visiting order of one worker over a FIFO queue holding `q`: take the
   head, then go on with the rest of the queue followed by the head's
   children.
   */
  function Bfs<N(!new)>(children: N -> seq<N>, rank: N -> nat, q: seq<Item<N>>): (r: seq<Item<N>>)
    requires Ranked(children, rank)
    ensures |r| == 0 <==> q == []
    ensures q != [] ==> r[0] == q[0]
    decreases |Reach(children, rank, Nodes(q))|
  {
    if q == [] then []
    else
      WorkStep(children, rank, q);
      [q[0]] + Bfs(children, rank, q[1..] + ChildItems(q[0].node, children(q[0].node)))
  }

  /** The next level: the children of every item of `level`, in order. */
  function NextLevel<N>(children: N -> seq<N>, level: seq<Item<N>>): (r: seq<Item<N>>)
    ensures level == [] ==> r == []
    decreases |level|
  {
    if level == [] then []
    else ChildItems(level[0].node, children(level[0].node)) + NextLevel(children, level[1..])
  }

  lemma {:induction false} NextLevelAppend<N>(children: N -> seq<N>, a: seq<Item<N>>, b: seq<Item<N>>)
    ensures NextLevel(children, a + b) == NextLevel(children, a) + NextLevel(children, b)
    decreases |a|
  {
    if a == [] {
      assert a + b == b;
    } else {
      assert (a + b)[0] == a[0] && (a + b)[1..] == a[1..] + b;
      NextLevelAppend(children, a[1..], b);
    }
  }

  /** The unfolding under a level is the level itself plus the unfolding under the next level. */
  lemma {:induction false} LevelReach<N(!new)>(children: N -> seq<N>, rank: N -> nat, level: seq<Item<N>>)
    requires Ranked(children, rank)
    ensures |Reach(children, rank, Nodes(level))| == |level| + |Reach(children, rank, Nodes(NextLevel(children, level)))|
    decreases |level|
  {
    if level != [] {
      var n := level[0].node;
      var kids := ChildItems(n, children(n));
      LevelReach(children, rank, level[1..]);
      assert Nodes(level)[1..] == Nodes(level[1..]);
      NodesAppend(kids, NextLevel(children, level[1..]));
      NodesOfChildItems(n, children(n));
      ReachAppend(children, rank, children(n), Nodes(NextLevel(children, level[1..])));
    }
  }

  /** Level-order from `level` on: the level, then the order from its next level. */
  function LevelOrderFrom<N(!new)>(children: N -> seq<N>, rank: N -> nat, level: seq<Item<N>>): (r: seq<Item<N>>)
    requires Ranked(children, rank)
    ensures |level| <= |r| && r[..|level|] == level
    decreases |Reach(children, rank, Nodes(level))|
  {
    if level == [] then []
    else
      LevelReach(children, rank, level);
      level + LevelOrderFrom(children, rank, NextLevel(children, level))
  }

  /** Level-order (breadth-first) order of the whole forest under `roots`. */
  function LevelOrder<N(!new)>(children: N -> seq<N>, rank: N -> nat, roots: seq<N>): (r: seq<Item<N>>)
    requires Ranked(children, rank)
    ensures |roots| <= |r|
  {
    LevelOrderFrom(children, rank, RootItems(roots))
  }

  lemma BfsUnfold<N(!new)>(children: N -> seq<N>, rank: N -> nat, q: seq<Item<N>>)
    requires Ranked(children, rank)
    requires q != []
    ensures Bfs(children, rank, q) == [q[0]] + Bfs(children, rank, q[1..] + ChildItems(q[0].node, children(q[0].node)))
  {
  }

  lemma LevelOrderUnfold<N(!new)>(children: N -> seq<N>, rank: N -> nat, level: seq<Item<N>>)
    requires Ranked(children, rank)
    requires level != []
    ensures LevelOrderFrom(children, rank, level) == level + LevelOrderFrom(children, rank, NextLevel(children, level))
  {
  }

  /**
   A queue made of the rest `a` of one level followed by the children `b`
   already put for the part of that level that was processed yields `a`
   and then level order from `b` plus the children of `a`.
   */
  lemma {:induction false} BfsLevels<N(!new)>(children: N -> seq<N>, rank: N -> nat, a: seq<Item<N>>, b: seq<Item<N>>)
    requires Ranked(children, rank)
    ensures Bfs(children, rank, a + b) == a + LevelOrderFrom(children, rank, b + NextLevel(children, a))
    decreases |Reach(children, rank, Nodes(a + b))|
  {
    if a != [] {
      BfsLevelsHead(children, rank, a, b);
    } else if b != [] {
      BfsLevelsNext(children, rank, b);
    } else {
      assert a + b == [];
      assert b + NextLevel(children, a) == [];
    }
  }

  lemma {:induction false} BfsLevelsHead<N(!new)>(children: N -> seq<N>, rank: N -> nat, a: seq<Item<N>>, b: seq<Item<N>>)
    requires Ranked(children, rank)
    requires a != []
    ensures Bfs(children, rank, a + b) == a + LevelOrderFrom(children, rank, b + NextLevel(children, a))
    decreases |Reach(children, rank, Nodes(a + b))|, 0
  {
    var kids := ChildItems(a[0].node, children(a[0].node));
    BfsUnfoldAppend(children, rank, a, b);
    WorkStepAppend(children, rank, a, b);
    BfsLevels(children, rank, a[1..], b + kids);
    NextLevelShift(children, a, b);
    ConsAppend(a, LevelOrderFrom(children, rank, b + NextLevel(children, a)));
  }

  lemma BfsUnfoldAppend<N(!new)>(children: N -> seq<N>, rank: N -> nat, a: seq<Item<N>>, b: seq<Item<N>>)
    requires Ranked(children, rank)
    requires a != []
    ensures Bfs(children, rank, a + b)
         == [a[0]] + Bfs(children, rank, a[1..] + (b + ChildItems(a[0].node, children(a[0].node))))
  {
    ShiftHead(a, b, ChildItems(a[0].node, children(a[0].node)));
    BfsUnfold(children, rank, a + b);
  }

  lemma WorkStepAppend<N(!new)>(children: N -> seq<N>, rank: N -> nat, a: seq<Item<N>>, b: seq<Item<N>>)
    requires Ranked(children, rank)
    requires a != []
    ensures |Reach(children, rank, Nodes(a[1..] + (b + ChildItems(a[0].node, children(a[0].node)))))|
          < |Reach(children, rank, Nodes(a + b))|
  {
    ShiftHead(a, b, ChildItems(a[0].node, children(a[0].node)));
    WorkStep(children, rank, a + b);
  }

  lemma NextLevelShift<N>(children: N -> seq<N>, a: seq<Item<N>>, b: seq<Item<N>>)
    requires a != []
    ensures b + ChildItems(a[0].node, children(a[0].node)) + NextLevel(children, a[1..]) == b + NextLevel(children, a)
  {
  }

  lemma ShiftHead<T>(a: seq<T>, b: seq<T>, k: seq<T>)
    requires a != []
    ensures (a + b)[0] == a[0] && (a + b)[1..] + k == a[1..] + (b + k)
  {
  }

  lemma EmptyAppend<T>(b: seq<T>)
    ensures [] + b == b && b + [] == b
  {
  }

  lemma ConsAppend<T>(a: seq<T>, r: seq<T>)
    requires a != []
    ensures [a[0]] + (a[1..] + r) == a + r
  {
  }

  lemma {:induction false} BfsLevelsNext<N(!new)>(children: N -> seq<N>, rank: N -> nat, b: seq<Item<N>>)
    requires Ranked(children, rank)
    requires b != []
    ensures Bfs(children, rank, [] + b) == [] + LevelOrderFrom(children, rank, b + NextLevel(children, []))
    decreases |Reach(children, rank, Nodes([] + b))|, 0
  {
    var kids := ChildItems(b[0].node, children(b[0].node));
    var next := NextLevel(children, b);
    EmptyAppend(b);
    EmptyAppend(LevelOrderFrom(children, rank, b));
    BfsUnfold(children, rank, b);
    WorkStep(children, rank, b);
    BfsLevels(children, rank, b[1..], kids);
    LevelOrderUnfold(children, rank, b);
    ConsAppend(b, LevelOrderFrom(children, rank, next));
  }

  /** With every root put before processing starts, one worker over the FIFO queue visits in level order. */
  lemma BfsIsLevelOrder<N(!new)>(children: N -> seq<N>, rank: N -> nat, roots: seq<N>)
    requires Ranked(children, rank)
    ensures Bfs(children, rank, RootItems(roots)) == LevelOrder(children, rank, roots)
  {
    var r := RootItems(roots);
    BfsLevels(children, rank, r, []);
    EmptyAppend(r);
    EmptyAppend(NextLevel(children, r));
  }

  /** Every item of a next level carries a parent. */
  lemma {:induction false} NextLevelHasParents<N>(children: N -> seq<N>, level: seq<Item<N>>)
    ensures forall i :: 0 <= i < |NextLevel(children, level)| ==> NextLevel(children, level)[i].parent.Some?
    decreases |level|
  {
    if level != [] {
      NextLevelHasParents(children, level[1..]);
    }
  }

  lemma {:induction false} LevelOrderFromHasParents<N(!new)>(children: N -> seq<N>, rank: N -> nat, level: seq<Item<N>>)
    requires Ranked(children, rank)
    requires forall i :: 0 <= i < |level| ==> level[i].parent.Some?
    ensures forall i :: 0 <= i < |LevelOrderFrom(children, rank, level)| ==> LevelOrderFrom(children, rank, level)[i].parent.Some?
    decreases |Reach(children, rank, Nodes(level))|
  {
    if level != [] {
      LevelReach(children, rank, level);
      NextLevelHasParents(children, level);
      LevelOrderFromHasParents(children, rank, NextLevel(children, level));
      LevelOrderUnfold(children, rank, level);
    }
  }

  /**
   Level order starts with the roots, in the order they were listed and
   with no parent; every later item carries the parent that listed it.
   */
  lemma RootsFirst<N(!new)>(children: N -> seq<N>, rank: N -> nat, roots: seq<N>)
    requires Ranked(children, rank)
    ensures var order := LevelOrder(children, rank, roots);
      && |roots| <= |order|
      && (forall i :: 0 <= i < |roots| ==> order[i] == Item(roots[i], None))
      && (forall i :: |roots| <= i < |order| ==> order[i].parent.Some?)
  {
    var r := RootItems(roots);
    if roots != [] {
      LevelOrderUnfold(children, rank, r);
      NextLevelHasParents(children, r);
      LevelOrderFromHasParents(children, rank, NextLevel(children, r));
    }
  }

  /** The worker's order holds every node of the unfolding, as often as it occurs there. */
  lemma {:induction false} BfsCoversUnfolding<N(!new)>(children: N -> seq<N>, rank: N -> nat, q: seq<Item<N>>)
    requires Ranked(children, rank)
    ensures multiset(Nodes(Bfs(children, rank, q))) == multiset(Reach(children, rank, Nodes(q)))
    decreases |Reach(children, rank, Nodes(q))|
  {
    if q != [] {
      var rest := q[1..] + ChildItems(q[0].node, children(q[0].node));
      WorkStep(children, rank, q);
      BfsCoversUnfolding(children, rank, rest);
      BfsUnfold(children, rank, q);
      NodesCons(q[0], Bfs(children, rank, rest));
    }
  }

  lemma NodesCons<N>(x: Item<N>, q: seq<Item<N>>)
    ensures multiset(Nodes([x] + q)) == multiset{x.node} + multiset(Nodes(q))
  {
    assert Nodes([x] + q) == [x.node] + Nodes(q);
  }

  /** The level-order visiting order covers the forest's unfolding exactly. */
  lemma LevelOrderCovers<N(!new)>(children: N -> seq<N>, rank: N -> nat, roots: seq<N>)
    requires Ranked(children, rank)
    ensures multiset(Nodes(LevelOrder(children, rank, roots))) == multiset(Reach(children, rank, roots))
    ensures |LevelOrder(children, rank, roots)| == |Reach(children, rank, roots)|
  {
    BfsIsLevelOrder(children, rank, roots);
    BfsCoversUnfolding(children, rank, RootItems(roots));
    assert Nodes(RootItems(roots)) == roots;
    assert |Nodes(LevelOrder(children, rank, roots))| == |multiset(Reach(children, rank, roots))|;
  }

  /**
   When no node is reachable along two paths (the hierarchy is a forest
   and the roots are distinct), every reachable node is visited exactly
   once and nothing else is visited.
   */
  lemma VisitedExactlyOnce<N(!new)>(children: N -> seq<N>, rank: N -> nat, roots: seq<N>, x: N)
    requires Ranked(children, rank)
    requires NoDup(Reach(children, rank, roots))
    ensures multiset(Nodes(LevelOrder(children, rank, roots)))[x] == (if x in Reach(children, rank, roots) then 1 else 0)
  {
    LevelOrderCovers(children, rank, roots);
    NoDupCount(Reach(children, rank, roots), x);
  }

  /** With no roots nothing is put, nothing is visited and `join` returns at once. */
  lemma NoRootsNoWork<N(!new)>(children: N -> seq<N>, rank: N -> nat)
    requires Ranked(children, rank)
    ensures LevelOrder(children, rank, []) == []
    ensures JoinReturns(PutAll(Engine([], 0, None, []), RootItems<N>([])))
  {
  }

  // ---------------------------------------------------------------------
  // Causal order
  // ---------------------------------------------------------------------

  /** Some item of `log` carries node `x`. */
  ghost predicate Visited<N>(log: seq<Item<N>>, x: N) {
    exists j :: 0 <= j < |log| && log[j].node == x
  }

  /** Every visited non-root's parent was visited earlier. */
  ghost predicate ParentEarlier<N>(log: seq<Item<N>>) {
    forall i :: 0 <= i < |log| && log[i].parent.Some? ==> Visited(log[..i], log[i].parent.value)
  }

  /** The parent of every item queued or held has been visited already. */
  ghost predicate Causal<N>(e: Engine<N>) {
    && ParentEarlier(e.log)
    && (forall i :: 0 <= i < |e.queue| && e.queue[i].parent.Some? ==> Visited(e.log, e.queue[i].parent.value))
    && (e.inFlight.Some? && e.inFlight.value.parent.Some? ==> Visited(e.log, e.inFlight.value.parent.value))
  }

  lemma VisitedGrows<N>(log: seq<Item<N>>, more: seq<Item<N>>, x: N)
    requires Visited(log, x)
    ensures Visited(log + more, x)
  {
    var j :| 0 <= j < |log| && log[j].node == x;
    assert (log + more)[j] == log[j];
  }

  lemma {:induction false} ParentEarlierSnoc<N>(log: seq<Item<N>>, it: Item<N>)
    requires ParentEarlier(log)
    requires it.parent.Some? ==> Visited(log, it.parent.value)
    ensures ParentEarlier(log + [it])
  {
    var log' := log + [it];
    forall i | 0 <= i < |log'| && log'[i].parent.Some?
      ensures Visited(log'[..i], log'[i].parent.value)
    {
      if i < |log| {
        assert log'[..i] == log[..i] && log'[i] == log[i];
      } else {
        assert log'[..i] == log;
      }
    }
  }

  /** Logging the head of a causally ordered queue and queueing its children keeps the order causal. */
  lemma CausalStep<N>(log: seq<Item<N>>, q: seq<Item<N>>, kids: seq<N>)
    requires q != [] && ParentEarlier(log)
    requires forall i :: 0 <= i < |q| && q[i].parent.Some? ==> Visited(log, q[i].parent.value)
    ensures ParentEarlier(log + [q[0]])
    ensures var rest := q[1..] + ChildItems(q[0].node, kids);
      forall i :: 0 <= i < |rest| && rest[i].parent.Some? ==> Visited(log + [q[0]], rest[i].parent.value)
  {
    var it := q[0];
    var rest := q[1..] + ChildItems(it.node, kids);
    var log' := log + [it];
    ParentEarlierSnoc(log, it);
    assert log'[|log|] == it;
    forall i | 0 <= i < |rest| && rest[i].parent.Some?
      ensures Visited(log', rest[i].parent.value)
    {
      if i < |q| - 1 {
        assert rest[i] == q[i + 1];
        VisitedGrows(log, [it], rest[i].parent.value);
      } else {
        assert rest[i].parent == Some(it.node);
      }
    }
  }

  /** Each pass of the loop body keeps the causal order, whatever the node's fault. */
  lemma ProcessKeepsCausal<N>(e: Engine<N>, children: N -> seq<N>, fault: N -> Fault)
    requires e.inFlight.None? && Causal(e)
    ensures Causal(Process(e, children, fault).e)
  {
    if e.queue != [] {
      var o := Process(e, children, fault);
      var it := e.queue[0];
      var kids := Yielded(children, fault, it.node);
      if Logged(fault(it.node)) {
        CausalStep(e.log, e.queue, kids);
        if it.parent.Some? {
          VisitedGrows(e.log, [it], it.parent.value);
        }
      } else {
        assert ChildItems(it.node, kids) == [];
        forall i | 0 <= i < |o.e.queue| && o.e.queue[i].parent.Some?
          ensures Visited(o.e.log, o.e.queue[i].parent.value)
        {
          assert o.e.queue[i] == e.queue[i + 1];
        }
      }
    }
  }

  /** A root `put` at any moment keeps the causal order: it has no parent. */
  lemma PutRootKeepsCausal<N>(e: Engine<N>, root: N)
    requires Causal(e)
    ensures Causal(Put(e, Item(root, None)))
  {
    var r := Put(e, Item(root, None));
    forall i | 0 <= i < |r.queue| && r.queue[i].parent.Some?
      ensures Visited(r.log, r.queue[i].parent.value)
    {
      assert r.queue[i] == e.queue[i];
    }
  }

  /**
   Running the FIFO order from a queue whose parents are all visited keeps
   the causal order: every item's parent comes before it.
   */
  lemma {:induction false} BfsCausal<N(!new)>(children: N -> seq<N>, rank: N -> nat, log: seq<Item<N>>, q: seq<Item<N>>)
    requires Ranked(children, rank)
    requires ParentEarlier(log)
    requires forall i :: 0 <= i < |q| && q[i].parent.Some? ==> Visited(log, q[i].parent.value)
    ensures ParentEarlier(log + Bfs(children, rank, q))
    decreases |Reach(children, rank, Nodes(q))|
  {
    if q == [] {
      EmptyAppend(log);
    } else {
      var it := q[0];
      var rest := q[1..] + ChildItems(it.node, children(it.node));
      WorkStep(children, rank, q);
      CausalStep(log, q, children(it.node));
      BfsCausal(children, rank, log + [it], rest);
      BfsUnfold(children, rank, q);
      SnocAppend(log, it, Bfs(children, rank, rest));
    }
  }

  /** In level order every non-root's parent comes earlier. */
  lemma LevelOrderCausal<N(!new)>(children: N -> seq<N>, rank: N -> nat, roots: seq<N>)
    requires Ranked(children, rank)
    ensures ParentEarlier(LevelOrder(children, rank, roots))
  {
    BfsIsLevelOrder(children, rank, roots);
    BfsCausal(children, rank, [], RootItems(roots));
    EmptyAppend(Bfs(children, rank, RootItems(roots)));
  }

  // ---------------------------------------------------------------------
  // Failures: the hierarchy the worker actually explores
  // ---------------------------------------------------------------------

  /**
   The hierarchy as the loop body explores it: a node's children are the
   ones put before its unit of work ended, normally or not.
   */
  function Pruned<N(!new)>(children: N -> seq<N>, fault: N -> Fault): (p: N -> seq<N>)
    ensures forall n :: p(n) == Yielded(children, fault, n)
  {
    n => Yielded(children, fault, n)
  }

  lemma PrunedRanked<N(!new)>(children: N -> seq<N>, rank: N -> nat, fault: N -> Fault)
    requires Ranked(children, rank)
    ensures Ranked(Pruned(children, fault), rank)
  {
    var p := Pruned(children, fault);
    forall n, c | c in p(n) ensures rank(c) < rank(n) {
      var ys := Yielded(children, fault, n);
      var i :| 0 <= i < |ys| && ys[i] == c;
      assert children(n)[i] == c;
    }
  }

  /**
   The order in which one worker takes items off the queue when every
   node's unit of work ends as its fault says: level order of the pruned
   hierarchy, starting with the roots.
   */
  function PrunedOrder<N(!new)>(children: N -> seq<N>, rank: N -> nat, fault: N -> Fault, roots: seq<N>): (order: seq<Item<N>>)
    requires Ranked(children, rank)
    ensures |roots| <= |order|
    ensures forall i :: 0 <= i < |roots| ==> order[i] == Item(roots[i], None)
  {
    PrunedRanked(children, rank, fault);
    RootsFirst(Pruned(children, fault), rank, roots);
    LevelOrder(Pruned(children, fault), rank, roots)
  }

  /** The nodes of the pruned hierarchy, as often as they are reached. */
  function PrunedReach<N(!new)>(children: N -> seq<N>, rank: N -> nat, fault: N -> Fault, roots: seq<N>): (r: seq<N>)
    requires Ranked(children, rank)
    ensures multiset(Nodes(PrunedOrder(children, rank, fault, roots))) == multiset(r)
  {
    PrunedRanked(children, rank, fault);
    LevelOrderCovers(Pruned(children, fault), rank, roots);
    Reach(Pruned(children, fault), rank, roots)
  }

  /** The items of `s` whose node's fault satisfies `keep`, in order. */
  function Where<N>(s: seq<Item<N>>, fault: N -> Fault, keep: Fault -> bool): (r: seq<Item<N>>)
    ensures |r| <= |s|
    ensures forall i :: 0 <= i < |r| ==> r[i] in s && keep(fault(r[i].node))
    decreases |s|
  {
    if s == [] then []
    else (if keep(fault(s[0].node)) then [s[0]] else []) + Where(s[1..], fault, keep)
  }

  lemma {:induction false} WhereAppend<N>(a: seq<Item<N>>, b: seq<Item<N>>, fault: N -> Fault, keep: Fault -> bool)
    ensures Where(a + b, fault, keep) == Where(a, fault, keep) + Where(b, fault, keep)
    decreases |a|
  {
    if a == [] {
      assert a + b == b;
    } else {
      assert (a + b)[0] == a[0] && (a + b)[1..] == a[1..] + b;
      WhereAppend(a[1..], b, fault, keep);
    }
  }

  lemma WhereSnoc<N>(s: seq<Item<N>>, x: Item<N>, fault: N -> Fault, keep: Fault -> bool)
    ensures Where(s + [x], fault, keep) == Where(s, fault, keep) + (if keep(fault(x.node)) then [x] else [])
  {
    WhereAppend(s, [x], fault, keep);
    assert [x][1..] == [];
  }

  /** Every item whose fault satisfies `keep` is selected. */
  lemma {:induction false} WhereHas<N>(s: seq<Item<N>>, fault: N -> Fault, keep: Fault -> bool, i: nat)
    requires i < |s| && keep(fault(s[i].node))
    ensures s[i] in Where(s, fault, keep)
    decreases |s|
  {
    if i > 0 {
      assert s[i] == s[1..][i - 1];
      WhereHas(s[1..], fault, keep, i - 1);
    }
  }

  /** Selecting from a prefix gives a prefix of the selection. */
  lemma WherePrefix<N>(a: seq<Item<N>>, s: seq<Item<N>>, fault: N -> Fault, keep: Fault -> bool)
    requires a <= s
    ensures Where(a, fault, keep) <= Where(s, fault, keep)
  {
    assert s == a + s[|a|..];
    WhereAppend(a, s[|a|..], fault, keep);
    PrefixOf(Where(a, fault, keep), Where(s[|a|..], fault, keep));
  }

  /**
   When the log is the visited part of an order that covers an unfolding,
   a node is visited exactly when it is reached and its own visit returns.
   */
  lemma VisitsCover<N>(order: seq<Item<N>>, reach: seq<N>, fault: N -> Fault, log: seq<Item<N>>)
    requires multiset(Nodes(order)) == multiset(reach)
    requires log == Where(order, fault, Logged)
    ensures forall x :: Visited(log, x) <==> x in reach && Logged(fault(x))
  {
    forall x | Visited(log, x) ensures x in reach && Logged(fault(x)) {
      var j :| 0 <= j < |log| && log[j].node == x;
      var i :| 0 <= i < |order| && order[i] == log[j];
      assert Nodes(order)[i] == x;
      assert x in multiset(Nodes(order));
    }
    forall x | x in reach && Logged(fault(x)) ensures Visited(log, x) {
      assert x in multiset(Nodes(order));
      var i :| 0 <= i < |order| && Nodes(order)[i] == x;
      WhereHas(order, fault, Logged, i);
      var j :| 0 <= j < |log| && log[j] == order[i];
    }
  }

  /** The node of every selected item is among the nodes of the selection. */
  lemma InNodes<N>(w: seq<Item<N>>, x: Item<N>)
    requires x in w
    ensures x.node in Nodes(w)
  {
    var k :| 0 <= k < |w| && w[k] == x;
    assert Nodes(w)[k] == x.node;
  }

  /** One step of the FIFO order: the head is taken and its children join the back of the queue. */
  lemma BfsStep<N(!new)>(children: N -> seq<N>, rank: N -> nat, done: seq<Item<N>>, q: seq<Item<N>>, order: seq<Item<N>>)
    requires Ranked(children, rank)
    requires q != [] && done + Bfs(children, rank, q) == order
    ensures var rest := q[1..] + ChildItems(q[0].node, children(q[0].node));
      && (done + [q[0]]) + Bfs(children, rank, rest) == order
      && |Reach(children, rank, Nodes(rest))| < |Reach(children, rank, Nodes(q))|
      && |done| < |order| && order[|done|] == q[0]
  {
    var rest := q[1..] + ChildItems(q[0].node, children(q[0].node));
    WorkStep(children, rank, q);
    BfsUnfold(children, rank, q);
    SnocAppend(done, q[0], Bfs(children, rank, rest));
    assert order[|done|] == (done + [q[0]])[|done|];
  }

  // ---------------------------------------------------------------------
  // The traversal
  // ---------------------------------------------------------------------

  /**
   `concurrent_traversal` with one worker: put every root with no parent,
   then run the loop body until the queue is empty. An `Empty` from
   `visit` drops its item but the worker goes on; any other exception
   ends the worker with its item still counted (`hung`). `join` returns
   exactly when the pending count reaches zero.
   */
  method Traverse<N(!new)>(roots: seq<N>, children: N -> seq<N>, rank: N -> nat, fault: N -> Fault)
    returns (log: seq<Item<N>>, pending: int, hung: bool)
    requires Ranked(children, rank)
    ensures ParentEarlier(log)
    ensures var order := PrunedOrder(children, rank, fault, roots);
      && (hung <==> exists i :: 0 <= i < |order| && Escapes(fault(order[i].node)))
      && (hung ==> log <= Where(order, fault, Logged) && pending >= 1)
      && (hung ==> exists k :: StopsAt(order, fault, k) && log == Where(order[..k + 1], fault, Logged))
      && (!hung ==> log == Where(order, fault, Logged) && pending == |Where(order, fault, Swallows)|)
      && (pending == 0 <==> forall i :: 0 <= i < |order| ==> fault(order[i].node) == Healthy)
    ensures !hung ==> forall x :: Visited(log, x) <==> x in PrunedReach(children, rank, fault, roots) && Logged(fault(x))
    ensures var full := LevelOrder(children, rank, roots);
      (forall i :: 0 <= i < |full| ==> fault(full[i].node) == Healthy) ==> log == full && pending == 0
  {
    var e := PutAll(Engine([], 0, None, []), RootItems(roots));
    ghost var order := PrunedOrder(children, rank, fault, roots);
    ghost var full := LevelOrder(children, rank, roots);
    ghost var healthy := forall i :: 0 <= i < |full| ==> fault(full[i].node) == Healthy;
    ghost var taken: seq<Item<N>> := [];
    hung := false;
    RunningStart(e, children, rank, fault, roots, healthy);
    while !hung && e.queue != []
      invariant Running(e, children, rank, fault, order, full, healthy, taken, hung)
      decreases if hung then 0 else |Reach(Pruned(children, fault), rank, Nodes(e.queue))| + 1
    {
      var it := e.queue[0];
      var o := Process(e, children, fault);
      RunningStep(e, children, rank, fault, order, full, healthy, taken);
      if o.Raised? {
        hung := true;
      }
      taken := taken + [it];
      e := o.e;
    }
    log, pending := e.log, e.pending;
    RunningEnds(e, children, rank, fault, roots, order, full, healthy, taken, hung);
  }

  /**
   The loop invariant of the single worker: `taken` is what it has taken
   off the queue so far, a prefix of the pruned order, whose logged and
   swallowed items are exactly the log and the lost count; until an
   exception escapes, the queue unfolds to the rest of that order, and
   while every node is healthy the log and the queue unfold to the full
   level order.
   */
  ghost predicate Running<N(!new)>(e: Engine<N>, children: N -> seq<N>, rank: N -> nat, fault: N -> Fault,
                                   order: seq<Item<N>>, full: seq<Item<N>>, healthy: bool,
                                   taken: seq<Item<N>>, hung: bool)
  {
    && Ranked(children, rank) && Ranked(Pruned(children, fault), rank) && Causal(e)
    && (!hung ==> e.inFlight.None? && taken + Bfs(Pruned(children, fault), rank, e.queue) == order)
    && (hung ==> e.inFlight.Some? && taken <= order && taken != [] && Escapes(fault(taken[|taken| - 1].node)))
    && (forall i :: 0 <= i < |taken| - (if hung then 1 else 0) ==> !Escapes(fault(taken[i].node)))
    && e.log == Where(taken, fault, Logged)
    && Lost(e) == |Where(taken, fault, Swallows)|
    && (healthy <==> forall i :: 0 <= i < |full| ==> fault(full[i].node) == Healthy)
    && (healthy ==> !hung && Lost(e) == 0 && e.log + Bfs(children, rank, e.queue) == full)
  }

  /** Once every root is put, nothing is taken yet and the queue unfolds to both orders. */
  lemma RunningStart<N(!new)>(e: Engine<N>, children: N -> seq<N>, rank: N -> nat, fault: N -> Fault,
                              roots: seq<N>, healthy: bool)
    requires Ranked(children, rank)
    requires e == PutAll(Engine([], 0, None, []), RootItems(roots))
    requires var full := LevelOrder(children, rank, roots);
      healthy <==> forall i :: 0 <= i < |full| ==> fault(full[i].node) == Healthy
    ensures Running(e, children, rank, fault, PrunedOrder(children, rank, fault, roots),
                    LevelOrder(children, rank, roots), healthy, [], false)
  {
    Seeded(roots);
    StartOrders(children, rank, fault, roots);
    EmptyAppend(Bfs(Pruned(children, fault), rank, RootItems(roots)));
    EmptyAppend(Bfs(children, rank, RootItems(roots)));
    assert Where([], fault, Logged) == [] && Where([], fault, Swallows) == [];
  }

  /** From the roots alone, the FIFO order is the pruned and the full level order. */
  lemma StartOrders<N(!new)>(children: N -> seq<N>, rank: N -> nat, fault: N -> Fault, roots: seq<N>)
    requires Ranked(children, rank)
    ensures Ranked(Pruned(children, fault), rank)
    ensures Bfs(Pruned(children, fault), rank, RootItems(roots)) == PrunedOrder(children, rank, fault, roots)
    ensures Bfs(children, rank, RootItems(roots)) == LevelOrder(children, rank, roots)
  {
    PrunedRanked(children, rank, fault);
    BfsIsLevelOrder(Pruned(children, fault), rank, roots);
    BfsIsLevelOrder(children, rank, roots);
  }

  /** The engine with every root put: nothing held, nothing logged, nothing lost, causal. */
  lemma Seeded<N>(roots: seq<N>)
    ensures var e := PutAll(Engine([], 0, None, []), RootItems(roots));
      && e.queue == RootItems(roots) && e.inFlight.None? && e.log == [] && Lost(e) == 0 && Causal(e)
  {
    var e := PutAll(Engine([], 0, None, []), RootItems(roots));
    assert e.queue == RootItems(roots);
    assert forall i :: 0 <= i < |e.queue| ==> e.queue[i].parent.None?;
  }

  /** One pass of the loop body keeps the invariant and, unless it hangs, shrinks what is left to reach. */
  lemma RunningStep<N(!new)>(e: Engine<N>, children: N -> seq<N>, rank: N -> nat, fault: N -> Fault,
                             order: seq<Item<N>>, full: seq<Item<N>>, healthy: bool, taken: seq<Item<N>>)
    requires Running(e, children, rank, fault, order, full, healthy, taken, false) && e.queue != []
    ensures var o := Process(e, children, fault);
      && Running(o.e, children, rank, fault, order, full, healthy, taken + [e.queue[0]], o.Raised?)
      && (!o.Raised? ==>
            |Reach(Pruned(children, fault), rank, Nodes(o.e.queue))| < |Reach(Pruned(children, fault), rank, Nodes(e.queue))|)
  {
    ProcessKeepsCausal(e, children, fault);
    PrunedStep(e, children, rank, fault, taken, order);
    if healthy {
      HealthyStep(e, children, rank, fault, full);
    }
  }

  /** When the worker stops, the invariant gives every postcondition of the traversal. */
  lemma RunningEnds<N(!new)>(e: Engine<N>, children: N -> seq<N>, rank: N -> nat, fault: N -> Fault, roots: seq<N>,
                             order: seq<Item<N>>, full: seq<Item<N>>, healthy: bool, taken: seq<Item<N>>, hung: bool)
    requires Ranked(children, rank)
    requires order == PrunedOrder(children, rank, fault, roots) && full == LevelOrder(children, rank, roots)
    requires Running(e, children, rank, fault, order, full, healthy, taken, hung)
    requires hung || e.queue == []
    ensures ParentEarlier(e.log)
    ensures && (hung <==> exists i :: 0 <= i < |order| && Escapes(fault(order[i].node)))
      && (hung ==> e.log <= Where(order, fault, Logged) && e.pending >= 1)
      && (hung ==> exists k :: StopsAt(order, fault, k) && e.log == Where(order[..k + 1], fault, Logged))
      && (!hung ==> e.log == Where(order, fault, Logged) && e.pending == |Where(order, fault, Swallows)|)
      && (e.pending == 0 <==> forall i :: 0 <= i < |order| ==> fault(order[i].node) == Healthy)
    ensures !hung ==> forall x :: Visited(e.log, x) <==> x in PrunedReach(children, rank, fault, roots) && Logged(fault(x))
    ensures healthy ==> e.log == full && e.pending == 0
  {
    if !hung {
      EmptyAppend(taken);
    }
    if healthy {
      EmptyAppend(e.log);
    }
    TraverseEnds(order, PrunedReach(children, rank, fault, roots), fault, taken, e.log, e.pending, hung);
  }

  /** What the traversal's final state says about the whole run. */
  lemma TraverseEnds<N>(order: seq<Item<N>>, reach: seq<N>, fault: N -> Fault, taken: seq<Item<N>>,
                        log: seq<Item<N>>, pending: int, hung: bool)
    requires multiset(Nodes(order)) == multiset(reach)
    requires !hung ==> taken == order && pending == |Where(taken, fault, Swallows)|
    requires hung ==> taken <= order && taken != [] && Escapes(fault(taken[|taken| - 1].node)) && pending >= 1
    requires forall i :: 0 <= i < |taken| - (if hung then 1 else 0) ==> !Escapes(fault(taken[i].node))
    requires log == Where(taken, fault, Logged)
    ensures hung <==> exists i :: 0 <= i < |order| && Escapes(fault(order[i].node))
    ensures hung ==> log <= Where(order, fault, Logged)
    ensures hung ==> exists k :: StopsAt(order, fault, k) && log == Where(order[..k + 1], fault, Logged)
    ensures pending == 0 <==> forall i :: 0 <= i < |order| ==> fault(order[i].node) == Healthy
    ensures !hung ==> forall x :: Visited(log, x) <==> x in reach && Logged(fault(x))
  {
    if !hung {
      VisitsCover(order, reach, fault, log);
    } else {
      WherePrefix(taken, order, fault, Logged);
      assert order[|taken| - 1] == taken[|taken| - 1];
      assert taken == order[..|taken|];
      assert StopsAt(order, fault, |taken| - 1);
    }
    JoinIff(order, fault, hung, pending);
  }

  /** The pending count ends at zero exactly when no node of the order failed. */
  lemma JoinIff<N>(order: seq<Item<N>>, fault: N -> Fault, hung: bool, pending: int)
    requires hung <==> exists i :: 0 <= i < |order| && Escapes(fault(order[i].node))
    requires hung ==> pending >= 1
    requires !hung ==> pending == |Where(order, fault, Swallows)|
    ensures pending == 0 <==> forall i :: 0 <= i < |order| ==> fault(order[i].node) == Healthy
  {
    if pending == 0 {
      forall i | 0 <= i < |order| ensures fault(order[i].node) == Healthy {
        if Swallows(fault(order[i].node)) {
          WhereHas(order, fault, Swallows, i);
        }
      }
    }
    if forall i :: 0 <= i < |order| ==> fault(order[i].node) == Healthy {
      assert Where(order, fault, Swallows) == [];
    }
  }

  /**
   One pass of the unguarded loop body seen against the pruned order: the
   head is taken; it is logged when its visit returned and counted as lost
   when its `Empty` was swallowed; unless an exception escaped, the rest of
   the order is the FIFO order from the new queue.
   */
  lemma PrunedStep<N(!new)>(e: Engine<N>, children: N -> seq<N>, rank: N -> nat, fault: N -> Fault,
                            taken: seq<Item<N>>, order: seq<Item<N>>)
    requires Ranked(children, rank) && e.inFlight.None? && e.queue != []
    requires taken + Bfs(Pruned(children, fault), rank, e.queue) == order
    requires e.log == Where(taken, fault, Logged)
    requires Lost(e) == |Where(taken, fault, Swallows)|
    ensures Ranked(Pruned(children, fault), rank)
    ensures var o := Process(e, children, fault);
      var taken' := taken + [e.queue[0]];
      && taken' <= order
      && o.e.log == Where(taken', fault, Logged)
      && Lost(o.e) == |Where(taken', fault, Swallows)|
      && (o.Raised? <==> Escapes(fault(e.queue[0].node)))
      && (o.Raised? ==> o.e.inFlight.Some?)
      && (!o.Raised? ==>
            && o.e.inFlight.None?
            && taken' + Bfs(Pruned(children, fault), rank, o.e.queue) == order
            && |Reach(Pruned(children, fault), rank, Nodes(o.e.queue))| < |Reach(Pruned(children, fault), rank, Nodes(e.queue))|)
  {
    var pruned := Pruned(children, fault);
    PrunedRanked(children, rank, fault);
    var it := e.queue[0];
    var o := Process(e, children, fault);
    assert pruned(it.node) == Yielded(children, fault, it.node);
    BfsStep(pruned, rank, taken, e.queue, order);
    WhereSnoc(taken, it, fault, Logged);
    WhereSnoc(taken, it, fault, Swallows);
    PrefixOf(taken + [it], Bfs(pruned, rank, o.e.queue));
  }

  /** While every node of the full level order is healthy, each pass takes the next item of that order. */
  lemma HealthyStep<N(!new)>(e: Engine<N>, children: N -> seq<N>, rank: N -> nat, fault: N -> Fault, full: seq<Item<N>>)
    requires Ranked(children, rank) && e.inFlight.None? && e.queue != []
    requires e.log + Bfs(children, rank, e.queue) == full
    requires forall i :: 0 <= i < |full| ==> fault(full[i].node) == Healthy
    ensures var o := Process(e, children, fault);
      && o.Processed?
      && o.e.log + Bfs(children, rank, o.e.queue) == full
  {
    BfsStep(children, rank, e.log, e.queue, full);
  }

  lemma SnocAppend<T>(a: seq<T>, x: T, r: seq<T>)
    ensures a + ([x] + r) == a + [x] + r
  {
  }

  lemma PrefixOf<T>(a: seq<T>, r: seq<T>)
    ensures a <= a + r && |a| <= |a + r| && (forall i :: 0 <= i < |a| ==> (a + r)[i] == a[i])
  {
  }
}
