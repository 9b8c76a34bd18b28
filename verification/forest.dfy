/**
 The hierarchy behind every traversal in this model: an abstract children
 oracle together with a rank that strictly decreases from a node to each of
 its children. The rank is what makes the hierarchy finite and acyclic; the
 source's loops would run forever on a cycle.
 */
module Forest {

  /** Every child has a strictly smaller rank than its parent. */
  ghost predicate Ranked<N(!new)>(children: N -> seq<N>, rank: N -> nat) {
    forall n, c :: c in children(n) ==> rank(c) < rank(n)
  }

  /** One more than the largest rank in `ns`, or 0 when `ns` is empty. */
  function RankBound<N(!new)>(rank: N -> nat, ns: seq<N>): (b: nat)
    ensures forall i :: 0 <= i < |ns| ==> rank(ns[i]) < b
    ensures ns == [] ==> b == 0
  {
    if ns == [] then 0
    else
      var rest := RankBound(rank, ns[1..]);
      if rank(ns[0]) + 1 < rest then rest else rank(ns[0]) + 1
  }

  /** The children of `n` are all ranked below `n`. */
  lemma ChildrenBound<N(!new)>(children: N -> seq<N>, rank: N -> nat, n: N)
    requires Ranked(children, rank)
    ensures RankBound(rank, children(n)) <= rank(n)
  {
    var cs := children(n);
    assert forall i :: 0 <= i < |cs| ==> cs[i] in children(n);
    BoundBelow(rank, cs, rank(n));
  }

  /** A common upper bound on the ranks bounds `RankBound`. */
  lemma {:induction false} BoundBelow<N(!new)>(rank: N -> nat, ns: seq<N>, k: nat)
    requires forall i :: 0 <= i < |ns| ==> rank(ns[i]) < k
    ensures RankBound(rank, ns) <= k
  {
    if ns != [] {
      assert forall i :: 0 <= i < |ns[1..]| ==> ns[1..][i] == ns[i + 1];
      BoundBelow(rank, ns[1..], k);
    }
  }

  /**
   The pre-order unfolding of the forest under the nodes `ns`: each node,
   then everything below it, then the rest of `ns`. A node reachable along
   several paths occurs once per path.
   */
  function Reach<N(!new)>(children: N -> seq<N>, rank: N -> nat, ns: seq<N>): (r: seq<N>)
    requires Ranked(children, rank)
    ensures |ns| <= |r|
    ensures ns != [] ==> r[0] == ns[0]
    decreases RankBound(rank, ns), |ns|
  {
    if ns == [] then []
    else
      ChildrenBound(children, rank, ns[0]);
      [ns[0]] + Reach(children, rank, children(ns[0])) + Reach(children, rank, ns[1..])
  }

  /** Unfolding distributes over concatenation of the starting nodes. */
  lemma {:induction false} ReachAppend<N(!new)>(children: N -> seq<N>, rank: N -> nat, a: seq<N>, b: seq<N>)
    requires Ranked(children, rank)
    ensures Reach(children, rank, a + b) == Reach(children, rank, a) + Reach(children, rank, b)
    decreases |a|
  {
    if a != [] {
      assert (a + b)[0] == a[0];
      assert (a + b)[1..] == a[1..] + b;
      ReachAppend(children, rank, a[1..], b);
    } else {
      assert a + b == b;
    }
  }

  /**
   Taking the first node off a work list and appending its children removes
   exactly that node from the unfolding: this is the step of every worklist
   loop, and the reason its measure decreases.
   */
  lemma ReachStep<N(!new)>(children: N -> seq<N>, rank: N -> nat, q: seq<N>)
    requires Ranked(children, rank)
    requires q != []
    ensures var rest := Reach(children, rank, q[1..] + children(q[0]));
      && |Reach(children, rank, q)| == |rest| + 1
      && multiset(Reach(children, rank, q)) == multiset{q[0]} + multiset(rest)
  {
    ReachAppend(children, rank, q[1..], children(q[0]));
  }

  /** No element occurs twice. */
  predicate NoDup<T(==)>(s: seq<T>) {
    forall i, j :: 0 <= i < j < |s| ==> s[i] != s[j]
  }

  /** In a duplicate-free sequence each member occurs exactly once. */
  lemma {:induction false} NoDupCount<T>(s: seq<T>, x: T)
    requires NoDup(s)
    ensures multiset(s)[x] == (if x in s then 1 else 0)
  {
    if s != [] {
      assert s == [s[0]] + s[1..];
      assert NoDup(s[1..]) by {
        forall i, j | 0 <= i < j < |s[1..]| ensures s[1..][i] != s[1..][j] {
          assert s[1..][i] == s[i + 1] && s[1..][j] == s[j + 1];
        }
      }
      NoDupCount(s[1..], x);
      if s[0] == x {
        assert x !in s[1..] by {
          forall k | 0 <= k < |s[1..]| ensures s[1..][k] != x {
            assert s[1..][k] == s[k + 1];
          }
        }
      }
    }
  }
}
