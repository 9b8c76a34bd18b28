/**
 The event-driven tree of `aws_org_tree/aws_org_tree.py`: a crawler
 reports (child, parent) edges one at a time and `add_edge` grows an
 `anytree` tree from them; `write_tree` prints one line per node, the
 resource rendered through a template whose missing fields fall back to
 their own names.
 */
module EdgeTree {
  import opened Options
  import opened Template

  /** An organisation resource as the crawler reports it: its id and its fields. */
  datatype Resource = Resource(id: string, fields: map<string, string>)

  /** An `anytree.Node` named by a resource id and carrying the resource. */
  datatype Node = Node(name: string, resource: Resource, children: seq<Node>)

  /** The node `Node(name=r.id, resource=r)` as first created, with no children. */
  function Leaf(r: Resource): (n: Node)
  {
    Node(r.id, r, [])
  }

  function Size(t: Node): (n: nat)
    ensures n >= 1
    decreases t, 1
  {
    1 + SizeAll(t.children)
  }

  function SizeAll(ts: seq<Node>): (n: nat)
    decreases ts, 0
  {
    if ts == [] then 0 else Size(ts[0]) + SizeAll(ts[1..])
  }

  /** The node names in pre-order, the order `find_by_attr` searches. */
  function Labels(t: Node): (ls: seq<string>)
    ensures |ls| == Size(t)
    decreases t, 1
  {
    [t.name] + LabelsAll(t.children)
  }

  function LabelsAll(ts: seq<Node>): (ls: seq<string>)
    ensures |ls| == SizeAll(ts)
    decreases ts, 0
  {
    if ts == [] then [] else Labels(ts[0]) + LabelsAll(ts[1..])
  }

  /** Every parent-to-child link of the tree, as a pair of names. */
  function Edges(t: Node): (r: seq<(string, string)>)
    ensures |r| == Size(t) - 1
    decreases t, 1
  {
    EdgesAll(t.name, t.children)
  }

  function EdgesAll(p: string, ts: seq<Node>): (r: seq<(string, string)>)
    ensures |r| == SizeAll(ts)
    decreases ts, 0
  {
    if ts == [] then [] else [(p, ts[0].name)] + Edges(ts[0]) + EdgesAll(p, ts[1..])
  }

  /** The resources in pre-order, the order `RenderTree` walks. */
  function Resources(t: Node): (rs: seq<Resource>)
    ensures |rs| == Size(t) && rs[0] == t.resource
    decreases t, 1
  {
    [t.resource] + ResourcesAll(t.children)
  }

  function ResourcesAll(ts: seq<Node>): (rs: seq<Resource>)
    ensures |rs| == SizeAll(ts)
    decreases ts, 0
  {
    if ts == [] then [] else Resources(ts[0]) + ResourcesAll(ts[1..])
  }

  /** Each node's name paired with the resource it carries, in pre-order. */
  function Carried(t: Node): (ps: seq<(string, Resource)>)
    ensures |ps| == Size(t) && ps[0] == (t.name, t.resource)
    decreases t, 1
  {
    [(t.name, t.resource)] + CarriedAll(t.children)
  }

  function CarriedAll(ts: seq<Node>): (ps: seq<(string, Resource)>)
    ensures |ps| == SizeAll(ts)
    decreases ts, 0
  {
    if ts == [] then [] else Carried(ts[0]) + CarriedAll(ts[1..])
  }

  /** Appending a child to a node adds exactly one link, from that node to the child. */
  lemma {:induction false} EdgesSnoc(p: string, ts: seq<Node>, c: Node)
    requires c.children == []
    ensures EdgesAll(p, ts + [c]) == EdgesAll(p, ts) + [(p, c.name)]
    decreases |ts|
  {
    if ts == [] {
      assert ts + [c] == [c];
      assert [c][1..] == [];
      assert Edges(c) == [];
    } else {
      assert (ts + [c])[1..] == ts[1..] + [c];
      EdgesSnoc(p, ts[1..], c);
    }
  }

  lemma {:induction false} LabelsSnoc(ts: seq<Node>, c: Node)
    requires c.children == []
    ensures LabelsAll(ts + [c]) == LabelsAll(ts) + [c.name]
    ensures SizeAll(ts + [c]) == SizeAll(ts) + 1
    decreases |ts|
  {
    if ts == [] {
      assert ts + [c] == [c];
      assert [c][1..] == [];
    } else {
      assert (ts + [c])[1..] == ts[1..] + [c];
      LabelsSnoc(ts[1..], c);
    }
  }

  lemma {:induction false} ResourcesSnoc(ts: seq<Node>, c: Node)
    requires c.children == []
    ensures ResourcesAll(ts + [c]) == ResourcesAll(ts) + [c.resource]
    decreases |ts|
  {
    if ts == [] {
      assert ts + [c] == [c];
      assert [c][1..] == [];
    } else {
      assert (ts + [c])[1..] == ts[1..] + [c];
      ResourcesSnoc(ts[1..], c);
    }
  }

  lemma {:induction false} CarriedSnoc(ts: seq<Node>, c: Node)
    requires c.children == []
    ensures CarriedAll(ts + [c]) == CarriedAll(ts) + [(c.name, c.resource)]
    decreases |ts|
  {
    if ts == [] {
      assert ts + [c] == [c];
      assert [c][1..] == [];
    } else {
      assert (ts + [c])[1..] == ts[1..] + [c];
      CarriedSnoc(ts[1..], c);
    }
  }

  /**
   Attaching `r` as the last child of the first node, in pre-order, named
   `pid` — what `Node(name=r.id, parent=find_by_attr(tree, pid), resource=r)`
   does to the tree. `None` when no node has that name.
   */
  function Attach(t: Node, pid: string, r: Resource): (o: Option<Node>)
    ensures o.Some? <==> pid in Labels(t)
    ensures o.Some? ==> o.value.name == t.name && o.value.resource == t.resource
    decreases t, 1
  {
    if t.name == pid then Some(t.(children := t.children + [Leaf(r)]))
    else
      match AttachFirst(t.children, pid, r)
      case None => None
      case Some(cs) => Some(t.(children := cs))
  }

  /** `Attach` into the first tree of `ts` that has a node named `pid`. */
  function AttachFirst(ts: seq<Node>, pid: string, r: Resource): (o: Option<seq<Node>>)
    ensures o.Some? <==> pid in LabelsAll(ts)
    decreases ts, 0
  {
    if ts == [] then None
    else
      ConsUnfold("", ts[0], ts[1..]);
      match Attach(ts[0], pid, r)
      case Some(t) => Some([t] + ts[1..])
      case None =>
        match AttachFirst(ts[1..], pid, r)
        case None => None
        case Some(rest) => Some([ts[0]] + rest)
  }

  lemma {:induction false} ConsUnfold(p: string, x: Node, rest: seq<Node>)
    ensures SizeAll([x] + rest) == Size(x) + SizeAll(rest)
    ensures LabelsAll([x] + rest) == Labels(x) + LabelsAll(rest)
    ensures EdgesAll(p, [x] + rest) == [(p, x.name)] + Edges(x) + EdgesAll(p, rest)
  {
    assert ([x] + rest)[1..] == rest;
  }

  lemma {:induction false} LabelsCons(x: Node, rest: seq<Node>)
    ensures multiset(LabelsAll([x] + rest)) == multiset(Labels(x)) + multiset(LabelsAll(rest))
  {
    assert ([x] + rest)[1..] == rest;
  }

  lemma {:induction false} ResourcesCons(x: Node, rest: seq<Node>)
    ensures multiset(ResourcesAll([x] + rest)) == multiset(Resources(x)) + multiset(ResourcesAll(rest))
  {
    assert ([x] + rest)[1..] == rest;
  }

  lemma {:induction false} CarriedCons(x: Node, rest: seq<Node>)
    ensures multiset(CarriedAll([x] + rest)) == multiset(Carried(x)) + multiset(CarriedAll(rest))
  {
    assert ([x] + rest)[1..] == rest;
  }

  lemma {:induction false} EdgesCons(p: string, x: Node, rest: seq<Node>)
    ensures multiset(EdgesAll(p, [x] + rest)) == multiset{(p, x.name)} + multiset(Edges(x)) + multiset(EdgesAll(p, rest))
  {
    assert ([x] + rest)[1..] == rest;
  }

  /**
   Attaching adds exactly one node, named by the resource's id and
   carrying the resource, and exactly one link, from the matched node to
   it; every other node keeps its name paired with its resource. In
   pre-order the new node comes right after the whole subtree of the
   first node named `pid`, as that node's last child, and no other node
   moves.
   */
  lemma AttachGrows(t: Node, pid: string, r: Resource)
    requires pid in Labels(t)
    ensures multiset(Labels(Attach(t, pid, r).value)) == multiset(Labels(t)) + multiset{r.id}
    ensures multiset(Resources(Attach(t, pid, r).value)) == multiset(Resources(t)) + multiset{r}
    ensures multiset(Edges(Attach(t, pid, r).value)) == multiset(Edges(t)) + multiset{(pid, r.id)}
    ensures multiset(Carried(Attach(t, pid, r).value)) == multiset(Carried(t)) + multiset{(r.id, r)}
    ensures var k := InsertionPoint(t, pid);
      Carried(Attach(t, pid, r).value) == Carried(t)[..k] + [(r.id, r)] + Carried(t)[k..]
  {
    AttachLinks(t, pid, r);
    AttachCarries(t, pid, r);
    AttachPairs(t, pid, r);
    AttachInserts(t, pid, r);
  }

  /** The names and links of `AttachGrows`, by induction over the tree. */
  lemma {:induction false} AttachLinks(t: Node, pid: string, r: Resource)
    requires pid in Labels(t)
    ensures multiset(Labels(Attach(t, pid, r).value)) == multiset(Labels(t)) + multiset{r.id}
    ensures multiset(Edges(Attach(t, pid, r).value)) == multiset(Edges(t)) + multiset{(pid, r.id)}
    decreases t, 1
  {
    if t.name == pid {
      assert Attach(t, pid, r).value.children == t.children + [Leaf(r)];
      LabelsSnoc(t.children, Leaf(r));
      EdgesSnoc(t.name, t.children, Leaf(r));
    } else {
      assert Attach(t, pid, r).value.children == AttachFirst(t.children, pid, r).value;
      AttachFirstGrows(t.name, t.children, pid, r);
    }
  }

  lemma {:induction false} AttachFirstGrows(p: string, ts: seq<Node>, pid: string, r: Resource)
    requires pid in LabelsAll(ts)
    ensures multiset(LabelsAll(AttachFirst(ts, pid, r).value)) == multiset(LabelsAll(ts)) + multiset{r.id}
    ensures multiset(EdgesAll(p, AttachFirst(ts, pid, r).value)) == multiset(EdgesAll(p, ts)) + multiset{(pid, r.id)}
    decreases ts, 1
  {
    if pid in Labels(ts[0]) {
      AttachHeadGrows(p, ts, pid, r);
    } else {
      AttachTailGrows(p, ts, pid, r);
    }
  }

  lemma {:induction false} AttachHeadGrows(p: string, ts: seq<Node>, pid: string, r: Resource)
    requires ts != [] && pid in Labels(ts[0])
    ensures multiset(LabelsAll(AttachFirst(ts, pid, r).value)) == multiset(LabelsAll(ts)) + multiset{r.id}
    ensures multiset(EdgesAll(p, AttachFirst(ts, pid, r).value)) == multiset(EdgesAll(p, ts)) + multiset{(pid, r.id)}
    decreases ts, 0
  {
    assert [ts[0]] + ts[1..] == ts;
    var t := Attach(ts[0], pid, r).value;
    assert AttachFirst(ts, pid, r).value == [t] + ts[1..];
    AttachLinks(ts[0], pid, r);
    LabelsGrow(ts[0], ts[1..], t, ts[1..], r.id);
    EdgesGrow(p, ts[0], ts[1..], t, ts[1..], (pid, r.id));
  }

  lemma {:induction false} AttachTailGrows(p: string, ts: seq<Node>, pid: string, r: Resource)
    requires ts != [] && pid !in Labels(ts[0]) && pid in LabelsAll(ts)
    ensures multiset(LabelsAll(AttachFirst(ts, pid, r).value)) == multiset(LabelsAll(ts)) + multiset{r.id}
    ensures multiset(EdgesAll(p, AttachFirst(ts, pid, r).value)) == multiset(EdgesAll(p, ts)) + multiset{(pid, r.id)}
    decreases ts, 0
  {
    assert [ts[0]] + ts[1..] == ts;
    var rest := AttachFirst(ts[1..], pid, r).value;
    assert AttachFirst(ts, pid, r).value == [ts[0]] + rest;
    AttachFirstGrows(p, ts[1..], pid, r);
    LabelsGrow(ts[0], ts[1..], ts[0], rest, r.id);
    EdgesGrow(p, ts[0], ts[1..], ts[0], rest, (pid, r.id));
  }

  /** The resources change only by the one the new node carries. */
  lemma {:induction false} AttachCarries(t: Node, pid: string, r: Resource)
    requires pid in Labels(t)
    ensures multiset(Resources(Attach(t, pid, r).value)) == multiset(Resources(t)) + multiset{r}
    decreases t, 1
  {
    if t.name == pid {
      assert Attach(t, pid, r).value.children == t.children + [Leaf(r)];
      ResourcesSnoc(t.children, Leaf(r));
    } else {
      assert Attach(t, pid, r).value.children == AttachFirst(t.children, pid, r).value;
      AttachFirstCarries(t.children, pid, r);
    }
  }

  lemma {:induction false} AttachFirstCarries(ts: seq<Node>, pid: string, r: Resource)
    requires pid in LabelsAll(ts)
    ensures multiset(ResourcesAll(AttachFirst(ts, pid, r).value)) == multiset(ResourcesAll(ts)) + multiset{r}
    decreases ts, 0
  {
    assert [ts[0]] + ts[1..] == ts;
    ConsUnfold("", ts[0], ts[1..]);
    if pid in Labels(ts[0]) {
      var t := Attach(ts[0], pid, r).value;
      assert AttachFirst(ts, pid, r).value == [t] + ts[1..];
      AttachCarries(ts[0], pid, r);
      ResourcesGrow(ts[0], ts[1..], t, ts[1..], r);
    } else {
      var rest := AttachFirst(ts[1..], pid, r).value;
      assert AttachFirst(ts, pid, r).value == [ts[0]] + rest;
      AttachFirstCarries(ts[1..], pid, r);
      ResourcesGrow(ts[0], ts[1..], ts[0], rest, r);
    }
  }

  /** Every node keeps its name paired with its resource; the new pair is the resource's id with the resource. */
  lemma {:induction false} AttachPairs(t: Node, pid: string, r: Resource)
    requires pid in Labels(t)
    ensures multiset(Carried(Attach(t, pid, r).value)) == multiset(Carried(t)) + multiset{(r.id, r)}
    decreases t, 1
  {
    if t.name == pid {
      assert Attach(t, pid, r).value.children == t.children + [Leaf(r)];
      CarriedSnoc(t.children, Leaf(r));
    } else {
      assert Attach(t, pid, r).value.children == AttachFirst(t.children, pid, r).value;
      AttachFirstPairs(t.children, pid, r);
    }
  }

  lemma {:induction false} AttachFirstPairs(ts: seq<Node>, pid: string, r: Resource)
    requires pid in LabelsAll(ts)
    ensures multiset(CarriedAll(AttachFirst(ts, pid, r).value)) == multiset(CarriedAll(ts)) + multiset{(r.id, r)}
    decreases ts, 0
  {
    assert [ts[0]] + ts[1..] == ts;
    ConsUnfold("", ts[0], ts[1..]);
    if pid in Labels(ts[0]) {
      var t := Attach(ts[0], pid, r).value;
      assert AttachFirst(ts, pid, r).value == [t] + ts[1..];
      AttachPairs(ts[0], pid, r);
      CarriedGrow(ts[0], ts[1..], t, ts[1..], (r.id, r));
    } else {
      var rest := AttachFirst(ts[1..], pid, r).value;
      assert AttachFirst(ts, pid, r).value == [ts[0]] + rest;
      AttachFirstPairs(ts[1..], pid, r);
      CarriedGrow(ts[0], ts[1..], ts[0], rest, (r.id, r));
    }
  }

  /** A forest gains one pair when its first tree and the rest together gain it. */
  lemma {:induction false} CarriedGrow(x: Node, rest: seq<Node>, x': Node, rest': seq<Node>, pr: (string, Resource))
    requires multiset(Carried(x')) + multiset(CarriedAll(rest')) == multiset(Carried(x)) + multiset(CarriedAll(rest)) + multiset{pr}
    ensures multiset(CarriedAll([x'] + rest')) == multiset(CarriedAll([x] + rest)) + multiset{pr}
  {
    CarriedCons(x, rest);
    CarriedCons(x', rest');
  }

  /** A forest gains one name when its first tree and the rest together gain it. */
  lemma {:induction false} LabelsGrow(x: Node, rest: seq<Node>, x': Node, rest': seq<Node>, id: string)
    requires multiset(Labels(x')) + multiset(LabelsAll(rest')) == multiset(Labels(x)) + multiset(LabelsAll(rest)) + multiset{id}
    ensures multiset(LabelsAll([x'] + rest')) == multiset(LabelsAll([x] + rest)) + multiset{id}
  {
    LabelsCons(x, rest);
    LabelsCons(x', rest');
  }

  /** A forest gains one resource when its first tree and the rest together gain it. */
  lemma {:induction false} ResourcesGrow(x: Node, rest: seq<Node>, x': Node, rest': seq<Node>, res: Resource)
    requires multiset(Resources(x')) + multiset(ResourcesAll(rest')) == multiset(Resources(x)) + multiset(ResourcesAll(rest)) + multiset{res}
    ensures multiset(ResourcesAll([x'] + rest')) == multiset(ResourcesAll([x] + rest)) + multiset{res}
  {
    ResourcesCons(x, rest);
    ResourcesCons(x', rest');
  }

  /** A forest under `p` gains one link when its first tree and the rest together gain it. */
  lemma {:induction false} EdgesGrow(p: string, x: Node, rest: seq<Node>, x': Node, rest': seq<Node>, e: (string, string))
    requires x'.name == x.name
    requires multiset(Edges(x')) + multiset(EdgesAll(p, rest')) == multiset(Edges(x)) + multiset(EdgesAll(p, rest)) + multiset{e}
    ensures multiset(EdgesAll(p, [x'] + rest')) == multiset(EdgesAll(p, [x] + rest)) + multiset{e}
  {
    EdgesCons(p, x, rest);
    EdgesCons(p, x', rest');
    var link := multiset{(p, x.name)};
    assert multiset{(p, x'.name)} == link;
    Regroup3(link, multiset(Edges(x')), multiset(EdgesAll(p, rest')));
    Regroup3(link, multiset(Edges(x)), multiset(EdgesAll(p, rest)));
  }

  lemma Regroup3<T>(a: multiset<T>, b: multiset<T>, c: multiset<T>)
    ensures a + b + c == a + (b + c)
  {
  }

  // ---------------------------------------------------------------------
  // Where the new node lands in pre-order
  // ---------------------------------------------------------------------

  /** The first index of `x` in `s`: where a pre-order search such as `find_by_attr` stops. */
  function FirstAt(s: seq<string>, x: string): (j: nat)
    requires x in s
    ensures j < |s| && s[j] == x
  {
    if s[0] == x then 0 else 1 + FirstAt(s[1..], x)
  }

  /** No earlier entry of `s` is `x`. */
  lemma {:induction false} FirstAtIsFirst(s: seq<string>, x: string)
    requires x in s
    ensures forall i :: 0 <= i < FirstAt(s, x) ==> s[i] != x
    decreases |s|
  {
    if s[0] != x {
      FirstAtIsFirst(s[1..], x);
    }
  }

  /** The subtree under each node, in pre-order: entry `i` is rooted at the node named `Labels(t)[i]`. */
  function Subtrees(t: Node): (ns: seq<Node>)
    ensures |ns| == Size(t) && ns[0] == t
    decreases t, 1
  {
    [t] + SubtreesAll(t.children)
  }

  function SubtreesAll(ts: seq<Node>): (ns: seq<Node>)
    ensures |ns| == SizeAll(ts)
    decreases ts, 0
  {
    if ts == [] then [] else Subtrees(ts[0]) + SubtreesAll(ts[1..])
  }

  /**
   In a pre-order listing with names `names` and subtrees `subs`, the
   position just past the whole subtree of the first node named `pid`.
   */
  function PointIn(names: seq<string>, subs: seq<Node>, pid: string): (k: nat)
    requires pid in names && |subs| == |names|
    ensures FirstAt(names, pid) < k
  {
    var j := FirstAt(names, pid);
    j + Size(subs[j])
  }

  /**
   The pre-order position a child attached under the first node named
   `pid` takes: that node's index plus the size of its subtree, since the
   new node becomes its last child.
   */
  function InsertionPoint(t: Node, pid: string): (k: nat)
    requires pid in Labels(t)
    ensures Subtrees(t)[FirstAt(Labels(t), pid)].name == pid
    ensures FirstAt(Labels(t), pid) < k <= Size(t)
  {
    var j := FirstAt(Labels(t), pid);
    SubtreeNamed(t, j);
    SubtreeWithin(t, j);
    PointIn(Labels(t), Subtrees(t), pid)
  }

  /** `InsertionPoint` over a forest, its trees laid out one after another. */
  function InsertionPointAll(ts: seq<Node>, pid: string): (k: nat)
    requires pid in LabelsAll(ts)
    ensures FirstAt(LabelsAll(ts), pid) < k <= SizeAll(ts)
  {
    SubtreesAllWithin(ts, FirstAt(LabelsAll(ts), pid));
    PointIn(LabelsAll(ts), SubtreesAll(ts), pid)
  }

  /** A listing whose first part has a node named `pid` puts the new node where that part does. */
  lemma PointInFront(la: seq<string>, lb: seq<string>, sa: seq<Node>, sb: seq<Node>, pid: string)
    requires |sa| == |la| && |sb| == |lb| && pid in la
    ensures PointIn(la + lb, sa + sb, pid) == PointIn(la, sa, pid)
  {
    FirstAtAppend(la, lb, pid);
    assert (sa + sb)[FirstAt(la, pid)] == sa[FirstAt(la, pid)];
  }

  /** Otherwise it puts it where the second part does, shifted past the first. */
  lemma PointInBack(la: seq<string>, lb: seq<string>, sa: seq<Node>, sb: seq<Node>, pid: string)
    requires |sa| == |la| && |sb| == |lb| && pid !in la && pid in lb
    ensures PointIn(la + lb, sa + sb, pid) == |la| + PointIn(lb, sb, pid)
  {
    FirstAtAppend(la, lb, pid);
    assert (sa + sb)[|sa| + FirstAt(lb, pid)] == sb[FirstAt(lb, pid)];
  }

  lemma FirstAtAppend(a: seq<string>, b: seq<string>, x: string)
    requires x in a + b
    ensures x in a ==> FirstAt(a + b, x) == FirstAt(a, x)
    ensures x !in a ==> x in b && FirstAt(a + b, x) == |a| + FirstAt(b, x)
  {
    var j := FirstAt(a + b, x);
    FirstAtIsFirst(a + b, x);
    assert forall i :: 0 <= i < |a| ==> (a + b)[i] == a[i];
    if x in a {
      var ja := FirstAt(a, x);
      FirstAtIsFirst(a, x);
      assert (a + b)[ja] == x;
      assert a[j] == (a + b)[j];
    } else {
      assert (a + b)[j] == b[j - |a|];
      var jb := FirstAt(b, x);
      FirstAtIsFirst(b, x);
      assert (a + b)[|a| + jb] == x;
    }
  }

  lemma {:induction false} SubtreeNamed(t: Node, i: nat)
    requires i < Size(t)
    ensures Subtrees(t)[i].name == Labels(t)[i]
    decreases t, 1
  {
    if i > 0 {
      SubtreesAllNamed(t.children, i - 1);
    }
  }

  lemma {:induction false} SubtreesAllNamed(ts: seq<Node>, i: nat)
    requires i < SizeAll(ts)
    ensures SubtreesAll(ts)[i].name == LabelsAll(ts)[i]
    decreases ts, 0
  {
    if i < Size(ts[0]) {
      SubtreeNamed(ts[0], i);
    } else {
      SubtreesAllNamed(ts[1..], i - Size(ts[0]));
    }
  }

  lemma {:induction false} SubtreeWithin(t: Node, i: nat)
    requires i < Size(t)
    ensures i + Size(Subtrees(t)[i]) <= Size(t)
    decreases t, 1
  {
    if i > 0 {
      SubtreesAllWithin(t.children, i - 1);
    }
  }

  lemma {:induction false} SubtreesAllWithin(ts: seq<Node>, i: nat)
    requires i < SizeAll(ts)
    ensures i + Size(SubtreesAll(ts)[i]) <= SizeAll(ts)
    decreases ts, 0
  {
    if i < Size(ts[0]) {
      SubtreeWithin(ts[0], i);
    } else {
      SubtreesAllWithin(ts[1..], i - Size(ts[0]));
    }
  }

  /** A node not named `pid` puts the new node one place after where its children's forest does. */
  lemma PointBelow(t: Node, pid: string)
    requires t.name != pid && pid in Labels(t)
    ensures pid in LabelsAll(t.children)
    ensures InsertionPoint(t, pid) == 1 + InsertionPointAll(t.children, pid)
  {
    PointInBack([t.name], LabelsAll(t.children), [t], SubtreesAll(t.children), pid);
  }

  /** A forest whose first tree has a node named `pid` puts the new node where that tree does. */
  lemma PointHead(ts: seq<Node>, pid: string)
    requires ts != [] && pid in Labels(ts[0])
    ensures pid in LabelsAll(ts) && InsertionPointAll(ts, pid) == InsertionPoint(ts[0], pid)
  {
    PointInFront(Labels(ts[0]), LabelsAll(ts[1..]), Subtrees(ts[0]), SubtreesAll(ts[1..]), pid);
  }

  /** Otherwise it puts it where the rest does, shifted past the first tree. */
  lemma PointTail(ts: seq<Node>, pid: string)
    requires ts != [] && pid !in Labels(ts[0]) && pid in LabelsAll(ts)
    ensures pid in LabelsAll(ts[1..])
    ensures InsertionPointAll(ts, pid) == Size(ts[0]) + InsertionPointAll(ts[1..], pid)
  {
    PointInBack(Labels(ts[0]), LabelsAll(ts[1..]), Subtrees(ts[0]), SubtreesAll(ts[1..]), pid);
  }

  /** Splicing `x` into the front part of `a + b`. */
  lemma SpliceFront<T>(a: seq<T>, b: seq<T>, k: nat, x: T)
    requires k <= |a|
    ensures (a[..k] + [x] + a[k..]) + b == (a + b)[..k] + [x] + (a + b)[k..]
  {
    assert (a + b)[..k] == a[..k];
    assert (a + b)[k..] == a[k..] + b;
  }

  /** Splicing `x` into the back part `b` of `whole == a + b` splices it into `whole`, `|a|` further on. */
  lemma SpliceBack<T>(whole: seq<T>, a: seq<T>, b: seq<T>, b': seq<T>, k: nat, x: T)
    requires whole == a + b && k <= |b| && b' == b[..k] + [x] + b[k..]
    ensures a + b' == whole[..|a| + k] + [x] + whole[|a| + k..]
  {
    assert (a + b)[..|a| + k] == a + b[..k];
    assert (a + b)[|a| + k..] == b[k..];
  }

  /**
   Attaching keeps the pre-order of the (name, resource) pairs and splices
   the new pair in right after the subtree of the first node named `pid`:
   the new node is that node's last child, and nothing else moves.
   */
  lemma {:induction false} AttachInserts(t: Node, pid: string, r: Resource)
    requires pid in Labels(t)
    ensures var k := InsertionPoint(t, pid);
      Carried(Attach(t, pid, r).value) == Carried(t)[..k] + [(r.id, r)] + Carried(t)[k..]
    decreases t, 1
  {
    if t.name == pid {
      InsertHere(t, pid, r);
    } else {
      PointBelow(t, pid);
      AttachFirstInserts(t.children, pid, r);
      InsertBelow(t, pid, r);
    }
  }

  lemma {:induction false} AttachFirstInserts(ts: seq<Node>, pid: string, r: Resource)
    requires pid in LabelsAll(ts)
    ensures var k := InsertionPointAll(ts, pid);
      CarriedAll(AttachFirst(ts, pid, r).value) == CarriedAll(ts)[..k] + [(r.id, r)] + CarriedAll(ts)[k..]
    decreases ts, 0
  {
    if pid in Labels(ts[0]) {
      AttachInserts(ts[0], pid, r);
      InsertHead(ts, pid, r);
    } else {
      PointTail(ts, pid);
      AttachFirstInserts(ts[1..], pid, r);
      InsertTail(ts, pid, r, InsertionPointAll(ts, pid), InsertionPointAll(ts[1..], pid));
    }
  }

  /** The node named `pid` itself: the new pair goes after its whole subtree. */
  lemma InsertHere(t: Node, pid: string, r: Resource)
    requires t.name == pid
    ensures var k := InsertionPoint(t, pid);
      Carried(Attach(t, pid, r).value) == Carried(t)[..k] + [(r.id, r)] + Carried(t)[k..]
  {
    assert Attach(t, pid, r).value.children == t.children + [Leaf(r)];
    CarriedSnoc(t.children, Leaf(r));
    assert Labels(t)[0] == pid;
    assert InsertionPoint(t, pid) == Size(t);
    assert Carried(t)[..Size(t)] == Carried(t) && Carried(t)[Size(t)..] == [];
  }

  /** Below a node not named `pid`: its children's splice, shifted past the node's own pair. */
  lemma InsertBelow(t: Node, pid: string, r: Resource)
    requires t.name != pid && pid in Labels(t) && pid in LabelsAll(t.children)
    requires InsertionPoint(t, pid) == 1 + InsertionPointAll(t.children, pid)
    requires var k := InsertionPointAll(t.children, pid);
      CarriedAll(AttachFirst(t.children, pid, r).value) == CarriedAll(t.children)[..k] + [(r.id, r)] + CarriedAll(t.children)[k..]
    ensures var k := InsertionPoint(t, pid);
      Carried(Attach(t, pid, r).value) == Carried(t)[..k] + [(r.id, r)] + Carried(t)[k..]
  {
    assert Attach(t, pid, r).value.children == AttachFirst(t.children, pid, r).value;
    var c0, cs := [(t.name, t.resource)], CarriedAll(t.children);
    SpliceBack(Carried(t), c0, cs, CarriedAll(AttachFirst(t.children, pid, r).value), InsertionPointAll(t.children, pid), (r.id, r));
  }

  /** In a forest whose first tree has a node named `pid`: that tree's splice, then the rest unchanged. */
  lemma InsertHead(ts: seq<Node>, pid: string, r: Resource)
    requires ts != [] && pid in Labels(ts[0])
    requires var k := InsertionPoint(ts[0], pid);
      Carried(Attach(ts[0], pid, r).value) == Carried(ts[0])[..k] + [(r.id, r)] + Carried(ts[0])[k..]
    ensures pid in LabelsAll(ts)
    ensures var k := InsertionPointAll(ts, pid);
      CarriedAll(AttachFirst(ts, pid, r).value) == CarriedAll(ts)[..k] + [(r.id, r)] + CarriedAll(ts)[k..]
  {
    PointHead(ts, pid);
    var t := Attach(ts[0], pid, r).value;
    assert AttachFirst(ts, pid, r).value == [t] + ts[1..];
    assert ([t] + ts[1..])[1..] == ts[1..];
    SpliceFront(Carried(ts[0]), CarriedAll(ts[1..]), InsertionPoint(ts[0], pid), (r.id, r));
  }

  /** Otherwise: the first tree unchanged, then the rest's splice. */
  lemma InsertTail(ts: seq<Node>, pid: string, r: Resource, k: nat, k': nat)
    requires ts != [] && pid !in Labels(ts[0]) && pid in LabelsAll(ts) && pid in LabelsAll(ts[1..])
    requires k == Size(ts[0]) + k' && k' <= SizeAll(ts[1..])
    requires CarriedAll(AttachFirst(ts[1..], pid, r).value) == CarriedAll(ts[1..])[..k'] + [(r.id, r)] + CarriedAll(ts[1..])[k'..]
    ensures CarriedAll(AttachFirst(ts, pid, r).value) == CarriedAll(ts)[..k] + [(r.id, r)] + CarriedAll(ts)[k..]
  {
    var rest := AttachFirst(ts[1..], pid, r).value;
    AttachPastHead(ts, pid, r);
    CarriedConcat(ts[0], rest);
    SpliceBack(CarriedAll(ts), Carried(ts[0]), CarriedAll(ts[1..]), CarriedAll(rest), k', (r.id, r));
  }

  /** When the first tree has no node named `pid`, attaching leaves it and goes on into the rest. */
  lemma AttachPastHead(ts: seq<Node>, pid: string, r: Resource)
    requires ts != [] && pid !in Labels(ts[0]) && pid in LabelsAll(ts[1..])
    ensures AttachFirst(ts, pid, r).value == [ts[0]] + AttachFirst(ts[1..], pid, r).value
  {
  }

  lemma CarriedConcat(x: Node, rest: seq<Node>)
    ensures CarriedAll([x] + rest) == Carried(x) + CarriedAll(rest)
  {
    assert ([x] + rest)[1..] == rest;
  }

  /** How many nodes carry the name `x`. */
  function Count(t: Node, x: string): (n: nat)
    ensures n > 0 <==> x in Labels(t)
  {
    multiset(Labels(t))[x]
  }

  /** What one `add_edge` leaves behind. */
  datatype Outcome =
    | Attached(tree: Node)    // the child hangs under its parent
    | Orphaned(tree: Node)    // no node has the parent's id: the child is created detached
    | Ambiguous               // several nodes have the parent's id: `find_by_attr` raises

  /**
   `AwsOrgTree.add_edge`. On an empty tree the parent becomes the root and
   the child its only child. Otherwise the parent is looked up by id; a
   unique match gets the child as its last child, no match leaves the tree
   as it was, and more than one match is the lookup's error.
   */
  function AddEdge(tree: Option<Node>, child: Resource, parent: Resource): (o: Outcome)
    ensures tree.None? ==> o == Attached(Node(parent.id, parent, [Leaf(child)]))
    ensures tree.Some? ==> (o.Ambiguous? <==> Count(tree.value, parent.id) > 1)
    ensures tree.Some? ==> (o.Orphaned? <==> Count(tree.value, parent.id) == 0)
    ensures tree.Some? && o.Orphaned? ==> o.tree == tree.value
    ensures tree.Some? && o.Attached? ==>
      && o.tree.name == tree.value.name && o.tree.resource == tree.value.resource
      && Size(o.tree) == Size(tree.value) + 1
      && multiset(Labels(o.tree)) == multiset(Labels(tree.value)) + multiset{child.id}
      && multiset(Resources(o.tree)) == multiset(Resources(tree.value)) + multiset{child}
      && multiset(Carried(o.tree)) == multiset(Carried(tree.value)) + multiset{(child.id, child)}
      && (var k := InsertionPoint(tree.value, parent.id);
          Carried(o.tree) == Carried(tree.value)[..k] + [(child.id, child)] + Carried(tree.value)[k..])
      && multiset(Edges(o.tree)) == multiset(Edges(tree.value)) + multiset{(parent.id, child.id)}
  {
    match tree
    case None => Attached(Node(parent.id, parent, [Leaf(child)]))
    case Some(t) =>
      if Count(t, parent.id) > 1 then Ambiguous
      else if Count(t, parent.id) == 0 then Orphaned(t)
      else
        AttachGrows(t, parent.id, child);
        var t' := Attach(t, parent.id, child).value;
        assert |multiset(Labels(t'))| == |multiset(Labels(t))| + 1;
        Attached(t')
  }

  /** The first `add_edge` creates two nodes, joined by the reported edge. */
  lemma FirstEdge(child: Resource, parent: Resource)
    ensures AddEdge(None, child, parent).tree.name == parent.id
    ensures Size(AddEdge(None, child, parent).tree) == 2
    ensures Edges(AddEdge(None, child, parent).tree) == [(parent.id, child.id)]
  {
    var t := AddEdge(None, child, parent).tree;
    assert t.children[1..] == [];
    assert SizeAll(t.children) == Size(Leaf(child));
    ConsUnfold(parent.id, Leaf(child), []);
    assert [Leaf(child)] + [] == [Leaf(child)];
    assert Edges(Leaf(child)) == [];
  }

  /**
   The edges of a crawl replayed through `add_edge`, starting from no tree;
   `None` once an edge meets an ambiguous parent.
   */
  function Replay(tree: Option<Node>, edges: seq<(Resource, Resource)>): (r: Option<Node>)
    ensures tree.Some? && r.Some? ==> r.value.name == tree.value.name && r.value.resource == tree.value.resource
    decreases |edges|
  {
    if edges == [] then tree
    else
      match AddEdge(tree, edges[0].0, edges[0].1)
      case Ambiguous => None
      case Attached(t) => Replay(Some(t), edges[1..])
      case Orphaned(t) => Replay(Some(t), edges[1..])
  }

  /**
   A crawl whose every edge names a parent already in the tree exactly
   once ends with one node per edge plus the root.
   */
  lemma {:induction false} ReplayGrows(t: Node, edges: seq<(Resource, Resource)>)
    requires Fresh(t, edges)
    ensures Replay(Some(t), edges).Some?
    ensures Size(Replay(Some(t), edges).value) == Size(t) + |edges|
    decreases |edges|
  {
    if edges != [] {
      var o := AddEdge(Some(t), edges[0].0, edges[0].1);
      assert o.Attached?;
      assert Fresh(o.tree, edges[1..]) by {
        FreshStep(t, o.tree, edges);
      }
      ReplayGrows(o.tree, edges[1..]);
    }
  }

  /**
   Replaying `edges` on `t` always finds each parent exactly once: it is
   in `t` once or is the child of an earlier edge, and no child id occurs
   anywhere before its edge.
   */
  ghost predicate Fresh(t: Node, edges: seq<(Resource, Resource)>) {
    forall i :: 0 <= i < |edges| ==>
      && Count(t, edges[i].0.id) == 0
      && (forall j :: 0 <= j < i ==> edges[j].0.id != edges[i].0.id)
      && (Count(t, edges[i].1.id) == 1 || exists j :: 0 <= j < i && edges[j].0.id == edges[i].1.id)
  }

  lemma FreshStep(t: Node, t': Node, edges: seq<(Resource, Resource)>)
    requires edges != [] && Fresh(t, edges)
    requires multiset(Labels(t')) == multiset(Labels(t)) + multiset{edges[0].0.id}
    ensures Fresh(t', edges[1..])
  {
    var rest := edges[1..];
    forall i | 0 <= i < |rest|
      ensures Count(t', rest[i].0.id) == 0
      ensures Count(t', rest[i].1.id) == 1 || exists j :: 0 <= j < i && rest[j].0.id == rest[i].1.id
    {
      assert rest[i] == edges[i + 1];
      assert edges[0].0.id != rest[i].0.id;
      if Count(t, rest[i].1.id) != 1 {
        var j :| 0 <= j < i + 1 && edges[j].0.id == rest[i].1.id;
        if j > 0 {
          assert rest[j - 1] == edges[j];
        }
      }
    }
    forall i, j | 0 <= j < i < |rest| ensures rest[j].0.id != rest[i].0.id {
      assert rest[i] == edges[i + 1] && rest[j] == edges[j + 1];
    }
  }

  /** One printed line: the node's depth (its `RenderTree` prefix) and its rendered name. */
  datatype Line = Line(depth: nat, text: string)

  /** The lines of `t` and its descendants, pre-order, `t` at depth `d`. */
  function Lines(t: Node, tpl: seq<Token>, d: nat): (ls: seq<Line>)
    ensures |ls| == |Resources(t)|
    ensures forall i :: 0 <= i < |ls| ==> ls[i].text == FormatDefault(tpl, Resources(t)[i].fields)
    ensures ls[0] == Line(d, FormatDefault(tpl, t.resource.fields))
    ensures forall i :: 1 <= i < |ls| ==> ls[i].depth > d
    decreases t, 1
  {
    [Line(d, FormatDefault(tpl, t.resource.fields))] + LinesAll(t.children, tpl, d + 1)
  }

  function LinesAll(ts: seq<Node>, tpl: seq<Token>, d: nat): (ls: seq<Line>)
    ensures |ls| == |ResourcesAll(ts)|
    ensures forall i :: 0 <= i < |ls| ==> ls[i].text == FormatDefault(tpl, ResourcesAll(ts)[i].fields)
    ensures forall i :: 0 <= i < |ls| ==> ls[i].depth >= d
    decreases ts, 0
  {
    if ts == [] then [] else Lines(ts[0], tpl, d) + LinesAll(ts[1..], tpl, d)
  }

  /**
   `write_tree`: one line per node of the tree, pre-order, each the
   node's resource through the template with `Default` fallback. With no
   tree at all `RenderTree` fails, which is `None`.
   */
  function WriteTree(tree: Option<Node>, tpl: seq<Token>): (r: Option<seq<Line>>)
    ensures r.Some? <==> tree.Some?
    ensures r.Some? ==> |r.value| == Size(tree.value)
    ensures r.Some? ==> forall i :: 0 <= i < |r.value| ==>
      r.value[i].text == FormatDefault(tpl, Resources(tree.value)[i].fields)
  {
    match tree
    case None => None
    case Some(t) =>
      Some(Lines(t, tpl, 0))
  }
}
