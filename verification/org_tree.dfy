/**
 The recursive tree builder of `aws_org_tree.py` (`OrgTree`): the root is
 the first listed root tagged `ROOT`; each non-account node lists its
 accounts and then its organisational units through paginated listings,
 every record tagged with its `Type`, and is built depth-first; accounts
 are leaves. The paginated API is an `Org` value: the listed roots and,
 per parent id, the pages of accounts and of units.
 */
module OrgTree {
  import opened Options
  import opened Forest
  import opened Template
  import Traversal

  /** A property value of an organisation record. */
  datatype Value = Str(s: string) | Null

  /** An organisation record as the API returns it: a property dictionary. */
  type Record = map<string, Value>

  const Account := "ACCOUNT"
  const OrganizationalUnit := "ORGANIZATIONAL_UNIT"
  const Root := "ROOT"

  /** The record carries a string `Id`. */
  predicate HasId(r: Record) {
    "Id" in r && r["Id"].Str?
  }

  function IdOf(r: Record): (id: string)
    requires HasId(r)
  {
    r["Id"].s
  }

  /** `{**{"Type": t}, **record}`: the later spread wins, so a record's own `Type` survives. */
  function Tag(rec: Record, t: string): (r: Record)
    ensures r.Keys == rec.Keys + {"Type"}
    ensures r["Type"] == (if "Type" in rec then rec["Type"] else Str(t))
    ensures forall k :: k in rec && k != "Type" ==> r[k] == rec[k]
  {
    map["Type" := Str(t)] + rec
  }

  /** All records of all pages, page after page. */
  function Concat(pages: seq<seq<Record>>): (all: seq<Record>)
    ensures |all| == TotalLength(pages)
    decreases |pages|
  {
    if pages == [] then [] else pages[0] + Concat(pages[1..])
  }

  /** The sum of the page lengths. */
  function TotalLength(pages: seq<seq<Record>>): (n: nat)
    ensures forall i :: 0 <= i < |pages| ==> |pages[i]| <= n
    decreases |pages|
  {
    if pages == [] then 0 else |pages[0]| + TotalLength(pages[1..])
  }

  /**
   The comprehension `[{**{"Type": t}, **rec} for page in pages for rec in page]`.
   */
  function ListTagged(pages: seq<seq<Record>>, t: string): (r: seq<Record>)
    ensures |r| == TotalLength(pages)
    ensures forall i :: 0 <= i < |r| ==> r[i] == Tag(Concat(pages)[i], t)
    decreases |pages|
  {
    if pages == [] then []
    else
      var page := pages[0];
      seq(|page|, i requires 0 <= i < |page| => Tag(page[i], t)) + ListTagged(pages[1..], t)
  }

  /** How the listing is cut into pages does not matter. */
  lemma ListingIgnoresPaging(p: seq<seq<Record>>, q: seq<seq<Record>>, t: string)
    requires Concat(p) == Concat(q)
    ensures ListTagged(p, t) == ListTagged(q, t)
  {
  }

  /** Every listed record carries a `Type`. */
  lemma ListTaggedTyped(pages: seq<seq<Record>>, t: string)
    ensures forall r :: r in ListTagged(pages, t) ==> "Type" in r
  {
  }

  /**
   The organisation as the API shows it: the listed roots, and per parent
   id the pages of `list_accounts_for_parent` and of
   `list_organizational_units_for_parent`. `rank` orders ids so that every
   listed child ranks below its parent.
   */
  datatype Org = Org(
    roots: seq<Record>,
    accountPages: string -> seq<seq<Record>>,
    unitPages: string -> seq<seq<Record>>,
    rank: string -> nat)

  /** `_list_accounts_for_parent`. */
  function ListAccounts(org: Org, parentId: string): (r: seq<Record>)
    ensures |r| == TotalLength(org.accountPages(parentId))
    ensures forall i :: 0 <= i < |r| ==> r[i] == Tag(Concat(org.accountPages(parentId))[i], Account)
  {
    ListTagged(org.accountPages(parentId), Account)
  }

  /** `_list_organizational_units_for_parent`. */
  function ListUnits(org: Org, parentId: string): (r: seq<Record>)
    ensures |r| == TotalLength(org.unitPages(parentId))
    ensures forall i :: 0 <= i < |r| ==> r[i] == Tag(Concat(org.unitPages(parentId))[i], OrganizationalUnit)
  {
    ListTagged(org.unitPages(parentId), OrganizationalUnit)
  }

  /** `_get_children`: the listing for a child type; any other type gets `None`. */
  function GetChildren(org: Org, parentId: string, childType: string): (r: Option<seq<Record>>)
  {
    if childType == Account then Some(ListAccounts(org, parentId))
    else if childType == OrganizationalUnit then Some(ListUnits(org, parentId))
    else None
  }

  /** The children `_build_tree` builds under a non-account node: its accounts, then its units. */
  function ChildRecords(org: Org, parentId: string): (r: seq<Record>)
    ensures r == ListAccounts(org, parentId) + ListUnits(org, parentId)
  {
    GetChildren(org, parentId, Account).value + GetChildren(org, parentId, OrganizationalUnit).value
  }

  /** Every root and every listed child has a string `Id`, and children rank below their parent. */
  ghost predicate WellFormed(org: Org) {
    && (forall r :: r in org.roots ==> HasId(r))
    && (forall p, r :: r in ChildRecords(org, p) ==> HasId(r) && org.rank(IdOf(r)) < org.rank(p))
  }

  /**
   `_get_root`: the first listed root, with `Type` set to `ROOT` (an
   assignment, so it replaces any `Type` the record had). With no roots
   the source's indexing raises; that is `None` here.
   */
  function GetRoot(org: Org): (r: Option<Record>)
    ensures r.Some? <==> org.roots != []
    ensures r.Some? ==> r.value.Keys == org.roots[0].Keys + {"Type"} && r.value["Type"] == Str(Root)
    ensures r.Some? ==> forall k :: k in org.roots[0] && k != "Type" ==> r.value[k] == org.roots[0][k]
  {
    if org.roots == [] then None else Some(org.roots[0]["Type" := Str(Root)])
  }

  /** An `anytree.Node` named by a record's `Id` and carrying the record as `Properties`. */
  datatype OrgNode = OrgNode(name: string, props: Record, children: seq<OrgNode>)

  /** `_build_node`. */
  function BuildNode(thing: Record): (n: OrgNode)
    requires HasId(thing)
  {
    OrgNode(IdOf(thing), thing, [])
  }

  /**
   `_build_tree`: an `ACCOUNT` is a leaf and nothing is listed for it;
   any other node gets its accounts and then its units as children, each
   built the same way with this node as parent.
   */
  function BuildTree(org: Org, thing: Record): (t: OrgNode)
    requires WellFormed(org) && HasId(thing) && "Type" in thing
    ensures t.name == IdOf(thing) && t.props == thing
    ensures thing["Type"] == Str(Account) ==> t.children == []
    ensures thing["Type"] != Str(Account) ==>
      var kids := ChildRecords(org, IdOf(thing));
      && |t.children| == |kids|
      && forall i :: 0 <= i < |kids| ==> t.children[i].props == kids[i] && t.children[i].name == IdOf(kids[i])
    decreases org.rank(IdOf(thing)), 1, 0
  {
    var node := BuildNode(thing);
    if thing["Type"] == Str(Account) then node
    else
      var kids := ChildRecords(org, IdOf(thing));
      ListTaggedTyped(org.accountPages(IdOf(thing)), Account);
      ListTaggedTyped(org.unitPages(IdOf(thing)), OrganizationalUnit);
      node.(children := BuildForest(org, IdOf(thing), kids))
  }

  /** `_build_tree` for each record of `recs` in turn, all under the node named `parentId`. */
  function BuildForest(org: Org, parentId: string, recs: seq<Record>): (ts: seq<OrgNode>)
    requires WellFormed(org)
    requires forall r :: r in recs ==> HasId(r) && "Type" in r && org.rank(IdOf(r)) < org.rank(parentId)
    ensures |ts| == |recs|
    ensures forall i :: 0 <= i < |recs| ==> ts[i] == BuildTree(org, recs[i])
    decreases org.rank(parentId), 0, |recs|
  {
    if recs == [] then []
    else [BuildTree(org, recs[0])] + BuildForest(org, parentId, recs[1..])
  }

  /** `build`: the tree under the first root; `None` when there is no root. */
  function Build(org: Org): (t: Option<OrgNode>)
    requires WellFormed(org)
    ensures t.Some? <==> org.roots != []
    ensures t.Some? ==> t.value.name == IdOf(org.roots[0])
    ensures t.Some? ==> "Type" in t.value.props && t.value.props["Type"] == Str(Root)
    ensures t.Some? ==> t.value.props == GetRoot(org).value
    ensures t.Some? ==> Built(org, t.value)
  {
    match GetRoot(org)
    case None => None
    case Some(root) =>
      assert org.roots[0] in org.roots;
      assert root["Id"] == org.roots[0]["Id"];
      BuildTreeBuilt(org, root);
      Some(BuildTree(org, root))
  }

  /**
   What `_build_tree` promises of every node, independently of how it is
   computed: the node is named by its record's `Id`; an `ACCOUNT` is a
   leaf; any other node's children carry, in order, exactly the records
   listed for its `Id` (accounts, then units); and every child is built
   the same way.
   */
  ghost predicate Built(org: Org, t: OrgNode)
    decreases t
  {
    && HasId(t.props) && "Type" in t.props && t.name == IdOf(t.props)
    && (if t.props["Type"] == Str(Account) then t.children == []
        else
          var kids := ChildRecords(org, IdOf(t.props));
          |t.children| == |kids| && forall i :: 0 <= i < |kids| ==> t.children[i].props == kids[i])
    && forall i :: 0 <= i < |t.children| ==> Built(org, t.children[i])
  }

  /** Every node of the tree `_build_tree` returns, at every depth, is built as promised. */
  lemma {:induction false} BuildTreeBuilt(org: Org, thing: Record)
    requires WellFormed(org) && HasId(thing) && "Type" in thing
    ensures Built(org, BuildTree(org, thing))
    decreases org.rank(IdOf(thing)), 1
  {
    if thing["Type"] != Str(Account) {
      ListTaggedTyped(org.accountPages(IdOf(thing)), Account);
      ListTaggedTyped(org.unitPages(IdOf(thing)), OrganizationalUnit);
      BuildForestBuilt(org, IdOf(thing), ChildRecords(org, IdOf(thing)));
    }
  }

  lemma {:induction false} BuildForestBuilt(org: Org, parentId: string, recs: seq<Record>)
    requires WellFormed(org)
    requires forall r :: r in recs ==> HasId(r) && "Type" in r && org.rank(IdOf(r)) < org.rank(parentId)
    ensures forall i :: 0 <= i < |recs| ==> Built(org, BuildForest(org, parentId, recs)[i])
    decreases org.rank(parentId), 0, |recs|
  {
    if recs != [] {
      BuildTreeBuilt(org, recs[0]);
      BuildForestBuilt(org, parentId, recs[1..]);
    }
  }

  /** Conversely, a tree built as promised is the one `_build_tree` returns for its root record. */
  lemma {:induction false} BuiltIsBuildTree(org: Org, t: OrgNode)
    requires WellFormed(org) && Built(org, t)
    ensures t == BuildTree(org, t.props)
    decreases t
  {
    if t.props["Type"] != Str(Account) {
      var kids := ChildRecords(org, IdOf(t.props));
      ListTaggedTyped(org.accountPages(IdOf(t.props)), Account);
      ListTaggedTyped(org.unitPages(IdOf(t.props)), OrganizationalUnit);
      var built := BuildForest(org, IdOf(t.props), kids);
      forall i | 0 <= i < |t.children| ensures t.children[i] == built[i] {
        assert kids[i] in kids;
        BuiltIsBuildTree(org, t.children[i]);
      }
      assert t.children == built;
    }
  }

  // ---------------------------------------------------------------------
  // Flat export and name formatting
  // ---------------------------------------------------------------------

  /** The number of nodes; the same measure as `EdgeTree.Size`, over this module's node type. */
  function Size(t: OrgNode): (n: nat)
    ensures n >= 1
    decreases t, 1
  {
    1 + SizeAll(t.children)
  }

  function SizeAll(ts: seq<OrgNode>): (n: nat)
    decreases ts, 0
  {
    if ts == [] then 0 else Size(ts[0]) + SizeAll(ts[1..])
  }

  function Kids(t: OrgNode): (cs: seq<OrgNode>) {
    t.children
  }

  lemma {:induction false} ChildSmaller(ts: seq<OrgNode>, c: OrgNode)
    requires c in ts
    ensures Size(c) <= SizeAll(ts)
    decreases |ts|
  {
    if ts[0] != c {
      ChildSmaller(ts[1..], c);
    }
  }

  /** A tree's children are smaller than the tree: its nodes form a ranked hierarchy. */
  lemma TreeRanked()
    ensures Ranked(Kids, Size)
  {
    forall n, c | c in Kids(n) ensures Size(c) < Size(n) {
      ChildSmaller(n.children, c);
    }
  }

  /** The pre-order unfolding of a tree has one entry per node. */
  lemma {:induction false} ReachSize(ts: seq<OrgNode>)
    requires Ranked(Kids, Size)
    ensures |Reach(Kids, Size, ts)| == SizeAll(ts)
    decreases SizeAll(ts)
  {
    if ts != [] {
      ReachSize(ts[0].children);
      ReachSize(ts[1..]);
    }
  }

  /** One `to_flat_dict` entry: the node's properties with `Parent` overriding any existing key. */
  function Entry(it: Traversal.Item<OrgNode>): (r: Record)
    ensures r.Keys == it.node.props.Keys + {"Parent"}
    ensures r["Parent"] == (if it.parent.Some? then Str(it.parent.value.name) else Null)
    ensures forall k :: k in it.node.props && k != "Parent" ==> r[k] == it.node.props[k]
  {
    it.node.props["Parent" := if it.parent.Some? then Str(it.parent.value.name) else Null]
  }

  /** Every node of the tree, in pre-order, the tree itself first. */
  function Subtree(t: OrgNode): (ns: seq<OrgNode>)
    ensures |ns| == Size(t) && ns[0] == t
    decreases t, 1
  {
    [t] + SubtreeAll(t.children)
  }

  function SubtreeAll(ts: seq<OrgNode>): (ns: seq<OrgNode>)
    ensures |ns| == SizeAll(ts)
    decreases ts, 0
  {
    if ts == [] then [] else Subtree(ts[0]) + SubtreeAll(ts[1..])
  }

  /** Unfolding trees through `Kids` lists exactly their nodes, in pre-order. */
  lemma {:induction false} ReachIsSubtree(ts: seq<OrgNode>)
    requires Ranked(Kids, Size)
    ensures Reach(Kids, Size, ts) == SubtreeAll(ts)
    decreases SizeAll(ts)
  {
    if ts != [] {
      ReachIsSubtree(ts[0].children);
      ReachIsSubtree(ts[1..]);
    }
  }

  /** `LevelOrderIter`: every node of the tree with its parent, in level order, the root first. */
  function LevelOrderIter(t: OrgNode): (order: seq<Traversal.Item<OrgNode>>)
    ensures |order| == Size(t)
    ensures order[0] == Traversal.Item(t, None)
    ensures forall i :: 0 < i < |order| ==> order[i].parent.Some?
    ensures multiset(Traversal.Nodes(order)) == multiset(Subtree(t))
    ensures Traversal.ParentEarlier(order)
  {
    TreeOrder(t);
    Traversal.LevelOrder(Kids, Size, [t])
  }

  /** What the generic level order says about one tree, under its size as the rank. */
  lemma TreeOrder(t: OrgNode)
    ensures Ranked(Kids, Size)
    ensures var order := Traversal.LevelOrder(Kids, Size, [t]);
      && |order| == Size(t)
      && order[0] == Traversal.Item(t, None)
      && (forall i :: 0 < i < |order| ==> order[i].parent.Some?)
      && multiset(Traversal.Nodes(order)) == multiset(Reach(Kids, Size, [t]))
      && multiset(Traversal.Nodes(order)) == multiset(Subtree(t))
      && Traversal.ParentEarlier(order)
  {
    TreeRanked();
    ReachIsSubtree([t]);
    assert SubtreeAll([t]) == Subtree(t) + SubtreeAll([t][1..]);
    assert [t][1..] == [];
    Traversal.LevelOrderCovers(Kids, Size, [t]);
    Traversal.LevelOrderCausal(Kids, Size, [t]);
    Traversal.RootsFirst(Kids, Size, [t]);
    ReachSize([t]);
  }

  /**
   `to_flat_dict`: one entry per tree node, in level order, the root first
   with `Parent` set to `None`, every other node's `Parent` set from its
   parent.
   */
  function ToFlatDict(t: OrgNode): (r: seq<Record>)
    ensures |r| == Size(t)
    ensures forall i :: 0 <= i < |r| ==> r[i] == Entry(LevelOrderIter(t)[i])
    ensures r[0] == t.props["Parent" := Null]
    ensures forall i :: 0 < i < |r| ==> "Parent" in r[i] && r[i]["Parent"].Str?
  {
    var order := LevelOrderIter(t);
    seq(|order|, i requires 0 <= i < |order| => Entry(order[i]))
  }

  /** Every node of the unfolding under built trees is itself built. */
  lemma {:induction false} ReachBuilt(org: Org, ns: seq<OrgNode>)
    requires Ranked(Kids, Size)
    requires forall i :: 0 <= i < |ns| ==> Built(org, ns[i])
    ensures forall x :: x in Reach(Kids, Size, ns) ==> Built(org, x)
    decreases RankBound(Size, ns), |ns|
  {
    if ns != [] {
      ChildrenBound(Kids, Size, ns[0]);
      ReachBuilt(org, Kids(ns[0]));
      assert forall i :: 0 <= i < |ns[1..]| ==> ns[1..][i] == ns[i + 1];
      ReachBuilt(org, ns[1..]);
    }
  }

  /**
   In the flat export of a built tree, every entry after the root names
   as its `Parent` the `Id` of an entry that comes earlier.
   */
  lemma FlatParentsEarlier(org: Org, thing: Record)
    requires WellFormed(org) && HasId(thing) && "Type" in thing
    ensures var r := ToFlatDict(BuildTree(org, thing));
      forall i :: 0 < i < |r| ==> exists j :: 0 <= j < i && "Id" in r[j] && r[i]["Parent"] == r[j]["Id"]
  {
    var t := BuildTree(org, thing);
    BuildTreeBuilt(org, thing);
    SubtreeBuilt(org, t);
    forall i | 0 < i < Size(t)
      ensures var r := ToFlatDict(t); exists j :: 0 <= j < i && "Id" in r[j] && r[i]["Parent"] == r[j]["Id"]
    {
      FlatParentAt(org, t, i);
    }
  }

  /** Every node of a built tree is built. */
  lemma SubtreeBuilt(org: Org, t: OrgNode)
    requires Built(org, t)
    ensures forall x :: x in Subtree(t) ==> Built(org, x)
  {
    TreeRanked();
    ReachBuilt(org, [t]);
    ReachIsSubtree([t]);
    assert SubtreeAll([t]) == Subtree(t) + SubtreeAll([t][1..]);
    assert [t][1..] == [];
  }

  /** One entry of the flat export: its parent's entry comes earlier and carries the parent's `Id`. */
  lemma FlatParentAt(org: Org, t: OrgNode, i: nat)
    requires forall x :: x in Subtree(t) ==> Built(org, x)
    requires 0 < i < Size(t)
    ensures var r := ToFlatDict(t); exists j :: 0 <= j < i && "Id" in r[j] && r[i]["Parent"] == r[j]["Id"]
  {
    var order := LevelOrderIter(t);
    var r := ToFlatDict(t);
    var p := order[i].parent.value;
    var j :| 0 <= j < i && order[..i][j].node == p;
    assert order[j].node == p;
    assert Traversal.Nodes(order)[j] == p;
    assert p in multiset(Subtree(t));
    assert Built(org, p);
    assert r[j] == Entry(order[j]) && r[i] == Entry(order[i]);
  }

  /** Property values as `format_map` renders them. */
  function Texts(props: Record): (r: map<string, string>)
    ensures r.Keys == props.Keys
    ensures forall k :: k in props && props[k].Str? ==> r[k] == props[k].s
  {
    map k | k in props :: match props[k] case Str(s) => s case Null => "None"
  }

  /**
   `TreeRenderer._format_name`: the node's properties substituted into the
   template, with no fallback: `None` (the `KeyError`) exactly when a field
   is missing from the properties.
   */
  function FormatName(tpl: seq<Token>, node: OrgNode): (r: Option<string>)
    ensures r.None? <==> exists i :: 0 <= i < |tpl| && tpl[i].Field? && tpl[i].key !in node.props
  {
    FormatStrict(tpl, Texts(node.props))
  }
}
