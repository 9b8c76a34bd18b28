# aws-org-tree, modelled in Dafny

aws-org-tree walks an AWS Organization. It starts at the organisation root
and asks a children oracle for the kids of every node. Each kid is an
account, which is a leaf, or an organisational unit (OU), which has children
of its own. The tool records each (node, parent) relationship. The
repository does this four times:

- a generic worklist engine with a thread pool (`traversal.py`);
- a breadth-first graph builder (`aws_org_graph.py`);
- a recursive tree builder with flat and rendered exports (`aws_org_tree.py`);
- an event-driven tree that grows one reported edge at a time (`aws_org_tree/aws_org_tree.py`).

This project models all four as pure functions and sequential methods over
an abstract organisation. The AWS API becomes one of two things. The first
is a children oracle, `children: N -> seq<N>`. It comes with a rank
function under which every child ranks strictly below its parent. That rank
is what makes the hierarchy finite and acyclic. The second is explicit
listings: the roots, plus, per parent id, the pages of accounts and the
pages of OUs.

Modules:

- `Options`: the `Option` type.
- `Forest`: ranked children oracles and the pre-order unfolding `Reach`. Each worklist loop's termination measure comes from `Reach`.
- `Traversal`: the worklist engine. Its state is a FIFO queue of (node, parent) items, the pending counter behind `join`, the item the worker holds, and the visit log. It is run by one worker (`Traverse`). Collaborator failures are modelled as a per-node `Fault`.
- `GuardedTraversal`: the same engine with a loop body that catches every exception from `visit` and `get_children` (`Empty` included), records the node in `failed`, and then marks the item done. This is the corrected definition under "Findings".
- `OrgGraph`: `build_org_graph`, over an undirected graph of id sets and unordered pairs.
- `Template`: node-name templates as token sequences. It covers strict `format_map` and `format_map` over `Default`.
- `OrgTree`: the root, paginated listings, `Type` tagging, the recursive builder, `to_flat_dict` and `_format_name` of `aws_org_tree.py`.
- `EdgeTree`: `add_edge` and `write_tree` of `aws_org_tree/aws_org_tree.py`.

## Model

| member | source | states |
|---|---|---|
| Traversal.Put | traversal.py:44 | A `put` appends the item at the back of the FIFO queue and keeps the pending count equal to queued plus held items. |
| Traversal.PutAll | traversal.py:43-44 | Putting a node's children appends them in the order the oracle yields them, each paired with that node. The pending count grows by exactly their number. |
| Traversal.Get | traversal.py:39 | `get` hands the worker the oldest queued item and keeps the pending count unchanged. |
| Traversal.TaskDone | traversal.py:45 | `task_done` releases the held item: the pending count drops by one, the worker holds nothing, and no counted item goes missing. |
| Traversal.Process | traversal.py:38-45 | One pass of the loop body has four outcomes. With an empty queue it times out and changes nothing. With healthy collaborators the dequeued item is logged unchanged, all its children are queued as (child, node) and the item is released. A `queue.Empty` raised by `visit` is caught by the handler meant for a timed-out `get`: the item is dropped without being marked done, nothing is logged, and the worker carries on with one pending item lost for good. Any other exception from `visit` or `get_children` leaves the loop with the item still held and never marked done; the item is logged exactly when its `visit` returned, and the children yielded before the failure stay queued. Only the swallowed `Empty` changes the count of lost items. |
| Traversal.ProcessKeepsCausal | traversal.py:39-44 | Every pass keeps the causal order: each logged, queued or held non-root item has its parent already in the log. |
| Traversal.PutRootKeepsCausal | traversal.py:53-54 | Putting a root at any moment keeps the causal order. With `ProcessKeepsCausal` this gives causal order for every interleaving of root puts and loop passes, not only the roots-first one. |
| Traversal.BfsIsLevelOrder | traversal.py:33-45 | With all roots put before processing starts, one worker over the FIFO queue visits in exactly level order. Level order is defined independently, level by level. |
| Traversal.RootsFirst | traversal.py:53-54 | The visiting order starts with every listed root, in order, each paired with no parent. Every later item carries a parent. |
| Traversal.LevelOrderCausal | traversal.py:40-44 | In level order every non-root item comes after an item visiting its parent. |
| Traversal.LevelOrderCovers | traversal.py:43-54 | The visiting order contains every node of the forest's unfolding, as often as it occurs there, and nothing else. |
| Traversal.VisitedExactlyOnce | traversal.py:43-54 | When no node is reachable along two paths, every reachable node is visited exactly once and no other node is visited. |
| Traversal.NoRootsNoWork | traversal.py:53-56 | With no roots nothing is visited and the pending count is zero, so `join` returns at once. |
| Traversal.Traverse | traversal.py:26-62 | One worker, every root put before the first pass. The worker takes the nodes in the level order of the forest pruned at failures: a node whose `get_children` raised keeps only the children it yielded, and a node whose `visit` raised keeps none. If some taken node raises anything but `Empty`, the worker is lost at the first such node, `order[k]`: the log is exactly the nodes of `order[..k + 1]` whose `visit` returned, in that order, and pending stays at least one. Otherwise the log is exactly the nodes of that order whose `visit` returned, in that order; a node is visited exactly when it is reached and its `visit` returns; and pending ends as the number of swallowed `Empty`s. `join` returns exactly when every taken node was healthy. Every logged non-root comes after its parent. When every node of the full level order is healthy, the log is that level order and `join` returns. |
| Traversal.FailureBlocksJoin | traversal.py:38-56 | A single root whose `visit` or `get_children` raises leaves the root held with pending at least one, so `join` cannot return. |
| Traversal.SwallowedEmptyBlocksJoin | traversal.py:38-42 | A single root whose `visit` raises `queue.Empty`: the exception is swallowed, the root is neither logged nor marked done, the queue is empty and nothing is held, yet pending stays at one. Every later pass only times out, so `join` never returns. |
| GuardedTraversal.ProcessGuarded | traversal.py:38-45 | With every exception from `visit` and `get_children` caught and the item then marked done, a pass never keeps its item and never loses one. It queues the children yielded before any failure and logs the item exactly when its `visit` returned, as the unguarded pass does. With healthy collaborators it is the unguarded pass. |
| GuardedTraversal.GuardedKeepsCausal | traversal.py:39-45 | The guarded loop body keeps the causal order of the log, the queue and the held item. |
| GuardedTraversal.TraverseGuarded | traversal.py:26-62 | With the guarded loop body and one worker, `join` always returns (pending ends at zero). The log is the nodes whose `visit` returned, in the level order of the forest pruned at failures, and every non-root comes after its parent. `failed` lists, in the same order, every node a collaborator raised on. A node is visited exactly when it is reached and its `visit` returns. A node is recorded exactly when it is reached and something raised on it. Every root is visited or recorded or both. Without failures the log is the full level order and nothing is recorded. |
| OrgGraph.AddNodeKeepsSound | aws_org_graph.py:18-19 | Adding the id of the parent just taken from the queue keeps the graph sound: every node is still a dequeued parent or a child listed under one, every edge still joins a dequeued parent to one of its listed children, and both ends of every edge are nodes. |
| OrgGraph.AddEdge | aws_org_graph.py:23 | `add_edge` makes the node set exactly the old nodes plus both endpoints and the edge set exactly the old edges plus the one unordered pair. The new edge holds in either orientation. |
| OrgGraph.AddEdges | aws_org_graph.py:22-23 | After the edge loop the parent is joined to every listed child, and the graph still holds nothing unlisted. |
| OrgGraph.VisitParent | aws_org_graph.py:18-28 | One dequeued parent becomes a node joined to each of its listed accounts and units, and the graph holds only listed things. |
| OrgGraph.BuildOrgGraph | aws_org_graph.py:5-30 | With no roots the graph is empty. Otherwise: only the first root is walked and is a node. Exactly the OUs reachable from it are dequeued, as often as they occur in the unit unfolding, so accounts are never dequeued. Every dequeued parent is a node with an edge, in both orientations, to each listed account and unit. Every edge's endpoints are nodes. Every node and edge comes from a dequeued parent and its listings. |
| Template.FormatStrict | aws_org_tree.py:203-204 | Plain `format_map` succeeds exactly when every field of the template has a value. Otherwise it fails, which stands for the `KeyError`. |
| Template.DefaultAgreesWhenFilled | aws_org_tree/aws_org_tree.py:44-50 | When every field is present, formatting over `Default` gives the same text as strict formatting. |
| Template.DefaultIsStrictOnCompleted | aws_org_tree/aws_org_tree.py:44-50 | Formatting over `Default(d)` equals strict formatting of `d` completed with each missing field bound to its own name, so it never fails. |
| Template.Completed | aws_org_tree/aws_org_tree.py:48-50 | The completion fills every field of the template. It keeps every value of `d` and binds only missing names, each to itself. |
| Template.DefaultFormatFallback | aws_org_tree/aws_org_tree.py:56 | The default template `{Name} ({Id})` over a resource without `Name` renders the word `Name`, where strict formatting would fail. |
| OrgTree.Tag | aws_org_tree.py:157 | Tagging adds `Type` and keeps every other key and value. An existing `Type` wins over the tag, because the later spread wins. |
| OrgTree.ListTagged | aws_org_tree.py:156-160 | The listing is the in-order concatenation of all pages. Its length is the sum of the page lengths, and each record is tagged. |
| OrgTree.ListAccounts | aws_org_tree.py:152-160 | Account listing: every page's accounts in order, each tagged `ACCOUNT` unless it already has a `Type`. |
| OrgTree.ListUnits | aws_org_tree.py:162-170 | OU listing: every page's units in order, each tagged `ORGANIZATIONAL_UNIT` unless it already has a `Type`. |
| OrgTree.GetRoot | aws_org_tree.py:109-113 | The first listed root with `Type` set to `ROOT`, replacing any earlier `Type`, and every other property kept. With no roots there is no root, which stands for the `IndexError`. |
| OrgTree.ChildRecords | aws_org_tree.py:122-127 | The records built under a non-account node are its account listing followed by its OU listing, each in listing order, as `_get_children` dispatches on the type. |
| OrgTree.BuildTreeBuilt | aws_org_tree.py:115-134 | Every node of the built tree, at every depth, is named by the `Id` of the record it carries. An `ACCOUNT` is a leaf. Any other node has as its children, in order, exactly the records listed for its `Id`: accounts first, then OUs. Every child is built the same way. |
| OrgTree.BuiltIsBuildTree | aws_org_tree.py:115-134 | Conversely, any tree of that shape at every depth is exactly what `_build_tree` returns for its root record. |
| OrgTree.Build | aws_org_tree.py:74-78 | There is a tree exactly when a root is listed. Its root is named by the first root's `Id` and typed `ROOT`. Its properties are exactly that root record with `Type` overwritten (`GetRoot`), every other key kept. The whole tree is built from the organisation at every depth (`Built`). |
| OrgTree.Entry | aws_org_tree.py:91-94 | A flat entry is the node's properties plus `Parent`. `Parent` overrides any existing key and is the parent's id, or `None` for the root. |
| OrgTree.LevelOrderIter | aws_org_tree.py:95 | Level-order iteration yields every node of the tree exactly as often as it occurs in the tree (the multiset of the pre-order `Subtree`), the root first with no parent, every later item with a parent, and every parent before its children. |
| OrgTree.ToFlatDict | aws_org_tree.py:88-96 | One entry per tree node. Entry i is the i-th node of level order with its properties plus `Parent`. The root comes first with `Parent` set to `None`, and every later entry has a string `Parent`. |
| OrgTree.FlatParentsEarlier | aws_org_tree.py:88-96 | In the flat export of a built tree, every entry after the root has as its `Parent` the `Id` of an earlier entry. |
| OrgTree.FormatName | aws_org_tree.py:203-204 | Strict template substitution of the node's properties fails exactly when some field of the template is missing from the properties. |
| EdgeTree.Attach | aws_org_tree/aws_org_tree.py:36-37 | The child can be attached exactly when some node has the parent's id, and the root stays as it was. |
| EdgeTree.AttachGrows | aws_org_tree/aws_org_tree.py:36-37 | Attaching adds exactly one node, named by the child's id and carrying the child's resource, and exactly one link, from the parent's id to it. The multisets of names, of carried resources and of links change by exactly that. The multiset of (name, resource) pairs gains exactly (child id, child), so every other node keeps its name paired with its own resource. In pre-order the pairs are the old ones with (child id, child) spliced in right after the whole subtree of the first node `find_by_attr` finds. So the new node is that node's last child and no other node moves. |
| EdgeTree.AttachInserts | aws_org_tree/aws_org_tree.py:36-37 | The pre-order of (name, resource) pairs after attaching is the old pre-order with the new pair inserted at `InsertionPoint`. That is the index of the first node named by the parent id, plus the size of that node's subtree. |
| EdgeTree.AttachPairs | aws_org_tree/aws_org_tree.py:37 | The new `Node(child.id, parent=…, resource=child)` pairs the child's id with the child itself, and every node already in the tree keeps its name with its resource. |
| EdgeTree.AttachCarries | aws_org_tree/aws_org_tree.py:37 | The resources the nodes carry change only by the one resource given to the new node. |
| EdgeTree.AddEdge | aws_org_tree/aws_org_tree.py:30-37 | On an empty tree, the root is named by and carries the parent, and the child is its only child. Otherwise, with one node bearing the parent's id, the root keeps its name and resource, and exactly one node, one carried resource (the child), one (name, resource) pair (child id, child) and one (parent, child) link are added. In pre-order the new pair sits right after the parent's whole subtree, and every other pair keeps its order. With no such node, the tree is unchanged and the child is left detached. With several, the lookup fails. |
| EdgeTree.FirstEdge | aws_org_tree/aws_org_tree.py:32-37 | The first edge creates two nodes joined by exactly that edge. |
| EdgeTree.Replay | aws_org_tree/aws_org_tree.py:26-37 | Replaying reported edges never changes an existing root's name or the resource it carries. |
| EdgeTree.ReplayGrows | aws_org_tree/aws_org_tree.py:26-37 | When every reported child is new and its parent is already present exactly once, each edge adds exactly one node. |
| EdgeTree.Labels | aws_org_tree/aws_org_tree.py:36 | The pre-order name list has one entry per node. |
| EdgeTree.Resources | aws_org_tree/aws_org_tree.py:43 | The pre-order resource list has one entry per node and starts with the root's resource. |
| EdgeTree.Lines | aws_org_tree/aws_org_tree.py:43-45 | Each node's line is its resource rendered with `Default` fallback, in pre-order. The node's own line is first, and its descendants' lines are deeper. |
| EdgeTree.WriteTree | aws_org_tree/aws_org_tree.py:42-45 | With a tree, exactly one line per node, each the pre-order node's resource through the template with `Default` fallback. With no tree, rendering fails. |

## Left out

- Threads, the 0.5 s `get` timeout, the `things_left_to_do` flag and the thread joins (traversal.py:34, 36-37, 47-50, 58-62): the engine runs with a single worker. A timed-out `get` is the `TimedOut` outcome of one pass.
- Traversal.Traverse: the roots are a complete sequence. In the source `get_roots()` is a generator that may page lazily. If it raises part-way (traversal.py:52-59), the roots already put may still be processed, the `finally` clears the loop flag, the exception propagates, and the thread joins at 61-62 are skipped. That path is not modelled.
- Traversal.Traverse: once the single worker is lost, `hung` stops the run. With `worker_count` 2 the other worker would carry on, but pending would still never reach zero.
- Traversal.Traverse: models only the schedule where every root is put before the worker's first pass. The source starts the workers first (traversal.py:47-50) and then puts the roots one by one (53-54), so a worker can visit a root's children before a later root is put, and the log need not be level order. Causal order holds for every schedule (`PutRootKeepsCausal`, `ProcessKeepsCausal`). Level order and visiting each node exactly once are claimed only for the roots-first schedule.
- Generator laziness of `get_children`: children are a sequence. A failure part-way through the listing is `ChildrenRaise(k)`, after `k` children were yielded.
- boto3 sessions, clients, paginators and `list_*` calls: they become the children oracle, the `Org` listings and explicit `seq<seq<Record>>` pages.
- The graph builder reads one response per parent, which is modelled as `accounts(p)` and `units(p)`. NetworkX graph freezing is not modelled; the code never freezes the graph.
- `RenderTree` prefix strings, `DictExporter`/`JsonExporter`, `to_json`, `to_flat_json`, `ISODateJSONEncoder`, draw_org.py: library-rendered output. A written line keeps its depth in place of the prefix.
- The exporter naming swap (aws_org_tree.py:185-192): `JsonFlatExporter` calls `to_json` and `JsonTreeExporter` calls `to_flat_json`. It belongs to the output layer and is left as written, unmodelled.
- Python's format-spec grammar: templates are sequences of literal text and `{key}` fields. Property values are strings or `None` (rendered `None`); other JSON types such as dates are not modelled.
- OrgTree.ToFlatDict: `Parent` is taken from the parent node's name. On every built tree that is the parent's `Properties["Id"]` (`OrgTree.BuildTreeBuilt`, `OrgTree.FlatParentsEarlier`). A hand-made tree whose node lacks `Id` would raise `KeyError` in the source and is not modelled.
- OrgTree.BuildTree: requires every record to carry a string `Id` and a `Type`, and listed children to rank below their parent, which makes the organisation a finite tree. A record without those keys raises `KeyError` in the source.
- The `print` in `add_edge`, logging and `logdecorator`, CLI argument parsing, `importlib` version lookup, and `load` or the crawler's signal wiring: I/O and plumbing. Reported edges are an explicit sequence (`EdgeTree.Replay`).
- The test-suite expectations the code does not meet: the frozen graph check and the 20-member pagination case for `build_org_graph`.
- org_types.py type aliases, the moto-based fixtures and the CLI tests are not part of this model.

`Traversal.Traverse` follows the code. `GuardedTraversal.TraverseGuarded` is the
corrected loop body under "Findings": every exception from `visit` or
`get_children`, `Empty` included, is caught, the node is recorded in
`failed`, and then the item is marked done.

## Findings

| source | as written | input that shows it | evidently intended | confidence | as-written member | corrected member |
|---|---|---|---|---|---|---|
| traversal.py:38-45 | `task_done` is reached only when `visit` and `get_children` both return, because only `Empty` is caught | one root whose `visit` raises: the root is held, pending stays 1 and `join` blocks forever | every exception from `visit` and `get_children` is caught, the node is recorded, and the item is then marked done, so `join` returns | medium, not executed | Traversal.FailureBlocksJoin | GuardedTraversal.TraverseGuarded |
| traversal.py:38-42 | `visit` runs inside the `try` whose `except Empty: continue` is meant for the timed-out `get`, so an `Empty` raised by `visit` is swallowed | one root whose `visit` raises `queue.Empty`: the worker goes on, the root is never marked done, pending stays 1 and `join` blocks with no traceback | only the `get` is guarded by `except Empty`; a failing `visit` is caught, recorded and marked done | medium, not executed | Traversal.SwallowedEmptyBlocksJoin | GuardedTraversal.TraverseGuarded |
