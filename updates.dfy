/** The knowledge base's node-list updates, each a map over the previous
    list: marking the selection, a click, adding a node, connecting two
    nodes and logging a study session. */
module Updates {
  import opened Graph
  import opened Seqs
  import opened Links
  import Sidebar

  // ---------------------------------------------------------------------
  // Selection
  // ---------------------------------------------------------------------

  /** Flags as selected exactly the nodes whose id is `id`. */
  function MarkSelected(nodes: seq<Node>, id: string): seq<Node>
  {
    seq(|nodes|, i requires 0 <= i < |nodes| => nodes[i].(selected := nodes[i].id == id))
  }

  /** Only the selection flags change, and a node is flagged exactly when it
      carries the selected id. */
  lemma SelectionExact(nodes: seq<Node>, id: string)
    ensures var r := MarkSelected(nodes, id);
      |r| == |nodes|
      && forall i :: 0 <= i < |r| ==>
           (r[i].selected <==> nodes[i].id == id) && r[i].(selected := nodes[i].selected) == nodes[i]
  {
  }

  /** With distinct ids at most one node is selected. */
  lemma SingleSelection(nodes: seq<Node>, id: string)
    requires NoDup(Ids(nodes))
    ensures var r := MarkSelected(nodes, id);
      forall i, j :: 0 <= i < |r| && 0 <= j < |r| && r[i].selected && r[j].selected ==> i == j
  {
    var r := MarkSelected(nodes, id);
    forall i, j | 0 <= i < |r| && 0 <= j < |r| && r[i].selected && r[j].selected
      ensures i == j
    {
      assert Ids(nodes)[i] == Ids(nodes)[j];
    }
  }

  // ---------------------------------------------------------------------
  // Same links before and after
  // ---------------------------------------------------------------------

  /** `b` has the same ids, parent ids and connection lists as `a`, position
      by position. */
  predicate SameStructure(a: seq<Node>, b: seq<Node>)
  {
    |a| == |b|
    && forall i :: 0 <= i < |a| ==>
         a[i].id == b[i].id && a[i].parentId == b[i].parentId && a[i].connections == b[i].connections
  }

  lemma {:induction false} SameStructureIds(a: seq<Node>, b: seq<Node>)
    requires SameStructure(a, b)
    ensures Ids(a) == Ids(b)
  {
  }

  lemma {:induction false} SameStructureParents(a: seq<Node>, b: seq<Node>)
    requires SameStructure(a, b)
    ensures |Filter(a, HasParent)| == |Filter(b, HasParent)|
    decreases |a|
  {
    if a != [] {
      SameStructureParents(a[1..], b[1..]);
    }
  }

  lemma {:induction false} SameStructureResolved(a: seq<Node>, b: seq<Node>, all: seq<Node>, all': seq<Node>)
    requires SameStructure(a, b) && Ids(all) == Ids(all')
    ensures ResolvedCount(all, a) == ResolvedCount(all', b)
    decreases |a|
  {
    if a != [] {
      assert SameStructure(a[..|a| - 1], b[..|b| - 1]);
      SameStructureResolved(a[..|a| - 1], b[..|b| - 1], all, all');
    }
  }

  /** An update that keeps every id, parent id and connection list keeps the
      number of derived links. */
  lemma LinkCountKept(a: seq<Node>, b: seq<Node>)
    requires SameStructure(a, b)
    ensures |DeriveLinks(a, a)| == |DeriveLinks(b, b)|
  {
    LinkCount(a, a);
    LinkCount(b, b);
    SameStructureParents(a, b);
    SameStructureIds(a, b);
    SameStructureResolved(a, b, a, b);
  }

  // ---------------------------------------------------------------------
  // Click
  // ---------------------------------------------------------------------

  /** The summed activity of the listed children, looked up in `all`; an id
      with no node counts 0. */
  function ChildTime(all: seq<Node>, children: seq<string>): int
    decreases |children|
  {
    if children == [] then 0
    else
      (match Find(all, children[0]) case Some(c) => c.timeActive case None => 0)
      + ChildTime(all, children[1..])
  }

  /** One node after a click on `id`. Parents are recomputed from the list as
      it was before the click. */
  function ClickNode(all: seq<Node>, n: Node, id: string, now: string): Node
  {
    if n.id == id then n.(timeActive := n.timeActive + 5, lastModified := now)
    else if n.isParent && id in n.children then n.(timeActive := ChildTime(all, n.children))
    else n
  }

  function ClickUpdate(nodes: seq<Node>, id: string, now: string): seq<Node>
  {
    seq(|nodes|, i requires 0 <= i < |nodes| => ClickNode(nodes, nodes[i], id, now))
  }

  /** The clicked node gains 5 minutes and is stamped `now`, each parent
      listing it takes its children's total from before the click (and
      nothing else), and every other node is kept. */
  lemma ClickEffects(nodes: seq<Node>, id: string, now: string)
    ensures var r := ClickUpdate(nodes, id, now);
      |r| == |nodes| && SameStructure(nodes, r)
      && forall i :: 0 <= i < |r| ==>
           (nodes[i].id == id ==>
              r[i] == nodes[i].(timeActive := nodes[i].timeActive + 5, lastModified := now))
           && (nodes[i].id != id && nodes[i].isParent && id in nodes[i].children ==>
                 r[i] == nodes[i].(timeActive := ChildTime(nodes, nodes[i].children)))
           && (nodes[i].id != id && !(nodes[i].isParent && id in nodes[i].children) ==> r[i] == nodes[i])
  {
  }

  /** The recomputed parent total misses the click's own 5 minutes: after a
      click on the only child, the parent is 5 behind its child. */
  lemma ClickParentLags()
    ensures var c := Node("c", "c", Note, false, Some("p"), [], [], "s", [], 10, "", "", "", false, 0.0, 0.0, None, None);
      var p := Node("p", "p", Parent, true, None, ["c"], [], "s", [], 10, "", "", "", false, 0.0, 0.0, None, None);
      var r := ClickUpdate([p, c], "c", "now");
      r[1].timeActive == 15 && r[0].timeActive == 10 && ChildTime(r, r[0].children) == 15
  {
    var c := Node("c", "c", Note, false, Some("p"), [], [], "s", [], 10, "", "", "", false, 0.0, 0.0, None, None);
    var p := Node("p", "p", Parent, true, None, ["c"], [], "s", [], 10, "", "", "", false, 0.0, 0.0, None, None);
    var r := ClickUpdate([p, c], "c", "now");
    assert Find([p, c], "c") == Some(c);
    assert ChildTime([p, c], ["c"]) == 10;
    assert Find(r, "c") == Some(r[1]);
  }

  // ---------------------------------------------------------------------
  // Adding a node
  // ---------------------------------------------------------------------

  /** The characters `String.prototype.trim` removes: white space and line
      terminators. */
  predicate IsWhitespace(c: char)
  {
    c == '\t' || c == '\n' || c == '\U{000B}' || c == '\U{000C}' || c == '\r' || c == ' '
    || c == '\U{00A0}' || c == '\U{1680}' || ('\U{2000}' <= c <= '\U{200A}')
    || c == '\U{2028}' || c == '\U{2029}' || c == '\U{202F}' || c == '\U{205F}' || c == '\U{3000}'
    || c == '\U{FEFF}'
  }

  /** A name that trims to the empty string. */
  predicate IsBlank(name: string)
  {
    forall i :: 0 <= i < |name| ==> IsWhitespace(name[i])
  }

  /** The new node's parent: the selected id when it is truthy. */
  function ParentOf(selection: Option<string>): Option<string>
  {
    if selection.Some? && selection.value != "" then selection else None
  }

  /** A fresh node: no activity, children, connections or tags; a parent when
      its kind is Parent; in the active space; created and modified `now`. */
  function NewNode(newId: string, name: string, kind: Kind, selection: Option<string>, spaceId: string, now: string): Node
  {
    Node(newId, name, kind, kind == Parent, ParentOf(selection), [], [], spaceId, [], 0, "", now, now,
         false, 0.0, 0.0, None, None)
  }

  /** Appends `childId` to the children of every node whose id is `parentId`. */
  function AttachChild(nodes: seq<Node>, parentId: string, childId: string): seq<Node>
  {
    seq(|nodes|, i requires 0 <= i < |nodes| =>
      if nodes[i].id == parentId then nodes[i].(children := nodes[i].children + [childId]) else nodes[i])
  }

  /** Appends `nn` and, when a node is selected, lists it as the selected
      node's child. */
  function InsertNode(nodes: seq<Node>, nn: Node, selection: Option<string>): seq<Node>
  {
    var updated := nodes + [nn];
    if selection.Some? then AttachChild(updated, selection.value, nn.id) else updated
  }

  /** Exactly one node is added, at the end; earlier nodes change only by the
      selected node gaining the new child. */
  lemma InsertNodeShape(nodes: seq<Node>, nn: Node, selection: Option<string>)
    ensures var r := InsertNode(nodes, nn, selection);
      |r| == |nodes| + 1
      && (selection.None? || selection.value != nn.id ==> r[|nodes|] == nn)
      && forall i :: 0 <= i < |nodes| ==>
           r[i] == if selection.Some? && nodes[i].id == selection.value
                   then nodes[i].(children := nodes[i].children + [nn.id]) else nodes[i]
  {
  }

  /** With a selected node `p`, the new node names `p` as parent and the
      hierarchy link p -> new node is derived. */
  lemma InsertLinksToParent(nodes: seq<Node>, newId: string, name: string, kind: Kind, p: string,
                            spaceId: string, now: string)
    requires p != "" && p != newId
    ensures var r := InsertNode(nodes, NewNode(newId, name, kind, Some(p), spaceId, now), Some(p));
      r[|nodes|].parentId == Some(p) && Link(p, newId, 2, Hierarchy, 0, []) in DeriveLinks(r, r)
  {
    var nn := NewNode(newId, name, kind, Some(p), spaceId, now);
    var r := InsertNode(nodes, nn, Some(p));
    assert r[|nodes|] == nn;
    HierarchyLinkDerived(r, |nodes|);
  }

  /** The selected node `p`, when it is in the list, lists the new node as its
      last child. */
  lemma InsertAttachesChild(nodes: seq<Node>, nn: Node, p: string)
    requires p in Ids(nodes)
    ensures var r := InsertNode(nodes, nn, Some(p));
      (exists i :: 0 <= i < |nodes| && r[i].id == p)
      && forall i :: 0 <= i < |nodes| && nodes[i].id == p ==>
           |r[i].children| > 0 && r[i].children[|r[i].children| - 1] == nn.id
  {
    var r := InsertNode(nodes, nn, Some(p));
    var k :| 0 <= k < |nodes| && Ids(nodes)[k] == p;
    assert r[k].id == p;
  }

  /** A selected node with the empty id still receives the child, although
      the new node gets no parent. */
  lemma EmptySelectedId(nodes: seq<Node>, newId: string, name: string, kind: Kind, spaceId: string, now: string)
    requires newId != ""
    ensures var nn := NewNode(newId, name, kind, Some(""), spaceId, now);
      var r := InsertNode(nodes, nn, Some(""));
      r[|nodes|].parentId == None
      && forall i :: 0 <= i < |nodes| && nodes[i].id == "" ==> newId in r[i].children
  {
    var nn := NewNode(newId, name, kind, Some(""), spaceId, now);
    var r := InsertNode(nodes, nn, Some(""));
    forall i | 0 <= i < |nodes| && nodes[i].id == ""
      ensures newId in r[i].children
    {
      assert r[i].children == nodes[i].children + [newId];
    }
  }

  /** Adding a node leaves the total study time unchanged. */
  lemma InsertKeepsTotal(nodes: seq<Node>, newId: string, name: string, kind: Kind, selection: Option<string>,
                         spaceId: string, now: string)
    ensures var nn := NewNode(newId, name, kind, selection, spaceId, now);
      Sidebar.TotalTime(InsertNode(nodes, nn, selection)) == Sidebar.TotalTime(nodes)
  {
    var nn := NewNode(newId, name, kind, selection, spaceId, now);
    var updated := nodes + [nn];
    Sidebar.TotalTimeAppend(nodes, [nn]);
    assert Sidebar.TotalTime([nn]) == 0 by {
      assert [nn][1..] == [];
    }
    if selection.Some? {
      TimesKept(updated, AttachChild(updated, selection.value, nn.id));
    }
  }

  /** Two lists with the same activity, position by position, have the same total. */
  lemma {:induction false} TimesKept(a: seq<Node>, b: seq<Node>)
    requires |a| == |b| && forall i :: 0 <= i < |a| ==> a[i].timeActive == b[i].timeActive
    ensures Sidebar.TotalTime(a) == Sidebar.TotalTime(b)
    decreases |a|
  {
    if a != [] {
      TimesKept(a[1..], b[1..]);
    }
  }

  /** The active space's member list gains the new id at its end. */
  function AddToSpace(spaces: seq<Space>, spaceId: string, newId: string): seq<Space>
  {
    seq(|spaces|, i requires 0 <= i < |spaces| =>
      if spaces[i].id == spaceId then spaces[i].(nodes := spaces[i].nodes + [newId]) else spaces[i])
  }

  /** Only the active space changes, and only by gaining the new id. */
  lemma AddToSpaceEffect(spaces: seq<Space>, spaceId: string, newId: string)
    ensures var r := AddToSpace(spaces, spaceId, newId);
      |r| == |spaces|
      && forall i :: 0 <= i < |r| ==>
           r[i].id == spaces[i].id && r[i].name == spaces[i].name && r[i].color == spaces[i].color
           && (spaces[i].id == spaceId ==> r[i].nodes[..|spaces[i].nodes|] == spaces[i].nodes
                                           && r[i].nodes == spaces[i].nodes + [newId])
           && (spaces[i].id != spaceId ==> r[i] == spaces[i])
  {
  }

  // ---------------------------------------------------------------------
  // Connecting two nodes
  // ---------------------------------------------------------------------

  function ConnectNode(n: Node, source: string, target: string): Node
  {
    if n.id == source && target !in n.connections then n.(connections := n.connections + [target]) else n
  }

  /** Adds `target` to the connections of the node(s) with id `source`, unless
      the two ids are equal or the connection exists. */
  function Connect(nodes: seq<Node>, source: string, target: string): seq<Node>
  {
    if source == target then nodes
    else seq(|nodes|, i requires 0 <= i < |nodes| => ConnectNode(nodes[i], source, target))
  }

  /** Connecting twice is connecting once. */
  lemma ConnectIdempotent(nodes: seq<Node>, source: string, target: string)
    ensures Connect(Connect(nodes, source, target), source, target) == Connect(nodes, source, target)
  {
  }

  /** After connecting, the source keeps its connections and gains the target
      at the end when it was missing (so it lists it once, when its list had
      no repeats), and every other node is unchanged. */
  lemma ConnectEffect(nodes: seq<Node>, source: string, target: string)
    requires source != target
    ensures var r := Connect(nodes, source, target);
      |r| == |nodes|
      && forall i :: 0 <= i < |r| ==>
           (nodes[i].id == source ==>
              r[i].connections == (if target in nodes[i].connections then nodes[i].connections
                                   else nodes[i].connections + [target])
              && target in r[i].connections
              && (NoDup(nodes[i].connections) ==> NoDup(r[i].connections))
              && r[i].(connections := nodes[i].connections) == nodes[i])
           && (nodes[i].id != source ==> r[i] == nodes[i])
  {
    var r := Connect(nodes, source, target);
    forall i | 0 <= i < |r| && nodes[i].id == source && NoDup(nodes[i].connections)
      ensures NoDup(r[i].connections)
    {
      var cs := nodes[i].connections;
      if target !in cs {
        assert r[i].connections == cs + [target];
        forall a, b | 0 <= a < b < |cs| + 1 ensures (cs + [target])[a] != (cs + [target])[b] {
          if b == |cs| {
            assert (cs + [target])[a] == cs[a];
          }
        }
      }
    }
  }

  /** Connecting two existing nodes makes the link effect derive a connection
      link between them. */
  lemma ConnectYieldsLink(nodes: seq<Node>, source: string, target: string, k: nat)
    requires source != target && k < |nodes| && nodes[k].id == source && target in Ids(nodes)
    ensures var r := Connect(nodes, source, target);
      exists l :: l in DeriveLinks(r, r) && l.source == source && l.target == target && l.kind == Connection
  {
    var r := Connect(nodes, source, target);
    assert r[k] == ConnectNode(nodes[k], source, target);
    var t := Find(r, target).value by {
      ConnectKeepsIds(nodes, source, target);
    }
    var l := ConnectionLink(r[k], target, t);
    assert l in DeriveLinks(r, r) by {
      assert target in r[k].connections;
      assert IsConnectionLinkOf(r, r[k], target, l);
      assert LinkOf(r, r[k], l);
      DeriveLinksMembership(r, r, l);
    }
    assert l.source == source && l.target == target && l.kind == Connection;
  }

  lemma ConnectKeepsIds(nodes: seq<Node>, source: string, target: string)
    ensures Ids(Connect(nodes, source, target)) == Ids(nodes)
  {
    var r := Connect(nodes, source, target);
    assert |Ids(r)| == |Ids(nodes)|;
    forall i | 0 <= i < |r| ensures Ids(r)[i] == Ids(nodes)[i] {
    }
  }

  // ---------------------------------------------------------------------
  // Study sessions
  // ---------------------------------------------------------------------

  /** The nodes a session on `id` credits: the node itself and the parents
      listing it as a child (not their own parents). */
  predicate Gains(n: Node, id: string)
  {
    n.id == id || (n.isParent && id in n.children)
  }

  function StudyNode(n: Node, id: string, d: int, now: string): Node
  {
    if n.id == id then n.(timeActive := n.timeActive + d, lastModified := now)
    else if n.isParent && id in n.children then n.(timeActive := n.timeActive + d)
    else n
  }

  function Study(nodes: seq<Node>, id: string, d: int, now: string): seq<Node>
  {
    seq(|nodes|, i requires 0 <= i < |nodes| => StudyNode(nodes[i], id, d, now))
  }

  /** A session adds its duration to every credited node and changes nothing
      else but the studied node's modification time. */
  lemma StudyEffect(nodes: seq<Node>, id: string, d: int, now: string)
    ensures var r := Study(nodes, id, d, now);
      |r| == |nodes| && SameStructure(nodes, r)
      && forall i :: 0 <= i < |r| ==>
           (nodes[i].id == id ==>
              r[i] == nodes[i].(timeActive := nodes[i].timeActive + d, lastModified := now))
           && (nodes[i].id != id && Gains(nodes[i], id) ==>
                 r[i] == nodes[i].(timeActive := nodes[i].timeActive + d))
           && (Gains(nodes[i], id) ==> r[i].timeActive == nodes[i].timeActive + d)
           && (!Gains(nodes[i], id) ==> r[i] == nodes[i])
  {
  }

  /** How many nodes a session on `id` credits. */
  function Credited(nodes: seq<Node>, id: string): nat
    decreases |nodes|
  {
    if nodes == [] then 0 else (if Gains(nodes[0], id) then 1 else 0) + Credited(nodes[1..], id)
  }

  /** The total study time grows by the duration once per credited node. */
  lemma {:induction false} StudyTotal(nodes: seq<Node>, id: string, d: int, now: string)
    ensures Sidebar.TotalTime(Study(nodes, id, d, now)) == Sidebar.TotalTime(nodes) + d * Credited(nodes, id)
    decreases |nodes|
  {
    if nodes != [] {
      var r := Study(nodes, id, d, now);
      var rest := Credited(nodes[1..], id);
      assert Sidebar.TotalTime(r) == r[0].timeActive + Sidebar.TotalTime(nodes[1..]) + d * rest by {
        assert r[1..] == Study(nodes[1..], id, d, now);
        StudyTotal(nodes[1..], id, d, now);
      }
      if Gains(nodes[0], id) {
        MulStep(d, rest);
      }
    }
  }

  lemma MulStep(d: int, k: nat)
    ensures d * (k + 1) == d * k + d
  {
  }

  /** A grandparent is not credited: only direct parents gain. */
  lemma StudySkipsGrandparent()
    ensures var g := Node("g", "g", Parent, true, None, ["p"], [], "s", [], 0, "", "", "", false, 0.0, 0.0, None, None);
      var p := Node("p", "p", Parent, true, Some("g"), ["c"], [], "s", [], 0, "", "", "", false, 0.0, 0.0, None, None);
      var c := Node("c", "c", Note, false, Some("p"), [], [], "s", [], 0, "", "", "", false, 0.0, 0.0, None, None);
      var r := Study([g, p, c], "c", 30, "now");
      r[0].timeActive == 0 && r[1].timeActive == 30 && r[2].timeActive == 30
  {
  }
}
