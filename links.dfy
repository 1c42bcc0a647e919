/** Deriving the graph's links and its tag list from the node list: every
    node with a parent id yields a hierarchy link from the parent, and every
    connection id that names an existing node yields a connection link. */
module Links {
  import opened Graph
  import opened Seqs

  function Min(a: int, b: int): int
  {
    if a <= b then a else b
  }

  // ---------------------------------------------------------------------
  // The links one node yields
  // ---------------------------------------------------------------------

  /** The hierarchy link parent -> node, for a node whose parent id is set.
      The parent id is not looked up. */
  function HierarchyLinks(n: Node): seq<Link>
  {
    if IsSet(n.parentId) then [Link(n.parentId.value, n.id, 2, Hierarchy, n.timeActive, [])] else []
  }

  /** The connection link from `n` to the node `t` found for id `c`. */
  function ConnectionLink(n: Node, c: string, t: Node): Link
  {
    Link(n.id, c, 1, Connection, Min(n.timeActive, t.timeActive), n.tags + t.tags)
  }

  /** The link for connection id `c`: none when no node has that id. */
  function LinkFor(all: seq<Node>, n: Node, c: string): seq<Link>
  {
    match Find(all, c) case Some(t) => [ConnectionLink(n, c, t)] case None => []
  }

  /** The connection links for the ids `cs`, in order; an id without a node
      yields nothing. */
  function ConnectionLinks(all: seq<Node>, n: Node, cs: seq<string>): seq<Link>
    decreases |cs|
  {
    if cs == [] then []
    else
      var c := cs[|cs| - 1];
      ConnectionLinks(all, n, cs[..|cs| - 1]) + LinkFor(all, n, c)
  }

  function NodeLinks(all: seq<Node>, n: Node): seq<Link>
  {
    HierarchyLinks(n) + ConnectionLinks(all, n, n.connections)
  }

  /** The links of the nodes `done`, in order, resolving ids against `all`. */
  function DeriveLinks(all: seq<Node>, done: seq<Node>): seq<Link>
    decreases |done|
  {
    if done == [] then []
    else DeriveLinks(all, done[..|done| - 1]) + NodeLinks(all, done[|done| - 1])
  }

  // ---------------------------------------------------------------------
  // Which links are derived
  // ---------------------------------------------------------------------

  predicate IsHierarchyLinkOf(n: Node, l: Link)
  {
    IsSet(n.parentId) && l == Link(n.parentId.value, n.id, 2, Hierarchy, n.timeActive, [])
  }

  predicate IsConnectionLinkOf(all: seq<Node>, n: Node, c: string, l: Link)
  {
    l in LinkFor(all, n, c)
  }

  /** `l` is one of the links node `n` yields. */
  predicate LinkOf(all: seq<Node>, n: Node, l: Link)
  {
    IsHierarchyLinkOf(n, l) || exists c :: c in n.connections && IsConnectionLinkOf(all, n, c, l)
  }

  lemma {:induction false} ConnectionLinksMembership(all: seq<Node>, n: Node, cs: seq<string>, l: Link)
    ensures l in ConnectionLinks(all, n, cs) <==> exists c :: c in cs && IsConnectionLinkOf(all, n, c, l)
    decreases |cs|
  {
    if cs != [] {
      var init := cs[..|cs| - 1];
      var c := cs[|cs| - 1];
      assert cs == init + [c];
      ConnectionLinksMembership(all, n, init, l);
      assert ConnectionLinks(all, n, cs) == ConnectionLinks(all, n, init) + LinkFor(all, n, c);
      ExistsAppend(init, c, c => IsConnectionLinkOf(all, n, c, l));
    }
  }

  /** A link is derived exactly when some node yields it: the hierarchy link
      of a node with a parent id, or the connection link of one of its
      connection ids that names a node. */
  lemma {:induction false} DeriveLinksMembership(all: seq<Node>, done: seq<Node>, l: Link)
    ensures l in DeriveLinks(all, done) <==> exists n :: n in done && LinkOf(all, n, l)
    decreases |done|
  {
    if done != [] {
      var init := done[..|done| - 1];
      var last := done[|done| - 1];
      assert done == init + [last];
      DeriveLinksMembership(all, init, l);
      assert l in NodeLinks(all, last) <==> LinkOf(all, last, l) by {
        ConnectionLinksMembership(all, last, last.connections, l);
      }
      assert DeriveLinks(all, done) == DeriveLinks(all, init) + NodeLinks(all, last);
      ExistsAppend(init, last, n => LinkOf(all, n, l));
    }
  }

  /** A node with a parent id gives its hierarchy link, whatever else is in the list. */
  lemma HierarchyLinkDerived(all: seq<Node>, k: nat)
    requires k < |all| && IsSet(all[k].parentId)
    ensures Link(all[k].parentId.value, all[k].id, 2, Hierarchy, all[k].timeActive, []) in DeriveLinks(all, all)
  {
    var l := Link(all[k].parentId.value, all[k].id, 2, Hierarchy, all[k].timeActive, []);
    assert LinkOf(all, all[k], l);
    DeriveLinksMembership(all, all, l);
  }

  /** A derived link comes from some node of the list. */
  lemma Producer(all: seq<Node>, l: Link) returns (n: Node)
    requires l in DeriveLinks(all, all)
    ensures n in all && LinkOf(all, n, l)
  {
    DeriveLinksMembership(all, all, l);
    n :| n in all && LinkOf(all, n, l);
  }

  /** Connection links have kind Connection. */
  lemma ConnectionLinkKind(all: seq<Node>, n: Node, l: Link)
    ensures (exists c :: c in n.connections && IsConnectionLinkOf(all, n, c, l)) ==> l.kind == Connection
  {
    if exists c :: c in n.connections && IsConnectionLinkOf(all, n, c, l) {
      var c :| c in n.connections && IsConnectionLinkOf(all, n, c, l);
      assert l == ConnectionLink(n, c, Find(all, c).value);
    }
  }

  /** A derived hierarchy link has value 2, no tags, and the activity of a
      node that names its source as parent and is its target. */
  lemma HierarchyLinkShape(all: seq<Node>, l: Link)
    requires l in DeriveLinks(all, all) && l.kind == Hierarchy
    ensures l.value == 2 && l.tags == []
    ensures exists n :: n in all && n.id == l.target && n.timeActive == l.timeActive
                        && IsSet(n.parentId) && n.parentId.value == l.source
  {
    var n := Producer(all, l);
    ConnectionLinkKind(all, n, l);
    assert IsHierarchyLinkOf(n, l);
  }

  /** A derived connection link has value 1, points at an existing node, and
      carries the smaller activity and the tags of both ends. */
  lemma ConnectionLinkShape(all: seq<Node>, l: Link)
    requires l in DeriveLinks(all, all) && l.kind == Connection
    ensures l.value == 1 && l.target in Ids(all)
    ensures exists n, t :: n in all && t in all && n.id == l.source && t.id == l.target
                           && l.timeActive == Min(n.timeActive, t.timeActive) && l.tags == n.tags + t.tags
  {
    var n := Producer(all, l);
    assert !IsHierarchyLinkOf(n, l);
    var c :| c in n.connections && IsConnectionLinkOf(all, n, c, l);
    var t := Find(all, c).value;
    assert l == ConnectionLink(n, c, t);
  }

  /** A hierarchy link is derived even when no node carries the parent id. */
  lemma DanglingParentLink()
    ensures var n := Node("n", "n", Note, false, Some("gone"), [], [], "space-1", [], 7, "", "", "", false,
                          0.0, 0.0, None, None);
      var l := Link("gone", "n", 2, Hierarchy, 7, []);
      l in DeriveLinks([n], [n]) && "gone" !in Ids([n])
  {
    var n := Node("n", "n", Note, false, Some("gone"), [], [], "space-1", [], 7, "", "", "", false,
                  0.0, 0.0, None, None);
    assert [n][..0] == [];
    assert ConnectionLinks([n], n, []) == [];
    assert DeriveLinks([n], [n]) == [Link("gone", "n", 2, Hierarchy, 7, [])];
  }

  // ---------------------------------------------------------------------
  // How many links are derived
  // ---------------------------------------------------------------------

  /** The connection ids of `n` that name a node of `all`. */
  function Resolved(all: seq<Node>, cs: seq<string>): seq<string>
  {
    Filter(cs, c => c in Ids(all))
  }

  /** The number of resolvable connection ids over the nodes `done`. */
  function ResolvedCount(all: seq<Node>, done: seq<Node>): nat
    decreases |done|
  {
    if done == [] then 0
    else ResolvedCount(all, done[..|done| - 1]) + |Resolved(all, done[|done| - 1].connections)|
  }

  function HasParent(n: Node): bool
  {
    IsSet(n.parentId)
  }

  lemma {:induction false} ConnectionLinksCount(all: seq<Node>, n: Node, cs: seq<string>)
    ensures |ConnectionLinks(all, n, cs)| == |Resolved(all, cs)|
    decreases |cs|
  {
    if cs != [] {
      var init := cs[..|cs| - 1];
      var c := cs[|cs| - 1];
      assert cs == init + [c];
      FilterAppend(init, c, c => c in Ids(all));
      ConnectionLinksCount(all, n, init);
    }
  }

  /** One link per node with a parent id plus one per resolvable connection id. */
  lemma {:induction false} LinkCount(all: seq<Node>, done: seq<Node>)
    ensures |DeriveLinks(all, done)| == |Filter(done, HasParent)| + ResolvedCount(all, done)
    decreases |done|
  {
    if done != [] {
      var init := done[..|done| - 1];
      var last := done[|done| - 1];
      assert done == init + [last];
      FilterAppend(init, last, HasParent);
      ConnectionLinksCount(all, last, last.connections);
      LinkCount(all, init);
    }
  }

  // ---------------------------------------------------------------------
  // The effect that derives the links
  // ---------------------------------------------------------------------

  /** Walks the nodes, pushing each node's hierarchy link and then its
      connection links. */
  method BuildLinks(nodes: seq<Node>) returns (links: seq<Link>)
    ensures links == DeriveLinks(nodes, nodes)
  {
    links := [];
    var i := 0;
    while i < |nodes|
      invariant 0 <= i <= |nodes|
      invariant links == DeriveLinks(nodes, nodes[..i])
    {
      DeriveLinksStep(nodes, nodes, i);
      links := PushNode(nodes, nodes[i], links);
      i := i + 1;
    }
    assert nodes[..i] == nodes;
  }

  lemma DeriveLinksStep(all: seq<Node>, done: seq<Node>, i: nat)
    requires i < |done|
    ensures DeriveLinks(all, done[..i + 1]) == DeriveLinks(all, done[..i]) + NodeLinks(all, done[i])
  {
    assert done[..i + 1][..i] == done[..i];
  }

  /** The body of the outer walk: the hierarchy link of a node with a parent
      id, then the node's connection links. */
  method PushNode(nodes: seq<Node>, node: Node, links0: seq<Link>) returns (links: seq<Link>)
    ensures links == links0 + NodeLinks(nodes, node)
  {
    links := links0;
    if IsSet(node.parentId) {
      links := links + [Link(node.parentId.value, node.id, 2, Hierarchy, node.timeActive, [])];
    } else {
      assert links + HierarchyLinks(node) == links;
    }
    links := PushConnections(nodes, node, links);
  }

  /** The inner walk over one node's connection ids: an id that names a node
      pushes a connection link. */
  method PushConnections(nodes: seq<Node>, node: Node, links0: seq<Link>) returns (links: seq<Link>)
    ensures links == links0 + ConnectionLinks(nodes, node, node.connections)
  {
    links := links0;
    var j := 0;
    while j < |node.connections|
      invariant 0 <= j <= |node.connections|
      invariant links == links0 + ConnectionLinks(nodes, node, node.connections[..j])
    {
      ConnectionLinksStep(nodes, node, node.connections, j);
      links := PushConnection(nodes, node, node.connections[j], links);
      j := j + 1;
    }
    assert node.connections[..j] == node.connections;
  }

  /** One connection id: a link to the node it names, nothing when none does. */
  method PushConnection(nodes: seq<Node>, node: Node, connId: string, links0: seq<Link>) returns (links: seq<Link>)
    ensures links == links0 + LinkFor(nodes, node, connId)
  {
    links := links0;
    var target := Find(nodes, connId);
    if target.Some? {
      links := links + [ConnectionLink(node, connId, target.value)];
    } else {
      assert links + LinkFor(nodes, node, connId) == links;
    }
  }

  lemma ConnectionLinksStep(all: seq<Node>, n: Node, cs: seq<string>, j: nat)
    requires j < |cs|
    ensures ConnectionLinks(all, n, cs[..j + 1]) == ConnectionLinks(all, n, cs[..j]) + LinkFor(all, n, cs[j])
  {
    assert cs[..j + 1][..j] == cs[..j];
  }

  // ---------------------------------------------------------------------
  // The tag list
  // ---------------------------------------------------------------------

  /** Every node's tags, concatenated in node order. */
  function FlatTags(nodes: seq<Node>): seq<string>
    decreases |nodes|
  {
    if nodes == [] then [] else nodes[0].tags + FlatTags(nodes[1..])
  }

  lemma {:induction false} FlatTagsMembership(nodes: seq<Node>, t: string)
    ensures t in FlatTags(nodes) <==> exists n :: n in nodes && t in n.tags
    decreases |nodes|
  {
    if nodes != [] {
      FlatTagsMembership(nodes[1..], t);
      if exists n :: n in nodes && t in n.tags {
        var n :| n in nodes && t in n.tags;
        if n != nodes[0] {
          assert n in nodes[1..];
        }
      }
    }
  }

  /** The tag list offered by the sidebar. */
  function AllTags(nodes: seq<Node>): seq<string>
  {
    Uniq(FlatTags(nodes))
  }

  /** The tag list has no repeats and holds exactly the tags some node carries,
      in order of first appearance. */
  lemma AllTagsExact(nodes: seq<Node>, t: string)
    ensures NoDup(AllTags(nodes))
    ensures t in AllTags(nodes) <==> exists n :: n in nodes && t in n.tags
    ensures forall i, j :: 0 <= i < j < |AllTags(nodes)| ==>
      FirstIndex(FlatTags(nodes), AllTags(nodes)[i]) < FirstIndex(FlatTags(nodes), AllTags(nodes)[j])
  {
    FlatTagsMembership(nodes, t);
    forall i, j | 0 <= i < j < |AllTags(nodes)|
      ensures FirstIndex(FlatTags(nodes), AllTags(nodes)[i]) < FirstIndex(FlatTags(nodes), AllTags(nodes)[j])
    {
      UniqFirstOccurrenceOrder(FlatTags(nodes), i, j);
    }
  }
}
