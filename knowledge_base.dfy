/** The knowledge graph's state and its handlers: the node list, the links
    and tag list derived from it, the spaces, the selection, the tag filter
    and the activity timeline. Every handler replaces the node list by a new
    one; the link effect then re-derives the links and tags. */
module KnowledgeBase {
  import opened Graph
  import opened Seqs
  import opened Links
  import opened Updates
  import Sidebar

  /** One timeline record; the timestamp is left out. */
  datatype Event =
    | Clicked(nodeId: string, timeActive: int)
    | Created(nodeId: string, parentId: Option<string>)
    | Connected(source: string, target: string)
    | Studied(nodeId: string, duration: int)

  /** The four spaces the graph starts with, all empty. */
  function InitialSpaces(): seq<Space>
  {
    [Space("space-1", "Main Space", "#4c8bf5", []),
     Space("space-2", "Projects", "#f5b400", []),
     Space("space-3", "Research", "#0f9d58", []),
     Space("space-4", "Archive", "#db4437", [])]
  }

  /** The ids of the nodes that live in space `spaceId`, in node order. */
  function Members(nodes: seq<Node>, spaceId: string): (r: seq<string>)
    ensures forall s :: s in r <==> exists n :: n in nodes && n.spaceId == spaceId && n.id == s
    ensures r == Ids(Filter(nodes, (n: Node) => n.spaceId == spaceId))
    decreases |nodes|
  {
    if nodes == [] then []
    else (if nodes[0].spaceId == spaceId then [nodes[0].id] else []) + Members(nodes[1..], spaceId)
  }

  /** Every space's member list rebuilt from the nodes' space ids. */
  function WithMembers(spaces: seq<Space>, nodes: seq<Node>): (r: seq<Space>)
    ensures |r| == |spaces|
    ensures forall i :: 0 <= i < |r| ==>
      r[i].id == spaces[i].id && r[i].name == spaces[i].name && r[i].color == spaces[i].color
      && r[i].nodes == Members(nodes, spaces[i].id)
  {
    seq(|spaces|, i requires 0 <= i < |spaces| => spaces[i].(nodes := Members(nodes, spaces[i].id)))
  }

  /** The timeline record of a click: the node's activity before the click,
      0 when no node has the id. */
  function ClickEvent(nodes: seq<Node>, id: string): Event
  {
    Clicked(id, match Find(nodes, id) case Some(n) => n.timeActive case None => 0)
  }

  class KnowledgeBase {
    var spaces: seq<Space>
    var activeSpace: string
    var nodes: seq<Node>
    var links: seq<Link>
    var tags: seq<string>
    var timeline: seq<Event>
    /** The id of the selected node, if any. */
    var selection: Option<string>
    var filterTags: seq<string>

    /** Once there are nodes, the links and the tag list are the ones derived
        from them. */
    ghost predicate Valid()
      reads this
    {
      nodes != [] ==> links == DeriveLinks(nodes, nodes) && tags == AllTags(nodes)
    }

    /** The initial state followed by the one-time load: the sample nodes and
        timeline, each space listing the sample nodes it holds, and the
        links and tags derived from the sample. */
    constructor(sample: seq<Node>, sampleTimeline: seq<Event>)
      ensures Valid()
      ensures nodes == sample && timeline == sampleTimeline
      ensures spaces == WithMembers(InitialSpaces(), sample) && activeSpace == "space-1"
      ensures selection == None && filterTags == []
      ensures sample == [] ==> links == [] && tags == []
    {
      spaces := WithMembers(InitialSpaces(), sample);
      activeSpace := "space-1";
      nodes := sample;
      links := [];
      tags := [];
      timeline := sampleTimeline;
      selection := None;
      filterTags := [];
      new;
      DeriveEffect();
    }

    /** The effect run after every change of the node list: with no nodes it
        does nothing, otherwise it rebuilds the links and the tag list. */
    method DeriveEffect()
      modifies this
      ensures Valid()
      ensures nodes != [] ==> links == DeriveLinks(nodes, nodes) && tags == AllTags(nodes)
      ensures nodes == [] ==> links == old(links) && tags == old(tags)
      ensures nodes == old(nodes) && spaces == old(spaces) && activeSpace == old(activeSpace)
      ensures timeline == old(timeline) && selection == old(selection) && filterTags == old(filterTags)
    {
      if nodes == [] {
        return;
      }
      links := BuildLinks(nodes);
      tags := AllTags(nodes);
    }

    /** The effect run when the selection changes: with a selected node, the
        nodes carrying its id are flagged and all others unflagged. */
    method SelectionEffect()
      modifies this
      ensures selection.Some? ==> nodes == MarkSelected(old(nodes), selection.value)
      ensures selection.None? ==> nodes == old(nodes)
      ensures links == old(links) && tags == old(tags) && spaces == old(spaces)
      ensures activeSpace == old(activeSpace) && timeline == old(timeline)
      ensures selection == old(selection) && filterTags == old(filterTags)
    {
      if selection.None? {
        return;
      }
      nodes := MarkSelected(nodes, selection.value);
    }

    /** The graph view's selection: a click on a node selects it, a click on
        the background clears the selection. Clearing does not run the
        flagging, so the last selected node stays flagged. */
    method Select(sel: Option<string>)
      modifies this
      ensures Valid() && selection == sel
      ensures sel.Some? ==> nodes == MarkSelected(old(nodes), sel.value)
      ensures sel.Some? ==> forall i :: 0 <= i < |nodes| ==> (nodes[i].selected <==> nodes[i].id == sel.value)
      ensures sel.None? ==> nodes == old(nodes)
      ensures spaces == old(spaces) && activeSpace == old(activeSpace)
      ensures timeline == old(timeline) && filterTags == old(filterTags)
    {
      selection := sel;
      SelectionEffect();
      DeriveEffect();
      if sel.Some? {
        SelectionExact(old(nodes), sel.value);
      }
    }

    /** A click on node `id`: the node becomes the selection (none when no node
        has the id), its activity and its parents' are updated, the click is
        logged, and the effects run. */
    method HandleNodeClick(id: string, now: string)
      modifies this
      ensures Valid()
      ensures id in Ids(old(nodes)) ==>
        selection == Some(id) && nodes == MarkSelected(ClickUpdate(old(nodes), id, now), id)
      ensures id !in Ids(old(nodes)) ==> selection == None && nodes == ClickUpdate(old(nodes), id, now)
      ensures |nodes| == |old(nodes)|
      ensures id in Ids(old(nodes)) ==> forall i :: 0 <= i < |nodes| ==> (nodes[i].selected <==> nodes[i].id == id)
      ensures timeline == old(timeline) + [ClickEvent(old(nodes), id)]
      ensures spaces == old(spaces) && activeSpace == old(activeSpace) && filterTags == old(filterTags)
    {
      var found := Find(nodes, id);
      timeline := timeline + [ClickEvent(nodes, id)];
      nodes := ClickUpdate(nodes, id, now);
      if found.Some? {
        selection := Some(found.value.id);
      } else {
        selection := None;
      }
      // The link effect also runs between the two updates; only its last run
      // leaves a trace.
      SelectionEffect();
      DeriveEffect();
      SelectionExact(ClickUpdate(old(nodes), id, now), id);
    }

    /** Adds a node called `name` of kind `kind`, with id "node-" + `stamp`, to
        the active space, as a child of the selected node if there is one. A
        blank name changes nothing. */
    method AddNode(name: string, kind: Kind, stamp: string, now: string)
      requires Valid()
      modifies this
      ensures Valid()
      ensures IsBlank(name) ==>
        nodes == old(nodes) && spaces == old(spaces) && timeline == old(timeline)
        && links == old(links) && tags == old(tags)
      ensures !IsBlank(name) ==>
        var newId := "node-" + stamp;
        nodes == InsertNode(old(nodes), NewNode(newId, name, kind, old(selection), old(activeSpace), now), old(selection))
        && spaces == AddToSpace(old(spaces), old(activeSpace), newId)
        && timeline == old(timeline) + [Created(newId, ParentOf(old(selection)))]
        && |nodes| == |old(nodes)| + 1 && nodes[|old(nodes)|].id == newId
      ensures !IsBlank(name) && old(selection).Some? && old(selection).value != ""
              && old(selection).value != "node-" + stamp ==>
        Link(old(selection).value, "node-" + stamp, 2, Hierarchy, 0, []) in links
      ensures selection == old(selection) && activeSpace == old(activeSpace) && filterTags == old(filterTags)
    {
      if IsBlank(name) {
        return;
      }
      var newId := "node-" + stamp;
      var nn := NewNode(newId, name, kind, selection, activeSpace, now);
      nodes := InsertNode(nodes, nn, selection);
      spaces := AddToSpace(spaces, activeSpace, newId);
      timeline := timeline + [Created(newId, ParentOf(selection))];
      DeriveEffect();
      InsertNodeShape(old(nodes), nn, old(selection));
      if selection.Some? && selection.value != "" && selection.value != newId {
        InsertLinksToParent(old(nodes), newId, name, kind, selection.value, old(activeSpace), now);
      }
    }

    /** Connects `source` to `target`; connecting a node to itself does
        nothing and is not logged. */
    method ConnectNodes(source: string, target: string)
      requires Valid()
      modifies this
      ensures Valid()
      ensures source == target ==>
        nodes == old(nodes) && timeline == old(timeline) && links == old(links) && tags == old(tags)
      ensures source != target ==>
        nodes == Connect(old(nodes), source, target) && timeline == old(timeline) + [Connected(source, target)]
      ensures source != target && source in Ids(old(nodes)) && target in Ids(old(nodes)) ==>
        exists l :: l in links && l.source == source && l.target == target && l.kind == Connection
      ensures spaces == old(spaces) && selection == old(selection)
      ensures activeSpace == old(activeSpace) && filterTags == old(filterTags)
    {
      if source == target {
        return;
      }
      nodes := Connect(nodes, source, target);
      timeline := timeline + [Connected(source, target)];
      DeriveEffect();
      if source in Ids(old(nodes)) && target in Ids(old(nodes)) {
        var k :| 0 <= k < |old(nodes)| && Ids(old(nodes))[k] == source;
        ConnectYieldsLink(old(nodes), source, target, k);
      }
    }

    /** Logs `duration` minutes of study on node `id`: the node and the parents
        listing it gain the duration, so the total grows by it once per
        credited node. */
    method AddStudySession(id: string, duration: int, now: string)
      modifies this
      ensures Valid()
      ensures nodes == Study(old(nodes), id, duration, now)
      ensures Sidebar.TotalTime(nodes) == Sidebar.TotalTime(old(nodes)) + duration * Credited(old(nodes), id)
      ensures timeline == old(timeline) + [Studied(id, duration)]
      ensures spaces == old(spaces) && selection == old(selection)
      ensures activeSpace == old(activeSpace) && filterTags == old(filterTags)
    {
      nodes := Study(nodes, id, duration, now);
      timeline := timeline + [Studied(id, duration)];
      DeriveEffect();
      StudyTotal(old(nodes), id, duration, now);
    }

    /** A tag button: the tag is switched in or out of the tag filter. */
    method ToggleFilterTag(tag: string)
      modifies this
      ensures filterTags == Sidebar.ToggleTag(old(filterTags), tag)
      ensures tag in filterTags <==> tag !in old(filterTags)
      ensures forall t :: t != tag ==> (t in filterTags <==> t in old(filterTags))
      ensures nodes == old(nodes) && links == old(links) && tags == old(tags) && spaces == old(spaces)
      ensures selection == old(selection) && activeSpace == old(activeSpace) && timeline == old(timeline)
    {
      filterTags := Sidebar.ToggleTag(filterTags, tag);
      Sidebar.ToggleMembership(old(filterTags), tag);
    }

    /** Adds an empty space with id "space-" + `stamp` and a six-digit colour
        made from the random draw. */
    method AddNewSpace(stamp: string, draw: nat)
      requires draw < Sidebar.ColorDraws
      modifies this
      ensures spaces == Sidebar.AddNewSpace(old(spaces), "space-" + stamp, Sidebar.PaddedColor(draw))
      ensures |spaces| == |old(spaces)| + 1 && spaces[..|old(spaces)|] == old(spaces)
      ensures |spaces[|old(spaces)|].color| == 7
      ensures nodes == old(nodes) && links == old(links) && tags == old(tags) && timeline == old(timeline)
      ensures selection == old(selection) && activeSpace == old(activeSpace) && filterTags == old(filterTags)
    {
      spaces := Sidebar.AddNewSpace(spaces, "space-" + stamp, Sidebar.PaddedColor(draw));
      Sidebar.AddNewSpaceAppends(old(spaces), "space-" + stamp, Sidebar.PaddedColor(draw));
      Sidebar.PaddedColorWellFormed(draw);
    }

    /** The sidebar's study-time figure for the current nodes. */
    function StudyHours(): (h: int)
      reads this
      ensures 60 * h <= Sidebar.TotalTime(nodes) < 60 * h + 60
    {
      Sidebar.StudyHoursIsFloor(nodes);
      Sidebar.StudyHours(nodes)
    }
  }
}
