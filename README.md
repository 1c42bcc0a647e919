# SecondBrain knowledge graph: a Dafny model

This project models the core of the SecondBrain "enhanced knowledge graph": a
personal knowledge base made of notes, concepts and parent nodes, grouped into
spaces, with a D3 graph view. The model covers three parts, and every operation
has a verified contract.

- **The state and handlers** (`EnhancedKnowledgeGraph.jsx`, modelled in the
  class `KnowledgeBase.KnowledgeBase`). This covers the node list, and the
  links and tag list derived from it after every change. It also covers the
  selection, the spaces, the tag filter and the activity timeline. The
  handlers are: selecting a node, clicking it, adding a node, connecting two
  nodes, logging a study session, toggling a filter tag and adding a space.
- **The graph view's logic** (`GraphVisualizer.jsx`):
  - the tag and search filters, and the drawn and partial links;
  - the clusters layout and the radial layout, which pin nodes in place on an
    array of nodes;
  - circle radii, label offsets, the pulse ring, tag dots, label truncation
    and the "Xh Ym" time text;
  - the hover highlight;
  - the double-click and drag handlers, which pin and release a node.
- **The sidebar's logic** (`Sidebar.jsx`): the tag toggle, adding a space
  with a random colour, and the study-time figure.

Modules, one per file:

| module | file | contents |
|---|---|---|
| `Seqs` | seqs.dfy | subsequences, `Filter`, `Uniq` (lodash `_.uniq`) |
| `Graph` | graph.dfy | `Node`, `Link`, `Space`, `Ids`, `Find` (`Array.prototype.find` by id) |
| `Filters` | filters.dfy | tag filter, search filter, drawn/partial link classification |
| `Layout` | layout.dfy | clusters grid layout and radial layout (array methods) |
| `Visuals` | visuals.dfy | radius tiers, offsets, pulse ring, tag dots, labels, time text, hover |
| `Interaction` | interaction.dfy | double-click and drag pin handlers |
| `Links` | links.dfy | the link/tag derivation effect and its loop |
| `Updates` | updates.dfy | the node-list updates of the handlers, as functions |
| `Sidebar` | sidebar.dfy | tag toggle, new space, colour, study hours |
| `KnowledgeBase` | knowledge_base.dfy | the stateful component as a class |

The handlers replace the node list by a new one, built with `map`. Those
updates are specification functions in `Updates`. The class methods assign
their results to the `nodes` field. After each change of `nodes`, the class
runs the link effect (`DeriveEffect`), which keeps the invariant `Valid()`:
once there are nodes, `links` and `tags` are the ones derived from them. The
link effect's loop is `Links.BuildLinks`, proved equal to `Links.DeriveLinks`.
The layouts and pointer handlers mutate node objects in place, so they work
on an `array<Node>`.

Several quirks of the source are kept as written and stated as lemmas:

- A click recomputes a parent's time from the children's times before the
  click, so the parent misses the click's own 5 minutes (`ClickParentLags`).
- A study session credits only direct parents (`StudySkipsGrandparent`).
- A pin at coordinate 0 is falsy, so a double-click pins it again instead of
  releasing it (`ZeroPinIsNotReleased`).
- The pulse ring has no tier for long activity (`PulseSkipsActivityTier`).
- Hierarchy links are derived even for a parent id that no node has
  (`DanglingParentLink`).
- Clearing the selection leaves the last selected node flagged (`Select`).
- A selected node with the empty id still gets the child, but the child gets
  no parent (`EmptySelectedId`).

## Model

| member | source | states |
|---|---|---|
| Graph.Ids | src/components/EnhancedKnowledgeGraph/GraphVisualizer.jsx:65 | the id list has one entry per node, in order, and contains exactly the ids some node carries |
| Graph.Find | src/components/EnhancedKnowledgeGraph/EnhancedKnowledgeGraph.jsx:66 | a found node is in the list and has the id; nothing is found exactly when no node has the id |
| Graph.FindFirst | src/components/EnhancedKnowledgeGraph/EnhancedKnowledgeGraph.jsx:66 | when some node has the id, the node found is the first one with it: no earlier node has the id |
| Graph.FindUnique | src/components/EnhancedKnowledgeGraph/GraphVisualizer.jsx:350 | with distinct ids, looking up a node's id finds that node |
| Filters.TagMatch | src/components/EnhancedKnowledgeGraph/GraphVisualizer.jsx:59-60 | a node passes the tag filter when one of its tags is a filtered tag |
| Filters.SearchMatch | src/components/EnhancedKnowledgeGraph/GraphVisualizer.jsx:76-88 | a node matches the query when the lower-cased query is in its lower-cased name, truthy notes or a tag |
| Filters.Visible | src/components/EnhancedKnowledgeGraph/GraphVisualizer.jsx:56-90 | a node is shown when it passes the tag filter (if any) and matches the query (if any) |
| Filters.TagFilter | src/components/EnhancedKnowledgeGraph/GraphVisualizer.jsx:56-62 | an empty tag filter keeps every node; otherwise a node is kept iff it has a filtered tag, with all its copies, and order is preserved |
| Filters.ContainsIffOccurs | src/components/EnhancedKnowledgeGraph/GraphVisualizer.jsx:77-79 | the substring test holds iff the needle occurs at some position of the haystack |
| Filters.SearchMatchMeaning | src/components/EnhancedKnowledgeGraph/GraphVisualizer.jsx:76-89 | a node matches iff the lower-cased query occurs in its lower-cased name, non-empty notes or one of its tags |
| Filters.SearchIgnoresQueryCase | src/components/EnhancedKnowledgeGraph/GraphVisualizer.jsx:77-87 | lower-casing the query does not change which nodes match |
| Filters.SearchFilter | src/components/EnhancedKnowledgeGraph/GraphVisualizer.jsx:75-90 | an empty query keeps every node; otherwise a node is kept iff it matches, with all its copies, and order is preserved |
| Filters.ComputeView | src/components/EnhancedKnowledgeGraph/GraphVisualizer.jsx:56-100 | visible nodes are exactly the nodes passing both filters, in order; drawn links are exactly the links with both ends visible; partial links (only with a filter active) are exactly the links with one end visible |
| Filters.ViewCounts | src/components/EnhancedKnowledgeGraph/GraphVisualizer.jsx:56-100 | the view keeps every copy of each visible node, drawn link and partial link and no copy of anything else |
| Filters.TwoStageLinks | src/components/EnhancedKnowledgeGraph/GraphVisualizer.jsx:66-100 | filtering links by the tag stage and then the search stage equals filtering once by the search stage's nodes |
| Filters.ClassificationDisjoint | src/components/EnhancedKnowledgeGraph/GraphVisualizer.jsx:461-470 | no link is both drawn and partial; a link with no visible end is neither |
| Filters.NoFilterShowsAll | src/components/EnhancedKnowledgeGraph/GraphVisualizer.jsx:56-62 | with no tag filter and no query all nodes are visible and no link is partial |
| Filters.TagFilterScenario | src/components/EnhancedKnowledgeGraph/GraphVisualizer.jsx:461-470 | filtering on tag x hides the y-tagged end of a link, which becomes partial instead of drawn |
| Filters.SearchScenario | src/components/EnhancedKnowledgeGraph/GraphVisualizer.jsx:77-79 | the query "NOTE" finds a node named "note-1" |
| Layout.GroupKey | src/components/EnhancedKnowledgeGraph/GraphVisualizer.jsx:120-123 | a node's cluster is its first tag, or "untagged" when it has none |
| Layout.ClusterCell | src/components/EnhancedKnowledgeGraph/GraphVisualizer.jsx:130-132 | a node's cell is the row and column of its group's index in a grid of GridSize sides |
| Layout.ClusterPinned | src/components/EnhancedKnowledgeGraph/GraphVisualizer.jsx:133-140 | a clustered node is pinned at its cell's centre plus noise spread over 80% of the cell |
| Layout.IsRoot | src/components/EnhancedKnowledgeGraph/GraphVisualizer.jsx:154-155 | a root is a node without a truthy parent id |
| Layout.RootRank | src/components/EnhancedKnowledgeGraph/GraphVisualizer.jsx:159 | a root's index among the roots is the number of roots before it |
| Layout.RootPinned | src/components/EnhancedKnowledgeGraph/GraphVisualizer.jsx:159-164 | a root is pinned at the spot of its rank on a circle of all roots |
| Layout.GroupKeys | src/components/EnhancedKnowledgeGraph/GraphVisualizer.jsx:120-123 | the group keys (first tag, or "untagged") are distinct, cover every node, and each belongs to some node |
| Layout.GroupKeysOrder | src/components/EnhancedKnowledgeGraph/GraphVisualizer.jsx:120-130 | groups are numbered in the order their first node appears, so an earlier group gets an earlier cell |
| Layout.GridSize | src/components/EnhancedKnowledgeGraph/GraphVisualizer.jsx:124-126 | the grid side is the least g >= 1 with g*g at least the group count (the ceiling of the square root) |
| Layout.CellInGrid | src/components/EnhancedKnowledgeGraph/GraphVisualizer.jsx:131-132 | a group's row and column lie inside the grid |
| Layout.CellsDistinct | src/components/EnhancedKnowledgeGraph/GraphVisualizer.jsx:131-132 | two different groups get two different cells |
| Layout.SameCellIffSameGroup | src/components/EnhancedKnowledgeGraph/GraphVisualizer.jsx:130-136 | two nodes share a cell iff they share a group key |
| Layout.CellCoordInCell | src/components/EnhancedKnowledgeGraph/GraphVisualizer.jsx:133-140 | a pin coordinate lies in the central 80% of its cell |
| Layout.ClusterPinInCell | src/components/EnhancedKnowledgeGraph/GraphVisualizer.jsx:133-140 | every node the clusters layout pins lies strictly inside its group's cell |
| Layout.ApplyClusters | src/components/EnhancedKnowledgeGraph/GraphVisualizer.jsx:120-142 | after the layout each node is pinned inside its group's cell, and nothing else about it changes |
| Layout.PinGroup | src/components/EnhancedKnowledgeGraph/GraphVisualizer.jsx:136-141 | one group's pass pins exactly that group's members and leaves the other nodes alone |
| Layout.RootRanksDistinct | src/components/EnhancedKnowledgeGraph/GraphVisualizer.jsx:154-160 | an earlier root gets a smaller rank, so roots get distinct angles |
| Layout.RootRankBelowCount | src/components/EnhancedKnowledgeGraph/GraphVisualizer.jsx:158-160 | each root's rank is below the number of roots, so angles stay within one turn |
| Layout.RootRankStep | src/components/EnhancedKnowledgeGraph/GraphVisualizer.jsx:159 | the rank grows by one exactly after each root |
| Layout.ApplyRadial | src/components/EnhancedKnowledgeGraph/GraphVisualizer.jsx:154-170 | root i of the roots is pinned at spot i of their count; every other node is released |
| Layout.PinRoots | src/components/EnhancedKnowledgeGraph/GraphVisualizer.jsx:159-164 | each root is pinned at its rank's spot and other nodes are untouched |
| Layout.FreeOthers | src/components/EnhancedKnowledgeGraph/GraphVisualizer.jsx:167-170 | every non-root is released and roots are untouched |
| Visuals.Radius | src/components/EnhancedKnowledgeGraph/GraphVisualizer.jsx:250-255 | defines the circle radius: 25 for parents, 20 for more than two connections, 18 above an hour of activity, 12 otherwise |
| Visuals.LabelOffset | src/components/EnhancedKnowledgeGraph/GraphVisualizer.jsx:325-330 | the label sits 8 above the circle of each tier |
| Visuals.TagDotOffset | src/components/EnhancedKnowledgeGraph/GraphVisualizer.jsx:349-355 | the tag dots sit 10 below the circle of each tier |
| Visuals.TimeOffset | src/components/EnhancedKnowledgeGraph/GraphVisualizer.jsx:370-375 | the time text sits 20 below the circle of each tier |
| Visuals.PulseRadius | src/components/EnhancedKnowledgeGraph/GraphVisualizer.jsx:308-312 | defines the pulse ring radius: 30 for parents, 25 for more than two connections, 20 otherwise |
| Visuals.TagDots | src/components/EnhancedKnowledgeGraph/GraphVisualizer.jsx:344-348 | a node's tag dots are its first three tags at horizontal offsets (i - 1) * 10 |
| Visuals.Label | src/components/EnhancedKnowledgeGraph/GraphVisualizer.jsx:336 | a name over 20 characters is shown as its first 18 and "..." |
| Visuals.Decimal | src/components/EnhancedKnowledgeGraph/GraphVisualizer.jsx:382 | base-10 text of a natural number |
| Visuals.TimeText | src/components/EnhancedKnowledgeGraph/GraphVisualizer.jsx:380-383 | the time text: empty below one minute, otherwise "<hours>h <minutes>m" with floor hours and leftover minutes |
| Visuals.HoverIds | src/components/EnhancedKnowledgeGraph/GraphVisualizer.jsx:421-426 | the ids lit while hovering a node: itself, its connections, its parent and its children, without falsy ones |
| Visuals.NodeLit | src/components/EnhancedKnowledgeGraph/GraphVisualizer.jsx:428-430 | a node is at full opacity when its id is among the hover ids |
| Visuals.LinkLit | src/components/EnhancedKnowledgeGraph/GraphVisualizer.jsx:431-435 | a link is emphasised when one of its ends is the hovered node |
| Visuals.RadiusTiers | src/components/EnhancedKnowledgeGraph/GraphVisualizer.jsx:250-255 | a radius is one of 12, 18, 20, 25, and 25 exactly for parents |
| Visuals.ParentIsLargest | src/components/EnhancedKnowledgeGraph/GraphVisualizer.jsx:250-255 | a parent's circle is at least as large as any node's, and larger than any non-parent's |
| Visuals.OffsetsFollowRadius | src/components/EnhancedKnowledgeGraph/GraphVisualizer.jsx:325-330 | the label sits 8 above the circle, the tag dots 10 below and the time text 20 below (also lines 349-355 and 370-375) |
| Visuals.PulseSkipsActivityTier | src/components/EnhancedKnowledgeGraph/GraphVisualizer.jsx:308-312 | the pulse ring is 5 wider than the circle in the two top tiers, a fixed 20 otherwise (only 2 wider than an 18 circle), and always encloses the circle |
| Visuals.TagDotUsesOwnRadius | src/components/EnhancedKnowledgeGraph/GraphVisualizer.jsx:349-355 | with distinct visible ids a tag dot is placed from its own node's radius |
| Visuals.TagDotsLayout | src/components/EnhancedKnowledgeGraph/GraphVisualizer.jsx:344-348 | at most three dots, for the leading tags, at increasing offsets -10, 0, 10 |
| Visuals.LabelShape | src/components/EnhancedKnowledgeGraph/GraphVisualizer.jsx:336 | a label has at most 21 characters; names up to 20 are kept; longer names keep their first 18 and end in "..." |
| Visuals.LabelIdempotent | src/components/EnhancedKnowledgeGraph/GraphVisualizer.jsx:336 | labelling a label changes nothing |
| Visuals.DecimalRoundTrip | src/components/EnhancedKnowledgeGraph/GraphVisualizer.jsx:382 | a number's decimal text reads back as the number |
| Visuals.TimeTextRoundTrip | src/components/EnhancedKnowledgeGraph/GraphVisualizer.jsx:380-383 | under one minute the text is empty; otherwise it reads back as hours and minutes with minutes below 60 that make up the activity, so the hours are its floor over 60 |
| Visuals.HoverAdjacency | src/components/EnhancedKnowledgeGraph/GraphVisualizer.jsx:421-430 | a node with a non-empty id stays lit iff it is the hovered node, a connection, the parent or a child of it |
| Visuals.HoverLinkEndDimmed | src/components/EnhancedKnowledgeGraph/GraphVisualizer.jsx:421-435 | a link into the hovered node is emphasised while its other end, which lists the hovered node as a connection, stays dimmed |
| Interaction.Handle | src/components/EnhancedKnowledgeGraph/GraphVisualizer.jsx:227-231 | defines each handler: double-click toggles each pin on its truthiness, drag start pins at the position, a move pins at the pointer, release unpins unless Ctrl is held (lines 402-417) |
| Interaction.Replay | src/components/EnhancedKnowledgeGraph/GraphVisualizer.jsx:402-417 | the node after a sequence of pointer events, handled in order |
| Interaction.HandleOnlyMovesPin | src/components/EnhancedKnowledgeGraph/GraphVisualizer.jsx:227-231 | a pointer handler changes only the node's pin (also lines 402-417) |
| Interaction.ReplayOnlyMovesPin | src/components/EnhancedKnowledgeGraph/GraphVisualizer.jsx:402-417 | any sequence of gestures changes only the pin |
| Interaction.DoubleClickToggles | src/components/EnhancedKnowledgeGraph/GraphVisualizer.jsx:227-231 | each coordinate is released when its pin is truthy and pinned at the current position otherwise |
| Interaction.ZeroPinIsNotReleased | src/components/EnhancedKnowledgeGraph/GraphVisualizer.jsx:229 | a pin at 0 is not released by a double-click but re-pinned at the current position |
| Interaction.DoubleClickTwiceFrees | src/components/EnhancedKnowledgeGraph/GraphVisualizer.jsx:227-231 | away from 0, two double-clicks on a free node leave it as it was |
| Interaction.DoubleClickAfterPresses | src/components/EnhancedKnowledgeGraph/GraphVisualizer.jsx:227-231 | with the two press/release pairs that precede a double-click, the double-click always pins the node where it stands |
| Interaction.DragKeepsPinned | src/components/EnhancedKnowledgeGraph/GraphVisualizer.jsx:402-410 | during a drag the node is pinned at the last pointer position (its position when there was no move) |
| Interaction.DragGesture | src/components/EnhancedKnowledgeGraph/GraphVisualizer.jsx:402-417 | a whole drag ends pinned iff Ctrl was held on release, and then at the last pointer position |
| Interaction.ReplayAppend | src/components/EnhancedKnowledgeGraph/GraphVisualizer.jsx:402-417 | gestures compose: replaying two sequences one after the other is replaying their concatenation |
| Interaction.OnGesture | src/components/EnhancedKnowledgeGraph/GraphVisualizer.jsx:227-231 | the handled node is updated in place and every other node of the array is untouched |
| Links.HierarchyLinks | src/components/EnhancedKnowledgeGraph/EnhancedKnowledgeGraph.jsx:54-62 | a node with a truthy parent id yields one link from the parent, value 2, carrying its activity |
| Links.LinkFor | src/components/EnhancedKnowledgeGraph/EnhancedKnowledgeGraph.jsx:66-76 | a connection id yields one link, value 1, when some node has that id, with the lesser activity and both nodes' tags |
| Links.ConnectionLinks | src/components/EnhancedKnowledgeGraph/EnhancedKnowledgeGraph.jsx:64-78 | a node's connection links, one per resolving connection id in order |
| Links.NodeLinks | src/components/EnhancedKnowledgeGraph/EnhancedKnowledgeGraph.jsx:54-78 | a node's links: its hierarchy link, then its connection links |
| Links.DeriveLinks | src/components/EnhancedKnowledgeGraph/EnhancedKnowledgeGraph.jsx:52-79 | defines the derived link list: every node's links, in node order |
| Links.AllTags | src/components/EnhancedKnowledgeGraph/EnhancedKnowledgeGraph.jsx:83-85 | defines the tag list: every node's tags flattened, with repeats dropped |
| Links.ConnectionLinksMembership | src/components/EnhancedKnowledgeGraph/EnhancedKnowledgeGraph.jsx:64-78 | a node's connection links are exactly one link per connection id that names an existing node |
| Links.DeriveLinksMembership | src/components/EnhancedKnowledgeGraph/EnhancedKnowledgeGraph.jsx:52-79 | a link is derived iff it is the hierarchy link or a connection link of some node |
| Links.HierarchyLinkDerived | src/components/EnhancedKnowledgeGraph/EnhancedKnowledgeGraph.jsx:54-62 | a node with a truthy parent id yields the link parent to node with value 2 and the node's activity |
| Links.Producer | src/components/EnhancedKnowledgeGraph/EnhancedKnowledgeGraph.jsx:52-79 | every derived link comes from some node of the list |
| Links.ConnectionLinkKind | src/components/EnhancedKnowledgeGraph/EnhancedKnowledgeGraph.jsx:68-75 | connection links have kind connection |
| Links.HierarchyLinkShape | src/components/EnhancedKnowledgeGraph/EnhancedKnowledgeGraph.jsx:55-61 | a derived hierarchy link has value 2, no tags, and a target node whose activity it carries |
| Links.ConnectionLinkShape | src/components/EnhancedKnowledgeGraph/EnhancedKnowledgeGraph.jsx:66-75 | a derived connection link has value 1 and both its source and its target are existing nodes |
| Links.DanglingParentLink | src/components/EnhancedKnowledgeGraph/EnhancedKnowledgeGraph.jsx:54-62 | a hierarchy link is derived even when no node has the parent id |
| Links.ConnectionLinksCount | src/components/EnhancedKnowledgeGraph/EnhancedKnowledgeGraph.jsx:65-77 | a node yields as many connection links as its connection ids that resolve |
| Links.LinkCount | src/components/EnhancedKnowledgeGraph/EnhancedKnowledgeGraph.jsx:52-79 | the number of links is the number of nodes with a parent plus the number of resolving connections |
| Links.BuildLinks | src/components/EnhancedKnowledgeGraph/EnhancedKnowledgeGraph.jsx:52-81 | the effect's loop builds exactly the derived link list |
| Links.DeriveLinksStep | src/components/EnhancedKnowledgeGraph/EnhancedKnowledgeGraph.jsx:53 | one more node appends exactly that node's links |
| Links.PushNode | src/components/EnhancedKnowledgeGraph/EnhancedKnowledgeGraph.jsx:54-78 | one iteration appends the node's hierarchy link and then its connection links |
| Links.PushConnections | src/components/EnhancedKnowledgeGraph/EnhancedKnowledgeGraph.jsx:64-78 | the inner loop appends exactly the node's connection links |
| Links.PushConnection | src/components/EnhancedKnowledgeGraph/EnhancedKnowledgeGraph.jsx:66-76 | one connection id appends its link iff it names an existing node |
| Links.ConnectionLinksStep | src/components/EnhancedKnowledgeGraph/EnhancedKnowledgeGraph.jsx:65 | one more connection id appends exactly that id's link |
| Links.FlatTagsMembership | src/components/EnhancedKnowledgeGraph/EnhancedKnowledgeGraph.jsx:84 | a tag is in the flattened list iff some node carries it |
| Links.AllTagsExact | src/components/EnhancedKnowledgeGraph/EnhancedKnowledgeGraph.jsx:83-85 | the tag list has no repeats, holds exactly the tags some node carries, and lists them in order of first appearance |
| Seqs.FilterCounts | src/components/EnhancedKnowledgeGraph/GraphVisualizer.jsx:58-61 | filtering keeps every copy of each passing element and none of the others |
| Seqs.UniqFirstOccurrenceOrder | src/components/EnhancedKnowledgeGraph/EnhancedKnowledgeGraph.jsx:84 | de-duplication keeps first occurrences in their original order |
| Updates.MarkSelected | src/components/EnhancedKnowledgeGraph/EnhancedKnowledgeGraph.jsx:113-118 | flags each node by whether it has the selected id |
| Updates.ChildTime | src/components/EnhancedKnowledgeGraph/EnhancedKnowledgeGraph.jsx:139-145 | sums the activity of the listed children, a missing child counting 0 |
| Updates.ClickUpdate | src/components/EnhancedKnowledgeGraph/EnhancedKnowledgeGraph.jsx:129-150 | defines the click update of every node |
| Updates.IsBlank | src/components/EnhancedKnowledgeGraph/EnhancedKnowledgeGraph.jsx:165 | a name that trims to the empty string |
| Updates.ParentOf | src/components/EnhancedKnowledgeGraph/EnhancedKnowledgeGraph.jsx:171 | the new node's parent is the selected id when it is truthy |
| Updates.NewNode | src/components/EnhancedKnowledgeGraph/EnhancedKnowledgeGraph.jsx:168-182 | defines the fresh node: no activity, children, connections or tags, in the active space |
| Updates.InsertNode | src/components/EnhancedKnowledgeGraph/EnhancedKnowledgeGraph.jsx:184-199 | defines the insertion: append, then list the new id as the selected node's child |
| Updates.AddToSpace | src/components/EnhancedKnowledgeGraph/EnhancedKnowledgeGraph.jsx:202-212 | defines the space update: the active space gains the new id |
| Updates.Connect | src/components/EnhancedKnowledgeGraph/EnhancedKnowledgeGraph.jsx:229-243 | defines the connect update: the source gains the target unless the ids are equal or it is listed |
| Updates.Gains | src/components/EnhancedKnowledgeGraph/EnhancedKnowledgeGraph.jsx:260-268 | the nodes a session credits: the node itself and the parents listing it |
| Updates.Study | src/components/EnhancedKnowledgeGraph/EnhancedKnowledgeGraph.jsx:257-272 | defines the study update of every node |
| Updates.Credited | src/components/EnhancedKnowledgeGraph/EnhancedKnowledgeGraph.jsx:257-272 | the number of nodes a session credits |
| Updates.SelectionExact | src/components/EnhancedKnowledgeGraph/EnhancedKnowledgeGraph.jsx:111-119 | only the selection flags change, and a node is flagged iff it has the selected id |
| Updates.SingleSelection | src/components/EnhancedKnowledgeGraph/EnhancedKnowledgeGraph.jsx:113-118 | with distinct ids at most one node is flagged |
| Updates.SameStructureIds | src/components/EnhancedKnowledgeGraph/EnhancedKnowledgeGraph.jsx:49-86 | lists with the same structure have the same ids |
| Updates.LinkCountKept | src/components/EnhancedKnowledgeGraph/EnhancedKnowledgeGraph.jsx:49-86 | an update that keeps ids, parents and connections keeps the number of derived links |
| Updates.ClickEffects | src/components/EnhancedKnowledgeGraph/EnhancedKnowledgeGraph.jsx:129-150 | the clicked node gains 5 minutes and is stamped with the click time; each parent listing it takes its children's pre-click total and changes nothing else; every other node is kept |
| Updates.ClickParentLags | src/components/EnhancedKnowledgeGraph/EnhancedKnowledgeGraph.jsx:137-146 | after a click on an only child, the parent is 5 minutes behind the child's new total |
| Updates.InsertNodeShape | src/components/EnhancedKnowledgeGraph/EnhancedKnowledgeGraph.jsx:184-199 | exactly one node is appended; earlier nodes change only by the selected node gaining the new child |
| Updates.InsertLinksToParent | src/components/EnhancedKnowledgeGraph/EnhancedKnowledgeGraph.jsx:168-199 | with a selected node, the new node names it as parent and the hierarchy link from it to the new node is derived |
| Updates.InsertAttachesChild | src/components/EnhancedKnowledgeGraph/EnhancedKnowledgeGraph.jsx:186-196 | the selected node, when present, lists the new node as its last child |
| Updates.EmptySelectedId | src/components/EnhancedKnowledgeGraph/EnhancedKnowledgeGraph.jsx:171 | a selected node with the empty id receives the child, but the child gets no parent |
| Updates.InsertKeepsTotal | src/components/EnhancedKnowledgeGraph/EnhancedKnowledgeGraph.jsx:168-199 | adding a node leaves the total study time unchanged |
| Updates.TimesKept | src/components/EnhancedKnowledgeGraph/Sidebar.jsx:177 | lists with the same activity position by position have the same total |
| Updates.AddToSpaceEffect | src/components/EnhancedKnowledgeGraph/EnhancedKnowledgeGraph.jsx:201-212 | only the active space changes, by gaining the new id at the end |
| Updates.ConnectIdempotent | src/components/EnhancedKnowledgeGraph/EnhancedKnowledgeGraph.jsx:232-243 | connecting twice is connecting once |
| Updates.ConnectEffect | src/components/EnhancedKnowledgeGraph/EnhancedKnowledgeGraph.jsx:229-243 | the source keeps its connections and gains the target at the end when it was missing, so no repeat is created; every other field and node is unchanged |
| Updates.ConnectYieldsLink | src/components/EnhancedKnowledgeGraph/EnhancedKnowledgeGraph.jsx:229-243 | connecting two existing nodes makes the effect derive a connection link between them |
| Updates.ConnectKeepsIds | src/components/EnhancedKnowledgeGraph/EnhancedKnowledgeGraph.jsx:232-243 | connecting changes no id |
| Updates.StudyEffect | src/components/EnhancedKnowledgeGraph/EnhancedKnowledgeGraph.jsx:257-272 | the studied node gains the duration and is stamped with the session time; each parent listing it gains the duration and changes nothing else; other nodes are unchanged |
| Updates.StudyTotal | src/components/EnhancedKnowledgeGraph/EnhancedKnowledgeGraph.jsx:257-272 | the total study time grows by the duration once per credited node |
| Updates.StudySkipsGrandparent | src/components/EnhancedKnowledgeGraph/EnhancedKnowledgeGraph.jsx:266-268 | a session on a grandchild credits the child and its parent but not the grandparent |
| Sidebar.ToggleTag | src/components/EnhancedKnowledgeGraph/Sidebar.jsx:111-118 | defines the toggle: remove every copy of an active tag, append an inactive one |
| Sidebar.AddNewSpace | src/components/EnhancedKnowledgeGraph/Sidebar.jsx:20-31 | defines adding a space: append an empty "New Space" with the id and colour |
| Sidebar.Hex | src/components/EnhancedKnowledgeGraph/Sidebar.jsx:27 | lower-case hex text of a number without padding |
| Sidebar.DrawnColor | src/components/EnhancedKnowledgeGraph/Sidebar.jsx:27 | the colour as written: "#" and the unpadded hex of the draw |
| Sidebar.PaddedColor | src/components/EnhancedKnowledgeGraph/Sidebar.jsx:27 | the corrected colour: "#" and the hex of the draw padded to six digits |
| Sidebar.TotalTime | src/components/EnhancedKnowledgeGraph/Sidebar.jsx:177 | the sum of all nodes' activity |
| Sidebar.StudyHours | src/components/EnhancedKnowledgeGraph/Sidebar.jsx:177 | the study-time figure: the total minutes over 60, rounded down |
| Sidebar.ToggleMembership | src/components/EnhancedKnowledgeGraph/Sidebar.jsx:111-118 | the toggled tag is in the filter afterwards iff it was not before; other tags are unaffected |
| Sidebar.ToggleKeepsOrder | src/components/EnhancedKnowledgeGraph/Sidebar.jsx:113-117 | removing keeps the other tags in order; adding puts the tag last after the unchanged list |
| Sidebar.ToggleTwiceRestores | src/components/EnhancedKnowledgeGraph/Sidebar.jsx:111-118 | toggling an absent tag twice restores the filter |
| Sidebar.ToggleTwiceMovesToEnd | src/components/EnhancedKnowledgeGraph/Sidebar.jsx:111-118 | toggling a present tag twice moves it to the end (dropping its repeats) |
| Sidebar.AddNewSpaceAppends | src/components/EnhancedKnowledgeGraph/Sidebar.jsx:20-31 | exactly one empty "New Space" with the new id and colour is appended, and the other spaces are untouched |
| Sidebar.HexChar | src/components/EnhancedKnowledgeGraph/Sidebar.jsx:27 | each hex digit character reads back as its value |
| Sidebar.HexRoundTrip | src/components/EnhancedKnowledgeGraph/Sidebar.jsx:27 | the hex text of a number reads back as the number |
| Sidebar.DrawnColorTooShort | src/components/EnhancedKnowledgeGraph/Sidebar.jsx:27 | as written, the draw 0xabcde gives "#abcde": five hex digits, not the six-digit colour the draw stands for |
| Sidebar.PaddedColorWellFormed | src/components/EnhancedKnowledgeGraph/Sidebar.jsx:27 | the padded colour is "#" and six hex digits that read back as the draw |
| Sidebar.StudyHoursIsFloor | src/components/EnhancedKnowledgeGraph/Sidebar.jsx:177 | the shown hours are the whole hours of the total minutes, rounded down |
| Sidebar.TotalTimeAppend | src/components/EnhancedKnowledgeGraph/Sidebar.jsx:177 | the total of two lists is the sum of their totals |
| KnowledgeBase.Members | src/components/EnhancedKnowledgeGraph/EnhancedKnowledgeGraph.jsx:101-103 | a space's member list is the ids of the nodes in that space, in node order |
| KnowledgeBase.WithMembers | src/components/EnhancedKnowledgeGraph/EnhancedKnowledgeGraph.jsx:98-105 | every space keeps its id, name and colour and lists exactly its nodes |
| KnowledgeBase.KnowledgeBase.constructor | src/components/EnhancedKnowledgeGraph/EnhancedKnowledgeGraph.jsx:13-106 | the four initial spaces, then the sample is loaded: nodes, timeline and space members from the sample, no selection or filter, links and tags derived |
| KnowledgeBase.KnowledgeBase.DeriveEffect | src/components/EnhancedKnowledgeGraph/EnhancedKnowledgeGraph.jsx:49-86 | with nodes, links and tags become the derived ones; with none nothing changes |
| KnowledgeBase.KnowledgeBase.SelectionEffect | src/components/EnhancedKnowledgeGraph/EnhancedKnowledgeGraph.jsx:111-119 | with a selection the nodes are flagged by id; without one nothing changes |
| KnowledgeBase.KnowledgeBase.Select | src/components/EnhancedKnowledgeGraph/GraphVisualizer.jsx:222-226 | selecting a node flags exactly the nodes with its id; clearing (line 555) changes no node, so stale flags remain |
| KnowledgeBase.KnowledgeBase.HandleNodeClick | src/components/EnhancedKnowledgeGraph/EnhancedKnowledgeGraph.jsx:124-162 | a click selects the node when it exists (otherwise clears the selection), applies the click update, flags exactly the selected node, and logs the pre-click activity |
| KnowledgeBase.KnowledgeBase.AddNode | src/components/EnhancedKnowledgeGraph/EnhancedKnowledgeGraph.jsx:164-227 | a blank name changes nothing; otherwise the new node is appended and attached to the selection, the active space lists it, the creation is logged, and the link from the selected node is derived |
| KnowledgeBase.KnowledgeBase.ConnectNodes | src/components/EnhancedKnowledgeGraph/EnhancedKnowledgeGraph.jsx:229-255 | a self-connection changes nothing; otherwise the source lists the target, the event is logged, and for existing nodes a connection link appears |
| KnowledgeBase.KnowledgeBase.AddStudySession | src/components/EnhancedKnowledgeGraph/EnhancedKnowledgeGraph.jsx:257-284 | the session is applied and logged, and the total grows by the duration per credited node |
| KnowledgeBase.KnowledgeBase.ToggleFilterTag | src/components/EnhancedKnowledgeGraph/Sidebar.jsx:111-118 | the tag switches in or out of the filter and nothing else changes |
| KnowledgeBase.KnowledgeBase.AddNewSpace | src/components/EnhancedKnowledgeGraph/Sidebar.jsx:20-31 | one space is appended with a seven-character colour; the rest of the state is unchanged |
| KnowledgeBase.KnowledgeBase.StudyHours | src/components/EnhancedKnowledgeGraph/Sidebar.jsx:177 | the shown figure is the floor of the total minutes over 60 |

## Left out

- The D3 force simulation (link, charge, centre and collision forces, alpha, ticks) and the "network" view mode are left out. They are numeric and run in a library that is not part of this model.
- Screen coordinates come from parameters: `noise` stands for the `Math.random()` draws of the clusters layout, and `spot(i, count)` for the point at angle 2πi/count on the circle of radius height/3.
- Layout.ApplyClusters pins group by group with a scan over all nodes. The source iterates lodash's per-group arrays; the resulting pins are the same.
- Layout.GroupKeys orders groups by first appearance. JavaScript object key order puts integer-like keys first, so a first tag such as "2" would take an earlier cell in the source.
- Rendering is left out: colours, opacity values, stroke widths, the glow filter, zoom, the tooltip text and the export.
- The pulse ring's date test (modified in the last 7 days) and its activity threshold are left out, because they need the clock. Only its radius is modelled.
- Case folding covers ASCII letters only. `toLowerCase` on other scripts is not modelled, and string lengths are counted in characters, not UTF-16 code units.
- The sample data generator is left out. The constructor takes the sample nodes and timeline as parameters.
- Clocks and randomness become parameters:
  - `now` stands for ISO timestamps;
  - `stamp` stands for `Date.now()` in new ids;
  - `draw` stands for the random colour draw.
- Timeline records have no timestamp.
- The form state of adding a node (`newNodeName`, `isAdding`) is left out; the name and kind are parameters.
- React's effect scheduling is collapsed: the effects run once after each handler. The link effect's intermediate run between two updates leaves no trace in the state.
- The `Valid` invariant holds only once the node list is non-empty. Like the source, the link effect keeps old links and tags when the list is empty.
- `handleNodeClick` and `connectNodes` are modelled as handlers, but the graph view does not call them. Its click handler calls `setSelectedNode` directly, which `Select` models.
- JavaScript numbers are doubles, while the model uses unbounded integers. Activity totals above 2^53 would lose precision in the source, and `${...}` writes numbers of 1e21 and more in exponent notation, which `Visuals.Decimal` does not model.
- The order in which the drag library fires events is not modelled. A double-click in the running view comes after two press/release pairs read as drags without Ctrl; `Interaction.DoubleClickAfterPresses` states the consequence for that order, but the library's behaviour itself is outside the model.
- NaN and non-numeric pins are not modelled. Pins are `Option<real>`, and only 0 is falsy.
- Timeline.jsx, NodeDetailPanel.jsx and the application shell are not part of this model.
- KnowledgeBase.KnowledgeBase.AddNewSpace: the class appends the zero-padded colour, not the unpadded one Sidebar.jsx:27 writes (see Findings). The colour as written is `Sidebar.DrawnColor`.

## Findings

| source | as written | input that shows it | evidently intended | confidence | as-written member | corrected member |
|---|---|---|---|---|---|---|
| src/components/EnhancedKnowledgeGraph/Sidebar.jsx:27 | the new space's colour is "#" + the random draw in hex, without padding | a draw of 0xabcde gives "#abcde", which is no CSS colour; any draw below 0x100000 gives fewer than six digits | "#" followed by exactly six hex digits | not executed | Sidebar.DrawnColorTooShort | Sidebar.PaddedColorWellFormed |
