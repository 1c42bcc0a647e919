/** The knowledge graph's records: nodes, derived links and spaces, plus the
    id lookups every component uses. */
module Graph {

  datatype Option<T> = None | Some(value: T)

  /** The node's `type`; "parent" is the kind of a group node. */
  datatype Kind = Note | Concept | Resource | Project | Parent

  /** A knowledge-graph node. `x`, `y` are the position the simulation writes,
      `fx`, `fy` the pinned position (None stands for JavaScript's null). */
  datatype Node = Node(
    id: string,
    name: string,
    kind: Kind,
    isParent: bool,
    parentId: Option<string>,
    children: seq<string>,
    connections: seq<string>,
    spaceId: string,
    tags: seq<string>,
    timeActive: int,
    notes: string,
    createdAt: string,
    lastModified: string,
    selected: bool,
    x: real,
    y: real,
    fx: Option<real>,
    fy: Option<real>)

  datatype LinkKind = Hierarchy | Connection

  /** A derived link between two node ids. Hierarchy links carry no tags (empty here). */
  datatype Link = Link(
    source: string,
    target: string,
    value: int,
    kind: LinkKind,
    timeActive: int,
    tags: seq<string>)

  /** A space (collection): an id, a name, a colour and its member node ids. */
  datatype Space = Space(id: string, name: string, color: string, nodes: seq<string>)

  /** JavaScript truthiness of an optional id: null and "" are falsy. */
  predicate IsSet(s: Option<string>)
  {
    s.Some? && s.value != ""
  }

  /** The ids of `nodes`, in order (`nodes.map(n => n.id)`). */
  function Ids(nodes: seq<Node>): (r: seq<string>)
    ensures |r| == |nodes|
    ensures forall i :: 0 <= i < |nodes| ==> r[i] == nodes[i].id
    ensures forall s :: s in r <==> exists n :: n in nodes && n.id == s
  {
    if nodes == [] then [] else [nodes[0].id] + Ids(nodes[1..])
  }

  /** The first node whose id is `id` (`nodes.find(n => n.id === id)`). */
  function Find(nodes: seq<Node>, id: string): (r: Option<Node>)
    ensures r.Some? ==> r.value in nodes && r.value.id == id
    ensures r.None? <==> id !in Ids(nodes)
  {
    if nodes == [] then None
    else if nodes[0].id == id then Some(nodes[0])
    else Find(nodes[1..], id)
  }

  /** The node found is the first one carrying the id: it sits at index `k`
      and no earlier node has the id. */
  lemma {:induction false} FindFirst(nodes: seq<Node>, id: string) returns (k: nat)
    requires id in Ids(nodes)
    ensures k < |nodes| && Find(nodes, id) == Some(nodes[k])
    ensures forall j :: 0 <= j < k ==> nodes[j].id != id
  {
    if nodes[0].id == id {
      k := 0;
    } else {
      assert Ids(nodes) == [nodes[0].id] + Ids(nodes[1..]);
      var k' := FindFirst(nodes[1..], id);
      k := k' + 1;
    }
  }

  /** With distinct ids, looking up a node's id finds that node. */
  lemma {:induction false} FindUnique(nodes: seq<Node>, k: nat)
    requires k < |nodes|
    requires forall i, j :: 0 <= i < j < |nodes| ==> nodes[i].id != nodes[j].id
    ensures Find(nodes, nodes[k].id) == Some(nodes[k])
  {
    if k > 0 {
      FindUnique(nodes[1..], k - 1);
    }
  }
}
