/** Fixed-position constraints of the "clusters" and "radial" view modes.
    Both write the pins `fx`, `fy` of the visible nodes in place; the random
    jitter and the trigonometric circle placement enter as parameters. */
module Layout {
  import opened Graph
  import opened Seqs

  // ---------------------------------------------------------------------
  // Clusters: groups by first tag on a square grid
  // ---------------------------------------------------------------------

  /** The cluster a node belongs to: its first tag, or "untagged". */
  function GroupKey(n: Node): string
  {
    if |n.tags| == 0 then "untagged" else n.tags[0]
  }

  function KeysOf(nodes: seq<Node>): (r: seq<string>)
    ensures |r| == |nodes| && forall i :: 0 <= i < |nodes| ==> r[i] == GroupKey(nodes[i])
  {
    seq(|nodes|, i requires 0 <= i < |nodes| => GroupKey(nodes[i]))
  }

  /** The groups, each once, in order of first appearance. */
  function GroupKeys(nodes: seq<Node>): (keys: seq<string>)
    ensures NoDup(keys)
    ensures forall i :: 0 <= i < |nodes| ==> GroupKey(nodes[i]) in keys
    ensures forall k :: k in keys ==> exists i :: 0 <= i < |nodes| && GroupKey(nodes[i]) == k
  {
    var ks := KeysOf(nodes);
    assert forall i :: 0 <= i < |nodes| ==> ks[i] in ks;
    Uniq(ks)
  }

  /** Groups are listed in the order in which their first node appears, so an
      earlier group gets an earlier cell. */
  lemma GroupKeysOrder(nodes: seq<Node>, i: nat, j: nat)
    requires i < j < |GroupKeys(nodes)|
    ensures FirstIndex(KeysOf(nodes), GroupKeys(nodes)[i]) < FirstIndex(KeysOf(nodes), GroupKeys(nodes)[j])
  {
    UniqFirstOccurrenceOrder(KeysOf(nodes), i, j);
  }

  /** The side of the grid: the least g >= 1 with g * g >= groupCount,
      i.e. `Math.ceil(Math.sqrt(groupCount || 1))`. */
  function GridSize(groupCount: nat): (g: nat)
    ensures g >= 1 && g * g >= groupCount
    ensures g == 1 || (g - 1) * (g - 1) < groupCount
  {
    GridFrom(groupCount, 1)
  }

  function GridFrom(groupCount: nat, g: nat): (r: nat)
    requires g >= 1
    requires g == 1 || (g - 1) * (g - 1) < groupCount
    ensures r >= g && r * r >= groupCount
    ensures r == 1 || (r - 1) * (r - 1) < groupCount
    decreases groupCount - g
  {
    if g * g >= groupCount then g
    else
      assert g <= g * g;
      GridFrom(groupCount, g + 1)
  }

  /** Group i sits in row i / g and column i % g, inside the g x g grid. */
  lemma CellInGrid(i: nat, g: nat, groupCount: nat)
    requires g >= 1 && g * g >= groupCount && i < groupCount
    ensures i / g < g && i % g < g
  {
    var q := i / g;
    assert i == g * q + i % g;
    MulMono(g, g, q);
  }

  lemma MulMono(a: nat, b: nat, c: nat)
    ensures b <= c ==> a * b <= a * c
  {
  }

  /** The cell (row, column) of group i on a grid of side g. */
  function Cell(i: nat, g: nat, groupCount: nat): (cell: (nat, nat))
    requires g >= 1 && g * g >= groupCount && i < groupCount
    ensures cell.0 < g && cell.1 < g
  {
    CellInGrid(i, g, groupCount);
    (i / g, i % g)
  }

  /** Different group indices get different cells. */
  lemma CellsDistinct(i: nat, j: nat, g: nat)
    requires g >= 1 && i != j
    ensures i / g != j / g || i % g != j % g
  {
    assert i == g * (i / g) + i % g;
    assert j == g * (j / g) + j % g;
  }

  /** A coordinate inside cell `index` of size `size`: the cell centre plus
      `(u - 0.5) * size * 0.8`, where `u` is a draw of `Math.random()`. */
  function CellCoord(index: nat, size: real, u: real): real
  {
    index as real * size + size / 2.0 + (u - 0.5) * size * 0.8
  }

  /** The jitter keeps the pin strictly inside its cell (within its middle 80%). */
  lemma CellCoordInCell(index: nat, size: real, u: real)
    requires size > 0.0 && 0.0 <= u < 1.0
    ensures index as real * size + 0.1 * size <= CellCoord(index, size, u)
    ensures CellCoord(index, size, u) < index as real * size + 0.9 * size
    ensures index as real * size < CellCoord(index, size, u) < (index + 1) as real * size
  {
    var d := CellCoord(index, size, u) - index as real * size;
    assert d == size * (0.1 + 0.8 * u);
    assert size * (0.8 * u) >= 0.0;
    assert size * (0.8 * (1.0 - u)) > 0.0;
    assert (index + 1) as real * size == index as real * size + size;
  }

  lemma CellSizePositive(extent: real, g: nat)
    requires extent > 0.0 && g >= 1
    ensures extent / g as real > 0.0
  {
  }

  /** Position of `k`'s group among the groups of `all`. */
  function GroupIndex(all: seq<Node>, k: nat): (i: nat)
    requires k < |all|
    ensures i < |GroupKeys(all)| && GroupKeys(all)[i] == GroupKey(all[k])
  {
    FirstIndex(GroupKeys(all), GroupKey(all[k]))
  }

  /** Node k's grid cell as (row, column). */
  function ClusterCell(all: seq<Node>, k: nat): (cell: (nat, nat))
    requires k < |all|
    ensures cell.0 < GridSize(|GroupKeys(all)|) && cell.1 < GridSize(|GroupKeys(all)|)
  {
    var count := |GroupKeys(all)|;
    Cell(GroupIndex(all, k), GridSize(count), count)
  }

  /** Two nodes share a cell exactly when they share a group. */
  lemma SameCellIffSameGroup(all: seq<Node>, k1: nat, k2: nat)
    requires k1 < |all| && k2 < |all|
    ensures ClusterCell(all, k1) == ClusterCell(all, k2) <==> GroupKey(all[k1]) == GroupKey(all[k2])
  {
    var keys := GroupKeys(all);
    var i1, i2 := GroupIndex(all, k1), GroupIndex(all, k2);
    if i1 != i2 {
      CellsDistinct(i1, i2, GridSize(|keys|));
      assert keys[i1] != keys[i2];
    }
  }

  /** `n` pinned at a random point of the central 80% of grid cell `cell`
      (row, column) of a grid whose cells measure `cw` by `ch`. */
  function PinToCell(n: Node, cell: (nat, nat), cw: real, ch: real, r: (real, real)): Node
  {
    n.(fx := Some(CellCoord(cell.1, cw, r.0)), fy := Some(CellCoord(cell.0, ch, r.1)))
  }

  /** Node k of `all` after the clusters layout pinned it. */
  function ClusterPinned(all: seq<Node>, k: nat, width: real, height: real, r: (real, real)): Node
    requires k < |all|
  {
    var g := GridSize(|GroupKeys(all)|);
    PinToCell(all[k], ClusterCell(all, k), width / g as real, height / g as real, r)
  }

  /** `v` lies strictly inside cell `index` of a row or column of cells of width `size`. */
  predicate InCell(v: real, index: nat, size: real)
  {
    index as real * size < v < (index + 1) as real * size
  }

  /** Every pin of the clusters layout lies inside its node's cell. */
  lemma ClusterPinInCell(all: seq<Node>, k: nat, width: real, height: real, r: (real, real))
    requires k < |all| && width > 0.0 && height > 0.0
    requires 0.0 <= r.0 < 1.0 && 0.0 <= r.1 < 1.0
    ensures var g := GridSize(|GroupKeys(all)|);
      var cell := ClusterCell(all, k);
      var n := ClusterPinned(all, k, width, height, r);
      n.fx.Some? && n.fy.Some?
      && InCell(n.fx.value, cell.1, width / g as real)
      && InCell(n.fy.value, cell.0, height / g as real)
  {
    var g := GridSize(|GroupKeys(all)|);
    var cell := ClusterCell(all, k);
    PinInCell(cell.1, g, width, r.0);
    PinInCell(cell.0, g, height, r.1);
  }

  lemma PinInCell(index: nat, g: nat, extent: real, u: real)
    requires g >= 1 && extent > 0.0 && 0.0 <= u < 1.0
    ensures InCell(CellCoord(index, extent / g as real, u), index, extent / g as real)
  {
    CellSizePositive(extent, g);
    CellCoordInCell(index, extent / g as real, u);
  }

  /** The clusters layout: for each group i (in first-appearance order), every
      node of the group is pinned near the centre of cell (i / g, i % g).
      `noise[k]` holds the two `Math.random()` draws used for node k. */
  method ApplyClusters(a: array<Node>, width: real, height: real, noise: seq<(real, real)>)
    requires |noise| == a.Length
    modifies a
    ensures forall k :: 0 <= k < a.Length ==> a[k] == ClusterPinned(old(a[..]), k, width, height, noise[k])
  {
    ghost var orig := a[..];
    var keys := GroupKeys(a[..]);
    var g := GridSize(|keys|);
    ghost var group := seq(a.Length, j requires 0 <= j < a.Length => GroupIndex(orig, j));
    ghost var cells := seq(a.Length, j requires 0 <= j < a.Length => ClusterCell(orig, j));
    var cw, ch := width / g as real, height / g as real;
    GroupsAndCells(orig, group, cells);
    var i := 0;
    while i < |keys|
      invariant 0 <= i <= |keys|
      invariant forall j :: 0 <= j < a.Length ==>
        a[j] == if group[j] < i then PinToCell(orig[j], cells[j], cw, ch, noise[j]) else orig[j]
    {
      var cell := Cell(i, g, |keys|);
      PinGroup(a, orig, group, cells, keys, i, cell, cw, ch, noise);
      i := i + 1;
    }
  }

  /** The ghost tables `ApplyClusters` keeps: each node's group index and cell. */
  lemma GroupsAndCells(all: seq<Node>, group: seq<nat>, cells: seq<(nat, nat)>)
    requires |group| == |cells| == |all|
    requires forall j :: 0 <= j < |all| ==> group[j] == GroupIndex(all, j)
    requires forall j :: 0 <= j < |all| ==> cells[j] == ClusterCell(all, j)
    ensures NoDup(GroupKeys(all))
    ensures forall j :: 0 <= j < |all| ==>
      group[j] < |GroupKeys(all)| && GroupKeys(all)[group[j]] == GroupKey(all[j])
    ensures forall j :: 0 <= j < |all| ==>
      cells[j] == Cell(group[j], GridSize(|GroupKeys(all)|), |GroupKeys(all)|)
  {
  }

  /** Pins every member of group i (the nodes whose key is `keys[i]`) into `cell`. */
  method PinGroup(a: array<Node>, ghost orig: seq<Node>, ghost group: seq<nat>, ghost cells: seq<(nat, nat)>,
                  keys: seq<string>, i: nat, cell: (nat, nat), cw: real, ch: real, noise: seq<(real, real)>)
    requires |orig| == |group| == |cells| == a.Length == |noise|
    requires NoDup(keys) && i < |keys|
    requires forall j :: 0 <= j < |orig| ==> group[j] < |keys| && keys[group[j]] == GroupKey(orig[j])
    requires forall j :: 0 <= j < |orig| && group[j] == i ==> cells[j] == cell
    requires forall j :: 0 <= j < a.Length ==>
      a[j] == if group[j] < i then PinToCell(orig[j], cells[j], cw, ch, noise[j]) else orig[j]
    modifies a
    ensures forall j :: 0 <= j < a.Length ==>
      a[j] == if group[j] <= i then PinToCell(orig[j], cells[j], cw, ch, noise[j]) else orig[j]
  {
    var k := 0;
    while k < a.Length
      invariant 0 <= k <= a.Length
      invariant forall j :: 0 <= j < a.Length ==>
        a[j] == if group[j] < i || (j < k && group[j] == i) then PinToCell(orig[j], cells[j], cw, ch, noise[j]) else orig[j]
    {
      assert GroupKey(a[k]) == GroupKey(orig[k]);
      if GroupKey(a[k]) == keys[i] {
        a[k] := PinToCell(a[k], cell, cw, ch, noise[k]);
      }
      k := k + 1;
    }
  }

  // ---------------------------------------------------------------------
  // Radial: roots on a circle, everything else free
  // ---------------------------------------------------------------------

  /** A node without a (truthy) parent id is a root. */
  predicate IsRoot(n: Node)
  {
    !IsSet(n.parentId)
  }

  /** Number of roots before index k: the root's position on the circle. */
  function RootRank(all: seq<Node>, k: nat): nat
    requires k <= |all|
  {
    |Filter(all[..k], IsRoot)|
  }

  function RootCount(all: seq<Node>): nat
  {
    |Filter(all, IsRoot)|
  }

  lemma {:induction false} RootRankStep(all: seq<Node>, k: nat)
    requires k < |all|
    ensures RootRank(all, k + 1) == RootRank(all, k) + (if IsRoot(all[k]) then 1 else 0)
  {
    assert all[..k + 1] == all[..k] + [all[k]];
    FilterAppend(all[..k], all[k], IsRoot);
  }

  /** Distinct roots get distinct positions on the circle. */
  lemma {:induction false} RootRanksDistinct(all: seq<Node>, k1: nat, k2: nat)
    requires k1 < k2 < |all| && IsRoot(all[k1])
    ensures RootRank(all, k1) < RootRank(all, k2)
  {
    RootRankStep(all, k1);
    RankMonotone(all, k1 + 1, k2);
  }

  /** A root's position is below the number of roots. */
  lemma {:induction false} RootRankBelowCount(all: seq<Node>, k: nat)
    requires k < |all| && IsRoot(all[k])
    ensures RootRank(all, k) < RootCount(all)
  {
    RootRankStep(all, k);
    RankMonotone(all, k + 1, |all|);
    assert all[..|all|] == all;
  }

  lemma {:induction false} RankMonotone(all: seq<Node>, j: nat, k: nat)
    requires j <= k <= |all|
    ensures RootRank(all, j) <= RootRank(all, k)
    decreases k - j
  {
    if j < k {
      RootRankStep(all, j);
      RankMonotone(all, j + 1, k);
    }
  }

  /** The pin a root gets: its rank among the roots on a circle of `count`. */
  function RootPinned(all: seq<Node>, k: nat, count: nat, spot: (nat, nat) -> (real, real)): Node
    requires k < |all|
  {
    all[k].(fx := Some(spot(RootRank(all, k), count).0), fy := Some(spot(RootRank(all, k), count).1))
  }

  /** The radial layout: root i of rootCount is pinned at `spot(i, rootCount)`
      (the point at angle 2*pi*i/rootCount on the circle); every other node's
      pin is cleared. */
  method ApplyRadial(a: array<Node>, spot: (nat, nat) -> (real, real))
    modifies a
    ensures forall k :: 0 <= k < a.Length ==>
      a[k] == if IsRoot(old(a[k])) then RootPinned(old(a[..]), k, RootCount(old(a[..])), spot)
              else old(a[k]).(fx := None, fy := None)
  {
    var rootCount := |Filter(a[..], IsRoot)|;
    PinRoots(a, rootCount, spot);
    FreeOthers(a);
  }

  /** The first pass: each root, in order, is pinned at the next spot. */
  method PinRoots(a: array<Node>, rootCount: nat, spot: (nat, nat) -> (real, real))
    modifies a
    ensures forall j :: 0 <= j < a.Length ==>
      a[j] == if IsRoot(old(a[j])) then RootPinned(old(a[..]), j, rootCount, spot) else old(a[j])
  {
    ghost var orig := a[..];
    var k, i := 0, 0;
    while k < a.Length
      invariant 0 <= k <= a.Length
      invariant i == RootRank(orig, k)
      invariant forall j :: 0 <= j < k && IsRoot(orig[j]) ==> a[j] == RootPinned(orig, j, rootCount, spot)
      invariant forall j :: 0 <= j < a.Length && (k <= j || !IsRoot(orig[j])) ==> a[j] == orig[j]
    {
      RootRankStep(orig, k);
      if IsRoot(a[k]) {
        var p := spot(i, rootCount);
        a[k] := a[k].(fx := Some(p.0), fy := Some(p.1));
        i := i + 1;
      }
      k := k + 1;
    }
  }

  /** The second pass: every node that is not a root has its pin cleared;
      pinning a root leaves it a root. */
  method FreeOthers(a: array<Node>)
    modifies a
    ensures forall j :: 0 <= j < a.Length ==>
      a[j] == if IsRoot(old(a[j])) then old(a[j]) else old(a[j]).(fx := None, fy := None)
  {
    var k := 0;
    while k < a.Length
      invariant 0 <= k <= a.Length
      invariant forall j :: 0 <= j < a.Length ==>
        a[j] == if j < k && !IsRoot(old(a[j])) then old(a[j]).(fx := None, fy := None) else old(a[j])
    {
      if !IsRoot(a[k]) {
        a[k] := a[k].(fx := None, fy := None);
      }
      k := k + 1;
    }
  }
}
