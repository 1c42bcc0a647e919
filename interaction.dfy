/** The pointer handlers of the graph view that pin and release nodes:
    double-click toggles a pin, a drag pins the node under the pointer and
    releasing it unpins the node unless Ctrl is held. */
module Interaction {
  import opened Graph

  /** JavaScript truthiness of a pin coordinate: null and 0 are falsy. */
  predicate Truthy(v: Option<real>)
  {
    v.Some? && v.value != 0.0
  }

  /** The gestures the handlers react to. `DragMove` carries the pointer
      position and `DragEnd` whether Ctrl was held on release. */
  datatype Gesture = DoubleClick | DragStart | DragMove(px: real, py: real) | DragEnd(ctrlKey: bool)

  /** The node after one handler ran on it. Each coordinate of a
      double-click is toggled on its own truthiness. */
  function Handle(n: Node, e: Gesture): Node
  {
    match e
    case DoubleClick =>
      n.(fx := if Truthy(n.fx) then None else Some(n.x),
         fy := if Truthy(n.fy) then None else Some(n.y))
    case DragStart => n.(fx := Some(n.x), fy := Some(n.y))
    case DragMove(px, py) => n.(fx := Some(px), fy := Some(py))
    case DragEnd(ctrl) => if ctrl then n else n.(fx := None, fy := None)
  }

  /** The node after a sequence of gestures, in order. */
  function Replay(n: Node, es: seq<Gesture>): Node
    decreases |es|
  {
    if es == [] then n else Replay(Handle(n, es[0]), es[1..])
  }

  /** A handler touches the pin and nothing else. */
  lemma HandleOnlyMovesPin(n: Node, e: Gesture)
    ensures Handle(n, e) == n.(fx := Handle(n, e).fx, fy := Handle(n, e).fy)
  {
  }

  lemma {:induction false} ReplayOnlyMovesPin(n: Node, es: seq<Gesture>)
    ensures Replay(n, es) == n.(fx := Replay(n, es).fx, fy := Replay(n, es).fy)
    decreases |es|
  {
    if es != [] {
      ReplayOnlyMovesPin(Handle(n, es[0]), es[1..]);
    }
  }

  /** Double-click pins an unpinned coordinate at the current position and
      releases a pinned one. */
  lemma DoubleClickToggles(n: Node)
    ensures var m := Handle(n, DoubleClick);
      (Truthy(n.fx) ==> m.fx == None) && (!Truthy(n.fx) ==> m.fx == Some(n.x))
      && (Truthy(n.fy) ==> m.fy == None) && (!Truthy(n.fy) ==> m.fy == Some(n.y))
  {
  }

  /** A pin at coordinate 0 reads as no pin: double-clicking it pins again
      instead of releasing. */
  lemma ZeroPinIsNotReleased(n: Node)
    requires n.fx == Some(0.0)
    ensures Handle(n, DoubleClick).fx == Some(n.x)
  {
  }

  /** Double-clicking a free node twice frees it again, provided it does not
      sit on a zero coordinate. */
  lemma DoubleClickTwiceFrees(n: Node)
    requires n.fx == None && n.fy == None && n.x != 0.0 && n.y != 0.0
    ensures Replay(n, [DoubleClick, DoubleClick]) == n
  {
    var once := Handle(n, DoubleClick);
    assert [DoubleClick, DoubleClick][1..] == [DoubleClick];
    assert Replay(n, [DoubleClick, DoubleClick]) == Replay(once, [DoubleClick]);
    assert Replay(once, [DoubleClick]) == Handle(once, DoubleClick);
  }

  /** A double-click arrives after two press/release pairs, each read as a
      drag without Ctrl; those release the pin, so the double-click then
      always pins the node where it stands. */
  lemma {:induction false} DoubleClickAfterPresses(n: Node)
    ensures var m := Replay(n, [DragStart, DragEnd(false), DragStart, DragEnd(false), DoubleClick]);
      m.fx == Some(n.x) && m.fy == Some(n.y)
  {
    var es := [DragStart, DragEnd(false), DragStart, DragEnd(false), DoubleClick];
    var freed := n.(fx := None, fy := None);
    assert Replay(n, es) == Replay(freed, es[2..]);
    assert Replay(freed, es[2..]) == Replay(freed, es[4..]);
    assert Replay(freed, es[4..]) == Handle(freed, DoubleClick);
  }

  /** Gestures that only move the dragged node. */
  predicate AllMoves(es: seq<Gesture>)
  {
    forall i :: 0 <= i < |es| ==> es[i].DragMove?
  }

  /** Where a drag leaves the pin before release: at the last pointer
      position, or where the node stood when no move happened. */
  function DragPin(n: Node, moves: seq<Gesture>): (real, real)
    requires AllMoves(moves)
  {
    if moves == [] then (n.x, n.y)
    else (moves[|moves| - 1].px, moves[|moves| - 1].py)
  }

  /** During a drag the node stays pinned, at `DragPin`. */
  lemma {:induction false} DragKeepsPinned(n: Node, moves: seq<Gesture>)
    requires AllMoves(moves)
    ensures var m := Replay(Handle(n, DragStart), moves);
      m.fx == Some(DragPin(n, moves).0) && m.fy == Some(DragPin(n, moves).1)
  {
    if moves != [] {
      var p := Handle(Handle(n, DragStart), moves[0]);
      DragFrom(p, moves[0], moves[1..]);
    }
  }

  lemma {:induction false} DragFrom(p: Node, first: Gesture, rest: seq<Gesture>)
    requires first.DragMove? && AllMoves(rest)
    requires p.fx == Some(first.px) && p.fy == Some(first.py)
    ensures var m := Replay(p, rest);
      m.fx == Some(DragPin(p, [first] + rest).0) && m.fy == Some(DragPin(p, [first] + rest).1)
    decreases |rest|
  {
    if rest != [] {
      DragFrom(Handle(p, rest[0]), rest[0], rest[1..]);
      assert ([rest[0]] + rest[1..]) == rest;
    }
  }

  /** A whole drag (start, moves, release) ends pinned exactly when Ctrl was
      held, and then at the last pointer position. */
  lemma {:induction false} DragGesture(n: Node, moves: seq<Gesture>, ctrl: bool)
    requires AllMoves(moves)
    ensures var m := Replay(n, [DragStart] + moves + [DragEnd(ctrl)]);
      (m.fx.Some? <==> ctrl) && (m.fy.Some? <==> ctrl)
      && (ctrl ==> m.fx == Some(DragPin(n, moves).0) && m.fy == Some(DragPin(n, moves).1))
  {
    DragKeepsPinned(n, moves);
    ReplayAppend(Handle(n, DragStart), moves, [DragEnd(ctrl)]);
    assert ([DragStart] + moves + [DragEnd(ctrl)])[1..] == moves + [DragEnd(ctrl)];
  }

  lemma {:induction false} ReplayAppend(n: Node, es: seq<Gesture>, more: seq<Gesture>)
    ensures Replay(n, es + more) == Replay(Replay(n, es), more)
    decreases |es|
  {
    if es == [] {
      assert es + more == more;
    } else {
      assert (es + more)[1..] == es[1..] + more;
      ReplayAppend(Handle(n, es[0]), es[1..], more);
    }
  }

  /** The handler bound to node `k` of the drawn node list: it overwrites the
      pin of that one node. */
  method OnGesture(a: array<Node>, k: nat, e: Gesture)
    requires k < a.Length
    modifies a
    ensures a[k] == Handle(old(a[k]), e)
    ensures forall j :: 0 <= j < a.Length && j != k ==> a[j] == old(a[j])
  {
    var n := a[k];
    match e {
      case DoubleClick =>
        a[k] := n.(fx := if Truthy(n.fx) then None else Some(n.x),
                   fy := if Truthy(n.fy) then None else Some(n.y));
      case DragStart =>
        a[k] := n.(fx := Some(n.x), fy := Some(n.y));
      case DragMove(px, py) =>
        a[k] := n.(fx := Some(px), fy := Some(py));
      case DragEnd(ctrl) =>
        if !ctrl {
          a[k] := n.(fx := None, fy := None);
        }
    }
  }
}
