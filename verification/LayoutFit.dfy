/**
 Pane extents one axis at a time, what resizing does to them, and the search for
 the smallest viewport in which every pane gets the size it asks for.
 */
module LayoutFit {
  import opened Wrappers
  import opened Layout

  /** Widths are extents along `Vertical` splits, heights along `Horizontal` ones. */
  function Along(r: Rect, axis: Direction): nat {
    if axis == Vertical then r.width else r.height
  }

  /** The cells along `axis` that the two sides of a split get out of `n`. */
  function Sides(dir: Direction, ratio: Ratio, axis: Direction, n: nat): (nat, nat) {
    if dir != axis then (n, n) else
    var share := Share(Shared(n), ratio);
    (share, Shared(n) - share)
  }

  /** Both sides grow by at most what the whole grows by, and never shrink. */
  lemma SidesGrowSlowly(dir: Direction, ratio: Ratio, axis: Direction, n: nat, more: nat)
    ensures var (a, b) := Sides(dir, ratio, axis, n);
            var (a', b') := Sides(dir, ratio, axis, n + more);
            a <= a' <= a + more && b <= b' <= b + more
  {
    hide Share;
    ShareGrowsSlowly(Shared(n), Shared(n + more) - Shared(n), ratio);
  }

  /** The leaves' extents along `axis`, in pane order, when the whole tree spans `n` cells. */
  function Extents(t: Node, axis: Direction, n: nat): (s: seq<nat>)
    ensures |s| == |PaneIds(t)|
  {
    match t
    case Leaf(_) => [n]
    case Split(_, _, a, b) =>
      var (na, nb) := Sides(t.dir, t.ratio, axis, n);
      Extents(a, axis, na) + Extents(b, axis, nb)
  }

  /** `SplitRect` cuts each axis as `Sides` does. */
  lemma SplitRectSides(dir: Direction, ratio: Ratio, v: Rect, axis: Direction)
    ensures var (ra, rb) := SplitRect(v, dir, ratio);
            Sides(dir, ratio, axis, Along(v, axis)) == (Along(ra, axis), Along(rb, axis))
  {
    hide Share;
  }

  /**
   The axes are independent: each rectangle's extent along one follows from the viewport's extent along the same one.
   */
  lemma {:induction false} RectsHaveExtents(t: Node, v: Rect, axis: Direction)
    ensures |ComputeRects(t, v)| == |PaneIds(t)|
    ensures forall i :: 0 <= i < |PaneIds(t)| ==>
              Along(ComputeRects(t, v)[i].1, axis) == Extents(t, axis, Along(v, axis))[i]
  {
    hide Sides, SplitRect;
    match t
    case Leaf(_) =>
    case Split(dir, ratio, a, b) =>
      var (ra, rb) := SplitRect(v, dir, ratio);
      SplitRectSides(dir, ratio, v, axis);
      RectsHaveExtents(a, ra, axis);
      RectsHaveExtents(b, rb, axis);
  }

  /** Enlarging the viewport by `more` cells enlarges every pane by between none and `more` of them. */
  lemma {:induction false} ExtentsGrowSlowly(t: Node, axis: Direction, n: nat, more: nat, i: nat)
    requires i < |PaneIds(t)|
    ensures Extents(t, axis, n)[i] <= Extents(t, axis, n + more)[i] <= Extents(t, axis, n)[i] + more
  {
    hide Sides;
    if t.Split? {
      var m := |PaneIds(t.a)|;
      var (a, b) := Sides(t.dir, t.ratio, axis, n);
      var (a', b') := Sides(t.dir, t.ratio, axis, n + more);
      SidesGrowSlowly(t.dir, t.ratio, axis, n, more);
      if i < m {
        ExtentsGrowSlowly(t.a, axis, a, a' - a, i);
      } else {
        ExtentsGrowSlowly(t.b, axis, b, b' - b, i - m);
      }
    }
  }

  // ----- Resizing -----

  /** One split above a pane: its direction and ratio, and whether the pane is on side `a`. */
  datatype Ancestor = Ancestor(dir: Direction, ratio: Ratio, inA: bool)

  /** The splits above the first leaf holding `p`, outermost first. */
  function Ancestors(t: Node, p: PaneId): seq<Ancestor> {
    match t
    case Leaf(_) => []
    case Split(dir, ratio, a, b) =>
      if Contains(a, p) then [Ancestor(dir, ratio, true)] + Ancestors(a, p)
      else if Contains(b, p) then [Ancestor(dir, ratio, false)] + Ancestors(b, p)
      else []
  }

  /** The split with its ratio moved by `delta` towards the pane, as far as ratios go. */
  function Moved(h: Ancestor, delta: real): Ancestor {
    h.(ratio := ClampRatio(if h.inA then h.ratio + delta else h.ratio - delta))
  }

  /** `path` with its outermost split along `dir` moved by `delta` towards the pane. */
  function MoveOutermost(path: seq<Ancestor>, dir: Direction, delta: real): (r: seq<Ancestor>)
    ensures |r| == |path|
  {
    if path == [] then [] else
    var h := path[0];
    if h.dir == dir then [Moved(h, delta)] + path[1..] else [h] + MoveOutermost(path[1..], dir, delta)
  }

  /** The tree with the ratios of the splits above `p` replaced by those of `path`, and nothing else changed. */
  function WithPath(t: Node, p: PaneId, path: seq<Ancestor>): Node
    requires |path| == |Ancestors(t, p)|
  {
    match t
    case Leaf(_) => t
    case Split(dir, _, a, b) =>
      if Contains(a, p) then Split(dir, path[0].ratio, WithPath(a, p, path[1..]), b)
      else if Contains(b, p) then Split(dir, path[0].ratio, a, WithPath(b, p, path[1..]))
      else t
  }

  /** Replacing a path by itself changes nothing. */
  lemma {:induction false} SamePath(t: Node, p: PaneId)
    ensures WithPath(t, p, Ancestors(t, p)) == t
  {
    if t.Split? && Contains(t, p) {
      var side := if Contains(t.a, p) then t.a else t.b;
      assert Ancestors(t, p)[1..] == Ancestors(side, p);
      SamePath(side, p);
    }
  }

  predicate HasAlong(path: seq<Ancestor>, dir: Direction) {
    exists i :: 0 <= i < |path| && path[i].dir == dir
  }

  /** Resizing succeeds exactly when some split above the pane lies in `dir`. */
  lemma {:induction false} ResizeSucceedsIff(t: Node, p: PaneId, dir: Direction, delta: real)
    ensures ResizePane(t, p, dir, delta).Some? <==> HasAlong(Ancestors(t, p), dir)
  {
    hide ClampRatio, HasAlong;
    var path := Ancestors(t, p);
    if path == [] {
      HasAlongNone(dir);
    } else {
      HasAlongTail(path, dir);
      var side := if Contains(t.a, p) then t.a else t.b;
      assert path[1..] == Ancestors(side, p);
      ResizeSucceedsIff(side, p, dir, delta);
    }
  }

  /**
   Resizing keeps the pane order and changes one ratio of the tree: that of the outermost split along `dir` above the
   pane. Splits off the pane's path are untouched.
   */
  lemma {:induction false} ResizeChangesOutermost(t: Node, p: PaneId, dir: Direction, delta: real)
    requires ResizePane(t, p, dir, delta).Some?
    ensures var t' := ResizePane(t, p, dir, delta).value;
            var path := MoveOutermost(Ancestors(t, p), dir, delta);
            PaneIds(t') == PaneIds(t) && Ancestors(t', p) == path && t' == WithPath(t, p, path)
  {
    hide ClampRatio;
    var side := if Contains(t.a, p) then t.a else t.b;
    assert Ancestors(t, p)[1..] == Ancestors(side, p);
    if t.dir != dir {
      ResizeChangesOutermost(side, p, dir, delta);
    } else {
      SamePath(side, p);
    }
  }

  // ----- Outermost or nearest -----

  /** What the comment on resizing describes: the nearest split along `dir` above the pane is moved. */
  function ResizeNearest(t: Node, p: PaneId, dir: Direction, delta: real): Option<Node> {
    match t
    case Leaf(_) => None
    case Split(d, r, a, b) =>
      if Contains(a, p) then
        match ResizeNearest(a, p, dir, delta)
        case Some(na) => Some(Split(d, r, na, b))
        case None => if d == dir then Some(MakeSplit(d, r + delta, a, b)) else None
      else if Contains(b, p) then
        match ResizeNearest(b, p, dir, delta)
        case Some(nb) => Some(Split(d, r, a, nb))
        case None => if d == dir then Some(MakeSplit(d, r - delta, a, b)) else None
      else None
  }

  /** The splits above the pane that lie along `dir`, outermost first. */
  function PathAlong(path: seq<Ancestor>, dir: Direction): seq<Ancestor> {
    if path == [] then []
    else (if path[0].dir == dir then [path[0]] else []) + PathAlong(path[1..], dir)
  }

  function SplitsAlong(t: Node, p: PaneId, dir: Direction): seq<Ancestor> {
    PathAlong(Ancestors(t, p), dir)
  }

  lemma SplitsAlongStep(t: Node, p: PaneId, dir: Direction)
    requires t.Split? && Contains(t, p)
    ensures var inA := Contains(t.a, p);
            SplitsAlong(t, p, dir)
            == (if t.dir == dir then [Ancestor(t.dir, t.ratio, inA)] else [])
               + SplitsAlong(if inA then t.a else t.b, p, dir)
  {
    assert Ancestors(t, p)[1..] == Ancestors(if Contains(t.a, p) then t.a else t.b, p);
  }

  predicate Stuck(h: Ancestor, delta: real) {
    Moved(h, delta) == h
  }

  /** Moving the nearest split leaves the tree as it is exactly when that split is stuck. */
  lemma {:induction false} NearestStuckIff(t: Node, p: PaneId, dir: Direction, delta: real)
    ensures var (along, r) := (SplitsAlong(t, p, dir), ResizeNearest(t, p, dir, delta));
            && (r.Some? <==> along != [])
            && (r.Some? ==> (r.value == t <==> Stuck(along[|along| - 1], delta)))
  {
    hide ClampRatio, SplitsAlong;
    if t.Split? && Contains(t, p) {
      var side := if Contains(t.a, p) then t.a else t.b;
      SplitsAlongStep(t, p, dir);
      NearestStuckIff(side, p, dir, delta);
    } else {
      NoSplitsAbove(t, p, dir);
    }
  }

  lemma NoSplitsAbove(t: Node, p: PaneId, dir: Direction)
    requires t.Leaf? || !Contains(t, p)
    ensures SplitsAlong(t, p, dir) == []
  {
  }

  /**
   The code does what its comment says exactly when there is nothing to choose (at most one split above the pane lies
   along `dir`) or both choices are already at the limit they would be moved towards.
   */
  lemma {:induction false} ResizeIsNearestIff(t: Node, p: PaneId, dir: Direction, delta: real)
    ensures var along := SplitsAlong(t, p, dir);
            ResizePane(t, p, dir, delta) == ResizeNearest(t, p, dir, delta) <==>
            |along| <= 1 || (Stuck(along[0], delta) && Stuck(along[|along| - 1], delta))
  {
    hide ClampRatio, SplitsAlong;
    if t.Split? && Contains(t, p) {
      var side := if Contains(t.a, p) then t.a else t.b;
      SplitsAlongStep(t, p, dir);
      NearestStuckIff(side, p, dir, delta);
      if t.dir != dir {
        ResizeIsNearestIff(side, p, dir, delta);
      }
    } else {
      NoSplitsAbove(t, p, dir);
    }
  }

  /** Three columns, the first two sharing a nested split: growing the first moves the outer line, not its own. */
  lemma ResizeMissesNearest()
    ensures var t := Split(Vertical, 0.5, Split(Vertical, 0.5, Leaf(1), Leaf(2)), Leaf(3));
            && ResizePane(t, 1, Vertical, 0.1) == Some(t.(ratio := 0.6))
            && ResizeNearest(t, 1, Vertical, 0.1) == Some(t.(a := t.a.(ratio := 0.6)))
  {
    var inner := Split(Vertical, 0.5, Leaf(1), Leaf(2));
    assert ResizeNearest(inner, 1, Vertical, 0.1) == Some(Split(Vertical, 0.6, Leaf(1), Leaf(2)));
  }

  /** Resizing along `dir` keeps every pane's extent across it, whatever the viewport. */
  lemma {:induction false} ResizeKeepsOtherAxis(t: Node, p: PaneId, dir: Direction, delta: real, axis: Direction,
                                                n: nat)
    requires ResizePane(t, p, dir, delta).Some? && axis != dir
    ensures Extents(ResizePane(t, p, dir, delta).value, axis, n) == Extents(t, axis, n)
  {
    hide Share, ClampRatio, PaneIds;
    if t.dir != dir {
      var (na, nb) := Sides(t.dir, t.ratio, axis, n);
      if Contains(t.a, p) {
        ResizeKeepsOtherAxis(t.a, p, dir, delta, axis, na);
      } else {
        ResizeKeepsOtherAxis(t.b, p, dir, delta, axis, nb);
      }
    }
  }

  lemma HasAlongNone(dir: Direction)
    ensures !HasAlong([], dir)
  {
  }

  lemma HasAlongTail(path: seq<Ancestor>, dir: Direction)
    requires path != []
    ensures HasAlong(path, dir) <==> path[0].dir == dir || HasAlong(path[1..], dir)
  {
    if HasAlong(path[1..], dir) {
      var i :| 0 <= i < |path[1..]| && path[1..][i].dir == dir;
      assert path[i + 1].dir == dir;
    }
    if HasAlong(path, dir) && path[0].dir != dir {
      var i :| 0 <= i < |path| && path[i].dir == dir;
      assert path[1..][i - 1].dir == dir;
    }
  }

  /** The rectangle `compute_rects` lists first for a pane. */
  function RectOf(t: Node, v: Rect, p: PaneId): (r: Rect)
    requires Contains(t, p)
    ensures (p, r) in ComputeRects(t, v)
  {
    match t
    case Leaf(_) => v
    case Split(dir, ratio, a, b) =>
      var (ra, rb) := SplitRect(v, dir, ratio);
      if Contains(a, p) then RectOf(a, ra, p) else RectOf(b, rb, p)
  }

  lemma {:induction false} RectOfIsFirst(t: Node, v: Rect, p: PaneId, i: nat)
    requires i < |PaneIds(t)| && PaneIds(t)[i] == p && p !in PaneIds(t)[..i]
    ensures |ComputeRects(t, v)| == |PaneIds(t)|
    ensures ComputeRects(t, v)[i] == (p, RectOf(t, v, p))
  {
    hide Share;
    RectsInPaneOrder(t, v);
    match t
    case Leaf(_) =>
    case Split(dir, ratio, a, b) =>
      var (ra, rb) := SplitRect(v, dir, ratio);
      RectsInPaneOrder(a, ra);
      RectsInPaneOrder(b, rb);
      var A := PaneIds(a);
      if i < |A| {
        assert PaneIds(t)[..i] == A[..i];
        assert A[i] == p;
        RectOfIsFirst(a, ra, p, i);
      } else {
        assert PaneIds(t)[..i] == A + PaneIds(b)[..i - |A|];
        assert p !in A;
        RectOfIsFirst(b, rb, p, i - |A|);
      }
  }

  // ----- What the tree edits do to the rectangles -----

  /** An unclamped ratio that a tree already holds stays as it is. */
  lemma KeepRatio(dir: Direction, ratio: Ratio, a: Node, b: Node)
    ensures MakeSplit(dir, ratio, a, b) == Split(dir, ratio, a, b)
  {
  }

  /** A split divides the target's rectangle, the target first, and leaves every other pane where it was. */
  lemma {:induction false} SplitDividesTheTarget(
      t: Node, v: Rect, target: PaneId, added: PaneId, dir: Direction, ratio: real, p: PaneId)
    requires Contains(t, target) && !Contains(t, added)
    ensures SplitPane(t, target, added, dir, ratio).Some?
    ensures var t' := SplitPane(t, target, added, dir, ratio).value;
            && Contains(t', target) && Contains(t', added)
            && (RectOf(t', v, target), RectOf(t', v, added))
               == SplitRect(RectOf(t, v, target), dir, ClampRatio(ratio))
            && (p != target && Contains(t, p) ==> Contains(t', p) && RectOf(t', v, p) == RectOf(t, v, p))
  {
    hide SplitRect, PaneIds;
    SplitPaneLeaves(t, target, added, dir, ratio);
    match t
    case Leaf(_) =>
    case Split(d, r, a, b) =>
      var (ra, rb) := SplitRect(v, d, r);
      SplitPaneLeaves(a, target, added, dir, ratio);
      SplitPaneLeaves(b, target, added, dir, ratio);
      if Contains(a, target) {
        KeepRatio(d, r, SplitPane(a, target, added, dir, ratio).value, b);
        SplitDividesTheTarget(a, ra, target, added, dir, ratio, p);
        SplitAddsOnly(a, target, added, dir, ratio, p);
      } else {
        KeepRatio(d, r, a, SplitPane(b, target, added, dir, ratio).value);
        SplitDividesTheTarget(b, rb, target, added, dir, ratio, p);
      }
  }

  lemma SplitAddsOnly(t: Node, target: PaneId, added: PaneId, dir: Direction, ratio: real, p: PaneId)
    requires Contains(t, target)
    ensures SplitPane(t, target, added, dir, ratio).Some?
    ensures p != added ==> (Contains(SplitPane(t, target, added, dir, ratio).value, p) <==> Contains(t, p))
  {
    SplitPaneLeaves(t, target, added, dir, ratio);
    InsertAfterMembers(PaneIds(t), target, added, p);
  }

  lemma {:induction false} InsertAfterMembers(s: seq<PaneId>, target: PaneId, added: PaneId, p: PaneId)
    ensures p != added ==> (p in InsertAfter(s, target, added) <==> p in s)
  {
    if s != [] {
      assert s == [s[0]] + s[1..];
      InsertAfterMembers(s[1..], target, added, p);
    }
  }

  /** Swapped panes trade rectangles; the others keep theirs. */
  lemma {:induction false} SwapTradesRectangles(t: Node, v: Rect, x: PaneId, y: PaneId, p: PaneId)
    requires NoDuplicates(PaneIds(t)) && Contains(t, p)
    ensures Contains(SwapInner(t, x, y), SwapId(p, x, y))
    ensures RectOf(SwapInner(t, x, y), v, SwapId(p, x, y)) == RectOf(t, v, p)
  {
    hide SplitRect;
    SwapContains(t, x, y, p);
    match t
    case Leaf(_) =>
    case Split(d, r, a, b) =>
      var (ra, rb) := SplitRect(v, d, r);
      DistinctHalves(PaneIds(a), PaneIds(b));
      KeepRatio(d, r, SwapInner(a, x, y), SwapInner(b, x, y));
      SwapContains(a, x, y, p);
      SwapContains(b, x, y, p);
      if Contains(a, p) {
        SwapTradesRectangles(a, ra, x, y, p);
      } else {
        SwapTradesRectangles(b, rb, x, y, p);
      }
  }

  lemma SwapContains(t: Node, x: PaneId, y: PaneId, p: PaneId)
    ensures Contains(SwapInner(t, x, y), SwapId(p, x, y)) <==> Contains(t, p)
  {
    SwapInnerLeaves(t, x, y);
    var (r, s) := (PaneIds(t), PaneIds(SwapInner(t, x, y)));
    if p in r {
      var i :| 0 <= i < |r| && r[i] == p;
      assert s[i] == SwapId(p, x, y);
    }
    if SwapId(p, x, y) in s {
      var i :| 0 <= i < |s| && s[i] == SwapId(p, x, y);
      assert SwapId(r[i], x, y) == SwapId(p, x, y);
    }
  }

  /** The rectangle that the split above `target` divides. */
  function ParentRect(t: Node, v: Rect, target: PaneId): Rect {
    match t
    case Leaf(_) => v
    case Split(d, r, a, b) =>
      var (ra, rb) := SplitRect(v, d, r);
      if a == Leaf(target) || b == Leaf(target) then v
      else if Contains(a, target) then ParentRect(a, ra, target)
      else ParentRect(b, rb, target)
  }

  /** The other side of the split above `target`: what takes its place once it is gone. */
  function SiblingOf(t: Node, target: PaneId): Node {
    match t
    case Leaf(_) => t
    case Split(_, _, a, b) =>
      if a == Leaf(target) then b
      else if b == Leaf(target) then a
      else if Contains(a, target) then SiblingOf(a, target)
      else SiblingOf(b, target)
  }

  /**
   Removing a pane hands the rectangle of the split above it to its sibling, laid out in it as before; every pane
   outside that sibling keeps its rectangle.
   */
  lemma {:induction false} RemoveGivesToTheSibling(t: Node, v: Rect, target: PaneId, p: PaneId)
    requires NoDuplicates(PaneIds(t)) && t.Split? && Contains(t, target) && p != target && Contains(t, p)
    ensures RemovePane(t, target).Some?
    ensures var t' := RemovePane(t, target).value;
            && Contains(t', p)
            && RectOf(t', v, p) == if Contains(SiblingOf(t, target), p)
                                   then RectOf(SiblingOf(t, target), ParentRect(t, v, target), p)
                                   else RectOf(t, v, p)
  {
    hide SplitRect;
    var Split(d, r, a, b) := t;
    var (ra, rb) := SplitRect(v, d, r);
    DistinctHalves(PaneIds(a), PaneIds(b));
    RemovePaneLeaves(t, target);
    if a != Leaf(target) && b != Leaf(target) {
      var (side, rs) := if Contains(a, target) then (a, ra) else (b, rb);
      assert side.Split?;
      RemovePaneLeaves(side, target);
      SiblingInside(side, target, p);
      if Contains(side, p) {
        RemoveGivesToTheSibling(side, rs, target, p);
      }
      RemoveDropsOnly(side, target, p);
    }
  }

  lemma RemoveDropsOnly(t: Node, target: PaneId, p: PaneId)
    requires NoDuplicates(PaneIds(t)) && t.Split? && Contains(t, target)
    ensures RemovePane(t, target).Some?
    ensures Contains(RemovePane(t, target).value, p) <==> Contains(t, p) && p != target
  {
    RemovePaneLeaves(t, target);
    WithoutElements(PaneIds(t), target);
    assert p in Without(PaneIds(t), target) <==> p in Elements(Without(PaneIds(t), target));
  }

  lemma {:induction false} SiblingInside(t: Node, target: PaneId, p: PaneId)
    requires t.Split? && Contains(t, target)
    ensures Contains(SiblingOf(t, target), p) ==> Contains(t, p)
  {
    if t.a != Leaf(target) && t.b != Leaf(target) {
      SiblingInside(if Contains(t.a, target) then t.a else t.b, target, p);
    }
  }

  /** A wider viewport never makes a pane smaller. */
  lemma {:induction false} RectOfMonotone(t: Node, v: Rect, v': Rect, p: PaneId, axis: Direction)
    requires Contains(t, p) && Along(v, axis) <= Along(v', axis)
    ensures Along(RectOf(t, v, p), axis) <= Along(RectOf(t, v', p), axis)
  {
    hide Sides, SplitRect;
    match t
    case Leaf(_) =>
    case Split(dir, ratio, a, b) =>
      var (ra, rb) := SplitRect(v, dir, ratio);
      var (ra', rb') := SplitRect(v', dir, ratio);
      SplitRectSides(dir, ratio, v, axis);
      SplitRectSides(dir, ratio, v', axis);
      SidesGrowSlowly(dir, ratio, axis, Along(v, axis), Along(v', axis) - Along(v, axis));
      if Contains(a, p) {
        RectOfMonotone(a, ra, ra', p, axis);
      } else {
        RectOfMonotone(b, rb, rb', p, axis);
      }
  }

  /** Growing a pane never makes it smaller along that axis in any viewport; shrinking never makes it larger. */
  lemma {:induction false} ResizeMovesTowardsDelta(t: Node, v: Rect, p: PaneId, dir: Direction, delta: real)
    requires ResizePane(t, p, dir, delta).Some?
    ensures Contains(t, p) && Contains(ResizePane(t, p, dir, delta).value, p)
    ensures var t' := ResizePane(t, p, dir, delta).value;
            && (delta >= 0.0 ==> Along(RectOf(t', v, p), dir) >= Along(RectOf(t, v, p), dir))
            && (delta <= 0.0 ==> Along(RectOf(t', v, p), dir) <= Along(RectOf(t, v, p), dir))
  {
    hide Share, ClampRatio;
    var Split(d, r, a, b) := t;
    var (ra, rb) := SplitRect(v, d, r);
    if d == dir {
      OutermostRatioMoves(t, v, p, delta);
    } else if Contains(a, p) {
      ResizeMovesTowardsDelta(a, ra, p, dir, delta);
    } else {
      ResizeMovesTowardsDelta(b, rb, p, dir, delta);
    }
  }

  lemma OutermostRatioMoves(t: Node, v: Rect, p: PaneId, delta: real)
    requires t.Split? && Contains(t, p)
    ensures var dir := t.dir;
            var t' := t.(ratio := ClampRatio(if Contains(t.a, p) then t.ratio + delta else t.ratio - delta));
            && (delta >= 0.0 ==> Along(RectOf(t', v, p), dir) >= Along(RectOf(t, v, p), dir))
            && (delta <= 0.0 ==> Along(RectOf(t', v, p), dir) <= Along(RectOf(t, v, p), dir))
  {
    hide Share;
    var Split(dir, r, a, b) := t;
    var r' := ClampRatio(if Contains(a, p) then r + delta else r - delta);
    var (ra, rb) := SplitRect(v, dir, r);
    var (ra', rb') := SplitRect(v, dir, r');
    var total := Shared(Along(v, dir));
    if r <= r' {
      ShareMonotoneInRatio(total, r, r');
    } else {
      ShareMonotoneInRatio(total, r', r);
    }
    var (side, x, x') := if Contains(a, p) then (a, ra, ra') else (b, rb, rb');
    if delta >= 0.0 {
      RectOfMonotone(side, x, x', p, dir);
    }
    if delta <= 0.0 {
      RectOfMonotone(side, x', x, p, dir);
    }
  }

  // ----- Fitting a viewport to its panes -----

  type U16 = n: nat | n < 0x10000

  type SizeOf = PaneId -> Option<(U16, U16)>

  function SatAdd(x: U16, y: U16): U16 {
    if x + y < 0x10000 then x + y else 0xFFFF
  }

  function Part(size: (U16, U16), axis: Direction): U16 {
    if axis == Vertical then size.0 else size.1
  }

  /** The share of side `a` when the sides ask for `x` and `y` cells. */
  function Proportion(x: U16, y: U16): real {
    x as real / Max(SatAdd(x, y), 1) as real
  }

  /**
   Rebuild the tree so that each split divides in proportion to what its sides ask for, and sum up what the whole
   asks for.
   */
  function Reratioed(t: Node, sizeOf: SizeOf): Option<(Node, (U16, U16))> {
    match t
    case Leaf(p) =>
      (match sizeOf(p)
       case None => None
       case Some(size) => Some((t, size)))
    case Split(dir, _, a, b) =>
      match Reratioed(a, sizeOf)
      case None => None
      case Some((a', (aw, ah))) =>
        match Reratioed(b, sizeOf)
        case None => None
        case Some((b', (bw, bh))) =>
          var (x, y) := if dir == Vertical then (aw, bw) else (ah, bh);
          var size: (U16, U16) :=
            if dir == Vertical then (SatAdd(SatAdd(aw, 1), bw), Max(ah, bh))
            else (Max(aw, bw), SatAdd(SatAdd(ah, 1), bh));
          Some((MakeSplit(dir, Proportion(x, y), a', b'), size))
  }

  predicate AllKnown(t: Node, sizeOf: SizeOf) {
    match t
    case Leaf(p) => sizeOf(p).Some?
    case Split(_, _, a, b) => AllKnown(a, sizeOf) && AllKnown(b, sizeOf)
  }

  /** Every pane of `t` asks for at least one cell along `axis`. */
  predicate AllAskACell(t: Node, sizeOf: SizeOf, axis: Direction)
    requires AllKnown(t, sizeOf)
  {
    match t
    case Leaf(p) => Part(sizeOf(p).value, axis) >= 1
    case Split(_, _, a, b) => AllAskACell(a, sizeOf, axis) && AllAskACell(b, sizeOf, axis)
  }

  /** With `n` cells along `axis`, every pane of `t` gets what it asks for; see `FitsMeansRects`. */
  predicate Fits(t: Node, sizeOf: SizeOf, axis: Direction, n: nat)
    requires AllKnown(t, sizeOf)
  {
    match t
    case Leaf(p) => n >= Part(sizeOf(p).value, axis)
    case Split(_, _, a, b) =>
      var (na, nb) := Sides(t.dir, t.ratio, axis, n);
      Fits(a, sizeOf, axis, na) && Fits(b, sizeOf, axis, nb)
  }

  predicate BigEnough(rect: (PaneId, Rect), sizeOf: SizeOf, axis: Direction) {
    sizeOf(rect.0).Some? && Along(rect.1, axis) >= Part(sizeOf(rect.0).value, axis)
  }

  /** `Fits` says what `compute_rects` delivers: every rectangle is as large as its pane asks. */
  lemma {:induction false} FitsMeansRects(t: Node, sizeOf: SizeOf, axis: Direction, v: Rect)
    requires AllKnown(t, sizeOf)
    ensures Fits(t, sizeOf, axis, Along(v, axis)) <==>
              forall x :: x in ComputeRects(t, v) ==> BigEnough(x, sizeOf, axis)
  {
    hide Sides, SplitRect;
    match t
    case Leaf(p) =>
      assert (p, v) in ComputeRects(t, v);
    case Split(dir, ratio, a, b) =>
      var (ra, rb) := SplitRect(v, dir, ratio);
      SplitRectSides(dir, ratio, v, axis);
      FitsMeansRects(a, sizeOf, axis, ra);
      FitsMeansRects(b, sizeOf, axis, rb);
      assert forall x :: x in ComputeRects(t, v) <==> x in ComputeRects(a, ra) || x in ComputeRects(b, rb);
  }

  predicate SameShape(t: Node, t': Node) {
    match (t, t')
    case (Leaf(p), Leaf(p')) => p == p'
    case (Split(d, _, a, b), Split(d', _, a', b')) => d == d' && SameShape(a, a') && SameShape(b, b')
    case _ => false
  }

  lemma {:induction false} ReratioedShape(t: Node, sizeOf: SizeOf)
    ensures Reratioed(t, sizeOf).Some? <==> AllKnown(t, sizeOf)
    ensures Reratioed(t, sizeOf).Some? ==>
              var tree := Reratioed(t, sizeOf).value.0;
              SameShape(t, tree) && PaneIds(tree) == PaneIds(t) && AllKnown(tree, sizeOf)
  {
    match t
    case Leaf(_) =>
    case Split(_, _, a, b) =>
      ReratioedShape(a, sizeOf);
      ReratioedShape(b, sizeOf);
  }

  /** The size `Reratioed` adds up is a lower bound: no smaller extent fits, when every pane asks for a cell. */
  lemma {:induction false} LowerBound(t: Node, sizeOf: SizeOf, axis: Direction, n: nat)
    requires AllKnown(t, sizeOf) && AllAskACell(t, sizeOf, axis)
    requires Reratioed(t, sizeOf).Some? && AllKnown(Reratioed(t, sizeOf).value.0, sizeOf)
    requires Fits(Reratioed(t, sizeOf).value.0, sizeOf, axis, n)
    ensures n >= 1 && n >= Part(Reratioed(t, sizeOf).value.1, axis)
  {
    hide Share;
    match t
    case Leaf(_) =>
    case Split(dir, _, a, b) =>
      ReratioedShape(a, sizeOf);
      ReratioedShape(b, sizeOf);
      var (na, nb) := Sides(Reratioed(t, sizeOf).value.0.dir, Reratioed(t, sizeOf).value.0.ratio, axis, n);
      LowerBound(a, sizeOf, axis, na);
      LowerBound(b, sizeOf, axis, nb);
  }

  /** The largest number of cells any listed pane is short of its size. */
  function Deficit(rects: seq<(PaneId, Rect)>, sizeOf: SizeOf, axis: Direction): nat {
    if rects == [] then 0 else
    var rest := Deficit(rects[1..], sizeOf, axis);
    match sizeOf(rects[0].0)
    case None => rest
    case Some(size) => Max(rest, Max(0, Part(size, axis) - Along(rects[0].1, axis)))
  }

  lemma {:induction false} DeficitConcat(r: seq<(PaneId, Rect)>, s: seq<(PaneId, Rect)>, sizeOf: SizeOf,
                                         axis: Direction)
    ensures Deficit(r + s, sizeOf, axis) == Max(Deficit(r, sizeOf, axis), Deficit(s, sizeOf, axis))
  {
    if r == [] {
      assert r + s == s;
    } else {
      assert (r + s)[1..] == r[1..] + s;
      DeficitConcat(r[1..], s, sizeOf, axis);
    }
  }

  /** A viewport `n` cells along `axis` and `other` cells across it. */
  function Spanning(axis: Direction, n: nat, other: nat): Rect {
    if axis == Vertical then Rect(0, 0, n, other) else Rect(0, 0, other, n)
  }

  lemma DeficitOfOne(p: PaneId, v: Rect, sizeOf: SizeOf, axis: Direction)
    requires sizeOf(p).Some?
    ensures Deficit([(p, v)], sizeOf, axis) == Max(0, Part(sizeOf(p).value, axis) - Along(v, axis))
  {
  }

  /** No shortfall means everything fits. */
  lemma {:induction false} NoDeficitMeansFit(t: Node, sizeOf: SizeOf, axis: Direction, v: Rect)
    requires AllKnown(t, sizeOf)
    ensures Deficit(ComputeRects(t, v), sizeOf, axis) == 0 <==> Fits(t, sizeOf, axis, Along(v, axis))
  {
    hide Sides, SplitRect, Deficit;
    match t
    case Leaf(p) => DeficitOfOne(p, v, sizeOf, axis);
    case Split(dir, ratio, a, b) =>
      var (ra, rb) := SplitRect(v, dir, ratio);
      SplitRectSides(dir, ratio, v, axis);
      NoDeficitMeansFit(a, sizeOf, axis, ra);
      NoDeficitMeansFit(b, sizeOf, axis, rb);
      DeficitConcat(ComputeRects(a, ra), ComputeRects(b, rb), sizeOf, axis);
  }

  /** Any extent that fits is at least the present one plus what the worst-off pane lacks. */
  lemma {:induction false} DeficitNeverOvershoots(t: Node, sizeOf: SizeOf, axis: Direction, v: Rect, m: nat)
    requires AllKnown(t, sizeOf) && Along(v, axis) <= m && Fits(t, sizeOf, axis, m)
    ensures Along(v, axis) + Deficit(ComputeRects(t, v), sizeOf, axis) <= m
  {
    hide Sides, SplitRect, Deficit;
    match t
    case Leaf(p) => DeficitOfOne(p, v, sizeOf, axis);
    case Split(dir, ratio, a, b) =>
      var (ra, rb) := SplitRect(v, dir, ratio);
      DeficitConcat(ComputeRects(a, ra), ComputeRects(b, rb), sizeOf, axis);
      SplitRectSides(dir, ratio, v, axis);
      SidesGrowSlowly(dir, ratio, axis, Along(v, axis), m - Along(v, axis));
      var (ma, mb) := Sides(dir, ratio, axis, m);
      DeficitNeverOvershoots(a, sizeOf, axis, ra, ma);
      DeficitNeverOvershoots(b, sizeOf, axis, rb, mb);
  }

  /** `n` is the least extent up to `max` in which every pane fits, or `max` when none up to it does. */
  ghost predicate LeastFit(t: Node, sizeOf: SizeOf, axis: Direction, max: nat, n: nat)
    requires AllKnown(t, sizeOf)
  {
    && n <= max
    && (forall m :: 0 <= m < n ==> !Fits(t, sizeOf, axis, m))
    && (Fits(t, sizeOf, axis, n) || n == max)
  }

  /** Grow `n` by the largest shortfall until nothing is short or `max` is reached. */
  function Grow(t: Node, sizeOf: SizeOf, axis: Direction, max: nat, n: nat): nat
    decreases max - n
  {
    var short := Deficit(ComputeRects(t, Spanning(axis, n, 0)), sizeOf, axis);
    if short == 0 || n >= max then Min(n, max) else Grow(t, sizeOf, axis, max, Min(n + short, max))
  }

  lemma {:induction false} GrowFindsLeast(t: Node, sizeOf: SizeOf, axis: Direction, max: nat, n: nat)
    requires AllKnown(t, sizeOf)
    requires forall m :: 0 <= m < n ==> !Fits(t, sizeOf, axis, m)
    ensures LeastFit(t, sizeOf, axis, max, Grow(t, sizeOf, axis, max, n))
    decreases max - n
  {
    hide Share, Fits, Deficit, ComputeRects;
    var v := Spanning(axis, n, 0);
    NoDeficitMeansFit(t, sizeOf, axis, v);
    var short := Deficit(ComputeRects(t, v), sizeOf, axis);
    if short != 0 && n < max {
      forall m: nat | m < n + short
        ensures !Fits(t, sizeOf, axis, m)
      {
        if n <= m && Fits(t, sizeOf, axis, m) {
          DeficitNeverOvershoots(t, sizeOf, axis, v, m);
        }
      }
      GrowFindsLeast(t, sizeOf, axis, max, Min(n + short, max));
    }
  }

  /** Deficits along one axis do not depend on the viewport's other side. */
  lemma DeficitIgnoresOtherAxis(t: Node, sizeOf: SizeOf, axis: Direction, v: Rect, v': Rect)
    requires AllKnown(t, sizeOf) && Along(v, axis) == Along(v', axis)
    ensures Deficit(ComputeRects(t, v), sizeOf, axis) == Deficit(ComputeRects(t, v'), sizeOf, axis)
  {
    RectsHaveExtents(t, v, axis);
    RectsHaveExtents(t, v', axis);
    RectsInPaneOrder(t, v);
    RectsInPaneOrder(t, v');
    DeficitDeterminedBy(ComputeRects(t, v), ComputeRects(t, v'), sizeOf, axis);
  }

  lemma {:induction false} DeficitDeterminedBy(r: seq<(PaneId, Rect)>, r': seq<(PaneId, Rect)>, sizeOf: SizeOf,
                                               axis: Direction)
    requires |r| == |r'|
    requires forall i :: 0 <= i < |r| ==> r[i].0 == r'[i].0 && Along(r[i].1, axis) == Along(r'[i].1, axis)
    ensures Deficit(r, sizeOf, axis) == Deficit(r', sizeOf, axis)
  {
    if r != [] {
      DeficitDeterminedBy(r[1..], r'[1..], sizeOf, axis);
    }
  }

  /** The loop `fitted` runs once per axis; `other` is the viewport's extent across `axis`. */
  method GrowAlong(t: Node, sizeOf: SizeOf, axis: Direction, max: U16, start: U16, other: nat) returns (n: U16)
    requires AllKnown(t, sizeOf)
    ensures n == Grow(t, sizeOf, axis, max, start)
  {
    hide Deficit, ComputeRects;
    n := start;
    while true
      invariant Grow(t, sizeOf, axis, max, n) == Grow(t, sizeOf, axis, max, start)
      decreases max - n
    {
      var short := Deficit(ComputeRects(t, Spanning(axis, n, other)), sizeOf, axis);
      DeficitIgnoresOtherAxis(t, sizeOf, axis, Spanning(axis, n, other), Spanning(axis, n, 0));
      if short == 0 || n >= max {
        n := Min(n, max);
        break;
      }
      n := Min(n + short, max);
    }
  }

  // ----- Fitting exactly -----

  lemma EvenlyFramed(t: Node, sizeOf: SizeOf, axis: Direction, max: nat)
    requires AllKnown(t, sizeOf) && Reratioed(t, sizeOf).Some?
    ensures FitsEvenly(t, sizeOf, axis) ==>
              var (tree, size) := Reratioed(t, sizeOf).value;
              Grow(tree, sizeOf, axis, max, Part(size, axis)) == Min(Asked(t, sizeOf, axis), max)
  {
    hide Grow, Reratioed, AllEven, Asked;
    if FitsEvenly(t, sizeOf, axis) {
      EvenTreesAreFramedExactly(t, sizeOf, axis, max);
    }
  }

  /** What the tree asks for along `axis`: sizes and separators added up along splits, the larger side across them. */
  function Asked(t: Node, sizeOf: SizeOf, axis: Direction): nat
    requires AllKnown(t, sizeOf)
  {
    match t
    case Leaf(p) => Part(sizeOf(p).value, axis)
    case Split(dir, _, a, b) =>
      var (x, y) := (Asked(a, sizeOf, axis), Asked(b, sizeOf, axis));
      if dir == axis then x + 1 + y else Max(x, y)
  }

  /**
   Sides asking for `x` and `y` cells get just those out of `x + y`: neither asks for more than 19 times the other, or
   the nearest ratio allowed still rounds to them.
   */
  predicate Even(x: nat, y: nat) {
    if y > 19 * x then (x + y + 10) / 20 == x
    else if x > 19 * y then (19 * (x + y) + 10) / 20 == x
    else true
  }

  /** Every split along `axis` can be shared out evenly. */
  predicate AllEven(t: Node, sizeOf: SizeOf, axis: Direction)
    requires AllKnown(t, sizeOf)
  {
    match t
    case Leaf(_) => true
    case Split(dir, _, a, b) =>
      && (dir == axis ==> Even(Asked(a, sizeOf, axis), Asked(b, sizeOf, axis)))
      && AllEven(a, sizeOf, axis) && AllEven(b, sizeOf, axis)
  }

  /** A twentieth, and nineteen of them, rounded half up as `Share` does. */
  lemma ShareAtLimits(n: nat)
    ensures Share(n, MIN_RATIO) == (n + 10) / 20 && Share(n, MAX_RATIO) == (19 * n + 10) / 20
  {
    var (q, q') := ((n + 10) / 20, (19 * n + 10) / 20);
    assert q as real <= n as real * 0.05 + 0.5 < q as real + 1.0;
    assert q' as real <= n as real * 0.95 + 0.5 < q' as real + 1.0;
  }

  lemma Cancels(n: real, x: real)
    requires n > 0.0
    ensures n * (x / n) == x
  {
  }

  /** Dividing by a positive number and multiplying by it compare alike. */
  lemma CompareQuotient(x: real, n: real, r: real)
    requires n > 0.0
    ensures x / n < r <==> x < r * n
    ensures x / n > r <==> x > r * n
  {
    var q := x / n;
    Cancels(n, x);
    if q < r {
      ScalesStrictly(q, r, n);
    } else if q > r {
      ScalesStrictly(r, q, n);
    }
  }

  lemma ScalesStrictly(q: real, r: real, n: real)
    requires q < r && n > 0.0
    ensures q * n < r * n
  {
  }

  /** The ratio taken from two sides gives them back exactly if and only if they are even. */
  lemma ProportionIsExactIff(x: U16, y: U16)
    requires x + y < 0x10000
    ensures Share(x + y, ClampRatio(Proportion(x, y))) == x <==> Even(x, y)
  {
    var n := x + y;
    if n == 0 {
      assert Share(0, ClampRatio(Proportion(0, 0))) == 0;
    } else {
      ShareAtLimits(n);
      CompareQuotient(x as real, n as real, MIN_RATIO);
      CompareQuotient(x as real, n as real, MAX_RATIO);
      Cancels(n as real, x as real);
      if y <= 19 * x && x <= 19 * y {
        assert n as real * Proportion(x, y) == x as real;
      }
    }
  }

  /** While nothing saturates, the size summed up is what the panes ask for. */
  lemma {:induction false} SizeIsAsked(t: Node, sizeOf: SizeOf, axis: Direction)
    requires AllKnown(t, sizeOf) && Asked(t, sizeOf, axis) < 0x10000
    ensures Reratioed(t, sizeOf).Some? && Part(Reratioed(t, sizeOf).value.1, axis) == Asked(t, sizeOf, axis)
  {
    hide Proportion, ClampRatio;
    ReratioedShape(t, sizeOf);
    if t.Split? {
      ReratioedShape(t.a, sizeOf);
      ReratioedShape(t.b, sizeOf);
      SizeIsAsked(t.a, sizeOf, axis);
      SizeIsAsked(t.b, sizeOf, axis);
    }
  }

  /** The ratio of a re-ratioed split along `axis`, in terms of what its sides ask for. */
  lemma RatioIsProportion(t: Node, sizeOf: SizeOf, axis: Direction)
    requires t.Split? && t.dir == axis && AllKnown(t, sizeOf) && Asked(t, sizeOf, axis) < 0x10000
    ensures AllKnown(t.a, sizeOf) && AllKnown(t.b, sizeOf)
    ensures Reratioed(t, sizeOf).Some? && Reratioed(t.a, sizeOf).Some? && Reratioed(t.b, sizeOf).Some?
    ensures var (tree, x, y) :=
              (Reratioed(t, sizeOf).value.0, Asked(t.a, sizeOf, axis), Asked(t.b, sizeOf, axis));
            && tree == Split(t.dir, ClampRatio(Proportion(x, y)), Reratioed(t.a, sizeOf).value.0,
                             Reratioed(t.b, sizeOf).value.0)
            && (Sides(tree.dir, tree.ratio, axis, x + 1 + y) == (x, y) <==> Even(x, y))
  {
    hide Proportion, ClampRatio, Share, Even;
    ReratioedShape(t, sizeOf);
    ReratioedShape(t.a, sizeOf);
    ReratioedShape(t.b, sizeOf);
    SizeIsAsked(t.a, sizeOf, axis);
    SizeIsAsked(t.b, sizeOf, axis);
    ProportionIsExactIff(Asked(t.a, sizeOf, axis), Asked(t.b, sizeOf, axis));
  }

  /** Where all splits along the axis are even the panes fit into just what they ask for, and the loop need not grow. */
  lemma {:induction false} EvenTreesFitAtOnce(t: Node, sizeOf: SizeOf, axis: Direction)
    requires AllKnown(t, sizeOf) && Asked(t, sizeOf, axis) < 0x10000 && AllEven(t, sizeOf, axis)
    ensures Reratioed(t, sizeOf).Some? && AllKnown(Reratioed(t, sizeOf).value.0, sizeOf)
    ensures Fits(Reratioed(t, sizeOf).value.0, sizeOf, axis, Asked(t, sizeOf, axis))
  {
    hide Proportion, ClampRatio, Share, Even;
    ReratioedShape(t, sizeOf);
    if t.Split? {
      ReratioedShape(t.a, sizeOf);
      ReratioedShape(t.b, sizeOf);
      EvenTreesFitAtOnce(t.a, sizeOf, axis);
      EvenTreesFitAtOnce(t.b, sizeOf, axis);
      if t.dir == axis {
        RatioIsProportion(t, sizeOf, axis);
      } else {
        var n := Asked(t, sizeOf, axis);
        FitsMonotone(Reratioed(t.a, sizeOf).value.0, sizeOf, axis, Asked(t.a, sizeOf, axis), n);
        FitsMonotone(Reratioed(t.b, sizeOf).value.0, sizeOf, axis, Asked(t.b, sizeOf, axis), n);
      }
    }
  }

  /** Every split of the tree lies along `axis`. */
  predicate IsChain(t: Node, axis: Direction) {
    t.Split? ==> t.dir == axis && IsChain(t.a, axis) && IsChain(t.b, axis)
  }

  function Sizes(t: Node, sizeOf: SizeOf, axis: Direction): seq<nat>
    requires AllKnown(t, sizeOf)
  {
    match t
    case Leaf(p) => [Part(sizeOf(p).value, axis)]
    case Split(_, _, a, b) => Sizes(a, sizeOf, axis) + Sizes(b, sizeOf, axis)
  }

  /** In a row of panes with even splits each gets exactly the size it asks for: nothing cropped, nothing to spare. */
  lemma {:induction false} EvenChainsFitExactly(t: Node, sizeOf: SizeOf, axis: Direction)
    requires AllKnown(t, sizeOf) && Asked(t, sizeOf, axis) < 0x10000 && AllEven(t, sizeOf, axis) && IsChain(t, axis)
    ensures Reratioed(t, sizeOf).Some?
    ensures Extents(Reratioed(t, sizeOf).value.0, axis, Asked(t, sizeOf, axis)) == Sizes(t, sizeOf, axis)
  {
    hide Proportion, ClampRatio, Share, Even;
    ReratioedShape(t, sizeOf);
    if t.Split? {
      EvenChainsFitExactly(t.a, sizeOf, axis);
      EvenChainsFitExactly(t.b, sizeOf, axis);
      RatioIsProportion(t, sizeOf, axis);
    }
  }

  /** A row of panes, each asking for a cell, fits into just what it asks for if and only if all its splits are even. */
  lemma {:induction false} ChainFitsAtOnceIff(t: Node, sizeOf: SizeOf, axis: Direction)
    requires AllKnown(t, sizeOf) && Asked(t, sizeOf, axis) < 0x10000 && IsChain(t, axis) && AllAskACell(t, sizeOf, axis)
    ensures Reratioed(t, sizeOf).Some? && AllKnown(Reratioed(t, sizeOf).value.0, sizeOf)
    ensures Fits(Reratioed(t, sizeOf).value.0, sizeOf, axis, Asked(t, sizeOf, axis)) <==> AllEven(t, sizeOf, axis)
  {
    hide Proportion, ClampRatio, Share, Even;
    ReratioedShape(t, sizeOf);
    var tree := Reratioed(t, sizeOf).value.0;
    if t.Split? {
      ReratioedShape(t.a, sizeOf);
      ReratioedShape(t.b, sizeOf);
      RatioIsProportion(t, sizeOf, axis);
      ChainFitsAtOnceIff(t.a, sizeOf, axis);
      ChainFitsAtOnceIff(t.b, sizeOf, axis);
      var (x, y) := (Asked(t.a, sizeOf, axis), Asked(t.b, sizeOf, axis));
      var (na, nb) := Sides(tree.dir, tree.ratio, axis, x + 1 + y);
      if Fits(tree, sizeOf, axis, x + 1 + y) {
        SizeIsAsked(t.a, sizeOf, axis);
        SizeIsAsked(t.b, sizeOf, axis);
        LowerBound(t.a, sizeOf, axis, na);
        LowerBound(t.b, sizeOf, axis, nb);
        assert na == x && nb == y;
      }
    }
  }

  /** Even splits, and no sum that leaves 16 bits. */
  predicate FitsEvenly(t: Node, sizeOf: SizeOf, axis: Direction)
    requires AllKnown(t, sizeOf)
  {
    Asked(t, sizeOf, axis) < 0x10000 && AllEven(t, sizeOf, axis)
  }

  /** With even splits `fitted` returns just what the panes ask for, up to `max`. */
  lemma EvenTreesAreFramedExactly(t: Node, sizeOf: SizeOf, axis: Direction, max: nat)
    requires AllKnown(t, sizeOf) && Asked(t, sizeOf, axis) < 0x10000 && AllEven(t, sizeOf, axis)
    ensures Reratioed(t, sizeOf).Some?
    ensures var (tree, size) := Reratioed(t, sizeOf).value;
            Grow(tree, sizeOf, axis, max, Part(size, axis)) == Min(Asked(t, sizeOf, axis), max)
  {
    SizeIsAsked(t, sizeOf, axis);
    EvenTreesFitAtOnce(t, sizeOf, axis);
    hide Fits, Deficit, ComputeRects, Reratioed, AllEven, Asked, Share;
    NoDeficitMeansFit(Reratioed(t, sizeOf).value.0, sizeOf, axis, Spanning(axis, Asked(t, sizeOf, axis), 0));
  }

  /**
   The tree with its ratios taken from the panes' sizes, and per axis the extent the growth loop ends at. That is the
   least extent up to `max` that gives every pane its size exactly when `StartsTight` holds for the axis, as it does
   whenever every pane asks for a cell along it.
   */
  method Fitted(t: Node, sizeOf: SizeOf, max: U16) returns (r: Option<(Node, (U16, U16))>)
    ensures r.Some? <==> AllKnown(t, sizeOf)
    ensures r.Some? ==>
              && Reratioed(t, sizeOf).Some? && r.value.0 == Reratioed(t, sizeOf).value.0
              && AllKnown(r.value.0, sizeOf)
              && r.value.1.0 == Grow(r.value.0, sizeOf, Vertical, max, Reratioed(t, sizeOf).value.1.0)
              && r.value.1.1 == Grow(r.value.0, sizeOf, Horizontal, max, Reratioed(t, sizeOf).value.1.1)
              && (LeastFit(r.value.0, sizeOf, Vertical, max, r.value.1.0) <==> StartsTight(t, sizeOf, Vertical, max))
              && (LeastFit(r.value.0, sizeOf, Horizontal, max, r.value.1.1) <==>
                   StartsTight(t, sizeOf, Horizontal, max))
              && (AllAskACell(t, sizeOf, Vertical) ==> StartsTight(t, sizeOf, Vertical, max))
              && (AllAskACell(t, sizeOf, Horizontal) ==> StartsTight(t, sizeOf, Horizontal, max))
              && (FitsEvenly(t, sizeOf, Vertical) ==> r.value.1.0 == Min(Asked(t, sizeOf, Vertical), max))
              && (FitsEvenly(t, sizeOf, Horizontal) ==> r.value.1.1 == Min(Asked(t, sizeOf, Horizontal), max))
  {
    hide StartsTight, LeastFit, AllAskACell, Grow, FitsEvenly;
    ReratioedShape(t, sizeOf);
    match Reratioed(t, sizeOf)
    case None => r := None;
    case Some((tree, (w0, h0))) =>
      var w := GrowAlong(tree, sizeOf, Vertical, max, w0, h0);
      var h := GrowAlong(tree, sizeOf, Horizontal, max, h0, w);
      r := Some((tree, (w, h)));
      FittedIsLeast(t, sizeOf, Vertical, max);
      FittedIsLeast(t, sizeOf, Horizontal, max);
      AskingACellStartsTight(t, sizeOf, Vertical, max);
      AskingACellStartsTight(t, sizeOf, Horizontal, max);
      EvenlyFramed(t, sizeOf, Vertical, max);
      EvenlyFramed(t, sizeOf, Horizontal, max);
  }

  /** A larger extent fits whatever a smaller one does. */
  lemma {:induction false} FitsMonotone(t: Node, sizeOf: SizeOf, axis: Direction, n: nat, m: nat)
    requires AllKnown(t, sizeOf) && n <= m && Fits(t, sizeOf, axis, n)
    ensures Fits(t, sizeOf, axis, m)
  {
    hide Sides;
    if t.Split? {
      SidesGrowSlowly(t.dir, t.ratio, axis, n, m - n);
      var (na, nb) := Sides(t.dir, t.ratio, axis, n);
      var (ma, mb) := Sides(t.dir, t.ratio, axis, m);
      FitsMonotone(t.a, sizeOf, axis, na, ma);
      FitsMonotone(t.b, sizeOf, axis, nb, mb);
    }
  }

  lemma {:induction false} GrowOnlyGrows(t: Node, sizeOf: SizeOf, axis: Direction, max: nat, n: nat)
    ensures Min(n, max) <= Grow(t, sizeOf, axis, max, n) <= max
    decreases max - n
  {
    hide Deficit, ComputeRects;
    var short := Deficit(ComputeRects(t, Spanning(axis, n, 0)), sizeOf, axis);
    if short != 0 && n < max {
      GrowOnlyGrows(t, sizeOf, axis, max, Min(n + short, max));
    }
  }

  /** The extent the growth loop starts from has no cell to spare: one cell less would leave some pane short. */
  predicate StartsTight(t: Node, sizeOf: SizeOf, axis: Direction, max: nat)
    requires AllKnown(t, sizeOf)
    requires Reratioed(t, sizeOf).Some? && AllKnown(Reratioed(t, sizeOf).value.0, sizeOf)
  {
    var (tree, size) := Reratioed(t, sizeOf).value;
    var start := Min(Part(size, axis), max);
    start == 0 || !Fits(tree, sizeOf, axis, start - 1)
  }

  /** The main result on fitting, on one axis: the loop ends at the least extent exactly if it started tight. */
  lemma FittedIsLeast(t: Node, sizeOf: SizeOf, axis: Direction, max: nat)
    requires AllKnown(t, sizeOf)
    ensures Reratioed(t, sizeOf).Some? && AllKnown(Reratioed(t, sizeOf).value.0, sizeOf)
    ensures var (tree, size) := Reratioed(t, sizeOf).value;
            LeastFit(tree, sizeOf, axis, max, Grow(tree, sizeOf, axis, max, Part(size, axis)))
            <==> StartsTight(t, sizeOf, axis, max)
  {
    hide Share, Fits;
    ReratioedShape(t, sizeOf);
    var (tree, size) := Reratioed(t, sizeOf).value;
    var n := Part(size, axis);
    var start := Min(n, max);
    GrowOnlyGrows(tree, sizeOf, axis, max, n);
    if StartsTight(t, sizeOf, axis, max) {
      forall m: nat | m < start
        ensures !Fits(tree, sizeOf, axis, m)
      {
        if Fits(tree, sizeOf, axis, m) {
          FitsMonotone(tree, sizeOf, axis, m, start - 1);
        }
      }
      if n <= max {
        GrowFindsLeast(tree, sizeOf, axis, max, n);
      }
    }
  }

  /** Where every pane asks for a cell the sum of the sizes is a lower bound, so the loop starts tight. */
  lemma AskingACellStartsTight(t: Node, sizeOf: SizeOf, axis: Direction, max: nat)
    requires AllKnown(t, sizeOf) && Reratioed(t, sizeOf).Some? && AllKnown(Reratioed(t, sizeOf).value.0, sizeOf)
    ensures AllAskACell(t, sizeOf, axis) ==> StartsTight(t, sizeOf, axis, max)
  {
    hide Share, Fits;
    var (tree, size) := Reratioed(t, sizeOf).value;
    var start := Min(Part(size, axis), max);
    if AllAskACell(t, sizeOf, axis) && start > 0 && Fits(tree, sizeOf, axis, start - 1) {
      LowerBound(t, sizeOf, axis, start - 1);
    }
  }

  lemma ZeroSizesFit(sizeOf: SizeOf, tree: Node, n: nat)
    requires sizeOf(1) == sizeOf(2) == Some((0, 0))
    requires tree == Split(Vertical, MIN_RATIO, Leaf(1), Leaf(2))
    ensures Fits(tree, sizeOf, Vertical, n)
  {
  }

  lemma ZeroSizesRatio(sizeOf: SizeOf, t: Node)
    requires sizeOf(1) == sizeOf(2) == Some((0, 0))
    requires t == Split(Vertical, 0.5, Leaf(1), Leaf(2))
    ensures Reratioed(t, sizeOf) == Some((Split(Vertical, MIN_RATIO, Leaf(1), Leaf(2)), (1, 0)))
  {
    assert Reratioed(Leaf(1), sizeOf) == Some((Leaf(1), (0, 0)));
    assert Reratioed(Leaf(2), sizeOf) == Some((Leaf(2), (0, 0)));
    assert Proportion(0, 0) == 0.0;
  }

  /** Two side-by-side panes asking for no width get a one-cell viewport, though an empty one already fits them. */
  lemma ZeroSizesOverestimate(sizeOf: SizeOf, t: Node, max: U16)
    requires sizeOf(1) == sizeOf(2) == Some((0, 0)) && max >= 1
    requires t == Split(Vertical, 0.5, Leaf(1), Leaf(2))
    ensures Reratioed(t, sizeOf).Some? && AllKnown(Reratioed(t, sizeOf).value.0, sizeOf)
    ensures Reratioed(t, sizeOf).value.1.0 == 1
    ensures Grow(Reratioed(t, sizeOf).value.0, sizeOf, Vertical, max, 1) == 1
    ensures Fits(Reratioed(t, sizeOf).value.0, sizeOf, Vertical, 0) && !StartsTight(t, sizeOf, Vertical, max)
  {
    ZeroSizesRatio(sizeOf, t);
    var tree := Reratioed(t, sizeOf).value.0;
    ZeroSizesFit(sizeOf, tree, 0);
    ZeroSizesFit(sizeOf, tree, 1);
    NoDeficitMeansFit(tree, sizeOf, Vertical, Spanning(Vertical, 1, 0));
  }
}
