/**
 A window's layout: its tree, the zoom that hides all but one pane, and the
 search for the neighbour of a pane in a cardinal direction.
 */
module WindowLayouts {
  import opened Wrappers
  import opened Layout
  import opened LayoutFit

  datatype Zoom = Zoom(saved: Node, pane: PaneId)

  /** The value a `WindowLayout` holds: the tree shown now, and what a zoom put aside. */
  datatype LayoutState = LayoutState(tree: Node, zoom: Option<Zoom>)

  function NewLayout(p: PaneId): LayoutState {
    LayoutState(Leaf(p), None)
  }

  /** The tree without any zoom. */
  function BaseTree(l: LayoutState): Node {
    if l.zoom.Some? then l.zoom.value.saved else l.tree
  }

  function Unzoom(l: LayoutState): LayoutState {
    LayoutState(BaseTree(l), None)
  }

  function ZoomedPane(l: LayoutState): Option<PaneId> {
    if l.zoom.Some? then Some(l.zoom.value.pane) else None
  }

  /** A zoom shows exactly one pane, of a saved tree that has others. */
  predicate WellFormed(l: LayoutState) {
    l.zoom.Some? ==>
      && l.tree == Leaf(l.zoom.value.pane)
      && Contains(l.zoom.value.saved, l.zoom.value.pane)
      && PaneCount(l.zoom.value.saved) > 1
  }

  function ToggleZoom(l: LayoutState, p: PaneId): LayoutState {
    if ZoomedPane(l) == Some(p) then Unzoom(l)
    else
      var tree := BaseTree(l);
      if Contains(tree, p) && PaneCount(tree) > 1 then LayoutState(Leaf(p), Some(Zoom(tree, p)))
      else LayoutState(tree, None)
  }

  function SplitIn(l: LayoutState, target: PaneId, added: PaneId, dir: Direction, ratio: real): (LayoutState, bool) {
    match SplitPane(BaseTree(l), target, added, dir, ratio)
    case Some(tree) => (LayoutState(tree, None), true)
    case None => (Unzoom(l), false)
  }

  function RemoveIn(l: LayoutState, p: PaneId): (LayoutState, bool) {
    match RemovePane(BaseTree(l), p)
    case Some(tree) => (LayoutState(tree, None), true)
    case None => (Unzoom(l), false)
  }

  /** Zooming and unzooming a pane is the identity, except that it drops another pane's zoom. */
  lemma ToggleZoomTwice(l: LayoutState, p: PaneId)
    requires WellFormed(l)
    ensures ToggleZoom(ToggleZoom(l, p), p) == if l.zoom.Some? && l.zoom.value.pane != p then Unzoom(l) else l
  {
  }

  /** Every edit keeps the layout well-formed, and a toggle never changes the tree behind the zoom. */
  lemma EditsKeepWellFormed(l: LayoutState, p: PaneId, added: PaneId, dir: Direction, ratio: real)
    ensures WellFormed(NewLayout(p))
    ensures WellFormed(ToggleZoom(l, p)) && BaseTree(ToggleZoom(l, p)) == BaseTree(l)
    ensures WellFormed(SplitIn(l, p, added, dir, ratio).0) && WellFormed(RemoveIn(l, p).0)
  {
  }

  /** A zoom gives its pane the whole viewport; toggling it off, or on a pane that cannot be zoomed, shows the tree. */
  lemma ZoomFillsTheViewport(l: LayoutState, p: PaneId, v: Rect)
    requires WellFormed(l)
    ensures ComputeRects(ToggleZoom(l, p).tree, v)
            == if (l.zoom.Some? && l.zoom.value.pane == p) || p !in PaneIds(BaseTree(l)) || |PaneIds(BaseTree(l))| == 1
               then ComputeRects(BaseTree(l), v) else [(p, v)]
  {
    RectsInPaneOrder(BaseTree(l), v);
  }

  /** The mutable layout of one window. */
  class WindowLayout {
    var tree: Node
    var zoom: Option<Zoom>

    function Value(): LayoutState
      reads this
    {
      LayoutState(tree, zoom)
    }

    constructor (p: PaneId)
      ensures Value() == NewLayout(p)
    {
      tree := Leaf(p);
      zoom := None;
    }

    constructor Resume(l: LayoutState)
      ensures Value() == l
    {
      tree := l.tree;
      zoom := l.zoom;
    }

    method Toggle(p: PaneId)
      modifies this
      ensures Value() == ToggleZoom(old(Value()), p)
    {
      if zoom.Some? {
        var z := zoom.value;
        tree := z.saved;
        zoom := None;
        if z.pane == p {
          return;
        }
      }
      if Contains(tree, p) && PaneCount(tree) > 1 {
        zoom := Some(Zoom(tree, p));
        tree := Leaf(p);
      }
    }

    method Split(target: PaneId, added: PaneId, dir: Direction, ratio: real) returns (ok: bool)
      modifies this
      ensures (Value(), ok) == SplitIn(old(Value()), target, added, dir, ratio)
    {
      if zoom.Some? {
        tree := zoom.value.saved;
        zoom := None;
      }
      var r := SplitPane(tree, target, added, dir, ratio);
      ok := r.Some?;
      if ok {
        tree := r.value;
      }
    }

    method Remove(p: PaneId) returns (ok: bool)
      modifies this
      ensures (Value(), ok) == RemoveIn(old(Value()), p)
    {
      if zoom.Some? {
        tree := zoom.value.saved;
        zoom := None;
      }
      var r := RemovePane(tree, p);
      ok := r.Some?;
      if ok {
        tree := r.value;
      }
    }
  }

  // ----- Directional focus -----

  datatype NavDirection = Up | Down | Left | Right

  function CenterX(r: Rect): int {
    r.x + r.width / 2
  }

  function CenterY(r: Rect): int {
    r.y + r.height / 2
  }

  /** `r`'s centre lies strictly on the `dir` side of `from`'s. */
  predicate LiesTowards(from: Rect, r: Rect, dir: NavDirection) {
    match dir
    case Left => CenterX(r) < CenterX(from)
    case Right => CenterX(r) > CenterX(from)
    case Up => CenterY(r) < CenterY(from)
    case Down => CenterY(r) > CenterY(from)
  }

  function Abs(n: int): nat {
    if n < 0 then -n else n
  }

  /** Distance along `dir` first, sideways offset as the tie-breaker. */
  function NavDistance(from: Rect, r: Rect, dir: NavDirection): nat {
    var dx, dy := Abs(CenterX(r) - CenterX(from)), Abs(CenterY(r) - CenterY(from));
    if dir == Left || dir == Right then dx * 1000 + dy else dy * 1000 + dx
  }

  predicate Candidate(rects: seq<(PaneId, Rect)>, i: int, current: PaneId, from: Rect, dir: NavDirection) {
    0 <= i < |rects| && rects[i].0 != current && LiesTowards(from, rects[i].1, dir)
  }

  /** The index of the best candidate among the first `n` rectangles: the nearest, the earliest of equals. */
  function NearestAmong(rects: seq<(PaneId, Rect)>, n: nat, current: PaneId, from: Rect,
                        dir: NavDirection): (best: Option<nat>)
    requires n <= |rects|
    ensures best.Some? ==> best.value < n && Candidate(rects, best.value, current, from, dir)
  {
    if n == 0 then None else
    var best := NearestAmong(rects, n - 1, current, from, dir);
    if !Candidate(rects, n - 1, current, from, dir) then best
    else if best.Some?
            && NavDistance(from, rects[best.value].1, dir) <= NavDistance(from, rects[n - 1].1, dir) then best
    else Some(n - 1)
  }

  function Neighbor(t: Node, current: PaneId, dir: NavDirection, v: Rect): (r: Option<PaneId>)
    ensures r.Some? ==> Contains(t, r.value) && r.value != current
  {
    if !Contains(t, current) then None else
    var rects := ComputeRects(t, v);
    RectsInPaneOrder(t, v);
    match NearestAmong(rects, |rects|, current, RectOf(t, v, current), dir)
    case None => None
    case Some(k) => assert PaneIds(t)[k] in PaneIds(t); Some(rects[k].0)
  }

  /** `p` is the first of the nearest panes that lie strictly on the `dir` side of `current`. */
  ghost predicate IsNeighbor(rects: seq<(PaneId, Rect)>, current: PaneId, from: Rect, dir: NavDirection, p: PaneId) {
    exists k :: Candidate(rects, k, current, from, dir) && rects[k].0 == p
      && forall i :: Candidate(rects, i, current, from, dir) ==>
           var d, dk := NavDistance(from, rects[i].1, dir), NavDistance(from, rects[k].1, dir);
           dk < d || (dk == d && k <= i)
  }

  lemma {:induction false} NearestAmongIsNearest(rects: seq<(PaneId, Rect)>, n: nat, current: PaneId, from: Rect,
                                                 dir: NavDirection)
    requires n <= |rects|
    ensures match NearestAmong(rects, n, current, from, dir)
            case None => forall i :: Candidate(rects, i, current, from, dir) ==> i >= n
            case Some(k) =>
              forall i :: Candidate(rects, i, current, from, dir) && i < n ==>
                var d, dk := NavDistance(from, rects[i].1, dir), NavDistance(from, rects[k].1, dir);
                dk < d || (dk == d && k <= i)
  {
    if n > 0 {
      NearestAmongIsNearest(rects, n - 1, current, from, dir);
    }
  }

  /** The neighbour is the nearest pane on that side, or none when no pane lies there. */
  lemma NeighborIsNearest(t: Node, current: PaneId, dir: NavDirection, v: Rect)
    requires Contains(t, current)
    ensures match Neighbor(t, current, dir, v)
            case Some(p) => IsNeighbor(ComputeRects(t, v), current, RectOf(t, v, current), dir, p)
            case None => forall i :: !Candidate(ComputeRects(t, v), i, current, RectOf(t, v, current), dir)
  {
    var rects := ComputeRects(t, v);
    NearestAmongIsNearest(rects, |rects|, current, RectOf(t, v, current), dir);
  }

  // ----- What the directions mean -----

  /** `r` is nearer to `from` than `r'` is: along `dir` in the first place, sideways in the second. */
  predicate Closer(from: Rect, r: Rect, r': Rect, dir: NavDirection) {
    var (x, y) := (Abs(CenterX(r) - CenterX(from)), Abs(CenterY(r) - CenterY(from)));
    var (x', y') := (Abs(CenterX(r') - CenterX(from)), Abs(CenterY(r') - CenterY(from)));
    match dir
    case Left => x < x' || (x == x' && y < y')
    case Right => x < x' || (x == x' && y < y')
    case Up => y < y' || (y == y' && x < x')
    case Down => y < y' || (y == y' && x < x')
  }

  /** Between panes of a viewport under a thousand cells each way, the weighted distance compares just so. */
  lemma DistanceComparesInOrder(v: Rect, from: Rect, r: Rect, r': Rect, dir: NavDirection)
    requires v.width < 1000 && v.height < 1000 && Inside(from, v) && Inside(r, v) && Inside(r', v)
    ensures NavDistance(from, r, dir) < NavDistance(from, r', dir) <==> Closer(from, r, r', dir)
  {
    assert v.x <= CenterX(from) <= v.x + v.width && v.y <= CenterY(from) <= v.y + v.height;
    assert v.x <= CenterX(r) <= v.x + v.width && v.y <= CenterY(r) <= v.y + v.height;
    assert v.x <= CenterX(r') <= v.x + v.width && v.y <= CenterY(r') <= v.y + v.height;
  }

  /** Of two visible rectangles side by side one lies left and the other right; likewise one above the other. */
  lemma SidesAreSides(r: Rect, s: Rect)
    requires Visible(r) && Visible(s)
    ensures r.x + r.width <= s.x ==>
              && LiesTowards(s, r, Left) && LiesTowards(r, s, Right)
              && !LiesTowards(r, s, Left) && !LiesTowards(s, r, Right)
    ensures r.y + r.height <= s.y ==>
              && LiesTowards(s, r, Up) && LiesTowards(r, s, Down)
              && !LiesTowards(r, s, Up) && !LiesTowards(s, r, Down)
  {
  }

  /** Across a split the panes of one side lie all on the same side of the other's: focus can cross it both ways. */
  lemma FocusCrossesSplits(t: Node, v: Rect, p: PaneId, q: PaneId)
    requires t.Split? && NoDuplicates(PaneIds(t)) && Contains(t.a, p) && Contains(t.b, q)
    requires Visible(RectOf(t, v, p)) && Visible(RectOf(t, v, q))
    ensures Neighbor(t, p, if t.dir == Vertical then Right else Down, v).Some?
    ensures Neighbor(t, q, if t.dir == Vertical then Left else Up, v).Some?
  {
    hide Share, NavDistance, Neighbor;
    DistinctHalves(PaneIds(t.a), PaneIds(t.b));
    assert !Contains(t.a, q) && p != q;
    var (ra, rb) := SplitRect(v, t.dir, t.ratio);
    var (rp, rq) := (RectOf(t, v, p), RectOf(t, v, q));
    InsideTheViewport(t.a, ra, p);
    InsideTheViewport(t.b, rb, q);
    SidesAreSides(rp, rq);
    hide LiesTowards, SplitRect, PaneIds;
    SomeNeighbor(t, v, p, q, if t.dir == Vertical then Right else Down);
    SomeNeighbor(t, v, q, p, if t.dir == Vertical then Left else Up);
  }

  lemma InsideTheViewport(t: Node, v: Rect, p: PaneId)
    requires Contains(t, p) && Visible(RectOf(t, v, p))
    ensures Inside(RectOf(t, v, p), v)
  {
    hide Share;
    PanesTileTheViewport(t, v);
    var rects := ComputeRects(t, v);
    var i :| 0 <= i < |rects| && rects[i] == (p, RectOf(t, v, p));
  }

  lemma SomeNeighbor(t: Node, v: Rect, p: PaneId, q: PaneId, dir: NavDirection)
    requires Contains(t, p) && Contains(t, q) && p != q && LiesTowards(RectOf(t, v, p), RectOf(t, v, q), dir)
    ensures Neighbor(t, p, dir, v).Some?
  {
    hide ComputeRects, LiesTowards, NavDistance;
    NeighborIsNearest(t, p, dir, v);
    var rects := ComputeRects(t, v);
    var i :| 0 <= i < |rects| && rects[i] == (q, RectOf(t, v, q));
    assert Candidate(rects, i, p, RectOf(t, v, p), dir);
  }

  method DirectionalFocus(t: Node, current: PaneId, dir: NavDirection, v: Rect) returns (r: Option<PaneId>)
    ensures r == Neighbor(t, current, dir, v)
  {
    hide ComputeRects, RectOf, NavDistance, LiesTowards;
    if !Contains(t, current) {
      return None;
    }
    var rects := ComputeRects(t, v);
    var from := RectOf(t, v, current);
    var best: Option<(PaneId, nat)> := None;
    for n := 0 to |rects|
      invariant best == match NearestAmong(rects, n, current, from, dir)
                        case None => None
                        case Some(k) => Some((rects[k].0, NavDistance(from, rects[k].1, dir)))
    {
      var (id, rect) := rects[n];
      if id != current && LiesTowards(from, rect, dir) {
        var dist := NavDistance(from, rect, dir);
        if best.None? || dist < best.value.1 {
          best := Some((id, dist));
        }
      }
    }
    r := if best.None? then None else Some(best.value.0);
  }
}
