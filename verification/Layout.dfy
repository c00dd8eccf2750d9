/**
 The layout engine: a binary split tree, the rectangles it gives its panes, and
 the edits that split, remove, swap and resize panes.

 Split ratios are reals in [0.05, 0.95]; the rounding of 32-bit floats is not
 modelled. Cell coordinates are natural numbers, and `RectsFitU16` says when
 they all fit the 16 bits the program stores them in.
 */
module Layout {
  import opened Wrappers

  type PaneId = nat

  /** `Horizontal` stacks `a` over `b`; `Vertical` puts `a` to the left of `b`. */
  datatype Direction = Horizontal | Vertical

  const MIN_RATIO: real := 0.05
  const MAX_RATIO: real := 0.95

  type Ratio = r: real | MIN_RATIO <= r <= MAX_RATIO witness 0.5

  datatype Node =
    | Leaf(pane: PaneId)
    | Split(dir: Direction, ratio: Ratio, a: Node, b: Node)

  datatype Rect = Rect(x: nat, y: nat, width: nat, height: nat)

  function ClampRatio(r: real): (c: Ratio)
    ensures MIN_RATIO <= r <= MAX_RATIO ==> c == r
    ensures r < MIN_RATIO ==> c == MIN_RATIO
    ensures r > MAX_RATIO ==> c == MAX_RATIO
  {
    if r < MIN_RATIO then MIN_RATIO else if r > MAX_RATIO then MAX_RATIO else r
  }

  function MakeSplit(dir: Direction, ratio: real, a: Node, b: Node): Node {
    Split(dir, ClampRatio(ratio), a, b)
  }

  // ----- Sharing cells out -----

  /** The cells side `a` gets of `total`: `total * ratio`, rounded half up. */
  function Share(total: nat, ratio: Ratio): (s: nat)
    ensures s <= total
  {
    ScaleBounds(total, ratio);
    (total as real * ratio + 0.5).Floor
  }

  /** Side `a` gets its proportion of the cells, to within half a cell. */
  lemma ShareIsNearest(total: nat, ratio: Ratio)
    ensures total as real * ratio - 0.5 < Share(total, ratio) as real <= total as real * ratio + 0.5
  {
  }

  lemma ScaleBounds(total: nat, ratio: Ratio)
    ensures 0.0 <= total as real * ratio <= total as real
  {
    ScaleMonotone(total as real, 0.0, ratio);
    ScaleMonotone(total as real, ratio, 1.0);
  }

  lemma ScaleMonotone(n: real, r: real, r': real)
    requires 0.0 <= n && r <= r'
    ensures n * r <= n * r'
  {
    assert n * (r' - r) >= 0.0;
    assert n * (r' - r) == n * r' - n * r;
  }

  lemma FloorGrows(x: real, y: real, n: nat)
    requires x <= y
    ensures x.Floor <= y.Floor
    ensures y <= x + n as real ==> y.Floor <= x.Floor + n
  {
    assert x.Floor as real <= x < (x.Floor + 1) as real;
    assert y.Floor as real <= y < (y.Floor + 1) as real;
  }

  lemma ScaleAdd(m: real, n: real, ratio: real)
    ensures (m + n) * ratio == m * ratio + n * ratio
  {
  }

  /** One more cell to share gives either side at most one more, and never one less. */
  lemma ShareGrowsSlowly(total: nat, more: nat, ratio: Ratio)
    ensures Share(total, ratio) <= Share(total + more, ratio) <= Share(total, ratio) + more
  {
    var t, m := total as real, more as real;
    assert (total + more) as real == t + m;
    ScaleAdd(t, m, ratio);
    ScaleBounds(more, ratio);
    FloorGrows(t * ratio + 0.5, (t + m) * ratio + 0.5, more);
  }

  lemma ShareMonotoneInRatio(total: nat, r: Ratio, r': Ratio)
    requires r <= r'
    ensures Share(total, r) <= Share(total, r')
  {
    ScaleMonotone(total as real, r, r');
    var x, y := total as real * r + 0.5, total as real * r' + 0.5;
    FloorGrows(x, y, total);
  }

  // ----- Rectangles -----

  /** The cells a split shares out of `extent`: all but its separator. */
  function Shared(extent: nat): nat {
    if extent == 0 then 0 else extent - 1
  }

  function SplitRect(v: Rect, dir: Direction, ratio: Ratio): (Rect, Rect) {
    match dir
    case Vertical =>
      var total := Shared(v.width);
      var aw := Share(total, ratio);
      (Rect(v.x, v.y, aw, v.height), Rect(v.x + aw + 1, v.y, total - aw, v.height))
    case Horizontal =>
      var total := Shared(v.height);
      var ah := Share(total, ratio);
      (Rect(v.x, v.y, v.width, ah), Rect(v.x, v.y + ah + 1, v.width, total - ah))
  }

  function PaneIds(t: Node): (s: seq<PaneId>)
    ensures |s| >= 1
  {
    match t
    case Leaf(p) => [p]
    case Split(_, _, a, b) => PaneIds(a) + PaneIds(b)
  }

  function PaneCount(t: Node): nat {
    match t
    case Leaf(_) => 1
    case Split(_, _, a, b) => PaneCount(a) + PaneCount(b)
  }

  predicate Contains(t: Node, target: PaneId)
    ensures Contains(t, target) <==> target in PaneIds(t)
  {
    match t
    case Leaf(p) => p == target
    case Split(_, _, a, b) => Contains(a, target) || Contains(b, target)
  }

  function ComputeRects(t: Node, v: Rect): seq<(PaneId, Rect)> {
    match t
    case Leaf(p) => [(p, v)]
    case Split(dir, ratio, a, b) =>
      var (ra, rb) := SplitRect(v, dir, ratio);
      ComputeRects(a, ra) + ComputeRects(b, rb)
  }

  /** The strip between the two sides of a split: one cell wide, or empty when there is no room. */
  ghost function SeparatorRect(v: Rect, dir: Direction, ratio: Ratio): Rect {
    match dir
    case Vertical =>
      Rect(v.x + Share(Shared(v.width), ratio), v.y, v.width - Shared(v.width), v.height)
    case Horizontal =>
      Rect(v.x, v.y + Share(Shared(v.height), ratio), v.width, v.height - Shared(v.height))
  }

  ghost function Separators(t: Node, v: Rect): seq<Rect> {
    match t
    case Leaf(_) => []
    case Split(dir, ratio, a, b) =>
      var (ra, rb) := SplitRect(v, dir, ratio);
      [SeparatorRect(v, dir, ratio)] + Separators(a, ra) + Separators(b, rb)
  }

  predicate Covers(r: Rect, cx: nat, cy: nat) {
    r.x <= cx < r.x + r.width && r.y <= cy < r.y + r.height
  }

  predicate Visible(r: Rect) {
    r.width > 0 && r.height > 0
  }

  predicate Inside(r: Rect, v: Rect) {
    v.x <= r.x && r.x + r.width <= v.x + v.width && v.y <= r.y && r.y + r.height <= v.y + v.height
  }

  /** How many of the pane rectangles cover a cell. */
  ghost function PanesAt(rs: seq<(PaneId, Rect)>, cx: nat, cy: nat): nat {
    if rs == [] then 0 else (if Covers(rs[0].1, cx, cy) then 1 else 0) + PanesAt(rs[1..], cx, cy)
  }

  ghost function StripsAt(rs: seq<Rect>, cx: nat, cy: nat): nat {
    if rs == [] then 0 else (if Covers(rs[0], cx, cy) then 1 else 0) + StripsAt(rs[1..], cx, cy)
  }

  lemma {:induction false} PanesAtConcat(r: seq<(PaneId, Rect)>, s: seq<(PaneId, Rect)>, cx: nat, cy: nat)
    ensures PanesAt(r + s, cx, cy) == PanesAt(r, cx, cy) + PanesAt(s, cx, cy)
  {
    if r == [] {
      assert r + s == s;
    } else {
      assert (r + s)[1..] == r[1..] + s;
      PanesAtConcat(r[1..], s, cx, cy);
    }
  }

  lemma {:induction false} StripsAtConcat(r: seq<Rect>, s: seq<Rect>, cx: nat, cy: nat)
    ensures StripsAt(r + s, cx, cy) == StripsAt(r, cx, cy) + StripsAt(s, cx, cy)
  {
    if r == [] {
      assert r + s == s;
    } else {
      assert (r + s)[1..] == r[1..] + s;
      StripsAtConcat(r[1..], s, cx, cy);
    }
  }

  /** Every cell of the viewport is in exactly one pane or on exactly one separator; no other cell is in any. */
  lemma {:induction false} Tiling(t: Node, v: Rect, cx: nat, cy: nat)
    ensures PanesAt(ComputeRects(t, v), cx, cy) + StripsAt(Separators(t, v), cx, cy)
         == if Covers(v, cx, cy) then 1 else 0
  {
    hide Share;
    match t
    case Leaf(_) =>
    case Split(dir, ratio, a, b) =>
      var (ra, rb) := SplitRect(v, dir, ratio);
      Tiling(a, ra, cx, cy);
      Tiling(b, rb, cx, cy);
      PanesAtConcat(ComputeRects(a, ra), ComputeRects(b, rb), cx, cy);
      var sep := SeparatorRect(v, dir, ratio);
      StripsAtConcat([sep] + Separators(a, ra), Separators(b, rb), cx, cy);
      StripsAtConcat([sep], Separators(a, ra), cx, cy);
  }

  lemma {:induction false} PanesAtIndex(rs: seq<(PaneId, Rect)>, i: nat, j: nat, cx: nat, cy: nat)
    requires i <= j < |rs| && Covers(rs[i].1, cx, cy) && Covers(rs[j].1, cx, cy)
    ensures PanesAt(rs, cx, cy) >= if i == j then 1 else 2
  {
    if i == 0 {
      if j > 0 {
        PanesAtIndex(rs[1..], j - 1, j - 1, cx, cy);
      }
    } else {
      PanesAtIndex(rs[1..], i - 1, j - 1, cx, cy);
    }
  }

  /** Rectangles come out in pane order, one per leaf. */
  lemma {:induction false} RectsInPaneOrder(t: Node, v: Rect)
    ensures |ComputeRects(t, v)| == |PaneIds(t)| == PaneCount(t)
    ensures forall i :: 0 <= i < |PaneIds(t)| ==> ComputeRects(t, v)[i].0 == PaneIds(t)[i]
  {
    hide Share;
    match t
    case Leaf(_) =>
    case Split(dir, ratio, a, b) =>
      var (ra, rb) := SplitRect(v, dir, ratio);
      RectsInPaneOrder(a, ra);
      RectsInPaneOrder(b, rb);
  }

  /**
   The pane rectangles of any tree in any viewport: one per leaf in leaf order, the visible ones
   inside the viewport, no cell in two of them, and every viewport cell in exactly one of them or on
   exactly one separator strip.
   */
  lemma PanesTileTheViewport(t: Node, v: Rect)
    ensures |ComputeRects(t, v)| == |PaneIds(t)|
    ensures forall i :: 0 <= i < |PaneIds(t)| ==> ComputeRects(t, v)[i].0 == PaneIds(t)[i]
    ensures forall i :: 0 <= i < |PaneIds(t)| && Visible(ComputeRects(t, v)[i].1) ==> Inside(ComputeRects(t, v)[i].1, v)
    ensures forall i, j, cx: nat, cy: nat :: 0 <= i < j < |PaneIds(t)| && Covers(ComputeRects(t, v)[i].1, cx, cy)
              ==> !Covers(ComputeRects(t, v)[j].1, cx, cy)
    ensures forall cx: nat, cy: nat :: Covers(v, cx, cy)
              ==> PanesAt(ComputeRects(t, v), cx, cy) + StripsAt(Separators(t, v), cx, cy) == 1
  {
    RectsInPaneOrder(t, v);
    var rs := ComputeRects(t, v);
    forall i, cx: nat, cy: nat | 0 <= i < |rs| && Covers(rs[i].1, cx, cy)
      ensures Covers(v, cx, cy)
    {
      Tiling(t, v, cx, cy);
      PanesAtIndex(rs, i, i, cx, cy);
    }
    forall i | 0 <= i < |rs| && Visible(rs[i].1)
      ensures Inside(rs[i].1, v)
    {
      var r := rs[i].1;
      assert Covers(r, r.x, r.y);
      assert Covers(r, r.x + r.width - 1, r.y + r.height - 1);
    }
    forall i, j, cx: nat, cy: nat | 0 <= i < j < |rs| && Covers(rs[i].1, cx, cy)
      ensures !Covers(rs[j].1, cx, cy)
    {
      Tiling(t, v, cx, cy);
      if Covers(rs[j].1, cx, cy) {
        PanesAtIndex(rs, i, j, cx, cy);
      }
    }
    forall cx: nat, cy: nat | Covers(v, cx, cy)
      ensures PanesAt(rs, cx, cy) + StripsAt(Separators(t, v), cx, cy) == 1
    {
      Tiling(t, v, cx, cy);
    }
  }

  /** Every split's strip lies across the split, right after side `a` and before side `b`, and is one cell thick. */
  ghost predicate SeparatorsAreOneCell(t: Node, v: Rect) {
    match t
    case Leaf(_) => true
    case Split(dir, ratio, a, b) =>
      var (ra, rb) := SplitRect(v, dir, ratio);
      var s := SeparatorRect(v, dir, ratio);
      && (dir.Vertical? ==>
            && s.x == ra.x + ra.width && s.y == v.y && s.height == v.height
            && (v.width > 0 ==> s.width == 1 && rb.x == s.x + 1) && (v.width == 0 ==> s.width == 0))
      && (dir.Horizontal? ==>
            && s.y == ra.y + ra.height && s.x == v.x && s.width == v.width
            && (v.height > 0 ==> s.height == 1 && rb.y == s.y + 1) && (v.height == 0 ==> s.height == 0))
      && SeparatorsAreOneCell(a, ra) && SeparatorsAreOneCell(b, rb)
  }

  lemma {:induction false} SeparatorsOneCell(t: Node, v: Rect)
    ensures SeparatorsAreOneCell(t, v) && |Separators(t, v)| == PaneCount(t) - 1
  {
    hide Share;
    match t
    case Leaf(_) =>
    case Split(dir, ratio, a, b) =>
      var (ra, rb) := SplitRect(v, dir, ratio);
      SeparatorsOneCell(a, ra);
      SeparatorsOneCell(b, rb);
  }

  function Depth(t: Node): nat {
    match t
    case Leaf(_) => 0
    case Split(_, _, a, b) => 1 + Max(Depth(a), Depth(b))
  }

  /**
   16-bit coordinates suffice when the viewport's far corner leaves one spare cell per tree level:
   a zero-width viewport still pushes each `b` side one cell on.
   */
  lemma {:induction false} RectsFitU16(t: Node, v: Rect)
    requires v.x + v.width + Depth(t) < 0x10000 && v.y + v.height + Depth(t) < 0x10000
    ensures forall i :: 0 <= i < |ComputeRects(t, v)| ==>
              var r := ComputeRects(t, v)[i].1;
              r.x + r.width < 0x10000 && r.y + r.height < 0x10000
  {
    hide Share;
    match t
    case Leaf(_) =>
    case Split(dir, ratio, a, b) =>
      var (ra, rb) := SplitRect(v, dir, ratio);
      RectsFitU16(a, ra);
      RectsFitU16(b, rb);
  }

  // ----- Tree edits -----

  function SplitPane(t: Node, target: PaneId, added: PaneId, dir: Direction, ratio: real): Option<Node> {
    match t
    case Leaf(p) =>
      if p == target then Some(MakeSplit(dir, ratio, Leaf(target), Leaf(added))) else None
    case Split(d, r, a, b) =>
      match SplitPane(a, target, added, dir, ratio)
      case Some(na) => Some(MakeSplit(d, r, na, b))
      case None =>
        match SplitPane(b, target, added, dir, ratio)
        case Some(nb) => Some(MakeSplit(d, r, a, nb))
        case None => None
  }

  function RemovePane(t: Node, target: PaneId): Option<Node> {
    match t
    case Leaf(_) => None
    case Split(d, r, a, b) =>
      if a == Leaf(target) then Some(b)
      else if b == Leaf(target) then Some(a)
      else if Contains(a, target) then
        match RemovePane(a, target)
        case Some(na) => Some(MakeSplit(d, r, na, b))
        case None => None
      else if Contains(b, target) then
        match RemovePane(b, target)
        case Some(nb) => Some(MakeSplit(d, r, a, nb))
        case None => None
      else None
  }

  function SwapInner(t: Node, x: PaneId, y: PaneId): Node {
    match t
    case Leaf(p) => if p == x then Leaf(y) else if p == y then Leaf(x) else t
    case Split(d, r, a, b) => MakeSplit(d, r, SwapInner(a, x, y), SwapInner(b, x, y))
  }

  function SwapPanes(t: Node, x: PaneId, y: PaneId): Option<Node> {
    if !Contains(t, x) || !Contains(t, y) then None else Some(SwapInner(t, x, y))
  }

  /** Resizing changes the first split from the root that lies in `dir`, not the nearest one. */
  function ResizePane(t: Node, target: PaneId, dir: Direction, delta: real): Option<Node> {
    match t
    case Leaf(_) => None
    case Split(d, r, a, b) =>
      var inA := Contains(a, target);
      if !inA && !Contains(b, target) then None
      else if d == dir then
        Some(MakeSplit(d, ClampRatio(if inA then r + delta else r - delta), a, b))
      else if inA then
        match ResizePane(a, target, dir, delta)
        case Some(na) => Some(MakeSplit(d, r, na, b))
        case None => None
      else
        match ResizePane(b, target, dir, delta)
        case Some(nb) => Some(MakeSplit(d, r, a, nb))
        case None => None
  }

  // ----- What the edits do to the leaves -----

  predicate NoDuplicates<T(==)>(s: seq<T>) {
    forall i, j :: 0 <= i < j < |s| ==> s[i] != s[j]
  }

  ghost function Elements<T>(s: seq<T>): set<T> {
    set x | x in s
  }

  function InsertAfter(s: seq<PaneId>, target: PaneId, added: PaneId): seq<PaneId> {
    if s == [] then [] else
    if s[0] == target then [target, added] + s[1..] else [s[0]] + InsertAfter(s[1..], target, added)
  }

  function Without(s: seq<PaneId>, target: PaneId): seq<PaneId> {
    if s == [] then [] else
    if s[0] == target then Without(s[1..], target) else [s[0]] + Without(s[1..], target)
  }

  /** One step of `InsertAfter`, past an element that is not the target. */
  lemma InsertAfterOther(x: PaneId, s: seq<PaneId>, target: PaneId, added: PaneId)
    requires x != target
    ensures InsertAfter([x] + s, target, added) == [x] + InsertAfter(s, target, added)
  {
    assert ([x] + s)[1..] == s;
  }

  lemma InsertAfterTarget(s: seq<PaneId>, target: PaneId, added: PaneId)
    ensures InsertAfter([target] + s, target, added) == [target, added] + s
  {
    assert ([target] + s)[1..] == s;
  }

  lemma {:induction false} InsertAfterConcat(r: seq<PaneId>, s: seq<PaneId>, target: PaneId, added: PaneId)
    ensures InsertAfter(r + s, target, added)
         == if target in r then InsertAfter(r, target, added) + s else r + InsertAfter(s, target, added)
    decreases |r|
  {
    hide InsertAfter;
    if r == [] {
      assert r + s == s;
      assert r + InsertAfter(s, target, added) == InsertAfter(s, target, added);
    } else {
      var (x, rest) := (r[0], r[1..]);
      assert r == [x] + rest && r + s == [x] + (rest + s);
      if x == target {
        InsertAfterTarget(rest, target, added);
        InsertAfterTarget(rest + s, target, added);
        assert [target, added] + (rest + s) == [target, added] + rest + s;
      } else {
        InsertAfterOther(x, rest, target, added);
        InsertAfterOther(x, rest + s, target, added);
        InsertAfterConcat(rest, s, target, added);
        Reassociate(x, InsertAfter(rest, target, added), s);
        Reassociate(x, rest, InsertAfter(s, target, added));
      }
    }
  }

  lemma Reassociate(x: PaneId, a: seq<PaneId>, b: seq<PaneId>)
    ensures [x] + (a + b) == [x] + a + b
  {
  }

  lemma {:induction false} WithoutConcat(r: seq<PaneId>, s: seq<PaneId>, target: PaneId)
    ensures Without(r + s, target) == Without(r, target) + Without(s, target)
  {
    if r == [] {
      assert r + s == s;
    } else {
      assert (r + s)[1..] == r[1..] + s;
      WithoutConcat(r[1..], s, target);
    }
  }

  lemma {:induction false} WithoutAbsent(s: seq<PaneId>, target: PaneId)
    requires target !in s
    ensures Without(s, target) == s
  {
    if s != [] {
      WithoutAbsent(s[1..], target);
    }
  }

  /** Splitting succeeds exactly on a pane of the tree and puts the new pane right after the target. */
  lemma {:induction false} SplitPaneLeaves(t: Node, target: PaneId, added: PaneId, dir: Direction, ratio: real)
    ensures SplitPane(t, target, added, dir, ratio).Some? <==> Contains(t, target)
    ensures Contains(t, target) ==>
              PaneIds(SplitPane(t, target, added, dir, ratio).value) == InsertAfter(PaneIds(t), target, added)
  {
    hide ClampRatio;
    match t
    case Leaf(_) =>
    case Split(_, _, a, b) =>
      SplitPaneLeaves(a, target, added, dir, ratio);
      SplitPaneLeaves(b, target, added, dir, ratio);
      InsertAfterConcat(PaneIds(a), PaneIds(b), target, added);
  }

  lemma DistinctHalves(a: seq<PaneId>, b: seq<PaneId>)
    requires NoDuplicates(a + b)
    ensures NoDuplicates(a) && NoDuplicates(b)
    ensures forall x :: x in a ==> x !in b
  {
    assert forall i :: 0 <= i < |a| ==> a[i] == (a + b)[i];
    assert forall i :: 0 <= i < |b| ==> b[i] == (a + b)[|a| + i];
  }

  /** With distinct leaves, removing succeeds exactly on a pane of a split tree and drops just that leaf. */
  lemma {:induction false} RemovePaneLeaves(t: Node, target: PaneId)
    requires NoDuplicates(PaneIds(t))
    ensures RemovePane(t, target).Some? <==> t.Split? && Contains(t, target)
    ensures t.Split? && Contains(t, target) ==>
              PaneIds(RemovePane(t, target).value) == Without(PaneIds(t), target)
  {
    hide ClampRatio;
    match t
    case Leaf(_) =>
    case Split(_, _, a, b) =>
      DistinctHalves(PaneIds(a), PaneIds(b));
      RemovePaneLeaves(a, target);
      RemovePaneLeaves(b, target);
      WithoutConcat(PaneIds(a), PaneIds(b), target);
      if Contains(a, target) {
        WithoutAbsent(PaneIds(b), target);
      } else {
        WithoutAbsent(PaneIds(a), target);
      }
  }

  lemma PrependDistinct(x: PaneId, s: seq<PaneId>)
    requires x !in s && NoDuplicates(s)
    ensures NoDuplicates([x] + s)
  {
    var r := [x] + s;
    forall i, j | 0 <= i < j < |r|
      ensures r[i] != r[j]
    {
      assert r[j] == s[j - 1];
      if i > 0 {
        assert r[i] == s[i - 1];
      }
    }
  }

  /** Inserting a new element keeps a list duplicate-free and adds exactly that element. */
  lemma {:induction false} InsertAfterElements(s: seq<PaneId>, target: PaneId, added: PaneId)
    requires target in s && added !in s && NoDuplicates(s)
    ensures NoDuplicates(InsertAfter(s, target, added))
    ensures Elements(InsertAfter(s, target, added)) == Elements(s) + {added}
  {
    var r := InsertAfter(s, target, added);
    if s[0] == target {
      assert r == [target, added] + s[1..];
      assert forall x :: x in s <==> x == s[0] || x in s[1..];
    } else {
      assert forall x :: x in s <==> x == s[0] || x in s[1..];
      InsertAfterElements(s[1..], target, added);
      var tail := InsertAfter(s[1..], target, added);
      assert forall x :: x in tail <==> x in Elements(tail);
      assert forall x :: x in s[1..] <==> x in Elements(s[1..]);
      PrependDistinct(s[0], tail);
    }
  }

  /** Dropping an element keeps a list duplicate-free and takes away exactly that element. */
  lemma {:induction false} WithoutElements(s: seq<PaneId>, target: PaneId)
    requires NoDuplicates(s)
    ensures NoDuplicates(Without(s, target))
    ensures Elements(Without(s, target)) == Elements(s) - {target}
  {
    if s != [] {
      WithoutElements(s[1..], target);
      var tail := Without(s[1..], target);
      assert forall x :: x in s <==> x == s[0] || x in s[1..];
      assert forall x :: x in tail <==> x in Elements(tail);
      assert forall x :: x in s[1..] <==> x in Elements(s[1..]);
      if s[0] != target {
        PrependDistinct(s[0], tail);
      }
    }
  }

  function SwapId(p: PaneId, x: PaneId, y: PaneId): PaneId {
    if p == x then y else if p == y then x else p
  }

  lemma {:induction false} SwapInnerLeaves(t: Node, x: PaneId, y: PaneId)
    ensures |PaneIds(SwapInner(t, x, y))| == |PaneIds(t)|
    ensures forall i :: 0 <= i < |PaneIds(t)| ==> PaneIds(SwapInner(t, x, y))[i] == SwapId(PaneIds(t)[i], x, y)
  {
    hide ClampRatio;
    match t
    case Leaf(_) =>
    case Split(_, _, a, b) =>
      SwapInnerLeaves(a, x, y);
      SwapInnerLeaves(b, x, y);
  }

  /** Removing a freshly split pane restores the tree. */
  lemma {:induction false} RemoveUndoesSplit(t: Node, target: PaneId, added: PaneId, dir: Direction, ratio: real)
    requires Contains(t, target) && !Contains(t, added)
    ensures SplitPane(t, target, added, dir, ratio).Some?
    ensures var t' := SplitPane(t, target, added, dir, ratio).value;
            t'.Split? && Contains(t', added) && RemovePane(t', added) == Some(t)
  {
    hide ClampRatio, PaneIds;
    match t
    case Leaf(_) =>
    case Split(_, _, a, b) =>
      if Contains(a, target) {
        RemoveUndoesSplit(a, target, added, dir, ratio);
      } else {
        SplitNeedsTarget(a, target, added, dir, ratio);
        RemoveUndoesSplit(b, target, added, dir, ratio);
      }
  }

  lemma SplitNeedsTarget(t: Node, target: PaneId, added: PaneId, dir: Direction, ratio: real)
    requires !Contains(t, target)
    ensures SplitPane(t, target, added, dir, ratio).None?
  {
    SplitPaneLeaves(t, target, added, dir, ratio);
  }

  /** Swapping the same two panes twice restores the tree. */
  lemma {:induction false} SwapTwice(t: Node, x: PaneId, y: PaneId)
    requires Contains(t, x) && Contains(t, y)
    ensures SwapPanes(t, x, y).Some?
    ensures SwapPanes(SwapPanes(t, x, y).value, x, y) == Some(t)
  {
    SwapInnerLeaves(t, x, y);
    var s := SwapInner(t, x, y);
    var i :| 0 <= i < |PaneIds(t)| && PaneIds(t)[i] == x;
    var j :| 0 <= j < |PaneIds(t)| && PaneIds(t)[j] == y;
    assert PaneIds(s)[i] == y && PaneIds(s)[j] == x;
    SwapInnerTwice(t, x, y);
  }

  lemma {:induction false} SwapInnerTwice(t: Node, x: PaneId, y: PaneId)
    ensures SwapInner(SwapInner(t, x, y), x, y) == t
  {
    hide ClampRatio;
    match t
    case Leaf(_) =>
    case Split(_, _, a, b) =>
      SwapInnerTwice(a, x, y);
      SwapInnerTwice(b, x, y);
  }
}
