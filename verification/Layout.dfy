/** Named layouts: their split ratios, the split tree they build and the frames it lays out.
    Ratios and lengths are exact reals. */
module Layout {
  import opened Bytes

  datatype SplitDir = Right | Down

  datatype SplitSpec = SplitSpec(direction: SplitDir, ratio: real)

  datatype TabLayout = Manual | EvenHorizontal | EvenVertical | MainHorizontal | MainVertical | Tiled

  // ---- split ratios ----

  /** One pane out of `remaining`. */
  function Share(direction: SplitDir, remaining: nat): SplitSpec
    requires remaining > 0
  {
    SplitSpec(direction, 1.0 / remaining as real)
  }

  /** How pane `i` of `n` splits off from the pane before it. */
  function SplitOf(layout: TabLayout, n: nat, i: nat): SplitSpec
    requires 1 <= i < n
  {
    match layout
    case Manual => SplitSpec(Down, 0.5)
    case EvenHorizontal => Share(Right, n - i + 1)
    case EvenVertical => Share(Down, n - i + 1)
    case MainVertical => if i == 1 then SplitSpec(Right, 0.6) else Share(Down, n - i + 1)
    case MainHorizontal => if i == 1 then SplitSpec(Down, 0.6) else Share(Right, n - i + 1)
    case Tiled => Share(if i % 2 == 1 then Right else Down, n - i + 1)
  }

  function SplitsOf(layout: TabLayout, n: nat): (r: seq<SplitSpec>)
    ensures |r| == if n <= 1 then 0 else n - 1
  {
    if n <= 1 then [] else seq(n - 1, k requires 0 <= k < n - 1 => SplitOf(layout, n, k + 1))
  }

  method LayoutSplits(layout: TabLayout, n: nat) returns (splits: seq<SplitSpec>)
    ensures splits == SplitsOf(layout, n)
  {
    if n <= 1 {
      return [];
    }
    match layout {
      case Manual => splits := seq(n - 1, _ => SplitSpec(Down, 0.5));
      case EvenHorizontal => splits := seq(n - 1, k requires 0 <= k < n - 1 => Share(Right, n - k));
      case EvenVertical => splits := seq(n - 1, k requires 0 <= k < n - 1 => Share(Down, n - k));
      case MainVertical => splits := MainSplits(layout, n, Right, Down);
      case MainHorizontal => splits := MainSplits(layout, n, Down, Right);
      case Tiled =>
        splits := seq(n - 1, k requires 0 <= k < n - 1 => Share(if k % 2 == 0 then Right else Down, n - k));
    }
  }

  /** The loop of the two main layouts: a big first pane, the others stacked beside it. */
  method MainSplits(layout: TabLayout, n: nat, main: SplitDir, rest: SplitDir) returns (splits: seq<SplitSpec>)
    requires n > 1
    requires (layout == MainVertical && main == Right && rest == Down)
             || (layout == MainHorizontal && main == Down && rest == Right)
    ensures splits == SplitsOf(layout, n)
  {
    splits := [SplitSpec(main, 0.6)];
    for i := 2 to n
      invariant |splits| == i - 1
      invariant forall k :: 0 <= k < |splits| ==> splits[k] == SplitOf(layout, n, k + 1)
    {
      splits := splits + [Share(rest, n - i + 1)];
    }
  }

  // ---- split trees ----

  type PaneId = u64

  datatype Node = Leaf(id: nat, pane: PaneId) | Split(direction: SplitDir, ratio: real, first: Node, second: Node)

  function Clamp(ratio: real): real {
    if ratio < 0.1 then 0.1 else if ratio > 0.9 then 0.9 else ratio
  }

  function SplitNode(node: Node, target: nat, direction: SplitDir, newId: nat, pane: PaneId, ratio: real): Node {
    match node
    case Leaf(id, _) => if id == target then Split(direction, Clamp(ratio), node, Leaf(newId, pane)) else node
    case Split(d, r, first, second) =>
      Split(d, r, SplitNode(first, target, direction, newId, pane, ratio),
            SplitNode(second, target, direction, newId, pane, ratio))
  }

  function SplitAfter(splits: seq<SplitSpec>, i: nat): SplitSpec {
    if i < |splits| then splits[i] else SplitSpec(Down, 0.5)
  }

  /** Panes `i` to `k`, each split off from the one before it. */
  function Spine(panes: seq<PaneId>, splits: seq<SplitSpec>, i: nat, k: nat): Node
    requires i <= k < |panes|
    decreases k - i
  {
    if i == k then Leaf(i, panes[i])
    else Split(SplitAfter(splits, i).direction, Clamp(SplitAfter(splits, i).ratio), Leaf(i, panes[i]),
               Spine(panes, splits, i + 1, k))
  }

  lemma {:induction false} SplitSpine(panes: seq<PaneId>, splits: seq<SplitSpec>, i: nat, k: nat)
    requires i <= k && k + 1 < |panes|
    ensures var s := SplitAfter(splits, k);
            SplitNode(Spine(panes, splits, i, k), k, s.direction, k + 1, panes[k + 1], s.ratio)
            == Spine(panes, splits, i, k + 1)
    decreases k - i
  {
    hide Clamp;
    if i < k {
      SplitSpine(panes, splits, i + 1, k);
    } else {
      assert Spine(panes, splits, k + 1, k + 1) == Leaf(k + 1, panes[k + 1]);
    }
  }

  /** `rebuild_from_panes`: pane after pane is split off from the newest leaf. */
  method RebuildFromPanes(panes: seq<PaneId>, splits: seq<SplitSpec>) returns (root: Option<Node>)
    ensures root == if panes == [] then None else Some(Spine(panes, splits, 0, |panes| - 1))
  {
    if panes == [] {
      return None;
    }
    var node := Leaf(0, panes[0]);
    for i := 1 to |panes|
      invariant node == Spine(panes, splits, 0, i - 1)
    {
      SplitSpine(panes, splits, 0, i - 1);
      var s := SplitAfter(splits, i - 1);
      node := SplitNode(node, i - 1, s.direction, i, panes[i], s.ratio);
    }
    return Some(node);
  }

  // ---- frames ----

  datatype Rect = Rect(x: real, y: real, w: real, h: real)
  {
    function Area(): real { w * h }

    /** Left and top edges belong to a frame, right and bottom edges do not. */
    predicate Contains(px: real, py: real) {
      x <= px < x + w && y <= py < y + h
    }
  }

  const SPLIT_BORDER: real := 1.0

  function Part(length: real, ratio: real): real {
    length * ratio
  }

  /** The two halves, and the divider of width `border` between them. */
  function SplitFrame(f: Rect, direction: SplitDir, ratio: real, border: real): (Rect, Rect, Rect) {
    match direction
    case Right =>
      var usable := f.w - border;
      var w1 := Part(usable, ratio);
      (Rect(f.x, f.y, w1, f.h), Rect(f.x + w1 + border, f.y, usable - w1, f.h), Rect(f.x + w1, f.y, border, f.h))
    case Down =>
      var usable := f.h - border;
      var h1 := Part(usable, ratio);
      (Rect(f.x, f.y, f.w, h1), Rect(f.x, f.y + h1 + border, f.w, usable - h1), Rect(f.x, f.y + h1, f.w, border))
  }

  datatype Placed = Placed(id: nat, pane: PaneId, frame: Rect)

  /** `layout_node`: the leaves, first child first, with their frames. */
  function LayoutNode(node: Node, frame: Rect, border: real): seq<Placed> {
    match node
    case Leaf(id, pane) => [Placed(id, pane, frame)]
    case Split(direction, ratio, first, second) =>
      var halves := SplitFrame(frame, direction, ratio, border);
      LayoutNode(first, halves.0, border) + LayoutNode(second, halves.1, border)
  }

  function Dividers(node: Node, frame: Rect, border: real): seq<Rect> {
    match node
    case Leaf(_, _) => []
    case Split(direction, ratio, first, second) =>
      var halves := SplitFrame(frame, direction, ratio, border);
      [halves.2] + Dividers(first, halves.0, border) + Dividers(second, halves.1, border)
  }

  function FramesOf(placed: seq<Placed>): (r: seq<Rect>)
    ensures |r| == |placed|
  {
    seq(|placed|, i requires 0 <= i < |placed| => placed[i].frame)
  }

  // ---- tiling ----

  predicate RatiosInRange(node: Node) {
    node.Split? ==> 0.0 <= node.ratio <= 1.0 && RatiosInRange(node.first) && RatiosInRange(node.second)
  }

  /** No split is asked to divide less than its border. */
  predicate Roomy(node: Node, f: Rect, border: real) {
    match node
    case Leaf(_, _) => f.w >= 0.0 && f.h >= 0.0
    case Split(direction, ratio, first, second) =>
      && (if direction.Right? then f.w >= border && f.h >= 0.0 else f.h >= border && f.w >= 0.0)
      && var halves := SplitFrame(f, direction, ratio, border);
         Roomy(first, halves.0, border) && Roomy(second, halves.1, border)
  }

  /** How many of the frames hold the point. */
  function Holding(frames: seq<Rect>, px: real, py: real): nat {
    if frames == [] then 0 else (if frames[0].Contains(px, py) then 1 else 0) + Holding(frames[1..], px, py)
  }

  lemma {:induction false} HoldingAppend(a: seq<Rect>, b: seq<Rect>, px: real, py: real)
    ensures Holding(a + b, px, py) == Holding(a, px, py) + Holding(b, px, py)
  {
    if a == [] {
      assert a + b == b;
    } else {
      assert (a + b)[1..] == a[1..] + b;
      HoldingAppend(a[1..], b, px, py);
    }
  }

  lemma FramesOfAppend(a: seq<Placed>, b: seq<Placed>)
    ensures FramesOf(a + b) == FramesOf(a) + FramesOf(b)
  {
  }

  lemma NonNegative(a: real, b: real)
    requires a >= 0.0 && b >= 0.0
    ensures a * b >= 0.0
  {
  }

  lemma Between(usable: real, ratio: real)
    requires 0.0 <= ratio <= 1.0
    ensures usable >= 0.0 ==> 0.0 <= Part(usable, ratio) <= usable
    ensures usable <= 0.0 ==> usable <= Part(usable, ratio) <= 0.0
  {
    var rest := 1.0 - ratio;
    if usable >= 0.0 {
      NonNegative(usable, ratio);
      NonNegative(usable, rest);
    } else {
      NonNegative(-usable, ratio);
      NonNegative(-usable, rest);
    }
    assert usable * ratio + usable * rest == usable * (ratio + rest);
  }

  predicate Within(p: real, lo: real, length: real) {
    lo <= p < lo + length
  }

  /** A length cut in two with a border between. */
  lemma CutInterval(p: real, lo: real, length: real, first: real, border: real)
    requires border >= 0.0
    requires length >= border ==> 0.0 <= first <= length - border
    requires length <= border ==> length - border <= first <= 0.0
    ensures var a, b, c := Within(p, lo, first), Within(p, lo + first + border, length - border - first),
                           Within(p, lo + first, border);
            && (a || b ==> Within(p, lo, length)) && !(a && b)
            && (length >= border ==> !(a && c) && !(b && c) && (a || b || c <==> Within(p, lo, length)))
  {
  }

  lemma SplitPoint(f: Rect, direction: SplitDir, ratio: real, border: real, px: real, py: real)
    requires border >= 0.0 && 0.0 <= ratio <= 1.0
    ensures var halves := SplitFrame(f, direction, ratio, border);
            var a, b, c := halves.0.Contains(px, py), halves.1.Contains(px, py), halves.2.Contains(px, py);
            && (a || b ==> f.Contains(px, py)) && !(a && b)
            && ((if direction.Right? then f.w else f.h) >= border ==>
                  !(a && c) && !(b && c) && (a || b || c <==> f.Contains(px, py)))
  {
    hide Part;
    if direction.Right? {
      Between(f.w - border, ratio);
      CutInterval(px, f.x, f.w, Part(f.w - border, ratio), border);
    } else {
      Between(f.h - border, ratio);
      CutInterval(py, f.y, f.h, Part(f.h - border, ratio), border);
    }
    hide Within;
    SplitContains(f, direction, ratio, border, px, py);
    hide SplitFrame, Rect.Contains;
  }

  lemma SplitContains(f: Rect, direction: SplitDir, ratio: real, border: real, px: real, py: real)
    ensures f.Contains(px, py) <==> Within(px, f.x, f.w) && Within(py, f.y, f.h)
    ensures var halves := SplitFrame(f, direction, ratio, border);
            if direction.Right? then
              var w1 := Part(f.w - border, ratio);
              && (halves.0.Contains(px, py) <==> Within(px, f.x, w1) && Within(py, f.y, f.h))
              && (halves.1.Contains(px, py)
                  <==> Within(px, f.x + w1 + border, f.w - border - w1) && Within(py, f.y, f.h))
              && (halves.2.Contains(px, py) <==> Within(px, f.x + w1, border) && Within(py, f.y, f.h))
            else
              var h1 := Part(f.h - border, ratio);
              && (halves.0.Contains(px, py) <==> Within(px, f.x, f.w) && Within(py, f.y, h1))
              && (halves.1.Contains(px, py)
                  <==> Within(px, f.x, f.w) && Within(py, f.y + h1 + border, f.h - border - h1))
              && (halves.2.Contains(px, py) <==> Within(px, f.x, f.w) && Within(py, f.y + h1, border))
  {
    hide Part;
  }

  /** Panes never overlap and never leave their frame, however small it is. */
  lemma {:induction false} PanesNeverOverlap(node: Node, f: Rect, border: real, px: real, py: real)
    requires border >= 0.0 && RatiosInRange(node)
    ensures Holding(FramesOf(LayoutNode(node, f, border)), px, py) <= if f.Contains(px, py) then 1 else 0
  {
    if node.Leaf? {
      assert FramesOf(LayoutNode(node, f, border)) == [f];
      assert [f][1..] == [];
    } else {
      var halves := SplitFrame(f, node.direction, node.ratio, border);
      var a, b := LayoutNode(node.first, halves.0, border), LayoutNode(node.second, halves.1, border);
      SplitPoint(f, node.direction, node.ratio, border, px, py);
      PanesNeverOverlap(node.first, halves.0, border, px, py);
      PanesNeverOverlap(node.second, halves.1, border, px, py);
      FramesOfAppend(a, b);
      HoldingAppend(FramesOf(a), FramesOf(b), px, py);
      hide SplitFrame, LayoutNode, Holding;
    }
  }

  /** Panes and dividers tile a roomy frame: each of its points lies in exactly one of them. */
  lemma {:induction false} PanesAndDividersTile(node: Node, f: Rect, border: real, px: real, py: real)
    requires border >= 0.0 && RatiosInRange(node) && Roomy(node, f, border)
    ensures Holding(FramesOf(LayoutNode(node, f, border)), px, py) + Holding(Dividers(node, f, border), px, py)
            == if f.Contains(px, py) then 1 else 0
  {
    if node.Leaf? {
      assert FramesOf(LayoutNode(node, f, border)) == [f];
      assert [f][1..] == [];
    } else {
      var halves := SplitFrame(f, node.direction, node.ratio, border);
      var a, b := LayoutNode(node.first, halves.0, border), LayoutNode(node.second, halves.1, border);
      var da, db := Dividers(node.first, halves.0, border), Dividers(node.second, halves.1, border);
      SplitPoint(f, node.direction, node.ratio, border, px, py);
      PanesAndDividersTile(node.first, halves.0, border, px, py);
      PanesAndDividersTile(node.second, halves.1, border, px, py);
      FramesOfAppend(a, b);
      HoldingAppend(FramesOf(a), FramesOf(b), px, py);
      HoldingAppend([halves.2] + da, db, px, py);
      HoldingAppend([halves.2], da, px, py);
      assert [halves.2][1..] == [];
      hide SplitFrame, LayoutNode, Dividers, Holding;
    }
  }

  /** Without borders there are no dividers to see: the panes alone tile the frame. */
  lemma {:induction false} NoBorderNoDividers(node: Node, f: Rect, px: real, py: real)
    ensures Holding(Dividers(node, f, 0.0), px, py) == 0
  {
    if node.Leaf? {
    } else {
      var halves := SplitFrame(f, node.direction, node.ratio, 0.0);
      var da, db := Dividers(node.first, halves.0, 0.0), Dividers(node.second, halves.1, 0.0);
      NoBorderNoDividers(node.first, halves.0, px, py);
      NoBorderNoDividers(node.second, halves.1, px, py);
      HoldingAppend([halves.2] + da, db, px, py);
      HoldingAppend([halves.2], da, px, py);
      assert [halves.2][1..] == [];
      assert !halves.2.Contains(px, py);
    }
  }

  lemma {:induction false} NoBorderRoomy(node: Node, f: Rect)
    requires RatiosInRange(node) && f.w >= 0.0 && f.h >= 0.0
    ensures Roomy(node, f, 0.0)
  {
    hide Part;
    if node.Leaf? {
    } else {
      Between(if node.direction.Right? then f.w - 0.0 else f.h - 0.0, node.ratio);
      var halves := SplitFrame(f, node.direction, node.ratio, 0.0);
      NoBorderRoomy(node.first, halves.0);
      NoBorderRoomy(node.second, halves.1);
    }
  }

  lemma PanesTile(node: Node, f: Rect, px: real, py: real)
    requires RatiosInRange(node) && f.w >= 0.0 && f.h >= 0.0
    ensures Holding(FramesOf(LayoutNode(node, f, 0.0)), px, py) == if f.Contains(px, py) then 1 else 0
  {
    NoBorderRoomy(node, f);
    NoBorderNoDividers(node, f, px, py);
    PanesAndDividersTile(node, f, 0.0, px, py);
  }

  function TotalArea(frames: seq<Rect>): real {
    if frames == [] then 0.0 else frames[0].Area() + TotalArea(frames[1..])
  }

  lemma {:induction false} TotalAreaAppend(a: seq<Rect>, b: seq<Rect>)
    ensures TotalArea(a + b) == TotalArea(a) + TotalArea(b)
  {
    hide Rect.Area;
    if a == [] {
      assert a + b == b;
    } else {
      assert (a + b)[1..] == a[1..] + b;
      TotalAreaAppend(a[1..], b);
    }
  }

  lemma SplitArea(f: Rect, direction: SplitDir, ratio: real, border: real)
    ensures var halves := SplitFrame(f, direction, ratio, border);
            f.Area() == halves.0.Area() + halves.1.Area() + halves.2.Area()
  {
    if direction.Right? {
      Distribute(f.h, Part(f.w - border, ratio), f.w - border - Part(f.w - border, ratio), border);
    } else {
      Distribute(f.w, Part(f.h - border, ratio), f.h - border - Part(f.h - border, ratio), border);
    }
  }

  lemma Distribute(k: real, a: real, b: real, c: real)
    ensures k * (a + b + c) == k * a + k * b + k * c
  {
  }

  /** Area is conserved by every tree, every ratio and every border. */
  lemma {:induction false} AreaConserved(node: Node, f: Rect, border: real)
    ensures TotalArea(FramesOf(LayoutNode(node, f, border))) + TotalArea(Dividers(node, f, border)) == f.Area()
  {
    if node.Leaf? {
      assert FramesOf(LayoutNode(node, f, border)) == [f];
      assert [f][1..] == [];
    } else {
      var halves := SplitFrame(f, node.direction, node.ratio, border);
      var a, b := LayoutNode(node.first, halves.0, border), LayoutNode(node.second, halves.1, border);
      var da, db := Dividers(node.first, halves.0, border), Dividers(node.second, halves.1, border);
      SplitArea(f, node.direction, node.ratio, border);
      AreaConserved(node.first, halves.0, border);
      AreaConserved(node.second, halves.1, border);
      FramesOfAppend(a, b);
      TotalAreaAppend(FramesOf(a), FramesOf(b));
      TotalAreaAppend([halves.2] + da, db);
      TotalAreaAppend([halves.2], da);
      assert [halves.2][1..] == [];
      hide SplitFrame, Rect.Area;
    }
  }

  // ---- splitting one pane ----

  /** Every placed leaf `target` is divided in two; the others stay as they are. */
  function Refine(placed: seq<Placed>, target: nat, s: SplitSpec, newId: nat, pane: PaneId, border: real): seq<Placed> {
    if placed == [] then []
    else
      var rest := Refine(placed[1..], target, s, newId, pane, border);
      var p := placed[0];
      if p.id != target then [p] + rest
      else
        var halves := SplitFrame(p.frame, s.direction, Clamp(s.ratio), border);
        [p.(frame := halves.0), Placed(newId, pane, halves.1)] + rest
  }

  lemma {:induction false} RefineAppend(a: seq<Placed>, b: seq<Placed>, target: nat, s: SplitSpec, newId: nat,
                                        pane: PaneId, border: real)
    ensures Refine(a + b, target, s, newId, pane, border)
            == Refine(a, target, s, newId, pane, border) + Refine(b, target, s, newId, pane, border)
  {
    hide SplitFrame, Clamp;
    if a == [] {
      assert a + b == b;
    } else {
      assert (a + b)[1..] == a[1..] + b;
      RefineAppend(a[1..], b, target, s, newId, pane, border);
    }
  }

  /** Splitting a pane divides that pane's frame only: all others keep pane, order and frame. */
  lemma {:induction false} SplitIsLocal(node: Node, f: Rect, border: real, target: nat, s: SplitSpec, newId: nat,
                                        pane: PaneId)
    ensures LayoutNode(SplitNode(node, target, s.direction, newId, pane, s.ratio), f, border)
            == Refine(LayoutNode(node, f, border), target, s, newId, pane, border)
  {
    hide SplitFrame, Clamp;
    if node.Split? {
      var halves := SplitFrame(f, node.direction, node.ratio, border);
      SplitIsLocal(node.first, halves.0, border, target, s, newId, pane);
      SplitIsLocal(node.second, halves.1, border, target, s, newId, pane);
      RefineAppend(LayoutNode(node.first, halves.0, border), LayoutNode(node.second, halves.1, border),
                   target, s, newId, pane, border);
    } else {
      assert LayoutNode(node, f, border)[1..] == [];
    }
  }

  // ---- named layouts ----

  /** The frames of `panes` under a named layout. */
  function Frames(layout: TabLayout, panes: seq<PaneId>, f: Rect, border: real): seq<Rect>
    requires panes != []
  {
    FramesOf(LayoutNode(Spine(panes, SplitsOf(layout, |panes|), 0, |panes| - 1), f, border))
  }

  function SpineFrames(panes: seq<PaneId>, splits: seq<SplitSpec>, i: nat, f: Rect, border: real): seq<Rect>
    requires i < |panes|
  {
    FramesOf(LayoutNode(Spine(panes, splits, i, |panes| - 1), f, border))
  }

  lemma SpineStep(panes: seq<PaneId>, splits: seq<SplitSpec>, i: nat, f: Rect, border: real)
    requires i < |panes|
    ensures i == |panes| - 1 ==> SpineFrames(panes, splits, i, f, border) == [f]
    ensures i < |panes| - 1 ==>
      var halves := SplitFrame(f, SplitAfter(splits, i).direction, Clamp(SplitAfter(splits, i).ratio), border);
      SpineFrames(panes, splits, i, f, border) == [halves.0] + SpineFrames(panes, splits, i + 1, halves.1, border)
  {
    hide SplitFrame, Clamp;
    if i < |panes| - 1 {
      var s := SplitAfter(splits, i);
      var halves := SplitFrame(f, s.direction, Clamp(s.ratio), border);
      var rest := LayoutNode(Spine(panes, splits, i + 1, |panes| - 1), halves.1, border);
      assert LayoutNode(Spine(panes, splits, i, |panes| - 1), f, border) == [Placed(i, panes[i], halves.0)] + rest by {
        assert LayoutNode(Leaf(i, panes[i]), halves.0, border) == [Placed(i, panes[i], halves.0)];
      }
      FramesOfAppend([Placed(i, panes[i], halves.0)], rest);
      assert FramesOf([Placed(i, panes[i], halves.0)]) == [halves.0];
    }
  }

  lemma {:induction false} SpineCount(panes: seq<PaneId>, splits: seq<SplitSpec>, i: nat, f: Rect, border: real)
    requires i < |panes|
    ensures |SpineFrames(panes, splits, i, f, border)| == |panes| - i
    decreases |panes| - i
  {
    hide SplitFrame, Clamp, SpineFrames;
    SpineStep(panes, splits, i, f, border);
    if i == |panes| - 1 {
    } else {
      var halves := SplitFrame(f, SplitAfter(splits, i).direction, Clamp(SplitAfter(splits, i).ratio), border);
      SpineCount(panes, splits, i + 1, halves.1, border);
    }
  }

  /** From pane `i` on, every split gives the earlier pane one share of those remaining. */
  predicate SharesFrom(splits: seq<SplitSpec>, n: nat, i: nat) {
    forall j :: i <= j < n - 1 ==> SplitAfter(splits, j).ratio == 1.0 / (n - j) as real
  }

  lemma NoClamp(m: nat)
    requires m >= 2
    ensures Clamp(1.0 / m as real) == 1.0 / m as real <==> m <= 10
    ensures m > 10 ==> Clamp(1.0 / m as real) == 0.1
  {
    var r := 1.0 / m as real;
    assert r * m as real == 1.0;
    assert r > 0.0;
    if m <= 10 {
      assert r * 10.0 >= 1.0 by { assert r * (10.0 - m as real) >= 0.0; }
      assert r * 2.0 <= 1.0 by { assert r * (m as real - 2.0) >= 0.0; }
    } else {
      assert r * 10.0 < 1.0 by { assert r * (m as real - 10.0) > 0.0; }
    }
  }

  lemma HalvesArea(f: Rect, direction: SplitDir, ratio: real)
    ensures var halves := SplitFrame(f, direction, ratio, 0.0);
            halves.0.Area() == f.Area() * ratio && halves.1.Area() == f.Area() - f.Area() * ratio
  {
    if direction.Right? {
      assert f.w * ratio * f.h == f.w * f.h * ratio;
      assert (f.w - f.w * ratio) * f.h == f.w * f.h - f.w * ratio * f.h;
    } else {
      assert f.w * (f.h * ratio) == f.w * f.h * ratio;
      assert f.w * (f.h - f.h * ratio) == f.w * f.h - f.w * (f.h * ratio);
    }
  }

  /** One share of an area is what each of the remaining panes will get of the rest. */
  lemma ShareOf(area: real, m: nat, share: real, rest: real)
    requires m >= 2 && share == area * (1.0 / m as real) && rest == area - share
    ensures share * m as real == area && share * (m - 1) as real == rest
  {
    var k := m as real;
    assert (1.0 / k) * k == 1.0;
    assert share * k == area * ((1.0 / k) * k);
    assert share * (k - 1.0) == share * k - share;
  }

  lemma SameShare(a: real, b: real, m: real)
    requires m > 0.0 && a * m == b * m
    ensures a == b
  {
    assert a == (a * m) / m && b == (b * m) / m;
  }

  /** Each frame has one of `parts` equal parts of the area. */
  predicate EqualAreas(frames: seq<Rect>, parts: nat, area: real) {
    forall k :: 0 <= k < |frames| ==> frames[k].Area() * parts as real == area
  }

  lemma {:induction false} EqualShares(panes: seq<PaneId>, splits: seq<SplitSpec>, i: nat, f: Rect)
    requires i < |panes| <= i + 10 && SharesFrom(splits, |panes|, i)
    ensures EqualAreas(SpineFrames(panes, splits, i, f, 0.0), |panes| - i, f.Area())
    decreases |panes| - i
  {
    hide SplitFrame, Clamp, SpineFrames, Rect.Area, EqualAreas;
    SpineStep(panes, splits, i, f, 0.0);
    var m := |panes| - i;
    if m > 1 {
      var s := SplitAfter(splits, i);
      var halves := SplitFrame(f, s.direction, s.ratio, 0.0);
      assert Clamp(s.ratio) == s.ratio by { NoClamp(m); }
      assert halves.0.Area() == f.Area() * s.ratio && halves.1.Area() == f.Area() - halves.0.Area() by {
        HalvesArea(f, s.direction, s.ratio);
      }
      ShareOf(f.Area(), m, halves.0.Area(), halves.1.Area());
      EqualShares(panes, splits, i + 1, halves.1);
      Regrade(halves.0, SpineFrames(panes, splits, i + 1, halves.1, 0.0), m, halves.1.Area(), f.Area());
    } else {
      OneArea(f);
    }
  }

  lemma OneArea(f: Rect)
    ensures EqualAreas([f], 1, f.Area())
  {
  }

  /** Equal parts of the rest, as large as the first, are equal parts of the whole. */
  lemma Regrade(first: Rect, frames: seq<Rect>, m: nat, rest: real, area: real)
    requires m >= 2 && EqualAreas(frames, m - 1, rest)
    requires first.Area() * m as real == area && first.Area() * (m - 1) as real == rest
    ensures EqualAreas([first] + frames, m, area)
  {
    hide Rect.Area;
    forall k | 0 <= k < |frames| ensures frames[k].Area() == first.Area() {
      SameShare(frames[k].Area(), first.Area(), (m - 1) as real);
    }
  }

  predicate Even(layout: TabLayout) {
    layout.EvenHorizontal? || layout.EvenVertical? || layout.Tiled?
  }

  predicate Main(layout: TabLayout) {
    layout.MainHorizontal? || layout.MainVertical?
  }

  lemma NamedShares(layout: TabLayout, n: nat)
    requires n > 0
    ensures Even(layout) ==> SharesFrom(SplitsOf(layout, n), n, 0)
    ensures Main(layout) ==> SharesFrom(SplitsOf(layout, n), n, 1)
    ensures Main(layout) && n > 1 ==> SplitsOf(layout, n)[0].ratio == 0.6
  {
  }

  /** Even and tiled layouts give every pane the same area, with no border between them, exactly
      up to ten panes: beyond that the clamp gives the first pane a tenth. */
  lemma EvenAreasExactly(layout: TabLayout, panes: seq<PaneId>, f: Rect)
    requires Even(layout) && panes != [] && f.w > 0.0 && f.h > 0.0
    ensures var frames := Frames(layout, panes, f, 0.0);
            && |frames| == |panes|
            && (EqualAreas(frames, |panes|, f.Area()) <==> |panes| <= 10)
  {
    var splits, n := SplitsOf(layout, |panes|), |panes|;
    assert Frames(layout, panes, f, 0.0) == SpineFrames(panes, splits, 0, f, 0.0);
    PositiveArea(f);
    hide SplitsOf, SpineFrames, Frames, Rect.Area, EqualAreas;
    NamedShares(layout, n);
    SpineCount(panes, splits, 0, f, 0.0);
    if n <= 10 {
      EqualShares(panes, splits, 0, f);
    } else {
      FirstIsClamped(panes, splits, 0, f);
    }
  }

  lemma PositiveArea(f: Rect)
    requires f.w > 0.0 && f.h > 0.0
    ensures f.Area() > 0.0
  {
  }

  lemma FirstIsClamped(panes: seq<PaneId>, splits: seq<SplitSpec>, i: nat, f: Rect)
    requires |panes| > i + 10 && SharesFrom(splits, |panes|, i) && f.Area() > 0.0
    ensures !EqualAreas(SpineFrames(panes, splits, i, f, 0.0), |panes| - i, f.Area())
  {
    var s := SplitAfter(splits, i);
    var m := |panes| - i;
    SpineStep(panes, splits, i, f, 0.0);
    NoClamp(m);
    HalvesArea(f, s.direction, 0.1);
    var frames := SpineFrames(panes, splits, i, f, 0.0);
    assert f.Area() * 0.1 * (m as real) == f.Area() * (0.1 * m as real);
    assert f.Area() * (0.1 * m as real - 1.0) > 0.0;
    assert frames[0].Area() * m as real > f.Area();
  }

  lemma MainSplit(layout: TabLayout, panes: seq<PaneId>, f: Rect) returns (halves: (Rect, Rect, Rect))
    requires Main(layout) && |panes| >= 2 && f.Area() > 0.0
    ensures halves.0.Area() == 0.6 * f.Area() && halves.1.Area() == 0.4 * f.Area() > 0.0
    ensures Frames(layout, panes, f, 0.0)
            == [halves.0] + SpineFrames(panes, SplitsOf(layout, |panes|), 1, halves.1, 0.0)
  {
    var splits := SplitsOf(layout, |panes|);
    var s := SplitAfter(splits, 0);
    assert Frames(layout, panes, f, 0.0) == SpineFrames(panes, splits, 0, f, 0.0);
    hide SplitsOf, SpineFrames, SplitFrame, Frames, Rect.Area;
    NamedShares(layout, |panes|);
    SpineStep(panes, splits, 0, f, 0.0);
    assert Clamp(s.ratio) == 0.6;
    halves := SplitFrame(f, s.direction, 0.6, 0.0);
    HalvesArea(f, s.direction, 0.6);
  }

  /** Main layouts give the first pane six tenths, and share the rest equally exactly up to ten
      further panes. */
  lemma MainAreasExactly(layout: TabLayout, panes: seq<PaneId>, f: Rect)
    requires Main(layout) && |panes| >= 2 && f.w > 0.0 && f.h > 0.0
    ensures var frames := Frames(layout, panes, f, 0.0);
            && |frames| == |panes| && frames[0].Area() == 0.6 * f.Area()
            && (EqualAreas(frames[1..], |panes| - 1, 0.4 * f.Area()) <==> |panes| <= 11)
  {
    PositiveArea(f);
    hide SplitsOf, SpineFrames, Frames, Rect.Area, EqualAreas;
    var splits, n := SplitsOf(layout, |panes|), |panes|;
    var halves := MainSplit(layout, panes, f);
    var frames, rest := Frames(layout, panes, f, 0.0), SpineFrames(panes, splits, 1, halves.1, 0.0);
    NamedShares(layout, n);
    SpineCount(panes, splits, 1, halves.1, 0.0);
    assert frames[1..] == rest;
    if n <= 11 {
      EqualShares(panes, splits, 1, halves.1);
    } else {
      FirstIsClamped(panes, splits, 1, halves.1);
    }
  }

  // ---- borders ----

  function Extent(f: Rect, direction: SplitDir): real {
    if direction.Right? then f.w else f.h
  }

  function Start(f: Rect, direction: SplitDir): real {
    if direction.Right? then f.x else f.y
  }

  predicate SameAcross(a: Rect, b: Rect, direction: SplitDir) {
    if direction.Right? then a.y == b.y && a.h == b.h else a.x == b.x && a.w == b.w
  }

  predicate AllSplit(splits: seq<SplitSpec>, n: nat, i: nat, direction: SplitDir) {
    forall j :: i <= j < n - 1 ==> SplitAfter(splits, j).direction == direction
  }

  /** From edge to edge in one line, `border` apart, each as wide across as the whole. */
  predicate LinedUp(frames: seq<Rect>, f: Rect, direction: SplitDir, border: real) {
    && frames != []
    && Start(frames[0], direction) == Start(f, direction)
    && (var last := frames[|frames| - 1];
        Start(last, direction) + Extent(last, direction) == Start(f, direction) + Extent(f, direction))
    && (forall k :: 0 <= k < |frames| ==> SameAcross(frames[k], f, direction))
    && (forall k :: 0 <= k < |frames| - 1 ==>
          Start(frames[k + 1], direction) == Start(frames[k], direction) + Extent(frames[k], direction) + border)
  }

  /** What a split in `direction` gives each half. */
  lemma SplitExtents(f: Rect, direction: SplitDir, ratio: real, border: real)
    ensures var halves := SplitFrame(f, direction, ratio, border);
            && Extent(halves.0, direction) == (Extent(f, direction) - border) * ratio
            && Extent(halves.1, direction) == Extent(f, direction) - border - Extent(halves.0, direction)
            && Start(halves.0, direction) == Start(f, direction)
            && Start(halves.1, direction) == Start(f, direction) + Extent(halves.0, direction) + border
            && SameAcross(halves.0, f, direction) && SameAcross(halves.1, f, direction)
  {
  }

  lemma {:induction false} SpineLinesUp(panes: seq<PaneId>, splits: seq<SplitSpec>, i: nat, f: Rect,
                                        direction: SplitDir, border: real)
    requires i < |panes| && AllSplit(splits, |panes|, i, direction)
    ensures LinedUp(SpineFrames(panes, splits, i, f, border), f, direction, border)
    decreases |panes| - i
  {
    hide SpineFrames, SplitFrame, Clamp;
    SpineStep(panes, splits, i, f, border);
    if i == |panes| - 1 {
    } else {
      var ratio := Clamp(SplitAfter(splits, i).ratio);
      var halves := SplitFrame(f, direction, ratio, border);
      var rest := SpineFrames(panes, splits, i + 1, halves.1, border);
      SplitExtents(f, direction, ratio, border);
      SpineLinesUp(panes, splits, i + 1, halves.1, direction, border);
      var frames := [halves.0] + rest;
      assert frames[|frames| - 1] == rest[|rest| - 1];
      forall k | 0 <= k < |frames| - 1
        ensures Start(frames[k + 1], direction) == Start(frames[k], direction) + Extent(frames[k], direction) + border
      {
        if k > 0 {
          assert frames[k] == rest[k - 1] && frames[k + 1] == rest[k];
        }
      }
    }
  }

  predicate EqualExtents(frames: seq<Rect>, direction: SplitDir) {
    forall k :: 0 <= k < |frames| - 1 ==> Extent(frames[k + 1], direction) == Extent(frames[k], direction)
  }

  /** How much narrower than the pane before it a pane is, when `m` panes were left to place. */
  function Loss(m: nat, border: real): real {
    if m >= 3 then border / (m - 1) as real else 0.0
  }

  predicate Narrowing(frames: seq<Rect>, m: nat, direction: SplitDir, border: real) {
    |frames| <= m &&
    forall k :: 0 <= k < |frames| - 1 ==>
      Extent(frames[k + 1], direction) == Extent(frames[k], direction) - Loss(m - k, border)
  }

  lemma SecondExtent(whole: real, m: nat, border: real, first: real)
    requires m >= 3 && first == (whole - border) * (1.0 / m as real)
    ensures (whole - border - first - border) * (1.0 / (m - 1) as real) == first - border / (m - 1) as real
  {
    var k := (m - 1) as real;
    ShareOf(whole - border, m, first, whole - border - first);
    assert whole - border - first - border == first * k - border;
    assert (first * k - border) * (1.0 / k) == first - border / k;
  }

  lemma {:induction false} SpineNarrows(panes: seq<PaneId>, splits: seq<SplitSpec>, i: nat, f: Rect,
                                        direction: SplitDir, border: real)
    requires i < |panes| <= i + 10 && SharesFrom(splits, |panes|, i) && AllSplit(splits, |panes|, i, direction)
    ensures Narrowing(SpineFrames(panes, splits, i, f, border), |panes| - i, direction, border)
    decreases |panes| - i
  {
    hide SpineFrames, SplitFrame, Clamp, Extent, Loss, Narrowing;
    var m := |panes| - i;
    SpineStep(panes, splits, i, f, border);
    if m == 1 {
      OneNarrows(f, direction, border);
    } else {
      var s := SplitAfter(splits, i);
      var halves := SplitFrame(f, direction, s.ratio, border);
      assert Clamp(s.ratio) == s.ratio by { NoClamp(m); }
      FirstTwo(panes, splits, i, f, direction, border);
      hide SharesFrom, AllSplit;
      assert SharesFrom(splits, |panes|, i + 1) && AllSplit(splits, |panes|, i + 1, direction) by {
        FewerLeft(splits, |panes|, i, direction);
      }
      SpineNarrows(panes, splits, i + 1, halves.1, direction, border);
      NarrowingFrom(halves.0, SpineFrames(panes, splits, i + 1, halves.1, border), m, direction, border);
    }
  }

  lemma FewerLeft(splits: seq<SplitSpec>, n: nat, i: nat, direction: SplitDir)
    requires SharesFrom(splits, n, i) && AllSplit(splits, n, i, direction)
    ensures SharesFrom(splits, n, i + 1) && AllSplit(splits, n, i + 1, direction)
  {
  }

  lemma OneNarrows(f: Rect, direction: SplitDir, border: real)
    ensures Narrowing([f], 1, direction, border)
  {
  }

  lemma NarrowingFrom(first: Rect, rest: seq<Rect>, m: nat, direction: SplitDir, border: real)
    requires m > 0 && Narrowing(rest, m - 1, direction, border)
    requires rest != [] ==> Extent(rest[0], direction) == Extent(first, direction) - Loss(m, border)
    ensures Narrowing([first] + rest, m, direction, border)
  {
    hide Extent, Loss;
    var frames := [first] + rest;
    forall k | 0 <= k < |frames| - 1
      ensures Extent(frames[k + 1], direction) == Extent(frames[k], direction) - Loss(m - k, border)
    {
      if k > 0 {
        assert frames[k] == rest[k - 1] && frames[k + 1] == rest[k];
      }
    }
  }

  /** The second of the remaining panes against the first. */
  lemma FirstTwo(panes: seq<PaneId>, splits: seq<SplitSpec>, i: nat, f: Rect, direction: SplitDir, border: real)
    requires i + 1 < |panes| <= i + 10 && SharesFrom(splits, |panes|, i) && AllSplit(splits, |panes|, i, direction)
    ensures var frames := SpineFrames(panes, splits, i, f, border);
            |frames| >= 2 && Extent(frames[1], direction) == Extent(frames[0], direction) - Loss(|panes| - i, border)
  {
    hide SpineFrames, SplitFrame, Clamp, Extent;
    var m := |panes| - i;
    var a, b := SplitAfter(splits, i).ratio, SplitAfter(splits, i + 1).ratio;
    var halves := SplitFrame(f, direction, a, border);
    SpineStep(panes, splits, i, f, border);
    assert Clamp(a) == a by { NoClamp(m); }
    SplitExtents(f, direction, a, border);
    SpineStep(panes, splits, i + 1, halves.1, border);
    if m >= 3 {
      assert Clamp(b) == b by { NoClamp(m - 1); }
      SplitExtents(halves.1, direction, b, border);
      SecondExtent(Extent(f, direction), m, border, Extent(halves.0, direction));
    } else {
      ShareOf(Extent(f, direction) - border, m, Extent(halves.0, direction), Extent(halves.1, direction));
    }
  }

  /** More than ten panes: the clamp gives the first two a tenth of what each has left. */
  lemma ClampedPair(panes: seq<PaneId>, splits: seq<SplitSpec>, i: nat, f: Rect, direction: SplitDir, border: real)
    requires |panes| > i + 10 && SharesFrom(splits, |panes|, i) && AllSplit(splits, |panes|, i, direction)
    requires border >= 0.0 && Extent(f, direction) > 0.0
    ensures var frames := SpineFrames(panes, splits, i, f, border);
            |frames| >= 2 && Extent(frames[1], direction) < Extent(frames[0], direction)
  {
    hide SpineFrames, SplitFrame, Clamp, Extent;
    var a, b := SplitAfter(splits, i).ratio, SplitAfter(splits, i + 1).ratio;
    var halves := SplitFrame(f, direction, 0.1, border);
    assert Clamp(a) == 0.1 by { NoClamp(|panes| - i); }
    assert Clamp(b) == 0.1 by { NoClamp(|panes| - i - 1); }
    SpineStep(panes, splits, i, f, border);
    SpineStep(panes, splits, i + 1, halves.1, border);
    SplitExtents(f, direction, 0.1, border);
    SplitExtents(halves.1, direction, 0.1, border);
  }

  /** The panes from `i` on, in one line: what each loses to borders, and when they are equal. */
  lemma LineExactly(panes: seq<PaneId>, splits: seq<SplitSpec>, i: nat, f: Rect, direction: SplitDir, border: real)
    requires i < |panes| && SharesFrom(splits, |panes|, i) && AllSplit(splits, |panes|, i, direction)
    requires border >= 0.0 && Extent(f, direction) > 0.0
    ensures var frames, m := SpineFrames(panes, splits, i, f, border), |panes| - i;
            && |frames| == m && LinedUp(frames, f, direction, border)
            && (m <= 10 ==> Narrowing(frames, m, direction, border))
            && (EqualExtents(frames, direction) <==> m <= 2 || (border == 0.0 && m <= 10))
  {
    hide SpineFrames, Extent, LinedUp;
    var frames, m := SpineFrames(panes, splits, i, f, border), |panes| - i;
    SpineCount(panes, splits, i, f, border);
    SpineLinesUp(panes, splits, i, f, direction, border);
    if m <= 10 {
      SpineNarrows(panes, splits, i, f, direction, border);
      if m > 2 {
        assert Extent(frames[0 + 1], direction) == Extent(frames[0], direction) - Loss(m - 0, border);
      }
      LossZero(m, border);
    } else {
      ClampedPair(panes, splits, i, f, direction, border);
      assert Extent(frames[0 + 1], direction) != Extent(frames[0], direction);
    }
  }

  function LineDirection(layout: TabLayout): SplitDir {
    if layout.EvenHorizontal? then Right else Down
  }

  lemma LinesSplitOneWay(layout: TabLayout, n: nat)
    requires (layout.EvenHorizontal? || layout.EvenVertical?) && n > 0
    ensures AllSplit(SplitsOf(layout, n), n, 0, LineDirection(layout))
  {
  }

  /** Even layouts put the panes in one line from edge to edge. Up to ten panes each is narrower
      than the one before it by the border divided by the panes after it, save the last; so with
      a border the panes are equal exactly up to two, and without one exactly up to ten. */
  lemma EvenExtentsExactly(layout: TabLayout, panes: seq<PaneId>, f: Rect, border: real)
    requires (layout.EvenHorizontal? || layout.EvenVertical?) && panes != []
    requires border >= 0.0 && Extent(f, LineDirection(layout)) > 0.0
    ensures var frames, direction := Frames(layout, panes, f, border), LineDirection(layout);
            && |frames| == |panes|
            && LinedUp(frames, f, direction, border)
            && (|panes| <= 10 ==> Narrowing(frames, |panes|, direction, border))
            && (EqualExtents(frames, direction) <==> |panes| <= 2 || (border == 0.0 && |panes| <= 10))
  {
    var splits, n, direction := SplitsOf(layout, |panes|), |panes|, LineDirection(layout);
    var frames := SpineFrames(panes, splits, 0, f, border);
    assert Frames(layout, panes, f, border) == frames;
    NamedShares(layout, n);
    LinesSplitOneWay(layout, n);
    hide SplitsOf, SpineFrames, Frames, LineDirection, Extent, LinedUp, Narrowing, EqualExtents;
    LineExactly(panes, splits, 0, f, direction, border);
  }

  /** With the border as shipped, even layouts are even up to two panes. */
  lemma ShippedEvenExactly(layout: TabLayout, panes: seq<PaneId>, f: Rect)
    requires (layout.EvenHorizontal? || layout.EvenVertical?) && panes != []
    requires Extent(f, LineDirection(layout)) > 0.0
    ensures EqualExtents(Frames(layout, panes, f, SPLIT_BORDER), LineDirection(layout)) <==> |panes| <= 2
  {
    hide Frames, EqualExtents, LinedUp, Narrowing;
    EvenExtentsExactly(layout, panes, f, SPLIT_BORDER);
  }

  lemma LossZero(n: nat, border: real)
    ensures forall m: nat :: m <= n ==> (Loss(m, border) == 0.0 <==> m < 3 || border == 0.0)
  {
    forall m: nat | m <= n ensures Loss(m, border) == 0.0 <==> m < 3 || border == 0.0 {
      if m >= 3 {
        assert border / (m - 1) as real * (m - 1) as real == border;
      }
    }
  }

  // ---- shares beside a border ----

  /** A main layout beside any border: the first pane takes six tenths of what the border leaves, and
      the others stand in one line across the rest, equal exactly up to two, or up to ten without a
      border. */
  lemma MainSharesExactly(layout: TabLayout, panes: seq<PaneId>, f: Rect, border: real)
    requires Main(layout) && |panes| >= 2 && border >= 0.0 && f.w > border && f.h > border
    ensures var frames := Frames(layout, panes, f, border);
            var main, across := MainDirection(layout), Other(MainDirection(layout));
            var rest := SplitFrame(f, main, 0.6, border).1;
            && |frames| == |panes|
            && frames[0] == SplitFrame(f, main, 0.6, border).0
            && Extent(frames[0], main) == 0.6 * (Extent(f, main) - border)
            && Extent(rest, main) == 0.4 * (Extent(f, main) - border)
            && LinedUp(frames[1..], rest, across, border)
            && (|panes| <= 11 ==> Narrowing(frames[1..], |panes| - 1, across, border))
            && (EqualExtents(frames[1..], across) <==> |panes| <= 3 || (border == 0.0 && |panes| <= 11))
  {
    var splits, n := SplitsOf(layout, |panes|), |panes|;
    var main, across := MainDirection(layout), Other(MainDirection(layout));
    var halves := SplitFrame(f, main, 0.6, border);
    assert Frames(layout, panes, f, border) == SpineFrames(panes, splits, 0, f, border);
    MainSplitsFacts(layout, n);
    NamedShares(layout, n);
    SplitExtents(f, main, 0.6, border);
    assert Extent(halves.1, across) > 0.0;
    hide SplitsOf, SpineFrames, Frames, Extent, LinedUp, Narrowing, EqualExtents, SplitFrame, MainDirection, Other;
    SpineStep(panes, splits, 0, f, border);
    assert Clamp(0.6) == 0.6;
    LineExactly(panes, splits, 1, halves.1, across, border);
    var rest := SpineFrames(panes, splits, 1, halves.1, border);
    assert ([halves.0] + rest)[1..] == rest;
  }

  function MainDirection(layout: TabLayout): SplitDir {
    if layout.MainVertical? then Right else Down
  }

  function Other(direction: SplitDir): SplitDir {
    if direction.Right? then Down else Right
  }

  lemma MainSplitsFacts(layout: TabLayout, n: nat)
    requires Main(layout) && n >= 2
    ensures var splits := SplitsOf(layout, n);
            && SplitAfter(splits, 0).direction == MainDirection(layout)
            && AllSplit(splits, n, 1, Other(MainDirection(layout)))
  {
  }

  /** The directions of a tiled layout alternate. */
  function TiledDirection(i: nat): SplitDir {
    if i % 2 == 0 then Right else Down
  }

  predicate Alternates(splits: seq<SplitSpec>, n: nat, i: nat) {
    forall j :: i <= j < n - 1 ==> SplitAfter(splits, j).direction == TiledDirection(j)
  }

  /** The border along a pane's own side, when `m` panes were left to place there; nothing for the
      last split. */
  function TileLoss(frame: Rect, m: nat, i: nat, border: real): real {
    if m >= 3 then border * Extent(frame, TiledDirection(i)) else 0.0
  }

  /** Each pane is smaller than the one before it by the border along that one's own side, save the
      last, which is as large. */
  predicate Shrinking(frames: seq<Rect>, m: nat, i: nat, border: real) {
    |frames| <= m &&
    forall k :: 0 <= k < |frames| - 1 ==>
      frames[k + 1].Area() == frames[k].Area() - TileLoss(frames[k], m - k, i + k, border)
  }

  /** Areas from a side and the side across. */
  lemma AreaOf(f: Rect, direction: SplitDir)
    ensures f.Area() == Extent(f, direction) * Extent(f, Other(direction))
    ensures Other(Other(direction)) == direction
  {
  }

  lemma AcrossKept(a: Rect, b: Rect, direction: SplitDir)
    requires SameAcross(a, b, direction)
    ensures Extent(a, Other(direction)) == Extent(b, Other(direction))
  {
  }

  /** A share of what a border leaves, then a share of the rest split across. */
  lemma TiledPair(side: real, across: real, m: nat, border: real, first: real, second: real)
    requires m >= 3 && first == (side - border) * (1.0 / m as real)
    requires second == (across - border) * (1.0 / (m - 1) as real)
    ensures second * (side - border - first) == first * across - border * first
  {
    var k := (m - 1) as real;
    ShareOf(side - border, m, first, side - border - first);
    assert side - border - first == first * k;
    assert (1.0 / k) * k == 1.0;
    assert second * (first * k) == (across - border) * first * ((1.0 / k) * k);
  }

  lemma TiledTwo(panes: seq<PaneId>, splits: seq<SplitSpec>, i: nat, f: Rect, border: real)
    requires i + 1 < |panes| <= i + 10 && SharesFrom(splits, |panes|, i) && Alternates(splits, |panes|, i)
    ensures var frames := SpineFrames(panes, splits, i, f, border);
            && |frames| >= 2
            && frames[1].Area() == frames[0].Area() - TileLoss(frames[0], |panes| - i, i, border)
  {
    hide SpineFrames, SplitFrame, Clamp, Extent, Rect.Area, SameAcross, TiledDirection;
    var m, d := |panes| - i, TiledDirection(i);
    var a, b := SplitAfter(splits, i).ratio, SplitAfter(splits, i + 1).ratio;
    var halves := SplitFrame(f, d, a, border);
    SpineStep(panes, splits, i, f, border);
    assert Clamp(a) == a by { NoClamp(m); }
    SplitExtents(f, d, a, border);
    AcrossKept(halves.0, f, d);
    AcrossKept(halves.1, f, d);
    AreaOf(halves.0, d);
    SpineStep(panes, splits, i + 1, halves.1, border);
    if m >= 3 {
      assert TiledDirection(i + 1) == Other(d) by { Alternating(i); }
      assert Clamp(b) == b by { NoClamp(m - 1); }
      var next := SplitFrame(halves.1, Other(d), b, border);
      SplitExtents(halves.1, Other(d), b, border);
      AcrossKept(next.0, halves.1, Other(d));
      AreaOf(next.0, Other(d));
      AreaOf(halves.1, d);
      TiledPair(Extent(f, d), Extent(f, Other(d)), m, border, Extent(halves.0, d), Extent(next.0, Other(d)));
    } else {
      ShareOf(Extent(f, d) - border, m, Extent(halves.0, d), Extent(halves.1, d));
      AreaOf(halves.1, d);
    }
  }

  lemma Alternating(i: nat)
    ensures TiledDirection(i + 1) == Other(TiledDirection(i))
  {
  }

  lemma {:induction false} TiledShrinks(panes: seq<PaneId>, splits: seq<SplitSpec>, i: nat, f: Rect, border: real)
    requires i < |panes| <= i + 10 && SharesFrom(splits, |panes|, i) && Alternates(splits, |panes|, i)
    ensures Shrinking(SpineFrames(panes, splits, i, f, border), |panes| - i, i, border)
    decreases |panes| - i
  {
    hide SpineFrames, SplitFrame, Clamp, TileLoss, Rect.Area, TiledDirection, Shrinking;
    var m := |panes| - i;
    SpineStep(panes, splits, i, f, border);
    if m == 1 {
      OneShrinks(f, i, border);
    } else {
      var s := SplitAfter(splits, i);
      var halves := SplitFrame(f, s.direction, Clamp(s.ratio), border);
      TiledTwo(panes, splits, i, f, border);
      assert SharesFrom(splits, |panes|, i + 1) && Alternates(splits, |panes|, i + 1);
      hide SharesFrom, Alternates;
      TiledShrinks(panes, splits, i + 1, halves.1, border);
      ShrinkingFrom(halves.0, SpineFrames(panes, splits, i + 1, halves.1, border), m, i, border);
    }
  }

  lemma OneShrinks(f: Rect, i: nat, border: real)
    ensures Shrinking([f], 1, i, border)
  {
  }

  lemma ShrinkingFrom(first: Rect, rest: seq<Rect>, m: nat, i: nat, border: real)
    requires m > 0 && Shrinking(rest, m - 1, i + 1, border)
    requires rest != [] ==> rest[0].Area() == first.Area() - TileLoss(first, m, i, border)
    ensures Shrinking([first] + rest, m, i, border)
  {
    hide TileLoss, Rect.Area;
    var frames := [first] + rest;
    forall k | 0 <= k < |frames| - 1
      ensures frames[k + 1].Area() == frames[k].Area() - TileLoss(frames[k], m - k, i + k, border)
    {
      if k > 0 {
        assert frames[k] == rest[k - 1] && frames[k + 1] == rest[k];
        assert i + 1 + (k - 1) == i + k && m - 1 - (k - 1) == m - k;
      }
    }
  }

  predicate SameAreas(frames: seq<Rect>) {
    forall k :: 0 <= k < |frames| - 1 ==> frames[k + 1].Area() == frames[k].Area()
  }

  /** More than ten tiles: the clamp gives the second a tenth of less than the first had. */
  lemma ClampedTiles(panes: seq<PaneId>, splits: seq<SplitSpec>, f: Rect, border: real)
    requires |panes| > 10 && SharesFrom(splits, |panes|, 0) && Alternates(splits, |panes|, 0)
    requires border >= 0.0 && f.w > border && f.h > border
    ensures var frames := SpineFrames(panes, splits, 0, f, border);
            |frames| >= 2 && frames[1].Area() < frames[0].Area()
  {
    hide SpineFrames, SplitFrame, Clamp, Rect.Area;
    var a, b := SplitAfter(splits, 0).ratio, SplitAfter(splits, 1).ratio;
    var halves := SplitFrame(f, Right, 0.1, border);
    assert Clamp(a) == 0.1 by { NoClamp(|panes|); }
    assert Clamp(b) == 0.1 by { NoClamp(|panes| - 1); }
    assert TiledDirection(0) == Right && TiledDirection(1) == Down;
    TenthTiles(f, border);
    SpineStep(panes, splits, 0, f, border);
    SpineStep(panes, splits, 1, halves.1, border);
  }

  lemma TenthTiles(f: Rect, border: real)
    requires border >= 0.0 && f.w > border && f.h > border
    ensures var halves := SplitFrame(f, Right, 0.1, border);
            SplitFrame(halves.1, Down, 0.1, border).0.Area() < halves.0.Area()
  {
    hide SplitFrame, Rect.Area;
    var halves := SplitFrame(f, Right, 0.1, border);
    var next := SplitFrame(halves.1, Down, 0.1, border);
    SplitExtents(f, Right, 0.1, border);
    SplitExtents(halves.1, Down, 0.1, border);
    AreaOf(halves.0, Right);
    AreaOf(next.0, Right);
    var w, h := f.w - border, f.h - border;
    SameProduct(Extent(halves.0, Right), w * 0.1, Extent(halves.0, Down), f.h);
    SameProduct(Extent(next.0, Right), w - w * 0.1, Extent(next.0, Down), h * 0.1);
    TenthOfLess(w, f.h, h);
  }

  lemma SameProduct(a: real, a': real, b: real, b': real)
    requires a == a' && b == b'
    ensures a * b == a' * b'
  {
  }

  lemma TenthOfLess(w: real, whole: real, h: real)
    requires w > 0.0 && 0.0 < h <= whole
    ensures (w - w * 0.1) * (h * 0.1) < w * 0.1 * whole
  {
    var area, more := w * h, w * (whole - h);
    NonNegative(w, whole - h);
    assert area > 0.0;
    assert (w - w * 0.1) * (h * 0.1) == 0.09 * area;
    Distribute(w, h, whole - h, 0.0);
    assert w * whole == area + more;
    assert w * 0.1 * whole == 0.1 * (w * whole);
  }

  /** A tiled layout beside any border: what each tile loses, and the tiles are of one size exactly up
      to two, or up to ten without a border. */
  lemma TiledSharesExactly(panes: seq<PaneId>, f: Rect, border: real)
    requires panes != [] && border >= 0.0 && f.w > border && f.h > border
    ensures var frames := Frames(Tiled, panes, f, border);
            && |frames| == |panes|
            && (|panes| <= 10 ==> Shrinking(frames, |panes|, 0, border))
            && (SameAreas(frames) <==> |panes| <= 2 || (border == 0.0 && |panes| <= 10))
  {
    var splits, n := SplitsOf(Tiled, |panes|), |panes|;
    var frames := SpineFrames(panes, splits, 0, f, border);
    assert Frames(Tiled, panes, f, border) == frames;
    NamedShares(Tiled, n);
    TiledAlternates(n);
    hide SplitsOf, SpineFrames, Frames, Rect.Area, TiledDirection;
    SpineCount(panes, splits, 0, f, border);
    if n <= 10 {
      TiledShrinks(panes, splits, 0, f, border);
      if n > 2 {
        FirstTileIsWide(panes, splits, f, border);
        assert frames[0 + 1].Area() == frames[0].Area() - border * Extent(frames[0], TiledDirection(0 + 0));
        ProductZero(border, Extent(frames[0], TiledDirection(0)));
      }
    } else {
      ClampedTiles(panes, splits, f, border);
      assert frames[0 + 1].Area() != frames[0].Area();
    }
  }

  lemma ProductZero(a: real, b: real)
    requires b > 0.0
    ensures a * b == 0.0 <==> a == 0.0
  {
    if a * b == 0.0 {
      assert a == (a * b) / b;
    }
  }

  lemma TiledAlternates(n: nat)
    ensures Alternates(SplitsOf(Tiled, n), n, 0)
  {
  }

  lemma FirstTileIsWide(panes: seq<PaneId>, splits: seq<SplitSpec>, f: Rect, border: real)
    requires 2 < |panes| <= 10 && SharesFrom(splits, |panes|, 0) && Alternates(splits, |panes|, 0) && f.w > border
    ensures var frames := SpineFrames(panes, splits, 0, f, border);
            |frames| > 0 && Extent(frames[0], TiledDirection(0)) > 0.0
  {
    hide SpineFrames, SplitFrame, Clamp;
    var a := SplitAfter(splits, 0).ratio;
    SpineStep(panes, splits, 0, f, border);
    assert Clamp(a) == a by { NoClamp(|panes|); }
    SplitExtents(f, Right, a, border);
    assert (f.w - border) * a > 0.0;
  }

  // ---- manual layouts ----

  /** Each pane has half of what the border leaves of its predecessor's height, save the last, which has
      as much. */
  predicate Halving(frames: seq<Rect>, m: nat, border: real) {
    |frames| <= m &&
    forall k :: 0 <= k < |frames| - 1 ==>
      frames[k + 1].h == if m - k >= 3 then (frames[k].h - border) / 2.0 else frames[k].h
  }

  predicate HalvesFrom(splits: seq<SplitSpec>, n: nat, i: nat) {
    forall j :: i <= j < n - 1 ==> SplitAfter(splits, j) == SplitSpec(Down, 0.5)
  }

  lemma {:induction false} SpineHalves(panes: seq<PaneId>, splits: seq<SplitSpec>, i: nat, f: Rect, border: real)
    requires i < |panes| && HalvesFrom(splits, |panes|, i)
    ensures Halving(SpineFrames(panes, splits, i, f, border), |panes| - i, border)
    ensures i < |panes| - 1 ==>
      var frames := SpineFrames(panes, splits, i, f, border); frames != [] && frames[0].h == (f.h - border) * 0.5
    ensures i == |panes| - 1 ==> SpineFrames(panes, splits, i, f, border) == [f]
    decreases |panes| - i
  {
    hide SpineFrames, SplitFrame;
    SpineStep(panes, splits, i, f, border);
    if i == |panes| - 1 {
    } else {
      var halves := SplitFrame(f, Down, 0.5, border);
      assert Clamp(0.5) == 0.5;
      SplitExtents(f, Down, 0.5, border);
      SpineHalves(panes, splits, i + 1, halves.1, border);
      var rest := SpineFrames(panes, splits, i + 1, halves.1, border);
      var frames := [halves.0] + rest;
      forall k | 0 <= k < |frames| - 1
        ensures frames[k + 1].h == if |panes| - i - k >= 3 then (frames[k].h - border) / 2.0 else frames[k].h
      {
        if k > 0 {
          assert frames[k] == rest[k - 1] && frames[k + 1] == rest[k];
        }
      }
    }
  }

  /** A manual layout without splits of its own stacks the panes, each half as high as the border leaves
      of the one above, the last two alike. */
  lemma ManualHalves(panes: seq<PaneId>, f: Rect, border: real)
    requires panes != []
    ensures var frames := Frames(Manual, panes, f, border);
            && |frames| == |panes| && LinedUp(frames, f, Down, border) && Halving(frames, |panes|, border)
            && (|panes| > 1 ==> frames[0].h == (f.h - border) * 0.5)
  {
    var splits := SplitsOf(Manual, |panes|);
    assert HalvesFrom(splits, |panes|, 0) && AllSplit(splits, |panes|, 0, Down);
    hide SplitsOf, SpineFrames, LinedUp, Halving;
    SpineCount(panes, splits, 0, f, border);
    SpineLinesUp(panes, splits, 0, f, Down, border);
    SpineHalves(panes, splits, 0, f, border);
    assert Frames(Manual, panes, f, border) == SpineFrames(panes, splits, 0, f, border);
  }

  /** Panes for which no split was given are split off as in a manual layout. */
  lemma {:induction false} MissingSplitsAreManual(panes: seq<PaneId>, splits: seq<SplitSpec>, i: nat, k: nat)
    requires |splits| <= i <= k < |panes|
    ensures Spine(panes, splits, i, k) == Spine(panes, SplitsOf(Manual, |panes|), i, k)
    decreases k - i
  {
    hide Clamp;
    if i < k {
      MissingSplitsAreManual(panes, splits, i + 1, k);
    } else {
      assert Spine(panes, splits, k, k) == Leaf(k, panes[k]);
    }
  }
}
