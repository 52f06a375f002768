// apps/ios/glassesView.ts, `groups` and `groupBoxes`: a glass is a tree of splits whose leaves hold
// tabs. Every leaf gets a rectangle; numbers are reals, so rounding is not part of the model.
module Boxes {
  import opened Wrappers

  type Tab = string

  datatype Direction = ToTheRight | Down

  datatype Layout =
    | Tabs(tabs: seq<Tab>)
    | Split(direction: Direction, ratio: Option<real>, children: seq<Layout>)

  datatype Box = Box(x: real, y: real, width: real, height: real)

  datatype Point = Point(x: real, y: real)

  /** The tabs of every leaf, in reading order. */
  function Groups(layout: Layout): seq<seq<Tab>>
    decreases layout, 0
  {
    match layout
    case Tabs(tabs) => [tabs]
    case Split(_, _, children) => GroupsUpTo(layout, |children|)
  }

  function GroupsUpTo(layout: Layout, n: nat): seq<seq<Tab>>
    requires layout.Split? && n <= |layout.children|
    decreases layout, 0, n
  {
    if n == 0 then [] else GroupsUpTo(layout, n - 1) + Groups(layout.children[n - 1])
  }

  function Clamp(ratio: real): (r: real)
    ensures 0.1 <= r <= 0.9
  {
    var atLeast := if ratio < 0.1 then 0.1 else ratio;
    if atLeast > 0.9 then 0.9 else atLeast
  }

  /** Child `i`'s share of its split: by a two-way split's ratio, evenly otherwise. */
  function Share(layout: Layout, i: nat): real
    requires layout.Split? && i < |layout.children|
  {
    if |layout.children| == 2 && layout.ratio.Some? then
      if i == 0 then Clamp(layout.ratio.value) else 1.0 - Clamp(layout.ratio.value)
    else
      1.0 / (|layout.children| as real)
  }

  /** Where child `n` starts: the shares before it. */
  function At(layout: Layout, n: nat): real
    requires layout.Split? && n <= |layout.children|
  {
    if n == 0 then 0.0 else At(layout, n - 1) + Share(layout, n - 1)
  }

  /** The stretch of `box` from the fraction `at`, `share` of it long, along `direction`. */
  function Part(box: Box, direction: Direction, at: real, share: real): Box {
    match direction
    case ToTheRight => Box(box.x + box.width * at, box.y, box.width * share, box.height)
    case Down => Box(box.x, box.y + box.height * at, box.width, box.height * share)
  }

  function ChildBox(layout: Layout, box: Box, i: nat): Box
    requires layout.Split? && i < |layout.children|
  {
    Part(box, layout.direction, At(layout, i), Share(layout, i))
  }

  function GroupBoxes(layout: Layout, box: Box): seq<Box>
    decreases layout, 0
  {
    match layout
    case Tabs(_) => [box]
    case Split(_, _, children) => BoxesUpTo(layout, box, |children|)
  }

  function BoxesUpTo(layout: Layout, box: Box, n: nat): seq<Box>
    requires layout.Split? && n <= |layout.children|
    decreases layout, 0, n
  {
    if n == 0 then []
    else BoxesUpTo(layout, box, n - 1) + GroupBoxes(layout.children[n - 1], ChildBox(layout, box, n - 1))
  }

  /** As the source runs it: the start of each child accumulates in `at`. */
  method ComputeGroupBoxes(layout: Layout, box: Box) returns (boxes: seq<Box>)
    ensures boxes == GroupBoxes(layout, box)
    decreases layout
  {
    if layout.Tabs? { return [box]; }
    boxes := [];
    var at := 0.0;
    for i := 0 to |layout.children|
      invariant at == At(layout, i)
      invariant boxes == BoxesUpTo(layout, box, i)
    {
      var share := Share(layout, i);
      var inner := ComputeGroupBoxes(layout.children[i], Part(box, layout.direction, at, share));
      at := at + share;
      boxes := boxes + inner;
    }
  }

  // ----- shares -----

  lemma SharePositive(layout: Layout, i: nat)
    requires layout.Split? && i < |layout.children|
    ensures Share(layout, i) > 0.0
  {
  }

  lemma {:induction false} AtEven(layout: Layout, n: nat)
    requires layout.Split? && n <= |layout.children| && !(|layout.children| == 2 && layout.ratio.Some?)
    requires n > 0
    ensures At(layout, n) == n as real * (1.0 / (|layout.children| as real))
  {
    var each := 1.0 / (|layout.children| as real);
    if n == 1 {
      assert At(layout, 1) == At(layout, 0) + each;
    } else {
      AtEven(layout, n - 1);
      assert (n - 1) as real * each + each == n as real * each;
    }
  }

  /** A split's shares make up the whole. */
  lemma SharesMakeOne(layout: Layout)
    requires layout.Split? && layout.children != []
    ensures At(layout, |layout.children|) == 1.0
  {
    if |layout.children| == 2 && layout.ratio.Some? {
      assert At(layout, 1) == At(layout, 0) + Share(layout, 0);
    } else {
      AtEven(layout, |layout.children|);
    }
  }

  lemma {:induction false} AtNonNegative(layout: Layout, n: nat)
    requires layout.Split? && n <= |layout.children|
    ensures At(layout, n) >= 0.0
  {
    if n > 0 {
      AtNonNegative(layout, n - 1);
      SharePositive(layout, n - 1);
    }
  }

  // ----- the plane -----

  predicate Inside(box: Box, p: Point) {
    box.x <= p.x < box.x + box.width && box.y <= p.y < box.y + box.height
  }

  function One(b: bool): nat { if b then 1 else 0 }

  /** How many of the boxes hold the point. */
  function Holding(boxes: seq<Box>, p: Point): nat {
    if boxes == [] then 0
    else Holding(boxes[..|boxes| - 1], p) + One(Inside(boxes[|boxes| - 1], p))
  }

  lemma {:induction false} HoldingConcat(a: seq<Box>, b: seq<Box>, p: Point)
    ensures Holding(a + b, p) == Holding(a, p) + Holding(b, p)
  {
    if b == [] {
      assert a + b == a;
    } else {
      assert (a + b)[..|a + b| - 1] == a + b[..|b| - 1];
      HoldingConcat(a, b[..|b| - 1], p);
    }
  }

  /** The part of `box` before `at` and the part from there on make up the part before their end. */
  lemma PartsJoin(box: Box, direction: Direction, at: real, share: real, p: Point)
    requires box.width >= 0.0 && box.height >= 0.0 && at >= 0.0 && share >= 0.0
    ensures One(Inside(Part(box, direction, 0.0, at + share), p))
            == One(Inside(Part(box, direction, 0.0, at), p)) + One(Inside(Part(box, direction, at, share), p))
  {
    var side := if direction == ToTheRight then box.width else box.height;
    assert side * (at + share) == side * at + side * share;
    assert side * at >= 0.0 && side * share >= 0.0;
  }

  /** The part of `box` before child `n`. */
  function Before(layout: Layout, box: Box, n: nat): Box
    requires layout.Split? && n <= |layout.children|
  {
    Part(box, layout.direction, 0.0, At(layout, n))
  }

  predicate HasSize(box: Box) {
    box.width >= 0.0 && box.height >= 0.0
  }

  lemma ChildJoins(layout: Layout, box: Box, n: nat, p: Point)
    requires HasSize(box) && layout.Split? && n < |layout.children|
    ensures HasSize(ChildBox(layout, box, n))
    ensures One(Inside(Before(layout, box, n + 1), p))
            == One(Inside(Before(layout, box, n), p)) + One(Inside(ChildBox(layout, box, n), p))
  {
    SharePositive(layout, n);
    AtNonNegative(layout, n);
    PartsJoin(box, layout.direction, At(layout, n), Share(layout, n), p);
  }

  lemma BeforeAll(layout: Layout, box: Box)
    requires layout.Split? && layout.children != []
    ensures Before(layout, box, |layout.children|) == box
  {
    SharesMakeOne(layout);
  }

  lemma BeforeNone(layout: Layout, box: Box, p: Point)
    requires layout.Split?
    ensures !Inside(Before(layout, box, 0), p)
  {
  }

  /** Every split has at least one child. */
  predicate Populated(layout: Layout)
    decreases layout
  {
    layout.Tabs?
    || (layout.children != [] && forall i :: 0 <= i < |layout.children| ==> Populated(layout.children[i]))
  }

  /** At most one box holds a point of `box`, none any other; exactly one if `full`. */
  predicate Tiles(boxes: seq<Box>, box: Box, p: Point, full: bool) {
    Holding(boxes, p) <= One(Inside(box, p)) && (full ==> Holding(boxes, p) == One(Inside(box, p)))
  }

  /** No point is in two boxes, or in a box but outside the parent; in a populated layout, none is left out. */
  lemma {:induction false} BoxesTile(layout: Layout, box: Box, p: Point)
    requires HasSize(box)
    ensures Holding(GroupBoxes(layout, box), p) <= One(Inside(box, p))
    ensures Populated(layout) ==> Holding(GroupBoxes(layout, box), p) == One(Inside(box, p))
    decreases layout, 0
  {
    if layout.Tabs? {
      assert [box][..0] == [];
    } else if layout.children != [] {
      TileUpTo(layout, box, p, |layout.children|);
      BeforeAll(layout, box);
    }
  }

  lemma {:induction false} TileUpTo(layout: Layout, box: Box, p: Point, n: nat)
    requires HasSize(box) && layout.Split? && n <= |layout.children|
    ensures Tiles(BoxesUpTo(layout, box, n), Before(layout, box, n), p, Populated(layout))
    decreases layout, 0, n
  {
    if n == 0 {
      BeforeNone(layout, box, p);
    } else {
      var child, inner := ChildBox(layout, box, n - 1), layout.children[n - 1];
      TileUpTo(layout, box, p, n - 1);
      ChildJoins(layout, box, n - 1, p);
      BoxesTile(inner, child, p);
      HoldingConcat(BoxesUpTo(layout, box, n - 1), GroupBoxes(inner, child), p);
    }
  }

  predicate OnlyIn(boxes: seq<Box>, i: nat, p: Point) {
    forall j: nat | j < |boxes| :: Inside(boxes[j], p) <==> j == i
  }

  lemma {:induction false} HeldOnce(boxes: seq<Box>, p: Point)
    ensures Holding(boxes, p) == 0 <==> forall j: nat | j < |boxes| :: !Inside(boxes[j], p)
    ensures Holding(boxes, p) == 1 <==> exists i: nat | i < |boxes| :: OnlyIn(boxes, i, p)
  {
    if boxes != [] {
      var init, last := boxes[..|boxes| - 1], |boxes| - 1;
      HeldOnce(init, p);
      if Holding(boxes, p) == 1 {
        if Inside(boxes[last], p) {
          assert OnlyIn(boxes, last, p);
        } else {
          var i: nat :| i < |init| && OnlyIn(init, i, p);
          assert OnlyIn(boxes, i, p);
        }
      }
      if i: nat :| i < |boxes| && OnlyIn(boxes, i, p) {
        HeldAt(boxes, i, p);
      }
    }
  }

  lemma {:induction false} HeldAt(boxes: seq<Box>, i: nat, p: Point)
    requires i < |boxes| && OnlyIn(boxes, i, p)
    ensures Holding(boxes, p) == 1
  {
    var init, last := boxes[..|boxes| - 1], |boxes| - 1;
    if i < last {
      HeldAt(init, i, p);
    } else {
      HeldNowhere(init, p);
    }
  }

  lemma {:induction false} HeldNowhere(boxes: seq<Box>, p: Point)
    requires forall j: nat | j < |boxes| :: !Inside(boxes[j], p)
    ensures Holding(boxes, p) == 0
  {
    if boxes != [] { HeldNowhere(boxes[..|boxes| - 1], p); }
  }

  /** The boxes of a populated layout partition the half-open parent rectangle. */
  lemma BoxesPartition(layout: Layout, box: Box, p: Point)
    requires HasSize(box) && Populated(layout)
    ensures var boxes := GroupBoxes(layout, box);
            if Inside(box, p) then exists i: nat | i < |boxes| :: OnlyIn(boxes, i, p)
            else forall j: nat | j < |boxes| :: !Inside(boxes[j], p)
  {
    BoxesTile(layout, box, p);
    HeldOnce(GroupBoxes(layout, box), p);
  }

  // ----- what a childless split leaves out -----

  lemma ChildRoom(layout: Layout, box: Box, i: nat)
    requires box.width > 0.0 && box.height > 0.0 && layout.Split? && i < |layout.children|
    ensures ChildBox(layout, box, i).width > 0.0 && ChildBox(layout, box, i).height > 0.0
  {
    SharePositive(layout, i);
    assert box.width * Share(layout, i) > 0.0 && box.height * Share(layout, i) > 0.0;
  }

  /** Points of one child's box are in no box of the children before it. */
  lemma {:induction false} NotBefore(layout: Layout, box: Box, p: Point, i: nat, n: nat)
    requires HasSize(box) && layout.Split? && i < n <= |layout.children|
    requires Inside(ChildBox(layout, box, i), p) && Holding(GroupBoxes(layout.children[i], ChildBox(layout, box, i)), p) == 0
    ensures Holding(BoxesUpTo(layout, box, n), p) == 0 && Inside(Before(layout, box, n), p)
  {
    var child, inner := ChildBox(layout, box, n - 1), layout.children[n - 1];
    ChildJoins(layout, box, n - 1, p);
    HoldingConcat(BoxesUpTo(layout, box, n - 1), GroupBoxes(inner, child), p);
    if i < n - 1 {
      NotBefore(layout, box, p, i, n - 1);
      BoxesTile(inner, child, p);
    } else {
      TileUpTo(layout, box, p, n - 1);
    }
  }

  lemma {:induction false} ChildlessLeavesHole(layout: Layout, box: Box) returns (p: Point)
    requires box.width > 0.0 && box.height > 0.0 && !Populated(layout)
    ensures Inside(box, p) && Holding(GroupBoxes(layout, box), p) == 0
    decreases layout
  {
    if layout.children == [] {
      p := Point(box.x, box.y);
    } else {
      var i: nat :| i < |layout.children| && !Populated(layout.children[i]);
      ChildRoom(layout, box, i);
      p := ChildlessLeavesHole(layout.children[i], ChildBox(layout, box, i));
      NotBefore(layout, box, p, i, |layout.children|);
      BeforeAll(layout, box);
    }
  }

  /** With room to share, every point of the parent is in some box exactly when every split has a child. */
  lemma CoveredIff(layout: Layout, box: Box)
    requires box.width > 0.0 && box.height > 0.0
    ensures Populated(layout) <==> forall p :: Inside(box, p) ==> Holding(GroupBoxes(layout, box), p) == 1
  {
    if Populated(layout) {
      forall p | Inside(box, p) ensures Holding(GroupBoxes(layout, box), p) == 1 { BoxesTile(layout, box, p); }
    } else {
      var p := ChildlessLeavesHole(layout, box);
    }
  }

  // ----- areas -----

  function Area(box: Box): real { box.width * box.height }

  function AreaSum(boxes: seq<Box>): real {
    if boxes == [] then 0.0 else AreaSum(boxes[..|boxes| - 1]) + Area(boxes[|boxes| - 1])
  }

  lemma {:induction false} AreaConcat(a: seq<Box>, b: seq<Box>)
    ensures AreaSum(a + b) == AreaSum(a) + AreaSum(b)
  {
    if b == [] {
      assert a + b == a;
    } else {
      assert (a + b)[..|a + b| - 1] == a + b[..|b| - 1];
      AreaConcat(a, b[..|b| - 1]);
    }
  }

  lemma PartArea(box: Box, direction: Direction, at: real, share: real)
    ensures Area(Part(box, direction, at, share)) == Area(box) * share
  {
    assert box.width * share * box.height == box.width * box.height * share;
  }

  /** Areas sum to the parent's for a populated layout; a childless split loses its share. */
  lemma {:induction false} AreasSum(layout: Layout, box: Box)
    requires box.width > 0.0 && box.height > 0.0
    ensures AreaSum(GroupBoxes(layout, box)) <= Area(box)
    ensures AreaSum(GroupBoxes(layout, box)) == Area(box) <==> Populated(layout)
    decreases layout, 0
  {
    if layout.Tabs? {
      assert [box][..0] == [];
    } else if layout.children == [] {
      assert Area(box) > 0.0;
    } else {
      AreasUpTo(layout, box, |layout.children|);
      BeforeAll(layout, box);
    }
  }

  predicate PopulatedUpTo(layout: Layout, n: nat)
    requires layout.Split? && n <= |layout.children|
  {
    forall i :: 0 <= i < n ==> Populated(layout.children[i])
  }

  lemma ChildArea(layout: Layout, box: Box, n: nat)
    requires layout.Split? && n < |layout.children|
    ensures Area(Before(layout, box, n + 1)) == Area(Before(layout, box, n)) + Area(ChildBox(layout, box, n))
  {
    PartArea(box, layout.direction, 0.0, At(layout, n + 1));
    PartArea(box, layout.direction, 0.0, At(layout, n));
    PartArea(box, layout.direction, At(layout, n), Share(layout, n));
  }

  lemma {:induction false} AreasUpTo(layout: Layout, box: Box, n: nat)
    requires box.width > 0.0 && box.height > 0.0 && layout.Split? && n <= |layout.children|
    ensures AreaSum(BoxesUpTo(layout, box, n)) <= Area(Before(layout, box, n))
    ensures AreaSum(BoxesUpTo(layout, box, n)) == Area(Before(layout, box, n)) <==> PopulatedUpTo(layout, n)
    decreases layout, 0, n
  {
    if n > 0 {
      var child, inner := ChildBox(layout, box, n - 1), layout.children[n - 1];
      AreasUpTo(layout, box, n - 1);
      ChildRoom(layout, box, n - 1);
      AreasSum(inner, child);
      AreaConcat(BoxesUpTo(layout, box, n - 1), GroupBoxes(inner, child));
      ChildArea(layout, box, n - 1);
    }
  }
}
