// How a split divides its rectangle among its children, side by side, and what that makes of a leaf.
module BoxesShares {
  import opened Wrappers
  import opened Boxes
  import opened BoxesOrder

  /** Where a box begins and how far it reaches along a direction. */
  function Begins(box: Box, direction: Direction): real {
    if direction.ToTheRight? then box.x else box.y
  }

  function Length(box: Box, direction: Direction): real {
    if direction.ToTheRight? then box.width else box.height
  }

  function Across(direction: Direction): Direction {
    if direction.ToTheRight? then Down else ToTheRight
  }

  /** Children lie one behind the other, from the split's beginning to its end, all of them as wide across as it is. */
  lemma ChildrenAdjoin(layout: Layout, box: Box, i: nat)
    requires layout.Split? && i < |layout.children|
    ensures var d, child := layout.direction, ChildBox(layout, box, i);
            && Begins(child, Across(d)) == Begins(box, Across(d)) && Length(child, Across(d)) == Length(box, Across(d))
            && (i == 0 ==> Begins(child, d) == Begins(box, d))
            && (i + 1 < |layout.children| ==>
                  Begins(ChildBox(layout, box, i + 1), d) == Begins(child, d) + Length(child, d))
            && (i + 1 == |layout.children| ==> Begins(child, d) + Length(child, d) == Begins(box, d) + Length(box, d))
  {
    StartsAt(layout, i);
    if i + 1 == |layout.children| { SharesMakeOne(layout); }
    hide At, Share;
    PartsAdjoin(box, layout.direction, At(layout, i), Share(layout, i), At(layout, i + 1));
  }

  lemma PartsAdjoin(box: Box, d: Direction, at: real, share: real, next: real)
    requires next == at + share
    ensures var part := Part(box, d, at, share); Begins(part, d) + Length(part, d) == Begins(box, d) + Length(box, d) * next
  {
    Distributes(Length(box, d), at, share);
  }

  lemma StartsAt(layout: Layout, i: nat)
    requires layout.Split? && i < |layout.children|
    ensures At(layout, 0) == 0.0 && At(layout, i + 1) == At(layout, i) + Share(layout, i)
  {
  }

  lemma Distributes(a: real, b: real, c: real)
    ensures a * (b + c) == a * b + a * c
  {
  }

  /** Two children share by the split's ratio, kept between a tenth and nine tenths; otherwise all get the same. */
  lemma ChildrenShare(layout: Layout, box: Box, i: nat)
    requires layout.Split? && i < |layout.children|
    ensures var length, whole := Length(ChildBox(layout, box, i), layout.direction), Length(box, layout.direction);
            if |layout.children| == 2 && layout.ratio.Some? then
              var ratio := layout.ratio.value;
              var first := whole * (if ratio <= 0.1 then 0.1 else if ratio >= 0.9 then 0.9 else ratio);
              length == if i == 0 then first else whole - first
            else length * (|layout.children| as real) == whole
  {
    var whole := Length(box, layout.direction);
    if |layout.children| == 2 && layout.ratio.Some? {
      var c := Clamp(layout.ratio.value);
      assert whole * (1.0 - c) == whole - whole * c;
    } else {
      Evenly(whole, |layout.children|);
    }
  }

  lemma Evenly(whole: real, n: nat)
    requires n > 0
    ensures whole * (1.0 / (n as real)) * (n as real) == whole
  {
    assert 1.0 / (n as real) * (n as real) == 1.0;
  }

  /** What is left of a length on the way down to a leaf: its share in every split along the direction. */
  function Narrowed(layout: Layout, path: seq<nat>, direction: Direction, length: real): real
    requires TabsAt(layout, path).Some?
    decreases path
  {
    if layout.Tabs? then length
    else
      Narrowed(layout.children[path[0]], path[1..], direction,
               if layout.direction == direction then length * Share(layout, path[0]) else length)
  }

  /** A leaf's width is narrowed by the splits to the right above it alone, and its height by those down. */
  lemma {:induction false} LeafIsNarrowed(layout: Layout, box: Box, path: seq<nat>)
    requires TabsAt(layout, path).Some?
    ensures BoxAt(layout, box, path).Some?
    ensures BoxAt(layout, box, path).value.width == Narrowed(layout, path, ToTheRight, box.width)
    ensures BoxAt(layout, box, path).value.height == Narrowed(layout, path, Down, box.height)
    decreases path
  {
    hide At, Share;
    if layout.Split? {
      var child, share := ChildBox(layout, box, path[0]), Share(layout, path[0]);
      assert child.width == if layout.direction == ToTheRight then box.width * share else box.width;
      assert child.height == if layout.direction == Down then box.height * share else box.height;
      LeafIsNarrowed(layout.children[path[0]], child, path[1..]);
    }
  }
}
