// Boxes and groups come in the same order: one of each per leaf of the layout, in reading order.
module BoxesOrder {
  import opened Wrappers
  import opened Boxes

  /** The tabs at the leaf reached by taking these children in turn. */
  function TabsAt(layout: Layout, path: seq<nat>): Option<seq<Tab>>
    decreases path
  {
    match layout
    case Tabs(tabs) => if path == [] then Some(tabs) else None
    case Split(_, _, children) =>
      if path != [] && path[0] < |children| then TabsAt(children[path[0]], path[1..]) else None
  }

  /** The rectangle that leaf is given. */
  function BoxAt(layout: Layout, box: Box, path: seq<nat>): Option<Box>
    decreases path
  {
    match layout
    case Tabs(_) => if path == [] then Some(box) else None
    case Split(_, _, children) =>
      if path != [] && path[0] < |children| then BoxAt(children[path[0]], ChildBox(layout, box, path[0]), path[1..])
      else None
  }

  /** `a` comes before `b`: it turns to an earlier child where they part. */
  predicate Earlier(a: seq<nat>, b: seq<nat>)
    decreases a
  {
    a != [] && b != [] && (a[0] < b[0] || (a[0] == b[0] && Earlier(a[1..], b[1..])))
  }

  function Under(i: nat, paths: seq<seq<nat>>): (r: seq<seq<nat>>)
    ensures |r| == |paths| && forall k :: 0 <= k < |r| ==> r[k] == [i] + paths[k]
  {
    seq(|paths|, k requires 0 <= k < |paths| => [i] + paths[k])
  }

  function Leaves(layout: Layout): seq<seq<nat>>
    decreases layout, 0
  {
    if layout.Tabs? then [[]] else LeavesUpTo(layout, |layout.children|)
  }

  function LeavesUpTo(layout: Layout, n: nat): seq<seq<nat>>
    requires layout.Split? && n <= |layout.children|
    decreases layout, 0, n
  {
    if n == 0 then [] else LeavesUpTo(layout, n - 1) + Under(n - 1, Leaves(layout.children[n - 1]))
  }

  ghost predicate Match(layout: Layout, box: Box, paths: seq<seq<nat>>, groups: seq<seq<Tab>>, boxes: seq<Box>) {
    && |paths| == |groups| == |boxes|
    && (forall i :: 0 <= i < |paths| ==> TabsAt(layout, paths[i]) == Some(groups[i]))
    && (forall i :: 0 <= i < |paths| ==> BoxAt(layout, box, paths[i]) == Some(boxes[i]))
  }

  lemma MatchUnder(layout: Layout, box: Box, n: nat, paths: seq<seq<nat>>, groups: seq<seq<Tab>>, boxes: seq<Box>)
    requires layout.Split? && n < |layout.children|
    requires Match(layout.children[n], ChildBox(layout, box, n), paths, groups, boxes)
    ensures Match(layout, box, Under(n, paths), groups, boxes)
  {
    forall i | 0 <= i < |paths|
      ensures TabsAt(layout, Under(n, paths)[i]) == Some(groups[i])
      ensures BoxAt(layout, box, Under(n, paths)[i]) == Some(boxes[i])
    {
      assert ([n] + paths[i])[1..] == paths[i];
    }
  }

  lemma {:induction false} MatchUpTo(layout: Layout, box: Box, n: nat)
    requires layout.Split? && n <= |layout.children|
    ensures Match(layout, box, LeavesUpTo(layout, n), GroupsUpTo(layout, n), BoxesUpTo(layout, box, n))
    decreases layout, 0, n
  {
    if n > 0 {
      var child, inner := ChildBox(layout, box, n - 1), layout.children[n - 1];
      MatchUpTo(layout, box, n - 1);
      BoxesMatchGroups(inner, child);
      MatchUnder(layout, box, n - 1, Leaves(inner), Groups(inner), GroupBoxes(inner, child));
    }
  }

  /** Group `i` and box `i` belong to the same leaf of the layout, whatever the layout. */
  lemma {:induction false} BoxesMatchGroups(layout: Layout, box: Box)
    ensures Match(layout, box, Leaves(layout), Groups(layout), GroupBoxes(layout, box))
    decreases layout, 0
  {
    if layout.Split? { MatchUpTo(layout, box, |layout.children|); }
  }

  ghost predicate ReadingOrder(paths: seq<seq<nat>>) {
    forall i, j :: 0 <= i < j < |paths| ==> Earlier(paths[i], paths[j])
  }

  ghost predicate StartBelow(paths: seq<seq<nat>>, n: nat) {
    forall i :: 0 <= i < |paths| ==> paths[i] != [] && paths[i][0] < n
  }

  lemma UnderInOrder(n: nat, paths: seq<seq<nat>>)
    requires ReadingOrder(paths)
    ensures ReadingOrder(Under(n, paths))
  {
    var under := Under(n, paths);
    forall i, j | 0 <= i < j < |paths| ensures Earlier(under[i], under[j]) {
      assert under[i][1..] == paths[i] && under[j][1..] == paths[j];
    }
  }

  lemma OrderConcat(a: seq<seq<nat>>, n: nat, b: seq<seq<nat>>)
    requires ReadingOrder(a) && StartBelow(a, n) && ReadingOrder(b)
    requires forall i :: 0 <= i < |b| ==> b[i] != [] && b[i][0] == n
    ensures ReadingOrder(a + b) && StartBelow(a + b, n + 1)
  {
    forall i, j | 0 <= i < j < |a + b| ensures Earlier((a + b)[i], (a + b)[j]) {
      assert i < |a| ==> (a + b)[i] == a[i];
    }
  }

  lemma {:induction false} OrderUpTo(layout: Layout, n: nat)
    requires layout.Split? && n <= |layout.children|
    ensures ReadingOrder(LeavesUpTo(layout, n)) && StartBelow(LeavesUpTo(layout, n), n)
    decreases layout, 0, n
  {
    if n > 0 {
      OrderUpTo(layout, n - 1);
      LeavesInOrder(layout.children[n - 1]);
      UnderInOrder(n - 1, Leaves(layout.children[n - 1]));
      OrderConcat(LeavesUpTo(layout, n - 1), n - 1, Under(n - 1, Leaves(layout.children[n - 1])));
    }
  }

  /** The leaves come in strict reading order. */
  lemma {:induction false} LeavesInOrder(layout: Layout)
    ensures ReadingOrder(Leaves(layout))
    decreases layout, 0
  {
    if layout.Split? { OrderUpTo(layout, |layout.children|); }
  }

  lemma {:induction false} ChildLeaves(layout: Layout, n: nat, i: nat, rest: seq<nat>)
    requires layout.Split? && i < n <= |layout.children| && rest in Leaves(layout.children[i])
    ensures [i] + rest in LeavesUpTo(layout, n)
  {
    if i < n - 1 {
      ChildLeaves(layout, n - 1, i, rest);
    } else {
      var inner := Leaves(layout.children[i]);
      var k :| 0 <= k < |inner| && inner[k] == rest;
      assert Under(i, inner)[k] == [i] + rest;
    }
  }

  /** No leaf is missed. */
  lemma {:induction false} EveryLeafListed(layout: Layout, path: seq<nat>)
    requires TabsAt(layout, path).Some?
    ensures path in Leaves(layout)
    decreases path
  {
    if layout.Tabs? {
      assert Leaves(layout)[0] == path;
    } else {
      EveryLeafListed(layout.children[path[0]], path[1..]);
      ChildLeaves(layout, |layout.children|, path[0], path[1..]);
      assert [path[0]] + path[1..] == path;
    }
  }
}
