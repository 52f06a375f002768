/**
 What compacted line names stand for, whatever decides which folders are joined to the next:
 the names spell the folders, and the first names are those of the enclosing folders.
 */
module TreeShape {
  import opened Paths
  import opened TreeLines

  type Test = seq<string> -> bool

  /** `g` ends a line on the way to `folders`. */
  ghost predicate Encloses(joins: Test, g: seq<string>, folders: seq<string>) {
    g != [] && g <= folders && (g == folders || !joins(g))
  }

  /** The line names of a list of folders. */
  function Names(joins: Test, folders: seq<string>): seq<string> {
    CompactFrom(joins, folders, 0)
  }

  // ----- groups -----

  lemma {:induction false} EndEncloses(joins: Test, folders: seq<string>, d: nat)
    requires d < |folders|
    ensures Encloses(joins, folders[..GroupEnd(joins, folders, d) + 1], folders)
    decreases |folders| - d
  {
    if d + 1 == |folders| {
      assert folders[..d + 1] == folders;
    } else if joins(folders[..d + 1]) {
      EndEncloses(joins, folders, d + 1);
    }
  }

  /** An enclosing folder's groups are the first groups of the path through it. */
  lemma {:induction false} SameEnd(joins: Test, g: seq<string>, folders: seq<string>, d: nat)
    requires Encloses(joins, g, folders) && d < |g|
    ensures GroupEnd(joins, g, d) == GroupEnd(joins, folders, d)
    decreases |g| - d
  {
    assert g[..d + 1] == folders[..d + 1];
    if d + 1 < |g| {
      SameEnd(joins, g, folders, d + 1);
    } else {
      assert g[..d + 1] == g;
    }
  }

  lemma Unfolds(joins: Test, folders: seq<string>, d: nat, e: nat)
    requires d < |folders| && e == GroupEnd(joins, folders, d)
    ensures CompactFrom(joins, folders, d) == [Join(folders[d..e + 1])] + CompactFrom(joins, folders, e + 1)
    ensures Count(joins, folders, d) == 1 + Count(joins, folders, e + 1)
  {
    hide Join, GroupEnd;
  }

  function Count(joins: Test, folders: seq<string>, d: nat): nat
    requires d <= |folders|
  {
    |CompactFrom(joins, folders, d)|
  }

  // ----- the names spell the folder -----

  lemma JoinSlices(p: seq<string>, d: nat, e: nat)
    requires d < e < |p|
    ensures Join(p[d..]) == Join(p[d..e]) + "/" + Join(p[e..])
  {
    assert p[d..] == p[d..e] + p[e..];
    JoinParts(p[d..e], p[e..]);
  }

  function Spelled(joins: Test, folders: seq<string>, d: nat): string
    requires d <= |folders|
  {
    Join(CompactFrom(joins, folders, d))
  }

  lemma JoinHead(x: string, rest: seq<string>, all: seq<string>)
    requires all == [x] + rest
    ensures Join(all) == if rest == [] then x else x + "/" + Join(rest)
  {
    if rest != [] { JoinParts([x], rest); }
  }

  lemma SpelledOnce(joins: Test, folders: seq<string>, d: nat, e: nat)
    requires d < |folders| && e == GroupEnd(joins, folders, d)
    ensures Spelled(joins, folders, d)
            == if e + 1 == |folders| then Join(folders[d..e + 1])
               else Join(folders[d..e + 1]) + "/" + Spelled(joins, folders, e + 1)
  {
    Unfolds(joins, folders, d, e);
    JoinHead(Join(folders[d..e + 1]), CompactFrom(joins, folders, e + 1), CompactFrom(joins, folders, d));
  }

  lemma {:induction false} NamesSpell(joins: Test, folders: seq<string>, d: nat)
    requires d < |folders|
    ensures Spelled(joins, folders, d) == Join(folders[d..])
    decreases |folders| - d
  {
    var e := GroupEnd(joins, folders, d);
    SpelledOnce(joins, folders, d, e);
    if e + 1 == |folders| {
      assert folders[d..e + 1] == folders[d..];
    } else {
      NamesSpell(joins, folders, e + 1);
      JoinSlices(folders, d, e + 1);
    }
  }

  lemma NamesJoin(joins: Test, folders: seq<string>)
    ensures Join(Names(joins, folders)) == Join(folders)
    ensures folders == [] <==> Names(joins, folders) == []
  {
    if folders != [] {
      NamesSpell(joins, folders, 0);
      assert folders[0..] == folders;
    }
  }

  lemma NamesDiffer(joins: Test, g: seq<string>, h: seq<string>)
    requires Clean(g) && Clean(h) && Join(Names(joins, g)) == Join(Names(joins, h))
    ensures g == h
  {
    NamesJoin(joins, g);
    NamesJoin(joins, h);
    JoinInjective(g, h);
  }

  // ----- enclosing folders are the prefixes of the names -----

  lemma PrefixCons(x: string, a: seq<string>, b: seq<string>, xa: seq<string>, xb: seq<string>)
    requires a <= b && xa == [x] + a && xb == [x] + b
    ensures xa <= xb
  {
  }

  lemma {:induction false} EnclosingFrom(joins: Test, g: seq<string>, folders: seq<string>, d: nat)
    requires Encloses(joins, g, folders) && d <= |g|
    ensures CompactFrom(joins, g, d) <= CompactFrom(joins, folders, d)
    decreases |g| - d
  {
    if d < |g| {
      SameEnd(joins, g, folders, d);
      var e := GroupEnd(joins, g, d);
      assert g[d..e + 1] == folders[d..e + 1];
      EnclosingFrom(joins, g, folders, e + 1);
      Unfolds(joins, g, d, e);
      Unfolds(joins, folders, d, e);
      PrefixCons(Join(g[d..e + 1]), CompactFrom(joins, g, e + 1), CompactFrom(joins, folders, e + 1),
                 CompactFrom(joins, g, d), CompactFrom(joins, folders, d));
    }
  }

  lemma EnclosingNames(joins: Test, g: seq<string>, folders: seq<string>)
    requires Encloses(joins, g, folders)
    ensures Names(joins, g) <= Names(joins, folders)
  {
    EnclosingFrom(joins, g, folders, 0);
  }

  /** The folder whose line is the `m`-th below depth `d`. */
  lemma {:induction false} NthFolder(joins: Test, folders: seq<string>, d: nat, m: nat) returns (n: nat)
    requires d <= |folders| && 0 < m <= Count(joins, folders, d)
    ensures d < n <= |folders| && Encloses(joins, folders[..n], folders)
    ensures Count(joins, folders[..n], d) == m
    decreases |folders| - d
  {
    var e := GroupEnd(joins, folders, d);
    Unfolds(joins, folders, d, e);
    if m == 1 {
      n := e + 1;
      EndEncloses(joins, folders, d);
    } else {
      n := NthFolder(joins, folders, e + 1, m - 1);
    }
    SameEnd(joins, folders[..n], folders, d);
    Unfolds(joins, folders[..n], d, e);
  }

  lemma NamesPrefix(joins: Test, folders: seq<string>, m: nat) returns (g: seq<string>)
    requires 0 < m <= |Names(joins, folders)|
    ensures Encloses(joins, g, folders) && Names(joins, g) == Names(joins, folders)[..m]
  {
    var n := NthFolder(joins, folders, 0, m);
    g := folders[..n];
    EnclosingNames(joins, g, folders);
  }

  // ----- two paths share a line exactly when they share its folder -----

  lemma PrefixOfBoth(names: seq<string>, a: seq<string>, b: seq<string>)
    requires names <= b && |names| <= Shared(a, b)
    ensures a[..|names|] == names
  {
    var n, m := Shared(a, b), |names|;
    assert a[..m] == a[..n][..m] && b[..m] == b[..n][..m];
  }

  lemma CommonAtMostShared(g: seq<string>, a: seq<string>, b: seq<string>)
    requires g <= a && g <= b
    ensures |g| <= Shared(a, b)
  {
    var n := Shared(a, b);
    assert forall i :: 0 <= i < |g| ==> a[i] == g[i] && b[i] == g[i];
  }

  lemma CleanPrefix(g: seq<string>, a: seq<string>)
    requires g <= a && Clean(a)
    ensures Clean(g)
  {
    assert forall i :: 0 <= i < |g| ==> g[i] == a[i];
  }

  lemma FolderOfSharedLine(joins: Test, g: seq<string>, a: seq<string>, b: seq<string>)
    requires Clean(a) && Clean(b) && Encloses(joins, g, b)
    requires |Names(joins, g)| <= Shared(Names(joins, a), Names(joins, b))
    ensures g <= a
  {
    EnclosingNames(joins, g, b);
    PrefixOfBoth(Names(joins, g), Names(joins, a), Names(joins, b));
    NamesJoin(joins, g);
    var h := NamesPrefix(joins, a, |Names(joins, g)|);
    CleanPrefix(g, b);
    CleanPrefix(h, a);
    NamesDiffer(joins, g, h);
  }

  lemma SharedLine(joins: Test, g: seq<string>, a: seq<string>, b: seq<string>)
    requires Clean(a) && Clean(b) && Encloses(joins, g, b) && (g <= a ==> Encloses(joins, g, a))
    ensures |Names(joins, g)| <= Shared(Names(joins, a), Names(joins, b)) <==> g <= a
  {
    if g <= a {
      EnclosingNames(joins, g, a);
      EnclosingNames(joins, g, b);
      CommonAtMostShared(Names(joins, g), Names(joins, a), Names(joins, b));
    } else if |Names(joins, g)| <= Shared(Names(joins, a), Names(joins, b)) {
      FolderOfSharedLine(joins, g, a, b);
    }
  }
}
