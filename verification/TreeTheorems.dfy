/** The compacted listing still encodes the tree: it reads back, and every folder is listed once. */
module TreeTheorems {
  import opened Paths
  import opened TreeLines
  import opened TreeShape

  // ----- reading the lines back with a depth-indexed stack -----

  datatype Listed = Listed(row: Row, folders: seq<string>)

  function Take(stack: seq<string>, depth: nat): seq<string> {
    if depth <= |stack| then stack[..depth] else stack
  }

  function StackAfter(stack: seq<string>, lines: seq<Line>): seq<string>
    decreases |lines|
  {
    if lines == [] then stack
    else StackAfter(if lines[0].Folder? then Take(stack, lines[0].depth) + [lines[0].name] else stack, lines[1..])
  }

  function ReadLines(stack: seq<string>, lines: seq<Line>): seq<Listed>
    decreases |lines|
  {
    if lines == [] then []
    else if lines[0].Folder? then ReadLines(Take(stack, lines[0].depth) + [lines[0].name], lines[1..])
    else [Listed(lines[0].row, Components(Join(Take(stack, lines[0].depth))))] + ReadLines(stack, lines[1..])
  }

  lemma {:induction false} ReadConcat(stack: seq<string>, a: seq<Line>, b: seq<Line>)
    ensures StackAfter(stack, a + b) == StackAfter(StackAfter(stack, a), b)
    ensures ReadLines(stack, a + b) == ReadLines(stack, a) + ReadLines(StackAfter(stack, a), b)
    decreases |a|
  {
    if a == [] {
      assert a + b == b;
    } else {
      assert (a + b)[1..] == a[1..] + b;
      ReadConcat(if a[0].Folder? then Take(stack, a[0].depth) + [a[0].name] else stack, a[1..], b);
    }
  }

  lemma {:induction false} ReadFolders(folders: seq<string>, from: nat, stack: seq<string>)
    requires from <= |folders| && folders[..from] <= stack
    ensures folders <= StackAfter(stack, FolderLines(folders, from))
    ensures ReadLines(stack, FolderLines(folders, from)) == []
    decreases |folders| - from
  {
    if from < |folders| {
      var lines := FolderLines(folders, from);
      assert lines[1..] == FolderLines(folders, from + 1);
      var next := Take(stack, from) + [folders[from]];
      assert next == folders[..from + 1];
      ReadFolders(folders, from + 1, next);
    } else {
      assert folders[..from] == folders;
    }
  }

  /** A row's lines name its folders whatever longer stack was left open. */
  lemma ReadRow(stack: seq<string>, open: seq<string>, folders: seq<string>, row: Row)
    requires open <= stack
    ensures folders <= StackAfter(stack, RowLines(open, folders, row))
    ensures ReadLines(stack, RowLines(open, folders, row)) == [Listed(row, Components(Join(folders)))]
  {
    var n := Shared(open, folders);
    var lines := FolderLines(folders, n);
    assert folders[..n] == open[..n] <= stack;
    ReadFolders(folders, n, stack);
    ReadConcat(stack, lines, [RowLine(row.id, |folders|, row)]);
    var after := StackAfter(stack, lines);
    assert Take(after, |folders|) == folders;
  }

  /** Row `k` under the folders of its path. */
  function ListedAt(paths: seq<seq<string>>, rows: seq<Row>, k: nat): Listed
    requires |rows| == |paths| && k < |paths|
  {
    Listed(rows[k], Folders(paths[k]))
  }

  function Listing(paths: seq<seq<string>>, rows: seq<Row>, n: nat): (r: seq<Listed>)
    requires |rows| == |paths| && n <= |paths|
    ensures |r| == n && forall k :: 0 <= k < n ==> r[k] == ListedAt(paths, rows, k)
  {
    if n == 0 then [] else Listing(paths, rows, n - 1) + [ListedAt(paths, rows, n - 1)]
  }

  lemma NamesReadBack(paths: seq<seq<string>>, k: nat)
    requires AllClean(paths) && k < |paths|
    ensures Components(Join(Compact(paths, paths[k]))) == Folders(paths[k])
  {
    NamesJoin(Joins(paths), Folders(paths[k]));
    CleanPrefix(Folders(paths[k]), paths[k]);
    SplitJoin(Folders(paths[k]));
  }

  function ReadTree(lines: seq<Line>): seq<Listed> {
    ReadLines([], lines)
  }

  function StackOf(lines: seq<Line>): seq<string> {
    StackAfter([], lines)
  }

  lemma ReadOneMore(before: seq<Line>, open: seq<string>, folders: seq<string>, row: Row)
    requires open <= StackOf(before)
    ensures folders <= StackOf(before + RowLines(open, folders, row))
    ensures ReadTree(before + RowLines(open, folders, row))
            == ReadTree(before) + [Listed(row, Components(Join(folders)))]
  {
    ReadConcat([], before, RowLines(open, folders, row));
    ReadRow(StackAfter([], before), open, folders, row);
  }

  /** What holds of no lines, and keeps holding as each row's lines are added, holds of the tree. */
  lemma {:induction false} RowByRow(paths: seq<seq<string>>, rows: seq<Row>, n: nat, holds: (nat, seq<Line>) -> bool)
    requires |rows| == |paths| && n <= |paths| && holds(0, [])
    requires forall k: nat, lines: seq<Line> {:trigger lines + RowPart(paths, rows, k)} ::
               k < |paths| && holds(k, lines) ==> holds(k + 1, lines + RowPart(paths, rows, k))
    ensures holds(n, LinesUpTo(paths, rows, n))
  {
    if n > 0 { RowByRow(paths, rows, n - 1, holds); }
  }

  /** The lines of the first `n` rows read back as those rows, and leave the last row's folders open. */
  ghost predicate ReadsAs(paths: seq<seq<string>>, rows: seq<Row>, n: nat, lines: seq<Line>)
    requires |rows| == |paths|
  {
    n <= |paths| && Open(paths, n) <= StackOf(lines) && ReadTree(lines) == Listing(paths, rows, n)
  }

  lemma ReadPart(paths: seq<seq<string>>, rows: seq<Row>, k: nat, before: seq<Line>)
    requires |rows| == |paths| && AllClean(paths) && k < |paths| && ReadsAs(paths, rows, k, before)
    ensures ReadsAs(paths, rows, k + 1, before + RowPart(paths, rows, k))
  {
    ReadOneMore(before, Open(paths, k), Compact(paths, paths[k]), rows[k]);
    NamesReadBack(paths, k);
  }

  lemma ReadUpTo(paths: seq<seq<string>>, rows: seq<Row>)
    requires |rows| == |paths| && AllClean(paths)
    ensures ReadTree(LinesUpTo(paths, rows, |paths|)) == Listing(paths, rows, |paths|)
  {
    var holds := (k: nat, lines: seq<Line>) => ReadsAs(paths, rows, k, lines);
    forall k: nat, lines: seq<Line> | k < |paths| && holds(k, lines)
      ensures holds(k + 1, lines + RowPart(paths, rows, k))
    {
      ReadPart(paths, rows, k, lines);
    }
    RowByRow(paths, rows, |paths|, holds);
  }

  /** Reading the lines back gives every row, in path order, under its full folder path. */
  lemma TreeReadsBack(rows: seq<Row>)
    ensures var leaves := SortedLeaves(rows);
            ReadTree(AgentTreeLines(rows)) == Listing(PathsOf(leaves), RowsOf(leaves), |leaves|)
    ensures multiset(SortedLeaves(rows)) == multiset(LeavesOf(rows))
  {
    var leaves := SortedLeaves(rows);
    SortedClean(rows);
    ReadUpTo(PathsOf(leaves), RowsOf(leaves));
    SortedIsPermutation(rows);
  }

  function LeavesOf(rows: seq<Row>): seq<Leaf> {
    if rows == [] then []
    else LeavesOf(rows[..|rows| - 1]) + [Leaf(PathOf(rows[|rows| - 1]), rows[|rows| - 1])]
  }

  lemma {:induction false} SortedIsPermutation(rows: seq<Row>)
    ensures multiset(SortedLeaves(rows)) == multiset(LeavesOf(rows))
  {
    if rows != [] {
      var init, row := rows[..|rows| - 1], rows[|rows| - 1];
      SortedIsPermutation(init);
      InsertMembers(SortedLeaves(init), Leaf(PathOf(row), row));
    }
  }

  // ----- every folder once -----

  function FolderKeys(lines: seq<Line>): seq<string> {
    if lines == [] then []
    else
      var rest := FolderKeys(lines[..|lines| - 1]);
      if lines[|lines| - 1].Folder? then rest + [lines[|lines| - 1].key] else rest
  }

  ghost predicate Distinct(keys: seq<string>) {
    forall i, j :: 0 <= i < j < |keys| ==> keys[i] != keys[j]
  }

  lemma {:induction false} KeysConcat(a: seq<Line>, b: seq<Line>)
    ensures FolderKeys(a + b) == FolderKeys(a) + FolderKeys(b)
  {
    if b == [] {
      assert a + b == a;
    } else {
      assert (a + b)[..|a + b| - 1] == a + b[..|b| - 1];
      KeysConcat(a, b[..|b| - 1]);
    }
  }

  function KeyOf(folder: seq<string>): string {
    "folder:" + Join(folder)
  }

  lemma {:induction false} FolderLineKeys(folders: seq<string>, from: nat, lines: seq<Line>)
    requires from <= |folders| && lines <= FolderLines(folders, from)
    ensures |FolderKeys(lines)| == |lines|
    ensures forall i :: 0 <= i < |lines| ==> FolderKeys(lines)[i] == KeyOf(folders[..from + i + 1])
  {
    if lines != [] { FolderLineKeys(folders, from, lines[..|lines| - 1]); }
  }

  lemma NoFurtherKey(lines: seq<Line>, line: Line)
    requires line.RowLine?
    ensures FolderKeys(lines + [line]) == FolderKeys(lines)
  {
    var all := lines + [line];
    assert all[..|all| - 1] == lines;
  }

  lemma RowKeys(open: seq<string>, folders: seq<string>, row: Row)
    ensures var from := Shared(open, folders);
            var keys := FolderKeys(RowLines(open, folders, row));
            |keys| == |folders| - from && forall i :: 0 <= i < |keys| ==> keys[i] == KeyOf(folders[..from + i + 1])
  {
    var lines := FolderLines(folders, Shared(open, folders));
    FolderLineKeys(folders, Shared(open, folders), lines);
    NoFurtherKey(lines, RowLine(row.id, |folders|, row));
  }

  /** A folder whose only content is one folder. */
  ghost predicate OnlyFolder(paths: seq<seq<string>>, folder: seq<string>) {
    |Children(paths, folder)| == 1 && "" !in Children(paths, folder)
  }

  /** `g` is on the way to row `i` and holds something other than a single folder. */
  ghost predicate Holder(paths: seq<seq<string>>, i: nat, g: seq<string>)
    requires i < |paths|
  {
    g != [] && g <= Folders(paths[i]) && !OnlyFolder(paths, g)
  }

  /** `key` names such a folder of one of the first `n` rows. */
  ghost predicate ListedFolder(paths: seq<seq<string>>, n: nat, key: string)
    requires n <= |paths|
  {
    exists i: nat, g :: i < n && Holder(paths, i, g) && key == KeyOf(g)
  }

  lemma SoleChild(s: set<string>, x: string)
    requires x in s && |s| == 1
    ensures s == {x}
  {
    assert |s - {x}| == 0;
  }

  /** The code's test ends a line exactly at such a folder. */
  lemma HolderEncloses(paths: seq<seq<string>>, i: nat, g: seq<string>)
    requires AllClean(paths) && i < |paths|
    ensures Holder(paths, i, g) <==> Encloses(Joins(paths), g, Folders(paths[i]))
  {
    var folders := Folders(paths[i]);
    if g != [] && g <= folders {
      assert Inside(paths[i], g);
      var x := ChildOf(paths[i], g);
      assert x in Children(paths, g);
      if g < folders { assert x == paths[i][|g|]; }
      if |Children(paths, g)| == 1 { SoleChild(Children(paths, g), x); }
    }
  }

  ghost predicate PathOrder(paths: seq<seq<string>>) {
    forall i, j :: 0 <= i < j < |paths| ==> AtMost(paths[i], paths[j])
  }

  lemma KeysDiffer(paths: seq<seq<string>>, g: seq<string>, h: seq<string>, i: nat, j: nat)
    requires AllClean(paths) && i < |paths| && j < |paths|
    requires g <= Folders(paths[i]) && h <= Folders(paths[j]) && KeyOf(g) == KeyOf(h)
    ensures g == h
  {
    assert Join(g) == KeyOf(g)[7..] && Join(h) == KeyOf(h)[7..];
    CleanPrefix(g, paths[i]);
    CleanPrefix(h, paths[j]);
    JoinInjective(g, h);
  }

  /** A folder met before and again now was still open in between. */
  lemma StillOpen(paths: seq<seq<string>>, g: seq<string>, i: nat, k: nat)
    requires PathOrder(paths) && i < k < |paths|
    requires g <= Folders(paths[i]) && g != [] && g <= Folders(paths[k])
    ensures g <= Folders(paths[k - 1])
  {
    if i < k - 1 {
      assert AtMost(paths[i], paths[k - 1]) && AtMost(paths[k - 1], paths[k]);
      Between(g, paths[i], paths[k - 1], paths[k]);
    }
  }

  function NamesOf(paths: seq<seq<string>>, g: seq<string>): seq<string> {
    Names(Joins(paths), g)
  }

  /** The folders opened at row `k`: those on its way that were not on the way to the row before. */
  lemma RowOpens(paths: seq<seq<string>>, k: nat, g: seq<string>)
    requires AllClean(paths) && k < |paths| && Holder(paths, k, g)
    ensures |NamesOf(paths, g)| <= Shared(Open(paths, k), Compact(paths, paths[k]))
            <==> k > 0 && g <= Folders(paths[k - 1])
  {
    HolderEncloses(paths, k, g);
    if k == 0 {
      NamesJoin(Joins(paths), g);
    } else {
      HolderEncloses(paths, k - 1, g);
      CleanPrefix(Folders(paths[k - 1]), paths[k - 1]);
      CleanPrefix(Folders(paths[k]), paths[k]);
      SharedLine(Joins(paths), g, Folders(paths[k - 1]), Folders(paths[k]));
    }
  }

  function RowKeysAt(paths: seq<seq<string>>, k: nat, row: Row): seq<string>
    requires k < |paths|
  {
    FolderKeys(RowLines(Open(paths, k), Compact(paths, paths[k]), row))
  }

  /** The key at position `i` of row `k` names a folder on its way, newly opened. */
  lemma RowKeyFolder(paths: seq<seq<string>>, k: nat, row: Row, i: nat) returns (g: seq<string>)
    requires AllClean(paths) && k < |paths| && i < |RowKeysAt(paths, k, row)|
    ensures Holder(paths, k, g) && RowKeysAt(paths, k, row)[i] == KeyOf(g)
    ensures |NamesOf(paths, g)| == Shared(Open(paths, k), Compact(paths, paths[k])) + i + 1
    ensures !(k > 0 && g <= Folders(paths[k - 1]))
  {
    var open, names := Open(paths, k), Compact(paths, paths[k]);
    RowKeys(open, names, row);
    var m := Shared(open, names) + i + 1;
    g := NamesPrefix(Joins(paths), Folders(paths[k]), m);
    HolderEncloses(paths, k, g);
    NamesJoin(Joins(paths), g);
    RowOpens(paths, k, g);
  }

  /** And every newly opened folder on its way gets a key. */
  lemma FolderHasKey(paths: seq<seq<string>>, k: nat, row: Row, g: seq<string>)
    requires AllClean(paths) && k < |paths| && Holder(paths, k, g)
    requires !(k > 0 && g <= Folders(paths[k - 1]))
    ensures KeyOf(g) in RowKeysAt(paths, k, row)
  {
    RowOpens(paths, k, g);
    HolderEncloses(paths, k, g);
    EnclosingNames(Joins(paths), g, Folders(paths[k]));
    NamesJoin(Joins(paths), g);
    KeyAt(Open(paths, k), Compact(paths, paths[k]), row, NamesOf(paths, g));
  }

  lemma KeyAt(open: seq<string>, names: seq<string>, row: Row, prefix: seq<string>)
    requires prefix <= names && Shared(open, names) < |prefix|
    ensures KeyOf(prefix) in FolderKeys(RowLines(open, names, row))
  {
    RowKeys(open, names, row);
    var i := |prefix| - Shared(open, names) - 1;
    assert names[..Shared(open, names) + i + 1] == prefix;
    assert FolderKeys(RowLines(open, names, row))[i] == KeyOf(prefix);
  }

  lemma RowKeysDistinct(paths: seq<seq<string>>, k: nat, row: Row)
    requires AllClean(paths) && k < |paths|
    ensures Distinct(RowKeysAt(paths, k, row))
  {
    var keys := RowKeysAt(paths, k, row);
    forall i, j | 0 <= i < j < |keys| ensures keys[i] != keys[j] {
      var g := RowKeyFolder(paths, k, row, i);
      var h := RowKeyFolder(paths, k, row, j);
      if keys[i] == keys[j] { KeysDiffer(paths, g, h, k, k); }
    }
  }

  lemma RowKeysFresh(paths: seq<seq<string>>, k: nat, row: Row, i: nat)
    requires AllClean(paths) && PathOrder(paths) && k < |paths| && i < |RowKeysAt(paths, k, row)|
    ensures !ListedFolder(paths, k, RowKeysAt(paths, k, row)[i])
  {
    var key := RowKeysAt(paths, k, row)[i];
    var g := RowKeyFolder(paths, k, row, i);
    if ListedFolder(paths, k, key) {
      var j: nat, h :| j < k && Holder(paths, j, h) && key == KeyOf(h);
      KeysDiffer(paths, g, h, k, j);
      StillOpen(paths, g, j, k);
    }
  }

  lemma ListedNext(paths: seq<seq<string>>, k: nat, row: Row, key: string)
    requires AllClean(paths) && k < |paths|
    ensures ListedFolder(paths, k + 1, key) <==> ListedFolder(paths, k, key) || key in RowKeysAt(paths, k, row)
  {
    if key in RowKeysAt(paths, k, row) {
      var i :| 0 <= i < |RowKeysAt(paths, k, row)| && RowKeysAt(paths, k, row)[i] == key;
      var g := RowKeyFolder(paths, k, row, i);
    }
    if ListedFolder(paths, k + 1, key) && !ListedFolder(paths, k, key) {
      var i: nat, g :| i < k + 1 && Holder(paths, i, g) && key == KeyOf(g);
      assert i == k;
      assert !(k > 0 && g <= Folders(paths[k - 1])) by {
        if k > 0 && g <= Folders(paths[k - 1]) { assert Holder(paths, k - 1, g); }
      }
      FolderHasKey(paths, k, row, g);
    }
  }

  lemma DistinctConcat(a: seq<string>, b: seq<string>)
    requires Distinct(a) && Distinct(b) && forall i :: 0 <= i < |b| ==> b[i] !in a
    ensures Distinct(a + b)
  {
    var s := a + b;
    forall i, j | 0 <= i < j < |s| ensures s[i] != s[j] {
      if i < |a| <= j { assert s[i] in a; }
    }
  }

  /** The keys so far: distinct, and those of exactly the folders met so far. */
  ghost predicate KeysFit(paths: seq<seq<string>>, n: nat, keys: seq<string>)
    requires n <= |paths|
  {
    Distinct(keys) && KeySet(keys) == Met(paths, n)
  }

  ghost function KeySet(keys: seq<string>): iset<string> {
    iset key | key in keys
  }

  ghost function Met(paths: seq<seq<string>>, n: nat): iset<string>
    requires n <= |paths|
  {
    iset key | ListedFolder(paths, n, key)
  }

  lemma RowKeysNew(paths: seq<seq<string>>, k: nat, row: Row, before: seq<string>)
    requires AllClean(paths) && PathOrder(paths) && k < |paths| && KeySet(before) == Met(paths, k)
    ensures forall i :: 0 <= i < |RowKeysAt(paths, k, row)| ==> RowKeysAt(paths, k, row)[i] !in before
  {
    var added := RowKeysAt(paths, k, row);
    forall i | 0 <= i < |added| ensures added[i] !in before {
      RowKeysFresh(paths, k, row, i);
      assert added[i] !in KeySet(before);
    }
  }

  lemma MetNext(paths: seq<seq<string>>, k: nat, row: Row, before: seq<string>, key: string)
    requires AllClean(paths) && PathOrder(paths) && k < |paths| && KeySet(before) == Met(paths, k)
    ensures key in before + RowKeysAt(paths, k, row) <==> key in Met(paths, k + 1)
  {
    ListedNext(paths, k, row, key);
    assert key in KeySet(before) <==> key in Met(paths, k);
  }

  lemma KeysNext(paths: seq<seq<string>>, k: nat, row: Row, before: seq<string>)
    requires AllClean(paths) && PathOrder(paths) && k < |paths| && KeysFit(paths, k, before)
    ensures KeysFit(paths, k + 1, before + RowKeysAt(paths, k, row))
  {
    var added := RowKeysAt(paths, k, row);
    RowKeysDistinct(paths, k, row);
    RowKeysNew(paths, k, row, before);
    DistinctConcat(before, added);
    forall key ensures key in KeySet(before + added) <==> key in Met(paths, k + 1) { MetNext(paths, k, row, before, key); }
  }

  ghost predicate LinesFit(paths: seq<seq<string>>, n: nat, lines: seq<Line>) {
    n <= |paths| && KeysFit(paths, n, FolderKeys(lines))
  }

  lemma KeysPart(paths: seq<seq<string>>, rows: seq<Row>, k: nat, before: seq<Line>)
    requires |rows| == |paths| && AllClean(paths) && PathOrder(paths) && k < |paths|
    requires LinesFit(paths, k, before)
    ensures LinesFit(paths, k + 1, before + RowPart(paths, rows, k))
  {
    KeysNext(paths, k, rows[k], FolderKeys(before));
    KeysConcat(before, RowPart(paths, rows, k));
  }

  lemma KeysUpTo(paths: seq<seq<string>>, rows: seq<Row>)
    requires |rows| == |paths| && AllClean(paths) && PathOrder(paths)
    ensures KeysFit(paths, |paths|, FolderKeys(LinesUpTo(paths, rows, |paths|)))
  {
    var holds := (k: nat, lines: seq<Line>) => LinesFit(paths, k, lines);
    forall k: nat, lines: seq<Line> | k < |paths| && holds(k, lines)
      ensures holds(k + 1, lines + RowPart(paths, rows, k))
    {
      KeysPart(paths, rows, k, lines);
    }
    RowByRow(paths, rows, |paths|, holds);
  }

  lemma KeysMet(paths: seq<seq<string>>, keys: seq<string>)
    requires KeysFit(paths, |paths|, keys)
    ensures forall key :: key in keys <==> ListedFolder(paths, |paths|, key)
  {
    forall key ensures key in keys <==> ListedFolder(paths, |paths|, key) {
      assert key in KeySet(keys) <==> key in Met(paths, |paths|);
    }
  }

  /**
   For every set of rows: the folder lines have pairwise distinct keys, and the folders listed are
   exactly the folders on the way to some row that hold something other than a single folder.
   */
  lemma EveryFolderOnce(rows: seq<Row>)
    ensures var keys, paths := FolderKeys(AgentTreeLines(rows)), PathsOf(SortedLeaves(rows));
            && Distinct(keys)
            && forall key :: key in keys <==> ListedFolder(paths, |paths|, key)
  {
    var leaves := SortedLeaves(rows);
    SortedClean(rows);
    SortedInOrder(rows);
    KeysUpTo(PathsOf(leaves), RowsOf(leaves));
    KeysMet(PathsOf(leaves), FolderKeys(AgentTreeLines(rows)));
  }
}
