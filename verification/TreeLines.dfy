/**
 The agents tree of `apps/ios/agentsView.ts`: rows listed under the folders of their paths, where a
 chain of folders with nothing else in them takes a single line.
 */
module TreeLines {
  import opened Paths

  datatype Row = Row(id: string, path: string, unmanaged: bool, host: string, name: string)

  datatype Leaf = Leaf(path: seq<string>, row: Row)

  datatype Line = Folder(key: string, depth: nat, name: string) | RowLine(key: string, depth: nat, row: Row)

  function PathOf(row: Row): seq<string> {
    Components(if row.unmanaged then "found/" + row.host + "/" + row.name else row.path)
  }

  /** `path.slice(0, -1)`. */
  function Folders(path: seq<string>): seq<string> {
    if path == [] then [] else path[..|path| - 1]
  }

  // ----- the leaves in path order -----

  function Insert(s: seq<Leaf>, leaf: Leaf): seq<Leaf> {
    if s == [] then [leaf]
    else if AtMost(s[|s| - 1].path, leaf.path) then s + [leaf]
    else Insert(s[..|s| - 1], leaf) + [s[|s| - 1]]
  }

  function SortedLeaves(rows: seq<Row>): seq<Leaf> {
    if rows == [] then []
    else Insert(SortedLeaves(rows[..|rows| - 1]), Leaf(PathOf(rows[|rows| - 1]), rows[|rows| - 1]))
  }

  ghost predicate InOrder(s: seq<Leaf>) {
    forall i, j :: 0 <= i < j < |s| ==> AtMost(s[i].path, s[j].path)
  }

  function PathsOf(leaves: seq<Leaf>): (r: seq<seq<string>>)
    ensures |r| == |leaves| && forall i :: 0 <= i < |r| ==> r[i] == leaves[i].path
  {
    if leaves == [] then [] else PathsOf(leaves[..|leaves| - 1]) + [leaves[|leaves| - 1].path]
  }

  function RowsOf(leaves: seq<Leaf>): (r: seq<Row>)
    ensures |r| == |leaves| && forall i :: 0 <= i < |r| ==> r[i] == leaves[i].row
  {
    if leaves == [] then [] else RowsOf(leaves[..|leaves| - 1]) + [leaves[|leaves| - 1].row]
  }

  // ----- folders joined to their only folder -----

  /** `path` runs through `folder`. */
  predicate Inside(path: seq<string>, folder: seq<string>) {
    folder != [] && folder <= Folders(path)
  }

  /** What `folder` holds on the way to `path`: its next folder, or nothing for a row of its own. */
  function ChildOf(path: seq<string>, folder: seq<string>): string {
    if |folder| < |Folders(path)| then Folders(path)[|folder|] else ""
  }

  function Children(paths: seq<seq<string>>, folder: seq<string>): set<string> {
    set i | 0 <= i < |paths| && Inside(paths[i], folder) :: ChildOf(paths[i], folder)
  }

  /** The test `holds.get(folder)?.size === 1`. */
  function Joins(paths: seq<seq<string>>): seq<string> -> bool {
    folder => |Children(paths, folder)| == 1
  }

  function GroupEnd(joins: seq<string> -> bool, folders: seq<string>, depth: nat): (e: nat)
    requires depth < |folders|
    ensures depth <= e < |folders|
    decreases |folders| - depth
  {
    if depth + 1 < |folders| && joins(folders[..depth + 1]) then GroupEnd(joins, folders, depth + 1) else depth
  }

  function CompactFrom(joins: seq<string> -> bool, folders: seq<string>, depth: nat): seq<string>
    requires depth <= |folders|
    decreases |folders| - depth
  {
    if depth == |folders| then []
    else
      var e := GroupEnd(joins, folders, depth);
      [Join(folders[depth..e + 1])] + CompactFrom(joins, folders, e + 1)
  }

  function Compact(paths: seq<seq<string>>, path: seq<string>): seq<string> {
    CompactFrom(Joins(paths), Folders(path), 0)
  }

  // ----- the lines -----

  function Shared(a: seq<string>, b: seq<string>): (n: nat)
    ensures n <= |a| && n <= |b| && a[..n] == b[..n]
    ensures n < |a| && n < |b| ==> a[n] != b[n]
  {
    if a == [] || b == [] || a[0] != b[0] then 0
    else
      var n := 1 + Shared(a[1..], b[1..]);
      assert a[..n] == [a[0]] + a[1..][..n - 1] && b[..n] == [b[0]] + b[1..][..n - 1];
      n
  }

  function FolderLine(folders: seq<string>, depth: nat): Line
    requires depth < |folders|
  {
    Folder("folder:" + Join(folders[..depth + 1]), depth, folders[depth])
  }

  function FolderLines(folders: seq<string>, from: nat): (r: seq<Line>)
    requires from <= |folders|
    ensures |r| == |folders| - from
    ensures forall i :: 0 <= i < |r| ==> r[i] == FolderLine(folders, from + i)
    decreases |folders| - from
  {
    if from == |folders| then [] else [FolderLine(folders, from)] + FolderLines(folders, from + 1)
  }

  function RowLines(open: seq<string>, folders: seq<string>, row: Row): seq<Line> {
    FolderLines(folders, Shared(open, folders)) + [RowLine(row.id, |folders|, row)]
  }

  function Open(paths: seq<seq<string>>, n: nat): seq<string>
    requires n <= |paths|
  {
    if n == 0 then [] else Compact(paths, paths[n - 1])
  }

  /** Row `k`'s lines: its folders that are not open yet, then the row. */
  function RowPart(paths: seq<seq<string>>, rows: seq<Row>, k: nat): seq<Line>
    requires |rows| == |paths| && k < |paths|
  {
    RowLines(Open(paths, k), Compact(paths, paths[k]), rows[k])
  }

  function LinesUpTo(paths: seq<seq<string>>, rows: seq<Row>, n: nat): seq<Line>
    requires |rows| == |paths| && n <= |paths|
  {
    if n == 0 then [] else LinesUpTo(paths, rows, n - 1) + RowPart(paths, rows, n - 1)
  }

  function AgentTreeLines(rows: seq<Row>): seq<Line> {
    var leaves := SortedLeaves(rows);
    LinesUpTo(PathsOf(leaves), RowsOf(leaves), |leaves|)
  }

  // ----- as the source runs them -----

  ghost predicate AllClean(paths: seq<seq<string>>) {
    forall i :: 0 <= i < |paths| ==> Clean(paths[i])
  }

  function Lookup(holds: map<string, set<string>>, key: string): set<string> {
    if key in holds then holds[key] else {}
  }

  /** What `folder` is known to hold after `k` paths and the first `d` folders of the next one. */
  ghost function Seen(paths: seq<seq<string>>, k: nat, d: nat, folder: seq<string>): set<string>
    requires k <= |paths|
  {
    Children(paths[..k], folder)
    + if k < |paths| && Inside(paths[k], folder) && |folder| <= d then {ChildOf(paths[k], folder)} else {}
  }

  ghost predicate HoldsFits(holds: map<string, set<string>>, paths: seq<seq<string>>, k: nat, d: nat)
    requires k <= |paths|
  {
    forall folder :: folder != [] && Clean(folder) ==> Lookup(holds, Join(folder)) == Seen(paths, k, d, folder)
  }

  lemma HoldsNext(holds: map<string, set<string>>, paths: seq<seq<string>>, k: nat, d: nat)
    requires AllClean(paths) && k < |paths| && d < |Folders(paths[k])| && HoldsFits(holds, paths, k, d)
    ensures var folder := Folders(paths[k])[..d + 1];
            var key := Join(folder);
            HoldsFits(holds[key := Lookup(holds, key) + {ChildOf(paths[k], folder)}], paths, k, d + 1)
  {
    var folder := Folders(paths[k])[..d + 1];
    var key := Join(folder);
    var holds' := holds[key := Lookup(holds, key) + {ChildOf(paths[k], folder)}];
    forall g | g != [] && Clean(g) ensures Lookup(holds', Join(g)) == Seen(paths, k, d + 1, g) {
      if Join(g) == key {
        JoinInjective(g, folder);
      } else {
        assert Lookup(holds', Join(g)) == Seen(paths, k, d, g);
        assert Inside(paths[k], g) && |g| == d + 1 ==> g == folder;
      }
    }
  }

  lemma HoldsPath(holds: map<string, set<string>>, paths: seq<seq<string>>, k: nat)
    requires k < |paths| && HoldsFits(holds, paths, k, |Folders(paths[k])|)
    ensures HoldsFits(holds, paths, k + 1, 0)
  {
    forall g | g != [] && Clean(g)
      ensures Seen(paths, k, |Folders(paths[k])|, g) == Seen(paths, k + 1, 0, g)
    {
      ChildrenNext(paths, k, g);
    }
  }

  lemma ChildrenNext(paths: seq<seq<string>>, k: nat, folder: seq<string>)
    requires k < |paths|
    ensures Children(paths[..k + 1], folder)
            == Children(paths[..k], folder) + if Inside(paths[k], folder) then {ChildOf(paths[k], folder)} else {}
  {
    var more := paths[..k + 1];
    assert forall i :: 0 <= i < k ==> more[i] == paths[..k][i];
    assert more[k] == paths[k];
  }

  /** Record what each folder of one path holds on the way to it. */
  method HoldPath(before: map<string, set<string>>, paths: seq<seq<string>>, k: nat)
    returns (holds: map<string, set<string>>)
    requires AllClean(paths) && k < |paths| && HoldsFits(before, paths, k, 0)
    ensures HoldsFits(holds, paths, k + 1, 0)
  {
    holds := before;
    var folders := Folders(paths[k]);
    for d := 0 to |folders|
      invariant HoldsFits(holds, paths, k, d)
    {
      var key := Join(folders[..d + 1]);
      HoldsNext(holds, paths, k, d);
      holds := holds[key := Lookup(holds, key) + {ChildOf(paths[k], folders[..d + 1])}];
    }
    HoldsPath(holds, paths, k);
  }

  method HoldAll(paths: seq<seq<string>>) returns (holds: map<string, set<string>>)
    requires AllClean(paths)
    ensures forall i :: 0 <= i < |paths| ==> AllAnswered(holds, paths, Folders(paths[i]))
  {
    holds := map[];
    for k := 0 to |paths|
      invariant HoldsFits(holds, paths, k, 0)
    {
      holds := HoldPath(holds, paths, k);
    }
    forall i | 0 <= i < |paths| ensures AllAnswered(holds, paths, Folders(paths[i])) {
      HoldsAnswers(holds, paths, Folders(paths[i]));
    }
  }

  /** `compactFolders`: collect what every folder holds, then join single-folder chains. */
  method CompactFolders(paths: seq<seq<string>>) returns (r: seq<seq<string>>)
    requires AllClean(paths)
    ensures |r| == |paths| && forall i :: 0 <= i < |r| ==> r[i] == Compact(paths, paths[i])
  {
    var holds := HoldAll(paths);
    r := [];
    for k := 0 to |paths|
      invariant |r| == k && forall i :: 0 <= i < k ==> r[i] == Compact(paths, paths[i])
    {
      var compact := CompactPath(holds, paths, Folders(paths[k]));
      r := r + [compact];
    }
  }

  method CompactPath(holds: map<string, set<string>>, ghost paths: seq<seq<string>>, folders: seq<string>)
    returns (compact: seq<string>)
    requires AllAnswered(holds, paths, folders)
    ensures compact == CompactFrom(Joins(paths), folders, 0)
  {
    compact := [];
    var depth := 0;
    ghost var all := CompactFrom(Joins(paths), folders, 0);
    while depth < |folders|
      invariant depth <= |folders|
      invariant compact + CompactFrom(Joins(paths), folders, depth) == all
    {
      var name, end := JoinGroup(holds, paths, folders, depth);
      MoveOne(compact, name, CompactFrom(Joins(paths), folders, end + 1), all);
      compact := compact + [name];
      depth := end + 1;
    }
  }

  lemma MoveOne(a: seq<string>, x: string, rest: seq<string>, all: seq<string>)
    requires a + ([x] + rest) == all
    ensures (a + [x]) + rest == all
  {
  }

  /** The inner loop: one line's name, and the depth of the last folder it takes in. */
  method JoinGroup(holds: map<string, set<string>>, ghost paths: seq<seq<string>>, folders: seq<string>, from: nat)
    returns (name: string, depth: nat)
    requires from < |folders| && AllAnswered(holds, paths, folders)
    ensures depth == GroupEnd(Joins(paths), folders, from) && name == Join(folders[from..depth + 1])
  {
    depth := from;
    name := folders[depth];
    assert folders[from..depth + 1] == [folders[depth]];
    assert Answered(holds, paths, folders, depth);
    while depth + 1 < |folders| && |Lookup(holds, Join(folders[..depth + 1]))| == 1
      invariant from <= depth < |folders| && name == Join(folders[from..depth + 1])
      invariant GroupEnd(Joins(paths), folders, from) == GroupEnd(Joins(paths), folders, depth)
      invariant Answered(holds, paths, folders, depth)
    {
      depth := depth + 1;
      JoinLonger(folders, from, depth);
      name := name + "/" + folders[depth];
      assert Answered(holds, paths, folders, depth);
    }
  }

  lemma JoinLonger(folders: seq<string>, from: nat, depth: nat)
    requires from < depth < |folders|
    ensures Join(folders[from..depth + 1]) == Join(folders[from..depth]) + "/" + folders[depth]
  {
    JoinParts(folders[from..depth], [folders[depth]]);
    assert folders[from..depth] + [folders[depth]] == folders[from..depth + 1];
  }

  ghost predicate Answered(holds: map<string, set<string>>, paths: seq<seq<string>>, folders: seq<string>, d: nat)
    requires d < |folders|
  {
    Lookup(holds, Join(folders[..d + 1])) == Children(paths, folders[..d + 1])
  }

  ghost predicate AllAnswered(holds: map<string, set<string>>, paths: seq<seq<string>>, folders: seq<string>) {
    forall d :: 0 <= d < |folders| ==> Answered(holds, paths, folders, d)
  }

  lemma HoldsAnswers(holds: map<string, set<string>>, paths: seq<seq<string>>, folders: seq<string>)
    requires HoldsFits(holds, paths, |paths|, 0) && Clean(folders)
    ensures AllAnswered(holds, paths, folders)
  {
    assert paths[..|paths|] == paths;
    forall d | 0 <= d < |folders| ensures Answered(holds, paths, folders, d) {
      assert Lookup(holds, Join(folders[..d + 1])) == Seen(paths, |paths|, 0, folders[..d + 1]);
    }
  }

  /** `agentTreeLines`: emit each row's folders that are not already open, then the row. */
  method ListTree(rows: seq<Row>) returns (lines: seq<Line>)
    ensures lines == AgentTreeLines(rows)
  {
    var leaves := SortedLeaves(rows);
    SortedClean(rows);
    lines := ListPaths(PathsOf(leaves), RowsOf(leaves));
  }

  method ListPaths(paths: seq<seq<string>>, rows: seq<Row>) returns (lines: seq<Line>)
    requires |rows| == |paths| && AllClean(paths)
    ensures lines == LinesUpTo(paths, rows, |paths|)
  {
    var compact := CompactFolders(paths);
    lines := [];
    var open: seq<string> := [];
    for i := 0 to |paths|
      invariant lines == LinesUpTo(paths, rows, i)
      invariant open == Open(paths, i)
    {
      var emitted;
      open, emitted := EmitRow(open, compact[i], rows[i]);
      lines := lines + emitted;
    }
  }

  /** One row: close what it does not share, open its own folders, then list it. */
  method EmitRow(before: seq<string>, folders: seq<string>, row: Row) returns (open: seq<string>, lines: seq<Line>)
    ensures open == folders && lines == RowLines(before, folders, row)
  {
    var shared := 0;
    while shared < |before| && shared < |folders| && before[shared] == folders[shared]
      invariant shared <= |before| && shared <= |folders| && before[..shared] == folders[..shared]
    {
      shared := shared + 1;
    }
    SharedUnique(before, folders, shared);
    open, lines := before[..shared], [];
    for depth := shared to |folders|
      invariant open == folders[..depth]
      invariant lines == FolderLines(folders, shared)[..depth - shared]
    {
      open := open + [folders[depth]];
      assert open == folders[..depth + 1];
      lines := lines + [Folder("folder:" + Join(open), depth, folders[depth])];
    }
    assert open == folders;
    lines := lines + [RowLine(row.id, |folders|, row)];
  }

  lemma SharedUnique(a: seq<string>, b: seq<string>, n: nat)
    requires n <= |a| && n <= |b| && a[..n] == b[..n]
    requires n < |a| && n < |b| ==> a[n] != b[n]
    ensures n == Shared(a, b)
  {
    var m := Shared(a, b);
    assert forall i :: 0 <= i < n ==> a[i] == a[..n][i] && b[i] == b[..n][i];
    assert forall i :: 0 <= i < m ==> a[i] == a[..m][i] && b[i] == b[..m][i];
  }

  lemma {:induction false} InsertMembers(s: seq<Leaf>, leaf: Leaf)
    ensures multiset(Insert(s, leaf)) == multiset(s) + multiset{leaf}
  {
    if s != [] {
      assert s == s[..|s| - 1] + [s[|s| - 1]];
      if !AtMost(s[|s| - 1].path, leaf.path) { InsertMembers(s[..|s| - 1], leaf); }
    }
  }

  lemma AppendInOrder(s: seq<Leaf>, leaf: Leaf)
    requires InOrder(s) && forall i :: 0 <= i < |s| ==> AtMost(s[i].path, leaf.path)
    ensures InOrder(s + [leaf])
  {
  }

  /** A leaf at or after the last one goes to the end. */
  lemma LastInOrder(s: seq<Leaf>, leaf: Leaf)
    requires InOrder(s) && s != [] && AtMost(s[|s| - 1].path, leaf.path)
    ensures InOrder(s + [leaf])
  {
    hide AtMost;
    forall i | 0 <= i < |s| ensures AtMost(s[i].path, leaf.path) {
      if i < |s| - 1 { AtMostTransitive(s[i].path, s[|s| - 1].path, leaf.path); }
    }
    AppendInOrder(s, leaf);
  }

  /** What stands before the last leaf, and a leaf that goes there, stay before it. */
  lemma InsertedBefore(init: seq<Leaf>, leaf: Leaf, last: Leaf)
    requires AtMost(leaf.path, last.path) && forall i :: 0 <= i < |init| ==> AtMost(init[i].path, last.path)
    ensures forall i :: 0 <= i < |Insert(init, leaf)| ==> AtMost(Insert(init, leaf)[i].path, last.path)
  {
    hide AtMost;
    InsertMembers(init, leaf);
    var inserted := Insert(init, leaf);
    forall i | 0 <= i < |inserted| ensures AtMost(inserted[i].path, last.path) {
      assert inserted[i] in multiset(inserted);
    }
  }

  lemma {:induction false} InsertInOrder(s: seq<Leaf>, leaf: Leaf)
    requires InOrder(s)
    ensures InOrder(Insert(s, leaf))
  {
    if s != [] {
      var init, last := s[..|s| - 1], s[|s| - 1];
      if AtMost(last.path, leaf.path) {
        LastInOrder(s, leaf);
      } else {
        InsertInOrder(init, leaf);
        AtMostTotal(last.path, leaf.path);
        InsertedBefore(init, leaf, last);
        AppendInOrder(Insert(init, leaf), last);
      }
    }
  }

  lemma {:induction false} SortedInOrder(rows: seq<Row>)
    ensures InOrder(SortedLeaves(rows)) && |SortedLeaves(rows)| == |rows|
  {
    if rows != [] {
      var init, row := rows[..|rows| - 1], rows[|rows| - 1];
      SortedInOrder(init);
      InsertInOrder(SortedLeaves(init), Leaf(PathOf(row), row));
      InsertMembers(SortedLeaves(init), Leaf(PathOf(row), row));
      assert |multiset(SortedLeaves(rows))| == |multiset(SortedLeaves(init))| + 1;
    }
  }

  lemma {:induction false} SortedClean(rows: seq<Row>)
    ensures AllClean(PathsOf(SortedLeaves(rows)))
    ensures forall leaf :: leaf in SortedLeaves(rows) ==> leaf.path == PathOf(leaf.row) && leaf.row in rows
  {
    if rows != [] {
      var init, row := rows[..|rows| - 1], rows[|rows| - 1];
      var leaf, before := Leaf(PathOf(row), row), SortedLeaves(init);
      SortedClean(init);
      CutClean(if row.unmanaged then "found/" + row.host + "/" + row.name else row.path, "");
      InsertMembers(before, leaf);
      var leaves := SortedLeaves(rows);
      forall i | 0 <= i < |leaves| ensures Clean(leaves[i].path) && leaves[i].path == PathOf(leaves[i].row) && leaves[i].row in rows {
        assert leaves[i] in multiset(before) + multiset{leaf};
        assert leaves[i] in before || leaves[i] == leaf;
        if leaves[i] in before {
          var j :| 0 <= j < |before| && before[j] == leaves[i];
          assert Clean(PathsOf(before)[j]);
        }
      }
    }
  }
}
