/** Where a row is listed: its path, spelled out; the order of paths, index by index; and rows of one path as they came. */
module TreeOrder {
  import opened Paths
  import opened TreeLines
  import opened TreeTheorems

  // ----- paths -----

  lemma {:induction false} CutAtSlash(a: string, b: string, word: string)
    ensures Cut(a + "/" + b, word) == Cut(a, word) + Components(b)
    decreases |a|
  {
    var s := a + "/" + b;
    if a == "" {
      assert s == "/" + b && s[1..] == b;
    } else {
      assert s[1..] == a[1..] + "/" + b;
      if a[0] == '/' {
        CutAtSlash(a[1..], b, "");
        assert Word(word) + (Cut(a[1..], "") + Components(b)) == Word(word) + Cut(a[1..], "") + Components(b);
      } else {
        CutAtSlash(a[1..], b, word + [a[0]]);
      }
    }
  }

  /** A path's components are those between its slashes, empty ones left out. */
  lemma ComponentsAre(a: string, b: string, name: string)
    requires '/' !in name
    ensures Components(a + "/" + b) == Components(a) + Components(b)
    ensures Components(name) == if name == "" then [] else [name]
  {
    CutAtSlash(a, b, "");
    CutWord(name, "", "");
    assert name + "" == name && "" + name == name;
  }

  /** A managed row is listed under its own path; a found one under "found" and its host. */
  lemma ListedUnder(row: Row, path: seq<string>)
    ensures !row.unmanaged && Clean(path) && row.path == Join(path) ==> PathOf(row) == path
    ensures row.unmanaged && Clean([row.host, row.name]) ==> PathOf(row) == ["found", row.host, row.name]
  {
    if !row.unmanaged && Clean(path) && row.path == Join(path) { SplitJoin(path); }
    if row.unmanaged && Clean([row.host, row.name]) {
      assert row.host == [row.host, row.name][0] && row.name == [row.host, row.name][1];
      ComponentsAre("found", row.host + "/" + row.name, "found");
      ComponentsAre(row.host, row.name, row.host);
      ComponentsAre("", "", row.name);
      assert "found" + "/" + (row.host + "/" + row.name) == "found/" + row.host + "/" + row.name;
    }
  }

  // ----- order -----

  /** The first character in which two names differ is lower in `a`, or `a` ends there. */
  ghost predicate LessAt(a: string, b: string, k: nat) {
    k <= |a| && k < |b| && a[..k] == b[..k] && (k == |a| || a[k] < b[k])
  }

  lemma AgreeFirst<T>(a: seq<T>, b: seq<T>, k: nat)
    requires k <= |a| && k <= |b| && a[..k] == b[..k]
    ensures k > 0 ==> a[0] == b[0]
  {
    if k > 0 { assert a[0] == a[..k][0] && b[0] == b[..k][0]; }
  }

  lemma {:induction false} LessIff(a: string, b: string)
    ensures Less(a, b) <==> exists k: nat :: LessAt(a, b, k)
  {
    if a != "" && b != "" && a[0] == b[0] {
      LessIff(a[1..], b[1..]);
      if k: nat :| LessAt(a[1..], b[1..], k) {
        assert a[..k + 1] == [a[0]] + a[1..][..k] && b[..k + 1] == [b[0]] + b[1..][..k];
        assert LessAt(a, b, k + 1);
      }
      if k: nat :| LessAt(a, b, k) {
        assert k > 0;
        assert a[1..][..k - 1] == a[..k][1..] && b[1..][..k - 1] == b[..k][1..];
        assert LessAt(a[1..], b[1..], k - 1);
      }
    } else if a != "" && b != "" {
      assert a[0] < b[0] ==> LessAt(a, b, 0);
      forall k: nat | LessAt(a, b, k) ensures k == 0 { AgreeFirst(a, b, k); }
    } else {
      assert a == "" && b != "" ==> LessAt(a, b, 0);
    }
  }

  /** The paths agree before component `k`, where `a` ends or has the lower name. */
  ghost predicate AtMostAt(a: seq<string>, b: seq<string>, k: nat) {
    k <= |a| && k <= |b| && a[..k] == b[..k] && (k == |a| || (k < |b| && Less(a[k], b[k])))
  }

  lemma {:induction false} AtMostIff(a: seq<string>, b: seq<string>)
    ensures AtMost(a, b) <==> exists k: nat :: AtMostAt(a, b, k)
  {
    hide Less;
    if a != [] && b != [] && a[0] == b[0] {
      AtMostIff(a[1..], b[1..]);
      if k: nat :| AtMostAt(a[1..], b[1..], k) {
        assert a[..k + 1] == [a[0]] + a[1..][..k] && b[..k + 1] == [b[0]] + b[1..][..k];
        assert AtMostAt(a, b, k + 1);
      }
      if k: nat :| AtMostAt(a, b, k) {
        LessTotal(a[0], b[0]);
        assert k > 0;
        assert a[1..][..k - 1] == a[..k][1..] && b[1..][..k - 1] == b[..k][1..];
        assert AtMostAt(a[1..], b[1..], k - 1);
      }
    } else if a != [] && b != [] {
      assert Less(a[0], b[0]) ==> AtMostAt(a, b, 0);
      forall k: nat | AtMostAt(a, b, k) ensures k == 0 { AgreeFirst(a, b, k); }
    } else {
      assert a == [] ==> AtMostAt(a, b, 0);
    }
  }

  // ----- rows of one path -----

  function OfPath(leaves: seq<Leaf>, path: seq<string>): seq<Leaf> {
    if leaves == [] then []
    else
      var rest := OfPath(leaves[..|leaves| - 1], path);
      if leaves[|leaves| - 1].path == path then rest + [leaves[|leaves| - 1]] else rest
  }

  lemma OneMoreOfPath(leaves: seq<Leaf>, leaf: Leaf, path: seq<string>)
    ensures OfPath(leaves + [leaf], path) == OfPath(leaves, path) + if leaf.path == path then [leaf] else []
  {
    assert (leaves + [leaf])[..|leaves + [leaf]| - 1] == leaves;
  }

  lemma {:induction false} InsertIsStable(s: seq<Leaf>, leaf: Leaf, path: seq<string>)
    ensures OfPath(Insert(s, leaf), path) == OfPath(s, path) + if leaf.path == path then [leaf] else []
  {
    OneMoreOfPath(s, leaf, path);
    if s == [] {
      assert [] + [leaf] == [leaf];
    } else if !AtMost(s[|s| - 1].path, leaf.path) {
      var init, last := s[..|s| - 1], s[|s| - 1];
      InsertIsStable(init, leaf, path);
      OneMoreOfPath(Insert(init, leaf), last, path);
      if last.path == leaf.path { AtMostTotal(last.path, leaf.path); }
    }
  }

  /** Rows of one path stay in the order they came. */
  lemma {:induction false} SortIsStable(rows: seq<Row>, path: seq<string>)
    ensures OfPath(SortedLeaves(rows), path) == OfPath(LeavesOf(rows), path)
  {
    if rows != [] {
      var init, row := rows[..|rows| - 1], rows[|rows| - 1];
      SortIsStable(init, path);
      InsertIsStable(SortedLeaves(init), Leaf(PathOf(row), row), path);
      OneMoreOfPath(LeavesOf(init), Leaf(PathOf(row), row), path);
    }
  }

  // ----- keys and depths -----

  /** A row line carries its row's id. */
  ghost predicate Keyed(line: Line) {
    line.RowLine? ==> line.key == line.row.id
  }

  lemma {:induction false} RowsKeyed(paths: seq<seq<string>>, rows: seq<Row>, n: nat)
    requires |rows| == |paths| && n <= |paths|
    ensures forall line | line in LinesUpTo(paths, rows, n) :: Keyed(line)
  {
    if n > 0 {
      RowsKeyed(paths, rows, n - 1);
      RowKeyed(Open(paths, n - 1), Compact(paths, paths[n - 1]), rows[n - 1]);
      hide RowLines, Compact, Open;
    }
  }

  lemma RowKeyed(open: seq<string>, folders: seq<string>, row: Row)
    ensures forall line | line in RowLines(open, folders, row) :: Keyed(line)
  {
    var names := FolderLines(folders, Shared(open, folders));
    forall line | line in RowLines(open, folders, row) ensures Keyed(line) {
      assert line in names || line == RowLine(row.id, |folders|, row);
    }
  }

  lemma EveryRowKeyed(rows: seq<Row>)
    ensures forall line | line in AgentTreeLines(rows) :: Keyed(line)
  {
    var leaves := SortedLeaves(rows);
    RowsKeyed(PathsOf(leaves), RowsOf(leaves), |leaves|);
  }
}
