// Two bundles are hashed alike exactly when they hold the same directories, files, bytes and
// execute flags, in whatever order their directories are listed.
module BundleTree {
  import opened Wrappers
  import opened BundleCode
  import opened Bundle

  datatype Item = Folder | Blob(bytes: Bytes, executable: bool)

  function Find(entries: seq<Entry>, name: Bytes): Option<Node> {
    if entries == [] then None
    else if entries[0].name == name then Some(entries[0].node)
    else Find(entries[1..], name)
  }

  /** What a reader of the tree finds at a path. */
  function Lookup(node: Node, path: seq<Bytes>): Option<Item>
    decreases |path|
  {
    if path == [] then
      match node
      case File(bytes, mode) => Some(Blob(bytes, Executable(mode)))
      case Dir(_) => Some(Folder)
      case Special => None
    else if node.Dir? && Find(node.entries, path[0]).Some? then Lookup(Find(node.entries, path[0]).value, path[1..])
    else None
  }

  /** A directory of a file system: names are not empty, have no slash, and differ. */
  predicate WellNamed(entries: seq<Entry>) {
    && (forall i :: 0 <= i < |entries| ==> entries[i].name != [] && SLASH !in entries[i].name)
    && (forall i, j :: 0 <= i < j < |entries| ==> entries[i].name != entries[j].name)
  }

  predicate OnDisk(node: Node)
    decreases node
  {
    node.Dir? ==> WellNamed(node.entries) && forall i :: 0 <= i < |node.entries| ==> OnDisk(node.entries[i].node)
  }

  lemma {:induction false} FindIs(entries: seq<Entry>, name: Bytes, node: Node)
    requires WellNamed(entries)
    ensures Find(entries, name) == Some(node) <==> Entry(name, node) in entries
  {
    if entries != [] {
      assert entries == [entries[0]] + entries[1..];
      FindIs(entries[1..], name, node);
    }
  }

  // ----- records are what is found -----

  function RecordAt(path: seq<Bytes>, item: Item): Record {
    match item
    case Folder => Record(DIRECTORY, path, false, [])
    case Blob(bytes, executable) => Record(FILE, path, executable, bytes)
  }

  /** `r` records what `node`, at the path `prefix`, holds at the rest of the record's path. */
  predicate Holds(prefix: seq<Bytes>, node: Node, r: Record) {
    prefix <= r.path
    && (var item := Lookup(node, r.path[|prefix|..]); item.Some? && r == RecordAt(r.path, item.value))
  }

  lemma HoldsSelf(prefix: seq<Bytes>, node: Node, r: Record)
    ensures Holds(prefix, node, r) && r.path == prefix
            <==> Lookup(node, []).Some? && r == RecordAt(prefix, Lookup(node, []).value)
  {
    if r.path == prefix { assert r.path[|prefix|..] == []; }
  }

  /** A directory holds what its entries hold. */
  lemma HoldsInside(prefix: seq<Bytes>, node: Node, r: Record)
    requires node.Dir? && WellNamed(node.entries)
    ensures Holds(prefix, node, r) && r.path != prefix
            <==> exists e :: e in node.entries && Holds(prefix + [e.name], e.node, r)
  {
    if Holds(prefix, node, r) && r.path != prefix {
      var rest := r.path[|prefix|..];
      assert rest != [];
      FindIs(node.entries, rest[0], Find(node.entries, rest[0]).value);
      var e := Entry(rest[0], Find(node.entries, rest[0]).value);
      assert r.path[|prefix| + 1..] == rest[1..] && prefix + [e.name] <= r.path;
    }
    if e :| e in node.entries && Holds(prefix + [e.name], e.node, r) {
      var rest := r.path[|prefix|..];
      assert r.path[|prefix| + 1..] == rest[1..] && rest[0] == (prefix + [e.name])[|prefix|];
      FindIs(node.entries, rest[0], e.node);
    }
  }

  lemma {:induction false} EntryRecordsAre(prefix: seq<Bytes>, e: Entry, r: Record)
    requires OnDisk(e.node)
    ensures r in EntryRecords(prefix, e) <==> Holds(prefix + [e.name], e.node, r)
    decreases e.node, 1
  {
    var path := prefix + [e.name];
    HoldsSelf(path, e.node, r);
    match e.node
    case Dir(_) => RecordsAre(path, e.node, r);
    case File(_, _) => assert Holds(path, e.node, r) ==> r.path[|path|..] == [];
    case Special =>
  }

  /** The records of a directory are exactly what a reader finds below it. */
  lemma {:induction false} RecordsAre(prefix: seq<Bytes>, node: Node, r: Record)
    requires node.Dir? && OnDisk(node)
    ensures r in Records(prefix, node) <==> Holds(prefix, node, r) && r.path != prefix
    decreases node, 0
  {
    var sorted := Sorted(node.entries);
    RecordsUpToAre(prefix, node, sorted, |sorted|, r);
    HoldsInside(prefix, node, r);
    assert (exists i :: 0 <= i < |sorted| && Holds(prefix + [sorted[i].name], sorted[i].node, r))
           <==> (exists e :: e in node.entries && Holds(prefix + [e.name], e.node, r));
  }

  lemma {:induction false} RecordsUpToAre(prefix: seq<Bytes>, node: Node, sorted: seq<Entry>, n: nat, r: Record)
    requires node.Dir? && OnDisk(node) && n <= |sorted| && forall e :: e in sorted ==> e in node.entries
    ensures r in RecordsUpTo(prefix, node, sorted, n)
            <==> exists i :: 0 <= i < n && Holds(prefix + [sorted[i].name], sorted[i].node, r)
    decreases node, 0, n
  {
    if n > 0 {
      RecordsUpToAre(prefix, node, sorted, n - 1, r);
      assert sorted[n - 1] in node.entries;
      EntryRecordsAre(prefix, sorted[n - 1], r);
    }
  }

  // ----- records come in order of path -----

  /** Order of paths: component by component, a directory before what it holds. */
  predicate Before(p: seq<Bytes>, q: seq<Bytes>) {
    q != [] && (p == [] || Less(p[0], q[0]) || (p[0] == q[0] && Before(p[1..], q[1..])))
  }

  lemma {:induction false} LessOrder(a: Bytes, b: Bytes, c: Bytes)
    ensures !Less(a, a)
    ensures Less(a, b) && Less(b, c) ==> Less(a, c)
    ensures a == b || Less(a, b) || Less(b, a)
  {
    if a != [] { LessOrder(a[1..], if b == [] then [] else b[1..], if c == [] then [] else c[1..]); }
    assert a != [] ==> a == [a[0]] + a[1..];
    assert b != [] ==> b == [b[0]] + b[1..];
  }

  lemma {:induction false} BeforeOrder(p: seq<Bytes>, q: seq<Bytes>, r: seq<Bytes>)
    ensures !Before(p, p)
    ensures Before(p, q) && Before(q, r) ==> Before(p, r)
  {
    if p != [] {
      BeforeOrder(p[1..], if q == [] then [] else q[1..], if r == [] then [] else r[1..]);
      LessOrder(p[0], if q == [] then [] else q[0], if r == [] then [] else r[0]);
    }
  }

  lemma {:induction false} BeforeBelow(prefix: seq<Bytes>, p: seq<Bytes>, q: seq<Bytes>)
    requires prefix <= p && prefix <= q
    ensures Before(p, q) <==> Before(p[|prefix|..], q[|prefix|..])
  {
    if prefix != [] {
      BeforeBelow(prefix[1..], p[1..], q[1..]);
      assert p[1..][|prefix| - 1..] == p[|prefix|..] && q[1..][|prefix| - 1..] == q[|prefix|..];
      LessOrder(p[0], [], []);
    } else {
      assert p[0..] == p && q[0..] == q;
    }
  }

  ghost predicate InOrder(records: seq<Record>) {
    forall i, j :: 0 <= i < j < |records| ==> Before(records[i].path, records[j].path)
  }

  ghost predicate NamesInOrder(entries: seq<Entry>) {
    forall i, j :: 0 <= i < j < |entries| ==> Less(entries[i].name, entries[j].name)
  }

  lemma {:induction false} InsertInOrder(sorted: seq<Entry>, e: Entry)
    requires NamesInOrder(sorted) && forall x :: x in sorted ==> x.name != e.name
    ensures NamesInOrder(Insert(sorted, e))
  {
    if sorted != [] {
      var first, rest := sorted[0], sorted[1..];
      LessOrder(e.name, first.name, []);
      forall i | 0 <= i < |rest| ensures Less(first.name, rest[i].name) { assert rest[i] == sorted[i + 1]; }
      if Less(e.name, first.name) {
        forall i | 0 <= i < |sorted| ensures Less(e.name, sorted[i].name) {
          LessOrder(e.name, first.name, sorted[i].name);
        }
      } else {
        InsertInOrder(rest, e);
        var inserted := Insert(rest, e);
        forall i | 0 <= i < |inserted| ensures Less(first.name, inserted[i].name) { assert inserted[i] in inserted; }
      }
    }
  }

  lemma {:induction false} SortedInOrder(entries: seq<Entry>)
    requires forall i, j :: 0 <= i < j < |entries| ==> entries[i].name != entries[j].name
    ensures NamesInOrder(Sorted(entries))
  {
    if entries != [] {
      var init, last := entries[..|entries| - 1], entries[|entries| - 1];
      SortedInOrder(init);
      forall x | x in Sorted(init) ensures x.name != last.name {
        var i :| 0 <= i < |init| && init[i] == x;
        assert entries[i] == x;
      }
      InsertInOrder(Sorted(init), last);
    }
  }

  lemma OrderConcat(a: seq<Record>, b: seq<Record>)
    requires InOrder(a) && InOrder(b)
    requires forall r, s :: r in a && s in b ==> Before(r.path, s.path)
    ensures InOrder(a + b)
  {
    var c := a + b;
    forall i, j | 0 <= i < j < |c| ensures Before(c[i].path, c[j].path) {
      if i < |a| <= j { assert a[i] in a && b[j - |a|] in b; }
    }
  }

  /** What two differently named entries hold is in the order of their names. */
  lemma EntriesInOrder(prefix: seq<Bytes>, d: Entry, e: Entry, r: Record, s: Record)
    requires Less(d.name, e.name) && Holds(prefix + [d.name], d.node, r) && Holds(prefix + [e.name], e.node, s)
    ensures Before(r.path, s.path)
  {
    var p, q := r.path[|prefix|..], s.path[|prefix|..];
    assert p[0] == (prefix + [d.name])[|prefix|] && q[0] == (prefix + [e.name])[|prefix|];
    assert prefix <= r.path && prefix <= s.path;
    BeforeBelow(prefix, r.path, s.path);
  }

  lemma {:induction false} RecordsUpToInOrder(prefix: seq<Bytes>, node: Node, sorted: seq<Entry>, n: nat)
    requires node.Dir? && OnDisk(node) && n <= |sorted| && NamesInOrder(sorted)
    requires forall e :: e in sorted ==> e in node.entries
    ensures InOrder(RecordsUpTo(prefix, node, sorted, n))
    decreases node, 0, n
  {
    if n > 0 {
      assert sorted[n - 1] in node.entries;
      RecordsUpToInOrder(prefix, node, sorted, n - 1);
      EntryRecordsInOrder(prefix, sorted[n - 1]);
      LastEntryAfter(prefix, node, sorted, n);
      OrderConcat(RecordsUpTo(prefix, node, sorted, n - 1), EntryRecords(prefix, sorted[n - 1]));
    }
  }

  lemma LastEntryAfter(prefix: seq<Bytes>, node: Node, sorted: seq<Entry>, n: nat)
    requires node.Dir? && OnDisk(node) && 0 < n <= |sorted| && NamesInOrder(sorted)
    requires forall e :: e in sorted ==> e in node.entries
    ensures forall r, s :: r in RecordsUpTo(prefix, node, sorted, n - 1) && s in EntryRecords(prefix, sorted[n - 1]) ==>
              Before(r.path, s.path)
  {
    assert sorted[n - 1] in node.entries;
    forall r, s | r in RecordsUpTo(prefix, node, sorted, n - 1) && s in EntryRecords(prefix, sorted[n - 1])
      ensures Before(r.path, s.path)
    {
      RecordsUpToAre(prefix, node, sorted, n - 1, r);
      EntryRecordsAre(prefix, sorted[n - 1], s);
      var i :| 0 <= i < n - 1 && Holds(prefix + [sorted[i].name], sorted[i].node, r);
      EntriesInOrder(prefix, sorted[i], sorted[n - 1], r, s);
    }
  }

  lemma {:induction false} EntryRecordsInOrder(prefix: seq<Bytes>, e: Entry)
    requires OnDisk(e.node)
    ensures InOrder(EntryRecords(prefix, e))
    decreases e.node, 1
  {
    if e.node.Dir? {
      var path := prefix + [e.name];
      RecordsInOrder(path, e.node);
      forall s | s in Records(path, e.node) ensures Before(path, s.path) {
        RecordsAre(path, e.node, s);
        BeforeBelow(path, path, s.path);
        assert path[|path|..] == [] && s.path[|path|..] != [];
      }
      OrderConcat([Record(DIRECTORY, path, false, [])], Records(path, e.node));
    }
  }

  lemma {:induction false} RecordsInOrder(prefix: seq<Bytes>, node: Node)
    requires node.Dir? && OnDisk(node)
    ensures InOrder(Records(prefix, node))
    decreases node, 0
  {
    SortedInOrder(node.entries);
    RecordsUpToInOrder(prefix, node, Sorted(node.entries), |node.entries|);
  }

  lemma {:induction false} SameMembersSameList(a: seq<Record>, b: seq<Record>)
    requires InOrder(a) && InOrder(b) && forall r :: r in a <==> r in b
    ensures a == b
  {
    assert |a| > 0 ==> a[0] in b;
    assert |b| > 0 ==> b[0] in a;
    if a != [] && b != [] {
      var i :| 0 <= i < |b| && b[i] == a[0];
      var j :| 0 <= j < |a| && a[j] == b[0];
      BeforeOrder(a[0].path, b[0].path, a[0].path);
      TailMembers(a);
      TailMembers(b);
      SameMembersSameList(a[1..], b[1..]);
    }
  }

  lemma TailMembers(a: seq<Record>)
    requires a != [] && InOrder(a)
    ensures forall r :: r in a[1..] <==> r in a && r != a[0]
  {
    assert a == [a[0]] + a[1..];
    BeforeOrder(a[0].path, a[0].path, a[0].path);
    forall i | 0 <= i < |a[1..]| ensures a[1..][i] != a[0] { assert a[1..][i] == a[i + 1]; }
  }

  // ----- the digest decides the tree -----

  /** Every length fits the eight bytes it is written in. */
  ghost predicate Addressable(root: Node)
    requires root.Dir?
  {
    forall r :: r in Records([], root) ==> |PathBytes(r.path)| < Pow256(8) && |r.bytes| < Pow256(8)
  }

  ghost predicate SameTree(a: Node, b: Node) {
    forall path :: Lookup(a, path) == Lookup(b, path)
  }

  /** Every path of an entry has clean components. */
  lemma {:induction false} FoundIsClean(node: Node, path: seq<Bytes>)
    requires OnDisk(node) && Lookup(node, path).Some?
    ensures forall i :: 0 <= i < |path| ==> path[i] != [] && SLASH !in path[i]
    decreases |path|
  {
    if path != [] {
      var child := Find(node.entries, path[0]).value;
      FindIs(node.entries, path[0], child);
      assert Entry(path[0], child) in node.entries;
      FoundIsClean(child, path[1..]);
      assert path == [path[0]] + path[1..];
    }
  }

  lemma RecordsFit(root: Node)
    requires root.Dir? && OnDisk(root) && Addressable(root)
    ensures forall r :: r in Records([], root) ==> Fits(r)
  {
    forall r | r in Records([], root) ensures Fits(r) {
      RecordsAre([], root, r);
      assert r.path[0..] == r.path;
      FoundIsClean(root, r.path);
    }
  }

  /**
   For every two bundles a file system can hold: the same bytes are hashed exactly when the same
   directories, files, contents and execute flags are found in both.
   */
  lemma StreamDecidesTree(a: Node, b: Node)
    requires a.Dir? && b.Dir? && OnDisk(a) && OnDisk(b) && Hashable(a) && Hashable(b)
    requires Addressable(a) && Addressable(b)
    ensures Stream(a) == Stream(b) <==> SameTree(a, b)
  {
    if Stream(a) == Stream(b) {
      SameStreamSameTree(a, b);
    }
    if SameTree(a, b) {
      SameTreeSameRecords(a, b);
    }
  }

  lemma SameStreamSameTree(a: Node, b: Node)
    requires a.Dir? && b.Dir? && OnDisk(a) && OnDisk(b) && Addressable(a) && Addressable(b) && Stream(a) == Stream(b)
    ensures SameTree(a, b)
  {
    var ra, rb := Records([], a), Records([], b);
    assert (DOMAIN + EncodeAll(ra))[|DOMAIN|..] == EncodeAll(ra) && (DOMAIN + EncodeAll(rb))[|DOMAIN|..] == EncodeAll(rb);
    RecordsFit(a);
    RecordsFit(b);
    EncodeAllInjective(ra, rb);
    forall path ensures Lookup(a, path) == Lookup(b, path) { SameRecordsSameItem(a, b, path); }
  }

  lemma FoundIsRecorded(root: Node, path: seq<Bytes>)
    requires root.Dir? && OnDisk(root) && path != [] && Lookup(root, path).Some?
    ensures RecordAt(path, Lookup(root, path).value) in Records([], root)
  {
    var r := RecordAt(path, Lookup(root, path).value);
    assert r.path[0..] == path;
    RecordsAre([], root, r);
  }

  lemma SameRecordsSameItem(a: Node, b: Node, path: seq<Bytes>)
    requires a.Dir? && b.Dir? && OnDisk(a) && OnDisk(b) && Records([], a) == Records([], b)
    ensures Lookup(a, path) == Lookup(b, path)
  {
    if path != [] {
      if Lookup(a, path).Some? { RecordedIsFound(a, b, path); }
      if Lookup(b, path).Some? { RecordedIsFound(b, a, path); }
    }
  }

  lemma RecordedIsFound(a: Node, b: Node, path: seq<Bytes>)
    requires a.Dir? && b.Dir? && OnDisk(a) && OnDisk(b) && Records([], a) == Records([], b)
    requires path != [] && Lookup(a, path).Some?
    ensures Lookup(b, path) == Lookup(a, path)
  {
    FoundIsRecorded(a, path);
    var r := RecordAt(path, Lookup(a, path).value);
    RecordsAre([], b, r);
    assert r.path[0..] == path;
  }

  lemma SameTreeSameRecords(a: Node, b: Node)
    requires a.Dir? && b.Dir? && OnDisk(a) && OnDisk(b) && SameTree(a, b)
    ensures Records([], a) == Records([], b)
  {
    forall r ensures r in Records([], a) <==> r in Records([], b) {
      RecordsAre([], a, r);
      RecordsAre([], b, r);
      assert Lookup(a, r.path[0..]) == Lookup(b, r.path[0..]);
    }
    RecordsInOrder([], a);
    RecordsInOrder([], b);
    SameMembersSameList(Records([], a), Records([], b));
  }

  // ----- listing order, at every depth -----

  /** The same tree, each directory of it listed in any order. */
  ghost predicate Rearranged(a: Node, b: Node)
    decreases a
  {
    if a.Dir? then
      && b.Dir?
      && (forall i :: 0 <= i < |a.entries| ==>
            var found := Find(b.entries, a.entries[i].name);
            found.Some? && Rearranged(a.entries[i].node, found.value))
      && (forall i :: 0 <= i < |b.entries| ==> Find(a.entries, b.entries[i].name).Some?)
    else a == b
  }

  lemma FoundAt(entries: seq<Entry>, name: Bytes) returns (i: nat)
    requires Find(entries, name).Some?
    ensures i < |entries| && entries[i] == Entry(name, Find(entries, name).value)
  {
    if entries[0].name == name {
      i := 0;
    } else {
      i := FoundAt(entries[1..], name);
      i := i + 1;
    }
  }

  lemma {:induction false} RearrangedLookup(a: Node, b: Node, path: seq<Bytes>)
    requires Rearranged(a, b)
    ensures Lookup(a, path) == Lookup(b, path)
    decreases |path|
  {
    if path != [] && a.Dir? {
      if Find(a.entries, path[0]).Some? {
        RearrangedChild(a, b, path[0]);
        RearrangedLookup(Find(a.entries, path[0]).value, Find(b.entries, path[0]).value, path[1..]);
      } else if Find(b.entries, path[0]).Some? {
        NoOtherChild(a, b, path[0]);
      }
    }
  }

  lemma RearrangedChild(a: Node, b: Node, name: Bytes)
    requires a.Dir? && Rearranged(a, b) && Find(a.entries, name).Some?
    ensures Find(b.entries, name).Some? && Rearranged(Find(a.entries, name).value, Find(b.entries, name).value)
  {
    hide Find;
    var i := FoundAt(a.entries, name);
    assert a.entries[i].name == name;
  }

  lemma NoOtherChild(a: Node, b: Node, name: Bytes)
    requires a.Dir? && Rearranged(a, b) && Find(b.entries, name).Some?
    ensures Find(a.entries, name).Some?
  {
    hide Find;
    var i := FoundAt(b.entries, name);
    assert b.entries[i].name == name;
  }

  /** The bytes hashed do not depend on the order in which any directory of the tree is listed. */
  lemma ListingOrder(a: Node, b: Node)
    requires a.Dir? && b.Dir? && OnDisk(a) && OnDisk(b) && Rearranged(a, b)
    ensures Stream(a) == Stream(b)
  {
    forall path ensures Lookup(a, path) == Lookup(b, path) { RearrangedLookup(a, b, path); }
    SameTreeSameRecords(a, b);
  }
}
