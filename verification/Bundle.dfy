// src/agent_publish.rs, `bundle_sha256`, `hash_bundle_dir`, `sorted_entries`: the bytes fed to the
// digest of a bundle directory.
module Bundle {
  import opened BundleCode

  type Octal = x: int | 0 <= x < 8

  /** A file mode by its octal digits: the last four are the permission bits. */
  datatype Mode = Mode(kind: nat, special: Octal, owner: Octal, group: Octal, others: Octal)

  /** A tree on disk; a directory lists its entries in whatever order the system gives. */
  datatype Node =
    | File(bytes: Bytes, mode: Mode)
    | Dir(entries: seq<Entry>)
    | Special

  datatype Entry = Entry(name: Bytes, node: Node)

  /** Some execute bit is set: the mode has a bit of 0o111. */
  predicate Executable(mode: Mode) {
    mode.owner % 2 == 1 || mode.group % 2 == 1 || mode.others % 2 == 1
  }

  /** Order of names, byte by byte. */
  predicate Less(a: Bytes, b: Bytes) {
    b != [] && (a == [] || a[0] < b[0] || (a[0] == b[0] && Less(a[1..], b[1..])))
  }

  function Insert(sorted: seq<Entry>, e: Entry): (r: seq<Entry>)
    ensures |r| == |sorted| + 1
    ensures forall x :: x in r <==> x in sorted || x == e
  {
    if sorted == [] then [e]
    else if Less(e.name, sorted[0].name) then [e] + sorted
    else
      assert sorted == [sorted[0]] + sorted[1..];
      [sorted[0]] + Insert(sorted[1..], e)
  }

  function Sorted(entries: seq<Entry>): (r: seq<Entry>)
    ensures |r| == |entries|
    ensures forall x :: x in r <==> x in entries
  {
    if entries == [] then []
    else
      assert entries == entries[..|entries| - 1] + [entries[|entries| - 1]];
      Insert(Sorted(entries[..|entries| - 1]), entries[|entries| - 1])
  }

  // ----- which bundles are refused -----

  predicate Tail(b: Byte) { 0x80 <= b <= 0xBF }

  /** Well-formed UTF-8. */
  predicate IsUtf8(s: Bytes)
    decreases |s|
  {
    if s == [] then true
    else if s[0] < 0x80 then IsUtf8(s[1..])
    else if 0xC2 <= s[0] <= 0xDF then |s| >= 2 && Tail(s[1]) && IsUtf8(s[2..])
    else if 0xE0 <= s[0] <= 0xEF then
      && |s| >= 3 && Tail(s[1]) && Tail(s[2]) && (s[0] == 0xE0 ==> s[1] >= 0xA0) && (s[0] == 0xED ==> s[1] < 0xA0)
      && IsUtf8(s[3..])
    else if 0xF0 <= s[0] <= 0xF4 then
      && |s| >= 4 && Tail(s[1]) && Tail(s[2]) && Tail(s[3])
      && (s[0] == 0xF0 ==> s[1] >= 0x90) && (s[0] == 0xF4 ==> s[1] < 0x90)
      && IsUtf8(s[4..])
    else false
  }

  /** Only files and directories, all with UTF-8 names. */
  predicate Hashable(node: Node)
    decreases node, 0
  {
    match node
    case File(_, _) => true
    case Special => false
    case Dir(entries) => forall i :: 0 <= i < |entries| ==> EntryHashable(entries[i])
  }

  predicate EntryHashable(e: Entry)
    decreases e.node, 1
  {
    IsUtf8(e.name) && Hashable(e.node)
  }

  // ----- what is hashed -----

  function Records(prefix: seq<Bytes>, node: Node): seq<Record>
    requires node.Dir?
    decreases node, 0
  {
    RecordsUpTo(prefix, node, Sorted(node.entries), |node.entries|)
  }

  function RecordsUpTo(prefix: seq<Bytes>, node: Node, sorted: seq<Entry>, n: nat): seq<Record>
    requires node.Dir? && n <= |sorted| && forall e :: e in sorted ==> e in node.entries
    decreases node, 0, n
  {
    if n == 0 then []
    else
      assert sorted[n - 1] in node.entries;
      RecordsUpTo(prefix, node, sorted, n - 1) + EntryRecords(prefix, sorted[n - 1])
  }

  function EntryRecords(prefix: seq<Bytes>, e: Entry): seq<Record>
    decreases e.node, 1
  {
    var path := prefix + [e.name];
    match e.node
    case File(bytes, mode) => [Record(FILE, path, Executable(mode), bytes)]
    case Dir(_) => [Record(DIRECTORY, path, false, [])] + Records(path, e.node)
    case Special => []
  }

  /** "st2.agent-publish-bundle.v1" and a zero byte. */
  const DOMAIN: Bytes := [115, 116, 50, 46, 97, 103, 101, 110, 116, 45, 112, 117, 98, 108, 105, 115, 104, 45,
                          98, 117, 110, 100, 108, 101, 46, 118, 49, 0]

  /** All that is fed to the digest of a bundle. */
  function Stream(root: Node): Bytes
    requires root.Dir?
  {
    DOMAIN + EncodeAll(Records([], root))
  }

  /** The running hasher; `fed` is all it has been given. */
  class Hasher {
    var fed: Bytes

    constructor ()
      ensures fed == []
    {
      fed := [];
    }

    method Update(bytes: Bytes)
      modifies this
      ensures fed == old(fed) + bytes
    {
      fed := fed + bytes;
    }

    method HashRecord(kind: Byte, path: seq<Bytes>, executable: bool, bytes: Bytes)
      modifies this
      ensures fed == old(fed) + Encode(Record(kind, path, executable, bytes))
    {
      Update([kind]);
      Update(BigEndian(|PathBytes(path)|, 8));
      Update(PathBytes(path));
      Update([Flag(executable)]);
      Update(BigEndian(|bytes|, 8));
      Update(bytes);
    }

    /** One directory, its entries in order of name; refused at the first entry that cannot be hashed. */
    method HashBundleDir(prefix: seq<Bytes>, node: Node) returns (ok: bool)
      requires node.Dir?
      modifies this
      ensures ok == Hashable(node)
      ensures ok ==> fed == old(fed) + EncodeAll(Records(prefix, node))
      decreases node, 0
    {
      hide Encode, EncodeAll, IsUtf8, Sorted, EntryRecords;
      var sorted := Sorted(node.entries);
      EncodeNone();
      for i := 0 to |sorted|
        invariant forall j :: 0 <= j < i ==> EntryHashable(sorted[j])
        invariant fed == old(fed) + EncodeAll(RecordsUpTo(prefix, node, sorted, i))
      {
        assert sorted[i] in node.entries;
        var hashed := HashEntry(prefix, sorted[i]);
        if !hashed { return false; }
        EncodeOneMore(old(fed), RecordsUpTo(prefix, node, sorted, i), EntryRecords(prefix, sorted[i]));
      }
      SortedHashable(node.entries);
      return true;
    }

    method HashEntry(prefix: seq<Bytes>, e: Entry) returns (ok: bool)
      modifies this
      ensures ok == EntryHashable(e)
      ensures ok ==> fed == old(fed) + EncodeAll(EntryRecords(prefix, e))
      decreases e.node, 1
    {
      if !IsUtf8(e.name) { return false; }
      hide Encode, EncodeAll, Records;
      var path := prefix + [e.name];
      match e.node
      case Dir(_) =>
        HashRecord(DIRECTORY, path, false, []);
        ok := HashBundleDir(path, e.node);
        EncodeFirst(old(fed), Record(DIRECTORY, path, false, []), Records(path, e.node));
      case File(bytes, mode) =>
        HashRecord(FILE, path, Executable(mode), bytes);
        EncodeOne(Record(FILE, path, Executable(mode), bytes));
        ok := true;
      case Special => ok := false;
    }
  }

  lemma EncodeNone()
    ensures EncodeAll([]) == []
  {
  }

  lemma EncodeOne(r: Record)
    ensures EncodeAll([r]) == Encode(r)
  {
    assert [r][1..] == [];
  }

  lemma EncodeFirst(fed: Bytes, r: Record, rest: seq<Record>)
    ensures fed + EncodeAll([r] + rest) == fed + Encode(r) + EncodeAll(rest)
  {
    assert ([r] + rest)[1..] == rest;
  }

  lemma EncodeOneMore(fed: Bytes, a: seq<Record>, b: seq<Record>)
    ensures fed + EncodeAll(a + b) == fed + EncodeAll(a) + EncodeAll(b)
  {
    EncodeAllConcat(a, b);
  }

  lemma SortedHashable(entries: seq<Entry>)
    requires forall i :: 0 <= i < |entries| ==> EntryHashable(Sorted(entries)[i])
    ensures forall i :: 0 <= i < |entries| ==> EntryHashable(entries[i])
  {
    forall i | 0 <= i < |entries| ensures EntryHashable(entries[i]) {
      assert entries[i] in Sorted(entries);
    }
  }

  /** The whole digest input, or a refusal. */
  method HashBundle(root: Node) returns (hasher: Hasher, ok: bool)
    requires root.Dir?
    ensures ok == Hashable(root)
    ensures fresh(hasher) && (ok ==> hasher.fed == Stream(root))
  {
    hasher := new Hasher();
    hasher.Update(DOMAIN);
    ok := hasher.HashBundleDir([], root);
  }
}
