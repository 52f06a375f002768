// A reader for the bytes a bundle is hashed by, written from the format alone: it gives back the
// entries that were framed, and so all that is in the tree.
module BundleReader {
  import opened Wrappers
  import opened BundleCode
  import opened Bundle
  import opened BundleTree

  /** A number from its bytes, most significant first. */
  function Value(bytes: Bytes): nat {
    if bytes == [] then 0 else 256 * Value(bytes[..|bytes| - 1]) + bytes[|bytes| - 1]
  }

  /** The parts of a path between its slashes. */
  function Parts(bytes: Bytes): (r: seq<Bytes>)
    ensures r != []
  {
    if bytes == [] then [[]]
    else
      var rest := Parts(bytes[..|bytes| - 1]);
      if bytes[|bytes| - 1] == 47 then rest + [[]]
      else rest[..|rest| - 1] + [rest[|rest| - 1] + [bytes[|bytes| - 1]]]
  }

  /** A length in eight bytes, that many bytes, and what follows. */
  function ReadFrame(bytes: Bytes): (r: Option<(Bytes, Bytes)>)
    ensures r.Some? ==> |r.value.1| < |bytes|
  {
    if |bytes| < 8 || |bytes| - 8 < Value(bytes[..8]) then None
    else Some((bytes[8..8 + Value(bytes[..8])], bytes[8 + Value(bytes[..8])..]))
  }

  /** A kind, a path, whether it may be executed, and content. */
  function ReadRecord(bytes: Bytes): (r: Option<(Record, Bytes)>)
    ensures r.Some? ==> |r.value.1| < |bytes|
  {
    if bytes == [] then None
    else
      var path := ReadFrame(bytes[1..]);
      if path.None? || path.value.1 == [] || path.value.1[0] > 1 then None
      else
        var content := ReadFrame(path.value.1[1..]);
        if content.None? then None
        else Some((Record(bytes[0], Parts(path.value.0), path.value.1[0] == 1, content.value.0), content.value.1))
  }

  function ReadAll(bytes: Bytes): Option<seq<Record>>
    decreases |bytes|
  {
    if bytes == [] then Some([])
    else
      var first := ReadRecord(bytes);
      if first.None? then None
      else
        var rest := ReadAll(first.value.1);
        if rest.None? then None else Some([first.value.0] + rest.value)
  }

  lemma {:induction false} NumberIsRead(n: nat, k: nat)
    requires n < Pow256(k)
    ensures Value(BigEndian(n, k)) == n
  {
    if k > 0 {
      NumberIsRead(n / 256, k - 1);
      var bytes := BigEndian(n / 256, k - 1) + [n % 256];
      assert bytes[..|bytes| - 1] == BigEndian(n / 256, k - 1);
    }
  }

  /** More bytes without a slash lengthen the last part. */
  lemma {:induction false} PartsGrow(a: Bytes, x: Bytes)
    requires SLASH !in x
    ensures Parts(a + x) == Parts(a)[..|Parts(a)| - 1] + [Parts(a)[|Parts(a)| - 1] + x]
  {
    hide Parts;
    var head, tail := Parts(a)[..|Parts(a)| - 1], Parts(a)[|Parts(a)| - 1];
    assert Parts(a) == head + [tail];
    if x == [] {
      assert a + x == a && tail + x == tail;
    } else {
      var init, last := x[..|x| - 1], x[|x| - 1];
      PartsGrow(a, init);
      PartsOneMore(a + init, last, head, tail + init);
      assert a + init + [last] == a + x && tail + init + [last] == tail + x;
    }
  }

  lemma PartsOneMore(a: Bytes, b: Byte, head: seq<Bytes>, tail: Bytes)
    requires b != SLASH && Parts(a) == head + [tail]
    ensures Parts(a + [b]) == head + [tail + [b]]
  {
    assert (a + [b])[..|a + [b]| - 1] == a;
    assert (head + [tail])[..|head|] == head;
  }

  lemma PartsSlash(a: Bytes)
    ensures Parts([]) == [[]] && Parts(a + [SLASH]) == Parts(a) + [[]]
  {
    assert (a + [SLASH])[..|a + [SLASH]| - 1] == a;
  }

  lemma {:induction false} PathIsRead(path: seq<Bytes>)
    requires Clean(path)
    ensures Parts(PathBytes(path)) == path
    decreases |path|
  {
    hide Parts;
    var init, last := path[..|path| - 1], path[|path| - 1];
    assert path == init + [last] && [] + last == last;
    PartsSlash(PathBytes(init));
    if |path| == 1 {
      PartsGrow([], last);
    } else {
      PathIsRead(init);
      PartsGrow(PathBytes(init) + [SLASH], last);
      assert (init + [[]])[..|init|] == init;
    }
  }

  lemma FrameIsRead(bytes: Bytes, rest: Bytes)
    requires |bytes| < Pow256(8)
    ensures ReadFrame(Framed(bytes) + rest) == Some((bytes, rest))
  {
    NumberIsRead(|bytes|, 8);
    var all := Framed(bytes) + rest;
    assert all[..8] == BigEndian(|bytes|, 8);
    assert all[8..8 + |bytes|] == bytes && all[8 + |bytes|..] == rest;
  }

  lemma RecordIsRead(r: Record, rest: Bytes)
    requires Fits(r)
    ensures ReadRecord(Encode(r) + rest) == Some((r, rest))
  {
    EncodeParts(r, rest);
    var content := Framed(r.bytes) + rest;
    var flagged := [Flag(r.executable)] + content;
    var all := [r.kind] + (Framed(PathBytes(r.path)) + flagged);
    assert all[1..] == Framed(PathBytes(r.path)) + flagged && flagged[1..] == content;
    FrameIsRead(PathBytes(r.path), flagged);
    FrameIsRead(r.bytes, rest);
    PathIsRead(r.path);
    hide Framed, ReadFrame, Parts, Fits, Encode;
  }

  /** Every list of entries is read back from its bytes. */
  lemma {:induction false} RecordsAreRead(records: seq<Record>)
    requires forall r :: r in records ==> Fits(r)
    ensures ReadAll(EncodeAll(records)) == Some(records)
  {
    hide Encode, Fits, ReadRecord;
    SomethingEncoded(records);
    if records != [] {
      RecordIsRead(records[0], EncodeAll(records[1..]));
      RecordsAreRead(records[1..]);
      assert records == [records[0]] + records[1..];
    }
  }

  /** The letters of a name, as bytes. */
  ghost predicate SpelledOut(bytes: Bytes, text: string) {
    |bytes| == |text| && forall i :: 0 <= i < |text| ==> bytes[i] == text[i] as int
  }

  /**
   What a bundle is hashed by can be read: behind its name and a zero byte, the directories ('d') and
   files ('f') of the tree, each with its path, execute flag and content, and nothing else.
   */
  lemma StreamIsRead(root: Node) returns (records: seq<Record>)
    requires root.Dir? && OnDisk(root) && Addressable(root)
    ensures |Stream(root)| >= 28 && Stream(root)[27] == 0
    ensures SpelledOut(Stream(root)[..27], "st2.agent-publish-bundle.v1")
    ensures ReadAll(Stream(root)[28..]) == Some(records)
    ensures forall r :: r in records <==> r.path != [] && (match Lookup(root, r.path)
                                                           case None => false
                                                           case Some(Folder) => r == Record('d' as int, r.path, false, [])
                                                           case Some(Blob(bytes, executable)) =>
                                                             r == Record('f' as int, r.path, executable, bytes))
  {
    records := Records([], root);
    RecordsFit(root);
    RecordsAreRead(records);
    assert Stream(root)[28..] == EncodeAll(records) && Stream(root)[..27] == DOMAIN[..27];
    NameIsSpelled();
    forall r ensures r in records <==> r.path != [] && Holds([], root, r) {
      RecordsAre([], root, r);
      assert r.path[0..] == r.path;
    }
  }

  lemma NameIsSpelled()
    ensures SpelledOut(DOMAIN[..27], "st2.agent-publish-bundle.v1") && |DOMAIN| == 28 && DOMAIN[27] == 0
  {
  }

  /** A file may be executed when an execute bit of its owner, its group or others is set. */
  lemma ExecuteBits(mode: Mode)
    ensures Executable(mode) <==> mode.owner in {1, 3, 5, 7} || mode.group in {1, 3, 5, 7} || mode.others in {1, 3, 5, 7}
  {
  }
}
