// Which names a bundle's entries may have: those that spell Unicode text.
module BundleNames {
  import opened Wrappers
  import opened BundleCode
  import opened Bundle
  import opened BundleTree
  import opened BundleProjection

  /** Unicode scalar values: every code point but the surrogates. */
  predicate IsScalar(c: int) {
    0 <= c < 0xD800 || 0xE000 <= c <= 0x10FFFF
  }

  /** A scalar value in one to four bytes, six bits to each byte after the first. */
  function Spelled(c: int): (r: Bytes)
    requires IsScalar(c)
    ensures r != []
  {
    if c < 0x80 then [c]
    else if c < 0x800 then [0xC0 + c / 0x40, 0x80 + c % 0x40]
    else if c < 0x10000 then [0xE0 + c / 0x1000, 0x80 + c / 0x40 % 0x40, 0x80 + c % 0x40]
    else [0xF0 + c / 0x40000, 0x80 + c / 0x1000 % 0x40, 0x80 + c / 0x40 % 0x40, 0x80 + c % 0x40]
  }

  function Text(scalars: seq<int>): Bytes
    requires forall c :: c in scalars ==> IsScalar(c)
  {
    if scalars == [] then [] else Spelled(scalars[0]) + Text(scalars[1..])
  }

  /** A spelled scalar is taken off the front in one piece. */
  lemma ScalarIsUtf8(c: int, rest: Bytes)
    requires IsScalar(c)
    ensures IsUtf8(Spelled(c) + rest) <==> IsUtf8(rest)
  {
    var s := Spelled(c) + rest;
    if c < 0x80 {
      assert s[1..] == rest;
    } else if c < 0x800 {
      assert s[2..] == rest;
    } else if c < 0x10000 {
      assert s[3..] == rest;
    } else {
      assert s[4..] == rest;
    }
  }

  lemma {:induction false} TextIsUtf8(scalars: seq<int>)
    requires forall c :: c in scalars ==> IsScalar(c)
    ensures IsUtf8(Text(scalars))
  {
    if scalars != [] {
      TextIsUtf8(scalars[1..]);
      ScalarIsUtf8(scalars[0], Text(scalars[1..]));
    }
  }

  /** What a first byte says beyond `base`, and what each byte after it says. */
  function Over(b: Byte, base: int): int {
    b as int - base
  }

  /** What the first bytes spell, by how many they are. */
  function First(s: Bytes): int
    requires s != [] && IsUtf8(s)
  {
    if s[0] < 0x80 then s[0]
    else if s[0] < 0xE0 then Over(s[0], 0xC0) * 0x40 + Over(s[1], 0x80)
    else if s[0] < 0xF0 then Over(s[0], 0xE0) * 0x1000 + Over(s[1], 0x80) * 0x40 + Over(s[2], 0x80)
    else Over(s[0], 0xF0) * 0x40000 + Over(s[1], 0x80) * 0x1000 + Over(s[2], 0x80) * 0x40 + Over(s[3], 0x80)
  }

  ghost predicate FirstSpells(s: Bytes, n: nat)
    requires s != [] && IsUtf8(s)
  {
    IsScalar(First(s)) && n <= |s| && s[..n] == Spelled(First(s)) && IsUtf8(s[n..])
  }

  lemma ThreeAreSpelled(s: Bytes)
    requires s != [] && IsUtf8(s) && 0xE0 <= s[0] < 0xF0
    ensures FirstSpells(s, 3)
  {
    ThreeBytes(Over(s[0], 0xE0), Over(s[1], 0x80), Over(s[2], 0x80));
  }

  lemma FourAreSpelled(s: Bytes)
    requires s != [] && IsUtf8(s) && 0xF0 <= s[0]
    ensures FirstSpells(s, 4)
  {
    FourBytes(Over(s[0], 0xF0), Over(s[1], 0x80), Over(s[2], 0x80), Over(s[3], 0x80));
  }

  lemma FirstIsSpelled(s: Bytes) returns (n: nat)
    requires s != [] && IsUtf8(s)
    ensures n > 0 && FirstSpells(s, n)
  {
    if s[0] < 0x80 {
      n := 1;
    } else if s[0] < 0xE0 {
      TwoBytes(Over(s[0], 0xC0), Over(s[1], 0x80));
      n := 2;
    } else if s[0] < 0xF0 {
      ThreeAreSpelled(s);
      n := 3;
    } else {
      FourAreSpelled(s);
      n := 4;
    }
  }

  lemma TwoBytes(a: nat, b: nat)
    requires b < 0x40
    ensures (a * 0x40 + b) / 0x40 == a && (a * 0x40 + b) % 0x40 == b
  {
  }

  lemma ThreeBytes(a: nat, b: nat, d: nat)
    requires b < 0x40 && d < 0x40
    ensures var c := a * 0x1000 + b * 0x40 + d;
            c / 0x1000 == a && c / 0x40 % 0x40 == b && c % 0x40 == d
  {
    TwoBytes(a * 0x40 + b, d);
    TwoBytes(a, b);
  }

  lemma FourBytes(a: nat, b: nat, d: nat, e: nat)
    requires b < 0x40 && d < 0x40 && e < 0x40
    ensures var c := a * 0x40000 + b * 0x1000 + d * 0x40 + e;
            c / 0x40000 == a && c / 0x1000 % 0x40 == b && c / 0x40 % 0x40 == d && c % 0x40 == e
  {
    var c := a * 0x40000 + b * 0x1000 + d * 0x40 + e;
    TwoBytes(a * 0x1000 + b * 0x40 + d, e);
    ThreeBytes(a, b, d);
    assert c / 0x1000 == c / 0x40 / 0x40 && c / 0x40000 == c / 0x40 / 0x1000;
  }

  lemma {:induction false} Utf8IsText(s: Bytes) returns (scalars: seq<int>)
    requires IsUtf8(s)
    ensures (forall c :: c in scalars ==> IsScalar(c)) && Text(scalars) == s
    decreases |s|
  {
    if s == [] { return []; }
    var n := FirstIsSpelled(s);
    var rest := Utf8IsText(s[n..]);
    scalars := [First(s)] + rest;
    assert scalars[1..] == rest && s == s[..n] + s[n..];
  }

  /** A name is accepted exactly when it spells a sequence of Unicode scalar values. */
  lemma AcceptedNamesAreText(s: Bytes)
    ensures IsUtf8(s) <==> exists scalars :: (forall c :: c in scalars ==> IsScalar(c)) && Text(scalars) == s
  {
    if IsUtf8(s) {
      var scalars := Utf8IsText(s);
    }
    if scalars :| (forall c :: c in scalars ==> IsScalar(c)) && Text(scalars) == s {
      TextIsUtf8(scalars);
    }
  }

  // ----- which bundles are hashed -----

  /** What is at the path, if anything is, is a file or a directory, and the path is text. */
  ghost predicate Plain(node: Node, path: seq<Bytes>) {
    See(node, path).Some? ==>
      See(node, path).value != SeesOther && forall i :: 0 <= i < |path| ==> IsUtf8(path[i])
  }

  lemma SeesBelow(node: Node, e: Entry, path: seq<Bytes>)
    requires node.Dir? && OnDisk(node) && e in node.entries
    ensures See(node, [e.name] + path) == See(e.node, path)
  {
    FindIs(node.entries, e.name, e.node);
    assert ([e.name] + path)[1..] == path;
  }

  lemma {:induction false} HashableIsPlain(node: Node, path: seq<Bytes>)
    requires OnDisk(node) && Hashable(node)
    ensures Plain(node, path)
    decreases |path|
  {
    if path != [] && See(node, path).Some? {
      hide IsUtf8;
      var child := Find(node.entries, path[0]).value;
      FindIs(node.entries, path[0], child);
      var i :| 0 <= i < |node.entries| && node.entries[i] == Entry(path[0], child);
      assert EntryHashable(node.entries[i]);
      HashableIsPlain(child, path[1..]);
      assert path == [path[0]] + path[1..];
    }
  }

  lemma {:induction false} PlainIsHashable(node: Node)
    requires OnDisk(node) && forall path :: Plain(node, path)
    ensures Hashable(node)
    decreases node
  {
    assert Plain(node, []);
    if node.Dir? {
      hide IsUtf8;
      forall i | 0 <= i < |node.entries| ensures EntryHashable(node.entries[i]) {
        var e := node.entries[i];
        forall path ensures Plain(e.node, path) && (See(e.node, path).Some? ==> IsUtf8(e.name)) {
          SeesBelow(node, e, path);
          assert Plain(node, [e.name] + path);
          assert forall k :: 0 <= k < |path| ==> ([e.name] + path)[k + 1] == path[k];
          assert ([e.name] + path)[0] == e.name;
        }
        assert See(e.node, []).Some?;
        PlainIsHashable(e.node);
      }
    }
  }

  /** A bundle is hashed exactly when everything in it is a file or a directory under a path that is text. */
  lemma HashedIff(root: Node)
    requires OnDisk(root)
    ensures Hashable(root) <==> forall path :: Plain(root, path)
  {
    if Hashable(root) {
      forall path ensures Plain(root, path) { HashableIsPlain(root, path); }
    } else if forall path :: Plain(root, path) {
      PlainIsHashable(root);
    }
  }
}
