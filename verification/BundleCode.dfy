// src/agent_publish.rs, `hash_record`: how an entry of a bundle is framed in the bytes that are
// hashed, and why two lists of entries never share their bytes.
module BundleCode {

  type Byte = x: int | 0 <= x < 256
  type Bytes = seq<Byte>

  const SLASH: Byte := 47
  const DIRECTORY: Byte := 100
  const FILE: Byte := 102

  function Pow256(k: nat): nat {
    if k == 0 then 1 else 256 * Pow256(k - 1)
  }

  /** The low `k` bytes of `n`, most significant first. */
  function BigEndian(n: nat, k: nat): (r: Bytes)
    ensures |r| == k
  {
    if k == 0 then [] else BigEndian(n / 256, k - 1) + [n % 256]
  }

  lemma {:induction false} BigEndianInjective(n: nat, m: nat, k: nat)
    requires n < Pow256(k) && m < Pow256(k) && BigEndian(n, k) == BigEndian(m, k)
    ensures n == m
  {
    if k > 0 {
      var a, b := BigEndian(n / 256, k - 1) + [n % 256], BigEndian(m / 256, k - 1) + [m % 256];
      assert a[k - 1] == n % 256 && b[k - 1] == m % 256;
      assert a[..k - 1] == BigEndian(n / 256, k - 1) && b[..k - 1] == BigEndian(m / 256, k - 1);
      BigEndianInjective(n / 256, m / 256, k - 1);
    }
  }

  /** Eight bytes hold every 64-bit length. */
  lemma EightBytes()
    ensures Pow256(8) == 0x1_0000_0000_0000_0000
  {
    assert Pow256(4) == 0x1_0000_0000;
  }

  // ----- paths -----

  ghost predicate Clean(path: seq<Bytes>) {
    path != [] && forall i :: 0 <= i < |path| ==> path[i] != [] && SLASH !in path[i]
  }

  function PathBytes(path: seq<Bytes>): Bytes {
    if path == [] then []
    else if |path| == 1 then path[0]
    else PathBytes(path[..|path| - 1]) + [SLASH] + path[|path| - 1]
  }

  lemma SlashesEnd(a: Bytes, x: Bytes)
    requires SLASH !in x
    ensures var s := a + [SLASH] + x; s[|a|] == SLASH && forall k :: |a| < k < |s| ==> s[k] != SLASH
  {
    var s := a + [SLASH] + x;
    assert forall k :: |a| < k < |s| ==> s[k] == x[k - |a| - 1];
  }

  /** The last slash splits a path one way. */
  lemma LastSlash(a: Bytes, x: Bytes, b: Bytes, y: Bytes)
    requires SLASH !in x && SLASH !in y && a + [SLASH] + x == b + [SLASH] + y
    ensures a == b && x == y
  {
    var s := a + [SLASH] + x;
    SlashesEnd(a, x);
    SlashesEnd(b, y);
    assert s[..|a|] == a && s[..|b|] == b && s[|a| + 1..] == x && s[|b| + 1..] == y;
  }

  lemma NotOnePart(a: Bytes, x: Bytes, y: Bytes)
    requires SLASH !in y
    ensures a + [SLASH] + x != y
  {
    assert (a + [SLASH] + x)[|a|] == SLASH;
  }

  lemma {:induction false} PathBytesInjective(p: seq<Bytes>, q: seq<Bytes>)
    requires Clean(p) && Clean(q) && PathBytes(p) == PathBytes(q)
    ensures p == q
    decreases |p|
  {
    var pInit, pLast := p[..|p| - 1], p[|p| - 1];
    var qInit, qLast := q[..|q| - 1], q[|q| - 1];
    assert p == pInit + [pLast] && q == qInit + [qLast];
    if |p| == 1 {
      NotOnePart(PathBytes(qInit), qLast, p[0]);
    } else if |q| == 1 {
      NotOnePart(PathBytes(pInit), pLast, q[0]);
    } else {
      LastSlash(PathBytes(pInit), pLast, PathBytes(qInit), qLast);
      PathBytesInjective(pInit, qInit);
    }
  }

  // ----- records -----

  /** One entry as it is hashed. */
  datatype Record = Record(kind: Byte, path: seq<Bytes>, executable: bool, bytes: Bytes)

  ghost predicate Fits(r: Record) {
    Clean(r.path) && |PathBytes(r.path)| < Pow256(8) && |r.bytes| < Pow256(8)
  }

  /** A length and then that many bytes. */
  function Framed(bytes: Bytes): Bytes {
    BigEndian(|bytes|, 8) + bytes
  }

  function Flag(b: bool): Byte { if b then 1 else 0 }

  function Encode(r: Record): Bytes {
    [r.kind] + Framed(PathBytes(r.path)) + [Flag(r.executable)] + Framed(r.bytes)
  }

  /** Frames are read one way, whatever follows them. */
  lemma FramedPrefix(a: Bytes, restA: Bytes, b: Bytes, restB: Bytes)
    requires |a| < Pow256(8) && |b| < Pow256(8) && Framed(a) + restA == Framed(b) + restB
    ensures a == b && restA == restB
  {
    var s, t := Framed(a) + restA, Framed(b) + restB;
    assert s[..8] == BigEndian(|a|, 8) && t[..8] == BigEndian(|b|, 8);
    BigEndianInjective(|a|, |b|, 8);
    assert s[8..8 + |a|] == a && t[8..8 + |b|] == b;
    assert s[8 + |a|..] == restA && t[8 + |b|..] == restB;
  }

  lemma HeadPrefix(a: Byte, restA: Bytes, b: Byte, restB: Bytes)
    requires [a] + restA == [b] + restB
    ensures a == b && restA == restB
  {
    assert ([a] + restA)[0] == a && ([b] + restB)[0] == b;
    assert ([a] + restA)[1..] == restA && ([b] + restB)[1..] == restB;
  }

  lemma EncodeParts(r: Record, rest: Bytes)
    ensures Encode(r) + rest
            == [r.kind] + (Framed(PathBytes(r.path)) + ([Flag(r.executable)] + (Framed(r.bytes) + rest)))
  {
  }

  /** Records are read one way, whatever follows them. */
  lemma EncodePrefix(r: Record, restR: Bytes, s: Record, restS: Bytes)
    requires Fits(r) && Fits(s) && Encode(r) + restR == Encode(s) + restS
    ensures r == s && restR == restS
  {
    EncodeParts(r, restR);
    EncodeParts(s, restS);
    var flagR, flagS := [Flag(r.executable)] + (Framed(r.bytes) + restR), [Flag(s.executable)] + (Framed(s.bytes) + restS);
    HeadPrefix(r.kind, Framed(PathBytes(r.path)) + flagR, s.kind, Framed(PathBytes(s.path)) + flagS);
    FramedPrefix(PathBytes(r.path), flagR, PathBytes(s.path), flagS);
    HeadPrefix(Flag(r.executable), Framed(r.bytes) + restR, Flag(s.executable), Framed(s.bytes) + restS);
    FramedPrefix(r.bytes, restR, s.bytes, restS);
    PathBytesInjective(r.path, s.path);
  }

  function EncodeAll(records: seq<Record>): Bytes {
    if records == [] then [] else Encode(records[0]) + EncodeAll(records[1..])
  }

  lemma SomethingEncoded(records: seq<Record>)
    ensures records != [] ==> EncodeAll(records) != []
  {
    if records != [] { assert |Encode(records[0])| > 0; }
  }

  /** The bytes of a list of records determine the list. */
  lemma {:induction false} EncodeAllInjective(a: seq<Record>, b: seq<Record>)
    requires (forall r :: r in a ==> Fits(r)) && (forall r :: r in b ==> Fits(r))
    requires EncodeAll(a) == EncodeAll(b)
    ensures a == b
  {
    hide Encode, Fits;
    SomethingEncoded(a);
    SomethingEncoded(b);
    if a != [] && b != [] {
      EncodePrefix(a[0], EncodeAll(a[1..]), b[0], EncodeAll(b[1..]));
      EncodeAllInjective(a[1..], b[1..]);
      assert a == [a[0]] + a[1..] && b == [b[0]] + b[1..];
    }
  }

  lemma {:induction false} EncodeAllConcat(a: seq<Record>, b: seq<Record>)
    ensures EncodeAll(a + b) == EncodeAll(a) + EncodeAll(b)
  {
    if a == [] {
      assert a + b == b;
    } else {
      assert (a + b)[1..] == a[1..] + b;
      EncodeAllConcat(a[1..], b);
    }
  }
}
