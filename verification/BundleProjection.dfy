// src/agent_publish.rs, `bundle_projection_matches`: whether a bundle already on disk shows all a
// candidate would put there.
module BundleProjection {
  import opened Wrappers
  import opened BundleCode
  import opened Bundle
  import opened BundleTree

  /** The bits of 0o7777. */
  function Permissions(mode: Mode): Mode {
    mode.(kind := 0)
  }

  /** What is at a path, with the permission bits the comparison looks at. */
  datatype Sight = SeesFolder | SeesFile(bytes: Bytes, permissions: Mode) | SeesOther

  function See(node: Node, path: seq<Bytes>): Option<Sight>
    decreases |path|
  {
    if path == [] then
      match node
      case File(bytes, mode) => Some(SeesFile(bytes, Permissions(mode)))
      case Dir(_) => Some(SeesFolder)
      case Special => Some(SeesOther)
    else if node.Dir? && Find(node.entries, path[0]).Some? then See(Find(node.entries, path[0]).value, path[1..])
    else None
  }

  /** Everything in `source` is in `target`, file for file and directory for directory. */
  ghost predicate Shows(source: Node, target: Node) {
    forall path :: See(source, path).Some? ==>
                     See(source, path).value != SeesOther && See(target, path) == See(source, path)
  }

  predicate Matches(source: Node, target: Node)
    decreases source, 0
  {
    match source
    case Dir(entries) =>
      target.Dir? && forall i :: 0 <= i < |entries| ==> EntryMatches(entries[i], target)
    case File(bytes, mode) => target.File? && Permissions(target.mode) == Permissions(mode) && target.bytes == bytes
    case Special => false
  }

  predicate EntryMatches(e: Entry, target: Node)
    decreases e.node, 1
  {
    target.Dir? && Find(target.entries, e.name).Some? && Matches(e.node, Find(target.entries, e.name).value)
  }

  /** As the source walks the two trees, in listing order, stopping at the first difference. */
  method BundleProjectionMatches(source: Node, target: Node) returns (ok: bool)
    requires source.Dir? && target.Dir?
    ensures ok == Matches(source, target)
    decreases source
  {
    for i := 0 to |source.entries|
      invariant forall j :: 0 <= j < i ==> EntryMatches(source.entries[j], target)
    {
      var e := source.entries[i];
      var found := Find(target.entries, e.name);
      match e.node
      case Dir(_) =>
        if found.None? || !found.value.Dir? {
          assert !EntryMatches(e, target);
          return false;
        }
        var inner := BundleProjectionMatches(e.node, found.value);
        if !inner {
          assert !EntryMatches(e, target);
          return false;
        }
      case File(bytes, mode) =>
        if found.None? || !found.value.File? || Permissions(found.value.mode) != Permissions(mode) {
          assert !EntryMatches(e, target);
          return false;
        }
        if found.value.bytes != bytes {
          assert !EntryMatches(e, target);
          return false;
        }
      case Special =>
        assert !EntryMatches(e, target);
        return false;
    }
    return true;
  }

  /** The comparison holds exactly when the target shows all of the source. */
  lemma {:induction false} MatchesIffShows(source: Node, target: Node)
    requires OnDisk(source)
    ensures Matches(source, target) <==> Shows(source, target)
    decreases source
  {
    if Matches(source, target) {
      forall path | See(source, path).Some?
        ensures See(source, path).value != SeesOther && See(target, path) == See(source, path)
      {
        MatchShows(source, target, path);
      }
    }
    if Shows(source, target) {
      ShowsMatch(source, target);
    }
  }

  lemma {:induction false} MatchShows(source: Node, target: Node, path: seq<Bytes>)
    requires OnDisk(source) && Matches(source, target) && See(source, path).Some?
    ensures See(source, path).value != SeesOther && See(target, path) == See(source, path)
    decreases |path|
  {
    if path != [] {
      var child := Find(source.entries, path[0]).value;
      FindIs(source.entries, path[0], child);
      var i :| 0 <= i < |source.entries| && source.entries[i] == Entry(path[0], child);
      assert EntryMatches(source.entries[i], target);
      MatchShows(child, Find(target.entries, path[0]).value, path[1..]);
    }
  }

  lemma {:induction false} ShowsMatch(source: Node, target: Node)
    requires OnDisk(source) && Shows(source, target)
    ensures Matches(source, target)
    decreases source
  {
    assert See(target, []) == See(source, []);
    if source.Dir? {
      forall i | 0 <= i < |source.entries| ensures EntryMatches(source.entries[i], target) {
        var e := source.entries[i];
        FindIs(source.entries, e.name, e.node);
        assert See(source, [e.name]) == See(e.node, []) by { assert [e.name][1..] == []; }
        assert See(target, [e.name]).Some?;
        var found := Find(target.entries, e.name).value;
        ShowsBelow(source, target, e.name, e.node, found);
        ShowsMatch(e.node, found);
      }
    }
  }

  lemma ShowsBelow(source: Node, target: Node, name: Bytes, child: Node, found: Node)
    requires source.Dir? && target.Dir? && Shows(source, target)
    requires Find(source.entries, name) == Some(child) && Find(target.entries, name) == Some(found)
    ensures Shows(child, found)
  {
    forall path | See(child, path).Some?
      ensures See(child, path).value != SeesOther && See(found, path) == See(child, path)
    {
      var whole := [name] + path;
      assert whole[1..] == path;
      assert See(source, whole) == See(child, path) && See(target, whole) == See(found, path);
    }
  }

  /** The execute bits are among the permission bits. */
  lemma SamePermissions(a: Mode, b: Mode)
    requires Permissions(a) == Permissions(b)
    ensures Executable(a) == Executable(b)
  {
  }

  lemma {:induction false} SightDecidesItem(a: Node, b: Node, path: seq<Bytes>)
    requires See(a, path) == See(b, path)
    ensures Lookup(a, path) == Lookup(b, path)
  {
    SightGivesItem(a, path);
    SightGivesItem(b, path);
  }

  lemma {:induction false} SightGivesItem(node: Node, path: seq<Bytes>)
    ensures See(node, path).None? ==> Lookup(node, path).None?
    ensures See(node, path) == Some(SeesOther) ==> Lookup(node, path).None?
    ensures See(node, path) == Some(SeesFolder) ==> Lookup(node, path) == Some(Folder)
    ensures See(node, path).Some? && See(node, path).value.SeesFile? ==>
              Lookup(node, path) == Some(Blob(See(node, path).value.bytes, Executable(See(node, path).value.permissions)))
    decreases |path|
  {
    if path == [] {
      if node.File? { SamePermissions(node.mode, Permissions(node.mode)); }
    } else if node.Dir? && Find(node.entries, path[0]).Some? {
      SightGivesItem(Find(node.entries, path[0]).value, path[1..]);
    }
  }

  /** Two bundles that show all of each other are hashed alike. */
  lemma MutualMatchSameStream(a: Node, b: Node)
    requires a.Dir? && b.Dir? && OnDisk(a) && OnDisk(b) && Matches(a, b) && Matches(b, a)
    ensures Stream(a) == Stream(b)
  {
    MatchesIffShows(a, b);
    MatchesIffShows(b, a);
    forall path ensures Lookup(a, path) == Lookup(b, path) { SightDecidesItem(a, b, path); }
    SameTreeSameRecords(a, b);
  }
}
