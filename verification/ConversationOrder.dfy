/** What the keyed merges and the stable sort of the conversation do to the set of entries held. */
module ConversationOrder {
  import opened Conversation

  ghost predicate IdsDistinct(m: seq<Entry>) {
    forall i, j :: 0 <= i < j < |m| ==> m[i].slot.id != m[j].slot.id
  }

  ghost predicate Sorted(s: seq<Entry>) {
    forall i, j :: 0 <= i < j < |s| ==> Compare(s[i].slot, s[j].slot) <= 0
  }

  ghost predicate StrictlySorted(s: seq<Entry>) {
    forall i, j :: 0 <= i < j < |s| ==> Before(s[i].slot, s[j].slot)
  }

  ghost function Slots(s: seq<Entry>): set<Slot> {
    set e | e in s :: e.slot
  }

  // ----- Map.set, Map.delete -----

  lemma {:induction false} PutMembers(m: seq<Entry>, e: Entry)
    requires IdsDistinct(m)
    ensures IdsDistinct(Put(m, e))
    ensures forall x :: x in Put(m, e) <==> x == e || (x in m && x.slot.id != e.slot.id)
  {
    if m != [] && m[0].slot.id != e.slot.id {
      PutMembers(m[1..], e);
      assert m == [m[0]] + m[1..];
    } else if m != [] {
      assert m == [m[0]] + m[1..];
    }
  }

  lemma {:induction false} DropMembers(m: seq<Entry>, id: string)
    requires IdsDistinct(m)
    ensures IdsDistinct(Drop(m, id))
    ensures forall x :: x in Drop(m, id) <==> x in m && x.slot.id != id
  {
    if m != [] {
      assert m == [m[0]] + m[1..];
      if m[0].slot.id != id { DropMembers(m[1..], id); }
    }
  }

  /** A list of distinct ids survives its trip through a Map unchanged. */
  lemma {:induction false} FromDistinct(m: seq<Entry>)
    requires IdsDistinct(m)
    ensures FromEntries(m) == m
  {
    if m != [] {
      var init := m[..|m| - 1];
      FromDistinct(init);
      PutFresh(init, m[|m| - 1]);
      assert m == init + [m[|m| - 1]];
    }
  }

  lemma {:induction false} PutFresh(m: seq<Entry>, e: Entry)
    requires !HasId(m, e.slot.id)
    ensures Put(m, e) == m + [e]
  {
    if m != [] {
      assert m == [m[0]] + m[1..];
      assert !HasId(m[1..], e.slot.id);
      PutFresh(m[1..], e);
    }
  }

  // ----- the stable sort -----

  lemma {:induction false} InsertMembers(s: seq<Entry>, e: Entry)
    ensures multiset(Insert(s, e)) == multiset(s) + multiset{e}
  {
    if s != [] && Compare(e.slot, s[|s| - 1].slot) < 0 {
      var init, last := s[..|s| - 1], s[|s| - 1];
      assert s == init + [last];
      InsertMembers(init, e);
    }
  }

  lemma {:induction false} InsertSorted(s: seq<Entry>, e: Entry)
    requires Sorted(s)
    ensures Sorted(Insert(s, e))
  {
    if s != [] && Compare(e.slot, s[|s| - 1].slot) < 0 {
      var init, last := s[..|s| - 1], s[|s| - 1];
      InsertSorted(init, e);
      forall i | 0 <= i < |Insert(init, e)| ensures Compare(Insert(init, e)[i].slot, last.slot) <= 0 {
        InsertMembers(init, e);
        assert Insert(init, e)[i] in multiset(init) + multiset{e};
      }
    } else if s != [] {
      forall i | 0 <= i < |s| ensures Compare(s[i].slot, e.slot) <= 0 {
        assert Compare(s[i].slot, s[|s| - 1].slot) <= 0;
      }
    }
  }

  lemma {:induction false} SortMembers(s: seq<Entry>)
    ensures multiset(Sort(s)) == multiset(s)
    ensures Sorted(Sort(s))
    ensures |Sort(s)| == |s|
    ensures forall x :: x in Sort(s) <==> x in s
  {
    if s != [] {
      var init, last := s[..|s| - 1], s[|s| - 1];
      assert s == init + [last];
      SortMembers(init);
      InsertMembers(Sort(init), last);
      InsertSorted(Sort(init), last);
    }
    assert |Sort(s)| == |multiset(Sort(s))|;
    forall x ensures x in Sort(s) <==> x in s {
      assert x in Sort(s) <==> x in multiset(Sort(s));
    }
  }

  /** Sorting keeps distinct ids distinct. */
  lemma SortDistinct(s: seq<Entry>)
    requires IdsDistinct(s)
    ensures IdsDistinct(Sort(s))
  {
    SortMembers(s);
    var t := Sort(s);
    forall i, j | 0 <= i < j < |t| ensures t[i].slot.id != t[j].slot.id {
      if t[i].slot.id == t[j].slot.id {
        assert t[i] in s && t[j] in s;
        assert t[i] == t[j];
        assert multiset(t)[t[i]] >= 2 by { TwiceCounts(t, i, j); }
        OnceCounts(s, t[i]);
      }
    }
  }

  lemma TwiceCounts(t: seq<Entry>, i: nat, j: nat)
    requires i < j < |t| && t[i] == t[j]
    ensures multiset(t)[t[i]] >= 2
  {
    assert t == t[..i + 1] + t[i + 1..];
    assert t[i] in t[..i + 1] && t[i + 1..][j - i - 1] == t[j];
    assert t[i] in multiset(t[..i + 1]) && t[j] in multiset(t[i + 1..]);
  }

  lemma {:induction false} OnceCounts(s: seq<Entry>, x: Entry)
    requires IdsDistinct(s)
    ensures multiset(s)[x] <= 1
  {
    if s != [] {
      var init, last := s[..|s| - 1], s[|s| - 1];
      assert s == init + [last];
      OnceCounts(init, x);
      if x == last {
        assert x !in init;
        assert x !in multiset(init);
      }
    }
  }

  // ----- a strictly ordered list is determined by its members -----

  ghost predicate Increasing(s: seq<Slot>) {
    forall i, j :: 0 <= i < j < |s| ==> Before(s[i], s[j])
  }

  lemma LastOfBoth(a: seq<Slot>, b: seq<Slot>)
    requires Increasing(a) && Increasing(b)
    requires a != [] && b != []
    requires a[|a| - 1] in b && b[|b| - 1] in a
    ensures a[|a| - 1] == b[|b| - 1]
  {
    var i :| 0 <= i < |b| && b[i] == a[|a| - 1];
    var j :| 0 <= j < |a| && a[j] == b[|b| - 1];
    assert Before(b[i], b[|b| - 1]) || i == |b| - 1;
    assert Before(a[j], a[|a| - 1]) || j == |a| - 1;
  }

  lemma WithoutLast(a: seq<Slot>, x: Slot)
    requires Increasing(a) && a != []
    ensures x in a[..|a| - 1] <==> x in a && x != a[|a| - 1]
  {
    if x in a[..|a| - 1] {
      var i :| 0 <= i < |a| - 1 && a[i] == x;
      assert Before(a[i], a[|a| - 1]);
    }
  }

  lemma {:induction false} SameMembersSameList(a: seq<Slot>, b: seq<Slot>)
    requires Increasing(a) && Increasing(b)
    requires forall x :: x in a <==> x in b
    ensures a == b
  {
    assert a == [] || a[0] in a;
    assert b == [] || b[0] in b;
    if a != [] && b != [] {
      assert a[|a| - 1] in a && b[|b| - 1] in b;
      LastOfBoth(a, b);
      var a', b' := a[..|a| - 1], b[..|b| - 1];
      forall x ensures x in a' <==> x in b' {
        WithoutLast(a, x);
        WithoutLast(b, x);
      }
      SameMembersSameList(a', b');
      assert a == a[..|a| - 1] + [a[|a| - 1]];
    }
  }

  function Places(s: seq<Entry>): (r: seq<Slot>)
    ensures |r| == |s| && forall i :: 0 <= i < |s| ==> r[i] == s[i].slot
  {
    seq(|s|, i requires 0 <= i < |s| => s[i].slot)
  }

  lemma SameEntriesSameList(a: seq<Entry>, b: seq<Entry>)
    requires StrictlySorted(a) && StrictlySorted(b)
    requires forall x :: x in a <==> x in b
    ensures a == b
  {
    var p, q := Places(a), Places(b);
    forall x ensures x in p <==> x in q {
      if x in p { var i :| 0 <= i < |p| && p[i] == x; assert a[i] in b; }
      if x in q { var i :| 0 <= i < |q| && q[i] == x; assert b[i] in a; }
    }
    SameMembersSameList(p, q);
    forall i | 0 <= i < |a| ensures a[i] == b[i] {
      assert a[i] in b;
      var j :| 0 <= j < |b| && b[j] == a[i];
      assert p[i] == q[i] == q[j];
      assert Before(b[i].slot, b[j].slot) || Before(b[j].slot, b[i].slot) || i == j;
    }
  }
}
