/** Blocks of a session's history: merging frames and pages keeps the held list one gap-free block. */
module ConversationBlock {
  import opened Conversation
  import opened ConversationOrder

  /** A session's timeline: strictly ordered places with distinct ids. */
  ghost predicate Ordered(hist: seq<Slot>) {
    && Increasing(hist)
    && forall i, j :: 0 <= i < j < |hist| ==> hist[i].id != hist[j].id
  }

  ghost function All(hist: seq<Slot>, lo: nat, hi: nat): set<Slot>
    requires lo <= hi <= |hist|
  {
    set i | lo <= i < hi :: hist[i]
  }

  /** The conversational places of `hist[lo..hi]`. */
  ghost function Range(hist: seq<Slot>, lo: nat, hi: nat): set<Slot>
    requires lo <= hi <= |hist|
  {
    set i | lo <= i < hi && IsConversational(hist[i]) :: hist[i]
  }

  ghost function Readable(s: set<Slot>): set<Slot> {
    set x | x in s && IsConversational(x)
  }

  /** The held entries are exactly the conversational entries of `hist[lo..hi]`, in order. */
  ghost predicate Block(entries: seq<Entry>, hist: seq<Slot>, lo: nat, hi: nat) {
    && lo <= hi <= |hist|
    && StrictlySorted(entries)
    && Slots(entries) == Range(hist, lo, hi)
  }

  function Conversational(hist: seq<Slot>): seq<Slot> {
    if hist == [] then []
    else
      var rest := Conversational(hist[..|hist| - 1]);
      if IsConversational(hist[|hist| - 1]) then rest + [hist[|hist| - 1]] else rest
  }

  ghost predicate Within(s: seq<Entry>, hist: seq<Slot>) {
    forall e :: e in s ==> e.slot in hist
  }

  ghost predicate AllReadable(s: seq<Entry>) {
    forall e :: e in s ==> IsConversational(e.slot)
  }

  lemma IdDetermines(hist: seq<Slot>, a: Slot, b: Slot)
    requires Ordered(hist) && a in hist && b in hist && a.id == b.id
    ensures a == b
  {
    var i :| 0 <= i < |hist| && hist[i] == a;
    var j :| 0 <= j < |hist| && hist[j] == b;
    assert hist[i].id != hist[j].id || i == j;
  }

  // ----- merging a frame and filling from a page -----

  lemma MergeItemSlots(m: seq<Entry>, e: Entry, hist: seq<Slot>)
    requires Ordered(hist) && IdsDistinct(m) && Within(m, hist) && AllReadable(m) && e.slot in hist
    ensures var r := MergeItem(m, e);
            IdsDistinct(r) && Within(r, hist) && AllReadable(r)
            && Slots(r) == Slots(m) + Readable({e.slot})
  {
    PutMembers(m, e);
    DropMembers(m, e.slot.id);
    var r := MergeItem(m, e);
    forall x | x in m && x.slot.id == e.slot.id ensures x.slot == e.slot {
      IdDetermines(hist, x.slot, e.slot);
    }
    forall x | x in m ensures x.slot in Slots(r) {
      assert x in r || (e in r && x.slot == e.slot);
    }
    if IsConversational(e.slot) { assert e in r; }
  }

  lemma {:induction false} MergeSlots(m: seq<Entry>, items: seq<Entry>, hist: seq<Slot>)
    requires Ordered(hist) && IdsDistinct(m) && Within(m, hist) && AllReadable(m) && Within(items, hist)
    ensures var r := Merge(m, items);
            IdsDistinct(r) && Within(r, hist) && AllReadable(r)
            && Slots(r) == Slots(m) + Readable(Slots(items))
  {
    if items != [] {
      var init, last := items[..|items| - 1], items[|items| - 1];
      assert items == init + [last];
      MergeSlots(m, init, hist);
      MergeItemSlots(Merge(m, init), last, hist);
      assert Slots(items) == Slots(init) + {last.slot};
    }
  }

  lemma FillItemSlots(m: seq<Entry>, e: Entry, hist: seq<Slot>)
    requires Ordered(hist) && IdsDistinct(m) && Within(m, hist) && AllReadable(m) && e.slot in hist
    ensures var r := FillItem(m, e);
            IdsDistinct(r) && Within(r, hist) && AllReadable(r)
            && Slots(r) == Slots(m) + Readable({e.slot})
  {
    if IsConversational(e.slot) {
      if HasId(m, e.slot.id) {
        var i :| 0 <= i < |m| && m[i].slot.id == e.slot.id;
        assert m[i] in m;
        IdDetermines(hist, m[i].slot, e.slot);
      } else {
        MergeItemSlots(m, e, hist);
      }
    }
  }

  lemma {:induction false} FillSlots(m: seq<Entry>, items: seq<Entry>, hist: seq<Slot>)
    requires Ordered(hist) && IdsDistinct(m) && Within(m, hist) && AllReadable(m) && Within(items, hist)
    ensures var r := Fill(m, items);
            IdsDistinct(r) && Within(r, hist) && AllReadable(r)
            && Slots(r) == Slots(m) + Readable(Slots(items))
  {
    if items != [] {
      var init, last := items[..|items| - 1], items[|items| - 1];
      assert items == init + [last];
      FillSlots(m, init, hist);
      FillItemSlots(Fill(m, init), last, hist);
      assert Slots(items) == Slots(init) + {last.slot};
    }
  }

  // ----- sorting places of one history -----

  lemma OrderedPair(hist: seq<Slot>, a: Slot, b: Slot)
    requires Ordered(hist) && a in hist && b in hist && a != b && Compare(a, b) <= 0
    ensures Before(a, b)
  {
    var i :| 0 <= i < |hist| && hist[i] == a;
    var j :| 0 <= j < |hist| && hist[j] == b;
    assert Before(hist[i], hist[j]) || Before(hist[j], hist[i]) || i == j;
  }

  lemma SortedBlock(m: seq<Entry>, hist: seq<Slot>)
    requires Ordered(hist) && IdsDistinct(m) && Within(m, hist)
    ensures StrictlySorted(Sort(m)) && Slots(Sort(m)) == Slots(m)
  {
    SortMembers(m);
    SortDistinct(m);
    var s := Sort(m);
    forall i, j | 0 <= i < j < |s| ensures Before(s[i].slot, s[j].slot) {
      assert s[i] in m && s[j] in m;
      OrderedPair(hist, s[i].slot, s[j].slot);
    }
  }

  lemma BlockFacts(entries: seq<Entry>, hist: seq<Slot>, lo: nat, hi: nat)
    requires Ordered(hist) && Block(entries, hist, lo, hi)
    ensures IdsDistinct(entries) && Within(entries, hist) && AllReadable(entries)
    ensures FromEntries(entries) == entries
  {
    forall e | e in entries ensures e.slot in hist && IsConversational(e.slot) {
      assert e.slot in Slots(entries);
    }
    forall i, j | 0 <= i < j < |entries| ensures entries[i].slot.id != entries[j].slot.id {
      assert entries[i] in entries && entries[j] in entries;
      assert Before(entries[i].slot, entries[j].slot);
      if entries[i].slot.id == entries[j].slot.id {
        IdDetermines(hist, entries[i].slot, entries[j].slot);
      }
    }
    FromDistinct(entries);
  }

  /** Where an item of a covered stretch stands. */
  lemma PlaceOf(hist: seq<Slot>, lo: nat, hi: nat, s: Slot) returns (p: nat)
    requires lo <= hi <= |hist| && s in All(hist, lo, hi)
    ensures lo <= p < hi && hist[p] == s
  {
    p :| lo <= p < hi && hist[p] == s;
  }

  lemma BeforeIsEarlier(hist: seq<Slot>, p: nat, q: nat)
    requires Ordered(hist) && p < |hist| && q < |hist|
    ensures Before(hist[p], hist[q]) <==> p < q
  {
    assert Before(hist[p], hist[q]) || Before(hist[q], hist[p]) || p == q;
  }

  lemma FirstIsLeast(items: seq<Entry>, e: Entry)
    requires e in items
    ensures Sort(items) != [] && Sort(items)[0] in items && Compare(Sort(items)[0].slot, e.slot) <= 0
  {
    SortMembers(items);
    var s := Sort(items);
    assert e in s;
    var i :| 0 <= i < |s| && s[i] == e;
    assert s[0] in s;
    assert Compare(s[0].slot, s[i].slot) <= 0;
  }

  /** The oldest item of a covered stretch is its first place. */
  lemma OldestIsFirst(items: seq<Entry>, hist: seq<Slot>, k: nat, b: nat)
    requires Ordered(hist) && k < b <= |hist| && Slots(items) == All(hist, k, b)
    ensures items != [] && Sort(items) != [] && Sort(items)[0].slot == hist[k]
  {
    assert hist[k] in Slots(items);
    var e :| e in items && e.slot == hist[k];
    FirstIsLeast(items, e);
    var first := Sort(items)[0].slot;
    assert first in Slots(items);
    var p := PlaceOf(hist, k, b, first);
    BeforeIsEarlier(hist, k, p);
  }

  lemma {:induction false} EntriesBeforeMembers(held: seq<Entry>, slot: Slot)
    ensures forall x :: x in EntriesBefore(held, slot) <==> x in held && Before(x.slot, slot)
    ensures IdsDistinct(held) ==> IdsDistinct(EntriesBefore(held, slot))
  {
    if held != [] {
      var init, last := held[..|held| - 1], held[|held| - 1];
      assert held == init + [last];
      EntriesBeforeMembers(init, slot);
      if IdsDistinct(held) {
        forall x | x in EntriesBefore(init, slot) ensures x.slot.id != last.slot.id {
          assert x in init;
        }
      }
    }
  }

  /** What is kept below a new newest page starting at `hist[k]`. */
  lemma KeptBelow(held: seq<Entry>, hist: seq<Slot>, lo: nat, hi: nat, k: nat)
    requires Ordered(hist) && Block(held, hist, lo, hi) && k < |hist| && k <= hi
    ensures var r := EntriesBefore(held, hist[k]);
            IdsDistinct(r) && Within(r, hist) && AllReadable(r)
            && Slots(r) == if lo <= k then Range(hist, lo, k) else {}
  {
    BlockFacts(held, hist, lo, hi);
    EntriesBeforeMembers(held, hist[k]);
    var r := EntriesBefore(held, hist[k]);
    forall p | lo <= p < hi ensures Before(hist[p], hist[k]) <==> p < k {
      BeforeIsEarlier(hist, p, k);
    }
    forall e | e in r ensures lo <= k && e.slot in Range(hist, lo, k) {
      assert e in held;
      assert e.slot in Slots(held);
    }
    if lo <= k {
      forall s | s in Range(hist, lo, k) ensures s in Slots(r) {
        assert s in Range(hist, lo, hi);
        assert s in Slots(held);
        var e :| e in held && e.slot == s;
        assert e in r;
      }
    }
  }

  // ----- putting stretches together -----

  lemma Joined(hist: seq<Slot>, a: nat, b: nat, c: nat, d: nat)
    requires a <= b <= |hist| && c <= d <= |hist| && c <= b && a <= d
    ensures var lo := if a <= c then a else c;
            var hi := if b <= d then d else b;
            Range(hist, a, b) + Range(hist, c, d) == Range(hist, lo, hi)
  {
  }

  lemma ReadableOfAll(hist: seq<Slot>, a: nat, b: nat)
    requires a <= b <= |hist|
    ensures Readable(All(hist, a, b)) == Range(hist, a, b)
  {
  }

  lemma CoveredWithin(items: seq<Entry>, hist: seq<Slot>, a: nat, b: nat)
    requires a <= b <= |hist| && Slots(items) == All(hist, a, b)
    ensures Within(items, hist)
  {
    forall e | e in items ensures e.slot in hist {
      assert e.slot in Slots(items);
    }
  }

  // ----- trimming -----

  /** Dropping the oldest held entries leaves a block that starts at the first one kept. */
  lemma TrimmedBlock(entries: seq<Entry>, hist: seq<Slot>, lo: nat, hi: nat, drop: nat) returns (p: nat)
    requires Ordered(hist) && Block(entries, hist, lo, hi) && drop < |entries|
    ensures lo <= p < hi && Block(entries[drop..], hist, p, hi)
  {
    var first := entries[drop];
    assert first.slot in Slots(entries);
    p :| lo <= p < hi && hist[p] == first.slot;
    var kept := entries[drop..];
    forall e | e in kept ensures e.slot in Range(hist, p, hi) {
      var i :| drop <= i < |entries| && entries[i] == e;
      assert e.slot in Slots(entries);
      var q :| lo <= q < hi && hist[q] == e.slot && IsConversational(hist[q]);
      BeforeIsEarlier(hist, q, p);
      assert Before(entries[drop].slot, entries[i].slot) || i == drop;
    }
    forall s | s in Range(hist, p, hi) ensures s in Slots(kept) {
      var q :| p <= q < hi && hist[q] == s;
      assert s in Range(hist, lo, hi);
      var i :| 0 <= i < |entries| && entries[i].slot == s;
      BeforeIsEarlier(hist, q, p);
      assert Before(entries[i].slot, entries[drop].slot) || drop <= i;
      assert entries[i] in kept || i < drop;
    }
  }

  // ----- entries below a block -----

  lemma SubsetCount<T>(a: set<T>, b: set<T>)
    requires a <= b
    ensures |a| <= |b| && (|a| == |b| ==> a == b)
  {
    assert b == a + (b - a);
    if |a| == |b| { assert |b - a| == 0; }
  }

  /** Entries of distinct places are as many as their places. */
  lemma {:induction false} SlotsCount(entries: seq<Entry>)
    requires StrictlySorted(entries)
    ensures |Slots(entries)| == |entries|
  {
    if entries == [] {
      assert Slots(entries) == {};
    } else {
      var init, last := entries[..|entries| - 1], entries[|entries| - 1];
      assert entries == init + [last];
      SlotsCount(init);
      assert last.slot !in Slots(init);
      assert Slots(entries) == Slots(init) + {last.slot};
    }
  }

  lemma BlockCount(entries: seq<Entry>, hist: seq<Slot>, lo: nat, hi: nat)
    requires Block(entries, hist, lo, hi)
    ensures |entries| == |Range(hist, lo, hi)|
  {
    SlotsCount(entries);
  }

  /** The first entry at `lo` or later, if it is the first of all. */
  lemma NothingBelow(all: seq<Entry>, hist: seq<Slot>, lo: nat, hi: nat)
    requires Ordered(hist) && StrictlySorted(all) && lo <= hi <= |hist| && all != []
    requires Slots(all) <= Range(hist, 0, hi) && all[0].slot !in Range(hist, 0, lo)
    ensures Slots(all) <= Range(hist, lo, hi)
  {
    assert all[0].slot in Slots(all);
    var p :| 0 <= p < hi && hist[p] == all[0].slot && IsConversational(hist[p]);
    forall s | s in Slots(all) ensures s in Range(hist, lo, hi) {
      var i :| 0 <= i < |all| && all[i].slot == s;
      var q :| 0 <= q < hi && hist[q] == s && IsConversational(hist[q]);
      BeforeIsEarlier(hist, p, q);
      assert Before(all[0].slot, all[i].slot) || i == 0;
      assert p <= q || q == p;
    }
  }

  /** A sorted list that holds the block `hist[lo..hi]` and places below it: the block comes last. */
  lemma {:induction false} BlockComesLast(all: seq<Entry>, hist: seq<Slot>, lo: nat, hi: nat) returns (d: nat)
    requires Ordered(hist) && StrictlySorted(all) && lo <= hi <= |hist|
    requires Range(hist, lo, hi) <= Slots(all) <= Range(hist, 0, hi)
    ensures d <= |all| && Block(all[d..], hist, lo, hi) && Slots(all[..d]) <= Range(hist, 0, lo)
  {
    if all != [] && all[0].slot in Range(hist, 0, lo) {
      var rest := all[1..];
      assert all == [all[0]] + rest;
      RestKeepsBlock(all, hist, lo, hi);
      d := BlockComesLast(rest, hist, lo, hi);
      assert all[1 + d..] == rest[d..] && all[..1 + d] == [all[0]] + rest[..d];
      d := 1 + d;
    } else {
      d := 0;
      if all != [] { NothingBelow(all, hist, lo, hi); }
      assert all[0..] == all && all[..0] == [];
    }
  }

  lemma RestKeepsBlock(all: seq<Entry>, hist: seq<Slot>, lo: nat, hi: nat)
    requires Ordered(hist) && StrictlySorted(all) && lo <= hi <= |hist| && all != []
    requires Range(hist, lo, hi) <= Slots(all) <= Range(hist, 0, hi) && all[0].slot in Range(hist, 0, lo)
    ensures Range(hist, lo, hi) <= Slots(all[1..]) <= Range(hist, 0, hi)
  {
    assert all == [all[0]] + all[1..];
    assert Slots(all) == {all[0].slot} + Slots(all[1..]);
    Apart(hist, lo, hi, all[0].slot);
  }

  lemma Apart(hist: seq<Slot>, lo: nat, hi: nat, s: Slot)
    requires Ordered(hist) && lo <= hi <= |hist| && s in Range(hist, 0, lo)
    ensures s !in Range(hist, lo, hi)
  {
    var p :| 0 <= p < lo && hist[p] == s;
    forall q | lo <= q < hi ensures hist[q] != s { BeforeIsEarlier(hist, p, q); }
  }

  /** Keeping as many of the newest entries as the block has, or fewer, keeps a block. */
  lemma TrimKeepsTop(all: seq<Entry>, hist: seq<Slot>, lo: nat, hi: nat, want: nat) returns (p: nat)
    requires Ordered(hist) && StrictlySorted(all) && lo <= hi <= |hist|
    requires Range(hist, lo, hi) <= Slots(all) <= Range(hist, 0, hi)
    requires 0 < want <= |Range(hist, lo, hi)|
    ensures want <= |all| && lo <= p <= hi && Block(all[|all| - want..], hist, p, hi)
    ensures |all| == want ==> Slots(all) == Range(hist, lo, hi)
  {
    var d := BlockComesLast(all, hist, lo, hi);
    var top := all[d..];
    BlockCount(top, hist, lo, hi);
    p := TrimmedBlock(top, hist, lo, hi, |top| - want);
    assert top[|top| - want..] == all[|all| - want..];
    if |all| == want { assert all[0..] == all; }
  }

  // ----- the block as a list -----

  lemma {:induction false} ConversationalList(hist: seq<Slot>)
    requires Increasing(hist)
    ensures Increasing(Conversational(hist))
    ensures forall x :: x in Conversational(hist) <==> x in hist && IsConversational(x)
  {
    if hist != [] {
      var init, last := hist[..|hist| - 1], hist[|hist| - 1];
      assert hist == init + [last];
      ConversationalList(init);
      forall i | 0 <= i < |Conversational(init)| ensures Before(Conversational(init)[i], last) {
        assert Conversational(init)[i] in init;
      }
    }
  }

  /** A block is the filtered stretch itself: same entries, same order, nothing skipped or repeated. */
  lemma BlockIsStretch(entries: seq<Entry>, hist: seq<Slot>, lo: nat, hi: nat)
    requires Ordered(hist) && Block(entries, hist, lo, hi)
    ensures Places(entries) == Conversational(hist[lo..hi])
  {
    var part := hist[lo..hi];
    ConversationalList(part);
    var a, b := Places(entries), Conversational(part);
    forall x ensures x in a <==> x in b {
      if x in a {
        var i :| 0 <= i < |a| && a[i] == x;
        assert entries[i].slot in Slots(entries);
        var p :| lo <= p < hi && hist[p] == x && IsConversational(x);
        assert part[p - lo] == x;
      }
      if x in b {
        var p :| 0 <= p < |part| && part[p] == x;
        assert hist[lo + p] in Range(hist, lo, hi);
        var e :| e in entries && e.slot == x;
        var i :| 0 <= i < |entries| && entries[i] == e;
        assert a[i] == x;
      }
    }
    SameMembersSameList(a, b);
  }
}
