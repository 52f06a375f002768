/**
 Change frames of any kind: a frame may revise any number of entries older than everything held.
 What is held afterwards is one block exactly when the revisions kept are the newest entries below it.
 */
module ConversationStrays {
  import opened Wrappers
  import opened Conversation
  import opened ConversationOrder
  import opened ConversationBlock
  import opened ConversationRun
  import opened ConversationLimits

  /** The places below the block that a frame revises. */
  ghost function Strays(items: seq<Entry>, hist: seq<Slot>, lo: nat): set<Slot>
    requires lo <= |hist|
  {
    Readable(Slots(items)) * Range(hist, 0, lo)
  }

  /** How many of them stay once the window is trimmed. */
  ghost function Kept(conv: Conv, items: seq<Entry>, hist: seq<Slot>, lo: nat, hi: nat, want: nat): nat
    requires lo <= hi <= |hist|
  {
    var strays, held := |Strays(items, hist, lo)|, |Range(hist, lo, hi)|;
    if conv.older.paged || want == 0 then strays
    else if want <= held then 0
    else if want - held < strays then want - held
    else strays
  }

  /** The frame revises the `n` newest readable entries below the block. */
  ghost predicate NewestBelow(items: seq<Entry>, hist: seq<Slot>, lo: nat, n: nat)
    requires lo <= |hist|
  {
    exists p: nat :: p <= lo && |Range(hist, p, lo)| == n && Range(hist, p, lo) <= Strays(items, hist, lo)
  }

  // ----- a sorted list: strays, then the block -----

  /** `all` is `d` strays and then the block; `c` entries are dropped from its front. */
  ghost predicate StraysFirst(all: seq<Entry>, hist: seq<Slot>, lo: nat, hi: nat, d: nat) {
    && Ordered(hist) && StrictlySorted(all) && lo <= hi <= |hist| && d <= |all|
    && Block(all[d..], hist, lo, hi) && Slots(all[..d]) <= Range(hist, 0, lo)
  }

  lemma SlotsConcat(a: seq<Entry>, b: seq<Entry>)
    ensures Slots(a + b) == Slots(a) + Slots(b)
  {
  }

  lemma RangesApart(hist: seq<Slot>, lo: nat, hi: nat)
    requires Ordered(hist) && lo <= hi <= |hist|
    ensures Range(hist, 0, lo) !! Range(hist, lo, hi)
  {
    forall s | s in Range(hist, 0, lo) ensures s !in Range(hist, lo, hi) { Apart(hist, lo, hi, s); }
  }

  lemma RangeSplit(hist: seq<Slot>, p: nat, lo: nat, hi: nat)
    requires p <= lo <= hi <= |hist|
    ensures Range(hist, p, hi) == Range(hist, p, lo) + Range(hist, lo, hi) && Range(hist, p, lo) <= Range(hist, 0, lo)
  {
    Joined(hist, p, lo, lo, hi);
  }

  lemma SliceSorted(all: seq<Entry>, c: nat, d: nat)
    requires StrictlySorted(all) && c <= d <= |all|
    ensures StrictlySorted(all[c..d]) && StrictlySorted(all[c..])
  {
  }

  lemma BlockSlots(entries: seq<Entry>, hist: seq<Slot>, lo: nat, hi: nat)
    requires Block(entries, hist, lo, hi)
    ensures lo <= hi <= |hist| && Slots(entries) == Range(hist, lo, hi)
  {
  }

  /** When all of the block is kept, so are the strays from `c` on. */
  lemma KeptSlots(all: seq<Entry>, hist: seq<Slot>, lo: nat, hi: nat, d: nat, c: nat)
    requires StraysFirst(all, hist, lo, hi, d) && c <= d
    ensures Slots(all[c..]) == Slots(all[c..d]) + Range(hist, lo, hi) && Slots(all[c..d]) <= Range(hist, 0, lo)
    ensures StrictlySorted(all[c..]) && |Slots(all[c..d])| == d - c
    ensures Slots(all[c..d]) <= Slots(all[..d])
  {
    hide Slots, Range, StrictlySorted, Ordered, Block;
    assert all[c..] == all[c..d] + all[d..] && all[..d] == all[..c] + all[c..d];
    BlockSlots(all[d..], hist, lo, hi);
    SlotsConcat(all[c..d], all[d..]);
    SlotsConcat(all[..c], all[c..d]);
    SliceSorted(all, c, d);
    SlotsCount(all[c..d]);
  }

  /** The newest `n` strays are the readable entries from `p` on, if those are among the strays and as many. */
  lemma NewestAre(all: seq<Entry>, hist: seq<Slot>, lo: nat, hi: nat, d: nat, c: nat, p: nat)
    requires StraysFirst(all, hist, lo, hi, d) && c <= d && p <= lo
    requires Range(hist, p, lo) <= Slots(all[..d]) && |Range(hist, p, lo)| == d - c
    ensures Slots(all[c..d]) == Range(hist, p, lo)
  {
    KeptSlots(all, hist, lo, hi, d, c);
    var kept := Slots(all[c..d]);
    forall s | s in Range(hist, p, lo) ensures s in kept {
      if s !in kept { OlderStray(all, hist, lo, hi, d, c, p, s); }
    }
    SubsetCount(Range(hist, p, lo), kept);
  }

  /** A dropped stray from `p` on would leave too few places for those kept. */
  lemma OlderStray(all: seq<Entry>, hist: seq<Slot>, lo: nat, hi: nat, d: nat, c: nat, p: nat, s: Slot)
    requires StraysFirst(all, hist, lo, hi, d) && c <= d && p <= lo
    requires Range(hist, p, lo) <= Slots(all[..d]) && s in Range(hist, p, lo) && s !in Slots(all[c..d])
    ensures |Slots(all[c..d])| < |Range(hist, p, lo)|
  {
    var kept := Slots(all[c..d]);
    var i := DroppedAt(all, d, c, s);
    var u :| p <= u < lo && hist[u] == s;
    forall x | x in kept ensures x in Range(hist, p, lo) {
      LaterStray(all, hist, lo, hi, d, c, i, u, x);
      assert p <= u;
    }
    SubsetCount(kept, Range(hist, p, lo) - {s});
  }

  lemma DroppedAt(all: seq<Entry>, d: nat, c: nat, s: Slot) returns (i: nat)
    requires c <= d <= |all| && s in Slots(all[..d]) && s !in Slots(all[c..d])
    ensures i < c && all[i].slot == s
  {
    assert all[..d] == all[..c] + all[c..d];
    SlotsConcat(all[..c], all[c..d]);
    i :| 0 <= i < c && all[..c][i].slot == s;
  }

  lemma LaterStray(all: seq<Entry>, hist: seq<Slot>, lo: nat, hi: nat, d: nat, c: nat, i: nat, u: nat, x: Slot)
    requires StraysFirst(all, hist, lo, hi, d) && i < c <= d && u < lo && hist[u] == all[i].slot
    requires x in Slots(all[c..d])
    ensures x in Range(hist, u, lo)
  {
    var k :| 0 <= k < d - c && all[c..d][k].slot == x;
    assert all[..d][c + k].slot == x && x in Slots(all[..d]);
    var v :| 0 <= v < lo && hist[v] == x && IsConversational(x);
    assert Before(all[i].slot, all[c + k].slot);
    BeforeIsEarlier(hist, u, v);
  }

  /** Part of the block kept, and nothing else: always a block. */
  lemma DropsStrays(all: seq<Entry>, hist: seq<Slot>, lo: nat, hi: nat, d: nat, c: nat) returns (a: nat)
    requires StraysFirst(all, hist, lo, hi, d) && d <= c <= |all|
    ensures a <= hi && Block(all[c..], hist, a, hi)
  {
    var top := all[d..];
    assert top[c - d..] == all[c..];
    if c < |all| {
      a := TrimmedBlock(top, hist, lo, hi, c - d);
    } else {
      a := hi;
      assert Range(hist, hi, hi) == {} && all[c..] == [];
    }
  }

  ghost predicate ReachesTo(entries: seq<Entry>, hist: seq<Slot>, hi: nat) {
    exists a: nat :: a <= hi && Block(entries, hist, a, hi)
  }

  /** The strays kept make one block with what is above them exactly when they are the newest below it. */
  lemma KeptIff(all: seq<Entry>, hist: seq<Slot>, lo: nat, hi: nat, d: nat, c: nat)
    requires StraysFirst(all, hist, lo, hi, d) && c <= d
    ensures ReachesTo(all[c..], hist, hi)
            <==> exists p: nat :: p <= lo && |Range(hist, p, lo)| == d - c && Range(hist, p, lo) <= Slots(all[..d])
  {
    KeptSlots(all, hist, lo, hi, d, c);
    if p: nat :| p <= lo && |Range(hist, p, lo)| == d - c && Range(hist, p, lo) <= Slots(all[..d]) {
      NewestAre(all, hist, lo, hi, d, c, p);
      RangeSplit(hist, p, lo, hi);
      assert Block(all[c..], hist, p, hi);
    }
    if a: nat :| a <= hi && Block(all[c..], hist, a, hi) {
      var p := KeptFrom(all, hist, lo, hi, d, c, a);
    }
  }

  lemma SameRest<T>(whole: set<T>, kept: set<T>, below: set<T>, top: set<T>)
    requires whole == kept + top && whole == below + top && kept !! top && below !! top
    ensures kept == below
  {
  }

  lemma NoRest<T>(whole: set<T>, kept: set<T>, top: set<T>)
    requires whole == kept + top && whole <= top && kept !! top
    ensures kept == {}
  {
  }

  lemma KeptFrom(all: seq<Entry>, hist: seq<Slot>, lo: nat, hi: nat, d: nat, c: nat, a: nat) returns (p: nat)
    requires StraysFirst(all, hist, lo, hi, d) && c <= d && a <= hi && Block(all[c..], hist, a, hi)
    ensures p <= lo && |Range(hist, p, lo)| == d - c && Range(hist, p, lo) <= Slots(all[..d])
  {
    hide StraysFirst, Slots, Range, StrictlySorted, Ordered, Block;
    OrderedHere(all, hist, lo, hi, d);
    KeptSlots(all, hist, lo, hi, d, c);
    BlockSlots(all[c..], hist, a, hi);
    RangesApart(hist, lo, hi);
    if a <= lo {
      p := a;
      RangeSplit(hist, a, lo, hi);
      SameRest(Slots(all[c..]), Slots(all[c..d]), Range(hist, a, lo), Range(hist, lo, hi));
    } else {
      p := lo;
      RangeSplit(hist, lo, a, hi);
      NothingIn(hist, lo);
      NoRest(Slots(all[c..]), Slots(all[c..d]), Range(hist, lo, hi));
    }
  }

  lemma OrderedHere(all: seq<Entry>, hist: seq<Slot>, lo: nat, hi: nat, d: nat)
    requires StraysFirst(all, hist, lo, hi, d)
    ensures Ordered(hist) && lo <= hi <= |hist| && d <= |all|
  {
  }

  lemma NothingIn(hist: seq<Slot>, lo: nat)
    requires lo <= |hist|
    ensures Range(hist, lo, lo) == {}
  {
  }

  // ----- change frames -----

  /** A frame with everything since the last one, whatever else of the history it revises. */
  ghost predicate ChangeOf(conv: Conv, frame: Frame, hist: seq<Slot>, hi: nat, hi': nat) {
    && !frame.replace && !OtherSession(Some(conv), frame) && Within(frame.items, hist) && hi <= hi' <= |hist|
    && Range(hist, hi, hi') <= Slots(frame.items) && Readable(Slots(frame.items)) <= Range(hist, 0, hi')
  }

  lemma StraysComeFirst(conv: Conv, frame: Frame, hist: seq<Slot>, lo: nat, hi: nat, hi': nat) returns (d: nat)
    requires Ordered(hist) && Block(conv.entries, hist, lo, hi) && ChangeOf(conv, frame, hist, hi, hi')
    ensures var all := Sort(Merge(FromEntries(conv.entries), frame.items));
            && StraysFirst(all, hist, lo, hi', d) && Slots(all[..d]) == Strays(frame.items, hist, lo)
            && d == |Strays(frame.items, hist, lo)| && |all| == d + |Range(hist, lo, hi')|
  {
    hide Sort, Merge, FromEntries, Slots, Range, Readable, StrictlySorted, Ordered, Block, Within;
    var all := Sort(Merge(FromEntries(conv.entries), frame.items));
    BlockSlots(conv.entries, hist, lo, hi);
    MergedSlots(conv.entries, frame.items, hist, lo, hi);
    CoversBlock(conv, frame, hist, lo, hi, hi');
    d := BlockComesLast(all, hist, lo, hi');
    BlockSlots(all[d..], hist, lo, hi');
    BlockCount(all[d..], hist, lo, hi');
    SliceSorted(all, 0, d);
    assert all[0..d] == all[..d];
    SlotsCount(all[..d]);
    assert all == all[..d] + all[d..];
    SlotsConcat(all[..d], all[d..]);
    RangesApart(hist, lo, hi');
    RangesApart(hist, lo, hi);
    BelowPart(Slots(all[..d]), Range(hist, lo, hi'), Range(hist, lo, hi), Readable(Slots(frame.items)), Range(hist, 0, lo));
  }

  /** The same set split twice: above and below a line, and held and revised. */
  lemma BelowPart<T>(front: set<T>, top: set<T>, held: set<T>, revised: set<T>, below: set<T>)
    requires front + top == held + revised && front <= below && below !! top && below !! held
    ensures front == revised * below
  {
    forall x ensures x in front <==> x in revised * below {
      assert x in front + top <==> x in held + revised;
    }
  }

  lemma CoversBlock(conv: Conv, frame: Frame, hist: seq<Slot>, lo: nat, hi: nat, hi': nat)
    requires Ordered(hist) && Block(conv.entries, hist, lo, hi) && ChangeOf(conv, frame, hist, hi, hi')
    ensures var slots := Slots(conv.entries) + Readable(Slots(frame.items));
            Range(hist, lo, hi') <= slots <= Range(hist, 0, hi')
  {
    RangeSplit(hist, lo, hi, hi');
    RangeSplit(hist, 0, lo, hi');
    forall s | s in Range(hist, hi, hi') ensures s in Readable(Slots(frame.items)) {
    }
  }

  /**
   For every change frame, however many entries below the block it revises: what is held afterwards
   is one block up to the frame's end exactly when the revisions kept are the newest readable
   entries below the block.
   */
  lemma ChangeIff(conv: Conv, frame: Frame, hist: seq<Slot>, lo: nat, hi: nat, hi': nat, want: nat)
    requires Ordered(hist) && Block(conv.entries, hist, lo, hi) && ChangeOf(conv, frame, hist, hi, hi')
    ensures ReachesTo(ApplyFrame(Some(conv), frame, want).entries, hist, hi')
            <==> NewestBelow(frame.items, hist, lo, Kept(conv, frame.items, hist, lo, hi', want))
  {
    hide ApplyFrame, Sort, Merge, FromEntries, StraysFirst, Slots, Range, Strays, Ordered, Block, Within;
    var all := Sort(Merge(FromEntries(conv.entries), frame.items));
    ChangedEntries(conv, frame, want);
    var d := StraysComeFirst(conv, frame, hist, lo, hi, hi');
    OrderedHere(all, hist, lo, hi', d);
    NothingIn(hist, lo);
    var c: nat := if !conv.older.paged && 0 < want < |all| then |all| - want else 0;
    assert Trimmed(conv.older, all, want) == all[c..];
    if c <= d {
      KeptIff(all, hist, lo, hi', d, c);
    } else {
      var a := DropsStrays(all, hist, lo, hi', d, c);
    }
  }

  /** With something held, a block up to the frame's end is the only block it can be. */
  lemma ReachesIff(conv: Conv, frame: Frame, hist: seq<Slot>, lo: nat, hi: nat, hi': nat, want: nat)
    requires Ordered(hist) && Block(conv.entries, hist, lo, hi) && ChangeOf(conv, frame, hist, hi, hi')
    requires conv.entries != []
    ensures SomeBlock(ApplyFrame(Some(conv), frame, want).entries, hist)
            <==> NewestBelow(frame.items, hist, lo, Kept(conv, frame.items, hist, lo, hi', want))
  {
    var r := ApplyFrame(Some(conv), frame, want).entries;
    ChangeIff(conv, frame, hist, lo, hi, hi', want);
    var last, m := NewestStays(conv, frame, hist, lo, hi, hi', want);
    hide ApplyFrame;
    if a: nat, b: nat :| Block(r, hist, a, b) {
      NewestEnds(r, hist, a, b, m, hi');
    }
  }

  /** The newest readable entry of the block is always kept. */
  lemma NewestStays(conv: Conv, frame: Frame, hist: seq<Slot>, lo: nat, hi: nat, hi': nat, want: nat)
    returns (last: Slot, m: nat)
    requires Ordered(hist) && Block(conv.entries, hist, lo, hi) && ChangeOf(conv, frame, hist, hi, hi')
    requires conv.entries != []
    ensures var r := ApplyFrame(Some(conv), frame, want).entries;
            && lo <= m < hi' && hist[m] == last && last in Slots(r) && Slots(r) <= Range(hist, 0, m + 1)
            && Range(hist, m + 1, hi') == {}
  {
    var all := Sort(Merge(FromEntries(conv.entries), frame.items));
    ChangedEntries(conv, frame, want);
    var d := StraysComeFirst(conv, frame, hist, lo, hi, hi');
    SomethingHeld(conv.entries, hist, lo, hi, hi');
    hide ApplyFrame, Sort, Merge, FromEntries, Slots, Range, Readable, Ordered, StrictlySorted;
    m := LastPlace(all, hist, lo, hi', d);
    last := hist[m];
    AllBefore(all, hist, lo, hi', d, m);
    LastKept(conv.older, all, want);
  }

  lemma SomethingHeld(entries: seq<Entry>, hist: seq<Slot>, lo: nat, hi: nat, hi': nat)
    requires Block(entries, hist, lo, hi) && entries != [] && hi <= hi' <= |hist|
    ensures |Range(hist, lo, hi')| > 0
  {
    assert entries[0].slot in Slots(entries);
    RangeSplit(hist, lo, hi, hi');
    SubsetCount({entries[0].slot}, Range(hist, lo, hi'));
  }

  lemma LastPlace(all: seq<Entry>, hist: seq<Slot>, lo: nat, hi: nat, d: nat) returns (m: nat)
    requires StraysFirst(all, hist, lo, hi, d) && d < |all|
    ensures lo <= m < hi && hist[m] == all[|all| - 1].slot
  {
    var top := all[d..];
    assert top[|top| - 1] == all[|all| - 1] && top[|top| - 1].slot in Slots(top);
    m :| lo <= m < hi && hist[m] == all[|all| - 1].slot;
  }

  lemma LastKept(older: Older, all: seq<Entry>, want: nat)
    requires all != []
    ensures var r := Trimmed(older, all, want); all[|all| - 1].slot in Slots(r) && Slots(r) <= Slots(all)
  {
    var r := Trimmed(older, all, want);
    assert r[|r| - 1] == all[|all| - 1] && forall x :: x in r ==> x in all;
  }

  lemma AllBefore(all: seq<Entry>, hist: seq<Slot>, lo: nat, hi: nat, d: nat, m: nat)
    requires StraysFirst(all, hist, lo, hi, d) && d < |all| && lo <= m < hi && hist[m] == all[|all| - 1].slot
    ensures Slots(all) <= Range(hist, 0, m + 1) && Range(hist, m + 1, hi) == {}
  {
    assert all == all[..d] + all[d..];
    SlotsConcat(all[..d], all[d..]);
    RangeSplit(hist, 0, lo, hi);
    forall s | s in Slots(all) ensures s in Range(hist, 0, m + 1) {
      var i :| 0 <= i < |all| && all[i].slot == s;
      var q :| 0 <= q < hi && hist[q] == s && IsConversational(s);
      BeforeIsEarlier(hist, q, m);
      assert Before(all[i].slot, all[|all| - 1].slot) || i == |all| - 1;
      BeforeIsEarlier(hist, m, q);
    }
    forall q | m < q < hi ensures !IsConversational(hist[q]) {
      if IsConversational(hist[q]) {
        assert hist[q] in Range(hist, lo, hi);
        InRange(hist, 0, m + 1, q);
      }
    }
  }

  lemma NewestEnds(r: seq<Entry>, hist: seq<Slot>, a: nat, b: nat, m: nat, hi: nat)
    requires Ordered(hist) && Block(r, hist, a, b) && m < hi <= |hist| && hist[m] in Slots(r)
    requires Slots(r) <= Range(hist, 0, m + 1) && Range(hist, m + 1, hi) == {}
    ensures a <= hi && Block(r, hist, a, hi)
  {
    InRange(hist, a, b, m);
    forall q | 0 <= q < |hist| ensures hist[q] in Range(hist, a, b) <==> hist[q] in Range(hist, a, hi) {
      InRange(hist, a, b, q);
      InRange(hist, a, hi, q);
      InRange(hist, 0, m + 1, q);
      InRange(hist, m + 1, hi, q);
    }
    assert Range(hist, a, b) == Range(hist, a, hi);
  }
}
