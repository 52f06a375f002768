/**
 Trimming to the newest entries after every change frame gives the same list, with the latest
 revisions, as merging every frame since the snapshot and trimming once.

 All entries come from one ordered history: an id keeps its place and its type through every
 revision, so nothing is withdrawn.
 */
module ConversationTrim {
  import opened Wrappers
  import opened Conversation
  import opened ConversationOrder
  import opened ConversationBlock

  /** Entries a Map holds: one revision per id, conversational, each at its place in the history. */
  ghost predicate Held(m: seq<Entry>, hist: seq<Slot>) {
    Ordered(hist) && IdsDistinct(m) && Within(m, hist) && AllReadable(m)
  }

  function Newest(m: seq<Entry>, want: nat): seq<Entry> {
    SliceFromEnd(Sort(m), want)
  }

  lemma HeldMembers(m: seq<Entry>, e: Entry, hist: seq<Slot>)
    requires Held(m, hist) && e.slot in hist
    ensures Held(MergeItem(m, e), hist)
    ensures IsConversational(e.slot) ==>
              forall x :: x in MergeItem(m, e) <==> x == e || (x in m && x.slot != e.slot)
    ensures !IsConversational(e.slot) ==> forall x :: x in MergeItem(m, e) <==> x in m
  {
    MergeItemSlots(m, e, hist);
    PutMembers(m, e);
    DropMembers(m, e.slot.id);
    forall x | x in m ensures x.slot.id == e.slot.id <==> x.slot == e.slot {
      if x.slot.id == e.slot.id { IdDetermines(hist, x.slot, e.slot); }
    }
  }

  /** Sorting what is held is determined by what is held. */
  lemma SortIs(m: seq<Entry>, s: seq<Entry>, hist: seq<Slot>)
    requires Held(m, hist) && StrictlySorted(s)
    requires forall x :: x in s <==> x in m
    ensures Sort(m) == s
  {
    SortedBlock(m, hist);
    SortMembers(m);
    SameEntriesSameList(Sort(m), s);
  }

  lemma PartHeld(m: seq<Entry>, s: seq<Entry>, hist: seq<Slot>)
    requires Held(m, hist) && StrictlySorted(s) && forall x :: x in s ==> x in m
    ensures Held(s, hist) && Sort(s) == s
  {
    forall i, j | 0 <= i < j < |s| ensures s[i].slot.id != s[j].slot.id {
      assert s[i] in m && s[j] in m;
      assert Before(s[i].slot, s[j].slot);
      if s[i].slot.id == s[j].slot.id { IdDetermines(hist, s[i].slot, s[j].slot); }
    }
    SortIs(s, s, hist);
  }

  lemma Append(a: seq<Entry>, b: seq<Entry>)
    requires StrictlySorted(a) && StrictlySorted(b)
    requires forall x, y :: x in a && y in b ==> Before(x.slot, y.slot)
    ensures StrictlySorted(a + b)
  {
    var s := a + b;
    forall i, j | 0 <= i < j < |s| ensures Before(s[i].slot, s[j].slot) {
      if i < |a| <= j { assert s[i] in a && s[j] in b; }
    }
  }

  /** A revision or an arrival below the newest entries leaves the newest entries alone. */
  lemma BelowTop(low: seq<Entry>, top: seq<Entry>, e: Entry, hist: seq<Slot>)
    requires Held(low + top, hist) && StrictlySorted(low + top) && e.slot in hist
    requires IsConversational(e.slot) && top != [] && Before(e.slot, top[0].slot)
    ensures exists x :: Sort(MergeItem(low + top, e)) == x + top
    ensures Sort(MergeItem(top, e)) == [e] + top
  {
    var s := low + top;
    SplitFacts(low, top, hist);
    HeldMembers(s, e, hist);
    HeldMembers(low, e, hist);
    HeldMembers(top, e, hist);
    forall y | y in top ensures Before(e.slot, y.slot) {
      var j :| 0 <= j < |top| && top[j] == y;
      assert Before(top[0].slot, top[j].slot) || j == 0;
    }
    Append([e], top);
    SortIs(MergeItem(top, e), [e] + top, hist);
    var x := Sort(MergeItem(low, e));
    SortedBlock(MergeItem(low, e), hist);
    SortMembers(MergeItem(low, e));
    Append(x, top);
    SortIs(MergeItem(s, e), x + top, hist);
  }

  lemma SplitFacts(low: seq<Entry>, top: seq<Entry>, hist: seq<Slot>)
    requires Held(low + top, hist) && StrictlySorted(low + top)
    ensures Held(low, hist) && Held(top, hist) && StrictlySorted(low) && StrictlySorted(top)
    ensures Sort(top) == top
    ensures forall x, y :: x in low && y in top ==> Before(x.slot, y.slot)
  {
    var s := low + top;
    forall i, j | 0 <= i < j < |low| ensures Before(low[i].slot, low[j].slot) {
      assert s[i] == low[i] && s[j] == low[j];
    }
    forall i, j | 0 <= i < j < |top| ensures Before(top[i].slot, top[j].slot) {
      assert s[|low| + i] == top[i] && s[|low| + j] == top[j];
    }
    forall x, y | x in low && y in top ensures Before(x.slot, y.slot) {
      var i :| 0 <= i < |low| && low[i] == x;
      var j :| 0 <= j < |top| && top[j] == y;
      assert s[i] == x && s[|low| + j] == y;
    }
    PartHeld(s, low, hist);
    PartHeld(s, top, hist);
  }

  /** Anything else happens among the newest entries, above everything trimmed. */
  lemma WithinTop(low: seq<Entry>, top: seq<Entry>, e: Entry, hist: seq<Slot>)
    requires Held(low + top, hist) && StrictlySorted(low + top) && e.slot in hist
    requires top != [] && (IsConversational(e.slot) ==> !Before(e.slot, top[0].slot))
    ensures Sort(MergeItem(low + top, e)) == low + Sort(MergeItem(top, e))
    ensures |Sort(MergeItem(top, e))| >= |top|
  {
    var s := low + top;
    SplitFacts(low, top, hist);
    HeldMembers(s, e, hist);
    HeldMembers(top, e, hist);
    var v := Sort(MergeItem(top, e));
    SortedBlock(MergeItem(top, e), hist);
    SortMembers(MergeItem(top, e));
    if IsConversational(e.slot) { AboveLow(low, top, e, hist); }
    Append(low, v);
    SortIs(MergeItem(s, e), low + v, hist);
    MergeItemGrows(top, e, hist);
  }

  lemma AboveLow(low: seq<Entry>, top: seq<Entry>, e: Entry, hist: seq<Slot>)
    requires Held(low + top, hist) && StrictlySorted(low + top) && e.slot in hist
    requires top != [] && !Before(e.slot, top[0].slot)
    ensures forall x :: x in low ==> Before(x.slot, e.slot)
  {
    SplitFacts(low, top, hist);
    forall x | x in low ensures Before(x.slot, e.slot) {
      assert top[0] in top;
      assert Before(x.slot, top[0].slot);
    }
  }

  lemma MergeItemGrows(m: seq<Entry>, e: Entry, hist: seq<Slot>)
    requires Held(m, hist) && e.slot in hist
    ensures |MergeItem(m, e)| >= |m|
  {
    if IsConversational(e.slot) {
      PutLength(m, e);
    } else {
      forall i | 0 <= i < |m| ensures m[i].slot.id != e.slot.id {
        assert m[i] in m;
        if m[i].slot.id == e.slot.id { IdDetermines(hist, m[i].slot, e.slot); }
      }
      DropAbsent(m, e.slot.id);
    }
  }

  lemma {:induction false} PutLength(m: seq<Entry>, e: Entry)
    ensures |Put(m, e)| == if HasId(m, e.slot.id) then |m| else |m| + 1
  {
    if m != [] && m[0].slot.id != e.slot.id {
      PutLength(m[1..], e);
      assert HasId(m, e.slot.id) <==> HasId(m[1..], e.slot.id) by {
        if HasId(m, e.slot.id) {
          var i :| 0 <= i < |m| && m[i].slot.id == e.slot.id;
          assert m[1..][i - 1] == m[i];
        }
      }
    }
  }

  lemma {:induction false} DropAbsent(m: seq<Entry>, id: string)
    requires forall i :: 0 <= i < |m| ==> m[i].slot.id != id
    ensures Drop(m, id) == m
  {
    if m != [] {
      DropAbsent(m[1..], id);
      assert m == [m[0]] + m[1..];
    }
  }

  lemma SliceOfJoin(x: seq<Entry>, top: seq<Entry>)
    requires top != []
    ensures SliceFromEnd(x + top, |top|) == top
  {
    assert (x + top)[|x|..] == top;
  }

  lemma SliceOfLonger(x: seq<Entry>, v: seq<Entry>, want: nat)
    requires want > 0 && |v| >= want
    ensures SliceFromEnd(x + v, want) == SliceFromEnd(v, want)
  {
    assert (x + v)[|x + v| - want..] == v[|v| - want..];
  }

  lemma SplitItem(low: seq<Entry>, top: seq<Entry>, e: Entry, hist: seq<Slot>)
    requires Held(low + top, hist) && StrictlySorted(low + top) && e.slot in hist && top != []
    ensures Newest(MergeItem(top, e), |top|) == Newest(MergeItem(low + top, e), |top|)
  {
    if IsConversational(e.slot) && Before(e.slot, top[0].slot) {
      BelowTop(low, top, e, hist);
      var x :| Sort(MergeItem(low + top, e)) == x + top;
      SliceOfJoin(x, top);
      SliceOfJoin([e], top);
    } else {
      WithinTop(low, top, e, hist);
      SliceOfLonger(low, Sort(MergeItem(top, e)), |top|);
    }
  }

  lemma SortHeld(m: seq<Entry>, e: Entry, hist: seq<Slot>)
    requires Held(m, hist) && e.slot in hist
    ensures Held(Sort(m), hist) && StrictlySorted(Sort(m))
    ensures Sort(MergeItem(Sort(m), e)) == Sort(MergeItem(m, e))
  {
    SortedBlock(m, hist);
    SortMembers(m);
    PartHeld(m, Sort(m), hist);
    SameMergedSort(m, Sort(m), e, hist);
  }

  /** One item: trimming first changes nothing about the newest entries afterwards. */
  lemma TrimThenItem(m: seq<Entry>, e: Entry, hist: seq<Slot>, want: nat)
    requires Held(m, hist) && e.slot in hist
    ensures Newest(MergeItem(Newest(m, want), e), want) == Newest(MergeItem(m, e), want)
  {
    SortHeld(m, e, hist);
    var s := Sort(m);
    if want > 0 && |s| > want {
      var low, top := s[..|s| - want], s[|s| - want..];
      assert low + top == s;
      SplitItem(low, top, e, hist);
    }
  }

  lemma SameMergedSort(a: seq<Entry>, b: seq<Entry>, e: Entry, hist: seq<Slot>)
    requires Held(a, hist) && Held(b, hist) && e.slot in hist
    requires forall x :: x in a <==> x in b
    ensures Sort(MergeItem(a, e)) == Sort(MergeItem(b, e))
  {
    HeldMembers(a, e, hist);
    HeldMembers(b, e, hist);
    SortedBlock(MergeItem(b, e), hist);
    SortMembers(MergeItem(b, e));
    SortIs(MergeItem(a, e), Sort(MergeItem(b, e)), hist);
  }

  lemma NewestHeld(m: seq<Entry>, hist: seq<Slot>, want: nat)
    requires Held(m, hist)
    ensures Held(Newest(m, want), hist) && Newest(Newest(m, want), want) == Newest(m, want)
  {
    SortedBlock(m, hist);
    SortMembers(m);
    PartHeld(m, Newest(m, want), hist);
  }

  lemma {:induction false} TrimThenMerge(m: seq<Entry>, items: seq<Entry>, hist: seq<Slot>, want: nat)
    requires Held(m, hist) && Within(items, hist)
    ensures Newest(Merge(Newest(m, want), items), want) == Newest(Merge(m, items), want)
  {
    NewestHeld(m, hist, want);
    if items != [] {
      var init, e := items[..|items| - 1], items[|items| - 1];
      assert items == init + [e];
      TrimThenMerge(m, init, hist, want);
      MergeSlots(m, init, hist);
      MergeSlots(Newest(m, want), init, hist);
      TrimThenItem(Merge(Newest(m, want), init), e, hist, want);
      TrimThenItem(Merge(m, init), e, hist, want);
    }
  }

  lemma {:induction false} MergeConcat(m: seq<Entry>, a: seq<Entry>, b: seq<Entry>)
    ensures Merge(m, a + b) == Merge(Merge(m, a), b)
  {
    if b == [] {
      assert a + b == a;
    } else {
      var init, e := b[..|b| - 1], b[|b| - 1];
      assert (a + b)[..|a + b| - 1] == a + init;
      MergeConcat(m, a, init);
    }
  }

  lemma {:induction false} NewestConcat(start: int, a: seq<Entry>, b: seq<Entry>)
    ensures NewestOf(start, a + b) == NewestOf(NewestOf(start, a), b)
  {
    if b == [] {
      assert a + b == a;
    } else {
      var init := b[..|b| - 1];
      assert (a + b)[..|a + b| - 1] == a + init;
      NewestConcat(start, a, init);
    }
  }

  // ----- runs of change frames -----

  function ChangeFrame(items: seq<Entry>): Frame {
    Frame(false, items, false, None)
  }

  /** The phone: every frame applied and trimmed as it arrives. */
  function FollowAll(conv: Conv, frames: seq<seq<Entry>>, want: nat): Conv {
    if frames == [] then conv
    else ApplyFrame(Some(FollowAll(conv, frames[..|frames| - 1], want)),
                    ChangeFrame(frames[|frames| - 1]), want)
  }

  function Concat(frames: seq<seq<Entry>>): seq<Entry> {
    if frames == [] then [] else Concat(frames[..|frames| - 1]) + frames[|frames| - 1]
  }

  ghost predicate FramesWithin(frames: seq<seq<Entry>>, hist: seq<Slot>) {
    forall i :: 0 <= i < |frames| ==> Within(frames[i], hist)
  }

  /** What a snapshot leaves: sorted, trimmed, nothing read back yet. */
  ghost predicate Snapshot(conv: Conv, hist: seq<Slot>, want: nat) {
    && Held(conv.entries, hist) && StrictlySorted(conv.entries)
    && !conv.older.paged && Newest(conv.entries, want) == conv.entries
    && (|conv.entries| > want ==> conv.hasOlder)
  }

  lemma {:induction false} ConcatWithin(frames: seq<seq<Entry>>, hist: seq<Slot>)
    requires FramesWithin(frames, hist)
    ensures Within(Concat(frames), hist)
  {
    if frames != [] { ConcatWithin(frames[..|frames| - 1], hist); }
  }

  lemma OneFrame(conv: Conv, items: seq<Entry>, hist: seq<Slot>, want: nat)
    requires Held(conv.entries, hist) && Within(items, hist) && !conv.older.paged
    ensures var r := ApplyFrame(Some(conv), ChangeFrame(items), want);
            && r.entries == Newest(Merge(conv.entries, items), want)
            && r.hasOlder == (conv.hasOlder || |Sort(Merge(conv.entries, items))| > want)
            && r.newestSequence == NewestOf(conv.newestSequence, items)
            && r.older == conv.older
  {
    FromDistinct(conv.entries);
  }

  lemma {:induction false} MergeLength(m: seq<Entry>, items: seq<Entry>, hist: seq<Slot>)
    requires Held(m, hist) && Within(items, hist)
    ensures |Merge(m, items)| >= |m|
  {
    if items != [] {
      var init := items[..|items| - 1];
      assert items == init + [items[|items| - 1]];
      MergeLength(m, init, hist);
      MergeSlots(m, init, hist);
      MergeItemGrows(Merge(m, init), items[|items| - 1], hist);
    }
  }

  /** Trimming hides an entry only once the full list is longer than `want`. */
  lemma OverflowAgrees(m: seq<Entry>, items: seq<Entry>, hist: seq<Slot>, want: nat)
    requires Held(m, hist) && Within(items, hist)
    ensures |Sort(m)| > want || |Sort(Merge(Newest(m, want), items))| > want
            <==> |Sort(Merge(m, items))| > want
  {
    SortMembers(m);
    SortMembers(Merge(m, items));
    MergeLength(m, items, hist);
    if |Sort(m)| <= want {
      NewestHeld(m, hist, want);
      TrimThenMerge(m, items, hist, |Sort(m)| + |Sort(Merge(m, items))| + |Sort(Merge(Newest(m, want), items))| + 1);
    }
  }

  /**
   After any run of change frames since a snapshot, the entries shown are the newest `want` of
   everything merged, each at its latest revision, and older history is marked exactly when the
   full list outgrew `want` or was marked already.
   */
  lemma {:induction false} TrimOnceOrAlways(conv: Conv, frames: seq<seq<Entry>>, hist: seq<Slot>, want: nat)
    requires Snapshot(conv, hist, want) && FramesWithin(frames, hist)
    ensures var r := FollowAll(conv, frames, want);
            var full := Merge(conv.entries, Concat(frames));
            && r.entries == Newest(full, want)
            && r.hasOlder == (conv.hasOlder || |Sort(full)| > want)
            && r.newestSequence == NewestOf(conv.newestSequence, Concat(frames))
            && r.older == conv.older
  {
    if frames == [] {
      SortMembers(conv.entries);
    } else {
      var init, items := frames[..|frames| - 1], frames[|frames| - 1];
      TrimOnceOrAlways(conv, init, hist, want);
      ConcatWithin(init, hist);
      var before, all := FollowAll(conv, init, want), Merge(conv.entries, Concat(init));
      MergeSlots(conv.entries, Concat(init), hist);
      NewestHeld(all, hist, want);
      OneFrame(before, items, hist, want);
      TrimThenMerge(all, items, hist, want);
      OverflowAgrees(all, items, hist, want);
      MergeConcat(conv.entries, Concat(init), items);
      NewestConcat(conv.newestSequence, Concat(init), items);
    }
  }

  /** A newest page that keeps nothing read back leaves a snapshot. */
  lemma ReplaceLeavesSnapshot(previous: Option<Conv>, frame: Frame, hist: seq<Slot>, want: nat)
    requires frame.replace && Ordered(hist) && Within(frame.items, hist) && !FrameBase(previous, frame).0.paged
    ensures Snapshot(ApplyFrame(previous, frame, want), hist, want)
    ensures ApplyFrame(previous, frame, want).entries == Newest(Merge([], frame.items), want)
  {
    var all := Merge([], frame.items);
    MergeSlots([], frame.items, hist);
    SortedBlock(all, hist);
    NewestHeld(all, hist, want);
    assert FrameBase(previous, frame) == (NO_OLDER, [], frame.hasMore) && FromEntries([]) == [];
    hide Sort, Merge;
  }

  /**
   From the page that opened or reset the conversation on: what is shown after any number of change
   frames is the newest `want` of that page and all changes merged at once, latest revisions included.
   */
  lemma SinceSnapshot(previous: Option<Conv>, frame: Frame, frames: seq<seq<Entry>>, hist: seq<Slot>, want: nat)
    requires frame.replace && Ordered(hist) && Within(frame.items, hist) && !FrameBase(previous, frame).0.paged
    requires FramesWithin(frames, hist)
    ensures FollowAll(ApplyFrame(previous, frame, want), frames, want).entries
            == Newest(Merge(Merge([], frame.items), Concat(frames)), want)
  {
    hide ApplyFrame, FrameBase, FollowAll;
    ReplaceLeavesSnapshot(previous, frame, hist, want);
    TrimOnceOrAlways(ApplyFrame(previous, frame, want), frames, hist, want);
    MergeSlots([], frame.items, hist);
    ConcatWithin(frames, hist);
    TrimThenMerge(Merge([], frame.items), Concat(frames), hist, want);
  }
}
