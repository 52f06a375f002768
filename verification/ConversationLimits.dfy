/**
 Where the gap-free block depends on its environment: a page applied after its place moved, a
 revision of an entry older than everything held, and a page read from the newest while nothing is
 held. Each is gap free exactly when nothing to read lies between.
 */
module ConversationLimits {
  import opened Wrappers
  import opened Conversation
  import opened ConversationOrder
  import opened ConversationBlock
  import opened ConversationRun

  ghost predicate SomeBlock(entries: seq<Entry>, hist: seq<Slot>) {
    exists a: nat, b: nat :: Block(entries, hist, a, b)
  }

  lemma InRange(hist: seq<Slot>, a: nat, b: nat, p: nat)
    requires Ordered(hist) && a <= b <= |hist| && p < |hist|
    ensures hist[p] in Range(hist, a, b) <==> a <= p < b && IsConversational(hist[p])
  {
    if hist[p] in Range(hist, a, b) {
      var q :| a <= q < b && IsConversational(hist[q]) && hist[q] == hist[p];
      BeforeIsEarlier(hist, p, q);
      BeforeIsEarlier(hist, q, p);
    }
  }

  /** A stretch below a block joins it exactly when nothing conversational lies between. */
  lemma ApartIff(hist: seq<Slot>, j: nat, t: nat, lo: nat, hi: nat, a: nat, b: nat)
    requires Ordered(hist) && j <= t <= lo <= hi <= |hist| && a <= b <= |hist|
    requires Range(hist, j, t) != {} && Range(hist, lo, hi) != {}
    requires Range(hist, j, t) + Range(hist, lo, hi) == Range(hist, a, b)
    ensures Range(hist, t, lo) == {}
  {
    var below :| below in Range(hist, j, t);
    var above :| above in Range(hist, lo, hi);
    var p :| j <= p < t && IsConversational(hist[p]) && hist[p] == below;
    var q :| lo <= q < hi && IsConversational(hist[q]) && hist[q] == above;
    InRange(hist, a, b, p);
    InRange(hist, a, b, q);
    forall s | s in Range(hist, t, lo) ensures false {
      var r :| t <= r < lo && IsConversational(hist[r]) && hist[r] == s;
      InRange(hist, a, b, r);
      InRange(hist, j, t, r);
      InRange(hist, lo, hi, r);
    }
  }

  lemma JoinedBelow(hist: seq<Slot>, j: nat, t: nat, lo: nat, hi: nat)
    requires j <= t <= lo <= hi <= |hist| && Range(hist, t, lo) == {}
    ensures Range(hist, j, t) + Range(hist, lo, hi) == Range(hist, j, hi)
  {
    Joined(hist, j, t, t, lo);
    Joined(hist, j, lo, lo, hi);
  }

  lemma UnionIff(r: seq<Entry>, hist: seq<Slot>, j: nat, t: nat, lo: nat, hi: nat)
    requires Ordered(hist) && j <= t <= lo <= hi <= |hist| && StrictlySorted(r)
    requires Range(hist, j, t) != {} && Range(hist, lo, hi) != {}
    requires Slots(r) == Range(hist, j, t) + Range(hist, lo, hi)
    ensures SomeBlock(r, hist) <==> Range(hist, t, lo) == {}
  {
    if Range(hist, t, lo) == {} {
      JoinedBelow(hist, j, t, lo, hi);
      assert Block(r, hist, j, hi);
    }
    if a: nat, b: nat :| Block(r, hist, a, b) {
      ApartIff(hist, j, t, lo, hi, a, b);
    }
  }

  /**
   A page `hist[j..t]` that was read before the block moved up to `hist[lo..hi]` leaves one block
   exactly when nothing conversational lies between the two. The code checks only the session.
   */
  lemma LatePageIff(conv: Conv, sessionId: string, page: Page, now: int,
                    hist: seq<Slot>, j: nat, t: nat, lo: nat, hi: nat)
    requires Ordered(hist) && Block(conv.entries, hist, lo, hi) && conv.entries != []
    requires conv.sessionId == Some(sessionId)
    requires j <= t <= lo && Slots(page.items) == All(hist, j, t) && Range(hist, j, t) != {}
    ensures SomeBlock(ApplyPage(conv, sessionId, page, now).entries, hist) <==> Range(hist, t, lo) == {}
  {
    BlockFacts(conv.entries, hist, lo, hi);
    CoveredWithin(page.items, hist, j, t);
    ReadableOfAll(hist, j, t);
    FillSlots(conv.entries, page.items, hist);
    SortedBlock(Fill(conv.entries, page.items), hist);
    var r := ApplyPage(conv, sessionId, page, now).entries;
    assert Slots(r) == Range(hist, j, t) + Range(hist, lo, hi);
    assert conv.entries[0].slot in Slots(conv.entries);
    UnionIff(r, hist, j, t, lo, hi);
  }

  lemma OnePlace(hist: seq<Slot>, q: nat, e: Entry)
    requires q < |hist| && e.slot == hist[q] && IsConversational(e.slot)
    ensures Readable(Slots([e])) == Range(hist, q, q + 1) == {e.slot}
  {
  }

  lemma StrayMerge(held: seq<Entry>, e: Entry, hist: seq<Slot>, q: nat, lo: nat, hi: nat)
    requires Ordered(hist) && Block(held, hist, lo, hi)
    requires q < |hist| && e.slot == hist[q] && IsConversational(e.slot)
    ensures var r := Sort(Merge(FromEntries(held), [e]));
            && StrictlySorted(r) && Slots(r) == Range(hist, q, q + 1) + Range(hist, lo, hi)
            && |r| <= |held| + 1 && (q < hi ==> Slots(r) <= Range(hist, 0, hi))
  {
    BlockFacts(held, hist, lo, hi);
    OnePlace(hist, q, e);
    MergeSlots(held, [e], hist);
    OneMore(held, e);
    SortedBlock(Merge(held, [e]), hist);
    SortMembers(Merge(held, [e]));
  }

  /** What a change frame of the followed session leaves. */
  lemma ChangedEntries(conv: Conv, frame: Frame, want: nat)
    requires !frame.replace && !OtherSession(Some(conv), frame)
    ensures ApplyFrame(Some(conv), frame, want).entries
            == Trimmed(conv.older, Sort(Merge(FromEntries(conv.entries), frame.items)), want)
  {
    hide Sort, Merge, FromEntries;
  }

  /** A full window trims the stray entry off again. */
  lemma StrayTrimmed(conv: Conv, e: Entry, hist: seq<Slot>, q: nat, lo: nat, hi: nat, want: nat)
    requires Ordered(hist) && Block(conv.entries, hist, lo, hi) && Full(conv, want)
    requires q < lo && e.slot == hist[q] && IsConversational(e.slot)
    ensures SomeBlock(ApplyFrame(Some(conv), Frame(false, [e], false, None), want).entries, hist)
  {
    hide ApplyFrame, Sort, Merge, FromEntries, Range, Slots, StrictlySorted;
    var all := Sort(Merge(FromEntries(conv.entries), [e]));
    StrayMerge(conv.entries, e, hist, q, lo, hi);
    ChangedEntries(conv, Frame(false, [e], false, None), want);
    BlockCount(conv.entries, hist, lo, hi);
    var p := TrimKeepsTop(all, hist, lo, hi, want);
    assert Trimmed(conv.older, all, want) == all[|all| - want..];
  }

  /**
   A change frame revising one conversational entry at `hist[q]`, below the held `hist[lo..hi]`,
   leaves one block exactly when the window is full, or nothing conversational lies between.
   */
  lemma StrayRevisionIff(conv: Conv, e: Entry, hist: seq<Slot>, q: nat, lo: nat, hi: nat, want: nat)
    requires Ordered(hist) && Block(conv.entries, hist, lo, hi) && conv.entries != []
    requires q < lo && e.slot == hist[q] && IsConversational(e.slot)
    ensures SomeBlock(ApplyFrame(Some(conv), Frame(false, [e], false, None), want).entries, hist)
            <==> Full(conv, want) || Range(hist, q + 1, lo) == {}
  {
    if Full(conv, want) {
      StrayTrimmed(conv, e, hist, q, lo, hi, want);
    } else {
      StrayMerge(conv.entries, e, hist, q, lo, hi);
      ChangedEntries(conv, Frame(false, [e], false, None), want);
      hide ApplyFrame, Sort, Merge, FromEntries;
      OnePlace(hist, q, e);
      assert conv.entries[0].slot in Slots(conv.entries);
      UnionIff(Sort(Merge(FromEntries(conv.entries), [e])), hist, q, q + 1, lo, hi);
    }
  }

  lemma {:induction false} PutAtMostOneMore(m: seq<Entry>, e: Entry)
    ensures |Put(m, e)| <= |m| + 1
  {
    if m != [] && m[0].slot.id != e.slot.id { PutAtMostOneMore(m[1..], e); }
  }

  lemma OneMore(m: seq<Entry>, e: Entry)
    requires IsConversational(e.slot)
    ensures |Merge(m, [e])| <= |m| + 1
  {
    assert [e][..0] == [];
    assert Merge(m, [e]) == MergeItem(m, e);
    PutAtMostOneMore(m, e);
  }

  /** Three entries: the page with the first, applied once only the third is held, leaves a hole. */
  lemma LatePageLeavesHole()
    ensures exists conv: Conv, page: Page, hist: seq<Slot> ::
              && Ordered(hist) && Block(conv.entries, hist, 2, 3) && Slots(page.items) == All(hist, 0, 1)
              && conv.sessionId == Some("s") && !SomeBlock(ApplyPage(conv, "s", page, 0).entries, hist)
  {
    var hist := [Slot("a", 1, 1, "content"), Slot("b", 2, 2, "content"), Slot("c", 3, 3, "content")];
    var held, first := Entry(hist[2], "c"), Entry(hist[0], "a");
    var conv := Conv([held], true, 3, Some("s"), NO_OLDER);
    var page := Page([first], false, None);
    assert Range(hist, 2, 3) == {hist[2]} && Slots([held]) == {hist[2]};
    assert All(hist, 0, 1) == {hist[0]} && Slots([first]) == {hist[0]};
    assert hist[0] in Range(hist, 0, 1);
    assert hist[1] in Range(hist, 1, 2);
    LatePageIff(conv, "s", page, 0, hist, 0, 1, 2, 3);
  }

  // ----- reading back with nothing held -----

  /** What a page applied with nothing held leaves. */
  lemma OnlyThePage(conv: Conv, sessionId: string, page: Page, now: int, hist: seq<Slot>, j: nat, t: nat)
    requires Ordered(hist) && conv.entries == [] && conv.sessionId == Some(sessionId)
    requires j <= t <= |hist| && Slots(page.items) == All(hist, j, t)
    ensures Block(ApplyPage(conv, sessionId, page, now).entries, hist, j, t)
  {
    assert Block(conv.entries, hist, j, j);
    FilledBlock(conv.entries, page.items, hist, j, j, j, t);
  }

  /** The held entries are one block that reaches the frames delivered. */
  ghost predicate HeldReaches(w: World) {
    exists a: nat, b: nat :: a <= w.end <= b && Block(w.conv.entries, w.hist, a, b)
  }

  /** A page that starts beyond the frames delivered, held alone, reaches back only over nothing to read. */
  lemma AloneReaches(w: World, j: nat, t: nat, a: nat, b: nat)
    requires Ordered(w.hist) && Block(w.conv.entries, w.hist, j, t) && w.end < j
    requires a <= w.end <= b && Block(w.conv.entries, w.hist, a, b)
    ensures Range(w.hist, w.end, j) == {} || Range(w.hist, j, t) == {}
  {
    if s :| s in Range(w.hist, j, t) {
      var p :| j <= p < t && w.hist[p] == s;
      InRange(w.hist, a, b, p);
      forall q | w.end <= q < j ensures !IsConversational(w.hist[q]) {
        InRange(w.hist, a, b, q);
        InRange(w.hist, j, t, q);
      }
    }
  }

  /**
   With nothing held and no live cursor, the newest page is taken whatever lies before it. What is
   held then is one block reaching the frames delivered exactly when nothing to read lies between
   them and the page, or the page has nothing to read.
   */
  lemma UnanchoredIff(w: World, w': World, lo: nat, hi: nat, page: Page, j: nat, t: nat, now: int)
    requires Good(w, lo, hi) && w.conv.entries == [] && PageOf(page, w, j, t) && page.hasMore && lo <= t
    requires w' == w.(conv := ApplyPage(w.conv, w.session, page, now))
    ensures HeldReaches(w') <==> Reachable(w, j) || Range(w.hist, j, t) == {}
  {
    OnlyThePage(w.conv, w.session, page, now, w.hist, j, t);
    hide ApplyPage;
    if Reachable(w, j) {
      ReachedPage(w, w', lo, hi, page, j, t, now);
    } else if Range(w.hist, j, t) == {} {
      assert Block(w'.conv.entries, w.hist, w.end, w.end);
    }
    if a: nat, b: nat :| a <= w'.end <= b && Block(w'.conv.entries, w'.hist, a, b) {
      if w.end < j { AloneReaches(w', j, t, a, b); }
    }
  }

  lemma ReachedPage(w: World, w': World, lo: nat, hi: nat, page: Page, j: nat, t: nat, now: int)
    requires Good(w, lo, hi) && PageOf(page, w, j, t) && lo <= t && Reachable(w, j)
    requires w' == w.(conv := ApplyPage(w.conv, w.session, page, now))
    ensures HeldReaches(w')
  {
    PageKeeps(w, w', lo, hi, page, j, t, now);
    var a: nat, b: nat :| Good(w', a, b);
  }

  /** So for every read-back that is not anchored. */
  lemma UnanchoredReadIff(w: World, w': World, read: Reader, now: int, later: int) returns (j: nat, t: nat)
    requires GapFree(w) && Serves(read, w) && ReadBack(read, w.conv.older, Oldest(w.conv), now).Success?
    requires var page := ReadBack(read, w.conv.older, Oldest(w.conv), now).value;
             !Anchored(read, w.conv, now, page) && w' == w.(conv := ApplyPage(w.conv, w.session, page, later))
    ensures PageOf(ReadBack(read, w.conv.older, Oldest(w.conv), now).value, w, j, t)
    ensures HeldReaches(w') <==> Reachable(w, j) || Range(w.hist, j, t) == {}
  {
    var lo: nat, hi: nat :| Good(w, lo, hi);
    j, t := ReadBackMeets(read, w, now, lo, hi);
    UnanchoredIff(w, w', lo, hi, ReadBack(read, w.conv.older, Oldest(w.conv), now).value, j, t, later);
  }

  /** A session of one status entry is followed; three entries are added and no frame has brought them yet. */
  ghost function UnheldHistory(): seq<Slot> {
    [Slot("a", 1, 1, "status"), Slot("b", 2, 2, "content"), Slot("c", 3, 3, "content"), Slot("d", 4, 4, "content")]
  }

  ghost function UnheldWorld(): World {
    World(UnheldHistory(), map["p" := 3], 1, "s", Conv([], false, 1, Some("s"), NO_OLDER))
  }

  ghost function UnheldPage(): Page {
    Page([Entry(UnheldHistory()[3], "")], true, Some("p"))
  }

  lemma UnheldFacts()
    ensures Good(UnheldWorld(), 0, 1) && PageOf(UnheldPage(), UnheldWorld(), 3, 4)
  {
    var hist := UnheldHistory();
    assert Range(hist, 0, 1) == {};
    assert All(hist, 3, 4) == {hist[3]} && Slots(UnheldPage().items) == {hist[3]};
  }

  lemma UnheldRead(read: Reader)
    requires read(None) == Success(UnheldPage())
    ensures var w := UnheldWorld(); ReadBack(read, w.conv.older, Oldest(w.conv), 0) == Success(UnheldPage())
  {
  }

  /**
   The code's hole: the person reads back then. The newest page, the fourth entry, is taken; the
   next change frame, the second entry, leaves the third out.
   */
  lemma UnheldPageLeavesHole(read: Reader, second: Entry)
    requires read(None) == Success(UnheldPage()) && second.slot == UnheldHistory()[1]
    ensures var w := UnheldWorld();
            && GapFree(w) && ReadBack(read, w.conv.older, Oldest(w.conv), 0) == Success(UnheldPage())
            && (var held := ApplyPage(w.conv, w.session, UnheldPage(), 0);
                !SomeBlock(ApplyFrame(Some(held), Frame(false, [second], false, None), 1000).entries, w.hist))
  {
    var w := UnheldWorld();
    UnheldFacts();
    UnheldRead(read);
    OnlyThePage(w.conv, "s", UnheldPage(), 0, w.hist, 3, 4);
    UnheldHole(ApplyPage(w.conv, "s", UnheldPage(), 0), second);
  }

  lemma UnheldHole(held: Conv, second: Entry)
    requires Block(held.entries, UnheldHistory(), 3, 4) && second.slot == UnheldHistory()[1]
    requires held.older.paged
    ensures !SomeBlock(ApplyFrame(Some(held), Frame(false, [second], false, None), 1000).entries, UnheldHistory())
  {
    hide ApplyFrame;
    var hist := UnheldHistory();
    assert hist[3] in Range(hist, 3, 4) && hist[2] in Range(hist, 2, 3);
    StrayRevisionIff(held, second, hist, 1, 3, 4, 1000);
  }
}
