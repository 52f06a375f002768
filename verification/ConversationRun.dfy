/**
 Every run of a followed conversation: frames, incremental changes and pages read back over an
 append-only history. The held list is always one gap-free block of that history.
 */
module ConversationRun {
  import opened Wrappers
  import opened Conversation
  import opened ConversationOrder
  import opened ConversationBlock

  /**
   The server's history of the followed session, where each page cursor it gave out stands, how
   far the frames delivered so far reach, and what the phone holds.
   */
  datatype World = World(hist: seq<Slot>, cursors: map<string, nat>, end: nat, session: string, conv: Conv)

  ghost predicate CursorsFit(w: World) {
    forall c :: c in w.cursors ==> w.cursors[c] <= |w.hist|
  }

  /** Nothing to read lies between the frames delivered so far and place `j`. */
  ghost predicate Reachable(w: World, j: nat) {
    j <= w.end || (w.end <= j <= |w.hist| && Range(w.hist, w.end, j) == {})
  }

  /** Reading back: the last page's cursor joins the block, and `start` is the first entry. */
  ghost predicate OlderFits(w: World, lo: nat, hi: nat) {
    var older := w.conv.older;
    if older.paged then
      && w.conv.hasOlder == !older.start
      && (older.start ==> lo == 0)
      && (older.cursor.Some? ==>
            var c := older.cursor.value.value;
            c in w.cursors && lo <= w.cursors[c] && Reachable(w, w.cursors[c]))
    else
      && hi == w.end && !older.start && older.cursor.None?
      && (!w.conv.hasOlder ==> lo == 0)
  }

  ghost predicate Good(w: World, lo: nat, hi: nat) {
    && Ordered(w.hist)
    && CursorsFit(w)
    && Block(w.conv.entries, w.hist, lo, hi)
    && lo <= w.end <= hi
    && w.session != "" && w.conv.sessionId == Some(w.session)
    && OlderFits(w, lo, hi)
  }

  ghost predicate GapFree(w: World) {
    exists lo: nat, hi: nat :: Good(w, lo, hi)
  }

  // ----- the steps -----

  /** The session's newest page: `hist[k..b]` in any order. */
  ghost predicate NewestPage(frame: Frame, hist: seq<Slot>, k: nat, b: nat) {
    && frame.replace && k <= b <= |hist|
    && Slots(frame.items) == All(hist, k, b)
    && (!frame.hasMore ==> k == 0)
  }

  /** A session opens with its newest page, whatever was held before. */
  ghost predicate Opens(previous: Option<Conv>, w': World, frame: Frame, k: nat, b: nat, want: nat) {
    && w'.session != "" && frame.sessionId == Some(w'.session)
    && (previous.Some? ==> previous.value.sessionId != frame.sessionId)
    && Ordered(w'.hist) && CursorsFit(w')
    && NewestPage(frame, w'.hist, k, b) && w'.end == b
    && w'.conv == ApplyFrame(previous, frame, want)
  }

  ghost predicate Grows(w: World, w': World) {
    && w' == w.(hist := w'.hist, cursors := w'.cursors)
    && Ordered(w'.hist) && CursorsFit(w')
    && |w.hist| <= |w'.hist| && w.hist == w'.hist[..|w.hist|]
    && forall c :: c in w.cursors ==> c in w'.cursors && w'.cursors[c] == w.cursors[c]
  }

  /** The newest page again, on a reconnect or after too much changed for one frame. */
  ghost predicate Refreshes(w: World, w': World, frame: Frame, k: nat, b: nat, want: nat) {
    && (frame.sessionId == None || frame.sessionId == Some(w.session))
    && NewestPage(frame, w.hist, k, b) && w.end <= b
    && w' == w.(end := b, conv := ApplyFrame(Some(w.conv), frame, want))
  }

  /** Nothing was read back and the window is full: what a frame adds below it is trimmed off again. */
  predicate Full(conv: Conv, want: nat) {
    !conv.older.paged && 0 < want <= |conv.entries|
  }

  /**
   Everything since the last frame, with revisions of entries held and of entries never shown, and
   of any earlier entry at all while the window is full.
   */
  ghost predicate ChangeItems(items: seq<Entry>, w: World, b: nat, want: nat)
    requires w.end <= b <= |w.hist|
  {
    && (forall s :: s in All(w.hist, w.end, b) ==> s in Slots(items))
    && forall e :: e in items ==>
         || e.slot in All(w.hist, w.end, b)
         || (e.slot in w.hist && (!IsConversational(e.slot) || e.slot in Slots(w.conv.entries)))
         || (Full(w.conv, want) && e.slot in All(w.hist, 0, w.end))
  }

  ghost predicate Changes(w: World, w': World, frame: Frame, b: nat, want: nat) {
    && !frame.replace
    && (frame.sessionId == None || frame.sessionId == Some(w.session))
    && w.end <= b <= |w.hist| && ChangeItems(frame.items, w, b, want)
    && w' == w.(end := b, conv := ApplyFrame(Some(w.conv), frame, want))
  }

  ghost predicate PageOf(page: Page, w: World, j: nat, t: nat) {
    && j <= t <= |w.hist|
    && Slots(page.items) == All(w.hist, j, t)
    && (!page.hasMore ==> j == 0)
    && (page.hasMore ==> Truthy(page.cursor))
    && (Truthy(page.cursor) ==> page.cursor.value in w.cursors && w.cursors[page.cursor.value] == j)
  }

  ghost predicate Answers(answer: Result<Page, ReadError>, w: World, t: nat) {
    answer.Success? ==> exists j: nat :: PageOf(answer.value, w, j, t)
  }

  /** Every read answers with the page that ends where its cursor stands, or with an error. */
  ghost predicate Serves(read: Reader, w: World) {
    && Answers(read(None), w, |w.hist|)
    && (forall c :: c in w.cursors ==> Answers(read(Some(c)), w, w.cursors[c]))
  }

  function Oldest(conv: Conv): Option<Entry> {
    if conv.entries == [] then None else Some(conv.entries[0])
  }

  predicate CursorAnswers(read: Reader, older: Older, now: int) {
    CursorLive(older, now) && read(Some(older.cursor.value.value)).Success?
  }

  /** The page is anchored: something is held, or the live cursor answered, or the page is the session's start. */
  predicate Anchored(read: Reader, conv: Conv, now: int, page: Page) {
    conv.entries != [] || CursorAnswers(read, conv.older, now) || !page.hasMore
  }

  ghost predicate ReadsBack(w: World, w': World, read: Reader, now: int, later: int) {
    && Serves(read, w)
    && var answer := ReadBack(read, w.conv.older, Oldest(w.conv), now);
    && answer.Success? && Anchored(read, w.conv, now, answer.value)
    && w' == w.(conv := ApplyPage(w.conv, w.session, answer.value, later))
  }

  /** A page of a session left meanwhile, and the marks the screen shows around a read. */
  ghost predicate Marks(w: World, w': World) {
    || (exists other, page, now ::
          other != w.session && w' == w.(conv := ApplyPage(w.conv, other, page, now)))
    || w' == w.(conv := OlderLoading(w.conv))
    || (exists reason :: w' == w.(conv := OlderFailed(w.conv, reason)))
  }

  ghost predicate Next(w: World, w': World, want: nat) {
    || Grows(w, w')
    || (exists frame, k, b :: Opens(Some(w.conv), w', frame, k, b, want))
    || (exists frame, k, b :: Refreshes(w, w', frame, k, b, want))
    || (exists frame, b :: Changes(w, w', frame, b, want))
    || (exists read, now, later :: ReadsBack(w, w', read, now, later))
    || Marks(w, w')
  }

  /** Any number of sessions, one after another, each opened by its newest page. */
  ghost predicate Run(trace: seq<World>, want: nat) {
    && trace != []
    && (exists frame, k, b :: Opens(None, trace[0], frame, k, b, want))
    && forall i :: 0 <= i < |trace| - 1 ==> Next(trace[i], trace[i + 1], want)
  }

  // ----- frames -----

  /** Merging a frame into kept entries gives the block the two cover together. */
  lemma MergedBlock(base: seq<Entry>, items: seq<Entry>, hist: seq<Slot>, lo: nat, hi: nat)
    requires Ordered(hist) && lo <= hi <= |hist|
    requires IdsDistinct(base) && Within(base, hist) && AllReadable(base) && Within(items, hist)
    requires Slots(base) + Readable(Slots(items)) == Range(hist, lo, hi)
    ensures Block(Sort(Merge(FromEntries(base), items)), hist, lo, hi)
  {
    FromDistinct(base);
    MergeSlots(base, items, hist);
    SortedBlock(Merge(base, items), hist);
  }

  /** Trimming an unpaged block keeps a block with the same end, and marks what it dropped. */
  lemma TrimStep(older: Older, all: seq<Entry>, hist: seq<Slot>, lo: nat, hi: nat, want: nat) returns (lo': nat)
    requires Ordered(hist) && Block(all, hist, lo, hi)
    ensures lo <= lo' <= hi && Block(Trimmed(older, all, want), hist, lo', hi)
    ensures lo' == lo || (!older.paged && |all| > want)
  {
    lo' := lo;
    if !older.paged && |all| > want && want > 0 {
      lo' := TrimmedBlock(all, hist, lo, hi, |all| - want);
    }
  }

  /** A newest page with nothing kept from before. */
  lemma FreshPage(previous: Option<Conv>, frame: Frame, w': World, k: nat, b: nat, want: nat)
    requires NewestPage(frame, w'.hist, k, b) && Ordered(w'.hist) && CursorsFit(w') && w'.end == b
    requires FrameBase(previous, frame) == (NO_OLDER, [], frame.hasMore)
    requires w'.conv == ApplyFrame(previous, frame, want)
    requires w'.session != "" && w'.conv.sessionId == Some(w'.session)
    ensures GapFree(w')
  {
    CoveredWithin(frame.items, w'.hist, k, b);
    ReadableOfAll(w'.hist, k, b);
    MergedBlock([], frame.items, w'.hist, k, b);
    var lo' := TrimStep(NO_OLDER, Sort(Merge(FromEntries([]), frame.items)), w'.hist, k, b, want);
    assert Good(w', lo', b);
  }

  lemma MeetingPlace(items: seq<Entry>, held: seq<Entry>, hist: seq<Slot>, k: nat, b: nat, lo: nat, hi: nat)
    requires Ordered(hist) && k <= b <= |hist| && Slots(items) == All(hist, k, b)
    requires Block(held, hist, lo, hi) && Meets(items, held)
    ensures k < hi && lo < b
  {
    var i :| 0 <= i < |items| && HasId(held, items[i].slot.id);
    var j :| 0 <= j < |held| && held[j].slot.id == items[i].slot.id;
    assert items[i] in items && items[i].slot in Slots(items);
    assert held[j] in held && held[j].slot in Slots(held);
    IdDetermines(hist, items[i].slot, held[j].slot);
    var p :| k <= p < b && hist[p] == items[i].slot;
    var q :| lo <= q < hi && hist[q] == held[j].slot;
    BeforeIsEarlier(hist, p, q);
    BeforeIsEarlier(hist, q, p);
  }

  /** What is kept below a newest page, and the page, are one block. */
  lemma KeptAndPage(held: seq<Entry>, items: seq<Entry>, hasMore: bool, hist: seq<Slot>, k: nat, b: nat, lo: nat, hi: nat)
    requires Ordered(hist) && Block(held, hist, lo, hi) && k <= b <= |hist| && Slots(items) == All(hist, k, b)
    requires (!hasMore ==> k == 0) && (Meets(items, held) || !hasMore)
    ensures items != [] ==> Sort(items) != []
    ensures var base := if items == [] then [] else EntriesBefore(held, Sort(items)[0].slot);
            Block(Sort(Merge(FromEntries(base), items)), hist, if lo <= k then lo else k, b)
  {
    BlockFacts(held, hist, lo, hi);
    CoveredWithin(items, hist, k, b);
    ReadableOfAll(hist, k, b);
    if k < b {
      OldestIsFirst(items, hist, k, b);
      if Meets(items, held) { MeetingPlace(items, held, hist, k, b, lo, hi); }
      KeptBelow(held, hist, lo, hi, k);
      if lo <= k { Joined(hist, lo, k, k, b); }
      MergedBlock(EntriesBefore(held, hist[k]), items, hist, if lo <= k then lo else k, b);
    } else {
      NothingCovered(items, hist, k);
      MergedBlock([], items, hist, if lo <= k then lo else k, b);
    }
  }

  /** A newest page that meets what was read back, or holds everything, keeps those pages. */
  lemma KeepingPage(w: World, w': World, frame: Frame, k: nat, b: nat, want: nat, lo: nat, hi: nat)
    requires Good(w, lo, hi) && Refreshes(w, w', frame, k, b, want)
    requires w.conv.older.paged && (Meets(frame.items, w.conv.entries) || !frame.hasMore)
    ensures GapFree(w')
  {
    KeptAndPage(w.conv.entries, frame.items, frame.hasMore, w.hist, k, b, lo, hi);
    hide Sort, Merge, FromEntries, EntriesBefore;
    assert Good(w', if lo <= k then lo else k, b);
  }

  lemma NothingCovered(items: seq<Entry>, hist: seq<Slot>, k: nat)
    requires k <= |hist| && Slots(items) == All(hist, k, k)
    ensures items == []
  {
    assert items == [] || items[0].slot in Slots(items);
  }

  lemma RefreshStep(w: World, w': World, frame: Frame, k: nat, b: nat, want: nat)
    requires GapFree(w) && Refreshes(w, w', frame, k, b, want)
    ensures GapFree(w')
  {
    var lo: nat, hi: nat :| Good(w, lo, hi);
    if w.conv.older.paged && (Meets(frame.items, w.conv.entries) || !frame.hasMore) {
      KeepingPage(w, w', frame, k, b, want, lo, hi);
    } else {
      FreshPage(Some(w.conv), frame, w', k, b, want);
    }
  }

  /** What a change frame leaves of a block, before trimming: the block goes on, with strays only below it. */
  lemma ChangedSlots(items: seq<Entry>, w: World, b: nat, want: nat, lo: nat, hi: nat)
    requires Good(w, lo, hi) && w.end <= b <= |w.hist| && ChangeItems(items, w, b, want)
    ensures Within(items, w.hist)
    ensures var hi' := if hi <= b then b else hi;
            var slots := Slots(w.conv.entries) + Readable(Slots(items));
            && Range(w.hist, lo, hi') <= slots <= Range(w.hist, 0, hi')
            && (!Full(w.conv, want) ==> slots == Range(w.hist, lo, hi'))
  {
    ReadableOfAll(w.hist, w.end, b);
    ReadableOfAll(w.hist, 0, w.end);
    Joined(w.hist, lo, hi, w.end, b);
    forall e | e in items ensures e.slot in w.hist {
    }
    var held := Slots(w.conv.entries);
    forall s | s in Readable(Slots(items))
      ensures s in held || s in Range(w.hist, w.end, b) || (Full(w.conv, want) && s in Range(w.hist, 0, w.end))
    {
      var e :| e in items && e.slot == s;
    }
    forall s | s in Range(w.hist, w.end, b) ensures s in Readable(Slots(items)) {
      assert s in All(w.hist, w.end, b);
    }
  }

  lemma MergedSlots(held: seq<Entry>, items: seq<Entry>, hist: seq<Slot>, lo: nat, hi: nat)
    requires Ordered(hist) && Block(held, hist, lo, hi) && Within(items, hist)
    ensures var all := Sort(Merge(FromEntries(held), items));
            StrictlySorted(all) && Slots(all) == Slots(held) + Readable(Slots(items))
  {
    BlockFacts(held, hist, lo, hi);
    MergeSlots(held, items, hist);
    SortedBlock(Merge(held, items), hist);
  }

  /** Merged and trimmed, the held entries are one block again, and what was dropped is marked. */
  lemma ChangedBlock(w: World, items: seq<Entry>, b: nat, want: nat, lo: nat, hi: nat) returns (lo': nat)
    requires Good(w, lo, hi) && w.end <= b <= |w.hist| && ChangeItems(items, w, b, want)
    ensures var all, hi' := Sort(Merge(FromEntries(w.conv.entries), items)), if hi <= b then b else hi;
            && lo <= lo' <= hi' && Block(Trimmed(w.conv.older, all, want), w.hist, lo', hi')
            && (lo' == lo || (!w.conv.older.paged && |all| > want))
  {
    var held, hi' := w.conv.entries, if hi <= b then b else hi;
    var all := Sort(Merge(FromEntries(held), items));
    ChangedSlots(items, w, b, want, lo, hi);
    MergedSlots(held, items, w.hist, lo, hi);
    hide Sort, Merge, FromEntries, ChangeItems;
    if Full(w.conv, want) {
      BlockCount(held, w.hist, lo, hi);
      SubsetCount(Range(w.hist, lo, hi), Range(w.hist, lo, hi'));
      lo' := TrimKeepsTop(all, w.hist, lo, hi', want);
      if |all| == want { lo' := lo; }
    } else {
      lo' := TrimStep(w.conv.older, all, w.hist, lo, hi', want);
    }
  }

  lemma ChangeStep(w: World, w': World, frame: Frame, b: nat, want: nat)
    requires GapFree(w) && Changes(w, w', frame, b, want)
    ensures GapFree(w')
  {
    var lo: nat, hi: nat :| Good(w, lo, hi);
    var hi': nat := if hi <= b then b else hi;
    assert FrameBase(Some(w.conv), frame) == (w.conv.older, w.conv.entries, w.conv.hasOlder);
    var lo' := ChangedBlock(w, frame.items, b, want, lo, hi);
    hide Sort, Merge, FromEntries, ChangeItems;
    assert Good(w', lo', hi');
  }

  // ----- reading back -----

  /** A page that starts the session, or below the oldest entry held. */
  ghost predicate StartsBelow(w: World, j: nat) {
    j == 0 || w.conv.entries == [] || (j < |w.hist| && Before(w.hist[j], w.conv.entries[0].slot))
  }

  /** The hops from the newest page end on a page that meets the block from below or inside. */
  lemma {:induction false} HopsMeet(read: Reader, cursor: Option<string>, w: World, lo: nat, hi: nat, hop: nat, t: nat)
    requires Good(w, lo, hi) && Serves(read, w) && hop <= MAX_HOPS
    requires Answers(read(cursor), w, t) && lo <= t
    requires Hops(read, cursor, Oldest(w.conv), hop).Success?
    ensures exists j: nat, u: nat ::
              PageOf(Hops(read, cursor, Oldest(w.conv), hop).value, w, j, u) && lo <= u && StartsBelow(w, j)
    decreases MAX_HOPS - hop
  {
    var page := read(cursor).value;
    var j: nat :| PageOf(page, w, j, t);
    if Reaches(page, Oldest(w.conv)) || !page.hasMore || !Truthy(page.cursor) {
      Reached(page, w, j, t);
    } else {
      NotReached(page, w, lo, hi, j, t);
      HopsMeet(read, page.cursor, w, lo, hi, hop + 1, j);
    }
  }

  lemma Reached(page: Page, w: World, j: nat, t: nat)
    requires Ordered(w.hist) && PageOf(page, w, j, t)
    requires Reaches(page, Oldest(w.conv)) || !page.hasMore || !Truthy(page.cursor)
    ensures StartsBelow(w, j)
  {
    if j < t { OldestIsFirst(page.items, w.hist, j, t); } else { NothingCovered(page.items, w.hist, j); }
  }

  lemma NotReached(page: Page, w: World, lo: nat, hi: nat, j: nat, t: nat)
    requires Good(w, lo, hi) && PageOf(page, w, j, t) && lo <= t && !Reaches(page, Oldest(w.conv))
    ensures lo <= j
  {
    if j < t {
      OldestIsFirst(page.items, w.hist, j, t);
      var first := w.conv.entries[0];
      assert first in w.conv.entries && first.slot in Slots(w.conv.entries);
      var q :| lo <= q < hi && w.hist[q] == first.slot;
      BeforeIsEarlier(w.hist, j, q);
    }
  }

  lemma OldestIsLeast(entries: seq<Entry>, hist: seq<Slot>, lo: nat, hi: nat, q: nat, p: nat)
    requires Ordered(hist) && Block(entries, hist, lo, hi) && entries != []
    requires q < |hist| && hist[q] == entries[0].slot && lo <= p < hi && IsConversational(hist[p])
    ensures q <= p
  {
    assert hist[p] in Range(hist, lo, hi);
    var e :| e in entries && e.slot == hist[p];
    var i :| 0 <= i < |entries| && entries[i] == e;
    assert Before(entries[0].slot, entries[i].slot) || i == 0;
    BeforeIsEarlier(hist, q, p);
    BeforeIsEarlier(hist, p, q);
  }

  /** What lies below the oldest entry held, down to the block's start, is not conversational. */
  lemma BelowOldest(w: World, lo: nat, hi: nat, j: nat)
    requires Good(w, lo, hi) && w.conv.entries != [] && j < |w.hist| && Before(w.hist[j], w.conv.entries[0].slot)
    ensures Reachable(w, j)
  {
    var entries := w.conv.entries;
    assert entries[0] in entries && entries[0].slot in Slots(entries);
    var q :| lo <= q < hi && w.hist[q] == entries[0].slot;
    BeforeIsEarlier(w.hist, j, q);
    forall p | w.end <= p < j ensures !IsConversational(w.hist[p]) {
      if IsConversational(w.hist[p]) { OldestIsLeast(entries, w.hist, lo, hi, q, p); }
    }
  }

  /** A page read back joins the held block; an anchored one leaves nothing out below the frames delivered. */
  lemma ReadBackMeets(read: Reader, w: World, now: int, lo: nat, hi: nat) returns (j: nat, t: nat)
    requires Good(w, lo, hi) && Serves(read, w)
    requires ReadBack(read, w.conv.older, Oldest(w.conv), now).Success?
    ensures PageOf(ReadBack(read, w.conv.older, Oldest(w.conv), now).value, w, j, t) && lo <= t
    ensures Anchored(read, w.conv, now, ReadBack(read, w.conv.older, Oldest(w.conv), now).value) ==> Reachable(w, j)
  {
    var older := w.conv.older;
    var page := ReadBack(read, older, Oldest(w.conv), now).value;
    if CursorAnswers(read, older, now) {
      var c := older.cursor.value.value;
      t := w.cursors[c];
      j :| PageOf(page, w, j, t);
      ReachableBelow(w, j, t);
    } else {
      HopsMeet(read, None, w, lo, hi, 0, |w.hist|);
      j, t :| PageOf(page, w, j, t) && lo <= t && StartsBelow(w, j);
      if j > 0 && w.conv.entries != [] { BelowOldest(w, lo, hi, j); }
    }
  }

  lemma ReachableBelow(w: World, j: nat, t: nat)
    requires j <= t <= |w.hist| && Reachable(w, t)
    ensures Reachable(w, j)
  {
    if w.end < j { assert Range(w.hist, w.end, j) <= Range(w.hist, w.end, t); }
  }

  lemma FilledBlock(held: seq<Entry>, items: seq<Entry>, hist: seq<Slot>, lo: nat, hi: nat, j: nat, t: nat)
    requires Ordered(hist) && Block(held, hist, lo, hi) && j <= t <= |hist| && lo <= t && j <= hi
    requires Slots(items) == All(hist, j, t)
    ensures Block(Sort(Fill(FromEntries(held), items)), hist,
                  if lo <= j then lo else j, if hi <= t then t else hi)
  {
    BlockFacts(held, hist, lo, hi);
    CoveredWithin(items, hist, j, t);
    ReadableOfAll(hist, j, t);
    Joined(hist, lo, hi, j, t);
    FillSlots(held, items, hist);
    SortedBlock(Fill(held, items), hist);
  }

  lemma ReadStep(w: World, w': World, read: Reader, now: int, later: int)
    requires GapFree(w) && ReadsBack(w, w', read, now, later)
    ensures GapFree(w')
  {
    var lo: nat, hi: nat :| Good(w, lo, hi);
    var j, t := ReadBackMeets(read, w, now, lo, hi);
    PageKeeps(w, w', lo, hi, ReadBack(read, w.conv.older, Oldest(w.conv), now).value, j, t, later);
  }

  /** A page that joins the block, applied. */
  lemma PageKeeps(w: World, w': World, lo: nat, hi: nat, page: Page, j: nat, t: nat, later: int)
    requires Good(w, lo, hi) && PageOf(page, w, j, t) && lo <= t && Reachable(w, j)
    requires w' == w.(conv := ApplyPage(w.conv, w.session, page, later))
    ensures GapFree(w')
  {
    var held := w.conv.entries;
    var wide: nat := if j <= hi then hi else j;
    assert Block(held, w.hist, lo, wide) by {
      if hi < j {
        assert Range(w.hist, hi, j) <= Range(w.hist, w.end, j);
        Joined(w.hist, lo, hi, hi, j);
      }
    }
    FilledBlock(held, page.items, w.hist, lo, wide, j, t);
    assert Good(w', if lo <= j then lo else j, if wide <= t then t else wide);
  }

  // ----- whole runs -----

  lemma GrowthKeeps(w: World, w': World, lo: nat, hi: nat)
    requires Good(w, lo, hi) && Grows(w, w')
    ensures Good(w', lo, hi)
  {
    assert Range(w.hist, lo, hi) == Range(w'.hist, lo, hi) by {
      assert forall i :: 0 <= i < |w.hist| ==> w.hist[i] == w'.hist[i];
    }
  }

  lemma MarkStep(w: World, w': World)
    requires GapFree(w) && Marks(w, w')
    ensures GapFree(w')
  {
    var lo: nat, hi: nat :| Good(w, lo, hi);
    assert Good(w', lo, hi);
  }

  lemma StepKeepsGapFree(w: World, w': World, want: nat)
    requires GapFree(w) && Next(w, w', want)
    ensures GapFree(w')
  {
    if Grows(w, w') {
      var lo: nat, hi: nat :| Good(w, lo, hi);
      GrowthKeeps(w, w', lo, hi);
    } else if frame, k, b :| Opens(Some(w.conv), w', frame, k, b, want) {
      FreshPage(Some(w.conv), frame, w', k, b, want);
    } else if frame, k, b :| Refreshes(w, w', frame, k, b, want) {
      RefreshStep(w, w', frame, k, b, want);
    } else if frame, b :| Changes(w, w', frame, b, want) {
      ChangeStep(w, w', frame, b, want);
    } else if read, now, later :| ReadsBack(w, w', read, now, later) {
      ReadStep(w, w', read, now, later);
    } else {
      MarkStep(w, w');
    }
  }

  lemma {:induction false} RunKeepsGapFree(trace: seq<World>, want: nat, n: nat)
    requires Run(trace, want) && n < |trace|
    ensures GapFree(trace[n])
  {
    if n == 0 {
      var frame, k, b :| Opens(None, trace[0], frame, k, b, want);
      FreshPage(None, frame, trace[0], k, b, want);
    } else {
      RunKeepsGapFree(trace, want, n - 1);
      assert Next(trace[n - 1], trace[n - 1 + 1], want);
      StepKeepsGapFree(trace[n - 1], trace[n], want);
    }
  }

  /**
   In every state of every run the held entries are, place by place, the conversational entries of
   one stretch of the session's history that reaches at least as far as the frames delivered, and a
   screen that says nothing is older holds the session's first entry.
   */
  lemma HeldIsOneStretch(trace: seq<World>, want: nat, n: nat) returns (lo: nat, hi: nat)
    requires Run(trace, want) && n < |trace|
    ensures var w := trace[n];
            && lo <= w.end <= hi <= |w.hist|
            && Places(w.conv.entries) == Conversational(w.hist[lo..hi])
            && (!w.conv.hasOlder ==> lo == 0)
  {
    RunKeepsGapFree(trace, want, n);
    var w := trace[n];
    lo, hi :| Good(w, lo, hi);
    BlockIsStretch(w.conv.entries, w.hist, lo, hi);
  }
}
