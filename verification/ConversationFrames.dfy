/** What any frame leaves, whatever was held before: which entries, which pages read back, and whether there is more. */
module ConversationFrames {
  import opened Wrappers
  import opened Conversation
  import opened ConversationOrder
  import opened ConversationBlock
  import opened ConversationRevisions

  /** The frame is of the session followed so far, as far as both have a name. */
  ghost predicate SameSession(previous: Conv, frame: Frame) {
    forall a, b :: previous.sessionId == Some(a) && frame.sessionId == Some(b) && a != "" && b != "" ==> a == b
  }

  /** A newest page keeps the pages read back while it meets what is held, or is all there is. */
  ghost predicate KeepsPages(previous: Conv, frame: Frame) {
    && SameSession(previous, frame) && previous.older.paged
    && (!frame.hasMore || exists i, j :: 0 <= i < |frame.items| && 0 <= j < |previous.entries|
                                          && frame.items[i].slot.id == previous.entries[j].slot.id)
  }

  /** `x` was held and is carried into the frame: by a change always, by a newest page if it is older than all of it. */
  ghost predicate Carried(previous: Conv, frame: Frame, x: Entry) {
    && x in previous.entries && SameSession(previous, frame)
    && (frame.replace ==>
          && KeepsPages(previous, frame) && frame.items != []
          && forall i :: 0 <= i < |frame.items| ==> Before(x.slot, frame.items[i].slot))
  }

  /** What is to be shown: the frame's last reading of each id, and what is carried and not in the frame. */
  ghost predicate Shown(previous: Conv, frame: Frame, x: Entry) {
    Revised(frame.items, x) || (Carried(previous, frame, x) && !HasId(frame.items, x.slot.id))
  }

  lemma SessionsAgree(previous: Conv, frame: Frame)
    ensures OtherSession(Some(previous), frame) <==> !SameSession(previous, frame)
  {
  }

  lemma PagesKept(previous: Conv, frame: Frame)
    ensures KeepsPages(previous, frame)
            <==> SameSession(previous, frame) && previous.older.paged && (Meets(frame.items, previous.entries) || !frame.hasMore)
  {
  }

  /** Older than the first of a sorted page is older than all of it. */
  lemma OlderThanAll(items: seq<Entry>, x: Slot)
    requires items != []
    ensures Sort(items) != []
    ensures Before(x, Sort(items)[0].slot) <==> forall i :: 0 <= i < |items| ==> Before(x, items[i].slot)
  {
    SortMembers(items);
    var sorted := Sort(items);
    if Before(x, sorted[0].slot) {
      forall i | 0 <= i < |items| ensures Before(x, items[i].slot) {
        assert items[i] in sorted;
        var k :| 0 <= k < |sorted| && sorted[k] == items[i];
        assert k == 0 || Compare(sorted[0].slot, sorted[k].slot) <= 0;
      }
    } else {
      assert sorted[0] in items;
    }
  }

  /** What the frame starts from. */
  lemma BaseIsCarried(previous: Conv, frame: Frame)
    requires IdsDistinct(previous.entries)
    ensures var (older, base, live) := FrameBase(Some(previous), frame);
            && IdsDistinct(base) && (forall x :: x in base <==> Carried(previous, frame, x))
            && older == (if frame.replace then (if KeepsPages(previous, frame) then previous.older else NO_OLDER)
                         else if SameSession(previous, frame) then previous.older else NO_OLDER)
            && live == if frame.replace then frame.hasMore else previous.hasOlder
  {
    SessionsAgree(previous, frame);
    PagesKept(previous, frame);
    hide SameSession, KeepsPages, OtherSession, Meets;
    if frame.replace && frame.items != [] {
      EntriesBeforeMembers(previous.entries, Sort(frame.items)[0].slot);
      forall x ensures Before(x, Sort(frame.items)[0].slot)
                       <==> forall i :: 0 <= i < |frame.items| ==> Before(x, frame.items[i].slot)
      {
        OlderThanAll(frame.items, x);
      }
    }
  }

  /** The pages read back that a frame leaves. */
  ghost function PagesLeft(previous: Conv, frame: Frame): Older {
    if (if frame.replace then KeepsPages(previous, frame) else SameSession(previous, frame)) then previous.older else NO_OLDER
  }

  /** All that is to be shown, in order, before the window is cut. */
  lemma FrameMerges(previous: Conv, frame: Frame) returns (all: seq<Entry>)
    requires IdsDistinct(previous.entries)
    ensures Sorted(all) && IdsDistinct(all) && (forall x :: x in all <==> Shown(previous, frame, x))
    ensures var (older, base, live) := FrameBase(Some(previous), frame); all == Sort(Merge(FromEntries(base), frame.items))
  {
    var (older, base, live) := FrameBase(Some(previous), frame);
    BaseIsCarried(previous, frame);
    FromDistinct(base);
    MergeMembers(base, frame.items);
    var merged := Merge(base, frame.items);
    SortMembers(merged);
    SortKeepsDistinct(merged);
    all := Sort(merged);
    hide Sort, Merge, FromEntries, FrameBase, Revised, Carried, KeepsPages, SameSession;
  }

  lemma FrameIs(previous: Conv, frame: Frame, want: nat) returns (all: seq<Entry>)
    requires IdsDistinct(previous.entries)
    ensures Sorted(all) && IdsDistinct(all) && (forall x :: x in all <==> Shown(previous, frame, x))
    ensures var r, older := ApplyFrame(Some(previous), frame, want), PagesLeft(previous, frame);
            && r.older == older && r.entries == Trimmed(older, all, want)
            && r.hasOlder == MoreBefore(older, (if frame.replace then frame.hasMore else previous.hasOlder)
                                               || (!older.paged && |all| > want))
  {
    all := FrameMerges(previous, frame);
    BaseIsCarried(previous, frame);
    hide Sort, Merge, FromEntries, FrameBase, Shown, Carried, KeepsPages, SameSession, Sorted, IdsDistinct;
  }

  /**
   For every frame and everything held before: only what is to be shown is, all of it unless more than
   `want` would be, and then the oldest are left out; and pages read back are kept or forgotten as said.
   */
  lemma FrameShows(previous: Conv, frame: Frame, want: nat)
    requires IdsDistinct(previous.entries)
    ensures var r := ApplyFrame(Some(previous), frame, want);
            && (forall x | x in r.entries :: Shown(previous, frame, x))
            && (r.older.paged || want == 0 || |r.entries| < want ==> forall x | Shown(previous, frame, x) :: x in r.entries)
            && (!r.older.paged && want > 0 ==> |r.entries| <= want)
            && (forall x, y | Shown(previous, frame, x) && x !in r.entries && y in r.entries :: Compare(x.slot, y.slot) <= 0)
            && r.older == PagesLeft(previous, frame)
  {
    var all := FrameIs(previous, frame, want);
    hide ApplyFrame, Shown, PagesLeft;
    TrimDropsOldest(ApplyFrame(Some(previous), frame, want).older, all, want);
    hide Trimmed;
  }

  /**
   And there is more exactly when the pages read back say so, or, without pages, when the newest page or
   the state before says so or something was left out.
   */
  lemma FrameSaysMore(previous: Conv, frame: Frame, want: nat)
    requires IdsDistinct(previous.entries)
    ensures var r := ApplyFrame(Some(previous), frame, want);
            r.hasOlder
            <==> if r.older.paged then !r.older.start
                 else || (if frame.replace then frame.hasMore else previous.hasOlder)
                      || (if want == 0 then r.entries != []
                          else exists x :: Shown(previous, frame, x) && x !in r.entries)
    ensures ApplyFrame(Some(previous), frame, want).sessionId
            == if frame.sessionId.Some? then frame.sessionId else previous.sessionId
  {
    var all := FrameIs(previous, frame, want);
    var r := ApplyFrame(Some(previous), frame, want);
    if !r.older.paged { TrimDropsIff(r.older, all, want); }
    hide ApplyFrame, Shown, PagesLeft, Trimmed;
  }

  /** A first frame shows its own last readings, up to the window, and there is more if it says so or some were left out. */
  lemma FirstFrameShows(frame: Frame, want: nat)
    ensures var r := ApplyFrame(None, frame, want);
            && (forall x | x in r.entries :: Revised(frame.items, x))
            && (want == 0 || |r.entries| < want ==> forall x | Revised(frame.items, x) :: x in r.entries)
            && (want > 0 ==> |r.entries| <= want)
            && (forall x, y | Revised(frame.items, x) && x !in r.entries && y in r.entries :: Compare(x.slot, y.slot) <= 0)
            && r.older == NO_OLDER && r.sessionId == frame.sessionId
            && (r.hasOlder <==> || frame.hasMore
                                || if want == 0 then r.entries != []
                                   else exists x :: Revised(frame.items, x) && x !in r.entries)
  {
    assert FromEntries([]) == [];
    MergeMembers([], frame.items);
    var merged := Merge([], frame.items);
    SortMembers(merged);
    SortKeepsDistinct(merged);
    var all := Sort(merged);
    assert forall x :: x in all <==> Revised(frame.items, x);
    assert ApplyFrame(None, frame, want).entries == Trimmed(NO_OLDER, all, want);
    hide Sort, Merge, FromEntries, Revised;
    TrimDropsOldest(NO_OLDER, all, want);
    TrimDropsIff(NO_OLDER, all, want);
  }

  lemma SortKeepsDistinct(m: seq<Entry>)
    requires IdsDistinct(m)
    ensures IdsDistinct(Sort(m))
  {
    SortDistinct(m);
  }

  lemma TrimDropsIff(older: Older, all: seq<Entry>, want: nat)
    requires IdsDistinct(all) && !older.paged
    ensures |all| > want <==> if want == 0 then Trimmed(older, all, want) != []
                             else exists x :: x in all && x !in Trimmed(older, all, want)
  {
    var r := Trimmed(older, all, want);
    if 0 < want < |all| {
      assert all[0] in all;
      assert forall k | 0 <= k < |r| :: r[k] == all[|all| - want + k];
      assert all[0] !in r;
    }
  }

  /** While a page is read the screen says so and nothing else; a page, of any session, or a failure ends that. */
  lemma LoadingEnds(conv: Conv, sessionId: string, page: Page, now: int, reason: string)
    ensures var loading := OlderLoading(conv);
            && loading.older.loading && loading.older.failed.None?
            && !ApplyPage(loading, sessionId, page, now).older.loading && ApplyPage(loading, sessionId, page, now).older.failed.None?
            && !OlderFailed(loading, reason).older.loading && OlderFailed(loading, reason).older.failed == Some(reason)
            && OlderLoading(OlderFailed(conv, reason)) == loading
    ensures forall marked | marked in {OlderLoading(conv), OlderFailed(conv, reason)} ::
              && marked.entries == conv.entries && marked.hasOlder == conv.hasOlder && marked.sessionId == conv.sessionId
              && marked.newestSequence == conv.newestSequence && marked.older.paged == conv.older.paged
              && marked.older.start == conv.older.start && marked.older.cursor == conv.older.cursor
  {
  }

  // ----- ties -----

  /** The entries of one place in the order, in the order they are listed. */
  function AtPlace(s: seq<Entry>, stamp: int, sequence: int): seq<Entry> {
    if s == [] then []
    else
      var rest, last := AtPlace(s[..|s| - 1], stamp, sequence), s[|s| - 1];
      if last.slot.stamp == stamp && last.slot.sequence == sequence then rest + [last] else rest
  }

  lemma OneMoreAtPlace(s: seq<Entry>, e: Entry, stamp: int, sequence: int)
    ensures AtPlace(s + [e], stamp, sequence)
            == AtPlace(s, stamp, sequence) + if e.slot.stamp == stamp && e.slot.sequence == sequence then [e] else []
  {
    assert (s + [e])[..|s + [e]| - 1] == s;
  }

  lemma {:induction false} InsertIsStable(s: seq<Entry>, e: Entry, stamp: int, sequence: int)
    ensures AtPlace(Insert(s, e), stamp, sequence)
            == AtPlace(s, stamp, sequence) + if e.slot.stamp == stamp && e.slot.sequence == sequence then [e] else []
  {
    OneMoreAtPlace(s, e, stamp, sequence);
    if s == [] {
      assert [] + [e] == [e];
    } else {
      var init, last := s[..|s| - 1], s[|s| - 1];
      InsertIsStable(init, e, stamp, sequence);
      OneMoreAtPlace(Insert(init, e), last, stamp, sequence);
    }
  }

  /** Sorting keeps entries of one place in the order they came. */
  lemma {:induction false} SortIsStable(s: seq<Entry>, stamp: int, sequence: int)
    ensures AtPlace(Sort(s), stamp, sequence) == AtPlace(s, stamp, sequence)
  {
    if s != [] {
      SortIsStable(s[..|s| - 1], stamp, sequence);
      InsertIsStable(Sort(s[..|s| - 1]), s[|s| - 1], stamp, sequence);
    }
  }

  function Ids(m: seq<Entry>): seq<string> {
    if m == [] then [] else [m[0].slot.id] + Ids(m[1..])
  }

  /** A revised entry keeps its place in the Map; a new one goes to its end. */
  lemma {:induction false} PutKeepsPlace(m: seq<Entry>, e: Entry)
    ensures Ids(Put(m, e)) == if HasId(m, e.slot.id) then Ids(m) else Ids(m) + [e.slot.id]
  {
    if m == [] {
      assert Put(m, e)[1..] == [];
    } else {
      var rest := m[1..];
      PutKeepsPlace(rest, e);
      assert HasId(m, e.slot.id) <==> m[0].slot.id == e.slot.id || HasId(rest, e.slot.id) by {
        if i :| 0 <= i < |m| && m[i].slot.id == e.slot.id { assert i == 0 || rest[i - 1] == m[i]; }
        if i :| 0 <= i < |rest| && rest[i].slot.id == e.slot.id { assert m[i + 1] == rest[i]; }
      }
      if m[0].slot.id == e.slot.id {
        assert ([e] + rest)[1..] == rest;
      } else {
        assert ([m[0]] + Put(rest, e))[1..] == Put(rest, e);
      }
    }
  }
}
