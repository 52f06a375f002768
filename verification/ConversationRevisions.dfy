/**
 Which revision of an entry is shown: a page read back never replaces what is held, a frame always
 does, and what both leave out is exactly what nobody reads.
 */
module ConversationRevisions {
  import opened Wrappers
  import opened Conversation
  import opened ConversationOrder
  import opened ConversationBlock
  import opened ConversationRun
  import opened ConversationLimits

  /** An entry someone reads: neither a heartbeat nor a usage count. */
  predicate IsRead(e: Entry) {
    e.slot.kind !in {"status", "usage"}
  }

  // ----- pages -----

  /** Item `i` is the first of its id that someone reads. */
  predicate FirstOfId(items: seq<Entry>, i: nat)
    requires i < |items|
  {
    IsRead(items[i]) && forall j: nat | j < i && IsRead(items[j]) :: items[j].slot.id != items[i].slot.id
  }

  ghost predicate FilledFrom(m: seq<Entry>, items: seq<Entry>, x: Entry) {
    exists i: nat :: i < |items| && items[i] == x && FirstOfId(items, i) && !HasId(m, x.slot.id)
  }

  lemma FilledGrows(m: seq<Entry>, items: seq<Entry>, e: Entry, x: Entry)
    ensures FilledFrom(m, items + [e], x)
            <==> FilledFrom(m, items, x)
                 || (x == e && IsRead(e) && !HasId(m, e.slot.id)
                     && forall j: nat | j < |items| && IsRead(items[j]) :: items[j].slot.id != e.slot.id)
  {
    var all := items + [e];
    assert forall j: nat | j < |items| :: all[j] == items[j];
    if FilledFrom(m, items, x) {
      var i: nat :| i < |items| && items[i] == x && FirstOfId(items, i) && !HasId(m, x.slot.id);
      assert FirstOfId(all, i);
    }
    if FilledFrom(m, all, x) {
      var i: nat :| i < |all| && all[i] == x && FirstOfId(all, i) && !HasId(m, x.slot.id);
      if i < |items| { assert FirstOfId(items, i); }
    }
    if x == e && IsRead(e) && !HasId(m, e.slot.id)
       && forall j: nat | j < |items| && IsRead(items[j]) :: items[j].slot.id != e.slot.id {
      assert FirstOfId(all, |items|);
    }
  }

  lemma HasMember(m: seq<Entry>, x: Entry)
    requires x in m
    ensures HasId(m, x.slot.id)
  {
  }

  /** The first item of an id is there once some item of it is. */
  lemma {:induction false} FirstExists(items: seq<Entry>, j: nat) returns (i: nat)
    requires j < |items| && IsRead(items[j])
    ensures i <= j && items[i].slot.id == items[j].slot.id && FirstOfId(items, i)
  {
    if k: nat :| k < j && IsRead(items[k]) && items[k].slot.id == items[j].slot.id {
      i := FirstExists(items, k);
    } else {
      i := j;
    }
  }

  lemma {:induction false} FillMembers(m: seq<Entry>, items: seq<Entry>)
    requires IdsDistinct(m)
    ensures IdsDistinct(Fill(m, items))
    ensures forall x :: x in Fill(m, items) <==> x in m || FilledFrom(m, items, x)
  {
    if items != [] {
      var init, e := items[..|items| - 1], items[|items| - 1];
      assert items == init + [e];
      FillMembers(m, init);
      var before := Fill(m, init);
      PutMembers(before, e);
      forall x ensures x in Fill(m, items) <==> x in m || FilledFrom(m, items, x) {
        FilledGrows(m, init, e, x);
        FillsAnother(m, init, e);
      }
    }
  }

  /** An id is taken once it is held or some earlier item of the page has it. */
  lemma FillsAnother(m: seq<Entry>, items: seq<Entry>, e: Entry)
    requires forall x :: x in Fill(m, items) <==> x in m || FilledFrom(m, items, x)
    ensures HasId(Fill(m, items), e.slot.id)
            <==> HasId(m, e.slot.id) || exists j: nat :: j < |items| && IsRead(items[j]) && items[j].slot.id == e.slot.id
  {
    var filled := Fill(m, items);
    if HasId(filled, e.slot.id) {
      var k :| 0 <= k < |filled| && filled[k].slot.id == e.slot.id;
      assert filled[k] in filled;
      if filled[k] in m { HasMember(m, filled[k]); }
    }
    if HasId(m, e.slot.id) {
      var k :| 0 <= k < |m| && m[k].slot.id == e.slot.id;
      assert m[k] in filled;
      HasMember(filled, m[k]);
    } else if j: nat :| j < |items| && IsRead(items[j]) && items[j].slot.id == e.slot.id {
      var i := FirstExists(items, j);
      assert FilledFrom(m, items, items[i]);
      HasMember(filled, items[i]);
    }
  }

  /**
   A page read back of the session: every entry held stays as it is, body and all; every other entry
   is the page's first reading of an id not held; no such id is missing; and no id is there twice.
   */
  lemma PageKeepsHeld(conv: Conv, sessionId: string, page: Page, now: int)
    requires IdsDistinct(conv.entries) && conv.sessionId == Some(sessionId)
    ensures var r := ApplyPage(conv, sessionId, page, now).entries;
            && IdsDistinct(r)
            && (forall x :: x in r <==> x in conv.entries || FilledFrom(conv.entries, page.items, x))
            && (forall i: nat | i < |page.items| && IsRead(page.items[i]) :: HasId(r, page.items[i].slot.id))
  {
    var filled := Fill(conv.entries, page.items);
    FromDistinct(conv.entries);
    FillMembers(conv.entries, page.items);
    SortMembers(filled);
    SortDistinct(filled);
    var r := ApplyPage(conv, sessionId, page, now).entries;
    assert r == Sort(filled);
    forall i: nat | i < |page.items| && IsRead(page.items[i]) ensures HasId(r, page.items[i].slot.id) {
      var j := FirstExists(page.items, i);
      if HasId(conv.entries, page.items[i].slot.id) {
        var k :| 0 <= k < |conv.entries| && conv.entries[k].slot.id == page.items[i].slot.id;
        HasMember(r, conv.entries[k]);
      } else {
        assert FilledFrom(conv.entries, page.items, page.items[j]);
        HasMember(r, page.items[j]);
      }
    }
  }

  /** And the screen says there is more before exactly when the page said so; another session's page says nothing. */
  lemma PageSaysMore(conv: Conv, sessionId: string, page: Page, now: int)
    ensures var r := ApplyPage(conv, sessionId, page, now);
            if conv.sessionId == Some(sessionId) then
              && r.hasOlder == page.hasMore && r.older.paged && r.older.start == !page.hasMore && !r.older.loading
              && r.older.failed.None?
              && (r.older.cursor.Some? <==> page.cursor.Some? && page.cursor.value != "")
              && (r.older.cursor.Some? ==> r.older.cursor.value == Cursor(page.cursor.value, now))
              && r.sessionId == conv.sessionId && r.newestSequence == conv.newestSequence
            else r == conv.(older := conv.older.(loading := false))
  {
    hide Sort, Fill, FromEntries;
  }

  // ----- frames -----

  /** Item `i` is the last of its id, whatever its kind. */
  predicate LastOfId(items: seq<Entry>, i: nat)
    requires i < |items|
  {
    forall j: nat | i < j < |items| :: items[j].slot.id != items[i].slot.id
  }

  /** `x` is the frame's last word on its id, and someone reads it. */
  ghost predicate Revised(items: seq<Entry>, x: Entry) {
    exists i: nat :: i < |items| && items[i] == x && LastOfId(items, i) && IsRead(x)
  }

  lemma RevisedGrows(items: seq<Entry>, e: Entry, x: Entry)
    ensures Revised(items + [e], x) <==> (x == e && IsRead(e)) || (Revised(items, x) && x.slot.id != e.slot.id)
  {
    var all := items + [e];
    assert forall j: nat | j < |items| :: all[j] == items[j];
    if Revised(all, x) {
      var i: nat :| i < |all| && all[i] == x && LastOfId(all, i) && IsRead(x);
      if i < |items| {
        assert LastOfId(items, i);
        assert all[|items|].slot.id != all[i].slot.id;
      }
    }
    if x == e && IsRead(e) { assert LastOfId(all, |items|); }
    if Revised(items, x) && x.slot.id != e.slot.id {
      var i: nat :| i < |items| && items[i] == x && LastOfId(items, i) && IsRead(x);
      assert LastOfId(all, i);
    }
  }

  /** Merging: each id at its last reading, withdrawn when that is nothing to read, untouched when the frame is silent. */
  lemma {:induction false} MergeMembers(m: seq<Entry>, items: seq<Entry>)
    requires IdsDistinct(m)
    ensures IdsDistinct(Merge(m, items))
    ensures forall x :: x in Merge(m, items) <==> Revised(items, x) || (x in m && !HasId(items, x.slot.id))
  {
    if items != [] {
      var init, e := items[..|items| - 1], items[|items| - 1];
      assert items == init + [e];
      MergeMembers(m, init);
      var before := Merge(m, init);
      PutMembers(before, e);
      DropMembers(before, e.slot.id);
      forall x ensures x in Merge(m, items) <==> Revised(items, x) || (x in m && !HasId(items, x.slot.id)) {
        RevisedGrows(init, e, x);
        HasOneMore(init, e, x.slot.id);
      }
    }
  }

  lemma HasOneMore(items: seq<Entry>, e: Entry, id: string)
    ensures HasId(items + [e], id) <==> HasId(items, id) || e.slot.id == id
  {
    var all := items + [e];
    if HasId(items, id) {
      var k :| 0 <= k < |items| && items[k].slot.id == id;
      assert all[k] == items[k];
    }
    if e.slot.id == id { assert all[|items|].slot.id == id; }
  }

  /** Nothing of the list before is lost by trimming but its oldest entries. */
  lemma TrimmedMembers(older: Older, all: seq<Entry>, want: nat, x: Entry)
    requires x in Trimmed(older, all, want)
    ensures x in all
  {
  }

  /**
   After a change frame of the session: every entry shown is the frame's last reading of its id, or
   was held and is not in the frame. Nothing of that is missing unless the window was trimmed, and
   then the newest `want` are there.
   */
  lemma ChangeShowsLatest(conv: Conv, frame: Frame, want: nat)
    requires IdsDistinct(conv.entries) && !frame.replace && !OtherSession(Some(conv), frame)
    ensures var r := ApplyFrame(Some(conv), frame, want).entries;
            var shown := iset x | Revised(frame.items, x) || (x in conv.entries && !HasId(frame.items, x.slot.id));
            && (forall x :: x in r ==> x in shown)
            && (conv.older.paged || want == 0 || |r| < want ==> forall x :: x in shown ==> x in r)
            && (!conv.older.paged && want > 0 ==> |r| <= want)
            && (forall x, y :: x in shown && x !in r && y in r ==> Compare(x.slot, y.slot) <= 0)
  {
    var all := Sort(Merge(FromEntries(conv.entries), frame.items));
    FromDistinct(conv.entries);
    MergeMembers(conv.entries, frame.items);
    SortMembers(Merge(conv.entries, frame.items));
    ChangedEntries(conv, frame, want);
    hide Sort, Merge, FromEntries, ApplyFrame;
    TrimDropsOldest(conv.older, all, want);
  }

  lemma TrimDropsOldest(older: Older, all: seq<Entry>, want: nat)
    requires Sorted(all)
    ensures var r := Trimmed(older, all, want);
            && (forall x :: x in r ==> x in all)
            && (older.paged || want == 0 || |r| < want ==> r == all)
            && (!older.paged && want > 0 ==> |r| <= want)
            && (forall x, y :: x in all && x !in r && y in r ==> Compare(x.slot, y.slot) <= 0)
  {
    var r := Trimmed(older, all, want);
    if !older.paged && 0 < want < |all| {
      var c := |all| - want;
      assert r == all[c..];
      forall x, y | x in all && x !in r && y in r ensures Compare(x.slot, y.slot) <= 0 {
        assert all == all[..c] + r && x in all[..c];
        var i :| 0 <= i < c && all[..c][i] == x;
        var k :| 0 <= k < |r| && r[k] == y;
        assert all[i] == x && all[c + k] == y;
      }
    }
  }

  /** A change frame of another session starts from nothing: no entry, page or sequence of the old one is left. */
  lemma OtherSessionForgets(conv: Conv, frame: Frame, want: nat)
    requires !frame.replace && OtherSession(Some(conv), frame)
    ensures var r := ApplyFrame(Some(conv), frame, want);
            && (forall x :: x in r.entries ==> Revised(frame.items, x))
            && !r.older.paged && r.older.cursor.None? && !r.older.start
            && r.sessionId == frame.sessionId && r.newestSequence == NewestOf(-1, frame.items)
  {
    MergeMembers([], frame.items);
    var all := Sort(Merge([], frame.items));
    SortMembers(Merge([], frame.items));
    assert FromEntries([]) == [];
    forall x | x in Trimmed(NO_OLDER, all, want) ensures x in all { TrimmedMembers(NO_OLDER, all, want, x); }
  }

  /** The newest sequence is the highest of those seen and the one it started from. */
  lemma {:induction false} NewestIsHighest(start: int, items: seq<Entry>)
    ensures start <= NewestOf(start, items)
    ensures forall i :: 0 <= i < |items| ==> items[i].slot.sequence <= NewestOf(start, items)
    ensures NewestOf(start, items) == start
            || exists i :: 0 <= i < |items| && items[i].slot.sequence == NewestOf(start, items)
  {
    if items != [] {
      var init := items[..|items| - 1];
      NewestIsHighest(start, init);
      assert forall i :: 0 <= i < |init| ==> items[i] == init[i];
    }
  }

  /** A frame of the session carries the highest sequence on; a newest page, or another session, starts it afresh. */
  lemma SequenceCarriesOn(conv: Conv, frame: Frame, want: nat)
    ensures ApplyFrame(Some(conv), frame, want).newestSequence
            == NewestOf(if frame.replace || OtherSession(Some(conv), frame) then -1 else conv.newestSequence, frame.items)
    ensures ApplyFrame(None, frame, want).newestSequence == NewestOf(-1, frame.items)
  {
    hide Sort, Merge, FromEntries;
  }

  /** Two sessions are told apart only when both have a name and the names differ. */
  lemma SessionsDiffer(conv: Conv, frame: Frame)
    ensures OtherSession(Some(conv), frame)
            <==> frame.sessionId.Some? && conv.sessionId.Some? && frame.sessionId.value != conv.sessionId.value
                 && frame.sessionId.value != "" && conv.sessionId.value != ""
    ensures !OtherSession(None, frame)
  {
  }

  // ----- the order, and what is read -----

  /** The server's order is by timestamp and then by sequence, and two places are in it one way. */
  lemma OrderIs(a: Slot, b: Slot)
    ensures Before(a, b) <==> a.stamp < b.stamp || (a.stamp == b.stamp && a.sequence < b.sequence)
    ensures Compare(a, b) == 0 <==> a.stamp == b.stamp && a.sequence == b.sequence
    ensures Compare(a, b) > 0 <==> Compare(b, a) < 0
  {
  }

  /** In every run: a place of the stretch held is held exactly when it is no heartbeat and no usage count. */
  lemma HeldIsWhatIsRead(trace: seq<World>, want: nat, n: nat) returns (lo: nat, hi: nat)
    requires Run(trace, want) && n < |trace|
    ensures var w := trace[n];
            && lo <= w.end <= hi <= |w.hist| && (!w.conv.hasOlder ==> lo == 0) && IdsDistinct(w.conv.entries)
            && (forall e :: e in w.conv.entries ==> exists p :: lo <= p < hi && w.hist[p] == e.slot)
            && forall p | lo <= p < hi ::
                 (exists e :: e in w.conv.entries && e.slot == w.hist[p]) <==> w.hist[p].kind !in {"status", "usage"}
  {
    RunKeepsGapFree(trace, want, n);
    var w := trace[n];
    lo, hi :| Good(w, lo, hi);
    BlockFacts(w.conv.entries, w.hist, lo, hi);
    forall e | e in w.conv.entries ensures exists p :: lo <= p < hi && w.hist[p] == e.slot {
      assert e.slot in Slots(w.conv.entries);
    }
    forall p | lo <= p < hi
      ensures (exists e :: e in w.conv.entries && e.slot == w.hist[p]) <==> w.hist[p].kind !in {"status", "usage"}
    {
      InRange(w.hist, lo, hi, p);
      assert w.hist[p] in Slots(w.conv.entries) <==> w.hist[p] in Range(w.hist, lo, hi);
    }
  }

  // ----- reading back -----

  /** A cursor younger than four minutes is read, an older one or an expired one is not used. */
  lemma CursorIsUsedIff(read: Reader, older: Older, oldest: Option<Entry>, now: int)
    ensures var live := older.cursor.Some? && now - older.cursor.value.at < 240_000;
            var newest := Hops(read, None, oldest, 0);
            ReadBack(read, older, oldest, now)
            == if !live then newest
               else if read(Some(older.cursor.value.value)) == Failure(CursorExpired) then newest
               else read(Some(older.cursor.value.value))
  {
  }

  /** The page `n` hops back from the newest, as long as every page before it was read and had a cursor. */
  function PageBack(read: Reader, n: nat): Option<Page> {
    if n == 0 then (if read(None).Success? then Some(read(None).value) else None)
    else
      var before := PageBack(read, n - 1);
      if before.Some? && Truthy(before.value.cursor) && read(before.value.cursor).Success?
      then Some(read(before.value.cursor).value) else None
  }

  /** A page at which hopping goes on: it does not reach past the oldest entry held, and there is more behind it. */
  predicate GoesOn(page: Page, oldest: Option<Entry>) {
    && oldest.Some? && page.hasMore && page.cursor.Some? && page.cursor.value != ""
    && (page.items == [] || !Before(Sort(page.items)[0].slot, oldest.value.slot))
  }

  function CursorAt(read: Reader, n: nat): Option<string>
    requires n > 0 ==> PageBack(read, n - 1).Some?
  {
    if n == 0 then None else PageBack(read, n - 1).value.cursor
  }

  lemma HopFrom(read: Reader, oldest: Option<Entry>, n: nat)
    requires n < 50 && (n > 0 ==> PageBack(read, n - 1).Some? && GoesOn(PageBack(read, n - 1).value, oldest))
    ensures Hops(read, CursorAt(read, n), oldest, n)
            == if PageBack(read, n).None? then Failure(read(CursorAt(read, n)).error)
               else if GoesOn(PageBack(read, n).value, oldest) then Hops(read, CursorAt(read, n + 1), oldest, n + 1)
               else Success(PageBack(read, n).value)
  {
    SortMembers(if PageBack(read, n).Some? then PageBack(read, n).value.items else []);
  }

  /** Pages 0 to `n` were read and none of them ended the hopping. */
  ghost predicate HopsOver(read: Reader, oldest: Option<Entry>, n: nat) {
    forall k: nat | k < n :: PageBack(read, k).Some? && GoesOn(PageBack(read, k).value, oldest)
  }

  lemma {:induction false} HopsTo(read: Reader, oldest: Option<Entry>, n: nat)
    requires n <= 50 && HopsOver(read, oldest, n)
    ensures Hops(read, None, oldest, 0) == Hops(read, CursorAt(read, n), oldest, n)
  {
    if n > 0 {
      HopsTo(read, oldest, n - 1);
      HopFrom(read, oldest, n - 1);
    }
  }

  /** Hopping answers the first page at which it does not go on; it gives up after exactly fifty pages. */
  lemma HopsAnswer(read: Reader, oldest: Option<Entry>, n: nat)
    requires n <= 50 && HopsOver(read, oldest, n)
    ensures n == 50 ==> Hops(read, None, oldest, 0) == Failure(TooLong)
    ensures n < 50 && PageBack(read, n).Some? && !GoesOn(PageBack(read, n).value, oldest) ==>
              Hops(read, None, oldest, 0) == Success(PageBack(read, n).value)
    ensures n < 50 && PageBack(read, n).None? ==>
              Hops(read, None, oldest, 0) == Failure(read(CursorAt(read, n)).error)
  {
    HopsTo(read, oldest, n);
    if n < 50 { HopFrom(read, oldest, n); }
  }
}
