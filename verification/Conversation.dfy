/**
 The held conversation of `apps/ios/sessionView.ts`: live frames, incremental changes and pages
 read back are merged into one sorted list.

 A timestamp is modelled by its rank in the collation order `localeCompare` gives, the missing
 timestamp having the rank of the empty string. A JavaScript `Map` filled in a loop is a sequence
 of entries in insertion order; `sort` is the stable sort the language requires.
 */
module Conversation {
  import opened Wrappers

  /** What places an entry in st's timeline: its identity, its order key and its type. */
  datatype Slot = Slot(id: string, stamp: int, sequence: int, kind: string)

  /** One revision of an entry. */
  datatype Entry = Entry(slot: Slot, body: string)

  datatype Cursor = Cursor(value: string, at: int)

  datatype Older = Older(paged: bool, start: bool, cursor: Option<Cursor>, loading: bool, failed: Option<string>)

  datatype Conv = Conv(entries: seq<Entry>, hasOlder: bool, newestSequence: int,
                       sessionId: Option<string>, older: Older)

  datatype Frame = Frame(replace: bool, items: seq<Entry>, hasMore: bool, sessionId: Option<string>)

  datatype Page = Page(items: seq<Entry>, hasMore: bool, cursor: Option<string>)

  datatype ReadError = CursorExpired | OtherError(reason: string) | TooLong

  const NO_OLDER := Older(false, false, None, false, None)
  const CURSOR_LIFE_MS := 240_000
  const MAX_HOPS := 50

  /** JavaScript truth of an optional string. */
  predicate Truthy(s: Option<string>) {
    s.Some? && s.value != ""
  }

  predicate IsConversational(slot: Slot) {
    slot.kind != "status" && slot.kind != "usage"
  }

  /** Timestamps decide, sequence numbers break ties; negative when `a` comes first. */
  function Compare(a: Slot, b: Slot): int {
    if a.stamp < b.stamp then -1
    else if b.stamp < a.stamp then 1
    else a.sequence - b.sequence
  }

  predicate Before(a: Slot, b: Slot) {
    Compare(a, b) < 0
  }

  // ----- a Map keyed by entry id, in insertion order -----

  /** `Map.set`: an id already present keeps its place. */
  function Put(m: seq<Entry>, e: Entry): seq<Entry> {
    if m == [] then [e]
    else if m[0].slot.id == e.slot.id then [e] + m[1..]
    else [m[0]] + Put(m[1..], e)
  }

  /** `Map.delete`. */
  function Drop(m: seq<Entry>, id: string): seq<Entry> {
    if m == [] then []
    else if m[0].slot.id == id then m[1..]
    else [m[0]] + Drop(m[1..], id)
  }

  predicate HasId(m: seq<Entry>, id: string) {
    exists i :: 0 <= i < |m| && m[i].slot.id == id
  }

  function FromEntries(entries: seq<Entry>): seq<Entry> {
    if entries == [] then []
    else Put(FromEntries(entries[..|entries| - 1]), entries[|entries| - 1])
  }

  /** One frame item: a conversational entry replaces its revision, any other withdraws the id. */
  function MergeItem(m: seq<Entry>, e: Entry): seq<Entry> {
    if IsConversational(e.slot) then Put(m, e) else Drop(m, e.slot.id)
  }

  function Merge(m: seq<Entry>, items: seq<Entry>): seq<Entry> {
    if items == [] then m
    else MergeItem(Merge(m, items[..|items| - 1]), items[|items| - 1])
  }

  /** One page item: entries already held win. */
  function FillItem(m: seq<Entry>, e: Entry): seq<Entry> {
    if IsConversational(e.slot) && !HasId(m, e.slot.id) then Put(m, e) else m
  }

  function Fill(m: seq<Entry>, items: seq<Entry>): seq<Entry> {
    if items == [] then m
    else FillItem(Fill(m, items[..|items| - 1]), items[|items| - 1])
  }

  function NewestOf(start: int, items: seq<Entry>): int {
    if items == [] then start
    else
      var rest := NewestOf(start, items[..|items| - 1]);
      if rest < items[|items| - 1].slot.sequence then items[|items| - 1].slot.sequence else rest
  }

  // ----- the stable sort -----

  function Insert(s: seq<Entry>, e: Entry): seq<Entry> {
    if s == [] then [e]
    else if Compare(e.slot, s[|s| - 1].slot) < 0 then Insert(s[..|s| - 1], e) + [s[|s| - 1]]
    else s + [e]
  }

  function Sort(s: seq<Entry>): seq<Entry> {
    if s == [] then [] else Insert(Sort(s[..|s| - 1]), s[|s| - 1])
  }

  /** `slice(-n)`, whose `-0` keeps everything. */
  function SliceFromEnd(s: seq<Entry>, n: nat): seq<Entry> {
    if n == 0 || |s| <= n then s else s[|s| - n..]
  }

  function EntriesBefore(held: seq<Entry>, slot: Slot): seq<Entry> {
    if held == [] then []
    else
      var rest := EntriesBefore(held[..|held| - 1], slot);
      if Before(held[|held| - 1].slot, slot) then rest + [held[|held| - 1]] else rest
  }

  predicate Meets(items: seq<Entry>, held: seq<Entry>) {
    exists i :: 0 <= i < |items| && HasId(held, items[i].slot.id)
  }

  // ----- the operations -----

  function MoreBefore(older: Older, live: bool): bool {
    if older.paged then !older.start else live
  }

  predicate OtherSession(previous: Option<Conv>, frame: Frame) {
    Truthy(frame.sessionId) && previous.Some? && Truthy(previous.value.sessionId)
    && frame.sessionId != previous.value.sessionId
  }

  /** What a frame starts from: the reading-back state kept, the entries kept and the live mark. */
  function FrameBase(previous: Option<Conv>, frame: Frame): (Older, seq<Entry>, bool) {
    var other := OtherSession(previous, frame);
    var older := if previous.Some? && !other then previous.value.older else NO_OLDER;
    var live := if previous.Some? then previous.value.hasOlder else frame.hasMore;
    var kept := if previous.Some? && !other then previous.value.entries else [];
    if !frame.replace && !other then (older, kept, live)
    else if frame.replace then
      if older.paged && (Meets(frame.items, kept) || !frame.hasMore) then
        (older,
         if frame.items == [] then [] else EntriesBefore(kept, Sort(frame.items)[0].slot),
         frame.hasMore)
      else (NO_OLDER, [], frame.hasMore)
    else (older, [], live)
  }

  function NewestStart(previous: Option<Conv>, frame: Frame): int {
    if frame.replace || OtherSession(previous, frame) || previous.None? then -1
    else previous.value.newestSequence
  }

  function SessionOf(previous: Option<Conv>, frame: Frame): Option<string> {
    if frame.sessionId.Some? then frame.sessionId
    else if previous.Some? then previous.value.sessionId else None
  }

  function Trimmed(older: Older, entries: seq<Entry>, want: nat): seq<Entry> {
    if !older.paged && |entries| > want then SliceFromEnd(entries, want) else entries
  }

  function ApplyFrame(previous: Option<Conv>, frame: Frame, want: nat): Conv {
    var (older, base, live) := FrameBase(previous, frame);
    var all := Sort(Merge(FromEntries(base), frame.items));
    Conv(Trimmed(older, all, want),
         MoreBefore(older, live || (!older.paged && |all| > want)),
         NewestOf(NewestStart(previous, frame), frame.items),
         SessionOf(previous, frame), older)
  }

  function ApplyPage(conv: Conv, sessionId: string, page: Page, now: int): Conv {
    if conv.sessionId != Some(sessionId) then conv.(older := conv.older.(loading := false))
    else
      var older := Older(true, !page.hasMore,
                         if Truthy(page.cursor) then Some(Cursor(page.cursor.value, now)) else None,
                         false, None);
      conv.(entries := Sort(Fill(FromEntries(conv.entries), page.items)),
            hasOlder := MoreBefore(older, true), older := older)
  }

  function OlderLoading(conv: Conv): Conv {
    conv.(older := conv.older.(loading := true, failed := None))
  }

  function OlderFailed(conv: Conv, reason: string): Conv {
    conv.(older := conv.older.(loading := false, failed := Some(reason)))
  }

  type Reader = Option<string> -> Result<Page, ReadError>

  predicate Reaches(page: Page, oldest: Option<Entry>) {
    oldest.None? || (page.items != [] && Before(Sort(page.items)[0].slot, oldest.value.slot))
  }

  /** Pages from the newest back until one reaches past `oldest`. */
  function Hops(read: Reader, cursor: Option<string>, oldest: Option<Entry>, hop: nat): Result<Page, ReadError>
    requires hop <= MAX_HOPS
    decreases MAX_HOPS - hop
  {
    if hop == MAX_HOPS then Failure(TooLong)
    else
      match read(cursor)
      case Failure(e) => Failure(e)
      case Success(page) =>
        if Reaches(page, oldest) || !page.hasMore || !Truthy(page.cursor) then Success(page)
        else Hops(read, page.cursor, oldest, hop + 1)
  }

  predicate CursorLive(older: Older, now: int) {
    older.cursor.Some? && now - older.cursor.value.at < CURSOR_LIFE_MS
  }

  function ReadBack(read: Reader, older: Older, oldest: Option<Entry>, now: int): Result<Page, ReadError> {
    if CursorLive(older, now) then
      match read(Some(older.cursor.value.value))
      case Success(page) => Success(page)
      case Failure(e) => if e.CursorExpired? then Hops(read, None, oldest, 0) else Failure(e)
    else Hops(read, None, oldest, 0)
  }

  // ----- the same operations as the source runs them -----

  /** `applyConversation`, filling the map in a loop. */
  method ApplyConversation(previous: Option<Conv>, frame: Frame, want: nat) returns (r: Conv)
    ensures r == ApplyFrame(previous, frame, want)
  {
    var (older, base, live) := FrameBase(previous, frame);
    var found := FromEntries(base);
    var newest := NewestStart(previous, frame);
    for i := 0 to |frame.items|
      invariant found == Merge(FromEntries(base), frame.items[..i])
      invariant newest == NewestOf(NewestStart(previous, frame), frame.items[..i])
    {
      var entry := frame.items[i];
      assert frame.items[..i + 1][..i] == frame.items[..i];
      if newest < entry.slot.sequence { newest := entry.slot.sequence; }
      if IsConversational(entry.slot) { found := Put(found, entry); }
      else { found := Drop(found, entry.slot.id); }
    }
    assert frame.items[..|frame.items|] == frame.items;
    var entries := Sort(found);
    if !older.paged && |entries| > want {
      entries := SliceFromEnd(entries, want);
      live := true;
    }
    r := Conv(entries, MoreBefore(older, live), newest, SessionOf(previous, frame), older);
  }

  /** `applyOlderPage`, where an entry already held wins. */
  method ApplyOlderPage(conv: Conv, sessionId: string, page: Page, now: int) returns (r: Conv)
    ensures r == ApplyPage(conv, sessionId, page, now)
  {
    if conv.sessionId != Some(sessionId) {
      return conv.(older := conv.older.(loading := false));
    }
    var found := FromEntries(conv.entries);
    for i := 0 to |page.items|
      invariant found == Fill(FromEntries(conv.entries), page.items[..i])
    {
      var entry := page.items[i];
      assert page.items[..i + 1][..i] == page.items[..i];
      if IsConversational(entry.slot) && !HasId(found, entry.slot.id) { found := Put(found, entry); }
    }
    assert page.items[..|page.items|] == page.items;
    var cursor := if Truthy(page.cursor) then Some(Cursor(page.cursor.value, now)) else None;
    var older := Older(true, !page.hasMore, cursor, false, None);
    r := conv.(entries := Sort(found), hasOlder := MoreBefore(older, true), older := older);
  }

  /** `readOlder`, following cursors from the newest page for at most fifty hops. */
  method ReadOlder(read: Reader, older: Older, oldest: Option<Entry>, now: int)
    returns (r: Result<Page, ReadError>)
    ensures r == ReadBack(read, older, oldest, now)
  {
    if CursorLive(older, now) {
      var continued := read(Some(older.cursor.value.value));
      if continued.Success? || !continued.error.CursorExpired? { return continued; }
    }
    var cursor: Option<string> := None;
    for hop := 0 to MAX_HOPS
      invariant Hops(read, None, oldest, 0) == Hops(read, cursor, oldest, hop)
    {
      var answer := read(cursor);
      if answer.Failure? { return answer; }
      var page := answer.value;
      if Reaches(page, oldest) || !page.hasMore || !Truthy(page.cursor) { return Success(page); }
      cursor := page.cursor;
    }
    return Failure(TooLong);
  }
}
