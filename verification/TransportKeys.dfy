/**
 What reusing a key means, and what a receipt is worth: a key belongs to one request or reply, whole,
 and a caller told "published" has its own words delivered.
 */
module TransportKeys {
  import opened Wrappers
  import opened Transport
  import opened TransportOnce
  import opened TransportStatus
  import opened TransportNames

  // ----- one key, two calls -----

  /** The files after a call, left alone. */
  function RecordsAfter(records: map<Slot, Record>, call: Call, filename: string): map<Slot, Record> {
    records[call.slot := Kept(records, call, filename)]
  }

  /**
   A principal that publishes again under a key it has published under is refused exactly when the
   recipient, the tags or the body differ; otherwise it is answered with the first file.
   */
  lemma PublishAgainIff(records: map<Slot, Record>, inbox: map<Name, Message>, principal: string, key: string,
                        agent: string, tags: map<string, string>, body: string, f: string,
                        agent': string, tags': map<string, string>, body': string, f': string)
    requires Answer(records, inbox, PublishCall(principal, agent, key, tags, body), f).Published?
    ensures var first := PublishCall(principal, agent, key, tags, body);
            var again := PublishCall(principal, agent', key, tags', body');
            var answer := Answer(RecordsAfter(records, first, f), Delivered(records, inbox, first, f), again, f');
            && (answer == Reused <==> agent' != agent || tags' != tags || body' != body)
            && (answer != Reused ==>
                  answer == Published(Receipt(key, Answer(records, inbox, first, f).receipt.filename, true)))
  {
  }

  /** An agent that replies again to a requester's key is refused exactly when the request file, the tags or the body differ. */
  lemma ReplyAgainIff(records: map<Slot, Record>, inbox: map<Name, Message>, agent: string, request: RequestEnvelope,
                      filename: string, tags: map<string, string>, body: string, f: string,
                      filename': string, tags': map<string, string>, body': string, f': string)
    requires Answer(records, inbox, ReplyCall(agent, request, filename, tags, body), f).Published?
    ensures var first := ReplyCall(agent, request, filename, tags, body);
            var again := ReplyCall(agent, request, filename', tags', body');
            var answer := Answer(RecordsAfter(records, first, f), Delivered(records, inbox, first, f), again, f');
            && (answer == Reused <==> filename' != filename || tags' != tags || body' != body)
            && (answer != Reused ==>
                  answer == Published(Receipt(request.key, Answer(records, inbox, first, f).receipt.filename, true)))
  {
  }

  /**
   Whatever stands on disk, a call is refused for its key exactly over a record that differs in version,
   key, sender, recipient or words, and for its name exactly over other bytes under the reserved name.
   */
  lemma RefusedIff(records: map<Slot, Record>, inbox: map<Name, Message>, call: Call, f: string)
    ensures Answer(records, inbox, call, f) == Reused
            <==> call.slot in records && (var r := records[call.slot];
                                          r.version != 1 || r.key != call.slot.key || r.from != call.from
                                          || r.to != call.to || r.envelope != call.envelope)
    ensures Answer(records, inbox, call, f) == Clashed
            <==> && Answer(records, inbox, call, f) != Reused
                 && (if call.slot in records
                     then var r := records[call.slot];
                          Name(call.owner, r.filename) in inbox && inbox[Name(call.owner, r.filename)] != r.rendered
                     else Name(call.owner, f) in inbox && inbox[Name(call.owner, f)] != Rendered(call))
  {
  }

  /** A first call on a free key and a free name is published, not deduplicated, with its own words. */
  lemma FirstIsPublished(records: map<Slot, Record>, inbox: map<Name, Message>, call: Call, f: string)
    requires call.slot !in records && Name(call.owner, f) !in inbox
    ensures Answer(records, inbox, call, f) == Published(Receipt(call.receiptKey, f, false))
    ensures Delivered(records, inbox, call, f)
            == inbox[Name(call.owner, f) := Message(Some(call.from), call.subject, call.inReplyTo, call.tags, call.envelope)]
  {
  }

  // ----- every run: a receipt is for the caller's own words -----

  /** A call that `publish` or `reply` makes, told from what it carries. */
  predicate Formed(call: Call) {
    match call.envelope
    case Request(e) => call == PublishCall(e.from, e.to, e.key, e.tags, e.body)
    case Reply(e) =>
      call == ReplyCall(e.from, RequestEnvelope(REQUEST_VERSION, e.key, call.to, e.from, call.to, map[], ""),
                        e.requestFilename, e.tags, e.body)
    case Text(_) => false
  }

  /** Two such calls on one key with one envelope are one call. */
  lemma SameWordsSameCall(a: Call, b: Call)
    requires Formed(a) && Formed(b) && a.slot == b.slot && a.envelope == b.envelope
    ensures a == b
  {
    if a.envelope.Reply? {
      var tail := ['\0'] + a.envelope.reply.key;
      assert a.slot.key == a.to + tail && b.slot.key == b.to + tail;
      assert a.slot.key[..|a.slot.key| - |tail|] == a.to && b.slot.key[..|b.slot.key| - |tail|] == b.to;
    }
  }

  /** A record is the candidate of the caller that created it. */
  ghost predicate Drafted(s: State, slot: Slot) {
    && slot in s.records && slot in s.creator && s.creator[slot] in s.threads
    && s.threads[s.creator[slot]].call.slot == slot
    && s.records[slot] == Candidate(s.threads[s.creator[slot]].call, s.threads[s.creator[slot]].filename)
  }

  ghost predicate WordsFit(s: State) {
    && (forall id :: id in s.threads ==> Formed(s.threads[id].call))
    && (forall slot :: slot in s.records ==> Drafted(s, slot))
  }

  /** Callers stay as they came, and more may come. */
  ghost predicate CallersStay(s: State, s': State) {
    forall id :: id in s.threads ==> id in s'.threads && s'.threads[id].call == s.threads[id].call
                                     && s'.threads[id].filename == s.threads[id].filename
  }

  lemma StillDrafted(s: State, s': State, slot: Slot)
    requires CallersStay(s, s') && Extends(s, s') && Drafted(s, slot)
    ensures Drafted(s', slot)
  {
  }

  lemma DraftsOwn(s: State, id: nat)
    requires id in s.threads && s.threads[id].pc.Started? && s.threads[id].call.slot !in s.records
    ensures Drafted(Reserve(s, id), s.threads[id].call.slot)
  {
  }

  lemma StartIsFormed(s: State, call: Call)
    requires StartsPublish(call) || StartsReply(s, call)
    ensures Formed(call)
  {
  }

  lemma StepKeepsWords(s: State, id: nat)
    requires s.creator.Keys == s.records.Keys && WordsFit(s) && Enabled(s, Step(id))
    ensures WordsFit(Advance(s, id))
  {
    var s' := Advance(s, id);
    StepMovesOne(s, id);
    AdvanceExtends(s, id);
    hide Formed, Reserve, Load, Check, Materialize, Return, Extends;
    assert CallersStay(s, s');
    forall slot | slot in s'.records ensures Drafted(s', slot) {
      if slot in s.records {
        StillDrafted(s, s', slot);
      } else {
        NewRecord(s, id, slot);
        DraftsOwn(s, id);
      }
    }
  }

  lemma ActionKeepsWords(s: State, a: Action)
    requires s.creator.Keys == s.records.Keys && WordsFit(s) && Enabled(s, a)
    ensures WordsFit(Apply(s, a))
  {
    if a.Step? {
      StepKeepsWords(s, a.id);
    } else {
      if a.Start? { StartIsFormed(s, a.call); }
      ActionExtends(s, a);
      OthersKeepWords(s, a);
    }
  }

  lemma OthersKeepWords(s: State, a: Action)
    requires WordsFit(s) && Enabled(s, a) && !a.Step? && (a.Start? ==> Formed(a.call)) && Extends(s, Apply(s, a))
    ensures WordsFit(Apply(s, a))
  {
    hide Formed, Extends, Drafted, StartsPublish, StartsReply;
    var s' := Apply(s, a);
    assert CallersStay(s, s') && s'.records == s.records;
    forall slot | slot in s'.records ensures Drafted(s', slot) { StillDrafted(s, s', slot); }
  }

  lemma {:induction false} RunKeepsWords(trace: seq<State>, actions: seq<Action>, n: nat)
    requires Run(trace, actions) && n < |trace|
    ensures WordsFit(trace[n])
  {
    hide Drafted, Formed, ThreadFits, WriteFits, Apply, Enabled;
    if n == 0 {
      assert trace[0] == EMPTY;
    } else {
      RunKeepsWords(trace, actions, n - 1);
      RunKeepsInv(trace, actions, n - 1);
      assert Enabled(trace[n - 1], actions[n - 1]) && trace[n - 1 + 1] == Apply(trace[n - 1], actions[n - 1]);
      ActionKeepsWords(trace[n - 1], actions[n - 1]);
    }
  }

  /**
   In every run, a caller told that its message is published, the first or not, has exactly its own
   message in the recipient's inbox at some point before: sender, subject, tags, thread and words.
   */
  lemma ReceiptIsForOwnWords(trace: seq<State>, actions: seq<Action>, n: nat, id: nat) returns (m: nat)
    requires Run(trace, actions) && n < |trace| && id in trace[n].threads && trace[n].threads[id].pc.Done?
    ensures var t := trace[n].threads[id];
            var name := Name(t.call.owner, t.pc.receipt.filename);
            && m <= n && t.pc.receipt.key == t.call.receiptKey && name in trace[m].inbox
            && trace[m].inbox[name]
               == Message(Some(t.call.from), t.call.subject, t.call.inReplyTo, t.call.tags, t.call.envelope)
  {
    m := ReceiptWasDelivered(trace, actions, n, id);
    RunKeepsWords(trace, actions, n);
    RunKeepsInv(trace, actions, n);
    var s := trace[n];
    var slot := s.threads[id].call.slot;
    FitsAll(s, id);
    assert Drafted(s, slot);
    SameWordsSameCall(s.threads[id].call, s.threads[s.creator[slot]].call);
  }

  /** And a caller refused for its key said something else than the record it met. */
  lemma RefusedSaidOther(trace: seq<State>, actions: seq<Action>, n: nat, id: nat)
    requires Run(trace, actions) && n < |trace| && id in trace[n].threads && trace[n].threads[id].pc.Refused?
    ensures var t := trace[n].threads[id];
            && t.call.slot in trace[n].records && trace[n].records[t.call.slot].envelope != t.call.envelope
  {
    RunKeepsInv(trace, actions, n);
    RunKeepsWords(trace, actions, n);
    var s := trace[n];
    var slot := s.threads[id].call.slot;
    FitsAll(s, id);
    assert Drafted(s, slot);
    if s.records[slot].envelope == s.threads[id].call.envelope {
      SameWordsSameCall(s.threads[id].call, s.threads[s.creator[slot]].call);
    }
  }

  // ----- from a reply to its status -----

  /** A request as `publish` writes it is one that `reply` answers. */
  lemma PublishedIsAnswerable(principal: string, agent: string, key: string, tags: map<string, string>, body: string)
    ensures var m := Rendered(PublishCall(principal, agent, key, tags, body));
            && IsRequest(m) && m.body.request.version == REQUEST_VERSION && m.body.request.to == agent
            && m.body.request.replyTo == principal && m.body.request.key == key
            && m.body.request.tags == tags && m.body.request.body == body
  {
  }

  /** And one in which any mark of a request is missing or disagrees is not. */
  lemma ForgedIsRefused(m: Message)
    requires IsRequest(m)
    ensures forall from | from != m.from :: !IsRequest(m.(from := from))
    ensures forall filename :: !IsRequest(m.(inReplyTo := Some(filename)))
    ensures forall tags | "st2-request" !in tags :: !IsRequest(m.(tags := tags))
    ensures forall reply :: !IsRequest(m.(body := Reply(reply)))
    ensures forall text :: !IsRequest(m.(body := Text(text)))
    ensures forall to | to != m.body.request.replyTo :: !IsRequest(m.(body := Request(m.body.request.(replyTo := to))))
    ensures forall from | from != m.body.request.from :: !IsRequest(m.(body := Request(m.body.request.(from := from))))
  {
  }

  /** A reply as `reply` writes it answers the request it names. */
  lemma ReplyAnswers(agent: string, request: RequestEnvelope, filename: string, tags: map<string, string>, body: string,
                     record: Record)
    requires record.filename == filename && record.to == agent
    ensures IsReplyTo(Rendered(ReplyCall(agent, request, filename, tags, body)), record, request.key)
  {
  }

  /** And one in which any mark of that reply is missing or disagrees does not. */
  lemma ForgedIsNoReply(m: Message, record: Record, key: string)
    requires IsReplyTo(m, record, key)
    ensures forall from | from != m.from :: !IsReplyTo(m.(from := from), record, key)
    ensures forall name | name != Some(record.filename) :: !IsReplyTo(m.(inReplyTo := name), record, key)
    ensures forall tags | "st2-request-reply" !in tags :: !IsReplyTo(m.(tags := tags), record, key)
    ensures forall request :: !IsReplyTo(m.(body := Request(request)), record, key)
    ensures forall text :: !IsReplyTo(m.(body := Text(text)), record, key)
    ensures forall v | v != 1 :: !IsReplyTo(m.(body := Reply(m.body.reply.(version := v))), record, key)
    ensures forall k | k != key :: !IsReplyTo(m.(body := Reply(m.body.reply.(key := k))), record, key)
    ensures forall f | f != record.filename :: !IsReplyTo(m.(body := Reply(m.body.reply.(requestFilename := f))), record, key)
    ensures forall a | a != record.to :: !IsReplyTo(m.(body := Reply(m.body.reply.(from := a)), from := Some(a)), record, key)
  {
  }

  /** `status` is pending exactly when no listed message answers, and tells a listed answer otherwise. */
  lemma StatusTells(record: Record, key: string, inbox: seq<Message>, archive: seq<Message>)
    ensures StatusOf(record, key, inbox, archive) == Pending(record.filename)
            <==> forall m :: m in inbox || m in archive ==> !IsReplyTo(m, record, key)
    ensures var status := StatusOf(record, key, inbox, archive);
            status.Replied? ==> exists m :: (m in inbox || m in archive) && IsReplyTo(m, record, key)
                                            && status == Replied(record.filename, m.body.reply.from, m.body.reply.tags,
                                                                 m.body.reply.body)
  {
    CollectMembers(inbox, record, key);
    CollectMembers(archive, record, key);
    var replies := Collect(inbox, record, key) + Collect(archive, record, key);
    DedupKeepsEnds(replies);
    if replies != [] { assert replies[0] in replies; }
    if m :| (m in inbox || m in archive) && IsReplyTo(m, record, key) { assert m.body.reply in replies; }
  }

  /**
   In every run with fresh names: once an agent's reply to a request has been published, every later
   `status` of that request reports it, with that agent, those tags and those words.
   */
  lemma ReplyIsReported(trace: seq<State>, actions: seq<Action>, k: nat, id: nat, m: nat, n: nat,
                        agent: string, request: RequestEnvelope, filename: string, tags: map<string, string>, body: string,
                        record: Record, inbox: seq<Message>, archive: seq<Message>)
    requires Scan(trace, actions, m, n, request.replyTo, inbox, archive) && FreshNames(trace, actions) && k <= m
    requires id in trace[k].threads && trace[k].threads[id].pc.Done?
    requires trace[k].threads[id].call == ReplyCall(agent, request, filename, tags, body)
    requires record.filename == filename && record.to == agent
    ensures StatusOf(record, request.key, inbox, archive) == Replied(filename, agent, tags, body)
  {
    var call := ReplyCall(agent, request, filename, tags, body);
    var at := ReceiptIsForOwnWords(trace, actions, k, id);
    var name := Name(request.replyTo, trace[k].threads[id].pc.receipt.filename);
    assert Present(trace[at], name, Rendered(call));
    PresentIsListed(trace, actions, at, m, n, inbox, archive, name, Rendered(call));
    ReplyAnswers(agent, request, filename, tags, body, record);
    ListedReplyReported(trace, actions, m, n, request.replyTo, inbox, archive, record, request.key, Rendered(call));
  }
}
