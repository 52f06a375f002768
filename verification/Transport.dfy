/**
 The idempotent request/reply transport of `src/request.rs`, as a machine of any number of
 concurrent callers that may crash between any two file operations.

 A record file is named by the SHA-256 of its key, taken to be injective, so a record slot is its
 directory and key. JSON encoding is taken to be faithful, so envelopes are values. Creating a
 record and materializing a message are single atomic steps that report whether they created.
 */
module Transport {
  import opened Wrappers

  const REQUEST_VERSION := 1
  const REQUEST_TAG := "st2-request"
  const REPLY_TAG := "st2-request-reply"

  datatype RequestEnvelope = RequestEnvelope(version: int, key: string, from: string, to: string,
                                             replyTo: string, tags: map<string, string>, body: string)

  datatype ReplyEnvelope = ReplyEnvelope(version: int, key: string, requestFilename: string,
                                         from: string, tags: map<string, string>, body: string)

  datatype Envelope = Request(request: RequestEnvelope) | Reply(reply: ReplyEnvelope) | Text(text: string)

  datatype Message = Message(from: Option<string>, subject: Option<string>, inReplyTo: Option<string>,
                             tags: seq<string>, body: Envelope)

  datatype Record = Record(version: int, key: string, from: string, to: string,
                           filename: string, envelope: Envelope, rendered: Message)

  datatype Receipt = Receipt(key: string, filename: string, deduplicated: bool)

  /** Where the records of a principal's requests and of an agent's replies live. */
  datatype Dir = Outgoing(principal: string) | Replies(agent: string)

  datatype Slot = Slot(dir: Dir, key: string)

  datatype Name = Name(owner: string, filename: string)

  /** The arguments of one `publish_once` call; `owner` is whose inbox it delivers to. */
  datatype Call = Call(slot: Slot, receiptKey: string, from: string, to: string, envelope: Envelope,
                       owner: string, subject: Option<string>, inReplyTo: Option<string>, tags: seq<string>)

  datatype Pc =
    | Started
    | Taken
    | Loaded(created: bool, record: Record)
    | Checked(created: bool, record: Record)
    | Materialized(created: bool, messageCreated: bool, record: Record)
    | Done(receipt: Receipt)
    | Refused
    | Collided
    | Crashed

  datatype Thread = Thread(call: Call, filename: string, pc: Pc)

  /** One message file created in an inbox, and by whom. */
  datatype Write = Write(thread: nat, name: Name, message: Message)

  /** The files, the callers, and two history variables: who created each record and message. */
  datatype State = State(records: map<Slot, Record>, inbox: map<Name, Message>, archive: map<Name, Message>,
                         threads: map<nat, Thread>, creator: map<Slot, nat>, writes: seq<Write>)

  function Rendered(call: Call): Message {
    Message(Some(call.from), call.subject, call.inReplyTo, call.tags, call.envelope)
  }

  function Candidate(call: Call, filename: string): Record {
    Record(REQUEST_VERSION, call.slot.key, call.from, call.to, filename, call.envelope, Rendered(call))
  }

  predicate Matches(call: Call, record: Record) {
    && record.version == REQUEST_VERSION
    && record.key == call.slot.key
    && record.from == call.from
    && record.to == call.to
    && record.envelope == call.envelope
  }

  function ReceiptOf(call: Call, created: bool, messageCreated: bool, record: Record): Receipt {
    Receipt(call.receiptKey, record.filename, !created || !messageCreated)
  }

  // ----- one caller's next file operation -----

  /** `atomic_create`: reserve the record, or learn that the slot is taken. */
  function Reserve(s: State, id: nat): State
    requires id in s.threads && s.threads[id].pc.Started?
  {
    var t := s.threads[id];
    if t.call.slot in s.records then s.(threads := s.threads[id := t.(pc := Taken)])
    else
      var record := Candidate(t.call, t.filename);
      s.(records := s.records[t.call.slot := record], creator := s.creator[t.call.slot := id],
         threads := s.threads[id := t.(pc := Loaded(true, record))])
  }

  /** Read back the record another call reserved. */
  function Load(s: State, id: nat): State
    requires id in s.threads && s.threads[id].pc.Taken? && s.threads[id].call.slot in s.records
  {
    var t := s.threads[id];
    s.(threads := s.threads[id := t.(pc := Loaded(false, s.records[t.call.slot]))])
  }

  function Check(s: State, id: nat): State
    requires id in s.threads && s.threads[id].pc.Loaded?
  {
    var t := s.threads[id];
    var pc := if Matches(t.call, t.pc.record) then Checked(t.pc.created, t.pc.record) else Refused;
    s.(threads := s.threads[id := t.(pc := pc)])
  }

  /** `materialize_message_once`: the same bytes again are success, other bytes are an error. */
  function Materialize(s: State, id: nat): State
    requires id in s.threads && s.threads[id].pc.Checked?
  {
    var t := s.threads[id];
    var record := t.pc.record;
    var name := Name(t.call.owner, record.filename);
    if name !in s.inbox then
      s.(inbox := s.inbox[name := record.rendered],
         writes := s.writes + [Write(id, name, record.rendered)],
         threads := s.threads[id := t.(pc := Materialized(t.pc.created, true, record))])
    else if s.inbox[name] == record.rendered then
      s.(threads := s.threads[id := t.(pc := Materialized(t.pc.created, false, record))])
    else s.(threads := s.threads[id := t.(pc := Collided)])
  }

  function Return(s: State, id: nat): State
    requires id in s.threads && s.threads[id].pc.Materialized?
  {
    var t := s.threads[id];
    s.(threads := s.threads[id := t.(pc := Done(ReceiptOf(t.call, t.pc.created, t.pc.messageCreated, t.pc.record)))])
  }

  predicate Running(pc: Pc) {
    pc.Started? || pc.Taken? || pc.Loaded? || pc.Checked? || pc.Materialized?
  }

  /** The running caller's next step; a record once created is never removed. */
  function Advance(s: State, id: nat): State
    requires id in s.threads && Running(s.threads[id].pc)
    requires s.threads[id].pc.Taken? ==> s.threads[id].call.slot in s.records
  {
    match s.threads[id].pc
    case Started => Reserve(s, id)
    case Taken => Load(s, id)
    case Loaded(_, _) => Check(s, id)
    case Checked(_, _) => Materialize(s, id)
    case Materialized(_, _, _) => Return(s, id)
  }

  function Crash(s: State, id: nat): State
    requires id in s.threads
  {
    s.(threads := s.threads[id := s.threads[id].(pc := Crashed)])
  }

  // ----- the calls that exist -----

  function PublishCall(principal: string, agent: string, key: string,
                       tags: map<string, string>, body: string): Call
  {
    Call(Slot(Outgoing(principal), key), key, principal, agent,
         Request(RequestEnvelope(REQUEST_VERSION, key, principal, agent, principal, tags, body)),
         agent, Some("request " + key), None, [REQUEST_TAG])
  }

  /** The reply key: the reply target and the request key joined by NUL. */
  function StateKey(replyTo: string, key: string): string {
    replyTo + ['\0'] + key
  }

  function ReplyCall(agent: string, request: RequestEnvelope, filename: string,
                     tags: map<string, string>, body: string): Call
  {
    Call(Slot(Replies(agent), StateKey(request.replyTo, request.key)), request.key, agent, request.replyTo,
         Reply(ReplyEnvelope(REQUEST_VERSION, request.key, filename, agent, tags, body)),
         request.replyTo, Some("re: request " + request.key), Some(filename), [REPLY_TAG])
  }

  /** `parse_request_message`. */
  predicate IsRequest(message: Message) {
    && message.body.Request?
    && message.body.request.from == message.body.request.replyTo
    && message.from == Some(message.body.request.from)
    && REQUEST_TAG in message.tags
    && message.inReplyTo == None
  }

  /** `read_inbox_or_archive`. */
  function Find(s: State, name: Name): Option<Message> {
    if name in s.inbox then Some(s.inbox[name])
    else if name in s.archive then Some(s.archive[name]) else None
  }

  ghost predicate StartsPublish(call: Call) {
    exists principal, agent, key, tags, body ::
      key != "" && call == PublishCall(principal, agent, key, tags, body)
  }

  ghost predicate StartsReply(s: State, call: Call) {
    exists agent, filename, tags, body ::
      && var found := Find(s, Name(agent, filename));
      && found.Some? && IsRequest(found.value)
      && found.value.body.request.version == REQUEST_VERSION && found.value.body.request.to == agent
      && call == ReplyCall(agent, found.value.body.request, filename, tags, body)
  }

  // ----- the machine -----

  datatype Action =
    | Start(id: nat, call: Call, filename: string)
    | Step(id: nat)
    | Die(id: nat)
    | File(name: Name)
    | Deliver(name: Name, message: Message)

  /** `archive_msg`: the archived copy wins over a duplicate left in the inbox. */
  function Archive(s: State, name: Name): State
    requires name in s.inbox
  {
    s.(inbox := s.inbox - {name},
       archive := if name in s.archive then s.archive else s.archive[name := s.inbox[name]])
  }

  ghost predicate Enabled(s: State, a: Action) {
    match a
    case Start(id, call, _) => id !in s.threads && (StartsPublish(call) || StartsReply(s, call))
    case Step(id) => id in s.threads && Running(s.threads[id].pc)
                     && (s.threads[id].pc.Taken? ==> s.threads[id].call.slot in s.records)
    case Die(id) => id in s.threads && Running(s.threads[id].pc)
    case File(name) => name in s.inbox
    case Deliver(name, message) => name !in s.inbox && REPLY_TAG !in message.tags
  }

  ghost function Apply(s: State, a: Action): State
    requires Enabled(s, a)
  {
    match a
    case Start(id, call, filename) => s.(threads := s.threads[id := Thread(call, filename, Started)])
    case Step(id) => Advance(s, id)
    case Die(id) => Crash(s, id)
    case File(name) => Archive(s, name)
    case Deliver(name, message) => s.(inbox := s.inbox[name := message])
  }

  const EMPTY := State(map[], map[], map[], map[], map[], [])

  ghost predicate RunFrom(trace: seq<State>, actions: seq<Action>) {
    && |trace| == |actions| + 1
    && forall i :: 0 <= i < |actions| ==> Enabled(trace[i], actions[i]) && trace[i + 1] == Apply(trace[i], actions[i])
  }

  ghost predicate Run(trace: seq<State>, actions: seq<Action>) {
    RunFrom(trace, actions) && trace[0] == EMPTY
  }
}
