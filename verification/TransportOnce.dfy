/** At most one message per idempotency key, over every interleaving and every crash. */
module TransportOnce {
  import opened Transport

  /** What a caller past a step knows about the shared files. */
  ghost predicate ThreadFits(s: State, id: nat)
    requires id in s.threads
  {
    var t := s.threads[id];
    var slot := t.call.slot;
    match t.pc
    case Started => true
    case Taken => slot in s.records
    case Loaded(created, record) => Reserved(s, id, created, record)
    case Checked(created, record) => Reserved(s, id, created, record) && Matches(t.call, record)
    case Materialized(created, messageCreated, record) =>
      Reserved(s, id, created, record) && Matches(t.call, record) && (messageCreated ==> Wrote(s, id, record.filename))
    case Done(receipt) =>
      && slot in s.records && slot in s.creator
      && receipt.key == t.call.receiptKey && receipt.filename == s.records[slot].filename
      && Matches(t.call, s.records[slot])
      && (!receipt.deduplicated ==> s.creator[slot] == id && Wrote(s, id, receipt.filename))
    case Refused => slot in s.records && !Matches(t.call, s.records[slot])
    case Collided => slot in s.records && Matches(t.call, s.records[slot])
    case Crashed => true
  }

  ghost predicate Reserved(s: State, id: nat, created: bool, record: Record)
    requires id in s.threads
  {
    var slot := s.threads[id].call.slot;
    slot in s.records && slot in s.creator && s.records[slot] == record && (created ==> s.creator[slot] == id)
  }

  ghost predicate Wrote(s: State, id: nat, filename: string)
    requires id in s.threads
  {
    exists i :: 0 <= i < |s.writes| && s.writes[i].thread == id && s.writes[i].name.filename == filename
  }

  /** Every message file created holds the reserved bytes under the reserved name of a matching call. */
  ghost predicate WriteFits(s: State, w: Write) {
    && w.thread in s.threads
    && var call := s.threads[w.thread].call;
    && call.slot in s.records && Matches(call, s.records[call.slot])
    && w.name == Name(call.owner, s.records[call.slot].filename)
    && w.message == s.records[call.slot].rendered
  }

  ghost predicate Inv(s: State) {
    && s.creator.Keys == s.records.Keys
    && (forall id :: id in s.threads ==> ThreadFits(s, id))
    && (forall i :: 0 <= i < |s.writes| ==> WriteFits(s, s.writes[i]))
  }

  /** Records, creators, calls and writes only ever accumulate. */
  ghost predicate Extends(s: State, s': State) {
    && (forall x :: x in s.records ==> x in s'.records && s'.records[x] == s.records[x])
    && (forall x :: x in s.creator ==> x in s'.creator && s'.creator[x] == s.creator[x])
    && (forall id :: id in s.threads ==> id in s'.threads && s'.threads[id].call == s.threads[id].call)
    && |s.writes| <= |s'.writes| && s'.writes[..|s.writes|] == s.writes
  }

  lemma ReserveExtends(s: State, id: nat)
    requires id in s.threads && s.threads[id].pc.Started? && s.creator.Keys == s.records.Keys
    ensures Extends(s, Reserve(s, id))
  {
    assert s.threads[id].call.slot in s.creator <==> s.threads[id].call.slot in s.records;
  }

  lemma MaterializeExtends(s: State, id: nat)
    requires id in s.threads && s.threads[id].pc.Checked?
    ensures Extends(s, Materialize(s, id))
  {
  }

  lemma AdvanceExtends(s: State, id: nat)
    requires s.creator.Keys == s.records.Keys && Enabled(s, Step(id))
    ensures Extends(s, Advance(s, id))
  {
    match s.threads[id].pc
    case Started => ReserveExtends(s, id);
    case Checked(_, _) => MaterializeExtends(s, id);
    case Taken =>
    case Loaded(_, _) =>
    case Materialized(_, _, _) =>
  }

  lemma ActionExtends(s: State, a: Action)
    requires s.creator.Keys == s.records.Keys && Enabled(s, a)
    ensures Extends(s, Apply(s, a))
  {
    if a.Step? { AdvanceExtends(s, a.id); }
  }

  /** A step moves one caller, and not its call or name. */
  ghost predicate MovesOne(s: State, s': State, id: nat) {
    && id in s.threads && id in s'.threads && s'.threads == s.threads[id := s'.threads[id]]
    && s'.threads[id].call == s.threads[id].call && s'.threads[id].filename == s.threads[id].filename
  }

  lemma StepMovesOne(s: State, id: nat)
    requires Enabled(s, Step(id))
    ensures MovesOne(s, Advance(s, id), id)
  {
    hide Matches, ReceiptOf, Candidate;
  }

  lemma StillFits(s: State, s': State, id: nat)
    requires Inv(s) && Extends(s, s') && id in s.threads && s'.threads[id] == s.threads[id]
    ensures ThreadFits(s', id)
  {
    var t := s.threads[id];
    assert ThreadFits(s, id);
    if t.pc.Materialized? && t.pc.messageCreated { StillWrote(s, s', id, t.pc.record.filename); }
    if t.pc.Done? && !t.pc.receipt.deduplicated { StillWrote(s, s', id, t.pc.receipt.filename); }
  }

  lemma StillWrote(s: State, s': State, id: nat, filename: string)
    requires Extends(s, s') && id in s.threads && Wrote(s, id, filename)
    ensures Wrote(s', id, filename)
  {
    var i :| 0 <= i < |s.writes| && s.writes[i].thread == id && s.writes[i].name.filename == filename;
    assert s'.writes[..|s.writes|][i] == s'.writes[i];
  }

  lemma WritesStillFit(s: State, s': State, i: nat)
    requires Inv(s) && Extends(s, s') && i < |s.writes|
    ensures WriteFits(s', s'.writes[i])
  {
    assert WriteFits(s, s.writes[i]);
    assert s'.writes[..|s.writes|][i] == s'.writes[i];
  }

  /** The caller that moves fits its new position. */
  lemma MoverFits(s: State, id: nat)
    requires Inv(s) && Enabled(s, Step(id))
    ensures ThreadFits(Advance(s, id), id)
  {
    assert ThreadFits(s, id);
    var s' := Advance(s, id);
    var t, t' := s.threads[id], s'.threads[id];
    if t.pc.Checked? && t'.pc.Materialized? && t'.pc.messageCreated {
      var n := |s.writes|;
      assert s'.writes[n].thread == id && s'.writes[n].name.filename == t.pc.record.filename;
    }
    if t.pc.Materialized? && t.pc.messageCreated { StillWrote(s, s', id, t.pc.record.filename); }
  }

  /** A caller that starts or crashes fits too. */
  lemma OtherFits(s: State, a: Action, id: nat)
    requires Enabled(s, a) && !a.Step? && id in Apply(s, a).threads
    requires id in s.threads ==> Apply(s, a).threads[id] != s.threads[id]
    ensures ThreadFits(Apply(s, a), id)
  {
  }

  lemma NewWriteFits(s: State, id: nat)
    requires Inv(s) && Enabled(s, Step(id)) && |Advance(s, id).writes| > |s.writes|
    ensures |Advance(s, id).writes| == |s.writes| + 1
    ensures WriteFits(Advance(s, id), Advance(s, id).writes[|s.writes|])
  {
    assert ThreadFits(s, id);
  }

  lemma KeysStay(s: State, a: Action)
    requires Enabled(s, a) && s.creator.Keys == s.records.Keys
    ensures Apply(s, a).creator.Keys == Apply(s, a).records.Keys
  {
    if a.Step? {
      if s.threads[a.id].pc.Started? { ReserveKeys(s, a.id); } else { OnlyReserveRecords(s, a.id); }
      hide Reserve, Load, Check, Materialize, Return;
    }
  }

  lemma ReserveKeys(s: State, id: nat)
    requires id in s.threads && s.threads[id].pc.Started? && s.creator.Keys == s.records.Keys
    ensures Reserve(s, id).creator.Keys == Reserve(s, id).records.Keys
  {
    hide Candidate;
  }

  lemma OnlyReserveRecords(s: State, id: nat)
    requires Enabled(s, Step(id)) && !s.threads[id].pc.Started?
    ensures Advance(s, id).creator == s.creator && Advance(s, id).records == s.records
  {
    hide Matches, ReceiptOf;
  }

  lemma ChangedFits(s: State, a: Action, id: nat)
    requires Inv(s) && Enabled(s, a) && id in Apply(s, a).threads
    requires id in s.threads ==> Apply(s, a).threads[id] != s.threads[id]
    ensures ThreadFits(Apply(s, a), id)
  {
    hide ThreadFits, Inv, Advance;
    if a.Step? {
      StepMovesOne(s, a.id);
      MoverFits(s, id);
    } else {
      OtherFits(s, a, id);
    }
  }

  lemma FurtherWriteFits(s: State, a: Action, i: nat)
    requires Inv(s) && Enabled(s, a) && |s.writes| <= i < |Apply(s, a).writes|
    ensures WriteFits(Apply(s, a), Apply(s, a).writes[i])
  {
    hide WriteFits, Inv, Advance;
    NewWriteFits(s, a.id);
  }

  lemma StepKeepsInv(s: State, a: Action)
    requires Inv(s) && Enabled(s, a)
    ensures Inv(Apply(s, a))
  {
    hide ThreadFits, WriteFits, Apply, Enabled;
    var s' := Apply(s, a);
    KeysStay(s, a);
    ActionExtends(s, a);
    forall id | id in s'.threads ensures ThreadFits(s', id) {
      if id in s.threads && s'.threads[id] == s.threads[id] { StillFits(s, s', id); } else { ChangedFits(s, a, id); }
    }
    forall i | 0 <= i < |s'.writes| ensures WriteFits(s', s'.writes[i]) {
      if i < |s.writes| { WritesStillFit(s, s', i); } else { FurtherWriteFits(s, a, i); }
    }
  }

  lemma {:induction false} RunKeepsInv(trace: seq<State>, actions: seq<Action>, n: nat)
    requires Run(trace, actions) && n < |trace|
    ensures Inv(trace[n])
  {
    if n > 0 {
      RunKeepsInv(trace, actions, n - 1);
      assert Enabled(trace[n - 1], actions[n - 1]) && trace[n - 1 + 1] == Apply(trace[n - 1], actions[n - 1]);
      StepKeepsInv(trace[n - 1], actions[n - 1]);
    }
  }

  // ----- what callers may rely on -----

  /** All message files ever created for one key have one name and one content. */
  lemma OneMessagePerKey(trace: seq<State>, actions: seq<Action>, n: nat, i: nat, j: nat)
    requires Run(trace, actions) && n < |trace|
    requires i < |trace[n].writes| && j < |trace[n].writes|
    requires var s := trace[n];
             s.writes[i].thread in s.threads && s.writes[j].thread in s.threads
             && s.threads[s.writes[i].thread].call.slot == s.threads[s.writes[j].thread].call.slot
    ensures trace[n].writes[i].name.filename == trace[n].writes[j].name.filename
    ensures trace[n].writes[i].message == trace[n].writes[j].message
  {
    RunKeepsInv(trace, actions, n);
    assert WriteFits(trace[n], trace[n].writes[i]) && WriteFits(trace[n], trace[n].writes[j]);
  }

  /** Successful receipts for one key name one file, and at most one of them is the first. */
  lemma ReceiptsAgree(trace: seq<State>, actions: seq<Action>, n: nat, a: nat, b: nat)
    requires Run(trace, actions) && n < |trace|
    requires a in trace[n].threads && b in trace[n].threads && a != b
    requires trace[n].threads[a].pc.Done? && trace[n].threads[b].pc.Done?
    requires trace[n].threads[a].call.slot == trace[n].threads[b].call.slot
    ensures trace[n].threads[a].pc.receipt.filename == trace[n].threads[b].pc.receipt.filename
    ensures trace[n].threads[a].pc.receipt.deduplicated || trace[n].threads[b].pc.receipt.deduplicated
  {
    RunKeepsInv(trace, actions, n);
    assert ThreadFits(trace[n], a) && ThreadFits(trace[n], b);
  }

  predicate Delivering(pc: Pc) {
    pc.Materialized? || pc.Done?
  }

  /** The reserved message stands in the inbox under its name. */
  ghost predicate Stands(s: State, call: Call, record: Record) {
    var name := Name(call.owner, record.filename);
    name in s.inbox && s.inbox[name] == record.rendered
  }

  /** A caller past materializing has just found or put the message, or was there before. */
  lemma Delivers(s: State, a: Action, id: nat)
    requires Inv(s) && Enabled(s, a) && id in Apply(s, a).threads && Delivering(Apply(s, a).threads[id].pc)
    ensures id in s.threads && s.threads[id].call == Apply(s, a).threads[id].call
    ensures s.threads[id].call.slot in s.records
    ensures Delivering(s.threads[id].pc) || Stands(Apply(s, a), s.threads[id].call, s.records[s.threads[id].call.slot])
  {
    if a == Step(id) { StepDelivers(s, id); } else { OthersDeliver(s, a, id); }
  }

  lemma MaterializeStands(s: State, id: nat)
    requires id in s.threads && s.threads[id].pc.Checked? && Delivering(Materialize(s, id).threads[id].pc)
    ensures Stands(Materialize(s, id), s.threads[id].call, s.threads[id].pc.record)
  {
  }

  lemma StepDelivers(s: State, id: nat)
    requires Inv(s) && Enabled(s, Step(id)) && id in Advance(s, id).threads && Delivering(Advance(s, id).threads[id].pc)
    ensures s.threads[id].call == Advance(s, id).threads[id].call && s.threads[id].call.slot in s.records
    ensures Delivering(s.threads[id].pc) || Stands(Advance(s, id), s.threads[id].call, s.records[s.threads[id].call.slot])
  {
    StepMovesOne(s, id);
    FitsAll(s, id);
    hide Inv, Matches, ReceiptOf, Candidate, Stands;
    if s.threads[id].pc.Checked? { MaterializeStands(s, id); }
  }

  lemma OthersDeliver(s: State, a: Action, id: nat)
    requires Inv(s) && Enabled(s, a) && a != Step(id)
    requires id in Apply(s, a).threads && Delivering(Apply(s, a).threads[id].pc)
    ensures id in s.threads && s.threads[id] == Apply(s, a).threads[id] && s.threads[id].call.slot in s.records
  {
    FitsAll(s, id);
    if a.Step? { StepMovesOne(s, a.id); }
    hide Advance, Inv, Enabled;
  }

  lemma FitsAll(s: State, id: nat)
    requires Inv(s)
    ensures id in s.threads ==> ThreadFits(s, id)
  {
  }

  /** Every successful receipt, deduplicated or not, names a message that stood in the inbox with the reserved bytes. */
  lemma {:induction false} ReceiptWasDelivered(trace: seq<State>, actions: seq<Action>, n: nat, id: nat) returns (m: nat)
    requires Run(trace, actions) && n < |trace| && id in trace[n].threads && Delivering(trace[n].threads[id].pc)
    ensures m <= n && trace[n].threads[id].call.slot in trace[n].records
    ensures Stands(trace[m], trace[n].threads[id].call, trace[n].records[trace[n].threads[id].call.slot])
  {
    assert n > 0;
    RunKeepsInv(trace, actions, n - 1);
    assert Enabled(trace[n - 1], actions[n - 1]) && trace[n - 1 + 1] == Apply(trace[n - 1], actions[n - 1]);
    Delivers(trace[n - 1], actions[n - 1], id);
    ActionExtends(trace[n - 1], actions[n - 1]);
    if Delivering(trace[n - 1].threads[id].pc) {
      m := ReceiptWasDelivered(trace, actions, n - 1, id);
    } else {
      m := n;
    }
  }

  /** A call refused for reusing the key never created a message. */
  lemma RefusedWritesNothing(trace: seq<State>, actions: seq<Action>, n: nat, id: nat, i: nat)
    requires Run(trace, actions) && n < |trace|
    requires id in trace[n].threads && trace[n].threads[id].pc.Refused? && i < |trace[n].writes|
    ensures trace[n].writes[i].thread != id
  {
    RunKeepsInv(trace, actions, n);
    assert ThreadFits(trace[n], id) && WriteFits(trace[n], trace[n].writes[i]);
  }

  /** A reserved record is never replaced. */
  lemma {:induction false} RecordIsForever(trace: seq<State>, actions: seq<Action>, m: nat, n: nat, slot: Slot)
    requires Run(trace, actions) && m <= n < |trace| && slot in trace[m].records
    ensures slot in trace[n].records && trace[n].records[slot] == trace[m].records[slot]
    decreases n
  {
    if m < n {
      RecordIsForever(trace, actions, m, n - 1, slot);
      RunKeepsInv(trace, actions, n - 1);
      assert Enabled(trace[n - 1], actions[n - 1]) && trace[n - 1 + 1] == Apply(trace[n - 1], actions[n - 1]);
      ActionExtends(trace[n - 1], actions[n - 1]);
    }
  }

  // ----- finishing an interrupted publication -----

  /** The record a call ends up with: the one reserved already, or its own. */
  function Kept(records: map<Slot, Record>, call: Call, filename: string): Record {
    if call.slot in records then records[call.slot] else Candidate(call, filename)
  }

  datatype Outcome = Published(receipt: Receipt) | Reused | Clashed

  /** What one undisturbed `publish_once` answers. */
  function Answer(records: map<Slot, Record>, inbox: map<Name, Message>, call: Call, filename: string): Outcome {
    var kept := Kept(records, call, filename);
    var name := Name(call.owner, kept.filename);
    if !Matches(call, kept) then Reused
    else if name in inbox && inbox[name] != kept.rendered then Clashed
    else Published(Receipt(call.receiptKey, kept.filename, call.slot in records || name in inbox))
  }

  /** The inbox afterwards: the reserved bytes under the reserved name, and nothing else new. */
  function Delivered(records: map<Slot, Record>, inbox: map<Name, Message>, call: Call, filename: string): map<Name, Message> {
    var kept := Kept(records, call, filename);
    if Answer(records, inbox, call, filename).Published?
    then inbox[Name(call.owner, kept.filename) := kept.rendered] else inbox
  }

  /** One caller run on its own until it holds a record, and from there to the end. */
  function Fetch(s: State, id: nat): (r: State)
    requires id in s.threads && s.threads[id].pc.Started?
    ensures id in r.threads && r.threads[id].pc.Loaded?
  {
    var a := Reserve(s, id);
    if a.threads[id].pc.Taken? then Load(a, id) else a
  }

  function Finish(s: State, id: nat): (r: State)
    requires id in s.threads && s.threads[id].pc.Loaded?
    ensures id in r.threads && (r.threads[id].pc.Done? || r.threads[id].pc.Refused? || r.threads[id].pc.Collided?)
  {
    var c := Check(s, id);
    if c.threads[id].pc.Refused? then c
    else
      var d := Materialize(c, id);
      if d.threads[id].pc.Collided? then d else Return(d, id)
  }

  function Solo(s: State, id: nat): (r: State)
    requires id in s.threads && s.threads[id].pc.Started?
    ensures id in r.threads && (r.threads[id].pc.Done? || r.threads[id].pc.Refused? || r.threads[id].pc.Collided?)
  {
    Finish(Fetch(s, id), id)
  }

  lemma FetchHolds(s: State, id: nat)
    requires id in s.threads && s.threads[id].pc.Started?
    ensures var t := s.threads[id];
            var kept := Kept(s.records, t.call, t.filename);
            && Fetch(s, id).threads[id] == t.(pc := Loaded(t.call.slot !in s.records, kept))
            && Fetch(s, id).records == s.records[t.call.slot := kept]
            && Fetch(s, id).inbox == s.inbox
  {
    var t := s.threads[id];
    if t.call.slot in s.records { assert s.records == s.records[t.call.slot := s.records[t.call.slot]]; }
  }

  lemma FinishDelivers(s: State, id: nat)
    requires id in s.threads && s.threads[id].pc.Loaded?
    ensures var t := s.threads[id];
            var name := Name(t.call.owner, t.pc.record.filename);
            var s' := Finish(s, id);
            && s'.records == s.records
            && if !Matches(t.call, t.pc.record) then s'.threads[id].pc.Refused? && s'.inbox == s.inbox
               else if name in s.inbox && s.inbox[name] != t.pc.record.rendered then
                 s'.threads[id].pc.Collided? && s'.inbox == s.inbox
               else
                 && s'.threads[id].pc == Done(Receipt(t.call.receiptKey, t.pc.record.filename,
                                                      !t.pc.created || name in s.inbox))
                 && s'.inbox == s.inbox[name := t.pc.record.rendered]
  {
    var name := Name(s.threads[id].call.owner, s.threads[id].pc.record.filename);
    if name in s.inbox { assert s.inbox == s.inbox[name := s.inbox[name]]; }
  }

  function OutcomeOf(pc: Pc): Outcome
    requires pc.Done? || pc.Refused? || pc.Collided?
  {
    if pc.Done? then Published(pc.receipt) else if pc.Refused? then Reused else Clashed
  }

  /**
   A caller left alone is refused exactly when the key was reserved for something else, and fails on
   a collision exactly when other bytes hold the reserved name; otherwise it completes whatever an
   interrupted caller reserved, under the reserved name and with the reserved bytes.
   */
  lemma RetryCompletes(s: State, id: nat)
    requires id in s.threads && s.threads[id].pc.Started?
    ensures var s' := Solo(s, id);
            var t := s.threads[id];
            && OutcomeOf(s'.threads[id].pc) == Answer(s.records, s.inbox, t.call, t.filename)
            && s'.inbox == Delivered(s.records, s.inbox, t.call, t.filename)
            && s'.records == s.records[t.call.slot := Kept(s.records, t.call, t.filename)]
  {
    FetchHolds(s, id);
    FinishDelivers(Fetch(s, id), id);
  }

  /** A second call for a published key answers the first file name, deduplicated, and adds nothing. */
  lemma ReplayIsDeduplicated(records: map<Slot, Record>, inbox: map<Name, Message>, call: Call, f: string, g: string)
    requires Answer(records, inbox, call, f).Published?
    ensures var records' := records[call.slot := Kept(records, call, f)];
            var inbox' := Delivered(records, inbox, call, f);
            && Answer(records', inbox', call, g)
               == Published(Receipt(call.receiptKey, Answer(records, inbox, call, f).receipt.filename, true))
            && Delivered(records', inbox', call, g) == inbox'
            && records'[call.slot := Kept(records', call, g)] == records'
  {
    var records' := records[call.slot := Kept(records, call, f)];
    var inbox' := Delivered(records, inbox, call, f);
    var kept := Kept(records, call, f);
    assert Kept(records', call, g) == kept;
    assert inbox'[Name(call.owner, kept.filename) := kept.rendered] == inbox';
    assert records'[call.slot := kept] == records';
  }

  /** Runs in which one caller alone moves, ending in `s`. */
  ghost predicate AloneTo(trace: seq<State>, actions: seq<Action>, s: State, id: nat) {
    && RunFrom(trace, actions) && trace[|trace| - 1] == s
    && forall i :: 0 <= i < |actions| ==> actions[i] == Step(id)
  }

  lemma AloneStarts(s: State, id: nat)
    ensures AloneTo([s], [], s, id)
  {
  }

  lemma OneMoreStep(trace: seq<State>, actions: seq<Action>, s: State, id: nat)
    returns (trace': seq<State>, actions': seq<Action>)
    requires AloneTo(trace, actions, s, id) && Enabled(s, Step(id))
    ensures AloneTo(trace', actions', Advance(s, id), id) && trace' != [] && trace'[0] == trace[0]
  {
    trace', actions' := trace + [Advance(s, id)], actions + [Step(id)];
  }

  lemma FetchIsARun(s: State, id: nat) returns (trace: seq<State>, actions: seq<Action>)
    requires id in s.threads && s.threads[id].pc.Started?
    ensures AloneTo(trace, actions, Fetch(s, id), id) && trace != [] && trace[0] == s
  {
    hide AloneTo, Candidate;
    AloneStarts(s, id);
    trace, actions := OneMoreStep([s], [], s, id);
    var b := Reserve(s, id);
    if b.threads[id].pc.Taken? { trace, actions := OneMoreStep(trace, actions, b, id); }
  }

  lemma FinishIsARun(trace: seq<State>, actions: seq<Action>, s: State, id: nat)
    returns (trace': seq<State>, actions': seq<Action>)
    requires AloneTo(trace, actions, s, id) && id in s.threads && s.threads[id].pc.Loaded?
    ensures AloneTo(trace', actions', Finish(s, id), id) && trace' != [] && trace'[0] == trace[0]
  {
    hide AloneTo, Matches, ReceiptOf;
    trace', actions' := OneMoreStep(trace, actions, s, id);
    var c := Check(s, id);
    if !c.threads[id].pc.Refused? {
      trace', actions' := OneMoreStep(trace', actions', c, id);
      var d := Materialize(c, id);
      if !d.threads[id].pc.Collided? { trace', actions' := OneMoreStep(trace', actions', d, id); }
    }
  }

  /** A solo run is one of the machine's runs. */
  lemma SoloIsARun(s: State, id: nat) returns (trace: seq<State>, actions: seq<Action>)
    requires id in s.threads && s.threads[id].pc.Started?
    ensures AloneTo(trace, actions, Solo(s, id), id) && trace[0] == s
  {
    hide AloneTo, Fetch, Finish;
    trace, actions := FetchIsARun(s, id);
    trace, actions := FinishIsARun(trace, actions, Fetch(s, id), id);
  }
}
