/**
 Message file names are random and fresh. In every run in which they are, a reply once seen by
 `status` is seen ever after; a name used twice can lose one, and exactly how is shown.
 */
module TransportNames {
  import opened Wrappers
  import opened Transport
  import opened TransportOnce
  import opened TransportStatus

  /** `filename` is new: no caller drew it and no box has a message of that name. */
  ghost predicate Unused(s: State, filename: string) {
    && (forall id :: id in s.threads ==> s.threads[id].filename != filename)
    && (forall name :: name in s.inbox ==> name.filename != filename)
    && (forall name :: name in s.archive ==> name.filename != filename)
  }

  /** A caller draws a new name; any other message comes under a name no caller drew and no archive holds. */
  ghost predicate DrawsFresh(s: State, a: Action) {
    match a
    case Start(_, _, filename) => Unused(s, filename)
    case Deliver(name, _) => name !in s.archive && forall id :: id in s.threads ==> s.threads[id].filename != name.filename
    case _ => true
  }

  ghost predicate FreshNames(trace: seq<State>, actions: seq<Action>)
    requires RunFrom(trace, actions)
  {
    forall i :: 0 <= i < |actions| ==> DrawsFresh(trace[i], actions[i])
  }

  /** The caller that reserved a record, and its name. */
  ghost predicate Reserver(s: State, slot: Slot) {
    && slot in s.records && slot in s.creator && s.creator[slot] in s.threads
    && s.threads[s.creator[slot]].call.slot == slot
    && s.threads[s.creator[slot]].filename == s.records[slot].filename
  }

  /** A message under a caller's name is the one that caller reserved. */
  ghost predicate Belongs(s: State, name: Name, m: Message) {
    forall id :: id in s.threads && s.threads[id].filename == name.filename ==>
      var slot := s.threads[id].call.slot;
      slot in s.records && slot in s.creator && s.creator[slot] == id && s.records[slot].rendered == m
  }

  ghost predicate Drawn(s: State, filename: string) {
    exists id :: id in s.threads && s.threads[id].filename == filename
  }

  ghost predicate NamesFit(s: State) {
    && (forall id, other :: id in s.threads && other in s.threads && id != other ==>
          s.threads[id].filename != s.threads[other].filename)
    && (forall slot :: slot in s.records ==> Reserver(s, slot))
    && (forall name :: name in s.inbox ==> Belongs(s, name, s.inbox[name]))
    && (forall name :: name in s.archive ==> Belongs(s, name, s.archive[name]))
    && (forall name :: name in s.inbox && name in s.archive ==> Drawn(s, name.filename))
  }

  /** So filing never meets another message of the same name. */
  lemma FilingAgrees(s: State, name: Name)
    requires NamesFit(s) && name in s.inbox && name in s.archive
    ensures s.archive[name] == s.inbox[name]
  {
    var id :| id in s.threads && s.threads[id].filename == name.filename;
    assert Belongs(s, name, s.inbox[name]) && Belongs(s, name, s.archive[name]);
  }

  /** Calls and names of callers stay, and records with their creators. */
  ghost predicate SameCallers(s: State, s': State) {
    && s'.threads.Keys == s.threads.Keys
    && (forall id :: id in s.threads ==> s'.threads[id].call == s.threads[id].call
                                         && s'.threads[id].filename == s.threads[id].filename)
  }

  lemma StillBelongs(s: State, s': State, name: Name, m: Message)
    requires SameCallers(s, s') && Extends(s, s') && Belongs(s, name, m)
    ensures Belongs(s', name, m)
  {
  }

  lemma StillReserver(s: State, s': State, slot: Slot)
    requires SameCallers(s, s') && Extends(s, s') && Reserver(s, slot)
    ensures Reserver(s', slot)
  {
  }

  lemma StepKeepsCallers(s: State, id: nat)
    requires Enabled(s, Step(id))
    ensures SameCallers(s, Advance(s, id))
  {
    StepMovesOne(s, id);
    hide Advance;
  }

  /** A message a caller materializes is the one reserved under its name. */
  lemma DeliveredBelongs(s: State, id: nat)
    requires Inv(s) && NamesFit(s) && id in s.threads && s.threads[id].pc.Checked?
    ensures var t := s.threads[id];
            && Belongs(s, Name(t.call.owner, t.pc.record.filename), t.pc.record.rendered)
            && Drawn(s, t.pc.record.filename)
  {
    assert ThreadFits(s, id);
    assert Reserver(s, s.threads[id].call.slot);
  }

  /** A step that adds a record reserves the mover's own. */
  lemma NewRecord(s: State, id: nat, slot: Slot)
    requires Enabled(s, Step(id)) && slot in Advance(s, id).records && slot !in s.records
    ensures s.threads[id].pc.Started? && s.threads[id].call.slot == slot
  {
    hide Matches, ReceiptOf;
  }

  lemma Reserves(s: State, id: nat)
    requires id in s.threads && s.threads[id].pc.Started? && s.threads[id].call.slot !in s.records
    ensures Reserver(Reserve(s, id), s.threads[id].call.slot)
  {
  }

  lemma ReservedBy(s: State, s': State, id: nat, slot: Slot)
    requires Inv(s) && NamesFit(s) && Enabled(s, Step(id)) && s' == Advance(s, id) && slot in s'.records
    ensures Reserver(s', slot)
  {
    hide ThreadFits, WriteFits, Reserve, Load, Check, Materialize, Return;
    if slot in s.records {
      StepKeepsCallers(s, id);
      AdvanceExtends(s, id);
      StillReserver(s, s', slot);
    } else {
      NewRecord(s, id, slot);
      Reserves(s, id);
    }
  }

  lemma StepKeepsNames(s: State, id: nat)
    requires Inv(s) && NamesFit(s) && Enabled(s, Step(id))
    ensures NamesFit(Advance(s, id))
  {
    var s' := Advance(s, id);
    StepKeepsCallers(s, id);
    AdvanceExtends(s, id);
    AdvanceTouches(s, id);
    forall slot | slot in s'.records ensures Reserver(s', slot) { ReservedBy(s, s', id, slot); }
    forall name | name in s'.inbox
      ensures Belongs(s', name, s'.inbox[name]) && (name in s'.archive ==> Drawn(s', name.filename))
    {
      InboxBelongs(s, s', id, name);
    }
    forall name | name in s'.archive ensures Belongs(s', name, s'.archive[name]) {
      StillBelongs(s, s', name, s.archive[name]);
    }
  }

  lemma StillDrawn(s: State, s': State, filename: string)
    requires SameCallers(s, s') && Drawn(s, filename)
    ensures Drawn(s', filename)
  {
    var id :| id in s.threads && s.threads[id].filename == filename;
    assert id in s'.threads;
  }

  lemma InboxBelongs(s: State, s': State, id: nat, name: Name)
    requires Inv(s) && NamesFit(s) && id in s.threads && Touches(s, s', id) && SameCallers(s, s') && Extends(s, s')
    requires name in s'.inbox
    ensures Belongs(s', name, s'.inbox[name]) && (name in s'.archive ==> Drawn(s', name.filename))
  {
    hide Belongs, Reserver, Inv;
    if name in s.inbox && s'.inbox[name] == s.inbox[name] {
      StillBelongs(s, s', name, s.inbox[name]);
      if name in s.archive { StillDrawn(s, s', name.filename); }
    } else {
      DeliveredBelongs(s, id);
      StillBelongs(s, s', name, s'.inbox[name]);
      StillDrawn(s, s', name.filename);
    }
  }

  lemma ActionKeepsNames(s: State, a: Action)
    requires Inv(s) && NamesFit(s) && Enabled(s, a) && DrawsFresh(s, a)
    ensures NamesFit(Apply(s, a))
  {
    match a
    case Step(id) => StepKeepsNames(s, id);
    case Start(id, _, _) => StartKeepsNames(s, a);
    case Die(id) => DieKeepsNames(s, id);
    case File(name) => FileKeepsNames(s, name);
    case Deliver(name, message) => DeliverKeepsNames(s, name, message);
  }

  lemma StartKeepsNames(s: State, a: Action)
    requires NamesFit(s) && a.Start? && Enabled(s, a) && DrawsFresh(s, a)
    ensures NamesFit(Apply(s, a))
  {
    var s' := Apply(s, a);
    forall slot | slot in s'.records ensures Reserver(s', slot) { assert Reserver(s, slot); }
    forall name | name in s'.inbox ensures Belongs(s', name, s'.inbox[name]) { assert Belongs(s, name, s.inbox[name]); }
    forall name | name in s'.archive ensures Belongs(s', name, s'.archive[name]) { assert Belongs(s, name, s.archive[name]); }
    forall name | name in s'.inbox && name in s'.archive ensures Drawn(s', name.filename) {
      var id :| id in s.threads && s.threads[id].filename == name.filename;
      assert id in s'.threads && s'.threads[id].filename == name.filename;
    }
  }

  lemma DieKeepsNames(s: State, id: nat)
    requires NamesFit(s) && Enabled(s, Die(id))
    ensures NamesFit(Crash(s, id))
  {
    var s' := Crash(s, id);
    assert SameCallers(s, s');
    forall slot | slot in s'.records ensures Reserver(s', slot) { assert Reserver(s, slot); }
    forall name | name in s'.inbox ensures Belongs(s', name, s'.inbox[name]) { assert Belongs(s, name, s.inbox[name]); }
    forall name | name in s'.archive ensures Belongs(s', name, s'.archive[name]) { assert Belongs(s, name, s.archive[name]); }
    forall name | name in s'.inbox && name in s'.archive ensures Drawn(s', name.filename) {
      StillDrawn(s, s', name.filename);
    }
  }

  lemma FileKeepsNames(s: State, name: Name)
    requires NamesFit(s) && name in s.inbox
    ensures NamesFit(Archive(s, name))
  {
    var s' := Archive(s, name);
    forall slot | slot in s'.records ensures Reserver(s', slot) { assert Reserver(s, slot); }
    forall other | other in s'.inbox ensures Belongs(s', other, s'.inbox[other]) { assert Belongs(s, other, s.inbox[other]); }
    forall other | other in s'.archive ensures Belongs(s', other, s'.archive[other]) {
      if other in s.archive { assert Belongs(s, other, s.archive[other]); } else { assert Belongs(s, other, s.inbox[other]); }
    }
    forall other | other in s'.inbox && other in s'.archive ensures Drawn(s', other.filename) {
      assert Drawn(s, other.filename);
    }
  }

  lemma DeliverKeepsNames(s: State, name: Name, message: Message)
    requires NamesFit(s) && Enabled(s, Deliver(name, message)) && DrawsFresh(s, Deliver(name, message))
    ensures NamesFit(s.(inbox := s.inbox[name := message]))
  {
    var s' := s.(inbox := s.inbox[name := message]);
    forall slot | slot in s'.records ensures Reserver(s', slot) { assert Reserver(s, slot); }
    forall other | other in s'.inbox ensures Belongs(s', other, s'.inbox[other]) {
      if other != name { assert Belongs(s, other, s.inbox[other]); }
    }
    forall other | other in s'.archive ensures Belongs(s', other, s'.archive[other]) { assert Belongs(s, other, s.archive[other]); }
    forall other | other in s'.inbox && other in s'.archive ensures Drawn(s', other.filename) {
      assert Drawn(s, other.filename);
    }
  }

  lemma NoNames()
    ensures NamesFit(EMPTY)
  {
  }

  lemma {:induction false} RunKeepsNames(trace: seq<State>, actions: seq<Action>, n: nat)
    requires Run(trace, actions) && FreshNames(trace, actions) && n < |trace|
    ensures NamesFit(trace[n])
  {
    hide NamesFit, DrawsFresh, Inv;
    if n == 0 {
      NoNames();
    } else {
      RunKeepsNames(trace, actions, n - 1);
      RunKeepsInv(trace, actions, n - 1);
      assert Enabled(trace[n - 1], actions[n - 1]) && trace[n - 1 + 1] == Apply(trace[n - 1], actions[n - 1]);
      assert DrawsFresh(trace[n - 1], actions[n - 1]);
      ActionKeepsNames(trace[n - 1], actions[n - 1]);
    }
  }

  /** Fresh names never meet in an archive. */
  lemma FreshNamesAgree(trace: seq<State>, actions: seq<Action>)
    requires Run(trace, actions) && FreshNames(trace, actions)
    ensures NamesAgree(trace, actions)
  {
    forall i | 0 <= i < |actions| && actions[i].File?
      ensures actions[i].name in trace[i].archive ==> trace[i].archive[actions[i].name] == trace[i].inbox[actions[i].name]
    {
      RunKeepsNames(trace, actions, i);
      assert Enabled(trace[i], actions[i]);
      if actions[i].name in trace[i].archive { FilingAgrees(trace[i], actions[i].name); }
    }
  }

  /** A reply present before a scan starts is listed by it, however it moves between the two listings. */
  lemma PresentIsListed(trace: seq<State>, actions: seq<Action>, k: nat, m: nat, n: nat,
                        inbox: seq<Message>, archive: seq<Message>, name: Name, x: Message)
    requires Scan(trace, actions, m, n, name.owner, inbox, archive) && FreshNames(trace, actions)
    requires k <= m && Present(trace[k], name, x)
    ensures x in inbox || x in archive
  {
    FreshNamesAgree(trace, actions);
    ListedWhileAgreeing(trace, actions, k, m, n, inbox, archive, name, x);
  }

  /** In every run with fresh names: once `Replied`, always `Replied` with the same sender, tags and body. */
  lemma RepliedStays(trace: seq<State>, actions: seq<Action>, owner: string, record: Record, key: string,
                     m: nat, n: nat, inbox: seq<Message>, archive: seq<Message>,
                     m': nat, n': nat, inbox': seq<Message>, archive': seq<Message>)
    requires Scan(trace, actions, m, n, owner, inbox, archive)
    requires Scan(trace, actions, m', n', owner, inbox', archive')
    requires FreshNames(trace, actions) && n <= m'
    requires StatusOf(record, key, inbox, archive).Replied?
    ensures StatusOf(record, key, inbox', archive') == StatusOf(record, key, inbox, archive)
  {
    FreshNamesAgree(trace, actions);
    RepliedWhileAgreeing(trace, actions, owner, record, key, m, n, inbox, archive, m', n', inbox', archive');
  }

  // ----- what a name used twice does -----

  /** The only reply to the request in the owner's boxes is `x`, in the inbox as `name`, and perhaps archived as `name`. */
  ghost predicate OnlyReply(s: State, name: Name, x: Message, record: Record, key: string) {
    && name in s.inbox && s.inbox[name] == x && IsReplyTo(x, record, key)
    && (forall n :: n in s.inbox && n.owner == name.owner && IsReplyTo(s.inbox[n], record, key) ==> n == name)
    && (forall n :: n in s.archive && n.owner == name.owner && IsReplyTo(s.archive[n], record, key) ==>
          n == name && s.archive[n] == x)
  }

  lemma {:induction false} NothingCollected(list: seq<Message>, record: Record, key: string)
    requires forall i :: 0 <= i < |list| ==> !IsReplyTo(list[i], record, key)
    ensures Collect(list, record, key) == []
  {
    if list != [] { NothingCollected(list[..|list| - 1], record, key); }
  }

  /**
   Whatever its name: archiving the one reply to a request leaves `status` reporting it exactly when
   no other bytes are archived under that name; otherwise the request is pending again.
   */
  lemma FilingKeepsStatusIff(trace: seq<State>, actions: seq<Action>, n: nat, name: Name, record: Record, key: string,
                             inbox: seq<Message>, archive: seq<Message>)
    requires Scan(trace, actions, n, n, name.owner, inbox, archive) && n > 0
    requires var s := trace[n - 1];
             && name in s.inbox && actions[n - 1] == File(name) && OnlyReply(s, name, s.inbox[name], record, key)
    ensures var s := trace[n - 1];
            var kept := name in s.archive ==> s.archive[name] == s.inbox[name];
            && (StatusOf(record, key, inbox, archive).Replied? <==> kept)
            && (StatusOf(record, key, inbox, archive) == Pending(record.filename) <==> !kept)
  {
    var s, s' := trace[n - 1], trace[n];
    var x := s.inbox[name];
    assert Enabled(trace[n - 1], actions[n - 1]) && trace[n - 1 + 1] == Apply(trace[n - 1], actions[n - 1]);
    assert s' == Archive(s, name);
    if name in s.archive ==> s.archive[name] == x {
      assert s'.archive[name] == x && x in archive;
      ListedReplyReported(trace, actions, n, n, name.owner, inbox, archive, record, key, x);
    } else {
      LostReply(s, s', name, record, key, inbox, archive);
    }
  }

  lemma LostReply(s: State, s': State, name: Name, record: Record, key: string, inbox: seq<Message>, archive: seq<Message>)
    requires name in s.inbox && name in s.archive && s.archive[name] != s.inbox[name] && s' == Archive(s, name)
    requires OnlyReply(s, name, s.inbox[name], record, key)
    requires Lists(inbox, s'.inbox, name.owner) && Lists(archive, s'.archive, name.owner)
    ensures StatusOf(record, key, inbox, archive) == Pending(record.filename)
  {
    forall i | 0 <= i < |inbox| ensures !IsReplyTo(inbox[i], record, key) {
      assert inbox[i] in inbox;
      var other :| other in s'.inbox && other.owner == name.owner && s'.inbox[other] == inbox[i];
    }
    forall i | 0 <= i < |archive| ensures !IsReplyTo(archive[i], record, key) {
      assert archive[i] in archive;
      var other :| other in s'.archive && other.owner == name.owner && s'.archive[other] == archive[i];
    }
    NothingCollected(inbox, record, key);
    NothingCollected(archive, record, key);
  }

  ghost predicate EndsIn(trace: seq<State>, actions: seq<Action>, s: State) {
    Run(trace, actions) && trace[|trace| - 1] == s
  }

  lemma OneMoreAction(trace: seq<State>, actions: seq<Action>, s: State, a: Action)
    returns (trace': seq<State>, actions': seq<Action>)
    requires EndsIn(trace, actions, s) && Enabled(s, a)
    ensures EndsIn(trace', actions', Apply(s, a)) && |trace'| == |trace| + 1 && trace'[..|trace|] == trace
  {
    trace', actions' := trace + [Apply(s, a)], actions + [a];
  }

  /** A caller that starts on a free slot and name, and is left alone until its message is there. */
  lemma SendAlone(trace: seq<State>, actions: seq<Action>, s: State, id: nat, call: Call, filename: string)
    returns (trace': seq<State>, actions': seq<Action>, s': State)
    requires EndsIn(trace, actions, s) && Enabled(s, Start(id, call, filename))
    requires call.slot !in s.records && Name(call.owner, filename) !in s.inbox
    ensures EndsIn(trace', actions', s') && trace' != []
    ensures s'.records == s.records[call.slot := Candidate(call, filename)] && s'.archive == s.archive
    ensures s'.inbox == s.inbox[Name(call.owner, filename) := Rendered(call)] && s'.threads.Keys == s.threads.Keys + {id}
  {
    hide Enabled, EndsIn;
    trace', actions' := OneMoreAction(trace, actions, s, Start(id, call, filename));
    s' := Apply(s, Start(id, call, filename));
    var reserved := Sends(s, id, call, filename);
    trace', actions' := OneMoreAction(trace', actions', s', Step(id));
    trace', actions' := OneMoreAction(trace', actions', reserved.0, Step(id));
    trace', actions' := OneMoreAction(trace', actions', reserved.1, Step(id));
    s' := reserved.2;
  }

  lemma Sends(s: State, id: nat, call: Call, filename: string) returns (r: (State, State, State))
    requires Enabled(s, Start(id, call, filename))
    requires call.slot !in s.records && Name(call.owner, filename) !in s.inbox
    ensures var started := Apply(s, Start(id, call, filename));
            && Enabled(started, Step(id)) && r.0 == Apply(started, Step(id))
            && Enabled(r.0, Step(id)) && r.1 == Apply(r.0, Step(id))
            && Enabled(r.1, Step(id)) && r.2 == Apply(r.1, Step(id))
    ensures r.2.records == s.records[call.slot := Candidate(call, filename)] && r.2.archive == s.archive
    ensures r.2.inbox == s.inbox[Name(call.owner, filename) := Rendered(call)] && r.2.threads.Keys == s.threads.Keys + {id}
  {
    var started := Apply(s, Start(id, call, filename));
    var reserved := Reserve(started, id);
    var checked := Check(reserved, id);
    r := (reserved, checked, Materialize(checked, id));
  }

  /** A message comes in and is archived. */
  lemma ReceiveAndFile(name: Name, m: Message) returns (trace: seq<State>, actions: seq<Action>, s: State)
    requires REPLY_TAG !in m.tags
    ensures EndsIn(trace, actions, s) && s == EMPTY.(archive := map[name := m])
  {
    trace, actions := OneMoreAction([EMPTY], [], EMPTY, Deliver(name, m));
    s := Apply(EMPTY, Deliver(name, m));
    trace, actions := OneMoreAction(trace, actions, s, File(name));
    s := Apply(s, File(name));
  }

  lemma RequestArrives(s: State, call: Call, principal: string, agent: string, key: string, r: string)
    requires call == PublishCall(principal, agent, key, map[], "")
    requires Name(agent, r) in s.inbox && s.inbox[Name(agent, r)] == Rendered(call)
    ensures StartsReply(s, ReplyCall(agent, call.envelope.request, r, map[], ""))
  {
    assert Find(s, Name(agent, r)) == Some(Rendered(call));
  }

  lemma PublishEnabled(s: State, id: nat, call: Call, principal: string, agent: string, key: string, r: string)
    requires id !in s.threads && key != "" && call == PublishCall(principal, agent, key, map[], "")
    ensures Enabled(s, Start(id, call, r))
  {
    assert StartsPublish(call);
  }

  lemma ReplyEnabled(s: State, id: nat, call: Call, f: string)
    requires id !in s.threads && StartsReply(s, call)
    ensures Enabled(s, Start(id, call, f))
  {
  }

  lemma FileLast(trace: seq<State>, actions: seq<Action>, s: State, name: Name)
    returns (trace': seq<State>, actions': seq<Action>)
    requires EndsIn(trace, actions, s) && name in s.inbox
    ensures Run(trace', actions') && |trace'| == |trace| + 1 && trace'[|trace| - 1] == s && trace'[|trace|] == Archive(s, name)
  {
    trace', actions' := OneMoreAction(trace, actions, s, File(name));
    assert trace'[..|trace|][|trace| - 1] == trace'[|trace| - 1];
  }

  lemma StatusLosesReply(record: Record, key: string, reply: Message, other: Message)
    requires IsReplyTo(reply, record, key) && REPLY_TAG !in other.tags
    ensures StatusOf(record, key, [reply], [other]).Replied?
    ensures StatusOf(record, key, [], [other]) == Pending(record.filename)
  {
    assert [reply][..0] == [] && [other][..0] == [];
    assert Collect([reply], record, key) == [reply.body.reply] && Collect([other], record, key) == [];
    assert [reply.body.reply][..0] == [] && [reply.body.reply] + [] == [reply.body.reply];
    assert Dedup([reply.body.reply]) == [reply.body.reply];
  }

  lemma ScansAround(trace: seq<State>, actions: seq<Action>, m: nat, s: State, principal: string, agent: string,
                    f: string, r: string, request: Message, reply: Message, other: Message)
    requires Run(trace, actions) && m + 1 < |trace| && principal != agent
    requires s.archive == map[Name(principal, f) := other]
    requires s.inbox == map[Name(agent, r) := request, Name(principal, f) := reply]
    requires trace[m] == s && trace[m + 1] == Archive(s, Name(principal, f))
    ensures Scan(trace, actions, m, m, principal, [reply], [other])
    ensures Scan(trace, actions, m + 1, m + 1, principal, [], [other])
  {
    assert Lists([reply], s.inbox, principal) by { assert s.inbox[Name(principal, f)] == reply; }
    assert Lists([other], s.archive, principal) by { assert s.archive[Name(principal, f)] == other; }
    assert Lists([], Archive(s, Name(principal, f)).inbox, principal);
  }

  /**
   A run that loses a reply: a message under some name is archived, a reply happens to draw the same
   name, `status` reports it, and archiving it then makes `status` report the request as pending.
   */
  lemma NameUsedTwiceLosesReply(principal: string, agent: string, key: string, f: string, r: string, other: Message)
    returns (trace: seq<State>, actions: seq<Action>, m: nat, record: Record, reply: Message)
    requires key != "" && principal != agent && REPLY_TAG !in other.tags
    ensures Scan(trace, actions, m, m, principal, [reply], [other])
    ensures StatusOf(record, key, [reply], [other]).Replied?
    ensures Scan(trace, actions, m + 1, m + 1, principal, [], [other])
    ensures StatusOf(record, key, [], [other]) == Pending(r)
    ensures Slot(Outgoing(principal), key) in trace[m].records && trace[m].records[Slot(Outgoing(principal), key)] == record
  {
    hide EndsIn, Enabled, Apply;
    var s: State;
    trace, actions, s := ReceiveAndFile(Name(principal, f), other);
    var request := PublishCall(principal, agent, key, map[], "");
    assert Enabled(s, Start(0, request, r)) by { PublishEnabled(s, 0, request, principal, agent, key, r); }
    trace, actions, s := SendAlone(trace, actions, s, 0, request, r);
    var answer := ReplyCall(agent, request.envelope.request, r, map[], "");
    RequestArrives(s, request, principal, agent, key, r);
    assert Enabled(s, Start(1, answer, f)) by { ReplyEnabled(s, 1, answer, f); }
    trace, actions, s := SendAlone(trace, actions, s, 1, answer, f);
    record, reply := Candidate(request, r), Rendered(answer);
    m := |trace| - 1;
    trace, actions := FileLast(trace, actions, s, Name(principal, f));
    StatusLosesReply(record, key, reply, other);
    ScansAround(trace, actions, m, s, principal, agent, f, r, Rendered(request), reply, other);
  }
}
