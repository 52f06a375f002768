/**
 `status` over every run of publishers, repliers and archive moves: it never reports a conflict,
 and a reply once seen is seen ever after, even while it moves between the two scans.
 */
module TransportStatus {
  import opened Wrappers
  import opened Transport
  import opened TransportOnce

  datatype Status =
    | Pending(requestFilename: string)
    | Replied(requestFilename: string, from: string, tags: map<string, string>, body: string)
    | Conflict

  predicate IsReplyTo(m: Message, record: Record, key: string) {
    && m.inReplyTo == Some(record.filename)
    && m.body.Reply?
    && m.body.reply.version == REQUEST_VERSION
    && m.body.reply.key == key
    && m.body.reply.requestFilename == record.filename
    && m.body.reply.from == record.to
    && m.from == Some(m.body.reply.from)
    && REPLY_TAG in m.tags
  }

  function Collect(list: seq<Message>, record: Record, key: string): seq<ReplyEnvelope> {
    if list == [] then []
    else
      var rest := Collect(list[..|list| - 1], record, key);
      if IsReplyTo(list[|list| - 1], record, key) then rest + [list[|list| - 1].body.reply] else rest
  }

  /** `dedup_by`: drop every element equal to the one kept before it. */
  function Dedup<T(==)>(s: seq<T>): seq<T> {
    if s == [] then []
    else
      var rest := Dedup(s[..|s| - 1]);
      if rest != [] && rest[|rest| - 1] == s[|s| - 1] then rest else rest + [s[|s| - 1]]
  }

  function Verdict(record: Record, replies: seq<ReplyEnvelope>): Status {
    if replies == [] then Pending(record.filename)
    else if |replies| == 1 then
      Replied(record.filename, replies[0].from, replies[0].tags, replies[0].body)
    else Conflict
  }

  function StatusOf(record: Record, key: string, inbox: seq<Message>, archive: seq<Message>): Status {
    Verdict(record, Dedup(Collect(inbox, record, key) + Collect(archive, record, key)))
  }

  /** `status` as written: push the replies of both boxes, then drop adjacent duplicates. */
  method ComputeStatus(record: Record, key: string, inbox: seq<Message>, archive: seq<Message>)
    returns (r: Status)
    ensures r == StatusOf(record, key, inbox, archive)
  {
    var replies: seq<ReplyEnvelope> := [];
    for i := 0 to |inbox|
      invariant replies == Collect(inbox[..i], record, key)
    {
      assert inbox[..i + 1][..i] == inbox[..i];
      if IsReplyTo(inbox[i], record, key) { replies := replies + [inbox[i].body.reply]; }
    }
    assert inbox[..|inbox|] == inbox;
    ghost var fromInbox := replies;
    for i := 0 to |archive|
      invariant replies == fromInbox + Collect(archive[..i], record, key)
    {
      assert archive[..i + 1][..i] == archive[..i];
      if IsReplyTo(archive[i], record, key) { replies := replies + [archive[i].body.reply]; }
    }
    assert archive[..|archive|] == archive;
    var kept: seq<ReplyEnvelope> := [];
    for i := 0 to |replies|
      invariant kept == Dedup(replies[..i])
    {
      assert replies[..i + 1][..i] == replies[..i];
      if kept == [] || kept[|kept| - 1] != replies[i] { kept := kept + [replies[i]]; }
    }
    assert replies[..|replies|] == replies;
    r := Verdict(record, kept);
  }

  // ----- adjacent duplicates decide "all equal" -----

  lemma {:induction false} DedupKeepsEnds<T>(s: seq<T>)
    ensures s == [] <==> Dedup(s) == []
    ensures s != [] ==> Dedup(s)[0] == s[0] && Dedup(s)[|Dedup(s)| - 1] == s[|s| - 1]
  {
    if s != [] {
      var init := s[..|s| - 1];
      DedupKeepsEnds(init);
      assert init != [] ==> init[0] == s[0];
    }
  }

  /** One element survives exactly when all are equal. */
  lemma {:induction false} DedupDecidesEqual<T>(s: seq<T>)
    ensures |Dedup(s)| <= 1 <==> forall i :: 0 <= i < |s| ==> s[i] == s[0]
  {
    if s != [] {
      var init := s[..|s| - 1];
      DedupKeepsEnds(init);
      DedupDecidesEqual(init);
      if init != [] && |Dedup(s)| <= 1 {
        assert Dedup(init) == [init[0]];
        forall i | 0 <= i < |s| ensures s[i] == s[0] {
          assert i < |init| ==> init[i] == init[0];
        }
      }
      if init != [] && forall i :: 0 <= i < |s| ==> s[i] == s[0] {
        forall i | 0 <= i < |init| ensures init[i] == init[0] {
          assert s[i] == s[0];
        }
        assert s[|s| - 1] == s[0];
      }
    }
  }

  lemma {:induction false} CollectMembers(list: seq<Message>, record: Record, key: string)
    ensures forall x :: x in Collect(list, record, key) <==>
              exists m :: m in list && IsReplyTo(m, record, key) && m.body.reply == x
  {
    if list != [] {
      var init, last := list[..|list| - 1], list[|list| - 1];
      assert list == init + [last];
      CollectMembers(init, record, key);
      forall x ensures x in Collect(list, record, key) <==>
                         exists m :: m in list && IsReplyTo(m, record, key) && m.body.reply == x
      {
        if x in Collect(init, record, key) {
          var m :| m in init && IsReplyTo(m, record, key) && m.body.reply == x;
          assert m in list;
        }
        if m :| m in list && IsReplyTo(m, record, key) && m.body.reply == x {
          assert m in init || m == last;
        }
      }
    }
  }

  // ----- where a reply message comes from -----

  ghost predicate CallShape(call: Call) {
    match call.slot.dir
    case Outgoing(_) => call.tags == [REQUEST_TAG]
    case Replies(agent) =>
      && call.tags == [REPLY_TAG] && call.from == agent && call.owner == call.to
      && call.envelope.Reply? && call.envelope.reply.from == agent
      && call.slot.key == StateKey(call.to, call.envelope.reply.key)
  }

  ghost predicate RecordShape(slot: Slot, record: Record) {
    && record.rendered.body == record.envelope
    && match slot.dir
       case Outgoing(_) => record.rendered.tags == [REQUEST_TAG]
       case Replies(agent) =>
         && record.rendered.tags == [REPLY_TAG]
         && record.envelope.Reply? && record.envelope.reply.from == agent
         && slot.key == StateKey(record.to, record.envelope.reply.key)
  }

  /** A tagged reply in a box is the rendered message of one reply record. */
  ghost predicate Sourced(s: State, name: Name, m: Message) {
    REPLY_TAG in m.tags ==>
      exists slot :: slot in s.records && slot.dir.Replies?
                     && s.records[slot].rendered == m && s.records[slot].to == name.owner
  }

  ghost predicate Shaped(s: State) {
    && (forall id :: id in s.threads ==> CallShape(s.threads[id].call))
    && (forall slot :: slot in s.records ==> RecordShape(slot, s.records[slot]))
    && (forall name :: name in s.inbox ==> Sourced(s, name, s.inbox[name]))
    && (forall name :: name in s.archive ==> Sourced(s, name, s.archive[name]))
  }

  lemma StillSourced(s: State, s': State, name: Name, m: Message)
    requires Extends(s, s') && Sourced(s, name, m)
    ensures Sourced(s', name, m)
  {
    if REPLY_TAG in m.tags {
      var slot :| slot in s.records && slot.dir.Replies?
                  && s.records[slot].rendered == m && s.records[slot].to == name.owner;
      assert slot in s'.records;
    }
  }

  lemma StartShape(s: State, call: Call)
    requires StartsPublish(call) || StartsReply(s, call)
    ensures CallShape(call)
  {
  }

  lemma DeliveredSourced(s: State, id: nat)
    requires Inv(s) && Shaped(s) && id in s.threads && s.threads[id].pc.Checked?
    ensures var t := s.threads[id];
            Sourced(s, Name(t.call.owner, t.pc.record.filename), t.pc.record.rendered)
  {
    var t := s.threads[id];
    assert ThreadFits(s, id) && CallShape(t.call);
    assert RecordShape(t.call.slot, s.records[t.call.slot]);
  }

  /** What one file operation of a caller can change. */
  ghost predicate Touches(s: State, s': State, id: nat)
    requires id in s.threads
  {
    var t := s.threads[id];
    && s'.archive == s.archive && (forall x :: x in s'.threads ==> x in s.threads)
    && (s'.records == s.records || s'.records == s.records[t.call.slot := Candidate(t.call, t.filename)])
    && (s'.inbox == s.inbox
        || (t.pc.Checked? && s'.inbox == s.inbox[Name(t.call.owner, t.pc.record.filename) := t.pc.record.rendered]))
  }

  lemma AdvanceTouches(s: State, id: nat)
    requires Enabled(s, Step(id))
    ensures Touches(s, Advance(s, id), id)
  {
    match s.threads[id].pc
    case Started => assert Touches(s, Reserve(s, id), id);
    case Taken => assert Touches(s, Load(s, id), id);
    case Loaded(_, _) => assert Touches(s, Check(s, id), id);
    case Checked(_, _) => assert Touches(s, Materialize(s, id), id);
    case Materialized(_, _, _) => assert Touches(s, Return(s, id), id);
  }

  lemma TouchedInbox(s: State, s': State, id: nat, name: Name)
    requires Inv(s) && Shaped(s) && id in s.threads && Touches(s, s', id) && Extends(s, s')
    requires name in s'.inbox
    ensures Sourced(s', name, s'.inbox[name])
  {
    if name in s.inbox && s'.inbox[name] == s.inbox[name] {
      StillSourced(s, s', name, s.inbox[name]);
    } else {
      DeliveredSourced(s, id);
      StillSourced(s, s', name, s'.inbox[name]);
    }
  }

  lemma TouchedRecords(s: State, s': State, id: nat, slot: Slot)
    requires Shaped(s) && id in s.threads && Touches(s, s', id) && slot in s'.records
    ensures RecordShape(slot, s'.records[slot])
  {
    assert CallShape(s.threads[id].call);
  }

  lemma AdvanceShaped(s: State, s': State, id: nat)
    requires Inv(s) && Shaped(s) && id in s.threads && Touches(s, s', id) && Extends(s, s')
    ensures Shaped(s')
  {
    forall name | name in s'.inbox ensures Sourced(s', name, s'.inbox[name]) {
      TouchedInbox(s, s', id, name);
    }
    forall name | name in s'.archive ensures Sourced(s', name, s'.archive[name]) {
      StillSourced(s, s', name, s.archive[name]);
    }
    forall slot | slot in s'.records ensures RecordShape(slot, s'.records[slot]) {
      TouchedRecords(s, s', id, slot);
    }
  }

  lemma StepKeepsShaped(s: State, a: Action)
    requires Inv(s) && Shaped(s) && Enabled(s, a)
    ensures Shaped(Apply(s, a))
  {
    var s' := Apply(s, a);
    if a.Step? {
      AdvanceTouches(s, a.id);
      AdvanceExtends(s, a.id);
      AdvanceShaped(s, s', a.id);
    } else {
      if a.Start? { StartShape(s, a.call); }
      assert s'.records == s.records;
      forall name | name in s'.inbox ensures Sourced(s', name, s'.inbox[name]) {
        if name in s.inbox { assert Sourced(s, name, s.inbox[name]); }
      }
      forall name | name in s'.archive ensures Sourced(s', name, s'.archive[name]) {
        if name in s.archive { assert Sourced(s, name, s.archive[name]); }
        else { assert Sourced(s, name, s.inbox[name]); }
      }
    }
  }

  lemma {:induction false} RunKeepsShaped(trace: seq<State>, actions: seq<Action>, n: nat)
    requires Run(trace, actions) && n < |trace|
    ensures Inv(trace[n]) && Shaped(trace[n])
  {
    RunKeepsInv(trace, actions, n);
    if n > 0 {
      RunKeepsShaped(trace, actions, n - 1);
      assert Enabled(trace[n - 1], actions[n - 1]) && trace[n - 1 + 1] == Apply(trace[n - 1], actions[n - 1]);
      StepKeepsShaped(trace[n - 1], actions[n - 1]);
    }
  }

  /** Two replies to one request, found in the sender's boxes at any two times, are one reply. */
  lemma RepliesAgree(s: State, s': State, a: Name, m: Message, b: Name, m': Message, record: Record, key: string)
    requires Shaped(s') && Extends(s, s') && Sourced(s, a, m) && Sourced(s', b, m') && a.owner == b.owner
    requires IsReplyTo(m, record, key) && IsReplyTo(m', record, key)
    ensures m.body.reply == m'.body.reply
  {
    var slot :| slot in s.records && slot.dir.Replies?
                && s.records[slot].rendered == m && s.records[slot].to == a.owner;
    var slot' :| slot' in s'.records && slot'.dir.Replies?
                 && s'.records[slot'].rendered == m' && s'.records[slot'].to == b.owner;
    assert slot in s'.records && s'.records[slot] == s.records[slot];
    assert RecordShape(slot, s'.records[slot]) && RecordShape(slot', s'.records[slot']);
    assert slot == slot';
  }

  // ----- scanning -----

  /** A listing of one owner's box, in any order. */
  ghost predicate Lists(list: seq<Message>, box: map<Name, Message>, owner: string) {
    && (forall m :: m in list ==> exists name :: name in box && name.owner == owner && box[name] == m)
    && (forall name :: name in box && name.owner == owner ==> box[name] in list)
  }

  lemma {:induction false} ExtendsLater(trace: seq<State>, actions: seq<Action>, m: nat, n: nat)
    requires Run(trace, actions) && m <= n < |trace|
    ensures Extends(trace[m], trace[n])
    decreases n
  {
    if m < n {
      ExtendsLater(trace, actions, m, n - 1);
      RunKeepsInv(trace, actions, n - 1);
      assert Enabled(trace[n - 1], actions[n - 1]) && trace[n - 1 + 1] == Apply(trace[n - 1], actions[n - 1]);
      ActionExtends(trace[n - 1], actions[n - 1]);
      var a, b, c := trace[m], trace[n - 1], trace[n];
      assert c.writes[..|a.writes|] == c.writes[..|b.writes|][..|a.writes|];
    }
  }

  /** A scan of the inbox at one time and of the archive at a later one. */
  ghost predicate Scan(trace: seq<State>, actions: seq<Action>, m: nat, n: nat, owner: string,
                       inbox: seq<Message>, archive: seq<Message>)
  {
    && Run(trace, actions) && m <= n < |trace|
    && Lists(inbox, trace[m].inbox, owner) && Lists(archive, trace[n].archive, owner)
  }

  /** A message a scan listed was in one of the owner's boxes then. */
  lemma ListedSourced(trace: seq<State>, actions: seq<Action>, m: nat, n: nat, owner: string,
                      inbox: seq<Message>, archive: seq<Message>, x: Message) returns (name: Name)
    requires Scan(trace, actions, m, n, owner, inbox, archive) && (x in inbox || x in archive)
    ensures name.owner == owner && Sourced(trace[n], name, x)
  {
    RunKeepsShaped(trace, actions, m);
    RunKeepsShaped(trace, actions, n);
    ExtendsLater(trace, actions, m, n);
    if x in inbox {
      name :| name in trace[m].inbox && name.owner == owner && trace[m].inbox[name] == x;
      StillSourced(trace[m], trace[n], name, x);
    } else {
      name :| name in trace[n].archive && name.owner == owner && trace[n].archive[name] == x;
    }
  }

  lemma ScannedAgree(trace: seq<State>, actions: seq<Action>, m: nat, n: nat, owner: string,
                     inbox: seq<Message>, archive: seq<Message>, record: Record, key: string,
                     x: ReplyEnvelope, y: ReplyEnvelope)
    requires Scan(trace, actions, m, n, owner, inbox, archive)
    requires x in Collect(inbox, record, key) + Collect(archive, record, key)
    requires y in Collect(inbox, record, key) + Collect(archive, record, key)
    ensures x == y
  {
    hide Shaped, Inv, Sourced, Run;
    CollectMembers(inbox, record, key);
    CollectMembers(archive, record, key);
    var p :| (p in inbox || p in archive) && IsReplyTo(p, record, key) && p.body.reply == x;
    var q :| (q in inbox || q in archive) && IsReplyTo(q, record, key) && q.body.reply == y;
    var a := ListedSourced(trace, actions, m, n, owner, inbox, archive, p);
    var b := ListedSourced(trace, actions, m, n, owner, inbox, archive, q);
    RunKeepsShaped(trace, actions, n);
    RepliesAgree(trace[n], trace[n], a, p, b, q, record, key);
  }

  /** No run makes `status` report conflicting replies. */
  lemma StatusNeverConflicts(trace: seq<State>, actions: seq<Action>, m: nat, n: nat, owner: string,
                             inbox: seq<Message>, archive: seq<Message>, record: Record, key: string)
    requires Scan(trace, actions, m, n, owner, inbox, archive)
    ensures !StatusOf(record, key, inbox, archive).Conflict?
  {
    var replies := Collect(inbox, record, key) + Collect(archive, record, key);
    forall i | 0 <= i < |replies| ensures replies[i] == replies[0] {
      ScannedAgree(trace, actions, m, n, owner, inbox, archive, record, key, replies[i], replies[0]);
    }
    DedupDecidesEqual(replies);
  }

  /** A scan that lists one reply reports that reply. */
  lemma ListedReplyReported(trace: seq<State>, actions: seq<Action>, m: nat, n: nat, owner: string,
                            inbox: seq<Message>, archive: seq<Message>, record: Record, key: string, x: Message)
    requires Scan(trace, actions, m, n, owner, inbox, archive)
    requires (x in inbox || x in archive) && IsReplyTo(x, record, key)
    ensures StatusOf(record, key, inbox, archive)
            == Replied(record.filename, x.body.reply.from, x.body.reply.tags, x.body.reply.body)
  {
    StatusNeverConflicts(trace, actions, m, n, owner, inbox, archive, record, key);
    CollectMembers(inbox, record, key);
    CollectMembers(archive, record, key);
    var replies := Collect(inbox, record, key) + Collect(archive, record, key);
    assert x.body.reply in replies;
    DedupKeepsEnds(replies);
    assert replies[0] in replies;
    ScannedAgree(trace, actions, m, n, owner, inbox, archive, record, key, replies[0], x.body.reply);
  }

  // ----- a reply, once there, stays -----

  ghost predicate Present(s: State, name: Name, m: Message) {
    (name in s.inbox && s.inbox[name] == m) || (name in s.archive && s.archive[name] == m)
  }

  /** No message is filed over a different one of the same name. */
  ghost predicate NamesAgree(trace: seq<State>, actions: seq<Action>)
    requires RunFrom(trace, actions)
  {
    forall i :: 0 <= i < |actions| && actions[i].File? ==>
      var s, name := trace[i], actions[i].name;
      name in s.archive ==> s.archive[name] == s.inbox[name]
  }

  lemma StepKeepsPresent(s: State, a: Action, name: Name, m: Message)
    requires Enabled(s, a) && Present(s, name, m)
    requires a.File? && a.name in s.archive ==> s.archive[a.name] == s.inbox[a.name]
    ensures Present(Apply(s, a), name, m)
    ensures name in s.archive ==> name in Apply(s, a).archive && Apply(s, a).archive[name] == s.archive[name]
  {
  }

  lemma PresentNext(trace: seq<State>, actions: seq<Action>, i: nat, name: Name, m: Message)
    requires RunFrom(trace, actions) && NamesAgree(trace, actions) && i < |actions| && Present(trace[i], name, m)
    ensures Present(trace[i + 1], name, m)
    ensures name in trace[i].archive ==>
              name in trace[i + 1].archive && trace[i + 1].archive[name] == trace[i].archive[name]
  {
    StepKeepsPresent(trace[i], actions[i], name, m);
  }

  lemma {:induction false} StaysPresent(trace: seq<State>, actions: seq<Action>, m: nat, n: nat, name: Name, x: Message)
    requires Run(trace, actions) && NamesAgree(trace, actions) && m <= n < |trace| && Present(trace[m], name, x)
    ensures Present(trace[n], name, x)
    ensures name in trace[m].archive ==> name in trace[n].archive && trace[n].archive[name] == trace[m].archive[name]
    decreases n
  {
    if m < n {
      StaysPresent(trace, actions, m, n - 1, name, x);
      PresentNext(trace, actions, n - 1, name, x);
    }
  }

  lemma ListedWhileAgreeing(trace: seq<State>, actions: seq<Action>, k: nat, m: nat, n: nat,
                        inbox: seq<Message>, archive: seq<Message>, name: Name, x: Message)
    requires Scan(trace, actions, m, n, name.owner, inbox, archive) && NamesAgree(trace, actions)
    requires k <= m && Present(trace[k], name, x)
    ensures x in inbox || x in archive
  {
    StaysPresent(trace, actions, k, m, name, x);
    if name in trace[m].inbox && trace[m].inbox[name] == x {
      assert x in inbox;
    } else {
      StaysPresent(trace, actions, m, n, name, x);
    }
  }

  lemma RepliedFrom(record: Record, key: string, inbox: seq<Message>, archive: seq<Message>) returns (x: Message)
    requires StatusOf(record, key, inbox, archive).Replied?
    ensures (x in inbox || x in archive) && IsReplyTo(x, record, key)
  {
    var replies := Collect(inbox, record, key) + Collect(archive, record, key);
    DedupKeepsEnds(replies);
    CollectMembers(inbox, record, key);
    CollectMembers(archive, record, key);
    assert replies[0] in replies;
    x :| (x in inbox || x in archive) && IsReplyTo(x, record, key) && x.body.reply == replies[0];
  }

  lemma RepliedWhileAgreeing(trace: seq<State>, actions: seq<Action>, owner: string, record: Record, key: string,
                     m: nat, n: nat, inbox: seq<Message>, archive: seq<Message>,
                     m': nat, n': nat, inbox': seq<Message>, archive': seq<Message>)
    requires Scan(trace, actions, m, n, owner, inbox, archive)
    requires Scan(trace, actions, m', n', owner, inbox', archive')
    requires NamesAgree(trace, actions) && n <= m'
    requires StatusOf(record, key, inbox, archive).Replied?
    ensures StatusOf(record, key, inbox', archive') == StatusOf(record, key, inbox, archive)
  {
    var x := RepliedFrom(record, key, inbox, archive);
    ListedReplyReported(trace, actions, m, n, owner, inbox, archive, record, key, x);
    if x in inbox {
      var name :| name in trace[m].inbox && name.owner == owner && trace[m].inbox[name] == x;
      ListedWhileAgreeing(trace, actions, m, m', n', inbox', archive', name, x);
    } else {
      var name :| name in trace[n].archive && name.owner == owner && trace[n].archive[name] == x;
      ListedWhileAgreeing(trace, actions, n, m', n', inbox', archive', name, x);
    }
    ListedReplyReported(trace, actions, m', n', owner, inbox', archive', record, key, x);
  }

  // ----- the reply key -----

  predicate NulFree(s: string) {
    '\0' !in s
  }

  /** For NUL-free bus ids the joined key determines both parts. */
  lemma StateKeyInjective(a: string, k: string, b: string, l: string)
    requires NulFree(a) && NulFree(b) && StateKey(a, k) == StateKey(b, l)
    ensures a == b && k == l
  {
    var s := StateKey(a, k);
    assert s[|a|] == '\0' && s[|b|] == '\0';
    assert forall i :: 0 <= i < |a| ==> s[i] == a[i];
    assert forall i :: 0 <= i < |b| ==> s[i] == b[i];
    assert |a| == |b|;
    assert a == s[..|a|] && b == s[..|b|];
    assert k == s[|a| + 1..] && l == s[|b| + 1..];
  }

  /** With a NUL in a bus id two different requests share one reply record. */
  lemma StateKeyNeedsNulFree()
    ensures StateKey("a", "b\0c") == StateKey("a\0b", "c")
  {
    assert "a" + "\0" + "b\0c" == "a\0b" + "\0" + "c";
  }

  /** A reply is refused only over an earlier, different reply to the same request key and sender. */
  lemma RefusedReplyIsARealReuse(trace: seq<State>, actions: seq<Action>, n: nat, id: nat)
    requires Run(trace, actions) && n < |trace| && id in trace[n].threads
    requires trace[n].threads[id].pc.Refused? && trace[n].threads[id].call.slot.dir.Replies?
    requires NulFree(trace[n].threads[id].call.to)
    requires var s := trace[n]; var slot := s.threads[id].call.slot;
             slot in s.records ==> NulFree(s.records[slot].to)
    ensures var s := trace[n]; var call := s.threads[id].call;
            && call.slot in s.records && call.envelope.Reply? && s.records[call.slot].envelope.Reply?
            && s.records[call.slot].to == call.to
            && s.records[call.slot].envelope.reply.key == call.envelope.reply.key
            && !Matches(call, s.records[call.slot])
  {
    RunKeepsShaped(trace, actions, n);
    var s := trace[n];
    var call := s.threads[id].call;
    assert ThreadFits(s, id) && CallShape(call) && RecordShape(call.slot, s.records[call.slot]);
    StateKeyInjective(call.to, call.envelope.reply.key,
                      s.records[call.slot].to, s.records[call.slot].envelope.reply.key);
  }
}
