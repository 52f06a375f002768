// Whole runs of the feed: in the background, and once closed, it holds nothing and waits for nothing.
module FeedRun {
  import opened Wrappers
  import opened Feed

  /** The feed after these steps; None when one of them could not happen. */
  function After(active: bool, steps: seq<Step>): Option<State> {
    if steps == [] then Some(Fresh(active))
    else
      var before, last := After(active, steps[..|steps| - 1]), steps[|steps| - 1];
      if before.Some? && Possible(before.value, last) then Some(Do(before.value, last)) else None
  }

  /** No attempt is dropped twice. */
  predicate DroppedOnce(active: bool, steps: seq<Step>) {
    steps == []
    || (var before, last := After(active, steps[..|steps| - 1]), steps[|steps| - 1];
        && DroppedOnce(active, steps[..|steps| - 1])
        && (before.Some? && Drops(before.value, last) ==> before.value.attempt !in before.value.drops))
  }

  lemma FreshKeeps(active: bool)
    ensures Inv(Fresh(active))
  {
    var s := State(false, 0, 0, false, None, None, None, map[], active, map[], 0, {}, {}, {}, {});
    if active { ConnectKeeps(s); }
  }

  lemma {:induction false} RunKeeps(active: bool, steps: seq<Step>)
    requires After(active, steps).Some? && DroppedOnce(active, steps)
    ensures Inv(After(active, steps).value)
  {
    if steps == [] {
      FreshKeeps(active);
    } else {
      RunKeeps(active, steps[..|steps| - 1]);
      StepKeeps(After(active, steps[..|steps| - 1]).value, steps[|steps| - 1]);
    }
  }

  // ----- which sockets are open -----

  /** The sockets the probe has given up and that have not ended since. */
  function GivenUp(active: bool, steps: seq<Step>): set<nat> {
    if steps == [] then {}
    else
      var before, last := After(active, steps[..|steps| - 1]), steps[|steps| - 1];
      var given := GivenUp(active, steps[..|steps| - 1]);
      if last.Missed? && before.Some? && !Stale(before.value, last.a) && before.value.stream == Some(last.a)
      then given + {last.a}
      else if last.Ended? then given - {last.a}
      else given
  }

  function Held(s: State): set<nat> {
    if s.stream.Some? then {s.stream.value} else {}
  }

  /** Sockets are open because the feed holds them or because the probe gave them up; none is still opening. */
  ghost predicate Accounted(s: State, given: set<nat>) {
    && s.sockets == given + Held(s) && given !! Held(s)
    && s.opening !! s.sockets && s.sockets <= s.started && s.opening <= s.started
    && (forall a | a in s.started :: a <= s.attempt)
  }

  lemma SuspendAccounts(s: State, given: set<nat>)
    requires Accounted(s, given)
    ensures Accounted(Suspend(s), given)
  {
    hide Without, RetryTimers;
    assert s.sockets - Held(s) == given;
  }

  lemma ConnectAccounts(s: State, given: set<nat>)
    requires Accounted(s, given)
    ensures Accounted(Connect(s), given)
  {
    SuspendAccounts(s, given);
    hide Without, RetryTimers;
    assert s.attempt + 1 !in s.started;
  }

  lemma DropAccounts(s: State, given: set<nat>)
    requires Accounted(s, given)
    ensures Accounted(Dropped(s), given + Held(s))
  {
    hide Without;
  }

  /** A step that is neither a drop nor one of the app's leaves what is open to what opens or ends. */
  lemma OtherAccounts(s: State, step: Step, given: set<nat>)
    requires Accounted(s, given) && Possible(s, step)
    requires step.Snapshot? || step.Changed? || step.Refused? || (step.Rings? && !s.alarms[step.alarm].Reconnects?)
    ensures Accounted(Do(s, step), given)
  {
    hide Without;
  }

  lemma OpenAccounts(s: State, a: nat, given: set<nat>)
    requires Accounted(s, given) && a in s.opening && (s.stream.Some? ==> s.stream.value == s.attempt)
    ensures Accounted(Open(s, a), given)
  {
  }

  lemma EndAccounts(s: State, a: nat, given: set<nat>)
    requires Accounted(s, given) && Inv(s) && a in s.started
    ensures Accounted(Do(s, Ended(a)), given - {a})
  {
    hide Inv, Without;
    var ended := s.(sockets := s.sockets - {a});
    if Stale(s, a) {
      assert s.stream != Some(a) by { StreamIsCurrent(s, a); }
      assert ended.sockets == given - {a} + Held(s);
    } else if s.stream == Some(a) {
      assert ended.sockets == given - {a};
    } else {
      assert Held(s) == {} by { StreamIsCurrent(s, a); }
      assert ended.sockets == given - {a};
    }
  }

  lemma StreamIsCurrent(s: State, a: nat)
    requires Inv(s)
    ensures s.stream.Some? ==> !s.closed && s.stream.value == s.attempt
  {
  }

  lemma MissAccounts(s: State, a: nat, given: set<nat>)
    requires Accounted(s, given) && Inv(s) && a in s.started
    ensures Accounted(Do(s, Missed(a)), if !Stale(s, a) && s.stream == Some(a) then given + {a} else given)
  {
    hide Inv, Without;
    StreamIsCurrent(s, a);
    DropAccounts(s, given);
    assert given + {} == given;
  }

  lemma FailAccounts(s: State, a: nat, given: set<nat>)
    requires Accounted(s, given) && Inv(s) && a in s.opening
    ensures Accounted(Do(s, OpenFailed(a)), given)
  {
    hide Inv, Without;
    StreamIsCurrent(s, a);
    assert Held(s) == {} || Stale(s, a);
    var failed := s.(opening := s.opening - {a});
    assert Accounted(failed, given);
    if !Stale(s, a) { DropAccounts(failed, given); assert given + {} == given; }
  }

  lemma StepAccounts(s: State, step: Step, given: set<nat>)
    requires Accounted(s, given) && Inv(s) && Possible(s, step)
    ensures Accounted(Do(s, step), if step.Missed? && !Stale(s, step.a) && s.stream == Some(step.a) then given + {step.a}
                                   else if step.Ended? then given - {step.a} else given)
  {
    hide Inv, Suspend, Connect, Dropped, ShowSnapshot, Loaded, RetryLater;
    match step
    case Rings(alarm) =>
      if s.alarms[alarm].Reconnects? {
        var rung := s.(alarms := s.alarms - {alarm});
        assert Accounted(rung, given);
        ConnectAccounts(rung, given);
      } else {
        OtherAccounts(s, step, given);
      }
    case Opened(a) => StreamIsCurrent(s, a); OpenAccounts(s, a, given);
    case OpenFailed(a) => FailAccounts(s, a, given);
    case Ended(a) => EndAccounts(s, a, given);
    case Missed(a) => MissAccounts(s, a, given);
    case Foreground => AppAccounts(s, step, given);
    case Background => AppAccounts(s, step, given);
    case AskReconnect => AppAccounts(s, step, given);
    case Close => AppAccounts(s, step, given);
    case _ => OtherAccounts(s, step, given);
  }

  lemma AppAccounts(s: State, step: Step, given: set<nat>)
    requires Accounted(s, given) && (step.Foreground? || step.Background? || step.AskReconnect? || step.Close?)
    ensures Accounted(Do(s, step), given)
  {
    hide Suspend, Connect;
    var active := if step.Foreground? then true else if step.Background? then false else s.active;
    FlagsAccount(s, given, active, s.closed || step.Close?);
    match step
    case Foreground => if !s.closed { ConnectAccounts(s.(active := true, failures := 0), given); }
    case Background => if !s.closed { SuspendAccounts(s.(active := false), given); }
    case AskReconnect => if !s.closed && s.active { ConnectAccounts(s.(failures := 0), given); }
    case Close => if !s.closed { SuspendAccounts(s.(closed := true), given); }
  }

  lemma FlagsAccount(s: State, given: set<nat>, active: bool, closed: bool)
    requires Accounted(s, given)
    ensures Accounted(s.(active := active, closed := closed), given)
    ensures Accounted(s.(active := active, closed := closed, failures := 0), given)
  {
  }

  lemma FreshAccounts(active: bool)
    ensures Accounted(Fresh(active), {})
  {
    var s := State(false, 0, 0, false, None, None, None, map[], active, map[], 0, {}, {}, {}, {});
    if active { ConnectAccounts(s, {}); }
  }

  lemma {:induction false} RunAccounts(active: bool, steps: seq<Step>)
    requires After(active, steps).Some? && DroppedOnce(active, steps)
    ensures Accounted(After(active, steps).value, GivenUp(active, steps))
  {
    if steps == [] {
      FreshAccounts(active);
    } else {
      RunAccounts(active, steps[..|steps| - 1]);
      RunKeeps(active, steps[..|steps| - 1]);
      StepAccounts(After(active, steps[..|steps| - 1]).value, steps[|steps| - 1], GivenUp(active, steps[..|steps| - 1]));
    }
  }

  /**
   In every run that drops no attempt twice: out of the foreground or closed, the feed holds no
   socket and has no timer pending, and the sockets still open are exactly those the probe gave up
   that have not ended since.
   */
  lemma QuietIsSilent(active: bool, steps: seq<Step>, s: State)
    requires After(active, steps) == Some(s) && DroppedOnce(active, steps) && Quiet(s)
    ensures Silent(s) && s.sockets == GivenUp(active, steps)
  {
    RunKeeps(active, steps);
    RunAccounts(active, steps);
  }

  /** A socket that opens late is closed, not adopted, and nothing else changes. */
  lemma LateOpenIsClosed(active: bool, steps: seq<Step>, s: State, a: nat)
    requires After(active, steps) == Some(s) && DroppedOnce(active, steps)
    requires a in s.opening && (Quiet(s) || a != s.attempt)
    ensures Do(s, Opened(a)) == s.(opening := s.opening - {a})
  {
    RunKeeps(active, steps);
  }

  /** While quiet, nothing but the app returning to the foreground starts anything. */
  lemma QuietStaysSilent(active: bool, steps: seq<Step>, s: State, step: Step)
    requires After(active, steps) == Some(s) && DroppedOnce(active, steps) && Quiet(s)
    requires Possible(s, step) && (step.Foreground? ==> s.closed)
    ensures Silent(Do(s, step)) && Quiet(Do(s, step)) && !Drops(s, step)
  {
    RunKeeps(active, steps);
    StepKeeps(s, step);
  }

  // ----- why one drop -----

  /** A drop leaves every timer known exactly when none was already waiting to reconnect. */
  lemma DropTracksIff(s: State)
    requires Tracked(s) && ProbeKnown(s)
    ensures Tracked(Dropped(s)) <==> !s.active || !WillReconnect(s)
  {
    var t := Dropped(s);
    if s.active && WillReconnect(s) {
      var alarm :| alarm in s.alarms && s.alarms[alarm].Reconnects?;
      assert Knows(s, alarm);
      assert alarm in t.alarms && !Knows(t, alarm);
    } else {
      forall alarm | alarm in t.alarms ensures alarm < t.nextAlarm && Knows(t, alarm) {
        if alarm != s.nextAlarm { assert Knows(s, alarm); }
      }
    }
  }

  lemma AfterOneMore(active: bool, steps: seq<Step>, s: State, last: Step)
    requires After(active, steps) == Some(s) && Possible(s, last)
    ensures After(active, steps + [last]) == Some(Do(s, last))
  {
    assert (steps + [last])[..|steps + [last]| - 1] == steps;
  }

  /** A live feed in its first attempt, its socket open. */
  predicate LiveAtFirst(s: State) {
    && s.attempt == 1 && s.active && !s.closed && s.stream == Some(1) && s.probe == Some(0) && s.timer == None
    && s.alarms == map[0 := Probes] && s.nextAlarm == 1 && s.started == {1} && s.sockets == {1} && s.retries == map[]
    && s.drops == {}
  }

  lemma GoesLive() returns (s: State)
    ensures After(true, [] + [Opened(1)] + [Snapshot(1, "agents")]) == Some(s) && LiveAtFirst(s)
  {
    s := Fresh(true);
    AfterOneMore(true, [], s, Opened(1));
    s := Do(s, Opened(1));
    AfterOneMore(true, [] + [Opened(1)], s, Snapshot(1, "agents"));
    s := Do(s, Snapshot(1, "agents"));
  }

  lemma DropTwice(s: State) returns (t: State)
    requires LiveAtFirst(s)
    ensures Possible(s, Missed(1)) && Possible(Do(s, Missed(1)), Ended(1)) && t == Do(Do(s, Missed(1)), Ended(1))
    ensures t.alarms == map[1 := Reconnects, 2 := Reconnects] && t.timer == Some(2)
    ensures t.attempt == 1 && t.probe == None && t.stream == None && t.retries == map[] && !t.closed
  {
    var once := Do(s, Missed(1));
    assert once.alarms == map[1 := Reconnects] && once.nextAlarm == 2 && once.probe == None;
    t := Do(once, Ended(1));
  }

  lemma WakesInBackground(s: State) returns (t: State, woken: State)
    requires s.alarms == map[1 := Reconnects, 2 := Reconnects] && s.timer == Some(2)
    requires s.attempt == 1 && s.probe == None && s.stream == None && s.retries == map[] && !s.closed
    ensures t == Do(s, Background) && !t.active && WillReconnect(t) && t.timer == None
    ensures Possible(t, Rings(1)) && Possible(Do(t, Rings(1)), Opened(3)) && woken == Do(Do(t, Rings(1)), Opened(3))
    ensures !woken.active && woken.stream == Some(3)
  {
    t := Do(s, Background);
    assert t.alarms == map[1 := Reconnects];
    woken := Do(Do(t, Rings(1)), Opened(3));
  }

  /**
   Why one drop: the probe gives a silent socket up, the socket then ends, and the app leaves the
   foreground. The first drop's timer is pending still and unknown to the feed, and when it rings
   the feed opens and holds a socket in the background.
   */
  lemma SecondDropReconnects(steps: seq<Step>)
    requires steps == [] + [Opened(1)] + [Snapshot(1, "agents")] + [Missed(1)] + [Ended(1)] + [Background]
    ensures var s := After(true, steps); s.Some? && !s.value.active && s.value.timer == None && WillReconnect(s.value)
    ensures var s := After(true, steps + [Rings(1)] + [Opened(3)]);
            s.Some? && !s.value.active && s.value.stream == Some(3)
  {
    hide Do, Possible;
    var live := GoesLive();
    var dropped := DropTwice(live);
    var back, woken := WakesInBackground(dropped);
    var first := [] + [Opened(1)] + [Snapshot(1, "agents")];
    AfterOneMore(true, first, live, Missed(1));
    AfterOneMore(true, first + [Missed(1)], Do(live, Missed(1)), Ended(1));
    assert Possible(dropped, Background) by { AlwaysPossible(dropped); }
    AfterOneMore(true, first + [Missed(1)] + [Ended(1)], dropped, Background);
    AfterOneMore(true, steps, back, Rings(1));
    AfterOneMore(true, steps + [Rings(1)], Do(back, Rings(1)), Opened(3));
  }

  lemma AlwaysPossible(s: State)
    ensures Possible(s, Background)
  {
  }

  lemma OnceMore(active: bool, steps: seq<Step>, s: State, last: Step)
    requires After(active, steps) == Some(s) && DroppedOnce(active, steps)
    requires Drops(s, last) ==> s.attempt !in s.drops
    ensures DroppedOnce(active, steps + [last])
  {
    assert (steps + [last])[..|steps + [last]| - 1] == steps;
  }

  /** A run in which a missed probe leaves its socket open in the background, with every attempt dropped once. */
  lemma MissedLeavesSocketOpen() returns (steps: seq<Step>, s: State)
    ensures After(true, steps) == Some(s) && DroppedOnce(true, steps)
    ensures !s.active && s.stream == None && s.sockets == {1}
  {
    steps := [] + [Opened(1)] + [Snapshot(1, "agents")];
    s := GoesLive();
    LiveOnce();
    OnceMore(true, steps, s, Missed(1));
    AfterOneMore(true, steps, s, Missed(1));
    steps, s := steps + [Missed(1)], Do(s, Missed(1));
    OnceMore(true, steps, s, Background);
    AfterOneMore(true, steps, s, Background);
    steps, s := steps + [Background], Do(s, Background);
  }

  lemma LiveOnce()
    ensures DroppedOnce(true, [] + [Opened(1)] + [Snapshot(1, "agents")])
  {
    OnceMore(true, [], Fresh(true), Opened(1));
    AfterOneMore(true, [], Fresh(true), Opened(1));
    OnceMore(true, [] + [Opened(1)], Do(Fresh(true), Opened(1)), Snapshot(1, "agents"));
  }

  // ----- as the source runs it -----

  /** What stands around the feed's own fields. */
  datatype Surroundings = Surroundings(
    active: bool,
    alarms: map<nat, Alarm>,
    nextAlarm: nat,
    opening: set<nat>,
    started: set<nat>,
    sockets: set<nat>,
    drops: set<nat>)

  class Follower {
    var closed: bool
    var attempt: nat
    var failures: nat
    var live: bool
    var timer: Option<nat>
    var stream: Option<nat>
    var probe: Option<nat>
    var retries: map<string, Retry>
    var around: Surroundings

    function Contents(): State
      reads this
    {
      State(closed, attempt, failures, live, timer, stream, probe, retries, around.active, around.alarms,
            around.nextAlarm, around.opening, around.started, around.sockets, around.drops)
    }

    constructor (foreground: bool)
      ensures Contents() == Fresh(foreground) && Inv(Contents())
    {
      closed, attempt, failures, live := false, 0, 0, false;
      timer, stream, probe, retries := None, None, None, map[];
      around := Surroundings(foreground, map[], 0, {}, {}, {}, {});
      new;
      FreshKeeps(foreground);
      if foreground { ConnectSocket(); }
    }

    method SetTimer(alarm: Alarm) returns (id: nat)
      modifies this`around
      ensures Contents() == Arm(old(Contents()), alarm) && id == old(around.nextAlarm)
    {
      id := around.nextAlarm;
      around := around.(alarms := around.alarms[id := alarm], nextAlarm := id + 1);
    }

    method SuspendSocket()
      modifies this
      ensures Contents() == Suspend(old(Contents()))
    {
      hide Without, RetryTimers;
      attempt := attempt + 1;
      var pending := Without(around.alarms, timer);
      timer := None;
      var open := stream;
      stream := None;
      live := false;
      pending := Without(pending, probe);
      probe := None;
      pending := pending - RetryTimers(retries);
      retries := map[];
      var left := if open.Some? then around.sockets - {open.value} else around.sockets;
      around := around.(alarms := pending, sockets := left);
    }

    method ConnectSocket()
      modifies this
      ensures Contents() == Connect(old(Contents()))
    {
      SuspendSocket();
      around := around.(opening := around.opening + {attempt}, started := around.started + {attempt});
    }

    method DropSocket()
      modifies this
      ensures Contents() == Dropped(old(Contents()))
    {
      hide Without, RetryTimers;
      stream := None;
      live := false;
      around := around.(alarms := Without(around.alarms, probe), drops := around.drops + {attempt});
      probe := None;
      if !around.active { return; }
      failures := failures + 1;
      var id := SetTimer(Reconnects);
      timer := Some(id);
    }

    method AskAgainLater(name: string)
      modifies this
      ensures Contents() == RetryLater(old(Contents()), name)
    {
      hide Without, RetryTimers;
      var retry := if name in retries then retries[name] else Retry(0, None);
      around := around.(alarms := Without(around.alarms, retry.timer));
      var id := SetTimer(AsksAgain(name));
      retries := retries[name := Retry(retry.failures + 1, Some(id))];
    }

    method MarkLoaded(name: string)
      modifies this
      ensures Contents() == Loaded(old(Contents()), name)
    {
      hide Without, RetryTimers;
      if name in retries {
        around := around.(alarms := Without(around.alarms, retries[name].timer));
        retries := retries - {name};
      }
    }

    method ShowWindow(name: string)
      modifies this
      ensures Contents() == ShowSnapshot(old(Contents()), name)
    {
      MarkLoaded(name);
      failures := 0;
      if !live {
        live := true;
        if probe.None? {
          var id := SetTimer(Probes);
          probe := Some(id);
        }
      }
    }

    method RingTimer(alarm: nat)
      requires alarm in around.alarms
      modifies this
      ensures Contents() == Ring(old(Contents()), alarm)
    {
      match around.alarms[alarm]
      case Reconnects =>
        around := around.(alarms := around.alarms - {alarm});
        ConnectSocket();
      case Probes =>
      case AsksAgain(name) =>
        around := around.(alarms := around.alarms - {alarm});
        if name in retries && retries[name].timer == Some(alarm) {
          retries := retries[name := retries[name].(timer := None)];
        }
    }

    /** One callback, timer or request; the invariant holds again after it, unless it was a second drop. */
    method Take(step: Step)
      requires Possible(Contents(), step)
      modifies this
      ensures Contents() == Do(old(Contents()), step)
      ensures old(Inv(Contents()) && (Drops(Contents(), step) ==> attempt !in around.drops)) ==> Inv(Contents())
    {
      hide Inv;
      if Inv(Contents()) && (Drops(Contents(), step) ==> attempt !in around.drops) { StepKeeps(Contents(), step); }
      match step
      case Foreground =>
        around := around.(active := true);
        if !closed { failures := 0; ConnectSocket(); }
      case Background =>
        around := around.(active := false);
        if !closed { SuspendSocket(); }
      case AskReconnect =>
        if !closed && around.active { failures := 0; ConnectSocket(); }
      case Close =>
        if !closed { closed := true; SuspendSocket(); }
      case Rings(alarm) => RingTimer(alarm);
      case Opened(a) =>
        around := around.(opening := around.opening - {a});
        if !closed && a == attempt { stream := Some(a); around := around.(sockets := around.sockets + {a}); }
      case OpenFailed(a) =>
        around := around.(opening := around.opening - {a});
        if !closed && a == attempt { DropSocket(); }
      case Ended(a) =>
        around := around.(sockets := around.sockets - {a});
        if !closed && a == attempt { DropSocket(); }
      case Missed(a) => if !closed && a == attempt { DropSocket(); }
      case Snapshot(a, name) => if !closed && a == attempt { ShowWindow(name); }
      case Changed(a, name) => if !closed && a == attempt { MarkLoaded(name); }
      case Refused(a, name) => if !closed && a == attempt { AskAgainLater(name); }
    }
  }
}
