// The feed never gives up in the foreground: there is always a socket, one being opened, or a timer to
// open one; a live feed is probed; and a window that was refused is asked for again.
module FeedAlive {
  import opened Wrappers
  import opened Feed
  import opened FeedRun

  /** A window's timer, while pending, asks for that window. */
  ghost predicate RetriesKnown(s: State) {
    forall name | name in s.retries && s.retries[name].timer.Some? ::
      var t := s.retries[name].timer.value;
      t < s.nextAlarm && (t in s.alarms ==> s.alarms[t] == AsksAgain(name))
  }

  /** A live feed, and no other, is probed, by a timer that is pending. */
  ghost predicate Probed(s: State) {
    && (s.live <==> s.probe.Some?)
    && (s.probe.Some? ==> s.probe.value in s.alarms && s.alarms[s.probe.value] == Probes)
  }

  /** There is a socket, or one is being opened, or a timer will open one. */
  ghost predicate GoesOn(s: State) {
    s.stream == Some(s.attempt) || s.attempt in s.opening || WillReconnect(s)
  }

  ghost predicate Awake(s: State) {
    RetriesKnown(s) && Probed(s) && (!Quiet(s) ==> GoesOn(s))
  }

  lemma SuspendIsAwake(s: State)
    requires Tracked(s)
    ensures RetriesKnown(Suspend(s)) && Probed(Suspend(s)) && RetriesKnown(Connect(s)) && Probed(Connect(s))
    ensures GoesOn(Connect(s))
  {
    SuspendSilences(s);
  }

  lemma DropIsAwake(s: State)
    requires RetriesKnown(s) && Probed(s) && ProbeKnown(s)
    ensures RetriesKnown(Dropped(s)) && Probed(Dropped(s)) && (s.active ==> GoesOn(Dropped(s)))
  {
    var t := Dropped(s);
    if s.active { assert t.alarms[s.nextAlarm] == Reconnects && WillReconnect(t); }
  }

  /** Cancelling a window's timer cancels no other. */
  lemma ClearsOnly(s: State, name: string)
    requires RetriesKnown(s) && name in s.retries
    ensures var t := ClearAlarm(s, s.retries[name].timer);
            && (WillReconnect(s) ==> WillReconnect(t))
            && (forall alarm | alarm in s.alarms && s.alarms[alarm] != AsksAgain(name) ::
                  alarm in t.alarms && t.alarms[alarm] == s.alarms[alarm])
            && (forall alarm | alarm in t.alarms :: alarm in s.alarms && t.alarms[alarm] == s.alarms[alarm])
  {
    var t := ClearAlarm(s, s.retries[name].timer);
    if alarm :| alarm in s.alarms && s.alarms[alarm].Reconnects? { assert alarm in t.alarms; }
  }

  lemma LoadedIsAwake(s: State, name: string)
    requires RetriesKnown(s) && Probed(s)
    ensures var t := Loaded(s, name);
            RetriesKnown(t) && Probed(t) && (GoesOn(s) ==> GoesOn(t)) && t.live == s.live && t.nextAlarm == s.nextAlarm
  {
    if name in s.retries {
      ClearsOnly(s, name);
      var t := Loaded(s, name);
      forall other | other in t.retries && t.retries[other].timer.Some?
        ensures var at := t.retries[other].timer.value;
                at < t.nextAlarm && (at in t.alarms ==> t.alarms[at] == AsksAgain(other))
      {
        assert other in s.retries;
      }
    }
  }

  lemma SnapshotIsAwake(s: State, name: string)
    requires RetriesKnown(s) && Probed(s) && Tracked(s)
    ensures var t := ShowSnapshot(s, name); RetriesKnown(t) && Probed(t) && (GoesOn(s) ==> GoesOn(t)) && t.live
  {
    LoadedIsAwake(s, name);
    var loaded, t := Loaded(s, name), ShowSnapshot(s, name);
    forall other | other in t.retries && t.retries[other].timer.Some?
      ensures var at := t.retries[other].timer.value;
              at < t.nextAlarm && (at in t.alarms ==> t.alarms[at] == AsksAgain(other))
    {
      assert other in loaded.retries;
    }
    assert forall alarm | alarm in loaded.alarms :: alarm in s.alarms && alarm < s.nextAlarm;
    assert forall alarm | alarm in loaded.alarms :: alarm in t.alarms && t.alarms[alarm] == loaded.alarms[alarm];
  }

  lemma RetryIsAwake(s: State, name: string)
    requires RetriesKnown(s) && Probed(s) && Tracked(s)
    ensures var t := RetryLater(s, name); RetriesKnown(t) && Probed(t) && (GoesOn(s) ==> GoesOn(t))
  {
    var t := RetryLater(s, name);
    if name in s.retries { ClearsOnly(s, name); }
    forall other | other in t.retries && t.retries[other].timer.Some?
      ensures var at := t.retries[other].timer.value;
              at < t.nextAlarm && (at in t.alarms ==> t.alarms[at] == AsksAgain(other))
    {
      assert other == name || other in s.retries;
    }
    if alarm :| alarm in s.alarms && s.alarms[alarm].Reconnects? { assert alarm in t.alarms && t.alarms[alarm].Reconnects?; }
  }

  lemma RingIsAwake(s: State, alarm: nat)
    requires RetriesKnown(s) && Probed(s) && Tracked(s) && alarm in s.alarms
    ensures var t := Ring(s, alarm); RetriesKnown(t) && Probed(t) && (GoesOn(s) ==> GoesOn(t))
  {
    if s.alarms[alarm].Reconnects? {
      var rung := s.(alarms := s.alarms - {alarm});
      assert Tracked(rung) by {
        forall other | other in rung.alarms ensures other < rung.nextAlarm && Knows(rung, other) { assert Knows(s, other); }
      }
      SuspendIsAwake(rung);
    } else {
      var t := Ring(s, alarm);
      if other :| other in s.alarms && s.alarms[other].Reconnects? { assert other in t.alarms && t.alarms[other].Reconnects?; }
    }
  }

  lemma OpenIsAwake(s: State, a: nat)
    requires RetriesKnown(s) && Probed(s) && a in s.opening
    ensures var t := Open(s, a); RetriesKnown(t) && Probed(t) && (!s.closed && GoesOn(s) ==> GoesOn(t))
  {
    var t := Open(s, a);
    assert t.alarms == s.alarms;
    if alarm :| alarm in s.alarms && s.alarms[alarm].Reconnects? { assert WillReconnect(t); }
  }

  /** What an attempt still opening or holding its socket does not lose by another's end. */
  lemma LessIsAwake(s: State, t: State)
    requires Awake(s) && !Quiet(s) && t.stream == s.stream && t.attempt == s.attempt && t.alarms == s.alarms
    requires t.retries == s.retries && t.live == s.live && t.probe == s.probe && t.nextAlarm == s.nextAlarm
    requires s.attempt in s.opening ==> s.attempt in t.opening
    ensures Awake(t)
  {
    assert WillReconnect(s) ==> WillReconnect(t);
  }

  lemma EndIsAwake(s: State, step: Step)
    requires Inv(s) && Awake(s) && Possible(s, step) && (step.OpenFailed? || step.Ended? || step.Missed?)
    ensures Awake(Do(s, step))
  {
    var t := match step case OpenFailed(a) => s.(opening := s.opening - {a}) case Ended(a) => s.(sockets := s.sockets - {a})
                        case _ => s;
    assert RetriesKnown(t) && Probed(t) && ProbeKnown(t);
    if !Stale(s, step.a) {
      DropIsAwake(t);
    } else if !Quiet(s) {
      LessIsAwake(s, t);
    }
  }

  lemma AppStepIsAwake(s: State, step: Step)
    requires Inv(s) && Awake(s) && (step.Foreground? || step.Background? || step.AskReconnect? || step.Close?)
    ensures Awake(Do(s, step))
  {
    var active := if step.Foreground? then true else if step.Background? then false else s.active;
    FlagsKeepCounted(s, active, s.closed || step.Close?);
    match step
    case Foreground => if !s.closed { SuspendIsAwake(s.(active := true, failures := 0)); }
    case Background => if !s.closed { SuspendIsAwake(s.(active := false)); }
    case AskReconnect => if !Quiet(s) { SuspendIsAwake(s.(failures := 0)); }
    case Close => if !s.closed { SuspendIsAwake(s.(closed := true)); }
  }

  lemma StepIsAwake(s: State, step: Step)
    requires Inv(s) && Awake(s) && Possible(s, step)
    ensures Awake(Do(s, step))
  {
    hide GoesOn, RetriesKnown, Probed, Tracked, ProbeKnown, SocketsKnown;
    match step
    case Rings(alarm) => assert !Quiet(s) by { QuietHasNoAlarm(s, alarm); } RingIsAwake(s, alarm);
    case Opened(a) => OpenIsAwake(s, a);
    case Snapshot(a, name) => if !Stale(s, a) { SnapshotIsAwake(s, name); }
    case Changed(a, name) => if !Stale(s, a) { LoadedIsAwake(s, name); }
    case Refused(a, name) => if !Stale(s, a) { RetryIsAwake(s, name); }
    case OpenFailed(_) => EndIsAwake(s, step);
    case Ended(_) => EndIsAwake(s, step);
    case Missed(_) => EndIsAwake(s, step);
    case _ => AppStepIsAwake(s, step);
  }

  lemma QuietHasNoAlarm(s: State, alarm: nat)
    requires Inv(s) && alarm in s.alarms
    ensures !Quiet(s)
  {
  }

  lemma {:induction false} RunIsAwake(active: bool, steps: seq<Step>)
    requires After(active, steps).Some? && DroppedOnce(active, steps)
    ensures Awake(After(active, steps).value)
  {
    if steps == [] {
      var s := State(false, 0, 0, false, None, None, None, map[], active, map[], 0, {}, {}, {}, {});
      if active { SuspendIsAwake(s); }
    } else {
      hide Awake, Inv, Do, Possible;
      RunIsAwake(active, steps[..|steps| - 1]);
      RunKeeps(active, steps[..|steps| - 1]);
      StepIsAwake(After(active, steps[..|steps| - 1]).value, steps[|steps| - 1]);
    }
  }

  /**
   In every run that drops no attempt twice: in the foreground the feed holds its attempt's socket, or
   is opening it, or has a timer pending that will open another.
   */
  lemma NeverStuck(active: bool, steps: seq<Step>, s: State)
    requires After(active, steps) == Some(s) && DroppedOnce(active, steps) && s.active && !s.closed
    ensures || s.stream == Some(s.attempt) || s.attempt in s.opening
            || exists alarm :: alarm in s.alarms && s.alarms[alarm] == Reconnects && s.timer == Some(alarm)
  {
    RunIsAwake(active, steps);
    RunKeeps(active, steps);
    if WillReconnect(s) {
      var alarm :| alarm in s.alarms && s.alarms[alarm].Reconnects?;
      assert Knows(s, alarm);
    }
  }

  /** In every such run, the feed says live only while a probe is pending. */
  lemma LiveIsProbed(active: bool, steps: seq<Step>, s: State)
    requires After(active, steps) == Some(s) && DroppedOnce(active, steps)
    ensures s.live <==> exists alarm :: alarm in s.alarms && s.alarms[alarm] == Probes
  {
    RunIsAwake(active, steps);
    RunKeeps(active, steps);
    if alarm :| alarm in s.alarms && s.alarms[alarm] == Probes { assert Knows(s, alarm); }
  }

  // ----- a refused window is asked for again -----

  /** The timer that will ask for the window again, and the only one. */
  ghost predicate WillAsk(s: State, name: string, alarm: nat) {
    && alarm in s.alarms && s.alarms[alarm] == AsksAgain(name)
    && name in s.retries && s.retries[name].timer == Some(alarm)
    && forall other | other in s.alarms && s.alarms[other] == AsksAgain(name) :: other == alarm
  }

  /** A refusal is counted, and leaves exactly one timer to ask for the window again. */
  lemma RefusedIsAskedAgain(active: bool, steps: seq<Step>, s: State, a: nat, name: string)
    requires After(active, steps) == Some(s) && DroppedOnce(active, steps)
    requires Possible(s, Refused(a, name)) && !s.closed && a == s.attempt
    ensures var t := Do(s, Refused(a, name));
            && WillAsk(t, name, s.nextAlarm)
            && t.retries[name].failures == (if name in s.retries then s.retries[name].failures else 0) + 1
  {
    RunKeeps(active, steps);
    var t := Do(s, Refused(a, name));
    forall other | other in t.alarms && t.alarms[other] == AsksAgain(name) ensures other == s.nextAlarm {
      assert other in s.alarms ==> Knows(s, other);
    }
  }

  /** Whether the step ends this attempt, or is the window's own news. */
  predicate Overtakes(s: State, step: Step, name: string, alarm: nat) {
    match step
    case Rings(rung) => rung == alarm || (rung in s.alarms && s.alarms[rung] == Reconnects)
    case Snapshot(a, other) => !Stale(s, a) && other == name
    case Changed(a, other) => !Stale(s, a) && other == name
    case Refused(a, other) => !Stale(s, a) && other == name
    case Foreground => !s.closed
    case Background => !s.closed
    case AskReconnect => !Quiet(s)
    case Close => !s.closed
    case _ => false
  }

  lemma LoadedKeepsAsk(s: State, other: string, name: string, alarm: nat)
    requires RetriesKnown(s) && WillAsk(s, name, alarm) && other != name
    ensures WillAsk(Loaded(s, other), name, alarm)
  {
    if other in s.retries { ClearsOnly(s, other); }
  }

  lemma ShowKeepsAsk(s: State, other: string, name: string, alarm: nat)
    requires RetriesKnown(s) && Tracked(s) && WillAsk(s, name, alarm) && other != name
    ensures WillAsk(ShowSnapshot(s, other), name, alarm)
  {
    LoadedKeepsAsk(s, other, name, alarm);
  }

  lemma RetryKeepsAsk(s: State, other: string, name: string, alarm: nat)
    requires RetriesKnown(s) && Tracked(s) && WillAsk(s, name, alarm) && other != name
    ensures WillAsk(RetryLater(s, other), name, alarm)
  {
    if other in s.retries { ClearsOnly(s, other); }
  }

  lemma DropKeepsAsk(s: State, name: string, alarm: nat)
    requires Tracked(s) && ProbeKnown(s) && WillAsk(s, name, alarm)
    ensures WillAsk(Dropped(s), name, alarm)
  {
  }

  /** It stays pending until it rings, unless the window loads, is refused again, or all windows are asked for anew. */
  lemma AskStaysPending(active: bool, steps: seq<Step>, s: State, step: Step, name: string, alarm: nat)
    requires After(active, steps) == Some(s) && DroppedOnce(active, steps)
    requires Possible(s, step) && WillAsk(s, name, alarm) && !Overtakes(s, step, name, alarm)
    ensures WillAsk(Do(s, step), name, alarm)
  {
    RunIsAwake(active, steps);
    RunKeeps(active, steps);
    hide ShowSnapshot, Loaded, RetryLater, Dropped, Suspend, After, DroppedOnce, RetriesKnown, Tracked, ProbeKnown, Probed,
      GoesOn, SocketsKnown, Silent;
    match step
    case Snapshot(a, other) => if !Stale(s, a) { ShowKeepsAsk(s, other, name, alarm); }
    case Changed(a, other) => if !Stale(s, a) { LoadedKeepsAsk(s, other, name, alarm); }
    case Refused(a, other) => if !Stale(s, a) { RetryKeepsAsk(s, other, name, alarm); }
    case OpenFailed(a) => if !Stale(s, a) { OpeningLess(s, a); DropKeepsAsk(s.(opening := s.opening - {a}), name, alarm); }
    case Ended(a) => if !Stale(s, a) { SocketsLess(s, a); DropKeepsAsk(s.(sockets := s.sockets - {a}), name, alarm); }
    case Missed(a) => if !Stale(s, a) { DropKeepsAsk(s, name, alarm); }
    case _ =>
  }

  /** Ringing, it is gone from what the feed waits for, and the count of refusals stays for the next wait. */
  lemma AskRings(s: State, name: string, alarm: nat)
    requires WillAsk(s, name, alarm)
    ensures var t := Do(s, Rings(alarm));
            && (forall other | other in t.alarms :: t.alarms[other] != AsksAgain(name))
            && t == s.(alarms := t.alarms, retries := t.retries)
            && t.retries == s.retries[name := Retry(s.retries[name].failures, None)]
  {
  }

  // ----- the wait before the next socket -----

  /** Whether the step forgives earlier failures: a snapshot of this attempt, the foreground, or a person's request. */
  predicate Forgives(s: State, step: Step) {
    match step
    case Snapshot(a, _) => !Stale(s, a)
    case Foreground => !s.closed
    case AskReconnect => !Quiet(s)
    case _ => false
  }

  /** Sockets lost in the foreground since failures were last forgiven. */
  function Losses(active: bool, steps: seq<Step>): nat {
    if steps == [] then 0
    else
      var before, last := After(active, steps[..|steps| - 1]), steps[|steps| - 1];
      if before.None? then 0
      else if Forgives(before.value, last) then 0
      else if Drops(before.value, last) then Losses(active, steps[..|steps| - 1]) + 1
      else Losses(active, steps[..|steps| - 1])
  }

  lemma {:induction false} FailuresCountLosses(active: bool, steps: seq<Step>)
    requires After(active, steps).Some? && DroppedOnce(active, steps)
    ensures After(active, steps).value.failures == Losses(active, steps)
  {
    if steps != [] {
      var init, last := steps[..|steps| - 1], steps[|steps| - 1];
      FailuresCountLosses(active, init);
      RunKeeps(active, init);
      StepCounts(After(active, init).value, last);
    }
  }

  lemma StepCounts(s: State, step: Step)
    requires Inv(s) && Possible(s, step)
    ensures Do(s, step).failures
            == if Forgives(s, step) then 0 else if Drops(s, step) then s.failures + 1 else s.failures
  {
    hide Without, RetryTimers;
  }
}
