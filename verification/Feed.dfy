// apps/ios/feed.ts, class Feed: one collections socket, held only in the foreground. Every callback
// and timer is a step of its own; the attempt counter is what tells an old callback from a new one.
module Feed {
  import opened Wrappers

  /** What a pending timer will do. */
  datatype Alarm = Reconnects | Probes | AsksAgain(name: string)

  datatype Retry = Retry(failures: nat, timer: Option<nat>)

  /**
   The feed's fields, then its surroundings: whether the app is in the foreground, the timers pending,
   the attempts that have opened or are opening a socket, the sockets open, and the attempts dropped.
   A socket is named by the attempt that opened it.
   */
  datatype State = State(
    closed: bool,
    attempt: nat,
    failures: nat,
    live: bool,
    timer: Option<nat>,
    stream: Option<nat>,
    probe: Option<nat>,
    retries: map<string, Retry>,
    active: bool,
    alarms: map<nat, Alarm>,
    nextAlarm: nat,
    opening: set<nat>,
    started: set<nat>,
    sockets: set<nat>,
    drops: set<nat>)

  function Without(alarms: map<nat, Alarm>, timer: Option<nat>): map<nat, Alarm> {
    if timer.Some? then alarms - {timer.value} else alarms
  }

  function ClearAlarm(s: State, timer: Option<nat>): State {
    s.(alarms := Without(s.alarms, timer))
  }

  /** The timers of the windows waiting to be asked for again. */
  function RetryTimers(retries: map<string, Retry>): set<nat> {
    set name | name in retries && retries[name].timer.Some? :: retries[name].timer.value
  }

  function Suspend(s: State): State {
    s.(attempt := s.attempt + 1, timer := None, stream := None, live := false, probe := None,
       alarms := Without(Without(s.alarms, s.timer), s.probe) - RetryTimers(s.retries), retries := map[],
       sockets := if s.stream.Some? then s.sockets - {s.stream.value} else s.sockets)
  }

  function Connect(s: State): State {
    var anew := Suspend(s);
    anew.(opening := anew.opening + {anew.attempt}, started := anew.started + {anew.attempt})
  }

  function Arm(s: State, alarm: Alarm): State {
    s.(alarms := s.alarms[s.nextAlarm := alarm], nextAlarm := s.nextAlarm + 1)
  }

  function StopProbing(s: State): State {
    ClearAlarm(s, s.probe).(probe := None)
  }

  /** The socket of the current attempt is gone; in the foreground, a timer will open another. */
  function Dropped(s: State): State {
    var lost := StopProbing(s).(stream := None, live := false, drops := s.drops + {s.attempt});
    if !s.active then lost
    else Arm(lost, Reconnects).(timer := Some(lost.nextAlarm), failures := lost.failures + 1)
  }

  predicate Stale(s: State, a: nat) {
    s.closed || a != s.attempt
  }

  function StartProbing(s: State): State {
    if s.probe.Some? then s else Arm(s, Probes).(probe := Some(s.nextAlarm))
  }

  function RetryLater(s: State, name: string): State {
    var retry := if name in s.retries then s.retries[name] else Retry(0, None);
    var cleared := ClearAlarm(s, retry.timer);
    Arm(cleared, AsksAgain(name)).(retries := s.retries[name := Retry(retry.failures + 1, Some(s.nextAlarm))])
  }

  function Loaded(s: State, name: string): State {
    if name in s.retries then ClearAlarm(s, s.retries[name].timer).(retries := s.retries - {name}) else s
  }

  // ----- what can happen -----

  datatype Step =
    | Foreground
    | Background
    | AskReconnect
    | Close
    | Rings(alarm: nat)
    | Opened(a: nat)
    | OpenFailed(a: nat)
    | Ended(a: nat)
    | Missed(a: nat)
    | Snapshot(a: nat, name: string)
    | Changed(a: nat, name: string)
    | Refused(a: nat, name: string)

  /** What the surroundings can do: timers that are pending ring, sockets that were asked for answer. */
  predicate Possible(s: State, step: Step) {
    match step
    case Rings(alarm) => alarm in s.alarms
    case Opened(a) => a in s.opening
    case OpenFailed(a) => a in s.opening
    case Ended(a) => a in s.started
    case Missed(a) => a in s.started
    case Snapshot(a, _) => a in s.started
    case Changed(a, _) => a in s.started
    case Refused(a, _) => a in s.started
    case _ => true
  }

  function Open(s: State, a: nat): State {
    var answered := s.(opening := s.opening - {a});
    if Stale(s, a) then answered
    else answered.(stream := Some(a), sockets := s.sockets + {a})
  }

  function Ring(s: State, alarm: nat): State
    requires alarm in s.alarms
  {
    match s.alarms[alarm]
    case Reconnects => Connect(s.(alarms := s.alarms - {alarm}))
    case Probes => s
    case AsksAgain(name) =>
      var rung := s.(alarms := s.alarms - {alarm});
      if name in s.retries && s.retries[name].timer == Some(alarm) then
        rung.(retries := s.retries[name := s.retries[name].(timer := None)])
      else rung
  }

  function ShowSnapshot(s: State, name: string): State {
    var shown := Loaded(s, name).(failures := 0);
    if s.live then shown else StartProbing(shown.(live := true))
  }

  function Do(s: State, step: Step): State
    requires Possible(s, step)
  {
    match step
    case Foreground => if s.closed then s.(active := true) else Connect(s.(active := true, failures := 0))
    case Background => if s.closed then s.(active := false) else Suspend(s.(active := false))
    case AskReconnect => if s.closed || !s.active then s else Connect(s.(failures := 0))
    case Close => if s.closed then s else Suspend(s.(closed := true))
    case Rings(alarm) => Ring(s, alarm)
    case Opened(a) => Open(s, a)
    case OpenFailed(a) => var failed := s.(opening := s.opening - {a}); if Stale(s, a) then failed else Dropped(failed)
    case Ended(a) => var ended := s.(sockets := s.sockets - {a}); if Stale(s, a) then ended else Dropped(ended)
    case Missed(a) => if Stale(s, a) then s else Dropped(s)
    case Snapshot(a, name) => if Stale(s, a) then s else ShowSnapshot(s, name)
    case Changed(a, name) => if Stale(s, a) then s else Loaded(s, name)
    case Refused(a, name) => if Stale(s, a) then s else RetryLater(s, name)
  }

  /** Whether this step drops the current attempt. */
  predicate Drops(s: State, step: Step) {
    (step.OpenFailed? || step.Ended? || step.Missed?) && !Stale(s, step.a)
  }

  function Fresh(active: bool): State {
    var s := State(false, 0, 0, false, None, None, None, map[], active, map[], 0, {}, {}, {}, {});
    if active then Connect(s) else s
  }

  // ----- what every run keeps -----

  predicate Quiet(s: State) {
    s.closed || !s.active
  }

  /** The feed still knows this pending timer, and can cancel it. */
  predicate Knows(s: State, alarm: nat)
    requires alarm in s.alarms
  {
    match s.alarms[alarm]
    case Reconnects => s.timer == Some(alarm)
    case Probes => s.probe == Some(alarm)
    case AsksAgain(name) => name in s.retries && s.retries[name].timer == Some(alarm)
  }

  ghost predicate Tracked(s: State) {
    forall alarm | alarm in s.alarms :: alarm < s.nextAlarm && Knows(s, alarm)
  }

  /** The probe's timer, while pending, is a probe. */
  ghost predicate ProbeKnown(s: State) {
    s.probe.Some? ==>
      s.probe.value < s.nextAlarm && (s.probe.value in s.alarms ==> s.alarms[s.probe.value].Probes?)
  }

  predicate WillReconnect(s: State) {
    exists alarm :: alarm in s.alarms && s.alarms[alarm].Reconnects?
  }

  /** Open sockets are the one held and those of attempts that were dropped while open. */
  ghost predicate SocketsKnown(s: State) {
    forall a | a in s.sockets :: s.stream == Some(a) || a in s.drops
  }

  ghost predicate Inv(s: State) {
    && Tracked(s) && ProbeKnown(s)
    && (WillReconnect(s) ==> s.attempt in s.drops)
    && (forall a | a in s.drops :: a <= s.attempt)
    && (forall a | a in s.started :: a <= s.attempt)
    && s.opening <= s.started
    && (s.stream.Some? ==> s.stream.value == s.attempt)
    && SocketsKnown(s)
    && (Quiet(s) ==> s.attempt !in s.started && Silent(s))
  }

  /** No socket held, no timer pending of any kind. */
  predicate Silent(s: State) {
    s.stream.None? && s.alarms == map[] && s.timer.None? && s.probe.None? && s.retries == map[]
  }

  /** Suspending cancels all there is. */
  lemma SuspendSilences(s: State)
    requires Tracked(s)
    ensures Silent(Suspend(s))
  {
    var t := Suspend(s);
    forall alarm ensures alarm !in t.alarms {
      if alarm in s.alarms && s.alarms[alarm].AsksAgain? {
        assert Knows(s, alarm);
        assert alarm in RetryTimers(s.retries);
      }
    }
  }

  /** The part of the invariant that suspending needs, whatever just changed the flags. */
  ghost predicate Counted(s: State) {
    && Tracked(s) && ProbeKnown(s)
    && (forall a | a in s.drops :: a <= s.attempt)
    && (forall a | a in s.started :: a <= s.attempt)
    && s.opening <= s.started && SocketsKnown(s)
  }

  lemma SuspendKeeps(s: State)
    requires Counted(s)
    ensures Inv(Suspend(s))
  {
    SuspendSilences(s);
  }

  lemma ConnectKeeps(s: State)
    requires Counted(s) && !Quiet(s)
    ensures Inv(Connect(s))
  {
    SuspendSilences(s);
  }

  lemma ClearKeeps(s: State, timer: Option<nat>)
    requires Tracked(s)
    ensures Tracked(ClearAlarm(s, timer)) && (WillReconnect(ClearAlarm(s, timer)) ==> WillReconnect(s))
  {
    var t := ClearAlarm(s, timer);
    forall alarm | alarm in t.alarms ensures alarm < t.nextAlarm && Knows(t, alarm) { assert Knows(s, alarm); }
  }

  lemma DropKeeps(s: State)
    requires Inv(s) && !Quiet(s) && s.attempt !in s.drops
    ensures Inv(Dropped(s))
  {
    var t := Dropped(s);
    ClearKeeps(s, s.probe);
    forall alarm | alarm in t.alarms ensures alarm < t.nextAlarm && Knows(t, alarm) {
      if alarm != s.nextAlarm { assert Knows(s, alarm); }
    }
  }

  lemma LoadedKeeps(s: State, name: string)
    requires Inv(s) && !Quiet(s)
    ensures Inv(Loaded(s, name))
  {
    if name in s.retries {
      var t := Loaded(s, name);
      ClearKeeps(s, s.retries[name].timer);
      forall alarm | alarm in t.alarms ensures alarm < t.nextAlarm && Knows(t, alarm) { assert Knows(s, alarm); }
    }
  }

  lemma SnapshotKeeps(s: State, name: string)
    requires Inv(s) && !Quiet(s)
    ensures Inv(ShowSnapshot(s, name))
  {
    LoadedKeeps(s, name);
    var loaded, t := Loaded(s, name), ShowSnapshot(s, name);
    forall alarm | alarm in t.alarms ensures alarm < t.nextAlarm && Knows(t, alarm) {
      if alarm in loaded.alarms { assert Knows(loaded, alarm); }
    }
  }

  lemma RetryKeeps(s: State, name: string)
    requires Inv(s) && !Quiet(s)
    ensures Inv(RetryLater(s, name))
  {
    var t := RetryLater(s, name);
    forall alarm | alarm in t.alarms ensures alarm < t.nextAlarm && Knows(t, alarm) {
      if alarm in s.alarms { assert Knows(s, alarm); }
    }
  }

  lemma RingKeeps(s: State, alarm: nat)
    requires Inv(s) && alarm in s.alarms
    ensures Inv(Ring(s, alarm))
  {
    assert Knows(s, alarm);
    var rung := s.(alarms := s.alarms - {alarm});
    forall other | other in rung.alarms ensures other < rung.nextAlarm && Knows(rung, other) { assert Knows(s, other); }
    if s.alarms[alarm].Reconnects? {
      ConnectKeeps(rung);
    } else if s.alarms[alarm].AsksAgain? {
      var t := Ring(s, alarm);
      forall other | other in t.alarms ensures other < t.nextAlarm && Knows(t, other) { assert Knows(s, other); }
    }
  }

  lemma OpenKeeps(s: State, a: nat)
    requires Inv(s) && a in s.opening
    ensures Inv(Open(s, a))
  {
    var t := Open(s, a);
    forall alarm | alarm in s.alarms ensures Knows(t, alarm) { assert Knows(s, alarm); }
  }

  /** Every step keeps the invariant, if it is not a second drop of one attempt. */
  lemma StepKeeps(s: State, step: Step)
    requires Inv(s) && Possible(s, step) && (Drops(s, step) ==> s.attempt !in s.drops)
    ensures Inv(Do(s, step))
  {
    match step
    case Rings(alarm) => RingKeeps(s, alarm);
    case Opened(a) => OpenKeeps(s, a);
    case OpenFailed(a) => OpeningLess(s, a); if !Stale(s, a) { DropKeeps(s.(opening := s.opening - {a})); }
    case Ended(a) => SocketsLess(s, a); if !Stale(s, a) { DropKeeps(s.(sockets := s.sockets - {a})); }
    case Missed(a) => if !Stale(s, a) { DropKeeps(s); }
    case Snapshot(a, name) => if !Stale(s, a) { SnapshotKeeps(s, name); }
    case Changed(a, name) => if !Stale(s, a) { LoadedKeeps(s, name); }
    case Refused(a, name) => if !Stale(s, a) { RetryKeeps(s, name); }
    case _ => AppStepKeeps(s, step);
  }

  /** The steps the app and the person take. */
  lemma AppStepKeeps(s: State, step: Step)
    requires Inv(s) && (step.Foreground? || step.Background? || step.AskReconnect? || step.Close?)
    ensures Inv(Do(s, step))
  {
    var active := if step.Foreground? then true else if step.Background? then false else s.active;
    FlagsKeepCounted(s, active, s.closed || step.Close?);
    match step
    case Foreground => if !s.closed { ConnectKeeps(s.(active := true, failures := 0)); }
    case Background => if !s.closed { SuspendKeeps(s.(active := false)); }
    case AskReconnect => if !Quiet(s) { ConnectKeeps(s.(failures := 0)); }
    case Close => if !s.closed { SuspendKeeps(s.(closed := true)); }
  }

  lemma FlagsKeepCounted(s: State, active: bool, closed: bool)
    requires Counted(s)
    ensures Counted(s.(active := active, closed := closed)) && Counted(s.(active := active, closed := closed, failures := 0))
  {
    var t, u := s.(active := active, closed := closed), s.(active := active, closed := closed, failures := 0);
    forall alarm | alarm in s.alarms ensures Knows(t, alarm) && Knows(u, alarm) { assert Knows(s, alarm); }
  }

  lemma OpeningLess(s: State, a: nat)
    requires Inv(s)
    ensures Inv(s.(opening := s.opening - {a}))
  {
    var t := s.(opening := s.opening - {a});
    forall alarm | alarm in s.alarms ensures Knows(t, alarm) { assert Knows(s, alarm); }
  }

  lemma SocketsLess(s: State, a: nat)
    requires Inv(s)
    ensures Inv(s.(sockets := s.sockets - {a}))
  {
    var t := s.(sockets := s.sockets - {a});
    forall alarm | alarm in s.alarms ensures Knows(t, alarm) { assert Knows(s, alarm); }
  }
}
