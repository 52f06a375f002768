// apps/ios/feed.ts, class TerminalFollow: following one terminal on the feed's socket. Every await is
// a step boundary: a request in flight is a frame that some later step answers, in any order.
module TerminalFollow {
  import opened Wrappers
  import TerminalFence

  /** How a request failed, as far as following it tells apart. */
  datatype Error = Restarted | StaleFence | Passing | Fatal

  datatype Purpose = Attaches(attempt: nat) | Detaches

  /** A request in flight: the first read, or the fenced loop's read or action on its `n`th try. */
  datatype Frame =
    | FirstRead(attempt: nat)
    | FenceRead(purpose: Purpose, expected: string, n: nat)
    | Acting(purpose: Purpose, expected: string, n: nat)

  /** What is seen from outside, in order. `Stopped` is the end of following, with its last issue if any. */
  datatype Event =
    | ReadScreen(incarnation: string)
    | Action(expected: string)
    | Shown(incarnation: string)
    | Issue(text: string)
    | Stopped(issue: string)

  datatype State = State(
    closed: bool,
    incarnation: string,
    attempt: nat,
    failures: nat,
    timer: Option<nat>,
    timers: set<nat>,
    nextTimer: nat,
    frames: map<nat, Frame>,
    nextFrame: nat,
    log: seq<Event>)

  const FENCE_ATTEMPTS: nat := TerminalFence.FENCE_ATTEMPTS
  const RESTARTED: string := "Terminal restarted; reopen it before sending input."

  function Log(s: State, event: Event): State {
    s.(log := s.log + [event])
  }

  function Await(s: State, frame: Frame): State {
    s.(frames := s.frames[s.nextFrame := frame], nextFrame := s.nextFrame + 1)
  }

  function Cancel(s: State): State {
    s.(attempt := s.attempt + 1, timer := None,
       timers := if s.timer.Some? then s.timers - {s.timer.value} else s.timers)
  }

  function Stop(s: State, issue: string): State {
    var stopped := Cancel(s.(closed := true));
    if s.closed then stopped else Log(stopped, Stopped(issue))
  }

  function RetrySoon(s: State): State {
    Log(s, Issue("Terminal stream interrupted; reconnecting."))
      .(failures := s.failures + 1, timer := Some(s.nextTimer), timers := s.timers + {s.nextTimer},
        nextTimer := s.nextTimer + 1)
  }

  predicate Stale(s: State, a: nat) {
    s.closed || a != s.attempt
  }

  function Attach(s: State): State {
    var t := Cancel(s);
    Await(t, if t.incarnation == "" then FirstRead(t.attempt) else FenceRead(Attaches(t.attempt), t.incarnation, 0))
  }

  /** An error leaves the fenced loop: attaching handles it, detaching ignores it. */
  function Throw(s: State, purpose: Purpose, error: Error): State {
    if purpose.Detaches? || Stale(s, purpose.attempt) then s
    else
      match error
      case Restarted => Stop(s, RESTARTED)
      case Fatal => Stop(s, "fatal")
      case _ => RetrySoon(s)
  }

  function Answered(s: State, id: nat): State {
    s.(frames := s.frames - {id})
  }

  function FirstReadAnswered(s: State, a: nat, read: Result<string, Error>): State {
    match read
    case Failure(error) => Throw(s, Attaches(a), error)
    case Success(incarnation) =>
      var seen := Log(s, ReadScreen(incarnation));
      if Stale(s, a) then seen
      else Await(Log(seen.(incarnation := incarnation), Shown(incarnation)), FenceRead(Attaches(a), incarnation, 0))
  }

  function FenceReadAnswered(s: State, purpose: Purpose, expected: string, n: nat, read: Result<string, Error>): State {
    match read
    case Failure(error) => Throw(s, purpose, error)
    case Success(incarnation) =>
      var seen := Log(s, ReadScreen(incarnation));
      if incarnation != expected then Throw(seen, purpose, Restarted)
      else Await(Log(seen, Action(expected)), Acting(purpose, expected, n))
  }

  function ActionAnswered(s: State, purpose: Purpose, expected: string, n: nat, acted: Result<bool, Error>): State {
    match acted
    case Failure(error) =>
      if error == StaleFence && n + 1 < FENCE_ATTEMPTS then Await(s, FenceRead(purpose, expected, n + 1))
      else Throw(s, purpose, error)
    case Success(capability) =>
      if purpose.Detaches? || Stale(s, purpose.attempt) || capability then s
      else Stop(s, "The gateway returned no terminal stream.")
  }

  function ShowScreen(s: State, incarnation: string): State {
    if s.closed then s
    else if incarnation != s.incarnation then Stop(s, RESTARTED)
    else Log(Log(s.(failures := 0), Issue("")), Shown(incarnation))
  }

  function Refuse(s: State, error: Error): State {
    if s.closed then s else if error == StaleFence || error == Passing then RetrySoon(s) else Stop(s, "refused")
  }

  function CloseFollow(s: State): State {
    if s.closed then s
    else
      var stopped := Stop(s, "");
      if s.incarnation == "" then stopped else Await(stopped, FenceRead(Detaches, s.incarnation, 0))
  }

  datatype Step =
    | AttachNow
    | SocketLost
    | Rings(timer: nat)
    | AnswerRead(id: nat, read: Result<string, Error>)
    | AnswerAction(id: nat, acted: Result<bool, Error>)
    | ScreenFrame(incarnation: string)
    | ErrorFrame(error: Error)
    | CloseNow

  predicate Possible(s: State, step: Step) {
    match step
    case Rings(timer) => timer in s.timers
    case AnswerRead(id, read) => id in s.frames && !s.frames[id].Acting? && read != Failure(Restarted)
    case AnswerAction(id, acted) => id in s.frames && s.frames[id].Acting? && acted != Failure(Restarted)
    case _ => true
  }

  function Do(s: State, step: Step): State
    requires Possible(s, step)
  {
    match step
    case AttachNow => Attach(s)
    case SocketLost => Cancel(s)
    case Rings(timer) => Attach(s.(timers := s.timers - {timer}))
    case AnswerRead(id, read) =>
      if s.frames[id].FirstRead? then FirstReadAnswered(Answered(s, id), s.frames[id].attempt, read)
      else FenceReadAnswered(Answered(s, id), s.frames[id].purpose, s.frames[id].expected, s.frames[id].n, read)
    case AnswerAction(id, acted) =>
      ActionAnswered(Answered(s, id), s.frames[id].purpose, s.frames[id].expected, s.frames[id].n, acted)
    case ScreenFrame(incarnation) => ShowScreen(s, incarnation)
    case ErrorFrame(error) => Refuse(s, error)
    case CloseNow => CloseFollow(s)
  }

  function Start(): State {
    State(false, "", 0, 0, None, {}, 0, map[], 0, [])
  }

  function After(steps: seq<Step>): Option<State> {
    if steps == [] then Some(Start())
    else
      var before, last := After(steps[..|steps| - 1]), steps[|steps| - 1];
      if before.Some? && Possible(before.value, last) then Some(Do(before.value, last)) else None
  }

  // ----- what the log promises -----

  predicate Handles(event: Event) {
    event.Shown? || event.Issue? || event.Stopped?
  }

  /** Nothing is shown or said after the follow has stopped. */
  ghost predicate SilentOnceStopped(log: seq<Event>) {
    forall i, j :: 0 <= i < j < |log| && log[i].Stopped? ==> !Handles(log[j])
  }

  predicate HasStopped(log: seq<Event>) {
    exists i :: 0 <= i < |log| && log[i].Stopped?
  }

  /** Every action comes right after a read of the incarnation it is fenced to. */
  ghost predicate ActsOnFreshReads(log: seq<Event>) {
    forall i :: 0 <= i < |log| && log[i].Action? ==> i > 0 && log[i - 1] == ReadScreen(log[i].expected)
  }

  ghost predicate ClosedInv(s: State) {
    SilentOnceStopped(s.log) && (s.closed <==> HasStopped(s.log)) && ActsOnFreshReads(s.log)
  }

  lemma LogKeeps(s: State, event: Event)
    requires ClosedInv(s) && !event.Stopped? && !event.Action? && (Handles(event) ==> !s.closed)
    ensures ClosedInv(Log(s, event))
  {
    var log := s.log + [event];
    assert forall i :: 0 <= i < |s.log| ==> log[i] == s.log[i];
    assert HasStopped(s.log) <==> HasStopped(log) by {
      if HasStopped(s.log) { var i :| 0 <= i < |s.log| && s.log[i].Stopped?; assert log[i].Stopped?; }
    }
  }

  lemma ActKeeps(s: State, expected: string)
    requires ClosedInv(s) && s.log != [] && s.log[|s.log| - 1] == ReadScreen(expected)
    ensures ClosedInv(Log(s, Action(expected)))
  {
    var log := s.log + [Action(expected)];
    assert forall i :: 0 <= i < |s.log| ==> log[i] == s.log[i];
    assert HasStopped(s.log) <==> HasStopped(log) by {
      if HasStopped(s.log) { var i :| 0 <= i < |s.log| && s.log[i].Stopped?; assert log[i].Stopped?; }
    }
  }

  lemma StopKeeps(s: State, issue: string)
    requires ClosedInv(s)
    ensures ClosedInv(Stop(s, issue))
  {
    if !s.closed {
      var log := s.log + [Stopped(issue)];
      assert log[|s.log|].Stopped?;
      assert forall i :: 0 <= i < |s.log| ==> log[i] == s.log[i];
    }
  }

  lemma ThrowKeeps(s: State, purpose: Purpose, error: Error)
    requires ClosedInv(s)
    ensures ClosedInv(Throw(s, purpose, error))
  {
    if purpose.Attaches? && !Stale(s, purpose.attempt) {
      StopKeeps(s, RESTARTED);
      StopKeeps(s, "fatal");
      LogKeeps(s, Issue("Terminal stream interrupted; reconnecting."));
    }
  }

  lemma ReadKeeps(s: State, frame: Frame, read: Result<string, Error>)
    requires ClosedInv(s) && !frame.Acting?
    ensures ClosedInv(if frame.FirstRead? then FirstReadAnswered(s, frame.attempt, read)
                      else FenceReadAnswered(s, frame.purpose, frame.expected, frame.n, read))
  {
    if read.Failure? {
      ThrowKeeps(s, if frame.FirstRead? then Attaches(frame.attempt) else frame.purpose, read.error);
    } else {
      var seen := Log(s, ReadScreen(read.value));
      LogKeeps(s, ReadScreen(read.value));
      if frame.FirstRead? {
        if !Stale(s, frame.attempt) { LogKeeps(seen.(incarnation := read.value), Shown(read.value)); }
      } else {
        ThrowKeeps(seen, frame.purpose, Restarted);
        if read.value == frame.expected { ActKeeps(seen, frame.expected); }
      }
    }
  }

  lemma ActionKeeps(s: State, frame: Frame, acted: Result<bool, Error>)
    requires ClosedInv(s) && frame.Acting?
    ensures ClosedInv(ActionAnswered(s, frame.purpose, frame.expected, frame.n, acted))
  {
    if acted.Failure? { ThrowKeeps(s, frame.purpose, acted.error); }
    StopKeeps(s, "The gateway returned no terminal stream.");
  }

  lemma StepKeepsClosed(s: State, step: Step)
    requires ClosedInv(s) && Possible(s, step)
    ensures ClosedInv(Do(s, step))
  {
    match step
    case AnswerRead(id, read) => ReadKeeps(Answered(s, id), s.frames[id], read);
    case AnswerAction(id, acted) => ActionKeeps(Answered(s, id), s.frames[id], acted);
    case ScreenFrame(incarnation) =>
      StopKeeps(s, RESTARTED);
      if !s.closed {
        LogKeeps(s.(failures := 0), Issue(""));
        LogKeeps(Log(s.(failures := 0), Issue("")), Shown(incarnation));
      }
    case ErrorFrame(error) =>
      StopKeeps(s, "refused");
      if !s.closed { LogKeeps(s, Issue("Terminal stream interrupted; reconnecting.")); }
    case CloseNow => StopKeeps(s, "");
    case _ =>
  }

  /** In every run, nothing is shown or said after the end, and every action follows a fresh read of its incarnation. */
  lemma {:induction false} RunIsFenced(steps: seq<Step>, s: State)
    requires After(steps) == Some(s)
    ensures ClosedInv(s)
  {
    if steps != [] {
      var before := After(steps[..|steps| - 1]).value;
      RunIsFenced(steps[..|steps| - 1], before);
      StepKeepsClosed(before, steps[|steps| - 1]);
    }
  }
}
