// What ends a follow and what it tries again: an open follow ends exactly when closed, refused for
// good or shown another process; anything else it answers by trying again.
module TerminalEnds {
  import opened Wrappers
  import opened TerminalFollow

  /** The frame answers the attach that is current. */
  predicate Current(s: State, frame: Frame) {
    match frame
    case FirstRead(a) => a == s.attempt
    case FenceRead(purpose, _, _) => purpose == Attaches(s.attempt)
    case Acting(purpose, _, _) => purpose == Attaches(s.attempt)
  }

  /** What comes back to the current attach will not pass: a refusal for good, another process, or no stream. */
  predicate EndsAttach(s: State, step: Step)
    requires Possible(s, step)
  {
    match step
    case AnswerRead(id, read) =>
      && Current(s, s.frames[id])
      && (|| read == Failure(Fatal)
          || (s.frames[id].FenceRead? && read.Success? && read.value != s.frames[id].expected))
    case AnswerAction(id, acted) => Current(s, s.frames[id]) && (acted == Failure(Fatal) || acted == Success(false))
    case _ => false
  }

  /** What comes back to the current attach may pass; a stale fence is tried eight times within it first. */
  predicate Interrupts(s: State, step: Step)
    requires Possible(s, step)
  {
    match step
    case ErrorFrame(error) => error == StaleFence || error == Passing
    case AnswerRead(id, read) =>
      Current(s, s.frames[id]) && (read == Failure(StaleFence) || read == Failure(Passing))
    case AnswerAction(id, acted) =>
      && Current(s, s.frames[id])
      && (acted == Failure(Passing) || (acted == Failure(StaleFence) && s.frames[id].n >= 7))
    case _ => false
  }

  /** An open follow ends exactly when it is closed, refused for good, or another process shows. */
  lemma EndsIff(s: State, step: Step)
    requires Possible(s, step) && !s.closed
    ensures Do(s, step).closed
            <==> || step.CloseNow? || EndsAttach(s, step)
                 || (step.ScreenFrame? && step.incarnation != s.incarnation)
                 || (step.ErrorFrame? && (step.error == Fatal || step.error == Restarted))
  {
  }

  /** And an ended one stays so. */
  lemma EndIsForGood(s: State, step: Step)
    requires Possible(s, step) && s.closed
    ensures Do(s, step).closed
  {
  }

  /** An open follow that is interrupted sets a timer and counts it; a screen of its process forgives all. */
  lemma InterruptedIff(s: State, step: Step)
    requires Possible(s, step) && !s.closed
    ensures Interrupts(s, step) <==> Do(s, step).nextTimer == s.nextTimer + 1
    ensures !Interrupts(s, step) ==> Do(s, step).nextTimer == s.nextTimer
    ensures Interrupts(s, step) ==> Do(s, step).timer == Some(s.nextTimer) && s.nextTimer in Do(s, step).timers
    ensures Do(s, step).failures
            == if Interrupts(s, step) then s.failures + 1
               else if step == ScreenFrame(s.incarnation) then 0 else s.failures
  {
  }

  // ----- it goes on trying -----

  /** A request of the current attach is in flight, or a timer will attach again. */
  ghost predicate Trying(s: State) {
    || (exists id :: id in s.frames && Current(s, s.frames[id]))
    || (s.timer.Some? && s.timer.value in s.timers)
  }

  ghost predicate Numbered(s: State) {
    forall id | id in s.frames :: id < s.nextFrame
  }

  lemma StepKeepsNumbered(s: State, step: Step)
    requires Numbered(s) && Possible(s, step)
    ensures Numbered(Do(s, step))
  {
  }

  /** The current attach is done: its action came back with a stream. */
  predicate Attached(s: State, step: Step)
    requires Possible(s, step)
  {
    step.AnswerAction? && Current(s, s.frames[step.id]) && step.acted == Success(true)
  }

  lemma OtherStays(s: State, t: State, id: nat)
    requires id in s.frames && Current(s, s.frames[id]) && t.attempt == s.attempt
    requires id in t.frames && t.frames[id] == s.frames[id]
    ensures Trying(t)
  {
  }

  lemma AttachIsTrying(s: State)
    ensures Trying(Attach(s))
  {
    var t := Attach(s);
    assert Current(t, t.frames[t.nextFrame - 1]);
  }

  predicate Answers(step: Step, id: nat) {
    (step.AnswerRead? || step.AnswerAction?) && step.id == id
  }

  /** A current request that comes back without ending the attach leaves another in flight, or a timer. */
  lemma AnswerIsTrying(s: State, step: Step, id: nat)
    requires Possible(s, step) && !s.closed && Answers(step, id)
    requires Current(s, s.frames[id]) && !Attached(s, step) && !Do(s, step).closed
    ensures Trying(Do(s, step))
  {
    var t := Do(s, step);
    if !Interrupts(s, step) { assert Current(t, t.frames[s.nextFrame]); }
  }

  /** A request that is not of the current attach comes back, and the current one's stay as they are. */
  lemma StaleAnswerStays(s: State, step: Step, id: nat, other: nat)
    requires Numbered(s) && Possible(s, step) && !s.closed
    requires Answers(step, id)
    requires !Current(s, s.frames[id])
    ensures var t := Do(s, step); t.attempt == s.attempt && t.timer == s.timer && t.timers == s.timers
    ensures other in s.frames && other != id ==> other in Do(s, step).frames && Do(s, step).frames[other] == s.frames[other]
  {
  }

  /** Once it tries, a follow goes on trying until it is attached, ends, or loses its socket. */
  lemma KeepsTrying(s: State, step: Step)
    requires Numbered(s) && Possible(s, step) && !s.closed && Trying(s)
    ensures Trying(Do(s, step)) || Do(s, step).closed || step.SocketLost? || Attached(s, step)
  {
    hide Trying, Numbered;
    match step
    case AttachNow => AttachIsTrying(s);
    case Rings(timer) => AttachIsTrying(s.(timers := s.timers - {timer}));
    case AnswerRead(id, _) => AnswerKeepsTrying(s, step, id);
    case AnswerAction(id, _) => AnswerKeepsTrying(s, step, id);
    case ScreenFrame(_) => ScreenKeepsTrying(s, step);
    case ErrorFrame(_) => ScreenKeepsTrying(s, step);
    case _ =>
  }

  lemma AnswerKeepsTrying(s: State, step: Step, id: nat)
    requires Numbered(s) && Possible(s, step) && !s.closed && Trying(s)
    requires Answers(step, id)
    ensures Trying(Do(s, step)) || Do(s, step).closed || Attached(s, step)
  {
    var t := Do(s, step);
    if Current(s, s.frames[id]) {
      if !Attached(s, step) && !t.closed { AnswerIsTrying(s, step, id); }
    } else if other :| other in s.frames && Current(s, s.frames[other]) {
      StaleAnswerStays(s, step, id, other);
      OtherStays(s, t, other);
    } else {
      StaleAnswerStays(s, step, id, 0);
    }
  }

  lemma ScreenKeepsTrying(s: State, step: Step)
    requires Possible(s, step) && !s.closed && Trying(s) && (step.ScreenFrame? || step.ErrorFrame?)
    ensures Trying(Do(s, step)) || Do(s, step).closed
  {
    var t := Do(s, step);
    if !t.closed && !Interrupts(s, step) {
      if id :| id in s.frames && Current(s, s.frames[id]) { OtherStays(s, t, id); }
    }
  }

  lemma {:induction false} RunIsNumbered(steps: seq<Step>, s: State)
    requires After(steps) == Some(s)
    ensures Numbered(s)
  {
    hide Numbered, Do, Possible;
    if steps == [] {
      NoneNumbered();
    } else {
      var before := After(steps[..|steps| - 1]).value;
      RunIsNumbered(steps[..|steps| - 1], before);
      StepKeepsNumbered(before, steps[|steps| - 1]);
    }
  }

  lemma NoneNumbered()
    ensures Numbered(Start())
  {
  }

  /**
   In every run: from an attach on, step by step, an open follow has a request in flight or a timer
   set, until it is attached or its socket is lost.
   */
  lemma {:induction false} TriesUntilAttached(steps: seq<Step>, from: nat, s: State)
    requires After(steps) == Some(s) && from < |steps| && steps[from] == AttachNow
    requires forall i: nat | from < i < |steps| :: !steps[i].SocketLost?
    requires forall i: nat | from < i < |steps| ::
               var before := After(steps[..i]);
               before.Some? && Possible(before.value, steps[i]) && !Attached(before.value, steps[i])
    ensures s.closed || Trying(s)
    decreases |steps|
  {
    hide Trying, Attached;
    var init, last := steps[..|steps| - 1], steps[|steps| - 1];
    var before := After(init).value;
    if from == |init| {
      AttachIsTrying(before);
    } else {
      assert forall i: nat | i <= |init| :: init[..i] == steps[..i];
      assert steps[..|steps| - 1] == init && !last.SocketLost? && !Attached(before, last);
      TriesUntilAttached(init, from, before);
      RunIsNumbered(init, before);
      if before.closed { EndIsForGood(before, last); } else { KeepsTrying(before, last); }
      hide Do;
    }
  }
}
