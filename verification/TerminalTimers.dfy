// When a follow is really over: a retry timer that the follow still knows is cancelled at its end, one
// it has forgotten is not, and an attach does not look whether the follow was closed.
module TerminalTimers {
  import opened Wrappers
  import opened TerminalFollow

  /** Every pending timer is the one the follow knows. */
  predicate Known(s: State) {
    && (forall timer | timer in s.timers :: timer < s.nextTimer)
    && s.timers <= (if s.timer.Some? then {s.timer.value} else {})
  }

  /** A retry keeps its timer known exactly when none was pending. */
  lemma RetryKnownIff(s: State)
    requires Known(s)
    ensures Known(RetrySoon(s)) <==> s.timers == {}
  {
    if s.timers != {} {
      var timer :| timer in s.timers;
      assert timer in RetrySoon(s).timers && timer != s.nextTimer;
    }
  }

  /** The end of a follow leaves no timer pending exactly when it knew them all. */
  lemma StopCancelsIff(s: State, issue: string)
    requires forall timer | timer in s.timers :: timer < s.nextTimer
    ensures Stop(s, issue).timers == {} <==> Known(s)
  {
    var t := Stop(s, issue);
    if s.timer.Some? { assert t.timers == s.timers - {s.timer.value}; }
    if t.timers == {} {
      forall timer | timer in s.timers ensures s.timer == Some(timer) {
        assert timer !in t.timers;
      }
    }
  }

  /** The step arms a retry timer. */
  predicate Retries(s: State, step: Step)
    requires Possible(s, step)
  {
    Do(s, step).nextTimer != s.nextTimer
  }

  /** No retry is scheduled while one is pending. */
  predicate RetriesOnce(steps: seq<Step>) {
    steps == []
    || (var before, last := After(steps[..|steps| - 1]), steps[|steps| - 1];
        && RetriesOnce(steps[..|steps| - 1])
        && (before.Some? && Possible(before.value, last) && Retries(before.value, last) ==> before.value.timers == {}))
  }

  predicate TimersInv(s: State) {
    Known(s) && (s.closed ==> s.timers == {})
  }

  /** What a step does to the timers: nothing, forget one, cancel, or arm one more in an open follow. */
  predicate TimersMove(s: State, t: State) {
    || (t.timers == s.timers && t.timer == s.timer && t.nextTimer == s.nextTimer && t.closed == s.closed)
    || (t.timers <= s.timers && t.timer == None && t.nextTimer == s.nextTimer && (s.timer.Some? ==> s.timer.value !in t.timers)
        && (s.closed ==> t.closed))
    || (!s.closed && !t.closed && t.timer == Some(s.nextTimer) && t.timers == s.timers + {s.nextTimer}
        && t.nextTimer == s.nextTimer + 1)
  }

  lemma ThrowMoves(s: State, purpose: Purpose, error: Error)
    ensures TimersMove(s, Throw(s, purpose, error))
  {
  }

  lemma ReadMoves(s: State, frame: Frame, read: Result<string, Error>)
    requires !frame.Acting?
    ensures TimersMove(s, if frame.FirstRead? then FirstReadAnswered(s, frame.attempt, read)
                          else FenceReadAnswered(s, frame.purpose, frame.expected, frame.n, read))
  {
    hide Throw, TimersMove;
    if read.Failure? {
      ThrowMoves(s, if frame.FirstRead? then Attaches(frame.attempt) else frame.purpose, read.error);
    } else {
      var seen := Log(s, ReadScreen(read.value));
      StaysPut(s, seen);
      if frame.FirstRead? {
        StaysPut(s, FirstReadAnswered(s, frame.attempt, read));
      } else if read.value == frame.expected {
        StaysPut(s, FenceReadAnswered(s, frame.purpose, frame.expected, frame.n, read));
      } else {
        ThrowMoves(seen, frame.purpose, Restarted);
        MovesAlike(s, seen, Throw(seen, frame.purpose, Restarted));
      }
    }
  }

  lemma StaysPut(s: State, t: State)
    requires t.timers == s.timers && t.timer == s.timer && t.nextTimer == s.nextTimer && t.closed == s.closed
    ensures TimersMove(s, t)
  {
  }

  lemma MovesAlike(s: State, seen: State, t: State)
    requires seen.timers == s.timers && seen.timer == s.timer && seen.nextTimer == s.nextTimer && seen.closed == s.closed
    requires TimersMove(seen, t)
    ensures TimersMove(s, t)
  {
  }

  lemma ActionMoves(s: State, frame: Frame, acted: Result<bool, Error>)
    requires frame.Acting?
    ensures TimersMove(s, ActionAnswered(s, frame.purpose, frame.expected, frame.n, acted))
  {
    if acted.Failure? { ThrowMoves(s, frame.purpose, acted.error); }
    hide Throw;
  }

  lemma MoveKeeps(s: State, t: State)
    requires TimersInv(s) && TimersMove(s, t) && (t.nextTimer != s.nextTimer ==> s.timers == {})
    ensures TimersInv(t)
  {
  }

  lemma StepKeeps(s: State, step: Step)
    requires TimersInv(s) && Possible(s, step) && (Retries(s, step) ==> s.timers == {})
    ensures TimersInv(Do(s, step))
  {
    match step
    case AnswerRead(id, read) =>
      ReadMoves(Answered(s, id), s.frames[id], read);
      MoveKeeps(Answered(s, id), Do(s, step));
    case AnswerAction(id, acted) =>
      ActionMoves(Answered(s, id), s.frames[id], acted);
      MoveKeeps(Answered(s, id), Do(s, step));
    case Rings(timer) => assert Do(s, step).timers == {};
    case _ => MoveKeeps(s, Do(s, step));
  }

  lemma {:induction false} RunKeeps(steps: seq<Step>, s: State)
    requires After(steps) == Some(s) && RetriesOnce(steps)
    ensures TimersInv(s)
  {
    if steps != [] {
      var before := After(steps[..|steps| - 1]).value;
      RunKeeps(steps[..|steps| - 1], before);
      StepKeeps(before, steps[|steps| - 1]);
    }
  }

  /** In every run that schedules one retry at a time, no timer is left to start an attach after the end. */
  lemma NothingRingsAfterTheEnd(steps: seq<Step>, s: State, timer: nat)
    requires After(steps) == Some(s) && RetriesOnce(steps) && s.closed
    ensures !Possible(s, Rings(timer))
  {
    RunKeeps(steps, s);
  }

  lemma OneMore(steps: seq<Step>, s: State, step: Step)
    requires After(steps) == Some(s) && Possible(s, step)
    ensures After(steps + [step]) == Some(Do(s, step))
  {
    assert (steps + [step])[..|steps + [step]| - 1] == steps;
  }

  lemma TwoErrors(incarnation: string) returns (steps: seq<Step>, s: State)
    requires incarnation != ""
    ensures After(steps) == Some(s) && s.timers == {0, 1} && s.timer == Some(1) && !s.closed
    ensures s.nextFrame == 2 && s.incarnation == incarnation
  {
    steps, s := [], Start();
    OneMore(steps, s, AttachNow);
    steps, s := steps + [AttachNow], Do(s, AttachNow);
    OneMore(steps, s, AnswerRead(0, Success(incarnation)));
    steps, s := steps + [AnswerRead(0, Success(incarnation))], Do(s, AnswerRead(0, Success(incarnation)));
    OneMore(steps, s, ErrorFrame(Passing));
    steps, s := steps + [ErrorFrame(Passing)], Do(s, ErrorFrame(Passing));
    OneMore(steps, s, ErrorFrame(Passing));
    steps, s := steps + [ErrorFrame(Passing)], Do(s, ErrorFrame(Passing));
  }

  /**
   Two errors in a row schedule two retries, and the follow forgets the first. It is closed; the
   forgotten timer rings; and an attach is sent to the terminal after the end.
   */
  lemma ForgottenTimerAttaches(incarnation: string) returns (steps: seq<Step>, s: State, end: nat)
    requires incarnation != ""
    ensures After(steps) == Some(s) && s.closed && end < |s.log| - 1
    ensures s.log[end] == Stopped("") && s.log[|s.log| - 1] == Action(incarnation)
    ensures exists id, a :: id in s.frames && s.frames[id] == Acting(Attaches(a), incarnation, 0)
  {
    steps, s := TwoErrors(incarnation);
    end := |s.log|;
    OneMore(steps, s, CloseNow);
    steps, s := steps + [CloseNow], Do(s, CloseNow);
    assert 0 in s.timers && s.nextFrame == 3;
    OneMore(steps, s, Rings(0));
    steps, s := steps + [Rings(0)], Do(s, Rings(0));
    OneMore(steps, s, AnswerRead(3, Success(incarnation)));
    steps, s := steps + [AnswerRead(3, Success(incarnation))], Do(s, AnswerRead(3, Success(incarnation)));
    assert 4 in s.frames;
  }
}
