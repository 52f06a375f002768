// The TerminalFollow object, method by method, as steps of the follow machine.
module TerminalFollower {
  import opened Wrappers
  import opened TerminalFollow

  /** What stands around the object's fields: timers pending, requests in flight, and what was seen. */
  datatype Surroundings = Surroundings(
    timers: set<nat>,
    nextTimer: nat,
    frames: map<nat, Frame>,
    nextFrame: nat,
    log: seq<Event>)

  class Follower {
    var closed: bool
    var incarnation: string
    var attempt: nat
    var failures: nat
    var timer: Option<nat>
    var around: Surroundings

    function Contents(): State
      reads this
    {
      State(closed, incarnation, attempt, failures, timer, around.timers, around.nextTimer, around.frames,
            around.nextFrame, around.log)
    }

    constructor ()
      ensures Contents() == Start()
    {
      closed, incarnation, attempt, failures, timer := false, "", 0, 0, None;
      around := Surroundings({}, 0, map[], 0, []);
    }

    method See(event: Event)
      modifies this`around
      ensures Contents() == Log(old(Contents()), event)
    {
      around := around.(log := around.log + [event]);
    }

    method Request(frame: Frame)
      modifies this`around
      ensures Contents() == Await(old(Contents()), frame)
    {
      around := around.(frames := around.frames[around.nextFrame := frame], nextFrame := around.nextFrame + 1);
    }

    method CancelAttempt()
      modifies this
      ensures Contents() == Cancel(old(Contents()))
    {
      attempt := attempt + 1;
      if timer.Some? { around := around.(timers := around.timers - {timer.value}); }
      timer := None;
    }

    method StopFollowing(issue: string)
      modifies this
      ensures Contents() == Stop(old(Contents()), issue)
    {
      var wasClosed := closed;
      closed := true;
      CancelAttempt();
      if !wasClosed { See(Stopped(issue)); }
    }

    method RetryLater()
      modifies this
      ensures Contents() == RetrySoon(old(Contents()))
    {
      failures := failures + 1;
      See(Issue("Terminal stream interrupted; reconnecting."));
      timer := Some(around.nextTimer);
      around := around.(timers := around.timers + {around.nextTimer}, nextTimer := around.nextTimer + 1);
    }

    method AttachTerminal()
      modifies this
      ensures Contents() == Attach(old(Contents()))
    {
      CancelAttempt();
      if incarnation == "" {
        Request(FirstRead(attempt));
      } else {
        Request(FenceRead(Attaches(attempt), incarnation, 0));
      }
    }

    method Catch(purpose: Purpose, error: Error)
      modifies this
      ensures Contents() == Throw(old(Contents()), purpose, error)
    {
      if purpose.Detaches? || closed || purpose.attempt != attempt { return; }
      match error
      case Restarted => StopFollowing(RESTARTED);
      case Fatal => StopFollowing("fatal");
      case _ => RetryLater();
    }

    /** A read of the screen came back to the request that awaited it. */
    method ReadAnswered(id: nat, read: Result<string, Error>)
      requires Possible(Contents(), AnswerRead(id, read))
      modifies this
      ensures Contents() == Do(old(Contents()), AnswerRead(id, read))
    {
      var frame := around.frames[id];
      around := around.(frames := around.frames - {id});
      if read.Failure? {
        Catch(if frame.FirstRead? then Attaches(frame.attempt) else frame.purpose, read.error);
        return;
      }
      See(ReadScreen(read.value));
      if frame.FirstRead? {
        if closed || frame.attempt != attempt { return; }
        incarnation := read.value;
        See(Shown(read.value));
        Request(FenceRead(Attaches(frame.attempt), read.value, 0));
      } else if read.value != frame.expected {
        Catch(frame.purpose, Restarted);
      } else {
        See(Action(frame.expected));
        Request(Acting(frame.purpose, frame.expected, frame.n));
      }
    }

    /** A fenced action came back; an attachment without a stream ends the follow. */
    method ActionReturned(id: nat, acted: Result<bool, Error>)
      requires Possible(Contents(), AnswerAction(id, acted))
      modifies this
      ensures Contents() == Do(old(Contents()), AnswerAction(id, acted))
    {
      var frame := around.frames[id];
      around := around.(frames := around.frames - {id});
      if acted.Failure? {
        if acted.error == StaleFence && frame.n + 1 < FENCE_ATTEMPTS {
          Request(FenceRead(frame.purpose, frame.expected, frame.n + 1));
        } else {
          Catch(frame.purpose, acted.error);
        }
        return;
      }
      if frame.purpose.Detaches? || closed || frame.purpose.attempt != attempt || acted.value { return; }
      StopFollowing("The gateway returned no terminal stream.");
    }

    method ScreenArrived(seen: string)
      modifies this
      ensures Contents() == Do(old(Contents()), ScreenFrame(seen))
    {
      if closed { return; }
      if seen != incarnation { StopFollowing(RESTARTED); return; }
      failures := 0;
      See(Issue(""));
      See(Shown(seen));
    }

    method StreamFailed(error: Error)
      modifies this
      ensures Contents() == Do(old(Contents()), ErrorFrame(error))
    {
      if closed { return; }
      if error == StaleFence || error == Passing { RetryLater(); } else { StopFollowing("refused"); }
    }

    method CloseTerminal()
      modifies this
      ensures Contents() == Do(old(Contents()), CloseNow)
    {
      if closed { return; }
      StopFollowing("");
      if incarnation != "" { Request(FenceRead(Detaches, incarnation, 0)); }
    }
  }
}
