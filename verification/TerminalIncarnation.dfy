// One follow, one incarnation: all screens shown and all actions sent belong to the terminal process
// first learned, as long as st names its processes.
module TerminalIncarnation {
  import opened Wrappers
  import opened TerminalFollow

  /** The first read still counts: it will teach the follow its incarnation. */
  predicate Teaches(s: State, step: Step) {
    && step.AnswerRead? && step.read.Success? && step.id in s.frames && s.frames[step.id].FirstRead?
    && !Stale(s, s.frames[step.id].attempt)
  }

  /** What teaches the follow its incarnation has a name, and so has any screen that comes before. */
  predicate Named(s: State, step: Step) {
    && (Teaches(s, step) ==> step.read.value != "")
    && (step.ScreenFrame? && !s.closed && s.incarnation == "" ==> step.incarnation != "")
  }

  predicate AllNamed(steps: seq<Step>) {
    steps == []
    || (var before, last := After(steps[..|steps| - 1]), steps[|steps| - 1];
        AllNamed(steps[..|steps| - 1]) && (before.Some? ==> Named(before.value, last)))
  }

  predicate Of(incarnation: string, event: Event) {
    match event
    case Shown(shown) => shown == incarnation && shown != ""
    case Action(expected) => expected == incarnation && expected != ""
    case _ => true
  }

  ghost predicate AllOf(incarnation: string, log: seq<Event>) {
    forall i :: 0 <= i < |log| ==> Of(incarnation, log[i])
  }

  predicate FrameFits(s: State, frame: Frame) {
    match frame
    case FirstRead(a) => a <= s.attempt && (a == s.attempt ==> s.incarnation == "")
    case FenceRead(_, expected, _) => expected == s.incarnation && expected != ""
    case Acting(_, expected, _) => expected == s.incarnation && expected != ""
  }

  ghost predicate FramesFit(s: State) {
    && (forall id | id in s.frames :: id < s.nextFrame && FrameFits(s, s.frames[id]))
    && (forall id, other | id in s.frames && other in s.frames && id != other ::
          s.frames[id].FirstRead? && s.frames[other].FirstRead? ==> s.frames[id].attempt != s.frames[other].attempt)
  }

  ghost predicate OneInv(s: State) {
    FramesFit(s) && AllOf(s.incarnation, s.log)
  }

  lemma LogKeeps(s: State, event: Event)
    requires OneInv(s) && Of(s.incarnation, event)
    ensures OneInv(Log(s, event))
  {
    assert forall id | id in s.frames :: FrameFits(s, s.frames[id]) ==> FrameFits(Log(s, event), s.frames[id]);
  }

  lemma CancelKeeps(s: State)
    requires OneInv(s)
    ensures OneInv(Cancel(s)) && forall id | id in s.frames && s.frames[id].FirstRead? :: s.frames[id].attempt < s.attempt + 1
  {
    assert forall id | id in s.frames :: FrameFits(s, s.frames[id]) ==> FrameFits(Cancel(s), s.frames[id]);
  }

  lemma StopKeeps(s: State, issue: string)
    requires OneInv(s)
    ensures OneInv(Stop(s, issue))
  {
    var closed := s.(closed := true);
    assert forall id | id in s.frames :: FrameFits(s, s.frames[id]) ==> FrameFits(closed, s.frames[id]);
    CancelKeeps(closed);
    if !s.closed { LogKeeps(Cancel(closed), Stopped(issue)); }
  }

  lemma RetryKeeps(s: State)
    requires OneInv(s)
    ensures OneInv(RetrySoon(s))
  {
    var t := RetrySoon(s);
    assert forall id | id in s.frames :: FrameFits(s, s.frames[id]) ==> FrameFits(t, s.frames[id]);
  }

  lemma ThrowKeeps(s: State, purpose: Purpose, error: Error)
    requires OneInv(s)
    ensures OneInv(Throw(s, purpose, error))
  {
    hide OneInv;
    StopKeeps(s, RESTARTED);
    StopKeeps(s, "fatal");
    RetryKeeps(s);
  }

  /** A further request is in flight. */
  lemma AwaitKeeps(s: State, frame: Frame)
    requires OneInv(s) && FrameFits(s, frame)
    requires frame.FirstRead? ==>
               forall id | id in s.frames && s.frames[id].FirstRead? :: s.frames[id].attempt < frame.attempt
    ensures OneInv(Await(s, frame))
  {
    var t := Await(s, frame);
    forall id | id in t.frames ensures id < t.nextFrame && FrameFits(t, t.frames[id]) {
      if id != s.nextFrame { assert FrameFits(s, s.frames[id]); }
    }
  }

  lemma AnsweredKeeps(s: State, id: nat)
    requires OneInv(s)
    ensures OneInv(Answered(s, id))
  {
    var t := Answered(s, id);
    assert forall other | other in t.frames :: FrameFits(s, s.frames[other]) ==> FrameFits(t, t.frames[other]);
  }

  lemma AttachKeeps(s: State)
    requires OneInv(s)
    ensures OneInv(Attach(s))
  {
    CancelKeeps(s);
    var t := Cancel(s);
    AwaitKeeps(t, if t.incarnation == "" then FirstRead(t.attempt) else FenceRead(Attaches(t.attempt), t.incarnation, 0));
  }

  /** The first read that still counts gives the follow its incarnation; no request in flight has another. */
  lemma LearnKeeps(s: State, a: nat, incarnation: string)
    requires OneInv(s) && s.incarnation == "" && incarnation != "" && a == s.attempt
    requires forall id | id in s.frames && s.frames[id].FirstRead? :: s.frames[id].attempt != a
    ensures OneInv(s.(incarnation := incarnation))
  {
    var t := s.(incarnation := incarnation);
    forall id | id in s.frames ensures FrameFits(t, t.frames[id]) { assert FrameFits(s, s.frames[id]); }
    forall i | 0 <= i < |s.log| ensures Of(incarnation, s.log[i]) { assert Of("", s.log[i]); }
  }

  lemma FirstReadKeeps(s: State, id: nat, incarnation: string)
    requires OneInv(s) && id in s.frames && s.frames[id].FirstRead?
    requires !Stale(s, s.frames[id].attempt) ==> incarnation != ""
    ensures OneInv(FirstReadAnswered(Answered(s, id), s.frames[id].attempt, Success(incarnation)))
  {
    var t, a := Answered(s, id), s.frames[id].attempt;
    AnsweredKeeps(s, id);
    var seen := Log(t, ReadScreen(incarnation));
    LogKeeps(t, ReadScreen(incarnation));
    if !Stale(t, a) {
      assert FrameFits(s, s.frames[id]);
      LearnKeeps(seen, a, incarnation);
      var learned := seen.(incarnation := incarnation);
      LogKeeps(learned, Shown(incarnation));
      AwaitKeeps(Log(learned, Shown(incarnation)), FenceRead(Attaches(a), incarnation, 0));
    }
  }

  lemma FenceReadKeeps(s: State, frame: Frame, incarnation: string)
    requires OneInv(s) && frame.FenceRead? && FrameFits(s, frame)
    ensures OneInv(FenceReadAnswered(s, frame.purpose, frame.expected, frame.n, Success(incarnation)))
  {
    var seen := Log(s, ReadScreen(incarnation));
    LogKeeps(s, ReadScreen(incarnation));
    ThrowKeeps(seen, frame.purpose, Restarted);
    if incarnation == frame.expected {
      LogKeeps(seen, Action(frame.expected));
      AwaitKeeps(Log(seen, Action(frame.expected)), Acting(frame.purpose, frame.expected, frame.n));
    }
  }

  lemma ReadKeeps(s: State, id: nat, read: Result<string, Error>)
    requires OneInv(s) && Possible(s, AnswerRead(id, read)) && Named(s, AnswerRead(id, read))
    ensures OneInv(Do(s, AnswerRead(id, read)))
  {
    AnsweredKeeps(s, id);
    var t, frame := Answered(s, id), s.frames[id];
    assert FrameFits(s, frame) ==> (frame.FenceRead? ==> FrameFits(t, frame));
    if read.Failure? {
      ThrowKeeps(t, if frame.FirstRead? then Attaches(frame.attempt) else frame.purpose, read.error);
    } else if frame.FirstRead? {
      FirstReadKeeps(s, id, read.value);
    } else {
      FenceReadKeeps(t, frame, read.value);
    }
  }

  lemma ActionKeeps(s: State, frame: Frame, acted: Result<bool, Error>)
    requires OneInv(s) && frame.Acting? && FrameFits(s, frame)
    ensures OneInv(ActionAnswered(s, frame.purpose, frame.expected, frame.n, acted))
  {
    if acted.Failure? {
      ThrowKeeps(s, frame.purpose, acted.error);
      if frame.n + 1 < FENCE_ATTEMPTS { AwaitKeeps(s, FenceRead(frame.purpose, frame.expected, frame.n + 1)); }
    }
    StopKeeps(s, "The gateway returned no terminal stream.");
  }

  lemma ShowKeeps(s: State, incarnation: string)
    requires OneInv(s) && (!s.closed && s.incarnation == "" ==> incarnation != "")
    ensures OneInv(ShowScreen(s, incarnation))
  {
    StopKeeps(s, RESTARTED);
    if !s.closed && incarnation == s.incarnation {
      var calm := s.(failures := 0);
      assert forall id | id in s.frames :: FrameFits(s, s.frames[id]) ==> FrameFits(calm, s.frames[id]);
      LogKeeps(calm, Issue(""));
      LogKeeps(Log(calm, Issue("")), Shown(incarnation));
    }
  }

  lemma CloseKeeps(s: State)
    requires OneInv(s)
    ensures OneInv(CloseFollow(s))
  {
    StopKeeps(s, "");
    if !s.closed && s.incarnation != "" { AwaitKeeps(Stop(s, ""), FenceRead(Detaches, s.incarnation, 0)); }
  }

  lemma StepKeeps(s: State, step: Step)
    requires OneInv(s) && Possible(s, step) && Named(s, step)
    ensures OneInv(Do(s, step))
  {
    match step
    case AttachNow => AttachKeeps(s);
    case SocketLost => CancelKeeps(s);
    case Rings(timer) => TimersLess(s, timer); AttachKeeps(s.(timers := s.timers - {timer}));
    case AnswerRead(id, read) => ReadKeeps(s, id, read);
    case AnswerAction(id, acted) =>
      AnsweredKeeps(s, id);
      assert FrameFits(s, s.frames[id]) ==> FrameFits(Answered(s, id), s.frames[id]);
      ActionKeeps(Answered(s, id), s.frames[id], acted);
    case ScreenFrame(incarnation) => ShowKeeps(s, incarnation);
    case ErrorFrame(error) => RetryKeeps(s); StopKeeps(s, "refused");
    case CloseNow => CloseKeeps(s);
  }

  lemma TimersLess(s: State, timer: nat)
    requires OneInv(s)
    ensures OneInv(s.(timers := s.timers - {timer}))
  {
    var t := s.(timers := s.timers - {timer});
    assert forall id | id in s.frames :: FrameFits(s, s.frames[id]) ==> FrameFits(t, s.frames[id]);
  }

  lemma {:induction false} RunKeeps(steps: seq<Step>, s: State)
    requires After(steps) == Some(s) && AllNamed(steps)
    ensures OneInv(s)
  {
    if steps != [] {
      var init := steps[..|steps| - 1];
      RunKeeps(init, After(init).value);
      StepKeeps(After(init).value, steps[|steps| - 1]);
    }
  }

  /** In every run, every screen shown is of one incarnation, the follow's, if what teaches it has a name. */
  lemma OneIncarnation(steps: seq<Step>, s: State, i: nat)
    requires After(steps) == Some(s) && AllNamed(steps) && i < |s.log| && s.log[i].Shown?
    ensures s.log[i].incarnation == s.incarnation
  {
    RunKeeps(steps, s);
    assert Of(s.incarnation, s.log[i]);
  }

  /** And so is every action sent. */
  lemma ActionsToOne(steps: seq<Step>, s: State, i: nat)
    requires After(steps) == Some(s) && AllNamed(steps) && i < |s.log| && s.log[i].Action?
    ensures s.log[i].expected == s.incarnation
  {
    RunKeeps(steps, s);
    assert Of(s.incarnation, s.log[i]);
  }

  /** Once the incarnation is known, no later step needs a name. */
  lemma KnownNeedsNoName(s: State, step: Step)
    requires OneInv(s) && s.incarnation != ""
    ensures Named(s, step)
  {
    assert step.AnswerRead? && step.id in s.frames ==> FrameFits(s, s.frames[step.id]);
  }

  /** So a run that is named until the incarnation is known is named for good. */
  lemma {:induction false} NamedForGood(steps: seq<Step>, s: State, more: seq<Step>)
    requires After(steps) == Some(s) && AllNamed(steps) && s.incarnation != "" && After(steps + more).Some?
    ensures AllNamed(steps + more) && After(steps + more).value.incarnation == s.incarnation
  {
    if more == [] {
      assert steps + more == steps;
    } else {
      var init := more[..|more| - 1];
      assert (steps + more)[..|steps + more| - 1] == steps + init;
      NamedForGood(steps, s, init);
      var before := After(steps + init).value;
      RunKeeps(steps + init, before);
      KnownNeedsNoName(before, more[|more| - 1]);
      KnownStaysKnown(before, more[|more| - 1]);
    }
  }

  lemma KnownStaysKnown(s: State, step: Step)
    requires OneInv(s) && s.incarnation != "" && Possible(s, step)
    ensures Do(s, step).incarnation == s.incarnation
  {
    assert step.AnswerRead? ==> FrameFits(s, s.frames[step.id]);
  }
}
