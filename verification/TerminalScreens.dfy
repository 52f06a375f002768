// In every run of a follow, named processes or not: which screens can still be shown from here on.
module TerminalScreens {
  import opened Wrappers
  import opened TerminalFollow

  /** The first reads in flight are of different attempts, and the current one has nothing to add to a known incarnation. */
  ghost predicate ReadsFit(s: State) {
    && (forall id | id in s.frames :: id < s.nextFrame)
    && (forall id | id in s.frames && s.frames[id].FirstRead? ::
          s.frames[id].attempt <= s.attempt && (s.frames[id].attempt == s.attempt ==> s.incarnation == ""))
    && (forall id, other | id in s.frames && other in s.frames && id != other ::
          s.frames[id].FirstRead? && s.frames[other].FirstRead? ==> s.frames[id].attempt != s.frames[other].attempt)
  }

  /** Nothing is shown: requests stay in flight, and the log grows by other events. */
  ghost predicate Silent(s: State, t: State) {
    && t.frames == s.frames && t.nextFrame == s.nextFrame && s.attempt <= t.attempt && t.incarnation == s.incarnation
    && s.log <= t.log && forall i :: |s.log| <= i < |t.log| ==> !t.log[i].Shown?
  }

  /** What is shown is of the incarnation then known, and a known incarnation stays. */
  ghost predicate Shows(s: State, t: State) {
    && s.log <= t.log && (s.incarnation != "" ==> t.incarnation == s.incarnation)
    && (forall i :: |s.log| <= i < |t.log| && t.log[i].Shown? ==> t.log[i].incarnation == t.incarnation)
    && (t.incarnation != s.incarnation ==> exists i :: |s.log| <= i < |t.log| && t.log[i].Shown?)
  }

  lemma SilentShows(s: State, t: State)
    requires ReadsFit(s) && Silent(s, t)
    ensures ReadsFit(t) && Shows(s, t)
  {
  }

  lemma StopIsSilent(s: State, issue: string)
    ensures Silent(s, Stop(s, issue))
  {
  }

  lemma RetryIsSilent(s: State)
    ensures Silent(s, RetrySoon(s))
  {
  }

  lemma ThrowIsSilent(s: State, purpose: Purpose, error: Error)
    ensures Silent(s, Throw(s, purpose, error))
  {
    StopIsSilent(s, RESTARTED);
    StopIsSilent(s, "fatal");
    RetryIsSilent(s);
    hide Stop, RetrySoon;
  }

  lemma SilentTwice(s: State, t: State, u: State)
    requires Silent(s, t) && Silent(t, u)
    ensures Silent(s, u)
  {
    assert forall i :: |s.log| <= i < |t.log| ==> u.log[i] == t.log[i];
  }

  /** A request other than a first read goes out. */
  lemma AwaitShows(s: State, t: State, frame: Frame)
    requires ReadsFit(t) && Shows(s, t) && !frame.FirstRead?
    ensures ReadsFit(Await(t, frame)) && Shows(s, Await(t, frame))
  {
  }

  lemma AnsweredFits(s: State, id: nat)
    requires ReadsFit(s)
    ensures ReadsFit(Answered(s, id))
  {
  }

  lemma AttachShows(s: State)
    requires ReadsFit(s)
    ensures ReadsFit(Attach(s)) && Shows(s, Attach(s))
  {
    var t := Attach(s);
    forall id | id in t.frames && t.frames[id].FirstRead?
      ensures t.frames[id].attempt <= t.attempt && (t.frames[id].attempt == t.attempt ==> t.incarnation == "")
    {
      assert id == s.nextFrame || id in s.frames;
    }
  }

  lemma FirstReadShows(s: State, id: nat, incarnation: string)
    requires ReadsFit(s) && id in s.frames && s.frames[id].FirstRead?
    ensures var t := FirstReadAnswered(Answered(s, id), s.frames[id].attempt, Success(incarnation));
            ReadsFit(t) && Shows(s, t)
  {
    var t, a := Answered(s, id), s.frames[id].attempt;
    var seen := Log(t, ReadScreen(incarnation));
    assert ReadsFit(seen) && Shows(s, seen);
    if !Stale(t, a) {
      var shown := Log(seen.(incarnation := incarnation), Shown(incarnation));
      assert shown.log[|s.log| + 1] == Shown(incarnation);
      assert ReadsFit(shown) && Shows(s, shown);
      AwaitShows(s, shown, FenceRead(Attaches(a), incarnation, 0));
    }
  }

  lemma ReadShows(s: State, id: nat, read: Result<string, Error>)
    requires ReadsFit(s) && Possible(s, AnswerRead(id, read))
    ensures ReadsFit(Do(s, AnswerRead(id, read))) && Shows(s, Do(s, AnswerRead(id, read)))
  {
    var t, frame := Answered(s, id), s.frames[id];
    AnsweredFits(s, id);
    hide Throw, ReadsFit, Shows;
    if read.Failure? {
      var purpose := if frame.FirstRead? then Attaches(frame.attempt) else frame.purpose;
      ThrowIsSilent(t, purpose, read.error);
      SilentShows(t, Throw(t, purpose, read.error));
      ShowsAnswered(s, id, Throw(t, purpose, read.error));
    } else if frame.FirstRead? {
      FirstReadShows(s, id, read.value);
    } else {
      FenceReadShows(t, frame, read.value);
      ShowsAnswered(s, id, FenceReadAnswered(t, frame.purpose, frame.expected, frame.n, read));
    }
  }

  lemma ShowsAnswered(s: State, id: nat, u: State)
    requires Shows(Answered(s, id), u)
    ensures Shows(s, u)
  {
  }

  lemma FenceReadShows(s: State, frame: Frame, incarnation: string)
    requires ReadsFit(s) && frame.FenceRead?
    ensures var t := FenceReadAnswered(s, frame.purpose, frame.expected, frame.n, Success(incarnation));
            ReadsFit(t) && Shows(s, t)
  {
    var seen := Log(s, ReadScreen(incarnation));
    assert Silent(s, seen);
    if incarnation == frame.expected {
      var sent := Log(seen, Action(frame.expected));
      assert Silent(seen, sent);
      SilentTwice(s, seen, sent);
      SilentShows(s, sent);
      AwaitShows(s, sent, Acting(frame.purpose, frame.expected, frame.n));
    } else {
      ThrowIsSilent(seen, frame.purpose, Restarted);
      SilentTwice(s, seen, Throw(seen, frame.purpose, Restarted));
      SilentShows(s, Throw(seen, frame.purpose, Restarted));
    }
  }

  lemma ActionShows(s: State, frame: Frame, acted: Result<bool, Error>)
    requires ReadsFit(s) && frame.Acting?
    ensures var t := ActionAnswered(s, frame.purpose, frame.expected, frame.n, acted); ReadsFit(t) && Shows(s, t)
  {
    SilentShows(s, s);
    var gone := Stop(s, "The gateway returned no terminal stream.");
    StopIsSilent(s, "The gateway returned no terminal stream.");
    SilentShows(s, gone);
    AwaitShows(s, s, FenceRead(frame.purpose, frame.expected, frame.n + 1));
    if acted.Failure? {
      ThrowIsSilent(s, frame.purpose, acted.error);
      SilentShows(s, Throw(s, frame.purpose, acted.error));
    }
    hide Throw, Stop, ReadsFit, Shows;
  }

  lemma ScreenShows(s: State, incarnation: string)
    requires ReadsFit(s)
    ensures ReadsFit(ShowScreen(s, incarnation)) && Shows(s, ShowScreen(s, incarnation))
  {
    StopIsSilent(s, RESTARTED);
    SilentShows(s, Stop(s, RESTARTED));
    hide Stop;
  }

  lemma CloseShows(s: State)
    requires ReadsFit(s)
    ensures ReadsFit(CloseFollow(s)) && Shows(s, CloseFollow(s))
  {
    SilentShows(s, s);
    StopIsSilent(s, "");
    SilentShows(s, Stop(s, ""));
    AwaitShows(s, Stop(s, ""), FenceRead(Detaches, s.incarnation, 0));
    hide Stop, ReadsFit, Shows;
  }

  lemma StepShows(s: State, step: Step)
    requires ReadsFit(s) && Possible(s, step)
    ensures ReadsFit(Do(s, step)) && Shows(s, Do(s, step))
  {
    match step
    case AnswerRead(id, read) => ReadShows(s, id, read);
    case AnswerAction(id, acted) =>
      AnsweredFits(s, id);
      ActionShows(Answered(s, id), s.frames[id], acted);
      ShowsAnswered(s, id, Do(s, step));
    case ScreenFrame(incarnation) => ScreenShows(s, incarnation);
    case CloseNow => CloseShows(s);
    case AttachNow => AttachShows(s);
    case Rings(timer) => AttachShows(s.(timers := s.timers - {timer}));
    case SocketLost => SilentShows(s, Cancel(s));
    case ErrorFrame(error) => RefusalShows(s, error);
  }

  lemma RefusalShows(s: State, error: Error)
    requires ReadsFit(s)
    ensures ReadsFit(Refuse(s, error)) && Shows(s, Refuse(s, error))
  {
    SilentShows(s, s);
    RetryIsSilent(s);
    StopIsSilent(s, "refused");
    SilentShows(s, RetrySoon(s));
    SilentShows(s, Stop(s, "refused"));
    hide RetrySoon, Stop, ReadsFit, Shows;
  }

  // ----- whole runs -----

  /** The last screen shown is of the incarnation the follow has. */
  ghost predicate LastShown(s: State) {
    forall i :: 0 <= i < |s.log| && s.log[i].Shown? && (forall j :: i < j < |s.log| ==> !s.log[j].Shown?) ==>
      s.log[i].incarnation == s.incarnation
  }

  lemma ShowsLast(s: State, t: State)
    requires LastShown(s) && Shows(s, t)
    ensures LastShown(t)
  {
    forall i | 0 <= i < |t.log| && t.log[i].Shown? && (forall j :: i < j < |t.log| ==> !t.log[j].Shown?)
      ensures t.log[i].incarnation == t.incarnation
    {
      if i < |s.log| {
        assert forall j :: 0 <= j < |s.log| ==> t.log[j] == s.log[j];
        assert s.log[i].incarnation == s.incarnation;
      }
    }
  }

  lemma {:induction false} RunShows(steps: seq<Step>, s: State)
    requires After(steps) == Some(s)
    ensures ReadsFit(s) && LastShown(s)
  {
    if steps != [] {
      var before := After(steps[..|steps| - 1]).value;
      RunShows(steps[..|steps| - 1], before);
      StepShows(before, steps[|steps| - 1]);
      ShowsLast(before, s);
    }
  }

  /** Every screen that any continuation of the run shows is of `incarnation`. */
  ghost predicate OnlyShows(steps: seq<Step>, s: State, incarnation: string) {
    forall more, t, i :: After(steps + more) == Some(t) && |s.log| <= i < |t.log| && t.log[i].Shown? ==>
      t.log[i].incarnation == incarnation
  }

  lemma {:induction false} KnownStays(steps: seq<Step>, s: State, more: seq<Step>, t: State)
    requires After(steps) == Some(s) && After(steps + more) == Some(t) && s.incarnation != ""
    ensures t.incarnation == s.incarnation && s.log <= t.log
    ensures forall i :: |s.log| <= i < |t.log| && t.log[i].Shown? ==> t.log[i].incarnation == s.incarnation
  {
    if more == [] {
      assert steps + more == steps;
    } else {
      var init := more[..|more| - 1];
      assert (steps + more)[..|steps + more| - 1] == steps + init;
      var before := After(steps + init).value;
      KnownStays(steps, s, init, before);
      RunShows(steps + init, before);
      StepShows(before, more[|more| - 1]);
      assert forall i :: 0 <= i < |before.log| ==> t.log[i] == before.log[i];
    }
  }

  lemma OneMore(steps: seq<Step>, s: State, step: Step)
    requires After(steps) == Some(s) && Possible(s, step)
    ensures After(steps + [step]) == Some(Do(s, step))
  {
    assert (steps + [step])[..|steps + [step]| - 1] == steps;
  }

  /** An open follow that knows no incarnation can attach and show any process next. */
  lemma UnknownShowsAny(steps: seq<Step>, s: State, other: string) returns (more: seq<Step>, t: State)
    requires After(steps) == Some(s) && !s.closed && s.incarnation == ""
    ensures After(steps + more) == Some(t) && s.log < t.log && t.log[|t.log| - 1] == Shown(other) && !t.closed
  {
    OneMore(steps, s, AttachNow);
    var attached := Do(s, AttachNow);
    OneMore(steps + [AttachNow], attached, AnswerRead(s.nextFrame, Success(other)));
    more, t := [AttachNow, AnswerRead(s.nextFrame, Success(other))], Do(attached, AnswerRead(s.nextFrame, Success(other)));
    assert steps + [AttachNow] + [AnswerRead(s.nextFrame, Success(other))] == steps + more;
  }

  /** So a process without a name is forgotten: a run that shows it and then any other. */
  lemma UnnamedIsForgotten(other: string) returns (steps: seq<Step>, s: State)
    ensures After(steps) == Some(s) && Shown("") in s.log && Shown(other) in s.log
  {
    steps, s := UnknownShowsAny([], Start(), "");
    assert [] + steps == steps;
    var first := s;
    RunShows(steps, s);
    assert s.log[|s.log| - 1] == Shown("");
    var more;
    more, s := UnknownShowsAny(steps, s, other);
    steps := steps + more;
    assert s.log[|s.log| - 1] == Shown(other) && s.log[|first.log| - 1] == Shown("");
  }

  /**
   For every open state of every run: all screens shown from there on are of one incarnation exactly
   when the follow knows one, and then they are of that one.
   */
  lemma OneFromHereIff(steps: seq<Step>, s: State)
    requires After(steps) == Some(s) && !s.closed
    ensures (exists incarnation :: OnlyShows(steps, s, incarnation)) <==> s.incarnation != ""
    ensures s.incarnation != "" ==> OnlyShows(steps, s, s.incarnation)
  {
    if s.incarnation != "" {
      forall more, t, i | After(steps + more) == Some(t) && |s.log| <= i < |t.log| && t.log[i].Shown?
        ensures t.log[i].incarnation == s.incarnation
      {
        KnownStays(steps, s, more, t);
      }
      assert OnlyShows(steps, s, s.incarnation);
    } else {
      forall incarnation ensures !OnlyShows(steps, s, incarnation) {
        var other := if incarnation == "a" then "b" else "a";
        var more, t := UnknownShowsAny(steps, s, other);
        assert t.log[|t.log| - 1].Shown? && t.log[|t.log| - 1].incarnation != incarnation;
      }
    }
  }

  /** After a screen was shown, all later screens are of its process exactly when that process has a name. */
  lemma SameAsShownIff(steps: seq<Step>, s: State, i: nat)
    requires After(steps) == Some(s) && !s.closed && i < |s.log| && s.log[i].Shown?
    requires forall j :: i < j < |s.log| ==> !s.log[j].Shown?
    ensures OnlyShows(steps, s, s.log[i].incarnation) <==> s.log[i].incarnation != ""
  {
    RunShows(steps, s);
    OneFromHereIff(steps, s);
  }
}
