// The fenced loop inside the follow machine: answered one await at a time, a follow's attach or detach
// reads, sends and ends exactly as the loop of apps/ios/terminalControls.ts does.
module TerminalFenceSteps {
  import opened Wrappers
  import opened TerminalFollow
  import Fence = TerminalFence

  function Code(error: Fence.Error): Error {
    match error
    case StaleFence => StaleFence
    case Passing => Passing
    case Fatal => Fatal
  }

  function ReadOf(answers: Fence.Answers, n: nat): Result<string, Error> {
    match answers.read(n)
    case Success(screen) => Success(screen.incarnation)
    case Failure(error) => Failure(Code(error))
  }

  function ActionOf(answers: Fence.Answers, n: nat): Result<bool, Error> {
    match answers.act(n)
    case Success(value) => Success(value)
    case Failure(error) => Failure(Code(error))
  }

  /** What the loop reads and sends, as the follow's log has it. */
  function Logged(trace: seq<Fence.Event>): (r: seq<Event>)
    ensures |r| == |trace|
  {
    if trace == [] then []
    else
      var last := trace[|trace| - 1];
      Logged(trace[..|trace| - 1])
      + [if last.Read? then ReadScreen(last.screen.incarnation) else Action(last.fence.incarnation)]
  }

  lemma {:induction false} LoggedConcat(a: seq<Fence.Event>, b: seq<Fence.Event>)
    ensures Logged(a + b) == Logged(a) + Logged(b)
  {
    if b == [] {
      assert a + b == a;
    } else {
      assert (a + b)[..|a + b| - 1] == a + b[..|b| - 1];
      LoggedConcat(a, b[..|b| - 1]);
    }
  }

  /** Request names are handed out in order. */
  ghost predicate FramesBelow(s: State) {
    forall id | id in s.frames :: id < s.nextFrame
  }

  ghost predicate Waits(s: State, id: nat, purpose: Purpose, expected: string, n: nat) {
    FramesBelow(s) && id in s.frames && s.frames[id] == FenceRead(purpose, expected, n)
  }

  /** The state in which the action of try `n` is out. */
  function Sent(s: State, id: nat, purpose: Purpose, expected: string, n: nat): State {
    Await(Log(Log(Answered(s, id), ReadScreen(expected)), Action(expected)), Acting(purpose, expected, n))
  }

  /** The awaits of try `n` answered, and whether another try follows. */
  function OneTry(s: State, id: nat, answers: Fence.Answers, purpose: Purpose, expected: string, n: nat): (State, bool) {
    var read := ReadOf(answers, n);
    var seen := FenceReadAnswered(Answered(s, id), purpose, expected, n, read);
    if read.Failure? || read.value != expected then (seen, false)
    else
      var acted := ActionOf(answers, n);
      (ActionAnswered(Answered(seen, s.nextFrame), purpose, expected, n, acted),
       acted == Failure(StaleFence) && n + 1 < FENCE_ATTEMPTS)
  }

  /** The loop's awaits answered in turn, from try `n` on. */
  function Drive(s: State, id: nat, answers: Fence.Answers, purpose: Purpose, expected: string, n: nat): State
    requires n < FENCE_ATTEMPTS
    decreases FENCE_ATTEMPTS - n
  {
    var (done, further) := OneTry(s, id, answers, purpose, expected, n);
    if further then
      assert n + 1 < FENCE_ATTEMPTS;
      Drive(done, s.nextFrame + 1, answers, purpose, expected, n + 1)
    else done
  }

  /** How the follow takes the loop's outcome. */
  function Settle(s: State, purpose: Purpose, expected: string, n: nat, outcome: Fence.Outcome): State {
    match outcome
    case Acted(value) => ActionAnswered(s, purpose, expected, n, Success(value))
    case Restarted => Throw(s, purpose, Restarted)
    case Threw(error) => Throw(s, purpose, Code(error))
    case ChangedTooOften => s
  }

  /** `id` no longer in flight, `trace` logged, and further request names used. */
  function Ran(s: State, id: nat, trace: seq<Fence.Event>, nextFrame: nat): State {
    Answered(s, id).(log := s.log + Logged(trace), nextFrame := nextFrame)
  }

  /** Each answer the driver gives is a step of the follow machine. */
  lemma DriveTakesSteps(s: State, id: nat, answers: Fence.Answers, purpose: Purpose, expected: string, n: nat)
    requires Waits(s, id, purpose, expected, n)
    ensures Possible(s, AnswerRead(id, ReadOf(answers, n)))
    ensures Do(s, AnswerRead(id, ReadOf(answers, n)))
            == FenceReadAnswered(Answered(s, id), purpose, expected, n, ReadOf(answers, n))
    ensures ReadOf(answers, n) == Success(expected) ==>
              var seen := Do(s, AnswerRead(id, ReadOf(answers, n)));
              && Possible(seen, AnswerAction(s.nextFrame, ActionOf(answers, n)))
              && Do(seen, AnswerAction(s.nextFrame, ActionOf(answers, n)))
                 == ActionAnswered(Answered(seen, s.nextFrame), purpose, expected, n, ActionOf(answers, n))
  {
  }

  lemma LoggedTry(answers: Fence.Answers, expected: string, n: nat)
    ensures Logged(Fence.Try(answers, expected, n))
            == match answers.read(n)
               case Failure(_) => []
               case Success(screen) =>
                 if screen.incarnation != expected then [ReadScreen(screen.incarnation)]
                 else [ReadScreen(expected), Action(expected)]
  {
    var trace := Fence.Try(answers, expected, n);
    if |trace| == 2 { assert trace[..1][..0] == []; }
    if |trace| == 1 { assert trace[..0] == []; }
  }

  /** The state in which try `n + 1` waits. */
  function NextTry(s: State, id: nat, answers: Fence.Answers, purpose: Purpose, expected: string, n: nat): State {
    Await(Ran(s, id, Fence.Try(answers, expected, n), s.nextFrame + 1), FenceRead(purpose, expected, n + 1))
  }

  /** A read of the expected incarnation sends the action. */
  lemma ReadSends(s: State, id: nat, answers: Fence.Answers, purpose: Purpose, expected: string, n: nat)
    requires Waits(s, id, purpose, expected, n) && ReadOf(answers, n) == Success(expected)
    ensures FenceReadAnswered(Answered(s, id), purpose, expected, n, ReadOf(answers, n)) == Sent(s, id, purpose, expected, n)
    ensures Answered(Sent(s, id, purpose, expected, n), s.nextFrame)
            == Ran(s, id, Fence.Try(answers, expected, n), s.nextFrame + 1)
  {
    LoggedTry(answers, expected, n);
    hide Logged, Throw;
    var sent := Sent(s, id, purpose, expected, n);
    assert Answered(sent, s.nextFrame).frames == Answered(s, id).frames;
    assert s.log + [ReadScreen(expected)] + [Action(expected)] == s.log + [ReadScreen(expected), Action(expected)];
  }

  lemma NextWaits(s: State, id: nat, answers: Fence.Answers, purpose: Purpose, expected: string, n: nat)
    requires Waits(s, id, purpose, expected, n)
    ensures var next := NextTry(s, id, answers, purpose, expected, n);
            && Waits(next, s.nextFrame + 1, purpose, expected, n + 1)
            && Answered(next, s.nextFrame + 1).frames == Answered(s, id).frames
  {
    hide Logged, Fence.Try;
  }

  /** One try that goes round: what it read and sent is logged, and the next try waits. */
  lemma GoesRoundOnce(s: State, id: nat, answers: Fence.Answers, purpose: Purpose, expected: string, n: nat)
    requires Waits(s, id, purpose, expected, n) && Fence.GoesRound(answers, expected, n) && n + 1 < FENCE_ATTEMPTS
    ensures OneTry(s, id, answers, purpose, expected, n) == (NextTry(s, id, answers, purpose, expected, n), true)
  {
    ReadSends(s, id, answers, purpose, expected, n);
    hide Ran, Sent, FenceReadAnswered, Waits, Throw;
  }

  /** The try that ends the loop, at its read. */
  lemma EndsAtRead(s: State, id: nat, answers: Fence.Answers, purpose: Purpose, expected: string, n: nat)
    requires ReadOf(answers, n) != Success(expected)
    ensures OneTry(s, id, answers, purpose, expected, n)
            == (Settle(Ran(s, id, Fence.Try(answers, expected, n), s.nextFrame), purpose, expected, n,
                       Fence.EndsWith(answers, expected, n)), false)
  {
    LoggedTry(answers, expected, n);
    hide Logged, Throw;
    assert s.log + [] == s.log;
  }

  /** Or at its action. */
  lemma EndsAtAction(s: State, id: nat, answers: Fence.Answers, purpose: Purpose, expected: string, n: nat)
    requires Waits(s, id, purpose, expected, n) && ReadOf(answers, n) == Success(expected)
    requires n + 1 == FENCE_ATTEMPTS || ActionOf(answers, n) != Failure(StaleFence)
    ensures OneTry(s, id, answers, purpose, expected, n)
            == (Settle(Ran(s, id, Fence.Try(answers, expected, n), s.nextFrame + 1), purpose, expected, n,
                       Fence.EndsWith(answers, expected, n)), false)
  {
    ReadSends(s, id, answers, purpose, expected, n);
    hide Ran, Sent, FenceReadAnswered, Waits, Throw;
  }

  lemma EndsLoop(s: State, id: nat, answers: Fence.Answers, purpose: Purpose, expected: string, n: nat) returns (nextFrame: nat)
    requires Waits(s, id, purpose, expected, n) && n < FENCE_ATTEMPTS
    requires n + 1 == FENCE_ATTEMPTS || !Fence.GoesRound(answers, expected, n)
    ensures OneTry(s, id, answers, purpose, expected, n)
            == (Settle(Ran(s, id, Fence.Try(answers, expected, n), nextFrame), purpose, expected, n,
                       Fence.EndsWith(answers, expected, n)), false)
  {
    hide OneTry, Settle, Ran, Waits;
    if ReadOf(answers, n) == Success(expected) {
      EndsAtAction(s, id, answers, purpose, expected, n);
      nextFrame := s.nextFrame + 1;
    } else {
      EndsAtRead(s, id, answers, purpose, expected, n);
      nextFrame := s.nextFrame;
    }
  }

  lemma RanFurther(s: State, id: nat, first: seq<Fence.Event>, rest: seq<Fence.Event>, frame: Frame, nextFrame: nat)
    requires var next := Await(Ran(s, id, first, s.nextFrame + 1), frame);
             Answered(next, s.nextFrame + 1).frames == Answered(s, id).frames
    ensures Ran(Await(Ran(s, id, first, s.nextFrame + 1), frame), s.nextFrame + 1, rest, nextFrame)
            == Ran(s, id, first + rest, nextFrame)
  {
    LoggedConcat(first, rest);
    hide Logged;
  }

  /**
   For all answers: the follow's log grows by exactly what the loop reads and sends, in at most eight
   tries, and the follow then takes exactly the loop's outcome.
   */
  lemma {:induction false} DriveIsTheLoop(s: State, id: nat, answers: Fence.Answers, purpose: Purpose, expected: string,
                                          n: nat, k: nat) returns (nextFrame: nat)
    requires Waits(s, id, purpose, expected, n) && n <= k < FENCE_ATTEMPTS
    requires forall i: nat | n <= i < k :: Fence.GoesRound(answers, expected, i)
    requires k + 1 == FENCE_ATTEMPTS || !Fence.GoesRound(answers, expected, k)
    ensures Drive(s, id, answers, purpose, expected, n)
            == Settle(Ran(s, id, Fence.Tries(answers, expected, n, k + 1), nextFrame), purpose, expected, k,
                      Fence.EndsWith(answers, expected, k))
    decreases k - n
  {
    hide OneTry, Settle, Waits, Ran, Answered, Fence.Try, Fence.GoesRound, Fence.EndsWith;
    if n == k {
      nextFrame := EndsLoop(s, id, answers, purpose, expected, n);
      assert Fence.Tries(answers, expected, n, n) + Fence.Try(answers, expected, n) == Fence.Try(answers, expected, n);
    } else {
      GoesRoundOnce(s, id, answers, purpose, expected, n);
      NextWaits(s, id, answers, purpose, expected, n);
      var next := NextTry(s, id, answers, purpose, expected, n);
      nextFrame := DriveIsTheLoop(next, s.nextFrame + 1, answers, purpose, expected, n + 1, k);
      Fence.TriesFirst(answers, expected, n, k + 1);
      RanFurther(s, id, Fence.Try(answers, expected, n), Fence.Tries(answers, expected, n + 1, k + 1),
                 FenceRead(purpose, expected, n + 1), nextFrame);
    }
  }
}
