// apps/ios/terminalControls.ts, `withFreshTerminalFence`: a terminal action is sent only with a fence
// read just before it from the incarnation the person opened, and at most eight times.
module TerminalFence {
  import opened Wrappers

  const FENCE_ATTEMPTS: nat := 8

  datatype Screen = Screen(incarnation: string, nextSequence: nat, snapshot: string)

  datatype Fence = Fence(snapshot: string, incarnation: string, sequence: nat)

  /** Why a request failed: the store had moved, something that may pass, or something that will not. */
  datatype Error = StaleFence | Passing | Fatal

  /** What the loop ends with; `value` is what the action returned. */
  datatype Outcome = Acted(value: bool) | Restarted | Threw(error: Error) | ChangedTooOften

  datatype Event = Read(screen: Screen) | Acts(fence: Fence)

  function FenceOf(screen: Screen, expected: string): Fence {
    Fence(screen.snapshot, expected, screen.nextSequence)
  }

  /** The answers st will give: the `i`th read of the screen and the `i`th action. */
  datatype Answers = Answers(read: nat -> Result<Screen, Error>, act: nat -> Result<bool, Error>)

  /** The `i`th try reads the expected incarnation and its action is refused as stale. */
  predicate GoesRound(answers: Answers, expected: string, i: nat) {
    && answers.read(i).Success? && answers.read(i).value.incarnation == expected
    && answers.act(i) == Failure(StaleFence)
  }

  /** How the `i`th try ends the loop, if the tries before it all went round. */
  function EndsWith(answers: Answers, expected: string, i: nat): Outcome {
    match answers.read(i)
    case Failure(error) => Threw(error)
    case Success(screen) =>
      if screen.incarnation != expected then Restarted
      else if answers.act(i).Failure? then Threw(answers.act(i).error)
      else Acted(answers.act(i).value)
  }

  /** The tries go round `k` times, and the next one ends the loop, being the last or not going round. */
  ghost predicate EndsAt(answers: Answers, expected: string, k: nat) {
    k < FENCE_ATTEMPTS && (forall i: nat | i < k :: GoesRound(answers, expected, i))
    && (k == FENCE_ATTEMPTS - 1 || !GoesRound(answers, expected, k))
  }

  /** What the `i`th try reads and sends. */
  function Try(answers: Answers, expected: string, i: nat): seq<Event> {
    match answers.read(i)
    case Failure(_) => []
    case Success(screen) =>
      if screen.incarnation != expected then [Read(screen)] else [Read(screen), Acts(FenceOf(screen, expected))]
  }

  /** What the tries from `from` up to `to` read and send. */
  function Tries(answers: Answers, expected: string, from: nat, to: nat): seq<Event>
    requires from <= to
  {
    if from == to then [] else Tries(answers, expected, from, to - 1) + Try(answers, expected, to - 1)
  }

  /** Every action carries the fence read just before it, from the expected incarnation. */
  ghost predicate Fenced(trace: seq<Event>, expected: string) {
    forall i :: 0 <= i < |trace| && trace[i].Acts? ==>
      && i > 0 && trace[i - 1].Read? && trace[i - 1].screen.incarnation == expected
      && trace[i].fence == FenceOf(trace[i - 1].screen, expected)
  }

  lemma {:induction false} TriesAreFenced(answers: Answers, expected: string, from: nat, to: nat)
    requires from <= to
    ensures Fenced(Tries(answers, expected, from, to), expected) && |Tries(answers, expected, from, to)| <= 2 * (to - from)
  {
    hide Fenced, Try;
    if from == to {
      assert Fenced([], expected) by { NothingIsFenced(expected); }
    } else {
      TriesAreFenced(answers, expected, from, to - 1);
      TryIsFenced(answers, expected, to - 1);
      FencedConcat(Tries(answers, expected, from, to - 1), Try(answers, expected, to - 1), expected);
    }
  }

  lemma NothingIsFenced(expected: string)
    ensures Fenced([], expected)
  {
  }

  lemma TryIsFenced(answers: Answers, expected: string, i: nat)
    ensures Fenced(Try(answers, expected, i), expected) && |Try(answers, expected, i)| <= 2
  {
  }

  lemma FencedConcat(a: seq<Event>, b: seq<Event>, expected: string)
    requires Fenced(a, expected) && Fenced(b, expected)
    ensures Fenced(a + b, expected)
  {
    var c := a + b;
    assert forall i :: |a| <= i < |c| ==> c[i] == b[i - |a|];
  }

  /** All that is read and sent, and how it ends, are decided by the first try that does not go round. */
  method WithFreshTerminalFence(expected: string, answers: Answers) returns (outcome: Outcome, trace: seq<Event>)
    ensures exists k: nat :: EndsAt(answers, expected, k) && outcome == EndsWith(answers, expected, k)
                             && trace == Tries(answers, expected, 0, k + 1)
    ensures Fenced(trace, expected) && |trace| <= 2 * FENCE_ATTEMPTS
  {
    trace := [];
    for attempt := 0 to FENCE_ATTEMPTS
      invariant trace == Tries(answers, expected, 0, attempt)
      invariant forall i: nat | i < attempt :: GoesRound(answers, expected, i)
      invariant attempt < FENCE_ATTEMPTS
    {
      TriesAreFenced(answers, expected, 0, attempt + 1);
      var read := answers.read(attempt);
      if read.Failure? {
        assert EndsAt(answers, expected, attempt);
        return Threw(read.error), trace;
      }
      trace := trace + [Read(read.value)];
      if read.value.incarnation != expected {
        assert EndsAt(answers, expected, attempt);
        return Restarted, trace;
      }
      trace := trace + [Acts(FenceOf(read.value, expected))];
      assert trace == Tries(answers, expected, 0, attempt + 1);
      var acted := answers.act(attempt);
      if acted.Success? {
        assert EndsAt(answers, expected, attempt);
        return Acted(acted.value), trace;
      }
      if acted.error != StaleFence || attempt == FENCE_ATTEMPTS - 1 {
        assert EndsAt(answers, expected, attempt);
        return Threw(acted.error), trace;
      }
    }
    return ChangedTooOften, trace;
  }

  /** The loop ends one way: the last line, that the terminal changed too often, is never reached. */
  lemma EndsOneWay(answers: Answers, expected: string, j: nat, k: nat)
    requires EndsAt(answers, expected, j) && EndsAt(answers, expected, k)
    ensures j == k && EndsWith(answers, expected, k) != ChangedTooOften
  {
    assert j < k ==> GoesRound(answers, expected, j);
    assert k < j ==> GoesRound(answers, expected, k);
  }

  /** The `i`th try read a screen and sent an action with the fence of that very screen. */
  ghost predicate Asks(trace: seq<Event>, answers: Answers, expected: string, i: nat) {
    && answers.read(i).Success? && 2 * i + 1 < |trace|
    && var screen := answers.read(i).value;
    trace[2 * i] == Read(screen) && trace[2 * i + 1] == Acts(Fence(screen.snapshot, expected, screen.nextSequence))
  }

  /** A store that moves under every try gets eight fenced actions, and the last refusal is thrown. */
  lemma EightTries(answers: Answers, expected: string)
    requires forall i: nat | i < 8 :: GoesRound(answers, expected, i)
    ensures EndsAt(answers, expected, 7) && EndsWith(answers, expected, 7) == Threw(StaleFence)
    ensures |Tries(answers, expected, 0, 8)| == 16
    ensures forall i: nat | i < 8 :: Asks(Tries(answers, expected, 0, 8), answers, expected, i)
  {
    assert GoesRound(answers, expected, 7);
    RoundsAreTried(answers, expected, 8);
  }

  lemma {:induction false} RoundsAreTried(answers: Answers, expected: string, n: nat)
    requires forall i: nat | i < n :: GoesRound(answers, expected, i)
    ensures |Tries(answers, expected, 0, n)| == 2 * n
    ensures forall i: nat | i < n :: Asks(Tries(answers, expected, 0, n), answers, expected, i)
  {
    if n > 0 {
      RoundsAreTried(answers, expected, n - 1);
      assert GoesRound(answers, expected, n - 1);
      var before, trace := Tries(answers, expected, 0, n - 1), Tries(answers, expected, 0, n);
      forall i: nat | i < n ensures Asks(trace, answers, expected, i) {
        assert i < n - 1 ==> Asks(before, answers, expected, i);
      }
    }
  }

  lemma {:induction false} TriesFirst(answers: Answers, expected: string, from: nat, to: nat)
    requires from < to
    ensures Tries(answers, expected, from, to) == Try(answers, expected, from) + Tries(answers, expected, from + 1, to)
  {
    if from + 1 < to { TriesFirst(answers, expected, from, to - 1); }
  }
}
