// apps/ios/terminalKeys.ts, class InputQueue: what is typed goes out in batches, never two at once.
// Each await is a step boundary: a push may come between any two completions.
module InputQueue {
  import opened Wrappers

  /** What happens at the queue's edge, in order. */
  datatype Event =
    | Pushed(text: string)
    | Sent(text: string)
    | Arrived
    | Failed(dropped: string)

  datatype Queue = Queue(waiting: string, running: bool, log: seq<Event>)

  function Fresh(): Queue {
    Queue("", false, [])
  }

  /** The head of the drain loop: take all that waits, or stop running. */
  function DrainNext(q: Queue): Queue {
    if q.waiting != "" then Queue("", true, q.log + [Sent(q.waiting)])
    else q.(running := false)
  }

  function Push(q: Queue, bytes: string): Queue {
    if bytes == "" then q
    else
      var queued := q.(waiting := q.waiting + bytes, log := q.log + [Pushed(bytes)]);
      if q.running then queued else DrainNext(queued)
  }

  /** The request in flight came back. */
  function Complete(q: Queue, arrived: bool): Queue
    requires q.running
  {
    if arrived then DrainNext(q.(log := q.log + [Arrived]))
    else DrainNext(q.(waiting := "", log := q.log + [Failed(q.waiting)]))
  }

  // ----- what the log says, without the queue -----

  /** A request is out. */
  predicate InFlight(log: seq<Event>) {
    log != []
    && (var last := log[|log| - 1];
        last.Sent? || (last.Pushed? && InFlight(log[..|log| - 1])))
  }

  /** The text pushed and neither sent nor dropped since. */
  function Unsent(log: seq<Event>): string {
    if log == [] then ""
    else
      var init, last := log[..|log| - 1], log[|log| - 1];
      match last
      case Pushed(text) => Unsent(init) + text
      case Arrived => Unsent(init)
      case _ => ""
  }

  /** An event that may follow `log`: one request at a time, carrying all that waits; a failure drops all that waits. */
  predicate Follows(log: seq<Event>, event: Event) {
    match event
    case Pushed(text) => text != ""
    case Sent(text) => !InFlight(log) && text == Unsent(log) && text != ""
    case Arrived => InFlight(log)
    case Failed(dropped) => InFlight(log) && dropped == Unsent(log)
  }

  predicate Orderly(log: seq<Event>) {
    log == [] || (Orderly(log[..|log| - 1]) && Follows(log[..|log| - 1], log[|log| - 1]))
  }

  predicate Valid(q: Queue) {
    && Orderly(q.log)
    && q.waiting == Unsent(q.log)
    && q.running == InFlight(q.log)
    && (!q.running ==> q.waiting == "")
  }

  /** The log is orderly and the queue agrees with it, except that the drain loop has yet to look. */
  predicate Looking(q: Queue) {
    Orderly(q.log) && q.waiting == Unsent(q.log) && !InFlight(q.log)
  }

  lemma LogOneMore(log: seq<Event>, event: Event)
    requires Orderly(log) && Follows(log, event)
    ensures Orderly(log + [event])
    ensures InFlight(log + [event]) == (event.Sent? || (event.Pushed? && InFlight(log)))
    ensures Unsent(log + [event])
            == if event.Pushed? then Unsent(log) + event.text else if event.Arrived? then Unsent(log) else ""
  {
    assert (log + [event])[..|log + [event]| - 1] == log;
  }

  lemma DrainKeepsOrder(q: Queue)
    requires Looking(q)
    ensures Valid(DrainNext(q))
  {
    if q.waiting != "" { LogOneMore(q.log, Sent(q.waiting)); }
  }

  lemma PushKeepsOrder(q: Queue, bytes: string)
    requires Valid(q)
    ensures Valid(Push(q, bytes))
  {
    if bytes != "" {
      LogOneMore(q.log, Pushed(bytes));
      if !q.running { DrainKeepsOrder(q.(waiting := q.waiting + bytes, log := q.log + [Pushed(bytes)])); }
    }
  }

  lemma CompleteKeepsOrder(q: Queue, arrived: bool)
    requires Valid(q) && q.running
    ensures Valid(Complete(q, arrived))
  {
    if arrived {
      LogOneMore(q.log, Arrived);
      DrainKeepsOrder(q.(log := q.log + [Arrived]));
    } else {
      LogOneMore(q.log, Failed(q.waiting));
      DrainKeepsOrder(q.(waiting := "", log := q.log + [Failed(q.waiting)]));
    }
  }

  // ----- every interleaving -----

  datatype Step = Type(bytes: string) | Return(arrived: bool)

  /** The queue after these steps; None when a request comes back that is not out. */
  function After(steps: seq<Step>): Option<Queue> {
    if steps == [] then Some(Fresh())
    else
      var before, last := After(steps[..|steps| - 1]), steps[|steps| - 1];
      if before.None? then None
      else if last.Type? then Some(Push(before.value, last.bytes))
      else if before.value.running then Some(Complete(before.value, last.arrived))
      else None
  }

  /** At most one request is out, and an idle queue has nothing waiting, in every interleaving. */
  lemma {:induction false} RunIsOrderly(steps: seq<Step>, q: Queue)
    requires After(steps) == Some(q)
    ensures Valid(q) && (!q.running ==> q.waiting == "")
  {
    if steps != [] {
      var before := After(steps[..|steps| - 1]).value;
      RunIsOrderly(steps[..|steps| - 1], before);
      match steps[|steps| - 1]
      case Type(bytes) => PushKeepsOrder(before, bytes);
      case Return(arrived) => CompleteKeepsOrder(before, arrived);
    }
  }

  /** A request came back between events `i` and `j`. */
  predicate CameBack(log: seq<Event>, i: nat, j: nat) {
    exists k: nat :: i < k < j && k < |log| && (log[k].Arrived? || log[k].Failed?)
  }

  lemma {:induction false} StillOut(log: seq<Event>, i: nat)
    requires Orderly(log) && i < |log| && log[i].Sent?
    ensures InFlight(log) || CameBack(log, i, |log|)
  {
    var init, last := log[..|log| - 1], |log| - 1;
    if i < last {
      StillOut(init, i);
      if CameBack(init, i, last) {
        var k: nat :| i < k < last && (init[k].Arrived? || init[k].Failed?);
        assert log[k] == init[k];
      } else if log[last].Arrived? || log[last].Failed? {
        assert CameBack(log, i, |log|);
      }
    }
  }

  /** In every interleaving, between two requests the first one came back. */
  lemma {:induction false} OneAtATime(steps: seq<Step>, q: Queue, i: nat, j: nat)
    requires After(steps) == Some(q) && i < j < |q.log| && q.log[i].Sent? && q.log[j].Sent?
    ensures CameBack(q.log, i, j)
  {
    RunIsOrderly(steps, q);
    OrderlySoFar(q.log, j + 1);
    var upTo := q.log[..j + 1];
    assert upTo[..|upTo| - 1] == q.log[..j];
    StillOut(q.log[..j], i);
    var k: nat :| i < k < j && (q.log[..j][k].Arrived? || q.log[..j][k].Failed?);
    assert q.log[k] == q.log[..j][k];
  }

  lemma {:induction false} OrderlySoFar(log: seq<Event>, n: nat)
    requires Orderly(log) && n <= |log|
    ensures Orderly(log[..n])
    decreases |log|
  {
    if n == |log| {
      assert log[..n] == log;
    } else {
      OrderlySoFar(log[..|log| - 1], n);
      assert log[..|log| - 1][..n] == log[..n];
    }
  }

  // ----- conservation -----

  /** All text typed, and what became of it, in order. */
  function Typed(steps: seq<Step>): string {
    if steps == [] then ""
    else
      var init, last := steps[..|steps| - 1], steps[|steps| - 1];
      if last.Type? then Typed(init) + last.bytes else Typed(init)
  }

  function Left(log: seq<Event>): string {
    if log == [] then ""
    else
      var init, last := log[..|log| - 1], log[|log| - 1];
      match last
      case Sent(text) => Left(init) + text
      case Failed(dropped) => Left(init) + dropped
      case _ => Left(init)
  }

  function AllPushed(log: seq<Event>): string {
    if log == [] then ""
    else
      var init, last := log[..|log| - 1], log[|log| - 1];
      if last.Pushed? then AllPushed(init) + last.text else AllPushed(init)
  }

  /** Nothing is lost, repeated or reordered: sent and dropped text, then what waits, is all that was pushed. */
  lemma {:induction false} NothingLost(log: seq<Event>)
    requires Orderly(log)
    ensures Left(log) + Unsent(log) == AllPushed(log)
  {
    if log != [] {
      var init, last := log[..|log| - 1], log[|log| - 1];
      NothingLost(init);
      match last
      case Pushed(text) => assert Left(init) + (Unsent(init) + text) == Left(init) + Unsent(init) + text;
      case _ =>
    }
  }

  lemma {:induction false} TypedIsPushed(steps: seq<Step>, q: Queue)
    requires After(steps) == Some(q)
    ensures AllPushed(q.log) == Typed(steps)
  {
    if steps != [] {
      var before := After(steps[..|steps| - 1]).value;
      TypedIsPushed(steps[..|steps| - 1], before);
      match steps[|steps| - 1]
      case Type(bytes) => PushLogs(before, bytes);
      case Return(arrived) => CompleteLogs(before, arrived);
    }
  }

  lemma PushedOneMore(log: seq<Event>, event: Event)
    ensures AllPushed(log + [event]) == AllPushed(log) + if event.Pushed? then event.text else ""
  {
    assert (log + [event])[..|log + [event]| - 1] == log;
  }

  lemma DrainLogs(q: Queue)
    ensures AllPushed(DrainNext(q).log) == AllPushed(q.log)
  {
    PushedOneMore(q.log, Sent(q.waiting));
  }

  lemma PushLogs(q: Queue, bytes: string)
    ensures AllPushed(Push(q, bytes).log) == AllPushed(q.log) + bytes
  {
    PushedOneMore(q.log, Pushed(bytes));
    DrainLogs(q.(waiting := q.waiting + bytes, log := q.log + [Pushed(bytes)]));
  }

  lemma CompleteLogs(q: Queue, arrived: bool)
    requires q.running
    ensures AllPushed(Complete(q, arrived).log) == AllPushed(q.log)
  {
    var event := if arrived then Arrived else Failed(q.waiting);
    PushedOneMore(q.log, event);
    DrainLogs(q.(waiting := if arrived then q.waiting else "", log := q.log + [event]));
  }

  /** In every interleaving, what was sent or dropped, followed by what waits, is what was typed. */
  lemma TypedIsAccountedFor(steps: seq<Step>, q: Queue)
    requires After(steps) == Some(q)
    ensures Left(q.log) + q.waiting == Typed(steps)
  {
    RunIsOrderly(steps, q);
    NothingLost(q.log);
    TypedIsPushed(steps, q);
  }

  predicate NoFailure(log: seq<Event>) {
    forall i :: 0 <= i < |log| ==> !log[i].Failed?
  }

  function SentText(log: seq<Event>): string {
    if log == [] then ""
    else
      var init, last := log[..|log| - 1], log[|log| - 1];
      if last.Sent? then SentText(init) + last.text else SentText(init)
  }

  lemma {:induction false} OnlyFailuresDrop(log: seq<Event>)
    requires NoFailure(log)
    ensures Left(log) == SentText(log)
  {
    if log != [] { OnlyFailuresDrop(log[..|log| - 1]); }
  }

  /** Without a failure, the batches sent and what waits are everything typed, in order. */
  lemma WithoutFailureAllIsSent(steps: seq<Step>, q: Queue)
    requires After(steps) == Some(q) && NoFailure(q.log)
    ensures SentText(q.log) + q.waiting == Typed(steps)
  {
    TypedIsAccountedFor(steps, q);
    OnlyFailuresDrop(q.log);
  }

  /** How requests came back, as the log tells it and as they did. */
  function Came(log: seq<Event>): seq<bool> {
    if log == [] then []
    else
      var init, last := log[..|log| - 1], log[|log| - 1];
      Came(init) + (match last case Arrived => [true] case Failed(_) => [false] case _ => [])
  }

  function Returned(steps: seq<Step>): seq<bool> {
    if steps == [] then []
    else
      var init, last := steps[..|steps| - 1], steps[|steps| - 1];
      Returned(init) + (if last.Return? then [last.arrived] else [])
  }

  lemma CameOneMore(log: seq<Event>, event: Event)
    ensures Came(log + [event]) == Came(log) + (match event case Arrived => [true] case Failed(_) => [false] case _ => [])
  {
    assert (log + [event])[..|log + [event]| - 1] == log;
  }

  lemma DrainCame(q: Queue)
    ensures Came(DrainNext(q).log) == Came(q.log)
  {
    CameOneMore(q.log, Sent(q.waiting));
  }

  lemma PushCame(q: Queue, bytes: string)
    ensures Came(Push(q, bytes).log) == Came(q.log)
  {
    CameOneMore(q.log, Pushed(bytes));
    DrainCame(q.(waiting := q.waiting + bytes, log := q.log + [Pushed(bytes)]));
  }

  lemma CompleteCame(q: Queue, arrived: bool)
    requires q.running
    ensures Came(Complete(q, arrived).log) == Came(q.log) + [arrived]
  {
    var event := if arrived then Arrived else Failed(q.waiting);
    CameOneMore(q.log, event);
    DrainCame(q.(waiting := if arrived then q.waiting else "", log := q.log + [event]));
  }

  /** Every request that came back is told once, in order, as arrived or failed. */
  lemma {:induction false} EveryReturnIsTold(steps: seq<Step>, q: Queue)
    requires After(steps) == Some(q)
    ensures Came(q.log) == Returned(steps)
  {
    if steps != [] {
      var before := After(steps[..|steps| - 1]).value;
      EveryReturnIsTold(steps[..|steps| - 1], before);
      match steps[|steps| - 1]
      case Type(bytes) => PushCame(before, bytes);
      case Return(arrived) => CompleteCame(before, arrived);
    }
  }

  /** A failure leaves the queue idle and empty: what waited is dropped, and nothing is sent for it. */
  lemma FailureEmpties(steps: seq<Step>, q: Queue)
    requires After(steps) == Some(q) && q.running
    ensures Complete(q, false) == Queue("", false, q.log + [Failed(q.waiting)])
  {
  }

  /** An arrival sends on, at once and as one, all that waited. */
  lemma ArrivalSendsOn(steps: seq<Step>, q: Queue)
    requires After(steps) == Some(q) && q.running
    ensures var next := Complete(q, true);
            && next.waiting == "" && next.running == (q.waiting != "")
            && next.log == q.log + [Arrived] + if q.waiting == "" then [] else [Sent(q.waiting)]
  {
  }

  /** The queue object, stepped as the source does. */
  class KeyQueue {
    var waiting: string
    var running: bool
    var log: seq<Event>

    function Contents(): Queue
      reads this
    {
      Queue(waiting, running, log)
    }

    constructor ()
      ensures Contents() == Fresh() && Valid(Contents())
    {
      waiting, running, log := "", false, [];
    }

    method Drain()
      requires Looking(Contents())
      modifies this
      ensures Contents() == DrainNext(old(Contents())) && Valid(Contents())
    {
      DrainKeepsOrder(Contents());
      if waiting != "" {
        log := log + [Sent(waiting)];
        waiting, running := "", true;
      } else {
        running := false;
      }
    }

    method Type(bytes: string)
      requires Valid(Contents())
      modifies this
      ensures Contents() == Push(old(Contents()), bytes) && Valid(Contents())
    {
      PushKeepsOrder(Contents(), bytes);
      if bytes == "" { return; }
      LogOneMore(log, Pushed(bytes));
      waiting := waiting + bytes;
      log := log + [Pushed(bytes)];
      if !running { Drain(); }
    }

    method Return(arrived: bool)
      requires Valid(Contents()) && running
      modifies this
      ensures Contents() == Complete(old(Contents()), arrived) && Valid(Contents())
    {
      if arrived {
        LogOneMore(log, Arrived);
        log := log + [Arrived];
      } else {
        LogOneMore(log, Failed(waiting));
        log := log + [Failed(waiting)];
        waiting := "";
      }
      Drain();
    }
  }
}
