// src/eval_run.rs, the supervise tick of `run_eval_inner` and `crash_ding`: each tick looks at every
// declared task and tells its supervisors, once, when it has crashed.
module Supervision {
  import opened Wrappers
  import opened Authority
  import opened SupervisorChain

  datatype Session = Session(ptyId: string, alive: bool, exitCode: Option<int>)

  /** What one tick sees: the sessions listed, if they could be, and the exit codes left behind. */
  datatype Look = Look(sessions: Option<seq<Session>>, markers: map<string, int>)

  datatype Task = Task(agentId: string, runtimeId: string)

  datatype Notice = Notice(to: string, task: string)

  datatype Reading = Alive | Clean | Unclean | Unseen

  /** The last session listed under this id. */
  function SessionOf(sessions: seq<Session>, id: string): Option<Session> {
    if sessions == [] then None
    else
      var last := sessions[|sessions| - 1];
      if last.ptyId == id then Some(last) else SessionOf(sessions[..|sessions| - 1], id)
  }

  function ReadingOf(look: Look, id: string): Reading {
    if look.sessions.None? then Unseen
    else
      var found := SessionOf(look.sessions.value, id);
      if found.Some? && found.value.alive then Alive
      else if (found.Some? && found.value.exitCode == Some(0)) || (id in look.markers && look.markers[id] == 0) then Clean
      else Unclean
  }

  datatype State = State(everAlive: set<string>, dinged: set<string>, notices: seq<Notice>)

  /** A notice to each member of the chain. */
  function Ring(chain: seq<string>, id: string): (r: seq<Notice>)
  {
    if chain == [] then [] else Ring(chain[..|chain| - 1], id) + [Notice(chain[|chain| - 1], id)]
  }

  function SeeTask(specs: seq<Spec>, host: string, look: Look, task: Task, s: State): State {
    var id := task.runtimeId;
    match ReadingOf(look, id)
    case Alive => s.(everAlive := s.everAlive + {id}, dinged := s.dinged - {id})
    case Unclean =>
      if id in s.everAlive && id !in s.dinged then
        s.(dinged := s.dinged + {id}, notices := s.notices + Ring(ChainOf(specs, host, task.agentId), id))
      else s
    case _ => s
  }

  function SeeTasks(specs: seq<Spec>, host: string, look: Look, tasks: seq<Task>, s: State): State {
    if tasks == [] then s
    else SeeTask(specs, host, look, tasks[|tasks| - 1], SeeTasks(specs, host, look, tasks[..|tasks| - 1], s))
  }

  /** The tick's memory, as the source keeps it. */
  class Supervisor {
    var everAlive: set<string>
    var dinged: set<string>
    var notices: seq<Notice>

    function Contents(): State
      reads this
    {
      State(everAlive, dinged, notices)
    }

    /** The boot gate has just seen every declared task alive. */
    constructor (tasks: seq<Task>)
      ensures Contents() == Start(tasks)
    {
      everAlive := Ids(tasks);
      dinged := {};
      notices := [];
    }

    method CrashDing(specs: seq<Spec>, host: string, task: Task)
      modifies this`notices
      ensures notices == old(notices) + Ring(ChainOf(specs, host, task.agentId), task.runtimeId)
    {
      var chain := ComputeChain(task.agentId, specs, host);
      for i := 0 to |chain|
        invariant notices == old(notices) + Ring(chain[..i], task.runtimeId)
      {
        notices := notices + [Notice(chain[i], task.runtimeId)];
        assert chain[..i + 1][..i] == chain[..i];
      }
      assert chain[..|chain|] == chain;
    }

    method Tick(specs: seq<Spec>, host: string, tasks: seq<Task>, look: Look)
      modifies this
      ensures Contents() == SeeTasks(specs, host, look, tasks, old(Contents()))
    {
      if look.sessions.None? {
        UnseenTick(specs, host, look, tasks, Contents());
        return;
      }
      for i := 0 to |tasks|
        invariant Contents() == SeeTasks(specs, host, look, tasks[..i], old(Contents()))
      {
        assert tasks[..i + 1][..i] == tasks[..i];
        var id := tasks[i].runtimeId;
        var reading := ReadingOf(look, id);
        if reading == Alive {
          everAlive := everAlive + {id};
          dinged := dinged - {id};
        } else if id in everAlive && reading != Clean && id !in dinged {
          CrashDing(specs, host, tasks[i]);
          dinged := dinged + {id};
        }
      }
      assert tasks[..|tasks|] == tasks;
    }
  }

  lemma {:induction false} UnseenTick(specs: seq<Spec>, host: string, look: Look, tasks: seq<Task>, s: State)
    requires look.sessions.None?
    ensures SeeTasks(specs, host, look, tasks, s) == s
  {
    if tasks != [] { UnseenTick(specs, host, look, tasks[..|tasks| - 1], s); }
  }

  function Ids(tasks: seq<Task>): set<string> {
    set task | task in tasks :: task.runtimeId
  }

  function Start(tasks: seq<Task>): State {
    State(Ids(tasks), {}, [])
  }

  /** The state after the first `n` ticks. */
  function After(specs: seq<Spec>, host: string, tasks: seq<Task>, looks: seq<Look>, n: nat): State
    requires n <= |looks|
  {
    if n == 0 then Start(tasks)
    else SeeTasks(specs, host, looks[n - 1], tasks, After(specs, host, tasks, looks, n - 1))
  }

  function One(b: bool): nat { if b then 1 else 0 }

  /** How many notices about task `id` went to `to`. */
  function Count(notices: seq<Notice>, to: string, id: string): nat {
    if notices == [] then 0
    else Count(notices[..|notices| - 1], to, id) + One(notices[|notices| - 1] == Notice(to, id))
  }

  lemma {:induction false} CountConcat(a: seq<Notice>, b: seq<Notice>, to: string, id: string)
    ensures Count(a + b, to, id) == Count(a, to, id) + Count(b, to, id)
  {
    if b == [] {
      assert a + b == a;
    } else {
      assert (a + b)[..|a + b| - 1] == a + b[..|b| - 1];
      CountConcat(a, b[..|b| - 1], to, id);
    }
  }

  /** A crash is told once to each member of a duplicate-free chain, and to nobody else. */
  lemma {:induction false} RungOnce(chain: seq<string>, about: string, to: string, id: string)
    requires Distinct(chain)
    ensures Count(Ring(chain, about), to, id) == One(about == id && to in chain)
  {
    if chain != [] {
      var init, last := chain[..|chain| - 1], chain[|chain| - 1];
      RungOnce(init, about, to, id);
      assert chain == init + [last];
      var rung := Ring(chain, about);
      assert rung[..|rung| - 1] == Ring(init, about);
      assert last !in init;
    }
  }

  lemma OtherTask(specs: seq<Spec>, host: string, look: Look, task: Task, s: State, to: string, id: string)
    requires task.runtimeId != id
    ensures var t := SeeTask(specs, host, look, task, s);
            && (id in t.dinged <==> id in s.dinged)
            && (id in t.everAlive <==> id in s.everAlive)
            && Count(t.notices, to, id) == Count(s.notices, to, id)
  {
    var chain := ChainOf(specs, host, task.agentId);
    CountConcat(s.notices, Ring(chain, task.runtimeId), to, id);
    RungOnce(chain, task.runtimeId, to, id);
  }

  /** Whether this reading is a crash not told of yet. */
  predicate Crashes(reading: Reading, s: State, id: string) {
    reading == Unclean && id in s.everAlive && id !in s.dinged
  }

  ghost predicate Sees(s: State, t: State, reading: Reading, id: string, to: string, chain: seq<string>) {
    && (id in t.dinged <==> reading != Alive && (id in s.dinged || Crashes(reading, s, id)))
    && (id in t.everAlive <==> id in s.everAlive || reading == Alive)
    && Count(t.notices, to, id) == Count(s.notices, to, id) + One(Crashes(reading, s, id) && to in chain)
  }

  lemma ThisTask(specs: seq<Spec>, host: string, look: Look, task: Task, s: State, to: string)
    ensures Sees(s, SeeTask(specs, host, look, task, s), ReadingOf(look, task.runtimeId), task.runtimeId, to,
                 ChainOf(specs, host, task.agentId))
  {
    var chain := ChainOf(specs, host, task.agentId);
    CountConcat(s.notices, Ring(chain, task.runtimeId), to, task.runtimeId);
    RungOnce(chain, task.runtimeId, to, task.runtimeId);
  }

  /** Task `k` is the first with its id; a later one of the same id is never told of itself. */
  ghost predicate First(tasks: seq<Task>, k: nat)
    requires k < |tasks|
  {
    forall j: nat | j < k :: tasks[j].runtimeId != tasks[k].runtimeId
  }

  /** What this tick read of the session has been taken in. */
  predicate Settled(reading: Reading, s: State, id: string) {
    && (reading == Alive ==> id in s.everAlive && id !in s.dinged)
    && !Crashes(reading, s, id)
  }

  /** Once taken in, a further task of the same id changes nothing about it. */
  lemma SameTaskAgain(specs: seq<Spec>, host: string, look: Look, task: Task, s: State, to: string)
    requires Settled(ReadingOf(look, task.runtimeId), s, task.runtimeId)
    ensures var t, id := SeeTask(specs, host, look, task, s), task.runtimeId;
            && (id in t.dinged <==> id in s.dinged) && (id in t.everAlive <==> id in s.everAlive)
            && Count(t.notices, to, id) == Count(s.notices, to, id)
  {
  }

  lemma {:induction false} OtherTasks(specs: seq<Spec>, host: string, look: Look, tasks: seq<Task>, s: State, to: string,
                                      id: string)
    requires forall j: nat | j < |tasks| :: tasks[j].runtimeId != id
    ensures var t := SeeTasks(specs, host, look, tasks, s);
            && (id in t.dinged <==> id in s.dinged)
            && (id in t.everAlive <==> id in s.everAlive)
            && Count(t.notices, to, id) == Count(s.notices, to, id)
  {
    if tasks != [] {
      var init, last := tasks[..|tasks| - 1], tasks[|tasks| - 1];
      OtherTasks(specs, host, look, init, s, to, id);
      OtherTask(specs, host, look, last, SeeTasks(specs, host, look, init, s), to, id);
    }
  }

  lemma {:induction false} TickSees(specs: seq<Spec>, host: string, look: Look, tasks: seq<Task>, k: nat, s: State,
                                    to: string)
    requires k < |tasks| && First(tasks, k)
    ensures var id := tasks[k].runtimeId;
            Sees(s, SeeTasks(specs, host, look, tasks, s), ReadingOf(look, id), id, to,
                 ChainOf(specs, host, tasks[k].agentId))
  {
    var init, last := tasks[..|tasks| - 1], tasks[|tasks| - 1];
    var id := tasks[k].runtimeId;
    if k == |tasks| - 1 {
      OtherTasks(specs, host, look, init, s, to, id);
      ThisTask(specs, host, look, last, SeeTasks(specs, host, look, init, s), to);
    } else {
      TickSees(specs, host, look, init, k, s, to);
      if last.runtimeId == id {
        SameTaskAgain(specs, host, look, last, SeeTasks(specs, host, look, init, s), to);
      } else {
        OtherTask(specs, host, look, last, SeeTasks(specs, host, look, init, s), to, id);
      }
    }
  }

  // ----- whole runs -----

  /** Session `j` is the last one listed with this id. */
  ghost predicate LastListed(sessions: seq<Session>, id: string, j: nat) {
    && j < |sessions| && sessions[j].ptyId == id
    && forall m: nat | j < m < |sessions| :: sessions[m].ptyId != id
  }

  /** The last session listed with this id is alive. */
  ghost predicate IsUp(look: Look, id: string) {
    look.sessions.Some? && exists j: nat :: LastListed(look.sessions.value, id, j) && look.sessions.value[j].alive
  }

  /**
   Sessions were listed, the last one with this id is missing or not alive, it did not exit with 0,
   and no exit code 0 was left behind for it.
   */
  ghost predicate FoundCrash(look: Look, id: string) {
    && look.sessions.Some?
    && (forall j: nat :: LastListed(look.sessions.value, id, j) ==>
                           !look.sessions.value[j].alive && look.sessions.value[j].exitCode != Some(0))
    && (id in look.markers ==> look.markers[id] != 0)
  }

  lemma {:induction false} SessionIsLast(sessions: seq<Session>, id: string) returns (j: nat)
    ensures if SessionOf(sessions, id).Some? then LastListed(sessions, id, j) && SessionOf(sessions, id).value == sessions[j]
            else forall m: nat | m < |sessions| :: sessions[m].ptyId != id
  {
    j := 0;
    if sessions != [] {
      if sessions[|sessions| - 1].ptyId == id {
        j := |sessions| - 1;
      } else {
        j := SessionIsLast(sessions[..|sessions| - 1], id);
      }
    }
  }

  /** What a tick makes of a session is what was observed of it. */
  lemma ReadingTells(look: Look, id: string)
    ensures ReadingOf(look, id) == Alive <==> IsUp(look, id)
    ensures ReadingOf(look, id) == Unclean <==> FoundCrash(look, id)
    ensures ReadingOf(look, id) == Unseen <==> look.sessions.None?
  {
    if look.sessions.Some? {
      var sessions := look.sessions.value;
      var j := SessionIsLast(sessions, id);
      if SessionOf(sessions, id).Some? {
        forall m: nat | LastListed(sessions, id, m) ensures m == j { assert m < j || j < m || m == j; }
      }
    }
  }

  /** Task `id` has not been alive in ticks `a` to `n`. */
  ghost predicate Down(looks: seq<Look>, id: string, a: nat, n: nat)
    requires a <= n <= |looks|
  {
    forall i: nat | a <= i < n :: !IsUp(looks[i], id)
  }

  ghost predicate SawCrash(looks: seq<Look>, id: string, a: nat, n: nat)
    requires a <= n <= |looks|
  {
    exists i: nat :: a <= i < n && FoundCrash(looks[i], id)
  }

  lemma {:induction false} AlwaysEverAlive(specs: seq<Spec>, host: string, tasks: seq<Task>, looks: seq<Look>, n: nat,
                                           k: nat)
    requires n <= |looks| && k < |tasks| && First(tasks, k)
    ensures tasks[k].runtimeId in After(specs, host, tasks, looks, n).everAlive
  {
    if n > 0 {
      AlwaysEverAlive(specs, host, tasks, looks, n - 1, k);
      TickSees(specs, host, looks[n - 1], tasks, k, After(specs, host, tasks, looks, n - 1), "");
    }
  }

  /** A stretch starts with the run or just after its session was alive. */
  ghost predicate StretchStarts(looks: seq<Look>, id: string, a: nat)
    requires a <= |looks|
  {
    a == 0 || IsUp(looks[a - 1], id)
  }

  lemma ArmedAtStart(specs: seq<Spec>, host: string, tasks: seq<Task>, looks: seq<Look>, k: nat, a: nat)
    requires a <= |looks| && k < |tasks| && First(tasks, k) && StretchStarts(looks, tasks[k].runtimeId, a)
    ensures tasks[k].runtimeId !in After(specs, host, tasks, looks, a).dinged
  {
    if a > 0 {
      ReadingTells(looks[a - 1], tasks[k].runtimeId);
      TickSees(specs, host, looks[a - 1], tasks, k, After(specs, host, tasks, looks, a - 1), "");
    }
  }

  /**
   For every run: while a session stays down, each supervisor in the chain of the first task with
   its id hears of it exactly once if some tick of the stretch found a crash, and never otherwise;
   nobody outside the chain hears.
   */
  lemma {:induction false} OneNoticePerStretch(specs: seq<Spec>, host: string, tasks: seq<Task>, looks: seq<Look>,
                                               k: nat, a: nat, n: nat, to: string)
    requires k < |tasks| && First(tasks, k) && a <= n <= |looks|
    requires StretchStarts(looks, tasks[k].runtimeId, a) && Down(looks, tasks[k].runtimeId, a, n)
    ensures var id := tasks[k].runtimeId;
            var start, end := After(specs, host, tasks, looks, a), After(specs, host, tasks, looks, n);
            && Count(end.notices, to, id) == Count(start.notices, to, id)
                 + One(SawCrash(looks, id, a, n) && to in ChainOf(specs, host, tasks[k].agentId))
            && (id in end.dinged <==> SawCrash(looks, id, a, n))
    decreases n
  {
    var id := tasks[k].runtimeId;
    if n == a {
      ArmedAtStart(specs, host, tasks, looks, k, a);
    } else {
      OneNoticePerStretch(specs, host, tasks, looks, k, a, n - 1, to);
      AlwaysEverAlive(specs, host, tasks, looks, n - 1, k);
      TickSees(specs, host, looks[n - 1], tasks, k, After(specs, host, tasks, looks, n - 1), to);
      ReadingTells(looks[n - 1], id);
      CrashGrows(looks, id, a, n);
    }
  }

  lemma CrashGrows(looks: seq<Look>, id: string, a: nat, n: nat)
    requires a < n <= |looks|
    ensures SawCrash(looks, id, a, n) <==> SawCrash(looks, id, a, n - 1) || FoundCrash(looks[n - 1], id)
  {
  }

  /** A tick that finds a session alive says nothing about it. */
  lemma AliveIsSilent(specs: seq<Spec>, host: string, tasks: seq<Task>, looks: seq<Look>, k: nat, n: nat, to: string)
    requires k < |tasks| && First(tasks, k) && n < |looks| && IsUp(looks[n], tasks[k].runtimeId)
    ensures Count(After(specs, host, tasks, looks, n + 1).notices, to, tasks[k].runtimeId)
            == Count(After(specs, host, tasks, looks, n).notices, to, tasks[k].runtimeId)
  {
    ReadingTells(looks[n], tasks[k].runtimeId);
    TickSees(specs, host, looks[n], tasks, k, After(specs, host, tasks, looks, n), to);
  }

  /** Nobody hears of a session that no task declares. */
  lemma {:induction false} UndeclaredIsSilent(specs: seq<Spec>, host: string, tasks: seq<Task>, looks: seq<Look>, n: nat,
                                              to: string, id: string)
    requires n <= |looks| && id !in Ids(tasks)
    ensures Count(After(specs, host, tasks, looks, n).notices, to, id) == 0
  {
    if n > 0 {
      UndeclaredIsSilent(specs, host, tasks, looks, n - 1, to, id);
      OtherTasks(specs, host, looks[n - 1], tasks, After(specs, host, tasks, looks, n - 1), to, id);
    }
  }
}
