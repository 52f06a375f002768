// src/eval_run.rs, `add_eval_exit_markers`: the first terminal task of every agent is rewritten, in
// place, to leave its exit code behind.
module ExitMarkers {
  import opened Wrappers
  import opened Shell

  datatype Kind = Pty | Exec

  datatype Task = Task(kind: Kind, id: Option<string>, name: string, command: Option<string>)

  datatype Agent = Agent(busId: string, tasks: seq<Task>)

  function RuntimeId(agent: Agent, task: Task): string {
    task.id.GetOr(agent.busId + "." + task.name)
  }

  /** A path joined to a directory; an absolute one replaces it. */
  function JoinPath(directory: string, path: string): string {
    if path != [] && path[0] == '/' then path
    else if directory != [] && directory[|directory| - 1] == '/' then directory + path
    else directory + "/" + path
  }

  function MarkerPath(directory: string, runtimeId: string): string {
    JoinPath(directory, runtimeId + ".status")
  }

  /** The index of the first terminal task, or past the end. */
  function FirstPty(tasks: seq<Task>): (i: nat)
    ensures i <= |tasks| && (i < |tasks| ==> tasks[i].kind == Pty)
    ensures forall j :: 0 <= j < i ==> tasks[j].kind != Pty
  {
    if tasks == [] || tasks[0].kind == Pty then 0 else 1 + FirstPty(tasks[1..])
  }

  function Marked(agent: Agent, directory: string): Agent {
    var i := FirstPty(agent.tasks);
    if i < |agent.tasks| && agent.tasks[i].command.Some? then
      var task := agent.tasks[i];
      var line := Wrapper(MarkerPath(directory, RuntimeId(agent, task)), task.command.value);
      agent.(tasks := agent.tasks[i := task.(command := Some(line))])
    else agent
  }

  /**
   The rewritten task runs, as one word, the command it had; its marker is named after it; and
   nothing else about the agent changes.
   */
  lemma MarkedRunsCommand(agent: Agent, directory: string, j: nat)
    requires j < |agent.tasks|
    ensures var was, now := agent.tasks[j], Marked(agent, directory).tasks;
            && |now| == |agent.tasks| && Marked(agent, directory).busId == agent.busId
            && now[j].kind == was.kind && now[j].id == was.id && now[j].name == was.name
            && (if j == FirstPty(agent.tasks) && was.command.Some? then
                  now[j].command.Some?
                  && Tokenize(now[j].command.value)
                     == Some(["sh", "-c", SCRIPT, "st2-exit-marker", MarkerPath(directory, match was.id
                                                    case Some(id) => id
                                                    case None => agent.busId + "." + was.name),
                              was.command.value])
                else now[j].command == was.command)
  {
    var i := FirstPty(agent.tasks);
    if i < |agent.tasks| && agent.tasks[i].command.Some? {
      WrapperReadsBack(MarkerPath(directory, RuntimeId(agent, agent.tasks[i])), agent.tasks[i].command.value);
    }
  }

  /** A marker is a task's id with ".status", in the marker directory; only an absolute id is not put there. */
  lemma MarkerIsNamed(directory: string, id: string)
    requires directory != ""
    ensures MarkerPath(directory, id)
            == (if id != "" && id[0] == '/' then ""
                else if directory[|directory| - 1] == '/' then directory else directory + "/") + id + ".status"
  {
    assert (id + ".status")[0] == if id != "" then id[0] else '.';
  }

  /** So two tasks of one directory share a marker only if they share an id. */
  lemma MarkersDiffer(directory: string, a: string, b: string)
    requires directory != "" && directory[|directory| - 1] != '/' && a != b
    requires (a == "" || a[0] != '/') && (b == "" || b[0] != '/')
    ensures MarkerPath(directory, a) != MarkerPath(directory, b)
  {
    MarkerIsNamed(directory, a);
    MarkerIsNamed(directory, b);
    var before, p, q := directory + "/", MarkerPath(directory, a), MarkerPath(directory, b);
    assert p[|before|..|p| - 7] == a && q[|before|..|q| - 7] == b;
  }

  method AddExitMarkers(agents: array<Agent>, directory: string)
    modifies agents
    ensures forall k :: 0 <= k < agents.Length ==> agents[k] == Marked(old(agents[k]), directory)
  {
    for k := 0 to agents.Length
      invariant forall m :: 0 <= m < k ==> agents[m] == Marked(old(agents[m]), directory)
      invariant forall m :: k <= m < agents.Length ==> agents[m] == old(agents[m])
    {
      var agent := agents[k];
      var i := FirstPty(agent.tasks);
      if i < |agent.tasks| {
        var task := agent.tasks[i];
        if task.command.Some? {
          var line := Wrapper(MarkerPath(directory, RuntimeId(agent, task)), task.command.value);
          agents[k] := agent.(tasks := agent.tasks[i := task.(command := Some(line))]);
        }
      }
    }
  }
}
