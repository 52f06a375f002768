// src/agent_author.rs, `authorize_actor`: who may edit a declaration. An actor may edit itself and
// every agent it supervises, directly or through other supervisors.
module Authority {
  import opened Wrappers

  /** What the walk reads of a declared agent (crates/agent-spec/src/spec.rs). */
  datatype Spec = Spec(identity: string, host: Option<string>, supervisor: Option<string>)

  type Catalog = map<string, Spec>

  function HostOf(spec: Spec, thisHost: string): string {
    spec.host.GetOr(thisHost)
  }

  function BusId(spec: Spec, thisHost: string): string {
    HostOf(spec, thisHost) + "." + spec.identity
  }

  /** Declarations by bus id; a later one replaces an earlier one of the same id. */
  function ByIdentity(specs: seq<Spec>, thisHost: string): Catalog {
    if specs == [] then map[]
    else
      var last := specs[|specs| - 1];
      ByIdentity(specs[..|specs| - 1], thisHost)[BusId(last, thisHost) := last]
  }

  /** The supervisor `agent` declares, as written. */
  function Written(catalog: Catalog, agent: string): Option<string> {
    if agent in catalog then catalog[agent].supervisor else None
  }

  /** The bus id a written supervisor stands for: itself if declared, else on the agent's own host. */
  function Qualify(catalog: Catalog, thisHost: string, spec: Spec, supervisor: string): string {
    var sameHost := HostOf(spec, thisHost) + "." + supervisor;
    if supervisor in catalog then supervisor
    else if sameHost in catalog then sameHost
    else supervisor
  }

  function Climb(catalog: Catalog, thisHost: string, agent: string): Option<string> {
    if Written(catalog, agent).Some? then
      Some(Qualify(catalog, thisHost, catalog[agent], Written(catalog, agent).value))
    else
      None
  }

  /** The agent `n` supervisors above `target`, if the chain reaches that far; it may run in a circle. */
  function Above(catalog: Catalog, thisHost: string, target: string, n: nat): Option<string> {
    if n == 0 then Some(target)
    else
      var below := Above(catalog, thisHost, target, n - 1);
      if below.Some? then Climb(catalog, thisHost, below.value) else None
  }

  /** `actor` is the supervisor of `agent`, as written or as qualified. */
  predicate Supervises(catalog: Catalog, thisHost: string, actor: string, agent: string) {
    Written(catalog, agent) == Some(actor) || Climb(catalog, thisHost, agent) == Some(actor)
  }

  predicate SupervisesAt(catalog: Catalog, thisHost: string, actor: string, target: string, n: nat) {
    var agent := Above(catalog, thisHost, target, n);
    agent.Some? && Supervises(catalog, thisHost, actor, agent.value)
  }

  /** No actor, the target itself, or a supervisor anywhere on the target's unbounded chain. */
  ghost predicate Allowed(specs: seq<Spec>, target: string, thisHost: string, actor: Option<string>) {
    || actor.None?
    || actor.value == target
    || exists n: nat :: SupervisesAt(ByIdentity(specs, thisHost), thisHost, actor.value, target, n)
  }

  /** `passed` is the start of the target's chain, and `actor` supervises nobody on it. */
  ghost predicate Passed(catalog: Catalog, thisHost: string, actor: string, target: string, passed: seq<string>) {
    forall i: nat {:trigger passed[i]} | i < |passed| ::
      Above(catalog, thisHost, target, i) == Some(passed[i]) && !Supervises(catalog, thisHost, actor, passed[i])
  }

  /** The catalog holds, for each bus id declared, the last declaration of it. */
  lemma {:induction false} LastDeclared(specs: seq<Spec>, thisHost: string, id: string)
    ensures id in ByIdentity(specs, thisHost) <==> exists i: nat | i < |specs| :: BusId(specs[i], thisHost) == id
    ensures forall i: nat | i < |specs| && BusId(specs[i], thisHost) == id
                            && (forall j: nat | i < j < |specs| :: BusId(specs[j], thisHost) != id) ::
              ByIdentity(specs, thisHost)[id] == specs[i]
  {
    if specs != [] {
      var init := specs[..|specs| - 1];
      LastDeclared(init, thisHost, id);
      if id in ByIdentity(init, thisHost) {
        var i: nat :| i < |init| && BusId(init[i], thisHost) == id;
        assert BusId(specs[i], thisHost) == id;
      }
    }
  }

  /** Once the chain repeats itself it never leaves what it has passed. */
  lemma {:induction false} ChainRepeats(catalog: Catalog, thisHost: string, target: string, j: nat, k: nat, n: nat)
    returns (i: nat)
    requires j < k <= n && Above(catalog, thisHost, target, k) == Above(catalog, thisHost, target, j)
    ensures i < k && Above(catalog, thisHost, target, n) == Above(catalog, thisHost, target, i)
  {
    if n == k { return j; }
    i := ChainRepeats(catalog, thisHost, target, j, k, n - 1);
    if i + 1 == k { return j; }
    return i + 1;
  }

  lemma {:induction false} ChainEnds(catalog: Catalog, thisHost: string, target: string, k: nat, n: nat)
    requires k <= n && Above(catalog, thisHost, target, k).None?
    ensures Above(catalog, thisHost, target, n).None?
  {
    if k < n { ChainEnds(catalog, thisHost, target, k, n - 1); }
  }

  /** Stopping at the first agent seen before loses no acceptance. */
  lemma RevisitDecides(catalog: Catalog, thisHost: string, actor: string, target: string, passed: seq<string>,
                       current: string)
    requires Passed(catalog, thisHost, actor, target, passed) && current in passed
    requires Above(catalog, thisHost, target, |passed|) == Some(current)
    ensures forall n: nat :: !SupervisesAt(catalog, thisHost, actor, target, n)
  {
    var j: nat :| j < |passed| && passed[j] == current;
    forall n: nat ensures !SupervisesAt(catalog, thisHost, actor, target, n) {
      if n < |passed| {
        assert Above(catalog, thisHost, target, n) == Some(passed[n]);
      } else {
        var i := ChainRepeats(catalog, thisHost, target, j, |passed|, n);
        assert Above(catalog, thisHost, target, n) == Some(passed[i]);
      }
    }
  }

  lemma EndDecides(catalog: Catalog, thisHost: string, actor: string, target: string, passed: seq<string>,
                   current: string)
    requires Passed(catalog, thisHost, actor, target, passed)
    requires Above(catalog, thisHost, target, |passed|) == Some(current) && Written(catalog, current).None?
    ensures forall n: nat :: !SupervisesAt(catalog, thisHost, actor, target, n)
  {
    forall n: nat ensures !SupervisesAt(catalog, thisHost, actor, target, n) {
      if n < |passed| {
        assert Above(catalog, thisHost, target, n) == Some(passed[n]);
      } else if n > |passed| {
        ChainEnds(catalog, thisHost, target, |passed| + 1, n);
      }
    }
  }

  /** The walk ends on every catalog, circles and undeclared names included, with the right answer. */
  method AuthorizeActor(specs: seq<Spec>, target: string, thisHost: string, actor: Option<string>)
    returns (allowed: bool)
    ensures allowed <==> Allowed(specs, target, thisHost, actor)
  {
    if actor.None? || actor.value == target { return true; }
    allowed := WalkUp(ByIdentity(specs, thisHost), target, thisHost, actor.value);
  }

  method WalkUp(catalog: Catalog, target: string, thisHost: string, actor: string) returns (allowed: bool)
    ensures allowed <==> exists n: nat :: SupervisesAt(catalog, thisHost, actor, target, n)
  {
    var current := target;
    var visited := {};
    ghost var passed := [];
    while current !in visited
      invariant Above(catalog, thisHost, target, |passed|) == Some(current)
      invariant Passed(catalog, thisHost, actor, target, passed)
      invariant visited == set agent | agent in passed
      decreases catalog.Keys - visited, current !in visited
    {
      visited := visited + {current};
      var supervisor := Written(catalog, current);
      if supervisor.None? {
        EndDecides(catalog, thisHost, actor, target, passed, current);
        return false;
      }
      var qualified := Qualify(catalog, thisHost, catalog[current], supervisor.value);
      if supervisor.value == actor || qualified == actor {
        assert SupervisesAt(catalog, thisHost, actor, target, |passed|);
        return true;
      }
      current, passed := qualified, passed + [current];
    }
    RevisitDecides(catalog, thisHost, actor, target, passed, current);
    return false;
  }
}
