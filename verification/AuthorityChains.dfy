// Who may edit whom, and who hears of a crash, read off the declarations themselves.
module AuthorityChains {
  import opened Wrappers
  import opened Authority
  import SupervisorChain

  /** An agent's bus id: its host, or this host if it declares none, a dot and its identity. */
  ghost predicate Bears(spec: Spec, thisHost: string, id: string) {
    match spec.host
    case Some(host) => id == host + "." + spec.identity
    case None => id == thisHost + "." + spec.identity
  }

  ghost predicate Declared(specs: seq<Spec>, thisHost: string, id: string) {
    exists i: nat :: i < |specs| && Bears(specs[i], thisHost, id)
  }

  /** Declaration `i` is the last one of this bus id. */
  ghost predicate LastOf(specs: seq<Spec>, thisHost: string, id: string, i: nat) {
    && i < |specs| && Bears(specs[i], thisHost, id)
    && forall j: nat | i < j < |specs| :: !Bears(specs[j], thisHost, id)
  }

  /** The last declaration of `agent` names `name` as its supervisor. */
  ghost predicate Names(specs: seq<Spec>, thisHost: string, agent: string, name: string) {
    exists i: nat :: LastOf(specs, thisHost, agent, i) && specs[i].supervisor == Some(name)
  }

  /** `local` is `name` on the host of `agent`. */
  ghost predicate OnHostOf(specs: seq<Spec>, thisHost: string, agent: string, name: string, local: string) {
    exists i: nat :: LastOf(specs, thisHost, agent, i)
                     && local == (match specs[i].host case Some(host) => host case None => thisHost) + "." + name
  }

  /** `up` is the supervisor of `agent`: the name it declares, or that name on its own host where only that is declared. */
  ghost predicate StepsUp(specs: seq<Spec>, thisHost: string, agent: string, up: string) {
    exists name :: Names(specs, thisHost, agent, name) && Stands(specs, thisHost, agent, name, up)
  }

  ghost predicate Stands(specs: seq<Spec>, thisHost: string, agent: string, name: string, up: string) {
    || (up == name
        && (Declared(specs, thisHost, name)
            || forall local | OnHostOf(specs, thisHost, agent, name, local) :: !Declared(specs, thisHost, local)))
    || (!Declared(specs, thisHost, name) && OnHostOf(specs, thisHost, agent, name, up) && Declared(specs, thisHost, up))
  }

  /** A walk of any length up from `target`. */
  ghost predicate Walk(specs: seq<Spec>, thisHost: string, target: string, path: seq<string>) {
    && path != [] && path[0] == target
    && forall k: nat | k < |path| - 1 :: StepsUp(specs, thisHost, path[k], path[k + 1])
  }

  lemma BearsIsBusId(spec: Spec, thisHost: string, id: string)
    ensures Bears(spec, thisHost, id) <==> BusId(spec, thisHost) == id
  {
  }

  lemma DeclaredIsKnown(specs: seq<Spec>, thisHost: string, id: string)
    ensures Declared(specs, thisHost, id) <==> id in ByIdentity(specs, thisHost)
  {
    LastDeclared(specs, thisHost, id);
    forall spec ensures Bears(spec, thisHost, id) <==> BusId(spec, thisHost) == id { BearsIsBusId(spec, thisHost, id); }
    if Declared(specs, thisHost, id) {
      var i: nat :| i < |specs| && Bears(specs[i], thisHost, id);
      assert BusId(specs[i], thisHost) == id;
    }
  }

  /** The last declaration is the one the catalog keeps. */
  lemma {:induction false} KeptIsLast(specs: seq<Spec>, thisHost: string, id: string) returns (i: nat)
    requires id in ByIdentity(specs, thisHost)
    ensures LastOf(specs, thisHost, id, i) && ByIdentity(specs, thisHost)[id] == specs[i]
    ensures forall j: nat | LastOf(specs, thisHost, id, j) :: j == i
  {
    var last := specs[|specs| - 1];
    if BusId(last, thisHost) == id {
      i := |specs| - 1;
    } else {
      i := KeptIsLast(specs[..|specs| - 1], thisHost, id);
    }
    assert LastOf(specs, thisHost, id, i);
    forall j: nat | LastOf(specs, thisHost, id, j) ensures j == i { assert j < i || j == i || i < j; }
  }

  lemma NamesIsWritten(specs: seq<Spec>, thisHost: string, agent: string, name: string)
    ensures Names(specs, thisHost, agent, name) <==> Written(ByIdentity(specs, thisHost), agent) == Some(name)
  {
    DeclaredIsKnown(specs, thisHost, agent);
    if agent in ByIdentity(specs, thisHost) {
      var i := KeptIsLast(specs, thisHost, agent);
    }
  }

  lemma HostIsHost(specs: seq<Spec>, thisHost: string, agent: string, name: string, local: string)
    requires agent in ByIdentity(specs, thisHost)
    ensures OnHostOf(specs, thisHost, agent, name, local)
            <==> local == HostOf(ByIdentity(specs, thisHost)[agent], thisHost) + "." + name
  {
    var i := KeptIsLast(specs, thisHost, agent);
  }

  lemma StandsIsQualified(specs: seq<Spec>, thisHost: string, agent: string, name: string, up: string)
    requires agent in ByIdentity(specs, thisHost)
    ensures Stands(specs, thisHost, agent, name, up)
            <==> up == Qualify(ByIdentity(specs, thisHost), thisHost, ByIdentity(specs, thisHost)[agent], name)
  {
    var catalog := ByIdentity(specs, thisHost);
    var local := HostOf(catalog[agent], thisHost) + "." + name;
    forall l ensures OnHostOf(specs, thisHost, agent, name, l) <==> l == local { HostIsHost(specs, thisHost, agent, name, l); }
    DeclaredIsKnown(specs, thisHost, name);
    DeclaredIsKnown(specs, thisHost, local);
  }

  lemma StepsUpIsClimb(specs: seq<Spec>, thisHost: string, agent: string, up: string)
    ensures StepsUp(specs, thisHost, agent, up) <==> Climb(ByIdentity(specs, thisHost), thisHost, agent) == Some(up)
  {
    var catalog := ByIdentity(specs, thisHost);
    forall name ensures Names(specs, thisHost, agent, name) <==> Written(catalog, agent) == Some(name) {
      NamesIsWritten(specs, thisHost, agent, name);
    }
    if Written(catalog, agent).Some? { StandsIsQualified(specs, thisHost, agent, Written(catalog, agent).value, up); }
    hide Names, Stands;
  }

  lemma {:induction false} WalkIsAbove(specs: seq<Spec>, thisHost: string, target: string, path: seq<string>)
    requires Walk(specs, thisHost, target, path)
    ensures Above(ByIdentity(specs, thisHost), thisHost, target, |path| - 1) == Some(path[|path| - 1])
  {
    hide StepsUp;
    if |path| > 1 {
      var init := path[..|path| - 1];
      WalkIsAbove(specs, thisHost, target, init);
      assert StepsUp(specs, thisHost, path[|path| - 2], path[|path| - 2 + 1]);
      StepsUpIsClimb(specs, thisHost, path[|path| - 2], path[|path| - 1]);
    }
  }

  lemma {:induction false} AboveIsWalk(specs: seq<Spec>, thisHost: string, target: string, n: nat) returns (path: seq<string>)
    requires Above(ByIdentity(specs, thisHost), thisHost, target, n).Some?
    ensures Walk(specs, thisHost, target, path)
    ensures path[|path| - 1] == Above(ByIdentity(specs, thisHost), thisHost, target, n).value
  {
    hide StepsUp;
    if n == 0 { return [target]; }
    var init := AboveIsWalk(specs, thisHost, target, n - 1);
    var up := Above(ByIdentity(specs, thisHost), thisHost, target, n).value;
    StepsUpIsClimb(specs, thisHost, init[|init| - 1], up);
    path := init + [up];
    forall k: nat | k < |path| - 1 ensures StepsUp(specs, thisHost, path[k], path[k + 1]) {
      assert k < |init| - 1 ==> StepsUp(specs, thisHost, init[k], init[k + 1]);
    }
  }

  /** The last agent of the walk has `actor` for its supervisor, by the name it wrote or by what that stands for. */
  ghost predicate Under(specs: seq<Spec>, thisHost: string, path: seq<string>, actor: string)
    requires path != []
  {
    Names(specs, thisHost, path[|path| - 1], actor) || StepsUp(specs, thisHost, path[|path| - 1], actor)
  }

  lemma UnderIsSupervised(specs: seq<Spec>, thisHost: string, path: seq<string>, actor: string)
    requires path != []
    ensures Under(specs, thisHost, path, actor)
            <==> Supervises(ByIdentity(specs, thisHost), thisHost, actor, path[|path| - 1])
  {
    NamesIsWritten(specs, thisHost, path[|path| - 1], actor);
    StepsUpIsClimb(specs, thisHost, path[|path| - 1], actor);
    hide Names, StepsUp;
  }

  /**
   For every set of declarations, circles and undeclared names included: an edit is allowed exactly
   when no actor is named, the actor is the target, or a walk up the declared supervisors reaches an
   agent the actor supervises.
   */
  lemma AllowedIffWalk(specs: seq<Spec>, target: string, thisHost: string, actor: Option<string>)
    ensures Allowed(specs, target, thisHost, actor)
            <==> || actor.None? || actor.value == target
                 || exists path :: Walk(specs, thisHost, target, path) && Under(specs, thisHost, path, actor.value)
  {
    hide StepsUp, Under, Supervises;
    var catalog := ByIdentity(specs, thisHost);
    if actor.Some? {
      if n: nat :| SupervisesAt(catalog, thisHost, actor.value, target, n) {
        var path := AboveIsWalk(specs, thisHost, target, n);
        UnderIsSupervised(specs, thisHost, path, actor.value);
      }
      if path :| Walk(specs, thisHost, target, path) && Under(specs, thisHost, path, actor.value) {
        WalkIsAbove(specs, thisHost, target, path);
        UnderIsSupervised(specs, thisHost, path, actor.value);
        assert SupervisesAt(catalog, thisHost, actor.value, target, |path| - 1);
      }
    }
  }

  // ----- whom a crash is told to -----

  /** A declaration goes by its identity or its bus id. */
  ghost predicate GoesBy(spec: Spec, thisHost: string, name: string) {
    spec.identity == name || Bears(spec, thisHost, name)
  }

  /** Declaration `i` is the first to go by this name. */
  ghost predicate FirstTo(specs: seq<Spec>, thisHost: string, name: string, i: nat) {
    && i < |specs| && GoesBy(specs[i], thisHost, name)
    && forall j: nat | j < i :: !GoesBy(specs[j], thisHost, name)
  }

  lemma {:induction false} FindIsFirst(specs: seq<Spec>, thisHost: string, name: string) returns (i: nat)
    ensures if SupervisorChain.Find(specs, thisHost, name).Some?
            then FirstTo(specs, thisHost, name, i) && SupervisorChain.Find(specs, thisHost, name).value == specs[i]
            else forall j: nat | j < |specs| :: !GoesBy(specs[j], thisHost, name)
  {
    i := 0;
    if specs != [] {
      BearsIsBusId(specs[0], thisHost, name);
      if !GoesBy(specs[0], thisHost, name) {
        var rest := FindIsFirst(specs[1..], thisHost, name);
        i := rest + 1;
        assert forall j: nat | 0 < j < |specs| :: specs[j] == specs[1..][j - 1];
      }
    }
  }

  /** One agent above another: the first declaration that goes by `name` declares `up`. */
  ghost predicate Reports(specs: seq<Spec>, thisHost: string, name: string, up: string) {
    exists i: nat :: FirstTo(specs, thisHost, name, i) && specs[i].supervisor == Some(up)
  }

  lemma ReportsIsSupervisorOf(specs: seq<Spec>, thisHost: string, name: string, up: string)
    ensures Reports(specs, thisHost, name, up) <==> SupervisorChain.SupervisorOf(specs, thisHost, name) == Some(up)
  {
    var i := FindIsFirst(specs, thisHost, name);
    forall j: nat | FirstTo(specs, thisHost, name, j) && SupervisorChain.Find(specs, thisHost, name).Some? ensures j == i {
      assert j < i || j == i || i < j;
    }
  }

  /** The chain of a crash, read off the declarations: each name reports to the next, and nobody further is left out. */
  lemma ChainReports(specs: seq<Spec>, thisHost: string, agent: string, up: string)
    ensures var chain := SupervisorChain.ChainOf(specs, thisHost, agent);
            && (chain == [] <==> forall other :: !Reports(specs, thisHost, agent, other))
            && (chain != [] ==> Reports(specs, thisHost, agent, chain[0]))
            && (forall k: nat | k < |chain| - 1 :: Reports(specs, thisHost, chain[k], chain[k + 1]))
            && (forall k: nat | k < |chain| && Reports(specs, thisHost, chain[k], up) :: up in chain)
  {
    hide SupervisorChain.SupervisorOf, Reports;
    var chain := SupervisorChain.ChainOf(specs, thisHost, agent);
    forall name, other ensures Reports(specs, thisHost, name, other)
                               <==> SupervisorChain.SupervisorOf(specs, thisHost, name) == Some(other)
    {
      ReportsIsSupervisorOf(specs, thisHost, name, other);
    }
    if chain != [] { assert SupervisorChain.Ancestor(specs, thisHost, agent, 0) == Some(chain[0]); }
    forall k: nat | k < |chain|
      ensures k + 1 < |chain| ==> Reports(specs, thisHost, chain[k], chain[k + 1])
      ensures Reports(specs, thisHost, chain[k], up) ==> up in chain
    {
      SupervisorChain.NextInChain(specs, thisHost, agent, chain, k);
      if Reports(specs, thisHost, chain[k], up) {
        SupervisorChain.EveryAncestorInChain(specs, thisHost, agent, chain, k + 1);
      }
    }
  }
}
