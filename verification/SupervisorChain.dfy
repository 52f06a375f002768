// src/eval_run.rs, `supervisor_chain`: whom a crash is told to, nearest first.
module SupervisorChain {
  import opened Wrappers
  import opened Authority

  /** The first declaration known by this identity or bus id. */
  function Find(specs: seq<Spec>, thisHost: string, name: string): Option<Spec> {
    if specs == [] then None
    else if specs[0].identity == name || BusId(specs[0], thisHost) == name then Some(specs[0])
    else Find(specs[1..], thisHost, name)
  }

  function SupervisorOf(specs: seq<Spec>, thisHost: string, name: string): Option<string> {
    var found := Find(specs, thisHost, name);
    if found.Some? then found.value.supervisor else None
  }

  /** The supervisor `n` levels above the agent's own. The walk up is unbounded: it may run in a circle. */
  function Ancestor(specs: seq<Spec>, thisHost: string, agent: string, n: nat): Option<string> {
    if n == 0 then SupervisorOf(specs, thisHost, agent)
    else
      var below := Ancestor(specs, thisHost, agent, n - 1);
      if below.Some? then SupervisorOf(specs, thisHost, below.value) else None
  }

  ghost predicate Distinct(names: seq<string>) {
    forall i, j :: 0 <= i < j < |names| ==> names[i] != names[j]
  }

  /** `chain` is the walk up to where it ends or first repeats. */
  ghost predicate IsChain(specs: seq<Spec>, thisHost: string, agent: string, chain: seq<string>) {
    && Distinct(chain)
    && (forall i: nat {:trigger chain[i]} | i < |chain| :: Ancestor(specs, thisHost, agent, i) == Some(chain[i]))
    && (Ancestor(specs, thisHost, agent, |chain|).Some? ==> Ancestor(specs, thisHost, agent, |chain|).value in chain)
  }

  function Supervisors(specs: seq<Spec>): set<string> {
    set spec | spec in specs && spec.supervisor.Some? :: spec.supervisor.value
  }

  lemma {:induction false} FindMember(specs: seq<Spec>, thisHost: string, name: string)
    ensures Find(specs, thisHost, name).Some? ==> Find(specs, thisHost, name).value in specs
  {
    if specs != [] { FindMember(specs[1..], thisHost, name); }
  }

  lemma SupervisorListed(specs: seq<Spec>, thisHost: string, name: string)
    requires SupervisorOf(specs, thisHost, name).Some?
    ensures SupervisorOf(specs, thisHost, name).value in Supervisors(specs)
  {
    FindMember(specs, thisHost, name);
  }

  lemma AncestorListed(specs: seq<Spec>, thisHost: string, agent: string, n: nat)
    requires Ancestor(specs, thisHost, agent, n).Some?
    ensures Ancestor(specs, thisHost, agent, n).value in Supervisors(specs)
  {
    if n == 0 {
      SupervisorListed(specs, thisHost, agent);
    } else {
      SupervisorListed(specs, thisHost, Ancestor(specs, thisHost, agent, n - 1).value);
    }
  }

  /** `chain` is the start of the walk up. */
  ghost predicate Climbs(specs: seq<Spec>, thisHost: string, agent: string, chain: seq<string>) {
    && Distinct(chain)
    && (forall i: nat {:trigger chain[i]} | i < |chain| :: Ancestor(specs, thisHost, agent, i) == Some(chain[i]))
  }

  function Names(chain: seq<string>): set<string> {
    set name | name in chain
  }

  function ChainFrom(specs: seq<Spec>, thisHost: string, agent: string, chain: seq<string>): (r: seq<string>)
    requires Climbs(specs, thisHost, agent, chain)
    ensures IsChain(specs, thisHost, agent, r)
    decreases Supervisors(specs) - Names(chain)
  {
    var next := Ancestor(specs, thisHost, agent, |chain|);
    if next.None? || next.value in chain then chain
    else
      AncestorListed(specs, thisHost, agent, |chain|);
      assert next.value in Names(chain + [next.value]);
      ChainFrom(specs, thisHost, agent, chain + [next.value])
  }

  /** The duplicate-free chain of supervisors of `agent`; it exists in every catalog. */
  function ChainOf(specs: seq<Spec>, thisHost: string, agent: string): (r: seq<string>)
    ensures IsChain(specs, thisHost, agent, r)
  {
    ChainFrom(specs, thisHost, agent, [])
  }

  /** There is one such chain. */
  lemma ChainUnique(specs: seq<Spec>, thisHost: string, agent: string, a: seq<string>, b: seq<string>)
    requires IsChain(specs, thisHost, agent, a) && IsChain(specs, thisHost, agent, b) && |a| <= |b|
    ensures a == b
  {
    forall i: nat | i < |a| ensures a[i] == b[i] {
      assert Ancestor(specs, thisHost, agent, i) == Some(a[i]);
    }
    assert |a| < |b| ==> Ancestor(specs, thisHost, agent, |a|) == Some(b[|a|]);
  }

  /** As the source walks it. */
  method ComputeChain(agent: string, specs: seq<Spec>, thisHost: string) returns (chain: seq<string>)
    ensures chain == ChainOf(specs, thisHost, agent)
  {
    chain := [];
    var seen := {};
    var current := SupervisorOf(specs, thisHost, agent);
    while current.Some?
      invariant current == Ancestor(specs, thisHost, agent, |chain|)
      invariant Climbs(specs, thisHost, agent, chain)
      invariant seen == Names(chain)
      decreases Supervisors(specs) - seen
    {
      var name := current.value;
      if name in seen { break; }
      AncestorListed(specs, thisHost, agent, |chain|);
      seen := seen + {name};
      chain := chain + [name];
      current := SupervisorOf(specs, thisHost, name);
    }
    ghost var whole := ChainOf(specs, thisHost, agent);
    if |chain| <= |whole| {
      ChainUnique(specs, thisHost, agent, chain, whole);
    } else {
      ChainUnique(specs, thisHost, agent, whole, chain);
    }
  }

  /** Nobody on the unbounded walk up is missing from it. */
  lemma {:induction false} EveryAncestorInChain(specs: seq<Spec>, thisHost: string, agent: string, chain: seq<string>,
                                                n: nat)
    requires IsChain(specs, thisHost, agent, chain) && Ancestor(specs, thisHost, agent, n).Some?
    ensures Ancestor(specs, thisHost, agent, n).value in chain
  {
    if n < |chain| {
      assert Ancestor(specs, thisHost, agent, n) == Some(chain[n]);
    } else if n > |chain| {
      EveryAncestorInChain(specs, thisHost, agent, chain, n - 1);
      var below := Ancestor(specs, thisHost, agent, n - 1).value;
      var i: nat :| i < |chain| && chain[i] == below;
      assert Ancestor(specs, thisHost, agent, i + 1) == Ancestor(specs, thisHost, agent, n);
      EveryAncestorInChain(specs, thisHost, agent, chain, i + 1);
    }
  }

  lemma NextInChain(specs: seq<Spec>, thisHost: string, agent: string, chain: seq<string>, k: nat)
    requires IsChain(specs, thisHost, agent, chain) && k < |chain|
    ensures Ancestor(specs, thisHost, agent, k + 1) == SupervisorOf(specs, thisHost, chain[k])
    ensures k + 1 < |chain| ==> Ancestor(specs, thisHost, agent, k + 1) == Some(chain[k + 1])
  {
    assert Ancestor(specs, thisHost, agent, k) == Some(chain[k]);
    assert k + 1 == |chain| || Ancestor(specs, thisHost, agent, k + 1) == Some(chain[k + 1]);
  }

  /**
   Names are distinct, but one agent can be named twice, by identity and by bus id. It happens only
   when the supervisors run in a circle, and only to the last name of the chain.
   */
  lemma OneAgentTwice(specs: seq<Spec>, thisHost: string, agent: string, chain: seq<string>, i: nat, j: nat)
    requires IsChain(specs, thisHost, agent, chain) && i < j < |chain|
    requires Find(specs, thisHost, chain[i]) == Find(specs, thisHost, chain[j])
    ensures j == |chain| - 1 && Ancestor(specs, thisHost, agent, |chain|) == Some(chain[i + 1])
  {
    NextInChain(specs, thisHost, agent, chain, i);
    NextInChain(specs, thisHost, agent, chain, j);
  }

  /** Two names of the chain stand for one agent. */
  ghost predicate NamesTwice(specs: seq<Spec>, thisHost: string, chain: seq<string>) {
    exists i: nat, j: nat :: i < j < |chain| && Find(specs, thisHost, chain[i]) == Find(specs, thisHost, chain[j])
  }

  /** The walk comes back to a later name of the chain, and the name before that one stands for the chain's last agent. */
  ghost predicate ClosesBehind(specs: seq<Spec>, thisHost: string, agent: string, chain: seq<string>) {
    exists m: nat :: 0 < m < |chain| && Ancestor(specs, thisHost, agent, |chain|) == Some(chain[m])
                     && Find(specs, thisHost, chain[m - 1]) == Find(specs, thisHost, chain[|chain| - 1])
  }

  /** So one agent is told twice exactly when the circle closes just behind it under another name. */
  lemma NamesTwiceIff(specs: seq<Spec>, thisHost: string, agent: string, chain: seq<string>)
    requires IsChain(specs, thisHost, agent, chain)
    ensures NamesTwice(specs, thisHost, chain) <==> ClosesBehind(specs, thisHost, agent, chain)
  {
    if i: nat, j: nat :| i < j < |chain| && Find(specs, thisHost, chain[i]) == Find(specs, thisHost, chain[j]) {
      OneAgentTwice(specs, thisHost, agent, chain, i, j);
      assert chain[i + 1 - 1] == chain[i];
    }
    if m: nat :| 0 < m < |chain| && Ancestor(specs, thisHost, agent, |chain|) == Some(chain[m])
                 && Find(specs, thisHost, chain[m - 1]) == Find(specs, thisHost, chain[|chain| - 1]) {
      assert m - 1 < |chain| - 1;
    }
  }

  /** Every declared supervisor is written one way in all declarations. */
  ghost predicate OneSpelling(specs: seq<Spec>, thisHost: string) {
    forall x, y | x in Supervisors(specs) && y in Supervisors(specs) ::
      Find(specs, thisHost, x).Some? && Find(specs, thisHost, x) == Find(specs, thisHost, y) ==> x == y
  }

  /** Then nobody is told twice, whatever circles the supervisors run in. */
  lemma OneSpellingTellsOnce(specs: seq<Spec>, thisHost: string, agent: string, chain: seq<string>)
    requires OneSpelling(specs, thisHost) && IsChain(specs, thisHost, agent, chain)
    ensures !NamesTwice(specs, thisHost, chain)
  {
    forall i: nat, j: nat | i < j < |chain| ensures Find(specs, thisHost, chain[i]) != Find(specs, thisHost, chain[j]) {
      NextInChain(specs, thisHost, agent, chain, i);
      assert Ancestor(specs, thisHost, agent, i) == Some(chain[i]) && Ancestor(specs, thisHost, agent, j) == Some(chain[j]);
      AncestorListed(specs, thisHost, agent, i);
      AncestorListed(specs, thisHost, agent, j);
    }
  }

  /** Two agents supervising each other, one by identity and one by bus id: the first is named twice. */
  lemma TwiceByTwoNames()
    ensures var specs := [Spec("a", None, Some("b")), Spec("b", None, Some("h.a")), Spec("w", None, Some("a"))];
            && IsChain(specs, "h", "w", ["a", "b", "h.a"])
            && Find(specs, "h", "a") == Find(specs, "h", "h.a")
  {
    var specs := [Spec("a", None, Some("b")), Spec("b", None, Some("h.a")), Spec("w", None, Some("a"))];
    assert specs[1..][1..] == [Spec("w", None, Some("a"))];
    assert "h.a" == "h" + "." + "a";
    assert Find(specs, "h", "w") == Some(specs[2]);
    assert Find(specs, "h", "a") == Some(specs[0]);
    assert Find(specs, "h", "b") == Some(specs[1]);
    assert Find(specs, "h", "h.a") == Some(specs[0]);
    assert Ancestor(specs, "h", "w", 0) == Some("a");
    assert Ancestor(specs, "h", "w", 1) == Some("b");
    assert Ancestor(specs, "h", "w", 2) == Some("h.a");
    assert Ancestor(specs, "h", "w", 3) == Some("b");
    assert ["a", "b", "h.a"][1] == "b";
  }
}
