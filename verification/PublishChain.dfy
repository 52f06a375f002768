// What any sequence of publications keeps: receipts chain, refusals change nothing, and a replay
// never publishes twice.
module PublishChain {
  import opened Wrappers
  import opened BundleCode
  import opened Bundle
  import opened BundleTree
  import opened BundleProjection
  import opened Publish

  lemma {:induction false} PutFinds(entries: seq<Entry>, name: Bytes, node: Node, other: Bytes)
    ensures Find(PutFile(entries, name, node), other) == if other == name then Some(node) else Find(entries, other)
  {
    if entries != [] {
      if entries[0].name == name {
        assert ([Entry(name, node)] + entries[1..])[1..] == entries[1..];
      } else {
        PutFinds(entries[1..], name, node, other);
        assert ([entries[0]] + PutFile(entries[1..], name, node))[1..] == PutFile(entries[1..], name, node);
      }
    } else {
      assert [Entry(name, node)][1..] == [];
    }
  }

  /** What stands at a target, hashed as receipts hash it. */
  function Hash(env: Env, catalog: Catalog, target: Target): Option<string> {
    var read := ReadSpec(catalog, target);
    if read.Success? then HashOf(env, read.value) else None
  }

  lemma StagedSpec(env: Env, source: Source, candidate: Candidate)
    requires Stage(env, source) == Success(candidate)
    ensures candidate.source == source && env.parse(candidate.bytes) == Some(candidate.target)
    ensures source.BundleSource? ==>
              && source.tree.Dir? && Hashable(source.tree)
              && Find(source.tree.entries, SPEC_NAME).Some? && Find(source.tree.entries, SPEC_NAME).value.File?
              && Find(source.tree.entries, SPEC_NAME).value.bytes == candidate.bytes
    ensures source.SpecSource? ==> source.bytes == candidate.bytes
  {
  }

  /** A write leaves the candidate's bytes at its target and everything else as it was. */
  lemma WriteIsRead(env: Env, catalog: Catalog, source: Source, candidate: Candidate)
    requires Stage(env, source) == Success(candidate)
    ensures ReadSpec(Write(env, catalog, candidate), candidate.target) == Success(Some(candidate.bytes))
    ensures forall other | other != candidate.target ::
              (other in Write(env, catalog, candidate) <==> other in catalog)
              && (other in catalog ==> Write(env, catalog, candidate)[other] == catalog[other])
  {
    StagedSpec(env, source, candidate);
    if source.SpecSource? {
      var entries := if candidate.target in catalog && catalog[candidate.target].Dir?
                     then catalog[candidate.target].entries else [];
      PutFinds(entries, SPEC_NAME, File(candidate.bytes, env.mode), SPEC_NAME);
    }
  }

  /** What every check passed means. */
  lemma PlanFacts(env: Env, catalog: Catalog, request: Request, plan: Plan)
    requires Check(env, catalog, request) == Success(plan)
    ensures Stage(env, request.source) == Success(plan.candidate)
    ensures plan.candidate.inputSha256 == request.inputSha256
    ensures ReadSpec(catalog, plan.candidate.target) == Success(plan.before)
    ensures CheckMarker(env, plan.candidate, plan.before, request.managedBy) == Success(plan.marker)
    ensures CheckExpectation(env, plan.candidate, plan.before, request.expectation).Success?
    ensures CheckBundle(catalog, plan.candidate, plan.before, request.expectation).Success?
  {
    hide Stage, ReadSpec, CheckMarker, CheckExpectation, CheckBundle, IsSha256, ValidAssertion;
  }

  /** A refusal changes nothing, except one given after the write, when the live catalog is not admitted again. */
  lemma RefusalChangesNothing(env: Env, catalog: Catalog, request: Request)
    requires PublishTo(env, catalog, request).0.Failure?
    requires PublishTo(env, catalog, request).0.error != ReadBackRefused(true)
    ensures PublishTo(env, catalog, request).1 == catalog
  {
    hide Check, Write;
    var checked := Check(env, catalog, request);
    if checked.Success? { assert PublishTo(env, catalog, request) == Finish(env, catalog, checked.value); }
  }

  /** A receipt tells the hash that stood before and the one that stands now; other agents are untouched. */
  lemma ReceiptTells(env: Env, catalog: Catalog, request: Request, receipt: Receipt, after: Catalog)
    requires PublishTo(env, catalog, request) == (Success(receipt), after)
    ensures receipt.before == Hash(env, catalog, receipt.target)
    ensures Hash(env, after, receipt.target) == Some(receipt.after)
    ensures receipt.status == Unchanged ==> after == catalog && receipt.before == Some(receipt.after)
    ensures forall other | other != receipt.target :: Hash(env, after, other) == Hash(env, catalog, other)
  {
    var plan := Check(env, catalog, request).value;
    PlanFacts(env, catalog, request, plan);
    WriteIsRead(env, catalog, request.source, plan.candidate);
  }

  /** Published means the caller's expectation held when it was written, and the bytes changed. */
  lemma PublishedAsExpected(env: Env, catalog: Catalog, request: Request, receipt: Receipt, after: Catalog)
    requires PublishTo(env, catalog, request) == (Success(receipt), after) && receipt.status == Published
    ensures request.expectation.Absent? ==> receipt.before == None
    ensures request.expectation.Sha256? ==> receipt.before == Some(request.expectation.hash)
    ensures ReadSpec(after, receipt.target) != ReadSpec(catalog, receipt.target)
    ensures request.source.BundleSource? ==>
              receipt.target !in catalog && receipt.target in after && after[receipt.target] == request.source.tree
  {
    var plan := Check(env, catalog, request).value;
    PlanFacts(env, catalog, request, plan);
    StagedSpec(env, request.source, plan.candidate);
    WriteIsRead(env, catalog, request.source, plan.candidate);
  }

  /** Bytes marked as Nix's are replaced only by a caller that asserts exactly the markers they carry. */
  lemma MarkersGuard(env: Env, catalog: Catalog, request: Request, receipt: Receipt, after: Catalog, incumbent: Bytes)
    requires PublishTo(env, catalog, request) == (Success(receipt), after) && receipt.status == Published
    requires ReadSpec(catalog, receipt.target) == Success(Some(incumbent))
    ensures if request.managedBy.Some? then env.markers(incumbent) == [request.managedBy.value]
            else "nix" !in env.markers(incumbent)
    ensures receipt.managedBy == request.managedBy
  {
    var plan := Check(env, catalog, request).value;
    PlanFacts(env, catalog, request, plan);
  }

  // ----- whole sequences -----

  /** The catalog after the first `n` requests. */
  function After(env: Env, start: Catalog, requests: seq<Request>, n: nat): Catalog
    requires n <= |requests|
  {
    if n == 0 then start else PublishTo(env, After(env, start, requests, n - 1), requests[n - 1]).1
  }

  function Outcome(env: Env, start: Catalog, requests: seq<Request>, i: nat): Result<Receipt, Refusal>
    requires i < |requests|
  {
    PublishTo(env, After(env, start, requests, i), requests[i]).0
  }

  /** Request `i` gave a receipt of this status for this agent. */
  predicate Gave(env: Env, start: Catalog, requests: seq<Request>, i: nat, target: Target, status: Status)
    requires i < |requests|
  {
    var outcome := Outcome(env, start, requests, i);
    outcome.Success? && outcome.value.target == target && outcome.value.status == status
  }

  /** No refusal came after a write. */
  ghost predicate NoFailureAfterWrite(env: Env, start: Catalog, requests: seq<Request>) {
    forall i: nat | i < |requests| :: Outcome(env, start, requests, i) != Failure(ReadBackRefused(true))
  }

  lemma StepKeepsHash(env: Env, start: Catalog, requests: seq<Request>, i: nat, target: Target)
    requires i < |requests| && NoFailureAfterWrite(env, start, requests)
    requires !Gave(env, start, requests, i, target, Published)
    ensures Hash(env, After(env, start, requests, i + 1), target) == Hash(env, After(env, start, requests, i), target)
  {
    hide PublishTo, ReadSpec;
    var catalog := After(env, start, requests, i);
    var outcome := Outcome(env, start, requests, i);
    if outcome.Failure? {
      RefusalChangesNothing(env, catalog, requests[i]);
    } else {
      ReceiptTells(env, catalog, requests[i], outcome.value, After(env, start, requests, i + 1));
    }
  }

  lemma {:induction false} QuietKeepsHash(env: Env, start: Catalog, requests: seq<Request>, i: nat, j: nat, target: Target)
    requires i <= j <= |requests| && NoFailureAfterWrite(env, start, requests)
    requires forall k: nat | i <= k < j :: !Gave(env, start, requests, k, target, Published)
    ensures Hash(env, After(env, start, requests, j), target) == Hash(env, After(env, start, requests, i), target)
    decreases j
  {
    hide After, Outcome, Hash;
    if i < j {
      QuietKeepsHash(env, start, requests, i, j - 1, target);
      StepKeepsHash(env, start, requests, j - 1, target);
    }
  }

  /**
   For every sequence of requests: two receipts for one agent with no publication of it between
   them chain, the later one's before-hash being the earlier one's after-hash; and the first
   receipt's before-hash is what stood at the start.
   */
  lemma ReceiptsChain(env: Env, start: Catalog, requests: seq<Request>, i: nat, j: nat, first: Receipt, second: Receipt)
    requires i < j < |requests| && NoFailureAfterWrite(env, start, requests)
    requires Outcome(env, start, requests, i) == Success(first) && Outcome(env, start, requests, j) == Success(second)
    requires first.target == second.target
    requires forall k: nat | i < k < j :: !Gave(env, start, requests, k, first.target, Published)
    ensures second.before == Some(first.after)
  {
    hide PublishTo, ReadSpec;
    ReceiptTells(env, After(env, start, requests, i), requests[i], first, After(env, start, requests, i + 1));
    QuietKeepsHash(env, start, requests, i + 1, j, first.target);
    ReceiptTells(env, After(env, start, requests, j), requests[j], second, After(env, start, requests, j + 1));
  }

  lemma FirstReceipt(env: Env, start: Catalog, requests: seq<Request>, j: nat, receipt: Receipt)
    requires j < |requests| && NoFailureAfterWrite(env, start, requests)
    requires Outcome(env, start, requests, j) == Success(receipt)
    requires forall k: nat | k < j :: !Gave(env, start, requests, k, receipt.target, Published)
    ensures receipt.before == Hash(env, start, receipt.target)
  {
    hide PublishTo, ReadSpec;
    QuietKeepsHash(env, start, requests, 0, j, receipt.target);
    ReceiptTells(env, After(env, start, requests, j), requests[j], receipt, After(env, start, requests, j + 1));
  }

  // ----- replays -----

  /** A tree without special entries shows all of itself. */
  lemma {:induction false} ShowsItself(tree: Node)
    requires OnDisk(tree) && Hashable(tree)
    ensures Matches(tree, tree)
    decreases tree
  {
    if tree.Dir? {
      forall i | 0 <= i < |tree.entries| ensures EntryMatches(tree.entries[i], tree) {
        var e := tree.entries[i];
        assert EntryHashable(e);
        FindIs(tree.entries, e.name, e.node);
        ShowsItself(e.node);
      }
    }
  }

  ghost predicate SameAgent(a: Catalog, b: Catalog, target: Target) {
    (target in a <==> target in b) && (target in a ==> a[target] == b[target])
  }

  lemma StepKeepsAgent(env: Env, start: Catalog, requests: seq<Request>, i: nat, target: Target)
    requires i < |requests| && NoFailureAfterWrite(env, start, requests)
    requires !Gave(env, start, requests, i, target, Published)
    ensures SameAgent(After(env, start, requests, i), After(env, start, requests, i + 1), target)
  {
    var catalog := After(env, start, requests, i);
    var outcome := Outcome(env, start, requests, i);
    if outcome.Failure? {
      RefusalChangesNothing(env, catalog, requests[i]);
    } else {
      OthersStay(env, catalog, requests[i], outcome.value, target);
    }
  }

  lemma OthersStay(env: Env, catalog: Catalog, request: Request, receipt: Receipt, target: Target)
    requires PublishTo(env, catalog, request).0 == Success(receipt)
    requires receipt.target != target || receipt.status == Unchanged
    ensures SameAgent(catalog, PublishTo(env, catalog, request).1, target)
  {
    var plan := Check(env, catalog, request).value;
    PlanFacts(env, catalog, request, plan);
    WriteIsRead(env, catalog, request.source, plan.candidate);
  }

  lemma {:induction false} QuietKeepsAgent(env: Env, start: Catalog, requests: seq<Request>, i: nat, j: nat, target: Target)
    requires i <= j <= |requests| && NoFailureAfterWrite(env, start, requests)
    requires forall k: nat | i <= k < j :: !Gave(env, start, requests, k, target, Published)
    ensures SameAgent(After(env, start, requests, i), After(env, start, requests, j), target)
    decreases j
  {
    hide After, Outcome;
    if i < j {
      QuietKeepsAgent(env, start, requests, i, j - 1, target);
      StepKeepsAgent(env, start, requests, j - 1, target);
    }
  }

  /** A receipt is given only for a catalog that was admitted again. */
  lemma ReceiptReadmits(env: Env, catalog: Catalog, request: Request)
    requires PublishTo(env, catalog, request).0.Success?
    ensures env.readmits(PublishTo(env, catalog, request).1)
  {
    hide Check, Write;
  }

  lemma {:induction false} StaysReadmitted(env: Env, start: Catalog, requests: seq<Request>, i: nat, j: nat)
    requires i < j <= |requests| && NoFailureAfterWrite(env, start, requests)
    requires Outcome(env, start, requests, i).Success?
    ensures env.readmits(After(env, start, requests, j))
    decreases j
  {
    hide PublishTo;
    var catalog := After(env, start, requests, j - 1);
    if Outcome(env, start, requests, j - 1).Success? {
      ReceiptReadmits(env, catalog, requests[j - 1]);
    } else {
      StaysReadmitted(env, start, requests, i, j - 1);
      RefusalChangesNothing(env, catalog, requests[j - 1]);
    }
  }

  /** What stands after a receipt: the candidate's bytes, and for a bundle all of it. */
  lemma ReceiptLeaves(env: Env, catalog: Catalog, request: Request, receipt: Receipt, plan: Plan)
    requires PublishTo(env, catalog, request).0 == Success(receipt) && Check(env, catalog, request) == Success(plan)
    requires request.source.BundleSource? ==> OnDisk(request.source.tree)
    ensures var now := PublishTo(env, catalog, request).1;
            && receipt.target == plan.candidate.target && receipt.after == env.sha256(plan.candidate.bytes)
            && ReadSpec(now, receipt.target) == Success(Some(plan.candidate.bytes)) && Complete(now, plan.candidate)
  {
    PlanFacts(env, catalog, request, plan);
    StagedSpec(env, request.source, plan.candidate);
    WriteIsRead(env, catalog, request.source, plan.candidate);
    if request.source.BundleSource? { ShowsItself(request.source.tree); }
  }

  lemma SameAgentReadsSame(a: Catalog, b: Catalog, candidate: Candidate)
    requires SameAgent(a, b, candidate.target)
    ensures ReadSpec(a, candidate.target) == ReadSpec(b, candidate.target) && (Complete(a, candidate) <==> Complete(b, candidate))
  {
  }

  /** What a replay finds: the candidate's own bytes, so ownership is not asked again. */
  lemma ReplayChecks(env: Env, catalog: Catalog, request: Request, plan: Plan, now: Catalog)
    requires Check(env, catalog, request) == Success(plan)
    requires ReadSpec(now, plan.candidate.target) == Success(Some(plan.candidate.bytes))
    ensures Check(env, now, request)
            == match CheckExpectation(env, plan.candidate, Some(plan.candidate.bytes), request.expectation) {
                 case Failure(refusal) => Failure(refusal)
                 case Success(_) =>
                   if env.admits(now, plan.candidate) then Success(Plan(plan.candidate, Some(plan.candidate.bytes), None))
                   else Failure(NotAdmitted)
               }
  {
    PlanFacts(env, catalog, request, plan);
    hide Stage, ReadSpec, CheckExpectation, IsSha256, ValidAssertion;
  }

  /** The answer to a replay that passes its expectation. */
  function ReplayAnswer(env: Env, now: Catalog, candidate: Candidate): Result<Receipt, Refusal> {
    if env.admits(now, candidate) then
      var hash := env.sha256(candidate.bytes);
      Success(Receipt(Unchanged, candidate.target, candidate.inputSha256, Some(hash), hash, None))
    else Failure(NotAdmitted)
  }

  lemma ReplayAnswers(env: Env, catalog: Catalog, request: Request, plan: Plan, now: Catalog)
    requires Check(env, catalog, request) == Success(plan)
    requires ReadSpec(now, plan.candidate.target) == Success(Some(plan.candidate.bytes))
    requires Complete(now, plan.candidate) && env.readmits(now)
    ensures PublishTo(env, now, request)
            == match CheckExpectation(env, plan.candidate, Some(plan.candidate.bytes), request.expectation) {
                 case Failure(refusal) => (Failure(refusal), now)
                 case Success(_) => (ReplayAnswer(env, now, plan.candidate), now)
               }
  {
    ReplayChecks(env, catalog, request, plan, now);
    hide Check, CheckExpectation, Complete, ReadSpec;
  }

  /** Request `j` repeats request `i`, which gave a receipt, and no publication of that agent came between. */
  ghost predicate Repeats(env: Env, start: Catalog, requests: seq<Request>, i: nat, j: nat) {
    && i < j < |requests| && requests[j] == requests[i] && NoFailureAfterWrite(env, start, requests)
    && Outcome(env, start, requests, i).Success?
    && (requests[i].source.BundleSource? ==> OnDisk(requests[i].source.tree))
    && forall k: nat | i < k < j ::
         !Gave(env, start, requests, k, Outcome(env, start, requests, i).value.target, Published)
  }

  /** However many other agents were published meanwhile. */
  lemma RepeatFinds(env: Env, start: Catalog, requests: seq<Request>, i: nat, j: nat) returns (plan: Plan)
    requires Repeats(env, start, requests, i, j)
    ensures var catalog, now := After(env, start, requests, i), After(env, start, requests, j);
            && Check(env, catalog, requests[i]) == Success(plan)
            && ReadSpec(now, plan.candidate.target) == Success(Some(plan.candidate.bytes))
            && Complete(now, plan.candidate) && env.readmits(now)
            && Outcome(env, start, requests, i).value.target == plan.candidate.target
            && Outcome(env, start, requests, i).value.after == env.sha256(plan.candidate.bytes)
  {
    var catalog, receipt := After(env, start, requests, i), Outcome(env, start, requests, i).value;
    plan := Check(env, catalog, requests[i]).value;
    hide Check, Complete, ReadSpec, SameAgent, Finish;
    ReceiptLeaves(env, catalog, requests[i], receipt, plan);
    QuietKeepsAgent(env, start, requests, i + 1, j, receipt.target);
    SameAgentReadsSame(After(env, start, requests, i + 1), After(env, start, requests, j), plan.candidate);
    StaysReadmitted(env, start, requests, i, j);
  }

  /** Replaying a create-only request is answered Unchanged, for specs and bundles, if the catalog still admits it. */
  lemma CreateReplayUnchanged(env: Env, start: Catalog, requests: seq<Request>, i: nat, j: nat) returns (candidate: Candidate)
    requires Repeats(env, start, requests, i, j) && requests[i].expectation.Absent?
    ensures Stage(env, requests[i].source) == Success(candidate)
    ensures Outcome(env, start, requests, j) == ReplayAnswer(env, After(env, start, requests, j), candidate)
    ensures env.sha256(candidate.bytes) == Outcome(env, start, requests, i).value.after
    ensures After(env, start, requests, j + 1) == After(env, start, requests, j)
  {
    var plan := RepeatFinds(env, start, requests, i, j);
    candidate := plan.candidate;
    hide Check, Complete, ReadSpec, Finish, Stage;
    PlanFacts(env, After(env, start, requests, i), requests[i], plan);
    ReplayAnswers(env, After(env, start, requests, i), requests[i], plan, After(env, start, requests, j));
  }

  /**
   Replaying a replacement conditioned on a hash is refused exactly when the bytes it wrote hash
   differently from those it replaced; so never twice while SHA-256 tells different bytes apart.
   */
  lemma ReplaceReplayRefused(env: Env, start: Catalog, requests: seq<Request>, i: nat, j: nat)
    requires Repeats(env, start, requests, i, j) && requests[i].expectation.Sha256?
    requires Outcome(env, start, requests, i).value.status == Published
    ensures var receipt := Outcome(env, start, requests, i).value;
            Outcome(env, start, requests, j) == Failure(WrongHash) <==> receipt.before != Some(receipt.after)
    ensures (forall a, b :: env.sha256(a) == env.sha256(b) ==> a == b) ==>
              Outcome(env, start, requests, j) == Failure(WrongHash)
    ensures After(env, start, requests, j + 1) == After(env, start, requests, j)
  {
    var catalog, receipt := After(env, start, requests, i), Outcome(env, start, requests, i).value;
    var plan := RepeatFinds(env, start, requests, i, j);
    ReplacedOthers(env, catalog, requests[i], receipt, plan);
    hide Check, Complete, ReadSpec, Finish, Stage;
    PlanFacts(env, catalog, requests[i], plan);
    ReplayAnswers(env, catalog, requests[i], plan, After(env, start, requests, j));
  }

  lemma ReplacedOthers(env: Env, catalog: Catalog, request: Request, receipt: Receipt, plan: Plan)
    requires PublishTo(env, catalog, request).0 == Success(receipt) && receipt.status == Published
    requires Check(env, catalog, request) == Success(plan) && request.expectation.Sha256?
    ensures plan.before.Some? && plan.before.value != plan.candidate.bytes && receipt.before == HashOf(env, plan.before)
    ensures receipt.before == Some(request.expectation.hash) && IsSha256(request.expectation.hash)
  {
    PlanFacts(env, catalog, request, plan);
  }
}
