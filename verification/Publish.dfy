// src/agent_publish.rs, `publish`, with the ownership markers of src/agent_author/markers.rs: one
// declaration is published at a time, under the catalog lock, if it meets what the caller expects.
// Parsing, validation of the whole catalog and SHA-256 are parameters.
module Publish {
  import opened Wrappers
  import opened BundleCode
  import opened Bundle
  import opened BundleTree
  import opened BundleProjection
  import SourceEdit

  datatype Target = Target(host: string, identity: string)

  /** Published agents: what stands in each agent's directory. */
  type Catalog = map<Target, Node>

  datatype Source = SpecSource(bytes: Bytes) | BundleSource(tree: Node)

  datatype Expectation = Absent | Sha256(hash: string)

  datatype Request = Request(source: Source, inputSha256: string, expectation: Expectation, managedBy: Option<string>)

  datatype Candidate = Candidate(source: Source, bytes: Bytes, target: Target, inputSha256: string)

  datatype Status = Published | Unchanged

  datatype Receipt = Receipt(status: Status, target: Target, inputSha256: string, before: Option<string>, after: string,
                             managedBy: Option<string>)

  datatype Refusal =
    | MalformedSha256 | InvalidManagedBy | BadCandidate | InputChanged
    | NotADirectory | NotARegularFile
    | NixManaged | ManagedByUnmarked | ManagedByMismatch
    | AlreadyExists | IsAbsent | WrongHash
    | BundleCreateOnly | BundleTargetExists | NotAdmitted | PayloadIncomplete
    | ReadBackRefused(written: bool)

  /** What the program takes from code outside this model. */
  datatype Env = Env(
    parse: Bytes -> Option<Target>,
    markers: Bytes -> seq<string>,
    sha256: Bytes -> string,
    admits: (Catalog, Candidate) -> bool,
    readmits: Catalog -> bool,
    mode: Mode)

  /** "agent.kdl" */
  const SPEC_NAME: Bytes := [97, 103, 101, 110, 116, 46, 107, 100, 108]

  predicate IsSha256(hash: string) {
    |hash| == 64 && forall i :: 0 <= i < 64 ==> '0' <= hash[i] <= '9' || 'a' <= hash[i] <= 'f'
  }

  /** An asserted marker is neither empty nor padded. */
  predicate ValidAssertion(asserted: Option<string>) {
    asserted.Some? ==>
      asserted.value != "" && !SourceEdit.IsWhite(asserted.value[0])
      && !SourceEdit.IsWhite(asserted.value[|asserted.value| - 1])
  }

  /** Whether the assertion lets this caller rewrite bytes that carry these markers. */
  function AuthorizeMarker(declared: seq<string>, asserted: Option<string>): Result<bool, Refusal> {
    if asserted.None? then if "nix" in declared then Failure(NixManaged) else Success(false)
    else if declared == [asserted.value] then Success(true)
    else if declared == [] then Failure(ManagedByUnmarked)
    else Failure(ManagedByMismatch)
  }

  function Stage(env: Env, source: Source): Result<Candidate, Refusal> {
    match source
    case SpecSource(bytes) =>
      if env.parse(bytes).Some? then Success(Candidate(source, bytes, env.parse(bytes).value, env.sha256(bytes)))
      else Failure(BadCandidate)
    case BundleSource(tree) =>
      if tree.Dir? && Hashable(tree) && Find(tree.entries, SPEC_NAME).Some?
         && Find(tree.entries, SPEC_NAME).value.File? && env.parse(Find(tree.entries, SPEC_NAME).value.bytes).Some? then
        var bytes := Find(tree.entries, SPEC_NAME).value.bytes;
        Success(Candidate(source, bytes, env.parse(bytes).value, env.sha256(Stream(tree))))
      else Failure(BadCandidate)
  }

  /** The declaration that stands at the target, if one does. */
  function ReadSpec(catalog: Catalog, target: Target): Result<Option<Bytes>, Refusal> {
    if target !in catalog then Success(None)
    else if !catalog[target].Dir? then Failure(NotADirectory)
    else
      match Find(catalog[target].entries, SPEC_NAME)
      case None => Success(None)
      case Some(File(bytes, _)) => Success(Some(bytes))
      case Some(_) => Failure(NotARegularFile)
  }

  function HashOf(env: Env, spec: Option<Bytes>): Option<string> {
    if spec.Some? then Some(env.sha256(spec.value)) else None
  }

  function CheckMarker(env: Env, candidate: Candidate, before: Option<Bytes>, asserted: Option<string>)
    : Result<Option<string>, Refusal>
  {
    if before.None? || before.value == candidate.bytes then Success(None)
    else
      match AuthorizeMarker(env.markers(before.value), asserted)
      case Failure(refusal) => Failure(refusal)
      case Success(matched) => Success(if matched then asserted else None)
  }

  function CheckExpectation(env: Env, candidate: Candidate, before: Option<Bytes>, expectation: Expectation)
    : Result<(), Refusal>
  {
    match expectation
    case Absent => if before.Some? && before.value != candidate.bytes then Failure(AlreadyExists) else Success(())
    case Sha256(expected) =>
      if !IsSha256(expected) then Failure(MalformedSha256)
      else if before.None? then Failure(IsAbsent)
      else if env.sha256(before.value) != expected then Failure(WrongHash)
      else Success(())
  }

  function CheckBundle(catalog: Catalog, candidate: Candidate, before: Option<Bytes>, expectation: Expectation)
    : Result<(), Refusal>
  {
    if candidate.source.SpecSource? then Success(())
    else if !expectation.Absent? then Failure(BundleCreateOnly)
    else if candidate.target in catalog && before.None? then Failure(BundleTargetExists)
    else Success(())
  }

  /** What passed every check before the write. */
  datatype Plan = Plan(candidate: Candidate, before: Option<Bytes>, marker: Option<string>)

  function Check(env: Env, catalog: Catalog, request: Request): Result<Plan, Refusal> {
    if !IsSha256(request.inputSha256) then Failure(MalformedSha256)
    else if !ValidAssertion(request.managedBy) then Failure(InvalidManagedBy)
    else
      match Stage(env, request.source)
      case Failure(refusal) => Failure(refusal)
      case Success(candidate) =>
        if candidate.inputSha256 != request.inputSha256 then Failure(InputChanged)
        else
          match ReadSpec(catalog, candidate.target)
          case Failure(refusal) => Failure(refusal)
          case Success(before) => CheckPlan(env, catalog, request, candidate, before)
  }

  function CheckPlan(env: Env, catalog: Catalog, request: Request, candidate: Candidate, before: Option<Bytes>)
    : Result<Plan, Refusal>
  {
    match CheckMarker(env, candidate, before, request.managedBy)
    case Failure(refusal) => Failure(refusal)
    case Success(marker) =>
      match CheckExpectation(env, candidate, before, request.expectation)
      case Failure(refusal) => Failure(refusal)
      case Success(_) =>
        match CheckBundle(catalog, candidate, before, request.expectation)
        case Failure(refusal) => Failure(refusal)
        case Success(_) =>
          if env.admits(catalog, candidate) then Success(Plan(candidate, before, marker)) else Failure(NotAdmitted)
  }

  /** One file of a directory replaced, or added. */
  function PutFile(entries: seq<Entry>, name: Bytes, node: Node): seq<Entry> {
    if entries == [] then [Entry(name, node)]
    else if entries[0].name == name then [Entry(name, node)] + entries[1..]
    else [entries[0]] + PutFile(entries[1..], name, node)
  }

  function Write(env: Env, catalog: Catalog, candidate: Candidate): Catalog {
    match candidate.source
    case SpecSource(bytes) =>
      var entries := if candidate.target in catalog && catalog[candidate.target].Dir?
                     then catalog[candidate.target].entries else [];
      catalog[candidate.target := Dir(PutFile(entries, SPEC_NAME, File(bytes, env.mode)))]
    case BundleSource(tree) => catalog[candidate.target := tree]
  }

  function ReceiptOf(env: Env, status: Status, plan: Plan): Receipt {
    Receipt(status, plan.candidate.target, plan.candidate.inputSha256, HashOf(env, plan.before),
            env.sha256(plan.candidate.bytes), plan.marker)
  }

  /** The target already shows the whole candidate. */
  predicate Complete(catalog: Catalog, candidate: Candidate) {
    candidate.source.BundleSource? ==>
      candidate.target in catalog && Matches(candidate.source.tree, catalog[candidate.target])
  }

  function Finish(env: Env, catalog: Catalog, plan: Plan): (Result<Receipt, Refusal>, Catalog) {
    if plan.before == Some(plan.candidate.bytes) then
      if !Complete(catalog, plan.candidate) then (Failure(PayloadIncomplete), catalog)
      else if !env.readmits(catalog) then (Failure(ReadBackRefused(false)), catalog)
      else (Success(ReceiptOf(env, Unchanged, plan)), catalog)
    else
      var written := Write(env, catalog, plan.candidate);
      if !env.readmits(written) then (Failure(ReadBackRefused(true)), written)
      else (Success(ReceiptOf(env, Published, plan)), written)
  }

  /** One publication: its receipt or refusal, and the catalog it leaves. */
  function PublishTo(env: Env, catalog: Catalog, request: Request): (Result<Receipt, Refusal>, Catalog) {
    match Check(env, catalog, request)
    case Failure(refusal) => (Failure(refusal), catalog)
    case Success(plan) => Finish(env, catalog, plan)
  }

  /** The catalog on disk; every publication holds its lock from start to end. */
  class Store {
    var catalog: Catalog

    constructor (start: Catalog)
      ensures catalog == start
    {
      catalog := start;
    }

    method Publish(env: Env, request: Request) returns (r: Result<Receipt, Refusal>)
      modifies this
      ensures (r, catalog) == PublishTo(env, old(catalog), request)
    {
      if !IsSha256(request.inputSha256) { return Failure(MalformedSha256); }
      if !ValidAssertion(request.managedBy) { return Failure(InvalidManagedBy); }
      var staged := Stage(env, request.source);
      if staged.Failure? { return Failure(staged.error); }
      var candidate := staged.value;
      if candidate.inputSha256 != request.inputSha256 { return Failure(InputChanged); }
      var read := ReadSpec(catalog, candidate.target);
      if read.Failure? { return Failure(read.error); }
      var before := read.value;
      var marker := CheckMarker(env, candidate, before, request.managedBy);
      if marker.Failure? { return Failure(marker.error); }
      var expected := CheckExpectation(env, candidate, before, request.expectation);
      if expected.Failure? { return Failure(expected.error); }
      var bundle := CheckBundle(catalog, candidate, before, request.expectation);
      if bundle.Failure? { return Failure(bundle.error); }
      if !env.admits(catalog, candidate) { return Failure(NotAdmitted); }
      r := Settle(env, Plan(candidate, before, marker.value));
    }

    method Settle(env: Env, plan: Plan) returns (r: Result<Receipt, Refusal>)
      modifies this
      ensures (r, catalog) == Finish(env, old(catalog), plan)
    {
      if plan.before == Some(plan.candidate.bytes) {
        if plan.candidate.source.BundleSource? {
          if !Complete(catalog, plan.candidate) { return Failure(PayloadIncomplete); }
        }
        if !env.readmits(catalog) { return Failure(ReadBackRefused(false)); }
        return Success(ReceiptOf(env, Unchanged, plan));
      }
      catalog := Write(env, catalog, plan.candidate);
      if !env.readmits(catalog) { return Failure(ReadBackRefused(true)); }
      return Success(ReceiptOf(env, Published, plan));
    }
  }
}
