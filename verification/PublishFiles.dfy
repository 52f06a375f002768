// Exactly when a publication is made, and what it leaves on disk, file by file.
module PublishFiles {
  import opened Wrappers
  import opened BundleCode
  import opened Bundle
  import opened BundleTree
  import opened BundleProjection
  import opened Publish
  import opened PublishChain
  import SourceEdit

  // ----- what is left on disk -----

  /** What stands under a name in an agent's directory, if anything does. */
  function Holding(catalog: Catalog, target: Target, name: Bytes): Option<Node> {
    if target in catalog && catalog[target].Dir? then Find(catalog[target].entries, name) else None
  }

  /** Publishing a spec writes that one file of the agent's directory and keeps every other. */
  lemma SpecKeepsDirectory(env: Env, catalog: Catalog, request: Request, receipt: Receipt, after: Catalog)
    requires PublishTo(env, catalog, request) == (Success(receipt), after)
    requires receipt.status == Published && request.source.SpecSource?
    ensures receipt.target in after && after[receipt.target].Dir?
    ensures Find(after[receipt.target].entries, SPEC_NAME) == Some(File(request.source.bytes, env.mode))
    ensures forall name | name != SPEC_NAME ::
              Find(after[receipt.target].entries, name) == Holding(catalog, receipt.target, name)
    ensures receipt.target in catalog ==> catalog[receipt.target].Dir?
    ensures forall other | other != receipt.target ::
              (other in after <==> other in catalog) && (other in catalog ==> after[other] == catalog[other])
  {
    var plan := Check(env, catalog, request).value;
    PlanFacts(env, catalog, request, plan);
    StagedSpec(env, request.source, plan.candidate);
    WriteIsRead(env, catalog, request.source, plan.candidate);
    var entries := if receipt.target in catalog then catalog[receipt.target].entries else [];
    forall name ensures Find(after[receipt.target].entries, name)
                        == if name == SPEC_NAME then Some(File(request.source.bytes, env.mode)) else Find(entries, name)
    {
      PutFinds(entries, SPEC_NAME, File(request.source.bytes, env.mode), name);
    }
  }

  /** A bundle answered Unchanged is on disk already, every file and directory of it. */
  lemma UnchangedShowsAll(env: Env, catalog: Catalog, request: Request, receipt: Receipt, after: Catalog, path: seq<Bytes>)
    requires PublishTo(env, catalog, request) == (Success(receipt), after) && receipt.status == Unchanged
    requires request.source.BundleSource? && OnDisk(request.source.tree) && See(request.source.tree, path).Some?
    ensures after == catalog && receipt.target in catalog
    ensures See(catalog[receipt.target], path) == See(request.source.tree, path)
  {
    var plan := Check(env, catalog, request).value;
    PlanFacts(env, catalog, request, plan);
    StagedSpec(env, request.source, plan.candidate);
    MatchesIffShows(request.source.tree, catalog[receipt.target]);
  }

  // ----- what the input hash is of -----

  /** All that the input hash covers: the spec's bytes, or the whole bundle. */
  function Covered(source: Source): Bytes
    requires source.BundleSource? ==> source.tree.Dir?
  {
    match source
    case SpecSource(bytes) => bytes
    case BundleSource(tree) => Stream(tree)
  }

  lemma InputIsHashed(env: Env, catalog: Catalog, request: Request, receipt: Receipt)
    requires PublishTo(env, catalog, request).0 == Success(receipt)
    ensures request.source.BundleSource? ==> request.source.tree.Dir?
    ensures receipt.inputSha256 == request.inputSha256 == env.sha256(Covered(request.source))
  {
    var plan := Check(env, catalog, request).value;
    PlanFacts(env, catalog, request, plan);
    hide Check, IsSha256, ValidAssertion;
  }

  /** Two receipts with one input hash are for one bundle, wherever SHA-256 tells the two apart. */
  lemma SameInputSameTree(env: Env, a: Catalog, b: Catalog, first: Request, second: Request)
    requires PublishTo(env, a, first).0.Success? && PublishTo(env, b, second).0.Success?
    requires first.source.BundleSource? && second.source.BundleSource?
    requires first.source.tree.Dir? && OnDisk(first.source.tree) && Addressable(first.source.tree)
    requires second.source.tree.Dir? && OnDisk(second.source.tree) && Addressable(second.source.tree)
    requires env.sha256(Stream(first.source.tree)) == env.sha256(Stream(second.source.tree))
             ==> Stream(first.source.tree) == Stream(second.source.tree)
    ensures PublishTo(env, a, first).0.value.inputSha256 == PublishTo(env, b, second).0.value.inputSha256
            <==> SameTree(first.source.tree, second.source.tree)
  {
    InputIsHashed(env, a, first, PublishTo(env, a, first).0.value);
    InputIsHashed(env, b, second, PublishTo(env, b, second).0.value);
    StagedHashable(env, a, first);
    StagedHashable(env, b, second);
    hide PublishTo, SameTree;
    StreamDecidesTree(first.source.tree, second.source.tree);
  }

  lemma StagedHashable(env: Env, catalog: Catalog, request: Request)
    requires PublishTo(env, catalog, request).0.Success? && request.source.BundleSource?
    ensures Hashable(request.source.tree)
  {
    var plan := Check(env, catalog, request).value;
    PlanFacts(env, catalog, request, plan);
    StagedSpec(env, request.source, plan.candidate);
  }

  // ----- exactly when -----

  /** The source is readable, declares `target` with `bytes`, and is the input that was hashed. */
  predicate Declares(env: Env, request: Request, target: Target, bytes: Bytes) {
    && IsSha256(request.inputSha256) && ValidAssertion(request.managedBy) && env.parse(bytes) == Some(target)
    && match request.source
       case SpecSource(spec) => spec == bytes && env.sha256(bytes) == request.inputSha256
       case BundleSource(tree) =>
         && tree.Dir? && Hashable(tree) && env.sha256(Stream(tree)) == request.inputSha256
         && Find(tree.entries, SPEC_NAME).Some? && Find(tree.entries, SPEC_NAME).value.File?
         && Find(tree.entries, SPEC_NAME).value.bytes == bytes
  }

  /** The target can hold a declaration: nothing is there, or a directory whose spec, if any, is a file. */
  predicate Readable(catalog: Catalog, target: Target) {
    target in catalog ==>
      catalog[target].Dir? && (Holding(catalog, target, SPEC_NAME).Some? ==> Holding(catalog, target, SPEC_NAME).value.File?)
  }

  lemma DeclaredIsStaged(env: Env, request: Request, target: Target, bytes: Bytes)
    ensures Declares(env, request, target, bytes)
            <==> && IsSha256(request.inputSha256) && ValidAssertion(request.managedBy)
                 && Stage(env, request.source) == Success(Candidate(request.source, bytes, target, request.inputSha256))
  {
    hide IsSha256, ValidAssertion;
  }

  lemma ReadableIsRead(catalog: Catalog, target: Target)
    ensures Readable(catalog, target) <==> ReadSpec(catalog, target).Success?
    ensures Readable(catalog, target) ==>
              ReadSpec(catalog, target)
              == Success(match Holding(catalog, target, SPEC_NAME) case Some(File(bytes, _)) => Some(bytes) case _ => None)
  {
  }

  /**
   A spec is published exactly when it is the declared input, the target is readable, the expectation
   holds of what stands there, other bytes there are the caller's to replace, and the catalog is
   admitted before and after.
   */
  lemma SpecPublishedIff(env: Env, catalog: Catalog, request: Request, target: Target, bytes: Bytes)
    requires request.source == SpecSource(bytes) && Declares(env, request, target, bytes) && Readable(catalog, target)
    ensures var (r, after) := PublishTo(env, catalog, request);
            var held := Holding(catalog, target, SPEC_NAME);
            r.Success? && r.value.status == Published
            <==> && (match request.expectation
                     case Absent => held.None?
                     case Sha256(hash) => IsSha256(hash) && held.Some? && env.sha256(held.value.bytes) == hash)
                 && (held.Some? ==>
                       && held.value.bytes != bytes
                       && if request.managedBy.None? then "nix" !in env.markers(held.value.bytes)
                          else env.markers(held.value.bytes) == [request.managedBy.value])
                 && env.admits(catalog, Candidate(request.source, bytes, target, request.inputSha256))
                 && env.readmits(Write(env, catalog, Candidate(request.source, bytes, target, request.inputSha256)))
  {
    DeclaredIsStaged(env, request, target, bytes);
    ReadableIsRead(catalog, target);
    hide Stage, ReadSpec, Write, IsSha256, ValidAssertion;
  }

  /** A bundle is published exactly when it is expected absent, nothing stands at its target, and the catalog is admitted. */
  lemma BundlePublishedIff(env: Env, catalog: Catalog, request: Request, target: Target, bytes: Bytes)
    requires request.source.BundleSource? && Declares(env, request, target, bytes) && Readable(catalog, target)
    ensures var (r, after) := PublishTo(env, catalog, request);
            r.Success? && r.value.status == Published
            <==> && request.expectation.Absent? && target !in catalog
                 && env.admits(catalog, Candidate(request.source, bytes, target, request.inputSha256))
                 && env.readmits(catalog[target := request.source.tree])
  {
    DeclaredIsStaged(env, request, target, bytes);
    ReadableIsRead(catalog, target);
    hide Stage, ReadSpec, IsSha256, ValidAssertion;
  }

  /** What is not the declared input, or cannot be read where it would go, is refused. */
  lemma UndeclaredIsRefused(env: Env, catalog: Catalog, request: Request)
    requires forall target, bytes :: Declares(env, request, target, bytes) ==> !Readable(catalog, target)
    ensures PublishTo(env, catalog, request).0.Failure? && PublishTo(env, catalog, request).1 == catalog
  {
    hide IsSha256, ValidAssertion, Readable, ReadSpec;
    if Check(env, catalog, request).Success? {
      var plan := Check(env, catalog, request).value;
      PlanFacts(env, catalog, request, plan);
      DeclaredIsStaged(env, request, plan.candidate.target, plan.candidate.bytes);
      ReadableIsRead(catalog, plan.candidate.target);
    }
  }

  /** Why a declared spec is turned away over other bytes that stand at its target: ownership is asked before the hash. */
  lemma RefusedOver(env: Env, catalog: Catalog, request: Request, target: Target, bytes: Bytes, held: Bytes, mode: Mode)
    requires Declares(env, request, target, bytes) && Readable(catalog, target) && held != bytes
    requires Holding(catalog, target, SPEC_NAME) == Some(File(held, mode))
    ensures var r := PublishTo(env, catalog, request).0;
            var marks := env.markers(held);
            && (r == Failure(NixManaged) <==> request.managedBy.None? && "nix" in marks)
            && (r == Failure(ManagedByUnmarked) <==> request.managedBy.Some? && marks == [])
            && (r == Failure(ManagedByMismatch) <==>
                  request.managedBy.Some? && marks != [] && marks != [request.managedBy.value])
            && (r == Failure(AlreadyExists) <==>
                  && request.expectation.Absent?
                  && if request.managedBy.None? then "nix" !in marks else marks == [request.managedBy.value])
  {
    DeclaredIsStaged(env, request, target, bytes);
    ReadableIsRead(catalog, target);
    hide Stage, ReadSpec, Write, IsSha256, ValidAssertion, Complete;
  }

  /** A hash is 64 lower-case hexadecimal digits. */
  lemma HashForm(hash: string)
    ensures IsSha256(hash) <==> |hash| == 64 && forall c | c in hash :: c in "0123456789abcdef"
  {
    assert forall c :: c in "0123456789abcdef" <==> '0' <= c <= '9' || 'a' <= c <= 'f';
    if IsSha256(hash) {
      forall c | c in hash ensures c in "0123456789abcdef" {
        var i :| 0 <= i < |hash| && hash[i] == c;
      }
    } else if |hash| == 64 {
      var i :| 0 <= i < 64 && !('0' <= hash[i] <= '9' || 'a' <= hash[i] <= 'f');
      assert hash[i] in hash;
    }
  }

  /** Before anything is read, the hash must have its form and an asserted owner must not be empty or padded. */
  lemma MalformedIff(env: Env, catalog: Catalog, request: Request)
    ensures var r := PublishTo(env, catalog, request).0;
            && (!IsSha256(request.inputSha256) ==> r == Failure(MalformedSha256))
            && (IsSha256(request.inputSha256) ==>
                  (r == Failure(InvalidManagedBy)
                   <==> exists owner :: request.managedBy == Some(owner)
                                        && (|| owner == ""
                                            || exists padded, c :: SourceEdit.IsWhite(c)
                                                                   && (owner == padded + [c] || owner == [c] + padded))))
  {
    hide IsSha256, CheckPlan, Finish, Stage, ReadSpec;
    if IsSha256(request.inputSha256) && request.managedBy.Some? && request.managedBy.value != "" {
      var owner := request.managedBy.value;
      assert owner == owner[..|owner| - 1] + [owner[|owner| - 1]] && owner == [owner[0]] + owner[1..];
    }
    if IsSha256(request.inputSha256) && ValidAssertion(request.managedBy) { PlanIsNotInvalid(env, catalog, request); }
  }

  lemma PlanIsNotInvalid(env: Env, catalog: Catalog, request: Request)
    requires IsSha256(request.inputSha256) && ValidAssertion(request.managedBy)
    ensures PublishTo(env, catalog, request).0 != Failure(InvalidManagedBy)
  {
    hide IsSha256, ValidAssertion, Write;
  }
}
