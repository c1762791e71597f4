/** What the checker, the compiler and the lifecycle tool guarantee together, for one catalog and
    over every run of requests. */
module CatalogSafety {
  import opened Catalog
  import opened CatalogRules
  import opened Lifecycle
  import opened Projection
  import opened Schema
  import opened Text

  // ---- one key, one place ------------------------------------------------------------------

  /** The release runs a validator that signs. */
  predicate Signs(r: Release) {
    r.lifecycleState == ChartActive && r.validatorEnabled
  }

  /** In a catalog without findings no two rendered releases sign with the same identity or the same
      key, in whatever case it is written, nor under the same resource name. */
  lemma NoKeySignsTwice(index: Index, m: string, n: string, tools: Tools)
    requires index.Filed() && Coherent(index) && m != n
    requires Renders(index, m) && Renders(index, n)
    requires Signs(ReleaseFor(index, m, tools)) && Signs(ReleaseFor(index, n, tools))
    ensures var r, s := ReleaseFor(index, m, tools), ReleaseFor(index, n, tools);
            && r.validatorId != s.validatorId
            && r.signing.Some? && s.signing.Some?
            && Lower(r.signing.value.publicKey) != Lower(s.signing.value.publicKey)
            && !SameUpToCase(r.signing.value.publicKey, s.signing.value.publicKey)
            && r.fullnameOverride != s.fullnameOverride
  {
    hide DistinctCustomerIds, NoneLeavingLive, SoundNetwork, MaySign, Hosts, NetworkValuesFor;
    var a, b := index.assignments[m], index.assignments[n];
    assert a.lifecycle == Active && b.lifecycle == Active;
    assert IsLive(a) && IsLive(b);
    assert a.validatorRef != b.validatorRef;
    assert Given(index.identities[a.validatorRef].publicKey);
    hide Lower, SameUpToCase;
    LowerIff(index.identities[a.validatorRef].publicKey.value, index.identities[b.validatorRef].publicKey.value);
  }

  /** A release that signs is entitled to: its identity is real and registered, its customer active, its
      service and its network's signer allow it, and both confirmations are given. */
  lemma SigningIsEntitled(index: Index, n: string, tools: Tools)
    requires index.Filed() && Coherent(index) && Renders(index, n) && Signs(ReleaseFor(index, n, tools))
    ensures var a := index.assignments[n];
            var i := index.identities[a.validatorRef];
            && a.lifecycle == Active && a.signingEnabled && a.safety == Safety(true, true)
            && i.lifecycle == Registered && !i.synthetic && i.publicKey.Some? && i.publicKey.value != ""
            && index.customers[i.customerRef].lifecycle == CustomerActive
            && index.services[a.serviceProfileRef].signingAllowed
            && index.networks[a.networkProfileRef].signer.signingQualified
            && i.networkProfileRef == a.networkProfileRef
  {
    hide DistinctCustomerIds, DistinctKeys, NoneLeavingLive, SoundNetwork, ExclusiveValidators, ExclusiveNodePairs, Hosts,
      NetworkValuesFor;
    ReleaseSays(index, n, tools);
    assert MaySign(index, index.assignments[n]);
  }

  // ---- what a release says -----------------------------------------------------------------

  /** Every field of a release, in terms of the documents it was rendered from. */
  lemma ReleaseSays(index: Index, n: string, tools: Tools)
    requires Renders(index, n)
    ensures var r := ReleaseFor(index, n, tools);
            var a := index.assignments[n];
            var i := index.identities[a.validatorRef];
            && r.name == n && r.assignmentId == n && r.validatorId == a.validatorRef && r.customerId == i.customerRef
            && r.fullnameOverride == EffectiveNodePair(a, tools)
            && (r.lifecycleState == ChartActive <==> a.lifecycle == Active)
            && (r.lifecycleState == ChartArchived <==> a.lifecycle == Archived)
            && (r.disableWait <==> r.lifecycleState != ChartActive)
            && (r.validatorEnabled <==> a.signingEnabled)
            && (r.slashingProtectionConfirmed <==> a.safety.slashingProtectionConfirmed)
            && (r.signing.Some? <==> r.validatorEnabled)
            && (r.signing.Some? ==>
                  && Some(r.signing.value.publicKey) == i.publicKey
                  && Some(r.signing.value.feeRecipient) == a.feeRecipient
                  && r.signing.value.networkConfigMapName == "web3signer-network-config-" + r.networkProfile.name)
  {
    hide Hosts, RuntimeClients, Fingerprint, DefaultNodePairRef, ExecutionSupported, ConsensusSupported;
  }

  /** The identity is real and registered and has a key and a secret, the assignment a recipient and both
      confirmations, and the signer is qualified. */
  predicate MayHoldKey(a: ValidatorAssignment, i: ValidatorIdentity, p: NetworkProfile) {
    && !(i.synthetic || i.lifecycle in {Draft, Retired})
    && i.publicKey !in {None, Some("")} && i.signingSecretRef !in {None, Some("")} && a.feeRecipient !in {None, Some("")}
    && a.safety == Safety(true, true) && p.signer.signingQualified
  }

  /** All clients run in this mode, and what the mode needs is there. */
  predicate RunsIn(p: NetworkProfile, mode: string) {
    && (forall c | c in p.clients :: p.clients[c].mode == mode)
    && (mode == "builtin"
        || (mode == "artifact-bundle" && p.resetPolicy == ReplaceData && p.checkpointSync.Some? && p.artifactBundle.Some?))
  }

  /** When an assignment can be rendered. */
  lemma RendersIff(index: Index, name: string)
    ensures Renders(index, name) <==>
            && name in index.assignments
            && var a := index.assignments[name];
               && a.validatorRef in index.identities && a.serviceProfileRef in index.services
               && a.networkProfileRef in index.networks
               && var i := index.identities[a.validatorRef];
                  var s := index.services[a.serviceProfileRef];
                  var p := index.networks[a.networkProfileRef];
                  && s.executionClient in ["besu", "erigon", "geth", "nethermind", "reth"]
                  && s.consensusClient in ["lighthouse", "nimbus", "prysm", "teku"]
                  && i.networkProfileRef == a.networkProfileRef && i.customerRef in index.customers
                  && (a.signingEnabled ==> MayHoldKey(a, i, p))
                  && s.executionClient in p.clients && "lighthouse" in p.clients && (exists mode :: RunsIn(p, mode))
                  && (a.lifecycle == Active ==> a.nodePairRef !in {None, Some("")})
  {
    hide ReadyToSign, MayHoldKey, Hosts, RunsIn, ExecutionSupported, ConsensusSupported, Given;
    if ReferencesResolve(index, name) {
      var a := index.assignments[name];
      var i := index.identities[a.validatorRef];
      var s := index.services[a.serviceProfileRef];
      var p := index.networks[a.networkProfileRef];
      ReadyIff(a, i, p);
      RunsInIff(p, s.executionClient);
      ClientsIff(s);
      GivenIff(a.nodePairRef);
    }
  }

  lemma GivenIff(s: Option<string>)
    ensures Given(s) <==> s !in {None, Some("")}
  {
  }

  lemma ReadyIff(a: ValidatorAssignment, i: ValidatorIdentity, p: NetworkProfile)
    ensures ReadyToSign(a, i, p) <==> MayHoldKey(a, i, p)
  {
    assert i.lifecycle == Registered || i.lifecycle == Draft || i.lifecycle == Retired;
  }

  lemma RunsInIff(p: NetworkProfile, execution: string)
    ensures Hosts(p, execution) <==> execution in p.clients && "lighthouse" in p.clients && exists mode :: RunsIn(p, mode)
  {
    if execution in p.clients && Hosts(p, execution) {
      assert RunsIn(p, p.clients[execution].mode);
    }
    if mode :| execution in p.clients && RunsIn(p, mode) {
      assert p.clients[execution].mode == mode;
      assert "builtin"[0] != "artifact-bundle"[0];
    }
  }

  lemma ClientsIff(s: ServiceProfile)
    ensures ExecutionSupported(s.executionClient) <==> s.executionClient in ["besu", "erigon", "geth", "nethermind", "reth"]
    ensures ConsensusSupported(s.consensusClient) <==> s.consensusClient in ["lighthouse", "nimbus", "prysm", "teku"]
  {
  }

  /** The two clients of a release are those of its service profile, each in its own place, and the network
      can run the first. */
  lemma ReleaseRunsItsClients(index: Index, n: string, tools: Tools)
    requires Renders(index, n)
    ensures var r := ReleaseFor(index, n, tools);
            var s := index.services[index.assignments[n].serviceProfileRef];
            && r.executionClient == s.executionClient && r.consensusClient == s.consensusClient
            && r.executionClient in r.networkProfile.clients
            && r.executionClient in {"geth", "reth", "erigon", "besu", "nethermind"}
            && r.consensusClient in {"lighthouse", "teku", "nimbus", "prysm"}
  {
    hide ReadyToSign, Fingerprint, EffectiveNodePair;
  }

  /** The network of a release is its profile, with a bundle and checkpoints exactly in artifact mode. */
  lemma ReleaseCarriesItsNetwork(index: Index, n: string, tools: Tools)
    requires Renders(index, n)
    ensures var a := index.assignments[n];
            var p, v := index.networks[a.networkProfileRef], ReleaseFor(index, n, tools).networkProfile;
            var pinned := p.clients[ReleaseFor(index, n, tools).executionClient].mode == "artifact-bundle";
            && v.name == a.networkProfileRef && v.family == p.family && v.generation == p.generation
            && v.resetPolicy == p.resetPolicy && v.identity == p.identity
            && v.identityFingerprint == tools.sha256(FingerprintPayload(p))
            && v.clients.Keys == p.clients.Keys
            && (forall c | c in v.clients :: v.clients[c].mode == p.clients[c].mode)
            && v.signer.mode == p.signer.mode && v.signer.signingQualified == p.signer.signingQualified
            && v.artifactBundle == (if pinned then p.artifactBundle else None)
            && v.checkpointSync == (if pinned then p.checkpointSync else None)
            && (pinned ==> v.artifactBundle.Some? && v.checkpointSync.Some? && v.resetPolicy == ReplaceData)
  {
    hide ReadyToSign, EffectiveNodePair, FingerprintPayload, ExecutionSupported, ConsensusSupported;
  }

  /** Two rendered active releases, signing or not, are of different validators and have different
      resource names. */
  lemma ActiveReleasesAreApart(index: Index, m: string, n: string, tools: Tools)
    requires index.Filed() && Coherent(index) && m != n
    requires Renders(index, m) && Renders(index, n)
    requires ReleaseFor(index, m, tools).lifecycleState == ReleaseFor(index, n, tools).lifecycleState == ChartActive
    ensures ReleaseFor(index, m, tools).validatorId != ReleaseFor(index, n, tools).validatorId
    ensures ReleaseFor(index, m, tools).fullnameOverride != ReleaseFor(index, n, tools).fullnameOverride
  {
    hide DistinctCustomerIds, DistinctKeys, NoneLeavingLive, SoundNetwork, MaySign, Hosts, NetworkValuesFor, ReadyToSign;
    var a, b := index.assignments[m], index.assignments[n];
    assert a.lifecycle == Active && b.lifecycle == Active;
    assert IsLive(a) && IsLive(b);
  }

  /** Both assignments are for one node pair: they record the same one, or neither records one and they
      are of one validator, or one records the name that the other derives. */
  predicate OnePair(a: ValidatorAssignment, b: ValidatorAssignment, tools: Tools) {
    if Given(a.nodePairRef) && Given(b.nodePairRef) then a.nodePairRef == b.nodePairRef
    else if Given(a.nodePairRef) then a.nodePairRef.value == DefaultNodePairRef(b.validatorRef, tools)
    else if Given(b.nodePairRef) then b.nodePairRef.value == DefaultNodePairRef(a.validatorRef, tools)
    else a.validatorRef == b.validatorRef
  }

  /** Exactly when two rendered releases share their resource name: they are for one node pair, and at
      most one of them is active. The hypothesis is that shortened digests do not confuse the two. */
  lemma SharedNameIff(index: Index, m: string, n: string, tools: Tools)
    requires index.Filed() && Coherent(index) && m != n
    requires Renders(index, m) && Renders(index, n)
    requires var a, b := index.assignments[m], index.assignments[n];
             DefaultNodePairRef(a.validatorRef, tools) == DefaultNodePairRef(b.validatorRef, tools)
             ==> a.validatorRef == b.validatorRef
    ensures var a, b := index.assignments[m], index.assignments[n];
            ReleaseFor(index, m, tools).fullnameOverride == ReleaseFor(index, n, tools).fullnameOverride <==>
            OnePair(a, b, tools) && !(a.lifecycle == Active && b.lifecycle == Active)
  {
    hide Coherent, Hosts, ReadyToSign, NetworkValuesFor, DefaultNodePairRef;
    if index.assignments[m].lifecycle == Active && index.assignments[n].lifecycle == Active {
      ActiveReleasesAreApart(index, m, n, tools);
    }
  }

  /** Names of up to 58 characters are not shortened, so the pairs derived from them are never confused. */
  lemma DefaultPairsApart(v: string, w: string, tools: Tools)
    requires |v| <= 58 && |w| <= 58
    ensures DefaultNodePairRef(v, tools) == DefaultNodePairRef(w, tools) ==> v == w
  {
    assert ("pair-" + v)[5..] == v && ("pair-" + w)[5..] == w;
  }

  // ---- what the compiler can still refuse --------------------------------------------------

  /** The objections of the compiler that the checker leaves open. */
  ghost predicate Residue(index: Index, name: string)
    requires Resolved(index) && name in index.assignments
  {
    var a := index.assignments[name];
    var i := index.identities[a.validatorRef];
    var s := index.services[a.serviceProfileRef];
    var p := index.networks[a.networkProfileRef];
    || !ExecutionSupported(s.executionClient)
    || !ConsensusSupported(s.consensusClient)
    || s.executionClient !in p.clients
    || "lighthouse" !in p.clients
    || p.signer.mode !in {"builtin", "artifact-bundle"}
    || (ArtifactMode(p, s.executionClient) && p.artifactBundle.None?)
    || (a.lifecycle == Active && !Given(a.nodePairRef))
    || (a.signingEnabled &&
          (!Given(i.publicKey) || !Given(i.signingSecretRef) || !Given(a.feeRecipient)
           || !a.safety.slashingProtectionConfirmed || !a.safety.doppelgangerProtectionConfirmed
           || (p.signer.mode == "builtin" && !p.signer.signingQualified)))
  }

  /** A sound profile hosts a client exactly when nothing of the residue stands against it. */
  lemma HostsIff(p: NetworkProfile, execution: string)
    requires SoundNetwork(p)
    ensures Hosts(p, execution) <==>
            && execution in p.clients && "lighthouse" in p.clients
            && p.signer.mode in {"builtin", "artifact-bundle"}
            && (ArtifactMode(p, execution) ==> p.artifactBundle.Some?)
  {
    SameModes(p);
    hide SoundBundle, GenerationName, Adapters, BuiltinNetworks;
    assert ArtifactMode(p, execution) ==> ClientArtifact(p);
  }

  /** Once the checker is silent, rendering fails for those reasons only. */
  lemma ProjectionResidue(index: Index, name: string)
    requires index.Filed() && Coherent(index) && name in index.assignments
    ensures Renders(index, name) <==> !Residue(index, name)
  {
    hide DistinctKeys, DistinctCustomerIds, ExclusiveValidators, ExclusiveNodePairs, NoneLeavingLive, SoundNetwork, Hosts,
      ArtifactMode, ExecutionSupported, ConsensusSupported;
    var a := index.assignments[name];
    HostsIff(index.networks[a.networkProfileRef], index.services[a.serviceProfileRef].executionClient);
    assert a.signingEnabled ==> MaySign(index, a);
  }

  lemma SameModes(p: NetworkProfile)
    requires SoundNetwork(p)
    ensures forall c | c in p.clients :: p.clients[c].mode == p.signer.mode
  {
  }

  lemma ArtifactsReplaceData(p: NetworkProfile)
    requires SoundNetwork(p)
    ensures (exists c :: c in p.clients && p.clients[c].mode == "artifact-bundle") ==> p.resetPolicy == ReplaceData
  {
  }

  ghost predicate AllValid(index: Index) {
    && (forall n | n in index.customers :: CustomerValid(index.customers[n]))
    && (forall n | n in index.networks :: NetworkValid(index.networks[n]))
    && (forall n | n in index.services :: ServiceValid(index.services[n]))
    && (forall n | n in index.identities :: IdentityValid(index.identities[n]))
    && (forall n | n in index.assignments :: AssignmentValid(index.assignments[n]))
  }

  lemma ServiceIsSupported(s: ServiceProfile)
    requires ServiceValid(s)
    ensures ExecutionSupported(s.executionClient) && ConsensusSupported(s.consensusClient)
  {
  }

  /** No text that a schema has checked is empty. */
  lemma SigningIsComplete(a: ValidatorAssignment, i: ValidatorIdentity)
    requires AssignmentValid(a) && IdentityValid(i)
    ensures a.lifecycle == Active ==> Given(a.nodePairRef)
    ensures a.signingEnabled ==>
      Given(a.feeRecipient) && a.safety.slashingProtectionConfirmed && a.safety.doppelgangerProtectionConfirmed
    ensures i.lifecycle == Registered ==> Given(i.publicKey) && Given(i.signingSecretRef)
  {
  }

  /** A profile with the client lacks nothing else that the compiler asks for. */
  lemma NetworkIsComplete(p: NetworkProfile, execution: string)
    requires NetworkValid(p) && SoundNetwork(p)
    ensures "lighthouse" in p.clients && p.signer.mode in {"builtin", "artifact-bundle"}
    ensures ArtifactMode(p, execution) ==> p.artifactBundle.Some?
    ensures p.signer.mode == "builtin" ==> !p.signer.signingQualified
  {
    hide NameShaped, FamilyShaped, GenerationShaped, ChainValid, BundleValid, CheckpointValid, SoundBundle, Adapters,
      BuiltinNetworks;
    SameModes(p);
    ArtifactsReplaceData(p);
  }

  /** After the schema checks only two refusals remain: a network profile without an adapter for the
      chosen execution client, and signing on a built-in signer, which the relational checker allows
      but the compiler, asking for a qualification the schema forbids there, does not. */
  lemma ValidatedResidue(index: Index, name: string)
    requires index.Filed() && Coherent(index) && AllValid(index) && name in index.assignments
    ensures var a := index.assignments[name];
            var p := index.networks[a.networkProfileRef];
            Renders(index, name) <==>
              index.services[a.serviceProfileRef].executionClient in p.clients
              && !(a.signingEnabled && p.signer.mode == "builtin")
  {
    hide Renders, SoundNetwork, DistinctKeys, DistinctCustomerIds, ExclusiveValidators, ExclusiveNodePairs, NoneLeavingLive,
      NetworkValid, ServiceValid, CustomerValid, AssignmentValid, IdentityValid, ExecutionSupported, ConsensusSupported,
      ArtifactMode, Given;
    var a := index.assignments[name];
    ProjectionResidue(index, name);
    NetworkIsComplete(index.networks[a.networkProfileRef], index.services[a.serviceProfileRef].executionClient);
    ServiceIsSupported(index.services[a.serviceProfileRef]);
    SigningIsComplete(a, index.identities[a.validatorRef]);
    assert a.signingEnabled ==> MaySign(index, a);
  }

  /** A release either runs on pinned artifacts with every network selector nulled out, in the
      signer too, or on built-in networks with every adapter as the profile declares it. */
  lemma SelectorsFollowMode(index: Index, name: string, tools: Tools)
    requires index.Filed() && Coherent(index) && Renders(index, name)
    ensures var r := ReleaseFor(index, name, tools);
            var p := index.networks[index.assignments[name].networkProfileRef];
            && r.networkProfile.clients.Keys == p.clients.Keys
            && if p.signer.mode == "artifact-bundle"
               then r.networkProfile.signer.network == NullValue
                    && forall c | c in r.networkProfile.clients :: r.networkProfile.clients[c].network == NullValue
               else r.networkProfile.signer == p.signer && r.networkProfile.clients == p.clients
  {
    hide DistinctKeys, DistinctCustomerIds, ExclusiveValidators, ExclusiveNodePairs, NoneLeavingLive, MaySign, Resolved,
      ReadyToSign, SoundNetwork, Fingerprint, EffectiveNodePair;
    var p := index.networks[index.assignments[name].networkProfileRef];
    SameModes(p);
  }

  // ---- what a request leaves alone ---------------------------------------------------------

  /** b is a with, at most, another lifecycle, pair reference, safety record and reason, and under
      the same resource name. */
  ghost predicate OnlyLifecycle(a: ValidatorAssignment, b: ValidatorAssignment, tools: Tools) {
    && b == a.(lifecycle := b.lifecycle, nodePairRef := b.nodePairRef, safety := b.safety,
               maintenanceReason := b.maintenanceReason)
    && EffectiveNodePair(b, tools) == EffectiveNodePair(a, tools)
    && !a.signingEnabled
  }

  ghost predicate FileFramed(before: File, after: File, touched: set<string>, tools: Tools) {
    || before == after
    || (&& before.path == after.path
        && before.document.AssignmentDocument? && after.document.AssignmentDocument?
        && before.document.assignment.name in touched
        && OnlyLifecycle(before.document.assignment, after.document.assignment, tools))
  }

  ghost predicate Framed(before: seq<File>, after: seq<File>, touched: set<string>, tools: Tools) {
    |before| == |after| && forall i | 0 <= i < |before| :: FileFramed(before[i], after[i], touched, tools)
  }

  lemma RequestFrame(files: seq<File>, r: Request, i: nat, tools: Tools)
    requires Located(files, r.assignment, i) && MayTransition(files[i].document.assignment, r.action, r.reason)
    ensures Framed(files, Requested(files, r, i, tools), {r.assignment}, tools)
  {
  }

  lemma StepFrame(s: State, r: Request, tools: Tools)
    ensures Framed(s.files, Step(s, r, tools).files, {r.assignment}, tools)
    ensures !Accepts(s.files, r, tools) ==> Step(s, r, tools) == s
  {
    hide Sound, Located, Requested, MayTransition;
    if Accepts(s.files, r, tools) {
      var i: nat :| AcceptsAt(s.files, r, i, tools);
      StepTaken(s, r, i, tools);
      hide Framed;
      RequestFrame(s.files, r, i, tools);
    }
  }

  ghost function Touched(requests: seq<Request>): set<string> {
    set r | r in requests :: r.assignment
  }

  /** Over any run: the same files under the same paths; a document changes only if it is an
      assignment named by a request and not signing, and then only in its lifecycle fields. */
  lemma {:induction false} RunFrame(s: State, requests: seq<Request>, tools: Tools)
    ensures Framed(s.files, Run(s, requests, tools).files, Touched(requests), tools)
  {
    hide Step, Framed, Touched;
    if requests == [] {
      FramedByItself(s.files, Touched(requests), tools);
    } else {
      var earlier, last := requests[..|requests| - 1], requests[|requests| - 1];
      var middle := Run(s, earlier, tools);
      RunFrame(s, earlier, tools);
      StepFrame(middle, last, tools);
      TouchedGrows(requests);
      FramedTransitive(s.files, middle.files, Step(middle, last, tools).files,
                       Touched(earlier), {last.assignment}, Touched(requests), tools);
    }
  }

  lemma TouchedGrows(requests: seq<Request>)
    requires requests != []
    ensures Touched(requests[..|requests| - 1]) <= Touched(requests)
    ensures {requests[|requests| - 1].assignment} <= Touched(requests)
  {
  }

  lemma FramedByItself(files: seq<File>, touched: set<string>, tools: Tools)
    ensures Framed(files, files, touched, tools)
  {
  }

  lemma FramedTransitive(a: seq<File>, b: seq<File>, c: seq<File>, t: set<string>, u: set<string>, all: set<string>, tools: Tools)
    requires Framed(a, b, t, tools) && Framed(b, c, u, tools) && t <= all && u <= all
    ensures Framed(a, c, all, tools)
  {
  }

  // ---- runs --------------------------------------------------------------------------------

  /** The projection directory shows exactly the catalog, and the catalog passes every check. */
  ghost predicate InSync(s: State, tools: Tools) {
    Sound(s.files) && YamlFiles(s.projection) == RenderedOf(IndexOf(Documents(s.files)), tools)
  }

  lemma StepInSync(s: State, r: Request, tools: Tools)
    requires Accepts(s.files, r, tools)
    ensures InSync(Step(s, r, tools), tools)
    ensures forall f | f in s.projection && !IsYaml(f) ::
      f in Step(s, r, tools).projection && Step(s, r, tools).projection[f] == s.projection[f]
  {
    hide Consistent, AllRender, AreRendered, Valid, Projected, YamlFiles;
    var i: nat :| AcceptsAt(s.files, r, i, tools);
    StepTaken(s, r, i, tools);
    hide Step;
    var index := IndexOf(Documents(Requested(s.files, r, i, tools)));
    WriteThenCheck(s.projection, RenderedOf(index, tools));
    RenderedAreYaml(RenderedOf(index, tools), index, tools);
  }

  /** Every run either leaves catalog and projection untouched, or ends with a catalog that passes
      every check and a projection that shows exactly that catalog. */
  lemma {:induction false} RunInSync(s: State, requests: seq<Request>, tools: Tools)
    ensures Run(s, requests, tools) == s || InSync(Run(s, requests, tools), tools)
  {
    if requests == [] {
    } else {
      var earlier, last := requests[..|requests| - 1], requests[|requests| - 1];
      RunInSync(s, earlier, tools);
      if Accepts(Run(s, earlier, tools).files, last, tools) {
        StepInSync(Run(s, earlier, tools), last, tools);
      } else {
        StepFrame(Run(s, earlier, tools), last, tools);
      }
    }
  }

  /** The paths of the assignments that sign. */
  function SigningFiles(files: seq<File>): set<string> {
    set i | 0 <= i < |files| && files[i].document.AssignmentDocument? && files[i].document.assignment.signingEnabled
      :: files[i].path
  }

  lemma FramedSigning(before: seq<File>, after: seq<File>, touched: set<string>, tools: Tools)
    requires Framed(before, after, touched, tools)
    ensures SigningFiles(before) == SigningFiles(after)
  {
  }

  /** An assignment that can be rendered before and after is rendered under one resource name. */
  lemma FramedFullname(before: seq<File>, after: seq<File>, touched: set<string>, name: string, tools: Tools)
    requires Framed(before, after, touched, tools)
    requires UniqueNames(Documents(before)) && UniqueNames(Documents(after))
    requires Renders(IndexOf(Documents(before)), name) && Renders(IndexOf(Documents(after)), name)
    ensures ReleaseFor(IndexOf(Documents(before)), name, tools).fullnameOverride
            == ReleaseFor(IndexOf(Documents(after)), name, tools).fullnameOverride
  {
    var old', new' := IndexOf(Documents(before)), IndexOf(Documents(after));
    var a := old'.assignments[name];
    IndexFiled(Documents(before));
    IndexHolds(Documents(before), AssignmentDocument(a));
    var i :| 0 <= i < |Documents(before)| && Documents(before)[i] == AssignmentDocument(a);
    assert FileFramed(before[i], after[i], touched, tools);
    assert Documents(after)[i] in Documents(after);
    IndexHolds(Documents(after), Documents(after)[i]);
    assert new'.assignments[name] == after[i].document.assignment;
  }

  /** The central guarantee, over all runs from a sound catalog: the set of signing assignments
      never changes, resource names never change, and at the end, as at the start, no two rendered
      releases sign with one key. */
  lemma RunSafety(s: State, requests: seq<Request>, tools: Tools)
    requires Sound(s.files)
    ensures var t := Run(s, requests, tools);
            && Sound(t.files)
            && SigningFiles(t.files) == SigningFiles(s.files)
            && (forall n | Renders(IndexOf(Documents(s.files)), n) && Renders(IndexOf(Documents(t.files)), n) ::
                  ReleaseFor(IndexOf(Documents(t.files)), n, tools).fullnameOverride
                  == ReleaseFor(IndexOf(Documents(s.files)), n, tools).fullnameOverride)
            && (forall m, n | m != n && Renders(IndexOf(Documents(t.files)), m) && Renders(IndexOf(Documents(t.files)), n) ::
                  var r, q := ReleaseFor(IndexOf(Documents(t.files)), m, tools), ReleaseFor(IndexOf(Documents(t.files)), n, tools);
                  Signs(r) && Signs(q) ==>
                    r.signing.Some? && q.signing.Some?
                    && Lower(r.signing.value.publicKey) != Lower(q.signing.value.publicKey)
                    && !SameUpToCase(r.signing.value.publicKey, q.signing.value.publicKey)
                    && r.fullnameOverride != q.fullnameOverride)
  {
    hide Renders, ReleaseFor, Coherent, AllRender, Valid, Framed, SameUpToCase, Lower;
    var t := Run(s, requests, tools);
    RunInSync(s, requests, tools);
    RunFrame(s, requests, tools);
    FramedSigning(s.files, t.files, Touched(requests), tools);
    var index := IndexOf(Documents(t.files));
    IndexFiled(Documents(t.files));
    forall n | Renders(IndexOf(Documents(s.files)), n) && Renders(index, n)
      ensures ReleaseFor(index, n, tools).fullnameOverride == ReleaseFor(IndexOf(Documents(s.files)), n, tools).fullnameOverride
    {
      FramedFullname(s.files, t.files, Touched(requests), n, tools);
    }
    forall m, n | m != n && Renders(index, m) && Renders(index, n)
                  && Signs(ReleaseFor(index, m, tools)) && Signs(ReleaseFor(index, n, tools))
      ensures var r, q := ReleaseFor(index, m, tools), ReleaseFor(index, n, tools);
              r.signing.Some? && q.signing.Some?
              && Lower(r.signing.value.publicKey) != Lower(q.signing.value.publicKey)
              && !SameUpToCase(r.signing.value.publicKey, q.signing.value.publicKey)
              && r.fullnameOverride != q.fullnameOverride
    {
      NoKeySignsTwice(index, m, n, tools);
    }
  }

  // ---- exactly when a request is accepted --------------------------------------------------

  /** SHA-256 digests are printed as 64 lower-case hexadecimal digits. */
  ghost predicate HexDigests(tools: Tools) {
    forall s :: |tools.sha256(s)| == 64
      && forall c | c in tools.sha256(s) :: '0' <= c <= '9' || 'a' <= c <= 'f'
  }

  /** A derived pair name is a valid resource name. */
  lemma DefaultPairShaped(validatorRef: string, tools: Tools)
    requires NameShaped(validatorRef) && HexDigests(tools)
    ensures NameShaped(DefaultNodePairRef(validatorRef, tools))
  {
    var candidate := "pair-" + validatorRef;
    forall c | c in candidate ensures IsNameChar(c) {
      assert c in "pair-" || c in validatorRef;
    }
    if |candidate| > 63 {
      var digest := tools.sha256(candidate);
      forall c | c in DefaultNodePairRef(validatorRef, tools) ensures IsNameChar(c) {
        assert c in candidate[..54] || c == '-' || c in digest[..8];
        assert c in digest[..8] ==> c in digest;
        assert c in candidate[..54] ==> c in candidate;
      }
    }
  }

  /** No other live assignment uses this validator or this node pair, and the customer stays. */
  ghost predicate RoomFor(index: Index, a: ValidatorAssignment, nodePair: string)
    requires Resolved(index) && a.validatorRef in index.identities
  {
    && (forall n | n in index.assignments && n != a.name && IsLive(index.assignments[n]) ::
          index.assignments[n].validatorRef != a.validatorRef
          && index.assignments[n].nodePairRef != Some(nodePair))
    && !Leaving(index.customers[index.identities[a.validatorRef].customerRef])
  }

  function WithAssignment(index: Index, a: ValidatorAssignment): Index {
    index.(assignments := index.assignments[a.name := a])
  }

  /** Bringing a non-signing assignment to life keeps a coherent catalog coherent exactly when there
      is room for it. */
  lemma CoherentWithLive(index: Index, a: ValidatorAssignment, b: ValidatorAssignment)
    requires index.Filed() && Coherent(index) && a.name in index.assignments && index.assignments[a.name] == a
    requires OnlyFieldsOfLifecycle(a, b) && !b.signingEnabled && IsLive(b) && Given(b.nodePairRef)
    ensures WithAssignment(index, b).Filed()
    ensures Coherent(WithAssignment(index, b)) <==> RoomFor(index, a, b.nodePairRef.value)
  {
    hide SoundNetwork;
    var after := WithAssignment(index, b);
    SameSigning(index, a, b);
    if Coherent(after) {
      forall n | n in index.assignments && n != a.name && IsLive(index.assignments[n])
        ensures index.assignments[n].validatorRef != a.validatorRef
        ensures index.assignments[n].nodePairRef != b.nodePairRef
      {
        assert after.assignments[n] == index.assignments[n] && after.assignments[a.name] == b;
      }
      assert IsLive(after.assignments[a.name]);
    }
    if RoomFor(index, a, b.nodePairRef.value) {
      LiveRulesAfter(index, a, b);
    }
  }

  ghost predicate OnlyFieldsOfLifecycle(a: ValidatorAssignment, b: ValidatorAssignment) {
    b == a.(lifecycle := b.lifecycle, nodePairRef := b.nodePairRef, safety := b.safety, maintenanceReason := b.maintenanceReason)
  }

  lemma SameReferences(index: Index, a: ValidatorAssignment, b: ValidatorAssignment)
    requires index.Filed() && Resolved(index) && a.name in index.assignments && index.assignments[a.name] == a
    requires OnlyFieldsOfLifecycle(a, b)
    ensures WithAssignment(index, b).Filed() && Resolved(WithAssignment(index, b))
  {
  }

  lemma SameMaySign(index: Index, a: ValidatorAssignment, b: ValidatorAssignment, n: string)
    requires index.Filed() && Resolved(index) && a.name in index.assignments && index.assignments[a.name] == a
    requires OnlyFieldsOfLifecycle(a, b) && n != a.name && n in index.assignments && MaySign(index, index.assignments[n])
    ensures WithAssignment(index, b).Filed() && Resolved(WithAssignment(index, b))
    ensures MaySign(WithAssignment(index, b), WithAssignment(index, b).assignments[n])
  {
    SameReferences(index, a, b);
    assert WithAssignment(index, b).assignments[n] == index.assignments[n];
  }

  /** References and signing gates do not look at the lifecycle fields. */
  lemma SameSigning(index: Index, a: ValidatorAssignment, b: ValidatorAssignment)
    requires index.Filed() && Coherent(index) && a.name in index.assignments && index.assignments[a.name] == a
    requires OnlyFieldsOfLifecycle(a, b) && !b.signingEnabled
    ensures var after := WithAssignment(index, b);
            after.Filed() && Resolved(after)
            && forall n | n in after.assignments && after.assignments[n].signingEnabled :: MaySign(after, after.assignments[n])
  {
    hide SoundNetwork, ExclusiveValidators, ExclusiveNodePairs, NoneLeavingLive, DistinctKeys, DistinctCustomerIds, Resolved,
      MaySign;
    SameReferences(index, a, b);
    var after := WithAssignment(index, b);
    forall n | n in after.assignments && after.assignments[n].signingEnabled ensures MaySign(after, after.assignments[n]) {
      assert n in index.assignments && after.assignments[n] == index.assignments[n];
      SameMaySign(index, a, b, n);
    }
  }

  lemma LiveRulesAfter(index: Index, a: ValidatorAssignment, b: ValidatorAssignment)
    requires index.Filed() && Coherent(index) && a.name in index.assignments && index.assignments[a.name] == a
    requires OnlyFieldsOfLifecycle(a, b) && !b.signingEnabled
    requires IsLive(b) ==> Given(b.nodePairRef) && RoomFor(index, a, b.nodePairRef.value)
    ensures var after := WithAssignment(index, b);
            Resolved(after) && ExclusiveValidators(after) && ExclusiveNodePairs(after) && NoneLeavingLive(after)
  {
    hide SoundNetwork, MaySign, DistinctKeys, DistinctCustomerIds;
  }

  /** Stopping an assignment cannot break a rule. */
  lemma CoherentWithStopped(index: Index, a: ValidatorAssignment, b: ValidatorAssignment)
    requires index.Filed() && Coherent(index) && a.name in index.assignments && index.assignments[a.name] == a
    requires OnlyFieldsOfLifecycle(a, b) && !b.signingEnabled && !IsLive(b)
    ensures WithAssignment(index, b).Filed() && Coherent(WithAssignment(index, b))
  {
    hide SoundNetwork;
    SameSigning(index, a, b);
    LiveRulesAfter(index, a, b);
  }

  lemma RendersAfter(index: Index, a: ValidatorAssignment, b: ValidatorAssignment)
    requires AllRender(index) && a.name in index.assignments && index.assignments[a.name] == a
    requires OnlyFieldsOfLifecycle(a, b) && !b.signingEnabled && (b.lifecycle == Active ==> Given(b.nodePairRef))
    ensures AllRender(WithAssignment(index, b))
  {
  }

  /** Changing one assignment of a sound catalog leaves it sound exactly when the changed document
      is valid and the changed index coherent. */
  lemma SoundAfter(files: seq<File>, i: nat, b: ValidatorAssignment)
    requires Sound(files) && i < |files| && files[i].document.AssignmentDocument?
    requires OnlyFieldsOfLifecycle(files[i].document.assignment, b) && !b.signingEnabled
    requires (b.lifecycle == Active ==> Given(b.nodePairRef)) && AssignmentValid(b)
    ensures WithAssignment(IndexOf(Documents(files)), b).Filed()
    ensures Sound(Replaced(files, i, b)) <==> Coherent(WithAssignment(IndexOf(Documents(files)), b))
  {
    hide AllRender, Coherent, AssignmentValid, IdentityValid, NetworkValid, ServiceValid;
    var documents := Documents(files);
    var index, a := IndexOf(documents), files[i].document.assignment;
    ReplacedDocuments(files, i, b);
    ReplacedUnique(documents, i, AssignmentDocument(b));
    ReplacedIndex(documents, i, b);
    IndexFiled(documents);
    IndexFiled(documents[i := AssignmentDocument(b)]);
    assert documents[i] in documents;
    IndexHolds(documents, AssignmentDocument(a));
    RendersAfter(index, a, b);
  }

  /** The index entry of the assignment in file i. */
  lemma FileIsIndexed(files: seq<File>, i: nat)
    requires Sound(files) && i < |files| && files[i].document.AssignmentDocument?
    ensures var a, index := files[i].document.assignment, IndexOf(Documents(files));
            index.Filed() && Coherent(index) && Resolved(index)
            && a.name in index.assignments && index.assignments[a.name] == a && AssignmentValid(a)
  {
    var documents := Documents(files);
    IndexFiled(documents);
    assert documents[i] in documents;
    IndexHolds(documents, documents[i]);
    assert Valid(files[i].document);
  }

  /** Activation is accepted exactly of a stopped, non-signing assignment, for a reason of 3 to 256 characters
      when trimmed, when no other live assignment uses its validator or its effective node pair and its customer
      is not leaving. */
  lemma ActivationAcceptedIff(files: seq<File>, i: nat, reason: string, tools: Tools)
    requires Sound(files) && HexDigests(tools)
    requires i < |files| && files[i].document.AssignmentDocument?
    requires Located(files, files[i].document.assignment.name, i)
    ensures var a, index := files[i].document.assignment, IndexOf(Documents(files));
            && Resolved(index) && a.validatorRef in index.identities
            && (Accepts(files, Request(a.name, Activate, reason), tools) <==>
                  && 3 <= |Strip(reason)| <= 256 && a.lifecycle == Stopped && !a.signingEnabled
                  && RoomFor(index, a, EffectiveNodePair(a, tools)))
  {
    hide Coherent, RoomFor, Sound, HexDigests, Strip;
    var a, index := files[i].document.assignment, IndexOf(Documents(files));
    FileIsIndexed(files, i);
    AcceptedAt(files, i, Activate, reason, tools);
    if MayTransition(a, Activate, reason) {
      DefaultPairShaped(a.validatorRef, tools);
      var b := Transitioned(a, Activate, reason, tools);
      assert b.nodePairRef == Some(EffectiveNodePair(a, tools));
      SoundAfter(files, i, b);
      CoherentWithLive(index, a, b);
    }
  }

  /** Stopping is accepted exactly of an active, non-signing assignment, for a reason of that length; room is
      not needed. */
  lemma StopAcceptedIff(files: seq<File>, i: nat, reason: string, tools: Tools)
    requires Sound(files)
    requires i < |files| && files[i].document.AssignmentDocument?
    requires Located(files, files[i].document.assignment.name, i)
    ensures var a := files[i].document.assignment;
            Accepts(files, Request(a.name, Stop, reason), tools) <==>
              3 <= |Strip(reason)| <= 256 && a.lifecycle == Active && !a.signingEnabled
  {
    hide Coherent, Sound, Strip, NameShaped;
    var a, index := files[i].document.assignment, IndexOf(Documents(files));
    FileIsIndexed(files, i);
    AcceptedAt(files, i, Stop, reason, tools);
    if MayTransition(a, Stop, reason) {
      var b := Transitioned(a, Stop, reason, tools);
      SoundAfter(files, i, b);
      CoherentWithStopped(index, a, b);
    }
  }

  /** A request for the one file that holds its assignment. */
  lemma AcceptedAt(files: seq<File>, i: nat, action: Action, reason: string, tools: Tools)
    requires i < |files| && files[i].document.AssignmentDocument?
    requires Located(files, files[i].document.assignment.name, i)
    ensures var a := files[i].document.assignment;
            Accepts(files, Request(a.name, action, reason), tools) <==>
              && NameShaped(a.name) && MayTransition(a, action, reason)
              && Sound(Replaced(files, i, Transitioned(a, action, reason, tools)))
  {
    hide MayTransition, Sound, NameShaped, Matches, Transitioned;
    AcceptsOnly(files, Request(files[i].document.assignment.name, action, reason), tools);
  }

  /** Stopping an active, non-signing assignment of a sound catalog is always accepted. */
  lemma StopAlwaysAccepted(files: seq<File>, i: nat, reason: string, tools: Tools)
    requires Sound(files) && ReasonFits(reason)
    requires i < |files| && files[i].document.AssignmentDocument?
    requires Located(files, files[i].document.assignment.name, i)
    requires files[i].document.assignment.lifecycle == Active && !files[i].document.assignment.signingEnabled
    ensures Accepts(files, Request(files[i].document.assignment.name, Stop, reason), tools)
  {
    hide Sound, Strip, Located, Accepts;
    StopAcceptedIff(files, i, reason, tools);
  }

  // ---- what an accepted request leaves -----------------------------------------------------

  lemma StepReplaces(s: State, r: Request, i: nat, tools: Tools)
    requires AcceptsAt(s.files, r, i, tools)
    ensures i < |s.files| && s.files[i].document.AssignmentDocument? && s.files[i].document.assignment.name == r.assignment
    ensures MayTransition(s.files[i].document.assignment, r.action, r.reason)
    ensures var files := Step(s, r, tools).files;
            && files == Replaced(s.files, i, Transitioned(s.files[i].document.assignment, r.action, r.reason, tools))
            && Sound(files)
  {
    hide Sound, MayTransition, NameShaped, Step;
    StepTaken(s, r, i, tools);
  }

  /** What a transition asks for, and what it makes of the assignment. */
  lemma TransitionMeans(a: ValidatorAssignment, r: Request, tools: Tools)
    requires MayTransition(a, r.action, r.reason)
    ensures !a.signingEnabled && 3 <= |Strip(r.reason)| <= 256
    ensures a.lifecycle == if r.action == Activate then Stopped else Active
    ensures var b := Transitioned(a, r.action, r.reason, tools);
            && b.name == a.name && b.lifecycle == (if r.action == Activate then Active else Stopped)
            && (b.nodePairRef.Some? && b.nodePairRef.value != "" && r.action == Activate ==>
                  b.nodePairRef == Some(EffectiveNodePair(a, tools)))
            && b == a.(lifecycle := b.lifecycle, nodePairRef := if r.action == Activate then b.nodePairRef else a.nodePairRef,
                       safety := Safety(false, false), maintenanceReason := Some(Strip(r.reason)))
            && EffectiveNodePair(b, tools) == EffectiveNodePair(a, tools)
  {
    hide DefaultNodePairRef, Strip;
  }

  lemma ReleaseOfFile(files: seq<File>, i: nat, tools: Tools)
    requires Sound(files) && i < |files| && files[i].document.AssignmentDocument?
    ensures var a, index := files[i].document.assignment, IndexOf(Documents(files));
            && Renders(index, a.name)
            && (a.lifecycle == Active ==> a.nodePairRef.Some? && a.nodePairRef.value != "")
            && (a.lifecycle == Active ==> ReleaseFor(index, a.name, tools).lifecycleState == ChartActive)
            && (a.lifecycle == Stopped ==> ReleaseFor(index, a.name, tools).lifecycleState == ChartStopped)
            && ReleaseFor(index, a.name, tools).fullnameOverride == EffectiveNodePair(a, tools)
  {
    hide Renders, ReleaseFor, EffectiveNodePair, Coherent, Consistent;
    FileIsIndexed(files, i);
    ReleaseSays(IndexOf(Documents(files)), files[i].document.assignment.name, tools);
  }

  /** An accepted activation was of a stopped assignment that does not sign, and leaves it active: with a
      node pair recorded, the confirmations withdrawn, the reason trimmed, and an active release. */
  lemma ActivationTakesEffect(s: State, r: Request, i: nat, tools: Tools)
    requires AcceptsAt(s.files, r, i, tools) && r.action == Activate
    ensures s.files[i].document.AssignmentDocument?
    ensures var a := s.files[i].document.assignment;
            var t := Step(s, r, tools);
            var index := IndexOf(Documents(t.files));
            && a.name == r.assignment && a.lifecycle == Stopped && !a.signingEnabled && 3 <= |Strip(r.reason)| <= 256
            && t.files == s.files[i := File(s.files[i].path, AssignmentDocument(a.(
                 lifecycle := Active, nodePairRef := Some(EffectiveNodePair(a, tools)), safety := Safety(false, false),
                 maintenanceReason := Some(Strip(r.reason)))))]
            && Renders(index, a.name)
            && ReleaseFor(index, a.name, tools).lifecycleState == ChartActive
            && ReleaseFor(index, a.name, tools).fullnameOverride == EffectiveNodePair(a, tools)
  {
    hide Sound, Step, Renders, ReleaseFor, EffectiveNodePair, Located, MayTransition, IndexOf;
    StepReplaces(s, r, i, tools);
    TransitionMeans(s.files[i].document.assignment, r, tools);
    ReleaseOfFile(Step(s, r, tools).files, i, tools);
  }

  /** An accepted stop was of an active assignment that does not sign, and leaves it stopped. */
  lemma StopTakesEffect(s: State, r: Request, i: nat, tools: Tools)
    requires AcceptsAt(s.files, r, i, tools) && r.action == Stop
    ensures s.files[i].document.AssignmentDocument?
    ensures var a := s.files[i].document.assignment;
            var t := Step(s, r, tools);
            var index := IndexOf(Documents(t.files));
            && a.name == r.assignment && a.lifecycle == Active && !a.signingEnabled && 3 <= |Strip(r.reason)| <= 256
            && t.files == s.files[i := File(s.files[i].path, AssignmentDocument(a.(
                 lifecycle := Stopped, safety := Safety(false, false), maintenanceReason := Some(Strip(r.reason)))))]
            && Renders(index, a.name)
            && ReleaseFor(index, a.name, tools).lifecycleState == ChartStopped
            && ReleaseFor(index, a.name, tools).fullnameOverride == EffectiveNodePair(a, tools)
  {
    hide Sound, Step, Renders, ReleaseFor, EffectiveNodePair, Located, MayTransition, IndexOf;
    StepReplaces(s, r, i, tools);
    TransitionMeans(s.files[i].document.assignment, r, tools);
    ReleaseOfFile(Step(s, r, tools).files, i, tools);
  }

  // ---- an activation undone ----------------------------------------------------------------

  /** Replacing a document that stays under its name keeps the file the only match. */
  lemma StillLocated(files: seq<File>, name: string, i: nat, b: ValidatorAssignment)
    requires Located(files, name, i) && b.name == name
    ensures Located(Replaced(files, i, b), name, i)
  {
    hide InAssignmentDirectory;
    forall j | 0 <= j < |files| && j != i ensures !Matches(Replaced(files, i, b), name, j) {
      assert !Matches(files, name, j);
    }
  }

  /** What an assignment is after it was activated and stopped again: the node pair it was given is
      kept, its confirmations are withdrawn, and the last reason, trimmed, is recorded. */
  function Undone(a: ValidatorAssignment, down: string, tools: Tools): ValidatorAssignment {
    a.(nodePairRef := Some(EffectiveNodePair(a, tools)), safety := Safety(false, false), maintenanceReason := Some(Strip(down)))
  }

  lemma UndoneRelease(index: Index, a: ValidatorAssignment, down: string, n: string, tools: Tools)
    requires index.Filed() && Renders(index, n) && a.name in index.assignments && index.assignments[a.name] == a
    requires a.lifecycle == Stopped && !a.signingEnabled && NameShaped(DefaultNodePairRef(a.validatorRef, tools))
    ensures var after := WithAssignment(index, Undone(a, down, tools));
            && Renders(after, n)
            && ReleaseFor(after, n, tools)
               == if n == a.name then ReleaseFor(index, n, tools).(slashingProtectionConfirmed := false)
                  else ReleaseFor(index, n, tools)
  {
    hide Hosts, ReadyToSign, NetworkValuesFor, DefaultNodePairRef;
  }

  /** An accepted activation is accepted only once, and the stop that undoes it is accepted at once.
      Together they leave a synchronised catalog with every file as it was except for the assignment's
      node pair, confirmations and reason, and every release as it was except for its confirmation. */
  lemma ActivationCanBeUndone(s: State, i: nat, up: string, down: string, tools: Tools)
    requires Sound(s.files) && HexDigests(tools) && ReasonFits(down)
    requires i < |s.files| && s.files[i].document.AssignmentDocument?
    requires AcceptsAt(s.files, Request(s.files[i].document.assignment.name, Activate, up), i, tools)
    ensures var a := s.files[i].document.assignment;
            var activate, stop := Request(a.name, Activate, up), Request(a.name, Stop, down);
            var t := Run(s, [activate, stop], tools);
            && Run(s, [activate, activate], tools) == Run(s, [activate], tools)
            && InSync(t, tools)
            && t.files == Replaced(s.files, i, Undone(a, down, tools))
            && forall n | Renders(IndexOf(Documents(s.files)), n) ::
                 Renders(IndexOf(Documents(t.files)), n)
                 && ReleaseFor(IndexOf(Documents(t.files)), n, tools)
                    == if n == a.name then ReleaseFor(IndexOf(Documents(s.files)), n, tools).(slashingProtectionConfirmed := false)
                       else ReleaseFor(IndexOf(Documents(s.files)), n, tools)
  {
    hide Sound, HexDigests, InSync, Renders, ReleaseFor, Step, Run, Located, Coherent, Resolved, IndexOf, DefaultNodePairRef;
    var a := s.files[i].document.assignment;
    var activate, stop := Request(a.name, Activate, up), Request(a.name, Stop, down);
    FileIsIndexed(s.files, i);
    DefaultPairShaped(a.validatorRef, tools);
    UndoneFiles(s, i, up, down, tools);
    UndoneIndex(s.files, i, down, tools);
    forall n | Renders(IndexOf(Documents(s.files)), n) {
      UndoneRelease(IndexOf(Documents(s.files)), a, down, n, tools);
    }
  }

  lemma TwoRequests(s: State, r: Request, q: Request, tools: Tools)
    ensures Run(s, [r], tools) == Step(s, r, tools)
    ensures Run(s, [r, q], tools) == Step(Step(s, r, tools), q, tools)
  {
    hide Step;
    assert [r, q][..1] == [r] && [r][..0] == [];
  }

  lemma StateActivated(s: State, i: nat, up: string, tools: Tools)
    requires i < |s.files| && s.files[i].document.AssignmentDocument?
    requires AcceptsAt(s.files, Request(s.files[i].document.assignment.name, Activate, up), i, tools)
    ensures var a := s.files[i].document.assignment;
            var t := Step(s, Request(a.name, Activate, up), tools);
            && t.files == Replaced(s.files, i, Transitioned(a, Activate, up, tools)) && Sound(t.files)
            && Located(t.files, a.name, i)
            && Step(t, Request(a.name, Activate, up), tools) == t
  {
    hide Sound, OnlyMatch, Step, NameShaped;
    var a := s.files[i].document.assignment;
    var activate := Request(a.name, Activate, up);
    StepReplaces(s, activate, i, tools);
    var t := Step(s, activate, tools);
    StillLocated(s.files, a.name, i, Transitioned(a, Activate, up, tools));
    AcceptsOnly(t.files, activate, tools);
    StepFrame(t, activate, tools);
  }

  lemma StateStopped(s: State, i: nat, down: string, tools: Tools)
    requires i < |s.files| && s.files[i].document.AssignmentDocument?
    requires MayTransition(s.files[i].document.assignment, Stop, down)
    requires Located(s.files, s.files[i].document.assignment.name, i) && Sound(s.files)
    ensures var a := s.files[i].document.assignment;
            var t := Step(s, Request(a.name, Stop, down), tools);
            InSync(t, tools) && t.files == Replaced(s.files, i, Transitioned(a, Stop, down, tools))
  {
    hide Sound, OnlyMatch, Step, NameShaped, InSync;
    var stop := Request(s.files[i].document.assignment.name, Stop, down);
    StopAlwaysAccepted(s.files, i, down, tools);
    AcceptsOnly(s.files, stop, tools);
    StepTaken(s, stop, i, tools);
    StepInSync(s, stop, tools);
  }

  lemma UndoneFiles(s: State, i: nat, up: string, down: string, tools: Tools)
    requires Sound(s.files) && ReasonFits(down)
    requires i < |s.files| && s.files[i].document.AssignmentDocument?
    requires AcceptsAt(s.files, Request(s.files[i].document.assignment.name, Activate, up), i, tools)
    ensures var a := s.files[i].document.assignment;
            var activate, stop := Request(a.name, Activate, up), Request(a.name, Stop, down);
            var t := Run(s, [activate, stop], tools);
            && Run(s, [activate, activate], tools) == Run(s, [activate], tools)
            && InSync(t, tools)
            && t.files == Replaced(s.files, i, Undone(a, down, tools))
  {
    hide Sound, InSync, Step, Run, Located, DefaultNodePairRef;
    var a := s.files[i].document.assignment;
    var activate, stop := Request(a.name, Activate, up), Request(a.name, Stop, down);
    TwoRequests(s, activate, stop, tools);
    TwoRequests(s, activate, activate, tools);
    StateActivated(s, i, up, tools);
    StateStopped(Step(s, activate, tools), i, down, tools);
    FileIsIndexed(s.files, i);
  }

  lemma UndoneIndex(files: seq<File>, i: nat, down: string, tools: Tools)
    requires Sound(files) && i < |files| && files[i].document.AssignmentDocument?
    ensures var b := Undone(files[i].document.assignment, down, tools);
            IndexOf(Documents(Replaced(files, i, b))) == WithAssignment(IndexOf(Documents(files)), b)
  {
    hide Valid, AllRender, Coherent;
    var b := Undone(files[i].document.assignment, down, tools);
    ReplacedDocuments(files, i, b);
    ReplacedIndex(Documents(files), i, b);
  }
}
