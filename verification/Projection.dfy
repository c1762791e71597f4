/** The compiler of tools/render_local_assignments.py: one Helm release for each assignment, the
    generated files, and the directory that holds them. */
module Projection {
  import opened Catalog
  import opened Json
  import opened Ordering
  import opened Text

  /** Hashing and YAML printing are not modelled: any functions will do. */
  datatype Tools = Tools(sha256: string -> string, yaml: Generated -> string)

  const SUPPORTED_EXECUTION_CLIENTS: set<string> := {"geth", "reth", "erigon", "besu", "nethermind"}
  const SUPPORTED_CONSENSUS_CLIENTS: set<string> := {"lighthouse", "teku", "nimbus", "prysm"}

  predicate ExecutionSupported(client: string) {
    client in SUPPORTED_EXECUTION_CLIENTS
  }

  predicate ConsensusSupported(client: string) {
    client in SUPPORTED_CONSENSUS_CLIENTS
  }

  // ---- names and fingerprints --------------------------------------------------------------

  /** The immutable part of a profile, as the document that is hashed. */
  function FingerprintPayload(p: NetworkProfile): string {
    Dumps(Obj(map[
      "family" := Str(p.family),
      "generation" := Str(p.generation),
      "identity" := p.identity,
      "artifactSha256" := if p.artifactBundle.Some? then Str(p.artifactBundle.value.sha256) else Null]))
  }

  function Fingerprint(p: NetworkProfile, tools: Tools): string {
    tools.sha256(FingerprintPayload(p))
  }

  function ArtifactSha256(p: NetworkProfile): Option<string> {
    if p.artifactBundle.Some? then Some(p.artifactBundle.value.sha256) else None
  }

  /** Two profiles are hashed from the same text exactly when they agree on family, generation,
      identity and artifact digest; checkpoint endpoints and everything else do not matter. */
  lemma FingerprintPayloadIff(p: NetworkProfile, q: NetworkProfile)
    ensures FingerprintPayload(p) == FingerprintPayload(q) <==>
            && p.family == q.family && p.generation == q.generation
            && p.identity == q.identity && ArtifactSha256(p) == ArtifactSha256(q)
  {
    var a := map[
      "family" := Str(p.family),
      "generation" := Str(p.generation),
      "identity" := p.identity,
      "artifactSha256" := if p.artifactBundle.Some? then Str(p.artifactBundle.value.sha256) else Null];
    var b := map[
      "family" := Str(q.family),
      "generation" := Str(q.generation),
      "identity" := q.identity,
      "artifactSha256" := if q.artifactBundle.Some? then Str(q.artifactBundle.value.sha256) else Null];
    DumpsInjective(Obj(a), Obj(b));
    if a == b {
      assert a["family"] == b["family"] && a["generation"] == b["generation"];
      assert a["identity"] == b["identity"] && a["artifactSha256"] == b["artifactSha256"];
    }
  }

  /** The hashed text: four members in the order of their names. */
  lemma FingerprintText(p: NetworkProfile)
    ensures FingerprintPayload(p) ==
            "{" + (Named("artifactSha256", if p.artifactBundle.Some? then Str(p.artifactBundle.value.sha256) else Null) + ","
                   + Named("family", Str(p.family)) + "," + Named("generation", Str(p.generation)) + ","
                   + Named("identity", p.identity) + "}")
  {
    var j := Obj(map[
      "family" := Str(p.family),
      "generation" := Str(p.generation),
      "identity" := p.identity,
      "artifactSha256" := if p.artifactBundle.Some? then Str(p.artifactBundle.value.sha256) else Null]);
    var keys := ["artifactSha256", "family", "generation", "identity"];
    hide Dumps;
    assert Ascending(keys, TextLe) by { KeysAscend(); }
    KeysAre(j.fields, keys);
    MembersOfFour(j, keys[0], keys[1], keys[2], keys[3]);
  }

  /** A name and its value, as members of an object are written. */
  function Named(name: string, value: Json): string {
    Dumps(Str(name)) + ":" + Dumps(value)
  }

  lemma KeysAscend()
    ensures Ascending(["artifactSha256", "family", "generation", "identity"], TextLe)
  {
    var keys := ["artifactSha256", "family", "generation", "identity"];
    assert keys[1..] == ["family", "generation", "identity"] && keys[1..][1..] == ["generation", "identity"];
    assert keys[1..][1..][1..] == ["identity"] && keys[1..][1..][1..][1..] == [];
    assert keys[0][0] < 'b' && keys[1][0] == 'f' && keys[2][0] == 'g' && keys[3][0] == 'i';
  }

  /** With a hash that does not confuse these two texts, equal fingerprints mean the same chain. */
  lemma FingerprintIdentifiesChain(p: NetworkProfile, q: NetworkProfile, tools: Tools)
    requires tools.sha256(FingerprintPayload(p)) == tools.sha256(FingerprintPayload(q))
             ==> FingerprintPayload(p) == FingerprintPayload(q)
    ensures Fingerprint(p, tools) == Fingerprint(q, tools) <==>
            && p.family == q.family && p.generation == q.generation
            && p.identity == q.identity && ArtifactSha256(p) == ArtifactSha256(q)
  {
    FingerprintPayloadIff(p, q);
  }

  function DefaultNodePairRef(validatorRef: string, tools: Tools): string {
    var candidate := "pair-" + validatorRef;
    if |candidate| <= 63 then candidate
    else candidate[..54] + "-" + Take(tools.sha256(candidate), 8)
  }

  /** Names of up to 58 characters are kept; of a longer one the first 49 are, with eight characters of a digest. */
  lemma DefaultPairMeans(validatorRef: string, tools: Tools)
    ensures |validatorRef| <= 58 ==> DefaultNodePairRef(validatorRef, tools) == "pair-" + validatorRef
    ensures var digest := tools.sha256("pair-" + validatorRef);
            |validatorRef| > 58 && |digest| >= 8
            ==> DefaultNodePairRef(validatorRef, tools) == "pair-" + validatorRef[..49] + "-" + digest[..8]
  {
    assert |validatorRef| > 58 ==> ("pair-" + validatorRef)[..54] == "pair-" + validatorRef[..49];
  }

  /** The resource name of an assignment's node pair, whether or not the catalog records it yet. */
  function EffectiveNodePair(a: ValidatorAssignment, tools: Tools): string {
    if Given(a.nodePairRef) then a.nodePairRef.value else DefaultNodePairRef(a.validatorRef, tools)
  }

  datatype ChartLifecycle = ChartActive | ChartArchived | ChartStopped

  function ChartLifecycleOf(lifecycle: Lifecycle): ChartLifecycle {
    if lifecycle == Active then ChartActive
    else if lifecycle == Archived then ChartArchived
    else ChartStopped
  }

  // ---- releases ----------------------------------------------------------------------------

  datatype NetworkValues = NetworkValues(
    name: string,
    family: string,
    generation: string,
    resetPolicy: ResetPolicy,
    identityFingerprint: string,
    identity: Json,
    clients: map<string, Adapter>,
    signer: Adapter,
    artifactBundle: Option<ArtifactBundle>,
    checkpointSync: Option<Checkpoint>)

  datatype SigningValues = SigningValues(publicKey: string, feeRecipient: string, networkConfigMapName: string)

  datatype Release = Release(
    name: string,
    disableWait: bool,
    fullnameOverride: string,
    lifecycleState: ChartLifecycle,
    networkProfile: NetworkValues,
    executionClient: string,
    consensusClient: string,
    customerId: string,
    validatorId: string,
    assignmentId: string,
    validatorEnabled: bool,
    slashingProtectionConfirmed: bool,
    signing: Option<SigningValues>)

  datatype Generated = ReleaseFile(release: Release) | Kustomization(resources: seq<string>)

  /** Reasons for refusing to render. The last two stand for the KeyError of a missing entry. */
  datatype Refusal =
    | NoSuchAssignment | NoSuchValidator | NoSuchService | NoSuchNetwork
    | ExecutionNotSupported | ConsensusNotSupported | NetworkMismatch
    | SyntheticSigner | UnregisteredSigner | NoPublicKey | NoSigningSecret | NoFeeRecipient
    | SafetyNotConfirmed | SignerNotQualified
    | NoExecutionAdapter | ModesDiffer | ArtifactWithoutReplaceData | ArtifactWithoutCheckpoint
    | ModeNotSupported | NoSuchCustomer | ActiveWithoutNodePair
    | EmptyCatalog | DuplicateDocument
    | NoLighthouseAdapter | NoArtifactBundle

  ghost predicate ReferencesResolve(index: Index, name: string) {
    name in index.assignments
    && var a := index.assignments[name];
       && a.validatorRef in index.identities
       && a.serviceProfileRef in index.services
       && a.networkProfileRef in index.networks
  }

  ghost predicate ReadyToSign(a: ValidatorAssignment, i: ValidatorIdentity, p: NetworkProfile) {
    && !i.synthetic && i.lifecycle == Registered
    && Given(i.publicKey) && Given(i.signingSecretRef) && Given(a.feeRecipient)
    && a.safety.slashingProtectionConfirmed && a.safety.doppelgangerProtectionConfirmed
    && p.signer.signingQualified
  }

  /** The network profile can host the chosen execution client. */
  ghost predicate Hosts(p: NetworkProfile, execution: string) {
    && execution in p.clients && "lighthouse" in p.clients
    && (forall c | c in p.clients :: p.clients[c].mode == p.clients[execution].mode)
    && p.clients[execution].mode in {"builtin", "artifact-bundle"}
    && (p.clients[execution].mode == "artifact-bundle" ==>
          p.resetPolicy == ReplaceData && p.checkpointSync.Some? && p.artifactBundle.Some?)
  }

  /** The assignment can be rendered. */
  ghost predicate Renders(index: Index, name: string) {
    ReferencesResolve(index, name)
    && var a := index.assignments[name];
       var i := index.identities[a.validatorRef];
       var s := index.services[a.serviceProfileRef];
       var p := index.networks[a.networkProfileRef];
       && ExecutionSupported(s.executionClient)
       && ConsensusSupported(s.consensusClient)
       && i.networkProfileRef == a.networkProfileRef
       && (a.signingEnabled ==> ReadyToSign(a, i, p))
       && Hosts(p, s.executionClient)
       && i.customerRef in index.customers
       && (a.lifecycle == Active ==> Given(a.nodePairRef))
  }

  ghost predicate Unresolved(index: Index, name: string, why: Refusal) {
    match why
    case NoSuchAssignment => name !in index.assignments
    case NoSuchValidator => name in index.assignments && index.assignments[name].validatorRef !in index.identities
    case NoSuchService => name in index.assignments && index.assignments[name].serviceProfileRef !in index.services
    case NoSuchNetwork => name in index.assignments && index.assignments[name].networkProfileRef !in index.networks
    case _ => false
  }

  ghost predicate SigningObjection(a: ValidatorAssignment, i: ValidatorIdentity, p: NetworkProfile, why: Refusal) {
    match why
    case SyntheticSigner => i.synthetic
    case UnregisteredSigner => i.lifecycle != Registered
    case NoPublicKey => !Given(i.publicKey)
    case NoSigningSecret => !Given(i.signingSecretRef)
    case NoFeeRecipient => !Given(a.feeRecipient)
    case SafetyNotConfirmed => !(a.safety.slashingProtectionConfirmed && a.safety.doppelgangerProtectionConfirmed)
    case SignerNotQualified => !p.signer.signingQualified
    case _ => false
  }

  ghost predicate NetworkObjection(p: NetworkProfile, execution: string, why: Refusal) {
    match why
    case NoExecutionAdapter => execution !in p.clients
    case NoLighthouseAdapter => "lighthouse" !in p.clients
    case ModesDiffer =>
      execution in p.clients && exists c :: c in p.clients && p.clients[c].mode != p.clients[execution].mode
    case ArtifactWithoutReplaceData => ArtifactMode(p, execution) && p.resetPolicy != ReplaceData
    case ArtifactWithoutCheckpoint => ArtifactMode(p, execution) && p.checkpointSync.None?
    case NoArtifactBundle => ArtifactMode(p, execution) && p.artifactBundle.None?
    case ModeNotSupported => execution in p.clients && p.clients[execution].mode !in {"builtin", "artifact-bundle"}
    case _ => false
  }

  /** The reason given for a refusal is a true one. */
  ghost predicate Justified(index: Index, name: string, why: Refusal) {
    if !ReferencesResolve(index, name) then Unresolved(index, name, why)
    else
      var a := index.assignments[name];
      var i := index.identities[a.validatorRef];
      var s := index.services[a.serviceProfileRef];
      var p := index.networks[a.networkProfileRef];
      || (a.signingEnabled && SigningObjection(a, i, p, why))
      || NetworkObjection(p, s.executionClient, why)
      || match why
         case ExecutionNotSupported => !ExecutionSupported(s.executionClient)
         case ConsensusNotSupported => !ConsensusSupported(s.consensusClient)
         case NetworkMismatch => i.networkProfileRef != a.networkProfileRef
         case NoSuchCustomer => i.customerRef !in index.customers
         case ActiveWithoutNodePair => a.lifecycle == Active && !Given(a.nodePairRef)
         case _ => false
  }

  predicate ArtifactMode(p: NetworkProfile, execution: string) {
    execution in p.clients && p.clients[execution].mode == "artifact-bundle"
  }

  /** Artifact-mode releases null out the network selector the chart would otherwise supply. */
  function RuntimeAdapter(adapter: Adapter, artifactMode: bool): Adapter {
    if artifactMode then adapter.(network := NullValue) else adapter
  }

  function RuntimeClients(p: NetworkProfile, execution: string): map<string, Adapter> {
    map c | c in p.clients :: RuntimeAdapter(p.clients[c], ArtifactMode(p, execution))
  }

  function NetworkValuesFor(p: NetworkProfile, execution: string, tools: Tools): NetworkValues {
    NetworkValues(
      p.name, p.family, p.generation, p.resetPolicy, Fingerprint(p, tools), p.identity,
      RuntimeClients(p, execution),
      RuntimeAdapter(p.signer, p.signer.mode == "artifact-bundle"),
      if ArtifactMode(p, execution) then p.artifactBundle else None,
      if ArtifactMode(p, execution) then p.checkpointSync else None)
  }

  /** The release of an assignment that renders. */
  ghost function ReleaseFor(index: Index, name: string, tools: Tools): Release
    requires Renders(index, name)
  {
    var a := index.assignments[name];
    var i := index.identities[a.validatorRef];
    var s := index.services[a.serviceProfileRef];
    var p := index.networks[a.networkProfileRef];
    Release(
      name,
      a.lifecycle != Active,
      EffectiveNodePair(a, tools),
      ChartLifecycleOf(a.lifecycle),
      NetworkValuesFor(p, s.executionClient, tools).(name := a.networkProfileRef),
      s.executionClient,
      s.consensusClient,
      i.customerRef,
      a.validatorRef,
      name,
      a.signingEnabled,
      a.safety.slashingProtectionConfirmed,
      if a.signingEnabled
      then Some(SigningValues(i.publicKey.value, a.feeRecipient.value, "web3signer-network-config-" + a.networkProfileRef))
      else None)
  }

  method CheckModes(p: NetworkProfile, execution: string) returns (agree: bool)
    requires execution in p.clients
    ensures agree <==> forall c | c in p.clients :: p.clients[c].mode == p.clients[execution].mode
  {
    var todo := p.clients.Keys;
    while todo != {}
      invariant todo <= p.clients.Keys
      invariant forall c | c in p.clients && c !in todo :: p.clients[c].mode == p.clients[execution].mode
      decreases |todo|
    {
      var other :| other in todo;
      todo := todo - {other};
      if p.clients[other].mode != p.clients[execution].mode {
        return false;
      }
    }
    return true;
  }

  method BuildClients(p: NetworkProfile, execution: string) returns (clients: map<string, Adapter>)
    ensures clients == RuntimeClients(p, execution)
  {
    clients := map[];
    var todo := p.clients.Keys;
    while todo != {}
      invariant todo <= p.clients.Keys
      invariant clients.Keys == p.clients.Keys - todo
      invariant forall c | c in clients :: clients[c] == RuntimeAdapter(p.clients[c], ArtifactMode(p, execution))
      decreases |todo|
    {
      var client :| client in todo;
      todo := todo - {client};
      var adapter := p.clients[client];
      if ArtifactMode(p, execution) {
        adapter := adapter.(network := NullValue);
      }
      clients := clients[client := adapter];
    }
  }

  method CheckSigning(a: ValidatorAssignment, i: ValidatorIdentity, p: NetworkProfile) returns (objection: Option<Refusal>)
    ensures objection.None? <==> ReadyToSign(a, i, p)
    ensures objection.Some? ==> SigningObjection(a, i, p, objection.value)
  {
    if i.synthetic { return Some(SyntheticSigner); }
    if i.lifecycle != Registered { return Some(UnregisteredSigner); }
    if !Given(i.publicKey) { return Some(NoPublicKey); }
    if !Given(i.signingSecretRef) { return Some(NoSigningSecret); }
    if !Given(a.feeRecipient) { return Some(NoFeeRecipient); }
    if !(a.safety.slashingProtectionConfirmed && a.safety.doppelgangerProtectionConfirmed) {
      return Some(SafetyNotConfirmed);
    }
    if !p.signer.signingQualified { return Some(SignerNotQualified); }
    return None;
  }

  method CheckNetwork(p: NetworkProfile, execution: string) returns (objection: Option<Refusal>)
    ensures objection.None? <==> Hosts(p, execution)
    ensures objection.Some? ==> NetworkObjection(p, execution, objection.value)
  {
    if execution !in p.clients { return Some(NoExecutionAdapter); }
    if "lighthouse" !in p.clients { return Some(NoLighthouseAdapter); }
    var agree := CheckModes(p, execution);
    if !agree { return Some(ModesDiffer); }
    var mode := p.clients[execution].mode;
    if mode == "artifact-bundle" && p.resetPolicy != ReplaceData { return Some(ArtifactWithoutReplaceData); }
    if mode == "artifact-bundle" && p.checkpointSync.None? { return Some(ArtifactWithoutCheckpoint); }
    if mode !in {"builtin", "artifact-bundle"} { return Some(ModeNotSupported); }
    if mode == "artifact-bundle" && p.artifactBundle.None? { return Some(NoArtifactBundle); }
    return None;
  }

  method BuildNetworkValues(p: NetworkProfile, name: string, execution: string, tools: Tools) returns (network: NetworkValues)
    requires execution in p.clients
    ensures network == NetworkValuesFor(p, execution, tools).(name := name)
  {
    hide Fingerprint;
    var clients := BuildClients(p, execution);
    network := NetworkValues(
      name, p.family, p.generation, p.resetPolicy, Fingerprint(p, tools), p.identity, clients, p.signer, None, None);
    if network.signer.mode == "artifact-bundle" {
      network := network.(signer := network.signer.(network := NullValue));
    }
    if p.clients[execution].mode == "artifact-bundle" {
      network := network.(artifactBundle := p.artifactBundle, checkpointSync := p.checkpointSync);
    }
  }

  /** The first objection to rendering an assignment, if there is one. */
  method FindObjection(index: Index, name: string) returns (objection: Option<Refusal>)
    requires index.Filed()
    ensures objection.None? <==> Renders(index, name)
    ensures objection.Some? ==> Justified(index, name, objection.value)
  {
    hide Renders, Justified;
    UnresolvedIsJustified(index, name);
    if name !in index.assignments { return Some(NoSuchAssignment); }
    var a := index.assignments[name];
    if a.validatorRef !in index.identities { return Some(NoSuchValidator); }
    if a.serviceProfileRef !in index.services { return Some(NoSuchService); }
    if a.networkProfileRef !in index.networks { return Some(NoSuchNetwork); }
    objection := ResolvedObjection(index, name);
  }

  lemma UnresolvedIsJustified(index: Index, name: string)
    ensures !ReferencesResolve(index, name) ==>
      !Renders(index, name) && forall why :: Justified(index, name, why) <==> Unresolved(index, name, why)
  {
  }

  method ResolvedObjection(index: Index, name: string) returns (objection: Option<Refusal>)
    requires index.Filed() && ReferencesResolve(index, name)
    ensures objection.None? <==> Renders(index, name)
    ensures objection.Some? ==> Justified(index, name, objection.value)
  {
    hide Hosts, ReadyToSign, SigningObjection, NetworkObjection, ExecutionSupported, ConsensusSupported, Unresolved;
    var a := index.assignments[name];
    var i := index.identities[a.validatorRef];
    var s := index.services[a.serviceProfileRef];
    var p := index.networks[a.networkProfileRef];
    if !ExecutionSupported(s.executionClient) { return Some(ExecutionNotSupported); }
    if !ConsensusSupported(s.consensusClient) { return Some(ConsensusNotSupported); }
    if i.networkProfileRef != a.networkProfileRef { return Some(NetworkMismatch); }
    if a.signingEnabled {
      objection := CheckSigning(a, i, p);
      if objection.Some? { return; }
    }
    objection := CheckNetwork(p, s.executionClient);
    if objection.Some? { return; }
    if i.customerRef !in index.customers { return Some(NoSuchCustomer); }
    if ChartLifecycleOf(a.lifecycle) == ChartActive && !Given(a.nodePairRef) { return Some(ActiveWithoutNodePair); }
    return None;
  }

  /** Renders one assignment, or refuses for a reason that holds. */
  method BuildRelease(index: Index, name: string, tools: Tools) returns (r: Result<Release, Refusal>)
    requires index.Filed()
    ensures r.Ok? <==> Renders(index, name)
    ensures r.Ok? ==> r.value == ReleaseFor(index, name, tools)
    ensures r.Err? ==> Justified(index, name, r.error)
  {
    hide Justified, NetworkValuesFor, DefaultNodePairRef;
    var objection := FindObjection(index, name);
    if objection.Some? { return Err(objection.value); }
    var a := index.assignments[name];
    var i := index.identities[a.validatorRef];
    var s := index.services[a.serviceProfileRef];
    var p := index.networks[a.networkProfileRef];
    var runtimeLifecycle := ChartLifecycleOf(a.lifecycle);
    var nodePair := if Given(a.nodePairRef) then a.nodePairRef.value else DefaultNodePairRef(a.validatorRef, tools);
    var network := BuildNetworkValues(p, a.networkProfileRef, s.executionClient, tools);
    var signing := None;
    if a.signingEnabled {
      signing := Some(SigningValues(
        i.publicKey.value, a.feeRecipient.value, "web3signer-network-config-" + a.networkProfileRef));
    }
    return Ok(Release(
      name, runtimeLifecycle != ChartActive, nodePair, runtimeLifecycle, network,
      s.executionClient, s.consensusClient, i.customerRef, a.validatorRef, name,
      a.signingEnabled, a.safety.slashingProtectionConfirmed, signing));
  }

  // ---- the generated files -----------------------------------------------------------------

  const INDEX_FILE := "kustomization.yaml"

  function FileName(assignment: string): string {
    assignment + ".yaml"
  }

  predicate IsYaml(filename: string) {
    EndsWith(filename, ".yaml")
  }

  function Names(index: Index): seq<string> {
    TextsInOrder(index.assignments.Keys)
  }

  function FileNames(names: seq<string>): seq<string> {
    seq(|names|, i requires 0 <= i < |names| => FileName(names[i]))
  }

  ghost predicate AllRender(index: Index) {
    index.assignments != map[] && forall n | n in index.assignments :: Renders(index, n)
  }

  /** The generated files: a release for each assignment, and the list of them. */
  ghost predicate AreRendered(files: map<string, string>, index: Index, tools: Tools)
    requires AllRender(index)
  {
    && files.Keys == (set n | n in index.assignments :: FileName(n)) + {INDEX_FILE}
    && files[INDEX_FILE] == tools.yaml(Kustomization(FileNames(Names(index))))
    && (forall n | n in index.assignments && FileName(n) != INDEX_FILE ::
          files[FileName(n)] == tools.yaml(ReleaseFile(ReleaseFor(index, n, tools))))
  }

  lemma FileNameInjective(m: string, n: string)
    requires FileName(m) == FileName(n)
    ensures m == n
  {
    assert FileName(m)[..|FileName(m)| - 5] == m;
    assert FileName(n)[..|FileName(n)| - 5] == n;
  }

  lemma FileNameYaml(n: string)
    ensures IsYaml(FileName(n))
  {
  }

  /** The generated files as a function of the catalog. */
  ghost function RenderedOf(index: Index, tools: Tools): (files: map<string, string>)
    requires AllRender(index)
    ensures AreRendered(files, index, tools)
  {
    hide FileName, Renders, ReleaseFor, FileNames;
    RenderedExists(index, tools);
    var files :| AreRendered(files, index, tools);
    files
  }

  lemma RenderedExists(index: Index, tools: Tools)
    requires AllRender(index)
    ensures exists files :: AreRendered(files, index, tools)
  {
    hide FileName, Renders, ReleaseFor, FileNames;
    var filenames := set n | n in index.assignments :: FileName(n);
    var files := map f | f in filenames ::
      var n :| n in index.assignments && FileName(n) == f; tools.yaml(ReleaseFile(ReleaseFor(index, n, tools)));
    forall n | n in index.assignments
      ensures FileName(n) in files && files[FileName(n)] == tools.yaml(ReleaseFile(ReleaseFor(index, n, tools)))
    {
      assert FileName(n) in filenames;
      forall m | m in index.assignments && FileName(m) == FileName(n) ensures m == n {
        FileNameInjective(m, n);
      }
    }
    WithIndexFile(files, index, tools);
  }

  /** The catalog determines the generated files. */
  lemma RenderedOnce(a: map<string, string>, b: map<string, string>, index: Index, tools: Tools)
    requires AllRender(index) && AreRendered(a, index, tools) && AreRendered(b, index, tools)
    ensures a == b
  {
    hide FileName, Renders, ReleaseFor;
    forall f | f in a ensures a[f] == b[f] {
      if f != INDEX_FILE {
        var n :| n in index.assignments && FileName(n) == f;
      }
    }
  }

  /** The releases of the assignments in `done` are in the file table, and nothing else is. */
  ghost predicate ReleasesOf(files: map<string, string>, done: set<string>, index: Index, tools: Tools) {
    && (forall n | n in done :: Renders(index, n))
    && files.Keys == (set n | n in done :: FileName(n))
    && (forall n | n in done :: FileName(n) in files && files[FileName(n)] == tools.yaml(ReleaseFile(ReleaseFor(index, n, tools))))
  }

  ghost function Elements(names: seq<string>): set<string> {
    set n | n in names
  }

  lemma NamesAreElements(names: seq<string>, index: Index)
    requires forall n :: n in names <==> n in index.assignments
    ensures Elements(names) == index.assignments.Keys && Elements(names[..0]) == {}
  {
  }

  lemma OneMoreElement(names: seq<string>, k: nat)
    requires k < |names|
    ensures Elements(names[..k + 1]) == Elements(names[..k]) + {names[k]}
  {
    assert names[..k + 1] == names[..k] + [names[k]];
  }

  lemma NoReleases(index: Index, tools: Tools)
    ensures ReleasesOf(map[], {}, index, tools)
  {
  }

  lemma AllReleases(files: map<string, string>, index: Index, tools: Tools)
    requires ReleasesOf(files, index.assignments.Keys, index, tools)
    ensures forall n | n in index.assignments :: Renders(index, n)
  {
  }

  lemma OneMoreRelease(files: map<string, string>, done: set<string>, name: string, index: Index, tools: Tools)
    requires ReleasesOf(files, done, index, tools) && Renders(index, name)
    ensures ReleasesOf(files[FileName(name) := tools.yaml(ReleaseFile(ReleaseFor(index, name, tools)))], done + {name}, index, tools)
  {
    hide FileName, Renders, ReleaseFor;
    var next := files[FileName(name) := tools.yaml(ReleaseFile(ReleaseFor(index, name, tools)))];
    forall n | n in done && FileName(n) == FileName(name) ensures n == name {
      FileNameInjective(n, name);
    }
    assert next.Keys == set n | n in done + {name} :: FileName(n);
  }

  lemma WithIndexFile(files: map<string, string>, index: Index, tools: Tools)
    requires AllRender(index) && ReleasesOf(files, index.assignments.Keys, index, tools)
    ensures AreRendered(files[INDEX_FILE := tools.yaml(Kustomization(FileNames(Names(index))))], index, tools)
  {
    hide FileName, Renders, ReleaseFor, FileNames;
  }

  method RenderedFiles(index: Index, tools: Tools) returns (r: Result<map<string, string>, Refusal>)
    requires index.Filed()
    ensures r.Ok? <==> AllRender(index)
    ensures r.Ok? ==> AreRendered(r.value, index, tools)
    ensures r.Err? ==> r.error == EmptyCatalog || exists n :: n in index.assignments && Justified(index, n, r.error)
  {
    hide FileName, Renders, ReleaseFor, Justified, FileNames, TextLe, Ascending, ReleasesOf, AreRendered, Elements;
    var names := Names(index);
    NoReleases(index, tools);
    if names == [] {
      assert index.assignments.Keys == {};
      return Err(EmptyCatalog);
    }
    assert names[0] in names;
    var files: map<string, string> := map[];
    ghost var done: set<string> := {};
    NamesAreElements(names, index);
    for k := 0 to |names|
      invariant done == Elements(names[..k])
      invariant ReleasesOf(files, done, index, tools)
    {
      assert names[k] in names;
      var release := BuildRelease(index, names[k], tools);
      if release.Err? {
        return Err(release.error);
      }
      OneMoreRelease(files, done, names[k], index, tools);
      files := files[FileName(names[k]) := tools.yaml(ReleaseFile(release.value))];
      done := done + {names[k]};
      OneMoreElement(names, k);
    }
    assert names[..|names|] == names;
    AllReleases(files, index, tools);
    WithIndexFile(files, index, tools);
    files := files[INDEX_FILE := tools.yaml(Kustomization(FileNames(names)))];
    return Ok(files);
  }

  // ---- the output directory ----------------------------------------------------------------

  datatype Drift = Missing(filename: string) | Stale(filename: string) | Differs(filename: string)

  function YamlFiles(files: map<string, string>): map<string, string> {
    map f | f in files && IsYaml(f) :: files[f]
  }

  /** The directory after the projection is written into it. */
  function Projected(before: map<string, string>, files: map<string, string>): map<string, string> {
    (map f | f in before && !IsYaml(f) :: before[f]) + files
  }

  ghost predicate Drifts(directory: map<string, string>, files: map<string, string>, d: Drift) {
    match d
    case Missing(f) => f in files && !(f in directory && IsYaml(f))
    case Stale(f) => f in directory && IsYaml(f) && f !in files
    case Differs(f) => f in files && f in directory && IsYaml(f) && directory[f] != files[f]
  }

  class Directory {
    var files: map<string, string>

    constructor (contents: map<string, string>)
      ensures files == contents
    {
      files := contents;
    }

    /** Deletes the YAML files that are no longer generated. */
    method RemoveStale(generated: map<string, string>)
      modifies this
      ensures files == map f | f in old(files) && (IsYaml(f) ==> f in generated) :: old(files)[f]
    {
      var todo := set f | f in files && IsYaml(f);
      while todo != {}
        invariant todo <= files.Keys <= old(files).Keys
        invariant forall f | f in todo :: IsYaml(f)
        invariant forall f | f in old(files) :: f in files <==> (IsYaml(f) && f !in todo ==> f in generated)
        invariant forall f | f in files :: files[f] == old(files)[f]
        decreases |todo|
      {
        var f :| f in todo;
        todo := todo - {f};
        if f !in generated {
          files := map g | g in files && g != f :: files[g];
        }
      }
    }

    method WriteAll(generated: map<string, string>)
      modifies this
      ensures files == old(files) + generated
    {
      var todo := generated.Keys;
      while todo != {}
        invariant todo <= generated.Keys
        invariant files.Keys == old(files).Keys + (generated.Keys - todo)
        invariant forall f | f in files ::
          files[f] == if f in generated && f !in todo then generated[f] else old(files)[f]
        decreases |todo|
      {
        var f :| f in todo;
        todo := todo - {f};
        files := files[f := generated[f]];
      }
    }

    method WriteProjection(generated: map<string, string>)
      modifies this
      ensures files == Projected(old(files), generated)
    {
      RemoveStale(generated);
      WriteAll(generated);
    }

    method ProjectionErrors(generated: map<string, string>) returns (errors: set<Drift>)
      ensures forall d :: d in errors <==> Drifts(files, generated, d)
    {
      var existing := set f | f in files && IsYaml(f);
      var missing := set f | f in generated.Keys - existing :: Missing(f);
      var stale := set f | f in existing - generated.Keys :: Stale(f);
      errors := missing + stale;
      var todo := generated.Keys * existing;
      while todo != {}
        invariant todo <= generated.Keys * existing
        invariant forall d :: d in errors <==> Drifts(files, generated, d) && (d.Differs? ==> d.filename !in todo)
        decreases |todo|
      {
        var f :| f in todo;
        todo := todo - {f};
        if files[f] != generated[f] {
          errors := errors + {Differs(f)};
        }
      }
    }
  }

  /** The check is silent exactly when the directory's YAML files are the generated files. */
  lemma NoDriftIff(directory: map<string, string>, files: map<string, string>)
    ensures (forall d :: !Drifts(directory, files, d)) <==> YamlFiles(directory) == files
  {
    if forall d :: !Drifts(directory, files, d) {
      forall f ensures f in YamlFiles(directory) <==> f in files {
        assert !Drifts(directory, files, Missing(f)) && !Drifts(directory, files, Stale(f));
      }
      forall f | f in files ensures YamlFiles(directory)[f] == files[f] {
        assert !Drifts(directory, files, Differs(f));
      }
    } else {
      var d :| Drifts(directory, files, d);
      assert d.Differs? ==> YamlFiles(directory)[d.filename] == directory[d.filename];
    }
  }

  /** Writing leaves nothing for the check to report exactly when every generated name is a YAML
      name, and writing a second time changes nothing. */
  lemma WriteThenCheck(before: map<string, string>, files: map<string, string>)
    ensures YamlFiles(Projected(before, files)) == files <==> forall f | f in files :: IsYaml(f)
    ensures Projected(Projected(before, files), files) == Projected(before, files)
    ensures forall f | f in before && !IsYaml(f) && f !in files :: f in Projected(before, files) && Projected(before, files)[f] == before[f]
  {
  }

  lemma IndexFileYaml()
    ensures IsYaml(INDEX_FILE)
  {
  }

  lemma RenderedAreYaml(files: map<string, string>, index: Index, tools: Tools)
    requires AllRender(index) && AreRendered(files, index, tools)
    ensures forall f | f in files :: IsYaml(f)
  {
    hide FileName, IsYaml, Renders, ReleaseFor;
    forall f | f in files ensures IsYaml(f) {
      if f == INDEX_FILE {
        IndexFileYaml();
      } else {
        var n :| n in index.assignments && FileName(n) == f;
        FileNameYaml(n);
      }
    }
  }
}
