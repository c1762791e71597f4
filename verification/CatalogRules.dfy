/** The relational checker of tools/validate_catalog.py: the loops that collect findings, the
    declarative meaning of every finding, and what a catalog without findings looks like. */
module CatalogRules {
  import opened Catalog
  import opened Text

  // ---- findings ----------------------------------------------------------------------------

  datatype NetworkRule =
    | AdapterModesDisagree
    | ReplaceDataName
    | ReplaceDataAdapters
    | ArtifactNeedsReplaceData
    | ArtifactNeedsCheckpoint
    | UrlNamesLatest
    | UrlLacksRelease
    | FilePathsRepeat
    | FileTraverses(key: string)
    | BuiltinNetworksDisagree
    | BuiltinFamilyMismatch

  datatype IdentityRule = UnknownCustomer | UnknownIdentityNetwork

  datatype AssignmentRule =
    | UnknownValidator
    | UnknownService
    | UnknownNetwork
    | NetworkNotBound
    | SyntheticSigns
    | UnregisteredSigns
    | CustomerNotActive
    | ServiceForbidsSigning
    | SignerNotQualified

  datatype Finding =
    | DuplicateName(kind: Kind, name: string)
    | CustomerIdShared(customerId: string)
    | NetworkFinding(network: string, networkRule: NetworkRule)
    | IdentityFinding(identity: string, identityRule: IdentityRule)
    | PublicKeyShared(key: string)
    | AssignmentFinding(assignment: string, assignmentRule: AssignmentRule)
    | ValidatorShared(validator: string, assignments: set<string>)
    | NodePairShared(nodePair: string, assignments: set<string>)
    | OffboardingLive(customer: string, identities: set<string>)

  const LIVE_ASSIGNMENT_STATES: set<Lifecycle> := {Activating, Active, FailedSafe, Stopping, Switching}

  predicate IsLive(a: ValidatorAssignment) {
    a.lifecycle in LIVE_ASSIGNMENT_STATES
  }

  predicate Leaving(c: Customer) {
    c.lifecycle in {Offboarding, Offboarded}
  }

  // ---- what each finding means -------------------------------------------------------------

  function Adapters(p: NetworkProfile): set<Adapter> {
    p.clients.Values + {p.signer}
  }

  function AdapterModes(p: NetworkProfile): set<string> {
    set a | a in Adapters(p) :: a.mode
  }

  /** The name of a profile whose data is replaced with every generation. */
  function GenerationName(p: NetworkProfile): string {
    p.family + "-" + p.generation
  }

  function BuiltinNetworks(p: NetworkProfile): set<string> {
    set a | a in Adapters(p) && a.mode == "builtin" && a.network.Named? :: a.network.network
  }

  predicate ClientArtifact(p: NetworkProfile) {
    exists c | c in p.clients :: p.clients[c].mode == "artifact-bundle"
  }

  function ReleasePath(p: NetworkProfile): string {
    "/releases/download/" + p.name + "/"
  }

  predicate Traverses(path: string) {
    ".." in Split(path, '/')
  }

  ghost predicate NetworkBroken(p: NetworkProfile, rule: NetworkRule) {
    match rule
    case AdapterModesDisagree => exists a, b :: a in Adapters(p) && b in Adapters(p) && a.mode != b.mode
    case ReplaceDataName => p.resetPolicy == ReplaceData && p.name != GenerationName(p)
    case ReplaceDataAdapters =>
      p.resetPolicy == ReplaceData && exists a :: a in Adapters(p) && a.mode != "artifact-bundle"
    case ArtifactNeedsReplaceData => ClientArtifact(p) && p.resetPolicy != ReplaceData
    case ArtifactNeedsCheckpoint => ClientArtifact(p) && p.checkpointSync.None?
    case UrlNamesLatest => p.artifactBundle.Some? && Contains(Lower(p.artifactBundle.value.url), "/latest/")
    case UrlLacksRelease => p.artifactBundle.Some? && !Contains(p.artifactBundle.value.url, ReleasePath(p))
    case FilePathsRepeat => p.artifactBundle.Some? && Repeats(p.artifactBundle.value.files)
    case FileTraverses(key) =>
      p.artifactBundle.Some? && key in p.artifactBundle.value.files && Traverses(p.artifactBundle.value.files[key])
    case BuiltinNetworksDisagree =>
      exists m, n :: m in BuiltinNetworks(p) && n in BuiltinNetworks(p) && m != n
    case BuiltinFamilyMismatch =>
      p.family in {"hoodi", "sepolia"} && BuiltinNetworks(p) != {} && p.family !in BuiltinNetworks(p)
  }

  /** When built-in networks disagree, the family is compared with whichever of them comes first
      in the iteration order of a set, so that finding may or may not accompany the disagreement. */
  ghost predicate NetworkMayBreak(p: NetworkProfile, rule: NetworkRule) {
    || NetworkBroken(p, rule)
    || (rule.BuiltinFamilyMismatch? && p.family in {"hoodi", "sepolia"}
        && NetworkBroken(p, BuiltinNetworksDisagree))
  }

  /** The family check when this built-in network is the first of the set. */
  predicate FamilyMismatch(p: NetworkProfile, first: string) {
    p.family in {"hoodi", "sepolia"} && first != p.family
  }

  /** The two bounds are the outcomes for every and for some order of the set, and they differ, so
      that the order decides, exactly when the built-in networks are the family's own and another. */
  lemma OrderDecidesFamilyFinding(p: NetworkProfile)
    ensures NetworkBroken(p, BuiltinFamilyMismatch) <==>
            BuiltinNetworks(p) != {} && forall first | first in BuiltinNetworks(p) :: FamilyMismatch(p, first)
    ensures NetworkMayBreak(p, BuiltinFamilyMismatch) <==>
            exists first :: first in BuiltinNetworks(p) && FamilyMismatch(p, first)
    ensures NetworkMayBreak(p, BuiltinFamilyMismatch) && !NetworkBroken(p, BuiltinFamilyMismatch) <==>
            && p.family in {"hoodi", "sepolia"} && p.family in BuiltinNetworks(p)
            && exists other :: other in BuiltinNetworks(p) && other != p.family
  {
  }

  ghost predicate Repeats(files: map<string, string>) {
    exists j, k :: j in files && k in files && j != k && files[j] == files[k]
  }

  ghost predicate IdentityBroken(index: Index, i: ValidatorIdentity, rule: IdentityRule) {
    match rule
    case UnknownCustomer => i.customerRef !in index.customers
    case UnknownIdentityNetwork => i.networkProfileRef !in index.networks
  }

  ghost predicate AssignmentBroken(index: Index, a: ValidatorAssignment, rule: AssignmentRule) {
    var known := a.validatorRef in index.identities;
    match rule
    case UnknownValidator => !known
    case UnknownService => a.serviceProfileRef !in index.services
    case UnknownNetwork => a.networkProfileRef !in index.networks
    case NetworkNotBound => known && index.identities[a.validatorRef].networkProfileRef != a.networkProfileRef
    case SyntheticSigns => a.signingEnabled && known && index.identities[a.validatorRef].synthetic
    case UnregisteredSigns => a.signingEnabled && known && index.identities[a.validatorRef].lifecycle != Registered
    case CustomerNotActive =>
      a.signingEnabled && known
      && index.identities[a.validatorRef].customerRef in index.customers
      && index.customers[index.identities[a.validatorRef].customerRef].lifecycle != CustomerActive
    case ServiceForbidsSigning =>
      a.signingEnabled && a.serviceProfileRef in index.services
      && !index.services[a.serviceProfileRef].signingAllowed
    case SignerNotQualified =>
      a.signingEnabled && a.networkProfileRef in index.networks
      && index.networks[a.networkProfileRef].signer.mode != "builtin"
      && !index.networks[a.networkProfileRef].signer.signingQualified
  }

  /** The lower-cased public key of an identity, "" when it has none. */
  function NormalKey(i: ValidatorIdentity): string {
    if Given(i.publicKey) then Lower(i.publicKey.value) else ""
  }

  function LiveFor(index: Index, validator: string, among: set<string>): set<string> {
    set n | n in among && n in index.assignments && IsLive(index.assignments[n])
            && index.assignments[n].validatorRef == validator
  }

  function LiveOn(index: Index, nodePair: string, among: set<string>): set<string> {
    set n | n in among && n in index.assignments && IsLive(index.assignments[n])
            && index.assignments[n].nodePairRef == Some(nodePair)
  }

  function LiveOwned(index: Index, customer: string): set<string> {
    set i | i in index.identities && index.identities[i].customerRef == customer
            && LiveFor(index, i, index.assignments.Keys) != {}
  }

  /** The findings about indexed documents; the duplicates are the only others. */
  ghost predicate IndexReports(index: Index, f: Finding) {
    match f
    case DuplicateName(_, _) => false
    case CustomerIdShared(id) => SharesCustomerId(index, id, index.customers.Keys)
    case NetworkFinding(n, rule) => n in index.networks && NetworkBroken(index.networks[n], rule)
    case IdentityFinding(n, rule) => n in index.identities && IdentityBroken(index, index.identities[n], rule)
    case PublicKeyShared(key) => SharesKey(index, key, index.identities.Keys)
    case AssignmentFinding(n, rule) =>
      n in index.assignments && AssignmentBroken(index, index.assignments[n], rule)
    case ValidatorShared(v, names) => names == LiveFor(index, v, index.assignments.Keys) && |names| > 1
    case NodePairShared(p, names) => p != "" && names == LiveOn(index, p, index.assignments.Keys) && |names| > 1
    case OffboardingLive(c, owned) =>
      c in index.customers && Leaving(index.customers[c]) && owned == LiveOwned(index, c) && owned != {}
  }

  ghost predicate SharesCustomerId(index: Index, id: string, among: set<string>) {
    exists a, b :: a in among && b in among && a != b && a in index.customers && b in index.customers
                   && index.customers[a].customerId == id && index.customers[b].customerId == id
  }

  ghost predicate SharesKey(index: Index, key: string, among: set<string>) {
    key != ""
    && exists a, b :: a in among && b in among && a != b && a in index.identities && b in index.identities
                      && NormalKey(index.identities[a]) == key && NormalKey(index.identities[b]) == key
  }

  ghost predicate Repeated(documents: seq<Document>, kind: Kind, name: string) {
    exists i, j :: 0 <= i < j < |documents| && SameId(documents[i], documents[j])
                   && documents[i].Kind() == kind && documents[i].Name() == name
  }

  /** The findings every run of the checker must report. */
  ghost predicate MustReport(documents: seq<Document>, f: Finding) {
    if f.DuplicateName? then Repeated(documents, f.kind, f.name)
    else IndexReports(IndexOf(documents), f)
  }

  /** The findings a run of the checker may report. */
  ghost predicate MayReport(documents: seq<Document>, f: Finding) {
    || MustReport(documents, f)
    || (f.NetworkFinding? && f.network in IndexOf(documents).networks
        && NetworkMayBreak(IndexOf(documents).networks[f.network], f.networkRule))
  }

  // ---- the declarative specification -------------------------------------------------------

  /** One adapter mode throughout; a profile whose data is replaced is named by its generation and
      uses pinned artifacts; built-in adapters name one network, the family's own where it has one. */
  ghost predicate SoundNetwork(p: NetworkProfile) {
    && (forall a, b | a in Adapters(p) && b in Adapters(p) :: a.mode == b.mode)
    && (p.resetPolicy == ReplaceData ==> p.name == GenerationName(p) && p.signer.mode == "artifact-bundle")
    && (ClientArtifact(p) ==> p.resetPolicy == ReplaceData && p.checkpointSync.Some?)
    && (p.artifactBundle.Some? ==> SoundBundle(p, p.artifactBundle.value))
    && (forall m, n | m in BuiltinNetworks(p) && n in BuiltinNetworks(p) :: m == n)
    && (p.family in {"hoodi", "sepolia"} ==> forall n | n in BuiltinNetworks(p) :: n == p.family)
  }

  ghost predicate SoundBundle(p: NetworkProfile, bundle: ArtifactBundle) {
    && !Contains(Lower(bundle.url), "/latest/")
    && Contains(bundle.url, ReleasePath(p))
    && (forall j, k | j in bundle.files && k in bundle.files && j != k :: bundle.files[j] != bundle.files[k])
    && (forall k | k in bundle.files :: !Traverses(bundle.files[k]))
  }

  ghost predicate DistinctCustomerIds(index: Index) {
    forall m, n | m in index.customers && n in index.customers && m != n ::
      index.customers[m].customerId != index.customers[n].customerId
  }

  ghost predicate DistinctKeys(index: Index) {
    forall m, n | m in index.identities && n in index.identities && m != n ::
      Given(index.identities[m].publicKey) && Given(index.identities[n].publicKey) ==>
        Lower(index.identities[m].publicKey.value) != Lower(index.identities[n].publicKey.value)
  }

  /** All references resolve, and an assignment runs on the network its identity is bound to. */
  ghost predicate Resolved(index: Index) {
    && (forall n | n in index.identities ::
          index.identities[n].customerRef in index.customers
          && index.identities[n].networkProfileRef in index.networks)
    && (forall n | n in index.assignments ::
          var a := index.assignments[n];
          a.validatorRef in index.identities && a.serviceProfileRef in index.services
          && a.networkProfileRef in index.networks
          && index.identities[a.validatorRef].networkProfileRef == a.networkProfileRef)
  }

  /** What a signing assignment needs. */
  ghost predicate MaySign(index: Index, a: ValidatorAssignment)
    requires Resolved(index) && a.name in index.assignments && index.assignments[a.name] == a
  {
    var i := index.identities[a.validatorRef];
    && !i.synthetic
    && i.lifecycle == Registered
    && index.customers[i.customerRef].lifecycle == CustomerActive
    && index.services[a.serviceProfileRef].signingAllowed
    && (index.networks[a.networkProfileRef].signer.mode == "builtin"
        || index.networks[a.networkProfileRef].signer.signingQualified)
  }

  ghost predicate ExclusiveValidators(index: Index) {
    forall m, n | m in index.assignments && n in index.assignments && m != n ::
      IsLive(index.assignments[m]) && IsLive(index.assignments[n]) ==>
        index.assignments[m].validatorRef != index.assignments[n].validatorRef
  }

  ghost predicate ExclusiveNodePairs(index: Index) {
    forall m, n | m in index.assignments && n in index.assignments && m != n ::
      IsLive(index.assignments[m]) && IsLive(index.assignments[n]) && Given(index.assignments[m].nodePairRef) ==>
        index.assignments[m].nodePairRef != index.assignments[n].nodePairRef
  }

  ghost predicate NoneLeavingLive(index: Index)
    requires Resolved(index)
  {
    forall n | n in index.assignments && IsLive(index.assignments[n]) ::
      !Leaving(index.customers[index.identities[index.assignments[n].validatorRef].customerRef])
  }

  ghost predicate Coherent(index: Index)
    requires index.Filed()
  {
    && (forall n | n in index.networks :: SoundNetwork(index.networks[n]))
    && DistinctCustomerIds(index)
    && DistinctKeys(index)
    && Resolved(index)
    && (forall n | n in index.assignments && index.assignments[n].signingEnabled :: MaySign(index, index.assignments[n]))
    && ExclusiveValidators(index)
    && ExclusiveNodePairs(index)
    && NoneLeavingLive(index)
  }

  /** A catalog that breaks no rule. */
  ghost predicate Consistent(documents: seq<Document>) {
    UniqueNames(documents) && (IndexFiled(documents); Coherent(IndexOf(documents)))
  }

  /** Consistency is a property of the collection of documents, whatever order the files come in. */
  lemma ConsistentAnyOrder(a: seq<Document>, b: seq<Document>)
    requires multiset(a) == multiset(b)
    ensures Consistent(a) <==> Consistent(b)
  {
    if UniqueNames(a) {
      UniqueNamesAnyOrder(a, b);
      IndexAnyOrder(a, b);
    } else if UniqueNames(b) {
      UniqueNamesAnyOrder(b, a);
    }
  }

  // ---- the specification in the fields of the documents ------------------------------------

  lemma LiveStates(a: ValidatorAssignment, c: Customer)
    ensures IsLive(a) <==> a.lifecycle != Stopped && a.lifecycle != Archiving && a.lifecycle != Archived
    ensures Leaving(c) <==> c.lifecycle != CustomerActive && c.lifecycle != Suspended
  {
  }

  /** A client or the signer runs on a built-in network of this name. */
  predicate Selects(p: NetworkProfile, network: string) {
    || (exists c | c in p.clients :: p.clients[c].mode == "builtin" && p.clients[c].network == Named(network))
    || (p.signer.mode == "builtin" && p.signer.network == Named(network))
  }

  lemma SelectsIff(p: NetworkProfile, network: string)
    ensures network in BuiltinNetworks(p) <==> Selects(p, network)
  {
  }

  ghost predicate PinnedUrl(url: string, name: string) {
    && (exists before, after :: url == before + ("/releases/download/" + name + "/") + after)
    && !exists before, part, after :: url == before + part + after && SameUpToCase(part, "/latest/")
  }

  lemma LatestIff(url: string)
    ensures Contains(Lower(url), "/latest/")
            <==> exists before, part, after :: url == before + part + after && SameUpToCase(part, "/latest/")
  {
    ContainsIff(Lower(url), "/latest/");
    assert Lower("/latest/") == "/latest/" by { LowerHasNoCapitals("/latest/"); }
    if before, after :| Lower(url) == before + "/latest/" + after {
      var i, j := |before|, |before| + 8;
      assert url == url[..i] + url[i..j] + url[j..];
      assert Lower(url[i..j]) == Lower(url)[i..j] == "/latest/";
      LowerIff(url[i..j], "/latest/");
    }
    if before, part, after :| url == before + part + after && SameUpToCase(part, "/latest/") {
      LowerIff(part, "/latest/");
      assert Lower(url) == Lower(before) + Lower(part) + Lower(after);
    }
  }

  /** What a sound profile is, adapter by adapter. */
  lemma SoundNetworkMeans(p: NetworkProfile)
    ensures SoundNetwork(p) <==>
            && (forall c | c in p.clients :: p.clients[c].mode == p.signer.mode)
            && (p.resetPolicy == ReplaceData ==>
                  p.name == p.family + "-" + p.generation && p.signer.mode == "artifact-bundle")
            && (forall c | c in p.clients && p.clients[c].mode == "artifact-bundle" ::
                  p.resetPolicy == ReplaceData && p.checkpointSync.Some?)
            && (p.artifactBundle.Some? ==> BundleIsPinned(p.artifactBundle.value, p.name))
            && (forall m, n | Selects(p, m) && Selects(p, n) :: m == n)
            && (p.family == "hoodi" || p.family == "sepolia" ==> forall n | Selects(p, n) :: n == p.family)
  {
    hide SoundBundle, Selects, BundleIsPinned;
    forall n ensures n in BuiltinNetworks(p) <==> Selects(p, n) {
      SelectsIff(p, n);
    }
    if p.artifactBundle.Some? {
      SoundBundleMeans(p, p.artifactBundle.value);
    }
    hide BuiltinNetworks;
    assert (forall c | c in p.clients :: p.clients[c].mode == p.signer.mode)
           <==> forall a, b | a in Adapters(p) && b in Adapters(p) :: a.mode == b.mode by {
      OneModeIff(p);
    }
  }

  lemma OneModeIff(p: NetworkProfile)
    ensures (forall c | c in p.clients :: p.clients[c].mode == p.signer.mode)
            <==> forall a, b | a in Adapters(p) && b in Adapters(p) :: a.mode == b.mode
  {
    assert p.signer in Adapters(p) && forall c | c in p.clients :: p.clients[c] in Adapters(p);
  }

  /** The bundle names its release, and its files have paths of their own that stay inside it. */
  ghost predicate BundleIsPinned(bundle: ArtifactBundle, name: string) {
    && PinnedUrl(bundle.url, name)
    && (forall j, k | j in bundle.files && k in bundle.files && bundle.files[j] == bundle.files[k] :: j == k)
    && forall k | k in bundle.files :: !IsPart(bundle.files[k], "..", '/')
  }

  lemma SoundBundleMeans(p: NetworkProfile, bundle: ArtifactBundle)
    ensures SoundBundle(p, bundle) <==> BundleIsPinned(bundle, p.name)
  {
    hide Contains, Split, IsPart, Lower, SameUpToCase;
    LatestIff(bundle.url);
    ContainsIff(bundle.url, ReleasePath(p));
    forall k | k in bundle.files ensures Traverses(bundle.files[k]) <==> IsPart(bundle.files[k], "..", '/') {
      SplitIff(bundle.files[k], "..", '/');
    }
  }

  /** Two identities whose keys differ in the case of letters only. */
  predicate KeysDifferInCase(i: ValidatorIdentity, j: ValidatorIdentity) {
    i.name != j.name && Given(i.publicKey) && Given(j.publicKey) && SameUpToCase(i.publicKey.value, j.publicKey.value)
  }

  /** A key is reported as shared when two identities have it, in whatever case they write it. */
  lemma SharedKeysAreReported(index: Index, i: ValidatorIdentity, j: ValidatorIdentity)
    requires index.Filed() && index.Holds(IdentityDocument(i)) && index.Holds(IdentityDocument(j))
    ensures KeysDifferInCase(i, j) ==>
              IndexReports(index, PublicKeyShared(Lower(i.publicKey.value))) && !DistinctKeys(index)
  {
    hide Lower, SameUpToCase;
    if KeysDifferInCase(i, j) {
      LowerIff(i.publicKey.value, j.publicKey.value);
      LowerKeepsLength(i.publicKey.value);
    }
  }

  lemma LowerKeepsLength(s: string)
    ensures |Lower(s)| == |s|
  {
  }

  /** Keys are distinct exactly when no two identities have one that differs in case at most. */
  lemma DistinctKeysIff(index: Index)
    requires index.Filed()
    ensures DistinctKeys(index) <==>
            forall m, n | m in index.identities && n in index.identities ::
              !KeysDifferInCase(index.identities[m], index.identities[n])
  {
    hide Lower, SameUpToCase;
    forall m, n | m in index.identities && n in index.identities && Given(index.identities[m].publicKey)
                  && Given(index.identities[n].publicKey)
      ensures Lower(index.identities[m].publicKey.value) == Lower(index.identities[n].publicKey.value)
              <==> SameUpToCase(index.identities[m].publicKey.value, index.identities[n].publicKey.value)
    {
      LowerIff(index.identities[m].publicKey.value, index.identities[n].publicKey.value);
    }
  }

  // ---- no findings if and only if consistent -----------------------------------------------

  lemma {:induction false} TwoElements<T>(s: set<T>)
    ensures |s| > 1 <==> exists a, b :: a in s && b in s && a != b
  {
    if |s| > 1 {
      var a :| a in s;
      assert |s - {a}| == |s| - 1;
      var b :| b in s - {a};
    }
    if a, b :| a in s && b in s && a != b {
      assert {a, b} <= s;
      assert |s - {a, b}| == |s| - |{a, b}|;
    }
  }

  lemma SoundNetworkIff(p: NetworkProfile)
    ensures SoundNetwork(p) <==> forall rule :: !NetworkBroken(p, rule)
  {
    assert p.signer in Adapters(p);
    if forall rule :: !NetworkBroken(p, rule) {
      assert !NetworkBroken(p, AdapterModesDisagree);
      assert !NetworkBroken(p, ReplaceDataName);
      assert !NetworkBroken(p, ReplaceDataAdapters);
      assert !NetworkBroken(p, ArtifactNeedsReplaceData);
      assert !NetworkBroken(p, ArtifactNeedsCheckpoint);
      assert !NetworkBroken(p, BuiltinNetworksDisagree);
      assert !NetworkBroken(p, BuiltinFamilyMismatch);
      if p.artifactBundle.Some? {
        assert !NetworkBroken(p, UrlNamesLatest);
        assert !NetworkBroken(p, UrlLacksRelease);
        assert !NetworkBroken(p, FilePathsRepeat);
        forall k | k in p.artifactBundle.value.files ensures !Traverses(p.artifactBundle.value.files[k]) {
          assert !NetworkBroken(p, FileTraverses(k));
        }
      }
    }
    if SoundNetwork(p) {
      forall rule ensures !NetworkBroken(p, rule) {
      }
    }
  }

  lemma LiveForShared(index: Index, v: string)
    ensures |LiveFor(index, v, index.assignments.Keys)| > 1 <==>
            exists m, n :: m in index.assignments && n in index.assignments && m != n
              && IsLive(index.assignments[m]) && IsLive(index.assignments[n])
              && index.assignments[m].validatorRef == v && index.assignments[n].validatorRef == v
  {
    var live := LiveFor(index, v, index.assignments.Keys);
    TwoElements(live);
    assert forall n :: n in live <==>
      n in index.assignments && IsLive(index.assignments[n]) && index.assignments[n].validatorRef == v;
  }

  lemma LiveOnShared(index: Index, p: string)
    ensures |LiveOn(index, p, index.assignments.Keys)| > 1 <==>
            exists m, n :: m in index.assignments && n in index.assignments && m != n
              && IsLive(index.assignments[m]) && IsLive(index.assignments[n])
              && index.assignments[m].nodePairRef == Some(p) && index.assignments[n].nodePairRef == Some(p)
  {
    var live := LiveOn(index, p, index.assignments.Keys);
    TwoElements(live);
    assert forall n :: n in live <==>
      n in index.assignments && IsLive(index.assignments[n]) && index.assignments[n].nodePairRef == Some(p);
  }

  ghost predicate Silent(index: Index) {
    forall f :: !IndexReports(index, f)
  }

  lemma SilentIsCoherent(index: Index)
    requires index.Filed() && Silent(index)
    ensures Coherent(index)
  {
    forall n | n in index.networks ensures SoundNetwork(index.networks[n]) {
      forall rule ensures !NetworkBroken(index.networks[n], rule) {
        assert !IndexReports(index, NetworkFinding(n, rule));
      }
      SoundNetworkIff(index.networks[n]);
    }
    forall m, n | m in index.customers && n in index.customers && m != n
      ensures index.customers[m].customerId != index.customers[n].customerId
    {
      assert !IndexReports(index, CustomerIdShared(index.customers[m].customerId));
    }
    SilentKeys(index);
    SilentResolved(index);
    SilentSigning(index);
    SilentLive(index);
  }

  lemma SilentKeys(index: Index)
    requires Silent(index)
    ensures DistinctKeys(index)
  {
    forall m, n | m in index.identities && n in index.identities && m != n
                  && Given(index.identities[m].publicKey) && Given(index.identities[n].publicKey)
      ensures Lower(index.identities[m].publicKey.value) != Lower(index.identities[n].publicKey.value)
    {
      assert !IndexReports(index, PublicKeyShared(NormalKey(index.identities[m])));
    }
  }

  lemma SilentResolved(index: Index)
    requires Silent(index)
    ensures Resolved(index)
  {
    forall n | n in index.identities
      ensures index.identities[n].customerRef in index.customers
      ensures index.identities[n].networkProfileRef in index.networks
    {
      assert !IndexReports(index, IdentityFinding(n, UnknownCustomer));
      assert !IndexReports(index, IdentityFinding(n, UnknownIdentityNetwork));
    }
    forall n | n in index.assignments
      ensures var a := index.assignments[n];
              a.validatorRef in index.identities && a.serviceProfileRef in index.services
              && a.networkProfileRef in index.networks
              && index.identities[a.validatorRef].networkProfileRef == a.networkProfileRef
    {
      assert !IndexReports(index, AssignmentFinding(n, UnknownValidator));
      assert !IndexReports(index, AssignmentFinding(n, UnknownService));
      assert !IndexReports(index, AssignmentFinding(n, UnknownNetwork));
      assert !IndexReports(index, AssignmentFinding(n, NetworkNotBound));
    }
  }

  lemma SilentSigning(index: Index)
    requires index.Filed() && Silent(index) && Resolved(index)
    ensures forall n | n in index.assignments && index.assignments[n].signingEnabled :: MaySign(index, index.assignments[n])
  {
    hide Silent, AssignmentBroken;
    forall n | n in index.assignments && index.assignments[n].signingEnabled
      ensures MaySign(index, index.assignments[n])
    {
      SilentSigner(index, n);
    }
  }

  lemma SilentSigner(index: Index, n: string)
    requires index.Filed() && Silent(index) && Resolved(index)
    requires n in index.assignments && index.assignments[n].signingEnabled
    ensures MaySign(index, index.assignments[n])
  {
    assert !IndexReports(index, AssignmentFinding(n, SyntheticSigns));
    assert !IndexReports(index, AssignmentFinding(n, UnregisteredSigns));
    assert !IndexReports(index, AssignmentFinding(n, CustomerNotActive));
    assert !IndexReports(index, AssignmentFinding(n, ServiceForbidsSigning));
    assert !IndexReports(index, AssignmentFinding(n, SignerNotQualified));
  }

  lemma SilentLive(index: Index)
    requires Silent(index) && Resolved(index)
    ensures ExclusiveValidators(index) && ExclusiveNodePairs(index) && NoneLeavingLive(index)
  {
    forall m, n | m in index.assignments && n in index.assignments && m != n
                  && IsLive(index.assignments[m]) && IsLive(index.assignments[n])
      ensures index.assignments[m].validatorRef != index.assignments[n].validatorRef
      ensures Given(index.assignments[m].nodePairRef) ==> index.assignments[m].nodePairRef != index.assignments[n].nodePairRef
    {
      var v := index.assignments[m].validatorRef;
      assert !IndexReports(index, ValidatorShared(v, LiveFor(index, v, index.assignments.Keys)));
      LiveForShared(index, v);
      if Given(index.assignments[m].nodePairRef) {
        var p := index.assignments[m].nodePairRef.value;
        assert !IndexReports(index, NodePairShared(p, LiveOn(index, p, index.assignments.Keys)));
        LiveOnShared(index, p);
      }
    }
    forall n | n in index.assignments && IsLive(index.assignments[n])
      ensures !Leaving(index.customers[index.identities[index.assignments[n].validatorRef].customerRef])
    {
      var v := index.assignments[n].validatorRef;
      var c := index.identities[v].customerRef;
      assert n in LiveFor(index, v, index.assignments.Keys);
      assert v in LiveOwned(index, c);
      assert !IndexReports(index, OffboardingLive(c, LiveOwned(index, c)));
    }
  }

  lemma CoherentSharing(index: Index, f: Finding)
    requires index.Filed() && Coherent(index) && (f.ValidatorShared? || f.NodePairShared?)
    ensures !IndexReports(index, f)
  {
    if f.ValidatorShared? {
      LiveForShared(index, f.validator);
    } else {
      LiveOnShared(index, f.nodePair);
    }
  }

  lemma CoherentIsSilent(index: Index)
    requires index.Filed() && Coherent(index)
    ensures Silent(index)
  {
    forall f: Finding ensures !IndexReports(index, f) {
      if f.ValidatorShared? || f.NodePairShared? {
        CoherentSharing(index, f);
      }
    }
  }

  /** No finding is due exactly when the catalog is consistent. */
  lemma ConsistentIff(documents: seq<Document>)
    ensures Consistent(documents) <==> forall f :: !MustReport(documents, f)
  {
    var index := IndexOf(documents);
    IndexFiled(documents);
    if Consistent(documents) {
      CoherentIsSilent(index);
    }
    if forall f :: !MustReport(documents, f) {
      forall i, j | 0 <= i < j < |documents| ensures !SameId(documents[i], documents[j]) {
        assert !MustReport(documents, DuplicateName(documents[i].Kind(), documents[i].Name()));
      }
      forall f ensures !IndexReports(index, f) {
        assert !MustReport(documents, f);
      }
      SilentIsCoherent(index);
    }
  }

  // ---- the checker -------------------------------------------------------------------------

  /** What the schema guarantees before the relational checks run: a built-in adapter names its network. */
  ghost predicate Shaped(documents: seq<Document>) {
    forall d | d in documents && d.NetworkDocument? ::
      forall a | a in Adapters(d.network) :: a.mode == "builtin" ==> a.network.Named?
  }

  /** A finite map is one-to-one exactly when it has as many values as keys. */
  lemma {:induction false} RepeatsIff(files: map<string, string>)
    ensures Repeats(files) <==> |files.Keys| != |files.Values|
    ensures |files.Values| <= |files.Keys|
    decreases |files|
  {
    if files == map[] {
      assert files.Values == {};
    } else {
      var k :| k in files;
      var rest := files - {k};
      assert rest.Keys == files.Keys - {k};
      RepeatsIff(rest);
      assert files.Values == rest.Values + {files[k]} by {
        forall v | v in files.Values ensures v in rest.Values + {files[k]} {
          var j :| j in files && files[j] == v;
          assert j == k || rest[j] == v;
        }
      }
      if files[k] in rest.Values {
        var j :| j in rest && rest[j] == files[k];
        assert files.Values == rest.Values;
      } else {
        assert |files.Values| == |rest.Values| + 1;
      }
      if Repeats(rest) {
        var i, j :| i in rest && j in rest && i != j && rest[i] == rest[j];
        assert files[i] == files[j];
      }
      if i, j :| i in files && j in files && i != j && files[i] == files[j] {
        assert i != k && j != k ==> rest[i] == rest[j];
        assert i == k ==> rest[j] == files[k];
        assert j == k ==> rest[i] == files[k];
      }
    }
  }

  method CheckPaths(files: map<string, string>) returns (broken: set<NetworkRule>)
    ensures forall rule :: rule in broken <==>
      (rule.FileTraverses? && rule.key in files && Traverses(files[rule.key])) || (rule.FilePathsRepeat? && Repeats(files))
  {
    broken := {};
    var todo := files.Keys;
    while todo != {}
      invariant todo <= files.Keys
      invariant forall rule :: rule in broken <==>
        rule.FileTraverses? && rule.key in files && rule.key !in todo && Traverses(files[rule.key])
      decreases |todo|
    {
      var key :| key in todo;
      todo := todo - {key};
      if Traverses(files[key]) {
        broken := broken + {FileTraverses(key)};
      }
    }
    RepeatsIff(files);
    if |files.Keys| != |files.Values| {
      broken := broken + {FilePathsRepeat};
    }
  }

  method CheckBundle(p: NetworkProfile, bundle: ArtifactBundle) returns (broken: set<NetworkRule>)
    requires p.artifactBundle == Some(bundle)
    ensures forall rule :: rule in broken <==>
      (rule.UrlNamesLatest? || rule.UrlLacksRelease? || rule.FilePathsRepeat? || rule.FileTraverses?) && NetworkBroken(p, rule)
  {
    broken := CheckPaths(bundle.files);
    if Contains(Lower(bundle.url), "/latest/") {
      broken := broken + {UrlNamesLatest};
    }
    if !Contains(bundle.url, ReleasePath(p)) {
      broken := broken + {UrlLacksRelease};
    }
  }

  method CheckArtifactMode(p: NetworkProfile) returns (broken: set<NetworkRule>)
    ensures forall rule :: rule in broken <==>
      (rule.ArtifactNeedsReplaceData? || rule.ArtifactNeedsCheckpoint?) && NetworkBroken(p, rule)
  {
    broken := {};
    if ClientArtifact(p) {
      if p.resetPolicy != ReplaceData {
        broken := broken + {ArtifactNeedsReplaceData};
      }
      if p.checkpointSync.None? {
        broken := broken + {ArtifactNeedsCheckpoint};
      }
    }
  }

  method CheckModes(p: NetworkProfile) returns (broken: set<NetworkRule>)
    ensures forall rule :: rule in broken <==>
      (rule.AdapterModesDisagree? || rule.ReplaceDataName? || rule.ReplaceDataAdapters?) && NetworkBroken(p, rule)
  {
    hide NetworkBroken, AdapterModes, GenerationName;
    broken := {};
    var modes := AdapterModes(p);
    ModesAgree(p);
    if |modes| > 1 {
      broken := broken + {AdapterModesDisagree};
    }
    if p.resetPolicy == ReplaceData {
      if p.name != GenerationName(p) {
        broken := broken + {ReplaceDataName};
      }
      if modes != {"artifact-bundle"} {
        broken := broken + {ReplaceDataAdapters};
      }
    }
  }

  lemma ModesAgree(p: NetworkProfile)
    ensures |AdapterModes(p)| > 1 <==> NetworkBroken(p, AdapterModesDisagree)
    ensures p.resetPolicy == ReplaceData && p.name != GenerationName(p) <==> NetworkBroken(p, ReplaceDataName)
    ensures p.resetPolicy == ReplaceData && AdapterModes(p) != {"artifact-bundle"} <==> NetworkBroken(p, ReplaceDataAdapters)
  {
    var modes := AdapterModes(p);
    TwoElements(modes);
    assert p.signer in Adapters(p) && p.signer.mode in modes;
    if a, b :| a in Adapters(p) && b in Adapters(p) && a.mode != b.mode {
      assert a.mode in modes && b.mode in modes;
    }
    if a :| a in Adapters(p) && a.mode != "artifact-bundle" {
      assert a.mode in modes;
    }
  }

  method CheckBuiltin(p: NetworkProfile) returns (broken: set<NetworkRule>)
    requires forall a | a in Adapters(p) :: a.mode == "builtin" ==> a.network.Named?
    ensures BuiltinNetworksDisagree in broken <==> NetworkBroken(p, BuiltinNetworksDisagree)
    ensures NetworkBroken(p, BuiltinFamilyMismatch) ==> BuiltinFamilyMismatch in broken
    ensures BuiltinFamilyMismatch in broken ==> NetworkMayBreak(p, BuiltinFamilyMismatch)
    ensures BuiltinNetworks(p) != {} ==>
      exists first :: first in BuiltinNetworks(p) && (BuiltinFamilyMismatch in broken <==> FamilyMismatch(p, first))
    ensures broken <= {BuiltinNetworksDisagree, BuiltinFamilyMismatch}
  {
    broken := {};
    var builtin := BuiltinNetworks(p);
    TwoElements(builtin);
    if |builtin| > 1 {
      broken := broken + {BuiltinNetworksDisagree};
    }
    if builtin != {} && p.family in {"hoodi", "sepolia"} {
      var first :| first in builtin;
      if first != p.family {
        broken := broken + {BuiltinFamilyMismatch};
      }
    }
  }

  method CheckNetwork(p: NetworkProfile) returns (broken: set<NetworkRule>)
    requires forall a | a in Adapters(p) :: a.mode == "builtin" ==> a.network.Named?
    ensures forall rule :: NetworkBroken(p, rule) ==> rule in broken
    ensures forall rule :: rule in broken ==> NetworkMayBreak(p, rule)
  {
    var modeRules := CheckModes(p);
    var artifactRules := CheckArtifactMode(p);
    var bundleRules := {};
    if p.artifactBundle.Some? {
      bundleRules := CheckBundle(p, p.artifactBundle.value);
    }
    var builtinRules := CheckBuiltin(p);
    broken := modeRules + artifactRules + bundleRules + builtinRules;
  }

  /** The dictionary from customer id to name covers the customers visited so far. */
  ghost predicate CustomerTable(index: Index, done: set<string>, customerIds: map<string, string>)
    requires done <= index.customers.Keys
  {
    forall id :: id in customerIds <==> exists n :: n in done && index.customers[n].customerId == id
  }

  ghost predicate CustomerErrors(index: Index, done: set<string>, errors: set<Finding>) {
    forall f :: f in errors <==> f.CustomerIdShared? && SharesCustomerId(index, f.customerId, done)
  }

  lemma CustomerStep(index: Index, done: set<string>, name: string, customerIds: map<string, string>, errors: set<Finding>)
    requires done <= index.customers.Keys && name in index.customers && name !in done
    requires CustomerTable(index, done, customerIds) && CustomerErrors(index, done, errors)
    ensures var id := index.customers[name].customerId;
            && CustomerTable(index, done + {name}, customerIds[id := name])
            && CustomerErrors(index, done + {name}, if id in customerIds then errors + {CustomerIdShared(id)} else errors)
  {
  }

  method CheckCustomers(index: Index) returns (errors: set<Finding>)
    ensures CustomerErrors(index, index.customers.Keys, errors)
  {
    errors := {};
    var customerIds: map<string, string> := map[];
    var todo, done := index.customers.Keys, {};
    while todo != {}
      invariant done == index.customers.Keys - todo && todo <= index.customers.Keys
      invariant CustomerTable(index, done, customerIds) && CustomerErrors(index, done, errors)
      decreases |todo|
    {
      var name :| name in todo;
      var id := index.customers[name].customerId;
      CustomerStep(index, done, name, customerIds, errors);
      todo, done := todo - {name}, done + {name};
      if id in customerIds {
        errors := errors + {CustomerIdShared(id)};
      }
      customerIds := customerIds[id := name];
    }
    assert done == index.customers.Keys;
  }

  /** Adding one identity can only make its own key shared. */
  lemma NewKey(index: Index, before: set<string>, name: string)
    requires before <= index.identities.Keys && name in index.identities && name !in before
    ensures var done := before + {name};
            var key := NormalKey(index.identities[name]);
            && (SharesKey(index, key, done) <==> key != "" && exists n :: n in before && NormalKey(index.identities[n]) == key)
            && (forall other | other != key :: SharesKey(index, other, done) <==> SharesKey(index, other, before))
  {
  }

  ghost predicate KeyTable(index: Index, done: set<string>, publicKeys: map<string, string>)
    requires done <= index.identities.Keys
  {
    forall key :: key in publicKeys <==> key != "" && exists n :: n in done && NormalKey(index.identities[n]) == key
  }

  lemma KeyTableGrows(index: Index, done: set<string>, name: string, publicKeys: map<string, string>)
    requires done <= index.identities.Keys && name in index.identities && KeyTable(index, done, publicKeys)
    ensures var key := NormalKey(index.identities[name]);
            KeyTable(index, done + {name}, if key == "" then publicKeys else publicKeys[key := name])
  {
  }

  method CheckReferences(index: Index, name: string) returns (errors: set<Finding>)
    requires name in index.identities
    ensures forall f :: f in errors <==>
      f.IdentityFinding? && f.identity == name && IdentityBroken(index, index.identities[name], f.identityRule)
  {
    errors := {};
    var identity := index.identities[name];
    if identity.customerRef !in index.customers {
      errors := errors + {IdentityFinding(name, UnknownCustomer)};
    }
    if identity.networkProfileRef !in index.networks {
      errors := errors + {IdentityFinding(name, UnknownIdentityNetwork)};
    }
    forall f: Finding | f.IdentityFinding? && f.identity == name && IdentityBroken(index, identity, f.identityRule)
      ensures f in errors
    {
      match f.identityRule {
        case UnknownCustomer =>
        case UnknownIdentityNetwork =>
      }
    }
  }

  method CheckIdentities(index: Index) returns (errors: set<Finding>)
    ensures forall f :: f in errors <==>
      || (f.IdentityFinding? && f.identity in index.identities
          && IdentityBroken(index, index.identities[f.identity], f.identityRule))
      || (f.PublicKeyShared? && SharesKey(index, f.key, index.identities.Keys))
  {
    var references: set<Finding>, sharing: set<Finding> := {}, {};
    var publicKeys: map<string, string> := map[];
    var todo, done := index.identities.Keys, {};
    while todo != {}
      invariant done == index.identities.Keys - todo && todo <= index.identities.Keys
      invariant KeyTable(index, done, publicKeys)
      invariant forall f :: f in references <==>
        f.IdentityFinding? && f.identity in done && IdentityBroken(index, index.identities[f.identity], f.identityRule)
      invariant forall f :: f in sharing <==> f.PublicKeyShared? && SharesKey(index, f.key, done)
      decreases |todo|
    {
      var name :| name in todo;
      var normalized := NormalKey(index.identities[name]);
      NewKey(index, done, name);
      KeyTableGrows(index, done, name, publicKeys);
      assert normalized in publicKeys <==> SharesKey(index, normalized, done + {name});
      todo, done := todo - {name}, done + {name};
      var found := CheckReferences(index, name);
      references := references + found;
      if normalized != "" {
        if normalized in publicKeys {
          sharing := sharing + {PublicKeyShared(normalized)};
        }
        publicKeys := publicKeys[normalized := name];
      }
    }
    assert done == index.identities.Keys;
    errors := references + sharing;
  }

  method CheckBinding(index: Index, a: ValidatorAssignment) returns (broken: set<AssignmentRule>)
    ensures forall rule :: rule in broken <==>
      (rule.UnknownValidator? || rule.UnknownService? || rule.UnknownNetwork? || rule.NetworkNotBound?)
      && AssignmentBroken(index, a, rule)
  {
    broken := {};
    if a.validatorRef !in index.identities {
      broken := broken + {UnknownValidator};
    } else if index.identities[a.validatorRef].networkProfileRef != a.networkProfileRef {
      broken := broken + {NetworkNotBound};
    }
    if a.serviceProfileRef !in index.services {
      broken := broken + {UnknownService};
    }
    if a.networkProfileRef !in index.networks {
      broken := broken + {UnknownNetwork};
    }
  }

  method CheckSigning(index: Index, a: ValidatorAssignment) returns (broken: set<AssignmentRule>)
    requires a.signingEnabled
    ensures forall rule :: rule in broken <==>
      !(rule.UnknownValidator? || rule.UnknownService? || rule.UnknownNetwork? || rule.NetworkNotBound?)
      && AssignmentBroken(index, a, rule)
  {
    broken := {};
    if a.validatorRef in index.identities {
      var identity := index.identities[a.validatorRef];
      if identity.synthetic {
        broken := broken + {SyntheticSigns};
      }
      if identity.lifecycle != Registered {
        broken := broken + {UnregisteredSigns};
      }
      if identity.customerRef in index.customers && index.customers[identity.customerRef].lifecycle != CustomerActive {
        broken := broken + {CustomerNotActive};
      }
    }
    if a.serviceProfileRef in index.services && !index.services[a.serviceProfileRef].signingAllowed {
      broken := broken + {ServiceForbidsSigning};
    }
    if a.networkProfileRef in index.networks {
      var signer := index.networks[a.networkProfileRef].signer;
      if signer.mode != "builtin" && !signer.signingQualified {
        broken := broken + {SignerNotQualified};
      }
    }
  }

  method CheckAssignment(index: Index, a: ValidatorAssignment) returns (broken: set<AssignmentRule>)
    ensures forall rule :: rule in broken <==> AssignmentBroken(index, a, rule)
  {
    broken := CheckBinding(index, a);
    if a.signingEnabled {
      var more := CheckSigning(index, a);
      broken := broken + more;
    }
  }

  /** `table[key].append(name)` on a default dictionary. */
  function Append(table: map<string, set<string>>, key: string, name: string): map<string, set<string>> {
    table[key := (if key in table then table[key] else {}) + {name}]
  }

  /** The table lists, by validator, the live assignments visited so far. */
  ghost predicate LiveTable(index: Index, done: set<string>, live: map<string, set<string>>) {
    && (forall v, n :: v in live && n in live[v] <==> n in LiveFor(index, v, done))
    && (forall v | v in live :: live[v] != {})
  }

  ghost predicate PairTable(index: Index, done: set<string>, pairs: map<string, set<string>>) {
    && (forall p, n :: p in pairs && n in pairs[p] <==> p != "" && n in LiveOn(index, p, done))
    && (forall p | p in pairs :: pairs[p] != {})
  }

  lemma LiveTableGrows(index: Index, done: set<string>, name: string, live: map<string, set<string>>)
    requires name in index.assignments && LiveTable(index, done, live)
    ensures var a := index.assignments[name];
            LiveTable(index, done + {name}, if IsLive(a) then Append(live, a.validatorRef, name) else live)
  {
    var a := index.assignments[name];
    forall v, n
      ensures n in LiveFor(index, v, done + {name}) <==>
              n in LiveFor(index, v, done) || (n == name && IsLive(a) && a.validatorRef == v)
    {
    }
  }

  lemma PairTableGrows(index: Index, done: set<string>, name: string, pairs: map<string, set<string>>)
    requires name in index.assignments && PairTable(index, done, pairs)
    ensures var a := index.assignments[name];
            PairTable(index, done + {name},
              if IsLive(a) && Given(a.nodePairRef) then Append(pairs, a.nodePairRef.value, name) else pairs)
  {
    var a := index.assignments[name];
    forall p, n
      ensures n in LiveOn(index, p, done + {name}) <==>
              n in LiveOn(index, p, done) || (n == name && IsLive(a) && a.nodePairRef == Some(p))
    {
    }
  }

  lemma LiveTableComplete(index: Index, live: map<string, set<string>>)
    requires LiveTable(index, index.assignments.Keys, live)
    ensures forall v :: v in live <==> LiveFor(index, v, index.assignments.Keys) != {}
    ensures forall v | v in live :: live[v] == LiveFor(index, v, index.assignments.Keys)
  {
  }

  lemma PairTableComplete(index: Index, pairs: map<string, set<string>>)
    requires PairTable(index, index.assignments.Keys, pairs)
    ensures forall p :: p in pairs <==> p != "" && LiveOn(index, p, index.assignments.Keys) != {}
    ensures forall p | p in pairs :: pairs[p] == LiveOn(index, p, index.assignments.Keys)
  {
  }

  method CheckAssignments(index: Index)
    returns (errors: set<Finding>, live: map<string, set<string>>, pairs: map<string, set<string>>)
    ensures forall f :: f in errors <==> f.AssignmentFinding? && IndexReports(index, f)
    ensures LiveTable(index, index.assignments.Keys, live)
    ensures PairTable(index, index.assignments.Keys, pairs)
  {
    errors, live, pairs := {}, map[], map[];
    var todo, done := index.assignments.Keys, {};
    while todo != {}
      invariant done == index.assignments.Keys - todo && todo <= index.assignments.Keys
      invariant forall f :: f in errors <==>
        f.AssignmentFinding? && f.assignment in done && AssignmentBroken(index, index.assignments[f.assignment], f.assignmentRule)
      invariant LiveTable(index, done, live)
      invariant PairTable(index, done, pairs)
      decreases |todo|
    {
      var name :| name in todo;
      var a := index.assignments[name];
      LiveTableGrows(index, done, name, live);
      PairTableGrows(index, done, name, pairs);
      todo, done := todo - {name}, done + {name};
      var broken := CheckAssignment(index, a);
      errors := errors + set rule | rule in broken :: AssignmentFinding(name, rule);
      if IsLive(a) {
        live := Append(live, a.validatorRef, name);
        if Given(a.nodePairRef) {
          pairs := Append(pairs, a.nodePairRef.value, name);
        }
      }
    }
    assert done == index.assignments.Keys;
  }

  method CheckShared(index: Index, live: map<string, set<string>>, pairs: map<string, set<string>>) returns (errors: set<Finding>)
    requires LiveTable(index, index.assignments.Keys, live)
    requires PairTable(index, index.assignments.Keys, pairs)
    ensures forall f :: f in errors <==> (f.ValidatorShared? || f.NodePairShared?) && IndexReports(index, f)
  {
    LiveTableComplete(index, live);
    PairTableComplete(index, pairs);
    var shared := set v | v in live && |live[v]| > 1 :: ValidatorShared(v, live[v]);
    var sharedPairs := set p | p in pairs && |pairs[p]| > 1 :: NodePairShared(p, pairs[p]);
    errors := shared + sharedPairs;
  }

  method OwnedAndLive(index: Index, live: map<string, set<string>>, customer: string) returns (owned: set<string>)
    requires LiveTable(index, index.assignments.Keys, live)
    ensures owned == LiveOwned(index, customer)
  {
    LiveTableComplete(index, live);
    owned := set i | i in index.identities && index.identities[i].customerRef == customer && i in live;
  }

  /** f says that a leaving customer among `done` still owns live identities, and which. */
  ghost predicate OffboardingError(index: Index, done: set<string>, f: Finding)
    requires done <= index.customers.Keys
  {
    && f.OffboardingLive? && f.customer in done && Leaving(index.customers[f.customer])
    && f.identities == LiveOwned(index, f.customer) && f.identities != {}
  }

  method CheckOffboarding(index: Index, live: map<string, set<string>>) returns (errors: set<Finding>)
    requires LiveTable(index, index.assignments.Keys, live)
    ensures forall f :: f in errors <==> OffboardingError(index, index.customers.Keys, f)
  {
    errors := {};
    var todo, done := index.customers.Keys, {};
    while todo != {}
      invariant done == index.customers.Keys - todo && todo <= index.customers.Keys
      invariant forall f :: f in errors <==> OffboardingError(index, done, f)
      decreases |todo|
    {
      var customer :| customer in todo;
      todo, done := todo - {customer}, done + {customer};
      var owned := OwnedAndLive(index, live, customer);
      if Leaving(index.customers[customer]) && owned != {} {
        errors := errors + {OffboardingLive(customer, owned)};
      }
    }
    assert done == index.customers.Keys;
  }

  method CheckNetworks(index: Index) returns (errors: set<Finding>)
    requires index.Filed()
    requires forall n | n in index.networks ::
      forall a | a in Adapters(index.networks[n]) :: a.mode == "builtin" ==> a.network.Named?
    ensures forall f: Finding :: f.NetworkFinding? && IndexReports(index, f) ==> f in errors
    ensures forall f :: f in errors ==>
      f.NetworkFinding? && f.network in index.networks && NetworkMayBreak(index.networks[f.network], f.networkRule)
  {
    errors := {};
    var todo, done := index.networks.Keys, {};
    while todo != {}
      invariant done == index.networks.Keys - todo && todo <= index.networks.Keys
      invariant forall f: Finding :: f.NetworkFinding? && f.network in done && IndexReports(index, f) ==> f in errors
      invariant forall f :: f in errors ==>
        f.NetworkFinding? && f.network in done && NetworkMayBreak(index.networks[f.network], f.networkRule)
      decreases |todo|
    {
      var name :| name in todo;
      todo, done := todo - {name}, done + {name};
      var broken := CheckNetwork(index.networks[name]);
      errors := errors + set rule | rule in broken :: NetworkFinding(name, rule);
    }
    assert done == index.networks.Keys;
  }

  method BuildIndex(documents: seq<Document>) returns (errors: set<Finding>, index: Index)
    ensures index == IndexOf(documents)
    ensures forall f :: f in errors <==> f.DuplicateName? && Repeated(documents, f.kind, f.name)
  {
    errors, index := {}, EMPTY_INDEX;
    for i := 0 to |documents|
      invariant index == IndexOf(documents[..i])
      invariant forall f :: f in errors <==> f.DuplicateName? && Repeated(documents[..i], f.kind, f.name)
    {
      var d := documents[i];
      assert documents[..i + 1][..i] == documents[..i];
      IndexHas(documents[..i], d.Kind(), d.Name());
      RepeatedGrows(documents[..i], d);
      assert documents[..i + 1] == documents[..i] + [d];
      if index.Has(d.Kind(), d.Name()) {
        errors := errors + {DuplicateName(d.Kind(), d.Name())};
      } else {
        index := index.With(d);
      }
    }
    assert documents[..|documents|] == documents;
  }

  lemma RepeatedGrows(before: seq<Document>, d: Document)
    ensures forall kind, name :: Repeated(before + [d], kind, name) <==>
      Repeated(before, kind, name) || (kind == d.Kind() && name == d.Name() && Present(before, kind, name))
  {
    var documents := before + [d];
    forall kind, name
      ensures Repeated(documents, kind, name) <==>
        Repeated(before, kind, name) || (kind == d.Kind() && name == d.Name() && Present(before, kind, name))
    {
      if Repeated(before, kind, name) {
        var i, j :| 0 <= i < j < |before| && SameId(before[i], before[j]) && before[i].Kind() == kind && before[i].Name() == name;
        assert SameId(documents[i], documents[j]);
      }
      if kind == d.Kind() && name == d.Name() && Present(before, kind, name) {
        var e :| e in before && e.Kind() == kind && e.Name() == name;
        var i :| 0 <= i < |before| && before[i] == e;
        assert SameId(documents[i], documents[|before|]);
      }
      if Repeated(documents, kind, name) {
        var i, j :| 0 <= i < j < |documents| && SameId(documents[i], documents[j])
                    && documents[i].Kind() == kind && documents[i].Name() == name;
        assert before[i] in before;
        if j < |before| {
          assert SameId(before[i], before[j]);
        }
      }
    }
  }

  /** All findings about a list of documents. The dictionaries are visited in no particular order,
      so what is proved holds for every order they may have. */
  method RelationalErrors(documents: seq<Document>) returns (errors: set<Finding>)
    requires Shaped(documents)
    ensures forall f :: MustReport(documents, f) ==> f in errors
    ensures forall f :: f in errors ==> MayReport(documents, f)
    ensures errors == {} <==> Consistent(documents)
  {
    var duplicates, index := BuildIndex(documents);
    IndexFiled(documents);
    IndexShaped(documents);
    var customerErrors := CheckCustomers(index);
    var networkErrors := CheckNetworks(index);
    var identityErrors := CheckIdentities(index);
    var assignmentErrors, live, pairs := CheckAssignments(index);
    var sharedErrors := CheckShared(index, live, pairs);
    var offboardingErrors := CheckOffboarding(index, live);
    errors := duplicates + customerErrors + networkErrors + identityErrors + assignmentErrors + sharedErrors + offboardingErrors;
    AllReported(documents, errors, duplicates, customerErrors, networkErrors, identityErrors,
                assignmentErrors, sharedErrors, offboardingErrors);
    ConsistentIff(documents);
    if f :| f in errors {
      SomeFindingIsDue(documents, f);
    }
  }

  /** The seven groups of findings together are all there are. */
  lemma AllReported(documents: seq<Document>, errors: set<Finding>, duplicates: set<Finding>, customers: set<Finding>,
                    networks: set<Finding>, identities: set<Finding>, assignments: set<Finding>,
                    shared: set<Finding>, offboarding: set<Finding>)
    requires errors == duplicates + customers + networks + identities + assignments + shared + offboarding
    requires forall f :: f in duplicates <==> f.DuplicateName? && Repeated(documents, f.kind, f.name)
    requires CustomerErrors(IndexOf(documents), IndexOf(documents).customers.Keys, customers)
    requires forall f: Finding :: f.NetworkFinding? && IndexReports(IndexOf(documents), f) ==> f in networks
    requires forall f :: f in networks ==>
      f.NetworkFinding? && f.network in IndexOf(documents).networks
      && NetworkMayBreak(IndexOf(documents).networks[f.network], f.networkRule)
    requires forall f :: f in identities <==>
      || (f.IdentityFinding? && f.identity in IndexOf(documents).identities
          && IdentityBroken(IndexOf(documents), IndexOf(documents).identities[f.identity], f.identityRule))
      || (f.PublicKeyShared? && SharesKey(IndexOf(documents), f.key, IndexOf(documents).identities.Keys))
    requires forall f :: f in assignments <==> f.AssignmentFinding? && IndexReports(IndexOf(documents), f)
    requires forall f :: f in shared <==> (f.ValidatorShared? || f.NodePairShared?) && IndexReports(IndexOf(documents), f)
    requires forall f :: f in offboarding <==> OffboardingError(IndexOf(documents), IndexOf(documents).customers.Keys, f)
    ensures forall f :: MustReport(documents, f) ==> f in errors
    ensures forall f :: f in errors ==> MayReport(documents, f)
  {
  }

  lemma IndexShaped(documents: seq<Document>)
    requires Shaped(documents)
    ensures forall n | n in IndexOf(documents).networks ::
      forall a | a in Adapters(IndexOf(documents).networks[n]) :: a.mode == "builtin" ==> a.network.Named?
  {
    hide Adapters, IndexOf;
    var index := IndexOf(documents);
    IndexFiled(documents);
    forall n | n in index.networks ensures NetworkDocument(index.networks[n]) in documents {
      HeldIsListed(documents, NetworkDocument(index.networks[n]));
    }
  }

  /** A finding that may be reported comes with one that must be. */
  lemma SomeFindingIsDue(documents: seq<Document>, f: Finding)
    requires MayReport(documents, f)
    ensures exists g :: MustReport(documents, g)
  {
    if !MustReport(documents, f) {
      assert MustReport(documents, NetworkFinding(f.network, BuiltinNetworksDisagree));
    }
  }
}
