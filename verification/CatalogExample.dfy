/** Small catalogs that show the guarantees to be about something: one that passes every check and a request
    that it accepts, one with two signing assignments, and some that show where the code is surprising. */
module CatalogExample {
  import opened Catalog
  import opened CatalogRules
  import opened CatalogSafety
  import opened Json
  import opened Lifecycle
  import opened Ordering
  import opened Projection
  import opened Schema
  import opened Text

  // ---- catalogs with at most two identities and two assignments ----------------------------

  datatype Small = Small(
    customer: Customer, network: NetworkProfile, service: ServiceProfile,
    i: ValidatorIdentity, j: ValidatorIdentity, a: ValidatorAssignment, b: ValidatorAssignment)
  {
    function Indexed(): Index {
      Index(
        map[customer.name := customer], map[network.name := network], map[service.name := service],
        map[i.name := i, j.name := j], map[a.name := a, b.name := b])
    }

    predicate Bound(v: ValidatorIdentity) {
      v.customerRef == customer.name && v.networkProfileRef == network.name
    }

    predicate Assigned(x: ValidatorAssignment, v: ValidatorIdentity) {
      x.validatorRef == v.name && x.serviceProfileRef == service.name && x.networkProfileRef == network.name
    }

    /** Everything refers to something that is there, a to i and b to j. */
    predicate Linked() {
      && Bound(i) && Bound(j) && Assigned(a, i) && Assigned(b, j)
      && (i.name == j.name ==> i == j) && (a.name == b.name ==> a == b)
    }

    /** Neither a key nor a live place is used twice. */
    predicate Apart() {
      && (i != j && Given(i.publicKey) && Given(j.publicKey) ==> Lower(i.publicKey.value) != Lower(j.publicKey.value))
      && (a != b && IsLive(a) && IsLive(b) ==> i != j && (Given(a.nodePairRef) ==> a.nodePairRef != b.nodePairRef))
    }

    predicate Gates(v: ValidatorIdentity) {
      && !v.synthetic && v.lifecycle == Registered && customer.lifecycle == CustomerActive
      && service.signingAllowed && (network.signer.mode == "builtin" || network.signer.signingQualified)
    }
  }

  /** A catalog of one document of each kind. */
  function One(
    customer: Customer, network: NetworkProfile, service: ServiceProfile, i: ValidatorIdentity, a: ValidatorAssignment): Small
  {
    Small(customer, network, service, i, i, a, a)
  }

  lemma SmallResolved(e: Small)
    requires e.Linked()
    ensures e.Indexed().Filed() && Resolved(e.Indexed())
    ensures e.Indexed().identities[e.a.validatorRef] == e.i && e.Indexed().identities[e.b.validatorRef] == e.j
    ensures e.Indexed().assignments[e.a.name] == e.a && e.Indexed().assignments[e.b.name] == e.b
  {
  }

  lemma SmallGates(e: Small)
    requires e.Linked() && !Leaving(e.customer)
    requires (e.a.signingEnabled ==> e.Gates(e.i)) && (e.b.signingEnabled ==> e.Gates(e.j))
    ensures e.Indexed().Filed() && Resolved(e.Indexed()) && NoneLeavingLive(e.Indexed())
    ensures forall n | n in e.Indexed().assignments && e.Indexed().assignments[n].signingEnabled ::
              MaySign(e.Indexed(), e.Indexed().assignments[n])
  {
    hide Leaving, IsLive;
    SmallResolved(e);
  }

  /** Linked documents break a rule only through the profile, the gates, a leaving customer or a repeated
      key or place. */
  lemma SmallCoherent(e: Small)
    requires e.Linked() && e.Apart() && SoundNetwork(e.network) && !Leaving(e.customer)
    requires (e.a.signingEnabled ==> e.Gates(e.i)) && (e.b.signingEnabled ==> e.Gates(e.j))
    ensures e.Indexed().Filed() && Coherent(e.Indexed())
  {
    hide SoundNetwork, Resolved, MaySign, NoneLeavingLive, DistinctKeys, ExclusiveValidators, ExclusiveNodePairs;
    SmallGates(e);
    SmallApart(e);
  }

  lemma SmallApart(e: Small)
    requires e.Linked() && e.Apart()
    ensures DistinctKeys(e.Indexed()) && ExclusiveValidators(e.Indexed()) && ExclusiveNodePairs(e.Indexed())
  {
    hide Lower, IsLive, Given, DistinctKeys;
    SmallKeys(e);
    SmallResolved(e);
  }

  lemma SmallKeys(e: Small)
    requires e.Linked() && e.Apart()
    ensures DistinctKeys(e.Indexed())
  {
    hide Lower, IsLive, Given;
  }

  /** Every document of the catalog satisfies its schema. */
  lemma SmallValid(e: Small)
    requires CustomerValid(e.customer) && NetworkValid(e.network) && ServiceValid(e.service)
    requires IdentityValid(e.i) && IdentityValid(e.j) && AssignmentValid(e.a) && AssignmentValid(e.b)
    ensures AllValid(e.Indexed())
  {
    hide CustomerValid, NetworkValid, ServiceValid, IdentityValid, AssignmentValid;
  }

  // ---- texts of the required shapes --------------------------------------------------------

  function Repeated(n: nat, c: char): string {
    seq(n, i => c)
  }

  lemma HexIsShaped(n: nat, c: char)
    requires IsDigit(c) || 'a' <= c <= 'f'
    ensures HexShaped("0x" + Repeated(n, c), n)
  {
  }

  lemma ShapedNames()
    ensures NameShaped("customer-testnet-lab") && NameShaped("dedicated-geth-lighthouse") && NameShaped("hoodi")
    ensures NameShaped("ephemery-162") && NameShaped("validator-01") && NameShaped("validator-02")
    ensures NameShaped("first") && NameShaped("second") && NameShaped("pair-validator-01") && NameShaped("pair-validator-02")
  {
    LongNames();
  }

  lemma LongNames()
    ensures NameShaped("customer-testnet-lab") && NameShaped("dedicated-geth-lighthouse")
  {
  }

  // ---- the profile of a permanent network --------------------------------------------------

  const CUSTOMER := Customer("customer-testnet-lab", "cus_TESTNET01", CustomerActive)
  const SERVICE := ServiceProfile("dedicated-geth-lighthouse", "geth", "lighthouse", true)

  function Chain(id: int, genesisTime: int, digit: char): Json {
    Obj(map[
      "executionChainId" := Int(id), "executionNetworkId" := Int(id),
      "executionGenesisHash" := Str("0x" + Repeated(64, digit)),
      "consensusGenesisValidatorsRoot" := Str("0x" + Repeated(64, digit)),
      "genesisForkVersion" := Str("0x" + Repeated(8, digit)), "consensusGenesisTime" := Int(genesisTime)])
  }

  lemma ChainIsValid(id: int, genesisTime: int, digit: char)
    requires id >= 1 && genesisTime >= 0 && IsDigit(digit)
    ensures ChainValid(Chain(id, genesisTime, digit))
  {
    hide HexShaped;
    HexIsShaped(64, digit);
    HexIsShaped(8, digit);
  }

  const BUILTIN := Adapter("builtin", Named("hoodi"), false)

  const HOODI := NetworkProfile(
    "hoodi", "hoodi", "permanent", Persistent, Chain(560048, 1742213400, '1'),
    map["geth" := BUILTIN, "lighthouse" := BUILTIN], BUILTIN, None, None)

  lemma HoodiIsSound()
    ensures SoundNetwork(HOODI)
  {
    assert Adapters(HOODI) == {BUILTIN};
  }

  lemma HoodiIsValid()
    ensures NetworkValid(HOODI)
  {
    hide ChainValid;
    ChainIsValid(560048, 1742213400, '1');
  }

  // ---- a sound catalog ---------------------------------------------------------------------

  const IDENTITY :=
    ValidatorIdentity("validator-01", "customer-testnet-lab", "hoodi", Draft, true, None, None)

  const ASSIGNMENT :=
    ValidatorAssignment(
      "first", "validator-01", "hoodi", "dedicated-geth-lighthouse", Stopped, None, false, None, Safety(false, false), None)

  const EXAMPLE := One(CUSTOMER, HOODI, SERVICE, IDENTITY, ASSIGNMENT)

  function ExampleDocuments(): seq<Document> {
    OneEach(CUSTOMER, HOODI, SERVICE, IDENTITY, ASSIGNMENT)
  }

  function ExampleFiles(): seq<File> {
    [File("applications/customers/customer-testnet-lab.yaml", CustomerDocument(CUSTOMER)),
     File("applications/networks/hoodi.yaml", NetworkDocument(HOODI)),
     File("applications/profiles/dedicated-geth-lighthouse.yaml", ServiceDocument(SERVICE)),
     File("applications/validators/identities/validator-01.yaml", IdentityDocument(IDENTITY)),
     File("applications/validators/assignments/first.yaml", AssignmentDocument(ASSIGNMENT))]
  }

  function ExampleTools(yaml: Generated -> string): Tools {
    Tools(s => Repeated(64, '0'), yaml)
  }

  lemma CustomerAndServiceAreValid()
    ensures CustomerValid(CUSTOMER) && ServiceValid(SERVICE)
  {
    hide NameShaped;
    ShapedNames();
  }

  lemma ExampleFilesValid()
    ensures forall i | 0 <= i < |ExampleFiles()| :: Valid(ExampleFiles()[i].document)
  {
    hide NameShaped, NetworkValid, CustomerValid, ServiceValid;
    ShapedNames();
    CustomerAndServiceAreValid();
    HoodiIsValid();
    assert Valid(ExampleFiles()[0].document) && Valid(ExampleFiles()[1].document) && Valid(ExampleFiles()[2].document);
    assert Valid(ExampleFiles()[3].document) && Valid(ExampleFiles()[4].document);
    hide Valid;
  }

  lemma OneMoreDocument(documents: seq<Document>, d: Document, index: Index)
    requires IndexOf(documents) == index
    ensures IndexOf(documents + [d]) == Push(index, d)
  {
    assert (documents + [d])[..|documents|] == documents;
  }

  function OneEach(
    customer: Customer, network: NetworkProfile, service: ServiceProfile, i: ValidatorIdentity, a: ValidatorAssignment)
    : seq<Document>
  {
    [CustomerDocument(customer), NetworkDocument(network), ServiceDocument(service), IdentityDocument(i), AssignmentDocument(a)]
  }

  lemma OneEachIndex(
    customer: Customer, network: NetworkProfile, service: ServiceProfile, i: ValidatorIdentity, a: ValidatorAssignment)
    ensures IndexOf(OneEach(customer, network, service, i, a)) == One(customer, network, service, i, a).Indexed()
  {
    var one := EMPTY_INDEX.(customers := map[customer.name := customer]);
    var two := one.(networks := map[network.name := network]);
    var three := two.(services := map[service.name := service]);
    var four := three.(identities := map[i.name := i]);
    var c, n, s, v := CustomerDocument(customer), NetworkDocument(network), ServiceDocument(service), IdentityDocument(i);
    OneMoreDocument([], c, EMPTY_INDEX);
    OneMoreDocument([] + [c], n, one);
    OneMoreDocument([] + [c] + [n], s, two);
    OneMoreDocument([] + [c] + [n] + [s], v, three);
    OneMoreDocument([] + [c] + [n] + [s] + [v], AssignmentDocument(a), four);
    assert OneEach(customer, network, service, i, a) == [] + [c] + [n] + [s] + [v] + [AssignmentDocument(a)];
  }

  lemma ExampleIndex()
    ensures IndexOf(ExampleDocuments()) == EXAMPLE.Indexed()
  {
    hide Small.Indexed, One;
    OneEachIndex(CUSTOMER, HOODI, SERVICE, IDENTITY, ASSIGNMENT);
  }

  lemma ExampleUnique()
    ensures UniqueNames(ExampleDocuments())
  {
    var documents := ExampleDocuments();
    var kinds := [CustomerKind, NetworkProfileKind, ServiceProfileKind, ValidatorIdentityKind, ValidatorAssignmentKind];
    assert forall i | 0 <= i < 5 :: documents[i].Kind() == kinds[i];
    forall i, j | 0 <= i < j < |documents| ensures !SameId(documents[i], documents[j]) {
      assert kinds[i] != kinds[j];
    }
  }

  lemma ExampleRenders()
    ensures AllRender(EXAMPLE.Indexed())
  {
    assert "first" in EXAMPLE.Indexed().assignments;
  }

  lemma ExampleCoherent()
    ensures EXAMPLE.Indexed().Filed() && Coherent(EXAMPLE.Indexed())
  {
    hide SoundNetwork, Coherent;
    HoodiIsSound();
    SmallCoherent(EXAMPLE);
  }

  lemma ExampleFilesHold()
    ensures Documents(ExampleFiles()) == ExampleDocuments()
  {
  }

  /** The example passes the schema rules and the relational checker, and renders. */
  lemma ExampleIsSound()
    ensures Sound(ExampleFiles())
  {
    hide Coherent, UniqueNames, Valid, AllRender, Documents, ExampleFiles, ExampleDocuments, Small.Indexed;
    ExampleFilesValid();
    ExampleRenders();
    ExampleCoherent();
    ExampleFilesHold();
    ExampleIndex();
    ExampleUnique();
  }

  /** Only the last file is one of an assignment. */
  lemma ExamplePaths()
    ensures !InAssignmentDirectory("applications/customers/customer-testnet-lab.yaml")
    ensures !InAssignmentDirectory("applications/networks/hoodi.yaml")
    ensures !InAssignmentDirectory("applications/profiles/dedicated-geth-lighthouse.yaml")
    ensures !InAssignmentDirectory("applications/validators/identities/validator-01.yaml")
    ensures InAssignmentDirectory("applications/validators/assignments/first.yaml")
  {
    hide InAssignmentDirectory;
    Elsewhere("applications/customers/customer-testnet-lab.yaml", 13);
    Elsewhere("applications/networks/hoodi.yaml", 13);
    Elsewhere("applications/profiles/dedicated-geth-lighthouse.yaml", 13);
    Elsewhere("applications/validators/identities/validator-01.yaml", 24);
    AssignmentPath();
  }

  lemma AssignmentPath()
    ensures InAssignmentDirectory("applications/validators/assignments/first.yaml")
  {
    InItsDirectory("first.yaml");
    assert "applications/validators/assignments/first.yaml" == ASSIGNMENT_DIRECTORY + "first.yaml";
  }

  lemma ExampleLocated()
    ensures |ExampleFiles()| == 5 && Located(ExampleFiles(), "first", 4)
    ensures ExampleFiles()[4].document == AssignmentDocument(ASSIGNMENT)
  {
    hide InAssignmentDirectory;
    ExamplePaths();
  }

  lemma InItsDirectory(filename: string)
    requires EndsWith(filename, ".yaml") && '/' !in filename
    ensures InAssignmentDirectory(ASSIGNMENT_DIRECTORY + filename)
  {
    var path := ASSIGNMENT_DIRECTORY + filename;
    assert path[|ASSIGNMENT_DIRECTORY|..] == filename;
    assert path[|path| - 5..] == filename[|filename| - 5..];
  }

  lemma Elsewhere(path: string, k: nat)
    requires k < |path| && k < |ASSIGNMENT_DIRECTORY| && path[k] != ASSIGNMENT_DIRECTORY[k]
    ensures !InAssignmentDirectory(path)
  {
    assert |ASSIGNMENT_DIRECTORY| <= |path| ==> path[..|ASSIGNMENT_DIRECTORY|][k] == path[k];
  }

  lemma ExampleHasRoom(tools: Tools)
    ensures Resolved(EXAMPLE.Indexed()) && RoomFor(EXAMPLE.Indexed(), ASSIGNMENT, EffectiveNodePair(ASSIGNMENT, tools))
  {
    hide EffectiveNodePair, Resolved, Chain;
    SmallResolved(EXAMPLE);
  }

  lemma ZerosAreHex(yaml: Generated -> string)
    ensures HexDigests(ExampleTools(yaml))
  {
  }

  /** Its one assignment can be activated. */
  lemma ExampleActivates(yaml: Generated -> string)
    ensures Accepts(ExampleFiles(), Request("first", Activate, "maintenance"), ExampleTools(yaml))
  {
    hide Sound, Accepts, Resolved, RoomFor, Located, HexDigests, EffectiveNodePair, ExampleFiles, ExampleTools, Documents,
      ExampleDocuments, Small.Indexed;
    ExampleIsSound();
    ExampleFilesHold();
    ExampleIndex();
    ExampleLocated();
    ZerosAreHex(yaml);
    ExampleHasRoom(ExampleTools(yaml));
    assert Strip("maintenance") == "maintenance";
    ActivationAcceptedIff(ExampleFiles(), 4, "maintenance", ExampleTools(yaml));
  }

  /** Its release, in full. */
  lemma ExampleRelease(tools: Tools)
    ensures Renders(EXAMPLE.Indexed(), "first")
    ensures ReleaseFor(EXAMPLE.Indexed(), "first", tools) == Release(
              "first", true, "pair-validator-01", ChartStopped,
              NetworkValues(
                "hoodi", "hoodi", "permanent", Persistent, tools.sha256(FingerprintPayload(HOODI)), HOODI.identity,
                map["geth" := BUILTIN, "lighthouse" := BUILTIN], BUILTIN, None, None),
              "geth", "lighthouse", "customer-testnet-lab", "validator-01", "first", false, false, None)
  {
    hide Chain, FingerprintPayload, Renders, ReadyToSign;
    ExampleRenders();
    assert "pair-" + "validator-01" == "pair-validator-01";
    assert RuntimeClients(HOODI, "geth") == map["geth" := BUILTIN, "lighthouse" := BUILTIN];
  }

  /** Its projection: one release file and the list of it. */
  lemma ExampleProjection(tools: Tools)
    ensures AllRender(EXAMPLE.Indexed()) && Renders(EXAMPLE.Indexed(), "first")
    ensures RenderedOf(EXAMPLE.Indexed(), tools) == map[
              "first.yaml" := tools.yaml(ReleaseFile(ReleaseFor(EXAMPLE.Indexed(), "first", tools))),
              "kustomization.yaml" := tools.yaml(Kustomization(["first.yaml"]))]
  {
    hide Renders, ReleaseFor, Small.Indexed, One;
    ExampleRenders();
    assert EXAMPLE.Indexed().assignments.Keys == {"first"} by { OnlyAssignment(); }
    assert FileName("first") == "first.yaml" && "first.yaml"[0] != INDEX_FILE[0];
    hide FileName;
    SmallProjection(EXAMPLE.Indexed(), "first", tools);
  }

  lemma OnlyAssignment()
    ensures EXAMPLE.Indexed().assignments.Keys == {"first"}
  {
    hide Chain;
  }

  lemma SmallProjection(index: Index, n: string, tools: Tools)
    requires AllRender(index) && index.assignments.Keys == {n} && FileName(n) != INDEX_FILE
    ensures RenderedOf(index, tools) == map[
              FileName(n) := tools.yaml(ReleaseFile(ReleaseFor(index, n, tools))),
              INDEX_FILE := tools.yaml(Kustomization([FileName(n)]))]
  {
    hide Renders, ReleaseFor, FileName;
    var names := Names(index);
    assert names == [n] by { assert |names| == 1 && names[0] in names; }
    assert FileNames(names) == [FileName(n)];
    assert RenderedOf(index, tools).Keys == {FileName(n), INDEX_FILE};
  }

  // ---- signing on a built-in signer --------------------------------------------------------

  function Key(digit: char): string {
    "0x" + Repeated(96, digit)
  }

  function Wallet(): string {
    "0x" + Repeated(40, '0')
  }

  function Signing(name: string, network: string, digit: char): ValidatorIdentity {
    ValidatorIdentity(
      name, "customer-testnet-lab", network, Registered, false, Some(Key(digit)), Some(LOCAL_SECRETS + "signing/keystore"))
  }

  function SigningAssignment(name: string, validator: string, network: string, nodePair: string): ValidatorAssignment {
    ValidatorAssignment(
      name, validator, network, "dedicated-geth-lighthouse", Active, Some(nodePair), true, Some(Wallet()), Safety(true, true),
      None)
  }

  lemma SigningIsValid(name: string, network: string, digit: char)
    requires NameShaped(name) && NameShaped(network) && IsDigit(digit)
    ensures IdentityValid(Signing(name, network, digit))
  {
    hide NameShaped, HexShaped;
    ShapedNames();
    HexIsShaped(96, digit);
    assert Locates(LOCAL_SECRETS + "signing/keystore", LOCAL_SECRETS);
  }

  lemma SigningAssignmentIsValid(name: string, validator: string, network: string, nodePair: string)
    requires NameShaped(name) && NameShaped(validator) && NameShaped(network) && NameShaped(nodePair)
    ensures AssignmentValid(SigningAssignment(name, validator, network, nodePair))
  {
    hide NameShaped, HexShaped;
    ShapedNames();
    HexIsShaped(40, '0');
  }

  const ON_BUILTIN := One(
    CUSTOMER, HOODI, SERVICE, Signing("validator-01", "hoodi", '1'),
    SigningAssignment("first", "validator-01", "hoodi", "pair-validator-01"))

  /** A catalog that satisfies the schemas and the relational checker, and that the compiler refuses: its
      one assignment signs on a built-in signer. */
  lemma BuiltinSignerIsRefused()
    ensures ON_BUILTIN.Indexed().Filed() && Coherent(ON_BUILTIN.Indexed()) && AllValid(ON_BUILTIN.Indexed())
    ensures !Renders(ON_BUILTIN.Indexed(), "first") && Justified(ON_BUILTIN.Indexed(), "first", Refusal.SignerNotQualified)
  {
    hide Coherent, AllValid, SoundNetwork, NetworkValid, CustomerValid, ServiceValid, IdentityValid, AssignmentValid, NameShaped;
    ShapedNames();
    HoodiIsSound();
    HoodiIsValid();
    CustomerAndServiceAreValid();
    SigningIsValid("validator-01", "hoodi", '1');
    SigningAssignmentIsValid("first", "validator-01", "hoodi", "pair-validator-01");
    SmallCoherent(ON_BUILTIN);
    SmallValid(ON_BUILTIN);
  }

  // ---- two releases under one name ---------------------------------------------------------

  const ACTIVE := ASSIGNMENT.(lifecycle := Active, nodePairRef := Some("pair-validator-01"))

  const SHARED := Small(CUSTOMER, HOODI, SERVICE, IDENTITY, IDENTITY, ACTIVE, ASSIGNMENT.(name := "second"))

  /** A catalog that satisfies the schemas and the relational checker and has two releases under one
      resource name: an active one, and a stopped one of the same validator that records no node pair. */
  lemma TwoReleasesOneName(tools: Tools)
    ensures var index := SHARED.Indexed();
            && index.Filed() && Coherent(index) && AllValid(index)
            && Renders(index, "first") && Renders(index, "second")
            && ReleaseFor(index, "first", tools).lifecycleState == ChartActive
            && ReleaseFor(index, "first", tools).fullnameOverride == ReleaseFor(index, "second", tools).fullnameOverride
  {
    hide Coherent, AllValid, Renders, ReleaseFor, Small.Indexed;
    SharedIsSound();
    SharedRenders();
    SharedNames(tools);
  }

  lemma SharedIsSound()
    ensures var index := SHARED.Indexed(); index.Filed() && Coherent(index) && AllValid(index)
  {
    hide Coherent, AllValid, SoundNetwork, NetworkValid, CustomerValid, ServiceValid, NameShaped;
    ShapedNames();
    HoodiIsSound();
    HoodiIsValid();
    CustomerAndServiceAreValid();
    SmallCoherent(SHARED);
    SmallValid(SHARED);
  }

  lemma SharedRenders()
    ensures Renders(SHARED.Indexed(), "first") && Renders(SHARED.Indexed(), "second")
  {
    hide Chain, Hosts, ReadyToSign;
    HoodiHosts();
  }

  lemma HoodiHosts()
    ensures Hosts(HOODI, "geth")
  {
    hide Chain;
  }

  lemma SharedNames(tools: Tools)
    requires Renders(SHARED.Indexed(), "first") && Renders(SHARED.Indexed(), "second")
    ensures var index := SHARED.Indexed();
            && ReleaseFor(index, "first", tools).lifecycleState == ChartActive
            && ReleaseFor(index, "first", tools).fullnameOverride == ReleaseFor(index, "second", tools).fullnameOverride
  {
    hide Renders, ReleaseFor, EffectiveNodePair, Small.Indexed;
    SmallResolved(SHARED);
    OnePairName(tools);
    ReleaseSays(SHARED.Indexed(), "first", tools);
    ReleaseSays(SHARED.Indexed(), "second", tools);
  }

  lemma OnePairName(tools: Tools)
    ensures EffectiveNodePair(ACTIVE, tools) == EffectiveNodePair(ASSIGNMENT.(name := "second"), tools)
  {
    assert "pair-" + "validator-01" == "pair-validator-01";
  }

  // ---- the profile of a network that is replaced -------------------------------------------

  const HOST := HTTPS + "example.org"
  const RELEASE_PATH := "/releases/download/ephemery-162/"
  const ARCHIVE := "all.tar.gz"

  /** No part of a path begins with this letter. */
  predicate NoPartBegins(s: string, c: char) {
    forall i | 0 <= i < |s| - 1 && s[i] == '/' :: s[i + 1] != c
  }

  lemma LatestBegins(s: string)
    ensures StartsWith(s, "/latest/") ==> |s| > 1 && s[0] == '/' && s[1] == 'l'
  {
    assert StartsWith(s, "/latest/") ==> s[0] == s[..8][0] && s[1] == s[..8][1];
  }

  lemma NoLatest(s: string)
    requires NoPartBegins(s, 'l')
    ensures !Contains(s, "/latest/")
  {
    hide StartsWith;
    forall i | 0 <= i <= |s| ensures !StartsWith(s[i..], "/latest/") {
      LatestBegins(s[i..]);
    }
  }

  function Url(): string {
    HOST + RELEASE_PATH + ARCHIVE
  }

  lemma UrlParts()
    ensures NoPartBegins(Url(), 'l')
  {
    assert NoPartBegins(HOST, 'l') && NoPartBegins(RELEASE_PATH, 'l') && NoPartBegins(ARCHIVE, 'l');
  }

  predicate IsUrlLetter(c: char) {
    '-' <= c <= ':' || 'a' <= c <= 'z'
  }

  lemma UrlLetters()
    ensures '?' !in Url() && '#' !in Url() && forall c | c in Url() :: !('A' <= c <= 'Z')
  {
    assert forall c | c in HOST :: IsUrlLetter(c);
    assert forall c | c in RELEASE_PATH :: IsUrlLetter(c);
    assert forall c | c in ARCHIVE :: IsUrlLetter(c);
    assert forall c | c in Url() :: c in HOST || c in RELEASE_PATH || c in ARCHIVE;
  }

  lemma Inside(before: string, part: string, after: string)
    ensures Contains(before + part + after, part)
  {
    assert (before + part + after)[|before|..][..|part|] == part;
  }

  lemma UrlIsSound()
    ensures !Contains(Lower(Url()), "/latest/") && Contains(Url(), RELEASE_PATH) && HttpsShaped(Url())
  {
    hide Contains, NoPartBegins;
    UrlParts();
    UrlLetters();
    Inside(HOST, RELEASE_PATH, ARCHIVE);
    assert Url()[..8] == HTTPS;
    hide Url;
    assert Lower(Url()) == Url();
    NoLatest(Url());
  }

  lemma {:induction false} NoSlash(path: string)
    requires '/' !in path
    ensures Split(path, '/') == [path]
  {
    if path == [] {
    } else {
      NoSlash(path[1..]);
      assert [path[0]] + path[1..] == path;
    }
  }

  function Position(names: seq<string>, k: string): (n: nat)
    requires k in names
    ensures n < |names| && names[n] == k
  {
    if names[|names| - 1] == k then |names| - 1 else Position(names[..|names| - 1], k)
  }

  /** Each file under a path of its own. */
  function NumberedFiles(keys: set<string>): map<string, string> {
    var names := TextsInOrder(keys);
    map k | k in keys :: Repeated(Position(names, k) + 1, 'f')
  }

  lemma NumberedFilesAreApart(keys: set<string>)
    ensures var files := NumberedFiles(keys);
            && files.Keys == keys
            && forall j, k | j in files && k in files && j != k :: files[j] != files[k]
  {
    var files, names := NumberedFiles(keys), TextsInOrder(keys);
    hide TextsInOrder;
    forall j, k | j in files && k in files && j != k ensures files[j] != files[k] {
      assert |files[j]| == Position(names, j) + 1 && |files[k]| == Position(names, k) + 1;
    }
  }

  lemma RepeatedIsPath(n: nat)
    ensures BundlePathShaped(Repeated(n + 1, 'f')) && !Traverses(Repeated(n + 1, 'f'))
  {
    NoSlash(Repeated(n + 1, 'f'));
  }

  lemma NumberedFilesAreSound(keys: set<string>)
    ensures forall k | k in NumberedFiles(keys) ::
              BundlePathShaped(NumberedFiles(keys)[k]) && !Traverses(NumberedFiles(keys)[k])
  {
    hide BundlePathShaped, Traverses, Repeated, TextsInOrder;
    forall k | k in keys ensures BundlePathShaped(NumberedFiles(keys)[k]) && !Traverses(NumberedFiles(keys)[k]) {
      RepeatedIsPath(Position(TextsInOrder(keys), k));
    }
  }

  function Bundle(keys: set<string>): ArtifactBundle {
    ArtifactBundle(Url(), Repeated(64, '3'), NumberedFiles(keys))
  }

  lemma BundleIsSound(p: NetworkProfile, keys: set<string>)
    requires ReleasePath(p) == RELEASE_PATH
    ensures SoundBundle(p, Bundle(keys))
  {
    hide NumberedFiles, BundlePathShaped, Traverses, Contains, Lower, Url, ReleasePath;
    NumberedFilesAreSound(keys);
    NumberedFilesAreApart(keys);
    UrlIsSound();
  }

  lemma BundleIsValid(keys: set<string>)
    requires keys == BUNDLE_FILES
    ensures BundleValid(Bundle(keys))
  {
    hide NumberedFiles, HttpsShaped, BundlePathShaped, Traverses, Contains, Lower, Url;
    NumberedFilesAreSound(keys);
    NumberedFilesAreApart(keys);
    UrlIsSound();
  }

  const ARTIFACT := Adapter("artifact-bundle", Absent, false)

  function Endpoints(): Checkpoint {
    Checkpoint(HOST, [HOST])
  }

  lemma HostIsShaped()
    ensures HttpsShaped(HOST)
  {
    assert HOST[..8] == HTTPS;
  }

  lemma EndpointsAreValid()
    ensures CheckpointValid(Endpoints())
  {
    hide HttpsShaped;
    HostIsShaped();
  }

  function Ephemery(): NetworkProfile {
    NetworkProfile(
      "ephemery-162", "ephemery", "162", ReplaceData, Chain(39438162, 1785438600, '2'),
      map["geth" := ARTIFACT, "lighthouse" := ARTIFACT], ARTIFACT.(signingQualified := true),
      Some(Bundle(BUNDLE_FILES)), Some(Endpoints()))
  }

  lemma EphemeryReleasePath()
    ensures ReleasePath(Ephemery()) == RELEASE_PATH
  {
    hide Bundle, Chain, Endpoints;
  }

  lemma EphemeryIsSound()
    ensures SoundNetwork(Ephemery())
  {
    hide SoundBundle, Bundle, Chain, Endpoints;
    var p := Ephemery();
    EphemeryReleasePath();
    BundleIsSound(p, BUNDLE_FILES);
    hide ReleasePath;
    assert Adapters(p) == {ARTIFACT, p.signer} && "geth" in p.clients;
  }

  lemma EphemeryIsValid()
    ensures NetworkValid(Ephemery())
  {
    hide ChainValid, BundleValid, CheckpointValid, SoundBundle, Bundle, Chain, Endpoints;
    ChainIsValid(39438162, 1785438600, '2');
    BundleIsValid(BUNDLE_FILES);
    EndpointsAreValid();
  }

  // ---- two signing releases ----------------------------------------------------------------

  function TwoSigners(network: NetworkProfile): Small {
    Small(
      CUSTOMER, network, SERVICE, Signing("validator-01", network.name, '1'), Signing("validator-02", network.name, '2'),
      SigningAssignment("first", "validator-01", network.name, "pair-validator-01"),
      SigningAssignment("second", "validator-02", network.name, "pair-validator-02"))
  }

  /** A catalog that satisfies the schemas and the relational checker, and in which two rendered releases
      sign. */
  lemma TwoCanSign(tools: Tools)
    ensures var index := TwoSigners(Ephemery()).Indexed();
            && index.Filed() && Coherent(index) && AllValid(index)
            && Renders(index, "first") && Signs(ReleaseFor(index, "first", tools))
            && Renders(index, "second") && Signs(ReleaseFor(index, "second", tools))
  {
    hide SoundNetwork, NetworkValid, Ephemery;
    EphemeryIsSound();
    EphemeryIsValid();
    EphemeryIsQualified();
    TwoSignersCoherent(Ephemery());
    TwoSignersValid(Ephemery());
    TwoSignersSign(Ephemery(), tools);
  }

  lemma EphemeryIsQualified()
    ensures var p := Ephemery(); p.signer.signingQualified && p.signer.mode != "builtin" && "geth" in p.clients
  {
    hide Bundle, Chain, Endpoints;
  }

  lemma TwoSignersCoherent(network: NetworkProfile)
    requires SoundNetwork(network) && network.signer.signingQualified
    ensures TwoSigners(network).Indexed().Filed() && Coherent(TwoSigners(network).Indexed())
  {
    hide SoundNetwork, Coherent;
    assert Lower(Key('1'))[2] != Lower(Key('2'))[2];
    SmallCoherent(TwoSigners(network));
  }

  lemma TwoSignersValid(network: NetworkProfile)
    requires NetworkValid(network)
    ensures AllValid(TwoSigners(network).Indexed())
  {
    hide NameShaped, CustomerValid, ServiceValid, IdentityValid, AssignmentValid;
    ShapedNames();
    assert NameShaped(network.name);
    hide NetworkValid;
    CustomerAndServiceAreValid();
    SigningIsValid("validator-01", network.name, '1');
    SigningIsValid("validator-02", network.name, '2');
    SigningAssignmentIsValid("first", "validator-01", network.name, "pair-validator-01");
    SigningAssignmentIsValid("second", "validator-02", network.name, "pair-validator-02");
  }

  lemma TwoSignersSign(network: NetworkProfile, tools: Tools)
    requires "geth" in network.clients && network.signer.mode != "builtin"
    requires var index := TwoSigners(network).Indexed(); index.Filed() && Coherent(index) && AllValid(index)
    ensures var index := TwoSigners(network).Indexed();
            && Renders(index, "first") && Signs(ReleaseFor(index, "first", tools))
            && Renders(index, "second") && Signs(ReleaseFor(index, "second", tools))
  {
    hide Coherent, AllValid, Renders, ReleaseFor;
    var index := TwoSigners(network).Indexed();
    ValidatedResidue(index, "first");
    ValidatedResidue(index, "second");
    ReleaseSays(index, "first", tools);
    ReleaseSays(index, "second", tools);
  }

  lemma EphemeryFields()
    ensures var p := Ephemery();
            && p.name == "ephemery-162" && p.family == "ephemery" && p.generation == "162" && p.resetPolicy == ReplaceData
            && p.clients == map["geth" := ARTIFACT, "lighthouse" := ARTIFACT]
            && p.signer == Adapter("artifact-bundle", Absent, true)
            && p.artifactBundle.Some? && p.checkpointSync.Some?
  {
    hide Bundle, Chain, Endpoints;
  }

  /** The release of its second signing assignment, in full. */
  lemma SigningRelease(tools: Tools)
    ensures var p, index := Ephemery(), TwoSigners(Ephemery()).Indexed();
            && Renders(index, "second")
            && ReleaseFor(index, "second", tools) == Release(
                 "second", false, "pair-validator-02", ChartActive,
                 NetworkValues(
                   "ephemery-162", "ephemery", "162", ReplaceData, tools.sha256(FingerprintPayload(p)), p.identity,
                   map["geth" := Adapter("artifact-bundle", NullValue, false),
                       "lighthouse" := Adapter("artifact-bundle", NullValue, false)],
                   Adapter("artifact-bundle", NullValue, true), p.artifactBundle, p.checkpointSync),
                 "geth", "lighthouse", "customer-testnet-lab", "validator-02", "second", true, true,
                 Some(SigningValues(Key('2'), Wallet(), "web3signer-network-config-ephemery-162")))
  {
    hide Renders, ReleaseFor, Ephemery, TwoSigners, FingerprintPayload, Coherent, AllValid;
    TwoCanSign(tools);
    EphemeryFields();
    SigningReleaseOn(Ephemery(), tools);
    NulledClients(Ephemery());
    assert "web3signer-network-config-" + "ephemery-162" == "web3signer-network-config-ephemery-162";
  }

  lemma NulledClients(p: NetworkProfile)
    requires p.clients == map["geth" := ARTIFACT, "lighthouse" := ARTIFACT]
    ensures RuntimeClients(p, "geth") == map[
              "geth" := Adapter("artifact-bundle", NullValue, false), "lighthouse" := Adapter("artifact-bundle", NullValue, false)]
  {
    assert "geth" in p.clients;
  }

  lemma SigningReleaseOn(p: NetworkProfile, tools: Tools)
    requires Renders(TwoSigners(p).Indexed(), "second")
    requires "geth" in p.clients && p.clients["geth"].mode == "artifact-bundle" && p.signer == Adapter("artifact-bundle", Absent, true)
    ensures ReleaseFor(TwoSigners(p).Indexed(), "second", tools) == Release(
              "second", false, "pair-validator-02", ChartActive,
              NetworkValues(
                p.name, p.family, p.generation, p.resetPolicy, tools.sha256(FingerprintPayload(p)), p.identity,
                RuntimeClients(p, "geth"), Adapter("artifact-bundle", NullValue, true), p.artifactBundle, p.checkpointSync),
              "geth", "lighthouse", "customer-testnet-lab", "validator-02", "second", true, true,
              Some(SigningValues(Key('2'), Wallet(), "web3signer-network-config-" + p.name)))
  {
    hide Key, Wallet, FingerprintPayload, Hosts, ReadyToSign, RuntimeClients;
  }

  // ---- one key in two cases ----------------------------------------------------------------

  function KeyOf(name: string, digit: char): ValidatorIdentity {
    Signing(name, "ephemery-162", '1').(publicKey := Some(Key(digit)))
  }

  /** Two identities that the schemas allow, with one key written in two cases: whatever else a catalog
      holds, it is not consistent, and the key is reported. */
  lemma OneKeyInTwoCases(documents: seq<Document>)
    requires UniqueNames(documents)
    requires IdentityDocument(KeyOf("validator-01", 'a')) in documents && IdentityDocument(KeyOf("validator-02", 'A')) in documents
    ensures IdentityValid(KeyOf("validator-01", 'a')) && IdentityValid(KeyOf("validator-02", 'A'))
    ensures !Consistent(documents) && MustReport(documents, PublicKeyShared("0x" + Repeated(96, 'a')))
  {
    var i, j := KeyOf("validator-01", 'a'), KeyOf("validator-02", 'A');
    KeysAreValid();
    IndexFiled(documents);
    IndexHolds(documents, IdentityDocument(i));
    IndexHolds(documents, IdentityDocument(j));
    SameKeys();
    hide KeyOf, IdentityValid, Lower, Coherent, DistinctKeys, Repeated;
    SharedKeysAreReported(IndexOf(documents), i, j);
    NotCoherent(IndexOf(documents));
  }

  lemma KeysAreValid()
    ensures IdentityValid(KeyOf("validator-01", 'a')) && IdentityValid(KeyOf("validator-02", 'A'))
  {
    hide NameShaped, HexShaped;
    ShapedNames();
    HexIsShaped(96, 'a');
    CapitalHexIsShaped(96);
    SigningIsValid("validator-01", "ephemery-162", '1');
    SigningIsValid("validator-02", "ephemery-162", '1');
  }

  lemma CapitalHexIsShaped(n: nat)
    ensures HexShaped("0x" + Repeated(n, 'A'), n)
  {
  }

  lemma SameKeys()
    ensures KeysDifferInCase(KeyOf("validator-01", 'a'), KeyOf("validator-02", 'A'))
    ensures KeyOf("validator-01", 'a').publicKey == Some(Key('a')) && Lower(Key('a')) == "0x" + Repeated(96, 'a')
  {
    assert "validator-01"[11] != "validator-02"[11];
    LowerHasNoCapitals(Key('a'));
  }

  lemma NotCoherent(index: Index)
    requires index.Filed() && !DistinctKeys(index)
    ensures !Coherent(index)
  {
  }

  // ---- the order of built-in networks ------------------------------------------------------

  /** A profile of family hoodi whose clients name two networks: whether the family finding
      accompanies the disagreement depends on which of them comes first. */
  lemma FamilyFindingCanGoEitherWay()
    ensures var p := HOODI.(clients := map["geth" := BUILTIN, "lighthouse" := Adapter("builtin", Named("sepolia"), false)]);
            && NetworkValid(p)
            && NetworkMayBreak(p, BuiltinFamilyMismatch) && !NetworkBroken(p, BuiltinFamilyMismatch)
            && FamilyMismatch(p, "sepolia") && !FamilyMismatch(p, "hoodi")
            && BuiltinNetworks(p) == {"hoodi", "sepolia"}
  {
    hide NetworkValid;
    var other := Adapter("builtin", Named("sepolia"), false);
    var p := HOODI.(clients := map["geth" := BUILTIN, "lighthouse" := other]);
    assert p.clients["geth"] == BUILTIN && p.clients["lighthouse"] == other;
    assert Adapters(p) == {BUILTIN, other};
    assert "hoodi" in BuiltinNetworks(p) && "sepolia" in BuiltinNetworks(p);
    assert "hoodi"[0] != "sepolia"[0];
    OrderDecidesFamilyFinding(p);
    HoodiIsValid();
    OtherNetworkIsValid(HOODI, other);
  }

  lemma OtherNetworkIsValid(p: NetworkProfile, other: Adapter)
    requires NetworkValid(p) && p.resetPolicy == Persistent && ClientAdapterValid(other) && other.mode == "builtin"
    ensures NetworkValid(p.(clients := map["geth" := p.clients["geth"], "lighthouse" := other]))
  {
    hide ChainValid, BundleValid, CheckpointValid, NameShaped, FamilyShaped, GenerationShaped;
  }
}
