/** The JSON schemas of the five kinds of document: the patterns of the fields that the model keeps, fields
    required together, and the rules that tie a field to the lifecycle or to signing. */
module Schema {
  import opened Catalog
  import opened Images
  import opened Json
  import opened Text

  // ---- shapes of text ----------------------------------------------------------------------

  predicate IsLetter(c: char) { 'a' <= c <= 'z' }

  predicate IsNameChar(c: char) { IsLetter(c) || IsDigit(c) || c == '-' }

  /** `^[a-z][a-z0-9-]{2,62}$` */
  predicate NameShaped(s: string) {
    3 <= |s| <= 63 && IsLetter(s[0]) && forall c | c in s :: IsNameChar(c)
  }

  /** `^0x[0-9a-fA-F]{n}$` */
  predicate HexShaped(s: string, n: nat) {
    && |s| == n + 2 && s[0] == '0' && s[1] == 'x'
    && forall k | 2 <= k < |s| :: IsDigit(s[k]) || 'a' <= s[k] <= 'f' || 'A' <= s[k] <= 'F'
  }

  /** `^cus_[A-Z0-9]{8,32}$` */
  predicate CustomerIdShaped(s: string) {
    12 <= |s| <= 36 && s[..4] == "cus_" && forall c | c in s[4..] :: IsDigit(c) || 'A' <= c <= 'Z'
  }

  /** `^[a-z][a-z0-9-]{2,31}$` */
  predicate FamilyShaped(s: string) {
    NameShaped(s) && |s| <= 32
  }

  /** `^[a-z0-9][a-z0-9.-]{0,62}$` */
  predicate GenerationShaped(s: string) {
    1 <= |s| <= 63 && (IsLetter(s[0]) || IsDigit(s[0])) && forall c | c in s :: IsNameChar(c) || c == '.'
  }

  predicate IsPathChar(c: char) { IsAlphanumeric(c) || c == '.' || c == '_' || c == '/' || c == '-' }

  /** `^[A-Za-z0-9][A-Za-z0-9._/-]*$` */
  predicate BundlePathShaped(s: string) {
    s != "" && IsAlphanumeric(s[0]) && forall c | c in s :: IsPathChar(c)
  }

  predicate Locates(s: string, scheme: string) {
    StartsWith(s, scheme) && |s| > |scheme| && forall c | c in s[|scheme|..] :: IsPathChar(c)
  }

  const AWS_SECRETS := "aws-sm://"
  const LOCAL_SECRETS := "local-secret://"

  /** `^(aws-sm|local-secret)://[A-Za-z0-9._/-]+$` */
  predicate SecretShaped(s: string) {
    Locates(s, AWS_SECRETS) || Locates(s, LOCAL_SECRETS)
  }

  const HTTPS := "https://"

  /** `^https://[^?#]+$` */
  predicate HttpsShaped(s: string) {
    StartsWith(s, HTTPS) && |s| > |HTTPS| && '?' !in s && '#' !in s
  }

  // ---- documents ---------------------------------------------------------------------------

  predicate CustomerValid(c: Customer) {
    NameShaped(c.name) && CustomerIdShaped(c.customerId)
  }

  predicate AssignmentValid(a: ValidatorAssignment) {
    && NameShaped(a.name) && NameShaped(a.validatorRef)
    && NameShaped(a.networkProfileRef) && NameShaped(a.serviceProfileRef)
    && (a.nodePairRef.Some? ==> NameShaped(a.nodePairRef.value))
    && (a.feeRecipient.Some? ==> HexShaped(a.feeRecipient.value, 40))
    && (a.maintenanceReason.Some? ==> 3 <= |a.maintenanceReason.value| <= 256)
    && (a.lifecycle == Active ==> a.nodePairRef.Some?)
    && (a.signingEnabled ==>
          && a.lifecycle == Active
          && a.safety == Safety(true, true)
          && a.nodePairRef.Some? && a.feeRecipient.Some?)
  }

  predicate IdentityValid(i: ValidatorIdentity) {
    && NameShaped(i.name) && NameShaped(i.customerRef) && NameShaped(i.networkProfileRef)
    && (i.publicKey.Some? ==> HexShaped(i.publicKey.value, 96))
    && (i.signingSecretRef.Some? ==> SecretShaped(i.signingSecretRef.value))
    && (i.lifecycle == Registered ==> i.publicKey.Some? && i.signingSecretRef.Some?)
  }

  predicate ClientAdapterValid(a: Adapter) {
    && !a.signingQualified
    && ((a.mode == "builtin" && a.network in {Named("sepolia"), Named("hoodi")})
        || (a.mode == "artifact-bundle" && a.network == Absent))
  }

  /** Only the signer, and only in artifact mode, may be qualified for signing. */
  predicate SignerAdapterValid(a: Adapter) {
    ClientAdapterValid(a.(signingQualified := false)) && (a.signingQualified ==> a.mode == "artifact-bundle")
  }

  predicate Hexadecimal(value: Json, n: nat) {
    value.Str? && HexShaped(value.text, n)
  }

  predicate AtLeast(value: Json, n: int) {
    value.Int? && value.number >= n
  }

  /** What identifies the chain: exactly these six entries. */
  predicate ChainValid(value: Json) {
    && value.Obj?
    && value.fields.Keys == {
         "executionChainId", "executionNetworkId", "executionGenesisHash", "consensusGenesisValidatorsRoot",
         "genesisForkVersion", "consensusGenesisTime"}
    && AtLeast(value.fields["executionChainId"], 1) && AtLeast(value.fields["executionNetworkId"], 1)
    && Hexadecimal(value.fields["executionGenesisHash"], 64)
    && Hexadecimal(value.fields["consensusGenesisValidatorsRoot"], 64)
    && Hexadecimal(value.fields["genesisForkVersion"], 8)
    && AtLeast(value.fields["consensusGenesisTime"], 0)
  }

  const BUNDLE_FILES := {
    "executionGenesis", "executionChainspec", "consensusConfig", "consensusGenesis", "consensusGenesisValidatorsRoot",
    "executionBootnodes", "executionBootnode", "consensusBootnodes", "consensusBootnodesText", "nodeVariables",
    "depositContract", "depositContractBlock", "depositContractBlockHash", "retentionVariables"}

  predicate BundleValid(bundle: ArtifactBundle) {
    && HttpsShaped(bundle.url)
    && |bundle.sha256| == 64 && IsHex(bundle.sha256)
    && bundle.files.Keys == BUNDLE_FILES
    && forall k | k in bundle.files :: BundlePathShaped(bundle.files[k])
  }

  predicate CheckpointValid(checkpoint: Checkpoint) {
    && HttpsShaped(checkpoint.primaryUrl)
    && checkpoint.verificationUrls != []
    && (forall url | url in checkpoint.verificationUrls :: HttpsShaped(url))
    && forall i, j | 0 <= i < j < |checkpoint.verificationUrls| ::
         checkpoint.verificationUrls[i] != checkpoint.verificationUrls[j]
  }

  const EXECUTION_CLIENTS := {"geth", "nethermind", "besu", "reth", "erigon"}
  const CONSENSUS_CLIENTS := {"lighthouse", "prysm", "teku", "nimbus"}

  predicate NetworkValid(p: NetworkProfile) {
    && NameShaped(p.name) && FamilyShaped(p.family) && GenerationShaped(p.generation)
    && ChainValid(p.identity)
    && "geth" in p.clients && "lighthouse" in p.clients
    && (forall c | c in p.clients :: c in EXECUTION_CLIENTS + CONSENSUS_CLIENTS && ClientAdapterValid(p.clients[c]))
    && SignerAdapterValid(p.signer)
    && (p.artifactBundle.Some? ==> BundleValid(p.artifactBundle.value))
    && (p.checkpointSync.Some? ==> CheckpointValid(p.checkpointSync.value))
    && (p.resetPolicy == ReplaceData ==> p.artifactBundle.Some?)
    && (p.clients["geth"].mode == "artifact-bundle" || p.clients["lighthouse"].mode == "artifact-bundle" ==>
          p.artifactBundle.Some? && p.checkpointSync.Some? && p.resetPolicy == ReplaceData)
    && (p.signer.mode == "artifact-bundle" ==> p.artifactBundle.Some?)
  }

  predicate ServiceValid(s: ServiceProfile) {
    NameShaped(s.name) && s.executionClient in EXECUTION_CLIENTS && s.consensusClient in CONSENSUS_CLIENTS
  }

  predicate Valid(d: Document) {
    match d
    case CustomerDocument(c) => CustomerValid(c)
    case NetworkDocument(p) => NetworkValid(p)
    case ServiceDocument(s) => ServiceValid(s)
    case IdentityDocument(i) => IdentityValid(i)
    case AssignmentDocument(a) => AssignmentValid(a)
  }
}
