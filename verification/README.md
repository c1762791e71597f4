# Verified model of the validator platform's decision code

This project models, in Dafny, the decision and state code of a repository that runs Ethereum validators
from a catalog of YAML documents, and proves what that code guarantees when its parts are taken together.

| files | models |
|---|---|
| `Ordering`, `Text`, `Json`, `Rounding` | sorted lists and sets, string operations, the compact JSON serialiser, Python's rounding |
| `Catalog`, `CatalogRules`, `CatalogDocuments` | the catalog documents, the relational checker, and what it asks of the documents |
| `Projection`, `Schema`, `Lifecycle`, `CatalogSafety`, `CatalogExample` | the release compiler and its output directory, the JSON schemas of the documents, the lifecycle tool, and what the three guarantee over all runs |
| `StatusCache`, `PairSnapshot`, `PortalContract` | the status API's locked cache and its interleavings, the join of metric vectors, and the portal's guard |
| `Images`, `ImageDiscovery`, `ImageInventory`, `ScanEvaluation`, `ScanAggregation`, `ScanConservation`, `InventoryComparison`, `EvidencePipeline` | the image evidence pipeline, from the discovery of references to the published summary |
| `SqlProjection`, `QueryCheck`, `Scrypt` | the SQL projection splitter and the query check of the recovery drill, and the keystore work factors |

Code that changes things step by step is modelled by methods and classes (`AssignmentRecord`, `Repository`,
`Directory`, `StatusCache`, `Discovery`), each proved against a specification; pure code is modelled by
functions. The theorems are lemmas about those specifications.

Python dictionaries and sets are visited in an arbitrary order where the code does so; what is proved holds for
every order. SHA-256, YAML printing, image ids, link building, the clock and the reading of timestamps are
parameters of the members that use them, and so are the class of word characters of regular expressions and the
lower case of a query.

## Where the code differs from what one would expect

- Signing on a built-in signer passes the relational checker (tools/validate_catalog.py:223-236) but is always
  refused by the compiler (tools/render_local_assignments.py:190-194), because the schema forbids the
  qualification that the compiler asks for. `CatalogSafety.ValidatedResidue` gives the exact condition,
  `CatalogExample.BuiltinSignerIsRefused` a catalog.
- When built-in networks disagree, the family finding depends on the iteration order of a set
  (tools/validate_catalog.py:158-165), so it may or may not accompany the disagreement; whether there is any
  finding does not depend on it: `CatalogRules.RelationalErrors`. The order decides exactly when the family's own
  network and another are both named: `CatalogRules.OrderDecidesFamilyFinding`, with a profile in
  `CatalogExample.FamilyFindingCanGoEitherWay`.
- The cache age can be negative, because the clock is read before the lock
  (platform/apps/portal/dev/server.py:442-446): `StatusCache.AgeCanBeNegative`. It is negative exactly when the
  stamp of the cached build is more than half a millisecond ahead of the clock reading of the call that is
  answered from it: `StatusCache.NegativeAgeInRunsIff`.
- Two releases can have one resource name: the checker keeps live assignments apart, and a stopped one that
  records no node pair derives its name from its validator (tools/render_local_assignments.py:241-249).
  `CatalogSafety.SharedNameIff` says exactly when, `CatalogExample.TwoReleasesOneName` gives a catalog; two active
  releases never share a name: `CatalogSafety.ActiveReleasesAreApart`.
- The check that a query is aggregate-only looks at the beginning and the end of each item
  (tools/verify_rds_recovery_drill_preflight.py:961-981), so something may stand between the aggregate call and the
  alias: `QueryCheck.NotOnlyAggregates`. `QueryCheck.AcceptedItems` says what acceptance does guarantee, and exactly
  when an item is the one call.
- A blank item between two commas is kept, a blank last one is not
  (tools/verify_rds_recovery_drill_preflight.py:915-921): `SqlProjection.BlankItem`, `SqlProjection.SplitAgain`.
- The guard of the portal page asks for finite numbers in the scalar sections and in the signing section of a pair, but
  not in the targets, sync and resources of a pair (control-plane/portal/components/live-status.tsx:114-139):
  `PortalContract.GuardAcceptsIff` says exactly when it accepts a document of the server.
- Scrypt parameters with r = 1 and N >= 2^16 are accepted although section 6 of RFC 7914 excludes them
  (hack/onboard-web3signer-keystore.py:149-152): `Scrypt.BlockSizeOneIsNotChecked`.
- `write_projection` removes only `*.yaml` files, and `projection_errors` looks only at those, so writing and
  checking agree exactly for maps whose names all end in `.yaml`: `Projection.WriteThenCheck`.

## Model

| member | source | states |
|---|---|---|
| Json.DumpsUnique | tools/render_local_assignments.py:53 | A serialised value is a prefix code: text of one value followed by a delimiter cannot be read as another value and another rest |
| Json.DumpsInjective | tools/render_local_assignments.py:53 | The compact sorted-key serialisation of null, booleans, integers, strings, lists and string-keyed objects is equal for two values if and only if the values are equal |
| Json.EscapeOnUnique | tools/render_local_assignments.py:53 | Escaped strings are decodable: equal escaped texts up to the closing quote come from equal strings |
| Json.DumpsGrammar | tools/render_local_assignments.py:53 | The serialised text itself: literals, lists and objects with commas and no blanks, members by key in order |
| Json.ShortEscapes | tools/render_local_assignments.py:53 | The two-character escapes of quote, backslash, line end and tab |
| Json.FourDigits | tools/render_local_assignments.py:53 | A character outside ASCII is written with four hexadecimal digits |
| Json.SurrogatePair | tools/render_local_assignments.py:53 | A character beyond the first plane is written as two surrogates |
| Json.DecimalDigits | tools/render_local_assignments.py:53 | Integers are written in decimal, without leading zeros |
| Text.LowerIff | tools/validate_catalog.py:176-178 | Two strings agree in lower case if and only if they agree character by character up to the case of ASCII letters |
| Text.SplitIff | tools/validate_catalog.py:139-143 | The parts of a path are exactly the stretches without a slash between two slashes or the ends |
| Text.ContainsIff | tools/validate_catalog.py:123-129 | A text contains another if and only if it is something, the other, and something |
| Rounding.HalfEvenIff | platform/apps/portal/dev/server.py:210 | Rounding gives the nearest integer, of two equally near ones the even one, and nothing else |
| Ordering.SortCanonical | tools/compare_image_inventories.py:35-46 | Sorted lists are equal if and only if one input is a rearrangement of the other |
| Ordering.SortedIff | tools/compare_image_inventories.py:40-46 | A list is sorted if and only if every element is in order with each that comes later |
| Ordering.AscendingUnique | tools/render_local_assignments.py:368 | A set has exactly one strictly increasing listing, so `sorted(set)` does not depend on iteration order |
| Ordering.TextLeIff | tools/render_local_assignments.py:368 | Strings are ordered as prefixes, or by the code point at which they first differ |
| Catalog.IndexHolds | tools/validate_catalog.py:66-76 | Without duplicate names the index built by the first loop holds exactly the documents |
| Catalog.IndexAnyOrder | tools/validate_catalog.py:66-76 | Without duplicate names the index does not depend on the order of the documents |
| Catalog.FirstIsKept | tools/validate_catalog.py:66-76 | Of documents with one kind and name the index holds the first, whatever follows |
| CatalogRules.BuildIndex | tools/validate_catalog.py:66-76 | The indexing loop keeps the first document of each kind and name and reports exactly the repeated names |
| CatalogRules.CheckCustomers | tools/validate_catalog.py:79-83 | Although the loop overwrites its table on duplicates, it reports exactly the customer ids that two customers share |
| CatalogRules.CheckNetwork | tools/validate_catalog.py:85-165 | The profile loop reports every broken profile rule; only the family finding may depend on which of several disagreeing built-in networks comes first |
| CatalogRules.OrderDecidesFamilyFinding | tools/validate_catalog.py:145-165 | The set order decides whether the family finding is reported exactly when the family is hoodi or sepolia and the built-in networks hold both it and another |
| CatalogRules.CheckIdentities | tools/validate_catalog.py:167-183 | Reports exactly the unresolved references and the lower-cased public keys that two identities share |
| CatalogRules.CheckAssignments | tools/validate_catalog.py:187-236 | Reports exactly the broken references and signing gates, and collects exactly the live assignments by validator and by node pair |
| CatalogRules.CheckOffboarding | tools/validate_catalog.py:250-262 | Reports exactly the leaving customers that own an identity with a live assignment, with those identities |
| CatalogRules.RelationalErrors | tools/validate_catalog.py:66-264 | Every finding that is due is reported, nothing is reported without cause, and nothing at all is reported if and only if the catalog is consistent |
| CatalogRules.ConsistentIff | tools/validate_catalog.py:66-264 | No finding is due if and only if the declarative specification holds: unique names, customer ids and normalised keys, resolved references, signing gates, sound profiles, exclusive validators and node pairs, no leaving customer with live assignments |
| CatalogRules.ConsistentAnyOrder | tools/validate_catalog.py:66-76 | Whether a catalog is consistent does not depend on the order of its documents |
| CatalogDocuments.ConsistentMeans | tools/validate_catalog.py:66-264 | No finding is due if and only if the documents keep the rules, said without index or tables: names, customer ids and keys differ, the latter in more than case; profiles are sound; every identity has its customer and network, every assignment its identity, service and network, that of its identity; what signs may sign, what lives belongs to a customer that stays, and no two live assignments use one validator or node pair |
| CatalogRules.LiveStates | tools/validate_catalog.py:26 | Every assignment that is not stopped, archiving or archived is live; every customer that is not active or suspended is leaving |
| CatalogRules.SoundNetworkMeans | tools/validate_catalog.py:85-165 | A profile is sound if and only if its adapters share one mode, data replacement goes with the generation name and artifact mode, the bundle URL names its release and nowhere `/latest/` in any case, no bundled path repeats or steps upwards, and built-in adapters name one network, the family where it has one |
| CatalogRules.SharedKeysAreReported | tools/validate_catalog.py:176-183 | Two identities whose keys differ at most in the case of letters make the finding of a shared key due |
| CatalogRules.DistinctKeysIff | tools/validate_catalog.py:176-183 | Keys are distinct if and only if no two identities have keys that differ at most in the case of letters |
| Projection.FingerprintPayloadIff | tools/render_local_assignments.py:39-54 | Two profiles are hashed from the same text if and only if family, generation, identity and artifact digest agree; endpoints never matter |
| Projection.FingerprintIdentifiesChain | tools/render_local_assignments.py:39-54 | With a hash that keeps the two texts apart, equal fingerprints mean the same chain and artifact |
| Projection.FingerprintText | tools/render_local_assignments.py:39-54 | The hashed text: the digest, family, generation and identity under their names, in this order |
| Projection.DefaultPairMeans | tools/render_local_assignments.py:57-69 | A derived pair name is the prefixed validator name, or of one longer than 58 characters the first 49 and eight of a digest |
| Projection.BuildRelease | tools/render_local_assignments.py:109-355 | Succeeds if and only if the assignment renders, yields exactly the specified release, and any refusal gives a reason that holds |
| Projection.RenderedFiles | tools/render_local_assignments.py:363-382 | Succeeds if and only if there is an assignment and every one renders; then the files are one release per assignment and the sorted index |
| Projection.RenderedOnce | tools/render_local_assignments.py:363-382 | The specification of the generated files determines them |
| Projection.Directory.WriteProjection | tools/render_local_assignments.py:385-395 | After writing, the directory holds the generated files and, of its former ones, exactly those that are not YAML |
| Projection.Directory.ProjectionErrors | tools/render_local_assignments.py:398-413 | Reports exactly the missing, stale and differing files |
| Projection.NoDriftIff | tools/render_local_assignments.py:398-413 | No drift is reported if and only if the YAML files of the directory are the generated map |
| Projection.WriteThenCheck | tools/render_local_assignments.py:385-413 | From any directory, writing twice is writing once, and a check after writing is clean if and only if every generated name ends in .yaml |
| Projection.RenderedAreYaml | tools/render_local_assignments.py:363-382 | Every name the compiler generates ends in .yaml, so the previous condition always holds for its own output |
| Lifecycle.AssignmentRecord.Transition | tools/set_node_pair_lifecycle.py:54-89 | Mutates the one assignment to the specified value if the transition is allowed, and leaves it untouched otherwise |
| Lifecycle.Repository.FindAssignment | tools/set_node_pair_lifecycle.py:40-51 | Finds the only file of the assignment directory with the name; fails with the respective error exactly when there is none or more than one |
| Lifecycle.InDirectoryIff | tools/set_node_pair_lifecycle.py:40-45 | The files looked at are those directly in the assignment directory whose names end in .yaml |
| Lifecycle.Repository.ValidateWith | tools/set_node_pair_lifecycle.py:92-108 | Replaces the first document at the path and accepts exactly when schema and relational rules hold of the replaced list |
| Lifecycle.Repository.Handle | tools/set_node_pair_lifecycle.py:119-145 | One run of the tool: it succeeds if and only if the request is acceptable, and catalog and projection move exactly as one step of the state machine, or not at all |
| Lifecycle.ReplacedIndex | tools/set_node_pair_lifecycle.py:131-133 | Substituting the assignment in the loaded catalog gives the same index as loading the changed files |
| CatalogSafety.NoKeySignsTwice | tools/validate_catalog.py:176-183 | In a catalog without findings, two distinct rendered releases that sign have different identities, keys that differ in more than the case of letters, and different resource names |
| CatalogSafety.SigningIsEntitled | tools/validate_catalog.py:208-236 | A rendered release that signs is of an active assignment with both confirmations, a registered identity that is not synthetic, an active customer, and a service and a signer that allow it |
| CatalogSafety.RendersIff | tools/render_local_assignments.py:109-249 | An assignment can be rendered if and only if its references resolve, its clients are supported, network and customer fit, all clients run in one mode whose needs are there, an active one records a node pair, and a signing one has key, secret, recipient, confirmations and a qualified signer |
| CatalogSafety.ReleaseSays | tools/render_local_assignments.py:109-355 | Every field of a release in terms of its documents: names, owner, chart state, waiting exactly when not active, and the signing values exactly when signing is enabled |
| CatalogSafety.ReleaseRunsItsClients | tools/render_local_assignments.py:327-328 | The two clients of a release are those of its service profile, each in its own place, both supported, and the network has an adapter for the first |
| CatalogSafety.ReleaseCarriesItsNetwork | tools/render_local_assignments.py:256-320 | The network of a release is its profile with the fingerprint, and carries bundle and checkpoints exactly in artifact mode |
| CatalogSafety.ActiveReleasesAreApart | tools/validate_catalog.py:208-248 | Any two rendered active releases, signing or not, are of different validators and have different resource names |
| CatalogSafety.SharedNameIff | tools/render_local_assignments.py:241-249 | Two rendered releases share their resource name if and only if they are for one node pair, recorded or derived, and are not both active, unless shortened digests collide |
| CatalogSafety.DefaultPairsApart | tools/render_local_assignments.py:57-69 | Names of up to 58 characters derive the same node pair only if they are the same |
| CatalogSafety.ProjectionResidue | tools/render_local_assignments.py:145-249 | Once the checker is silent, rendering fails exactly for the residue: unsupported client, missing adapter, unknown mode, missing artifact bundle, active without pair reference, or, when signing, missing key, secret, recipient, safety or built-in qualification |
| CatalogSafety.ValidatedResidue | tools/render_local_assignments.py:145-249 | With the schemas satisfied as well, rendering fails exactly for a missing execution adapter or for signing on a built-in signer |
| CatalogSafety.SelectorsFollowMode | tools/render_local_assignments.py:256-280 | Artifact-mode releases carry a null network selector in every client and in the signer; built-in releases carry the adapters unchanged |
| CatalogSafety.StepFrame | tools/set_node_pair_lifecycle.py:119-145 | A request changes at most the named, non-signing assignment, in its lifecycle fields only, and a refused request changes nothing |
| CatalogSafety.RunFrame | tools/set_node_pair_lifecycle.py:119-145 | The same frame over every finite run of requests, accepted or refused |
| CatalogSafety.StepInSync | tools/set_node_pair_lifecycle.py:119-145 | After an accepted request the catalog passes every check, the projection shows exactly it, and files that are not YAML are kept |
| CatalogSafety.RunInSync | tools/set_node_pair_lifecycle.py:119-145 | Every run either ends in its starting state or in one where the projection equals the rendering of a sound catalog |
| CatalogSafety.RunSafety | tools/set_node_pair_lifecycle.py:54-145 | Over every run from a sound catalog: the catalog stays sound, the set of signing assignments and every rendered resource name stay the same, and at the end no two releases sign with keys that differ at most in the case of letters |
| CatalogSafety.DefaultPairShaped | tools/render_local_assignments.py:57-69 | A derived node pair name is always a valid resource name of at most 63 characters |
| CatalogSafety.ActivationAcceptedIff | tools/set_node_pair_lifecycle.py:61-88 | In a sound catalog an activation is accepted if and only if the assignment is stopped and does not sign, the trimmed reason has 3 to 256 characters, no other live assignment uses its validator or its effective node pair, and its customer is not leaving |
| CatalogSafety.StopAlwaysAccepted | tools/set_node_pair_lifecycle.py:61-89 | Stopping an active, non-signing assignment of a sound catalog with a fitting reason is always accepted |
| CatalogSafety.StopAcceptedIff | tools/set_node_pair_lifecycle.py:61-89 | A stop is accepted if and only if the assignment is active and does not sign and the trimmed reason has 3 to 256 characters |
| CatalogSafety.ActivationTakesEffect | tools/set_node_pair_lifecycle.py:54-145 | After an accepted activation the named file, stopped before, is active, records its node pair, has both confirmations withdrawn and the trimmed reason, no other file differs, and its release is active |
| CatalogSafety.StopTakesEffect | tools/set_node_pair_lifecycle.py:54-145 | After an accepted stop the named file, active before, is stopped in the same way, and so is its release |
| CatalogSafety.ActivationCanBeUndone | tools/set_node_pair_lifecycle.py:54-145 | After an accepted activation of a sound catalog a second one changes nothing, and the stop is accepted: every file is as before except for the node pair, the confirmations and the reason of the assignment, and every release as before except for its slashing confirmation |
| CatalogExample.ExampleIsSound | tools/validate_catalog.py:49-264 | A concrete catalog of five files, with values of the patterns the schemas require, that passes schemas and relational checker and renders, so the guarantees about sound catalogs are not vacuous |
| CatalogExample.ExampleActivates | tools/set_node_pair_lifecycle.py:119-145 | A concrete activation request that this catalog accepts |
| CatalogExample.ExampleRelease | tools/render_local_assignments.py:109-355 | A release of this catalog, field by field |
| CatalogExample.ExampleProjection | tools/render_local_assignments.py:363-382 | All generated files of a catalog with one assignment |
| CatalogExample.SigningRelease | tools/render_local_assignments.py:109-355 | A release that signs, in artifact mode, field by field |
| CatalogExample.OneKeyInTwoCases | tools/validate_catalog.py:176-183 | Two identities that write one key in two cases: every catalog that holds both has the finding and is not consistent |
| CatalogExample.BuiltinSignerIsRefused | tools/render_local_assignments.py:190-194 | A concrete catalog that satisfies the schemas and the relational checker and is refused by the compiler, because its assignment signs on a built-in signer |
| CatalogExample.TwoReleasesOneName | tools/render_local_assignments.py:241-249 | A concrete catalog that satisfies the schemas and the relational checker, and in which an active and a stopped release of one validator are rendered under one resource name |
| CatalogExample.TwoCanSign | tools/validate_catalog.py:176-248 | A concrete catalog that satisfies the schemas and the relational checker, and in which two rendered releases sign: what is said of two signing releases is about something |
| CatalogExample.FamilyFindingCanGoEitherWay | tools/validate_catalog.py:158-165 | A concrete profile for which the family finding depends on the order of a set |
| StatusCache.StatusCache.GetSnapshot | platform/apps/portal/dev/server.py:440-461 | The locked section behaves as the specified step of the cache, and the answer shares no object with what stays cached |
| StatusCache.MutatingAnswers | platform/apps/portal/dev/server.py:444-461 | Over any sequence of calls, whatever callers write into whichever of their answers and whenever, every answer and the cache are what they would have been anyway |
| StatusCache.InvariantHolds | platform/apps/portal/dev/server.py:440-461 | The invariant of every interleaving of callers that read the clock before taking the lock |
| StatusCache.RefreshesAreRationed | platform/apps/portal/dev/server.py:440-461 | In every interleaving refresh stamps grow by at least the TTL, so k refreshes take at least (k - 1) TTLs of clock time |
| StatusCache.AnswersAreBuilds | platform/apps/portal/dev/server.py:440-461 | Every answer is a successful build, this one or an earlier one, with its age; it is marked stale exactly when this build failed and the cached one is between TTL and STALE_TTL old; failures leave the cache unchanged |
| StatusCache.CallsByAge | platform/apps/portal/dev/server.py:440-461 | Every call of every interleaving, by the age of what it finds: younger than the TTL it is handed out; otherwise a build that succeeds is the answer and what is cached; one that fails is covered up below STALE_TTL, marked, with its age |
| StatusCache.LatePollRebuilds | platform/apps/portal/dev/server.py:440-461 | Three polls as literals: after the TTL the new build is served and cached; a failed build at the TTL is covered up and marked; at STALE_TTL it is not |
| StatusCache.RefreshedIff | platform/apps/portal/dev/server.py:449-461 | A call refreshes the cache if and only if its build succeeds and nothing cached is younger than the TTL |
| StatusCache.CallsAreLinked | platform/apps/portal/dev/server.py:436-461 | What a call finds is what the call before it left, and the first finds nothing |
| StatusCache.AgeCanBeNegative | platform/apps/portal/dev/server.py:442-446 | A concrete interleaving in which an answer reports a negative cache age |
| StatusCache.NegativeAgeIff | platform/apps/portal/dev/server.py:442-456 | A call reports a negative age if and only if it is answered from the cache and the stamp of the cached build is more than half a millisecond ahead of its own clock reading; with a TTL that is not negative, the second condition alone |
| StatusCache.NegativeAgeInRunsIff | platform/apps/portal/dev/server.py:440-461 | The same for every call of every interleaving |
| PairSnapshot.Number | platform/apps/portal/dev/server.py:201-210 | Only finite samples are passed on, changed by at most half a millionth |
| PairSnapshot.PairIsFinite | platform/apps/portal/dev/server.py:201-346 | Whatever a scrape holds, no infinity and no NaN reaches a pair |
| PairSnapshot.BuildPairs | platform/apps/portal/dev/server.py:285-346 | The folding loops yield exactly the specified list: one record per assignment with a target record, strictly sorted, identity from the first target record, every metric from the last matching record |
| PairSnapshot.SnapshotIds | platform/apps/portal/dev/server.py:285-346 | An assignment is listed if and only if some target record with a known component carries its id; no other metric creates a pair |
| PairSnapshot.UnsafeLabelsDoNotMatter | platform/apps/portal/dev/server.py:250-264 | Two scrapes that agree on safe labels and sample values give the same list, whatever their other labels |
| PairSnapshot.SampleMeans | platform/apps/portal/dev/server.py:201-210 | A finite sample is passed on, a whole number as it is and any other rounded to millionths; everything else is null |
| PairSnapshot.SnapshotMeans | platform/apps/portal/dev/server.py:267-346 | Record by record: the pairs are sorted, there is one for every assignment with a target record of one of its clients, its labels are those of the first of these, and every number is that of the last record of its own vector about that assignment and client |
| PortalContract.BuildSnapshot | platform/apps/portal/dev/server.py:349-432 | A build fails exactly when a scalar query has more than one series or a malformed sample; otherwise it holds every scalar and the pair list of the scrape, the time and the configured names |
| PortalContract.BuildIsFinite | platform/apps/portal/dev/server.py:201-264 | Every number of a built snapshot is finite, whatever Prometheus answered |
| PortalContract.EveryDocumentPasses | control-plane/portal/components/live-status.tsx:97-212 | In every interleaving whose builds are snapshots of scrapes, every answer, fresh, cached or stale, satisfies the guard of the portal page, which demands finite numbers, and alert counts that are not available are null |
| PortalContract.GuardAcceptsIff | control-plane/portal/components/live-status.tsx:97-212 | The guard accepts a document of the server if and only if every scalar it shows and every number of validators of a pair is null or finite; it does not look at the numbers of targets, sync and resources |
| PortalContract.GuardNeedsFinite | control-plane/portal/components/live-status.tsx:101-112 | The guard refuses a document that shows an infinity or NaN in any scalar, so the filter of the server is needed |
| PortalContract.BuildMeans | platform/apps/portal/dev/server.py:349-432 | Every scalar of a build is the number of the one sample of its query or null, readiness is that of its own query, and the pairs are those the scrape reports |
| PortalContract.GuardMeans | control-plane/portal/components/live-status.tsx:140-158 | What the guard asks of version, time, source, cluster names and the ids of pairs |
| PortalContract.GuardOfPair | control-plane/portal/components/live-status.tsx:114-138 | What the guard asks of a pair |
| PortalContract.NodeGroupsKnownIff | platform/apps/portal/dev/server.py:363 | Node groups are known if and only if their count is a number greater than zero |
| PortalContract.SourceIsShown | platform/apps/portal/dev/server.py:365-375 | Version, time, source section and names stand in their places |
| PortalContract.NodesAreShown | platform/apps/portal/dev/server.py:376-397 | Which scalar stands where among nodes and pods; the two node groups only when nodes are labelled |
| PortalContract.ResourcesAreShown | platform/apps/portal/dev/server.py:385-398 | Which scalar stands where among capacity, usage and restarts |
| PortalContract.WorkloadsAreShown | platform/apps/portal/dev/server.py:399-410 | Which scalar stands where among the workloads |
| PortalContract.SigningIsShown | platform/apps/portal/dev/server.py:411-418 | Which scalar stands where in the signing section |
| PortalContract.AlertsAreShown | platform/apps/portal/dev/server.py:419-430 | Alert counts stand in their places when alert evaluation is ready, and are null otherwise |
| PortalContract.PairIsShown | platform/apps/portal/dev/server.py:294-311 | The id and cluster of a pair stand in their places, a missing label as null |
| PortalContract.StateIsShown | platform/apps/portal/dev/server.py:294-311 | So do its environment and lifecycle state |
| PortalContract.NetworkIsShown | platform/apps/portal/dev/server.py:294-311 | So do its network, profile and generation |
| PortalContract.ClientsAreShown | platform/apps/portal/dev/server.py:294-311 | So do its two clients and its dashboard link |
| PortalContract.ComponentsAreShown | platform/apps/portal/dev/server.py:285-346 | Which number of a pair stands where among targets and resources |
| PortalContract.SyncIsShown | platform/apps/portal/dev/server.py:314-331 | Which of the nine sync numbers of a pair stands under which name |
| ImageDiscovery.WalkExact | tools/discover_container_images.py:177-235 | Each of the two walkers yields an image at a location if and only if a path of the document names that image there, at any depth |
| ImageDiscovery.WalkSound | tools/discover_container_images.py:177-235 | Everything a walker yields stands at a path whose key or list names the image |
| ImageDiscovery.WalkComplete | tools/discover_container_images.py:177-235 | Nothing that a path names escapes the walker |
| ImageDiscovery.NamedImageIff | tools/discover_container_images.py:177-197 | An image value names itself, or an object spells it out: registry without trailing slashes, repository without leading ones, and the digest or, without one, the tag |
| ImageDiscovery.ReplacementIff | tools/discover_container_images.py:199-216 | A replacement names its new name, or without one its name, by its digest or new tag |
| ImageDiscovery.KeysOfInterest | tools/discover_container_images.py:177-235 | Five keys of a document hold image values; a workflow names a container by text, or the image of an action behind `docker://` |
| ImageDiscovery.NamesImageIff | tools/discover_container_images.py:177-235 | A path names an image if and only if it ends in such an entry, or in an item of a list named `images` |
| Images.PinnedIff | tools/discover_container_images.py:37-40 | A reference is pinned if and only if it is a repository, the mark and 64 hexadecimal digits, and these parts are what is read from it |
| Images.SubjectIff | tools/aggregate_image_scan_decisions.py:69-82 | Image and digest make a subject if and only if the image is pinned and the digest is its own, with or without its algorithm |
| ImageInventory.Discovery.AddImage | tools/discover_container_images.py:248-252 | Accepts exactly pinned references and adds the source to the image, creating the entry if needed |
| ImageInventory.Discovery.AddImageOrGap | tools/discover_container_images.py:255-290 | Each reference becomes a source of an exact subject or one gap, or is refused as a malformed digest |
| ImageInventory.Discovery.AddDocument | tools/discover_container_images.py:330-337 | Every reference of a document, and of its workflow containers, is filed if and only if every one that claims a digest is well-formed |
| ImageInventory.Discovery.AddDocuments | tools/discover_container_images.py:311-337 | The same for the loop over all documents |
| ImageInventory.Discovery.AddExactReferences | tools/discover_container_images.py:311-348 | The references of lines and contracts, which must be images by their form: all are filed as subjects, or the discovery stops |
| ImageInventory.Discovery.BuildInventory | tools/discover_container_images.py:451-486 | Succeeds if and only if something was discovered and ids are distinct; then one record per image and each distinct gap once, both sorted |
| ImageInventory.Discover | tools/discover_container_images.py:307-486 | From all feeds to the inventory: it is built if and only if every exact reference and every claimed digest is well-formed, there is one, and the generated ids are distinct; and it is the inventory of the references of all feeds and of the noted chart gaps |
| ImageInventory.InventoryAnyOrder | tools/discover_container_images.py:307-486 | Neither the order in which references are found nor their repetition changes what is built |
| ImageInventory.EveryImageIsAccounted | tools/discover_container_images.py:177-337 | Whatever other references there are, everything that a path of any document names, at any depth, is in the built inventory: among the sources of its subject or among the gaps |
| ImageInventory.SubjectsAreNamed | tools/discover_container_images.py:177-419 | An image is a subject if and only if some path of some document names it with a digest, or a reference of the line scans or of the contracts claims it |
| ImageInventory.RecordsMean | tools/discover_container_images.py:456-478 | The record of an image has the id of its repository and digits, repository and digest in their places, and as sources exactly the places of the references that claim it, in order |
| ImageInventory.InventoryIsOrdered | tools/discover_container_images.py:456-486 | Records are listed by image and gaps by kind, subject, source and reason, each once; the gaps are the noted ones and those of references without a digest |
| ImageInventory.GapMeans | tools/discover_container_images.py:261-290 | Kind, subject, source and reason of the gap of every reference without a digest |
| ImageInventory.ClaimsIff | tools/discover_container_images.py:270 | A reference claims a digest if and only if the mark stands anywhere in it when trimmed |
| ImageInventory.GapLeIff | tools/discover_container_images.py:481-486 | Gaps are ordered by the first of kind, subject, source and reason in which they differ |
| ImageInventory.InventoryDocument | tools/discover_container_images.py:489-502 | The document of an inventory, entry by entry |
| ImageInventory.WorkflowIsRead | tools/discover_container_images.py:177-337 | A concrete workflow whose container and replacement are found, with their places as text |
| ImageInventory.BuiltInventoryLoads | tools/discover_container_images.py:489-502 | The aggregator accepts every built inventory and reads back exactly the discovered subjects and the number of distinct gaps |
| ImageInventory.RebuiltComparison | tools/compare_image_inventories.py:30-68 | Comparing two built inventories finds a difference if and only if the sets of images or of gaps differ; sources do not count |
| ScanEvaluation.HighCriticalFindings | tools/evaluate_image_scan.py:96-146 | Succeeds exactly on well-formed reports and lists exactly their CRITICAL and HIGH vulnerabilities, in order |
| ScanEvaluation.LoadExceptions | tools/evaluate_image_scan.py:149-209 | Succeeds exactly when there is no document or one of the required shape whose every entry holds and none repeats, and then excepts one observed id per entry and returns the entries in order |
| ScanEvaluation.ExceptionsInOrder | tools/evaluate_image_scan.py:209 | The recorded exceptions are a rearrangement of the given ones, in the order of their ids |
| ScanEvaluation.Evaluate | tools/evaluate_image_scan.py:219-275 | Decides exactly the decidable inputs, an exception document of the required shape among them, with the times, the counts by severity and availability, the applied exceptions and the outcome that follows from them |
| ScanEvaluation.DecidableIff | tools/evaluate_image_scan.py:72-93 | A decision is made if and only if image, report and record name the same digest and time, the report is not later than the evaluation, it can be read, and all exceptions hold |
| ScanEvaluation.ReportIff | tools/evaluate_image_scan.py:96-146 | A report can be read if and only if its lists are lists, a null list of vulnerabilities being empty, and every CRITICAL or HIGH entry has a well-formed id and a fixed version that is a text or missing |
| ScanEvaluation.HoldsIff | tools/evaluate_image_scan.py:185-208 | An exception holds if and only if it is for this digest, well-formed, explained in 20 characters or more, owned, not expired, and about something that was found |
| ScanEvaluation.EntriesIff | tools/evaluate_image_scan.py:149-185 | An exception document can be read if and only if it is missing, or has just a version that equals one and a list of entries with exactly the five texts |
| ScanEvaluation.EntryIff | tools/evaluate_image_scan.py:169-178 | An exception is an object of exactly five texts, read under their names |
| ScanEvaluation.TotalIsSeverityCount | tools/evaluate_image_scan.py:243-251 | The total of a severity is the number of its findings, whatever their availability |
| ScanEvaluation.ExceptingOnlyLowers | tools/evaluate_image_scan.py:249-251 | Excepting ids never raises a count |
| ScanAggregation.LoadInventory | tools/aggregate_image_scan_decisions.py:84-108 | Accepts exactly well-formed inventories without repeated subjects, and counts each subject once |
| ScanAggregation.Aggregate | tools/aggregate_image_scan_decisions.py:111-210 | Succeeds exactly when decisions, SBOMs and inventory have the same subjects, each once, and then publishes their sums |
| ScanAggregation.SummaryAnyOrder | tools/aggregate_image_scan_decisions.py:111-210 | The summary does not depend on the order of the decision and SBOM files |
| ScanAggregation.DecisionIff | tools/aggregate_image_scan_decisions.py:131-160 | What a decision file must hold to be read, entry by entry, and what is read from it |
| ScanAggregation.BlockIff | tools/aggregate_image_scan_decisions.py:54-66 | A block of counts is an object of exactly three numbers that are not negative and add up |
| ScanAggregation.SbomIff | tools/aggregate_image_scan_decisions.py:175-185 | What an SBOM record must hold to be read, entry by entry |
| ScanConservation.DecisionReadsBack | tools/aggregate_image_scan_decisions.py:54-81 | The aggregator reads a decision of the evaluator back unchanged; exactly two of its checks can refuse one, the stricter repository form and the time |
| ScanConservation.ExceptionsReadBack | tools/evaluate_image_scan.py:185-209 | The recorded exceptions, read as entries of an exception document, are the applied ones |
| ScanConservation.PlacesCounted | tools/evaluate_image_scan.py:96-146 | The findings are as many of each severity as there are places in the report labelled with it |
| ScanConservation.ChosenCounted | tools/evaluate_image_scan.py:96-146 | The findings of a severity with a fix are as many as the labelled places whose fixed version is a text that is not blank, those without a fix as many as the others; and the same without the places whose id an exception names |
| ScanConservation.OutcomeMeans | tools/evaluate_image_scan.py:252-275 | A decision has no findings if and only if the report labels nothing CRITICAL or HIGH, and requires review if and only if some labelled place is not excepted |
| ScanConservation.DecisionFile | tools/evaluate_image_scan.py:262-275 | The entries of a decision file: subject, times and both tables of counts |
| ScanConservation.OutcomeFile | tools/evaluate_image_scan.py:252-275 | The outcome text of each outcome, the mode, the gate, and the recorded exceptions with their number |
| ScanConservation.AppliedAreJustified | tools/evaluate_image_scan.py:185-209 | Every applied exception is for this image, explained, not expired, of a vulnerability that the report lists, and applied once |
| ScanConservation.BlockText | tools/evaluate_image_scan.py:243-251 | The text of a block of counts: three numbers under their names |
| ScanConservation.Conservation | tools/aggregate_image_scan_decisions.py:111-210 | End to end: equal subject sets, each counted once; the published numbers are those of the vulnerabilities that the reports label CRITICAL and HIGH, with a fix and without one, in all and without the excepted ones; the published time is the latest |
| EvidencePipeline.PublishedIsDiscovered | tools/aggregate_image_scan_decisions.py:111-210 | With an inventory built by the discovery and decisions of the evaluator, a published summary covers exactly the discovered images, each once, with every distinct gap and the numbers of the reports |
| EvidencePipeline.NamedIsEvaluated | tools/aggregate_image_scan_decisions.py:111-210 | Before a summary is published, an image has been evaluated if and only if some path of some document names it with a digest, or a reference of the line scans or of the contracts claims it |
| InventoryComparison.ComparisonSurface | tools/compare_image_inventories.py:30-51 | Accepts exactly well-formed rows and yields the sorted surface |
| InventoryComparison.Compare | tools/compare_image_inventories.py:54-68 | Reports that a scan is required, and which fields changed, in order, if and only if their rows differ as collections |
| InventoryComparison.ChangedFields | tools/compare_image_inventories.py:54-68 | In the rows themselves: the images changed if and only if some pair of id and image occurs a different number of times, gaps and exclusions if and only if some row does; a scan is required if and only if one of them changed |
| InventoryComparison.SameFieldsIff | tools/compare_image_inventories.py:30-51 | Field by field, equal surfaces mean equal multisets of identities or rows |
| InventoryComparison.SameSurfaceIff | tools/compare_image_inventories.py:30-51 | Equal surfaces mean equal multisets: sorting forgets only order and serialising forgets nothing; the relation is therefore an equivalence |
| InventoryComparison.SourcesDoNotMatter | tools/compare_image_inventories.py:30-40 | Changing sources or reordering any list leaves the surface unchanged |
| SqlProjection.FindFrom | tools/verify_rds_recovery_drill_preflight.py:892-904 | The first scan finds the first FROM word at parenthesis depth zero, or there is none |
| SqlProjection.TopLevelProjection | tools/verify_rds_recovery_drill_preflight.py:885-922 | Refuses exactly queries that do not begin with SELECT or have no top-level FROM, and otherwise yields the items of the text between the two |
| SqlProjection.FragmentsSplit | tools/verify_rds_recovery_drill_preflight.py:906-922 | The second scan splits at commas: fragments rejoin to the projection, none has a top-level comma, and every cut is at depth zero |
| SqlProjection.SplitUnique | tools/verify_rds_recovery_drill_preflight.py:906-922 | There is only one split with those three properties |
| SqlProjection.ItemsBalanced | tools/verify_rds_recovery_drill_preflight.py:885-922 | Every item of a projection closes as many parentheses as it opens |
| SqlProjection.NoFromInItems | tools/verify_rds_recovery_drill_preflight.py:885-922 | No item holds a FROM word at its own depth zero: the two scans agree |
| SqlProjection.SplitAgain | tools/verify_rds_recovery_drill_preflight.py:906-922 | An item has no top-level comma, and splitting it again gives it back if and only if it is not blank |
| SqlProjection.BlankItem | tools/verify_rds_recovery_drill_preflight.py:906-922 | A concrete projection with a blank item, which does not survive a second split |
| SqlProjection.CompactAgain | tools/verify_rds_recovery_drill_preflight.py:888 | Compacting a compact query changes nothing, so the splitter sees the text that the check has seen |
| SqlProjection.WordsIff | tools/verify_rds_recovery_drill_preflight.py:888 | The words of a query are exactly those of the one way to take it as words with whitespace between them |
| SqlProjection.FromAtIff | tools/verify_rds_recovery_drill_preflight.py:894 | A FROM word is the four letters in either case with no word character beside them |
| SqlProjection.BeginsWithSelectIff | tools/verify_rds_recovery_drill_preflight.py:889 | A query begins with SELECT if and only if its first six letters are those, in either case or with the long s, and whitespace follows |
| QueryCheck.AliasIff | tools/verify_rds_recovery_drill_preflight.py:962 | The alias pattern matches an item in one way at most, which is found from its end |
| QueryCheck.FunctionIff | tools/verify_rds_recovery_drill_preflight.py:975 | The function pattern matches an item in one way at most, which is found from its front |
| QueryCheck.CheckItem | tools/verify_rds_recovery_drill_preflight.py:961-981 | Accepts an item exactly when both patterns match, the alias is not forbidden and the function is an aggregate; any other verdict gives a reason that holds |
| QueryCheck.CheckQuery | tools/verify_rds_recovery_drill_preflight.py:925-988 | Accepts exactly read-only queries with a projection all of whose items pass; any other verdict gives a reason that holds |
| QueryCheck.AcceptedItems | tools/verify_rds_recovery_drill_preflight.py:925-988 | Every item of an accepted query begins with an aggregate call and ends in an allowed alias, is balanced, and holds no top-level comma or FROM; it is one aggregate call if and only if nothing but the alias follows the call |
| QueryCheck.OneCallIff | tools/verify_rds_recovery_drill_preflight.py:961-981 | The exact condition for a balanced item that passes: what stands before its alias ends in a parenthesis and is not balanced any earlier |
| QueryCheck.NotOnlyAggregates | tools/verify_rds_recovery_drill_preflight.py:925-988 | A concrete query that is accepted although an item puts a forbidden column beside an aggregate |
| QueryCheck.PassesIff | tools/verify_rds_recovery_drill_preflight.py:961-981 | An item passes if and only if it begins with a name, optional spaces and a parenthesis, the name one of eight functions, and ends in AS, spaces and a name that is not forbidden |
| QueryCheck.AcceptsIff | tools/verify_rds_recovery_drill_preflight.py:925-988 | A query is accepted if and only if it is read-only and has a projection all of whose items begin with a call of one of eight functions and end in an alias that is no forbidden column in either case |
| QueryCheck.AcceptedHidesColumns | tools/verify_rds_recovery_drill_preflight.py:960-975 | No item of an accepted query has an alias that is a forbidden column in either case |
| QueryCheck.HasWordIff | tools/verify_rds_recovery_drill_preflight.py:937-938 | A keyword is found if and only if it stands in the query with no word character beside it |
| QueryCheck.HasCallIff | tools/verify_rds_recovery_drill_preflight.py:944-945 | A function is found if and only if its name stands in the query with no word character in front of it and a parenthesis behind it |
| QueryCheck.AcceptedIsReadOnly | tools/verify_rds_recovery_drill_preflight.py:931-953 | An accepted query is one statement with none of sixteen keywords and no call of six functions |
| QueryCheck.CapitalsAreRead | tools/verify_rds_recovery_drill_preflight.py:885-988 | A concrete query with its keywords in capital letters: its projection, and the item that passes |
| Scrypt.PowerOfTwoTest | hack/onboard-web3signer-keystore.py:149 | For every n >= 2, n & (n - 1) is zero if and only if n is a power of two |
| Scrypt.AcceptedIff | hack/onboard-web3signer-keystore.py:145-157 | The accepted parameters are exactly N = 2^k with 1 <= k <= 20, 1 <= r <= 32, 1 <= p <= 16 and memory within the bound; the limit passed on and the first two refusals in the same terms |
| Scrypt.AcceptedMemory | hack/onboard-web3signer-keystore.py:153-166 | The memory limit passed on exceeds what the derivation needs and is at most 1 GiB |
| Scrypt.AcceptedMeetsRfc7914 | hack/onboard-web3signer-keystore.py:149-152 | Accepted parameters meet the bounds of section 6 of RFC 7914 if and only if r >= 2 or N < 2^16 |
| Scrypt.BlockSizeOneIsNotChecked | hack/onboard-web3signer-keystore.py:149-152 | A concrete accepted keystore that the standard excludes |

## Left out

- JSON Schema checking and YAML and JSON parsing: documents are typed values that hold the fields the code reads; `Schema` states what the schemas ask of those fields, with patterns taken as full matches and whole numbers written without a fraction. The reset interval, which a replaced network must declare, and the deposit contract are not among them.
- Files that hold several documents, documents without kind or name, and keys of documents that are not strings.
- SHA-256, YAML printing, image ids, dashboard links, clocks and the reading of timestamps: parameters; assumptions about them stand in the lemmas that need them.
- An assignment named `kustomization`: its file and the generated index share a name (tools/render_local_assignments.py:372-381); `Schema` does not exclude it, and the specification of the generated files lets the index win, as the code does.
- Projection.BuildRelease: leaves out the parts of a release that are the same for every assignment (chart, intervals, labels, remediation, telemetry, graffiti).
- The wording and order of error messages.
- Lower-casing outside ASCII, and strings with unpaired surrogates.
- CatalogRules.CheckNetwork: the family finding may accompany disagreeing built-in networks or not, because the code takes the first element of a set.
- StatusCache.InvariantHolds: clock readings and ages are exact reals, so floating-point rounding of the clock is not modelled.
- PairSnapshot.Number: a JSON integer beyond the range of floats raises OverflowError in `float`, which the server does not catch (platform/apps/portal/dev/server.py:201-205, 450), so that the request fails; Prometheus sends its values as strings, for which `float` gives an infinity, and only those are modelled.
- PairSnapshot.BuildPairs: labels are strings, and finite samples are exact reals.
- ScanEvaluation.Evaluate: the subject file written by the scan verifier is a typed value, and exceptions with a malformed digest are refused as being for another digest.
- ImageInventory.Discovery.AddDocument: visits the entries of an object by key where the code follows the document; by `ImageInventory.InventoryAnyOrder` the inventory does not depend on it.
- ImageInventory.Discover: the references that the scans of YAML and shell lines, Dockerfiles and Helm templates yield, those of the Helm contracts, and the gaps of chart defaults are inputs (`Feeds`); the regular expressions that find them, the files they are read from, the order in which the feeds are read, and the refusal of an unknown Helm image expression are not modelled.
- QueryCheck.OneCallIff: parentheses are counted as the code counts them, also inside quoted text.
- Scrypt.AcceptedIff: parameters are integers already; the reading of the keystore, PBKDF2 and the derivation itself are not modelled.
- Disk errors between the writes of a lifecycle run, other processes that change the files.
- Prometheus queries, the thread pool, HTTP serving, React rendering, Terraform, Helm, shell and workflow code.
