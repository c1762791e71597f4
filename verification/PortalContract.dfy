/** The snapshot document the status API sends, and the guard with which the portal page decides
    whether to believe it. */
module PortalContract {
  import opened PairSnapshot
  import opened StatusCache
  import opened Text

  // ---- JavaScript values and the guard -----------------------------------------------------

  /** A value of the page's program, undefined for a property that is not there. */
  datatype Js =
    | JUndefined
    | JNull
    | JBool(flag: bool)
    | JNumber(number: Float)
    | JString(text: string)
    | JArray(items: seq<Js>)
    | JObject(properties: map<string, Js>)
  {
    /** `value.name` */
    function Get(name: string): Js {
      if JObject? && name in properties then properties[name] else JUndefined
    }
  }

  predicate IsNullableNumber(v: Js) {
    v.JNull? || (v.JNumber? && v.number.Finite?)
  }

  predicate HasNullableNumbers(v: Js, names: seq<string>) {
    v.JObject? && forall i | 0 <= i < |names| :: IsNullableNumber(v.Get(names[i]))
  }

  predicate IsNullableString(v: Js) {
    v.JNull? || v.JString?
  }

  predicate HasPairSections(v: Js) {
    && v.JObject? && v.Get("assignmentId").JString?
    && v.Get("targets").JObject? && v.Get("sync").JObject? && v.Get("resources").JObject?
    && v.Get("resources").Get("cpuCores").JObject? && v.Get("resources").Get("memoryBytes").JObject?
    && (v.Get("signing").JUndefined? || HasNullableNumbers(v.Get("signing"), ["validatorsEnabled"]))
  }

  predicate HasPairStrings(v: Js) {
    && IsNullableString(v.Get("network"))
    && IsNullableString(v.Get("networkGeneration"))
    && IsNullableString(v.Get("executionClient"))
    && IsNullableString(v.Get("consensusClient"))
    && IsNullableString(v.Get("lifecycleState"))
    && IsNullableString(v.Get("grafanaUrl"))
  }

  predicate IsPair(v: Js) {
    HasPairSections(v) && HasPairStrings(v)
  }

  predicate IsSource(v: Js) {
    && v.JObject?
    && v.Get("prometheusReady").JBool? && v.Get("stale").JBool? && v.Get("cacheAgeSeconds").JNumber?
  }

  predicate IsCluster(v: Js) {
    && v.JObject?
    && v.Get("name").JString? && v.Get("environment").JString?
    && HasNullableNumbers(v.Get("nodes"), ["ready", "systemReady", "ethereumReady"])
    && HasNullableNumbers(v.Get("capacity"), ["cpuCores", "memoryBytes"])
    && HasNullableNumbers(v.Get("usage"), ["cpuCores", "memoryBytes"])
    && HasNullableNumbers(v.Get("pods"), ["total", "running", "pending"])
    && IsNullableNumber(v.Get("containerRestarts"))
    && HasNullableNumbers(v.Get("ethereumWorkloads"),
                          ["pods", "podsRunning", "cpuCores", "memoryBytes", "containerRestarts"])
    && HasNullableNumbers(v.Get("ethereumWorkloads").Get("persistentVolumeBytes"), ["used", "capacity"])
  }

  predicate IsSigning(v: Js) {
    HasNullableNumbers(v, ["validatorsEnabled", "signerUp", "keysLoaded", "slashingPermittedTotal",
                           "slashingPreventedTotal", "missingIdentifierTotal"])
  }

  predicate IsAlerts(v: Js) {
    && HasNullableNumbers(v, ["firingTotal", "critical", "warning"])
    && (v.Get("available").JUndefined? || v.Get("available").JBool?)
  }

  predicate IsStatusSnapshot(v: Js) {
    && v.JObject? && v.Get("schemaVersion") == JNumber(Finite(1.0))
    && v.Get("observedAt").JString? && v.Get("pairs").JArray?
    && IsSource(v.Get("source"))
    && IsCluster(v.Get("cluster"))
    && (v.Get("signing").JUndefined? || IsSigning(v.Get("signing")))
    && (v.Get("alerts").JUndefined? || IsAlerts(v.Get("alerts")))
    && forall p | p in v.Get("pairs").items :: IsPair(p)
  }

  // ---- what the API builds -----------------------------------------------------------------

  datatype Scalar =
    | SourceReady | NodesReady | ClusterCpuAllocatable | ClusterMemoryAllocatable | ClusterCpuUsage
    | ClusterMemoryUsage | ClusterPods | ClusterPodsRunning | ClusterPodsPending | ClusterContainerRestarts
    | NodeGroupLabels | SystemNodesReady | EthereumNodesReady | EthereumPods | EthereumPodsRunning
    | EthereumCpuCores | EthereumMemoryBytes | EthereumRestarts | EthereumVolumeUsed | EthereumVolumeCapacity
    | SignerUp | SignerKeysLoaded | SigningValidatorsEnabled | SigningPermitted | SigningPrevented
    | SigningMissingIdentifier | AlertEvaluationReady | FiringAlertsTotal | FiringAlertsCritical | FiringAlertsWarning

  const SCALARS: seq<Scalar> := [
    SourceReady, NodesReady, ClusterCpuAllocatable, ClusterMemoryAllocatable, ClusterCpuUsage,
    ClusterMemoryUsage, ClusterPods, ClusterPodsRunning, ClusterPodsPending, ClusterContainerRestarts,
    NodeGroupLabels, SystemNodesReady, EthereumNodesReady, EthereumPods, EthereumPodsRunning,
    EthereumCpuCores, EthereumMemoryBytes, EthereumRestarts, EthereumVolumeUsed, EthereumVolumeCapacity,
    SignerUp, SignerKeysLoaded, SigningValidatorsEnabled, SigningPermitted, SigningPrevented,
    SigningMissingIdentifier, AlertEvaluationReady, FiringAlertsTotal, FiringAlertsCritical, FiringAlertsWarning]

  lemma AllScalars(s: Scalar)
    ensures s in SCALARS
  {
  }

  datatype Unavailable = ManySeries | BadSample

  /** The value of a query that should yield at most one series. */
  function ScalarOf(vector: seq<Record>): Result<NullableNumber, Unavailable> {
    if vector == [] then Ok(None)
    else if |vector| != 1 then Err(ManySeries)
    else if vector[0].sample.Malformed? then Err(BadSample)
    else Ok(Number(vector[0].sample.value))
  }

  datatype Scrape = Scrape(scalars: Scalar -> seq<Record>, pairs: Results)

  /** Everything in a snapshot outside the source section. */
  datatype StatusBody = StatusBody(observedAt: string, name: string, environment: string,
                                   scalars: map<Scalar, NullableNumber>, pairs: seq<Pair>)

  function ScalarIn(b: StatusBody, s: Scalar): NullableNumber {
    if s in b.scalars then b.scalars[s] else None
  }

  /** One of several conditional reads: the scalar if the gate is open, null otherwise. */
  function Gated(b: StatusBody, open: bool, s: Scalar): NullableNumber {
    if open then ScalarIn(b, s) else None
  }

  predicate AlertsAvailable(b: StatusBody) {
    ScalarIn(b, AlertEvaluationReady) == Some(Finite(1.0))
  }

  /** `x > 0` */
  predicate IsPositive(x: Float) {
    (x.Finite? && x.value > 0.0) || x == Infinite(true)
  }

  predicate NodeGroupsKnown(b: StatusBody) {
    ScalarIn(b, NodeGroupLabels).Some? && IsPositive(ScalarIn(b, NodeGroupLabels).value)
  }

  function NumberJs(n: NullableNumber): (v: Js)
    ensures IsNullableNumber(v) <==> FiniteOrNull(n)
  {
    if n.Some? then JNumber(n.value) else JNull
  }

  function StringJs(s: Option<string>): (v: Js)
    ensures IsNullableString(v)
  {
    if s.Some? then JString(s.value) else JNull
  }

  function ComponentsJs(values: map<Component, NullableNumber>): (v: Js)
    ensures v.JObject?
  {
    JObject((if Execution in values then map["execution" := NumberJs(values[Execution])] else map[])
            + (if Consensus in values then map["consensus" := NumberJs(values[Consensus])] else map[]))
  }

  function SyncName(m: SyncMetric): string {
    match m
    case ExecutionPeers => "executionPeers"
    case ConsensusPeers => "consensusPeers"
    case ExecutionHeadBlock => "executionHeadBlock"
    case ExecutionHeadHeader => "executionHeadHeader"
    case ExecutionSyncDistance => "executionSyncDistance"
    case ExecutionHeadChanges15m => "executionHeadChanges15m"
    case ConsensusHeadChanges15m => "consensusHeadChanges15m"
    case ConsensusSlotLag => "consensusSlotLag"
    case ConsensusFinalityLagEpochs => "consensusFinalityLagEpochs"
  }

  function SyncFields(values: map<SyncMetric, NullableNumber>, k: nat): map<string, Js>
    requires k <= |SYNC_METRICS|
  {
    if k == 0 then map[]
    else
      var m := SYNC_METRICS[k - 1];
      SyncFields(values, k - 1) + if m in values then map[SyncName(m) := NumberJs(values[m])] else map[]
  }

  function PairJs(p: Pair): Js {
    JObject(map[
      "assignmentId" := JString(p.assignmentId),
      "cluster" := StringJs(p.identity.cluster),
      "environment" := StringJs(p.identity.environment),
      "network" := StringJs(p.identity.network),
      "networkProfile" := StringJs(p.identity.networkProfile),
      "networkGeneration" := StringJs(p.identity.networkGeneration),
      "executionClient" := StringJs(p.identity.executionClient),
      "consensusClient" := StringJs(p.identity.consensusClient),
      "lifecycleState" := StringJs(p.identity.lifecycleState),
      "targets" := ComponentsJs(p.targets),
      "signing" := JObject(map["validatorsEnabled" := NumberJs(p.validatorsEnabled)]),
      "sync" := JObject(SyncFields(p.sync, |SYNC_METRICS|)),
      "resources" := JObject(map[
        "cpuCores" := ComponentsJs(p.cpuCores),
        "memoryBytes" := ComponentsJs(p.memoryBytes)]),
      "grafanaUrl" := StringJs(p.identity.grafanaUrl)])
  }

  function ClusterJs(b: StatusBody): Js {
    JObject(map[
      "name" := JString(b.name),
      "environment" := JString(b.environment),
      "nodes" := NodesJs(b),
      "capacity" := ResourcesJs(b, ClusterCpuAllocatable, ClusterMemoryAllocatable),
      "usage" := ResourcesJs(b, ClusterCpuUsage, ClusterMemoryUsage),
      "pods" := PodsJs(b),
      "containerRestarts" := NumberJs(ScalarIn(b, ClusterContainerRestarts)),
      "ethereumWorkloads" := WorkloadsJs(b)])
  }

  function ResourcesJs(b: StatusBody, cpu: Scalar, memory: Scalar): Js {
    JObject(map["cpuCores" := NumberJs(ScalarIn(b, cpu)), "memoryBytes" := NumberJs(ScalarIn(b, memory))])
  }

  function NodesJs(b: StatusBody): Js {
    JObject(map[
      "ready" := NumberJs(ScalarIn(b, NodesReady)),
      "systemReady" := NumberJs(Gated(b, NodeGroupsKnown(b), SystemNodesReady)),
      "ethereumReady" := NumberJs(Gated(b, NodeGroupsKnown(b), EthereumNodesReady))])
  }

  function PodsJs(b: StatusBody): Js {
    JObject(map[
      "total" := NumberJs(ScalarIn(b, ClusterPods)),
      "running" := NumberJs(ScalarIn(b, ClusterPodsRunning)),
      "pending" := NumberJs(ScalarIn(b, ClusterPodsPending))])
  }

  function WorkloadsJs(b: StatusBody): Js {
    JObject(map[
      "pods" := NumberJs(ScalarIn(b, EthereumPods)),
      "podsRunning" := NumberJs(ScalarIn(b, EthereumPodsRunning)),
      "cpuCores" := NumberJs(ScalarIn(b, EthereumCpuCores)),
      "memoryBytes" := NumberJs(ScalarIn(b, EthereumMemoryBytes)),
      "containerRestarts" := NumberJs(ScalarIn(b, EthereumRestarts)),
      "persistentVolumeBytes" := JObject(map[
        "used" := NumberJs(ScalarIn(b, EthereumVolumeUsed)),
        "capacity" := NumberJs(ScalarIn(b, EthereumVolumeCapacity))])])
  }

  function SigningJs(b: StatusBody): Js {
    JObject(map[
      "validatorsEnabled" := NumberJs(ScalarIn(b, SigningValidatorsEnabled)),
      "signerUp" := NumberJs(ScalarIn(b, SignerUp)),
      "keysLoaded" := NumberJs(ScalarIn(b, SignerKeysLoaded)),
      "slashingPermittedTotal" := NumberJs(ScalarIn(b, SigningPermitted)),
      "slashingPreventedTotal" := NumberJs(ScalarIn(b, SigningPrevented)),
      "missingIdentifierTotal" := NumberJs(ScalarIn(b, SigningMissingIdentifier))])
  }

  function AlertsJs(b: StatusBody): Js {
    JObject(map[
      "available" := JBool(AlertsAvailable(b)),
      "firingTotal" := NumberJs(Gated(b, AlertsAvailable(b), FiringAlertsTotal)),
      "critical" := NumberJs(Gated(b, AlertsAvailable(b), FiringAlertsCritical)),
      "warning" := NumberJs(Gated(b, AlertsAvailable(b), FiringAlertsWarning))])
  }

  /** The document a client receives for this view of the cache. */
  function DocumentJs(v: View<StatusBody>): Js {
    var b := v.content;
    JObject(map[
      "schemaVersion" := JNumber(Finite(1.0)),
      "observedAt" := JString(b.observedAt),
      "source" := JObject(map[
        "prometheusReady" := JBool(v.prometheusReady),
        "stale" := JBool(v.stale),
        "cacheAgeSeconds" := JNumber(Finite(v.cacheAgeSeconds))]),
      "cluster" := ClusterJs(b),
      "signing" := SigningJs(b),
      "alerts" := AlertsJs(b),
      "pairs" := JArray(seq(|b.pairs|, i requires 0 <= i < |b.pairs| => PairJs(b.pairs[i])))])
  }

  /** One attempt to build a snapshot: what Prometheus answered, the time, and the configuration. */
  datatype Attempt = Attempt(scrape: Scrape, observedAt: string, name: string, environment: string, link: Linker)

  /** The snapshot of an attempt: every scalar and every pair as the scrape gives them. */
  ghost predicate IsBuild(view: View<StatusBody>, a: Attempt) {
    var b := view.content;
    && (forall s :: s in b.scalars && Ok(b.scalars[s]) == ScalarOf(a.scrape.scalars(s)))
    && IsSnapshot(b.pairs, a.scrape.pairs, a.link)
    && b.observedAt == a.observedAt && b.name == a.name && b.environment == a.environment
    && view.prometheusReady == (ScalarOf(a.scrape.scalars(SourceReady)) == Ok(Some(Finite(1.0))))
    && !view.stale && view.cacheAgeSeconds == 0.0
  }

  /** Reads every scalar of a scrape and folds its pairs; a scalar query with several series or a
      malformed sample makes the whole snapshot unavailable. */
  method BuildSnapshot(a: Attempt) returns (r: Result<View<StatusBody>, Unavailable>)
    ensures r.Ok? <==> forall s :: ScalarOf(a.scrape.scalars(s)).Ok?
    ensures r.Ok? ==> IsBuild(r.value, a)
    ensures r.Err? ==> exists s :: ScalarOf(a.scrape.scalars(s)) == Err(r.error)
  {
    hide ScalarOf, IsSnapshot;
    var scalars: map<Scalar, NullableNumber> := map[];
    for i := 0 to |SCALARS|
      invariant forall j | 0 <= j < i ::
        SCALARS[j] in scalars && Ok(scalars[SCALARS[j]]) == ScalarOf(a.scrape.scalars(SCALARS[j]))
    {
      var value := ScalarOf(a.scrape.scalars(SCALARS[i]));
      if value.Err? {
        return Err(value.error);
      }
      scalars := scalars[SCALARS[i] := value.value];
    }
    forall s ensures s in scalars && Ok(scalars[s]) == ScalarOf(a.scrape.scalars(s)) {
      AllScalars(s);
      var j :| 0 <= j < |SCALARS| && SCALARS[j] == s;
    }
    var pairs := BuildPairs(a.scrape.pairs, a.link);
    var body := StatusBody(a.observedAt, a.name, a.environment, scalars, pairs);
    return Ok(View(scalars[SourceReady] == Some(Finite(1.0)), false, 0.0, body));
  }

  // ---- the contract between the two --------------------------------------------------------

  /** Every number outside the source section is finite. */
  ghost predicate FiniteBody(b: StatusBody) {
    && (forall s | s in b.scalars :: FiniteOrNull(b.scalars[s]))
    && forall i | 0 <= i < |b.pairs| :: FinitePair(b.pairs[i])
  }

  /** Whatever Prometheus answers, a snapshot holds no infinity and no NaN. */
  lemma BuildIsFinite(view: View<StatusBody>, a: Attempt)
    requires IsBuild(view, a)
    ensures FiniteBody(view.content)
  {
    hide FinitePair, PairFor, HasTarget;
    var b := view.content;
    forall s ensures FiniteOrNull(b.scalars[s]) {
      ScalarIsFinite(a.scrape.scalars(s));
    }
    forall i | 0 <= i < |b.pairs| ensures FinitePair(b.pairs[i]) {
      PairIsFinite(a.scrape.pairs, b.pairs[i].assignmentId, a.link);
    }
  }

  lemma ScalarIsFinite(vector: seq<Record>)
    ensures ScalarOf(vector).Ok? ==> FiniteOrNull(ScalarOf(vector).value)
  {
  }

  /** Three scalars are only conditions of others, and five are shown under a condition. */
  predicate IsShown(b: StatusBody, s: Scalar) {
    match s
    case SourceReady => false
    case NodeGroupLabels => false
    case AlertEvaluationReady => false
    case SystemNodesReady => NodeGroupsKnown(b)
    case EthereumNodesReady => NodeGroupsKnown(b)
    case FiringAlertsTotal => AlertsAvailable(b)
    case FiringAlertsCritical => AlertsAvailable(b)
    case FiringAlertsWarning => AlertsAvailable(b)
    case _ => true
  }

  /** Every scalar that the document shows is finite or null. */
  ghost predicate ShownAreFinite(b: StatusBody) {
    forall s | IsShown(b, s) :: FiniteOrNull(ScalarIn(b, s))
  }

  lemma NumbersAreFinite(b: StatusBody)
    requires ShownAreFinite(b)
    ensures forall s | IsShown(b, s) :: IsNullableNumber(NumberJs(ScalarIn(b, s)))
    ensures IsNullableNumber(NumberJs(None))
  {
    hide ScalarIn, IsShown;
  }

  lemma PairSectionsPass(p: Pair)
    ensures HasPairSections(PairJs(p)) <==> FiniteOrNull(p.validatorsEnabled)
  {
    hide SyncFields, ComponentsJs, StringJs, NumberJs, IsNullableNumber, HasNullableNumbers;
    EnabledIsShown(p);
    OneNumberPasses(p.validatorsEnabled);
  }

  lemma OneNumberPasses(n: NullableNumber)
    ensures HasNullableNumbers(JObject(map["validatorsEnabled" := NumberJs(n)]), ["validatorsEnabled"]) <==> FiniteOrNull(n)
  {
    var signing := JObject(map["validatorsEnabled" := NumberJs(n)]);
    assert signing.Get(["validatorsEnabled"][0]) == NumberJs(n);
  }

  lemma PairStringsPass(p: Pair)
    ensures HasPairStrings(PairJs(p))
  {
    hide SyncFields, ComponentsJs, StringJs, NumberJs;
  }

  lemma PairPasses(p: Pair)
    ensures IsPair(PairJs(p)) <==> FiniteOrNull(p.validatorsEnabled)
  {
    hide PairJs, HasPairSections, HasPairStrings, FiniteOrNull;
    PairSectionsPass(p);
    PairStringsPass(p);
  }

  lemma ClusterPasses(b: StatusBody)
    requires ShownAreFinite(b)
    ensures IsCluster(ClusterJs(b))
  {
    hide ShownAreFinite, HasNullableNumbers, IsNullableNumber, NumberJs, ScalarIn, WorkloadsJs, NodesJs, PodsJs, ResourcesJs;
    NumbersAreFinite(b);
    WorkloadsPass(b);
    NodesAndPodsPass(b);
    ResourcesPass(b, ClusterCpuAllocatable, ClusterMemoryAllocatable);
    ResourcesPass(b, ClusterCpuUsage, ClusterMemoryUsage);
  }

  lemma ResourcesPass(b: StatusBody, cpu: Scalar, memory: Scalar)
    requires ShownAreFinite(b) && IsShown(b, cpu) && IsShown(b, memory)
    ensures HasNullableNumbers(ResourcesJs(b, cpu, memory), ["cpuCores", "memoryBytes"])
  {
    hide ScalarIn, NumberJs, ShownAreFinite, IsNullableNumber;
    NumbersAreFinite(b);
  }

  lemma NodesAndPodsPass(b: StatusBody)
    requires ShownAreFinite(b)
    ensures HasNullableNumbers(NodesJs(b), ["ready", "systemReady", "ethereumReady"])
    ensures HasNullableNumbers(PodsJs(b), ["total", "running", "pending"])
  {
    hide ScalarIn, NumberJs, ShownAreFinite, IsNullableNumber;
    NumbersAreFinite(b);
  }

  lemma WorkloadsPass(b: StatusBody)
    requires ShownAreFinite(b)
    ensures HasNullableNumbers(WorkloadsJs(b), ["pods", "podsRunning", "cpuCores", "memoryBytes", "containerRestarts"])
    ensures HasNullableNumbers(WorkloadsJs(b).Get("persistentVolumeBytes"), ["used", "capacity"])
  {
    hide ScalarIn, NumberJs, ShownAreFinite, IsNullableNumber;
    NumbersAreFinite(b);
  }

  lemma SigningPasses(b: StatusBody)
    requires ShownAreFinite(b)
    ensures IsSigning(SigningJs(b))
  {
    hide ScalarIn, NumberJs, ShownAreFinite, IsNullableNumber;
    NumbersAreFinite(b);
  }

  lemma AlertsPass(b: StatusBody)
    requires ShownAreFinite(b)
    ensures IsAlerts(AlertsJs(b)) && AlertsFailClosed(AlertsJs(b))
  {
    assert NumberJs(None) == JNull;
    hide ScalarIn, NumberJs, ShownAreFinite, IsNullableNumber;
    NumbersAreFinite(b);
  }

  /** Alert counts that are not available are unknown, never zero. */
  predicate AlertsFailClosed(alerts: Js) {
    alerts.Get("available") == JBool(false) ==>
      alerts.Get("firingTotal") == alerts.Get("critical") == alerts.Get("warning") == JNull
  }

  lemma FiniteDocumentPasses(v: View<StatusBody>)
    requires ShownAreFinite(v.content) && forall i | 0 <= i < |v.content.pairs| :: FiniteOrNull(v.content.pairs[i].validatorsEnabled)
    ensures IsStatusSnapshot(DocumentJs(v)) && AlertsFailClosed(DocumentJs(v).Get("alerts"))
  {
    hide IsPair, PairJs, IsCluster, ClusterJs, IsSigning, SigningJs, IsAlerts, AlertsJs, AlertsFailClosed, FiniteOrNull, IsShown;
    ClusterPasses(v.content);
    SigningPasses(v.content);
    AlertsPass(v.content);
    forall p | p in DocumentJs(v).Get("pairs").items ensures IsPair(p) {
      var i :| 0 <= i < |v.content.pairs| && p == PairJs(v.content.pairs[i]);
      PairPasses(v.content.pairs[i]);
    }
  }

  lemma FiniteBodyIsShown(b: StatusBody)
    requires FiniteBody(b)
    ensures ShownAreFinite(b) && forall i | 0 <= i < |b.pairs| :: FiniteOrNull(b.pairs[i].validatorsEnabled)
  {
    assert forall i | 0 <= i < |b.pairs| :: FinitePair(b.pairs[i]);
  }

  /** Every answer of every run of the API, fresh or from the cache, satisfies the guard of the page:
      when each build of the run is the snapshot of what Prometheus answered, whatever that was. */
  lemma EveryDocumentPasses(start: real, moves: seq<Move<StatusBody>>, attempts: seq<Attempt>, limits: Limits, n: nat)
    requires |attempts| == |moves|
    requires forall i | 0 <= i < |moves| && moves[i].TakeLock? && moves[i].built.Some? :: IsBuild(moves[i].built.value, attempts[i])
    requires n < |Execute(start, moves, limits).calls|
    ensures var answer := Execute(start, moves, limits).calls[n].served.answer;
            answer.Some? ==>
              IsStatusSnapshot(DocumentJs(answer.value)) && AlertsFailClosed(DocumentJs(answer.value).Get("alerts"))
  {
    hide IsBuild, Execute, Serve, IsStatusSnapshot, DocumentJs, AlertsFailClosed, FiniteBody, ShownAreFinite, FiniteOrNull;
    var calls := Execute(start, moves, limits).calls;
    var answer := calls[n].served.answer;
    AnswersAreBuilds(start, moves, limits, n);
    if answer.Some? {
      var view: View<StatusBody> :|
        && ((calls[n].built == Some(view) && calls[n].served.refreshed) || BuiltBefore(calls, n, view))
        && view.content == answer.value.content;
      var k: nat :| k < |calls| && calls[k].built == Some(view);
      CallsComeFromMoves(start, moves, limits, k);
      var i :| 0 <= i < |moves| && moves[i].TakeLock? && moves[i].built == Some(view);
      BuildIsFinite(view, attempts[i]);
      FiniteBodyIsShown(answer.value.content);
      FiniteDocumentPasses(answer.value);
    }
  }

  // ---- what the document shows, and what the guard asks ------------------------------------

  /** A scalar of the scrape as the page sees it. */
  function Shown(b: StatusBody, s: Scalar): Js {
    if s in b.scalars && b.scalars[s].Some? then JNumber(b.scalars[s].value) else JNull
  }

  lemma SourceIsShown(v: View<StatusBody>)
    ensures var d := DocumentJs(v);
            && d.Get("schemaVersion") == JNumber(Finite(1.0)) && d.Get("observedAt") == JString(v.content.observedAt)
            && d.Get("source").Get("prometheusReady") == JBool(v.prometheusReady)
            && d.Get("source").Get("stale") == JBool(v.stale)
            && d.Get("source").Get("cacheAgeSeconds") == JNumber(Finite(v.cacheAgeSeconds))
            && d.Get("cluster").Get("name") == JString(v.content.name)
            && d.Get("cluster").Get("environment") == JString(v.content.environment)
  {
    hide NodesJs, ResourcesJs, PodsJs, WorkloadsJs, SigningJs, AlertsJs, PairJs, NumberJs;
  }

  lemma NodesAreShown(v: View<StatusBody>)
    ensures var (b, nodes, pods) := (v.content, DocumentJs(v).Get("cluster").Get("nodes"), DocumentJs(v).Get("cluster").Get("pods"));
            && nodes.Get("ready") == Shown(b, NodesReady)
            && nodes.Get("systemReady") == (if NodeGroupsKnown(b) then Shown(b, SystemNodesReady) else JNull)
            && nodes.Get("ethereumReady") == (if NodeGroupsKnown(b) then Shown(b, EthereumNodesReady) else JNull)
            && pods.Get("total") == Shown(b, ClusterPods) && pods.Get("running") == Shown(b, ClusterPodsRunning)
            && pods.Get("pending") == Shown(b, ClusterPodsPending)
  {
    hide ResourcesJs, WorkloadsJs, SigningJs, AlertsJs, PairJs, NodeGroupsKnown;
  }

  lemma ResourcesAreShown(v: View<StatusBody>)
    ensures var (b, c) := (v.content, DocumentJs(v).Get("cluster"));
            && c.Get("capacity").Get("cpuCores") == Shown(b, ClusterCpuAllocatable)
            && c.Get("capacity").Get("memoryBytes") == Shown(b, ClusterMemoryAllocatable)
            && c.Get("usage").Get("cpuCores") == Shown(b, ClusterCpuUsage)
            && c.Get("usage").Get("memoryBytes") == Shown(b, ClusterMemoryUsage)
            && c.Get("containerRestarts") == Shown(b, ClusterContainerRestarts)
  {
    hide NodesJs, PodsJs, WorkloadsJs, SigningJs, AlertsJs, PairJs;
  }

  lemma WorkloadsAreShown(v: View<StatusBody>)
    ensures var (b, w) := (v.content, DocumentJs(v).Get("cluster").Get("ethereumWorkloads"));
            && w.Get("pods") == Shown(b, EthereumPods) && w.Get("podsRunning") == Shown(b, EthereumPodsRunning)
            && w.Get("cpuCores") == Shown(b, EthereumCpuCores) && w.Get("memoryBytes") == Shown(b, EthereumMemoryBytes)
            && w.Get("containerRestarts") == Shown(b, EthereumRestarts)
            && w.Get("persistentVolumeBytes").Get("used") == Shown(b, EthereumVolumeUsed)
            && w.Get("persistentVolumeBytes").Get("capacity") == Shown(b, EthereumVolumeCapacity)
  {
    hide NodesJs, PodsJs, ResourcesJs, SigningJs, AlertsJs, PairJs;
  }

  lemma SigningIsShown(v: View<StatusBody>)
    ensures var (b, signing) := (v.content, DocumentJs(v).Get("signing"));
            && signing.Get("validatorsEnabled") == Shown(b, SigningValidatorsEnabled)
            && signing.Get("signerUp") == Shown(b, SignerUp) && signing.Get("keysLoaded") == Shown(b, SignerKeysLoaded)
            && signing.Get("slashingPermittedTotal") == Shown(b, SigningPermitted)
            && signing.Get("slashingPreventedTotal") == Shown(b, SigningPrevented)
            && signing.Get("missingIdentifierTotal") == Shown(b, SigningMissingIdentifier)
  {
    hide ClusterJs, AlertsJs, PairJs;
  }

  lemma AlertsAreShown(v: View<StatusBody>)
    ensures var (b, alerts) := (v.content, DocumentJs(v).Get("alerts"));
            var available := Shown(b, AlertEvaluationReady) == JNumber(Finite(1.0));
            && alerts.Get("available") == JBool(available)
            && alerts.Get("firingTotal") == (if available then Shown(b, FiringAlertsTotal) else JNull)
            && alerts.Get("critical") == (if available then Shown(b, FiringAlertsCritical) else JNull)
            && alerts.Get("warning") == (if available then Shown(b, FiringAlertsWarning) else JNull)
  {
    hide ClusterJs, SigningJs, PairJs;
  }

  /** Node groups are counted only when some node is labelled with one. */
  lemma NodeGroupsKnownIff(b: StatusBody)
    ensures NodeGroupsKnown(b)
            <==> || Shown(b, NodeGroupLabels) == JNumber(Infinite(true))
                 || exists x :: Shown(b, NodeGroupLabels) == JNumber(Finite(x)) && x > 0.0
  {
    if NodeGroupsKnown(b) && ScalarIn(b, NodeGroupLabels).value.Finite? {
      assert Shown(b, NodeGroupLabels) == JNumber(Finite(ScalarIn(b, NodeGroupLabels).value.value));
    }
  }

  /** A query with one well-formed sample gives its number, one without a series gives null, and anything else
      makes the snapshot unavailable. */
  lemma ScalarMeans(vector: seq<Record>)
    ensures ScalarOf(vector) == Ok(None)
            <==> vector == [] || (|vector| == 1 && vector[0].sample.Timed? && SampleOf(vector[0]).None?)
    ensures ScalarOf(vector).Ok? && ScalarOf(vector).value.Some?
            ==> |vector| == 1 && ScalarOf(vector).value == SampleOf(vector[0])
    ensures ScalarOf(vector) == Err(ManySeries) <==> |vector| > 1
    ensures ScalarOf(vector) == Err(BadSample) <==> |vector| == 1 && vector[0].sample.Malformed?
  {
    hide Number;
  }

  // ---- pairs -------------------------------------------------------------------------------

  /** An entry of a pair: undefined when no record gives it, null when the last one gives no number. */
  function Entry<K>(values: map<K, NullableNumber>, key: K): Js {
    if key !in values then JUndefined else if values[key].Some? then JNumber(values[key].value) else JNull
  }

  function TextOrNull(s: Option<string>): Js {
    if s.Some? then JString(s.value) else JNull
  }

  lemma PairIsShown(p: Pair)
    ensures var d := PairJs(p);
            && d.Get("assignmentId") == JString(p.assignmentId)
            && d.Get("cluster") == TextOrNull(p.identity.cluster)
  {
    hide SyncFields, ComponentsJs, NumberJs;
  }

  lemma StateIsShown(p: Pair)
    ensures var d := PairJs(p);
            && d.Get("environment") == TextOrNull(p.identity.environment)
            && d.Get("lifecycleState") == TextOrNull(p.identity.lifecycleState)
  {
    hide SyncFields, ComponentsJs, NumberJs;
  }

  lemma NetworkIsShown(p: Pair)
    ensures var d := PairJs(p);
            && d.Get("network") == TextOrNull(p.identity.network)
            && d.Get("networkProfile") == TextOrNull(p.identity.networkProfile)
            && d.Get("networkGeneration") == TextOrNull(p.identity.networkGeneration)
  {
    hide SyncFields, ComponentsJs, NumberJs;
  }

  lemma ClientsAreShown(p: Pair)
    ensures var d := PairJs(p);
            && d.Get("executionClient") == TextOrNull(p.identity.executionClient)
            && d.Get("consensusClient") == TextOrNull(p.identity.consensusClient)
            && d.Get("grafanaUrl") == TextOrNull(p.identity.grafanaUrl)
  {
    hide SyncFields, ComponentsJs, NumberJs;
  }

  lemma EnabledIsShown(p: Pair)
    ensures PairJs(p).Get("signing") == JObject(map["validatorsEnabled" := NumberJs(p.validatorsEnabled)])
    ensures PairJs(p).Get("signing").Get("validatorsEnabled")
            == if p.validatorsEnabled.Some? then JNumber(p.validatorsEnabled.value) else JNull
  {
    hide SyncFields, ComponentsJs, StringJs;
  }

  lemma ComponentIsShown(values: map<Component, NullableNumber>)
    ensures ComponentsJs(values).Get("execution") == Entry(values, Execution)
    ensures ComponentsJs(values).Get("consensus") == Entry(values, Consensus)
  {
    assert "execution"[0] != "consensus"[0];
  }

  lemma ComponentsAreShown(p: Pair)
    ensures var d := PairJs(p);
            && d.Get("targets").Get("execution") == Entry(p.targets, Execution)
            && d.Get("targets").Get("consensus") == Entry(p.targets, Consensus)
            && d.Get("resources").Get("cpuCores").Get("execution") == Entry(p.cpuCores, Execution)
            && d.Get("resources").Get("cpuCores").Get("consensus") == Entry(p.cpuCores, Consensus)
            && d.Get("resources").Get("memoryBytes").Get("execution") == Entry(p.memoryBytes, Execution)
            && d.Get("resources").Get("memoryBytes").Get("consensus") == Entry(p.memoryBytes, Consensus)
  {
    hide SyncFields, StringJs, NumberJs, ComponentsJs;
    ComponentIsShown(p.targets);
    ComponentIsShown(p.cpuCores);
    ComponentIsShown(p.memoryBytes);
  }

  lemma SyncNamesDiffer(m: SyncMetric, n: SyncMetric)
    ensures SyncName(m) == SyncName(n) ==> m == n
  {
    assert forall k: SyncMetric :: (SyncName(k)[0] == 'e') == (k.ExecutionPeers? || k.ExecutionHeadBlock? || k.ExecutionHeadHeader?
                                     || k.ExecutionSyncDistance? || k.ExecutionHeadChanges15m?);
  }

  lemma {:induction false} SyncFieldsHold(values: map<SyncMetric, NullableNumber>, k: nat, m: SyncMetric)
    requires k <= |SYNC_METRICS|
    ensures SyncName(m) in SyncFields(values, k) <==> m in SYNC_METRICS[..k] && m in values
    ensures m in SYNC_METRICS[..k] && m in values ==> SyncFields(values, k)[SyncName(m)] == NumberJs(values[m])
  {
    hide SyncName, NumberJs;
    if k == 0 {
    } else {
      SyncFieldsHold(values, k - 1, m);
      SyncNamesDiffer(m, SYNC_METRICS[k - 1]);
      assert SYNC_METRICS[..k] == SYNC_METRICS[..k - 1] + [SYNC_METRICS[k - 1]];
    }
  }

  lemma SyncIsEntry(p: Pair, m: SyncMetric)
    ensures PairJs(p).Get("sync").Get(SyncName(m)) == Entry(p.sync, m)
  {
    hide SyncName, ComponentsJs, StringJs, SyncFields;
    SyncFieldsHold(p.sync, |SYNC_METRICS|, m);
    AllSyncMetrics(m);
    assert SYNC_METRICS[..|SYNC_METRICS|] == SYNC_METRICS;
  }

  lemma SyncIsShown(p: Pair)
    ensures var sync := PairJs(p).Get("sync");
            && sync.Get("executionPeers") == Entry(p.sync, ExecutionPeers)
            && sync.Get("consensusPeers") == Entry(p.sync, ConsensusPeers)
            && sync.Get("executionHeadBlock") == Entry(p.sync, ExecutionHeadBlock)
            && sync.Get("executionHeadHeader") == Entry(p.sync, ExecutionHeadHeader)
            && sync.Get("executionSyncDistance") == Entry(p.sync, ExecutionSyncDistance)
            && sync.Get("executionHeadChanges15m") == Entry(p.sync, ExecutionHeadChanges15m)
            && sync.Get("consensusHeadChanges15m") == Entry(p.sync, ConsensusHeadChanges15m)
            && sync.Get("consensusSlotLag") == Entry(p.sync, ConsensusSlotLag)
            && sync.Get("consensusFinalityLagEpochs") == Entry(p.sync, ConsensusFinalityLagEpochs)
  {
    hide PairJs;
    SyncIsEntry(p, ExecutionPeers);
    SyncIsEntry(p, ConsensusPeers);
    SyncIsEntry(p, ExecutionHeadBlock);
    SyncIsEntry(p, ExecutionHeadHeader);
    SyncIsEntry(p, ExecutionSyncDistance);
    SyncIsEntry(p, ExecutionHeadChanges15m);
    SyncIsEntry(p, ConsensusHeadChanges15m);
    SyncIsEntry(p, ConsensusSlotLag);
    SyncIsEntry(p, ConsensusFinalityLagEpochs);
  }

  lemma PairsAreShown(v: View<StatusBody>)
    ensures var pairs := DocumentJs(v).Get("pairs");
            && pairs.JArray? && |pairs.items| == |v.content.pairs|
            && forall i | 0 <= i < |v.content.pairs| :: pairs.items[i] == PairJs(v.content.pairs[i])
  {
    hide ClusterJs, SigningJs, AlertsJs, PairJs;
  }

  // ---- the guard ---------------------------------------------------------------------------

  /** Null or a finite number. */
  ghost predicate IsCount(v: Js) {
    v == JNull || exists x :: v == JNumber(Finite(x))
  }

  ghost predicate IsText(v: Js) {
    v == JNull || exists t :: v == JString(t)
  }

  lemma NumberNamed(v: Js, names: seq<string>, k: nat)
    requires k < |names|
    ensures HasNullableNumbers(v, names) ==> IsCount(v.Get(names[k]))
  {
    if HasNullableNumbers(v, names) && v.Get(names[k]).JNumber? {
      assert IsNullableNumber(v.Get(names[k]));
      assert v.Get(names[k]) == JNumber(Finite(v.Get(names[k]).number.value));
    }
  }

  /** What the guard asks of the parts of a document. */
  lemma GuardMeans(d: Js)
    requires IsStatusSnapshot(d)
    ensures d.Get("schemaVersion") == JNumber(Finite(1.0))
    ensures d.Get("observedAt").JString? && d.Get("source").Get("prometheusReady").JBool? && d.Get("source").Get("stale").JBool?
    ensures d.Get("source").Get("cacheAgeSeconds").JNumber?
    ensures d.Get("cluster").Get("name").JString? && d.Get("cluster").Get("environment").JString?
    ensures d.Get("pairs").JArray? && forall p | p in d.Get("pairs").items :: p.Get("assignmentId").JString?
  {
    hide HasNullableNumbers, HasPairStrings;
  }

  lemma GuardOfNodes(d: Js)
    requires IsStatusSnapshot(d)
    ensures var (nodes, pods) := (d.Get("cluster").Get("nodes"), d.Get("cluster").Get("pods"));
            && IsCount(nodes.Get("ready")) && IsCount(nodes.Get("systemReady")) && IsCount(nodes.Get("ethereumReady"))
            && IsCount(pods.Get("total")) && IsCount(pods.Get("running")) && IsCount(pods.Get("pending"))
  {
    hide HasNullableNumbers, IsPair, IsSigning, IsAlerts, IsCount;
    var (nodes, pods) := (d.Get("cluster").Get("nodes"), d.Get("cluster").Get("pods"));
    NumberNamed(nodes, ["ready", "systemReady", "ethereumReady"], 0);
    NumberNamed(nodes, ["ready", "systemReady", "ethereumReady"], 1);
    NumberNamed(nodes, ["ready", "systemReady", "ethereumReady"], 2);
    NumberNamed(pods, ["total", "running", "pending"], 0);
    NumberNamed(pods, ["total", "running", "pending"], 1);
    NumberNamed(pods, ["total", "running", "pending"], 2);
  }

  lemma GuardOfResources(d: Js)
    requires IsStatusSnapshot(d)
    ensures var (capacity, usage) := (d.Get("cluster").Get("capacity"), d.Get("cluster").Get("usage"));
            && IsCount(capacity.Get("cpuCores")) && IsCount(capacity.Get("memoryBytes"))
            && IsCount(usage.Get("cpuCores")) && IsCount(usage.Get("memoryBytes"))
            && IsCount(d.Get("cluster").Get("containerRestarts"))
  {
    hide HasNullableNumbers, IsPair, IsSigning, IsAlerts;
    var (capacity, usage, restarts) := (d.Get("cluster").Get("capacity"), d.Get("cluster").Get("usage"), d.Get("cluster").Get("containerRestarts"));
    assert IsNullableNumber(restarts);
    assert restarts.JNumber? ==> restarts == JNumber(Finite(restarts.number.value));
    hide IsCount;
    NumberNamed(capacity, ["cpuCores", "memoryBytes"], 0);
    NumberNamed(capacity, ["cpuCores", "memoryBytes"], 1);
    NumberNamed(usage, ["cpuCores", "memoryBytes"], 0);
    NumberNamed(usage, ["cpuCores", "memoryBytes"], 1);
  }

  lemma GuardOfWorkloads(d: Js)
    requires IsStatusSnapshot(d)
    ensures var w := d.Get("cluster").Get("ethereumWorkloads");
            && IsCount(w.Get("pods")) && IsCount(w.Get("podsRunning")) && IsCount(w.Get("cpuCores"))
            && IsCount(w.Get("memoryBytes")) && IsCount(w.Get("containerRestarts"))
            && IsCount(w.Get("persistentVolumeBytes").Get("used")) && IsCount(w.Get("persistentVolumeBytes").Get("capacity"))
  {
    hide HasNullableNumbers, IsPair, IsSigning, IsAlerts, IsCount;
    var w := d.Get("cluster").Get("ethereumWorkloads");
    var names := ["pods", "podsRunning", "cpuCores", "memoryBytes", "containerRestarts"];
    NumberNamed(w, names, 0);
    NumberNamed(w, names, 1);
    NumberNamed(w, names, 2);
    NumberNamed(w, names, 3);
    NumberNamed(w, names, 4);
    NumberNamed(w.Get("persistentVolumeBytes"), ["used", "capacity"], 0);
    NumberNamed(w.Get("persistentVolumeBytes"), ["used", "capacity"], 1);
  }

  lemma GuardOfSigning(d: Js)
    requires IsStatusSnapshot(d) && d.Get("signing") != JUndefined
    ensures var signing := d.Get("signing");
            && IsCount(signing.Get("validatorsEnabled")) && IsCount(signing.Get("signerUp"))
            && IsCount(signing.Get("keysLoaded")) && IsCount(signing.Get("slashingPermittedTotal"))
            && IsCount(signing.Get("slashingPreventedTotal")) && IsCount(signing.Get("missingIdentifierTotal"))
  {
    hide HasNullableNumbers, IsPair, IsCluster, IsAlerts, IsCount;
    var signing := d.Get("signing");
    var names := ["validatorsEnabled", "signerUp", "keysLoaded", "slashingPermittedTotal", "slashingPreventedTotal",
                  "missingIdentifierTotal"];
    NumberNamed(signing, names, 0);
    NumberNamed(signing, names, 1);
    NumberNamed(signing, names, 2);
    NumberNamed(signing, names, 3);
    NumberNamed(signing, names, 4);
    NumberNamed(signing, names, 5);
  }

  lemma GuardOfAlerts(d: Js)
    requires IsStatusSnapshot(d) && d.Get("alerts") != JUndefined
    ensures var alerts := d.Get("alerts");
            && IsCount(alerts.Get("firingTotal")) && IsCount(alerts.Get("critical")) && IsCount(alerts.Get("warning"))
            && (alerts.Get("available").JUndefined? || alerts.Get("available").JBool?)
  {
    hide HasNullableNumbers, IsPair, IsCluster, IsSigning, IsCount;
    var alerts := d.Get("alerts");
    NumberNamed(alerts, ["firingTotal", "critical", "warning"], 0);
    NumberNamed(alerts, ["firingTotal", "critical", "warning"], 1);
    NumberNamed(alerts, ["firingTotal", "critical", "warning"], 2);
  }

  lemma GuardOfPair(p: Js)
    requires IsPair(p)
    ensures p.Get("targets").JObject? && p.Get("sync").JObject?
    ensures p.Get("resources").Get("cpuCores").JObject? && p.Get("resources").Get("memoryBytes").JObject?
    ensures p.Get("signing") != JUndefined ==> IsCount(p.Get("signing").Get("validatorsEnabled"))
    ensures IsText(p.Get("network")) && IsText(p.Get("networkGeneration")) && IsText(p.Get("executionClient"))
    ensures IsText(p.Get("consensusClient")) && IsText(p.Get("lifecycleState")) && IsText(p.Get("grafanaUrl"))
  {
    NumberNamed(p.Get("signing"), ["validatorsEnabled"], 0);
    hide IsCount, HasNullableNumbers;
    forall v: Js | IsNullableString(v) ensures IsText(v) {
      assert v.JString? ==> v == JString(v.text);
    }
    hide IsText;
  }

  // ---- exactly when the guard believes a document of the API -------------------------------

  lemma ShownIsCount(b: StatusBody, s: Scalar)
    ensures IsCount(Shown(b, s)) <==> FiniteOrNull(ScalarIn(b, s))
  {
    var v := Shown(b, s);
    assert v.JNumber? && v.number.Finite? ==> v == JNumber(Finite(v.number.value));
  }

  lemma AcceptedCluster(v: View<StatusBody>, s: Scalar)
    requires IsStatusSnapshot(DocumentJs(v)) && IsShown(v.content, s)
    ensures IsCount(Shown(v.content, s))
  {
    hide IsStatusSnapshot, DocumentJs, IsCount, Shown, AlertsAvailable, NodeGroupsKnown;
    var d := DocumentJs(v);
    GuardOfNodes(d);
    NodesAreShown(v);
    GuardOfResources(d);
    ResourcesAreShown(v);
    GuardOfWorkloads(d);
    WorkloadsAreShown(v);
    AcceptedSections(v, s);
  }

  lemma AvailableIsShown(b: StatusBody)
    ensures AlertsAvailable(b) <==> Shown(b, AlertEvaluationReady) == JNumber(Finite(1.0))
  {
  }

  lemma SectionsAreThere(v: View<StatusBody>)
    ensures DocumentJs(v).Get("signing") != JUndefined && DocumentJs(v).Get("alerts") != JUndefined
  {
    hide ClusterJs, PairJs, NumberJs;
  }

  lemma AcceptedSections(v: View<StatusBody>, s: Scalar)
    requires IsStatusSnapshot(DocumentJs(v)) && IsShown(v.content, s)
    ensures s in {SigningValidatorsEnabled, SignerUp, SignerKeysLoaded, SigningPermitted, SigningPrevented,
                  SigningMissingIdentifier, FiringAlertsTotal, FiringAlertsCritical, FiringAlertsWarning}
            ==> IsCount(Shown(v.content, s))
  {
    hide IsStatusSnapshot, DocumentJs, IsCount, Shown, AlertsAvailable, NodeGroupsKnown;
    var d := DocumentJs(v);
    SectionsAreThere(v);
    GuardOfSigning(d);
    SigningIsShown(v);
    GuardOfAlerts(d);
    AlertsAreShown(v);
    AvailableIsShown(v.content);
  }

  /** The guard accepts a document of the API exactly when every scalar it shows is finite or null, and so is the
      number of validators of every pair. It does not look at the numbers of targets, sync and resources. */
  lemma GuardAcceptsIff(v: View<StatusBody>)
    ensures IsStatusSnapshot(DocumentJs(v))
            <==> && (forall s | IsShown(v.content, s) :: IsCount(Shown(v.content, s)))
                 && forall i | 0 <= i < |v.content.pairs| :: FiniteOrNull(v.content.pairs[i].validatorsEnabled)
  {
    hide DocumentJs, IsShown, Shown, IsCount, FiniteOrNull, ScalarIn, IsPair, PairJs;
    forall s ensures IsCount(Shown(v.content, s)) <==> FiniteOrNull(ScalarIn(v.content, s)) {
      ShownIsCount(v.content, s);
    }
    PairsAreShown(v);
    if IsStatusSnapshot(DocumentJs(v)) {
      forall s | IsShown(v.content, s) ensures IsCount(Shown(v.content, s)) {
        AcceptedCluster(v, s);
      }
      forall i | 0 <= i < |v.content.pairs| ensures FiniteOrNull(v.content.pairs[i].validatorsEnabled) {
        assert IsPair(DocumentJs(v).Get("pairs").items[i]);
        PairPasses(v.content.pairs[i]);
      }
    }
    if ShownAreFinite(v.content) && forall i | 0 <= i < |v.content.pairs| :: FiniteOrNull(v.content.pairs[i].validatorsEnabled) {
      FiniteDocumentPasses(v);
    }
  }

  /** The filter for infinities and NaN is needed: the guard refuses a document that shows any. */
  lemma GuardNeedsFinite(v: View<StatusBody>, s: Scalar)
    requires IsShown(v.content, s) && !FiniteOrNull(ScalarIn(v.content, s))
    ensures !IsStatusSnapshot(DocumentJs(v))
  {
    hide IsStatusSnapshot, DocumentJs, IsShown;
    GuardAcceptsIff(v);
    ShownIsCount(v.content, s);
  }

  /** What a build takes from its scrape: of every query the number of its one sample or null, and the pairs. */
  lemma BuildMeans(view: View<StatusBody>, a: Attempt, s: Scalar, id: string)
    requires IsBuild(view, a)
    ensures var (b, vector) := (view.content, a.scrape.scalars(s));
            && |vector| <= 1
            && (vector == [] || SampleOf(vector[0]).None? ==> Shown(b, s) == JNull)
            && (vector != [] && SampleOf(vector[0]).Some? ==> Shown(b, s) == JNumber(SampleOf(vector[0]).value))
            && (view.prometheusReady <==> Shown(b, SourceReady) == JNumber(Finite(1.0)))
            && view.stale == false && view.cacheAgeSeconds == 0.0
            && (id in IdsOf(b.pairs) <==> exists r :: r in a.scrape.pairs.targetUp && AboutEither(id)(r))
            && forall p | p in b.pairs :: IsReported(p, a.scrape.pairs, a.link)
  {
    hide IsSnapshot, IsReported, AboutEither, Number;
    ScalarMeans(a.scrape.scalars(s));
    SnapshotMeans(view.content.pairs, a.scrape.pairs, a.link, id);
  }
}
