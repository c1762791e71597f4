/** How the portal status API folds metric vectors into one record for each node pair. */
module PairSnapshot {
  import opened Ordering
  import opened Rounding
  import opened Text

  // ---- samples -----------------------------------------------------------------------------

  /** A Python float, or a number of JavaScript. */
  datatype Float = Finite(value: real) | Infinite(positive: bool) | NotANumber

  /** What `float(value)` makes of a sample: a float, or an exception. */
  datatype Raw = Unparsed | Parsed(number: Float)

  /** A sample is a pair of a time and a value, or something else. */
  datatype Sample = Malformed | Timed(value: Raw)

  /** One series of a vector; a metric that is not a mapping has no labels. */
  datatype Record = Record(labels: map<string, string>, sample: Sample)

  /** A number or null. */
  type NullableNumber = Option<Float>

  /** Only finite samples are passed on, whole ones as they are and others to six places. */
  function Number(raw: Raw): (n: NullableNumber)
    ensures n.Some? <==> raw.Parsed? && raw.number.Finite?
    ensures n.Some? ==> n.value.Finite? && -0.0000005 <= n.value.value - raw.number.value <= 0.0000005
  {
    if raw.Unparsed? || !raw.number.Finite? then None
    else
      var x := raw.number.value;
      if x == x.Floor as real then Some(Finite(x)) else Some(Finite(Round6(x)))
  }

  predicate FiniteOrNull(n: NullableNumber) {
    n.Some? ==> n.value.Finite?
  }

  function SampleOf(r: Record): (n: NullableNumber)
    ensures FiniteOrNull(n)
  {
    if r.sample.Malformed? then None else Number(r.sample.value)
  }

  const SAFE_PAIR_LABELS: set<string> := {
    "assignment_id", "cluster", "environment", "network", "network_profile",
    "network_generation", "execution_client", "consensus_client", "lifecycle_state", "component"}

  function SafeLabels(r: Record): map<string, string> {
    map l | l in SAFE_PAIR_LABELS && l in r.labels && r.labels[l] != "" :: r.labels[l]
  }

  function Label(r: Record, key: string): Option<string> {
    var labels := SafeLabels(r);
    if key in labels then Some(labels[key]) else None
  }

  datatype Component = Execution | Consensus

  /** The assignment a record speaks about. */
  function IdOf(r: Record): Option<string> {
    Label(r, "assignment_id")
  }

  function ComponentOf(r: Record): Option<Component> {
    var component := Label(r, "component");
    if component == Some("execution") then Some(Execution)
    else if component == Some("consensus") then Some(Consensus)
    else None
  }

  // ---- pairs -------------------------------------------------------------------------------

  datatype SyncMetric =
    | ExecutionPeers | ConsensusPeers | ExecutionHeadBlock | ExecutionHeadHeader | ExecutionSyncDistance
    | ExecutionHeadChanges15m | ConsensusHeadChanges15m | ConsensusSlotLag | ConsensusFinalityLagEpochs

  const SYNC_METRICS: seq<SyncMetric> := [
    ExecutionPeers, ConsensusPeers, ExecutionHeadBlock, ExecutionHeadHeader, ExecutionSyncDistance,
    ExecutionHeadChanges15m, ConsensusHeadChanges15m, ConsensusSlotLag, ConsensusFinalityLagEpochs]

  /** The vectors of one scrape, one for each pair query. */
  datatype Results = Results(
    targetUp: seq<Record>,
    validatorEnabled: seq<Record>,
    sync: SyncMetric -> seq<Record>,
    containerCpuCores: seq<Record>,
    containerMemoryWorkingSetBytes: seq<Record>)

  /** The labels that identify a pair, as its first target record gives them. */
  datatype Identity = Identity(
    cluster: Option<string>,
    environment: Option<string>,
    network: Option<string>,
    networkProfile: Option<string>,
    networkGeneration: Option<string>,
    executionClient: Option<string>,
    consensusClient: Option<string>,
    lifecycleState: Option<string>,
    grafanaUrl: Option<string>)

  datatype Pair = Pair(
    assignmentId: string,
    identity: Identity,
    targets: map<Component, NullableNumber>,
    validatorsEnabled: NullableNumber,
    sync: map<SyncMetric, NullableNumber>,
    cpuCores: map<Component, NullableNumber>,
    memoryBytes: map<Component, NullableNumber>)

  /** Builds a dashboard link from safe labels; how is not modelled. */
  type Linker = map<string, string> -> Option<string>

  function IdentityOf(r: Record, link: Linker): Identity {
    Identity(
      Label(r, "cluster"), Label(r, "environment"), Label(r, "network"), Label(r, "network_profile"),
      Label(r, "network_generation"), Label(r, "execution_client"), Label(r, "consensus_client"),
      Label(r, "lifecycle_state"), link(SafeLabels(r)))
  }

  // ---- the specification -------------------------------------------------------------------

  predicate About(r: Record, id: string) {
    IdOf(r) == Some(id)
  }

  predicate IsTarget(r: Record, id: string) {
    About(r, id) && ComponentOf(r).Some?
  }

  function FirstTarget(records: seq<Record>, id: string): Option<Record> {
    if records == [] then None
    else if IsTarget(records[0], id) then Some(records[0])
    else FirstTarget(records[1..], id)
  }

  /** The value of the last record about this assignment, if there is one. */
  function LastValue(records: seq<Record>, id: string): Option<NullableNumber> {
    if records == [] then None
    else if About(records[|records| - 1], id) then Some(SampleOf(records[|records| - 1]))
    else LastValue(records[..|records| - 1], id)
  }

  /** The value of the last record about this component of the assignment, if there is one. */
  function LastComponent(records: seq<Record>, id: string, c: Component): Option<NullableNumber> {
    if records == [] then None
    else
      var last := records[|records| - 1];
      if About(last, id) && ComponentOf(last) == Some(c) then Some(SampleOf(last))
      else LastComponent(records[..|records| - 1], id, c)
  }

  function Components(records: seq<Record>, id: string): map<Component, NullableNumber> {
    map c | c in {Execution, Consensus} && LastComponent(records, id, c).Some? :: LastComponent(records, id, c).value
  }

  function SyncValues(vectors: SyncMetric -> seq<Record>, id: string): map<SyncMetric, NullableNumber> {
    map m: SyncMetric | LastValue(vectors(m), id).Some? :: LastValue(vectors(m), id).value
  }

  function EnabledValue(records: seq<Record>, id: string): NullableNumber {
    if LastValue(records, id).Some? then LastValue(records, id).value else None
  }

  predicate HasTarget(records: seq<Record>, id: string) {
    FirstTarget(records, id).Some?
  }

  /** The pair of an assignment with target records: identity from the first of them, every metric
      from the last record about it. */
  function PairFor(results: Results, id: string, link: Linker): Pair
    requires HasTarget(results.targetUp, id)
  {
    Pair(
      id,
      IdentityOf(FirstTarget(results.targetUp, id).value, link),
      Components(results.targetUp, id),
      EnabledValue(results.validatorEnabled, id),
      SyncValues(results.sync, id),
      Components(results.containerCpuCores, id),
      Components(results.containerMemoryWorkingSetBytes, id))
  }

  /** One record for each assignment with a target record, strictly sorted by assignment id. */
  ghost predicate IsSnapshot(pairs: seq<Pair>, results: Results, link: Linker) {
    && (forall i | 0 <= i < |pairs| ::
          HasTarget(results.targetUp, pairs[i].assignmentId)
          && pairs[i] == PairFor(results, pairs[i].assignmentId, link))
    && (forall i, j | 0 <= i < j < |pairs| ::
          TextLe(pairs[i].assignmentId, pairs[j].assignmentId) && pairs[i].assignmentId != pairs[j].assignmentId)
    && (forall id | HasTarget(results.targetUp, id) :: exists i :: 0 <= i < |pairs| && pairs[i].assignmentId == id)
  }

  lemma {:induction false} HasTargetIff(records: seq<Record>, id: string)
    ensures HasTarget(records, id) <==> exists r :: r in records && IsTarget(r, id)
  {
    if records == [] {
    } else {
      HasTargetIff(records[1..], id);
      assert records == [records[0]] + records[1..];
    }
  }

  /** Every number of the pair is finite. */
  ghost predicate FinitePair(p: Pair) {
    && FiniteOrNull(p.validatorsEnabled)
    && (forall c | c in p.targets :: FiniteOrNull(p.targets[c]))
    && (forall m | m in p.sync :: FiniteOrNull(p.sync[m]))
    && (forall c | c in p.cpuCores :: FiniteOrNull(p.cpuCores[c]))
    && (forall c | c in p.memoryBytes :: FiniteOrNull(p.memoryBytes[c]))
  }

  lemma {:induction false} LastValueFinite(records: seq<Record>, id: string)
    ensures LastValue(records, id).Some? ==> FiniteOrNull(LastValue(records, id).value)
  {
    if records == [] {
    } else {
      LastValueFinite(records[..|records| - 1], id);
    }
  }

  lemma {:induction false} LastComponentFinite(records: seq<Record>, id: string, c: Component)
    ensures LastComponent(records, id, c).Some? ==> FiniteOrNull(LastComponent(records, id, c).value)
  {
    if records == [] {
    } else {
      LastComponentFinite(records[..|records| - 1], id, c);
    }
  }

  /** Whatever a scrape holds, no infinity and no NaN reaches a pair. */
  lemma PairIsFinite(results: Results, id: string, link: Linker)
    requires HasTarget(results.targetUp, id)
    ensures FinitePair(PairFor(results, id, link))
  {
    assert FiniteOrNull(None);
    hide LastValue, LastComponent, FirstTarget, IdentityOf, FiniteOrNull;
    LastValueFinite(results.validatorEnabled, id);
    forall m ensures LastValue(results.sync(m), id).Some? ==> FiniteOrNull(LastValue(results.sync(m), id).value) {
      LastValueFinite(results.sync(m), id);
    }
    forall c
      ensures LastComponent(results.targetUp, id, c).Some? ==> FiniteOrNull(LastComponent(results.targetUp, id, c).value)
      ensures LastComponent(results.containerCpuCores, id, c).Some?
              ==> FiniteOrNull(LastComponent(results.containerCpuCores, id, c).value)
      ensures LastComponent(results.containerMemoryWorkingSetBytes, id, c).Some?
              ==> FiniteOrNull(LastComponent(results.containerMemoryWorkingSetBytes, id, c).value)
    {
      LastComponentFinite(results.targetUp, id, c);
      LastComponentFinite(results.containerCpuCores, id, c);
      LastComponentFinite(results.containerMemoryWorkingSetBytes, id, c);
    }
  }

  // ---- how the specification grows with one record -----------------------------------------

  lemma {:induction false} FirstTargetGrows(records: seq<Record>, r: Record, id: string)
    ensures FirstTarget(records + [r], id) ==
            if HasTarget(records, id) then FirstTarget(records, id) else if IsTarget(r, id) then Some(r) else None
  {
    if records == [] {
    } else {
      assert (records + [r])[1..] == records[1..] + [r];
      FirstTargetGrows(records[1..], r, id);
    }
  }

  lemma LastValueGrows(records: seq<Record>, r: Record, id: string)
    ensures LastValue(records + [r], id) == if About(r, id) then Some(SampleOf(r)) else LastValue(records, id)
  {
  }

  lemma ComponentsGrow(records: seq<Record>, r: Record, id: string)
    ensures Components(records + [r], id) ==
            if IsTarget(r, id) then Components(records, id)[ComponentOf(r).value := SampleOf(r)] else Components(records, id)
  {
  }

  lemma {:induction false} NoComponents(records: seq<Record>, id: string)
    requires !HasTarget(records, id)
    ensures Components(records, id) == map[]
  {
    HasTargetIff(records, id);
    forall c ensures LastComponent(records, id, c).None? {
      NoLastComponent(records, id, c);
    }
  }

  lemma {:induction false} NoLastComponent(records: seq<Record>, id: string, c: Component)
    requires forall r | r in records :: !IsTarget(r, id)
    ensures LastComponent(records, id, c).None?
  {
    if records == [] {
    } else {
      assert records[|records| - 1] in records;
      NoLastComponent(records[..|records| - 1], id, c);
    }
  }

  lemma SyncValuesGrow(vectors: SyncMetric -> seq<Record>, m: SyncMetric, r: Record, id: string)
    ensures SyncValues(WithSync(vectors, m, vectors(m) + [r]), id) ==
            if About(r, id) then SyncValues(vectors, id)[m := SampleOf(r)] else SyncValues(vectors, id)
  {
    LastValueGrows(vectors(m), r, id);
    var after := WithSync(vectors, m, vectors(m) + [r]);
    hide LastValue, SampleOf, About;
    forall n ensures LastValue(after(n), id) == if n == m then LastValue(vectors(m) + [r], id) else LastValue(vectors(n), id) {
    }
  }

  lemma AllSyncMetrics(m: SyncMetric)
    ensures m in SYNC_METRICS
  {
  }

  function WithSync(vectors: SyncMetric -> seq<Record>, m: SyncMetric, records: seq<Record>): SyncMetric -> seq<Record> {
    x => if x == m then records else vectors(x)
  }

  // ---- the fold ----------------------------------------------------------------------------

  /** The table of pairs after the records in `done` have been folded in. */
  ghost predicate Folded(table: map<string, Pair>, done: Results, link: Linker) {
    && (forall id :: id in table <==> HasTarget(done.targetUp, id))
    && (forall id | id in table :: table[id] == PairFor(done, id, link))
  }

  const NOTHING := Results([], [], _ => [], [], [])

  function NewPair(r: Record, id: string, link: Linker): Pair {
    Pair(id, IdentityOf(r, link), map[], None, map[], map[], map[])
  }

  method FoldTargets(records: seq<Record>, link: Linker) returns (table: map<string, Pair>)
    ensures Folded(table, NOTHING.(targetUp := records), link)
  {
    hide IdOf, ComponentOf, IdentityOf, Components, SampleOf, SyncValues, FirstTarget;
    table := map[];
    NoTargets();
    for i := 0 to |records|
      invariant Folded(table, NOTHING.(targetUp := records[..i]), link)
    {
      var r := records[i];
      TargetStep(table, records[..i], r, link);
      if IdOf(r).Some? && ComponentOf(r).Some? {
        var id := IdOf(r).value;
        if id !in table {
          table := table[id := NewPair(r, id, link)];
        }
        var pair := table[id];
        table := table[id := pair.(targets := pair.targets[ComponentOf(r).value := SampleOf(r)])];
      }
      assert records[..i + 1] == records[..i] + [r];
    }
    assert records[..|records|] == records;
  }

  lemma NoTargets()
    ensures forall id :: !HasTarget([], id)
  {
  }

  /** Folding one target record in. */
  lemma TargetStep(table: map<string, Pair>, before: seq<Record>, r: Record, link: Linker)
    requires Folded(table, NOTHING.(targetUp := before), link)
    ensures var next :=
              if IdOf(r).Some? && ComponentOf(r).Some? then
                var id := IdOf(r).value;
                var pair := if id in table then table[id] else NewPair(r, id, link);
                table[id := pair.(targets := pair.targets[ComponentOf(r).value := SampleOf(r)])]
              else table;
            Folded(next, NOTHING.(targetUp := before + [r]), link)
  {
    hide IdOf, ComponentOf, IdentityOf, Components, SampleOf, SyncValues, EnabledValue;
    forall id
      ensures FirstTarget(before + [r], id) ==
              if HasTarget(before, id) then FirstTarget(before, id) else if IsTarget(r, id) then Some(r) else None
      ensures Components(before + [r], id) ==
              if IsTarget(r, id) then Components(before, id)[ComponentOf(r).value := SampleOf(r)] else Components(before, id)
      ensures !HasTarget(before, id) ==> Components(before, id) == map[]
      ensures Components([], id) == map[] && EnabledValue([], id) == None && SyncValues(NOTHING.sync, id) == map[]
    {
      FirstTargetGrows(before, r, id);
      ComponentsGrow(before, r, id);
      if !HasTarget(before, id) {
        NoComponents(before, id);
      }
      NothingFolded(id);
    }
  }

  lemma NothingFolded(id: string)
    ensures Components([], id) == map[] && EnabledValue([], id) == None && SyncValues(NOTHING.sync, id) == map[]
  {
  }

  method FoldEnabled(before: map<string, Pair>, records: seq<Record>, ghost done: Results, link: Linker)
    returns (table: map<string, Pair>)
    requires Folded(before, done, link) && done.validatorEnabled == []
    ensures Folded(table, done.(validatorEnabled := records), link)
  {
    hide IdOf, SampleOf, LastValue, Components, SyncValues, IdentityOf, HasTarget;
    table := before;
    for i := 0 to |records|
      invariant Folded(table, done.(validatorEnabled := records[..i]), link)
    {
      var r := records[i];
      assert records[..i + 1] == records[..i] + [r];
      forall id ensures LastValue(records[..i + 1], id) == if About(r, id) then Some(SampleOf(r)) else LastValue(records[..i], id) {
        LastValueGrows(records[..i], r, id);
      }
      if IdOf(r).Some? && IdOf(r).value in table {
        var id := IdOf(r).value;
        table := table[id := table[id].(validatorsEnabled := SampleOf(r))];
      }
    }
    assert records[..|records|] == records;
  }

  method FoldSync(before: map<string, Pair>, m: SyncMetric, records: seq<Record>, ghost done: Results, link: Linker)
    returns (table: map<string, Pair>)
    requires Folded(before, done, link) && done.sync(m) == []
    ensures Folded(table, done.(sync := WithSync(done.sync, m, records)), link)
  {
    hide IdOf, SampleOf, LastValue, Components, SyncValues, IdentityOf, HasTarget;
    table := before;
    SameSync(done, WithSync(done.sync, m, []), before, link);
    for i := 0 to |records|
      invariant Folded(table, done.(sync := WithSync(done.sync, m, records[..i])), link)
    {
      var r := records[i];
      assert records[..i + 1] == records[..i] + [r];
      SyncStep(table, done, m, records[..i], r, link);
      if IdOf(r).Some? && IdOf(r).value in table {
        var id := IdOf(r).value;
        table := table[id := table[id].(sync := table[id].sync[m := SampleOf(r)])];
      }
    }
    assert records[..|records|] == records;
  }

  /** Vectors that agree everywhere fold alike. */
  lemma SameSync(done: Results, vectors: SyncMetric -> seq<Record>, table: map<string, Pair>, link: Linker)
    requires Folded(table, done, link) && forall m :: vectors(m) == done.sync(m)
    ensures Folded(table, done.(sync := vectors), link)
  {
  }

  lemma SyncStep(table: map<string, Pair>, done: Results, m: SyncMetric, before: seq<Record>, r: Record, link: Linker)
    requires Folded(table, done.(sync := WithSync(done.sync, m, before)), link)
    ensures var next :=
              if IdOf(r).Some? && IdOf(r).value in table
              then table[IdOf(r).value := table[IdOf(r).value].(sync := table[IdOf(r).value].sync[m := SampleOf(r)])]
              else table;
            Folded(next, done.(sync := WithSync(done.sync, m, before + [r])), link)
  {
    hide IdOf, SampleOf, LastValue, Components, SyncValues, IdentityOf, HasTarget;
    var vectors := WithSync(done.sync, m, before);
    forall id
      ensures SyncValues(WithSync(done.sync, m, before + [r]), id) ==
              if About(r, id) then SyncValues(vectors, id)[m := SampleOf(r)] else SyncValues(vectors, id)
    {
      SyncValuesGrow(vectors, m, r, id);
      SyncValuesAgree(WithSync(vectors, m, before + [r]), WithSync(done.sync, m, before + [r]), id);
    }
  }

  lemma SyncValuesAgree(a: SyncMetric -> seq<Record>, b: SyncMetric -> seq<Record>, id: string)
    requires forall m :: a(m) == b(m)
    ensures SyncValues(a, id) == SyncValues(b, id)
  {
  }

  method FoldCpu(before: map<string, Pair>, records: seq<Record>, ghost done: Results, link: Linker)
    returns (table: map<string, Pair>)
    requires Folded(before, done, link) && done.containerCpuCores == []
    ensures Folded(table, done.(containerCpuCores := records), link)
  {
    hide IdOf, ComponentOf, SampleOf, EnabledValue, Components, SyncValues, IdentityOf, HasTarget;
    table := before;
    for i := 0 to |records|
      invariant Folded(table, done.(containerCpuCores := records[..i]), link)
    {
      var r := records[i];
      assert records[..i + 1] == records[..i] + [r];
      AllComponentsGrow(records[..i], r);
      if IdOf(r).Some? && IdOf(r).value in table && ComponentOf(r).Some? {
        var id := IdOf(r).value;
        table := table[id := table[id].(cpuCores := table[id].cpuCores[ComponentOf(r).value := SampleOf(r)])];
      }
    }
    assert records[..|records|] == records;
  }

  method FoldMemory(before: map<string, Pair>, records: seq<Record>, ghost done: Results, link: Linker)
    returns (table: map<string, Pair>)
    requires Folded(before, done, link) && done.containerMemoryWorkingSetBytes == []
    ensures Folded(table, done.(containerMemoryWorkingSetBytes := records), link)
  {
    hide IdOf, ComponentOf, SampleOf, EnabledValue, Components, SyncValues, IdentityOf, HasTarget;
    table := before;
    for i := 0 to |records|
      invariant Folded(table, done.(containerMemoryWorkingSetBytes := records[..i]), link)
    {
      var r := records[i];
      assert records[..i + 1] == records[..i] + [r];
      AllComponentsGrow(records[..i], r);
      if IdOf(r).Some? && IdOf(r).value in table && ComponentOf(r).Some? {
        var id := IdOf(r).value;
        table := table[id := table[id].(memoryBytes := table[id].memoryBytes[ComponentOf(r).value := SampleOf(r)])];
      }
    }
    assert records[..|records|] == records;
  }

  lemma AllComponentsGrow(records: seq<Record>, r: Record)
    ensures forall id :: Components(records + [r], id) ==
              if IsTarget(r, id) then Components(records, id)[ComponentOf(r).value := SampleOf(r)] else Components(records, id)
  {
  }

  /** The whole fold: the targets create the pairs, the other metrics only fill them in. */
  method BuildPairs(results: Results, link: Linker) returns (pairs: seq<Pair>)
    ensures IsSnapshot(pairs, results, link)
  {
    hide PairFor, HasTarget;
    var table := FoldTargets(results.targetUp, link);
    ghost var done := NOTHING.(targetUp := results.targetUp);
    table := FoldEnabled(table, results.validatorEnabled, done, link);
    done := done.(validatorEnabled := results.validatorEnabled);
    for i := 0 to |SYNC_METRICS|
      invariant done == NOTHING.(targetUp := results.targetUp, validatorEnabled := results.validatorEnabled, sync := done.sync)
      invariant forall j | 0 <= j < |SYNC_METRICS| ::
        done.sync(SYNC_METRICS[j]) == if j < i then results.sync(SYNC_METRICS[j]) else []
      invariant Folded(table, done, link)
    {
      var m := SYNC_METRICS[i];
      table := FoldSync(table, m, results.sync(m), done, link);
      done := done.(sync := WithSync(done.sync, m, results.sync(m)));
    }
    forall m ensures results.sync(m) == done.sync(m) {
      AllSyncMetrics(m);
    }
    SameSync(done, results.sync, table, link);
    done := done.(sync := results.sync);
    table := FoldCpu(table, results.containerCpuCores, done, link);
    done := done.(containerCpuCores := results.containerCpuCores);
    table := FoldMemory(table, results.containerMemoryWorkingSetBytes, done, link);
    done := done.(containerMemoryWorkingSetBytes := results.containerMemoryWorkingSetBytes);
    assert done == results;
    pairs := InIdOrder(table, results, link);
  }

  method InIdOrder(table: map<string, Pair>, ghost results: Results, link: Linker) returns (pairs: seq<Pair>)
    requires Folded(table, results, link)
    ensures IsSnapshot(pairs, results, link)
  {
    hide PairFor, HasTarget, TextLe, Ascending;
    var ids := TextsInOrder(table.Keys);
    assert forall i | 0 <= i < |ids| :: ids[i] in ids;
    pairs := seq(|ids|, i requires 0 <= i < |ids| => table[ids[i]]);
    AscendingIds(ids);
    ListedInOrder(table, ids, pairs, results, link);
  }

  lemma ListedInOrder(table: map<string, Pair>, ids: seq<string>, pairs: seq<Pair>, results: Results, link: Linker)
    requires Folded(table, results, link)
    requires |ids| == |pairs| && forall i | 0 <= i < |ids| :: ids[i] in table && pairs[i] == table[ids[i]]
    requires forall id | id in table :: id in ids
    requires forall i, j | 0 <= i < j < |ids| :: TextLe(ids[i], ids[j]) && ids[i] != ids[j]
    ensures IsSnapshot(pairs, results, link)
  {
  }

  lemma {:induction false} AscendingIds(ids: seq<string>)
    requires Ascending(ids, TextLe)
    ensures forall i, j | 0 <= i < j < |ids| :: TextLe(ids[i], ids[j]) && ids[i] != ids[j]
  {
    if ids == [] {
    } else {
      AscendingIds(ids[1..]);
      forall i, j | 0 <= i < j < |ids| ensures TextLe(ids[i], ids[j]) && ids[i] != ids[j] {
        assert ids[j] == ids[1..][j - 1];
        assert i > 0 ==> ids[i] == ids[1..][i - 1];
      }
    }
  }

  // ---- non-interference --------------------------------------------------------------------

  /** The vectors agree, series by series, on safe labels and values. */
  ghost predicate Alike(a: seq<Record>, b: seq<Record>) {
    |a| == |b| && forall i | 0 <= i < |a| :: SafeLabels(a[i]) == SafeLabels(b[i]) && SampleOf(a[i]) == SampleOf(b[i])
  }

  ghost predicate ResultsAlike(a: Results, b: Results) {
    && Alike(a.targetUp, b.targetUp)
    && Alike(a.validatorEnabled, b.validatorEnabled)
    && (forall m :: Alike(a.sync(m), b.sync(m)))
    && Alike(a.containerCpuCores, b.containerCpuCores)
    && Alike(a.containerMemoryWorkingSetBytes, b.containerMemoryWorkingSetBytes)
  }

  lemma {:induction false} FirstTargetAlike(a: seq<Record>, b: seq<Record>, id: string, link: Linker)
    requires Alike(a, b)
    ensures HasTarget(a, id) <==> HasTarget(b, id)
    ensures HasTarget(a, id) ==> IdentityOf(FirstTarget(a, id).value, link) == IdentityOf(FirstTarget(b, id).value, link)
  {
    if a == [] {
    } else {
      assert SafeLabels(a[0]) == SafeLabels(b[0]);
      FirstTargetAlike(a[1..], b[1..], id, link);
    }
  }

  lemma {:induction false} LastValueAlike(a: seq<Record>, b: seq<Record>, id: string)
    requires Alike(a, b)
    ensures LastValue(a, id) == LastValue(b, id)
  {
    if a == [] {
    } else {
      assert SafeLabels(a[|a| - 1]) == SafeLabels(b[|b| - 1]);
      LastValueAlike(a[..|a| - 1], b[..|b| - 1], id);
    }
  }

  lemma {:induction false} LastComponentAlike(a: seq<Record>, b: seq<Record>, id: string, c: Component)
    requires Alike(a, b)
    ensures LastComponent(a, id, c) == LastComponent(b, id, c)
  {
    if a == [] {
    } else {
      assert SafeLabels(a[|a| - 1]) == SafeLabels(b[|b| - 1]);
      LastComponentAlike(a[..|a| - 1], b[..|b| - 1], id, c);
    }
  }

  lemma PairAlike(a: Results, b: Results, id: string, link: Linker)
    requires ResultsAlike(a, b) && HasTarget(a.targetUp, id)
    ensures HasTarget(b.targetUp, id) && PairFor(a, id, link) == PairFor(b, id, link)
  {
    hide IdentityOf;
    FirstTargetAlike(a.targetUp, b.targetUp, id, link);
    LastValueAlike(a.validatorEnabled, b.validatorEnabled, id);
    forall m ensures LastValue(a.sync(m), id) == LastValue(b.sync(m), id) {
      LastValueAlike(a.sync(m), b.sync(m), id);
    }
    forall c
      ensures LastComponent(a.targetUp, id, c) == LastComponent(b.targetUp, id, c)
      ensures LastComponent(a.containerCpuCores, id, c) == LastComponent(b.containerCpuCores, id, c)
      ensures LastComponent(a.containerMemoryWorkingSetBytes, id, c) == LastComponent(b.containerMemoryWorkingSetBytes, id, c)
    {
      LastComponentAlike(a.targetUp, b.targetUp, id, c);
      LastComponentAlike(a.containerCpuCores, b.containerCpuCores, id, c);
      LastComponentAlike(a.containerMemoryWorkingSetBytes, b.containerMemoryWorkingSetBytes, id, c);
    }
  }

  ghost function IdsOf(pairs: seq<Pair>): seq<string> {
    seq(|pairs|, i requires 0 <= i < |pairs| => pairs[i].assignmentId)
  }

  lemma {:induction false} StrictlySorted(ids: seq<string>)
    requires forall i, j | 0 <= i < j < |ids| :: TextLe(ids[i], ids[j]) && ids[i] != ids[j]
    ensures Ascending(ids, TextLe)
  {
    if ids == [] {
    } else {
      StrictlySorted(ids[1..]);
    }
  }

  /** Labels outside the safe list cannot influence the snapshot: two scrapes that agree on safe
      labels and values give the same pairs. */
  lemma UnsafeLabelsDoNotMatter(a: Results, b: Results, p: seq<Pair>, q: seq<Pair>, link: Linker)
    requires ResultsAlike(a, b) && IsSnapshot(p, a, link) && IsSnapshot(q, b, link)
    ensures p == q
  {
    hide PairFor, HasTarget;
    forall id ensures HasTarget(a.targetUp, id) <==> HasTarget(b.targetUp, id) {
      FirstTargetAlike(a.targetUp, b.targetUp, id, link);
    }
    var ids, jds := IdsOf(p), IdsOf(q);
    StrictlySorted(ids);
    StrictlySorted(jds);
    forall id ensures id in ids <==> id in jds {
      SnapshotIds(p, a, link, id);
      SnapshotIds(q, b, link, id);
    }
    TextOrder();
    AscendingUnique(ids, jds, TextLe);
    assert |p| == |ids| == |q|;
    forall i | 0 <= i < |p| ensures p[i] == q[i] {
      assert ids[i] == jds[i];
      PairAlike(a, b, ids[i], link);
    }
  }

  lemma SnapshotIds(pairs: seq<Pair>, results: Results, link: Linker, id: string)
    requires IsSnapshot(pairs, results, link)
    ensures id in IdsOf(pairs) <==> HasTarget(results.targetUp, id)
  {
    hide PairFor, HasTarget;
    if HasTarget(results.targetUp, id) {
      var i :| 0 <= i < |pairs| && pairs[i].assignmentId == id;
      assert IdsOf(pairs)[i] == id;
    }
  }

  // ---- a snapshot, read from the records ---------------------------------------------------

  /** A label of a record, unless it is empty. */
  function RawLabel(r: Record, key: string): Option<string> {
    if key in r.labels && r.labels[key] != "" then Some(r.labels[key]) else None
  }

  /** Ten labels are passed on. */
  lemma SafeLabelIff(r: Record, key: string)
    ensures Label(r, key)
            == if key in ["assignment_id", "component", "cluster", "environment", "lifecycle_state", "network",
                          "network_generation", "network_profile", "consensus_client", "execution_client"]
               then RawLabel(r, key) else None
  {
  }

  /** A finite sample is passed on, a whole number as it is and any other rounded to millionths. */
  lemma SampleMeans(r: Record, x: real)
    ensures SampleOf(r) == Some(Finite(x))
            <==> exists y :: && r.sample == Timed(Parsed(Finite(y)))
                             && if y.Floor as real == y then x == y else x * 1000000.0 == HalfEven(y * 1000000.0) as real
    ensures SampleOf(r).None? <==> forall y :: r.sample != Timed(Parsed(Finite(y)))
  {
    hide HalfEven;
    if r.sample.Timed? && r.sample.value.Parsed? && r.sample.value.number.Finite? {
      var y := r.sample.value.number.value;
      Scales(y);
      assert Round6(y) * 1000000.0 == x * 1000000.0 ==> Round6(y) == x;
      assert r.sample == Timed(Parsed(Finite(y)));
    }
  }

  function ComponentName(c: Component): string {
    match c
    case Consensus => "consensus"
    case Execution => "execution"
  }

  /** Records about an assignment; about one of its clients; about either. */
  function AboutId(id: string): Record -> bool {
    r => RawLabel(r, "assignment_id") == Some(id)
  }

  function AboutClient(id: string, c: Component): Record -> bool {
    r => RawLabel(r, "assignment_id") == Some(id) && RawLabel(r, "component") == Some(ComponentName(c))
  }

  function AboutEither(id: string): Record -> bool {
    r => AboutClient(id, Execution)(r) || AboutClient(id, Consensus)(r)
  }

  predicate IsFirst(records: seq<Record>, i: int, kind: Record -> bool) {
    0 <= i < |records| && kind(records[i]) && forall j | 0 <= j < i :: !kind(records[j])
  }

  predicate IsLast(records: seq<Record>, i: int, kind: Record -> bool) {
    0 <= i < |records| && kind(records[i]) && forall j | i < j < |records| :: !kind(records[j])
  }

  /** The value of the last such record, if there is any. */
  ghost predicate IsLastOf(n: Option<NullableNumber>, records: seq<Record>, kind: Record -> bool) {
    if n.None? then forall i | 0 <= i < |records| :: !kind(records[i])
    else exists i :: IsLast(records, i, kind) && n.value == SampleOf(records[i])
  }

  /** The value of the last such record, or null without any. */
  ghost predicate IsLastOrNull(n: NullableNumber, records: seq<Record>, kind: Record -> bool) {
    IsLastOf(Some(n), records, kind) || (IsLastOf(None, records, kind) && n == None)
  }

  lemma KindsAreLabels(r: Record, id: string)
    ensures About(r, id) <==> AboutId(id)(r)
    ensures forall c :: About(r, id) && ComponentOf(r) == Some(c) <==> AboutClient(id, c)(r)
    ensures IsTarget(r, id) <==> AboutEither(id)(r)
  {
    SafeLabelIff(r, "assignment_id");
    SafeLabelIff(r, "component");
    hide Label, SafeLabels, RawLabel;
    assert "execution"[0] != "consensus"[0];
  }

  lemma {:induction false} LastValueMeans(records: seq<Record>, id: string)
    ensures IsLastOf(LastValue(records, id), records, AboutId(id))
  {
    hide IsLastOf, About, SampleOf, AboutId;
    if records == [] {
      NothingIsLast(AboutId(id));
    } else {
      var before, last := records[..|records| - 1], records[|records| - 1];
      LastValueMeans(before, id);
      KindsAreLabels(last, id);
      LastOfMore(LastValue(before, id), before, last, AboutId(id));
      assert records == before + [last];
    }
  }

  lemma {:induction false} LastComponentMeans(records: seq<Record>, id: string, c: Component)
    ensures IsLastOf(LastComponent(records, id, c), records, AboutClient(id, c))
  {
    hide IsLastOf, About, SampleOf, AboutClient, ComponentOf;
    if records == [] {
      NothingIsLast(AboutClient(id, c));
    } else {
      var before, last := records[..|records| - 1], records[|records| - 1];
      LastComponentMeans(before, id, c);
      KindsAreLabels(last, id);
      LastOfMore(LastComponent(before, id, c), before, last, AboutClient(id, c));
      assert records == before + [last];
    }
  }

  lemma NothingIsLast(kind: Record -> bool)
    ensures IsLastOf(None, [], kind)
  {
  }

  lemma LastOfMore(n: Option<NullableNumber>, before: seq<Record>, last: Record, kind: Record -> bool)
    requires IsLastOf(n, before, kind)
    ensures IsLastOf(if kind(last) then Some(SampleOf(last)) else n, before + [last], kind)
  {
    hide SampleOf;
    var records := before + [last];
    if kind(last) {
      assert IsLast(records, |before|, kind);
    } else if n.Some? {
      var i :| IsLast(before, i, kind) && n.value == SampleOf(before[i]);
      assert IsLast(records, i, kind) && records[i] == before[i];
    }
  }

  lemma {:induction false} FirstTargetMeans(records: seq<Record>, id: string)
    ensures match FirstTarget(records, id)
            case None => forall i | 0 <= i < |records| :: !AboutEither(id)(records[i])
            case Some(r) => exists i :: IsFirst(records, i, AboutEither(id)) && records[i] == r
  {
    hide IsTarget, AboutEither;
    if records == [] {
    } else {
      KindsAreLabels(records[0], id);
      FirstTargetMeans(records[1..], id);
      if IsTarget(records[0], id) {
        assert IsFirst(records, 0, AboutEither(id));
      } else if FirstTarget(records[1..], id).Some? {
        var i :| IsFirst(records[1..], i, AboutEither(id)) && records[1..][i] == FirstTarget(records[1..], id).value;
        assert forall j | 0 < j < |records| :: records[j] == records[1..][j - 1];
        assert IsFirst(records, i + 1, AboutEither(id));
      }
    }
  }

  /** The identity of a pair is what this record says. */
  ghost predicate IsSaidBy(identity: Identity, r: Record, link: Linker) {
    && identity.cluster == RawLabel(r, "cluster") && identity.environment == RawLabel(r, "environment")
    && identity.network == RawLabel(r, "network") && identity.networkProfile == RawLabel(r, "network_profile")
    && identity.networkGeneration == RawLabel(r, "network_generation")
    && identity.executionClient == RawLabel(r, "execution_client")
    && identity.consensusClient == RawLabel(r, "consensus_client")
    && identity.lifecycleState == RawLabel(r, "lifecycle_state")
    && identity.grafanaUrl == link(SafeLabels(r))
  }

  lemma IdentityIsSaid(r: Record, link: Linker)
    ensures IsSaidBy(IdentityOf(r, link), r, link)
  {
    hide RawLabel, Label;
    SafeLabelIff(r, "cluster");
    SafeLabelIff(r, "environment");
    SafeLabelIff(r, "network");
    SafeLabelIff(r, "network_profile");
    SafeLabelIff(r, "network_generation");
    SafeLabelIff(r, "execution_client");
    SafeLabelIff(r, "consensus_client");
    SafeLabelIff(r, "lifecycle_state");
  }

  function ValueIn<K>(values: map<K, NullableNumber>, key: K): Option<NullableNumber> {
    if key in values then Some(values[key]) else None
  }

  /** What a pair says, by the records of the scrape: its identity is that of the first target record of one of
      its clients, and every number is that of the last record about it in the vector of its metric. */
  ghost predicate IsReported(p: Pair, results: Results, link: Linker) {
    && (exists i :: && IsFirst(results.targetUp, i, AboutEither(p.assignmentId))
                    && IsSaidBy(p.identity, results.targetUp[i], link))
    && IsLastOrNull(p.validatorsEnabled, results.validatorEnabled, AboutId(p.assignmentId))
    && (forall m :: IsLastOf(ValueIn(p.sync, m), results.sync(m), AboutId(p.assignmentId)))
    && forall c ::
         && IsLastOf(ValueIn(p.targets, c), results.targetUp, AboutClient(p.assignmentId, c))
         && IsLastOf(ValueIn(p.cpuCores, c), results.containerCpuCores, AboutClient(p.assignmentId, c))
         && IsLastOf(ValueIn(p.memoryBytes, c), results.containerMemoryWorkingSetBytes, AboutClient(p.assignmentId, c))
  }

  lemma ComponentsAreLast(records: seq<Record>, id: string, c: Component)
    ensures IsLastOf(ValueIn(Components(records, id), c), records, AboutClient(id, c))
  {
    hide LastComponent, IsLastOf;
    LastComponentMeans(records, id, c);
    assert ValueIn(Components(records, id), c) == LastComponent(records, id, c);
  }

  lemma SyncIsLast(vectors: SyncMetric -> seq<Record>, id: string, m: SyncMetric)
    ensures IsLastOf(ValueIn(SyncValues(vectors, id), m), vectors(m), AboutId(id))
  {
    hide LastValue, IsLastOf;
    LastValueMeans(vectors(m), id);
    assert ValueIn(SyncValues(vectors, id), m) == LastValue(vectors(m), id);
  }

  lemma EnabledIsLast(records: seq<Record>, id: string)
    ensures IsLastOrNull(EnabledValue(records, id), records, AboutId(id))
  {
    hide LastValue;
    LastValueMeans(records, id);
  }

  lemma PairIsReported(results: Results, id: string, link: Linker)
    requires HasTarget(results.targetUp, id)
    ensures IsReported(PairFor(results, id, link), results, link)
  {
    hide Components, SyncValues, EnabledValue, IdentityOf, FirstTarget, IsLastOf, IsLastOrNull, IsSaidBy, IsFirst, AboutEither, AboutId, AboutClient;
    FirstTargetMeans(results.targetUp, id);
    IdentityIsSaid(FirstTarget(results.targetUp, id).value, link);
    EnabledIsLast(results.validatorEnabled, id);
    var p := PairFor(results, id, link);
    forall m ensures IsLastOf(ValueIn(p.sync, m), results.sync(m), AboutId(id)) {
      SyncIsLast(results.sync, id, m);
    }
    forall c
      ensures IsLastOf(ValueIn(p.targets, c), results.targetUp, AboutClient(id, c))
      ensures IsLastOf(ValueIn(p.cpuCores, c), results.containerCpuCores, AboutClient(id, c))
      ensures IsLastOf(ValueIn(p.memoryBytes, c), results.containerMemoryWorkingSetBytes, AboutClient(id, c))
    {
      ComponentsAreLast(results.targetUp, id, c);
      ComponentsAreLast(results.containerCpuCores, id, c);
      ComponentsAreLast(results.containerMemoryWorkingSetBytes, id, c);
    }
  }

  /** The pairs of a snapshot: sorted by assignment, exactly the assignments of which a client has a target
      record, each as the scrape reports it. */
  lemma SnapshotMeans(pairs: seq<Pair>, results: Results, link: Linker, id: string)
    requires IsSnapshot(pairs, results, link)
    ensures Ascending(IdsOf(pairs), TextLe)
    ensures id in IdsOf(pairs) <==> exists r :: r in results.targetUp && AboutEither(id)(r)
    ensures forall p | p in pairs :: IsReported(p, results, link)
  {
    hide PairFor, HasTarget, IsReported, AboutEither, IsTarget, TextLe;
    StrictlySorted(IdsOf(pairs));
    SnapshotIds(pairs, results, link, id);
    HasTargetIff(results.targetUp, id);
    forall r ensures IsTarget(r, id) <==> AboutEither(id)(r) {
      KindsAreLabels(r, id);
    }
    forall p | p in pairs ensures IsReported(p, results, link) {
      PairIsReported(results, p.assignmentId, link);
    }
  }
}
