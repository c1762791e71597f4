/** From vulnerability reports to the published summary: nothing is lost and nothing is counted
    twice between the evaluator and the aggregator. */
module ScanConservation {
  import opened Images
  import opened Json
  import opened Ordering
  import opened ScanAggregation
  import opened ScanEvaluation
  import opened Text

  // ---- the decision as a file --------------------------------------------------------------

  function BlockJson(b: Block): Json {
    Obj(map["available" := Int(b.available), "total" := Int(b.total), "unavailable" := Int(b.unavailable)])
  }

  function CountsJson(c: Counts): Json {
    Obj(map["critical" := BlockJson(c.critical), "high" := BlockJson(c.high)])
  }

  function OutcomeText(o: Outcome): string {
    match o
    case NoFindings => "no-critical-or-high-findings"
    case AllExcepted => "all-critical-high-findings-excepted"
    case RequiresReview => "critical-high-findings-require-review"
  }

  function ExceptionJson(e: Exception): Json {
    Obj(map["imageDigest" := Str(e.imageDigest), "vulnerabilityId" := Str(e.vulnerabilityId),
            "rationale" := Str(e.rationale), "owner" := Str(e.owner), "expiresAt" := Str(e.expiresAt)])
  }

  function DecisionJson(d: Decision): Json {
    Obj(map[
      "schemaVersion" := Int(1),
      "subject" := Obj(map["image" := Str(d.image), "digest" := Str(d.digest)]),
      "reportCreatedAt" := Str(d.reportCreatedAt),
      "evaluatedAt" := Str(d.evaluatedAt),
      "counts" := CountsJson(d.counts),
      "unexceptedCounts" := CountsJson(d.unexcepted),
      "exceptions" := Obj(map["applied" := Arr(Map(d.applied, ExceptionJson)), "count" := Int(|d.applied|)]),
      "decision" := Obj(map[
        "mode" := Str("evidence-only"),
        "outcome" := Str(OutcomeText(d.outcome)),
        "promotionGate" := Bool(false)])])
  }

  predicate BlockAddsUp(b: Block) {
    b.available >= 0 && b.unavailable >= 0 && b.available + b.unavailable == b.total
  }

  predicate CountsAddUp(c: Counts) {
    BlockAddsUp(c.critical) && BlockAddsUp(c.high)
  }

  /** The recorded exceptions have the form of an exception document's entries. */
  lemma {:induction false} ExceptionsReadBack(entries: seq<Exception>)
    ensures ReadEntries(Map(entries, ExceptionJson)) == Some(entries)
  {
    if entries == [] {
    } else {
      var before, last := entries[..|entries| - 1], entries[|entries| - 1];
      ExceptionsReadBack(before);
      OneExceptionReadsBack(last);
      hide ReadException, ExceptionJson;
      assert Map(entries, ExceptionJson)[..|entries| - 1] == Map(before, ExceptionJson);
      assert entries == before + [last];
    }
  }

  lemma OneExceptionReadsBack(e: Exception)
    ensures ReadException(ExceptionJson(e)) == Some(e)
  {
    assert ExceptionJson(e).fields.Keys == EXCEPTION_FIELDS;
  }

  lemma CountsReadBack(c: Counts)
    requires CountsAddUp(c)
    ensures ReadCounts(CountsJson(c)) == Some(c)
  {
  }

  /** The aggregator reads a decision of the evaluator back unchanged. Of all its checks only two
      can fail on one: the stricter form of the repository name, and the reading of the time. */
  lemma DecisionReadsBack(d: Decision, image: string, report: Json, entries: seq<Exception>, evaluatedAt: string, iso: Clock)
    requires Decides(d, image, report, entries, evaluatedAt)
    ensures ReadDecision(DecisionJson(d), iso).Some? <==>
            RepositoryShaped(image[..|image| - 72]) && ReadTime(Str(evaluatedAt), iso).Some?
    ensures ReadDecision(DecisionJson(d), iso).Some? ==>
            IsPinned(image)
            && ReadDecision(DecisionJson(d), iso).value
               == Seen((image, Digest(image)), ReadTime(Str(evaluatedAt), iso).value, d.counts, d.unexcepted)
  {
    hide RepositoryShaped, IsHex, ReadCounts, CountsJson, ReadTime, CountsOf, FindingsOf, WellFormedReport, Sort, Map, ExceptedIds;
    DecisionAddsUp(d, image, report, entries, evaluatedAt);
    CountsReadBack(d.counts);
    CountsReadBack(d.unexcepted);
    SubjectReadsBack(image);
    DecisionFields(d);
    hide DecisionJson, SubjectKey, IsPinned, Digest;
  }

  /** The aggregator's form of a subject is stricter than the evaluator's in the repository name only. */
  lemma SubjectReadsBack(image: string)
    requires ExactlyPinned(image)
    ensures var key := SubjectKey(Str(image), Str(ExactDigest(image)));
            && (key.Some? <==> RepositoryShaped(image[..|image| - 72]))
            && (key.Some? ==> IsPinned(image) && key == Some((image, Digest(image))))
  {
    hide RepositoryShaped, IsHex;
    assert image[|image| - 71..] == "sha256:" + image[|image| - 64..] by {
      assert image[|image| - 72..|image| - 64][1..] == "sha256:";
      assert image[|image| - 71..] == image[|image| - 72..|image| - 64][1..] + image[|image| - 64..];
    }
    if IsPinned(image) {
      SubjectOfPinned(image);
    }
  }

  lemma DecisionAddsUp(d: Decision, image: string, report: Json, entries: seq<Exception>, evaluatedAt: string)
    requires Decides(d, image, report, entries, evaluatedAt)
    ensures CountsAddUp(d.counts) && CountsAddUp(d.unexcepted)
  {
  }

  lemma DecisionFields(d: Decision)
    ensures var j := DecisionJson(d);
            && j.Obj? && Field(j, "schemaVersion") == Int(1)
            && Field(j, "subject").Obj? && Field(Field(j, "subject"), "image") == Str(d.image)
            && Field(Field(j, "subject"), "digest") == Str(d.digest)
            && Field(j, "evaluatedAt") == Str(d.evaluatedAt)
            && Field(j, "counts") == CountsJson(d.counts) && Field(j, "unexceptedCounts") == CountsJson(d.unexcepted)
            && Field(j, "decision").Obj? && Field(Field(j, "decision"), "mode") == Str("evidence-only")
            && Field(Field(j, "decision"), "promotionGate") == Bool(false)
  {
    hide CountsJson, OutcomeText;
  }

  /** A block, as it is written. */
  lemma BlockText(b: Block)
    ensures Dumps(BlockJson(b)) ==
            "{" + ("\"available\":" + Dumps(Int(b.available)) + "," + ("\"total\":" + Dumps(Int(b.total))) + ","
                   + ("\"unavailable\":" + Dumps(Int(b.unavailable))) + "}")
  {
    hide Dumps, MemberText, TextsInOrder;
    var block := BlockJson(b);
    BlockKeys(b);
    CountTexts(b);
    assert block.Obj?;
    hide BlockJson;
    MembersOfThree(block, "available", "total", "unavailable");
  }

  lemma CountTexts(b: Block)
    ensures MemberText(BlockJson(b))("available") == "\"available\":" + Dumps(Int(b.available))
    ensures MemberText(BlockJson(b))("total") == "\"total\":" + Dumps(Int(b.total))
    ensures MemberText(BlockJson(b))("unavailable") == "\"unavailable\":" + Dumps(Int(b.unavailable))
  {
    hide Dumps;
    CountText(b, "available", b.available, "\"available\":");
    CountText(b, "total", b.total, "\"total\":");
    CountText(b, "unavailable", b.unavailable, "\"unavailable\":");
  }

  lemma CountText(b: Block, name: string, n: int, shown: string)
    requires name in BlockJson(b).fields && BlockJson(b).fields[name] == Int(n)
    requires forall i | 0 <= i < |name| :: IsPlain(name[i])
    requires shown == QUOTE + (name + QUOTE) + ":"
    ensures MemberText(BlockJson(b))(name) == shown + Dumps(Int(n))
  {
    hide BlockJson, Dumps;
    PlainDumps(name);
  }

  lemma BlockKeys(b: Block)
    ensures TextsInOrder(BlockJson(b).fields.Keys) == ["available", "total", "unavailable"]
  {
    BlockKeysAscend();
    hide TextsInOrder, Ascending, TextLe;
    KeysAre(BlockJson(b).fields, ["available", "total", "unavailable"]);
  }

  lemma BlockKeysAscend()
    ensures Ascending(["available", "total", "unavailable"], TextLe)
  {
    var keys := ["available", "total", "unavailable"];
    assert keys[1..] == ["total", "unavailable"] && keys[1..][1..] == ["unavailable"] && keys[1..][1..][1..] == [];
    assert keys[0][0] == 'a' && keys[1][0] == 't' && keys[2][0] == 'u';
  }

  // ---- conservation ------------------------------------------------------------------------

  /** One evaluated image: its report, the exceptions, and the decision that came of them. */
  datatype Evidence = Evidence(image: string, report: Json, entries: seq<Exception>, evaluatedAt: string, decision: Decision)

  ghost predicate Evaluated(e: Evidence) {
    Decides(e.decision, e.image, e.report, e.entries, e.evaluatedAt)
  }

  function FileOf(e: Evidence): Json {
    DecisionJson(e.decision)
  }

  // ---- counting in the report itself -------------------------------------------------------

  /** The list under a name of an object, empty when there is none. */
  function ListUnder(value: Json, name: string): seq<Json> {
    if value.Obj? && Field(value, name).Arr? then Field(value, name).items else []
  }

  function LabelOf(s: Severity): string {
    match s
    case Critical => "CRITICAL"
    case High => "HIGH"
  }

  predicate Labelled(vulnerability: Json, s: Severity) {
    vulnerability.Obj? && Field(vulnerability, "Severity") == Str(LabelOf(s))
  }

  function LabelledWith(s: Severity): Json -> bool {
    v => Labelled(v, s)
  }

  /** A fixed version is given, and more than blanks. */
  predicate IsFixed(vulnerability: Json) {
    && vulnerability.Obj? && Field(vulnerability, "FixedVersion").Str?
    && exists c | c in Field(vulnerability, "FixedVersion").text :: !IsSpace(c)
  }

  /** Some entry excepts the vulnerability. */
  predicate IsExcepted(vulnerability: Json, entries: seq<Exception>) {
    vulnerability.Obj? && exists e | e in entries :: Field(vulnerability, "VulnerabilityID") == Str(e.vulnerabilityId)
  }

  /** The vulnerability has this severity, a fix or none, and no exception. */
  predicate Chosen(vulnerability: Json, s: Severity, a: Availability, entries: seq<Exception>) {
    && Labelled(vulnerability, s)
    && (if IsFixed(vulnerability) then a == Available else a == Unavailable)
    && !IsExcepted(vulnerability, entries)
  }

  function ChosenBy(s: Severity, a: Availability, entries: seq<Exception>): Json -> bool {
    v => Chosen(v, s, a, entries)
  }

  /** The places of the vulnerabilities that are of a kind: which result, and where in its list. */
  function PlacesIn(results: seq<Json>, kind: Json -> bool): set<(int, int)> {
    set i, j | 0 <= i < |results| && 0 <= j < |ListUnder(results[i], "Vulnerabilities")|
               && kind(ListUnder(results[i], "Vulnerabilities")[j]) :: (i, j)
  }

  function Places(report: Json, kind: Json -> bool): set<(int, int)> {
    PlacesIn(ListUnder(report, "Results"), kind)
  }

  /** The places within the k-th result. */
  function Row(vulnerabilities: seq<Json>, k: int, kind: Json -> bool): set<(int, int)> {
    set j | 0 <= j < |vulnerabilities| && kind(vulnerabilities[j]) :: (k, j)
  }

  lemma RowGrows(before: seq<Json>, last: Json, k: int, kind: Json -> bool)
    ensures |Row(before + [last], k, kind)| == |Row(before, k, kind)| + if kind(last) then 1 else 0
  {
    var all := before + [last];
    assert Row(all, k, kind) == Row(before, k, kind) + if kind(last) then {(k, |before|)} else {};
    assert (k, |before|) !in Row(before, k, kind);
  }

  lemma PlacesGrow(before: seq<Json>, last: Json, kind: Json -> bool)
    ensures |PlacesIn(before + [last], kind)|
            == |PlacesIn(before, kind)| + |Row(ListUnder(last, "Vulnerabilities"), |before|, kind)|
  {
    hide ListUnder;
    var all, row := before + [last], Row(ListUnder(last, "Vulnerabilities"), |before|, kind);
    forall p ensures p in PlacesIn(all, kind) <==> p in PlacesIn(before, kind) || p in row {
      assert p.0 == |before| ==> all[p.0] == last;
      assert 0 <= p.0 < |before| ==> all[p.0] == before[p.0];
    }
    assert PlacesIn(all, kind) == PlacesIn(before, kind) + row;
    assert PlacesIn(before, kind) !! row;
  }

  lemma {:induction false} SeverityCountOfTwo(a: seq<Finding>, b: seq<Finding>, s: Severity)
    ensures SeverityCount(a + b, s) == SeverityCount(a, s) + SeverityCount(b, s)
  {
    if b == [] {
      assert a + b == a;
    } else {
      SeverityCountOfTwo(a, b[..|b| - 1], s);
      assert (a + b)[..|a + b| - 1] == a + b[..|b| - 1];
    }
  }

  lemma {:induction false} RowCounted(vulnerabilities: seq<Json>, k: int, target: string, s: Severity)
    requires forall v | v in vulnerabilities :: WellFormed(v)
    ensures |Row(vulnerabilities, k, LabelledWith(s))| == SeverityCount(Counted(vulnerabilities, target), s)
  {
    hide Labelled, SeverityCount, FindingOf, VulnerabilityId;
    if vulnerabilities == [] {
      NoneCounted(s);
    } else {
      var before, last := vulnerabilities[..|vulnerabilities| - 1], vulnerabilities[|vulnerabilities| - 1];
      assert last in vulnerabilities;
      RowCounted(before, k, target, s);
      RowGrows(before, last, k, LabelledWith(s));
      assert vulnerabilities == before + [last];
      var more := if SeverityOf(last).Some? then [FindingOf(last, target)] else [];
      SeverityCountOfTwo(Counted(before, target), more, s);
      OneCounted(last, target, s);
    }
  }

  lemma OneCounted(v: Json, target: string, s: Severity)
    requires WellFormed(v)
    ensures SeverityCount(if SeverityOf(v).Some? then [FindingOf(v, target)] else [], s) == if Labelled(v, s) then 1 else 0
  {
  }

  /** The findings of a report are exactly its vulnerabilities labelled CRITICAL or HIGH: as many of
      each severity as there are places in the report that say so. */
  lemma {:induction false} PlacesCounted(results: seq<Json>, s: Severity)
    requires forall r | r in results :: WellFormedResult(r)
    ensures |PlacesIn(results, LabelledWith(s))| == SeverityCount(FindingsOf(results), s)
  {
    hide Counted, WellFormed, SeverityCount, TargetOf, Row, LabelledWith;
    if results == [] {
      assert PlacesIn(results, LabelledWith(s)) == {} && FindingsOf(results) == [];
      NoneCounted(s);
    } else {
      var before, last := results[..|results| - 1], results[|results| - 1];
      assert last in results && WellFormedResult(last);
      assert results == before + [last];
      PlacesCounted(before, s);
      ListIsVulnerabilities(last);
      RowCounted(Vulnerabilities(last).value, |before|, TargetOf(last), s);
      PlacesGrow(before, last, LabelledWith(s));
      SeverityCountOfTwo(FindingsOf(before), Counted(Vulnerabilities(last).value, TargetOf(last)), s);
    }
  }

  lemma NoneCounted(s: Severity)
    ensures SeverityCount([], s) == 0
  {
  }

  lemma ListIsVulnerabilities(result: Json)
    requires WellFormedResult(result)
    ensures ListUnder(result, "Vulnerabilities") == Vulnerabilities(result).value
  {
  }

  lemma {:induction false} CountOfTwo(a: seq<Finding>, b: seq<Finding>, s: Severity, v: Availability, excepted: set<string>)
    ensures CountOf(a + b, s, v, excepted) == CountOf(a, s, v, excepted) + CountOf(b, s, v, excepted)
  {
    if b == [] {
      assert a + b == a;
    } else {
      CountOfTwo(a, b[..|b| - 1], s, v, excepted);
      assert (a + b)[..|a + b| - 1] == a + b[..|b| - 1];
    }
  }

  lemma FixedIff(v: Json, target: string)
    requires WellFormed(v) && SeverityOf(v).Some?
    ensures FindingOf(v, target).availability == if IsFixed(v) then Available else Unavailable
  {
    hide Strip, IsSpace, VulnerabilityId;
    var fixed := Field(v, "FixedVersion");
    if fixed.Str? {
      StripIsBlankIff(fixed.text);
    }
  }

  /** Nothing is left of a text exactly when it is all blanks. */
  lemma StripIsBlankIff(s: string)
    ensures Strip(s) == "" <==> forall c | c in s :: IsSpace(c)
  {
    hide IsSpace;
    StripLeftIsBlankIff(s);
    StripRightIsBlankIff(StripLeft(s));
  }

  lemma {:induction false} StripLeftIsBlankIff(s: string)
    ensures StripLeft(s) == "" <==> forall c | c in s :: IsSpace(c)
    ensures StripLeft(s) != "" ==> !IsSpace(StripLeft(s)[0])
  {
    if s == [] {
    } else {
      StripLeftIsBlankIff(s[1..]);
      assert s == [s[0]] + s[1..];
    }
  }

  lemma {:induction false} StripRightIsBlankIff(s: string)
    ensures StripRight(s) == "" <==> forall c | c in s :: IsSpace(c)
  {
    if s == [] {
    } else {
      StripRightIsBlankIff(s[..|s| - 1]);
      assert s == s[..|s| - 1] + [s[|s| - 1]];
    }
  }

  lemma OneChosen(v: Json, target: string, s: Severity, a: Availability, entries: seq<Exception>)
    requires WellFormed(v)
    ensures CountOf(if SeverityOf(v).Some? then [FindingOf(v, target)] else [], s, a, ExceptedIds(entries))
            == if Chosen(v, s, a, entries) then 1 else 0
  {
    hide IsFixed, Strip, VulnerabilityId;
    if SeverityOf(v).Some? {
      FixedIff(v, target);
      assert IsExcepted(v, entries) <==> FindingOf(v, target).id in ExceptedIds(entries);
      assert [FindingOf(v, target)][..0] == [];
    }
  }

  lemma {:induction false} RowChosen(
    vulnerabilities: seq<Json>, k: int, target: string, s: Severity, a: Availability, entries: seq<Exception>)
    requires forall v | v in vulnerabilities :: WellFormed(v)
    ensures |Row(vulnerabilities, k, ChosenBy(s, a, entries))|
            == CountOf(Counted(vulnerabilities, target), s, a, ExceptedIds(entries))
  {
    hide Chosen, FindingOf, ExceptedIds, CountOf, VulnerabilityId;
    if vulnerabilities == [] {
      NoneChosen(s, a, ExceptedIds(entries));
    } else {
      var before, last := vulnerabilities[..|vulnerabilities| - 1], vulnerabilities[|vulnerabilities| - 1];
      assert last in vulnerabilities;
      RowChosen(before, k, target, s, a, entries);
      RowGrows(before, last, k, ChosenBy(s, a, entries));
      assert vulnerabilities == before + [last];
      var more := if SeverityOf(last).Some? then [FindingOf(last, target)] else [];
      CountOfTwo(Counted(before, target), more, s, a, ExceptedIds(entries));
      OneChosen(last, target, s, a, entries);
    }
  }

  lemma NoneChosen(s: Severity, a: Availability, excepted: set<string>)
    ensures CountOf([], s, a, excepted) == 0
  {
  }

  /** The findings of a severity with a fix, or without one, that are not excepted are as many as there are
      places in the report with such a vulnerability. */
  lemma {:induction false} ChosenCounted(results: seq<Json>, s: Severity, a: Availability, entries: seq<Exception>)
    requires forall r | r in results :: WellFormedResult(r)
    ensures |PlacesIn(results, ChosenBy(s, a, entries))| == CountOf(FindingsOf(results), s, a, ExceptedIds(entries))
  {
    hide Counted, WellFormed, CountOf, TargetOf, Row, ChosenBy, ExceptedIds;
    if results == [] {
      assert PlacesIn(results, ChosenBy(s, a, entries)) == {} && FindingsOf(results) == [];
      NoneChosen(s, a, ExceptedIds(entries));
    } else {
      var before, last := results[..|results| - 1], results[|results| - 1];
      assert last in results && WellFormedResult(last);
      assert results == before + [last];
      ChosenCounted(before, s, a, entries);
      ListIsVulnerabilities(last);
      RowChosen(Vulnerabilities(last).value, |before|, TargetOf(last), s, a, entries);
      PlacesGrow(before, last, ChosenBy(s, a, entries));
      CountOfTwo(FindingsOf(before), Counted(Vulnerabilities(last).value, TargetOf(last)), s, a, ExceptedIds(entries));
    }
  }

  /** A labelled vulnerability with this id. */
  predicate Lists(vulnerability: Json, id: string) {
    && (Labelled(vulnerability, Critical) || Labelled(vulnerability, High))
    && Field(vulnerability, "VulnerabilityID") == Str(id)
  }

  /** Some place of the report lists the id. */
  predicate Reports(results: seq<Json>, id: string) {
    exists i, j | 0 <= i < |results| && 0 <= j < |ListUnder(results[i], "Vulnerabilities")| ::
      Lists(ListUnder(results[i], "Vulnerabilities")[j], id)
  }

  /** Every finding of a report stands at some place of it, under its id. */
  lemma {:induction false} FindingIsPlaced(results: seq<Json>, f: Finding)
    requires (forall r | r in results :: WellFormedResult(r)) && f in FindingsOf(results)
    ensures Reports(results, f.id)
  {
    hide Lists, Counted, WellFormed, TargetOf, ListUnder;
    var before, last := results[..|results| - 1], results[|results| - 1];
    assert last in results && WellFormedResult(last);
    if f in FindingsOf(before) {
      FindingIsPlaced(before, f);
      var i, j :| && 0 <= i < |before| && 0 <= j < |ListUnder(before[i], "Vulnerabilities")|
                  && Lists(ListUnder(before[i], "Vulnerabilities")[j], f.id);
      assert results[i] == before[i];
    } else {
      ListIsVulnerabilities(last);
      var j := CountedIsListed(Vulnerabilities(last).value, TargetOf(last), f);
      assert Lists(ListUnder(results[|results| - 1], "Vulnerabilities")[j], f.id);
    }
  }

  lemma {:induction false} CountedIsListed(vulnerabilities: seq<Json>, target: string, f: Finding) returns (j: nat)
    requires (forall v | v in vulnerabilities :: WellFormed(v)) && f in Counted(vulnerabilities, target)
    ensures j < |vulnerabilities| && Lists(vulnerabilities[j], f.id)
  {
    hide VulnerabilityId, Strip;
    var before, last := vulnerabilities[..|vulnerabilities| - 1], vulnerabilities[|vulnerabilities| - 1];
    assert last in vulnerabilities;
    if f in Counted(before, target) {
      j := CountedIsListed(before, target, f);
    } else {
      j := |vulnerabilities| - 1;
      assert f == FindingOf(last, target);
    }
  }

  /** Every exception that a decision applies is for this image, in force, explained, and of a vulnerability
      that the report lists; none is applied twice, and they are recorded by id. */
  lemma AppliedAreJustified(
    d: Decision, image: string, report: Json, subject: ScanSubject, exceptions: Option<Json>, evaluatedAt: string,
    clocks: Clocks)
    requires Decidable(image, report, subject, exceptions, evaluatedAt, clocks)
    requires Decides(d, image, report, EntriesOf(exceptions).value, evaluatedAt)
    ensures forall e | e in d.applied ::
              && e.imageDigest == image[|image| - 71..]
              && clocks.utc(e.expiresAt).Some? && clocks.utc(e.expiresAt).value > clocks.utc(evaluatedAt).value
              && |Strip(e.rationale)| >= 20
              && Reports(ListUnder(report, "Results"), e.vulnerabilityId)
    ensures forall i, j | 0 <= i < j < |EntriesOf(exceptions).value| ::
              EntriesOf(exceptions).value[i].vulnerabilityId != EntriesOf(exceptions).value[j].vulnerabilityId
    ensures multiset(d.applied) == multiset(EntriesOf(exceptions).value) && Sorted(d.applied, ByVulnerability)
  {
    hide EntriesOf, WellFormedResult, FindingsOf, CountsOf, Strip, Sort, Sorted, ByVulnerability, VulnerabilityId, OwnerShaped,
      ListUnder, Reports, IsHex;
    var entries := EntriesOf(exceptions).value;
    var results := ResultsOf(report).value;
    ExceptionsInOrder(entries);
    SameMembers(d.applied, entries);
    ResultsAreListed(report);
    forall e | e in d.applied
      ensures ExceptionHolds(e, ExactDigest(image), ObservedIds(FindingsOf(results)), clocks.utc(evaluatedAt).value, clocks.utc)
    {
      var k :| 0 <= k < |entries| && entries[k] == e;
    }
    hide Decidable, Decides, ExceptionsHold;
    forall e | e in d.applied ensures Reports(results, e.vulnerabilityId) {
      ObservedIsReported(results, e.vulnerabilityId);
    }
  }

  lemma ObservedIsReported(results: seq<Json>, id: string)
    requires forall r | r in results :: WellFormedResult(r)
    ensures id in ObservedIds(FindingsOf(results)) ==> Reports(results, id)
  {
    hide WellFormedResult, FindingsOf, Reports;
    if id in ObservedIds(FindingsOf(results)) {
      var f :| f in FindingsOf(results) && f.id == id;
      FindingIsPlaced(results, f);
    }
  }

  lemma ResultsAreListed(report: Json)
    requires WellFormedReport(report)
    ensures ListUnder(report, "Results") == ResultsOf(report).value
  {
    hide WellFormedResult;
  }

  /** All vulnerabilities of a severity that these reports list. */
  function ReportedFindings(evidence: seq<Evidence>, s: Severity): nat {
    if evidence == [] then 0
    else ReportedFindings(evidence[..|evidence| - 1], s) + |Places(evidence[|evidence| - 1].report, LabelledWith(s))|
  }

  /** Those of them with a fix, or without one; all, or only those that no entry of their image excepts. */
  function ReportedOf(evidence: seq<Evidence>, s: Severity, a: Availability, exceptions: bool): nat {
    if evidence == [] then 0
    else
      var last := evidence[|evidence| - 1];
      ReportedOf(evidence[..|evidence| - 1], s, a, exceptions)
      + |Places(last.report, ChosenBy(s, a, if exceptions then last.entries else []))|
  }

  predicate BlockWithin(part: Block, whole: Block) {
    && 0 <= part.available <= whole.available
    && 0 <= part.unavailable <= whole.unavailable
    && part.total <= whole.total
  }

  /** The block counts exactly the vulnerabilities of a severity, those with a fix apart from the others. */
  predicate BlockReports(b: Block, evidence: seq<Evidence>, s: Severity, exceptions: bool) {
    b.available == ReportedOf(evidence, s, Available, exceptions)
    && b.unavailable == ReportedOf(evidence, s, Unavailable, exceptions)
  }

  /** A block and what is not excepted of it: they add up, exceptions only lower the numbers, and each number
      is that of the reports. */
  predicate BlockConserved(counts: Block, unexcepted: Block, evidence: seq<Evidence>, s: Severity) {
    && BlockAddsUp(counts) && BlockAddsUp(unexcepted) && BlockWithin(unexcepted, counts)
    && counts.total == ReportedFindings(evidence, s)
    && BlockReports(counts, evidence, s, false) && BlockReports(unexcepted, evidence, s, true)
  }

  /** Of each severity the counts are those of the reports: how many vulnerabilities have a fix and how many
      do not, in all and without the excepted ones. */
  predicate Conserved(counts: Counts, unexcepted: Counts, evidence: seq<Evidence>) {
    && BlockConserved(counts.critical, unexcepted.critical, evidence, Critical)
    && BlockConserved(counts.high, unexcepted.high, evidence, High)
  }

  lemma ReportIsWellFormed(e: Evidence)
    requires Evaluated(e)
    ensures WellFormedReport(e.report)
  {
    hide WellFormedReport, FindingsOf, CountsOf, Sort;
  }

  lemma DecisionBlocks(e: Evidence, s: Severity)
    requires Evaluated(e) && WellFormedReport(e.report)
    ensures (if s == Critical then e.decision.counts.critical else e.decision.counts.high)
            == BlockOf(FindingsOf(ResultsOf(e.report).value), s, {})
    ensures (if s == Critical then e.decision.unexcepted.critical else e.decision.unexcepted.high)
            == BlockOf(FindingsOf(ResultsOf(e.report).value), s, ExceptedIds(e.entries))
  {
    hide WellFormedReport, FindingsOf, BlockOf, Sort, ExceptedIds;
  }

  lemma NothingExcepted()
    ensures ExceptedIds([]) == {}
  {
  }

  lemma PlacesOfReport(report: Json, kind: Json -> bool)
    requires WellFormedReport(report)
    ensures Places(report, kind) == PlacesIn(ResultsOf(report).value, kind)
  {
    hide PlacesIn, WellFormedResult;
  }

  /** What the numbers of one decision are. */
  lemma OneReported(e: Evidence, s: Severity)
    requires Evaluated(e)
    ensures var (counts, unexcepted) := if s == Critical then (e.decision.counts.critical, e.decision.unexcepted.critical)
                                        else (e.decision.counts.high, e.decision.unexcepted.high);
            && counts.total == |Places(e.report, LabelledWith(s))|
            && counts.available == |Places(e.report, ChosenBy(s, Available, []))|
            && counts.unavailable == |Places(e.report, ChosenBy(s, Unavailable, []))|
            && unexcepted.available == |Places(e.report, ChosenBy(s, Available, e.entries))|
            && unexcepted.unavailable == |Places(e.report, ChosenBy(s, Unavailable, e.entries))|
            && BlockWithin(unexcepted, counts) && BlockAddsUp(counts) && BlockAddsUp(unexcepted)
  {
    hide BlockWithin, BlockAddsUp, PlacesIn, Places, FindingsOf, CountOf, SeverityCount, WellFormedResult, ChosenBy, LabelledWith, ExceptedIds, Evaluated,
      ResultsOf;
    ReportIsWellFormed(e);
    var results := ResultsOf(e.report).value;
    var findings, excepted := FindingsOf(results), ExceptedIds(e.entries);
    DecisionBlocks(e, s);
    NothingExcepted();
    forall kind ensures Places(e.report, kind) == PlacesIn(results, kind) {
      PlacesOfReport(e.report, kind);
    }
    PlacesCounted(results, s);
    TotalIsSeverityCount(findings, s);
    ChosenCounted(results, s, Available, []);
    ChosenCounted(results, s, Unavailable, []);
    ChosenCounted(results, s, Available, e.entries);
    ChosenCounted(results, s, Unavailable, e.entries);
    BlockOfAddsUp(findings, s, {});
    BlockOfAddsUp(findings, s, excepted);
    BlockOfWithin(findings, s, excepted);
  }

  lemma BlockOfAddsUp(findings: seq<Finding>, s: Severity, excepted: set<string>)
    ensures BlockAddsUp(BlockOf(findings, s, excepted))
  {
    hide CountOf;
  }

  lemma BlockOfWithin(findings: seq<Finding>, s: Severity, excepted: set<string>)
    ensures BlockWithin(BlockOf(findings, s, excepted), BlockOf(findings, s, {}))
  {
    hide CountOf;
    ExceptingOnlyLowers(findings, s, Available, excepted);
    ExceptingOnlyLowers(findings, s, Unavailable, excepted);
  }

  /** The outcome of a decision follows from its report: nothing to review without a CRITICAL or HIGH
      vulnerability, and a review exactly when one of them is not excepted. */
  lemma OutcomeMeans(e: Evidence)
    requires Evaluated(e)
    ensures e.decision.outcome == NoFindings
            <==> |Places(e.report, LabelledWith(Critical))| + |Places(e.report, LabelledWith(High))| == 0
    ensures e.decision.outcome == RequiresReview
            <==> |Places(e.report, ChosenBy(Critical, Available, e.entries))|
                 + |Places(e.report, ChosenBy(Critical, Unavailable, e.entries))|
                 + |Places(e.report, ChosenBy(High, Available, e.entries))|
                 + |Places(e.report, ChosenBy(High, Unavailable, e.entries))| > 0
  {
    hide *;
    OutcomeOfCounts(e);
    OneReported(e, Critical);
    OneReported(e, High);
    TotalOf(e.decision.unexcepted.critical);
    TotalOf(e.decision.unexcepted.high);
  }

  lemma TotalOf(b: Block)
    ensures BlockAddsUp(b) ==> b.total == b.available + b.unavailable
  {
  }

  /** The file of a decision, entry by entry. */
  lemma DecisionFile(d: Decision)
    ensures var file := DecisionJson(d);
            && Has(file, "schemaVersion", Int(1))
            && Has(file, "subject", Obj(map["digest" := Str(d.digest), "image" := Str(d.image)]))
            && Has(file, "reportCreatedAt", Str(d.reportCreatedAt)) && Has(file, "evaluatedAt", Str(d.evaluatedAt))
            && Has(file, "counts", CountsJson(d.counts)) && Has(file, "unexceptedCounts", CountsJson(d.unexcepted))
  {
    hide CountsJson, OutcomeText, ExceptionJson;
  }

  lemma OutcomeFile(d: Decision)
    ensures var file := DecisionJson(d);
            && "decision" in file.fields
            && Has(file.fields["decision"], "mode", Str("evidence-only"))
            && Has(file.fields["decision"], "promotionGate", Bool(false))
            && Has(file.fields["decision"], "outcome", Str(
                 match d.outcome
                 case RequiresReview => "critical-high-findings-require-review"
                 case AllExcepted => "all-critical-high-findings-excepted"
                 case NoFindings => "no-critical-or-high-findings"))
            && "exceptions" in file.fields && Has(file.fields["exceptions"], "count", Int(|d.applied|))
            && Has(file.fields["exceptions"], "applied", Arr(Map(d.applied, ExceptionJson)))
  {
    hide CountsJson, ExceptionJson;
  }

  lemma OutcomeOfCounts(e: Evidence)
    requires Evaluated(e)
    ensures e.decision.outcome == NoFindings <==> e.decision.counts.critical.total + e.decision.counts.high.total == 0
    ensures e.decision.outcome == RequiresReview
            <==> e.decision.unexcepted.critical.total + e.decision.unexcepted.high.total != 0
  {
    hide FindingsOf, CountsOf, Sort, ExceptedIds, WellFormedResult;
    ReportIsWellFormed(e);
    var findings := FindingsOf(ResultsOf(e.report).value);
    NoneUnexcepted(findings, {});
    NoneUnexcepted(findings, ExceptedIds(e.entries));
    assert findings != [] ==> findings[0] in findings;
  }

  function CountsOfEvidence(e: Evidence): Counts { e.decision.counts }

  function UnexceptedOfEvidence(e: Evidence): Counts { e.decision.unexcepted }

  lemma SumOfLast(evidence: seq<Evidence>, f: Evidence -> Counts)
    requires evidence != []
    ensures SumCounts(Map(evidence, f)) ==
            AddCounts(SumCounts(Map(evidence[..|evidence| - 1], f)), f(evidence[|evidence| - 1]))
  {
    hide AddCounts;
    assert Map(evidence, f)[..|evidence| - 1] == Map(evidence[..|evidence| - 1], f);
  }

  lemma NothingConserved()
    ensures Conserved(EMPTY_COUNTS, EMPTY_COUNTS, [])
  {
    hide BlockConserved;
    NothingReported(Critical);
    NothingReported(High);
  }

  lemma NothingReported(s: Severity)
    ensures BlockConserved(Block(0, 0, 0), Block(0, 0, 0), [], s)
  {
    hide BlockReports, BlockAddsUp, BlockWithin;
    NothingInReports(s);
    NothingAddsUp();
  }

  lemma NothingInReports(s: Severity)
    ensures ReportedFindings([], s) == 0
    ensures BlockReports(Block(0, 0, 0), [], s, false) && BlockReports(Block(0, 0, 0), [], s, true)
  {
    hide Places;
  }

  lemma SumsAddUp(b: Block, c: Block)
    ensures BlockAddsUp(b) && BlockAddsUp(c) ==> BlockAddsUp(AddBlocks(b, c))
  {
  }

  lemma SumsWithin(b: Block, u: Block, c: Block, v: Block)
    ensures BlockWithin(u, b) && BlockWithin(v, c) ==> BlockWithin(AddBlocks(u, v), AddBlocks(b, c))
  {
  }

  lemma NothingAddsUp()
    ensures BlockAddsUp(Block(0, 0, 0)) && BlockWithin(Block(0, 0, 0), Block(0, 0, 0))
  {
  }

  lemma OneMoreReported(evidence: seq<Evidence>, e: Evidence, s: Severity)
    ensures ReportedFindings(evidence + [e], s) == ReportedFindings(evidence, s) + |Places(e.report, LabelledWith(s))|
  {
    hide Places, LabelledWith;
    assert (evidence + [e])[..|evidence|] == evidence;
  }

  lemma OneMoreBlock(b: Block, c: Block, evidence: seq<Evidence>, e: Evidence, s: Severity, exceptions: bool)
    requires BlockReports(b, evidence, s, exceptions)
    requires var entries := if exceptions then e.entries else [];
             && c.available == |Places(e.report, ChosenBy(s, Available, entries))|
             && c.unavailable == |Places(e.report, ChosenBy(s, Unavailable, entries))|
    ensures BlockReports(AddBlocks(b, c), evidence + [e], s, exceptions)
  {
    hide Places, ChosenBy;
    assert (evidence + [e])[..|evidence|] == evidence;
  }

  lemma OneMoreBlockConserved(b: Block, u: Block, evidence: seq<Evidence>, e: Evidence, s: Severity)
    requires BlockConserved(b, u, evidence, s) && Evaluated(e)
    ensures var (c, v) := if s == Critical then (e.decision.counts.critical, e.decision.unexcepted.critical)
                          else (e.decision.counts.high, e.decision.unexcepted.high);
            BlockConserved(AddBlocks(b, c), AddBlocks(u, v), evidence + [e], s)
  {
    hide Evaluated, Places, ChosenBy, LabelledWith, BlockReports, ReportedFindings, BlockAddsUp, BlockWithin;
    var (c, v) := if s == Critical then (e.decision.counts.critical, e.decision.unexcepted.critical)
                  else (e.decision.counts.high, e.decision.unexcepted.high);
    OneReported(e, s);
    OneMoreReported(evidence, e, s);
    SumsAddUp(b, c);
    SumsAddUp(u, v);
    SumsWithin(b, u, c, v);
    OneMoreBlock(b, c, evidence, e, s, false);
    OneMoreBlock(u, v, evidence, e, s, true);
  }

  lemma OneMoreConserved(counts: Counts, unexcepted: Counts, evidence: seq<Evidence>, e: Evidence)
    requires Conserved(counts, unexcepted, evidence) && Evaluated(e)
    ensures Conserved(AddCounts(counts, e.decision.counts), AddCounts(unexcepted, e.decision.unexcepted), evidence + [e])
  {
    hide Evaluated, BlockConserved, AddBlocks;
    OneMoreBlockConserved(counts.critical, unexcepted.critical, evidence, e, Critical);
    OneMoreBlockConserved(counts.high, unexcepted.high, evidence, e, High);
  }

  lemma SumOfNone(f: Evidence -> Counts)
    ensures SumCounts(Map([], f)) == EMPTY_COUNTS
  {
  }

  lemma {:induction false} SumsConserved(evidence: seq<Evidence>)
    requires forall e | e in evidence :: Evaluated(e)
    ensures Conserved(SumCounts(Map(evidence, CountsOfEvidence)), SumCounts(Map(evidence, UnexceptedOfEvidence)), evidence)
  {
    hide Evaluated, SumCounts, AddCounts, Map, Conserved;
    if evidence == [] {
      NothingConserved();
      SumOfNone(CountsOfEvidence);
      SumOfNone(UnexceptedOfEvidence);
    } else {
      var earlier, last := evidence[..|evidence| - 1], evidence[|evidence| - 1];
      assert last in evidence;
      assert forall e | e in earlier :: e in evidence;
      SumsConserved(earlier);
      SumOfLast(evidence, CountsOfEvidence);
      SumOfLast(evidence, UnexceptedOfEvidence);
      OneMoreConserved(
        SumCounts(Map(earlier, CountsOfEvidence)), SumCounts(Map(earlier, UnexceptedOfEvidence)), earlier, last);
      assert earlier + [last] == evidence;
    }
  }

  /** The subjects of the evidence. */
  function SubjectsOf(evidence: seq<Evidence>): set<Subject> {
    set e | e in evidence && IsPinned(e.image) :: (e.image, Digest(e.image))
  }

  lemma ReadEvidence(evidence: seq<Evidence>, iso: Clock)
    requires forall e | e in evidence :: Evaluated(e)
    requires forall d | d in Map(evidence, FileOf) :: ReadDecision(d, iso).Some?
    ensures var seen := ReadAll(Map(evidence, FileOf), iso);
            && |seen| == |evidence|
            && (forall i | 0 <= i < |evidence| :: IsPinned(evidence[i].image)
                  && seen[i].subject == (evidence[i].image, Digest(evidence[i].image))
                  && seen[i].counts == evidence[i].decision.counts
                  && seen[i].unexcepted == evidence[i].decision.unexcepted
                  && iso(evidence[i].evaluatedAt) == Some(seen[i].at))
  {
    hide ReadDecision, Decides, IsPinned, DecisionJson;
    var files := Map(evidence, FileOf);
    var seen := ReadAll(files, iso);
    forall i | 0 <= i < |evidence|
      ensures IsPinned(evidence[i].image)
      ensures seen[i].subject == (evidence[i].image, Digest(evidence[i].image))
      ensures seen[i].counts == evidence[i].decision.counts && seen[i].unexcepted == evidence[i].decision.unexcepted
      ensures iso(evidence[i].evaluatedAt) == Some(seen[i].at)
    {
      var e := evidence[i];
      assert e in evidence && files[i] in files;
      DecisionReadsBack(e.decision, e.image, e.report, e.entries, e.evaluatedAt, iso);
    }
  }

  /** End to end: when every decision file came from the evaluator and the aggregator succeeds, the
      inventory, the decisions and the SBOMs have the same subjects, every decision counts once, and the
      published numbers are those of the CRITICAL and HIGH vulnerabilities that the reports list, with
      and without a fix, in all and without the excepted ones. The published time is the latest of all. */
  lemma Conservation(s: Summary, evidence: seq<Evidence>, sboms: seq<Json>, inventory: Json, iso: Clock)
    requires forall e | e in evidence :: Evaluated(e)
    requires Summarises(s, Map(evidence, FileOf), sboms, inventory, iso)
    ensures InventoryReads(inventory, Inventory(SubjectsOf(evidence), s.coverageGaps))
    ensures SbomsRead(sboms, iso, SubjectsOf(evidence))
    ensures s.exactSubjects == s.scannedSubjects == s.sbomSubjects == |evidence|
    ensures Conserved(s.counts, s.unexceptedCounts, evidence)
    ensures forall e | e in evidence :: iso(e.evaluatedAt).Some? && iso(e.evaluatedAt).value <= s.latest
    ensures exists e :: e in evidence && iso(e.evaluatedAt) == Some(s.latest)
  {
    hide Evaluated, SbomsRead, InventoryReads, SumCounts, ReadDecision, FileOf, IsPinned, Conserved, Map,
      DistinctSubjects, CountsIn, UnexceptedIn, SubjectsIn, SubjectsOf, Latest;
    SumsConserved(evidence);
    SameCounts(evidence, iso);
    SameSubjects(evidence, iso);
    LatestOfAll(s.latest, evidence, iso);
    DistinctCount(ReadAll(Map(evidence, FileOf), iso));
  }

  lemma LatestOfAll(latest: int, evidence: seq<Evidence>, iso: Clock)
    requires forall e | e in evidence :: Evaluated(e)
    requires forall d | d in Map(evidence, FileOf) :: ReadDecision(d, iso).Some?
    requires Latest(latest, ReadAll(Map(evidence, FileOf), iso))
    ensures forall e | e in evidence :: iso(e.evaluatedAt).Some? && iso(e.evaluatedAt).value <= latest
    ensures exists e :: e in evidence && iso(e.evaluatedAt) == Some(latest)
  {
    hide Evaluated, ReadDecision, FileOf, IsPinned, Digest, ReadAll;
    var seen := ReadAll(Map(evidence, FileOf), iso);
    ReadEvidence(evidence, iso);
    forall e | e in evidence ensures iso(e.evaluatedAt).Some? && iso(e.evaluatedAt).value <= latest {
      var i :| 0 <= i < |evidence| && evidence[i] == e;
      assert seen[i] in seen;
    }
    var x :| x in seen && x.at == latest;
    var i :| 0 <= i < |seen| && seen[i] == x;
    assert evidence[i] in evidence;
  }

  lemma SameCounts(evidence: seq<Evidence>, iso: Clock)
    requires forall e | e in evidence :: Evaluated(e)
    requires forall d | d in Map(evidence, FileOf) :: ReadDecision(d, iso).Some?
    ensures CountsIn(ReadAll(Map(evidence, FileOf), iso)) == Map(evidence, CountsOfEvidence)
    ensures UnexceptedIn(ReadAll(Map(evidence, FileOf), iso)) == Map(evidence, UnexceptedOfEvidence)
  {
    hide Evaluated, ReadDecision, FileOf, IsPinned, Digest;
    ReadEvidence(evidence, iso);
  }

  lemma SameSubjects(evidence: seq<Evidence>, iso: Clock)
    requires forall e | e in evidence :: Evaluated(e)
    requires forall d | d in Map(evidence, FileOf) :: ReadDecision(d, iso).Some?
    ensures SubjectsIn(ReadAll(Map(evidence, FileOf), iso)) == SubjectsOf(evidence)
  {
    hide Evaluated, ReadDecision, FileOf, IsPinned, Digest;
    var seen := ReadAll(Map(evidence, FileOf), iso);
    ReadEvidence(evidence, iso);
    forall x ensures x in SubjectsIn(seen) <==> x in SubjectsOf(evidence) {
      if x in SubjectsIn(seen) {
        var i :| 0 <= i < |seen| && seen[i].subject == x;
        assert evidence[i] in evidence;
      }
      if x in SubjectsOf(evidence) {
        var e :| e in evidence && IsPinned(e.image) && (e.image, Digest(e.image)) == x;
        var i :| 0 <= i < |evidence| && evidence[i] == e;
        assert seen[i] in seen;
      }
    }
  }

  lemma {:induction false} DistinctCount(seen: seq<Seen>)
    requires DistinctSubjects(seen)
    ensures |SubjectsIn(seen)| == |seen|
  {
    if seen == [] {
    } else {
      var earlier, last := seen[..|seen| - 1], seen[|seen| - 1];
      DistinctCount(earlier);
      assert seen == earlier + [last];
      assert SubjectsIn(seen) == SubjectsIn(earlier) + {last.subject};
    }
  }
}
