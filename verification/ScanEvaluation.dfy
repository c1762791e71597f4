/** tools/evaluate_image_scan.py: from one vulnerability report to one evidence-only decision. */
module ScanEvaluation {
  import opened Images
  import opened Json
  import opened Ordering
  import opened Text

  datatype Severity = Critical | High

  datatype Availability = Available | Unavailable

  datatype Finding = Finding(id: string, severity: Severity, availability: Availability, target: string)

  // ---- the findings of a report ------------------------------------------------------------

  predicate IdChar(c: char) {
    IsAlphanumeric(c) || c in "._:+-"
  }

  predicate VulnerabilityId(s: string) {
    1 <= |s| <= 128 && IsAlphanumeric(s[0]) && forall c | c in s :: IdChar(c)
  }

  function SeverityOf(vulnerability: Json): Option<Severity>
    requires vulnerability.Obj?
  {
    var severity := Field(vulnerability, "Severity");
    if severity == Str("CRITICAL") then Some(Critical)
    else if severity == Str("HIGH") then Some(High)
    else None
  }

  /** Not counted, or counted with a valid id and a fixed version that is a string or missing. */
  predicate WellFormed(vulnerability: Json) {
    && vulnerability.Obj?
    && (SeverityOf(vulnerability).Some? ==>
          && Field(vulnerability, "VulnerabilityID").Str?
          && VulnerabilityId(Field(vulnerability, "VulnerabilityID").text)
          && (Field(vulnerability, "FixedVersion").Str? || Field(vulnerability, "FixedVersion").Null?))
  }

  function FindingOf(vulnerability: Json, target: string): Finding
    requires WellFormed(vulnerability) && SeverityOf(vulnerability).Some?
  {
    var fixed := Field(vulnerability, "FixedVersion");
    Finding(
      Field(vulnerability, "VulnerabilityID").text,
      SeverityOf(vulnerability).value,
      if fixed.Str? && Strip(fixed.text) != "" then Available else Unavailable,
      target)
  }

  /** What was scanned for a result, "" when it is not a string. */
  function TargetOf(result: Json): string
    requires result.Obj?
  {
    var target := Field(result, "Target");
    if target.Str? then target.text else ""
  }

  /** A missing or null list of vulnerabilities is an empty one. */
  function Vulnerabilities(result: Json): Option<seq<Json>>
    requires result.Obj?
  {
    var value := Field(result, "Vulnerabilities");
    if value.Null? then Some([])
    else if value.Arr? then Some(value.items)
    else None
  }

  predicate WellFormedResult(result: Json) {
    && result.Obj?
    && Vulnerabilities(result).Some?
    && forall v | v in Vulnerabilities(result).value :: WellFormed(v)
  }

  /** The counted vulnerabilities of one result, in order. */
  function Counted(vulnerabilities: seq<Json>, target: string): seq<Finding>
    requires forall v | v in vulnerabilities :: WellFormed(v)
  {
    if vulnerabilities == [] then []
    else
      var last := vulnerabilities[|vulnerabilities| - 1];
      assert last in vulnerabilities && WellFormed(last);
      Counted(vulnerabilities[..|vulnerabilities| - 1], target)
      + if SeverityOf(last).Some? then [FindingOf(last, target)] else []
  }

  function FindingsOf(results: seq<Json>): seq<Finding>
    requires forall r | r in results :: WellFormedResult(r)
  {
    if results == [] then []
    else
      var last := results[|results| - 1];
      assert last in results && WellFormedResult(last);
      FindingsOf(results[..|results| - 1]) + Counted(Vulnerabilities(last).value, TargetOf(last))
  }

  /** `report.get("Results", [])`: a report without the entry has no results; null is refused. */
  function ResultsOf(report: Json): Option<seq<Json>>
    requires report.Obj?
  {
    if "Results" !in report.fields then Some([])
    else if report.fields["Results"].Arr? then Some(report.fields["Results"].items)
    else None
  }

  predicate WellFormedReport(report: Json) {
    && report.Obj?
    && ResultsOf(report).Some?
    && forall r | r in ResultsOf(report).value :: WellFormedResult(r)
  }

  datatype EvaluationError =
    | ResultsNotArray | ResultNotObject | VulnerabilitiesNotArray | VulnerabilityNotObject | BadVulnerabilityId
    | BadFixedVersion | ImageNotPinned | SubjectMismatch | ReportMismatch | BadTimestamp | EvaluatedTooEarly
    | BadException | ExceptionForOtherDigest | ExceptionExpired | DuplicateException | UnusedException

  method CountVulnerabilities(vulnerabilities: seq<Json>, target: string) returns (r: Result<seq<Finding>, EvaluationError>)
    ensures r.Ok? <==> forall v | v in vulnerabilities :: WellFormed(v)
    ensures r.Ok? ==> r.value == Counted(vulnerabilities, target)
  {
    var findings: seq<Finding> := [];
    for i := 0 to |vulnerabilities|
      invariant forall v | v in vulnerabilities[..i] :: WellFormed(v)
      invariant findings == Counted(vulnerabilities[..i], target)
    {
      var v := vulnerabilities[i];
      assert v in vulnerabilities;
      assert vulnerabilities[..i + 1] == vulnerabilities[..i] + [v];
      assert vulnerabilities[..i + 1][..i] == vulnerabilities[..i];
      if !v.Obj? { return Err(VulnerabilityNotObject); }
      if SeverityOf(v).Some? {
        var id, fixed := Field(v, "VulnerabilityID"), Field(v, "FixedVersion");
        if !id.Str? || !VulnerabilityId(id.text) { return Err(BadVulnerabilityId); }
        if !fixed.Str? && !fixed.Null? { return Err(BadFixedVersion); }
        var availability := if fixed.Str? && Strip(fixed.text) != "" then Available else Unavailable;
        findings := findings + [Finding(id.text, SeverityOf(v).value, availability, target)];
      }
    }
    assert vulnerabilities[..|vulnerabilities|] == vulnerabilities;
    return Ok(findings);
  }

  method HighCriticalFindings(report: Json) returns (r: Result<seq<Finding>, EvaluationError>)
    requires report.Obj?
    ensures r.Ok? <==> WellFormedReport(report)
    ensures r.Ok? ==> r.value == FindingsOf(ResultsOf(report).value)
  {
    hide WellFormed, Counted;
    if ResultsOf(report).None? { return Err(ResultsNotArray); }
    var results := ResultsOf(report).value;
    var findings: seq<Finding> := [];
    for i := 0 to |results|
      invariant forall x | x in results[..i] :: WellFormedResult(x)
      invariant findings == FindingsOf(results[..i])
    {
      var result := results[i];
      assert result in results;
      assert results[..i + 1] == results[..i] + [result];
      assert results[..i + 1][..i] == results[..i];
      if !result.Obj? { return Err(ResultNotObject); }
      if Vulnerabilities(result).None? { return Err(VulnerabilitiesNotArray); }
      var more := CountVulnerabilities(Vulnerabilities(result).value, TargetOf(result));
      if more.Err? { return Err(more.error); }
      findings := findings + more.value;
    }
    assert results[..|results|] == results;
    return Ok(findings);
  }

  // ---- counting ----------------------------------------------------------------------------

  datatype Block = Block(available: int, total: int, unavailable: int)

  datatype Counts = Counts(critical: Block, high: Block)

  const EMPTY_COUNTS := Counts(Block(0, 0, 0), Block(0, 0, 0))

  /** How many findings have this severity and availability and are not excepted. */
  function CountOf(findings: seq<Finding>, s: Severity, a: Availability, excepted: set<string>): nat {
    if findings == [] then 0
    else
      var last := findings[|findings| - 1];
      CountOf(findings[..|findings| - 1], s, a, excepted)
      + if last.severity == s && last.availability == a && last.id !in excepted then 1 else 0
  }

  function BlockOf(findings: seq<Finding>, s: Severity, excepted: set<string>): Block {
    var available, unavailable := CountOf(findings, s, Available, excepted), CountOf(findings, s, Unavailable, excepted);
    Block(available, available + unavailable, unavailable)
  }

  function CountsOf(findings: seq<Finding>, excepted: set<string>): Counts {
    Counts(BlockOf(findings, Critical, excepted), BlockOf(findings, High, excepted))
  }

  /** The number of findings of a severity, whatever their availability. */
  function SeverityCount(findings: seq<Finding>, s: Severity): nat {
    if findings == [] then 0
    else SeverityCount(findings[..|findings| - 1], s) + if findings[|findings| - 1].severity == s then 1 else 0
  }

  lemma {:induction false} TotalIsSeverityCount(findings: seq<Finding>, s: Severity)
    ensures BlockOf(findings, s, {}).total == SeverityCount(findings, s)
  {
    if findings == [] {
    } else {
      TotalIsSeverityCount(findings[..|findings| - 1], s);
    }
  }

  lemma {:induction false} ExceptingOnlyLowers(findings: seq<Finding>, s: Severity, a: Availability, excepted: set<string>)
    ensures CountOf(findings, s, a, excepted) <= CountOf(findings, s, a, {})
  {
    if findings == [] {
    } else {
      ExceptingOnlyLowers(findings[..|findings| - 1], s, a, excepted);
    }
  }

  lemma {:induction false} NoneUnexcepted(findings: seq<Finding>, excepted: set<string>)
    ensures CountsOf(findings, excepted).critical.total + CountsOf(findings, excepted).high.total == 0
            <==> forall f | f in findings :: f.id in excepted
  {
    if findings == [] {
    } else {
      var earlier, last := findings[..|findings| - 1], findings[|findings| - 1];
      NoneUnexcepted(earlier, excepted);
      assert findings == earlier + [last];
      assert last.severity == Critical || last.severity == High;
    }
  }

  function AddTo(block: Block, a: Availability): Block {
    if a == Available then block.(available := block.available + 1, total := block.total + 1)
    else block.(unavailable := block.unavailable + 1, total := block.total + 1)
  }

  method Tally(findings: seq<Finding>, excepted: set<string>) returns (counts: Counts, unexcepted: Counts)
    ensures counts == CountsOf(findings, {}) && unexcepted == CountsOf(findings, excepted)
  {
    counts, unexcepted := EMPTY_COUNTS, EMPTY_COUNTS;
    for i := 0 to |findings|
      invariant counts == CountsOf(findings[..i], {}) && unexcepted == CountsOf(findings[..i], excepted)
    {
      var f := findings[i];
      assert findings[..i + 1][..i] == findings[..i];
      if f.severity == Critical {
        counts := counts.(critical := AddTo(counts.critical, f.availability));
        if f.id !in excepted {
          unexcepted := unexcepted.(critical := AddTo(unexcepted.critical, f.availability));
        }
      } else {
        counts := counts.(high := AddTo(counts.high, f.availability));
        if f.id !in excepted {
          unexcepted := unexcepted.(high := AddTo(unexcepted.high, f.availability));
        }
      }
    }
    assert findings[..|findings|] == findings;
  }

  // ---- exceptions --------------------------------------------------------------------------

  /** Timestamps are texts; how they are read is not modelled. */
  type Clock = string -> Option<int>

  datatype Exception = Exception(
    imageDigest: string, vulnerabilityId: string, rationale: string, owner: string, expiresAt: string)

  const EXCEPTION_FIELDS: set<string> := {"imageDigest", "vulnerabilityId", "rationale", "owner", "expiresAt"}

  /** An entry has exactly the five fields, and all are strings. */
  function ReadException(entry: Json): Option<Exception> {
    if !entry.Obj? || entry.fields.Keys != EXCEPTION_FIELDS || exists f | f in EXCEPTION_FIELDS :: !entry.fields[f].Str? then None
    else Some(Exception(
      entry.fields["imageDigest"].text, entry.fields["vulnerabilityId"].text, entry.fields["rationale"].text,
      entry.fields["owner"].text, entry.fields["expiresAt"].text))
  }

  function ReadEntries(items: seq<Json>): Option<seq<Exception>> {
    if items == [] then Some([])
    else
      var before, last := ReadEntries(items[..|items| - 1]), ReadException(items[|items| - 1]);
      if before.None? || last.None? then None else Some(before.value + [last.value])
  }

  /** The entries of an exception document; a missing document has none. */
  function EntriesOf(document: Option<Json>): Option<seq<Exception>> {
    if document.None? then Some([])
    else
      var d := document.value;
      if !d.Obj? || d.fields.Keys != {"schemaVersion", "exceptions"} then None
      else if !EqualsOne(d.fields["schemaVersion"]) || !d.fields["exceptions"].Arr? then None
      else ReadEntries(d.fields["exceptions"].items)
  }

  predicate OwnerShaped(owner: string) {
    var handle := if owner != "" && owner[0] == '@' then owner[1..] else owner;
    1 <= |handle| <= 39 && IsAlphanumeric(handle[0]) && forall c | c in handle :: IsAlphanumeric(c) || c == '-'
  }

  /** The vulnerabilities that these entries except. */
  function ExceptedIds(entries: seq<Exception>): set<string> {
    set e | e in entries :: e.vulnerabilityId
  }

  /** The order in which applied exceptions are recorded. */
  predicate ByVulnerability(e: Exception, f: Exception) {
    TextLe(e.vulnerabilityId, f.vulnerabilityId)
  }

  /** The recorded exceptions are the given ones, in order. */
  lemma ExceptionsInOrder(entries: seq<Exception>)
    ensures multiset(Sort(entries, ByVulnerability)) == multiset(entries)
    ensures Sorted(Sort(entries, ByVulnerability), ByVulnerability)
    ensures |Sort(entries, ByVulnerability)| == |entries|
    ensures ExceptedIds(Sort(entries, ByVulnerability)) == ExceptedIds(entries)
    ensures var applied := Sort(entries, ByVulnerability);
            forall i, j | 0 <= i < j < |applied| :: TextLe(applied[i].vulnerabilityId, applied[j].vulnerabilityId)
  {
    TextOrder();
    hide TextLe;
    SortSorts(entries, ByVulnerability);
    SameMembers(entries, Sort(entries, ByVulnerability));
    SortedIff(Sort(entries, ByVulnerability), ByVulnerability);
    hide Sort, Sorted;
  }

  predicate ExceptionHolds(e: Exception, digest: string, observed: set<string>, now: int, utc: Clock) {
    && e.imageDigest == digest
    && VulnerabilityId(e.vulnerabilityId)
    && |Strip(e.rationale)| >= 20
    && OwnerShaped(e.owner)
    && utc(e.expiresAt).Some? && utc(e.expiresAt).value > now
    && e.vulnerabilityId in observed
  }

  ghost predicate ExceptionsHold(entries: seq<Exception>, digest: string, observed: set<string>, now: int, utc: Clock) {
    && (forall i | 0 <= i < |entries| :: ExceptionHolds(entries[i], digest, observed, now, utc))
    && (forall i, j | 0 <= i < j < |entries| :: entries[i].vulnerabilityId != entries[j].vulnerabilityId)
  }

  lemma NoExceptions(digest: string, observed: set<string>, now: int, utc: Clock)
    ensures ExceptionsHold([], digest, observed, now, utc) && ExceptedIds([]) == {}
  {
  }

  /** The next exception is acceptable by itself and not a repetition, or none of the list holds. */
  lemma OneMoreException(entries: seq<Exception>, i: nat, seen: set<string>, digest: string, observed: set<string>, now: int, utc: Clock)
    requires i < |entries| && ExceptionsHold(entries[..i], digest, observed, now, utc)
    requires seen == ExceptedIds(entries[..i])
    ensures var fits := ExceptionHolds(entries[i], digest, observed, now, utc) && entries[i].vulnerabilityId !in seen;
            if fits then ExceptionsHold(entries[..i + 1], digest, observed, now, utc)
                         && ExceptedIds(entries[..i + 1]) == seen + {entries[i].vulnerabilityId}
            else !ExceptionsHold(entries, digest, observed, now, utc)
  {
  }

  method AcceptEntries(entries: seq<Exception>, digest: string, observed: set<string>, now: int, utc: Clock)
    returns (r: Result<seq<Exception>, EvaluationError>)
    ensures r.Ok? <==> ExceptionsHold(entries, digest, observed, now, utc)
    ensures r.Ok? ==> r.value == Sort(entries, ByVulnerability)
    ensures r.Ok? ==> ExceptedIds(entries) <= observed && |ExceptedIds(entries)| == |entries|
  {
    hide VulnerabilityId, OwnerShaped, Strip, ExceptionsHold, ExceptedIds;
    var seen: set<string> := {};
    NoExceptions(digest, observed, now, utc);
    for i := 0 to |entries|
      invariant ExceptionsHold(entries[..i], digest, observed, now, utc)
      invariant seen == ExceptedIds(entries[..i])
      invariant seen <= observed && |seen| == i
    {
      var e := entries[i];
      assert entries[..i + 1] == entries[..i] + [e] && entries[..0] == [];
      OneMoreException(entries, i, seen, digest, observed, now, utc);
      if e.imageDigest != digest { return Err(ExceptionForOtherDigest); }
      if !VulnerabilityId(e.vulnerabilityId) || |Strip(e.rationale)| < 20 || !OwnerShaped(e.owner) || utc(e.expiresAt).None? {
        return Err(BadException);
      }
      if utc(e.expiresAt).value <= now { return Err(ExceptionExpired); }
      if e.vulnerabilityId in seen { return Err(DuplicateException); }
      if e.vulnerabilityId !in observed { return Err(UnusedException); }
      seen := seen + {e.vulnerabilityId};
    }
    assert entries[..|entries|] == entries;
    return Ok(Sort(entries, ByVulnerability));
  }

  /** No document stands for no exceptions; one that is there must have exactly the right shape, and every
      entry must hold. */
  method LoadExceptions(document: Option<Json>, digest: string, observed: set<string>, now: int, utc: Clock)
    returns (r: Result<seq<Exception>, EvaluationError>)
    ensures r.Ok? <==>
            EntriesOf(document).Some? && ExceptionsHold(EntriesOf(document).value, digest, observed, now, utc)
    ensures r.Ok? ==>
      var entries := EntriesOf(document).value;
      && r.value == Sort(entries, ByVulnerability)
      && ExceptedIds(entries) <= observed && |ExceptedIds(entries)| == |entries|
  {
    hide EntriesOf, ExceptionsHold, ExceptedIds, Sort;
    var entries := EntriesOf(document);
    if entries.None? { return Err(BadException); }
    r := AcceptEntries(entries.value, digest, observed, now, utc);
  }

  // ---- the decision ------------------------------------------------------------------------

  /** What the scan-evidence verifier recorded about the scanned image. */
  datatype ScanSubject = ScanSubject(schemaVersion: int, image: string, digest: string, reportCreatedAt: string)

  datatype Outcome = NoFindings | AllExcepted | RequiresReview

  datatype Decision = Decision(
    image: string, digest: string, reportCreatedAt: string, evaluatedAt: string,
    counts: Counts, unexcepted: Counts, applied: seq<Exception>, outcome: Outcome)

  /** `image.rpartition("@")`: a non-empty name, and after the last @ an exact digest. */
  predicate ExactlyPinned(image: string) {
    |image| > 72 && image[|image| - 72..|image| - 64] == DIGEST_MARK && IsHex(image[|image| - 64..])
  }

  function ExactDigest(image: string): string
    requires ExactlyPinned(image)
  {
    image[|image| - 71..]
  }

  predicate SubjectVerified(image: string, report: Json, subject: ScanSubject)
    requires report.Obj?
  {
    && ExactlyPinned(image)
    && subject.schemaVersion == 1 && subject.image == image && subject.digest == ExactDigest(image)
    && Field(report, "ArtifactType") == Str("container_image")
    && Field(report, "ArtifactName") == Str(image)
    && Field(report, "CreatedAt") == Str(subject.reportCreatedAt)
  }

  /** `trivy` reads report times to the second, `utc` evaluation times. */
  datatype Clocks = Clocks(trivy: Clock, utc: Clock)

  ghost predicate Decidable(
    image: string, report: Json, subject: ScanSubject, exceptions: Option<Json>, evaluatedAt: string, clocks: Clocks)
  {
    && report.Obj?
    && SubjectVerified(image, report, subject)
    && clocks.trivy(subject.reportCreatedAt).Some? && clocks.utc(evaluatedAt).Some?
    && clocks.trivy(subject.reportCreatedAt).value <= clocks.utc(evaluatedAt).value
    && WellFormedReport(report)
    && EntriesOf(exceptions).Some?
    && ExceptionsHold(EntriesOf(exceptions).value, ExactDigest(image), ObservedIds(FindingsOf(ResultsOf(report).value)),
                      clocks.utc(evaluatedAt).value, clocks.utc)
  }

  function ObservedIds(findings: seq<Finding>): set<string> {
    set f | f in findings :: f.id
  }

  /** The decision about a report: its findings counted by severity and availability, once in full
      and once without the excepted ones. */
  ghost predicate Decides(d: Decision, image: string, report: Json, entries: seq<Exception>, evaluatedAt: string) {
    && WellFormedReport(report) && ExactlyPinned(image)
    && var findings := FindingsOf(ResultsOf(report).value);
       var excepted := ExceptedIds(entries);
       && d.image == image && d.digest == ExactDigest(image)
       && Field(report, "CreatedAt") == Str(d.reportCreatedAt) && d.evaluatedAt == evaluatedAt
       && d.counts == CountsOf(findings, {})
       && d.unexcepted == CountsOf(findings, excepted)
       && d.applied == Sort(entries, ByVulnerability)
       && d.outcome == (if findings == [] then NoFindings
                        else if forall f | f in findings :: f.id in excepted then AllExcepted
                        else RequiresReview)
  }

  method Evaluate(image: string, report: Json, subject: ScanSubject, exceptions: Option<Json>, evaluatedAt: string, clocks: Clocks)
    returns (r: Result<Decision, EvaluationError>)
    requires report.Obj?
    ensures r.Ok? <==> Decidable(image, report, subject, exceptions, evaluatedAt, clocks)
    ensures r.Ok? ==> Decides(r.value, image, report, EntriesOf(exceptions).value, evaluatedAt)
  {
    hide WellFormedResult, FindingsOf, ExceptionHolds, CountsOf, IsHex, Sort, Sorted, ByVulnerability, ExceptedIds, EntriesOf;
    if !ExactlyPinned(image) { return Err(ImageNotPinned); }
    if subject.schemaVersion != 1 || subject.image != image || subject.digest != ExactDigest(image) {
      return Err(SubjectMismatch);
    }
    if Field(report, "ArtifactType") != Str("container_image") || Field(report, "ArtifactName") != Str(image)
       || Field(report, "CreatedAt") != Str(subject.reportCreatedAt) {
      return Err(ReportMismatch);
    }
    var reportTime, evaluationTime := clocks.trivy(subject.reportCreatedAt), clocks.utc(evaluatedAt);
    if reportTime.None? || evaluationTime.None? { return Err(BadTimestamp); }
    if evaluationTime.value < reportTime.value { return Err(EvaluatedTooEarly); }
    var found := HighCriticalFindings(report);
    if found.Err? { return Err(found.error); }
    var findings := found.value;
    var observed := set f | f in findings :: f.id;
    var loaded := LoadExceptions(exceptions, ExactDigest(image), observed, evaluationTime.value, clocks.utc);
    if loaded.Err? { return Err(loaded.error); }
    var applied := loaded.value;
    ExceptionsInOrder(EntriesOf(exceptions).value);
    var excepted := ExceptedIds(applied);
    var counts, unexcepted := Tally(findings, excepted);
    NoneUnexcepted(findings, excepted);
    var outcome :=
      if findings == [] then NoFindings
      else if unexcepted.critical.total + unexcepted.high.total == 0 then AllExcepted
      else RequiresReview;
    return Ok(Decision(image, ExactDigest(image), subject.reportCreatedAt, evaluatedAt, counts, unexcepted, applied, outcome));
  }

  // ---- what is accepted, in the entries of the documents -----------------------------------

  /** The object has this value under the name. */
  predicate Has(value: Json, name: string, entry: Json) {
    value.Obj? && name in value.fields && value.fields[name] == entry
  }

  predicate IsIdText(id: string) {
    && 1 <= |id| <= 128 && id[0] !in "._:+-"
    && forall c | c in id :: 'a' <= c <= 'z' || 'A' <= c <= 'Z' || '0' <= c <= '9' || c in "._:+-"
  }

  lemma IdIff(id: string)
    ensures VulnerabilityId(id) <==> IsIdText(id)
  {
    if id != "" {
      assert id[0] in id;
      assert forall c :: IsAlphanumeric(c) ==> c !in "._:+-";
    }
  }

  /** An owner is a handle of at most 39 letters, digits and hyphens that does not begin with a hyphen,
      with or without an @ in front. */
  predicate IsHandle(handle: string) {
    && 1 <= |handle| <= 39 && handle[0] != '-'
    && forall c | c in handle :: 'a' <= c <= 'z' || 'A' <= c <= 'Z' || '0' <= c <= '9' || c == '-'
  }

  lemma OwnerIff(owner: string)
    ensures OwnerShaped(owner) <==> IsHandle(owner) || exists handle :: owner == "@" + handle && IsHandle(handle)
  {
    if owner != "" && owner[0] == '@' {
      HandleIff(owner[1..]);
      assert owner == "@" + owner[1..];
      assert owner[0] in owner;
      forall handle | owner == "@" + handle ensures handle == owner[1..] {
      }
    } else {
      HandleIff(owner);
    }
  }

  lemma HandleIff(handle: string)
    ensures IsHandle(handle)
            <==> 1 <= |handle| <= 39 && IsAlphanumeric(handle[0]) && forall c | c in handle :: IsAlphanumeric(c) || c == '-'
  {
    assert handle != "" ==> handle[0] in handle;
  }

  /** An entry of an exception document. */
  lemma EntryIff(entry: Json, e: Exception)
    ensures ReadException(entry) == Some(e)
            <==> && entry.Obj? && |entry.fields| == 5
                 && Has(entry, "imageDigest", Str(e.imageDigest)) && Has(entry, "vulnerabilityId", Str(e.vulnerabilityId))
                 && Has(entry, "rationale", Str(e.rationale)) && Has(entry, "owner", Str(e.owner))
                 && Has(entry, "expiresAt", Str(e.expiresAt))
  {
    FiveNames();
    if entry.Obj? {
      assert |entry.fields| == |entry.fields.Keys|;
      if EXCEPTION_FIELDS <= entry.fields.Keys && |entry.fields| == 5 {
        SameSize(EXCEPTION_FIELDS, entry.fields.Keys);
      }
    }
  }

  lemma FiveNames()
    ensures |EXCEPTION_FIELDS| == 5
  {
    assert "imageDigest"[0] == 'i' && "vulnerabilityId"[0] == 'v' && "rationale"[0] == 'r' && "owner"[0] == 'o' && "expiresAt"[0] == 'e';
  }

  lemma {:induction false} SameSize<T>(a: set<T>, b: set<T>)
    requires a <= b && |a| == |b|
    ensures a == b
  {
    if x :| x in b && x !in a {
      var rest := b - {x};
      assert a <= rest && |rest| < |b|;
      NoLarger(a, rest);
    }
  }

  lemma {:induction false} NoLarger<T>(a: set<T>, b: set<T>)
    requires a <= b
    ensures |a| <= |b|
  {
    if a == {} {
    } else {
      var x :| x in a;
      NoLarger(a - {x}, b - {x});
    }
  }

  /** No document has no entries; any other has just a version that equals one and the list of its entries. */
  lemma EntriesIff(document: Option<Json>)
    ensures EntriesOf(document).Some?
            <==> || document == None
                 || (&& document.value.Obj? && document.value.fields.Keys == {"exceptions", "schemaVersion"}
                     && document.value.fields["schemaVersion"] in [Int(1), Bool(true)]
                     && document.value.fields["exceptions"].Arr?
                     && forall entry | entry in document.value.fields["exceptions"].items :: ReadException(entry).Some?)
    ensures EntriesOf(document).Some? ==>
      && |EntriesOf(document).value| == (if document == None then 0 else |document.value.fields["exceptions"].items|)
      && forall i | 0 <= i < |EntriesOf(document).value| ::
           ReadException(document.value.fields["exceptions"].items[i]) == Some(EntriesOf(document).value[i])
  {
    hide ReadException;
    if document.Some? && document.value.Obj? && "exceptions" in document.value.fields && document.value.fields["exceptions"].Arr? {
      EntriesRead(document.value.fields["exceptions"].items);
    }
  }

  lemma {:induction false} EntriesRead(items: seq<Json>)
    ensures ReadEntries(items).Some? <==> forall entry | entry in items :: ReadException(entry).Some?
    ensures ReadEntries(items).Some? ==>
      && |ReadEntries(items).value| == |items|
      && forall i | 0 <= i < |items| :: ReadException(items[i]) == Some(ReadEntries(items).value[i])
  {
    hide ReadException;
    if items == [] {
    } else {
      var before, last := items[..|items| - 1], items[|items| - 1];
      EntriesRead(before);
      assert items == before + [last];
      if ReadEntries(items).Some? {
        forall i | 0 <= i < |items| ensures ReadException(items[i]) == Some(ReadEntries(items).value[i]) {
          assert i < |items| - 1 ==> items[i] == before[i];
        }
      }
    }
  }

  /** What an exception must be: for this digest, well-formed, explained in twenty characters or more, owned,
      not expired at the time of the evaluation, and about something that was found. */
  lemma HoldsIff(e: Exception, digest: string, observed: set<string>, now: int, utc: Clock)
    ensures ExceptionHolds(e, digest, observed, now, utc)
            <==> && e.imageDigest == digest && IsIdText(e.vulnerabilityId) && !(|Strip(e.rationale)| < 20)
                 && (IsHandle(e.owner) || exists handle :: e.owner == "@" + handle && IsHandle(handle))
                 && (exists until :: utc(e.expiresAt) == Some(until) && now < until) && e.vulnerabilityId in observed
  {
    hide Strip, IsHandle, IsIdText, VulnerabilityId, OwnerShaped;
    IdIff(e.vulnerabilityId);
    OwnerIff(e.owner);
  }

  /** A vulnerability is counted when its severity is one of two texts. */
  predicate IsCounted(vulnerability: Json) {
    Has(vulnerability, "Severity", Str("CRITICAL")) || Has(vulnerability, "Severity", Str("HIGH"))
  }

  predicate IsReadable(vulnerability: Json) {
    && vulnerability.Obj?
    && (IsCounted(vulnerability) ==>
          && "VulnerabilityID" in vulnerability.fields && vulnerability.fields["VulnerabilityID"].Str?
          && IsIdText(vulnerability.fields["VulnerabilityID"].text)
          && ("FixedVersion" in vulnerability.fields ==>
                vulnerability.fields["FixedVersion"].Str? || vulnerability.fields["FixedVersion"] == Null))
  }

  lemma ReadableIff(vulnerability: Json)
    ensures WellFormed(vulnerability) <==> IsReadable(vulnerability)
  {
    hide VulnerabilityId, IsIdText;
    if vulnerability.Obj? && Field(vulnerability, "VulnerabilityID").Str? {
      IdIff(Field(vulnerability, "VulnerabilityID").text);
    }
    if vulnerability.Obj? {
      SeverityIff(vulnerability);
    }
  }

  lemma SeverityIff(vulnerability: Json)
    requires vulnerability.Obj?
    ensures SeverityOf(vulnerability) == Some(Critical) <==> Has(vulnerability, "Severity", Str("CRITICAL"))
    ensures SeverityOf(vulnerability) == Some(High) <==> Has(vulnerability, "Severity", Str("HIGH"))
  {
    assert "CRITICAL"[0] == 'C' && "HIGH"[0] == 'H';
  }

  predicate IsReadableResult(result: Json) {
    && result.Obj?
    && ("Vulnerabilities" in result.fields && result.fields["Vulnerabilities"] != Null ==>
          && result.fields["Vulnerabilities"].Arr?
          && forall v | v in result.fields["Vulnerabilities"].items :: IsReadable(v))
  }

  lemma ResultIff(result: Json)
    ensures WellFormedResult(result) <==> IsReadableResult(result)
  {
    hide WellFormed, IsReadable;
    forall v ensures WellFormed(v) <==> IsReadable(v) {
      ReadableIff(v);
    }
  }

  lemma ReportIff(report: Json)
    ensures WellFormedReport(report)
            <==> && report.Obj?
                 && ("Results" in report.fields ==>
                       && report.fields["Results"].Arr?
                       && forall result | result in report.fields["Results"].items :: IsReadableResult(result))
  {
    hide WellFormedResult, IsReadableResult;
    forall result ensures WellFormedResult(result) <==> IsReadableResult(result) {
      ResultIff(result);
    }
  }

  /** The image by its digest, and a report and a record of the scan that both name it and the same time. */
  predicate IsVerified(image: string, name: string, hex: string, report: Json, subject: ScanSubject) {
    && image == name + "@sha256:" + hex && name != "" && IsDigestText(hex)
    && subject == ScanSubject(1, image, "sha256:" + hex, subject.reportCreatedAt)
    && Has(report, "ArtifactType", Str("container_image")) && Has(report, "ArtifactName", Str(image))
    && Has(report, "CreatedAt", Str(subject.reportCreatedAt))
  }

  /** Both times can be read, and the evaluation is not the earlier one. */
  predicate IsInTime(created: string, evaluatedAt: string, clocks: Clocks) {
    && clocks.trivy(created).Some? && clocks.utc(evaluatedAt).Some?
    && !(clocks.utc(evaluatedAt).value < clocks.trivy(created).value)
  }

  /** A decision is made exactly for a verified report of this image that is not later than the evaluation, when
      the report can be read and all exceptions hold. */
  lemma DecidableIff(
    image: string, report: Json, subject: ScanSubject, exceptions: Option<Json>, evaluatedAt: string, clocks: Clocks)
    ensures Decidable(image, report, subject, exceptions, evaluatedAt, clocks)
            <==> exists name, hex ::
                   && IsVerified(image, name, hex, report, subject) && IsInTime(subject.reportCreatedAt, evaluatedAt, clocks)
                   && WellFormedReport(report) && EntriesOf(exceptions).Some?
                   && ExceptionsHold(EntriesOf(exceptions).value, "sha256:" + hex,
                                     ObservedIds(FindingsOf(ResultsOf(report).value)), clocks.utc(evaluatedAt).value, clocks.utc)
  {
    hide WellFormedReport, EntriesOf, ExceptionsHold, FindingsOf, ExactlyPinned, ExactDigest, IsDigestText, ObservedIds, Has, Field;
    if report.Obj? {
      HasField(report, "ArtifactType", "container_image");
      HasField(report, "ArtifactName", image);
      HasField(report, "CreatedAt", subject.reportCreatedAt);
      if ExactlyPinned(image) {
        ExactParts(image);
      }
    }
    if Decidable(image, report, subject, exceptions, evaluatedAt, clocks) {
      assert ExactlyPinned(image);
      ExactIsLong(image);
      assert IsVerified(image, image[..|image| - 72], image[|image| - 64..], report, subject);
    }
    if name, hex :| IsVerified(image, name, hex, report, subject) {
      ExactOfParts(image, name, hex);
      HasIsObject(report, "CreatedAt", Str(subject.reportCreatedAt));
    }
  }

  lemma HasIsObject(value: Json, name: string, entry: Json)
    ensures Has(value, name, entry) ==> value.Obj?
  {
  }

  lemma HasField(value: Json, name: string, text: string)
    requires value.Obj?
    ensures Has(value, name, Str(text)) <==> Field(value, name) == Str(text)
  {
  }

  lemma ExactIsLong(image: string)
    ensures ExactlyPinned(image) ==> |image| > 72
  {
  }

  lemma ExactParts(image: string)
    requires ExactlyPinned(image)
    ensures var (name, hex) := (image[..|image| - 72], image[|image| - 64..]);
            image == name + "@sha256:" + hex && name != "" && IsDigestText(hex) && ExactDigest(image) == "sha256:" + hex
  {
    HexIff(image[|image| - 64..]);
    assert image == image[..|image| - 72] + image[|image| - 72..|image| - 64] + image[|image| - 64..];
    assert image[|image| - 72..|image| - 64] == "@sha256:" && image[|image| - 71..|image| - 64] == "sha256:";
  }

  lemma ExactOfParts(image: string, name: string, hex: string)
    requires image == name + "@sha256:" + hex && name != "" && IsDigestText(hex)
    ensures ExactlyPinned(image) && ExactDigest(image) == "sha256:" + hex
  {
    HexIff(hex);
    assert image[|image| - 72..|image| - 64] == "@sha256:" && image[|image| - 64..] == hex;
    assert image[|image| - 71..] == "sha256:" + hex;
  }
}
