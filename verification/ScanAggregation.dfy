/** tools/aggregate_image_scan_decisions.py: per-image decisions and SBOM records against the
    discovered inventory, summed into one public summary. */
module ScanAggregation {
  import opened Images
  import opened Json
  import opened Ordering
  import opened ScanEvaluation
  import opened Text

  datatype AggregateError =
    | BadInventory | DuplicateInventorySubject
    | NoDecisions | NoSboms
    | BadDecision | DuplicateDecision | MissingDecision | ExtraDecision
    | BadSbom | DuplicateSbom | MissingSbom | ExtraSbom

  // ---- reading one file --------------------------------------------------------------------

  predicate IsCount(value: Json) {
    value.Int? && value.number >= 0
  }

  /** A block of exactly three non-negative integers that add up. */
  function ReadBlock(value: Json): Option<Block> {
    if !value.Obj? || value.fields.Keys != {"available", "total", "unavailable"} then None
    else
      var available, total, unavailable := value.fields["available"], value.fields["total"], value.fields["unavailable"];
      if !IsCount(available) || !IsCount(total) || !IsCount(unavailable) then None
      else if available.number + unavailable.number != total.number then None
      else Some(Block(available.number, total.number, unavailable.number))
  }

  function ReadCounts(value: Json): Option<Counts> {
    if !value.Obj? || value.fields.Keys != {"critical", "high"} then None
    else
      var critical, high := ReadBlock(value.fields["critical"]), ReadBlock(value.fields["high"]);
      if critical.None? || high.None? then None else Some(Counts(critical.value, high.value))
  }

  function ReadTime(value: Json, iso: Clock): Option<int> {
    if value.Str? && EndsWith(value.text, "Z") then iso(value.text) else None
  }

  /** What the aggregator keeps of one decision file. */
  datatype Seen = Seen(subject: Subject, at: int, counts: Counts, unexcepted: Counts)

  function ReadDecision(decision: Json, iso: Clock): Option<Seen> {
    if !decision.Obj? || !EqualsOne(Field(decision, "schemaVersion")) || !Field(decision, "subject").Obj?
       || !Field(decision, "decision").Obj?
    then None
    else
      var subject, outcome := Field(decision, "subject"), Field(decision, "decision");
      var key := SubjectKey(Field(subject, "image"), Field(subject, "digest"));
      var at := ReadTime(Field(decision, "evaluatedAt"), iso);
      var counts := ReadCounts(Field(decision, "counts"));
      var unexcepted := ReadCounts(Field(decision, "unexceptedCounts"));
      if key.None? || at.None? || counts.None? || unexcepted.None? then None
      else if Field(outcome, "mode") != Str("evidence-only") || Field(outcome, "promotionGate") != Bool(false) then None
      else Some(Seen(key.value, at.value, counts.value, unexcepted.value))
  }

  function ReadSbom(sbom: Json, iso: Clock): Option<Subject> {
    if !sbom.Obj? || !EqualsOne(Field(sbom, "schemaVersion")) || Field(sbom, "format") != Str("CycloneDX") then None
    else if !IsCount(Field(sbom, "componentCount")) || ReadTime(Field(sbom, "generatedAt"), iso).None? then None
    else SubjectKey(Field(sbom, "image"), Field(sbom, "digest"))
  }

  /** The subject of one inventory entry. */
  function ReadImage(entry: Json): Option<Subject> {
    if entry.Obj? then SubjectKey(Field(entry, "image"), Field(entry, "digest")) else None
  }

  // ---- the inventory -----------------------------------------------------------------------

  datatype Inventory = Inventory(subjects: set<Subject>, coverageGaps: nat)

  ghost predicate ImagesRead(entries: seq<Json>, subjects: set<Subject>) {
    && (forall i | 0 <= i < |entries| :: ReadImage(entries[i]).Some?)
    && (forall i, j | 0 <= i < j < |entries| :: ReadImage(entries[i]) != ReadImage(entries[j]))
    && subjects == (set i | 0 <= i < |entries| && ReadImage(entries[i]).Some? :: ReadImage(entries[i]).value)
  }

  ghost predicate InventoryReads(document: Json, inventory: Inventory) {
    && document.Obj?
    && EqualsOne(Field(document, "schemaVersion"))
    && Field(document, "images").Arr? && Field(document, "images").items != []
    && ImagesRead(Field(document, "images").items, inventory.subjects)
    && Field(document, "coverageGaps").Arr?
    && (forall g | g in Field(document, "coverageGaps").items :: g.Obj?)
    && inventory.coverageGaps == |Field(document, "coverageGaps").items|
  }

  method LoadInventory(document: Json) returns (r: Result<Inventory, AggregateError>)
    ensures r.Ok? ==> InventoryReads(document, r.value) && |r.value.subjects| == |Field(document, "images").items|
    ensures r.Err? ==> forall inventory :: !InventoryReads(document, inventory)
  {
    hide ReadImage;
    if !document.Obj? || !EqualsOne(Field(document, "schemaVersion")) { return Err(BadInventory); }
    var images := Field(document, "images");
    if !images.Arr? || images.items == [] { return Err(BadInventory); }
    var subjects: set<Subject> := {};
    for i := 0 to |images.items|
      invariant ImagesRead(images.items[..i], subjects) && |subjects| == i
    {
      var key := ReadImage(images.items[i]);
      assert images.items[..i + 1] == images.items[..i] + [images.items[i]];
      if key.None? { return Err(BadInventory); }
      if key.value in subjects {
        var k :| 0 <= k < i && ReadImage(images.items[..i][k]) == key;
        assert ReadImage(images.items[k]) == ReadImage(images.items[i]);
        return Err(DuplicateInventorySubject);
      }
      subjects := subjects + {key.value};
    }
    assert images.items[..|images.items|] == images.items;
    var gaps := Field(document, "coverageGaps");
    if !gaps.Arr? || exists g | g in gaps.items :: !g.Obj? { return Err(BadInventory); }
    return Ok(Inventory(subjects, |gaps.items|));
  }

  // ---- sums --------------------------------------------------------------------------------

  function AddBlocks(a: Block, b: Block): Block {
    Block(a.available + b.available, a.total + b.total, a.unavailable + b.unavailable)
  }

  function AddCounts(a: Counts, b: Counts): Counts {
    Counts(AddBlocks(a.critical, b.critical), AddBlocks(a.high, b.high))
  }

  function SumCounts(all: seq<Counts>): Counts {
    if all == [] then EMPTY_COUNTS
    else AddCounts(SumCounts(all[..|all| - 1]), all[|all| - 1])
  }

  lemma {:induction false} SumWithout(all: seq<Counts>, k: nat)
    requires k < |all|
    ensures SumCounts(all) == AddCounts(SumCounts(all[..k] + all[k + 1..]), all[k])
  {
    var last := |all| - 1;
    if k < last {
      SumWithout(all[..last], k);
      var rest := all[..k] + all[k + 1..];
      assert rest[..last - 1] == all[..last][..k] + all[..last][k + 1..];
      assert rest[last - 1] == all[last];
    } else {
      assert all[..k] + all[k + 1..] == all[..last];
    }
  }

  /** A sum does not depend on the order of its terms. */
  lemma {:induction false} SumAnyOrder(a: seq<Counts>, b: seq<Counts>)
    requires multiset(a) == multiset(b)
    ensures SumCounts(a) == SumCounts(b)
  {
    assert |multiset(a)| == |a| && |multiset(b)| == |b|;
    if a == [] {
    } else {
      var last := a[|a| - 1];
      assert last in multiset(b);
      var k :| 0 <= k < |b| && b[k] == last;
      assert a == a[..|a| - 1] + [last];
      assert b == b[..k] + [b[k]] + b[k + 1..];
      assert multiset(b[..k] + b[k + 1..]) == multiset(b) - multiset{last};
      SumAnyOrder(a[..|a| - 1], b[..k] + b[k + 1..]);
      SumWithout(b, k);
    }
  }

  // ---- the summary -------------------------------------------------------------------------

  datatype Summary = Summary(
    latest: int, exactSubjects: nat, scannedSubjects: nat, sbomSubjects: nat, coverageGaps: nat,
    counts: Counts, unexceptedCounts: Counts)

  /** What a readable decision file says. */
  function Reader(iso: Clock): Json -> Seen {
    d => if ReadDecision(d, iso).Some? then ReadDecision(d, iso).value else Seen(("", ""), 0, EMPTY_COUNTS, EMPTY_COUNTS)
  }

  function ReadAll(decisions: seq<Json>, iso: Clock): seq<Seen> {
    Map(decisions, Reader(iso))
  }

  function CountsSeen(s: Seen): Counts { s.counts }

  function UnexceptedSeen(s: Seen): Counts { s.unexcepted }

  function CountsIn(seen: seq<Seen>): seq<Counts> {
    Map(seen, CountsSeen)
  }

  function UnexceptedIn(seen: seq<Seen>): seq<Counts> {
    Map(seen, UnexceptedSeen)
  }

  ghost predicate DistinctSubjects(seen: seq<Seen>) {
    forall i, j | 0 <= i < j < |seen| :: seen[i].subject != seen[j].subject
  }

  function SubjectsIn(seen: seq<Seen>): set<Subject> {
    set s | s in seen :: s.subject
  }

  ghost predicate Latest(at: int, seen: seq<Seen>) {
    (exists s :: s in seen && s.at == at) && forall s | s in seen :: s.at <= at
  }

  ghost predicate SbomsRead(sboms: seq<Json>, iso: Clock, subjects: set<Subject>) {
    && (forall i | 0 <= i < |sboms| :: ReadSbom(sboms[i], iso).Some?)
    && (forall i, j | 0 <= i < j < |sboms| :: ReadSbom(sboms[i], iso) != ReadSbom(sboms[j], iso))
    && subjects == (set i | 0 <= i < |sboms| && ReadSbom(sboms[i], iso).Some? :: ReadSbom(sboms[i], iso).value)
  }

  ghost predicate DecisionsRead(decisions: seq<Json>, iso: Clock) {
    (forall d | d in decisions :: ReadDecision(d, iso).Some?) && DistinctSubjects(ReadAll(decisions, iso))
  }

  /** The summary of these files: every file is well-formed, each discovered subject has exactly one
      decision and one SBOM and there are no others, and the counts are the sums. */
  ghost predicate Summarises(s: Summary, decisions: seq<Json>, sboms: seq<Json>, inventory: Json, iso: Clock) {
    && decisions != [] && sboms != []
    && DecisionsRead(decisions, iso)
    && var seen := ReadAll(decisions, iso);
       && InventoryReads(inventory, Inventory(SubjectsIn(seen), s.coverageGaps))
       && SbomsRead(sboms, iso, SubjectsIn(seen))
       && s.exactSubjects == s.scannedSubjects == s.sbomSubjects == |SubjectsIn(seen)|
       && s.counts == SumCounts(CountsIn(seen))
       && s.unexceptedCounts == SumCounts(UnexceptedIn(seen))
       && Latest(s.latest, seen)
  }

  /** The running totals after these files. */
  ghost predicate Totals(seen: seq<Seen>, subjects: set<Subject>, counts: Counts, unexcepted: Counts, latest: int) {
    && DistinctSubjects(seen)
    && subjects == SubjectsIn(seen) && |subjects| == |seen|
    && counts == SumCounts(CountsIn(seen)) && unexcepted == SumCounts(UnexceptedIn(seen))
    && (seen != [] ==> Latest(latest, seen))
  }

  lemma SumsGrow(seen: seq<Seen>, s: Seen)
    ensures SumCounts(CountsIn(seen + [s])) == AddCounts(SumCounts(CountsIn(seen)), s.counts)
    ensures SumCounts(UnexceptedIn(seen + [s])) == AddCounts(SumCounts(UnexceptedIn(seen)), s.unexcepted)
  {
    hide AddCounts;
    var after := seen + [s];
    assert CountsIn(after)[..|seen|] == CountsIn(seen) && UnexceptedIn(after)[..|seen|] == UnexceptedIn(seen);
  }

  lemma TotalsGrow(seen: seq<Seen>, s: Seen, subjects: set<Subject>, counts: Counts, unexcepted: Counts, latest: int)
    requires Totals(seen, subjects, counts, unexcepted, latest) && s.subject !in subjects
    ensures Totals(seen + [s], subjects + {s.subject}, AddCounts(counts, s.counts), AddCounts(unexcepted, s.unexcepted),
                   if seen == [] || latest < s.at then s.at else latest)
  {
    hide AddCounts, SumCounts, CountsIn, UnexceptedIn;
    var after := seen + [s];
    SumsGrow(seen, s);
    assert s in after;
    assert forall x :: x in after <==> x in seen || x == s;
    forall i, j | 0 <= i < j < |after| ensures after[i].subject != after[j].subject {
      assert after[i] in seen;
    }
  }

  method ReadDecisions(decisions: seq<Json>, iso: Clock)
    returns (r: Result<(set<Subject>, Counts, Counts, int), AggregateError>)
    ensures r.Ok? <==> DecisionsRead(decisions, iso)
    ensures r.Ok? ==> Totals(ReadAll(decisions, iso), r.value.0, r.value.1, r.value.2, r.value.3)
  {
    hide ReadDecision, AddCounts, SumCounts, Latest, ReadAll, SubjectsIn, DistinctSubjects;
    var subjects: set<Subject> := {};
    var counts, unexcepted := EMPTY_COUNTS, EMPTY_COUNTS;
    var latest := 0;
    NoTotals(iso);
    assert decisions[..0] == [];
    for i := 0 to |decisions|
      invariant forall d | d in decisions[..i] :: ReadDecision(d, iso).Some?
      invariant Totals(ReadAll(decisions[..i], iso), subjects, counts, unexcepted, latest)
    {
      var seen := ReadDecision(decisions[i], iso);
      assert decisions[i] in decisions;
      if seen.None? { return Err(BadDecision); }
      ghost var before := ReadAll(decisions[..i], iso);
      assert decisions[..i + 1] == decisions[..i] + [decisions[i]];
      ReadMore(decisions[..i], decisions[i], iso);
      if seen.value.subject in subjects {
        NotDistinct(decisions, i, iso);
        return Err(DuplicateDecision);
      }
      TotalsGrow(before, seen.value, subjects, counts, unexcepted, latest);
      subjects := subjects + {seen.value.subject};
      counts := AddCounts(counts, seen.value.counts);
      unexcepted := AddCounts(unexcepted, seen.value.unexcepted);
      latest := if i == 0 || latest < seen.value.at then seen.value.at else latest;
    }
    assert decisions[..|decisions|] == decisions;
    return Ok((subjects, counts, unexcepted, latest));
  }

  lemma NoTotals(iso: Clock)
    ensures Totals(ReadAll([], iso), {}, EMPTY_COUNTS, EMPTY_COUNTS, 0)
  {
  }

  lemma ReadMore(decisions: seq<Json>, d: Json, iso: Clock)
    requires ReadDecision(d, iso).Some?
    ensures ReadAll(decisions + [d], iso) == ReadAll(decisions, iso) + [ReadDecision(d, iso).value]
    ensures |ReadAll(decisions, iso)| == |decisions|
  {
    hide ReadDecision;
  }

  lemma NotDistinct(decisions: seq<Json>, i: nat, iso: Clock)
    requires i < |decisions| && ReadDecision(decisions[i], iso).Some?
    requires ReadDecision(decisions[i], iso).value.subject in SubjectsIn(ReadAll(decisions[..i], iso))
    ensures !DecisionsRead(decisions, iso)
  {
    hide ReadDecision;
    var before, all := ReadAll(decisions[..i], iso), ReadAll(decisions, iso);
    var s :| s in before && s.subject == ReadDecision(decisions[i], iso).value.subject;
    var k :| 0 <= k < |before| && before[k] == s;
    assert all[k] == before[k] && all[i] == ReadDecision(decisions[i], iso).value;
  }

  method ReadSboms(sboms: seq<Json>, iso: Clock) returns (r: Result<set<Subject>, AggregateError>)
    ensures r.Ok? ==> SbomsRead(sboms, iso, r.value)
    ensures r.Err? ==> forall subjects :: !SbomsRead(sboms, iso, subjects)
  {
    hide ReadSbom;
    var subjects: set<Subject> := {};
    for i := 0 to |sboms|
      invariant SbomsRead(sboms[..i], iso, subjects)
    {
      var key := ReadSbom(sboms[i], iso);
      assert sboms[..i + 1] == sboms[..i] + [sboms[i]];
      if key.None? { return Err(BadSbom); }
      if key.value in subjects {
        var k :| 0 <= k < i && ReadSbom(sboms[..i][k], iso) == key;
        assert ReadSbom(sboms[k], iso) == ReadSbom(sboms[i], iso);
        return Err(DuplicateSbom);
      }
      subjects := subjects + {key.value};
    }
    assert sboms[..|sboms|] == sboms;
    return Ok(subjects);
  }

  method Aggregate(decisions: seq<Json>, sboms: seq<Json>, inventory: Json, iso: Clock)
    returns (r: Result<Summary, AggregateError>)
    ensures r.Ok? ==> Summarises(r.value, decisions, sboms, inventory, iso)
    ensures r.Err? ==> forall s :: !Summarises(s, decisions, sboms, inventory, iso)
  {
    hide InventoryReads, SbomsRead, DecisionsRead, SumCounts, Latest, ReadDecision;
    var loaded := LoadInventory(inventory);
    if loaded.Err? { return Err(loaded.error); }
    var expected := loaded.value.subjects;
    InventoryFixesSubjects(inventory, loaded.value);
    if decisions == [] { return Err(NoDecisions); }
    if sboms == [] { return Err(NoSboms); }
    var read := ReadDecisions(decisions, iso);
    if read.Err? { return Err(read.error); }
    var (subjects, counts, unexcepted, latest) := read.value;
    if expected - subjects != {} { return Err(MissingDecision); }
    if subjects - expected != {} { return Err(ExtraDecision); }
    assert subjects == expected;
    var readSboms := ReadSboms(sboms, iso);
    if readSboms.Err? { return Err(readSboms.error); }
    SbomsFixSubjects(sboms, iso, readSboms.value);
    if expected - readSboms.value != {} { return Err(MissingSbom); }
    if readSboms.value - expected != {} { return Err(ExtraSbom); }
    assert readSboms.value == expected;
    return Ok(Summary(latest, |expected|, |subjects|, |readSboms.value|, loaded.value.coverageGaps, counts, unexcepted));
  }

  lemma InventoryFixesSubjects(document: Json, inventory: Inventory)
    requires InventoryReads(document, inventory)
    ensures forall other :: InventoryReads(document, other) ==> other == inventory
  {
  }

  lemma SbomsFixSubjects(sboms: seq<Json>, iso: Clock, subjects: set<Subject>)
    requires SbomsRead(sboms, iso, subjects)
    ensures forall other :: SbomsRead(sboms, iso, other) ==> other == subjects
  {
  }

  // ---- the order of the files does not matter ----------------------------------------------

  lemma SubjectsAnyOrder(a: seq<Seen>, b: seq<Seen>)
    requires multiset(a) == multiset(b) && DistinctSubjects(a)
    ensures DistinctSubjects(b) && SubjectsIn(a) == SubjectsIn(b)
  {
    SameMembers(a, b);
    forall i, j | 0 <= i < j < |b| ensures b[i].subject != b[j].subject {
      assert b[i] in a && b[j] in a;
      DistinctAnyOrder(a, b, i, j);
      var k :| 0 <= k < |a| && a[k] == b[i];
      var l :| 0 <= l < |a| && a[l] == b[j];
    }
  }

  lemma SbomsAnyOrder(a: seq<Json>, b: seq<Json>, iso: Clock, subjects: set<Subject>)
    requires multiset(a) == multiset(b) && SbomsRead(a, iso, subjects)
    ensures SbomsRead(b, iso, subjects)
  {
    hide ReadSbom;
    SameMembers(a, b);
    forall i | 0 <= i < |b| ensures ReadSbom(b[i], iso).Some? {
      assert b[i] in a;
    }
    forall i, j | 0 <= i < j < |b| ensures ReadSbom(b[i], iso) != ReadSbom(b[j], iso) {
      assert b[i] in a && b[j] in a;
      forall k, l | 0 <= k < l < |a| ensures a[k] != a[l] {
        assert ReadSbom(a[k], iso) != ReadSbom(a[l], iso);
      }
      DistinctAnyOrder(a, b, i, j);
      var k :| 0 <= k < |a| && a[k] == b[i];
      var l :| 0 <= l < |a| && a[l] == b[j];
    }
    forall s ensures s in subjects <==> exists i :: 0 <= i < |b| && ReadSbom(b[i], iso) == Some(s) {
      if s in subjects {
        var i :| 0 <= i < |a| && ReadSbom(a[i], iso) == Some(s);
        assert a[i] in b;
        var k :| 0 <= k < |b| && b[k] == a[i];
      }
      if i :| 0 <= i < |b| && ReadSbom(b[i], iso) == Some(s) {
        assert b[i] in a;
        var k :| 0 <= k < |a| && a[k] == b[i];
        assert ReadSbom(a[k], iso) == Some(s);
      }
    }
  }

  /** Renaming or reordering the artifact directories changes nothing: the same decisions and SBOMs
      in any order are summarised alike, or not at all. */
  lemma SummaryAnyOrder(s: Summary, a: seq<Json>, b: seq<Json>, p: seq<Json>, q: seq<Json>, inventory: Json, iso: Clock)
    requires multiset(a) == multiset(b) && multiset(p) == multiset(q)
    ensures Summarises(s, a, p, inventory, iso) <==> Summarises(s, b, q, inventory, iso)
  {
    hide Summarises;
    if Summarises(s, a, p, inventory, iso) { SummaryMoves(s, a, b, p, q, inventory, iso); }
    if Summarises(s, b, q, inventory, iso) { SummaryMoves(s, b, a, q, p, inventory, iso); }
  }

  lemma SummaryMoves(s: Summary, a: seq<Json>, b: seq<Json>, p: seq<Json>, q: seq<Json>, inventory: Json, iso: Clock)
    requires multiset(a) == multiset(b) && multiset(p) == multiset(q)
    requires Summarises(s, a, p, inventory, iso)
    ensures Summarises(s, b, q, inventory, iso)
  {
    hide ReadDecision, SbomsRead, InventoryReads, SumCounts, DistinctSubjects;
    var seenA, seenB := ReadAll(a, iso), ReadAll(b, iso);
    SameMembers(a, b);
    SameMembers(p, q);
    MapAnyOrder(a, b, Reader(iso));
    SubjectsAnyOrder(seenA, seenB);
    SameMembers(seenA, seenB);
    SbomsAnyOrder(p, q, iso, SubjectsIn(seenA));
    MapAnyOrder(seenA, seenB, CountsSeen);
    MapAnyOrder(seenA, seenB, UnexceptedSeen);
    SumAnyOrder(CountsIn(seenA), CountsIn(seenB));
    SumAnyOrder(UnexceptedIn(seenA), UnexceptedIn(seenB));
  }

  // ---- the files that are read, entry by entry ---------------------------------------------

  /** A time that ends in Z and that the clock reads. */
  predicate IsTime(value: Json, iso: Clock) {
    value.Str? && EndsWith(value.text, "Z") && iso(value.text).Some?
  }

  /** A CycloneDX record of an image and its digest, with a count of components and a time. */
  lemma SbomIff(sbom: Json, iso: Clock, subject: Subject)
    ensures ReadSbom(sbom, iso) == Some(subject)
            <==> && (Has(sbom, "schemaVersion", Int(1)) || Has(sbom, "schemaVersion", Bool(true)))
                 && Has(sbom, "format", Str("CycloneDX"))
                 && (exists n :: 0 <= n && Has(sbom, "componentCount", Int(n)))
                 && "generatedAt" in sbom.fields && IsTime(sbom.fields["generatedAt"], iso)
                 && "image" in sbom.fields && "digest" in sbom.fields
                 && SubjectKey(sbom.fields["image"], sbom.fields["digest"]) == Some(subject)
  {
    hide SubjectKey, EndsWith;
    if sbom.Obj? {
      NoSubjectOfNull(Field(sbom, "image"), Field(sbom, "digest"));
      if "componentCount" in sbom.fields && IsCount(sbom.fields["componentCount"]) {
        assert Has(sbom, "componentCount", Int(sbom.fields["componentCount"].number));
      }
    }
  }

  lemma NoSubjectOfNull(image: Json, digest: Json)
    ensures SubjectKey(image, digest).Some? ==> image != Null && digest != Null
  {
  }

  /** A block of counts: three entries, none negative, that add up. */
  lemma BlockIff(value: Json, block: Block)
    ensures ReadBlock(value) == Some(block)
            <==> && value.Obj? && value.fields.Keys == {"unavailable", "total", "available"}
                 && Has(value, "available", Int(block.available)) && Has(value, "total", Int(block.total))
                 && Has(value, "unavailable", Int(block.unavailable))
                 && block.available >= 0 && block.unavailable >= 0 && block.available + block.unavailable == block.total
  {
  }

  /** A decision file: its subject, its time, its counts by severity and, without excepted ones, again; and that
      it is evidence only. */
  lemma DecisionIff(decision: Json, iso: Clock, seen: Seen)
    ensures ReadDecision(decision, iso) == Some(seen)
            <==> && (Has(decision, "schemaVersion", Int(1)) || Has(decision, "schemaVersion", Bool(true)))
                 && "subject" in decision.fields && decision.fields["subject"].Obj?
                 && "decision" in decision.fields && Has(decision.fields["decision"], "mode", Str("evidence-only"))
                 && Has(decision.fields["decision"], "promotionGate", Bool(false))
                 && "image" in decision.fields["subject"].fields && "digest" in decision.fields["subject"].fields
                 && SubjectKey(decision.fields["subject"].fields["image"], decision.fields["subject"].fields["digest"])
                    == Some(seen.subject)
                 && "evaluatedAt" in decision.fields && IsTime(decision.fields["evaluatedAt"], iso)
                 && iso(decision.fields["evaluatedAt"].text) == Some(seen.at)
                 && "counts" in decision.fields && AreCounts(decision.fields["counts"], seen.counts)
                 && "unexceptedCounts" in decision.fields && AreCounts(decision.fields["unexceptedCounts"], seen.unexcepted)
  {
    hide SubjectKey, EndsWith, ReadCounts, AreCounts;
    if decision.Obj? {
      if Field(decision, "subject").Obj? {
        NoSubjectOfNull(Field(Field(decision, "subject"), "image"), Field(Field(decision, "subject"), "digest"));
      }
      CountsIff(Field(decision, "counts"), seen.counts);
      CountsIff(Field(decision, "unexceptedCounts"), seen.unexcepted);
      NoCountsOfNull(seen.counts);
      NoCountsOfNull(seen.unexcepted);
    }
  }

  predicate AreCounts(value: Json, counts: Counts) {
    && value.Obj? && value.fields.Keys == {"high", "critical"}
    && ReadBlock(value.fields["critical"]) == Some(counts.critical) && ReadBlock(value.fields["high"]) == Some(counts.high)
  }

  lemma CountsIff(value: Json, counts: Counts)
    ensures ReadCounts(value) == Some(counts) <==> AreCounts(value, counts)
  {
    hide ReadBlock;
  }

  lemma NoCountsOfNull(counts: Counts)
    ensures !AreCounts(Null, counts)
  {
  }
}
