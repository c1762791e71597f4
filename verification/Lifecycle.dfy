/** tools/set_node_pair_lifecycle.py: one request changes one assignment, is checked against the
    whole catalog, and only then reaches the files. Runs are sequences of requests. */
module Lifecycle {
  import opened Catalog
  import opened CatalogRules
  import opened Projection
  import opened Schema
  import opened Text

  // ---- one assignment ----------------------------------------------------------------------

  datatype Action = Activate | Stop

  datatype Request = Request(assignment: string, action: Action, reason: string)

  datatype Reason =
    | NotAName | NoSuchFile | SeveralFiles | NotAnAssignment
    | ReasonLength | SigningIsManagedElsewhere | NoSuchTransition
    | OutsideCatalog | SchemaErrors | RelationalErrorsFound | ProjectionRefused(refusal: Refusal)

  function Target(current: Lifecycle, action: Action): Option<Lifecycle> {
    if current == Stopped && action == Activate then Some(Active)
    else if current == Active && action == Stop then Some(Stopped)
    else None
  }

  predicate ReasonFits(reason: string) {
    3 <= |Strip(reason)| <= 256
  }

  predicate MayTransition(a: ValidatorAssignment, action: Action, reason: string) {
    ReasonFits(reason) && !a.signingEnabled && Target(a.lifecycle, action).Some?
  }

  function Transitioned(a: ValidatorAssignment, action: Action, reason: string, tools: Tools): ValidatorAssignment
    requires MayTransition(a, action, reason)
  {
    a.(lifecycle := Target(a.lifecycle, action).value,
       nodePairRef := if action == Activate && a.nodePairRef.None?
                      then Some(DefaultNodePairRef(a.validatorRef, tools)) else a.nodePairRef,
       safety := Safety(false, false),
       maintenanceReason := Some(Strip(reason)))
  }

  /** An assignment as loaded from its file, updated in place. */
  class AssignmentRecord {
    const loaded: ValidatorAssignment
    var lifecycle: Lifecycle
    var nodePairRef: Option<string>
    var signingEnabled: bool
    var safety: Safety
    var maintenanceReason: Option<string>

    constructor (a: ValidatorAssignment)
      ensures Value() == a
    {
      loaded := a;
      lifecycle, nodePairRef, signingEnabled := a.lifecycle, a.nodePairRef, a.signingEnabled;
      safety, maintenanceReason := a.safety, a.maintenanceReason;
    }

    function Value(): ValidatorAssignment
      reads this
    {
      loaded.(lifecycle := lifecycle, nodePairRef := nodePairRef, signingEnabled := signingEnabled,
              safety := safety, maintenanceReason := maintenanceReason)
    }

    method Transition(action: Action, reason: string, tools: Tools) returns (refusal: Option<Reason>)
      modifies this
      ensures refusal.None? <==> MayTransition(old(Value()), action, reason)
      ensures refusal.None? ==> Value() == Transitioned(old(Value()), action, reason, tools)
      ensures refusal.Some? ==> Value() == old(Value())
    {
      var stripped := Strip(reason);
      if !(3 <= |stripped| <= 256) { return Some(ReasonLength); }
      if signingEnabled { return Some(SigningIsManagedElsewhere); }
      var target := Target(lifecycle, action);
      if target.None? { return Some(NoSuchTransition); }
      lifecycle := target.value;
      if action == Activate && nodePairRef.None? {
        nodePairRef := Some(DefaultNodePairRef(loaded.validatorRef, tools));
      }
      signingEnabled := false;
      safety := Safety(false, false);
      maintenanceReason := Some(stripped);
      return None;
    }
  }

  // ---- the catalog files -------------------------------------------------------------------

  datatype File = File(path: string, document: Document)

  function Documents(files: seq<File>): seq<Document> {
    seq(|files|, i requires 0 <= i < |files| => files[i].document)
  }

  const ASSIGNMENT_DIRECTORY := "applications/validators/assignments/"

  predicate InAssignmentDirectory(path: string) {
    && StartsWith(path, ASSIGNMENT_DIRECTORY)
    && EndsWith(path, ".yaml")
    && '/' !in path[|ASSIGNMENT_DIRECTORY|..]
  }

  /** The files directly in the directory whose names end in .yaml. */
  lemma InDirectoryIff(path: string)
    ensures InAssignmentDirectory(path)
            <==> exists name :: path == "applications/validators/assignments/" + (name + ".yaml") && '/' !in name
  {
    var n := |ASSIGNMENT_DIRECTORY|;
    if InAssignmentDirectory(path) {
      TailInDirectory(path);
    }
    if name :| path == "applications/validators/assignments/" + (name + ".yaml") && '/' !in name {
      assert path[..n] == ASSIGNMENT_DIRECTORY && path[n..] == name + ".yaml";
      assert path[|path| - 5..] == ".yaml";
    }
  }

  lemma TailInDirectory(path: string)
    requires InAssignmentDirectory(path)
    ensures |path| >= |ASSIGNMENT_DIRECTORY| + 5
    ensures var name := path[|ASSIGNMENT_DIRECTORY|..|path| - 5];
            path == "applications/validators/assignments/" + (name + ".yaml") && '/' !in name
  {
    var n := |ASSIGNMENT_DIRECTORY|;
    assert path[n - 1] == '/' by { assert path[..n][n - 1] == '/'; }
    var k := |path| - 5;
    assert path[k..] == ".yaml";
    assert path[k] == '.' && path[k + 1] == 'y' && path[k + 2] == 'a' && path[k + 3] == 'm' && path[k + 4] == 'l';
    assert path == path[..n] + path[n..];
    if k >= n {
      assert path[n..] == path[n..k] + path[k..];
    }
  }

  /** File i is one of those the tool looks at, and its document has this name. */
  predicate Matches(files: seq<File>, name: string, i: nat)
    requires i < |files|
  {
    InAssignmentDirectory(files[i].path) && files[i].document.Name() == name
  }

  ghost predicate OnlyMatch(files: seq<File>, name: string, i: nat) {
    i < |files| && Matches(files, name, i) && forall j | 0 <= j < |files| && j != i :: !Matches(files, name, j)
  }

  ghost predicate NoMatch(files: seq<File>, name: string) {
    forall i | 0 <= i < |files| :: !Matches(files, name, i)
  }

  ghost predicate TwoMatches(files: seq<File>, name: string) {
    exists i, j :: 0 <= i < j < |files| && Matches(files, name, i) && Matches(files, name, j)
  }

  /** File i is the only one that matches, and it holds an assignment. */
  ghost predicate Located(files: seq<File>, name: string, i: nat) {
    OnlyMatch(files, name, i) && files[i].document.AssignmentDocument?
  }

  ghost predicate DistinctPaths(files: seq<File>) {
    forall i, j | 0 <= i < j < |files| :: files[i].path != files[j].path
  }

  function Replaced(files: seq<File>, i: nat, a: ValidatorAssignment): seq<File>
    requires i < |files|
  {
    files[i := files[i].(document := AssignmentDocument(a))]
  }

  /** What a catalog must satisfy before anything is written: schema, relational rules, rendering. */
  ghost predicate Sound(files: seq<File>) {
    && (forall i | 0 <= i < |files| :: Valid(files[i].document))
    && Consistent(Documents(files))
    && AllRender(IndexOf(Documents(files)))
  }

  /** The files after request r has changed file i. */
  ghost function Requested(files: seq<File>, r: Request, i: nat, tools: Tools): seq<File>
    requires Located(files, r.assignment, i)
    requires MayTransition(files[i].document.assignment, r.action, r.reason)
  {
    Replaced(files, i, Transitioned(files[i].document.assignment, r.action, r.reason, tools))
  }

  ghost predicate AcceptsAt(files: seq<File>, r: Request, i: nat, tools: Tools) {
    && NameShaped(r.assignment)
    && Located(files, r.assignment, i)
    && MayTransition(files[i].document.assignment, r.action, r.reason)
    && Sound(Requested(files, r, i, tools))
  }

  ghost predicate Accepts(files: seq<File>, r: Request, tools: Tools) {
    exists i :: AcceptsAt(files, r, i, tools)
  }

  // ---- states and steps --------------------------------------------------------------------

  datatype State = State(files: seq<File>, projection: map<string, string>)

  ghost function StepAt(s: State, r: Request, i: nat, tools: Tools): State
    requires AcceptsAt(s.files, r, i, tools)
  {
    var next := Requested(s.files, r, i, tools);
    State(next, Projected(s.projection, RenderedOf(IndexOf(Documents(next)), tools)))
  }

  ghost function Step(s: State, r: Request, tools: Tools): State {
    if Accepts(s.files, r, tools) then
      var i :| AcceptsAt(s.files, r, i, tools);
      StepAt(s, r, i, tools)
    else s
  }

  ghost function Run(s: State, requests: seq<Request>, tools: Tools): State {
    if requests == [] then s
    else Step(Run(s, requests[..|requests| - 1], tools), requests[|requests| - 1], tools)
  }

  // ---- replacing one document --------------------------------------------------------------

  lemma ReplacedUnique(documents: seq<Document>, i: nat, d: Document)
    requires i < |documents| && SameId(documents[i], d)
    ensures UniqueNames(documents[i := d]) <==> UniqueNames(documents)
  {
    var after := documents[i := d];
    forall j, k | 0 <= j < k < |documents|
      ensures SameId(after[j], after[k]) <==> SameId(documents[j], documents[k])
    {
    }
    if UniqueNames(documents) {
      forall j, k | 0 <= j < k < |after| ensures !SameId(after[j], after[k]) {
        assert !SameId(documents[j], documents[k]);
      }
    }
    if UniqueNames(after) {
      forall j, k | 0 <= j < k < |documents| ensures !SameId(documents[j], documents[k]) {
        assert !SameId(after[j], after[k]);
      }
    }
  }

  /** Substituting an assignment in the loaded index is the same as loading the changed files. */
  lemma ReplacedIndex(documents: seq<Document>, i: nat, a: ValidatorAssignment)
    requires i < |documents| && UniqueNames(documents)
    requires documents[i].AssignmentDocument? && documents[i].assignment.name == a.name
    ensures var index := IndexOf(documents);
            IndexOf(documents[i := AssignmentDocument(a)]) == index.(assignments := index.assignments[a.name := a])
  {
    var d := AssignmentDocument(a);
    var after, index := documents[i := d], IndexOf(documents);
    ReplacedUnique(documents, i, d);
    IndexFiled(documents);
    IndexFiled(after);
    WithFiled(index, d);
    forall e: Document ensures IndexOf(after).Holds(e) <==> index.With(d).Holds(e) {
      IndexHolds(documents, e);
      IndexHolds(after, e);
      WithHolds(index, d, e);
      ReplacedMember(documents, i, d, e);
    }
    IndexExtensional(IndexOf(after), index.With(d));
  }

  lemma ReplacedMember(documents: seq<Document>, i: nat, d: Document, e: Document)
    requires i < |documents| && UniqueNames(documents) && SameId(documents[i], d)
    ensures e in documents[i := d] <==> if SameId(d, e) then d == e else e in documents
  {
    var after := documents[i := d];
    ReplacedUnique(documents, i, d);
    assert after[i] == d;
    if e in after {
      var j :| 0 <= j < |after| && after[j] == e;
      assert j == i || (documents[j] == e && (SameId(after[i], after[j]) ==> j == i));
      assert j < i ==> !SameId(after[j], after[i]);
      assert i < j ==> !SameId(after[i], after[j]);
    }
    if e in documents && !SameId(d, e) {
      var j :| 0 <= j < |documents| && documents[j] == e;
      assert after[j] == e;
    }
  }

  lemma ReplacedDocuments(files: seq<File>, i: nat, a: ValidatorAssignment)
    requires i < |files|
    ensures Documents(Replaced(files, i, a)) == Documents(files)[i := AssignmentDocument(a)]
  {
  }

  /** Soundness in terms of the list of documents. */
  lemma SoundDocuments(files: seq<File>)
    ensures Sound(files) <==>
            && (forall d | d in Documents(files) :: Valid(d))
            && Consistent(Documents(files)) && AllRender(IndexOf(Documents(files)))
  {
    var documents := Documents(files);
    if forall d | d in documents :: Valid(d) {
      forall i | 0 <= i < |files| ensures Valid(files[i].document) {
        assert documents[i] in documents;
      }
    }
    if forall i | 0 <= i < |files| :: Valid(files[i].document) {
      forall d | d in documents ensures Valid(d) {
        var i :| 0 <= i < |documents| && documents[i] == d;
      }
    }
  }

  lemma ValidAreShaped(documents: seq<Document>)
    requires forall d | d in documents :: Valid(d)
    ensures Shaped(documents)
  {
    hide NameShaped, FamilyShaped, GenerationShaped, ChainValid, BundleValid, CheckpointValid, IdentityValid, AssignmentValid,
      CustomerValid, ServiceValid;
  }

  // ---- the tool ----------------------------------------------------------------------------

  class Repository {
    var files: seq<File>
    const output: Directory

    constructor (files: seq<File>, output: Directory)
      ensures this.files == files && this.output == output
    {
      this.files := files;
      this.output := output;
    }

    ghost function Current(): State
      reads this, output
    {
      State(files, output.files)
    }

    method FindAssignment(name: string) returns (r: Result<nat, Reason>)
      ensures r.Ok? ==> OnlyMatch(files, name, r.value)
      ensures r == Err(NoSuchFile) <==> NoMatch(files, name)
      ensures r == Err(SeveralFiles) <==> TwoMatches(files, name)
      ensures r.Err? ==> r.error in {NoSuchFile, SeveralFiles}
    {
      var matches: seq<nat> := [];
      for i := 0 to |files|
        invariant forall k | 0 <= k < |matches| :: matches[k] < i && Matches(files, name, matches[k])
        invariant forall j | 0 <= j < i && Matches(files, name, j) :: j in matches
        invariant forall j, k | 0 <= j < k < |matches| :: matches[j] < matches[k]
      {
        if Matches(files, name, i) {
          matches := matches + [i];
        }
      }
      if matches == [] { return Err(NoSuchFile); }
      if |matches| > 1 {
        assert matches[0] < matches[1];
        return Err(SeveralFiles);
      }
      return Ok(matches[0]);
    }

    method SchemaHolds(documents: seq<Document>) returns (ok: bool)
      ensures ok <==> forall d | d in documents :: Valid(d)
    {
      for i := 0 to |documents|
        invariant forall j | 0 <= j < i :: Valid(documents[j])
      {
        if !Valid(documents[i]) {
          assert documents[i] in documents;
          return false;
        }
      }
      return true;
    }

    /** The documents with the first one at this path replaced, and whether they pass both checks. */
    method ValidateWith(path: string, replacement: Document) returns (refusal: Option<Reason>, ghost documents: seq<Document>)
      ensures refusal == Some(OutsideCatalog) <==> forall i | 0 <= i < |files| :: files[i].path != path
      ensures refusal != Some(OutsideCatalog) ==>
        exists i :: 0 <= i < |files| && files[i].path == path && (forall j | 0 <= j < i :: files[j].path != path)
          && documents == Documents(files)[i := replacement]
      ensures refusal.None? ==> (forall d | d in documents :: Valid(d)) && Consistent(documents)
      ensures refusal.Some? && refusal != Some(OutsideCatalog) ==>
        !((forall d | d in documents :: Valid(d)) && Consistent(documents))
    {
      hide Valid, Consistent, Shaped;
      var loaded := Documents(files);
      documents := loaded;
      var i := 0;
      while i < |files| && files[i].path != path
        invariant 0 <= i <= |files|
        invariant forall j | 0 <= j < i :: files[j].path != path
      {
        i := i + 1;
      }
      if i == |files| {
        return Some(OutsideCatalog), documents;
      }
      loaded := loaded[i := replacement];
      documents := loaded;
      var valid := SchemaHolds(loaded);
      if !valid {
        return Some(SchemaErrors), documents;
      }
      ValidAreShaped(loaded);
      var errors := RelationalErrors(loaded);
      if errors != {} {
        return Some(RelationalErrorsFound), documents;
      }
      return None, documents;
    }

    /** The index of the files as they are, refusing repeated names. */
    method LoadCatalog() returns (r: Result<Index, Refusal>)
      ensures r.Ok? <==> UniqueNames(Documents(files))
      ensures r.Ok? ==> r.value == IndexOf(Documents(files))
      ensures r.Err? ==> r.error == DuplicateDocument
    {
      var errors, index := BuildIndex(Documents(files));
      ghost var documents := Documents(files);
      if errors != {} {
        var f :| f in errors;
        assert Repeated(documents, f.kind, f.name);
        return Err(DuplicateDocument);
      }
      forall i, j | 0 <= i < j < |documents| ensures !SameId(documents[i], documents[j]) {
        assert DuplicateName(documents[i].Kind(), documents[i].Name()) !in errors;
      }
      return Ok(index);
    }

    /** Checks and renders the catalog with one assignment changed. */
    method Compile(i: nat, changed: ValidatorAssignment, tools: Tools) returns (r: Result<map<string, string>, Reason>)
      requires DistinctPaths(files) && i < |files|
      requires files[i].document.AssignmentDocument? && files[i].document.assignment.name == changed.name
      ensures r.Ok? <==> Sound(Replaced(files, i, changed))
      ensures r.Ok? ==> AreRendered(r.value, IndexOf(Documents(Replaced(files, i, changed))), tools)
    {
      hide Coherent, AllRender, AreRendered, Valid;
      ReplacedDocuments(files, i, changed);
      SoundDocuments(Replaced(files, i, changed));
      var refusal, documents := ValidateWith(files[i].path, AssignmentDocument(changed));
      assert documents == Documents(Replaced(files, i, changed));
      if refusal.Some? {
        return Err(refusal.value);
      }
      ReplacedUnique(Documents(files), i, AssignmentDocument(changed));
      ReplacedIndex(Documents(files), i, changed);
      var catalog := LoadCatalog();
      var index := catalog.value.(assignments := catalog.value.assignments[changed.name := changed]);
      IndexFiled(documents);
      var generated := RenderedFiles(index, tools);
      if generated.Err? {
        return Err(ProjectionRefused(generated.error));
      }
      return Ok(generated.value);
    }

    /** One run of the tool: refused without a trace, or checked, rendered, and then written. */
    method Handle(r: Request, tools: Tools) returns (refusal: Option<Reason>)
      requires DistinctPaths(files)
      modifies this, output
      ensures refusal.None? <==> Accepts(old(files), r, tools)
      ensures Current() == Step(old(Current()), r, tools)
      ensures DistinctPaths(files)
    {
      hide Consistent, AllRender, AreRendered, Valid, Projected, Accepts, Matches, NoMatch, TwoMatches;
      AcceptsOnly(files, r, tools);
      if !NameShaped(r.assignment) {
        return Some(NotAName);
      }
      var found := FindAssignment(r.assignment);
      if found.Err? {
        return Some(found.error);
      }
      var i := found.value;
      if !files[i].document.AssignmentDocument? {
        return Some(NotAnAssignment);
      }
      var record := new AssignmentRecord(files[i].document.assignment);
      refusal := record.Transition(r.action, r.reason, tools);
      if refusal.Some? {
        return;
      }
      var changed := record.Value();
      assert Replaced(files, i, changed) == Requested(files, r, i, tools);
      var generated := Compile(i, changed, tools);
      if generated.Err? {
        return Some(generated.error);
      }
      AcceptedStep(files, r, i, generated.value, tools);
      files := Replaced(files, i, changed);
      output.WriteProjection(generated.value);
    }
  }

  /** A request can only be accepted at the one file that matches it. */
  lemma AcceptsOnly(files: seq<File>, r: Request, tools: Tools)
    ensures !NameShaped(r.assignment) || NoMatch(files, r.assignment) || TwoMatches(files, r.assignment)
            ==> !Accepts(files, r, tools)
    ensures forall i | OnlyMatch(files, r.assignment, i) :: Accepts(files, r, tools) <==> AcceptsAt(files, r, i, tools)
  {
    hide Matches, NameShaped, MayTransition, Sound, Requested;
  }

  /** The step of an accepted request changes the one file that matches it. */
  lemma StepTaken(s: State, r: Request, i: nat, tools: Tools)
    requires AcceptsAt(s.files, r, i, tools)
    ensures Step(s, r, tools) == StepAt(s, r, i, tools)
  {
  }

  lemma AcceptedStep(files: seq<File>, r: Request, i: nat, generated: map<string, string>, tools: Tools)
    requires AcceptsAt(files, r, i, tools)
    requires AreRendered(generated, IndexOf(Documents(Requested(files, r, i, tools))), tools)
    ensures Accepts(files, r, tools)
    ensures forall projection ::
      Step(State(files, projection), r, tools) == State(Requested(files, r, i, tools), Projected(projection, generated))
  {
    hide AllRender, AreRendered, RenderedOf, Projected, Located;
    var index := IndexOf(Documents(Requested(files, r, i, tools)));
    RenderedOnce(generated, RenderedOf(index, tools), index, tools);
    forall projection
      ensures Step(State(files, projection), r, tools) == State(Requested(files, r, i, tools), Projected(projection, generated))
    {
      StepTaken(State(files, projection), r, i, tools);
    }
  }
}
