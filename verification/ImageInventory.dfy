/** tools/discover_container_images.py: filing every reference as an exact subject or a coverage gap,
    and the inventory document built from the filing. */
module ImageInventory {
  import opened Images
  import opened ImageDiscovery
  import opened Json
  import opened Ordering
  import opened Text
  import ScanAggregation
  import InventoryComparison

  // ---- filing references -------------------------------------------------------------------

  datatype Gap = Gap(kind: string, subject: string, source: string, reason: string)

  const EMPTY_REASON := "runtime image identity is empty or supplied outside committed source"
  const DYNAMIC_REASON := "runtime image identity is assembled dynamically and cannot be durable scan evidence"
  const UNPINNED_REASON :=
    "desired state names a tag rather than an exact sha256 digest; " +
    "runtime resolution would not be durable scan evidence"

  /** A reference that claims an exact digest. */
  predicate ClaimsDigest(r: Reference) {
    Contains(Strip(r.image), DIGEST_MARK)
  }

  function GapOf(r: Reference): Gap {
    var image := Strip(r.image);
    if image == "" then Gap("dynamic-image", "<empty>", r.source, EMPTY_REASON)
    else if '$' in image then Gap("dynamic-image", image, r.source, DYNAMIC_REASON)
    else Gap("unpinned-image", image, r.source, UNPINNED_REASON)
  }

  function GapsOf(refs: seq<Reference>): seq<Gap> {
    if refs == [] then []
    else
      var r := refs[|refs| - 1];
      GapsOf(refs[..|refs| - 1]) + if ClaimsDigest(r) then [] else [GapOf(r)]
  }

  /** Where the references place an image. */
  ghost function SourcesOf(refs: seq<Reference>, image: string): set<string> {
    set r | r in refs && ClaimsDigest(r) && Strip(r.image) == image :: r.source
  }

  function SourcesIn(discovered: map<string, set<string>>, image: string): set<string> {
    if image in discovered then discovered[image] else {}
  }

  /** The filing after these references: each exact one under its image, each other one as a gap. */
  ghost predicate Filed(
    before: map<string, set<string>>, after: map<string, set<string>>, gapsBefore: seq<Gap>, gapsAfter: seq<Gap>,
    refs: seq<Reference>)
  {
    && (forall image :: image in after <==> image in before || exists r :: r in refs && ClaimsDigest(r) && Strip(r.image) == image)
    && (forall image | image in after :: after[image] == SourcesIn(before, image) + SourcesOf(refs, image))
    && gapsAfter == gapsBefore + GapsOf(refs)
  }

  /** Every reference that claims a digest is well-formed. */
  ghost predicate WellFormed(refs: seq<Reference>) {
    forall r | r in refs && ClaimsDigest(r) :: IsPinned(Strip(r.image))
  }

  /** A parsed document, its place, and whether it is one of a workflow. */
  datatype Document = Document(content: Json, place: string, workflow: bool)

  function Placed(found: seq<Reference>, place: string): seq<Reference> {
    seq(|found|, i requires 0 <= i < |found| => Reference(found[i].image, place + found[i].source))
  }

  /** The references of a document, each with the place of the document in front. */
  function ReferencesIn(document: Document): seq<Reference> {
    Placed(Walk(ImageValues, document.content, "$"), document.place)
    + if document.workflow then Placed(Walk(ContainerValues, document.content, "$"), document.place) else []
  }

  function AllReferences(documents: seq<Document>): seq<Reference> {
    if documents == [] then []
    else AllReferences(documents[..|documents| - 1]) + ReferencesIn(documents[|documents| - 1])
  }

  class Discovery {
    var discovered: map<string, set<string>>
    var gaps: seq<Gap>

    constructor ()
      ensures discovered == map[] && gaps == []
    {
      discovered, gaps := map[], [];
    }

    /** Only exact references are ever filed as subjects. */
    ghost predicate Valid()
      reads this
    {
      forall image | image in discovered :: IsPinned(image) && discovered[image] != {}
    }

    method AddImage(image: string, source: string) returns (ok: bool)
      requires Valid()
      modifies this`discovered
      ensures Valid()
      ensures ok <==> IsPinned(image)
      ensures discovered == if ok then old(discovered)[image := SourcesIn(old(discovered), image) + {source}] else old(discovered)
    {
      ok := IsPinned(image);
      if ok {
        if image !in discovered {
          discovered := discovered[image := {}];
        }
        discovered := discovered[image := discovered[image] + {source}];
      }
    }

    method AddImageOrGap(r: Reference) returns (ok: bool)
      requires Valid()
      modifies this
      ensures Valid()
      ensures ok <==> WellFormed([r])
      ensures ok ==> Filed(old(discovered), discovered, old(gaps), gaps, [r])
    {
      hide IsPinned, Contains, Strip;
      var image := Strip(r.image);
      ok := true;
      assert r in [r] && [r][..0] == [] && GapsOf([]) == [];
      if image == "" {
        assert !ClaimsDigest(r) by { EmptyClaimsNothing(); }
        gaps := gaps + [Gap("dynamic-image", "<empty>", r.source, EMPTY_REASON)];
      } else if Contains(image, DIGEST_MARK) {
        ok := AddImage(image, r.source);
      } else {
        var kind := if '$' in image then "dynamic-image" else "unpinned-image";
        var reason := if kind == "dynamic-image" then DYNAMIC_REASON else UNPINNED_REASON;
        assert kind[0] == if '$' in image then 'd' else 'u';
        gaps := gaps + [Gap(kind, image, r.source, reason)];
      }
    }

    /** References that are images by their form; the first one that is not stops the discovery. */
    method AddExactReferences(refs: seq<Reference>) returns (ok: bool)
      requires Valid()
      modifies this`discovered
      ensures Valid()
      ensures ok <==> forall r | r in refs :: IsPinned(r.image)
      ensures ok ==> Filed(old(discovered), discovered, gaps, gaps, refs)
    {
      hide ClaimsDigest, IsPinned, GapOf, Strip;
      for i := 0 to |refs|
        invariant Valid()
        invariant forall r | r in refs[..i] :: IsPinned(r.image)
        invariant Filed(old(discovered), discovered, gaps, gaps, refs[..i])
      {
        ghost var discoveredSoFar := discovered;
        ok := AddImage(refs[i].image, refs[i].source);
        assert refs[i] in refs;
        if !ok { return false; }
        assert refs[..i + 1] == refs[..i] + [refs[i]];
        PinnedIsFiled(discoveredSoFar, discovered, gaps, refs[i]);
        FiledMore(old(discovered), discoveredSoFar, discovered, gaps, gaps, gaps, refs[..i], [refs[i]]);
      }
      assert refs[..|refs|] == refs;
      return true;
    }

    /** References of any kind: all are filed, or the first malformed one stops the discovery. */
    method AddReferences(refs: seq<Reference>) returns (ok: bool)
      requires Valid()
      modifies this
      ensures Valid()
      ensures ok <==> WellFormed(refs)
      ensures ok ==> Filed(old(discovered), discovered, old(gaps), gaps, refs)
    {
      hide ClaimsDigest, IsPinned, GapOf;
      for i := 0 to |refs|
        invariant Valid()
        invariant WellFormed(refs[..i])
        invariant Filed(old(discovered), discovered, old(gaps), gaps, refs[..i])
      {
        ghost var discoveredSoFar, gapsSoFar := discovered, gaps;
        ok := AddImageOrGap(refs[i]);
        assert refs[i] in refs && refs[i] in [refs[i]];
        if !ok { return false; }
        assert refs[..i + 1] == refs[..i] + [refs[i]];
        FiledMore(old(discovered), discoveredSoFar, discovered, old(gaps), gapsSoFar, gaps, refs[..i], [refs[i]]);
      }
      assert refs[..|refs|] == refs;
      return true;
    }

    /** One parsed document: everything that its walks find is filed, or the discovery stops. */
    method AddDocument(document: Document) returns (ok: bool)
      requires Valid()
      modifies this
      ensures Valid()
      ensures ok <==> WellFormed(ReferencesIn(document))
      ensures ok ==> Filed(old(discovered), discovered, old(gaps), gaps, ReferencesIn(document))
    {
      hide Walk, Placed, ClaimsDigest, IsPinned, GapOf;
      var values := Placed(Walk(ImageValues, document.content, "$"), document.place);
      assert values + [] == values;
      ok := AddReferences(values);
      if ok && document.workflow {
        ghost var discoveredSoFar, gapsSoFar := discovered, gaps;
        var containers := Placed(Walk(ContainerValues, document.content, "$"), document.place);
        ok := AddReferences(containers);
        if ok {
          FiledMore(old(discovered), discoveredSoFar, discovered, old(gaps), gapsSoFar, gaps, values, containers);
        }
      }
    }

    /** The loop over all documents: image values first, then the containers of a workflow. */
    method AddDocuments(documents: seq<Document>) returns (ok: bool)
      requires Valid()
      modifies this
      ensures Valid()
      ensures ok <==> WellFormed(AllReferences(documents))
      ensures ok ==> Filed(old(discovered), discovered, old(gaps), gaps, AllReferences(documents))
    {
      hide Walk, Placed, ClaimsDigest, IsPinned, GapOf;
      for i := 0 to |documents|
        invariant Valid()
        invariant WellFormed(AllReferences(documents[..i]))
        invariant Filed(old(discovered), discovered, old(gaps), gaps, AllReferences(documents[..i]))
      {
        ghost var discoveredSoFar, gapsSoFar := discovered, gaps;
        ghost var refs, more := AllReferences(documents[..i]), ReferencesIn(documents[i]);
        assert documents[..i + 1][..i] == documents[..i];
        ok := AddDocument(documents[i]);
        if !ok {
          AllReferencesHold(documents, i);
          return false;
        }
        FiledMore(old(discovered), discoveredSoFar, discovered, old(gaps), gapsSoFar, gaps, refs, more);
      }
      assert documents[..|documents|] == documents;
      return true;
    }

    /** Succeeds exactly when something was discovered and no two images share a generated id. */
    method BuildInventory(imageId: (string, string) -> string, exclusions: seq<(string, string)>)
      returns (r: Option<Inventory>)
      requires Valid()
      ensures r.Some? <==> discovered != map[] && DistinctIds(discovered.Keys, imageId)
      ensures r.Some? ==> IsInventory(r.value, discovered, gaps, imageId) && r.value.scopeExclusions == exclusions
    {
      hide IsPinned, Ascending, SourcesIn, RecordOf, IdOf, IdsTaken, DistinctIds, TextsInOrder, GapsInOrder, TextLe;
      var names := TextsInOrder(discovered.Keys);
      var images: seq<ImageRecord> := [];
      var ids: set<string> := {};
      NoIdsTaken(imageId);
      for i := 0 to |names|
        invariant |images| == i
        invariant forall k | 0 <= k < i :: images[k] == RecordOf(names[k], discovered[names[k]], imageId)
        invariant IdsTaken(ids, names[..i], imageId)
      {
        var image := names[i];
        assert image in discovered;
        var id := IdOf(image, imageId);
        if id in ids {
          IdShared(ids, names, i, discovered.Keys, imageId);
          return None;
        }
        IdTaken(ids, names, i, imageId);
        ids := ids + {id};
        images := images + [RecordOf(image, discovered[image], imageId)];
      }
      assert names[..|names|] == names;
      IdsDistinct(ids, names, discovered.Keys, imageId);
      if images == [] {
        assert discovered.Keys == {};
        return None;
      }
      assert names[0] in discovered;
      return Some(Inventory(images, GapsInOrder(set g | g in gaps), exclusions));
    }
  }

  // ---- the steps of a filing ---------------------------------------------------------------

  lemma EmptyClaimsNothing()
    ensures !Contains("", DIGEST_MARK)
  {
  }

  /** An image by its form claims its digest, and has no spaces around it. */
  lemma PinnedClaims(r: Reference)
    requires IsPinned(r.image)
    ensures ClaimsDigest(r) && Strip(r.image) == r.image
  {
    var image := r.image;
    assert IsAlphanumeric(image[0]) by { assert image[..|image| - 72][0] == image[0]; }
    assert image[|image| - 1] in image[|image| - 64..];
    assert image[|image| - 72..][..|DIGEST_MARK|] == image[|image| - 72..|image| - 64];
  }

  lemma PinnedIsFiled(before: map<string, set<string>>, after: map<string, set<string>>, gaps: seq<Gap>, r: Reference)
    requires IsPinned(r.image) && after == before[r.image := SourcesIn(before, r.image) + {r.source}]
    ensures Filed(before, after, gaps, gaps, [r])
  {
    hide IsPinned, ClaimsDigest, Strip;
    PinnedClaims(r);
    assert r in [r] && [r][..0] == [] && GapsOf([]) == [];
  }

  lemma FiledMore(
    before: map<string, set<string>>, between: map<string, set<string>>, after: map<string, set<string>>,
    gapsBefore: seq<Gap>, gapsBetween: seq<Gap>, gapsAfter: seq<Gap>, refs: seq<Reference>, more: seq<Reference>)
    requires Filed(before, between, gapsBefore, gapsBetween, refs)
    requires Filed(between, after, gapsBetween, gapsAfter, more)
    ensures Filed(before, after, gapsBefore, gapsAfter, refs + more)
  {
    hide ClaimsDigest, Strip, GapsOf, SourcesOf, SourcesIn;
    var all := refs + more;
    GapsOfTwo(refs, more);
    assert forall x :: x in all <==> x in refs || x in more;
    forall image | image in after ensures after[image] == SourcesIn(before, image) + SourcesOf(all, image) {
      SourcesOfTwo(refs, more, image);
      SourcesFiled(before, between, refs, image);
    }
  }

  lemma {:induction false} GapsOfTwo(refs: seq<Reference>, more: seq<Reference>)
    ensures GapsOf(refs + more) == GapsOf(refs) + GapsOf(more)
  {
    hide ClaimsDigest, GapOf;
    if more == [] {
      assert refs + more == refs;
    } else {
      GapsOfTwo(refs, more[..|more| - 1]);
      assert (refs + more)[..|refs + more| - 1] == refs + more[..|more| - 1];
    }
  }

  lemma SourcesOfTwo(refs: seq<Reference>, more: seq<Reference>, image: string)
    ensures SourcesOf(refs + more, image) == SourcesOf(refs, image) + SourcesOf(more, image)
  {
    hide ClaimsDigest, Strip;
    assert forall x :: x in refs + more <==> x in refs || x in more;
  }

  /** The references of every document are among all of them. */
  lemma {:induction false} AllReferencesHold(documents: seq<Document>, i: nat)
    requires i < |documents|
    ensures forall r | r in ReferencesIn(documents[i]) :: r in AllReferences(documents)
  {
    hide ReferencesIn;
    if i == |documents| - 1 {
    } else {
      AllReferencesHold(documents[..|documents| - 1], i);
    }
  }

  lemma {:induction false} AllReferencesAreOfDocuments(documents: seq<Document>, r: Reference) returns (i: nat)
    requires r in AllReferences(documents)
    ensures i < |documents| && r in ReferencesIn(documents[i])
  {
    hide ReferencesIn;
    i := |documents| - 1;
    if r !in ReferencesIn(documents[i]) {
      i := AllReferencesAreOfDocuments(documents[..|documents| - 1], r);
    }
  }

  lemma SourcesFiled(before: map<string, set<string>>, after: map<string, set<string>>, refs: seq<Reference>, image: string)
    requires forall i :: i in after <==> i in before || exists r :: r in refs && ClaimsDigest(r) && Strip(r.image) == i
    requires forall i | i in after :: after[i] == SourcesIn(before, i) + SourcesOf(refs, i)
    ensures SourcesIn(after, image) == SourcesIn(before, image) + SourcesOf(refs, image)
  {
  }

  // ---- the inventory -----------------------------------------------------------------------

  datatype ImageRecord = ImageRecord(id: string, image: string, repository: string, digest: string, sources: seq<string>)

  datatype Inventory = Inventory(images: seq<ImageRecord>, gaps: seq<Gap>, scopeExclusions: seq<(string, string)>)

  function IdOf(image: string, imageId: (string, string) -> string): string
    requires IsPinned(image)
  {
    imageId(Repository(image), DigestHex(image))
  }

  ghost predicate DistinctIds(images: set<string>, imageId: (string, string) -> string)
    requires forall image | image in images :: IsPinned(image)
  {
    forall a, b | a in images && b in images && a != b :: IdOf(a, imageId) != IdOf(b, imageId)
  }

  /** The ids of these images, no two of them the same. */
  ghost predicate IdsTaken(ids: set<string>, names: seq<string>, imageId: (string, string) -> string)
    requires forall image | image in names :: IsPinned(image)
  {
    && ids == (set k | 0 <= k < |names| && names[k] in names :: IdOf(names[k], imageId))
    && forall j, k | 0 <= j < k < |names| :: IdOf(names[j], imageId) != IdOf(names[k], imageId)
  }

  lemma NoIdsTaken(imageId: (string, string) -> string)
    ensures IdsTaken({}, [], imageId)
  {
  }

  lemma IdShared(ids: set<string>, names: seq<string>, i: nat, images: set<string>, imageId: (string, string) -> string)
    requires i < |names| && Ascending(names, TextLe) && forall image | image in names :: image in images
    requires forall image | image in images :: IsPinned(image)
    requires IdsTaken(ids, names[..i], imageId) && IdOf(names[i], imageId) in ids
    ensures !DistinctIds(images, imageId)
  {
    hide IdOf, IsPinned, TextLe;
    NoRepeats(names, TextLe);
    var k :| 0 <= k < i && IdOf(names[..i][k], imageId) == IdOf(names[i], imageId);
    assert names[k] in images && names[i] in images;
  }

  lemma IdTaken(ids: set<string>, names: seq<string>, i: nat, imageId: (string, string) -> string)
    requires i < |names| && forall image | image in names :: IsPinned(image)
    requires IdsTaken(ids, names[..i], imageId) && IdOf(names[i], imageId) !in ids
    ensures IdsTaken(ids + {IdOf(names[i], imageId)}, names[..i + 1], imageId)
  {
    hide IdOf, IsPinned;
    var before, now := names[..i], names[..i + 1];
    assert forall k | 0 <= k < i :: now[k] == before[k];
    assert now[i] == names[i];
    forall j, k | 0 <= j < k < |now| ensures IdOf(now[j], imageId) != IdOf(now[k], imageId) {
      assert IdOf(before[j], imageId) in ids;
    }
  }

  lemma IdsDistinct(ids: set<string>, names: seq<string>, images: set<string>, imageId: (string, string) -> string)
    requires (forall image :: image in names <==> image in images) && forall image | image in images :: IsPinned(image)
    requires IdsTaken(ids, names, imageId)
    ensures DistinctIds(images, imageId)
  {
    hide IdOf, IsPinned;
    forall a, b | a in images && b in images && a != b ensures IdOf(a, imageId) != IdOf(b, imageId) {
      assert a in names && b in names;
      var j :| 0 <= j < |names| && names[j] == a;
      var k :| 0 <= k < |names| && names[k] == b;
    }
  }

  function RecordOf(image: string, sources: set<string>, imageId: (string, string) -> string): ImageRecord
    requires IsPinned(image)
  {
    ImageRecord(IdOf(image, imageId), image, Repository(image), Digest(image), TextsInOrder(sources))
  }

  function GapKey(g: Gap): (string, (string, (string, string))) {
    (g.kind, (g.subject, (g.source, g.reason)))
  }

  function GapLe(): (Gap, Gap) -> bool {
    (g, h) => PairLe(TextLe, PairLe(TextLe, PairLe(TextLe, TextLe)))(GapKey(g), GapKey(h))
  }

  lemma GapOrder()
    ensures TotalOrder(GapLe())
  {
    hide TextLe, PairLe;
    TextOrder();
    PairOrder(TextLe, TextLe);
    PairOrder(TextLe, PairLe(TextLe, TextLe));
    PairOrder(TextLe, PairLe(TextLe, PairLe(TextLe, TextLe)));
    var le := PairLe(TextLe, PairLe(TextLe, PairLe(TextLe, TextLe)));
    forall g, h | GapLe()(g, h) && GapLe()(h, g) ensures g == h {
      assert le(GapKey(g), GapKey(h)) && le(GapKey(h), GapKey(g));
    }
    forall g, h, k | GapLe()(g, h) && GapLe()(h, k) ensures GapLe()(g, k) {
      assert le(GapKey(g), GapKey(h)) && le(GapKey(h), GapKey(k));
    }
    forall g, h ensures GapLe()(g, h) || GapLe()(h, g) {
      assert le(GapKey(g), GapKey(h)) || le(GapKey(h), GapKey(g));
    }
  }

  /** Each distinct gap once, in order. */
  function GapsInOrder(gaps: set<Gap>): seq<Gap> {
    GapOrder();
    InOrder(gaps, GapLe())
  }

  /** One record for each discovered image, and each distinct gap once, both in order. */
  ghost predicate IsInventory(
    inventory: Inventory, discovered: map<string, set<string>>, gaps: seq<Gap>, imageId: (string, string) -> string)
    requires forall image | image in discovered :: IsPinned(image)
  {
    var names := TextsInOrder(discovered.Keys);
    && |inventory.images| == |names|
    && (forall k | 0 <= k < |names| :: inventory.images[k] == RecordOf(names[k], discovered[names[k]], imageId))
    && inventory.gaps == GapsInOrder(set g | g in gaps)
  }

  lemma {:induction false} NoRepeats<T>(s: seq<T>, le: (T, T) -> bool)
    requires Ascending(s, le)
    ensures forall i, j | 0 <= i < j < |s| :: s[i] != s[j]
  {
    if s == [] {
    } else {
      NoRepeats(s[1..], le);
      forall i, j | 0 <= i < j < |s| ensures s[i] != s[j] {
        assert s[j] == s[1..][j - 1];
        assert i > 0 ==> s[i] == s[1..][i - 1];
      }
    }
  }

  // ---- the inventory document --------------------------------------------------------------

  const EVIDENCE_SEMANTICS :=
    "Digest identity is proven by Git; scan results are workflow artifacts. " +
    "Coverage gaps and missing results are unknown, never zero findings."

  function TextJson(s: string): Json { Str(s) }

  function ImageJson(r: ImageRecord): Json {
    Obj(map["id" := Str(r.id), "image" := Str(r.image), "repository" := Str(r.repository), "digest" := Str(r.digest),
            "sources" := Arr(Map(r.sources, TextJson))])
  }

  function GapJson(g: Gap): Json {
    Obj(map["kind" := Str(g.kind), "subject" := Str(g.subject), "source" := Str(g.source), "reason" := Str(g.reason)])
  }

  function ExclusionJson(e: (string, string)): Json {
    Obj(map["paths" := Str(e.0), "reason" := Str(e.1)])
  }

  /** An inventory document has the lists its two readers look for. */
  function InventoryJson(inventory: Inventory): (document: Json)
    ensures InventoryComparison.Loaded(document)
    ensures InventoryComparison.Rows(document, "images") == Map(inventory.images, ImageJson)
    ensures InventoryComparison.Rows(document, "coverageGaps") == Map(inventory.gaps, GapJson)
    ensures InventoryComparison.Rows(document, "scopeExclusions") == Map(inventory.scopeExclusions, ExclusionJson)
  {
    Obj(map["schemaVersion" := Int(1), "evidenceSemantics" := Str(EVIDENCE_SEMANTICS),
            "images" := Arr(Map(inventory.images, ImageJson)), "coverageGaps" := Arr(Map(inventory.gaps, GapJson)),
            "scopeExclusions" := Arr(Map(inventory.scopeExclusions, ExclusionJson))])
  }

  /** The subjects of a filing: each image with its own digest. */
  function SubjectsOf(images: set<string>): set<Subject>
    requires forall image | image in images :: IsPinned(image)
  {
    set image | image in images :: (image, Digest(image))
  }

  lemma RecordReads(image: string, sources: set<string>, imageId: (string, string) -> string)
    requires IsPinned(image)
    ensures ScanAggregation.ReadImage(ImageJson(RecordOf(image, sources, imageId))) == Some((image, Digest(image)))
  {
  }

  /** The aggregator accepts every inventory that was built, and reads back from it exactly the
      discovered subjects and the number of distinct gaps. */
  lemma BuiltInventoryLoads(
    inventory: Inventory, discovered: map<string, set<string>>, gaps: seq<Gap>, imageId: (string, string) -> string)
    requires discovered != map[] && forall image | image in discovered :: IsPinned(image)
    requires IsInventory(inventory, discovered, gaps, imageId)
    ensures ScanAggregation.InventoryReads(
              InventoryJson(inventory), ScanAggregation.Inventory(SubjectsOf(discovered.Keys), |set g | g in gaps|))
  {
    hide IsPinned, Digest, RecordOf, ScanAggregation.ReadImage, ImageJson, GapJson, TextsInOrder, TextLe, GapLe, Ascending,
      SubjectsOf, ScanAggregation.ImagesRead, GapsInOrder;
    var names, entries := TextsInOrder(discovered.Keys), Map(inventory.images, ImageJson);
    EntriesRead(names, entries, inventory.images, discovered, imageId);
    assert discovered.Keys != {};
    GapsCount(set g | g in gaps);
    GapsAreObjects(inventory.gaps);
  }

  lemma GapsCount(gaps: set<Gap>)
    ensures |GapsInOrder(gaps)| == |gaps|
  {
  }

  lemma GapsAreObjects(gaps: seq<Gap>)
    ensures forall j | j in Map(gaps, GapJson) :: j.Obj?
  {
  }

  lemma EntriesRead(
    names: seq<string>, entries: seq<Json>, images: seq<ImageRecord>, discovered: map<string, set<string>>,
    imageId: (string, string) -> string)
    requires Ascending(names, TextLe) && forall image :: image in names <==> image in discovered
    requires forall image | image in discovered :: IsPinned(image)
    requires |images| == |names| && entries == Map(images, ImageJson)
    requires forall k | 0 <= k < |names| :: names[k] in discovered && images[k] == RecordOf(names[k], discovered[names[k]], imageId)
    ensures ScanAggregation.ImagesRead(entries, SubjectsOf(discovered.Keys))
  {
    hide IsPinned, Digest, RecordOf, ScanAggregation.ReadImage, ImageJson, TextLe, Ascending;
    NoRepeats(names, TextLe);
    forall k | 0 <= k < |names| ensures ScanAggregation.ReadImage(entries[k]) == Some((names[k], Digest(names[k]))) {
      RecordReads(names[k], discovered[names[k]], imageId);
    }
    forall image | image in discovered
      ensures exists k :: 0 <= k < |entries| && ScanAggregation.ReadImage(entries[k]) == Some((image, Digest(image)))
    {
      assert image in names;
      var k :| 0 <= k < |names| && names[k] == image;
    }
  }

  /** The gaps are those of the references that claim no digest. */
  lemma {:induction false} InGaps(refs: seq<Reference>, gap: Gap)
    ensures gap in GapsOf(refs) <==> exists r :: r in refs && !ClaimsDigest(r) && GapOf(r) == gap
  {
    hide ClaimsDigest, GapOf;
    if refs == [] {
    } else {
      var before, last := refs[..|refs| - 1], refs[|refs| - 1];
      InGaps(before, gap);
      assert forall r :: r in refs <==> r in before || r == last;
    }
  }

  // ---- the whole discovery -----------------------------------------------------------------

  /** What a discovery that starts with nothing knows after these references. */
  ghost function DiscoveredIn(refs: seq<Reference>): map<string, set<string>> {
    map r | r in refs && ClaimsDigest(r) :: Strip(r.image) := SourcesOf(refs, Strip(r.image))
  }

  lemma FiledFromNothing(discovered: map<string, set<string>>, gaps: seq<Gap>, refs: seq<Reference>)
    requires Filed(map[], discovered, [], gaps, refs)
    ensures discovered == DiscoveredIn(refs) && gaps == GapsOf(refs)
  {
    hide ClaimsDigest, Strip, GapsOf;
    forall image ensures image in discovered <==> image in DiscoveredIn(refs) {
    }
    forall image | image in discovered ensures discovered[image] == DiscoveredIn(refs)[image] {
      assert discovered[image] == SourcesOf(refs, image);
    }
  }

  /** Only well-formed references become subjects. */
  lemma DiscoveredArePinned(refs: seq<Reference>)
    requires WellFormed(refs)
    ensures forall image | image in DiscoveredIn(refs) :: IsPinned(image)
  {
    hide ClaimsDigest, Strip, IsPinned;
  }

  ghost predicate Discoverable(refs: seq<Reference>, imageId: (string, string) -> string) {
    WellFormed(refs) && DiscoveredIn(refs) != map[] && (DiscoveredArePinned(refs); DistinctIds(DiscoveredIn(refs).Keys, imageId))
  }

  /** The inventory of these references, and of gaps noted beside them. */
  ghost predicate IsInventoryOf(
    inventory: Inventory, refs: seq<Reference>, noted: seq<Gap>, imageId: (string, string) -> string)
    requires WellFormed(refs)
  {
    DiscoveredArePinned(refs);
    IsInventory(inventory, DiscoveredIn(refs), GapsOf(refs) + noted, imageId)
  }

  /** Everything a discovery reads: the parsed documents, the references that its scans of lines and its
      contracts yield (the exact ones by their form, the others of any kind), and the gaps that the
      default images of charts leave. */
  datatype Feeds = Feeds(documents: seq<Document>, exact: seq<Reference>, loose: seq<Reference>, noted: seq<Gap>)

  function ReferencesOf(feeds: Feeds): seq<Reference> {
    AllReferences(feeds.documents) + feeds.loose + feeds.exact
  }

  /** From everything read to the inventory: it is built exactly when every exact reference and every
      claimed digest is well-formed, there is one, and the generated ids are distinct. */
  method Discover(feeds: Feeds, imageId: (string, string) -> string, exclusions: seq<(string, string)>)
    returns (r: Option<Inventory>)
    ensures r.Some? <==> (forall e | e in feeds.exact :: IsPinned(e.image)) && Discoverable(ReferencesOf(feeds), imageId)
    ensures r.Some? ==> && IsInventoryOf(r.value, ReferencesOf(feeds), feeds.noted, imageId)
                        && r.value.scopeExclusions == exclusions
  {
    hide AllReferences, ClaimsDigest, IsPinned, GapsOf, Filed, DistinctIds, DiscoveredIn, IsInventory;
    var discovery := new Discovery();
    var ok := discovery.AddDocuments(feeds.documents);
    if !ok { return None; }
    ghost var discovered, gaps, refs := discovery.discovered, discovery.gaps, AllReferences(feeds.documents);
    ok := discovery.AddReferences(feeds.loose);
    if !ok { return None; }
    FiledMore(map[], discovered, discovery.discovered, [], gaps, discovery.gaps, refs, feeds.loose);
    discovered, gaps, refs := discovery.discovered, discovery.gaps, refs + feeds.loose;
    ok := discovery.AddExactReferences(feeds.exact);
    if !ok { return None; }
    FiledMore(map[], discovered, discovery.discovered, [], gaps, gaps, refs, feeds.exact);
    FiledFromNothing(discovery.discovered, discovery.gaps, ReferencesOf(feeds));
    ExactAreWellFormed(feeds.exact);
    discovery.gaps := discovery.gaps + feeds.noted;
    r := discovery.BuildInventory(imageId, exclusions);
  }

  lemma ExactAreWellFormed(refs: seq<Reference>)
    requires forall r | r in refs :: IsPinned(r.image)
    ensures WellFormed(refs)
  {
    hide ClaimsDigest, IsPinned, Strip;
    forall r | r in refs ensures IsPinned(Strip(r.image)) {
      PinnedClaims(r);
    }
  }

  /** The order in which references are found does not matter, nor how often one is found. */
  lemma InventoryAnyOrder(
    a: seq<Reference>, b: seq<Reference>, noted: seq<Gap>, imageId: (string, string) -> string, inventory: Inventory)
    requires forall r :: r in a <==> r in b
    ensures DiscoveredIn(a) == DiscoveredIn(b) && (Discoverable(a, imageId) <==> Discoverable(b, imageId))
    ensures WellFormed(a) ==> (IsInventoryOf(inventory, a, noted, imageId) <==> IsInventoryOf(inventory, b, noted, imageId))
  {
    hide ClaimsDigest, Strip, GapOf, IsPinned, DistinctIds, RecordOf, TextsInOrder, GapsInOrder;
    forall image ensures SourcesOf(a, image) == SourcesOf(b, image) {
    }
    assert DiscoveredIn(a) == DiscoveredIn(b);
    forall g ensures g in GapsOf(a) + noted <==> g in GapsOf(b) + noted {
      InGaps(a, g);
      InGaps(b, g);
    }
    assert (set g | g in GapsOf(a) + noted) == (set g | g in GapsOf(b) + noted);
  }

  /** Every source of a discovered image is in the record of the image. */
  lemma SourceIsRecorded(
    inventory: Inventory, discovered: map<string, set<string>>, gaps: seq<Gap>, imageId: (string, string) -> string,
    image: string, source: string)
    requires forall i | i in discovered :: IsPinned(i)
    requires IsInventory(inventory, discovered, gaps, imageId)
    requires image in discovered && source in discovered[image]
    ensures exists record :: record in inventory.images && record.image == image && source in record.sources
  {
    hide IsPinned, IdOf, Digest, Repository, Ascending, TextLe, GapsInOrder;
    var names := TextsInOrder(discovered.Keys);
    assert image in names;
    var j :| 0 <= j < |names| && names[j] == image;
    assert inventory.images[j] in inventory.images;
  }

  /** Every reference of a discovery is in the inventory: an exact one among the sources of its
      subject, any other among the gaps. */
  lemma EveryReferenceIsAccounted(
    refs: seq<Reference>, noted: seq<Gap>, r: Reference, inventory: Inventory, imageId: (string, string) -> string)
    requires WellFormed(refs) && r in refs
    requires IsInventoryOf(inventory, refs, noted, imageId)
    ensures if ClaimsDigest(r)
            then exists record :: record in inventory.images && record.image == Strip(r.image) && r.source in record.sources
            else GapOf(r) in inventory.gaps
  {
    hide ClaimsDigest, GapOf, Strip, IsPinned, RecordOf, TextsInOrder, TextLe, GapLe, Ascending, WellFormed;
    DiscoveredArePinned(refs);
    if ClaimsDigest(r) {
      assert Strip(r.image) in DiscoveredIn(refs) && r.source in DiscoveredIn(refs)[Strip(r.image)];
      SourceIsRecorded(inventory, DiscoveredIn(refs), GapsOf(refs) + noted, imageId, Strip(r.image), r.source);
    } else {
      InGaps(refs, GapOf(r));
    }
  }

  /** The path leads to something that the document names as an image: as an image value or, in a
      workflow, as a container. */
  ghost predicate Names(document: Document, path: seq<Step>, image: string) {
    || NamesImage(ImageValues, document.content, path, image)
    || (document.workflow && NamesImage(ContainerValues, document.content, path, image))
  }

  /** The reference that a path of a document stands for. */
  function ReferenceAt(document: Document, path: seq<Step>, image: string): Reference {
    Reference(image, document.place + ("$" + PathText(path)))
  }

  /** The references of a document are exactly what its paths name. */
  lemma ReferencesAreNamed(document: Document, r: Reference)
    ensures r in ReferencesIn(document)
            <==> exists path :: Names(document, path, r.image) && r == ReferenceAt(document, path, r.image)
  {
    hide NamesImage, Walk, PathText, Placed;
    PlacedAreNamed(ImageValues, document, r);
    PlacedAreNamed(ContainerValues, document, r);
  }

  lemma PlacedAreNamed(scan: Scan, document: Document, r: Reference)
    ensures r in Placed(Walk(scan, document.content, "$"), document.place)
            <==> exists path :: NamesImage(scan, document.content, path, r.image) && r == ReferenceAt(document, path, r.image)
  {
    hide NamesImage, Walk, PathText;
    var found := Walk(scan, document.content, "$");
    var placed := Placed(found, document.place);
    if r in placed {
      var i :| 0 <= i < |placed| && placed[i] == r;
      var path := WalkSound(scan, document.content, "$", found[i]);
      assert r == ReferenceAt(document, path, r.image);
    }
    if path :| NamesImage(scan, document.content, path, r.image) && r == ReferenceAt(document, path, r.image) {
      WalkComplete(scan, document.content, "$", path, r.image);
      var i :| 0 <= i < |found| && found[i] == Reference(r.image, "$" + PathText(path));
      assert placed[i] == r;
    }
  }

  /** Every image that a path of any document names, at any depth, is in the inventory, whatever other
      references there are: an exact one among the sources of its subject, any other among the gaps. */
  lemma EveryImageIsAccounted(
    documents: seq<Document>, k: nat, path: seq<Step>, image: string, refs: seq<Reference>, noted: seq<Gap>,
    inventory: Inventory, imageId: (string, string) -> string)
    requires k < |documents| && Names(documents[k], path, image)
    requires forall r | r in AllReferences(documents) :: r in refs
    requires WellFormed(refs) && IsInventoryOf(inventory, refs, noted, imageId)
    ensures var r := ReferenceAt(documents[k], path, image);
            if ClaimsDigest(r)
            then exists record :: record in inventory.images && record.image == Strip(image) && r.source in record.sources
            else GapOf(r) in inventory.gaps
  {
    hide Names, PathText, ClaimsDigest, GapOf, Strip, IsPinned, AllReferences, ReferencesIn, IsInventoryOf, WellFormed;
    var r := ReferenceAt(documents[k], path, image);
    ReferencesAreNamed(documents[k], r);
    AllReferencesHold(documents, k);
    EveryReferenceIsAccounted(refs, noted, r, inventory, imageId);
  }

  /** A path of one of these documents names the image with its digest. */
  ghost predicate NamedExactly(documents: seq<Document>, image: string) {
    exists k, path, text :: && 0 <= k < |documents| && Names(documents[k], path, text)
                            && Strip(text) == image && ClaimsDigest(ReferenceAt(documents[k], path, text))
  }

  /** One of these references claims the image with its digest. */
  ghost predicate ClaimedIn(refs: seq<Reference>, image: string) {
    exists r :: r in refs && ClaimsDigest(r) && Strip(r.image) == image
  }

  lemma NamedIsClaimed(documents: seq<Document>, image: string)
    ensures NamedExactly(documents, image) <==> ClaimedIn(AllReferences(documents), image)
  {
    hide Names, PathText, Strip, Contains, AllReferences, ReferencesIn;
    var refs := AllReferences(documents);
    if r :| r in refs && ClaimsDigest(r) && Strip(r.image) == image {
      var k := AllReferencesAreOfDocuments(documents, r);
      ReferencesAreNamed(documents[k], r);
    }
    if k, path, text :| && 0 <= k < |documents| && Names(documents[k], path, text)
                        && Strip(text) == image && ClaimsDigest(ReferenceAt(documents[k], path, text)) {
      var r := ReferenceAt(documents[k], path, text);
      ReferencesAreNamed(documents[k], r);
      AllReferencesHold(documents, k);
      assert r in refs && Strip(r.image) == image;
    }
  }

  /** Where a subject comes from: a path of a document names it with its digest, or a reference of the
      other feeds claims it. */
  lemma SubjectsAreNamed(feeds: Feeds, image: string)
    ensures image in DiscoveredIn(ReferencesOf(feeds))
            <==> NamedExactly(feeds.documents, image) || ClaimedIn(feeds.loose, image) || ClaimedIn(feeds.exact, image)
  {
    hide NamedExactly, AllReferences, ClaimsDigest, Strip;
    NamedIsClaimed(feeds.documents, image);
    var refs := ReferencesOf(feeds);
    assert forall r :: r in refs <==> r in AllReferences(feeds.documents) || r in feeds.loose || r in feeds.exact;
  }

  // ---- what the filing means ---------------------------------------------------------------

  /** A reference claims a digest when the mark stands anywhere in it. */
  lemma ClaimsIff(r: Reference)
    ensures ClaimsDigest(r) <==> exists before, after :: Strip(r.image) == before + "@sha256:" + after
  {
    ContainsIff(Strip(r.image), "@sha256:");
  }

  /** What is said of a reference without a digest: kind, subject, source and reason. */
  lemma GapMeans(r: Reference)
    ensures Strip(r.image) == "" ==>
      GapOf(r) == Gap("dynamic-image", "<empty>", r.source, "runtime image identity is empty or supplied outside committed source")
    ensures Strip(r.image) != "" && '$' in Strip(r.image) ==>
      GapOf(r) == Gap("dynamic-image", Strip(r.image), r.source,
                      "runtime image identity is assembled dynamically and cannot be durable scan evidence")
    ensures Strip(r.image) != "" && '$' !in Strip(r.image) ==>
      GapOf(r) == Gap("unpinned-image", Strip(r.image), r.source, UNPINNED_REASON)
    ensures UNPINNED_REASON == "desired state names a tag rather than an exact sha256 digest; "
                               + "runtime resolution would not be durable scan evidence"
  {
    hide Strip;
  }

  /** The record of an image: its id is made of its repository and its digest, and its sources are all places
      where a reference claims it, in order. */
  lemma RecordsMean(
    inventory: Inventory, refs: seq<Reference>, noted: seq<Gap>, imageId: (string, string) -> string,
    record: ImageRecord, repository: string, hex: string, source: string)
    requires WellFormed(refs) && IsInventoryOf(inventory, refs, noted, imageId) && record in inventory.images
    requires IsImageOf(record.image, repository, hex)
    ensures record.id == imageId(repository, hex) && record.repository == repository && record.digest == "sha256:" + hex
    ensures Ascending(record.sources, TextLe)
    ensures source in record.sources
            <==> exists r :: r in refs && ClaimsDigest(r) && Strip(r.image) == record.image && r.source == source
  {
    hide ClaimsDigest, Strip, GapsOf, GapsInOrder, IsPinned, IsImageOf, RecordOf, Repository, DigestHex, Digest, TextLe, Ascending;
    DiscoveredArePinned(refs);
    var discovered := DiscoveredIn(refs);
    var names := TextsInOrder(discovered.Keys);
    var k :| 0 <= k < |names| && inventory.images[k] == record;
    assert names[k] in names;
    RecordParts(names[k], discovered[names[k]], imageId);
    PinnedIff(record.image, repository, hex);
    assert record.sources == TextsInOrder(SourcesOf(refs, record.image));
  }

  lemma RecordParts(image: string, sources: set<string>, imageId: (string, string) -> string)
    requires IsPinned(image)
    ensures var record := RecordOf(image, sources, imageId);
            && record.image == image && record.sources == TextsInOrder(sources)
            && record.id == imageId(Repository(image), DigestHex(image))
            && record.repository == Repository(image) && record.digest == Digest(image)
  {
    hide TextsInOrder;
  }

  /** The records are listed by image, each image once; and the gaps by kind, subject, source and reason. */
  lemma InventoryIsOrdered(inventory: Inventory, refs: seq<Reference>, noted: seq<Gap>, imageId: (string, string) -> string)
    requires WellFormed(refs) && IsInventoryOf(inventory, refs, noted, imageId)
    ensures Ascending(Map(inventory.images, (r: ImageRecord) => r.image), TextLe)
    ensures Ascending(inventory.gaps, GapLe())
    ensures forall g :: g in inventory.gaps <==> g in noted || exists r :: r in refs && !ClaimsDigest(r) && GapOf(r) == g
  {
    hide ClaimsDigest, Strip, GapOf, IsPinned, RecordOf, TextLe, Ascending, GapLe;
    DiscoveredArePinned(refs);
    var discovered := DiscoveredIn(refs);
    var names := TextsInOrder(discovered.Keys);
    forall k | 0 <= k < |names| ensures names[k] in discovered && inventory.images[k].image == names[k] {
      assert names[k] in names;
      RecordIsNamed(names[k], discovered[names[k]], imageId);
    }
    assert Map(inventory.images, (r: ImageRecord) => r.image) == names;
    forall g ensures g in inventory.gaps <==> g in noted || exists r :: r in refs && !ClaimsDigest(r) && GapOf(r) == g {
      InGaps(refs, g);
    }
  }

  /** The order of gaps: the first of kind, subject, source and reason in which two differ decides. */
  lemma GapLeIff(g: Gap, h: Gap)
    ensures GapLe()(g, h)
            <==> if g.kind != h.kind then TextLe(g.kind, h.kind)
                 else if g.subject != h.subject then TextLe(g.subject, h.subject)
                 else if g.source != h.source then TextLe(g.source, h.source)
                 else TextLe(g.reason, h.reason)
  {
    var p, q := GapKey(g), GapKey(h);
    PairLeIff(TextLe, PairLe(TextLe, PairLe(TextLe, TextLe)), p, q);
    PairLeIff(TextLe, PairLe(TextLe, TextLe), p.1, q.1);
    PairLeIff(TextLe, TextLe, p.1.1, q.1.1);
    assert GapLe()(g, h) <==> PairLe(TextLe, PairLe(TextLe, PairLe(TextLe, TextLe)))(p, q);
    hide PairLe, GapLe;
  }

  /** The document of an inventory, entry by entry. */
  lemma InventoryDocument(inventory: Inventory, record: ImageRecord, gap: Gap, exclusion: (string, string))
    ensures InventoryJson(inventory).fields.Keys
            == {"schemaVersion", "evidenceSemantics", "images", "coverageGaps", "scopeExclusions"}
    ensures InventoryJson(inventory).fields["schemaVersion"] == Int(1)
    ensures InventoryJson(inventory).fields["evidenceSemantics"] == Str(EVIDENCE_SEMANTICS)
    ensures InventoryJson(inventory).fields["images"] == Arr(Map(inventory.images, ImageJson))
    ensures InventoryJson(inventory).fields["coverageGaps"] == Arr(Map(inventory.gaps, GapJson))
    ensures InventoryJson(inventory).fields["scopeExclusions"] == Arr(Map(inventory.scopeExclusions, ExclusionJson))
    ensures ImageJson(record) == Obj(map["id" := Str(record.id), "image" := Str(record.image), "digest" := Str(record.digest),
                                         "repository" := Str(record.repository), "sources" := Arr(Map(record.sources, TextJson))])
    ensures GapJson(gap) == Obj(map["reason" := Str(gap.reason), "source" := Str(gap.source), "subject" := Str(gap.subject),
                                    "kind" := Str(gap.kind)])
    ensures ExclusionJson(exclusion) == Obj(map["paths" := Str(exclusion.0), "reason" := Str(exclusion.1)])
  {
  }

  /** What a document contributes, by the paths of its content. */
  lemma ReferencesMean(document: Document, r: Reference)
    ensures r in ReferencesIn(document)
            <==> exists path ::
                   && (|| NamesImage(ImageValues, document.content, path, r.image)
                       || (document.workflow && NamesImage(ContainerValues, document.content, path, r.image)))
                   && r.source == document.place + ("$" + PathText(path))
  {
    hide NamesImage, PathText, ReferencesIn;
    ReferencesAreNamed(document, r);
    if path :|
      && (|| NamesImage(ImageValues, document.content, path, r.image)
          || (document.workflow && NamesImage(ContainerValues, document.content, path, r.image)))
      && r.source == document.place + ("$" + PathText(path)) {
      assert Names(document, path, r.image) && r == ReferenceAt(document, path, r.image);
    }
  }

  const WORKFLOW :=
    Obj(map["jobs" := Obj(map["build" := Obj(map["container" := Str(" alpine:3 ")])]),
            "images" := Arr([Null, Obj(map["name" := Str("app"), "newTag" := Str("$TAG")])])])

  /** The container of a workflow is read, the blanks around it are not, and an item of its `images` list is
      read as a replacement; their places say where they stand. */
  lemma WorkflowIsRead(refs: seq<Reference>, noted: seq<Gap>, inventory: Inventory, imageId: (string, string) -> string)
    requires forall r | r in ReferencesIn(Document(WORKFLOW, "ci.yml:1:", true)) :: r in refs
    requires WellFormed(refs) && IsInventoryOf(inventory, refs, noted, imageId)
    ensures Gap("unpinned-image", "alpine:3", "ci.yml:1:$.jobs.build.container", UNPINNED_REASON) in inventory.gaps
    ensures Gap("dynamic-image", "app:$TAG", "ci.yml:1:$.images[1]", DYNAMIC_REASON) in inventory.gaps
  {
    hide ClaimsDigest, Strip, GapOf, IsPinned, ReferencesIn, IsInventoryOf, WellFormed;
    ContainerIsRead();
    ReplacementIsRead();
    EveryReferenceIsAccounted(refs, noted, Reference(" alpine:3 ", "ci.yml:1:$.jobs.build.container"), inventory, imageId);
    EveryReferenceIsAccounted(refs, noted, Reference("app:$TAG", "ci.yml:1:$.images[1]"), inventory, imageId);
  }

  lemma ContainerIsRead()
    ensures var r := Reference(" alpine:3 ", "ci.yml:1:$.jobs.build.container");
            && r in ReferencesIn(Document(WORKFLOW, "ci.yml:1:", true)) && !ClaimsDigest(r)
            && GapOf(r) == Gap("unpinned-image", "alpine:3", r.source, UNPINNED_REASON)
  {
    hide *;
    var document, path := Document(WORKFLOW, "ci.yml:1:", true), [Key("jobs"), Key("build"), Key("container")];
    var r := Reference(" alpine:3 ", "ci.yml:1:$.jobs.build.container");
    ContainerIsNamed(path);
    ContainerPath(path);
    ContainerText(r);
    NamedIsRead(ContainerValues, document, path, r);
  }

  lemma NamedIsRead(scan: Scan, document: Document, path: seq<Step>, r: Reference)
    requires NamesImage(scan, document.content, path, r.image) && (scan == ImageValues || document.workflow)
    requires r.source == document.place + ("$" + PathText(path))
    ensures r in ReferencesIn(document)
  {
    hide NamesImage, PathText, ReferencesIn;
    ReferencesMean(document, r);
  }

  lemma ContainerIsNamed(path: seq<Step>)
    requires path == [Key("jobs"), Key("build"), Key("container")]
    ensures NamesImage(ContainerValues, WORKFLOW, path, " alpine:3 ")
  {
    var jobs := Obj(map["build" := Obj(map["container" := Str(" alpine:3 ")])]);
    var build := Obj(map["container" := Str(" alpine:3 ")]);
    assert path[1..] == [Key("build"), Key("container")] && path[1..][1..] == [Key("container")] && path[1..][1..][1..] == [];
    assert NodeAt(build, path[1..][1..]) == Some(Str(" alpine:3 "));
    assert NodeAt(jobs, path[1..]) == Some(Str(" alpine:3 "));
  }

  lemma ContainerPath(path: seq<Step>)
    requires path == [Key("jobs"), Key("build"), Key("container")]
    ensures "ci.yml:1:" + ("$" + PathText(path)) == "ci.yml:1:$.jobs.build.container"
  {
    PathOfKeys("jobs", "build", "container");
    hide PathText;
    assert "." + "jobs" + ("." + "build") + ("." + "container") == ".jobs.build.container";
  }

  lemma PathOfKeys(a: string, b: string, c: string)
    ensures PathText([Key(a), Key(b), Key(c)]) == "." + a + ("." + b) + ("." + c)
  {
    PathFurther([], a, 0);
    PathFurther([Key(a)], b, 0);
    PathFurther([Key(a), Key(b)], c, 0);
    hide PathText;
    assert [] + [Key(a)] == [Key(a)] && [Key(a)] + [Key(b)] == [Key(a), Key(b)];
    assert [Key(a), Key(b)] + [Key(c)] == [Key(a), Key(b), Key(c)];
    assert "" + ("." + a) == "." + a;
  }

  lemma ContainerText(r: Reference)
    requires r.image == " alpine:3 "
    ensures !ClaimsDigest(r) && GapOf(r) == Gap("unpinned-image", "alpine:3", r.source, UNPINNED_REASON)
  {
    ContainerStrip();
    hide Strip;
    PlainClaimsNothing("alpine:3");
  }

  lemma ContainerStrip()
    ensures Strip(" alpine:3 ") == "alpine:3"
  {
    assert " alpine:3 "[1..] == "alpine:3 " && StripLeft(" alpine:3 ") == "alpine:3 ";
    assert "alpine:3 "[..8] == "alpine:3" && StripRight("alpine:3 ") == StripRight("alpine:3") == "alpine:3";
  }

  lemma PlainClaimsNothing(image: string)
    ensures Contains(image, DIGEST_MARK) ==> '@' in image
  {
    ContainsIff(image, DIGEST_MARK);
    if before, after :| image == before + DIGEST_MARK + after {
      assert image[|before|] == '@';
    }
  }

  lemma ReplacementIsRead()
    ensures var r := Reference("app:$TAG", "ci.yml:1:$.images[1]");
            && r in ReferencesIn(Document(WORKFLOW, "ci.yml:1:", true)) && !ClaimsDigest(r)
            && GapOf(r) == Gap("dynamic-image", "app:$TAG", r.source, DYNAMIC_REASON)
  {
    hide *;
    var document, path := Document(WORKFLOW, "ci.yml:1:", true), [Key("images"), Index(1)];
    var r := Reference("app:$TAG", "ci.yml:1:$.images[1]");
    ReplacementIsNamed(path);
    ReplacementPath(path);
    ReplacementText(r);
    NamedIsRead(ImageValues, document, path, r);
  }

  lemma ReplacementIsNamed(path: seq<Step>)
    requires path == [Key("images"), Index(1)]
    ensures NamesImage(ImageValues, WORKFLOW, path, "app:$TAG")
  {
    var app := Obj(map["name" := Str("app"), "newTag" := Str("$TAG")]);
    assert path[1..] == [Index(1)] && path[1..][1..] == [];
    assert NodeAt(Arr([Null, app]), path[1..]) == Some(app);
    assert "app" + ":" + "$TAG" == "app:$TAG";
  }

  lemma ReplacementPath(path: seq<Step>)
    requires path == [Key("images"), Index(1)]
    ensures "ci.yml:1:" + ("$" + PathText(path)) == "ci.yml:1:$.images[1]"
  {
    PathOfItem("images", 1);
    assert NatText(1) == "1";
    hide PathText, NatText;
    assert "." + "images" + ("[" + "1" + "]") == ".images[1]";
  }

  lemma PathOfItem(key: string, index: nat)
    ensures PathText([Key(key), Index(index)]) == "." + key + ("[" + NatText(index) + "]")
  {
    PathFurther([], key, 0);
    PathFurther([Key(key)], "", index);
    hide PathText, NatText;
    assert [] + [Key(key)] == [Key(key)] && [Key(key)] + [Index(index)] == [Key(key), Index(index)];
    assert "" + ("." + key) == "." + key;
  }

  lemma ReplacementText(r: Reference)
    requires r.image == "app:$TAG"
    ensures !ClaimsDigest(r) && GapOf(r) == Gap("dynamic-image", "app:$TAG", r.source, DYNAMIC_REASON)
  {
    assert Strip("app:$TAG") == "app:$TAG";
    assert "app:$TAG"[4] == '$';
    hide Strip;
    PlainClaimsNothing("app:$TAG");
  }

  // ---- comparing two inventories -----------------------------------------------------------

  lemma GapJsonInjective(g: Gap, h: Gap)
    requires GapJson(g) == GapJson(h)
    ensures g == h
  {
    var p, q := GapJson(g).fields, GapJson(h).fields;
    assert p["kind"] == q["kind"] && p["subject"] == q["subject"] && p["source"] == q["source"] && p["reason"] == q["reason"];
  }

  lemma SameGaps(a: seq<Gap>, b: seq<Gap>)
    requires multiset(Map(a, GapJson)) == multiset(Map(b, GapJson))
    ensures forall g :: g in a <==> g in b
  {
    forall g, h | GapJson(g) == GapJson(h) ensures g == h {
      GapJsonInjective(g, h);
    }
    MapInjective(a, b, GapJson);
    forall g ensures g in a <==> g in b {
      assert g in a <==> g in multiset(a);
      assert g in b <==> g in multiset(b);
    }
  }

  function IdentityOf(r: ImageRecord): (string, string) {
    (r.id, r.image)
  }

  lemma ImageIdentities(images: seq<ImageRecord>)
    ensures Map(Map(images, ImageJson), InventoryComparison.Identity) == Map(images, IdentityOf)
  {
  }

  lemma SameImages(a: seq<ImageRecord>, b: seq<ImageRecord>, r: ImageRecord)
    requires multiset(Map(a, IdentityOf)) == multiset(Map(b, IdentityOf)) && r in a
    ensures exists q :: q in b && q.image == r.image
  {
    var i :| 0 <= i < |a| && a[i] == r;
    assert Map(a, IdentityOf)[i] in multiset(Map(b, IdentityOf));
    var k :| 0 <= k < |b| && Map(b, IdentityOf)[k] == IdentityOf(r);
    assert b[k] in b;
  }

  lemma ImagesDiscovered(
    inventory: Inventory, discovered: map<string, set<string>>, gaps: seq<Gap>, imageId: (string, string) -> string, i: string)
    requires forall i | i in discovered :: IsPinned(i)
    requires IsInventory(inventory, discovered, gaps, imageId)
    ensures i in discovered <==> exists r :: r in inventory.images && r.image == i
  {
    hide IsPinned, RecordOf, Ascending, TextLe, GapsInOrder;
    var names := TextsInOrder(discovered.Keys);
    forall k | 0 <= k < |names| ensures names[k] in discovered && inventory.images[k].image == names[k] {
      assert names[k] in names;
      RecordIsNamed(names[k], discovered[names[k]], imageId);
    }
    if i in discovered {
      assert i in names;
      var k :| 0 <= k < |names| && names[k] == i;
      assert inventory.images[k] in inventory.images;
    }
    if r :| r in inventory.images && r.image == i {
      var k :| 0 <= k < |names| && inventory.images[k] == r;
    }
  }

  lemma RecordIsNamed(image: string, sources: set<string>, imageId: (string, string) -> string)
    requires IsPinned(image)
    ensures RecordOf(image, sources, imageId).image == image
  {
  }

  /** The same images have the same ids, wherever they were found. */
  lemma SameIdentities(
    a: Inventory, b: Inventory, discoveredA: map<string, set<string>>, discoveredB: map<string, set<string>>,
    gapsA: seq<Gap>, gapsB: seq<Gap>, imageId: (string, string) -> string)
    requires (forall i | i in discoveredA :: IsPinned(i)) && forall i | i in discoveredB :: IsPinned(i)
    requires IsInventory(a, discoveredA, gapsA, imageId) && IsInventory(b, discoveredB, gapsB, imageId)
    requires discoveredA.Keys == discoveredB.Keys
    ensures Map(a.images, IdentityOf) == Map(b.images, IdentityOf)
  {
  }

  lemma SameImagesIff(
    a: Inventory, b: Inventory, discoveredA: map<string, set<string>>, discoveredB: map<string, set<string>>,
    gapsA: seq<Gap>, gapsB: seq<Gap>, imageId: (string, string) -> string)
    requires (forall i | i in discoveredA :: IsPinned(i)) && forall i | i in discoveredB :: IsPinned(i)
    requires IsInventory(a, discoveredA, gapsA, imageId) && IsInventory(b, discoveredB, gapsB, imageId)
    ensures multiset(Map(a.images, IdentityOf)) == multiset(Map(b.images, IdentityOf)) <==> discoveredA.Keys == discoveredB.Keys
  {
    hide IsPinned, IsInventory, Map, IdentityOf;
    if multiset(Map(a.images, IdentityOf)) == multiset(Map(b.images, IdentityOf)) {
      forall i ensures i in discoveredA <==> i in discoveredB {
        ImagesDiscovered(a, discoveredA, gapsA, imageId, i);
        ImagesDiscovered(b, discoveredB, gapsB, imageId, i);
        if r :| r in a.images && r.image == i { SameImages(a.images, b.images, r); }
        if r :| r in b.images && r.image == i { SameImages(b.images, a.images, r); }
      }
    }
    if discoveredA.Keys == discoveredB.Keys {
      SameIdentities(a, b, discoveredA, discoveredB, gapsA, gapsB, imageId);
    }
  }

  lemma SameGapsIff(a: seq<Gap>, b: seq<Gap>)
    ensures multiset(Map(GapsInOrder(set g | g in a), GapJson)) == multiset(Map(GapsInOrder(set g | g in b), GapJson))
            <==> (set g | g in a) == (set g | g in b)
  {
    hide GapJson, GapLe, Map;
    var inA, inB := GapsInOrder(set g | g in a), GapsInOrder(set g | g in b);
    if multiset(Map(inA, GapJson)) == multiset(Map(inB, GapJson)) {
      SameGaps(inA, inB);
    }
  }

  /** Comparing the inventories of two commits finds a difference exactly when the set of exact images
      or the set of gaps differs; where an image was found again does not count. */
  lemma RebuiltComparison(
    a: Inventory, b: Inventory, discoveredA: map<string, set<string>>, discoveredB: map<string, set<string>>,
    gapsA: seq<Gap>, gapsB: seq<Gap>, imageId: (string, string) -> string)
    requires (forall i | i in discoveredA :: IsPinned(i)) && forall i | i in discoveredB :: IsPinned(i)
    requires IsInventory(a, discoveredA, gapsA, imageId) && IsInventory(b, discoveredB, gapsB, imageId)
    requires a.scopeExclusions == b.scopeExclusions
    ensures InventoryComparison.SameInventory(InventoryJson(a), InventoryJson(b))
            <==> discoveredA.Keys == discoveredB.Keys && (set g | g in gapsA) == (set g | g in gapsB)
  {
    hide IsPinned, RecordOf, TextsInOrder, GapsInOrder, Map, InventoryComparison.Identity, InventoryComparison.Rows,
      InventoryComparison.Loaded, InventoryJson, ImageJson, GapJson, ExclusionJson;
    ImageIdentities(a.images);
    ImageIdentities(b.images);
    SameImagesIff(a, b, discoveredA, discoveredB, gapsA, gapsB, imageId);
    SameGapsIff(gapsA, gapsB);
  }
}
