/** tools/compare_image_inventories.py: does an inventory need a fresh scan? */
module InventoryComparison {
  import opened Images
  import opened Json
  import opened Ordering
  import opened Text

  datatype Surface = Surface(images: seq<(string, string)>, coverageGaps: seq<string>, scopeExclusions: seq<string>)

  /** The list under a field of an inventory; the loader has checked that it is one. */
  function Rows(document: Json, field: string): seq<Json>
    requires document.Obj? && field in document.fields && document.fields[field].Arr?
  {
    document.fields[field].items
  }

  /** What the loader guarantees: an object with the three lists. */
  predicate Loaded(document: Json) {
    && document.Obj?
    && forall f | f in {"images", "coverageGaps", "scopeExclusions"} :: f in document.fields && document.fields[f].Arr?
  }

  predicate ImageRow(row: Json) {
    row.Obj? && Field(row, "id").Str? && Field(row, "image").Str?
  }

  predicate Comparable(document: Json)
    requires Loaded(document)
  {
    && (forall r | r in Rows(document, "images") :: ImageRow(r))
    && (forall r | r in Rows(document, "coverageGaps") :: r.Obj?)
    && (forall r | r in Rows(document, "scopeExclusions") :: r.Obj?)
  }

  /** The part of an image row that is compared. */
  function Identity(row: Json): (string, string) {
    if ImageRow(row) then (Field(row, "id").text, Field(row, "image").text) else ("", "")
  }

  function PairOfTextsLe(): ((string, string), (string, string)) -> bool {
    PairLe(TextLe, TextLe)
  }

  function SurfaceOf(document: Json): Surface
    requires Loaded(document)
  {
    Surface(
      Sort(Map(Rows(document, "images"), Identity), PairOfTextsLe()),
      Sort(Map(Rows(document, "coverageGaps"), Dumps), TextLe),
      Sort(Map(Rows(document, "scopeExclusions"), Dumps), TextLe))
  }

  datatype ComparisonError = BadImageRow | BadGapRow | BadExclusionRow

  method ComparisonSurface(document: Json) returns (r: Result<Surface, ComparisonError>)
    requires Loaded(document)
    ensures r.Ok? <==> Comparable(document)
    ensures r.Ok? ==> r.value == SurfaceOf(document)
  {
    var rows := Rows(document, "images");
    var images: seq<(string, string)> := [];
    for i := 0 to |rows|
      invariant forall row | row in rows[..i] :: ImageRow(row)
      invariant images == Map(rows[..i], Identity)
    {
      var row := rows[i];
      assert row in rows;
      assert rows[..i + 1] == rows[..i] + [row];
      if !row.Obj? || !Field(row, "id").Str? || !Field(row, "image").Str? {
        return Err(BadImageRow);
      }
      images := images + [(Field(row, "id").text, Field(row, "image").text)];
    }
    assert rows[..|rows|] == rows;
    if exists row | row in Rows(document, "coverageGaps") :: !row.Obj? {
      return Err(BadGapRow);
    }
    if exists row | row in Rows(document, "scopeExclusions") :: !row.Obj? {
      return Err(BadExclusionRow);
    }
    return Ok(Surface(
      Sort(images, PairOfTextsLe()),
      Sort(Map(Rows(document, "coverageGaps"), Dumps), TextLe),
      Sort(Map(Rows(document, "scopeExclusions"), Dumps), TextLe)));
  }

  /** What the tool publishes: whether a scan is required, and the fields that changed. */
  datatype Comparison = Comparison(scanRequired: bool, changedFields: seq<string>)

  /** The outcome in terms of the rows themselves: each field, in order, whose rows differ as a collection. */
  ghost function Outcome(a: Json, b: Json): Comparison
    requires Loaded(a) && Loaded(b)
  {
    Comparison(
      !SameInventory(a, b),
      (if SameImages(a, b) then [] else ["images"])
      + (if SameRows(a, b, "coverageGaps") then [] else ["coverageGaps"])
      + (if SameRows(a, b, "scopeExclusions") then [] else ["scopeExclusions"]))
  }

  method Compare(base: Json, current: Json) returns (r: Result<Comparison, ComparisonError>)
    requires Loaded(base) && Loaded(current)
    ensures r.Ok? <==> Comparable(base) && Comparable(current)
    ensures r.Ok? ==> r.value == Outcome(base, current)
  {
    hide Rows, Identity, PairOfTextsLe, Sort, Map, Dumps, TextLe;
    var baseSurface := ComparisonSurface(base);
    if baseSurface.Err? { return Err(baseSurface.error); }
    var currentSurface := ComparisonSurface(current);
    if currentSurface.Err? { return Err(currentSurface.error); }
    SameFieldsIff(base, current);
    var changed := [];
    if baseSurface.value.images != currentSurface.value.images { changed := changed + ["images"]; }
    if baseSurface.value.coverageGaps != currentSurface.value.coverageGaps { changed := changed + ["coverageGaps"]; }
    if baseSurface.value.scopeExclusions != currentSurface.value.scopeExclusions { changed := changed + ["scopeExclusions"]; }
    return Ok(Comparison(changed != [], changed));
  }

  ghost predicate SameImages(a: Json, b: Json)
    requires Loaded(a) && Loaded(b)
  {
    multiset(Map(Rows(a, "images"), Identity)) == multiset(Map(Rows(b, "images"), Identity))
  }

  ghost predicate SameRows(a: Json, b: Json, field: string)
    requires Loaded(a) && Loaded(b) && field in {"coverageGaps", "scopeExclusions"}
  {
    multiset(Rows(a, field)) == multiset(Rows(b, field))
  }

  /** The same images under the same ids, the same gaps and the same exclusions, each as often. */
  ghost predicate SameInventory(a: Json, b: Json)
    requires Loaded(a) && Loaded(b)
  {
    SameImages(a, b) && SameRows(a, b, "coverageGaps") && SameRows(a, b, "scopeExclusions")
  }

  /** Comparing sorted serialised rows compares the rows themselves as collections: sorting forgets
      only the order, and serialising forgets nothing. */
  lemma SameFieldsIff(a: Json, b: Json)
    requires Loaded(a) && Loaded(b)
    ensures SurfaceOf(a).images == SurfaceOf(b).images <==> SameImages(a, b)
    ensures SurfaceOf(a).coverageGaps == SurfaceOf(b).coverageGaps <==> SameRows(a, b, "coverageGaps")
    ensures SurfaceOf(a).scopeExclusions == SurfaceOf(b).scopeExclusions <==> SameRows(a, b, "scopeExclusions")
  {
    hide Rows, Identity, Dumps, PairOfTextsLe, TextLe, TotalOrder, Sort, Map;
    TextPairOrder();
    SortCanonical(Map(Rows(a, "images"), Identity), Map(Rows(b, "images"), Identity), PairOfTextsLe());
    SameRowsIff(Rows(a, "coverageGaps"), Rows(b, "coverageGaps"));
    SameRowsIff(Rows(a, "scopeExclusions"), Rows(b, "scopeExclusions"));
  }

  lemma SameSurfaceIff(a: Json, b: Json)
    requires Loaded(a) && Loaded(b)
    ensures SurfaceOf(a) == SurfaceOf(b) <==> SameInventory(a, b)
  {
    hide SameImages, SameRows, Rows, Sort, Map;
    SameFieldsIff(a, b);
  }

  lemma TextPairOrder()
    ensures TotalOrder(PairOfTextsLe())
  {
    TextOrder();
    PairOrder(TextLe, TextLe);
  }

  lemma SameRowsIff(a: seq<Json>, b: seq<Json>)
    ensures Sort(Map(a, Dumps), TextLe) == Sort(Map(b, Dumps), TextLe) <==> multiset(a) == multiset(b)
  {
    hide Dumps, TextLe;
    TextOrder();
    SortCanonical(Map(a, Dumps), Map(b, Dumps), TextLe);
    if multiset(a) == multiset(b) {
      MapAnyOrder(a, b, Dumps);
    }
    if multiset(Map(a, Dumps)) == multiset(Map(b, Dumps)) {
      forall x, y | Dumps(x) == Dumps(y) ensures x == y {
        DumpsInjective(x, y);
      }
      MapInjective(a, b, Dumps);
    }
  }

  /** A row with other sources, or any other change outside id and image. */
  ghost predicate SameIdentityRows(a: seq<Json>, b: seq<Json>) {
    |a| == |b| && forall i | 0 <= i < |a| :: Identity(a[i]) == Identity(b[i])
  }

  /** Where an image was found does not matter, and neither does the order of any list. */
  lemma SourcesDoNotMatter(a: Json, b: Json, images: seq<Json>)
    requires Loaded(a) && Loaded(b)
    requires SameIdentityRows(Rows(a, "images"), images) && multiset(images) == multiset(Rows(b, "images"))
    requires multiset(Rows(a, "coverageGaps")) == multiset(Rows(b, "coverageGaps"))
    requires multiset(Rows(a, "scopeExclusions")) == multiset(Rows(b, "scopeExclusions"))
    ensures SurfaceOf(a) == SurfaceOf(b)
  {
    assert Map(Rows(a, "images"), Identity) == Map(images, Identity);
    MapAnyOrder(images, Rows(b, "images"), Identity);
    SameSurfaceIff(a, b);
  }

  // ---- what the outcome says, row by row ---------------------------------------------------

  /** An image row with this id and this image, whatever else it has. */
  predicate IsRowOf(row: Json, id: string, image: string) {
    && row.Obj? && "id" in row.fields && row.fields["id"] == Str(id)
    && "image" in row.fields && row.fields["image"] == Str(image)
  }

  /** How many rows have this id and this image. */
  function Occurrences(rows: seq<Json>, id: string, image: string): nat {
    if rows == [] then 0
    else Occurrences(rows[..|rows| - 1], id, image) + if IsRowOf(rows[|rows| - 1], id, image) then 1 else 0
  }

  lemma {:induction false} OccurrencesAreCounts(rows: seq<Json>, id: string, image: string)
    requires forall r | r in rows :: ImageRow(r)
    ensures Occurrences(rows, id, image) == multiset(Map(rows, Identity))[(id, image)]
  {
    if rows == [] {
    } else {
      var before, last := rows[..|rows| - 1], rows[|rows| - 1];
      assert last in rows;
      OccurrencesAreCounts(before, id, image);
      assert Map(rows, Identity) == Map(before, Identity) + [Identity(last)];
      assert IsRowOf(last, id, image) <==> Identity(last) == (id, image);
    }
  }

  /** The changed fields, always in the same order: the images when some pair of id and image occurs more
      often in one inventory than in the other, the gaps and exclusions when some row does. A scan is
      required exactly when one of the three changed. */
  lemma ChangedFields(a: Json, b: Json)
    requires Loaded(a) && Loaded(b) && Comparable(a) && Comparable(b)
    ensures var changed := Outcome(a, b).changedFields;
            && (Outcome(a, b).scanRequired <==> changed != [])
            && changed == (if "images" in changed then ["images"] else [])
                          + (if "coverageGaps" in changed then ["coverageGaps"] else [])
                          + (if "scopeExclusions" in changed then ["scopeExclusions"] else [])
            && ("images" in changed
                <==> !SameOccurrences(a.fields["images"].items, b.fields["images"].items))
            && ("coverageGaps" in changed
                <==> exists row ::
                       multiset(a.fields["coverageGaps"].items)[row] != multiset(b.fields["coverageGaps"].items)[row])
            && ("scopeExclusions" in changed
                <==> exists row ::
                       multiset(a.fields["scopeExclusions"].items)[row] != multiset(b.fields["scopeExclusions"].items)[row])
  {
    hide SameOccurrences, Identity, ImageRow, Map, SameImages, SameRows;
    NamesDiffer();
    ImagesDiffer(a, b);
    RowsDiffer(a, b, "coverageGaps");
    RowsDiffer(a, b, "scopeExclusions");
  }

  lemma NamesDiffer()
    ensures "images" != "coverageGaps" && "images" != "scopeExclusions" && "coverageGaps" != "scopeExclusions"
  {
    assert "images"[0] == 'i' && "coverageGaps"[0] == 'c' && "scopeExclusions"[0] == 's';
  }

  ghost predicate SameOccurrences(a: seq<Json>, b: seq<Json>) {
    forall id, image :: Occurrences(a, id, image) == Occurrences(b, id, image)
  }

  lemma ImagesDiffer(a: Json, b: Json)
    requires Loaded(a) && Loaded(b) && Comparable(a) && Comparable(b)
    ensures SameImages(a, b) <==> SameOccurrences(a.fields["images"].items, b.fields["images"].items)
  {
    hide SameOccurrences, Identity, ImageRow, Map;
    var p, q := a.fields["images"].items, b.fields["images"].items;
    if SameImages(a, b) {
      SameCounts(p, q);
    }
    if SameOccurrences(p, q) {
      SameCollections(p, q);
    }
  }

  lemma SameCounts(p: seq<Json>, q: seq<Json>)
    requires (forall r | r in p :: ImageRow(r)) && forall r | r in q :: ImageRow(r)
    requires multiset(Map(p, Identity)) == multiset(Map(q, Identity))
    ensures SameOccurrences(p, q)
  {
    hide Occurrences, Identity, ImageRow, Map;
    forall id, image ensures Occurrences(p, id, image) == Occurrences(q, id, image) {
      OccurrencesAreCounts(p, id, image);
      OccurrencesAreCounts(q, id, image);
    }
  }

  lemma SameCollections(p: seq<Json>, q: seq<Json>)
    requires (forall r | r in p :: ImageRow(r)) && forall r | r in q :: ImageRow(r)
    requires SameOccurrences(p, q)
    ensures multiset(Map(p, Identity)) == multiset(Map(q, Identity))
  {
    hide Occurrences, Identity, ImageRow, Map;
    forall pair: (string, string) ensures multiset(Map(p, Identity))[pair] == multiset(Map(q, Identity))[pair] {
      OccurrencesAreCounts(p, pair.0, pair.1);
      OccurrencesAreCounts(q, pair.0, pair.1);
      assert pair == (pair.0, pair.1);
    }
  }

  lemma RowsDiffer(a: Json, b: Json, field: string)
    requires Loaded(a) && Loaded(b) && field in {"coverageGaps", "scopeExclusions"}
    ensures SameRows(a, b, field)
            <==> forall row :: multiset(a.fields[field].items)[row] == multiset(b.fields[field].items)[row]
  {
    assert (forall row :: multiset(a.fields[field].items)[row] == multiset(b.fields[field].items)[row])
           <==> multiset(a.fields[field].items) == multiset(b.fields[field].items);
  }
}
