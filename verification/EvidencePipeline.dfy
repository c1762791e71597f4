/** The image evidence pipeline end to end: from the documents of the repository through the inventory,
    the decisions and the SBOMs to the published summary. */
module EvidencePipeline {
  import opened Images
  import opened Json
  import opened Ordering
  import opened ScanEvaluation
  import ImageDiscovery
  import ImageInventory
  import ScanAggregation
  import ScanConservation

  /** An image and its digest: as many subjects as images. */
  lemma {:induction false} SubjectsCount(images: set<string>)
    requires forall image | image in images :: IsPinned(image)
    ensures |ImageInventory.SubjectsOf(images)| == |images|
  {
    hide IsPinned, Digest;
    if images == {} {
      assert ImageInventory.SubjectsOf(images) == {};
    } else {
      var image :| image in images;
      SubjectsCount(images - {image});
      assert ImageInventory.SubjectsOf(images) == ImageInventory.SubjectsOf(images - {image}) + {(image, Digest(image))};
    }
  }

  /** When the inventory was built from these references and noted gaps, every decision came from the
      evaluator, and the aggregator succeeds, then the evaluated images are exactly the discovered ones,
      each counted once, every distinct gap is published, and the numbers are those of the reports. */
  lemma PublishedIsDiscovered(
    refs: seq<ImageDiscovery.Reference>, noted: seq<ImageInventory.Gap>, imageId: (string, string) -> string,
    inventory: ImageInventory.Inventory, evidence: seq<ScanConservation.Evidence>, sboms: seq<Json>, iso: Clock,
    s: ScanAggregation.Summary)
    requires ImageInventory.Discoverable(refs, imageId) && ImageInventory.IsInventoryOf(inventory, refs, noted, imageId)
    requires forall e | e in evidence :: ScanConservation.Evaluated(e)
    requires ScanAggregation.Summarises(
               s, Map(evidence, ScanConservation.FileOf), sboms, ImageInventory.InventoryJson(inventory), iso)
    ensures forall image :: image in ImageInventory.DiscoveredIn(refs) <==> exists e :: e in evidence && e.image == image
    ensures s.exactSubjects == s.scannedSubjects == s.sbomSubjects == |ImageInventory.DiscoveredIn(refs)| == |evidence|
    ensures s.coverageGaps == |set g | g in ImageInventory.GapsOf(refs) + noted|
    ensures ScanConservation.Conserved(s.counts, s.unexceptedCounts, evidence)
  {
    hide ScanConservation.Evaluated, ScanAggregation.SbomsRead, ScanAggregation.InventoryReads, ScanConservation.Conserved,
      ImageInventory.DiscoveredIn, ImageInventory.GapsOf, ImageInventory.IsInventory, ImageInventory.InventoryJson,
      ScanAggregation.DecisionsRead, IsPinned, Digest, Map;
    var discovered := ImageInventory.DiscoveredIn(refs);
    var document := ImageInventory.InventoryJson(inventory);
    ImageInventory.DiscoveredArePinned(refs);
    ImageInventory.BuiltInventoryLoads(inventory, discovered, ImageInventory.GapsOf(refs) + noted, imageId);
    ScanConservation.Conservation(s, evidence, sboms, document, iso);
    ScanAggregation.InventoryFixesSubjects(
      document, ScanAggregation.Inventory(ScanConservation.SubjectsOf(evidence), s.coverageGaps));
    SubjectsCount(discovered.Keys);
    EvaluatedArePinned(s, evidence, sboms, document, iso);
    SameImages(discovered.Keys, evidence);
  }

  lemma EvaluatedArePinned(
    s: ScanAggregation.Summary, evidence: seq<ScanConservation.Evidence>, sboms: seq<Json>, document: Json, iso: Clock)
    requires forall e | e in evidence :: ScanConservation.Evaluated(e)
    requires ScanAggregation.Summarises(s, Map(evidence, ScanConservation.FileOf), sboms, document, iso)
    ensures forall e | e in evidence :: IsPinned(e.image)
  {
    hide ScanConservation.Evaluated, ScanAggregation.SbomsRead, ScanAggregation.InventoryReads, ScanAggregation.ReadDecision,
      ScanConservation.FileOf, IsPinned, Digest, ScanAggregation.SumCounts, ScanAggregation.Latest;
    ScanConservation.ReadEvidence(evidence, iso);
    forall e | e in evidence ensures IsPinned(e.image) {
      var i :| 0 <= i < |evidence| && evidence[i] == e;
    }
  }

  lemma SameImages(images: set<string>, evidence: seq<ScanConservation.Evidence>)
    requires (forall image | image in images :: IsPinned(image)) && forall e | e in evidence :: IsPinned(e.image)
    requires ImageInventory.SubjectsOf(images) == ScanConservation.SubjectsOf(evidence)
    ensures forall image :: image in images <==> exists e :: e in evidence && e.image == image
  {
    hide IsPinned, Digest;
    forall image ensures image in images <==> exists e :: e in evidence && e.image == image {
      if image in images {
        assert (image, Digest(image)) in ScanConservation.SubjectsOf(evidence);
      }
      if e :| e in evidence && e.image == image {
        assert (e.image, Digest(e.image)) in ImageInventory.SubjectsOf(images);
      }
    }
  }

  /** In particular: an exact image that any document names at any path has been evaluated before a
      summary is published, and so has one that the other feeds claim; nothing else has been. */
  lemma NamedIsEvaluated(
    feeds: ImageInventory.Feeds, image: string, imageId: (string, string) -> string, inventory: ImageInventory.Inventory,
    evidence: seq<ScanConservation.Evidence>, sboms: seq<Json>, iso: Clock, s: ScanAggregation.Summary)
    requires ImageInventory.Discoverable(ImageInventory.ReferencesOf(feeds), imageId)
    requires ImageInventory.IsInventoryOf(inventory, ImageInventory.ReferencesOf(feeds), feeds.noted, imageId)
    requires forall e | e in evidence :: ScanConservation.Evaluated(e)
    requires ScanAggregation.Summarises(
               s, Map(evidence, ScanConservation.FileOf), sboms, ImageInventory.InventoryJson(inventory), iso)
    ensures (exists e :: e in evidence && e.image == image)
            <==> || ImageInventory.NamedExactly(feeds.documents, image)
                 || ImageInventory.ClaimedIn(feeds.loose, image) || ImageInventory.ClaimedIn(feeds.exact, image)
  {
    hide *;
    PublishedIsDiscovered(ImageInventory.ReferencesOf(feeds), feeds.noted, imageId, inventory, evidence, sboms, iso, s);
    ImageInventory.SubjectsAreNamed(feeds, image);
  }
}
