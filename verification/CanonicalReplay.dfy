/** Replaying a run gives the same canonical content: what is hashed of a document leaves out
    the decisions and their IDs, and nothing else depends on what replaying changes in a record. */
module CanonicalReplay {
  import opened Common
  import opened Candidates
  import opened Decisions
  import opened LlmService
  import opened Ranking
  import opened Evidence
  import opened Canonical
  import opened Assembly
  import opened Validator
  import Replay

  // ---------- assembled content ----------

  function ContentOf(outcome: Assemblage): Assemblage {
    if outcome.Assembled? then Assembled(HashedContent(outcome.document)) else outcome
  }

  // ---------- records that choose alike ----------

  /** Two records that stand for the same choice. */
  predicate Agree(a: Record, b: Record) {
    a.setId == b.setId && a.selected == b.selected && a.generated == b.generated
  }

  predicate AllAgree(a: seq<Record>, b: seq<Record>) {
    |a| == |b| && forall i :: 0 <= i < |a| ==> Agree(a[i], b[i])
  }

  lemma {:induction false} SameRecordFor(a: seq<Record>, b: seq<Record>, set_: CandidateSetId)
    requires AllAgree(a, b)
    ensures RecordFor(a, set_).Some? <==> RecordFor(b, set_).Some?
    ensures RecordFor(a, set_).Some? ==> Agree(RecordFor(a, set_).value, RecordFor(b, set_).value)
  {
    if a != [] {
      var n := |a| - 1;
      assert Agree(a[n], b[n]);
      SameRecordFor(a[..n], b[..n], set_);
    }
  }

  lemma SameChoice(set_: FilledSet, a: seq<Record>, b: seq<Record>)
    requires AllAgree(a, b)
    ensures SelectedCandidate(set_, a) == SelectedCandidate(set_, b)
  {
    SameRecordFor(a, b, set_.id);
  }

  predicate SameButRecords(a: Inputs, b: Inputs) {
    a == b.(records := a.records) && AllAgree(a.records, b.records)
  }

  lemma SameSelections(a: Inputs, b: Inputs, region: RegionId)
    requires SameButRecords(a, b)
    ensures SpacingFor(a, region) == SpacingFor(b, region)
    ensures KindFor(a, region) == KindFor(b, region)
    ensures TableFor(a, region) == TableFor(b, region)
  {
    hide SelectedCandidate, SetFor;
    var spacing, kind, table := SetFor(a.sets, region, SpacingType), SetFor(a.sets, region, BlockType), SetFor(a.sets, region, TableType);
    if spacing.Some? { SameChoice(spacing.value, a.records, b.records); }
    if kind.Some? { SameChoice(kind.value, a.records, b.records); }
    if table.Some? { SameChoice(table.value, a.records, b.records); }
  }

  function StripPart(part: Part): Part {
    match part
    case ExcludedPart(e) => part
    case FigurePart(f) => FigurePart(f.(decisions := []))
    case BlockPart(b) => BlockPart(StripBlock(b))
  }

  lemma SameParts(a: Inputs, b: Inputs, region: LayoutRegion)
    requires SameButRecords(a, b)
    ensures StripPart(PartOf(a, region)) == StripPart(PartOf(b, region))
  {
    SameSelections(a, b, region.id);
    hide SpacingFor, KindFor, TableFor, DecisionsOn, CanonicalCells, VisibleOnly, PlainText, SourceText;
  }

  lemma SameSpaces(a: Inputs, b: Inputs, region: LayoutRegion)
    requires SameButRecords(a, b)
    ensures StripWhitespace(SpaceOf(a, region)) == StripWhitespace(SpaceOf(b, region))
  {
    SameSelections(a, b, region.id);
    hide SpacingFor, SpacingDecision, StripWhitespace, Dispositions;
    SameDispositions(a.catalog, region.atoms, SpacingFor(a, region.id), SpacingDecision(a, region.id), SpacingDecision(b, region.id));
  }

  lemma SameResolution(a: Inputs, b: Inputs, region: LayoutRegion)
    requires SameButRecords(a, b)
    ensures Resolvable(a, region) <==> Resolvable(b, region)
  {
    SameSelections(a, b, region.id);
    hide SpacingFor, KindFor, TableFor, CanonicalCells, StartsInside;
  }

  lemma {:induction false} SameDispositions(catalog: Catalog, ids: seq<AtomId>, spacing: Option<SpacedCandidate>, x: DecisionId, y: DecisionId)
    ensures StripWhitespace(Dispositions(catalog, ids, spacing, x)) == StripWhitespace(Dispositions(catalog, ids, spacing, y))
  {
    if ids != [] {
      var n := |ids| - 1;
      SameDispositions(catalog, ids[..n], spacing, x, y);
      if IsBlankAtom(catalog, ids[n]) {
        var p, q := DispositionOf(catalog[ids[n]], spacing, x), DispositionOf(catalog[ids[n]], spacing, y);
        StripOne(Dispositions(catalog, ids[..n], spacing, x), p);
        StripOne(Dispositions(catalog, ids[..n], spacing, y), q);
      } else {
        assert Dispositions(catalog, ids, spacing, x) == Dispositions(catalog, ids[..n], spacing, x);
        assert Dispositions(catalog, ids, spacing, y) == Dispositions(catalog, ids[..n], spacing, y);
      }
    }
  }

  lemma StripOne(before: seq<Disposition>, d: Disposition)
    ensures StripWhitespace(before + [d]) == StripWhitespace(before) + [d.(decision := NO_DECISION)]
  {
    assert (before + [d])[..|before|] == before;
  }

  lemma {:induction false} StripConcat(a: seq<Disposition>, b: seq<Disposition>)
    ensures StripWhitespace(a + b) == StripWhitespace(a) + StripWhitespace(b)
  {
    if b == [] {
      assert a + b == a;
    } else {
      var n := |b| - 1;
      StripConcat(a, b[..n]);
      assert (a + b)[..|a + b| - 1] == a + b[..n];
      ConcatAssociates(StripWhitespace(a), StripWhitespace(b[..n]), [b[n].(decision := NO_DECISION)]);
    }
  }

  function StripPieces(p: Pieces): Pieces {
    Pieces(StripBlocks(p.blocks), StripFigures(p.figures), p.excluded, StripWhitespace(p.whitespace))
  }

  lemma PlaceStripped(p: Pieces, part: Part, whitespace: seq<Disposition>)
    ensures StripPieces(Place(p, part, whitespace)) == Place(StripPieces(p), StripPart(part), StripWhitespace(whitespace))
  {
    StripConcat(p.whitespace, whitespace);
    match part
    case ExcludedPart(e) =>
    case FigurePart(f) => assert (p.figures + [f])[..|p.figures|] == p.figures;
    case BlockPart(b) =>
      var numbered := b.(order := |p.blocks|);
      assert (p.blocks + [numbered])[..|p.blocks|] == p.blocks;
  }

  lemma {:induction false} SameCollection(a: Inputs, b: Inputs, regions: seq<LayoutRegion>)
    requires SameButRecords(a, b)
    ensures StripPieces(Collect(a, regions)) == StripPieces(Collect(b, regions))
  {
    hide PartOf, SpaceOf, StripPieces, Place, StripPart, StripWhitespace, Resolvable;
    if regions != [] {
      var n := |regions| - 1;
      var last := regions[n];
      SameCollection(a, b, regions[..n]);
      SameParts(a, b, last);
      SameSpaces(a, b, last);
      PlaceStripped(Collect(a, regions[..n]), PartOf(a, last), SpaceOf(a, last));
      PlaceStripped(Collect(b, regions[..n]), PartOf(b, last), SpaceOf(b, last));
    }
  }

  lemma {:induction false} SameOrder(sets: seq<FilledSet>, a: seq<Record>, b: seq<Record>, topological: seq<RegionId>)
    requires AllAgree(a, b)
    ensures OrderOf(sets, a, topological) == OrderOf(sets, b, topological)
  {
    hide SelectedCandidate;
    if sets != [] {
      SameChoice(sets[0], a, b);
      SameOrder(sets[1..], a, b, topological);
    }
  }

  lemma {:induction false} SameContinuations(sets: seq<FilledSet>, a: seq<Record>, b: seq<Record>)
    requires AllAgree(a, b)
    ensures StripContinuations(ContinuationsOf(sets, a)) == StripContinuations(ContinuationsOf(sets, b))
  {
    hide SelectedCandidate, RecordFor;
    if sets != [] {
      var n := |sets| - 1;
      SameContinuations(sets[..n], a, b);
      SameChoice(sets[n], a, b);
      SameRecordFor(a, b, sets[n].id);
      StripContinuation(ContinuationsOf(sets[..n], a), ContinuationOf(sets[n], a));
      StripContinuation(ContinuationsOf(sets[..n], b), ContinuationOf(sets[n], b));
    }
  }

  lemma StripContinuation(before: seq<Continuation>, more: seq<Continuation>)
    requires |more| <= 1
    ensures StripContinuations(before + more) ==
            StripContinuations(before) + if more == [] then [] else [more[0].(decision := NO_DECISION)]
  {
    if more == [] { assert before + more == before; } else { assert (before + more)[..|before|] == before; }
  }

  /** Records that choose alike assemble, or fail to, with the same content. */
  lemma AlikeContent(e: EvidenceDocument, a: Inputs, b: Inputs, topological: seq<RegionId>)
    requires SameButRecords(a, b)
    ensures ContentOf(Assembling(e, a, topological)) == ContentOf(Assembling(e, b, topological))
  {
    hide Collect, Resolvable, StripBlocks, StripFigures, StripWhitespace, StripContinuations, ContinuationsOf, OrderOf;
    SameOrder(a.sets, a.records, b.records, topological);
    SameContinuations(a.sets, a.records, b.records);
    var order := OrderOf(a.sets, a.records, topological);
    if KnownRegions(a.layout, order) {
      var regions := OrderedRegions(a.layout, order);
      forall i | 0 <= i < |regions| ensures Resolvable(a, regions[i]) <==> Resolvable(b, regions[i]) {
        SameResolution(a, b, regions[i]);
      }
      SameCollection(a, b, regions);
    }
  }

  // ---------- replay ----------

  lemma {:induction false} ReplaysAgree(jobs: seq<Job>, records: seq<Record>)
    requires |jobs| == |records|
    ensures AllAgree(Replay.Replays(jobs, records), records)
    ensures forall i :: 0 <= i < |records| ==> Replay.Replays(jobs, records)[i].outcome == records[i].outcome
  {
    if jobs != [] {
      ReplaysAgree(jobs[1..], records[1..]);
    }
  }

  /** After a cold run over uniform jobs in which every decision is "selected", assembling from the replayed
      decisions gives the same canonical content, hence the same content hash. */
  lemma ReplayKeepsContent(
    e: EvidenceDocument, inputs: Inputs, topological: seq<RegionId>, jobs: seq<Job>, serve: Service, stored: seq<Record>, again: Service)
    requires Replay.StoredRun(jobs, serve, stored) && inputs.records == Replay.Run(jobs, [], serve, 0).value.records
    requires forall i :: 0 <= i < |jobs| ==> Replay.Uniform(jobs[i])
    ensures var replay := Replay.Run(jobs, stored, again, 0);
            && replay.Some? && replay.value.calls == 0
            && ContentOf(Assembling(e, inputs.(records := replay.value.records), topological)) == ContentOf(Assembling(e, inputs, topological))
  {
    hide Replay.AllPrepared, Replay.DistinctSets, Replay.Run, Replay.Replays, Replay.Uniform, Replay.Stored, Assembling, ContentOf;
    Replay.ColdRunReplays(jobs, serve, stored, again);
    ReplaysAgree(jobs, inputs.records);
    AlikeContent(e, inputs.(records := Replay.Replays(jobs, inputs.records)), inputs, topological);
  }

  // ---------- the report ----------

  lemma {:induction false} StrippedBlocks(catalog: Catalog, blocks: seq<Block>)
    ensures BlockAtoms(StripBlocks(blocks)) == BlockAtoms(blocks)
    ensures forall b :: b in StripBlocks(blocks) <==> exists own :: own in blocks && b == StripBlock(own)
  {
    if blocks != [] {
      var n := |blocks| - 1;
      StrippedBlocks(catalog, blocks[..n]);
      assert blocks == blocks[..n] + [blocks[n]];
      assert forall own :: own in blocks <==> own in blocks[..n] || own == blocks[n];
    }
  }

  lemma StripSnoc(blocks: seq<Block>)
    requires blocks != []
    ensures StripBlocks(blocks)[0] == StripBlock(blocks[0]) && StripBlocks(blocks)[1..] == StripBlocks(blocks[1..])
    decreases |blocks|
  {
    var n := |blocks| - 1;
    if n > 0 {
      StripSnoc(blocks[..n]);
      assert blocks[..n][1..] == blocks[1..][..n - 1];
    }
  }

  lemma StrippedBlock(catalog: Catalog, b: Block)
    ensures CompareBlock(catalog, StripBlock(b)) == CompareBlock(catalog, b)
    ensures ValidTableBlock(StripBlock(b)) <==> ValidTableBlock(b)
  {
  }

  lemma {:induction false} SameComparison(catalog: Catalog, blocks: seq<Block>)
    ensures CompareBlocks(catalog, StripBlocks(blocks)) == CompareBlocks(catalog, blocks)
  {
    hide CompareBlock, StripBlocks;
    if blocks != [] {
      StripSnoc(blocks);
      StrippedBlock(catalog, blocks[0]);
      SameComparison(catalog, blocks[1..]);
    } else {
      assert StripBlocks(blocks) == [];
    }
  }

  lemma SameTables(catalog: Catalog, blocks: seq<Block>)
    ensures HasBrokenTable(StripBlocks(blocks)) <==> HasBrokenTable(blocks)
  {
    hide ValidTableBlock, StripBlocks;
    StrippedBlocks(catalog, blocks);
    forall b | b in blocks ensures StripBlock(b) in StripBlocks(blocks) && (ValidTableBlock(StripBlock(b)) <==> ValidTableBlock(b)) {
      StrippedBlock(catalog, b);
    }
  }

  lemma {:induction false} StrippedFigures(figures: seq<FigureEntry>)
    ensures CaptionAtoms(StripFigures(figures)) == CaptionAtoms(figures)
    ensures forall f :: f in StripFigures(figures) <==> exists own :: own in figures && f == own.(decisions := [])
  {
    if figures != [] {
      var n := |figures| - 1;
      StrippedFigures(figures[..n]);
      assert figures == figures[..n] + [figures[n]];
      assert forall own :: own in figures <==> own in figures[..n] || own == figures[n];
    }
  }

  lemma SameTexts(catalog: Catalog, doc: Document)
    ensures CompareTexts(catalog, HashedContent(doc)) == CompareTexts(catalog, doc)
  {
    hide CompareBlocks, StripBlocks, StripFigures;
    SameComparison(catalog, doc.blocks);
    StrippedFigures(doc.figures);
    forall f | f in doc.figures
      ensures f.(decisions := []) in StripFigures(doc.figures)
      ensures CaptionDiffers(catalog, f.(decisions := [])) <==> CaptionDiffers(catalog, f)
    {
    }
  }

  lemma {:induction false} StrippedDispositions(whitespace: seq<Disposition>)
    ensures DispositionAtoms(StripWhitespace(whitespace)) == DispositionAtoms(whitespace)
  {
    if whitespace != [] { StrippedDispositions(whitespace[..|whitespace| - 1]); }
  }

  lemma {:induction false} StrippedContinuations(continuations: seq<Continuation>)
    ensures forall c :: c in StripContinuations(continuations) <==> exists own :: own in continuations && c == own.(decision := NO_DECISION)
  {
    if continuations != [] {
      var n := |continuations| - 1;
      StrippedContinuations(continuations[..n]);
      assert continuations == continuations[..n] + [continuations[n]];
      assert forall own :: own in continuations <==> own in continuations[..n] || own == continuations[n];
    }
  }

  lemma SameJoins(doc: Document, layout: Option<Layout>, checks: Checks)
    ensures HasBrokenContinuation(HashedContent(doc), layout, checks) <==> HasBrokenContinuation(doc, layout, checks)
  {
    hide StripContinuations, FirstIndex;
    StrippedContinuations(doc.continuations);
    if layout.Some? {
      forall c | c in doc.continuations
        ensures c.(decision := NO_DECISION) in StripContinuations(doc.continuations)
        ensures ValidContinuation(c.(decision := NO_DECISION), doc.order, layout.value, checks.overlaps) <==>
                ValidContinuation(c, doc.order, layout.value, checks.overlaps)
      {
      }
    }
  }

  /** The findings about a document are findings about its hashed content: they do not depend on
      the decisions. */
  lemma FindingsAreAboutContent(e: EvidenceDocument, doc: Document, layout: Option<Layout>, checks: Checks)
    ensures FindingsOf(e, HashedContent(doc), layout, checks) == FindingsOf(e, doc, layout, checks)
    ensures CompareTexts(CatalogOf(e.atoms), HashedContent(doc)) == CompareTexts(CatalogOf(e.atoms), doc)
  {
    hide When, CompareTexts, Unaccounted, HasBrokenTable, HasBrokenContinuation, Missing, Repeats, CatalogOf, AtomIds, Disordered,
      UnprovenExclusion, RefersToUnknown, StripBlocks, StripFigures, StripWhitespace, StripContinuations;
    var catalog := CatalogOf(e.atoms);
    StrippedBlocks(catalog, doc.blocks);
    StrippedFigures(doc.figures);
    StrippedDispositions(doc.whitespace);
    SameTexts(catalog, doc);
    SameTables(catalog, doc.blocks);
    SameJoins(doc, layout, checks);
  }
}
