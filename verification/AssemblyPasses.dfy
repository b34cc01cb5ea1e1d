/** The assembler against the validator: what a document assembled from covering candidates
    can still be reported for. */
module AssemblyPasses {
  import opened Common
  import opened Spacing
  import opened TableGrid
  import opened Candidates
  import opened Evidence
  import opened Canonical
  import opened Assembly
  import opened Validator
  import opened ValidatorSoundness
  import opened CellProjection
  import opened AssemblerCompleteness
  import TableText

  // ---------- one block ----------

  lemma {:induction false} SourceTextKeeps(catalog: Catalog, ids: seq<AtomId>)
    requires ValidCatalog(catalog)
    ensures Squeeze(SourceText(catalog, ids)) == AtomText(catalog, ids)
  {
    if ids == [] {
      SqueezeBlank("");
    } else {
      var text := if ids[0] in catalog then catalog[ids[0]].text else "";
      SourceTextKeeps(catalog, ids[1..]);
      SqueezeConcat(text, SourceText(catalog, ids[1..]));
      if IsVisible(catalog, ids[0]) { AtomSqueezes(catalog, ids[0]); } else { SqueezeBlank(text); }
    }
  }

  lemma {:induction false} CellAtomsSnoc(cells: seq<Cell>)
    requires cells != []
    ensures CellAtoms(cells) == CellAtoms(cells[..|cells| - 1]) + cells[|cells| - 1].atoms
  {
    var n := |cells| - 1;
    if n == 0 {
      assert cells[1..] == [] && cells[0].atoms + [] == cells[0].atoms && [] + cells[0].atoms == cells[0].atoms;
    } else {
      CellAtomsSnoc(cells[1..]);
      assert cells[1..][..n - 1] == cells[..n][1..];
      ConcatAssociates(cells[0].atoms, CellAtoms(cells[..n][1..]), cells[n].atoms);
    }
  }

  /** The canonical cells hold the visible atoms of the table's cells. */
  lemma {:induction false} CellAtomsVisible(catalog: Catalog, cells: seq<Cell>, spacing: Option<SpacedCandidate>)
    ensures CellAtomsOf(CanonicalCells(catalog, cells, spacing)) == VisibleOnly(catalog, CellAtoms(cells))
  {
    hide CellText, VisibleOnly, CanonicalCells, CellAtoms;
    NoCellAtoms();
    var made := CanonicalCells(catalog, cells, spacing);
    if cells == [] {
      assert VisibleOnly(catalog, []) == [] by { NoneVisible(catalog); }
    } else {
      var n := |cells| - 1;
      CellAtomsVisible(catalog, cells[..n], spacing);
      assert made[..n] == CanonicalCells(catalog, cells[..n], spacing);
      CellAtomsSnoc(cells);
      VisibleConcat(catalog, CellAtoms(cells[..n]), cells[n].atoms);
    }
  }

  lemma NoCellAtoms()
    ensures CellAtoms([]) == []
  {
  }

  lemma NoneVisible(catalog: Catalog)
    ensures VisibleOnly(catalog, []) == [] && AtomText(catalog, []) == ""
  {
  }

  lemma CellKeeps(catalog: Catalog, cell: Cell, spacing: Option<SpacedCandidate>)
    requires ValidCatalog(catalog) && (spacing.None? && cell.rendered.Some? ==> Squeeze(cell.rendered.value) == AtomText(catalog, cell.atoms))
    ensures !CellDiffers(catalog, CanonicalCellOf(catalog, cell, spacing))
  {
    hide Project, AtomText, Squeeze, VisibleOnly;
    ProjectionKeepsCharacters(catalog, cell.atoms, spacing);
    TextOfVisible(catalog, cell.atoms);
  }

  lemma SpansKept(catalog: Catalog, cells: seq<Cell>, spacing: Option<SpacedCandidate>)
    ensures TableText.SpansOf(CanonicalCells(catalog, cells, spacing)) == Candidates.SpansOf(cells)
    ensures (forall cell :: cell in cells ==> ValidSpan(cell.span)) ==>
              forall i :: 0 <= i < |cells| ==> TableText.ProperSpan(CanonicalCells(catalog, cells, spacing)[i].span)
  {
    hide CellText, VisibleOnly;
    assert forall i :: 0 <= i < |cells| ==> cells[i] in cells;
  }

  /** A covering table makes a block that compares equal and whose grid is valid. */
  lemma TableFits(catalog: Catalog, region: LayoutRegion, table: Table, spacing: Option<SpacedCandidate>, block: Block)
    requires ValidCatalog(catalog) && CoveringTable(catalog, region, table, spacing)
    requires var cells := CanonicalCells(catalog, table.cells, spacing);
             block.shape == TableShape(table.rows, table.columns, cells) && block.text == PlainText(table.rows, table.columns, cells)
    requires block.atoms == VisibleOnly(catalog, region.atoms)
    ensures CompareBlock(catalog, block) == Same && ValidTableBlock(block)
    ensures StartsInside(table.rows, table.columns, CanonicalCells(catalog, table.cells, spacing))
  {
    hide CanonicalCells, Tiles, VisibleOnly, CellAtoms, CellAtomsOf, PlainText, CellDiffers;
    var cells := CanonicalCells(catalog, table.cells, spacing);
    SpansKept(catalog, table.cells, spacing);
    TableText.TilesStart(table.rows, table.columns, cells);
    CellAtomsVisible(catalog, table.cells, spacing);
    VisibleDistinct(catalog, CellAtoms(table.cells));
    forall id ensures id in VisibleOnly(catalog, CellAtoms(table.cells)) <==> id in block.atoms {
      InVisible(catalog, CellAtoms(table.cells), id);
      InVisible(catalog, region.atoms, id);
    }
    forall cell | cell in cells ensures !CellDiffers(catalog, cell) {
      var i :| 0 <= i < |cells| && cells[i] == cell;
      CellKeeps(catalog, table.cells[i], spacing);
    }
  }

  /** Each part a covered region becomes passes the character and grid checks. */
  lemma PartFits(inputs: Inputs, region: LayoutRegion)
    requires ValidCatalog(inputs.catalog) && CoveredRegion(inputs, region) && PartOf(inputs, region).BlockPart?
    ensures var block := PartOf(inputs, region).block;
            CompareBlock(inputs.catalog, block) == Same && ValidTableBlock(block)
    ensures (forall id :: id in region.atoms ==> id in inputs.catalog) ==> Resolvable(inputs, region)
  {
    hide CanonicalCells, CoveringTable, SpacingFor, KindFor, DecisionsOn, VisibleOnly, StartsInside;
    var block := PartOf(inputs, region).block;
    var table, spacing := TableFor(inputs, region.id), SpacingFor(inputs, region.id);
    if table.Some? {
      TableNeedsKind(inputs, region.id);
      TableFits(inputs.catalog, region, table.value, spacing, block);
      KnownTable(inputs.catalog, region, table.value, spacing);
    } else {
      NotATable(inputs, region);
      SourceTextKeeps(inputs.catalog, region.atoms);
      TextOfVisible(inputs.catalog, region.atoms);
    }
  }

  lemma TableNeedsKind(inputs: Inputs, region: RegionId)
    requires TableFor(inputs, region).Some?
    ensures KindFor(inputs, region) == Some(TableBlock)
  {
  }

  lemma NotATable(inputs: Inputs, region: LayoutRegion)
    requires TableFor(inputs, region.id).None?
    ensures !ShapeOf(KindFor(inputs, region.id), TableFor(inputs, region.id), CellsOf(inputs, region)).TableShape?
  {
  }

  lemma KnownTable(catalog: Catalog, region: LayoutRegion, table: Table, spacing: Option<SpacedCandidate>)
    requires CoveringTable(catalog, region, table, spacing)
    ensures forall cell :: cell in table.cells ==> KnownCell(catalog, cell)
  {
  }

  // ---------- all regions ----------

  /** Everything collected fits. */
  ghost predicate Fits(catalog: Catalog, layout: Layout, p: Pieces) {
    && (forall b :: b in p.blocks ==> CompareBlock(catalog, b) == Same && ValidTableBlock(b))
    && (forall f :: f in p.figures ==> f.caption == None && f.captionAtoms == [])
    && (forall x :: x in p.excluded ==> ValidExclusion(x, layout))
  }

  lemma Renumbered(catalog: Catalog, block: Block, order: nat)
    ensures CompareBlock(catalog, block.(order := order)) == CompareBlock(catalog, block)
    ensures ValidTableBlock(block.(order := order)) <==> ValidTableBlock(block)
  {
  }

  lemma OwnRegion(layout: Layout, region: LayoutRegion)
    requires Distinct(IdsOf(layout.regions)) && region in layout.regions
    ensures RegionById(layout.regions, region.id) == Some(region)
  {
    UniqueRegion(layout.regions, region, RegionById(layout.regions, region.id).value);
  }

  lemma ExclusionFits(inputs: Inputs, region: LayoutRegion)
    requires Distinct(IdsOf(inputs.layout.regions)) && region in inputs.layout.regions && IsEdge(region)
    ensures PartOf(inputs, region).ExcludedPart? && ValidExclusion(PartOf(inputs, region).excluded, inputs.layout)
  {
    OwnRegion(inputs.layout, region);
  }

  lemma PlacedFits(inputs: Inputs, p: Pieces, region: LayoutRegion)
    requires ValidCatalog(inputs.catalog) && (IsEdge(region) || CoveredRegion(inputs, region))
    requires Distinct(IdsOf(inputs.layout.regions)) && region in inputs.layout.regions
    requires Fits(inputs.catalog, inputs.layout, p)
    ensures Fits(inputs.catalog, inputs.layout, Place(p, PartOf(inputs, region), SpaceOf(inputs, region)))
  {
    hide CompareBlock, ValidTableBlock, ValidExclusion, CoveredRegion, SpaceOf, ValidCatalog;
    var part := PartOf(inputs, region);
    var after := Place(p, part, SpaceOf(inputs, region));
    if IsEdge(region) {
      ExclusionFits(inputs, region);
    } else if part.BlockPart? {
      PartFits(inputs, region);
      Renumbered(inputs.catalog, part.block, |p.blocks|);
    }
    FitsAfter(inputs, p, part, SpaceOf(inputs, region));
  }

  lemma FitsAfter(inputs: Inputs, p: Pieces, part: Part, whitespace: seq<Disposition>)
    requires Fits(inputs.catalog, inputs.layout, p)
    requires match part
             case ExcludedPart(x) => ValidExclusion(x, inputs.layout)
             case FigurePart(f) => f.caption == None && f.captionAtoms == []
             case BlockPart(b) =>
               CompareBlock(inputs.catalog, b.(order := |p.blocks|)) == Same && ValidTableBlock(b.(order := |p.blocks|))
    ensures Fits(inputs.catalog, inputs.layout, Place(p, part, whitespace))
  {
    hide CompareBlock, ValidTableBlock, ValidExclusion;
  }

  lemma {:induction false} CollectedFits(inputs: Inputs, regions: seq<LayoutRegion>)
    requires ValidCatalog(inputs.catalog) && Distinct(IdsOf(inputs.layout.regions))
    requires forall r :: r in regions ==> r in inputs.layout.regions && (IsEdge(r) || CoveredRegion(inputs, r))
    ensures Fits(inputs.catalog, inputs.layout, Collect(inputs, regions))
  {
    hide Fits, CoveredRegion, IsEdge, ValidCatalog, PartOf, SpaceOf, Place;
    if regions == [] {
      NothingFits(inputs);
    } else {
      var n := |regions| - 1;
      assert regions[n] in regions;
      assert forall r :: r in regions[..n] ==> r in regions;
      CollectedFits(inputs, regions[..n]);
      PlacedFits(inputs, Collect(inputs, regions[..n]), regions[n]);
    }
  }

  lemma NothingFits(inputs: Inputs)
    ensures Fits(inputs.catalog, inputs.layout, Pieces([], [], [], []))
  {
  }

  lemma {:induction false} RegionKnown(regions: seq<LayoutRegion>, region: LayoutRegion, id: AtomId)
    requires region in regions && id in region.atoms
    ensures id in RegionAtoms(regions)
  {
    var n := |regions| - 1;
    if region != regions[n] {
      assert regions == regions[..n] + [regions[n]];
      RegionKnown(regions[..n], region, id);
    }
  }

  /** A partitioned, covered layout resolves: assembly does not raise. */
  lemma RegionResolves(e: EvidenceDocument, inputs: Inputs, order: seq<RegionId>, region: LayoutRegion)
    requires Partitioned(e, inputs, order) && region in inputs.layout.regions && (IsEdge(region) || CoveredRegion(inputs, region))
    ensures Resolvable(inputs, region)
  {
    hide CoveredRegion, RegionAtoms, KindFor, SpacingFor;
    CatalogIsValid(e);
    forall id | id in region.atoms ensures id in inputs.catalog {
      RegionKnown(inputs.layout.regions, region, id);
      assert id in multiset(AtomIds(e.atoms));
    }
    if !IsEdge(region) {
      if PartOf(inputs, region).BlockPart? { PartFits(inputs, region); } else { NoTable(inputs, region.id); }
    }
  }

  // ---------- the whole document ----------

  /** All regions in order are the layout's, each an edge or covered by its candidates. */
  ghost predicate WellCovered(e: EvidenceDocument, inputs: Inputs, order: seq<RegionId>) {
    Partitioned(e, inputs, order) && forall r :: r in inputs.layout.regions ==> IsEdge(r) || CoveredRegion(inputs, r)
  }

  lemma RefersOnce(e: EvidenceDocument, inputs: Inputs, order: seq<RegionId>, regions: seq<LayoutRegion>, id: AtomId)
    requires Partitioned(e, inputs, order) && multiset(regions) == multiset(inputs.layout.regions)
    ensures var p := Collect(inputs, regions);
            && multiset(RegionAtoms(regions))[id] == (if id in AtomIds(e.atoms) then 1 else 0)
            && Mentions(p, id) + multiset(FigureAtoms(inputs, regions))[id] <= 1
            && (id !in AtomIds(e.atoms) ==> Mentions(p, id) == 0)
            && (IsVisible(inputs.catalog, id) ==> Mentions(p, id) + multiset(FigureAtoms(inputs, regions))[id] == 1)
  {
    hide Collect, FigureAtoms, Mentions, RegionAtoms, AtomIds, IsVisible, ValidCatalog;
    AtomsPermute(regions, inputs.layout.regions);
    MentionsOf(inputs, regions, id);
    DistinctMultiset(AtomIds(e.atoms), id);
    CatalogKeys(e.atoms, id);
    VisibleIsKnown(inputs.catalog, id);
  }

  lemma VisibleIsKnown(catalog: Catalog, id: AtomId)
    ensures IsVisible(catalog, id) ==> id in catalog
  {
  }

  lemma ReferencesOf(p: Pieces, id: AtomId, refs: seq<AtomId>)
    requires refs == BlockAtoms(p.blocks) + CaptionAtoms(p.figures) + ExcludedAtoms(p.excluded)
    ensures multiset(refs)[id] == Mentions(p, id) && (id in refs <==> Mentions(p, id) > 0)
  {
    assert id in refs <==> multiset(refs)[id] > 0;
  }

  /** Nothing is referenced twice or unknown, and exactly the figures' atoms are missing. */
  lemma ReferencesAreSound(e: EvidenceDocument, inputs: Inputs, order: seq<RegionId>, regions: seq<LayoutRegion>, refs: seq<AtomId>)
    requires Partitioned(e, inputs, order) && multiset(regions) == multiset(inputs.layout.regions)
    requires var p := Collect(inputs, regions); refs == BlockAtoms(p.blocks) + CaptionAtoms(p.figures) + ExcludedAtoms(p.excluded)
    ensures Distinct(refs) && !RefersToUnknown(inputs.catalog, refs)
    ensures Missing(inputs.catalog, AtomIds(e.atoms), refs) == Elements(FigureAtoms(inputs, regions))
    ensures Distinct(FigureAtoms(inputs, regions))
  {
    hide Collect, FigureAtoms, Mentions, RegionAtoms, AtomIds, CatalogOf, BlockAtoms, CaptionAtoms, ExcludedAtoms, IsVisible, VisibleOnly;
    var p, figures := Collect(inputs, regions), FigureAtoms(inputs, regions);
    forall id ensures multiset(refs)[id] <= 1 && multiset(figures)[id] <= 1 && (id in refs ==> id in inputs.catalog) {
      RefersOnce(e, inputs, order, regions, id);
      ReferencesOf(p, id, refs);
      CatalogKeys(e.atoms, id);
    }
    BagIsDistinct(refs);
    BagIsDistinct(figures);
    forall id ensures id in Missing(inputs.catalog, AtomIds(e.atoms), refs) <==> id in Elements(figures) {
      RefersOnce(e, inputs, order, regions, id);
      ReferencesOf(p, id, refs);
      InVisible(inputs.catalog, AtomIds(e.atoms), id);
      assert id in figures <==> multiset(figures)[id] > 0;
      FiguresAreVisible(inputs, regions, id);
      CatalogKeys(e.atoms, id);
      VisibleIsKnown(inputs.catalog, id);
    }
  }

  lemma {:induction false} FiguresAreVisible(inputs: Inputs, regions: seq<LayoutRegion>, id: AtomId)
    ensures id in FigureAtoms(inputs, regions) ==> IsVisible(inputs.catalog, id)
  {
    if regions != [] {
      var n := |regions| - 1;
      FiguresAreVisible(inputs, regions[..n], id);
      InVisible(inputs.catalog, regions[n].atoms, id);
    }
  }

  lemma DispositionsAreSound(e: EvidenceDocument, inputs: Inputs, order: seq<RegionId>, regions: seq<LayoutRegion>)
    requires Partitioned(e, inputs, order) && multiset(regions) == multiset(inputs.layout.regions)
    ensures !Unaccounted(inputs.catalog, AtomIds(e.atoms), DispositionAtoms(Collect(inputs, regions).whitespace))
  {
    hide Collect, FigureAtoms, Mentions, RegionAtoms, AtomIds, CatalogOf, DispositionAtoms, BlankOnly, ValidCatalog, IsBlankAtom, Repeats;
    CatalogIsValid(e);
    var spaces, source := DispositionAtoms(Collect(inputs, regions).whitespace), BlankOnly(inputs.catalog, AtomIds(e.atoms));
    forall id ensures multiset(spaces)[id] == multiset(source)[id] <= 1 {
      RefersOnce(e, inputs, order, regions, id);
      DisposedCount(inputs, regions, id);
      BlankCount(inputs.catalog, AtomIds(e.atoms), id);
      DistinctMultiset(AtomIds(e.atoms), id);
    }
    BagIsDistinct(spaces);
    NoRepeats(spaces);
    forall id ensures id in Elements(spaces) <==> id in Elements(source) {
      assert id in spaces <==> multiset(spaces)[id] > 0;
      assert id in source <==> multiset(source)[id] > 0;
    }
  }

  lemma FittingTexts(catalog: Catalog, layout: Layout, doc: Document, p: Pieces)
    requires Fits(catalog, layout, p) && doc.blocks == p.blocks && doc.figures == p.figures && doc.excluded == p.excluded
    ensures CompareTexts(catalog, doc) == Same && !HasBrokenTable(doc.blocks) && !UnprovenExclusion(doc.excluded, Some(layout))
  {
    hide CompareBlock, ValidTableBlock, ValidExclusion;
    CompareAll(catalog, doc.blocks);
    NoneVisible(catalog);
    SqueezeBlank("");
  }

  /** What remains to be found when the references, texts, whitespace, exclusions and grids are in order. */
  lemma FindingsLeft(e: EvidenceDocument, doc: Document, layout: Option<Layout>, checks: Checks)
    requires !Unbound(e, doc, layout) && !RefersToUnknown(CatalogOf(e.atoms), References(doc)) && Repeats(References(doc)) == 0
    requires CompareTexts(CatalogOf(e.atoms), doc) == Same
    requires !Unaccounted(CatalogOf(e.atoms), AtomIds(e.atoms), DispositionAtoms(doc.whitespace))
    requires !UnprovenExclusion(doc.excluded, layout) && !HasBrokenTable(doc.blocks)
    ensures FindingsOf(e, doc, layout, checks) ==
              When(Missing(CatalogOf(e.atoms), AtomIds(e.atoms), References(doc)) != {}, AllocationMissing)
              + When(Disordered(doc.order, layout), ReadingOrder)
              + When(HasBrokenContinuation(doc, layout, checks), BrokenContinuation) + When(!checks.markdown, MarkdownOutput)
  {
    hide Unbound, RefersToUnknown, Repeats, Missing, CompareTexts, Unaccounted, UnprovenExclusion, Disordered, HasBrokenTable,
      HasBrokenContinuation, References, DispositionAtoms, CatalogOf, AtomIds;
  }

  /** With a layout that partitions the atoms, an order that permutes its regions and candidates
      that cover theirs, assembly succeeds and its document is reported for nothing but the atoms
      of figures, an order against the layout graph, a continuation, or its Markdown; the atoms
      missing are exactly the non-whitespace atoms of the figure regions. */
  lemma AssemblyPassesExceptFigures(e: EvidenceDocument, inputs: Inputs, topological: seq<RegionId>, checks: Checks)
    requires WellCovered(e, inputs, OrderOf(inputs.sets, inputs.records, topological))
    ensures Assembling(e, inputs, topological).Assembled?
    ensures var order := OrderOf(inputs.sets, inputs.records, topological);
            var doc := Assembling(e, inputs, topological).document;
            var layout := Some(inputs.layout);
            && doc.order == order && KnownRegions(inputs.layout, order)
            && Validated(e, doc, layout, checks).Some?
            && var report, figures := Validated(e, doc, layout, checks).value, FigureAtoms(inputs, OrderedRegions(inputs.layout, order));
               && report.findings ==
                    When(figures != [], AllocationMissing) + When(Disordered(order, layout), ReadingOrder)
                    + When(HasBrokenContinuation(doc, layout, checks), BrokenContinuation) + When(!checks.markdown, MarkdownOutput)
               && report.missing == |figures| && report.duplicates == 0
               && Missing(inputs.catalog, AtomIds(e.atoms), References(doc)) == Elements(figures)
  {
    hide CoveredRegion, Collect, FigureAtoms, AtomIds, CatalogOf, Missing, CompareTexts, Disordered, HasBrokenContinuation,
      HasBrokenTable, UnprovenExclusion, Unaccounted, Repeats, RefersToUnknown, DispositionAtoms, ContinuationsOf, OrderOf, Fits,
      Resolvable, ReportOf, RegionAtoms, FindingsOf, When;
    var order := OrderOf(inputs.sets, inputs.records, topological);
    OrderedArePermuted(inputs.layout, order);
    var regions := OrderedRegions(inputs.layout, order);
    forall i | 0 <= i < |regions| ensures Resolvable(inputs, regions[i]) {
      RegionResolves(e, inputs, order, regions[i]);
    }
    var doc := DocumentOf(e.source, inputs, order, regions);
    CatalogIsValid(e);
    ReferencesAreSound(e, inputs, order, regions, References(doc));
    DispositionsAreSound(e, inputs, order, regions);
    CollectedFits(inputs, regions);
    FittingTexts(inputs.catalog, inputs.layout, doc, Collect(inputs, regions));
    NoRepeats(References(doc));
    FindingsLeft(e, doc, Some(inputs.layout), checks);
    ReportCounts(e, doc, FindingsOf(e, doc, Some(inputs.layout), checks));
    DistinctByCount(FigureAtoms(inputs, regions));
    NoElements(FigureAtoms(inputs, regions));
  }

  lemma NoElements(ids: seq<AtomId>)
    ensures Elements(ids) == {} <==> ids == []
  {
    if ids != [] { assert ids[0] in Elements(ids); }
  }
}
