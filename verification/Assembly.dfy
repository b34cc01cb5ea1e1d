/** `assemble_canonical`: the loop over the regions in reading order. */
module Assembly {
  import opened Common
  import opened Candidates
  import opened Decisions
  import opened Evidence
  import opened Canonical

  datatype Inputs = Inputs(catalog: Catalog, layout: Layout, sets: seq<FilledSet>, records: seq<Record>)

  // ---------- one region ----------

  /** A repeated page header, footer or number is excluded. */
  predicate IsEdge(region: LayoutRegion) {
    region.repeatedEdge && ReasonFor(region.hint).Some?
  }

  function SpacingFor(inputs: Inputs, region: RegionId): Option<SpacedCandidate> {
    var set_ := SetFor(inputs.sets, region, SpacingType);
    if set_.None? then None
    else
      var c := SelectedCandidate(set_.value, inputs.records);
      if c.SpacingCandidate? then Some(c) else None
  }

  function KindFor(inputs: Inputs, region: RegionId): Option<BlockKind> {
    var set_ := SetFor(inputs.sets, region, BlockType);
    if set_.None? then None
    else
      var c := SelectedCandidate(set_.value, inputs.records);
      if c.BlockCandidate? then Some(c.block) else None
  }

  type Table = c: Candidate | c.TableCandidate? witness TableCandidate(0, 0, 0, 0, [], [], 0.0, map[])

  function TableFor(inputs: Inputs, region: RegionId): Option<Table> {
    var set_ := SetFor(inputs.sets, region, TableType);
    if set_.None? || KindFor(inputs, region) != Some(TableBlock) then None
    else
      var c := SelectedCandidate(set_.value, inputs.records);
      if c.TableCandidate? then Some(c) else None
  }

  function DecisionsOn(inputs: Inputs, region: RegionId, kind: DecisionType): (ids: seq<DecisionId>)
    ensures |ids| <= 1
  {
    var set_ := SetFor(inputs.sets, region, kind);
    if set_.None? then []
    else
      var record := RecordFor(inputs.records, set_.value.id);
      if record.None? then [] else [record.value.id]
  }

  function SpacingDecision(inputs: Inputs, region: RegionId): DecisionId {
    var ids := DecisionsOn(inputs, region, SpacingType);
    if ids == [] then NO_DECISION else ids[0]
  }

  /** The text of every atom, whitespace included. */
  function SourceText(catalog: Catalog, ids: seq<AtomId>): string {
    if ids == [] then "" else (if ids[0] in catalog then catalog[ids[0]].text else "") + SourceText(catalog, ids[1..])
  }

  function ShapeOf(kind: Option<BlockKind>, table: Option<Table>, cells: seq<CanonicalCell>): Shape {
    if kind.None? then ParagraphShape
    else
      match kind.value
      case Heading(level) => HeadingShape(level)
      case ListItem(ordered, depth) => ListItemShape(ordered, depth)
      case Caption => CaptionShape
      case TableBlock => if table.Some? then TableShape(table.value.rows, table.value.columns, cells) else ParagraphShape
      case Paragraph => ParagraphShape
      case Figure => ParagraphShape
  }

  /** What a region becomes; a block's order is given when it is placed. */
  datatype Part = ExcludedPart(excluded: Excluded) | FigurePart(figure: FigureEntry) | BlockPart(block: Block)

  function CellsOf(inputs: Inputs, region: LayoutRegion): seq<CanonicalCell> {
    var table := TableFor(inputs, region.id);
    if table.Some? then CanonicalCells(inputs.catalog, table.value.cells, SpacingFor(inputs, region.id)) else []
  }

  function BlockText(inputs: Inputs, region: LayoutRegion): string {
    var table, spacing := TableFor(inputs, region.id), SpacingFor(inputs, region.id);
    if table.Some? then PlainText(table.value.rows, table.value.columns, CellsOf(inputs, region))
    else if spacing.Some? then spacing.value.text
    else SourceText(inputs.catalog, region.atoms)
  }

  function PartOf(inputs: Inputs, region: LayoutRegion): Part {
    if IsEdge(region) then ExcludedPart(Excluded(region.id, region.atoms, ReasonFor(region.hint).value))
    else
      var decisions := DecisionsOn(inputs, region.id, SpacingType) + DecisionsOn(inputs, region.id, BlockType);
      if KindFor(inputs, region.id) == Some(Candidates.Figure) then
        FigurePart(FigureEntry(region.id, region.page, None, [], decisions))
      else
        BlockPart(Block(
          0, region.id, region.page, ShapeOf(KindFor(inputs, region.id), TableFor(inputs, region.id), CellsOf(inputs, region)),
          BlockText(inputs, region), VisibleOnly(inputs.catalog, region.atoms),
          decisions + DecisionsOn(inputs, region.id, TableType)))
  }

  function SpaceOf(inputs: Inputs, region: LayoutRegion): seq<Disposition> {
    if IsEdge(region) then EdgeDispositions(inputs.catalog, region.atoms)
    else Dispositions(inputs.catalog, region.atoms, SpacingFor(inputs, region.id), SpacingDecision(inputs, region.id))
  }

  // ---------- all regions ----------

  datatype Pieces = Pieces(blocks: seq<Block>, figures: seq<FigureEntry>, excluded: seq<Excluded>, whitespace: seq<Disposition>)

  function Place(pieces: Pieces, part: Part, whitespace: seq<Disposition>): Pieces {
    match part
    case ExcludedPart(e) => pieces.(excluded := pieces.excluded + [e], whitespace := pieces.whitespace + whitespace)
    case FigurePart(f) => pieces.(figures := pieces.figures + [f], whitespace := pieces.whitespace + whitespace)
    case BlockPart(b) =>
      pieces.(blocks := pieces.blocks + [b.(order := |pieces.blocks|)], whitespace := pieces.whitespace + whitespace)
  }

  /** What the regions, taken in order, become. */
  function Collect(inputs: Inputs, regions: seq<LayoutRegion>): Pieces {
    if regions == [] then Pieces([], [], [], [])
    else
      var last := regions[|regions| - 1];
      Place(Collect(inputs, regions[..|regions| - 1]), PartOf(inputs, last), SpaceOf(inputs, last))
  }

  function ContinuationOf(set_: FilledSet, records: seq<Record>): seq<Continuation> {
    var c, record := SelectedCandidate(set_, records), RecordFor(records, set_.id);
    if set_.decision == ContinuationType && c.ContinuationCandidate? && c.joins && record.Some? then
      [Continuation(c.previous, c.current, record.value.id)]
    else []
  }

  function ContinuationsOf(sets: seq<FilledSet>, records: seq<Record>): seq<Continuation> {
    if sets == [] then []
    else ContinuationsOf(sets[..|sets| - 1], records) + ContinuationOf(sets[|sets| - 1], records)
  }

  /** The region of an ID; the last one wins. */
  function RegionById(regions: seq<LayoutRegion>, id: RegionId): (r: Option<LayoutRegion>)
    ensures r.Some? ==> r.value in regions && r.value.id == id
    ensures r.None? ==> forall other :: other in regions ==> other.id != id
  {
    if regions == [] then None
    else
      var last := regions[|regions| - 1];
      if last.id == id then Some(last) else RegionById(regions[..|regions| - 1], id)
  }

  predicate KnownRegions(layout: Layout, order: seq<RegionId>) {
    forall i :: 0 <= i < |order| ==> RegionById(layout.regions, order[i]).Some?
  }

  function OrderedRegions(layout: Layout, order: seq<RegionId>): (r: seq<LayoutRegion>)
    requires KnownRegions(layout, order)
    ensures |r| == |order| && forall i :: 0 <= i < |r| ==> r[i].id == order[i] && r[i] in layout.regions
  {
    seq(|order|, i requires 0 <= i < |order| => RegionById(layout.regions, order[i]).value)
  }

  /** The selected reading order, or the given order of the layout graph. */
  function OrderOf(sets: seq<FilledSet>, records: seq<Record>, topological: seq<RegionId>): seq<RegionId> {
    if sets == [] then topological
    else if sets[0].decision == ReadingOrderType then
      var c := SelectedCandidate(sets[0], records);
      if c.ReadingOrderCandidate? then c.order else topological
    else OrderOf(sets[1..], records, topological)
  }

  /** Every lookup the assembly of a region makes finds its entry. */
  predicate Resolvable(inputs: Inputs, region: LayoutRegion) {
    && (forall id :: id in region.atoms ==> id in inputs.catalog)
    && (!IsEdge(region) && TableFor(inputs, region.id).Some? ==>
          var table := TableFor(inputs, region.id).value;
          (forall cell :: cell in table.cells ==> KnownCell(inputs.catalog, cell))
          && StartsInside(table.rows, table.columns, CellsOf(inputs, region)))
  }

  predicate KnownCell(catalog: Catalog, cell: Cell) {
    forall id :: id in cell.atoms ==> id in catalog
  }

  datatype Assemblage = Assembled(document: Document) | SourceMismatch | Unresolved

  /** What `assemble_canonical` returns or raises. */
  function Assembling(evidence: EvidenceDocument, inputs: Inputs, topological: seq<RegionId>): Assemblage {
    var order := OrderOf(inputs.sets, inputs.records, topological);
    if evidence.source != inputs.layout.source then SourceMismatch
    else if !KnownRegions(inputs.layout, order) then Unresolved
    else
      var regions := OrderedRegions(inputs.layout, order);
      if exists i :: 0 <= i < |regions| && !Resolvable(inputs, regions[i]) then Unresolved
      else Assembled(DocumentOf(evidence.source, inputs, order, regions))
  }

  function DocumentOf(source: Hash, inputs: Inputs, order: seq<RegionId>, regions: seq<LayoutRegion>): Document {
    var pieces := Collect(inputs, regions);
    Document(source, order, pieces.blocks, pieces.figures, pieces.excluded, pieces.whitespace,
             ContinuationsOf(inputs.sets, inputs.records), inputs.records)
  }

  // ---------- the loops ----------

  /** The cells of a table, projected one by one. */
  method ProjectCells(catalog: Catalog, cells: seq<Cell>, spacing: Option<SpacedCandidate>) returns (r: seq<CanonicalCell>)
    requires forall cell :: cell in cells ==> KnownCell(catalog, cell)
    ensures r == CanonicalCells(catalog, cells, spacing)
  {
    hide CanonicalCells, Project, VisibleOnly;
    r := [];
    var i := 0;
    assert cells[0..] == cells;
    while i < |cells|
      invariant 0 <= i <= |cells|
      invariant r + CanonicalCells(catalog, cells[i..], spacing) == CanonicalCells(catalog, cells, spacing)
    {
      var cell := cells[i];
      assert cell in cells;
      CellsStep(catalog, cells, spacing, i);
      var text;
      if spacing.None? && cell.rendered.Some? {
        text := cell.rendered.value;
      } else {
        text := ProjectCellSpacing(catalog, cell.atoms, spacing);
      }
      var made := CanonicalCell(cell.id, cell.span, text, VisibleOnly(catalog, cell.atoms), cell.header);
      ConcatAssociates(r, [made], CanonicalCells(catalog, cells[i + 1..], spacing));
      r := r + [made];
      i := i + 1;
    }
    CellsStep(catalog, cells, spacing, |cells|);
    assert r + [] == r;
  }

  lemma CellsStep(catalog: Catalog, cells: seq<Cell>, spacing: Option<SpacedCandidate>, i: nat)
    requires i <= |cells|
    ensures CanonicalCells(catalog, cells[i..], spacing) ==
            if i == |cells| then []
            else
              [CanonicalCellOf(catalog, cells[i], spacing)] + CanonicalCells(catalog, cells[i + 1..], spacing)
  {
    if i < |cells| { assert cells[i..][0] == cells[i] && cells[i..][1..] == cells[i + 1..]; }
  }

  /** One turn of the loop of `assemble_canonical`; nothing when a lookup raises. */
  method AssembleRegion(inputs: Inputs, region: LayoutRegion, pieces: Pieces) returns (r: Option<Pieces>)
    ensures r == if Resolvable(inputs, region) then Some(Place(pieces, PartOf(inputs, region), SpaceOf(inputs, region))) else None
  {
    hide CanonicalCells, PlainText, Dispositions, EdgeDispositions, SetFor, RecordFor, SelectedCandidate, VisibleOnly, SourceText,
      SpacingFor, KindFor, TableFor, DecisionsOn, StartsInside;
    if exists id :: id in region.atoms && id !in inputs.catalog { return None; }
    if IsEdge(region) {
      return Some(pieces.(
        excluded := pieces.excluded + [Excluded(region.id, region.atoms, ReasonFor(region.hint).value)],
        whitespace := pieces.whitespace + EdgeDispositions(inputs.catalog, region.atoms)));
    }
    var spacing, kind, table := SpacingFor(inputs, region.id), KindFor(inputs, region.id), TableFor(inputs, region.id);
    var text := if spacing.Some? then spacing.value.text else SourceText(inputs.catalog, region.atoms);
    var decisions := DecisionsOn(inputs, region.id, SpacingType) + DecisionsOn(inputs, region.id, BlockType);
    var whitespace := WhitespaceDispositions(inputs.catalog, region.atoms, spacing, SpacingDecision(inputs, region.id));
    var placed := pieces.(whitespace := pieces.whitespace + whitespace);
    if kind == Some(Candidates.Figure) {
      NoTable(inputs, region.id);
      return Some(placed.(figures := placed.figures + [FigureEntry(region.id, region.page, None, [], decisions)]));
    }
    var cells := [];
    if table.Some? {
      if exists cell :: cell in table.value.cells && !KnownCell(inputs.catalog, cell) { return None; }
      cells := ProjectCells(inputs.catalog, table.value.cells, spacing);
      var joined := TablePlainText(table.value.rows, table.value.columns, cells);
      if joined.None? { return None; }
      text := joined.value;
    }
    var block := Block(
      |placed.blocks|, region.id, region.page, ShapeOf(kind, table, cells), text, VisibleOnly(inputs.catalog, region.atoms),
      decisions + DecisionsOn(inputs, region.id, TableType));
    return Some(placed.(blocks := placed.blocks + [block]));
  }

  lemma NoTable(inputs: Inputs, region: RegionId)
    requires KindFor(inputs, region) == Some(Candidates.Figure)
    ensures TableFor(inputs, region).None?
  {
  }

  /** `assemble_canonical`. */
  method AssembleCanonical(evidence: EvidenceDocument, layout: Layout, sets: seq<FilledSet>, records: seq<Record>, topological: seq<RegionId>)
    returns (outcome: Assemblage)
    ensures outcome == Assembling(evidence, Inputs(CatalogOf(evidence.atoms), layout, sets, records), topological)
  {
    hide Place, PartOf, SpaceOf, Resolvable, ContinuationOf, OrderOf;
    if evidence.source != layout.source { return SourceMismatch; }
    var inputs := Inputs(CatalogOf(evidence.atoms), layout, sets, records);
    var order := OrderOf(sets, records, topological);
    var pieces := Pieces([], [], [], []);
    if !KnownRegions(layout, order) { return Unresolved; }
    var regions := OrderedRegions(layout, order);
    for i := 0 to |regions|
      invariant pieces == Collect(inputs, regions[..i])
      invariant forall k :: 0 <= k < i ==> Resolvable(inputs, regions[k])
    {
      assert regions[..i + 1][..i] == regions[..i];
      var next := AssembleRegion(inputs, regions[i], pieces);
      if next.None? { return Unresolved; }
      pieces := next.value;
    }
    assert regions[..|regions|] == regions;
    var continuations := [];
    for i := 0 to |sets|
      invariant continuations == ContinuationsOf(sets[..i], records)
    {
      assert sets[..i + 1][..i] == sets[..i];
      continuations := continuations + ContinuationOf(sets[i], records);
    }
    assert sets[..|sets|] == sets;
    outcome := Assembled(Document(evidence.source, order, pieces.blocks, pieces.figures, pieces.excluded, pieces.whitespace, continuations, records));
  }
}
