/** `validate_canonical`: the findings about a canonical document, in the order they are made. */
module Validator {
  import opened Common
  import opened Spacing
  import opened TableGrid
  import opened Candidates
  import opened Decisions
  import opened Evidence
  import opened Canonical
  import opened Assembly
  import TableText

  datatype FindingCode =
    | SourceBinding | EvidenceReference | AllocationDuplicate | AllocationMissing | CharacterLoss
    | WhitespaceAccounting | ExclusionProof | ReadingOrder | BrokenGrid | BrokenContinuation | MarkdownOutput

  datatype ReportStatus = Verified | ReviewPending | RequiresReview | Failed

  /** The content hash is the content it is taken of; the coverage is not rounded. */
  datatype Report = Report(
    status: ReportStatus, publishable: bool, source: Hash, content: Document, findings: seq<FindingCode>, coverage: real,
    missing: nat, duplicates: nat, degraded: nat, calls: nat)

  /** The two checks made outside: that the boxes of two regions overlap enough, and that the
      rendered Markdown is neither empty nor raw HTML. */
  datatype Checks = Checks(overlaps: (RegionId, RegionId) -> bool, markdown: bool)

  // ---------- allocation ----------

  function BlockAtoms(blocks: seq<Block>): seq<AtomId> {
    if blocks == [] then [] else BlockAtoms(blocks[..|blocks| - 1]) + blocks[|blocks| - 1].atoms
  }

  function CaptionAtoms(figures: seq<FigureEntry>): seq<AtomId> {
    if figures == [] then [] else CaptionAtoms(figures[..|figures| - 1]) + figures[|figures| - 1].captionAtoms
  }

  function ExcludedAtoms(excluded: seq<Excluded>): seq<AtomId> {
    if excluded == [] then [] else ExcludedAtoms(excluded[..|excluded| - 1]) + excluded[|excluded| - 1].atoms
  }

  /** Every atom reference of the document: allocated, then excluded. */
  function References(doc: Document): seq<AtomId> {
    BlockAtoms(doc.blocks) + CaptionAtoms(doc.figures) + ExcludedAtoms(doc.excluded)
  }

  function DispositionAtoms(whitespace: seq<Disposition>): seq<AtomId> {
    if whitespace == [] then [] else DispositionAtoms(whitespace[..|whitespace| - 1]) + [whitespace[|whitespace| - 1].atom]
  }

  function Elements(ids: seq<AtomId>): set<AtomId> {
    set id | id in ids
  }

  /** How many references repeat an earlier one. */
  function Repeats(ids: seq<AtomId>): nat {
    DistinctByCount(ids);
    |ids| - |set id | id in ids|
  }

  function Missing(catalog: Catalog, source: seq<AtomId>, references: seq<AtomId>): set<AtomId> {
    Elements(VisibleOnly(catalog, source)) - Elements(references)
  }

  /** The part of the source characters that is referenced. */
  function Coverage(characters: seq<AtomId>, references: seq<AtomId>): real {
    if characters == [] then 1.0
    else |Elements(characters) * Elements(references)| as real / |characters| as real
  }

  // ---------- characters ----------

  /** Comparing a table's text indexes rows by the starts of its cells, which can raise. */
  datatype Comparison = Same | Different | IndexError

  predicate CellDiffers(catalog: Catalog, cell: CanonicalCell) {
    Squeeze(cell.text) != AtomText(catalog, cell.atoms)
  }

  function CompareBlock(catalog: Catalog, block: Block): Comparison {
    match block.shape
    case TableShape(rows, columns, cells) =>
      if !StartsInside(rows, columns, cells) then IndexError
      else if block.text != PlainText(rows, columns, cells) then Different
      else if exists cell :: cell in cells && CellDiffers(catalog, cell) then Different
      else Same
    case _ => if Squeeze(block.text) != AtomText(catalog, block.atoms) then Different else Same
  }

  /** The first block that differs or raises decides. */
  function CompareBlocks(catalog: Catalog, blocks: seq<Block>): Comparison {
    if blocks == [] then Same
    else if CompareBlock(catalog, blocks[0]) != Same then CompareBlock(catalog, blocks[0])
    else CompareBlocks(catalog, blocks[1..])
  }

  function CaptionText(figure: FigureEntry): string {
    if figure.caption.Some? then figure.caption.value else ""
  }

  predicate CaptionDiffers(catalog: Catalog, figure: FigureEntry) {
    Squeeze(CaptionText(figure)) != AtomText(catalog, figure.captionAtoms)
  }

  function CompareTexts(catalog: Catalog, doc: Document): Comparison {
    if CompareBlocks(catalog, doc.blocks) != Same then CompareBlocks(catalog, doc.blocks)
    else if exists f :: f in doc.figures && CaptionDiffers(catalog, f) then Different
    else Same
  }

  // ---------- structure ----------

  predicate ValidExclusion(e: Excluded, layout: Layout) {
    var region := RegionById(layout.regions, e.region);
    && region.Some? && region.value.repeatedEdge && ReasonFor(region.value.hint) == Some(e.reason)
    && region.value.atoms == e.atoms
  }

  predicate Precedes(order: seq<RegionId>, before: RegionId, after: RegionId) {
    exists i, j :: 0 <= i < j < |order| && order[i] == before && order[j] == after
  }

  /** `_valid_region_order`. */
  predicate ValidRegionOrder(order: seq<RegionId>, layout: Layout) {
    && Distinct(order)
    && (forall id :: id in order ==> RegionById(layout.regions, id).Some?)
    && (forall r :: r in layout.regions ==> r.id in order)
    && forall e :: e in layout.edges ==> Precedes(order, e.before, e.after)
  }

  function CellAtomsOf(cells: seq<CanonicalCell>): seq<AtomId> {
    if cells == [] then [] else CellAtomsOf(cells[..|cells| - 1]) + cells[|cells| - 1].atoms
  }

  /** `_valid_table`. */
  ghost predicate ValidTableBlock(block: Block) {
    match block.shape
    case TableShape(rows, columns, cells) =>
      && rows * columns <= MAX_TABLE_GRID_AREA
      && Distinct(CellAtomsOf(cells)) && Elements(CellAtomsOf(cells)) == Elements(block.atoms)
      && Tiles(rows, columns, TableText.SpansOf(cells))
    case _ => true
  }

  function FirstIndex(order: seq<RegionId>, id: RegionId): (i: nat)
    requires id in order
    ensures i < |order| && order[i] == id && id !in order[..i]
  {
    if order[0] == id then 0
    else
      var i := FirstIndex(order[1..], id);
      assert order[..i + 1] == [order[0]] + order[1..][..i];
      i + 1
  }

  /** `_valid_continuation`: successive pages, in order, with only repeated edges between. */
  predicate ValidContinuation(c: Continuation, order: seq<RegionId>, layout: Layout, overlaps: (RegionId, RegionId) -> bool) {
    && c.previous in order && c.current in order
    && var previous, current := RegionById(layout.regions, c.previous), RegionById(layout.regions, c.current);
       && previous.Some? && current.Some? && current.value.page == previous.value.page + 1
       && FirstIndex(order, c.previous) < FirstIndex(order, c.current)
       && (forall i :: FirstIndex(order, c.previous) < i < FirstIndex(order, c.current) ==>
             var between := RegionById(layout.regions, order[i]); between.Some? ==> between.value.repeatedEdge)
       && overlaps(c.previous, c.current)
  }

  // ---------- the report ----------

  function When(condition: bool, code: FindingCode): seq<FindingCode> {
    if condition then [code] else []
  }

  predicate Unbound(e: EvidenceDocument, doc: Document, layout: Option<Layout>) {
    e.source != doc.source || (layout.Some? && layout.value.source != e.source)
  }

  predicate RefersToUnknown(catalog: Catalog, refs: seq<AtomId>) {
    exists id :: id in refs && id !in catalog
  }

  predicate Unaccounted(catalog: Catalog, source: seq<AtomId>, dispositions: seq<AtomId>) {
    Elements(dispositions) != Elements(BlankOnly(catalog, source)) || Repeats(dispositions) != 0
  }

  predicate UnprovenExclusion(excluded: seq<Excluded>, layout: Option<Layout>) {
    excluded != [] && (layout.None? || exists x :: x in excluded && !ValidExclusion(x, layout.value))
  }

  predicate Disordered(order: seq<RegionId>, layout: Option<Layout>) {
    layout.Some? && !ValidRegionOrder(order, layout.value)
  }

  ghost predicate HasBrokenTable(blocks: seq<Block>) {
    exists b :: b in blocks && !ValidTableBlock(b)
  }

  predicate HasBrokenContinuation(doc: Document, layout: Option<Layout>, checks: Checks) {
    layout.Some? && exists c :: c in doc.continuations && !ValidContinuation(c, doc.order, layout.value, checks.overlaps)
  }

  ghost function FindingsOf(e: EvidenceDocument, doc: Document, layout: Option<Layout>, checks: Checks): seq<FindingCode> {
    var catalog, ids, refs := CatalogOf(e.atoms), AtomIds(e.atoms), References(doc);
    When(Unbound(e, doc, layout), SourceBinding)
    + When(RefersToUnknown(catalog, refs), EvidenceReference)
    + When(Repeats(refs) != 0, AllocationDuplicate)
    + When(Missing(catalog, ids, refs) != {}, AllocationMissing)
    + When(CompareTexts(catalog, doc) == Different, CharacterLoss)
    + When(Unaccounted(catalog, ids, DispositionAtoms(doc.whitespace)), WhitespaceAccounting)
    + When(UnprovenExclusion(doc.excluded, layout), ExclusionProof)
    + When(Disordered(doc.order, layout), ReadingOrder)
    + When(HasBrokenTable(doc.blocks), BrokenGrid)
    + When(HasBrokenContinuation(doc, layout, checks), BrokenContinuation)
    + When(!checks.markdown, MarkdownOutput)
  }

  predicate NeedsAttention(d: Record) {
    d.outcome == ReviewRequired || d.outcome == DeferredReview
  }

  function StatusOf(findings: seq<FindingCode>, decisions: seq<Record>): ReportStatus {
    if findings != [] then Failed
    else if exists d :: d in decisions && d.outcome == ReviewRequired then RequiresReview
    else if exists d :: d in decisions && d.outcome == DeferredReview then ReviewPending
    else Verified
  }

  /** `sum(_current_model_call_count(...))`. */
  function TotalCalls(decisions: seq<Record>): nat {
    if decisions == [] then 0 else TotalCalls(decisions[..|decisions| - 1]) + ModelCalls(decisions[|decisions| - 1])
  }

  function ReportOf(e: EvidenceDocument, doc: Document, findings: seq<FindingCode>): Report {
    var refs, status := References(doc), StatusOf(findings, doc.decisions);
    Report(status, status == Verified || status == ReviewPending, e.source, HashedContent(doc), findings,
           Coverage(VisibleOnly(CatalogOf(e.atoms), AtomIds(e.atoms)), refs), |Missing(CatalogOf(e.atoms), AtomIds(e.atoms), refs)|, Repeats(refs),
           |set d | d in doc.decisions && NeedsAttention(d) :: d.region|, TotalCalls(doc.decisions))
  }

  /** What `validate_canonical` returns; nothing when the character comparison raises. */
  ghost function Validated(e: EvidenceDocument, doc: Document, layout: Option<Layout>, checks: Checks): Option<Report> {
    if CompareTexts(CatalogOf(e.atoms), doc) == IndexError then None
    else Some(ReportOf(e, doc, FindingsOf(e, doc, layout, checks)))
  }

  // ---------- the loops ----------

  /** The generator over the blocks in the character comparison. */
  method CompareEachBlock(catalog: Catalog, blocks: seq<Block>) returns (c: Comparison)
    ensures c == CompareBlocks(catalog, blocks)
  {
    assert blocks[0..] == blocks;
    var i := 0;
    while i < |blocks|
      invariant 0 <= i <= |blocks|
      invariant CompareBlocks(catalog, blocks[i..]) == CompareBlocks(catalog, blocks)
    {
      assert blocks[i..][0] == blocks[i] && blocks[i..][1..] == blocks[i + 1..];
      var block := blocks[i];
      if block.shape.TableShape? {
        var text := TablePlainText(block.shape.rows, block.shape.columns, block.shape.cells);
        if text.None? { return IndexError; }
        if block.text != text.value || exists cell :: cell in block.shape.cells && CellDiffers(catalog, cell) { return Different; }
      } else if Squeeze(block.text) != AtomText(catalog, block.atoms) {
        return Different;
      }
      i := i + 1;
    }
    c := Same;
  }

  /** `_valid_table` on a table block. */
  method IsValidTable(block: Block) returns (valid: bool)
    ensures valid <==> ValidTableBlock(block)
  {
    if !block.shape.TableShape? { return true; }
    var cells := block.shape.cells;
    if block.shape.rows * block.shape.columns > MAX_TABLE_GRID_AREA { return false; }
    var atoms := CellAtomsOf(cells);
    DistinctByCount(atoms);
    if |atoms| != |set id | id in atoms| || Elements(atoms) != Elements(block.atoms) { return false; }
    valid := GridIsValid(block.shape.rows, block.shape.columns, TableText.SpansOf(cells));
  }

  method AnyBrokenTable(blocks: seq<Block>) returns (broken: bool)
    ensures broken <==> HasBrokenTable(blocks)
  {
    for i := 0 to |blocks|
      invariant forall k :: 0 <= k < i ==> ValidTableBlock(blocks[k])
    {
      var valid := IsValidTable(blocks[i]);
      if !valid {
        assert blocks[i] in blocks;
        return true;
      }
    }
    broken := false;
  }

  /** `validate_canonical`. */
  method ValidateCanonical(e: EvidenceDocument, doc: Document, layout: Option<Layout>, checks: Checks) returns (report: Option<Report>)
    ensures report == Validated(e, doc, layout, checks)
  {
    hide When, Unbound, RefersToUnknown, Repeats, Missing, CompareTexts, CompareBlocks, CaptionDiffers, Unaccounted, UnprovenExclusion,
      Disordered, HasBrokenTable, HasBrokenContinuation, References, DispositionAtoms, CatalogOf, AtomIds, ReportOf;
    var catalog, ids, refs := CatalogOf(e.atoms), AtomIds(e.atoms), References(doc);
    var findings := When(Unbound(e, doc, layout), SourceBinding);
    findings := findings + When(RefersToUnknown(catalog, refs), EvidenceReference);
    findings := findings + When(Repeats(refs) != 0, AllocationDuplicate);
    findings := findings + When(Missing(catalog, ids, refs) != {}, AllocationMissing);
    var compared := CompareEachBlock(catalog, doc.blocks);
    if compared == Same && exists f :: f in doc.figures && CaptionDiffers(catalog, f) { compared := Different; }
    ComparedTexts(catalog, doc, compared);
    if compared == IndexError { return None; }
    findings := findings + When(compared == Different, CharacterLoss);
    findings := findings + When(Unaccounted(catalog, ids, DispositionAtoms(doc.whitespace)), WhitespaceAccounting);
    findings := findings + When(UnprovenExclusion(doc.excluded, layout), ExclusionProof);
    findings := findings + When(Disordered(doc.order, layout), ReadingOrder);
    var broken := AnyBrokenTable(doc.blocks);
    findings := findings + When(broken, BrokenGrid);
    findings := findings + When(HasBrokenContinuation(doc, layout, checks), BrokenContinuation);
    findings := findings + When(!checks.markdown, MarkdownOutput);
    report := Some(ReportOf(e, doc, findings));
  }

  lemma ComparedTexts(catalog: Catalog, doc: Document, compared: Comparison)
    requires compared ==
             if CompareBlocks(catalog, doc.blocks) == Same && exists f :: f in doc.figures && CaptionDiffers(catalog, f)
             then Different else CompareBlocks(catalog, doc.blocks)
    ensures compared == CompareTexts(catalog, doc)
  {
  }
}
