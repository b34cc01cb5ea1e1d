/** The canonical document and its assembly: `assemble_canonical`, the selection of candidates,
    cell projection, table text and whitespace dispositions. */
module Canonical {
  import opened Common
  import opened Spacing
  import opened TableGrid
  import opened Candidates
  import opened Decisions
  import opened Ranking
  import opened Evidence

  /** Only the hints of repeated page edges matter here. */
  datatype Hint = PageHeader | PageFooter | PageNumber | OtherHint

  datatype LayoutRegion = LayoutRegion(id: RegionId, page: nat, atoms: seq<AtomId>, hint: Hint, repeatedEdge: bool)

  datatype OrderEdge = OrderEdge(before: RegionId, after: RegionId)

  datatype Layout = Layout(source: Hash, regions: seq<LayoutRegion>, edges: seq<OrderEdge>)

  datatype CanonicalCell = CanonicalCell(id: CellId, span: Span, text: string, atoms: seq<AtomId>, header: bool)

  /** A block's kind with the metadata that kind requires. */
  datatype Shape =
    | HeadingShape(level: nat)
    | ParagraphShape
    | ListItemShape(ordered: bool, depth: nat)
    | CaptionShape
    | TableShape(rows: nat, columns: nat, cells: seq<CanonicalCell>)

  datatype Block = Block(
    order: nat, region: RegionId, page: nat, shape: Shape, text: string, atoms: seq<AtomId>, decisions: seq<DecisionId>)

  datatype FigureEntry = FigureEntry(
    region: RegionId, page: nat, caption: Option<string>, captionAtoms: seq<AtomId>, decisions: seq<DecisionId>)

  datatype EdgeReason = RepeatedHeader | RepeatedFooter | PageNumbering

  /** Why a repeated edge region with this hint is excluded, if it is. */
  function ReasonFor(hint: Hint): Option<EdgeReason> {
    match hint
    case PageHeader => Some(RepeatedHeader)
    case PageFooter => Some(RepeatedFooter)
    case PageNumber => Some(PageNumbering)
    case OtherHint => None
  }

  datatype Excluded = Excluded(region: RegionId, atoms: seq<AtomId>, reason: EdgeReason)

  datatype Keeping = Retained | Normalized | LayoutOnly

  datatype Disposition = Disposition(atom: AtomId, outcome: Keeping, state: Gap, decision: DecisionId)

  datatype Continuation = Continuation(previous: RegionId, current: RegionId, decision: DecisionId)

  datatype Document = Document(
    source: Hash, order: seq<RegionId>, blocks: seq<Block>, figures: seq<FigureEntry>, excluded: seq<Excluded>,
    whitespace: seq<Disposition>, continuations: seq<Continuation>, decisions: seq<Record>)

  /** The decision named where no decision was made. */
  const NO_DECISION: DecisionId := 0

  // ---------- selection ----------

  /** A set as its validator leaves it: it has candidates. */
  type FilledSet = s: CandidateSet | s.candidates != []
    witness CandidateSet(0, 0, 0, RecognitionType, [RecognitionCandidate(0, 0, "a", "a", 0.0, map[])])

  /** The set for a region and kind; the last one wins, as in a dictionary. */
  function SetFor(sets: seq<FilledSet>, region: RegionId, kind: DecisionType): (r: Option<FilledSet>)
    ensures r.Some? ==> r.value in sets && r.value.region == region && r.value.decision == kind
  {
    if sets == [] then None
    else
      var last := sets[|sets| - 1];
      if last.region == region && last.decision == kind then Some(last) else SetFor(sets[..|sets| - 1], region, kind)
  }

  /** The record of a set; the last one wins. */
  function RecordFor(records: seq<Record>, set_: CandidateSetId): (r: Option<Record>)
    ensures r.Some? ==> r.value in records && r.value.setId == set_
  {
    if records == [] then None
    else
      var last := records[|records| - 1];
      if last.setId == set_ then Some(last) else RecordFor(records[..|records| - 1], set_)
  }

  /** `_selected_candidate`: the generated candidate a record selects, the member it selects, or
      the best member. */
  function SelectedCandidate(set_: FilledSet, records: seq<Record>): Candidate {
    Choose(set_, RecordFor(records, set_.id))
  }

  function Choose(set_: FilledSet, record: Option<Record>): Candidate {
    if record.Some? && SelectsGenerated(set_, record.value) then record.value.generated.value.candidate
    else if record.Some? && record.value.selected.Some? && ById(set_.candidates, record.value.selected.value).Some? then
      ById(set_.candidates, record.value.selected.value).value
    else Top(set_.candidates)
  }

  predicate SelectsGenerated(set_: CandidateSet, record: Record) {
    && record.generated.Some? && record.generated.value.Full?
    && record.selected == Some(record.generated.value.candidate.id)
    && record.generated.value.candidate.region == set_.region && set_.decision == SpacingType
  }

  // ---------- cells ----------

  /** The state of the boundary between two atoms, the last one of that pair. */
  function StateBetween(boundaries: seq<Boundary>, left: AtomId, right: AtomId): (gap: Option<Gap>)
    ensures gap.Some? ==> exists b :: b in boundaries && b.left == left && b.right == right && b.gap == gap.value
    ensures gap.None? ==> forall b :: b in boundaries ==> b.left != left || b.right != right
  {
    if boundaries == [] then None
    else
      var last := boundaries[|boundaries| - 1];
      if last.left == left && last.right == right then Some(last.gap)
      else StateBetween(boundaries[..|boundaries| - 1], left, right)
  }

  function Between(ids: seq<AtomId>, a: AtomId, b: AtomId): seq<AtomId> {
    if a in ids && b in ids && LastIndex(ids, a) < LastIndex(ids, b) then ids[LastIndex(ids, a) + 1..LastIndex(ids, b)] else []
  }

  /** The gap between two consecutive characters of a cell: the selected spacing's, or what the
      source whitespace between them says. */
  function Link(catalog: Catalog, ids: seq<AtomId>, spacing: Option<SpacedCandidate>, a: AtomId, b: AtomId): Gap {
    var chosen := if spacing.Some? then StateBetween(spacing.value.boundaries, a, b) else None;
    if chosen.Some? then chosen.value
    else if exists id :: id in Between(ids, a, b) && id in catalog && catalog[id].kind == LineBreak then HardBreak
    else if exists id :: id in Between(ids, a, b) && IsBlankAtom(catalog, id) then SpaceGap
    else NoGap
  }

  function Weave(catalog: Catalog, ids: seq<AtomId>, spacing: Option<SpacedCandidate>, chars: seq<AtomId>): string {
    if chars == [] then ""
    else
      var text := if chars[0] in catalog then catalog[chars[0]].text else "";
      if |chars| == 1 then text
      else text + Separator(Link(catalog, ids, spacing, chars[0], chars[1])) + Weave(catalog, ids, spacing, chars[1..])
  }

  /** What `_project_cell_spacing` returns. */
  function Project(catalog: Catalog, ids: seq<AtomId>, spacing: Option<SpacedCandidate>): string {
    Weave(catalog, ids, spacing, VisibleOnly(catalog, ids))
  }

  /** `_project_cell_spacing`. */
  method ProjectCellSpacing(catalog: Catalog, ids: seq<AtomId>, spacing: Option<SpacedCandidate>) returns (text: string)
    requires forall id :: id in ids ==> id in catalog
    ensures text == Project(catalog, ids, spacing)
  {
    hide Link, VisibleOnly, Weave;
    var chars := VisibleOnly(catalog, ids);
    text := "";
    var i := 0;
    assert chars[0..] == chars;
    while i < |chars|
      invariant 0 <= i <= |chars|
      invariant text + Weave(catalog, ids, spacing, chars[i..]) == Project(catalog, ids, spacing)
    {
      assert chars[i] in chars;
      InVisible(catalog, ids, chars[i]);
      WeaveStep(catalog, ids, spacing, chars, i);
      var piece := catalog[chars[i]].text;
      if i + 1 < |chars| {
        var state := Link(catalog, ids, spacing, chars[i], chars[i + 1]);
        piece := piece + Separator(state);
      }
      ConcatAssociates(text, piece, Weave(catalog, ids, spacing, chars[i + 1..]));
      text := text + piece;
      i := i + 1;
    }
    WeaveNothing(catalog, ids, spacing, chars);
  }

  lemma WeaveStep(catalog: Catalog, ids: seq<AtomId>, spacing: Option<SpacedCandidate>, chars: seq<AtomId>, i: nat)
    requires i < |chars| && chars[i] in catalog
    ensures Weave(catalog, ids, spacing, chars[i..]) ==
            catalog[chars[i]].text + (if i + 1 < |chars| then Separator(Link(catalog, ids, spacing, chars[i], chars[i + 1])) else "")
            + Weave(catalog, ids, spacing, chars[i + 1..])
  {
    hide Link;
    assert chars[i..][1..] == chars[i + 1..];
    if i + 1 == |chars| { assert chars[i + 1..] == []; }
  }

  lemma WeaveNothing(catalog: Catalog, ids: seq<AtomId>, spacing: Option<SpacedCandidate>, chars: seq<AtomId>)
    ensures Weave(catalog, ids, spacing, chars[|chars|..]) == ""
  {
  }

  function CellText(catalog: Catalog, cell: Cell, spacing: Option<SpacedCandidate>): string {
    if spacing.None? && cell.rendered.Some? then cell.rendered.value else Project(catalog, cell.atoms, spacing)
  }

  function CanonicalCellOf(catalog: Catalog, cell: Cell, spacing: Option<SpacedCandidate>): CanonicalCell {
    CanonicalCell(cell.id, cell.span, CellText(catalog, cell, spacing), VisibleOnly(catalog, cell.atoms), cell.header)
  }

  /** `_canonical_cells`. */
  function CanonicalCells(catalog: Catalog, cells: seq<Cell>, spacing: Option<SpacedCandidate>): (r: seq<CanonicalCell>)
    ensures |r| == |cells|
    ensures forall i :: 0 <= i < |r| ==> r[i] == CanonicalCellOf(catalog, cells[i], spacing)
  {
    if cells == [] then [] else [CanonicalCellOf(catalog, cells[0], spacing)] + CanonicalCells(catalog, cells[1..], spacing)
  }

  // ---------- table text ----------

  function Join(separator: string, parts: seq<string>): string {
    if parts == [] then "" else if |parts| == 1 then parts[0] else parts[0] + separator + Join(separator, parts[1..])
  }

  predicate StartsAt(cell: CanonicalCell, row: int, column: int) {
    cell.span.startRow == row && cell.span.startColumn == column
  }

  /** The text of the last cell that starts at a coordinate. */
  function TextAt(cells: seq<CanonicalCell>, row: nat, column: nat): string {
    if cells == [] then ""
    else
      var last := cells[|cells| - 1];
      if StartsAt(last, row, column) then last.text else TextAt(cells[..|cells| - 1], row, column)
  }

  function RowOf(columns: nat, cells: seq<CanonicalCell>, row: nat): (r: seq<string>)
    ensures |r| == columns && forall c :: 0 <= c < columns ==> r[c] == TextAt(cells, row, c)
  {
    seq(columns, column requires 0 <= column => TextAt(cells, row, column))
  }

  function GridOf(rows: nat, columns: nat, cells: seq<CanonicalCell>): (r: seq<seq<string>>)
    ensures |r| == rows && forall k :: 0 <= k < rows ==> r[k] == RowOf(columns, cells, k)
  {
    seq(rows, row requires 0 <= row => RowOf(columns, cells, row))
  }

  function RowTexts(grid: seq<seq<string>>): (r: seq<string>)
    ensures |r| == |grid| && forall k :: 0 <= k < |r| ==> r[k] == Join("\t", grid[k])
  {
    seq(|grid|, row requires 0 <= row < |grid| => Join("\t", grid[row]))
  }

  function PlainText(rows: nat, columns: nat, cells: seq<CanonicalCell>): string {
    Join("\n", RowTexts(GridOf(rows, columns, cells)))
  }

  predicate StartsInside(rows: nat, columns: nat, cells: seq<CanonicalCell>) {
    forall i :: 0 <= i < |cells| ==> cells[i].span.startRow < rows && cells[i].span.startColumn < columns
  }

  /** One more cell changes the grid where it starts and nowhere else. */
  lemma GridStep(rows: nat, columns: nat, cells: seq<CanonicalCell>, cell: CanonicalCell)
    requires cell.span.startRow < rows && cell.span.startColumn < columns
    ensures var grid, r, c := GridOf(rows, columns, cells), cell.span.startRow, cell.span.startColumn;
            GridOf(rows, columns, cells + [cell]) == grid[r := grid[r][c := cell.text]]
  {
    var all := cells + [cell];
    assert all[..|all| - 1] == cells;
    var grid, r, c := GridOf(rows, columns, cells), cell.span.startRow, cell.span.startColumn;
    forall k | 0 <= k < rows ensures GridOf(rows, columns, all)[k] == grid[r := grid[r][c := cell.text]][k] {
      assert RowOf(columns, all, k) == if k == r then grid[r][c := cell.text] else RowOf(columns, cells, k);
    }
  }

  /** `_table_plain_text`; nothing when a cell starts outside the rows and indexing raises. */
  method TablePlainText(rows: nat, columns: nat, cells: seq<CanonicalCell>) returns (text: Option<string>)
    ensures text == if StartsInside(rows, columns, cells) then Some(PlainText(rows, columns, cells)) else None
  {
    var grid := seq(rows, row => seq(columns, column => ""));
    assert forall k :: 0 <= k < rows ==> grid[k] == RowOf(columns, [], k);
    for i := 0 to |cells|
      invariant grid == GridOf(rows, columns, cells[..i])
      invariant StartsInside(rows, columns, cells[..i])
    {
      var cell := cells[i];
      if cell.span.startRow >= rows || cell.span.startColumn >= columns {
        return None;
      }
      GridStep(rows, columns, cells[..i], cell);
      assert cells[..i + 1] == cells[..i] + [cell];
      grid := grid[cell.span.startRow := grid[cell.span.startRow][cell.span.startColumn := cell.text]];
    }
    assert cells[..|cells|] == cells;
    text := Some(Join("\n", RowTexts(grid)));
  }

  // ---------- whitespace ----------

  /** The boundary a whitespace atom belongs to, the last one that lists it. */
  function BoundaryWith(boundaries: seq<Boundary>, id: AtomId): Option<Boundary> {
    if boundaries == [] then None
    else
      var last := boundaries[|boundaries| - 1];
      if id in last.whitespace then Some(last) else BoundaryWith(boundaries[..|boundaries| - 1], id)
  }

  function SourceState(text: string): Gap {
    if text == "\n" then HardBreak else SpaceGap
  }

  function DispositionOf(atom: Atom, spacing: Option<SpacedCandidate>, decision: DecisionId): (d: Disposition)
    ensures d.atom == atom.id
  {
    var boundary := if spacing.Some? then BoundaryWith(spacing.value.boundaries, atom.id) else None;
    if boundary.None? then
      Disposition(atom.id, if spacing.Some? then LayoutOnly else Retained, SourceState(atom.text), decision)
    else
      Disposition(atom.id, if boundary.value.gap == SourceState(atom.text) then Retained else Normalized,
                  boundary.value.gap, decision)
  }

  /** What `_whitespace_dispositions` returns. */
  function Dispositions(catalog: Catalog, ids: seq<AtomId>, spacing: Option<SpacedCandidate>, decision: DecisionId): seq<Disposition> {
    if ids == [] then []
    else
      Dispositions(catalog, ids[..|ids| - 1], spacing, decision)
      + if IsBlankAtom(catalog, ids[|ids| - 1]) then [DispositionOf(catalog[ids[|ids| - 1]], spacing, decision)] else []
  }

  /** `_whitespace_dispositions`. */
  method WhitespaceDispositions(catalog: Catalog, ids: seq<AtomId>, spacing: Option<SpacedCandidate>, decision: DecisionId)
    returns (r: seq<Disposition>)
    requires forall id :: id in ids ==> id in catalog
    ensures r == Dispositions(catalog, ids, spacing, decision)
  {
    r := [];
    for i := 0 to |ids|
      invariant r == Dispositions(catalog, ids[..i], spacing, decision)
    {
      assert ids[..i + 1][..i] == ids[..i];
      var id := ids[i];
      assert id in ids;
      var atom := catalog[id];
      if IsBlank(atom.text) {
        r := r + [DispositionOf(atom, spacing, decision)];
      }
    }
    assert ids[..|ids|] == ids;
  }

  /** `_layout_only_whitespace`. */
  function EdgeDispositions(catalog: Catalog, ids: seq<AtomId>): seq<Disposition> {
    if ids == [] then []
    else
      EdgeDispositions(catalog, ids[..|ids| - 1])
      + if IsBlankAtom(catalog, ids[|ids| - 1]) then [Disposition(catalog[ids[|ids| - 1]].id, LayoutOnly, NoGap, NO_DECISION)] else []
  }

  // ---------- the hashed content ----------

  function StripBlock(b: Block): Block {
    b.(decisions := [])
  }

  function StripBlocks(blocks: seq<Block>): (r: seq<Block>)
    ensures |r| == |blocks|
  {
    if blocks == [] then [] else StripBlocks(blocks[..|blocks| - 1]) + [StripBlock(blocks[|blocks| - 1])]
  }

  function StripFigures(figures: seq<FigureEntry>): (r: seq<FigureEntry>)
    ensures |r| == |figures|
  {
    if figures == [] then [] else StripFigures(figures[..|figures| - 1]) + [figures[|figures| - 1].(decisions := [])]
  }

  function StripWhitespace(whitespace: seq<Disposition>): (r: seq<Disposition>)
    ensures |r| == |whitespace|
  {
    if whitespace == [] then []
    else StripWhitespace(whitespace[..|whitespace| - 1]) + [whitespace[|whitespace| - 1].(decision := NO_DECISION)]
  }

  function StripContinuations(continuations: seq<Continuation>): (r: seq<Continuation>)
    ensures |r| == |continuations|
  {
    if continuations == [] then []
    else StripContinuations(continuations[..|continuations| - 1]) + [continuations[|continuations| - 1].(decision := NO_DECISION)]
  }

  /** `_canonical_content_payload`. */
  function HashedContent(doc: Document): Document {
    doc.(blocks := StripBlocks(doc.blocks), figures := StripFigures(doc.figures), whitespace := StripWhitespace(doc.whitespace),
         continuations := StripContinuations(doc.continuations), decisions := [])
  }
}
