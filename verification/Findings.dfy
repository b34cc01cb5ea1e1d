/** What each finding of the validator is about, exactly, and what a publishable report promises. */
module Findings {
  import opened Common
  import opened Spacing
  import opened TableGrid
  import opened Candidates
  import opened Decisions
  import opened Evidence
  import opened Canonical
  import opened Assembly
  import opened Validator
  import opened ValidatorSoundness
  import opened LlmService
  import opened Ranking
  import opened Adjudication
  import opened DecisionTheorems
  import TableText
  import Replay

  // ---------- what the findings are about ----------

  predicate Refers(doc: Document, id: AtomId) {
    || (exists b :: b in doc.blocks && id in b.atoms)
    || (exists f :: f in doc.figures && id in f.captionAtoms)
    || (exists x :: x in doc.excluded && id in x.atoms)
  }

  /** The text of a block or of a cell of its table is not that of its atoms, or the table's text not that of its cells. */
  predicate BlockDiffers(catalog: Catalog, b: Block) {
    if b.shape.TableShape? then
      StartsInside(b.shape.rows, b.shape.columns, b.shape.cells)
      && (b.text != PlainText(b.shape.rows, b.shape.columns, b.shape.cells)
          || exists cell :: cell in b.shape.cells && Squeeze(cell.text) != AtomText(catalog, cell.atoms))
    else Squeeze(b.text) != AtomText(catalog, b.atoms)
  }

  predicate FigureDiffers(catalog: Catalog, f: FigureEntry) {
    AtomText(catalog, f.captionAtoms) != if f.caption.Some? then Squeeze(f.caption.value) else ""
  }

  /** How often the document disposes of an atom. */
  function Disposals(whitespace: seq<Disposition>, id: AtomId): nat {
    if whitespace == [] then 0
    else Disposals(whitespace[..|whitespace| - 1], id) + if whitespace[|whitespace| - 1].atom == id then 1 else 0
  }

  predicate IsReasonFor(reason: EdgeReason, hint: Hint) {
    || (reason == RepeatedHeader && hint == PageHeader) || (reason == RepeatedFooter && hint == PageFooter)
    || (reason == PageNumbering && hint == PageNumber)
  }

  /** The layout knows the region as a repeated edge of that kind with those atoms. */
  predicate Proved(x: Excluded, layout: Option<Layout>) {
    && layout.Some?
    && var region := RegionById(layout.value.regions, x.region);
       region.Some? && region.value.repeatedEdge && IsReasonFor(x.reason, region.value.hint) && region.value.atoms == x.atoms
  }

  /** The order has every region once, each after those the layout puts before it. */
  ghost predicate InOrder(order: seq<RegionId>, layout: Layout) {
    && (forall id :: id in order <==> exists r :: r in layout.regions && r.id == id)
    && (forall i, j :: 0 <= i < j < |order| ==> order[i] != order[j])
    && forall e :: e in layout.edges ==> exists i, j :: 0 <= i < j < |order| && order[i] == e.before && order[j] == e.after
  }

  /** At most 100,000 places, each in exactly one cell, and the atoms of the cells are those of the block, each once. */
  ghost predicate GoodTable(b: Block) {
    b.shape.TableShape? ==>
      && b.shape.rows * b.shape.columns <= 100_000
      && (forall id :: id in b.atoms <==> exists cell :: cell in b.shape.cells && id in cell.atoms)
      && Distinct(CellAtomsOf(b.shape.cells))
      && Tiles(b.shape.rows, b.shape.columns, TableText.SpansOf(b.shape.cells))
  }

  /** Regions of successive pages, the first before the second, with repeated edges between them, whose boxes overlap. */
  ghost predicate Joined(c: Continuation, order: seq<RegionId>, layout: Layout, checks: Checks) {
    exists i, j :: 0 <= i < j < |order|
      && order[i] == c.previous && c.previous !in order[..i] && order[j] == c.current && c.current !in order[..j]
      && (forall k :: i < k < j && RegionById(layout.regions, order[k]).Some? ==> RegionById(layout.regions, order[k]).value.repeatedEdge)
      && var a, b := RegionById(layout.regions, c.previous), RegionById(layout.regions, c.current);
         a.Some? && b.Some? && b.value.page == a.value.page + 1 && checks.overlaps(c.previous, c.current)
  }

  // ---------- the parts ----------

  lemma {:induction false} InBlocks(blocks: seq<Block>, id: AtomId)
    ensures id in BlockAtoms(blocks) <==> exists b :: b in blocks && id in b.atoms
  {
    if blocks != [] {
      var n := |blocks| - 1;
      InBlocks(blocks[..n], id);
      assert forall b :: b in blocks <==> b in blocks[..n] || b == blocks[n];
    }
  }

  lemma {:induction false} InCaptions(figures: seq<FigureEntry>, id: AtomId)
    ensures id in CaptionAtoms(figures) <==> exists f :: f in figures && id in f.captionAtoms
  {
    if figures != [] {
      var n := |figures| - 1;
      InCaptions(figures[..n], id);
      assert forall f :: f in figures <==> f in figures[..n] || f == figures[n];
    }
  }

  lemma {:induction false} InExcluded(excluded: seq<Excluded>, id: AtomId)
    ensures id in ExcludedAtoms(excluded) <==> exists x :: x in excluded && id in x.atoms
  {
    if excluded != [] {
      var n := |excluded| - 1;
      InExcluded(excluded[..n], id);
      assert forall x :: x in excluded <==> x in excluded[..n] || x == excluded[n];
    }
  }

  lemma {:induction false} InCells(cells: seq<CanonicalCell>, id: AtomId)
    ensures id in CellAtomsOf(cells) <==> exists cell :: cell in cells && id in cell.atoms
  {
    if cells != [] {
      var n := |cells| - 1;
      InCells(cells[..n], id);
      assert forall cell :: cell in cells <==> cell in cells[..n] || cell == cells[n];
    }
  }

  lemma RefersIff(doc: Document, id: AtomId)
    ensures id in References(doc) <==> Refers(doc, id)
  {
    InBlocks(doc.blocks, id);
    InCaptions(doc.figures, id);
    InExcluded(doc.excluded, id);
  }

  lemma {:induction false} DisposalsIff(whitespace: seq<Disposition>, id: AtomId)
    ensures multiset(DispositionAtoms(whitespace))[id] == Disposals(whitespace, id)
  {
    if whitespace != [] { DisposalsIff(whitespace[..|whitespace| - 1], id); }
  }

  lemma RepeatsIff(ids: seq<AtomId>)
    ensures Repeats(ids) != 0 <==> exists id :: multiset(ids)[id] > 1
  {
    hide Repeats;
    NoRepeats(ids);
    if Distinct(ids) {
      forall id ensures multiset(ids)[id] <= 1 { DistinctMultiset(ids, id); }
    }
    if forall id :: multiset(ids)[id] <= 1 { BagIsDistinct(ids); }
  }

  /** An atom of the source with that ID, of the Character kind or not. */
  predicate IsSource(e: EvidenceDocument, id: AtomId, character: bool) {
    exists a :: a in e.atoms && a.id == id && (a.kind == Character <==> character)
  }

  lemma SourceIff(e: EvidenceDocument, id: AtomId)
    requires ValidAtoms(e)
    ensures var catalog, ids := CatalogOf(e.atoms), AtomIds(e.atoms);
            && (id in VisibleOnly(catalog, ids) <==> IsSource(e, id, true))
            && (id in BlankOnly(catalog, ids) <==> IsSource(e, id, false))
  {
    var catalog, ids := CatalogOf(e.atoms), AtomIds(e.atoms);
    hide CatalogOf, AtomIds, BlankOnly, VisibleOnly, ValidAtom;
    InVisible(catalog, ids, id);
    BlankCount(catalog, ids, id);
    assert id in BlankOnly(catalog, ids) <==> multiset(BlankOnly(catalog, ids))[id] > 0;
    assert id in ids <==> multiset(ids)[id] > 0;
    CatalogKeys(e.atoms, id);
    if id in catalog { KindDecides(catalog[id]); }
    forall a | a in e.atoms && a.id == id ensures id in catalog && catalog[id] == a && id in ids {
      IsCatalogued(e.atoms, a);
    }
  }

  /** Every character of the source is referred to. */
  ghost predicate AllReferred(e: EvidenceDocument, doc: Document) {
    forall id :: IsSource(e, id, true) ==> Refers(doc, id)
  }

  lemma MissingIff(e: EvidenceDocument, doc: Document)
    requires ValidAtoms(e)
    ensures Missing(CatalogOf(e.atoms), AtomIds(e.atoms), References(doc)) == {} <==> AllReferred(e, doc)
  {
    hide References, CatalogOf, AtomIds, VisibleOnly, IsSource, Refers, ValidAtoms;
    var missing := Missing(CatalogOf(e.atoms), AtomIds(e.atoms), References(doc));
    forall id ensures id in missing <==> IsSource(e, id, true) && !Refers(doc, id) {
      RefersIff(doc, id);
      SourceIff(e, id);
    }
    if missing == {} {
      forall id | IsSource(e, id, true) ensures Refers(doc, id) { assert id !in missing; }
    }
    if AllReferred(e, doc) {
      forall id ensures id !in missing {}
      assert missing == {};
    }
  }

  /** Every whitespace atom of the source is disposed of once, and nothing else is. */
  ghost predicate AllDisposed(e: EvidenceDocument, doc: Document) {
    forall id :: Disposals(doc.whitespace, id) == if IsSource(e, id, false) then 1 else 0
  }

  lemma UnaccountedIff(e: EvidenceDocument, doc: Document)
    requires ValidAtoms(e)
    ensures Unaccounted(CatalogOf(e.atoms), AtomIds(e.atoms), DispositionAtoms(doc.whitespace)) <==> !AllDisposed(e, doc)
  {
    var blanks, atoms := BlankOnly(CatalogOf(e.atoms), AtomIds(e.atoms)), DispositionAtoms(doc.whitespace);
    hide DispositionAtoms, CatalogOf, AtomIds, Repeats, BlankOnly, IsSource, Disposals, ValidAtoms, Elements;
    RepeatsIff(atoms);
    ElementsIff(atoms, blanks);
    forall id ensures (id in blanks <==> IsSource(e, id, false)) && multiset(atoms)[id] == Disposals(doc.whitespace, id) {
      SourceIff(e, id);
      DisposalsIff(doc.whitespace, id);
    }
    forall id ensures id in atoms <==> Disposals(doc.whitespace, id) > 0 {
      assert id in atoms <==> multiset(atoms)[id] > 0;
    }
  }

  lemma ElementsIff(a: seq<AtomId>, b: seq<AtomId>)
    ensures Elements(a) == Elements(b) <==> forall id :: id in a <==> id in b
  {
    if Elements(a) == Elements(b) {
      forall id ensures id in a <==> id in b {
        assert id in a <==> id in Elements(a);
        assert id in b <==> id in Elements(b);
      }
    }
    if forall id :: id in a <==> id in b {
      forall id ensures id in Elements(a) <==> id in Elements(b) {}
      assert Elements(a) == Elements(b);
    }
  }

  lemma TextsIff(catalog: Catalog, doc: Document)
    requires CompareTexts(catalog, doc) != IndexError
    ensures CompareTexts(catalog, doc) == Different <==>
              (exists b :: b in doc.blocks && BlockDiffers(catalog, b)) || (exists f :: f in doc.figures && FigureDiffers(catalog, f))
  {
    hide CompareBlock, BlockDiffers, AtomText, Squeeze;
    CompareAll(catalog, doc.blocks);
    BlocksDiffer(catalog, doc.blocks);
    forall f ensures FigureDiffers(catalog, f) <==> CaptionDiffers(catalog, f) { FigureIff(catalog, f); }
  }

  lemma FigureIff(catalog: Catalog, f: FigureEntry)
    ensures FigureDiffers(catalog, f) <==> CaptionDiffers(catalog, f)
  {
  }

  /** Short of a block whose comparison raises, some block is different exactly when the comparison says so. */
  lemma {:induction false} BlocksDiffer(catalog: Catalog, blocks: seq<Block>)
    requires CompareBlocks(catalog, blocks) != IndexError
    ensures CompareBlocks(catalog, blocks) == Different <==> exists b :: b in blocks && BlockDiffers(catalog, b)
  {
    hide CompareBlock, BlockDiffers;
    if blocks != [] {
      BlockIff(catalog, blocks[0]);
      assert forall b :: b in blocks <==> b == blocks[0] || b in blocks[1..];
      if CompareBlock(catalog, blocks[0]) == Same { BlocksDiffer(catalog, blocks[1..]); }
    }
  }

  lemma BlockIff(catalog: Catalog, b: Block)
    ensures CompareBlock(catalog, b) == Different <==> BlockDiffers(catalog, b)
  {
    hide PlainText, AtomText, Squeeze;
  }

  lemma ExclusionsIff(excluded: seq<Excluded>, layout: Option<Layout>)
    ensures UnprovenExclusion(excluded, layout) <==> exists x :: x in excluded && !Proved(x, layout)
  {
    if excluded != [] { assert excluded[0] in excluded; }
    if layout.Some? {
      forall x ensures ValidExclusion(x, layout.value) <==> Proved(x, layout) {}
    }
  }

  lemma OrderIff(order: seq<RegionId>, layout: Layout)
    ensures ValidRegionOrder(order, layout) <==> InOrder(order, layout)
  {
    forall id ensures RegionById(layout.regions, id).Some? <==> exists r :: r in layout.regions && r.id == id {}
  }

  lemma TableIff(b: Block)
    ensures ValidTableBlock(b) <==> GoodTable(b)
  {
    hide Tiles, Distinct;
    if b.shape.TableShape? {
      forall id ensures id in CellAtomsOf(b.shape.cells) <==> exists cell :: cell in b.shape.cells && id in cell.atoms { InCells(b.shape.cells, id); }
      ElementsIff(CellAtomsOf(b.shape.cells), b.atoms);
    }
  }

  lemma ContinuationIff(c: Continuation, order: seq<RegionId>, layout: Layout, checks: Checks)
    ensures ValidContinuation(c, order, layout, checks.overlaps) <==> Joined(c, order, layout, checks)
  {
    hide FirstIndex, RegionById;
    if i, j :| 0 <= i < j < |order| && order[i] == c.previous && c.previous !in order[..i] && order[j] == c.current && c.current !in order[..j] {
      OneFirst(order, c.previous, i);
      OneFirst(order, c.current, j);
    }
  }

  lemma OneFirst(order: seq<RegionId>, id: RegionId, i: nat)
    requires i < |order| && order[i] == id && id !in order[..i]
    ensures FirstIndex(order, id) == i
  {
  }

  // ---------- the findings ----------

  /** Each finding is made exactly for what it is about. */
  lemma FindingsIff(e: EvidenceDocument, doc: Document, layout: Option<Layout>, checks: Checks)
    requires ValidAtoms(e) && Validated(e, doc, layout, checks).Some?
    ensures var found, catalog := Validated(e, doc, layout, checks).value.findings, CatalogOf(e.atoms);
            && (SourceBinding in found <==> doc.source != e.source || (layout.Some? && layout.value.source != e.source))
            && (EvidenceReference in found <==> exists id :: Refers(doc, id) && forall a :: a in e.atoms ==> a.id != id)
            && (AllocationDuplicate in found <==> exists id :: multiset(References(doc))[id] > 1)
            && (AllocationMissing in found <==> !AllReferred(e, doc))
            && (CharacterLoss in found <==>
                  (exists b :: b in doc.blocks && BlockDiffers(catalog, b)) || (exists f :: f in doc.figures && FigureDiffers(catalog, f)))
            && (WhitespaceAccounting in found <==> !AllDisposed(e, doc))
            && (ExclusionProof in found <==> exists x :: x in doc.excluded && !Proved(x, layout))
            && (ReadingOrder in found <==> layout.Some? && !InOrder(doc.order, layout.value))
            && (BrokenGrid in found <==> exists b :: b in doc.blocks && !GoodTable(b))
            && (BrokenContinuation in found <==> layout.Some? && exists c :: c in doc.continuations && !Joined(c, doc.order, layout.value, checks))
            && (MarkdownOutput in found <==> !checks.markdown)
  {
    hide References, CompareTexts, Missing, Repeats, Unaccounted, UnprovenExclusion, ValidRegionOrder, ValidTableBlock, ValidContinuation, AllReferred,
      AllDisposed, BlockDiffers, FigureDiffers, GoodTable, Joined, InOrder, Proved, Refers, ReportOf, RefersToUnknown, CatalogOf, DispositionAtoms,
      AtomIds, ValidAtoms, HasBrokenTable, HasBrokenContinuation, Disordered, FindingsOf, Validated;
    var catalog := CatalogOf(e.atoms);
    forall code ensures code in FindingsOf(e, doc, layout, checks) <==> Applies(code, e, doc, layout, checks) {
      FindingOf(e, doc, layout, checks, code);
    }
    FindingsReported(e, doc, layout, checks);
    UnknownIff(e, doc);
    RepeatsIff(References(doc));
    MissingIff(e, doc);
    TextsIff(catalog, doc);
    UnaccountedIff(e, doc);
    ExclusionsIff(doc.excluded, layout);
    StructureIff(doc, layout, checks);
  }

  lemma FindingsReported(e: EvidenceDocument, doc: Document, layout: Option<Layout>, checks: Checks)
    requires Validated(e, doc, layout, checks).Some?
    ensures CompareTexts(CatalogOf(e.atoms), doc) != IndexError
    ensures Validated(e, doc, layout, checks).value.findings == FindingsOf(e, doc, layout, checks)
  {
    hide FindingsOf, CompareTexts, References, CatalogOf, AtomIds, Missing, Coverage, StatusOf, TotalCalls, HashedContent, VisibleOnly, Repeats;
  }

  lemma UnknownIff(e: EvidenceDocument, doc: Document)
    ensures RefersToUnknown(CatalogOf(e.atoms), References(doc)) <==> exists id :: Refers(doc, id) && forall a :: a in e.atoms ==> a.id != id
  {
    hide References, CatalogOf, AtomIds, Refers;
    forall id ensures (id in References(doc) <==> Refers(doc, id)) && (id in CatalogOf(e.atoms) <==> exists a :: a in e.atoms && a.id == id) {
      RefersIff(doc, id);
      CatalogKeys(e.atoms, id);
      if a :| a in e.atoms && a.id == id { IdIsListed(e.atoms, a); }
    }
  }

  lemma {:induction false} IdIsListed(atoms: seq<Atom>, a: Atom)
    requires a in atoms
    ensures a.id in AtomIds(atoms)
  {
    if a != atoms[0] { IdIsListed(atoms[1..], a); }
  }

  lemma StructureIff(doc: Document, layout: Option<Layout>, checks: Checks)
    ensures Disordered(doc.order, layout) <==> layout.Some? && !InOrder(doc.order, layout.value)
    ensures HasBrokenTable(doc.blocks) <==> exists b :: b in doc.blocks && !GoodTable(b)
    ensures HasBrokenContinuation(doc, layout, checks) <==>
              layout.Some? && exists c :: c in doc.continuations && !Joined(c, doc.order, layout.value, checks)
  {
    hide ValidRegionOrder, ValidTableBlock, ValidContinuation, GoodTable, Joined, InOrder;
    forall b ensures ValidTableBlock(b) <==> GoodTable(b) { TableIff(b); }
    if layout.Some? {
      OrderIff(doc.order, layout.value);
      forall c ensures ValidContinuation(c, doc.order, layout.value, checks.overlaps) <==> Joined(c, doc.order, layout.value, checks) {
        ContinuationIff(c, doc.order, layout.value, checks);
      }
    }
  }

  /** The condition a finding is made under. */
  ghost predicate Applies(code: FindingCode, e: EvidenceDocument, doc: Document, layout: Option<Layout>, checks: Checks) {
    var catalog, ids, refs := CatalogOf(e.atoms), AtomIds(e.atoms), References(doc);
    match code
    case SourceBinding => Unbound(e, doc, layout)
    case EvidenceReference => RefersToUnknown(catalog, refs)
    case AllocationDuplicate => Repeats(refs) != 0
    case AllocationMissing => Missing(catalog, ids, refs) != {}
    case CharacterLoss => CompareTexts(catalog, doc) == Different
    case WhitespaceAccounting => Unaccounted(catalog, ids, DispositionAtoms(doc.whitespace))
    case ExclusionProof => UnprovenExclusion(doc.excluded, layout)
    case ReadingOrder => Disordered(doc.order, layout)
    case BrokenGrid => HasBrokenTable(doc.blocks)
    case BrokenContinuation => HasBrokenContinuation(doc, layout, checks)
    case MarkdownOutput => !checks.markdown
  }

  lemma InWhen(condition: bool, made: FindingCode, code: FindingCode)
    ensures code in When(condition, made) <==> condition && code == made
  {
  }

  /** A finding is among the findings exactly when its condition holds. */
  lemma FindingOf(e: EvidenceDocument, doc: Document, layout: Option<Layout>, checks: Checks, code: FindingCode)
    ensures code in FindingsOf(e, doc, layout, checks) <==> Applies(code, e, doc, layout, checks)
  {
    hide References, CompareTexts, Missing, Repeats, Unaccounted, UnprovenExclusion, HasBrokenTable, HasBrokenContinuation, Disordered, RefersToUnknown,
      CatalogOf, AtomIds, DispositionAtoms, When, Unbound;
    forall condition, made ensures code in When(condition, made) <==> condition && code == made { InWhen(condition, made, code); }
  }

  // ---------- the report ----------

  predicate Undecided(d: Record) {
    d.outcome == ReviewRequired
  }

  predicate Postponed(d: Record) {
    d.outcome == DeferredReview
  }

  /** A report is publishable exactly when nothing was found and no decision requires review, and verified when, in
      addition, none is deferred; it counts the regions whose decision is not "selected". */
  lemma ReportMeans(e: EvidenceDocument, doc: Document, layout: Option<Layout>, checks: Checks)
    requires Validated(e, doc, layout, checks).Some?
    ensures var report := Validated(e, doc, layout, checks).value;
            && (report.publishable <==> report.findings == [] && forall d :: d in doc.decisions ==> d.outcome != ReviewRequired)
            && (report.status == Verified <==> report.findings == [] && forall d :: d in doc.decisions ==> d.outcome == Selected)
            && (report.status == ReviewPending <==> report.publishable && exists d :: d in doc.decisions && Postponed(d))
            && (report.status == RequiresReview <==> report.findings == [] && exists d :: d in doc.decisions && Undecided(d))
            && (report.status == Failed <==> report.findings != [])
            && report.source == e.source
            && report.degraded == |set d | d in doc.decisions && d.outcome != Selected :: d.region|
  {
    hide FindingsOf, CompareTexts, References, CatalogOf, AtomIds, Missing, Coverage, TotalCalls, HashedContent, VisibleOnly, Repeats;
    assert (set d | d in doc.decisions && d.outcome != Selected :: d.region) == (set d | d in doc.decisions && NeedsAttention(d) :: d.region);
    assert forall d :: d in doc.decisions && d.outcome == ReviewRequired ==> Undecided(d);
    assert forall d :: d in doc.decisions && d.outcome == DeferredReview ==> Postponed(d);
  }

  /** What is published holds the characters of the source: each is referred to exactly once, each whitespace atom disposed of
      exactly once, and the texts with what is excluded have exactly the source's characters. */
  lemma PublishableConserves(e: EvidenceDocument, doc: Document, layout: Option<Layout>, checks: Checks)
    requires ValidAtoms(e) && forall b :: b in doc.blocks ==> ProperBlock(b)
    requires Validated(e, doc, layout, checks).Some? && Validated(e, doc, layout, checks).value.publishable
    ensures forall a :: a in e.atoms && a.kind == Character ==> multiset(References(doc))[a.id] == 1
    ensures forall a :: a in e.atoms && a.kind != Character ==> Disposals(doc.whitespace, a.id) == 1
    ensures DocumentInk(doc) + AtomInk(CatalogOf(e.atoms), ExcludedAtoms(doc.excluded)) == AtomInk(CatalogOf(e.atoms), AtomIds(e.atoms))
  {
    hide Validated, References, DocumentInk, AtomInk, CatalogOf, AtomIds, ExcludedAtoms, ProperBlock, ValidAtoms;
    ReportMeans(e, doc, layout, checks);
    forall a | a in e.atoms
      ensures a.kind == Character ==> multiset(References(doc))[a.id] == 1
      ensures a.kind != Character ==> Disposals(doc.whitespace, a.id) == 1
    {
      AllocatedOnce(e, doc, layout, checks, a);
      DisposalsIff(doc.whitespace, a.id);
    }
    CharactersConserved(e, doc, layout, checks);
  }

  lemma {:induction false} TotalOfFirst(decisions: seq<Record>)
    requires decisions != []
    ensures TotalCalls(decisions) == ModelCalls(decisions[0]) + TotalCalls(decisions[1..])
  {
    hide ModelCalls;
    var n := |decisions| - 1;
    if n == 0 {
      assert decisions[..0] == [] && decisions[1..] == [];
    } else {
      assert decisions[..n][1..] == decisions[1..][..n - 1] && decisions[1..][n - 1] == decisions[n];
      TotalOfFirst(decisions[..n]);
    }
  }

  /** The model calls a report counts are the provider calls of the run that made its decisions. */
  lemma {:induction false} CallsReported(jobs: seq<Job>, trusted: seq<Record>, serve: Service, at: nat)
    requires Replay.AllPrepared(jobs) && Replay.Run(jobs, trusted, serve, at).Some?
    ensures TotalCalls(Replay.Run(jobs, trusted, serve, at).value.records) == Replay.Run(jobs, trusted, serve, at).value.calls
  {
    hide Prepared, Decide, ModelCalls;
    if jobs != [] {
      NotEmpty(jobs[0]);
      var first := Decide(jobs[0], trusted, serve, at);
      CallsReported(jobs[1..], trusted, serve, at + first.calls);
      CallsAreAccountedFor(jobs[0], trusted, serve, at);
      var records := Replay.Run(jobs, trusted, serve, at).value.records;
      var rest := Replay.Run(jobs[1..], trusted, serve, at + first.calls).value.records;
      assert records == [first.record] + rest && records[1..] == rest;
      TotalOfFirst(records);
    }
  }
}
