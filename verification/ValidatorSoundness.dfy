/** A report without findings: every source character is allocated exactly once, and the
    document's texts hold exactly the source characters minus the excluded regions. */
module ValidatorSoundness {
  import opened Common
  import opened Spacing
  import opened TableGrid
  import opened Candidates
  import opened Evidence
  import opened Canonical
  import opened Validator
  import opened TableText

  /** The evidence as its validators leave it, as far as atoms are concerned. */
  ghost predicate ValidAtoms(e: EvidenceDocument) {
    Distinct(AtomIds(e.atoms)) && forall a :: a in e.atoms ==> ValidAtom(a)
  }

  lemma CatalogIsValid(e: EvidenceDocument)
    requires ValidAtoms(e)
    ensures ValidCatalog(CatalogOf(e.atoms))
    ensures forall id :: id in CatalogOf(e.atoms) <==> id in AtomIds(e.atoms)
  {
    forall id ensures id in CatalogOf(e.atoms) <==> id in AtomIds(e.atoms) { CatalogKeys(e.atoms, id); }
    forall id | id in CatalogOf(e.atoms) ensures ValidAtom(CatalogOf(e.atoms)[id]) && CatalogOf(e.atoms)[id].id == id {
      CatalogKeys(e.atoms, id);
    }
  }

  // ---------- characters of the document ----------

  function BlockTexts(blocks: seq<Block>): (r: seq<string>)
    ensures |r| == |blocks|
  {
    if blocks == [] then [] else BlockTexts(blocks[..|blocks| - 1]) + [blocks[|blocks| - 1].text]
  }

  function CaptionTexts(figures: seq<FigureEntry>): (r: seq<string>)
    ensures |r| == |figures|
  {
    if figures == [] then [] else CaptionTexts(figures[..|figures| - 1]) + [CaptionText(figures[|figures| - 1])]
  }

  /** The non-whitespace characters of all block texts and captions. */
  function DocumentInk(doc: Document): multiset<char> {
    InkSum(BlockTexts(doc.blocks)) + InkSum(CaptionTexts(doc.figures))
  }

  function AtomInk(catalog: Catalog, ids: seq<AtomId>): multiset<char> {
    multiset(AtomText(catalog, ids))
  }

  lemma AtomInkConcat(catalog: Catalog, a: seq<AtomId>, b: seq<AtomId>)
    ensures AtomInk(catalog, a + b) == AtomInk(catalog, a) + AtomInk(catalog, b)
  {
    AtomTextConcat(catalog, a, b);
  }

  /** Two duplicate-free allocations with the same visible atoms have the same characters. */
  lemma SameInk(catalog: Catalog, a: seq<AtomId>, b: seq<AtomId>)
    requires Distinct(a) && Distinct(b)
    requires forall id :: IsVisible(catalog, id) ==> (id in a <==> id in b)
    ensures AtomInk(catalog, a) == AtomInk(catalog, b)
  {
    var x, y := VisibleOnly(catalog, a), VisibleOnly(catalog, b);
    forall id ensures multiset(x)[id] == multiset(y)[id] {
      VisibleCount(catalog, a, id);
      VisibleCount(catalog, b, id);
      DistinctMultiset(a, id);
      DistinctMultiset(b, id);
    }
    assert multiset(x) == multiset(y);
    TextPermutes(catalog, x, y);
    TextOfVisible(catalog, a);
    TextOfVisible(catalog, b);
  }

  lemma {:induction false} CellsInk(catalog: Catalog, cells: seq<CanonicalCell>)
    requires forall cell :: cell in cells ==> !CellDiffers(catalog, cell)
    ensures InkSum(CellTexts(cells)) == AtomInk(catalog, CellAtomsOf(cells))
  {
    hide InkSum, AtomText, Squeeze;
    if cells == [] {
      assert CellTexts(cells) == [];
      EmptyInk([]);
      EmptyText(catalog);
    } else {
      var n := |cells| - 1;
      CellsInk(catalog, cells[..n]);
      assert CellTexts(cells) == CellTexts(cells[..n]) + [cells[n].text];
      InkOfSnoc(CellTexts(cells[..n]), cells[n].text);
      AtomInkConcat(catalog, CellAtomsOf(cells[..n]), cells[n].atoms);
      assert cells[n] in cells;
    }
  }

  lemma EmptyText(catalog: Catalog)
    ensures AtomInk(catalog, []) == multiset{}
  {
  }

  /** The cells of a block as its model validates them. */
  predicate ProperBlock(block: Block) {
    block.shape.TableShape? ==> forall i :: 0 <= i < |block.shape.cells| ==> ProperSpan(block.shape.cells[i].span)
  }

  /** A block that compares equal and whose table is valid has its atoms' characters. */
  lemma BlockInk(catalog: Catalog, block: Block)
    requires CompareBlock(catalog, block) == Same && ValidTableBlock(block) && ProperBlock(block) && Distinct(block.atoms)
    ensures Ink(block.text) == AtomInk(catalog, block.atoms)
  {
    hide InkSum, AtomText, Squeeze, Tiles;
    if block.shape.TableShape? {
      var cells := block.shape.cells;
      TilesStart(block.shape.rows, block.shape.columns, cells);
      TableInk(block.shape.rows, block.shape.columns, cells);
      CellsInk(catalog, cells);
      forall id ensures id in CellAtomsOf(cells) <==> id in block.atoms {
        assert id in Elements(CellAtomsOf(cells)) <==> id in Elements(block.atoms);
      }
      SameInk(catalog, CellAtomsOf(cells), block.atoms);
    }
  }

  lemma DistinctParts<T>(a: seq<T>, b: seq<T>)
    requires Distinct(a + b)
    ensures Distinct(a) && Distinct(b)
  {
    var all := a + b;
    assert forall i :: 0 <= i < |a| ==> all[i] == a[i];
    assert forall i :: 0 <= i < |b| ==> all[|a| + i] == b[i];
  }

  lemma {:induction false} CompareAll(catalog: Catalog, blocks: seq<Block>)
    ensures CompareBlocks(catalog, blocks) == Same <==> forall b :: b in blocks ==> CompareBlock(catalog, b) == Same
  {
    hide CompareBlock;
    if blocks != [] {
      CompareAll(catalog, blocks[1..]);
      assert blocks == [blocks[0]] + blocks[1..];
    }
  }

  lemma {:induction false} BlocksInk(catalog: Catalog, blocks: seq<Block>)
    requires forall b :: b in blocks ==> CompareBlock(catalog, b) == Same && ValidTableBlock(b) && ProperBlock(b)
    requires Distinct(BlockAtoms(blocks))
    ensures InkSum(BlockTexts(blocks)) == AtomInk(catalog, BlockAtoms(blocks))
  {
    hide InkSum, Ink, AtomInk, CompareBlock, ValidTableBlock, ProperBlock, Distinct;
    if blocks == [] {
      EmptyInk([]);
      EmptyText(catalog);
    } else {
      var n := |blocks| - 1;
      DistinctParts(BlockAtoms(blocks[..n]), blocks[n].atoms);
      BlocksInk(catalog, blocks[..n]);
      assert blocks[n] in blocks;
      BlockInk(catalog, blocks[n]);
      InkOfSnoc(BlockTexts(blocks[..n]), blocks[n].text);
      AtomInkConcat(catalog, BlockAtoms(blocks[..n]), blocks[n].atoms);
    }
  }

  lemma {:induction false} CaptionsInk(catalog: Catalog, figures: seq<FigureEntry>)
    requires forall f :: f in figures ==> !CaptionDiffers(catalog, f)
    ensures InkSum(CaptionTexts(figures)) == AtomInk(catalog, CaptionAtoms(figures))
  {
    hide InkSum, AtomText, Squeeze, CaptionText;
    if figures == [] {
      EmptyInk([]);
      EmptyText(catalog);
    } else {
      var n := |figures| - 1;
      CaptionsInk(catalog, figures[..n]);
      assert figures[n] in figures;
      InkOfSnoc(CaptionTexts(figures[..n]), CaptionText(figures[n]));
      AtomInkConcat(catalog, CaptionAtoms(figures[..n]), figures[n].captionAtoms);
    }
  }

  // ---------- what no finding means ----------

  lemma NothingFound(e: EvidenceDocument, doc: Document, layout: Option<Layout>, checks: Checks)
    requires FindingsOf(e, doc, layout, checks) == []
    ensures Repeats(References(doc)) == 0 && Missing(CatalogOf(e.atoms), AtomIds(e.atoms), References(doc)) == {}
    ensures !RefersToUnknown(CatalogOf(e.atoms), References(doc))
    ensures CompareTexts(CatalogOf(e.atoms), doc) != Different && !HasBrokenTable(doc.blocks)
    ensures !Unaccounted(CatalogOf(e.atoms), AtomIds(e.atoms), DispositionAtoms(doc.whitespace))
  {
    hide Unbound, RefersToUnknown, Repeats, Missing, CompareTexts, Unaccounted, UnprovenExclusion,
      Disordered, HasBrokenTable, HasBrokenContinuation, References, DispositionAtoms, CatalogOf, AtomIds;
  }

  lemma NoRepeats(ids: seq<AtomId>)
    ensures Repeats(ids) == 0 <==> Distinct(ids)
  {
    DistinctByCount(ids);
  }

  /** Every source character is referenced exactly once, and every whitespace atom has exactly
      one disposition. */
  lemma AllocatedOnce(e: EvidenceDocument, doc: Document, layout: Option<Layout>, checks: Checks, a: Atom)
    requires ValidAtoms(e) && a in e.atoms
    requires Validated(e, doc, layout, checks).Some? && Validated(e, doc, layout, checks).value.findings == []
    ensures a.kind == Character ==> multiset(References(doc))[a.id] == 1
    ensures a.kind != Character ==> multiset(DispositionAtoms(doc.whitespace))[a.id] == 1
  {
    hide References, DispositionAtoms, FindingsOf, CatalogOf, AtomIds, VisibleOnly, BlankOnly, Missing, Repeats, Unaccounted;
    NothingFound(e, doc, layout, checks);
    IsCatalogued(e.atoms, a);
    KindDecides(a);
    NoRepeats(References(doc));
    if a.kind == Character {
      ReferencedOnce(e, a, References(doc));
    } else {
      DisposedOnce(e, a, DispositionAtoms(doc.whitespace));
    }
  }

  lemma KindDecides(a: Atom)
    requires ValidAtom(a)
    ensures IsBlank(a.text) <==> a.kind != Character
  {
    if a.kind == Character { assert !IsSpace(a.text[0]); }
  }

  lemma ReferencedOnce(e: EvidenceDocument, a: Atom, refs: seq<AtomId>)
    requires IsVisible(CatalogOf(e.atoms), a.id) && a.id in AtomIds(e.atoms)
    requires Missing(CatalogOf(e.atoms), AtomIds(e.atoms), refs) == {} && Distinct(refs)
    ensures multiset(refs)[a.id] == 1
  {
    InVisible(CatalogOf(e.atoms), AtomIds(e.atoms), a.id);
    assert a.id in Elements(VisibleOnly(CatalogOf(e.atoms), AtomIds(e.atoms)));
    assert a.id !in Missing(CatalogOf(e.atoms), AtomIds(e.atoms), refs);
    DistinctMultiset(refs, a.id);
  }

  lemma DisposedOnce(e: EvidenceDocument, a: Atom, spaces: seq<AtomId>)
    requires IsBlankAtom(CatalogOf(e.atoms), a.id) && a.id in AtomIds(e.atoms)
    requires !Unaccounted(CatalogOf(e.atoms), AtomIds(e.atoms), spaces)
    ensures multiset(spaces)[a.id] == 1
  {
    var source := BlankOnly(CatalogOf(e.atoms), AtomIds(e.atoms));
    BlankCount(CatalogOf(e.atoms), AtomIds(e.atoms), a.id);
    assert a.id in AtomIds(e.atoms) <==> multiset(AtomIds(e.atoms))[a.id] > 0;
    assert a.id in source <==> multiset(source)[a.id] > 0;
    assert a.id in Elements(source) <==> a.id in Elements(spaces);
    NoRepeats(spaces);
    DistinctMultiset(spaces, a.id);
  }

  lemma {:induction false} IsCatalogued(atoms: seq<Atom>, a: Atom)
    requires Distinct(AtomIds(atoms)) && a in atoms
    ensures a.id in CatalogOf(atoms) && CatalogOf(atoms)[a.id] == a && a.id in AtomIds(atoms)
  {
    DistinctTail(AtomIds(atoms));
    assert AtomIds(atoms)[1..] == AtomIds(atoms[1..]);
    CatalogKeys(atoms[1..], atoms[0].id);
    if a in atoms[1..] { IsCatalogued(atoms[1..], a); }
  }

  /** No character of the source is lost, added or doubled: the non-whitespace characters of all
      block texts and captions, with those of the excluded regions, are the source's. */
  lemma CharactersConserved(e: EvidenceDocument, doc: Document, layout: Option<Layout>, checks: Checks)
    requires ValidAtoms(e) && forall b :: b in doc.blocks ==> ProperBlock(b)
    requires Validated(e, doc, layout, checks).Some? && Validated(e, doc, layout, checks).value.findings == []
    ensures DocumentInk(doc) + AtomInk(CatalogOf(e.atoms), ExcludedAtoms(doc.excluded)) == AtomInk(CatalogOf(e.atoms), AtomIds(e.atoms))
  {
    hide FindingsOf, AtomInk, InkSum, ProperBlock, Missing, Repeats, CompareBlock, ValidTableBlock;
    var catalog, ids, refs := CatalogOf(e.atoms), AtomIds(e.atoms), References(doc);
    NothingFound(e, doc, layout, checks);
    NoRepeats(refs);
    DistinctParts(BlockAtoms(doc.blocks) + CaptionAtoms(doc.figures), ExcludedAtoms(doc.excluded));
    DistinctParts(BlockAtoms(doc.blocks), CaptionAtoms(doc.figures));
    CompareAll(catalog, doc.blocks);
    BlocksInk(catalog, doc.blocks);
    CaptionsInk(catalog, doc.figures);
    AtomInkConcat(catalog, BlockAtoms(doc.blocks), CaptionAtoms(doc.figures));
    AtomInkConcat(catalog, BlockAtoms(doc.blocks) + CaptionAtoms(doc.figures), ExcludedAtoms(doc.excluded));
    SameVisible(e, refs);
    SameInk(catalog, refs, ids);
  }

  lemma SameVisible(e: EvidenceDocument, refs: seq<AtomId>)
    requires ValidAtoms(e) && !RefersToUnknown(CatalogOf(e.atoms), refs)
    requires Missing(CatalogOf(e.atoms), AtomIds(e.atoms), refs) == {}
    ensures forall id :: IsVisible(CatalogOf(e.atoms), id) ==> (id in refs <==> id in AtomIds(e.atoms))
  {
    var catalog, ids := CatalogOf(e.atoms), AtomIds(e.atoms);
    CatalogIsValid(e);
    forall id | IsVisible(catalog, id) ensures id in refs && id in ids {
      InVisible(catalog, ids, id);
      assert id in Elements(VisibleOnly(catalog, ids)) && id !in Missing(catalog, ids, refs);
    }
  }

  lemma ElementsCount(ids: seq<AtomId>)
    requires Distinct(ids)
    ensures |Elements(ids)| == |ids|
  {
    DistinctByCount(ids);
  }

  lemma {:induction false} VisibleDistinct(catalog: Catalog, ids: seq<AtomId>)
    requires Distinct(ids)
    ensures Distinct(VisibleOnly(catalog, ids))
  {
    if ids != [] {
      DistinctTail(ids);
      VisibleDistinct(catalog, ids[1..]);
      InVisible(catalog, ids[1..], ids[0]);
      var rest := VisibleOnly(catalog, ids[1..]);
      var all := [ids[0]] + rest;
      assert forall j :: 0 < j < |all| ==> all[j] == rest[j - 1];
    }
  }

  lemma ReportCounts(e: EvidenceDocument, doc: Document, findings: seq<FindingCode>)
    ensures var report, catalog, refs := ReportOf(e, doc, findings), CatalogOf(e.atoms), References(doc);
            && report.findings == findings && report.duplicates == Repeats(refs)
            && report.missing == |Missing(catalog, AtomIds(e.atoms), refs)|
            && report.coverage == Coverage(VisibleOnly(catalog, AtomIds(e.atoms)), refs)
  {
    hide Missing, References, CatalogOf, AtomIds, Repeats, VisibleOnly, Coverage, StatusOf, TotalCalls, HashedContent, NeedsAttention;
  }

  /** The covered part of a total, all but the missing ones. */
  predicate Complements(coverage: real, total: nat, missing: nat) {
    && missing <= total && (total > 0 ==> coverage * total as real == (total - missing) as real)
    && (coverage == 1.0 <==> missing == 0)
  }

  lemma CoverageCounts(characters: seq<AtomId>, refs: seq<AtomId>)
    requires Distinct(characters)
    ensures Complements(Coverage(characters, refs), |characters|, |Elements(characters) - Elements(refs)|)
  {
    ElementsCount(characters);
    Split(Elements(characters), Elements(refs));
    hide Elements;
    Quotient(|Elements(characters) * Elements(refs)|, |characters|);
  }

  lemma Split(all: set<AtomId>, some: set<AtomId>)
    ensures |all| == |all * some| + |all - some|
  {
    assert all == all * some + (all - some) && all * some !! (all - some);
  }

  lemma Quotient(part: nat, total: nat)
    requires part <= total
    ensures Complements(if total == 0 then 1.0 else part as real / total as real, total, total - part)
  {
  }

  /** The coverage and the missing count complement each other: the characters are covered up to the
      missing ones, and fully exactly when none is missing. */
  lemma CoverageIff(e: EvidenceDocument, doc: Document, findings: seq<FindingCode>)
    requires ValidAtoms(e)
    ensures var report := ReportOf(e, doc, findings);
            Complements(report.coverage, |VisibleOnly(CatalogOf(e.atoms), AtomIds(e.atoms))|, report.missing)
  {
    ReportCounts(e, doc, findings);
    VisibleDistinct(CatalogOf(e.atoms), AtomIds(e.atoms));
    hide VisibleOnly, References, CatalogOf, AtomIds, ReportOf, Coverage, Elements, Complements;
    CoverageCounts(VisibleOnly(CatalogOf(e.atoms), AtomIds(e.atoms)), References(doc));
  }
}
