/** What the assembler guarantees when the layout partitions the atoms and the candidates cover
    their regions: only the atoms of figures can go missing. */
module AssemblerCompleteness {
  import opened Common
  import opened Spacing
  import opened Candidates
  import opened Decisions
  import opened Evidence
  import opened Canonical
  import opened Assembly
  import opened Validator
  import opened ValidatorSoundness

  // ---------- hypotheses ----------

  function RegionAtoms(regions: seq<LayoutRegion>): seq<AtomId> {
    if regions == [] then [] else RegionAtoms(regions[..|regions| - 1]) + regions[|regions| - 1].atoms
  }

  function IdsOf(regions: seq<LayoutRegion>): (r: seq<RegionId>)
    ensures |r| == |regions| && forall i :: 0 <= i < |r| ==> r[i] == regions[i].id
  {
    seq(|regions|, i requires 0 <= i < |regions| => regions[i].id)
  }

  /** A table's cells are known, cover the region's characters and repeat none, and a cell whose own
      text is used, because no spacing is selected, spells its atoms. */
  ghost predicate CoveringTable(catalog: Catalog, region: LayoutRegion, table: Table, spacing: Option<SpacedCandidate>) {
    && ValidTable(table)
    && (forall cell :: cell in table.cells ==> KnownCell(catalog, cell))
    && (forall id :: IsVisible(catalog, id) ==> (id in CellAtoms(table.cells) <==> id in region.atoms))
    && forall cell :: cell in table.cells && spacing.None? && cell.rendered.Some? ==> Squeeze(cell.rendered.value) == AtomText(catalog, cell.atoms)
  }

  /** The selected candidates of a region cover its characters. */
  ghost predicate CoveredRegion(inputs: Inputs, region: LayoutRegion) {
    && (SpacingFor(inputs, region.id).Some? ==> Squeeze(SpacingFor(inputs, region.id).value.text) == AtomText(inputs.catalog, region.atoms))
    && (TableFor(inputs, region.id).Some? ==> CoveringTable(inputs.catalog, region, TableFor(inputs, region.id).value, SpacingFor(inputs, region.id)))
  }

  /** The layout's regions partition the atoms, and the order is a permutation of the regions. */
  ghost predicate Partitioned(e: EvidenceDocument, inputs: Inputs, order: seq<RegionId>) {
    && ValidAtoms(e) && inputs.catalog == CatalogOf(e.atoms) && e.source == inputs.layout.source
    && multiset(RegionAtoms(inputs.layout.regions)) == multiset(AtomIds(e.atoms))
    && Distinct(IdsOf(inputs.layout.regions))
    && multiset(order) == multiset(IdsOf(inputs.layout.regions))
  }

  // ---------- the ordered regions ----------

  lemma {:induction false} AtomsPermute(a: seq<LayoutRegion>, b: seq<LayoutRegion>)
    requires multiset(a) == multiset(b)
    ensures multiset(RegionAtoms(a)) == multiset(RegionAtoms(b))
  {
    hide RegionAtoms;
    if a == [] {
      assert |multiset(b)| == |b|;
    } else {
      assert a[0] in multiset(b);
      var i :| 0 <= i < |b| && b[i] == a[0];
      RemoveBoth(a, b, i);
      AtomsPermute(a[1..], b[..i] + b[i + 1..]);
      assert [a[0]] + a[1..] == a && b == b[..i] + [b[i]] + b[i + 1..];
      AtomsConcat([a[0]], a[1..]);
      AtomsConcat(b[..i] + [b[i]], b[i + 1..]);
      AtomsConcat(b[..i], [b[i]]);
      AtomsConcat(b[..i], b[i + 1..]);
    }
  }

  lemma {:induction false} AtomsConcat(a: seq<LayoutRegion>, b: seq<LayoutRegion>)
    ensures RegionAtoms(a + b) == RegionAtoms(a) + RegionAtoms(b)
  {
    if b == [] {
      assert a + b == a;
    } else {
      var n := |b| - 1;
      AtomsConcat(a, b[..n]);
      assert (a + b)[..|a + b| - 1] == a + b[..n];
      ConcatAssociates(RegionAtoms(a), RegionAtoms(b[..n]), b[n].atoms);
    }
  }

  /** The regions in order are the layout's regions. */
  lemma OrderedArePermuted(layout: Layout, order: seq<RegionId>)
    requires Distinct(IdsOf(layout.regions)) && multiset(order) == multiset(IdsOf(layout.regions))
    ensures KnownRegions(layout, order) && multiset(OrderedRegions(layout, order)) == multiset(layout.regions)
    ensures Distinct(order)
  {
    var ids := IdsOf(layout.regions);
    forall x ensures multiset(order)[x] <= 1 { DistinctMultiset(ids, x); }
    BagIsDistinct(order);
    forall i | 0 <= i < |order| ensures RegionById(layout.regions, order[i]).Some? {
      assert order[i] in multiset(ids);
      var k :| 0 <= k < |ids| && ids[k] == order[i];
      assert layout.regions[k] in layout.regions;
    }
    var regions := OrderedRegions(layout, order);
    assert Distinct(regions) by {
      forall i, j | 0 <= i < j < |regions| ensures regions[i] != regions[j] { assert order[i] != order[j]; }
    }
    assert Distinct(layout.regions) by {
      forall i, j | 0 <= i < j < |ids| ensures layout.regions[i] != layout.regions[j] { assert ids[i] != ids[j]; }
    }
    forall r ensures r in regions <==> r in layout.regions {
      if r in layout.regions {
        var k :| 0 <= k < |ids| && layout.regions[k] == r;
        assert ids[k] in multiset(order);
        var i :| 0 <= i < |order| && order[i] == r.id;
        UniqueRegion(layout.regions, r, regions[i]);
      }
    }
    SameBag(regions, layout.regions);
  }

  lemma UniqueRegion(regions: seq<LayoutRegion>, a: LayoutRegion, b: LayoutRegion)
    requires Distinct(IdsOf(regions)) && a in regions && b in regions && a.id == b.id
    ensures a == b
  {
    var i :| 0 <= i < |regions| && regions[i] == a;
    var j :| 0 <= j < |regions| && regions[j] == b;
    assert IdsOf(regions)[i] == IdsOf(regions)[j];
  }

  // ---------- references and whitespace ----------

  predicate IsFigure(inputs: Inputs, region: LayoutRegion) {
    !IsEdge(region) && KindFor(inputs, region.id) == Some(Candidates.Figure)
  }

  function Claim(inputs: Inputs, region: LayoutRegion): seq<AtomId> {
    if IsEdge(region) then region.atoms else if IsFigure(inputs, region) then [] else VisibleOnly(inputs.catalog, region.atoms)
  }

  /** The non-whitespace atoms of the regions whose selected block is a figure. */
  function FigureAtoms(inputs: Inputs, regions: seq<LayoutRegion>): seq<AtomId> {
    if regions == [] then []
    else
      var last := regions[|regions| - 1];
      FigureAtoms(inputs, regions[..|regions| - 1]) + if IsFigure(inputs, last) then VisibleOnly(inputs.catalog, last.atoms) else []
  }

  /** How often the collected pieces refer to an atom. */
  function Mentions(p: Pieces, id: AtomId): nat {
    multiset(BlockAtoms(p.blocks))[id] + multiset(CaptionAtoms(p.figures))[id] + multiset(ExcludedAtoms(p.excluded))[id]
  }

  lemma PlacedMentions(inputs: Inputs, p: Pieces, region: LayoutRegion, id: AtomId)
    ensures Mentions(Place(p, PartOf(inputs, region), SpaceOf(inputs, region)), id) == Mentions(p, id) + multiset(Claim(inputs, region))[id]
  {
    hide VisibleOnly, SpaceOf, KindFor, TableFor, CellsOf, BlockText, ShapeOf, DecisionsOn;
    var after := Place(p, PartOf(inputs, region), SpaceOf(inputs, region));
    if IsEdge(region) {
      assert after.excluded[..|after.excluded| - 1] == p.excluded;
    } else if IsFigure(inputs, region) {
      assert after.figures[..|after.figures| - 1] == p.figures;
    } else {
      assert after.blocks[..|after.blocks| - 1] == p.blocks;
    }
  }

  /** A visible atom is referenced or belongs to a figure, as often as it belongs to a region. */
  lemma {:induction false} MentionsOf(inputs: Inputs, regions: seq<LayoutRegion>, id: AtomId)
    ensures var p := Collect(inputs, regions);
            && Mentions(p, id) + multiset(FigureAtoms(inputs, regions))[id] <= multiset(RegionAtoms(regions))[id]
            && (IsVisible(inputs.catalog, id) ==>
                  Mentions(p, id) + multiset(FigureAtoms(inputs, regions))[id] == multiset(RegionAtoms(regions))[id])
  {
    hide Place, PartOf, SpaceOf, VisibleOnly, Mentions;
    if regions == [] {
      NothingMentioned(id);
    } else {
      var n := |regions| - 1;
      MentionsOf(inputs, regions[..n], id);
      PlacedMentions(inputs, Collect(inputs, regions[..n]), regions[n], id);
      VisibleCount(inputs.catalog, regions[n].atoms, id);
    }
  }

  lemma NothingMentioned(id: AtomId)
    ensures Mentions(Pieces([], [], [], []), id) == 0
  {
  }

  function Dispositioned(p: Pieces, id: AtomId): nat {
    multiset(DispositionAtoms(p.whitespace))[id]
  }

  lemma {:induction false} DispositionsConcat(a: seq<Disposition>, b: seq<Disposition>)
    ensures DispositionAtoms(a + b) == DispositionAtoms(a) + DispositionAtoms(b)
  {
    if b == [] {
      assert a + b == a;
    } else {
      var n := |b| - 1;
      DispositionsConcat(a, b[..n]);
      assert (a + b)[..|a + b| - 1] == a + b[..n];
    }
  }

  lemma {:induction false} BlankConcat(catalog: Catalog, ids: seq<AtomId>, last: AtomId)
    ensures BlankOnly(catalog, ids + [last]) == BlankOnly(catalog, ids) + if IsBlankAtom(catalog, last) then [last] else []
  {
    var all := ids + [last];
    if ids == [] {
      assert all[1..] == [];
    } else {
      BlankConcat(catalog, ids[1..], last);
      assert all[0] == ids[0] && all[1..] == ids[1..] + [last];
    }
  }

  /** Every whitespace atom of a region is disposed of, in order. */
  lemma {:induction false} DisposedAtoms(catalog: Catalog, ids: seq<AtomId>, spacing: Option<SpacedCandidate>, decision: DecisionId)
    requires ValidCatalog(catalog)
    ensures DispositionAtoms(Dispositions(catalog, ids, spacing, decision)) == BlankOnly(catalog, ids)
    ensures DispositionAtoms(EdgeDispositions(catalog, ids)) == BlankOnly(catalog, ids)
  {
    hide DispositionOf;
    if ids != [] {
      var n := |ids| - 1;
      DisposedAtoms(catalog, ids[..n], spacing, decision);
      BlankConcat(catalog, ids[..n], ids[n]);
      assert ids[..n] + [ids[n]] == ids;
      if IsBlankAtom(catalog, ids[n]) {
        var one, other := DispositionOf(catalog[ids[n]], spacing, decision), Disposition(catalog[ids[n]].id, LayoutOnly, NoGap, NO_DECISION);
        OneDisposed(Dispositions(catalog, ids[..n], spacing, decision), one);
        OneDisposed(EdgeDispositions(catalog, ids[..n]), other);
      } else {
        var before := BlankOnly(catalog, ids[..n]);
        assert before + [] == before;
        assert Dispositions(catalog, ids, spacing, decision) == Dispositions(catalog, ids[..n], spacing, decision);
        assert EdgeDispositions(catalog, ids) == EdgeDispositions(catalog, ids[..n]);
      }
    }
  }

  lemma OneDisposed(before: seq<Disposition>, d: Disposition)
    ensures DispositionAtoms(before + [d]) == DispositionAtoms(before) + [d.atom]
  {
    assert (before + [d])[..|before|] == before;
  }

  lemma {:induction false} DisposedCount(inputs: Inputs, regions: seq<LayoutRegion>, id: AtomId)
    requires ValidCatalog(inputs.catalog)
    ensures Dispositioned(Collect(inputs, regions), id) ==
            if IsBlankAtom(inputs.catalog, id) then multiset(RegionAtoms(regions))[id] else 0
  {
    hide PartOf, BlankOnly, SpacingFor, SpacingDecision, Dispositions, EdgeDispositions, DispositionAtoms;
    if regions == [] {
      assert DispositionAtoms([]) == [] by { NothingDisposed(); }
    } else {
      var n := |regions| - 1;
      var region := regions[n];
      DisposedCount(inputs, regions[..n], id);
      DispositionsConcat(Collect(inputs, regions[..n]).whitespace, SpaceOf(inputs, region));
      DisposedAtoms(inputs.catalog, region.atoms, SpacingFor(inputs, region.id), SpacingDecision(inputs, region.id));
      BlankCount(inputs.catalog, region.atoms, id);
    }
  }

  lemma NothingDisposed()
    ensures DispositionAtoms([]) == []
  {
  }
}
