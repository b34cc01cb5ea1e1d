/** What the assembled document holds, in terms of the selected candidates: the selected text, kind and table of
    every region reach its block, in reading order. */
module AssembledContent {
  import opened Common
  import opened Spacing
  import opened Candidates
  import opened Decisions
  import opened Evidence
  import opened Canonical
  import opened Assembly

  // ---------- which candidate is selected ----------

  predicate About(s: CandidateSet, region: RegionId, kind: DecisionType) {
    s.region == region && s.decision == kind
  }

  predicate LastAbout(sets: seq<FilledSet>, i: int, region: RegionId, kind: DecisionType) {
    0 <= i < |sets| && About(sets[i], region, kind) && forall j :: i < j < |sets| ==> !About(sets[j], region, kind)
  }

  /** The last set about a region and kind. */
  predicate IsSetFor(sets: seq<FilledSet>, region: RegionId, kind: DecisionType, s: FilledSet) {
    exists i :: 0 <= i < |sets| && LastAbout(sets, i, region, kind) && sets[i] == s
  }

  predicate LastOf(records: seq<Record>, i: int, id: CandidateSetId) {
    0 <= i < |records| && records[i].setId == id && forall j :: i < j < |records| ==> records[j].setId != id
  }

  /** The last record of a set. */
  predicate IsRecordOf(records: seq<Record>, id: CandidateSetId, d: Record) {
    exists i :: 0 <= i < |records| && LastOf(records, i, id) && records[i] == d
  }

  /** The record selects its own generated spacing of the set's region. */
  predicate Generates(s: CandidateSet, d: Record, c: Candidate) {
    d.generated.Some? && d.generated.value.Full? && d.generated.value.candidate == c && d.selected == Some(c.id) && c.region == s.region && s.decision == SpacingType
  }

  /** The record's generated candidate, or the member it selects, or a member of the best score. */
  ghost predicate Chosen(s: CandidateSet, records: seq<Record>, c: Candidate) {
    || (exists d :: IsRecordOf(records, s.id, d) && Generates(s, d, c))
    || (exists d :: IsRecordOf(records, s.id, d) && (forall g :: !Generates(s, d, g)) && c in s.candidates && d.selected == Some(c.id))
    || (&& c in s.candidates && (forall o :: o in s.candidates ==> o.score < c.score || (o.score == c.score && o.id <= c.id))
        && forall d :: IsRecordOf(records, s.id, d) ==>
             (forall g :: !Generates(s, d, g)) && forall o :: o in s.candidates ==> d.selected != Some(o.id))
  }

  ghost predicate ChosenFor(inputs: Inputs, region: RegionId, kind: DecisionType, c: Candidate) {
    exists s: FilledSet :: IsSetFor(inputs.sets, region, kind, s) && Chosen(s, inputs.records, c)
  }

  /** Candidates of one set have different IDs, as the validator of sets requires. */
  predicate Told(s: CandidateSet) {
    forall a, b :: a in s.candidates && b in s.candidates && a.id == b.id ==> a == b
  }

  predicate AllTold(sets: seq<FilledSet>) {
    forall s :: s in sets ==> Told(s)
  }

  lemma {:induction false} SetForIff(sets: seq<FilledSet>, region: RegionId, kind: DecisionType, s: FilledSet)
    ensures IsSetFor(sets, region, kind, s) <==> SetFor(sets, region, kind) == Some(s)
  {
    if sets != [] {
      var n := |sets| - 1;
      SetForIff(sets[..n], region, kind, s);
      forall i ensures LastAbout(sets, i, region, kind) <==> if About(sets[n], region, kind) then i == n else LastAbout(sets[..n], i, region, kind) {
        SetBehind(sets, region, kind, i);
      }
      hide LastAbout;
    }
  }

  lemma SetBehind(sets: seq<FilledSet>, region: RegionId, kind: DecisionType, i: int)
    requires sets != []
    ensures var n := |sets| - 1;
            LastAbout(sets, i, region, kind) <==> if About(sets[n], region, kind) then i == n else LastAbout(sets[..n], i, region, kind)
  {
    hide About;
  }

  lemma {:induction false} RecordForIff(records: seq<Record>, id: CandidateSetId, d: Record)
    ensures IsRecordOf(records, id, d) <==> RecordFor(records, id) == Some(d)
  {
    if records != [] {
      var n := |records| - 1;
      RecordForIff(records[..n], id, d);
      forall i ensures LastOf(records, i, id) <==> if records[n].setId == id then i == n else LastOf(records[..n], i, id) {
        RecordBehind(records, id, i);
      }
      hide LastOf;
    }
  }

  lemma RecordBehind(records: seq<Record>, id: CandidateSetId, i: int)
    requires records != []
    ensures var n := |records| - 1; LastOf(records, i, id) <==> if records[n].setId == id then i == n else LastOf(records[..n], i, id)
  {
  }

  /** The candidate the assembler uses is the chosen one. */
  lemma ChosenIff(s: FilledSet, records: seq<Record>, c: Candidate)
    requires Told(s)
    ensures Chosen(s, records, c) <==> SelectedCandidate(s, records) == c
  {
    hide IsRecordOf, RecordFor;
    var record := RecordFor(records, s.id);
    forall d ensures IsRecordOf(records, s.id, d) <==> record == Some(d) { RecordForIff(records, s.id, d); }
    if record.Some? {
      var d := record.value;
      assert SelectsGenerated(s, d) <==> exists g :: Generates(s, d, g) by {
        if SelectsGenerated(s, d) { assert Generates(s, d, d.generated.value.candidate); }
      }
    }
  }

  lemma ChosenForIff(inputs: Inputs, region: RegionId, kind: DecisionType, c: Candidate)
    requires AllTold(inputs.sets)
    ensures var s := SetFor(inputs.sets, region, kind);
            ChosenFor(inputs, region, kind, c) <==> s.Some? && SelectedCandidate(s.value, inputs.records) == c
  {
    hide IsSetFor, SetFor, Chosen, SelectedCandidate, Told;
    var found := SetFor(inputs.sets, region, kind);
    forall s: FilledSet ensures IsSetFor(inputs.sets, region, kind, s) <==> found == Some(s) { SetForIff(inputs.sets, region, kind, s); }
    if found.Some? { ChosenIff(found.value, inputs.records, c); }
  }

  // ---------- what is selected for a region ----------

  ghost predicate Spaced(inputs: Inputs, region: RegionId, c: SpacedCandidate) {
    ChosenFor(inputs, region, SpacingType, c)
  }

  ghost predicate OfKind(inputs: Inputs, region: RegionId, kind: BlockKind) {
    exists c :: ChosenFor(inputs, region, BlockType, c) && c.BlockCandidate? && c.block == kind
  }

  ghost predicate Gridded(inputs: Inputs, region: RegionId, t: Table) {
    ChosenFor(inputs, region, TableType, t) && OfKind(inputs, region, TableBlock)
  }

  lemma SelectionIff(inputs: Inputs, region: RegionId)
    requires AllTold(inputs.sets)
    ensures forall c: SpacedCandidate :: Spaced(inputs, region, c) <==> SpacingFor(inputs, region) == Some(c)
    ensures forall kind :: OfKind(inputs, region, kind) <==> KindFor(inputs, region) == Some(kind)
    ensures forall t: Table :: Gridded(inputs, region, t) <==> TableFor(inputs, region) == Some(t)
  {
    hide ChosenFor, SetFor, SelectedCandidate;
    forall kind, c ensures ChosenFor(inputs, region, kind, c) <==>
        SetFor(inputs.sets, region, kind).Some? && SelectedCandidate(SetFor(inputs.sets, region, kind).value, inputs.records) == c
    {
      ChosenForIff(inputs, region, kind, c);
    }
  }

  // ---------- what a region becomes ----------

  /** A repeated header, footer or page number. */
  predicate Edge(r: LayoutRegion) {
    r.repeatedEdge && (r.hint == PageHeader || r.hint == PageFooter || r.hint == PageNumber)
  }

  ghost predicate Drawn(inputs: Inputs, r: LayoutRegion) {
    !Edge(r) && OfKind(inputs, r.id, Candidates.Figure)
  }

  ghost predicate Written(inputs: Inputs, r: LayoutRegion) {
    !Edge(r) && !OfKind(inputs, r.id, Candidates.Figure)
  }

  function Texts(catalog: Catalog, ids: seq<AtomId>): seq<string> {
    seq(|ids|, i requires 0 <= i < |ids| => if ids[i] in catalog then catalog[ids[i]].text else "")
  }

  /** A record of the region's set of that kind has the ID. */
  ghost predicate DecidedBy(inputs: Inputs, region: RegionId, kind: DecisionType, id: DecisionId) {
    exists s: FilledSet, d :: IsSetFor(inputs.sets, region, kind, s) && IsRecordOf(inputs.records, s.id, d) && d.id == id
  }

  predicate Shapes(kind: BlockKind, shape: Shape) {
    match kind
    case Heading(level) => shape == HeadingShape(level)
    case ListItem(ordered, depth) => shape == ListItemShape(ordered, depth)
    case Caption => shape == CaptionShape
    case TableBlock => shape.TableShape? || shape == ParagraphShape
    case Paragraph => shape == ParagraphShape
    case Figure => false
  }

  /** The cell of the selected table with its text: as recognized when no spacing is selected and it has one, and
      projected from the selected spacing or the source otherwise. */
  ghost predicate CellFor(inputs: Inputs, r: LayoutRegion, cell: Cell, made: CanonicalCell) {
    && made.id == cell.id && made.span == cell.span && made.header == cell.header && made.atoms == VisibleOnly(inputs.catalog, cell.atoms)
    && (forall c: SpacedCandidate :: Spaced(inputs, r.id, c) ==> made.text == Project(inputs.catalog, cell.atoms, Some(c)))
    && ((forall c: SpacedCandidate :: !Spaced(inputs, r.id, c)) ==>
          made.text == if cell.rendered.Some? then cell.rendered.value else Project(inputs.catalog, cell.atoms, None))
  }

  ghost predicate TableFrom(inputs: Inputs, r: LayoutRegion, t: Table, b: Block) {
    && b.shape.TableShape? && b.shape.rows == t.rows && b.shape.columns == t.columns && |b.shape.cells| == |t.cells|
    && (forall i :: 0 <= i < |t.cells| ==> CellFor(inputs, r, t.cells[i], b.shape.cells[i]))
    && b.text == PlainText(t.rows, t.columns, b.shape.cells)
  }

  /** The block has the region's visible atoms, the shape of the selected kind, the text of the selected table, or else
      the selected text, or else the text of the atoms; and it names the decisions made about the region. */
  ghost predicate BlockFor(inputs: Inputs, r: LayoutRegion, b: Block) {
    && b.region == r.id && b.page == r.page && b.atoms == VisibleOnly(inputs.catalog, r.atoms)
    && (forall kind :: OfKind(inputs, r.id, kind) ==> Shapes(kind, b.shape))
    && ((forall kind :: !OfKind(inputs, r.id, kind)) ==> b.shape == ParagraphShape)
    && (forall t: Table :: Gridded(inputs, r.id, t) ==> TableFrom(inputs, r, t, b))
    && ((forall t: Table :: !Gridded(inputs, r.id, t)) ==>
          && !b.shape.TableShape?
          && (forall c: SpacedCandidate :: Spaced(inputs, r.id, c) ==> b.text == c.text)
          && ((forall c: SpacedCandidate :: !Spaced(inputs, r.id, c)) ==> b.text == Flatten(Texts(inputs.catalog, r.atoms))))
    && forall id :: id in b.decisions <==>
         DecidedBy(inputs, r.id, SpacingType, id) || DecidedBy(inputs, r.id, BlockType, id) || DecidedBy(inputs, r.id, TableType, id)
  }

  ghost predicate FigureFor(inputs: Inputs, r: LayoutRegion, f: FigureEntry) {
    && f.region == r.id && f.page == r.page && f.caption == None && f.captionAtoms == []
    && forall id :: id in f.decisions <==> DecidedBy(inputs, r.id, SpacingType, id) || DecidedBy(inputs, r.id, BlockType, id)
  }

  predicate ExclusionFor(r: LayoutRegion, x: Excluded) {
    && x.region == r.id && x.atoms == r.atoms
    && x.reason == match r.hint case PageHeader => RepeatedHeader case PageFooter => RepeatedFooter case _ => PageNumbering
  }

  lemma {:induction false} SourceTextIs(catalog: Catalog, ids: seq<AtomId>)
    ensures SourceText(catalog, ids) == Flatten(Texts(catalog, ids))
  {
    if ids != [] {
      SourceTextIs(catalog, ids[1..]);
      assert Texts(catalog, ids)[1..] == Texts(catalog, ids[1..]);
    }
  }

  lemma DecisionsIff(inputs: Inputs, region: RegionId, kind: DecisionType, id: DecisionId)
    ensures id in DecisionsOn(inputs, region, kind) <==> DecidedBy(inputs, region, kind, id)
  {
    hide IsSetFor, SetFor, IsRecordOf, RecordFor;
    forall s: FilledSet ensures IsSetFor(inputs.sets, region, kind, s) <==> SetFor(inputs.sets, region, kind) == Some(s) {
      SetForIff(inputs.sets, region, kind, s);
    }
    forall set_, d ensures IsRecordOf(inputs.records, set_, d) <==> RecordFor(inputs.records, set_) == Some(d) {
      RecordForIff(inputs.records, set_, d);
    }
  }

  lemma CellIff(inputs: Inputs, r: LayoutRegion, cell: Cell)
    requires AllTold(inputs.sets)
    ensures CellFor(inputs, r, cell, CanonicalCellOf(inputs.catalog, cell, SpacingFor(inputs, r.id)))
  {
    hide Spaced, SpacingFor, Project, VisibleOnly;
    SelectionIff(inputs, r.id);
    if SpacingFor(inputs, r.id).Some? { assert Spaced(inputs, r.id, SpacingFor(inputs, r.id).value); }
  }

  lemma TableIsFrom(inputs: Inputs, r: LayoutRegion, t: Table)
    requires AllTold(inputs.sets) && !IsEdge(r) && TableFor(inputs, r.id) == Some(t) && PartOf(inputs, r).BlockPart?
    ensures TableFrom(inputs, r, t, PartOf(inputs, r).block)
  {
    hide CellFor, SpacingFor, CanonicalCellOf, PlainText, VisibleOnly, DecisionsOn, SetFor, SelectedCandidate;
    forall i | 0 <= i < |t.cells| ensures CellFor(inputs, r, t.cells[i], CellsOf(inputs, r)[i]) { CellIff(inputs, r, t.cells[i]); }
  }

  lemma PartIsFor(inputs: Inputs, r: LayoutRegion)
    requires AllTold(inputs.sets)
    ensures var part := PartOf(inputs, r);
            && (Edge(r) <==> part.ExcludedPart?) && (Edge(r) ==> ExclusionFor(r, part.excluded))
            && (Drawn(inputs, r) <==> part.FigurePart?) && (Drawn(inputs, r) ==> FigureFor(inputs, r, part.figure))
            && (Written(inputs, r) <==> part.BlockPart?) && (Written(inputs, r) ==> BlockFor(inputs, r, part.block))
  {
    hide Spaced, OfKind, Gridded, SpacingFor, KindFor, TableFor, CanonicalCellOf, PlainText, VisibleOnly, DecisionsOn, SourceText, TableFrom, DecidedBy;
    SelectionIff(inputs, r.id);
    SourceTextIs(inputs.catalog, r.atoms);
    forall kind, id ensures id in DecisionsOn(inputs, r.id, kind) <==> DecidedBy(inputs, r.id, kind, id) { DecisionsIff(inputs, r.id, kind, id); }
    KindOfTable(inputs, r.id);
    if TableFor(inputs, r.id).Some? && PartOf(inputs, r).BlockPart? { TableIsFrom(inputs, r, TableFor(inputs, r.id).value); }
  }

  lemma KindOfTable(inputs: Inputs, region: RegionId)
    ensures TableFor(inputs, region).Some? ==> KindFor(inputs, region) == Some(TableBlock)
  {
    hide SetFor, SelectedCandidate;
  }

  // ---------- the whole document ----------

  ghost function Kept(regions: seq<LayoutRegion>, keep: LayoutRegion -> bool): seq<LayoutRegion> {
    if regions == [] then []
    else Kept(regions[..|regions| - 1], keep) + if keep(regions[|regions| - 1]) then [regions[|regions| - 1]] else []
  }

  ghost predicate BlocksFor(inputs: Inputs, regions: seq<LayoutRegion>, blocks: seq<Block>) {
    && |blocks| == |Kept(regions, r => Written(inputs, r))|
    && forall j :: 0 <= j < |blocks| ==>
         BlockFor(inputs, Kept(regions, r => Written(inputs, r))[j], blocks[j]) && blocks[j].order == j
  }

  ghost predicate FiguresFor(inputs: Inputs, regions: seq<LayoutRegion>, figures: seq<FigureEntry>) {
    && |figures| == |Kept(regions, r => Drawn(inputs, r))|
    && forall j :: 0 <= j < |figures| ==> FigureFor(inputs, Kept(regions, r => Drawn(inputs, r))[j], figures[j])
  }

  ghost predicate ExclusionsFor(regions: seq<LayoutRegion>, excluded: seq<Excluded>) {
    && |excluded| == |Kept(regions, r => Edge(r))|
    && forall j :: 0 <= j < |excluded| ==> ExclusionFor(Kept(regions, r => Edge(r))[j], excluded[j])
  }

  lemma SameFor(inputs: Inputs, r: LayoutRegion, b: Block, order: nat)
    requires BlockFor(inputs, r, b)
    ensures BlockFor(inputs, r, b.(order := order))
  {
    hide CellFor, Gridded, Spaced, OfKind, DecidedBy, VisibleOnly, PlainText;
  }

  lemma {:induction false} PiecesAreFor(inputs: Inputs, regions: seq<LayoutRegion>)
    requires AllTold(inputs.sets)
    ensures var pieces := Collect(inputs, regions);
            && BlocksFor(inputs, regions, pieces.blocks) && FiguresFor(inputs, regions, pieces.figures) && ExclusionsFor(regions, pieces.excluded)
  {
    hide BlockFor, FigureFor, ExclusionFor, PartOf, SpaceOf, Written, Drawn, Edge, AllTold;
    if regions != [] {
      var last := regions[|regions| - 1];
      PiecesAreFor(inputs, regions[..|regions| - 1]);
      PartIsFor(inputs, last);
      var part := PartOf(inputs, last);
      if part.BlockPart? { SameFor(inputs, last, part.block, |Collect(inputs, regions[..|regions| - 1]).blocks|); }
    }
  }

  // ---------- whitespace ----------

  /** The state a whitespace atom stands for. */
  function OwnState(atom: Atom): Gap {
    if atom.text == "\n" then HardBreak else SpaceGap
  }

  /** The last boundary that lists the atom. */
  predicate Lists(c: SpacedCandidate, id: AtomId, b: Boundary) {
    id in b.whitespace && exists i :: 0 <= i < |c.boundaries| && c.boundaries[i] == b && forall j :: i < j < |c.boundaries| ==> id !in c.boundaries[j].whitespace
  }

  /** In an edge the atom is layout only. Elsewhere the selected spacing keeps it, replaces it by the state of its boundary,
      or - when no boundary lists it - leaves it to the layout; without a selected spacing it stays as it is. */
  ghost predicate DisposedFor(inputs: Inputs, r: LayoutRegion, atom: Atom, d: Disposition) {
    && d.atom == atom.id
    && if Edge(r) then d.outcome == LayoutOnly && d.state == NoGap && d.decision == NO_DECISION
       else
         && (forall c: SpacedCandidate, b :: Spaced(inputs, r.id, c) && Lists(c, atom.id, b) ==>
               d.state == b.gap && d.outcome == if b.gap == OwnState(atom) then Retained else Normalized)
         && (forall c: SpacedCandidate :: Spaced(inputs, r.id, c) && (forall b :: !Lists(c, atom.id, b)) ==>
               d.state == OwnState(atom) && d.outcome == LayoutOnly)
         && ((forall c: SpacedCandidate :: !Spaced(inputs, r.id, c)) ==> d.state == OwnState(atom) && d.outcome == Retained)
         && (forall id :: DecidedBy(inputs, r.id, SpacingType, id) ==> d.decision == id)
         && ((forall id :: !DecidedBy(inputs, r.id, SpacingType, id)) ==> d.decision == NO_DECISION)
  }

  ghost predicate AllDisposedFor(inputs: Inputs, r: LayoutRegion, whitespace: seq<Disposition>) {
    var blanks := BlankOnly(inputs.catalog, r.atoms);
    |whitespace| == |blanks| && forall i :: 0 <= i < |blanks| ==> blanks[i] in inputs.catalog && DisposedFor(inputs, r, inputs.catalog[blanks[i]], whitespace[i])
  }

  lemma {:induction false} ListsIff(boundaries: seq<Boundary>, id: AtomId, c: SpacedCandidate, b: Boundary)
    requires c.boundaries == boundaries
    ensures Lists(c, id, b) <==> BoundaryWith(boundaries, id) == Some(b)
  {
    if boundaries != [] {
      var n := |boundaries| - 1;
      var front := boundaries[..n];
      var rest := c.(boundaries := front);
      ListsIff(front, id, rest, b);
      assert forall i :: 0 <= i < n ==> front[i] == boundaries[i];
      if id in boundaries[n].whitespace {
        assert Lists(c, id, boundaries[n]);
      } else if id in b.whitespace {
        if i :| 0 <= i < n && front[i] == b && forall j :: i < j < n ==> id !in front[j].whitespace {
          assert boundaries[i] == b && forall j :: i < j <= n ==> id !in boundaries[j].whitespace;
        }
        if i :| 0 <= i <= n && boundaries[i] == b && forall j :: i < j <= n ==> id !in boundaries[j].whitespace {
          assert front[i] == b && forall j :: i < j < n ==> id !in front[j].whitespace;
        }
      }
    }
  }

  lemma DispositionIsFor(inputs: Inputs, r: LayoutRegion, atom: Atom)
    requires AllTold(inputs.sets) && !Edge(r)
    ensures DisposedFor(inputs, r, atom, DispositionOf(atom, SpacingFor(inputs, r.id), SpacingDecision(inputs, r.id)))
  {
    hide Spaced, SpacingFor, BoundaryWith, Lists, DecidedBy, DecisionsOn;
    SelectionIff(inputs, r.id);
    var spacing := SpacingFor(inputs, r.id);
    if spacing.Some? {
      forall b ensures Lists(spacing.value, atom.id, b) <==> BoundaryWith(spacing.value.boundaries, atom.id) == Some(b) {
        ListsIff(spacing.value.boundaries, atom.id, spacing.value, b);
      }
      assert Spaced(inputs, r.id, spacing.value);
      var listed := BoundaryWith(spacing.value.boundaries, atom.id);
      if listed.Some? { assert Lists(spacing.value, atom.id, listed.value); }
    }
    forall id ensures id in DecisionsOn(inputs, r.id, SpacingType) <==> DecidedBy(inputs, r.id, SpacingType, id) {
      DecisionsIff(inputs, r.id, SpacingType, id);
    }
    var ids := DecisionsOn(inputs, r.id, SpacingType);
    if ids != [] { assert ids[0] in ids && DecidedBy(inputs, r.id, SpacingType, ids[0]); }
  }

  lemma {:induction false} BlankFront(catalog: Catalog, ids: seq<AtomId>)
    requires ids != []
    ensures BlankOnly(catalog, ids) ==
            BlankOnly(catalog, ids[..|ids| - 1]) + if IsBlankAtom(catalog, ids[|ids| - 1]) then [ids[|ids| - 1]] else []
  {
    var n := |ids| - 1;
    if n > 0 {
      assert ids[..n][1..] == ids[1..][..n - 1];
      BlankFront(catalog, ids[1..]);
      ConcatAssociates(if IsBlankAtom(catalog, ids[0]) then [ids[0]] else [], BlankOnly(catalog, ids[1..][..n - 1]),
                       if IsBlankAtom(catalog, ids[n]) then [ids[n]] else []);
    }
  }

  lemma {:induction false} SpaceIsFor(inputs: Inputs, r: LayoutRegion, ids: seq<AtomId>)
    requires AllTold(inputs.sets)
    ensures AllDisposedFor(inputs, r.(atoms := ids), SpaceOf(inputs, r.(atoms := ids)))
  {
    hide DisposedFor, SpacingFor, SpacingDecision, AllTold, DispositionOf, IsEdge;
    if ids != [] {
      var n := |ids| - 1;
      var all, front := r.(atoms := ids), r.(atoms := ids[..n]);
      BlankFront(inputs.catalog, ids);
      SpaceIsFor(inputs, r, ids[..n]);
      EdgeIff(all);
      EdgeIff(front);
      if IsBlankAtom(inputs.catalog, ids[n]) {
        var atom := inputs.catalog[ids[n]];
        if !Edge(all) { DispositionIsFor(inputs, all, atom); } else { EdgeDisposition(inputs, all, atom); }
      }
      forall i | 0 <= i < |BlankOnly(inputs.catalog, ids[..n])|
        ensures DisposedFor(inputs, all, inputs.catalog[BlankOnly(inputs.catalog, ids[..n])[i]], SpaceOf(inputs, front)[i])
      {
        SameRegion(inputs, front, all, inputs.catalog[BlankOnly(inputs.catalog, ids[..n])[i]], SpaceOf(inputs, front)[i]);
      }
    }
  }

  lemma EdgeIff(r: LayoutRegion)
    ensures IsEdge(r) <==> Edge(r)
  {
  }

  lemma EdgeDisposition(inputs: Inputs, r: LayoutRegion, atom: Atom)
    requires Edge(r)
    ensures DisposedFor(inputs, r, atom, Disposition(atom.id, LayoutOnly, NoGap, NO_DECISION))
  {
  }

  lemma SameRegion(inputs: Inputs, a: LayoutRegion, b: LayoutRegion, atom: Atom, d: Disposition)
    requires a == b.(atoms := a.atoms) && DisposedFor(inputs, a, atom, d)
    ensures DisposedFor(inputs, b, atom, d)
  {
  }

  /** The dispositions of the regions, one after the other. */
  ghost predicate WhitespaceFor(inputs: Inputs, regions: seq<LayoutRegion>, whitespace: seq<Disposition>) {
    exists parts: seq<seq<Disposition>> ::
      && |parts| == |regions| && whitespace == Flatten(parts)
      && forall k :: 0 <= k < |regions| ==> AllDisposedFor(inputs, regions[k], parts[k])
  }

  lemma {:induction false} WhitespaceIsFor(inputs: Inputs, regions: seq<LayoutRegion>)
    requires AllTold(inputs.sets)
    ensures WhitespaceFor(inputs, regions, Collect(inputs, regions).whitespace)
  {
    hide AllDisposedFor, PartOf, SpaceOf, AllTold;
    if regions == [] {
      assert Flatten<Disposition>([]) == [];
      assert WhitespaceFor(inputs, regions, []) by {
        var none: seq<seq<Disposition>> := [];
        assert |none| == |regions| && [] == Flatten(none);
      }
    } else {
      var n := |regions| - 1;
      var before := Collect(inputs, regions[..n]).whitespace;
      WhitespaceIsFor(inputs, regions[..n]);
      var parts :| |parts| == n && before == Flatten(parts) && forall k :: 0 <= k < n ==> AllDisposedFor(inputs, regions[..n][k], parts[k]);
      var more := SpaceOf(inputs, regions[n]);
      SpaceIsFor(inputs, regions[n], regions[n].atoms);
      assert regions[n].(atoms := regions[n].atoms) == regions[n];
      FlattenConcat(parts, [more]);
      assert Flatten([more]) == more;
      var all := parts + [more];
      assert Flatten(all) == before + more;
      forall k | 0 <= k < |regions| ensures AllDisposedFor(inputs, regions[k], all[k]) {
        if k < n { assert regions[..n][k] == regions[k]; }
      }
      assert Collect(inputs, regions).whitespace == Flatten(all);
    }
  }

  // ---------- reading order and continuations ----------

  predicate FirstReading(sets: seq<FilledSet>, i: nat) {
    i < |sets| && sets[i].decision == ReadingOrderType && forall j :: 0 <= j < i ==> sets[j].decision != ReadingOrderType
  }

  /** The order of the candidate chosen for the first set of reading orders, or the given one. */
  ghost predicate ReadsIn(sets: seq<FilledSet>, records: seq<Record>, topological: seq<RegionId>, order: seq<RegionId>) {
    || (exists i: nat, c :: i < |sets| && FirstReading(sets, i) && Chosen(sets[i], records, c)
                            && order == if c.ReadingOrderCandidate? then c.order else topological)
    || ((forall s :: s in sets ==> s.decision != ReadingOrderType) && order == topological)
  }

  lemma {:induction false} OrderReads(sets: seq<FilledSet>, records: seq<Record>, topological: seq<RegionId>)
    requires AllTold(sets)
    ensures ReadsIn(sets, records, topological, OrderOf(sets, records, topological))
  {
    hide SelectedCandidate, Chosen, Told, FirstReading, ReadsIn;
    if sets == [] {
      NoReading(records, topological);
    } else if sets[0].decision == ReadingOrderType {
      var c := SelectedCandidate(sets[0], records);
      ChosenIff(sets[0], records, c);
      ReadingAtOnce(sets, records, topological, c);
    } else {
      OrderReads(sets[1..], records, topological);
      ReadingBehind(sets, records, topological, OrderOf(sets, records, topological));
    }
  }

  lemma NoReading(records: seq<Record>, topological: seq<RegionId>)
    ensures ReadsIn([], records, topological, topological)
  {
  }

  lemma ReadingAtOnce(sets: seq<FilledSet>, records: seq<Record>, topological: seq<RegionId>, c: Candidate)
    requires sets != [] && sets[0].decision == ReadingOrderType && Chosen(sets[0], records, c)
    ensures ReadsIn(sets, records, topological, if c.ReadingOrderCandidate? then c.order else topological)
  {
    hide Chosen;
    assert 0 < |sets| && FirstReading(sets, 0);
  }

  lemma ReadingBehind(sets: seq<FilledSet>, records: seq<Record>, topological: seq<RegionId>, order: seq<RegionId>)
    requires sets != [] && sets[0].decision != ReadingOrderType && ReadsIn(sets[1..], records, topological, order)
    ensures ReadsIn(sets, records, topological, order)
  {
    hide Chosen, FirstReading;
    var rest := sets[1..];
    if i: nat, c :| i < |rest| && FirstReading(rest, i) && Chosen(rest[i], records, c) && order == if c.ReadingOrderCandidate? then c.order else topological {
      FirstBehind(sets, i);
    } else {
      assert forall s :: s in sets ==> s == sets[0] || s in rest;
    }
  }

  lemma FirstBehind(sets: seq<FilledSet>, i: nat)
    requires sets != [] && sets[0].decision != ReadingOrderType && FirstReading(sets[1..], i)
    ensures FirstReading(sets, i + 1) && sets[i + 1] == sets[1..][i]
  {
    forall j | 0 < j < i + 1 ensures sets[j].decision != ReadingOrderType { assert sets[j] == sets[1..][j - 1]; }
  }

  /** A set of continuations has a record, and the candidate chosen for it joins the two regions. */
  ghost predicate Joins(s: FilledSet, records: seq<Record>, k: Continuation) {
    && s.decision == ContinuationType
    && exists c, d :: Chosen(s, records, c) && c.ContinuationCandidate? && c.joins && IsRecordOf(records, s.id, d)
                      && k == Continuation(c.previous, c.current, d.id)
  }

  lemma JoinsIff(s: FilledSet, records: seq<Record>, k: Continuation)
    requires Told(s)
    ensures k in ContinuationOf(s, records) <==> Joins(s, records, k)
  {
    hide SelectedCandidate, Chosen, IsRecordOf, RecordFor, Told;
    forall c ensures Chosen(s, records, c) <==> SelectedCandidate(s, records) == c { ChosenIff(s, records, c); }
    forall d ensures IsRecordOf(records, s.id, d) <==> RecordFor(records, s.id) == Some(d) { RecordForIff(records, s.id, d); }
    var c := SelectedCandidate(s, records);
    if c.ContinuationCandidate? && RecordFor(records, s.id).Some? && k == Continuation(c.previous, c.current, RecordFor(records, s.id).value.id) {
      assert Chosen(s, records, c) && IsRecordOf(records, s.id, RecordFor(records, s.id).value);
    }
  }

  lemma {:induction false} ContinuationsIff(sets: seq<FilledSet>, records: seq<Record>, k: Continuation)
    requires AllTold(sets)
    ensures k in ContinuationsOf(sets, records) <==> exists s :: s in sets && Joins(s, records, k)
  {
    hide ContinuationOf, Joins, Told;
    if sets != [] {
      var n := |sets| - 1;
      ContinuationsIff(sets[..n], records, k);
      JoinsIff(sets[n], records, k);
      assert forall s :: s in sets <==> s in sets[..n] || s == sets[n];
    }
  }

  /** An assembled document follows the selected reading order; every region in it is excluded as an edge, or becomes a figure or
      a block with what is selected for it; its whitespace and its continuations are those of the selected candidates. */
  lemma DocumentHoldsSelections(e: EvidenceDocument, inputs: Inputs, topological: seq<RegionId>)
    requires AllTold(inputs.sets) && Assembling(e, inputs, topological).Assembled?
    ensures var doc := Assembling(e, inputs, topological).document;
            && doc.source == e.source && doc.decisions == inputs.records && ReadsIn(inputs.sets, inputs.records, topological, doc.order)
            && KnownRegions(inputs.layout, doc.order)
            && var regions := OrderedRegions(inputs.layout, doc.order);
               && BlocksFor(inputs, regions, doc.blocks) && FiguresFor(inputs, regions, doc.figures) && ExclusionsFor(regions, doc.excluded)
               && WhitespaceFor(inputs, regions, doc.whitespace)
               && forall k :: k in doc.continuations <==> exists s :: s in inputs.sets && Joins(s, inputs.records, k)
  {
    hide Collect, Resolvable, ContinuationsOf, OrderOf, AllTold, BlocksFor, FiguresFor, ExclusionsFor, WhitespaceFor, ReadsIn, Joins;
    OrderReads(inputs.sets, inputs.records, topological);
    var regions := OrderedRegions(inputs.layout, OrderOf(inputs.sets, inputs.records, topological));
    PiecesAreFor(inputs, regions);
    WhitespaceIsFor(inputs, regions);
    forall k ensures k in ContinuationsOf(inputs.sets, inputs.records) <==> exists s :: s in inputs.sets && Joins(s, inputs.records, k) {
      ContinuationsIff(inputs.sets, inputs.records, k);
    }
  }
}
