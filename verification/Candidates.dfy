/** The bounded candidates a semantic decision chooses from, their validators, and the
    construction of spacing candidates. Identifiers are fixed-width lowercase hexadecimal in
    the source, so their string order is the order of the numbers they write; they are `int` here. */
module Candidates {
  import opened Common
  import opened Names
  import opened Spacing
  import opened TableGrid

  type AtomId = int
  type RegionId = int
  type CandidateId = int
  type CandidateSetId = int
  type CellId = int
  type Hash = int

  const MAX_TABLE_ROWS := 10_000
  const MAX_TABLE_COLUMNS := 256
  const MAX_TABLE_GRID_AREA := 100_000
  const MAX_TABLE_CELLS := 100_000
  const MAX_CANDIDATES := 5

  datatype Boundary = Boundary(left: AtomId, right: AtomId, gap: Gap, whitespace: seq<AtomId>)

  datatype BlockKind =
    | Heading(level: nat)
    | Paragraph
    | ListItem(ordered: bool, depth: nat)
    | TableBlock
    | Caption
    | Figure

  datatype Cell = Cell(
    id: CellId, span: Span, atoms: seq<AtomId>, header: bool, rendered: Option<string>)

  datatype Candidate =
    | SpacingCandidate(
        id: CandidateId, region: RegionId, text: string, chars: string, atoms: seq<AtomId>,
        boundaries: seq<Boundary>, mutable: Option<seq<int>>, score: real, features: map<Feature, real>)
    | RecognitionCandidate(
        id: CandidateId, region: RegionId, recognized: string, engine: string,
        score: real, features: map<Feature, real>)
    | BlockCandidate(
        id: CandidateId, region: RegionId, block: BlockKind, atoms: seq<AtomId>,
        score: real, features: map<Feature, real>)
    | ReadingOrderCandidate(
        id: CandidateId, region: RegionId, order: seq<RegionId>, score: real, features: map<Feature, real>)
    | ContinuationCandidate(
        id: CandidateId, region: RegionId, previous: RegionId, current: RegionId, joins: bool,
        score: real, features: map<Feature, real>)
    | TableCandidate(
        id: CandidateId, region: RegionId, rows: nat, columns: nat, cells: seq<Cell>, atoms: seq<AtomId>,
        score: real, features: map<Feature, real>)

  /** A candidate of the spacing kind. */
  type SpacedCandidate = c: Candidate | c.SpacingCandidate?
    witness SpacingCandidate(0, 0, "a", "a", [0], [], None, 0.0, map[])

  datatype DecisionType = SpacingType | RecognitionType | BlockType | ReadingOrderType | ContinuationType | TableType

  function TypeOf(c: Candidate): DecisionType {
    match c
    case SpacingCandidate(_, _, _, _, _, _, _, _, _) => SpacingType
    case RecognitionCandidate(_, _, _, _, _, _) => RecognitionType
    case BlockCandidate(_, _, _, _, _, _) => BlockType
    case ReadingOrderCandidate(_, _, _, _, _) => ReadingOrderType
    case ContinuationCandidate(_, _, _, _, _, _, _) => ContinuationType
    case TableCandidate(_, _, _, _, _, _, _, _) => TableType
  }

  datatype CandidateSet = CandidateSet(
    id: CandidateSetId, source: Hash, region: RegionId, decision: DecisionType, candidates: seq<Candidate>)

  function GapsOf(boundaries: seq<Boundary>): (gaps: seq<Gap>)
    ensures |gaps| == |boundaries|
  {
    seq(|boundaries|, i requires 0 <= i < |boundaries| => boundaries[i].gap)
  }

  function WhitespaceOf(boundaries: seq<Boundary>): (r: seq<seq<AtomId>>)
    ensures |r| == |boundaries|
  {
    seq(|boundaries|, i requires 0 <= i < |boundaries| => boundaries[i].whitespace)
  }

  function GapsBetween(n: nat): nat {
    if n == 0 then 0 else n - 1
  }

  predicate StrictlyIncreasing(s: seq<int>) {
    forall i, j :: 0 <= i < j < |s| ==> s[i] < s[j]
  }

  /** The mutable indexes are sorted, duplicate-free, in range, and none is a hard break. */
  predicate ValidMutable(mutable: Option<seq<int>>, gaps: seq<Gap>) {
    mutable.Some? ==>
      && StrictlyIncreasing(mutable.value)
      && forall k :: k in mutable.value ==> 0 <= k < |gaps| && gaps[k] != HardBreak
  }

  /** `SpacingCandidate.validate_spacing` and the field bounds. */
  predicate ValidSpacing(c: SpacedCandidate)
  {
    && c.chars != "" && SpaceFree(c.chars)
    && Squeeze(c.text) == c.chars
    && |c.atoms| == |c.chars| && Distinct(c.atoms)
    && |c.boundaries| == |c.atoms| - 1
    && (forall i :: 0 <= i < |c.boundaries| ==>
          c.boundaries[i].left == c.atoms[i] && c.boundaries[i].right == c.atoms[i + 1])
    && Render(c.chars, GapsOf(c.boundaries)) == c.text
    && ValidMutable(c.mutable, GapsOf(c.boundaries))
    && 0.0 <= c.score <= 1.0
  }

  function SpansOf(cells: seq<Cell>): (spans: seq<Span>)
    ensures |spans| == |cells|
  {
    seq(|cells|, i requires 0 <= i < |cells| => cells[i].span)
  }

  function CellAtoms(cells: seq<Cell>): seq<AtomId> {
    if cells == [] then [] else cells[0].atoms + CellAtoms(cells[1..])
  }

  predicate ValidSpan(span: Span) {
    span.startRow < span.endRow <= MAX_TABLE_ROWS && span.startColumn < span.endColumn <= MAX_TABLE_COLUMNS
  }

  /** `TableCandidate.validate_table` and the field bounds of the table and its cells. */
  ghost predicate ValidTable(c: Candidate)
    requires c.TableCandidate?
  {
    && 0 < c.rows <= MAX_TABLE_ROWS && 0 < c.columns <= MAX_TABLE_COLUMNS
    && c.rows * c.columns <= MAX_TABLE_GRID_AREA
    && 0 < |c.cells| <= MAX_TABLE_CELLS && c.atoms != []
    && (forall cell :: cell in c.cells ==> ValidSpan(cell.span))
    && (forall i, j :: 0 <= i < j < |c.cells| ==> c.cells[i].id != c.cells[j].id)
    && Distinct(CellAtoms(c.cells))
    && (set a | a in CellAtoms(c.cells)) == (set a | a in c.atoms)
    && Tiles(c.rows, c.columns, SpansOf(c.cells))
  }

  /** The validators of all six kinds. */
  ghost predicate ValidCandidate(c: Candidate) {
    && 0.0 <= c.score <= 1.0
    && match c
       case SpacingCandidate(_, _, _, _, _, _, _, _, _) => ValidSpacing(c)
       case RecognitionCandidate(_, _, text, engine, _, _) => text != "" && engine != ""
       case BlockCandidate(_, _, block, atoms, _, _) =>
         && atoms != [] && Distinct(atoms)
         && (block.Heading? ==> 1 <= block.level <= 6)
         && (block.ListItem? ==> 1 <= block.depth <= 8)
       case ReadingOrderCandidate(_, _, order, _, _) => order != [] && Distinct(order)
       case ContinuationCandidate(_, region, previous, current, _, _, _) => region == current && previous != current
       case TableCandidate(_, _, _, _, _, _, _, _) => ValidTable(c)
  }

  /** `CandidateSet.validate_candidates` over validated candidates. */
  ghost predicate ValidSet(s: CandidateSet) {
    && 0 < |s.candidates| <= MAX_CANDIDATES
    && (forall i, j :: 0 <= i < j < |s.candidates| ==> s.candidates[i].id != s.candidates[j].id)
    && (forall c :: c in s.candidates ==> c.region == s.region && TypeOf(c) == s.decision && ValidCandidate(c))
  }

  /** What the identifier of a spacing candidate is derived from. */
  datatype SpacingIdentity = SpacingIdentity(
    region: RegionId, text: string, atoms: seq<AtomId>, boundaries: seq<Boundary>, mutable: Option<seq<int>>)

  type Mint = SpacingIdentity -> CandidateId

  /** How the construction of a spacing candidate ends: with a candidate, with a bare error
      code, or with the model validator's report, whose message is no error code. */
  datatype Construction = Made(candidate: SpacedCandidate) | Rejected(code: Code) | Malformed

  function BoundariesFrom(gaps: seq<Gap>, atoms: seq<AtomId>, whitespace: seq<seq<AtomId>>): (r: seq<Boundary>)
    requires |whitespace| == |gaps| == GapsBetween(|atoms|)
    ensures |r| == |gaps| && GapsOf(r) == gaps && WhitespaceOf(r) == whitespace
    ensures forall i :: 0 <= i < |r| ==> r[i].left == atoms[i] && r[i].right == atoms[i + 1]
  {
    seq(|gaps|, i requires 0 <= i < |gaps| => Boundary(atoms[i], atoms[i + 1], gaps[i], whitespace[i]))
  }

  /** `make_spacing_candidate`. */
  function MakeSpacing(
    mint: Mint, region: RegionId, text: string, chars: string, atoms: seq<AtomId>,
    whitespace: seq<seq<AtomId>>, score: real, features: map<Feature, real>, mutable: Option<seq<int>>): Construction
  {
    GapCount(text);
    if |Squeeze(text)| != |atoms| || |whitespace| != GapsBetween(|atoms|) then
      Rejected(CANDIDATE_BOUNDARY_SEQUENCE_INVALID)
    else
      var boundaries := BoundariesFrom(Gaps(text), atoms, whitespace);
      var id := mint(SpacingIdentity(region, text, atoms, boundaries, mutable));
      var c := SpacingCandidate(id, region, text, chars, atoms, boundaries, mutable, score, features);
      if ValidSpacing(c) then Made(c) else Malformed
  }

  /** The identifier a candidate's content derives. */
  function DerivedId(mint: Mint, c: SpacedCandidate): CandidateId {
    mint(SpacingIdentity(c.region, c.text, c.atoms, c.boundaries, c.mutable))
  }

  /** The candidate under another identifier. */
  function Renamed(c: SpacedCandidate, id: CandidateId): SpacedCandidate {
    SpacingCandidate(id, c.region, c.text, c.chars, c.atoms, c.boundaries, c.mutable, c.score, c.features)
  }

  predicate ContentAddressed(mint: Mint, c: SpacedCandidate) {
    c.id == DerivedId(mint, c)
  }

  /** A valid spacing candidate's boundaries are the parse of its text. */
  lemma BoundariesAreParse(c: SpacedCandidate)
    requires ValidSpacing(c)
    ensures Gaps(c.text) == GapsOf(c.boundaries) && Normal(c.text) == c.text
  {
    ParseOfRender(c.chars, GapsOf(c.boundaries));
  }

  /** The indexes of the gaps that may change: ascending, within the gaps, and none of a line break. */
  predicate Changeable(mutable: Option<seq<int>>, gaps: seq<Gap>) {
    mutable.Some? ==>
      && (forall i, j :: 0 <= i < j < |mutable.value| ==> mutable.value[i] < mutable.value[j])
      && forall i :: 0 <= i < |mutable.value| ==> 0 <= mutable.value[i] < |gaps| && gaps[mutable.value[i]] != HardBreak
  }

  /** For some choice of boundary states a candidate is accepted exactly when its characters are those of its text, one for each of its
      atoms, which differ; its score is a confidence; its text is in normal form; and the gaps that may change are gaps of the text. */
  lemma AcceptsExactlyNormalTexts(c: SpacedCandidate)
    ensures (exists boundaries :: ValidSpacing(c.(boundaries := boundaries))) <==>
              && c.chars != "" && c.chars == Squeeze(c.text) && |c.atoms| == |c.chars|
              && (forall i, j :: 0 <= i < j < |c.atoms| ==> c.atoms[i] != c.atoms[j]) && 0.0 <= c.score <= 1.0
              && Normal(c.text) == c.text && Changeable(c.mutable, Gaps(c.text))
  {
    SqueezeSpaceFree(c.text);
    GapCount(c.text);
    assert forall gaps :: ValidMutable(c.mutable, gaps) <==> Changeable(c.mutable, gaps) by {
      forall gaps ensures ValidMutable(c.mutable, gaps) <==> Changeable(c.mutable, gaps) { ChangeableIff(c.mutable, gaps); }
    }
    if c.chars != "" && c.chars == Squeeze(c.text) && |c.atoms| == |c.chars| && Distinct(c.atoms) && 0.0 <= c.score <= 1.0
       && Normal(c.text) == c.text && Changeable(c.mutable, Gaps(c.text)) {
      var blanks := seq(|Gaps(c.text)|, i => []);
      var boundaries := BoundariesFrom(Gaps(c.text), c.atoms, blanks);
      assert ValidSpacing(c.(boundaries := boundaries));
    }
    forall boundaries | ValidSpacing(c.(boundaries := boundaries))
      ensures Normal(c.text) == c.text && ValidMutable(c.mutable, Gaps(c.text))
    {
      BoundariesAreParse(c.(boundaries := boundaries));
    }
  }

  lemma ChangeableIff(mutable: Option<seq<int>>, gaps: seq<Gap>)
    ensures ValidMutable(mutable, gaps) <==> Changeable(mutable, gaps)
  {
    if mutable.Some? {
      assert forall i :: 0 <= i < |mutable.value| ==> mutable.value[i] in mutable.value;
    }
  }

  /** Making a candidate again from its parts gives it back, under the ID its content derives. */
  lemma MakeSpacingAgain(mint: Mint, c: SpacedCandidate)
    requires ValidSpacing(c)
    ensures MakeSpacing(mint, c.region, c.text, c.chars, c.atoms, WhitespaceOf(c.boundaries),
                        c.score, c.features, c.mutable) == Made(Renamed(c, DerivedId(mint, c)))
  {
    BoundariesAreParse(c);
    GapCount(c.text);
    var again := BoundariesFrom(Gaps(c.text), c.atoms, WhitespaceOf(c.boundaries));
    forall i | 0 <= i < |again| ensures again[i] == c.boundaries[i] {
      assert GapsOf(again)[i] == GapsOf(c.boundaries)[i];
      assert WhitespaceOf(again)[i] == WhitespaceOf(c.boundaries)[i];
    }
    assert again == c.boundaries;
  }

  /** What a construction that succeeds made. */
  lemma MadeFacts(
    mint: Mint, region: RegionId, text: string, chars: string, atoms: seq<AtomId>,
    whitespace: seq<seq<AtomId>>, score: real, features: map<Feature, real>, mutable: Option<seq<int>>)
    requires MakeSpacing(mint, region, text, chars, atoms, whitespace, score, features, mutable).Made?
    ensures var c := MakeSpacing(mint, region, text, chars, atoms, whitespace, score, features, mutable).candidate;
            && ValidSpacing(c) && ContentAddressed(mint, c)
            && c.region == region && c.text == text && c.chars == chars && c.atoms == atoms && c.mutable == mutable
            && WhitespaceOf(c.boundaries) == whitespace && c.score == score
  {
  }
}
