/** The records of semantic decisions: policy, attempts, request keys, decision records, and
    the identity a record is sealed with. Request and attempt hashes carry their payload, which
    is how an injective hash behaves; text hashes, minted candidate IDs and decision IDs are
    arbitrary functions. */
module Decisions {
  import opened Common
  import opened Names
  import opened Spacing
  import opened Candidates

  type DecisionId = int

  datatype Policy = Policy(
    autoScore: real, autoMargin: real, minConfidence: real,
    maxCandidates: nat, maxSchemaAttempts: nat, maxRecoveries: nat)

  /** The field bounds of `AdjudicationPolicy`; two consensus votes are always required. */
  predicate ValidPolicy(p: Policy) {
    && 0.0 <= p.autoScore <= 1.0 && 0.0 <= p.autoMargin <= 1.0 && 0.0 <= p.minConfidence <= 1.0
    && 1 <= p.maxCandidates <= 5 && 1 <= p.maxSchemaAttempts <= 2 && p.maxRecoveries <= 2
  }

  datatype Phase = Primary | Recovery | Tiebreak | Generation | VerificationPhase

  datatype Status = Accepted | LowConfidence | CandidateUnknown | ProviderRejected | ValidationRejected

  /** What a later prompt shows of an earlier vote. */
  datatype PriorVote = PriorVote(phase: Phase, candidate: CandidateId, confidence: real, codes: seq<Code>)

  datatype Messages =
    | VoteMessages(phase: Phase, set_: CandidateSet, candidates: seq<Candidate>, prior: seq<PriorVote>)
    | Corrective(original: Messages, code: Code)
    | GenerationMessages(set_: CandidateSet, candidates: seq<Candidate>, anchor: Candidate)
    | VerificationMessages(set_: CandidateSet, candidates: seq<Candidate>, generated: Candidate)

  datatype RequestKey = RequestKey(
    source: Hash, evidence: Hash, region: RegionId, setId: CandidateSetId,
    provider: Name, model: Name, policy: Policy, crop: Option<Hash>)

  datatype AttemptKey = AttemptKey(request: RequestKey, phase: Phase, messages: Messages, index: nat)

  datatype Attempt = Attempt(
    index: nat, phase: Phase, request: AttemptKey, candidate: Option<CandidateId>, confidence: real,
    status: Status, codes: seq<Code>, retries: nat, repairs: nat)

  /** A generated spacing candidate, in full or with its texts reduced to hashes. */
  datatype Generated =
    | Full(candidate: SpacedCandidate)
    | Snapshot(id: CandidateId, region: RegionId, atoms: seq<AtomId>, boundaries: seq<Boundary>,
        mutable: Option<seq<int>>, score: real, features: map<Feature, real>, textHash: Hash, charsHash: Hash)

  datatype Outcome = Selected | ReviewRequired | DeferredReview

  datatype Source = FromDeterministic | FromModel | FromRecovered | FromCache | FromUnavailable | FromProvider | FromGenerated | FromFallback

  datatype RecoveryStatus = NotNeeded | Recovered | NeedsReview | GeneratedRepair | Deferred

  datatype Consensus = NoConsensus | SameCandidate | TwoOfThree

  datatype Record = Record(
    id: DecisionId, request: RequestKey, source: Hash, evidence: Hash, setId: CandidateSetId, region: RegionId,
    decision: DecisionType, selected: Option<CandidateId>, outcome: Outcome, origin: Source, confidence: real,
    provider: Name, model: Name, codes: seq<Code>, retries: nat, repairs: nat, recovery: RecoveryStatus,
    attempts: seq<Attempt>, consensus: Consensus, agreed: Option<CandidateId>, recoveries: nat,
    generated: Option<Generated>)

  /** The identity payload of a generated candidate: both forms reduce to hashes. */
  datatype GeneratedIdentity = GeneratedIdentity(
    id: CandidateId, region: RegionId, atoms: seq<AtomId>, boundaries: seq<Boundary>, mutable: Option<seq<int>>,
    score: real, features: map<Feature, real>, textHash: Hash, charsHash: Hash)

  /** What `_decision_id` hashes. */
  datatype DecisionIdentity = DecisionIdentity(
    request: RequestKey, selected: Option<CandidateId>, outcome: Outcome, origin: Source, codes: seq<Code>,
    confidence: real, provider: Name, model: Name, retries: nat, repairs: nat, attempts: seq<Attempt>,
    recovery: RecoveryStatus, consensus: Consensus, agreed: Option<CandidateId>, recoveries: nat,
    generated: Option<GeneratedIdentity>)

  /** The pattern checks and hashes the engine is run with. `defects` is
      `spacing_defect_codes`, which reads only the rendered text. */
  datatype Lexicon = Lexicon(
    defects: string -> seq<Code>,
    splitsIdentifier: string -> bool,
    splitsProtected: (string, string) -> bool,
    textHash: string -> Hash,
    mint: Mint,
    seal: DecisionIdentity -> DecisionId)

  /** Total provider retries over attempts, and total repairs. */
  function RetrySum(attempts: seq<Attempt>): nat {
    if attempts == [] then 0 else attempts[0].retries + RetrySum(attempts[1..])
  }

  function RepairSum(attempts: seq<Attempt>): nat {
    if attempts == [] then 0 else attempts[0].repairs + RepairSum(attempts[1..])
  }

  function GeneratedPayload(lexicon: Lexicon, g: Generated): GeneratedIdentity {
    match g
    case Full(c) =>
      GeneratedIdentity(c.id, c.region, c.atoms, c.boundaries, c.mutable, c.score, c.features,
                        lexicon.textHash(c.text), lexicon.textHash(c.chars))
    case Snapshot(id, region, atoms, boundaries, mutable, score, features, textHash, charsHash) =>
      GeneratedIdentity(id, region, atoms, boundaries, mutable, score, features, textHash, charsHash)
  }

  /** `_decision_id`. */
  function DecisionIdOf(lexicon: Lexicon, r: Record): DecisionId {
    lexicon.seal(DecisionIdentity(
      r.request, r.selected, r.outcome, r.origin, r.codes, r.confidence, r.provider, r.model, r.retries, r.repairs,
      r.attempts, r.recovery, r.consensus, r.agreed, r.recoveries,
      if r.generated.Some? then Some(GeneratedPayload(lexicon, r.generated.value)) else None))
  }

  /** The last two steps of `_record`: the counts are the sums over the attempts, then the ID. */
  function Seal(lexicon: Lexicon, draft: Record): Record {
    var counted :=
      if draft.attempts == [] then draft
      else draft.(retries := RetrySum(draft.attempts), repairs := RepairSum(draft.attempts));
    counted.(id := DecisionIdOf(lexicon, counted))
  }

  /** `_cached_record`. */
  function Cached(lexicon: Lexicon, trusted: Record): Record {
    var cached := trusted.(origin := FromCache);
    cached.(id := DecisionIdOf(lexicon, cached))
  }

  /** `_current_model_call_count`. */
  function ModelCalls(r: Record): nat {
    if r.origin == FromCache then 0
    else if r.attempts != [] then |r.attempts| + RetrySum(r.attempts) + RepairSum(r.attempts)
    else if r.origin == FromModel || r.origin == FromProvider || r.origin == FromRecovered then 1
    else 0
  }

  /** The bounds the models of attempts and records put on their fields. */
  predicate BoundedAttempt(a: Attempt) {
    && 1 <= a.index <= 6 && 0.0 <= a.confidence <= 1.0 && |a.codes| <= 4 && a.retries <= 2 && a.repairs <= 2
  }

  predicate BoundedRecord(r: Record) {
    && 0.0 <= r.confidence <= 1.0 && |r.codes| <= 4 && r.retries <= 12 && r.repairs <= 12 && r.recoveries <= 2
    && |r.attempts| <= 6
    && forall i :: 0 <= i < |r.attempts| ==> BoundedAttempt(r.attempts[i]) && r.attempts[i].index == i + 1
  }

  // ---------- snapshots ----------

  /** `diagnostic_decision_record`. */
  function Diagnostic(lexicon: Lexicon, r: Record): Record {
    if r.generated.Some? && r.generated.value.Full? then
      r.(generated := Some(SnapshotOf(lexicon, r.generated.value.candidate)))
    else r
  }

  /** The spacing candidates of a set. */
  function SpacingOnly(candidates: seq<Candidate>): (r: seq<Candidate>)
    ensures forall c :: c in r <==> c in candidates && c.SpacingCandidate?
    ensures (forall c :: c in candidates ==> c.SpacingCandidate?) ==> r == candidates
  {
    if candidates == [] then []
    else (if candidates[0].SpacingCandidate? then [candidates[0]] else []) + SpacingOnly(candidates[1..])
  }

  /** The full candidate a snapshot stands for, given the characters of the region. */
  function Rebuild(lexicon: Lexicon, g: Generated, chars: string): Option<Generated>
    requires g.Snapshot?
  {
    var text := Render(chars, GapsOf(g.boundaries));
    if lexicon.textHash(chars) != g.charsHash || lexicon.textHash(text) != g.textHash then None
    else
      var made := MakeSpacing(lexicon.mint, g.region, text, chars, g.atoms, WhitespaceOf(g.boundaries), g.score, g.features, g.mutable);
      if made.Made? && made.candidate.id == g.id then Some(Full(made.candidate)) else None
  }

  /** `_materialize_generated_candidate`: a snapshot becomes a full candidate again only when
      the current set still proves its characters and the rebuilt text and ID agree. */
  function Materialize(lexicon: Lexicon, set_: CandidateSet, r: Record): Option<Record> {
    if r.generated.None? || r.generated.value.Full? then Some(r)
    else
      var g := r.generated.value;
      var spacing := SpacingOnly(set_.candidates);
      if set_.decision != SpacingType || g.region != set_.region || spacing == [] then None
      else if exists c :: c in spacing && c.chars != spacing[0].chars then None
      else
        var rebuilt := Rebuild(lexicon, g, spacing[0].chars);
        if rebuilt.None? then None else Some(r.(generated := rebuilt))
  }

  /** Snapshotting never changes the decision ID. */
  lemma SnapshotKeepsIdentity(lexicon: Lexicon, r: Record)
    ensures DecisionIdOf(lexicon, Diagnostic(lexicon, r)) == DecisionIdOf(lexicon, r)
    ensures Diagnostic(lexicon, r).id == r.id
  {
  }

  predicate SharesCharacters(set_: CandidateSet, c: SpacedCandidate) {
    forall other :: other in set_.candidates ==> other.SpacingCandidate? && other.chars == c.chars
  }

  function SnapshotOf(lexicon: Lexicon, c: SpacedCandidate): Generated {
    Snapshot(c.id, c.region, c.atoms, c.boundaries, c.mutable, c.score, c.features,
             lexicon.textHash(c.text), lexicon.textHash(c.chars))
  }

  lemma RebuildExact(lexicon: Lexicon, c: SpacedCandidate)
    requires ValidSpacing(c)
    ensures Rebuild(lexicon, SnapshotOf(lexicon, c), c.chars) ==
            if ContentAddressed(lexicon.mint, c) then Some(Full(c)) else None
  {
    MakeSpacingAgain(lexicon.mint, c);
  }

  /** A snapshot of a record whose generated candidate is valid and belongs to the set's region
      materializes to that very record exactly when the candidate's ID is the one its content
      derives, provided the whole set shares its characters. */
  lemma SnapshotRoundTrip(lexicon: Lexicon, set_: CandidateSet, r: Record)
    requires set_.decision == SpacingType && set_.candidates != []
    requires r.generated.Some? && r.generated.value.Full?
    requires ValidSpacing(r.generated.value.candidate) && r.generated.value.candidate.region == set_.region
    requires SharesCharacters(set_, r.generated.value.candidate)
    ensures Materialize(lexicon, set_, Diagnostic(lexicon, r)) ==
            if ContentAddressed(lexicon.mint, r.generated.value.candidate) then Some(r) else None
  {
    var c := r.generated.value.candidate;
    var spacing := SpacingOnly(set_.candidates);
    assert spacing == set_.candidates && spacing[0] in set_.candidates;
    RebuildExact(lexicon, c);
  }

  // ---------- what an identity says ----------

  /** A generated candidate with its texts reduced to hashes. */
  function AsSnapshot(lexicon: Lexicon, g: Generated): Generated {
    if g.Full? then SnapshotOf(lexicon, g.candidate) else g
  }

  /** The same decision up to its ID, its decision type and the set it is filed under, a generated candidate up to the hashes of its texts. */
  predicate SameContent(lexicon: Lexicon, a: Record, b: Record) {
    && a.request == b.request && a.selected == b.selected && a.outcome == b.outcome && a.origin == b.origin && a.codes == b.codes
    && a.confidence == b.confidence && a.provider == b.provider && a.model == b.model && a.retries == b.retries && a.repairs == b.repairs
    && a.attempts == b.attempts && a.recovery == b.recovery && a.consensus == b.consensus && a.agreed == b.agreed && a.recoveries == b.recoveries
    && (a.generated.Some? <==> b.generated.Some?)
    && (a.generated.Some? && b.generated.Some? ==> AsSnapshot(lexicon, a.generated.value) == AsSnapshot(lexicon, b.generated.value))
  }

  /** When the seal is injective, two decisions have one identity exactly when they have the same content. */
  lemma IdentityIff(lexicon: Lexicon, a: Record, b: Record)
    requires forall x, y :: lexicon.seal(x) == lexicon.seal(y) ==> x == y
    ensures DecisionIdOf(lexicon, a) == DecisionIdOf(lexicon, b) <==> SameContent(lexicon, a, b)
  {
  }

  /** What a stored snapshot becomes again: a valid candidate of the set's region and characters, under the ID and the hashes that were
      stored; any other record comes back as it is. */
  lemma MaterializeMeans(lexicon: Lexicon, set_: CandidateSet, r: Record, d: Record)
    requires Materialize(lexicon, set_, r) == Some(d)
    ensures r.generated.None? || r.generated.value.Full? ==> d == r
    ensures r.generated.Some? && r.generated.value.Snapshot? ==>
              && d.generated.Some? && d.generated.value.Full? && d == r.(generated := d.generated)
              && var g, c := r.generated.value, d.generated.value.candidate;
                 && ValidSpacing(c) && ContentAddressed(lexicon.mint, c) && set_.decision == SpacingType
                 && c.id == g.id && c.region == g.region == set_.region && c.atoms == g.atoms && c.mutable == g.mutable
                 && c.score == g.score && c.features == g.features
                 && lexicon.textHash(c.text) == g.textHash && lexicon.textHash(c.chars) == g.charsHash
                 && forall o :: o in set_.candidates && o.SpacingCandidate? ==> o.chars == c.chars
  {
    if r.generated.Some? && r.generated.value.Snapshot? {
      var g := r.generated.value;
      var chars := SpacingOnly(set_.candidates)[0].chars;
      var text := Render(chars, GapsOf(g.boundaries));
      hide ValidSpacing;
      MadeFacts(lexicon.mint, g.region, text, chars, g.atoms, WhitespaceOf(g.boundaries), g.score, g.features, g.mutable);
    }
  }

  /** A record reports no call of this run exactly when it is cached, or has no attempts and does not come from a model or provider. */
  lemma NoCallsIff(r: Record)
    ensures ModelCalls(r) == 0 <==>
              r.origin == FromCache || (r.attempts == [] && r.origin != FromModel && r.origin != FromProvider && r.origin != FromRecovered)
    ensures r.origin != FromCache ==> ModelCalls(r) >= |r.attempts|
  {
  }
}
