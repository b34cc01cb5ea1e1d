/** Concrete inputs on which the decision engine does less than its documentation promises. */
module Examples {
  import opened Common
  import opened Names
  import opened Spacing
  import opened Candidates
  import opened LlmService
  import opened Decisions
  import opened Ranking
  import opened Audit
  import opened Adjudication
  import opened DecisionProofs
  import opened Backing
  import opened Aborting
  import AuditProofs
  import DecisionTheorems
  import Sorting

  // ---------- sets of two spacings ----------

  const DENSE := SpacingCandidate(1, 1, "ab", "ab", [1, 2], [Boundary(1, 2, NoGap, [])], None, 0.5, map[])
  const SPACED := SpacingCandidate(2, 1, "a b", "ab", [1, 2], [Boundary(1, 2, SpaceGap, [])], None, 0.5, map[])
  /** The spaced candidate with a boundary it may change. */
  const LOOSE := SpacingCandidate(2, 1, "a b", "ab", [1, 2], [Boundary(1, 2, SpaceGap, [])], Some([0]), 0.5, map[])
  /** What the machine makes when the dense text is respaced. */
  const REPAIRED := SpacingCandidate(7, 1, "a b", "ab", [1, 2], [Boundary(1, 2, SpaceGap, [])], None, 0.9,
                                     map[LLM_GENERATED_SPACING := 0.9])

  const DEFAULT_POLICY := Policy(0.82, 0.12, 0.80, 5, 2, 2)
  /** Considers the best candidate only. */
  const CUTTING_POLICY := Policy(0.82, 0.12, 0.80, 1, 2, 2)

  /** No pattern objects to anything. */
  function Permissive(): Lexicon {
    Lexicon((t: string) => [], (t: string) => false, (t: string, u: string) => false, (t: string) => |t|,
            (i: SpacingIdentity) => 7, (d: DecisionIdentity) => 0)
  }

  /** The job of deciding between the dense candidate and another. */
  function JobOf(other: SpacedCandidate, policy: Policy): Job {
    Prepare(Permissive(), CandidateSet(9, 0, 1, SpacingType, [DENSE, other]), policy, Some((1, 1)), 0, None)
  }

  /** Another spacing of the same score, after the dense one. */
  predicate Other(c: SpacedCandidate) {
    ValidSpacing(c) && c.id == 2 && c.region == 1 && c.score == 0.5
  }

  lemma SqueezeSteps()
    ensures Squeeze("") == "" && Squeeze("b") == "b" && Squeeze(" b") == "b" && Squeeze("  b") == "b"
  {
    assert "b"[1..] == "" && " b"[1..] == "b" && "  b"[1..] == " b";
  }

  lemma Squeezed()
    ensures Squeeze("ab") == "ab" && Squeeze("a b") == "ab" && Squeeze("a  b") == "ab"
  {
    SqueezeSteps();
    assert "ab"[1..] == "b" && "a b"[1..] == " b" && "a  b"[1..] == "  b";
  }

  lemma RenderedPair(gap: Gap)
    ensures Render("ab", [gap]) == "a" + Separator(gap) + "b"
  {
    assert "ab"[1..] == "b" && [gap][1..] == [];
  }

  /** Two characters with one gap between them. */
  lemma TwoCharactersAreValid(c: SpacedCandidate, gap: Gap)
    requires c.chars == "ab" && c.text == "a" + Separator(gap) + "b" && Squeeze(c.text) == "ab"
    requires c.atoms == [1, 2] && c.boundaries == [Boundary(1, 2, gap, [])] && 0.0 <= c.score <= 1.0
    requires c.mutable.None? || (c.mutable == Some([0]) && gap != HardBreak)
    ensures ValidSpacing(c) && GapsOf(c.boundaries) == [gap]
  {
    RenderedPair(gap);
    assert GapsOf(c.boundaries) == [gap];
    hide Squeeze, Render;
  }

  lemma AllAreValid()
    ensures ValidSpacing(DENSE) && ValidSpacing(REPAIRED) && Other(SPACED) && Other(LOOSE)
  {
    Squeezed();
    hide ValidSpacing, Squeeze;
    TwoCharactersAreValid(DENSE, NoGap);
    TwoCharactersAreValid(SPACED, SpaceGap);
    TwoCharactersAreValid(LOOSE, SpaceGap);
    TwoCharactersAreValid(REPAIRED, SpaceGap);
  }

  lemma TwoRanked(a: Candidate, b: Candidate)
    requires Before(a, b)
    ensures Rank([a, b]) == [a, b]
  {
    var both, last: seq<Candidate> := [a, b], [b];
    assert both[1..] == last && last[1..] == [];
    assert Sorting.Sort(Before, last) == last;
  }

  lemma TwoMakeASet(other: SpacedCandidate)
    requires Other(other) && ValidSpacing(DENSE)
    ensures ValidSet(CandidateSet(9, 0, 1, SpacingType, [DENSE, other]))
  {
    hide ValidSpacing;
    var both: seq<Candidate> := [DENSE, other];
    assert forall c :: c in both ==> c == DENSE || c == other;
  }

  lemma JobIsPrepared(other: SpacedCandidate, policy: Policy)
    requires Other(other) && ValidPolicy(policy)
    ensures var job := JobOf(other, policy);
            Prepared(job) && job.considered == if policy.maxCandidates == 1 then [DENSE] else [DENSE, other]
  {
    AllAreValid();
    hide Rank, ValidSpacing, ValidSet, Other;
    ScoresTie(other);
    TwoRanked(DENSE, other);
    TwoMakeASet(other);
    PrepareIsPrepared(Permissive(), JobOf(other, policy).set_, policy, Some((1, 1)), 0, None);
    var both: seq<Candidate> := [DENSE, other];
    assert both[..1] == [DENSE];
  }

  lemma ScoresTie(other: SpacedCandidate)
    requires Other(other)
    ensures Before(DENSE, other)
  {
  }

  /** What the examples need to know of a job. */
  ghost predicate DenseJob(job: Job, policy: Policy) {
    && job.lexicon == Permissive() && job.online && job.policy == policy
    && job.set_.decision == SpacingType && job.set_.region == 1 && job.set_.candidates != []
    && job.considered != [] && ById(job.considered, 1) == Some(DENSE) && 1 in job.allowed && 7 !in job.allowed
    && job.allowed == Ids(job.considered)
  }

  lemma JobFields(other: SpacedCandidate, policy: Policy)
    requires Other(other) && ValidPolicy(policy)
    ensures DenseJob(JobOf(other, policy), policy) && JobOf(other, policy).set_.candidates == [DENSE, other]
  {
    JobIsPrepared(other, policy);
    hide Prepared, Rank, Considered, ValidSpacing;
    var considered := JobOf(other, policy).considered;
    assert JobOf(other, policy).allowed == Ids(considered);
    assert DENSE in considered && forall c :: c in considered ==> c == DENSE || c == other;
  }

  lemma NeedsTheModel(other: SpacedCandidate, policy: Policy)
    requires Other(other) && ValidPolicy(policy) && policy.autoScore > 0.5
    ensures Deterministic(JobOf(other, policy)).None?
  {
    JobIsPrepared(other, policy);
    hide Prepared, Rank;
    var considered := JobOf(other, policy).considered;
    var proven := ProvenTables(considered);
    assert forall i :: 0 <= i < |proven| ==> proven[i] in proven;
    assert forall c :: c in considered ==> !Proven(c);
  }

  /** An unsure vote for the dense candidate, a proposed text, and a verdict on candidate 7. */
  function Proposing(text: string): Service {
    (at: nat, schema: Schema) =>
      match schema
      case ChoiceSchema => Answer(Choice(1, 0.5), 0, 0, [], 1)
      case ProposalSchema => Answer(Proposal(text, 0.9), 0, 0, [], 1)
      case VerificationSchema(offered) =>
        if 7 in offered then Answer(Verification(7, 0.9, []), 0, 0, [], 1)
        else Raised(Configuration, LLM_PROVIDER_UNAVAILABLE, 0, 0, 1)
  }

  /** The vote picks the dense candidate, without confidence. */
  lemma VotesDense(job: Job, policy: Policy, text: string)
    requires DenseJob(job, policy)
    ensures var p := VotePhase(job, Primary, [], Proposing(text), 0); p.choice == Some(Vote(1, 0.5)) && p.calls == 1
  {
    assert Proposing(text)(0, ChoiceSchema) == Answer(Choice(1, 0.5), 0, 0, [], 1);
  }

  // ---------- a proposal that keeps every character and still cannot be built ----------

  lemma DoubledIsNotNormal()
    ensures Normal("a  b") != "a  b"
  {
    Squeezed();
    GapCount("a  b");
    var gaps := Gaps("a  b");
    hide Gaps;
    assert gaps == [gaps[0]];
    RenderedPair(gaps[0]);
    assert |Normal("a  b")| <= 3;
  }

  lemma DoubledIsUnbuildable()
    ensures Unbuildable(Permissive(), DENSE, "a  b")
  {
    Squeezed();
    DoubledIsNotNormal();
    hide Normal, Squeeze;
  }

  lemma HasFallback(job: Job, policy: Policy)
    requires DenseJob(job, policy) && DENSE in job.set_.candidates
    ensures SafeSpacing(job).Safe?
  {
    assert DENSE in SpacingOnly(job.set_.candidates);
    assert DENSE in DefectFree(Permissive(), SpacingOnly(job.set_.candidates));
  }

  lemma UnbuildableAborts(job: Job, policy: Policy, text: string)
    requires Prepared(job) && DenseJob(job, policy) && Deterministic(job).None? && policy.minConfidence > 0.5
    requires Unbuildable(Permissive(), DENSE, text)
    ensures Decide(job, [], Proposing(text), 0).Aborted?
  {
    VotesDense(job, policy, text);
    hide Prepared, Deterministic, VotePhase, Unbuildable, ById, Decide, GenerationScope;
    AbortsIff(job, [], Proposing(text), 0);
  }

  /** The documentation promises that processing goes on with a safe fallback when the model
      fails. A proposal with a doubled space keeps every character and is no provider failure,
      yet `decide` raises on it, although the set has a defect-free fallback. */
  lemma DoubledSpaceAborts()
    ensures Decide(JobOf(SPACED, DEFAULT_POLICY), [], Proposing("a  b"), 0).Aborted?
    ensures SafeSpacing(JobOf(SPACED, DEFAULT_POLICY)).Safe?
  {
    AllAreValid();
    hide Prepared, Deterministic, Unbuildable, SafeSpacing, Decide, JobOf, ValidSpacing, DenseJob, Proposing;
    JobIsPrepared(SPACED, DEFAULT_POLICY);
    NeedsTheModel(SPACED, DEFAULT_POLICY);
    JobFields(SPACED, DEFAULT_POLICY);
    DoubledIsUnbuildable();
    HasFallback(JobOf(SPACED, DEFAULT_POLICY), DEFAULT_POLICY);
    UnbuildableAborts(JobOf(SPACED, DEFAULT_POLICY), DEFAULT_POLICY, "a  b");
  }

  // ---------- a trusted record that breaks the search ----------

  /** A trusted vote for the dense candidate and a generation attempt, bound to nothing. */
  function Breaking(job: Job): Record {
    var vote := Attempt(1, Primary, AttemptKey(job.request, Primary, job.VotePrompt(Primary, []), 1), Some(1), 0.5, LowConfidence, [], 0, 0);
    var generation := Attempt(2, Generation, vote.request, None, 0.0, ProviderRejected, [], 0, 0);
    BlankRecord(job).(selected := Some(1), outcome := Selected, attempts := [vote, generation])
  }

  lemma BreakingVotes(job: Job)
    ensures ConsumeVotes(job, Breaking(job).attempts, VOTE_PHASES, []) == Some(Breaking(job).attempts[..1])
    ensures Numbered(Breaking(job).attempts) && LastPrimaryVote(Breaking(job).attempts[..1]) == Some(1)
  {
    var attempts := Breaking(job).attempts;
    var votes, tail := attempts[..1], attempts[1..];
    assert votes == [attempts[0]] && votes[1..] == [] && tail == [attempts[1]];
    assert AuditProofs.Blocks(votes, [], [], tail);
    hide ConsumeVotes;
    AuditProofs.BlocksConsumed(job, votes, [], [], tail);
    assert votes + [] + [] + tail == attempts && votes + [] + [] == votes;
  }

  lemma BreakingRaises(job: Job, policy: Policy)
    requires Prepared(job) && DenseJob(job, policy) && !AllAlike(job.considered)
    ensures TrustedMatches(job, Breaking(job)) == Raises
  {
    BreakingVotes(job);
    RaisesIff(job, Breaking(job));
    var attempts := Breaking(job).attempts;
    assert attempts[1..] == [attempts[1]];
    hide Prepared, ConsumeVotes, ById, TrustedMatches, LastPrimaryVote, Numbered, AllAlike;
  }

  lemma BreaksDecide(job: Job, serve: Service)
    requires Prepared(job) && Deterministic(job).None? && TrustedMatches(job, Breaking(job)) == Raises
    ensures Decide(job, [Breaking(job)], serve, 0) == Aborted(0)
  {
    hide Prepared, Deterministic, TrustedMatches;
    assert Materialize(job.lexicon, job.set_, Breaking(job)) == Some(Breaking(job));
  }

  /** Two considered spacings with different mutable boundaries: a trusted record with the current
      request makes `decide` raise before any provider call, whatever its outcome and its seal say. */
  lemma TrustedRecordAborts(serve: Service)
    ensures var job := JobOf(LOOSE, DEFAULT_POLICY); Decide(job, [Breaking(job)], serve, 0) == Aborted(0)
  {
    AllAreValid();
    hide Prepared, Deterministic, TrustedMatches, Decide, JobOf, ValidSpacing, DenseJob, Breaking;
    var job := JobOf(LOOSE, DEFAULT_POLICY);
    JobIsPrepared(LOOSE, DEFAULT_POLICY);
    NeedsTheModel(LOOSE, DEFAULT_POLICY);
    JobFields(LOOSE, DEFAULT_POLICY);
    assert DENSE in job.considered && LOOSE in job.considered && !Alike(DENSE, LOOSE);
    BreakingRaises(job, DEFAULT_POLICY);
    BreaksDecide(job, serve);
  }

  // ---------- a generated record ----------

  lemma MakesSpaced()
    ensures MakeSpacing(Permissive().mint, 1, "a b", "ab", [1, 2], [[]], 0.9, map[LLM_GENERATED_SPACING := 0.9], None) == Made(REPAIRED)
  {
    AllAreValid();
    hide ValidSpacing, MakeSpacing;
    assert WhitespaceOf(REPAIRED.boundaries) == [[]];
    MakeSpacingAgain(Permissive().mint, REPAIRED);
  }

  lemma NoSeparators()
    ensures HardBreaks(DENSE.boundaries) == [] && HardBreaks(REPAIRED.boundaries) == [] && !HasControlSeparator("a b")
  {
    assert [Boundary(1, 2, NoGap, [])][1..] == [] && [Boundary(1, 2, SpaceGap, [])][1..] == [];
  }

  lemma BuildsWhen(lexicon: Lexicon, anchor: SpacedCandidate, text: string, confidence: real, c: SpacedCandidate)
    requires Squeeze(text) == anchor.chars && !HasControlSeparator(text) && lexicon.defects(text) == []
    requires !lexicon.splitsIdentifier(text) && !lexicon.splitsProtected(text, anchor.text)
    requires MakeSpacing(lexicon.mint, anchor.region, text, anchor.chars, anchor.atoms, WhitespaceOf(anchor.boundaries),
                         confidence, map[LLM_GENERATED_SPACING := confidence], anchor.mutable) == Made(c)
    requires SameHardBreaks(c.boundaries, anchor.boundaries) && anchor.mutable.None?
    ensures BuildGenerated(lexicon, anchor, text, confidence) == Made(c)
  {
    hide MakeSpacing, Squeeze, HasControlSeparator, SameHardBreaks, WhitespaceOf;
  }

  lemma BuildsSpaced()
    ensures BuildGenerated(Permissive(), DENSE, "a b", 0.9) == Made(REPAIRED)
  {
    MakesSpaced();
    Squeezed();
    NoSeparators();
    hide MakeSpacing, Squeeze, HardBreaks, HasControlSeparator, BuildGenerated;
    assert WhitespaceOf(DENSE.boundaries) == [[]];
    BuildsWhen(Permissive(), DENSE, "a b", 0.9, REPAIRED);
  }

  predicate InScope(job: Job) {
    GenerationScope(job.set_, job.considered, DENSE) && VerificationScope(job.set_, job.considered, REPAIRED)
  }

  lemma RepairsSpaced(job: Job, policy: Policy, primary: seq<Attempt>)
    requires Prepared(job) && DenseJob(job, policy) && InScope(job)
    ensures var g := GenerationAttempt(job, DENSE, |primary| + 1, Answer(Proposal("a b", 0.9), 0, 0, [], 1));
            Repair(job, DENSE, primary, Proposing("a b"), 1) ==
              After(1, Verify(job, REPAIRED, 0.9, primary + [g], Proposing("a b"), 2)) && g.confidence == 0.9
  {
    BuildsSpaced();
    hide Prepared, Repair, BuildGenerated, Verify, GenerationScope, VerificationScope, ById;
    assert Proposing("a b")(1, ProposalSchema) == Answer(Proposal("a b", 0.9), 0, 0, [], 1);
    RepairUnfolds(job, DENSE, primary, Proposing("a b"), 1);
  }

  lemma VerifiesSpaced(job: Job, policy: Policy, before: seq<Attempt>)
    requires Prepared(job) && DenseJob(job, policy) && InScope(job) && policy.minConfidence <= 0.9
    ensures var v := Verify(job, REPAIRED, 0.9, before, Proposing("a b"), 2);
            v.Decided? && v.record.outcome == Selected && v.record.recovery == GeneratedRepair
            && v.record.generated == Some(Full(REPAIRED))
  {
    hide Prepared, Verify, GenerationScope, VerificationScope, DeferredRecord, DecisionIdOf, ById;
    assert Proposing("a b")(2, VerificationSchema(Ids(job.considered) + {7})) == Answer(Verification(7, 0.9, []), 0, 0, [], 1);
    VerifyUnfolds(job, REPAIRED, 0.9, before, Proposing("a b"), 2);
  }

  lemma ConsultRepairs(job: Job, serve: Service, anchor: SpacedCandidate, vote: Vote)
    requires job.set_.candidates != [] && ById(job.considered, vote.candidate) == Some(anchor)
    requires VotePhase(job, Primary, [], serve, 0).choice == Some(vote) && vote.confidence < job.policy.minConfidence
    ensures var p := VotePhase(job, Primary, [], serve, 0);
            Consult(job, serve, 0) == After(p.calls, Repair(job, anchor, p.attempts, serve, p.calls))
  {
    hide VotePhase, Repair, ById, Recover;
  }

  /** The machine makes a generated record when the provider respaces the dense text. */
  lemma ConsultGenerates(job: Job, policy: Policy)
    requires Prepared(job) && DenseJob(job, policy) && InScope(job) && 0.5 < policy.minConfidence <= 0.9
    ensures var v := Consult(job, Proposing("a b"), 0);
            && v.Decided? && v.record.outcome == Selected && v.record.recovery == GeneratedRepair
            && v.record.generated == Some(Full(REPAIRED))
  {
    hide Prepared, Consult, VotePhase, Repair, Verify, GenerationAttempt, ById, InScope, DenseJob, Proposing;
    VotesDense(job, policy, "a b");
    DenseFields(job, policy);
    ConsultRepairs(job, Proposing("a b"), DENSE, Vote(1, 0.5));
    var p := VotePhase(job, Primary, [], Proposing("a b"), 0);
    var g := GenerationAttempt(job, DENSE, |p.attempts| + 1, Answer(Proposal("a b", 0.9), 0, 0, [], 1));
    RepairsSpaced(job, policy, p.attempts);
    VerifiesSpaced(job, policy, p.attempts + [g]);
  }

  lemma DenseFields(job: Job, policy: Policy)
    requires DenseJob(job, policy)
    ensures job.set_.candidates != [] && ById(job.considered, 1) == Some(DENSE) && job.policy == policy
    ensures 1 in job.allowed && 7 !in job.allowed && job.online && job.considered != []
  {
  }

  /** What trusting such a record comes to. */
  lemma GeneratedExpected(job: Job, d: Record, calls: nat)
    requires Settled(job, d, calls) && d.outcome == Selected && d.recovery == GeneratedRepair && d.generated == Some(Full(REPAIRED))
    ensures TrustedMatches(job, d) == if SharedBySet(job.set_, REPAIRED) || 7 in job.allowed then Match else Mismatch
  {
    hide TrustedMatches, OutcomeAudit, BoundedRecord, SharedBySet;
  }

  lemma PairInScope(other: SpacedCandidate, policy: Policy)
    requires Other(other) && ValidPolicy(policy) && (policy.maxCandidates == 1 || Alike(other, DENSE))
    ensures InScope(JobOf(other, policy))
  {
    JobIsPrepared(other, policy);
    hide Prepared, ValidSpacing;
    var considered := JobOf(other, policy).considered;
    assert DENSE in considered && forall c :: c in considered ==> c == DENSE || (c == other && Alike(other, DENSE));
  }

  /** The generated record of a cold decision, and what trusting it comes to. */
  lemma ColdGenerated(job: Job, policy: Policy)
    requires Prepared(job) && DenseJob(job, policy) && InScope(job) && 0.5 < policy.minConfidence <= 0.9
    ensures var v := Consult(job, Proposing("a b"), 0);
            && v.Decided? && v.record.outcome == Selected && v.record.recovery == GeneratedRepair
            && v.record.origin == FromGenerated && v.record.generated == Some(Full(REPAIRED))
            && TrustedMatches(job, v.record) == if SharedBySet(job.set_, REPAIRED) then Match else Mismatch
  {
    DenseFields(job, policy);
    ConsultGenerates(job, policy);
    ConsultSettled(job, Proposing("a b"), 0);
    hide Prepared, Consult, TrustedMatches, Settled, InScope, SharedBySet, DenseJob, Proposing;
    var v := Consult(job, Proposing("a b"), 0);
    GeneratedExpected(job, v.record, v.calls);
    GeneratedOrigin(job, v.record, v.calls);
  }

  /** A generated record that is accepted exists. */
  lemma GeneratedRecordExists()
    ensures var job := JobOf(SPACED, DEFAULT_POLICY);
            var v := Consult(job, Proposing("a b"), 0);
            && v.Decided? && v.record.recovery == GeneratedRepair && v.record.generated == Some(Full(REPAIRED))
            && TrustedMatches(job, v.record) == Match && 1 in job.allowed
  {
    AllAreValid();
    hide JobOf, Prepared, Consult, TrustedMatches, InScope, ValidSpacing, DenseJob, Proposing;
    var job := JobOf(SPACED, DEFAULT_POLICY);
    JobIsPrepared(SPACED, DEFAULT_POLICY);
    JobFields(SPACED, DEFAULT_POLICY);
    DenseFields(job, DEFAULT_POLICY);
    PairInScope(SPACED, DEFAULT_POLICY);
    assert SharedBySet(job.set_, REPAIRED);
    ColdGenerated(job, DEFAULT_POLICY);
  }

  /** Without trusted records and without a deterministic branch, an online job consults the model. */
  lemma DecideConsults(job: Job, serve: Service)
    requires Prepared(job) && Deterministic(job).None? && job.online
    ensures Decide(job, [], serve, 0) == Consult(job, serve, 0)
  {
    hide Deterministic, Consult;
  }

  /** Under a policy that cuts the loose candidate off, the machine makes the same record from the dense
      one - and it is refused when trusted, because the whole set does not share its boundaries. */
  lemma CutRecordIsRefused()
    ensures var job := JobOf(LOOSE, CUTTING_POLICY);
            var v := Decide(job, [], Proposing("a b"), 0);
            && v.Decided? && v.record.outcome == Selected && v.record.origin == FromGenerated
            && TrustedMatches(job, v.record) == Mismatch
  {
    AllAreValid();
    hide JobOf, Prepared, Deterministic, Consult, Decide, TrustedMatches, InScope, ValidSpacing, DenseJob, Proposing;
    var job := JobOf(LOOSE, CUTTING_POLICY);
    JobIsPrepared(LOOSE, CUTTING_POLICY);
    JobFields(LOOSE, CUTTING_POLICY);
    DenseFields(job, CUTTING_POLICY);
    NeedsTheModel(LOOSE, CUTTING_POLICY);
    PairInScope(LOOSE, CUTTING_POLICY);
    assert LOOSE in job.set_.candidates && !Alike(LOOSE, REPAIRED);
    assert !SharedBySet(job.set_, REPAIRED);
    ColdGenerated(job, CUTTING_POLICY);
    DecideConsults(job, Proposing("a b"));
  }

  lemma GeneratedOrigin(job: Job, d: Record, calls: nat)
    requires Settled(job, d, calls) && d.outcome == Selected && d.recovery == GeneratedRepair
    ensures d.origin == FromGenerated
  {
    hide TrustedMatches, BoundedRecord;
  }

  // ---------- a trusted record that selects past its generated candidate ----------

  /** The record with another selection, sealed again. */
  function Reselected(lexicon: Lexicon, d: Record, id: CandidateId): Record {
    var changed := d.(selected := Some(id));
    changed.(id := DecisionIdOf(lexicon, changed))
  }

  /** The audit of a generated record never compares the selection with the generated candidate
      when the selected ID is an allowed one: whatever generated record it accepts, it accepts
      with every considered candidate selected instead - and nothing backs that selection. */
  lemma AuditIgnoresTheSelection(job: Job, d: Record, other: CandidateId)
    requires TrustedMatches(job, d) == Match && d.recovery == GeneratedRepair && other in job.allowed
    ensures TrustedMatches(job, Reselected(job.lexicon, d, other)) == Match
    ensures d.generated.Some? && d.generated.value.Full?
    ensures other != d.generated.value.candidate.id ==> !Backed(job, Cached(job.lexicon, Reselected(job.lexicon, d, other)))
  {
    var changed := Reselected(job.lexicon, d, other);
    DecisionTheorems.MatchMeans(job, d);
    DecisionTheorems.HashesDependOn(job, changed, d);
    assert GeneratedAudit(job, d);
    assert OutcomeAudit(job, changed);
    hide HashesMatch, OutcomeAudit, GeneratedAudit, Backed;
    assert TrustedMatches(job, changed) == Match;
    DecisionTheorems.TrustedIsBacked(job, changed);
  }
}
