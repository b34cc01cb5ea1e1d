/** `CandidateAdjudicator`: the machine that decides a candidate set - deterministic accept,
    trusted cache, votes with recovery and tiebreak, or spacing generation and verification -
    over an arbitrary provider. The auditor of trusted records is in module Audit. */
module Adjudication {
  import opened Common
  import opened Names
  import opened Spacing
  import opened Candidates
  import opened LlmService
  import opened Decisions
  import opened Ranking
  import Audit

  /** How `decide` ends. Raising stands for an exception that leaves the method. */
  datatype Verdict = Decided(record: Record, calls: nat) | Aborted(calls: nat)

  // ---------- records ----------

  function BlankRecord(job: Job): Record {
    Record(0, job.request, job.set_.source, job.request.evidence, job.set_.id, job.set_.region, job.set_.decision,
           None, ReviewRequired, FromModel, 0.0, job.request.provider, job.request.model, [], 0, 0, NotNeeded, [],
           NoConsensus, None, 0, None)
  }

  function DeterministicRecord(job: Job, selected: CandidateId, confidence: real): Record {
    Seal(job.lexicon, BlankRecord(job).(selected := Some(selected), outcome := Selected, origin := FromDeterministic,
                                  confidence := confidence))
  }

  datatype Fallback = Safe(candidate: Candidate) | Unsafe(code: Code)

  /** `fallback_spacing_candidate`: the defect-free candidate preferred by source spacing, then
      score, then ID. */
  function SafeSpacing(job: Job): Fallback {
    var spacing := SpacingOnly(job.set_.candidates);
    var safe := DefectFree(job.lexicon, spacing);
    if job.set_.decision != SpacingType || spacing == [] then Unsafe(SPACING_REPAIR_FALLBACK_UNAVAILABLE)
    else if safe == [] then Unsafe(SPACING_REPAIR_SAFE_FALLBACK_UNAVAILABLE)
    else Safe(Preferred(safe))
  }

  function FallbackOf(job: Job): Fallback
    requires job.set_.candidates != []
  {
    if job.set_.decision == SpacingType then SafeSpacing(job) else Safe(Top(job.set_.candidates))
  }

  function DeferredCode(job: Job): Code {
    if job.set_.decision == SpacingType then LLM_SPACING_REPAIR_DEFERRED else LLM_CANDIDATE_SELECTION_DEFERRED
  }

  function UnsafeOrigin(job: Job, attempts: seq<Attempt>): Source {
    if job.request.provider == NO_PROVIDER then FromUnavailable
    else if attempts != [] && attempts[|attempts| - 1].status == ProviderRejected then FromProvider
    else FromModel
  }

  function DeferredDraft(job: Job, attempts: seq<Attempt>, codes: seq<Code>): Record
    requires job.set_.candidates != []
  {
    match FallbackOf(job)
    case Unsafe(code) =>
      BlankRecord(job).(outcome := ReviewRequired, origin := UnsafeOrigin(job, attempts), codes := Dedupe(codes + [code]),
                        recovery := NeedsReview, attempts := attempts)
    case Safe(c) =>
      BlankRecord(job).(selected := Some(c.id), outcome := DeferredReview, origin := FromFallback, confidence := c.score,
                        codes := Dedupe(codes + [DeferredCode(job)]), recovery := Deferred, attempts := attempts)
  }

  /** `_deferred_candidate_record`. */
  function DeferredRecord(job: Job, attempts: seq<Attempt>, codes: seq<Code>): Record
    requires job.set_.candidates != []
  {
    Seal(job.lexicon, DeferredDraft(job, attempts, codes))
  }

  // ---------- votes ----------

  datatype Vote = Vote(candidate: CandidateId, confidence: real)

  /** `_VotePhaseResult`; `calls` counts the provider calls of the phase. Its own retry and
      repair counts are always overwritten by the sums over the attempts and are left out. */
  datatype VoteResult = VoteResult(choice: Option<Vote>, attempts: seq<Attempt>, codes: seq<Code>, calls: nat)

  function VoteAttempt(job: Job, phase: Phase, messages: Messages, index: nat, served: Served): Attempt
    requires served.Answer? ==> served.payload.Choice?
  {
    var key := AttemptKey(job.request, phase, messages, index);
    match served
    case Raised(_, code, retries, repairs, _) =>
      Attempt(index, phase, key, None, 0.0, ProviderRejected, [code], retries, repairs)
    case Answer(vote, retries, repairs, _, _) =>
      if vote.candidate !in job.allowed then
        Attempt(index, phase, key, None, vote.confidence, CandidateUnknown, [LLM_CANDIDATE_UNKNOWN], retries, repairs)
      else if vote.confidence < job.policy.minConfidence then
        Attempt(index, phase, key, Some(vote.candidate), vote.confidence, LowConfidence, [LLM_CONFIDENCE_TOO_LOW], retries, repairs)
      else
        Attempt(index, phase, key, Some(vote.candidate), vote.confidence, Accepted, [], retries, repairs)
  }

  /** The answer names no considered candidate. */
  predicate NamesUnknown(job: Job, served: Served) {
    served.Answer? && served.payload.Choice? && served.payload.candidate !in job.allowed
  }

  function ChoiceOf(job: Job, served: Served): Option<Vote> {
    if served.Answer? && served.payload.Choice? && served.payload.candidate in job.allowed
    then Some(Vote(served.payload.candidate, served.payload.confidence)) else None
  }

  /** What `_run_vote_phase` comes to: one attempt, and a corrected second one when the first
      names an unknown candidate and the policy grants it. */
  function VotePhase(job: Job, phase: Phase, prior: seq<Attempt>, serve: Service, at: nat): VoteResult {
    var original := job.VotePrompt(phase, prior);
    var first := serve(at, ChoiceSchema);
    var one := VoteAttempt(job, phase, original, |prior| + 1, first);
    if !NamesUnknown(job, first) || job.policy.maxSchemaAttempts <= 1 then
      VoteResult(ChoiceOf(job, first), [one], one.codes, first.calls)
    else
      var second := serve(at + first.calls, ChoiceSchema);
      var two := VoteAttempt(job, phase, Corrective(original, LLM_CANDIDATE_UNKNOWN), |prior| + 2, second);
      VoteResult(ChoiceOf(job, second), [one, two],
                 if NamesUnknown(job, second) then [LLM_CANDIDATE_UNKNOWN, LLM_CANDIDATE_UNKNOWN] else two.codes,
                 first.calls + second.calls)
  }

  // ---------- spacing repair ----------

  /** How `build_generated_candidate` followed by the defect check ends; an error without a
      code makes the attempt that should report it unbuildable. */
  function BuildGenerated(lexicon: Lexicon, anchor: SpacedCandidate, text: string, confidence: real): Construction {
    if Squeeze(text) != anchor.chars then Rejected(SPACING_REPAIR_CHARACTER_MISMATCH)
    else if HasControlSeparator(text) then Rejected(SPACING_REPAIR_CONTROL_SEPARATOR)
    else if lexicon.splitsIdentifier(text) then Rejected(SPACING_REPAIR_IDENTIFIER_SPLIT)
    else if lexicon.splitsProtected(text, anchor.text) then Rejected(SPACING_REPAIR_PROTECTED_TOKEN_SPLIT)
    else
      var made := MakeSpacing(
        lexicon.mint, anchor.region, text, anchor.chars, anchor.atoms, WhitespaceOf(anchor.boundaries),
        confidence, map[LLM_GENERATED_SPACING := confidence], anchor.mutable);
      if !made.Made? then made
      else if !SameHardBreaks(made.candidate.boundaries, anchor.boundaries) then
        Rejected(SPACING_REPAIR_HARD_LINE_BOUNDARY_MISMATCH)
      else if !KeepsImmutable(made.candidate.boundaries, anchor.boundaries, anchor.mutable) then
        Rejected(SPACING_REPAIR_IMMUTABLE_BOUNDARY_MISMATCH)
      else if lexicon.defects(text) != [] then Rejected(lexicon.defects(text)[0])
      else made
  }

  predicate HasControlSeparator(text: string) {
    exists c :: c in text && IsSpace(c) && c != ' ' && c != '\n'
  }

  function HardBreaks(boundaries: seq<Boundary>): seq<(AtomId, AtomId)> {
    if boundaries == [] then []
    else (if boundaries[0].gap == HardBreak then [(boundaries[0].left, boundaries[0].right)] else []) + HardBreaks(boundaries[1..])
  }

  predicate SameHardBreaks(a: seq<Boundary>, b: seq<Boundary>) {
    HardBreaks(a) == HardBreaks(b)
  }

  predicate KeepsImmutable(generated: seq<Boundary>, anchor: seq<Boundary>, mutable: Option<seq<int>>) {
    forall i :: 0 <= i < |anchor| && i < |generated| && mutable.Some? && i !in mutable.value ==>
                  generated[i].gap == anchor[i].gap
  }

  function VerificationCodes(lowConfidence: bool, namesGenerated: bool, answered: seq<Code>): seq<Code> {
    var defects := WithoutValid(answered);
    var low := if lowConfidence && LLM_CONFIDENCE_TOO_LOW !in defects then defects + [LLM_CONFIDENCE_TOO_LOW] else defects;
    if !namesGenerated && |low| < 4 then low + [LLM_GENERATED_CANDIDATE_REJECTED] else low
  }

  function WithoutValid(codes: seq<Code>): (r: seq<Code>)
    ensures |r| <= |codes|
  {
    if codes == [] then [] else (if codes[0] == VALID then [] else [codes[0]]) + WithoutValid(codes[1..])
  }

  function GeneratedDraft(job: Job, generated: SpacedCandidate, proposed: real, verified: real, attempts: seq<Attempt>): Record {
    BlankRecord(job).(
      selected := Some(generated.id), outcome := Selected, origin := FromGenerated,
      confidence := if verified < proposed then verified else proposed,
      codes := [LLM_SPACING_REPAIR_APPLIED], recovery := GeneratedRepair, attempts := attempts,
      generated := Some(Full(generated)))
  }

  function GeneratedRecord(job: Job, generated: SpacedCandidate, proposed: real, verified: real, attempts: seq<Attempt>): Record {
    Seal(job.lexicon, GeneratedDraft(job, generated, proposed, verified, attempts))
  }

  /** What the verification half of `_run_spacing_repair` makes of the answer it gets. */
  function Judge(job: Job, generated: SpacedCandidate, proposed: real, before: seq<Attempt>, served: Served): Verdict
    requires job.set_.candidates != [] && (served.Answer? ==> served.payload.Verification?)
  {
    var index := |before| + 1;
    var key := AttemptKey(job.request, VerificationPhase, VerificationMessages(job.set_, SpacingOnly(job.considered), generated), index);
    match served
    case Raised(_, code, retries, repairs, calls) =>
      var attempt := Attempt(index, VerificationPhase, key, None, 0.0, ProviderRejected, [code], retries, repairs);
      Decided(DeferredRecord(job, before + [attempt], [code]), calls)
    case Answer(answer, retries, repairs, _, calls) =>
      var low := answer.confidence < job.policy.minConfidence;
      var named := answer.candidate == generated.id;
      var codes := VerificationCodes(low, named, answer.codes);
      var accepted := proposed >= job.policy.minConfidence && !low && named && codes == [];
      var status := if accepted then Accepted else if low then LowConfidence else ValidationRejected;
      var attempt := Attempt(index, VerificationPhase, key, Some(answer.candidate), answer.confidence, status, codes, retries, repairs);
      if |codes| > 4 then Aborted(calls)
      else if !accepted then Decided(DeferredRecord(job, before + [attempt], []), calls)
      else Decided(GeneratedRecord(job, generated, proposed, answer.confidence, before + [attempt]), calls)
  }

  /** The candidates a verification answer may name. */
  function Offered(job: Job, generated: SpacedCandidate): set<CandidateId> {
    Ids(SpacingOnly(job.considered)) + {generated.id}
  }

  /** The verification half of `_run_spacing_repair`. */
  function Verify(job: Job, generated: SpacedCandidate, proposed: real, before: seq<Attempt>, serve: Service, at: nat): Verdict
    requires job.set_.candidates != []
  {
    if !Audit.VerificationScope(job.set_, SpacingOnly(job.considered), generated) then Aborted(0)
    else Judge(job, generated, proposed, before, serve(at, VerificationSchema(Offered(job, generated))))
  }

  /** How the generation half ends: with a verdict, or with a candidate to verify. */
  datatype Built = Ended(verdict: Verdict) | ToVerify(candidate: SpacedCandidate, confidence: real, attempts: seq<Attempt>, calls: nat)

  /** What the generation half of `_run_spacing_repair` makes of the proposal it gets. */
  function Build(job: Job, anchor: SpacedCandidate, primary: seq<Attempt>, served: Served): Built
    requires job.set_.candidates != [] && (served.Answer? ==> served.payload.Proposal?)
  {
    var index := |primary| + 1;
    var key := AttemptKey(job.request, Generation, GenerationMessages(job.set_, SpacingOnly(job.considered), anchor), index);
    match served
    case Raised(_, code, retries, repairs, calls) =>
      var attempt := Attempt(index, Generation, key, None, 0.0, ProviderRejected, [code], retries, repairs);
      Ended(Decided(DeferredRecord(job, primary + [attempt], [code]), calls))
    case Answer(proposal, retries, repairs, _, calls) =>
      match BuildGenerated(job.lexicon, anchor, proposal.text, proposal.confidence)
      case Malformed => Ended(Aborted(calls))
      case Rejected(code) =>
        var attempt := Attempt(index, Generation, key, None, proposal.confidence, ValidationRejected, [code], retries, repairs);
        Ended(Decided(DeferredRecord(job, primary + [attempt], []), calls))
      case Made(generated) =>
        var low := proposal.confidence < job.policy.minConfidence;
        var attempt := Attempt(
          index, Generation, key, Some(generated.id), proposal.confidence,
          if low then LowConfidence else Accepted, if low then [LLM_CONFIDENCE_TOO_LOW] else [], retries, repairs);
        ToVerify(generated, proposal.confidence, primary + [attempt], calls)
  }

  /** `_run_spacing_repair`. */
  function Repair(job: Job, anchor: SpacedCandidate, primary: seq<Attempt>, serve: Service, at: nat): Verdict
    requires job.set_.candidates != []
  {
    if !Audit.GenerationScope(job.set_, SpacingOnly(job.considered), anchor) then Aborted(0)
    else
      match Build(job, anchor, primary, serve(at, ProposalSchema))
      case Ended(verdict) => verdict
      case ToVerify(generated, confidence, attempts, calls) =>
        After(calls, Verify(job, generated, confidence, attempts, serve, at + calls))
  }

  /** The verdict with earlier provider calls added. */
  function After(calls: nat, v: Verdict): Verdict {
    match v
    case Decided(r, later) => Decided(r, calls + later)
    case Aborted(later) => Aborted(calls + later)
  }

  // ---------- the decision ----------

  /** The first branches of `decide`: a proven table, or a clear best candidate. */
  function Deterministic(job: Job): Option<Record>
    requires job.considered != []
  {
    var proven := ProvenTables(job.considered);
    if proven != [] && OneStructure(proven) then
      Some(DeterministicRecord(job, Top(proven).id, 1.0))
    else
      var best := job.considered[0];
      var runnerScore := if |job.considered| > 1 then job.considered[1].score else 0.0;
      var clean := best.SpacingCandidate? ==> job.lexicon.defects(best.text) == [];
      if best.score >= job.policy.autoScore && best.score - runnerScore >= job.policy.autoMargin && clean then
        Some(DeterministicRecord(job, best.id, best.score))
      else None
  }

  function RecoveredRecord(job: Job, winner: Vote, attempts: seq<Attempt>, consensus: Consensus, recoveries: nat): Record {
    Seal(job.lexicon, BlankRecord(job).(
      selected := Some(winner.candidate), outcome := Selected, origin := FromRecovered, confidence := winner.confidence,
      codes := [LLM_LOW_CONFIDENCE_RECOVERED], recovery := Recovered, attempts := attempts, consensus := consensus,
      agreed := Some(winner.candidate), recoveries := recoveries))
  }

  /** The tiebreak vote; primary and recovery votes disagree. */
  function Break(job: Job, first: Vote, second: Vote, attempts: seq<Attempt>, serve: Service, at: nat): Verdict
    requires job.set_.candidates != []
  {
    var third := VotePhase(job, Tiebreak, attempts, serve, at);
    var all := attempts + third.attempts;
    if third.choice.None? then Decided(DeferredRecord(job, all, third.codes), third.calls)
    else
      var (majority, count) := Majority(first.candidate, second.candidate, third.choice.value.candidate);
      if third.choice.value.confidence >= job.policy.minConfidence && count >= 2 && third.choice.value.candidate == majority then
        Decided(RecoveredRecord(job, third.choice.value, all, TwoOfThree, 2), third.calls)
      else
        Decided(DeferredRecord(job, all, [LLM_CONSENSUS_NOT_REACHED]), third.calls)
  }

  /** The recovery vote after a low-confidence primary vote. */
  function Recover(job: Job, first: Vote, primary: seq<Attempt>, serve: Service, at: nat): Verdict
    requires job.set_.candidates != []
  {
    if job.policy.maxRecoveries < 1 then Decided(DeferredRecord(job, primary, [LLM_CONFIDENCE_TOO_LOW]), 0)
    else
      var second := VotePhase(job, Recovery, primary, serve, at);
      var attempts := primary + second.attempts;
      if second.choice.None? then Decided(DeferredRecord(job, attempts, second.codes), second.calls)
      else if second.choice.value.confidence < job.policy.minConfidence then
        Decided(DeferredRecord(job, attempts, [LLM_CONFIDENCE_RECOVERY_EXHAUSTED]), second.calls)
      else if second.choice.value.candidate == first.candidate then
        Decided(RecoveredRecord(job, second.choice.value, attempts, SameCandidate, 1), second.calls)
      else if job.policy.maxRecoveries < 2 then
        Decided(DeferredRecord(job, attempts, [LLM_CONSENSUS_NOT_REACHED]), second.calls)
      else
        After(second.calls, Break(job, first, second.choice.value, attempts, serve, at + second.calls))
  }

  /** The model-driven part of `decide`. */
  function Consult(job: Job, serve: Service, at: nat): Verdict
    requires job.set_.candidates != []
  {
    var primary := VotePhase(job, Primary, [], serve, at);
    if primary.choice.None? then Decided(DeferredRecord(job, primary.attempts, primary.codes), primary.calls)
    else
      var vote := primary.choice.value;
      var confident := vote.confidence >= job.policy.minConfidence;
      var chosen := ById(job.considered, vote.candidate);
      if chosen.Some? && chosen.value.SpacingCandidate? && (!confident || job.lexicon.defects(chosen.value.text) != []) then
        After(primary.calls, Repair(job, chosen.value, primary.attempts, serve, at + primary.calls))
      else if confident then
        Decided(Seal(job.lexicon, BlankRecord(job).(
          selected := Some(vote.candidate), outcome := Selected, origin := FromModel, confidence := vote.confidence,
          attempts := primary.attempts)), primary.calls)
      else
        After(primary.calls, Recover(job, vote, primary.attempts, serve, at + primary.calls))
  }

  /** `decide`: deterministic, then trusted, then the model. */
  function Decide(job: Job, trusted: seq<Record>, serve: Service, at: nat): Verdict
    requires job.set_.candidates != [] && job.considered != []
  {
    var deterministic := Deterministic(job);
    if deterministic.Some? then Decided(deterministic.value, 0)
    else
      match Audit.FindTrusted(job, trusted)
      case Found(r) => Decided(Cached(job.lexicon, r), 0)
      case Broken => Aborted(0)
      case NotFound =>
        if !job.online then Decided(DeferredRecord(job, [], [LLM_PROVIDER_UNAVAILABLE]), 0)
        else Consult(job, serve, at)
  }
}
