/** The auditor of trusted decisions: `_trusted_decision_matches` and what it calls. It is
    written independently of the machine in module Adjudication. */
module Audit {
  import opened Common
  import opened Names
  import opened Candidates
  import opened Decisions
  import opened Ranking

  /** Building the prompts an audit compares against can raise. */
  datatype Finding = Match | Mismatch | Raises

  function Both(first: Finding, second: Finding): Finding {
    if first != Match then first else second
  }

  function Holds(condition: bool): Finding {
    if condition then Match else Mismatch
  }

  // ---------- prompt scopes ----------

  predicate Alike(a: Candidate, b: Candidate) {
    a.SpacingCandidate? && b.SpacingCandidate? && a.chars == b.chars && a.mutable == b.mutable
  }

  /** Candidates with the same characters and mutable boundaries. */
  predicate AllAlike(candidates: seq<Candidate>) {
    forall a, b :: a in candidates && b in candidates ==> Alike(a, b)
  }

  /** `_validate_scope`: otherwise composing the prompt raises. */
  predicate GenerationScope(set_: CandidateSet, spaced: seq<Candidate>, anchor: SpacedCandidate) {
    && set_.decision == SpacingType && anchor.region == set_.region && spaced != []
    && forall c :: c in spaced ==> c.region == set_.region && Alike(c, anchor)
  }

  predicate VerificationScope(set_: CandidateSet, spaced: seq<Candidate>, generated: SpacedCandidate) {
    && spaced != [] && spaced[0].SpacingCandidate? && GenerationScope(set_, spaced, spaced[0])
    && generated.region == set_.region
  }

  // ---------- request hashes ----------

  function OfPhase(attempts: seq<Attempt>, phase: Phase): seq<Attempt> {
    if attempts == [] then [] else (if attempts[0].phase == phase then [attempts[0]] else []) + OfPhase(attempts[1..], phase)
  }

  /** The inner loop over one phase's attempts: each is bound to the prompt, corrected by the
      code of an unknown candidate just before it. */
  function PhaseHashes(job: Job, phase: Phase, base: Messages, attempts: seq<Attempt>, correction: Option<Code>): bool {
    if attempts == [] then true
    else
      var a := attempts[0];
      var messages := if correction.Some? then Corrective(base, correction.value) else base;
      && a.request == AttemptKey(job.request, phase, messages, a.index)
      && PhaseHashes(job, phase, base, attempts[1..],
           if a.status == CandidateUnknown && a.codes != [] then Some(a.codes[|a.codes| - 1]) else None)
  }

  const VOTE_PHASES := [Primary, Recovery, Tiebreak]

  /** The outer loop: the vote phases must be consecutive blocks in this order. Returns the
      attempts consumed, or nothing when a block is out of place or wrongly bound. */
  function ConsumeVotes(job: Job, attempts: seq<Attempt>, phases: seq<Phase>, prior: seq<Attempt>): Option<seq<Attempt>>
    requires |prior| <= |attempts|
    ensures ConsumeVotes(job, attempts, phases, prior).Some? ==> |ConsumeVotes(job, attempts, phases, prior).value| <= |attempts|
    decreases |phases|
  {
    if phases == [] then Some(prior)
    else
      var block := OfPhase(attempts, phases[0]);
      if block == [] then ConsumeVotes(job, attempts, phases[1..], prior)
      else if |prior| + |block| > |attempts| || attempts[|prior|..|prior| + |block|] != block then None
      else if !PhaseHashes(job, phases[0], job.VotePrompt(phases[0], prior), block, None) then None
      else ConsumeVotes(job, attempts, phases[1..], prior + block)
  }

  /** The last primary vote that named a candidate. */
  function LastPrimaryVote(prior: seq<Attempt>): Option<CandidateId> {
    if prior == [] then None
    else
      var a := prior[|prior| - 1];
      if a.phase == Primary && a.candidate.Some? then a.candidate else LastPrimaryVote(prior[..|prior| - 1])
  }

  /** The attempts after the votes: a generation, and possibly its verification. */
  function RepairHashes(job: Job, d: Record, prior: seq<Attempt>, remaining: seq<Attempt>): Finding
    requires remaining != []
  {
    if job.set_.decision != SpacingType || exists c :: c in job.considered && !c.SpacingCandidate? then Mismatch
    else
      var vote := LastPrimaryVote(prior);
      var anchor := if vote.None? then None else ById(job.considered, vote.value);
      if anchor.None? || !anchor.value.SpacingCandidate? || remaining[0].phase != Generation then Mismatch
      else if !GenerationScope(job.set_, job.considered, anchor.value) then Raises
      else if remaining[0].request != AttemptKey(job.request, Generation, GenerationMessages(job.set_, job.considered, anchor.value), remaining[0].index)
      then Mismatch
      else if |remaining| == 1 then Match
      else if d.generated.None? || !d.generated.value.Full? || remaining[1].phase != VerificationPhase || |remaining| != 2 then Mismatch
      else
        var generated := d.generated.value.candidate;
        if !VerificationScope(job.set_, job.considered, generated) then Raises
        else
          Holds(remaining[1].request ==
                AttemptKey(job.request, VerificationPhase, VerificationMessages(job.set_, job.considered, generated), remaining[1].index))
  }

  predicate Numbered(attempts: seq<Attempt>) {
    forall i :: 0 <= i < |attempts| ==> attempts[i].index == i + 1
  }

  /** `_attempt_request_hashes_match`. */
  function HashesMatch(job: Job, d: Record): Finding {
    if d.attempts == [] then Match
    else if !Numbered(d.attempts) then Mismatch
    else
      var votes := ConsumeVotes(job, d.attempts, VOTE_PHASES, []);
      if votes.None? then Mismatch
      else if d.attempts[|votes.value|..] == [] then Match
      else RepairHashes(job, d, votes.value, d.attempts[|votes.value|..])
  }

  // ---------- outcome audits ----------

  predicate CountsAddUp(d: Record) {
    d.retries == RetrySum(d.attempts) && d.repairs == RepairSum(d.attempts)
  }

  predicate AllUnknown(attempts: seq<Attempt>) {
    forall a :: a in attempts ==> a.status == CandidateUnknown
  }

  predicate AllOf(attempts: seq<Attempt>, phase: Phase) {
    forall a :: a in attempts ==> a.phase == phase
  }

  predicate Allows(job: Job, id: Option<CandidateId>) {
    id.Some? && id.value in job.allowed
  }

  /** `_primary_audit_matches`. */
  predicate PrimaryAudit(job: Job, d: Record) {
    && (d.origin == FromModel || d.origin == FromCache) && d.attempts != []
    && AllOf(d.attempts, Primary)
    && var last := d.attempts[|d.attempts| - 1];
       && AllUnknown(d.attempts[..|d.attempts| - 1])
       && last.status == Accepted && Allows(job, last.candidate) && last.candidate == d.selected
       && last.confidence >= job.policy.minConfidence && last.confidence == d.confidence
       && last.codes == [] && d.codes == [] && CountsAddUp(d)
  }

  /** `_generated_audit_matches`. */
  predicate GeneratedAudit(job: Job, d: Record) {
    && d.generated.Some? && d.generated.value.Full? && (d.origin == FromGenerated || d.origin == FromCache)
    && |d.attempts| >= 3
    && var n := |d.attempts|;
       var votes := d.attempts[..n - 2];
       var vote, generation, verification := d.attempts[n - 3], d.attempts[n - 2], d.attempts[n - 1];
       var confident := vote.confidence >= job.policy.minConfidence;
       var id := Some(d.generated.value.candidate.id);
       && AllOf(votes, Primary) && AllUnknown(votes[..n - 3]) && Allows(job, vote.candidate)
       && vote.status == (if confident then Accepted else LowConfidence)
       && vote.codes == (if confident then [] else [LLM_CONFIDENCE_TOO_LOW])
       && generation.phase == Generation && verification.phase == VerificationPhase
       && generation.status == Accepted && verification.status == Accepted
       && generation.candidate == id && verification.candidate == id
       && generation.confidence >= job.policy.minConfidence && verification.confidence >= job.policy.minConfidence
       && generation.codes == [] && verification.codes == []
       && d.confidence == (if verification.confidence < generation.confidence then verification.confidence else generation.confidence)
       && d.codes == [LLM_SPACING_REPAIR_APPLIED] && CountsAddUp(d)
  }

  function Phases(attempts: seq<Attempt>): seq<Phase> {
    if attempts == [] then [] else [attempts[0].phase] + Phases(attempts[1..])
  }

  predicate ValidVote(a: Attempt) {
    a.status == Accepted || a.status == LowConfidence
  }

  /** One phase of the recovery audit: unknown candidates, then exactly one vote, correctly graded. */
  predicate PhaseAudit(job: Job, block: seq<Attempt>) {
    && block != []
    && var vote := block[|block| - 1];
       && ValidVote(vote) && AllUnknown(block[..|block| - 1]) && Allows(job, vote.candidate)
       && vote.status == if vote.confidence >= job.policy.minConfidence then Accepted else LowConfidence
  }

  predicate DistinctRequests(attempts: seq<Attempt>) {
    forall i, j :: 0 <= i < j < |attempts| ==> attempts[i].request != attempts[j].request
  }

  /** `_recovery_audit_matches`. */
  predicate RecoveryAudit(job: Job, d: Record) {
    && Numbered(d.attempts) && DistinctRequests(d.attempts)
    && Dedupe(Phases(d.attempts)) == (if d.consensus == SameCandidate then [Primary, Recovery] else VOTE_PHASES)
    && PhaseAudit(job, OfPhase(d.attempts, Primary)) && PhaseAudit(job, OfPhase(d.attempts, Recovery))
    && var primary := Last(OfPhase(d.attempts, Primary));
       var recovery := Last(OfPhase(d.attempts, Recovery));
       && primary.status == LowConfidence && recovery.status == Accepted
       && (if d.consensus == SameCandidate then
             primary.candidate == recovery.candidate && d.recoveries == 1 && TerminalAudit(d, recovery)
           else
             && PhaseAudit(job, OfPhase(d.attempts, Tiebreak))
             && var tiebreak := Last(OfPhase(d.attempts, Tiebreak));
                && primary.candidate != recovery.candidate && tiebreak.status == Accepted && d.recoveries == 2
                && primary.candidate.Some? && recovery.candidate.Some? && tiebreak.candidate.Some?
                && var (majority, count) := Majority(primary.candidate.value, recovery.candidate.value, tiebreak.candidate.value);
                   && count >= 2 && tiebreak.candidate.value == majority && TerminalAudit(d, tiebreak))
  }

  function Last(s: seq<Attempt>): Attempt
    requires s != []
  {
    s[|s| - 1]
  }

  predicate TerminalAudit(d: Record, terminal: Attempt) {
    terminal.candidate == d.agreed && terminal.confidence == d.confidence
    && d.codes == [LLM_LOW_CONFIDENCE_RECOVERED] && CountsAddUp(d)
  }

  // ---------- the whole audit ----------

  /** The whole set shares the generated candidate's characters and mutable boundaries. */
  predicate SharedBySet(set_: CandidateSet, generated: SpacedCandidate) {
    forall c :: c in set_.candidates ==> Alike(c, generated)
  }

  predicate SelectsCurrent(job: Job, d: Record) {
    || Allows(job, d.selected)
    || (&& d.generated.Some? && d.generated.value.Full?
        && var g := d.generated.value.candidate;
           && d.selected == Some(g.id) && g.region == job.set_.region && job.set_.decision == SpacingType
           && SharedBySet(job.set_, g) && job.lexicon.defects(g.text) == [])
  }

  predicate SameRequest(job: Job, d: Record) {
    && d.request == job.request && d.source == job.set_.source && d.evidence == job.request.evidence
    && d.setId == job.set_.id && d.region == job.set_.region
    && d.provider == job.request.provider && d.model == job.request.model
  }

  predicate OutcomeAudit(job: Job, d: Record) {
    if d.recovery == GeneratedRepair then GeneratedAudit(job, d)
    else if d.recovery != Recovered then d.consensus == NoConsensus && d.recoveries == 0 && PrimaryAudit(job, d)
    else
      && d.consensus != NoConsensus && d.agreed == d.selected && Allows(job, d.agreed) && d.attempts != []
      && RecoveryAudit(job, d)
  }

  /** `_trusted_decision_matches`. */
  function TrustedMatches(job: Job, d: Record): Finding {
    if !(SameRequest(job, d) && d.outcome == Selected && SelectsCurrent(job, d)) then Mismatch
    else Both(HashesMatch(job, d), Holds(OutcomeAudit(job, d) && d.id == DecisionIdOf(job.lexicon, d)))
  }

  datatype Search = Found(record: Record) | NotFound | Broken

  /** The first trusted record that, materialized, passes the audit. */
  function FindTrusted(job: Job, trusted: seq<Record>): Search {
    if trusted == [] then NotFound
    else
      var current := Materialize(job.lexicon, job.set_, trusted[0]);
      if current.None? then FindTrusted(job, trusted[1..])
      else
        match TrustedMatches(job, current.value)
        case Match => Found(current.value)
        case Raises => Broken
        case Mismatch => FindTrusted(job, trusted[1..])
  }
}
