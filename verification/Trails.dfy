/** The trail of a decision: its attempts are the replies of the service, one for one and in order. */
module Trails {
  import opened Common
  import opened Names
  import opened Candidates
  import opened LlmService
  import opened Decisions
  import opened Ranking
  import opened Adjudication
  import opened VoteProofs
  import opened DecisionProofs
  import opened Elections
  import Audit

  /** The code and the status a confidence earns. */
  predicate Graded(job: Job, a: Attempt) {
    if a.confidence >= job.policy.minConfidence then a.status == Accepted && a.codes == []
    else a.status == LowConfidence && a.codes == [LLM_CONFIDENCE_TOO_LOW]
  }

  /** The defects a verification reports, and low confidence unless it is one of them. */
  function Reported(job: Job, confidence: real, codes: seq<Code>): (r: seq<Code>) {
    var defects := WithoutValid(codes);
    if confidence < job.policy.minConfidence && LLM_CONFIDENCE_TOO_LOW !in defects then defects + [LLM_CONFIDENCE_TOO_LOW] else defects
  }

  /** The attempt says what the service replied; `generation` is the attempt before a verification. */
  predicate Reflects(job: Job, a: Attempt, served: Served, generation: Option<Attempt>) {
    && a.retries == served.retries && a.repairs == served.repairs
    && match served
       case Raised(_, code, _, _, _) => a.status == ProviderRejected && a.codes == [code] && a.candidate == None && a.confidence == 0.0
       case Answer(Choice(c, confidence), _, _, _, _) =>
         && a.confidence == confidence
         && if IsConsidered(job, c) then a.candidate == Some(c) && Graded(job, a)
            else a.candidate == None && a.status == CandidateUnknown && a.codes == [LLM_CANDIDATE_UNKNOWN]
       case Answer(Proposal(text, confidence), _, _, _, _) =>
         && a.confidence == confidence
         && if a.candidate.Some? then Graded(job, a) else a.status == ValidationRejected && |a.codes| == 1
       case Answer(Verification(c, confidence, codes), _, _, _, _) =>
         && a.confidence == confidence && a.candidate == Some(c) && generation.Some?
         && var reported := Reported(job, confidence, codes);
            && a.codes == (if generation.value.candidate != Some(c) && |reported| < 4 then reported + [LLM_GENERATED_CANDIDATE_REJECTED] else reported)
            && (a.status == Accepted <==> a.codes == [] && generation.value.candidate == Some(c) && generation.value.status == Accepted)
            && (a.status == LowConfidence <==> confidence < job.policy.minConfidence)
            && (a.status == ValidationRejected <==> a.status != Accepted && a.status != LowConfidence)
       case Answer(Unrecognized, _, _, _, _) => false
  }

  function Before(attempts: seq<Attempt>, k: nat): Option<Attempt>
    requires k <= |attempts|
  {
    if k == 0 then None else Some(attempts[k - 1])
  }

  /** What the attempt asked for: a verification offers the considered candidates and the generated one. */
  function SchemaAt(job: Job, attempts: seq<Attempt>, k: nat): Schema
    requires k < |attempts|
  {
    match attempts[k].phase
    case Generation => ProposalSchema
    case VerificationPhase =>
      VerificationSchema((set o | o in job.considered :: o.id) +
                         if k > 0 && attempts[k - 1].candidate.Some? then {attempts[k - 1].candidate.value} else {})
    case _ => ChoiceSchema
  }

  ghost predicate ReflectsAt(job: Job, serve: Service, at: nat, attempts: seq<Attempt>, k: nat)
    requires k < |attempts|
  {
    Reflects(job, attempts[k], serve(at + CallsOf(attempts[..k]), SchemaAt(job, attempts, k)), Before(attempts, k))
  }

  /** Each attempt reflects the reply made after the calls of those before it. */
  ghost predicate Trailing(job: Job, serve: Service, at: nat, attempts: seq<Attempt>) {
    forall k :: 0 <= k < |attempts| ==> ReflectsAt(job, serve, at, attempts, k)
  }

  lemma NothingTrails(job: Job, serve: Service, at: nat)
    ensures Trailing(job, serve, at, [])
  {
  }

  /** One more attempt. */
  lemma TrailSnoc(job: Job, serve: Service, at: nat, attempts: seq<Attempt>, a: Attempt)
    requires Trailing(job, serve, at, attempts)
    requires Reflects(job, a, serve(at + CallsOf(attempts), SchemaAt(job, attempts + [a], |attempts|)), Before(attempts, |attempts|))
    ensures Trailing(job, serve, at, attempts + [a])
  {
    hide Reflects, CallsOf;
    var all := attempts + [a];
    forall k | 0 <= k < |all| ensures ReflectsAt(job, serve, at, all, k) {
      assert all[..k] == attempts[..k];
      if k == |attempts| { assert attempts[..k] == attempts; } else { assert ReflectsAt(job, serve, at, attempts, k); }
    }
  }

  lemma VoteReflects(job: Job, phase: Phase, messages: Messages, index: nat, served: Served, before: Option<Attempt>)
    requires Prepared(job) && (served.Answer? ==> served.payload.Choice?)
    ensures Reflects(job, VoteAttempt(job, phase, messages, index, served), served, before)
  {
    assert forall id :: IsConsidered(job, id) <==> id in job.allowed;
  }

  lemma VoteTrails(job: Job, phase: Phase, prior: seq<Attempt>, serve: Service, at: nat)
    requires Prepared(job) && Trailing(job, serve, at, prior) && (phase == Primary || phase == Recovery || phase == Tiebreak)
    ensures Trailing(job, serve, at, prior + VotePhase(job, phase, prior, serve, at + CallsOf(prior)).attempts)
  {
    hide CallsOf, Trailing, Reflects, Prepared;
    var original, start := job.VotePrompt(phase, prior), at + CallsOf(prior);
    var first := serve(start, ChoiceSchema);
    var one := VoteAttempt(job, phase, original, |prior| + 1, first);
    VoteReflects(job, phase, original, |prior| + 1, first, Before(prior, |prior|));
    TrailSnoc(job, serve, at, prior, one);
    if NamesUnknown(job, first) && job.policy.maxSchemaAttempts > 1 {
      var second := serve(start + first.calls, ChoiceSchema);
      var two := VoteAttempt(job, phase, Corrective(original, LLM_CANDIDATE_UNKNOWN), |prior| + 2, second);
      CallsConcat(prior, [one]);
      CallsOne(one);
      VoteReflects(job, phase, Corrective(original, LLM_CANDIDATE_UNKNOWN), |prior| + 2, second, Some(one));
      TrailSnoc(job, serve, at, prior + [one], two);
      assert prior + [one] + [two] == prior + [one, two];
    }
  }

  ghost predicate VerdictTrails(job: Job, serve: Service, at: nat, v: Verdict) {
    v.Decided? ==> Trailing(job, serve, at, v.record.attempts)
  }

  lemma RecordedAttempts(job: Job)
    requires Prepared(job)
    ensures job.set_.candidates != []
    ensures forall attempts, codes :: DeferredRecord(job, attempts, codes).attempts == attempts
    ensures forall winner, attempts, consensus, recoveries :: RecoveredRecord(job, winner, attempts, consensus, recoveries).attempts == attempts
    ensures forall generated, proposed, verified, attempts :: GeneratedRecord(job, generated, proposed, verified, attempts).attempts == attempts
  {
    hide FallbackOf, DecisionIdOf, RetrySum, RepairSum;
  }

  lemma BreakTrails(job: Job, first: Vote, second: Vote, attempts: seq<Attempt>, serve: Service, at: nat)
    requires Prepared(job) && Trailing(job, serve, at, attempts)
    ensures job.set_.candidates != []
    ensures VerdictTrails(job, serve, at, Break(job, first, second, attempts, serve, at + CallsOf(attempts)))
  {
    hide VotePhase, CallsOf, Trailing, Prepared, DeferredRecord, RecoveredRecord;
    RecordedAttempts(job);
    VoteTrails(job, Tiebreak, attempts, serve, at);
  }

  lemma RecoverTrails(job: Job, p: VoteResult, serve: Service, at: nat)
    requires Prepared(job) && Opened(job, p) && Trailing(job, serve, at, p.attempts)
    ensures job.set_.candidates != []
    ensures VerdictTrails(job, serve, at, Recover(job, p.choice.value, p.attempts, serve, at + CallsOf(p.attempts)))
  {
    hide VotePhase, CallsOf, Trailing, Prepared, Break, DeferredRecord, RecoveredRecord, Trail, Audit.PhaseHashes, NumberedFrom, RecordsVote;
    RecordedAttempts(job);
    VoteTrails(job, Recovery, p.attempts, serve, at);
    var start := at + CallsOf(p.attempts);
    RecoveryVote(job, p, serve, start);
    var r := VotePhase(job, Recovery, p.attempts, serve, start);
    if r.choice.Some? { BreakTrails(job, p.choice.value, r.choice.value, p.attempts + r.attempts, serve, at); }
  }

  lemma VerificationReflects(job: Job, c: SpacedCandidate, g: Attempt, index: nat, served: Served)
    requires Prepared(job) && (served.Answer? ==> served.payload.Verification?) && g.candidate == Some(c.id) && Graded(job, g)
    ensures Reflects(job, VerificationAttempt(job, c, g.confidence, index, served), served, Some(g))
  {
  }

  lemma VerifyTrails(job: Job, c: SpacedCandidate, before: seq<Attempt>, g: Attempt, serve: Service, at: nat)
    requires Prepared(job) && job.set_.decision == SpacingType && Audit.VerificationScope(job.set_, job.considered, c)
    requires Trailing(job, serve, at, before + [g]) && g.candidate == Some(c.id) && Graded(job, g)
    ensures job.set_.candidates != []
    ensures VerdictTrails(job, serve, at, Verify(job, c, g.confidence, before + [g], serve, at + CallsOf(before + [g])))
  {
    hide CallsOf, Trailing, Prepared, Audit.VerificationScope, Reflects, DeferredRecord, GeneratedRecord, Verify, VerificationAttempt, Graded;
    RecordedAttempts(job);
    var all := before + [g];
    var start := at + CallsOf(all);
    VerifyUnfolds(job, c, g.confidence, all, serve, start);
    var served := serve(start, VerificationSchema(Ids(job.considered) + {c.id}));
    var v := VerificationAttempt(job, c, g.confidence, |all| + 1, served);
    VerificationReflects(job, c, g, |all| + 1, served);
    assert (set o | o in job.considered :: o.id) == Ids(job.considered);
    VerificationAttemptFacts(job, c, g.confidence, |all| + 1, serve, start);
    assert SchemaAt(job, all + [v], |all|) == VerificationSchema(Ids(job.considered) + {c.id});
    TrailSnoc(job, serve, at, all, v);
  }

  lemma GenerationReflects(job: Job, anchor: SpacedCandidate, index: nat, served: Served, before: Option<Attempt>)
    requires (served.Answer? ==> served.payload.Proposal?) && BuiltFrom(job, anchor, served) != Malformed
    ensures var g := GenerationAttempt(job, anchor, index, served);
            && Reflects(job, g, served, before)
            && (BuiltFrom(job, anchor, served).Made? ==> Graded(job, g) && g.candidate == Some(BuiltFrom(job, anchor, served).candidate.id))
  {
    hide BuildGenerated;
  }

  lemma RepairTrails(job: Job, p: VoteResult, anchor: SpacedCandidate, serve: Service, at: nat)
    requires Prepared(job) && Opened(job, p) && Trailing(job, serve, at, p.attempts)
    requires p.choice.Some? && ById(job.considered, p.choice.value.candidate) == Some(anchor)
    ensures job.set_.candidates != []
    ensures VerdictTrails(job, serve, at, Repair(job, anchor, p.attempts, serve, at + CallsOf(p.attempts)))
  {
    hide CallsOf, Trailing, Prepared, Reflects, GenerationAttempt, Verify, Repair, DeferredRecord, BuiltFrom, Audit.GenerationScope,
      Audit.VerificationScope, Opened, ById, Graded, Modest;
    SpacingJob(job, p, anchor);
    RecordedAttempts(job);
    var start := at + CallsOf(p.attempts);
    var served := serve(start, ProposalSchema);
    var g := GenerationAttempt(job, anchor, |p.attempts| + 1, served);
    RepairUnfolds(job, anchor, p.attempts, serve, start);
    if Audit.GenerationScope(job.set_, job.considered, anchor) && BuiltFrom(job, anchor, served) != Malformed {
      GenerationReflects(job, anchor, |p.attempts| + 1, served, Before(p.attempts, |p.attempts|));
      GenerationAttemptFacts(job, anchor, |p.attempts| + 1, serve, start);
      assert SchemaAt(job, p.attempts + [g], |p.attempts|) == ProposalSchema;
      TrailSnoc(job, serve, at, p.attempts, g);
      if BuiltFrom(job, anchor, served).Made? {
        CallsConcat(p.attempts, [g]);
        CallsOne(g);
        InScopeOf(job, anchor, served);
        VerifyTrails(job, BuiltFrom(job, anchor, served).candidate, p.attempts, g, serve, at);
      }
    }
  }

  lemma InScopeOf(job: Job, anchor: SpacedCandidate, served: Served)
    requires Audit.GenerationScope(job.set_, job.considered, anchor) && (served.Answer? ==> served.payload.Proposal?)
    requires BuiltFrom(job, anchor, served).Made?
    ensures Audit.VerificationScope(job.set_, job.considered, BuiltFrom(job, anchor, served).candidate)
  {
    hide BuildGenerated, ValidSpacing;
    BuiltFacts(job.lexicon, anchor, served.payload.text, served.payload.confidence);
  }

  /** However the model-driven part of a decision ends, the attempts of its record are the replies it got. */
  lemma ConsultTrails(job: Job, serve: Service, at: nat)
    requires Prepared(job)
    ensures job.set_.candidates != []
    ensures VerdictTrails(job, serve, at, Consult(job, serve, at))
  {
    hide CallsOf, Trailing, Prepared, Repair, Recover, VotePhase, ById, Audit.PhaseHashes, NumberedFrom, RecordsVote, Trail, DeferredRecord;
    RecordedAttempts(job);
    NothingTrails(job, serve, at);
    VoteTrails(job, Primary, [], serve, at);
    var p := VotePhase(job, Primary, [], serve, at);
    VotePhaseBlock(job, Primary, [], serve, at);
    PrimaryTrail(job, p);
    NoCalls();
    assert [] + p.attempts == p.attempts;
    if p.choice.Some? {
      var chosen := ById(job.considered, p.choice.value.candidate);
      RecoverTrails(job, p, serve, at);
      if chosen.Some? && chosen.value.SpacingCandidate? { RepairTrails(job, p, chosen.value, serve, at); }
    }
  }

  lemma NoCalls()
    ensures CallsOf([]) == 0
  {
  }
}
