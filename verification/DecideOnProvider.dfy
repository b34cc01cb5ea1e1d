/** `decide` and its parts over a provider that counts its calls: each gives the specified verdict for the
    service over the provider's script, and makes exactly the calls the verdict counts. */
module DecideOnProvider {
  import opened Common
  import opened Names
  import opened Candidates
  import opened LlmService
  import opened Decisions
  import opened Ranking
  import opened Adjudication
  import opened VoteProofs
  import Audit

  /** The verification half of `_run_spacing_repair`. */
  method VerifyGenerated(job: Job, generated: SpacedCandidate, proposed: real, before: seq<Attempt>, provider: Provider)
    returns (verdict: Verdict)
    requires job.set_.candidates != []
    modifies provider
    ensures verdict == Verify(job, generated, proposed, before, ServiceOf(provider.script), old(provider.calls))
    ensures provider.calls == old(provider.calls) + verdict.calls
  {
    hide ServiceOf, Judge, Offered, Audit.VerificationScope;
    if !Audit.VerificationScope(job.set_, SpacingOnly(job.considered), generated) { return Aborted(0); }
    var served := GenerateStructured(provider, VerificationSchema(Offered(job, generated)));
    verdict := Judge(job, generated, proposed, before, served);
    JudgeCounts(job, generated, proposed, before, served);
  }

  lemma JudgeCounts(job: Job, generated: SpacedCandidate, proposed: real, before: seq<Attempt>, served: Served)
    requires job.set_.candidates != [] && (served.Answer? ==> served.payload.Verification?)
    ensures Judge(job, generated, proposed, before, served).calls == served.calls
  {
  }

  lemma BuildCounts(job: Job, anchor: SpacedCandidate, primary: seq<Attempt>, served: Served)
    requires job.set_.candidates != [] && (served.Answer? ==> served.payload.Proposal?)
    ensures var built := Build(job, anchor, primary, served);
            served.calls == if built.Ended? then built.verdict.calls else built.calls
  {
    hide BuildGenerated, DeferredRecord;
  }

  /** `_run_spacing_repair`. */
  method RunSpacingRepair(job: Job, anchor: SpacedCandidate, primary: seq<Attempt>, provider: Provider) returns (verdict: Verdict)
    requires job.set_.candidates != []
    modifies provider
    ensures verdict == Repair(job, anchor, primary, ServiceOf(provider.script), old(provider.calls))
    ensures provider.calls == old(provider.calls) + verdict.calls
  {
    hide ServiceOf, Build, Verify, Audit.GenerationScope;
    if !Audit.GenerationScope(job.set_, SpacingOnly(job.considered), anchor) { return Aborted(0); }
    var served := GenerateStructured(provider, ProposalSchema);
    BuildCounts(job, anchor, primary, served);
    match Build(job, anchor, primary, served)
    case Ended(ended) => return ended;
    case ToVerify(generated, confidence, attempts, calls) =>
      verdict := VerifyGenerated(job, generated, confidence, attempts, provider);
      verdict := After(calls, verdict);
  }

  /** The tiebreak vote. */
  method RunTiebreak(job: Job, first: Vote, second: Vote, attempts: seq<Attempt>, provider: Provider) returns (verdict: Verdict)
    requires job.set_.candidates != [] && ValidPolicy(job.policy)
    modifies provider
    ensures verdict == Break(job, first, second, attempts, ServiceOf(provider.script), old(provider.calls))
    ensures provider.calls == old(provider.calls) + verdict.calls
  {
    hide ServiceOf, VotePhase, DeferredRecord, RecoveredRecord;
    var third := RunVotePhase(job, Tiebreak, attempts, provider);
    var all := attempts + third.attempts;
    if third.choice.None? { return Decided(DeferredRecord(job, all, third.codes), third.calls); }
    var (majority, count) := Majority(first.candidate, second.candidate, third.choice.value.candidate);
    if third.choice.value.confidence >= job.policy.minConfidence && count >= 2 && third.choice.value.candidate == majority {
      return Decided(RecoveredRecord(job, third.choice.value, all, TwoOfThree, 2), third.calls);
    }
    verdict := Decided(DeferredRecord(job, all, [LLM_CONSENSUS_NOT_REACHED]), third.calls);
  }

  /** The recovery vote. */
  method RunRecovery(job: Job, first: Vote, primary: seq<Attempt>, provider: Provider) returns (verdict: Verdict)
    requires job.set_.candidates != [] && ValidPolicy(job.policy)
    modifies provider
    ensures verdict == Recover(job, first, primary, ServiceOf(provider.script), old(provider.calls))
    ensures provider.calls == old(provider.calls) + verdict.calls
  {
    hide ServiceOf, VotePhase, DeferredRecord, RecoveredRecord, Break;
    if job.policy.maxRecoveries < 1 { return Decided(DeferredRecord(job, primary, [LLM_CONFIDENCE_TOO_LOW]), 0); }
    var second := RunVotePhase(job, Recovery, primary, provider);
    var attempts := primary + second.attempts;
    if second.choice.None? { return Decided(DeferredRecord(job, attempts, second.codes), second.calls); }
    if second.choice.value.confidence < job.policy.minConfidence {
      return Decided(DeferredRecord(job, attempts, [LLM_CONFIDENCE_RECOVERY_EXHAUSTED]), second.calls);
    }
    if second.choice.value.candidate == first.candidate {
      return Decided(RecoveredRecord(job, second.choice.value, attempts, SameCandidate, 1), second.calls);
    }
    if job.policy.maxRecoveries < 2 { return Decided(DeferredRecord(job, attempts, [LLM_CONSENSUS_NOT_REACHED]), second.calls); }
    verdict := RunTiebreak(job, first, second.choice.value, attempts, provider);
    verdict := After(second.calls, verdict);
  }

  /** The model-driven part of `decide`. */
  method ConsultModel(job: Job, provider: Provider) returns (verdict: Verdict)
    requires job.set_.candidates != [] && ValidPolicy(job.policy)
    modifies provider
    ensures verdict == Consult(job, ServiceOf(provider.script), old(provider.calls))
    ensures provider.calls == old(provider.calls) + verdict.calls
  {
    hide ServiceOf, VotePhase, DeferredRecord, Repair, Recover, ById, Seal;
    var primary := RunVotePhase(job, Primary, [], provider);
    if primary.choice.None? { return Decided(DeferredRecord(job, primary.attempts, primary.codes), primary.calls); }
    var vote := primary.choice.value;
    var confident := vote.confidence >= job.policy.minConfidence;
    var chosen := ById(job.considered, vote.candidate);
    if chosen.Some? && chosen.value.SpacingCandidate? && (!confident || job.lexicon.defects(chosen.value.text) != []) {
      verdict := RunSpacingRepair(job, chosen.value, primary.attempts, provider);
      verdict := After(primary.calls, verdict);
    } else if confident {
      verdict := Decided(Seal(job.lexicon, BlankRecord(job).(
        selected := Some(vote.candidate), outcome := Selected, origin := FromModel, confidence := vote.confidence,
        attempts := primary.attempts)), primary.calls);
    } else {
      verdict := RunRecovery(job, vote, primary.attempts, provider);
      verdict := After(primary.calls, verdict);
    }
  }

  /** `decide`: the verdict is the specified one, and the provider has been called exactly as often as it
      counts. */
  method DecideSet(job: Job, trusted: seq<Record>, provider: Provider) returns (verdict: Verdict)
    requires job.set_.candidates != [] && job.considered != [] && ValidPolicy(job.policy)
    modifies provider
    ensures verdict == Decide(job, trusted, ServiceOf(provider.script), old(provider.calls))
    ensures provider.calls == old(provider.calls) + verdict.calls
  {
    hide ServiceOf, Deterministic, DeferredRecord, Consult, Audit.FindTrusted, Cached;
    var deterministic := Deterministic(job);
    if deterministic.Some? { return Decided(deterministic.value, 0); }
    match Audit.FindTrusted(job, trusted)
    case Found(r) => return Decided(Cached(job.lexicon, r), 0);
    case Broken => return Aborted(0);
    case NotFound =>
      if !job.online { return Decided(DeferredRecord(job, [], [LLM_PROVIDER_UNAVAILABLE]), 0); }
      verdict := ConsultModel(job, provider);
  }
}
