/** What holds of every record `decide` returns: exact call accounting, model-field bounds, and
    the audit's verdict on it. */
module DecisionProofs {
  import opened Common
  import opened Names
  import opened Candidates
  import opened LlmService
  import opened Decisions
  import opened Ranking
  import opened Audit
  import opened Adjudication
  import opened VoteProofs
  import opened AuditProofs

  // ---------- attempts within bounds ----------

  predicate Trail(attempts: seq<Attempt>) {
    |attempts| <= 6 && NumberedFrom(attempts, 1)
  }

  lemma {:induction false} SumsBounded(attempts: seq<Attempt>)
    requires forall i :: 0 <= i < |attempts| ==> Modest(attempts[i])
    ensures RetrySum(attempts) <= 2 * |attempts| && RepairSum(attempts) <= 2 * |attempts|
  {
    if attempts != [] {
      assert forall i :: 0 <= i < |attempts[1..]| ==> attempts[1..][i] == attempts[i + 1];
      SumsBounded(attempts[1..]);
    }
  }

  lemma TrailExtends(before: seq<Attempt>, block: seq<Attempt>)
    requires Trail(before) && NumberedFrom(block, |before| + 1) && |before| + |block| <= 6
    ensures Trail(before + block)
  {
    forall i | 0 <= i < |before + block| ensures (before + block)[i].index == 1 + i && Modest((before + block)[i]) {
      if i >= |before| { assert (before + block)[i] == block[i - |before|]; }
    }
  }

  // ---------- settled records ----------

  /** A generated candidate as the machine makes it. */
  predicate WellMade(job: Job, d: Record) {
    && d.generated.Some? && d.generated.value.Full?
    && var c := d.generated.value.candidate;
       && ValidSpacing(c) && ContentAddressed(job.lexicon.mint, c) && c.region == job.set_.region
       && job.set_.decision == SpacingType
       && job.lexicon.defects(c.text) == [] && d.selected == Some(c.id)
       && (forall o :: o in job.considered ==> Alike(o, c))
  }

  /** The verdict the auditor will give on a fresh selected record. */
  function ExpectedAudit(job: Job, d: Record): Finding {
    if d.recovery == GeneratedRepair && d.generated.Some? && d.generated.value.Full?
       && !SharedBySet(job.set_, d.generated.value.candidate) && d.generated.value.candidate.id !in job.allowed
    then Mismatch else Match
  }

  /** A record made fresh after exactly `calls` provider calls. */
  ghost predicate Settled(job: Job, d: Record, calls: nat) {
    && Fresh(job, d) && d.origin != FromCache && d.origin != FromDeterministic && d.decision == job.set_.decision
    && ModelCalls(d) == calls
    && BoundedRecord(d)
    && (d.recovery == GeneratedRepair ==> WellMade(job, d))
    && (d.recovery != GeneratedRepair ==> d.generated == None)
    && (d.outcome == Selected ==> OutcomeAudit(job, d) && TrustedMatches(job, d) == ExpectedAudit(job, d))
  }

  /** What `Seal` needs of a draft made for the job. */
  predicate Draft(job: Job, draft: Record) {
    && draft.request == job.request && draft.source == job.set_.source && draft.evidence == job.request.evidence
    && draft.setId == job.set_.id && draft.region == job.set_.region && draft.decision == job.set_.decision
    && draft.provider == job.request.provider && draft.model == job.request.model
    && draft.retries == draft.repairs == 0 && Trail(draft.attempts)
    && 0.0 <= draft.confidence <= 1.0 && |draft.codes| <= 4 && draft.recoveries <= 2
    && draft.origin != FromCache && draft.origin != FromDeterministic
    && (draft.attempts == [] ==> draft.origin != FromModel && draft.origin != FromProvider && draft.origin != FromRecovered)
  }

  lemma SealSettles(job: Job, draft: Record)
    requires Draft(job, draft)
    ensures var d := Seal(job.lexicon, draft);
            && Fresh(job, d) && BoundedRecord(d) && ModelCalls(d) == CallsOf(draft.attempts)
            && d == draft.(id := d.id, retries := d.retries, repairs := d.repairs)
  {
    SumsBounded(draft.attempts);
    var d := Seal(job.lexicon, draft);
    assert forall i :: 0 <= i < |d.attempts| ==> BoundedAttempt(d.attempts[i]);
  }

  lemma FallbackInSet(job: Job)
    requires Prepared(job)
    ensures FallbackOf(job).Safe? ==> FallbackOf(job).candidate in job.set_.candidates && 0.0 <= FallbackOf(job).candidate.score <= 1.0
  {
    var f := FallbackOf(job);
    if f.Safe? { assert f.candidate in job.set_.candidates; }
  }

  lemma DeferredSettled(job: Job, attempts: seq<Attempt>, codes: seq<Code>)
    requires Prepared(job) && Trail(attempts) && |codes| <= 3 && (attempts != [] || !job.online)
    ensures var d := DeferredRecord(job, attempts, codes);
            Settled(job, d, CallsOf(attempts)) && d.outcome != Selected && d.attempts == attempts
  {
    FallbackInSet(job);
    SealSettles(job, DeferredDraft(job, attempts, codes));
  }

  // ---------- the paths ----------

  /** The verdict of a part of the machine that started after `before` provider calls. */
  ghost predicate VerdictSettled(job: Job, v: Verdict, before: nat) {
    v.Decided? ==> Settled(job, v.record, before + v.calls)
  }

  const NO_VOTES := VoteResult(None, [], [], 0)

  lemma RecoveredSettled(job: Job, p: VoteResult, r: VoteResult, t: VoteResult, winner: Vote, consensus: Consensus, recoveries: nat)
    requires Prepared(job) && Chained(job, p, r, t) && Trail(p.attempts + r.attempts + t.attempts) && recoveries <= 2
    requires 0.0 <= winner.confidence <= 1.0
    requires if t.attempts == [] then
               && consensus == SameCandidate && recoveries == 1 && p.choice.value.candidate == r.choice.value.candidate
               && winner == r.choice.value
             else
               && consensus == TwoOfThree && recoveries == 2 && p.choice.value.candidate != r.choice.value.candidate
               && winner == t.choice.value && winner.confidence >= job.policy.minConfidence
               && var (majority, count) := Majority(p.choice.value.candidate, r.choice.value.candidate, winner.candidate);
                  count >= 2 && majority == winner.candidate
    ensures var all := p.attempts + r.attempts + t.attempts;
            Settled(job, RecoveredRecord(job, winner, all, consensus, recoveries), CallsOf(all))
  {
    var all := p.attempts + r.attempts + t.attempts;
    var d := RecoveredRecord(job, winner, all, consensus, recoveries);
    SealSettles(job, BlankRecord(job).(
      selected := Some(winner.candidate), outcome := Selected, origin := FromRecovered, confidence := winner.confidence,
      codes := [LLM_LOW_CONFIDENCE_RECOVERED], recovery := Recovered, attempts := all, consensus := consensus,
      agreed := Some(winner.candidate), recoveries := recoveries));
    RecoveredPasses(job, d, p, r, t);
  }

  lemma TiebreakVote(job: Job, p: VoteResult, r: VoteResult, serve: Service, at: nat)
    requires Chained(job, p, r, NO_VOTES) && |p.attempts| <= 2 && |r.attempts| <= 2 && Trail(p.attempts + r.attempts)
    ensures var before := p.attempts + r.attempts;
            var t := VotePhase(job, Tiebreak, before, serve, at);
            && Trail(before + t.attempts) && CallsOf(before + t.attempts) == CallsOf(before) + t.calls
            && t.attempts != [] && |t.codes| <= 2
            && (t.choice.Some? ==> Chained(job, p, r, t) && 0.0 <= t.choice.value.confidence <= 1.0)
  {
    hide VotePhase, CallsOf;
    var before := p.attempts + r.attempts;
    var t := VotePhase(job, Tiebreak, before, serve, at);
    VotePhaseBlock(job, Tiebreak, before, serve, at);
    TrailExtends(before, t.attempts);
    CallsConcat(before, t.attempts);
    assert Modest(t.attempts[|t.attempts| - 1]);
  }

  lemma BreakSettled(job: Job, p: VoteResult, r: VoteResult, serve: Service, at: nat)
    requires Prepared(job) && Chained(job, p, r, NO_VOTES) && |p.attempts| <= 2 && |r.attempts| <= 2
    requires Trail(p.attempts + r.attempts) && p.choice.value.candidate != r.choice.value.candidate
    ensures VerdictSettled(job, Break(job, p.choice.value, r.choice.value, p.attempts + r.attempts, serve, at),
                           CallsOf(p.attempts + r.attempts))
  {
    hide VotePhase, DeferredRecord, RecoveredRecord, Settled, CallsOf, Prepared, PhaseBlock, Trail;
    var before := p.attempts + r.attempts;
    var t := VotePhase(job, Tiebreak, before, serve, at);
    TiebreakVote(job, p, r, serve, at);
    NotEmpty(job);
    var all := before + t.attempts;
    if t.choice.None? {
      DeferredSettled(job, all, t.codes);
    } else {
      var (majority, count) := Majority(p.choice.value.candidate, r.choice.value.candidate, t.choice.value.candidate);
      if t.choice.value.confidence >= job.policy.minConfidence && count >= 2 && t.choice.value.candidate == majority {
        RecoveredSettled(job, p, r, t, t.choice.value, TwoOfThree, 2);
      } else {
        DeferredSettled(job, all, [LLM_CONSENSUS_NOT_REACHED]);
      }
    }
  }

  /** A primary vote, and what it takes to go on from it. */
  ghost predicate Opened(job: Job, p: VoteResult) {
    PhaseBlock(job, Primary, [], p) && |p.attempts| <= 2 && p.choice.Some? && Trail(p.attempts)
  }

  lemma RecoveryVote(job: Job, p: VoteResult, serve: Service, at: nat)
    requires Prepared(job) && Opened(job, p)
    ensures var r := VotePhase(job, Recovery, p.attempts, serve, at);
            && PhaseBlock(job, Recovery, p.attempts, r) && |r.attempts| <= 2 && |r.codes| <= 2
            && Trail(p.attempts + r.attempts) && CallsOf(p.attempts + r.attempts) == CallsOf(p.attempts) + r.calls
  {
    var r := VotePhase(job, Recovery, p.attempts, serve, at);
    VotePhaseBlock(job, Recovery, p.attempts, serve, at);
    TrailExtends(p.attempts, r.attempts);
    CallsConcat(p.attempts, r.attempts);
  }

  /** Two agreeing votes. */
  lemma AgreedSettled(job: Job, p: VoteResult, r: VoteResult)
    requires Prepared(job) && Chained(job, p, r, NO_VOTES) && Trail(p.attempts + r.attempts)
    requires p.choice.value.candidate == r.choice.value.candidate
    ensures var all := p.attempts + r.attempts;
            Settled(job, RecoveredRecord(job, r.choice.value, all, SameCandidate, 1), CallsOf(all))
  {
    assert Modest(r.attempts[|r.attempts| - 1]);
    assert p.attempts + r.attempts + NO_VOTES.attempts == p.attempts + r.attempts;
    RecoveredSettled(job, p, r, NO_VOTES, r.choice.value, SameCandidate, 1);
  }

  lemma RecoverSettled(job: Job, p: VoteResult, serve: Service, at: nat)
    requires Prepared(job) && Opened(job, p) && p.choice.value.confidence < job.policy.minConfidence
    ensures VerdictSettled(job, Recover(job, p.choice.value, p.attempts, serve, at), CallsOf(p.attempts))
  {
    hide Settled, DeferredRecord, RecoveredRecord, VotePhase, Break, CallsOf, Prepared, PhaseHashes, NumberedFrom;
    if job.policy.maxRecoveries < 1 {
      DeferredSettled(job, p.attempts, [LLM_CONFIDENCE_TOO_LOW]);
    } else {
      var r := VotePhase(job, Recovery, p.attempts, serve, at);
      RecoveryVote(job, p, serve, at);
      var all := p.attempts + r.attempts;
      if r.choice.None? {
        DeferredSettled(job, all, r.codes);
      } else if r.choice.value.confidence < job.policy.minConfidence {
        DeferredSettled(job, all, [LLM_CONFIDENCE_RECOVERY_EXHAUSTED]);
      } else if r.choice.value.candidate == p.choice.value.candidate {
        AgreedSettled(job, p, r);
      } else if job.policy.maxRecoveries < 2 {
        DeferredSettled(job, all, [LLM_CONSENSUS_NOT_REACHED]);
      } else {
        BreakSettled(job, p, r, serve, at + r.calls);
      }
    }
  }

  lemma PrimarySettled(job: Job, p: VoteResult)
    requires Prepared(job) && Opened(job, p) && p.choice.value.confidence >= job.policy.minConfidence
    ensures var d := Seal(job.lexicon, BlankRecord(job).(
              selected := Some(p.choice.value.candidate), outcome := Selected, origin := FromModel,
              confidence := p.choice.value.confidence, attempts := p.attempts));
            Settled(job, d, CallsOf(p.attempts))
  {
    var draft := BlankRecord(job).(
      selected := Some(p.choice.value.candidate), outcome := Selected, origin := FromModel,
      confidence := p.choice.value.confidence, attempts := p.attempts);
    assert Modest(p.attempts[|p.attempts| - 1]);
    SealSettles(job, draft);
    var d := Seal(job.lexicon, draft);
    PrimaryPasses(job, d, p);
  }

  // ---------- spacing repair ----------

  lemma BuiltFacts(lexicon: Lexicon, anchor: SpacedCandidate, text: string, confidence: real)
    requires BuildGenerated(lexicon, anchor, text, confidence).Made?
    ensures var c := BuildGenerated(lexicon, anchor, text, confidence).candidate;
            && ValidSpacing(c) && ContentAddressed(lexicon.mint, c) && c.region == anchor.region
            && c.text == text && c.atoms == anchor.atoms && Alike(c, anchor) && lexicon.defects(c.text) == []
  {
    MadeFacts(lexicon.mint, anchor.region, text, anchor.chars, anchor.atoms, WhitespaceOf(anchor.boundaries),
              confidence, map[LLM_GENERATED_SPACING := confidence], anchor.mutable);
  }

  lemma SpacedConsidered(job: Job)
    requires Prepared(job) && job.set_.decision == SpacingType
    ensures SpacingOnly(job.considered) == job.considered
  {
    ConsideredMembers(job);
    assert forall c :: c in job.considered ==> c.SpacingCandidate?;
  }

  /** A generation attempt behind the primary votes, for a candidate that was made. */
  ghost predicate Proposed(job: Job, p: VoteResult, anchor: SpacedCandidate, c: SpacedCandidate, proposed: real, g: Attempt) {
    && Opened(job, p) && ById(job.considered, p.choice.value.candidate) == Some(anchor)
    && GenerationScope(job.set_, job.considered, anchor)
    && ValidSpacing(c) && ContentAddressed(job.lexicon.mint, c) && c.region == anchor.region && Alike(c, anchor)
    && job.lexicon.defects(c.text) == []
    && g.index == |p.attempts| + 1 && g.phase == Generation && Modest(g) && g.confidence == proposed
    && g.request == AttemptKey(job.request, Generation, GenerationMessages(job.set_, job.considered, anchor), g.index)
    && g.candidate == Some(c.id)
    && (proposed >= job.policy.minConfidence ==> g.status == Accepted && g.codes == [])
  }

  lemma GeneratedSettled(job: Job, p: VoteResult, anchor: SpacedCandidate, c: SpacedCandidate, g: Attempt, v: Attempt)
    requires Prepared(job) && Opened(job, p) && RepairDone(job, p, anchor, c, g, v) && Modest(g) && Modest(v)
    requires ValidSpacing(c) && ContentAddressed(job.lexicon.mint, c) && Alike(c, anchor)
    ensures var all := p.attempts + [g] + [v];
            Settled(job, GeneratedRecord(job, c, g.confidence, v.confidence, all), CallsOf(all))
  {
    var all := p.attempts + [g] + [v];
    var d := GeneratedRecord(job, c, g.confidence, v.confidence, all);
    RepairTrail(p, g, v);
    SealSettles(job, GeneratedDraft(job, c, g.confidence, v.confidence, all));
    GeneratedVerdict(job, d, p, anchor, c, g, v);
    assert WellMade(job, d) by { assert forall o :: o in job.considered ==> Alike(o, c); }
    hide PhaseHashes, RetrySum, RepairSum, DecisionIdOf, HashesMatch, CallsOf, Trail, TrustedMatches, OutcomeAudit, ExpectedAudit,
      WellMade, BoundedRecord, RepairDone;
  }

  lemma RepairTrail(p: VoteResult, g: Attempt, v: Attempt)
    requires Trail(p.attempts) && |p.attempts| <= 2 && Modest(g) && Modest(v)
    requires g.index == |p.attempts| + 1 && v.index == |p.attempts| + 2
    ensures Trail(p.attempts + [g] + [v]) && p.attempts + [g] + [v] == p.attempts + [g, v]
  {
    TrailExtends(p.attempts, [g]);
    TrailExtends(p.attempts + [g], [v]);
  }

  lemma GeneratedVerdict(job: Job, d: Record, p: VoteResult, anchor: SpacedCandidate, c: SpacedCandidate, g: Attempt, v: Attempt)
    requires RepairDone(job, p, anchor, c, g, v)
    requires Fresh(job, d) && d.outcome == Selected && d.recovery == GeneratedRepair && d.origin == FromGenerated
    requires d.attempts == p.attempts + [g, v] && d.generated == Some(Full(c)) && d.selected == Some(c.id)
    requires d.confidence == (if v.confidence < g.confidence then v.confidence else g.confidence)
    requires d.codes == [LLM_SPACING_REPAIR_APPLIED]
    ensures OutcomeAudit(job, d) && TrustedMatches(job, d) == ExpectedAudit(job, d)
  {
    hide PhaseHashes, RetrySum, RepairSum, DecisionIdOf, HashesMatch, TrustedMatches, GeneratedAudit, SharedBySet;
    GeneratedPasses(job, d, p, anchor, c, g, v);
    GeneratedAuditPasses(job, d, p, anchor, c, g, v);
  }

  /** The verification answer, as an attempt. */
  function VerificationAttempt(job: Job, c: SpacedCandidate, proposed: real, index: nat, served: Served): Attempt
    requires served.Answer? ==> served.payload.Verification?
  {
    var key := AttemptKey(job.request, VerificationPhase, VerificationMessages(job.set_, job.considered, c), index);
    match served
    case Raised(_, code, retries, repairs, _) =>
      Attempt(index, VerificationPhase, key, None, 0.0, ProviderRejected, [code], retries, repairs)
    case Answer(answer, retries, repairs, _, _) =>
      var low := answer.confidence < job.policy.minConfidence;
      var codes := VerificationCodes(low, answer.candidate == c.id, answer.codes);
      var accepted := proposed >= job.policy.minConfidence && !low && answer.candidate == c.id && codes == [];
      Attempt(index, VerificationPhase, key, Some(answer.candidate), answer.confidence,
              if accepted then Accepted else if low then LowConfidence else ValidationRejected, codes, retries, repairs)
  }

  lemma VerifyUnfolds(job: Job, c: SpacedCandidate, proposed: real, before: seq<Attempt>, serve: Service, at: nat)
    requires Prepared(job) && job.set_.decision == SpacingType && VerificationScope(job.set_, job.considered, c)
    ensures var served := serve(at, VerificationSchema(Ids(job.considered) + {c.id}));
            var v := VerificationAttempt(job, c, proposed, |before| + 1, served);
            Verify(job, c, proposed, before, serve, at) ==
              if |v.codes| > 4 then Aborted(served.calls)
              else if v.status == Accepted then Decided(GeneratedRecord(job, c, proposed, v.confidence, before + [v]), served.calls)
              else Decided(DeferredRecord(job, before + [v], if served.Raised? then v.codes else []), served.calls)
  {
    SpacedConsidered(job);
  }

  lemma VerificationAttemptFacts(job: Job, c: SpacedCandidate, proposed: real, index: nat, serve: Service, at: nat)
    ensures var served := serve(at, VerificationSchema(Ids(job.considered) + {c.id}));
            var v := VerificationAttempt(job, c, proposed, index, served);
            && 1 + v.retries + v.repairs == served.calls && v.index == index && v.phase == VerificationPhase
            && v.request == AttemptKey(job.request, VerificationPhase, VerificationMessages(job.set_, job.considered, c), index)
            && (|v.codes| <= 4 ==> Modest(v)) && (served.Raised? ==> |v.codes| <= 1)
            && (v.status == Accepted ==> v.candidate == Some(c.id) && v.confidence >= job.policy.minConfidence && v.codes == []
                                         && proposed >= job.policy.minConfidence)
  {
  }

  lemma ProposedInScope(job: Job, p: VoteResult, anchor: SpacedCandidate, c: SpacedCandidate, g: Attempt)
    requires Proposed(job, p, anchor, c, g.confidence, g)
    ensures VerificationScope(job.set_, job.considered, c)
    ensures Trail(p.attempts) && |p.attempts| <= 2 && Modest(g) && g.index == |p.attempts| + 1
  {
  }

  lemma RepairIsDone(job: Job, p: VoteResult, anchor: SpacedCandidate, c: SpacedCandidate, g: Attempt, v: Attempt)
    requires Proposed(job, p, anchor, c, g.confidence, g)
    requires v.index == |p.attempts| + 2 && v.phase == VerificationPhase && v.status == Accepted
    requires v.request == AttemptKey(job.request, VerificationPhase, VerificationMessages(job.set_, job.considered, c), v.index)
    requires v.candidate == Some(c.id) && v.confidence >= job.policy.minConfidence && v.codes == []
    requires g.confidence >= job.policy.minConfidence
    ensures RepairDone(job, p, anchor, c, g, v)
    ensures Opened(job, p) && ValidSpacing(c) && ContentAddressed(job.lexicon.mint, c) && Alike(c, anchor)
  {
    hide PhaseHashes, NumberedFrom, ValidSpacing, CallsOf;
  }

  lemma VerifySettled(job: Job, p: VoteResult, anchor: SpacedCandidate, c: SpacedCandidate, g: Attempt, serve: Service, at: nat)
    requires Prepared(job) && job.set_.decision == SpacingType && Proposed(job, p, anchor, c, g.confidence, g)
    ensures VerdictSettled(job, Verify(job, c, g.confidence, p.attempts + [g], serve, at), CallsOf(p.attempts + [g]))
  {
    hide Prepared, Proposed, Verify, DeferredRecord, GeneratedRecord, Settled, CallsOf, Trail, VerificationAttempt, VerificationScope,
      RepairDone, Opened, ValidSpacing, Ids, Modest;
    var before := p.attempts + [g];
    ProposedInScope(job, p, anchor, c, g);
    var served := serve(at, VerificationSchema(Ids(job.considered) + {c.id}));
    VerificationAttemptFacts(job, c, g.confidence, |before| + 1, serve, at);
    var v := VerificationAttempt(job, c, g.confidence, |before| + 1, served);
    VerifyUnfolds(job, c, g.confidence, before, serve, at);
    if |v.codes| <= 4 {
      RepairTrail(p, g, v);
      CallsOne(v);
      CallsConcat(before, [v]);
      if v.status == Accepted {
        RepairIsDone(job, p, anchor, c, g, v);
        GeneratedSettled(job, p, anchor, c, g, v);
      } else {
        DeferredSettled(job, before + [v], if served.Raised? then v.codes else []);
      }
    }
  }

  /** The generation answer, as an attempt, for how the construction went. */
  function GenerationAttempt(job: Job, anchor: SpacedCandidate, index: nat, served: Served): Attempt
    requires served.Answer? ==> served.payload.Proposal?
  {
    var key := AttemptKey(job.request, Generation, GenerationMessages(job.set_, job.considered, anchor), index);
    match served
    case Raised(_, code, retries, repairs, _) =>
      Attempt(index, Generation, key, None, 0.0, ProviderRejected, [code], retries, repairs)
    case Answer(proposal, retries, repairs, _, _) =>
      var low := proposal.confidence < job.policy.minConfidence;
      match BuildGenerated(job.lexicon, anchor, proposal.text, proposal.confidence)
      case Malformed => Attempt(index, Generation, key, None, 0.0, ValidationRejected, [], retries, repairs)
      case Rejected(code) =>
        Attempt(index, Generation, key, None, proposal.confidence, ValidationRejected, [code], retries, repairs)
      case Made(c) =>
        Attempt(index, Generation, key, Some(c.id), proposal.confidence, if low then LowConfidence else Accepted,
                if low then [LLM_CONFIDENCE_TOO_LOW] else [], retries, repairs)
  }

  function BuiltFrom(job: Job, anchor: SpacedCandidate, served: Served): Construction
    requires served.Answer? ==> served.payload.Proposal?
  {
    if served.Raised? then Rejected(served.code)
    else BuildGenerated(job.lexicon, anchor, served.payload.text, served.payload.confidence)
  }

  lemma BuildUnfolds(job: Job, anchor: SpacedCandidate, primary: seq<Attempt>, served: Served)
    requires job.set_.candidates != [] && SpacingOnly(job.considered) == job.considered && (served.Answer? ==> served.payload.Proposal?)
    ensures var g := GenerationAttempt(job, anchor, |primary| + 1, served);
            Build(job, anchor, primary, served) ==
              match BuiltFrom(job, anchor, served)
              case Malformed => Ended(Aborted(served.calls))
              case Rejected(_) => Ended(Decided(DeferredRecord(job, primary + [g], if served.Raised? then g.codes else []), served.calls))
              case Made(c) => ToVerify(c, g.confidence, primary + [g], served.calls)
  {
    hide BuildGenerated, DeferredRecord, SpacingOnly;
  }

  /** The spacing repair by what was built from the proposal. */
  function RepairOutcome(job: Job, anchor: SpacedCandidate, primary: seq<Attempt>, serve: Service, at: nat): Verdict
    requires job.set_.candidates != []
  {
    var served := serve(at, ProposalSchema);
    var g := GenerationAttempt(job, anchor, |primary| + 1, served);
    if !GenerationScope(job.set_, job.considered, anchor) then Aborted(0)
    else
      match BuiltFrom(job, anchor, served)
      case Malformed => Aborted(served.calls)
      case Rejected(_) => Decided(DeferredRecord(job, primary + [g], if served.Raised? then g.codes else []), served.calls)
      case Made(c) => After(served.calls, Verify(job, c, g.confidence, primary + [g], serve, at + served.calls))
  }

  lemma RepairUnfolds(job: Job, anchor: SpacedCandidate, primary: seq<Attempt>, serve: Service, at: nat)
    requires Prepared(job) && job.set_.decision == SpacingType
    ensures job.set_.candidates != []
    ensures Repair(job, anchor, primary, serve, at) == RepairOutcome(job, anchor, primary, serve, at)
  {
    hide Prepared, SpacingOnly, Build, Verify, GenerationScope, RepairOutcome;
    NotEmpty(job);
    SpacedConsidered(job);
    OutcomeOfBuild(job, anchor, primary, serve, at);
  }

  lemma OutcomeOfBuild(job: Job, anchor: SpacedCandidate, primary: seq<Attempt>, serve: Service, at: nat)
    requires job.set_.candidates != [] && SpacingOnly(job.considered) == job.considered
    ensures RepairOutcome(job, anchor, primary, serve, at) ==
              if !GenerationScope(job.set_, job.considered, anchor) then Aborted(0)
              else
                match Build(job, anchor, primary, serve(at, ProposalSchema))
                case Ended(verdict) => verdict
                case ToVerify(generated, confidence, attempts, calls) =>
                  After(calls, Verify(job, generated, confidence, attempts, serve, at + calls))
  {
    hide SpacingOnly, Build, BuiltFrom, Verify, DeferredRecord, GenerationAttempt, GenerationScope;
    BuildUnfolds(job, anchor, primary, serve(at, ProposalSchema));
  }

  lemma GenerationAttemptFacts(job: Job, anchor: SpacedCandidate, index: nat, serve: Service, at: nat)
    ensures var served := serve(at, ProposalSchema);
            var g := GenerationAttempt(job, anchor, index, served);
            && 1 + g.retries + g.repairs == served.calls && g.index == index && g.phase == Generation && Modest(g)
            && |g.codes| <= 1
            && g.request == AttemptKey(job.request, Generation, GenerationMessages(job.set_, job.considered, anchor), index)
            && (BuiltFrom(job, anchor, served).Made? ==>
                  && g.candidate == Some(BuiltFrom(job, anchor, served).candidate.id)
                  && (g.confidence >= job.policy.minConfidence ==> g.status == Accepted && g.codes == []))
  {
    hide BuildGenerated;
  }

  lemma ProposedByBuild(job: Job, p: VoteResult, anchor: SpacedCandidate, serve: Service, at: nat)
    requires Opened(job, p) && ById(job.considered, p.choice.value.candidate) == Some(anchor)
    requires GenerationScope(job.set_, job.considered, anchor) && BuiltFrom(job, anchor, serve(at, ProposalSchema)).Made?
    ensures var served := serve(at, ProposalSchema);
            var g := GenerationAttempt(job, anchor, |p.attempts| + 1, served);
            Proposed(job, p, anchor, BuiltFrom(job, anchor, served).candidate, g.confidence, g)
  {
    var served := serve(at, ProposalSchema);
    GenerationAttemptFacts(job, anchor, |p.attempts| + 1, serve, at);
    BuiltFacts(job.lexicon, anchor, served.payload.text, served.payload.confidence);
    hide BuildGenerated, GenerationAttempt, Opened, ValidSpacing, ById;
  }

  lemma RepairSettled(job: Job, p: VoteResult, anchor: SpacedCandidate, serve: Service, at: nat)
    requires Prepared(job) && Opened(job, p) && ById(job.considered, p.choice.value.candidate) == Some(anchor)
    ensures VerdictSettled(job, Repair(job, anchor, p.attempts, serve, at), CallsOf(p.attempts))
  {
    hide Prepared, Proposed, Verify, Repair, DeferredRecord, Settled, CallsOf, Trail, GenerationAttempt, GenerationScope, BuiltFrom,
      ValidSpacing, Modest, ById, PhaseBlock;
    SpacingJob(job, p, anchor);
    TrailOfOpened(job, p);
    var served := serve(at, ProposalSchema);
    var g := GenerationAttempt(job, anchor, |p.attempts| + 1, served);
    RepairUnfolds(job, anchor, p.attempts, serve, at);
    GenerationAttemptFacts(job, anchor, |p.attempts| + 1, serve, at);
    CallsOne(g);
    CallsConcat(p.attempts, [g]);
    GenerationTrail(p, g);
    if GenerationScope(job.set_, job.considered, anchor) {
      match BuiltFrom(job, anchor, served)
      case Malformed =>
      case Rejected(_) => DeferredSettled(job, p.attempts + [g], if served.Raised? then g.codes else []);
      case Made(c) =>
        ProposedByBuild(job, p, anchor, serve, at);
        VerifySettled(job, p, anchor, c, g, serve, at + served.calls);
    }
  }

  lemma GenerationTrail(p: VoteResult, g: Attempt)
    requires Trail(p.attempts) && |p.attempts| <= 2 && Modest(g) && g.index == |p.attempts| + 1
    ensures Trail(p.attempts + [g])
  {
    TrailExtends(p.attempts, [g]);
  }

  lemma TrailOfOpened(job: Job, p: VoteResult)
    requires Opened(job, p)
    ensures Trail(p.attempts) && |p.attempts| <= 2 && CallsOf(p.attempts) == p.calls
  {
  }

  /** A spacing anchor among the considered candidates means a spacing decision. */
  lemma SpacingJob(job: Job, p: VoteResult, anchor: SpacedCandidate)
    requires Prepared(job) && p.choice.Some? && ById(job.considered, p.choice.value.candidate) == Some(anchor)
    ensures job.set_.decision == SpacingType
  {
    ConsideredMembers(job);
    assert anchor in job.set_.candidates;
  }

  // ---------- the whole decision ----------

  lemma ConsultSettled(job: Job, serve: Service, at: nat)
    requires Prepared(job)
    ensures VerdictSettled(job, Consult(job, serve, at), 0)
  {
    hide Prepared, Settled, DeferredRecord, PhaseHashes, NumberedFrom, CallsOf, Recover, Repair, VotePhase, Trail, RecordsVote;
    var p := VotePhase(job, Primary, [], serve, at);
    VotePhaseBlock(job, Primary, [], serve, at);
    PrimaryTrail(job, p);
    if p.choice.None? {
      DeferredSettled(job, p.attempts, p.codes);
    } else {
      var chosen := ById(job.considered, p.choice.value.candidate);
      var confident := p.choice.value.confidence >= job.policy.minConfidence;
      if chosen.Some? && chosen.value.SpacingCandidate? && (!confident || job.lexicon.defects(chosen.value.text) != []) {
        RepairSettled(job, p, chosen.value, serve, at + p.calls);
      } else if confident {
        PrimarySettled(job, p);
      } else {
        RecoverSettled(job, p, serve, at + p.calls);
      }
    }
  }

  lemma PrimaryTrail(job: Job, p: VoteResult)
    requires PhaseBlock(job, Primary, [], p) && |p.attempts| <= 2
    ensures Trail(p.attempts) && p.attempts != [] && CallsOf(p.attempts) == p.calls
  {
  }

  /** What the deterministic branches select, and why. */
  ghost predicate DeterministicBacking(job: Job, d: Record) {
    && d.outcome == Selected && d.origin == FromDeterministic && d.attempts == [] && d.generated == None
    && exists c :: c in job.considered && d.selected == Some(c.id) && Unrivalled(job, d, c)
  }

  /** Every other candidate of the whole set is the margin behind. */
  ghost predicate AheadByMargin(job: Job, c: Candidate) {
    forall o :: o in job.set_.candidates && o.id != c.id ==> c.score - o.score >= job.policy.autoMargin
  }

  /** The policies under which accepting by score means being the margin ahead. */
  predicate MeasuresMargin(policy: Policy) {
    policy.maxCandidates >= 2 || policy.autoMargin == 0.0
  }

  /** Either the candidate is a proven table and every considered proven table has its structure,
      or it reaches the accepting score without defects and is the margin ahead of the whole set -
      under a policy that measures the margin; otherwise its score alone reaches the margin. */
  ghost predicate Unrivalled(job: Job, d: Record, c: Candidate) {
    || (Proven(c) && d.confidence == 1.0
        && forall o :: o in job.considered && Proven(o) ==> SameStructure(c, o) && !Beaten(c, o))
    || (&& c.score >= job.policy.autoScore && d.confidence == c.score
        && (c.SpacingCandidate? ==> job.lexicon.defects(c.text) == [])
        && if MeasuresMargin(job.policy) then AheadByMargin(job, c) else c.score >= job.policy.autoMargin)
  }

  lemma SecondBest(job: Job, o: Candidate)
    requires Prepared(job) && o in job.set_.candidates && o.id != job.considered[0].id
    ensures o.score <= job.considered[0].score
    ensures job.policy.maxCandidates >= 2 ==> |job.considered| > 1 && o.score <= job.considered[1].score
  {
    var ranked := Rank(job.set_.candidates);
    RankSorts(job.set_.candidates);
    assert o in ranked;
    var k :| 0 <= k < |ranked| && ranked[k] == o;
    assert k > 0 && job.considered[0] == ranked[0] && Before(ranked[0], ranked[k]);
    assert k > 1 ==> Before(ranked[1], ranked[k]);
  }

  lemma BestIsAhead(job: Job)
    requires Prepared(job) && MeasuresMargin(job.policy)
    requires job.considered[0].score - (if |job.considered| > 1 then job.considered[1].score else 0.0) >= job.policy.autoMargin
    ensures AheadByMargin(job, job.considered[0])
  {
    forall o | o in job.set_.candidates && o.id != job.considered[0].id
      ensures job.considered[0].score - o.score >= job.policy.autoMargin
    {
      SecondBest(job, o);
    }
  }

  lemma DeterministicIsBacked(job: Job)
    requires Prepared(job) && job.considered != [] && Deterministic(job).Some?
    ensures DeterministicBacking(job, Deterministic(job).value)
  {
    var d := Deterministic(job).value;
    var proven := ProvenTables(job.considered);
    if proven != [] && OneStructure(proven) {
      assert Unrivalled(job, d, Top(proven));
    } else {
      var best := job.considered[0];
      ScoresAreBounded(job);
      if MeasuresMargin(job.policy) { BestIsAhead(job); }
      assert Unrivalled(job, d, best);
    }
  }

  lemma ScoresAreBounded(job: Job)
    requires Prepared(job)
    ensures forall c :: c in job.considered ==> 0.0 <= c.score <= 1.0
  {
    ConsideredMembers(job);
  }

  lemma DeterministicBounded(job: Job)
    requires Prepared(job) && job.considered != [] && Deterministic(job).Some?
    ensures var d := Deterministic(job).value;
            && BoundedRecord(d) && ModelCalls(d) == 0 && SameRequest(job, d) && d.origin == FromDeterministic && d.decision == job.set_.decision
  {
    ConsideredMembers(job);
    assert job.considered[0] in job.set_.candidates;
  }
}
