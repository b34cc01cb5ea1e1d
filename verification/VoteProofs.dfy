/** The loops of the adjudicator, and what one vote phase leaves behind. */
module VoteProofs {
  import opened Common
  import opened Names
  import opened LlmService
  import opened Decisions
  import opened Ranking
  import opened Audit
  import opened Adjudication

  /** The loop state of `_run_vote_phase` before its `tried`-th schema attempt. */
  datatype Voting = Voting(tried: nat, attempts: seq<Attempt>, codes: seq<Code>, calls: nat)

  function NextMessages(original: Messages, codes: seq<Code>): Messages {
    if codes == [] then original else Corrective(original, codes[|codes| - 1])
  }

  ghost predicate Underway(job: Job, phase: Phase, prior: seq<Attempt>, serve: Service, at: nat, v: Voting) {
    && v.tried < job.policy.maxSchemaAttempts
    && (v.tried == 0 || v.tried == 1)
    && (v.tried == 0 ==> v == Voting(0, [], [], 0))
    && (v.tried == 1 ==>
          var first := serve(at, ChoiceSchema);
          NamesUnknown(job, first)
          && v == Voting(1, [VoteAttempt(job, phase, job.VotePrompt(phase, prior), |prior| + 1, first)], [LLM_CANDIDATE_UNKNOWN], first.calls))
  }

  lemma Start(job: Job, phase: Phase, prior: seq<Attempt>, serve: Service, at: nat)
    requires job.policy.maxSchemaAttempts >= 1
    ensures Underway(job, phase, prior, serve, at, Voting(0, [], [], 0))
  {
  }

  /** What closes the phase, or the state for another attempt. */
  lemma Turn(job: Job, phase: Phase, prior: seq<Attempt>, serve: Service, at: nat, v: Voting)
    requires Underway(job, phase, prior, serve, at, v) && job.policy.maxSchemaAttempts <= 2
    ensures var served := serve(at + v.calls, ChoiceSchema);
            var attempt := VoteAttempt(job, phase, NextMessages(job.VotePrompt(phase, prior), v.codes), |prior| + 1 + v.tried, served);
            if NamesUnknown(job, served) && v.tried + 1 < job.policy.maxSchemaAttempts then
              Underway(job, phase, prior, serve, at,
                Voting(v.tried + 1, v.attempts + [attempt], v.codes + [LLM_CANDIDATE_UNKNOWN], v.calls + served.calls))
            else
              VotePhase(job, phase, prior, serve, at) ==
                VoteResult(ChoiceOf(job, served), v.attempts + [attempt],
                  if NamesUnknown(job, served) then v.codes + [LLM_CANDIDATE_UNKNOWN] else attempt.codes, v.calls + served.calls)
  {
  }

  /** `_run_vote_phase`: asks again, corrected by the last code, while the answer names no
      allowed candidate and the policy grants another schema attempt. */
  method RunVotePhase(job: Job, phase: Phase, prior: seq<Attempt>, provider: Provider) returns (result: VoteResult)
    requires ValidPolicy(job.policy)
    modifies provider
    ensures result == VotePhase(job, phase, prior, ServiceOf(provider.script), old(provider.calls))
    ensures provider.calls == old(provider.calls) + result.calls
  {
    hide VotePhase, Underway, VoteAttempt, NextMessages, ServiceOf;
    ghost var serve, at := ServiceOf(provider.script), provider.calls;
    var original := job.VotePrompt(phase, prior);
    var v := Voting(0, [], [], 0);
    Start(job, phase, prior, serve, at);
    while true
      invariant Underway(job, phase, prior, serve, at, v) && v.tried < job.policy.maxSchemaAttempts
      invariant provider.calls == at + v.calls && ServiceOf(provider.script) == serve
      decreases job.policy.maxSchemaAttempts - v.tried
    {
      Turn(job, phase, prior, serve, at, v);
      var served := GenerateStructured(provider, ChoiceSchema);
      var attempt := VoteAttempt(job, phase, NextMessages(original, v.codes), |prior| + 1 + v.tried, served);
      if served.Answer? && served.payload.candidate !in job.allowed {
        if v.tried + 1 == job.policy.maxSchemaAttempts {
          return VoteResult(None, v.attempts + [attempt], v.codes + [LLM_CANDIDATE_UNKNOWN], v.calls + served.calls);
        }
        v := Voting(v.tried + 1, v.attempts + [attempt], v.codes + [LLM_CANDIDATE_UNKNOWN], v.calls + served.calls);
        continue;
      }
      return VoteResult(ChoiceOf(job, served), v.attempts + [attempt], attempt.codes, v.calls + served.calls);
    }
  }

  // ---------- what a vote phase leaves ----------

  /** The last attempt of a phase records the vote it made, or why there is none. */
  predicate RecordsVote(job: Job, last: Attempt, choice: Option<Vote>) {
    match choice
    case None => last.candidate == None && (last.status == ProviderRejected || last.status == CandidateUnknown)
    case Some(vote) =>
      && last.candidate == Some(vote.candidate) && vote.candidate in job.allowed && last.confidence == vote.confidence
      && (if vote.confidence >= job.policy.minConfidence then last.status == Accepted && last.codes == []
          else last.status == LowConfidence && last.codes == [LLM_CONFIDENCE_TOO_LOW])
  }

  predicate Modest(a: Attempt) {
    0.0 <= a.confidence <= 1.0 && |a.codes| <= 4 && a.retries <= 2 && a.repairs <= 2
  }

  predicate NumberedFrom(attempts: seq<Attempt>, start: nat) {
    forall i :: 0 <= i < |attempts| ==> attempts[i].index == start + i && Modest(attempts[i])
  }

  function CallsOf(attempts: seq<Attempt>): nat {
    |attempts| + RetrySum(attempts) + RepairSum(attempts)
  }

  lemma {:induction false} CallsConcat(a: seq<Attempt>, b: seq<Attempt>)
    ensures CallsOf(a + b) == CallsOf(a) + CallsOf(b)
  {
    if a == [] {
      assert a + b == b;
    } else {
      CallsConcat(a[1..], b);
      assert (a + b)[1..] == a[1..] + b;
    }
  }

  lemma CallsOne(a: Attempt)
    ensures CallsOf([a]) == 1 + a.retries + a.repairs
  {
    var s := [a];
    assert s[1..] == [];
    assert RetrySum(s) == s[0].retries + RetrySum(s[1..]) && RepairSum(s) == s[0].repairs + RepairSum(s[1..]);
  }

  /** A phase is a block of unknown candidates closed by one attempt that records its outcome;
      every attempt is bound to its prompt, and the provider calls are exactly accounted for. */
  ghost predicate PhaseBlock(job: Job, phase: Phase, prior: seq<Attempt>, r: VoteResult) {
    && r.attempts != [] && AllOf(r.attempts, phase) && AllUnknown(r.attempts[..|r.attempts| - 1])
    && RecordsVote(job, r.attempts[|r.attempts| - 1], r.choice)
    && PhaseHashes(job, phase, job.VotePrompt(phase, prior), r.attempts, None)
    && NumberedFrom(r.attempts, |prior| + 1)
    && CallsOf(r.attempts) == r.calls
  }

  lemma VotePhaseBlock(job: Job, phase: Phase, prior: seq<Attempt>, serve: Service, at: nat)
    ensures var r := VotePhase(job, phase, prior, serve, at);
            PhaseBlock(job, phase, prior, r) && |r.attempts| <= 2 && |r.codes| <= 2
  {
    var r := VotePhase(job, phase, prior, serve, at);
    if |r.attempts| == 1 {
      OneAttempt(job, phase, prior, r);
    } else {
      TwoAttempts(job, phase, prior, r);
    }
  }

  lemma OneAttempt(job: Job, phase: Phase, prior: seq<Attempt>, r: VoteResult)
    requires |r.attempts| == 1
    requires var a := r.attempts[0];
             && a.phase == phase && a.index == |prior| + 1 && Modest(a) && RecordsVote(job, a, r.choice)
             && a.request == AttemptKey(job.request, phase, job.VotePrompt(phase, prior), a.index)
             && r.calls == 1 + a.retries + a.repairs
    ensures PhaseBlock(job, phase, prior, r)
  {
    CallsOne(r.attempts[0]);
    assert r.attempts == [r.attempts[0]] && r.attempts[1..] == [] && r.attempts[..0] == [];
  }

  lemma TwoAttempts(job: Job, phase: Phase, prior: seq<Attempt>, r: VoteResult)
    requires |r.attempts| == 2
    requires var a, b := r.attempts[0], r.attempts[1];
             var original := job.VotePrompt(phase, prior);
             && a.phase == b.phase == phase && a.index == |prior| + 1 && b.index == |prior| + 2 && Modest(a) && Modest(b)
             && a.status == CandidateUnknown && a.codes == [LLM_CANDIDATE_UNKNOWN] && RecordsVote(job, b, r.choice)
             && a.request == AttemptKey(job.request, phase, original, a.index)
             && b.request == AttemptKey(job.request, phase, Corrective(original, LLM_CANDIDATE_UNKNOWN), b.index)
             && r.calls == 2 + a.retries + a.repairs + b.retries + b.repairs
    ensures PhaseBlock(job, phase, prior, r)
  {
    var a, b := r.attempts[0], r.attempts[1];
    CallsOne(a);
    CallsOne(b);
    CallsConcat([a], [b]);
    assert r.attempts == [a] + [b] && r.attempts[1..] == [b] && r.attempts[..1] == [a] && [b][1..] == [];
    assert PhaseHashes(job, phase, job.VotePrompt(phase, prior), [b], Some(LLM_CANDIDATE_UNKNOWN));
  }
}
