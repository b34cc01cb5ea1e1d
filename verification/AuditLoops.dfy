/** The loops of `_attempt_request_hashes_match`. */
module AuditLoops {
  import opened Common
  import opened Names
  import opened Decisions
  import opened Ranking
  import opened Audit

  function NextCorrection(a: Attempt): Option<Code> {
    if a.status == CandidateUnknown && a.codes != [] then Some(a.codes[|a.codes| - 1]) else None
  }

  lemma PhaseStep(job: Job, phase: Phase, base: Messages, attempts: seq<Attempt>, i: nat, correction: Option<Code>)
    requires i < |attempts|
    ensures PhaseHashes(job, phase, base, attempts[i..], correction) <==>
              && attempts[i].request ==
                   AttemptKey(job.request, phase, if correction.Some? then Corrective(base, correction.value) else base, attempts[i].index)
              && PhaseHashes(job, phase, base, attempts[i + 1..], NextCorrection(attempts[i]))
  {
    assert attempts[i..][0] == attempts[i] && attempts[i..][1..] == attempts[i + 1..];
  }

  lemma PhaseEnds(job: Job, phase: Phase, base: Messages, attempts: seq<Attempt>, correction: Option<Code>)
    ensures PhaseHashes(job, phase, base, attempts[|attempts|..], correction)
  {
  }

  /** The inner loop: each attempt of a phase is bound to its prompt, corrected by the code of an
      unknown candidate just before. */
  method MatchPhase(job: Job, phase: Phase, base: Messages, attempts: seq<Attempt>) returns (ok: bool)
    ensures ok <==> PhaseHashes(job, phase, base, attempts, None)
  {
    hide PhaseHashes;
    var correction: Option<Code> := None;
    assert attempts[0..] == attempts;
    for i := 0 to |attempts|
      invariant PhaseHashes(job, phase, base, attempts, None) <==> PhaseHashes(job, phase, base, attempts[i..], correction)
    {
      PhaseStep(job, phase, base, attempts, i, correction);
      var messages := if correction.Some? then Corrective(base, correction.value) else base;
      if attempts[i].request != AttemptKey(job.request, phase, messages, attempts[i].index) { return false; }
      correction := NextCorrection(attempts[i]);
    }
    PhaseEnds(job, phase, base, attempts, correction);
    ok := true;
  }

  /** What one turn of the outer loop makes of the attempts consumed so far. */
  function Consume(job: Job, attempts: seq<Attempt>, phase: Phase, prior: seq<Attempt>): Option<seq<Attempt>>
    requires |prior| <= |attempts|
    ensures Consume(job, attempts, phase, prior).Some? ==> |Consume(job, attempts, phase, prior).value| <= |attempts|
  {
    var block := OfPhase(attempts, phase);
    if block == [] then Some(prior)
    else if |prior| + |block| > |attempts| || attempts[|prior|..|prior| + |block|] != block then None
    else if !PhaseHashes(job, phase, job.VotePrompt(phase, prior), block, None) then None
    else Some(prior + block)
  }

  lemma ConsumeStep(job: Job, attempts: seq<Attempt>, phases: seq<Phase>, i: nat, prior: seq<Attempt>)
    requires i < |phases| && |prior| <= |attempts|
    ensures ConsumeVotes(job, attempts, phases[i..], prior) ==
            if Consume(job, attempts, phases[i], prior).None? then None
            else ConsumeVotes(job, attempts, phases[i + 1..], Consume(job, attempts, phases[i], prior).value)
  {
    hide PhaseHashes, OfPhase;
    assert phases[i..][0] == phases[i] && phases[i..][1..] == phases[i + 1..];
  }

  /** One turn of the outer loop. */
  method ConsumePhase(job: Job, attempts: seq<Attempt>, phase: Phase, prior: seq<Attempt>) returns (r: Option<seq<Attempt>>)
    requires |prior| <= |attempts|
    ensures r == Consume(job, attempts, phase, prior)
  {
    hide PhaseHashes, OfPhase;
    var block := OfPhase(attempts, phase);
    if block == [] { return Some(prior); }
    if |prior| + |block| > |attempts| || attempts[|prior|..|prior| + |block|] != block { return None; }
    var ok := MatchPhase(job, phase, job.VotePrompt(phase, prior), block);
    r := if ok then Some(prior + block) else None;
  }

  lemma AllConsumed(job: Job, attempts: seq<Attempt>, phases: seq<Phase>, prior: seq<Attempt>)
    requires |prior| <= |attempts|
    ensures ConsumeVotes(job, attempts, phases[|phases|..], prior) == Some(prior)
  {
  }

  /** `_attempt_request_hashes_match`: numbered attempts, then the vote phases as consecutive blocks in
      order, then at most a generation and its verification. */
  method AttemptRequestHashesMatch(job: Job, d: Record) returns (finding: Finding)
    ensures finding == HashesMatch(job, d)
  {
    hide PhaseHashes, OfPhase, Consume, ConsumeVotes, RepairHashes;
    if d.attempts == [] { return Match; }
    if !Numbered(d.attempts) { return Mismatch; }
    var prior: seq<Attempt> := [];
    var phases := VOTE_PHASES;
    assert phases[0..] == phases;
    for i := 0 to |phases|
      invariant |prior| <= |d.attempts|
      invariant ConsumeVotes(job, d.attempts, VOTE_PHASES, []) == ConsumeVotes(job, d.attempts, phases[i..], prior)
    {
      ConsumeStep(job, d.attempts, phases, i, prior);
      var next := ConsumePhase(job, d.attempts, phases[i], prior);
      if next.None? { return Mismatch; }
      prior := next.value;
    }
    AllConsumed(job, d.attempts, phases, prior);
    var remaining := d.attempts[|prior|..];
    finding := if remaining == [] then Match else RepairHashes(job, d, prior, remaining);
  }
}
