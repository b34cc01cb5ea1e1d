/** The machine against its auditor: every selected record the model path returns passes the
    audit - a generated one exactly when the whole set shares its characters or its ID is an
    allowed one - and a cached record passes again. */
module AuditProofs {
  import opened Common
  import opened Names
  import opened Candidates
  import opened Decisions
  import opened Ranking
  import opened Audit
  import opened Adjudication
  import opened VoteProofs

  // ---------- phases of concatenations ----------

  lemma {:induction false} OfPhaseConcat(a: seq<Attempt>, b: seq<Attempt>, phase: Phase)
    ensures OfPhase(a + b, phase) == OfPhase(a, phase) + OfPhase(b, phase)
  {
    if a == [] {
      assert a + b == b;
    } else {
      OfPhaseConcat(a[1..], b, phase);
      var head := if a[0].phase == phase then [a[0]] else [];
      var all := a + b;
      assert all[0] == a[0] && all[1..] == a[1..] + b;
      assert OfPhase(all, phase) == head + OfPhase(all[1..], phase);
      ConcatAssociates(head, OfPhase(a[1..], phase), OfPhase(b, phase));
    }
  }

  lemma {:induction false} OfPhaseUniform(a: seq<Attempt>, own: Phase, phase: Phase)
    requires AllOf(a, own)
    ensures OfPhase(a, phase) == if own == phase then a else []
  {
    if a != [] {
      assert a[0] in a;
      OfPhaseUniform(a[1..], own, phase);
      assert a == [a[0]] + a[1..];
    }
  }

  /** The vote blocks of the machine, each of its own phase, and what follows them. */
  predicate Blocks(p: seq<Attempt>, r: seq<Attempt>, t: seq<Attempt>, tail: seq<Attempt>) {
    && p != [] && AllOf(p, Primary) && AllOf(r, Recovery) && AllOf(t, Tiebreak) && (t != [] ==> r != [])
    && forall a :: a in tail ==> a.phase == Generation || a.phase == VerificationPhase
  }

  lemma {:induction false} NoVotes(tail: seq<Attempt>, phase: Phase)
    requires forall a :: a in tail ==> a.phase == Generation || a.phase == VerificationPhase
    requires phase == Primary || phase == Recovery || phase == Tiebreak
    ensures OfPhase(tail, phase) == []
  {
    if tail != [] {
      assert tail[0] in tail;
      NoVotes(tail[1..], phase);
    }
  }

  lemma BlocksByPhase(p: seq<Attempt>, r: seq<Attempt>, t: seq<Attempt>, tail: seq<Attempt>)
    requires Blocks(p, r, t, tail)
    ensures OfPhase(p + r + t + tail, Primary) == p
    ensures OfPhase(p + r + t + tail, Recovery) == r
    ensures OfPhase(p + r + t + tail, Tiebreak) == t
  {
    BlocksOf(p, r, t, tail, Primary);
    BlocksOf(p, r, t, tail, Recovery);
    BlocksOf(p, r, t, tail, Tiebreak);
  }

  lemma BlocksOf(p: seq<Attempt>, r: seq<Attempt>, t: seq<Attempt>, tail: seq<Attempt>, phase: Phase)
    requires Blocks(p, r, t, tail) && (phase == Primary || phase == Recovery || phase == Tiebreak)
    ensures OfPhase(p + r + t + tail, phase) == if phase == Primary then p else if phase == Recovery then r else t
  {
    hide OfPhase;
    OfPhaseConcat(p + r + t, tail, phase);
    OfPhaseConcat(p + r, t, phase);
    OfPhaseConcat(p, r, phase);
    OfPhaseUniform(p, Primary, phase);
    OfPhaseUniform(r, Recovery, phase);
    OfPhaseUniform(t, Tiebreak, phase);
    NoVotes(tail, phase);
  }

  /** A phase's block that follows what was consumed, correctly bound, is consumed next. */
  lemma ConsumeBlock(job: Job, all: seq<Attempt>, phase: Phase, rest: seq<Phase>, prior: seq<Attempt>, block: seq<Attempt>)
    requires |prior| + |block| <= |all| && all[|prior|..|prior| + |block|] == block && OfPhase(all, phase) == block
    requires block != [] ==> PhaseHashes(job, phase, job.VotePrompt(phase, prior), block, None)
    ensures ConsumeVotes(job, all, [phase] + rest, prior) == ConsumeVotes(job, all, rest, prior + block)
  {
    assert ([phase] + rest)[1..] == rest;
    if block == [] { assert prior + block == prior; }
  }

  lemma ConsumeNothing(job: Job, all: seq<Attempt>, prior: seq<Attempt>)
    requires |prior| <= |all|
    ensures ConsumeVotes(job, all, [], prior) == Some(prior)
  {
  }

  /** Correctly bound blocks are consumed in order, whatever follows them. */
  lemma BlocksConsumed(job: Job, p: seq<Attempt>, r: seq<Attempt>, t: seq<Attempt>, tail: seq<Attempt>)
    requires Blocks(p, r, t, tail)
    requires PhaseHashes(job, Primary, job.VotePrompt(Primary, []), p, None)
    requires r != [] ==> PhaseHashes(job, Recovery, job.VotePrompt(Recovery, p), r, None)
    requires t != [] ==> PhaseHashes(job, Tiebreak, job.VotePrompt(Tiebreak, p + r), t, None)
    ensures ConsumeVotes(job, p + r + t + tail, VOTE_PHASES, []) == Some(p + r + t)
  {
    hide PhaseHashes, OfPhase, ConsumeVotes, Blocks;
    var all := p + r + t + tail;
    BlocksByPhase(p, r, t, tail);
    assert all[..|p|] == p && all[|p|..|p + r|] == r && all[|p + r|..|p + r + t|] == t;
    ConsumeBlock(job, all, Primary, [Recovery, Tiebreak], [], p);
    ConsumeBlock(job, all, Recovery, [Tiebreak], p, r);
    ConsumeBlock(job, all, Tiebreak, [], p + r, t);
    ConsumeNothing(job, all, p + r + t);
    assert [] + p == p;
    assert [Primary] + [Recovery, Tiebreak] == VOTE_PHASES && [Recovery] + [Tiebreak] == [Recovery, Tiebreak] && [Tiebreak] + [] == [Tiebreak];
  }

  lemma VotesMatch(job: Job, d: Record, p: seq<Attempt>, r: seq<Attempt>, t: seq<Attempt>)
    requires Blocks(p, r, t, []) && d.attempts == p + r + t && Numbered(d.attempts)
    requires PhaseHashes(job, Primary, job.VotePrompt(Primary, []), p, None)
    requires r != [] ==> PhaseHashes(job, Recovery, job.VotePrompt(Recovery, p), r, None)
    requires t != [] ==> PhaseHashes(job, Tiebreak, job.VotePrompt(Tiebreak, p + r), t, None)
    ensures HashesMatch(job, d) == Match
  {
    BlocksConsumed(job, p, r, t, []);
    assert p + r + t + [] == p + r + t;
    assert d.attempts[|p + r + t|..] == [];
  }

  // ---------- sealed records ----------

  /** A fresh record is about the job it was made for. */
  predicate Fresh(job: Job, d: Record) {
    SameRequest(job, d) && d.id == DecisionIdOf(job.lexicon, d) && CountsAddUp(d)
  }

  lemma AuditPasses(job: Job, d: Record)
    requires Fresh(job, d) && d.outcome == Selected
    requires SelectsCurrent(job, d) && HashesMatch(job, d) == Match && OutcomeAudit(job, d)
    ensures TrustedMatches(job, d) == Match
  {
  }

  // ---------- the three model paths ----------

  lemma PrimaryPasses(job: Job, d: Record, r: VoteResult)
    requires PhaseBlock(job, Primary, [], r) && r.choice.Some? && r.choice.value.confidence >= job.policy.minConfidence
    requires Fresh(job, d) && d.outcome == Selected && d.origin == FromModel && d.attempts == r.attempts
    requires d.selected == Some(r.choice.value.candidate) && d.confidence == r.choice.value.confidence && d.codes == []
    requires d.recovery == NotNeeded && d.consensus == NoConsensus && d.recoveries == 0
    ensures TrustedMatches(job, d) == Match
  {
    hide HashesMatch, PhaseHashes, TrustedMatches, DecisionIdOf, RetrySum, RepairSum;
    assert r.attempts + [] + [] == r.attempts;
    VotesMatch(job, d, r.attempts, [], []);
    AuditPasses(job, d);
  }

  // ---------- recovery ----------

  function Repeat(phase: Phase, n: nat): seq<Phase> {
    if n == 0 then [] else [phase] + Repeat(phase, n - 1)
  }

  lemma {:induction false} PhasesConcat(a: seq<Attempt>, b: seq<Attempt>)
    ensures Phases(a + b) == Phases(a) + Phases(b)
  {
    if a == [] {
      assert a + b == b;
    } else {
      PhasesConcat(a[1..], b);
      assert (a + b)[0] == a[0] && (a + b)[1..] == a[1..] + b;
      ConcatAssociates([a[0].phase], Phases(a[1..]), Phases(b));
    }
  }

  lemma {:induction false} PhasesUniform(a: seq<Attempt>, phase: Phase)
    requires AllOf(a, phase)
    ensures Phases(a) == Repeat(phase, |a|)
  {
    if a != [] {
      assert a[0] in a;
      PhasesUniform(a[1..], phase);
    }
  }

  lemma DedupeAppend(before: seq<Phase>, phase: Phase)
    ensures Dedupe(before + [phase]) == if phase in before then Dedupe(before) else Dedupe(before) + [phase]
  {
    var all := before + [phase];
    assert all[..|all| - 1] == before && all[|all| - 1] == phase;
  }

  lemma {:induction false} DedupeBlock(before: seq<Phase>, n: nat, phase: Phase)
    ensures Dedupe(before + Repeat(phase, n)) ==
            if n == 0 || phase in before then Dedupe(before) else Dedupe(before) + [phase]
    decreases n
  {
    hide Dedupe;
    if n == 0 {
      assert before + [] == before;
    } else {
      DedupeAppend(before, phase);
      ConcatAssociates(before, [phase], Repeat(phase, n - 1));
      assert phase in before + [phase];
      DedupeBlock(before + [phase], n - 1, phase);
    }
  }

  lemma {:induction false} InRepeat(phase: Phase, n: nat, other: Phase)
    ensures other in Repeat(phase, n) ==> other == phase
  {
    if n > 0 { InRepeat(phase, n - 1, other); }
  }

  lemma PhasesOfBlocks(p: seq<Attempt>, r: seq<Attempt>, t: seq<Attempt>)
    requires Blocks(p, r, t, []) && r != []
    ensures Dedupe(Phases(p + r + t)) == if t == [] then [Primary, Recovery] else VOTE_PHASES
  {
    hide Dedupe, Phases, Repeat;
    var ps, rs, ts := Repeat(Primary, |p|), Repeat(Recovery, |r|), Repeat(Tiebreak, |t|);
    PhasesConcat(p + r, t);
    PhasesConcat(p, r);
    PhasesUniform(p, Primary);
    PhasesUniform(r, Recovery);
    PhasesUniform(t, Tiebreak);
    DedupeNone();
    assert [] + ps == ps;
    DedupeBlock([], |p|, Primary);
    InRepeat(Primary, |p|, Recovery);
    DedupeBlock(ps, |r|, Recovery);
    InRepeat(Primary, |p|, Tiebreak);
    InRepeat(Recovery, |r|, Tiebreak);
    DedupeBlock(ps + rs, |t|, Tiebreak);
  }

  lemma DedupeNone()
    ensures Dedupe<Phase>([]) == []
  {
  }

  lemma {:induction false} BoundByIndex(job: Job, phase: Phase, base: Messages, attempts: seq<Attempt>, correction: Option<Code>)
    requires PhaseHashes(job, phase, base, attempts, correction)
    ensures forall i :: 0 <= i < |attempts| ==> attempts[i].request.index == attempts[i].index
  {
    if attempts != [] {
      var a := attempts[0];
      BoundByIndex(job, phase, base, attempts[1..],
        if a.status == CandidateUnknown && a.codes != [] then Some(a.codes[|a.codes| - 1]) else None);
      forall i | 0 < i < |attempts| ensures attempts[i].request.index == attempts[i].index {
        assert attempts[i] == attempts[1..][i - 1];
      }
    }
  }

  lemma VotedPhaseAudits(job: Job, phase: Phase, prior: seq<Attempt>, r: VoteResult)
    requires PhaseBlock(job, phase, prior, r) && r.choice.Some?
    ensures PhaseAudit(job, r.attempts) && Last(r.attempts).candidate == Some(r.choice.value.candidate)
    ensures Last(r.attempts).confidence == r.choice.value.confidence
    ensures Last(r.attempts).status == Accepted <==> r.choice.value.confidence >= job.policy.minConfidence
    ensures Last(r.attempts).status == Accepted || Last(r.attempts).status == LowConfidence
  {
  }

  /** Primary, recovery and possibly tiebreak results, as the machine chains them. */
  ghost predicate Chained(job: Job, p: VoteResult, r: VoteResult, t: VoteResult) {
    && PhaseBlock(job, Primary, [], p) && p.choice.Some? && p.choice.value.confidence < job.policy.minConfidence
    && PhaseBlock(job, Recovery, p.attempts, r) && r.choice.Some? && r.choice.value.confidence >= job.policy.minConfidence
    && (t.attempts != [] ==> PhaseBlock(job, Tiebreak, p.attempts + r.attempts, t) && t.choice.Some?)
  }

  lemma ChainedBlocks(job: Job, p: VoteResult, r: VoteResult, t: VoteResult)
    requires Chained(job, p, r, t)
    ensures Blocks(p.attempts, r.attempts, t.attempts, [])
    ensures var all := p.attempts + r.attempts + t.attempts; Numbered(all) && DistinctRequests(all)
  {
    var all := p.attempts + r.attempts + t.attempts;
    BoundByIndex(job, Primary, job.VotePrompt(Primary, []), p.attempts, None);
    BoundByIndex(job, Recovery, job.VotePrompt(Recovery, p.attempts), r.attempts, None);
    if t.attempts != [] {
      BoundByIndex(job, Tiebreak, job.VotePrompt(Tiebreak, p.attempts + r.attempts), t.attempts, None);
    }
    forall i | 0 <= i < |all| ensures all[i].index == i + 1 && all[i].request.index == i + 1 {
      var m, n := |p.attempts|, |p.attempts| + |r.attempts|;
      if i < m { assert all[i] == p.attempts[i]; }
      else if i < n { assert all[i] == r.attempts[i - m]; }
      else { assert all[i] == t.attempts[i - n]; }
    }
  }

  lemma RecoveredPasses(job: Job, d: Record, p: VoteResult, r: VoteResult, t: VoteResult)
    requires Chained(job, p, r, t)
    requires Fresh(job, d) && d.outcome == Selected && d.attempts == p.attempts + r.attempts + t.attempts
    requires d.recovery == Recovered && d.codes == [LLM_LOW_CONFIDENCE_RECOVERED] && d.agreed == d.selected
    requires if t.attempts == [] then
               && d.consensus == SameCandidate && d.recoveries == 1 && p.choice.value.candidate == r.choice.value.candidate
               && d.selected == Some(r.choice.value.candidate) && d.confidence == r.choice.value.confidence
             else
               && d.consensus == TwoOfThree && d.recoveries == 2 && p.choice.value.candidate != r.choice.value.candidate
               && t.choice.value.confidence >= job.policy.minConfidence
               && d.selected == Some(t.choice.value.candidate) && d.confidence == t.choice.value.confidence
               && var (majority, count) := Majority(p.choice.value.candidate, r.choice.value.candidate, t.choice.value.candidate);
                  count >= 2 && majority == t.choice.value.candidate
    ensures TrustedMatches(job, d) == Match
  {
    hide HashesMatch, PhaseHashes, Dedupe, Phases, OfPhase, DecisionIdOf, RetrySum, RepairSum, TrustedMatches, Blocks, PhaseAudit, NumberedFrom,
      AllUnknown;
    ChainedBlocks(job, p, r, t);
    VotesMatch(job, d, p.attempts, r.attempts, t.attempts);
    assert p.attempts + r.attempts + t.attempts + [] == d.attempts;
    BlocksByPhase(p.attempts, r.attempts, t.attempts, []);
    PhasesOfBlocks(p.attempts, r.attempts, t.attempts);
    VotedPhaseAudits(job, Primary, [], p);
    VotedPhaseAudits(job, Recovery, p.attempts, r);
    if t.attempts != [] { VotedPhaseAudits(job, Tiebreak, p.attempts + r.attempts, t); }
    assert RecoveryAudit(job, d);
    AuditPasses(job, d);
  }

  // ---------- generation and verification ----------

  /** The two attempts of a spacing repair that ended in a selection. */
  ghost predicate RepairDone(job: Job, p: VoteResult, anchor: SpacedCandidate, generated: SpacedCandidate, g: Attempt, v: Attempt) {
    var n := |p.attempts|;
    && PhaseBlock(job, Primary, [], p) && p.choice.Some? && ById(job.considered, p.choice.value.candidate) == Some(anchor)
    && GenerationScope(job.set_, job.considered, anchor) && VerificationScope(job.set_, job.considered, generated)
    && job.lexicon.defects(generated.text) == []
    && g.index == n + 1 && g.phase == Generation
    && g.request == AttemptKey(job.request, Generation, GenerationMessages(job.set_, job.considered, anchor), n + 1)
    && v.index == n + 2 && v.phase == VerificationPhase
    && v.request == AttemptKey(job.request, VerificationPhase, VerificationMessages(job.set_, job.considered, generated), n + 2)
    && (forall a :: a == g || a == v ==>
          a.status == Accepted && a.candidate == Some(generated.id) && a.confidence >= job.policy.minConfidence && a.codes == [])
  }

  lemma RepairTailMatches(job: Job, d: Record, p: VoteResult, anchor: SpacedCandidate, generated: SpacedCandidate, g: Attempt, v: Attempt)
    requires RepairDone(job, p, anchor, generated, g, v) && d.generated == Some(Full(generated))
    ensures RepairHashes(job, d, p.attempts, [g, v]) == Match
  {
    var last := p.attempts[|p.attempts| - 1];
    assert last in p.attempts && last.phase == Primary;
    assert forall c :: c in job.considered ==> c.SpacingCandidate?;
  }

  /** Votes followed by a matching tail. */
  lemma TailMatches(job: Job, d: Record, p: seq<Attempt>, tail: seq<Attempt>)
    requires Blocks(p, [], [], tail) && tail != [] && d.attempts == p + tail && Numbered(d.attempts)
    requires PhaseHashes(job, Primary, job.VotePrompt(Primary, []), p, None)
    ensures HashesMatch(job, d) == RepairHashes(job, d, p, tail)
  {
    hide PhaseHashes, RepairHashes, ConsumeVotes, Blocks;
    BlocksConsumed(job, p, [], [], tail);
    assert p + [] + [] == p;
    assert d.attempts[|p|..] == tail;
  }

  lemma RepairHashesMatch(job: Job, d: Record, p: VoteResult, anchor: SpacedCandidate, generated: SpacedCandidate, g: Attempt, v: Attempt)
    requires RepairDone(job, p, anchor, generated, g, v)
    requires d.attempts == p.attempts + [g, v] && d.generated == Some(Full(generated))
    ensures HashesMatch(job, d) == Match
  {
    hide PhaseHashes, RepairHashes, HashesMatch, GenerationScope, VerificationScope;
    RepairTailMatches(job, d, p, anchor, generated, g, v);
    assert Numbered(d.attempts) by {
      assert forall i :: 0 <= i < |p.attempts| ==> d.attempts[i] == p.attempts[i];
    }
    TailMatches(job, d, p.attempts, [g, v]);
  }

  lemma GeneratedAuditPasses(job: Job, d: Record, p: VoteResult, anchor: SpacedCandidate, generated: SpacedCandidate, g: Attempt, v: Attempt)
    requires RepairDone(job, p, anchor, generated, g, v)
    requires d.attempts == p.attempts + [g, v] && d.generated == Some(Full(generated)) && d.origin == FromGenerated
    requires d.confidence == (if v.confidence < g.confidence then v.confidence else g.confidence)
    requires d.codes == [LLM_SPACING_REPAIR_APPLIED] && CountsAddUp(d)
    ensures GeneratedAudit(job, d)
  {
    var n := |d.attempts|;
    assert d.attempts[..n - 2] == p.attempts;
    assert d.attempts[n - 3] == p.attempts[|p.attempts| - 1];
    assert d.attempts[n - 2] == g && d.attempts[n - 1] == v;
    assert d.attempts[..n - 2][..n - 3] == p.attempts[..|p.attempts| - 1];
  }

  /** A generated record passes exactly when the whole set - not only the considered candidates -
      shares its characters and mutable boundaries, or its ID is an allowed one anyway. */
  lemma GeneratedPasses(job: Job, d: Record, p: VoteResult, anchor: SpacedCandidate, generated: SpacedCandidate, g: Attempt, v: Attempt)
    requires RepairDone(job, p, anchor, generated, g, v)
    requires Fresh(job, d) && d.outcome == Selected && d.recovery == GeneratedRepair && d.origin == FromGenerated
    requires d.attempts == p.attempts + [g, v] && d.generated == Some(Full(generated)) && d.selected == Some(generated.id)
    requires d.confidence == (if v.confidence < g.confidence then v.confidence else g.confidence)
    requires d.codes == [LLM_SPACING_REPAIR_APPLIED]
    ensures TrustedMatches(job, d) ==
            if SharedBySet(job.set_, generated) || generated.id in job.allowed then Match else Mismatch
  {
    RepairHashesMatch(job, d, p, anchor, generated, g, v);
    GeneratedAuditPasses(job, d, p, anchor, generated, g, v);
    assert OutcomeAudit(job, d);
    assert SelectsCurrent(job, d) <==> SharedBySet(job.set_, generated) || generated.id in job.allowed;
  }
}
