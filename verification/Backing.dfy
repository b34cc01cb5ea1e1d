/** Why a record may say "selected": what backs it, for fresh and for cached records. */
module Backing {
  import opened Common
  import opened Decisions
  import opened Ranking
  import opened Audit
  import opened DecisionProofs

  /** A vote for the selected candidate. */
  predicate VotesFor(a: Attempt, d: Record) {
    ValidVote(a) && d.selected.Some? && a.candidate == d.selected
  }

  /** An accepted attempt that carries the record's own confidence, at or above the threshold. */
  predicate Decisive(job: Job, a: Attempt, d: Record) {
    a.status == Accepted && VotesFor(a, d) && a.confidence == d.confidence && d.confidence >= job.policy.minConfidence
  }

  /** The primary vote decided. */
  predicate VoteBacking(job: Job, d: Record) {
    && Allows(job, d.selected) && d.attempts != [] && Last(d.attempts).phase == Primary && Decisive(job, Last(d.attempts), d)
  }

  /** A later vote decided after a low primary one, and a vote of another phase agrees with it. */
  ghost predicate ConsensusBacking(job: Job, d: Record) {
    && Allows(job, d.selected)
    && (exists low :: low in d.attempts && low.phase == Primary && low.status == LowConfidence)
    && exists agreeing, deciding :: agreeing in d.attempts && deciding in d.attempts
         && (deciding.phase == Recovery || deciding.phase == Tiebreak) && agreeing.phase != deciding.phase
         && VotesFor(agreeing, d) && Decisive(job, deciding, d)
  }

  /** Generation and verification both accepted the same defect-free generated candidate. */
  predicate GenerationBacking(job: Job, d: Record) {
    && d.generated.Some? && d.generated.value.Full? && |d.attempts| >= 2
    && var c, n := d.generated.value.candidate, |d.attempts|;
       && d.selected == Some(c.id) && job.lexicon.defects(c.text) == []
       && d.attempts[n - 2].phase == Generation && d.attempts[n - 1].phase == VerificationPhase
       && VotesFor(d.attempts[n - 2], d) && VotesFor(d.attempts[n - 1], d)
       && d.attempts[n - 2].confidence >= job.policy.minConfidence && d.attempts[n - 1].confidence >= job.policy.minConfidence
  }

  ghost predicate Backed(job: Job, d: Record) {
    DeterministicBacking(job, d) || VoteBacking(job, d) || ConsensusBacking(job, d) || GenerationBacking(job, d)
  }

  /** What the audit of a generated record leaves unchecked when its selected ID is an allowed
      one: that the selection is the generated candidate, and that this one has no defects. */
  predicate SelectsItsGenerated(job: Job, d: Record) {
    d.recovery == GeneratedRepair && d.generated.Some? && d.generated.value.Full? ==>
      d.selected == Some(d.generated.value.candidate.id) && job.lexicon.defects(d.generated.value.candidate.text) == []
  }

  lemma {:induction false} InPhase(attempts: seq<Attempt>, phase: Phase, a: Attempt)
    requires a in OfPhase(attempts, phase)
    ensures a in attempts && a.phase == phase
  {
    if a in OfPhase(attempts[1..], phase) { InPhase(attempts[1..], phase, a); }
  }

  lemma RecoveryIsBacked(job: Job, d: Record)
    requires d.agreed == d.selected && Allows(job, d.selected) && RecoveryAudit(job, d)
    ensures ConsensusBacking(job, d)
  {
    var low, second := Last(OfPhase(d.attempts, Primary)), Last(OfPhase(d.attempts, Recovery));
    InPhase(d.attempts, Primary, low);
    InPhase(d.attempts, Recovery, second);
    if d.consensus == SameCandidate {
      assert VotesFor(low, d) && Decisive(job, second, d);
    } else {
      var third := Last(OfPhase(d.attempts, Tiebreak));
      InPhase(d.attempts, Tiebreak, third);
      assert Decisive(job, third, d);
      assert VotesFor(low, d) || VotesFor(second, d);
    }
  }

  lemma GeneratedIsBacked(job: Job, d: Record)
    requires GeneratedAudit(job, d) && d.recovery == GeneratedRepair
    ensures Backed(job, d) <==> SelectsItsGenerated(job, d)
  {
    var n := |d.attempts|;
    assert d.attempts[n - 1].phase == VerificationPhase && d.attempts[n - 2].phase == Generation;
    forall a | a in d.attempts ensures a.phase != Recovery && a.phase != Tiebreak {
      var i :| 0 <= i < n && d.attempts[i] == a;
      if i < n - 2 { assert a == d.attempts[..n - 2][i]; }
    }
  }

  /** What passes the audit is backed, a generated record exactly when it selects its own
      defect-free candidate. */
  lemma AuditedIsBacked(job: Job, d: Record)
    requires d.outcome == Selected && SelectsCurrent(job, d) && OutcomeAudit(job, d)
    ensures Backed(job, d) <==> SelectsItsGenerated(job, d)
  {
    if d.recovery == GeneratedRepair {
      GeneratedIsBacked(job, d);
    } else if d.recovery == Recovered {
      RecoveryIsBacked(job, d);
    } else {
      assert Last(d.attempts) in d.attempts;
      assert VoteBacking(job, d);
    }
  }

  lemma CachedKeepsBacking(job: Job, d: Record)
    requires d.attempts != []
    ensures Backed(job, Cached(job.lexicon, d)) <==> Backed(job, d)
    ensures SelectsItsGenerated(job, Cached(job.lexicon, d)) <==> SelectsItsGenerated(job, d)
  {
  }
}
