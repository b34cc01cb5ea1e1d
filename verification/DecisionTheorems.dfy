/** The main results about `decide`: selections are backed, calls are accounted for, and a record
    accepted once is accepted again. */
module DecisionTheorems {
  import opened Common
  import opened Names
  import opened LlmService
  import opened Decisions
  import opened Ranking
  import opened Audit
  import opened Adjudication
  import opened VoteProofs
  import opened DecisionProofs
  import opened Backing

  // ---------- trusted records ----------

  lemma {:induction false} FoundMatches(job: Job, trusted: seq<Record>)
    requires FindTrusted(job, trusted).Found?
    ensures TrustedMatches(job, FindTrusted(job, trusted).record) == Match
  {
    var current := Materialize(job.lexicon, job.set_, trusted[0]);
    hide Materialize, TrustedMatches;
    if current.None? || TrustedMatches(job, current.value) == Mismatch {
      FoundMatches(job, trusted[1..]);
    }
  }

  lemma MatchMeans(job: Job, d: Record)
    requires TrustedMatches(job, d) == Match
    ensures SameRequest(job, d) && d.outcome == Selected && SelectsCurrent(job, d) && OutcomeAudit(job, d)
    ensures HashesMatch(job, d) == Match && d.id == DecisionIdOf(job.lexicon, d) && d.attempts != []
  {
    hide HashesMatch, SelectsCurrent;
    if d.recovery == GeneratedRepair { assert |d.attempts| >= 3; }
  }

  /** The hash audit looks only at the attempts and the generated candidate. */
  lemma HashesDependOn(job: Job, c: Record, d: Record)
    requires c.attempts == d.attempts && c.generated == d.generated
    ensures HashesMatch(job, c) == HashesMatch(job, d)
  {
    hide ConsumeVotes, GenerationScope, VerificationScope, ById, LastPrimaryVote, Numbered;
  }

  lemma CachedHashes(job: Job, d: Record)
    ensures HashesMatch(job, Cached(job.lexicon, d)) == HashesMatch(job, d)
  {
    hide HashesMatch;
    HashesDependOn(job, Cached(job.lexicon, d), d);
  }

  lemma CachedOutcome(job: Job, d: Record)
    requires OutcomeAudit(job, d)
    ensures OutcomeAudit(job, Cached(job.lexicon, d))
  {
    hide OfPhase, PhaseAudit, Dedupe, Phases;
  }

  /** A cached record is itself accepted again, and caching it again changes nothing. */
  lemma CachedMatchesAgain(job: Job, d: Record)
    requires TrustedMatches(job, d) == Match
    ensures TrustedMatches(job, Cached(job.lexicon, d)) == Match
    ensures Cached(job.lexicon, Cached(job.lexicon, d)) == Cached(job.lexicon, d)
  {
    MatchMeans(job, d);
    CachedHashes(job, d);
    CachedOutcome(job, d);
    hide HashesMatch, OutcomeAudit;
    var c := Cached(job.lexicon, d);
    assert SelectsCurrent(job, c) && SameRequest(job, c);
  }

  // ---------- backing ----------

  lemma FreshIsBacked(job: Job, d: Record, calls: nat)
    requires Settled(job, d, calls) && d.outcome == Selected
    ensures SelectsItsGenerated(job, d) && Backed(job, d)
  {
    hide TrustedMatches, HashesMatch, RecoveryAudit, PrimaryAudit;
    if d.recovery == GeneratedRepair {
      GeneratedIsBacked(job, d);
    } else if d.recovery == Recovered {
      RecoveryIsBacked(job, d);
    } else {
      PrimaryIsBacked(job, d);
    }
  }

  lemma PrimaryIsBacked(job: Job, d: Record)
    requires PrimaryAudit(job, d)
    ensures VoteBacking(job, d)
  {
    assert Last(d.attempts) in d.attempts;
  }

  lemma TrustedIsBacked(job: Job, d: Record)
    requires TrustedMatches(job, d) == Match
    ensures Backed(job, Cached(job.lexicon, d)) <==> SelectsItsGenerated(job, d)
  {
    hide TrustedMatches, HashesMatch, OutcomeAudit, SelectsCurrent, Backed, SelectsItsGenerated;
    MatchMeans(job, d);
    AuditedIsBacked(job, d);
    CachedKeepsBacking(job, d);
  }

  /** Every selected record is backed by a deterministic accept, a decisive vote, a consensus or a
      verified generation, whatever the provider does and whatever is trusted - except that a trusted
      generated record that is found has to select its own generated candidate, and this one to have
      no defects. */
  lemma SelectionsAreBacked(job: Job, trusted: seq<Record>, serve: Service, at: nat)
    requires Prepared(job)
    ensures var v, search := Decide(job, trusted, serve, at), FindTrusted(job, trusted);
            v.Decided? && v.record.outcome == Selected ==>
              (Backed(job, v.record) <==>
                 (Deterministic(job).None? && search.Found? ==> SelectsItsGenerated(job, search.record)))
  {
    hide Deterministic, FindTrusted, Consult, Backed, SelectsItsGenerated, TrustedMatches, DeferredRecord, Cached, Settled,
      DeterministicBacking;
    var deterministic := Deterministic(job);
    if deterministic.Some? {
      DeterministicIsBacked(job);
      DeterministicBacked(job, deterministic.value);
    } else if FindTrusted(job, trusted).Found? {
      FoundMatches(job, trusted);
      TrustedIsBacked(job, FindTrusted(job, trusted).record);
    } else if !job.online {
      DeferredSettled(job, [], [LLM_PROVIDER_UNAVAILABLE]);
    } else if FindTrusted(job, trusted).NotFound? {
      ConsultSettled(job, serve, at);
      var v := Consult(job, serve, at);
      if v.Decided? && v.record.outcome == Selected { FreshIsBacked(job, v.record, v.calls); }
    }
  }

  /** Every trusted record, as far as it materializes for the job, selects its own defect-free
      generated candidate if it claims to be a generated repair. */
  predicate SelectsOwn(job: Job, trusted: seq<Record>) {
    forall t :: t in trusted ==>
      var current := Materialize(job.lexicon, job.set_, t);
      current.Some? ==> SelectsItsGenerated(job, current.value)
  }

  lemma {:induction false} FoundIsTrusted(job: Job, trusted: seq<Record>)
    requires FindTrusted(job, trusted).Found?
    ensures exists t :: t in trusted && Materialize(job.lexicon, job.set_, t) == Some(FindTrusted(job, trusted).record)
  {
    hide Materialize, TrustedMatches;
    var current := Materialize(job.lexicon, job.set_, trusted[0]);
    if current.None? || TrustedMatches(job, current.value) == Mismatch {
      FoundIsTrusted(job, trusted[1..]);
      var t :| t in trusted[1..] && Materialize(job.lexicon, job.set_, t) == Some(FindTrusted(job, trusted).record);
      assert t in trusted;
    } else {
      assert trusted[0] in trusted;
    }
  }

  /** Over such a list, every selected record is backed. */
  lemma OwnSelectionsAreBacked(job: Job, trusted: seq<Record>, serve: Service, at: nat)
    requires Prepared(job) && SelectsOwn(job, trusted)
    ensures var v := Decide(job, trusted, serve, at);
            v.Decided? && v.record.outcome == Selected ==> Backed(job, v.record)
  {
    hide Prepared, Decide, Backed, Materialize, FindTrusted, SelectsItsGenerated;
    SelectionsAreBacked(job, trusted, serve, at);
    if FindTrusted(job, trusted).Found? { FoundIsTrusted(job, trusted); }
  }

  lemma DeterministicBacked(job: Job, d: Record)
    requires DeterministicBacking(job, d)
    ensures Backed(job, d) && d.origin != FromCache
  {
  }

  lemma CachedOrigin(job: Job, d: Record)
    ensures Cached(job.lexicon, d).origin == FromCache && ModelCalls(Cached(job.lexicon, d)) == 0
  {
  }

  lemma FreshOrigin(job: Job, d: Record, calls: nat)
    requires Settled(job, d, calls)
    ensures d.origin != FromCache && ModelCalls(d) == calls && BoundedRecord(d) && SameRequest(job, d)
  {
  }

  // ---------- accounting ----------

  /** The provider calls made inside one `decide` are the model calls its record reports, and
      every record that does not come from the trusted list is within the bounds of its model. */
  lemma CallsAreAccountedFor(job: Job, trusted: seq<Record>, serve: Service, at: nat)
    requires Prepared(job)
    ensures var v := Decide(job, trusted, serve, at);
            v.Decided? ==> v.calls == ModelCalls(v.record) && (v.record.origin != FromCache ==> BoundedRecord(v.record))
  {
    hide Deterministic, FindTrusted, Consult, ModelCalls, BoundedRecord, DeferredRecord, Cached, Settled, SameRequest;
    var deterministic := Deterministic(job);
    if deterministic.Some? {
      DeterministicBounded(job);
    } else if FindTrusted(job, trusted).Found? {
      CachedOrigin(job, FindTrusted(job, trusted).record);
    } else if !job.online {
      DeferredSettled(job, [], [LLM_PROVIDER_UNAVAILABLE]);
      assert CallsOf([]) == 0;
      FreshOrigin(job, DeferredRecord(job, [], [LLM_PROVIDER_UNAVAILABLE]), 0);
    } else if FindTrusted(job, trusted).NotFound? {
      ConsultSettled(job, serve, at);
      var v := Consult(job, serve, at);
      if v.Decided? { FreshOrigin(job, v.record, v.calls); }
    }
  }
}
