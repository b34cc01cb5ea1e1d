/** Runs over several candidate sets, and their replay from the records they left. */
module Replay {
  import opened Common
  import opened Names
  import opened Candidates
  import opened LlmService
  import opened Decisions
  import opened Ranking
  import opened Audit
  import opened Adjudication
  import opened DecisionProofs
  import opened DecisionTheorems

  predicate DistinctSets(jobs: seq<Job>) {
    forall i, j :: 0 <= i < j < |jobs| ==> jobs[i].set_.id != jobs[j].set_.id
  }

  ghost predicate AllPrepared(jobs: seq<Job>) {
    forall i :: 0 <= i < |jobs| ==> Prepared(jobs[i])
  }

  datatype RunResult = RunResult(records: seq<Record>, calls: nat)

  /** Deciding one set after the other with one adjudicator; nothing when a decision raises. */
  ghost function Run(jobs: seq<Job>, trusted: seq<Record>, serve: Service, at: nat): Option<RunResult>
    requires AllPrepared(jobs)
  {
    if jobs == [] then Some(RunResult([], 0))
    else
      match Decide(jobs[0], trusted, serve, at)
      case Aborted(_) => None
      case Decided(d, calls) =>
        var rest := Run(jobs[1..], trusted, serve, at + calls);
        if rest.None? then None else Some(RunResult([d] + rest.value.records, calls + rest.value.calls))
  }

  // ---------- finding one's own record ----------

  lemma ForeignMismatches(job: Job, t: Record)
    requires t.setId != job.set_.id
    ensures Materialize(job.lexicon, job.set_, t).None?
            || TrustedMatches(job, Materialize(job.lexicon, job.set_, t).value) == Mismatch
  {
    hide Rebuild, SelectsCurrent, HashesMatch;
  }

  /** The trusted record materializes to `r`, and `r` passes the audit. */
  predicate Vouches(job: Job, t: Record, r: Record) {
    Materialize(job.lexicon, job.set_, t) == Some(r) && TrustedMatches(job, r) == Match
  }

  lemma {:induction false} FindsOwn(job: Job, trusted: seq<Record>, k: nat, r: Record)
    requires k < |trusted| && Vouches(job, trusted[k], r)
    requires forall j :: 0 <= j < k ==> trusted[j].setId != job.set_.id
    ensures FindTrusted(job, trusted) == Found(r)
  {
    hide Materialize, TrustedMatches;
    if k > 0 {
      ForeignMismatches(job, trusted[0]);
      FindsOwn(job, trusted[1..], k - 1, r);
    }
  }

  /** What replaying gives for a job and the record trusted for it. */
  function Replayed(job: Job, d: Record): Record {
    if d.origin == FromDeterministic then d else Cached(job.lexicon, d)
  }

  /** Each job is decided deterministically, by the record given for it, or a trusted record
      vouches for that record. */
  ghost predicate Covered(jobs: seq<Job>, trusted: seq<Record>, records: seq<Record>) {
    && |jobs| == |trusted| == |records|
    && (forall i :: 0 <= i < |jobs| ==> trusted[i].setId == jobs[i].set_.id)
    && forall i :: 0 <= i < |jobs| ==> CoveredBy(jobs[i], trusted[i], records[i])
  }

  ghost predicate CoveredBy(job: Job, t: Record, d: Record)
  {
    if job.considered != [] && Deterministic(job).Some? then d == Deterministic(job).value && d.origin == FromDeterministic
    else d.origin != FromDeterministic && Vouches(job, t, d)
  }

  lemma ReplayOne(jobs: seq<Job>, trusted: seq<Record>, records: seq<Record>, k: nat, serve: Service, at: nat)
    requires k < |jobs| && AllPrepared(jobs) && DistinctSets(jobs) && Covered(jobs, trusted, records)
    ensures Decide(jobs[k], trusted, serve, at) == Decided(Replayed(jobs[k], records[k]), 0)
  {
    hide Vouches, Deterministic, FindTrusted, Consult, Prepared;
    assert CoveredBy(jobs[k], trusted[k], records[k]);
    NotEmpty(jobs[k]);
    if Deterministic(jobs[k]).None? {
      FindsOwn(jobs[k], trusted, k, records[k]);
    }
  }

  function Replays(jobs: seq<Job>, records: seq<Record>): (r: seq<Record>)
    requires |jobs| == |records|
    ensures |r| == |jobs|
  {
    if jobs == [] then [] else [Replayed(jobs[0], records[0])] + Replays(jobs[1..], records[1..])
  }

  lemma {:induction false} ReplayFrom(jobs: seq<Job>, trusted: seq<Record>, records: seq<Record>, k: nat, serve: Service, at: nat)
    requires k <= |jobs| && AllPrepared(jobs) && DistinctSets(jobs) && Covered(jobs, trusted, records)
    ensures Run(jobs[k..], trusted, serve, at) == Some(RunResult(Replays(jobs[k..], records[k..]), 0))
    decreases |jobs| - k
  {
    if k < |jobs| {
      ReplayOne(jobs, trusted, records, k, serve, at);
      ReplayFrom(jobs, trusted, records, k + 1, serve, at);
      hide Decide, Replayed, Prepared, CoveredBy;
      assert jobs[k..][0] == jobs[k] && jobs[k..][1..] == jobs[k + 1..];
      assert records[k..][0] == records[k] && records[k..][1..] == records[k + 1..];
    }
  }

  // ---------- a cold run covers its replay ----------

  /** How a cold run decided one job. */
  ghost predicate ColdRecord(job: Job, d: Record) {
    d.outcome == Selected &&
    if job.considered != [] && Deterministic(job).Some? then d == Deterministic(job).value
    else exists calls :: Settled(job, d, calls)
  }

  lemma ColdDecision(job: Job, serve: Service, at: nat)
    requires Prepared(job)
    ensures var v := Decide(job, [], serve, at);
            v.Decided? && v.record.outcome == Selected ==> ColdRecord(job, v.record)
  {
    hide Deterministic, Consult, Settled, DeferredRecord;
    if Deterministic(job).None? {
      if job.online {
        ConsultSettled(job, serve, at);
      } else {
        DeferredSettled(job, [], [LLM_PROVIDER_UNAVAILABLE]);
      }
    }
  }

  lemma {:induction false} ColdRun(jobs: seq<Job>, serve: Service, at: nat, k: nat)
    requires AllPrepared(jobs) && Run(jobs, [], serve, at).Some? && k < |jobs|
    ensures var records := Run(jobs, [], serve, at).value.records;
            |records| == |jobs| && (records[k].outcome == Selected ==> ColdRecord(jobs[k], records[k]))
  {
    hide Decide, ColdRecord, Prepared;
    NotEmpty(jobs[0]);
    ColdLength(jobs, serve, at);
    if k == 0 {
      ColdDecision(jobs[0], serve, at);
    } else {
      ColdRun(jobs[1..], serve, at + Decide(jobs[0], [], serve, at).calls, k - 1);
      assert jobs[1..][k - 1] == jobs[k];
    }
  }

  lemma {:induction false} ColdLength(jobs: seq<Job>, serve: Service, at: nat)
    requires AllPrepared(jobs) && Run(jobs, [], serve, at).Some?
    ensures |Run(jobs, [], serve, at).value.records| == |jobs|
  {
    hide Decide, Prepared;
    if jobs != [] {
      NotEmpty(jobs[0]);
      ColdLength(jobs[1..], serve, at + Decide(jobs[0], [], serve, at).calls);
    }
  }

  /** What may be stored of a record: all of it, or its diagnostic snapshot. */
  predicate Stored(job: Job, t: Record, d: Record) {
    t == d || t == Diagnostic(job.lexicon, d)
  }

  /** What lets the stored form of a fresh record vouch for it: a generated candidate is shared by the
      whole set, or it has an allowed ID - and, as a snapshot, at least the characters of the set. */
  predicate Replayable(job: Job, t: Record, d: Record) {
    d.recovery == GeneratedRepair && d.generated.Some? && d.generated.value.Full? ==>
      var c := d.generated.value.candidate;
      SharedBySet(job.set_, c) || (c.id in job.allowed && (t == d || SharesCharacters(job.set_, c)))
  }

  /** A snapshot materializes to the record it was taken of only for a set that has its characters. */
  lemma MaterializesOnlyShared(job: Job, d: Record)
    requires Prepared(job) && job.set_.decision == SpacingType && d.generated.Some? && d.generated.value.Full?
    requires Materialize(job.lexicon, job.set_, Diagnostic(job.lexicon, d)) == Some(d)
    ensures SharesCharacters(job.set_, d.generated.value.candidate)
  {
    AllSpacing(job);
    hide Prepared, Rebuild, SpacingOnly, ValidSpacing;
    var set_ := job.set_.candidates;
    RebuiltCharacters(job.lexicon, SnapshotOf(job.lexicon, d.generated.value.candidate), set_[0].chars);
  }

  lemma AllSpacing(job: Job)
    requires Prepared(job) && job.set_.decision == SpacingType
    ensures SpacingOnly(job.set_.candidates) == job.set_.candidates != []
    ensures forall c :: c in job.set_.candidates ==> c.SpacingCandidate?
    ensures job.set_.candidates[0].SpacingCandidate?
  {
    hide ValidCandidate;
    assert job.set_.candidates[0] in job.set_.candidates;
  }

  lemma RebuiltCharacters(lexicon: Lexicon, g: Generated, chars: string)
    requires g.Snapshot?
    ensures var rebuilt := Rebuild(lexicon, g, chars);
            rebuilt.Some? ==> rebuilt.value.Full? && rebuilt.value.candidate.chars == chars
  {
    hide ValidSpacing;
  }

  /** Exactly then the stored form vouches for the record. */
  lemma StoredVouches(job: Job, t: Record, d: Record, calls: nat)
    requires Prepared(job) && Settled(job, d, calls) && d.outcome == Selected && Stored(job, t, d)
    ensures Vouches(job, t, d) <==> Replayable(job, t, d)
  {
    hide Prepared, TrustedMatches, OutcomeAudit, BoundedRecord, MakeSpacing, ValidSpacing;
    NotEmpty(job);
    if d.recovery == GeneratedRepair {
      if t != d { StoredSnapshot(job, d, calls); }
    }
  }

  lemma StoredSnapshot(job: Job, d: Record, calls: nat)
    requires Prepared(job) && Settled(job, d, calls) && d.outcome == Selected && d.recovery == GeneratedRepair
    ensures d.generated.Some? && d.generated.value.Full?
    ensures Materialize(job.lexicon, job.set_, Diagnostic(job.lexicon, d)) == Some(d) <==>
              SharesCharacters(job.set_, d.generated.value.candidate)
    ensures SharedBySet(job.set_, d.generated.value.candidate) ==> SharesCharacters(job.set_, d.generated.value.candidate)
  {
    hide Prepared, TrustedMatches, OutcomeAudit, BoundedRecord, Materialize, ValidSpacing;
    NotEmpty(job);
    if SharesCharacters(job.set_, d.generated.value.candidate) { SnapshotRoundTrip(job.lexicon, job.set_, d); }
    if Materialize(job.lexicon, job.set_, Diagnostic(job.lexicon, d)) == Some(d) { MaterializesOnlyShared(job, d); }
  }

  lemma SettledOrigin(job: Job, d: Record, calls: nat)
    requires Settled(job, d, calls)
    ensures d.origin != FromDeterministic && d.setId == job.set_.id
  {
  }

  lemma ColdCovers(job: Job, t: Record, d: Record)
    requires Prepared(job) && ColdRecord(job, d) && Replayable(job, t, d) && Stored(job, t, d)
    ensures CoveredBy(job, t, d) && t.setId == job.set_.id
  {
    if Deterministic(job).Some? {
      DeterministicBounded(job);
    } else {
      var calls :| Settled(job, d, calls);
      StoredVouches(job, t, d, calls);
      SettledOrigin(job, d, calls);
    }
  }

  // ---------- what makes a job's records replayable ----------

  /** If the considered candidates of a spacing set are alike, the candidates cut off are like them. */
  predicate Uniform(job: Job) {
    job.set_.decision == SpacingType && AllAlike(job.considered) ==> AllAlike(job.set_.candidates)
  }

  /** The records of such a job are replayable in every stored form. */
  lemma UniformIsReplayable(job: Job, t: Record, d: Record)
    requires Prepared(job) && ColdRecord(job, d) && Uniform(job)
    ensures Replayable(job, t, d)
  {
    hide Settled, ValidSpacing, ValidCandidate, ColdRecord;
    if d.recovery == GeneratedRepair {
      var c := ColdGenerated(job, d);
      ConsideredMembers(job);
      var o := job.considered[0];
      assert o in job.considered && o in job.set_.candidates && Alike(o, c);
      assert AllAlike(job.considered);
    }
  }

  /** The generated candidate of a cold record, like all considered ones. */
  lemma ColdGenerated(job: Job, d: Record) returns (c: SpacedCandidate)
    requires Prepared(job) && ColdRecord(job, d) && d.recovery == GeneratedRepair
    ensures job.set_.decision == SpacingType && d.generated == Some(Full(c)) && forall o :: o in job.considered ==> Alike(o, c)
  {
    hide TrustedMatches, OutcomeAudit, BoundedRecord, ValidSpacing, Prepared;
    NotEmpty(job);
    c := d.generated.value.candidate;
  }

  /** A policy that considers as many candidates as the set holds - the default does - is enough. */
  lemma FullConsiderationIsUniform(job: Job)
    requires Prepared(job) && job.policy.maxCandidates >= |job.set_.candidates|
    ensures Uniform(job)
  {
    ConsideredMembers(job);
  }

  // ---------- replay ----------

  /** A cold run of "selected" decisions, and one stored form for each of its records. */
  ghost predicate StoredRun(jobs: seq<Job>, serve: Service, stored: seq<Record>) {
    && AllPrepared(jobs) && DistinctSets(jobs) && Run(jobs, [], serve, 0).Some?
    && var records := Run(jobs, [], serve, 0).value.records;
       && |records| == |jobs| == |stored|
       && forall i :: 0 <= i < |jobs| ==> records[i].outcome == Selected && Stored(jobs[i], stored[i], records[i])
  }

  ghost predicate AllReplayable(jobs: seq<Job>, stored: seq<Record>, records: seq<Record>)
    requires |jobs| == |stored| == |records|
  {
    forall i :: 0 <= i < |jobs| ==> Replayable(jobs[i], stored[i], records[i])
  }

  lemma RunCovers(jobs: seq<Job>, serve: Service, stored: seq<Record>, i: nat)
    requires StoredRun(jobs, serve, stored) && i < |jobs|
    requires Replayable(jobs[i], stored[i], Run(jobs, [], serve, 0).value.records[i])
    ensures CoveredBy(jobs[i], stored[i], Run(jobs, [], serve, 0).value.records[i]) && stored[i].setId == jobs[i].set_.id
  {
    hide Run, Prepared, CoveredBy, Replayable, ColdRecord;
    ColdRun(jobs, serve, 0, i);
    ColdCovers(jobs[i], stored[i], Run(jobs, [], serve, 0).value.records[i]);
  }

  /** Whichever records are replayable in the form they are stored in: trusting them, the run makes no
      provider call whatever the provider would answer, and returns the same records, the
      model-driven ones marked as cached. */
  lemma ReplayableRunReplays(jobs: seq<Job>, serve: Service, stored: seq<Record>, again: Service)
    requires StoredRun(jobs, serve, stored) && AllReplayable(jobs, stored, Run(jobs, [], serve, 0).value.records)
    ensures Run(jobs, stored, again, 0) == Some(RunResult(Replays(jobs, Run(jobs, [], serve, 0).value.records), 0))
  {
    hide Run, CoveredBy, Replayable, Prepared;
    var records := Run(jobs, [], serve, 0).value.records;
    forall i | 0 <= i < |jobs| ensures CoveredBy(jobs[i], stored[i], records[i]) && stored[i].setId == jobs[i].set_.id {
      RunCovers(jobs, serve, stored, i);
    }
    ReplayFrom(jobs, stored, records, 0, again, 0);
    assert jobs[0..] == jobs && records[0..] == records;
  }

  lemma UniformRunIsReplayable(jobs: seq<Job>, serve: Service, stored: seq<Record>)
    requires StoredRun(jobs, serve, stored) && forall i :: 0 <= i < |jobs| ==> Uniform(jobs[i])
    ensures AllReplayable(jobs, stored, Run(jobs, [], serve, 0).value.records)
  {
    hide Run, Prepared, Replayable, Uniform, ColdRecord;
    var records := Run(jobs, [], serve, 0).value.records;
    forall i | 0 <= i < |jobs| ensures Replayable(jobs[i], stored[i], records[i]) {
      ColdRun(jobs, serve, 0, i);
      UniformIsReplayable(jobs[i], stored[i], records[i]);
    }
  }

  /** The replay theorem. After a cold run over uniform jobs in which every decision is "selected",
      running again with its records as trusted - in full or as diagnostic snapshots - makes no
      provider call whatever the provider would answer, and returns the same records, the
      model-driven ones marked as cached. */
  lemma ColdRunReplays(jobs: seq<Job>, serve: Service, stored: seq<Record>, again: Service)
    requires StoredRun(jobs, serve, stored) && forall i :: 0 <= i < |jobs| ==> Uniform(jobs[i])
    ensures Run(jobs, stored, again, 0) == Some(RunResult(Replays(jobs, Run(jobs, [], serve, 0).value.records), 0))
  {
    UniformRunIsReplayable(jobs, serve, stored);
    ReplayableRunReplays(jobs, serve, stored, again);
  }

  lemma ReplayCovers(jobs: seq<Job>, serve: Service, stored: seq<Record>, i: nat)
    requires StoredRun(jobs, serve, stored) && i < |jobs| && Uniform(jobs[i])
    ensures var records := Run(jobs, [], serve, 0).value.records;
            var r := Replayed(jobs[i], records[i]);
            CoveredBy(jobs[i], r, r) && r.setId == jobs[i].set_.id && Replayed(jobs[i], r) == r
  {
    hide Run, Prepared, CoveredBy, Replayable, ColdRecord, Replayed, Uniform;
    var records := Run(jobs, [], serve, 0).value.records;
    ColdRun(jobs, serve, 0, i);
    UniformIsReplayable(jobs[i], stored[i], records[i]);
    ColdCovers(jobs[i], stored[i], records[i]);
    ReplayedCovers(jobs[i], stored[i], records[i]);
    StoredSet(jobs[i], stored[i], records[i]);
  }

  lemma StoredSet(job: Job, t: Record, d: Record)
    requires Stored(job, t, d)
    ensures t.setId == d.setId
  {
  }

  /** Replaying a replay changes nothing more. */
  lemma ReplayIsStable(jobs: seq<Job>, serve: Service, stored: seq<Record>, later: Service)
    requires StoredRun(jobs, serve, stored) && forall i :: 0 <= i < |jobs| ==> Uniform(jobs[i])
    ensures var replayed := Replays(jobs, Run(jobs, [], serve, 0).value.records);
            Run(jobs, replayed, later, 0) == Some(RunResult(replayed, 0))
  {
    hide Run, Prepared, CoveredBy, Uniform, Replayed;
    var records := Run(jobs, [], serve, 0).value.records;
    var replayed := Replays(jobs, records);
    forall i | 0 <= i < |jobs|
      ensures CoveredBy(jobs[i], replayed[i], replayed[i]) && replayed[i].setId == jobs[i].set_.id
      ensures Replayed(jobs[i], replayed[i]) == replayed[i]
    {
      ReplayCovers(jobs, serve, stored, i);
      ReplaysAt(jobs, records, i);
    }
    ReplayFrom(jobs, replayed, replayed, 0, later, 0);
    ReplaysFixed(jobs, replayed);
    assert jobs[0..] == jobs && replayed[0..] == replayed;
  }

  lemma {:induction false} ReplaysAt(jobs: seq<Job>, records: seq<Record>, i: nat)
    requires |jobs| == |records| && i < |jobs|
    ensures Replays(jobs, records)[i] == Replayed(jobs[i], records[i])
  {
    if i > 0 { ReplaysAt(jobs[1..], records[1..], i - 1); }
  }

  lemma {:induction false} ReplaysFixed(jobs: seq<Job>, records: seq<Record>)
    requires |jobs| == |records| && forall i :: 0 <= i < |jobs| ==> Replayed(jobs[i], records[i]) == records[i]
    ensures Replays(jobs, records) == records
  {
    if jobs != [] {
      hide Replayed;
      var rest, others := jobs[1..], records[1..];
      forall i | 0 <= i < |rest| ensures Replayed(rest[i], others[i]) == others[i] {
        assert Replayed(jobs[i + 1], records[i + 1]) == records[i + 1];
      }
      ReplaysFixed(rest, others);
    }
  }

  lemma ReplayedCovers(job: Job, t: Record, d: Record)
    requires Prepared(job) && CoveredBy(job, t, d)
    ensures var r := Replayed(job, d);
            CoveredBy(job, r, r) && r.setId == d.setId && Replayed(job, r) == r
  {
    hide TrustedMatches, Deterministic;
    if d.origin != FromDeterministic {
      CachedMatchesAgain(job, d);
      assert d.generated.None? || d.generated.value.Full?;
    }
  }
}
