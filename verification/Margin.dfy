/** When accepting the best candidate by its score means that it is the margin ahead. */
module Margin {
  import opened Common
  import opened Candidates
  import opened Decisions
  import opened Ranking
  import opened Adjudication
  import opened DecisionProofs
  import Sorting

  /** The job is decided by score, not by a proven table. */
  predicate AcceptedByScore(job: Job) {
    job.considered != [] && Deterministic(job).Some?
    && !(ProvenTables(job.considered) != [] && OneStructure(ProvenTables(job.considered)))
  }

  /** Two candidates of the same full score. */
  function Tied(policy: Policy): Job {
    var a, b := RecognitionCandidate(1, 1, "a", "engine", 1.0, map[]), RecognitionCandidate(2, 1, "b", "engine", 1.0, map[]);
    Prepare(Lexicon((t: string) => [], (t: string) => false, (t: string, u: string) => false, (t: string) => |t|,
                    (i: SpacingIdentity) => 0, (d: DecisionIdentity) => 0),
            CandidateSet(1, 0, 1, RecognitionType, [a, b]), policy, None, 0, None)
  }

  lemma TiedRanks()
    ensures var a, b := RecognitionCandidate(1, 1, "a", "engine", 1.0, map[]), RecognitionCandidate(2, 1, "b", "engine", 1.0, map[]);
            Rank([a, b]) == [a, b]
  {
    var a, b := RecognitionCandidate(1, 1, "a", "engine", 1.0, map[]), RecognitionCandidate(2, 1, "b", "engine", 1.0, map[]);
    var both, last: seq<Candidate> := [a, b], [b];
    assert both[1..] == last && last[1..] == [];
    assert Sorting.Sort(Before, last) == last;
  }

  /** A policy that considers one candidate accepts it with a rival of the same score in the set. */
  lemma TiedIsAccepted(policy: Policy)
    requires ValidPolicy(policy) && !MeasuresMargin(policy)
    ensures var job := Tied(policy);
            Prepared(job) && job.policy == policy && AcceptedByScore(job) && !AheadByMargin(job, job.considered[0])
  {
    var job := Tied(policy);
    var a, b := RecognitionCandidate(1, 1, "a", "engine", 1.0, map[]), RecognitionCandidate(2, 1, "b", "engine", 1.0, map[]);
    TiedRanks();
    hide Rank;
    assert ValidSet(job.set_);
    PrepareIsPrepared(job.lexicon, job.set_, policy, None, 0, None);
    assert job.considered == [a];
    assert ProvenTables(job.considered) == [];
    assert b in job.set_.candidates;
  }

  /** Accepting by score means being the margin ahead of every other candidate of the set exactly under
      the policies that consider at least two candidates, or ask for no margin. */
  lemma MarginIff(policy: Policy)
    requires ValidPolicy(policy)
    ensures (forall job :: Prepared(job) && job.policy == policy && AcceptedByScore(job) ==> AheadByMargin(job, job.considered[0])) <==>
              MeasuresMargin(policy)
  {
    hide Prepared, AheadByMargin, Tied;
    if MeasuresMargin(policy) {
      forall job | Prepared(job) && job.policy == policy && AcceptedByScore(job) ensures AheadByMargin(job, job.considered[0]) {
        BestIsAhead(job);
      }
    } else {
      TiedIsAccepted(policy);
    }
  }
}
