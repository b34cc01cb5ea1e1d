/** One decision's inputs, the order candidates are considered in, and the choices by
    maximum that the adjudicator makes. */
module Ranking {
  import opened Common
  import opened Names
  import opened Candidates
  import opened Decisions
  import opened Sorting

  /** The inputs of one decision and the values `decide` derives from them before anything else:
      the request hash, the considered candidates (best first, cut off at the policy's maximum)
      and their IDs. Without a provider the job is offline and its provider is nameless. */
  datatype Job = Job(
    lexicon: Lexicon, set_: CandidateSet, policy: Policy, online: bool,
    request: RequestKey, considered: seq<Candidate>, allowed: set<CandidateId>)
  {
    /** `_messages`: earlier attempts appear only when they named a candidate. */
    function VotePrompt(phase: Phase, prior: seq<Attempt>): Messages {
      VoteMessages(phase, set_, considered, PriorVotes(prior))
    }
  }

  function Considered(set_: CandidateSet, policy: Policy): seq<Candidate> {
    var ranked := Rank(set_.candidates);
    if policy.maxCandidates < |ranked| then ranked[..policy.maxCandidates] else ranked
  }

  /** The job of deciding a set: `_request_hash`, the ranking and the allowlist. */
  function Prepare(
    lexicon: Lexicon, set_: CandidateSet, policy: Policy, provider: Option<(Name, Name)>, evidence: Hash, crop: Option<Hash>): Job
  {
    var (name, model) := if provider.None? then (NO_PROVIDER, NO_PROVIDER) else provider.value;
    var considered := Considered(set_, policy);
    Job(lexicon, set_, policy, provider.Some?,
        RequestKey(set_.source, evidence, set_.region, set_.id, name, model, policy, crop), considered, Ids(considered))
  }

  /** A job as `Prepare` makes it from valid inputs. */
  ghost predicate Prepared(job: Job) {
    && ValidSet(job.set_) && ValidPolicy(job.policy)
    && job.considered != [] && job.considered == Considered(job.set_, job.policy) && job.allowed == Ids(job.considered)
    && job.request.source == job.set_.source && job.request.region == job.set_.region
    && job.request.setId == job.set_.id && job.request.policy == job.policy
    && (!job.online ==> job.request.provider == NO_PROVIDER)
  }

  lemma PrepareIsPrepared(
    lexicon: Lexicon, set_: CandidateSet, policy: Policy, provider: Option<(Name, Name)>, evidence: Hash, crop: Option<Hash>)
    requires ValidSet(set_) && ValidPolicy(policy)
    ensures var job := Prepare(lexicon, set_, policy, provider, evidence, crop);
            && Prepared(job) && job.set_ == set_ && job.policy == policy && job.lexicon == lexicon && (job.online <==> provider.Some?)
            && job.request.evidence == evidence && job.request.crop == crop
            && (provider.Some? ==> (job.request.provider, job.request.model) == provider.value)
            && (provider.None? ==> (job.request.provider, job.request.model) == (NO_PROVIDER, NO_PROVIDER))
  {
    RankSorts(set_.candidates);
  }

  lemma NotEmpty(job: Job)
    requires Prepared(job)
    ensures job.considered != [] && job.set_.candidates != []
  {
  }

  function PriorVotes(prior: seq<Attempt>): seq<PriorVote> {
    if prior == [] then []
    else
      var a := prior[0];
      (if a.candidate.Some? then [PriorVote(a.phase, a.candidate.value, a.confidence, a.codes)] else []) + PriorVotes(prior[1..])
  }

  function Ids(candidates: seq<Candidate>): set<CandidateId> {
    set c | c in candidates :: c.id
  }

  /** The sort key `(-score, candidate_id)`. */
  predicate Before(a: Candidate, b: Candidate) {
    a.score > b.score || (a.score == b.score && a.id <= b.id)
  }

  predicate Ranked(s: seq<Candidate>) {
    forall i, j :: 0 <= i < j < |s| ==> Before(s[i], s[j])
  }

  /** Candidates sorted best first. */
  function Rank(s: seq<Candidate>): seq<Candidate> {
    Sort(Before, s)
  }

  lemma BeforeIsLinear()
    ensures Linear(Before)
  {
  }

  /** Ranking sorts: the same candidates, best first. */
  lemma RankSorts(s: seq<Candidate>)
    ensures multiset(Rank(s)) == multiset(s) && |Rank(s)| == |s|
    ensures Ranked(Rank(s))
    ensures forall c :: c in Rank(s) <==> c in s
  {
    BeforeIsLinear();
    SortSorts(Before, s);
    assert Ranked(Rank(s)) && multiset(Rank(s)) == multiset(s);
    hide Rank, Sort, Linear;
    assert |Rank(s)| == |multiset(Rank(s))| && |s| == |multiset(s)|;
    assert forall c :: c in Rank(s) <==> c in multiset(Rank(s));
    assert forall c :: c in s <==> c in multiset(s);
  }

  /** The considered candidates are ranked members of the set, all of them when the policy
      allows that many. */
  lemma ConsideredMembers(job: Job)
    requires Prepared(job)
    ensures job.considered != [] && Ranked(job.considered)
    ensures forall c :: c in job.considered ==> c in job.set_.candidates
    ensures job.policy.maxCandidates >= |job.set_.candidates| ==>
              forall c :: c in job.set_.candidates ==> c in job.considered
  {
    RankSorts(job.set_.candidates);
  }

  /** The policy's maximum of candidates is considered, if there are that many, and those left out come after all of them. */
  lemma ConsideredAreBest(job: Job)
    requires Prepared(job)
    ensures |job.considered| <= job.policy.maxCandidates && |job.considered| <= |job.set_.candidates|
    ensures |job.considered| == job.policy.maxCandidates || |job.considered| == |job.set_.candidates|
    ensures forall c, d :: c in job.set_.candidates && c !in job.considered && d in job.considered ==>
              d.score > c.score || (d.score == c.score && d.id <= c.id)
  {
    var ranked := Rank(job.set_.candidates);
    RankSorts(job.set_.candidates);
    forall c, d | c in job.set_.candidates && c !in job.considered && d in job.considered ensures Before(d, c) {
      assert c in ranked;
      var i :| 0 <= i < |ranked| && ranked[i] == c;
      var j :| 0 <= j < |job.considered| && job.considered[j] == d;
      assert ranked[j] == d;
    }
  }

  /** The order of `max(..., key=(score, candidate_id))`. */
  predicate Beaten(a: Candidate, b: Candidate) {
    a.score < b.score || (a.score == b.score && a.id < b.id)
  }

  /** `max` by score, then ID. */
  function Top(s: seq<Candidate>): (c: Candidate)
    requires s != []
    ensures c in s && forall other :: other in s ==> !Beaten(c, other)
  {
    if |s| == 1 then s[0]
    else
      var rest := Top(s[1..]);
      assert forall other :: other in s ==> other == s[0] || other in s[1..];
      if Beaten(s[0], rest) then rest else s[0]
  }

  predicate LessPreferred(a: Candidate, b: Candidate) {
    var fromSource := SOURCE_SPACING in a.features;
    if fromSource != (SOURCE_SPACING in b.features) then !fromSource else Beaten(a, b)
  }

  /** `max` by source spacing, then score, then ID. */
  function Preferred(s: seq<Candidate>): (c: Candidate)
    requires s != []
    ensures c in s && forall other :: other in s ==> !LessPreferred(c, other)
  {
    if |s| == 1 then s[0]
    else
      var rest := Preferred(s[1..]);
      assert forall other :: other in s ==> other == s[0] || other in s[1..];
      if LessPreferred(s[0], rest) then rest else s[0]
  }

  /** The candidates without spacing defects. */
  function DefectFree(lexicon: Lexicon, s: seq<Candidate>): (r: seq<Candidate>)
    ensures forall c :: c in r <==> c in s && c.SpacingCandidate? && lexicon.defects(c.text) == []
  {
    if s == [] then []
    else (if s[0].SpacingCandidate? && lexicon.defects(s[0].text) == [] then [s[0]] else []) + DefectFree(lexicon, s[1..])
  }

  /** The candidate with an ID, first in order. */
  function ById(s: seq<Candidate>, id: CandidateId): (r: Option<Candidate>)
    ensures r.Some? <==> id in Ids(s)
    ensures r.Some? ==> r.value in s && r.value.id == id
  {
    if s == [] then None else if s[0].id == id then Some(s[0]) else ById(s[1..], id)
  }

  const PROVEN_FEATURES := [ATOM_BBOX_CELL_AGREEMENT, CELL_CHARACTER_MULTISET, STRUCTURE_HINT_TEXT]

  /** `is_invariant_proven_table`. */
  predicate Proven(c: Candidate) {
    c.TableCandidate? && forall f :: f in PROVEN_FEATURES ==> f in c.features && c.features[f] == 1.0
  }

  function ProvenTables(s: seq<Candidate>): (r: seq<Candidate>)
    ensures forall c :: c in r <==> c in s && Proven(c)
  {
    if s == [] then [] else (if Proven(s[0]) then [s[0]] else []) + ProvenTables(s[1..])
  }

  /** `_table_structure_signature`: dimensions, and per cell span, atoms and header flag. */
  predicate SameStructure(a: Candidate, b: Candidate) {
    && a.TableCandidate? && b.TableCandidate?
    && a.rows == b.rows && a.columns == b.columns && |a.cells| == |b.cells|
    && forall i :: 0 <= i < |a.cells| ==>
         a.cells[i].span == b.cells[i].span && a.cells[i].atoms == b.cells[i].atoms && a.cells[i].header == b.cells[i].header
  }

  predicate OneStructure(s: seq<Candidate>) {
    forall a, b :: a in s && b in s ==> SameStructure(a, b)
  }

  /** `Counter(...).most_common(1)[0]` of three votes: ties go to the first counted. */
  function Majority(a: CandidateId, b: CandidateId, c: CandidateId): (r: (CandidateId, nat))
    ensures r.0 == a || r.0 == b || r.0 == c
    ensures r.1 >= 2 <==> a == b || a == c || b == c
  {
    if a == b && b == c then (a, 3)
    else if a == b || a == c then (a, 2)
    else if b == c then (b, 2)
    else (a, 1)
  }
}
