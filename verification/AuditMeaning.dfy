/** What the hash audit of a trusted record asks of its attempts, by positions: where the votes of each phase stand, and which prompt
    each attempt is bound to. */
module AuditMeaning {
  import opened Common
  import opened Names
  import opened Candidates
  import opened Decisions
  import opened Ranking
  import opened Audit
  import Aborting
  import Elections

  // ---------- votes ----------

  /** The attempts of the phase are those from `i` up to `j`. */
  predicate Stand(attempts: seq<Attempt>, phase: Phase, i: nat, j: nat) {
    i <= j <= |attempts| && forall k :: 0 <= k < |attempts| ==> (attempts[k].phase == phase <==> i <= k < j)
  }

  /** Primary votes first, then recovery votes, then tiebreak votes. */
  predicate Staged(attempts: seq<Attempt>, p: nat, r: nat, t: nat) {
    Stand(attempts, Primary, 0, p) && Stand(attempts, Recovery, p, r) && Stand(attempts, Tiebreak, r, t)
  }

  /** What a vote is bound to: the prompt of its phase, which shows the votes of the phases before it, corrected when the attempt just
      before it in the phase named no candidate. */
  function PromptAt(job: Job, attempts: seq<Attempt>, phase: Phase, start: nat, k: nat): Messages
    requires start <= k < |attempts|
  {
    var prompt := VoteMessages(phase, job.set_, job.considered, PriorVotes(attempts[..start]));
    if k > start && attempts[k - 1].status == CandidateUnknown && attempts[k - 1].codes != []
    then Corrective(prompt, attempts[k - 1].codes[|attempts[k - 1].codes| - 1])
    else prompt
  }

  predicate BoundFrom(job: Job, attempts: seq<Attempt>, phase: Phase, i: nat, j: nat)
    requires i <= j <= |attempts|
  {
    forall k :: i <= k < j ==> BoundAt(job, attempts, phase, i, k)
  }

  predicate BoundAt(job: Job, attempts: seq<Attempt>, phase: Phase, i: nat, k: nat)
    requires i <= k < |attempts|
  {
    attempts[k].request == AttemptKey(job.request, phase, PromptAt(job, attempts, phase, i, k), attempts[k].index)
  }

  predicate VotesBound(job: Job, attempts: seq<Attempt>, p: nat, r: nat, t: nat) {
    && Staged(attempts, p, r, t)
    && BoundFrom(job, attempts, Primary, 0, p) && BoundFrom(job, attempts, Recovery, p, r) && BoundFrom(job, attempts, Tiebreak, r, t)
  }

  /** The votes of the first `t` attempts are all there are, and all bound. */
  ghost predicate BoundUpTo(job: Job, attempts: seq<Attempt>, t: nat) {
    exists p: nat, r: nat :: VotesBound(job, attempts, p, r, t)
  }

  lemma {:induction false} OfPhaseConcat(a: seq<Attempt>, b: seq<Attempt>, phase: Phase)
    ensures OfPhase(a + b, phase) == OfPhase(a, phase) + OfPhase(b, phase)
  {
    if a == [] {
      assert a + b == b;
    } else {
      assert (a + b)[0] == a[0] && (a + b)[1..] == a[1..] + b;
      OfPhaseConcat(a[1..], b, phase);
      ConcatAssociates(if a[0].phase == phase then [a[0]] else [], OfPhase(a[1..], phase), OfPhase(b, phase));
    }
  }

  lemma {:induction false} OfPhaseAll(a: seq<Attempt>, phase: Phase)
    ensures (forall k :: 0 <= k < |a| ==> a[k].phase == phase) <==> OfPhase(a, phase) == a
    ensures (forall k :: 0 <= k < |a| ==> a[k].phase != phase) <==> OfPhase(a, phase) == []
    ensures forall x :: x in OfPhase(a, phase) ==> x.phase == phase
  {
    if a != [] {
      var rest := a[1..];
      OfPhaseAll(rest, phase);
      assert forall k :: 0 <= k < |rest| ==> rest[k] == a[k + 1];
      assert forall k :: 0 < k < |a| ==> a[k] == rest[k - 1];
      if a[0].phase == phase && OfPhase(a, phase) == a { assert ([a[0]] + OfPhase(rest, phase))[1..] == OfPhase(rest, phase); }
      if OfPhase(a, phase) == a { assert a[0] in OfPhase(a, phase); }
    }
  }

  lemma OneStand(attempts: seq<Attempt>, phase: Phase, i: nat, j: nat)
    requires Stand(attempts, phase, i, j)
    ensures j == i + |OfPhase(attempts, phase)|
  {
    hide OfPhase;
    var before, mid, after := attempts[..i], attempts[i..j], attempts[j..];
    assert attempts == before + mid + after;
    OfPhaseConcat(before + mid, after, phase);
    OfPhaseConcat(before, mid, phase);
    OfPhaseAll(before, phase);
    OfPhaseAll(mid, phase);
    OfPhaseAll(after, phase);
  }

  /** A block cut out where it stands is the whole phase. */
  lemma StandIff(attempts: seq<Attempt>, phase: Phase, i: nat)
    requires i <= |attempts|
    ensures var n := |OfPhase(attempts, phase)|;
            Stand(attempts, phase, i, i + n) <==> i + n <= |attempts| && attempts[i..i + n] == OfPhase(attempts, phase)
  {
    hide OfPhase, Stand;
    var j := i + |OfPhase(attempts, phase)|;
    if j <= |attempts| {
      if attempts[i..j] == OfPhase(attempts, phase) { CutStands(attempts, phase, i, j); }
      if Stand(attempts, phase, i, j) { StandsCut(attempts, phase, i, j); }
    } else {
      NotBeyond(attempts, phase, i, j);
    }
  }

  lemma NotBeyond(attempts: seq<Attempt>, phase: Phase, i: nat, j: nat)
    requires j > |attempts|
    ensures !Stand(attempts, phase, i, j)
  {
  }

  lemma StandsCut(attempts: seq<Attempt>, phase: Phase, i: nat, j: nat)
    requires Stand(attempts, phase, i, j)
    ensures attempts[i..j] == OfPhase(attempts, phase)
  {
    hide OfPhase;
    var before, mid, after := attempts[..i], attempts[i..j], attempts[j..];
    assert attempts == before + mid + after;
    OfPhaseConcat(before + mid, after, phase);
    OfPhaseConcat(before, mid, phase);
    OfPhaseAll(before, phase);
    OfPhaseAll(mid, phase);
    OfPhaseAll(after, phase);
  }

  lemma CutStands(attempts: seq<Attempt>, phase: Phase, i: nat, j: nat)
    requires i <= j <= |attempts| && attempts[i..j] == OfPhase(attempts, phase)
    ensures Stand(attempts, phase, i, j)
  {
    hide OfPhase;
    var before, mid, after := attempts[..i], attempts[i..j], attempts[j..];
    assert attempts == before + mid + after;
    OfPhaseConcat(before + mid, after, phase);
    OfPhaseConcat(before, mid, phase);
    OfPhaseAll(attempts, phase);
    forall k | 0 <= k < |mid| ensures mid[k].phase == phase { assert mid[k] in mid; }
    OfPhaseAll(mid, phase);
    assert |OfPhase(before, phase)| == 0 && |OfPhase(after, phase)| == 0;
    OfPhaseAll(before, phase);
    OfPhaseAll(after, phase);
    forall k | 0 <= k < |attempts| ensures attempts[k].phase == phase <==> i <= k < j {
      if k < i { assert before[k].phase != phase; } else if k < j { assert mid[k - i].phase == phase; } else { assert after[k - j].phase != phase; }
    }
  }

  /** What one attempt of a block is bound to, seen from the block. */
  function MessagesAt(base: Messages, block: seq<Attempt>, k: nat, correction: Option<Code>): Messages
    requires k < |block|
  {
    if k == 0 then if correction.Some? then Corrective(base, correction.value) else base
    else if block[k - 1].status == CandidateUnknown && block[k - 1].codes != [] then
      Corrective(base, block[k - 1].codes[|block[k - 1].codes| - 1])
    else base
  }

  predicate HashAt(job: Job, phase: Phase, base: Messages, block: seq<Attempt>, k: nat, correction: Option<Code>)
    requires k < |block|
  {
    block[k].request == AttemptKey(job.request, phase, MessagesAt(base, block, k, correction), block[k].index)
  }

  function NextCorrection(a: Attempt): Option<Code> {
    if a.status == CandidateUnknown && a.codes != [] then Some(a.codes[|a.codes| - 1]) else None
  }

  lemma HashBehind(job: Job, phase: Phase, base: Messages, block: seq<Attempt>, k: nat, correction: Option<Code>)
    requires 0 < k < |block|
    ensures HashAt(job, phase, base, block, k, correction) <==> HashAt(job, phase, base, block[1..], k - 1, NextCorrection(block[0]))
  {
    assert block[1..][k - 1] == block[k];
    if k > 1 { assert block[1..][k - 2] == block[k - 1]; }
  }

  lemma {:induction false} PhaseHashesIff(job: Job, phase: Phase, base: Messages, block: seq<Attempt>, correction: Option<Code>)
    ensures PhaseHashes(job, phase, base, block, correction) <==> forall k :: 0 <= k < |block| ==> HashAt(job, phase, base, block, k, correction)
  {
    if block != [] {
      var rest, next := block[1..], NextCorrection(block[0]);
      PhaseHashesIff(job, phase, base, rest, next);
      assert HashAt(job, phase, base, block, 0, correction) <==>
        block[0].request == AttemptKey(job.request, phase, if correction.Some? then Corrective(base, correction.value) else base, block[0].index);
      hide HashAt;
      forall k | 0 < k < |block| ensures HashAt(job, phase, base, block, k, correction) <==> HashAt(job, phase, base, rest, k - 1, next) {
        HashBehind(job, phase, base, block, k, correction);
      }
      forall k | 0 <= k < |rest| ensures HashAt(job, phase, base, rest, k, next) <==> HashAt(job, phase, base, block, k + 1, correction) {
        HashBehind(job, phase, base, block, k + 1, correction);
      }
    }
  }

  lemma BlockBound(job: Job, attempts: seq<Attempt>, phase: Phase, i: nat, j: nat)
    requires i <= j <= |attempts|
    ensures PhaseHashes(job, phase, job.VotePrompt(phase, attempts[..i]), attempts[i..j], None) <==> BoundFrom(job, attempts, phase, i, j)
  {
    hide PhaseHashes, PriorVotes, HashAt, BoundAt;
    var block := attempts[i..j];
    var base := job.VotePrompt(phase, attempts[..i]);
    PhaseHashesIff(job, phase, base, block, None);
    forall k | i <= k < j ensures HashAt(job, phase, base, block, k - i, None) <==> BoundAt(job, attempts, phase, i, k) {
      AtIff(job, attempts, phase, i, j, k);
    }
    forall k | 0 <= k < |block| ensures HashAt(job, phase, base, block, k, None) <==> BoundAt(job, attempts, phase, i, k + i) {
      AtIff(job, attempts, phase, i, j, k + i);
    }
  }

  lemma AtIff(job: Job, attempts: seq<Attempt>, phase: Phase, i: nat, j: nat, k: nat)
    requires i <= k < j <= |attempts|
    ensures HashAt(job, phase, job.VotePrompt(phase, attempts[..i]), attempts[i..j], k - i, None) <==> BoundAt(job, attempts, phase, i, k)
  {
    hide PriorVotes;
    var block := attempts[i..j];
    assert block[k - i] == attempts[k];
    if k > i { assert block[k - i - 1] == attempts[k - 1]; }
  }

  predicate Placed(job: Job, attempts: seq<Attempt>, phase: Phase, i: nat, j: nat) {
    Stand(attempts, phase, i, j) && BoundFrom(job, attempts, phase, i, j)
  }

  lemma ConsumeStep(job: Job, attempts: seq<Attempt>, phases: seq<Phase>, i: nat)
    requires phases != [] && i <= |attempts|
    ensures var j, votes := i + |OfPhase(attempts, phases[0])|, ConsumeVotes(job, attempts, phases, attempts[..i]);
            && (votes.Some? ==> Placed(job, attempts, phases[0], i, j))
            && (Placed(job, attempts, phases[0], i, j) ==> j <= |attempts| && votes == ConsumeVotes(job, attempts, phases[1..], attempts[..j]))
  {
    hide OfPhase, PhaseHashes, BoundFrom;
    var block := OfPhase(attempts, phases[0]);
    var j := i + |block|;
    StandIff(attempts, phases[0], i);
    if j <= |attempts| {
      BlockBound(job, attempts, phases[0], i, j);
      if attempts[i..j] == block {
        assert attempts[..i] + block == attempts[..j];
        if block == [] { NothingBound(job, attempts, phases[0], i); }
      }
    }
  }

  lemma NothingBound(job: Job, attempts: seq<Attempt>, phase: Phase, i: nat)
    requires i <= |attempts|
    ensures BoundFrom(job, attempts, phase, i, i)
  {
  }

  /** The vote blocks are consumed exactly when the votes stand by stages, each bound to its prompt. */
  lemma VotesIff(job: Job, attempts: seq<Attempt>, t: nat)
    ensures var votes := ConsumeVotes(job, attempts, VOTE_PHASES, []);
            BoundUpTo(job, attempts, t) <==> votes.Some? && |votes.value| == t
    ensures var votes := ConsumeVotes(job, attempts, VOTE_PHASES, []);
            votes.Some? ==> votes.value == attempts[..|votes.value|]
  {
    hide OfPhase, Stand, BoundFrom, ConsumeVotes;
    var p := |OfPhase(attempts, Primary)|;
    var r := p + |OfPhase(attempts, Recovery)|;
    var end := r + |OfPhase(attempts, Tiebreak)|;
    forall a: nat, b: nat | VotesBound(job, attempts, a, b, t) ensures a == p && b == r && t == end {
      OneStand(attempts, Primary, 0, a);
      OneStand(attempts, Recovery, a, b);
      OneStand(attempts, Tiebreak, b, t);
    }
    assert attempts[..0] == [] && VOTE_PHASES[1..] == [Recovery, Tiebreak] && VOTE_PHASES[1..][1..] == [Tiebreak] && [Tiebreak][1..] == [];
    ConsumeStep(job, attempts, VOTE_PHASES, 0);
    if Placed(job, attempts, Primary, 0, p) {
      ConsumeStep(job, attempts, VOTE_PHASES[1..], p);
      if Placed(job, attempts, Recovery, p, r) {
        ConsumeStep(job, attempts, VOTE_PHASES[1..][1..], r);
        if Placed(job, attempts, Tiebreak, r, end) {
          ConsumeNone(job, attempts, attempts[..end]);
          assert VotesBound(job, attempts, p, r, end);
        }
      }
    }
  }

  lemma ConsumeNone(job: Job, attempts: seq<Attempt>, prior: seq<Attempt>)
    requires |prior| <= |attempts|
    ensures ConsumeVotes(job, attempts, [], prior) == Some(prior)
  {
  }

  // ---------- generation and verification ----------

  /** The last primary vote that names a candidate, and its ID. */
  predicate NamesLast(votes: seq<Attempt>, k: int, id: CandidateId) {
    && 0 <= k < |votes| && votes[k].phase == Primary && votes[k].candidate == Some(id)
    && forall j :: k < j < |votes| && votes[j].phase == Primary ==> votes[j].candidate.None?
  }

  /** The considered candidate that the last primary vote names. */
  ghost predicate Anchors(job: Job, attempts: seq<Attempt>, t: nat, anchor: Candidate) {
    t <= |attempts| && anchor in job.considered && exists k :: NamesLast(attempts[..t], k, anchor.id)
  }

  /** After the votes comes a generation from the anchor, and at most a verification of the record's own candidate. */
  ghost predicate RepairBound(job: Job, d: Record, t: nat, anchor: Candidate) {
    && t < |d.attempts| <= t + 2 && job.set_.decision == SpacingType && Anchors(job, d.attempts, t, anchor) && Elections.OneSpelling(job)
    && d.attempts[t].phase == Generation
    && d.attempts[t].request == AttemptKey(job.request, Generation, GenerationMessages(job.set_, job.considered, anchor), d.attempts[t].index)
    && (|d.attempts| == t + 2 ==>
          && d.attempts[t + 1].phase == VerificationPhase
          && d.generated.Some? && d.generated.value.Full? && d.generated.value.candidate.region == job.set_.region
          && d.attempts[t + 1].request ==
             AttemptKey(job.request, VerificationPhase, VerificationMessages(job.set_, job.considered, d.generated.value.candidate), d.attempts[t + 1].index))
  }

  lemma {:induction false} LastVoteIff(votes: seq<Attempt>, id: CandidateId)
    ensures LastPrimaryVote(votes) == Some(id) <==> exists k :: NamesLast(votes, k, id)
  {
    if votes != [] {
      var n := |votes| - 1;
      var front := votes[..n];
      LastVoteIff(front, id);
      if votes[n].phase == Primary && votes[n].candidate.Some? {
        assert NamesLast(votes, n, votes[n].candidate.value);
      } else {
        forall k ensures NamesLast(front, k, id) <==> NamesLast(votes, k, id) {
          assert forall j :: 0 <= j < n ==> front[j] == votes[j];
        }
      }
    }
  }

  lemma AnchorIff(job: Job, attempts: seq<Attempt>, t: nat, anchor: Candidate)
    requires Prepared(job) && t <= |attempts|
    ensures var vote := LastPrimaryVote(attempts[..t]);
            Anchors(job, attempts, t, anchor) <==> vote.Some? && ById(job.considered, vote.value) == Some(anchor)
  {
    hide LastPrimaryVote, Prepared;
    LastVoteIff(attempts[..t], anchor.id);
    OneOfId(job, anchor);
  }

  lemma OneOfId(job: Job, anchor: Candidate)
    requires Prepared(job)
    ensures anchor in job.considered <==> ById(job.considered, anchor.id) == Some(anchor)
  {
    if anchor in job.considered {
      Elections.ConsideredApart(job);
      var found := ById(job.considered, anchor.id).value;
      var i :| 0 <= i < |job.considered| && job.considered[i] == found;
      var j :| 0 <= j < |job.considered| && job.considered[j] == anchor;
    }
  }

  lemma SpellingIsAlikeness(job: Job)
    ensures Elections.OneSpelling(job) <==> AllAlike(job.considered)
  {
  }

  lemma RepairFrom(job: Job, d: Record, t: nat, anchor: Candidate)
    requires Prepared(job) && t < |d.attempts| && job.set_.decision == SpacingType && Anchors(job, d.attempts, t, anchor)
    ensures RepairHashes(job, d, d.attempts[..t], d.attempts[t..]) == Match <==> RepairBound(job, d, t, anchor)
  {
    hide GenerationScope, VerificationScope, LastPrimaryVote, Prepared, AllAlike, Anchors;
    var votes, tail := d.attempts[..t], d.attempts[t..];
    assert tail[0] == d.attempts[t] && (|tail| > 1 ==> tail[1] == d.attempts[t + 1]);
    AnchorIff(job, d.attempts, t, anchor);
    AllSpacing(job);
    Aborting.ScopeIsAlikeness(job, anchor);
    SpellingIsAlikeness(job);
    if AllAlike(job.considered) && d.generated.Some? && d.generated.value.Full? {
      Aborting.VerificationIsRegion(job, anchor, d.generated.value.candidate);
    }
  }

  lemma RepairIff(job: Job, d: Record, t: nat)
    requires Prepared(job) && t < |d.attempts|
    ensures RepairHashes(job, d, d.attempts[..t], d.attempts[t..]) == Match <==> exists anchor :: RepairBound(job, d, t, anchor)
  {
    hide GenerationScope, VerificationScope, LastPrimaryVote, Prepared, AllAlike, Anchors;
    var votes := d.attempts[..t];
    forall anchor ensures Anchors(job, d.attempts, t, anchor) <==>
        LastPrimaryVote(votes).Some? && ById(job.considered, LastPrimaryVote(votes).value) == Some(anchor)
    {
      AnchorIff(job, d.attempts, t, anchor);
    }
    if job.set_.decision == SpacingType && LastPrimaryVote(votes).Some? && ById(job.considered, LastPrimaryVote(votes).value).Some? {
      var anchor := ById(job.considered, LastPrimaryVote(votes).value).value;
      RepairFrom(job, d, t, anchor);
      assert forall other :: RepairBound(job, d, t, other) ==> other == anchor;
    }
  }

  lemma AllSpacing(job: Job)
    requires Prepared(job) && job.set_.decision == SpacingType
    ensures forall c :: c in job.considered ==> c.SpacingCandidate?
  {
    ConsideredMembers(job);
  }

  // ---------- the audit ----------

  /** Attempts are numbered from 1; votes stand by stages, each bound to its prompt; and nothing follows them but a bound repair. */
  ghost predicate AllBound(job: Job, d: Record) {
    && (forall k :: 0 <= k < |d.attempts| ==> d.attempts[k].index == k + 1)
    && exists t: nat :: BoundUpTo(job, d.attempts, t) && (t == |d.attempts| || exists anchor :: RepairBound(job, d, t, anchor))
  }

  /** The hash audit accepts exactly the records whose attempts are all bound to their prompts. */
  lemma HashesIff(job: Job, d: Record)
    requires Prepared(job)
    ensures HashesMatch(job, d) == Match <==> AllBound(job, d)
  {
    hide ConsumeVotes, RepairHashes, BoundUpTo, RepairBound, Prepared;
    var attempts := d.attempts;
    var votes := ConsumeVotes(job, attempts, VOTE_PHASES, []);
    forall t: nat ensures BoundUpTo(job, attempts, t) <==> votes.Some? && |votes.value| == t { VotesIff(job, attempts, t); }
    if attempts == [] {
      NoVotes(job);
    } else if votes.Some? {
      VotesIff(job, attempts, 0);
      var t := |votes.value|;
      assert attempts[t..] == [] <==> t == |attempts|;
      if t < |attempts| {
        RepairIff(job, d, t);
        assert BoundUpTo(job, d.attempts, t) && d.attempts[..t] == votes.value;
        if AllBound(job, d) { assert Numbered(attempts) && exists anchor :: RepairBound(job, d, t, anchor); }
      }
    }
  }

  lemma NoVotes(job: Job)
    ensures BoundUpTo(job, [], 0)
  {
    assert VotesBound(job, [], 0, 0, 0);
  }

  // ---------- the accepted record ----------

  lemma {:induction false} PriorVotesConcat(prior: seq<Attempt>, more: seq<Attempt>)
    ensures PriorVotes(prior + more) == PriorVotes(prior) + PriorVotes(more)
  {
    if prior == [] {
      assert prior + more == more;
    } else {
      PriorVotesConcat(prior[1..], more);
      assert (prior + more)[0] == prior[0] && (prior + more)[1..] == prior[1..] + more;
      var a := prior[0];
      ConcatAssociates(if a.candidate.Some? then [PriorVote(a.phase, a.candidate.value, a.confidence, a.codes)] else [],
                       PriorVotes(prior[1..]), PriorVotes(more));
    }
  }

  /** Earlier votes are shown when they named a candidate, with their confidence and codes, in order. */
  lemma PriorVotesShow(prior: seq<Attempt>, a: Attempt)
    ensures PriorVotes(prior + [a]) ==
            PriorVotes(prior) + match a.candidate case None => [] case Some(id) => [PriorVote(a.phase, id, a.confidence, a.codes)]
  {
    PriorVotesConcat(prior, [a]);
  }

  /** Before its last attempt the phase heard no candidate, and its last attempt is a vote graded by the threshold. */
  predicate Voted(job: Job, attempts: seq<Attempt>, i: nat, j: nat) {
    && i < j <= |attempts|
    && (forall k :: i <= k < j - 1 ==> attempts[k].status == CandidateUnknown)
    && var last := attempts[j - 1];
       && last.candidate.Some? && IsAllowed(job, last.candidate.value)
       && last.status == if last.confidence >= job.policy.minConfidence then Accepted else LowConfidence
  }

  predicate IsAllowed(job: Job, id: CandidateId) {
    exists c :: c in job.considered && c.id == id
  }

  predicate Tallied(d: Record) {
    d.retries == RetrySum(d.attempts) && d.repairs == RepairSum(d.attempts)
  }

  /** A confident primary vote for the selection. */
  ghost predicate AcceptedVote(job: Job, d: Record) {
    var n := |d.attempts|;
    && Stand(d.attempts, Primary, 0, n) && Voted(job, d.attempts, 0, n) && (d.origin == FromModel || d.origin == FromCache)
    && d.attempts[n - 1].status == Accepted && d.attempts[n - 1].codes == [] && d.codes == [] && d.consensus == NoConsensus && d.recoveries == 0
    && d.selected == d.attempts[n - 1].candidate && d.confidence == d.attempts[n - 1].confidence
  }

  /** A low primary vote and a confident recovery vote; the deciding vote is the recovery vote when the two agree, and else a confident
      tiebreak vote for one of the two. */
  ghost predicate AcceptedConsensus(job: Job, d: Record, p: nat, r: nat, t: nat) {
    && Staged(d.attempts, p, r, t) && t == |d.attempts|
    && Voted(job, d.attempts, 0, p) && Voted(job, d.attempts, p, r)
    && d.attempts[p - 1].status == LowConfidence && d.attempts[r - 1].status == Accepted
    && d.codes == [LLM_LOW_CONFIDENCE_RECOVERED] && d.agreed == d.selected
    && d.selected == d.attempts[t - 1].candidate && d.confidence == d.attempts[t - 1].confidence
    && if t == r then
         d.consensus == SameCandidate && d.recoveries == 1 && d.attempts[r - 1].candidate == d.attempts[p - 1].candidate
       else
         && d.consensus == TwoOfThree && d.recoveries == 2 && d.attempts[r - 1].candidate != d.attempts[p - 1].candidate
         && Voted(job, d.attempts, r, t) && d.attempts[t - 1].status == Accepted
         && (d.selected == d.attempts[p - 1].candidate || d.selected == d.attempts[r - 1].candidate)
  }

  /** A primary vote, and a generation and a verification that both accept the record's candidate. */
  ghost predicate AcceptedRepair(job: Job, d: Record) {
    var n := |d.attempts|;
    && n >= 3 && Voted(job, d.attempts, 0, n - 2) && Stand(d.attempts, Primary, 0, n - 2)
    && d.attempts[n - 3].codes == (if d.attempts[n - 3].status == Accepted then [] else [LLM_CONFIDENCE_TOO_LOW])
    && d.generated.Some? && d.generated.value.Full? && (d.origin == FromGenerated || d.origin == FromCache)
    && d.attempts[n - 2].phase == Generation && d.attempts[n - 1].phase == VerificationPhase
    && (forall k :: n - 2 <= k < n ==>
          && d.attempts[k].status == Accepted && d.attempts[k].candidate == Some(d.generated.value.candidate.id)
          && d.attempts[k].confidence >= job.policy.minConfidence && d.attempts[k].codes == [])
    && d.confidence <= d.attempts[n - 2].confidence && d.confidence <= d.attempts[n - 1].confidence
    && (d.confidence == d.attempts[n - 2].confidence || d.confidence == d.attempts[n - 1].confidence)
    && d.codes == [LLM_SPACING_REPAIR_APPLIED]
  }

  /** The selection is a considered candidate, or the record's own generated spacing of the region: defect-free, and of the characters and
      the changeable gaps of the whole set. */
  predicate SelectsWhatIsThere(job: Job, d: Record) {
    && d.selected.Some?
    && (|| IsAllowed(job, d.selected.value)
        || (&& d.generated.Some? && d.generated.value.Full? && job.set_.decision == SpacingType
            && var g := d.generated.value.candidate;
               && g.id == d.selected.value && g.region == job.set_.region && job.lexicon.defects(g.text) == []
               && forall c :: c in job.set_.candidates ==> c.SpacingCandidate? && c.chars == g.chars && c.mutable == g.mutable))
  }

  lemma SelectsIff(job: Job, d: Record)
    requires Prepared(job)
    ensures SelectsCurrent(job, d) <==> SelectsWhatIsThere(job, d)
  {
    hide Prepared;
    AllowedIff(job);
  }

  lemma VotedFromPhase(job: Job, attempts: seq<Attempt>, phase: Phase, i: nat, j: nat)
    requires Prepared(job) && Stand(attempts, phase, i, j) && PhaseAudit(job, OfPhase(attempts, phase))
    ensures Voted(job, attempts, i, j) && Last(OfPhase(attempts, phase)) == attempts[j - 1]
  {
    StandsCut(attempts, phase, i, j);
    var block := OfPhase(attempts, phase);
    assert block == attempts[i..j];
    hide OfPhase, Prepared;
    AllowedIff(job);
    forall k | i <= k < j - 1 ensures attempts[k].status == CandidateUnknown { assert attempts[k] == block[..|block| - 1][k - i]; }
  }

  lemma AllowedIff(job: Job)
    requires Prepared(job)
    ensures forall id :: id in job.allowed <==> IsAllowed(job, id)
  {
  }

  lemma {:induction false} PhasesOf(attempts: seq<Attempt>, phase: Phase)
    ensures phase in Phases(attempts) <==> exists k :: 0 <= k < |attempts| && attempts[k].phase == phase
  {
    if attempts != [] {
      var rest := attempts[1..];
      PhasesOf(rest, phase);
      assert forall k :: 0 < k < |attempts| ==> attempts[k] == rest[k - 1];
      assert forall k :: 0 <= k < |rest| ==> rest[k] == attempts[k + 1];
    }
  }

  lemma VoteMeans(job: Job, d: Record)
    requires Prepared(job) && PrimaryAudit(job, d) && d.consensus == NoConsensus && d.recoveries == 0
    ensures AcceptedVote(job, d) && Tallied(d)
  {
    hide Prepared;
    AllowedIff(job);
    var n := |d.attempts|;
    assert forall k :: 0 <= k < n ==> d.attempts[k] in d.attempts;
    forall k | 0 <= k < n - 1 ensures d.attempts[k].status == CandidateUnknown { assert d.attempts[k] == d.attempts[..n - 1][k]; }
  }

  lemma StagesEnd(attempts: seq<Attempt>, p: nat, r: nat, t: nat)
    requires Staged(attempts, p, r, t)
    ensures t < |attempts| ==> attempts[t].phase !in VOTE_PHASES
    ensures r < t ==> attempts[r].phase == Tiebreak
  {
  }

  /** The recovery audit's record of phases is that of its stages. */
  lemma StagesOf(d: Record, p: nat, r: nat, t: nat)
    requires Staged(d.attempts, p, r, t)
    requires Dedupe(Phases(d.attempts)) == if d.consensus == SameCandidate then [Primary, Recovery] else VOTE_PHASES
    ensures t == |d.attempts| && (d.consensus == SameCandidate ==> t == r)
  {
    hide Staged, Phases, Dedupe;
    StagesEnd(d.attempts, p, r, t);
    BoundsOf(d.attempts, p, r, t);
    var stages := Dedupe(Phases(d.attempts));
    forall k | 0 <= k < |d.attempts| ensures d.attempts[k].phase in stages { PhasesOf(d.attempts, d.attempts[k].phase); }
  }

  lemma BoundsOf(attempts: seq<Attempt>, p: nat, r: nat, t: nat)
    requires Staged(attempts, p, r, t)
    ensures p <= r <= t <= |attempts|
  {
  }

  lemma ConsensusMeans(job: Job, d: Record, p: nat, r: nat, t: nat)
    requires Prepared(job) && RecoveryAudit(job, d) && d.agreed == d.selected && Staged(d.attempts, p, r, t)
    requires d.consensus != NoConsensus
    ensures AcceptedConsensus(job, d, p, r, t) && Tallied(d)
  {
    hide OfPhase, Prepared, PhaseAudit, Phases, Dedupe, Voted, RetrySum, RepairSum, Numbered, DistinctRequests, Stand;
    VotedFromPhase(job, d.attempts, Primary, 0, p);
    VotedFromPhase(job, d.attempts, Recovery, p, r);
    StagesOf(d, p, r, t);
    VotedEnds(job, d.attempts, 0, p);
    VotedEnds(job, d.attempts, p, r);
    if d.consensus != SameCandidate {
      VotedFromPhase(job, d.attempts, Tiebreak, r, t);
      VotedEnds(job, d.attempts, r, t);
    }
  }

  lemma VotedEnds(job: Job, attempts: seq<Attempt>, i: nat, j: nat)
    requires Voted(job, attempts, i, j)
    ensures i < j <= |attempts| && attempts[j - 1].candidate.Some?
  {
  }

  lemma RepairMeans(job: Job, d: Record)
    requires Prepared(job) && GeneratedAudit(job, d)
    ensures AcceptedRepair(job, d) && Tallied(d)
  {
    hide Prepared, RetrySum, RepairSum, IsAllowed;
    AllowedIff(job);
    var n := |d.attempts|;
    var votes := d.attempts[..n - 2];
    assert forall k :: 0 <= k < n - 2 ==> votes[k] == d.attempts[k] && votes[k] in votes;
    forall k | 0 <= k < n - 3 ensures d.attempts[k].status == CandidateUnknown { assert d.attempts[k] == votes[..n - 3][k]; }
  }

  /** What the audit accepts: a record about this very request, whose attempts are all bound to the prompts they would be sent now, counted
      right, sealed under its own identity, and deciding by a confident vote, a consensus or a verified repair. */
  lemma AcceptedMeans(job: Job, d: Record)
    requires Prepared(job) && TrustedMatches(job, d) == Match
    ensures d.request == job.request && d.source == job.set_.source && d.evidence == job.request.evidence && d.setId == job.set_.id
            && d.region == job.set_.region && d.provider == job.request.provider && d.model == job.request.model
    ensures d.outcome == Selected && SelectsWhatIsThere(job, d)
    ensures d.id == DecisionIdOf(job.lexicon, d) && AllBound(job, d) && Tallied(d)
    ensures d.recovery == GeneratedRepair ==> AcceptedRepair(job, d)
    ensures d.recovery == Recovered ==> exists p: nat, r: nat, t: nat :: VotesBound(job, d.attempts, p, r, t) && AcceptedConsensus(job, d, p, r, t)
    ensures d.recovery != GeneratedRepair && d.recovery != Recovered ==> AcceptedVote(job, d)
  {
    hide Prepared, HashesMatch, SelectsCurrent, GeneratedAudit, PrimaryAudit, RecoveryAudit, AllBound, Staged, BoundFrom, AcceptedConsensus, SelectsWhatIsThere;
    HashesIff(job, d);
    SelectsIff(job, d);
    if d.recovery == GeneratedRepair {
      RepairMeans(job, d);
    } else if d.recovery == Recovered {
      BoundVotes(job, d);
      var p: nat, r: nat, t: nat :| VotesBound(job, d.attempts, p, r, t);
      ConsensusMeans(job, d, p, r, t);
    } else {
      VoteMeans(job, d);
    }
  }

  lemma BoundVotes(job: Job, d: Record)
    requires AllBound(job, d)
    ensures exists p: nat, r: nat, t: nat :: VotesBound(job, d.attempts, p, r, t)
  {
    hide VotesBound, RepairBound;
    var t: nat :| BoundUpTo(job, d.attempts, t);
    var p: nat, r: nat :| VotesBound(job, d.attempts, p, r, t);
  }
}
