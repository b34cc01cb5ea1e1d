/** Which replies make `decide` select which candidate: an account of votes, proposals and verifications
    alone, without prompts, attempts or records. On every run of every service it agrees with the machine. */
module Elections {
  import opened Common
  import opened Names
  import opened Spacing
  import opened Candidates
  import opened LlmService
  import opened Decisions
  import opened Ranking
  import opened Adjudication
  import opened DecisionProofs
  import Audit
  import Aborting

  // ---------- what is heard ----------

  /** A vote for a considered candidate, and the number of provider calls made by then. */
  datatype Ballot = Ballot(candidate: CandidateId, confidence: real, next: nat)

  predicate IsConsidered(job: Job, id: CandidateId) {
    exists c :: c in job.considered && c.id == id
  }

  predicate NamesNone(job: Job, served: Served) {
    served.Answer? && served.payload.Choice? && !IsConsidered(job, served.payload.candidate)
  }

  predicate Says(served: Served, b: Ballot) {
    served.Answer? && served.payload == Choice(b.candidate, b.confidence)
  }

  /** A vote asked for after `at` calls: the first answer, or a second one when the first names none of
      the candidates and the policy grants it. */
  predicate Hears(job: Job, serve: Service, at: nat, b: Ballot) {
    && IsConsidered(job, b.candidate)
    && var first := serve(at, ChoiceSchema);
       || (Says(first, b) && b.next == at + first.calls)
       || (&& NamesNone(job, first) && job.policy.maxSchemaAttempts == 2
           && var second := serve(at + first.calls, ChoiceSchema);
              Says(second, b) && b.next == at + first.calls + second.calls)
  }

  /** Why no candidate is selected: the codes reported, and whether the provider failed last. */
  datatype Reason = Reason(codes: seq<Code>, failed: bool)

  /** No vote is heard. */
  predicate Silent(job: Job, serve: Service, at: nat, r: Reason) {
    var first := serve(at, ChoiceSchema);
    || (first.Raised? && r == Reason([first.code], true))
    || (&& NamesNone(job, first)
        && var second := serve(at + first.calls, ChoiceSchema);
           if job.policy.maxSchemaAttempts == 1 then r == Reason([LLM_CANDIDATE_UNKNOWN], false)
           else if second.Raised? then r == Reason([second.code], true)
           else NamesNone(job, second) && r == Reason([LLM_CANDIDATE_UNKNOWN, LLM_CANDIDATE_UNKNOWN], false))
  }

  // ---------- what is elected ----------

  datatype Election = Election(candidate: CandidateId, origin: Source, confidence: real, generated: Option<Generated>)

  predicate Confident(job: Job, b: Ballot) {
    b.confidence >= job.policy.minConfidence
  }

  /** A considered spacing candidate of that ID, whose choice leads to a repair. */
  predicate Repairable(job: Job, b: Ballot, anchor: Candidate) {
    && anchor in job.considered && anchor.id == b.candidate && anchor.SpacingCandidate?
    && (!Confident(job, b) || job.lexicon.defects(anchor.text) != [])
  }

  predicate NoRepair(job: Job, b: Ballot) {
    forall anchor :: anchor in job.considered ==> !Repairable(job, b, anchor)
  }

  /** The first vote is confident. */
  ghost predicate ByVote(job: Job, serve: Service, at: nat, e: Election) {
    exists a :: Hears(job, serve, at, a) && Confident(job, a) && NoRepair(job, a) && e == Election(a.candidate, FromModel, a.confidence, None)
  }

  /** A low first vote that a recovery vote follows. */
  predicate Recovers(job: Job, serve: Service, at: nat, a: Ballot, b: Ballot) {
    && Hears(job, serve, at, a) && !Confident(job, a) && NoRepair(job, a)
    && job.policy.maxRecoveries >= 1 && Hears(job, serve, a.next, b)
  }

  /** A confident second vote agrees with the first. */
  ghost predicate ByAgreement(job: Job, serve: Service, at: nat, e: Election) {
    exists a, b :: Recovers(job, serve, at, a, b) && Confident(job, b) && b.candidate == a.candidate
                   && e == Election(b.candidate, FromRecovered, b.confidence, None)
  }

  /** A confident third vote agrees with one of two that differ. */
  predicate Ties(job: Job, serve: Service, at: nat, a: Ballot, b: Ballot) {
    Recovers(job, serve, at, a, b) && Confident(job, b) && b.candidate != a.candidate && job.policy.maxRecoveries == 2
  }

  predicate Agrees(job: Job, a: Ballot, b: Ballot, c: Ballot) {
    Confident(job, c) && (c.candidate == a.candidate || c.candidate == b.candidate)
  }

  ghost predicate ByTiebreak(job: Job, serve: Service, at: nat, e: Election) {
    exists a, b, c :: Ties(job, serve, at, a, b) && Hears(job, serve, b.next, c) && Agrees(job, a, b, c)
                      && e == Election(c.candidate, FromRecovered, c.confidence, None)
  }

  /** A text that keeps the anchor's characters, its line breaks and its fixed gaps, is in normal form,
      breaks no line where it may choose, and has no defect. */
  ghost predicate Acceptable(lexicon: Lexicon, anchor: SpacedCandidate, text: string) {
    && Squeeze(text) == anchor.chars && Normal(text) == text
    && (forall c :: c in text && IsSpace(c) ==> c == ' ' || c == '\n')
    && !lexicon.splitsIdentifier(text) && !lexicon.splitsProtected(text, anchor.text) && lexicon.defects(text) == []
    && |Gaps(text)| == |anchor.boundaries|
    && forall k :: 0 <= k < |anchor.boundaries| ==>
         && (Gaps(text)[k] == HardBreak <==> anchor.boundaries[k].gap == HardBreak)
         && (anchor.mutable.Some? && k !in anchor.mutable.value ==> Gaps(text)[k] == anchor.boundaries[k].gap)
  }

  /** The anchor with another text, under the ID its content derives. */
  ghost predicate Respaces(lexicon: Lexicon, anchor: SpacedCandidate, text: string, confidence: real, c: SpacedCandidate) {
    && c.text == text && c.chars == anchor.chars && c.region == anchor.region && c.atoms == anchor.atoms
    && c.mutable == anchor.mutable && c.score == confidence && c.features == map[LLM_GENERATED_SPACING := confidence]
    && |c.boundaries| == |anchor.boundaries| == |Gaps(text)|
    && (forall k :: 0 <= k < |c.boundaries| ==>
          c.boundaries[k] == Boundary(anchor.boundaries[k].left, anchor.boundaries[k].right, Gaps(text)[k], anchor.boundaries[k].whitespace))
    && c.id == lexicon.mint(SpacingIdentity(c.region, c.text, c.atoms, c.boundaries, c.mutable))
  }

  /** The considered candidates are spacings of the same characters that may change the same gaps. */
  predicate OneSpelling(job: Job) {
    forall a, b :: a in job.considered && b in job.considered ==>
      a.SpacingCandidate? && b.SpacingCandidate? && a.chars == b.chars && a.mutable == b.mutable
  }

  /** A repair whose proposal is asked for after `a.next` calls. */
  ghost predicate Repairs(job: Job, serve: Service, at: nat, a: Ballot, anchor: SpacedCandidate) {
    Hears(job, serve, at, a) && Repairable(job, a, anchor) && OneSpelling(job)
  }

  ghost predicate Proposes(job: Job, anchor: SpacedCandidate, proposal: Served, c: SpacedCandidate) {
    && proposal.Answer? && proposal.payload.Proposal? && Acceptable(job.lexicon, anchor, proposal.payload.text)
    && Respaces(job.lexicon, anchor, proposal.payload.text, proposal.payload.confidence, c)
  }

  /** The answer about the considered candidates and the generated one. */
  function VerificationOf(job: Job, serve: Service, at: nat, c: SpacedCandidate): Served {
    serve(at, VerificationSchema((set o | o in job.considered :: o.id) + {c.id}))
  }

  predicate Approves(job: Job, proposed: real, verification: Served, c: SpacedCandidate) {
    && proposed >= job.policy.minConfidence
    && verification.Answer? && verification.payload.Verification?
    && verification.payload.candidate == c.id && verification.payload.confidence >= job.policy.minConfidence
    && forall code :: code in verification.payload.codes ==> code == VALID
  }

  /** The proposal for the anchor is acceptable, gives the candidate, and its verification approves it. */
  ghost predicate Carries(job: Job, anchor: SpacedCandidate, serve: Service, at: nat, c: SpacedCandidate) {
    var proposal := serve(at, ProposalSchema);
    Proposes(job, anchor, proposal, c)
    && Approves(job, proposal.payload.confidence, VerificationOf(job, serve, at + proposal.calls, c), c)
  }

  ghost function Outcome(job: Job, anchor: SpacedCandidate, serve: Service, at: nat, c: SpacedCandidate): Election
    requires Carries(job, anchor, serve, at, c)
  {
    var proposal := serve(at, ProposalSchema);
    Election(c.id, FromGenerated, Least(proposal.payload.confidence, VerificationOf(job, serve, at + proposal.calls, c).payload.confidence), Some(Full(c)))
  }

  ghost predicate ByRepair(job: Job, serve: Service, at: nat, e: Election) {
    exists a: Ballot, anchor: SpacedCandidate, c: SpacedCandidate ::
      Repairs(job, serve, at, a, anchor) && Carries(job, anchor, serve, a.next, c) && e == Outcome(job, anchor, serve, a.next, c)
  }

  function Least(x: real, y: real): real {
    if x <= y then x else y
  }

  /** The replies elect a candidate. */
  ghost predicate Elects(job: Job, serve: Service, at: nat, e: Election) {
    ByVote(job, serve, at, e) || ByAgreement(job, serve, at, e) || ByTiebreak(job, serve, at, e) || ByRepair(job, serve, at, e)
  }

  // ---------- what leaves the decision open ----------

  /** The votes do not elect. */
  ghost predicate VotesFail(job: Job, serve: Service, at: nat, r: Reason) {
    || Silent(job, serve, at, r)
    || (exists a :: Hears(job, serve, at, a) && !Confident(job, a) && NoRepair(job, a)
                    && if job.policy.maxRecoveries == 0 then r == Reason([LLM_CONFIDENCE_TOO_LOW], false) else Silent(job, serve, a.next, r))
    || (exists a, b :: Recovers(job, serve, at, a, b) && !Confident(job, b) && r == Reason([LLM_CONFIDENCE_RECOVERY_EXHAUSTED], false))
    || (exists a, b :: Recovers(job, serve, at, a, b) && Confident(job, b) && b.candidate != a.candidate
                       && job.policy.maxRecoveries == 1 && r == Reason([LLM_CONSENSUS_NOT_REACHED], false))
    || (exists a, b :: Ties(job, serve, at, a, b) && Silent(job, serve, b.next, r))
    || (exists a, b, c :: Ties(job, serve, at, a, b) && Hears(job, serve, b.next, c) && !Agrees(job, a, b, c)
                          && r == Reason([LLM_CONSENSUS_NOT_REACHED], false))
  }

  /** The proposal is missing or not acceptable, or its verification is missing or negative. */
  ghost predicate RepairFails(job: Job, serve: Service, at: nat, r: Reason) {
    exists a: Ballot, anchor: SpacedCandidate :: Repairs(job, serve, at, a, anchor) && ProposalFails(job, serve, a.next, anchor, r)
  }

  ghost predicate ProposalFails(job: Job, serve: Service, at: nat, anchor: SpacedCandidate, r: Reason) {
    var proposal := serve(at, ProposalSchema);
    || (proposal.Raised? && r == Reason([proposal.code], true))
    || (proposal.Answer? && proposal.payload.Proposal? && !Acceptable(job.lexicon, anchor, proposal.payload.text) && r == Reason([], false))
    || exists c: SpacedCandidate ::
         && Proposes(job, anchor, proposal, c)
         && var verification := VerificationOf(job, serve, at + proposal.calls, c);
            if verification.Raised? then r == Reason([verification.code], true)
            else !Approves(job, proposal.payload.confidence, verification, c) && r == Reason([], false)
  }

  // ---------- what a record says ----------

  ghost predicate Records(v: Verdict, e: Election) {
    && v.Decided? && v.record.outcome == Selected && v.record.selected == Some(e.candidate) && v.record.origin == e.origin
    && v.record.confidence == e.confidence && v.record.generated == e.generated
  }

  /** A defect-free spacing candidate, or any candidate of another kind of set. */
  predicate Usable(job: Job, c: Candidate) {
    c in job.set_.candidates && (job.set_.decision == SpacingType ==> c.SpacingCandidate? && job.lexicon.defects(c.text) == [])
  }

  predicate FromTheSource(job: Job, c: Candidate) {
    job.set_.decision == SpacingType && SOURCE_SPACING in c.features
  }

  /** No other usable candidate comes before it: those with the spacing of the source first, then by score, then by ID. */
  ghost predicate Best(job: Job, c: Candidate) {
    && Usable(job, c)
    && forall o :: Usable(job, o) ==>
         || (FromTheSource(job, c) && !FromTheSource(job, o))
         || (FromTheSource(job, c) == FromTheSource(job, o) && (o.score < c.score || (o.score == c.score && o.id <= c.id)))
  }

  /** The record leaves the decision open for a reason: with the best usable candidate as a fallback, or
      with none when there is no usable one. */
  ghost predicate LeavesOpen(job: Job, d: Record, r: Reason) {
    if exists c :: Usable(job, c) then
      && d.outcome == DeferredReview && d.origin == FromFallback && d.recovery == Deferred
      && d.codes == Dedupe(r.codes + [if job.set_.decision == SpacingType then LLM_SPACING_REPAIR_DEFERRED else LLM_CANDIDATE_SELECTION_DEFERRED])
      && exists c :: Best(job, c) && d.selected == Some(c.id) && d.confidence == c.score
    else
      && d.outcome == ReviewRequired && d.selected == None && d.confidence == 0.0 && d.recovery == NeedsReview
      && d.codes == Dedupe(r.codes + [SPACING_REPAIR_SAFE_FALLBACK_UNAVAILABLE])
      && d.origin == (if job.request.provider == NO_PROVIDER then FromUnavailable else if r.failed then FromProvider else FromModel)
  }

  predicate FailedLast(attempts: seq<Attempt>) {
    attempts != [] && attempts[|attempts| - 1].status == ProviderRejected
  }

  lemma DeferredLeavesOpen(job: Job, attempts: seq<Attempt>, codes: seq<Code>)
    requires Prepared(job)
    ensures LeavesOpen(job, DeferredRecord(job, attempts, codes), Reason(codes, FailedLast(attempts)))
    ensures DeferredRecord(job, attempts, codes).outcome != Selected
  {
    FallbackIsBest(job);
  }

  lemma FallbackIsBest(job: Job)
    requires Prepared(job)
    ensures if exists c :: Usable(job, c) then FallbackOf(job).Safe? && Best(job, FallbackOf(job).candidate)
            else FallbackOf(job) == Unsafe(SPACING_REPAIR_SAFE_FALLBACK_UNAVAILABLE)
  {
    var all := job.set_.candidates;
    assert all[0] in all;
    if job.set_.decision == SpacingType {
      assert SpacingOnly(all) == all;
      var safe := DefectFree(job.lexicon, all);
      assert forall c :: c in safe <==> Usable(job, c);
      if safe != [] { assert Usable(job, safe[0]); }
    } else {
      assert Usable(job, all[0]);
    }
  }

  // ---------- votes ----------

  lemma HearsIff(job: Job, phase: Phase, prior: seq<Attempt>, serve: Service, at: nat, b: Ballot)
    requires Prepared(job)
    ensures var r := VotePhase(job, phase, prior, serve, at);
            Hears(job, serve, at, b) <==> r.choice == Some(Vote(b.candidate, b.confidence)) && b.next == at + r.calls
  {
    assert forall id :: IsConsidered(job, id) <==> id in job.allowed;
  }

  lemma SilentIff(job: Job, phase: Phase, prior: seq<Attempt>, serve: Service, at: nat)
    requires Prepared(job)
    ensures var r := VotePhase(job, phase, prior, serve, at);
            && (r.choice.None? ==> Silent(job, serve, at, Reason(r.codes, FailedLast(r.attempts))))
            && (r.choice.Some? ==> !FailedLast(r.attempts) && forall reason :: !Silent(job, serve, at, reason))
            && r.attempts != []
  {
    assert forall id :: IsConsidered(job, id) <==> id in job.allowed;
  }

  lemma OneBallot(job: Job, serve: Service, at: nat, a: Ballot, b: Ballot)
    requires Hears(job, serve, at, a) && Hears(job, serve, at, b)
    ensures a == b
  {
  }

  // ---------- recovery and tiebreak ----------

  lemma BreakIff(job: Job, a: Ballot, b: Ballot, attempts: seq<Attempt>, serve: Service, at: nat, e: Election)
    requires Prepared(job) && Ties(job, serve, at, a, b)
    ensures var v := Break(job, Vote(a.candidate, a.confidence), Vote(b.candidate, b.confidence), attempts, serve, b.next);
            && v.Decided? && (Records(v, e) <==> ByTiebreak(job, serve, at, e))
            && (v.record.outcome != Selected ==> exists r :: VotesFail(job, serve, at, r) && LeavesOpen(job, v.record, r))
  {
    hide VotePhase, Hears, Silent, LeavesOpen, DeferredRecord, Prepared;
    var third := VotePhase(job, Tiebreak, attempts, serve, b.next);
    var all := attempts + third.attempts;
    NotEmpty(job);
    SilentIff(job, Tiebreak, attempts, serve, b.next);
    forall c: Ballot ensures Hears(job, serve, b.next, c) <==> third.choice == Some(Vote(c.candidate, c.confidence)) && c.next == b.next + third.calls {
      HearsIff(job, Tiebreak, attempts, serve, b.next, c);
    }
    forall x, y, c | Ties(job, serve, at, x, y) && Hears(job, serve, y.next, c) ensures x == a && y == b {
      OneBallot(job, serve, at, a, x);
      OneBallot(job, serve, a.next, b, y);
    }
    if third.choice.None? {
      DeferredLeavesOpen(job, all, third.codes);
      assert VotesFail(job, serve, at, Reason(third.codes, FailedLast(third.attempts)));
    } else {
      var c := Ballot(third.choice.value.candidate, third.choice.value.confidence, b.next + third.calls);
      assert Hears(job, serve, b.next, c);
      if Agrees(job, a, b, c) {
      } else {
        DeferredLeavesOpen(job, all, [LLM_CONSENSUS_NOT_REACHED]);
        assert VotesFail(job, serve, at, Reason([LLM_CONSENSUS_NOT_REACHED], false));
      }
    }
  }

  lemma RecoverIff(job: Job, a: Ballot, primary: seq<Attempt>, serve: Service, at: nat, e: Election)
    requires Prepared(job) && Hears(job, serve, at, a) && !Confident(job, a) && NoRepair(job, a) && !FailedLast(primary)
    ensures var v := Recover(job, Vote(a.candidate, a.confidence), primary, serve, a.next);
            && v.Decided? && (Records(v, e) <==> ByAgreement(job, serve, at, e) || ByTiebreak(job, serve, at, e))
            && (v.record.outcome != Selected ==> exists r :: VotesFail(job, serve, at, r) && LeavesOpen(job, v.record, r))
  {
    hide VotePhase, Hears, Silent, LeavesOpen, DeferredRecord, Break, VotesFail, Prepared, ByTiebreak;
    NotEmpty(job);
    AtMostTwo(job);
    var second := VotePhase(job, Recovery, primary, serve, a.next);
    var all := primary + second.attempts;
    SilentIff(job, Recovery, primary, serve, a.next);
    forall b: Ballot ensures Hears(job, serve, a.next, b) <==> second.choice == Some(Vote(b.candidate, b.confidence)) && b.next == a.next + second.calls {
      HearsIff(job, Recovery, primary, serve, a.next, b);
    }
    forall x, y | Recovers(job, serve, at, x, y) ensures x == a {
      OneBallot(job, serve, at, a, x);
    }
    if job.policy.maxRecoveries < 1 {
      DeferredLeavesOpen(job, primary, [LLM_CONFIDENCE_TOO_LOW]);
      FailsAfterFirst(job, serve, at, a, Reason([LLM_CONFIDENCE_TOO_LOW], false));
      NoTie(job, serve, at, e);
    } else if second.choice.None? {
      DeferredLeavesOpen(job, all, second.codes);
      FailsAfterFirst(job, serve, at, a, Reason(second.codes, FailedLast(second.attempts)));
      NoTie(job, serve, at, e);
    } else {
      var b := Ballot(second.choice.value.candidate, second.choice.value.confidence, a.next + second.calls);
      assert Recovers(job, serve, at, a, b);
      forall x, y | Recovers(job, serve, at, x, y) ensures x == a && y == b {}
      if !Confident(job, b) {
        DeferredLeavesOpen(job, all, [LLM_CONFIDENCE_RECOVERY_EXHAUSTED]);
        FailsAfterSecond(job, serve, at, a, b, Reason([LLM_CONFIDENCE_RECOVERY_EXHAUSTED], false));
        NoTie(job, serve, at, e);
      } else if b.candidate == a.candidate {
        NoTie(job, serve, at, e);
      } else if job.policy.maxRecoveries < 2 {
        DeferredLeavesOpen(job, all, [LLM_CONSENSUS_NOT_REACHED]);
        FailsAfterSecond(job, serve, at, a, b, Reason([LLM_CONSENSUS_NOT_REACHED], false));
        NoTie(job, serve, at, e);
      } else {
        BreakIff(job, a, b, all, serve, at, e);
      }
    }
  }

  lemma AtMostTwo(job: Job)
    requires Prepared(job)
    ensures job.policy.maxRecoveries <= 2
  {
  }

  lemma FailsAfterFirst(job: Job, serve: Service, at: nat, a: Ballot, r: Reason)
    requires Hears(job, serve, at, a) && !Confident(job, a) && NoRepair(job, a)
    requires if job.policy.maxRecoveries == 0 then r == Reason([LLM_CONFIDENCE_TOO_LOW], false) else Silent(job, serve, a.next, r)
    ensures VotesFail(job, serve, at, r)
  {
    hide Hears, Silent, NoRepair;
  }

  lemma FailsAfterSecond(job: Job, serve: Service, at: nat, a: Ballot, b: Ballot, r: Reason)
    requires Recovers(job, serve, at, a, b)
    requires if !Confident(job, b) then r == Reason([LLM_CONFIDENCE_RECOVERY_EXHAUSTED], false)
             else b.candidate != a.candidate && job.policy.maxRecoveries == 1 && r == Reason([LLM_CONSENSUS_NOT_REACHED], false)
    ensures VotesFail(job, serve, at, r)
  {
    hide Recovers, Silent, Hears;
  }

  lemma NoTie(job: Job, serve: Service, at: nat, e: Election)
    requires forall a, b :: !Ties(job, serve, at, a, b)
    ensures !ByTiebreak(job, serve, at, e)
  {
    hide Ties, Hears;
  }

  // ---------- generation and verification ----------

  lemma {:induction false} BreakIsListed(boundaries: seq<Boundary>, pair: (AtomId, AtomId))
    requires pair in HardBreaks(boundaries)
    ensures exists k :: 0 <= k < |boundaries| && boundaries[k].left == pair.0
  {
    if boundaries[0].gap != HardBreak || pair != (boundaries[0].left, boundaries[0].right) {
      BreakIsListed(boundaries[1..], pair);
      var k :| 0 <= k < |boundaries[1..]| && boundaries[1..][k].left == pair.0;
      assert boundaries[k + 1].left == pair.0;
    }
  }

  /** Line breaks at the same places. */
  predicate SameLines(a: seq<Boundary>, b: seq<Boundary>)
    requires |a| == |b|
  {
    forall k :: 0 <= k < |a| ==> (a[k].gap == HardBreak <==> b[k].gap == HardBreak)
  }

  lemma SameLinesStep(a: seq<Boundary>, b: seq<Boundary>)
    requires |a| == |b| > 0
    ensures SameLines(a, b) <==> (a[0].gap == HardBreak <==> b[0].gap == HardBreak) && SameLines(a[1..], b[1..])
  {
    if SameLines(a[1..], b[1..]) {
      forall k | 0 < k < |a| ensures a[k].gap == HardBreak <==> b[k].gap == HardBreak {
        assert a[k] == a[1..][k - 1] && b[k] == b[1..][k - 1];
      }
    }
  }

  /** Between the same atoms, the same line breaks are line breaks at the same places. */
  lemma {:induction false} SameBreaksIff(a: seq<Boundary>, b: seq<Boundary>)
    requires |a| == |b| && forall k :: 0 <= k < |a| ==> a[k].left == b[k].left && a[k].right == b[k].right
    requires forall i, j :: 0 <= i < j < |a| ==> a[i].left != a[j].left
    ensures HardBreaks(a) == HardBreaks(b) <==> SameLines(a, b)
  {
    if a != [] {
      hide SameLines;
      SameLinesStep(a, b);
      SameBreaksIff(a[1..], b[1..]);
      var x, y := HardBreaks(a[1..]), HardBreaks(b[1..]);
      var pair := (a[0].left, a[0].right);
      if pair in x { BreakIsListed(a[1..], pair); }
      if pair in y { BreakIsListed(b[1..], pair); }
      assert ([pair] + x)[1..] == x && ([pair] + y)[1..] == y && [] + x == x && [] + y == y;
      if a[0].gap == HardBreak && b[0].gap != HardBreak { assert HardBreaks(a)[0] == pair; }
      if a[0].gap != HardBreak && b[0].gap == HardBreak { assert HardBreaks(b)[0] == pair; }
    }
  }

  lemma MadeParts(lexicon: Lexicon, anchor: SpacedCandidate, text: string, confidence: real, c: SpacedCandidate)
    requires ValidSpacing(anchor) && Squeeze(text) == anchor.chars
    requires MakeSpacing(lexicon.mint, anchor.region, text, anchor.chars, anchor.atoms, WhitespaceOf(anchor.boundaries), confidence,
                         map[LLM_GENERATED_SPACING := confidence], anchor.mutable) == Made(c)
    ensures |Gaps(text)| == |anchor.boundaries| && Respaces(lexicon, anchor, text, confidence, c)
  {
    hide Gaps, Squeeze, Render, SpaceFree, ValidMutable;
    GapCount(text);
  }

  lemma MadeBreaks(lexicon: Lexicon, anchor: SpacedCandidate, text: string, confidence: real, c: SpacedCandidate)
    requires ValidSpacing(anchor) && Respaces(lexicon, anchor, text, confidence, c)
    ensures SameHardBreaks(c.boundaries, anchor.boundaries) <==>
              forall k :: 0 <= k < |anchor.boundaries| ==> (Gaps(text)[k] == HardBreak <==> anchor.boundaries[k].gap == HardBreak)
  {
    hide Gaps, Squeeze, Render, SpaceFree, ValidMutable;
    SameBreaksIff(c.boundaries, anchor.boundaries);
  }

  /** A candidate is built exactly from an acceptable text, and is the anchor with that text. */
  lemma BuildIff(lexicon: Lexicon, anchor: SpacedCandidate, text: string, confidence: real)
    requires ValidSpacing(anchor) && 0.0 <= confidence <= 1.0
    ensures var built := BuildGenerated(lexicon, anchor, text, confidence);
            && (built.Made? <==> Acceptable(lexicon, anchor, text))
            && (built.Made? ==> Respaces(lexicon, anchor, text, confidence, built.candidate))
  {
    hide MakeSpacing, SameHardBreaks, Normal, Gaps;
    if Squeeze(text) == anchor.chars {
      GapCount(text);
      Aborting.ValidatesIff(lexicon.mint, anchor, text, confidence, map[LLM_GENERATED_SPACING := confidence]);
      Aborting.MutableIff(anchor, text);
      var made := MakeSpacing(lexicon.mint, anchor.region, text, anchor.chars, anchor.atoms, WhitespaceOf(anchor.boundaries), confidence,
                              map[LLM_GENERATED_SPACING := confidence], anchor.mutable);
      if made.Made? {
        MadeParts(lexicon, anchor, text, confidence, made.candidate);
        MadeBreaks(lexicon, anchor, text, confidence, made.candidate);
      }
    }
  }

  lemma OneRespacing(lexicon: Lexicon, anchor: SpacedCandidate, text: string, confidence: real, c: SpacedCandidate, d: SpacedCandidate)
    requires Respaces(lexicon, anchor, text, confidence, c) && Respaces(lexicon, anchor, text, confidence, d)
    ensures c == d
  {
    assert c.boundaries == d.boundaries;
  }

  lemma {:induction false} OnlyValid(codes: seq<Code>)
    ensures WithoutValid(codes) == [] <==> forall code :: code in codes ==> code == VALID
  {
    if codes != [] {
      OnlyValid(codes[1..]);
      assert forall code :: code in codes <==> code == codes[0] || code in codes[1..];
      if codes[0] == VALID {
        assert WithoutValid(codes) == WithoutValid(codes[1..]);
      } else {
        assert codes[0] in codes && WithoutValid(codes)[0] == codes[0];
      }
    }
  }

  lemma VerifyIff(job: Job, c: SpacedCandidate, proposed: real, before: seq<Attempt>, serve: Service, at: nat)
    requires Prepared(job) && job.set_.decision == SpacingType && Audit.VerificationScope(job.set_, job.considered, c)
    ensures var v, answer := Verify(job, c, proposed, before, serve, at), VerificationOf(job, serve, at, c);
            if Approves(job, proposed, answer, c)
            then Records(v, Election(c.id, FromGenerated, Least(proposed, answer.payload.confidence), Some(Full(c))))
            else v.Decided? ==>
              && v.record.outcome != Selected
              && LeavesOpen(job, v.record, if answer.Raised? then Reason([answer.code], true) else Reason([], false))
  {
    hide LeavesOpen, DeferredRecord, Prepared, Audit.VerificationScope;
    var answer := VerificationOf(job, serve, at, c);
    assert answer == serve(at, VerificationSchema(Ids(job.considered) + {c.id})) by {
      assert (set o | o in job.considered :: o.id) == Ids(job.considered);
    }
    VerifyUnfolds(job, c, proposed, before, serve, at);
    if answer.Answer? { OnlyValid(answer.payload.codes); }
    var attempt := VerificationAttempt(job, c, proposed, |before| + 1, answer);
    DeferredLeavesOpen(job, before + [attempt], if answer.Raised? then attempt.codes else []);
  }

  /** One repair: its proposal asked for after `at` calls. */
  lemma RepairIff(job: Job, anchor: SpacedCandidate, primary: seq<Attempt>, serve: Service, at: nat)
    requires Prepared(job) && job.set_.decision == SpacingType && anchor in job.considered && ValidSpacing(anchor)
    ensures var v, proposal := Repair(job, anchor, primary, serve, at), serve(at, ProposalSchema);
            && (v.Decided? && v.record.outcome == Selected ==>
                  exists c: SpacedCandidate :: Carries(job, anchor, serve, at, c) && Records(v, Outcome(job, anchor, serve, at, c)))
            && (v.Decided? && v.record.outcome != Selected ==>
                  exists r :: ProposalFails(job, serve, at, anchor, r) && LeavesOpen(job, v.record, r))
            && (OneSpelling(job) ==>
                  forall c: SpacedCandidate :: Carries(job, anchor, serve, at, c) ==> Records(v, Outcome(job, anchor, serve, at, c)))
            && (v.Decided? ==> OneSpelling(job))
  {
    hide LeavesOpen, DeferredRecord, Prepared, Audit.GenerationScope, Audit.VerificationScope, Repair, Verify, BuildGenerated, Acceptable, Respaces,
      ValidSpacing, Approves, VerificationOf;
    var proposal := serve(at, ProposalSchema);
    RepairUnfolds(job, anchor, primary, serve, at);
    Aborting.ScopeIsAlikeness(job, anchor);
    var g := GenerationAttempt(job, anchor, |primary| + 1, proposal);
    DeferredLeavesOpen(job, primary + [g], if proposal.Raised? then g.codes else []);
    if proposal.Answer? { BuildIff(job.lexicon, anchor, proposal.payload.text, proposal.payload.confidence); }
    if Audit.GenerationScope(job.set_, job.considered, anchor) && BuiltFrom(job, anchor, proposal).Made? {
      var c := BuiltFrom(job, anchor, proposal).candidate;
      BuiltFacts(job.lexicon, anchor, proposal.payload.text, proposal.payload.confidence);
      Aborting.InScope(job, anchor, c);
      VerifyIff(job, c, g.confidence, primary + [g], serve, at + proposal.calls);
      forall d | Respaces(job.lexicon, anchor, proposal.payload.text, proposal.payload.confidence, d) ensures d == c {
        OneRespacing(job.lexicon, anchor, proposal.payload.text, proposal.payload.confidence, c, d);
      }
      assert Proposes(job, anchor, proposal, c);
      var answer := VerificationOf(job, serve, at + proposal.calls, c);
      if Approves(job, proposal.payload.confidence, answer, c) {
        assert Carries(job, anchor, serve, at, c);
      } else {
        assert ProposalFails(job, serve, at, anchor, if answer.Raised? then Reason([answer.code], true) else Reason([], false));
      }
    }
  }

  // ---------- the decision ----------

  /** The machine's choice of a repair, in terms of the vote. */
  lemma RepairableIff(job: Job, b: Ballot, anchor: Candidate)
    requires Prepared(job)
    ensures var chosen := ById(job.considered, b.candidate);
            Repairable(job, b, anchor) <==>
              && chosen == Some(anchor) && anchor.SpacingCandidate? && (!Confident(job, b) || job.lexicon.defects(anchor.text) != [])
    ensures Repairable(job, b, anchor) ==> job.set_.decision == SpacingType && ValidSpacing(anchor)
  {
    hide ValidSpacing;
    ConsideredMembers(job);
    var chosen := ById(job.considered, b.candidate);
    if anchor in job.considered && anchor.id == b.candidate {
      var all := job.set_.candidates;
      var i :| 0 <= i < |all| && all[i] == anchor;
      var j :| 0 <= j < |all| && all[j] == chosen.value;
    }
  }

  lemma ConsultIff(job: Job, serve: Service, at: nat, e: Election)
    requires Prepared(job)
    ensures var v := Consult(job, serve, at);
            && (Records(v, e) <==> Elects(job, serve, at, e))
            && (v.Decided? && v.record.outcome != Selected ==>
                  exists r :: (VotesFail(job, serve, at, r) || RepairFails(job, serve, at, r)) && LeavesOpen(job, v.record, r))
  {
    hide VotePhase, Hears, Silent, LeavesOpen, DeferredRecord, VotesFail, Prepared, ByTiebreak, ByAgreement, Recover, Repair, Carries, Repairable,
      ProposalFails, ById;
    NotEmpty(job);
    var p := VotePhase(job, Primary, [], serve, at);
    SilentIff(job, Primary, [], serve, at);
    forall b: Ballot ensures Hears(job, serve, at, b) <==> p.choice == Some(Vote(b.candidate, b.confidence)) && b.next == at + p.calls {
      HearsIff(job, Primary, [], serve, at, b);
    }
    if p.choice.None? {
      DeferredLeavesOpen(job, p.attempts, p.codes);
      FailsAtOnce(job, serve, at, Reason(p.codes, FailedLast(p.attempts)));
      NothingHeard(job, serve, at, e);
    } else {
      var a := Ballot(p.choice.value.candidate, p.choice.value.confidence, at + p.calls);
      assert Hears(job, serve, at, a);
      forall x ensures Repairable(job, a, x) <==>
          && ById(job.considered, a.candidate) == Some(x) && x.SpacingCandidate? && (!Confident(job, a) || job.lexicon.defects(x.text) != [])
      {
        RepairableIff(job, a, x);
      }
      FirstHeard(job, serve, at, a, e);
      if x :| Repairable(job, a, x) {
        RepairableIff(job, a, x);
        ConsultRepair(job, serve, at, a, x, p, e);
      } else {
        assert NoRepair(job, a);
        if !Confident(job, a) { RecoverIff(job, a, p.attempts, serve, at, e); }
      }
    }
  }

  lemma FailsAtOnce(job: Job, serve: Service, at: nat, r: Reason)
    requires Silent(job, serve, at, r)
    ensures VotesFail(job, serve, at, r)
  {
  }

  lemma NothingHeard(job: Job, serve: Service, at: nat, e: Election)
    requires forall b :: !Hears(job, serve, at, b)
    ensures !Elects(job, serve, at, e)
  {
    hide Hears;
  }

  /** The first ballot decides which way the election can go. */
  lemma FirstHeard(job: Job, serve: Service, at: nat, a: Ballot, e: Election)
    requires Hears(job, serve, at, a) && forall b :: Hears(job, serve, at, b) ==> b == a
    ensures !(NoRepair(job, a) && Confident(job, a)) ==> !ByVote(job, serve, at, e)
    ensures NoRepair(job, a) && Confident(job, a) ==> (ByVote(job, serve, at, e) <==> e == Election(a.candidate, FromModel, a.confidence, None))
    ensures !(NoRepair(job, a) && !Confident(job, a)) ==> !ByAgreement(job, serve, at, e) && !ByTiebreak(job, serve, at, e)
    ensures NoRepair(job, a) ==> !ByRepair(job, serve, at, e)
  {
    hide Hears, Carries;
  }

  lemma ConsultRepair(job: Job, serve: Service, at: nat, a: Ballot, anchor: SpacedCandidate, p: VoteResult, e: Election)
    requires Prepared(job) && Hears(job, serve, at, a) && Repairable(job, a, anchor) && (forall b :: Hears(job, serve, at, b) ==> b == a)
    requires p.calls + at == a.next && job.set_.decision == SpacingType && ValidSpacing(anchor)
    ensures job.set_.candidates != []
    ensures var v := After(p.calls, Repair(job, anchor, p.attempts, serve, a.next));
            && (Records(v, e) <==> ByRepair(job, serve, at, e))
            && (v.Decided? && v.record.outcome != Selected ==> exists r :: RepairFails(job, serve, at, r) && LeavesOpen(job, v.record, r))
  {
    hide Hears, Carries, Repair, LeavesOpen, ProposalFails, ValidSpacing, Prepared, OneSpelling, Repairable;
    NotEmpty(job);
    assert anchor in job.considered by { OnlyConsidered(job, a, anchor); }
    RepairIff(job, anchor, p.attempts, serve, a.next);
    forall b: Ballot, x: SpacedCandidate | Repairs(job, serve, at, b, x) ensures b == a && x == anchor {
      RepairableIff(job, a, x);
      RepairableIff(job, a, anchor);
    }
    var v := Repair(job, anchor, p.attempts, serve, a.next);
    if v.Decided? && v.record.outcome == Selected {
      var c: SpacedCandidate :| Carries(job, anchor, serve, a.next, c) && Records(v, Outcome(job, anchor, serve, a.next, c));
      assert Repairs(job, serve, at, a, anchor);
    }
    if v.Decided? && v.record.outcome != Selected {
      var r :| ProposalFails(job, serve, a.next, anchor, r) && LeavesOpen(job, v.record, r);
      assert RepairFails(job, serve, at, r) by { assert Repairs(job, serve, at, a, anchor); }
    }
  }

  lemma OnlyConsidered(job: Job, a: Ballot, anchor: SpacedCandidate)
    requires Repairable(job, a, anchor)
    ensures anchor in job.considered
  {
  }

  // ---------- before the model is asked ----------

  /** A table whose three structural proofs are complete. */
  predicate ProvesItself(c: Candidate) {
    && c.TableCandidate?
    && ATOM_BBOX_CELL_AGREEMENT in c.features && c.features[ATOM_BBOX_CELL_AGREEMENT] == 1.0
    && CELL_CHARACTER_MULTISET in c.features && c.features[CELL_CHARACTER_MULTISET] == 1.0
    && STRUCTURE_HINT_TEXT in c.features && c.features[STRUCTURE_HINT_TEXT] == 1.0
  }

  /** The same grid of cells: dimensions, and for each cell its span, its atoms and whether it is a header. */
  predicate OneShape(a: Candidate, b: Candidate)
    requires a.TableCandidate? && b.TableCandidate?
  {
    && a.rows == b.rows && a.columns == b.columns && |a.cells| == |b.cells|
    && forall i :: 0 <= i < |a.cells| ==>
         var x, y := a.cells[i], b.cells[i]; x.span == y.span && x.header == y.header && x.atoms == y.atoms
  }

  /** A considered table proves itself, and all that do have one structure. */
  ghost predicate OneProof(job: Job) {
    && (exists c :: c in job.considered && ProvesItself(c))
    && forall a, b :: a in job.considered && b in job.considered && ProvesItself(a) && ProvesItself(b) ==> OneShape(a, b)
  }

  /** The best considered candidate is good enough, without defects, and the margin ahead of the others - or
      of nothing, when it is the only one. */
  ghost predicate ClearBest(job: Job, c: Candidate) {
    && c in job.considered && c.score >= job.policy.autoScore && (c.SpacingCandidate? ==> job.lexicon.defects(c.text) == [])
    && (forall o :: o in job.considered && o.id != c.id ==>
          (o.score < c.score || (o.score == c.score && c.id < o.id)) && c.score - o.score >= job.policy.autoMargin)
    && ((forall o :: o in job.considered ==> o.id == c.id) ==> c.score >= job.policy.autoMargin)
  }

  ghost predicate Accepts(d: Record, c: Candidate, confidence: real) {
    && d.outcome == Selected && d.origin == FromDeterministic && d.selected == Some(c.id) && d.confidence == confidence
    && d.generated == None && d.attempts == [] && d.codes == []
  }

  lemma ConsideredApart(job: Job)
    requires Prepared(job)
    ensures forall i, j :: 0 <= i < j < |job.considered| ==> job.considered[i].id != job.considered[j].id
  {
    hide ValidCandidate, TypeOf;
    var all, ranked := job.set_.candidates, Rank(job.set_.candidates);
    RankSorts(all);
    forall x ensures multiset(ranked)[x] <= 1 {
      assert Distinct(all);
      DistinctMultiset(all, x);
    }
    BagIsDistinct(ranked);
    forall i, j | 0 <= i < j < |job.considered| ensures job.considered[i].id != job.considered[j].id {
      assert ranked[i] in all && ranked[j] in all && ranked[i] != ranked[j];
    }
  }

  /** What is accepted without asking anyone: a candidate of the best score among those that prove the one
      structure, or else the clear best. */
  lemma DeterministicIff(job: Job)
    requires Prepared(job)
    ensures Deterministic(job).Some? <==> OneProof(job) || exists c :: ClearBest(job, c)
    ensures OneProof(job) ==> exists c :: c in job.considered && ProvesItself(c) && Accepts(Deterministic(job).value, c, 1.0)
                                && forall o :: o in job.considered && ProvesItself(o) ==> o.score <= c.score
    ensures forall c :: !OneProof(job) && ClearBest(job, c) ==> Accepts(Deterministic(job).value, c, c.score)
  {
    hide Prepared, ClearBest, DeterministicRecord;
    ConsideredMembers(job);
    forall c ensures ProvesItself(c) <==> Proven(c) {}
    forall a: Candidate, b: Candidate | a.TableCandidate? && b.TableCandidate? ensures OneShape(a, b) <==> SameStructure(a, b) {}
    hide SameStructure, OneShape;
    var proven := ProvenTables(job.considered);
    var best := job.considered[0];
    if proven != [] { assert proven[0] in proven; }
    assert OneProof(job) <==> proven != [] && OneStructure(proven);
    if OneProof(job) {
      AcceptsFields(job, Top(proven), 1.0);
    } else {
      AcceptsFields(job, best, best.score);
      BestIff(job);
      assert Deterministic(job).Some? <==> ClearBest(job, best);
    }
  }

  lemma AcceptsFields(job: Job, c: Candidate, confidence: real)
    ensures Accepts(DeterministicRecord(job, c.id, confidence), c, confidence)
  {
  }

  lemma BestIff(job: Job)
    requires Prepared(job)
    ensures job.considered != []
    ensures var best := job.considered[0];
            var runner := if |job.considered| > 1 then job.considered[1].score else 0.0;
            forall c :: ClearBest(job, c) <==>
              && c == best && best.score >= job.policy.autoScore && best.score - runner >= job.policy.autoMargin
              && (best.SpacingCandidate? ==> job.lexicon.defects(best.text) == [])
  {
    hide Prepared;
    NotEmpty(job);
    ConsideredMembers(job);
    ConsideredApart(job);
    var best := job.considered[0];
    forall o | o in job.considered && o.id != best.id ensures |job.considered| > 1 && Before(best, o) && o.score <= job.considered[1].score {
      var i :| 0 < i < |job.considered| && job.considered[i] == o;
      assert Before(job.considered[0], job.considered[i]);
      if i > 1 { assert Before(job.considered[1], job.considered[i]); }
    }
    if |job.considered| > 1 { assert job.considered[1].id != best.id; }
  }

  /** Before the model is asked, the first trusted record that the audit accepts is found if all before it
      are passed over. */
  lemma {:induction false} FoundIff(job: Job, trusted: seq<Record>, d: Record)
    ensures Audit.FindTrusted(job, trusted) == Audit.Found(d) <==>
              exists k :: 0 <= k < |trusted| && Vouches(job, trusted[k], d) && forall j :: 0 <= j < k ==> Aborting.PassedOver(job, trusted[j])
  {
    hide Materialize, Audit.TrustedMatches;
    if trusted != [] {
      var rest := trusted[1..];
      FoundIff(job, rest, d);
      assert forall i :: 0 <= i < |rest| ==> rest[i] == trusted[i + 1];
      if Aborting.PassedOver(job, trusted[0]) {
        if k :| 0 <= k < |rest| && Vouches(job, rest[k], d) && forall j :: 0 <= j < k ==> Aborting.PassedOver(job, rest[j]) {
          assert Vouches(job, trusted[k + 1], d);
        }
        if k :| 0 <= k < |trusted| && Vouches(job, trusted[k], d) && forall j :: 0 <= j < k ==> Aborting.PassedOver(job, trusted[j]) {
          assert k > 0 && Vouches(job, rest[k - 1], d);
        }
      } else if Vouches(job, trusted[0], d) {
        var k := 0;
        assert Vouches(job, trusted[k], d);
      }
    }
  }

  /** The stored record materializes to one that the audit accepts. */
  predicate Vouches(job: Job, t: Record, d: Record) {
    Materialize(job.lexicon, job.set_, t) == Some(d) && Audit.TrustedMatches(job, d) == Audit.Match
  }

  predicate SameButOrigin(a: Record, b: Record) {
    a == b.(id := a.id, origin := FromCache)
  }

  /** The decision, by what is accepted, what is trusted and what the service replies: exactly one of them
      says what is selected, and otherwise the record says why nothing is. */
  lemma DecisionIff(job: Job, trusted: seq<Record>, serve: Service, at: nat, e: Election)
    requires Prepared(job)
    ensures var v, search := Decide(job, trusted, serve, at), Audit.FindTrusted(job, trusted);
            if Deterministic(job).Some? then v == Decided(Deterministic(job).value, 0)
            else if search.Found? then v.Decided? && v.calls == 0 && SameButOrigin(v.record, search.record)
            else if search.Broken? then v == Aborted(0)
            else if !job.online then v.Decided? && v.calls == 0 && LeavesOpen(job, v.record, Reason([LLM_PROVIDER_UNAVAILABLE], false))
            else
              && (Records(v, e) <==> Elects(job, serve, at, e))
              && (v.Decided? && v.record.outcome != Selected ==>
                    exists r :: (VotesFail(job, serve, at, r) || RepairFails(job, serve, at, r)) && LeavesOpen(job, v.record, r))
  {
    hide Deterministic, Consult, DeferredRecord, LeavesOpen, Elects, Records, VotesFail, RepairFails, Prepared, Audit.FindTrusted;
    NotEmpty(job);
    DeferredLeavesOpen(job, [], [LLM_PROVIDER_UNAVAILABLE]);
    ConsultIff(job, serve, at, e);
  }
}