/** Where `decide` leaves with an exception instead of a record, exactly. */
module Aborting {
  import opened Common
  import opened Names
  import opened Spacing
  import opened Candidates
  import opened LlmService
  import opened Decisions
  import opened Ranking
  import opened Audit
  import opened Adjudication
  import opened DecisionProofs

  /** A proposal that keeps the characters and passes the pattern checks, but is not in boundary
      normal form - a doubled, leading or trailing space - or breaks the line at a boundary it
      may change. */
  ghost predicate Unbuildable(lexicon: Lexicon, anchor: SpacedCandidate, text: string) {
    && Squeeze(text) == anchor.chars && !HasControlSeparator(text)
    && !lexicon.splitsIdentifier(text) && !lexicon.splitsProtected(text, anchor.text)
    && (Normal(text) != text
        || (anchor.mutable.Some? && exists k :: k in anchor.mutable.value && 0 <= k < |Gaps(text)| && Gaps(text)[k] == HardBreak))
  }

  lemma ValidatesIff(mint: Mint, anchor: SpacedCandidate, text: string, score: real, features: map<Feature, real>)
    requires ValidSpacing(anchor) && 0.0 <= score <= 1.0 && Squeeze(text) == anchor.chars
    ensures var made := MakeSpacing(mint, anchor.region, text, anchor.chars, anchor.atoms, WhitespaceOf(anchor.boundaries), score, features, anchor.mutable);
            && !made.Rejected?
            && (made.Made? <==> Normal(text) == text && ValidMutable(anchor.mutable, Gaps(text)))
  {
    GapCount(text);
  }

  lemma MutableIff(anchor: SpacedCandidate, text: string)
    requires ValidSpacing(anchor) && Squeeze(text) == anchor.chars
    ensures ValidMutable(anchor.mutable, Gaps(text)) <==>
              !(anchor.mutable.Some? && exists k :: k in anchor.mutable.value && 0 <= k < |Gaps(text)| && Gaps(text)[k] == HardBreak)
  {
    GapCount(text);
    assert |Gaps(text)| == |GapsOf(anchor.boundaries)|;
  }

  /** The generated candidate's validator reports exactly the unbuildable proposals; their report
      is no error code, so the attempt that should record it cannot be built either. */
  lemma MalformedIff(lexicon: Lexicon, anchor: SpacedCandidate, text: string, confidence: real)
    requires ValidSpacing(anchor) && 0.0 <= confidence <= 1.0
    ensures BuildGenerated(lexicon, anchor, text, confidence) == Malformed <==> Unbuildable(lexicon, anchor, text)
  {
    hide MakeSpacing, ValidMutable, Normal, Gaps, ValidSpacing, HasControlSeparator;
    if Squeeze(text) == anchor.chars {
      ValidatesIff(lexicon.mint, anchor, text, confidence, map[LLM_GENERATED_SPACING := confidence]);
      MutableIff(anchor, text);
    }
  }

  /** The verification answer carries four defect codes and low confidence that is not one of
      them: a fifth code has no room. */
  predicate Overflows(job: Job, served: Served) {
    && served.Answer? && served.payload.Verification? && served.payload.confidence < job.policy.minConfidence
    && |WithoutValid(served.payload.codes)| == 4 && LLM_CONFIDENCE_TOO_LOW !in WithoutValid(served.payload.codes)
  }

  /** The repair of an anchor raises. */
  ghost predicate RepairAborts(job: Job, anchor: SpacedCandidate, serve: Service, at: nat) {
    var served := serve(at, ProposalSchema);
    || !GenerationScope(job.set_, job.considered, anchor)
    || (served.Answer? && Unbuildable(job.lexicon, anchor, served.payload.text))
    || (BuiltFrom(job, anchor, served).Made?
        && Overflows(job, serve(at + served.calls, VerificationSchema(Ids(job.considered) + {BuiltFrom(job, anchor, served).candidate.id}))))
  }

  lemma VerificationAborts(job: Job, c: SpacedCandidate, proposed: real, before: seq<Attempt>, serve: Service, at: nat)
    requires Prepared(job) && job.set_.decision == SpacingType && VerificationScope(job.set_, job.considered, c)
    ensures Verify(job, c, proposed, before, serve, at).Aborted? <==>
            Overflows(job, serve(at, VerificationSchema(Ids(job.considered) + {c.id})))
  {
    VerifyUnfolds(job, c, proposed, before, serve, at);
  }

  lemma RepairAbortsIff(job: Job, anchor: SpacedCandidate, primary: seq<Attempt>, serve: Service, at: nat)
    requires Prepared(job) && job.set_.decision == SpacingType && ValidSpacing(anchor)
    ensures Repair(job, anchor, primary, serve, at).Aborted? <==> RepairAborts(job, anchor, serve, at)
  {
    hide Prepared, Verify, Repair, BuildGenerated, ValidSpacing, Unbuildable, Overflows, VerificationScope, DeferredRecord;
    var served := serve(at, ProposalSchema);
    RepairUnfolds(job, anchor, primary, serve, at);
    if served.Answer? {
      MalformedIff(job.lexicon, anchor, served.payload.text, served.payload.confidence);
    }
    if GenerationScope(job.set_, job.considered, anchor) && BuiltFrom(job, anchor, served).Made? {
      BuiltFacts(job.lexicon, anchor, served.payload.text, served.payload.confidence);
      InScope(job, anchor, BuiltFrom(job, anchor, served).candidate);
      var g := GenerationAttempt(job, anchor, |primary| + 1, served);
      VerificationAborts(job, BuiltFrom(job, anchor, served).candidate, g.confidence, primary + [g], serve, at + served.calls);
    }
  }

  lemma InScope(job: Job, anchor: SpacedCandidate, c: SpacedCandidate)
    requires GenerationScope(job.set_, job.considered, anchor) && c.region == anchor.region
    ensures VerificationScope(job.set_, job.considered, c)
  {
  }

  /** The anchor whose repair a primary vote leads to, if any. */
  function AnchorOf(job: Job, p: VoteResult): Option<SpacedCandidate> {
    if p.choice.None? then None
    else
      var chosen := ById(job.considered, p.choice.value.candidate);
      if chosen.Some? && chosen.value.SpacingCandidate?
         && (p.choice.value.confidence < job.policy.minConfidence || job.lexicon.defects(chosen.value.text) != [])
      then Some(chosen.value) else None
  }

  lemma AnchorFacts(job: Job, p: VoteResult)
    requires Prepared(job) && AnchorOf(job, p).Some?
    ensures ValidSpacing(AnchorOf(job, p).value) && job.set_.decision == SpacingType
  {
    ConsideredMembers(job);
    assert AnchorOf(job, p).value in job.set_.candidates;
  }

  lemma RecoverDecides(job: Job, first: Vote, primary: seq<Attempt>, serve: Service, at: nat)
    requires job.set_.candidates != []
    ensures Recover(job, first, primary, serve, at).Decided?
  {
    hide DeferredRecord, RecoveredRecord, VotePhase;
  }

  // ---------- trusted records ----------

  /** The trusted record is passed over, or stops the search by raising. */
  predicate PassedOver(job: Job, t: Record) {
    var current := Materialize(job.lexicon, job.set_, t);
    current.None? || TrustedMatches(job, current.value) == Mismatch
  }

  predicate Breaks(job: Job, t: Record) {
    var current := Materialize(job.lexicon, job.set_, t);
    current.Some? && TrustedMatches(job, current.value) == Raises
  }

  /** The search raises exactly at a record that breaks it, all before it being passed over. */
  lemma {:induction false} BrokenIff(job: Job, trusted: seq<Record>)
    ensures FindTrusted(job, trusted) == Broken <==>
              exists k :: 0 <= k < |trusted| && Breaks(job, trusted[k]) && forall j :: 0 <= j < k ==> PassedOver(job, trusted[j])
  {
    hide Materialize, TrustedMatches;
    if trusted != [] {
      var rest := trusted[1..];
      BrokenIff(job, rest);
      assert forall i :: 0 <= i < |rest| ==> rest[i] == trusted[i + 1];
      if PassedOver(job, trusted[0]) {
        if k :| 0 <= k < |rest| && Breaks(job, rest[k]) && forall j :: 0 <= j < k ==> PassedOver(job, rest[j]) {
          assert Breaks(job, trusted[k + 1]);
        }
        if k :| 0 <= k < |trusted| && Breaks(job, trusted[k]) && forall j :: 0 <= j < k ==> PassedOver(job, trusted[j]) {
          assert k > 0 && Breaks(job, rest[k - 1]);
        }
      } else if Breaks(job, trusted[0]) {
        var k := 0;
        assert Breaks(job, trusted[k]);
      }
    }
  }

  /** For a considered anchor, a prompt can be composed exactly when the considered candidates are alike. */
  lemma ScopeIsAlikeness(job: Job, anchor: SpacedCandidate)
    requires Prepared(job) && job.set_.decision == SpacingType && anchor in job.considered
    ensures GenerationScope(job.set_, job.considered, anchor) <==> AllAlike(job.considered)
  {
    hide ValidCandidate;
    ConsideredMembers(job);
  }

  lemma VerificationIsRegion(job: Job, anchor: SpacedCandidate, generated: SpacedCandidate)
    requires Prepared(job) && job.set_.decision == SpacingType && anchor in job.considered && AllAlike(job.considered)
    ensures VerificationScope(job.set_, job.considered, generated) <==> generated.region == job.set_.region
  {
    hide ValidCandidate;
    ConsideredMembers(job);
    assert job.considered[0] in job.considered;
  }

  /** Where the repair attempts of a record, after its consumed votes, cannot be compared: its votes
      name a considered anchor, a generation follows, and the candidates considered now are not alike
      - or a bound generation is followed by a verification of a candidate of another region. */
  predicate Incomparable(job: Job, d: Record, votes: seq<Attempt>, tail: seq<Attempt>) {
    && tail != [] && tail[0].phase == Generation && job.set_.decision == SpacingType
    && LastPrimaryVote(votes).Some?
    && var anchor := ById(job.considered, LastPrimaryVote(votes).value);
       && anchor.Some? && anchor.value.SpacingCandidate?
       && (!AllAlike(job.considered)
           || (tail[0].request == AttemptKey(job.request, Generation, GenerationMessages(job.set_, job.considered, anchor.value), tail[0].index)
               && |tail| == 2 && tail[1].phase == VerificationPhase
               && d.generated.Some? && d.generated.value.Full? && d.generated.value.candidate.region != job.set_.region))
  }

  lemma TailRaisesIff(job: Job, d: Record, votes: seq<Attempt>, tail: seq<Attempt>)
    requires Prepared(job) && tail != []
    ensures RepairHashes(job, d, votes, tail) == Raises <==> Incomparable(job, d, votes, tail)
  {
    hide Prepared, GenerationScope, VerificationScope, AllAlike, LastPrimaryVote, ById;
    if job.set_.decision == SpacingType {
      SpacedConsidered(job);
      var vote := LastPrimaryVote(votes);
      if vote.Some? && ById(job.considered, vote.value).Some? && ById(job.considered, vote.value).value.SpacingCandidate? {
        var anchor := ById(job.considered, vote.value).value;
        ScopeIsAlikeness(job, anchor);
        if AllAlike(job.considered) && d.generated.Some? && d.generated.value.Full? {
          VerificationIsRegion(job, anchor, d.generated.value.candidate);
        }
      }
    }
  }

  /** The audit of a record raises exactly when it is about the current request, selects what is
      current, has its vote blocks in order, and its repair attempts cannot be compared. Its outcome and
      its seal are not looked at before. */
  lemma RaisesIff(job: Job, d: Record)
    requires Prepared(job)
    ensures TrustedMatches(job, d) == Raises <==>
              && SameRequest(job, d) && d.outcome == Selected && SelectsCurrent(job, d)
              && Numbered(d.attempts)
              && var votes := ConsumeVotes(job, d.attempts, VOTE_PHASES, []);
                 votes.Some? && Incomparable(job, d, votes.value, d.attempts[|votes.value|..])
  {
    hide Prepared, ConsumeVotes, RepairHashes, Incomparable, SelectsCurrent, OutcomeAudit, Numbered;
    var votes := ConsumeVotes(job, d.attempts, VOTE_PHASES, []);
    if votes.Some? {
      var tail := d.attempts[|votes.value|..];
      if tail == [] { NothingToCompare(job, d, votes.value); } else { TailRaisesIff(job, d, votes.value, tail); }
    }
  }

  lemma NothingToCompare(job: Job, d: Record, votes: seq<Attempt>)
    ensures !Incomparable(job, d, votes, [])
  {
  }

  /** Over alike candidates, trusted records whose generated candidates are of the set's region never
      break the search. */
  lemma AlikeNeverBreaks(job: Job, trusted: seq<Record>)
    requires Prepared(job) && AllAlike(job.considered)
    requires forall t :: t in trusted && t.generated.Some? && t.generated.value.Full? ==>
               t.generated.value.candidate.region == job.set_.region
    ensures FindTrusted(job, trusted) != Broken
  {
    BrokenIff(job, trusted);
    forall k | 0 <= k < |trusted| ensures !Breaks(job, trusted[k]) {
      hide FindTrusted, Prepared, TrustedMatches, ConsumeVotes, SelectsCurrent, Rebuild;
      var current := Materialize(job.lexicon, job.set_, trusted[k]);
      assert trusted[k] in trusted;
      if current.Some? {
        MaterializedRegion(job, trusted[k]);
        RaisesIff(job, current.value);
      }
    }
  }

  lemma MaterializedRegion(job: Job, t: Record)
    requires t.generated.Some? && t.generated.value.Full? ==> t.generated.value.candidate.region == job.set_.region
    ensures var current := Materialize(job.lexicon, job.set_, t);
            current.Some? && current.value.generated.Some? && current.value.generated.value.Full? ==>
              current.value.generated.value.candidate.region == job.set_.region
  {
    hide ValidSpacing;
  }

  // ---------- the decision ----------

  /** `decide` raises exactly when no deterministic branch decides and either a trusted record breaks
      the search, or none is found and the primary vote leads to a spacing repair that raises: the
      considered candidates differ in characters or mutable boundaries, the proposal is unbuildable,
      or the verification answer overflows. */
  lemma AbortsIff(job: Job, trusted: seq<Record>, serve: Service, at: nat)
    requires Prepared(job)
    ensures Decide(job, trusted, serve, at).Aborted? <==>
              && Deterministic(job).None?
              && (|| FindTrusted(job, trusted) == Broken
                  || (&& FindTrusted(job, trusted) == NotFound && job.online
                      && var p := VotePhase(job, Primary, [], serve, at);
                         AnchorOf(job, p).Some? && RepairAborts(job, AnchorOf(job, p).value, serve, at + p.calls)))
  {
    hide Deterministic, FindTrusted, DeferredRecord, VotePhase, RepairAborts, Repair, Recover, ById;
    var p := VotePhase(job, Primary, [], serve, at);
    if AnchorOf(job, p).Some? {
      AnchorFacts(job, p);
      RepairAbortsIff(job, AnchorOf(job, p).value, p.attempts, serve, at + p.calls);
    } else if p.choice.Some? {
      RecoverDecides(job, p.choice.value, p.attempts, serve, at + p.calls);
    }
  }
}
