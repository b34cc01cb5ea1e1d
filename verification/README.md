# Verified model of the ARD OSSIE provider

This project models the parts of the ARD OSSIE provider in which one piece of code has to agree with
another, and proves that they do - or states exactly when they do not. Every file is Dafny 4.11;
`dafny verify dfyconfig.toml` checks all of them.

## What is modelled

**The semantic decision engine.** `CandidateAdjudicator.decide` is a voting machine over an
arbitrary provider: a deterministic accept, a trusted record, primary, recovery and tiebreak votes, or
a generated spacing with its verification (module `Adjudication`). Beneath it runs the retry and repair
loop of `LLMService` (`LlmService`). Beside it stands the auditor of trusted records (`Audit`,
`AuditLoops`), an independent second description of the same machine. The provider is an arbitrary
sequence of replies; request and attempt hashes carry their payload, which is how an injective hash
behaves; text hashes, minted candidate IDs, decision IDs and the pattern checks on texts are arbitrary
functions. Confidences and scores are reals.

**The canonical document.** Evidence atoms and their ownership (`Evidence`), assembly (`Canonical`,
`Assembly`), the validator (`Validator`), spacing normal forms (`Spacing`), table grids (`TableGrid`) and
the reading order (`LayoutOrder`, `RegionOrder`). The theorems relate the assembler to the validator, the
validator to the source characters, and a replayed run to the content it hashes.

**The registry.** Classification (`Identity`), versions (`Versioning`), the registry object
(`RegistryStore`), one run of the pipeline from its dictionary to the staged writes (`Carrying`,
`ProductRun`, `RegistryRun`), and histories of runs (`RunTheorems`, `History`). `Promotion` is the
all-or-nothing replacement of directories over a map from paths to trees with a fault possible at every call.

**Release publication.** Tags, releases and assets of a remote repository, a fresh checkout for each attempt,
a fault possible at every port call, and a push that may land any part of its tags (`Publication`,
`PublicationProtocol`).

**Two loops.** The chunked secret scan (`SecretScan`) and the workflow output printer (`OutputPrinter`).

Code that changes things step by step is a method with its loop, proved equal to a specification
function; the properties are then lemmas about that function. What the operations answer is stated a second time
without these functions, and the two are proved to agree for all inputs: which replies elect which candidate
(`Elections`), what a trusted record has to be (`AuditMeaning`), what the document holds of the selected candidates
(`AssembledContent`, `SourceProjection`), what each finding and a publishable report mean (`Findings`), when a run of
the pipeline succeeds and what is then registered (`Registration`), and what a published plan has delivered
(`Publication`).

## Where the code does less than it promises

Each point is a theorem with its exact condition, and a concrete input that fails; the names are those of the
members that state it.

- `decide` is documented to go on with a safe fallback when the model fails
  (`docs/semantic-pdf-pipeline.md`, step 7). It raises instead when a proposal keeps every character but
  is not in boundary normal form (a doubled, leading or trailing space) or breaks a line at a boundary it
  may change: the report of the candidate's validator is no error code, so the attempt that should record the
  rejection cannot be built. It also raises when a verification answer below the threshold already carries four
  other codes, and when a trusted record's repair attempts are compared over unlike candidates.
  `Aborting.AbortsIff`, with `RepairAbortsIff`, `BrokenIff` and `RaisesIff`, gives the exact condition;
  `Examples.DoubledSpaceAborts` and `Examples.TrustedRecordAborts` are concrete inputs.
- The audit of a generated record never compares the selection with the generated candidate when the
  selected ID is an allowed one. Whatever generated record it accepts, it accepts with any considered candidate selected
  instead (`Examples.AuditIgnoresTheSelection`); `Examples.GeneratedRecordExists` shows that there are such records.
  `DecisionTheorems.SelectionsAreBacked` says exactly which trusted records leave the selection unbacked.
- A generated record is checked against the whole candidate set, but made from the considered candidates only.
  With a policy that cuts candidates off, a fresh record may not be accepted when trusted
  (`Replay.StoredVouches` has the condition for a record, `Replay.ColdRunReplays` one for the jobs;
  `Examples.CutRecordIsRefused` is a concrete one).
- With `max_candidates` 1 the margin of the deterministic accept is measured against 0, not against the next
  candidate of the set (`Margin.MarginIff`, whose proof gives two tied candidates for every such policy).
- `generate_text` re-raises the provider's error without its retry count: after a retry the reported count is wrong
  (`LlmService.TextRetriesIff`, `LlmService.RetryGoesUncounted`).
- Creating a product that is registered, retired and unchanged passes the duplicate check and then fails when it is written
  (`Identity.ProductGateImpliesWrite`, `RunTheorems.GateImpliesWrites`, `RegistryExamples.RetiredCreationFails`): that is the
  only way past the gate into a raising write.
- A changed table at version 999 without a configured version is not reported as `VERSION_LIMIT_REACHED`: its default
  proposal is out of range and planning raises (`Versioning.LimitRaises`).

## Model

| member | source | states |
|---|---|---|
| Spacing.CollectGaps | src/ard_ossie/semantic/candidates.py:335-363 | the scan over a text collects exactly the whitespace runs between consecutive non-space characters |
| Spacing.RenderBoundaries | src/ard_ossie/semantic/candidates.py:366-376 | the rendering loop puts the separator of each boundary after its character |
| Spacing.ParseOfRender | src/ard_ossie/semantic/candidates.py:335-376 | parsing what whitespace-free characters render to gives the boundaries and the characters back |
| Spacing.NormalForm | src/ard_ossie/semantic/candidates.py:335-376 | rendering the parsed boundaries of any text is idempotent and keeps every non-space character in order |
| Spacing.NormalIffRendered | src/ard_ossie/semantic/candidates.py:48-66 | a text is in normal form exactly when some boundary states render it |
| Spacing.SliceOfRender | src/ard_ossie/semantic/candidates.py:366-376 | the rendering of a slice of the characters stands as a slice, at a known offset, in the rendering of all |
| Candidates.AcceptsExactlyNormalTexts | src/ard_ossie/semantic/candidates.py:48-75 | the validator accepts a candidate for some boundaries exactly when its characters are those of its text, one for each of its different atoms, its text is in normal form, its score is a confidence and the gaps that may change are ascending gaps of the text without a line break |
| Candidates.BoundariesAreParse | src/ard_ossie/semantic/candidates.py:48-75 | the boundaries of a valid candidate are the parse of its text |
| Candidates.MakeSpacingAgain | src/ard_ossie/semantic/candidates.py:298-332 | making a candidate again from its own parts gives it back under the ID its content derives |
| Candidates.MadeFacts | src/ard_ossie/semantic/candidates.py:298-332 | a construction that succeeds yields a valid, content-addressed candidate with the parts it was given |
| TableGrid.AssertGridComplete | src/ard_ossie/semantic/candidates.py:281-295 | the occupancy loop succeeds exactly when the cells tile the grid, and reports an overlap exactly when two cells meet |
| TableGrid.GridIsValid | src/ard_ossie/semantic/canonical.py:737-749 | the validator's occupancy loop decides the same predicate |
| TableGrid.TilesByAreas | src/ard_ossie/semantic/candidates.py:281-295 | each coordinate lies in exactly one cell exactly when the cells stay inside, are disjoint, and their areas add up to the grid's |
| LlmService.GenerateStructured | src/ard_ossie/llm/service.py:88-150 | for every provider behaviour the loop returns what the first settling reply, or the third, says; the provider calls are counted and each correction names the last rejected output |
| LlmService.Serve | src/ard_ossie/llm/service.py:88-150 | an answer conforms to its schema, and the calls are 1 + retries + repairs, at most 3, on success and on raise |
| LlmService.ServedIff | src/ard_ossie/llm/service.py:88-150 | all replies but the last are transient failures, rejected outputs or messages that do not fit; the last is neither or is the third, and is the answer exactly when it fits; retries and repairs count the others |
| LlmService.CorrectionIff | src/ard_ossie/llm/service.py:88-150 | a call is sent under the code of the last reply that was sent back before it, or as asked |
| LlmService.GenerateText | src/ard_ossie/llm/service.py:152-166 | the loop retries transient failures only, three calls at most, and returns what the last reply says |
| LlmService.TextRetriesIff | src/ard_ossie/llm/service.py:152-166 | the retries reported are those made exactly when the request answers or its first call already failed for good |
| LlmService.RetryGoesUncounted | src/ard_ossie/llm/service.py:152-166 | a concrete provider: one transient failure, then a final one, reported with no retry |
| Ranking.RankSorts | src/ard_ossie/semantic/adjudication.py:195-200 | ranking permutes the candidates and puts the best first, IDs breaking ties |
| Ranking.ConsideredMembers | src/ard_ossie/semantic/adjudication.py:195-200 | the considered candidates are ranked members of the set, all of them when the policy allows that many |
| Ranking.ConsideredAreBest | src/ard_ossie/semantic/adjudication.py:195-200 | as many candidates are considered as the policy allows, if there are that many, and those left out come after all of them |
| Ranking.PrepareIsPrepared | src/ard_ossie/semantic/adjudication.py:201-214 | the request of a decision names its set, its evidence, its policy and crop, and the provider and model, or none |
| Ranking.Preferred | src/ard_ossie/semantic/spacing_repair.py:182-200 | the fallback among defect-free spacings is one that no other beats by source spacing, score and ID |
| VoteProofs.RunVotePhase | src/ard_ossie/semantic/adjudication.py:720-826 | the schema-attempt loop comes to its specification and makes exactly the calls it reports |
| VoteProofs.VotePhaseBlock | src/ard_ossie/semantic/adjudication.py:720-826 | a phase leaves unknown candidates closed by one attempt that records its outcome, numbered and bound to its prompts, with all calls accounted for |
| AuditLoops.MatchPhase | src/ard_ossie/semantic/adjudication.py:1125-1145 | the inner loop holds exactly when each attempt is bound to its prompt, corrected by the unknown candidate before it |
| AuditLoops.AttemptRequestHashesMatch | src/ard_ossie/semantic/adjudication.py:1096-1204 | the loop over the phases decides the hash audit: numbered attempts, consecutive vote blocks, then a generation and its verification |
| AuditProofs.BlocksConsumed | src/ard_ossie/semantic/adjudication.py:1110-1147 | correctly bound vote blocks of the machine are consumed in order, whatever follows them |
| AuditProofs.PrimaryPasses | src/ard_ossie/semantic/adjudication.py:374-388 | a record the machine makes from a confident primary vote is accepted when trusted |
| AuditProofs.RecoveredPasses | src/ard_ossie/semantic/adjudication.py:431-523 | a record the machine makes by recovery or tiebreak is accepted when trusted |
| AuditProofs.GeneratedPasses | src/ard_ossie/semantic/adjudication.py:1019-1260 | a generated record of the machine is accepted exactly when the whole set shares its characters and mutable boundaries, or its ID is an allowed one |
| DecisionProofs.BuiltFacts | src/ard_ossie/semantic/spacing_repair.py:138-179 | a generated candidate that is built keeps region, atoms and characters of its anchor and has no defects |
| DecisionProofs.DeterministicIsBacked | src/ard_ossie/semantic/adjudication.py:216-258 | a deterministic accept is a proven table without structural rival, or a defect-free best candidate that is the margin ahead of every other of the set; under a policy that considers one candidate and asks for a margin, its score alone reaches the margin |
| Margin.MarginIff | src/ard_ossie/semantic/adjudication.py:238-247 | accepting by score means being the margin ahead of the whole set exactly under the policies that consider at least two candidates or ask for no margin |
| DecisionProofs.DeterministicBounded | src/ard_ossie/semantic/adjudication.py:216-258 | deterministic records report no model call and stay within the bounds of their model |
| DecisionProofs.DeferredSettled | src/ard_ossie/semantic/adjudication.py:1478-1537 | a deferred record is fresh, bounded, and reports exactly the calls of its attempts |
| DecisionProofs.RecoverSettled | src/ard_ossie/semantic/adjudication.py:389-523 | the recovery and tiebreak branches settle: whatever they return is fresh, bounded, accounted for, and audited as expected when selected |
| DecisionProofs.RepairSettled | src/ard_ossie/semantic/adjudication.py:525-718 | the same for generation and verification |
| DecisionProofs.ConsultSettled | src/ard_ossie/semantic/adjudication.py:301-523 | the same for the whole model-driven part of `decide` |
| Backing.RecoveryIsBacked | src/ard_ossie/semantic/adjudication.py:1291-1358 | what the recovery audit accepts is decided by a confident vote that a vote of another phase agrees with, after a low primary vote |
| Backing.GeneratedIsBacked | src/ard_ossie/semantic/adjudication.py:1207-1260 | what the generation audit accepts is backed exactly when it selects its own defect-free candidate |
| Backing.AuditedIsBacked | src/ard_ossie/semantic/adjudication.py:1019-1093 | what the whole audit accepts is backed, a generated record exactly under that condition |
| DecisionTheorems.SelectionsAreBacked | src/ard_ossie/semantic/adjudication.py:188-523 | for any provider and any trusted list, a selected record is backed by a deterministic accept, a decisive vote, a consensus or a verified generation exactly when the trusted record that is found, if any, selects its own defect-free generated candidate |
| DecisionTheorems.OwnSelectionsAreBacked | src/ard_ossie/semantic/adjudication.py:188-523 | over a trusted list whose generated records select their own defect-free candidates, every selected record is backed |
| DecisionTheorems.CallsAreAccountedFor | src/ard_ossie/semantic/canonical.py:512-520 | the provider calls of one `decide` are the model calls of the record it returns, and records not taken from the trusted list are within the bounds of their model |
| DecideOnProvider.DecideSet | src/ard_ossie/semantic/adjudication.py:188-523 | `decide` over a provider object gives the specified verdict, and the provider has been called exactly as often as the verdict counts |
| DecideOnProvider.RunSpacingRepair | src/ard_ossie/semantic/adjudication.py:525-718 | the same for generation and verification |
| DecisionTheorems.CachedMatchesAgain | src/ard_ossie/semantic/adjudication.py:1361-1365 | a cached record is itself accepted again, and caching it again changes nothing |
| DecisionTheorems.MatchMeans | src/ard_ossie/semantic/adjudication.py:1019-1093 | an accepted record is about the current request, selects what is current, and passes the hash, outcome and identity audits |
| AuditMeaning.HashesIff | src/ard_ossie/semantic/adjudication.py:1096-1204 | the hash audit accepts exactly the records whose votes stand by stages, each bound to the prompt it would be sent now - showing the votes before it, corrected after an unknown candidate - and are followed by nothing but a generation from the anchor and a verification of the record's candidate |
| AuditMeaning.AcceptedMeans | src/ard_ossie/semantic/adjudication.py:1019-1358 | an accepted record is about this request, all bound, counted right, sealed under its identity, and decides by a confident vote, a consensus or a verified repair, spelled out attempt by attempt |
| AuditMeaning.PriorVotesShow | src/ard_ossie/semantic/adjudication.py:886-900 | a prompt shows an earlier attempt exactly when it named a candidate, in order |
| Elections.DecisionIff | src/ard_ossie/semantic/adjudication.py:188-523 | what a decision selects, in terms of acceptance, the trusted list and the replies: with neither accept nor trusted record, a candidate is selected exactly when the replies elect it, and otherwise the record gives the reason and the best usable fallback |
| Elections.ConsultIff | src/ard_ossie/semantic/adjudication.py:301-523 | the replies elect a candidate by one confident vote, by two agreeing votes, by a tiebreak, or by an acceptable text that is approved; both directions, for every service |
| Trails.ConsultTrails | src/ard_ossie/semantic/adjudication.py:301-826 | the attempts of a record made by the model are the replies of the service, one for one, in order and each at its place among the calls, with candidate, confidence, grade, codes and counts |
| Elections.RepairIff | src/ard_ossie/semantic/adjudication.py:525-718 | a repair selects exactly the candidate of an acceptable proposal whose verification approves it, and otherwise leaves the decision open for the reason |
| Elections.BuildIff | src/ard_ossie/semantic/spacing_repair.py:138-179 | a candidate is built exactly from a text in normal form that keeps the characters, the line breaks and the fixed gaps, breaks no line elsewhere and has no defect; it is the anchor with that text |
| Elections.DeterministicIff | src/ard_ossie/semantic/adjudication.py:216-258 | a candidate is accepted without a vote exactly when one table structure proves itself or a candidate is the clear best, and which one it is |
| Elections.FoundIff | src/ard_ossie/semantic/adjudication.py:260-287 | the trusted record found is the first that materializes and passes the audit |
| Decisions.SnapshotKeepsIdentity | src/ard_ossie/semantic/adjudication.py:1564-1579 | stripping a record to its diagnostic snapshot never changes its decision ID |
| Decisions.RebuildExact | src/ard_ossie/semantic/adjudication.py:1582-1626 | a snapshot rebuilds to the full candidate exactly when the candidate's ID is derived from its content |
| Decisions.SnapshotRoundTrip | src/ard_ossie/semantic/adjudication.py:1564-1626 | materializing the snapshot of a record gives the record back under that condition, over a set that shares its characters |
| Decisions.IdentityIff | src/ard_ossie/semantic/adjudication.py:1452-1475 | two decisions have one identity exactly when they agree in everything that is sealed, a generated candidate up to the hashes of its texts |
| Decisions.MaterializeMeans | src/ard_ossie/semantic/adjudication.py:1582-1626 | what a snapshot becomes is a valid candidate of the set's region and characters, under the ID and the text hashes that were stored |
| Decisions.NoCallsIff | src/ard_ossie/semantic/canonical.py:512-520 | a record reports no call exactly when it is cached, or has no attempts and no model or provider behind it |
| Replay.ColdRunReplays | src/ard_ossie/semantic/adjudication.py:188-287 | after a cold run of "selected" decisions over jobs whose cut-off candidates are like the considered ones, running with its records - whole or as snapshots - as trusted makes no provider call and returns the same records, marked cached |
| Replay.ReplayableRunReplays | src/ard_ossie/semantic/adjudication.py:188-287 | the same for any jobs whose records are replayable in the form they are stored in |
| Replay.StoredVouches | src/ard_ossie/semantic/adjudication.py:1019-1060 | the stored form of a fresh record vouches for it exactly when its generated candidate is shared by the set, or has an allowed ID and, as a snapshot, the characters of the set |
| Replay.ReplayIsStable | scripts/verify_issue_3_semantic.py:232-252 | replaying the replayed records changes nothing more |
| Replay.FullConsiderationIsUniform | src/ard_ossie/semantic/adjudication.py:195-200 | a policy that considers as many candidates as the set holds cuts no unlike one off |
| Aborting.MalformedIff | src/ard_ossie/semantic/spacing_repair.py:138-179 | the construction of a generated candidate ends in a validator report exactly for proposals outside normal form or with a hard break at a mutable boundary |
| Aborting.RepairAbortsIff | src/ard_ossie/semantic/adjudication.py:525-718 | the spacing repair raises exactly when the considered candidates are out of scope, the proposal is unbuildable, or the verification answer overflows |
| Aborting.AbortsIff | src/ard_ossie/semantic/adjudication.py:188-523 | for any trusted list, `decide` raises exactly when nothing is decided deterministically and either a trusted record breaks the search, or none is found and the primary vote leads to a repair that raises |
| Aborting.BrokenIff | src/ard_ossie/semantic/adjudication.py:260-285 | the search raises exactly at a record that breaks it, all before it being passed over |
| Aborting.RaisesIff | src/ard_ossie/semantic/adjudication.py:1019-1204 | auditing a trusted record raises exactly when it is about the current request, selects what is current, has its vote blocks in order, and its repair attempts meet unlike candidates or a candidate of another region |
| Aborting.AlikeNeverBreaks | src/ard_ossie/semantic/spacing_repair.py:299-316 | over alike considered candidates, trusted records of the set's region never break the search |
| Examples.DoubledSpaceAborts | src/ard_ossie/semantic/adjudication.py:525-718 | a concrete provider whose doubled space makes `decide` raise although a defect-free fallback exists |
| Examples.TrustedRecordAborts | src/ard_ossie/semantic/adjudication.py:1096-1181 | a concrete trusted record that makes `decide` raise before any provider call, whatever its outcome and seal |
| Examples.CutRecordIsRefused | src/ard_ossie/semantic/adjudication.py:1030-1060 | a concrete fresh generated record that is refused when trusted, under a policy that cuts an unlike candidate off |
| Examples.AuditIgnoresTheSelection | src/ard_ossie/semantic/adjudication.py:1207-1260 | an accepted generated record stays accepted with any considered candidate selected instead, which nothing backs |
| Examples.GeneratedRecordExists | src/ard_ossie/semantic/adjudication.py:525-718 | a concrete run makes a generated record that is accepted |
| Evidence.ValidateEvidence | src/ard_ossie/semantic/evidence.py:129-175 | validation accepts exactly the documents in which IDs are unique and every atom is owned by one place of one region |
| Evidence.WellFormedIff | src/ard_ossie/semantic/evidence.py:129-175 | what is accepted, spelled out on the document: IDs and ordinals differ, pages are within it, regions own known atoms and their own hypotheses, and every atom is in one place |
| Evidence.CheckRegions | src/ard_ossie/semantic/evidence.py:154-169 | the loop over the regions accepts exactly regions that are resolved, known and own their hypotheses, and accumulates ownership |
| Evidence.TextPermutes | src/ard_ossie/semantic/evidence.py:121-126 | the characters of atoms do not depend on the order the atoms come in |
| Canonical.ProjectCellSpacing | src/ard_ossie/semantic/canonical.py:619-655 | the projection loop weaves the cell's characters with the selected or the source gaps |
| Canonical.TablePlainText | src/ard_ossie/semantic/canonical.py:608-616 | the grid of a table holds at each place the last cell that starts there; indexing raises exactly when a cell starts outside |
| Canonical.WhitespaceDispositions | src/ard_ossie/semantic/canonical.py:658-699 | one disposition for each whitespace atom, in order |
| CanonicalMeaning.SelectionIsUsed | src/ard_ossie/semantic/canonical.py:552-579 | the candidate used is the one the record selects - its generated one or the member of that ID - and a best member when nothing is selected |
| CanonicalMeaning.DispositionsFollowText | src/ard_ossie/semantic/canonical.py:658-699 | a whitespace atom is retained, normalized or layout-only according to what the rendered text has at its boundary |
| AssembledContent.DocumentHoldsSelections | src/ard_ossie/semantic/canonical.py:154-338 | an assembled document follows the selected reading order, and each of its regions becomes an exclusion, a figure or a block with the selected kind, the selected table or text - the source text when none is selected - and its whitespace, decisions and continuations are those of the selected candidates |
| AssembledContent.ChosenIff | src/ard_ossie/semantic/canonical.py:552-579 | the candidate used is the generated one a set's last record selects, or the member it selects, or else the best member |
| AssembledContent.PartIsFor | src/ard_ossie/semantic/canonical.py:185-304 | one region: excluded exactly when it is a repeated edge, a figure exactly when that kind is selected, and else a block with the selected text and shape |
| CellProjection.ProjectionKeepsCharacters | src/ard_ossie/semantic/canonical.py:619-655 | spacing present or not, deleting whitespace from a projected cell gives its source characters |
| CellProjection.ProjectionIsSlice | src/ard_ossie/semantic/canonical.py:619-655 | a cell whose characters are a slice of the spacing candidate's projects to the matching slice of the rendered text |
| SourceProjection.ProjectionIsNormal | src/ard_ossie/semantic/canonical.py:619-655 | without a selected spacing a cell reads as the normal form of its source text, when whitespace other than line breaks has no newline in it |
| SourceProjection.CharactersOfSource | src/ard_ossie/semantic/canonical.py:541-549 | the character sequence of atoms is their source text without whitespace |
| TableText.TableInk | src/ard_ossie/semantic/canonical.py:608-616 | with cells starting inside and apart, the text of a table has exactly the characters of its cells |
| TableText.TilesStart | src/ard_ossie/semantic/canonical.py:737-749 | a tiling makes its cells start inside and apart |
| Assembly.AssembleCanonical | src/ard_ossie/semantic/canonical.py:154-343 | the assembly loops build the specified document, and raise exactly on a source mismatch or a missing lookup |
| Assembly.AssembleRegion | src/ard_ossie/semantic/canonical.py:185-313 | one turn of the loop places an exclusion, a figure or a numbered block with its whitespace |
| Validator.ValidateCanonical | src/ard_ossie/semantic/canonical.py:346-509 | the findings are made in order, the report has the content, coverage and counts of the document, and the comparison raises exactly when it meets a cell outside its rows |
| Validator.IsValidTable | src/ard_ossie/semantic/canonical.py:729-749 | the table check decides bounded area, cell atoms equal to the block's without repetition, and a tiling |
| ValidatorSoundness.AllocatedOnce | src/ard_ossie/semantic/canonical.py:362-412 | a report without findings means every source character is referenced exactly once and every whitespace atom disposed of exactly once |
| ValidatorSoundness.CharactersConserved | src/ard_ossie/semantic/canonical.py:377-455 | a report without findings means the characters of all block texts and captions, with those excluded, are exactly the source's |
| ValidatorSoundness.CoverageIff | src/ard_ossie/semantic/canonical.py:484-503 | the coverage and the missing count complement each other, and the coverage is full exactly when nothing is missing |
| Findings.FindingsIff | src/ard_ossie/semantic/canonical.py:352-470 | each of the eleven findings is made exactly for what it is about, stated on the document and the evidence |
| Findings.ReportMeans | src/ard_ossie/semantic/canonical.py:472-510 | a report is publishable exactly when nothing was found and no decision requires review, verified exactly when in addition every decision is "selected", and what the other statuses and the degraded count mean |
| Findings.PublishableConserves | src/ard_ossie/semantic/canonical.py:493-495 | a publishable document refers to every source character once, disposes of every whitespace atom once, and holds exactly the source's characters |
| Findings.CallsReported | src/ard_ossie/semantic/canonical.py:512-520 | the model calls a report counts are the provider calls of the run that made its decisions |
| AssemblerCompleteness.MentionsOf | src/ard_ossie/semantic/canonical.py:185-313 | a visible atom is referenced, or belongs to a figure, as often as it belongs to an ordered region |
| AssemblerCompleteness.DisposedCount | src/ard_ossie/semantic/canonical.py:658-716 | the assembled dispositions are exactly the whitespace atoms of the regions |
| AssemblyPasses.PartFits | src/ard_ossie/semantic/canonical.py:206-304 | a block made from covering candidates passes the character and grid checks |
| AssemblyPasses.AssemblyPassesExceptFigures | src/ard_ossie/semantic/canonical.py:154-455 | over partitioned regions with covering candidates, assembly succeeds and is reported for nothing but figures' atoms, order, continuations and Markdown; the missing count is the figures' non-whitespace atoms |
| LayoutOrder.OrderRanks | src/ard_ossie/semantic/layout.py:568-590 | the queue loop orders all regions, each after its predecessors and least by rank among those that could come, exactly when the graph has no cycle |
| RegionOrder.TopologicalRegionOrder | src/ard_ossie/semantic/layout.py:131-132 | the order by IDs permutes the regions and passes the validator's order check |
| RegionOrder.OrderIsValid | src/ard_ossie/semantic/canonical.py:719-726 | an order of the ranks that the graph admits is what `_valid_region_order` accepts |
| CanonicalReplay.AlikeContent | src/ard_ossie/semantic/canonical.py:527-538 | records that choose alike assemble, or fail to, with the same hashed content |
| CanonicalReplay.ReplayKeepsContent | scripts/verify_issue_3_semantic.py:448-468 | replaying a cold run without provider calls gives the same canonical content |
| CanonicalReplay.FindingsAreAboutContent | src/ard_ossie/semantic/canonical.py:346-455 | the findings about a document depend on its hashed content alone |
| ReplayCatalog.Build | src/ard_ossie/semantic/replay.py:46-59 | the catalog is built exactly from trusted entries no two of which disagree in bytes under one identity |
| ReplayCatalog.SameIdentity | src/ard_ossie/semantic/replay.py:81-105 | reports on one source with the same bag of decision keys have the same identity |
| ReplayCatalog.IdentityIff | src/ard_ossie/semantic/replay.py:81-105 | two reports have one identity exactly when they are about one source and make the same decisions: kind, region, set and request |
| ReplayCatalog.HasIdentityIff | src/ard_ossie/semantic/replay.py:81-105 | a report has an identity exactly when its decisions are about its source and no two are the same |
| ReplayCatalog.BytesAreOfSameDecisions | src/ard_ossie/semantic/replay.py:69-78 | bytes come only from an entry on the report's source that makes exactly its decisions |
| ReplayCatalog.EntriesAreFound | src/ard_ossie/semantic/replay.py:69-78 | every entry's bytes are returned for every report that makes its decisions |
| ReplayCatalog.OnlyEntriesAreFound | src/ard_ossie/semantic/replay.py:69-78 | bytes are returned exactly for the identities of entries |
| ReplayCatalog.PermutationIsFound | src/ard_ossie/semantic/replay.py:69-105 | any permutation of an entry's decisions finds its bytes |
| ReplayCatalog.EntryOrderIsIrrelevant | src/ard_ossie/semantic/replay.py:46-78 | lookups do not depend on the order of the entries |
| ReplayCatalog.ReplayIsFound | src/ard_ossie/semantic/replay.py:69-105 | the cached records of a replay find the bytes stored for the run |
| Versioning.AllowedIff | src/ard_ossie/versioning.py:23-131 | a plan is allowed exactly when it starts from the current version and proposes nothing or the one version that may come next |
| Versioning.PlanCodes | src/ard_ossie/versioning.py:23-131 | each code of a plan is given exactly for what it is about, for all versions and bases |
| Versioning.LimitRaises | src/ard_ossie/pipeline.py:904-921 | a default proposal is out of range exactly at the last version, where an absent one would be blocked as limited |
| Identity.ProductGateImpliesWrite | src/ard_ossie/identity.py:30-123 | a product the duplicate check lets through can be written, except an unchanged retired one that is created |
| Identity.TableGateImpliesWrite | src/ard_ossie/identity.py:126-186 | a table classified neither as blocked nor as reuse can be written |
| Identity.ProductClassIff | src/ard_ossie/identity.py:30-123 | what the check of a product reports, for every registry: an update continues the registered product, changed or not; a creation finds nothing like it, or itself unchanged; all else is blocked |
| Identity.TableClassIff | src/ard_ossie/identity.py:126-186 | what the check of a table reports, for every registry |
| Identity.ProductWriteKeeps | src/ard_ossie/registry.py:72-100 | a write keeps keys and aliases apart exactly when none of the record's aliases is another product's key, and always when aliases are kept |
| Identity.TableWriteKeeps | src/ard_ossie/registry.py:102-129 | a checked table write keeps locators apart |
| RegistryStore.Registry.WriteProduct | src/ard_ossie/registry.py:72-100 | a conflict changes nothing; otherwise exactly the record is replaced and the index agrees |
| RegistryStore.Registry.WriteTable | src/ard_ossie/registry.py:102-129 | the same for tables |
| RegistryStore.Registry.WriteMappings | src/ard_ossie/registry.py:131-155 | mappings are replaced, sorted, exactly when all are the product's own and of current table versions |
| RegistryStore.IndexProducts | src/ard_ossie/registry.py:164-174 | the index loop agrees with the products when keys are apart |
| RegistryStore.IndexIsScan | src/ard_ossie/registry.py:164-174 | an agreeing product index is one-to-one and gives what a linear scan finds |
| ProductRun.LocatorIndexIsScan | src/ard_ossie/registry.py:164-174 | the same for the table index |
| Carrying.ResolveColumns | src/ard_ossie/pipeline.py:826-871 | the column loops give the next records, and fail exactly when a retired column would be reused |
| Carrying.ColumnsCarried | src/ard_ossie/pipeline.py:826-871 | every old column ID is kept and a retired column stays as it is |
| Carrying.ColumnIdsDiffer | src/ard_ossie/pipeline.py:826-850 | two columns get one ID exactly when the same old column bears both their names; a new ID goes to one column only |
| Carrying.BuildRelationships | src/ard_ossie/pipeline.py:1902-2006 | the relationship loops give the sorted relationships, the next records and the number of findings |
| Carrying.LinksAreActive | src/ard_ossie/pipeline.py:1960-2006 | the relationships are sorted, permute those of the foreign keys, and are exactly the active records |
| Carrying.ProblemsIff | src/ard_ossie/pipeline.py:1902-1975 | no finding is made exactly when every foreign key is resolved and the first relationship that bears its name is not retired |
| Carrying.LinksFollowKeys | src/ard_ossie/pipeline.py:1976-2006 | the relationships are then one for one those of the foreign keys, under the ID of the first old one that bears the name or a new one |
| Carrying.RelationshipsCarried | src/ard_ossie/pipeline.py:1902-2006 | every old relationship ID is kept and a retired one stays as it is |
| ProductRun.ResolveTables | src/ard_ossie/pipeline.py:800-883 | the table loop drafts every dictionary table, or fails exactly on a bad configuration, another ID for a registered locator, or a retired column |
| ProductRun.ResolvesIff | src/ard_ossie/pipeline.py:800-850 | the dictionary can be resolved exactly when the configuration names each table once and only tables of the dictionary, gives a registered table no other ID, and no column first bears the name of a retired one |
| ProductRun.NewTableIdsDiffer | src/ard_ossie/pipeline.py:825-825 | new tables get different IDs |
| ProductRun.BuildTableRecords | src/ard_ossie/pipeline.py:886-945 | records and plans for all drafts, unless planning or the record's validator raises |
| RegistryRun.ProcessProduct | src/ard_ossie/pipeline.py:249-490 | the run succeeds exactly when records can be built, the gate passes and no staged write raises, and then replaces exactly the product, its tables and its mappings; no run succeeds that is blocked from outside, has a foreign key that cannot be linked, or whose product or tables are not admissible or get another version |
| RegistryRun.GateIff | src/ard_ossie/pipeline.py:347-417 | the gate lets a run through exactly when nothing outside blocks it, every foreign key can be linked, and product and tables are admissible and get the one version they may have |
| Registration.SucceedsIff | src/ard_ossie/pipeline.py:249-490 | a run whose records can be built succeeds exactly when the gate lets it through and it does not create a retired product unchanged |
| Registration.DictionaryIsRegistered | src/ard_ossie/pipeline.py:440-471 | after a successful run every table of the dictionary is registered under its locator with its columns active, and mapped to the product at its version; other mappings and tables under other locators are as they were |
| Registration.ProductIsRegistered | src/ard_ossie/pipeline.py:337-346 | the product is registered as configured, its active relationships are those of the foreign keys, and no other product has changed |
| RunTheorems.NeverReuse | src/ard_ossie/pipeline.py:817-825 | resolved tables are never classified as a reuse of another table's locator |
| RunTheorems.RecordSteps | src/ard_ossie/pipeline.py:886-945 | a record that passes the gate advances the registered version by one exactly when the content changed, or starts at 1 |
| RunTheorems.RunAdvances | src/ard_ossie/pipeline.py:249-490 | a successful run only steps records and adds new ones at version 1, and keeps the registry valid |
| RunTheorems.GateImpliesWrites | src/ard_ossie/pipeline.py:347-471 | a run that passes the gate succeeds, in all cases but the creation of an unchanged retired product |
| RegistryExamples.RetiredCreationFails | src/ard_ossie/pipeline.py:948-976 | a concrete registry and configuration that pass the gate and fail to write |
| History.VersionNamesContent | src/ard_ossie/versioning.py:36-131 | along any runs a version number of an entity stands for one content |
| History.VersionsHaveNoGap | src/ard_ossie/versioning.py:36-131 | every version up to the current one has been used |
| History.TableVersionHistory | src/ard_ossie/pipeline.py:904-931 | versions of a table are single-valued, gapless, never fall and never pass 999, over any sequence of runs |
| History.ProductVersionHistory | src/ard_ossie/pipeline.py:348-359 | the same for a product |
| History.ColumnIdsArePermanent | src/ard_ossie/models.py:147-153 | a column ID occurs exactly once in every later version of its table, and a retired column never changes again |
| History.RelationshipIdsArePermanent | src/ard_ossie/pipeline.py:1993-2006 | the same for the relationships of a product |
| Promotion.Install | src/ard_ossie/pipeline.py:2524-2535 | one turn of the install loop goes through, or leaves its target untouched or moved to the backup |
| Promotion.Rollback | src/ard_ossie/pipeline.py:2536-2543 | a rollback without faults restores every target; in any case no old tree is lost |
| Promotion.PromoteDirectories | src/ard_ossie/pipeline.py:2516-2547 | all targets hold their candidates and no backup remains, or every target is as before; installable placements raise only by a failing call in the install loop, rollback and cleanup fail only by a failing call after it, so a single fault in the loop is always rolled back; paths of no placement never change |
| Publication.UpsertRelease | src/ard_ossie/adapters/github_cli.py:292-358 | a release that holds something else under the name of the asset is left as it was and never upserted; otherwise it is left, prepared or finished, and when upserted it has the title and exactly one asset of that name, with the digest |
| Publication.CreateTags | src/ard_ossie/application/release_publication.py:113-124 | the creation loop makes the tags the checkout lacks, locally |
| Publication.Run | src/ard_ossie/application/release_publication.py:87-157 | an attempt succeeds or finds a conflict, when no fault comes between, exactly as nothing or something is in the plan's way; success means that all tags are at the commit and that the release has the plan's title and exactly one asset of that name, with its digest; a conflict or an early failure changes nothing, a later one leaves the remote part of the way, and tags and releases of no concern to the plan never change |
| Publication.ConflictsIff | src/ard_ossie/application/release_publication.py:87-96 | what is in a plan's way: a tag at another commit, a release of another tag, two assets of the name, or one of another digest |
| Publication.PublishedDelivers | src/ard_ossie/application/release_publication.py:113-157 | what an undisturbed attempt leaves delivers the plan, beside the assets that were there |
| PublicationProtocol.TagsAreWriteOnce | src/ard_ossie/adapters/git_cli.py:252-289 | over any attempts a remote tag never moves or disappears |
| PublicationProtocol.AssetsAreWriteOnce | src/ard_ossie/adapters/github_cli.py:306-346 | once a release has an asset of a name, its assets of that name and their digests never change |
| PublicationProtocol.ReleasedAfterTags | src/ard_ossie/application/release_publication.py:113-133 | a release exists only with all tags of its plan on the remote at the plan's commit |
| PublicationProtocol.RerunsConverge | src/ard_ossie/application/release_publication.py:87-157 | after any attempts of a plan at a commit, cut short anywhere, an undisturbed one reaches the same remote as if nothing had happened before |
| PublicationProtocol.PublishingIsIdempotent | src/ard_ossie/application/release_publication.py:87-157 | publishing again what is published changes nothing |
| SecretScan.StreamContainsSecret | src/ard_ossie/application/repository_checks.py:610-618 | for any split into chunks the scan finds a secret exactly when the whole file has one |
| SecretScan.PatternsAreShort | src/ard_ossie/application/repository_checks.py:61-68 | every pattern has a match of at most 40 bytes |
| SecretScan.SecretIff | src/ard_ossie/application/repository_checks.py:61-66 | the patterns find exactly the texts with a GitHub token, an API key, an access key or the head of a private key in them, byte by byte |
| SecretScan.OneMoreChunk | src/ard_ossie/application/repository_checks.py:613-617 | searching the overlap and the next chunk decides all that has been read, and the next overlap is its end |
| SecretScan.OverlapIsNeeded | src/ard_ossie/application/repository_checks.py:68 | an overlap two bytes short of a pattern's shortest match misses a match |
| OutputPrinter.OutputDelimiter | src/ard_ossie/application/output.py:116-124 | the open search ends within one more step than the value has distinct lines, at the first free delimiter, if that many delimiters differ |
| OutputPrinter.UnbrokenIsSplit | src/ard_ossie/application/output.py:117 | an unbroken line between newlines is among the split lines too |
| OutputPrinter.ReadsBack | src/ard_ossie/application/output.py:62-73 | reading rendered text back by newlines gives exactly the keys and values |
| OutputPrinter.RenderOutputs | src/ard_ossie/application/output.py:62-73 | printing fails exactly on an invalid key, and what it prints reads back |
| OutputPrinter.KeyIff | src/ard_ossie/application/output.py:12-12 | a key is a letter or underscore followed by letters, digits, underscores and dashes |
| OutputPrinter.PrintedForm | src/ard_ossie/application/output.py:67-71 | a value with a newline or a carriage return is printed between two lines of its delimiter, any other behind its key |

## Left out

- Prompt wording, JSON Schema text, provider adapters and profiles, HTTP errors, sleeping between retries: the provider is an arbitrary sequence of replies, and the consequences of a reply are what is modelled.
- The regular expressions of the spacing checks: whether a text has defects, splits an identifier or splits a protected token is an arbitrary function of the texts.
- Hashing: request and attempt hashes carry their payload; candidate IDs, decision IDs, text, table and product hashes are arbitrary functions, and the digest of a request key in the replay catalog is too. Collisions of different payloads are not modelled where a hash carries its payload.
- Float rounding of confidences, scores and the character coverage of a report.
- IDs of blocks and figures, which are digests of content that is modelled.
- Docling, PDF, OCR and Excel extraction, line clustering and region grouping of the layout, and the overlap of boxes in a continuation; the page, order and repeated-edge conditions of a continuation are modelled.
- Rendering of Markdown: whether it is empty, raw HTML or raises is one boolean of the validator.
- `validate_canonical` on a table cell outside its rows: the comparison raises, and the model then gives no report.
- Validator.ValidateCanonical: does not round the coverage to six digits, because rounding is float arithmetic on counts that are stated exactly; its content hash is the content it is taken of.
- Semantic duplicate candidates of products, which the pipeline never passes; metrics, whose records are dropped on purpose in some cases.
- Shared tables and changesets, completeness and semantic findings of a run: one boolean says whether they block it.
- Resolving the text of a foreign key to its target: each foreign key is a relationship name or a finding.
- JSON files, temporary files, symbolic links other than a link standing at a target or backup, and identity races.
- Promotion.Move: treats a move onto anything that exists as failing, because the code never relies on replacing an empty directory.
- Reading the changeset, the bundle and the head before publication; an upload that leaves a partial asset; and two publications at the same time.
- Publication.Ports.CreateTag: the identity configuration and the verification after creating a tag are one local call, because nothing remote happens between them.
- Issue intake, base synchronisation, changeset coordination, bootstrap, source checks and the command line: straight sequences of guards that would only add easy members.
- Matching of regular expressions in the secret scan: the patterns are classes of bytes with bounds on the repeated last one; the kind of a token and the optional kind of a private key are written out as separate patterns.
- Turning values other than strings into text, and sorting the keys, in the output printer.
