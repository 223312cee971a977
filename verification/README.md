# Audit-to-promotion pipeline and staging stores: a verified model

The repository reads congressional disclosure filings into staging records, audits a random sample
of them against an owner's error budget, and promotes only what the audit allows. This project
models that pipeline and the stores around it, and proves what they promise for every input and
every run.

* **The error bound.** `Binomials`, `Hypergeometric`, `StratifiedBound` and `Coverage` prove that
  the per-cell binary search returns the largest failure count the sample does not exclude, and that
  the bound never falls when more failures are critical. `LotCoverage` and `BoundCoverage` list every
  lot a design can draw, once, and prove that at most the share 1 - confidence of them makes the
  computed bound understate the population's failures. `ClopperPearson` does the pooled binomial
  reference. `Sampling` models the frozen lot, `SampleFit` decides which populations it fits, and
  `Certificate` joins sampler and report.
* **Verdicts, report, gate.** `AuditReport` folds an append-only verdict history into a report,
  `StickyVerdicts` says what later entries can change, `PromotionGate` what a stored report must
  show before anything is promoted.
* **The protocol.** `PromotionProtocol` is a state machine of recorders, reporters, samplers,
  producers and promoters over shared files, with the root lock, the per-document locks and a crash
  between any two writes. `PromotionSafety` proves its guarantees over every run,
  `PromotionRequests` that what a run records, reports and inserts is what was asked for, and
  `PromotionRun` exhibits a run that inserts.
* **Producer and auditor.** `HouseInventory` and `HouseAudit` model the House inventory and the
  separate checks that must accept it, `InventoryTables` says from which tables it is built;
  `RepairGaps` models the ordered repair statements and the
  parse-count audit. `StageBatch` models the batch that stages readings and decides when to stop.
* **Staging files.** `StagingTypes`, `StagingStore`, `StagingManifest`, `Reclassify` and
  `OutcomePublication` model files as a map with two atomic operations, exclusive link and replace,
  and prove what survives a crash between any two of them.

`dafny verify dfyconfig.toml` checks the whole project.

## How things are represented

A SHA-256 digest is the value it digests, so hashes are injective. Probabilities are exact: counts
of draws compared with a real share of all draws, or exact reals. Text formats, clocks, randomness,
the database engine and the libraries behind it enter as parameters or as nondeterministic outcomes.
A program that changes variables, tables or files step by step is a method or a class here, proved
against a specification; a process that may be interrupted takes a number of file operations it
survives; concurrent actors are moves of a state machine.

## Where a promise needs a condition

Each point has a lemma that decides exactly when the promise holds.

* Omission and invention findings are documented as critical and never downgraded by the tool. Only
  a fail with an explicit critical severity is permanent: one later cosmetic fail makes such a
  finding stop counting, because a recorded fail skips the ground-truth check. The same entry
  reclassifies a fail recorded without a severity, which the documentation does foresee
  (`StickyVerdicts.PermanentExactly`, `AcceptanceReachableExactly`, with the two examples
  `OmissionLaundered` and `LegacyFailLaundered`).
* A report with a budget above 1 is complete with its budget met, and the gate still refuses it
  (`PromotionGate.GateMatchesReport`, `LargeBudgetIsMetButRefused`).
* The note a failed promotion leaves on a record is covered by the frozen hash. The next report over
  that lot stays complete exactly when each entry of the document has a recorded fail or was frozen
  with that note; and the verdict binding survives every note exactly when a pass froze the record
  without one (`PromotionGate.NoteBreaksReportExactly`, `NoteKeepsBindingExactly`, with the inputs
  `NewNoteBreaksReport` and `RewrittenNoteUnbinds`).
* The inventory trims the chamber before comparing it, the auditor's join does not; and the
  inventory looks only at runs of the archive year, the binding checks at all of them
  (`HouseAudit.PaddedChamberBreaksAudit`, `BindingHoldsExactly`, with examples).
* After the repair statements the parse-count audit can still fail, for instance on a `no_txs` run
  that shares its identity with a success; and a success without a generation is demoted whatever
  rows it had (`RepairGaps.RepairPassesAuditExactly`, `NoTxsTwinNeverPasses`, `LegacySuccessDemoted`).
* The manifest writer does not check that row ids are unique across documents, the reader does;
  with a colon in a document id the two can disagree (`StagingManifest.AgreementExactly`,
  `ColonIdsDisagree`).
* A batch stops after five rate limits that are called consecutive; as the documentation foresees,
  only a success resets their count (`StageBatch.RateCounterExact`, `InterruptedRateLimitsStop`).
* A frozen lot passes the bound's own checks at every quota and for every random choice exactly when
  no document is eligible in two years and, in each year, as many eligible documents are frozen with
  the asset-review flag as the frame counts. The flag frozen is that of the document's first record
  of any year and status, so an unflagged error record of an earlier year can make a flagged success
  fail (`SampleFit.FitsExactly`, with the inputs `StaleFlagFails`, `StagedTwiceFits` and
  `EligibleTwiceFails`).

## Model

| member | source | states |
|---|---|---|
| Hypergeometric.TailStep | scripts/audit_sample.py:275-315 | one more failing document removes exactly C(bad, f) * C(good, n-f-1) draws from the lower tail |
| Hypergeometric.TailIsComplete | scripts/audit_sample.py:281-282 | the terms the CDF sums add up to all draws when no failure count is excluded |
| Hypergeometric.TailSaturates | scripts/audit_sample.py:279-282 | beyond the drawable failures the tail is the whole, which is what the early returns of 1 rely on |
| Hypergeometric.TailBelowSupport | scripts/audit_sample.py:288-291 | below the support the tail is empty, which is what the early return of 0 relies on |
| Hypergeometric.TailAntitone | scripts/audit_sample.py:275-315 | P(X <= f) never grows with the number of failing documents |
| Hypergeometric.CdfAtLeast | scripts/audit_sample.py:329 | comparing the probability with alpha is comparing tail counts with alpha times all draws |
| Hypergeometric.CdfAtMost | scripts/audit_sample.py:275-315 | the CDF with its end cases and support loop is the tail's share of all draws, in [0, 1] |
| Hypergeometric.SumTerms | scripts/audit_sample.py:288-315 | the loop over the support sums the whole lower tail |
| Hypergeometric.DrawsAreWeights | scripts/audit_sample.py:292-315 | wherever failing documents sit, the number of draws showing f failures is the hypergeometric weight |
| Hypergeometric.UpperFailures | scripts/audit_sample.py:318-333 | shortcuts and binary search return what a full scan for the largest admissible count returns, at every level |
| Hypergeometric.UpperCountIsLargest | scripts/audit_sample.py:318-333 | the result is the largest failure count the sample does not exclude, and the only such count |
| Hypergeometric.ShortcutsAreTheSearch | scripts/audit_sample.py:322-333 | for every level in (0, 1] the shortcuts return that same largest count |
| Hypergeometric.LevelZero | scripts/audit_sample.py:422 | level 0 excludes nothing |
| Hypergeometric.UpperCountMonotone | scripts/audit_sample.py:318-333 | more observed failures never lower the upper count |
| Hypergeometric.UpperCountRange | scripts/audit_sample.py:318-333 | the upper count lies between the observed failures and the population minus the observed passes |
| Hypergeometric.MissesAreExcluded | scripts/audit_sample.py:318-333 | the draws whose upper count misses the truth form a lower tail lighter than the level |
| Hypergeometric.CellCoverage | scripts/audit_sample.py:318-333 | strictly fewer than alpha of all draws of a cell give an upper count below its true failures |
| StratifiedBound.CheckAnnual | scripts/audit_sample.py:378-384 | the annual check accepts exactly the counts that agree with the cells, a missing year counting 0 |
| StratifiedBound.CountSample | scripts/audit_sample.py:388-407 | the lot is accepted exactly when ids are distinct and every cell is in the frame; the counts are then per cell |
| StratifiedBound.CountFailures | scripts/audit_sample.py:430-435 | the failures of a cell are its lot documents in the critical set |
| StratifiedBound.SizeCells | scripts/audit_sample.py:411-421 | no cell is overfull exactly when accepted; population and number of uncertain cells are then exact |
| StratifiedBound.SumUppers | scripts/audit_sample.py:424-444 | the cells' upper counts add up, unsampled cells in full and census cells exactly |
| StratifiedBound.StratifiedCriticalUpperBound | scripts/audit_sample.py:336-459 | the program returns the pooled bound exactly for a sound design and fails closed for any other |
| StratifiedBound.RefusesExactly | scripts/audit_sample.py:372-416 | the bound is refused exactly when the lot or frame is empty, an id is repeated or not resolved, a document or an annual count has no cell or does not agree, or a cell or the frame holds fewer documents than were drawn |
| StratifiedBound.BoundSays | scripts/audit_sample.py:411-459 | otherwise it pools one claim of each cell: all of it, exactly what failed, or the largest count its draws do not exclude at the level at which the cells sampled in part share the error |
| StratifiedBound.BoundMonotone | scripts/audit_sample.py:336-459 | a larger critical set never gives a smaller bound, for any lot, frame and confidence |
| StratifiedBound.CellUpperRange | scripts/audit_sample.py:436-443 | each cell's upper count lies between its failures and its population minus its passes |
| StratifiedBound.CellsPartitionLot | scripts/audit_sample.py:424-435 | the cells count every lot document and every critical failure exactly once |
| StratifiedBound.BoundRange | scripts/audit_sample.py:336-459 | the bound is in [0, 1], at least the observed critical share, and exact for a census |
| StratifiedBound.LevelRange | scripts/audit_sample.py:418-422 | the per-cell levels are probabilities whose sum is at most 1 - confidence |
| Coverage.CellMissShare | scripts/audit_sample.py:436-443 | an uncertain cell misses in at most alpha of its draws, any other cell never |
| Coverage.PooledBoundMisses | scripts/audit_sample.py:456 | the reported rate is below the true share exactly when the summed counts are below the true total |
| Coverage.UnionBound | scripts/audit_sample.py:344-358 | the joint misses of cells with known truth are covered by alpha of all joint samples per uncertain cell |
| Coverage.SimultaneousCoverage | scripts/audit_sample.py:344-358 | for any cells and any true failures, failure vectors whose summed upper counts are too low weigh at most 1 - confidence |
| LotCoverage.DrawsAreDraws | scripts/audit_sample.py:561-565 | each listed draw of a cell is n different documents of the cell |
| LotCoverage.DrawsDiffer | scripts/audit_sample.py:561-565 | no draw of a cell is listed twice |
| LotCoverage.DrawsNumber | scripts/audit_sample.py:561-565 | the list has as many draws as there are ways to choose them |
| LotCoverage.DrawsWeighed | scripts/audit_sample.py:293-304 | the listed draws with f failing documents are as many as the hypergeometric weight says |
| LotCoverage.LotsAreVectors | scripts/audit_sample.py:344-358 | counting joint draws whose claim is too low is counting failure vectors by their weights |
| BoundCoverage.PicksAreLots | scripts/audit_sample.py:541-570 | each listed joint draw takes the design's number of different documents from every cell |
| BoundCoverage.PicksDiffer | scripts/audit_sample.py:541-570 | no joint draw is listed twice |
| BoundCoverage.PickIsSound | scripts/audit_sample.py:378-416 | every nonempty lot listed passes the fail-closed checks |
| BoundCoverage.UnderstatesExactly | scripts/audit_sample.py:336-459 | the computed bound lies below the true share exactly when the lot is sound and its summed upper counts are too low |
| BoundCoverage.BoundCovers | scripts/audit_sample.py:344-358 | of all lots the design can draw from any population, at most 1 - confidence make the computed bound understate its failures |
| ClopperPearson.TermIsMass | scripts/audit_sample.py:237-239 | the summed terms are the binomial probabilities of independent draws |
| ClopperPearson.SumAtMostOne | scripts/audit_sample.py:240 | the sum never exceeds 1, so the cap never applies |
| ClopperPearson.SumIsOne | scripts/audit_sample.py:235-236 | from f = n on the CDF is 1 |
| ClopperPearson.SumAntitone | scripts/audit_sample.py:231-240 | the binomial CDF never grows with the failure probability |
| ClopperPearson.CdfAtMost | scripts/audit_sample.py:231-240 | the CDF with its end cases is P(X <= f) |
| ClopperPearson.ExactUpperBound | scripts/audit_sample.py:243-253 | the bisection's result is acceptable and within 2^-200 of every acceptable probability below it |
| ClopperPearson.BinomialUpperBound | scripts/audit_sample.py:256-272 | no draws are an error, all failures give 1, otherwise the bisection's guarantee |
| Sampling.ChooseYear | scripts/audit_sample.py:557-565 | flagged documents first, min(q, F), then min(q - flagged, P) unflagged ones, for any random choice |
| Sampling.FreezeYear | scripts/audit_sample.py:572-614 | one frozen entry per chosen document, taken from its record, no duplicates |
| Sampling.BuildLot | scripts/audit_sample.py:531-614 | the lot is one allowed choice per year that has eligible documents |
| Sampling.YearSaysExactly | scripts/audit_sample.py:531-614 | what may be drawn in a year, by the records: different documents with a result, flagged ones up to the quota, others up to what it leaves, each with its first record's flag and content |
| Sampling.EligibleYearsExact | scripts/audit_sample.py:500-507 | the visited years are exactly those with an eligible document, ascending |
| Sampling.DesignFrame | scripts/audit_sample.py:510-528 | the frame counts each year's distinct eligible documents by flag and agrees with the annual counts |
| Sampling.FrameSays | scripts/audit_sample.py:500-528 | each year of the frame has a document with a result, and its numbers are those of such documents, by flag |
| Sampling.FlaggedHere | scripts/audit_sample.py:549-558 | with unique ids the global flagged set selects exactly the year's flagged documents |
| Sampling.LotFillsQuotas | scripts/audit_sample.py:531-614 | the lot has no duplicates and every cell of the frame holds exactly its quota |
| Sampling.LotFitsFrame | scripts/audit_sample.py:378-416 | with unique ids any frozen lot passes every fail-closed check of the bound; only an empty lot does not |
| SampleFit.ConsistentFits | scripts/audit_sample.py:378-416 | over consistent records every lot the sampler may freeze passes the checks |
| SampleFit.TwoYearsFail | scripts/audit_sample.py:554-570 | a document eligible in two years makes some possible lot fail |
| SampleFit.FlagsFail | scripts/audit_sample.py:582-614 | a year whose frozen flags are not as many as its frame counts makes some possible lot fail |
| SampleFit.FitsExactly | scripts/audit_sample.py:510-614 | every quota and every random choice passes exactly when no document is eligible in two years and frozen flags match the frame's counts |
| SampleFit.UniqueIsConsistent | scripts/audit_sample.py:549-553 | unique document ids are consistent |
| SampleFit.EligibleTwiceFails | scripts/audit_sample.py:554-570 | a document eligible in two years is drawn twice by the census, which no frame makes acceptable |
| SampleFit.StaleFlagFails | scripts/audit_sample.py:582-612 | an unflagged error record of an earlier year makes a flagged success fail the checks |
| SampleFit.StagedTwiceFits | scripts/audit_sample.py:582-612 | the same error record before an unflagged success is harmless |
| AuditReport.IssuesExact | scripts/audit_sample.py:1579-1602 | a lot raises no issue exactly when it is nonempty, duplicate-free and has no blank id |
| AuditReport.MembersExact | scripts/audit_sample.py:1579-1602 | the population is the first entry of each document id that is not blank, once each |
| AuditReport.GroupHistory | scripts/audit_sample.py:1574-1577 | the history is grouped by document with entries in order |
| AuditReport.FreezePopulation | scripts/audit_sample.py:1579-1602 | the population is the first entry of each nonblank id, and every other entry is an issue |
| AuditReport.ListPopulation | scripts/audit_sample.py:1608-1711 | one pass puts every document in the list its placement names |
| AuditReport.BuildReport | scripts/audit_sample.py:1496-1784 | lists, bound and budget decision are those of the history over the lot's population |
| StickyVerdicts.ListsPartitionLot | scripts/audit_sample.py:1618-1711 | every lot document is in exactly one of failed, unresolved, clean and passed-unpromoted, and in no other list |
| StickyVerdicts.CompleteReport | scripts/audit_sample.py:1774-1784 | complete exactly when the lot is well formed and all resolve; then the decision is bound <= max_rate over the critical set |
| StickyVerdicts.IncompleteReport | scripts/audit_sample.py:1760-1784 | a report that is not complete decides nothing, and its bound is 1 once anything is resolved |
| StickyVerdicts.InterimBoundIsOne | scripts/audit_sample.py:408-409 | while one document of a well-formed lot is unresolved and another is not, the bound is 1 |
| StickyVerdicts.CriticalNowExact | scripts/audit_sample.py:1716-1718 | the documents the bound counts are those placed as failed with a critical severity |
| StickyVerdicts.ReasonExactly | scripts/audit_sample.py:1637-1685 | for each reason why a document is unresolved, exactly when it is given |
| StickyVerdicts.FailReportedExactly | scripts/audit_sample.py:1623-1636 | the severity, the old-record and the repaired mark of a recorded fail, each exactly by the entries there are |
| StickyVerdicts.FindingReportedExactly | scripts/audit_sample.py:1686-1707 | a ground-truth finding is critical, an omission exactly when some row is missing from the record and otherwise an invention |
| StickyVerdicts.FailIsSticky | scripts/audit_sample.py:1623-1636 | a document with a recorded fail stays failed under any later entries and any record |
| StickyVerdicts.UnreadableUntilFail | scripts/audit_sample.py:1637-1643 | an entry without a readable verdict keeps its document unresolved until a fail is recorded |
| StickyVerdicts.PermanentExactly | scripts/audit_sample.py:1359-1379 | a critical failure is permanent exactly when some fail of the document is explicitly critical |
| StickyVerdicts.AcceptanceReachableExactly | scripts/audit_sample.py:1540-1552 | appended entries can reach acceptance exactly when the explicitly critical documents alone keep the budget |
| StickyVerdicts.NoLaundering | scripts/audit_sample.py:1540-1552 | with a severity on every fail and no ground truth, a missed budget is final under any later entries |
| StickyVerdicts.LegacyFailLaundered | scripts/audit_sample.py:1359-1379 | a fail without severity misses the budget until a cosmetic fail is recorded |
| StickyVerdicts.OmissionLaundered | scripts/audit_sample.py:1668-1707 | an omission finding misses the budget until a cosmetic fail is recorded |
| StickyVerdicts.PassesExactly | scripts/audit_sample.py:1637-1711 | a document passes exactly with verdicts that all pass, the frozen record live and matching ground truth; clean exactly if promoted too |
| StickyVerdicts.FailsExactly | scripts/audit_sample.py:1623-1707 | a document fails exactly on a recorded fail, or on differing ground truth behind passes on the frozen record |
| Certificate.CompleteMeasures | scripts/audit_sample.py:1496-1552 | over a sound design a complete report's bound lies between the critical share and the share not seen to pass, exact for a census |
| Certificate.FullQuotaIsCensus | scripts/audit_sample.py:541-547 | a quota reaching every eligible document draws every cell in full |
| Certificate.CensusIsExact | scripts/audit_sample.py:1530-1533 | such a census reports the exact critical share of the population at every confidence |
| Certificate.SampledLotIsMeasured | scripts/audit_sample.py:1524-1537 | a complete report over a lot drawn from consistent records never fails closed; its bound is within that range |
| PromotionGate.WriteReport | scripts/audit_sample.py:1970-2323 | the report command always replaces the state: that of the report built, telling its critical failures, rate and open documents, or an incomplete one; with its exit code |
| PromotionGate.StateTells | scripts/audit_sample.py:2187-2316 | the stored state names its evidence, each critical failure once with their number and rate and every unresolved document, and is complete, with bound and decision, exactly when the lot is well formed and all resolve |
| PromotionGate.GateOpensExactly | scripts/glm_stage.py:1447-1533 | on any state, however it came about, the gate opens exactly when every field proves the preconditions for the current history and lot |
| PromotionGate.BoundIsProbability | scripts/audit_sample.py:456 | every bound a report can store lies in [0, 1] |
| PromotionGate.GateMatchesReport | scripts/glm_stage.py:1447-1533 | on a written state the gate opens exactly for a complete report with met budget, current history and lot, max_rate in [0, 1] |
| PromotionGate.LargeBudgetIsMetButRefused | scripts/glm_stage.py:1505-1506 | a budget above 1 is met by every complete report and refused by the gate |
| PromotionGate.BindingAfterNote | scripts/glm_stage.py:1695-1718 | after a note the binding rests on a pass over the record without its note or with that very note |
| PromotionGate.NoteKeepsBindingExactly | scripts/glm_stage.py:1695-1718 | every note keeps the binding exactly when a pass froze the record without a note |
| PromotionGate.RewrittenNoteUnbinds | scripts/glm_stage.py:1695-1718 | a record whose only pass froze it with an earlier note is unbound by the next |
| PromotionGate.NoteBreaksReportExactly | scripts/glm_stage.py:1999-2006 | after a note a complete report stays complete exactly when every lot entry of the document has a recorded fail or was frozen with that note |
| PromotionGate.NewNoteBreaksReport | scripts/glm_stage.py:1999-2006 | a new note on a passed lot document makes the report incomplete |
| PromotionProtocol.RecordMoves | scripts/audit_sample.py:1136-1175 | a recording appends one entry, only under a closed report; a hash in it is that of the record live at that step, stamped with the entry's verdict and severity |
| PromotionProtocol.ReportRelies | scripts/audit_sample.py:1965-2031 | a complete state is only ever written as the report over the history of that step, from records that were live |
| PromotionProtocol.SampleMoves | scripts/audit_sample.py:926-948 | a lot is linked only under a closed report, as a sample of a snapshot that is still live |
| PromotionProtocol.RecordRelies | scripts/audit_sample.py:1113-1155 | under the document lock the recorder's record stays the live one from recheck to append |
| PromotionProtocol.PromoteRelies | scripts/glm_stage.py:1847-2042 | from gate to journal the gate stays open and the checked record stays live |
| PromotionProtocol.StepKeeps | scripts/glm_stage.py:1799-1806 | every step of every actor, crashes included, keeps mutual exclusion and all the above |
| PromotionSafety.VerdictsBindLiveRecords | scripts/audit_sample.py:1094-1155 | over every run, an appended hash is that of the record live at the append, and the stamp on it is the verdict and severity appended |
| PromotionSafety.FailedRecordIsRefused | scripts/glm_stage.py:1918-1925 | while the record a fail was recorded on is live, the check before an insertion turns its document away |
| PromotionSafety.NothingFailedIsInserted | scripts/glm_stage.py:1918-1925 | no insertion of a run takes a record as a fail left it |
| PromotionRequests.HistoryIsWhatWasAsked | scripts/audit_sample.py:1094-1155 | over every run the history is exactly the verdicts recorders were asked for, in order, each bound to the record its recorder first read |
| PromotionRequests.MissingIsRecordedBare | scripts/audit_sample.py:1158-1175 | a verdict on a document without a live record is recorded without a hash, under a closed report |
| PromotionRequests.ChangedIsNotRecorded | scripts/audit_sample.py:1113-1131 | a recorder that finds the record gone or changed under the lock records nothing |
| PromotionRequests.ReportIsWhatWasAsked | scripts/audit_sample.py:1970-2319 | over every run a complete state is the report some request asked for: its lot, its ground truth, its budget |
| PromotionRequests.UnreadableShuts | scripts/audit_sample.py:1983-2031 | a report that cannot read its evidence replaces the state by one that is not complete |
| PromotionRequests.OnlyAskedIsInserted | scripts/glm_stage.py:2037-2042 | only documents of a batch somebody asked to promote are inserted |
| PromotionRequests.JournaledWasInserted | scripts/glm_stage.py:1993-2035 | each journaled document was inserted in full |
| PromotionRequests.JournaledIsArchived | scripts/glm_stage.py:2017-2035 | a document is journaled only once its record is archived |
| PromotionRequests.NoteChangesOnlyTheNote | scripts/glm_stage.py:1999-2006 | a partial insertion changes its own live record, and of that the note alone |
| PromotionRequests.BatchEnds | scripts/glm_stage.py:1869-1900 | a batch asked for while the gate is closed is refused as a whole and changes nothing |
| PromotionRequests.RaisedIsSkipped | scripts/glm_stage.py:1971-1980 | after an insertion that raises the batch goes on and nothing has changed |
| PromotionRequests.PartialIsNoted | scripts/glm_stage.py:1993-2015 | after a partial insertion the record is noted and nothing journaled |
| PromotionRequests.CompleteIsJournaled | scripts/glm_stage.py:2016-2036 | after a full insertion the record is archived and the document journaled |
| PromotionSafety.MissedBudgetIsFinal | scripts/audit_sample.py:1540-1552 | once a report without ground truth misses its budget on a lot, no continuation inserts under that lot with that budget or a smaller one |
| PromotionRun.AnInsertionIsReachable | scripts/glm_stage.py:1808-2042 | some run samples, passes, reports and inserts a document |
| PromotionSafety.PromotionIsSafe | scripts/glm_stage.py:1808-2042 | over every run, inserted rows are the live, passed record's and a reviewed one's, and the stored report was written for exactly that history and lot, complete and within the budget it stores |
| PromotionSafety.InsertIsMeasured | scripts/glm_stage.py:1808-2042 | that report's bound measures the population its lot was drawn from, never a refusal |
| PromotionSafety.LotsAreSnapshots | scripts/audit_sample.py:904-948 | over every run, each lot on disk is a sample of one consistent snapshot of the live records, with its frame and annual counts |
| LotOfLive.LotsAreOfLiveRecords | scripts/audit_sample.py:500-614 | over every run, each lot on disk holds different documents that were live together with a result, with their content, as many of each year and flag as a quota gives, beside a frame that counts them all |
| PromotionRequests.RedrawKeepsTheLot | scripts/audit_sample.py:904-948 | drawing again under the name of a lot leaves it: the same lot changes nothing, another one closes the report |
| PromotionRequests.SamplerGivesUp | scripts/audit_sample.py:921-926 | a sampler that did not lock exactly the live documents changes nothing |
| PromotionRequests.ProducerPublishes | scripts/glm_stage.py:449-475 | a producer with the document's lock archives what is live and publishes any record, and changes nothing else |
| PromotionSafety.AnyoneMayCrash | scripts/glm_stage.py:1799-1806 | any actor may die anywhere, which frees its locks and changes no file |
| StageBatch.RateCounterExact | scripts/glm_stage.py:1230-1249 | the rate counter reaches five exactly when some stretch without a success holds five rate limits |
| StageBatch.OutageStreakExact | scripts/glm_stage.py:1230-1249 | the outage counter counts the uninterrupted unavailable documents at the end |
| StageBatch.Batch | scripts/glm_stage.py:1266-1314 | everything before the first stopping document is published and nothing after; every candidate is counted once; the flags name the cause |
| StageBatch.OutcomeUnique | scripts/glm_stage.py:1266-1287 | the candidates alone determine what a batch publishes and so where it stops |
| StageBatch.StopsExactly | scripts/glm_stage.py:1230-1249 | for each reason to stop, exactly when a batch stops at a document for it |
| StageBatch.CompletesExactly | scripts/glm_stage.py:1266-1314 | every candidate is published exactly when no quota is spent, nothing is misconfigured, no stretch without a success holds five rate limits and no five in a row are unavailable |
| StageBatch.StagedIsRead | scripts/glm_stage.py:1293-1314 | what is counted as staged are the documents read to a result |
| StageBatch.InterruptedRateLimitsStop | scripts/glm_stage.py:1230-1249 | five rate limits stop a batch although other failures lie between them |
| HouseInventory.IndexMetadata | scripts/rebuild_staged.py:567-582 | metadata is indexed exactly when no document repeats |
| HouseInventory.IndexArtifacts | scripts/rebuild_staged.py:584-601 | artifacts are indexed exactly when each document has one, with a valid digest |
| HouseInventory.CheckRun | scripts/rebuild_staged.py:701-738 | a candidate run passes exactly when it is named, its rows have a House identity and its counts equal them |
| HouseInventory.HasStaleRows | scripts/rebuild_staged.py:749-757 | stale rows are reported exactly when a row of the document lies outside the accepted group |
| HouseInventory.BuildRow | scripts/rebuild_staged.py:674-776 | a document gets a row exactly when it has one bound terminal run and all its rows agree with it |
| HouseInventory.HouseInventoryRows | scripts/rebuild_staged.py:558-777 | rows are returned exactly for the databases that should be accepted, one per document, each from its only run |
| InventoryTables.InventoriableExactly | scripts/rebuild_staged.py:558-777 | rows are built exactly from tables in which filings and artifacts pair off, digests are valid, each artifact has one finished run of the year and all rows of its document are House rows of that run, as many as it says |
| InventoryTables.InventoryTells | scripts/rebuild_staged.py:758-776 | a row names its filing's member and date, and the outcome, error and counts of the only run over its artifact |
| HouseAudit.BindingViolations | scripts/rebuild_staged.py:850-927 | no violation exactly when every artifact has one run and one report that agree |
| HouseAudit.BoundExactly | scripts/audit_generation.py:1240-1312 | on any tables an artifact has no violation exactly when one run and one report count for it, of the same source and outcome |
| HouseAudit.PublishedReports | scripts/rebuild_staged.py:817-836 | after publication the generation's House reports are the inventory's rows and nothing else |
| HouseAudit.PublishReplaces | scripts/rebuild_staged.py:817-836 | publication leaves the reports of other generations, sources and chambers, each as often as it was there, and of its own exactly the rows given |
| HouseAudit.BindingHoldsExactly | scripts/audit_generation.py:1240-1312 | a published inventory passes both binding checks exactly when each artifact has one run the check counts; always if runs carry the archive year |
| HouseAudit.NoOtherReports | scripts/rebuild_staged.py:817-836 | after publication every House report of the generation is a row of the inventory |
| HouseAudit.ActivationViolations | scripts/audit_generation.py:1138-1238 | no violation exactly when reports and artifacts are as many, none missing, none extra, none repeated |
| HouseAudit.ActivationExactly | scripts/audit_generation.py:1138-1238 | on any tables the check asks for as many reports as artifacts, no two of one document, and each with the other's document and bytes |
| HouseAudit.OtherReportShows | scripts/audit_generation.py:1138-1238 | the check notices a report replaced by one of another document or over other bytes |
| HouseAudit.ActivationAlwaysClean | scripts/audit_generation.py:1138-1238 | a published inventory always passes that check |
| HouseAudit.AcceptedIsPersisted | scripts/rebuild_staged.py:636-672 | the accepted counts sum to exactly the generation's persisted rows of the inventoried documents |
| HouseAudit.ReconcilesExactly | scripts/audit_generation.py:753-771 | the auditor's join finds the accepted count exactly when padded and foreign rows balance |
| HouseAudit.PaddedChamberBreaksAudit | scripts/audit_generation.py:753-771 | with every row filed under its own document, exactly when no chamber is padded with blanks |
| HouseAudit.TrimMatters | scripts/rebuild_staged.py:642-644 | a chamber accepted after trimming is accepted untrimmed exactly when trimming changed nothing |
| HouseAudit.PaddedExample | scripts/rebuild_staged.py:642-644 | an accepted inventory whose row the auditor does not reconcile |
| HouseAudit.OtherYearExample | scripts/rebuild_staged.py:619-629 | an accepted inventory with two runs for the auditor |
| HouseAudit.HouseStore.Refresh | scripts/rebuild_staged.py:780-847 | one transaction: publish and activate, or leave all as it was, or clear an unresolved generation; reports of other generations, sources and chambers stay; published generations pass the activation and binding checks |
| RepairGaps.Tables.RetireStaleRows | scripts/rebuild_staged.py:2360-2388 | step 2a keeps the rows some bound success owns and those it does not judge |
| RepairGaps.Tables.RecountSuccesses | scripts/rebuild_staged.py:2389-2414 | step 2b sets every success's count to the rows it owns |
| RepairGaps.Tables.DemoteEmptySuccesses | scripts/rebuild_staged.py:2415-2442 | step 2c demotes exactly the successes without rows |
| RepairGaps.Tables.PruneRuns | scripts/rebuild_staged.py:2443-2451 | step 2d drops exactly the unsettled runs beside a settled one of the same document and generation |
| RepairGaps.Tables.Repair | scripts/rebuild_staged.py:2360-2451 | the four statements in order |
| RepairGaps.PersistedAfter | scripts/rebuild_staged.py:2360-2388 | after 2a a run has its rows if some success shares identity and source, else none |
| RepairGaps.RepairReconciles | scripts/rebuild_staged.py:2360-2451 | for every starting table, successes are bound with count equal to positive persisted rows, unsettled runs have none |
| RepairGaps.OnlySupersededDropped | scripts/rebuild_staged.py:2443-2450 | of each run the repair leaves what it became, unless a success or no_txs run of the same document and generation is left instead |
| RepairGaps.RepairLosesNothingOwned | scripts/rebuild_staged.py:2360-2388 | a judged row survives exactly when a surviving success owns it |
| RepairGaps.RepairIsIdempotent | scripts/rebuild_staged.py:2360-2451 | repeating the repair changes nothing |
| RepairGaps.CheckRun | scripts/audit_generation.py:204-273 | the audit has nothing to say about a run exactly when it is reconciled |
| RepairGaps.CheckParseCounts | scripts/audit_generation.py:160-274 | no violation exactly when every bound run is reconciled |
| RepairGaps.CleanExactly | scripts/audit_generation.py:194-273 | on any tables the audit is clean exactly when each bound run is named, of a known status, and counts exactly its rows in the table, which only a success may have |
| RepairGaps.OtherCountShows | scripts/audit_generation.py:223-227 | in a clean table any other count of a bound run is reported |
| RepairGaps.OtherRowShows | scripts/audit_generation.py:212-227 | a row of a bound run lost or added is reported |
| RepairGaps.OnlySuccessesOwn | scripts/audit_generation.py:249-266 | in a clean table a row owned by a bound run is owned by a success |
| RepairGaps.CountsAddUp | scripts/audit_generation.py:204-227 | in a clean table without shared owners the counts of bound successes add up to the rows they own |
| RepairGaps.RepairPassesAuditExactly | scripts/audit_generation.py:160-274 | the audit after the repair is clean exactly when every bound run before it was repairable |
| RepairGaps.NoTxsTwinNeverPasses | scripts/audit_generation.py:222-246 | in any tables a no_txs run beside a success of the same identity that owns rows fails after every repair |
| RepairGaps.LegacySuccessDemoted | scripts/rebuild_staged.py:2415-2442 | in any tables a success without a generation is demoted whatever rows it had |
| StagingTypes.ValidateStagedPair | scripts/ocr_local_sweep.py:1299-1379 | accepts exactly the envelopes whose rows file matches in path, digest, identity and count |
| StagingTypes.PairIsOwned | scripts/ocr_local_sweep.py:1320-1379 | rows of a valid pair name the envelope's document and artifact, are numbered under the document, and share no row id |
| StagingTypes.DamagedPairIsInvalid | scripts/ocr_local_sweep.py:1320-1379 | a pair is lost with its rows file, and no other content, count, document or artifact fits |
| StagingTypes.OwnedPairIsValid | scripts/ocr_local_sweep.py:1320-1379 | rows so numbered, digested by the envelope and stored at either place, make a valid pair |
| StagingStore.Root.PublishDocument | scripts/ocr_local_sweep.py:1448-1482 | performs the publication plan, cut where the process dies, and reports how it ended |
| StagingStore.Root.ReplaceEnvelope | scripts/ocr_local_sweep.py:1485-1502 | performs the replacement plan, cut where the process dies; its final check never fails |
| StagingStore.LinkIsSafe | scripts/ocr_local_sweep.py:1242-1268 | an immutable publication keeps the root sound and ends with the named bytes in place |
| StagingStore.ReplaceIsSafe | scripts/ocr_local_sweep.py:1271-1296 | replacing an envelope is safe once its pair is valid and the old one archived |
| StagingStore.PublishIsSafe | scripts/ocr_local_sweep.py:1448-1482 | wherever a publication stops, active envelopes match their rows, immutable files are unchanged, old envelopes archived |
| StagingStore.ReplacementIsSafe | scripts/ocr_local_sweep.py:1485-1502 | wherever a replacement stops, the same holds |
| StagingStore.RunsAreSafe | scripts/ocr_local_sweep.py:1448-1502 | after any calls, each cut anywhere, every envelope ever active is active or archived and the root is sound |
| StagingStore.PublicationSucceeds | scripts/ocr_local_sweep.py:1448-1482 | on a sound root a publication succeeds exactly when the rows are as many as the envelope says, belong to it and have distinct ids |
| StagingStore.PublicationFrame | scripts/ocr_local_sweep.py:1448-1482 | on any root and wherever it stops, a publication touches its own document only, and replaces its envelope only by the new one with the old one archived |
| StagingStore.DamageIsLeftAlone | scripts/ocr_local_sweep.py:1455-1473 | a root whose active envelope does not match its rows is not written to, nor any root for rows that do not fit |
| StagingStore.OutcomeSays | scripts/ocr_local_sweep.py:1448-1502 | a call that survives its operations ends done exactly when its plan is not a refusal |
| StagingStore.ReplacementFrame | scripts/ocr_local_sweep.py:1485-1502 | on any root a replacement touches one envelope, archives it, and puts only one with a valid pair in its place |
| StagingStore.RetryConverges | scripts/ocr_local_sweep.py:1448-1482 | repeating a crashed publication ends with the same active envelope as an uninterrupted one |
| StagingManifest.WriteManifest | scripts/ocr_local_sweep.py:1545-1639 | the manifest is written exactly when every active envelope validates |
| StagingManifest.ReadableExactly | scripts/ocr_local_sweep.py:1560-1577 | the listings that can be read are those whose every document has its own active envelope with a valid pair |
| StagingManifest.BucketsCount | scripts/ocr_local_sweep.py:1581-1608 | each year's bucket counts its documents by status, and the statuses add up to them |
| StagingManifest.ManifestTells | scripts/ocr_local_sweep.py:1575-1611 | the manifest tells of every document both digests, its one status, and its row count, reasons or pages |
| StagingManifest.RowsAddUp | scripts/ocr_local_sweep.py:1584-1603 | the row total is that of the resolved documents, a year's that of all its documents |
| StagingManifest.ValidatedInventory | scripts/rebuild_staged.py:3000-3095 | the reader returns exactly the active documents, exactly when it accepts them |
| StagingManifest.AgreementExactly | scripts/rebuild_staged.py:3000-3095 | a manifest just written is accepted exactly when no row id belongs to two documents |
| StagingManifest.AcceptsExactly | scripts/rebuild_staged.py:3000-3095 | whatever manifest is on disk, the reader accepts it exactly when no row id is shared and its digests, summaries and counts are those the writer would write |
| StagingManifest.ColonFreeAgrees | scripts/rebuild_staged.py:3000-3095 | with colon-free ids every written manifest is accepted |
| StagingManifest.ColonIdsDisagree | scripts/ocr_local_sweep.py:1360-1368 | with ids a and a:b the writer succeeds and the reader rejects |
| StagingManifest.ManifestPinsRoot | scripts/rebuild_staged.py:3027-3063 | an accepted manifest means exactly the envelopes it was written over |
| StagingManifest.ReplacedIsRejected | scripts/rebuild_staged.py:3030-3033 | after any envelope changed its bytes the manifest is rejected |
| Reclassify.PageEvidence | scripts/ocr_local_reclassify_no_txs.py:57-73 | the readings are grouped by page in order, and a malformed reading is noticed |
| Reclassify.IsAllNothing | scripts/ocr_local_reclassify_no_txs.py:208-218 | counting pages and checking each is checking that every page has one reading, that it reports nothing |
| Reclassify.PageInventory | scripts/ocr_local_reclassify_no_txs.py:76-96 | accepts exactly the partitions of pages 1 to n and returns them in order |
| Reclassify.Preflight | scripts/ocr_local_reclassify_no_txs.py:159-231 | admits exactly the envelopes with a consistent page inventory and, for claims, well-formed evidence and no rows |
| Reclassify.Reclassified | scripts/ocr_local_reclassify_no_txs.py:255-287 | demotes claims without evidence, restores demoted ones with it, leaves the rest |
| Reclassify.ProofAndPagesKept | scripts/ocr_local_reclassify_no_txs.py:255-287 | the row proof is unchanged and the pages stay partitioned |
| Reclassify.StaysAdmissible | scripts/ocr_local_reclassify_no_txs.py:159-231 | a second run never fails its own preflight |
| Reclassify.ReconcilingIsIdempotent | scripts/ocr_local_reclassify_no_txs.py:99-102 | a second run changes nothing |
| Reclassify.ClaimsHaveEvidence | scripts/ocr_local_reclassify_no_txs.py:255-287 | after a run a claim means each page has exactly one reading, that it reports nothing |
| Reclassify.ClaimStandsExactly | scripts/ocr_local_reclassify_no_txs.py:208-287 | a claim stands, or is restored, exactly when the reasons hold one reading of each page, that it reports nothing, and no other reading |
| Reclassify.RewrittenExactly | scripts/ocr_local_reclassify_no_txs.py:255-287 | a run rewrites status, pages and marker alone; a demotion is marked, a restoration unmarked, every other reason stays |
| Reclassify.AdmissibleExactly | scripts/ocr_local_reclassify_no_txs.py:159-231 | an envelope is let through exactly when its pages are consistent and a claim, or one demoted earlier, has counted pages, no rows and no unreadable reading |
| Reclassify.InterruptedRunsConverge | scripts/ocr_local_reclassify_no_txs.py:99-102 | an interrupted run passes its preflight when repeated and ends where an uninterrupted one would |
| Reclassify.ReclassifyNoTxs | scripts/ocr_local_reclassify_no_txs.py:105-292 | all envelopes are checked before any changes; whatever happens each is as it was or as the run leaves it; a sound root is refused exactly when a check fails |
| OutcomePublication.StepKeeps | scripts/backtest_assumptions.py:1160-1218 | every step of every writer keeps receipts and CSV in place, dated and bound |
| OutcomePublication.PublishedIsBound | scripts/backtest_assumptions.py:1160-1218 | over every run neither file is replaced and a published CSV has the bytes its receipt binds |
| OutcomePublication.RetryFinishesExactly | scripts/backtest_assumptions.py:1142-1191 | after a crash between receipt and CSV a retry publishes exactly with the same bytes and binding |
| OutcomePublication.LoserFinishesExactly | scripts/backtest_assumptions.py:1160-1191 | a writer that lost the race for the receipt publishes exactly with the same bytes and binding |
| OutcomePublication.FirstWriterPublishes | scripts/backtest_assumptions.py:1142-1218 | alone after the unseal day a writer publishes its bytes under a receipt of that day for its capture |
| OutcomePublication.NoLaterAttempt | scripts/backtest_assumptions.py:1276-1277 | once the CSV is published nobody starts another attempt |
| OutcomePublication.ReceiptIsDatedThen | scripts/backtest_assumptions.py:1337 | a receipt carries a day its own run has seen |
| OutcomePublication.FinishedByTheReceipted | scripts/backtest_assumptions.py:1194-1218 | over every interleaving an interrupted attempt is finished by a writer with exactly the receipt's bytes and binding |
| OutcomePublication.InterruptedIsFinishedAsBound | scripts/backtest_assumptions.py:1194-1218 | the same from any reached state |
| OutcomePublication.ReaderAgrees | scripts/backtest_assumptions.py:316-352 | the reader accepts a published pair exactly for the capture its receipt names |
| OutcomePublication.TamperingShows | scripts/backtest_assumptions.py:316-352 | the reader takes no other bytes, no other capture and no receipt from before the unseal or from the future |
| OutcomePublication.ReuseExactly | scripts/backtest_assumptions.py:1142-1158 | a receipt on disk is reused exactly for the same capture and bytes and a date between the unseal and now |
| OutcomePublication.SealedUntil | scripts/backtest_assumptions.py:158-166 | nothing is published before the unseal day |

## Left out

- Floating point, scipy and log-gamma: exact integers, rationals and reals instead, so `isclose` tolerances become equality and rounding near a threshold is not modelled.
- Hash collisions: a digest is the value it digests.
- Random generation: the sampler may draw any subset of the quota's size; that it draws uniformly is the assumption behind `Coverage`, not a result.
- JSON typing and field validation (`decode_staging_record`, malformed manifests, non-numeric counts, a missing asset-review flag in a lot), symbolic links, fsync and temporary file names.
- Row normalization and upper or lower case of verdicts: rows and verdicts are taken as already normalized.
- The order of sorted document ids: lists follow the order of the lot, the listing or the metadata query.
- Pooled and per-year rates of a report, the tally outside the lot, completion guidance and all printed text; the errors the pooled rate can raise appear as an unreadable report.
- Review bundles and rendered pages: a verdict may be refused for them, which the model covers only as an interrupted recording.
- Extraction identity fields, the separate rows hash, PDF digests and other per-document refusals of a promotion: they only refuse more, which an insertion that raises covers.
- What the insert itself commits: `insert_transactions_outcome` is a nondeterministic outcome, and a partial insert is logged like a complete one.
- Two records of one document in different years of the staging root: the protocol keeps one live record per document id; `SampleFit` treats the sampler over any records. Two in one year do not load.
- HouseAudit.HouseStore.Refresh: the reports table is replaced by generation, source and chamber as a whole; that table's own module is not part of this model.
- The SQL case expression that maps a run to its source differs from the Python helper on engines such as `visionb`; both sides share one map here.
- Quarantine of rows with invalid dates and the later repair steps on row ids and notification dates.
- RepairGaps.Tables.Repair: models steps 2a to 2d only, inside one transaction.
- The legacy rows path of one document can spell the immutable path of another; the two kinds of path are distinct here.
- The owner marker of a staging root and the second producer (`scan_ocr.py`) of a manifest.
- The frame of a year counts a flagged document by any eligible record of that year; the loader refuses a second record of the same year and id.
- The manifest hashes a reclassification checks in its preflight, its list of demoted, restored and kept ids, and the manifest it writes at the end, which is `StagingManifest.WriteManifest`.
- Legacy outcome files, the column checks of an outcome panel, and a clock that runs backwards.
- The batch stager with several workers, which counts the stopping document differently, and how a reading's error text is told apart.
- Price and ticker tables, statistics over outcomes, OCR engines and PDF rendering: easy members or no closed semantics.
