# Verification of the experiment platform's deterministic algorithms

This project models, in Dafny 4.11, the parts of the platform on which its results and its spending rest, and
proves what they promise for all inputs, all interleavings and all histories. `dafny verify dfyconfig.toml`
checks everything.

| area | modules |
|---|---|
| UTF-8-safe token windows and the two chunkers on top | `Utf8`, `TokenWindows`, `TokenWindowLaws`, `FixedChunker`, `HeadingChunker` |
| paid calls: budget, prices, per-key locks and the call protocol | `Budget`, `Pricing`, `Singleflight`, `PaidCalls`, `PaidAnswers` |
| two union-finds with different linking rules and what reads them | `DuplicateGroups`, `CandidateValidation`, `LeakageSplits` |
| planners and greedy selections | `GenerationPlanner`, `Shortlist`, `EmbeddingBatches` |
| resumable state | `ExperimentRunner`, `EmbeddingRepository`, `EmbeddingService` |
| sentinel-safe serialization | `Json`, `ContextSerialization` |
| page merging, ranks, review agreement | `ParseMerge`, `Ranks`, `ReviewAgreement` |

`Results`, `Lists`, `Counters` and `Sorting` hold shared vocabulary.

## How the code is rendered

- Objects whose methods update fields are classes (`MemoryBudgetRepository`, `LocalSingleflightRegistry`,
  `IndexForest`, `LeakageForest`, `FileExperimentRepository`, `MemoryEmbeddingRepository`); loops are methods with
  invariants, each proved equal to a specification function or to a property, and the laws are lemmas about
  those. Ranks are filled into an array in place.
- Concurrency is a state machine whose steps lie between two suspension points of the event loop. Code between
  two suspension points is one step, since the event loop does not interrupt it; a lock taken around code that
  never suspends is therefore never contended.
- The tokenizer is any function from texts to byte pieces; the checks that the pieces rebuild the text are the
  code's own. The random generator's draws are arbitrary functions, so every shuffle and every tie choice is
  covered. Question similarity is any relation, a provider's answers and a text's token count are parameters,
  and the token counter is only assumed to give 0 for the empty text.
- Hashes are taken to be injective; reservation identifiers are positions in the list of reservations; money is a
  number of the smallest unit, and rates are exact reals rounded by the code's own two rules.
- Identifiers of items and reviewers enter as numbers, because only their order is used.

## Where code and documentation disagree

- `src/ragbench/chunking/tokenizer.py:94-95` says a window exceeds its size only to reach the next boundary. The
  loop also goes past a boundary that would not let the next window advance. `DocumentedBoundIff` says exactly
  when the documented bound holds, `DocumentedBoundFails` gives texts for which it does not, and `WindowLength`
  gives the true bound.
- A 2xx answer need not be settled. The handler at `src/ragbench/providers/upstage/client.py:358-369` computes the
  reported usage a second time and falls back only on type and value errors (lines 698-709). A token count that
  decodes to infinity overflows when it is converted, and a price of more than 28 digits cannot be rounded: the
  handler itself raises, the reservation stays open, and its amount counts against the cap for good
  (`UnaccountableStrands`, `StrandedForGood`). `UnaccountableIff` says exactly which answers these are and
  `NothingStrandedIff` that no others are left open.
- The fixed chunker refuses a document in which a whole window falls between two blocks. `WideWindowsMeet` gives a
  width from which that cannot happen, `NarrowWindowRefused` an input one token short of it.
- The price book accepts negative rates. Usage within its declared bounds can then cost more than was reserved;
  `NoOverrunIffRatesNonnegative` says it cannot exactly when no rate is negative.
- A run whose process disappears while it is "running" is stranded: no transition leads from "running" to
  "running", so resuming is refused for ever (`KillStrands`), although its results are intact. `ResumableIff` says
  exactly when a run can begin.
- The round-robin planner is complete for single-page windows (`FillComplete`) and not for longer ones
  (`LongWindowsCanMiss`).
- Merged identifiers increase from part to part exactly when no later part has a negative one (`IdsIncreaseIff`). A
  part with a negative identifier can still merge without a repetition, but not after every document
  (`StaysUniqueIff`).
- A snapshot plan that is already marked complete is stored as complete without vectors, and the service reports
  success for it if its index is marked ready. `HistorySoundIff` and `EmbedChunks` say that this is the only way in
  which "complete" does not mean a vector for every chunk.

## Model

| member | source | states |
|---|---|---|
| Utf8.EncodeDecode | src/ragbench/chunking/tokenizer.py:84-87 | bytes decode without error and without a rest exactly as the encoding of their text |
| Utf8.DecodeConcat | src/ragbench/chunking/tokenizer.py:80-86 | decoding piece by piece with the pending bytes carried over is decoding the whole |
| Utf8.CompleteIffEncoding | src/ragbench/chunking/tokenizer.py:84-88 | the bytes of all tokens are accepted exactly when they encode some text |
| TokenWindows.SafeTokenBoundaries | src/ragbench/chunking/tokenizer.py:77-88 | for every split of bytes into pieces: refused exactly when the bytes are not complete UTF-8, otherwise offsets, safe positions and character counts of the reference |
| TokenWindows.SafePositionsExact | src/ragbench/chunking/tokenizer.py:82-87 | a token position is recorded exactly when it lies on a code-point boundary of the text, with the number of characters before it |
| TokenWindows.WindowEnd | src/ragbench/chunking/tokenizer.py:112-123 | the window end search stays inside the boundaries, ends at a safe position after the start, is the end the reference describes, and leaves room for the next start to advance |
| TokenWindows.WindowLoop | src/ragbench/chunking/tokenizer.py:108-133 | the loop terminates and never reaches its no-progress error |
| TokenWindows.SafeTokenWindows | src/ragbench/chunking/tokenizer.py:91-133 | which inputs are refused, and that the result is a windowing in the sense of the reference |
| TokenWindows.SliceDecodes | src/ragbench/chunking/tokenizer.py:124-126 | the bytes between two safe positions decode to the characters between their counts |
| TokenWindowLaws.WindowsCover | src/ragbench/chunking/tokenizer.py:108-133 | windows run from 0 to n, starts and ends strictly increase, and each next start is a safe position no later than the previous end minus the overlap |
| TokenWindowLaws.WindowingUnique | src/ragbench/chunking/tokenizer.py:108-133 | the reference leaves one result only |
| TokenWindowLaws.WindowLength | src/ragbench/chunking/tokenizer.py:111-123 | the true length bound in terms of the largest gap between safe positions |
| TokenWindowLaws.WindowLengthAttained | src/ragbench/chunking/tokenizer.py:111-123 | that bound is attained for every gap of two or more and every overlap |
| TokenWindowLaws.DocumentedBoundIff | src/ragbench/chunking/tokenizer.py:94-95 | exactly when a window stays within the bound the docstring gives |
| TokenWindowLaws.DocumentedBoundFails | src/ragbench/chunking/tokenizer.py:94-95 | for every text of two three-byte characters with one token a byte the documented bound is exceeded |
| TokenWindowLaws.ClosedForm | src/ragbench/chunking/tokenizer.py:111-132 | with every position safe the loop is the textbook sliding window |
| TokenWindowLaws.WindowsReassemble | src/ragbench/chunking/tokenizer.py:124-126 | dropping the overlaps and concatenating gives back the text |
| TokenWindowLaws.WindowsCoverText | src/ragbench/chunking/tokenizer.py:124-126 | in characters, too, the windows leave no gap |
| FixedChunker.SourceText | src/ragbench/chunking/fixed.py:20-34 | the joined text and one span per usable block, holding its content |
| FixedChunker.OverlappingExact | src/ragbench/chunking/fixed.py:37-38 | exactly the blocks whose spans meet the character range |
| FixedChunker.OverlappingInOrder | src/ragbench/chunking/fixed.py:37-38 | and in the order of their spans |
| FixedChunker.ChecksFindSkippedWindows | src/ragbench/chunking/fixed.py:92-114 | the checks at the end pass exactly when no window was skipped |
| FixedChunker.FixedSplit | src/ragbench/chunking/fixed.py:57-114 | it returns exactly for good sizes and blocks of one document whose windows each meet a block, and always when windows are two tokens wider than the gaps between safe positions; the identifier check never fires |
| FixedChunker.WideWindowsMeet | src/ragbench/chunking/fixed.py:68-71 | windows two tokens wider than the gaps between safe positions always meet a block |
| FixedChunker.NarrowWindowRefused | src/ragbench/chunking/fixed.py:68-113 | that width is needed: with one token less, blocks "ab" and "c" in one-byte tokens are refused |
| FixedChunker.ChunkProvenance | src/ragbench/chunking/fixed.py:57-114 | ordinals, contents and token ranges are those of the windows; sources are exactly the blocks met, pages their least and greatest, the section the one they share if they do; and every usable block is a source of some chunk |
| FixedChunker.SourcesInOrder | src/ragbench/chunking/fixed.py:69-107 | a chunk lists its sources in the order of the text, and its identity is hashed from its document, ordinal, token range and content |
| HeadingChunker.GroupBySection | src/ragbench/chunking/heading.py:29-36 | the usable blocks in order, as maximal runs of one section |
| HeadingChunker.HeadingSplit | src/ragbench/chunking/heading.py:29-76 | it returns exactly when the fixed chunker accepts every run, and then joins the shifted chunks of the runs |
| HeadingChunker.SectionsCover | src/ragbench/chunking/heading.py:38-75 | shifted token ranges cover the concatenated token streams without gaps, ordinals count from 0 |
| HeadingChunker.ChunksStayInRun | src/ragbench/chunking/heading.py:39-74 | no chunk mixes two section runs; each is a chunk of its run with the same content, pages and sources, its tokens moved by the tokens of the runs before |
| HeadingChunker.RunBlocksNamed | src/ragbench/chunking/heading.py:29-76 | every block of a run with tokens is a source of some chunk of the document |
| Budget.MemoryBudgetRepository.ReserveAtomic | src/ragbench/core/money.py:93-111 | refused exactly when settled, open and projected cost reach the limit; otherwise one open reservation is added |
| Budget.MemoryBudgetRepository.Settle | src/ragbench/core/money.py:113-137 | the new state of a settlement, flagged when asked or when the cost exceeds the reservation |
| Budget.MemoryBudgetRepository.Release | src/ragbench/core/money.py:139-144 | the new state of a release, which leaves closed reservations alone |
| Budget.RunSound | src/ragbench/core/money.py:93-157 | in every run settled cost is the initial one plus settled amounts and usage, and committed cost stays below the limit plus the overruns |
| Budget.CapHoldsUnlessFlagged | src/ragbench/core/money.py:93-137 | committed cost stays strictly below the limit unless a reservation requires reconciliation |
| Budget.ReservationsSettleOnce | src/ragbench/core/money.py:113-144 | a reservation leaves "open" at most once and is never re-priced |
| Pricing.EstimateIff | src/ragbench/providers/upstage/pricing.py:57-82 | an estimate is the dollar price in micro-dollars rounded up - pages at the rate of their mode, input and output tokens at their own rates, embedded tokens at the promotional rate strictly before its end - exactly when no count is negative, there is a rate, and the amount is not too long |
| Pricing.EstimateMonotone | src/ragbench/providers/upstage/pricing.py:57-85 | below a request that can be priced every request of the same kind can be priced, and no dearer |
| Pricing.GrossMonotone | src/ragbench/providers/upstage/client.py:574-575 | the half-even rounding of the gross price is monotone |
| Pricing.ProjectedExact | src/ragbench/providers/upstage/client.py:324-333 | what is reserved is the bill for the declared bounds: the price rounded up, times the multiplier, rounded to the nearest |
| Pricing.AccountingExact | src/ragbench/providers/upstage/client.py:350-376 | an answer is settled at the bill for its own counts, or at the projection when it has no proper ones, and flagged exactly when these or the text are missing |
| Pricing.UnaccountableIff | src/ragbench/providers/upstage/client.py:680-709 | exactly which answers settle nothing: an infinite count, or counts whose price has too many digits, since the fallback computes the same again and catches only type and value errors |
| Pricing.TooDearIff | src/ragbench/providers/upstage/client.py:574-575 | at rates that are not negative, exactly when a price has too many digits |
| Pricing.BoundedUsageSettles | src/ragbench/providers/upstage/client.py:680-696 | usage within the declared bounds never costs more than was reserved, and is flagged exactly when the answer is unusable |
| Pricing.NoOverrunIffRatesNonnegative | src/ragbench/providers/upstage/pricing.py:57-85 | as exact amounts, that holds for all usages exactly when no rate is negative |
| Singleflight.LocalSingleflightRegistry.Enter | src/ragbench/providers/upstage/client.py:106-108 | entry creation and counting |
| Singleflight.LocalSingleflightRegistry.Leave | src/ragbench/providers/upstage/client.py:114-119 | release, counting down and removal of the last user's entry |
| Singleflight.RunConsistent | src/ragbench/providers/upstage/client.py:99-123 | in every interleaving, with cancelled waits, entries are those in use and counts are their users |
| Singleflight.MutualExclusion | src/ragbench/providers/upstage/client.py:106-119 | two callers of one key are never inside together |
| Singleflight.EntriesAreKeysInUse | src/ragbench/providers/upstage/client.py:106-123 | the registry keeps an entry exactly for the keys somebody uses |
| Singleflight.SomebodyCanMove | src/ragbench/providers/upstage/client.py:106-119 | no deadlock |
| PaidCalls.RunInv | src/ragbench/providers/upstage/client.py:308-382 | the invariant of all interleavings of `generate` with look-ups, lock waits, cancellations, failures, unaccountable answers and cache writes |
| PaidCalls.OnePayerPerKey | src/ragbench/providers/upstage/client.py:320-379 | at most one caller of a key is between its second look-up and its cache write |
| PaidCalls.NoPaymentAfterPut | src/ragbench/providers/upstage/client.py:317-379 | after a response was cached no further paid request is made for its key, and it is cached once |
| PaidCalls.Quiescence | src/ragbench/providers/upstage/client.py:346-379 | when all callers are done no lock entry is left, a reservation was released iff its request raised, and an answered one was settled or flagged iff its answer is accountable, and is open otherwise |
| PaidCalls.NothingStrandedIff | src/ragbench/providers/upstage/client.py:358-369 | when all callers are done nothing is left open exactly when every answer was accountable |
| PaidCalls.UnaccountableStrands | src/ragbench/providers/upstage/client.py:320-379 | every unaccountable answer does leave its reservation open, with the call ended and its lock free |
| PaidCalls.InfiniteCountStrands | src/ragbench/providers/upstage/client.py:685-686 | an infinite token count is such an answer |
| PaidCalls.StrandedForGood | src/ragbench/providers/upstage/client.py:346-379 | whatever happens later, such a reservation stays open and its amount committed |
| PaidCalls.BoundedAnswersKeepCap | src/ragbench/providers/upstage/client.py:324-379 | while answers stay within the declared bounds committed cost stays below the cap at every moment, no reservation costs more than was reserved, and only unusable answers are flagged |
| PaidAnswers.CachedAnswersPaid | src/ragbench/providers/upstage/client.py:350-379 | everything in the cache is the answer to a request for that very key, with its text and proper counts, whose reservation was settled and flagged for nothing but its cost |
| PaidAnswers.BoundedCacheSettled | src/ragbench/providers/upstage/client.py:370-379 | while answers stay within the declared bounds such a reservation is settled and not flagged |
| PaidAnswers.ProperAnswerCached | src/ragbench/providers/upstage/client.py:370-379 | a proper answer is settled, and a put that does not raise leaves exactly it in the cache |
| PaidAnswers.ImproperAnswerLeaves | src/ragbench/providers/upstage/client.py:357-369 | any other answer is not cached |
| PaidAnswers.HitIsFree | src/ragbench/providers/upstage/client.py:317-323 | a hit reserves and sends nothing and records one free usage with the cached counts, or nothing when these cannot be priced |
| PaidAnswers.RequestsAreReserved | src/ragbench/providers/upstage/client.py:334-349 | the requests sent for a key are exactly as many as its reservations |
| PaidAnswers.RaiseReleases | src/ragbench/providers/upstage/client.py:351-353 | a request that raises gives its reservation back |
| PaidAnswers.NobodyStuck | src/ragbench/providers/upstage/client.py:308-382 | while a caller is not done some caller can take a step, without any failure or cancellation |
| DuplicateGroups.IndexForest.Find | src/ragbench/benchmark/validation.py:382-386 | path halving finds the root, keeps every root and terminates |
| DuplicateGroups.IndexForest.Union | src/ragbench/benchmark/validation.py:388-391 | two classes become one, and the forest stays acyclic although linking has no order |
| DuplicateGroups.BuildForest | src/ragbench/benchmark/validation.py:393-396 | the classes are exactly the connected components of the similarity relation |
| DuplicateGroups.FindDuplicates | src/ragbench/benchmark/validation.py:376-410 | the groups are the components of more than one question, and an identifier is rejected exactly when some non-first member of a component bears it |
| DuplicateGroups.ClassRepeats | src/ragbench/benchmark/validation.py:404-409 | in one class the repeats are all members but the first |
| CandidateValidation.Decide | src/ragbench/benchmark/validation.py:142-207 | each candidate gets the codes of its rules, quota and caps as the accepted ones before it left them |
| CandidateValidation.Validate | src/ragbench/benchmark/validation.py:127-207 | the same with the duplicate groups of the similarity relation |
| CandidateValidation.CapsRespected | src/ragbench/benchmark/validation.py:181-207 | at every moment no quota, document cap or page cap is exceeded |
| CandidateValidation.CapsCounted | src/ragbench/benchmark/validation.py:181-207 | counted one by one, no more accepted questions are of a type, or take a document or a page, than the quota and the caps allow |
| CandidateValidation.OnePerComponent | src/ragbench/benchmark/validation.py:163-207 | of questions connected by similarity at most one is accepted |
| CandidateValidation.AcceptedIff | src/ragbench/benchmark/validation.py:163-197 | exactly when a candidate is accepted |
| LeakageSplits.LeakageForest.Find | src/ragbench/benchmark/splits.py:290-294 | path halving keeps every root and terminates because links only lead to smaller identifiers |
| LeakageSplits.LeakageForest.Union | src/ragbench/benchmark/splits.py:296-299 | the joined class keeps the smaller root |
| LeakageSplits.ShareTokenIff | src/ragbench/benchmark/splits.py:302-310 | sharing a token is sharing a document, the family or the paraphrase group |
| LeakageSplits.LinkItems | src/ragbench/benchmark/splits.py:288-310 | the classes are exactly connectivity through shared document, family and paraphrase tokens |
| LeakageSplits.GroupByRoot | src/ragbench/benchmark/splits.py:312-315 | each class becomes one group, once |
| LeakageSplits.Shuffle | src/ragbench/benchmark/splits.py:316-317 | shuffling rearranges, whatever is drawn |
| LeakageSplits.Allocate | src/ragbench/benchmark/splits.py:319-325 | the loop computes the least-loaded allocation for every tie choice |
| LeakageSplits.GatheredMembers | src/ragbench/benchmark/splits.py:321-325 | a split holds exactly the groups placed in it |
| LeakageSplits.Balanced | src/ragbench/benchmark/splits.py:318-325 | since the largest come first, no split exceeds another by more than any group it holds |
| LeakageSplits.SplitsUsed | src/ragbench/benchmark/splits.py:321-331 | every group opens another split until all three are used |
| LeakageSplits.GroupCount | src/ragbench/benchmark/splits.py:312-315 | there are as many groups as leakage components |
| LeakageSplits.BuildSplits | src/ragbench/benchmark/splits.py:278-331 | which inputs are refused and why, and that the three non-empty splits partition the items, keep linked items together and are balanced |
| LeakageSplits.TokensApart | src/ragbench/benchmark/splits.py:281-281 | no document, family or paraphrase group occurs in two splits |
| ReviewAgreement.ExpectedBound | src/ragbench/benchmark/splits.py:365-371 | chance agreement is at most halfway between observed agreement and certainty |
| ReviewAgreement.NoDivisionByZero | src/ragbench/benchmark/splits.py:372-372 | expected agreement 1 forces observed agreement 1 |
| ReviewAgreement.Kappa | src/ragbench/benchmark/splits.py:372-372 | kappa lies between -1 and 1, and is 1 exactly for full agreement |
| ReviewAgreement.ObservedExact | src/ragbench/benchmark/splits.py:365-365 | observed agreement is the fraction of places at which the decisions agree |
| ReviewAgreement.ShareExact | src/ragbench/benchmark/splits.py:366-371 | a decision is expected by its fraction of the left times its fraction of the right decisions |
| ReviewAgreement.KappaExact | src/ragbench/benchmark/splits.py:372-372 | kappa is 1 when expected agreement is, and otherwise the excess of observed over expected agreement divided by one minus the latter |
| ReviewAgreement.CalculateAgreement | src/ragbench/benchmark/splits.py:352-373 | the two refusals, and the agreement of the pairs otherwise |
| GenerationPlanner.SearchFindsRoom | src/ragbench/benchmark/generation.py:328-343 | the round-robin search gives up only when no window has room |
| GenerationPlanner.FillJobs | src/ragbench/benchmark/generation.py:322-348 | the loop over kinds computes the round-robin filling |
| GenerationPlanner.FillFeasible | src/ragbench/benchmark/generation.py:328-347 | the filling never exceeds a cap |
| GenerationPlanner.FillComplete | src/ragbench/benchmark/generation.py:328-343 | with single-page windows it fails only when no choice of windows exists |
| GenerationPlanner.LongWindowsCanMiss | src/ragbench/benchmark/generation.py:328-343 | with longer windows it can fail although a choice exists |
| GenerationPlanner.CapacityNecessary | src/ragbench/benchmark/generation.py:308-317 | the capacity check refuses only what no choice satisfies |
| GenerationPlanner.InitialPlan | src/ragbench/benchmark/generation.py:286-373 | each refusal, the plan otherwise, and for single-page windows success exactly when a choice exists |
| GenerationPlanner.MakeBatches | src/ragbench/benchmark/generation.py:350-356 | batches concatenate to the jobs, full but for the last |
| GenerationPlanner.PlanExact | src/ragbench/benchmark/generation.py:319-348 | a plan has exactly its quota of every kind |
| GenerationPlanner.ExpandedInOrder | src/ragbench/benchmark/generation.py:319-321 | the kinds come quota by quota |
| GenerationPlanner.DeficitsExact | src/ragbench/benchmark/generation.py:387-391 | a replacement plan asks for exactly what each kind lacks |
| GenerationPlanner.ReplacementPlan | src/ragbench/benchmark/generation.py:375-460 | each refusal, and the plan for the deficits otherwise |
| GenerationPlanner.CampaignWithinCaps | scripts/generate_benchmark.py:260-285 | over the initial plan and every replacement round no cap is exceeded and only the given windows are used |
| GenerationPlanner.OrdinalsIdentifyJobs | src/ragbench/benchmark/generation.py:432-432 | ordinals never repeat in a campaign whose plans have at most a million jobs |
| Shortlist.RankedExact | src/ragbench/experiments/selection.py:162-175 | the ranking has the best outcome of each family, once, best first |
| Shortlist.GreedyKeeps | src/ragbench/experiments/selection.py:181-195 | the capped pass keeps both caps and takes distinct families of the ranking |
| Shortlist.PassedOverMeetsCap | src/ragbench/experiments/selection.py:185-189 | what it passes over met a full parse mode or retriever |
| Shortlist.GreedyNeverStuck | src/ragbench/experiments/selection.py:181-195 | on the complete grid it never runs out for any ranking and any size up to 42 |
| Shortlist.BindingsExact | src/ragbench/experiments/selection.py:131-148 | what the checks of the snapshot bindings find on a complete grid; the one on their number never decides |
| Shortlist.SelectShortlist | src/ragbench/experiments/selection.py:98-195 | each refusal, and on a complete grid with consistent bindings and one cohort success exactly for sizes 1 to 42 |
| ExperimentRunner.FileExperimentRepository.Transition | src/ragbench/experiments/runner.py:383-408 | which transitions are allowed and the record written |
| ExperimentRunner.FileExperimentRepository.ResultIds | src/ragbench/experiments/runner.py:414-432 | the configured questions with a result |
| ExperimentRunner.FileExperimentRepository.SaveResult | src/ragbench/experiments/runner.py:434-438 | write-once results of configured questions |
| ExperimentRunner.RunInv | src/ragbench/experiments/runner.py:481-600 | over all runs, workers, failures, cancellations, kills and resumes: recorded completed questions have results, results are of configured questions, completed means all |
| ExperimentRunner.ResultsKept | src/ragbench/experiments/runner.py:434-438 | no event changes or removes a saved result |
| ExperimentRunner.NeverExecutedAgain | src/ragbench/experiments/runner.py:500-509 | a question with a result is never executed again |
| ExperimentRunner.CompletedIsFinal | src/ragbench/experiments/runner.py:313-322 | a completed run never changes |
| ExperimentRunner.ErrorStopsIff | src/ragbench/experiments/runner.py:540-556 | every error is counted and sets the stop reason exactly when the last error-window outcomes hold enough errors of a kind, schema before provider |
| ExperimentRunner.BudgetStops | src/ragbench/experiments/runner.py:531-535 | a refused budget stops the run at once |
| ExperimentRunner.AnswerSaves | src/ragbench/experiments/runner.py:521-528 | a first answer is saved, counted and stops nothing |
| ExperimentRunner.ConclusionRecorded | src/ragbench/experiments/runner.py:573-600 | a run with a stop reason is recorded as stopped for it; else as failed, completed or stopped at the batch cap |
| ExperimentRunner.ThresholdNeedsDiagnosis | src/ragbench/experiments/runner.py:492-498 | after a threshold stop no run begins without an acknowledged diagnosis |
| ExperimentRunner.ThresholdEarned | src/ragbench/experiments/runner.py:544-556 | a threshold stop only after the last error-window outcomes met its rate at some moment |
| ExperimentRunner.StopHolds | src/ragbench/experiments/runner.py:519-520 | after the stop event no further question is executed by the run, however it goes on, and only those under way can still get a result |
| ExperimentRunner.ResumableIff | src/ragbench/experiments/runner.py:488-498 | exactly when an experiment that is not in progress can begin |
| ExperimentRunner.KillStrands | src/ragbench/experiments/runner.py:313-322 | a run whose process was killed can never change again |
| ExperimentRunner.CleanRunsComplete | src/ragbench/experiments/runner.py:508-509 | runs without failures complete in run number n divided by the batch cap, rounded up |
| ExperimentRunner.CleanRunPossible | src/ragbench/experiments/runner.py:509-600 | whenever a run may begin, such a run exists |
| Json.ParseRound | src/ragbench/rag/context.py:167-171 | reading the guarded JSON gives back the value, whatever follows (section 7 of RFC 8259) |
| Json.GuardedIsPlain | src/ragbench/rag/context.py:168-171 | guarded text holds no ampersand or angle bracket |
| ContextSerialization.UnframeJoin | src/ragbench/rag/context.py:145-172 | framed bodies without angle brackets are split at the sentinels in one way |
| ContextSerialization.ContextReads | src/ragbench/rag/context.py:156-172 | decoding the parts of a context gives back every record |
| ContextSerialization.ContextSaysAll | src/ragbench/rag/context.py:156-172 | a reader that looks values up by name finds one record per citation, in order, with its label, identifiers, title, pages, section and content, each under its own name |
| ContextSerialization.CitationLabel | src/ragbench/rag/context.py:119-120 | a label is C and the number in decimal |
| ContextSerialization.ContextUnambiguous | src/ragbench/rag/context.py:145-172 | different evidence never gives the same context |
| ContextSerialization.Deduplicate | src/ragbench/rag/context.py:102-113 | conflict exactly when two chunks of one identifier differ; otherwise the first of each and the repeated identifiers |
| ContextSerialization.UniqueExact | src/ragbench/rag/context.py:102-113 | the deduplicated chunks are among the given ones and have every identifier once |
| ContextSerialization.Include | src/ragbench/rag/context.py:115-144 | every included prefix fits, the next one does not, the rest is truncated in order |
| ContextSerialization.LargestPrefix | src/ragbench/rag/context.py:78-81 | with a monotone token count the included prefix is the largest that fits |
| ContextSerialization.Build | src/ragbench/rag/context.py:84-153 | refusals, C1 to Ck in order, included plus truncated is the deduplicated order, and the text fits the budget |
| EmbeddingBatches.Batches | src/ragbench/embeddings/service.py:104-124 | refused exactly when a chunk is too large; otherwise batches within both limits that flatten to the input, each full |
| EmbeddingBatches.FewestBatches | src/ragbench/embeddings/service.py:104-124 | no other division into consecutive batches within the limits uses fewer |
| EmbeddingRepository.MemoryEmbeddingRepository.CreateSnapshot | src/ragbench/embeddings/repository.py:239-254 | creation, the three refusals, and that an existing snapshot is returned as it is |
| EmbeddingRepository.MemoryEmbeddingRepository.PersistBatch | src/ragbench/embeddings/repository.py:263-282 | vectors are stored up to the first refused one |
| EmbeddingRepository.MemoryEmbeddingRepository.FinalizeSnapshot | src/ragbench/embeddings/repository.py:284-295 | complete exactly when every artifact has a vector |
| EmbeddingRepository.HistoryExtends | src/ragbench/embeddings/repository.py:239-295 | stored vectors and artifacts never change, and a complete snapshot only gets a ready index |
| EmbeddingRepository.HistorySoundIff | src/ragbench/embeddings/repository.py:239-295 | after every history a complete snapshot has exactly the artifact keys, exactly unless it was registered from a plan marked complete with some chunks |
| EmbeddingRepository.CompletePlanSkipsVectors | src/ragbench/embeddings/repository.py:251-254 | such a plan leaves its chunks without vectors and counts as complete, whatever follows |
| EmbeddingService.EmbedChunks | src/ragbench/embeddings/service.py:38-76 | only chunks without a vector are sent, in order and within limits; each chunk of an answered request holds the scaled vector given at its own place, whatever happens later; success means that every missing chunk was sent and every chunk has a vector, exactly unless the snapshot was known or planned as complete without any |
| EmbeddingService.MissingInOrder | src/ragbench/embeddings/service.py:54-54 | the chunks without a vector, in order |
| EmbeddingService.PersistAll | src/ragbench/embeddings/service.py:70-75 | the scaled vectors for missing chunks are stored completely exactly when all of them are finite and not zero |
| ParseMerge.PdfChunks | src/ragbench/providers/upstage/client.py:762-775 | page ranges follow each other over all pages, none longer than the maximum |
| ParseMerge.RequestRanges | src/ragbench/providers/upstage/client.py:532-562 | with the nested page-by-page path the requests still partition the pages in order |
| ParseMerge.PageInOneRange | src/ragbench/providers/upstage/client.py:767-774 | every page is in exactly one range |
| ParseMerge.Merge | src/ragbench/providers/upstage/client.py:778-823 | the two refusals, and the merged elements in order with shifted identifiers and pages |
| ParseMerge.PlacedExact | src/ragbench/providers/upstage/client.py:798-816 | element by element what moves and what stays |
| ParseMerge.MergedInOrder | src/ragbench/providers/upstage/client.py:787-816 | the elements come part after part |
| ParseMerge.IdsIncreaseIff | src/ragbench/providers/upstage/client.py:791-823 | merged identifiers increase from part to part exactly when no later part has a negative one |
| ParseMerge.IdsUnique | src/ragbench/providers/upstage/client.py:791-823 | identifiers unique within parts are then unique overall |
| ParseMerge.StaysUniqueIff | src/ragbench/providers/upstage/client.py:791-823 | a part with unique identifiers repeats none of any document before it exactly when none of its identifiers is negative |
| ParseMerge.NegativeIdRepeats | src/ragbench/providers/upstage/client.py:791-823 | for every negative identifier there are earlier parts after which it repeats one of theirs |
| ParseMerge.PagesStayApart | src/ragbench/providers/upstage/client.py:805-807 | pages numbered within their part come out in the part's own range |
| Ranks.RankValues | src/ragbench/evaluation/judge.py:470-482 | every rank is the number of smaller values plus half of one more than the number of equal ones, and ranks sum to n(n+1)/2 |
| Ranks.FillRun | src/ragbench/evaluation/judge.py:480-481 | in place, one run of ties gets one rank and no other place changes |
| Ranks.RankRearranged | src/ragbench/evaluation/judge.py:470-482 | ranks follow their values under any rearrangement |
| Ranks.RanksOrder | src/ragbench/evaluation/judge.py:470-482 | a larger value has a larger rank, and conversely |
| Ranks.TriangleIs | src/ragbench/evaluation/judge.py:470-482 | the sum of the ranks in closed form |

## Left out

- Files, symbolic links, permissions and directory handles: operating-system behaviour; "write once" and "replace" are kept as operations.
- The SQL-backed repositories, their advisory locks, migrations and index DDL: database behaviour; the in-memory repositories have the same contracts.
- HTTP transport, retries and back-off: a request raises, or a response arrives; of its body only the text's presence and the two token counts matter.
- Cache expiry and damaged cache entries; a cached response is returned as stored.
- `embed` and `parse` as call protocols: they price before the first look-up and settle every answer at the projection, so that none of theirs is unaccountable.
- Rounding of intermediate products to the 28 digits of the decimal context; amounts are exact until they are rounded to micro-dollars, and refused when they then have more than 28 digits.
- Prices that are missing inside a model's entry, which fail before anything is reserved.
- PDF reading and writing, HTML identifiers inside page content, merged text content and evidence hashes of parsed parts.
- Two processes running one experiment at a time; one process per run at a time is modelled, with cancellation and kills.
- A failing disk while an error or result is written, and damaged result files.
- When the decoder raises: the incremental decoder may raise at the offending piece or only at a later one or at the end, and the model reports the error without saying where; the call fails in either case.
- The order in which generation windows are sorted before planning; plans are proved for windows in any order.
- The order of retrieved chunks by rank, score and the remaining sort fields; contexts are proved for chunks in any order.
- Repeated rule codes of one candidate, which the code lists once; the evidence, answer and contamination rules enter as the codes they produced.
- Whitespace in JSON, numbers other than naturals and escaped surrogate pairs: the writer produces none of them, and the reader refuses them.
- Floating-point rounding in kappa, ranks and error rates; they are exact here.
- Stratified sampling of reviews, metrics, aggregates, bootstrap intervals, exports and rendering: sums, selections and formatting over rows that are complete before they begin.
- EmbeddingService.EmbedChunks: division by the norm is any scaling that keeps the number of components, since a norm can overflow; whether an index name is the expected one is one field of the snapshot.
- CandidateValidation.Validate: similarity is any relation, so nothing is said about which texts count as similar.
- ContextSerialization.LargestPrefix: a token count that is not monotone is covered by `Include` only, which says that every kept prefix fits and the next one does not.
- Ranks.RankValues: values that do not compare, such as NaN, are not modelled.
