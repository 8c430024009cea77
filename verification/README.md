# Verified models of the accounting back end

This project models, in Dafny, the stateful and algorithmic core of the back end and proves what it keeps over
every input and every run:

- the bank-matching engine: scorer, amount-bucket index, greedy exclusive assignment, transfer detector and the
  online update of the best matches (`Scoring`, `ScoringLaws`, `BucketIndex`, `AmountBuckets`, `FxBuckets`, `StableSort`, `GreedyAssignment`,
  `TransferIndex`, `TransferLaws`, `TransferOrder`, `TransferExamples`, `TopMatches`, `AutoDispatch`, `MatchingEngine`,
  `BatchPairs`, `BatchOnline`);
- the `active_jobs` queue with its document ids and mandate-path encoding (`JobQueue`, `QueueLog`, `JobHistory`,
  `JobDrain`, `JobDrainRuns`, `JobPayload`, `JobIsolation`, `JobManager`, `JoinedKeys`, `JobNaming`, `Utf8`, `Base64Url`, `Base64Spelling`, `MandatePath`);
- the distributed cron lock as an interleaved system with time (`CronLock`);
- the chart-of-accounts synchronisation with an agent that may answer anything (`Whitespace`, `CoaModel`,
  `CoaDiff`, `CoaMapping`, `CoaSync`, `CoaReplies`, `CoaMirror`);
- the WebSocket hub with its message buffer (`WsHub`, `WsHubLaws`, `WsDelivery`, `WsBuffer`);
- the delta protocols of the listeners (`ListenerDelta`, `TransactionStatus`);
- the reconciliation of ERP transactions with the task manager (`BankReconciliation`, `BankRows`).

Code that changes state or loops is modelled by methods and classes, each tied by its postcondition to a function on
values; the laws are lemmas about those functions. `dafny verify dfyconfig.toml` checks everything.

## Main results

- **Matching.** The score before rounding is the one function that vanishes at zero and rises with each component by
  that component's weight; it lies between the least and the greatest component, and between 0 and 1. Two transactions
  are a transfer if and only if their fields say so, and every indexed one has a counterpart of the other sign on
  another account. The batch scores exactly the pairs that the single-candidate path would accept. The greedy assignment earns at least half of any admissible assignment, and a half is tight. Each
  rejected pair is blocked by a score at least as high. The exact guard under which three probed buckets cover the
  amount gate is proved for every tolerance and for every exchange rate: a width above 1/6 for the default 20 % within
  one currency, and at the defaults no rate but 1 across currencies. Under the guard the batch and the
  single-candidate path accept the same pairs. From what the batch leaves and after any arrivals the list of best
  matches carries exactly the k largest best-scores-per-candidate. The recorded transfer counterpart is best by rounded score; when it
  is best before rounding is stated exactly, for the loop order and over all orders.
- **Queue.** A stop of a waiting batch takes out exactly the ids named, an update exactly the job it is about. In every run at most one batch per mandate runs, and none waits without one running, if and only if
  document ids separate mandates; the application's mandate paths do, whatever the batch keys. Every batch is in exactly
  one place and batches start in registration order, once those stopped or replaced while waiting are taken out; only
  stopped ones need taking out if and only if no registration reuses a key that waits. Exactly as many terminal
  updates of live job ids as there are live ids empty the queue if every batch has an id, and no number of them does
  otherwise; at every point of a run the queue can be emptied so if and only if every registration brought an id. Job
  types the id extraction does not know never bring one, and such a batch blocks those behind it until a terminal
  status names it.
- **Mandate paths.** A long path always comes back. A short path comes back if and only if it is not taken for
  base64, is not "unknown", holds no underscore and no confusing token (or is taken for base64, has no separator and
  fails to decode). The proof includes that `_dot_` and `_hash_` cannot occur in base64 of UTF-8 text.
- **Lock.** No two instances are inside one task's bracket, no DEL or EXPIRE meets another's key, and no failed
  acquirer goes on to DEL, in all interleavings, if and only if holders are done before the key expires.
- **Chart of accounts.** For every reply of the agent the document mirrors the ERP, and every account has the function
  of the last allowed answer in the reply of its own batch, else its old one, else the first of its nature, else its type,
  and the nature of the last legal reply about its type, else the table's, else the default. Stale entries go, and a second run
  deletes nothing, if and only if their keys carry no outer white space; the second run upserts exactly the accounts
  whose function is not active in their nature and changes nothing but functions.
- **Delivery.** Every broadcast of a thread is in somebody's inbox or went through the thread's buffer, never both, and
  what is drained followed by what remains is what was buffered, in order; with drains as two separate calls that holds
  if and only if no list changes between them. A connection is open if and only if it was registered and has since neither been unregistered nor failed; the
  callbacks balance that state up to the silent drops.
- **Deltas.** Replay shows every snapshot if and only if no field comes back at its default after it was last seen at
  another value and left the cache; statuses are tracked if and only if none changes to null before it was ever
  published.
- **Reconciliation.** Every record of the ERP index is consumed exactly once, by the first list that names it; every
  ERP row is shown if and only if row ids are distinct.

## Reading the model

- Amounts and scores are exact reals; `Round3` is rounding to three decimals, half to even. Text similarity, currency
  normalisation, date parsing and exchange rates are arbitrary functions (the `World` of `Scoring`).
- The text of a candidate key is shown injective (`Scoring.KeyTextIsInjective`), so keys are pairs elsewhere.
- A queue batch is known by its registration time, the reading of a strictly increasing clock. `scan` in an event is
  the document that a collection query meets first; it is arbitrary among those that match.
- Agent replies are arbitrary functions of the call number; the values of nature replies are taken after upper-casing.
- The code and its comments differ in one place; the model follows the code. The comment on the message buffer speaks of
  30 seconds while the code sets 300 (expiry is not modelled).

## Model

| member | source | states |
|---|---|---|
| Scoring.AmountGate | app/bulk_matching_engine.py:468-572 | for equal currencies the rounded amount component reaches the 0.40 gate iff both amounts are non-zero and within the gate's share of the larger: 20 %, or the native tolerance if that is more |
| Scoring.AmountScoreGate | app/bulk_matching_engine.py:712-727 | the amount score itself passes the gate iff the amounts are within that share, for every tolerance |
| Scoring.Round3IsMonotone | app/bulk_matching_engine.py:468-572 | rounding to three decimals keeps order |
| Scoring.Round3IsIdempotent | app/bulk_matching_engine.py:234-354 | a rounded score rounds to itself, which the transfer index relies on |
| Scoring.KeyTextIsInjective | app/bulk_matching_engine.py:139-158 | two candidates share a claim key iff kind and identifier are equal |
| ScoringLaws.AmountSteps | app/bulk_matching_engine.py:712-727 | within one currency the amount component is 0.95, 0.85, 0.40 or 0, each with its exact bound on the relative difference |
| ScoringLaws.FxAmountSteps | app/bulk_matching_engine.py:712-727 | across currencies it has two more steps, 0.70 and 0.55, each with its exact bound |
| ScoringLaws.AmountIsMonotone | app/bulk_matching_engine.py:712-727 | closer amounts never score less, and a missing amount scores nothing |
| ScoringLaws.ExpenseDateSteps | app/bulk_matching_engine.py:730-756 | an expense scores 1.0 up to one day apart, 0.90 up to three, 0.75 up to seven and 0 beyond |
| ScoringLaws.InvoiceDateSteps | app/bulk_matching_engine.py:730-756 | an invoice scores 1.0 on the same day, 0.85 up to three days apart, 0.70 up to seven, 0.50 up to thirty and 0.25 beyond |
| ScoringLaws.DateIsMonotone | app/bulk_matching_engine.py:730-756 | fewer days never score less, and an unknown date scores 0.25 |
| ScoringLaws.CurrencySteps | app/bulk_matching_engine.py:468-545 | the currency component is 1.0 for one currency, 0.7 for two that a rate joins or that are both main ones, 0.5 otherwise |
| ScoringLaws.TextOfTx | app/bulk_matching_engine.py:768-776 | the text of a transaction is its four fields with one space between those that are there |
| ScoringLaws.InvoiceComponents | app/bulk_matching_engine.py:468-545 | an invoice is compared by partner name, by the first of its three references that is there, and by its own date or the general one |
| ScoringLaws.ExpenseComponents | app/bulk_matching_engine.py:468-545 | an expense is compared by description or caption and by its own date or the general one, and never by reference |
| ScoringLaws.AmountComponent | app/bulk_matching_engine.py:468-545 | amounts are compared without sign, the foreign one converted when a positive rate exists, with the tolerance of the case |
| ScoringLaws.WeightsOfPair | app/bulk_matching_engine.py:547-553 | across currencies 15 % of the weight of the amount goes in equal parts to date and text; the sum stays, and so do non-negative weights |
| ScoringLaws.DefaultsAddUp | app/bulk_matching_engine.py:31-60 | the default weights of each kind add up to one |
| ScoringLaws.ScoreIsRoundedTotal | app/bulk_matching_engine.py:556-572 | score and details are the rounded total and components, and without an amount both are zero |
| ScoringLaws.WeightedIsDot | app/bulk_matching_engine.py:556-562 | the total is the sum of products of the list of weights and the list of components |
| ScoringLaws.TotalIsLinear | app/bulk_matching_engine.py:556-562 | the total vanishes at zero and rises with each of the five components by its weight |
| ScoringLaws.TextSlope | app/bulk_matching_engine.py:556-562 | for equal and for different currencies, raising the text similarity by t raises the unrounded total by t times the text weight of the pair |
| ScoringLaws.ReferenceSlope | app/bulk_matching_engine.py:556-562 | the same for the reference of an invoice that has one |
| ScoringLaws.TotalIsBetween | app/bulk_matching_engine.py:556-562 | with non-negative weights that add up to one the total lies between the least and the greatest component |
| ScoringLaws.ScoreIsBetweenZeroAndOne | app/bulk_matching_engine.py:468-572 | then, with similarities between 0 and 1, every score is between 0 and 1 |
| ScoringLaws.KeyOfCandidate | app/bulk_matching_engine.py:578-633 | a candidate is known by kind and id, and by its job id when it has no id |
| ScoringLaws.KeysDiffer | app/bulk_matching_engine.py:139-158 | candidates with ids share a claim key iff ids and kinds are equal |
| ScoringLaws.ShownTexts | app/bulk_matching_engine.py:578-633 | which texts a suggestion shows, field by field |
| StableSort.SortedIsStable | app/bulk_matching_engine.py:139-158 | sorting by descending score leaves items of equal score in order |
| StableSort.SortedIsPermutation | app/bulk_matching_engine.py:139-158 | sorting keeps the multiset of items |
| StableSort.SortedIsDescending | app/bulk_matching_engine.py:139-158 | the sorted list is descending |
| BucketIndex.BuildIndex | app/bulk_matching_engine.py:180-194 | the index files each position with an amount under exactly its bucket, in order |
| BucketIndex.Lookup | app/bulk_matching_engine.py:200-212 | the probe of three buckets with its seen-set returns the filed positions of those buckets |
| BucketIndex.ProbeIsExact | app/bulk_matching_engine.py:200-212 | a position is returned iff its bucket is adjacent, and only once |
| AmountBuckets.SharesCoverExactly | app/bulk_matching_engine.py:196-212 | all amounts up to a share r apart fall in adjacent buckets iff the last bucket's number is at most 1 or at most 1/r |
| AmountBuckets.BucketsCoverExactly | app/bulk_matching_engine.py:196-212 | for the gate's 20 % that is iff bucket_pct is above 1/6 |
| AmountBuckets.ReachIsExact | app/bulk_matching_engine.py:180-212 | which candidates a transaction reaches, each once |
| AmountBuckets.IndexAgreesWithScan | app/bulk_matching_engine.py:104-137 | under that guard a same-currency candidate that a full scan would accept is reached through the index |
| AmountBuckets.FxCandidateCanBeMissed | app/bulk_matching_engine.py:196-212 | for a foreign-currency candidate this fails: one is accepted by the scorer and not reached |
| FxBuckets.RateCoversExactly | app/bulk_matching_engine.py:196-212 | for a share r and a rate q all amounts are covered after conversion iff the last bucket's number L is at most 1, or q(L-1) <= L(1-r) and L-1 <= qL(1-r) |
| FxBuckets.DefaultsCoverParityOnly | app/bulk_matching_engine.py:31-60 | with the default configuration that is the rate 1 only |
| FxBuckets.FxGate | app/bulk_matching_engine.py:712-727 | across currencies the 0.40 gate is nearness of the transaction to the converted candidate |
| FxBuckets.FxIndexAgreesWithScan | app/bulk_matching_engine.py:104-137 | under the guard for its rate an accepted foreign candidate is reached through the index |
| GreedyAssignment.AssignGreedily | app/bulk_matching_engine.py:139-158 | the loop over sorted pairs gives each transaction exactly the picked suggestions and claims exactly their candidates |
| GreedyAssignment.GreedyIsHalfOptimal | app/bulk_matching_engine.py:139-158 | for non-negative scores any assignment with exclusive candidates and at most k per transaction is worth at most twice the greedy one |
| GreedyAssignment.HalfOptimalFrom | app/bulk_matching_engine.py:139-158 | the same bound from any intermediate state of the pass |
| GreedyAssignment.HalfIsTight | app/bulk_matching_engine.py:139-158 | three pairs on which the best assignment is worth exactly twice the greedy one |
| GreedyAssignment.GreedyIsStable | app/bulk_matching_engine.py:139-172 | a rejected pair has its candidate claimed at a score at least as high, or its transaction full of scores at least as high |
| GreedyAssignment.GreedyIsExclusive | app/bulk_matching_engine.py:139-172 | the outcome claims each candidate once, fills each transaction at most to k, and lists in descending score |
| GreedyAssignment.ChosenIsFeasible | app/bulk_matching_engine.py:139-158 | the pass respects capacity and exclusivity from any state |
| GreedyAssignment.RejectedIsBlocked | app/bulk_matching_engine.py:139-158 | what is skipped was blocked by something earlier in the pass |
| GreedyAssignment.PassHandsOut | app/bulk_matching_engine.py:139-158 | the state-passing form and the marking form of the pass agree on every transaction |
| GreedyAssignment.PassClaims | app/bulk_matching_engine.py:139-158 | and on every claimed candidate |
| TopMatches.UpdateTop | app/bulk_matching_engine.py:403-462 | the in-place update of one list is the update function, and reports whether it changed |
| TopMatches.ChangesExactly | app/bulk_matching_engine.py:403-462 | an arrival changes a list iff it beats the own entry of the candidate, or has none and finds a free place or an entry it beats |
| TopMatches.FindPlace | app/bulk_matching_engine.py:403-462 | the search for the candidate's own entry |
| TopMatches.FindWeakest | app/bulk_matching_engine.py:403-462 | the search for the first lowest entry |
| TopMatches.UpdateKeepsTop | app/bulk_matching_engine.py:403-462 | one arrival keeps the list sorted, key-distinct and a k-best selection of the best scores seen |
| TopMatches.RunKeepsTop | app/bulk_matching_engine.py:403-462 | so does any sequence of arrivals, repeats included |
| TopMatches.OnlineIsOffline | app/bulk_matching_engine.py:403-462 | from any sorted key-distinct list of at most k, the result is a k-best list of all that was listed or arrived |
| TopMatches.SeenIsMaximum | app/bulk_matching_engine.py:403-462 | the reference score of a candidate is the maximum over its listing and its arrivals |
| TopMatches.TopScoresAreUnique | app/bulk_matching_engine.py:403-462 | two k-best lists show the same scores |
| TopMatches.OnlineScoresAreTheLargest | app/bulk_matching_engine.py:403-462 | the scores are those of sorting everything and keeping the first k |
| TopMatches.FirstIsBest | app/firebase_cache_handlers.py:1001-1008 | the entry auto-dispatch reads carries the best score of any candidate seen |
| TopMatches.DispatchIffSomeHigh | app/bulk_matching_engine.py:403-462 | the first entry of a list reaches a bound iff some candidate seen does |
| AutoDispatch.Select | app/firebase_cache_handlers.py:1001-1008 | the loop over the changed lists selects the first entries at or above the bound |
| AutoDispatch.SelectionIsExact | app/firebase_cache_handlers.py:1001-1008 | a list is selected, with its first entry, iff that entry reaches the bound |
| AutoDispatch.SelectionIsOrdered | app/firebase_cache_handlers.py:1001-1008 | lists are selected in order, each at most once |
| AutoDispatch.OfferedExactly | app/firebase_cache_handlers.py:1001-1008 | in a changed list the first entry is the newcomer if the list was empty, the newcomer stood there or it beats the best score; otherwise it is the old first entry |
| AutoDispatch.DispatchedExactly | app/firebase_cache_handlers.py:1001-1008 | exactly when the newcomer is dispatched for a list and exactly when the old first entry is dispatched again |
| AutoDispatch.WeakNewcomerRepeatsDispatch | app/firebase_cache_handlers.py:1001-1008 | a weak newcomer in a free place has the old first entry dispatched again |
| TransferIndex.BuildIndex | app/bulk_matching_engine.py:234-354 | the double loop records every qualifying pair once, in order, and leaves the best link per id; above 500 transactions the index is empty |
| TransferIndex.ScanRow | app/bulk_matching_engine.py:248-354 | one row of the double loop takes the index along the row's states |
| TransferIndex.AllAreMet | app/bulk_matching_engine.py:246-317 | the loop meets exactly the qualifying pairs, each once |
| TransferIndex.RecordAllIsBest | app/bulk_matching_engine.py:322-352 | whatever the order, what is recorded is best by rounded score |
| TransferIndex.RecordKeepsBest | app/bulk_matching_engine.py:218-354 | recording one pair keeps the index an argmax of rounded scores |
| TransferIndex.StoredScoreIsMaximum | app/bulk_matching_engine.py:218-354 | an id is indexed iff some partner qualifies, and its score is the maximum of the rounded scores |
| TransferIndex.StrictBestIsMutual | app/bulk_matching_engine.py:218-354 | a pair strictly best after rounding for both ends is recorded on both |
| TransferLaws.OppositeIsNegativeProduct | app/bulk_matching_engine.py:254-256 | the product test is the test for opposite signs |
| TransferLaws.ComparedExactly | app/bulk_matching_engine.py:277-292 | which two amounts are compared: as they are within one currency or without rates, converted when the rate is usable, and otherwise none |
| TransferLaws.DaySteps | app/bulk_matching_engine.py:301-311 | the part for the days is 1.0, 0.85, 0.60, 0.40 or 0.10, each for its exact number of days |
| TransferLaws.TransferScoreExactly | app/bulk_matching_engine.py:241-326 | a pair scores s iff it is a transfer at s by its fields: opposite signs, different accounts, known days close enough, comparable amounts close enough, and the composite s at the threshold |
| TransferLaws.TransferScoreBounds | app/bulk_matching_engine.py:296-326 | such a score is between 0.70 and 1, and across currencies at most 0.96 |
| TransferLaws.IndexedHasCounterpart | app/bulk_matching_engine.py:234-354 | every indexed id is that of a transaction whose link is a transfer with a transaction of the other sign on another account |
| TransferLaws.TransfersAreIndexed | app/bulk_matching_engine.py:234-354 | both ends of a transfer are indexed, with a score at least as high after rounding |
| TransferOrder.IndexKeepsOffers | app/bulk_matching_engine.py:322-352 | an id's link is the kept one of its offers in loop order |
| TransferOrder.KeptExactly | app/bulk_matching_engine.py:322-352 | of the offers with the top rounded score R the kept one is the last above R that is not the first of them, else the first |
| TransferOrder.RecordsBestExactly | app/bulk_matching_engine.py:322-352 | the recorded counterpart is the best before rounding iff no offer of the same rounded score is above it |
| TransferOrder.AlwaysBestExactly | app/bulk_matching_engine.py:322-352 | it is so in every order of the offers iff all that round like the best equal it, or the best lies above its rounded value and all others at most there |
| TransferExamples.WeakerCounterpartCanWin | app/bulk_matching_engine.py:234-354 | three transactions on which a weaker counterpart displaces a stronger one |
| TransferExamples.StrongerCounterpartCanLose | app/bulk_matching_engine.py:234-354 | three transactions on which a stronger counterpart is passed over |
| MatchingEngine.BatchAgreesWithSingle | app/bulk_matching_engine.py:104-137 | under that guard the batch offers a same-currency candidate once iff the single path accepts it |
| MatchingEngine.FxBatchAgreesWithSingle | app/bulk_matching_engine.py:104-137 | under the guard for its rate so it is for a foreign candidate |
| MatchingEngine.PairsAreSound | app/bulk_matching_engine.py:104-137 | every collected pair carries its suggestion's key and score, at or above the display threshold |
| MatchingEngine.Collect | app/bulk_matching_engine.py:104-137 | collection through the index yields exactly the accepted reached candidates |
| MatchingEngine.CollectAll | app/bulk_matching_engine.py:100-137 | collection over all transactions yields exactly the pairs that BatchPairs.AllPairsExactly characterises, in order |
| BatchPairs.ListPairsExactly | app/bulk_matching_engine.py:104-137 | the pairs of one list are exactly those of the candidates it offers |
| BatchPairs.TxPairsExactly | app/bulk_matching_engine.py:120-137 | money paid out is paired with exactly the offered payable invoices and expenses, money taken in with the offered receivable invoices |
| BatchPairs.AllPairsExactly | app/bulk_matching_engine.py:100-137 | a pair is in the batch iff some transaction without a transfer and some candidate offered to it from a list for its sign make that pair |
| BatchPairs.BatchPairsAreSingle | app/bulk_matching_engine.py:100-137 | where the index is complete these are exactly the pairs the single-candidate path accepts |
| BatchPairs.OfferedIsSingle | app/bulk_matching_engine.py:360-401 | candidate by candidate, in every list |
| BatchPairs.SingleAcceptsExactly | app/bulk_matching_engine.py:360-401 | the single path accepts iff the sign is right, both amounts are there and near after conversion, and the score reaches the display threshold |
| MatchingEngine.ComputeSuggestions | app/bulk_matching_engine.py:73-174 | each id gets either its transfer with no matches or the greedy picks with no transfer |
| MatchingEngine.Report | app/bulk_matching_engine.py:160-172 | the result map has exactly the transaction ids |
| MatchingEngine.BatchIsHalfOptimal | app/bulk_matching_engine.py:73-174 | the half bound for the pairs the batch collects |
| MatchingEngine.ScoreSingle | app/bulk_matching_engine.py:360-401 | the loop returns the map of accepted suggestions; what is accepted and scored is pinned down by BatchPairs.SingleAcceptsExactly and ScoringLaws |
| MatchingEngine.SingleScoresAreOwn | app/bulk_matching_engine.py:360-401 | with distinct ids each transaction is in the map iff it accepts, with its own suggestion |
| MatchingEngine.UpdateSuggestions | app/bulk_matching_engine.py:403-462 | every entry of the array becomes its update, and the returned positions are exactly the improved ones |
| MatchingEngine.ArrivalExactly | app/bulk_matching_engine.py:403-462 | with distinct ids a list is updated with its own suggestion iff the single path accepts it, and reported iff that changed it |
| BatchOnline.BatchListStartsOnline | app/bulk_matching_engine.py:139-172 | whatever the batch leaves for an id is descending, names each candidate once and fits the capacity |
| BatchOnline.BatchThenArrivals | app/bulk_matching_engine.py:403-462 | after the batch and any arrivals the list is the k-best list of what was listed and what arrived |
| JobQueue.StepKeepsInv | app/active_job_manager.py:207-281 | each atomic call keeps the invariant that one batch runs per mandate and none waits alone |
| JobQueue.UpdateKeepsInv | app/active_job_manager.py:512-588 | a status update, with its delete and promotion, keeps it |
| JobQueue.PromoteKeepsInv | app/active_job_manager.py:624-679 | a promotion right after the running batch is deleted keeps it |
| JobQueue.StopKeepsInv | app/active_job_manager.py:322-506 | a stop keeps it |
| JobQueue.RunKeepsInv | app/active_job_manager.py:152-679 | it holds after every legal run |
| JobQueue.OneRunsExactly | app/active_job_manager.py:152-679 | it holds for all runs iff document ids of different mandates never coincide |
| JobQueue.CollisionBreaksOneRuns | app/active_job_manager.py:223-281 | the run of three registrations that breaks it when two ids coincide |
| QueueLog.ObserveKeepsLog | app/active_job_manager.py:555-577 | every kind of step keeps the log conserved and in order |
| QueueLog.LogIsFifo | app/active_job_manager.py:634-664 | registrations without the stopped and replaced ones are the starts followed by the waiting ones |
| QueueLog.PlainExactly | app/active_job_manager.py:634-664 | both laws hold with only the stopped ones taken out iff none was replaced |
| JobHistory.StepMoves | app/active_job_manager.py:152-679 | what one call does to one mandate's waiting and running batches |
| JobHistory.FirstComeFirstServed | app/active_job_manager.py:634-664 | over every run batches enter on_process in registration order with stopped and replaced ones removed |
| JobHistory.BatchesAreConserved | app/active_job_manager.py:253-273 | over every run each batch is in exactly one of pending, on_process, finished, stopped while pending, replaced while pending |
| JobHistory.FreshKeysReplaceNothing | app/active_job_manager.py:253-273 | registrations under keys that do not wait replace nothing |
| JobHistory.NothingReplacedExactly | app/active_job_manager.py:253-273 | over a run nothing is replaced for any mandate iff no registration uses a key that waits |
| JobHistory.PlainLawsExactly | app/active_job_manager.py:223-281 | FIFO and conservation with only stopped batches taken out hold over a run iff no registration uses a key that waits |
| JobHistory.SecondRegistrationReplaces | app/active_job_manager.py:253-273 | the run of three registrations on which they fail |
| JobDrain.ReportTakesOne | app/active_job_manager.py:551-584 | a terminal update of a live running id takes exactly one off the number of live ids, and whether every batch has ids stays as it was |
| JobDrain.DrainsExactly | app/active_job_manager.py:551-584 | from any state a run of such updates has at most as many steps as there are live ids, and it empties both collections iff it has exactly that many and every batch had ids |
| JobDrain.DrainExists | app/active_job_manager.py:624-679 | when every batch has ids such a run exists |
| JobDrain.DrainableExactly | app/active_job_manager.py:551-679 | some run of such updates empties both collections iff every batch has ids |
| JobDrainRuns.StepKeepsIds | app/active_job_manager.py:152-679 | no call but a registration without ids makes a batch without ids |
| JobDrainRuns.AlwaysHaveIdsExactly | app/active_job_manager.py:152-679 | throughout a run every batch of a mandate has ids iff every registration brings one |
| JobDrainRuns.AlwaysDrainableExactly | app/active_job_manager.py:152-679 | at every point of a run the queue can be emptied by such updates iff every registration brought an id |
| JobDrainRuns.RunDrainsExactly | app/active_job_manager.py:551-679 | after any run whose registrations bring ids, such updates empty the queue iff there are as many as live ids |
| JobDrainRuns.EmptyBatchBlocks | app/active_job_manager.py:207-281 | a run of two registrations after which a live id waits for ever behind a batch without ids: no such update is possible |
| JobDrainRuns.NamedReportFrees | app/active_job_manager.py:551-577 | such a batch leaves by a terminal status that names the batch, whatever the job id |
| JobPayload.ExtractJobIds | app/active_job_manager.py:101-148 | the extraction yields exactly the ids the payload holds for the job type, all queued |
| JobPayload.IdPriority | app/active_job_manager.py:119-148 | which field decides: the job id before its fallback, the transactions of a banker item before both |
| JobPayload.UnknownTypesGiveNothing | app/active_job_manager.py:101-148 | a job type it does not know, such as hr or exbookeeper, never yields an id |
| JobPayload.KnownTypesGiveSomething | app/active_job_manager.py:101-148 | the job types that can yield an id are the five it knows |
| JobDrainRuns.UnknownTypesRegisterNoIds | app/active_job_manager.py:152-207 | so every registration of another type is one without ids |
| JobDrain.LiveIsZero | app/active_job_manager.py:551-584 | both collections are empty for the mandate iff no ids are live and every batch has ids |
| JobManager.FindOldest | app/active_job_manager.py:634-645 | the ordered query finds a pending batch of least creation time |
| JobManager.FindHolder | app/active_job_manager.py:590-618 | the scan finds a document that holds the job id, or there is none |
| JobManager.SplitBatch | app/active_job_manager.py:437-477 | a pending stop: an id is stopped, once, iff it was in the batch and is named or none is; every other id stays with its status |
| JobManager.ActiveJobs.RegisterJob | app/active_job_manager.py:207-281 | the registration is the step, starts iff nothing runs for the mandate, and reports the queue position; the new document is under its id with its own key and mandate, created now, started now or not at all, all ids queued, and nothing else changes |
| JobManager.ActiveJobs.StopPendingDoc | app/active_job_manager.py:437-477 | the pending stop is the step; exactly the named ids it held, or all of them, are stopped, the rest keep their status, the document goes iff no id is left, and other documents stay |
| JobManager.ActiveJobs.StopRunningDoc | app/active_job_manager.py:398-431 | no document and no job id comes or goes; exactly the named ids that exist become "stopping", or the named transactions are added, or the batch is asked to stop; other documents stay |
| JobManager.ActiveJobs.RequestStop | app/active_job_manager.py:322-389 | the call is the step for an honest scan; which collection it finds the job in, and for a waiting batch exactly the named ids as stops (by the scan without a list exactly the key), for a running one exactly what is asked of it |
| JobManager.ActiveJobs.PromoteNext | app/active_job_manager.py:624-679 | the promotion is the step, and happens iff something waits: a waiting batch of least creation time moves under its id unchanged but for its start |
| JobManager.ActiveJobs.UpdateJobStatus | app/active_job_manager.py:512-588 | the call is the step for an honest scan, found by batch id first; the job is taken out iff its status is one of the six terminal ones, else it has the new status; all_done iff it was the last job and ended; then the document is gone and promoted_next iff something waited |
| JobManager.EmptiesExactly | app/active_job_manager.py:551-577 | an update empties its batch iff the status is completed, error, stopped, skipped, pending or routed and the batch holds no other job |
| JobManager.StatusMoves | app/active_job_manager.py:553-588 | an update moves its one job and leaves every other job and batch as it was |
| JobManager.ActiveJobs.MoveJob | app/active_job_manager.py:551-588 | the end of the call, once the document is found |
| JobNaming.SharesExactly | app/active_job_manager.py:207-222 | two mandates can share a document id for some batch keys iff their encodings are equal or one begins with the other and an underscore |
| JobNaming.QueueIsSafeExactly | app/active_job_manager.py:152-679 | for a set of mandate paths and any batch keys one batch runs per mandate in every run iff no two of them can share an id |
| JobNaming.SlashedQueue | app/active_job_manager.py:152-679 | so it does for paths without underscore, dot and hash and with equally many slashes |
| JobNaming.MandateQueue | app/firebase_providers.py:3658 | so it does for the paths clients/{user}/bo_clients/{client}/mandates/{mandate}, whatever the batch keys |
| JobNaming.MandateCallsAreIsolated | app/active_job_manager.py:322-389 | and there no call on one mandate touches a batch of another |
| JobIsolation.StopLeavesOthersExactly | app/active_job_manager.py:322-389 | a stop leaves other mandates alone iff its key does not name a document of theirs or changes nothing there |
| JobIsolation.CallsLeaveOthers | app/active_job_manager.py:152-679 | with separate ids and stop keys in scope every call leaves other mandates alone |
| JobNaming.StopReachesAcross | app/active_job_manager.py:345-372 | a stop of "b_k" for mandate "a" goes to batch "k" of mandate "a/b" |
| JobNaming.UnsafePathsCollide | app/active_job_manager.py:56-76 | "a/b" and "a_b" collide, so over all paths some run breaks the property |
| Utf8.RoundTrip | app/active_job_manager.py:70-74 | decoding the UTF-8 encoding gives the text back |
| Base64Url.RoundTrip | app/active_job_manager.py:70-94 | the lenient decoder inverts the URL-safe encoding |
| Base64Url.PaddingRoundTrip | app/active_job_manager.py:70-94 | re-padding a stripped encoding restores it |
| Base64Spelling.DotBreaks | app/active_job_manager.py:68-94 | at every alignment the bits of `_dot_` break UTF-8 |
| Base64Spelling.HashBreaks | app/active_job_manager.py:68-94 | at every alignment the bits of `_hash_` break UTF-8 |
| MandatePath.LongPathsComeBack | app/active_job_manager.py:56-94 | every path on the long branch round-trips |
| MandatePath.CleanComesBack | app/active_job_manager.py:56-94 | replacing back undoes the spelling for every clean path |
| MandatePath.ReadBackIsClean | app/active_job_manager.py:78-94 | whatever is read back from a spelling is clean, so no other path can come back |
| MandatePath.SpelledOutIsLost | app/active_job_manager.py:84-94 | a path with "." or "#" whose spelling is read as base64 is never what comes out |
| MandatePath.PlainBranch | app/active_job_manager.py:56-94 | a short path not taken for base64 comes back iff it is clean and not "unknown" |
| MandatePath.Base64Branch | app/active_job_manager.py:84-94 | a short path taken for base64 comes back iff it has no separator and does not decode |
| MandatePath.ShortPathsComeBackExactly | app/active_job_manager.py:56-94 | exactly which short non-empty paths round-trip |
| CronLock.DistributedLock.Acquire | app/cron_scheduler.py:53-85 | succeeds iff nobody visibly holds the key, and then holds it for the full time; other keys stay |
| CronLock.DistributedLock.Release | app/cron_scheduler.py:87-116 | removes the key iff it carries the own name |
| CronLock.DistributedLock.Extend | app/cron_scheduler.py:118-148 | refreshes the key iff it carries the own name |
| CronLock.DistributedLock.Bracket | app/cron_scheduler.py:260-379 | acquire and the unconditional release, undisturbed, leave every holder as it was |
| CronLock.RunKeepsInv | app/cron_scheduler.py:53-148 | in every timely interleaving each holder's key is its own, and each key's owner holds it or died |
| CronLock.InTimeIsSafe | app/cron_scheduler.py:284-379 | holders in time: no two inside a bracket, no DEL or EXPIRE on another's key, no DEL by a failed acquirer |
| CronLock.LateHolderIsJoined | app/cron_scheduler.py:53-116 | a hold as long as the time to live lets a second instance in |
| CronLock.LateDeleteFreesAnother | app/cron_scheduler.py:99-107 | and the two-step release then deletes another's key |
| CronLock.SafeExactlyInTime | app/cron_scheduler.py:53-148 | both promises hold over all interleavings iff the hold is below the time to live |
| CronLock.HolderExtendsAndReleases | app/cron_scheduler.py:87-148 | in every timely run the two calls of an extension give the holder the full time again, and the two calls of a release free the task and touch no other key |
| CronLock.OrphanGivesWay | app/cron_scheduler.py:38-40 | after any run, crashes included, an unrefreshed key gives way within the time to live |
| CoaModel.ExtractActive | app/erp_service.py:1178-1224 | the active functions of exactly the four natures, in order of first appearance, no empty names |
| CoaModel.ActiveNames | app/erp_service.py:1191-1223 | the loop over one nature's definitions yields its names in order of first appearance |
| CoaModel.NamesAreExact | app/erp_service.py:1191-1223 | a name is listed iff some definition with it is active, a missing flag reading as active |
| CoaModel.NamesGrow | app/erp_service.py:1191-1223 | names come in order of first appearance: later definitions only add to the end |
| CoaModel.IndexErp | app/erp_service.py:1337-1342 | the index and its keys in order of first appearance |
| CoaModel.IndexHoldsLast | app/erp_service.py:1337-1342 | the index holds, per stripped non-empty id, the last row |
| CoaModel.OrderIsFirstSeen | app/erp_service.py:1337-1342 | a key stands before another iff a row names it earlier |
| CoaDiff.CollectDeletions | app/erp_service.py:1326-1345 | the deletions are the stripped account ids the ERP lacks, once each |
| CoaDiff.DeleteInChunks | app/erp_service.py:1759-1768 | chunks of at most 200 remove exactly the listed keys, in the fewest updates |
| CoaDiff.Compare | app/erp_service.py:1386-1428 | the comparison flags of one account, new or stored |
| CoaDiff.Diff | app/erp_service.py:1385-1455 | exactly the touched accounts are upserted with the ERP's fields over the stored ones, and exactly those that need it are listed for mapping, in ERP order |
| CoaDiff.PickRank | app/erp_service.py:1590-1602 | an account stands in its group where the number of those before it says |
| CoaMapping.MapTypes | app/erp_service.py:1468-1581 | for every reply a type resolves to the agent's legal nature, else the table's, else PROFIT_AND_LOSS; the agent is asked once per 20 unknown types |
| CoaMapping.KeepLegal | app/erp_service.py:1556-1563 | what survives of a nature reply |
| CoaMapping.KeepAllowed | app/erp_service.py:1691-1700 | what survives of a function reply: accounts of the batch with allowed functions |
| CoaMapping.MapGroup | app/erp_service.py:1707-1727 | in batches of 25 each account of the group gets the last allowed answer of its own batch, and nothing else moves |
| CoaMapping.MapDuties | app/erp_service.py:1590-1727 | the same over all groups |
| CoaSync.ApplyNatures | app/erp_service.py:1577-1583 | exactly the listed payloads get the resolved nature |
| CoaSync.Complete | app/erp_service.py:1729-1737 | a payload without a function gets the fallback |
| CoaSync.Remap | app/erp_service.py:1385-1737 | the upserts are exactly the payloads that the replies lead to; each is the compared payload with a settled nature and a settled non-empty function |
| CoaReplies.SyncedHonours | app/erp_service.py:1385-1737 | in the written document every ERP account has the nature and the function that the replies lead to |
| CoaReplies.NatureAfter | app/erp_service.py:1468-1583 | a nature is kept iff the type did not change and there was one; otherwise it is that of the last legal reply about the type, else the table's, else PROFIT_AND_LOSS |
| CoaReplies.DutyAfter | app/erp_service.py:1590-1737 | a function is kept if the type did not change and it is active in its nature; otherwise it is the last allowed answer in the reply about the 25 accounts it was sent with, else the old one, else the first of its nature, else its type or "expense" |
| CoaReplies.FinishedFollows | app/erp_service.py:1704-1737 | the batch an account is sent in is given by how many accounts of its group come before it |
| CoaReplies.AgreedIsLast | app/erp_service.py:1565-1570 | of all nature replies the last legal one about a type counts |
| CoaReplies.LegalIsLast | app/erp_service.py:1556-1563 | and within a reply its last legal entry |
| CoaReplies.AnswerIsLast | app/erp_service.py:1691-1700 | of a function reply the last allowed entry for the account counts |
| CoaReplies.KnownTypesBecome | app/erp_service.py:1353-1382 | an account that is new, changed type or had no nature, of a type no reply names, becomes ASSET for the asset types, LIABILITY for liabilities and equity, PROFIT_AND_LOSS for income, expenses and unknown types, OFF_BALANCE_SHEET for off_balance |
| CoaReplies.TableByPrefix | app/erp_service.py:1353-1382 | in the table the nature shows in how the type begins |
| CoaMirror.CountChanges | app/erp_service.py:1744-1753 | the statistics, and the failure when an account key holds a non-dictionary |
| CoaMirror.Sync | app/erp_service.py:1150-1788 | fails iff the ERP list is empty or a key clashes; otherwise the document is the one the replies lead to, account by account, obeys the laws below, and the counts are exact |
| CoaMirror.OutcomeObeysLaws | app/erp_service.py:1326-1455 | for the ERP's own rows: accounts mirrored, stale entries gone iff trimmed, a second run deletes nothing iff all stale keys are trimmed |
| CoaMirror.MirrorsErp | app/erp_service.py:1385-1455 | after any outcome each ERP account agrees on number, name, type and activity, keeps its other fields, has a nature and a non-empty function |
| CoaMirror.StaleIsGoneExactly | app/erp_service.py:1326-1345 | an entry the ERP lacks is gone iff its key is trimmed |
| CoaMirror.OtherIsKeptExactly | app/erp_service.py:1755-1768 | any other field is untouched iff no stale key strips to it |
| CoaMirror.TidyKeysMirror | app/erp_service.py:1755-1768 | with trimmed stale keys the document is the ERP plus exactly the fields that are not accounts |
| CoaMirror.PlainKeysMirror | app/erp_service.py:1326-1345 | where all keys are trimmed a field outside the ERP goes iff it is a dictionary that carries its own key as account id |
| CoaMirror.PaddedKeyDeletesItsTwin | app/erp_service.py:1326-1345 | a padded key survives and costs the plain key its value |
| CoaMirror.ResyncUpsertsExactly | app/erp_service.py:1385-1428 | a second run upserts exactly the accounts whose function is not active in their nature |
| CoaMirror.ResyncDeletesExactly | app/erp_service.py:1326-1345 | a second run deletes nothing iff the stale keys were trimmed |
| CoaMirror.ResyncMovesOnlyDuties | app/erp_service.py:1385-1455 | a second run changes nothing of an ERP account but its function |
| CoaMirror.SettledIsFixed | app/erp_service.py:1385-1455 | with active functions and trimmed keys the second run leaves the document as it is |
| WsHub.WebSocketHub.Register | app/ws_hub.py:104-120 | the step, and whether it is the user's first connection |
| WsHub.WebSocketHub.Unregister | app/ws_hub.py:122-137 | the step, and whether it was the last connection |
| WsHub.WebSocketHub.Broadcast | app/ws_hub.py:166-261 | the step for any set of failing sends; counts the sends and buffers iff none got through and there is a thread |
| WsHub.Deliver | app/ws_hub.py:181-261 | its three branches: buffered without connections, sent, buffered when connections died and nothing got through |
| WsHub.SendAndClean | app/ws_hub.py:217-235 | exactly the reached connections receive the message, exactly the others are dropped, and no empty set stays |
| WsHub.WebSocketHub.Pending | app/ws_message_buffer.py:115-155 | returns the buffered messages in order and drains them on request |
| WsHub.StoreIfThread | app/ws_message_buffer.py:69-88 | appends the message to the thread's list, or does nothing without a thread |
| WsHub.WebSocketHub.HasPending | app/ws_message_buffer.py:165-185 | true iff the list is not empty |
| WsHub.WebSocketHub.ClearPending | app/ws_message_buffer.py:187-203 | afterwards the list is empty; every other list, every connection and every inbox is as before |
| WsHub.WebSocketHub.IsUserConnected | app/ws_hub.py:139-153 | true iff the user has a connection |
| WsHub.WebSocketHub.GetConnectedUsers | app/ws_hub.py:155-164 | the same answer for every user |
| WsHub.SendAll | app/ws_hub.py:217-225 | each send lands in its connection's inbox or is remembered as failed, and the successes are counted |
| WsHubLaws.NeverEmpty | app/ws_hub.py:104-164 | in every run no user maps to an empty set |
| WsHubLaws.ConnectedExactly | app/ws_hub.py:104-137 | over every run a connection is in the set of its user iff it was registered and since then neither unregistered nor failed in a broadcast to the user |
| WsHubLaws.CallbacksBalance | app/ws_hub.py:104-137 | first-connect minus last-disconnect firings are the change in connectedness plus the silent drops |
| WsHubLaws.SilentDrop | app/ws_hub.py:227-235 | a run with one: connect, then a broadcast that fails |
| WsHubLaws.CallbacksTrackExactly | app/ws_hub.py:227-235 | so the callbacks track the connection iff no clean-up dropped the user |
| WsHubLaws.InboxIsExact | app/ws_hub.py:217-225 | over every run a connection has received exactly the broadcasts that reached it, in order |
| WsDelivery.ReceivedExactly | app/ws_hub.py:217-225 | a connection holds a broadcast iff it was reached by it |
| WsDelivery.OneHome | app/ws_hub.py:181-261 | over every run each broadcast of a thread is in somebody's inbox or went through the thread's buffer, never both |
| WsDelivery.BufferedExactly | app/ws_hub.py:184-261 | it was taken out of the buffer or waits there iff it reached nobody |
| WsHubLaws.BufferIsConserved | app/ws_message_buffer.py:69-155 | with drains in one piece, over every run what was taken out followed by what remains is what was stored, in order |
| WsHubLaws.CleanIsConserved | app/ws_message_buffer.py:119-150 | so it is with drains as two calls when no list changes in between |
| WsDelivery.ConservedExactly | app/ws_message_buffer.py:119-150 | over every interleaving of LRANGE, DELETE, stores and other readers the buffer is conserved at all times iff no list changes between a reader's LRANGE and its DELETE |
| WsDelivery.DisturbedExactly | app/ws_message_buffer.py:119-150 | the steps that change the list under a reader: a store, a drain, a clearing or another reader's DELETE |
| WsDelivery.StoreBetweenIsLost | app/ws_message_buffer.py:119-150 | a run that loses a message |
| WsDelivery.TwoReadersDouble | app/ws_message_buffer.py:119-150 | a run that hands the same messages over twice |
| WsBuffer.ThreadKey | app/ws_hub.py:186-192 | the thread is the non-empty rest after the first colon |
| WsBuffer.UsersCollideExactly | app/ws_message_buffer.py:39-50 | two users share a list for some threads iff one id begins with the other and a colon |
| WsBuffer.ThreadsAreSeparate | app/ws_message_buffer.py:39-50 | within one user threads never share a list |
| ListenerDelta.WorkflowCache.Process | app/listeners_manager.py:977-1025 | publishes exactly the differing fields and moves the cache iff something is published |
| ListenerDelta.ViewIsLast | app/listeners_manager.py:1063-1106 | as long as every snapshot was shown the client shows each field at the value of the last snapshot that carried it |
| ListenerDelta.NextShowsExactly | app/listeners_manager.py:1063-1106 | then the next snapshot is shown iff every field that comes at the default outside the cache was last seen at the default |
| ListenerDelta.ReplayShowsExactly | app/listeners_manager.py:1063-1106 | over a run every snapshot is shown iff that holds of every snapshot |
| ListenerDelta.ReturnAtDefaultIsMissed | app/listeners_manager.py:1063-1106 | the run of three snapshots on which it fails |
| ListenerDelta.PlainReplayHolds | app/listeners_manager.py:977-1025 | without default values the client holds every field of the latest snapshot |
| ListenerDelta.ReplayWorksExactly | app/listeners_manager.py:977-1025 | outright replay works for all runs over a set of values iff the default is not in it |
| TransactionStatus.StatusListener.Handle | app/listeners_manager.py:1222-1275 | the loop over a snapshot is the fold, and returns the published changes |
| TransactionStatus.StaysInStep | app/listeners_manager.py:1248-1271 | what is acknowledged is always the current reference |
| TransactionStatus.SuppressesExactly | app/listeners_manager.py:1252-1271 | a tracked change is held back iff it is to null on a transaction never published |
| TransactionStatus.RepeatIsQuiet | app/listeners_manager.py:1248-1271 | a snapshot that repeats the reference publishes nothing and changes nothing |
| TransactionStatus.ChangesAreCarried | app/listeners_manager.py:1248-1271 | what is published for a transaction is tracked and carried by the snapshot |
| TransactionStatus.ClientFollows | app/listeners_manager.py:1222-1275 | merging all published changes gives the listener's reference |
| TransactionStatus.TracksExactly | app/listeners_manager.py:1222-1275 | the reference is the latest status throughout iff no transaction changes to null before it was published |
| TransactionStatus.TextStatusesReplay | app/listeners_manager.py:1222-1275 | with text statuses the client holds the latest status of every tracked transaction |
| TransactionStatus.FirstNullIsLost | app/listeners_manager.py:1252-1271 | a first change to null is not seen |
| BankReconciliation.BuildIndex | app/firebase_cache_handlers.py:620-621 | the index by id, later rows winning, with its keys in order of first appearance |
| BankReconciliation.InProcess | app/firebase_cache_handlers.py:628-642 | the nested loops match each record to the first item that names it and count the phantoms |
| BankReconciliation.Pending | app/firebase_cache_handlers.py:653-664 | the same for the pending list |
| BankReconciliation.Processed | app/firebase_cache_handlers.py:673-682 | every processed item is shown, with its record if it is still there |
| BankReconciliation.Reconcile | app/firebase_cache_handlers.py:620-685 | each list holds exactly the ERP records whose place it is, with the ERP's own data, and the item counts add up |
| BankReconciliation.HitsAreExact | app/firebase_cache_handlers.py:628-664 | the matched ids are, once each, the ids of the index that occur |
| BankReconciliation.HitsAreFirst | app/firebase_cache_handlers.py:628-664 | a record goes to the first item that names it |
| BankReconciliation.HitsGrow | app/firebase_cache_handlers.py:628-664 | items are matched in their own order |
| BankReconciliation.PlaceExactly | app/firebase_cache_handlers.py:620-685 | a record goes to the batches under way iff one of them names it, else to pending iff that names it, else to processed iff that does, else it is to be processed |
| BankReconciliation.ConsumedOnce | app/firebase_cache_handlers.py:620-685 | a record of the index is consumed by exactly one list, and nothing else is |
| BankRows.AllRowsCountExactly | app/firebase_cache_handlers.py:621-621 | every ERP row is the one the index holds for its id iff row ids are distinct |
| BankRows.EveryRowIsShownExactly | app/firebase_cache_handlers.py:620-685 | the four lists show as many records as there are rows iff row ids are distinct |
| BankRows.EarlierRowIsLost | app/firebase_cache_handlers.py:621-621 | of two rows with one id the earlier is lost |

## Left out

- Firestore, Redis, Odoo, Celery, Drive and the language-model calls: only their effect on maps, a clock or an arbitrary reply.
- Exceptions of those services and the fallbacks for them (for instance registration that starts on error): calls are taken to succeed.
- JobQueue: each public call is one atomic step; the delete and the promotion of a finished batch are separate writes in the source, and runs that interleave between them are not modelled.
- JobQueue: collections of different job types are independent, so one job type is modelled; job ids with dots, which the store would read as nested field paths, are taken as plain keys.
- JobNaming.MandateQueue: for paths of at most 1000 characters whose ids hold no underscore, slash, dot or hash, as generated ids do; other sets of paths are decided by JobNaming.QueueIsSafeExactly.
- JobPayload: an id field is an optional text, None for any falsy value; the conversion of numbers to text is not modelled.
- JobManager.ActiveJobs.RegisterJob: a registration starts from the set of ids that JobPayload.ExtractJobIds yields.
- Utf8: lone surrogates, which Python strings can hold and its encoder rejects, are not text here.
- Scoring: floating-point rounding is replaced by exact reals, and the display details of a suggestion beyond its score and components are not modelled.
- Scoring: candidate types other than the three the engine is called with.
- AmountBuckets.IndexAgreesWithScan: for equal currencies; foreign currencies have their own guard (FxBuckets.FxIndexAgreesWithScan), which the default configuration meets for the rate 1 only.
- CronLock: the list of ready tasks is read before the lock is taken, so a task may run twice in a row; only overlap is excluded. A release whose GET or DEL raises is not modelled apart from a crash.
- CoaMapping: unknown types are put to the agent in listing order, not sorted; nature replies are arbitrary functions of the call number, so no result depends on it.
- CoaModel: seeding the definitions document when it is missing, and account ids that contain dots in the deletion paths.
- WsHub: a broadcast and a registration are one step each and buffer expiry is off; a drain is also modelled as its two calls. Messages are opaque, so event-type renaming and JSON are out.
- TransactionStatus: a snapshot is one document, as a document listener delivers.
- BankReconciliation: the fields of the normalised rows; rows are an item with the record it took.
- RPC handlers, listener registration and detaching, balances, Drive caches, configuration and scripts: wiring or single-branch facts.
