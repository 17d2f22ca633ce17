# Verified model of confidential creator support

Supporters pay creators with confidential Token-2022 transfers. An on-chain program records that a
transfer happened and keeps terms of support; a worker turns the program's logs into an index that
the site reads; the browser decrypts, discloses and prepares amounts. This project models that path
and the stand-alone machines around it, and proves what they promise, for all inputs and all runs.

| Part | Modules |
|---|---|
| The program: creators, handles, pledges, its scan for a transfer, its terms | `Program`, `Introspect`, `Periods`, `Runs`, `Calls`, `Terms` |
| Logs to events | `Decimal`, `Logs` |
| Events to tables | `Tables`, `Constraints`, `Refinement`, `Receipts`, `Ledger`, `Ciphertexts` |
| Crashes, failures, rewinds, duplicates | `Walks`, `Replay`, `Recovery`, `Indexer`, `Backfill`, `History`, `Gaps`, `Feeding`, `Passes`, `Lives`; small runs that show where promises end: `Samples`, `Restarts` |
| Decryption workers | `Pool`, `PoolSteps`, `Fairness` |
| HTTP: rate limit and pages | `RateLimit`, `Keyset` |
| Amounts | `Group`, `Decrypt`, `Base64`, `Disclosure`, `Wire`, `Preparation`, `Units` |

The theorem everything on the index side builds up to is `Lives.WorkerConverges`: however many times
the worker crashed, lost a cursor save, paged back, saw a handler fail before or behind its commit, or
heard a transaction late or twice in one process, once the last transaction it committed is the tip of
the chain, every profile and pledge row equals the account it stands for, and the contributions are the
receipts of the pledging transactions, column by column. `Lives.PassConverges` says that it gets there: one
pass that nothing hinders is enough, whatever went before. What may reach a process on the way
is exact: it applies the chain onwards from its cursor without a gap if and only if each arrival was
rejected by its handler, late, a repetition of what this process knows, or the next transaction
(`Feeding.LifeAppliesIff`; by places in the chain, `Feeding.WelcomeIffPlace`). `Refinement.IndexMatchesChain` says the same of an
undisturbed worker, and `Refinement.CountersFromChain` draws the consequence the project's own
documentation states: every counter can be rebuilt from chain state.

What changes state in the program is a class here (`Program.Accounts`, `Tables.Database`,
`Indexer.Worker`, `Pool.DecryptPool`, `RateLimit.RateLimiter`) or a loop over sequences or buffers.
Each such method is proved equal to a function of the old state, and the properties are proved of
that function over whole runs.

Points where the code does less than a comment or a reader expects, each with the exact condition:

- `apps/worker/src/cursor.ts:68-71` says a failed handler leaves the cursor in place until the next
  pass retries it. The code moves on: a success after the failed transaction in the chain takes the
  cursor past it, from a later slot (`Gaps.FailureIsMissed`) or in the same one (`Gaps.SiblingIsMissed`),
  and no pass lists it again (`Gaps.NextPassLists`). For arbitrary arrivals the comment holds exactly
  while each failed transaction that the newest success lies after was caught in another arrival
  (`Gaps.FailuresStayAheadIff`). Where the successes of each slot come in chain order, the newest success
  lies after it exactly when any success does (`Gaps.InOrderStandsAfter`); otherwise not
  (`Gaps.CursorFallsBackWithinSlot`). A retry in time costs nothing (`Indexer.RetryInTimeIsApplied`).
- `apps/worker/src/subscribe.ts:40-42` says a dropped socket costs latency, never records. It can cost a
  record: a transaction heard after one from a later slot (`Gaps.LatecomerIsMissed`), or not heard before
  a later sibling (`Gaps.UnheardSiblingIsMissed`), lies behind the place where the next pass begins.
  Nothing is missed exactly when every transaction that the newest success lies after was caught
  (`Gaps.NothingIsMissedIff`): that is, some arrival of it succeeded before any success from a later slot
  (`Indexer.AppliedIff`).
- `apps/worker/src/cursor.ts:64-74` tells a duplicate from a sibling by a memory that a restart empties
  down to the cursor itself. A transaction of the cursor's slot that an earlier process applied is applied
  again if it comes again, from a node that lags behind the cursor or from the subscription; the cursor
  falls back, its later siblings pass for duplicates, and a row can stay undone
  (`Restarts.SiblingIsReapplied`, `Restarts.ReapplyingUndoes`). A pass on a lagging node does no harm
  exactly when it brings no such success; on any other, exactly when none of its handlers succeeds after
  one that failed (`Passes.PassFeedsIff`).
- `apps/worker/src/apply.ts:113` assumes one Transfer per transaction. The program accepts several
  pledge calls on one Transfer (`Ledger.OneTransferTwoPledges`), and the index keeps one row per
  signature; the ledger of a pledge is exact exactly when each of its contributions is the first
  pledge of its transaction (`Ledger.LedgerExact`).
- The program's times are seconds in an i64, the index stores dates, and a date ends at 8.64e15
  milliseconds. On tables that match the chain, a transaction is handled exactly when the node serves
  the block time and the ciphertext of each of its pledges and their three times are dates
  (`Refinement.HandledIffStorable`). The integer columns for the counters, narrower than the program's
  u32, are never what stops it: dates run out first (`Refinement.DatesComeFirst`).
- `apps/worker/src/ciphertext.ts:25-36` looks for the ciphertext of a pledge from account 4 of the
  transaction's first instruction of the confidential extension, whichever Transfer backs the pledge. It
  reads the ciphertext of the backing Transfer exactly when that instruction names the same account
  (`Ciphertexts.ReadsOwnIff`), so where each names its own, exactly when the Transfer is the first of them
  and has more than four accounts (`Ciphertexts.FindsOwnIff`). Two Transfers in one transaction, which
  the program accepts, record somebody else's ciphertext (`Ciphertexts.ForeignCiphertextIsRead`); behind an
  applied balance or with inline proofs, handling fails at every attempt
  (`Ciphertexts.NoCiphertextIsFound`, `Ciphertexts.HandledIffReadable`).
- The program bounds the length of a name and a description but not their bytes, and decoding UTF-8 drops
  the byte zero. A row shows both texts of its profile unchanged exactly when they hold no zero byte
  (`Refinement.TextsMatchIff`).
- A decrypt call made after every worker has died never settles (`Pool.StrandedIsReached`); an
  outstanding job can be settled without terminating the pool exactly when some worker is alive
  (`Pool.SettlesIffAlive`).
- The planner returns plans the token program stops: a deposit above its maximum, a full credit counter,
  or a deposit right after configuring an account the mint does not approve by itself
  (`Preparation.PlanStopped`). A plan goes through exactly when it deposits nothing or none of these
  holds (`Preparation.PlanWorks`).
- A custom deposit may be negative; the owner's record of the balance is right after the plan exactly
  when it is not, or when nothing is applied (`Preparation.PlanWorks`, `Preparation.NegativeIsBooked`).
- With one decimal the printer writes two fraction digits that the parser refuses
  (`Units.ParseFormat`).

## Model

| member | source | states |
|---|---|---|
| Program.Accounts.RegisterHandler | programs/ccsupport/src/instructions/register_creator.rs:9-73 | registering creates profile and handle accounts and emits the event of `Register`, or refuses and changes nothing |
| Program.Accounts.UpdateHandler | programs/ccsupport/src/instructions/update_creator.rs:18-49 | updating overwrites three fields and reports the handle found before the first zero byte, or refuses and changes nothing |
| Program.Accounts.PledgeHandler | programs/ccsupport/src/instructions/pledge.rs:37-91 | a pledge is what `Contribute` says of the accounts before it, event included; every refusal leaves all accounts as they were |
| Program.Accounts.VisibilityHandler | programs/ccsupport/src/instructions/set_visibility.rs:17-28 | the handler does to the accounts what `Show` says, event included, or refuses and changes nothing |
| Runs.ShowEffect | programs/ccsupport/src/instructions/set_visibility.rs:17-28 | it succeeds exactly when the pledge exists; the flag becomes the argument, every other field and account stays, and the event carries the pledge, the argument and the slot |
| Runs.RegisterEffect | programs/ccsupport/src/instructions/register_creator.rs:34-73 | registering succeeds exactly for a new wallet and a free handle of 3 to 32 lower-case letters, digits and dashes, with texts of at most 64 and 256 bytes; what it creates, field by field, and what each refusal means |
| Runs.UpdateEffect | programs/ccsupport/src/instructions/update_creator.rs:18-49 | updating succeeds exactly for a registered wallet and texts within their limits; it replaces three fields, keeps the others and the registration time, and reports the handle that leads to the profile |
| Calls.AccountsShowLastCalls | programs/ccsupport/src/instructions/set_visibility.rs:17-28 | on every history the flag of a pledge is that of its last accepted pledge or visibility call, and the texts, amount, handle and time of a profile are those of its last accepted update and its registration |
| Introspect.FindConfidentialTransfer | programs/ccsupport/src/introspect.rs:26-53 | the scan loop returns the verdict of the whole instruction list |
| Introspect.VerdictAccepts | programs/ccsupport/src/introspect.rs:24-73 | the scan accepts exactly when some instruction is a confidential transfer (bytes 27 and 7, four accounts) between the expected accounts |
| Introspect.VerdictReports | programs/ccsupport/src/introspect.rs:24-53 | otherwise it reports the first fault of the first confidential transfer, in the order mint (account 1), destination (2), source (0), authority (the last, which must sign), or not-found exactly when there is none |
| Periods.PlanAgainstProgram | apps/web/src/screens/Support/expiry.ts:10-19 | a renewal shown in the browser equals the program's result for any two clocks before expiry; a restarted term is off by the clock skew exactly |
| Periods.FirstPlanAgainstProgram | apps/web/src/screens/Support/expiry.ts:10-19 | a first term is off by the clock skew, and browser and program refuse the same numbers of periods, those outside 1 to 12 |
| Periods.DaysLeftIsLeast | packages/shared/src/periods.ts:20-24 | the days left are the least number of whole days that reaches the expiry |
| Runs.HandleReadBack | programs/ccsupport/src/instructions/update_creator.rs:35-42 | a valid handle is read back unchanged from its zero-padded bytes, by the program and by the browser |
| Runs.AcceptedIff | programs/ccsupport/src/instructions/pledge.rs:37-77 | a pledge is accepted exactly when a matching transfer is in the transaction, the periods are 1 to 12 and no counter or time overflows |
| Runs.ContributeEffect | programs/ccsupport/src/instructions/pledge.rs:64-89 | what an accepted pledge does to both accounts, and that its event is the snapshot of the account after it |
| Runs.PledgeRefusals | programs/ccsupport/src/instructions/pledge.rs:37-77 | every refusal of a pledge names the first thing that is wrong, in the order of the checks |
| Runs.Reachable | programs/ccsupport/src/instructions/register_creator.rs:11-32 | on every reachable state wallets, profiles and handles are one to one, pledges belong to registered creators, and `pledges_total` counts the pledge accounts |
| Runs.HandlesAreUnique | programs/ccsupport/src/instructions/register_creator.rs:22-31 | two creators never share a handle |
| Terms.ClosedForm | programs/ccsupport/src/periods.rs:11-17 | expiry = first payment + 2,592,000 seconds per paid period + the lapses |
| Terms.ExpiryBounds | programs/ccsupport/src/periods.rs:11-17 | the term reaches past its last payment by at least one and at most all paid periods |
| Terms.UnbrokenIffRenewed | packages/shared/src/periods.ts:14-16 | support is active at every instant to the end of the last grace of 259,200 seconds exactly when every renewal came within the grace before it |
| Terms.PledgeIsTerm | programs/ccsupport/src/instructions/pledge.rs:64-77 | every pledge account of every history is the term of the payments its events report |
| Terms.AccountClosedForm | programs/ccsupport/src/instructions/pledge.rs:64-77 | the closed form and `contributions <= periods <= 12 contributions` hold of every reachable account |
| Terms.ExpiryNeverOverflows | programs/ccsupport/src/periods.rs:11-17 | the expiry cannot overflow i64 while the u32 period counter holds |
| Logs.ParseEvents | apps/worker/src/events.ts:47-65 | the loop with its invoke stack reads the events of the log lines, or fails on a broken one |
| Logs.InvocationIsRead | apps/worker/src/events.ts:25-25 | every line of the anchored invoke form is read as an invocation of its program |
| Logs.InvocationHasForm | apps/worker/src/events.ts:25-25 | and only lines of that form are |
| Logs.LinesAreRead | apps/worker/src/events.ts:26-27 | returns, whether success or failure, and data lines are read as such; messages and return data are not |
| Logs.AddressIs | apps/worker/src/events.ts:24-25 | a program is named by 32 to 44 letters and digits without 0, O, I and l |
| Logs.DecodeAllIs | apps/worker/src/events.ts:29-65 | data lines decode to the events among them in order, unknown ones are passed over, and a broken one fails the whole |
| Logs.ParsePrinted | apps/worker/src/events.ts:45-65 | from the logs of any forest of nested invocations the parser reads exactly what the frames of this program emitted, in order, whatever other programs log |
| Tables.PlanWrites | apps/worker/src/apply.ts:34-96 | the writes planned for a list of events, in order, or the missing fact that stops them |
| Tables.Database.UpsertCreatorRow | apps/worker/src/apply.ts:144-157 | insert or refresh of a profile; handle and registration slot stay; a taken handle is refused |
| Tables.Database.UpsertPledgeRow | apps/worker/src/apply.ts:159-174 | insert or replacement of a pledge snapshot under its foreign key, its date range and its column widths |
| Tables.Database.InsertContributionRow | apps/worker/src/apply.ts:176-180 | first insert per signature wins, under the foreign key, the date range and the ciphertext length checks |
| Tables.Database.SetVisibilityFlag | apps/worker/src/apply.ts:182-189 | the flag of an existing pledge row, and nothing where there is none |
| Tables.Database.Apply | apps/worker/src/apply.ts:104-140 | one delivered transaction is applied whole, or the tables stay as they were |
| Constraints.UnplannedIff | apps/worker/src/apply.ts:109-120 | no writes are planned exactly when a successful transaction has a broken event, or pledges without a served ciphertext or block time, and the error says which |
| Constraints.RefusedIff | packages/db/src/schema.ts:36-94 | a write is refused exactly when its row is out of range or would break a constraint, and the error says which |
| Constraints.AlwaysConstrained | packages/db/src/schema.ts:36-94 | whatever transactions are delivered in whatever order, rows stand under their keys, handles are unique, and every pledge has its creator and every contribution its pledge |
| Refinement.WritesOfDelivered | apps/worker/src/apply.ts:109-120 | from the delivered logs, over either channel, the worker plans exactly the writes of the transaction's events |
| Refinement.TxRefined | apps/worker/src/apply.ts:104-189 | handling one transaction takes tables that match the chain to tables that match the chain after it |
| Refinement.HandledIffStorable | apps/worker/src/apply.ts:32-120 | on matching tables a transaction is handled exactly when the node serves the block time and both ciphertext halves of each of its pledges and their three times are dates |
| Refinement.DatesComeFirst | packages/db/src/schema.ts:56-59 | in every history a pledge whose expiry is still a date has paid at most 3,333,333 periods, far below the integer columns |
| Refinement.TextsMatchIff | programs/ccsupport/src/instructions/register_creator.rs:40-56 | a matching row shows the texts of the profile unchanged exactly when they hold no zero byte |
| Ciphertexts.ReadsOwnIff | apps/worker/src/ciphertext.ts:25-36 | whatever the proof transactions hold, the worker reads the ciphertext of the backing Transfer exactly when the first instruction of the extension names the same account |
| Ciphertexts.FindsOwnIff | apps/worker/src/ciphertext.ts:25-36 | where each instruction of the extension names its own account, exactly when the backing Transfer is the first and has more than four accounts |
| Ciphertexts.WorkerLooksAt | apps/worker/src/ciphertext.ts:25-36 | the worker looks at the account with index 4 of the first instruction of the token program whose data begin with 27 |
| Ciphertexts.HandledIffReadable | apps/worker/src/ciphertext.ts:44-62 | a pledging transaction is handled exactly when its first instruction of the extension has more than four accounts and leads to a well-sized ciphertext, and its times are dates |
| Ciphertexts.RowCarries | apps/worker/src/apply.ts:60-74 | every pledge has its backing Transfer, and its row carries the ciphertext that the first instruction of the extension leads to |
| Ciphertexts.ForeignCiphertextIsRead | programs/ccsupport/src/introspect.rs:240-247 | two Transfers, the second backing the pledge: accepted, and the worker reads the first |
| Ciphertexts.NoCiphertextIsFound | programs/ccsupport/src/introspect.rs:230-237 | an applied balance before the Transfer, or inline proofs: accepted, and the worker finds nothing |
| Refinement.IndexMatchesChain | apps/worker/src/apply.ts:34-189 | for every history, handling it in order never breaks a constraint and leaves every profile and pledge row equal to its account, with times in milliseconds |
| Receipts.TableHoldsReceipts | apps/worker/src/apply.ts:60-74 | for every history there is one contribution row for each transaction that pledged and no other, and each column is what its first pledge, its block time and the served ciphertext say |
| Refinement.CountersFromChain | packages/db/src/queries/creators.ts:10-30 | the total and active supporters of a profile are the chain's own, at every second |
| Ledger.LedgerBalances | apps/worker/src/apply.ts:60-74 | every counter of a pledge is the sum over its rows plus what transactions paid beyond their first pledge |
| Ledger.LedgerExact | packages/db/src/schema.ts:75-87 | rows number the contributions exactly when each is the first pledge of its transaction; then periods sum up and exactly one row is `first` |
| Ledger.OneTransferTwoPledges | programs/ccsupport/src/instructions/pledge.rs:46-77 | one transfer backs two pledge calls of its transaction, and only one is recorded |
| Ledger.EveryContributionBacked | programs/ccsupport/src/instructions/pledge.rs:43-62 | in every history each pledge event comes from a transaction with the matching transfer, and the counters count those events and nothing else |
| Walks.FlatWalk | apps/worker/src/cursor.ts:83-95 | re-applying whole transactions from an earlier one is a rewind over single writes that skips none |
| Replay.Described | apps/worker/src/apply.ts:145-189 | tables built from nothing are determined by the first and the last write of every row |
| Replay.WalkApplies | packages/db/src/schema.ts:39-94 | no constraint is violated on the way, however the worker rewinds |
| Replay.WalkConverges | apps/worker/src/apply.ts:145-189 | any rewinding walk that ends at the last write has built the same tables |
| Recovery.CrashConvergence | apps/worker/src/cursor.ts:83-95 | a worker that rewound any number of times ends in the undisturbed index (apart from the indexing time), which matches the chain |
| Indexer.SavedIsLoaded | apps/worker/src/cursor.ts:23-48 | the cursor read back from the row that saved it is the cursor that was saved |
| Indexer.Worker.ProcessNext | apps/worker/src/cursor.ts:77-95 | one turn of the queue: skip, fail, or apply and move cursor, memory and, if the save goes through, store |
| Indexer.CursorIsLastApplied | apps/worker/src/cursor.ts:91-91 | the cursor in memory names the last arrival that was applied, or the one the process started with |
| Indexer.StoredIsLastSaved | apps/worker/src/cursor.ts:94-94 | the store names the last arrival that was applied and whose save went through, or what was found in it |
| Indexer.StoredIsCursor | apps/worker/src/cursor.ts:94-94 | when no save fails, the store holds the cursor |
| Indexer.RecentIsLast | apps/worker/src/cursor.ts:64-66 | the memory holds the latest 256 applied signatures |
| Indexer.CursorNeverFallsBack | apps/worker/src/cursor.ts:77-95 | the cursor slot never decreases, in memory or in the store |
| Indexer.FatesMean | apps/worker/src/cursor.ts:77-95 | every arrival is applied, a known duplicate, a reported failure, or late, and what each of these means |
| Indexer.AppliedOnce | apps/worker/src/cursor.ts:64-95 | nothing is applied twice in one process while no slot holds more than 256 transactions |
| Indexer.AppliesFirstArrivals | apps/worker/src/cursor.ts:68-95 | without failures and with first arrivals in slot order from the cursor's slot on, exactly the arrivals without repetitions are applied |
| Indexer.InOrderAppliesHandled | apps/worker/src/cursor.ts:77-95 | in chain order nothing is mistaken for a duplicate, and the cursor points at the last success |
| Indexer.AppliedIff | apps/worker/src/cursor.ts:72-95 | for any arrivals at all, what has been applied is the cursor's own transaction and those of which some arrival succeeds before any success from a later slot |
| Indexer.TooLateIff | apps/worker/src/cursor.ts:72-95 | the cursor is past the slot of a transaction that was not applied exactly when something from a later slot was handled and no arrival of it was on time |
| Indexer.TooLateForGood | apps/worker/src/cursor.ts:72-76 | and then no later arrival of it is applied in this process |
| Gaps.CursorIsNewest | apps/worker/src/cursor.ts:77-95 | for any arrivals, the cursor stands at the newest success, or where the process started |
| Gaps.MissedIff | apps/worker/src/backfill.ts:61-66 | a transaction lies behind the next pass unapplied exactly when the newest success lies after it in the chain and no arrival of it was on time |
| Gaps.NextPassLists | apps/worker/src/backfill.ts:61-66 | of what is on the chain, the next pass lists all but what lies before the cursor, so what is missed is not listed again |
| Gaps.NothingIsMissedIff | apps/worker/src/subscribe.ts:40-42 | nothing from the start on is missed exactly when each transaction that the newest success lies after was caught |
| Gaps.FailuresStayAheadIff | apps/worker/src/cursor.ts:68-71 | failures stay ahead exactly when each failed transaction that the newest success lies after was caught in another arrival |
| Gaps.InOrderStandsAfter | apps/worker/src/cursor.ts:68-71 | with the successes of each slot in chain order, the newest success lies after a place exactly when some success does |
| Gaps.FailureIsMissed | apps/worker/src/cursor.test.ts:88-107 | the run that misses a failure after a success from a later slot |
| Gaps.SiblingIsMissed | apps/worker/src/cursor.ts:77-95 | the run that misses a failure after a later sibling of its slot |
| Gaps.LatecomerIsMissed | apps/worker/src/subscribe.ts:40-42 | a run without any failure that loses a transaction heard late |
| Gaps.UnheardSiblingIsMissed | apps/worker/src/subscribe.ts:40-42 | and one that loses a transaction whose later sibling was heard |
| Gaps.CursorFallsBackWithinSlot | apps/worker/src/cursor.ts:91-92 | siblings in reverse order: a success lies after the failure, and the next pass meets it all the same |
| Indexer.RetryInTimeIsApplied | apps/worker/src/cursor.ts:68-71 | a failure retried before anything later succeeds costs nothing |
| Indexer.OthersChangeNothing | apps/worker/src/cursor.ts:77-95 | failing handlers and transactions from below the starting slot change neither cursor nor store nor what is applied |
| Backfill.CollectPages | apps/worker/src/backfill.ts:61-73 | for every page size the loop ends and collects everything due at the first request, newest first, while the tip grows; of a cursor the node did not know at first perhaps only the newest part |
| Backfill.LeftOutIsBehind | apps/worker/src/backfill.ts:61-73 | what such pages leave out lies before the cursor |
| Backfill.ReplayOldestFirst | apps/worker/src/backfill.ts:75-84 | the replay goes oldest first up to the first transaction the node does not serve, and returns the last one handled |
| Backfill.Pass | apps/worker/src/backfill.ts:55-85 | one whole pass, from the cursor to its end |
| Backfill.ReplayIsPrefix | apps/worker/src/backfill.ts:75-84 | what a replay hands over is the longest served prefix, cut at a handler that throws |
| Feeding.LifeAppliesIff | apps/worker/src/cursor.ts:72-109 | a process applies the chain onwards from its cursor, in order and without a gap, exactly when each arrival was rejected, late, a repetition, or the next transaction |
| Feeding.ResumesWithin | apps/worker/src/cursor.ts:91-94 | whatever was saved, the next process resumes no later than this one stopped |
| Feeding.FeedsThen | apps/worker/src/run.ts:43-67 | what continues from the cursor in memory continues the process, with the same applications and the same cursor |
| Feeding.WelcomeIffPlace | apps/worker/src/cursor.ts:72-76 | by places: welcome is anything up to the next transaction, and of what lies before the start only the cursor's own and what a later slot shuts out |
| Passes.PassFeedsIff | apps/worker/src/backfill.ts:55-85 | a pass on a node that has reached the cursor leaves no gap exactly when none of its handlers succeeds after one that failed; on one that has not, exactly when it brings no success in the cursor's slot that the process does not know |
| Passes.PassCatchesUp | apps/worker/src/backfill.ts:55-85 | a pass on a node that has reached the cursor moves the cursor behind its leading successes, with everything up to there applied in order; unhindered, to the tip of the pass |
| Passes.RunFedIff | apps/worker/src/run.ts:43-67 | over every run of passes, their single pushes, and notifications falling anywhere between, the process is fed exactly when each push was welcome where it came |
| Passes.InStepKeeps | apps/worker/src/run.ts:43-67 | a pass whose handlers succeed stays in step with the chain whatever is heard between its pushes |
| Restarts.SiblingIsReapplied | apps/worker/src/cursor.ts:72-76 | after a restart an earlier sibling of the cursor is applied again, and the cursor's own transaction is not applied after it |
| Restarts.LaggingNodeLists | apps/worker/src/backfill.ts:61-66 | a node that has not reached the cursor lists the chain from its beginning |
| Restarts.ReapplyingUndoes | apps/worker/src/apply.ts:159-189 | a pledge written again after its visibility changed shows the old flag |
| Lives.LivesWalk | apps/worker/src/cursor.ts:72-109 | over all processes, with commits whose handler then threw, the worker walks the history without a gap |
| Lives.WorkerConverges | apps/worker/src/apply.ts:104-189 | end to end: after any crashes, lost saves, failures before or behind a commit, late arrivals and repetitions within a process, at the tip profiles and pledges equal the accounts and the contributions are the receipts of the history |
| Lives.PassConverges | apps/worker/src/run.ts:43-67 | and it gets there: after any earlier processes, and whatever was fed to the present one, a pass to the tip of the chain that nothing hinders leaves the index equal to the accounts |
| Pool.DecryptPool.PostTo | apps/web/src/screens/Dashboard/pool.ts:47-51 | the head of the queue goes to one idle slot and is posted |
| Pool.DecryptPool.PumpSlots | apps/web/src/screens/Dashboard/pool.ts:44-53 | the loop gives waiting jobs to ready idle slots, in slot order |
| Pool.DecryptPool.OnReady | apps/web/src/screens/Dashboard/pool.ts:65-77 | a ready message wakes the slot and pumps |
| Pool.DecryptPool.OnResult | apps/web/src/screens/Dashboard/pool.ts:71-77 | a result settles the slot's own job only if the ids agree, and pumps in any case |
| Pool.DecryptPool.OnError | apps/web/src/screens/Dashboard/pool.ts:55-60 | a dead worker's job is rejected; the waiting ones too, if it was the last |
| Pool.DecryptPool.Decrypt | apps/web/src/screens/Dashboard/pool.ts:82-92 | a call is refused after termination, shares a known promise, or is queued |
| Pool.DecryptPool.TerminateAll | apps/web/src/screens/Dashboard/pool.ts:93-101 | termination drops all slots and rejects every held and waiting job |
| Pool.DecryptPool.ForgetSettled | apps/web/src/screens/Dashboard/pool.ts:86-89 | the microtask behind a settled promise removes its id |
| Pool.StepKeeps | apps/web/src/screens/Dashboard/pool.ts:44-103 | every event, in any order, keeps the invariant |
| Pool.Reachable | apps/web/src/screens/Dashboard/pool.ts:44-103 | over every run: each job is waiting, held by one live slot, or settled; unsettled ids are unique; posts are in submission order; no ready slot idles while a job waits |
| Pool.StepEffect | apps/web/src/screens/Dashboard/pool.ts:44-103 | what each event does to every job; settled fates never change and no worker comes back |
| Pool.ResolvedByItsWorker | apps/web/src/screens/Dashboard/pool.ts:71-75 | in any run a promise is resolved only by an answer for its id from the worker holding it, with that answer |
| Pool.SubmitReply | apps/web/src/screens/Dashboard/pool.ts:82-92 | what the caller gets; an outstanding id is never accepted twice |
| PoolSteps.StepRemembers | apps/web/src/screens/Dashboard/pool.ts:44-103 | which workers are left and awake after each event, and that an id is forgotten only by its microtask, once its promise is settled |
| PoolSteps.ForgottenIsNew | apps/web/src/screens/Dashboard/pool.ts:82-92 | after that a call with the same id is a new job; until then it shares the promise |
| PoolSteps.PumpDeals | apps/web/src/screens/Dashboard/pool.ts:44-53 | waiting jobs go in their order to the ready idle workers in slot order, until either run out |
| PoolSteps.NothingIsPostedEarly | apps/web/src/screens/Dashboard/pool.ts:65-77 | over every run, a worker that was posted a job has sent its ready message before |
| Pool.TerminatedIsSettled | apps/web/src/screens/Dashboard/pool.ts:93-101 | once a run terminates the pool, every accepted job is settled |
| Pool.Stranded | apps/web/src/screens/Dashboard/pool.ts:55-60 | with no worker left, a waiting job is settled by a run exactly if the run terminates the pool |
| Pool.StrandedIsReached | apps/web/src/screens/Dashboard/pool.ts:82-92 | the run that gets there: the only worker dies, then a call comes |
| Pool.Finishes | apps/web/src/screens/Dashboard/pool.ts:44-53 | with a live worker the pool is never stuck |
| Pool.SettlesIffAlive | apps/web/src/screens/Dashboard/pool.ts:44-103 | an outstanding job can be settled without termination exactly when some worker is alive |
| Fairness.EveryFairRunSettles | apps/web/src/screens/Dashboard/pool.ts:44-103 | in every endless run in which live workers get ready and answer what they are posted, whatever calls keep coming and whichever workers die, each job accepted while a worker lives is settled |
| RateLimit.RateLimiter.Sweep | apps/api/src/middleware/rate-limit.ts:65-72 | the sweep prunes every window and deletes the empty ones |
| RateLimit.RateLimiter.TakeHit | apps/api/src/middleware/rate-limit.ts:60-86 | one hit: verdict and new windows |
| RateLimit.Refines | apps/api/src/middleware/rate-limit.ts:45-88 | after any run with a steady clock, verdict, remaining and reset are those of counting all allowed hits of the key in the last window |
| RateLimit.NeverOver | apps/api/src/middleware/rate-limit.ts:42-88 | no window laid anywhere over a run holds more allowed hits of a key than the limit |
| RateLimit.Independent | apps/api/src/middleware/rate-limit.ts:49-72 | a key gets the verdict it would get had nobody else ever hit |
| RateLimit.ResetIsExact | apps/api/src/middleware/rate-limit.ts:76-82 | a denied key that stays silent is let through after exactly `resetSeconds` whole seconds and no fewer |
| RateLimit.RemainingIsExact | apps/api/src/middleware/rate-limit.ts:83-85 | exactly `remaining` more hits of the key pass at the same instant |
| RateLimit.HitWindowIsRecent | apps/api/src/middleware/rate-limit.ts:74-85 | after every hit, let through or denied, the window of its key holds exactly the recent allowed hits |
| RateLimit.Forgets | apps/api/src/middleware/rate-limit.ts:64-72 | under a steady clock, what the limiter still holds of a key was hit at the last of its sweeps, one every 512 calls, or since, or was alive at that sweep |
| RateLimit.HoldsTheLiving | apps/api/src/middleware/rate-limit.ts:52-72 | every timestamp it holds was alive at its last sweep |
| RateLimit.WindowsAreShort | apps/api/src/middleware/rate-limit.ts:74-85 | and no window is longer than the limit |
| Keyset.BelowTotal | packages/db/src/queries/creators.ts:86-86 | the row comparison is a strict total order |
| Keyset.BelowIsOlder | packages/db/src/queries/creators.ts:86-86 | a row is below another when its slot is smaller, or the slots are equal and its signature is earlier: a proper prefix, or smaller at the first difference |
| Keyset.DescendingIsListing | packages/db/src/queries/creators.ts:90-91 | an ordered result is determined by its rows |
| Keyset.PageIs | apps/api/src/routes/creators.ts:35-41 | a page holds at most `limit` rows older than the cursor, newest first: slots never rise and within a slot signatures fall; it skips none, and has a cursor, its last row, exactly when it is full and an older row exists |
| Keyset.FetchAll | apps/web/src/api/creators.ts:58-77 | the walk ends, repeats no row, and returns, newest first, every row present at its start and nothing that never was; if everything added meanwhile is newer, exactly the table at its start |
| Group.PlainOfEncrypt | packages/chain/src/confidential/decrypt.ts:71-94 | a key reads back what was encrypted under it, for every amount and opening |
| Decrypt.RoutesAgree | packages/chain/src/confidential/decrypt.ts:110-133 | for any ciphertexts, the combined and the split reading agree whenever both succeed |
| Decrypt.ReportedIsPlain | packages/chain/src/confidential/decrypt.ts:110-133 | whatever amount is reported is the plaintext of the combined ciphertext |
| Decrypt.ContributionExact | packages/chain/src/confidential/decrypt.ts:80-133 | every amount below 2^48 split 16/32 is read back by the key of the chosen handle, by one logarithm exactly below 2^32 |
| Decrypt.ContributionReads | packages/chain/src/confidential/decrypt.ts:110-133 | every outcome for any bytes: malformed exactly when a half is not four points, otherwise the combined plaintext below 2^32, or the parts below 2^32, or wrong key |
| Decrypt.GroupedLayout | packages/chain/src/confidential/decrypt.ts:71-94 | the bytes of a half: commitment, then the handles of source, destination and auditor |
| Decrypt.PendingExact | packages/chain/src/confidential/decrypt.ts:153-166 | the sum of up to 65,536 credits is read exactly when their high parts add up to less than 2^32, and is never read wrong |
| Base64.EncodeShape | packages/chain/src/confidential/disclose.ts:135-136 | an encoding is letters and the padding that fills the last group |
| Base64.GroupsCarry | packages/chain/src/confidential/disclose.ts:135-136 | each group of four letters carries the 24 bits of its three bytes, and the last group what is left and zero bits (section 4 of RFC 4648) |
| Base64.ToUrlIs | packages/chain/src/confidential/disclose.ts:135-136 | the URL-safe text is the letters with two substituted and no padding (sections 3.2 and 5 of RFC 4648) |
| Base64.FromUrlToUrl | packages/chain/src/confidential/disclose.ts:135-146 | any bytes come back from their URL-safe text |
| Base64.UrlTextShape | packages/chain/src/confidential/disclose.ts:75-77 | the text of any bytes passes the payload pattern for its length |
| Disclosure.AssemblePayload | packages/chain/src/confidential/disclose.ts:178-184 | the buffer of the payload holds version, two signatures, little-endian amount and proof |
| Disclosure.AssembleProof | packages/chain/src/confidential/disclose.ts:262-266 | the rebuilt proof data is the statement from the chain and the proof from the payload |
| Wire.TransferIsRead | packages/chain/src/confidential/disclose.ts:96-115 | what is read of a transaction: the account with index 4 of its first Transfer, and the first 32 bytes of the low and of the high auditor ciphertext in its data |
| Wire.AcceptedIff | packages/chain/src/confidential/disclose.ts:207-273 | a payload is accepted exactly when, by byte position, it is readable, both its transactions went through, the Transfer names the account of the proof, the proved ciphertexts begin with its commitments, and the equality proof is about the amount |
| Wire.RefusalMeans | packages/chain/src/confidential/disclose.ts:207-273 | every refusal says what is wrong with the payload or its transactions, in the order of the checks |
| Wire.AcceptedAmount | packages/chain/src/confidential/disclose.ts:112-113 | with sound verifiers and binding commitments, an accepted amount is what the first 32 bytes of the two auditor ciphertexts in the data of the named Transfer hold, the high one times 65,536 |
| Wire.CreatedIff | packages/chain/src/confidential/disclose.ts:152-167 | a payload is made for the amount that the supporter's secret reads from the kept proof; it is malformed exactly when that holds no readable ciphertext, and the key wrong exactly when the amount is out of its reach |
| Wire.MadeIsAccepted | packages/chain/src/confidential/disclose.ts:152-185 | every payload made for a contribution whose two transactions the chain serves is accepted, with its own amount |
| Wire.EveryAmountIsDisclosed | packages/chain/src/confidential/disclose.ts:152-185 | for every amount below 2^48 sealed under the supporter's key a payload is made, and it is accepted with that amount |
| Disclosure.OneAmountPerTransfer | packages/chain/src/confidential/disclose.ts:207-273 | no two payloads disclose different amounts for one Transfer |
| Disclosure.CommittedInRange | packages/chain/src/confidential/disclose.ts:90-113 | with the ranges proved on chain, that amount is lo + 2^16 hi |
| Disclosure.NeverThrows | packages/chain/src/confidential/disclose.ts:243-266 | with sound verifiers the check never meets a point that does not parse |
| Preparation.PlanPreparation | packages/chain/src/confidential/account.ts:138-221 | the planner returns the steps of `Plan`, or the first refusal |
| Preparation.PlanWorks | packages/chain/src/confidential/account.ts:138-221 | a plan moves the deposit asked for, or the whole public balance if none was: it goes through exactly when that is nothing or the token program takes it; the public balance falls by exactly that, the money is conserved, the units are available, the credits announced are there, and the record is right exactly when the deposit is not negative or nothing is applied |
| Preparation.PlanStopped | packages/chain/src/confidential/account.ts:182-204 | two returned plans that fail when carried out |
| Preparation.NegativeIsBooked | packages/chain/src/confidential/account.ts:182-220 | a negative deposit after which the owner's record is wrong |
| Preparation.Refusals | packages/chain/src/confidential/account.ts:155-189 | every refusal, for any deposit: a foreign key, a missing approval, an unreadable balance, a deposit above the public balance, or one below what the units lack, by that difference; and no other |
| Preparation.RefusesExactly | packages/chain/src/confidential/account.ts:182-189 | with the default deposit it refuses exactly when the units exceed all three balances together, by that difference |
| Units.ParseWritten | apps/web/src/screens/Register/form.ts:39-46 | a numeral with any white space around parses exactly when it has at most `decimals` fraction digits and fits a u64, to its value |
| Units.ParsedIsNumeral | apps/web/src/screens/Register/form.ts:39-46 | nothing else parses |
| Units.FormatDenotes | apps/web/src/screens/CreatorPage/format.ts:6-12 | the printed text denotes exactly units / 10^decimals |
| Units.FormatIsCanonical | apps/web/src/screens/CreatorPage/format.ts:6-12 | no leading zeros, two fraction digits, and more only down to the last one that is not zero |
| Units.ParseFormat | apps/web/src/screens/CreatorPage/format.ts:6-12 | printing then parsing gives every u64 amount back exactly when the token does not have one decimal |

## Left out

- The generated event codecs, base58, address derivation and the AES and zero-knowledge proofs: parameters; decoding inverts encoding up to zero bytes in texts, derived addresses are their seeds, and the proof verifiers are ideal where a theorem says so.
- The curve: a point is its multiple of the generator modulo an order above 2^64. That nobody can relate the two generators is not derived: where a theorem on disclosures needs it, it takes the one amount each commitment can be opened to as given.
- `init_config` and the program's `HandleTaken` error: the mint is fixed once it exists, and a taken handle fails in account creation, so the declared error never occurs.
- Truncated logs ("Log truncated"): the runtime is modelled as logging every emitted event.
- How the database rounds and orders dates: inside the range of a date, times are exact milliseconds; how much of that range the driver and the column keep is left open.
- Accounts that a transaction names through address lookup tables, which the worker's search for the validity context does not resolve.
- Disclosure.CommittedInRange: takes the two ranges of a Transfer as given, because the token program that proves them is not part of this model.
- Lives.WorkerConverges: asks that every process is fed without a gap, and that no slot holds more transactions of the program than the 256 the indexer remembers. A success ahead of the next transaction is a gap; a success of the cursor's slot that an earlier process applied already can undo a row (`Restarts.ReapplyingUndoes`).
- RateLimit.Refines: asks for a clock that does not run backwards, as the sliding window itself does.
- Preparation.PlanWorks: the token program is an abstract account with limits on deposits and credits; its instruction encoding is not part of this model.
- Cursors as JSON text, the collation of the database (signatures are ordered by code unit), and the supporters' list, which has no walk of its own.
- RPC, websocket, Postgres, HTTP routing, configuration and logging: replaced by maps, scripted histories and failures at any point.
- The relay, the minting and demonstration tools, the monthly series and the screens: mostly single-branch facts over libraries.
