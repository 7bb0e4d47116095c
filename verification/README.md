# Verified model of bt_api_ctp

A Dafny model of the parts of `bt_api_ctp` where an error is silent and costly: what a
client is told about executions, how native callbacks reach the ledger, how a close is
planned, and whether an order may be placed and paid for. `dafny verify dfyconfig.toml`
checks everything.

| files | what they model |
|---|---|
| ExecutionLedger, ExecutionPoll, ExecutionFacts, ExecutionReordering, ExecutionRepresentatives, ExecutionOutcomes, ExecutionRefusals, ExecutionHistory, ExecutionRun, ExecutionGeneration, ExecutionExample | execution observations of one provider generation: polls, reads and confirms. A poll is specified as a function, with exactly what it commits, refuses, notes and appends, what holds over whole runs and when the order of rows matters; ExecutionGeneration is the object whose loops refine it |
| CallbackBridge, LedgerAdapter | the callback source bridge and its ledger adapter as atomic steps of any number of threads, in any interleaving |
| ReadbackSchedule, ReturnQueue | the settlement readback budget and the bounded queue of native returns, with the objects that implement their steps |
| CloseDeadlines, CloseAllocation, ClosePlan | the close planner: paired clocks, allocation of lots to rows, the bounded plan |
| Decimals, DecimalTexts, TickTest | decimal arithmetic with explicit rounding, amount texts, and the price tick test |
| OrderRules, OrderDefects, OrderEconomics, EconomicsOwner, EconomicsExample | order admission, the affordability decision, and the owner that retains and later confirms it |

## What the model takes as given

- A native row carries its digest and its projection (or refusal); both are arbitrary. Rows of
  the order query project to orders and rows of the trade query to trades.
- Hashes and opaque references are plain strings. Where a result needs a fact id to name one
  kind and identity, a fact digest to cover the observation's content, or a row digest to fix
  its projection, that is a named precondition (`FactIdsIdentify`, `DigestsCover`,
  `DigestsProject`). `OrderIndependentIff` says exactly how much of the second one is needed.
- Clocks, query results, store outcomes, issuer answers and thread schedules are inputs,
  chosen freely at every step. Instants of the planner are integer nanoseconds; how their differences
  are rounded before they are compared is a parameter, required only to be monotone.
- `is` comparisons of requests and decisions are equality of handles, which carry an object number.
- Ordinary decimal operations use 28 digits, half to even, the standard default context.

## Where the code does not do what one would expect

- `next_envelope` of the bridge clears its in-flight flag under the lock and once more when it
  returns. The flag alone therefore does not keep polls apart (`FlagAloneDoesNotExclude`); exactly
  the late second clear is to blame (`QuietRunExcludes`, `LateLeaveOverlaps`), sequences stay
  contiguous regardless, and the adapter does keep polls apart (`AdapterExcludesPolls`).
- The docstring of a poll promises the same facts for reordered rows. The first row of an identity
  stands for the others, so this holds exactly for a settled poll (`OrderIndependentIff`); a poll after
  a reachable state shows it can fail if a fact digest leaves out the fill (`FactIdsAloneDoNotSuffice`).
- The absolute value of a net short position is a rounding operation. A size beyond 28 digits
  can be rounded up, and a close may then exceed it, also with a named age (`BuyCloseMayFlip`).
  `BuyCloseIsSafeIff` says exactly when, for every net request, and up to 28 digits it cannot happen
  (`ShortSizeIsSafe`).
- Validating the evidence of a decision compares when the rule facts expire but not when they begin, and
  a caller may make a decision up. A decision over facts observed in the future can then be confirmed
  (`FutureFactsAreConfirmed`); `FactsWindowIff` says exactly when, and a decision the rules really made
  is safe (`GenuineIsInFactsWindow`).
- Return numbers are given before projection, so with several return threads drained numbers need
  not increase (`OverlapMayReorder`); with one they do (`OneThreadDrainsInOrder`).
- The planner's second shortage error, its action limit and the checks of the combined deadline are
  unreachable (`SplitActions`, `BuildActions`, `EffectiveChecksNeverFail`).

## Model

| member | source | states |
|---|---|---|
| `ExecutionLedger.PublishKeeps` | src/bt_api_ctp/account_provider.py:1156-1187 | queueing one admissible observation keeps all of: each fact id once with one digest, order states that never regress or follow a terminal one, trades only after their order, and progress equal to the latest state of every order ever queued |
| `ExecutionLedger.HistoryCountsFacts` | src/bt_api_ctp/account_provider.py:1204-1206 | the history and the published facts have the same size |
| `ExecutionLedger.ProgressIsBounded` | src/bt_api_ctp/account_provider.py:1169-1171 | tracked orders never outnumber published facts |
| `ExecutionPoll.NewRowsAre` | src/bt_api_ctp/account_provider.py:1109-1125 | a row is projected by a poll iff its key is polled and was not known, and then as one of its polled rows |
| `ExecutionPoll.EntriesAre` | src/bt_api_ctp/account_provider.py:1116-1130 | the grouped rows are exactly the polled, projectable, not conflicted ones, whatever their order |
| `ExecutionPoll.IdentitiesAre` | src/bt_api_ctp/account_provider.py:1130 | every usable row belongs to one group, and no group occurs twice |
| `ExecutionPoll.DisputedRowsAre` | src/bt_api_ctp/account_provider.py:1132-1140 | a row is refused as a conflicting duplicate iff another row of its identity reports a different fact |
| `ExecutionPoll.AcceptedAreCandidates` | src/bt_api_ctp/account_provider.py:1131-1144 | at most one row per identity is accepted, and only where all rows of the identity agree |
| `ExecutionPoll.CandidateIsAccepted` | src/bt_api_ctp/account_provider.py:1131-1144 | every identity whose rows agree is accepted, with the fact they agree on |
| `ExecutionFacts.StagedPollKeepsLedger` | src/bt_api_ctp/account_provider.py:1148-1206 | a whole poll appends to the history and keeps every ledger invariant, although it compares only with committed progress |
| `ExecutionFacts.OrderStageIsDescribed` | src/bt_api_ctp/account_provider.py:1156-1171 | every order a poll queues meets the set description, and a newly tracked order is one of them |
| `ExecutionFacts.TradeStageIsDescribed` | src/bt_api_ctp/account_provider.py:1172-1187 | every trade a poll queues meets the set description |
| `ExecutionFacts.QueuedAreDescribed` | src/bt_api_ctp/account_provider.py:1078-1206 | soundness: whatever a poll queues is undisputed, unpublished, not regressing, and if a trade its order is or becomes observed; no assumption on fact ids |
| `ExecutionReordering.CoveredIsSettled` | src/bt_api_ctp/account_provider.py:1131-1144 | digests that cover the content settle every poll |
| `ExecutionReordering.DescribedAreQueued` | src/bt_api_ctp/account_provider.py:1078-1206 | completeness: in a settled poll, where fact ids name kind and identity, every fact of the set description is queued; with its content if digests cover it |
| `ExecutionReordering.ReorderedRowsPublishTheSameFacts` | src/bt_api_ctp/account_provider.py:1089-1095 | the same rows in any order and multiplicity commit together and leave the same rows and facts if the poll is settled, and the same order states if digests cover the content |
| `ExecutionRepresentatives.OrderFactIff` | src/bt_api_ctp/account_provider.py:1131-1168 | the fact of an undisputed order is published iff the first of its rows does not regress |
| `ExecutionRepresentatives.TradeFactIff` | src/bt_api_ctp/account_provider.py:1131-1187 | the fact of an undisputed trade is published iff the order named by the first of its rows is observed by then |
| `ExecutionRepresentatives.FirstRowStands` | src/bt_api_ctp/account_provider.py:1130-1144 | the first row polled stands for its identity, in any generation |
| `ExecutionRepresentatives.OrderIndependentIff` | src/bt_api_ctp/account_provider.py:1089-1095 | every permutation of the rows publishes the same facts iff the poll is settled: rows of an undisputed, unpublished identity agree on regressing, or on waiting for their order |
| `ExecutionExample.FactIdsAloneDoNotSuffice` | src/bt_api_ctp/account_provider.py:1089-1095 | after a run that read one order, a poll whose fact ids do name the identity but whose digest does not cover the fill depends on the order of its rows |
| `ExecutionOutcomes.LeaderIsAccepted` | src/bt_api_ctp/account_provider.py:1130-1144 | a row is accepted iff it is the first of its identity and every row of that identity reports its fact |
| `ExecutionOutcomes.OvertakenIs` | src/bt_api_ctp/account_provider.py:1162-1168 | an order regresses iff the last observation of it in the history was final or had filled more |
| `ExecutionOutcomes.KnownIs` | src/bt_api_ctp/account_provider.py:1169-1184 | a trade finds its order observed iff the history has it or this poll brings it as a new order |
| `ExecutionOutcomes.FirstRowIsRecorded` | src/bt_api_ctp/account_provider.py:1112-1125 | a key seen for the first time is recorded with the projection of its first row |
| `ExecutionOutcomes.FactsAfter` | src/bt_api_ctp/account_provider.py:1156-1205 | the fact ids after a poll are those before and those of its new orders and trades |
| `ExecutionOutcomes.PollIsRefusedIff` | src/bt_api_ctp/account_provider.py:856-1115 | a poll is too large iff a query has more than 8192 rows, and otherwise invalid iff a row cannot be digested; no assumption on fact ids |
| `ExecutionOutcomes.PollCommitsIff` | src/bt_api_ctp/account_provider.py:1188-1206 | where fact ids name kind and identity, a poll of digested rows commits iff each query has at most 8192 rows, the known and polled keys are at most 32768 and the old and new fact ids are at most 32768 |
| `ExecutionRefusals.ConflictsAre` | src/bt_api_ctp/account_provider.py:1105-1187 | a key is refused by a poll iff it was before (and keeps its code), or another row of its identity reports a different fact, or its row leads its identity and either its fact id was published with another digest or it is an unpublished order the history has overtaken; each with its own code |
| `ExecutionRefusals.NotesAre` | src/bt_api_ctp/account_provider.py:1101-1187 | a key has each of the three notes iff it had it before, or: its row comes after another of its undisputed identity; it is new and its first row was not attributed; it leads an unpublished trade whose order is not known |
| `ExecutionRefusals.RecordsAre` | src/bt_api_ctp/account_provider.py:1112-1125 | after a poll exactly the old and the polled keys are tracked; an old key keeps its record and a new one has the projection of its first row |
| `ExecutionHistory.AcceptedAreLeaders` | src/bt_api_ctp/account_provider.py:1130-1144 | the accepted rows are the leading rows of their identities, in row order |
| `ExecutionHistory.PollAppends` | src/bt_api_ctp/account_provider.py:1148-1206 | a committed poll appends exactly its new orders in row order and then its new trades in row order, nothing else |
| `ExecutionRun.PollKeeps` | src/bt_api_ctp/account_provider.py:1078-1206 | a committed poll keeps the generation invariant (ledger, offered, rows, conflicts, notes, counters) and only appends to the history |
| `ExecutionRun.CauseTotal` | src/bt_api_ctp/account_provider.py:1193-1203 | the counted causes are refused rows plus conflicted keys plus notes, with none counted twice |
| `ExecutionRun.NotesAreBounded` | src/bt_api_ctp/account_provider.py:1101-1103 | at most three notes per tracked row |
| `ExecutionRun.StepKeeps` | src/bt_api_ctp/account_provider.py:757-800 | every read, confirm and poll keeps the generation invariant |
| `ExecutionRun.PageIsNext` | src/bt_api_ctp/account_provider.py:778-800 | a page is the next unconfirmed stretch of the history, no longer than asked; an accepted confirm moves the confirmed count by exactly its count and leaves the rest of what was pending; any other reply changes only the next query time |
| `ExecutionRun.ReadReplies` | src/bt_api_ctp/account_provider.py:757-790 | a read queries iff its limit is 1 to 10000, nothing is pending and the interval has elapsed; it is refused iff the limit is not, fails iff it queried and the query or its poll failed, and otherwise returns the first of what is pending up to the limit |
| `ExecutionRun.ConfirmRemovesPrefix` | src/bt_api_ctp/account_provider.py:792-800 | a confirm is accepted iff it counts observations of the last page, and then pending is that prefix followed by the new pending; otherwise it is invalid and nothing changes |
| `ExecutionRun.HistoryOnlyGrows` | src/bt_api_ctp/account_provider.py:757-800 | along any continuation of any run the history and what was delivered only grow at their end |
| `ExecutionRun.ClientReceivesHistory` | src/bt_api_ctp/account_provider.py:757-800 | in every run the confirmed pages laid end to end, then the page on offer, are a prefix of the history; no fact twice, no order regressing or following a terminal state, every trade after an observation of its order |
| `ExecutionRun.RunIsBounded` | src/bt_api_ctp/account_provider.py:1188-1206 | after every run: offered within pending, history as long as facts, rows and facts within 32768, tracked orders within facts, conflicts among the rows, three notes per row, and counters that gained exactly refusals plus conflicts plus notes |
| `ExecutionRun.RereadReturnsTheSame` | src/bt_api_ctp/account_provider.py:778-790 | from any point of any run until all then pending is confirmed: nothing is added or lost, pending is the old pending less what was confirmed, and every valid read returns the first of it |
| `ExecutionRun.StagedPollRecords` | src/bt_api_ctp/account_provider.py:1101-1107 | a row is refused at most once in a generation and noted at most once per code, and only if it is tracked |
| `ExecutionGeneration.CountCommitted` | src/bt_api_ctp/account_provider.py:1190-1203 | counting rows, conflicts and notes one by one gives the counters the specification states |
| `ExecutionGeneration.ExecutionGeneration.constructor` | src/bt_api_ctp/account_provider.py:982-995 | a new generation is empty and satisfies the invariant of every reachable generation |
| `ExecutionGeneration.ExecutionGeneration.GroupRows` | src/bt_api_ctp/account_provider.py:1109-1130 | the dictionary of groups holds, for each identity in order of first appearance, exactly its usable rows; new rows and attribution notes as specified |
| `ExecutionGeneration.ExecutionGeneration.SelectGroups` | src/bt_api_ctp/account_provider.py:1131-1144 | refusals, merge notes and representatives are those of the grouped rows |
| `ExecutionGeneration.ExecutionGeneration.Collect` | src/bt_api_ctp/account_provider.py:1109-1144 | collecting one kind gives the new rows, refusals, notes and one representative per undisputed identity, and changes nothing |
| `ExecutionGeneration.ExecutionGeneration.StageOrderEntries` | src/bt_api_ctp/account_provider.py:1156-1171 | the order loop over staged dictionaries computes the specified staging |
| `ExecutionGeneration.ExecutionGeneration.StageTradeEntries` | src/bt_api_ctp/account_provider.py:1172-1187 | the trade loop over staged dictionaries computes the specified staging |
| `ExecutionGeneration.ExecutionGeneration.StagePoll` | src/bt_api_ctp/account_provider.py:1188-1206 | a poll that fails changes no field, and fails as too large iff a query has more than 8192 rows and as invalid iff one then has an undigested row; one that commits, which it does iff rows and facts stay within 32768, gives the specified generation, keeps the whole invariant and only adds to what is pending |
| `ExecutionGeneration.ExecutionGeneration.Read` | src/bt_api_ctp/account_provider.py:757-790 | keeps the invariant; queries only if nothing was pending and the interval elapsed; never drops or reorders what is pending; the page is its first observations |
| `ExecutionGeneration.ExecutionGeneration.Confirm` | src/bt_api_ctp/account_provider.py:792-800 | keeps the invariant; accepted iff the count is within the last page, then exactly that prefix moves from pending to confirmed; otherwise no field changes |
| `CallbackBridge.StepKeeps` | src/bt_api_ctp/ctp_callback_source_bridge.py:553-614 | every atomic step of any thread keeps the bridge invariant |
| `CallbackBridge.RunKeeps` | src/bt_api_ctp/ctp_callback_source_bridge.py:553-778 | in every interleaving: finalized sequences are baseline+1, baseline+2, ... without gap, repeat or reordering; the state generation is 0 until closed and 1 after; the lease is dropped only after a successful release; an open bridge has lost no consumed event |
| `CallbackBridge.ClosedLatches` | src/bt_api_ctp/ctp_callback_source_bridge.py:734-763 | once closed, closed for ever, and nothing more is finalized |
| `CallbackBridge.FinalizedOnlyGrows` | src/bt_api_ctp/ctp_callback_source_bridge.py:581-602 | finalized envelopes are never withdrawn |
| `CallbackBridge.QuietOpenBridgeLostNothing` | src/bt_api_ctp/ctp_callback_source_bridge.py:565-614 | with no thread inside an open bridge, every event taken from the queue was finalized |
| `CallbackBridge.FlagAloneDoesNotExclude` | src/bt_api_ctp/ctp_callback_source_bridge.py:553-614 | a concrete run in which two polls overlap, because a poll clears the in-flight flag twice |
| `CallbackBridge.QuietRunExcludes` | src/bt_api_ctp/ctp_callback_source_bridge.py:553-614 | if no poll enters while another thread is between finalizing and leaving, at most one poll runs in every run |
| `CallbackBridge.LateLeaveOverlaps` | src/bt_api_ctp/ctp_callback_source_bridge.py:553-614 | and from every state where a poll may enter during such a leave, two polls can overlap |
| `CallbackBridge.SoloPollReturns` | src/bt_api_ctp/ctp_callback_source_bridge.py:553-614 | for every environment, a poll on its own on an open, idle bridge returns the next event as its envelope and advances by it, returns a timeout and changes nothing, or raises, closes the bridge for good and drops the lease unless the release failed |
| `CallbackBridge.LatePollRaises` | src/bt_api_ctp/ctp_callback_source_bridge.py:581-607 | a poll that finds the bridge closed when its wait is over raises and changes nothing more |
| `CallbackBridge.SoloCloseReleases` | src/bt_api_ctp/ctp_callback_source_bridge.py:743-778 | a close leaves the bridge closed and drops the lease unless the release failed; a later close retries only while the lease is held |
| `LedgerAdapter.TakeKeeps` | src/bt_api_ctp/ctp_callback_ledger_adapter.py:164-250 | every move of the adapter or of the bridge under it keeps the joint invariant: one active thread, contiguous sequences, and at most one event that left the queue unapplied |
| `LedgerAdapter.LedgerIsContiguous` | src/bt_api_ctp/ctp_callback_ledger_adapter.py:164-250 | in every run the applied sequences are a contiguous prefix from the baseline; at most one event that left the queue is unapplied, finalized or not; and once no thread is active and the adapter is not poisoned, every such event is applied |
| `LedgerAdapter.AdapterExcludesPolls` | src/bt_api_ctp/ctp_callback_ledger_adapter.py:164-231 | through the adapter at most one poll runs in the bridge, although the bridge alone does not ensure it |
| `LedgerAdapter.PoisonedAppliesNothing` | src/bt_api_ctp/ctp_callback_ledger_adapter.py:245-250 | after poisoning no event is taken from the queue, finalized or applied in any continuation |
| `LedgerAdapter.AppliedOnlyGrows` | src/bt_api_ctp/ctp_callback_ledger_adapter.py:196-231 | the ledger is append-only |
| `LedgerAdapter.SoloApplyDelivers` | src/bt_api_ctp/ctp_callback_ledger_adapter.py:164-231 | for every environment and store outcome, a call on its own on an open, idle adapter applies the next event iff its poll brings it and the store keeps it; a timeout changes nothing; every failure, one after the commit included, poisons and closes adapter and bridge |
| `LedgerAdapter.SoloCloseShuts` | src/bt_api_ctp/ctp_callback_ledger_adapter.py:233-243 | a close closes adapter and bridge without poisoning |
| `LedgerAdapter.LateEnvelopeIsLost` | src/bt_api_ctp/ctp_callback_ledger_adapter.py:185-191 | an envelope whose adapter was closed meanwhile is not applied and poisons the adapter |
| `LedgerAdapter.LateCallPoisons` | src/bt_api_ctp/ctp_callback_ledger_adapter.py:182-231 | a call that finds its bridge closed takes nothing from it and poisons the adapter |
| `LedgerAdapter.RefusedCallsChangeNothing` | src/bt_api_ctp/ctp_callback_ledger_adapter.py:175-239 | a call on a closed, poisoned or busy adapter and a close of a closed one change nothing |
| `ReadbackSchedule.EveryScheduleKeeps` | src/bt_api_ctp/direct_write_provider.py:712-867 | in every interleaving of monitor ticks and writes: at most 730 attempts per stay, and every attempt waited for its cooldown or backoff |
| `ReadbackSchedule.GenerationBudget` | src/bt_api_ctp/direct_write_provider.py:84-99 | readbacks of one trader and generation number at most 730 per stay in that scope |
| `ReadbackSchedule.ReadbacksAreSpaced` | src/bt_api_ctp/direct_write_provider.py:722-805 | after a failure a background attempt waits the indexed backoff and a write-path attempt at least 5 s |
| `ReadbackSchedule.BackoffSumClosed` | src/bt_api_ctp/direct_write_provider.py:90-99 | closed form of the summed backoff |
| `ReadbackSchedule.BackoffRange` | src/bt_api_ctp/direct_write_provider.py:90-99 | the backoff is 2, 5, 10 and 20 s, and 30 s from the fifth failure in a row on |
| `ReadbackSchedule.BudgetOutlastsSession` | src/bt_api_ctp/direct_write_provider.py:84-99 | if all fail, the background alone spends its budget over at least 21787 s, more than six hours |
| `ReadbackSchedule.FailingBudgetTakesAnHour` | src/bt_api_ctp/direct_write_provider.py:84-99 | for any mix of background and write attempts of an all-failing stay: at least 2 s and then 5 s between attempts, so the whole budget takes at least 3642 s |
| `ReadbackSchedule.ReadbackState.constructor` | src/bt_api_ctp/direct_write_provider.py:524-528 | a new schedule owes no wait and keeps the invariant of every schedule |
| `ReadbackSchedule.ReadbackState.Enter` | src/bt_api_ctp/direct_write_provider.py:712-720 | keeps the cap and spacing of every stay; the same scope changes nothing, a new one owes no wait, and no readback of any stay is forgotten |
| `ReadbackSchedule.ReadbackState.RunSettlementReadback` | src/bt_api_ctp/direct_write_provider.py:722-763 | uses exactly one attempt, never beyond 730; failures are the failures in a row of this stay; a failure sets the next time 2 to 30 s ahead, 30 s from the fifth on |
| `ReadbackSchedule.ReadbackState.ReadbackForWrite` | src/bt_api_ctp/direct_write_provider.py:765-805 | a write reads back iff the scope qualifies, has fewer than 730 attempts and its last attempt ended at least 5 s ago; the reply is ready or unverified as the readback found it, not needed iff no scope qualifies, not repeated iff this stay is used up, and otherwise pending, with nothing spent |
| `ReadbackSchedule.ReadbackState.MonitorTick` | src/bt_api_ctp/direct_write_provider.py:832-867 | the monitor reads back iff the scope qualifies, has fewer than 730 attempts and the backoff after the last failure in a row is over; its five replies are told apart as for a write |
| `ReturnQueue.EveryReturnIsAccounted` | src/bt_api_ctp/direct_write_provider.py:1120-1173 | in every interleaving each number given is in progress, ignored, failed, queued, drained or overflowed, exactly once, and the counts add up; dropped is failures plus overflows; the queue stays within 50000, is the newest stretch of the enqueue order, and the drained and the overflowed events are subsequences of it |
| `ReturnQueue.OneThreadDrainsInOrder` | src/bt_api_ctp/direct_write_provider.py:1120-1173 | with one return thread the drained numbers strictly increase |
| `ReturnQueue.OverlapMayReorder` | src/bt_api_ctp/direct_write_provider.py:1120-1140 | whenever a return is numbered while another is in progress, a drain can show them out of order |
| `ReturnQueue.ReturnTap.constructor` | src/bt_api_ctp/direct_write_provider.py:506-509 | a new queue is empty, with balanced accounts |
| `ReturnQueue.ReturnTap.NumberReturn` | src/bt_api_ctp/direct_write_provider.py:1120-1123 | the number given has no fate before, and the accounts still balance |
| `ReturnQueue.ReturnTap.IgnoreReturn` | src/bt_api_ctp/direct_write_provider.py:1130-1131 | a return without an event leaves the queue and the loss counter alone, and the accounts balance |
| `ReturnQueue.ReturnTap.NoteProjectionFailed` | src/bt_api_ctp/direct_write_provider.py:1126-1154 | the loss counter stays exactly failures plus overflows, and no return is counted twice |
| `ReturnQueue.ReturnTap.EnqueueReturn` | src/bt_api_ctp/direct_write_provider.py:1132-1140 | the queue stays bounded and the newest stretch of the enqueue order; exactly a full queue loses its oldest event, and the loss counter stays exact |
| `ReturnQueue.ReturnTap.DrainEvents` | src/bt_api_ctp/direct_write_provider.py:1167-1173 | a drain returns the oldest events in order, at most the asked number but at least one if any; nothing else leaves the queue and the accounts balance |
| `CloseDeadlines.MinimaAre` | src/bt_api_ctp/ctp_close_plan.py:1514-1515 | each combined minimum is a lower bound of its clock and is reached by some deadline |
| `CloseDeadlines.SourceIs` | src/bt_api_ctp/ctp_close_plan.py:984-991 | the expiry of the evidence passes iff it is after completion on both clocks, measured alike up to a microsecond and at most five seconds and a microsecond away; otherwise the first of these decides the error |
| `CloseDeadlines.RefusalIs` | src/bt_api_ctp/ctp_close_plan.py:1464-1524 | which error refuses: a clock behind completion, else the first of request, context and policy that is not later than completion or not paired, else a deadline that has passed |
| `CloseDeadlines.MinimaArePaired` | src/bt_api_ctp/ctp_close_plan.py:1514-1521 | minima taken per clock, possibly from different deadlines, pass the pairing test whenever every deadline does, under any monotone rounding of the measured times |
| `CloseDeadlines.AcceptedIff` | src/bt_api_ctp/ctp_close_plan.py:1464-1524 | accepted iff the clock is not before completion and lies before every deadline on both clocks, each after completion and paired up to a microsecond |
| `CloseDeadlines.AcceptedWindow` | src/bt_api_ctp/ctp_close_plan.py:1514-1524 | completed <= now < expiry on both clocks, and the expiry is no later than any deadline and reached by one |
| `CloseDeadlines.EffectiveChecksNeverFail` | src/bt_api_ctp/ctp_close_plan.py:1516-1521 | the elapsed and pairing checks of the combined deadline are unreachable, under any monotone rounding |
| `CloseDeadlines.PlanLifetimeIsBounded` | src/bt_api_ctp/ctp_close_plan.py:984-991 | the measured life of an accepted plan is at most 5.000001 s; measured exactly, at most 5.000002 s on the monotonic clock |
| `CloseAllocation.AtMostTwoMatches` | src/bt_api_ctp/ctp_close_plan.py:1545-1561 | rows with distinct identities give a leg at most one row per age |
| `CloseAllocation.ByDateIsComplete` | src/bt_api_ctp/ctp_close_plan.py:1561-1563 | the dictionary by date loses no row and its two positions sum to the available lots |
| `CloseAllocation.FreezeErrors` | src/bt_api_ctp/ctp_close_plan.py:1560 | the freeze test passes iff no row has frozen lots |
| `CloseAllocation.SplitOkIff` | src/bt_api_ctp/ctp_close_plan.py:1548-1565 | a split leg passes iff it has rows, each of one age and unfrozen, that hold enough |
| `CloseAllocation.SplitErrorIs` | src/bt_api_ctp/ctp_close_plan.py:1548-1565 | which error refuses a split leg: no row of it, a row with lots of the other date, the freeze of its first frozen row, or too few lots, each exactly when |
| `CloseAllocation.TakesExactly` | src/bt_api_ctp/ctp_close_plan.py:1566-1598 | after the checks, visiting the two ages leaves nothing remaining |
| `CloseAllocation.SplitActions` | src/bt_api_ctp/ctp_close_plan.py:1527-1599 | ok exactly when the checks pass; then the lots sum to the request, each action takes at most its row, a today row is closed as today and all its lots count as of today, a history row as yesterday and none is, and the second age is used only when the preferred one is exhausted; the last shortage error is unreachable |
| `CloseAllocation.RangeIsFeasible` | src/bt_api_ctp/ctp_close_plan.py:1634-1641 | the today range is nonempty and is exactly the set of feasible today allocations |
| `CloseAllocation.AgeGrantedIff` | src/bt_api_ctp/ctp_close_plan.py:1642-1646 | an age request is granted iff every feasible allocation satisfies it |
| `CloseAllocation.GenericOkIff` | src/bt_api_ctp/ctp_close_plan.py:1620-1646 | a generic leg passes iff it has one combined unfrozen row that holds enough and every feasible allocation has the asked age |
| `CloseAllocation.GenericErrorIs` | src/bt_api_ctp/ctp_close_plan.py:1609-1646 | which error refuses a generic leg, each exactly when; the age error iff some feasible allocation lacks the asked age |
| `CloseAllocation.GenericIsRanged` | src/bt_api_ctp/ctp_close_plan.py:1634-1667 | the one action closes the whole leg with the plain close offset, and its range is exactly the set of feasible today lots of its row |
| `CloseAllocation.SplitClosesLeg` | src/bt_api_ctp/ctp_close_plan.py:1569-1599 | split actions close the leg exactly and take no row beyond its position |
| `CloseAllocation.GenericClosesLeg` | src/bt_api_ctp/ctp_close_plan.py:1632-1667 | the generic action closes the leg exactly and takes no row beyond its position |
| `ClosePlan.CheckRows` | src/bt_api_ctp/ctp_close_plan.py:1095-1099 | accepted iff all rows are of the trading day and no identity occurs twice |
| `ClosePlan.NormalizeLegs` | src/bt_api_ctp/ctp_close_plan.py:1138-1201 | accepted iff one to three legs with positive quantities and distinct keys; otherwise empty, too many, or the error of the first unsound leg |
| `ClosePlan.CheckExchanges` | src/bt_api_ctp/ctp_close_plan.py:1700-1702 | accepted iff every leg is on a supported exchange |
| `ClosePlan.OneMorePart` | src/bt_api_ctp/ctp_close_plan.py:1719-1744 | appending one more leg keeps conservation, because distinct keys have disjoint rows |
| `ClosePlan.PartsConserve` | src/bt_api_ctp/ctp_close_plan.py:1719-1744 | over the whole plan every leg is closed exactly, no row gives more than its position, and there are one or two actions per leg |
| `ClosePlan.AddRoles` | src/bt_api_ctp/ctp_close_plan.py:1745-1747 | roles are added once, in order, and none is lost |
| `ClosePlan.LegActions` | src/bt_api_ctp/ctp_close_plan.py:1720-1743 | one leg under either policy: ok iff its check passes, with its error otherwise; offsets and age allocations as the policy requires |
| `ClosePlan.BuildActions` | src/bt_api_ctp/ctp_close_plan.py:1717-1749 | refused exactly when some leg fails, with the first failing leg's error; conserves lots, names exactly the needed fee roles, and the six-action limit is unreachable |
| `ClosePlan.TodayRoleIff` | src/bt_api_ctp/ctp_close_plan.py:1668-1672 | a generic leg needs the close-today fee iff some feasible allocation closes a today lot |
| `ClosePlan.CheckErrors` | src/bt_api_ctp/ctp_close_plan.py:1548-1646 | no leg check reports the action limit or the shortage after a split |
| `ClosePlan.BuildClosePlan` | src/bt_api_ctp/ctp_close_plan.py:1675-1749 | a plan is emitted iff evidence, rows, legs, exchanges, deadlines and every leg pass, and otherwise the first of these that fails is the error; it conserves lots, has at most six actions, the combined expiry, and under the split policy the offset and allocation of the date of each row, under the combined one exactly the feasible range |
| `Decimals.DigitsIff` | src/bt_api_ctp/execution_economics_registration.py:1407 | rounding to k digits leaves a number alone iff its coefficient is below ten to the k |
| `Decimals.FeeIsExact` | src/bt_api_ctp/execution_economics_registration.py:1406-1408 | product, product, sum and product of five w-digit amounts need at most 5w+1 digits, so at that precision the fee is the true rational |
| `Decimals.SumIsExact` | src/bt_api_ctp/execution_economics_registration.py:1674-1676 | requirement plus fee needs at most 2w+1 digits, so at that precision the sum is the true rational |
| `DecimalTexts.ParsedFits` | src/bt_api_ctp/execution_economics_registration.py:1761-1776 | an accepted amount text denotes at most 128 digits and 128 places |
| `DecimalTexts.ShownReadsBack` | src/bt_api_ctp/execution_rules.py:142-146 | the fixed-point text of a decimal, within 128 characters, is an accepted amount text and reads back as the same decimal, sign of zero included |
| `DecimalTexts.ShownKeepsValue` | src/bt_api_ctp/execution_rules.py:142-146 | the text of any decimal, within 128 characters, is accepted and reads back with the same sign and value |
| `DecimalTexts.ReadShowsBack` | src/bt_api_ctp/execution_economics_registration.py:1761-1776 | every accepted amount text is the text of the decimal it reads as |
| `DecimalTexts.AmountIff` | src/bt_api_ctp/execution_economics_registration.py:1761-1776 | the accepted amount texts are exactly the texts, of at most 128 characters, of decimals without a positive exponent |
| `OrderRules.FeeRuleIs` | src/bt_api_ctp/execution_rules.py:754-763 | the chosen fee rule is the last of its role, and for yesterday's lots without an own rule the last close rule; found iff one exists |
| `OrderRules.DualCloseFits` | src/bt_api_ctp/execution_rules.py:671-706 | a dual-side close is on the right side, within the side's size and within any named age bucket |
| `OrderRules.NetSellCloseReduces` | src/bt_api_ctp/execution_rules.py:708-751 | an accepted net sell that closes keeps the sign and reduces the position by exactly the quantity |
| `OrderRules.NetBuyCloseReduces` | src/bt_api_ctp/execution_rules.py:708-751 | an accepted net buy of whole lots that closes does the same whenever its limit passes no whole lot |
| `OrderRules.ShortSizeIsSafe` | src/bt_api_ctp/execution_rules.py:715-738 | a short size of at most 28 digits passes none, whatever the offset |
| `OrderRules.BuyCloseIsSafeIff` | src/bt_api_ctp/execution_rules.py:708-751 | for every net request: no whole quantity beyond the short position is accepted as a close iff the smaller of its size rounded to 28 digits and any named bucket passes no whole lot the position lacks |
| `OrderRules.BuyCloseMayFlip` | src/bt_api_ctp/execution_rules.py:708-751 | a short position of ten to the 28 plus nine lots accepts a close of one lot more and would end long, with or without a named age |
| `OrderRules.NetOpenGrows` | src/bt_api_ctp/execution_rules.py:711-724 | an order inferred to open grows the position by exactly the quantity |
| `OrderRules.AcceptedHadEvidence` | src/bt_api_ctp/execution_rules.py:601-620 | every accepted close or inferred-offset order had same-generation, current and validated position evidence |
| `OrderRules.AcceptedIsPriced` | src/bt_api_ctp/execution_rules.py:621-663 | an accepted order carries the text of the fee of its own rule, from facts current at the clock |
| `OrderRules.OutcomeIsStable` | src/bt_api_ctp/execution_rules.py:543-663 | an accepted order gets the same outcome, fee text included, at every clock inside the windows of its facts and evidence |
| `OrderRules.SmallerOrderActsTheSame` | src/bt_api_ctp/execution_rules.py:666-751 | what an order may do every smaller order may do, with the same side and the same offset, inferred or named |
| `OrderDefects.DualActsIff` | src/bt_api_ctp/execution_rules.py:671-706 | a dual-side order acts iff it names side and offset, an open is a buy of long or a sell of short, a close is a sell of long or a buy of short, and a close is within the reported size of the side and of any age it names |
| `OrderDefects.NetActsIff` | src/bt_api_ctp/execution_rules.py:708-751 | a net order, buy or sell, acts iff its offset is named or inferred from the side of the position, any named side is the one that offset means, and a close is within the closable part of the position and any named age |
| `OrderRules.WholeIff` | src/bt_api_ctp/execution_rules.py:585-586 | a quantity passes as whole iff its value is a whole number |
| `OrderDefects.EvaluateNamesFirstDefect` | src/bt_api_ctp/execution_rules.py:543-663 | an order is accepted iff none of 33 defects holds, and then on the side, with the offset and with the fee text its position and rule give; otherwise it is refused with the first defect, as unavailable, rejected or raised |
| `OrderRules.AcceptedPriceIsOnTick` | src/bt_api_ctp/execution_rules.py:581-590 | an accepted plain price is within 1E-9 and 1E-42 of a tick of a whole number of ticks |
| `TickTest.QuotientIsNear` | src/bt_api_ctp/execution_rules.py:772-781 | the quotient rounded to 300 digits is within 1E-42 of the true number of ticks, for all plain prices and ticks |
| `TickTest.HalfEvenIsNear` | src/bt_api_ctp/execution_rules.py:772-781 | rounding takes the nearest multiple of the unit, and of two equally near ones the even one |
| `TickTest.StickyDigitRounds` | src/bt_api_ctp/execution_rules.py:772-781 | rounding the quotient with its remembering last digit is rounding the true quotient half to even |
| `TickTest.AlignedIsNearTicks` | src/bt_api_ctp/execution_rules.py:772-781 | a price passes the tick test only within 1E-9 plus 1E-42 ticks of a whole number of ticks |
| `TickTest.NearTicksAligns` | src/bt_api_ctp/execution_rules.py:772-781 | every price within 1E-9 less 1E-42 ticks of a whole number of ticks passes |
| `TickTest.WholeTicksAlign` | src/bt_api_ctp/execution_rules.py:772-781 | a whole number of ticks always passes |
| `OrderEconomics.RuleFeeIsExact` | src/bt_api_ctp/execution_economics_registration.py:1396-1415 | for plain texts the recomputed fee is the commission formula on true rationals and survives its text |
| `OrderEconomics.StandingFeeIsExact` | src/bt_api_ctp/execution_economics_registration.py:1387-1415 | a fee that passes equals the commission formula on true rationals, whoever made the decision up |
| `OrderEconomics.FeeStandsIff` | src/bt_api_ctp/execution_economics_registration.py:1373-1415 | a presented commission stands iff the rule of its offset is verified, sourced and of this currency and session, all texts are plain amounts, quantity, price and multiplier are positive and the quantity whole, and it equals the commission formula on true rationals |
| `OrderEconomics.FeeFailsAs` | src/bt_api_ctp/execution_economics_registration.py:1373-1415 | which of the three errors a commission that does not stand meets, each exactly when |
| `OrderEconomics.GenuineFeeStands` | src/bt_api_ctp/execution_economics_registration.py:1373-1415 | a decision the rules made never meets the fee mismatch; it passes iff its rule is the bound one and its five numbers are plain texts |
| `OrderEconomics.ReadCertificate` | src/bt_api_ctp/execution_economics_registration.py:1533-1580 | the certificate gives the earliest expiry and the latest completion of its seven sound queries |
| `OrderEconomics.CheckPosition` | src/bt_api_ctp/execution_economics_registration.py:1460-1492 | passes iff the order names the position evidence of the evidence, and for a close that is validated, of the session and covers the window |
| `OrderEconomics.CheckBalances` | src/bt_api_ctp/execution_economics_registration.py:1631-1658 | passes iff currencies are distinct, exactly one balance is in the currency, and it covers the reported amount |
| `OrderEconomics.ValidateEvidence` | src/bt_api_ctp/execution_economics_registration.py:1313-1492 | passes iff position binding, fee, certificate, account times and every expiry bound hold at this clock |
| `OrderEconomics.DecisionIsExact` | src/bt_api_ctp/execution_economics_registration.py:1661-1683 | the decision accepts iff requirement plus fee, as true rationals, is within the available amount; the stated requirement reads back as that sum, and window, lease, currency and available text are those of the evidence |
| `OrderEconomics.DecidedIff` | src/bt_api_ctp/execution_economics_registration.py:1661-1683 | there is a decision iff the clock is inside the window, the three amounts are plain texts and the sum needs at most 128 characters |
| `OrderEconomics.DecisionIsStable` | src/bt_api_ctp/execution_economics_registration.py:1666-1705 | two clock readings inside the window give the same decision |
| `OrderEconomics.AdmitKeeps` | src/bt_api_ctp/execution_economics_registration.py:848-868 | one admission keeps the ledger within 4096 supported decisions, drops only expired ones and overwrites none |
| `OrderEconomics.RetainedIff` | src/bt_api_ctp/execution_economics_registration.py:848-868 | a decision is retained iff fewer than 4096 decisions are unexpired and its lease is none of theirs; which refusal applies, and what remains |
| `OrderEconomics.RunKeepsLedger` | src/bt_api_ctp/execution_economics_registration.py:848-869 | after every run the ledger holds at most 4096 decisions, each affordable, under its own lease and issued in that run |
| `OrderEconomics.LiveLeaseStays` | src/bt_api_ctp/execution_economics_registration.py:861-868 | a retained lease is neither dropped nor overwritten before it expires, whatever is issued meanwhile |
| `EconomicsOwner.Owner.constructor` | src/bt_api_ctp/execution_economics_registration.py:435 | a new owner has issued nothing |
| `EconomicsOwner.Owner.PurgeExpired` | src/bt_api_ctp/execution_economics_registration.py:1744-1748 | removes exactly the expired records |
| `EconomicsOwner.Owner.Retain` | src/bt_api_ctp/execution_economics_registration.py:861-868 | the ledger becomes the specified admission, and the outcome says which branch |
| `EconomicsOwner.Owner.Evaluate` | src/bt_api_ctp/execution_economics_registration.py:809-869 | granted iff evidence stood at both clocks, the sum is affordable and the ledger retained it; insufficient iff it stood and is not affordable; each unavailable cause exactly when; otherwise at most a purge changes the ledger |
| `EconomicsOwner.Owner.Revalidate` | src/bt_api_ctp/execution_economics_registration.py:871-923 | true iff the decision is the object retained under its lease for this request and is supported at both clocks; then it was issued earlier by this owner |
| `EconomicsOwner.StandsUntilExpiry` | src/bt_api_ctp/execution_economics_registration.py:1449-1457 | evidence that stood once stands at every clock inside its own window |
| `EconomicsOwner.ConfirmedIsCurrent` | src/bt_api_ctp/execution_economics_registration.py:905-923 | a confirmed decision was accepted, its exact requirement is within the available amount, and the last clock lies inside all seven queries, the account lease and, for closes, the position evidence, and before the rule facts expire |
| `EconomicsOwner.FactsWindowIff` | src/bt_api_ctp/execution_economics_registration.py:1449-1457 | every confirmation of a retained decision lies in the whole window of its rule facts iff those were observed no later than the evidence |
| `EconomicsOwner.GenuineIsInFactsWindow` | src/bt_api_ctp/execution_economics_registration.py:905-923 | a decision the rules made no later than the last clock is confirmed only in the whole window of its rule facts |
| `EconomicsExample.FutureFactsAreConfirmed` | src/bt_api_ctp/execution_economics_registration.py:1449-1457 | a made-up decision over rule facts that begin at 8 is retained and confirmed at the clock 1 |
| `EconomicsOwner.ConfirmedIff` | src/bt_api_ctp/execution_economics_registration.py:871-923 | for a retained record: confirmed iff same two objects, outside checks pass, and both clocks lie in the evidence window |
| `EconomicsOwner.GrantedIsConfirmed` | src/bt_api_ctp/execution_economics_registration.py:848-923 | a granted decision stays in the ledger through every run of other evaluations before its evidence expires, and is confirmed exactly at the clock readings inside its evidence window at which the outside checks pass |
| `EconomicsExample.SomeDecisionIsConfirmed` | src/bt_api_ctp/execution_economics_registration.py:809-923 | some close with position evidence and a fee of two is accepted by the rules, has standing evidence, is exactly affordable, can be retained and is confirmed: the results about decisions are not vacuous |

## Left out

- TickTest.Div does not drop the trailing zeros of an exact quotient, and the difference to the nearest whole number is taken exactly: neither changes a value.
- OrderRules.Evaluate reads side, order type and time in force as already normalized, and numbers as already read; texts that do not denote a number raise before it.
- OrderEconomics.ValidateEvidence: takes the identity, scope, digest and reference comparisons as one input, `bound`; they are long conjunctions over single fields.
- ClosePlan.CheckRows: covers trading day and identity only; the other row fields, broker and investor comparisons and envelope status fields are single-field tests.
- ClosePlan.NormalizeLegs: covers emptiness, number, quantity and key of legs; text shapes, digests and roles of the request are single-field tests.
- CloseDeadlines.PlanLifetimeIsBounded: the bound on the monotonic clock is stated for exact measurement only, because a rounding that is merely monotone may be arbitrarily coarse.
- ClosePlan.BuildClosePlan: validation of the context and of the policy profile is left out; both are single-field tests.
- Plan digests, action identifiers and canonical JSON: they only name what the plan already fixes.
- CallbackBridge and LedgerAdapter model the objects as values that atomic steps replace, not as objects updated in place, because their laws are about interleavings of several threads.
- The queries behind a poll, their spacing and the projector that turns native rows into observations: results enter as rows.
- ReadbackSchedule does not cover `settlement_status`, which runs a readback outside the shared budget, nor starting and stopping the monitor thread.
- ReturnQueue does not cover the throttling of its overflow log.
- The rules snapshot ledger of the economics owner: the same purge and lookup as the decision ledger.
- `ctp_callback_session.py`, native clients, feeds and stores: their effects are environment choices here.
- The option and commission projections of native rows: single-field conversions.
