# Verification of the club administration core

This project models the deep cores of Open ClubManager in Dafny and proves what they promise. Tables are maps or
sequences of rows, a write transaction is one method, ids grow in the order they are handed out (UUIDv7), money is
counted in integer cents and dates are day numbers. Where the program changes tables or loops over variables, a class
or method does the same in place and is proved against a specification function; the lemmas are about these functions
and about all runs of them.

| files | what they model |
|---|---|
| `Sorting` | the stable sort that orders fees, periods and receipt items |
| `Order`, `Conflicts` | the incrementally maintained index of uniqueness conflicts, against a full scan |
| `Replica` | applying changes of other devices, the last writer wins, and devices that converge |
| `Ledger`, `LedgerStore`, `LedgerRuns` | assigning bank transactions to fees, returned debits, and undoing |
| `Matching`, `MatchingTerms`, `CertainLoop` | suggesting fees for a bank entry, what makes it certain, and confirming all certain suggestions |
| `Calendar`, `Events` | recurring events and the calendar they live in |
| `Fees`, `Billing`, `BillingStore`, `BillingRuns`, `BillingTerms` | fee models, periods, pro-rata amounts, billing runs, and what they charge to whom |
| `Receipts`, `ReceiptBook`, `ReceiptTerms` | donation receipts: issuing, duplicates, voiding, and what they certify |
| `Bytes`, `OneEdit` | the typo-tolerant word comparison |
| `Attendance`, `AttendanceRuns` | the offline attendance queue under interleaving |
| `Ical`, `IcalWriter`, `IcalReader` | iCalendar escaping and folding, and a reader that gets the events back |
| `Mod97`, `Iban` | IBAN and creditor identifier check digits, backend and frontend |
| `RefreshTokens`, `RefreshRuns` | refresh token families under interleaved requests |
| `Words` | amounts in German words, and a reader for them |

`dafny verify dfyconfig.toml` checks everything.

## What turned out different from the program's own words

- The paid date of a settled fee is that of the latest payment (server/internal/store/reconciliation.go:514-537), not
  that of the transaction being confirmed (lines 318-322). `LedgerRuns.GoodMeans` states what the code does.
- Reopening in another order than last first can leave a fee with a paid date that the remaining assignments do not
  imply. `LedgerRuns.ReopeningOutOfOrder` says exactly when for one reopening, and
  `LedgerRuns.PaymentReopenedBeforeItsReturn` for a payment reopened before a later return.
  `LedgerRuns.FeeKeepsDateOfReopenedPayment` and `LedgerRuns.FeeStaysPaidWithoutItsPayment` are ledgers in which it
  happens, built by three confirmations each.
- Deleting a billing run leaves the payment rows of its fees (server/internal/store/feemodels.go:615-623), unlike
  deleting a fee (server/internal/store/finance.go:225-237). `LedgerRuns.DroppingAFeeReopensEntries` says which entries
  it opens.
- The fee model chosen by age does depend on the order of the models when two of the best ones tie in span and name
  (server/internal/fees/fees.go:76-91): `Fees.TiesDependOnOrder` has the exact condition for any list of models,
  `Fees.TiedModels` an example.
- The bound of 2000 steps (server/internal/store/events.go:490-491) loses occurrences in very long windows, exactly when
  one behind it counts and overlaps the window: `Events.ExpansionIsComplete`, with a check for callers in
  `Events.StoppingBehindIsComplete`. `Events.LongWindowLosesOccurrences` is an example.
- Looking up an occurrence by its date misses events without length at local midnight
  (server/internal/store/events.go:516-525): `Events.LookupAgreesWithWindow` has the exact condition and
  `Events.MidnightEventIsMissed` an example.
- "Newer changes replace older ones" (frontend/src/api/attendance.ts:86-90) does not hold for every save.
  `AttendanceRuns.DirectSaveIsKept` and `AttendanceRuns.QueuedSaveIsKept` say exactly which saves the server ends up
  with: one that goes straight to the server is overwritten by another status still queued for the member unless that
  one has been applied and is about to be accepted, and a queued one is lost if the same status is about to be accepted
  while another one has reached the server in between. `AttendanceRuns.OverwrittenSave` and
  `AttendanceRuns.ForgottenSave` are runs in which this happens. Where the server refuses the status or applies a
  request given up on, `AttendanceRuns.SaveInAnyRun` says what it ends up with.
- Folding an iCalendar line never ends on some invalid UTF-8: `Ical.FoldingEnds` has the exact condition and
  `Ical.NeverEndsOn` an example.
- Empty text has the remainder -1 in the backend and 0 in the frontend; both reject it before that matters.

## How it is modelled

- `Conflicts`: sorting the holders and taking the first is modelled as taking the least. The registry of tables and
  unique columns is a parameter. The order in which values are processed is left open.
- `Ledger`: a payment row's id is its position. The branch of the settling code that takes the current time cannot be
  reached, as a last assignment that is a payment has a date; the method asserts this.
- `Matching`: the hits of texts, names, IBANs and member numbers are inputs. Members are distinct, as the household
  table has the member as its primary key.
- `Events`: times are local wall-clock times of the event's zone.
- `Fees`: a month is counted from January of year 0, so a range of months is a pair of numbers.
- `Ical`: texts are bytes, times come formatted. The validity of UTF-8 is its structure of lead and continuation
  bytes; the overlong forms and surrogates that it does not exclude fold as well.
- `AttendanceRuns`: the server applies an accepted request before the client learns of it and never applies a refused
  one; one that the client has given up on may still be applied at any later time. A save takes its step when the server
  applies it or when it is queued.
- `Replica`: a primary key is a map from columns to values, and its text is some text that names it. Foreign keys refer
  to the column `id` of their table, as all of the schema do. `updated_at`, which is computed from the clocks, is not
  stored.
- Sorting is a stable insertion; which algorithm the library uses makes no difference to a stable order.
- `RefreshRuns`: a request reads, then decides and writes in one step, since it decides only on what it has read.

## Model

| member | source | states |
|---|---|---|
| Sorting.SortSorts | server/internal/reconcile/match.go:259-265 | sorting fees by due day orders them and keeps each one |
| Sorting.SortIsStable | server/internal/store/feemodels.go:448 | sorting is stable: elements with equal keys keep their order |
| Order.LessMeans | server/internal/sync/replica/apply.go:35-45 | texts are compared by their first difference: the smaller character or the end comes first |
| Order.FirstDifferenceDecides | server/internal/sync/replica/apply.go:35-45 | so of two hybrid logical clocks that agree up to x and y the one with the smaller is the earlier one |
| Conflicts.ConflictTable.DetectUniqueConflicts | server/internal/store/conflicts.go:60-80 | one pass over the unique columns of a table re-checks exactly the candidate values of the given keys in every column with a rule and leaves all other flags, and tables that are not synced, alone |
| Conflicts.ConflictTable.ConflictCandidates | server/internal/store/conflicts.go:85-126 | the values to re-check: those the rows hold now and those for which a given row is flagged or keeps the value |
| Conflicts.ConflictTable.ResolveUniqueValue | server/internal/store/conflicts.go:129-214 | afterwards the flags for one value are those a full scan gives, with the date of detection kept where the value stays; all other flags are as before |
| Conflicts.ConflictTable.FindFlagged | server/internal/store/conflicts.go:134-196 | of several live holders all but the oldest by clock and key are flagged, with that one as the row that keeps the value |
| Conflicts.ConflictTable.UpsertFlags | server/internal/store/conflicts.go:192-205 | upserting flags the given rows only, and a row flagged for the same value keeps its date |
| Conflicts.ConflictTable.Oldest | server/internal/store/conflicts.go:176-194 | the keeper is the least holder in the order of epoch, hybrid clock, device and primary key |
| Conflicts.OldestExists | server/internal/store/conflicts.go:176-194 | every non-empty set of holders has an oldest one, so a keeper always exists |
| Conflicts.OldestIsUnique | server/internal/store/conflicts.go:176-194 | and only one: the keeper does not depend on how it is searched for |
| Conflicts.RecheckOneMore | server/internal/store/conflicts.go:72-77 | re-checking a value after others is re-checking them all: the order of the values does not matter |
| Conflicts.SharedValueIsChecked | server/internal/store/conflicts.go:85-126 | a value a changed row shared before is found again through the flag of one of its holders |
| Conflicts.UncheckedValueIsUntouched | server/internal/store/conflicts.go:85-126 | a value that is not a candidate is held by none of the changed rows, and by the same rows as before or by none |
| Conflicts.DetectionKeepsExact | server/internal/store/conflicts.go:48-80 | if the index was exact and the keys cover all changed rows and clocks, it is exact afterwards |
| Conflicts.LocalDetectionKeepsExact | server/internal/store/syncwrite.go:285-316 | after local writes it is enough to re-check the rows that were flagged or kept: if every row keeps its value and clock, loses its value or holds one of its own, the index is exact afterwards |
| Conflicts.CheckedSaveWritesUnique | server/internal/store/syncwrite.go:248-267 | a row saved with a value that passed the check is such a write |
| Conflicts.ConflictTable.RequireUnique | server/internal/store/syncwrite.go:248-267 | true exactly when no other live row holds the value, and always for NULL |
| Conflicts.ConflictTable.RefreshConflicts | server/internal/store/syncwrite.go:285-316 | re-checks in every table written exactly the rows flagged or kept in it, one table after the other |
| Conflicts.StepKeepsExact | server/internal/sync/replica/apply.go:352-363 | a transaction over any tables, each with changes of other devices or local writes, keeps the index exact in every column with a rule |
| Conflicts.EveryRunIsExact | server/internal/store/conflicts.go:48-80 | over every run of transactions, of other devices and local ones, over any tables, the index equals a full scan of all live rows and clocks |
| Conflicts.SplittingDoesNotMatter | server/internal/store/conflicts.go:48-80 | two devices that reach the same content flag the same rows, however the changes were split into transactions and whoever made them |
| Conflicts.ExactMeans | server/internal/store/conflicts.go:48-80 | a live row is flagged if and only if an older row holds its value, and names that value and its oldest holder |
| Conflicts.FlagsMean | server/internal/store/conflicts.go:134-196 | in terms of rows and clocks: a row is flagged if and only if another row that is not deleted holds the same value since before it, and the row that keeps the value holds it since before all others |
| Conflicts.EarliestKeeps | server/internal/store/conflicts.go:176-196 | the row that has held a value longest is not flagged and every other one is flagged for it |
| Conflicts.LaterClockIsFlagged | server/internal/store/conflicts.go:176-190 | of two clocks of one epoch that first differ at x and y the row with the smaller is never flagged for the other |
| Conflicts.UnclockedRowIsOldest | server/internal/store/conflicts.go:166-190 | a row without a field clock wins against every row with one |
| Replica.Device.FindWinning | server/internal/sync/replica/apply.go:252-263 | the loop finds exactly the columns whose clock in the change is newer than the stored one |
| Replica.Device.IsMissing | server/internal/sync/replica/apply.go:265-290 | a change has to wait exactly when a new row lacks a required column or a winning or inserted reference has no row |
| Replica.Device.Apply | server/internal/sync/replica/apply.go:224-347 | writes the winning columns with their clocks over the row or the defaults and the key, or writes nothing and says that the change waits |
| Replica.Device.Receive | server/internal/sync/replica/apply.go:410-420 | a change that cannot be applied is kept |
| Replica.Device.RetryPending | server/internal/sync/replica/apply.go:422-477 | ends when no waiting change can be applied, and loses none |
| Replica.ReplayHoldsNewest | server/internal/sync/replica/apply.go:224-347 | after any changes each field holds the value and the clock of a write that no other one is newer than, every other field its default, and rows are those written |
| Replica.OrderDoesNotMatter | server/internal/sync/replica/apply.go:224-347 | the same changes in any order give the same rows and clocks, as long as one clock of a field stands for one value |
| Replica.LastWriterWins | server/internal/sync/replica/apply.go:224-347 | the write of a field whose clock comes behind all others is the one that is held, with its value |
| Replica.OthersAreDefaults | server/internal/sync/replica/apply.go:303-347 | a field that no change has written holds its part of the key, else its default, else NULL |
| Replica.EarlierWriteIsNotHeld | server/internal/sync/replica/apply.go:33-45 | of two writes in one epoch whose clocks first differ at x and y the one with the smaller is not held |
| Replica.CanApplyMeans | server/internal/sync/replica/apply.go:265-290 | after any changes, a further one can be applied exactly when a new row is given its required columns and every reference it would write has a row |
| Replica.ReferencesExist | server/internal/sync/replica/apply.go:265-290 | however changes are applied, no row refers to a missing one |
| Replica.RequiredColumnsAreSet | server/internal/sync/replica/apply.go:265-290 | and every row has its required columns |
| Replica.ApplyingTwiceChangesNothing | server/internal/sync/replica/apply.go:226-231 | a change applied before can be applied again without any effect |
| Replica.CanStillApply | server/internal/sync/replica/apply.go:265-290 | what can be applied after some changes can be applied after more of them |
| Replica.DevicesConverge | server/internal/sync/replica/apply.go:422-477 | two devices that have seen the same changes, in any order and with any of them waiting in between, end up with the same rows, the same clocks and the same changes still waiting |
| Replica.DevicesAgree | server/internal/sync/replica/apply.go:422-477 | so for any two devices after a retry |
| Replica.TouchedRowsCover | server/internal/sync/replica/apply.go:352-363 | outside the rows written through the applier neither live values nor clocks change, so re-checking these is enough |
| LedgerStore.Store.PaidSinceReturn | server/internal/store/reconciliation.go:279-289 | the two-step query sums exactly the payments after the last return |
| LedgerStore.Store.LastPaymentDate | server/internal/store/reconciliation.go:514-518 | the latest date of a transaction that paid the fee |
| LedgerStore.Store.SettleFee | server/internal/store/reconciliation.go:510-543 | the fee becomes what its assignments say: open after a return or below the amount, else paid on its earlier paid date or that of the latest payment; without assignments it stays as it is |
| LedgerStore.Store.ConfirmReconciliation | server/internal/store/reconciliation.go:323-407 | accepted exactly when every check holds, then all assignments are made and all their fees settled; otherwise nothing changes and the error is the first failing check with its fees |
| LedgerStore.Store.CheckAllocations | server/internal/store/reconciliation.go:339-350 | finds the first allocation that is not positive or repeats a fee, or else the total |
| LedgerStore.Store.ReopenReconciliation | server/internal/store/reconciliation.go:433-448 | an imported transaction is open again and its assignments are removed; anything else is not found |
| LedgerStore.Store.RemovePayments | server/internal/store/reconciliation.go:454-505 | each fee whose removed assignments were its latest gets the paid date from before the first of them, every other one is settled from what is left |
| LedgerStore.Store.DismissReconciliation | server/internal/store/reconciliation.go:411-428 | only an entry without assignments is dismissed |
| LedgerStore.Store.DeleteTransaction | server/internal/store/finance.go:129-138 | deleting a transaction removes its assignments like reopening it |
| LedgerStore.Store.DeleteFee | server/internal/store/finance.go:223-237 | deleting a fee tombstones its assignments with it |
| Ledger.TombstonedLinks | server/internal/store/reconciliation.go:454-488 | removing a transaction takes exactly its links out of the history of every fee |
| Ledger.RemovingUnlinked | server/internal/store/reconciliation.go:454-505 | a fee without live assignments of the transaction is not touched |
| Ledger.RemovingLatest | server/internal/store/reconciliation.go:454-505 | removing the latest link brings back the paid date and the links from before it |
| Ledger.AssignedLinks | server/internal/store/reconciliation.go:370-384 | confirming appends one link to each allocated fee and none to the others |
| LedgerRuns.ConfirmKeepsGood | server/internal/store/reconciliation.go:323-402 | a confirmation keeps every fee within its amount, its paid date as implied by its history, and every transaction within its amount |
| LedgerRuns.UndoneLatest | server/internal/store/reconciliation.go:433-505 | undoing the latest assignment of a fee, by reopening or deleting, gives back exactly what was before |
| LedgerRuns.UndoKeepsGood | server/internal/store/reconciliation.go:433-505 | undoing a transaction that is latest on all its fees keeps the invariants |
| LedgerRuns.UndoRestores | server/internal/store/reconciliation.go:433-505 | undoing a confirmation restores paid dates and links of all fees, whatever happened to transactions meanwhile |
| LedgerRuns.UndoingARunRestoresFees | server/internal/store/reconciliation.go:323-505 | any run of confirmations, undone in reverse by reopening or deleting, gives back every fee |
| LedgerRuns.UndoingARunRestoresSums | server/internal/store/reconciliation.go:279-289 | and with it the paid date and the sum since the last return |
| LedgerRuns.EveryRunIsGood | server/internal/store/reconciliation.go:323-543 | the invariants hold in every state of every run of importing transactions, creating fees, confirming, undoing the latest, dismissing and deleting fees |
| LedgerRuns.GoodMeans | server/internal/store/reconciliation.go:507-543 | payments since the last return never exceed the amount; a fee with assignments is paid exactly when the last one is a payment and the sum reaches the amount, on the date of the latest payment; a transaction never assigns more than its amount |
| LedgerRuns.ReopeningOutOfOrder | server/internal/store/reconciliation.go:433-505 | reopening any transaction of a fee leaves the paid date that the remaining links imply, exactly unless the fee is paid and the payment reopened is its latest by date but has a return behind it: then the fee keeps the date of that payment |
| LedgerRuns.ReopeningMayOverpay | server/internal/store/reconciliation.go:433-505 | when the fee counts as paid after that, and exactly when it is overpaid: the last return was taken back and what it had reversed does not fit with what was paid since |
| LedgerRuns.LatestPaymentTakenOut | server/internal/store/reconciliation.go:514-518 | taking a link out changes the date of the latest payment exactly when it is a payment later than all others |
| LedgerRuns.ReopenedTwice | server/internal/store/reconciliation.go:489-503 | reopening any link of a fee and then its last one gives the fee the paid date from before the last one was made |
| LedgerRuns.PaymentReopenedBeforeItsReturn | server/internal/store/reconciliation.go:489-503 | reopening a payment and then a later return that is the last link: the fee has the paid date its remaining links imply exactly when it was not paid when the return came, or another return lies between the two and the payment was not the latest by date |
| LedgerRuns.FeeKeepsDateOfReopenedPayment | server/internal/store/reconciliation.go:454-543 | three confirmations from a ledger without assignments after which reopening the first leaves the fee with the date of the reopened payment |
| LedgerRuns.FeeStaysPaidWithoutItsPayment | server/internal/store/reconciliation.go:454-543 | three confirmations after which reopening the first and the last leaves the fee paid with 40 of 100 assigned |
| LedgerRuns.DroppingAFeeReopensEntries | server/internal/store/feemodels.go:615-623 | deleting a billing run drops open fees but not what is assigned to them: an entry waits for review again exactly when all its live assignments are to such a fee |
| Matching.Allocate | server/internal/reconcile/match.go:227-249 | the loop fills fees in order until the entry is used up and marks what is left over or only partly paid |
| Matching.FeesByMember | server/internal/reconcile/match.go:100-118 | each member gets exactly its own fees with something to assign, in due order |
| Matching.ExactAmount | server/internal/reconcile/match.go:186-224 | one fee, all fees of the group or all fees of its households that equal the entry |
| Matching.Match | server/internal/reconcile/match.go:96-180 | the whole decision: end-to-end ID, strong hits, full names, surnames |
| Matching.GreedyFills | server/internal/reconcile/match.go:227-249 | every allocation is positive and within its fee, only the last fee may be partly filled, nothing is left unless all are filled, and the parts add up to the entry |
| Matching.FeesForFits | server/internal/reconcile/match.go:251-265 | the fees used for a group are exactly all fees of its members, each once, oldest first (newest first for returns) |
| Matching.ExactFeesFit | server/internal/reconcile/match.go:186-224 | an exact match adds up to the entry and takes distinct fees in due order |
| Matching.SuggestionFits | server/internal/reconcile/match.go:96-249 | every suggestion assigns positive parts of distinct fees, none more than the fee takes, and accounts for the whole entry |
| Matching.CertainPaymentIsExact | server/internal/reconcile/match.go:96-249 | a certain payment suggestion uses up the entry and fills every fee |
| Matching.OldestFirst | server/internal/reconcile/match.go:106-118 | a payment reaches a fee only when all older fees of the member are filled, a return when all newer ones are, unless one fee is the whole entry or is named by the end-to-end ID |
| MatchingTerms.CertainMeans | server/internal/reconcile/match.go:129-174 | a certain suggestion is that of the end-to-end ID of a return, or goes only to members whose number or IBAN is in the entry, or to their households if it says so |
| MatchingTerms.IdDecides | server/internal/reconcile/match.go:125-134 | the end-to-end ID of a return decides alone, for a fee with that ID |
| MatchingTerms.IdentifiedDecide | server/internal/reconcile/match.go:142-168 | a member with fees that is identified by number or IBAN decides: certain if the amounts agree, probable otherwise, with exactly the reasons that apply, never by name |
| MatchingTerms.WholeFeeIsCertain | server/internal/reconcile/match.go:186-203 | one fee of an identified member that is the whole entry makes the suggestion certain |
| MatchingTerms.NamesDecide | server/internal/reconcile/match.go:169-179 | without one a suggestion is by name and at most probable, probable only if those named are one member or one household, and goes to those named or their households |
| MatchingTerms.WholeFeeIsProbable | server/internal/reconcile/match.go:169-176 | if those called by full name are one member or share a household, a fee of theirs that is the whole entry makes the suggestion probable |
| MatchingTerms.NobodyIsSuggested | server/internal/reconcile/match.go:96-180 | with nobody identified or named there is no suggestion |
| CertainLoop.LoadCandidates | server/internal/handlers/reconciliation.go:107-134 | an entry is matched against exactly the live fees with something due, or something paid for a return |
| CertainLoop.CandidatesMean | server/internal/handlers/reconciliation.go:107-134 | these are exactly the live fees of members not deleted, with what is left to pay or what a return may take back, if that is positive |
| CertainLoop.Suggest | server/internal/handlers/reconciliation.go:107-134 | only open entries get a suggestion |
| CertainLoop.FindNext | server/internal/handlers/reconciliation.go:258-275 | the scan finds the oldest entry with a certain suggestion, or that there is none |
| CertainLoop.SuggestionIsConfirmable | server/internal/handlers/reconciliation.go:107-134 | every suggestion passes every check of a confirmation |
| CertainLoop.CertainPaymentSettles | server/internal/handlers/reconciliation.go:107-134 | confirming a certain payment leaves nothing unassigned and every assigned fee paid |
| CertainLoop.ConfirmingClosesOneEntry | server/internal/handlers/reconciliation.go:247-286 | a confirmation closes its own entry and opens or closes no other |
| CertainLoop.ConfirmCertain | server/internal/handlers/reconciliation.go:247-286 | the loop ends, no confirmation in it is ever rejected, each was the oldest certain one when its turn came, and afterwards no entry has a certain suggestion |
| CertainLoop.ConfirmedEntriesWereWaiting | server/internal/store/reconciliation.go:60-70 | every entry a run confirms was listed, imported, not dismissed and without live assignments when the run began |
| CertainLoop.CertainPaymentIsIdentified | server/internal/reconcile/match.go:142-168 | a certain payment is booked only for members whose number or IBAN is in the entry, or for their households |
| CertainLoop.IdentifiedPaymentIsFound | server/internal/handlers/reconciliation.go:247-275 | a waiting payment that has the number or IBAN of a member and is what one fee of it still needs is certain, so the scan finds an entry |
| Events.Expand | server/internal/store/events.go:430-507 | the expansion with its jump ahead and early stop returns the plain series up to the step bound |
| Events.SkippedHasEnded | server/internal/store/events.go:469-488 | whatever the jump skips has ended before the window |
| Events.NothingAfter | server/internal/store/events.go:490-495 | once an occurrence starts behind the window or the until bound, no later one counts |
| Events.DaysIncrease | server/internal/store/events.go:455-468 | start days strictly increase, also over months that are skipped |
| Events.InSeries | server/internal/store/events.go:430-507 | the result holds exactly the occurrences that count and overlap the window |
| Events.SeriesIsOrdered | server/internal/store/events.go:430-507 | in order, and no two start on the same day |
| Events.ExpansionIsComplete | server/internal/store/events.go:490-491 | the series is the same for every greater number of steps if and only if no occurrence behind the bound of 2000 steps counts and overlaps the window |
| Events.StoppingBehindIsComplete | server/internal/store/events.go:490-495 | the check for a caller: nothing is lost if the first step behind the bound starts behind the window or the until bound |
| Events.StepsBehindWindowDecide | server/internal/store/events.go:490-495 | for recurring events nothing is lost if and only if every step behind the bound that counts starts behind the window |
| Events.LongWindowLosesOccurrences | server/internal/store/events.go:490-491 | a weekly event in a window of 501 months loses its occurrence 2000 |
| Events.WithinBoundIsComplete | server/internal/store/events.go:470-491 | nothing is lost while window and span together are under 13987 days for weekly, 27973 for biweekly and 55942 for monthly events, nor ever for single ones |
| Events.FindsStartDays | server/internal/store/events.go:518-525 | an expansion that is complete holds an occurrence starting on a day exactly when the day is a start day of the series and the event is not an instant at the midnight the window opens with |
| Events.StartDaysMean | server/internal/store/events.go:449-468 | the start days: every 7 or 14 days from the first on, or the same day of each month that has it, up to the until bound and not excluded |
| Events.ExpansionMeans | server/internal/store/events.go:430-507 | a complete expansion holds exactly the occurrences with the dates and times that were entered, on each start day from which they reach into the window |
| Events.AllDayEventIsFound | server/internal/store/events.go:433-440 | an all-day event lasts up to its exclusive end, at least one day, and is in every window it shares a day with |
| Events.LookupAgreesWithWindow | server/internal/store/events.go:516-525 | looking up a day and any wider window agree on it exactly unless the event is an instant at midnight, starts on that day and the window opens before it |
| Events.MidnightEventIsMissed | server/internal/store/events.go:516-525 | an event of no length at midnight is in every window that opens earlier and not in that of its own day |
| Events.OccurrenceOn | server/internal/store/events.go:516-525 | finds exactly the start days of the series that are not excluded, except for events without length at midnight |
| Fees.SelectByAge | server/internal/fees/fees.go:76-91 | the loop selects the best fitting model |
| Fees.SelectedMeans | server/internal/fees/fees.go:76-91 | the choice fits, has the least span and among those the first name in the order of the characters |
| Fees.SpanCountsAges | server/internal/fees/fees.go:64-74 | the span counts the ages from 0 to 200 that the model admits |
| Fees.SelectedIsBest | server/internal/fees/fees.go:76-91 | the selected model fits, and no fitting one has a narrower range, or the same range and an earlier name |
| Fees.OrderDoesNotMatter | server/internal/fees/fees.go:76-91 | with distinct names the order of the models does not matter |
| Fees.OrderMattersOnlyForTies | server/internal/fees/fees.go:76-91 | in any order the choice has the same span and name |
| Fees.TiesDependOnOrder | server/internal/fees/fees.go:76-91 | some order of the models gives another choice if and only if two different models both fit and are beaten by no fitting one |
| Fees.BestModelsTie | server/internal/fees/fees.go:76-91 | of two such models span and name are equal |
| Fees.TiedModels | server/internal/fees/fees.go:76-91 | two models of one name for the same ages: each order selects another amount |
| Fees.ListPeriods | server/internal/fees/fees.go:138-154 | stepping from the start of the year gives the aligned periods that start in the range |
| Fees.PeriodsAreAligned | server/internal/fees/fees.go:138-154 | the periods are exactly the aligned ones starting in the range |
| Fees.PeriodsAreContiguous | server/internal/fees/fees.go:138-154 | each starts on the day after the one before |
| Fees.PeriodsAreDisjoint | server/internal/fees/fees.go:109-110 | so no two overlap |
| Fees.ActiveMonths | server/internal/fees/fees.go:173-183 | counts the months of the period with at least one day of membership |
| Fees.ActiveMeansMonths | server/internal/fees/fees.go:164-183 | a member is active in a period exactly when a month counts, unless the month of entry is after the last month before the exit |
| Fees.EntryBeforeExit | server/internal/fees/fees.go:164-183 | entering before leaving is enough for the two to agree |
| Fees.ShareIsRounded | server/internal/fees/fees.go:185-201 | the share is between nothing and the amount and within half a cent of the exact share |
| Fees.MoreMonthsCostMore | server/internal/fees/fees.go:185-201 | more active months never cost less |
| Fees.QuotientDropsFraction | server/internal/fees/fees.go:185-201 | integer division drops the fraction on either side of zero |
| Fees.SharesAddUp | server/internal/fees/fees.go:185-201 | complementary shares add up to the amount, or to one cent more exactly when both end in half a cent |
| Billing.PlanFeeRun | server/internal/store/feemodels.go:392-466 | the loop over the members collects the plan of each |
| Billing.ChargePeriods | server/internal/store/feemodels.go:449-463 | periods are charged in order unless they overlap one that is taken |
| Billing.FindPeriods | server/internal/store/feemodels.go:410-436 | the candidates are the periods of each model in which the member is active and that model applies |
| BillingRuns.MemberPeriodsAreDisjoint | server/internal/store/feemodels.go:276-303 | the candidate periods of a member never overlap, even with models of different intervals, as one model applies per year and no period crosses a year |
| BillingRuns.TakenFromEarlierCharges | server/internal/store/feemodels.go:449-463 | so candidates never take periods from each other |
| BillingRuns.PlannedSkipsHaveReasons | server/internal/store/feemodels.go:451-455 | every skip as charged overlaps a charge from before the plan |
| BillingRuns.PlannedItemsFit | server/internal/store/feemodels.go:392-466 | planned items overlap neither earlier charges nor each other |
| BillingRuns.PlanCoversPeriods | server/internal/store/feemodels.go:392-466 | every period due to a member is planned or overlaps an earlier charge |
| BillingRuns.PlannedExactly | server/internal/store/feemodels.go:392-466 | and never both: a due period is planned if and only if no earlier charge of the member overlaps it |
| BillingTerms.DueMeans | server/internal/store/feemodels.go:392-436 | the periods considered for a member are exactly the calendar periods that start in the range, in which the member belongs to the club, of the model that is assigned or selected by the age on 1 January of the year |
| BillingTerms.AgeMeans | server/internal/fees/fees.go:93-100 | an age is how often the birthday has come |
| BillingTerms.DuePeriodIsPlanned | server/internal/store/feemodels.go:449-463 | a due period is planned if and only if no earlier charge of the member shares a day with it |
| BillingTerms.PlannedItemsAreRight | server/internal/store/feemodels.go:449-466 | every item is a due period with the full amount, or for pro-rata models the share of the months of membership rounded half up, due on the later of the run date and the start of the period |
| BillingTerms.RowsOfRun | server/internal/store/feemodels.go:499-533 | each item is stored as an unpaid fee and a charge with its member, amount, due date, model and period |
| BillingTerms.CreatedFeesAreRight | server/internal/store/feemodels.go:499-533 | of a run that is created every new fee is right for its member, and no earlier fee changes |
| BillingRuns.SamePlanMeansSameOverlaps | server/internal/store/feemodels.go:392-466 | two books give the same plan if and only if their charges overlap the same of the periods that are due |
| BillingRuns.CreateKeepsGood | server/internal/store/feemodels.go:499-533 | creating a run keeps the charges of every member disjoint |
| BillingRuns.EveryRunIsGood | server/internal/store/feemodels.go:499-637 | over every run of creating and deleting billing runs, deleting and changing fees no member is charged twice for a day |
| BillingRuns.RepeatedRunCreatesNothing | server/internal/store/feemodels.go:499-533 | repeating a billing run on unchanged members and models plans nothing, in all later books in which the charges of the run and those before it are still live |
| BillingRuns.NothingPlannedMeansAllCharged | server/internal/store/feemodels.go:392-466 | in any books: nothing is planned if and only if every period that is due is overlapped by a live charge of its member |
| BillingRuns.RunRepeatedLaterCreatesNothing | server/internal/store/feemodels.go:499-637 | so over every run of steps after the creation |
| BillingRuns.DeletedRunCanBeRepeated | server/internal/store/feemodels.go:575-637 | deleting a fully open run in any later books and planning it again gives the plan it was created from, if the charges from before it are still live |
| BillingRuns.DeletedRunIsPlannedAgain | server/internal/store/feemodels.go:575-637 | and if some of those were deleted: every period of the run is planned again, and a period skipped then is planned exactly when no live charge overlaps it any more |
| BillingRuns.RunDeletedLaterCanBeRepeated | server/internal/store/feemodels.go:499-637 | over every run of steps between creation and deletion: all fees of the run go, the run with them, and the plan is the same again |
| BillingStore.Store.LoadCharged | server/internal/store/feemodels.go:478-495 | collects per member exactly the periods of live charges of live fees |
| BillingTerms.ChargedPeriodsMean | server/internal/store/feemodels.go:478-497 | a period counts as charged exactly if neither the charge nor its fee is deleted |
| BillingStore.Store.CreateFeeRun | server/internal/store/feemodels.go:499-533 | an empty plan is refused without a change; otherwise the run, its fees and charges are added with new ids in the order of the plan |
| BillingStore.Store.DeleteFeeRun | server/internal/store/feemodels.go:578-637 | refused for unknown runs and open fees in collection; otherwise exactly the open fees go, the run with them when nothing is left, and their number is reported |
| BillingTerms.DeletedRunMeans | server/internal/store/feemodels.go:578-637 | deleting a run deletes exactly its live unpaid fees and their charges; paid ones stay, and all else is as it was |
| BillingTerms.RunIsDeletedWithItsFees | server/internal/store/feemodels.go:625-634 | the run itself goes unless a paid live fee of it stays |
| BillingTerms.OpenFeesMean | server/internal/store/feemodels.go:585-598 | deletion is refused exactly if a live unpaid fee of the run is being collected |
| BillingStore.Store.DeleteFee | server/internal/store/finance.go:223-237 | a deleted fee takes its charge with it |
| ReceiptBook.NumbersHaveNoGaps | server/internal/store/donations.go:696-700 | the originals of a year are numbered 1 to n without gaps |
| ReceiptBook.NumbersIncrease | server/internal/store/donations.go:696-700 | and no number is used twice, also after voiding |
| ReceiptBook.MaxSequenceCounts | server/internal/store/donations.go:696-700 | the highest sequence of a year is the number of its originals: duplicates do not count |
| ReceiptBook.RepeatingMeansSameReceipt | server/internal/store/donations.go:678-691 | the test by certificate and count finds exactly the one receipt with the same items |
| ReceiptTerms.NewReceiptMeans | server/internal/store/donations.go:635-744 | a new receipt is for the member or donor of the request and certifies exactly the entries asked for: donations of that party, or paid fees if they are deductible, all of the year of the receipt, with their kinds, days, amounts and sum |
| ReceiptTerms.RepeatedReceiptMeans | server/internal/store/donations.go:678-691 | otherwise it repeats the number, party, total, period and items of the one receipt of exactly the references |
| ReceiptTerms.InvalidMeans | server/internal/store/donations.go:659-672 | the references an error calls invalid are exactly those named before or not to be certified to the party in the year |
| ReceiptTerms.ItemYearMeans | server/internal/store/donations.go:756-771 | the year is that of the first reference with an entry |
| ReceiptBook.NothingRepeats | server/internal/store/donations.go:678-691 | a request for uncertified items repeats no receipt |
| ReceiptBook.CreatingKeepsGood | server/internal/store/donations.go:635-744 | a request keeps numbering, certificates and duplicates in order |
| ReceiptBook.VoidKeepsGood | server/internal/store/donations.go:825-845 | a voided original has no unvoided duplicate |
| ReceiptBook.EveryRunIsGood | server/internal/store/donations.go:602-845 | over every run an item is on at most one unvoided original, originals are numbered without gaps, duplicates point to originals and repeat their items and total |
| ReceiptBook.Book.CreateReceipts | server/internal/store/donations.go:598-633 | all requests are done in order, each on what the ones before it left, or none |
| ReceiptBook.Book.CreateReceipt | server/internal/store/donations.go:635-744 | a duplicate exactly of the receipt with these items, or a new receipt for items that are on none; otherwise the error names the invalid and the certified items |
| ReceiptBook.Book.CheckItems | server/internal/store/donations.go:655-677 | sorts the references into invalid and already certified ones |
| ReceiptBook.Book.IsSameReceipt | server/internal/store/donations.go:746-754 | all items are certified by one receipt |
| ReceiptBook.Book.SumUp | server/internal/store/donations.go:705-719 | total, first and last day of the items |
| ReceiptBook.Book.Duplicate | server/internal/store/donations.go:771-821 | repeats the original, also of a duplicate, unless it is voided |
| ReceiptBook.Book.VoidReceipt | server/internal/store/donations.go:825-845 | voids a receipt and its duplicates, once |
| OneEdit.WithinOneEdit | server/internal/reconcile/match.go:360-384 | the two-index scan is true exactly when the edit distance is at most one, for all strings |
| OneEdit.Similar | server/internal/reconcile/match.go:347-358 | equal words, or words of at least five bytes at most one edit apart |
| OneEdit.WithinOneMeansOneApart | server/internal/reconcile/match.go:360-384 | distance at most one means equal, or equal once one byte is left out of both or of the longer one |
| Attendance.Client.Enqueue | frontend/src/api/attendance.ts:119-131 | the loops merge a change into the queue |
| Attendance.EnqueuedStatus | frontend/src/api/attendance.ts:119-131 | the newest status of a member at an occurrence wins, all others stay, and no member is queued twice |
| Attendance.Client.Acknowledge | frontend/src/api/attendance.ts:183-188 | the rewriting of the queue after a change was sent |
| Attendance.AcknowledgedStatus | frontend/src/api/attendance.ts:183-188 | exactly the statuses that were sent as they still are leave the queue |
| Attendance.Client.StartFlush | frontend/src/api/attendance.ts:161-173 | one flush at a time, over the queue as it is when the flush starts |
| Attendance.Client.Resume | frontend/src/api/attendance.ts:174-194 | after each answer: accepted and rejected changes are taken off the queue, any other failure ends the flush |
| AttendanceRuns.NothingIsLost | frontend/src/api/attendance.ts:86-194 | over every run of saves, flushes, requests and answers in which neither a save nor a request given up writes the member past the queue: the last saved status is still queued, or on the server, or was refused |
| AttendanceRuns.FateIsMet | frontend/src/api/attendance.ts:86-194 | from any state, whatever was saved in which way: what the server ends up with for a member once the queue has let go of it without a refusal and without a late request |
| AttendanceRuns.DirectSaveIsKept | frontend/src/api/attendance.ts:149-159 | without refusals of the older status and late requests, a save that goes straight to the server is what it ends up with exactly when the queue held no other status of the member, or that one was in flight, applied, and is accepted by the next answer; else the older status overwrites it |
| AttendanceRuns.QueuedSaveIsKept | frontend/src/api/attendance.ts:149-194 | likewise a queued save is kept exactly unless the same status was applied in flight, another one reached the server since, and the next answer accepts the first |
| AttendanceRuns.SaveInAnyRun | frontend/src/api/attendance.ts:86-194 | a save in any run, also with refusals and with requests applied after they were given up: the server ends up with it exactly when what it last wrote of the member is that status, and all it may write was queued, still to be sent or given up when the save was made |
| AttendanceRuns.ServerHoldsLastWrite | frontend/src/api/attendance.ts:86-194 | the server holds the last status it wrote |
| AttendanceRuns.OnlyUnderWayIsWritten | frontend/src/api/attendance.ts:86-194 | without a save of the member it writes only what was under way |
| AttendanceRuns.OverwrittenSave | frontend/src/api/attendance.ts:149-194 | five steps after which the server holds an older status than the one saved last |
| AttendanceRuns.ForgottenSave | frontend/src/api/attendance.ts:149-194 | six steps after which a queued save is gone and the server holds another status |
| AttendanceRuns.FlushDelivers | frontend/src/api/attendance.ts:168-194 | from any state without a running flush, a flush whose requests are all accepted empties the queue and leaves every queued status on the server |
| AttendanceRuns.GivenUpOnce | frontend/src/api/attendance.ts:174-183 | a request given up may still reach the server later unless it already has |
| AttendanceRuns.SaveInQueue | frontend/src/api/attendance.ts:119-131 | queueing by the client is the step of the runs |
| AttendanceRuns.BeginFlush | frontend/src/api/attendance.ts:161-173 | so is starting a flush, and the request sent is the change in flight |
| AttendanceRuns.GoOn | frontend/src/api/attendance.ts:174-194 | so is going on after an answer |
| Ical.EscapeRoundTrip | server/internal/ical/ical.go:74-78 | unescaping an escaped text gives it back with every kind of line break as one newline |
| Ical.EscapedHasNoBreaks | server/internal/ical/ical.go:74-78 | an escaped text has no line breaks left |
| Ical.SeparatorsAreGuarded | server/internal/ical/ical.go:74-78 | in an escaped text no semicolon, comma or line break stands without a backslash in front |
| Ical.ListRoundTrip | server/internal/ical/ical.go:57-63 | a reader that splits a category list at unescaped commas gets each escaped category back |
| Ical.Fold | server/internal/ical/ical.go:80-100 | the loop writes the pieces joined by line breaks and spaces, or never ends |
| Ical.FoldingEnds | server/internal/ical/ical.go:80-100 | folding ends exactly unless a start byte is followed by 74 continuation bytes, or the second to 76th byte are all continuation bytes |
| Ical.NeverEndsOn | server/internal/ical/ical.go:80-100 | it does not end on a letter followed by 75 or more bytes 0x80 |
| Ical.Utf8Folds | server/internal/ical/ical.go:80-100 | valid UTF-8 always folds, into pieces that fit and cut no character |
| Ical.EncodedIsUtf8 | server/internal/ical/ical.go:80-100 | every text of code points is valid UTF-8 when it is encoded |
| Ical.PiecesAreTheLine | server/internal/ical/ical.go:80-100 | the pieces put together are the line |
| IcalWriter.Builder.Line | server/internal/ical/ical.go:27-30 | a content line is written folded and ended |
| IcalWriter.Calendar | server/internal/ical/ical.go:23-68 | the output is that of all logical lines in order |
| IcalWriter.ReaderFindsLines | server/internal/ical/ical.go:23-68 | unfolding the output and splitting it gives exactly the logical lines |
| IcalWriter.PhysicalLinesFit | server/internal/ical/ical.go:80-100 | every physical line has at most 75 octets and is valid UTF-8 |
| IcalWriter.CalendarIsReadable | server/internal/ical/ical.go:23-100 | for valid texts the calendar is finished, all its lines fit, and a reader gets the logical lines |
| IcalReader.EventsRoundTrip | server/internal/ical/ical.go:23-100 | and from them every event in order, with its times, and with its texts and categories up to the kind of line break |
| Mod97.BigRemainder | server/internal/sepa/validate.go:79-99 | the remainder of the expanded number; -1 for other characters and for empty text |
| Mod97.CodesAreInOrder | server/internal/sepa/validate.go:79-99 | digits stand for themselves, A to Z for 10 to 35 |
| Mod97.FoldedRemainder | frontend/src/api/sepa.ts:125-127 | folding digit by digit gives the remainder of the whole number |
| Mod97.RemainderIsRest | server/internal/sepa/validate.go:79-99 | stepping character by character gives the remainder of the big number |
| Mod97.RestIsInjective | server/internal/sepa/validate.go:79-99 | different remainders stay different whatever follows |
| Mod97.ReplacementIsNoticed | server/internal/sepa/validate.go:79-99 | replacing one character by another of its class changes the remainder |
| Mod97.PowerIsOne | server/internal/sepa/validate.go:79-99 | a power of 10 is 1 modulo 97 exactly when 96 divides the exponent |
| Mod97.SwapIsNoticed | server/internal/sepa/validate.go:79-99 | swapping two different characters of one class, wherever they stand, changes the remainder exactly when the places from behind the first to the second are no multiple of 96 |
| Iban.IsValidIban | frontend/src/api/sepa.ts:120-128 | format and check digits |
| Iban.ValidIBAN | server/internal/sepa/validate.go:34-46 | the check of the frontend and the length of the country |
| Iban.IbanFormatMeans | server/internal/sepa/validate.go:18 | well-formed are two capitals, two digits and 11 to 30 capitals or digits |
| Iban.OneLengthPerCountry | server/internal/sepa/validate.go:34-38 | IBANs of one country are equally long |
| Iban.MistypedIbanFails | server/internal/sepa/validate.go:34-46 | an IBAN with one wrong character of the right class is never valid |
| Iban.SwappedIbanFails | server/internal/sepa/validate.go:34-46 | nor one with any two different characters of one class swapped, neighbours or not |
| Iban.ValidCreditorID | server/internal/sepa/validate.go:61-69 | format and check digits; the business code does not matter |
| Iban.CreditorFormatMeans | server/internal/sepa/validate.go:54-69 | well-formed are two capitals, two digits, a business code of three and 1 to 28 more capitals or digits |
| Iban.MistypedCreditorID | server/internal/sepa/validate.go:61-69 | one wrong character of the right class passes exactly if it is in the business code |
| Iban.SwappedCreditorID | server/internal/sepa/validate.go:61-69 | two different characters of one class swapped pass exactly if both are in the business code |
| RefreshTokens.TokenTable.CreateRefreshToken | server/internal/store/refreshtokens.go:30-50 | expired tokens go and the new one comes, or nothing changes when the hash is taken |
| RefreshTokens.TokenTable.GetRefreshToken | server/internal/store/refreshtokens.go:46-64 | finds the token with the hash, replaced or not, or that there is none |
| RefreshTokens.TokenTable.RotateRefreshToken | server/internal/store/refreshtokens.go:69-82 | a token is marked and succeeded in one step, only if it was neither replaced nor revoked |
| RefreshTokens.TokenTable.FinishRefresh | server/internal/handlers/refresh.go:173-217 | what a request does with the token it has read: revoke the login, tolerate, or renew |
| RefreshRuns.RefreshMeans | server/internal/handlers/refresh.go:173-217 | in any run: a token expired, replaced more than 30 seconds ago or of a changed account takes the tokens of its login away, a token not yet replaced is renewed for twelve hours, anything else changes nothing |
| RefreshRuns.NeverTwoUnused | server/internal/store/refreshtokens.go:66-82 | however logins, refreshes and revocations interleave, a login never has two tokens still to be used |
| RefreshRuns.EndedStaysEnded | server/internal/store/refreshtokens.go:85-94 | a login without tokens never gets one again |
| RefreshRuns.RevokingEndsTheLogin | server/internal/handlers/refresh.go:180-196 | an expired token, one replaced too long ago or a changed account end the login for good, whatever other requests have read |
| RefreshRuns.RevocationEndsLogins | server/internal/store/refreshtokens.go:90-94 | revoking an address or an account ends all its logins for good and keeps all others |
| RefreshRuns.LogoutEndsTheLogin | server/internal/store/refreshtokens.go:84-88 | a logout ends its login for good and no other one |
| RefreshRuns.OnlyOneRotates | server/internal/store/refreshtokens.go:66-82 | of all requests that read a token at most one renews it |
| Words.SpelledRoundTrip | server/internal/donation/donation.go:130-179 | a reader gets every number back from its words |
| Words.AmountRoundTrip | server/internal/donation/donation.go:181-199 | and every amount |
| Words.WordsNameOneAmount | server/internal/donation/donation.go:181-199 | so no two amounts are spelled alike |
| Words.OnesAreGerman | server/internal/donation/donation.go:124-126 | the words for 0 to 19 |
| Words.TensAndOnes | server/internal/donation/donation.go:142-145 | ones come in front of tens, joined by "und" |
| Words.HundredsAndMore | server/internal/donation/donation.go:132-145 | hundreds in front of the rest, with the "s" of a final one |
| Words.ThousandsAndMore | server/internal/donation/donation.go:165-175 | thousands in front of the rest, without the "s" of a one before them |
| Words.MillionsAndMore | server/internal/donation/donation.go:156-164 | millions are words of their own, and one is "eine Million" |
| Words.AmountsAreGerman | server/internal/donation/donation.go:181-199 | cents are named only when there are any, and one euro or cent is "ein" |

## Left out

- SQL text, drivers, migrations and the sync writer: writes are plain updates of maps and sequences.
- HTTP handlers, JSON, access checks, user interface and translations.
- Cryptography: hashes of tokens are numbers, session validation is an input.
- Daylight saving gaps and time zones: events are expanded on local wall-clock times.
- Name normalisation, transliteration, member numbers in texts and XML parsing: their results are inputs.
- Manual edits of fee amounts and paid dates: amounts are fixed, paid dates change by confirming and undoing only.
- Formatting of receipt numbers, dates, issuers and addresses.
- Removing spaces and upper-casing of IBANs as typed: the checks start from normalised text.
- 64-bit overflow of cent amounts and month products: integers are unbounded.
- Fees.OrderDoesNotMatter: needs distinct names; `Fees.TiesDependOnOrder` has the exact condition.
- BillingRuns.RepeatedRunCreatesNothing: needs the charges after the run to be still live; `BillingRuns.NothingPlannedMeansAllCharged` has the exact condition.
- Events.LookupAgreesWithWindow: needs both expansions to be complete, which `Events.StoppingBehindIsComplete` checks.
- LedgerRuns.UndoKeepsGood: covers undoing the latest assignments only; `LedgerRuns.ReopeningOutOfOrder` and `LedgerRuns.ReopeningMayOverpay` say when the invariants fail otherwise.
- AttendanceRuns.NothingIsLost: leaves out saves that pass by the queue; `AttendanceRuns.DirectSaveIsKept` has these.
- AttendanceRuns.FateIsMet: leaves out refusals of the queued status and requests applied late; `AttendanceRuns.SaveInAnyRun` has these.
- Attendance.Client.Enqueue: does not model a browser without local storage, where the change is lost.
- Replica.Device.Apply: does not model the error of setting a required column of an existing row to NULL, nor the scopes a retry is limited to.
- Replica.OrderDoesNotMatter: needs a clock of a field to stand for one value, as devices never use one twice.
- Replica.ReferencesExist: needs columns that refer to rows to have no default, as none in the database schema has.
- Replica.RequiredColumnsAreSet: needs changes that set no required column to NULL, which the database would refuse.
- RefreshRuns.OnlyOneRotates: does not say which access tokens are issued.
- Words.AmountRoundTrip: negative amounts are not spelled by the program's callers.
- Settings, donors, statistics, jubilees, members, inventory, tasks and qualifications: easy.
