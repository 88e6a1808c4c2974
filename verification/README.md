# A restaurant till: money, dispatch and durable protocols

This project models the parts of the till where a mistake costs money or loses evidence, and proves what they promise over every input, every run and every interleaving. Each component has four layers:

* specification functions that compute what one transaction or one step does, with the source's branches, guards and constants;
* definitions of the same results row by row and exact outcomes - when an operation succeeds and all it leaves - that do not use those functions, and the equalities between both;
* theorems about them - invariants over whole runs, refinements, round trips, conservation - and, where a promise is false as stated, the exact condition under which it holds and a run that breaks it;
* a class whose methods work the way the source does, on fields and in loops, each proved against its specification function.

The components are:

1. **Courier money ledger** (`PaymentRows`, `PaymentFold`, `PaymentTransactions`, `PaymentSafety`, `PaymentRuns`, `PaymentReplay`, `PaymentCallbacks`, `PaymentUnique`, `PaymentBranches`, `PaymentMeaning`, `PaymentOutcomes`, class `CourierLedger`). Till rows, synced external rows and courier rows fold into one bounded total. Transactions are functions on the committed tables, because locks make them serial.
2. **Settlement windows** (`SettlementRows`, `SettlementTheorems`, `SettlementRuns`, `SettlementRefunds`, `SettlementLedger`, `SettlementLate`, `SettlementMeaning`, class `CourierBooks`). A courier's ledger is cut into half-open windows that must add up over a whole run, with refunds attributed to the courier.
3. **Dispatch** (`Dispatch`, `DispatchOutcomes`, `DispatchThreads`, class `CourierDispatch`). The six transactions are functions, and also threads that lock, read and commit statement by statement.
4. **Append-only evidence log** (`EvidenceFiles`, `EvidenceCursors`, `EvidenceDelivery`, `EvidenceCache`, `EvidenceLines`, `EvidenceChain`, `EvidenceStale`, `EvidenceMeaning`, `EvidenceSegments`, `EvidenceStorage`, class `OrderAuditCollector`) and its **capture queue** (`CaptureQueue`).
5. **Rotating credentials** (`Tokens`, `TokenFamilies`, `TokenRuns`, `TokenOutcomes`, class `CourierTokens`): the refresh-token scheme of section 4.14.2 of RFC 9700.
6. **Shift-close acknowledgement** (`ShiftClose`, `ShiftCloseRuns`, `ShiftCloseThreads`, `ShiftCloseMeaning`, class `ShiftCloseTracker`).
7. **Message outbox and keyset scan** (`Outbox`, `OutboxRuns`, `OutboxOutcomes`, class `LocalOutbox`).
8. **Configuration file** (`JsonString`, `EnvValue`, `EnvFile`, `EnvBreaks`, `EnvRoundTrip`, `EnvReading`, class `DesktopConfig`) and the **identity migration** (`KeyMigration`). Strings follow section 7 of RFC 8259.

Money is an integer, stamps are integers read from a clock that each theorem constrains as far as it needs, text is a sequence of code points, and a file is a sequence of bytes. SHA-256 and the JSON reader are function parameters. Random values are parameters; where a database constraint would reject a collision, the model rolls back.

## What turned out false, and exactly when it holds

* A synced mirror row stores the branch without outer blanks, while the fold compares the raw branch text (`couriers/payments.py:55-99`, `177-282`). A collection leaves its order readable exactly when the branch text has no outer blanks (`CollectReadableIff`); otherwise the first accepted collection - and there can be one (`UncleanCreateIsAccepted`) - makes the order unreadable for good, so nothing more is accepted on it and its header is never derived again (`UncleanBranchLocks`). The money bound itself holds on every branch for rows under the text their writers store (`NeverOverCollected`). An order within its total can be pushed past it exactly when it holds a collection mirrored under another branch text whose amount does not fit once more (`OverflowsIff`); no transaction writes such a row (`CountsAgainIsForeign`).
* A provider refund recorded after a cancellation may take the same money again (`LaterRefundTakesTwice`). The courier's net stays at or above nothing exactly when such refunds fit what the cancellation left (`NetNeverNegativeIff`).
* A settled window does not always stay as it was settled: nothing stops a collection on an order whose cancellation was already refunded (`LateCollectionIsAccepted`). A later collection changes the reconciliation of a window that has ended exactly when the window holds a live cancellation of its order with room left in the collection's bucket (`SettledWindowMovesIff`).
* An acknowledgement that arrives after a rotation keeps the cursors true exactly when its segment was not read from the file that was rotated (`AckAfterRotationIsTrueIff`); a crash between the rename and the index flush keeps them true exactly when nobody had acknowledged anything of that file (`CrashedRotationIsTrueIff`). The delivery theorem excludes both: a rotation waits for such segments, and the rename is not separated from the flush.
* The evidence chain forks when a crash leaves a whole record without its newline (`WholeTornRecordForks`), and the two recovery readers disagree exactly on a JSON line that is not an object, unless an object of the wrong shape stops both (`RecoveryRefinesRebuild`). When all evidence is gone, a restart leaves a stale index behind, which a crash inside a rotation can bring about (`StaleIsReached`). Records appended beside it and not yet flushed are forgotten by a restart up to the one that ends at the stale length, if one does (`EarlyAppendsAreForgotten`), and the chain forks exactly when that is the last one and the stale hash is not its own (`EarlyAppendsForkIff`).
* A conflict of a closed shift is not sticky, although `desktop/shift_close_sync.py:395-396` says so: one outage makes it pending (`ConflictStaysIff`), and one refresh can take a contradicted acknowledgement through a conflict to pending or to a new acknowledgement (`ContradictedAckBecomes`).
* The scan reads an old cursor raised to the enable watermark but with its key unchanged, which hides exactly the events at the watermark whose key is not above that key (`RaisedHidesIff`).
* A refresh of the shift tracker writes from a copy it read at its beginning, so it overwrites what a save signal stored in between (`desktop/shift_close_sync.py:655-721`). A clear status is sound for the closes as the refresh discovered them (`ClearIsSoundAnywhere`), not for a digest that a signal brought meanwhile. A save signal reads its row and writes it later, without a lock in between; it undoes an acknowledgement exactly when it had not read one of its own whole bundle (`StoreKeepsAckIff`, `LateSignalUndoesAck`).
* A re-save of a confirmed event queues it again exactly when the stamp in its event key moved - the payment action or paid time of an order, the end time of a shift - or its row has passed retention (`ResaveSendsAgainIff`).
* The configuration guard refuses two line-ending characters of ten; a written file reads back exactly when no printed value holds any of them (`ReadsBackIff`, `VerticalTabIsLost`).

## Model

| member | source | states |
|---|---|---|
| PaymentFold.EvidenceBounds | couriers/payments.py:177-282 | readable evidence lies between zero and the amount due; money always has a concrete tender and a stamp |
| PaymentMeaning.EvidenceIs | couriers/payments.py:177-282 | the evidence of a readable order by its rows alone: the total is the lesser of what is due and the sum of till non-cash, synced, unmirrored and till cash money; a tender is in it exactly when a counted row carries it or cash is applied; the stamp is the latest of all |
| PaymentMeaning.ReadableIff | couriers/payments.py:177-282 | readable exactly when each counted row is of the order's branch, in a concrete tender and not negative, and the money outside the drawer fits |
| PaymentMeaning.RoomIff | couriers/payments.py:285-301 | a collection fits exactly when the order is readable, has something due, is not paid without a row, and the amount is within what those sums leave |
| PaymentMeaning.HeaderIs | couriers/payments.py:304-352 | the whole header after a derivation: paid from the latest stamp, in the only contributing tender or mixed, accounted once, exactly when those sums cover a positive total |
| PaymentMeaning.CashCovers | couriers/payments.py:268-352 | till cash that covers a positive total marks a readable order paid and leaves no room |
| PaymentFold.EvidenceReadable | couriers/payments.py:177-282 | the fold succeeds exactly when every row of the order is well formed and the non-drawer money fits the total |
| PaymentFold.MirrorMoves | couriers/payments.py:102-158 | adding a missing mirror row moves money between two sources and changes no order's collections |
| PaymentFold.MirrorNeverCountsTwice | couriers/payments.py:177-282 | the whole evidence is unchanged by the mirror row exactly when the branch has no outer blanks |
| PaymentSafety.HeaderIsEvidence | couriers/payments.py:304-352 | paid only over evidence that covers a positive total, never cleared, stamped once, MIXED unless one tender contributes; unreadable evidence changes nothing |
| PaymentSafety.RecomputeTwice | couriers/payments.py:304-352 | re-deriving the header twice is deriving it once, whatever the second clock says |
| PaymentSafety.RepairKeepsEvidence | couriers/payments.py:102-158 | writing the evidence of a collection that already counts changes no healthy order's evidence |
| PaymentSafety.CollectKeepsHealth | couriers/payments.py:285-301 | collecting within capacity and writing the evidence keeps every healthy order readable and within its total |
| PaymentRuns.ApplyKeeps | couriers/payments.py:440-774 | one create, refund or callback keeps the constraints, the totals, the readability of every healthy order and, on every branch, the collection bound |
| PaymentRuns.NeverOverCollected | couriers/payments.py:285-301 | through every run and on every branch, till non-cash plus synced plus unmirrored courier money stays within the fixed total; readable orders on clean branches stay readable |
| PaymentBranches.CollectReadableIff | couriers/payments.py:55-158 | a collection within capacity leaves its order readable exactly when the branch text has no outer blanks |
| PaymentBranches.UncleanBranchLocks | couriers/payments.py:177-352 | after an accepted create on such a branch, in every later state evidence is unreadable, capacity is refused and the header stays |
| PaymentBranches.UncleanCreateIsAccepted | couriers/payments.py:440-599 | the witness: on every such branch a create for a fresh order is accepted and leaves its evidence unreadable |
| PaymentBranches.OverflowsIff | couriers/payments.py:102-158 | some transaction pushes an order past its total exactly when it holds a collection mirrored under another branch text that does not fit once more |
| PaymentBranches.CountsAgainIsForeign | couriers/payments.py:55-99 | such a row is not one the evidence writer stores; on a readable order it stands under the raw text of an unclean branch |
| PaymentBranches.RawBranchCountsTwice | couriers/payments.py:102-158 | the smallest such table: a late callback makes 200 stand against 100 |
| PaymentReplay.CreateRecords | couriers/payments.py:440-599 | a successful create leaves row, evidence and header recorded under the requested identity and announces exactly a new collection |
| PaymentReplay.CollectOnce | couriers/payments.py:388-413 | the same request again, keyed or keyless, also after refunds, answers with the same row and changes no table |
| PaymentReplay.LostRaceIsSerial | couriers/payments.py:559-586 | a create that loses the race for its key is refused, changes nothing and answers as if it had come after the winner |
| PaymentReplay.RefusalKeepsRows | couriers/payments.py:388-399 | a refused create changes no payment, evidence or refund row |
| PaymentReplay.NewIsAccepted | couriers/payments.py:440-599 | a request that is no replay, names a free key and fits the capacity is accepted and appends the one paid row |
| PaymentOutcomes.EnsureComes | couriers/payments.py:55-158 | a collection can be recorded exactly when branch, key, provider and amount allow it and no other row stands under its key; then it is recorded once, field by field |
| PaymentOutcomes.NewCreateComes | couriers/payments.py:440-599 | a request under a new key succeeds exactly when it fits and can be recorded; the rows and the header it then leaves, and that nothing changes otherwise |
| PaymentOutcomes.ReplayComes | couriers/payments.py:388-558 | a request under a known key: refused without a change if it differs in any part, and otherwise what it does for each status of the row |
| PaymentOutcomes.InadmissibleIsRefused | couriers/payments.py:440-475 | a request without a known provider, positive amount, delivery, branch or its own courier changes nothing |
| PaymentOutcomes.MigratedKeyIsServiceKey | couriers/payments.py:402-413 | the migration gives a historical row the key that the service gives its event |
| PaymentCallbacks.DeliverIsWebhook | couriers/payments.py:651-774 | a callback on an existing payment is its delivery to that payment |
| PaymentCallbacks.DeliverSettles | couriers/payments.py:651-774 | an accepted terminal word settles the payment and, when paid, records evidence and header |
| PaymentCallbacks.PaidAnswersRefund | couriers/payments.py:602-648 | a recorded payment answers only its first accepted refund word and nothing else changes it |
| PaymentCallbacks.DeadIgnores | couriers/payments.py:651-774 | a failed payment, or one in an unknown status, ignores every later word |
| PaymentCallbacks.CollectedHears | couriers/payments.py:602-722 | a word to a paid or refunded payment leaves its evidence, and its refund only if it stood as paid |
| PaymentCallbacks.CallbacksInAnyOrder | couriers/payments.py:651-774 | for any callback list and any starting status the rows end as a closed form: of the first accepted word and the first refund word after it, or of the first repair and refund of a collected payment |
| PaymentCallbacks.OnlyTheDecisionMatters | couriers/payments.py:651-774 | two histories with the same decision leave the same rows, from any status, whatever else they contain in whatever order |
| PaymentCallbacks.DecisionFixesAll | couriers/payments.py:651-774 | once a pending payment is decided on a clean branch, the decision fixes the whole tables, the order header included |
| PaymentCallbacks.RepeatAddsNothing | couriers/payments.py:602-774 | delivering a callback again adds nothing at any point of any history, from any status |
| PaymentOutcomes.WebhookComes | couriers/payments.py:651-774 | which payment a callback means, by number or by key, and what each word does about one or about none |
| PaymentOutcomes.PaidWordComes | couriers/payments.py:668-737 | exactly when a paid word collects, repairs, is ignored or is refused, and all it leaves |
| PaymentOutcomes.FailWordComes | couriers/payments.py:755-772 | a failure word fails a pending payment and no other |
| PaymentOutcomes.RefundComes | couriers/payments.py:602-648 | exactly when a refund is made, and its row: the whole amount, in the bucket of its provider, none from the drawer |
| PaymentUnique.OneRowThroughout | couriers/payments.py:102-158 | through every run a key has at most one evidence row and at most one live refund row |
| CourierLedger.CourierLedger.ReadEvidence | couriers/payments.py:177-282 | three table scans compute exactly the specified evidence or its first fault, and its total is the lesser of what is due and the money of the rows |
| CourierLedger.CourierLedger.CheckCapacity | couriers/payments.py:285-301 | the capacity refusal of the specification |
| CourierLedger.CourierLedger.RecomputeOrderPaid | couriers/payments.py:304-352 | the header in place becomes the specified one |
| CourierLedger.CourierLedger.EnsureExternalEvidence | couriers/payments.py:102-158 | get-or-create of the one synced row, or the specified clash |
| CourierLedger.CourierLedger.CreatePayment | couriers/payments.py:440-599 | the tables and the reply become those of the specified create |
| CourierLedger.CourierLedger.Refund | couriers/payments.py:602-648 | the tables and the reply become those of the specified refund |
| CourierLedger.CourierLedger.ApplyWebhook | couriers/payments.py:651-774 | the tables and the reply become those of the specified callback |
| SettlementTheorems.WindowsAddUp | couriers/services.py:789-865 | reconciliations of adjacent half-open windows add up to that of their union, refunds included |
| SettlementTheorems.AttributedStable | couriers/services.py:654-756 | what a refund takes from a courier is fixed once the clock has passed it |
| SettlementTheorems.SnapshotStable | couriers/services.py:789-865 | a window that has ended keeps its reconciliation whatever work is done later |
| SettlementMeaning.SnapshotReconciles | couriers/services.py:789-865 | a reconciliation by rows alone: cash is the cash collected in the window less what refunds recorded in it take from cash, the rest likewise, deliveries and fees those done in it |
| SettlementMeaning.CancellationTakes | couriers/services.py:654-756 | what a cancellation takes in each bucket: the lesser of what it froze outside the drawer and of what is left of the courier's collections by then |
| SettlementMeaning.ProviderRefundTakes | couriers/services.py:654-756 | a provider refund takes its whole amount from the bucket of the collection it repays |
| SettlementMeaning.UnsettledStartIs | couriers/services.py:759-786 | the window starts at the latest settlement's end, or else at the earliest event, or else at midnight |
| SettlementRuns.FirstWindowCoversAll | couriers/services.py:759-786 | the first window starts before every event of the courier |
| SettlementRuns.SettlementsConserve | couriers/services.py:868-902 | over every run in which a later collection finds no room in an earlier cancellation, for a courier settled or not, settlement rows abut, hold the sums of the rows in their own windows, pay fees, bonuses and tips, and with the open window add up to the sums of the whole ledger |
| SettlementRuns.ExactlyOneWindow | couriers/services.py:868-902 | every stamp between the first start and the last end falls in exactly one settled window |
| SettlementRefunds.CancelBounded | couriers/services.py:654-756 | a cancellation entry is bounded per bucket by the frozen bucket and by the courier's unrefunded remainder |
| SettlementRefunds.NetNeverNegativeIff | couriers/services.py:654-756 | with one cancellation the courier's net per order and bucket is never negative exactly when later provider refunds fit what the cancellation left |
| SettlementRefunds.NetNeverNegative | couriers/services.py:654-756 | with no later provider refund that net is never negative |
| SettlementRefunds.LaterRefundTakesTwice | couriers/services.py:654-756 | the witness: a provider refund after the cancellation takes the same 100 again |
| SettlementLedger.LedgerAdvances | couriers/payments.py:440-774 | every ledger transaction that leaves no collection room in an earlier cancellation is work a settlement run allows for: collections count once, refunds come after what they reverse, and what it relies on holds again |
| SettlementLedger.CancellationAdvances | couriers/services.py:619-651 | so is a cancellation refund recorded no earlier than the collections |
| SettlementLedger.DispatchAdvances | couriers/services.py:484-542 | so is every dispatch transaction: a delivery is done once, at its own clock, and keeps courier, fee and stamp |
| SettlementLate.SettledWindowMovesIff | couriers/services.py:654-756 | a collection after a window's end changes its reconciliation exactly when the window holds a live cancellation of its order with room in the collection's bucket |
| SettlementLate.LateCollectionIsAccepted | couriers/payments.py:440-599 | the witness: a card collection of 50 on a cancelled order is accepted and changes the settled window |
| CourierBooks.CourierBooks.RefundEntries | couriers/services.py:654-756 | the entries of a window, built from dictionaries and one scan |
| CourierBooks.CourierBooks.ReconciliationSnapshot | couriers/services.py:789-865 | the accumulated totals are the specified reconciliation and the sums of the rows in the window |
| CourierBooks.CourierBooks.UnsettledFrom | couriers/services.py:759-786 | the start of the unsettled window |
| CourierBooks.CourierBooks.Close | couriers/services.py:868-902 | the settlement row appended is the specified one and holds the sums of its window |
| Dispatch.AdvanceIsForward | couriers/models.py:175-226 | the index comparison over the forward list is exactly the forward order, and a declined row goes nowhere |
| Dispatch.AtomicKeepsExclusive | couriers/services.py:154-542 | one transaction keeps at most one delivery in flight per courier |
| Dispatch.AtomicMovesOn | couriers/services.py:154-542 | one transaction never changes a delivered row and moves a courier under way only forward on the same order |
| Dispatch.LostCourierRefused | couriers/services.py:373-542 | an accept, decline or advance by a courier who lost the order is refused and writes nothing |
| Dispatch.RetryChangesNoRow | couriers/services.py:204-214 | repeating an assignment, a clearing or a kitchen signal rewinds no stage and replaces no stamp |
| Dispatch.AcceptWindow | couriers/services.py:373-402 | a fresh assignment can be accepted by its courier for exactly the 20-second window |
| DispatchOutcomes.AdvanceComes | couriers/services.py:484-542 | a courier's step succeeds exactly when the row is the caller's and one of the three settable targets lies ahead; then the stage is the target, pick-up and delivery stamp their own time only, and only a delivery completes the order |
| DispatchOutcomes.AcceptComes | couriers/services.py:373-402 | an acceptance stamps an awaiting row of its courier within the window and changes nothing else |
| DispatchOutcomes.DeclineComes | couriers/services.py:405-435 | a decline takes an awaiting row of its courier back with the reason, cut to 200 |
| DispatchOutcomes.ReadyComes | couriers/services.py:441-472 | the kitchen signal makes an assigned row of a live order ready, at the order's own time if it has one |
| DispatchOutcomes.UnassignComes | couriers/services.py:310-370 | exactly when a clearing is refused, has nothing to do, or takes an awaiting row back |
| DispatchOutcomes.AssignComes | couriers/services.py:154-307 | exactly when an assignment is refused, is a repeat, or gives the order a fresh row, and every field of it |
| DispatchThreads.CommitIsAtomic | couriers/services.py:154-542 | what a thread commits from its own reads is what the transaction would do running alone at that instant |
| DispatchThreads.TurnedAwayIsAtomic | couriers/services.py:154-307 | a refusal before commit is the refusal of the transaction running alone |
| DispatchThreads.DispatchIsSafe | couriers/services.py:154-542 | in every interleaving couriers stay exclusive, delivered rows stay frozen, couriers under way only move forward |
| DispatchThreads.LostCourierRefusedAnywhere | couriers/services.py:373-542 | however stale the caller's view, a lost courier's action changes no table |
| DispatchThreads.SomeoneCanMove | couriers/services.py:154-542 | the order-then-courier lock order never deadlocks: while a transaction is unfinished, some transaction can step |
| CourierDispatch.CourierDispatch.Assign | couriers/services.py:154-307 | rows, header and reply become those of the specified assignment |
| CourierDispatch.CourierDispatch.Unassign | couriers/services.py:310-370 | rows and reply become those of the specified clearing |
| CourierDispatch.CourierDispatch.Accept | couriers/services.py:373-402 | rows and reply become those of the specified accept |
| CourierDispatch.CourierDispatch.Decline | couriers/services.py:405-435 | rows and reply become those of the specified decline |
| CourierDispatch.CourierDispatch.MarkReady | couriers/services.py:441-472 | rows and reply become those of the specified kitchen signal |
| CourierDispatch.CourierDispatch.AdvanceStatus | couriers/services.py:484-542 | rows, header and reply become those of the specified step: done exactly when the step may be made, and then at the target, delivered only if that is the target |
| CourierDispatch.CourierDispatch.PickAvailableCourier | couriers/services.py:116-151 | the least candidate that nobody holds and that is still free under its lock, or none when every unheld candidate has become busy |
| EvidenceFiles.EmptySegment | desktop/order_audit.py:1307-1325 | a segment is empty exactly when all that is left is one unfinished line |
| EvidenceSegments.SegmentIs | desktop/order_audit.py:1307-1325 | a segment ends at the first line end at or beyond its byte limit, or else at the last line end there is |
| EvidenceSegments.PreparedIs | desktop/order_audit.py:1259-1351 | the next segment is of the oldest archive not read to its end, or else of the active file, from the recipient's cursor, and holds those bytes |
| EvidenceSegments.AcknowledgedIs | desktop/order_audit.py:1056-1085 | an acknowledgement moves the one cursor it names, never back, and flushes all of them |
| EvidenceSegments.ReloadedIs | desktop/order_audit.py:781-857 | a restart finds the flushed cursors, and none where there is no evidence |
| EvidenceSegments.RotatedIs | desktop/order_audit.py:746-779 | a rotation isolates the file, keeps its cursors under its name and starts everyone at the beginning of the next |
| EvidenceCursors.StepKeeps | desktop/order_audit.py:733-779 | appends, rotations, prunings, index writes, preparations, acknowledgements, failed sends and restarts, also between a pruning and its flush, keep cursors on line boundaries over acknowledged prefixes |
| EvidenceDelivery.DeliveryIsPrefix | desktop/order_audit.py:1056-1085 | in every run the acknowledged segments concatenate to exactly the bytes below each cursor, and neither bytes nor cursor move back |
| EvidenceDelivery.LaggingArchiveYields | desktop/order_audit.py:1259-1351 | an archive a recipient has not finished always yields a segment, oldest first, from the cursor |
| EvidenceDelivery.NothingToSendIsCaughtUp | desktop/order_audit.py:1259-1351 | there is nothing to send exactly when the recipient has every complete line of every retained file |
| EvidenceDelivery.AckAfterRotationSkips | desktop/order_audit.py:1063-1065 | an active-file segment acknowledged after a rotation skips unsent bytes of the new file |
| EvidenceDelivery.AckAfterRotationIsTrueIff | desktop/order_audit.py:1063-1077 | after a rotation that did not wait, an acknowledgement keeps cursors true exactly when its segment was not of the rotated file |
| EvidenceDelivery.CrashedRotationIsTrueIff | desktop/order_audit.py:760-778 | a crash between rename and flush keeps cursors true exactly when nobody had acknowledged the rotated file |
| EvidenceDelivery.CrashedRotationSkips | desktop/order_audit.py:760-778 | otherwise the next bytes are skipped up to the old cursor |
| EvidenceCache.RecoveryRefinesRebuild | desktop/order_audit.py:880-942 | tail recovery from an earlier right cache equals the full rebuild exactly when every JSON line of the tail is an object or one is an object of the wrong shape, which stops both |
| EvidenceCache.RestartIsRebuild | desktop/order_audit.py:781-857 | a restart from an index that was right ends with the cache of a full rebuild, whatever the index had missed and whatever a crash left of the last line |
| EvidenceCache.RebuildFindsLastSha | desktop/order_audit.py:900-942 | a rebuild ends on the hash of the last record that has one |
| EvidenceMeaning.RebuiltKnows | desktop/order_audit.py:900-942 | after a rebuild a key maps to a fingerprint exactly when the last snapshot of that key with a fingerprint carries it |
| EvidenceMeaning.RebuiltCounts | desktop/order_audit.py:900-942 | the count is the number of record lines |
| EvidenceMeaning.RebuiltDates | desktop/order_audit.py:900-942 | the times are those of the last record, and of the last export manifest, that has one |
| EvidenceMeaning.OnlyAppendsChange | desktop/order_audit.py:781-1017 | where nothing is pruned, flushing, rotating, crashing and restarting leave the cache as it was |
| EvidenceMeaning.ThrottledIs | desktop/order_audit.py:944-972 | the index is written at the tenth change or ten seconds after the last time |
| EvidenceMeaning.CapturedIsKnown | desktop/order_audit.py:1112-1147 | after a capture every later state of such a run, restarts included, knows the order by that fingerprint until another snapshot of it, so the unchanged order is not captured again |
| EvidenceLines.AppendedIsApplied | desktop/order_audit.py:974-1017 | the cache kept in memory over an append is the cache a rebuild would find |
| EvidenceChain.ChainStaysContiguous | desktop/order_audit.py:974-1017 | over every run of appends, throttled flushes, rotations, prunings and restarts through index, tail or files after a crash anywhere, in which no append beside a stale index stays unwritten, the retained records form one chain |
| EvidenceChain.CacheIsRebuild | desktop/order_audit.py:781-942 | over every run that prunes nothing, whatever the clock, the cache in memory is that of a full rebuild, the index was right when it was flushed, and the records form one chain |
| EvidenceChain.CacheKnowsTheFiles | desktop/order_audit.py:781-942 | over every such run, pruned or not, reading all files succeeds and the cache holds every fingerprint that it would find |
| EvidenceStale.EarlyAppendsAreForgotten | desktop/order_audit.py:781-857 | what a restart makes of any records appended and left unflushed beside a stale index: those up to the one that ends at the stale length are forgotten, and no others |
| EvidenceStale.EarlyAppendsForkIff | desktop/order_audit.py:944-1017 | the next record forks the chain exactly when all of them were forgotten and the stale hash is not that of the last |
| EvidenceStale.StaleIsReached | desktop/order_audit.py:733-800 | an append and a rotation that prunes everything and crashes before its flush leave such an index |
| EvidenceChain.WholeTornRecordForks | desktop/order_audit.py:981-1011 | a whole record left without its newline forks the chain unless it is its own predecessor and follows the last record |
| EvidenceStorage.EnvelopeFits | desktop/order_audit.py:974-981 | integrity envelope, newline and isolating newline fit the 256-byte allowance |
| EvidenceStorage.AppendKeepsLimit | desktop/order_audit.py:733-745 | after every append the active file is within its limit or holds only that record |
| EvidenceStorage.AppendGoes | desktop/order_audit.py:733-745 | a fresh file is started exactly when there is one and the estimate would exceed the limit |
| EvidenceStorage.PredecessorIsNamed | desktop/order_audit.py:982-988 | a record names the hash before it, the first one none |
| EvidenceStorage.LineHoldsWhatWasHashed | desktop/order_audit.py:974-1000 | taking its hash out of a line gives back the bytes that were hashed |
| EvidenceStorage.FittingIsLongest | desktop/order_audit.py:717-731 | the archives that survive are the longest newest-first run whose total fits |
| EvidenceStorage.YoungAreKept | desktop/order_audit.py:701-716 | the age pass keeps exactly the archives that were not last written before the cutoff |
| EvidenceCollector.OrderAuditCollector.RebuildCacheFromRaw | desktop/order_audit.py:900-942 | the cache becomes the rebuild of all files, or nothing changes when a line raises |
| EvidenceCollector.OrderAuditCollector.RecoverAppendedTail | desktop/order_audit.py:880-898 | refuses off a line boundary, otherwise reads the tail into the index's cache |
| EvidenceCollector.OrderAuditCollector.LoadIndex | desktop/order_audit.py:781-857 | cursors, cache and index after a restart are the specified ones, flushed exactly when something had to be read |
| EvidenceCollector.OrderAuditCollector.PruneArchives | desktop/order_audit.py:701-731 | the survivors are the specified run, and survivors keep their cursors |
| EvidenceCollector.OrderAuditCollector.RotateIfNeeded | desktop/order_audit.py:733-779 | rotates exactly over the limit; files, cursors and flushed index become those of the protocol's rotation and prunings |
| EvidenceCollector.RotationIsSteps | desktop/order_audit.py:733-779 | what it leaves is reached by one rotation, then prunings, then an index write of the delivery protocol, so every cursor stays true, also after a crash half-way |
| EvidenceCollector.OrderAuditCollector.FlushThrottled | desktop/order_audit.py:944-972 | written when forced, after ten changes or after ten seconds, and then the index says everything |
| EvidenceCollector.OrderAuditCollector.Append | desktop/order_audit.py:974-1017 | the file grows by one isolated, sealed record bound to the hash in memory; archives, cursors and index move only by the rotation it needed |
| EvidenceCollector.OrderAuditCollector.Capture | desktop/order_audit.py:1112-1147 | skips exactly an unforced fingerprint that is the last one recorded, and always leaves it recorded; otherwise the cache is what reading the record back makes it, and files, cursors and index are those of the append, the rotation and the throttle |
| EvidenceCollector.OrderAuditCollector.MarkDelivered | desktop/order_audit.py:1056-1085 | cursors and flushed index become the specified ones; a pruned source is ignored |
| EvidenceCollector.OrderAuditCollector.PrepareIncrementalExport | desktop/order_audit.py:1259-1351 | the segment returned is the specified one |
| CaptureQueue.OneTicketEach | desktop/order_audit.py:1544-1559 | in every interleaving an order is pending exactly when it has one unpopped ticket |
| CaptureQueue.RequestIsNotLost | desktop/order_audit.py:1544-1559 | after a request a capture has started since, or the order is pending with its latest reason |
| CaptureQueue.ServedInTurn | desktop/order_audit.py:1707-1740 | a pending order is captured before the worker finishes more tickets than stood before it |
| CaptureQueue.Queue.RequestCapture | desktop/order_audit.py:1544-1559 | the queue and map become those of the specified request |
| CaptureQueue.Queue.WorkOnce | desktop/order_audit.py:1716-1735 | one turn of the worker is a get and then a pop or a sweep |
| TokenRuns.FamiliesAreChains | couriers/tokens.py:162-294 | in every reachable state a family has at most one usable token and one session, one shared expiry, and a chain through the replacements |
| TokenFamilies.RotatedRows | couriers/tokens.py:232-294 | a rotation succeeds only on a usable, unexpired token of an active courier, uses it up, ends its session and mints one replacement |
| TokenOutcomes.RotateComes | couriers/tokens.py:232-294 | a rotation succeeds exactly on an unused, unrevoked, unexpired token of an active courier if the new one is new; a replay and an inactive courier end the family, other refusals change nothing |
| TokenOutcomes.IssueComes | couriers/tokens.py:162-207 | exactly when a first session is issued, and its rows |
| TokenOutcomes.ClaimComes | couriers/tokens.py:100-120 | exactly when a claim is issued, when it expires, and whose claims it ends |
| TokenOutcomes.ConsumeComes | couriers/tokens.py:123-149 | exactly when a claim logs in, and whom |
| TokenOutcomes.RevokeRefreshComes | couriers/tokens.py:210-312 | revoking a refresh token revokes every token of its family, takes their sessions, and touches nothing else |
| TokenOutcomes.RevokeAccessComes | couriers/tokens.py:315-340 | revoking a session ends the family that holds it, or the session alone |
| TokenOutcomes.RevokeAllComes | couriers/tokens.py:343-359 | every token of the courier is revoked, no session of the courier is left, and no other courier's token is revoked |
| TokenRuns.KilledForGood | couriers/tokens.py:210-258 | after a replay or a revocation the family has no usable token and no session in any later state |
| TokenRuns.RefreshTokenIsOneTime | couriers/tokens.py:232-258 | a refresh token rotates at most once in any run, and presenting it again kills its family |
| TokenRuns.ClaimIsOneTime | couriers/tokens.py:100-149 | a login claim is consumed at most once, only before it expires, and a new claim ends the earlier ones |
| CourierTokens.CourierTokens.IssueLoginClaim | couriers/tokens.py:100-120 | claims become those of the specified issue |
| CourierTokens.CourierTokens.ConsumeLoginClaim | couriers/tokens.py:123-149 | claims and courier become those of the specified consumption |
| CourierTokens.CourierTokens.IssueFirstSession | couriers/tokens.py:162-207 | tables and credentials become those of the specified issue |
| CourierTokens.CourierTokens.RevokeWholeFamily | couriers/tokens.py:210-229 | revoking row by row and deleting session by session is the specified revocation |
| CourierTokens.CourierTokens.RotateRefreshToken | couriers/tokens.py:232-294 | tables and credentials become those of the specified rotation |
| CourierTokens.CourierTokens.RevokeAccessToken | couriers/tokens.py:315-340 | tables become those of the specified revocation |
| CourierTokens.CourierTokens.RevokeAllForCourier | couriers/tokens.py:343-359 | every family of the courier, then every session left, is revoked |
| ShiftClose.BundleIsExact | desktop/shift_close_sync.py:240-340 | a bundle is accepted exactly when the manifest is whole and its tenders and the live rows match one to one |
| ShiftCloseMeaning.WholeIff | desktop/shift_close_sync.py:240-340 | the same field by field: no repeated tender, each a live row with the same three amounts, each live row a tender |
| ShiftCloseMeaning.FaultIs | desktop/shift_close_sync.py:240-340 | which fault a broken bundle reports |
| ShiftClose.AcknowledgedIff | desktop/shift_close_sync.py:606-652 | acknowledged exactly when the cloud says so twice and echoes shift, version, digest and scheme |
| ShiftCloseRuns.ClearIsSound | desktop/shift_close_sync.py:655-779 | after any refresh a clear status means every discovered close is whole and acknowledged with its current digest |
| ShiftCloseMeaning.MissingBecomes | desktop/shift_close_sync.py:417-429 | after any refresh a tracked close without a bundle is still acknowledged, or is a conflict because it is missing |
| ShiftCloseMeaning.NothingIsLost | desktop/shift_close_sync.py:361-429 | a refresh tracks exactly the old closes and the discovered ones |
| ShiftCloseMeaning.DiscoveredBecomes | desktop/shift_close_sync.py:361-416 | what discovery makes of each bundle: conflict, acknowledged or pending, and why |
| ShiftCloseMeaning.TurnComes | desktop/shift_close_sync.py:606-721 | what one turn makes of a close; at most twenty-five questions, and the first outage answers for the rest |
| ShiftCloseMeaning.RowIs | desktop/shift_close_sync.py:179-237 | the fields of a tracker row: first seen, last asked, times asked, acknowledged |
| ShiftCloseMeaning.ClearMeansAll | desktop/shift_close_sync.py:738-779 | at any point of any run a clear status means that every close ever tracked is acknowledged, discovered again or not |
| ShiftCloseMeaning.ClearMeansAllAnywhere | desktop/shift_close_sync.py:655-779 | the same when save signals interleave with a stepwise refresh |
| ShiftCloseMeaning.StepwiseIsRefresh | desktop/shift_close_sync.py:655-721 | the stepwise refresh run without signals leaves what the refresh in one piece leaves |
| ShiftCloseRuns.RefreshKeepsAck | desktop/shift_close_sync.py:361-429 | an acknowledgement survives a refresh unless the bundle is broken or its digest changed |
| ShiftCloseRuns.ContradictedAckBecomes | desktop/shift_close_sync.py:655-721 | a whole refresh turns a contradicted acknowledgement into a conflict and then into what the answer at its turn makes of the current digest |
| ShiftCloseRuns.ConflictStaysIff | desktop/shift_close_sync.py:606-721 | a probed conflict stays one exactly when the answer is no outage and does not clear it; an outage makes it pending |
| ShiftCloseRuns.EveryAckWasEchoed | desktop/shift_close_sync.py:655-721 | in every run the digest of every acknowledged entry was echoed exactly by some cloud verdict |
| ShiftCloseThreads.AckWasEchoedAnywhere | desktop/shift_close_sync.py:655-835 | the same when save signals read and write the tracker at any moment of a refresh that works on its own copy |
| ShiftCloseThreads.ClearIsSoundAnywhere | desktop/shift_close_sync.py:655-779 | when such a refresh has asked about everything and the status is clear, every close it discovered is whole and acknowledged with the digest it was discovered with |
| ShiftCloseThreads.AckIsKept | desktop/shift_close_sync.py:361-835 | over a whole run of refreshes and signals an acknowledgement stays while no bundle comes that is broken or has another digest and no signal under way has read an older row |
| ShiftCloseThreads.StoreKeepsAckIff | desktop/shift_close_sync.py:782-835 | a signal's write keeps an acknowledgement exactly when it is about another close or had read an acknowledgement of its own whole bundle |
| ShiftCloseThreads.LateSignalUndoesAck | desktop/shift_close_sync.py:782-835 | the witness: a signal that read before the cloud answered makes the acknowledged close pending again |
| ShiftCloseTracker.ShiftCloseTracker.BuildBundle | desktop/shift_close_sync.py:240-340 | the bundle built by the loops is the specified one |
| ShiftCloseTracker.ShiftCloseTracker.PruneEntries | desktop/shift_close_sync.py:96-128 | all acknowledgements but the newest 200 are compacted; no key, state or digest is lost |
| ShiftCloseTracker.ShiftCloseTracker.EnsureDiscoveredEntries | desktop/shift_close_sync.py:361-429 | the entries found are the specified ones and the durable map agrees up to compaction |
| ShiftCloseTracker.ShiftCloseTracker.RefreshAll | desktop/shift_close_sync.py:655-721 | the durable map agrees with the specified refresh up to compaction, the answer is whether that one is clear, and an unresolved close without a bundle ends as a missing one and never clear |
| ShiftCloseTracker.ShiftCloseTracker.TrackCommittedShift | desktop/shift_close_sync.py:782-835 | a committed close is tracked as discovery would |
| ShiftCloseTracker.ShiftCloseTracker.IsClear | desktop/shift_close_sync.py:738-779 | true exactly when no row of the durable map is unresolved |
| Outbox.CursorCutsWaiting | desktop/local_telegram_audit.py:1022-1044 | moving the cursor to a waiting row leaves exactly the rows behind it, also among equal timestamps |
| Outbox.PassesCover | desktop/local_telegram_audit.py:1022-1144 | passes over a fixed table offer the waiting rows in order, 250 at a time, and disturb no row |
| Outbox.EveryEventIsOffered | desktop/local_telegram_audit.py:1022-1144 | after enough passes every eligible row between the cursor as it is read and the horizon is offered to every recipient |
| Outbox.RaisedHidesIff | desktop/local_telegram_audit.py:1001-1010 | raising an old cursor to the watermark hides an event exactly when it stands at the watermark with a key no greater than the cursor's |
| Outbox.RepeatChangesNothing | desktop/local_telegram_audit.py:502-534 | offering an event under a key that is there changes nothing |
| Outbox.RetryBounds | desktop/local_telegram_audit.py:619-641 | retry delays grow from five seconds and never exceed an hour |
| OutboxOutcomes.RetryDoubles | desktop/local_telegram_audit.py:619-641 | five seconds, then twice as long each time, up to an hour |
| OutboxOutcomes.FailedComes | desktop/local_telegram_audit.py:619-641 | a failure counts the attempt and sets the next one after its delay |
| OutboxOutcomes.SentComes | desktop/local_telegram_audit.py:593-616 | a confirmation marks the row sent and drops exactly the confirmed rows older than ninety days |
| OutboxOutcomes.RecoverComes | desktop/local_telegram_audit.py:489-499 | after a crash exactly what was being sent is pending again |
| OutboxOutcomes.SameKeyIff | desktop/local_telegram_audit.py:882-964 | two saves make the same message exactly when they agree on the row, the recipient and the stamp of the event |
| OutboxOutcomes.OfferComes | desktop/local_telegram_audit.py:502-534 | offering adds a new pending row for each recipient without one, due after its kind's settling time |
| OutboxOutcomes.BatchIs | desktop/local_telegram_audit.py:1022-1044 | a batch is the first 250 rows past the cursor as it is read, up to the horizon |
| OutboxOutcomes.PassComes | desktop/local_telegram_audit.py:1022-1057 | a pass offers exactly its batch and the newest 250 rows of the overlap window and moves the cursor to the end of the batch |
| OutboxOutcomes.LateRowIsCaught | desktop/local_telegram_audit.py:1084-1102 | a row committed late, behind the cursor, is offered by the next pass while fewer than 250 rows of the window are newer |
| OutboxRuns.NoEventIsSkipped | desktop/local_telegram_audit.py:1001-1057 | wherever a crash falls, an eligible event waits behind the cursor, or its message to each recipient is in the outbox, or was confirmed and dropped past its retention |
| OutboxRuns.OfferedIsKept | desktop/local_telegram_audit.py:502-616 | what was offered is in the outbox, or was confirmed and then dropped past its retention |
| OutboxRuns.ScanShrinks | desktop/local_telegram_audit.py:1022-1057 | each advance of the scan leaves one waiting row fewer and no other step brings one back |
| OutboxRuns.SentOnlyOnce | desktop/local_telegram_audit.py:537-616 | while its row is retained, a confirmed message is never claimed or confirmed again |
| OutboxOutcomes.RetryWaits | desktop/local_telegram_audit.py:537-641 | over every run a failed message is not tried again before its delay |
| OutboxOutcomes.NewWaits | desktop/local_telegram_audit.py:502-590 | and a new one not before it has settled |
| OutboxRuns.ResaveSendsAgainIff | desktop/local_telegram_audit.py:882-1019 | a re-save queues a confirmed event again exactly if the stamp of its event key moved or its row is past retention |
| LocalOutbox.LocalOutbox.NextDelivery | desktop/local_telegram_audit.py:537-590 | claims the oldest due row that is not paused, and nothing else changes |
| LocalOutbox.LocalOutbox.ConfirmSent | desktop/local_telegram_audit.py:593-616 | the row is confirmed and exactly the expired confirmed rows are dropped |
| LocalOutbox.LocalOutbox.Reconcile | desktop/local_telegram_audit.py:1022-1144 | rows and cursor become those of the specified pass |
| JsonString.DecodeUndoesEscape | desktop/config_store.py:636-638 | a printed JSON string decodes to the text it was printed from |
| EnvValue.ValueRoundTrip | desktop/config_store.py:472-510 | every value, whatever its code points, reads back as it was printed |
| EnvFile.RenderParses | desktop/config_store.py:513-543 | a file without line breaks in its printed values parses back to its settings, in any key order |
| EnvReading.LineReads | desktop/config_store.py:513-543 | a line that is neither blank nor a comment needs an equals sign and a name before the first one |
| EnvReading.NothingIff | desktop/config_store.py:524-528 | a line is nothing exactly when it is blank or a comment |
| EnvReading.ExportedLine | desktop/config_store.py:529-530 | an entry may be written with the shell's export before it |
| EnvReading.PlainThenRemark | desktop/config_store.py:508-510 | a value that needs no quotes reads the same with a remark behind it |
| EnvReading.QuotedThenRemark | desktop/config_store.py:472-491 | so does a quoted one, whatever is in it |
| EnvReading.QuotedThenText | desktop/config_store.py:487-491 | any other text behind a quoted value is an error |
| EnvReading.SingleQuoted | desktop/config_store.py:492-507 | a text without apostrophe and backslash reads as it stands between single quotes |
| EnvBreaks.PieceOfBroken | desktop/config_store.py:513-543 | no piece of a line broken by a value reads as a value that long with a break in it |
| EnvRoundTrip.ReadsBackIff | desktop/config_store.py:621-640 | a written configuration reads back exactly when no printed value holds a line-ending character |
| EnvRoundTrip.VerticalTabIsLost | desktop/config_store.py:634-635 | a vertical tab passes the guard and the file reads back as something else |
| EnvReading.RefusedIff | desktop/config_store.py:621-640 | nothing is written exactly when some value holds a line feed or a carriage return |
| EnvRoundTrip.MergedIs | desktop/config_store.py:621-630 | a form value wins, then the file, then the default; unmanaged keys stay |
| EnvRoundTrip.WriteThenRead | desktop/config_store.py:621-640 | writing over an existing file and reading gives the merged settings exactly under that condition |
| DesktopConfig.DesktopConfig.FindClosing | desktop/config_store.py:493-499 | the index loop finds the first unescaped apostrophe |
| DesktopConfig.DesktopConfig.ParseEnvFile | desktop/config_store.py:513-543 | the line loop computes the specified settings or the first error |
| DesktopConfig.DesktopConfig.Write | desktop/config_store.py:621-640 | on error the file is left alone; otherwise it holds the merged settings, readable exactly under that condition |
| KeyMigration.FreeLegacy | couriers/migrations/0003_courierpayment_external_id_unique.py:49-54 | the suffix search stops within the number of ids in use, at the first free id |
| KeyMigration.DedupedKeepsIds | couriers/migrations/0003_courierpayment_external_id_unique.py:17-30 | blanking the repeats loses no id |
| KeyMigration.FilledIsNormalised | couriers/migrations/0003_courierpayment_external_id_unique.py:32-56 | the rows filled in order satisfy everything the migration promises |
| KeyMigration.PaymentTable.BlankRepeats | couriers/migrations/0003_courierpayment_external_id_unique.py:17-30 | each id stays on its earliest holder only |
| KeyMigration.PaymentTable.NormalizeExternalIds | couriers/migrations/0003_courierpayment_external_id_unique.py:7-56 | ids end non-blank and distinct, nothing else changes, and a row gets the service's key exactly when it is free and the row is its event's earliest |

## Left out

- CourierLedger.CourierLedger.CreatePayment: transactions are serial, so the method has no lost-race branch; `LostRaceIsSerial` covers it on values. There are no lock objects.
- The upgrade of blank-keyed courier rows inside the fold (`couriers/payments.py:203-217`, `503-517`) is dead under the non-blank constraint and is not modelled.
- The order in which queries list rows only decides which of several errors is named; tables are scanned in row order.
- Links, notes and decimal rounding of amounts, push and socket notifications, and the display-only fields `held`, `cash_orders` and `qr_orders` of a reconciliation.
- The core's provider-refund ledger is assumed to append idempotently on its source id, and the branch lock to be a lock; the core itself is not part of this model.
- PaymentCallbacks.CallbacksInAnyOrder: the order header, which is re-derived by refused words too. `DecisionFixesAll` fixes it for a decided pending payment on a clean branch; on an unclean branch the deciding word locks whatever header stood, and a history that decides nothing leaves a header that depends on whether it held any word.
- PaymentOutcomes.NewCreateComes: like the other outcomes of the ledger, speaks of tables with one synced row per branch and key, which every run keeps (`OneRowThroughout`).
- PaymentRuns.NeverOverCollected: starts from rows under the text their writer stores; on any other row `OverflowsIff` says exactly when the bound breaks.
- SettlementRuns.SettlementsConserve: assumes stamps no earlier than the clock, settlements that read the clock after every stamped row, as the locks provide, and no provider refund before the collection it reverses. A collection after its order's cancellation must find no room left in what the cancellation froze; the ledger does not see to that, and `SettledWindowMovesIff` says what happens otherwise.
- SettlementLedger.LedgerAdvances: leaves out such a collection too.
- SettlementLate.SettledWindowMovesIff: amounts and frozen buckets are not negative, and the collection has no refund of its own yet.
- SettlementMeaning.CancellationTakes: at most one live provider refund per payment, which every run of the ledger keeps (`OneRowThroughout`).
- CourierBooks.CourierBooks.RefundEntries: entries come in table order; the source lists them by refund time, which no sum depends on.
- SettlementRefunds.NetNeverNegativeIff: one live cancellation per order, and refunds no larger than the payments they reverse.
- A courier row that is deleted, which empties the courier of its assignments and removes its credentials, is not a step of the dispatch or credential runs.
- CourierDispatch.CourierDispatch.PickAvailableCourier: the rows seen by the query and by the recheck are two snapshots; other dispatchers' locks are a given set.
- EvidenceDelivery.DeliveryIsPrefix: a rotation waits for segments of the active file, and its rename and first flush are one step, because without either the property is false; it starts from an index that matches the files. Prunings and their flush are separate steps.
- Archive names are ordered by creation; two rotations in one microsecond, a failing deletion, file-system errors other than a crash, and the export of everything at once are not modelled.
- EvidenceChain.ChainStaysContiguous: pruning takes the oldest archives, and a torn line is not JSON when finished, because otherwise the chain forks (`WholeTornRecordForks`). The appends that stay excluded, here and in `CacheKnowsTheFiles`, are those beside a stale index - one that names other archives than are there, or more bytes than the active file has - which the throttle leaves unwritten: not the tenth change, and less than ten seconds since the last write, or since boot. `EarlyAppendsForkIff` says what they cost. `CacheIsRebuild` excludes none. An archive never changes, so its contents stand for its manifest entry.
- JSON encoding and decoding of evidence records is a parameter that says what the cache reads from a line; serialisation and redaction of orders are not modelled.
- A cached access token that outlives its session by the cache time, and the clean-up of expired rows.
- ShiftCloseTracker.ShiftCloseTracker.RefreshAll: bundles are visited in the order they are given, for every order; the sort that picks one is left out. So are queue retention, dead-letter reset and parking of bundles, and upper-casing of tender names.
- Each read and each write of the shift tracker is one step, and a refresh runs alone, as the run lock provides. The read with which a refresh begins follows its reading of the shifts.
- Report formatting, message texts and the transport of the outbox.
- The wording of the two generated comment lines is a parameter of the written file, and keys may come in any order; file encoding and byte-order marks.
- Key length limits of the migrated column.
