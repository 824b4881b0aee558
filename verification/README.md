# A verified model of the warehouse core

This project models the bookkeeping protocols and exact algorithms of `frappe_wms`, a warehouse management system on
ERPNext, in Dafny 4.11, and proves what they keep and compute. Run `dafny verify dfyconfig.toml` here to check
everything.

The model takes the source's form. What the source computes by expressions is a function; what it does by changing
documents step by step is a class whose methods are proved equal to a function of the old state; its loops are
loops. The theorems are then lemmas about those functions, over every input or every run. A thrown error is a `None`
or a `Failure`: the transaction is rolled back and nothing has happened. Quantities are reals and the source's
epsilons are read as zero.

## What is modelled

* **Reservations** (`Reservations`, `ReservationService`, `ReservationProofs`, `AllocationEffects`,
  `CrossDockEffects`, `PlanEffects`, `DeliveryEffects`): allocation to deliveries, planned and opportunistic
  cross-docking, delivery split, reduction of a line, cancellation. Over every run each balance is its live
  allocations plus what is available, each open line's allocated quantity is its live allocations and cross-dock
  reservations and at most what is requested, and the clamps at zero never change a value. Each operation serves
  whom it should, in the order it should.
* **ERP posting queue** (`ErpSyncQueue`, `ErpSyncQueueProofs`, `ErpSyncQueueProgress`): logs, attempts, retries,
  reversals. Postings of a document take effect in order, a forward cancelled by its reversal never runs, a drained
  queue leaves the same live postings as synchronous mode, and the scheduler's passes drain it unless a log is given
  up.
* **Order updates** (`OrderUpdate`, `OrderTotals`, `OrderRows`, `OrderRuns`, `OrderUpdateProofs`, `OrderFollowUp`,
  `OrderLineTwice`, `OrderLineage`, `OrderTerms`): "Update Items" followed into open deliveries, whatever stock the
  releases of new deliveries find and allocate on the way.
* **Physical inventory** (`InventoryCount`, `InventoryCountProofs`, `InventoryCountDecisions`): row and document
  states, tolerance, one recount, approval, posting in passes, blocked bins.
* **Ledger archiving** (`Archiving`, `ArchivingProofs`, `ArchivingEffects`): archive file, carry-forwards, runs and
  their cutoffs.
* **Handling units** (`Hierarchy`, `HandlingUnits`, `HandlingUnitProofs`, `HandlingUnitService`) and the **packing
  center's tree** (`PackingTree`, `PackingOrder`, `PackingCounts`).
* **Cartonization** (`Cartonization`, `CartonPlans`, `CartonTurns`, `FirstFit`, `CartonCount`): safety, exactness,
  choice of packaging, and the bound of three halves of the optimum.
* **GS1 element strings** (`Gs1`, `Gs1Proofs`), **telegrams** (`Telegram`, `TelegramProofs`) and their **framing**
  (`Framing`), **SSCC labels** (`Labeling`), **number ranges** (`Numbering`), **removal rules** (`RemovalRules`,
  `RemovalOrder`, `AllocationOrder`), **goods issue** (`GoodsIssue`, `GoodsIssueProofs`, `GoodsIssueEffects`).

`Basics`, `Sums`, `Sorting` and `Texts` are shared: absence, finite sums, Python's stable `sorted`, and decimal
texts.

## Where the code does less than one would expect

The code is modelled as it is. Where a natural claim fails, the project proves exactly when it holds.

* Framing depends on how the network cuts the bytes up exactly when a length and a shorter terminator are both
  configured (`Framing.ChunkIndependentExactly`).
* `_rebuild_without` copies a line's `allocated_quantity` although the reservations behind it are cancelled with the
  old delivery: conservation survives exactly when no kept line had anything allocated
  (`ReservationProofs.RebuildKeepsExactly`). A new delivery that a dock plan claims is enough to break it
  (`ReservationProofs.RebuildBreaksPlannedDelivery`).
* A reversal that cancels a pending forward posting is itself dropped, which is right exactly when nothing of the
  document is posted yet (`ErpSyncQueueProofs.DroppedReversalIsRightExactly`). In runs of one mode that is always so
  (`RunsDropReversalsRightly`). After a warehouse is switched from queued to synchronous posting, a waiting forward
  of a stock adjustment, which does not look at the document's status, survives its reversal
  (`ReversalAfterSwitchHoldsExactly`).
* A posting that has failed twelve times is given up by the scheduler, and every later one of its document waits
  behind it: passes without a failure drain the queue exactly when there is none
  (`ErpSyncQueueProgress.PassesDrainExactly`).
* An order update replaces a delivery when one of its lines is cut to nothing, and the release of the replacement
  may allocate stock to it in the same event: a later row of the order, or a removed line, then meets a delivery
  under execution. What could be followed before the event is refused, and an increase is not taken up. The refusal
  is told from the state before the event, for every order and whatever the releases find, if and only if no
  delivery that would be allocated carries a line that can be emptied beside an order line with something to lose
  (`OrderFollowUp.RefusalIsForeseenExactly`); an order that goes wrong is constructed for every other state
  (`OrderFollowUp.VulnerableIsRefused`). The lines on which an increase can arrive are told from the state before
  under just such a condition (`OrderFollowUp.RoomIsForeseenExactly`). `OrderUpdateProofs.FollowedIsAcceptable`
  holds without any condition.
* A reduction goes wrong when it empties one line of a delivery not yet started and then asks the same delivery for
  another line of the same order line: a withdrawn delivery gives nothing, and a deleted draft cannot be loaded. A
  cut is followed if and only if enough is free and that does not happen (`OrderLineTwice.CutIsFollowedExactly`).
* `record_counts` accepts any row: the ledger and ERP stay exact exactly when it names no row whose difference is
  booked already (`InventoryCountProofs.RecordKeepsBooksExactly`). `request_recount` accepts any count: a cancelled
  one with open rows is taken up again without its bins (`InventoryCountProofs.RecountKeepsBinsExactly`).
* The archiving module's own comment says that FIFO and rebuilds see the same history. A position's first receipt
  survives exactly when its archived stock is positive or held no receipt
  (`ArchivingProofs.ArchivingKeepsFirstExactly`). Carry-forwards name no owner, so owners keep their totals exactly
  when nothing owned was left over in what was archived (`ArchivingProofs.OwnersKeepTotalsExactly`).
* A move renews the `top_hu` and level of the moved unit only: everywhere they stay right exactly when it holds no
  other unit, was loose already, or goes into a unit with the same top and one level above it
  (`HandlingUnitProofs.StepKeepsLabelsExactly`). Nesting a unit makes the labels of every unit directly in it wrong
  (`HandlingUnitProofs.NestingLeavesStaleLabels`).
* First-fit tests for a whole unit before it places a part of one. Two cartons' loads fit into one only when the
  later one holds less than a unit of each of its items (`CartonCount.OnlyPartsAreWasted`); for a line of its own
  some box wastes a carton if and only if its quantity is over one and not whole
  (`CartonCount.FractionsWasteExactly`).
* Where stock may become negative, a counted loss is checked against what is reserved only if the place has a
  balance (`InventoryCountProofs.LossesSpareReservations`).
* Two counts share a bin's block without knowing it: when the earlier one is posted or cancelled, the later one
  keeps its bins blocked exactly when the earlier had blocked none of them itself
  (`InventoryCountProofs.EarlierEndKeepsBinsExactly`).
* FIFO and FEFO fail exactly when balances with and without a receipt date meet, because the two cannot be compared
  (`RemovalRules.FefoIsLexicographic`).
* A negative number in a zero-padded telegram field comes back exactly when it fills the field
  (`TelegramProofs.FieldReadsBackExactly`).
* A pooled number is handed out without a look at the documents (`Numbering.NamesLiveDocumentExactly`). The pool
  stays tidy exactly when no pooled number is entered by hand and no number is recycled that the range has still to
  come to (`Numbering.StepKeepsTidyExactly`); otherwise one number is handed out twice
  (`Numbering.AheadIsHandedOutTwice`).
* A goods-issue reversal gives a line its quantity back exactly when at least that much is still issued on it
  (`GoodsIssueProofs.ReverseUndoesExactly`).

## Model

| member | source | states |
|---|---|---|
| ReservationService.ReservationBook.AllocateDelivery | frappe_wms/services/allocation.py:111-146 | the loop over lines and candidates leaves exactly the book that `Allocate` describes |
| ReservationService.ReservationBook.CancelAllocationsForDelivery | frappe_wms/services/allocation.py:148-174 | every live allocation of the delivery is cancelled and its quantity goes back to its balance |
| ReservationService.ReservationBook.FindCrossDockDemand | frappe_wms/services/cross_dock.py:25-41 | given the open demand in the order of the query, the matches are taken in that order, each for the lesser of what remains and what is outstanding |
| ReservationService.ReservationBook.ReserveCrossDockDemand | frappe_wms/services/cross_dock.py:44-52 | the matched quantity is claimed on the delivery line |
| ReservationService.ReservationBook.PlanCrossDock | frappe_wms/services/cross_dock.py:107-126 | what is not planned yet of each inbound row is matched, reserved and recorded as plans |
| ReservationService.ReservationBook.ConsumePlannedMatches | frappe_wms/services/cross_dock.py:129-144 | a receipt consumes its plans in order, up to its quantity |
| ReservationService.ReservationBook.RouteReceivedRow | frappe_wms/services/receipt.py:165-184 | planned matches first, then open demand, and the rest is put away |
| ReservationService.ReservationBook.CancelCrossDockPlan | frappe_wms/services/cross_dock.py:147-154 | open plans of an inbound delivery give their reservation back and are cancelled |
| ReservationService.ReservationBook.CancelOutboundDelivery | frappe_wms/events/deliveries.py:56-59 | a cancelled delivery releases its allocations and takes its plans and requests with it |
| ReservationService.ReservationBook.SplitOutboundDelivery | frappe_wms/services/delivery_split.py:25-64 | the moved quantities leave their lines and are the open quantities of the new delivery as it is before its release allocates anything, or nothing happens |
| ReservationProofs.StepKeeps | frappe_wms/services/allocation.py:111-174 | every single operation keeps balances and delivery lines equal to the reservations behind them |
| ReservationProofs.RunKeeps | frappe_wms/services/cross_dock.py:44-154 | conservation holds after every run of allocations, plans, receipts, cancellations, splits and reductions |
| ReservationProofs.ReleaseIsExact | frappe_wms/services/allocation.py:148-174 | releasing an allocation never meets the clamp at zero |
| ReservationProofs.GiveBackIsExact | frappe_wms/services/cross_dock.py:150-153 | giving planned demand back never meets the clamp at zero |
| ReservationProofs.SplitKeeps | frappe_wms/services/delivery_split.py:20-64 | a split keeps conservation: what moves is untouched by any warehouse step |
| ReservationProofs.ReduceKeeps | frappe_wms/services/erp_integration.py:334-349 | an in-place reduction keeps conservation |
| ReservationProofs.DrawDownTakesMin | frappe_wms/services/allocation.py:118-138 | the draw-down takes exactly the lesser of what is needed and all that is available |
| ReservationProofs.DrawDownIsGreedy | frappe_wms/services/allocation.py:118-138 | every balance before the last one touched is drained |
| AllocationOrder.AllocationFollowsOrder | frappe_wms/services/allocation.py:118-138 | while an eligible balance has anything available, no balance after it in the order of the removal rule is touched |
| AllocationEffects.AllocationServes | frappe_wms/services/allocation.py:111-138 | an allocation takes for the delivery's own lines from their own candidates only; balances are charged and lines credited with exactly that and nothing else moves; every line ends with all it asks for or with its candidates drained, earlier lines and earlier candidates first |
| AllocationEffects.OtherLinesStay | frappe_wms/services/allocation.py:117-138 | no line of another delivery moves |
| DeliveryEffects.DeliveryIsCancelled | frappe_wms/events/deliveries.py:56-59 | cancelling gives every balance back exactly what the delivery held of it, withdraws its open plans and its requests, and touches nothing of other deliveries |
| DeliveryEffects.SplitMovesExactly | frappe_wms/services/delivery_split.py:20-58 | a split is done if and only if nothing that moves is allocated, picked, packed or issued and something remains; then each quantity stands on its new line and is gone from the old one, and nothing else moves |
| DeliveryEffects.RebuildCopies | frappe_wms/services/erp_integration.py:356-370 | re-creating a delivery closes the old one and copies the kept lines with all their fields |
| CrossDockEffects.ReceiptTakesOwnPlans | frappe_wms/services/cross_dock.py:129-144 | a receipt row consumes the open plans of its own inbound row, the earliest first, up to its quantity, raises a request for each share, and leaves all other plans alone |
| CrossDockEffects.ReceiptIsRouted | frappe_wms/services/receipt.py:165-184 | told from the state before: own plans first, then the open demand in the order of the query, each line its share; the rest of the quantity is put away |
| CrossDockEffects.ReceiptCreditsInTurn | frappe_wms/services/cross_dock.py:25-52 | a delivery line gains what is left of the quantity when those before it have what they want, up to what it wants; no other line gains |
| CrossDockEffects.ReceiptIsSpentExactly | frappe_wms/services/receipt.py:165-184 | the requests raised and what is put away add up to what was received |
| PlanEffects.PlanningGoesRowByRow | frappe_wms/services/cross_dock.py:107-126 | each inbound row plans what is expected, not received and not planned yet, for the open demand as the rows before it leave it |
| PlanEffects.PlanningCoversRows | frappe_wms/services/cross_dock.py:107-126 | afterwards no row is planned beyond what is expected of it, and each is in full unless no demand is left for it |
| PlanEffects.InboundIsWithdrawn | frappe_wms/services/cross_dock.py:147-154 | withdrawing an inbound delivery cancels all its open plans and no other, and every line is given back exactly what they had still to bring |
| ReservationProofs.RebuildKeepsExactly | frappe_wms/services/erp_integration.py:356-370 | re-creating a delivery keeps conservation if and only if no kept line had anything allocated |
| ReservationProofs.RebuildBreaksPlannedDelivery | frappe_wms/services/erp_integration.py:356-370 | re-creating a delivery whose line a dock plan claims breaks conservation, from a state that a run reaches |
| ErpSyncQueue.SyncQueue.DispatchOperation | frappe_wms/services/erp_sync_queue.py:112-128 | synchronous warehouses post at once; queued ones cancel a pending forward or add a log |
| ErpSyncQueue.SyncQueue.Run | frappe_wms/services/erp_sync_queue.py:131-161 | a log waits for earlier ones of its document, takes effect, or fails with its next retry |
| ErpSyncQueue.SyncQueue.RetryDueLogs | frappe_wms/services/erp_sync_queue.py:164-175 | the due logs, at most 200 of them, are attempted in order |
| ErpSyncQueue.SyncQueue.RetryLogNow | frappe_wms/services/erp_sync_queue.py:178-184 | only a failed or queued log is retried by hand |
| ErpSyncQueueProofs.EveryRunKeepsOrder | frappe_wms/services/erp_sync_queue.py:131-175 | under every interleaving of dispatches, attempts, failures and retries, the logs of a document take effect in creation order |
| ErpSyncQueueProofs.NothingOvertakes | frappe_wms/services/erp_sync_queue.py:135-141 | when a posting takes effect, every earlier one of its document has done so before it or is cancelled for good |
| ErpSyncQueueProofs.CancelledNeverRuns | frappe_wms/services/erp_sync_queue.py:116-123 | a log cancelled by its reversal never takes effect in any continuation |
| ErpSyncQueueProofs.HappenAllSimulates | frappe_wms/services/erp_sync_queue.py:112-175 | what ERPNext holds together with what is pending is always what synchronous posting would hold |
| ErpSyncQueueProofs.DrainedQueueEqualsSynchronous | frappe_wms/services/erp_sync_queue.py:112-175 | once nothing of a document is pending, its live postings are those of synchronous mode |
| ErpSyncQueueProgress.PassIsExact | frappe_wms/services/erp_sync_queue.py:131-175 | a pass attempts a log if and only if it has failed fewer than twelve times and its retry time is past, or has been queued for ten minutes, and fewer than 200 such logs are older; it is put off by two minutes when an earlier one of its document still waits afterwards, and otherwise done or failed with the next wait of 5, 10, 20, 40, 80, 160, 320 or 360 minutes; every other log is untouched |
| ErpSyncQueueProgress.RetryByHandIsExact | frappe_wms/services/erp_sync_queue.py:178-184 | a waiting log is attempted by hand whenever it is due and however often it failed |
| ErpSyncQueueProgress.PassesDrainExactly | frappe_wms/services/erp_sync_queue.py:164-175 | enough passes in which nothing fails drain the queue if and only if no log in it has failed twelve times |
| ErpSyncQueueProgress.SynchronousHolds | frappe_wms/services/erp_sync_queue.py:112-114 | posted at once, every submitted document has one posting with its payload, live until the document is reversed |
| ErpSyncQueueProgress.SynchronousRecords | frappe_wms/services/erp_sync_queue.py:30-76 | other documents have every record, in order, but a once-only one that is there already |
| ErpSyncQueueProgress.QueueDelivers | frappe_wms/services/erp_sync_queue.py:112-175 | from any run of a queued warehouse with nothing given up, enough passes without a failure leave live postings of exactly the documents submitted and not reversed, each with its payload |
| ErpSyncQueueProgress.PostIsQueued | frappe_wms/services/erp_sync_queue.py:124-128 | a submitted document is queued unattempted and left to its job for ten minutes |
| ErpSyncQueueProofs.DroppedReversalIsRightExactly | frappe_wms/services/erp_sync_queue.py:116-123 | dropping a reversal is right if and only if nothing of the document is live in ERPNext |
| ErpSyncQueueProofs.RunsDropReversalsRightly | frappe_wms/services/erp_sync_queue.py:112-128 | in every run of a queued warehouse nothing of a document is posted while a forward of it waits, so no reversal is dropped wrongly |
| ErpSyncQueueProofs.ReversalAfterSwitchHoldsExactly | frappe_wms/services/erp_sync_queue.py:30-48 | after a switch of mode the waiting forward is harmless if and only if its operation checks the document's status |
| OrderUpdate.OrderSync.OnOrderUpdate | frappe_wms/services/erp_integration.py:292-331 | the event follows every group and drops removed lines as `Update` says, with whatever the releases of new deliveries allocate, or is rolled back |
| OrderUpdate.OrderSync.ReduceLines | frappe_wms/services/erp_integration.py:334-353 | the loop over the lines takes off what `Reduce` takes, and fails when something is left |
| OrderUpdate.OrderSync.CreateForOutstanding | frappe_wms/services/erp_integration.py:190-215 | one new delivery takes on every row's outstanding quantity, and is allocated to where its warehouse does so at release |
| OrderUpdate.OrderSync.DropRemovedLines | frappe_wms/services/erp_integration.py:324-331 | not-started deliveries lose the lines the order no longer has; a started one refuses |
| OrderUpdateProofs.ReplicatingUpdateIsExact | frappe_wms/services/erp_integration.py:292-323 | after a successful update, whatever the releases allocate, what a replicating warehouse handles is ordered less done, and nothing when more is done than ordered |
| OrderUpdateProofs.AdaptingUpdateIsExactly | frappe_wms/services/erp_integration.py:299-319 | elsewhere the handled quantity follows if and only if it shrinks, agrees already, or when the row's turn comes an open line's delivery has not started; never more can grow then than before the event |
| OrderUpdateProofs.GrowthIsForeseen | frappe_wms/services/erp_integration.py:311-319 | the same told from the state before the event, unless this order empties a line of a delivery that carries this one and something could be allocated to it |
| OrderUpdateProofs.UpdateIsRefusedExactly | frappe_wms/services/erp_integration.py:292-353 | when no replacement can be allocated to in a harmful way, the change is refused if and only if a row asks more back than is free, the warehouse blocks changes, or a removed line is under execution, all told from the state before |
| OrderUpdateProofs.FollowedIsAcceptable | frappe_wms/services/erp_integration.py:292-353 | whatever the releases allocate, a change is followed only if every row could be followed, and no removed line was under execution, in the state before |
| OrderFollowUp.RefusalIsForeseenExactly | frappe_wms/services/erp_integration.py:121-138 | the refusal is the one told from the state before, for every order, listing and allocation at release, if and only if no delivery to be allocated carries a line that can be emptied beside another with something free, or beside one not under execution when anything else is free or can grow |
| OrderFollowUp.VulnerableIsRefused | frappe_wms/services/erp_integration.py:334-369 | in every other state there are an order that could be followed before the event and a listing of the open lines, with which it is refused once the releases find a unit of each line |
| OrderFollowUp.RoomIsForeseenExactly | frappe_wms/services/erp_integration.py:311-319 | an order line comes to its turn with just the lines that can grow that it had before, for every order, listing and allocation at release, if and only if no delivery to be allocated that carries it also carries another line that can be emptied and something that is then allocated to |
| OrderUpdateProofs.UpdateLeavesOthers | frappe_wms/services/erp_integration.py:292-331 | no total over lines that the change does not concern rises, and it stays what it was when an allocation cannot move it or the releases find nothing |
| OrderUpdateProofs.ShortfallNeverGrows | frappe_wms/services/erp_integration.py:339-349 | the total by which lines fall short of done plus allocated never grows |
| OrderUpdateProofs.UpdateKeepsLinesCovered | frappe_wms/services/erp_integration.py:339-349 | no surviving line falls below what is done and allocated on it |
| OrderUpdateProofs.UpdateSettles | frappe_wms/services/erp_integration.py:292-331 | every row ends at the quantity that the state at its own turn determines; until then its open quantity and lines are those from before the event |
| OrderUpdateProofs.UpdateIsClean | frappe_wms/services/erp_integration.py:324-331 | after a successful update no open delivery carries a removed line |
| OrderLineage.UpdateIsTraced | frappe_wms/services/erp_integration.py:121-141 | every delivery there was is as it was but for quantities of listed order lines, or withdrawn without having started, a draft deleted and a released one cancelled; every further one is a draft exactly where its warehouse only drafts, and either new for a replicating group or the replacement of a withdrawn one with that one's lines, under execution exactly when its release allocated something |
| OrderTerms.ReplicatedIsHandled | frappe_wms/services/erp_integration.py:292-323 | with started, open, cancelled and free read off the documents, what is handled after a followed update is what is ordered and not done |
| OrderTerms.RefusalIsToldExactly | frappe_wms/services/erp_integration.py:121-138 | likewise, the refusal of every order is told from the state before it if and only if no delivery is exposed |
| OrderLineage.NewDeliveriesFitTheirMode | frappe_wms/services/erp_integration.py:124-127 | a new delivery stays a draft if and only if its warehouse does not release |
| OrderLineage.CreatesForAllOutstanding | frappe_wms/services/erp_integration.py:190-215 | a replicating group gets one new delivery that takes on every row not handled in full, each with all that is outstanding of it, or none |
| OrderLineage.IncreaseGoesToFirst | frappe_wms/services/erp_integration.py:311-319 | an increase goes to a single line, the first in the listing whose delivery has not started, or to none where all have |
| OrderRows.NewestGiveFirst | frappe_wms/services/erp_integration.py:336-350 | older deliveries lose nothing before all newer ones have given what is free |
| OrderTotals.RefsTotal | frappe_wms/services/erp_integration.py:76-95 | adding up over the query for open lines is adding up over the open deliveries |
| OrderLineTwice.CutIsFollowedExactly | frappe_wms/services/erp_integration.py:334-370 | however often deliveries carry an order line: a cut is followed if and only if that much is free and no delivery is asked again after one of its lines was emptied, and refused if and only if too little is free or such a delivery is a draft |
| InventoryCount.PhysicalCount.SnapshotCount | frappe_wms/services/inventory_count.py:87-131 | a draft gets one open row for each balance found and blocks the bins that were not blocked |
| InventoryCount.PhysicalCount.AddFoundLine | frappe_wms/services/inventory_count.py:133-157 | stock found is a counted row with its whole quantity as the difference |
| InventoryCount.PhysicalCount.RecordCounts | frappe_wms/services/inventory_count.py:168-192 | the named rows are counted in order, or the whole entry is refused |
| InventoryCount.PhysicalCount.PostPass | frappe_wms/services/inventory_count.py:212-284 | a pass books each row it decides to post, holds back the others, mirrors what it booked and releases the bins at the end |
| InventoryCount.PhysicalCount.RequestRecounts | frappe_wms/services/inventory_count.py:286-297 | rows pending a recount are opened again and counted up |
| InventoryCount.PhysicalCount.ApproveAll | frappe_wms/services/inventory_count.py:299-317 | rows pending approval are posted |
| InventoryCount.PhysicalCount.CancelDocument | frappe_wms/services/inventory_count.py:159-166 | an unposted count is cancelled and its bins are released |
| InventoryCountProofs.RunIsSane | frappe_wms/services/inventory_count.py:168-317 | in every reachable state: counted means nothing waits for a count or recount, posted holds if and only if every row is, no row is recounted twice |
| InventoryCountProofs.RunKeepsBooks | frappe_wms/services/inventory_count.py:212-284 | over every run that never re-counts a booked row, each difference is in the ledger and in ERP once |
| InventoryCountProofs.RecordKeepsBooksExactly | frappe_wms/services/inventory_count.py:173-186 | recording keeps the books exact if and only if it names no booked row |
| InventoryCountProofs.PostedCountIsRight | frappe_wms/services/inventory_count.py:212-317 | a posted count's ledger entries are what was counted less the book quantity, row by row, and ERP has the same |
| InventoryCountProofs.RecountKeepsBinsExactly | frappe_wms/services/inventory_count.py:286-297 | a recount keeps the counted bins blocked if and only if it does not revive a cancelled count that had blocked some |
| InventoryCountProofs.BinsAreGivenBack | frappe_wms/services/inventory_count.py:83-128 | while a single count is under way its bins are blocked, and afterwards just those are blocked that were before |
| InventoryCountProofs.LaterCountIsHarmless | frappe_wms/services/inventory_count.py:83-128 | a count that starts later never opens a bin that an earlier one blocks |
| InventoryCountProofs.EarlierEndKeepsBinsExactly | frappe_wms/services/inventory_count.py:83-85 | when the earlier of two counts ends, posted or cancelled, the later keeps its bins blocked if and only if the earlier had blocked none of them itself |
| InventoryCountProofs.SettleMovesStock | frappe_wms/services/inventory_count.py:224-232 | a pass moves every place's stock by exactly the differences posted there |
| InventoryCountProofs.LossesSpareReservations | frappe_wms/services/inventory_count.py:214-223 | after a pass that posts losses at a place, what is reserved there is spared if and only if a balance existed or the differences posted there do not add up to a loss; where stock may not become negative it always is |
| InventoryCountDecisions.PostingDecides | frappe_wms/services/inventory_count.py:194-210 | a posting holds a row back if and only if the first active rule for its warehouse and item group is exceeded in quantity and in percentage and asks for a recount not yet made or for approval, for which it then waits; every other row is posted |
| InventoryCountDecisions.StatusTells | frappe_wms/services/inventory_count.py:168-317 | over every run the count's status tells what its rows are in: counted means none open, posted exactly when every row is, and no row is recounted twice |
| InventoryCountDecisions.ApprovalDecides | frappe_wms/services/inventory_count.py:299-306 | an approval posts the rows that wait for it and no other |
| InventoryCountDecisions.SettleIsRefusedExactly | frappe_wms/services/inventory_count.py:212-232 | a pass is refused if and only if some row, on top of those before it, takes reserved units, is a serial number and not one unit, or makes the stock negative where it may not be |
| InventoryCountDecisions.SnapshotTakesExactly | frappe_wms/services/inventory_count.py:87-131 | a draft takes in one row with the book quantity for every balance in stock that the query lists, and blocks their bins; it is refused exactly when there is none or a bin has open tasks |
| InventoryCountDecisions.RecordCountsExactly | frappe_wms/services/inventory_count.py:168-192 | recording is refused exactly for a negative quantity, a serial number that is not none or one, or a recount by the first counter where that may not be; else the named rows are counted and the others left |
| InventoryCountDecisions.FoundIsAddedExactly | frappe_wms/services/inventory_count.py:133-157 | what may be added as found, and the row and block it makes |
| InventoryCountDecisions.RecountReopensExactly | frappe_wms/services/inventory_count.py:286-297 | a recount opens exactly the rows that wait for one and forgets what was counted |
| InventoryCountDecisions.CancelEndsExactly | frappe_wms/services/inventory_count.py:159-166 | a count is cancelled unless it is posted or cancelled, and its own blocks are lifted |
| Archiving.LedgerArchive.Execute | frappe_wms/services/archiving.py:76-136 | a queued or failed run archives warehouse after warehouse, or fails and changes nothing |
| Archiving.LedgerArchive.CarryRows | frappe_wms/services/archiving.py:105-124 | one pass over the rows gathers totals and first receipts; every position with a total is carried forward |
| ArchivingProofs.ArchivingKeepsTotals | frappe_wms/services/archiving.py:94-128 | no position's ledger total moves |
| ArchivingProofs.ArchivingIsFaithful | frappe_wms/services/archiving.py:99-135 | as multisets, archived lines and ledger are the old ledger and the carry-forwards |
| ArchivingProofs.ArchivingKeepsFirstExactly | frappe_wms/services/archiving.py:110-118 | a position's first receipt survives if and only if its archived total is positive or held no receipt |
| ArchivingProofs.FirstInIsFirst | frappe_wms/services/archiving.py:102-110 | the first positive row in time order is the earliest receipt |
| ArchivingProofs.TwiceIsOnce | frappe_wms/services/archiving.py:94-128 | archiving at a cutoff and again at a later one keeps the same entries and carries the same quantities as the later one alone |
| ArchivingProofs.OwnersKeepTotalsExactly | frappe_wms/services/archiving.py:22-25 | every owner keeps the position's total if and only if each owner's archived total is zero |
| ArchivingProofs.LedgerIsWhatWasPosted | frappe_wms/services/archiving.py:76-136 | whatever is archived, failed or retried in between, a position's ledger total is what was posted to it |
| ArchivingProofs.ReversibleIsNotArchived | frappe_wms/services/archiving.py:33-47 | where a document may still be reversed, everything archived of its warehouse is older than it |
| ArchivingEffects.ExecuteArchivesExactly | frappe_wms/services/archiving.py:76-136 | a run leaves in the ledger exactly what is not old in its warehouses and, for each position with old stock, one entry of that quantity without owner, dated at its first old receipt or a second before the cutoff, in the unit of its last old entry; the file gets exactly the old entries; a run that fails, or is not queued or failed, archives nothing |
| ArchivingEffects.IsReversibleExactly | frappe_wms/services/archiving.py:33-47 | a document may be reversed if and only if it was not posted before the cutoff of a completed run over its warehouse |
| HandlingUnitService.Yard.SaveUnit | frappe_wms/events/handling_unit.py:4-24 | the ancestor walk ends, refuses a circle or another place, and sets top and level |
| HandlingUnitService.Yard.CascadeCurrentBin | frappe_wms/services/handling_unit.py:146-153 | the recursion ends and moves exactly what is strictly inside the unit |
| HandlingUnitService.Yard.NestHandlingUnit | frappe_wms/services/handling_unit.py:155-172 | as `Nest` says, and the units remain a forest |
| HandlingUnitService.Yard.UnnestHandlingUnit | frappe_wms/services/handling_unit.py:174-183 | as `Unnest` says, and the units remain a forest |
| HandlingUnitService.Yard.RelocateHandlingUnit | frappe_wms/services/handling_unit.py:185-214 | as `Relocate` says for the outcome of the destination checks, and the units remain a forest |
| HandlingUnitService.Yard.RecycleHandlingUnit | frappe_wms/services/handling_unit.py:76-97 | an idle unit with no parent and no children leaves the warehouse |
| HandlingUnitService.Yard.PackHu | frappe_wms/services/packing_station.py:319-331 | as `Pack` says for an open or closed destination, and the units remain a forest |
| HandlingUnitService.Yard.MoveHu | frappe_wms/services/packing_center.py:202-212 | a drop on a unit or a bin, as `Drop` says |
| HandlingUnitService.Yard.DeleteEmptyHu | frappe_wms/services/packing_station.py:378-387 | an empty unit is taken out of its parent and is in no bin afterwards |
| HandlingUnitService.Yard.HuSubtree | frappe_wms/services/packing_station.py:27-35 | the work stack yields the unit and everything inside it, each exactly once, and ends whatever the data |
| HandlingUnitService.Yard.TopHu | frappe_wms/services/packing_station.py:38-44 | the walk up ends whatever the data, at a unit around the one it started from, and in a forest at the outermost |
| HandlingUnitProofs.RunKeepsForest | frappe_wms/services/handling_unit.py:76-214 | over every run nothing is inside itself and every unit is in its parent's bin and warehouse |
| HandlingUnitProofs.WalkFinds | frappe_wms/events/handling_unit.py:11-20 | the walk fails if and only if the parent is inside the unit, and otherwise ends on top |
| HandlingUnitProofs.NestSucceedsExactly | frappe_wms/services/handling_unit.py:155-167 | nesting succeeds if and only if the unit is loose, in the parent's warehouse, and the parent is not inside it |
| HandlingUnitProofs.NestPlaces | frappe_wms/services/handling_unit.py:162-170 | nesting takes the unit and everything inside it to the parent's bin and nothing else anywhere |
| HandlingUnitProofs.RelocateMovesExactly | frappe_wms/services/handling_unit.py:204-212 | relocating moves exactly the unit and its descendants and leaves it without a parent |
| HandlingUnitProofs.PackSucceedsExactly | frappe_wms/services/packing_station.py:319-331 | packing succeeds if and only if the destination is open and may hold the delivery, both are at the station in one warehouse, and the destination is not inside the unit |
| HandlingUnitProofs.DropSucceedsExactly | frappe_wms/services/packing_center.py:202-210 | a drop on a unit succeeds if and only if it is not inside what is dropped, not its parent already, and in the same warehouse |
| HandlingUnitProofs.LeavesExactly | frappe_wms/services/handling_unit.py:174-214 | a unit is unnested if and only if it is in another, and relocated if and only if it fits and is not on its own there already |
| HandlingUnitProofs.ComesAndGoesExactly | frappe_wms/services/handling_unit.py:29-97 | a unit comes in new and loose, and is recycled if and only if it is idle, loose and holds no other |
| HandlingUnitProofs.EmptyIsTakenAwayExactly | frappe_wms/services/packing_station.py:378-387 | an empty unit is taken off the table if and only if it is there and holds no other, and nothing else changes |
| HandlingUnitProofs.StepKeepsLabelsExactly | frappe_wms/events/handling_unit.py:11-24 | after every step stored tops and levels are right everywhere if and only if, before it, the unit held no other unit, or was loose and stays so, or its new parent has the top it shows and the level above |
| HandlingUnitProofs.NestingLeavesStaleLabels | frappe_wms/events/handling_unit.py:11-24 | after nesting, every unit directly in the nested one shows a wrong top or level |
| PackingTree.CloseOver | frappe_wms/services/packing_center.py:73-80 | the repeated passes compute exactly the wanted units and everything nested in them |
| PackingTree.Listing.Walk | frappe_wms/services/packing_center.py:104-115 | the recursion appends exactly the listing of everything below a node |
| PackingTree.RowsShowAllOnce | frappe_wms/services/packing_center.py:92-153 | every section, bin, shown unit and product group has one row, after the row it hangs under |
| PackingTree.TreeIsSound | frappe_wms/services/packing_center.py:92-100 | when the stored units are a forest, so is the tree |
| PackingOrder.RowsAreDepthFirst | frappe_wms/services/packing_center.py:108-153 | each row is followed by all that is below it before anything else, and siblings keep the tree's order |
| PackingOrder.SiblingsComeAsFound | frappe_wms/services/packing_center.py:108-153 | sections, bins and units come as the search lists them, in a container the units first and then the products in their order |
| PackingOrder.UnitsHangRight | frappe_wms/services/packing_center.py:92-96 | a unit hangs under its parent where that is shown, else under its bin |
| PackingOrder.ProductsHangRight | frappe_wms/services/packing_center.py:97-100 | every balance has a row for its product, batch and stock type, under its unit where that is shown, else under its bin |
| PackingOrder.BinsHangRight | frappe_wms/services/packing_center.py:142-153 | a bin hangs under its section |
| PackingCounts.CountContents | frappe_wms/services/packing_center.py:154-163 | the single reverse pass leaves every row with the number of product rows and of nested units in its true subtree |
| PackingCounts.RowsAreListed | frappe_wms/services/packing_center.py:92-163 | the rows of a search are such a listing: all of the tree, each once and after its parent |
| Cartonization.PlanCartons | frappe_wms/services/cartonization.py:22-61 | the nested loops build the plan or refuse, as `Plan` says |
| Cartonization.PlaceSomeInCartons | frappe_wms/services/cartonization.py:41-54 | one turn places into the first carton with room for a unit, else into a new one |
| CartonPlans.PlanIsSafe | frappe_wms/services/cartonization.py:40-54 | no carton is empty or over its packaging's limits, and nothing in it would have fitted into an earlier one |
| CartonPlans.LimitsAreKept | frappe_wms/services/cartonization.py:16-54 | weight and volume of every carton are within its packaging |
| CartonPlans.PlanIsExact | frappe_wms/services/cartonization.py:40-54 | the cartons hold exactly what the lines ask for, item by item |
| CartonPlans.PlanIsRefusedExactly | frappe_wms/services/cartonization.py:29-38 | a plan is refused if and only if there is no packaging, an item has no measures, or some unit fits in none |
| CartonTurns.OpenCartonChooses | frappe_wms/services/cartonization.py:64-71 | a new carton is the first packaging that holds all that is left of the line, or, where none does, the last that holds a unit |
| CartonTurns.TurnIsGreedy | frappe_wms/services/cartonization.py:41-54 | a turn fills the first carton with room for a unit, or a new one, until the line is done or no further unit fits |
| CartonTurns.FitIsGreatest | frappe_wms/services/cartonization.py:16-19 | the fit is the greatest number of units within both limits, up to a thousand million |
| CartonTurns.PlanChoosesPackaging | frappe_wms/services/cartonization.py:22-71 | every carton of a plan is of the packaging that suits what was left when it was opened, and has one row for each item |
| CartonTurns.PlanPacksBulkyFirst | frappe_wms/services/cartonization.py:40-41 | no carton of a plan holds anything bulkier than what it was opened for, and none was opened for anything bulkier than an earlier one, weight deciding between equal volumes |
| CartonCount.PlanIsFirstFitDecreasing | frappe_wms/services/cartonization.py:40-54 | read as bins of units, the plan is a first-fit-decreasing packing |
| CartonCount.PlanPacksTheUnits | frappe_wms/services/cartonization.py:40-54 | the cartons hold exactly the units of the lines |
| CartonCount.TwoCartonsExceedOne | frappe_wms/services/cartonization.py:40-54 | no carton's load and that of a later one holding a whole unit of something fit into one, for any quantities |
| CartonCount.OnlyPartsAreWasted | frappe_wms/services/cartonization.py:42-49 | when two cartons' loads fit into one, the later one holds less than one unit, in quantity and volume, of each of its items |
| CartonCount.CartonsAreMoreThanHalfFull | frappe_wms/services/cartonization.py:40-54 | two or more cartons, each after the first holding a whole unit of something, number fewer than twice the volume over the limit |
| CartonCount.AtMostHalfAgainTheOptimum | frappe_wms/services/cartonization.py:40-54 | with one packaging limited by volume a plan uses at most three halves of the cartons of any packing |
| CartonCount.FractionsWasteExactly | frappe_wms/services/cartonization.py:42-49 | some box makes the plan of a line use two cartons for what one could hold, if and only if its quantity is over one and not whole |
| FirstFit.ThreeHalvesBound | frappe_wms/services/cartonization.py:1-4 | every first-fit packing in decreasing order uses at most three halves of the bins of any other |
| Framing.Connection.Handle | frappe_wms/services/mfs.py:147-161 | the server loop hands over exactly what `Receive` describes and keeps the residue |
| Framing.ChunkIndependentExactly | frappe_wms/services/mfs.py:150-159 | for chunks that one read can return, the telegrams depend on the bytes alone if and only if a length and a shorter terminator are not both configured |
| Framing.DrainIsSplit | frappe_wms/services/mfs.py:158 | with a terminator the telegrams are exactly the pieces between successive first terminators, and the residue holds none |
| Framing.DrainIsPieces | frappe_wms/services/mfs.py:157 | with a length the telegrams are exactly the successive pieces of it, and the residue is shorter |
| Framing.FirstAtIsFirst | frappe_wms/services/mfs.py:158 | a terminator is found where it first stands, and not found where it stands nowhere |
| Framing.DrainIsPiecesThenSplit | frappe_wms/services/mfs.py:156-159 | with both, what is buffered goes out in pieces of the length as long as it lasts, and the rest is split at the terminators |
| Framing.NothingAfterTheEnd | frappe_wms/services/mfs.py:152-154 | an empty chunk ends the connection |
| Telegram.BuildTelegram | frappe_wms/services/mfs.py:27-40 | the fields are written over a buffer of spaces, or the telegram is refused |
| Telegram.ParseTelegram | frappe_wms/services/mfs.py:43-50 | the fields are read in order, or one is malformed |
| TelegramProofs.TelegramShape | frappe_wms/services/mfs.py:30-40 | a telegram is as long as its last field reaches, shows every padded value in its place, and spaces elsewhere |
| TelegramProofs.FieldReadsBackExactly | frappe_wms/services/mfs.py:33-49 | a field comes back if and only if its text has no space at its ends, or its number is not negative or leaves no room for zeros |
| TelegramProofs.TelegramRoundTrip | frappe_wms/services/mfs.py:27-50 | parsing a built telegram never fails and gives every field back under that condition |
| TelegramProofs.BuildIsExact | frappe_wms/services/mfs.py:27-40 | a telegram is refused if and only if it has no fields or one without a value or with one too long; else the last field over a place decides its character: its text, to the left or right, and its padding |
| TelegramProofs.ReadIs | frappe_wms/services/mfs.py:43-50 | how a field reads: trimmed text, a whole number of digits with at most one minus sign, malformed with more, a decimal otherwise |
| TelegramProofs.ParseIsExact | frappe_wms/services/mfs.py:43-50 | reading fails if and only if a field is malformed; else every field is there and no other |
| Gs1.ScanFields | frappe_wms/services/gs1.py:47-65 | the index moves on in every turn and the loop computes `Scan` |
| Gs1.ParseReadsEncoding | frappe_wms/services/gs1.py:36-67 | every list of legal fields comes back as its names and last values, less the spaces at the very end, when it counts as an element string, and is refused otherwise |
| Gs1.ParseRoundTrip | frappe_wms/services/gs1.py:36-67 | two or more fields of different names come back, nothing lost and nothing added but spaces at the very end; all of them exactly if and only if the last value does not end in a space |
| Gs1.ScannedAndTypedAgree | frappe_wms/services/gs1.py:40-66 | the typed form in brackets gives the same values as the scanned one |
| Gs1.ListGtinVariants | frappe_wms/services/gs1.py:70-79 | the shrinking loop lists the variants |
| Gs1.VariantsMatchBothWays | frappe_wms/services/gs1.py:70-79 | a stored EAN or UPC is among the variants of its 14-digit form, and that form among its own |
| Gs1.VariantsAreTheSameNumber | frappe_wms/services/gs1.py:70-79 | every variant is the same number |
| Gs1Proofs.IdentifiersAre | frappe_wms/services/gs1.py:11-13 | the ten application identifiers, their names, and which values each allows |
| Gs1Proofs.ScannedIsAcceptedExactly | frappe_wms/services/gs1.py:45-67 | a scanned text is accepted if and only if it begins with an identifier, is printable but for separators, is made up of allowed fields and tells enough; then it says what its fields say |
| Gs1Proofs.OneFieldIsAcceptedExactly | frappe_wms/services/gs1.py:66-67 | a single field is accepted if and only if it is an SSCC or a GTIN |
| Gs1Proofs.SymbologyIsDropped | frappe_wms/services/gs1.py:38 | a symbology identifier in front changes nothing |
| Gs1Proofs.TypedReadsExactly | frappe_wms/services/gs1.py:39-44 | groups in brackets are read if and only if all are known, their values without spaces around |
| Gs1Proofs.VariantsAreExactly | frappe_wms/services/gs1.py:70-79 | the variants are the code, what is left without some leading zeros down to eight digits, and an EAN or UPC filled up to fourteen |
| Gs1Proofs.VariantsAreListedOnce | frappe_wms/services/gs1.py:79 | the code comes first and none comes twice |
| RemovalRules.FefoIsLexicographic | frappe_wms/services/removal_rules.py:6-19 | FEFO fails if and only if dated and undated receipts meet; else it is the order by expiry with the undated last, first receipt and name |
| RemovalRules.CustomSortIsLexicographic | frappe_wms/services/removal_rules.py:44-63 | a custom sort is the lexicographic order of its fields in their directions, and stable |
| RemovalRules.DrawOrderIsLexicographic | frappe_wms/services/allocation.py:47-120 | exactly the eligible balances come out, ordered by own reserved stock, storage type where any is in a bin, expiry, first receipt and name |
| RemovalRules.DrawOrderIsUnique | frappe_wms/services/allocation.py:75-120 | that order does not depend on the order in which balances are listed |
| RemovalOrder.DrawOrderFieldByField | frappe_wms/services/allocation.py:75-120 | first expired, first out draws on exactly the balances that are fresh enough, in no blocked unit or bin and within the sequence; of two the first differing one of own reserved stock, storage type, expiry, receipt and name decides |
| RemovalOrder.DrawOrderKeepsStrategy | frappe_wms/services/allocation.py:80-120 | whatever the strategy, those it gives that may be drawn on come out, own reserved stock first, then by storage type, otherwise in the strategy's own order |
| RemovalOrder.FifoAndLifoSort | frappe_wms/services/removal_rules.py:6-12 | the strategies that look at receipts fail if and only if dated and undated ones meet; FIFO and LIFO order by receipt and name, forwards and backwards |
| RemovalOrder.QuantitiesSort | frappe_wms/services/removal_rules.py:30-36 | the quantity strategies order by quantity and keep ties |
| RemovalOrder.FixedBinKeeps | frappe_wms/services/removal_rules.py:38-42 | a fixed bin keeps what is in it, and fails without a name |
| RemovalOrder.CustomSortFieldByField | frappe_wms/services/removal_rules.py:44-63 | the first field that differs decides in its direction, missing values last or first, and ties stay as they came |
| GoodsIssue.ListReadyLines | frappe_wms/services/issue.py:134-166 | the loops over lines and units compute the splits of `ReadyLines` |
| GoodsIssue.IssueService.PostGoodsIssue | frappe_wms/services/issue.py:11-60 | all rows are posted to the ledger and their units shipped, or nothing happens; a posted document is left alone |
| GoodsIssue.IssueService.ReverseGoodsIssue | frappe_wms/services/issue.py:72-91 | every original ledger entry is posted back, issued quantities are taken back and the units staged |
| GoodsIssueProofs.NeverMoreThanOnHand | frappe_wms/services/issue.py:143-165 | over all lines of a delivery the splits never take more from a unit, product and stock type than it holds |
| GoodsIssueProofs.ShortOnlyWhenExhausted | frappe_wms/services/issue.py:148-163 | a line gets at most what it needs, and less only when the delivery takes all its loaded units hold |
| GoodsIssueEffects.AllOwingAreListed | frappe_wms/services/issue.py:143-165 | every line that still owes an issue is offered once, in order, with what it owes |
| GoodsIssueEffects.UnitsAreTakenInOrder | frappe_wms/services/issue.py:148-163 | a unit is touched for a line only when the units before it are used up |
| GoodsIssueEffects.EarlierLinesFirst | frappe_wms/services/issue.py:142-163 | a later line gets something from a unit only when every earlier line that could have had it is served in full |
| GoodsIssueEffects.PostSucceedsExactly | frappe_wms/services/issue.py:11-54 | a posting succeeds if and only if the document is posted already, or every row's unit is loaded, at a door and has the serial number it needs, and the stock covers the rows one after the other |
| GoodsIssueEffects.PostShipsExactly | frappe_wms/services/issue.py:12-60 | posting ships exactly the units of the rows; a posted document changes nothing |
| GoodsIssueEffects.ReverseReturnsExactly | frappe_wms/services/issue.py:72-89 | a reversal posts every original entry back with its quantity turned round, stages exactly the units they came from, and changes nothing where there are none |
| GoodsIssueProofs.PostEffect | frappe_wms/services/issue.py:14-56 | posting takes each row from its position, adds it to its line, and leaves one entry for each row |
| GoodsIssueProofs.PostTwiceIsOnce | frappe_wms/services/issue.py:12 | whatever is posted and reversed in between, its own reversal included, posting a document again changes nothing |
| GoodsIssueProofs.ReverseUndoesExactly | frappe_wms/services/issue.py:72-89 | a reversal returns every row to its position, and a line's quantity if and only if that much is still issued on it |
| GoodsIssueProofs.PostThenReverse | frappe_wms/services/issue.py:11-91 | posting and reversing restores stock and issued quantities and leaves the units staged |
| GoodsIssueProofs.ReturnSucceeds | frappe_wms/services/issue.py:77-80 | where no stock is negative a reversal is never refused |
| Numbering.NumberRange.Next | frappe_wms/services/numbering.py:74-100 | the pool's oldest number, else the first unused value after the counter, else refused |
| Numbering.NextIsExact | frappe_wms/services/numbering.py:74-100 | the pool's oldest number, or the least value to come whose number no document has, from which the range goes on; none when documents have all |
| Numbering.RenderedIs | frappe_wms/services/numbering.py:87 | the prefix and the value's digits, filled up with zeros to the length and no further |
| Numbering.PoolIsAQueue | frappe_wms/services/numbering.py:79-84 | over every run recycled numbers come out of the pool in the order they were given back, and none is lost |
| Numbering.ExhaustedExactly | frappe_wms/services/numbering.py:79-98 | a range is exhausted if and only if the pool is empty and every remaining number is in use |
| Numbering.NamesLiveDocumentExactly | frappe_wms/services/numbering.py:79-95 | a number names a live document if and only if it is pooled and a document took it meanwhile |
| Numbering.RenderedIsInjective | frappe_wms/services/numbering.py:87 | zero-padded numbers of different values differ |
| Numbering.NumbersAreUnique | frappe_wms/services/numbering.py:63-100 | over every orderly run no number is handed out while it is out |
| Numbering.HandOutsDiffer | frappe_wms/services/handling_unit.py:76-97 | between two hand-outs of one number lies its recycle |
| Numbering.StepKeepsTidyExactly | frappe_wms/services/numbering.py:63-84 | a step keeps the pool tidy if and only if it enters no pooled number by hand and recycles no live number that the range has still to come to |
| Numbering.AheadIsHandedOutTwice | frappe_wms/services/numbering.py:79-84 | in any state with an empty pool, the number that comes next, entered by hand and recycled, is handed out twice running |
| Numbering.NarrowestWins | frappe_wms/services/numbering.py:7-24 | a range is found if and only if one applies, and none that applies is narrower |
| Labeling.Labels.GenerateSscc | frappe_wms/services/labeling.py:17-52 | a unit keeps its code; else the next serial is coded, or everything is as before |
| Labeling.ComputeCheckDigit | frappe_wms/services/labeling.py:11-14 | the alternating sum from the right gives the check digit |
| Labeling.SsccIsValid | frappe_wms/services/labeling.py:36-52 | every code has 18 digits and a weighted sum that ten divides, section 7.9 of the GS1 General Specifications |
| Labeling.SsccIs | frappe_wms/services/labeling.py:36-52 | a code is a zero, the prefix, the serial filled up with zeros, and the digit that makes the sum a multiple of ten, with every second digit from the first on counted three times |
| Labeling.GenerateIsExact | frappe_wms/services/labeling.py:32-52 | a unit keeps its code or gets that of the next serial; refused exactly for a prefix that is not one to fifteen digits or a serial too long for the rest |
| Labeling.SsccIsInjective | frappe_wms/services/labeling.py:45-50 | for one prefix different serials give different codes |
| Labeling.SingleErrorIsDetected | frappe_wms/services/labeling.py:11-14 | every single changed digit is detected |
| Labeling.TranspositionIsMissedExactly | frappe_wms/services/labeling.py:11-14 | swapped neighbours go undetected if and only if they are equal or differ by five |
| Labeling.CodesAreUnique | frappe_wms/services/labeling.py:17-52 | for a fixed prefix no two handling units ever share a code |
| Labeling.CodesStay | frappe_wms/services/labeling.py:31-52 | over every run a code once given stays, and a unit that is never labelled gets none |

## Left out

- The Frappe ORM, SQL, permissions, messages, printing, sockets, e-mail and the ERPNext documents themselves: queries appear as parameters or lists, and a posting in ERPNext is an abstract record.
- Concurrency inside a service call: each locked call is one step, and runs interleave whole steps.
- Floating point: quantities are reals and the epsilons are zero.
- ReservationProofs.RunKeeps: picking, completing short and shipping are not steps of the run, because they also touch reservations that tasks hold; a delivery is cancelled unpicked; demand queries list no line twice.
- ReservationService.ReservationBook.FindCrossDockDemand: the filters of the query (item, owner, staging bin, horizon) are the given list of demand.
- ReservationService.ReservationBook.SplitOutboundDelivery: the draft delivery note that is split along, and the release of the new delivery, whose allocation is `AllocateDelivery`.
- ReservationProofs.RebuildKeepsExactly: re-creation is not a step of `RunKeeps` for the reason it states.
- ErpSyncQueueProofs.EveryRunKeepsOrder: about logs; a posting that a synchronous warehouse makes at once writes no log, and `DrainedQueueEqualsSynchronous` and `ReversalAfterSwitchHoldsExactly` speak about those.
- ErpSyncQueueProofs.DrainedQueueEqualsSynchronous: a document is submitted and reversed once, an operation only looks at its own document and payload, and the difference of a count row is read when it is dispatched.
- ErpSyncQueueProgress.PassIsExact: no log is running, which the model's runs never leave; the age of a queued log is counted from its creation.
- ErpSyncQueue.SyncQueue.Run: a log left Running by a crashed worker appears only through the retry that picks it up.
- OrderUpdateProofs.ReplicatingUpdateIsExact: no delivery carries an order line twice (`OrderLineTwice` treats one row of those that do), and order lines have distinct names.
- OrderUpdate.OrderSync.OnOrderUpdate: what the allocation at a release finds is a parameter, any quantity for any line, and so is the order in which the unordered query for open lines lists them; the balances behind it are the Reservations module, and pick tasks are not modelled.
- OrderUpdateProofs.UpdateIsRefusedExactly: for one order the check of the deliveries is enough but may be stricter than needed; over all orders `OrderFollowUp.RefusalIsForeseenExactly` is exact.
- OrderUpdateProofs.GrowthIsForeseen: likewise for one order; over all orders `OrderFollowUp.RoomIsForeseenExactly` is exact.
- InventoryCountProofs.RunKeepsBooks: ERP is mirrored at once; the queue between is the ErpSyncQueue module.
- InventoryCountProofs.BinsAreGivenBack: one count; two are treated by `LaterCountIsHarmless` and `EarlierEndKeepsBinsExactly`, and other work does not block bins meanwhile.
- InventoryCount.PhysicalCount.SnapshotCount: the query and its scope filters are the list `found`, and open tasks the set `busy`.
- ArchivingProofs.ArchivingIsFaithful: over the fields the archive file keeps, which the owner dimensions are not among.
- Archiving.LedgerArchive.CarryRows: the numbering of carry-forwards by their sorted keys, which only enters their idempotency keys.
- ArchivingProofs.ArchivingKeepsFirstExactly: warehouses of a run are distinct.
- Stock rows of relocated handling units (`relocate_hu_balances`), HU weights, seals, and printing.
- HandlingUnitService.Yard.PackHu: whether the destination is closed, or serves another delivery, is one flag.
- HandlingUnitService.Yard.RecycleHandlingUnit: the number that goes back to its range is the Numbering module.
- HandlingUnitService.Yard.DeleteEmptyHu: the cancelled status and the cleared delivery.
- HandlingUnitProofs.RelocateMovesExactly: the destination checks (role, capacity, open tasks) are one flag.
- PackingTree.RowsShowAllOnce: the columns of the rows (quantities, dates, documents), the 600-bin and 30000-row limits, and that ids are texts; an id is its parts.
- CartonCount.AtMostHalfAgainTheOptimum: one packaging, limited by volume, and whole quantities, for which a unit is an item of bin packing; `CartonPlans.PlanIsSafe` covers any packaging and `CartonCount.CartonsAreMoreThanHalfFull` any quantities.
- CartonTurns.OpenCartonChooses: quantities up to a thousand million, where the original caps what fits without a limit.
- DeliveryEffects.SplitMovesExactly: the request merged per line, and names for the new rows that nothing has yet.
- Framing.ChunkIndependentExactly: endpoints whose bytes all decode.
- TelegramProofs.TelegramRoundTrip: text padded with spaces and whole numbers padded with spaces or left zeros, in fields that have a length; decimals, whose text the original converts to a float, are read but not compared. Digits are the ASCII digits.
- TelegramProofs.FieldReadsBackExactly: the same paddings and kinds.
- Gs1.ParseReadsEncoding: before dates and counts are converted. Digits are the ASCII digits.
- RemovalRules.DrawOrderIsLexicographic: for the first-expired rule; strategies added by other apps are not part of the model.
- GoodsIssue.IssueService.PostGoodsIssue: delivery status, the final delivery document, batches looked up from the unit.
- GoodsIssue.IssueService.ReverseGoodsIssue: delivery status; the guard against archived entries is the Archiving module.
- Numbering.NumbersAreUnique: one range for each prefix, and orderly steps, which `StepKeepsTidyExactly` shows to be all that keep the pool tidy.
- Labeling.CodesAreUnique: the prefix setting does not change.
- Identifying telegram types, sending telegrams with retries, and what a received telegram triggers.
- Waves, tasks, putaway determination, yard, labor, billing, kitting, quality, search and monitor screens: queries and plain sums, or code these modules do not need.
