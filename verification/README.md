# Verified models of the Linux block layer

Dafny models of the intricate parts of the block layer and proofs of what they promise.
`dafny verify dfyconfig.toml` checks everything. Each locked section of the source
is one atomic step; code that updates objects or arrays in place is a class or an
array method proved against a function on values, and the properties are lemmas
about that function.

| part | source | files |
|---|---|---|
| flush sequencing | `block/blk-flush.c` | `Flush`, `FlushQueues` |
| iocost weights and hierarchical shares | `block/blk-iocost.c` | `Hierarchy`, `WeightTree`, `Iocost` |
| iocost surplus donation, in exact arithmetic | `block/blk-iocost.c` | `RealArith`, `Donation`, `Transfer`, `Settle` |
| iocost budgets, debt and throughput | `block/blk-iocost.c` | `Budget`, `Throughput` |
| B-WF2Q+ active tree and accounting | `block/bfq-wf2q.c` | `ServiceTree`, `ServiceAccounting`, `IdleOrder`, `SchedulingLevel` |
| bad-block table | `block/badblocks.c` | `BadblockTable`, `BadblockInsert`, `Badblocks` |
| stacked submission, chained completion | `block/blk-core.c`, `block/bio.c` | `Submit`, `BioChain` |
| inline-encryption fallback | `block/blk-crypto*.c`, `block/bio.c` | `Dun`, `CryptoFallback`, `CryptoSplit` |
| hierarchical IO statistics | `block/blk-cgroup.c` | `Rstat` |

`Arith` and `Options` hold what several parts share.

## Where the code does not do what it says

Each has a lemma with a concrete case and one giving the exact condition.

- A failed flush can be reported as success: every dropped reference overwrites the
  remembered status, so the error survives only if no reference is dropped between the
  completion by the device and the call that ends the flush (`Flush.ForgottenError`,
  `Flush.ErrorReportedIff`). The run theorems of `Flush` cover all interleavings and
  except exactly the step of a request that waited for such a flush
  (`Flush.ForgottenIff`).
- A chained bio's error can be overwritten: an owner that stores its own success into a
  bio which others are chained to, as the encryption fallback and the bounce code do,
  hides what its parts handed up (`BioChain.ErrorOverwritten`, `BioChain.StatusIff`,
  `BioChain.LostIff`).
- `bfq_first_active_entity` does not always return the smallest finish time, because it
  may stop on an eligible ancestor (`ServiceTree.NotAlwaysSmallest`,
  `ServiceTree.SmallestIff`).
- `bfq_forget_idle` is said to increase the virtual time but takes it back, even behind
  the value before the service (`ServiceAccounting.ServedAdvancesIff` with
  `ServiceAccounting.ServedMovesBack`, `ServiceAccounting.ServedFallsBackIff` with
  `ServiceAccounting.ServedFallsBack`).
- `badblocks_clear` breaks its table when rounding inverts the interval inside a range
  (`Badblocks.ClearBreaksTable`; `Badblocks.Badblocks.Clear` states the condition), and
  its comment announces a return value of 1 where the code returns `-ENOSPC`.
- `badblocks_set` can acknowledge sectors nobody acknowledged
  (`BadblockInsert.SpillExample`, `BadblockInsert.AcksIff`), report success and forget
  sectors it was asked to record, or write a garbled entry, because its final join
  computes a new length that may be too short or negative (`BadblockInsert.DropExample`,
  `BadblockInsert.GarbleExample`, `BadblockInsert.UnionIff`), and leave the table out of
  order, because new entries all go to the same index (`BadblockInsert.DisorderExample`,
  `BadblockInsert.SortedIff`).

## Model

| member | source | states |
|---|---|---|
| `Flush.CurSeq` | block/blk-flush.c:116-119 | the current step is the lowest one not completed; the sequence is over exactly when all steps are |
| `Flush.KickInv` | block/blk-flush.c:286-350 | deciding whether to issue a flush restores the invariant; a flush covers what every request on the list it takes waits for |
| `Flush.DrainStep` | block/blk-flush.c:258-263 | one request of a finished flush: it leaves the list being drained for its next step even when the nested kick toggles the pending index onto that very list |
| `Flush.DrainInv` | block/blk-flush.c:251-266 | draining the whole list re-establishes the invariant and leaves the list empty |
| `Flush.FlushDoneInv` | block/blk-flush.c:215-266 | a flush completion keeps the invariant, whether or not references are still held on the flush request |
| `Flush.RefInv` | block/blk-flush.c:226-231 | dropping or taking a reference on the flush request keeps the invariant; a drop that forgets an error lets down exactly the requests waiting for that flush, at the step they wait to complete |
| `Flush.DataDoneInv` | block/blk-flush.c:352-374 | completion of a data step keeps the invariant |
| `Flush.InsertInv` | block/blk-flush.c:385-445 | inserting any request (bypassed, data only or sequenced) keeps the invariant |
| `Flush.NextInv` | block/blk-flush.c:164-374 | every enabled step keeps: each sequenced request is on exactly one list, the one of its current step; a flush is in flight iff the two indices differ; something pending implies a flush or a data step in flight; no BUG_ON has tripped; every request is as durable as promised but for the flushes that let it down |
| `Flush.RunInv` | block/blk-flush.c:8-49 | the same in every state of every interleaving, forgotten errors included |
| `Flush.ForgottenIff` | block/blk-flush.c:226-238 | a request counts as let down at a step iff some step of the run forgot the failure of the flush it was waiting for to complete that step |
| `Flush.FuaDurable` | block/blk-flush.c:8-49 | in every run, on a write-back device without native FUA, a FUA request that ended without error has its data on stable media unless it was let down at POSTFLUSH |
| `Flush.PreflushOrdered` | block/blk-flush.c:8-49 | in every run, when the data of a PREFLUSH request is sent, or it ends without error, every write completed before its insertion is on stable media unless the request was let down at PREFLUSH |
| `Flush.NeverStuck` | block/blk-flush.c:286-350 | whenever a request is in the machinery some completion is outstanding |
| `Flush.CompletionProgress` | block/blk-flush.c:164-266 | every completion strictly lowers the remaining steps, or keeps them and drops a reference |
| `Flush.CompletionsEnd` | block/blk-flush.c:164-374 | a schedule that only completes outstanding work ends within the work ahead, and where it cannot go on every request has been completed |
| `Flush.ErrorReportedIff` | block/blk-flush.c:226-238 | over any run, from the completion of a flush by the device to the call that ends it, whatever comes in between: a waiting request gets the status of the device iff no reference is dropped in between, otherwise it goes on as after a success |
| `Flush.NeedDurableIff` | block/blk-flush.c:8-49 | what any waiting request needs of the flush is durable afterwards iff the device reported no error or it was durable before |
| `Flush.ForgottenError` | block/blk-mq.c:929-935 | a concrete run with two held references in which a FUA write ends without error and is not durable |
| `FlushQueues.FlushQueue.constructor` | block/blk-flush.c:470-494 | a new queue is the initial state of the machine |
| `FlushQueues.FlushQueue.KickFlush` | block/blk-flush.c:286-350 | refines the flush decision of the state machine |
| `FlushQueues.FlushQueue.CompleteSequence` | block/blk-flush.c:164-213 | refines the step completion, list moves and the final kick included |
| `FlushQueues.FlushQueue.EndIo` | block/blk-flush.c:215-266 | the loop over the finished list refines the drain of the state machine |
| `FlushQueues.FlushQueue.DataEndIo` | block/blk-flush.c:352-374 | refines the data completion step |
| `FlushQueues.FlushQueue.Insert` | block/blk-flush.c:385-445 | refines the insertion step, for every flag combination |
| `WeightTree.NoActivePairs` | block/blk-iocost.c:1206-1257 | no active group has an active ancestor |
| `WeightTree.InuseBounds` | block/blk-iocost.c:1018-1079 | below the root, 1 <= inuse <= active on every group with active weight |
| `WeightTree.LeavesDetermine` | block/blk-iocost.c:1018-1079 | two valid trees with the same active leaves and leaf inuse agree everywhere below the root: an upward walk that ends valid has computed what a full recomputation would |
| `WeightTree.WalkOk` | block/blk-iocost.c:1045-1076 | the upward walk with its early exit repairs a tree that is wrong in one child only |
| `WeightTree.PropagateOk` | block/blk-iocost.c:1018-1079 | propagating new weights from any group yields a valid tree |
| `WeightTree.ActivateValid` | block/blk-iocost.c:1195-1278 | activation keeps the tree valid and touches no other active leaf |
| `WeightTree.DeactivateValid` | block/blk-iocost.c:2168-2169 | deactivation keeps the tree valid |
| `WeightTree.SetInuseValid` | block/blk-iocost.c:1018-1079 | an inuse change keeps the tree valid; the new value is clamped to [1, active] |
| `WeightTree.SetWeightValid` | block/blk-iocost.c:1180-1193 | a weight change keeps the tree valid, whether the group is active, inner or idle |
| `WeightTree.HweightSplitsAt` | block/blk-iocost.c:1124-1142 | one level of the flattening walk hands a child no more than its part of the parent, for both weights |
| `WeightTree.HweightsWithinOne` | block/blk-iocost.c:1100-1152 | before the floor of 1 the flattened weights of all active leaves sum to at most WEIGHT_ONE |
| `WeightTree.HweightsNearOne` | block/blk-iocost.c:1100-1152 | with any group active the sum falls short of WEIGHT_ONE by at most one unit per group with weight |
| `Iocost.PathIsAbove` | block/blk-iocost.c:1230-1232 | the ancestor array holds exactly the ancestors |
| `Iocost.Ioc.ApplyWeights` | block/blk-iocost.c:1050-1055 | one round of the walk |
| `Iocost.Ioc.DeriveWeights` | block/blk-iocost.c:1057-1067 | the weights a parent gets from its sums |
| `Iocost.Ioc.WalkUp` | block/blk-iocost.c:1045-1076 | the loop refines the recursive walk, early exit included |
| `Iocost.Ioc.PropagateWeights` | block/blk-iocost.c:1018-1079 | refines propagation; remembers the old inuse and flags an update iff a leaf value changed |
| `Iocost.Ioc.CommitWeights` | block/blk-iocost.c:1081-1091 | a pending update becomes a new generation, which invalidates every cached pair |
| `Iocost.Ioc.CurrentHweight` | block/blk-iocost.c:1100-1152 | returns what a fresh walk over the committed tree computes, with its floor of 1, whether or not the cache is hit |
| `Iocost.Ioc.CanActivate` | block/blk-iocost.c:1214-1235 | true iff the group has no active descendant and no active ancestor |
| `Iocost.Ioc.ActivateGroup` | block/blk-iocost.c:1195-1278 | succeeds iff the group was active or may be; tree valid and cache sound afterwards |
| `Iocost.Ioc.DeactivateGroup` | block/blk-iocost.c:2168-2169 | the group leaves the tree; cache stays sound |
| `Iocost.Ioc.UpdateInuse` | block/blk-iocost.c:1018-1091 | tree valid and cache sound after an inuse change and commit |
| `Iocost.Ioc.UpdateWeight` | block/blk-iocost.c:1180-1193 | tree valid and cache sound after a weight change |
| `Donation.ClampsIdle` | block/blk-iocost.c:1863-1891 | when every inner group of the walk gives away a unit, the range checks change nothing, even if a single donor is asked to end above its share |
| `Donation.OrdinaryIsDonatable` | block/blk-iocost.c:1808-1826 | that is the case whenever every donor gives away a unit |
| `Donation.PlanScales` | block/blk-iocost.c:1893-1953 | every adjusted share, weight and sum on the walk is the old one scaled by b'/(gamma b) |
| `Donation.DonorUnclamped` | block/blk-iocost.c:1975-1985 | with room to donate, a donor's new inuse lies within its clamp |
| `Donation.NewSharesSplit` | block/blk-iocost.c:1778-1991 | the intended new shares add up at every inner group: what donors give is what others gain |
| `Donation.DonationExact` | block/blk-iocost.c:1778-1991 | after propagation every group has exactly the share the plan intends, for every weight tree |
| `Donation.DonationOutcome` | block/blk-iocost.c:1778-1991 | donors end at exactly their target share, every other leaf at gamma times its old share, gamma >= 1 |
| `Transfer.PropagateUp` | block/blk-iocost.c:1843-1861 | the bottom-up walk computes subtree sums |
| `Transfer.CheckRanges` | block/blk-iocost.c:1863-1891 | applies the range checks to every inner group of the walk |
| `Transfer.PlanRoot` | block/blk-iocost.c:1893-1926 | gamma and the adjusted sum of the root; gamma is at least 1 |
| `Transfer.PlanInner` | block/blk-iocost.c:1928-1952 | one inner group: its new share, weight and adjusted sum, all positive |
| `Transfer.PlanWalk` | block/blk-iocost.c:1911-1953 | the pre-order walk sets every inner group of the walk after its parent |
| `Transfer.PlanDonors` | block/blk-iocost.c:1955-1986 | every donor gets the weight that yields its target |
| `Transfer.TransferSurpluses` | block/blk-iocost.c:1778-1991 | the walks together compute a plan |
| `Settle.PropagateInuse` | block/blk-iocost.c:1018-1079 | donor by donor, from any consistent weights: every donor ends with its clamped new weight, every other leaf with its old one, every inner group with what its children say |
| `Settle.Climb` | block/blk-iocost.c:1045-1076 | one round of the upward walk: the parent is next, with the weight its children now call for |
| `Settle.PropagateLeaf` | block/blk-iocost.c:1018-1079 | one donor: the upward walk with its early exit makes every inner group what its children say, and touches no other leaf |
| `Settle.FlattenShares` | block/blk-iocost.c:1100-1152 | computes every group's share from the propagated weights |
| `Settle.Donate` | block/blk-iocost.c:1778-1991 | end to end: plan, propagation and shares of a whole donation; targets met exactly and one common factor for everybody else when no weight needs clamping |
| `Budget.CostRoundTripIff` | block/blk-iocost.c:708-719 | absolute cost to group cost and back is the identity iff the share divides it, otherwise one more |
| `Budget.BudgetRoundTrip` | block/blk-iocost.c:708-719 | a budget converted to absolute cost and back never shrinks |
| `Budget.WokenIsLongest` | block/blk-iocost.c:1384-1409 | the waiters woken are the longest prefix whose total cost fits the budget |
| `Budget.QueueCharged` | block/blk-iocost.c:721-732 | woken waiters are charged at least their part of the device |
| `Budget.PaymentUsesBudget` | block/blk-iocost.c:1430-1442 | a debt payment lowers the debt, charges at least what it covers, and leaves no budget while debt remains |
| `Budget.PaymentOvershoot` | block/blk-iocost.c:1430-1442 | a payment overshoots the budget by less than the price of one unit of absolute cost plus one tick |
| `Budget.NobodyWokenInDebt` | block/blk-iocost.c:1447-1466 | no waiter is let through while debt remains |
| `Budget.KickWakesPrefix` | block/blk-iocost.c:1416-1466 | waiters go in order, are charged exactly, never take vtime past the device's, and what stays does not fit |
| `Budget.KickConserves` | block/blk-iocost.c:1416-1466 | kicking loses and invents no cost: accounted plus waiting stays the same |
| `Budget.ThrottleConserves` | block/blk-iocost.c:2535-2668 | every IO is accounted exactly once, now or when woken, and does not overtake waiters |
| `Budget.IocGroup.WakeUp` | block/blk-iocost.c:1384-1409 | the wake-up loop refines the prefix choice; its budget is negative if anybody is left |
| `Budget.IocGroup.Pay` | block/blk-iocost.c:1430-1442 | refines the payment |
| `Budget.IocGroup.PayFirst` | block/blk-iocost.c:1426-1454 | pays as the payment does and returns what the waiters may spend |
| `Budget.IocGroup.KickWaitq` | block/blk-iocost.c:1416-1480 | refines kicking; the WARN_ON about a non-negative budget with waiters cannot trigger |
| `Budget.IocGroup.ThrottleBio` | block/blk-iocost.c:2535-2668 | refines the decision between issuing, debt and waiting |
| `Budget.IocGroup.MergeBio` | block/blk-iocost.c:2670-2727 | refines the decision between charging and debt |
| `Throughput.SteppedWithin` | block/blk-iocost.c:2535-2727 | a step that leaves no debt charges what it lets through and stays within the device's virtual time |
| `Throughput.GroupWithin` | block/blk-iocost.c:2535-2727 | the same per group over any run |
| `Throughput.ThroughputWithFloor` | block/blk-iocost.c:1416-1497 | over any debt-free run with fixed weights, all groups together commit at most the largest credit of an active leaf times 1 plus the number of lifted shares over WEIGHT_ONE |
| `Throughput.ThroughputBound` | block/blk-iocost.c:708-732 | without lifted shares, at most the largest credit |
| `ServiceTree.GtIsOrder` | block/bfq-wf2q.c:18-21 | within half the 64-bit range the wrapping comparison is a strict order |
| `ServiceTree.UpdateNodeOk` | block/bfq-wf2q.c:422-429 | recomputing a node from its children makes it right |
| `ServiceTree.StepUp` | block/bfq-wf2q.c:441-459 | one round of the repair leaves everything below the parent right |
| `ServiceTree.UpdateActiveTree` | block/bfq-wf2q.c:441-459 | if only the path to the root and its siblings are stale, every node's min_start is its subtree's minimum afterwards |
| `ServiceTree.FindPlace` | block/bfq-wf2q.c:371-391 | the descent finds the place that keeps the order, after entities with equal finish |
| `ServiceTree.ActiveInsert` | block/bfq-wf2q.c:472-503 | exactly the entity is added, between those that do not finish later and those that do; all minima right |
| `ServiceTree.ExtractOk` | block/bfq-wf2q.c:548-567 | unlinking a node removes exactly its entity and leaves only the path from the deepest changed node stale |
| `ServiceTree.ActiveExtract` | block/bfq-wf2q.c:574-602 | exactly the entity is gone, in order, all minima right |
| `ServiceTree.MinDecides` | block/bfq-wf2q.c:1350-1376 | min_start tells iff a subtree holds an eligible entity |
| `ServiceTree.SearchComplete` | block/bfq-wf2q.c:1350-1376 | the search returns an eligible entity iff there is one |
| `ServiceTree.FirstActive` | block/bfq-wf2q.c:1350-1376 | the loop refines the search |
| `ServiceTree.LeftmostIff` | block/bfq-wf2q.c:1350-1376 | the entity returned is the leftmost eligible one iff the search does not stop on an eligible ancestor first |
| `ServiceTree.LeftmostFinishesFirst` | block/bfq-wf2q.c:1338-1349 | in a tree sorted by finish time the leftmost eligible entity finishes no later than any other eligible one |
| `ServiceTree.SmallestIff` | block/bfq-wf2q.c:1338-1376 | the entity returned has the smallest finish time of all eligible ones iff the search does not stop early, or stops on one that ties with the leftmost |
| `ServiceTree.SmallestIffNotEarly` | block/bfq-wf2q.c:1338-1376 | with no two finish times alike, iff the search does not stop early |
| `ServiceTree.NotAlwaysSmallest` | block/bfq-wf2q.c:1368-1371 | a concrete tree in which the returned entity does not have the smallest finish |
| `ServiceTree.LookupNeverFails` | block/bfq-wf2q.c:1320-1431 | after the virtual-time jump a non-empty active tree always yields an entity |
| `ServiceTree.VtimeFollowsIff` | block/bfq-wf2q.c:1330-1336 | the stored virtual time follows the jump iff the jump does not cross the end of the 64-bit range |
| `ServiceAccounting.NoDivisionByZero` | block/bfq-wf2q.c:836-843 | a class with a flagged entity has a positive weight sum |
| `ServiceAccounting.IdleExtractOk` | block/bfq-wf2q.c:341-361 | extraction keeps sums, places and first_idle |
| `ServiceAccounting.ActiveExtractOk` | block/bfq-wf2q.c:574-602 | extraction from the active tree keeps the accounting |
| `ServiceAccounting.ActiveInsertOk` | block/bfq-wf2q.c:472-503 | insertion into the active tree keeps the accounting |
| `ServiceAccounting.IdleInsertOk` | block/bfq-wf2q.c:609-625 | insertion keeps sums and places, and first_idle the leftmost entity of the tree, whatever the timestamps |
| `ServiceAccounting.ForgetOk` | block/bfq-wf2q.c:642-652 | forgetting takes exactly the entity's weight out of its class |
| `ServiceAccounting.UpdateDetached` | block/bfq-wf2q.c:717-812 | a weight and class change moves the entity's weight between the right sums |
| `ServiceAccounting.UpdateInPlace` | block/bfq-wf2q.c:717-812 | a weight change of an entity on a tree keeps all sums |
| `ServiceAccounting.EnqueueOk` | block/bfq-wf2q.c:892-950 | pricing and enqueueing keeps the accounting |
| `ServiceAccounting.ActivateOk` | block/bfq-wf2q.c:964-1019 | a true activation, from the idle tree or from nowhere, keeps the accounting |
| `ServiceAccounting.RequeueOk` | block/bfq-wf2q.c:1036-1100 | requeueing, in service or not, keeps the accounting |
| `ServiceAccounting.DeactivateOk` | block/bfq-wf2q.c:1162-1206 | deactivation, to the idle tree or to nowhere, keeps the accounting, whatever the timestamps |
| `ServiceAccounting.PutIdleOk` | block/bfq-wf2q.c:659-664 | releasing an idle entity keeps the accounting |
| `ServiceAccounting.ForgetIdleOk` | block/bfq-wf2q.c:673-689 | forgetting the first idle entity keeps the accounting |
| `ServiceAccounting.ServedOk` | block/bfq-wf2q.c:824-845 | charging service never divides by zero and keeps the accounting |
| `ServiceAccounting.ServeOk` | block/bfq-wf2q.c:1509-1599 | taking an entity into service keeps the accounting |
| `ServiceAccounting.ResetInServiceOk` | block/bfq-wf2q.c:1602-1640 | ending service keeps the accounting |
| `ServiceAccounting.ReprioritizeOk` | block/bfq-wf2q.c:717-812 | recording a change to be applied later keeps the accounting |
| `ServiceAccounting.NextInv` | block/bfq-wf2q.c:341-1206 | every enabled operation keeps: each class's wsum is the weight of its flagged entities, flags match placement, every entity is on at most one tree of its class, first_idle is the leftmost idle entity |
| `ServiceAccounting.RunInv` | block/bfq-wf2q.c:824-845 | the same in every state of every run, hence no zero divisor |
| `ServiceAccounting.ServedAdvancesIff` | block/bfq-wf2q.c:673-689 | service advances the virtual time by service over weight sum iff the idle tree has not been overtaken with the active tree empty; otherwise it is set back |
| `ServiceAccounting.ServedMovesBack` | block/bfq-wf2q.c:677-685 | a concrete state in which a unit of service leaves the virtual time behind where it should be |
| `ServiceAccounting.ServedFallsBackIff` | block/bfq-wf2q.c:673-689 | service leaves the virtual time behind the value it had before iff the idle tree has been overtaken and its last finish lies behind that value, or not and the service is worth more than half the 64-bit range |
| `ServiceAccounting.ServedFallsBack` | block/bfq-wf2q.c:677-685 | a concrete state in which a unit of service takes the virtual time from 10 back to 5 |
| `ServiceAccounting.PushedToVtime` | block/bfq-wf2q.c:906-947 | the push-up keeps the distance of the timestamps and moves the finish to the virtual time, or not beyond it when weight-raised |
| `ServiceAccounting.EnqueuedSpan` | block/bfq-wf2q.c:892-950 | an enqueued entity's interval is its budget over its weight |
| `ServiceAccounting.DeferredClassChange` | block/bfq-wf2q.c:698-812 | deferring the class part of a change to the next enqueue comes to the same as applying it at once |
| `ServiceAccounting.RequeueCharges` | block/bfq-wf2q.c:1036-1063 | a requeued entity finishes at the start of its last service plus the service got at its old weight plus the budget ahead at its new one; only a class change starts it afresh at the virtual time of the new class |
| `ServiceAccounting.ActivationStartsInTime` | block/bfq-wf2q.c:964-1003 | an activation that is not backshifted starts no earlier than the virtual time nor than an idle entity's last finish |
| `IdleOrder.FirstIdleIsSmallest` | block/bfq-wf2q.c:609-625 | in an ordered idle tree first_idle finishes no later than any other entity |
| `IdleOrder.IdleInsertOrdered` | block/bfq-wf2q.c:609-625 | insertion keeps the idle tree in order of finish time when the finish times it compares lie within half the 64-bit range |
| `IdleOrder.WindowNeeded` | block/bfq-wf2q.c:371-391 | three finish times spread wider than that, for which insertion breaks the order |
| `IdleOrder.ActivateOrdered` | block/bfq-wf2q.c:964-1019 | an activation keeps the idle trees in order |
| `IdleOrder.RequeueOrdered` | block/bfq-wf2q.c:1036-1100 | so does a requeueing |
| `IdleOrder.ForgetIdleOrdered` | block/bfq-wf2q.c:673-689 | so does forgetting the first idle entity |
| `IdleOrder.DeactivateOrdered` | block/bfq-wf2q.c:1162-1206 | so does a deactivation; only one that goes to the idle tree needs comparable finish times |
| `IdleOrder.NextOrdered` | block/bfq-wf2q.c:341-1206 | every operation keeps the idle trees in order, deactivations to the idle tree if their finish times are comparable |
| `IdleOrder.RunOrdered` | block/bfq-wf2q.c:341-1206 | in every state of a run whose insertions so far were comparable the idle trees are in order |
| `SchedulingLevel.SchedData.TakeFromIdle` | block/bfq-wf2q.c:341-361 | refines extraction from the idle tree |
| `SchedulingLevel.SchedData.PutOnIdle` | block/bfq-wf2q.c:609-625 | refines insertion into the idle tree |
| `SchedulingLevel.SchedData.ForgetEntity` | block/bfq-wf2q.c:642-652 | refines forgetting |
| `SchedulingLevel.SchedData.UpdatePrio` | block/bfq-wf2q.c:748-788 | refines the new weight, class and pending flag of an entity |
| `SchedulingLevel.SchedData.ApplyPrio` | block/bfq-wf2q.c:717-812 | refines the weight and class change |
| `SchedulingLevel.SchedData.PushUp` | block/bfq-wf2q.c:939-947 | refines the push-up of backshifted timestamps |
| `SchedulingLevel.SchedData.FinTimeEnqueue` | block/bfq-wf2q.c:892-950 | refines pricing and enqueueing |
| `SchedulingLevel.SchedData.ActivateEntity` | block/bfq-wf2q.c:964-1019 | refines activation and keeps the invariant |
| `SchedulingLevel.SchedData.TakeFromActive` | block/bfq-wf2q.c:574-602 | refines extraction from the active tree |
| `SchedulingLevel.SchedData.RequeueEntity` | block/bfq-wf2q.c:1036-1100 | refines requeueing and keeps the invariant |
| `SchedulingLevel.SchedData.DeactivateEntity` | block/bfq-wf2q.c:1162-1206 | refines deactivation and keeps the invariant; false iff the entity was inactive |
| `SchedulingLevel.SchedData.ForgetOneIdle` | block/bfq-wf2q.c:673-689 | refines forgetting the first idle entity and keeps the invariant |
| `SchedulingLevel.SchedData.ServedEntity` | block/bfq-wf2q.c:824-845 | refines charging service and keeps the invariant |
| `BadblockTable.PackRoundTrip` | include/linux/badblocks.h:11-26 | an entry that fits the fields survives packing into a word |
| `BadblockTable.SignSpreads` | include/linux/badblocks.h:18-18 | a length of zero or less overrides every other bit of the packed word |
| `BadblockTable.MadeIsUnpacked` | include/linux/badblocks.h:15-18 | read back, such a word is an acknowledged entry at the largest offset |
| `BadblockTable.MarkedOnce` | block/badblocks.c:53-125 | in a sorted table no sector is both acknowledged and not |
| `BadblockTable.OverlapIsBad` | block/badblocks.c:53-125 | some range overlaps the interval iff some sector of it is bad |
| `BadblockTable.ClearedMarks` | block/badblocks.c:331-423 | clearing removes exactly the sectors of the interval; every other sector keeps its flag |
| `BadblockTable.ClearedSorted` | block/badblocks.c:331-423 | clearing keeps a table sorted and disjoint |
| `BadblockInsert.SlotIs` | block/badblocks.c:187-201 | the binary search of set finds the number of ranges starting at or before the new one |
| `BadblockInsert.MergesBad` | block/badblocks.c:203-264 | for any sorted table: what is recorded together with what is still to be recorded stays the union through both merges |
| `BadblockInsert.JoinLength` | block/badblocks.c:265-282 | the length computed by the join is the distance from the start of the one to the end of the other range, and above -512 |
| `BadblockInsert.AddRestReach` | block/badblocks.c:283-304 | new entries record the rest exactly as far as free entries go; failure iff that is not all |
| `BadblockInsert.UnionIff` | block/badblocks.c:163-314 | on any sorted table and for any length a successful call records exactly the union iff the final join drops nothing |
| `BadblockInsert.SortedIff` | block/badblocks.c:163-314 | on any sorted table and for any length the table stays sorted iff the join or the single new entry fits before the next range |
| `BadblockInsert.NewRangeUnion` | block/badblocks.c:163-314 | a range not recorded yet that fits one entry and finds a free slot: success, the union, sorted and disjoint |
| `BadblockInsert.DropExample` | block/badblocks.c:265-282 | a successful call over two ranges that forgets the last ten sectors it was asked to record |
| `BadblockInsert.GarbleExample` | block/badblocks.c:265-282 | a successful call over three ranges that forgets five sectors and records acknowledged ones at the end of the address space |
| `BadblockInsert.DisorderExample` | block/badblocks.c:283-304 | a call of two entries' length on an empty table that leaves them in the wrong order |
| `BadblockInsert.AcksIff` | block/badblocks.c:163-314 | on any sorted table and for any length, no sector is acknowledged that was not before or is not part of an acknowledging call, iff no spilt tail finds room and the join writes no garbled entry |
| `BadblockInsert.OveracksShort` | block/badblocks.c:243-304 | for a call of at most one entry: a spilt tail finds room iff the table is not full |
| `BadblockInsert.SpillExample` | block/badblocks.c:243-263 | a concrete call that acknowledges a sector recorded as unacknowledged and not part of the call |
| `Badblocks.Badblocks.constructor` | block/badblocks.c:544-564 | a new table is valid and empty |
| `Badblocks.Badblocks.FindLast` | block/badblocks.c:78-98 | the binary search finds the last range starting before a bound |
| `Badblocks.Badblocks.Check` | block/badblocks.c:53-125 | 0, 1 or -1 exactly as a scan of all ranges would answer, with the lowest overlapping range |
| `Badblocks.Badblocks.CheckInterval` | block/badblocks.c:72-119 | the same for the rounded interval |
| `Badblocks.Badblocks.Scan` | block/badblocks.c:100-119 | the backward walk completes the answer of the search, keeping the lowest overlapping range |
| `Badblocks.Badblocks.UpdateAcked` | block/badblocks.c:128-146 | the flag stays set iff an unacknowledged range exists |
| `Badblocks.Badblocks.SplitAt` | block/badblocks.c:378-389 | cutting a range in two |
| `Badblocks.Badblocks.Trim` | block/badblocks.c:394-415 | the downward walk removes exactly the interval from the ranges below |
| `Badblocks.Badblocks.ClearStraddled` | block/badblocks.c:371-393 | clearing inside a range that reaches beyond the interval |
| `Badblocks.Badblocks.ClearInterval` | block/badblocks.c:353-416 | clears exactly the interval; -ENOSPC iff a full table needs a split, and then nothing changes |
| `Badblocks.Badblocks.Clear` | block/badblocks.c:331-423 | the same after rounding; the table stays sorted and disjoint iff the rounded interval is not inverted inside a range, and otherwise that range is cut into two overlapping entries |
| `Badblocks.Badblocks.ExtendBefore` | block/badblocks.c:203-234 | refines merging with the range before |
| `Badblocks.Badblocks.ExtendAfter` | block/badblocks.c:235-264 | refines merging with the range after |
| `Badblocks.Badblocks.Combine` | block/badblocks.c:265-282 | refines joining the two neighbours, for new lengths of zero or less too |
| `Badblocks.Badblocks.AddEntries` | block/badblocks.c:283-304 | refines adding entries for the rest; fails iff the table is full |
| `Badblocks.Badblocks.FindSlot` | block/badblocks.c:187-201 | finds the insertion point |
| `Badblocks.Badblocks.Set` | block/badblocks.c:163-314 | refines insertion after rounding; states exactly when the table stays sorted, when the union is recorded and when nothing else is acknowledged |
| `Badblocks.Badblocks.AckAll` | block/badblocks.c:433-455 | every range becomes acknowledged, sectors unchanged, unless a change is still unreported |
| `Badblocks.ClearBreaksTable` | block/badblocks.c:336-393 | a concrete call of clear whose rounded interval is inverted: it leaves two overlapping entries |
| `Badblocks.CutKeepsMarks` | block/badblocks.c:336-393 | a clear with an inverted interval changes the flag of no sector: only the order of the table is lost |
| `Badblocks.SetThenCheck` | block/badblocks.c:53-314 | after a set of a new range, a check that overlaps it reports it bad, and unacknowledged if it was recorded so |
| `Badblocks.RoundsOverlap` | block/badblocks.c:62-69 | two overlapping requests overlap after rounding |
| `Submit.VisitOnce` | block/blk-core.c:956-1003 | the traversal takes up every bio reached through entered queues and passed checks exactly once, and nothing else |
| `Submit.VisitAllOnce` | block/blk-core.c:956-1003 | the same for a list of bios |
| `Submit.Task.SubmitNoacct` | block/blk-core.c:1040-1059 | while a submission is under way a bio is only appended; otherwise it and all it spawns are processed in traversal order |
| `Submit.Task.Drive` | block/blk-core.c:973-979 | a driver only queues; no two drivers are ever active at once |
| `Submit.Task.SortNew` | block/blk-core.c:981-998 | new bios go before older ones, other devices first, each kind in submission order |
| `Submit.Task.Take` | block/blk-core.c:966-998 | what is pending after a bio is what the recursion would do next |
| `Submit.Task.Loop` | block/blk-core.c:956-1003 | the two-list loop issues exactly what the recursive traversal does, in its order |
| `BioChain.ChainInv` | block/bio.c:338-346 | chaining keeps counters, order of completion and status rule |
| `BioChain.FinishOk` | block/bio.c:1396-1454 | running an end_io keeps them and passes one completion to the parent, which has not finished |
| `BioChain.EndInv` | block/bio.c:1429-1463 | ending a bio keeps them, however far up the completion goes |
| `BioChain.TreeDone` | block/bio.c:327-337 | when an end_io has run, every bio of the tree chained to it was ended by its owner and ran its own end_io no later |
| `BioChain.ErrorReachesRoot` | block/bio.c:312-321 | an error reaches the root if no owner on its way stores success over it |
| `BioChain.StatusIff` | block/bio.c:312-321 | the status seen by an end_io is an error iff some bio of its tree ended with one that no owner on the way up overwrote, and is one of those errors |
| `BioChain.StatusIffTree` | block/bio.c:312-321 | where nothing is overwritten: iff some bio of the tree ended with an error |
| `BioChain.LostIff` | block/blk-crypto-fallback.c:146-160 | over any run: what a bio handed up is lost iff the owner of its parent stored success afterwards |
| `BioChain.ErrorOverwritten` | block/blk-crypto-fallback.c:146-160 | a concrete run in which the front part of a split bio fails and the end_io of the whole sees success |
| `BioChain.EverythingFinishes` | block/bio.c:1415-1428 | without cycles, once every owner has ended its bio every end_io has run |
| `BioChain.RunCompletes` | block/bio.c:1396-1463 | over any sequence of chainings and endings: each end_io at most once, and all of them once everything has ended |
| `BioChain.Pool.constructor` | block/bio.c:300-309 | fresh bios satisfy the invariant |
| `BioChain.Pool.BioChain` | block/bio.c:338-346 | refines chaining and keeps the invariant |
| `BioChain.Pool.RemainingDone` | block/bio.c:1396-1413 | decides whether this was the last completion; the counter is positive, so the BUG_ON cannot trip |
| `BioChain.Pool.Round` | block/bio.c:1431-1452 | one round of the loop: count, or run end_io and go on with the parent |
| `BioChain.Pool.BioEndio` | block/bio.c:1429-1463 | the loop refines completion and terminates |
| `Dun.LaterLater` | block/blk-crypto.c:116-133 | advancing by a and then by b units is advancing by a + b |
| `Dun.ValueOfLimbs` | block/blk-crypto.c:116-133 | the limbs of an integer are that integer modulo their range |
| `Dun.Increment` | block/blk-crypto.c:117-133 | the carry loop adds to the multi-limb integer, modulo 2^256 |
| `Dun.IsContiguous` | block/blk-crypto.c:147-169 | true iff the DUN plus the units equals the next DUN as integers, so never across a wrap |
| `Dun.ContiguousIff` | block/blk-crypto.c:135-169 | an advanced DUN is the next one as an integer iff its limbs are the next one's and it did not wrap |
| `CryptoFallback.CryptUnit` | block/blk-crypto-fallback.c:312-344 | data unit k is transformed on its own, under the IV of the first unit plus k |
| `CryptoFallback.CryptConcat` | block/blk-crypto-fallback.c:312-344 | data in two parts, the second under the DUN where the first ends, is the data in one |
| `CryptoFallback.CryptRoundTrip` | block/blk-crypto-fallback.c:412-429 | decrypting under the same DUN undoes encrypting |
| `CryptoFallback.CheckAlignment` | block/blk-crypto.c:204-217 | true iff every segment is aligned in length and offset |
| `CryptoFallback.CryptUnits` | block/blk-crypto-fallback.c:414-429 | the inner loop over a segment, in place, with the running DUN |
| `CryptoFallback.CryptBio` | block/blk-crypto-fallback.c:312-344 | the loop over all segments transforms the whole data, segment layout unchanged |
| `CryptoSplit.SplitImage` | block/bio.c:1480-1507 | a split at a data unit boundary leaves what is written unchanged |
| `CryptoSplit.CutsKeepImage` | block/bio.c:1480-1507 | so does any nesting of splits |
| `CryptoSplit.RoundTrip` | block/blk-crypto-fallback.c:312-429 | data written under any splits and read back under any other segments and splits is the data written |
| `CryptoSplit.SplitIfNeeded` | block/blk-crypto-fallback.c:209-236 | splits iff there are more than 256 segments, after exactly 256, at a data unit boundary |
| `CryptoSplit.EncryptBio` | block/blk-crypto-fallback.c:259-352 | the first piece is encrypted; it and the rest under its advanced DUN make up the whole |
| `CryptoSplit.EncryptAll` | block/blk-crypto-fallback.c:209-352 | with all resubmissions: pieces of at most 256 segments whose ciphertext is that of the whole bio |
| `CryptoSplit.CtxMergeable` | block/blk-crypto.c:175-201 | true iff both have no context, or the same key and contiguous DUNs |
| `CryptoSplit.MergeKeepsImage` | block/blk-crypto.c:189-201 | merging mergeable bios keeps what each of them writes |
| `Rstat.AccountInv` | block/blk-cgroup.c:1913-1936 | accounting keeps the totals balanced |
| `Rstat.FlushInv` | block/blk-cgroup.c:764-803 | flushing one cpu of one group keeps every non-root total equal to its flushed per-cpu values plus what its children pushed up |
| `Rstat.RunInv` | block/blk-cgroup.c:764-853 | the same in every interleaving of accounting, flushes and root fills |
| `Rstat.SubtreeSplits` | block/blk-cgroup.c:791-799 | a subtree sum is the root's part plus the children's subtree sums |
| `Rstat.Conservation` | block/blk-cgroup.c:764-803 | in every such state a group has pushed up exactly what was counted in its subtree less what is unflushed or unpushed there |
| `Rstat.SettledIsExact` | kernel/cgroup/rstat.c:178-190 | once everything below is flushed a group's total is the exact sum over its subtree |
| `Rstat.PassStep` | kernel/cgroup/rstat.c:79-82 | flushing children before parents never undoes an earlier group of the pass |
| `Rstat.Blkgs.BioStart` | block/blk-cgroup.c:1913-1936 | one IO is counted each time, the bytes of a bio only the first time |
| `Rstat.Blkgs.FlushOne` | block/blk-cgroup.c:783-789 | a cpu's delta goes to its group, all six counters |
| `Rstat.Blkgs.PushOne` | block/blk-cgroup.c:791-799 | a group's delta goes to its parent, all six counters |
| `Rstat.Blkgs.RstatFlush` | block/blk-cgroup.c:764-803 | refines a flush step for all six counters |
| `Rstat.Blkgs.FlushSubtree` | kernel/cgroup/rstat.c:141-176 | a flush of all cpus in any bottom-up order makes every counter of the group the sum over its subtree |

## Left out

- Donation.DonationOutcome: exact real arithmetic, so the round-ups of the source, the scale-down of over-committed targets (`block/blk-iocost.c:1800-1826`) and groups in debt are not covered.
- Throughput.ThroughputBound: atomic steps, fixed weights and no debt; the racy reads of vtime and the paths for groups that were just deactivated are not covered.
- Budget.Kick: timers, delays, done_vtime and the 64-bit range of costs are not modelled; the shares before and after a payment are parameters.
- Iocost.Ioc.CommitWeights: the generation is an unbounded integer, so a wrap-around of `hweight_gen` is not modelled, nor are unsigned sums (a negative sum is treated as zero).
- IdleOrder.RunOrdered: the finish times compared when an entity goes to the idle tree are assumed to lie within half the 64-bit range; nothing is claimed about `last_idle` beyond membership.
- ServiceTree.ActiveInsert: red-black rebalancing is not modelled; `ServiceTree.UpdateActiveTree` covers the stale nodes it may leave.
- ServiceTree.ActiveExtract: works on tree values with a path to the node, so parent pointers and sharing of nodes are not modelled.
- ServiceAccounting.Served: one scheduling level; the loop over parent levels repeats it per level.
- BadblockInsert.UnionIff: for calls of at least one sector whose sectors, like the recorded ones, fit the 54 offset bits of an entry.
- Badblocks.Badblocks.Check: ranges are records; the packing into words is `BadblockTable.PackRoundTrip` and `BadblockTable.MadeIsUnpacked`.
- Submit.Task.Loop: devices without their own submit_bio (`block/blk-core.c:1005-1029`) and the rescuer that takes bios off the list are not modelled; a bio's tree of spawned bios is given in advance.
- BioChain.Pool.BioEndio: integrity-deferred completion and freeing of bios are not modelled.
- CryptoSplit.EncryptAll: allocation failures and failing cipher requests are not modelled; the cipher is any function that keeps the unit length.
- Rstat.RunInv: counters are unbounded integers, and the root's total is excluded because it is overwritten with disk statistics.
- Locks, RCU, memory barriers, per-cpu storage and reference counts other than the flush request's.
- vrate feedback, latency targets and cost-model parameters of iocost; `block/bfq-iosched.c` and `block/bfq-cgroup.c`: feedback heuristics without a crisp specification.
- The request queue, tag and scheduler plumbing of `block/blk-mq*.c`, partitions, sysfs and cgroup text interfaces.
