# A verified model of httplb

`httplb` is client-side load balancing for Go's `net/http`. This project models the parts of it
whose correctness is hard to see by reading, and proves what they promise. Run
`dafny verify dfyconfig.toml` here to check all of it.

| file | models |
|---|---|
| `GoHeap.dfy` | Go's `container/heap`, which two components below run over their own storage |
| `LeastLoadedHeap.dfy`, `LeastLoadedSpec.dfy` | the least-loaded picker's index-carrying heap, in place, and what each operation does to it |
| `LeastLoadedRuns.dfy`, `LeastLoadedFairness.dfy` | heap order, membership, level loads and round-robin tie-breaking over whole runs |
| `RequestLifecycle.dfy` | one connection's `outstandingRequests` counter, its closing mark, the body hook and the calls of `whenDone`, as a step relation |
| `RequestAccounting.dfy` | a picker's items, the connections behind them and all their requests together: loads against open picks, evicted items included |
| `FewestInFlight.dfy` | when a least-loaded picker picks the connection, and not only the item, with the fewest requests in flight |
| `DrainProgress.dfy` | from which states a marked connection can still finish closing |
| `ConnPool.dfy` | the active and draining lists of one transport pool |
| `PoolDrain.dfy` | one pool with all its connections, their requests and closers, and what its `close` waits for |
| `PoolLifecycle.dfy` | the root transport: lookups, creation, idle removal, cancellation, `close`, as a step relation |
| `PoolClosing.dfy` | when a pool, and a call of the transport's `close`, can still finish |
| `ConnManager.dfy` | reconciling connections with resolved addresses, and recycling |
| `Balancer.dfy` | health tiers, usable connections and the published picker, as a class and a step relation |
| `Words32.dfy`, `Murmur3.dfy` | 32-bit words, incremental MurmurHash3 and its collisions |
| `Murmur3Values.dfy` | the published values of the hash, computed from the model |
| `Rendezvous.dfy` | rendezvous top-k selection in the caller's slice, and its stability |
| `HealthPolling.dfy` | hysteresis of the polling health checker |
| `PollingResolver.dfy` | the polling resolver's two timers, and the address-family filter |
| `Collections.dfy` | duplicate-free sequences and counting |

In the step relations one atomic operation, one critical section or one channel operation is one
step; a channel of capacity 1 is a boolean; int64 and uint64 wrap-around is written out.

## Where the code and its comments differ

The model follows the code; each difference is settled by a theorem that says exactly when the
comment holds.

- `update` says it pushes newcomers with `heap.Push`, but calls `h.Push`, which only appends
  (picker/leastloaded.go:156-166). Heap order survives an update if and only if the heap is rebuilt
  or every parent slot of a newcomer holds an idle, never-picked item
  (`UpdateKeepsOrderIff`, and over runs `RunKeepsOrderIff`), and the next acquire is least unless the
  newcomers were pushed behind a root that is busy or was picked before (`AcquireAfterUpdateIff`).
  `OneBusyConnBreaksOrder` is the smallest broken case, `DirectPushBreaksOrder` a larger one. With the
  `heap.Push` of the comment order always survives (`SiftingRunKeepsOrder`).
- An aborted `startRequest` does not look for the closing mark after its second `Add`
  (transport.go:847-855). Draining is always safe (`DrainSafety`) but completes if and only if no
  aborted start overlaps the end of the last active request (`DrainCompletesIff`); the lost signal is
  reachable (`StuckRunIsReachable`) and final (`LostForGood`). In every state in which the transport's
  `close` has cancelled and taken the warm pools, a call of it can still return if and only if no pool is
  doomed (`CloseCanReturnIff`): none waits for a lost connection, and none is still open with a lost
  connection on `removedConns`, its balancer returned, and every closer of its other connections returned too.
- `connClosed` filters `t.conns` where its comment says `t.removedConns` (transport.go:578-594).
  Closing the pool waits for a removed connection if and only if no connection finished closing since
  the removal (`RemovedIsWaitedForIff`, `DrainingConnIsForgotten`). So a lost connection may be dropped,
  and `close` returns without it (`LostConnCanBeForgotten`), or be in the snapshot of `close`, which then
  never returns (`LostConnCanBlockClose`), or be bound for it once the balancer's goroutine has returned
  (`StoppedPoolBlocksClose`). `OpenPoolCanForgetIff` says exactly when an open pool can still drop it.
- The least-loaded pickers promise the connection with the fewest requests in flight
  (picker/leastloaded.go:27-29, 46-48), but count per item, and a connection that leaves and comes back
  gets a new item with load 0. With two or more connections that stay, every pick takes a least busy
  connection if and only if none of them has requests that were counted on an older item
  (`PicksLeastConnIff`); `BusyConnIsPicked` is a run in which the busier of two is next.
- `Reset` drops the seed (internal/murmur3.go:122-124). A hash used again after `Reset` agrees with a
  new one of the same seed if and only if that seed is 0, as it is in the subsetter
  (`HashAgainAfterReset`).
- The subsetter promises the same addresses for the same key and k (resolver/rendezvous.go:29-33).
  Another order of the same addresses can give another subset if and only if a rejected address ties
  in rank with a different chosen one (`OrderMattersIff`); one host:port with two different
  attributes is such a tie (`TiedPair`). That only the requests of a lost address move is likewise true
  up to ties, exactly: `RemovingUnchosenIff`, `RemovingChosenIff` and `AddingIff`; in `UnchosenMatters`
  losing an unchosen address changes the subset.
- `tryRemovePool` speaks of pools that another goroutine is using (transport.go:392-400), but creating a
  pool leaves no token in its activity channel. An idle removal finds the pool unused since the channel
  was last drained if and only if it ever was drained (`IdleRemovalIsIdleIff`); otherwise the lookup
  that made the pool has returned it (`NewPoolCanBeRemoved`).
- `update` divides by `bits.Len(newLen)` (picker/leastloaded.go:159), so it needs a non-empty heap or
  a non-empty set; that a picker is only ever built from a non-empty set is part of
  `PicksIffSomeUsable`.

## Model

| member | source | states |
|---|---|---|
| GoHeap.RootIsLeast | picker/leastloaded.go:186-187 | in a heap no element comes before the root, which is the item `acquire` takes |
| GoHeap.InitMakesHeap | picker/leastloaded.go:127 | `heap.Init` makes a heap of any contents |
| GoHeap.FixAfterUpdate | picker/leastloaded.go:188-190 | whatever is written into one slot of a heap, `heap.Fix` of that slot restores the heap |
| GoHeap.DownRestoresHeap | resolver/rendezvous.go:117 | sifting down repairs all edges from a level on, or the element already is no larger than its children |
| GoHeap.FixPermutes | picker/leastloaded.go:197 | `heap.Fix` only permutes |
| GoHeap.InitPermutes | picker/leastloaded.go:183 | `heap.Init` only permutes |
| GoHeap.PushKeepsHeap | picker/leastloaded.go:156-158 | `heap.Push` keeps a heap a heap |
| LeastLoadedHeap.ConnHeap.constructor | picker/leastloaded.go:118-129 | the new heap holds one item with load 0 per connection, heapified, every item knowing its slot |
| LeastLoadedHeap.ConnHeap.Less | picker/leastloaded.go:203-208 | order by load, then tie-break |
| LeastLoadedHeap.ConnHeap.Swap | picker/leastloaded.go:210-214 | two slots are exchanged and both items' indices follow |
| LeastLoadedHeap.ConnHeap.Up | picker/leastloaded.go:188-190 | the loop of `heap.up`, in place, is the sift-up function and keeps every index |
| LeastLoadedHeap.ConnHeap.Down | picker/leastloaded.go:188-190 | the loop of `heap.down`, in place, is the sift-down function and keeps every index |
| LeastLoadedHeap.ConnHeap.Fix | picker/leastloaded.go:190 | down, then up if nothing moved |
| LeastLoadedHeap.ConnHeap.Init | picker/leastloaded.go:183 | the loop of `heap.Init`, in place |
| LeastLoadedHeap.ConnHeap.AppendNew | picker/leastloaded.go:216-221 | a new item with load 0 goes to the end, in place while there is capacity, and knows its slot |
| LeastLoadedHeap.ConnHeap.CompactLoop | picker/leastloaded.go:138-153 | survivors are packed to the front in order with their new indices, every other item gets index -1 |
| LeastLoadedHeap.ConnHeap.ClearTail | picker/leastloaded.go:169-174 | no slot past the new end pins an item |
| LeastLoadedHeap.ConnHeap.AppendAll | picker/leastloaded.go:177-180 | one new item per missing connection |
| LeastLoadedHeap.ConnHeap.Rebuild | picker/leastloaded.go:169-183 | clears the tail, appends the newcomers and heapifies |
| LeastLoadedHeap.ConnHeap.Update | picker/leastloaded.go:131-184 | the result of either path, with indices right, slots past the end nil, and evicted items told so |
| LeastLoadedHeap.ConnHeap.Acquire | picker/leastloaded.go:186-192 | takes the root, adds one to its load, sets its tie-break, restores the heap |
| LeastLoadedHeap.ConnHeap.Release | picker/leastloaded.go:194-199 | subtracts one; an evicted item leaves the heap untouched |
| LeastLoadedHeap.ConnHeap.ItemsAreTracked | picker/leastloaded.go:92-101 | an item in the heap can be released through the index it carries |
| LeastLoadedHeap.RoundRobinPicker.Pick | picker/leastloaded.go:103-109 | the tie-break of a pick is the incremented counter |
| LeastLoadedRuns.ReplaceAndFix | picker/leastloaded.go:186-199 | an acquire or release exchanges exactly one entry and keeps heap order |
| LeastLoadedRuns.CompactSelects | picker/leastloaded.go:136-153 | what compaction keeps and leaves to be created, as sets |
| LeastLoadedRuns.UpdateHoldsExactly | picker/leastloaded.go:131-184 | after `update` the heap holds exactly the given connections once each, survivors with load and tie-break, newcomers at 0 |
| LeastLoadedRuns.PushesIff | picker/leastloaded.go:154-167 | `update` appends the newcomers, and does not rebuild, exactly when no item left the heap and newcomers times the binary digits of the new length do not exceed that length |
| LeastLoadedRuns.ManyNewcomersRebuild | picker/leastloaded.go:159-183 | one busy connection and five new ones: the heap is rebuilt and the next acquire takes an idle one |
| LeastLoadedRuns.UpdateKeepsOrderIff | picker/leastloaded.go:154-183 | exactly when `update` keeps heap order |
| LeastLoadedRuns.OneBusyConnBreaksOrder | picker/leastloaded.go:159-167 | one connection at load 1 and one new one: the heap is not ordered afterwards |
| LeastLoadedRuns.DirectPushBreaksOrder | picker/leastloaded.go:159-167 | three connections at load 1 and one new one: the heap is not ordered afterwards |
| LeastLoadedRuns.AcquireAfterUpdateIff | picker/leastloaded.go:154-192 | exactly when the item an acquire takes after an update is least |
| LeastLoadedRuns.AllKept | picker/leastloaded.go:155-156 | if no connection went away, compaction changes nothing |
| LeastLoadedRuns.PushEachKeepsHeap | picker/leastloaded.go:156-162 | with `heap.Push`, as the comment has it, newcomers keep order and contents |
| LeastLoadedRuns.StepKeepsOrderIff | picker/leastloaded.go:131-199 | one operation keeps order, if and only if it is not an update below a busy parent |
| LeastLoadedRuns.RunKeepsOrderIff | picker/leastloaded.go:131-199 | a whole run keeps order throughout if and only if all its updates are safe |
| LeastLoadedRuns.SiftingRunKeepsOrder | picker/leastloaded.go:131-199 | with `heap.Push` every run keeps order |
| LeastLoadedRuns.OrderedRunAcquiresLeast | picker/leastloaded.go:46-48 | in an ordered run every acquire takes an item least in (load, tie-break) |
| LeastLoadedFairness.LoadsStayLevel | picker/leastloaded.go:27-29 | with nothing released, loads never differ by more than 1 |
| LeastLoadedFairness.PicksLeastRecentOfLeastLoaded | picker/leastloaded.go:27-29 | after any picks and completions the next pick is the least recently picked of the least loaded |
| LeastLoadedFairness.FreshKeepsInv | picker/leastloaded.go:39-43 | a new picker over distinct connections starts idle and well formed |
| LeastLoadedFairness.NextPickIsNotRecent | picker/leastloaded.go:27-29 | with all connections idle the next pick is none of the last n-1 |
| LeastLoadedFairness.SerialPicksRotate | picker/leastloaded.go:27-29 | served one at a time, any n consecutive picks are distinct and the picks repeat with period n |
| RequestLifecycle.StepKeepsInv | transport.go:847-891 | every atomic step keeps the counter equation and the count of `close(c.closed)` |
| RequestLifecycle.DrainSafety | transport.go:847-891 | counter = mark + active + half-aborted; `closed` is closed at most once, never while a request is active, and `doClose` only after it |
| RequestLifecycle.NothingStartsAfterMark | transport.go:847-855 | after the mark every start comes out negative and aborts, and the active requests are some of those active at the mark |
| RequestLifecycle.DrainCompletesIff | transport.go:857-887 | a drained connection has had `closed` closed if and only if no aborted start overlapped the end of the last request |
| RequestLifecycle.LostForGood | transport.go:884-890 | after a lost signal nothing ever closes `closed` and no closer reaches `doClose` |
| RequestLifecycle.StuckRunIsReachable | transport.go:847-889 | a run of twelve steps that loses the signal |
| RequestLifecycle.RunKeepsAccounted | transport.go:818-838 | no request's `whenDone` is called twice, and it has been called exactly for those past their rejection or their hook |
| RequestLifecycle.StepKeepsAccounted | transport.go:893-919 | each step, including a repeated body read or close, keeps that |
| RequestLifecycle.StepReleases | transport.go:818-838 | a pick opens one request, a rejection or a finish releases one that was open, and no other step does either |
| RequestLifecycle.ReleasedForAReason | transport.go:818-838 | `whenDone` is only called for a request that was turned away, that failed, or whose response was handed out and later read through or closed |
| RequestLifecycle.OpenBodyHoldsConn | transport.go:837-889 | from its response to its completion hook a request is not released, and neither `closed` nor `doClose` happens |
| RequestLifecycle.ClosedMeansReleased | transport.go:825-890 | once `closed` is closed every request has been released, except those that a start turns away or that have yet to start |
| RequestAccounting.LoadsAreOpenPicks | picker/leastloaded.go:92-101 | in every run each item's load, evicted items included, is its number of unreleased picks, and a pick is open exactly until it is released |
| RequestAccounting.StepKeepsInv | picker/leastloaded.go:131-199 | every pick, request step and update keeps loads equal to open picks |
| RequestAccounting.ReleaseNeverUnderflows | picker/leastloaded.go:194-199 | a release takes one off the positive load of the item that was picked and off no other, even after eviction |
| RequestAccounting.UpdateKeepsLoads | picker/leastloaded.go:138-180 | an update changes no load, and a connection that comes back gets a new item with load 0 |
| RequestAccounting.ItemSpeaksForConnIff | picker/leastloaded.go:145-151 | an item's load is all of its connection's unreleased picks if and only if no other item of the connection has an open one |
| RequestAccounting.StepIsHeapOp | picker/leastloaded.go:131-199 | whatever happens to requests, the heap only sees its own acquires, releases and updates |
| RequestAccounting.PicksFewestInFlight | picker/leastloaded.go:186-208 | after any run whose updates are safe, the next pick takes an item with the fewest unreleased picks of that item |
| FewestInFlight.RootConnHasFewest | picker/leastloaded.go:46-48 | without requests on older items, the connection at the root has the fewest in flight |
| FewestInFlight.PicksLeastConnIff | picker/leastloaded.go:46-48 | as long as two or more connections stay, every pick takes a connection with the fewest requests in flight if and only if none has requests counted on an older item |
| FewestInFlight.PicksLeastConnAfterRunIff | picker/leastloaded.go:27-29 | the same after any run of a new picker that leaves its heap in order |
| FewestInFlight.BusyConnIsPicked | picker/leastloaded.go:145-180 | a run after which the connection with two requests in flight is next, and the one with one is not |
| ConnPool.TransportPool.New | transport.go:504-548 | a new connection, the next to be numbered, goes to the end of the active list; in a closed pool nothing changes |
| ConnPool.TransportPool.Remove | transport.go:550-576 | the connection, and no other, leaves the active list, and joins the end of the draining one if it was there |
| ConnPool.TransportPool.OnConnClosed | transport.go:578-594 | the draining list becomes the active connections but the closed one, as the code has it, and the active list stays |
| ConnPool.TransportPool.BeginClose | transport.go:752-786 | `close` will wait for all active and all draining connections; the pool is closed, its lists stay |
| ConnPool.RemovedIsWaitedForIff | transport.go:767-781 | exactly when `close` waits for a removed connection |
| ConnPool.DrainingConnIsForgotten | transport.go:578-594 | a run in which a draining connection is not waited for |
| PoolLifecycle.StepKeepsInv | transport.go:220-407 | every step keeps the relation between map, watchers, closes and the WaitGroup |
| PoolLifecycle.RunningPoolsCounts | transport.go:327-345 | `runningPools` is pools made minus `onClose` calls, each at most once, and pools in the map are open |
| PoolLifecycle.LookupReturnsOpenPool | transport.go:263-346 | a lookup returns nothing once `closed` is set, and before that an open pool of its own target that is kept warm or has a token waiting for its goroutine |
| PoolLifecycle.WhyAPoolLeaves | transport.go:243-258 | a pool leaves the map only by an idle timeout, after the root context is done, or as a warm pool of a closed transport |
| PoolLifecycle.WatcherRemovesItsOwnPool | transport.go:388-407 | a watcher's delete removes its own pool, never a successor for the same target |
| PoolLifecycle.UsedFollowsLookups | transport.go:350-363 | a pool counts as used from the lookup that returned or made it until its activity channel is drained |
| PoolLifecycle.IdleRemovalIsIdleIff | transport.go:388-401 | an idle removal finds the pool unused since its channel was last drained if and only if it was ever drained, and no lookup returns the pool afterwards |
| PoolLifecycle.NewPoolCanBeRemoved | transport.go:338-346 | a run in which the idle timer removes a pool that only its creating lookup has returned |
| PoolLifecycle.OutForGood | transport.go:263-347 | a pool that left the map is never returned again |
| PoolLifecycle.NothingMadeAfterClose | transport.go:276-281 | once `closed` is set nothing is added to the WaitGroup |
| PoolLifecycle.BalancerRunsUntilClosed | balancer.go:222-226 | in every run a pool's balancer has returned only if the root context is done or the pool is closing |
| PoolLifecycle.CloseReturnsClean | transport.go:220-258 | when `close` has returned, every pool has finished closing, every connection that is active or was waited for is closed once, and the map is empty, for good |
| DrainProgress.LostIff | transport.go:847-889 | a marked, idle connection with nobody left to signal is one whose run lost the signal |
| DrainProgress.CanDrain | transport.go:863-887 | unless the signal is lost, requests and closers can run so that a call of `connection.close` gets past its wait |
| PoolDrain.StepKeepsInv | transport.go:504-594 | lists, snapshot and every connection stay consistent, and in an open pool only removed connections have closers |
| PoolDrain.OnlyRemovedAreLost | transport.go:550-576 | while a pool is open only a removed connection can be lost |
| PoolDrain.DoneClosesAll | transport.go:752-783 | when the wait of `close` is over, each active connection and each in its snapshot is closed exactly once and has no request under way |
| PoolDrain.WaitCanEndIff | transport.go:752-783 | once `close` of a pool has its snapshot, its wait can still end if and only if the snapshot holds no lost connection |
| PoolDrain.OpenPoolCanForgetIff | transport.go:578-594 | `close` of an open pool can come to take a snapshot without a lost connection if and only if its balancer still runs, or no removed connection is lost, or a closer of another connection has still to return |
| PoolDrain.OpenPoolCanForget | balancer.go:222-223 | how: by one more connection that is made, removed and closed while the balancer runs, later by any closer that returns |
| PoolDrain.DoomedStays | transport.go:752-783 | a pool that waits or is bound to wait for a lost connection stays so, whatever happens |
| PoolClosing.PoolClosesIff | transport.go:752-786 | in every reachable state after the cancellation a pool, open or closing, can still finish closing if and only if it neither waits nor is bound to wait for a lost connection |
| PoolClosing.DoomedPoolBlocksClose | transport.go:220-234 | a pool that waits or is bound to wait for a lost connection does so for good, and no call of `close` ever returns |
| PoolClosing.CloseCanReturnIff | transport.go:220-258 | in every reachable state after the cancellation a call of `close` can still return if and only if no pool waits or is bound to wait for a lost connection |
| PoolClosing.LostConnCanBeForgotten | transport.go:578-594 | a run in which a connection is lost for good and `close` has returned |
| PoolClosing.LostConnCanBlockClose | transport.go:752-783 | a run after which no call of `close` ever returns, since its snapshot holds a lost connection |
| PoolClosing.StoppedPoolBlocksClose | balancer.go:222-223 | a run after which no call of `close` ever returns although no snapshot is taken yet: the balancer has returned |
| ConnManager.Manager.Partition | balancer.go:476-479 | the wanted addresses of each host, in order |
| ConnManager.Manager.SyncAttributes | balancer.go:485-496 | kept connections take the attributes of the wanted addresses by position |
| ConnManager.Manager.PlanOne | balancer.go:483-500 | one host: the kept slice is a prefix on the same backing array, the rest is surplus or lacking, and attributes follow by position |
| ConnManager.Manager.PlanTracked | balancer.go:482-501 | for each tracked host what is kept, removed and requested, in any iteration order |
| ConnManager.Manager.PlanNew | balancer.go:502-508 | hosts not tracked yet have all their addresses requested |
| ConnManager.Manager.Plan | balancer.go:468-510 | old connections are exactly the kept and the removed, per host and in order |
| ConnManager.Manager.DoUpdate | balancer.go:514-523 | each new connection joins its host's list, in order |
| ConnManager.GrantedIs | balancer.go:283-290 | the addresses that got a connection are those whose creation succeeded, in order and no others |
| ConnManager.Manager.Append | balancer.go:519-522 | `append`, in place while there is capacity: one host's list grows, the others' backing arrays are not touched |
| ConnManager.Manager.Reconcile | balancer.go:468-523 | kept, removed, requested and resulting lists of every host; if all creations succeed the counts are the resolver's |
| ConnManager.Manager.ReconcileTwice | balancer_test.go:207-217 | reconciling again with the same addresses removes nothing and requests, per host, exactly the wanted addresses past those kept and granted |
| ConnManager.Manager.Delete | balancer.go:535-536 | a slot is deleted in place: later connections move up, the vacated slot is nil |
| ConnManager.Manager.RemoveAt | balancer.go:535-537 | one host's list loses that slot, the other hosts' lists stay, and no backing array is replaced |
| ConnManager.Manager.Untrack | balancer.go:525-546 | tracked entries leave their host's list, stale and repeated entries become nil |
| ConnManager.Manager.Compact | balancer.go:547-562 | the nil entries are squeezed out in place |
| ConnManager.RecycledOnce | balancer.go:525-546 | each tracked connection of a batch is recycled once, nothing else is |
| ConnManager.Manager.Recycle | balancer.go:525-569 | one replacement with the same address per removal; per-host counts unchanged when all are granted |
| Balancer.BalancerObject.ComputeUsable | balancer.go:396-415 | the grouping and tier loops compute the usable connections |
| Balancer.UsableIsWholeTiers | balancer.go:403-415 | usable connections are, as sets and without repetition, whole tiers, best first, no more tiers than needed for the minimum, never unhealthy ones |
| Balancer.UsableIsSorted | balancer.go:409-415 | in the list of usable connections better tiers come first |
| Balancer.MinConns | balancer.go:404-407 | the minimum is 3, or the whole number nearest to a quarter, halves up, where that is more |
| Balancer.BalancerObject.IsWarm | balancer.go:384-393 | whether some usable connection is warm and healthy |
| Balancer.BalancerObject.NewPicker | balancer.go:359-381 | a picker is rebuilt only if the usable set changed, and always published |
| Balancer.BalancerObject.UpdateHealthState | balancer.go:119-136 | unknown connections and unchanged states are ignored, otherwise a picker is published |
| Balancer.BalancerObject.WarmedUp | balancer.go:138-151 | the same for a warm-up |
| Balancer.BalancerObject.SetErrorPicker | balancer.go:244-260 | while no addresses are known, an error picker is published and nothing else changes |
| Balancer.BalancerObject.DropConns | balancer.go:311-325 | removed connections leave `conns` and `connInfo` together |
| Balancer.BalancerObject.InitConnInfo | balancer.go:334-356 | new connections start unknown and cold |
| Balancer.BalancerObject.SwapConns | balancer.go:309-330 | the critical section of `updateConns` as one step |
| Balancer.StepKeepsInv | balancer.go:278-331 | every step keeps the balancer's invariant, in every phase of an update |
| Balancer.PublishedPickerIsCurrent | balancer.go:359-381 | in every interleaving `connInfo` and `conns` agree, between updates they agree with the pool and the connection manager, and a published picker is the last one made, over exactly the current usable set, free of removed connections |
| Balancer.PicksIffSomeUsable | balancer.go:359-381 | in every reachable state: nothing is published until the first update or resolver error is through; a picker is published exactly if some connection is better than unhealthy, otherwise an error picker; no picker is made for no connections or for those of the picker before |
| Balancer.EachChangePublishes | balancer.go:119-151 | each end of an update, each warm-up and each change of state of a known connection leaves a picker published if some connection is better than unhealthy, and an error picker otherwise |
| Balancer.NewConnIsUnknown | balancer.go:334-356 | a connection enters `connInfo` at the end of the update that made it, unknown and cold |
| Balancer.InfoIsLastReported | balancer.go:119-151 | from then on its state is the last one reported for it, and it is warm if and only if a warm-up was reported |
| Murmur3.MurmurHash3.constructor | internal/murmur3.go:33-35 | a new hash has its seed and nothing written |
| Murmur3.MurmurHash3.Write | internal/murmur3.go:44-86 | after `Write` the four words are those of everything written so far |
| Murmur3.MurmurHash3.Sum32 | internal/murmur3.go:89-105 | the one-shot hash of everything written so far |
| Murmur3.MurmurHash3.Reset | internal/murmur3.go:122-124 | nothing written, and seed 0 |
| Murmur3.MurmurHash3Sum | internal/murmur3.go:37-41 | the one-shot hash |
| Murmur3Values.PublishedValues | internal/murmur3_test.go:27-40 | the hash has all fourteen listed values: empty messages, single blocks, tails of one to three bytes, and three blocks with a tail |
| Murmur3Values.XorIsBitwise | internal/murmur3.go:98-112 | the exclusive or of the model is that of bit-vectors |
| Murmur3Values.Shr13And16 | internal/murmur3.go:99-103 | the shifts of the finalizer divide by 2^13 and 2^16 |
| Murmur3.SumOfChunks | internal/murmur3_test.go:49-60 | for every seed and every split, chunked writing gives the one-shot hash |
| Murmur3.FillBlock | internal/murmur3.go:49-61 | tops up the pending block |
| Murmur3.MixBlocks | internal/murmur3.go:66-73 | mixes whole blocks straight from the input |
| Murmur3.PackTail | internal/murmur3.go:75-80 | packs the bytes that do not fill a block |
| Murmur3.BlockIsPacked | internal/murmur3.go:68-71 | the block expression, high lane first, equals packing byte by byte |
| Murmur3.RoundInjective | internal/murmur3.go:108-116 | `round` loses nothing in either argument |
| Murmur3.FinalizeInjective | internal/murmur3.go:98-104 | the finalizer loses nothing |
| Murmur3.BlockChangeNeverCollides | internal/murmur3.go:44-116 | messages that differ only inside one aligned 4-byte block never collide |
| Murmur3.TailChangeNeverCollides | internal/murmur3.go:75-104 | messages of equal length that differ only in the tail never collide |
| Murmur3.SeedChangeNeverCollides | internal/murmur3.go:33-41 | two seeds never give one message the same hash |
| Murmur3.HashAgainAfterReset | internal/murmur3.go:122-124 | after `Reset` a hash agrees with a new one of the same seed if and only if that seed is 0 |
| Rendezvous.AddressHeap.constructor | resolver/rendezvous.go:130-142 | the first k addresses, ranked and heapified in place, with any hash |
| Rendezvous.AddressHeap.Rank | resolver/rendezvous.go:144-149 | the sum of the key followed by host:port, whatever the shared hash object held before: of a custom hash, or of a MurmurHash3 with seed 0 |
| Rendezvous.KeyMatters | resolver/rendezvous.go:29-33 | two keys for which the same two addresses give different subsets, in either order |
| Rendezvous.AddressHeap.Swap | resolver/rendezvous.go:157-160 | addresses and ranks are exchanged together |
| Rendezvous.ComputeSubset | resolver/rendezvous.go:106-121 | in place, the first slots become the selected addresses of the original slice, ties included; min(n, k) of them, every selected rank at least every rejected one; the rest of the slice untouched |
| Rendezvous.SubsetIsTopK | resolver/rendezvous.go:106-121 | the selected addresses are a choice of the k best-ranked |
| Rendezvous.FirstBestAreKept | resolver/rendezvous.go:114-118 | if the first k are a choice of the best already, they are selected: a later address never wins a tie |
| Rendezvous.OrderMattersIff | resolver/rendezvous.go:29-32 | for every ranking, another order of the same addresses can give another subset if and only if, in any choice of the k best, a rejected address ties with a different chosen one |
| Rendezvous.TiedPair | resolver/rendezvous.go:106-121 | one host:port with two attributes: the order decides which is selected |
| Rendezvous.ScanReplaces | resolver/rendezvous.go:114-118 | replacing the root keeps the best of what was scanned |
| Rendezvous.ChoiceIsDeterminedIff | resolver/rendezvous.go:29-32 | for every ranking, exactly when there is only one choice of the k best |
| Rendezvous.RemovingUnchosenKeepsAll | resolver/rendezvous.go:29-33 | losing an unchosen address changes nothing, if what is left has no tie at the edge |
| Rendezvous.RemovingChosenChangesOneSlot | resolver/rendezvous.go:32-33 | losing a chosen address changes exactly its slot, if what is left has no tie at the edge |
| Rendezvous.AddingReplacesAtMostOne | resolver/rendezvous.go:29-33 | a new address displaces at most one chosen one, if the new list has no tie at the edge |
| Rendezvous.KeptByAllIff | resolver/rendezvous.go:106-121 | every choice of the k best has all of some addresses if and only if too few rejected ones tie with any of them |
| Rendezvous.WithinForAllIff | resolver/rendezvous.go:106-121 | every choice of the k best lies within some addresses if and only if too few chosen ones tie with any outside |
| Rendezvous.RemovingUnchosenIff | resolver/rendezvous.go:29-33 | losing an unchosen address changes nothing in any order if and only if what is left has no tie at the edge |
| Rendezvous.RemovingChosenIff | resolver/rendezvous.go:32-33 | losing a chosen address changes exactly its slot in any order if and only if no tie can push out a kept one |
| Rendezvous.AddingIff | resolver/rendezvous.go:29-33 | a new address displaces at most one in any order if and only if no tie can let in a rejected one |
| Rendezvous.UnchosenMatters | resolver/rendezvous.go:106-121 | four addresses, two of them tied, of which losing the unchosen one changes the subset |
| Rendezvous.UnchosenMattersForHash | resolver/rendezvous.go:68-70 | such four addresses under a concrete custom hash, for every key |
| HealthPolling.Checker.constructor | health/polling.go:144-150 | thresholds as configured, or 1 where left at zero (lines 38-43); unknown, with the counter at the healthy threshold |
| HealthPolling.Checker.OnProbe | health/polling.go:164-190 | one probe is one step of the automaton |
| HealthPolling.StateIsClosedForm | health/polling.go:71-86 | healthy exactly when the run that last reached its threshold was healthy, otherwise the latest bad result |
| HealthPolling.UpdatesReplayState | health/polling.go:188-190 | exactly the probes that change the state add an update, the updates replay the state and never repeat |
| PollingResolver.Iterate | resolver/resolver.go:305-344 | from one `ResolveOnce` to the next: exactly when it comes, by the TTL, its default and the minimum interval without a refresh, and by whichever deadline decides after one; and exactly when the loop stops |
| PollingResolver.Run | resolver/resolver.go:297-346 | that time for every pair of consecutive calls, the minimum gap, the bound on any window, and that the loop ends only when cancelled |
| PollingResolver.WindowBound | resolver/resolver.go:166-168 | calls at least an interval apart: a window of length w holds at most w / interval + 1 |
| PollingResolver.ApplyAddressFamilyPolicy | resolver/resolver.go:366-387 | the matching addresses in order, filtered in place; all of them untouched under an unmatched preference |
| PollingResolver.FilterIs | resolver/resolver.go:366-380 | which families each policy keeps, an IPv4 address written as IPv6 counting as IPv4; address by address, in order |

## Left out

- HTTP, TLS, dialing, proxies, DNS lookups, h2c and request rewriting: input and output, or wrappers over libraries.
- Client options, refused schemes and targets, attributes, clocks, random keys, jitter and the other pickers: one-branch claims.
- Prewarm waiting on `warmCond`, the recycling timers and their channel, and shutdown of health checkers.
- The re-resolve trigger of `computeUsableConnsLocked` and the choice of error value in `newPickerLocked`.
- A health checker that calls back before `New` has returned.
- ConnManager.Manager.DoUpdate: the pool's answers are a parameter, and the balancer's own bookkeeping during the call is in Balancer.
- LeastLoadedHeap.ConnHeap.Update: new items are made by the method, so the map iteration order of the newcomers is arbitrary but their allocation is not shared with the caller.
- Rendezvous.AddressHeap.Rank: a custom hash is taken to sum only the bytes written since its last `Reset`, as the hash interface asks.
- Rendezvous.ComputeSubset: `NumBackends` is positive; the constructor rejects 0, and a negative value panics in Go.
- Murmur3.MurmurHash3.Write: the total length is not bounded by the width of Go's `int`.
- LeastLoadedFairness.SerialPicksRotate: the pick counter does not wrap, so there are fewer than 2^64 picks.
- RequestLifecycle.DrainSafety: fewer than 2^63 requests are counted at once, so the counter cannot cross its mark.
- RequestAccounting.PicksFewestInFlight: fewer than 2^64 picks of one item are open at once, since its load is unsigned.
- PollingResolver.Run: timers follow the Go 1.23 rule that a reset discards a stale tick; waiting is exact up to a stated delay.
- PoolClosing.CloseCanReturnIff: it says what can still happen, not when; fewer than 2^63 requests are counted at once on a connection.
- PoolDrain.StepKeepsInv: `doClose` and the `connClosed` at its end are one step; of the resolver and the balancer only the calls of `NewConn` and `RemoveConn` and the return of the balancer's goroutine are modelled, not which updates they still have to handle.
- FewestInFlight.PicksLeastConnIff: the tie-breaks of the picks to come do not wrap, and fewer than 2^64 requests are in flight on a connection.
