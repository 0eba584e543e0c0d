# Verified models of kvmtool's core

kvmtool runs virtual machines on Linux KVM; this tree adds forking of a live machine. The modules here model
the parts of it in which the hard invariants live, and prove those invariants for every input, every run or
every reachable state.

| file | models |
|---|---|
| `RbTree.dfy`, `RbInsert.dfy`, `RbErase.dfy`, `RbHeight.dfy` | the red-black tree: nodes with mutable links, rebalanced in place. A ghost tree and a ghost zipper (the path to the place being repaired) describe what the nodes in the heap represent |
| `IntervalIndex.dfy` | the interval index on top of the tree (`IntervalIndex`) and its MMIO client (`Mmio`) |
| `Xics.dfy`, `XicsDelivery.dfy`, `XicsExact.dfy`, `XicsDevice.dfy` | the PAPR interrupt controller: a specification on values with the theorems over runs, where interrupts go and when they are presented, the exact conditions under which an operation faults and an interrupt can be lost, and the device with its arrays updated in place, which refines the specification |
| `ThreadPool.dfy`, `ThreadOrder.dfy`, `ThreadCalls.dfy` | the job pool as a transition system over any number of threads, a run being a sequence of states that follow one another; the order in which it serves jobs; what one call does, and that nobody gets stuck |
| `Pause.dfy` | the stop-all-VCPUs handshake, likewise |
| `ForkHooks.dfy` | the hook lists run around a fork, and the locks that the hooks take and give back |
| `QcowAlloc.dfy` | the refcounting cluster allocator of QCOW2, mutually recursive as in the source |
| `QcowRead.dfy` | the QCOW2 read path: LRU cache (`Lru`), two-level translation and sector reads (`QcowRead`) |
| `Virtqueue.dfy`, `NetRx.dfy` | the split virtqueue with 16-bit indices, and the mergeable-buffer receive loop that uses it |
| `Iovec.dfy`, `P9Codec.dfy`, `P9.dfy` | scatter-gather buffers, the 9P value formats over a flat buffer, and the codec over scatter-gather buffers, which refines it |
| `MemBanks.dfy` | the guest memory map, merged while it is scanned, and the two address translations |
| `Bytes.dfy`, `Sequences.dfy` | bytes, powers of two, division; distinct elements |

Where the code does something other than what one would expect of it, the model does what the code does, and the
exact condition is proved:

- **XICS, masking.** A source that is masked while it is presented or rejected can be lost. Every run without a
  fault that neither accepts a pending source nor masks it in those states keeps it pending, if and only if it is
  not already masked while presented or rejected without being recorded as masked-pending (`ConservationExact`);
  `MaskedWhilePresentedIsLost` is a run of three calls.
- **XICS, rejected IPI.** An IPI that is rejected makes `ics_reject_msi` index its array with the IPI's number. The
  model records this as `fault`. A source that displaces the IPI is one way; H_IPI that lowers the MFRR under a
  presented IPI and H_CPPR that drops to its priority are others (`LoweringUnderAnIpiFaults`). `DoFaults` gives the
  exact condition for every operation, `RunFaults` for runs.
- **XICS, spurious accept.** H_XIRR while nothing is presented makes the priority presented last the CPPR. An MFRR
  that beats the CPPR is presented, or something at least as favoured is, in every run without such an accept that
  hides one (`IpiAlways`); each operation keeps this if and only if it is not one (`DoIpi`), and
  `SpuriousAcceptHidesIpi` is a run that ends with one.
- **MMIO, wrapping access.** The end of an access is computed in 64 bits, so an access that wraps is dispatched to
  a mapping that does not contain it (`WrappingAccessIsDispatched`); dispatch is right for all mappings if and only
  if the access does not wrap or starts at the last address, which no mapping contains (`DispatchExact`).
- **MMIO, wrapping range.** A range whose end wraps is accepted like any other; the index stays ordered if and only
  if the range is refused or does not wrap (`Register`).
- **Job pool, early return of a cancel.** `thread_pool__cancel_job` can return while a worker still has to unlock
  the job's mutex (`CancelReturnsBeforeUnlock`); there is no such worker if and only if that mutex is free
  (`CancelledIsIdle`).
- **QCOW2, short L1 table.** `qcow_read_sector_single` keeps the -1 of a failed cluster read in an unsigned 32-bit
  variable, so the failure is not seen. A read that reports success has read exactly what the L1 table maps of the
  range; it reports success even so, unless the offset, which leaps ahead with each failure, reaches the size of the
  disk before the wrapping byte count ends the loop (`ReadSingle`, `Succeeds`).
- **9P, long strings.** String lengths are written as unsigned and read as signed 16-bit numbers. Values survive
  the round trip if and only if their strings are present and shorter than 32768 bytes (`RoundTrip`).
- **Notification suppression.** `vring_need_event` is exact for every event index if and only if fewer than 2^16
  elements were used since the last signal (`SignalExactness`).
- **Memory map, refused call.** A registration that is refused leaves banks that overlap if and only if a reserved
  bank that it overlaps stands before the conflicting one in the list (`RegisterMem`).
- **Memory map, top of the address space.** `guest_flat_to_host` computes the end of a bank in 64 bits, so a bank
  that ends at 2^64 cannot be translated (`TranslationsInverse`).
- **Network receive, empty packet.** A packet of length 0 takes a chain from the available ring and never returns
  it (`Receive`: one chain is taken, no element is used).

## Model

| member | source | states |
|---|---|---|
| `RbErase.Erase` | util/rbtree.c:389-395 | erasing any node of any valid tree gives a valid tree (links and parent links consistent, black root, no red-red edge, equal black heights) whose in-order sequence is the old one without that node |
| `RbErase.EraseAt` | include/linux/rbtree_augmented.h:136-231 | what stood before and after the erased node, and its two subtrees, remain in order; the tree is valid again |
| `RbErase.EraseOne` | include/linux/rbtree_augmented.h:144-167 | with one child at most, the child takes the node's place and colour, and nothing else in the heap changes |
| `RbErase.EraseTwo` | include/linux/rbtree_augmented.h:168-224 | with two children, the successor takes the node's place, links and colour, near or far; rebalancing is asked for exactly when a black node without children left its old place |
| `RbErase.FindSuccessor` | include/linux/rbtree_augmented.h:168-205 | the loop ends at the leftmost node of the right subtree and its parent |
| `RbErase.EraseColor` | util/rbtree.c:200-360 | the fix-up loop terminates and turns a tree that is one black node short at a hole into a valid tree with the same in-order sequence |
| `RbErase.EraseRedSibling` | util/rbtree.c:216-233 | case 1: rotating a red sibling up keeps the in-order sequence and the deficit, and gives a black sibling |
| `RbErase.EraseFlip` | util/rbtree.c:234-263 | case 2: reddening the sibling moves the deficit one level up or ends it at a red parent |
| `RbErase.EraseDouble` | util/rbtree.c:264-306 | case 3 and 4: with a red inner nephew the double rotation ends the fix-up |
| `RbErase.EraseSingle` | util/rbtree.c:287-306 | case 4: with a red outer nephew one rotation ends the fix-up |
| `RbErase.TwoBalance` | include/linux/rbtree_augmented.h:168-224 | after the successor has moved, the tree is balanced, or short by one exactly at the successor's old place |
| `RbErase.OneBalance` | include/linux/rbtree_augmented.h:144-167 | after a splice the tree is balanced, or short by one exactly where a black leaf was |
| `RbErase.MovedOrder` | include/linux/rbtree_augmented.h:168-224 | moving the successor into the node's place removes the node from the in-order sequence and changes nothing else |
| `RbInsert.LinkNode` | include/linux/rbtree.h:79-86 | a red leaf hangs at the chosen empty place, all other links unchanged |
| `RbInsert.InsertColor` | util/rbtree.c:71-194 | the fix-up loop terminates, restores every colour property and parent link, and leaves the in-order sequence as it was with the new node in its place |
| `RbInsert.InsertCases` | util/rbtree.c:77-193 | one round moves the violation two levels up with the in-order sequence unchanged, or ends it |
| `RbInsert.InsertDouble` | util/rbtree.c:117-156 | cases 2 and 3: an inner grandchild is rotated out and up |
| `RbTree.Rotate` | util/rbtree.c:142-156 | a rotation through the parent and child links of the heap is the rotation of the represented tree |
| `RbTree.RotateSetParents` | util/rbtree.c:56-69 | the new top takes the old one's parent, colour and slot |
| `RbTree.ChangeChild` | include/linux/rbtree_augmented.h:120-131 | exactly the slot that held the old child holds the new one |
| `RbTree.RotateInorder` | util/rbtree.c:142-156 | a rotation does not change the in-order sequence of the whole tree |
| `RbTree.InsertBalance` | util/rbtree.c:142-156 | the rotation of case 3 has the black height that the tree above it expects |
| `RbHeight.BlackHeight` | util/rbtree.c:26-39 | properties 4 and 5 bound the size from below and the height from above |
| `RbHeight.HeightIsLogarithmic` | util/rbtree.c:26-39 | a tree of n nodes is at most 2 log2(n+1) high |
| `IntervalIndex.SearchSingle` | util/rbtree-interval.c:5-21 | the tree search finds what a linear scan of the stored intervals finds |
| `IntervalIndex.SearchRange` | util/rbtree-interval.c:23-36 | the scan's result, if it does not end before the range does |
| `IntervalIndex.Insert` | util/rbtree-interval.c:38-58 | fails exactly when a stored interval overlaps the new one, changing nothing; otherwise the new one is added, and the intervals stay ordered and disjoint if and only if it does not end before it starts |
| `IntervalIndex.Remove` | util/rbtree.c:389-395 | the interval is gone, the others stay in order |
| `IntervalIndex.OverlapSharesPoint` | util/rbtree-interval.c:38-58 | the three-way comparison tests whether two non-empty intervals share a point |
| `IntervalIndex.OrderedDisjoint` | util/rbtree-interval.c:38-58 | stored intervals are disjoint, so at most one contains a point |
| `IntervalIndex.ScanUnique` | util/rbtree-interval.c:5-21 | the linear scan finds the one interval that contains the point |
| `Mmio.Bus.Register` | mmio.c:62-96 | fails exactly when a mapping overlaps, and otherwise adds the mapping, whose end is cut to 64 bits, in its place; the index stays valid if and only if the call is refused or the range does not wrap |
| `Mmio.Bus.Deregister` | mmio.c:98-121 | removes exactly the mapping that contains the address, if there is one |
| `Mmio.Bus.Emulate` | mmio.c:123-141 | the access goes to the mapping that the dispatch rule names, or to none |
| `Mmio.TargetContainsAccess` | mmio.c:26-35 | an access that does not wrap reaches the unique mapping that contains all of it, or no mapping does |
| `Mmio.DispatchExact` | mmio.c:26-35 | for all sets of mappings an access reaches only a mapping that contains it, if and only if it does not wrap or starts at the last address |
| `Mmio.WrappingAccessIsDispatched` | mmio.c:26-35 | a wrapping access that is dispatched although no mapping contains it |
| `Xics.Conservation` | powerpc/xics.c:76-257 | over any run without a fault in which source k is neither accepted nor masked while presented or rejected, a pending source that is not masked in those states stays presented, rejected or masked-pending |
| `Xics.DoPending` | powerpc/xics.c:204-257 | the same for one operation, and raising a source makes it pending |
| `Xics.DoKeeps` | powerpc/xics.c:76-257 | the invariants that every operation keeps, and which operation can break which of the others |
| `XicsDelivery.RaiseDelivers` | powerpc/xics.c:158-216 | a raised source is presented by its server exactly when it beats the CPPR and what is presented there, and then what it displaced is rejected; otherwise it is rejected; a masked one is recorded; nothing else changes |
| `XicsDelivery.SetXiveDelivers` | powerpc/xics.c:242-257 | the same for a source that is unmasked while recorded as masked-pending, with its new server and priority; otherwise only the configuration changes |
| `XicsDelivery.Routing` | powerpc/xics.c:204-257 | whatever happens after a SetXive but another one of the same source, an interrupt of it goes to the server and with the priority that were set |
| `XicsDelivery.DoConfig` | powerpc/xics.c:76-257 | no operation but SetXive configures a source, and that only the one it names |
| `XicsDelivery.IpiDelivers` | powerpc/xics.c:76-134 | an IPI is presented exactly when its MFRR beats the CPPR and what is presented, and then what it displaced is rejected; the MFRR is kept in any case |
| `XicsDelivery.IpiAlways` | powerpc/xics.c:76-156 | in every run without an EOI that lowers the CPPR or an accept that hides an MFRR, an MFRR that beats its CPPR is presented, or something at least as favoured is |
| `XicsDelivery.DoIpi` | powerpc/xics.c:76-156 | each operation keeps this if and only if it is not such an accept |
| `XicsDelivery.DoMfrr` | powerpc/xics.c:126-134 | no operation but H_IPI changes an MFRR, and that only its server's |
| `XicsDelivery.SpuriousAcceptHidesIpi` | powerpc/xics.c:136-144 | a run from the initial state that ends with an accept that hides an MFRR |
| `Xics.LinesAlways` | powerpc/xics.c:64-156 | in every run each server's external line is high exactly when its XISR is non-zero |
| `Xics.ResendPassIsFair` | powerpc/xics.c:225-240 | after a pass each source still rejected is not more favoured than its server's CPPR or no more favoured than what that server presents |
| `Xics.MaskedRejectIsLost` | powerpc/xics.c:225-240 | a resend pass drops every source that is rejected while masked |
| `Xics.MaskedWhilePresentedIsLost` | powerpc/xics.c:103-124 | a run that masks a presented source and loses it |
| `XicsExact.ConservationExact` | powerpc/xics.c:76-257 | every such run from a state keeps a pending source pending, if and only if the source is not masked while presented or rejected, or is recorded as masked-pending |
| `XicsExact.Losable` | powerpc/xics.c:103-177 | from every other state a run is built that loses the source: the other sources are masked, every server takes the source back, and a resend pass drops it |
| `XicsExact.RunKept` | powerpc/xics.c:76-257 | the sufficient half, for any run |
| `XicsExact.MaskingExposes` | powerpc/xics.c:242-257 | masking any source that is presented or rejected, and not recorded, leads to a state from which it can be lost |
| `XicsExact.DoFaults` | powerpc/xics.c:76-257 | for every operation in every well-formed state, the condition on that state under which the operation writes outside the array, if and only if |
| `XicsExact.PassFaults` | powerpc/xics.c:225-240 | a resend pass from any state faults if and only if it finds a source rejected that would displace an IPI, both told from the state before the pass |
| `XicsExact.RunFaults` | powerpc/xics.c:76-257 | a run writes outside the array if and only if one of its operations meets its condition |
| `XicsExact.LoweringUnderAnIpiFaults` | powerpc/xics.c:76-134 | a run from the initial state that presents an IPI without a fault, after which lowering the MFRR or the CPPR faults though no source could displace the IPI |
| `XicsExact.FairAlways` | powerpc/xics.c:93-177 | in every run from the initial state that never reconfigures a presented source and meets no condition for a fault, every operation that resends leaves no rejected source that is better than its server's CPPR and what that server presents, and no operation leaves the source it raises so |
| `Xics.IcpIrqFaults` | powerpc/xics.c:158-177 | presenting a source faults exactly when it displaces an IPI |
| `Xics.ResendFaults` | powerpc/xics.c:225-240 | where presented sources are presented as configured, a resend pass faults exactly when a rejected unmasked source would displace an IPI in the state before the pass |
| `Xics.NestStep` | powerpc/xics.c:103-177 | each disciplined step keeps: presented beats CPPR, CPPRs along nested accepts strictly decrease, the outermost level is unchanged |
| `Xics.Nesting` | powerpc/xics.c:103-177 | the same over whole runs |
| `Xics.UnwindingRestores` | powerpc/xics.c:136-156 | once all nested accepts are ended the CPPR is the original one; while some are open it is strictly lower |
| `XicsDevice.Device.IcpCheckIpi` | powerpc/xics.c:76-91 | the in-place update is the specified transition |
| `XicsDevice.Device.IcpResend_` | powerpc/xics.c:93-101 | the in-place update is the specified transition |
| `XicsDevice.Device.IcpSetCppr` | powerpc/xics.c:103-124 | the in-place update is the specified transition |
| `XicsDevice.Device.IcpSetMfrr` | powerpc/xics.c:126-134 | the in-place update is the specified transition |
| `XicsDevice.Device.IcpAccept` | powerpc/xics.c:136-144 | the in-place update is the specified transition, and the packed XIRR before it is returned |
| `XicsDevice.Device.IcpEoi` | powerpc/xics.c:146-156 | the in-place update is the specified transition |
| `XicsDevice.Device.IcpIrq_` | powerpc/xics.c:158-177 | the in-place update is the specified transition |
| `XicsDevice.Device.IcsResend` | powerpc/xics.c:225-240 | the loop over the sources is the specified pass, although each round changes what later rounds see |
| `XicsDevice.Device.IcsReject` | powerpc/xics.c:218-223 | the in-place update is the specified transition |
| `XicsDevice.Device.IcsWriteXive` | powerpc/xics.c:242-257 | the in-place update is the specified transition |
| `XicsDevice.Device.IrqLine` | powerpc/xics.c:487-495 | the in-place update is the specified transition; a number outside the sources, which nothing checks, goes outside the array |
| `XicsDevice.Device.HCpprCall` | powerpc/xics.c:277-285 | the hypercall reaches the caller's server with the low byte of its argument |
| `XicsDevice.Device.HIpiCall` | powerpc/xics.c:287-300 | the hypercall checks the server number and sets its MFRR |
| `XicsDevice.Device.HEoiCall` | powerpc/xics.c:312-320 | the hypercall ends the interrupt on the caller's server |
| `XicsDevice.Device.RtasSetXive` | powerpc/xics.c:322-348 | the call checks its arguments and reconfigures the source, or changes nothing |
| `ThreadPool.ExclusionAlways` | util/threadpool.c:20-98 | in every state of every run a job is not queued twice, not run by two workers, not both queued and running, and no wakeup is lost |
| `ThreadOrder.LongestFirst` | util/threadpool.c:20-31 | in every run the job that a worker takes is the one at the head of the queue, and has been queued longest |
| `ThreadOrder.OrderKept` | util/threadpool.c:20-53 | of two jobs that stay in the queue, the one that stands first goes on standing first |
| `ThreadOrder.EntersLast` | util/threadpool.c:33-36 | a job that enters the queue stands behind all that are there |
| `ThreadOrder.QueueStep` | util/threadpool.c:20-36 | what each step does to the queue: a push at the tail, a pop at the head, a cancel in place |
| `ThreadCalls.DoJobAlone` | util/threadpool.c:199-214 | a do_job that runs alone counts one signal, queues the job at the tail if it was not signalled, and wakes a waiting worker |
| `ThreadCalls.WorkerAlone` | util/threadpool.c:55-98 | a worker that runs alone calls the callback of the first job once, settles one signal, and queues the job again at the tail if there are more |
| `ThreadCalls.CancelAlone` | util/threadpool.c:216-237 | a cancel_job that runs alone returns and leaves the job out of the queue without a signal |
| `ThreadCalls.SomeoneMoves` | util/threadpool.c:38-98 | whenever a thread is inside the pool's functions and not waiting for work, some thread has a step: the mutexes cannot deadlock |
| `ThreadPool.AccountingAlways` | util/threadpool.c:55-70 | completed callbacks plus signalcount equals the number of do_job calls, outside the window between a callback's return and the decrement and without cancels |
| `ThreadPool.CancelledIsIdle` | util/threadpool.c:216-237 | when cancel_job returns, with no concurrent do_job, the job is neither queued nor in any thread's hands; a thread that still refers to it is cancelling it too or is a worker about to unlock its mutex, and there is no such worker if and only if the mutex is free |
| `ThreadPool.CancelReturnsBeforeUnlock` | util/threadpool.c:55-70 | a run in which cancel_job returns while a worker is about to unlock the job's mutex |
| `ThreadPool.NextInv` | util/threadpool.c:20-98 | every step of every thread keeps the invariant behind these |
| `ThreadPool.GoInv` | util/threadpool.c:55-98 | the same for the steps of workers and callers inside the pool's functions |
| `ThreadPool.NotifyInv` | util/threadpool.c:199-214 | the signal of do_job wakes a waiting worker, or some worker was awake, or there is none |
| `Pause.PausedMeansStopped` | kvm.c:659-691 | when kvm__pause has returned, every running VCPU is blocked in kvm__notify_paused and has no step |
| `Pause.StaysStopped` | kvm.c:654-691 | it stays exactly so until kvm__continue |
| `Pause.NobodyDies` | kvm-cpu.c:52-74 | the "already paused" branch is unreachable |
| `Pause.EventCountExact` | kvm.c:681-688 | what was counted, what the eventfd holds and what is still to be written add up to the number of VCPUs |
| `Pause.ContinueReleases` | kvm.c:654-657 | kvm__continue frees pause_lock, and every VCPU that waits in kvm__notify_paused has a step |
| `Pause.PauseCompletes` | kvm.c:659-691 | from every state in which kvm__pause is under way there is a run in which it returns |
| `Pause.AllReturn` | kvm.c:802-812 | from every state in which no pauser holds the lock there is a run that brings all VCPUs back to the guest |
| `Pause.NextInv` | kvm.c:802-812 | every step of every thread keeps the invariant behind these |
| `ForkHooks.ForkBalanced` | kvm.c:693-800 | for any number of devices and any order of hooks, every lock taken before the fork is held at it and given back in parent and child, none twice |
| `ForkHooks.HandleFork` | kvm-ipc.c:442-463 | from the three hook lists as they are: the fork goes through exactly when every hook succeeds; then the locks held at it are pause_lock and those of the hooks, and parent and child both end without any |
| `ForkHooks.CountsBalance` | kvm.c:693-800 | takes and gives of each lock balance in any run that does not get stuck |
| `ForkHooks.NobodyElseInside` | kvm-ipc.c:442-463 | at the fork no other thread is in a critical section that pause_lock or a hook's lock guards |
| `ForkHooks.SystemAgrees` | kvm.c:693-800 | in every interleaving with other threads the forking thread holds exactly the locks that its own steps say |
| `ForkHooks.HookLocks` | hw/serial.c:486-513 | each hook takes its own locks and gives exactly those back, in parent and child |
| `ForkHooks.RunOfHooks` | util/init.c:102-172 | a successful run over lists holding the hooks does the lock operations of all of them in order |
| `ForkHooks.RunOutcome` | util/init.c:102-172 | a run succeeds exactly when every hook does, and then all of them have run |
| `ForkHooks.RunStops` | util/init.c:102-124 | a run that fails ends with the first hook that does, and returns what that returned |
| `ForkHooks.FlattenAt` | util/init.c:102-124 | hooks run level by level, lower numbers first, and within a level from the head of its list |
| `ForkHooks.HookLists.Run` | util/init.c:102-124 | the nested loops run the hooks by priority and stop at the first failure |
| `ForkHooks.HookLists.Add` | util/init.c:35-63 | a hook goes to the head of its priority level, the other levels unchanged |
| `QcowAlloc.Image.Alloc` | disk/qcow.c:838-866 | terminates; on success gives the first run of free clusters from free_clust_idx on, which a counting call takes from 0 to 1 while every other refcount but those of new refcount blocks stays. Without full refcounts it succeeds when the run lies below the table's limit with free clusters left for every block that may have to be added, and fails only after it has gone past that limit; it fails when the scan meets a full refcount; a failure leaves at most a counted prefix |
| `QcowAlloc.Image.Update` | disk/qcow.c:779-820 | with an existing refcount block exactly one entry changes, modulo 2^16, and free_clust_idx is lowered to a freed cluster; otherwise a block is grown first; it succeeds under the same condition; a failure changes no refcount |
| `QcowAlloc.Image.Grow` | disk/qcow.c:664-714 | changes no refcount but that of new refcount blocks, from 0 to 1; the cluster's block then exists; it succeeds when the table has a slot for the cluster and there are free clusters for every block that may have to be added; a failure gives the table back as it was |
| `QcowAlloc.Image.Scan` | disk/qcow.c:845-855 | the restarting scan ends, and finds the first run of free clusters from free_clust_idx on that is long enough; it fails if and only if a cluster with a full refcount stands before the end of that run |
| `QcowAlloc.Image.AllocClusters` | disk/qcow.c:838-866 | an allocation never returns a cluster that was handed out and not freed, the header or a refcount block; it succeeds and fails as stated for Alloc |
| `QcowAlloc.Image.FreeClusters` | disk/qcow.c:822-831 | every cluster that the bytes touch loses one reference, no other changes, and free_clust_idx is at or before every cluster that became free |
| `QcowAlloc.SmallImageSettled` | disk/qcow.c:716-752 | an image of a header and one refcount block meets the allocator's invariant and the condition for success |
| `QcowAlloc.Image.GetRefcount` | disk/qcow.c:754-777 | the entry in the refcount block, or 0 where there is none |
| `QcowAlloc.CountOne` | disk/qcow.c:858-863 | counting one more cluster, with all the blocks that this may grow, extends the counted range by it and by nothing else |
| `QcowAlloc.GrowDone` | disk/qcow.c:664-714 | once its own cluster is counted, a new block has changed no refcount but its own |
| `QcowAlloc.GrowUndone` | disk/qcow.c:709-713 | clearing the table slot undoes a failed grow |
| `QcowAlloc.SetEntryRef` | disk/qcow.c:805-807 | writing one entry changes one refcount |
| `QcowAlloc.AddBlockRef` | disk/qcow.c:685-699 | a block of zeros in an empty slot changes no refcount |
| `Lru.AccessKeepsRecent` | disk/qcow.c:129-177 | after any history of accesses the list holds exactly the most recently used tables, in order of use |
| `QcowRead.Reader.Search` | disk/qcow.c:164-177 | a hit returns the cached table and makes it the most recent; a miss changes nothing |
| `QcowRead.Reader.Cache` | disk/qcow.c:129-162 | tree and list keep the same offsets, nr_cached is their exact number and at most 32, and each table equals its copy in the file |
| `QcowRead.Reader.ReadL2Table` | disk/qcow.c:221-251 | hit or miss, the table in the file at that offset |
| `QcowRead.Translation` | disk/qcow.c:200-219 | the shifts compute quotients of the cluster number, and the L1 test is whether the byte is mapped |
| `QcowRead.DiskByBytes` | disk/qcow.c:394-452 | the flat disk by the bytes of the file: if the eight bytes of a cluster's L1 entry are a table offset, most significant first, and those of its entry there a host offset, each with any flags, the cluster holds the bytes of the file at the host offset, or zeros where an offset is 0 |
| `QcowRead.TableByBytes` | disk/qcow.c:221-251 | the entries of an L2 table by the bytes of the file, most significant first |
| `Bytes.BigEndianBytes` | disk/qcow.c:403-420 | the first byte of a big-endian number is its most significant one |
| `Bytes.BigEndianValue` | disk/qcow.c:403-420 | a number is determined by its bytes |
| `QcowRead.Reader.ReadCluster` | disk/qcow.c:371-465 | the bytes of the virtual disk up to the end of the cluster; -1 and nothing read exactly when the L1 table does not map the offset |
| `QcowRead.Reader.ReadSingle` | disk/qcow.c:467-501 | success means that exactly the mapped part of the range was read, the rest of the buffer unchanged; and success is reported if and only if a stated condition on the range, the L1 table and the size of the disk holds |
| `QcowRead.Reader.Read` | disk/qcow.c:503-521 | success if and only if every buffer meets that condition; each buffer then holds the mapped part of its range; with all buffers but the last whole sectors, a mapped read gathers to the flat virtual disk |
| `QcowRead.GatherIsDisk` | disk/qcow.c:503-521 | buffers that each hold their part hold the flat virtual disk together |
| `QcowRead.Visited` | disk/qcow.c:480-499 | which cluster a round of the read loop visits |
| `Virtqueue.Queue.SetUsedNoUpdate` | virtio/core.c:44-58 | the element is written beyond the used index, and nothing that the driver has not read is overwritten |
| `Virtqueue.Queue.UsedIdxAdvance` | virtio/core.c:24-42 | one advance makes exactly the first written elements visible, across the 16-bit wrap |
| `Virtqueue.Queue.SetUsed` | virtio/core.c:60-68 | one more element is visible |
| `Virtqueue.Queue.GuestPoll` | virtio/core.c:24-68 | a driver that polls the ring receives exactly the completed elements, in order, each once |
| `Virtqueue.Queue.ShouldSignal` | virtio/core.c:193-216 | with event indices, a signal is given exactly when the armed index was crossed since the last one, while fewer than 2^16 elements were used since; otherwise as the flag says |
| `Virtqueue.SignalExactness` | virtio/core.c:193-216 | the window test is exact for every event index if and only if fewer than 2^16 elements lie in the window |
| `Virtqueue.WindowExact` | virtio/core.c:193-216 | the test on wrapped indices is the test on counts |
| `Virtqueue.Queue.Available` | include/kvm/virtio.h:136-154 | says whether a chain is waiting, and publishes the index at which the driver must notify |
| `Virtqueue.Queue.Pop` | include/kvm/virtio.h:116-129 | the chains come out in the order in which the driver made them available |
| `Virtqueue.SlotWrap` | virtio/core.c:44-58 | with a power-of-two ring, wrapping the index at 2^16 does not move the slot |
| `NetRx.CopyToIov` | util/iovec.c:32-47 | memory is as if the bytes had been written one by one at the list's addresses, which may repeat, and the list has lost exactly those addresses |
| `NetRx.ScatterDistinct` | util/iovec.c:32-47 | at distinct addresses every byte is found where it was written, and the rest of memory is unchanged |
| `NetRx.Receive` | virtio/net.c:130-157 | the packet is written through the chains in order, waiting for chains where there are none; the used lengths add up to it; all elements become visible in one advance; as many chains are taken as are used, but one for an empty packet |
| `NetRx.UsedConserves` | virtio/net.c:130-157 | the used elements are the chains in order, and their lengths add up to the packet |
| `NetRx.UsedFills` | virtio/net.c:130-157 | each used length is what of the packet lies in that chain; every chain but the last is filled |
| `P9.Pdu.Read` | virtio/9p-pdu.c:10-32 | the loop over buffers is a read of the flat buffer at the offset, short only at its end |
| `P9.Pdu.Write` | virtio/9p-pdu.c:34-57 | the loop over buffers is a write of the flat buffer at the offset, cut only at its end |
| `P9.Pdu.Writef` | virtio/9p-pdu.c:170-265 | the values' encoding is written, as far as there is room |
| `P9.Pdu.Readf` | virtio/9p-pdu.c:67-168 | the values, return value and offset of a decode of the flat buffer; if the message is too short, the values up to the first short read, and the message is used up |
| `P9Codec.RoundTrip` | virtio/9p-pdu.c:67-265 | decoding an encoded list of values gives it back and stops right after it, if and only if every string is present and shorter than 32768 bytes |
| `P9Codec.RoundTripOne` | virtio/9p-pdu.c:67-265 | the same for one value |
| `P9Codec.NumberRoundTrip` | virtio/9p-pdu.c:177-200 | little-endian numbers survive |
| `P9Codec.LittleEndianBytes` | virtio/9p-pdu.c:177-200 | the least significant byte of a number is written first |
| `P9Codec.NumberBytes` | virtio/9p-pdu.c:74-102 | and read first |
| `P9Codec.LeafLayout` | virtio/9p-pdu.c:177-210 | numbers take 1, 2, 4 and 8 bytes; a string is its length, 65535 at most, in 2 bytes and as many of its bytes |
| `P9Codec.QidLayout` | virtio/9p-pdu.c:211-218 | a qid has the type at byte 0, the version at bytes 1 to 4 and the path at bytes 5 to 12 |
| `P9Codec.StatLayout` | virtio/9p-pdu.c:219-230 | a stat by offset: size 0, type 2, dev 4, qid 8, mode 21, atime 25, mtime 29, length 33, and four strings from byte 41 on |
| `P9Codec.PartAt` | virtio/9p-pdu.c:170-265 | the values of a list stand one after the other, in order |
| `P9.AcrossSegmentations` | virtio/9p-pdu.c:10-57 | the round trip for any two segmentations and offsets |
| `MemBanks.Vm.RegisterMem` | kvm.c:241-313 | succeeds exactly when every bank that overlaps is reserved like the range; then the banks are disjoint, cover exactly what was registered, and no backed bank is lost or changed; a refused call leaves the banks disjoint exactly when it changed nothing |
| `MemBanks.Absorb` | kvm.c:258-281 | one merge keeps: the banks passed are apart from the grown range, which is the union of what was asked for and what it took in |
| `MemBanks.SameOverlap` | kvm.c:251-256 | growing the range never makes it overlap a later bank that it did not overlap, so one pass is enough |
| `MemBanks.MergedCover` | kvm.c:258-281 | after merges the same addresses are covered, and those asked for |
| `MemBanks.GuestFlatToHost` | kvm.c:315-331 | the loop is the first-match translation |
| `MemBanks.HostToGuestFlat` | kvm.c:333-349 | the loop is the first-match translation |
| `MemBanks.TranslationsInverse` | kvm.c:315-349 | on backed memory with disjoint host ranges host-to-guest undoes guest-to-host, which is defined if and only if the bank does not end at 2^64 |
| `MemBanks.GuestMiss` | kvm.c:315-331 | an address that no bank holds is not translated |
| `MemBanks.HostMiss` | kvm.c:333-349 | a host address in no bank's range is not translated |

## Left out

- Liveness of the pool, the pause handshake and the fork, which depends on scheduling and on signal delivery: what is proved is that some step, or some run, is possible. Deadlock of the fork with locks held by interrupted VCPUs.
- A child forked while a worker is in the middle of a job (marked unfinished at util/threadpool.c:162-163), shutdown of the pool, and a fork of a machine that is already paused.
- Memory ordering: the mutexes, condition variables, barriers and the eventfd are abstract primitives, and each modelled step is atomic.
- Failing I/O, malloc and ioctl calls, in QCOW2, in the memory map and in the registrations.
- QCOW2 compressed clusters and QCOW1; an image is required to have no compressed entry. Writing to an image (disk/qcow.c:886-1071): images are opened read-only. Shifts and masks by powers of two are divisions and remainders.
- The LRU cache of refcount blocks: with all I/O succeeding a cached block and its copy in the file are the same, so blocks are a map by offset. That a block is freed while still in the cache tree (disk/qcow.c:709-713 after a failed grow, or by eviction during nested growth) is not modelled.
- QcowAlloc.Image.Alloc: cluster numbers are held in 32 bits in the source; the contract is for tables and sizes that stay below 2^32 clusters.
- QcowAlloc.Image.AllocClusters: the same bound of 2^32 clusters.
- QcowAlloc.Image.Scan: the same bound of 2^32 clusters.
- QcowAlloc.Image.Grow: the same bound of 2^32 clusters.
- QcowAlloc.Image.Update: the same bound; without a refcount block, for clusters behind free_clust_idx and an increment of 1, which is how the allocator calls it.
- QcowAlloc.Image.FreeClusters: for clusters that are in use; freeing a cluster of refcount 0 wraps its refcount and may even grow a block in the source.
- Coalesced MMIO ioctls and the locks around the MMIO tree. A search in an index that a wrapping range has left unordered is not modelled.
- The tree traversals rb_first, rb_next and their mirrors, rb_replace_node and the augmentation callbacks. The mirrored halves of the fix-up loops are one half with a side as parameter; the parent pointer and the colour, packed in one word in the source, are two fields.
- XICS runs one operation at a time; rtas_get_xive, rtas_int_on, rtas_int_off and the initialisation from the device tree are not modelled.
- ThreadPool.AccountingAlways: between a callback's return and the decrement of signalcount the sum is one too large in the source; those moments are excluded.
- NetRx.Receive: the byte order of the header and the header fix-up are not modelled. The driver makes one chain available whenever the device waits and does nothing else meanwhile. Descriptor tables are a function from heads to lists of memory ranges.
- 9P formats I and A, which are only read or only written, and the file operations. A string length of 65535 makes the source allocate nothing and read without limit; the model treats it like the other negative lengths, as a failed allocation.
- P9.Pdu.Readf: nothing is promised about the values and the return value from the first short read on, where the source works on uninitialised memory.
- KVM, VFIO, vhost, tap and libaio calls, the user interface, device trees, BIOS tables and register save and restore.
