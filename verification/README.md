# hvisor-tool: a verified model of the virtio daemon

The virtio daemon of hvisor-tool serves guests through shared-memory rings,
several threads and an MMIO register file. This project models its hard core in
Dafny and proves properties of the model for all inputs, all runs or all
reachable states. `dafny verify dfyconfig.toml` checks everything.

Protocols between several parties are state machines: a `State`, a function
`StepOf` that gives the next state of one party's step, and theorems over every
run (`Runs.Exec`) or every reachable state (`Runs.Reach`). Rings, walkers, copy
loops and tables are methods and classes that follow the loops of the code and
are proved against specification functions.

| module | what it covers |
|---|---|
| `Runs` | runs of a step function, reachability, invariant induction |
| `Words`, `Ranges`, `BridgeRing` | 16-bit index arithmetic and masks, 64-bit address ranges, the 32-slot bridge rings |
| `SleepHandshake` | the sleep handshake between the hypervisor's CPUs and the daemon, with store buffers |
| `RequestRing` | the request ring and the per-CPU answer flags |
| `BlkWorker` | the virtio-blk worker thread, reset and close |
| `Notification` | suppression and re-enabling of driver notifications, flag and event index, with a store buffer |
| `VirtQueues` | the split virtqueue and used-ring publication, store by store, one entry at a time and in batches |
| `Walkers` | the two descriptor-chain walkers |
| `Ledger` | the history of a queue: what the driver made available, what was consumed and what was published |
| `Drains`, `BlkQueue`, `NetQueues`, `ScmiQueue`, `ConsoleQueues` | the drain loops of the devices, from the available ring to the used ring, against a driver that adds entries before every test |
| `EventIndex`, `InterruptLine` | interrupt injection: the event-index test, and the line and result ring |
| `DeviceTable`, `ZoneMemory` | the device table and the zone memory map |
| `ScatterGather`, `Gpu` | iovec copies, GPU resources, scanouts and host memory |
| `ImageLoad` | ELF segments and the image load window |

## Where the code and a plausible claim part

Each has a lemma with the exact condition under which the claim holds, and where a
run is needed to break it, a lemma with that run.

- The sleep handshake is safe from every LoongArch start exactly when both sides
  fence (`FencesExact`). On the other entry path an empty ring on entry is not
  enough: `OtherEntryExact` gives the exact condition (`SafeToEnter`), and from
  every other state the daemon can end up asleep until a new request comes
  (`StuckExact`, `StuckUntilRequest`).
- Re-enabling notifications is safe exactly when the device looks at the queue
  again behind a barrier or a lock that orders the store before the load
  (`KickExact`). virtio-blk looks under its mutex and is safe whatever the
  barrier does; net, scmi and console transmit rely on `write_barrier`, which
  orders a store before a later load on LoongArch only
  (tools/virtio/virtio.c:199-212); the GPU control queue does not look
  (`DevicesExact`).
- Completion in order fails exactly when a drain comes to an entry whose chain
  is made only of indirect tables shorter than one descriptor: walker and caller
  both step over it (`CompletionExact`, and `EmptyChainSkips` for a queue on
  which an entry is skipped). The console drops such an entry (`ConsoleExact`).
- The used length of a block request is at most what the guest gave to write to,
  except for malformed chains without a writable byte and for an id request
  whose only writable byte is the status (`UsedLengthExact`).
- A call of `virtio_inject_irq` exactly 2^16 used entries after the one before
  takes it for no progress (`FullTurnIsSilent`, `OncePerCrossingExact`).
- `calc_image_hostmem` is four bytes per pixel exactly when nothing wraps
  (`ImageSizeExact`). A 2D creation is always answered as a success, and the
  resource exists exactly if it stays below the host memory cap (`CreateExact`,
  `CreateAtCap`).
- A scanout rectangle or a transfer that is accepted lies inside its resource
  exactly when no 32-bit sum wraps (`RectExact`, `TransferExact`, `RectOutside`).
- GPU reset keeps the scanout bookkeeping exactly when no scanout shows anything
  (`ResetExact`).
- `hvisor_load_image` bounds the size of a copy and not its end: the window
  passes 2^64 exactly when the copy does (`WindowExact`, `WindowPastEnd`).
- `ranges_overlap` ignores the address 2^64 - 1 (`OverlapExact`), and `in_range`
  matches nothing in a range whose end wraps (`InRangeExact`).

## Model

| member | source | states |
|---|---|---|
| `Words.NeedEventExact` | tools/virtio/virtio.c:1176-1178 | the event test on wrapped indices is true exactly when a count with that index lies in the interval |
| `Ranges.OverlapExact` | tools/virtio/virtio.c:1762-1772 | two ranges overlap exactly when they share an address below 2^64 - 1, also when an end overflows |
| `Ranges.InRangeExact` | tools/virtio/virtio.c:1152-1154 | the routing test matches exactly the addresses of a range whose end does not wrap |
| `Ranges.DisjointRoutes` | tools/virtio/virtio.c:1247-1260 | ranges the overlap test keeps apart never both match an address |
| `BridgeRing.FullExact` | tools/virtio/virtio.c:188-195 | the full test on wrapped indices is true exactly when 31 slots are in use |
| `SleepHandshake.DaemonKeeps` | tools/virtio/virtio.c:1362-1439 | every daemon step keeps the handshake invariant, in which its copy of the front index is the shared one with its own buffered stores, one slot ahead between handling and storing, and the flag is down while it works |
| `SleepHandshake.ProducerKeeps` | tools/virtio/virtio.c:1406-1430 | every step of a hypervisor CPU that follows the stated contract keeps it |
| `SleepHandshake.DrainKeeps` | tools/virtio/virtio.c:1406-1430 | a store leaving the daemon's store buffer keeps it |
| `SleepHandshake.StepKeeps` | tools/virtio/virtio.c:1362-1439 | every step of every party keeps it, the wakeup interrupt included |
| `SleepHandshake.InvNeverLoses` | tools/virtio/virtio.c:1362-1439 | with both fences, from any state of the invariant no reachable state has the daemon asleep while the shared front and rear indices differ, without a signal on its way |
| `SleepHandshake.ConsumerFenceNeeded` | tools/virtio/virtio.c:1419-1430 | without the daemon's fence a wakeup can be lost |
| `SleepHandshake.ProducerFenceNeeded` | tools/virtio/virtio.c:1406-1419 | without the hypervisor's fence a wakeup can be lost |
| `SleepHandshake.FencesExact` | tools/virtio/virtio.c:1362-1439 | no wakeup is lost from any LoongArch start, whatever the ring holds, if and only if both sides fence |
| `SleepHandshake.HandledInOrder` | tools/virtio/virtio.c:1374-1398 | over every run of all parties the daemon handles the slots from the shared front index it found, in order, each once and only published ones, and when the shared indices meet it has handled everything published |
| `SleepHandshake.AsleepMeansHandled` | tools/virtio/virtio.c:1362-1439 | a daemon that sleeps has handled every request published, or its wakeup is on its way |
| `SleepHandshake.AllHandled` | tools/virtio/virtio.c:1374-1439 | with no new request, in any order of the daemon's steps and of its stores reaching memory, they end within a bound, and then every request of the ring was handled, the shared front index has reached the rear index and the daemon sleeps |
| `SleepHandshake.SleepsAfterPolling` | tools/virtio/virtio.c:1380-1404 | over every run the daemon decides to sleep after exactly 10000000 looks at an empty ring since it last had something to do |
| `SleepHandshake.LosesOnEmptyRing` | tools/virtio/virtio.c:1518-1558 | on the other entry path a reachable state has the daemon asleep on a non-empty ring with nothing on its way, although the ring was empty on entry |
| `SleepHandshake.OtherEntryExact` | tools/virtio/virtio.c:1510-1558 | on the other entry path no wakeup is lost if and only if the entry state is safe |
| `SleepHandshake.StuckUntilRequest` | tools/virtio/virtio.c:1523-1528 | in such a sleep with everything in memory and all flags checked, only a new request has a step |
| `SleepHandshake.StuckExact` | tools/virtio/virtio.c:1518-1558 | on the other entry path the daemon can get stuck like that if and only if the entry state is not safe |
| `SleepHandshake.WakeupArrives` | driver/hvisor_main.c:456-481 | while a wakeup is owed, in any order of the steps of the other parties, at most the rank of the state, and five more per new request, pass before the eventfd is signalled, and until then one of them is enabled |
| `SleepHandshake.SleepIsOwed` | tools/virtio/virtio.c:1523-1557 | every sleep on a non-empty ring is owed its wakeup, and an arrived signal wakes the daemon |
| `RequestRing.RingKeeps` | tools/virtio/virtio.c:1374-1398 | every step keeps each published request in its slot until released |
| `RequestRing.HistoryKeeps` | tools/virtio/virtio.c:1374-1398 | every step keeps the handled requests a prefix of the produced ones |
| `RequestRing.AnswerKeeps` | tools/virtio/virtio.c:1240-1290 | every step keeps the flag of each CPU the count of its answered requests |
| `RequestRing.InvAlways` | tools/virtio/virtio.c:1374-1398 | the three hold over every run |
| `RequestRing.FifoExactlyOnce` | tools/virtio/virtio.c:1240-1290 | over every run the requests handled are a prefix of those produced and each flag counts exactly the control and unmatched requests handled for its CPU, modulo 2^64 |
| `RequestRing.AnswersOverAllRuns` | tools/virtio/virtio.c:1240-1287 | over every run the flag of a CPU counts exactly its requests taken that are not data requests or that no device of the table of that moment holds (same zone, address in its range, end not wrapping), and its value is what the device yields to a read that one holds, and 0 otherwise, in place before the flag counts it |
| `RequestRing.DaemonMoves` | tools/virtio/virtio.c:1380-1398 | over every run, while a published request is not released the daemon's next step is enabled |
| `RequestRing.RequestGoesIn` | tools/virtio/virtio.c:188-195 | a request can be put into the ring exactly while fewer than 31 are unreleased, and is then published as the newest |
| `RequestRing.SlotsAreSafe` | tools/virtio/virtio.c:1374-1398 | no step overwrites an unreleased slot, and none is released before it is handled |
| `RequestRing.ValueBeforeFlag` | tools/virtio/virtio.c:1240-1245 | when a flag rises, the value of that request is already in place |
| `BlkWorker.WorkerKeeps` | tools/virtio/devices/blk/virtio_blk.c:262-315 | every worker step, spurious wakeups included, keeps the protocol invariant |
| `BlkWorker.MainKeeps` | tools/virtio/devices/blk/virtio_blk.c:417-470 | every step of the main thread keeps it |
| `BlkWorker.DrainMeans` | tools/virtio/devices/blk/virtio_blk.c:300-314 | the drain touches nothing but the queue |
| `BlkWorker.StepKeeps` | tools/virtio/devices/blk/virtio_blk.c:262-315 | every step of every party keeps it |
| `BlkWorker.InvAlways` | tools/virtio/devices/blk/virtio_blk.c:262-315 | it holds over every run: `worker_paused` implies the worker is inside its reset wait |
| `BlkWorker.ResetQuiescence` | tools/virtio/virtio.c:434-442 | between the return of the reset and the end of the queue reset loop the worker is parked and touches no queue |
| `BlkWorker.ParkedUntilKick` | tools/virtio/devices/blk/virtio_blk.c:417-452 | after a reset the worker stays parked until the next notification or close |
| `BlkWorker.KickedNeverForgotten` | tools/virtio/devices/blk/virtio_blk.c:267-275 | while the worker sleeps unsignalled, every available entry was added after the last kick |
| `BlkWorker.KickResumes` | tools/virtio/devices/blk/virtio_blk.c:417-430 | a kick ends a reset, leaves nobody asleep, and a parked worker is back at its loop after two steps |
| `BlkWorker.EverythingAnnounced` | tools/virtio/devices/blk/virtio_blk.c:300-314 | over every run, outside its drain the worker has injected an interrupt for everything handled, and notifications are off exactly between the two calls that switch them |
| `BlkWorker.WokenBySignal` | tools/virtio/devices/blk/virtio_blk.c:267-294 | over every run a thread in a condition wait is woken exactly if the other has signalled it since the wait began |
| `BlkWorker.QueuesReset` | tools/virtio/virtio.c:440-442 | the queue reset loop visits every queue once and leaves the request queue empty |
| `BlkWorker.BlockedProgress` | tools/virtio/devices/blk/virtio_blk.c:439-470 | while the main thread is inside a reset or a join, the worker or the main thread itself has a step, and the worker if the main thread sleeps |
| `BlkWorker.PauseNearer` | tools/virtio/devices/blk/virtio_blk.c:439-452 | each step of the worker outside the drain brings the reset wait nearer while a reset is on |
| `BlkWorker.ExitNearer` | tools/virtio/devices/blk/virtio_blk.c:458-470 | each step of the worker outside the drain brings its exit nearer while a close is on |
| `BlkWorker.DrainNearer` | tools/virtio/devices/blk/virtio_blk.c:300-314 | each step of the drain brings its end nearer, entries counted |
| `BlkWorker.ProgressDecreases` | tools/virtio/devices/blk/virtio_blk.c:262-315 | every step of worker and guest lowers the rank or releases the main thread, and the main thread's own steps, spurious wakeups included, do not raise it |
| `BlkWorker.StaysReleased` | tools/virtio/devices/blk/virtio_blk.c:439-470 | no step but a new operation blocks a released main thread |
| `BlkWorker.Released` | tools/virtio/devices/blk/virtio_blk.c:439-470 | whatever worker, guest and main thread do, spurious wakeups of the main thread included, it is released after at most as many steps of worker and guest as the rank, and until then there is a next step |
| `BlkWorker.NoDeadlock` | tools/virtio/devices/blk/virtio_blk.c:439-470 | inside reset and close some step without a spurious wakeup is always enabled |
| `BlkWorker.CloseNeverWaits` | tools/virtio/devices/blk/virtio_blk.c:267-294 | once close is set the worker never enters a wait again |
| `Notification.DeviceKeeps` | tools/virtio/devices/blk/virtio_blk.c:267-310 | every device step of disable, drain, enable, re-check, lock and second look keeps the invariant |
| `Notification.ArmedKicks` | tools/virtio/virtio.c:504-511 | once notification is re-enabled, an unseen addition makes the driver kick |
| `Notification.StepKeeps` | tools/virtio/virtio.c:495-511 | every step of device and driver keeps it |
| `Notification.NeverLosesKick` | tools/virtio/virtio.c:495-511 | for the flag and the event index, a device that looks again behind a draining barrier or a lock never ends a drain on a non-empty queue without a kick on its way |
| `Notification.EverythingConsumed` | tools/virtio/devices/net/virtio_net.c:235-263 | a device that looks again and has been woken comes to wait within a bound in any order of its steps and stores, and has then consumed every entry available and enabled notifications |
| `Notification.RecheckNeeded` | tools/virtio/devices/gpu/virtio_gpu_base.c:287-311 | without any second look a kick can be lost |
| `Notification.DrainNeeded` | tools/virtio/devices/net/virtio_net.c:235-263 | with a second look that may be read early, and none behind a lock, a kick can be lost |
| `Notification.KickExact` | tools/virtio/devices/net/virtio_net.c:235-263 | no kick is ever lost if and only if the device looks under a lock before it waits, or re-checks behind a barrier that drains |
| `Notification.DevicesExact` | tools/virtio/devices/blk/virtio_blk.c:267-269 | virtio-blk never loses a kick; net transmit and the loops of scmi and console never do if and only if the barrier drains; the GPU control queue can |
| `VirtQueues.SlotIsMask` | tools/virtio/virtio.c:760-761 | the masked index is the remainder by the queue size |
| `VirtQueues.SlotWrap` | tools/virtio/virtio.c:786-791 | ring positions do not depend on where the 16-bit index wrapped |
| `VirtQueues.BatchRefinesSingle` | tools/virtio/virtio.c:772-796 | a batch leaves the ring and index that publishing its entries one by one leaves, for every start index and list |
| `VirtQueues.BatchRingHolds` | tools/virtio/virtio.c:772-796 | a batch of at most `num` entries puts each entry at its own position and touches no other |
| `VirtQueues.IndexComesLast` | tools/virtio/virtio.c:782-795 | after every prefix of the stores of a batch, the index exposes only entries already written |
| `VirtQueues.VirtQueue.constructor` | tools/virtio/virtio.c:446-459 | a fresh queue starts with all indices 0 |
| `VirtQueues.VirtQueue.UpdateUsedRing` | tools/virtio/virtio.c:750-770 | three stores, in this order, publish one entry at the used index and advance it; memory is the replay of the stores made |
| `VirtQueues.VirtQueue.PutId` | tools/virtio/virtio.c:762 | one store of an id |
| `VirtQueues.VirtQueue.PutLen` | tools/virtio/virtio.c:763 | one store of a length |
| `VirtQueues.VirtQueue.PutIdx` | tools/virtio/virtio.c:764 | one store of the index |
| `VirtQueues.VirtQueue.WriteEntry` | tools/virtio/virtio.c:789-790 | the two stores of one entry of a batch, one after the other, at its position |
| `VirtQueues.VirtQueue.WriteEntries` | tools/virtio/virtio.c:788-791 | the loop stores all entries and leaves the index |
| `VirtQueues.VirtQueue.UpdateUsedRingBatch` | tools/virtio/virtio.c:772-796 | the batch equals single publication, with the index stored last; memory is the replay of the stores made; an empty batch does nothing |
| `Walkers.SplitCounts` | tools/virtio/virtio.c:554-579 | the split by the WRITE flag loses and invents no buffer |
| `Walkers.PathEnds` | tools/virtio/virtio.c:591-645 | following NEXT through the queue's or an indirect table ends at the first descriptor without it, or at the bound |
| `Walkers.ChainIsPath` | tools/virtio/virtio.c:582-655 | a walk succeeds exactly when every entry visited is good (an address, or a table whose entries on the path all lie inside it and have one), and then yields the address, length and flags of every data descriptor visited, in order; otherwise those of the first ones |
| `Walkers.WalkExact` | tools/virtio/virtio.c:582-655 | in terms of the guest's descriptors alone: the walker succeeds exactly when all entries are good and the readable and writable data descriptors fit the arrays, which then hold exactly them, in order; it faults exactly at a first indirect table at NULL with only good entries before it that fit |
| `Walkers.EndlessIsCut` | tools/virtio/virtio.c:588-591 | a chain without end, cyclic ones included, is accepted and cut after `num` descriptors |
| `Walkers.OneEmptyExact` | tools/virtio/virtio.c:594-600 | one descriptor is accepted without buffers exactly when it is an indirect table shorter than one descriptor |
| `Walkers.EmptyExact` | tools/virtio/virtio.c:594-597 | a chain is accepted as empty exactly when every descriptor visited is an indirect table shorter than one descriptor |
| `Walkers.BufConfig.constructor` | tools/virtio/virtio.c:588-589 | the arrays start empty |
| `Walkers.BufConfig.Push` | tools/virtio/virtio.c:554-579 | appends to the side the WRITE flag selects, refuses exactly when that side is full, and writes nothing beyond the bounds |
| `Walkers.WalkIndirect` | tools/virtio/virtio.c:594-625 | the inner loop appends the bounded flattening of the table, or fails where it does or where the arrays end |
| `Walkers.WalkOne` | tools/virtio/virtio.c:592-640 | one descriptor, direct or indirect |
| `Walkers.WalkChain` | tools/virtio/virtio.c:587-645 | the outer loop on every descriptor table, with termination |
| `Walkers.ProcessDescriptorChainBuf` | tools/virtio/virtio.c:582-655 | the out array holds the translated descriptors whose own WRITE flag is clear, the in array those whose flag is set, in the order of the chain, and their number is returned; nothing beyond `max_out` and `max_in` is written; the index advances once on success and not at all on -1 |
| `Walkers.ConformingFlat` | tools/virtio/virtio.c:663-748 | a conforming chain flattens without error to at least one buffer |
| `Walkers.AllocEmptyExact` | tools/virtio/virtio.c:681-705 | the allocating walker finds nothing exactly when the chain is one indirect table shorter than one descriptor |
| `Walkers.AllocEndlessIsCut` | tools/virtio/virtio.c:682-705 | it cuts an endless chain of direct descriptors after `num` + 1 entries, one later than the other walker |
| `Walkers.ConformingAlloc` | tools/virtio/virtio.c:663-748 | on a conforming chain it stores exactly the flattening and returns its length |
| `Walkers.AllocIsPath` | tools/virtio/virtio.c:663-748 | the allocating walker stores the address, length and flags of every data descriptor on the path of `num` + 1 entries, in order |
| `Walkers.AllocCounts` | tools/virtio/virtio.c:681-705 | it returns one for each direct entry and the whole table for an indirect one |
| `Walkers.AllocExact` | tools/virtio/virtio.c:663-748 | the chains on which it stays inside its array and its tables, by the entries visited |
| `Walkers.CountChain` | tools/virtio/virtio.c:681-705 | the counting pass returns the number of entries of the chain |
| `Walkers.Descriptor2Iov` | tools/virtio/virtio.c:538-551 | stores one translated buffer and, if asked, its flags |
| `Walkers.FillIndirect` | tools/virtio/virtio.c:716-736 | fills the chain of an indirect table and leaves over what the table has more |
| `Walkers.FillChain` | tools/virtio/virtio.c:713-747 | the filling pass stores the buffers of the chain in order, inside the array |
| `Walkers.ProcessDescriptorChain` | tools/virtio/virtio.c:663-748 | on an empty queue returns 0 and changes nothing; otherwise reads the head from the available ring, advances the index once and returns, in an array of the counted length plus the appended room, the translated data descriptors of the chain in order and, if asked, their flags |
| `Walkers.SplitOrdered` | tools/virtio/virtio.c:554-579 | with readable descriptors first, the two parts concatenate to the chain |
| `Walkers.CleanReturn` | tools/virtio/virtio.c:582-655 | a chain without bad descriptors is refused exactly when it does not fit |
| `Walkers.WalkersAgree` | tools/virtio/virtio.c:582-748 | on every conforming chain the allocated iovec is complete and is the readable descriptors followed by the writable ones, as the other walker has them in its two arrays, which refuses the chain exactly when they do not fit |
| `Ledger.PostedHolds` | tools/virtio/virtio.c:674-681 | the newest `num` entries the driver added are in the available ring at their positions |
| `Ledger.PutAllConcat` | tools/virtio/virtio.c:750-796 | publishing two lists in turn is publishing their concatenation |
| `Ledger.SlackGrows` | tools/virtio/devices/blk/virtio_blk.c:173-180 | consumed minus published entries grows by the number of empty chains |
| `Ledger.ServedExact` | tools/virtio/devices/blk/virtio_blk.c:163-245 | starting in order, a device stays in order if and only if it meets no empty chain |
| `Ledger.Conserved` | tools/virtio/devices/blk/virtio_blk.c:148-245 | the difference of `last_avail_idx` and the used index is constant modulo 2^16 if and only if the number of empty chains met is a multiple of 2^16 |
| `Ledger.ServedConcat` | tools/virtio/devices/net/virtio_net.c:235-263 | the accounting of two stretches of work adds up |
| `Ledger.OrderExact` | tools/virtio/devices/blk/virtio_blk.c:163-245 | a drain stays in order if and only if none of the ring entries it comes to is empty |
| `Ledger.HeadIs` | tools/virtio/devices/blk/virtio_blk.c:170-171 | the head read at `last_avail_idx` is the oldest entry not consumed |
| `Ledger.EmptyMeansDone` | tools/virtio/include/virtio.h:106-111 | in order, indices that meet mean that everything ever made available is completed |
| `Ledger.FreshQueue` | tools/virtio/virtio.c:446-459 | a queue that has just been set up is in order |
| `Ledger.Driver` | tools/virtio/virtio.c:754-755 | a driver adds exactly as many of the entries it wants as the indices it sees leave room for |
| `Ledger.GrownKeeps` | tools/virtio/virtio.c:754-755 | and so keeps at most `num` entries outstanding, which is why a used ring of `num` entries is enough |
| `Ledger.DrainNext` | tools/virtio/devices/blk/virtio_blk.c:163-245 | one more request, read from a ring that does not look empty, keeps the accounting, published or held back |
| `Ledger.DrainPlace` | tools/virtio/devices/net/virtio_net.c:238-250 | in order, a batch that is held back has fewer than `num` entries whenever the queue does not look empty |
| `Ledger.DrainEnds` | tools/virtio/devices/blk/virtio_blk.c:300-314 | a drain with nothing held back that finds the queue empty has completed every entry once, in order, under its id |
| `Drains.Test` | tools/virtio/devices/blk/virtio_blk.c:303-310 | the test of a drain loop, after the driver has run, is true exactly when the consumed and the available counts agree modulo 2^16 |
| `Drains.TakeChain` | tools/virtio/devices/blk/virtio_blk.c:170-180 | reads the head at `last_avail_idx`, walks its chain, and moves the index by one, or by two if the chain is empty |
| `Drains.GiveBack` | tools/virtio/devices/net/virtio_net.c:144-148 | stepping back over the entry just consumed restores the index |
| `Drains.CompletionExact` | tools/virtio/devices/blk/virtio_blk.c:163-245 | blk, net and scmi: every entry consumed is completed once, in order and under its id if and only if no ring entry the drain comes to has a chain made only of indirect tables shorter than one descriptor |
| `BlkQueue.BlkComplete` | tools/virtio/devices/blk/virtio_blk.c:148-161 | writes the status for the error, if there is a status byte, and publishes the length plus one |
| `BlkQueue.BlkServe` | tools/virtio/devices/blk/virtio_blk.c:182-244 | there is a status byte exactly if the chain is well formed; it tells success, failure and an unknown operation apart; the length counts the data delivered |
| `BlkQueue.UsedLengthExact` | tools/virtio/devices/blk/virtio_blk.c:128-160 | the used length is at most the writable bytes of the chain, except in two cases |
| `BlkQueue.BlkHandleOne` | tools/virtio/devices/blk/virtio_blk.c:163-245 | one used entry for the head read from the ring, with an answer that fits its chain, whatever the I/O result |
| `BlkQueue.BlkBatch` | tools/virtio/devices/blk/virtio_blk.c:304-309 | the inner loop handles entries in the order of the ring until it looks empty |
| `BlkQueue.BlkDrain` | tools/virtio/devices/blk/virtio_blk.c:300-314 | with entries arriving before every test: unless an empty chain was met, everything ever made available is completed once, in order, under its id when the drain ends; it ends only on an empty queue, on a fault of the walker or with the requests given used up |
| `BlkQueue.BlkExact` | tools/virtio/devices/blk/virtio_blk.c:163-245 | a block drain stays in order if and only if no entry it comes to is empty in the memory of its turn |
| `BlkQueue.EmptyChainSkips` | tools/virtio/devices/blk/virtio_blk.c:173-180 | an empty chain with one entry behind it: that entry is skipped and the queue looks empty; with none: the index passes the driver's |
| `NetQueues.Batch.constructor` | tools/virtio/devices/net/virtio_net.c:116-118 | the batch arrays start empty |
| `NetQueues.Batch.Add` | tools/virtio/devices/net/virtio_net.c:164-166 | appends an entry to the batch arrays |
| `NetQueues.BatchTest` | tools/virtio/devices/net/virtio_net.c:116-119 | a loop that fills the batch arrays has room whenever the queue does not look empty, as long as no empty chain was met |
| `NetQueues.RxOne` | tools/virtio/devices/net/virtio_net.c:119-168 | consumes an entry, or gives it back exactly when the tap would block |
| `NetQueues.RxCollect` | tools/virtio/devices/net/virtio_net.c:119-168 | the batch arrays hold the consumed heads in the order of the ring with their lengths; the loop stops only on an entry given back or left empty; readiness is lost exactly at end of file; the arrays overrun only if the queue was out of order before |
| `NetQueues.NetReceive` | tools/virtio/devices/net/virtio_net.c:111-173 | the late batch completes exactly the consumed entries; a drain that ends on an empty queue has completed everything |
| `NetQueues.PadFrame` | tools/virtio/devices/net/virtio_net.c:211-224 | the frame for the tap has at least 64 bytes behind its header and fits the array, because the walker leaves one element free |
| `NetQueues.TxHandleOne` | tools/virtio/devices/net/virtio_net.c:176-233 | one batch entry per chain, with length 0 on every failure; a chain whose first buffer holds the header is given to the tap in one piece, its packet padded with zero bytes to 64 |
| `NetQueues.TxCollect` | tools/virtio/devices/net/virtio_net.c:242-245 | a round collects its heads in the order of the ring; the arrays overrun only if an empty chain was met |
| `NetQueues.TxRound` | tools/virtio/devices/net/virtio_net.c:242-250 | one round publishes what it collected in one batch |
| `NetQueues.NetTransmit` | tools/virtio/devices/net/virtio_net.c:235-263 | over any number of rounds, with entries arriving before every test, every packet is framed for the tap in turn, and everything ever made available is completed once, in order, when the handler ends, unless an empty chain was met; it ends only on an empty queue, on a fault of the walker, with the requests given used up, or, after an empty chain, with full batch arrays |
| `NetQueues.ReceiveExact` | tools/virtio/devices/net/virtio_net.c:111-173 | reception stays in order if and only if no entry it comes to is empty |
| `NetQueues.TransmitExact` | tools/virtio/devices/net/virtio_net.c:176-263 | so does transmission |
| `ScmiQueue.ScmiHandleOne` | tools/virtio/devices/scmi/virtio_scmi.c:92-159 | one used entry per request, of length 0 unless the request is answered |
| `ScmiQueue.ScmiBatch` | tools/virtio/devices/scmi/virtio_scmi.c:161-174 | the inner loop stops right after the first request that is not answered, which is completed, and otherwise ends for one of the three reasons |
| `ScmiQueue.ScmiDrain` | tools/virtio/devices/scmi/virtio_scmi.c:161-178 | the outer loop completes every entry in order despite failures, with entries arriving before every test; it ends only on an empty queue, on a fault of the walker or with the requests given used up |
| `ScmiQueue.ScmiExact` | tools/virtio/devices/scmi/virtio_scmi.c:92-178 | the drain stays in order if and only if no entry it comes to is empty |
| `ConsoleQueues.ConsoleWalk` | tools/virtio/devices/console/virtio_console.c:68 | the allocating walker reads the head from the ring and steps over the entry |
| `ConsoleQueues.ConsoleReadOne` | tools/virtio/devices/console/virtio_console.c:67-85 | completes an entry, gives it back on any read error, or drops it when its chain is empty |
| `ConsoleQueues.ConsoleReceive` | tools/virtio/devices/console/virtio_console.c:61-87 | completes entries in the order of the ring; stops only on an entry it drops or gives back; ends on an empty queue only with everything completed |
| `ConsoleQueues.ConsoleHandleOne` | tools/virtio/devices/console/virtio_console.c:166-188 | a non-empty chain is completed with length 0 whatever the write returns |
| `ConsoleQueues.ConsoleTransmit` | tools/virtio/devices/console/virtio_console.c:190-202 | consumes every entry and completes the non-empty ones in order, with entries arriving before every test; it ends only on an empty queue, on a fault of the walker or with the requests given used up |
| `ConsoleQueues.ConsoleExact` | tools/virtio/devices/console/virtio_console.c:67-202 | both console drains stay in order if and only if no entry they come to is one indirect table shorter than one descriptor |
| `EventIndex.FiresExact` | tools/virtio/virtio.c:1158-1179 | one call interrupts exactly when the event was crossed since the call before |
| `EventIndex.OncePerCrossing` | tools/virtio/virtio.c:1158-1179 | any sequence of calls interrupts exactly once per crossing, across any number of wraps |
| `EventIndex.AtMostOnce` | tools/virtio/virtio.c:1158-1179 | with total progress of at most 2^16 exactly one call interrupts if the event was crossed, else none |
| `EventIndex.WrapOnce` | tools/virtio/virtio.c:1158-1179 | a full turn of the index crosses every event once |
| `EventIndex.FullTurnIsSilent` | tools/virtio/virtio.c:1158-1179 | a call a full turn after the one before crosses the event and stays silent |
| `EventIndex.CrossingsAccounted` | tools/virtio/virtio.c:1158-1179 | every crossing is an interrupt or lies in a full turn |
| `EventIndex.OncePerCrossingExact` | tools/virtio/virtio.c:1158-1179 | one interrupt per crossing if and only if no call comes a full turn after the one before |
| `InterruptLine.DevicesKeep` | tools/virtio/virtio.c:1063-1092 | inject, acknowledge, reset and the ioctl results keep the device invariant |
| `InterruptLine.PostKeeps` | tools/virtio/virtio.c:1206-1218 | posting a result keeps every unconsumed result in its slot |
| `InterruptLine.StepKeeps` | tools/virtio/virtio.c:1180-1238 | every step of every device and of the hypervisor keeps both |
| `InterruptLine.InvAlways` | tools/virtio/virtio.c:1180-1238 | both hold over every run of any number of devices |
| `InterruptLine.LineOverAllRuns` | tools/virtio/virtio.c:1180-1238 | an asserted line has a pending status bit, successful asserts minus deasserts is the line, and each unsuppressed injection merged, posted one result or is about to |
| `InterruptLine.MergedOverAllRuns` | tools/virtio/virtio.c:1182-1218 | over every run the injections merged into a device's line are exactly those that found it up, and each that found it low has posted one result or waits for a slot |
| `InterruptLine.PostExact` | tools/virtio/virtio.c:1206-1218 | a waiting device can post exactly while fewer than 31 results are unconsumed; otherwise one can be consumed, and then it can |
| `InterruptLine.InjectionRaises` | tools/virtio/virtio.c:1180-1228 | an injection that finds the line low posts one result of its device and raises the line with the status bit set |
| `InterruptLine.RisesCounted` | tools/virtio/virtio.c:1218-1228 | the rises of a device are the assert ioctls of the run that succeeded |
| `InterruptLine.StatusOverAllRuns` | tools/virtio/virtio.c:1063-1092 | over every run the status register is exactly the injection not yet cleared, where with the line up only a deassert that succeeds clears, and the deassert ioctls issued are exactly those that clearing a raised line takes |
| `InterruptLine.LineFallsOnlyWhenClear` | tools/virtio/virtio.c:1063-1092 | the line rises exactly by an assert ioctl that succeeds, and falls only when no status bit remains and by a deassert ioctl that succeeds |
| `InterruptLine.ResetExact` | tools/virtio/virtio.c:418-430 | a reset clears status and line unless the line is up and cannot be lowered |
| `InterruptLine.ResultsAreSafe` | tools/virtio/virtio.c:1206-1218 | no step overwrites an unconsumed result |
| `DeviceTable.BuildDevices` | tools/virtio/virtio.c:1881-1909 | a successful creation makes one device per enabled configuration, in order, with fresh identities |
| `DeviceTable.AppendApart` | tools/virtio/virtio.c:1801-1839 | a request that passes validation keeps the table pairwise disjoint per zone |
| `DeviceTable.ServeKeeps` | tools/virtio/virtio.c:1943-1969 | one request keeps the table invariant; on success the enabled devices are appended, on failure the table is identical |
| `DeviceTable.ServeExact` | tools/virtio/virtio.c:1943-1969 | a request succeeds exactly when it is acceptable, its memory is mapped and every device initialises; it then appends a device with the zone, base and length of each enabled configuration, in order and with a new identity; a request that fails closes every device it made |
| `DeviceTable.TableOverAllRuns` | tools/virtio/virtio.c:1881-1909 | over every sequence of requests with arbitrary failures the table is bounded, pairwise disjoint, and every device created is published once or closed once |
| `DeviceTable.AppendOnly` | tools/virtio/virtio.c:299-314 | the table only grows at its end over whole runs |
| `DeviceTable.RouteUnique` | tools/virtio/virtio.c:1247-1260 | an access matches at most one device |
| `DeviceTable.Registry.constructor` | tools/virtio/virtio.c:60-61 | the table starts empty |
| `DeviceTable.Registry.Route` | tools/virtio/virtio.c:1247-1260 | finds a matching device if there is one, and then it is the only one |
| `DeviceTable.Registry.ClashWithTable` | tools/virtio/virtio.c:1813-1817 | true exactly when a published device of the zone overlaps |
| `DeviceTable.Registry.ClashWithin` | tools/virtio/virtio.c:1821-1829 | true exactly when one of the first devices of a zone overlaps |
| `DeviceTable.Registry.ClashWithEarlier` | tools/virtio/virtio.c:1818-1830 | true exactly when an earlier enabled device of the request overlaps |
| `DeviceTable.Registry.ValidateZone` | tools/virtio/virtio.c:1806-1831 | accepts exactly if the request is acceptable up to this zone |
| `DeviceTable.Registry.Validate` | tools/virtio/virtio.c:1801-1839 | accepts exactly the requests that fit the table |
| `DeviceTable.Registry.Destroy` | tools/virtio/virtio.c:286-297 | closes each given device once |
| `DeviceTable.Registry.Abandon` | tools/virtio/virtio.c:1893-1899 | closes everything a failed creation has made, once |
| `DeviceTable.Registry.Publish` | tools/virtio/virtio.c:299-314 | appends all or none, depending on the room |
| `DeviceTable.Registry.CreateOne` | tools/virtio/virtio.c:1887-1900 | creates one device, or closes everything made so far |
| `DeviceTable.Registry.CreateZone` | tools/virtio/virtio.c:1884-1902 | the same for the enabled devices of a zone |
| `DeviceTable.Registry.CreateAll` | tools/virtio/virtio.c:1884-1902 | creates every enabled device in order, or closes everything made |
| `DeviceTable.Registry.CreateDevices` | tools/virtio/virtio.c:1881-1909 | publishes every enabled device or leaves the table as it was |
| `DeviceTable.Registry.Start` | tools/virtio/virtio.c:1943-1969 | a whole request is one step of the table machine |
| `ZoneMemory.CommitKeeps` | tools/virtio/virtio.c:1863-1876 | publishing a region after the lock was dropped keeps the regions apart |
| `ZoneMemory.StepKeeps` | tools/virtio/virtio.c:1841-1879 | every step of any adder keeps the map invariant |
| `ZoneMemory.RegionsOverAllRuns` | tools/virtio/virtio.c:1841-1879 | over every interleaving the regions of a zone are non-empty and pairwise disjoint in both guest address spaces and on the host |
| `ZoneMemory.UncontendedAdd` | tools/virtio/virtio.c:1841-1879 | an adder that nobody overtakes can add any new region that overlaps nothing |
| `ZoneMemory.FindExactFrom` | tools/virtio/virtio.c:1774-1799 | the search reports a region as present exactly when it is there and a conflict exactly when another overlaps |
| `ZoneMemory.OneHolder` | tools/virtio/virtio.c:470-491 | a guest address lies in at most one region |
| `ZoneMemory.TranslateExact` | tools/virtio/virtio.c:470-491 | whichever region holds an address gives its translation |
| `ZoneMemory.OrderIndependent` | tools/virtio/virtio.c:470-491 | the order of the regions does not matter |
| `ZoneMemory.OffsetKept` | tools/virtio/virtio.c:470-491 | the offset in the region is kept and the result lies in the mapping |
| `ZoneMemory.TranslateInjective` | tools/virtio/virtio.c:470-491 | different guest addresses have different host addresses |
| `ZoneMemory.ZoneMaps.constructor` | tools/virtio/virtio.c:124 | every zone starts without regions |
| `ZoneMemory.ZoneMaps.GetVirtAddr` | tools/virtio/virtio.c:470-491 | returns the translation, or NULL for a bad zone or an unmapped address |
| `ZoneMemory.ZoneMaps.FindRegion` | tools/virtio/virtio.c:1780-1799 | the loop finds the first region that is the same or overlaps |
| `ZoneMemory.ZoneMaps.AddRegion` | tools/virtio/virtio.c:1841-1879 | with any growth while the lock is dropped, adds the region only if the re-check allows it, and touches no other zone |
| `ScatterGather.SpliceThenSlice` | tools/virtio/devices/gpu/virtio_gpu_base.c:390-432 | writing a slice and reading it back gives the data, and nothing outside changes |
| `ScatterGather.ReadPass` | tools/virtio/devices/gpu/virtio_gpu_base.c:394-403 | one pass of the reading loop extends the slice by what the buffer holds of it |
| `ScatterGather.IovToBufFull` | tools/virtio/devices/gpu/virtio_gpu_base.c:390-410 | copies exactly the slice of the concatenation, returns its length (0 past the end), and leaves the rest of the buffer |
| `ScatterGather.WritePass` | tools/virtio/devices/gpu/virtio_gpu_base.c:416-425 | one pass of the writing loop puts into the buffer what falls into it |
| `ScatterGather.BufToIovFull` | tools/virtio/devices/gpu/virtio_gpu_base.c:412-432 | changes exactly the slice of the concatenation and returns its length |
| `ScatterGather.IovToBuf` | tools/virtio/include/virtio_gpu.h:250-265 | the single-buffer fast path has the contract of the loop |
| `ScatterGather.FastBufToIov` | tools/virtio/include/virtio_gpu.h:270-275 | the fast path changes exactly the slice in the first buffer |
| `ScatterGather.BufToIov` | tools/virtio/include/virtio_gpu.h:267-276 | likewise for writing |
| `ScatterGather.WriteThenRead` | tools/virtio/include/virtio_gpu.h:250-276 | what either path writes at an offset either path reads back: everything if it fits, nothing past the end |
| `Gpu.ImageSizeExact` | tools/virtio/devices/gpu/virtio_gpu.c:190-198 | four bytes per pixel exactly when no 32-bit step wraps |
| `Gpu.StrideDefined` | tools/virtio/devices/gpu/virtio_gpu.c:529 | over every run, a resource that passes the check before the stride division has rows |
| `Gpu.RectExact` | tools/virtio/devices/gpu/virtio_gpu.c:545-547 | a scanout rectangle is accepted exactly when it is 16 by 16 or more and both directions fit or wrap, the top being compared with the width; an accepted one lies inside exactly when no sum wraps |
| `Gpu.TransferExact` | tools/virtio/devices/gpu/virtio_gpu.c:616-621 | a transfer is accepted exactly when both directions fit or wrap; an accepted one lies inside exactly when no sum wraps |
| `Gpu.RectOutside` | tools/virtio/devices/gpu/virtio_gpu.c:93-149 | commands after which a rectangle outside its resource is accepted |
| `Gpu.CreateExact` | tools/virtio/devices/gpu/virtio_gpu.c:93-149 | creation with a fresh id is answered as a success, and the resource exists exactly if it stays below the cap |
| `Gpu.CreateAtCap` | tools/virtio/devices/gpu/virtio_gpu.c:93-149 | an image of exactly the cap is answered as a success and not created |
| `Gpu.DisableAllMeans` | tools/virtio/devices/gpu/virtio_gpu.c:220-251 | the loop blanks exactly the scanouts that show the resource and clears its bits |
| `Gpu.DestroyMeans` | tools/virtio/devices/gpu/virtio_gpu.c:220-233 | destroying removes the resource, its memory and every scanout binding to it |
| `Gpu.DestroyKeeps` | tools/virtio/devices/gpu/virtio_gpu.c:200-233 | and keeps the bookkeeping invariant |
| `Gpu.UpdateMeans` | tools/virtio/devices/gpu/virtio_gpu.c:571-597 | rebinding moves exactly one bit between two resources |
| `Gpu.UpdateBinds` | tools/virtio/devices/gpu/virtio_gpu.c:571-597 | after rebinding every bitmask again names exactly the scanouts that show the resource |
| `Gpu.UpdateKeeps` | tools/virtio/devices/gpu/virtio_gpu.c:571-597 | and keeps the invariant, also when both are the same resource |
| `Gpu.CreateKeeps` | tools/virtio/devices/gpu/virtio_gpu.c:93-149 | creating keeps the invariant, ids unique and the account below the cap |
| `Gpu.TouchKeeps` | tools/virtio/devices/gpu/virtio_gpu.c:599-680 | attach, detach and transfer leave ids, sizes and bits alone and keep it |
| `Gpu.ServeKeeps` | tools/virtio/devices/gpu/virtio_gpu.c:93-261 | every command keeps it |
| `Gpu.CreateMeans` | tools/virtio/devices/gpu/virtio_gpu.c:93-149 | a created resource has the size asked for and no backing; a used id or id 0 is refused; nothing else changes |
| `Gpu.UnrefMeans` | tools/virtio/devices/gpu/virtio_gpu.c:200-251 | an unreferenced resource is gone, every scanout that showed it is blank, and nothing else changes |
| `Gpu.AttachMeans` | tools/virtio/devices/gpu/virtio_gpu.c:644-680 | memory is attached to a known resource that has none, if the entries can be mapped; otherwise the error is answered and nothing changes |
| `Gpu.DetachMeans` | tools/virtio/devices/gpu/virtio_gpu.c:777-794 | a detached resource is no longer backed, and nothing else changes |
| `Gpu.SetScanoutMeans` | tools/virtio/devices/gpu/virtio_gpu.c:497-597 | the scanout shows the given rectangle of the resource asked for and nothing else changes; an unknown scanout, an unknown or unusable resource and a rectangle that is not displayable get their own errors and change nothing |
| `Gpu.TransferMeans` | tools/virtio/devices/gpu/virtio_gpu.c:599-642 | a transfer is remembered with its rectangle and offset; one that does not fit is answered as an invalid parameter and changes nothing |
| `Gpu.BookkeepingOverAllRuns` | tools/virtio/devices/gpu/virtio_gpu.c:93-261 | over every run of 2D commands and any number of scanouts: unique non-zero ids, host memory the sum over live resources and below the cap, bit k set exactly when scanout k shows the resource, no dangling scanout |
| `Gpu.ResetExact` | tools/virtio/devices/gpu/virtio_gpu_base.c:244-256 | device reset keeps the bookkeeping if and only if no scanout shows anything |
| `Gpu.GpuDev.constructor` | tools/virtio/devices/gpu/virtio_gpu_base.c:27-60 | a fresh device satisfies the invariant |
| `Gpu.GpuDev.FindResource` | tools/virtio/devices/gpu/virtio_gpu.c:151-160 | finds the first resource with the id or reports that there is none |
| `Gpu.GpuDev.Checked` | tools/virtio/devices/gpu/virtio_gpu.c:162-188 | a found and backed resource, or the right error |
| `Gpu.GpuDev.Disable` | tools/virtio/devices/gpu/virtio_gpu.c:235-251 | blanks one scanout and clears its bit |
| `Gpu.GpuDev.DestroyResource` | tools/virtio/devices/gpu/virtio_gpu.c:220-233 | is the destroy step of the machine |
| `Gpu.GpuDev.Create` | tools/virtio/devices/gpu/virtio_gpu.c:93-149 | is the create step, error answers included |
| `Gpu.GpuDev.UnrefResource` | tools/virtio/devices/gpu/virtio_gpu.c:200-218 | is the unref step |
| `Gpu.GpuDev.AttachBacking` | tools/virtio/devices/gpu/virtio_gpu.c:644-680 | is the attach step |
| `Gpu.GpuDev.DetachBacking` | tools/virtio/devices/gpu/virtio_gpu.c:777-794 | is the detach step |
| `Gpu.GpuDev.BindScanout` | tools/virtio/devices/gpu/virtio_gpu.c:497-597 | is the set-scanout step, with the 32-bit bounds tests of the code |
| `Gpu.GpuDev.TransferToHost` | tools/virtio/devices/gpu/virtio_gpu.c:599-642 | is the transfer step |
| `Gpu.GpuDev.ResetScanouts` | tools/virtio/devices/gpu/virtio_gpu_base.c:244-256 | blanks every scanout and no resource |
| `ImageLoad.SpanIsTight` | tools/boot/multiboot2.c:103-109 | the two bounds enclose every loaded segment and are both met |
| `ImageLoad.SpanOrdered` | tools/boot/multiboot2.c:103-115 | the bounds are in order unless nothing is loaded |
| `ImageLoad.LaidIsLoaded` | tools/boot/multiboot2.c:83-101 | memory with the segments laid over it, address by address: file byte, zero or unchanged |
| `ImageLoad.Memory.Load` | tools/boot/multiboot2.c:85-87 | writes exactly the given bytes at the address |
| `ImageLoad.Memory.LoadSegment` | tools/boot/multiboot2.c:83-101 | lays the file bytes, then zeros up to the memory size |
| `ImageLoad.Memory.LoadPhdr` | tools/boot/multiboot2.c:64-109 | one header: skipped, refused or laid over what is there |
| `ImageLoad.Memory.LoadElf` | tools/boot/multiboot2.c:61-118 | succeeds exactly when every segment can be loaded; every address then holds the file byte of the last segment that covers it, or zero behind its file bytes, or what it held before; the size is the tight span |
| `ImageLoad.WindowExact` | driver/hvisor_main.c:153-169 | a load request is accepted exactly when its size, rounded to pages, fits 64 bits; its window is the smallest page range that contains the copy, and passes 2^64 exactly when the copy does |
| `ImageLoad.WindowPastEnd` | driver/hvisor_main.c:153-169 | two pages from the last page of the address space are accepted |

## Left out

- The hypervisor and the guest drivers appear only as environment steps: write
  the slot, publish, fence, read `need_wakeup`, signal; add, publish, test, kick.
- System calls (`preadv`, `pwritev`, tap, pty, `ioctl`, `mmap`, eventfd, epoll)
  are arbitrary results. Retries on EINTR count as one call.
- Memory order: the handshake and the notification protocol have store buffers
  (total store order); everything else is sequentially consistent. The barrier
  instructions of each architecture are not modelled.
- Guest memory is fixed during one descriptor walk.
- The LoongArch re-arming of the wakeup line, signal handling and the control
  socket of the event loop.
- BlkDrain, NetReceive, NetTransmit, ScmiDrain, ConsoleReceive, ConsoleTransmit:
  followed for as many requests as given, since a driver that adds for ever, or an
  index that passed the driver's, keeps a drain going; and up to a chain whose
  walk reads an indirect table at a NULL address.
- Test: a queue that is not set up, which looks empty.
- UpdateUsedRing, UpdateUsedRingBatch: lengths are unbounded; the code stores 32 bits.
- BlkDrain: sector arithmetic and the bytes moved by block I/O.
- NetTransmit: the loop with an invalid tap descriptor, which does not end; after
  an empty chain, a batch that would overrun its arrays.
- ConsoleTransmit: the loop with an invalid pty descriptor, which does not end.
- ScmiHandleOne: the SCMI protocol handlers, and the kernel side.
- ProcessDescriptorChain: chains VirtIO forbids on which the walker leaves its
  array, reads a NULL table or skips an array element: indirect descriptors with
  NEXT, NULL tables, table chains that do not end within the table, and an
  indirect descriptor right behind the `num` entries of a chain without end.
- StuckExact, OtherEntryExact: a system without any hypervisor CPU.
- StuckExact, HandledInOrder, AsleepMeansHandled: a CPU that has the ring lock at
  the start is taken to have found room in the ring.
- BlkWorker: `virtio_close` after the worker is joined, and devices whose worker
  never started.
- ZoneMemory: the interleaving theorem is about one zone; zones are independent.
- Gpu: the asynchronous command queue, DRM framebuffers, flush, cursor, EDID and
  display info; scanout bitmasks are sets, so shifts by 32 or more do not arise.
- Gpu.BookkeepingOverAllRuns: runs without device reset, for which see ResetExact.
- LoadElf: parsing of the ELF header, and segments whose ranges overflow 64 bits.
- DeviceTable: device-specific initialisation, which is an arbitrary outcome.
- JSON parsing, the command line, logging, zone configuration and the other
  parts of the tool: plumbing without hard invariants.
