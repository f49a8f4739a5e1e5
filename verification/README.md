# A verified model of the core of the eXokernel Development Kit

This Dafny project models five components of the XDK and proves what they are for.

- **NVMe I/O queue pair and batch manager** (`drivers/nvme-ssd`). A producer thread plans 16-bit command
  ids, pushes a batch record into a lock-free ring, writes commands into the submission queue and rings a
  doorbell; the controller completes commands in any order; a completion thread follows the phase tag,
  adopts the submission head, credits completions to batches and pops finished batches. The three parties
  are a step system, and the theorems are about every interleaving. The loads and stores of `push`, `pop`, the
  queues and the doorbells are steps of their own; three steps do several: the completion thread loads both
  ring indices, it searches the records and credits one, and the producer's last wait compares both indices. Modules `Circular`, `RingBuffers`, `CommandIds`, `SubmissionQueues`,
  `CompletionQueues`, `BatchManagers`, `Ledgers`, `NvmeSystem`, `NvmeProofs`, `NvmeCredit`, `NvmeRuns`,
  `NvmeProgress`, `NvmeQueues`. The queue rules are those of NVM Express 1.1, sections 4.1.1, 4.1.2 and 4.6.
- **X540 descriptor rings** (`drivers/x540-nic`). `multi_send` with `xmit_cleanup` (modules `TxRings`,
  `TxSystem`, `TxRuns`, `TxProgress`, `TxPackets`, `TxQueues`), the simple `send` with `tx_free_bufs` (`SimpleSend`,
  `SimpleSystem`, `SimpleRuns`, `SimpleQueues`), and the receive burst (`RxRings`), each on a ring the hardware
  works on at the same time. `TxThresholds` has the two thresholds both send paths use.
- **ext2 read path** (`fs/ext2fs`). Chunk allocator, silos and eviction (`BlockCaches`), the range index
  (`FileIndex`), and `File::read` on top of both (`FileReads`). `Sets` has what both this and NVMe need of
  finite sets, `Memory` what bytes in a row are.
- **MT19937-64** (`lib/libexo`). In-place regeneration against the defining recurrence (`Twister`), and the
  generator's own words, constants and tempering (`Words`, `MersenneTwister`).
- **CPU affinities** (`lib/libcommon`). Word-packed bit sets and the mapping of logical CPU numbers to the
  CPUs of a node (`Affinity`).

Where the source updates objects in place the model has classes with the same fields; each method is proved
against the state it must leave, and the theorems are proved about that state. A ring is described by
unbounded positions: position `i` is in slot `Slot(i, n)`. Ghost fields record history (what was written,
taken, credited, released), never what the code decides on.

## Hypotheses

- NVMe: the controller follows the standard and completes each command once, successfully; the queue is used
  only through `issue_async_io_batch`; queues have at most 65535 entries where the 16-bit head is modelled; a
  batch that wraps the ids starts only after some batch's end has been published (the condition is part of
  what a run is, and `CommandIds.DisjointForever` shows it is exact). Steps are sequentially consistent. The
  completion thread is always woken: whenever an entry is posted it polls again.
- X540: the hardware takes descriptors in ring order up to the tail register and reports exactly those that
  request it; descriptor buffers are at least 2-aligned, so that giving a receive descriptor back clears its
  done bit. Ring lengths keep the drivers' 16-bit sums below 65536. A packet's segment count agrees with its
  segment lengths; `multi_send` asserts this except for a packet whose segment lengths are both 0. A call of the
  simple send takes only bursts that fit (`SimpleSend.Fits`; `SimpleSend.LockstepExact` shows the condition is
  exact). A ring for the simple send is a whole number of blocks of 64, at
  least two: with one, fewer than 64 descriptors are free from the start and no block is ever filled.
- ext2: device reads succeed, and every reading of the cycle counter is later than the last. `Range_tree` is a set of ranges with a lookup by
  containment, and the block lists come in file order.

## What the proofs found

- A queue of 65536 entries, which the standard allows, never flips its phase: `CompletionQueues.HeadWidth`.
- Two batches of 0x8000 commands issued before the first is popped get the same ids:
  `CommandIds.WrapBeforeFirstReturn`. With the ids at 0x8000 and everything given back, a batch of 0x8000
  commands does not pass the check (`CommandIds.HalfRangeStuck`), and then no party can ever take a step again
  (`NvmeProgress.TooLongStops`).
- A transmit ring of 64 to 67 descriptors can jam: as long as only packets of three segments are offered, nothing
  more is sent (`TxProgress.JamsBelow`).
- A simple send that passes too many block ends rings the doorbell with one of them not requested; a later call
  requests it after the hardware may have passed it. `SimpleSend.MissedEnd`, and 128 packets from slot 0 in
  `SimpleSend.LargeBurstSlips`.
- `find_best_silo` is documented to take the oldest silo. A full cache evicts the one loaded last
  (`BlockCaches.LastLoadedChosen`); it would be one of the oldest if and only if all were equally old
  (`BlockCaches.OldestExact`). `BlockCaches.NewestEvicted` has sixteen silos.
- A file position past the end is reported as success, with block and offset of the previous lookup:
  `FileReads.File.Lookup`, with a file of one block in `FileIndex.PastOneBlock`.
- A block list with holes is indexed wrongly: `FileIndex.IndexedIsFile` says exactly when, `FileIndex.HoleIndexed`
  has the list 0, 5.
- A read of 2^32 bytes or more never returns: `FileReads.LoopEndsExact`.
- A node CPU numbered 64 or more cannot be represented in the result of `get_actual_affinities`:
  `Affinity.FarCpu`.

## Model

| member | source | states |
|---|---|---|
| RingBuffers.IndicesDecide | drivers/nvme-ssd/nvme_batch_manager.h:51-98 | comparing head with tail, and head with the next tail, decides exactly empty and full (one entry less than the ring) |
| RingBuffers.ActionRefines | drivers/nvme-ssd/nvme_batch_manager.h:51-78 | every single load, array access and store of push and pop is a step of a bounded FIFO or no step at all |
| RingBuffers.EveryRunIsAQueue | drivers/nvme-ssd/nvme_batch_manager.h:51-78 | every interleaving of producer and consumer is a run of a FIFO of capacity Size-1; what was popped is a prefix of what was pushed |
| RingBuffers.SlotsNeverShared | drivers/nvme-ssd/nvme_batch_manager.h:51-78 | in any run neither the slot the consumer copies nor one whose entry it rewrites is the slot the producer writes |
| RingBuffers.RingBuffer.constructor | drivers/nvme-ssd/nvme_batch_manager.h:8-23 | a new ring is empty |
| RingBuffers.RingBuffer.Increment | drivers/nvme-ssd/nvme_batch_manager.h:106-115 | the successor of an index in the ring |
| RingBuffers.RingBuffer.Push | drivers/nvme-ssd/nvme_batch_manager.h:51-64 | appends exactly when fewer than Size-1 entries are in the ring; otherwise changes nothing |
| RingBuffers.RingBuffer.Pop | drivers/nvme-ssd/nvme_batch_manager.h:68-78 | returns and removes the oldest entry, or reports an empty ring |
| RingBuffers.RingBuffer.WasEmpty | drivers/nvme-ssd/nvme_batch_manager.h:83-87 | true exactly when the ring has no entries |
| RingBuffers.RingBuffer.WasFull | drivers/nvme-ssd/nvme_batch_manager.h:92-97 | true exactly when it holds Size-1 entries |
| RingBuffers.RingBuffer.GetLastEntry | drivers/nvme-ssd/nvme_batch_manager.h:35-46 | the slot of the newest entry, that many slots after the head |
| RingBuffers.RingBuffer.Rewrite | drivers/nvme-ssd/nvme_batch_manager.h:274-284 | writing a slot in place changes that entry of the queue and no other |
| CommandIds.PlanIsContiguous | drivers/nvme-ssd/nvme_queue.cc:859-876 | for every counter and length below 0xffff the planned ids are that many consecutive non-zero ids, from counter+1 or from 1 |
| CommandIds.AllocationFollowsPlan | drivers/nvme-ssd/nvme_queue.cc:892-924 | the ids the issue loop allocates are exactly the planned ones in order, so the assertion at line 924 holds |
| CommandIds.DrainedProgress | drivers/nvme-ssd/nvme_queue.cc:867-879 | with everything drained the guards pass exactly if the batch does not wrap or is shorter than the counter |
| CommandIds.ProgressBound | drivers/nvme-ssd/nvme_queue.cc:867-879 | a length passes for every counter if and only if it is at most 0x7fff |
| CommandIds.HalfRangeStuck | drivers/nvme-ssd/nvme_batch_manager.h:218-227 | at counter 0x8000, with everything given back so that the marker is the counter, a batch of 0x8000 does not pass the availability check |
| CommandIds.HeldDisjoint | drivers/nvme-ssd/nvme_batch_manager.h:218-235 | the invariant on held ranges makes them pairwise disjoint |
| CommandIds.TakePreserves | drivers/nvme-ssd/nvme_batch_manager.h:218-227 | a range that fits is disjoint from every held range, and taking it keeps the invariant |
| CommandIds.GiveBackPreserves | drivers/nvme-ssd/nvme_batch_manager.h:286-301 | popping the oldest batch keeps the invariant and whatever fitted still fits |
| CommandIds.ResetPreserves | drivers/nvme-ssd/nvme_queue.h:166-171 | resetting the counter after the reset guard keeps the invariant once a batch was popped |
| CommandIds.AvailableFits | drivers/nvme-ssd/nvme_batch_manager.h:218-227 | comparing a planned range with the single marker succeeds if and only if the range fits |
| CommandIds.GuardsPass | drivers/nvme-ssd/nvme_batch_manager.h:218-238 | exactly which batches must pass, whatever is still held, in terms of counter, length and marker |
| CommandIds.SecondPasses | drivers/nvme-ssd/nvme_batch_manager.h:218-227 | a second batch need not wait for the first to finish |
| CommandIds.GuardsExact | drivers/nvme-ssd/nvme_batch_manager.h:218-235 | for a batch that passed the guards, its range is disjoint from all held ones if and only if it does not wrap before the first return |
| CommandIds.DisjointForever | drivers/nvme-ssd/nvme_queue.cc:859-926 | over every run the live ranges stay disjoint if and only if no batch wraps before the first return |
| CommandIds.WrapBeforeFirstReturn | drivers/nvme-ssd/nvme_queue.cc:859-890 | the concrete run in which two live batches share all their ids |
| SubmissionQueues.ReservedSlotFree | drivers/nvme-ssd/nvme_queue.cc:108-129 | the slot handed out holds no unfetched command |
| SubmissionQueues.ReserveReady | drivers/nvme-ssd/nvme_queue.cc:108-120 | the full test with the lagging head is exact for what the host knows |
| SubmissionQueues.FetchReady | drivers/nvme-ssd/nvme_queue.h:224-226 | the controller sees the queue non-empty exactly when a rung command is unfetched, and reads that command |
| SubmissionQueues.RunPreserves | drivers/nvme-ssd/nvme_queue.cc:108-129 | the queue invariant holds in every interleaving of host and controller |
| SubmissionQueues.FetchedInIssueOrder | drivers/nvme-ssd/nvme_queue.cc:108-129 | in every run the controller reads the commands written, each once, in order, and the unread ones are intact in the ring |
| CompletionQueues.TagExact | drivers/nvme-ssd/nvme_queue.cc:158-165 | the phase test succeeds exactly when an entry was posted and not taken, and finds the oldest one |
| CompletionQueues.PostReady | drivers/nvme-ssd/nvme_queue.h:228-230 | the controller has room exactly when fewer than n-1 entries are not given back |
| CompletionQueues.RunPreserves | drivers/nvme-ssd/nvme_queue.cc:139-225 | the phase invariant holds in every run |
| CompletionQueues.TakenInPostOrder | drivers/nvme-ssd/nvme_queue.cc:139-225 | over any number of laps the host takes exactly the entries posted, in order; head and phase are slot and lap parity |
| CompletionQueues.HeadWidth | drivers/nvme-ssd/nvme_queue.cc:139-147 | the 16-bit increment does what the protocol needs if and only if the queue has at most 65535 entries |
| BatchManagers.Find | drivers/nvme-ssd/nvme_batch_manager.h:259-267 | the first live batch that covers an id |
| BatchManagers.UpdateKeepsOrder | drivers/nvme-ssd/nvme_batch_manager.h:249-308 | batches leave from the front, only when finished, until the head is unfinished; no other batch changes |
| BatchManagers.UpdateGivesBack | drivers/nvme-ssd/nvme_batch_manager.h:286-301 | the marker an update leaves is the end of the last batch gone, and stays if none leaves; for the id space the update is giving back that many ranges |
| BatchManagers.UpdateKeepsIds | drivers/nvme-ssd/nvme_batch_manager.h:249-308 | so it keeps the ids of the live batches disjoint from each other |
| BatchManagers.NotifiesExact | drivers/nvme-ssd/nvme_batch_manager.h:274-283 | a batch is notified exactly at the last completion it waits for, and then takes no further completion |
| BatchManagers.BatchManager.constructor | drivers/nvme-ssd/nvme_batch_manager.h:140-160 | no batches, marker 0 |
| BatchManagers.BatchManager.Update | drivers/nvme-ssd/nvme_batch_manager.h:249-271 | credits the batch that covers the id, pops the finished prefix, moves the marker to the end of the last popped batch as it was recorded before, notifies as stated |
| BatchManagers.BatchManager.Search | drivers/nvme-ssd/nvme_batch_manager.h:250-267 | the index scan with wrap-around finds the first covering batch |
| BatchManagers.BatchManager.ProcessUpdate | drivers/nvme-ssd/nvme_batch_manager.h:274-308 | the whole effect on ring, marker and notifications |
| BatchManagers.BatchManager.CreditSlot | drivers/nvme-ssd/nvme_batch_manager.h:274-283 | one more completion in that batch; notification exactly at the last one, before the record is popped |
| BatchManagers.BatchManager.PopFinished | drivers/nvme-ssd/nvme_batch_manager.h:286-305 | pops exactly the finished prefix and publishes its last end |
| NvmeCredit.CreditHitsOwner | drivers/nvme-ssd/nvme_batch_manager.h:259-267 | in every reachable state the search with a possibly stale tail finds the one batch that issued the command |
| NvmeCredit.CreditNeverStops | drivers/nvme-ssd/nvme_batch_manager.h:259-277 | the completion thread always finds a batch, which still expects a completion |
| NvmeCredit.CreditPreserves | drivers/nvme-ssd/nvme_batch_manager.h:274-308 | crediting keeps the invariant of the whole system |
| NvmeRuns.StepPreserves | drivers/nvme-ssd/cq_thread.cc:115-148 | every step of producer, controller and completion thread keeps the invariant |
| NvmeRuns.RunPreserves | drivers/nvme-ssd/nvme_queue.cc:854-935 | so it holds in every interleaving |
| NvmeRuns.ExactlyOnePlace | drivers/nvme-ssd/nvme_queue.cc:854-935 | each issued command is always in exactly one of: submission queue, controller, completion queue, credited to its batch |
| NvmeRuns.WaitMeansDone | drivers/nvme-ssd/nvme_queue.cc:928-935 | when wait_io_completion returns, every command of every batch was issued and its completion processed exactly once |
| NvmeRuns.RunKeepsIds | drivers/nvme-ssd/nvme_queue.cc:892-924 | in every run the last id of a batch is its recorded end, and ids of batches the marker has not passed are disjoint |
| NvmeRuns.FinishedExactly | drivers/nvme-ssd/nvme_batch_manager.h:274-308 | a batch is reported finished once, exactly when all its commands are credited, and never leaves before |
| NvmeProgress.BackgroundBounded | drivers/nvme-ssd/cq_thread.cc:115-148 | while the producer spins the other two take a bounded number of steps |
| NvmeProgress.SomeoneCanStep | drivers/nvme-ssd/cq_thread.cc:115-148 | as long as the system is not drained one of them can take a step |
| NvmeProgress.DrainedUnblocks | drivers/nvme-ssd/nvme_queue.cc:866-890 | once drained, the producer still spins if and only if its batch is too long for the ids |
| NvmeProgress.ProducerCanStep | drivers/nvme-ssd/nvme_queue.cc:854-935 | a producer that does not spin can take a step |
| NvmeProgress.WaitsEnd | drivers/nvme-ssd/nvme_queue.cc:854-935 | after any run the other two, left alone, stop after a bounded number of steps, and then the producer does not spin and can take a step, unless its batch is too long |
| NvmeProgress.TooLongStops | drivers/nvme-ssd/nvme_queue.cc:866-890 | with a batch that is too long, once drained no step of any party is possible |
| NvmeProgress.NoDeadlock | drivers/nvme-ssd/nvme_queue.cc:854-935 | in every run a spinning producer waits for someone who can step, unless its batch has more than 0x7fff commands |
| NvmeQueues.NvmeQueue.IncrementSubmissionTail | drivers/nvme-ssd/nvme_queue.cc:108-129 | refuses exactly when all but one slot may be unfetched; otherwise hands out the slot of the next position |
| NvmeQueues.NvmeQueue.WriteCommand | drivers/nvme-ssd/nvme_queue.cc:258-275 | filling the slot is the submission step |
| NvmeQueues.NvmeQueue.RingSubmissionDoorbell | drivers/nvme-ssd/nvme_queue.h:224-226 | the doorbell gets the tail |
| NvmeQueues.NvmeQueue.IncrementCompletionHead | drivers/nvme-ssd/nvme_queue.cc:139-147 | head and phase advance together |
| NvmeQueues.NvmeQueue.GetNextCompletion | drivers/nvme-ssd/nvme_queue.cc:158-225 | returns the oldest posted entry not taken, exactly if there is one |
| NvmeQueues.NvmeQueue.RingCompletionDoorbell | drivers/nvme-ssd/nvme_queue.h:228-230 | gives the taken entries back |
| NvmeQueues.NvmeQueue.UpdateSqHead | drivers/nvme-ssd/nvme_queue.h:176-179 | adopting the head of a completion keeps the queue invariant |
| NvmeQueues.NvmeQueue.AllocateId | drivers/nvme-ssd/nvme_queue.h:144-148 | the next id, never 0 |
| NvmeQueues.NvmeQueue.AllocateBatch | drivers/nvme-ssd/nvme_queue.cc:867-924 | one id per command, consecutive as planned, the last one the recorded end |
| TxRings.PutPreserves | drivers/x540-nic/x540/x540_device.cc:1635-1711 | writing a descriptor takes a blank slot and keeps the ring against its history, done bits and next_id links included |
| TxRings.ReportPreserves | drivers/x540-nic/x540/x540_device.cc:1713-1722 | the hardware reads the descriptor written for the next position and reports only requested ones |
| TxRings.SlotSwept | drivers/x540-nic/x540/x540_device.cc:1779-1833 | the slots a cleanup resets, wrapping or not, are exactly those of the positions between the two thresholds |
| TxRings.SweepReclaims | drivers/x540-nic/x540/x540_device.cc:1779-1833 | and their entries come out in the order they were written |
| TxRings.SweepPreserves | drivers/x540-nic/x540/x540_device.cc:1779-1847 | resetting them and one done bit keeps the ring invariant |
| TxSystem.SendPreserves | drivers/x540-nic/x540/x540_device.cc:1580-1723 | sending keeps the lockstep: thresholds 64 to 67 descriptors apart, request on exactly the threshold descriptor, last_id naming it, counters exact |
| TxRuns.FetchReady | drivers/x540-nic/x540/x540_device.cc:1725-1733 | the hardware has work exactly when a rung descriptor is not taken |
| TxRuns.CleanExact | drivers/x540-nic/x540/x540_device.cc:1749-1763 | the one done bit tested is always that of the next threshold, so cleanup succeeds exactly when the hardware has passed it |
| TxRuns.CleanFrees | drivers/x540-nic/x540/x540_device.cc:1765-1847 | a cleanup that succeeds frees exactly the descriptors up to that threshold, 64 to 67, all taken by the hardware |
| TxRuns.CleanPreserves | drivers/x540-nic/x540/x540_device.cc:1741-1848 | and keeps the invariant |
| TxRuns.RunPreserves | drivers/x540-nic/x540/x540_device.cc:1553-1848 | the invariant holds in every interleaving of sends, cleanups, doorbells and hardware |
| TxProgress.TakenInOrder | drivers/x540-nic/x540/x540_device.cc:1635-1733 | in every run the hardware takes the descriptors of the packets sent, in order and each once |
| TxProgress.ReleasedInOrder | drivers/x540-nic/x540/x540_device.cc:1779-1833 | in every run the regions released are the flagged ones of the first packets, once each, after the hardware took all their descriptors; nb_tx_free is N-1 less what is in flight |
| TxProgress.AlwaysRoom | drivers/x540-nic/x540/x540_device.cc:1616-1633 | with at least 68 descriptors a drained ring has room for any packet after at most one cleanup |
| TxProgress.PacketGoesThrough | drivers/x540-nic/x540/x540_device.cc:1616-1633 | so from every reachable state any packet can be sent |
| TxProgress.JamsBelow | drivers/x540-nic/x540/x540_device.cc:1616-1633 | with 64 to 67 descriptors, after 21 packets of two segments and as long as only packets of three are offered, nothing more is sent, whatever driver and hardware do |
| TxPackets.ContextFirstEndLast | drivers/x540-nic/x540/x540_device.cc:1635-1711 | the context descriptor comes first, and the end of the packet is marked on its last descriptor and on no other |
| TxPackets.PacketOnWire | drivers/x540-nic/x540/x540_device.cc:1649-1711 | gathering what a packet's descriptors name gives one frame: header, first segment, second segment, an empty one adding nothing |
| TxPackets.FramesInOrder | drivers/x540-nic/x540/x540_device.cc:1553-1734 | in every run and for any memory, the frames on the wire are the payloads of the packets sent, in order and whole; all of them once every descriptor is taken |
| TxPackets.FlaggedCounts | drivers/x540-nic/x540/x540_device.cc:1779-1790 | a buffer gives back a region as often as its three flags name it |
| TxPackets.GivenBackExactly | drivers/x540-nic/x540/x540_device.cc:1779-1833 | in every run each region was given back exactly as often as the reclaimed packets name it, after the hardware took all their descriptors |
| TxPackets.GivenBackOnce | drivers/x540-nic/x540/x540_device.cc:1779-1833 | if the packets sent name different regions, none is given back twice, and every one flagged in a reclaimed packet is |
| TxQueues.TxQueue.constructor | drivers/x540-nic/x540/x540_device.cc:958-990 | the initial rings satisfy the invariant |
| TxQueues.TxQueue.TakeOne | drivers/x540-nic/x540/x540_device.cc:1725-1733 | a hardware step on the shared ring |
| TxQueues.TxQueue.ResetRange | drivers/x540-nic/x540/x540_device.cc:1780-1797 | releases what the entries keep, in order, and resets them with next_id the following slot |
| TxQueues.TxQueue.XmitCleanup | drivers/x540-nic/x540/x540_device.cc:1741-1848 | succeeds exactly when the tested descriptor is done and then is the cleanup step; otherwise changes nothing |
| TxQueues.TxQueue.PutPacket | drivers/x540-nic/x540/x540_device.cc:1635-1711 | the branches on the segments write the packet's descriptors in order |
| TxQueues.TxQueue.SendPacket | drivers/x540-nic/x540/x540_device.cc:1580-1723 | is the sending step, request bit and counters included |
| TxQueues.TxQueue.MultiSend | drivers/x540-nic/x540/x540_device.cc:1553-1734 | sends a prefix of the packets, all with the assertion at line 1633 holding; stops only at a packet with no room and no cleanup possible; rings for what was sent |
| SimpleSend.LockstepExact | drivers/x540-nic/x540/x540_device.cc:1880-1923 | a call requests exactly the block ends it passes and leaves tx_next_rs at the end of the tail's block if and only if the burst fits |
| SimpleSend.BlockBurstFits | drivers/x540-nic/x540/x540_device.cc:1872-1923 | every burst of at most tx_rs_thresh fits |
| SimpleSend.MissedEnd | drivers/x540-nic/x540/x540_device.cc:1884-1923 | of a burst that does not fit, some block end is passed and not requested by the call |
| SimpleSend.LargeBurstSlips | drivers/x540-nic/x540/x540_device.cc:1910-1916 | a burst of 128 from slot 0 requests one block end of two |
| SimpleSystem.InitInv | drivers/x540-nic/x540/x540_device.cc:976-987 | the initial state satisfies the invariant: nothing is rung before the block ends up to it are requested, and rings, registers and counters stand at the positions of what was written, requested, rung, taken and reclaimed |
| SimpleSystem.WritePreserves | drivers/x540-nic/x540/x540_device.cc:1933-1960 | writing one descriptor keeps it: no descriptor that is not reclaimed is overwritten |
| SimpleSystem.RequestPreserves | drivers/x540-nic/x540/x540_device.cc:1884-1923 | moving the tail and requesting the block end passed, at the end of the ring or not, keeps it |
| SimpleSystem.RingPreserves | drivers/x540-nic/x540/x540_device.cc:1925-1927 | writing the tail register keeps it |
| SimpleSystem.FetchPreserves | drivers/x540-nic/x540/x540_device.cc:1925-1927 | the hardware's taking a descriptor, at any moment, keeps it |
| SimpleSystem.StartPreserves | drivers/x540-nic/x540/x540_device.cc:1869-1885 | taking descriptors, as many as are free, keeps it |
| SimpleSystem.FetchReady | drivers/x540-nic/x540/x540_device.cc:1925-1927 | the hardware has work exactly when a rung descriptor is not taken, and finds the frame and the request bit that belong to its position |
| SimpleSystem.FreeTestExact | drivers/x540-nic/x540/x540_device.cc:1505-1515 | the done bit tested is that of a block sent and rung completely, and is set exactly if the hardware has taken the whole block |
| SimpleSystem.FreePreserves | drivers/x540-nic/x540/x540_device.cc:1505-1544 | reclaiming keeps the invariant, so descriptors are reclaimed only after the hardware took them |
| SimpleRuns.RunPreserves | drivers/x540-nic/x540/x540_device.cc:1857-1931 | the invariant holds in every interleaving of the driver's steps with the hardware's |
| SimpleRuns.RequestedBeforeRung | drivers/x540-nic/x540/x540_device.cc:1898-1927 | at every moment of every run, of the descriptors the tail register has passed exactly the block ends carry a request |
| SimpleRuns.TakenInOrder | drivers/x540-nic/x540/x540_device.cc:1857-1931 | at every moment the hardware has taken a prefix of the frames accepted, reported exactly the block ends among them, and nb_tx_free is N-1 less what is accepted and not reclaimed |
| SimpleRuns.FreeTestsSentBlock | drivers/x540-nic/x540/x540_device.cc:1505-1515 | whenever a done bit is tested, its block was rung completely and the bit says whether the hardware has taken it |
| SimpleRuns.RoomAfterDrain | drivers/x540-nic/x540/x540_device.cc:1861-1870 | once the hardware has taken everything rung, the next call has at least 64 free descriptors |
| SimpleQueues.SimpleQueue.constructor | drivers/x540-nic/x540/x540_device.cc:976-987 | the initial arrays are the initial state |
| SimpleQueues.SimpleQueue.TakeOne | drivers/x540-nic/x540/x540_device.cc:1925-1927 | a hardware step on the shared arrays, at any moment of a call |
| SimpleQueues.SimpleQueue.Fill | drivers/x540-nic/x540/x540_device.cc:1933-1960 | writes the packets into consecutive slots with request and status clear, the hardware going on in between |
| SimpleQueues.SimpleQueue.RequestTop | drivers/x540-nic/x540/x540_device.cc:1884-1896 | is the request step at the end of the ring |
| SimpleQueues.SimpleQueue.RequestPassed | drivers/x540-nic/x540/x540_device.cc:1898-1923 | is the request step elsewhere |
| SimpleQueues.SimpleQueue.Ring | drivers/x540-nic/x540/x540_device.cc:1925-1927 | is the doorbell step; it needs the requests to have been made |
| SimpleQueues.SimpleQueue.FreeBufs | drivers/x540-nic/x540/x540_device.cc:1505-1544 | is the reclaiming step: counts 64 exactly if the hardware has taken the whole oldest block |
| SimpleQueues.SimpleQueue.Send | drivers/x540-nic/x540/x540_device.cc:1857-1931 | with the hardware going on between all its steps: accepts the first packets, fewer than offered only if no descriptor is left, and writes and rings them all; nothing taken or reclaimed is undone |
| RxRings.BackwardScanExact | drivers/x540-nic/x540/x540_device.cc:1244-1255 | reading the last descriptor first, the number of ones is the number of ready descriptors from the first on, whatever the hardware does meanwhile |
| RxRings.ForwardScanMiscounts | drivers/x540-nic/x540/x540_device.cc:1244-1248 | reading the first one first does not have this property |
| RxRings.RxQueue.constructor | drivers/x540-nic/x540/x540_device.cc:887-905 | the initial ring satisfies the invariant |
| RxRings.RxQueue.Receive | drivers/x540-nic/x540/x540_device.cc:1244-1248 | a packet written by the hardware is the next one in the ring |
| RxRings.RxQueue.ReadWindow | drivers/x540-nic/x540/x540_device.cc:1244-1252 | ones come first, mark arrived packets, and a zero means the packet had not arrived before the scan |
| RxRings.RxQueue.Deliver | drivers/x540-nic/x540/x540_device.cc:1258-1281 | hands over the packet of the slot; a kept packet's buffer goes to the stack and a new one takes its slot, otherwise the buffer stays; none is in the ring twice or also with the stack |
| RxRings.RxQueue.DeliverWindow | drivers/x540-nic/x540/x540_device.cc:1240-1286 | delivers exactly the ready prefix of a window, and the stack keeps the buffers of exactly those packets it chose to keep |
| RxRings.RxQueue.Burst | drivers/x540-nic/x540/x540_device.cc:1238-1291 | delivers packets once each in ring order, all that had arrived unless 64 were delivered; the buffers kept are those of the packets the stack chose; RDT is rx_tail-1 modulo N |
| RxRings.RxQueue.InterruptHandler | drivers/x540-nic/x540/x540_device.cc:1199-1303 | bursts until nothing is ready or the given arrivals, one list for each burst, are used up; delivered packets are always a prefix of the arrived ones |
| BlockCaches.SomeChunkFree | fs/ext2fs/block_cache.h:77-92 | with one entry free the chunk allocator cannot run out |
| BlockCaches.BlockCache.constructor | fs/ext2fs/block_cache.h:285-289 | an empty cache is valid |
| BlockCaches.BlockCache.Alloc | fs/ext2fs/block_cache.h:77-93 | takes one untaken chunk, with memory no other chunk has |
| BlockCaches.BlockCache.Free | fs/ext2fs/block_cache.h:95-106 | gives back exactly the chunk at that address |
| BlockCaches.BlockCache.Evict | fs/ext2fs/block_cache.h:164-171 | removes a silo; live silos and taken chunks still match one to one |
| BlockCaches.OldestExact | fs/ext2fs/block_cache.h:208-234 | when no entry is free, the silo chosen is one of the oldest if and only if all ages are equal |
| BlockCaches.LastLoadedChosen | fs/ext2fs/block_cache.h:208-234 | when no entry is free, the silo chosen is the one loaded after all others, and an older one is kept |
| BlockCaches.NewestEvicted | fs/ext2fs/block_cache.h:208-234 | of sixteen silos loaded in turn the last is chosen, and the first is the oldest |
| BlockCaches.BlockCache.ChooseSilo | fs/ext2fs/block_cache.h:214-227 | the first free entry, else the first with the greatest age |
| BlockCaches.BlockCache.FindBestSilo | fs/ext2fs/block_cache.h:214-234 | the first free entry, else the entry loaded last, evicted; all others stay |
| BlockCaches.BlockCache.Load | fs/ext2fs/block_cache.h:144-162 | the new silo starts at the offset's block and is a copy of the disk, all others are unchanged and still copies, and it counts as loaded last |
| BlockCaches.HoldsExact | fs/ext2fs/block_cache.h:182-187 | the range test succeeds exactly when every byte asked for lies in the silo |
| BlockCaches.NewSiloExact | fs/ext2fs/block_cache.h:144-151 | a new silo starts at the last multiple of 512 and holds the range exactly when it fits |
| BlockCaches.BlockCache.SiloRead | fs/ext2fs/block_cache.h:182-192 | succeeds exactly if the silo holds the range, with the disk's bytes |
| BlockCaches.BlockCache.DoSiloRead | fs/ext2fs/block_cache.h:262-281 | succeeds exactly if some silo holds the range or a new one does, with the disk's bytes |
| BlockCaches.BlockCache.Read | fs/ext2fs/block_cache.h:294-302 | for any sequence of reads the bytes are the device's, whatever was evicted |
| FileIndex.NoHolesExact | fs/ext2fs/ext2_addr_block.h:91-98 | counting the used addresses describes a list's blocks if and only if the list has no holes |
| FileIndex.IndexedIsFile | fs/ext2fs/ext2_addr_block.h:268-293 | the index gives access to a file's blocks in order if and only if no block list has holes |
| FileIndex.HoleIndexed | fs/ext2fs/ext2_addr_block.h:91-98 | for the list 0, 5 it gives access to block 0 instead of 5 |
| FileIndex.RangesDisjoint | fs/ext2fs/ext2_addr_block.h:268-293 | no position lies in two ranges |
| FileIndex.SearchFinds | fs/ext2fs/ext2_addr_block.h:298-321 | every position of the file is found in the block it lies in at its place in the block, across list boundaries |
| FileIndex.PastEndMissed | fs/ext2fs/ext2_addr_block.h:298-301 | no other position is found |
| FileIndex.PastOneBlock | fs/ext2fs/ext2_addr_block.h:303-306 | the position after a file of one block is not found |
| FileReads.PartitionMoves | fs/ext2fs/ext2_superblock.h:164-167 | a file on a partition is the same file on the partition's own bytes |
| FileReads.WholePartition | fs/ext2fs/ext2_superblock.h:164-167 | the file of the first blocks in order is the partition's bytes from its start on |
| FileReads.CountBlocks | fs/ext2fs/ext2_addr_block.h:91-98 | the number of addresses in use |
| FileReads.BuildIndex | fs/ext2fs/ext2_addr_block.h:258-293 | the constructor loop inserts exactly these ranges |
| FileReads.LoopEndsExact | fs/ext2fs/ext2fs_file.cc:72-108 | with 32-bit counters the loop of `read` has copied everything after that many turns if the length is below 2^32, and otherwise never meets its condition |
| FileReads.File.Lookup | fs/ext2fs/ext2_addr_block.h:303-323 | block and offset of a position in the file; past the end both keep their old values, and the status is success all the same |
| FileReads.File.Read | fs/ext2fs/ext2fs_file.cc:66-113 | terminates for every position and every length below 2^32; the buffer gets the bytes of the blocks indexed, through cache and index, and these are the file's if no block list has holes |
| Twister.NextWord | lib/libexo/rand.cc:83-92 | each of the three pieces of code makes the next word of the recurrence from the mixture of old and new words |
| Twister.OutputIs | lib/libexo/rand.cc:97-104 | the numbers drawn are the tempered words at consecutive places |
| Twister.PassMakes | lib/libexo/rand.cc:45-64 | a pass over the array, with its wrap-around and its copied word, makes the words of a recurrence that needs no array |
| Twister.KeyWords | lib/libexo/rand.cc:52-58 | the words of the first pass, from key word and place in the key modulo the key length |
| Twister.IndexWords | lib/libexo/rand.cc:59-64 | the words of the second pass, from the index of their place |
| Twister.ByArrayMakes | lib/libexo/rand.cc:45-67 | the array seeded from a key is the top word and the words of the second pass over those of the first |
| Twister.Generator.InitGenrand | lib/libexo/rand.cc:35-40 | fills the array with the seeded words |
| Twister.Generator.InitByArray | lib/libexo/rand.cc:45-67 | the incremental indices with their wrap-around treat places 1 to 311 and the key cyclically; the first word is the top bit |
| Twister.Generator.Regenerate | lib/libexo/rand.cc:83-94 | in place, the array becomes the next 312 words of the recurrence |
| Twister.Generator.Genrand | lib/libexo/rand.cc:70-105 | every call returns the next word of the recurrence, tempered; an unseeded generator starts from 5489 |
| Twister.Generator.Draw | lib/libexo/rand.cc:70-105 | n calls return n consecutive tempered words |
| MersenneTwister.SeedInNumbers | lib/libexo/rand.cc:35-40 | the next seeded word is 6364136223846793005 times the one before, its top two bits folded in, plus the index, modulo 2^64 |
| MersenneTwister.StartsFrom | lib/libexo/rand.cc:35-40 | so for every seed and every place; after a zero word comes the index, so no seed gives an array of zeros |
| MersenneTwister.KeyInNumbers | lib/libexo/rand.cc:53-54 | the mix with a key word, modulo 2^64 |
| MersenneTwister.IndexInNumbers | lib/libexo/rand.cc:60-61 | the mix with an index, whose subtraction wraps around |
| MersenneTwister.ArrayStartsHigh | lib/libexo/rand.cc:66 | the first word after seeding from an array is 2^63 |
| MersenneTwister.ArrayGoesOn | lib/libexo/rand.cc:45-64 | its other words are those of the two passes over the array of seed 19650218 |
| MersenneTwister.TemperBits | lib/libexo/rand.cc:99-102 | tempering bit by bit, masks and shifts included |
| MersenneTwister.TermBits | lib/libexo/rand.cc:83-92 | the recurrence of the words bit by bit: 312 words on from the word, its neighbour and the word 156 on |
| MersenneTwister.DrawUnseeded | lib/libexo/rand.cc:70-105 | a generator that was never seeded draws the numbers of seed 5489 |
| MersenneTwister.UntemperTemper | lib/libexo/rand.cc:99-102 | tempering has a left inverse |
| MersenneTwister.TemperUntemper | lib/libexo/rand.cc:99-102 | and a right inverse, so it is a bijection |
| MersenneTwister.TwistBits | lib/libexo/rand.cc:84-85 | bit by bit, twisting joins the upper 33 bits of a word with the lower 31 of the next, moves them down by one and adds the later word and, if odd, the matrix |
| MersenneTwister.NumbersFollow | lib/libexo/rand.cc:83-102 | the numbers themselves follow a recurrence: earlier ones determine later ones |
| MersenneTwister.SeedAndDraw | lib/libexo/rand.cc:35-105 | for every seed and n the numbers drawn are the tempered terms of the recurrence that starts with the seeded array |
| Words.BitsWrap | lib/libexo/rand.cc:39-60 | arithmetic on words is arithmetic modulo a power of two |
| Words.XorShrBijective | lib/libexo/rand.cc:99-102 | xor with a masked right shift is a bijection for every mask and shift |
| Words.XorShlBijective | lib/libexo/rand.cc:100-101 | and so is xor with a masked left shift |
| Affinity.Bitmask.GetBit | lib/libcommon/xdk_numa_wrapper.cc:151-158 | the bit of the set, false past its size |
| Affinity.Bitmask.SetBit | lib/libcommon/xdk_numa_wrapper.cc:160-169 | changes that bit of the packed set and no other |
| Affinity.Bitmask.Weight | lib/libcommon/xdk_numa_wrapper.cc:262-271 | the number of bits set |
| Affinity.NothingLeft | lib/libcommon/utils.cc:125-153 | whenever the scan stops no further CPU would be chosen |
| Affinity.SelectCpu | lib/libcommon/utils.cc:137-147 | the CPU of the node with a given number among the node's CPUs |
| Affinity.GetActualAffinities | lib/libcommon/utils.cc:92-158 | exactly the node's CPUs whose number is in the logical set, as many as that set has when all are available; an error exactly when one of them is 64 or more |
| Affinity.FarCpu | lib/libcommon/utils.cc:92-158 | for a node whose only CPU is 64 no set of 64 bits is the answer |

## Left out

- TxQueues.TxQueue.MultiSend: the trace of hardware steps between the driver's steps is not part of its contract; the invariant it keeps gives the theorems about what was taken and released.
- TxQueues.TxQueue.SendPacket: sums are unbounded, where the driver's are 16 bits wide; rings of at most 65472 descriptors keep them from wrapping.
- SimpleQueues.SimpleQueue.FreeBufs: counters and the tested bit only; the loop that releases the buffers has a constant upper bound and is not modelled.
- FileReads.File.Read: lengths of 2^32 and more, for which the loop does not end; `FileReads.LoopEndsExact` is about them.
- The payload length, status and command fields of the transmit descriptors other than address, length, end of packet and status request.
- NVMe admin queue, flush and direct asynchronous commands, whose ids bypass the batch manager.
- The notify objects of batches: a run of the whole system uses batches without one, as `issue_async_io_batch` does; `BatchManagers` covers the others.
- Register programming, PCI and MSI-X setup, DMA allocation, shared memory.
- Cache writes, which bypass the cache, and the silo spin locks: one reader is modelled.
- The internals of `Range_tree`, `List` and `BString`, gathering of indirect blocks, directories and path parsing.
- `copy_bitmask_to_bitmask` and the other `numa_bitmask` loops, and the real-valued forms of the random numbers: they would add only easy members.
- Weak memory effects, timing, back-off and attempt counters.
