# Cat-OS in Dafny

A model of the core of Cat-OS, a small i386 kernel with a TCP/IP stack and a C library, and proofs of what that
core promises.  Each part comes in two forms: functions on values that say what an operation computes, with lemmas
about them, and classes or methods that run the operation the way the C code does, on arrays and fields updated in
place, each proved equal to its function.  `dafny verify dfyconfig.toml` checks everything.

| part | files | C source |
|---|---|---|
| physical pages, copy-on-write address spaces | Pmm, Ledger, AddressSpace, Spaces, Holdings*, Clone*, Destroy*, Fault*, Rollback*, Cow*, PagingKernel | kernel/paging.c |
| TCP receive side, send side, timers, both ends | SeqNum, TcpParams, TcpReceive*, TcpScoreboard, TcpSend*, TcpTimer, TcpPersist, TcpTimed, TcpProgress, TcpEndToEnd, TcpConnection, TcpExample, TcpStall | net/net_tcp.c |
| process table, ready list, waitpid | Scheduler* | kernel/process.c, kernel/syscall.c |
| malloc and free | Heap* | libc/src/stdlib.c |
| DNS names | Dns* | net/net_dns.c |
| DHCP leases | Dhcp* | net/net_dhcp.c |
| FAT cache | Fat* | fs/fat16.c |
| ELF loading | Elf* | kernel/elf.c |
| Internet checksum | Checksum | net/net.c |

## What the model takes as given

- A physical frame is seen by what it holds (data, page table, page directory); frames are named by their number.
- Whether a page can be had, a packet put on the link or a sector read is a parameter of the operation.
- Ticks, sequence numbers and the FAT cache's clock are 32-bit and wrap; other integers are unbounded where the
  code's bounds keep them from overflowing, which the contracts show.
- Interrupts do not fall inside an operation: the kernel runs these paths with interrupts off or on one CPU.

## Where the code falls short of what it says

Each of these is stated as a theorem with the exact condition, and shown at an input.

- A failed clone makes every COW page in the tables already copied writable for the parent, also pages that were
  COW before (FailedClonePermissions, FailedCloneInvariant).  If such a page is shared, isolation is lost
  (FailedCloneLeaks; FailedCloneExample shows a memory).
- Mapping over a mapped page drops the old frame without releasing it: its count stays one too high (MapInv, MapExact).
  MapOverExample shows a frame lost in this way.
- page_ref_inc stops counting at 250 (ShareExact, SaturationExample); RoomToClone shows that this is out of reach.
- Killing a READY process breaks the ready list (ExitSafe); an orphan takes everyone behind it off the list
  (KilledOrphanCuts, KillExample).
- A process without parent that exits by itself keeps its slot and its stack for ever (OrphanSlot, OrphanLeaves,
  OrphanStuck, OrphanExample), although the comment on exit_process expects pick_next to release what it holds.
  One that is ended by another process loses its stack page (ExitLoses, LostExactly, LostExample).
- A retransmission timeout resends everything in flight as one segment, which a receiver of the same kind refuses
  when it is longer than one MSS (TimeoutAccepted), at every further timeout too (NeverDelivered, TimeoutExample).
- A timer whose deadline falls on tick 0 counts as off: nothing is resent (ResendsUnlessZero, WrapExample) and no
  probe sent (ProbeWithin, ClearIff, NoProbeExample).
- A connection with data in flight is given up behind a shut window, whether the peer is silent (Released,
  SilenceExample) or answers every probe (AnsweredInVain, AnswerExample).
- A segment that straddles rcv_nxt is cached, and SACKed, where its new part could be delivered (FrontAfter,
  StraddleExample).
- A DHCP lease of more than 2^31 ticks is dropped at the first tick (DroppedEarly, Windows, DropExample).
- Back-pointers in DNS names can form a loop although the comment in dns_read_name rules it out; the jump limit
  is what ends it (LoopsExactly, LoopExample), and it refuses exactly the names of RefusedExactly.
- A failed sector read that leaves part of a sector in the buffer poisons a full FAT cache (FetchCoherent,
  AfterBadRead, PoisonExample).

## Model

| member | source | states |
|---|---|---|
| Pmm.ScanCovers | kernel/paging.c:334-361 | a failed search has looked at every frame of its range: all are taken |
| Pmm.AllocSpec | kernel/paging.c:334-365 | the allocator fails exactly when no frame above the reserved ones is clear; otherwise it hands out a clear frame, counts it once and keeps the free count equal to the number of clear bits |
| Pmm.MarkFreeSpec | kernel/paging.c:91-100 | freeing keeps the allocator consistent and adds one free page exactly when the bit was set |
| Pmm.AllocThenFree | kernel/paging.c:334-382 | freeing the frame just allocated restores bitmap, counts and free count; only the cursor has moved |
| Ledger.Share | kernel/paging.c:662-682 | copying one entry in a clone keeps every count equal to the number of entries naming the frame, and leaves no frame writable in one place and mapped in another |
| Ledger.ShareExact | kernel/paging.c:392-405 | one such step keeps the counts exact if and only if the count is below the saturation value 250 |
| Ledger.Drop | kernel/paging.c:593-627 | destroying one entry keeps the counts exact, and frees the frame exactly when that entry was its last |
| Ledger.Unshare | kernel/paging.c:699-722 | rolling back one entry keeps the counts exact |
| Ledger.Break | kernel/paging.c:731-771 | the copying branch of the fault handler keeps the counts exact and leaves the faulting entry alone on its new frame |
| Ledger.Reuse | kernel/paging.c:731-771 | the reuse branch, taken at count 1, keeps the counts exact and is right that nobody else maps the frame |
| Ledger.Install | kernel/elf.c:83-95 | mapping a new frame at an unmapped page keeps the counts exact |
| CloneTheorem.CloneRefines | kernel/paging.c:636-697 | a successful clone keeps the whole invariant, and every address space then reads as if the child were an independent deep copy of the parent |
| CloneMemory.CloneNeeds | kernel/paging.c:636-697 | a clone succeeds exactly when one frame plus one per present user table is free; otherwise it stops at the first table there is no frame for |
| DestroyTheorem.DestroyRefines | kernel/paging.c:593-627 | destroying a directory keeps the invariant, removes that address space, leaves what all others read unchanged, and gives back to the allocator exactly its directory, its tables and the frames no other space maps |
| DestroyTheorem.CloneThenDestroy | kernel/paging.c:593-697 | clone then destroy of the child restores bitmap, every reference count, the free count and what every space reads |
| FaultProof.FaultRefines | kernel/paging.c:731-771 | the write-fault handler changes nothing any space reads, keeps the invariant, resolves to a writable user entry, and declines exactly the faults that are not on a present user read-only COW entry |
| RollbackTheorem.FailedCloneRewinds | kernel/paging.c:699-722 | a failed clone restores bitmap, all counts and the free count, every data frame and every mapping; exactly the COW entries in the tables already copied come back writable |
| CowStore.WriteRefines | kernel/paging.c:731-771 | a store through a writable user entry changes one byte of one page of one space and nothing any other space reads |
| CowStore.StoreRefines | kernel/paging.c:731-771 | a store, with the fault it may raise, acts as on private memory: denied exactly where the deep copy is unmapped, not user or not writable; otherwise one byte changes in that space alone, unless a copy is needed and no frame is left |
| CowStore.FailedClonePermissions | kernel/paging.c:643-722 | after a failed clone every parent mapping has its old frame and permissions if and only if the parent held no COW entry in the tables already copied |
| CowStore.FailedCloneInvariant | kernel/paging.c:643-722 | after a failed clone every space still reads the same; the invariant holds again if and only if each COW page in those tables has a count of 1 |
| CowMap.FailedCloneLeaks | kernel/paging.c:699-722 | otherwise isolation is lost: the parent stores into such a page without a fault and the other sharer reads the new byte |
| CowExample.FailedCloneExample | kernel/paging.c:643-722 | a memory of 265 frames in which this happens |
| CowMap.InstallOver | kernel/paging.c:434-471 | mapping a new frame over a mapped page leaves the old frame marked as used with a count one above the entries that name it; the counts of named frames stay exact if and only if nobody else maps it |
| CowMap.MapInv | kernel/paging.c:434-471 | the same for map_user_page on the whole memory: after mapping over a page its old frame has one reference too many |
| HoldingsKept.MapExact | kernel/paging.c:434-471 | map_user_page keeps every count exact and every used frame held by somebody if and only if the page was unmapped |
| CowExample.MapOverExample | kernel/paging.c:434-471 | a memory in which mapping over a page loses its frame: marked as used, count 1, no entry |
| CowExample.SaturationExample | kernel/paging.c:392-405 | a frame with 250 entries and an exact count; sharing it once more makes the count wrong |
| CowMap.MapRefines | kernel/elf.c:83-95 | on an unmapped page it adds exactly one zero-filled writable page to one space, or fails and changes nothing any space reads |
| CowMap.MapFails | kernel/elf.c:83-95 | when it fails, for want of a frame for the page or for its table, the invariant holds and no space reads differently |
| CowMap.MapNeeds | kernel/elf.c:83-95 | it succeeds exactly when there is a frame for the page and, if the directory slot has no table, one for the table |
| Holdings.CountsExact | kernel/paging.h:95-104 | outside the kernel's own frames, directories and tables, every frame has exactly as many references as entries name it, and is marked as used if and only if there is one |
| Holdings.RoomToClone | kernel/paging.h:95-104 | saturation is out of reach: with fewer than 250 address spaces, none naming a frame twice, no count can reach 250 by a clone |
| HoldingsKept.CloneKeepsOwners | kernel/paging.c:636-697 | after a successful clone the used frames are exactly the kernel's own and those of the spaces, the child among them, and no directory names a frame twice |
| HoldingsKept.FailedCloneKeeps | kernel/paging.c:699-722 | after a failed one they are exactly the kernel's own and those of the spaces there were |
| HoldingsKept.DestroyKeeps | kernel/paging.c:593-627 | after a destroy they are exactly the kernel's own and those of the spaces left |
| HoldingsKept.StoreKeeps | kernel/paging.c:731-771 | and so they are after a store with the fault it may raise |
| HoldingsKept.KernelAllocKeeps | kernel/process.c:321 | a page the kernel takes for a stack or a buffer becomes its own: the invariant is kept and no space reads differently |
| HoldingsKept.KernelFreeKeeps | kernel/process.c:206 | the same when it frees such a page |
| HoldingsKept.KernelWriteKeeps | kernel/process.c:321 | the same whatever the kernel writes into its own pages |
| CowRuns.StepRefines | kernel/paging.c:593-771 | each fork, destroy, switch, write, mapping and kernel page step keeps the counts exact and every used frame held by exactly one holder, and is matched by the same operation on private copies |
| CowRuns.RunRefines | kernel/paging.c:593-771 | over every run of these from a legal start, with fewer than 250 spaces at each fork, all this holds at the end and live address spaces read exactly like independent deep copies taken at fork time |
| CowRuns.NoLeak | kernel/paging.c:91-111 | at every point of a run free pages, the kernel's own, directories, tables and mapped frames add up to the managed pages |
| CowRuns.Isolation | kernel/paging.c:593-771 | a space that no step of a run writes to, maps into or destroys reads the same at the end |
| CowRuns.BootInv | kernel/paging.c:294-332 | the machine after paging_init, with an empty user half, satisfies the invariant; all that is marked as used then is the kernel's |
| PagingKernel.Paging.MarkPageFree | kernel/paging.c:91-100 | clears the bit, drops the count and counts the page free, once |
| PagingKernel.Paging.MarkPageUsed | kernel/paging.c:102-111 | the reverse |
| PagingKernel.Paging.PageRefInc | kernel/paging.c:392-405 | counts up to the saturation value |
| PagingKernel.Paging.PageRefDec | kernel/paging.c:407-420 | counts down, and reports what is left |
| PagingKernel.Paging.FindFree | kernel/paging.c:334-361 | the circular search loop finds what Scan specifies |
| PagingKernel.Paging.PmmAllocPage | kernel/paging.c:334-365 | allocation in place equals AllocPage, about which AllocSpec speaks |
| PagingKernel.Paging.CloneTable | kernel/paging.c:662-682 | the inner loop of clone, on the entry arrays |
| PagingKernel.Paging.RollbackTable | kernel/paging.c:706-719 | the inner loop of the rollback |
| PagingKernel.Paging.CloneDirectories | kernel/paging.c:651-684 | the outer loop of clone and where it stopped |
| PagingKernel.Paging.Rollback | kernel/paging.c:699-722 | the rollback path |
| PagingKernel.Paging.CloneAddressSpace | kernel/paging.c:636-722 | clone in place equals CloneSpace, about which CloneRefines, CloneNeeds and FailedCloneRewinds speak |
| PagingKernel.Paging.DestroyAddressSpace | kernel/paging.c:593-627 | destroy in place equals DestroySpace |
| PagingKernel.Paging.HandleCowFault | kernel/paging.c:731-771 | the fault handler in place equals CowFault, and declines read faults |
| SeqNum.ImageDiff | net/net_tcp.c:18-19 | within half the number space the signed comparisons order sequence numbers as the stream positions they stand for, across wrap-around |
| TcpReceive.MergeSound | net/net_tcp.c:78-103 | merging keeps the receiver sound, loses no byte delivered or cached, never moves rcv_nxt back, and leaves cached only what is not deliverable now |
| TcpReceive.MergeDecreases | net/net_tcp.c:78-103 | whenever the loop runs again the cached byte count has strictly gone down, so it ends |
| TcpReceive.QueueSound | net/net_tcp.c:104-111 | queueing an out-of-order segment keeps slots disjoint, at most 4096 bytes and holding stream bytes; success means every byte of the segment is delivered or cached, refusal changes nothing |
| TcpReceive.AcceptSound | net/net_tcp.c:112-118 | the same for any arriving segment, in order or not |
| TcpReceive.RecvSound | net/net_tcp.c:819-836 | a read takes the next bytes of the stream and changes neither rcv_nxt nor what is covered |
| TcpReceive.RunInv | net/net_tcp.c:77-118 | from an empty cache the invariant holds after every run of arrivals and reads |
| TcpReceive.StreamIntegrity | net/net_tcp.c:77-118 | for every order, duplication and overlap of arrivals, bytes read followed by bytes buffered are exactly the stream prefix that rcv_nxt counts |
| TcpReceiveAny.ZeroAccept | net/net_tcp.c:77-118 | accepting a segment never depends on the bytes it carries: blanking them out before or after gives the same state |
| TcpReceiveAny.AnyAccept | net/net_tcp.c:77-118 | whatever segment arrives from whatever peer, the bookkeeping stays right |
| TcpReceiveAny.AnyRun | net/net_tcp.c:77-118 | so it does over every run of arrivals and reads, with no assumption on the peer |
| TcpReceiveAny.AnyNeverReneges | net/net_tcp.c:62-118 | a position once delivered or cached, so acknowledged or SACKed, stays so over every further run, whoever the peer |
| TcpReceiveAny.ShapedMeans | net/net_tcp.c:77-118 | right bookkeeping: cached ranges are pairwise disjoint, ooo_bytes is exactly their total and at most 4096, the buffer holds at most 4096 |
| TcpReceiveKernel.Receiver.Append | net/net_tcp.c:77 | appends when there is room |
| TcpReceiveKernel.Receiver.MergeOne | net/net_tcp.c:84-100 | one slot of the merge loop |
| TcpReceiveKernel.Receiver.MergeAll | net/net_tcp.c:83-101 | one pass over the slots |
| TcpReceiveKernel.Receiver.MergeOoo | net/net_tcp.c:78-103 | the do-while loop ends for any contents, and in place equals Merge |
| TcpReceiveKernel.Receiver.FindOverlap | net/net_tcp.c:108 | finds whether any slot overlaps |
| TcpReceiveKernel.Receiver.PutInFreeSlot | net/net_tcp.c:109 | fills the first free slot |
| TcpReceiveKernel.Receiver.QueueOoo | net/net_tcp.c:104-111 | in place equals Queue |
| TcpReceiveKernel.Receiver.AcceptData | net/net_tcp.c:112-118 | for any segment at all: in place equals Accept, and the bookkeeping stays right |
| TcpReceiveKernel.Receiver.Receive | net/net_tcp.c:819-836 | hands out and shifts the buffer; equals Recv |
| TcpScoreboard.AddTiles | net/net_tcp.c:124-139 | adding a segment keeps entries tiling the range in flight without gap or overlap and at most 8, also when the limit forces merging |
| TcpScoreboard.AckTiles | net/net_tcp.c:140-155 | acknowledging trims the tiling to what is still in flight, for any acknowledgement in range |
| TcpScoreboard.IntakeInWindow | net/net_tcp.c:42-58 | of any SACK blocks a peer may send, those taken in lie inside the send window |
| TcpScoreboard.HighPosition | net/net_tcp.c:156-175 | the highest SACKed number found is the highest right edge of any block |
| TcpScoreboard.SackHoles | net/net_tcp.c:156-175 | every byte not SACKed below one that is lies in an entry marked lost and not SACKed |
| TcpScoreboard.SackedMeans | net/net_tcp.c:156-175 | an entry is marked SACKed exactly when one block covers it; such an entry is not marked lost |
| TcpScoreboard.SackTiles | net/net_tcp.c:156-191 | marking and clearing marks do not disturb the tiling |
| TcpSend.XmitSound | net/net_tcp.c:395-418 | filling the window sends only bytes the application wrote at the numbers they have, and never beyond the smaller of peer and congestion window |
| TcpSend.SendSound | net/net_tcp.c:799-817 | tcp_send appends exactly the bytes it says it took |
| TcpSend.SendWindow | net/net_tcp.c:799-817 | new data it sends stays inside the window |
| TcpSend.RetransmitSound | net/net_tcp.c:176-188 | a selective retransmission repeats one entry that is lost, not SACKed and not yet repeated, with its own bytes; without one nothing is sent |
| TcpSend.HandleAckSound | net/net_tcp.c:576-625 | for every acknowledgement number, window and SACK option: bytes stay genuine, the tiling holds, nothing acknowledged is lost or unacknowledged again, new data stays inside the window |
| TcpSend.TimeoutSound | net/net_tcp.c:768-776 | the timeout resends the unacknowledged bytes from snd_una and moves no pointer |
| TcpSend.ProbeSound | net/net_tcp.c:729-740 | the persist probe sends the first unacknowledged byte and moves no pointer |
| TcpSend.RunSound | net/net_tcp.c:395-817 | the sender invariant after every run of writes, acknowledgements, timeouts and probes |
| TcpSend.StepSound | net/net_tcp.c:395-817 | every packet a step puts on the link carries the application's bytes at a position between what is then acknowledged and what is then written, which pins it down beyond its 32-bit number |
| TcpSend.StreamIntegrity | net/net_tcp.c:395-817 | over every such run each packet ever sent went out in some step with the bytes the application wrote at its position, unacknowledged and written at that time; at most 4096 bytes are held, they are the unacknowledged suffix, and the scoreboard tiles exactly the range in flight |
| TcpSend.HolesAreLost | net/net_tcp.c:156-188 | the same about holes for a sender in any reachable state and any SACK option |
| TcpSendKernel.Sender.TxAdd | net/net_tcp.c:124-139 | in place equals Add |
| TcpSendKernel.Sender.TxAck | net/net_tcp.c:140-155 | in-place compaction equals Ack |
| TcpSendKernel.Sender.TxSack | net/net_tcp.c:156-175 | in place equals Sack |
| TcpSendKernel.Sender.RetransmitLostEntry | net/net_tcp.c:176-188 | the search loop equals RetransmitLost |
| TcpSendKernel.Sender.TakeBlocks | net/net_tcp.c:42-58 | the intake loop equals Intake |
| TcpSendKernel.Sender.FillWindow | net/net_tcp.c:395-418 | the sending loop equals XmitPending |
| TcpSendKernel.Sender.SendData | net/net_tcp.c:799-817 | equals Send |
| TcpSendKernel.Sender.OnTimeout | net/net_tcp.c:768-776 | equals Timeout |
| TcpSendKernel.Sender.OnPersist | net/net_tcp.c:729-740 | equals Probe |
| TcpSendKernel.Sender.OnAck | net/net_tcp.c:576-625 | equals HandleAck |
| TcpEndToEnd.PrefixOf | net/net_tcp.c:77-118 | if all arriving segments carry recent bytes of one stream, what the receiver has is a prefix of that stream and no longer than it |
| TcpEndToEnd.AnyLifetime | net/net_tcp.c:77-836 | sender and receiver together, however long packets live: while fewer than 2^31 bytes are written, for any loss, order and repetition of packets, what the other application reads is a prefix of what was written |
| TcpConnection.AckedIsReceived | net/net_tcp.c:600-622 | an acknowledgement that arrives in time acknowledges nothing the receiver does not have |
| TcpConnection.StepKeeps | net/net_tcp.c:77-836 | every step of sender, receiver and network keeps this: packets carry positions near the time of their sending, answers numbers the receiver had reached, and the receiver holds what the sender takes for acknowledged |
| TcpConnection.EndToEnd | net/net_tcp.c:77-836 | for streams of any length and any loss, order and repetition of packets and answers, none living for 2^31 - 4096 bytes of the stream: what the receiving application reads is a prefix of what was written and includes all the sender takes for acknowledged |
| TcpProgress.XmitExact | net/net_tcp.c:395-418 | filling the window puts exactly the bytes that newly count as in flight on the link, in order, and stops early only when the link refuses |
| TcpProgress.AckMoves | net/net_tcp.c:576-625 | an acknowledgement moves snd_una to exactly its number if that lies in the flight and leaves it alone otherwise; exactly the acknowledged bytes leave the buffer |
| TcpProgress.RetransmitFirst | net/net_tcp.c:176-188 | with a working link a selective retransmission happens exactly when some entry is eligible, and resends the first one |
| TcpProgress.ThreeDuplicates | net/net_tcp.c:576-599 | three duplicate ACKs in a row without SACK blocks send exactly one segment again, from snd_una, and enter recovery up to snd_nxt |
| TcpProgress.QueueTakes | net/net_tcp.c:104-111 | an out-of-order segment is cached exactly when its size is legal, it brings something new, it fits, a slot is free and it overlaps nothing cached |
| TcpProgress.FrontAfter | net/net_tcp.c:104-116 | a cached range starts right at rcv_nxt after an arrival exactly when one did before or the segment straddled rcv_nxt; after one in order only if it does not fit the buffer |
| TcpProgress.StraddleExample | net/net_tcp.c:104-116 | a byte that could be delivered and is cached instead |
| TcpProgress.InOrderTaken | net/net_tcp.c:112-118 | the next segment in order is taken exactly when it is at most one MSS and fits; then all that waited for it is delivered as far as the buffer allows |
| TcpProgress.ReadsDrain | net/net_tcp.c:819-836 | reads in pieces of any sizes lose and repeat nothing, and empty the buffer once they are together as long as it |
| TcpProgress.TimeoutAccepted | net/net_tcp.c:768-776 | against a receiver of the same make that is waiting for these very bytes, the segment a timeout resends is accepted if and only if at most one MSS is in flight; otherwise nothing changes at either end |
| TcpProgress.NeverDelivered | net/net_tcp.c:768-776 | however many timeouts follow each other, none of what they resend is then accepted |
| TcpExample.TimeoutExample | net/net_tcp.c:768-776 | a connection in which this happens: one segment acknowledged, the next two lost |
| TcpTimer.TickBurns | net/net_tcp.c:742-779 | each tick of an armed timer uses up fuel; a resending uses one unit of the budget |
| TcpTimer.AtMostR2 | net/net_tcp.c:742-779 | at most R2 resendings, 3 in SYN_RECEIVED and 5 otherwise, less those already counted, over any number of ticks without input |
| TcpTimer.OffWithin | net/net_tcp.c:245-251 | a timer armed at any tick is off, or the connection released, within (R2+1)*240 ticks, across wrap-around of the counter (section 3.8.3 of RFC 9293) |
| TcpTimer.GivenUp | net/net_tcp.c:742-779 | with something to resend and nobody answering, the connection is given up at one exact tick, the sum of the time-outs to come, if none of the at most five deadlines falls on tick 0, and otherwise never |
| TcpTimer.EndWithin | net/net_tcp.c:742-779 | that tick is at most 240 ticks for every resending left after the next deadline |
| TcpTimer.ResendsAll | net/net_tcp.c:742-779 | by then exactly what the R2 budget allows has been resent |
| TcpTimer.ResendsUnlessZero | net/net_tcp.c:245-246 | a connection that sets its timer, by tcp_rto_arm or tcp_rto_rearm, with something to resend and budget left resends within 240 ticks if and only if the deadline does not fall on tick 0 of the 32-bit counter; otherwise it never does |
| TcpTimer.WrapExample | net/net_tcp.c:246 | such a connection: a segment sent 30 ticks before the counter wraps is never sent again |
| TcpPersist.KeepsProbing | net/net_tcp.c:705-780 | both halves of tcp_tick: with the window shut on waiting data, n ticks send at least (n - time to the deadline) / 240 probes, as long as the connection is there and no persist deadline falls on tick 0 |
| TcpPersist.ProbeWithin | net/net_tcp.c:240 | the first probe is sent within 30 ticks of arming, on a connection still there, if and only if the deadline does not fall on tick 0; if it does, none ever is |
| TcpPersist.StopsProbing | net/net_tcp.c:729-741 | if the k-th persist deadline to come falls on tick 0, no more than k probes are ever sent |
| TcpPersist.ClearIff | net/net_tcp.c:240-242 | some persist deadline falls on tick 0 exactly from the ticks of the first probe named by a residue modulo 16 and at most two single values |
| TcpPersist.Released | net/net_tcp.c:705-780 | with the window shut and nobody answering, the connection is released at the exact tick at which the retransmission timer gives up, if that timer is armed and none of its deadlines falls on tick 0, and otherwise never |
| TcpPersist.ProbesForEver | net/net_tcp.c:705-780 | so probing goes on for ever if and only if the retransmission timer does not end the connection and no persist deadline falls on tick 0, both of which can be told beforehand |
| TcpPersist.OnlyThese | net/net_tcp.c:729-779 | all that the ticks send meanwhile is the first unacknowledged byte or the whole flight |
| TcpPersist.ProbesSent | net/net_tcp.c:729-741 | with the link up every probe counted is sent |
| TcpTimed.StepTimed | net/net_tcp.c:576-622 | each event keeps that, the second half unless the deadline it may set itself falls on tick 0; and the next new acknowledgement sets a timer lost in that way again |
| TcpTimed.TimerFollowsFlight | net/net_tcp.c:393-418 | over every run of writes, acknowledgements and ticks the retransmission timer is on only while something is in flight, and always then as long as no event sets a deadline on tick 0 |
| TcpTimed.ShutFate | net/net_tcp.c:705-780 | hence behind a shut window with nothing in flight probing goes on, but for deadlines on tick 0, and with something in flight the connection is given up |
| TcpTimed.AnsweredInVain | net/net_tcp.c:559-599 | given up also while the peer answers every probe with window 0: duplicate ACKs set the timer anew but never reset the count of resendings |
| TcpStall.SilenceExample | net/net_tcp.c:705-780 | one segment in flight, one waiting, an ACK of nothing with window 0, then silence: the connection is gone after 928 ticks and no probe follows |
| TcpStall.AnswerExample | net/net_tcp.c:559-599 | the same with a peer that answers as it likes: gone after 2880 ticks |
| TcpStall.NoProbeExample | net/net_tcp.c:240 | a persist timer set 30 ticks before the counter wraps: no probe ever |
| TcpTimer.RtoNow | net/net_tcp.c:243-244 | the timeout is between 30 and 240 ticks for every stored value and every backoff |
| TcpTimer.TickAll | net/net_tcp.c:705-781 | the loop over the connection table does to each connection what Tick specifies |
| SchedulerProof.DispatchHead | kernel/process.c:192-211 | once the running process has been put aside, dispatch takes exactly the head of the list, which is never empty: the fallback to slot 0 is not needed |
| SchedulerProof.YieldInv | kernel/process.c:668-680 | yield keeps the invariant and rotates the list by one |
| SchedulerProof.PreemptInv | kernel/process.c:706-726 | a timer tick keeps the invariant; at the end of a slice, and only then, it rotates the list, slot 0 included |
| SchedulerProof.AllocFinds | kernel/process.c:586-595 | the search finds a free slot exactly when there is one |
| SchedulerProof.CreateInv | kernel/process.c:598-664 | a process is created exactly when a slot and a page can be had: READY, at the end of the list, in a slot that was free, everything else unchanged; the invariant holds |
| SchedulerProof.ForkInv | kernel/process.c:292-382 | the same for fork, whose child has the caller as parent; without memory, without a slot or from slot 0 nothing changes |
| SchedulerProof.WakeForm | kernel/process.c:795-804 | the wake-up loop wakes the parent if it waits for this child, and nobody else |
| SchedulerProof.OrphanForm | kernel/process.c:816-826 | the orphan loop clears exactly the zombie children and unparents exactly the living ones |
| SchedulerProof.GoneSleepers | kernel/process.c:774-826 | after an exit no sleeper is left waiting on a child that has exited |
| SchedulerProof.ExitSafe | kernel/process.c:774-873 | exit_process_code keeps the invariant if and only if the process ended is not READY |
| SchedulerProof.KilledOrphanCuts | kernel/process.c:848-853 | killing a READY orphan takes every process behind it off the list although it stays READY |
| SchedulerRuns.KillExample | kernel/process.c:774-853 | boot, two processes created, the first killed: the second is READY and on no list |
| SchedulerProof.OrphanSlot | kernel/process.c:842-873 | the slot of an orphan is freed at its exit if and only if it was ended by another process |
| SchedulerStacks.BootPages | kernel/process.c:561-572 | the machine process_init leaves, with a page for the idle process, has its pages in order |
| SchedulerStacks.StackStep | kernel/process.c:743-756 | with the page of every slot and the page allocator in the model, for any table at all: after each step no page is held twice, and the pages marked as used that no slot holds are those there were before and the page of an orphan ended from outside |
| SchedulerStacks.ExitLoses | kernel/process.c:808-875 | exit_process_code in its own order, pmm_free_page where it calls it and memset where it only wipes: exactly the orphan ended from outside leaves a page behind |
| SchedulerStacks.StacksAddUp | kernel/process.c:743-756 | over every run free pages, stacks held, pages without holder at the start and one for each orphan ended from outside make up the managed pages |
| SchedulerStacks.LostExactly | kernel/process.c:842-860 | over every run, kills of READY processes included, a page in use without holder stays so for good, and their number grows by exactly the orphans with a stack that are ended from outside |
| SchedulerStacks.LostExample | kernel/process.c:842-860 | from boot a process is created and killed: its stack page stays marked as used and no slot holds it, whatever happens afterwards |
| SchedulerWakeup.OrphanStuck | kernel/process.c:842-873 | one that exits by itself keeps its slot over every further run |
| SchedulerWakeup.OrphanLeaves | kernel/process.c:842-873 | a process without parent that exits by itself becomes such a zombie and keeps its stack page |
| SchedulerWakeup.OrphanExample | kernel/process.c:842-873 | a run from boot in which slot 1 is lost in this way, whatever happens afterwards |
| SchedulerProof.ScanMeans | kernel/process.c:876-902 | the scan returns the lowest matching zombie with its code; if there is none it says rightly whether a matching child exists |
| SchedulerProof.WaitInv | kernel/syscall.c:319-348 | one round of waitpid keeps the invariant; it sleeps only on a living matching child |
| SchedulerRuns.StepInv | kernel/process.c:668-930 | every step keeps the invariant, and moves the list only by appending at the back and, at a dispatch, taking the head |
| SchedulerRuns.RunInv | kernel/process.c:668-930 | in every reachable state the list is duplicate-free and holds exactly the READY processes, exactly one process runs, and every sleeper has a living matching child and no matching zombie |
| SchedulerRuns.MovesUp | kernel/process.c:179-211 | a READY process moves up one place at each dispatch, whatever else happens |
| SchedulerRuns.TakesItsTurn | kernel/process.c:668-726 | one at place k is dispatched at exactly the (k+1)-st dispatch |
| SchedulerRuns.TurnWithinTicks | kernel/process.c:706-726 | it gets the CPU before 100(k+1) timer ticks have passed |
| SchedulerRuns.ShortList | kernel/process.c:179-188 | at most 31 processes are on the list |
| SchedulerWait.WaitIntegrity | kernel/process.c:774-930 | over every run, what waitpid returns is a child of the caller with the status recorded at its exit, before its slot is reused, and no child is returned twice |
| SchedulerWait.FromBoot | kernel/process.c:774-930 | the same from boot |
| SchedulerWakeup.ExitWakes | kernel/process.c:795-804 | the exit of an awaited child makes the sleeper ready and leaves the zombie with its code |
| SchedulerWakeup.StaysDue | kernel/process.c:774-930 | until the woken parent runs, no step by anyone else removes the zombie or puts the parent back to sleep |
| SchedulerWakeup.NoLostWakeup | kernel/syscall.c:319-348 | after the exit, over any run until the parent is back on the CPU, its waitpid returns; with the exact child and code if it named it |
| SchedulerKernel.Processes.ReadyEnqueue | kernel/process.c:179-188 | appends to the linked list |
| SchedulerKernel.Processes.Pick | kernel/process.c:192-211 | the unlinking loop equals PickNext |
| SchedulerKernel.Processes.Schedule | kernel/process.c:970-1020 | equals ScheduleNext |
| SchedulerKernel.Processes.YieldCpu | kernel/process.c:668-680 | equals Yield |
| SchedulerKernel.Processes.OnTick | kernel/process.c:706-726 | equals PreemptTick |
| SchedulerKernel.Processes.AllocateSlot | kernel/process.c:586-595 | the search loop finds the lowest free slot |
| SchedulerKernel.Processes.CreateProcess | kernel/process.c:598-664 | equals Create and keeps the invariant |
| SchedulerKernel.Processes.ForkProcess | kernel/process.c:292-382 | equals Fork and keeps the invariant |
| SchedulerKernel.Processes.WakeWaiters | kernel/process.c:795-804 | the loop equals Wake |
| SchedulerKernel.Processes.OrphanChildren | kernel/process.c:816-826 | the loop equals Orphan |
| SchedulerKernel.Processes.ExitProcess | kernel/process.c:774-873 | for every target the table is as specified; unless the target is READY the list and all invariants survive |
| SchedulerKernel.Processes.WaitScan | kernel/process.c:876-902 | the loop equals Scan |
| SchedulerKernel.Processes.WaitBlock | kernel/process.c:904-917 | equals Block |
| SchedulerKernel.Processes.WaitRound | kernel/syscall.c:330-348 | scan, then reap, report or sleep; equals Waitpid and keeps the invariant |
| HeapProof.MallocKeeps | libc/src/stdlib.c:86-132 | malloc keeps blocks tiling the 512 KiB pool with no two free neighbours, and on success adds exactly one live block, as large as the rounded request or one granule larger |
| HeapProof.FailsIffNoRoom | libc/src/stdlib.c:86-132 | malloc fails exactly when no stretch of the pool outside live blocks could hold a header and the rounded request |
| HeapProof.FreeKeeps | libc/src/stdlib.c:134-154 | free keeps the shape for any pointer whatever, and removes exactly the live block at that address, if there is one |
| HeapProof.RunShape | libc/src/stdlib.c:55-154 | the shape holds after every sequence of calls |
| HeapProof.LiveDisjoint | libc/src/stdlib.c:55-154 | live blocks never overlap and lie in the pool, at any point of any sequence of calls |
| HeapProof.AllFreedIsWhole | libc/src/stdlib.c:61-84 | once everything is freed, in any order, the pool is one block again |
| HeapProof.MergeLive | libc/src/stdlib.c:61-84 | coalescing neither loses nor alters a block in use |
| HeapLinks.SplitChain | libc/src/stdlib.c:115-123 | splitting a block in place leaves headers and list representing the split row |
| HeapLinks.WholeChain | libc/src/stdlib.c:124-126 | handing out a block whole leaves headers and list representing the row |
| HeapCoalesce.Finish | libc/src/stdlib.c:61-84 | at the end of the coalescing loop the headers represent the merged row and the list is exactly its free blocks in address order |
| HeapKernel.Allocator.Coalesce | libc/src/stdlib.c:61-84 | the loop in place equals Merge, rebuilds the list, and writes only to headers |
| HeapKernel.Allocator.Malloc | libc/src/stdlib.c:86-132 | in place equals Malloc; the address returned is 16-aligned behind the header, and no byte of another live block changes |
| HeapKernel.Allocator.HandOut | libc/src/stdlib.c:115-129 | the split or whole hand-out, in place |
| HeapKernel.Allocator.Free | libc/src/stdlib.c:134-154 | in place equals Free for every 32-bit pointer; no byte of a live block changes, except possibly the very granule in front of a forged address |
| HeapKernel.Allocator.Scribble | libc/src/stdlib.c:86-132 | writes of the program to memory it was given cannot damage the heap |
| Dns.EndsInside | net/net_dns.c:47-78 | a name that was read ends inside the message |
| Dns.NameWellFormed | net/net_dns.c:47-78 | all labels read are 1 to 63 bytes long |
| Dns.RoundTrip | net/net_dns.c:47-110 | wherever the encoding of a name stands in a message, reading gives exactly its labels and ends right behind it |
| Dns.EncodeInjective | net/net_dns.c:91-110 | two names with one encoding are the same name |
| Dns.QueryRoundTrip | net/net_dns.c:91-110 | reading the name of a query gives back the dotted name the program asked for |
| DnsPointers.Stable | net/net_dns.c:47-78 | a name that has been read reads the same with more jumps allowed |
| DnsPointers.EndsWithin | net/net_dns.c:47-78 | a name has an end at all if and only if it is read with as many jumps as the message has bytes: no name that ends passes a pointer twice |
| DnsPointers.JumpsNeeded | net/net_dns.c:47-78 | with k jumps a name that has an end is read, in full, if and only if it has at most k pointers |
| DnsPointers.RefusedExactly | net/net_dns.c:36-78 | dns_read_name refuses a name that has an end exactly when it has more than 8 pointers, passes over more bytes than the message has, or does not fit the output |
| DnsPointers.LoopsExactly | net/net_dns.c:36-46 | without the jump limit the reader goes on for ever exactly when it comes to some pointer twice, which it has once it has passed as many pointers as there are bytes; such a name has no end |
| DnsPointers.LoopExample | net/net_dns.c:36-46 | a message whose one pointer goes backwards and yet loops |
| DnsKernel.ReadName | net/net_dns.c:47-78 | for every message it ends, reads only inside it, and succeeds exactly when following labels and at most 8 back-pointers gives a name within the limits on bytes passed over and on output; then the output is that name, decompressed, and the offset is just behind the name in the stream |
| DnsKernel.PutName | net/net_dns.c:91-110 | the encoder accepts exactly the names of at most 64 characters with labels of 1 to 63 letters, digits and hyphens, and writes their encoding |
| Dhcp.LeaseTerms | net/net_dhcp.c:63-76 | for every combination of options 51, 58 and 59: at least one tick to T1, T1 at most T2, T2 at most the lease |
| Dhcp.HandleInv | net/net_dhcp.c:116-145 | every reply keeps the lease invariant |
| Dhcp.TickInv | net/net_dhcp.c:146-200 | every tick keeps it, across wrap-around |
| Dhcp.RunInv | net/net_dhcp.c:107-200 | over every run: BOUND, RENEWING and REBINDING imply a timed lease, the leased address in use and deadlines in order; WAIT_OFFER and WAIT_ACK imply no address; after each tick a lease in use has not expired |
| Dhcp.FromStart | net/net_dhcp.c:107-200 | all this in every run from dhcp_start |
| Dhcp.ExpiryClears | net/net_dhcp.c:146-187 | a tick at or after expiry leaves no address in use |
| Dhcp.DroppedEarly | net/net_dhcp.c:146-187 | before expiry a tick drops the lease if and only if more than 2^31 ticks of it remain |
| Dhcp.Windows | net/net_dhcp.c:146-187 | for leases of any length: a tick drops the lease if more than 2^31 ticks of it are left; otherwise the address stays, and renewing and rebinding start exactly in the 2^31 ticks from T1 and from T2 |
| Dhcp.Timeline | net/net_dhcp.c:63-187 | offer, acknowledgement, silence, a tick at a time: BOUND until T1, RENEWING until T2, REBINDING until the expiry, and there without address in discovery again |
| Dhcp.DefaultTimeline | net/net_dhcp.c:63-187 | with no timers from the server these are at a half, seven eighths and the whole of the lease (section 4.4.5 of RFC 2131) |
| Dhcp.DropExample | net/net_dhcp.c:146-187 | from the start, an offer and an acknowledgement with the longest lease, and the next tick drops the address |
| Dhcp.AckBinds | net/net_dhcp.c:133-144 | an ACK in turn binds the address it names for exactly the time it grants, counted from its arrival |
| Dhcp.AddressFromAck | net/net_dhcp.c:107-200 | in every run from the start an address in use was acknowledged by a server to a client waiting for it, with no refusal since, or is the static one after discovery was given up |
| Dhcp.FallbackTime | net/net_dhcp.c:190-200 | with nobody answering, the static address comes at the 1400th tick and not before |
| DhcpKernel.DhcpClient.Arm | net/net_dhcp.c:63-76 | the in-place clamping equals LeaseTerms |
| DhcpKernel.DhcpClient.OnReply | net/net_dhcp.c:116-145 | equals Handle |
| DhcpKernel.DhcpClient.OnTick | net/net_dhcp.c:146-200 | equals Tick |
| FatCache.FetchCoherent | fs/fat16.c:64-73 | a lookup returns the sector as it is on disk; the cache stays right if and only if a failed read left the buffer of a slot in use untouched |
| FatCache.RunCoherent | fs/fat16.c:60-79 | after any calls since mounting whose failed reads left no slot in use changed, the valid slots are a prefix and hold different sectors, each as on disk |
| FatCache.Transparent | fs/fat16.c:74-79 | after any such calls fat_next answers what an uncached read would, or end-of-chain when the sector was not cached and reading failed |
| FatCache.AfterBadRead | fs/fat16.c:64-79 | after a failed read into a used slot, cached clusters are answered as before, but those of that slot's sector from what the device left there |
| FatExample.PoisonExample | fs/fat16.c:60-79 | 64 sectors read, the 65th fails, and then fat_next answers cluster 2 with noise, neither with its entry nor with end-of-chain |
| FatLru.RunLru | fs/fat16.c:60-79 | until the tick wraps, the cached sectors in tick order are exactly the queue of a reference least-recently-used cache of 64 |
| FatKernel.Fat.GetSector | fs/fat16.c:64-73 | the scanning loop in place equals Fetch |
| FatKernel.Fat.NextCluster | fs/fat16.c:74-79 | equals FatNext |
| Checksum.FoldResidue | net/net.c:52 | folding the carries keeps the residue modulo 65535, and only 0 folds to 0 |
| Checksum.CheckZero | net/net.c:48-54 | the check value is 0 exactly for a nonzero sum divisible by 65535 |
| Checksum.RoundTrip | net/net.c:80-96 | for every content, storing the check value in the zeroed field makes the check over the same bytes 0 |
| Checksum.DetectsWord | net/net.c:94-96 | altering one word of an accepted header goes unnoticed exactly when it changes between 0x0000 and 0xFFFF or not at all |
| Checksum.IpChecksum | net/net.c:48-54 | the summing and folding loops, with their 32-bit accumulator, compute Check |
| Checksum.EndIp | net/net.c:80-86 | end_ip writes length and checksum so that the receiving check passes, and nothing else |
| Elf.LoadSucceeds | kernel/elf.c:110-234 | loading succeeds exactly for an acceptable header, acceptable segments of which there is at least one, and memory for every page and the stack; it returns the number of segments |
| Elf.LoadedSpace | kernel/elf.c:159-232 | after success each page is known: the stack page is zero, a page segments cover holds what the last of them puts there, all others are untouched |
| Elf.FlatImage | kernel/elf.c:159-232 | a byte of a segment whose page no later segment and not the stack covers reads as the file byte below p_filesz and as zero from there on |
| ElfKernel.FillFrame | kernel/elf.c:188-199 | zeroing and copying one frame gives exactly that page of the flat image |
| ElfKernel.Loader.MapSegment | kernel/elf.c:179-200 | the page loop equals LoadPages |
| ElfKernel.Loader.LoadElf | kernel/elf.c:110-234 | the whole loader equals Load, reads only inside the image for any header contents, and reports the entry point |

## Left out

- CowRuns.RunRefines: there are fewer than 250 spaces at a fork (the process table has 32 slots), a failed fork meets the condition of FailedCloneInvariant, and mappings go to unmapped pages, because FailedCloneLeaks and MapExact show the property is false otherwise.
- TcpSend.StreamIntegrity: stops at the first FIN, because tcp_close advances snd_nxt past bytes still in the buffer; segments on a timeout are not bounded by the MSS, as in the code.
- TcpReceive.StreamIntegrity: starts from an empty cache and stops at the FIN, because a reused connection slot keeps its old cache; segments are within half the sequence space of rcv_nxt.
- TcpConnection.EndToEnd: a packet or an answer reaches the other end before 2^31 - 4096 more bytes have been written, because it carries no more than a 32-bit number.
- TcpEndToEnd.AnyLifetime: fewer than 2^31 bytes written, because it asks nothing of lifetimes; EndToEnd is the form for longer streams.
- TcpTimer.OffWithin: the self-test on port 81 is not part of the run; the persist timer is in TcpPersist.
- TcpTimed.AnsweredInVain: at most one answer a tick and no turn of the tick counter meanwhile, because a deadline on tick 0 stops the timer, as ResendsUnlessZero shows.
- TcpTimed.TimerFollowsFlight: established connections; RTT samples enter as any value of the time-out.
- FatCache.Transparent: failed reads leave no used slot changed, because AfterBadRead and PoisonExample show the property is false otherwise.
- Dhcp.Timeline: leases of at most 2^31 ticks, because Windows shows that longer ones are dropped.
- SchedulerRuns.RunInv: runs do not kill READY processes, because ExitSafe shows the property is false then; sched_start and sched_launch are not modelled.
- SchedulerKernel.Processes.WaitRound: one round of the loop of sys_waitpid, since the rest of the loop runs when the process is next dispatched; copying the status to user memory is not modelled.
- FatLru.RunLru: up to 2^32 - 3 calls since mounting, because the tick wraps there.
- Dhcp.RunInv: dhcp_tick is called at least every 2^31 ticks, because of the signed comparison; the test-only lease scaling, transaction ids and option parsing are not modelled.
- DnsKernel.PutName: names are sequences of characters, so the terminating NUL is their end; the query's header, sockets and the CNAME chase of net_dns_resolve are not modelled.
- Elf.LoadedSpace: pages are named by number and hold their bytes; the page tables behind map_page are in the paging part.
- Paging: TLB flushes, CR3 loads, the packing of bits into words, 4 MiB pages, the kernel half beyond its copy, ioremap, memory discovery and DMA pages.
- TCP: handshake, FIN and RST handling, RTT samples, Nagle and delayed ACKs, the byte layout of options and headers, advertised window.
- Processes: context switch, the kernel or user kind of a context, signals other than their effect as exit, kernel stacks beyond having one, address-space switching.
- Files: directory reading and whole-file reads; libc string, stdio and the rest of stdlib; VFS.
- Drivers, ARP, ICMP, UDP, sockets, shell, user programs, nginx and its shim.
