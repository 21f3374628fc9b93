# Driver models

This project models the stateful cores of the paravirtual drivers and proves what their code
relies on. Dafny 4.11; `dafny verify dfyconfig.toml` checks it.

| core | modules |
|---|---|
| split virtqueue driver (`virtio_ring.c`) | `Vring` (the operations as values), `VringInvariant`, `VringSteps`, `VringTheorems`, `VringAccounting`, `VringHistory`, `VirtqueueDriver` (the driver in place), `KickProtocol`, `InterruptProtocol`, `QueueRuns` (driver and device together) |
| grant reference allocator (`gnttab.c`) | `GrantTable`, `GrantOps`, `GrantInvariant`, `GrantAllocation`, `GrantRuns`, `GrantAllocator` (in place) |
| ending foreign access (`gnttab.c`) | `DeferredFree`, `DeferredProofs`, `DeferredTheorems`, `DeferredTimer`, `DeferredHandler` |
| xenstore byte ring (`xenbus_comms.c`) | `XenstoreRing` |
| event-channel demultiplexer (`evtchn.c`) | `EventScan` (in place), `EventDelivery` |
| SCSI front end (`scsifront.c`, `xenbus.c`) | `ScsiSegments`, `ScsiGrantPool`, `ScsiFront` (in place) |
| balloon (`balloon.c`) | `Balloon` |
| xenbus reply stream (`xenbus_dev_frontend.c`) | `ReplyStream` |
| virtio network receive side (`virtio_net.c`) | `NetReceive` |
| shared | `Basics`, `Words` |

How the parts fit. An operation that changes state is a method on arrays and fields, proved to
leave exactly the state that a function on values gives; invariants and theorems over whole runs
are lemmas about those functions. What the other side does (device, hypervisor, remote domain,
xenstore daemon, allocator) is a parameter that may be anything the interface allows: any used
ring, any kmalloc result, any page shortage, any peer moves between two accesses. Protocols with
two sides are step machines; spinlocks make a step of each locked section, and memory is
sequentially consistent. The event test and the ring layout follow sections 2.4.4 to 2.4.9 of
Virtual I/O Device (VIRTIO) Version 1.0.

Linked lists carry a ghost map that says, for each element, which list it is on and where. List
positions are counted so that the work at the front moves nobody else. The run theorems are stated
without that map, by walking the links.

Where a promise turned out not to hold of the code, the code is kept, a lemma gives an input or a
run that breaks it, and another says exactly when it holds:

* avail slots distinct from those of all buffers in flight: an add overwrites the entry of one if
  and only if that was last published exactly num adds ago (`RunOverwritesIff`; a run where it
  happens: `OutOfOrderOverwrites`), which completions in order rule out (`InOrderNeverOverwrites`);
  what always holds is `AddKeepsWindow`;
* decoding of an indirect table: exactly up to 2^16 elements, `next` being 16 bits wide
  (`AddedRequestDecodes`; beyond: `LongRequestLost`);
* `gnttab_free_count`: exact if and only if the count asked for is at least 1, the input being a
  count of 0 (`CountedIffAsked`);
* the deferred-free timer handler: can be started on an empty list, whose first entry it takes all
  the same (`AstrayRun`, `AstrayIffStale`, `StaleIff`);
* SCSI without persistent grants: the right pages are granted if and only if `RightPages` holds of
  the pool and the list (`GrantsRightPagesIff`, `FreshGrantsRightIff`), which an element of two
  pages and a frame's grant left mapped break (`TwoPagesMissed`, `FramePageForData`);
* the SCSI size check bounds the segments if and only if the gaps it does not see leave room
  (`CheckMisses`, `WithinLimitIff`; inputs that break it: `StraddlingPasses`, `OnePageOver`);
* completion of a SCSI read finds the right grants if and only if byte-less elements come last
  (`SameNumbersIff`; an input that breaks it: `EmptyBetween`);
* a xenbus read of length 0 with something queued never returns (`ReadPass`), and a fault before
  the first byte is returned as a positive number, -EFAULT being kept in an unsigned variable
  (`Read`).

Where comments and code disagree the code is followed. In `evtchn_interrupt` the saved cursors make
the next scan start at the word after the last one, and at the bit after the last one, where the
comment speaks of one position. In `balloon_minimum_target` the table has 0 for no memory, where the
code's floor is 8 MiB before it is cut to what there is.

## Model

| member | source | states |
|---|---|---|
| VringTheorems.RunPartition | uvp-xenpv/uvp-classic_xen_driver-2.6.32to3.0.x/vni_front/2.6.32/virtio_ring.c:169-181 | In every state of every run, whatever the device writes and whenever kmalloc fails, the first num_free steps from free_head and one NEXT-chain per head with a token split [0,num): no overlap, no gap, no repeat. |
| VringTheorems.RunInv | uvp-xenpv/uvp-classic_xen_driver-2.6.32to3.0.x/vni_front/2.6.32/virtio_ring.c:184-296 | Every operation keeps the whole ring invariant, so it holds along every run from a new queue. |
| VringTheorems.StepInv | uvp-xenpv/uvp-classic_xen_driver-2.6.32to3.0.x/vni_front/2.6.32/virtio_ring.c:489-512 | One operation, of any kind and outcome, keeps the invariant; the abstract owner map moves as the operation says. |
| VringSteps.AddInv | uvp-xenpv/uvp-classic_xen_driver-2.6.32to3.0.x/vni_front/2.6.32/virtio_ring.c:217-290 | virtqueue_add keeps the invariant in all four outcomes: direct, indirect, -ENOSPC, and the refused empty or oversized request. |
| VringSteps.GetInv | uvp-xenpv/uvp-classic_xen_driver-2.6.32to3.0.x/vni_front/2.6.32/virtio_ring.c:535-589 | virtqueue_get_buf keeps it for any used ring: nothing new, a bad id (the queue is marked broken), or a buffer whose whole chain returns to the free list. |
| VringSteps.DetachUnusedInv | uvp-xenpv/uvp-classic_xen_driver-2.6.32to3.0.x/vni_front/2.6.32/virtio_ring.c:724-746 | virtqueue_detach_unused_buf keeps it, stepping avail->idx back once per buffer. |
| VringSteps.ChainIs | uvp-xenpv/uvp-classic_xen_driver-2.6.32to3.0.x/vni_front/2.6.32/virtio_ring.c:503-506 | Following NEXT from a head, as detach_buf does, visits exactly the descriptors the head owns. |
| VringInvariant.WalkIsFree | uvp-xenpv/uvp-classic_xen_driver-2.6.32to3.0.x/vni_front/2.6.32/virtio_ring.c:247-264 | Following next from free_head visits the free descriptors in order; only num_free bounds the walk. |
| VringInvariant.InitInv | uvp-xenpv/uvp-classic_xen_driver-2.6.32to3.0.x/vni_front/2.6.32/virtio_ring.c:817-823 | A new queue satisfies the invariant: everything free, threaded in order. |
| VringTheorems.NoTokensAllFree | uvp-xenpv/uvp-classic_xen_driver-2.6.32to3.0.x/vni_front/2.6.32/virtio_ring.c:742-743 | With no token left every descriptor is free and no indirect table is allocated, so the closing BUG_ON of detach_unused_buf cannot fire. |
| VringTheorems.AddAnswers | uvp-xenpv/uvp-classic_xen_driver-2.6.32to3.0.x/vni_front/2.6.32/virtio_ring.c:206-290 | What virtqueue_add answers, by size, room and memory: through a table where these are used, the request has more than two elements and a descriptor and memory are there; otherwise it is added exactly with 1 <= n <= num_free, -ENOSPC with num_free < n <= num, with one notification if and only if there are out lists, and a bug with 0 or more than num. An added request takes its descriptors, gives its head the token and one avail slot; nothing else changes anything. |
| VringTheorems.GetAnswers | uvp-xenpv/uvp-classic_xen_driver-2.6.32to3.0.x/vni_front/2.6.32/virtio_ring.c:544-588 | What virtqueue_get_buf answers: nothing on a broken queue or with nothing new; an entry that names no descriptor or no token breaks the queue and changes nothing else; any other gives its head and frees at least one descriptor. |
| VringAccounting.KickIffPassed | uvp-xenpv/uvp-classic_xen_driver-2.6.32to3.0.x/vni_front/2.6.32/virtio_ring.c:423-450 | virtqueue_kick_prepare answers true if and only if the additions since the last kick passed the device's event index, or, without event indices, unless notifications are switched off. |
| VringAccounting.EventsPlaced | uvp-xenpv/uvp-classic_xen_driver-2.6.32to3.0.x/vni_front/2.6.32/virtio_ring.c:578-713 | Enabling puts the event index at the next buffer to come, delayed enabling three quarters of those in flight further on, and disabling sets the flag only. |
| VringAccounting.EventMovesOn | uvp-xenpv/uvp-classic_xen_driver-2.6.32to3.0.x/vni_front/2.6.32/virtio_ring.c:578-581 | Taking a buffer moves the event index to the next, exactly while interrupts are wanted. |
| VringTheorems.DecodeInFlight | uvp-xenpv/uvp-classic_xen_driver-2.6.32to3.0.x/vni_front/2.6.32/virtio_ring.c:169-181 | What a device reads at any in-flight head, by chain or by table, is the request that was added there; it fails exactly for requests of more than 2^16 elements. |
| VringTheorems.AddedRequestDecodes | uvp-xenpv/uvp-classic_xen_driver-2.6.32to3.0.x/vni_front/2.6.32/virtio_ring.c:143-181 | A published request decodes to its out elements then its in elements, WRITE on the in part only, direct or indirect, if and only if it has at most 2^16 elements (the u16 next field of an indirect table wraps beyond). |
| VringTheorems.LongRequestLost | uvp-xenpv/uvp-classic_xen_driver-2.6.32to3.0.x/vni_front/2.6.32/virtio_ring.c:247-254 | An input beyond that bound: a new queue accepts a request of more than 2^16 elements, and going through its table never ends. |
| VringTheorems.DecodingIsStable | uvp-xenpv/uvp-classic_xen_driver-2.6.32to3.0.x/vni_front/2.6.32/virtio_ring.c:244-285 | No operation changes the decoding of a head that stays in flight. |
| VringAccounting.RunIndexDistance | uvp-xenpv/uvp-classic_xen_driver-2.6.32to3.0.x/vni_front/2.6.32/virtio_ring.c:272-285 | Over every run (u16)(avail->idx - last_used_idx) is the number of heads in flight, at most num, however often the indices wrap. |
| VringAccounting.IndexDistance | uvp-xenpv/uvp-classic_xen_driver-2.6.32to3.0.x/vni_front/2.6.32/virtio_ring.c:703-706 | The same for one state, tied to the tokens in data[]. |
| VringAccounting.AddKeepsWindow | uvp-xenpv/uvp-classic_xen_driver-2.6.32to3.0.x/vni_front/2.6.32/virtio_ring.c:276-285 | An add writes an avail slot distinct from that of every position not yet returned, so each of those still holds the head published there. |
| VringHistory.RunOverwritesIff | uvp-xenpv/uvp-classic_xen_driver-2.6.32to3.0.x/vni_front/2.6.32/virtio_ring.c:276-285 | In every run up to the detaching of unused buffers: an add overwrites the avail entry of a buffer in flight if and only if that buffer was last published exactly num adds ago; the entry stands if and only if it is among the last num published. |
| VringHistory.InOrderNeverOverwrites | uvp-xenpv/uvp-classic_xen_driver-2.6.32to3.0.x/vni_front/2.6.32/virtio_ring.c:276-285 | So while every buffer comes back in the order published, no add overwrites the entry of one in flight. |
| VringHistory.StandsIff | uvp-xenpv/uvp-classic_xen_driver-2.6.32to3.0.x/vni_front/2.6.32/virtio_ring.c:276-279 | The entry of a head's last publication still names that head if and only if it is among the last num published. |
| VringAccounting.WindowedIffInOrder | uvp-xenpv/uvp-classic_xen_driver-2.6.32to3.0.x/vni_front/2.6.32/virtio_ring.c:535-589 | The in-flight buffers stay named by as many of the last entries across a get if and only if the buffer returned is the oldest; used for the in-order case only. |
| VringAccounting.WindowedAdd | uvp-xenpv/uvp-classic_xen_driver-2.6.32to3.0.x/vni_front/2.6.32/virtio_ring.c:276-285 | An add never takes a buffer out of the window. |
| VringAccounting.OutOfOrderOverwrites | uvp-xenpv/uvp-classic_xen_driver-2.6.32to3.0.x/vni_front/2.6.32/virtio_ring.c:276-279 | A concrete run of a two-entry ring: after an out-of-order completion an add overwrites the avail entry of a buffer still in flight, so slots distinct from all in-flight entries cannot be promised. |
| VringAccounting.RunTokens | uvp-xenpv/uvp-classic_xen_driver-2.6.32to3.0.x/vni_front/2.6.32/virtio_ring.c:566-574 | Over every run the tokens taken in are exactly those handed back plus those in flight: each is returned at most once and none is lost. |
| KickProtocol.NoKickLost | uvp-xenpv/uvp-classic_xen_driver-2.6.32to3.0.x/vni_front/2.6.32/virtio_ring.c:423-454 | In every interleaving of driver and device: when the device sleeps after re-checking avail.idx and the driver has no unkicked addition, the device has seen every buffer or a notification is pending. Holds across u16 wrap. |
| KickProtocol.DecisionSound | uvp-xenpv/uvp-classic_xen_driver-2.6.32to3.0.x/vni_front/2.6.32/virtio_ring.c:437-450 | A sleeping device whose position lies in the kicked window is notified if it has anything to do. |
| KickProtocol.DecisionIff | uvp-xenpv/uvp-classic_xen_driver-2.6.32to3.0.x/vni_front/2.6.32/virtio_ring.c:437-450 | And it is notified for no other reason: exactly if the index passed its event index, whatever wrapped in between. |
| KickProtocol.UnforcedKickIsLost | uvp-xenpv/uvp-classic_xen_driver-2.6.32to3.0.x/vni_front/2.6.32/virtio_ring.c:287-290 | Without the forced kick at num_added == 2^16 - 1 a run exists in which the device sleeps on a published buffer with no notification pending. |
| InterruptProtocol.EventInReach | uvp-xenpv/uvp-classic_xen_driver-2.6.32to3.0.x/vni_front/2.6.32/virtio_ring.c:621-713 | When virtqueue_enable_cb or _delayed returned true, used_event lies at or after last_used_idx and, with buffers in flight, before the end of what was in flight. |
| InterruptProtocol.NoInterruptLost | uvp-xenpv/uvp-classic_xen_driver-2.6.32to3.0.x/vni_front/2.6.32/virtio_ring.c:669-713 | In every interleaving, once the device has completed what was in flight then, an interrupt has been raised. |
| InterruptProtocol.FirstCompletionInterrupts | uvp-xenpv/uvp-classic_xen_driver-2.6.32to3.0.x/vni_front/2.6.32/virtio_ring.c:669-673 | With nothing in flight the next completion interrupts. |
| InterruptProtocol.FalseMeansWork | uvp-xenpv/uvp-classic_xen_driver-2.6.32to3.0.x/vni_front/2.6.32/virtio_ring.c:649-655 | The re-check answers false exactly when more than the limit is waiting, and then there is a buffer to fetch. |
| QueueRuns.RunShows | uvp-xenpv/uvp-classic_xen_driver-2.6.32to3.0.x/vni_front/2.6.32/virtio_ring.c:217-713 | Every run of the queue's own operations (add, get, kick, disable, both enables) interleaved with a device that follows the standard ends where a run of the kick protocol and a run of the interrupt protocol end: same indices, flags, decisions and notifications, forced kick and re-check included. |
| QueueRuns.RunBooks | uvp-xenpv/uvp-classic_xen_driver-2.6.32to3.0.x/vni_front/2.6.32/virtio_ring.c:217-589 | In every state of such a run each buffer in flight is in exactly one place: published and unread, with the device, or in the used ring; the queue is never marked broken. |
| QueueRuns.SleeperSawAll | uvp-xenpv/uvp-classic_xen_driver-2.6.32to3.0.x/vni_front/2.6.32/virtio_ring.c:423-454 | So on the queue itself: a sleeping device has read everything published or has a notification coming, once num_added is 0. |
| QueueRuns.WaiterInterrupted | uvp-xenpv/uvp-classic_xen_driver-2.6.32to3.0.x/vni_front/2.6.32/virtio_ring.c:621-713 | And a driver told by an enable call that nothing was there is interrupted once what was in flight then is completed. |
| QueueRuns.ReadsWhatWasSent | uvp-xenpv/uvp-classic_xen_driver-2.6.32to3.0.x/vni_front/2.6.32/virtio_ring.c:247-285 | The device's q-th read of the avail ring yields the q-th request added, decoding to exactly its elements (up to 2^16 of them), whatever was added, completed and reclaimed meanwhile. |
| QueueRuns.TakesWhatWasDone | uvp-xenpv/uvp-classic_xen_driver-2.6.32to3.0.x/vni_front/2.6.32/virtio_ring.c:535-589 | virtqueue_get_buf takes completions back in used-ring order, each the head the device put there with the token that came with the buffer, and finds nothing exactly when none is left. |
| QueueRuns.GetFinds | uvp-xenpv/uvp-classic_xen_driver-2.6.32to3.0.x/vni_front/2.6.32/virtio_ring.c:551-566 | Its answer in one state: the oldest completion not taken back, never a bad id. |
| QueueRuns.KickAdd | uvp-xenpv/uvp-classic_xen_driver-2.6.32to3.0.x/vni_front/2.6.32/virtio_ring.c:284-290 | One virtqueue_add is the protocol's addition, and where num_added reaches 2^16 - 1, its kick decision and notification too. |
| QueueRuns.CheckInterrupt | uvp-xenpv/uvp-classic_xen_driver-2.6.32to3.0.x/vni_front/2.6.32/virtio_ring.c:649-713 | The re-check after an enable call, and its answer, are the interrupt protocol's. |
| VirtqueueDriver.Virtqueue.constructor | uvp-xenpv/uvp-classic_xen_driver-2.6.32to3.0.x/vni_front/2.6.32/virtio_ring.c:797-823 | The initialising loop leaves the new ring of the specification. Interrupts are off exactly without a callback. |
| VirtqueueDriver.NewVirtqueue | uvp-xenpv/uvp-classic_xen_driver-2.6.32to3.0.x/vni_front/2.6.32/virtio_ring.c:770-826 | Null exactly for a length that is not a power of two; otherwise a queue satisfying the invariant. |
| VirtqueueDriver.Virtqueue.AddDirect | uvp-xenpv/uvp-classic_xen_driver-2.6.32to3.0.x/vni_front/2.6.32/virtio_ring.c:244-270 | The two filling loops over the free list, in place, leave the state of the specification. |
| VirtqueueDriver.Virtqueue.AddIndirect | uvp-xenpv/uvp-classic_xen_driver-2.6.32to3.0.x/vni_front/2.6.32/virtio_ring.c:116-182 | Building the table and using one descriptor for it, in place, leaves the state of the specification. |
| VirtqueueDriver.BuildTable | uvp-xenpv/uvp-classic_xen_driver-2.6.32to3.0.x/vni_front/2.6.32/virtio_ring.c:143-167 | The filling loops of an indirect table write the out then the in elements, the last without NEXT. |
| VirtqueueDriver.Virtqueue.Add | uvp-xenpv/uvp-classic_xen_driver-2.6.32to3.0.x/vni_front/2.6.32/virtio_ring.c:184-296 | virtqueue_add in place: its whole new state and its result, for every outcome. Result and state are those of AddAnswers, from the arguments alone. |
| VirtqueueDriver.AddSgs | uvp-xenpv/uvp-classic_xen_driver-2.6.32to3.0.x/vni_front/2.6.32/virtio_ring.c:343-365 | The counting loops and the add together publish the flattened request. |
| VirtqueueDriver.AddBuf | uvp-xenpv/uvp-classic_xen_driver-2.6.32to3.0.x/vni_front/2.6.32/virtio_ring.c:312-326 | The two-list form publishes the first out elements, then the next in elements. |
| VirtqueueDriver.CountElements | uvp-xenpv/uvp-classic_xen_driver-2.6.32to3.0.x/vni_front/2.6.32/virtio_ring.c:351-362 | The loops count the out and the in elements. |
| VirtqueueDriver.Virtqueue.Publish | uvp-xenpv/uvp-classic_xen_driver-2.6.32to3.0.x/vni_front/2.6.32/virtio_ring.c:272-290 | Token, avail slot, index, num_added and the forced kick, in place. |
| VirtqueueDriver.Virtqueue.KickPrepare | uvp-xenpv/uvp-classic_xen_driver-2.6.32to3.0.x/vni_front/2.6.32/virtio_ring.c:423-454 | The decision and the reset of num_added. |
| VirtqueueDriver.Virtqueue.Kick | uvp-xenpv/uvp-classic_xen_driver-2.6.32to3.0.x/vni_front/2.6.32/virtio_ring.c:482-486 | At most one notification, exactly when the decision says so. |
| VirtqueueDriver.Virtqueue.FindEnd | uvp-xenpv/uvp-classic_xen_driver-2.6.32to3.0.x/vni_front/2.6.32/virtio_ring.c:503-506 | The loop ends on the last descriptor of the chain, having counted all but that one. |
| VirtqueueDriver.Virtqueue.DetachBuf | uvp-xenpv/uvp-classic_xen_driver-2.6.32to3.0.x/vni_front/2.6.32/virtio_ring.c:489-512 | detach_buf in place: token cleared, table freed, chain spliced in front of the free list, all counted. |
| VirtqueueDriver.Virtqueue.GetBuf | uvp-xenpv/uvp-classic_xen_driver-2.6.32to3.0.x/vni_front/2.6.32/virtio_ring.c:535-589 | virtqueue_get_buf in place, for any used ring: new state, token and length; a null token for nothing new or a bad id. |
| VirtqueueDriver.Virtqueue.DisableCb | uvp-xenpv/uvp-classic_xen_driver-2.6.32to3.0.x/vni_front/2.6.32/virtio_ring.c:601-606 | Only the suppression flag changes. |
| VirtqueueDriver.Virtqueue.EnableCbPrepare | uvp-xenpv/uvp-classic_xen_driver-2.6.32to3.0.x/vni_front/2.6.32/virtio_ring.c:621-637 | The flag is cleared, used_event set, and the index to poll for returned. |
| VirtqueueDriver.Virtqueue.EnableCb | uvp-xenpv/uvp-classic_xen_driver-2.6.32to3.0.x/vni_front/2.6.32/virtio_ring.c:669-673 | Answers whether the used index read afterwards still equals last_used_idx. |
| VirtqueueDriver.Virtqueue.EnableCbDelayed | uvp-xenpv/uvp-classic_xen_driver-2.6.32to3.0.x/vni_front/2.6.32/virtio_ring.c:689-713 | Event index three quarters of the in-flight buffers ahead, computed as the source computes it. |
| VirtqueueDriver.Virtqueue.FindToken | uvp-xenpv/uvp-classic_xen_driver-2.6.32to3.0.x/vni_front/2.6.32/virtio_ring.c:732-734 | The scan stops at the first head with a token. |
| VirtqueueDriver.Virtqueue.DetachUnusedBuf | uvp-xenpv/uvp-classic_xen_driver-2.6.32to3.0.x/vni_front/2.6.32/virtio_ring.c:724-747 | Detaches the first remaining token; a null result comes with everything free. |
| VirtqueueDriver.InvIsReady | uvp-xenpv/uvp-classic_xen_driver-2.6.32to3.0.x/vni_front/2.6.32/virtio_ring.c:244-270 | The ring invariant gives each method what it needs of the linked descriptors. |
| Words.NeedEventIffCrossed | uvp-xenpv/uvp-classic_xen_driver-2.6.32to3.0.x/vni_front/2.6.32/virtio_ring.c:437-448 | The wrap-around event test (sections 2.4.7 and 2.4.9 of VIRTIO 1.0) holds exactly when the event position was crossed, for a move of less than 2^16. |
| Words.SlotOfWrapped | uvp-xenpv/uvp-classic_xen_driver-2.6.32to3.0.x/vni_front/2.6.32/virtio_ring.c:278 | Masking the u16 index of a power-of-two ring gives the slot of the unwrapped position. |
| Words.DistinctSlots | uvp-xenpv/uvp-classic_xen_driver-2.6.32to3.0.x/vni_front/2.6.32/virtio_ring.c:278 | Positions less than a ring apart have different slots. |
| GrantRuns.RunConserves | uvp-xenpv/uvp-classic_xen_driver-3.12.xto3.16.x/xen-platform-pci/gnttab.c:77-101 | Over every run with counts of at least 1 each reference in [8, 512*frames) is on the free list, on one private list or held by a caller, and only there; no list repeats, each ends in GNTTAB_LIST_END, the free list is as long as gnttab_free_count; references 0..7 are never handed out. |
| GrantRuns.RunPages | uvp-xenpv/uvp-classic_xen_driver-3.12.xto3.16.x/xen-platform-pci/gnttab.c:488-522 | Over every run every index below 512*frames has a backing list page inside the array sized from boot_max_nr_grant_frames. |
| GrantRuns.StepGood | uvp-xenpv/uvp-classic_xen_driver-3.12.xto3.16.x/xen-platform-pci/gnttab.c:132-141 | Every allocator operation keeps the lists, the count and the callbacks consistent, and accounts for the reference it moved. |
| GrantRuns.ClaimGood | uvp-xenpv/uvp-classic_xen_driver-3.12.xto3.16.x/xen-platform-pci/gnttab.c:434-442 | A claim fails exactly on an empty private list, and else takes its first reference, which nobody held. |
| GrantRuns.HeldIsBacked | uvp-xenpv/uvp-classic_xen_driver-3.12.xto3.16.x/xen-platform-pci/gnttab.c:71-72 | A reference a caller holds lies in range and has a page, so giving it back touches only backed cells. |
| GrantAllocation.AllocGood | uvp-xenpv/uvp-classic_xen_driver-3.12.xto3.16.x/xen-platform-pci/gnttab.c:415-426 | Allocation fails exactly when too few entries are free and no expansion is possible, and then leaves every list as it was; on success the private list has exactly `count` references. |
| GrantAllocation.DetachGood | uvp-xenpv/uvp-classic_xen_driver-3.12.xto3.16.x/xen-platform-pci/gnttab.c:92-97 | The detached list is the first `count` references of the free list, in order. |
| GrantAllocation.TakeGood | uvp-xenpv/uvp-classic_xen_driver-3.12.xto3.16.x/xen-platform-pci/gnttab.c:103 | A single entry is one nobody held; -ENOSPC exactly when nothing is free and no expansion is possible. |
| GrantAllocation.CountedIffAsked | uvp-xenpv/uvp-classic_xen_driver-3.12.xto3.16.x/xen-platform-pci/gnttab.c:92-97 | gnttab_free_count stays the length of the free list if and only if at least one entry is asked for: a count of 0 cuts one entry off uncounted. |
| GrantAllocation.ExpandInv | uvp-xenpv/uvp-classic_xen_driver-3.12.xto3.16.x/xen-platform-pci/gnttab.c:911-926 | An expansion succeeds exactly when both limits, the mapping and the page supply allow it, then frees at least what was asked; a failed one leaves lists and counts alone. |
| GrantInvariant.ExtraIsLeast | uvp-xenpv/uvp-classic_xen_driver-3.12.xto3.16.x/xen-platform-pci/gnttab.c:911-926 | An expansion asks for the fewest frames that hold the entries. |
| GrantAllocation.InitInv | uvp-xenpv/uvp-classic_xen_driver-3.12.xto3.16.x/xen-platform-pci/gnttab.c:942-976 | The start-up free list is consistent, nothing handed out. |
| GrantInvariant.CheckFiresTheMet | uvp-xenpv/uvp-classic_xen_driver-3.12.xto3.16.x/xen-platform-pci/gnttab.c:105-130 | A callback pass fires exactly the callbacks whose count is met, once each; every one left asks for more than is free, and queued is set exactly for list members. |
| GrantInvariant.FiredInOrder | uvp-xenpv/uvp-classic_xen_driver-3.12.xto3.16.x/xen-platform-pci/gnttab.c:105-124 | Callbacks are called in list order .. |
| GrantInvariant.KeptReversed | uvp-xenpv/uvp-classic_xen_driver-3.12.xto3.16.x/xen-platform-pci/gnttab.c:105-124 | .. and those kept end up in the reverse of it. |
| GrantInvariant.PutFreeInv | uvp-xenpv/uvp-classic_xen_driver-3.12.xto3.16.x/xen-platform-pci/gnttab.c:132-141 | Giving one reference back keeps the invariant and takes it from those held. |
| GrantInvariant.ReleaseInv | uvp-xenpv/uvp-classic_xen_driver-3.12.xto3.16.x/xen-platform-pci/gnttab.c:444-450 | Releasing onto a private list does likewise. |
| GrantInvariant.ClaimInv | uvp-xenpv/uvp-classic_xen_driver-3.12.xto3.16.x/xen-platform-pci/gnttab.c:434-442 | Claiming hands out the first of the private list and writes no link. |
| GrantInvariant.FreeRefsInv | uvp-xenpv/uvp-classic_xen_driver-3.12.xto3.16.x/xen-platform-pci/gnttab.c:394-413 | Splicing a private list back keeps the invariant; nothing is handed out or lost. |
| GrantInvariant.RequestInv | uvp-xenpv/uvp-classic_xen_driver-3.12.xto3.16.x/xen-platform-pci/gnttab.c:452-469 | Queuing a callback keeps the invariant; a queued one is not queued twice. |
| GrantInvariant.RequestServes | uvp-xenpv/uvp-classic_xen_driver-3.12.xto3.16.x/xen-platform-pci/gnttab.c:452-469 | A callback that is queued stays as it is; another is called at once, once, where its count is free, and else waits with exactly that count; no list, count or other callback changes. |
| GrantInvariant.RequestAnswered | uvp-xenpv/uvp-classic_xen_driver-3.12.xto3.16.x/xen-platform-pci/gnttab.c:452-469 | The same where others are waiting for what is free already. |
| GrantInvariant.CancelInv | uvp-xenpv/uvp-classic_xen_driver-3.12.xto3.16.x/xen-platform-pci/gnttab.c:471-486 | Cancelling takes exactly that callback off the list. |
| GrantInvariant.GrowInv | uvp-xenpv/uvp-classic_xen_driver-3.12.xto3.16.x/xen-platform-pci/gnttab.c:488-516 | A successful grow puts the new references, all backed, in front of the free list and counts them. |
| GrantInvariant.FailedGrowInv | uvp-xenpv/uvp-classic_xen_driver-3.12.xto3.16.x/xen-platform-pci/gnttab.c:518-521 | A grow that runs out of pages changes no link below the limit, no head and no count. |
| GrantInvariant.WalkedList | uvp-xenpv/uvp-classic_xen_driver-3.12.xto3.16.x/xen-platform-pci/gnttab.c:402-405 | Following links from a head to GNTTAB_LIST_END yields the list and ends within the table. |
| GrantTable.SplitLayout | uvp-xenpv/uvp-classic_xen_driver-3.12.xto3.16.x/xen-platform-pci/gnttab.c:92-97 | Cutting the free list after its n-th entry gives two proper lists. |
| GrantTable.SpliceLayout | uvp-xenpv/uvp-classic_xen_driver-3.12.xto3.16.x/xen-platform-pci/gnttab.c:402-409 | Joining a private list in front of the free list gives one proper list. |
| GrantTable.GrowLayout | uvp-xenpv/uvp-classic_xen_driver-3.12.xto3.16.x/xen-platform-pci/gnttab.c:503-510 | Linking a range of new entries in front of the free list gives one proper list. |
| GrantAllocator.Allocator.constructor | uvp-xenpv/uvp-classic_xen_driver-3.12.xto3.16.x/xen-platform-pci/gnttab.c:942-976 | The start-up loops leave the start-up state. |
| GrantAllocator.Allocator.LinkEntries | uvp-xenpv/uvp-classic_xen_driver-3.12.xto3.16.x/xen-platform-pci/gnttab.c:503-507 | The linking loop writes exactly the links of the range. |
| GrantAllocator.Allocator.DoFreeCallbacks | uvp-xenpv/uvp-classic_xen_driver-3.12.xto3.16.x/xen-platform-pci/gnttab.c:105-130 | The list-rebuilding loop leaves the state of the specification: kept callbacks reversed in front, the others unqueued and called in order. |
| GrantAllocator.Allocator.GetPages | uvp-xenpv/uvp-classic_xen_driver-3.12.xto3.16.x/xen-platform-pci/gnttab.c:497-501 | The page loop and its undo: all pages, or every new pointer given back. |
| GrantAllocator.Allocator.Grow | uvp-xenpv/uvp-classic_xen_driver-3.12.xto3.16.x/xen-platform-pci/gnttab.c:488-522 | grow_gnttab_list in place, both exits. |
| GrantAllocator.Allocator.ExpandBy | uvp-xenpv/uvp-classic_xen_driver-3.12.xto3.16.x/xen-platform-pci/gnttab.c:911-926 | gnttab_expand in place. |
| GrantAllocator.Allocator.CutFront | uvp-xenpv/uvp-classic_xen_driver-3.12.xto3.16.x/xen-platform-pci/gnttab.c:92-97 | The walk and the cut of get_free_entries in place. |
| GrantAllocator.Allocator.AllocReferences | uvp-xenpv/uvp-classic_xen_driver-3.12.xto3.16.x/xen-platform-pci/gnttab.c:77-101 | get_free_entries for a private list, with growth, in place. |
| GrantAllocator.Allocator.GetFreeEntry | uvp-xenpv/uvp-classic_xen_driver-3.12.xto3.16.x/xen-platform-pci/gnttab.c:77-103 | get_free_entry in place. |
| GrantAllocator.Allocator.ClaimReference | uvp-xenpv/uvp-classic_xen_driver-3.12.xto3.16.x/xen-platform-pci/gnttab.c:434-442 | The claim in place. |
| GrantAllocator.Allocator.ReleaseReference | uvp-xenpv/uvp-classic_xen_driver-3.12.xto3.16.x/xen-platform-pci/gnttab.c:444-450 | The release in place. |
| GrantAllocator.Allocator.PutFreeEntry | uvp-xenpv/uvp-classic_xen_driver-3.12.xto3.16.x/xen-platform-pci/gnttab.c:132-141 | put_free_entry in place, callbacks included. |
| GrantAllocator.Allocator.LastOf | uvp-xenpv/uvp-classic_xen_driver-3.12.xto3.16.x/xen-platform-pci/gnttab.c:402-405 | The walk to the end finds the last reference and the length. |
| GrantAllocator.Allocator.FreeReferences | uvp-xenpv/uvp-classic_xen_driver-3.12.xto3.16.x/xen-platform-pci/gnttab.c:394-413 | gnttab_free_grant_references in place, the empty list included. |
| GrantAllocator.Allocator.RequestCallback | uvp-xenpv/uvp-classic_xen_driver-3.12.xto3.16.x/xen-platform-pci/gnttab.c:452-469 | Queued once with its count, then the pass; the callback is answered as RequestAnswered says. |
| GrantAllocator.Allocator.CancelCallback | uvp-xenpv/uvp-classic_xen_driver-3.12.xto3.16.x/xen-platform-pci/gnttab.c:471-486 | The search and unlink in place. |
| DeferredTheorems.RunPlaces | uvp-xenpv/uvp-classic_xen_driver-3.12.xto3.16.x/xen-platform-pci/gnttab.c:187-300 | In every interleaving each grant reference is in exactly one place: free, held by a driver, in one end-of-access call, once on deferred_list, in the timer handler's hand, or leaked; and a free one has no flag set. |
| DeferredTheorems.RunFreesCleared | uvp-xenpv/uvp-classic_xen_driver-3.12.xto3.16.x/xen-platform-pci/gnttab.c:187-199 | A reference reaches the free list, and its page is freed, only after its flags went in one step from a value without reading or writing to 0. |
| DeferredTheorems.ClearingIsOneStep | uvp-xenpv/uvp-classic_xen_driver-3.12.xto3.16.x/xen-platform-pci/gnttab.c:192-197 | Every clearing recorded is a successful compare-and-swap on that value. |
| DeferredTheorems.RunOnceEach | uvp-xenpv/uvp-classic_xen_driver-3.12.xto3.16.x/xen-platform-pci/gnttab.c:220-300 | Every (ref, page) whose access is ended is on the way exactly once or had its reference freed exactly once, never both; its page is freed at most once, after the reference. |
| DeferredTheorems.ListedOrFreed | uvp-xenpv/uvp-classic_xen_driver-3.12.xto3.16.x/xen-platform-pci/gnttab.c:220-266 | A listed entry is not freed, and neither list repeats an entry. |
| DeferredHandler.Attempt | uvp-xenpv/uvp-classic_xen_driver-3.12.xto3.16.x/xen-platform-pci/gnttab.c:187-199 | An attempt nobody interferes with clears the flags and frees reference and page, or, with reading or writing set, changes nothing. |
| DeferredHandler.InUseWasBusy | uvp-xenpv/uvp-classic_xen_driver-3.12.xto3.16.x/xen-platform-pci/gnttab.c:187-199 | In every run an attempt ends in use only if reading or writing was set at some point. |
| DeferredHandler.HandlerRun | uvp-xenpv/uvp-classic_xen_driver-3.12.xto3.16.x/xen-platform-pci/gnttab.c:220-266 | A run of the handler left to itself tries the first ten entries, or all there are: it frees those no longer in use, in order, puts the others back in order behind the rest, and sets the timer again if and only if something is listed. |
| DeferredHandler.DeferQueues | uvp-xenpv/uvp-classic_xen_driver-3.12.xto3.16.x/xen-platform-pci/gnttab.c:268-290 | A deferred entry queues up behind the others, and the timer is set. |
| DeferredHandler.LeaksCounted | uvp-xenpv/uvp-classic_xen_driver-3.12.xto3.16.x/xen-platform-pci/gnttab.c:268-290 | Over every run a reference is leaked exactly where there is no memory to defer it. |
| DeferredTheorems.StepInv | uvp-xenpv/uvp-classic_xen_driver-3.12.xto3.16.x/xen-platform-pci/gnttab.c:187-300 | Every step of a caller, the handler or the remote domain keeps the protocol invariant. |
| DeferredTimer.RunTimer | uvp-xenpv/uvp-classic_xen_driver-3.12.xto3.16.x/xen-platform-pci/gnttab.c:261-264 | No entry is stranded: while one is listed, the timer is pending or the handler is at work. |
| DeferredTimer.AstrayIffStale | uvp-xenpv/uvp-classic_xen_driver-3.12.xto3.16.x/xen-platform-pci/gnttab.c:226-234 | The handler takes an entry off an empty list exactly when it is started on one. |
| DeferredTimer.StaleIff | uvp-xenpv/uvp-classic_xen_driver-3.12.xto3.16.x/xen-platform-pci/gnttab.c:255-264 | That state arises exactly when a handler run during which something was deferred ends with every entry freed. |
| DeferredTimer.QuietNeverAstray | uvp-xenpv/uvp-classic_xen_driver-3.12.xto3.16.x/xen-platform-pci/gnttab.c:220-266 | If nothing is deferred while the handler runs, it never happens. |
| DeferredTimer.AstrayRun | uvp-xenpv/uvp-classic_xen_driver-3.12.xto3.16.x/xen-platform-pci/gnttab.c:220-290 | A concrete run in which it does: deferred with the lock dropped, freed by the same handler run, timer still pending. |
| XenstoreRing.OutputChunkIsFree | uvp-xenpv/uvp-classic_xen_driver-3.12.xto3.16.x/xen-platform-pci/xenbus_comms.c:95-107 | For any indices that pass the check, across u32 wrap, the output chunk lies inside the buffer, touches no unread byte, and is empty exactly when the ring is full. |
| XenstoreRing.InputChunkIsOldest | uvp-xenpv/uvp-classic_xen_driver-3.12.xto3.16.x/xen-platform-pci/xenbus_comms.c:110-118 | The input chunk is the oldest unread bytes in order, inside the buffer, empty exactly when there are none. |
| XenstoreRing.ConsumeDropsOldest | uvp-xenpv/uvp-classic_xen_driver-3.12.xto3.16.x/xen-platform-pci/xenbus_comms.c:224-230 | Advancing the consumer removes exactly the oldest bytes. |
| XenstoreRing.ProduceAppends | uvp-xenpv/uvp-classic_xen_driver-3.12.xto3.16.x/xen-platform-pci/xenbus_comms.c:161-167 | Advancing the producer over a filled chunk appends exactly it. |
| XenstoreRing.DistConsume | uvp-xenpv/uvp-classic_xen_driver-3.12.xto3.16.x/xen-platform-pci/xenbus_comms.c:95-98 | prod - cons modulo 2^32 shrinks by what is consumed. |
| XenstoreRing.DistProduce | uvp-xenpv/uvp-classic_xen_driver-3.12.xto3.16.x/xen-platform-pci/xenbus_comms.c:95-98 | It grows by what is produced. |
| XenstoreRing.Ring.constructor | uvp-xenpv/uvp-classic_xen_driver-3.12.xto3.16.x/xen-platform-pci/xenbus_comms.c:244-262 | An empty ring satisfies the FIFO law. |
| XenstoreRing.Ring.XbWrite | uvp-xenpv/uvp-classic_xen_driver-3.12.xto3.16.x/xen-platform-pci/xenbus_comms.c:127-174 | For any interleaving with a peer that keeps to its own index: bytes taken followed by bytes in the ring are the bytes sent, which grew by a prefix of the data, all of it on success. -EIO if and only if an index pair it read fails the check, which takes a corrupt peer. Interrupted only with the ring full and data left, by a pending signal or for want of further moves; with an honest peer and room for the data it succeeds. The peer is notified if and only if something was sent. |
| XenstoreRing.Ring.XbRead | uvp-xenpv/uvp-classic_xen_driver-3.12.xto3.16.x/xen-platform-pci/xenbus_comms.c:193-239 | The same for reading: the bytes returned are the next ones sent; interrupted only with the ring empty; with an honest peer and the bytes there it succeeds. |
| XenstoreRing.Ring.Wait | uvp-xenpv/uvp-classic_xen_driver-3.12.xto3.16.x/xen-platform-pci/xenbus_comms.c:137-142 | A wait is over at once where there is room or data, whatever signals are pending, and interrupted exactly if there is still none, by a pending signal or for want of further moves. |
| XenstoreRing.Ring.PutChunk | uvp-xenpv/uvp-classic_xen_driver-3.12.xto3.16.x/xen-platform-pci/xenbus_comms.c:152-167 | Copy and advance with the peer moving at any point. |
| XenstoreRing.Ring.TakeChunk | uvp-xenpv/uvp-classic_xen_driver-3.12.xto3.16.x/xen-platform-pci/xenbus_comms.c:215-230 | Copy out and advance with the peer moving at any point. |
| EventScan.EventChannels.Interrupt | uvp-xenpv/uvp-classic_xen_driver-3.12.xto3.16.x/xen-platform-pci/evtchn.c:235-327 | From every selector, pending, mask and saved-cursor state the scan ends; exactly the ports pending, unmasked and in a selected word are cleared, each bound one calling its handler once, in their turn: from the first selected word cyclically after the saved one, at the bit cyclically after the saved bit (bit 0 having wrapped round), word by word, the bits passed over last. The cursors are left at the last bound port; masked bits and other words are untouched. |
| EventScan.EventChannels.ScanSelected | uvp-xenpv/uvp-classic_xen_driver-3.12.xto3.16.x/xen-platform-pci/evtchn.c:257-323 | The outer loop, with that order. |
| EventScan.EventChannels.ScanWord | uvp-xenpv/uvp-classic_xen_driver-3.12.xto3.16.x/xen-platform-pci/evtchn.c:275-319 | The inner loop processes the set bits from the bit after the cursor to the end of the word. |
| EventScan.EventChannels.ScanOne | uvp-xenpv/uvp-classic_xen_driver-3.12.xto3.16.x/xen-platform-pci/evtchn.c:276-317 | One round of it: the first set bit from the cursor on, and what is then still to come. |
| EventScan.EventChannels.ProcessPort | uvp-xenpv/uvp-classic_xen_driver-3.12.xto3.16.x/xen-platform-pci/evtchn.c:287-317 | One port: cleared, its handler called if bound, cursors saved only then. |
| EventScan.CalledOnce | uvp-xenpv/uvp-classic_xen_driver-3.12.xto3.16.x/xen-platform-pci/evtchn.c:291-308 | A repetition-free list of ports calls the handler of each bound port exactly once, and no other. |
| EventScan.QuietMeansAll | uvp-xenpv/uvp-classic_xen_driver-3.12.xto3.16.x/xen-platform-pci/evtchn.c:321-323 | When every selected word is quiet, the ports processed are exactly the due ones. |
| EventScan.SoundScan | uvp-xenpv/uvp-classic_xen_driver-3.12.xto3.16.x/xen-platform-pci/evtchn.c:275-319 | One more scan adds only due ports, and none a second time. |
| EventScan.FullScanQuiets | uvp-xenpv/uvp-classic_xen_driver-3.12.xto3.16.x/xen-platform-pci/evtchn.c:321-323 | A scan from bit 0 leaves its word with nothing to do, which is what bounds the revisits. |
| EventDelivery.NoEventLost | uvp-xenpv/uvp-classic_xen_driver-3.12.xto3.16.x/xen-platform-pci/evtchn.c:224-262 | The hypervisor raises and unmasks a port in separate steps (its bit, the test, the selector, the upcall flag), interleaved with other ports and with the handler's reads: an active port while the handler is idle is marked or about to be, and a marked one has an upcall pending or about to be; with no such step under way, both are there. |
| EventDelivery.NoEventForgotten | uvp-xenpv/uvp-classic_xen_driver-3.12.xto3.16.x/xen-platform-pci/evtchn.c:224-323 | The same while the handler runs, for an active port outside the words it holds, pending and mask bits being read one after the other in either order. |
| EventDelivery.OtherOrderLoses | uvp-xenpv/uvp-classic_xen_driver-3.12.xto3.16.x/xen-platform-pci/evtchn.c:252-262 | Clearing the selector before the master flag admits a run that loses an event. |
| ScsiSegments.CalculateSegs | uvp-xenpv/uvp-classic_xen_driver-3.12.xto3.16.x/xen-scsi/scsifront.c:420-448 | The counting loops return the number of segments the emitting loops emit. |
| ScsiSegments.SegmentsCover | uvp-xenpv/uvp-classic_xen_driver-3.12.xto3.16.x/xen-scsi/scsifront.c:510-604 | The segments, in order, cover exactly the first min(data_len, total) bytes of the scatter list. |
| ScsiSegments.SegmentsInside | uvp-xenpv/uvp-classic_xen_driver-3.12.xto3.16.x/xen-scsi/scsifront.c:545-546 | Each segment is non-empty and inside one page. |
| ScsiSegments.SegmentsSum | uvp-xenpv/uvp-classic_xen_driver-3.12.xto3.16.x/xen-scsi/scsifront.c:510-604 | Their lengths sum to min(data_len, total). |
| ScsiSegments.SegmentsAre | uvp-xenpv/uvp-classic_xen_driver-3.12.xto3.16.x/xen-scsi/scsifront.c:420-448 | There is one segment per page touched, element by element. |
| ScsiSegments.CheckMisses | uvp-xenpv/uvp-classic_xen_driver-3.12.xto3.16.x/xen-scsi/scsifront.c:501-503 | For every list and length the segments are those the driver's size check computes, plus one for each page's worth of bytes unused between the first byte and the end of the last page. |
| ScsiSegments.CheckCountsIff | uvp-xenpv/uvp-classic_xen_driver-3.12.xto3.16.x/xen-scsi/scsifront.c:501-503 | So the check counts the segments if and only if those gaps come to less than a page. |
| ScsiSegments.PackedCounts | uvp-xenpv/uvp-classic_xen_driver-3.12.xto3.16.x/xen-scsi/scsifront.c:501-503 | It does where every element but the first starts, and every one but the last ends, on a page boundary. |
| ScsiSegments.Straddling | uvp-xenpv/uvp-classic_xen_driver-3.12.xto3.16.x/xen-scsi/scsifront.c:501-503 | Elements of two bytes across a page boundary take two segments each, while the check sees two pages for all of them. |
| ScsiSegments.AtMostElements | uvp-xenpv/uvp-classic_xen_driver-3.12.xto3.16.x/xen-scsi/scsifront.c:420-448 | With every element inside its first page there are at most as many segments as elements. |
| ScsiSegments.SameNumbersIff | uvp-xenpv/uvp-classic_xen_driver-3.12.xto3.16.x/xen-scsi/scsifront.c:167-202 | Completion of a read, which indexes grants by element and stops at an element reached that goes beyond its page, finds the right grant if and only if elements without bytes come last. |
| ScsiSegments.EmptyBetween | uvp-xenpv/uvp-classic_xen_driver-3.12.xto3.16.x/xen-scsi/scsifront.c:167-202 | An input that fails: an element without bytes between two others. |
| ScsiSegments.FrameReadsBack | uvp-xenpv/uvp-classic_xen_driver-3.12.xto3.16.x/xen-scsi/scsifront.c:586-597 | Reading indirect frames at (k / 512, k % 512) gives back segment k. |
| ScsiSegments.FramesGrow | uvp-xenpv/uvp-classic_xen_driver-3.12.xto3.16.x/xen-scsi/scsifront.c:516-539 | Emitting one more segment opens a frame exactly when the last is full. |
| ScsiGrantPool.PutAllOk | uvp-xenpv/uvp-classic_xen_driver-3.12.xto3.16.x/xen-scsi/scsifront.c:202-264 | Whatever grants come back, mapped or ended, the pool stays persistent grants then invalid ones, with persistent_gnts_c the length of the former. |
| ScsiGrantPool.Reused | uvp-xenpv/uvp-classic_xen_driver-3.12.xto3.16.x/xen-scsi/scsifront.c:214-240 | A grant kept mapped is the next to be handed out; one that was ended comes after all others in the pool. |
| ScsiGrantPool.PoolSuffices | uvp-xenpv/uvp-classic_xen_driver-3.12.xto3.16.x/xen-scsi/xenbus.c:743 | With an id to spare the pool has a whole request's grants. |
| ScsiGrantPool.FramesSuffice | uvp-xenpv/uvp-classic_xen_driver-3.12.xto3.16.x/xen-scsi/xenbus.c:747-761 | Likewise the pages set aside for indirect frames. |
| ScsiGrantPool.TakeManyIff | uvp-xenpv/uvp-classic_xen_driver-3.12.xto3.16.x/xen-scsi/scsifront.c:71-105 | n grants can be had if and only if the pool has n and persistent grants plus set-aside references make n; they are the front of the pool, persistent ones first. |
| ScsiGrantPool.RequestServed | uvp-xenpv/uvp-classic_xen_driver-3.12.xto3.16.x/xen-scsi/scsifront.c:470-487 | For a request within the negotiated limit, with max_grefs - persistent_gnts_c references set aside, neither check of get_grant can fail. |
| ScsiFront.Front.constructor | uvp-xenpv/uvp-classic_xen_driver-3.12.xto3.16.x/xen-scsi/xenbus.c:719-761 | The sizing of the pool establishes conservation: grants for every request the ring holds, no reference yet, the segment limit as negotiated, frame pages only without persistent grants. |
| ScsiFront.Front.FillGrantBuffer | uvp-xenpv/uvp-classic_xen_driver-3.12.xto3.16.x/xen-scsi/xenbus.c:51-91 | All grants are put in front; when memory runs out the pool is emptied, and the closing check holds exactly if it was empty before. |
| ScsiFront.Front.GetGrant | uvp-xenpv/uvp-classic_xen_driver-3.12.xto3.16.x/xen-scsi/scsifront.c:71-105 | get_grant in place. |
| ScsiFront.Front.TakeGrants | uvp-xenpv/uvp-classic_xen_driver-3.12.xto3.16.x/xen-scsi/scsifront.c:516-555 | The one or two grants of a segment, a frame page taken first where one opens: which of the pool, with which reference, for which page. |
| ScsiFront.GrantedLater | uvp-xenpv/uvp-classic_xen_driver-3.12.xto3.16.x/xen-scsi/scsifront.c:71-105 | Grant j of what is left after n is grant n + j of what there was, reference and page included. |
| ScsiFront.Front.EmitElement | uvp-xenpv/uvp-classic_xen_driver-3.12.xto3.16.x/xen-scsi/scsifront.c:510-604 | The inner emitting loop: the segments of one element, each with the grant and the page it is given. |
| ScsiFront.Front.Emit | uvp-xenpv/uvp-classic_xen_driver-3.12.xto3.16.x/xen-scsi/scsifront.c:510-604 | Both emitting loops: every segment with a grant of its own, the one at its place in the pool, asked for with the first page of its element; frames filled in order; grants, references and frame pages taken from the front. |
| ScsiFront.GrantsRightPagesIff | uvp-xenpv/uvp-classic_xen_driver-3.12.xto3.16.x/xen-scsi/scsifront.c:548-552 | Of a request mapped without persistent grants the back end is given the right bytes if and only if each persistent grant that comes up for a segment is of that segment's page and every other segment lies in the first page of its element. |
| ScsiFront.FreshGrantsRightIff | uvp-xenpv/uvp-classic_xen_driver-3.12.xto3.16.x/xen-scsi/scsifront.c:548-552 | With no persistent grant coming up: if and only if the transferred part of every element lies in the element's first page (the frame number passed does not advance). |
| ScsiFront.TwoPagesMissed | uvp-xenpv/uvp-classic_xen_driver-3.12.xto3.16.x/xen-scsi/scsifront.c:548-552 | An input that fails: one element of two pages. |
| ScsiFront.FramePageForData | uvp-xenpv/uvp-classic_xen_driver-3.12.xto3.16.x/xen-scsi/scsifront.c:84-104 | A run that fails: a frame's grant returned still mapped goes to the front of the pool, and the next request's first segment is granted that frame's page. |
| ScsiFront.WithinLimitIff | uvp-xenpv/uvp-classic_xen_driver-3.12.xto3.16.x/xen-scsi/scsifront.c:468-505 | A request is within the segment limit if and only if the pages the size check sees and the pages' worth of gaps it does not see are. |
| ScsiFront.PackedWithinLimit | uvp-xenpv/uvp-classic_xen_driver-3.12.xto3.16.x/xen-scsi/xenbus.c:700-712 | A packed list of at most the host's max_sectors, which is one page less than the limit, is within it and passes the check. |
| ScsiFront.SinglePagesWithinLimit | uvp-xenpv/uvp-classic_xen_driver-3.12.xto3.16.x/xen-scsi/scsifront.c:806-808 | So is a list of at most sg_tablesize elements, each inside one page, as the host template asks for. |
| ScsiFront.StraddlingPasses | uvp-xenpv/uvp-classic_xen_driver-3.12.xto3.16.x/xen-scsi/scsifront.c:501-505 | An input that fails: elements across page boundaries, no more of them than the table takes, pass the check with more segments than the limit. |
| ScsiFront.OnePageOver | uvp-xenpv/uvp-classic_xen_driver-3.12.xto3.16.x/xen-scsi/scsifront.c:470-473 | Another: with indirect requests the check allows for the frame too, so one element of limit + 1 pages passes. |
| ScsiFront.ReadBack | uvp-xenpv/uvp-classic_xen_driver-3.12.xto3.16.x/xen-scsi/scsifront.c:586-597 | Segment k is read back with its own grant, offset and length, from the ring slot or from its frame. |
| ScsiFront.Front.MapData | uvp-xenpv/uvp-classic_xen_driver-3.12.xto3.16.x/xen-scsi/scsifront.c:450-612 | Mapping keeps conservation. -ENOMEM exactly when references are needed and there are none, -E2BIG exactly when the size check fails, for any number of segments; both leave pool, frame pages and shadow array unchanged. Otherwise the request is the emitted one and its grants are recorded. |
| ScsiFront.Front.GiveBack | uvp-xenpv/uvp-classic_xen_driver-3.12.xto3.16.x/xen-scsi/scsifront.c:214-241 | The returning loop in place. |
| ScsiFront.Front.Complete | uvp-xenpv/uvp-classic_xen_driver-3.12.xto3.16.x/xen-scsi/scsifront.c:148-265 | Completion keeps order, count and conservation, returning exactly what the request held; without persistent grants a frame page leaks exactly for each indirect grant still mapped. |
| ScsiFront.Front.DrainPool | uvp-xenpv/uvp-classic_xen_driver-3.12.xto3.16.x/xen-scsi/xenbus.c:122-139 | Draining the pool brings persistent_gnts_c to 0, so its check holds. |
| Balloon.BalloonDriver.Append | uvp-xenpv/uvp-classic_xen_driver-3.12.xto3.16.x/xen-balloon/balloon.c:122-147 | Low pages in front, high behind, counters equal to what is on the list. |
| Balloon.BalloonDriver.Retrieve | uvp-xenpv/uvp-classic_xen_driver-3.12.xto3.16.x/xen-balloon/balloon.c:150-173 | The first page, or nothing exactly when the list is empty. |
| Balloon.BalloonDriver.CurrentTarget | uvp-xenpv/uvp-classic_xen_driver-3.12.xto3.16.x/xen-balloon/balloon.c:207-213 | At most the target, and at most what is owned. |
| Balloon.BalloonDriver.Increase | uvp-xenpv/uvp-classic_xen_driver-3.12.xto3.16.x/xen-balloon/balloon.c:263-335 | The i-th page submitted is the i-th retrieved and gets the i-th frame; current + low + high and the pages owned are unchanged; the list is never found empty. |
| Balloon.BalloonDriver.Repopulate | uvp-xenpv/uvp-classic_xen_driver-3.12.xto3.16.x/xen-balloon/balloon.c:291-317 | The retrieving loop: pages in order, none found with a frame already. |
| Balloon.FramesInOrder | uvp-xenpv/uvp-classic_xen_driver-3.12.xto3.16.x/xen-balloon/balloon.c:299 | Page i has frame i afterwards, and no other page's frame changed. |
| Balloon.BalloonDriver.Decrease | uvp-xenpv/uvp-classic_xen_driver-3.12.xto3.16.x/xen-balloon/balloon.c:337-403 | As many pages as the allocator yields are given up and lose their frame; current + low + high is unchanged; need_sleep exactly when fewer than asked. |
| Balloon.AppendedKeeps | uvp-xenpv/uvp-classic_xen_driver-3.12.xto3.16.x/xen-balloon/balloon.c:388-391 | Appending loses no page. |
| Balloon.BalloonDriver.Round1 | uvp-xenpv/uvp-classic_xen_driver-3.12.xto3.16.x/xen-balloon/balloon.c:426-437 | A round ends the loop exactly when nothing is to be done, and else moves a full batch, all that is left, or reports shortage. |
| Balloon.BalloonDriver.Process | uvp-xenpv/uvp-classic_xen_driver-3.12.xto3.16.x/xen-balloon/balloon.c:413-450 | The worker ends with current == current_target or a shortage reported, never passing the target, in a stated number of rounds; with ample supply it reports none. |
| Balloon.FloorIsContinuous | uvp-xenpv/uvp-classic_xen_driver-3.12.xto3.16.x/xen-balloon/balloon.c:226-261 | The minimum-target function is monotone and grows at most half as fast as memory. |
| Balloon.FloorTable | uvp-xenpv/uvp-classic_xen_driver-3.12.xto3.16.x/xen-balloon/balloon.c:229-254 | It takes the values of the source's table from 16 MiB on, with its gradients between them. |
| Balloon.TargetKeepsFloor | uvp-xenpv/uvp-classic_xen_driver-3.12.xto3.16.x/xen-balloon/balloon.c:454-457 | A new target is what is asked, unless that is below both the floor and the current target: then it is the lower of these. |
| Balloon.FloorNeverForcesGrowth | uvp-xenpv/uvp-classic_xen_driver-3.12.xto3.16.x/xen-balloon/balloon.c:226-261 | The floor is at most the memory there is exactly from 16 MiB on, and never raises a target above the current one. |
| ReplyStream.XenbusFile.ReadPass | uvp-xenpv/uvp-classic_xen_driver-3.12.xto3.16.x/xen-platform-pci/xenbus_dev_frontend.c:144-171 | A pass takes the front of the stream, as much as is wanted, writable and there; it is repeated for ever with nothing changed if and only if no byte is asked for. |
| ReplyStream.XenbusFile.Read | uvp-xenpv/uvp-classic_xen_driver-3.12.xto3.16.x/xen-platform-pci/xenbus_dev_frontend.c:121-176 | A read of any size delivers the next bytes of the stream; a fault before the first byte comes back as a positive number. |
| ReplyStream.XenbusFile.Post | uvp-xenpv/uvp-classic_xen_driver-3.12.xto3.16.x/xen-platform-pci/xenbus_dev_frontend.c:342-353 | A reply or watch event is queued whole or not at all, behind all others. |
| ReplyStream.Stage | uvp-xenpv/uvp-classic_xen_driver-3.12.xto3.16.x/xen-platform-pci/xenbus_dev_frontend.c:185-203 | Staging succeeds exactly when there is memory for every non-empty piece. |
| ReplyStream.XenbusFile.CopyFirst | uvp-xenpv/uvp-classic_xen_driver-3.12.xto3.16.x/xen-platform-pci/xenbus_dev_frontend.c:147-168 | One round of the copy loop. |
| ReplyStream.XenbusFile.constructor | uvp-xenpv/uvp-classic_xen_driver-3.12.xto3.16.x/xen-platform-pci/xenbus_dev_frontend.c:527-550 | A new file has an empty stream. |
| ReplyStream.ParseFlat | uvp-xenpv/uvp-classic_xen_driver-3.12.xto3.16.x/xen-platform-pci/xenbus_dev_frontend.c:342-345 | A stream of framed messages is parsed back as those messages, in order. |
| ReplyStream.DrainedParses | uvp-xenpv/uvp-classic_xen_driver-3.12.xto3.16.x/xen-platform-pci/xenbus_dev_frontend.c:121-176 | Once all is read, in pieces of whatever sizes, what was read parses as exactly the messages queued. |
| NetReceive.ReceiveQueue.ReceiveMergeable | uvp-xenpv/uvp-classic_xen_driver-2.6.32to3.0.x/vni_front/2.6.32/virtio_net.c:346-402 | On success and on every error exit it consumes exactly num_buffers - 1 further buffers or all there are (all of them for a header of 0), counts them, and loses no page; delivered exactly when all were there and fit. |
| NetReceive.ReceiveQueue.TakeRest | uvp-xenpv/uvp-classic_xen_driver-2.6.32to3.0.x/vni_front/2.6.32/virtio_net.c:360-382 | The main loop with its exits. |
| NetReceive.ReceiveQueue.DropRest | uvp-xenpv/uvp-classic_xen_driver-2.6.32to3.0.x/vni_front/2.6.32/virtio_net.c:383-397 | The error loops. |
| NetReceive.ReceiveQueue.ReceiveBuf | uvp-xenpv/uvp-classic_xen_driver-2.6.32to3.0.x/vni_front/2.6.32/virtio_net.c:404-427 | A short frame gives its page back and takes no other buffer; any other takes as many as its header says, is delivered exactly if they were there and fit, and gives back exactly the pages that did not go with the socket buffer. |
| NetReceive.ReceiveQueue.Poll | uvp-xenpv/uvp-classic_xen_driver-2.6.32to3.0.x/vni_front/2.6.32/virtio_net.c:670-684 | Between polls rq->num is the number of buffers in flight; what was received is the packets of the used buffers, as many as the budget allows; a refill happens exactly below half of the most ever posted. |
| NetReceive.PacketsAre | uvp-xenpv/uvp-classic_xen_driver-2.6.32to3.0.x/vni_front/2.6.32/virtio_net.c:670-684 | Those packets are the used buffers, in order, none in two; with budget left they are all of them. |
| NetReceive.WholeDelivered | uvp-xenpv/uvp-classic_xen_driver-2.6.32to3.0.x/vni_front/2.6.32/virtio_net.c:346-427 | Packets as a sound device sends them are delivered, each with its own buffers, in order, whatever follows. |
| NetReceive.ReceiveQueue.TryFill | uvp-xenpv/uvp-classic_xen_driver-2.6.32to3.0.x/vni_front/2.6.32/virtio_net.c:595-618 | Every buffer added is counted, pool pages first; the ring is full afterwards unless pages ran out, which is what the answer says. |
| NetReceive.ReceiveQueue.AddRecvbuf | uvp-xenpv/uvp-classic_xen_driver-2.6.32to3.0.x/vni_front/2.6.32/virtio_net.c:570-586 | A page is posted, or given back, or there is none. |
| NetReceive.ReceiveQueue.GetAPage | uvp-xenpv/uvp-classic_xen_driver-2.6.32to3.0.x/vni_front/2.6.32/virtio_net.c:209-220 | The pool first, then the allocator. |
| NetReceive.ReceiveQueue.FreeUnused | uvp-xenpv/uvp-classic_xen_driver-2.6.32to3.0.x/vni_front/2.6.32/virtio_net.c:1549-1559 | Detaching every buffer brings rq->num to 0, so the BUG_ON cannot fire. |

## Left out

- Weak memory: barriers are no-ops over sequentially consistent steps; interrupts and locks are step boundaries.
- Hypercalls, page tables, P2M and M2P lookups, DMA copies, PCI and MSI-X, sysfs and procfs, module start-up and suspend/resume: foreign calls and wiring. Their results are parameters.
- The duplicate trees (the other kernel versions of the same files), which repeat the same logic with small additions.
- VirtqueueDriver.Virtqueue.Add: the DEBUG-only timing checks; BUG_ON exits are results that change nothing rather than a stop.
- QueueRuns.RunShows: runs end where unused buffers are detached; driver operations are one step each here, while KickProtocol also has the device move inside a kick. The transport's feature bits and the reset of a queue are not modelled.
- VirtqueueDriver.NewVirtqueue: a length of 0, which passes the source's power-of-two test and then runs past the table, and lengths above 2^15, which section 2.4 of VIRTIO 1.0 rules out, are outside its contract.
- KickProtocol.NoKickLost: the device is one that honours section 2.4 of VIRTIO 1.0 (it re-checks avail.idx after publishing avail_event); a device that sleeps without doing so is owed nothing.
- GrantAllocator.Allocator.AllocReferences: count is an unbounded natural number where the source takes 16 bits; the callers' private heads are one map, not variables of their own.
- GrantRuns.RunConserves: runs take counts of at least 1, and the boot-time limit is such that every reference fits the int the source returns.
- GrantAllocation.AllocGood: counts of at least 1; likewise DetachGood, CutFront and AllocReferences. CountedIffAsked has the case of 0.
- GrantAllocation.CountedIffAsked: a count of 0 with the free list empty, where the source reads an entry beyond the table, is outside it.
- GrantAllocator.Allocator.Grow: a list page is a value in the array of pages, so aliasing between two page pointers cannot be expressed; a fresh page is modelled as zeros.
- GrantAllocator.Allocator.DoFreeCallbacks: a callback's own effects while the lock is held are not modelled, only that it is called.
- DeferredTheorems.RunPlaces: gnttab_multi_end_foreign_access and transfers are not modelled; the delay before the still-pending message is left out; a run stops where the handler has gone astray.
- XenstoreRing.Ring.XbWrite: a peer makes finitely many moves; a wait with none left, which in the source has no end, is taken as interrupted.
- EventDelivery.NoEventLost: the hypervisor's steps for one port are serialised by that port's lock, and an unmask is its hypercall.
- EventScan.EventChannels.Interrupt: allocation and binding of interrupts, irq_resume, and the in_handler flag around a call are not modelled.
- ScsiFront.Front.MapData: the copying between scatter list pages and grant pages, the ring entry's header fields and the shadow id list are not modelled; a request that passes the size check with more segments than the limit, which would overrun the shadow arrays, is outside its contract (WithinLimitIff says which), and so is one for which too few frame pages are left after leaks, where the source stops.
- SCSI device resets, whose ids outlive the response, and the older front end's failure path.
- Balloon.BalloonDriver.Append: the pages put on the list at start-up without being counted are not modelled.
- Balloon.BalloonDriver.Decrease: machine frame numbers in frame_list are left out (the page itself is kept), as are zones, accounting of managed pages and the reserved-page assertions.
- Balloon.BalloonDriver.Process: other drivers that change the reservation between two rounds, and the timer and xenstore messages at its end.
- ReplyStream.XenbusFile.Read: a length of 0 is the business of ReadPass; lengths of 2^32 and more, which the unsigned counter cannot hold, are left out; so are waiting readers and the write side.
- NetReceive.ReceiveQueue.ReceiveMergeable: mergeable mode only; big and small buffer modes use the same counters, and delivery in big mode, which passes length 0 on, promises nothing. The first buffer's length, which the source trusts and which can run past its page, is not looked at.
- Transmission, control queue and configuration of the network driver, and xenbus_probe string handling: easy or environment-bound.
