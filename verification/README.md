# A verified model of libvirtio

libvirtio implements the device side of modern virtio devices. This project
models the parts of it that have to stay consistent over every run, and proves
what they promise:

- the **split virtqueue** (`RingLayout`, `DescriptorChains`, `QueueProtocol`,
  `VirtQueue`, `QueueRefinement`, `QueueAccesses`): sections 2.7.5, 2.7.6 and
  2.7.8 of VIRTIO Version 1.2, with its wrapping 16-bit counters, over guest
  bytes;
- the **revocable DMA layer** below it (`GuestMemory`, `Dma`, `LeaseProtocol`):
  interval translation over host arrays, and the lease/revoke/drain protocol
  over all thread interleavings;
- the **multi-queue device loop** of the block and file-system devices
  (`RoundRobin`, `DeviceLoop`, `DeviceLoopInvariant`, `DeviceLoopTheorems`,
  `DeviceLoopWrap`, `DeviceLoopShutdown`);
- **block requests** (`FlatDisk`, `Block`, `PublishedData`; section 5.2.6 of VIRTIO
  1.2);
- **scatter and gather** over chains (`Scatter`), **vsock framing** (`Vsock`;
  section 5.10.6 of VIRTIO 1.2), the **virtio-fs inode table and directory
  paging** (`Inodes`, `Text`, `ReadDir`), and the **network loop** (`NetworkLoop`,
  `Network`).

`dafny verify dfyconfig.toml` checks everything.

## How it is modelled

Code that changes memory in place is a class or a method here: host memory is
one byte array per DMA segment, and the methods that read and write it are
proved against functions on a value, the map from guest address to byte that
`DmaMemory.Contents` reads off the arrays. Protocols between threads are state
machines with one atomic load, store, notification or memory access per step;
their theorems are about every state of every run. A method that another
thread's `revoke` can interrupt lets it happen between any two of its steps
(`Interfere`), unless nobody ever revokes that memory (`revocable`), and a worker
that gives up the inode lock lets any other worker use the table (`Others`). Leases
that other threads hold meanwhile are in `LeaseProtocol`, not in a method's count.
Where a method and its specification share a definition (a ring address, a code, a
limit, a set of accepted inputs), a lemma such as `RingLayout.RingFormat` or
`FlatDisk.ResultTable` says it once more in literal numbers and bytes.

What the model takes for granted:

- Atomics are sequentially consistent. The source uses acquire and release,
  which is weaker for "store `revoked`, then load `active`".
- `Notify` is tokio's: `notify_one` wakes a registered waiter or stores a single
  permit, `notify_waiters` reaches every `Notified` already created, and a
  waiter dropped after `notify_one` gives the permit back.
- The driver keeps the protocol: it has at most `size` heads outstanding. It may
  publish any number of them with one store of the index.
- Descriptor table, available ring and used ring do not overlap, which
  `QueueLayout::validate` does not check. Lemmas that read buffers back ask in
  their `requires` that those do not overlap either.
- Guest memory is stable while one chain is walked or one request is parsed. The
  methods of `VirtQueue` hold it fixed for a whole call; `QueueAccesses` is the
  same ring accesses one by one, with the driver running in between.
- The driver leaves the buffers of a chain alone from its publication until its
  completion, and nobody but the device writes its disk image. One host transfer
  is one step, so transfers in flight together happen one after the other
  (`PublishedData`).
- `usize` has 64 bits.
- Host calls are parameters or arbitrary choices with a stated contract:
  `preadv` and `pwritev` move a prefix of what was asked for, `read_dir` yields
  plain names, `symlink_metadata` may answer differently each time.

## Findings

- A scan looks at every queue unless the counter `next_queue` wraps during it and
  the number of queues does not divide 2^64 (`RoundRobin.WindowVisitsAll`). After
  a scan that does not, no doorbell is lost and bypass is bounded
  (`DeviceLoopTheorems.NoLostDoorbell`, `BoundedBypass`). For every number of
  queues that does not divide 2^64, `DeviceLoopWrap.DoorbellLost` is a run that
  loses one, so the guarantees over all runs hold exactly for the numbers that do
  (`NeverLostIffDivides`, `BypassBoundedIffDivides`).
- `run` waits for the lease count, not for the revoke:
  `DeviceLoopTheorems.OkBeforeRevoke` is a run that returns `Ok` after `stop`
  stored `down` and before it called `revoke`. An `Ok` is final, with no lease
  held ever after, exactly if the memory was revoked when the drain read zero
  (`OkFinalIffRevoked`).
- The lease count can rise again after a drain read zero
  (`LeaseProtocol.CountMayRiseAfterDrain`), but no lease is granted
  (`LeaseProtocol.LeaseSafety`). It stays zero exactly if no caller stands between
  its first look at `revoked` and its increment (`LeaseProtocol.ZeroForeverIff`).
- A directory page smaller than the next record is empty, so a guest that stops
  at the empty page misses the rest; `ReadDir.WholeDirectory` says exactly when
  it misses nothing, and `ReadDir.EntryMissed` is a guest that misses an entry.
- `process_rx` gives up when the receive queue whose turn it is has no chain,
  although others have: `Network.RxPassEmpties`, `Network.FrameLeftBehind`.
- A vsock packet or a network frame read back from the buffers it was written to
  is the same exactly when it filled them (`Vsock.PacketThroughMemory`,
  `Network.FrameThroughMemory`).

## Model

| member | source | states |
|---|---|---|
| `Dma.ChainedClaims` | src/dma.rs:77-99 | checking only neighbours of a sorted list is enough: no address is claimed by two segments |
| `Dma.SortedMappable` | src/dma.rs:77-99 | on the sorted list, the checks hold iff the given list is mappable: not empty, each segment non-empty and below 2^64, every address claimed at most once |
| `Dma.MappableExactly` | src/dma.rs:77-99 | mappable in numbers: at least one segment, none empty or reaching 2^64, no two overlapping |
| `Dma.DmaMemory.CheckSorted` | src/dma.rs:82-92 | the checking loop decides exactly soundness and adjacency |
| `Dma.DmaMemory.New` | src/dma.rs:77-99 | accepts exactly the mappable segment lists and keeps the same segments |
| `Dma.DmaMemory.Translate` | src/dma.rs:155-192 | succeeds iff the range fits and every address in it is mapped, whatever the segment boundaries; the non-empty parts lie inside segments and tile the range in order |
| `Dma.DmaMemory.Lease` | src/dma.rs:133-153 | a lease is granted only if nothing was revoked before and no drain has read zero since a revoke, and is counted once; it is refused as revoked only if another thread revoked, or for its range; a refusal leaves the count as it was |
| `Dma.DmaMemory.WritePart` | src/dma.rs:255-271 | writing one part's slice changes exactly those guest addresses |
| `Dma.DmaMemory.ReadBytes` | src/queue.rs:205-208 | the guest bytes of the range, however segments split it |
| `Dma.DmaMemory.WriteBytes` | src/queue.rs:210-223 | exactly the range changes, and only on success |
| `LeaseProtocol.NextInv` | src/dma.rs:115-153 | every step of every thread keeps: `active` equals the holders between increment and decrement, a sleeping drain has a waker, nothing is granted once a drain saw zero after the revoke |
| `LeaseProtocol.LeaseSafety` | src/dma.rs:115-153 | from the step on where a drain reads zero after `revoke`, no lease is live or about to be granted, at any later state of any run |
| `LeaseProtocol.DrainWakes` | src/dma.rs:119-127 | a drain asleep and not yet woken implies a non-zero count or a dropper about to notify |
| `LeaseProtocol.CountMayRiseAfterDrain` | src/dma.rs:133-147 | a run in which the count is non-zero again after that zero was read |
| `LeaseProtocol.ZeroForeverIff` | src/dma.rs:133-147 | a zero count after the revoke stays zero in every continuation iff no caller is between its first load of `revoked` and its increment |
| `DescriptorChains.FinishedChain` | src/queue.rs:149-173 | a chain that ends repeats no descriptor and has at most `size` of them |
| `DescriptorChains.FlagBits` | src/queue.rs:160-162 | bit 0 of the flags is NEXT, bit 1 is WRITE, whatever the others are |
| `DescriptorChains.Pigeonhole` | src/queue.rs:160-173 | more steps than descriptors means one recurred |
| `DescriptorChains.RevisitNeverEnds` | src/queue.rs:149-173 | a walk that revisits a descriptor has no end and leaves the table nowhere: it is truly cyclic |
| `DescriptorChains.ChainResultUnique` | src/queue.rs:149-173 | the results allowed for finished, escaping and cyclic walks exclude each other, so each is an if-and-only-if |
| `VirtQueue.VirtQueue.ReadChain` | src/queue.rs:149-173 | returns the chain iff the walk ends, the range error iff it leaves the table, the loop error iff it is cyclic; or a revoke came in between |
| `VirtQueue.VirtQueue.ReadDescriptor` | src/queue.rs:175-195 | the table entry at the index, whose bytes are those `DescriptorFormat` names; fails only by revocation |
| `RingLayout.DescriptorFormat` | src/queue.rs:175-195 | entry `i` of the table is bytes 16i to 16i + 15: address in eight, length in four, flags in two, next in two |
| `LittleEndian.DecodeConcat` | src/queue.rs:190-195 | integers are little-endian: what follows n bytes weighs 256^n |
| `QueueProtocol.DecideExact` | src/queue.rs:101-111 | whatever index the driver wrote, n ahead of the counter modulo 2^16: empty iff n is 0, an error iff n exceeds the size, else one is taken |
| `QueueProtocol.PeekExact` | src/queue.rs:101-111 | the wrapping difference of the 16-bit counters says "empty" iff everything published was popped, and never "exceeds queue size" |
| `QueueProtocol.NextSlotIsFree` | src/queue.rs:121-142 | the used slot a completion writes holds no entry the driver has yet to reclaim |
| `QueueProtocol.NextInv` | src/queue.rs:96-142 | every driver and device step, heads published singly or in batches, keeps the rings, the wrapped counters and the unbounded histories in agreement |
| `QueueProtocol.StepRefines` | src/queue.rs:96-142 | each step of the wrapping queue is the like-named step of an unbounded FIFO, a batch appending all its heads |
| `QueueProtocol.RunRefines` | src/queue.rs:96-142 | so is every interleaving, with every unreclaimed used entry intact at every step |
| `QueueProtocol.PopsAndReclaimsInOrder` | src/queue.rs:96-142 | in any run the k-th pop is the k-th published head, the k-th entry reclaimed is the k-th finished one, and the overrun error never happens |
| `RingLayout.AccessesInside` | src/queue.rs:96-195 | on a validated layout every address computed for a slot lies inside its ring, without passing 2^64 |
| `RingLayout.InsideUsable` | src/queue.rs:22-43 | a range inside a usable ring is usable, so leasing it can fail only by revocation |
| `RingLayout.RingFormat` | src/queue.rs:101-140 | the decoded rings in literal offsets: available index at 2, entry i at 4 + 2i, used index at 2, id i at 4 + 8i, length i at 8 + 8i |
| `RingLayout.UsedBytes` | src/queue.rs:128-140 | a used element is eight bytes, id then length, and the used index two |
| `RingLayout.LayoutFormat` | src/queue.rs:22-43 | the accepted layouts in numbers: the sixteen sizes, the least length of each ring, each mapped and below 2^64 |
| `RingLayout.IdWritten` | src/queue.rs:128-132 | writing a used id changes that id in the decoded rings, at the offset of `RingFormat`, and nothing else |
| `RingLayout.LengthWritten` | src/queue.rs:128-133 | writing a used length changes that length, at the offset of `RingFormat`, and nothing else |
| `RingLayout.IndexWritten` | src/queue.rs:135-140 | writing the used index changes the index and nothing else |
| `VirtQueue.Validate` | src/queue.rs:22-43 | accepts exactly the layouts with a power-of-two size and large enough, mapped rings |
| `VirtQueue.VirtQueue.New` | src/queue.rs:87-90 | succeeds exactly on a validated layout, and then all rings are in memory, as every operation needs |
| `VirtQueue.VirtQueue.PeekHead` | src/queue.rs:101-115 | what the ring bytes say is decided, and the head in the slot of the counter |
| `VirtQueue.VirtQueue.Pop` | src/queue.rs:96-119 | the protocol's decision on the same rings; the counter moves exactly when a chain is returned |
| `VirtQueue.VirtQueue.WriteElement` | src/queue.rs:128-133 | id, then length; a revoke leaves neither or only the id; nothing outside the used ring changes |
| `VirtQueue.VirtQueue.Complete` | src/queue.rs:121-142 | id, length, counter, index in this order and nothing else, stopping only by a revoke between two of them |
| `VirtQueue.CompletedBytes` | src/queue.rs:121-142 | after a success, bytes 4 + 8 (n mod size) and on of the used ring are head and length, four bytes each, and bytes 2 and 3 are n + 1 modulo 2^16 |
| `QueueRefinement.PopTakesProtocolSteps` | src/queue.rs:96-119 | a successful `pop` with no driver step inside is peek, head read and commit of the protocol, and returns the next published head |
| `QueueRefinement.PopFindsNothing` | src/queue.rs:96-119 | `pop` returns none iff all published heads were popped, and never the overrun error |
| `QueueRefinement.CompleteTakesProtocolSteps` | src/queue.rs:121-142 | a successful `complete` with no driver step inside is the protocol's store steps in order |
| `QueueRefinement.CompleteStopsAtProtocolStep` | src/queue.rs:121-142 | a `complete` cut short, with no driver step inside, stopped at a state of the protocol, so nothing the used index covers is half written |
| `QueueAccesses.WriteRefines` | src/queue.rs:128-140 | each single write of bytes to the used ring, whatever the driver did before it, is the protocol's store and no more |
| `QueueAccesses.AccessesRefine` | src/queue.rs:96-142 | any interleaving of the single ring accesses of `pop` and `complete` on guest bytes with driver steps and other guest writes is, its repetitions left out and nothing else, a run of the protocol, with the rings in memory the protocol's at every point; so pops and reclaims come in order and no overrun is seen |
| `RoundRobin.WindowVisitsAll` | src/block.rs:527-529 | `n` consecutive attempts look at every one of `n` queues iff the counter does not wrap among them or `n` divides 2^64 |
| `RoundRobin.FairVisitsOnce` | src/block.rs:527-529 | then each queue is looked at exactly once |
| `DeviceLoopTheorems.NextInv` | src/block.rs:504-562 | every step of drivers, kickers, stoppers, workers and loop, ring accesses that land after a revoke among them, keeps the invariant |
| `DeviceLoopTheorems.NoLostDoorbell` | src/block.rs:494-521 | in every state where the loop sleeps unwoken without a permit, after a last scan that did not straddle an uneven wrap, a queue with unpopped entries has a driver between publish and kick, or the loop is in `select!` with 4n or 64 requests in flight or going down |
| `DeviceLoopTheorems.NoLostStop` | src/block.rs:498-521 | asleep with `down` set means some `stop` has yet to notify, or the loop is in `select!` with work in flight that will wake it |
| `DeviceLoopTheorems.SleepingFullHasWork` | src/block.rs:522-562 | asleep with no room left, something is in flight that will wake it |
| `DeviceLoop.FourPerQueue` | src/block.rs:505-510 | with at least one queue, as many requests as four per queue or 64, whichever is less, may be in flight |
| `DeviceLoopTheorems.Conservation` | src/block.rs:504-562 | per queue, popped is completed plus running plus in hand plus abandoned (only after `down`) plus lost (only on an error return); nothing is completed twice; at most 4n, and at most 64, are in flight |
| `DeviceLoopTheorems.OkMeansDrained` | src/block.rs:542-545 | `Ok` is returned only with nothing in flight and after a drain that saw no lease; from that drain on no lease is held in any continuation iff the memory was revoked by then |
| `DeviceLoopTheorems.OkFinalIffRevoked` | src/block.rs:498-502 | the drain that lets `run` return is followed by no lease in any continuation iff `revoked` held at it |
| `DeviceLoopTheorems.OkBeforeRevoke` | src/block.rs:498-502 | a run that returns `Ok` before `stop` has revoked, after which a lease can still be granted |
| `DeviceLoopShutdown.ComesToRest` | src/block.rs:521-558 | once `down` is set, over all queues and any continuation, at most one more chain is popped and at most one more completion published, and only if the loop was past its last look at `down` |
| `DeviceLoopTheorems.PublishedWhole` | src/block.rs:232-322 | at every step, also inside `complete` and after a revoke, each used entry the index covers is whole and names a popped chain whose worker had moved its data, then written its status, by earlier steps |
| `PublishedData.PublishedBytes` | src/block.rs:232-322 | each used entry the index covers was published by a step after which the status byte, and for an OK read exactly the disk window, stood in guest memory: those of the transfer that the chain's own worker made at an earlier step, on the disk as it then was, with the length that transfer came to |
| `PublishedData.TransferUnique` | src/block.rs:246-251 | what a transfer came to, completion and disk found, is determined by the world before and after it, so the one above is no free choice |
| `PublishedData.DiskIsLogged` | src/block.rs:286-291 | at every point of every run the one disk is the image after the transfers made so far, in the order of their steps, and that log only grows |
| `PublishedData.PublishedRead` | src/block.rs:232-322 | whatever the order of pops and completions, a published read whose status byte says OK has in its buffers what the latest of the transfers before its own put in its window |
| `PublishedData.PublishedWrite` | src/block.rs:232-322 | a published write whose status byte says OK has replaced exactly its window by what its buffers held, on a disk that is not read-only, and stays in the log |
| `DeviceLoopTheorems.QueueRuns` | src/block.rs:264-322 | what happens to one queue of the loop over a whole run, its repetitions left out and nothing else, is a run of the queue protocol, so pops and reclaims come in order and no overrun is seen |
| `DeviceLoopTheorems.BoundedBypass` | src/block.rs:522-539 | from a fair window on, a waiting queue sees at most n attempts, the last of n at itself, and is overtaken by at most n - 1 takes from others, across breaks and separate scans |
| `DeviceLoopWrap.DoorbellLost` | src/block.rs:514-539 | for every number of queues that does not divide 2^64, a run in which an entry waits, its driver kicks, a whole scan passes it over and the loop sleeps with nothing owed |
| `DeviceLoopWrap.NeverLostIffDivides` | src/block.rs:514-539 | no run loses a doorbell iff the number of queues divides 2^64 |
| `DeviceLoopWrap.BypassBoundedIffDivides` | src/block.rs:522-539 | every run keeps the bypass bound iff the number of queues divides 2^64 |
| `FlatDisk.ReadDelivers` | src/block.rs:353-455 | an OK read leaves exactly the disk window in its buffers, also after the status byte, reports one plus its length, and changes nothing else |
| `FlatDisk.ResultTable` | src/block.rs:353-455 | the result of every request in numbers: status 0, 1 or 2 and length, or an error, by window, write protection, negotiation, overflow and what the host returned |
| `FlatDisk.Served` | src/block.rs:374-455 | a transfer whose window lies on the disk and that the host makes whole completes with status 0, a read with one plus its length and a write with 1 |
| `FlatDisk.WriteReplaces` | src/block.rs:353-455 | an OK write replaces exactly its window by the gathered payload |
| `FlatDisk.DiskHoldsLastWrites` | src/block.rs:353-455 | after any sequence of requests and host failures every disk byte is the last one put there |
| `FlatDisk.ReadSeesLastWrites` | src/block.rs:353-455 | an OK read after any requests returns those bytes |
| `FlatDisk.ReadOnlyNeverChanges` | src/block.rs:385-389 | no request changes a read-only disk |
| `Block.ParseRequest` | src/block.rs:163-230 | accepts exactly the chains that are block requests, as the request their bytes make them (`RequestBytes`, `RequestShape`); or a revoke came in between |
| `Block.RequestBytes` | src/block.rs:185-196 | a request is a read iff the first four header bytes are 0 0 0 0, a write iff 1 0 0 0, a flush iff 4 0 0 0, else unsupported with that code; its sector is bytes 8 to 15 |
| `Block.RequestShape` | src/block.rs:163-230 | the chains that are requests, in flag bits and lengths: a readable header of 16 bytes, non-empty payload of the right direction, a writable status byte, all mapped |
| `Block.CheckPayload` | src/block.rs:197-217 | succeeds iff every payload descriptor has the right direction, a length and a mapping |
| `Block.LeaseAll` | src/block.rs:238-241 | the parts of all leases, in order, address exactly the payload; a refused lease gives back the others |
| `Block.CheckedLength` | src/block.rs:379-384 | the 64-bit sum over lease parts overflows iff the payload's length does, however segments split it |
| `Block.CheckedUsedLength` | src/block.rs:433-446 | the 32-bit sum from one, with its cast of every part, overflows iff one plus the payload's length does |
| `Block.CheckTransfer` | src/block.rs:374-416 | the checks refuse as the flat disk does, in the cases `ResultTable` lists; past them, offset and length are exact 64-bit values of a window on the disk |
| `Block.ExecuteBlocking` | src/block.rs:353-455 | disk, guest memory and result are those of the flat disk, for whatever the host call returned; `ResultTable` has the result in numbers |
| `Block.WriteStatus` | src/block.rs:457-464 | succeeds iff the status range is one byte long, and then writes that byte alone |
| `Block.FailureKeepsDisk` | src/block.rs:353-455 | a request that ends in an error has not changed the disk |
| `Block.ExecuteRequest` | src/block.rs:232-255 | returns every lease; a completion is returned only with its data moved and its status byte in place; a refused lease changes nothing |
| `Scatter.GatherScattered` | src/network.rs:360-409 | reading a chain back gives the bytes written, then what the rest held |
| `Scatter.ScatterGathered` | src/network.rs:360-409 | writing back what was gathered changes no byte |
| `Scatter.ScatterBytes` | src/network.rs:391-407 | with enough capacity the copying loop cannot run out of ranges; an error leaves a prefix |
| `Scatter.WriteChain` | src/network.rs:373-409 | `Ok` means every byte was copied, which the loop never re-checks; each error has its exact condition, and those found before the loop write nothing |
| `Scatter.WriteReply` | src/fs.rs:642-671 | returns the length written; the "short write" error behind the loop is unreachable |
| `Scatter.ReadChain` | src/network.rs:360-371 | the bytes of all descriptors in order, or why a lease was refused |
| `Vsock.DecodeEncodedHeader` | src/vsock.rs:52-88 | every header survives encoding |
| `Vsock.EncodeDecodedHeader` | src/vsock.rs:52-88 | every 44 bytes survive decoding |
| `Vsock.PacketFormat` | src/vsock.rs:52-108 | a byte string is a packet iff it has 44 header bytes, the type in bytes 28 and 29 is 1 or 2, and the length in bytes 24 to 27 is that of the rest, at most 65536; every field lies where the table of the standard has it |
| `Vsock.ParseFramed` | src/vsock.rs:322-356 | parsing the framing of a valid packet gives the packet |
| `Vsock.FrameParsed` | src/vsock.rs:322-356 | every accepted byte string is framed again identically |
| `Vsock.TrailingBytesRefused` | src/vsock.rs:322-348 | a framed packet with anything behind it is refused |
| `Vsock.PacketThroughMemory` | src/vsock.rs:322-415 | a packet written over buffers is read back from them iff they have exactly its length |
| `Vsock.ReadPacket` | src/vsock.rs:322-348 | the packet the gathered bytes parse to; a writable descriptor is refused |
| `Vsock.WritePacket` | src/vsock.rs:371-415 | `Ok` means the whole framing is in memory and every descriptor is writable; each error has a reason |
| `Inodes.InternKeeps` | src/fs.rs:135-147 | one `id_for_path` keeps the maps inverse to each other, all ids from the root's to `next` in use, and all paths under the root; it changes nothing handed out |
| `Inodes.FreshConsistent` | src/fs.rs:122-133 | a new table knows the root as inode 1 and hands out 2 next |
| `Inodes.IdsForever` | src/fs.rs:122-148 | over any run of table operations an id means the same path forever, and no two paths share one |
| `Inodes.FsInodes.IdForPath` | src/fs.rs:135-147 | the id stored for the path; on overflow an error and an unchanged table |
| `Text.Utf8Exactly` | src/fs.rs:383-386 | the well-formed byte strings are exactly the shortest encodings of sequences of Unicode scalar values |
| `Inodes.GoodNames` | src/fs.rs:383-389 | the names taken are NUL-terminated text, not empty, not "." or "..", without "/" |
| `Inodes.FsInodes.Lookup` | src/fs.rs:377-406 | succeeds iff the name is one plain UTF-8 component, in bytes neither 2E nor 2E 2E and without 2F, of a known parent, found by the host, no symbolic link, with an id left; a failure changes nothing; `starts_with(root)` never fails |
| `ReadDir.Dirent` | src/fs.rs:574-597 | a record's length is its header and name padded to eight bytes |
| `ReadDir.DirentFormat` | src/fs.rs:574-597 | a record's bytes: id, offset, name length, type, name, and fewer than eight zeros up to a multiple of eight |
| `ReadDir.RecordFormat` | src/fs.rs:519-528 | a directory is of type 4, anything else of type 8, and the offset is the entry's position plus one |
| `ReadDir.ParsePage` | src/fs.rs:574-597 | every page decodes to exactly the records it was made of |
| `ReadDir.MakeRecord` | src/fs.rs:519-528 | the record carries the id the table gives the path, also after other workers ran |
| `ReadDir.FillPage` | src/fs.rs:506-539 | the page holds, in order, the records of the entries from the offset on that are no symbolic links, while they fit, and never exceeds the maximum; an entry it gets to that is broken, unreadable or not UTF-8 makes it fail, and without one it fails only with the ids used up |
| `ReadDir.ReaddirReply` | src/fs.rs:479-540 | the same for the directory an id names; each error has its reason, and `starts_with(root)` never fails |
| `ReadDir.ShownFromExact` | src/fs.rs:508-518 | the entries to be listed, each once and in increasing order |
| `ReadDir.Progress` | src/fs.rs:528-537 | the offset of the last record is larger than the requested one and at most the listing's length |
| `ReadDir.SessionDecodes` | src/fs.rs:479-540 | paging decodes every reachable entry exactly once and in order, with the id the table still gives its path at the end, whatever ran between the pages |
| `ReadDir.WholeDirectory` | src/fs.rs:479-540 | paging from the start yields every entry that is no symbolic link iff every record fits in a page |
| `ReadDir.EntryMissed` | src/fs.rs:529-535 | for any entry that would be listed, and any page size below its record, a guest gets an empty page without an error and misses the entry |
| `ReadDir.PagingBounded` | src/fs.rs:479-540 | any paging, whatever the page size, goes on at most once per entry behind its first offset, and the page there is empty |
| `NetworkLoop.QueueNumbers` | src/network.rs:242-283 | pair p receives on queue 2p and transmits on 2p + 1, control is queue 2n, and no two share one |
| `NetworkLoop.NextInv` | src/network.rs:129-209 | every step keeps the pairs in use within 1 and the maximum; a raised `kicked` has a permit, a notify to come or a runner on its way to it; served queues are heard of; frames are conserved |
| `NetworkLoop.NoLostDoorbell` | src/network.rs:129-162 | while the runner sleeps, what waits in the control queue or a transmit queue in use was published by a driver that has yet to kick |
| `NetworkLoop.NoLostStop` | src/network.rs:134-154 | the runner is not parked after `down`, unless a `stop` has yet to notify |
| `NetworkLoop.ComesToRest` | src/network.rs:129-162 | down and outside a pass, the runner starts no other: in any continuation no chain is taken, no frame delivered and the pairs in use stay |
| `NetworkLoop.FramesConserved` | src/network.rs:182-197 | the frames that arrived are, in order, those delivered whole behind a zero header, the one in hand and those in the backend; only a failed run keeps one in hand |
| `NetworkLoop.IndicesValid` | src/network.rs:165-209 | every queue index the loop computes exists |
| `Network.ReadTxFrame` | src/network.rs:319-334 | the frame is what follows the header of a readable chain of a permitted length; each error has its reason |
| `Network.WriteRxFrame` | src/network.rs:336-358 | `Ok` means zero header and whole frame are in memory and counted; a frame or chain that is refused outright leaves memory alone |
| `Network.FrameFormat` | src/network.rs:319-358 | a frame has 1 to 65536 bytes and is received behind twelve zero bytes |
| `Network.FrameThroughMemory` | src/network.rs:319-358 | the frame stands behind its header; sent back from the same buffers it is the same iff it filled them |
| `Network.HandleControl` | src/network.rs:211-240 | unless revoked, a request for 1 to maximum pairs is answered 0 and used, any other command or number is answered 1, and a malformed request is an error; nothing else is answered 0 or changes the pairs |
| `Network.ControlFormat` | src/network.rs:217-232 | a request for pairs is two readable descriptors of two bytes: 4 and 0, then the number |
| `Network.RxPassRuns` | src/network.rs:182-197 | the closed form of a receive pass is what the loop machine does undisturbed |
| `Network.RxPassEmpties` | src/network.rs:182-197 | a pass empties the backend iff each frame finds more chains in the queue whose turn it is than the turns before it use up, wherever the counter wraps |
| `Network.RxPassInTurn` | src/network.rs:182-197 | while the counter does not wrap, or if the pairs divide 2^64: iff the k-th frame finds more than k / pairs chains in queue (next + k) % pairs |
| `Network.FrameLeftBehind` | src/network.rs:184-188 | a frame stays although another receive queue has chains, and goes at the next kick |

## Left out

- Tokio, `spawn_blocking`, `FuturesUnordered` and `async_trait`: replaced by atomic steps and a map of in-flight work.
- Weak memory ordering and fences: the model is sequentially consistent.
- Raw pointers: host memory is one array per segment, and arrays of different segments are distinct.
- `check_live` and `try_clone` at the start of `execute`: two more early errors that change nothing.
- Block.Preadv: which prefix the host moves is arbitrary, and a reported error has moved nothing.
- Network.ReadTwo: its two descriptor errors are one, with one message.
- NetworkLoop.NextInv: `transmit` and the control status byte are not steps of their own, and what the guest writes into control requests is arbitrary.
- The wrap-around of the lease count: it would take 2^64 leases.
- A FUSE reply longer than 2^32 bytes, where the source panics.
- FUSE message headers, attributes, `statfs`, `init`, `open` and `read` replies, and the split of a chain into request and reply: one branch each.
- The vsock loop and its event queue: the network loop with fewer queues.
- `src/console.rs`, `src/rng.rs`, `src/memory.rs`: simpler forms of the loops and codecs modelled here.
- `src/device.rs`, `src/backend.rs`, `src/interrupt.rs`, `src/lib.rs`, spec constructors and feature bits: simple checks.
- A host file system that changes while one directory is being listed.
