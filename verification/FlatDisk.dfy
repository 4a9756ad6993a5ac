/**
 What a block request does to the disk image and to guest memory
 (src/block.rs:353-464; section 5.2.6 of VIRTIO Version 1.2), and that a device
 serving requests in turn is a flat disk. Host calls are parameters: a transfer
 moves a prefix of what was asked for and reports how much, or reports an error
 having moved nothing.
 */
module FlatDisk {
  import opened Primitives
  import opened GuestMemory
  import opened Dma
  import opened Scatter

  const SECTOR_SIZE := 512
  const STATUS_OK: byte := 0
  const STATUS_IOERR: byte := 1
  const STATUS_UNSUPP: byte := 2
  const I32_MAX := 0x7FFF_FFFF
  const I64_MAX := 0x7FFF_FFFF_FFFF_FFFF

  datatype Kind = In | Out | Flush | Unsupported(code: u32)

  datatype Request = Request(kind: Kind, sector: u64, payload: seq<Range>, status: Range)

  datatype Completion = Completion(status: byte, usedLength: u32)

  datatype Device = Device(readOnly: bool, flushSupported: bool)

  /** `preadv`/`pwritev`'s return value and whether `sync_data` succeeded. */
  datatype Host = Host(result: int, synced: bool)

  datatype Outcome = Outcome(disk: seq<byte>, mem: Memory, result: Result<Completion>)

  function Offset(r: Request): nat {
    r.sector * SECTOR_SIZE
  }

  function Moved(host: Host): nat {
    if host.result < 0 then 0 else host.result
  }

  /** The host moves no more than it was asked to. */
  predicate HostKeepsContract(r: Request, host: Host) {
    host.result <= Capacity(r.payload)
  }

  /** Past the bounds and write-protection checks: the disk window exists and may be touched. */
  predicate InBounds(d: Device, size: nat, r: Request) {
    && Offset(r) <= size && Capacity(r.payload) <= size - Offset(r)
    && !(r.kind == Out && d.readOnly)
  }

  /** The request reaches its `preadv` or `pwritev`. */
  predicate Transfers(d: Device, size: nat, r: Request, iovecs: nat) {
    && (r.kind == In || r.kind == Out)
    && Offset(r) < U64_LIMIT && Capacity(r.payload) < U64_LIMIT
    && InBounds(d, size, r)
    && iovecs <= I32_MAX && Offset(r) <= I64_MAX
  }

  function Overwrite(disk: seq<byte>, offset: nat, bytes: seq<byte>): (result: seq<byte>)
    requires offset + |bytes| <= |disk|
    ensures |result| == |disk|
    ensures forall p :: 0 <= p < |disk| ==>
      result[p] == if offset <= p < offset + |bytes| then bytes[p - offset] else disk[p]
  {
    disk[..offset] + bytes + disk[offset + |bytes|..]
  }

  function Done(status: byte, usedLength: u32): Result<Completion> {
    Ok(Completion(status, usedLength))
  }

  /** `execute_blocking` */
  ghost function Execute(d: Device, disk: seq<byte>, mem: Memory, r: Request, iovecs: nat, host: Host): Outcome
    requires Covers(mem, Addressed(r.payload)) && HostKeepsContract(r, host)
  {
    match r.kind
    case Unsupported(_) => Outcome(disk, mem, Done(STATUS_UNSUPP, 1))
    case Flush =>
      if !d.flushSupported then Outcome(disk, mem, Done(STATUS_UNSUPP, 1))
      else if r.payload != [] then Outcome(disk, mem, Err(Malformed("block flush has payload")))
      else Outcome(disk, mem, Done(if host.synced then STATUS_OK else STATUS_IOERR, 1))
    case In =>
      (match Refusal(d, |disk|, r, iovecs)
       case Some(result) => Outcome(disk, mem, result)
       case None => Outcome(disk, ReadInto(disk, mem, r, host), ReadResult(r, host)))
    case Out =>
      (match Refusal(d, |disk|, r, iovecs)
       case Some(result) => Outcome(disk, mem, result)
       case None =>
         Outcome(WriteFrom(disk, mem, r, host), mem,
                 Done(if host.result == Capacity(r.payload) then STATUS_OK else STATUS_IOERR, 1)))
  }

  /** The checks before a transfer, in the order the source makes them. */
  function Refusal(d: Device, size: nat, r: Request, iovecs: nat): (refusal: Option<Result<Completion>>)
    requires r.kind == In || r.kind == Out
    ensures refusal.None? <==> Transfers(d, size, r, iovecs)
  {
    if Offset(r) >= U64_LIMIT then Some(Err(Malformed("block sector overflow")))
    else if Capacity(r.payload) >= U64_LIMIT then Some(Err(Malformed("block request length overflow")))
    else if !InBounds(d, size, r) then Some(Done(STATUS_IOERR, 1))
    else if iovecs > I32_MAX then Some(Err(Malformed("too many block I/O vectors")))
    else if Offset(r) > I64_MAX then Some(Err(Malformed("block offset exceeds host off_t")))
    else None
  }

  ghost function ReadInto(disk: seq<byte>, mem: Memory, r: Request, host: Host): Memory
    requires HostKeepsContract(r, host) && Offset(r) + Capacity(r.payload) <= |disk|
  {
    CapacityIsLength(r.payload);
    Scattered(mem, r.payload, disk[Offset(r)..Offset(r) + Moved(host)])
  }

  function ReadResult(r: Request, host: Host): Result<Completion> {
    if host.result != Capacity(r.payload) then Done(STATUS_IOERR, 1)
    else if 1 + Capacity(r.payload) >= U32_LIMIT then Err(Malformed("used length overflow"))
    else Done(STATUS_OK, 1 + Capacity(r.payload))
  }

  ghost function WriteFrom(disk: seq<byte>, mem: Memory, r: Request, host: Host): seq<byte>
    requires Covers(mem, Addressed(r.payload)) && HostKeepsContract(r, host)
    requires Offset(r) + Capacity(r.payload) <= |disk|
  {
    CapacityIsLength(r.payload);
    Overwrite(disk, Offset(r), Gathered(mem, r.payload)[..Moved(host)])
  }

  // ------------------------------------------------------------- one request

  /** The transfers that are served: completion OK, and one more byte used than a read delivers. */
  lemma Served(d: Device, disk: seq<byte>, mem: Memory, r: Request, iovecs: nat, host: Host)
    requires Covers(mem, Addressed(r.payload)) && host.result == Capacity(r.payload)
    requires r.sector * 512 + Capacity(r.payload) <= |disk| < 0x8000_0000_0000_0000 && iovecs < 0x8000_0000
    ensures r.kind == In && 1 + Capacity(r.payload) < 0x1_0000_0000 ==>
      Execute(d, disk, mem, r, iovecs, host).result == Ok(Completion(0, 1 + Capacity(r.payload)))
    ensures r.kind == Out && !d.readOnly ==> Execute(d, disk, mem, r, iovecs, host).result == Ok(Completion(0, 1))
  {
  }

  /** Every result in numbers: status 0 is OK, 1 an I/O error, 2 unsupported. */
  lemma ResultTable(d: Device, disk: seq<byte>, mem: Memory, r: Request, iovecs: nat, host: Host)
    requires Covers(mem, Addressed(r.payload)) && HostKeepsContract(r, host)
    ensures var result := Execute(d, disk, mem, r, iovecs, host).result;
      var offset, length := r.sector * 512, Capacity(r.payload);
      if r.kind.Unsupported? || (r.kind == Flush && !d.flushSupported) then
        result == Ok(Completion(2, 1))
      else if r.kind == Flush then
        if r.payload != [] then result.Err? else result == Ok(Completion(if host.synced then 0 else 1, 1))
      else if offset >= 0x1_0000_0000_0000_0000 || length >= 0x1_0000_0000_0000_0000 then
        result.Err?
      else if offset + length > |disk| || (r.kind == Out && d.readOnly) then
        result == Ok(Completion(1, 1))
      else if iovecs >= 0x8000_0000 || offset >= 0x8000_0000_0000_0000 then
        result.Err?
      else if host.result != length then
        result == Ok(Completion(1, 1))
      else if r.kind == Out then
        result == Ok(Completion(0, 1))
      else
        if 1 + length >= 0x1_0000_0000 then result.Err? else result == Ok(Completion(0, 1 + length))
  {
  }

  /** The status byte, written after the data. */
  ghost function WithStatus(mem: Memory, r: Request, status: byte): Memory {
    Store(mem, Span(r.status.gpa, 1), [status])
  }

  /** Payload buffers and status byte all lie apart. */
  ghost predicate BuffersApart(r: Request) {
    r.status.length == 1 && NoDuplicates(Addressed(r.payload + [r.status]))
  }

  lemma BuffersSplit(r: Request)
    requires BuffersApart(r)
    ensures Addressed(r.payload + [r.status]) == Addressed(r.payload) + Span(r.status.gpa, 1)
    ensures NoDuplicates(Addressed(r.payload)) && r.status.gpa !in Addressed(r.payload)
  {
    var ranges, all := r.payload + [r.status], Addressed(r.payload);
    assert ranges[..|ranges| - 1] == r.payload;
    var both := all + Span(r.status.gpa, 1);
    assert Addressed(ranges) == both;
    forall i | 0 <= i < |all| ensures all[i] != r.status.gpa {
      assert both[i] == all[i] && both[|all|] == r.status.gpa;
    }
    forall i, j | 0 <= i < j < |all| ensures all[i] != all[j] {
      assert both[i] == all[i] && both[j] == all[j];
    }
  }

  lemma OkRead(d: Device, disk: seq<byte>, mem: Memory, r: Request, iovecs: nat, host: Host)
    requires Covers(mem, Addressed(r.payload)) && HostKeepsContract(r, host) && r.kind == In
    requires var out := Execute(d, disk, mem, r, iovecs, host); out.result.Ok? && out.result.value.status == STATUS_OK
    ensures Offset(r) + Capacity(r.payload) <= |disk| && |Addressed(r.payload)| == Capacity(r.payload) < U32_LIMIT - 1
    ensures Execute(d, disk, mem, r, iovecs, host) ==
      Outcome(disk, Scattered(mem, r.payload, disk[Offset(r)..Offset(r) + Capacity(r.payload)]),
              Done(STATUS_OK, 1 + Capacity(r.payload)))
  {
    CapacityIsLength(r.payload);
    hide Addressed, Capacity, Scattered;
  }

  /**
   A read that completes with OK delivers exactly its disk window, also after
   the status byte is written, reports one more than its length, changes no
   other guest byte and nothing on disk.
   */
  lemma ReadDelivers(d: Device, disk: seq<byte>, mem: Memory, r: Request, iovecs: nat, host: Host)
    requires Covers(mem, Addressed(r.payload)) && HostKeepsContract(r, host) && BuffersApart(r) && r.kind == In
    requires var out := Execute(d, disk, mem, r, iovecs, host); out.result.Ok? && out.result.value.status == STATUS_OK
    ensures var out := Execute(d, disk, mem, r, iovecs, host);
      var after := WithStatus(out.mem, r, STATUS_OK);
      && out.disk == disk
      && Offset(r) + Capacity(r.payload) <= |disk| && out.result.value.usedLength == 1 + Capacity(r.payload)
      && Covers(after, Addressed(r.payload))
      && Gathered(after, r.payload) == disk[Offset(r)..Offset(r) + Capacity(r.payload)]
      && (forall a :: a in mem && a !in Addressed(r.payload) && a != r.status.gpa ==> a in after && after[a] == mem[a])
  {
    hide Execute, Addressed, Capacity, BuffersApart, NoDuplicates, Store, Scattered, Gathered, Covers;
    OkRead(d, disk, mem, r, iovecs, host);
    BuffersSplit(r);
    Delivered(mem, r.payload, r.status.gpa, disk[Offset(r)..Offset(r) + Capacity(r.payload)], STATUS_OK);
  }

  /** Filling a chain and then writing one byte elsewhere. */
  lemma Delivered(mem: Memory, ranges: seq<Range>, a: u64, bytes: seq<byte>, status: byte)
    requires Covers(mem, Addressed(ranges)) && NoDuplicates(Addressed(ranges)) && a !in Addressed(ranges)
    requires |bytes| == |Addressed(ranges)| == Capacity(ranges)
    ensures var after := Store(Scattered(mem, ranges, bytes), Span(a, 1), [status]);
      && Covers(after, Addressed(ranges)) && Gathered(after, ranges) == bytes
      && (forall x :: x in mem && x !in Addressed(ranges) && x != a ==> x in after && after[x] == mem[x])
  {
    hide Addressed, Capacity, Store, NoDuplicates;
    var all := Addressed(ranges);
    assert all[..|bytes|] == all;
    var mem1 := Store(mem, all, bytes);
    LoadStored(mem, all, bytes);
    StoreFrame(mem, all, bytes);
    LoadElsewhere(mem1, Span(a, 1), [status], all);
    StoreSpan(mem1, a, [status]);
  }

  /** A write that completes with OK replaces exactly its disk window by the payload bytes. */
  lemma WriteReplaces(d: Device, disk: seq<byte>, mem: Memory, r: Request, iovecs: nat, host: Host)
    requires Covers(mem, Addressed(r.payload)) && HostKeepsContract(r, host) && r.kind == Out
    requires var out := Execute(d, disk, mem, r, iovecs, host); out.result.Ok? && out.result.value.status == STATUS_OK
    ensures var out := Execute(d, disk, mem, r, iovecs, host);
      && out.mem == mem && out.result.value.usedLength == 1 && !d.readOnly
      && Offset(r) + Capacity(r.payload) <= |disk| && |out.disk| == |disk|
      && out.disk[Offset(r)..Offset(r) + Capacity(r.payload)] == Gathered(mem, r.payload)
      && out.disk[..Offset(r)] == disk[..Offset(r)]
      && out.disk[Offset(r) + Capacity(r.payload)..] == disk[Offset(r) + Capacity(r.payload)..]
  {
    CapacityIsLength(r.payload);
    assert Gathered(mem, r.payload)[..Moved(host)] == Gathered(mem, r.payload);
  }

  // ------------------------------------------------------- sequences of them

  /** One served request: guest memory as the driver left it, and what the host did. */
  datatype Event = Event(mem: Memory, request: Request, iovecs: nat, host: Host)

  ghost predicate Sound(e: Event) {
    Covers(e.mem, Addressed(e.request.payload)) && HostKeepsContract(e.request, e.host)
  }

  ghost predicate AllSound(events: seq<Event>) {
    forall i :: 0 <= i < |events| ==> Sound(events[i])
  }

  ghost function DiskAfter(d: Device, disk: seq<byte>, events: seq<Event>): seq<byte>
    requires AllSound(events)
  {
    if events == [] then disk
    else
      var before := DiskAfter(d, disk, events[..|events| - 1]);
      var e := events[|events| - 1];
      assert Sound(e);
      Execute(d, before, e.mem, e.request, e.iovecs, e.host).disk
  }

  /** The byte an event puts at disk position `p`, if it puts one there. */
  ghost function PutAt(d: Device, size: nat, e: Event, p: nat): Option<byte>
    requires Sound(e)
  {
    var r := e.request;
    if r.kind == Out && Transfers(d, size, r, e.iovecs) && Offset(r) <= p < Offset(r) + Moved(e.host) then
      CapacityIsLength(r.payload);
      Some(Gathered(e.mem, r.payload)[p - Offset(r)])
    else None
  }

  /** The reference: what the latest event to touch `p` put there, else the original byte. */
  ghost function LastWritten(d: Device, disk: seq<byte>, events: seq<Event>, p: nat): byte
    requires AllSound(events) && p < |disk|
  {
    if events == [] then disk[p]
    else
      assert Sound(events[|events| - 1]);
      match PutAt(d, |disk|, events[|events| - 1], p)
      case Some(b) => b
      case None => LastWritten(d, disk, events[..|events| - 1], p)
  }

  lemma ExecutePutsAt(d: Device, disk: seq<byte>, e: Event, p: nat)
    requires Sound(e) && p < |disk|
    ensures var out := Execute(d, disk, e.mem, e.request, e.iovecs, e.host);
      && |out.disk| == |disk|
      && out.disk[p] == match PutAt(d, |disk|, e, p) case Some(b) => b case None => disk[p]
  {
    CapacityIsLength(e.request.payload);
  }

  lemma ExecuteKeepsSize(d: Device, disk: seq<byte>, e: Event)
    requires Sound(e)
    ensures |Execute(d, disk, e.mem, e.request, e.iovecs, e.host).disk| == |disk|
  {
    CapacityIsLength(e.request.payload);
  }

  /** Whatever requests are served, and however the host fails, the image is a flat disk. */
  lemma {:induction false} DiskHoldsLastWrites(d: Device, disk: seq<byte>, events: seq<Event>)
    requires AllSound(events)
    ensures |DiskAfter(d, disk, events)| == |disk|
    ensures forall p :: 0 <= p < |disk| ==> DiskAfter(d, disk, events)[p] == LastWritten(d, disk, events, p)
    decreases |events|
  {
    if events != [] {
      var front, e := events[..|events| - 1], events[|events| - 1];
      DiskHoldsLastWrites(d, disk, front);
      var before := DiskAfter(d, disk, front);
      assert Sound(e);
      ExecuteKeepsSize(d, before, e);
      forall p | 0 <= p < |disk| ensures DiskAfter(d, disk, events)[p] == LastWritten(d, disk, events, p) {
        ExecutePutsAt(d, before, e, p);
      }
    }
  }

  /**
   After any requests, a read that completes with OK leaves in its payload
   buffers, byte for byte, what the latest writes put in its disk window.
   */
  lemma ReadSeesLastWrites(d: Device, disk: seq<byte>, events: seq<Event>, e: Event)
    requires AllSound(events) && Sound(e) && e.request.kind == In && BuffersApart(e.request)
    requires var out := Execute(d, DiskAfter(d, disk, events), e.mem, e.request, e.iovecs, e.host);
      out.result.Ok? && out.result.value.status == STATUS_OK
    ensures var out := Execute(d, DiskAfter(d, disk, events), e.mem, e.request, e.iovecs, e.host);
      var after := WithStatus(out.mem, e.request, STATUS_OK);
      var r := e.request;
      && Offset(r) + Capacity(r.payload) <= |disk| && Covers(after, Addressed(r.payload))
      && |Gathered(after, r.payload)| == Capacity(r.payload)
      && forall i :: 0 <= i < Capacity(r.payload) ==>
           Gathered(after, r.payload)[i] == LastWritten(d, disk, events, Offset(r) + i)
  {
    DiskHoldsLastWrites(d, disk, events);
    ReadDelivers(d, DiskAfter(d, disk, events), e.mem, e.request, e.iovecs, e.host);
  }

  /** A read-only disk never changes. */
  lemma {:induction false} ReadOnlyNeverChanges(d: Device, disk: seq<byte>, events: seq<Event>)
    requires d.readOnly && AllSound(events)
    ensures DiskAfter(d, disk, events) == disk
    decreases |events|
  {
    if events != [] {
      ReadOnlyNeverChanges(d, disk, events[..|events| - 1]);
      assert Sound(events[|events| - 1]);
    }
  }
}
