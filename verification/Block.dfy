/** The virtio-blk request path over leased guest memory (src/block.rs:163-255 and 324-464). */
module Block {
  import opened Primitives
  import opened LittleEndian
  import opened GuestMemory
  import opened Dma
  import opened DescriptorChains
  import opened Scatter
  import opened FlatDisk

  const HEADER_SIZE := 16

  // ----------------------------------------------------------------- parsing

  function KindOf(code: u32): Kind {
    if code == 0 then In else if code == 1 then Out else if code == 4 then Flush else Unsupported(code)
  }

  function Middle(ds: seq<Descriptor>): seq<Descriptor>
    requires |ds| >= 2
  {
    ds[1..|ds| - 1]
  }

  /** A payload descriptor of the right direction, not empty and mapped. */
  ghost predicate PayloadFits(segments: seq<Segment>, kind: Kind, d: Descriptor) {
    && !kind.Flush? && (kind.In? ==> d.Writable()) && (kind.Out? ==> !d.Writable())
    && d.length > 0 && Usable(segments, RangeOf(d))
  }

  ghost predicate Framed(segments: seq<Segment>, ds: seq<Descriptor>) {
    && |ds| >= 2
    && !ds[0].Writable() && ds[0].length == HEADER_SIZE && Usable(segments, RangeOf(ds[0]))
    && ds[|ds| - 1].Writable() && ds[|ds| - 1].length == 1
  }

  /** The sixteen header bytes: type, reserved, sector. */
  ghost predicate HeaderSays(mem: Memory, d: Descriptor, kind: Kind, sector: u64) {
    && Covers(mem, Span(d.address, HEADER_SIZE))
    && var bytes := Load(mem, Span(d.address, HEADER_SIZE));
    && kind == KindOf(DecodeU32(bytes[0..4])) && sector == DecodeU64(bytes[8..16])
  }

  /** The chains that are block requests, and the request each one is. */
  ghost predicate IsRequest(mem: Memory, segments: seq<Segment>, ds: seq<Descriptor>, r: Request) {
    && Framed(segments, ds)
    && HeaderSays(mem, ds[0], r.kind, r.sector)
    && (forall d :: d in Middle(ds) ==> PayloadFits(segments, r.kind, d))
    && (r.kind.In? || r.kind.Out? ==> Middle(ds) != [])
    && Usable(segments, RangeOf(ds[|ds| - 1]))
    && r.payload == RangesOf(Middle(ds)) && r.status == RangeOf(ds[|ds| - 1])
  }

  /** A request's kind and sector as the bytes of its header: type in bytes 0 to 3, sector in bytes 8 to 15. */
  lemma RequestBytes(mem: Memory, segments: seq<Segment>, ds: seq<Descriptor>, r: Request)
    requires IsRequest(mem, segments, ds, r)
    ensures Covers(mem, Span(ds[0].address, 4)) && Covers(mem, Span(ds[0].address + 8, 8))
    ensures var code := Load(mem, Span(ds[0].address, 4));
      && (r.kind == In <==> code == [0, 0, 0, 0])
      && (r.kind == Out <==> code == [1, 0, 0, 0])
      && (r.kind == Flush <==> code == [4, 0, 0, 0])
      && (code !in {[0, 0, 0, 0], [1, 0, 0, 0], [4, 0, 0, 0]} ==> r.kind == Unsupported(DecodeU32(code)))
    ensures r.sector == DecodeU64(Load(mem, Span(ds[0].address + 8, 8)))
  {
    var a := ds[0].address;
    var code, sector := Span(a, 4), Span(a + 8, 8);
    assert forall i :: 0 <= i < 4 ==> code[i] == Span(a, 16)[i];
    assert forall i :: 0 <= i < 8 ==> sector[i] == Span(a, 16)[8 + i];
    assert Load(mem, Span(a, 16))[0..4] == Load(mem, code);
    assert Load(mem, Span(a, 16))[8..16] == Load(mem, sector);
    CodeBytes(Load(mem, code));
  }

  lemma CodeBytes(code: seq<byte>)
    requires |code| == 4
    ensures DecodeU32(code) == 0 <==> code == [0, 0, 0, 0]
    ensures DecodeU32(code) == 1 <==> code == [1, 0, 0, 0]
    ensures DecodeU32(code) == 4 <==> code == [4, 0, 0, 0]
  {
    EncodeDecode(code);
    SmallCode(0);
    SmallCode(1);
    SmallCode(4);
  }

  lemma SmallCode(v: byte)
    ensures Encode(v, 4) == [v, 0, 0, 0] && Decode([v, 0, 0, 0]) == v
  {
    assert v / 256 == 0 && Encode(0, 3) == [0, 0, 0] by {
      assert Encode(0, 1) == [0];
    }
    assert Encode(v, 4) == [v] + Encode(0, 3);
    Limits();
    DecodeEncode(v, 4);
  }

  /** Descriptor `i` of the `n` in a chain that asks for `kind`: header, payload or status byte. */
  predicate RightPlace(kind: Kind, d: Descriptor, i: nat, n: nat) {
    if i == 0 then d.length == 16 && d.flags / 2 % 2 == 0
    else if i == n - 1 then d.length == 1 && d.flags / 2 % 2 == 1
    else d.length > 0 && (kind == In ==> d.flags / 2 % 2 == 1) && (kind == Out ==> d.flags / 2 % 2 == 0)
  }

  ghost predicate AllPlaced(segments: seq<Segment>, kind: Kind, ds: seq<Descriptor>) {
    forall i :: 0 <= i < |ds| ==> Usable(segments, RangeOf(ds[i])) && RightPlace(kind, ds[i], i, |ds|)
  }

  lemma MiddlePlaced(segments: seq<Segment>, kind: Kind, ds: seq<Descriptor>)
    requires |ds| >= 2 && !kind.Flush?
    ensures (forall d :: d in Middle(ds) ==> PayloadFits(segments, kind, d)) <==>
      forall i :: 0 < i < |ds| - 1 ==> Usable(segments, RangeOf(ds[i])) && RightPlace(kind, ds[i], i, |ds|)
  {
    hide Usable;
    var middle := Middle(ds);
    assert forall i :: 0 < i < |ds| - 1 ==> ds[i] == middle[i - 1];
    if forall d :: d in middle ==> PayloadFits(segments, kind, d) {
      forall i | 0 < i < |ds| - 1 ensures Usable(segments, RangeOf(ds[i])) && RightPlace(kind, ds[i], i, |ds|) {
        assert PayloadFits(segments, kind, middle[i - 1]);
      }
    }
  }

  /** The chains that are block requests, in numbers and flag bits. */
  lemma RequestShape(mem: Memory, segments: seq<Segment>, ds: seq<Descriptor>, r: Request)
    ensures IsRequest(mem, segments, ds, r) <==>
      && |ds| >= (if r.kind == In || r.kind == Out then 3 else 2) && (r.kind == Flush ==> |ds| == 2)
      && HeaderSays(mem, ds[0], r.kind, r.sector) && AllPlaced(segments, r.kind, ds)
      && r.payload == RangesOf(ds)[1..|ds| - 1] && r.status == RangesOf(ds)[|ds| - 1]
  {
    hide HeaderSays, Usable;
    if |ds| >= 2 {
      assert RangesOf(Middle(ds)) == RangesOf(ds)[1..|ds| - 1];
      if r.kind.Flush? {
        assert Middle(ds) != [] ==> Middle(ds)[0] in Middle(ds);
      } else {
        MiddlePlaced(segments, r.kind, ds);
        hide PayloadFits;
      }
    }
  }

  /** `parse_request` accepts exactly the block requests, unless a revoke gets in between. */
  method ParseRequest(memory: DmaMemory, ghost mem: Memory, ds: seq<Descriptor>) returns (r: Result<Request>)
    requires Over(memory, mem)
    modifies memory`revoked, memory`drained, memory`active
    ensures Over(memory, mem) && memory.active == old(memory.active)
    ensures r.Ok? ==> IsRequest(mem, memory.segments, ds, r.value)
    ensures r.Err? && r.error != Down(Revoked) ==> forall q :: !IsRequest(mem, memory.segments, ds, q)
    ensures r == Err(Down(Revoked)) ==> memory.revoked
  {
    if |ds| < 2 {
      return Err(Malformed("block request has too few descriptors"));
    }
    var header, status := ds[0], ds[|ds| - 1];
    if header.Writable() || header.length != HEADER_SIZE {
      return Err(Malformed("invalid block request header"));
    }
    if !status.Writable() || status.length != 1 {
      return Err(Malformed("invalid block request status byte"));
    }
    var read := ReadHeader(memory, mem, header);
    if read.Err? {
      return Err(read.error);
    }
    var (kind, sector) := read.value;
    var payload := CheckPayload(memory, kind, Middle(ds));
    if payload.Err? {
      return Err(payload.error);
    }
    if (kind.In? || kind.Out?) && payload.value == [] {
      return Err(Malformed("block request has no payload"));
    }
    var checked := memory.Translate(RangeOf(status));
    if checked.Err? {
      return Err(checked.error);
    }
    return Ok(Request(kind, sector, payload.value, RangeOf(status)));
  }

  method ReadHeader(memory: DmaMemory, ghost mem: Memory, header: Descriptor) returns (r: Result<(Kind, u64)>)
    requires Over(memory, mem) && header.length == HEADER_SIZE
    modifies memory`revoked, memory`drained, memory`active
    ensures Over(memory, mem) && memory.active == old(memory.active)
    ensures r.Ok? ==> Usable(memory.segments, RangeOf(header)) && HeaderSays(mem, header, r.value.0, r.value.1)
    ensures r.Err? ==>
      || (r.error == Down(Revoked) && memory.revoked)
      || (r.error != Down(Revoked) && !Usable(memory.segments, RangeOf(header)))
  {
    var read := memory.ReadBytes(header.address, HEADER_SIZE);
    if read.Err? {
      return Err(read.error);
    }
    CoveredUsable(memory, mem, RangeOf(header));
    return Ok((KindOf(DecodeU32(read.value[0..4])), DecodeU64(read.value[8..16])));
  }

  /** The payload loop of `parse_request`. */
  method CheckPayload(memory: DmaMemory, kind: Kind, ds: seq<Descriptor>) returns (r: Result<seq<Range>>)
    requires memory.Valid()
    ensures r.Ok? <==> forall d :: d in ds ==> PayloadFits(memory.segments, kind, d)
    ensures r.Ok? ==> r.value == RangesOf(ds)
    ensures r.Err? ==> r.error != Down(Revoked)
  {
    var payload: seq<Range> := [];
    for i := 0 to |ds|
      invariant payload == RangesOf(ds[..i])
      invariant forall j :: 0 <= j < i ==> PayloadFits(memory.segments, kind, ds[j])
    {
      var d := ds[i];
      assert d in ds;
      if kind.In? && !d.Writable() {
        return Err(Malformed("block read payload is not writable"));
      }
      if kind.Out? && d.Writable() {
        return Err(Malformed("block write payload is writable"));
      }
      if kind.Flush? {
        return Err(Malformed("block flush has payload"));
      }
      if d.length == 0 {
        return Err(Malformed("zero-length descriptor"));
      }
      var checked := memory.Translate(RangeOf(d));
      if checked.Err? {
        return Err(checked.error);
      }
      payload := payload + [RangeOf(d)];
    }
    assert ds[..|ds|] == ds;
    return Ok(payload);
  }

  // --------------------------------------------------------------- execution

  ghost predicate PartsOf(memory: DmaMemory, parts: seq<Part>) {
    forall i :: 0 <= i < |parts| ==> PartOf(memory.segments, parts[i])
  }

  /** The leases `execute` takes for the payload, as one list of I/O vectors. */
  method LeaseAll(memory: DmaMemory, ghost mem: Memory, ranges: seq<Range>) returns (r: Result<seq<Part>>)
    requires Over(memory, mem)
    modifies memory`revoked, memory`drained, memory`active
    ensures Over(memory, mem)
    ensures r.Ok? ==> memory.active == old(memory.active) + |ranges|
    ensures r.Ok? ==> PartsOf(memory, r.value) && Addresses(r.value) == Addressed(ranges)
    ensures r.Err? ==> memory.active == old(memory.active) && Refused(memory, ranges, r.error)
  {
    hide DmaMemory.Contents, DmaMemory.Valid;
    var parts: seq<Part> := [];
    for i := 0 to |ranges|
      invariant Over(memory, mem) && memory.active == old(memory.active) + i
      invariant PartsOf(memory, parts) && Addresses(parts) == Addressed(ranges[..i])
    {
      var lease := memory.Lease(ranges[i]);
      if lease.Err? {
        DropAll(memory, i);
        return Err(lease.error);
      }
      PrefixStep(ranges, i);
      AddressesConcat(parts, lease.value);
      parts := parts + lease.value;
    }
    assert ranges[..|ranges|] == ranges;
    return Ok(parts);
  }

  method DropAll(memory: DmaMemory, n: nat)
    requires n <= memory.active
    modifies memory`active
    ensures memory.active == old(memory.active) - n
  {
    for i := 0 to n
      invariant memory.active == old(memory.active) - i
    {
      memory.DropActive();
    }
  }

  /** The host's `preadv`: some prefix of the window, scattered over the vectors. */
  method Preadv(memory: DmaMemory, ghost mem: Memory, disk: array<byte>, offset: nat, iovecs: seq<Part>, length: nat)
    returns (result: int, ghost after: Memory)
    requires Over(memory, mem) && PartsOf(memory, iovecs) && disk !in memory.bases
    requires length == |Addresses(iovecs)| && offset + length <= disk.Length
    modifies memory.bases
    ensures result <= length && Over(memory, after)
    ensures var moved := if result < 0 then 0 else result;
      after == Store(mem, Addresses(iovecs)[..moved], disk[..][offset..offset + moved])
  {
    result := *;
    if result < 0 || result > length {
      return -1, mem;
    }
    var bytes := disk[offset..offset + result];
    assert bytes == disk[..][offset..offset + result];
    after := Store(mem, Addresses(iovecs)[..result], bytes);
    var n := CopyToParts(memory, mem, iovecs, bytes);
    assert bytes[..n] == bytes;
  }

  /** The host's `pwritev`: some prefix of the gathered bytes, written to the window. */
  method Pwritev(memory: DmaMemory, ghost mem: Memory, disk: array<byte>, offset: nat, iovecs: seq<Part>, length: nat)
    returns (result: int)
    requires Over(memory, mem) && PartsOf(memory, iovecs) && disk !in memory.bases
    requires length == |Addresses(iovecs)| && offset + length <= disk.Length
    modifies disk
    ensures result <= length && Over(memory, mem) && Covers(mem, Addresses(iovecs))
    ensures var moved := if result < 0 then 0 else result;
      disk[..] == Overwrite(old(disk[..]), offset, Load(mem, Addresses(iovecs))[..moved])
  {
    var bytes := memory.ReadParts(iovecs);
    result := *;
    if result < 0 || result > length {
      result := -1;
      assert bytes[..0] == [];
      return;
    }
    DmaMemory.CopyInto(disk, offset, bytes[..result]);
  }

  /** The I/O vectors cover the request's payload, byte for byte. */
  ghost predicate Vectors(memory: DmaMemory, mem: Memory, request: Request, iovecs: seq<Part>) {
    && PartsOf(memory, iovecs) && Addresses(iovecs) == Addressed(request.payload)
    && Covers(mem, Addressed(request.payload))
  }

  // The two sums over lease parts that `execute_blocking` makes, in its own integer widths.

  /** The `try_fold` of a request's length, in 64 bits: it overflows exactly when the payload's length does. */
  method CheckedLength(iovecs: seq<Part>) returns (r: Option<u64>)
    ensures r == if |Addresses(iovecs)| < U64_LIMIT then Some(|Addresses(iovecs)|) else None
  {
    var sum: u64 := 0;
    for i := 0 to |iovecs|
      invariant sum == |Addresses(iovecs[..i])|
    {
      PrefixLength(iovecs, i);
      if iovecs[i].length >= U64_LIMIT - sum {
        return None;
      }
      sum := sum + iovecs[i].length;
    }
    assert iovecs[..|iovecs|] == iovecs;
    return Some(sum);
  }

  /** The `try_fold` of the used length, in 32 bits: it overflows exactly when one plus the payload's length does. */
  method CheckedUsedLength(iovecs: seq<Part>) returns (r: Option<u32>)
    ensures r == if 1 + |Addresses(iovecs)| < U32_LIMIT then Some(1 + |Addresses(iovecs)|) else None
  {
    var total: u32 := 1;
    for i := 0 to |iovecs|
      invariant total == 1 + |Addresses(iovecs[..i])|
    {
      PrefixLength(iovecs, i);
      if iovecs[i].length >= U32_LIMIT {
        return None;
      }
      if iovecs[i].length >= U32_LIMIT - total {
        return None;
      }
      total := total + iovecs[i].length;
    }
    assert iovecs[..|iovecs|] == iovecs;
    return Some(total);
  }

  lemma PrefixLength(parts: seq<Part>, i: nat)
    requires i < |parts|
    ensures |Addresses(parts[..i + 1])| == |Addresses(parts[..i])| + parts[i].length <= |Addresses(parts)|
  {
    AddressesSnoc(parts, i);
    AddressesPrefix(parts, i + 1);
  }

  /** `sector.checked_mul(512)` */
  method CheckedOffset(sector: u64) returns (r: Option<u64>)
    ensures r == if sector * SECTOR_SIZE < U64_LIMIT then Some(sector * SECTOR_SIZE) else None
  {
    if sector > (U64_LIMIT - 1) / SECTOR_SIZE {
      return None;
    }
    return Some(sector * SECTOR_SIZE);
  }

  /**
   The checks before a transfer, in order: a refusal, or offset and length of a
   window that lies on the disk.
   */
  method CheckTransfer(device: Device, size: nat, request: Request, iovecs: seq<Part>)
    returns (refusal: Option<Result<Completion>>, offset: u64, length: u64)
    requires request.kind == In || request.kind == Out
    requires Addresses(iovecs) == Addressed(request.payload)
    ensures refusal == Refusal(device, size, request, |iovecs|)
    ensures refusal.None? ==>
      offset == Offset(request) && length == Capacity(request.payload) && offset + length <= size
  {
    CapacityIsLength(request.payload);
    offset, length := 0, 0;
    var start := CheckedOffset(request.sector);
    if start.None? {
      return Some(Err(Malformed("block sector overflow"))), 0, 0;
    }
    var sum := CheckedLength(iovecs);
    if sum.None? {
      return Some(Err(Malformed("block request length overflow"))), 0, 0;
    }
    offset, length := start.value, sum.value;
    if offset > size || length > size - offset || (request.kind == Out && device.readOnly) {
      return Some(Done(STATUS_IOERR, 1)), offset, length;
    }
    if |iovecs| > I32_MAX {
      return Some(Err(Malformed("too many block I/O vectors"))), offset, length;
    }
    if offset > I64_MAX {
      return Some(Err(Malformed("block offset exceeds host off_t"))), offset, length;
    }
    return None, offset, length;
  }

  /** The read arm of `execute_blocking`. */
  method ExecuteRead(memory: DmaMemory, ghost mem: Memory, disk: array<byte>, device: Device,
                     request: Request, iovecs: seq<Part>)
    returns (r: Result<Completion>, ghost after: Memory, ghost host: Host)
    requires Over(memory, mem) && Vectors(memory, mem, request, iovecs) && disk !in memory.bases
    requires request.kind == In
    modifies memory.bases
    ensures Over(memory, after) && HostKeepsContract(request, host)
    ensures Outcome(disk[..], after, r) == Execute(device, disk[..], mem, request, |iovecs|, host)
  {
    hide DmaMemory.Contents, Store;
    CapacityIsLength(request.payload);
    after, host := mem, Host(-1, false);
    var refusal, offset, length := CheckTransfer(device, disk.Length, request, iovecs);
    if refusal.Some? {
      return refusal.value, after, host;
    }
    var result;
    result, after := Preadv(memory, mem, disk, offset, iovecs, length);
    host := Host(result, false);
    if result < 0 || result != length {
      return Done(STATUS_IOERR, 1), after, host;
    }
    var used := CheckedUsedLength(iovecs);
    if used.None? {
      return Err(Malformed("used length overflow")), after, host;
    }
    return Done(STATUS_OK, used.value), after, host;
  }

  /** The write arm of `execute_blocking`. */
  method ExecuteWrite(memory: DmaMemory, ghost mem: Memory, disk: array<byte>, device: Device,
                      request: Request, iovecs: seq<Part>)
    returns (r: Result<Completion>, ghost host: Host)
    requires Over(memory, mem) && Vectors(memory, mem, request, iovecs) && disk !in memory.bases
    requires request.kind == Out
    modifies disk
    ensures Over(memory, mem) && HostKeepsContract(request, host)
    ensures Outcome(disk[..], mem, r) == Execute(device, old(disk[..]), mem, request, |iovecs|, host)
  {
    CapacityIsLength(request.payload);
    host := Host(-1, false);
    var refusal, offset, length := CheckTransfer(device, disk.Length, request, iovecs);
    if refusal.Some? {
      return refusal.value, host;
    }
    var result := Pwritev(memory, mem, disk, offset, iovecs, length);
    host := Host(result, false);
    r := Done(if result < 0 || result != length then STATUS_IOERR else STATUS_OK, 1);
  }

  /** `execute_blocking`, as the function FlatDisk.Execute says. */
  method ExecuteBlocking(memory: DmaMemory, ghost mem: Memory, disk: array<byte>, device: Device,
                         request: Request, iovecs: seq<Part>)
    returns (r: Result<Completion>, ghost after: Memory, ghost host: Host)
    requires Over(memory, mem) && Vectors(memory, mem, request, iovecs) && disk !in memory.bases
    modifies disk, memory.bases
    ensures Over(memory, after) && HostKeepsContract(request, host)
    ensures Outcome(disk[..], after, r) == Execute(device, old(disk[..]), mem, request, |iovecs|, host)
  {
    after, host := mem, Host(-1, false);
    match request.kind {
      case Unsupported(_) =>
        r := Done(STATUS_UNSUPP, 1);
      case Flush =>
        if !device.flushSupported {
          r := Done(STATUS_UNSUPP, 1);
        } else if request.payload != [] {
          r := Err(Malformed("block flush has payload"));
        } else {
          var synced := *;
          host := Host(-1, synced);
          r := Done(if synced then STATUS_OK else STATUS_IOERR, 1);
        }
      case In =>
        r, after, host := ExecuteRead(memory, mem, disk, device, request, iovecs);
      case Out =>
        r, host := ExecuteWrite(memory, mem, disk, device, request, iovecs);
    }
  }

  const STATUS_MALFORMED := "block status lease is malformed"

  /** `write_status`: only a one-byte lease will do. */
  method WriteStatus(memory: DmaMemory, ghost mem: Memory, request: Request, lease: seq<Part>, status: byte)
    returns (r: Result<()>)
    requires Over(memory, mem) && Tiles(memory.segments, lease, request.status)
    modifies memory.bases
    ensures r == if request.status.length == 1 then Ok(()) else Err(Malformed(STATUS_MALFORMED))
    ensures Over(memory, if r.Ok? then WithStatus(mem, request, status) else mem)
  {
    OnePart(memory.segments, lease, request.status);
    if |lease| != 1 || lease[0].length != 1 {
      return Err(Malformed(STATUS_MALFORMED));
    }
    memory.WritePart(lease[0], [status]);
    return Ok(());
  }

  /** The shape `write_status` checks for is that of a one-byte range. */
  lemma OnePart(segments: seq<Segment>, parts: seq<Part>, range: Range)
    requires Tiles(segments, parts, range)
    ensures |parts| == 1 && parts[0].length == 1 <==> range.length == 1
    ensures range.length == 1 ==> parts[0].gpa == range.gpa
  {
    if range.length == 1 {
      OneByteTiles(segments, parts, range);
    } else if |parts| == 1 {
      assert Addresses(parts[..0]) == [];
      assert |Addresses(parts)| == parts[0].length == |Span(range.gpa, range.length)|;
    }
  }

  /** The blocking half of `execute`: the data, then the status byte. */
  method ExecuteLeased(memory: DmaMemory, ghost mem: Memory, disk: array<byte>, device: Device,
                       request: Request, iovecs: seq<Part>, lease: seq<Part>)
    returns (r: Result<Completion>, ghost after: Memory, ghost host: Host)
    requires Over(memory, mem) && Vectors(memory, mem, request, iovecs) && disk !in memory.bases
    requires Tiles(memory.segments, lease, request.status)
    modifies disk, memory.bases
    ensures Over(memory, after) && HostKeepsContract(request, host)
    ensures Completed(device, old(disk[..]), mem, request, |iovecs|, host, disk[..], after, r)
    ensures r.Err? && request.status.length == 1 ==> disk[..] == old(disk[..])
  {
    hide DmaMemory.Contents, DmaMemory.Valid, Tiles;
    ghost var before := disk[..];
    r, after, host := ExecuteBlocking(memory, mem, disk, device, request, iovecs);
    FailureKeepsDisk(device, before, mem, request, |iovecs|, host);
    if r.Ok? {
      var written := WriteStatus(memory, after, request, lease, r.value.status);
      if written.Err? {
        return Err(written.error), after, host;
      }
      after := WithStatus(after, request, r.value.status);
    }
  }

  /** What `execute` leaves behind: the flat disk's outcome, and the status byte once it completes. */
  ghost predicate Completed(device: Device, disk: seq<byte>, mem: Memory, request: Request, iovecs: nat, host: Host,
                            disk': seq<byte>, mem': Memory, r: Result<Completion>)
  {
    && Covers(mem, Addressed(request.payload)) && HostKeepsContract(request, host)
    && var out := Execute(device, disk, mem, request, iovecs, host);
    && disk' == out.disk
    && match out.result
       case Err(error) => r == Err(error) && mem' == out.mem
       case Ok(completion) =>
         if request.status.length == 1 then r == out.result && mem' == WithStatus(out.mem, request, completion.status)
         else r == Err(Malformed(STATUS_MALFORMED)) && mem' == out.mem
  }

  /** A request that ends in an error, and so ends the run, has not changed the disk. */
  lemma FailureKeepsDisk(device: Device, disk: seq<byte>, mem: Memory, r: Request, iovecs: nat, host: Host)
    requires Covers(mem, Addressed(r.payload)) && HostKeepsContract(r, host)
    ensures var out := Execute(device, disk, mem, r, iovecs, host); out.result.Err? ==> out.disk == disk
  {
  }

  /**
   `execute`: leases payload and status, moves the data, then writes the status
   byte. Every lease it took is returned, a lease it cannot get changes nothing,
   and a completion is returned only after its own status byte stands in guest
   memory.
   */
  method ExecuteRequest(memory: DmaMemory, ghost mem: Memory, disk: array<byte>, device: Device, request: Request)
    returns (r: Result<Completion>, ghost after: Memory, ghost iovecs: nat, ghost host: Host)
    requires Over(memory, mem) && disk !in memory.bases
    modifies disk, memory`revoked, memory`drained, memory`active, memory.bases
    ensures Over(memory, after) && memory.active == old(memory.active)
    ensures
      || Completed(device, old(disk[..]), mem, request, iovecs, host, disk[..], after, r)
      || (r.Err? && after == mem && disk[..] == old(disk[..])
          && Refused(memory, request.payload + [request.status], r.error))
    ensures r.Err? && request.status.length == 1 ==> disk[..] == old(disk[..])
  {
    hide DmaMemory.Contents, DmaMemory.Valid, Completed, Refused;
    after, iovecs, host := mem, 0, Host(-1, false);
    var payload := LeaseAll(memory, mem, request.payload);
    if payload.Err? {
      RefusedMore(memory, request.payload, request.status, payload.error);
      return Err(payload.error), after, iovecs, host;
    }
    var status := memory.Lease(request.status);
    if status.Err? {
      DropAll(memory, |request.payload|);
      RefusedLast(memory, request.payload, request.status, status.error);
      return Err(status.error), after, iovecs, host;
    }
    iovecs := |payload.value|;
    LeasedCovers(memory, mem, payload.value);
    r, after, host := ExecuteLeased(memory, mem, disk, device, request, payload.value, status.value);
    DropAll(memory, |request.payload| + 1);
  }

  lemma RefusedMore(memory: DmaMemory, ranges: seq<Range>, last: Range, error: DeviceError)
    requires Refused(memory, ranges, error)
    ensures Refused(memory, ranges + [last], error)
  {
    if !(error == Down(Revoked) && memory.revoked) {
      var i :| 0 <= i < |ranges| && error == DmaRange(ranges[i].gpa, ranges[i].length)
        && !Usable(memory.segments, ranges[i]);
      assert (ranges + [last])[i] == ranges[i];
    }
  }

  lemma RefusedLast(memory: DmaMemory, ranges: seq<Range>, last: Range, error: DeviceError)
    requires
      || (error == Down(Revoked) && memory.revoked)
      || (error == DmaRange(last.gpa, last.length) && !Usable(memory.segments, last))
    ensures Refused(memory, ranges + [last], error)
  {
    assert (ranges + [last])[|ranges|] == last;
  }

  lemma LeasedCovers(memory: DmaMemory, mem: Memory, parts: seq<Part>)
    requires Over(memory, mem) && PartsOf(memory, parts)
    ensures Covers(mem, Addresses(parts))
    decreases |parts|
  {
    if parts != [] {
      LeasedCovers(memory, mem, parts[..|parts| - 1]);
      memory.PartLoad(parts[|parts| - 1]);
    }
  }
}
