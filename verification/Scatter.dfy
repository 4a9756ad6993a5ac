/**
 Scatter and gather over descriptor chains: `read_chain` and `write_chain` of
 src/network.rs:360-409 and src/vsock.rs:358-415, `read_range` and `write_reply`
 of src/fs.rs:633-671.
 */
module Scatter {
  import opened Primitives
  import opened GuestMemory
  import opened Dma
  import opened DescriptorChains

  function RangeOf(d: Descriptor): Range {
    Range(d.address, d.length)
  }

  function RangesOf(ds: seq<Descriptor>): (ranges: seq<Range>)
    ensures |ranges| == |ds| && forall i :: 0 <= i < |ds| ==> ranges[i] == RangeOf(ds[i])
  {
    seq(|ds|, i requires 0 <= i < |ds| => RangeOf(ds[i]))
  }

  /** The addresses of a list of ranges, in order. */
  ghost function Addressed(ranges: seq<Range>): seq<int> {
    if ranges == [] then []
    else Addressed(ranges[..|ranges| - 1]) + Span(ranges[|ranges| - 1].gpa, ranges[|ranges| - 1].length)
  }

  function Capacity(ranges: seq<Range>): nat {
    if ranges == [] then 0
    else Capacity(ranges[..|ranges| - 1]) + ranges[|ranges| - 1].length
  }

  /** The bytes of a chain, read in order. */
  ghost function Gathered(mem: Memory, ranges: seq<Range>): seq<byte>
    requires Covers(mem, Addressed(ranges))
  {
    Load(mem, Addressed(ranges))
  }

  /** `bytes` written over the start of a chain, in order. */
  ghost function Scattered(mem: Memory, ranges: seq<Range>, bytes: seq<byte>): Memory
    requires |bytes| <= |Addressed(ranges)|
  {
    Store(mem, Addressed(ranges)[..|bytes|], bytes)
  }

  lemma {:induction false} CapacityIsLength(ranges: seq<Range>)
    ensures |Addressed(ranges)| == Capacity(ranges)
    decreases |ranges|
  {
    if ranges != [] {
      CapacityIsLength(ranges[..|ranges| - 1]);
    }
  }

  lemma PrefixStep(ranges: seq<Range>, i: nat)
    requires i < |ranges|
    ensures Addressed(ranges[..i + 1]) == Addressed(ranges[..i]) + Span(ranges[i].gpa, ranges[i].length)
    ensures Capacity(ranges[..i + 1]) == Capacity(ranges[..i]) + ranges[i].length
  {
    assert ranges[..i + 1][..i] == ranges[..i];
  }

  lemma {:induction false} PrefixOf(ranges: seq<Range>, i: nat)
    requires i <= |ranges|
    ensures Addressed(ranges[..i]) <= Addressed(ranges)
    ensures Capacity(ranges[..i]) <= Capacity(ranges)
    decreases |ranges| - i
  {
    if i == |ranges| {
      assert ranges[..i] == ranges;
    } else {
      PrefixStep(ranges, i);
      PrefixOf(ranges, i + 1);
    }
  }

  /**
   Scatter inverts gather: over buffers that do not overlap, reading the chain
   back gives the bytes written, followed by what the rest of the chain held.
   */
  lemma GatherScattered(mem: Memory, ranges: seq<Range>, bytes: seq<byte>)
    requires Covers(mem, Addressed(ranges)) && NoDuplicates(Addressed(ranges)) && |bytes| <= Capacity(ranges)
    ensures |bytes| <= |Addressed(ranges)|
    ensures Covers(Scattered(mem, ranges, bytes), Addressed(ranges))
    ensures Gathered(Scattered(mem, ranges, bytes), ranges) == bytes + Gathered(mem, ranges)[|bytes|..]
  {
    CapacityIsLength(ranges);
    LoadAfterPrefix(mem, Addressed(ranges), bytes);
  }

  /** Gathering, scattering the result back and gathering again changes nothing. */
  lemma ScatterGathered(mem: Memory, ranges: seq<Range>)
    requires Covers(mem, Addressed(ranges)) && NoDuplicates(Addressed(ranges))
    ensures |Gathered(mem, ranges)| == |Addressed(ranges)|
    ensures Scattered(mem, ranges, Gathered(mem, ranges)) == mem
  {
    var all, bytes := Addressed(ranges), Gathered(mem, ranges);
    assert all[..|bytes|] == all;
    var mem' := Store(mem, all, bytes);
    StoreFrame(mem, all, bytes);
    forall a ensures a in mem' <==> a in mem {
      assert a in all ==> a in mem;
    }
    forall a | a in mem ensures mem'[a] == mem[a] {
      if a in all {
        var i :| 0 <= i < |all| && all[i] == a;
        StoreAt(mem, all, bytes, i);
      }
    }
  }

  // ----------------------------------------------------------------- methods

  ghost predicate Over(memory: DmaMemory, mem: Memory)
    reads memory.bases, memory`revoked
  {
    memory.Valid() && memory.Governed() && memory.Contents() == mem
  }

  /** Why a transfer over leased ranges can fail: revoked, or some range is not mapped. */
  ghost predicate Refused(memory: DmaMemory, ranges: seq<Range>, error: DeviceError)
    reads memory`revoked
  {
    || (error == Down(Revoked) && memory.revoked)
    || exists i :: 0 <= i < |ranges| && error == DmaRange(ranges[i].gpa, ranges[i].length)
         && !Usable(memory.segments, ranges[i])
  }

  ghost predicate Usable(segments: seq<Segment>, range: Range) {
    range.Fits() && RangeMapped(segments, range)
  }

  lemma CoveredUsable(memory: DmaMemory, mem: Memory, range: Range)
    requires Over(memory, mem) && Covers(mem, Span(range.gpa, range.length)) && range.length > 0
    ensures Usable(memory.segments, range)
  {
    forall a | range.gpa <= a < range.gpa + range.length ensures Mapped(memory.segments, a) {
      assert Span(range.gpa, range.length)[a - range.gpa] == a;
      memory.ContentsDomain(a);
    }
    var last := range.gpa + range.length - 1;
    assert Mapped(memory.segments, last);
  }

  /** How many bytes the first `i` parts hold. */
  ghost function Held(parts: seq<Part>, i: nat): nat
    requires i <= |parts|
  {
    |Addresses(parts[..i])|
  }

  /** The first `n` bytes have been copied over the start of the parts. */
  ghost predicate Copied(memory: DmaMemory, mem: Memory, parts: seq<Part>, bytes: seq<byte>, n: nat)
    requires n <= |bytes| && n <= |Addresses(parts)|
    reads memory.bases, memory`revoked
  {
    Over(memory, Store(mem, Addresses(parts)[..n], bytes[..n]))
  }

  lemma PartAddresses(parts: seq<Part>, i: nat, n: nat)
    requires i < |parts| && n <= parts[i].length
    ensures Held(parts, i + 1) == Held(parts, i) + parts[i].length <= |Addresses(parts)|
    ensures Addresses(parts)[Held(parts, i)..Held(parts, i) + n] == Span(parts[i].gpa, n)
  {
    AddressesSnoc(parts, i);
    assert parts == parts[..i + 1] + parts[i + 1..];
    AddressesConcat(parts[..i + 1], parts[i + 1..]);
  }

  lemma StoreNext(mem: Memory, all: seq<int>, bytes: seq<byte>, from: nat, to: nat)
    requires from <= to <= |all| && to <= |bytes|
    ensures Store(Store(mem, all[..from], bytes[..from]), all[from..to], bytes[from..to])
         == Store(mem, all[..to], bytes[..to])
  {
    assert all[..to] == all[..from] + all[from..to] && bytes[..to] == bytes[..from] + bytes[from..to];
    StoreConcat(mem, all[..from], all[from..to], bytes[..from], bytes[from..to]);
  }

  /** Copies as many of the remaining bytes as fit into the next part. */
  method CopyToPart(memory: DmaMemory, ghost mem: Memory, parts: seq<Part>, i: nat, bytes: seq<byte>, offset: nat)
    returns (next: nat)
    requires i < |parts| && PartOf(memory.segments, parts[i])
    requires offset == Held(parts, i) <= |bytes| && offset <= |Addresses(parts)|
    requires Copied(memory, mem, parts, bytes, offset)
    modifies memory.bases
    ensures next == Min(Held(parts, i + 1), |bytes|) && next <= |Addresses(parts)|
    ensures Copied(memory, mem, parts, bytes, next)
  {
    var count := Min(parts[i].length, |bytes| - offset);
    next := offset + count;
    PartAddresses(parts, i, count);
    memory.WritePart(parts[i], bytes[offset..next]);
    StoreNext(mem, Addresses(parts), bytes, offset, next);
  }

  /** The inner copying loop: as many of the bytes as fit, in order, over a list of parts. */
  method CopyToParts(memory: DmaMemory, ghost mem: Memory, parts: seq<Part>, bytes: seq<byte>) returns (offset: nat)
    requires Over(memory, mem) && forall i :: 0 <= i < |parts| ==> PartOf(memory.segments, parts[i])
    modifies memory.bases
    ensures offset == Min(|Addresses(parts)|, |bytes|)
    ensures Copied(memory, mem, parts, bytes, offset)
  {
    offset := 0;
    var i := 0;
    while i < |parts| && offset != |bytes|
      invariant 0 <= i <= |parts| && offset == Min(Held(parts, i), |bytes|) && Held(parts, i) <= |Addresses(parts)|
      invariant Copied(memory, mem, parts, bytes, offset)
    {
      PartAddresses(parts, i, 0);
      offset := CopyToPart(memory, mem, parts, i, bytes, offset);
      i := i + 1;
    }
    assert i == |parts| ==> Held(parts, i) == |Addresses(parts)| by { assert parts[..|parts|] == parts; }
  }

  /** One range's share of a scatter extends the scatter so far. */
  lemma ScatterMore(mem: Memory, ranges: seq<Range>, bytes: seq<byte>, i: nat, start: nat, end: nat)
    requires i < |ranges| && start <= end <= |bytes|
    requires start == Capacity(ranges[..i]) && end == Min(start + ranges[i].length, |bytes|)
    ensures end <= |Addressed(ranges)|
    ensures Store(Scattered(mem, ranges, bytes[..start]), Span(ranges[i].gpa, end - start), bytes[start..end])
         == Scattered(mem, ranges, bytes[..end])
  {
    RangeAt(ranges, i, end - start);
    StoreNext(mem, Addressed(ranges), bytes, start, end);
  }

  /** Where the addresses of one range stand in the list of all. */
  lemma RangeAt(ranges: seq<Range>, i: nat, n: nat)
    requires i < |ranges| && n <= ranges[i].length
    ensures var start := Capacity(ranges[..i]);
      start + n <= |Addressed(ranges)| && Addressed(ranges)[start..start + n] == Span(ranges[i].gpa, n)
  {
    hide Addressed, Capacity;
    PrefixStep(ranges, i);
    PrefixOf(ranges, i + 1);
    CapacityIsLength(ranges[..i]);
    CapacityIsLength(ranges[..i + 1]);
    var all, start := Addressed(ranges), Capacity(ranges[..i]);
    forall k | 0 <= k < n ensures all[start + k] == Span(ranges[i].gpa, n)[k] {
      assert all[start + k] == Addressed(ranges[..i + 1])[start + k];
    }
  }

  /** One range's turn: lease it, copy what fits, drop the lease. */
  method ScatterToRange(memory: DmaMemory, ghost mem: Memory, range: Range, bytes: seq<byte>, offset: nat)
    returns (r: Result<()>, next: nat)
    requires Over(memory, mem) && offset <= |bytes|
    modifies memory`revoked, memory`drained, memory`active, memory.bases
    ensures memory.active == old(memory.active) && offset <= next <= |bytes|
    ensures Over(memory, Store(mem, Span(range.gpa, next - offset), bytes[offset..next]))
    ensures r.Ok? ==> next == Min(offset + range.length, |bytes|)
    ensures r.Err? ==> next == offset
    ensures r.Err? ==>
      || (r.error == Down(Revoked) && memory.revoked)
      || (r.error == DmaRange(range.gpa, range.length) && !Usable(memory.segments, range))
  {
    hide DmaMemory.Contents, DmaMemory.Valid;
    next := offset;
    var lease := memory.Lease(range);
    if lease.Err? {
      return Err(lease.error), next;
    }
    var count := CopyToParts(memory, mem, lease.value, bytes[offset..]);
    memory.DropActive();
    next := offset + count;
    assert Span(range.gpa, range.length)[..count] == Span(range.gpa, count);
    assert bytes[offset..][..count] == bytes[offset..next];
    return Ok(()), next;
  }

  /**
   The copying loop of `write_chain` and `write_reply`, entered with enough
   capacity: it cannot run out of ranges before it runs out of bytes.
   */
  method ScatterBytes(memory: DmaMemory, ghost mem: Memory, ranges: seq<Range>, bytes: seq<byte>)
    returns (r: Result<()>, ghost n: nat)
    requires Over(memory, mem) && |bytes| <= Capacity(ranges)
    modifies memory`revoked, memory`drained, memory`active, memory.bases
    ensures memory.active == old(memory.active) && n <= |bytes| <= |Addressed(ranges)|
    ensures Over(memory, Scattered(mem, ranges, bytes[..n]))
    ensures r.Ok? ==> n == |bytes|
    ensures r.Err? ==> Refused(memory, ranges, r.error)
  {
    CapacityIsLength(ranges);
    var offset, i := 0, 0;
    n := 0;
    while offset != |bytes|
      invariant 0 <= i <= |ranges| && offset == Min(Capacity(ranges[..i]), |bytes|)
      invariant memory.active == old(memory.active)
      invariant Over(memory, Scattered(mem, ranges, bytes[..offset]))
      decreases |ranges| - i
    {
      n := offset;
      assert i < |ranges| by { assert ranges[..|ranges|] == ranges; }
      PrefixStep(ranges, i);
      var copied, next := ScatterToRange(memory, Scattered(mem, ranges, bytes[..offset]), ranges[i], bytes, offset);
      if copied.Err? {
        return copied, n;
      }
      ScatterMore(mem, ranges, bytes, i, offset, next);
      offset := next;
      i := i + 1;
    }
    n := offset;
    return Ok(()), n;
  }

  /** The `try_fold` with `checked_add` over range lengths. */
  method CheckedCapacity(ranges: seq<Range>) returns (r: Option<nat>)
    ensures r == if Capacity(ranges) < U64_LIMIT then Some(Capacity(ranges)) else None
  {
    var total := 0;
    for i := 0 to |ranges|
      invariant total == Capacity(ranges[..i]) < U64_LIMIT
    {
      PrefixStep(ranges, i);
      PrefixOf(ranges, i + 1);
      total := total + ranges[i].length;
      if total >= U64_LIMIT {
        return None;
      }
    }
    assert ranges[..|ranges|] == ranges;
    return Some(total);
  }

  const CAPACITY_OVERFLOW := "capacity overflows usize"
  const CHAIN_TOO_SHORT := "chain is too short"

  /**
   `write_chain`: `Ok` means every byte is in place although the loop never
   checks; an error leaves a prefix written and nothing else changed.
   */
  method WriteChain(memory: DmaMemory, ghost mem: Memory, ranges: seq<Range>, bytes: seq<byte>)
    returns (r: Result<()>, ghost n: nat)
    requires Over(memory, mem)
    modifies memory`revoked, memory`drained, memory`active, memory.bases
    ensures memory.active == old(memory.active) && n <= |bytes| && n <= |Addressed(ranges)|
    ensures Over(memory, Scattered(mem, ranges, bytes[..n]))
    ensures r.Ok? ==> n == |bytes|
    ensures r == Err(Malformed(CHAIN_TOO_SHORT)) <==> Capacity(ranges) < |bytes| && Capacity(ranges) < U64_LIMIT
    ensures r == Err(Malformed(CAPACITY_OVERFLOW)) <==> Capacity(ranges) >= U64_LIMIT
    ensures Capacity(ranges) < |bytes| || Capacity(ranges) >= U64_LIMIT ==> n == 0
    ensures Capacity(ranges) >= |bytes| && Capacity(ranges) < U64_LIMIT && r.Err? ==> Refused(memory, ranges, r.error)
  {
    n := 0;
    var capacity := CheckedCapacity(ranges);
    if capacity.None? {
      return Err(Malformed(CAPACITY_OVERFLOW)), n;
    }
    if capacity.value < |bytes| {
      return Err(Malformed(CHAIN_TOO_SHORT)), n;
    }
    r, n := ScatterBytes(memory, mem, ranges, bytes);
  }

  /**
   `write_reply`: what it returns is the length written. The error after its
   loop has no counterpart here because the loop cannot fall through.
   */
  method WriteReply(memory: DmaMemory, ghost mem: Memory, ranges: seq<Range>, reply: seq<byte>)
    returns (r: Result<u32>, ghost n: nat)
    requires Over(memory, mem)
    modifies memory`revoked, memory`drained, memory`active, memory.bases
    ensures memory.active == old(memory.active) && n <= |reply| && n <= |Addressed(ranges)|
    ensures Over(memory, Scattered(mem, ranges, reply[..n]))
    ensures r.Ok? ==> n == |reply| && r.value == |reply|
    ensures Capacity(ranges) < |reply| || Capacity(ranges) >= U64_LIMIT ==> n == 0
    ensures r.Err? ==>
      || Refused(memory, ranges, r.error)
      || (r.error.Malformed? && (Capacity(ranges) < |reply| || Capacity(ranges) >= U64_LIMIT || |reply| >= U32_LIMIT))
  {
    n := 0;
    if reply == [] {
      return Ok(0), n;
    }
    var capacity := CheckedCapacity(ranges);
    if capacity.None? {
      return Err(Malformed(CAPACITY_OVERFLOW)), n;
    }
    if |reply| > capacity.value {
      return Err(Malformed("virtio-fs reply does not fit descriptors")), n;
    }
    var written;
    written, n := ScatterBytes(memory, mem, ranges, reply);
    if written.Err? {
      return Err(written.error), n;
    }
    if |reply| >= U32_LIMIT {
      return Err(Malformed("virtio-fs reply too large")), n;
    }
    return Ok(|reply|), n;
  }

  lemma LoadRange(mem: Memory, ranges: seq<Range>, i: nat)
    requires i < |ranges| && Covers(mem, Addressed(ranges[..i])) && Covers(mem, Span(ranges[i].gpa, ranges[i].length))
    ensures Covers(mem, Addressed(ranges[..i + 1]))
    ensures Load(mem, Addressed(ranges[..i + 1])) ==
      Load(mem, Addressed(ranges[..i])) + Load(mem, Span(ranges[i].gpa, ranges[i].length))
  {
    PrefixStep(ranges, i);
  }

  /** `read_chain`: the gathered bytes, or the reason a lease was refused. */
  method ReadChain(memory: DmaMemory, ghost mem: Memory, ranges: seq<Range>) returns (r: Result<seq<byte>>)
    requires Over(memory, mem)
    modifies memory`revoked, memory`drained, memory`active
    ensures memory.active == old(memory.active) && Over(memory, mem)
    ensures r.Ok? ==> Covers(mem, Addressed(ranges)) && r.value == Gathered(mem, ranges)
    ensures r.Err? ==> Refused(memory, ranges, r.error)
  {
    hide DmaMemory.Contents, DmaMemory.Valid;
    var bytes: seq<byte> := [];
    for i := 0 to |ranges|
      invariant memory.active == old(memory.active) && Over(memory, mem)
      invariant Covers(mem, Addressed(ranges[..i])) && bytes == Load(mem, Addressed(ranges[..i]))
    {
      var lease := memory.Lease(ranges[i]);
      if lease.Err? {
        return Err(lease.error);
      }
      var more := memory.ReadLease(lease.value, ranges[i]);
      memory.DropActive();
      LoadRange(mem, ranges, i);
      bytes := bytes + more;
    }
    assert ranges[..|ranges|] == ranges;
    return Ok(bytes);
  }
}
