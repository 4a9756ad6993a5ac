/**
 Virtio-vsock packet framing (src/vsock.rs:37-108 and 322-415; section 5.10.6 of
 VIRTIO Version 1.2).
 */
module Vsock {
  import opened Primitives
  import opened LittleEndian
  import opened GuestMemory
  import opened Dma
  import opened DescriptorChains
  import opened Scatter

  const HEADER_SIZE := 44
  const MAXIMUM_PACKET_SIZE := 64 * 1024
  const TYPE_STREAM := 1
  const TYPE_SEQPACKET := 2

  datatype Header = Header(
    sourceCid: u64, destinationCid: u64, sourcePort: u32, destinationPort: u32, length: u32,
    packetType: u16, operation: u16, flags: u32, bufferAllocation: u32, forwardCount: u32)

  datatype Packet = Packet(header: Header, payload: seq<byte>)

  // ------------------------------------------------------------------ header

  function EncodeHeader(h: Header): (bytes: seq<byte>)
    ensures |bytes| == HEADER_SIZE
  {
    Encode(h.sourceCid, 8) + Encode(h.destinationCid, 8) + Encode(h.sourcePort, 4) + Encode(h.destinationPort, 4)
    + Encode(h.length, 4) + Encode(h.packetType, 2) + Encode(h.operation, 2) + Encode(h.flags, 4)
    + Encode(h.bufferAllocation, 4) + Encode(h.forwardCount, 4)
  }

  function DecodeHeader(bytes: seq<byte>): (r: Result<Header>)
    ensures r.Ok? <==> |bytes| == HEADER_SIZE
  {
    if |bytes| != HEADER_SIZE then Err(Malformed("invalid virtio-vsock header length"))
    else Ok(Header(
      DecodeU64(bytes[0..8]), DecodeU64(bytes[8..16]), DecodeU32(bytes[16..20]), DecodeU32(bytes[20..24]),
      DecodeU32(bytes[24..28]), DecodeU16(bytes[28..30]), DecodeU16(bytes[30..32]), DecodeU32(bytes[32..36]),
      DecodeU32(bytes[36..40]), DecodeU32(bytes[40..44])))
  }

  /** The fields of an encoded header, where `decode` looks for them. */
  lemma HeaderFields(h: Header)
    ensures var b := EncodeHeader(h);
      && b[0..8] == Encode(h.sourceCid, 8) && b[8..16] == Encode(h.destinationCid, 8)
      && b[16..20] == Encode(h.sourcePort, 4) && b[20..24] == Encode(h.destinationPort, 4)
      && b[24..28] == Encode(h.length, 4) && b[28..30] == Encode(h.packetType, 2)
      && b[30..32] == Encode(h.operation, 2) && b[32..36] == Encode(h.flags, 4)
      && b[36..40] == Encode(h.bufferAllocation, 4) && b[40..44] == Encode(h.forwardCount, 4)
  {
  }

  lemma DecodeEncodedHeader(h: Header)
    ensures DecodeHeader(EncodeHeader(h)) == Ok(h)
  {
    HeaderFields(h);
    Limits();
    DecodeEncode(h.sourceCid, 8);
    DecodeEncode(h.destinationCid, 8);
    DecodeEncode(h.sourcePort, 4);
    DecodeEncode(h.destinationPort, 4);
    DecodeEncode(h.length, 4);
    DecodeEncode(h.packetType, 2);
    DecodeEncode(h.operation, 2);
    DecodeEncode(h.flags, 4);
    DecodeEncode(h.bufferAllocation, 4);
    DecodeEncode(h.forwardCount, 4);
  }

  lemma EncodeDecodedHeader(bytes: seq<byte>)
    requires |bytes| == HEADER_SIZE
    ensures EncodeHeader(DecodeHeader(bytes).value) == bytes
  {
    var h := DecodeHeader(bytes).value;
    HeaderFields(h);
    forall lo, hi | 0 <= lo <= hi <= HEADER_SIZE ensures Encode(Decode(bytes[lo..hi]), hi - lo) == bytes[lo..hi] {
      EncodeDecode(bytes[lo..hi]);
    }
    var b := EncodeHeader(h);
    assert b[0..8] == bytes[0..8] && b[8..16] == bytes[8..16] && b[16..20] == bytes[16..20];
    assert b[20..24] == bytes[20..24] && b[24..28] == bytes[24..28] && b[28..30] == bytes[28..30];
    assert b[30..32] == bytes[30..32] && b[32..36] == bytes[32..36];
    assert b[36..40] == bytes[36..40] && b[40..44] == bytes[40..44];
    SlicesDetermine(b, bytes);
  }

  lemma SlicesDetermine(a: seq<byte>, b: seq<byte>)
    requires |a| == |b| == HEADER_SIZE
    requires a[0..8] == b[0..8] && a[8..16] == b[8..16] && a[16..20] == b[16..20] && a[20..24] == b[20..24]
    requires a[24..28] == b[24..28] && a[28..30] == b[28..30] && a[30..32] == b[30..32] && a[32..36] == b[32..36]
    requires a[36..40] == b[36..40] && a[40..44] == b[40..44]
    ensures a == b
  {
    SliceConcat(a, b, 8, 16);
    SliceConcat(a, b, 16, 20);
    SliceConcat(a, b, 20, 24);
    SliceConcat(a, b, 24, 28);
    SliceConcat(a, b, 28, 30);
    SliceConcat(a, b, 30, 32);
    SliceConcat(a, b, 32, 36);
    SliceConcat(a, b, 36, 40);
    SliceConcat(a, b, 40, 44);
    assert a[0..44] == a && b[0..44] == b;
  }

  lemma SliceConcat(a: seq<byte>, b: seq<byte>, m: nat, n: nat)
    requires m <= n <= |a| && n <= |b| && a[0..m] == b[0..m] && a[m..n] == b[m..n]
    ensures a[0..n] == b[0..n]
  {
    assert a[0..n] == a[0..m] + a[m..n] && b[0..n] == b[0..m] + b[m..n];
  }

  // ------------------------------------------------------------------ packet

  /** `VsockPacket::validate` */
  predicate ValidPacket(p: Packet) {
    && (p.header.packetType == TYPE_STREAM || p.header.packetType == TYPE_SEQPACKET)
    && p.header.length == |p.payload|
    && |p.payload| <= MAXIMUM_PACKET_SIZE
  }

  function PacketBytes(p: Packet): Result<seq<byte>> {
    if !ValidPacket(p) then Err(Malformed("invalid virtio-vsock packet"))
    else Ok(EncodeHeader(p.header) + p.payload)
  }

  /** What `read_packet` makes of the bytes it gathered. */
  function ParsePacket(bytes: seq<byte>): Result<Packet> {
    if |bytes| < HEADER_SIZE then
      Err(Malformed("short virtio-vsock TX chain"))
    else
      var header := DecodeHeader(bytes[..HEADER_SIZE]).value;
      if |bytes| != HEADER_SIZE + header.length then
        Err(Malformed("virtio-vsock TX chain length mismatch"))
      else
        var packet := Packet(header, bytes[HEADER_SIZE..]);
        if ValidPacket(packet) then Ok(packet) else Err(Malformed("invalid virtio-vsock packet"))
  }

  /**
   The byte strings that are packets: 44 header bytes, the type in bytes 28 and 29
   either 1 or 2, the length in bytes 24 to 27 that of the rest, and at most 65536.
   */
  lemma PacketFormat(bytes: seq<byte>)
    ensures ParsePacket(bytes).Ok? <==>
      && 44 <= |bytes| <= 44 + 65536
      && DecodeU16(bytes[28..30]) in {1, 2}
      && DecodeU32(bytes[24..28]) == |bytes| - 44
    ensures ParsePacket(bytes).Ok? ==>
      var p := ParsePacket(bytes).value;
      && p.payload == bytes[44..]
      && p.header.sourceCid == DecodeU64(bytes[0..8]) && p.header.destinationCid == DecodeU64(bytes[8..16])
      && p.header.sourcePort == DecodeU32(bytes[16..20]) && p.header.destinationPort == DecodeU32(bytes[20..24])
      && p.header.length == DecodeU32(bytes[24..28]) && p.header.packetType == DecodeU16(bytes[28..30])
      && p.header.operation == DecodeU16(bytes[30..32]) && p.header.flags == DecodeU32(bytes[32..36])
      && p.header.bufferAllocation == DecodeU32(bytes[36..40]) && p.header.forwardCount == DecodeU32(bytes[40..44])
  {
    hide DecodeU16, DecodeU32, DecodeU64;
    if |bytes| >= 44 {
      HeaderSlices(bytes);
    }
  }

  /** Slices of the header part are slices of the whole. */
  lemma HeaderSlices(bytes: seq<byte>)
    requires |bytes| >= 44
    ensures forall i, j {:trigger bytes[..44][i..j]} :: 0 <= i <= j <= 44 ==> bytes[..44][i..j] == bytes[i..j]
  {
  }

  /** Every valid packet survives framing. */
  lemma ParseFramed(p: Packet)
    requires ValidPacket(p)
    ensures PacketBytes(p).Ok? && ParsePacket(PacketBytes(p).value) == Ok(p)
  {
    var bytes := EncodeHeader(p.header) + p.payload;
    assert bytes[..HEADER_SIZE] == EncodeHeader(p.header);
    assert bytes[HEADER_SIZE..] == p.payload;
    DecodeEncodedHeader(p.header);
  }

  /** Every accepted byte string is the framing of the packet it is accepted as. */
  lemma FrameParsed(bytes: seq<byte>)
    requires ParsePacket(bytes).Ok?
    ensures PacketBytes(ParsePacket(bytes).value) == Ok(bytes)
  {
    EncodeDecodedHeader(bytes[..HEADER_SIZE]);
    assert bytes == bytes[..HEADER_SIZE] + bytes[HEADER_SIZE..];
  }

  /** A framed packet with anything after it is refused. */
  lemma TrailingBytesRefused(p: Packet, tail: seq<byte>)
    requires ValidPacket(p) && tail != []
    ensures ParsePacket(PacketBytes(p).value + tail).Err?
  {
    var bytes := EncodeHeader(p.header) + p.payload + tail;
    assert bytes[..HEADER_SIZE] == EncodeHeader(p.header);
    DecodeEncodedHeader(p.header);
  }

  // --------------------------------------------------------- through a chain

  /**
   A packet written over buffers that do not overlap is read back from the same
   buffers exactly when they are filled to the last byte.
   */
  lemma PacketThroughMemory(mem: Memory, ranges: seq<Range>, p: Packet)
    requires ValidPacket(p) && Covers(mem, Addressed(ranges)) && NoDuplicates(Addressed(ranges))
    requires |PacketBytes(p).value| <= Capacity(ranges)
    ensures |PacketBytes(p).value| <= |Addressed(ranges)|
    ensures var mem' := Scattered(mem, ranges, PacketBytes(p).value);
      && Covers(mem', Addressed(ranges))
      && (ParsePacket(Gathered(mem', ranges)) == Ok(p) <==> Capacity(ranges) == |PacketBytes(p).value|)
  {
    var bytes := PacketBytes(p).value;
    GatherScattered(mem, ranges, bytes);
    CapacityIsLength(ranges);
    var tail := Gathered(mem, ranges)[|bytes|..];
    if tail == [] {
      assert bytes + tail == bytes;
      ParseFramed(p);
    } else {
      TrailingBytesRefused(p, tail);
    }
  }

  /** `read_packet` */
  method ReadPacket(memory: DmaMemory, ghost mem: Memory, chain: seq<Descriptor>) returns (r: Result<Packet>)
    requires Over(memory, mem)
    modifies memory`revoked, memory`drained, memory`active
    ensures Over(memory, mem) && memory.active == old(memory.active)
    ensures (exists i :: 0 <= i < |chain| && chain[i].Writable()) ==> r == Err(Malformed("vsock TX chain is writable"))
    ensures (forall i :: 0 <= i < |chain| ==> !chain[i].Writable()) ==>
      || (r.Err? && Refused(memory, RangesOf(chain), r.error))
      || (Covers(mem, Addressed(RangesOf(chain))) && r == ParsePacket(Gathered(mem, RangesOf(chain))))
  {
    if exists i :: 0 <= i < |chain| && chain[i].Writable() {
      return Err(Malformed("vsock TX chain is writable"));
    }
    var bytes := ReadChain(memory, mem, RangesOf(chain));
    if bytes.Err? {
      return Err(bytes.error);
    }
    return ParsePacket(bytes.value);
  }

  /** `write_packet` */
  method WritePacket(memory: DmaMemory, ghost mem: Memory, chain: seq<Descriptor>, bytes: seq<byte>)
    returns (r: Result<()>, ghost n: nat)
    requires Over(memory, mem)
    modifies memory`revoked, memory`drained, memory`active, memory.bases
    ensures memory.active == old(memory.active) && n <= |bytes| && n <= |Addressed(RangesOf(chain))|
    ensures Over(memory, Scattered(mem, RangesOf(chain), bytes[..n]))
    ensures r.Ok? ==> n == |bytes| && forall i :: 0 <= i < |chain| ==> chain[i].Writable()
    ensures Capacity(RangesOf(chain)) < |bytes| || (exists i :: 0 <= i < |chain| && !chain[i].Writable()) ==> n == 0
    ensures r.Err? ==>
      || (exists i :: 0 <= i < |chain| && !chain[i].Writable())
      || Capacity(RangesOf(chain)) < |bytes| || Capacity(RangesOf(chain)) >= U64_LIMIT
      || Refused(memory, RangesOf(chain), r.error)
  {
    n := 0;
    if exists i :: 0 <= i < |chain| && !chain[i].Writable() {
      return Err(Malformed("vsock RX chain is readable")), n;
    }
    r, n := WriteChain(memory, mem, RangesOf(chain), bytes);
  }
}
