/**
 Where the rings of a split virtqueue lie in guest memory (src/queue.rs:6-43 and
 the addresses of src/queue.rs:101-195), and how the writes of `complete` change
 what the rings say.
 */
module RingLayout {
  import opened Primitives
  import opened Arithmetic
  import opened LittleEndian
  import opened GuestMemory
  import opened Dma
  import opened DescriptorChains
  import opened QueueProtocol

  datatype Layout = Layout(index: u16, size: u16, descriptors: Range, available: Range, used: Range)

  /** The ring sizes `QueueLayout::validate` asks for. */
  ghost predicate BigEnough(l: Layout) {
    && l.descriptors.length >= l.size * 16
    && l.available.length >= 4 + l.size * 2
    && l.used.length >= 4 + l.size * 8
  }

  ghost predicate RangeUsable(segments: seq<Segment>, range: Range) {
    range.Fits() && RangeMapped(segments, range)
  }

  /** What `QueueLayout::validate` establishes. */
  ghost predicate Validated(l: Layout, segments: seq<Segment>) {
    && 0 < l.size && PowerOfTwo(l.size)
    && BigEnough(l)
    && RangeUsable(segments, l.descriptors)
    && RangeUsable(segments, l.available)
    && RangeUsable(segments, l.used)
  }

  /** Section 2.7 of VIRTIO 1.2: the driver allocates the three parts apart. `validate` does not check it. */
  ghost predicate Apart(a: Range, b: Range) {
    a.gpa + a.length <= b.gpa || b.gpa + b.length <= a.gpa
  }

  ghost predicate RingsApart(l: Layout) {
    Apart(l.descriptors, l.used) && Apart(l.available, l.used)
  }

  function DescriptorAddress(l: Layout, i: int): int { l.descriptors.gpa + i * 16 }
  function AvailIndexAddress(l: Layout): int { l.available.gpa + 2 }
  function AvailAddress(l: Layout, i: int): int { l.available.gpa + 4 + i * 2 }
  function UsedIndexAddress(l: Layout): int { l.used.gpa + 2 }
  function UsedIdAddress(l: Layout, i: int): int { l.used.gpa + 4 + i * 8 }
  function UsedLengthAddress(l: Layout, i: int): int { l.used.gpa + 4 + i * 8 + 4 }

  /** `[a, a + n)` lies in `range`. */
  predicate Within(range: Range, a: int, n: nat) {
    range.gpa <= a && a + n <= range.gpa + range.length
  }

  /** Every access of `pop`, `complete` and `read_descriptor` stays inside its ring and below 2^64. */
  lemma AccessesInside(l: Layout, segments: seq<Segment>, i: int)
    requires Validated(l, segments) && 0 <= i < l.size
    ensures Within(l.descriptors, DescriptorAddress(l, i), 16) && DescriptorAddress(l, i) + 16 < U64_LIMIT
    ensures Within(l.available, AvailIndexAddress(l), 2) && AvailIndexAddress(l) + 2 < U64_LIMIT
    ensures Within(l.available, AvailAddress(l, i), 2) && AvailAddress(l, i) + 2 < U64_LIMIT
    ensures Within(l.used, UsedIndexAddress(l), 2) && UsedIndexAddress(l) + 2 < U64_LIMIT
    ensures Within(l.used, UsedIdAddress(l, i), 4) && Within(l.used, UsedLengthAddress(l, i), 4)
    ensures UsedLengthAddress(l, i) + 4 < U64_LIMIT
  {
  }

  /** A range inside a usable one is usable, so leasing it fails only by revocation. */
  lemma InsideUsable(segments: seq<Segment>, outer: Range, a: u64, n: usize)
    requires RangeUsable(segments, outer) && Within(outer, a, n)
    ensures RangeUsable(segments, Range(a, n))
  {
    forall x | a <= x < a + n ensures Mapped(segments, x) {
      assert outer.gpa <= x < outer.gpa + outer.length;
    }
  }

  // -------------------------------------------------------------------- view

  ghost predicate InMemory(mem: Memory, range: Range) {
    forall a :: range.gpa <= a < range.gpa + range.length ==> a in mem
  }

  ghost predicate RingsInMemory(mem: Memory, l: Layout) {
    && BigEnough(l)
    && InMemory(mem, l.descriptors) && InMemory(mem, l.available) && InMemory(mem, l.used)
  }

  ghost predicate Has(mem: Memory, a: int, n: nat) {
    Covers(mem, Span(a, n))
  }

  lemma WithinHas(mem: Memory, range: Range, a: int, n: nat)
    requires InMemory(mem, range) && Within(range, a, n)
    ensures Has(mem, a, n)
  {
    forall i | 0 <= i < n ensures Span(a, n)[i] in mem {
      assert a + i in mem;
    }
  }

  ghost function U16At(mem: Memory, range: Range, a: int): u16
    requires InMemory(mem, range) && Within(range, a, 2)
  {
    WithinHas(mem, range, a, 2);
    DecodeU16(Load(mem, Span(a, 2)))
  }

  ghost function U32At(mem: Memory, range: Range, a: int): u32
    requires InMemory(mem, range) && Within(range, a, 4)
  {
    WithinHas(mem, range, a, 4);
    DecodeU32(Load(mem, Span(a, 4)))
  }

  /** `read_descriptor`: sixteen bytes as a descriptor. */
  function DecodeDescriptor(bytes: seq<byte>): Descriptor
    requires |bytes| == 16
  {
    Descriptor(DecodeU64(bytes[0..8]), DecodeU32(bytes[8..12]), DecodeU16(bytes[12..14]), DecodeU16(bytes[14..16]))
  }

  ghost function DescriptorAt(mem: Memory, l: Layout, i: nat): Descriptor
    requires RingsInMemory(mem, l) && i < l.size
  {
    WithinHas(mem, l.descriptors, DescriptorAddress(l, i), 16);
    DecodeDescriptor(Load(mem, Span(DescriptorAddress(l, i), 16)))
  }

  ghost function TableOf(mem: Memory, l: Layout): (table: Table)
    requires RingsInMemory(mem, l)
    ensures |table| == l.size
  {
    seq(l.size, i requires 0 <= i < l.size => DescriptorAt(mem, l, i))
  }

  ghost function Avail(mem: Memory, l: Layout): (s: seq<u16>)
    requires RingsInMemory(mem, l)
    ensures |s| == l.size
  {
    seq(l.size, i requires 0 <= i < l.size => U16At(mem, l.available, AvailAddress(l, i)))
  }

  ghost function UsedIds(mem: Memory, l: Layout): (s: seq<u32>)
    requires RingsInMemory(mem, l)
    ensures |s| == l.size
  {
    seq(l.size, i requires 0 <= i < l.size => U32At(mem, l.used, UsedIdAddress(l, i)))
  }

  ghost function UsedLengths(mem: Memory, l: Layout): (s: seq<u32>)
    requires RingsInMemory(mem, l)
    ensures |s| == l.size
  {
    seq(l.size, i requires 0 <= i < l.size => U32At(mem, l.used, UsedLengthAddress(l, i)))
  }

  /** The rings the protocol of QueueProtocol talks about, decoded from guest memory. */
  ghost function View(mem: Memory, l: Layout): Rings
    requires RingsInMemory(mem, l)
  {
    Rings(U16At(mem, l.available, AvailIndexAddress(l)), Avail(mem, l),
          U16At(mem, l.used, UsedIndexAddress(l)), UsedIds(mem, l), UsedLengths(mem, l))
  }

  // ------------------------------------------------------------- ring format

  /** The bytes of a memory from `a` on, as the integer they encode. */
  ghost function IntegerAt(mem: Memory, a: int, n: nat): nat
    requires Has(mem, a, n)
  {
    Decode(Load(mem, Span(a, n)))
  }

  /** Section 2.7 of VIRTIO 1.2: where the fields of both rings lie, and how wide they are. */
  lemma RingFormat(mem: Memory, l: Layout, i: nat)
    requires RingsInMemory(mem, l) && i < l.size
    ensures Has(mem, l.available.gpa + 2, 2) && View(mem, l).availIndex == IntegerAt(mem, l.available.gpa + 2, 2)
    ensures Has(mem, l.available.gpa + 4 + 2 * i, 2)
         && View(mem, l).avail[i] == IntegerAt(mem, l.available.gpa + 4 + 2 * i, 2)
    ensures Has(mem, l.used.gpa + 2, 2) && View(mem, l).usedIndex == IntegerAt(mem, l.used.gpa + 2, 2)
    ensures Has(mem, l.used.gpa + 4 + 8 * i, 4)
         && View(mem, l).usedIds[i] == IntegerAt(mem, l.used.gpa + 4 + 8 * i, 4)
    ensures Has(mem, l.used.gpa + 8 + 8 * i, 4)
         && View(mem, l).usedLengths[i] == IntegerAt(mem, l.used.gpa + 8 + 8 * i, 4)
  {
    WithinHas(mem, l.available, l.available.gpa + 2, 2);
    WithinHas(mem, l.available, l.available.gpa + 4 + 2 * i, 2);
    WithinHas(mem, l.used, l.used.gpa + 2, 2);
    WithinHas(mem, l.used, l.used.gpa + 4 + 8 * i, 4);
    WithinHas(mem, l.used, l.used.gpa + 8 + 8 * i, 4);
  }

  /** The sixteen bytes of descriptor `i`: address, length, flags, next. */
  lemma DescriptorFormat(mem: Memory, l: Layout, i: nat)
    requires RingsInMemory(mem, l) && i < l.size
    ensures var g, d := l.descriptors.gpa + 16 * i, TableOf(mem, l)[i];
      && Has(mem, g, 8) && Has(mem, g + 8, 4) && Has(mem, g + 12, 2) && Has(mem, g + 14, 2)
      && d.address == IntegerAt(mem, g, 8) && d.length == IntegerAt(mem, g + 8, 4)
      && d.flags == IntegerAt(mem, g + 12, 2) && d.next == IntegerAt(mem, g + 14, 2)
  {
    var g := l.descriptors.gpa + 16 * i;
    WithinHas(mem, l.descriptors, g, 16);
    var bytes := Load(mem, Span(g, 16));
    LoadSlice(mem, g, 16, 0, 8);
    LoadSlice(mem, g, 16, 8, 12);
    LoadSlice(mem, g, 16, 12, 14);
    LoadSlice(mem, g, 16, 14, 16);
  }

  lemma LoadSlice(mem: Memory, a: int, n: nat, from: nat, to: nat)
    requires Has(mem, a, n) && from <= to <= n
    ensures Has(mem, a + from, to - from)
    ensures Load(mem, Span(a, n))[from..to] == Load(mem, Span(a + from, to - from))
  {
    var part := Span(a + from, to - from);
    forall i | 0 <= i < |part| ensures part[i] in mem {
      assert Span(a, n)[from + i] == part[i];
    }
  }

  /** A used element is eight bytes, the id first; the index is two. What `complete` leaves there. */
  lemma UsedBytes(mem: Memory, l: Layout, i: nat)
    requires RingsInMemory(mem, l) && i < l.size
    ensures Has(mem, l.used.gpa + 4 + 8 * i, 8) && Has(mem, l.used.gpa + 2, 2)
    ensures Load(mem, Span(l.used.gpa + 4 + 8 * i, 8)) ==
      Encode(View(mem, l).usedIds[i], 4) + Encode(View(mem, l).usedLengths[i], 4)
    ensures Load(mem, Span(l.used.gpa + 2, 2)) == Encode(View(mem, l).usedIndex, 2)
  {
    hide View, Encode, Decode;
    var a := l.used.gpa + 4 + 8 * i;
    WithinHas(mem, l.used, a, 8);
    RingFormat(mem, l, i);
    LoadSlice(mem, a, 8, 0, 4);
    LoadSlice(mem, a, 8, 4, 8);
    EncodeDecode(Load(mem, Span(a, 4)));
    EncodeDecode(Load(mem, Span(a + 4, 4)));
    EncodeDecode(Load(mem, Span(l.used.gpa + 2, 2)));
    var bytes := Load(mem, Span(a, 8));
    assert bytes == bytes[0..4] + bytes[4..8];
  }

  /** The layouts `validate` accepts, in numbers: sixteen sizes, and how long each ring must be. */
  lemma LayoutFormat(l: Layout, segments: seq<Segment>)
    ensures Validated(l, segments) <==>
      && l.size in {1, 2, 4, 8, 0x10, 0x20, 0x40, 0x80, 0x100, 0x200, 0x400, 0x800, 0x1000, 0x2000, 0x4000, 0x8000}
      && l.descriptors.length >= 16 * l.size
      && l.available.length >= 4 + 2 * l.size
      && l.used.length >= 4 + 8 * l.size
      && l.descriptors.gpa + l.descriptors.length < 0x1_0000_0000_0000_0000 && RangeMapped(segments, l.descriptors)
      && l.available.gpa + l.available.length < 0x1_0000_0000_0000_0000 && RangeMapped(segments, l.available)
      && l.used.gpa + l.used.length < 0x1_0000_0000_0000_0000 && RangeMapped(segments, l.used)
  {
    SmallPowers(l.size);
  }

  // ----------------------------------------------------- writes to the rings

  ghost function Written(mem: Memory, a: int, bytes: seq<byte>): Memory {
    Store(mem, Span(a, |bytes|), bytes)
  }

  lemma WrittenRings(mem: Memory, l: Layout, a: int, bytes: seq<byte>)
    requires RingsInMemory(mem, l)
    ensures RingsInMemory(Written(mem, a, bytes), l)
  {
    StoreSpan(mem, a, bytes);
  }

  /** Bytes outside the written span read as before. */
  lemma LoadUntouched(mem: Memory, a: int, bytes: seq<byte>, b: int, n: nat)
    requires Has(mem, b, n) && (b + n <= a || a + |bytes| <= b)
    ensures Has(Written(mem, a, bytes), b, n)
    ensures Load(Written(mem, a, bytes), Span(b, n)) == Load(mem, Span(b, n))
  {
    LoadElsewhere(mem, Span(a, |bytes|), bytes, Span(b, n));
  }

  lemma U16Untouched(mem: Memory, range: Range, a: int, bytes: seq<byte>, b: int)
    requires InMemory(mem, range) && InMemory(Written(mem, a, bytes), range) && Within(range, b, 2)
    requires b + 2 <= a || a + |bytes| <= b
    ensures U16At(Written(mem, a, bytes), range, b) == U16At(mem, range, b)
  {
    WithinHas(mem, range, b, 2);
    LoadUntouched(mem, a, bytes, b, 2);
  }

  lemma U32Untouched(mem: Memory, range: Range, a: int, bytes: seq<byte>, b: int)
    requires InMemory(mem, range) && InMemory(Written(mem, a, bytes), range) && Within(range, b, 4)
    requires b + 4 <= a || a + |bytes| <= b
    ensures U32At(Written(mem, a, bytes), range, b) == U32At(mem, range, b)
  {
    WithinHas(mem, range, b, 4);
    LoadUntouched(mem, a, bytes, b, 4);
  }

  lemma LoadWritten(mem: Memory, a: int, v: nat, n: nat)
    requires v < Limit(n)
    ensures Has(Written(mem, a, Encode(v, n)), a, n)
    ensures Decode(Load(Written(mem, a, Encode(v, n)), Span(a, n))) == v
  {
    LoadStored(mem, Span(a, n), Encode(v, n));
    DecodeEncode(v, n);
  }

  /** A write inside the used ring leaves the descriptor table and the available ring alone. */
  lemma UsedWriteElsewhere(mem: Memory, l: Layout, a: int, bytes: seq<byte>)
    requires RingsInMemory(mem, l) && RingsApart(l) && Within(l.used, a, |bytes|)
    ensures RingsInMemory(Written(mem, a, bytes), l)
    ensures TableOf(Written(mem, a, bytes), l) == TableOf(mem, l)
    ensures Avail(Written(mem, a, bytes), l) == Avail(mem, l)
    ensures U16At(Written(mem, a, bytes), l.available, AvailIndexAddress(l))
         == U16At(mem, l.available, AvailIndexAddress(l))
  {
    var mem' := Written(mem, a, bytes);
    WrittenRings(mem, l, a, bytes);
    U16Untouched(mem, l.available, a, bytes, AvailIndexAddress(l));
    forall i | 0 <= i < l.size ensures Avail(mem', l)[i] == Avail(mem, l)[i] {
      U16Untouched(mem, l.available, a, bytes, AvailAddress(l, i));
    }
    forall i | 0 <= i < l.size ensures TableOf(mem', l)[i] == TableOf(mem, l)[i] {
      WithinHas(mem, l.descriptors, DescriptorAddress(l, i), 16);
      LoadUntouched(mem, a, bytes, DescriptorAddress(l, i), 16);
    }
  }

  /** The write of a used entry's id changes exactly that id. */
  lemma IdWritten(mem: Memory, l: Layout, slot: nat, head: u16)
    requires RingsInMemory(mem, l) && RingsApart(l) && slot < l.size
    ensures RingsInMemory(Written(mem, UsedIdAddress(l, slot), Encode(head, 4)), l)
    ensures View(Written(mem, UsedIdAddress(l, slot), Encode(head, 4)), l) ==
      View(mem, l).(usedIds := View(mem, l).usedIds[slot := head])
  {
    var a, bytes := UsedIdAddress(l, slot), Encode(head, 4);
    var mem' := Written(mem, a, bytes);
    UsedWriteElsewhere(mem, l, a, bytes);
    U16Untouched(mem, l.used, a, bytes, UsedIndexAddress(l));
    forall i | 0 <= i < l.size ensures UsedLengths(mem', l)[i] == UsedLengths(mem, l)[i] {
      U32Untouched(mem, l.used, a, bytes, UsedLengthAddress(l, i));
    }
    Limits();
    LoadWritten(mem, a, head, 4);
    forall i | 0 <= i < l.size && i != slot ensures UsedIds(mem', l)[i] == UsedIds(mem, l)[i] {
      U32Untouched(mem, l.used, a, bytes, UsedIdAddress(l, i));
    }
    assert UsedIds(mem', l) == UsedIds(mem, l)[slot := head];
  }

  /** The write of a used entry's length changes exactly that length. */
  lemma LengthWritten(mem: Memory, l: Layout, slot: nat, length: u32)
    requires RingsInMemory(mem, l) && RingsApart(l) && slot < l.size
    ensures RingsInMemory(Written(mem, UsedLengthAddress(l, slot), Encode(length, 4)), l)
    ensures View(Written(mem, UsedLengthAddress(l, slot), Encode(length, 4)), l) ==
      View(mem, l).(usedLengths := View(mem, l).usedLengths[slot := length])
  {
    var a, bytes := UsedLengthAddress(l, slot), Encode(length, 4);
    var mem' := Written(mem, a, bytes);
    UsedWriteElsewhere(mem, l, a, bytes);
    U16Untouched(mem, l.used, a, bytes, UsedIndexAddress(l));
    forall i | 0 <= i < l.size ensures UsedIds(mem', l)[i] == UsedIds(mem, l)[i] {
      U32Untouched(mem, l.used, a, bytes, UsedIdAddress(l, i));
    }
    Limits();
    LoadWritten(mem, a, length, 4);
    forall i | 0 <= i < l.size && i != slot ensures UsedLengths(mem', l)[i] == UsedLengths(mem, l)[i] {
      U32Untouched(mem, l.used, a, bytes, UsedLengthAddress(l, i));
    }
    assert UsedLengths(mem', l) == UsedLengths(mem, l)[slot := length];
  }

  /** The write of the used index changes exactly the used index. */
  lemma IndexWritten(mem: Memory, l: Layout, index: u16)
    requires RingsInMemory(mem, l) && RingsApart(l)
    ensures RingsInMemory(Written(mem, UsedIndexAddress(l), Encode(index, 2)), l)
    ensures View(Written(mem, UsedIndexAddress(l), Encode(index, 2)), l) == View(mem, l).(usedIndex := index)
  {
    var a, bytes := UsedIndexAddress(l), Encode(index, 2);
    var mem' := Written(mem, a, bytes);
    UsedWriteElsewhere(mem, l, a, bytes);
    forall i | 0 <= i < l.size
      ensures UsedIds(mem', l)[i] == UsedIds(mem, l)[i] && UsedLengths(mem', l)[i] == UsedLengths(mem, l)[i]
    {
      U32Untouched(mem, l.used, a, bytes, UsedIdAddress(l, i));
      U32Untouched(mem, l.used, a, bytes, UsedLengthAddress(l, i));
    }
    Limits();
    LoadWritten(mem, a, index, 2);
    assert UsedIds(mem', l) == UsedIds(mem, l) && UsedLengths(mem', l) == UsedLengths(mem, l);
  }
}
