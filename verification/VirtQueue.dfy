/** The device side of a split virtqueue over leased guest memory (src/queue.rs:21-197). */
module VirtQueue {
  import opened Primitives
  import opened Arithmetic
  import opened LittleEndian
  import opened GuestMemory
  import opened Dma
  import opened DescriptorChains
  import opened QueueProtocol
  import opened RingLayout

  class QueueState {
    var lastAvailable: u16
    var nextUsed: u16

    constructor ()
      ensures lastAvailable == 0 && nextUsed == 0
    {
      lastAvailable, nextUsed := 0, 0;
    }
  }

  /** A validated layout's rings are all in memory. */
  lemma RingsPresent(memory: DmaMemory, l: Layout)
    requires memory.Valid() && Validated(l, memory.segments)
    ensures RingsInMemory(memory.Contents(), l)
  {
    forall a | Mapped(memory.segments, a) ensures a in memory.Contents() {
      memory.ContentsDomain(a);
    }
  }

  /** `QueueLayout::validate` accepts exactly the validated layouts. */
  method Validate(l: Layout, memory: DmaMemory) returns (r: Result<()>)
    requires memory.Valid()
    ensures r.Ok? <==> Validated(l, memory.segments)
  {
    if l.size == 0 || !PowerOfTwo(l.size) {
      return Err(InvalidQueue(l.index, "size must be a non-zero power of two"));
    }
    if l.descriptors.length < l.size * 16 || l.available.length < 4 + l.size * 2 || l.used.length < 4 + l.size * 8 {
      return Err(InvalidQueue(l.index, "virtqueue ring is too small"));
    }
    var _ :- memory.Translate(l.descriptors);
    var _ :- memory.Translate(l.available);
    var _ :- memory.Translate(l.used);
    return Ok(());
  }

  /** The walk so far: `path` leads to `current`, and the descriptors before it have been read. */
  ghost predicate Following(table: Table, head: int, path: seq<nat>, current: nat, descriptors: seq<Descriptor>) {
    Walk(table, head, path) && current == Last(path) && descriptors == Descriptors(table, path[..|path| - 1])
  }

  lemma FollowFrom(table: Table, head: nat)
    requires head < |table|
    ensures Following(table, head, [head], head, [])
  {
  }

  /** What reading one more descriptor allows: ending, failing or going on. */
  lemma FollowEnd(table: Table, head: u16, path: seq<nat>, current: nat, descriptors: seq<Descriptor>)
    requires Following(table, head, path, current, descriptors) && current < |table|
    ensures var d, ds := table[current], descriptors + [table[current]];
      && (!d.HasNext() ==> ChainResult(table, head, Ok(Chain(head, ds))))
      && (d.HasNext() && d.next >= |table| ==> ChainResult(table, head, Err(Malformed(NEXT_OUT_OF_RANGE))))
      && (d.HasNext() && d.next < |table| ==> Following(table, head, path + [d.next as nat], d.next, ds))
  {
    var d := table[current];
    assert path == path[..|path| - 1] + [current];
    assert descriptors + [d] == Descriptors(table, path);
    if !d.HasNext() {
      assert Finishes(table, head, path);
    } else if d.next >= |table| {
      assert Escapes(table, head, path);
    } else {
      ExtendWalk(table, head, path, d.next);
      assert (path + [d.next as nat])[..|path|] == path;
    }
  }

  lemma ExtendWalk(table: Table, head: int, path: seq<nat>, next: nat)
    requires Walk(table, head, path) && Linked(table, Last(path), next) && next < |table|
    ensures Walk(table, head, path + [next])
  {
    var longer := path + [next];
    forall i | 0 <= i < |longer| - 1 ensures Linked(table, longer[i], longer[i + 1]) {
      assert i < |path| - 1 ==> Linked(table, path[i], path[i + 1]);
    }
  }

  /** A walk longer than the table goes round. */
  lemma FollowRound(table: Table, head: u16, path: seq<nat>, current: nat, descriptors: seq<Descriptor>)
    requires Following(table, head, path, current, descriptors) && |path| > |table|
    ensures ChainResult(table, head, Err(Malformed(CHAIN_LOOP)))
  {
    Pigeonhole(table, head, path);
    assert Revisits(table, head, path);
  }

  class VirtQueue {
    const layout: Layout

    /** The memory is what `mem` says, and the layout was validated against it. */
    ghost predicate Over(memory: DmaMemory, mem: Memory)
      reads memory.bases, memory`revoked
    {
      && memory.Valid() && memory.Governed() && Validated(layout, memory.segments)
      && memory.Contents() == mem && RingsInMemory(mem, layout)
    }

    constructor (layout: Layout)
      ensures this.layout == layout
    {
      this.layout := layout;
    }

    /** `VirtQueue::new`: a queue over a validated layout, all of whose rings are in memory. */
    static method New(layout: Layout, memory: DmaMemory) returns (r: Result<VirtQueue>)
      requires memory.Valid() && memory.Governed()
      ensures r.Ok? <==> Validated(layout, memory.segments)
      ensures r.Ok? ==> fresh(r.value) && r.value.layout == layout && r.value.Over(memory, memory.Contents())
    {
      var checked := Validate(layout, memory);
      if checked.Err? {
        return Err(checked.error);
      }
      RingsPresent(memory, layout);
      var queue := new VirtQueue(layout);
      return Ok(queue);
    }

    method ReadU16(memory: DmaMemory, ghost mem: Memory, ghost ring: Range, gpa: u64) returns (r: Result<u16>)
      requires Over(memory, mem) && RangeUsable(memory.segments, ring) && InMemory(mem, ring) && Within(ring, gpa, 2)
      modifies memory`revoked, memory`drained, memory`active
      ensures Over(memory, mem)
      ensures memory.active == old(memory.active) && (old(memory.revoked) ==> memory.revoked && r.Err?)
      ensures r.Err? ==> r.error == Down(Revoked) && memory.revoked
      ensures r.Ok? ==> r.value == U16At(mem, ring, gpa)
    {
      InsideUsable(memory.segments, ring, gpa, 2);
      var bytes :- memory.ReadBytes(gpa, 2);
      return Ok(DecodeU16(bytes));
    }

    method ReadDescriptor(memory: DmaMemory, ghost mem: Memory, index: u16) returns (r: Result<Descriptor>)
      requires Over(memory, mem) && index < layout.size
      modifies memory`revoked, memory`drained, memory`active
      ensures Over(memory, mem)
      ensures memory.active == old(memory.active) && (old(memory.revoked) ==> memory.revoked && r.Err?)
      ensures r.Err? ==> r.error == Down(Revoked) && memory.revoked
      ensures r.Ok? ==> r.value == TableOf(mem, layout)[index]
    {
      AccessesInside(layout, memory.segments, index);
      InsideUsable(memory.segments, layout.descriptors, DescriptorAddress(layout, index), 16);
      var bytes :- memory.ReadBytes(DescriptorAddress(layout, index), 16);
      return Ok(DecodeDescriptor(bytes));
    }

    /** `read_chain`: exact on stable memory, up to a revoke in the middle. */
    method ReadChain(memory: DmaMemory, ghost mem: Memory, head: u16) returns (r: Result<Chain>)
      requires Over(memory, mem)
      modifies memory`revoked, memory`drained, memory`active
      ensures Over(memory, mem)
      ensures memory.active == old(memory.active) && (old(memory.revoked) ==> memory.revoked)
      ensures (r == Err(Down(Revoked)) && memory.revoked) || ChainResult(TableOf(mem, layout), head, r)
    {
      if head >= layout.size {
        return Err(Malformed(HEAD_OUT_OF_RANGE));
      }
      hide DmaMemory.Contents, DmaMemory.Valid, TableOf, Following, ChainResult;
      ghost var table := TableOf(mem, layout);
      var current: u16 := head;
      ghost var path: seq<nat> := [head];
      var descriptors: seq<Descriptor> := [];
      FollowFrom(table, head);
      for i := 0 to layout.size
        invariant Over(memory, mem)
        invariant memory.active == old(memory.active) && (old(memory.revoked) ==> memory.revoked)
        invariant |path| == i + 1 && current < layout.size && Following(table, head, path, current, descriptors)
      {
        var descriptor :- ReadDescriptor(memory, mem, current);
        FollowEnd(table, head, path, current, descriptors);
        descriptors := descriptors + [descriptor];
        if !descriptor.HasNext() {
          return Ok(Chain(head, descriptors));
        }
        if descriptor.next >= layout.size {
          return Err(Malformed(NEXT_OUT_OF_RANGE));
        }
        current := descriptor.next;
        path := path + [current as nat];
      }
      FollowRound(table, head, path, current, descriptors);
      return Err(Malformed(CHAIN_LOOP));
    }

    /** The index and ring reads of `pop`: what it decides and the head it would take. */
    method PeekHead(memory: DmaMemory, ghost mem: Memory, lastAvailable: u16)
      returns (r: Result<(Decision, u16)>)
      requires Over(memory, mem)
      modifies memory`revoked, memory`drained, memory`active
      ensures Over(memory, mem)
      ensures memory.active == old(memory.active) && (old(memory.revoked) ==> memory.revoked)
      ensures r.Err? ==> r.error == Down(Revoked) && memory.revoked
      ensures r.Ok? ==> r.value.0 == Decide(View(mem, layout).availIndex, lastAvailable, layout.size)
      ensures r.Ok? && r.value.0 == Take ==> r.value.1 == View(mem, layout).avail[lastAvailable % layout.size]
    {
      hide DmaMemory.Contents;
      var slot := lastAvailable % layout.size;
      AccessesInside(layout, memory.segments, slot);
      var index :- ReadU16(memory, mem, layout.available, AvailIndexAddress(layout));
      var decision := Decide(index, lastAvailable, layout.size);
      if decision != Take {
        return Ok((decision, 0));
      }
      var head :- ReadU16(memory, mem, layout.available, AvailAddress(layout, slot));
      return Ok((decision, head));
    }

    /**
     `pop`, in terms of the decision the protocol makes on the same rings: the
     counter moves exactly when a chain is returned.
     */
    method Pop(memory: DmaMemory, ghost mem: Memory, state: QueueState) returns (r: Result<Option<Chain>>)
      requires Over(memory, mem)
      modifies state`lastAvailable, memory`revoked, memory`drained, memory`active
      ensures Over(memory, mem)
      ensures memory.active == old(memory.active) && (old(memory.revoked) ==> memory.revoked)
      ensures state.lastAvailable ==
        if r.Ok? && r.value.Some? then Increment(old(state.lastAvailable)) else old(state.lastAvailable)
      ensures (r == Err(Down(Revoked)) && memory.revoked)
           || PopResult(layout, View(mem, layout), TableOf(mem, layout), old(state.lastAvailable), r)
    {
      hide DmaMemory.Contents, View, TableOf, ChainResult, Decide;
      var peek :- PeekHead(memory, mem, state.lastAvailable);
      match peek.0 {
        case Empty =>
          return Ok(None);
        case Overrun =>
          return Err(InvalidQueue(layout.index, "available index exceeds queue size"));
        case Take =>
          var chain :- ReadChain(memory, mem, peek.1);
          state.lastAvailable := Increment(state.lastAvailable);
          return Ok(Some(chain));
      }
    }

    /**
     `complete` performs the three ring writes of the protocol in order, each one
     changing exactly its own field; a revoke stops it between two of them.
     */
    method Complete(memory: DmaMemory, ghost mem: Memory, state: QueueState, chain: Chain, length: u32)
      returns (r: Result<()>, ghost after: Memory)
      requires Over(memory, mem) && RingsApart(layout)
      modifies state`nextUsed, memory`revoked, memory`drained, memory`active, memory.bases
      ensures Over(memory, after)
      ensures memory.active == old(memory.active) && (old(memory.revoked) ==> memory.revoked)
      ensures r.Err? ==> r.error == Down(Revoked) && memory.revoked
      ensures OnlyUsedRing(mem, after)
      ensures CompleteResult(layout, View(mem, layout), View(after, layout),
                             old(state.nextUsed), state.nextUsed, chain.head, length, r.Ok?)
    {
      hide DmaMemory.Contents, Written, Encode, View;
      ghost var mem2;
      r, mem2 := WriteElement(memory, mem, state.nextUsed % layout.size, chain.head, length);
      after := mem2;
      if r.Ok? {
        state.nextUsed := Increment(state.nextUsed);
        AccessesInside(layout, memory.segments, 0);
        r, after := WriteUsed(memory, mem2, UsedIndexAddress(layout), Encode(state.nextUsed, 2));
        IndexWritten(mem2, layout, state.nextUsed);
      }
    }

    /** The id and length of one used element. */
    method WriteElement(memory: DmaMemory, ghost mem: Memory, slot: nat, head: u16, length: u32)
      returns (r: Result<()>, ghost after: Memory)
      requires Over(memory, mem) && RingsApart(layout) && slot < layout.size
      modifies memory`revoked, memory`drained, memory`active, memory.bases
      ensures Over(memory, after)
      ensures memory.active == old(memory.active) && (old(memory.revoked) ==> memory.revoked)
      ensures r.Err? ==> r.error == Down(Revoked) && memory.revoked
      ensures OnlyUsedRing(mem, after)
      ensures ElementWritten(View(mem, layout), View(after, layout), slot, head, length, r.Ok?)
    {
      hide DmaMemory.Contents, Written, Encode, View;
      AccessesInside(layout, memory.segments, slot);
      ghost var mem1;
      r, mem1 := WriteUsed(memory, mem, UsedIdAddress(layout, slot), Encode(head, 4));
      IdWritten(mem, layout, slot, head);
      after := mem1;
      if r.Ok? {
        r, after := WriteUsed(memory, mem1, UsedLengthAddress(layout, slot), Encode(length, 4));
        LengthWritten(mem1, layout, slot, length);
      }
    }

    ghost predicate OnlyUsedRing(mem: Memory, after: Memory) {
      forall a :: a in mem && !(layout.used.gpa <= a < layout.used.gpa + layout.used.length) ==>
        a in after && after[a] == mem[a]
    }

    method WriteUsed(memory: DmaMemory, ghost mem: Memory, a: u64, bytes: seq<byte>)
      returns (r: Result<()>, ghost after: Memory)
      requires Over(memory, mem) && Within(layout.used, a, |bytes|) && |bytes| < U64_LIMIT
      modifies memory`revoked, memory`drained, memory`active, memory.bases
      ensures Over(memory, after)
      ensures memory.active == old(memory.active) && (old(memory.revoked) ==> memory.revoked && r.Err?)
      ensures r.Ok? ==> after == Written(mem, a, bytes)
      ensures r.Err? ==> after == mem && r.error == Down(Revoked) && memory.revoked
      ensures OnlyUsedRing(mem, after)
    {
      hide DmaMemory.Contents;
      InsideUsable(memory.segments, layout.used, a, |bytes|);
      r := memory.WriteBytes(a, bytes);
      after := if r.Ok? then Written(mem, a, bytes) else mem;
      StoreSpan(mem, a, bytes);
    }
  }

  ghost predicate PopResult(l: Layout, rings: Rings, table: Table, lastAvailable: u16, r: Result<Option<Chain>>)
    requires 0 < l.size == |rings.avail|
  {
    match Decide(rings.availIndex, lastAvailable, l.size)
    case Empty => r == Ok(None)
    case Overrun => r == Err(InvalidQueue(l.index, "available index exceeds queue size"))
    case Take =>
      var head := rings.avail[lastAvailable % l.size];
      match r
      case Ok(None) => false
      case Ok(Some(chain)) => ChainResult(table, head, Ok(chain))
      case Err(error) => ChainResult(table, head, Err(error))
  }

  /** The id, then the length, of one used element. */
  ghost predicate ElementWritten(rings: Rings, after: Rings, slot: nat, head: u16, length: u32, ok: bool)
    requires slot < |rings.usedIds| == |rings.usedLengths|
  {
    var one := rings.(usedIds := rings.usedIds[slot := head]);
    if ok then after == one.(usedLengths := rings.usedLengths[slot := length])
    else after == rings || after == one
  }

  /** The ring writes that `complete` gets through, in order, before success or a revoke. */
  ghost predicate CompleteResult(
    l: Layout, rings: Rings, after: Rings, nextUsed: u16, nextUsed': u16, head: u16, length: u32, ok: bool)
    requires 0 < l.size == |rings.usedIds| == |rings.usedLengths|
  {
    var slot := nextUsed % l.size;
    var one := rings.(usedIds := rings.usedIds[slot := head]);
    var two := one.(usedLengths := one.usedLengths[slot := length]);
    if ok then
      after == two.(usedIndex := nextUsed') && nextUsed' == Increment(nextUsed)
    else
      || (after == rings && nextUsed' == nextUsed)
      || (after == one && nextUsed' == nextUsed)
      || (after == two && nextUsed' == Increment(nextUsed))
  }

  /** In bytes: a successful `complete` leaves head and length in its element, and the next index. */
  lemma CompletedBytes(l: Layout, mem: Memory, after: Memory, nextUsed: u16, nextUsed': u16, head: u16, length: u32)
    requires l.size > 0 && RingsInMemory(mem, l) && RingsInMemory(after, l)
    requires CompleteResult(l, View(mem, l), View(after, l), nextUsed, nextUsed', head, length, true)
    ensures var element := l.used.gpa + 4 + 8 * (nextUsed % l.size);
      && Has(after, element, 8) && Has(after, l.used.gpa + 2, 2)
      && Load(after, Span(element, 8)) == Encode(head, 4) + Encode(length, 4)
      && Load(after, Span(l.used.gpa + 2, 2)) == Encode((nextUsed + 1) % 0x1_0000, 2)
    ensures nextUsed' == (nextUsed + 1) % 0x1_0000
  {
    var slot, rings := nextUsed % l.size, View(mem, l);
    assert |rings.usedIds| == |rings.usedLengths| == l.size;
    hide View, Encode, RingsInMemory, Covers;
    UsedBytes(after, l, slot);
    assert View(after, l).usedIds[slot] == head && View(after, l).usedLengths[slot] == length;
  }
}
