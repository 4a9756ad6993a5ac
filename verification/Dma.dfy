/**
 Direct guest memory: sorted disjoint segments, translation of a guest range
 into host parts, and the leased byte transfers built on it (src/dma.rs and the
 transfer helpers of src/queue.rs).
 */
module Dma {
  import opened Primitives
  import opened GuestMemory

  datatype Range = Range(gpa: u64, length: usize) {
    /** `DmaRange::end` is `Some`. */
    predicate Fits() {
      gpa + length < U64_LIMIT
    }
  }

  /** One mapped interval; `base` is the host memory behind it. */
  datatype Segment = Segment(gpa: u64, base: array<byte>, length: usize) {
    function End(): int {
      gpa + length
    }

    predicate Sound() {
      length > 0 && End() < U64_LIMIT
    }

    predicate Contains(a: int) {
      gpa <= a < End()
    }
  }

  /** A contiguous piece of a lease: `length` bytes of `base` from `offset`. */
  datatype Part = Part(gpa: u64, base: array<byte>, offset: usize, length: usize)

  // ---------------------------------------------------------------- geometry

  ghost predicate Mapped(segments: seq<Segment>, a: int) {
    exists i :: 0 <= i < |segments| && segments[i].Contains(a)
  }

  ghost predicate RangeMapped(segments: seq<Segment>, range: Range) {
    forall a :: range.gpa <= a < range.gpa + range.length ==> Mapped(segments, a)
  }

  /** How many segments claim address `a`. */
  ghost function Claims(segments: seq<Segment>, a: int): nat {
    if segments == [] then 0
    else (if segments[0].Contains(a) then 1 else 0) + Claims(segments[1..], a)
  }

  /** What a usable mapping is, whatever order its segments come in. */
  ghost predicate Mappable(segments: seq<Segment>) {
    && segments != []
    && (forall s :: s in segments ==> s.Sound())
    && (forall a :: Claims(segments, a) <= 1)
  }

  /** Each segment ends before every later one starts. */
  ghost predicate Chained(segments: seq<Segment>) {
    forall i, j :: 0 <= i < j < |segments| ==> segments[i].End() <= segments[j].gpa
  }

  /** The contract of `DmaSegment::new`: each base backs exactly its segment. */
  ghost predicate Backed(segments: seq<Segment>) {
    && (forall i :: 0 <= i < |segments| ==> segments[i].base.Length == segments[i].length)
    && (forall i, j :: 0 <= i < j < |segments| ==> segments[i].base != segments[j].base)
  }

  lemma {:induction false} ClaimsNone(segments: seq<Segment>, a: int)
    requires forall i :: 0 <= i < |segments| ==> !segments[i].Contains(a)
    ensures Claims(segments, a) == 0
    decreases |segments|
  {
    if segments != [] {
      ClaimsNone(segments[1..], a);
    }
  }

  lemma {:induction false} ClaimsAtLeast(segments: seq<Segment>, a: int, i: nat)
    requires i < |segments| && segments[i].Contains(a)
    ensures Claims(segments, a) >= 1
    decreases i
  {
    if i > 0 {
      ClaimsAtLeast(segments[1..], a, i - 1);
    }
  }

  lemma {:induction false} ClaimsTwice(segments: seq<Segment>, a: int, i: nat, j: nat)
    requires i < j < |segments| && segments[i].Contains(a) && segments[j].Contains(a)
    ensures Claims(segments, a) >= 2
    decreases i
  {
    if i == 0 {
      ClaimsAtLeast(segments[1..], a, j - 1);
    } else {
      ClaimsTwice(segments[1..], a, i - 1, j - 1);
    }
  }

  /** Sorted order plus the adjacent check give pairwise disjointness. */
  lemma {:induction false} ChainedClaims(segments: seq<Segment>, a: int)
    requires Chained(segments)
    ensures Claims(segments, a) <= 1
    decreases |segments|
  {
    if segments != [] {
      if segments[0].Contains(a) {
        ClaimsNone(segments[1..], a);
      } else {
        ChainedClaims(segments[1..], a);
      }
    }
  }

  lemma {:induction false} DisjointClaims(segments: seq<Segment>, a: int)
    requires forall i, j :: 0 <= i < j < |segments| ==> !(segments[i].Contains(a) && segments[j].Contains(a))
    ensures Claims(segments, a) <= 1
    decreases |segments|
  {
    if segments != [] {
      if segments[0].Contains(a) {
        ClaimsNone(segments[1..], a);
      } else {
        DisjointClaims(segments[1..], a);
      }
    }
  }

  /** Mappable, in numbers: some segments, none empty or reaching 2^64, and no two overlapping. */
  lemma MappableExactly(segments: seq<Segment>)
    ensures Mappable(segments) <==>
      && |segments| > 0
      && (forall i :: 0 <= i < |segments| ==>
          segments[i].length > 0 && segments[i].gpa + segments[i].length < 0x1_0000_0000_0000_0000)
      && (forall i, j :: 0 <= i < j < |segments| ==>
          || segments[i].gpa + segments[i].length <= segments[j].gpa
          || segments[j].gpa + segments[j].length <= segments[i].gpa)
  {
    if Mappable(segments) {
      assert forall i :: 0 <= i < |segments| ==> segments[i] in segments && segments[i].Sound();
      forall i, j | 0 <= i < j < |segments|
        ensures segments[i].End() <= segments[j].gpa || segments[j].End() <= segments[i].gpa
      {
        var a := if segments[i].gpa <= segments[j].gpa then segments[j].gpa else segments[i].gpa;
        if segments[i].Contains(a) && segments[j].Contains(a) {
          ClaimsTwice(segments, a, i, j);
        }
      }
    }
    if forall i, j :: 0 <= i < j < |segments| ==>
        segments[i].End() <= segments[j].gpa || segments[j].End() <= segments[i].gpa {
      forall a ensures Claims(segments, a) <= 1 {
        DisjointClaims(segments, a);
      }
    }
  }

  // -------------------------------------------------------------------- sort

  predicate SortedByGpa(segments: seq<Segment>) {
    forall i, j :: 0 <= i < j < |segments| ==> segments[i].gpa <= segments[j].gpa
  }

  function Insert(s: Segment, sorted: seq<Segment>): (r: seq<Segment>)
    requires SortedByGpa(sorted)
    ensures SortedByGpa(r)
    ensures multiset(r) == multiset([s] + sorted)
    ensures forall a :: Claims(r, a) == Claims([s] + sorted, a)
  {
    if sorted == [] || s.gpa <= sorted[0].gpa then
      [s] + sorted
    else
      var rest := Insert(s, sorted[1..]);
      InsertDeeper(s, sorted, rest);
      [sorted[0]] + rest
  }

  lemma InsertDeeper(s: Segment, sorted: seq<Segment>, rest: seq<Segment>)
    requires sorted != [] && SortedByGpa(sorted) && sorted[0].gpa < s.gpa
    requires SortedByGpa(rest) && multiset(rest) == multiset([s] + sorted[1..])
    requires forall a :: Claims(rest, a) == Claims([s] + sorted[1..], a)
    ensures SortedByGpa([sorted[0]] + rest)
    ensures multiset([sorted[0]] + rest) == multiset([s] + sorted)
    ensures forall a :: Claims([sorted[0]] + rest, a) == Claims([s] + sorted, a)
  {
    assert sorted == [sorted[0]] + sorted[1..];
    forall i | 0 <= i < |rest| ensures sorted[0].gpa <= rest[i].gpa {
      FromMultiset([s] + sorted[1..], rest, i);
    }
    forall a ensures Claims([sorted[0]] + rest, a) == Claims([s] + sorted, a) {
      ClaimsSwap(s, sorted, rest, a);
    }
  }

  lemma FromMultiset(s: seq<Segment>, t: seq<Segment>, i: nat)
    requires multiset(s) == multiset(t) && i < |t|
    ensures exists j :: 0 <= j < |s| && s[j] == t[i]
  {
    assert t[i] in multiset(t);
    assert t[i] in s;
  }

  lemma ClaimsSwap(s: Segment, sorted: seq<Segment>, rest: seq<Segment>, a: int)
    requires sorted != [] && Claims(rest, a) == Claims([s] + sorted[1..], a)
    ensures Claims([sorted[0]] + rest, a) == Claims([s] + sorted, a)
  {
    assert ([sorted[0]] + rest)[1..] == rest;
    assert ([s] + sorted)[1..] == sorted;
    assert ([s] + sorted[1..])[1..] == sorted[1..];
  }

  /** `sort_unstable_by_key(DmaSegment::gpa)`. */
  function SortByGpa(segments: seq<Segment>): (r: seq<Segment>)
    ensures SortedByGpa(r)
    ensures multiset(r) == multiset(segments)
    ensures forall a :: Claims(r, a) == Claims(segments, a)
  {
    if segments == [] then
      []
    else
      var rest := SortByGpa(segments[1..]);
      assert segments == [segments[0]] + segments[1..];
      assert forall a :: Claims([segments[0]] + rest, a) == Claims(segments, a) by {
        assert ([segments[0]] + rest)[1..] == rest;
      }
      Insert(segments[0], rest)
  }

  lemma PermutedBacked(segments: seq<Segment>, sorted: seq<Segment>)
    requires Backed(segments) && multiset(sorted) == multiset(segments)
    ensures Backed(sorted)
  {
    forall i | 0 <= i < |sorted| ensures sorted[i].base.Length == sorted[i].length {
      assert sorted[i] in multiset(sorted);
      assert sorted[i] in segments;
    }
    forall i, j | 0 <= i < j < |sorted| ensures sorted[i].base != sorted[j].base {
      if sorted[i].base == sorted[j].base {
        SameBase(segments, sorted[i], sorted[j]);
        Twice(sorted, i, j);
        Once(segments, sorted[i]);
      }
    }
  }

  lemma SameBase(segments: seq<Segment>, s: Segment, t: Segment)
    requires Backed(segments) && s.base == t.base
    requires multiset(segments)[s] > 0 && multiset(segments)[t] > 0
    ensures s == t
  {
    assert s in segments && t in segments;
  }

  lemma Twice(segments: seq<Segment>, i: nat, j: nat)
    requires i < j < |segments| && segments[i] == segments[j]
    ensures multiset(segments)[segments[i]] >= 2
  {
    assert segments == segments[..j] + segments[j..];
    assert segments[i] in segments[..j] && segments[j] in segments[j..];
  }

  lemma Once(segments: seq<Segment>, s: Segment)
    requires Backed(segments) && s in segments
    ensures multiset(segments)[s] == 1
  {
    var i :| 0 <= i < |segments| && segments[i] == s;
    assert segments == segments[..i] + [s] + segments[i + 1..];
    assert s !in segments[..i] && s !in segments[i + 1..];
  }

  /** On sorted segments the checks of `new` decide mappability. */
  lemma SortedMappable(segments: seq<Segment>, sorted: seq<Segment>)
    requires segments != [] && SortedByGpa(sorted) && multiset(sorted) == multiset(segments)
    requires forall a :: Claims(sorted, a) == Claims(segments, a)
    ensures Mappable(segments) <==>
      (forall i :: 0 <= i < |sorted| ==> sorted[i].Sound()) && Chained(sorted)
  {
    if Mappable(segments) {
      forall i | 0 <= i < |sorted| ensures sorted[i].Sound() {
        FromMultiset(segments, sorted, i);
      }
      forall i, j | 0 <= i < j < |sorted| ensures sorted[i].End() <= sorted[j].gpa {
        if sorted[i].End() > sorted[j].gpa {
          ClaimsTwice(sorted, sorted[j].gpa, i, j);
        }
      }
    }
    if (forall i :: 0 <= i < |sorted| ==> sorted[i].Sound()) && Chained(sorted) {
      forall s | s in segments ensures s.Sound() {
        var i :| 0 <= i < |segments| && segments[i] == s;
        FromMultiset(sorted, segments, i);
      }
      forall a ensures Claims(segments, a) <= 1 {
        ChainedClaims(sorted, a);
      }
    }
  }

  // ------------------------------------------------------------- translation

  /** The part lies inside one segment, at the matching host offset. */
  ghost predicate PartOf(segments: seq<Segment>, p: Part) {
    p.length > 0 && exists k :: 0 <= k < |segments| && PartIn(segments[k], p)
  }

  ghost predicate PartIn(s: Segment, p: Part) {
    p.base == s.base && s.gpa <= p.gpa && p.gpa + p.length <= s.End() && p.offset == p.gpa - s.gpa
  }

  /** The guest addresses of a list of parts, in order. */
  ghost function Addresses(parts: seq<Part>): seq<int> {
    if parts == [] then []
    else Addresses(parts[..|parts| - 1]) + Span(parts[|parts| - 1].gpa, parts[|parts| - 1].length)
  }

  /** The parts, each inside one segment, cover the range exactly and in order. */
  ghost predicate Tiles(segments: seq<Segment>, parts: seq<Part>, range: Range) {
    && (forall i :: 0 <= i < |parts| ==> PartOf(segments, parts[i]))
    && Addresses(parts) == Span(range.gpa, range.length)
  }

  lemma {:induction false} AddressesConcat(a: seq<Part>, b: seq<Part>)
    ensures Addresses(a + b) == Addresses(a) + Addresses(b)
    decreases |b|
  {
    if b == [] {
      assert a + b == a;
    } else {
      assert (a + b)[..|a + b| - 1] == a + b[..|b| - 1];
      AddressesConcat(a, b[..|b| - 1]);
    }
  }

  lemma {:induction false} AddressesLength(parts: seq<Part>)
    requires forall i :: 0 <= i < |parts| ==> parts[i].length > 0
    ensures |Addresses(parts)| >= |parts|
    decreases |parts|
  {
    if parts != [] {
      AddressesLength(parts[..|parts| - 1]);
    }
  }

  lemma AddressesSnoc(parts: seq<Part>, i: nat)
    requires i < |parts|
    ensures Addresses(parts[..i + 1]) == Addresses(parts[..i]) + Span(parts[i].gpa, parts[i].length)
  {
    assert parts[..i + 1][..i] == parts[..i];
  }

  lemma AddressesPrefix(parts: seq<Part>, i: nat)
    requires i <= |parts|
    ensures |Addresses(parts[..i])| <= |Addresses(parts)|
  {
    assert parts == parts[..i] + parts[i..];
    AddressesConcat(parts[..i], parts[i..]);
  }

  lemma LoadMore(mem: Memory, parts: seq<Part>, i: nat)
    requires i < |parts|
    requires Covers(mem, Addresses(parts[..i])) && Covers(mem, Span(parts[i].gpa, parts[i].length))
    ensures Covers(mem, Addresses(parts[..i + 1]))
    ensures Load(mem, Addresses(parts[..i + 1])) ==
      Load(mem, Addresses(parts[..i])) + Load(mem, Span(parts[i].gpa, parts[i].length))
  {
    AddressesSnoc(parts, i);
  }

  lemma StoreMore(mem: Memory, parts: seq<Part>, i: nat, bytes: seq<byte>, offset: nat)
    requires i < |parts| && offset == |Addresses(parts[..i])| && offset + parts[i].length <= |bytes|
    ensures |Addresses(parts[..i + 1])| == offset + parts[i].length
    ensures Store(mem, Addresses(parts[..i + 1]), bytes[..offset + parts[i].length]) ==
      Store(Store(mem, Addresses(parts[..i]), bytes[..offset]),
            Span(parts[i].gpa, parts[i].length), bytes[offset..offset + parts[i].length])
  {
    AddressesSnoc(parts, i);
    var end := offset + parts[i].length;
    assert bytes[..end] == bytes[..offset] + bytes[offset..end];
    StoreConcat(mem, Addresses(parts[..i]), Span(parts[i].gpa, parts[i].length), bytes[..offset], bytes[offset..end]);
  }

  /** A single-byte lease is a single one-byte part. */
  lemma OneByteTiles(segments: seq<Segment>, parts: seq<Part>, range: Range)
    requires Tiles(segments, parts, range) && range.length == 1
    ensures |parts| == 1 && parts[0].length == 1 && parts[0].gpa == range.gpa
  {
    AddressesLength(parts);
    assert |parts| == 1;
    assert Addresses(parts[..0]) == [];
    assert Addresses(parts) == Span(parts[0].gpa, parts[0].length);
    assert Span(parts[0].gpa, parts[0].length)[0] == range.gpa;
  }

  class DmaMemory {
    const segments: seq<Segment>
    ghost const bases: set<array<byte>>
    const revocable: bool        // whether other threads ever call `revoke`
    var revoked: bool
    var active: nat
    ghost var drained: bool      // since the revoke, a drain has seen no lease

    ghost predicate Valid() {
      && segments != []
      && (forall i :: 0 <= i < |segments| ==> segments[i].Sound())
      && Chained(segments)
      && Backed(segments)
      && (forall i :: 0 <= i < |segments| ==> segments[i].base in bases)
    }

    /** Nothing revokes a memory but the threads that are said to. */
    ghost predicate Governed()
      reads this`revoked
    {
      revoked ==> revocable
    }

    ghost function ByteAt(a: int): byte
      requires Valid() && Mapped(segments, a)
      reads bases
    {
      var k :| 0 <= k < |segments| && segments[k].Contains(a);
      segments[k].base[a - segments[k].gpa]
    }

    /** What the guest sees: one byte per mapped address. */
    ghost function Contents(): (mem: Memory)
      requires Valid()
      reads bases
    {
      map a | 0 <= a < U64_LIMIT && Mapped(segments, a) :: ByteAt(a)
    }

    lemma ContentsDomain(a: int)
      requires Valid()
      ensures a in Contents() <==> Mapped(segments, a)
    {
      assert forall k :: 0 <= k < |segments| && segments[k].Contains(a) ==> segments[k].Sound();
    }

    lemma ContentsAt(i: nat, a: int)
      requires Valid() && i < |segments| && segments[i].Contains(a)
      ensures a in Contents() && Contents()[a] == segments[i].base[a - segments[i].gpa]
    {
      ContentsDomain(a);
    }

    constructor Wrap(segments: seq<Segment>, revocable: bool)
      ensures this.segments == segments && this.revocable == revocable && !revoked && active == 0
      ensures forall i :: 0 <= i < |segments| ==> segments[i].base in bases
    {
      this.segments := segments;
      this.bases := set i | 0 <= i < |segments| :: segments[i].base;
      this.revocable := revocable;
      revoked, active, drained := false, 0, false;
    }

    /** The checking loop of `DmaMemory::new`, on sorted segments. */
    static method CheckSorted(sorted: seq<Segment>) returns (r: Result<()>)
      requires SortedByGpa(sorted)
      ensures r.Ok? <==> (forall i :: 0 <= i < |sorted| ==> sorted[i].Sound()) && Chained(sorted)
      ensures r.Err? ==> r.error.InvalidLayout?
    {
      for index := 0 to |sorted|
        invariant forall i :: 0 <= i < index ==> sorted[i].Sound()
        invariant forall i, j :: 0 <= i < j < index ==> sorted[i].End() <= sorted[j].gpa
      {
        if !sorted[index].Sound() {
          return Err(InvalidLayout("invalid DMA segment"));
        }
        if index != 0 && sorted[index - 1].End() > sorted[index].gpa {
          return Err(InvalidLayout("overlapping DMA segments"));
        }
      }
      return Ok(());
    }

    /** `DmaMemory::new`: accepts exactly the mappable segment lists. */
    static method New(segments: seq<Segment>, revocable: bool) returns (r: Result<DmaMemory>)
      requires Backed(segments)
      ensures r.Ok? <==> Mappable(segments)
      ensures r.Ok? ==>
        && fresh(r.value) && r.value.Valid() && !r.value.revoked && r.value.active == 0
        && multiset(r.value.segments) == multiset(segments) && r.value.revocable == revocable
      ensures r.Err? ==> r.error.InvalidLayout?
    {
      if segments == [] {
        return Err(InvalidLayout("DMA mapping has no segments"));
      }
      var sorted := SortByGpa(segments);
      PermutedBacked(segments, sorted);
      var checked := CheckSorted(sorted);
      SortedMappable(segments, sorted);
      if checked.Err? {
        return Err(checked.error);
      }
      var memory := new DmaMemory.Wrap(sorted, revocable);
      return Ok(memory);
    }

    /** The `find` of `translate`: the first segment holding the cursor. */
    method Find(cursor: int) returns (r: Option<nat>)
      ensures r.None? <==> !Mapped(segments, cursor)
      ensures r.Some? ==> r.value < |segments| && segments[r.value].Contains(cursor)
    {
      for i := 0 to |segments|
        invariant forall j :: 0 <= j < i ==> !segments[j].Contains(cursor)
      {
        if segments[i].Contains(cursor) {
          return Some(i);
        }
      }
      return None;
    }

    method Translate(range: Range) returns (r: Result<seq<Part>>)
      requires Valid()
      ensures r.Ok? <==> range.Fits() && RangeMapped(segments, range)
      ensures r.Ok? ==> Tiles(segments, r.value, range)
      ensures r.Err? ==> r.error == DmaRange(range.gpa, range.length)
    {
      if !range.Fits() {
        return Err(DmaRange(range.gpa, range.length));
      }
      var end := range.gpa + range.length;
      var cursor := range.gpa;
      var parts: seq<Part> := [];
      while cursor < end
        invariant range.gpa <= cursor <= end
        invariant forall a :: range.gpa <= a < cursor ==> Mapped(segments, a)
        invariant forall i :: 0 <= i < |parts| ==> PartOf(segments, parts[i])
        invariant Addresses(parts) == Span(range.gpa, cursor - range.gpa)
      {
        hide Valid;
        var found := Find(cursor);
        if found.None? {
          return Err(DmaRange(range.gpa, range.length));
        }
        var segment := segments[found.value];
        var partEnd := Min(segment.End(), end);
        var part := Part(cursor, segment.base, cursor - segment.gpa, partEnd - cursor);
        assert PartIn(segments[found.value], part);
        assert (parts + [part])[..|parts|] == parts;
        SpanConcat(range.gpa, cursor - range.gpa, partEnd - cursor);
        forall a | range.gpa <= a < partEnd ensures Mapped(segments, a) {
          assert a >= cursor ==> segments[found.value].Contains(a);
        }
        parts := parts + [part];
        cursor := partEnd;
      }
      return Ok(parts);
    }

    // ---------------------------------------------------------------- leases

    /** Another thread may call `revoke`, or drain, between any two steps of this one. */
    method Interfere()
      modifies this`revoked, this`drained
      ensures old(revoked) ==> revoked
      ensures old(Governed()) ==> Governed()
      ensures revoked && drained ==> (old(revoked) && old(drained)) || active == 0
    {
      var revokes, drains := *, *;
      if revocable && revokes {
        drained := revoked && drained;
        revoked := true;
      }
      if drains && revoked && active == 0 {
        drained := true;
      }
    }

    /** `DmaLease::drop_active`, without the notification (see LeaseProtocol). */
    method DropActive()
      requires active > 0
      modifies this`active
      ensures active == old(active) - 1
    {
      active := active - 1;
    }

    /**
     A granted lease was never requested after a revoke and is counted, and no
     drain that follows a revoke has missed it; a refused one leaves the count
     alone and is refused for exactly one of the two reasons the source gives,
     never as revoked where nobody revokes.
     */
    method Lease(range: Range) returns (r: Result<seq<Part>>)
      requires Valid() && Governed()
      modifies this`revoked, this`drained, this`active
      ensures Governed() && (old(revoked) ==> revoked && r.Err?)
      ensures r.Ok? ==> !(revoked && drained)
      ensures r.Ok? ==> range.Fits() && RangeMapped(segments, range) && Tiles(segments, r.value, range)
      ensures active == old(active) + (if r.Ok? then 1 else 0)
      ensures r.Err? ==>
        || (r.error == Down(Revoked) && revoked)
        || (r.error == DmaRange(range.gpa, range.length) && !(range.Fits() && RangeMapped(segments, range)))
    {
      if revoked {
        return Err(Down(Revoked));
      }
      Interfere();
      active := active + 1;
      Interfere();
      if revoked {
        DropActive();
        return Err(Down(Revoked));
      }
      r := Translate(range);
      Interfere();
      if r.Err? {
        DropActive();
      }
    }

    // ------------------------------------------------------------- transfers

    lemma PartInside(part: Part) returns (k: nat)
      requires Valid() && PartOf(segments, part)
      ensures k < |segments| && PartIn(segments[k], part)
      ensures part.offset + part.length <= part.base.Length && part.base in bases
    {
      k :| 0 <= k < |segments| && PartIn(segments[k], part);
    }

    lemma PartLoad(part: Part)
      requires Valid() && PartOf(segments, part)
      ensures part.offset + part.length <= part.base.Length
      ensures part.base in bases
      ensures Covers(Contents(), Span(part.gpa, part.length))
      ensures Load(Contents(), Span(part.gpa, part.length)) == part.base[part.offset..part.offset + part.length]
    {
      hide Contents, Valid, PartOf;
      var k := PartInside(part);
      var span := Span(part.gpa, part.length);
      forall i | 0 <= i < |span|
        ensures span[i] in Contents() && Contents()[span[i]] == part.base[part.offset + i]
      {
        ContentsAt(k, span[i]);
      }
    }

    /** `read_slice` of one part. */
    method ReadPart(part: Part) returns (bytes: seq<byte>)
      requires Valid() && PartOf(segments, part)
      ensures Covers(Contents(), Span(part.gpa, part.length))
      ensures bytes == Load(Contents(), Span(part.gpa, part.length))
    {
      PartLoad(part);
      bytes := part.base[part.offset..part.offset + part.length];
    }

    /** `target[..bytes.len()].copy_from_slice(bytes)` on one part's slice. */
    method WritePart(part: Part, bytes: seq<byte>)
      requires Valid() && PartOf(segments, part) && |bytes| <= part.length
      modifies bases
      ensures Contents() == Store(old(Contents()), Span(part.gpa, |bytes|), bytes)
    {
      ghost var before := Contents();
      ContentsHold(part, bytes);
      Overwrite(part, bytes, before);
      WrittenPart(part, bytes, before);
    }

    lemma ContentsHold(part: Part, bytes: seq<byte>)
      requires Valid()
      ensures forall a :: a in Contents() ==> Mapped(segments, a)
      ensures forall m, a :: 0 <= m < |segments| && segments[m].Contains(a) ==>
        Holds(m, a, part, 0, bytes, Contents())
    {
      forall a | a in Contents() ensures Mapped(segments, a) {
        ContentsDomain(a);
      }
      forall m, a | 0 <= m < |segments| && segments[m].Contains(a)
        ensures Holds(m, a, part, 0, bytes, Contents())
      {
        ContentsAt(m, a);
      }
    }

    method Overwrite(part: Part, bytes: seq<byte>, ghost before: Memory)
      requires Valid() && PartOf(segments, part) && |bytes| <= part.length
      requires forall m, a :: 0 <= m < |segments| && segments[m].Contains(a) ==>
        Holds(m, a, part, 0, bytes, before)
      modifies bases
      ensures forall m, a :: 0 <= m < |segments| && segments[m].Contains(a) ==>
        Holds(m, a, part, |bytes|, bytes, before)
    {
      ghost var k :| 0 <= k < |segments| && PartIn(segments[k], part);
      assert forall m, a :: 0 <= m < |segments| && segments[m].Contains(a) ==>
        Holds(m, a, part, 0, bytes, before);
      CopyInto(part.base, part.offset, bytes);
      forall m, a | 0 <= m < |segments| && segments[m].Contains(a)
        ensures Holds(m, a, part, |bytes|, bytes, before)
      {
        assert old(Holds(m, a, part, 0, bytes, before));
        assert m == k || segments[m].base != segments[k].base;
      }
    }

    static method CopyInto(base: array<byte>, offset: nat, bytes: seq<byte>)
      requires offset + |bytes| <= base.Length
      modifies base
      ensures forall j :: 0 <= j < base.Length ==>
        base[j] == if offset <= j < offset + |bytes| then bytes[j - offset] else old(base[j])
    {
      var i := 0;
      while i < |bytes|
        invariant 0 <= i <= |bytes|
        invariant forall j :: 0 <= j < base.Length ==>
          base[j] == if offset <= j < offset + i then bytes[j - offset] else old(base[j])
      {
        base[offset + i] := bytes[i];
        i := i + 1;
      }
    }

    /** Segment `m` holds `before` at `a`, overwritten by the first `n` bytes of a write to `part`. */
    ghost predicate Holds(m: nat, a: int, part: Part, n: nat, bytes: seq<byte>, before: Memory)
      requires Valid() && m < |segments| && segments[m].Contains(a) && n <= |bytes|
      reads bases
    {
      && a in before
      && segments[m].base[a - segments[m].gpa] ==
           if part.gpa <= a < part.gpa + n then bytes[a - part.gpa] else before[a]
    }

    lemma WrittenPart(part: Part, bytes: seq<byte>, before: Memory)
      requires Valid() && PartOf(segments, part) && |bytes| <= part.length
      requires forall a :: a in before ==> Mapped(segments, a)
      requires forall m, a :: 0 <= m < |segments| && segments[m].Contains(a) ==>
        Holds(m, a, part, |bytes|, bytes, before)
      ensures Contents() == Store(before, Span(part.gpa, |bytes|), bytes)
    {
      hide Store, Contents, PartOf;
      var after := Store(before, Span(part.gpa, |bytes|), bytes);
      StoreSpan(before, part.gpa, bytes);
      forall a ensures a in Contents() <==> a in after {
        SameDomain(part, bytes, before, a);
      }
      forall a | a in Contents() ensures Contents()[a] == after[a] {
        ContentsDomain(a);
        var m :| 0 <= m < |segments| && segments[m].Contains(a);
        ContentsAt(m, a);
        assert Holds(m, a, part, |bytes|, bytes, before);
      }
    }

    lemma SameDomain(part: Part, bytes: seq<byte>, before: Memory, a: int)
      requires Valid() && PartOf(segments, part) && |bytes| <= part.length
      requires a in before ==> Mapped(segments, a)
      requires forall m :: 0 <= m < |segments| && segments[m].Contains(a) ==>
        Holds(m, a, part, |bytes|, bytes, before)
      ensures a in Contents() <==> a in before || part.gpa <= a < part.gpa + |bytes|
    {
      ContentsDomain(a);
      var k :| 0 <= k < |segments| && PartIn(segments[k], part);
      assert part.gpa <= a < part.gpa + |bytes| ==> segments[k].Contains(a);
    }

    /** Reads a list of parts in order. */
    method ReadParts(parts: seq<Part>) returns (bytes: seq<byte>)
      requires Valid() && forall i :: 0 <= i < |parts| ==> PartOf(segments, parts[i])
      ensures Covers(Contents(), Addresses(parts))
      ensures bytes == Load(Contents(), Addresses(parts))
    {
      bytes := [];
      ghost var mem := Contents();
      for i := 0 to |parts|
        invariant Covers(mem, Addresses(parts[..i])) && bytes == Load(mem, Addresses(parts[..i]))
      {
        var more := ReadPart(parts[i]);
        LoadMore(mem, parts, i);
        bytes := bytes + more;
      }
      assert parts[..|parts|] == parts;
    }

    /** `copy_from_lease` of src/queue.rs, on a lease of exactly `length` bytes. */
    method ReadLease(parts: seq<Part>, ghost range: Range) returns (bytes: seq<byte>)
      requires Valid() && Tiles(segments, parts, range)
      ensures Covers(Contents(), Span(range.gpa, range.length))
      ensures bytes == Load(Contents(), Span(range.gpa, range.length))
    {
      bytes := ReadParts(parts);
    }

    /** The copy loop of `write_bytes`: all of `bytes` into a lease of that size. */
    method WriteLease(parts: seq<Part>, ghost range: Range, bytes: seq<byte>)
      requires Valid() && Tiles(segments, parts, range) && |bytes| == range.length
      modifies bases
      ensures Contents() == Store(old(Contents()), Span(range.gpa, range.length), bytes)
    {
      hide Contents;
      var offset := 0;
      ghost var before := Contents();
      for i := 0 to |parts|
        invariant offset == |Addresses(parts[..i])| <= |bytes|
        invariant Contents() == Store(before, Addresses(parts[..i]), bytes[..offset])
      {
        var end := offset + parts[i].length;
        AddressesPrefix(parts, i + 1);
        AddressesSnoc(parts, i);
        WritePart(parts[i], bytes[offset..end]);
        StoreMore(before, parts, i, bytes, offset);
        offset := end;
      }
      assert parts[..|parts|] == parts && bytes[..offset] == bytes;
    }

    /** `read_bytes`: the guest bytes of the range, or a refused lease. */
    method ReadBytes(gpa: u64, length: usize) returns (r: Result<seq<byte>>)
      requires Valid() && Governed()
      modifies this`revoked, this`drained, this`active
      ensures Governed() && active == old(active) && (old(revoked) ==> revoked && r.Err?)
      ensures r.Ok? ==>
        Covers(Contents(), Span(gpa, length)) && r.value == Load(Contents(), Span(gpa, length))
      ensures r.Err? ==>
        || (r.error == Down(Revoked) && revoked)
        || (r.error == DmaRange(gpa, length)
            && !(Range(gpa, length).Fits() && RangeMapped(segments, Range(gpa, length))))
    {
      var lease :- Lease(Range(gpa, length));
      var bytes := ReadLease(lease, Range(gpa, length));
      DropActive();
      return Ok(bytes);
    }

    /** `write_bytes`: exactly the range changes, and only on success. */
    method WriteBytes(gpa: u64, bytes: seq<byte>) returns (r: Result<()>)
      requires Valid() && Governed() && |bytes| < U64_LIMIT
      modifies this`revoked, this`drained, this`active, bases
      ensures Governed() && active == old(active) && (old(revoked) ==> revoked && r.Err?)
      ensures r.Ok? ==> Contents() == Store(old(Contents()), Span(gpa, |bytes|), bytes)
      ensures r.Err? ==> Contents() == old(Contents())
      ensures r.Err? ==>
        || (r.error == Down(Revoked) && revoked)
        || (r.error == DmaRange(gpa, |bytes|)
            && !(Range(gpa, |bytes|).Fits() && RangeMapped(segments, Range(gpa, |bytes|))))
    {
      hide Contents;
      var lease :- Lease(Range(gpa, |bytes|));
      WriteLease(lease, Range(gpa, |bytes|), bytes);
      DropActive();
      return Ok(());
    }
  }
}
