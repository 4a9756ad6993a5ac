/**
 Guest memory as a value: a finite map from guest physical address to byte.
 Every transfer of the library visits a list of addresses in order, so reading
 and writing are defined on address lists; a later write to an address wins.
 */
module GuestMemory {
  import opened Primitives

  type Memory = map<int, byte>

  /** The `n` consecutive addresses starting at `gpa`. */
  function Span(gpa: int, n: nat): (addresses: seq<int>)
    ensures |addresses| == n
    ensures forall i :: 0 <= i < n ==> addresses[i] == gpa + i
  {
    seq(n, i => gpa + i)
  }

  predicate Covers(mem: Memory, addresses: seq<int>) {
    forall i :: 0 <= i < |addresses| ==> addresses[i] in mem
  }

  function Load(mem: Memory, addresses: seq<int>): (bytes: seq<byte>)
    requires Covers(mem, addresses)
    ensures |bytes| == |addresses|
    ensures forall i :: 0 <= i < |addresses| ==> bytes[i] == mem[addresses[i]]
  {
    seq(|addresses|, i requires 0 <= i < |addresses| => mem[addresses[i]])
  }

  function Store(mem: Memory, addresses: seq<int>, bytes: seq<byte>): (result: Memory)
    requires |addresses| == |bytes|
    decreases |addresses|
  {
    if addresses == [] then mem
    else Store(mem[addresses[0] := bytes[0]], addresses[1..], bytes[1..])
  }

  predicate NoDuplicates<T(==)>(s: seq<T>) {
    forall i, j :: 0 <= i < j < |s| ==> s[i] != s[j]
  }

  /** A store changes only the addresses it names, and never unmaps one. */
  lemma {:induction false} StoreFrame(mem: Memory, addresses: seq<int>, bytes: seq<byte>)
    requires |addresses| == |bytes|
    ensures forall a :: a in Store(mem, addresses, bytes) <==> a in mem || a in addresses
    ensures forall a :: a in mem && a !in addresses ==> Store(mem, addresses, bytes)[a] == mem[a]
    decreases |addresses|
  {
    if addresses != [] {
      StoreFrame(mem[addresses[0] := bytes[0]], addresses[1..], bytes[1..]);
      assert addresses == [addresses[0]] + addresses[1..];
    }
  }

  /** Stored bytes read back when no address is written twice. */
  lemma {:induction false} StoreAt(mem: Memory, addresses: seq<int>, bytes: seq<byte>, i: nat)
    requires |addresses| == |bytes| && NoDuplicates(addresses) && i < |addresses|
    ensures addresses[i] in Store(mem, addresses, bytes)
    ensures Store(mem, addresses, bytes)[addresses[i]] == bytes[i]
    decreases |addresses|
  {
    var mem1 := mem[addresses[0] := bytes[0]];
    if i == 0 {
      StoreFrame(mem1, addresses[1..], bytes[1..]);
      assert addresses[0] !in addresses[1..];
    } else {
      StoreAt(mem1, addresses[1..], bytes[1..], i - 1);
    }
  }

  lemma LoadStored(mem: Memory, addresses: seq<int>, bytes: seq<byte>)
    requires |addresses| == |bytes| && NoDuplicates(addresses)
    ensures Covers(Store(mem, addresses, bytes), addresses)
    ensures Load(Store(mem, addresses, bytes), addresses) == bytes
  {
    forall i | 0 <= i < |addresses|
      ensures addresses[i] in Store(mem, addresses, bytes)
      ensures Store(mem, addresses, bytes)[addresses[i]] == bytes[i]
    {
      StoreAt(mem, addresses, bytes, i);
    }
  }

  /** A store over the start of a list of distinct addresses leaves the rest of the list as it was. */
  lemma LoadAfterPrefix(mem: Memory, all: seq<int>, bytes: seq<byte>)
    requires Covers(mem, all) && NoDuplicates(all) && |bytes| <= |all|
    ensures Covers(Store(mem, all[..|bytes|], bytes), all)
    ensures Load(Store(mem, all[..|bytes|], bytes), all) == bytes + Load(mem, all)[|bytes|..]
  {
    var n, written := |bytes|, all[..|bytes|];
    var mem' := Store(mem, written, bytes);
    StoreFrame(mem, written, bytes);
    forall i | 0 <= i < |all|
      ensures all[i] in mem' && mem'[all[i]] == if i < n then bytes[i] else mem[all[i]]
    {
      var a := all[i];
      assert a in mem;
      if i < n {
        StoreAt(mem, written, bytes, i);
      } else {
        assert a !in written;
      }
    }
  }

  /** Reading addresses a store did not name gives the old bytes. */
  lemma LoadElsewhere(mem: Memory, written: seq<int>, bytes: seq<byte>, addresses: seq<int>)
    requires |written| == |bytes| && Covers(mem, addresses)
    requires forall i :: 0 <= i < |addresses| ==> addresses[i] !in written
    ensures Covers(Store(mem, written, bytes), addresses)
    ensures Load(Store(mem, written, bytes), addresses) == Load(mem, addresses)
  {
    StoreFrame(mem, written, bytes);
    forall i | 0 <= i < |addresses|
      ensures addresses[i] in Store(mem, written, bytes)
      ensures Store(mem, written, bytes)[addresses[i]] == mem[addresses[i]]
    {
      var a := addresses[i];
      assert a in mem && a !in written;
    }
  }

  lemma {:induction false} StoreConcat(mem: Memory, a: seq<int>, b: seq<int>, x: seq<byte>, y: seq<byte>)
    requires |a| == |x| && |b| == |y|
    ensures Store(mem, a + b, x + y) == Store(Store(mem, a, x), b, y)
    decreases |a|
  {
    if a == [] {
      assert a + b == b && x + y == y;
    } else {
      assert (a + b)[1..] == a[1..] + b && (x + y)[1..] == x[1..] + y;
      StoreConcat(mem[a[0] := x[0]], a[1..], b, x[1..], y);
    }
  }

  lemma SpanConcat(gpa: int, m: nat, n: nat)
    ensures Span(gpa, m + n) == Span(gpa, m) + Span(gpa + m, n)
  {
  }

  /** A store to one span, address by address. */
  lemma StoreSpan(mem: Memory, gpa: int, bytes: seq<byte>)
    ensures forall a ::
      a in Store(mem, Span(gpa, |bytes|), bytes) <==> a in mem || gpa <= a < gpa + |bytes|
    ensures forall a :: a in Store(mem, Span(gpa, |bytes|), bytes) ==>
      Store(mem, Span(gpa, |bytes|), bytes)[a] ==
        if gpa <= a < gpa + |bytes| then bytes[a - gpa] else mem[a]
  {
    var span := Span(gpa, |bytes|);
    StoreFrame(mem, span, bytes);
    forall a | gpa <= a < gpa + |bytes|
      ensures a in span && Store(mem, span, bytes)[a] == bytes[a - gpa]
    {
      assert span[a - gpa] == a;
      StoreAt(mem, span, bytes, a - gpa);
    }
  }
}
