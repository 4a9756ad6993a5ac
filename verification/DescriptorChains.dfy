/**
 The walk along NEXT links that `VirtQueue::read_chain` performs
 (src/queue.rs:149-173; section 2.7.5 of VIRTIO Version 1.2), stated on a
 decoded descriptor table and independently of the loop that performs it.
 */
module DescriptorChains {
  import opened Primitives
  import opened GuestMemory

  datatype Descriptor = Descriptor(address: u64, length: u32, flags: u16, next: u16) {
    /** `flags & VIRTQ_DESC_F_NEXT != 0` */
    predicate HasNext() {
      flags % 2 == 1
    }

    /** `flags & VIRTQ_DESC_F_WRITE != 0` */
    predicate Writable() {
      flags / 2 % 2 == 1
    }
  }

  /** Bit 0 of the flags is NEXT and bit 1 is WRITE; the others mean nothing here. */
  lemma FlagBits(d: Descriptor, rest: nat, write: bool, next: bool)
    requires d.flags == 4 * rest + (if write then 2 else 0) + (if next then 1 else 0)
    ensures d.HasNext() <==> next
    ensures d.Writable() <==> write
  {
    assert d.flags == 2 * (2 * rest + if write then 1 else 0) + if next then 1 else 0;
    assert d.flags / 2 == 2 * rest + if write then 1 else 0;
  }

  type Table = seq<Descriptor>

  datatype Chain = Chain(head: u16, descriptors: seq<Descriptor>)

  /** `path` follows NEXT links from `head` and stays inside the table. */
  ghost predicate Walk(table: Table, head: int, path: seq<nat>) {
    && path != [] && path[0] == head
    && (forall i :: 0 <= i < |path| ==> path[i] < |table|)
    && (forall i :: 0 <= i < |path| - 1 ==> Linked(table, path[i], path[i + 1]))
  }

  predicate Linked(table: Table, from: nat, to: nat) {
    from < |table| && table[from].HasNext() && table[from].next == to
  }

  function Last(path: seq<nat>): nat
    requires path != []
  {
    path[|path| - 1]
  }

  ghost predicate Finishes(table: Table, head: int, path: seq<nat>) {
    Walk(table, head, path) && !table[Last(path)].HasNext()
  }

  ghost predicate Escapes(table: Table, head: int, path: seq<nat>) {
    Walk(table, head, path) && table[Last(path)].HasNext() && table[Last(path)].next >= |table|
  }

  /** The walk cannot go on: it finished, or its next index is out of range. */
  ghost predicate DeadEnd(table: Table, head: int, path: seq<nat>) {
    Finishes(table, head, path) || Escapes(table, head, path)
  }

  ghost predicate Revisits(table: Table, head: int, path: seq<nat>) {
    Walk(table, head, path) && !NoDuplicates(path)
  }

  function Descriptors(table: Table, path: seq<nat>): (ds: seq<Descriptor>)
    requires forall i :: 0 <= i < |path| ==> path[i] < |table|
    ensures |ds| == |path| && forall i :: 0 <= i < |path| ==> ds[i] == table[path[i]]
  {
    seq(|path|, i requires 0 <= i < |path| => table[path[i]])
  }

  const HEAD_OUT_OF_RANGE := "head index exceeds queue size"
  const NEXT_OUT_OF_RANGE := "next index exceeds queue size"
  const CHAIN_LOOP := "descriptor chain loop"

  /** What `read_chain` owes its caller for a given table and head. */
  ghost predicate ChainResult(table: Table, head: u16, r: Result<Chain>) {
    match r
    case Ok(chain) =>
      chain.head == head && exists path ::
        Finishes(table, head, path) && chain.descriptors == Descriptors(table, path)
    case Err(error) =>
      || (error == Malformed(HEAD_OUT_OF_RANGE) && head >= |table|)
      || (error == Malformed(NEXT_OUT_OF_RANGE) && exists path :: Escapes(table, head, path))
      || (error == Malformed(CHAIN_LOOP) && exists path :: Revisits(table, head, path))
  }

  /** Links are deterministic: of two walks from one head, one extends the other. */
  lemma {:induction false} WalkPrefix(table: Table, head: int, p: seq<nat>, q: seq<nat>, i: nat)
    requires Walk(table, head, p) && Walk(table, head, q) && i < |p| && i < |q|
    ensures p[i] == q[i]
    decreases i
  {
    if i > 0 {
      WalkPrefix(table, head, p, q, i - 1);
      assert Linked(table, p[i - 1], p[i - 1 + 1]) && Linked(table, q[i - 1], q[i - 1 + 1]);
    }
  }

  /** Once an index recurs, everything after it recurs at the same distance. */
  lemma {:induction false} Recurs(table: Table, head: int, path: seq<nat>, i: nat, j: nat, k: nat)
    requires Walk(table, head, path) && i < j && j + k < |path|
    ensures path[i] == path[j] ==> path[i + k] == path[j + k]
    decreases k
  {
    if k > 0 {
      Recurs(table, head, path, i, j, k - 1);
      assert Linked(table, path[i + k - 1], path[i + k - 1 + 1]);
      assert Linked(table, path[j + k - 1], path[j + k - 1 + 1]);
    }
  }

  /** A walk whose last descriptor has no usable successor repeats no descriptor. */
  lemma DeadEndNoDuplicates(table: Table, head: int, path: seq<nat>)
    requires DeadEnd(table, head, path)
    ensures NoDuplicates(path)
  {
    forall i, j | 0 <= i < j < |path| ensures path[i] != path[j] {
      var k := |path| - 1 - j;
      assert Linked(table, path[i + k], path[i + k + 1]);
      assert path[i + k + 1] < |table|;
      Recurs(table, head, path, i, j, k);
    }
  }

  ghost function Elements(path: seq<nat>): set<nat> {
    set x | x in path
  }

  lemma {:induction false} DistinctCount(path: seq<nat>)
    requires NoDuplicates(path)
    ensures |Elements(path)| == |path|
  {
    if path != [] {
      var front := path[..|path| - 1];
      DistinctCount(front);
      assert path == front + [Last(path)];
      assert Elements(path) == Elements(front) + {Last(path)};
      assert Last(path) !in Elements(front);
    }
  }

  lemma {:induction false} BoundedSet(s: set<nat>, n: nat)
    requires forall x :: x in s ==> x < n
    ensures |s| <= n
  {
    if n == 0 {
      assert s == {};
    } else {
      BoundedSet(s - {n - 1}, n - 1);
      assert s <= (s - {n - 1}) + {n - 1};
    }
  }

  /** Pigeonhole: more steps than descriptors means a descriptor recurred. */
  lemma Pigeonhole(table: Table, head: int, path: seq<nat>)
    requires Walk(table, head, path) && |path| > |table|
    ensures !NoDuplicates(path)
  {
    BoundedSet(Elements(path), |table|);
    if NoDuplicates(path) {
      DistinctCount(path);
    }
  }

  /** A finished chain uses each descriptor at most once, so at most `size` of them. */
  lemma FinishedChain(table: Table, head: int, path: seq<nat>)
    requires Finishes(table, head, path)
    ensures NoDuplicates(path) && |path| <= |table|
  {
    DeadEndNoDuplicates(table, head, path);
    if |path| > |table| {
      Pigeonhole(table, head, path);
    }
  }

  /** Two walks of one head where both have no usable successor are the same walk. */
  lemma DeadEndUnique(table: Table, head: int, p: seq<nat>, q: seq<nat>)
    requires DeadEnd(table, head, p)
    requires DeadEnd(table, head, q)
    ensures p == q
  {
    if |p| < |q| {
      NoLongerWalk(table, head, p, q);
    } else if |q| < |p| {
      NoLongerWalk(table, head, q, p);
    }
    forall i | 0 <= i < |p| ensures p[i] == q[i] {
      WalkPrefix(table, head, p, q, i);
    }
  }

  lemma NoLongerWalk(table: Table, head: int, p: seq<nat>, q: seq<nat>)
    requires DeadEnd(table, head, p)
    requires Walk(table, head, q)
    ensures |q| <= |p|
  {
    if |p| < |q| {
      assert Linked(table, q[|p| - 1], q[|p| - 1 + 1]);
      WalkPrefix(table, head, p, q, |p| - 1);
    }
  }

  /** A head whose walk revisits a descriptor never finishes and never escapes. */
  lemma RevisitNeverEnds(table: Table, head: int, p: seq<nat>, q: seq<nat>)
    requires Revisits(table, head, p)
    ensures !DeadEnd(table, head, q)
  {
    if DeadEnd(table, head, q) {
      DeadEndNoDuplicates(table, head, q);
      NoLongerWalk(table, head, q, p);
      forall i | 0 <= i < |p| ensures p[i] == q[i] {
        WalkPrefix(table, head, p, q, i);
      }
    }
  }

  /** The result is a function of table and head: every clause of ChainResult is an "iff". */
  lemma ChainResultUnique(table: Table, head: u16, r: Result<Chain>, s: Result<Chain>)
    requires ChainResult(table, head, r) && ChainResult(table, head, s)
    ensures r == s
  {
    forall p, q | DeadEnd(table, head, p) && DeadEnd(table, head, q) ensures p == q {
      DeadEndUnique(table, head, p, q);
    }
    forall p, q | Revisits(table, head, p) ensures !DeadEnd(table, head, q) {
      RevisitNeverEnds(table, head, p, q);
    }
    assert forall p :: Finishes(table, head, p) || Escapes(table, head, p) ==> DeadEnd(table, head, p);
  }
}
