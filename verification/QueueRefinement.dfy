/**
 The methods of VirtQueue take the steps of QueueProtocol: a device whose rings
 and counters are those of a protocol state moves to a protocol state again.
 */
module QueueRefinement {
  import opened Primitives
  import opened DescriptorChains
  import opened QueueProtocol
  import opened RingLayout
  import opened VirtQueue

  /** The protocol state's rings and counters are the device's. */
  ghost predicate Agrees(q: Queue, l: Layout, rings: Rings, lastAvailable: u16, nextUsed: u16) {
    && q.size == l.size && q.rings == rings
    && q.lastAvailable == lastAvailable && q.nextUsed == nextUsed
  }

  /** A `pop` that returns a chain is peek, ring read and commit; the chain is the next published one. */
  lemma PopTakesProtocolSteps(q: Queue, l: Layout, rings: Rings, table: Table, lastAvailable: u16, chain: Chain)
    returns (q1: Queue, q2: Queue, q3: Queue)
    requires Inv(q) && q.device == Ready && Agrees(q, l, rings, lastAvailable, q.nextUsed)
    requires PopResult(l, rings, table, lastAvailable, Ok(Some(chain)))
    ensures Peek(q, q1, Take) && ReadHead(q1, q2) && CommitPop(q2, q3)
    ensures Agrees(q3, l, rings, Increment(lastAvailable), q.nextUsed)
    ensures q.popped < |q.published| && chain.head == q.published[q.popped]
  {
    q1 := q.(device := Reading);
    q2 := q1.(device := Walking(rings.avail[lastAvailable % l.size]));
    q3 := q2.(device := Ready, lastAvailable := Increment(lastAvailable),
              popped := q.popped + 1, inFlight := q.inFlight + {q.popped});
    PeekExact(q);
    NextInv(q, q1, Internal);
    NextInv(q1, q2, Internal);
  }

  /** `pop` finds nothing exactly when everything published was popped, and never sees an overrun. */
  lemma PopFindsNothing(q: Queue, l: Layout, rings: Rings, table: Table, lastAvailable: u16, r: Result<Option<Chain>>)
    requires Inv(q) && q.device == Ready && Agrees(q, l, rings, lastAvailable, q.nextUsed)
    requires PopResult(l, rings, table, lastAvailable, r)
    ensures r == Ok(None) <==> q.popped == |q.published|
    ensures r.Err? ==> r.error.Malformed?
  {
    PeekExact(q);
  }

  /** A `complete` that succeeds is the four protocol steps in order. */
  lemma CompleteTakesProtocolSteps(q: Queue, l: Layout, rings: Rings, after: Rings, nextUsed': u16)
    returns (q1: Queue, q2: Queue, q3: Queue, q4: Queue)
    requires Inv(q) && q.device.StoringId? && Agrees(q, l, rings, q.lastAvailable, q.nextUsed)
    requires CompleteResult(l, rings, after, q.nextUsed, nextUsed', q.device.c.head, q.device.c.length, true)
    ensures StoreId(q, q1) && StoreLength(q1, q2) && Bump(q2, q3) && StoreIndex(q3, q4)
    ensures Agrees(q4, l, after, q.lastAvailable, nextUsed')
  {
    var c, slot := q.device.c, q.nextUsed % q.size;
    q1 := q.(device := StoringLength(c), rings := rings.(usedIds := rings.usedIds[slot := c.head]));
    q2 := q1.(device := Bumping(c), rings := q1.rings.(usedLengths := q1.rings.usedLengths[slot := c.length]));
    q3 := q2.(device := StoringIndex(c), nextUsed := Increment(q.nextUsed));
    q4 := q3.(device := Ready, rings := after, inFlight := q.inFlight - {c.ticket}, completed := q.completed + [c]);
  }

  /**
   A `complete` cut short by a revoke stopped at a protocol state: nothing the
   used index covers is half written.
   */
  lemma CompleteStopsAtProtocolStep(q: Queue, l: Layout, rings: Rings, after: Rings, nextUsed': u16)
    returns (q': Queue)
    requires Inv(q) && q.device.StoringId? && Agrees(q, l, rings, q.lastAvailable, q.nextUsed)
    requires CompleteResult(l, rings, after, q.nextUsed, nextUsed', q.device.c.head, q.device.c.length, false)
    ensures Inv(q') && Agrees(q', l, after, q.lastAvailable, nextUsed')
    ensures Abstract(q') == Abstract(q)
    ensures q'.rings.usedIndex == q.rings.usedIndex
  {
    var c, slot := q.device.c, q.nextUsed % q.size;
    var q1 := q.(device := StoringLength(c), rings := rings.(usedIds := rings.usedIds[slot := c.head]));
    var q2 := q1.(device := Bumping(c), rings := q1.rings.(usedLengths := q1.rings.usedLengths[slot := c.length]));
    var q3 := q2.(device := StoringIndex(c), nextUsed := Increment(q.nextUsed));
    assert StoreId(q, q1) && StoreLength(q1, q2) && Bump(q2, q3);
    NextInv(q, q1, Internal);
    NextInv(q1, q2, Internal);
    NextInv(q2, q3, Internal);
    q' := if nextUsed' != q.nextUsed then q3 else if after == rings then q else q1;
    assert Increment(q.nextUsed) != q.nextUsed;
  }
}
