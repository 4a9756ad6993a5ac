/**
 The queue on guest bytes, access by access: between any two ring accesses of
 `pop` and `complete` (src/queue.rs:96-142) the driver may take any steps of its
 own and write anything outside the rings. Every such run is a run of
 QueueProtocol. What one access reads or writes is what `ReadU16` and `WriteUsed`
 of VirtQueue promise.
 */
module QueueAccesses {
  import opened Primitives
  import opened LittleEndian
  import opened GuestMemory
  import opened QueueProtocol
  import opened RingLayout

  /** Guest memory, and beside it the device's counters, its next access and the histories. */
  datatype State = State(mem: Memory, queue: Queue)

  /** The state after an access: new memory, and a queue whose rings are those in it. */
  ghost function Then(l: Layout, mem: Memory, queue: Queue): State
    requires RingsInMemory(mem, l)
  {
    State(mem, queue.(rings := View(mem, l)))
  }

  ghost predicate Fits(l: Layout, s: State) {
    0 < s.queue.size == l.size && RingsInMemory(s.mem, l)
  }

  ghost predicate Init(l: Layout, s: State) {
    Fits(l, s) && s.queue.rings == View(s.mem, l) && QueueProtocol.Init(s.queue)
  }

  datatype Access =
    | ReadIndex | ReadSlot | Commit
    | Call(c: Completion) | WriteId | WriteLength | Advance | WriteIndex
    | Refused

  /** One access of the device, as the bytes it reads or writes; writes leave the rings in memory (RingLayout). */
  ghost predicate Accesses(l: Layout, s: State, s': State, access: Access)
    requires Fits(l, s)
  {
    var q := s.queue;
    match access
    case ReadIndex =>
      && q.device == Ready
      && var index := U16At(s.mem, l.available, AvailIndexAddress(l));
      s' == s.(queue := q.(device := match Decide(index, q.lastAvailable, l.size)
                                     case Empty => Ready case Overrun => Dead case Take => Reading))
    case ReadSlot =>
      && q.device == Reading
      && var head := U16At(s.mem, l.available, AvailAddress(l, q.lastAvailable % l.size));
      s' == s.(queue := q.(device := Walking(head)))
    case Commit =>
      && q.device.Walking?
      && s' == s.(queue := q.(device := Ready, lastAvailable := Increment(q.lastAvailable),
                              popped := q.popped + 1, inFlight := q.inFlight + {q.popped}))
    case Call(c) =>
      && q.device == Ready && c.ticket in q.inFlight && c.ticket < |q.published| && c.head == q.published[c.ticket]
      && s' == s.(queue := q.(device := StoringId(c)))
    case WriteId =>
      && q.device.StoringId?
      && var mem := Written(s.mem, UsedIdAddress(l, q.nextUsed % l.size), Encode(q.device.c.head, 4));
      && RingsInMemory(mem, l)
      && s' == Then(l, mem, q.(device := StoringLength(q.device.c)))
    case WriteLength =>
      && q.device.StoringLength?
      && var mem := Written(s.mem, UsedLengthAddress(l, q.nextUsed % l.size), Encode(q.device.c.length, 4));
      && RingsInMemory(mem, l)
      && s' == Then(l, mem, q.(device := Bumping(q.device.c)))
    case Advance =>
      && q.device.Bumping?
      && s' == s.(queue := q.(device := StoringIndex(q.device.c), nextUsed := Increment(q.nextUsed)))
    case WriteIndex =>
      && q.device.StoringIndex?
      && var mem := Written(s.mem, UsedIndexAddress(l), Encode(q.nextUsed, 2));
      && RingsInMemory(mem, l)
      && s' == Then(l, mem, q.(device := Ready, inFlight := q.inFlight - {q.device.c.ticket},
                               completed := q.completed + [q.device.c]))
    case Refused => s' == s.(queue := q.(device := Dead))
  }

  /** A driver's step, and any other writing of the guest's that leaves the rings alone. */
  ghost predicate GuestWrites(l: Layout, s: State, s': State) {
    && Fits(l, s') && s'.queue.rings == View(s'.mem, l)
    && (s'.queue == s.queue || exists event :: DriverNext(s.queue, s'.queue, event))
  }

  ghost predicate Next(l: Layout, s: State, s': State) {
    GuestWrites(l, s, s') || (Fits(l, s) && exists access :: Accesses(l, s, s', access))
  }

  ghost predicate Run(l: Layout, run: seq<State>) {
    && run != [] && Init(l, run[0])
    && forall i :: 0 <= i < |run| - 1 ==> Next(l, run[i], run[i + 1])
  }

  /** The protocol's queue is the one in memory. */
  ghost predicate Mirrors(l: Layout, s: State) {
    Fits(l, s) && s.queue.rings == View(s.mem, l) && Inv(s.queue)
  }

  /** Reads and counter updates do what the protocol's steps do. */
  lemma ReadRefines(l: Layout, s: State, s': State, access: Access) returns (event: Label)
    requires Mirrors(l, s) && Accesses(l, s, s', access)
    requires !access.WriteId? && !access.WriteLength? && !access.WriteIndex?
    ensures DeviceNext(s.queue, s'.queue, event) && Fits(l, s') && s'.queue.rings == View(s'.mem, l)
  {
    hide Inv;
    var q, q' := s.queue, s'.queue;
    match access
    case ReadIndex =>
      var decision := Decide(q.rings.availIndex, q.lastAvailable, q.size);
      assert Peek(q, q', decision);
      event := match decision case Empty => SawEmpty case Overrun => SawOverrun case Take => Internal;
    case ReadSlot => assert ReadHead(q, q'); event := Internal;
    case Commit => assert CommitPop(q, q'); event := Popped(q.device.head);
    case Call(c) => assert Begin(q, q', c); event := Internal;
    case Advance => assert Bump(q, q'); event := Internal;
    case Refused => assert Fail(q, q'); event := Internal;
  }

  /** A write of bytes to the used ring is the protocol's store, and no more. */
  lemma WriteRefines(l: Layout, s: State, s': State, access: Access) returns (event: Label)
    requires Mirrors(l, s) && RingsApart(l) && Accesses(l, s, s', access)
    requires access.WriteId? || access.WriteLength? || access.WriteIndex?
    ensures DeviceNext(s.queue, s'.queue, event) && Fits(l, s') && s'.queue.rings == View(s'.mem, l)
  {
    var q, q' := s.queue, s'.queue;
    assert Shape(q);
    hide Inv, View, Written, Encode;
    match access
    case WriteId =>
      IdWritten(s.mem, l, q.nextUsed % l.size, q.device.c.head);
      assert StoreId(q, q');
      event := Internal;
    case WriteLength =>
      LengthWritten(s.mem, l, q.nextUsed % l.size, q.device.c.length);
      assert StoreLength(q, q');
      event := Internal;
    case WriteIndex =>
      IndexWritten(s.mem, l, q.nextUsed);
      assert StoreIndex(q, q');
      event := Finished(q.device.c);
  }

  /** Every access on bytes, and every step of the guest's, is a protocol step or changes nothing of it. */
  lemma NextRefines(l: Layout, s: State, s': State)
    requires Mirrors(l, s) && RingsApart(l) && Next(l, s, s')
    ensures Mirrors(l, s')
    ensures s'.queue == s.queue || exists event :: QueueProtocol.Next(s.queue, s'.queue, event)
  {
    hide Inv, View;
    if GuestWrites(l, s, s') {
      if s'.queue != s.queue {
        var event :| DriverNext(s.queue, s'.queue, event);
        NextInv(s.queue, s'.queue, event);
        assert QueueProtocol.Next(s.queue, s'.queue, event);
      }
    } else {
      var access :| Accesses(l, s, s', access);
      var event;
      if access.WriteId? || access.WriteLength? || access.WriteIndex? {
        event := WriteRefines(l, s, s', access);
      } else {
        event := ReadRefines(l, s, s', access);
      }
      NextInv(s.queue, s'.queue, event);
      assert QueueProtocol.Next(s.queue, s'.queue, event);
    }
  }

  lemma {:induction false} RunMirrors(l: Layout, run: seq<State>, i: nat)
    requires RingsApart(l) && Run(l, run) && i < |run|
    ensures Mirrors(l, run[i])
    ensures i > 0 ==> Follows(run[i - 1].queue, run[i].queue)
    decreases i
  {
    hide Inv, View, RingsApart;
    if i == 0 {
      InitInv(run[0].queue);
    } else {
      RunMirrors(l, run, i - 1);
      assert Next(l, run[i - 1], run[i - 1 + 1]);
      NextRefines(l, run[i - 1], run[i]);
    }
  }

  /** The queue at every state. */
  ghost function Queues(run: seq<State>): (queues: seq<Queue>)
    ensures |queues| == |run| && forall i :: 0 <= i < |run| ==> queues[i] == run[i].queue
  {
    seq(|run|, i requires 0 <= i < |run| => run[i].queue)
  }

  /**
   Any interleaving of single accesses with the driver is, stutters left out, a
   run of the protocol, and the rings in memory are the protocol's at every
   point; so the k-th pop takes the k-th published head, and what is reclaimed is
   what was finished.
   */
  lemma AccessesRefine(l: Layout, run: seq<State>) returns (labels: seq<Label>)
    requires RingsApart(l) && Run(l, run)
    ensures forall i :: 0 <= i < |run| ==> Mirrors(l, run[i])
    ensures run != [] && QueueProtocol.Run(Changes(Queues(run)), labels)
    ensures PoppedHeads(labels) <= PublishedHeads(labels) && SawOverrun !in labels
    ensures ReclaimedEntries(labels) <= FinishedEntries(labels)
  {
    forall i | 0 <= i < |run| ensures Mirrors(l, run[i]) {
      RunMirrors(l, run, i);
    }
    RunHistory(l, run);
    hide Run, QueueProtocol.Run, History, Mirrors;
    labels := HistoryRuns(Queues(run));
    PopsAndReclaimsInOrder(Changes(Queues(run)), labels);
  }

  lemma RunHistory(l: Layout, run: seq<State>)
    requires RingsApart(l) && Run(l, run)
    ensures History(Queues(run))
  {
    hide Next, Follows, QueueProtocol.Init, Mirrors;
    var history := Queues(run);
    forall i | 0 <= i < |history| - 1 ensures Follows(history[i], history[i + 1]) {
      RunMirrors(l, run, i + 1);
    }
  }
}
