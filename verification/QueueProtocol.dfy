/**
 The split virtqueue as a protocol between driver and device (src/queue.rs:96-142;
 sections 2.7.6 and 2.7.8 of VIRTIO Version 1.2), one memory access per step.
 The device decides from ring memory and the wrapping 16-bit counters alone. The
 unbounded histories are recorded beside them; steps consult them only for what
 callers owe: the driver keeps at most `size` heads outstanding and knows how many
 it published, and `complete` is called with a chain that was popped. A driver may
 write any number of heads before it raises the available index by that number.
 */
module QueueProtocol {
  import opened Primitives
  import opened Arithmetic

  /** The two rings as they stand in guest memory. */
  datatype Rings = Rings(
    availIndex: u16, avail: seq<u16>,
    usedIndex: u16, usedIds: seq<u32>, usedLengths: seq<u32>)

  function Distance(a: u16, b: u16): u16 {
    (a - b) % U16_LIMIT
  }

  function Increment(c: u16): u16 {
    (c + 1) % U16_LIMIT
  }

  datatype Decision = Empty | Overrun | Take

  /** The two index checks of `pop`. */
  function Decide(availIndex: u16, lastAvailable: u16, size: nat): Decision {
    if availIndex == lastAvailable then Empty
    else if Distance(availIndex, lastAvailable) > size then Overrun
    else Take
  }

  /** Whatever index the driver wrote, `n` ahead of the device's counter: none, too many, or one to take. */
  lemma DecideExact(availIndex: u16, lastAvailable: u16, size: nat, n: nat)
    requires n < 0x1_0000 && availIndex == (lastAvailable + n) % 0x1_0000
    ensures var decision := Decide(availIndex, lastAvailable, size);
      && (decision == Empty <==> n == 0)
      && (decision == Overrun <==> n > size && n > 0)
      && (decision == Take <==> 1 <= n <= size)
  {
    assert Distance(availIndex, lastAvailable) == n;
  }

  /** `ticket` says which pop, counting from zero, this completes. */
  datatype Completion = Completion(ticket: nat, head: u16, length: u32)

  datatype DeviceStep =
    | Ready
    | Reading
    | Walking(head: u16)
    | StoringId(c: Completion)
    | StoringLength(c: Completion)
    | Bumping(c: Completion)
    | StoringIndex(c: Completion)
    | Dead

  /** Heads the driver has written to the ring and not yet published. */
  datatype DriverStep = Staged(heads: seq<u16>)

  datatype Queue = Queue(
    size: nat,
    rings: Rings,
    // device: `QueueState` and the point it has reached
    lastAvailable: u16, nextUsed: u16, device: DeviceStep,
    // driver
    lastUsed: u16, driver: DriverStep,
    // histories
    published: seq<u16>, popped: nat, inFlight: set<nat>,
    completed: seq<Completion>, reclaimed: nat)

  datatype Label =
    | Internal
    | Published(heads: seq<u16>)
    | SawEmpty
    | SawOverrun
    | Popped(head: u16)
    | Finished(c: Completion)
    | Reclaimed(id: u32, length: u32)

  // ------------------------------------------------------------------- steps

  ghost predicate Init(q: Queue) {
    && 0 < q.size < U16_LIMIT && PowerOfTwo(q.size)
    && q.rings.availIndex == 0 && q.rings.usedIndex == 0
    && |q.rings.avail| == |q.rings.usedIds| == |q.rings.usedLengths| == q.size
    && q.lastAvailable == 0 && q.nextUsed == 0 && q.device == Ready
    && q.lastUsed == 0 && q.driver == Staged([])
    && q.published == [] && q.popped == 0 && q.inFlight == {}
    && q.completed == [] && q.reclaimed == 0
  }

  /** The ring position the driver writes next. */
  function NextEntry(q: Queue): nat {
    |q.published| + |q.driver.heads|
  }

  /** The driver owes the device one thing: at most `size` heads outstanding. */
  ghost predicate WriteEntry(q: Queue, q': Queue, head: u16) {
    && 0 < q.size == |q.rings.avail| && NextEntry(q) - q.reclaimed < q.size
    && q' == q.(driver := Staged(q.driver.heads + [head]),
                rings := q.rings.(avail := q.rings.avail[NextEntry(q) % q.size := head]))
  }

  /** One store of the index publishes everything staged. */
  ghost predicate Publish(q: Queue, q': Queue) {
    q' == q.(driver := Staged([]),
             rings := q.rings.(availIndex := (q.rings.availIndex + |q.driver.heads|) % U16_LIMIT),
             published := q.published + q.driver.heads)
  }

  ghost predicate Reclaim(q: Queue, q': Queue, id: u32, length: u32) {
    && 0 < q.size == |q.rings.usedIds| == |q.rings.usedLengths|
    && q.rings.usedIndex != q.lastUsed
    && id == q.rings.usedIds[q.lastUsed % q.size]
    && length == q.rings.usedLengths[q.lastUsed % q.size]
    && q' == q.(lastUsed := Increment(q.lastUsed), reclaimed := q.reclaimed + 1)
  }

  /** `pop` reads the available index and decides. */
  ghost predicate Peek(q: Queue, q': Queue, decision: Decision) {
    && q.device == Ready
    && decision == Decide(q.rings.availIndex, q.lastAvailable, q.size)
    && q' == q.(device := match decision case Empty => Ready case Overrun => Dead case Take => Reading)
  }

  /** `pop` reads the ring slot. */
  ghost predicate ReadHead(q: Queue, q': Queue) {
    && q.device == Reading && 0 < q.size == |q.rings.avail|
    && q' == q.(device := Walking(q.rings.avail[q.lastAvailable % q.size]))
  }

  /** The chain walk succeeded: `pop` advances its counter and returns. */
  ghost predicate CommitPop(q: Queue, q': Queue) {
    && q.device.Walking?
    && q' == q.(device := Ready, lastAvailable := Increment(q.lastAvailable),
                popped := q.popped + 1, inFlight := q.inFlight + {q.popped})
  }

  /** `complete` is called with a chain that was popped and not yet completed. */
  ghost predicate Begin(q: Queue, q': Queue, c: Completion) {
    && q.device == Ready && c.ticket in q.inFlight && c.ticket < |q.published|
    && c.head == q.published[c.ticket]
    && q' == q.(device := StoringId(c))
  }

  ghost predicate StoreId(q: Queue, q': Queue) {
    && q.device.StoringId? && 0 < q.size == |q.rings.usedIds|
    && q' == q.(device := StoringLength(q.device.c),
                rings := q.rings.(usedIds := q.rings.usedIds[q.nextUsed % q.size := q.device.c.head]))
  }

  ghost predicate StoreLength(q: Queue, q': Queue) {
    && q.device.StoringLength? && 0 < q.size == |q.rings.usedLengths|
    && q' == q.(device := Bumping(q.device.c),
                rings := q.rings.(usedLengths := q.rings.usedLengths[q.nextUsed % q.size := q.device.c.length]))
  }

  ghost predicate Bump(q: Queue, q': Queue) {
    && q.device.Bumping?
    && q' == q.(device := StoringIndex(q.device.c), nextUsed := Increment(q.nextUsed))
  }

  ghost predicate StoreIndex(q: Queue, q': Queue) {
    && q.device.StoringIndex?
    && q' == q.(device := Ready, rings := q.rings.(usedIndex := q.nextUsed),
                inFlight := q.inFlight - {q.device.c.ticket},
                completed := q.completed + [q.device.c])
  }

  /** A refused lease, a malformed chain or an index error ends the device. */
  ghost predicate Fail(q: Queue, q': Queue) {
    q' == q.(device := Dead)
  }

  ghost predicate DriverNext(q: Queue, q': Queue, l: Label) {
    || (exists head :: l == Internal && WriteEntry(q, q', head))
    || (Publish(q, q') && l == Published(q.driver.heads))
    || (l.Reclaimed? && Reclaim(q, q', l.id, l.length))
  }

  ghost predicate DeviceNext(q: Queue, q': Queue, l: Label) {
    || (l == SawEmpty && Peek(q, q', Empty))
    || (l == SawOverrun && Peek(q, q', Overrun))
    || (l == Internal && Peek(q, q', Take))
    || (l == Internal && ReadHead(q, q'))
    || (CommitPop(q, q') && l == Popped(q.device.head))
    || (exists c :: l == Internal && Begin(q, q', c))
    || (l == Internal && StoreId(q, q'))
    || (l == Internal && StoreLength(q, q'))
    || (l == Internal && Bump(q, q'))
    || (StoreIndex(q, q') && l == Finished(q.device.c))
    || (l == Internal && Fail(q, q'))
  }

  ghost predicate Next(q: Queue, q': Queue, l: Label) {
    DriverNext(q, q', l) || DeviceNext(q, q', l)
  }

  // --------------------------------------------------------------- invariant

  ghost predicate Shape(q: Queue) {
    && 0 < q.size < U16_LIMIT && Divides(q.size, U16_LIMIT)
    && |q.rings.avail| == |q.rings.usedIds| == |q.rings.usedLengths| == q.size
    && q.reclaimed <= |q.completed| <= q.popped <= |q.published| && NextEntry(q) <= q.reclaimed + q.size
  }

  ghost predicate Counters(q: Queue) {
    && q.rings.availIndex == |q.published| % U16_LIMIT
    && q.lastAvailable == q.popped % U16_LIMIT
    && q.rings.usedIndex == |q.completed| % U16_LIMIT
    && q.lastUsed == q.reclaimed % U16_LIMIT
    && (!q.device.Dead? ==>
        q.nextUsed == (|q.completed| + (if q.device.StoringIndex? then 1 else 0)) % U16_LIMIT)
  }

  ghost predicate AvailHeld(q: Queue)
    requires Shape(q)
  {
    && (forall k :: q.popped <= k < |q.published| ==> q.rings.avail[k % q.size] == q.published[k])
    && (forall k :: |q.published| <= k < NextEntry(q) ==>
        q.rings.avail[k % q.size] == q.driver.heads[k - |q.published|])
  }

  /** Used entry `k` holds exactly the `k`-th completion. */
  ghost predicate Entry(q: Queue, k: nat, c: Completion)
    requires Shape(q)
  {
    q.rings.usedIds[k % q.size] == c.head && q.rings.usedLengths[k % q.size] == c.length
  }

  ghost predicate UsedHeld(q: Queue)
    requires Shape(q)
  {
    forall k :: q.reclaimed <= k < |q.completed| ==> Entry(q, k, q.completed[k])
  }

  ghost predicate Tickets(q: Queue)
    requires Shape(q)
  {
    && (forall t :: t in q.inFlight ==> t < q.popped)
    && (forall i :: 0 <= i < |q.completed| ==>
        && q.completed[i].ticket < q.popped
        && q.completed[i].ticket !in q.inFlight
        && q.completed[i].head == q.published[q.completed[i].ticket])
    && (forall i, j :: 0 <= i < j < |q.completed| ==> q.completed[i].ticket != q.completed[j].ticket)
    && |q.inFlight| + |q.completed| == q.popped
  }

  ghost predicate Completing(q: Queue, c: Completion)
    requires Shape(q)
  {
    && c.ticket in q.inFlight && c.ticket < q.popped && c.head == q.published[c.ticket]
  }

  ghost predicate Stage(q: Queue)
    requires Shape(q)
  {
    match q.device
    case Ready => true
    case Dead => true
    case Reading => q.popped < |q.published|
    case Walking(head) => q.popped < |q.published| && head == q.published[q.popped]
    case StoringId(c) => Completing(q, c)
    case StoringLength(c) => Completing(q, c) && q.rings.usedIds[|q.completed| % q.size] == c.head
    case Bumping(c) => Completing(q, c) && Entry(q, |q.completed|, c)
    case StoringIndex(c) => Completing(q, c) && Entry(q, |q.completed|, c)
  }

  ghost predicate Inv(q: Queue) {
    Shape(q) && Counters(q) && AvailHeld(q) && UsedHeld(q) && Tickets(q) && Stage(q)
  }

  // ------------------------------------------------------------ preservation

  /** A wrapped counter addresses the same slot as the unbounded one. */
  lemma SlotOfCounter(q: Queue, k: nat)
    requires Shape(q)
    ensures (k % U16_LIMIT) % q.size == k % q.size
  {
    ModOfMod(k, q.size, U16_LIMIT);
  }

  lemma InitInv(q: Queue)
    requires Init(q)
    ensures Inv(q)
  {
    CounterModuli();
    PowerOfTwoDivides(q.size, U16_LIMIT);
  }

  /** A step that touches neither rings nor histories keeps what ties them together. */
  lemma HeldAlike(q: Queue, q': Queue)
    requires Shape(q) && AvailHeld(q) && UsedHeld(q) && Tickets(q)
    requires q' == q.(device := q'.device, nextUsed := q'.nextUsed)
    ensures Shape(q') && AvailHeld(q') && UsedHeld(q') && Tickets(q')
    ensures forall k, c :: Entry(q', k, c) <==> Entry(q, k, c)
  {
    assert forall k :: q.reclaimed <= k < |q.completed| ==> Entry(q, k, q.completed[k]);
  }

  lemma WriteEntryInv(q: Queue, q': Queue, head: u16)
    requires Inv(q) && WriteEntry(q, q', head)
    ensures Inv(q')
  {
    forall k | q.popped <= k < NextEntry(q) ensures q'.rings.avail[k % q.size] == q.rings.avail[k % q.size] {
      SlotsDistinct(k, NextEntry(q), q.size);
    }
    assert forall k :: q.reclaimed <= k < |q.completed| ==> Entry(q, k, q.completed[k]);
  }

  lemma PublishInv(q: Queue, q': Queue)
    requires Inv(q) && Publish(q, q')
    ensures Inv(q')
  {
    WrappingSum(|q.published|, |q.driver.heads|, U16_LIMIT);
    assert forall k :: q.reclaimed <= k < |q.completed| ==> Entry(q, k, q.completed[k]);
  }

  lemma ReclaimInv(q: Queue, q': Queue, id: u32, length: u32)
    requires Inv(q) && Reclaim(q, q', id, length)
    ensures Inv(q')
    ensures q.reclaimed < |q.completed|
    ensures id == q.completed[q.reclaimed].head && length == q.completed[q.reclaimed].length
  {
    WrappingDifference(|q.completed|, q.reclaimed, U16_LIMIT);
    WrappingIncrement(q.reclaimed, U16_LIMIT);
    SlotOfCounter(q, q.reclaimed);
    assert Entry(q, q.reclaimed, q.completed[q.reclaimed]);
    assert forall k :: q.reclaimed <= k < |q.completed| ==> Entry(q, k, q.completed[k]);
  }

  /** Empty and full are never confused, and the overrun check never fires. */
  lemma PeekExact(q: Queue)
    requires Inv(q)
    ensures Decide(q.rings.availIndex, q.lastAvailable, q.size) ==
      if q.popped == |q.published| then Empty else Take
  {
    WrappingDifference(|q.published|, q.popped, U16_LIMIT);
  }

  lemma PeekInv(q: Queue, q': Queue, decision: Decision)
    requires Inv(q) && Peek(q, q', decision)
    ensures Inv(q')
  {
    PeekExact(q);
    HeldAlike(q, q');
    hide Decide, AvailHeld, UsedHeld, Tickets;
  }

  lemma ReadHeadInv(q: Queue, q': Queue)
    requires Inv(q) && ReadHead(q, q')
    ensures Inv(q')
  {
    SlotOfCounter(q, q.popped);
    HeldAlike(q, q');
    hide UsedHeld, Tickets;
  }

  lemma CommitPopInv(q: Queue, q': Queue)
    requires Inv(q) && CommitPop(q, q')
    ensures Inv(q')
  {
    WrappingIncrement(q.popped, U16_LIMIT);
    assert q.popped !in q.inFlight;
    assert forall k :: q.reclaimed <= k < |q.completed| ==> Entry(q, k, q.completed[k]);
  }

  lemma SomethingInFlight(q: Queue, c: Completion)
    requires Inv(q) && Completing(q, c)
    ensures |q.completed| < q.popped
  {
    assert |q.inFlight - {c.ticket}| == |q.inFlight| - 1;
  }

  /** Writing the next used slot leaves every unreclaimed used entry alone. */
  lemma NextSlotIsFree(q: Queue, c: Completion, k: nat)
    requires Inv(q) && Completing(q, c) && q.reclaimed <= k < |q.completed|
    ensures k % q.size != |q.completed| % q.size
  {
    SomethingInFlight(q, c);
    SlotsDistinct(k, |q.completed|, q.size);
  }

  lemma StoreInv(q: Queue, q': Queue)
    requires Inv(q) && (StoreId(q, q') || StoreLength(q, q'))
    ensures Inv(q')
  {
    SlotOfCounter(q, |q.completed|);
    forall k | q.reclaimed <= k < |q.completed| ensures Entry(q', k, q.completed[k]) {
      assert Entry(q, k, q.completed[k]);
      NextSlotIsFree(q, q.device.c, k);
    }
  }

  lemma BumpInv(q: Queue, q': Queue)
    requires Inv(q) && Bump(q, q')
    ensures Inv(q')
  {
    WrappingIncrement(|q.completed|, U16_LIMIT);
    HeldAlike(q, q');
    hide AvailHeld, UsedHeld, Tickets, Entry;
  }

  lemma StoreIndexInv(q: Queue, q': Queue)
    requires Inv(q) && StoreIndex(q, q')
    ensures Inv(q')
  {
    SomethingInFlight(q, q.device.c);
    forall k | q.reclaimed <= k < |q'.completed| ensures Entry(q', k, q'.completed[k]) {
      assert k < |q.completed| ==> Entry(q, k, q.completed[k]);
    }
  }

  lemma BeginOrFailInv(q: Queue, q': Queue)
    requires Inv(q) && (Fail(q, q') || exists c :: Begin(q, q', c))
    ensures Inv(q')
  {
    HeldAlike(q, q');
    hide AvailHeld, UsedHeld;
  }

  lemma DriverNextInv(q: Queue, q': Queue, l: Label)
    requires Inv(q) && DriverNext(q, q', l)
    ensures Inv(q')
  {
    if Publish(q, q') {
      PublishInv(q, q');
    } else if l.Reclaimed? {
      ReclaimInv(q, q', l.id, l.length);
    } else {
      var head :| WriteEntry(q, q', head);
      WriteEntryInv(q, q', head);
    }
  }

  lemma DeviceNextInv(q: Queue, q': Queue, l: Label)
    requires Inv(q) && DeviceNext(q, q', l)
    ensures Inv(q')
  {
    if Fail(q, q') || exists c :: Begin(q, q', c) {
      BeginOrFailInv(q, q');
    } else {
      match q.device
      case Ready => PeekInv(q, q', Decide(q.rings.availIndex, q.lastAvailable, q.size));
      case Reading => ReadHeadInv(q, q');
      case Walking(_) => CommitPopInv(q, q');
      case StoringId(_) => StoreInv(q, q');
      case StoringLength(_) => StoreInv(q, q');
      case Bumping(_) => BumpInv(q, q');
      case StoringIndex(_) => StoreIndexInv(q, q');
      case Dead =>
    }
  }

  lemma NextInv(q: Queue, q': Queue, l: Label)
    requires Inv(q) && Next(q, q', l)
    ensures Inv(q')
  {
    if DriverNext(q, q', l) {
      DriverNextInv(q, q', l);
    } else {
      DeviceNextInv(q, q', l);
    }
  }

  // -------------------------------------------------------------- refinement

  /** The specification: an unbounded queue with no wrap-around and no slots. */
  datatype Fifo = Fifo(published: seq<u16>, popped: nat, inFlight: set<nat>, completed: seq<Completion>, reclaimed: nat)

  function Abstract(q: Queue): Fifo {
    Fifo(q.published, q.popped, q.inFlight, q.completed, q.reclaimed)
  }

  ghost predicate FifoNext(f: Fifo, f': Fifo, l: Label) {
    match l
    case Internal => f' == f
    case Published(heads) => f' == f.(published := f.published + heads)
    case SawEmpty => f' == f && f.popped == |f.published|
    case SawOverrun => false
    case Popped(head) =>
      && f.popped < |f.published| && head == f.published[f.popped]
      && f' == f.(popped := f.popped + 1, inFlight := f.inFlight + {f.popped})
    case Finished(c) =>
      && c.ticket in f.inFlight && c.ticket < |f.published| && c.head == f.published[c.ticket]
      && (forall i :: 0 <= i < |f.completed| ==> f.completed[i].ticket != c.ticket)
      && f' == f.(inFlight := f.inFlight - {c.ticket}, completed := f.completed + [c])
    case Reclaimed(id, length) =>
      && f.reclaimed < |f.completed|
      && id == f.completed[f.reclaimed].head && length == f.completed[f.reclaimed].length
      && f' == f.(reclaimed := f.reclaimed + 1)
  }

  lemma DriverRefines(q: Queue, q': Queue, l: Label)
    requires Inv(q) && DriverNext(q, q', l)
    ensures FifoNext(Abstract(q), Abstract(q'), l)
  {
    if l.Reclaimed? {
      ReclaimInv(q, q', l.id, l.length);
    }
  }

  lemma DeviceRefines(q: Queue, q': Queue, l: Label)
    requires Inv(q) && DeviceNext(q, q', l)
    ensures FifoNext(Abstract(q), Abstract(q'), l)
  {
    hide Inv;
    if l.Internal? {
      assert Abstract(q') == Abstract(q);
    } else {
      hide FifoNext;
      if l.Popped? {
        PopRefines(q, q');
      } else if l.Finished? {
        FinishRefines(q, q');
      } else {
        LookRefines(q, q', l);
      }
    }
  }

  lemma PopRefines(q: Queue, q': Queue)
    requires Inv(q) && CommitPop(q, q')
    ensures FifoNext(Abstract(q), Abstract(q'), Popped(q.device.head))
  {
    hide AvailHeld, UsedHeld, Counters, Tickets, Entry;
  }

  lemma LookRefines(q: Queue, q': Queue, l: Label)
    requires Inv(q) && (l == SawEmpty || l == SawOverrun) && Peek(q, q', if l == SawEmpty then Empty else Overrun)
    ensures FifoNext(Abstract(q), Abstract(q'), l)
  {
    PeekExact(q);
    hide Inv, Decide;
  }

  lemma FinishRefines(q: Queue, q': Queue)
    requires Inv(q) && StoreIndex(q, q')
    ensures FifoNext(Abstract(q), Abstract(q'), Finished(q.device.c))
  {
    hide AvailHeld, UsedHeld, Counters, Entry;
  }

  /** Every step of the wrapping queue is a step of the unbounded FIFO with the same label. */
  lemma StepRefines(q: Queue, q': Queue, l: Label)
    requires Inv(q) && Next(q, q', l)
    ensures FifoNext(Abstract(q), Abstract(q'), l)
  {
    hide Inv, FifoNext;
    if DriverNext(q, q', l) {
      DriverRefines(q, q', l);
    } else {
      DeviceRefines(q, q', l);
    }
  }

  /** A run: `states[i]` steps to `states[i + 1]` with label `labels[i]`. */
  ghost predicate Run(states: seq<Queue>, labels: seq<Label>) {
    && |states| == |labels| + 1 && Init(states[0])
    && forall i :: 0 <= i < |labels| ==> Next(states[i], states[i + 1], labels[i])
  }

  lemma {:induction false} RunInv(states: seq<Queue>, labels: seq<Label>, i: nat)
    requires Run(states, labels) && i < |states|
    ensures Inv(states[i])
    decreases i
  {
    if i == 0 {
      InitInv(states[0]);
    } else {
      RunInv(states, labels, i - 1);
      NextInv(states[i - 1], states[i - 1 + 1], labels[i - 1]);
    }
  }

  /** A queue stands still or takes a step. */
  ghost predicate Follows(q: Queue, q': Queue) {
    q' == q || exists l :: Next(q, q', l)
  }

  /** A history of a queue that may also stand still. */
  ghost predicate History(history: seq<Queue>) {
    && history != [] && Init(history[0])
    && forall i :: 0 <= i < |history| - 1 ==> Follows(history[i], history[i + 1])
  }

  /** The same without the repetitions. */
  function Changes(history: seq<Queue>): (changes: seq<Queue>)
    requires history != []
    ensures changes != [] && changes[0] == history[0]
    ensures changes[|changes| - 1] == history[|history| - 1]
  {
    var n := |history|;
    if n == 1 then history
    else Changes(history[..n - 1]) + if history[n - 1] == history[n - 2] then [] else [history[n - 1]]
  }

  lemma HistoryFront(history: seq<Queue>)
    requires History(history) && |history| > 1
    ensures History(history[..|history| - 1]) && Follows(history[|history| - 2], history[|history| - 1])
  {
    var n := |history|;
    var front := history[..n - 1];
    assert Follows(history[n - 2], history[n - 2 + 1]);
    forall i | 0 <= i < |front| - 1 ensures Follows(front[i], front[i + 1]) {
      assert Follows(history[i], history[i + 1]);
    }
  }

  /** What happens to a queue, its stutters left out, is a run: all theorems about runs hold of it. */
  lemma {:induction false} HistoryRuns(history: seq<Queue>) returns (labels: seq<Label>)
    requires History(history)
    ensures Run(Changes(history), labels)
    decreases |history|
  {
    var n := |history|;
    if n == 1 {
      labels := [];
    } else {
      HistoryFront(history);
      hide Next, Init, History;
      labels := HistoryRuns(history[..n - 1]);
      if history[n - 1] != history[n - 2] {
        var l :| Next(history[n - 2], history[n - 1], l);
        ExtendRun(Changes(history[..n - 1]), labels, history[n - 1], l);
        labels := labels + [l];
      }
    }
  }

  lemma ExtendRun(queues: seq<Queue>, labels: seq<Label>, next: Queue, l: Label)
    requires Run(queues, labels) && Next(queues[|queues| - 1], next, l)
    ensures Run(queues + [next], labels + [l])
  {
    hide Next, Init;
    var queues', labels' := queues + [next], labels + [l];
    forall k | 0 <= k < |labels'| ensures Next(queues'[k], queues'[k + 1], labels'[k]) {
      assert k < |labels| ==> Next(queues[k], queues[k + 1], labels[k]);
    }
  }

  /**
   Every interleaving of driver and device refines the unbounded FIFO; what the
   driver has not reclaimed is intact in the used ring at every single step.
   */
  lemma RunRefines(states: seq<Queue>, labels: seq<Label>)
    requires Run(states, labels)
    ensures Abstract(states[0]) == Fifo([], 0, {}, [], 0)
    ensures forall i :: 0 <= i < |labels| ==>
      FifoNext(Abstract(states[i]), Abstract(states[i + 1]), labels[i])
    ensures forall i :: 0 <= i < |states| ==> Shape(states[i]) && UsedHeld(states[i])
  {
    forall i | 0 <= i < |states| ensures Inv(states[i]) {
      RunInv(states, labels, i);
    }
    forall i | 0 <= i < |labels|
      ensures FifoNext(Abstract(states[i]), Abstract(states[i + 1]), labels[i])
    {
      StepRefines(states[i], states[i + 1], labels[i]);
    }
  }

  // ------------------------------------------------------------ label traces

  /** The heads popped, and the entries reclaimed, along a run. */
  function PoppedHeads(labels: seq<Label>): seq<u16> {
    if labels == [] then []
    else
      var l := labels[|labels| - 1];
      PoppedHeads(labels[..|labels| - 1]) + if l.Popped? then [l.head] else []
  }

  function PublishedHeads(labels: seq<Label>): seq<u16> {
    if labels == [] then []
    else
      var l := labels[|labels| - 1];
      PublishedHeads(labels[..|labels| - 1]) + if l.Published? then l.heads else []
  }

  /** What the driver sees come back, as (id, length) pairs. */
  function ReclaimedEntries(labels: seq<Label>): seq<(u32, u32)> {
    if labels == [] then []
    else
      var l := labels[|labels| - 1];
      ReclaimedEntries(labels[..|labels| - 1]) + if l.Reclaimed? then [(l.id, l.length)] else []
  }

  function FinishedEntries(labels: seq<Label>): seq<(u32, u32)> {
    if labels == [] then []
    else
      var l := labels[|labels| - 1];
      FinishedEntries(labels[..|labels| - 1]) + if l.Finished? then [(l.c.head, l.c.length)] else []
  }

  ghost predicate TraceOf(q: Queue, labels: seq<Label>) {
    && PublishedHeads(labels) == q.published
    && |PoppedHeads(labels)| == q.popped <= |q.published| && PoppedHeads(labels) == q.published[..q.popped]
    && |FinishedEntries(labels)| == |q.completed|
    && (forall i :: 0 <= i < |q.completed| ==>
        FinishedEntries(labels)[i] == (q.completed[i].head, q.completed[i].length))
    && |ReclaimedEntries(labels)| == q.reclaimed <= |q.completed|
    && ReclaimedEntries(labels) == FinishedEntries(labels)[..q.reclaimed]
  }

  lemma {:induction false} RunTrace(states: seq<Queue>, labels: seq<Label>, n: nat)
    requires Run(states, labels) && n < |states|
    ensures n <= |labels| && TraceOf(states[n], labels[..n])
    decreases n
  {
    hide Run, FifoNext, TraceOf;
    RunStep(states, labels, n);
    if n == 0 {
      NoTrace(states[0], labels[..0]);
    } else {
      RunTrace(states, labels, n - 1);
      assert labels[..n][..n - 1] == labels[..n - 1];
      TraceStep(states[n - 1], states[n], labels[..n]);
    }
  }

  lemma RunStep(states: seq<Queue>, labels: seq<Label>, n: nat)
    requires Run(states, labels) && n < |states|
    ensures |states| == |labels| + 1 && Init(states[0])
    ensures n > 0 ==> FifoNext(Abstract(states[n - 1]), Abstract(states[n]), labels[n - 1])
  {
    hide FifoNext, Inv;
    if n > 0 {
      RunInv(states, labels, n - 1);
      assert Next(states[n - 1], states[n - 1 + 1], labels[n - 1]);
      StepRefines(states[n - 1], states[n], labels[n - 1]);
    }
  }

  lemma NoTrace(q: Queue, labels: seq<Label>)
    requires Init(q) && labels == []
    ensures TraceOf(q, labels)
  {
  }

  lemma TraceStep(q: Queue, q': Queue, labels: seq<Label>)
    requires labels != [] && TraceOf(q, labels[..|labels| - 1])
    requires FifoNext(Abstract(q), Abstract(q'), labels[|labels| - 1])
    ensures TraceOf(q', labels)
  {
    var front, l := labels[..|labels| - 1], labels[|labels| - 1];
    if l.Popped? {
      assert q.published[..q.popped + 1] == q.published[..q.popped] + [q.published[q.popped]];
    } else if l.Reclaimed? {
      var f := FinishedEntries(front);
      assert f[..q.reclaimed + 1] == f[..q.reclaimed] + [f[q.reclaimed]];
    } else if l.Published? {
      assert (q.published + l.heads)[..q.popped] == q.published[..q.popped];
    } else if l.Finished? {
      var f := FinishedEntries(front);
      assert (f + [(l.c.head as u32, l.c.length)])[..q.reclaimed] == f[..q.reclaimed];
    }
  }

  /**
   In any run the k-th pop returns the k-th published head, and the k-th entry
   the driver reclaims is the k-th the device finished, head and length.
   */
  lemma PopsAndReclaimsInOrder(states: seq<Queue>, labels: seq<Label>)
    requires Run(states, labels)
    ensures PoppedHeads(labels) <= PublishedHeads(labels)
    ensures ReclaimedEntries(labels) <= FinishedEntries(labels)
    ensures SawOverrun !in labels
  {
    RunTrace(states, labels, |labels|);
    assert labels[..|labels|] == labels;
    assert TraceOf(states[|labels|], labels);
    forall i | 0 <= i < |labels| ensures labels[i] != SawOverrun {
      RunInv(states, labels, i);
      StepRefines(states[i], states[i + 1], labels[i]);
    }
  }
}
