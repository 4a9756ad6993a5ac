/**
 The virtio-net run loop (src/network.rs:127-240) as a machine of atomic steps:
 any number of threads in `kick` and `stop`, a driver that publishes, a backend
 that receives frames, and the one runner. A `Notify` holds at most one permit;
 `notify_waiters` reaches every `Notified` already created.
 */
module NetworkLoop {
  import opened Primitives

  type Frame = seq<byte>

  const HEADER_SIZE := 12

  /** Where the runner is. In `Holding` it has taken a frame and not yet completed the chain for it. */
  datatype Pc =
    | Create | CheckDown | Poll | Parked | Recheck | Swap
    | Control | Transmit(pair: nat)
    | Receive | Popped(queue: nat) | Holding(queue: nat)
    | Drain | Returned | Failed

  /** `signalled`: a `notify_waiters` since the runner's `Notified` was created. `kickers` and
      `stoppers` count the threads between their store and their notify. */
  datatype Signals = Signals(kicked: bool, down: bool, permit: bool, signalled: bool, kickers: nat, stoppers: nat)

  /** Published and not yet popped, per queue; `owed`: published since the last `kicked` store. */
  datatype Rings = Rings(waiting: seq<nat>, owed: set<nat>)

  datatype Delivery = Delivery(queue: nat, bytes: seq<byte>)

  datatype Frames = Frames(arrived: seq<Frame>, backend: seq<Frame>, hand: seq<Frame>, delivered: seq<Delivery>)

  datatype State = State(maximum: nat, active: nat, next: nat, pc: Pc, signals: Signals, rings: Rings, frames: Frames)

  // ------------------------------------------------------------ queue numbers

  function RxQueue(pair: nat): nat { pair * 2 }

  function TxQueue(pair: nat): nat { pair * 2 + 1 }

  function ControlQueue(pairs: nat): nat { pairs * 2 }

  /** `maximum_queue_pairs` on a device with `queues` queues. */
  function MaximumPairs(queues: nat): nat
    requires queues > 0
  {
    (queues - 1) / 2
  }

  /** The queue count the device asks for gives back its pairs, and no two roles share a queue. */
  lemma QueueNumbers(pairs: nat, p: nat, q: nat)
    requires p < pairs && q < pairs
    ensures var queues := pairs * 2 + 1;
      && MaximumPairs(queues) == pairs
      && RxQueue(p) == 2 * p && TxQueue(p) == 2 * p + 1 && ControlQueue(pairs) == 2 * pairs
      && RxQueue(p) < queues && TxQueue(p) < queues && ControlQueue(MaximumPairs(queues)) < queues
      && RxQueue(p) != TxQueue(q)
      && RxQueue(p) != ControlQueue(pairs) && TxQueue(q) != ControlQueue(pairs)
      && (RxQueue(p) == RxQueue(q) <==> p == q) && (TxQueue(p) == TxQueue(q) <==> p == q)
  {
    assert RxQueue(p) % 2 == 0 && TxQueue(q) % 2 == 1;
  }

  /** The pairs in use after a request for `pairs`, and whether it is granted. */
  function SetPairs(active: nat, maximum: nat, pairs: nat): (r: (nat, bool))
    ensures r.1 <==> 1 <= pairs <= maximum
    ensures r.0 == if r.1 then pairs else active
  {
    if pairs == 0 || pairs > maximum then (active, false) else (pairs, true)
  }

  function RxBytes(frame: Frame): seq<byte> {
    seq(HEADER_SIZE, i => 0) + frame
  }

  // ------------------------------------------------------------------- steps

  ghost predicate Init(s: State) {
    && s.maximum >= 1 && s.active == 1 && s.next == 0 && s.pc == Create
    && s.signals == Signals(false, false, false, false, 0, 0)
    && |s.rings.waiting| == ControlQueue(s.maximum) + 1
    && (forall q :: 0 <= q < |s.rings.waiting| ==> s.rings.waiting[q] == 0) && s.rings.owed == {}
    && s.frames == Frames([], [], [], [])
  }

  function Took(rings: Rings, q: nat): Rings
    requires q < |rings.waiting| && rings.waiting[q] > 0
  {
    rings.(waiting := rings.waiting[q := rings.waiting[q] - 1])
  }

  /** `notify_one`: wakes the parked runner, else stores the permit. */
  function NotifyOne(s: State): State {
    if s.pc == Parked then s.(pc := Recheck) else s.(signals := s.signals.(permit := true))
  }

  function NotifyWaiters(s: State): State {
    if s.pc == Parked then s.(pc := Recheck) else s.(signals := s.signals.(signalled := true))
  }

  ghost predicate Outside(s: State, t: State) {
    || (exists q :: 0 <= q < |s.rings.waiting| && t == s.(rings := Published(s.rings, q)))
    || t == s.(signals := s.signals.(kicked := true, kickers := s.signals.kickers + 1),
               rings := s.rings.(owed := {}))
    || (s.signals.kickers > 0 && t == NotifyOne(s.(signals := s.signals.(kickers := s.signals.kickers - 1))))
    || t == s.(signals := s.signals.(down := true, stoppers := s.signals.stoppers + 1))
    || (s.signals.stoppers > 0
        && t == NotifyWaiters(s.(signals := s.signals.(stoppers := s.signals.stoppers - 1))))
    || (exists f :: t == s.(frames := Arrived(s.frames, f)))
  }

  function Published(rings: Rings, q: nat): Rings
    requires q < |rings.waiting|
  {
    Rings(rings.waiting[q := rings.waiting[q] + 1], rings.owed + {q})
  }

  function Arrived(frames: Frames, f: Frame): Frames {
    frames.(arrived := frames.arrived + [f], backend := frames.backend + [f])
  }

  /** From the top of the loop to the `kicked` swap. */
  ghost predicate Waiting(s: State, t: State) {
    match s.pc
    case Create => t == s.(pc := CheckDown, signals := s.signals.(signalled := false))
    case CheckDown => t == s.(pc := if s.signals.down then Drain else Poll)
    case Poll =>
      if s.signals.permit then t == s.(pc := Recheck, signals := s.signals.(permit := false))
      else if s.signals.signalled then t == s.(pc := Recheck)
      else t == s.(pc := Parked)
    case Recheck => t == s.(pc := if s.signals.down then Drain else Swap)
    case Swap => t == s.(pc := if s.signals.kicked then Control else Create, signals := s.signals.(kicked := false))
    case Drain => t == s.(pc := Returned)
    case _ => false
  }

  /** Any step of a pass may fail, and the run with it. */
  ghost predicate Failing(s: State, t: State) {
    && (s.pc == Control || s.pc.Transmit? || s.pc == Receive || s.pc.Popped? || s.pc.Holding?)
    && t == s.(pc := Failed)
  }

  /** `process_control` and `process_tx` */
  ghost predicate Serving(s: State, t: State) {
    match s.pc
    case Control =>
      var q := ControlQueue(s.maximum);
      && q < |s.rings.waiting|
      && if s.rings.waiting[q] == 0 then t == s.(pc := Transmit(0))
         else exists pairs ::
           t == s.(rings := Took(s.rings, q), active := SetPairs(s.active, s.maximum, pairs).0)
    case Transmit(pair) =>
      if pair >= s.active then t == s.(pc := Receive)
      else
        var q := TxQueue(pair);
        && q < |s.rings.waiting|
        && t == if s.rings.waiting[q] == 0 then s.(pc := Transmit(pair + 1)) else s.(rings := Took(s.rings, q))
    case _ => false
  }

  /** `process_rx` */
  ghost predicate Receiving(s: State, t: State) {
    match s.pc
    case Receive =>
      if s.frames.backend == [] then t == s.(pc := Create)
      else
        && s.active > 0
        && var q := RxQueue(s.next % s.active); var next := (s.next + 1) % U64_LIMIT;
        && q < |s.rings.waiting|
        && t == if s.rings.waiting[q] == 0 then s.(pc := Create, next := next)
                else s.(pc := Popped(q), next := next, rings := Took(s.rings, q))
    case Popped(q) =>
      && s.frames.backend != []
      && t == s.(pc := Holding(q),
                 frames := s.frames.(hand := [s.frames.backend[0]], backend := s.frames.backend[1..]))
    case Holding(q) =>
      && s.frames.hand != []
      && t == s.(pc := Receive, frames := Delivered(s.frames, q))
    case _ => false
  }

  function Delivered(frames: Frames, q: nat): Frames
    requires frames.hand != []
  {
    frames.(hand := [], delivered := frames.delivered + [Delivery(q, RxBytes(frames.hand[0]))])
  }

  ghost predicate Next(s: State, t: State) {
    Outside(s, t) || Waiting(s, t) || Serving(s, t) || Receiving(s, t) || Failing(s, t)
  }

  ghost predicate IsRun(run: seq<State>) {
    run != [] && Init(run[0]) && forall i :: 0 <= i < |run| - 1 ==> Next(run[i], run[i + 1])
  }

  // --------------------------------------------------------------- invariants

  predicate Ended(pc: Pc) {
    pc == Drain || pc == Returned || pc == Failed
  }

  /** The pairs in use stay between one and the maximum, so every queue number is one of the device's. */
  ghost predicate Shaped(s: State) {
    && 1 <= s.active <= s.maximum && s.next < U64_LIMIT
    && |s.rings.waiting| == ControlQueue(s.maximum) + 1
    && (s.pc.Transmit? ==> s.pc.pair <= s.active)
    && (s.pc.Popped? || s.pc.Holding? ==> IsRx(s, s.pc.queue))
    && (forall i :: 0 <= i < |s.frames.delivered| ==> IsRx(s, s.frames.delivered[i].queue))
  }

  ghost predicate IsRx(s: State, q: nat) {
    q % 2 == 0 && q < ControlQueue(s.maximum)
  }

  /** A raised flag has a permit, a notify still to come, or a runner on its way to the swap. */
  ghost predicate FlagSeen(s: State) {
    s.signals.kicked ==>
      s.signals.permit || s.signals.kickers > 0 || s.pc == Recheck || s.pc == Swap || Ended(s.pc)
  }

  /** Past its first look at `down`, the runner still gets a signal. */
  ghost predicate StopSeen(s: State) {
    s.signals.down ==>
      && (s.pc == Poll ==> s.signals.stoppers > 0 || s.signals.signalled)
      && (s.pc == Parked ==> s.signals.stoppers > 0)
  }

  /** The queues a pass drains: control, and transmit of every pair in use. */
  ghost predicate Served(s: State, q: nat) {
    q == ControlQueue(s.maximum) || (q % 2 == 1 && q < 2 * s.active)
  }

  /** The pass under way still comes to `q`. */
  ghost predicate Ahead(s: State, q: nat) {
    s.pc == Control || (s.pc.Transmit? && q % 2 == 1 && q >= TxQueue(s.pc.pair))
  }

  /** What waits in a served queue is heard of. */
  ghost predicate HeardIfWaiting(s: State, q: nat) {
    q < |s.rings.waiting| && s.rings.waiting[q] > 0 && Served(s, q) ==> Heard(s, q)
  }

  ghost predicate Doorbells(s: State) {
    forall q: nat :: HeardIfWaiting(s, q)
  }

  ghost predicate Heard(s: State, q: nat) {
    q in s.rings.owed || s.signals.kicked || Ahead(s, q) || Ended(s.pc)
  }

  function Payloads(delivered: seq<Delivery>): seq<Frame>
    requires forall i :: 0 <= i < |delivered| ==> |delivered[i].bytes| >= HEADER_SIZE
  {
    seq(|delivered|, i requires 0 <= i < |delivered| => delivered[i].bytes[HEADER_SIZE..])
  }

  /** Every frame that arrived was delivered whole, is in hand, or waits, in order of arrival. */
  ghost predicate Conserved(f: Frames, pc: Pc) {
    && (forall i :: 0 <= i < |f.delivered| ==>
         |f.delivered[i].bytes| >= HEADER_SIZE
         && f.delivered[i].bytes == RxBytes(f.delivered[i].bytes[HEADER_SIZE..]))
    && f.arrived == Payloads(f.delivered) + f.hand + f.backend
    && |f.hand| <= 1 && (f.hand != [] ==> pc.Holding? || pc == Failed)
  }

  ghost predicate Inv(s: State) {
    Shaped(s) && FlagSeen(s) && StopSeen(s) && Doorbells(s) && Conserved(s.frames, s.pc)
  }

  lemma InitInv(s: State)
    requires Init(s)
    ensures Inv(s)
  {
    assert Payloads([]) == [];
  }

  lemma ShapedOutside(s: State, t: State)
    requires Shaped(s) && (Outside(s, t) || Waiting(s, t) || Failing(s, t))
    ensures Shaped(t)
  {
  }

  lemma ShapedServing(s: State, t: State)
    requires Shaped(s) && Serving(s, t)
    ensures Shaped(t)
  {
  }

  lemma ShapedReceiving(s: State, t: State)
    requires Shaped(s) && Receiving(s, t)
    ensures Shaped(t)
  {
    var pair := s.next % s.active;
    assert RxQueue(pair) < ControlQueue(s.maximum) && RxQueue(pair) % 2 == 0;
  }

  lemma SignalsOutside(s: State, t: State)
    requires FlagSeen(s) && StopSeen(s) && Outside(s, t)
    ensures FlagSeen(t) && StopSeen(t)
  {
  }

  lemma SignalsRunner(s: State, t: State)
    requires FlagSeen(s) && StopSeen(s) && (Waiting(s, t) || Serving(s, t) || Receiving(s, t) || Failing(s, t))
    ensures FlagSeen(t) && StopSeen(t)
  {
  }

  lemma DoorbellsOutside(s: State, t: State, q: nat)
    requires Shaped(s) && HeardIfWaiting(s, q) && Outside(s, t)
    ensures HeardIfWaiting(t, q)
  {
  }

  lemma DoorbellsWaiting(s: State, t: State, q: nat)
    requires Shaped(s) && HeardIfWaiting(s, q) && Waiting(s, t)
    ensures HeardIfWaiting(t, q)
  {
  }

  lemma DoorbellsServing(s: State, t: State, q: nat)
    requires Shaped(s) && HeardIfWaiting(s, q) && Serving(s, t)
    ensures HeardIfWaiting(t, q)
  {
    if s.pc.Transmit? {
      assert q % 2 == 1 && q != TxQueue(s.pc.pair) && q >= TxQueue(s.pc.pair) ==> q >= TxQueue(s.pc.pair + 1);
    }
  }

  lemma DoorbellsReceiving(s: State, t: State, q: nat)
    requires Shaped(s) && HeardIfWaiting(s, q) && Receiving(s, t)
    ensures HeardIfWaiting(t, q)
  {
    assert Served(t, q) <==> Served(s, q);
    assert q < |t.rings.waiting| ==> q < |s.rings.waiting| && t.rings.waiting[q] <= s.rings.waiting[q];
  }

  lemma DoorbellsKept(s: State, t: State)
    requires Shaped(s) && Doorbells(s) && Next(s, t)
    ensures Doorbells(t)
  {
    forall q: nat ensures HeardIfWaiting(t, q) {
      assert HeardIfWaiting(s, q);
      if Outside(s, t) {
        DoorbellsOutside(s, t, q);
      } else if Waiting(s, t) {
        DoorbellsWaiting(s, t, q);
      } else if Serving(s, t) {
        DoorbellsServing(s, t, q);
      } else if Receiving(s, t) {
        DoorbellsReceiving(s, t, q);
      }
    }
  }

  lemma DeliveredConserved(f: Frames, q: nat, pc: Pc)
    requires Conserved(f, pc) && f.hand != []
    ensures Conserved(Delivered(f, q), Receive)
  {
    var g := Delivered(f, q);
    assert RxBytes(f.hand[0])[HEADER_SIZE..] == f.hand[0];
    assert Payloads(g.delivered) == Payloads(f.delivered) + f.hand;
  }

  lemma ConservedKept(s: State, t: State)
    requires Conserved(s.frames, s.pc) && Next(s, t)
    ensures Conserved(t.frames, t.pc)
  {
    if s.pc.Holding? && t.pc == Receive {
      DeliveredConserved(s.frames, s.pc.queue, s.pc);
    }
  }

  lemma NextInv(s: State, t: State)
    requires Inv(s) && Next(s, t)
    ensures Inv(t)
  {
    if Serving(s, t) {
      ShapedServing(s, t);
    } else if Receiving(s, t) {
      ShapedReceiving(s, t);
    } else {
      ShapedOutside(s, t);
    }
    if Outside(s, t) {
      SignalsOutside(s, t);
    } else {
      SignalsRunner(s, t);
    }
    DoorbellsKept(s, t);
    ConservedKept(s, t);
  }

  lemma {:induction false} RunInv(run: seq<State>, i: nat)
    requires IsRun(run) && i < |run|
    ensures Inv(run[i])
    decreases i
  {
    if i == 0 {
      InitInv(run[0]);
    } else {
      RunInv(run, i - 1);
      assert Next(run[i - 1], run[i - 1 + 1]);
      NextInv(run[i - 1], run[i]);
    }
  }

  // ----------------------------------------------------------------- theorems

  /** Parked, with no permit and no notify on its way. */
  ghost predicate Asleep(s: State) {
    s.pc == Parked && !s.signals.permit && s.signals.kickers == 0
  }

  /** While the runner sleeps, what waits in a served queue was published by a driver that has yet to kick. */
  lemma NoLostDoorbell(run: seq<State>, i: nat, q: nat)
    requires IsRun(run) && i < |run| && Asleep(run[i])
    requires q < |run[i].rings.waiting| && Served(run[i], q) && run[i].rings.waiting[q] > 0
    ensures !run[i].signals.kicked && q in run[i].rings.owed
  {
    RunInv(run, i);
    assert HeardIfWaiting(run[i], q);
  }

  /** The runner is not parked on a device that is down, unless a stop has yet to notify it. */
  lemma NoLostStop(run: seq<State>, i: nat)
    requires IsRun(run) && i < |run| && run[i].pc == Parked && run[i].signals.stoppers == 0
    ensures !run[i].signals.down
  {
    RunInv(run, i);
  }

  /** Outside a pass: the next look at `down` comes before any queue. */
  predicate Between(pc: Pc) {
    pc == Create || pc == CheckDown || pc == Poll || pc == Parked || pc == Recheck || Ended(pc)
  }

  /** Nothing was taken or delivered: queues and frames only grew, the pairs in use are the same. */
  ghost predicate Untouched(s: State, t: State) {
    && t.active == s.active && t.frames.delivered == s.frames.delivered && t.frames.hand == s.frames.hand
    && |t.rings.waiting| == |s.rings.waiting|
    && (forall q :: 0 <= q < |s.rings.waiting| ==> s.rings.waiting[q] <= t.rings.waiting[q])
  }

  lemma OutsideBetween(s: State, t: State)
    requires s.signals.down && Between(s.pc) && Outside(s, t)
    ensures t.signals.down && Between(t.pc) && Untouched(s, t)
  {
    if q :| 0 <= q < |s.rings.waiting| && t == s.(rings := Published(s.rings, q)) {
      assert t.rings.waiting == s.rings.waiting[q := s.rings.waiting[q] + 1];
    } else {
      assert t.rings.waiting == s.rings.waiting;
    }
  }

  lemma WaitingBetween(s: State, t: State)
    requires s.signals.down && Between(s.pc) && Waiting(s, t)
    ensures t.signals.down && Between(t.pc) && Untouched(s, t)
  {
  }

  lemma StaysBetween(s: State, t: State)
    requires s.signals.down && Between(s.pc) && Next(s, t)
    ensures t.signals.down && Between(t.pc) && Untouched(s, t)
  {
    assert Outside(s, t) || Waiting(s, t);
    hide Untouched, Outside, Waiting, Serving, Receiving, Failing;
    if Outside(s, t) {
      OutsideBetween(s, t);
    } else {
      WaitingBetween(s, t);
    }
  }

  /** A runner that is down and outside a pass never starts another: it serves no queue for ever after. */
  lemma {:induction false} ComesToRest(run: seq<State>, i: nat, j: nat)
    requires IsRun(run) && i <= j < |run| && run[i].signals.down && Between(run[i].pc)
    ensures run[j].signals.down && Between(run[j].pc) && Untouched(run[i], run[j])
    decreases j
  {
    hide Next, Init, Between;
    if i < j {
      ComesToRest(run, i, j - 1);
      assert Next(run[j - 1], run[j - 1 + 1]);
      StaysBetween(run[j - 1], run[j]);
    }
  }

  /**
   Frames leave in order, each exactly once and whole behind a zero header, into a
   chain of a receive queue of the device; only a failed run loses one, and only
   the one it was writing.
   */
  lemma FramesConserved(run: seq<State>, i: nat)
    requires IsRun(run) && i < |run|
    ensures var f := run[i].frames;
      && (forall k :: 0 <= k < |f.delivered| ==>
           && k < |f.arrived| && f.delivered[k].bytes == RxBytes(f.arrived[k])
           && f.delivered[k].queue % 2 == 0 && f.delivered[k].queue < ControlQueue(run[i].maximum))
      && |f.delivered| <= |f.arrived| && f.arrived[|f.delivered|..] == f.hand + f.backend
      && (!run[i].pc.Holding? && run[i].pc != Failed ==> f.hand == []) && |f.hand| <= 1
  {
    RunInv(run, i);
    var f := run[i].frames;
    var out := Payloads(f.delivered);
    assert |out| == |f.delivered| && f.arrived == out + (f.hand + f.backend);
    forall k | 0 <= k < |f.delivered|
      ensures k < |f.arrived| && f.delivered[k].bytes == RxBytes(f.arrived[k])
      ensures f.delivered[k].queue % 2 == 0 && f.delivered[k].queue < ControlQueue(run[i].maximum)
    {
      assert f.arrived[k] == out[k] == f.delivered[k].bytes[HEADER_SIZE..];
      assert IsRx(run[i], f.delivered[k].queue);
    }
  }

  /** Every index the loop computes names a queue of the device. */
  lemma IndicesValid(run: seq<State>, i: nat, pair: nat)
    requires IsRun(run) && i < |run| && pair < run[i].active
    ensures var s := run[i]; var queues := |s.rings.waiting|;
      && queues > 0 && 1 <= s.active <= s.maximum == MaximumPairs(queues)
      && RxQueue(s.next % s.active) < queues && TxQueue(pair) < queues && ControlQueue(s.maximum) < queues
  {
    RunInv(run, i);
  }
}
