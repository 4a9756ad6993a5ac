/** What the device loop guarantees over every run, whatever drivers, workers and `stop` do. */
module DeviceLoopTheorems {
  import opened Primitives
  import opened RoundRobin
  import opened DeviceLoop
  import opened DeviceLoopInvariant
  import Q = QueueProtocol

  ghost predicate Inv(s: State) {
    QueuesSound(s) && Staged(s) && Accounted(s) && Flags(s) && Ordered(s) && Doorbell(s) && StopSeen(s)
  }

  lemma InitInv(s: State)
    requires Init(s)
    ensures Inv(s)
  {
    forall q | 0 <= q < |s.queues| ensures Q.Inv(s.queues[q]) {
      Q.InitInv(s.queues[q]);
    }
    assert s.ledger.Pending() == {};
  }

  lemma DriveInv(s: State, s': State, q: nat, next: Q.Queue, event: Q.Label)
    requires Inv(s) && DriveNext(s, s', q, next, event)
    ensures Inv(s')
  {
    DriveStaged(s, s', q, next, event);
    QueuesSoundKept(s, s');
    DriveAccounted(s, s', q, next, event);
    DriveOrdered(s, s', q, next, event);
    DriveDoorbell(s, s', q, next, event);
  }

  lemma OutsideInv(s: State, s': State, step: Outside)
    requires Inv(s) && OutsideNext(s, s', step)
    ensures Inv(s')
  {
    OutsideStaged(s, s', step);
    OutsideAccounted(s, s', step);
    OutsideFlags(s, s', step);
    OutsideOrdered(s, s', step);
    OutsideDoorbell(s, s', step);
    StopKept(s, s', Outer(step));
  }

  lemma ParkInv(s: State, s': State, step: Park)
    requires Inv(s) && ParkNext(s, s', step)
    ensures Inv(s')
  {
    ParkStaged(s, s', step);
    ParkAccounted(s, s', step);
    ParkFlags(s, s', step);
    ParkOrdered(s, s', step);
    ParkDoorbell(s, s', step);
    StopKept(s, s', Parks(step));
  }

  lemma ScanInv(s: State, s': State, step: Scan)
    requires Inv(s) && ScanNext(s, s', step)
    ensures Inv(s')
  {
    ScanStaged(s, s', step);
    QueuesSoundKept(s, s');
    ScanAccounted(s, s', step);
    ScanFlags(s, s', step);
    ScanOrdered(s, s', step);
    ScanDoorbell(s, s', step);
    StopKept(s, s', Scans(step));
  }

  lemma PopInv(s: State, s': State, step: Pop)
    requires Inv(s) && PopNext(s, s', step)
    ensures Inv(s')
  {
    PopStaged(s, s', step);
    QueuesSoundKept(s, s');
    PopAccounted(s, s', step);
    PopFlags(s, s', step);
    PopOrdered(s, s', step);
    PopDoorbell(s, s', step);
    StopKept(s, s', Pops(step));
  }

  lemma SelectInv(s: State, s': State, step: Select)
    requires Inv(s) && SelectNext(s, s', step)
    ensures Inv(s')
  {
    assert s.pc.Finishing? ==> s.pc.work in s.ledger.place.Keys;
    SelectStaged(s, s', step);
    SelectAccounted(s, s', step);
    SelectFlags(s, s', step);
    SelectOrdered(s, s', step);
    SelectDoorbell(s, s', step);
    StopKept(s, s', Selects(step));
  }

  lemma CompleteInv(s: State, s': State, step: Complete)
    requires Inv(s) && CompleteNext(s, s', step)
    ensures Inv(s')
  {
    CompleteStaged(s, s', step);
    QueuesSoundKept(s, s');
    CompleteAccounted(s, s', step);
    CompleteFlags(s, s', step);
    CompleteOrdered(s, s', step);
    CompleteDoorbell(s, s', step);
    StopKept(s, s', Completes(step));
  }

  lemma NextInv(s: State, s': State, step: Step)
    requires Inv(s) && Next(s, s', step)
    ensures Inv(s')
  {
    match step
    case Drives(q, next, event) => DriveInv(s, s', q, next, event);
    case Outer(o) => OutsideInv(s, s', o);
    case Parks(p) => ParkInv(s, s', p);
    case Scans(c) => ScanInv(s, s', c);
    case Pops(d) => PopInv(s, s', d);
    case Selects(e) => SelectInv(s, s', e);
    case Completes(f) => CompleteInv(s, s', f);
  }

  ghost predicate Path(states: seq<State>, steps: seq<Step>) {
    && |states| == |steps| + 1
    && forall i :: 0 <= i < |steps| ==> Next(states[i], states[i + 1], steps[i])
  }

  ghost predicate Run(states: seq<State>, steps: seq<Step>) {
    Path(states, steps) && Init(states[0])
  }

  lemma RunLength(states: seq<State>, steps: seq<Step>)
    requires Run(states, steps)
    ensures |states| == |steps| + 1 && Path(states, steps)
  {
  }

  lemma PathStep(states: seq<State>, steps: seq<Step>, i: nat)
    requires Path(states, steps) && i < |states|
    ensures |states| == |steps| + 1
    ensures i > 0 ==> Next(states[i - 1], states[i], steps[i - 1])
  {
    assert i > 0 ==> Next(states[i - 1], states[i - 1 + 1], steps[i - 1]);
  }

  lemma {:induction false} RunInv(states: seq<State>, steps: seq<Step>, i: nat)
    requires Run(states, steps) && i < |states|
    ensures Inv(states[i])
    decreases i
  {
    if i == 0 {
      InitInv(states[0]);
    } else {
      RunInv(states, steps, i - 1);
      assert Next(states[i - 1], states[i - 1 + 1], steps[i - 1]);
      NextInv(states[i - 1], states[i], steps[i - 1]);
    }
  }

  // ------------------------------------------------------------ the guarantees

  /** Asleep, and nothing about to wake it but work in flight. */
  predicate Asleep(s: State) {
    !s.notice.permit && (s.pc == Idle(No) || s.pc == Waiting(No))
  }

  /** In `select!` with four requests per queue, or 64, in flight, or going down: a completion comes first. */
  predicate AwaitsCompletion(s: State) {
    && s.pc.Waiting? && s.ledger.Pending() != {}
    && (|s.ledger.Pending()| == 4 * |s.queues| || |s.ledger.Pending()| == 64 || s.notice.down)
  }

  /**
   No lost doorbell: while the loop sleeps after a fair scan, a queue with
   unpopped entries has a driver that published and has yet to kick, or the loop
   awaits a completion that it needs first.
   */
  lemma NoLostDoorbell(states: seq<State>, steps: seq<Step>, i: nat, q: nat)
    requires Run(states, steps) && i < |states|
    requires Asleep(states[i]) && q < |states[i].queues| && HasUnpopped(states[i].queues[q])
    ensures |states[i].queues| > 0
    ensures LastScanFair(states[i]) ==> q in states[i].notice.owed || AwaitsCompletion(states[i])
  {
    RunInv(states, steps, i);
    SleepingFullHasWork(states, steps, i);
    FourPerQueue(|states[i].queues|);
    assert LastScanFair(states[i]) ==> Covered(states[i], q);
  }

  /**
   No lost stop: asleep after `down`, a `stop` has yet to notify, or work is in
   flight whose end wakes the loop.
   */
  lemma NoLostStop(states: seq<State>, steps: seq<Step>, i: nat)
    requires Run(states, steps) && i < |states| && Asleep(states[i]) && states[i].notice.down
    ensures states[i].notice.stopping > 0 || (states[i].pc.Waiting? && states[i].ledger.Pending() != {})
    ensures states[i].pc.Idle? ==> states[i].notice.stopping > 0
  {
    RunInv(states, steps, i);
    SleepingFullHasWork(states, steps, i);
  }

  /** Asleep in `select!` with no room, something is in flight whose end wakes the loop. */
  lemma SleepingFullHasWork(states: seq<State>, steps: seq<Step>, i: nat)
    requires Run(states, steps) && i < |states|
    ensures states[i].pc.Waiting? ==> states[i].ledger.Pending() != {}
  {
    RunInv(states, steps, i);
  }

  // conservation

  ghost function Chains(s: State, q: nat): set<Work> {
    set w | w in s.ledger.place && w.queue == q
  }

  ghost function RunningOf(s: State, q: nat): set<Work> {
    set w | w in s.ledger.place && w.queue == q && s.ledger.place[w].Running?
  }

  ghost function HeldOf(s: State, q: nat): set<Work> {
    set w | w in s.ledger.place && w.queue == q && s.ledger.place[w].Held?
  }

  ghost function AbandonedOf(s: State, q: nat): set<Work> {
    set w | w in s.ledger.place && w.queue == q && s.ledger.place[w].Abandoned?
  }

  ghost function LostOf(s: State, q: nat): set<Work> {
    set w | w in s.ledger.place && w.queue == q && s.ledger.place[w].Lost?
  }

  lemma {:induction false} SameSize(tickets: set<nat>, chains: set<Work>, q: nat)
    requires forall w :: w in chains ==> w.queue == q
    requires forall t :: t in tickets <==> Work(q, t) in chains
    ensures |tickets| == |chains|
    decreases |tickets|
  {
    if tickets == {} {
      forall w ensures w !in chains {
        assert w in chains ==> w == Work(q, w.ticket) && w.ticket in tickets;
      }
      assert chains == {};
    } else {
      var t :| t in tickets;
      SameSize(tickets - {t}, chains - {Work(q, t)}, q);
    }
  }

  lemma PlacesPartition(s: State, q: nat)
    ensures |Chains(s, q)| == |RunningOf(s, q)| + |HeldOf(s, q)| + |AbandonedOf(s, q)| + |LostOf(s, q)|
  {
    var a, b, c, d := RunningOf(s, q), HeldOf(s, q), AbandonedOf(s, q), LostOf(s, q);
    assert Chains(s, q) == a + (b + (c + d));
    assert |c + d| == |c| + |d| by { assert c !! d; }
    assert |b + (c + d)| == |b| + |c + d| by { assert b !! c + d; }
    assert |a + (b + (c + d))| == |a| + |b + (c + d)| by { assert a !! b + (c + d); }
  }

  /**
   Conservation, per queue and at every step: every popped chain is completed,
   running, in the loop's hands, abandoned (only after `down`) or lost (only
   when `run` failed), and no chain is completed twice.
   */
  lemma Conservation(states: seq<State>, steps: seq<Step>, i: nat, q: nat)
    requires Run(states, steps) && i < |states| && q < |states[i].queues|
    ensures var s, queue := states[i], states[i].queues[q];
      && queue.popped == |queue.completed| + |RunningOf(s, q)| + |HeldOf(s, q)| + |AbandonedOf(s, q)| + |LostOf(s, q)|
      && (AbandonedOf(s, q) != {} ==> s.notice.down)
      && (LostOf(s, q) != {} ==> s.pc.ReturnedErr?)
      && |s.ledger.Pending()| <= 4 * |s.queues| && |s.ledger.Pending()| <= 64
      && (forall j, k :: 0 <= j < k < |queue.completed| ==> queue.completed[j].ticket != queue.completed[k].ticket)
  {
    RunInv(states, steps, i);
    var s, queue := states[i], states[i].queues[q];
    FourPerQueue(|s.queues|);
    assert Q.Inv(queue);
    SameSize(queue.inFlight, Chains(s, q), q);
    PlacesPartition(s, q);
  }

  /**
   `run` returns `Ok` only with nothing in flight, after a drain that saw no
   lease; and from that drain on no lease is ever held again, whatever happens,
   exactly if the memory was revoked by then.
   */
  lemma OkMeansDrained(states: seq<State>, steps: seq<Step>, i: nat) returns (j: nat)
    requires Run(states, steps) && i < |states| && states[i].pc == ReturnedOk
    ensures states[i].notice.down && states[i].ledger.Pending() == {}
    ensures forall w :: w in states[i].ledger.place ==> states[i].ledger.place[w].Abandoned?
    ensures j < i && SawNoLease(states[j], steps[j])
    ensures states[j].notice.revoked <==> LeaseFreeForever(states[j + 1])
    ensures states[j].notice.revoked ==> NoLease(states[i])
  {
    RunInv(states, steps, i);
    ReturnedOkState(states[i]);
    j := DrainFound(states, steps, i);
    assert Next(states[j], states[j + 1], steps[j]);
    OkFinalIffRevoked(states[j], states[j + 1]);
    if states[j].notice.revoked {
      PathTail(states, steps, j + 1);
      assert NoLease(states[j + 1..][i - (j + 1)]);
    }
  }

  lemma PathTail(states: seq<State>, steps: seq<Step>, j: nat)
    requires Path(states, steps) && j < |states|
    ensures Path(states[j..], steps[j..])
  {
    forall k | 0 <= k < |steps[j..]| ensures Next(states[j..][k], states[j..][k + 1], steps[j..][k]) {
      assert Next(states[j + k], states[j + k + 1], steps[j + k]);
    }
  }

  ghost predicate NoLease(s: State) {
    s.otherLeases == 0 && Holding(s.ledger) == {}
  }

  /** No lease is held at any state of any continuation. */
  ghost predicate LeaseFreeForever(s: State) {
    forall states, steps, k ::
      Path(states, steps) && states[0] == s && 0 <= k < |states| ==> NoLease(states[k])
  }

  /** Revoked and without a lease, a returned loop stays so. */
  ghost predicate Closed(s: State) {
    s.pc == ReturnedOk && s.notice.revoked && NoLease(s)
  }

  lemma ClosedKept(s: State, s': State, step: Step)
    requires Closed(s) && Next(s, s', step)
    ensures Closed(s')
  {
    hide Q.DriverNext;
    if step.Outer? && step.o.Worker? {
      assert step.o.w !in Holding(s.ledger);
    }
  }

  lemma {:induction false} ClosedForever(states: seq<State>, steps: seq<Step>, k: nat)
    requires Path(states, steps) && Closed(states[0]) && k < |states|
    ensures Closed(states[k])
    decreases k
  {
    if k > 0 {
      ClosedForever(states, steps, k - 1);
      assert Next(states[k - 1], states[k - 1 + 1], steps[k - 1]);
      ClosedKept(states[k - 1], states[k], steps[k - 1]);
    }
  }

  lemma OkFinalIffRevoked(s: State, s': State)
    requires Next(s, s', Selects(Drain))
    ensures s.notice.revoked <==> LeaseFreeForever(s')
  {
    if s.notice.revoked {
      assert Closed(s');
      forall states, steps, k | Path(states, steps) && states[0] == s' && 0 <= k < |states|
        ensures NoLease(states[k])
      {
        ClosedForever(states, steps, k);
      }
    } else {
      var t := s'.(otherLeases := s'.otherLeases + 1);
      var states, steps := [s', t], [Outer(TakeLease)];
      assert Path(states, steps) && !NoLease(states[1]);
    }
  }

  lemma ReturnedOkState(s: State)
    requires Accounted(s) && Flags(s) && s.pc == ReturnedOk
    ensures s.notice.down && s.ledger.Pending() == {}
    ensures forall w :: w in s.ledger.place ==> s.ledger.place[w].Abandoned?
  {
    forall w | w in s.ledger.place ensures !s.ledger.place[w].Running? {
      assert w !in s.ledger.Pending();
    }
  }

  lemma {:induction false} DrainFound(states: seq<State>, steps: seq<Step>, i: nat) returns (j: nat)
    requires Run(states, steps) && i < |states| && states[i].pc == ReturnedOk
    ensures j < i && SawNoLease(states[j], steps[j])
    decreases i
  {
    assert Next(states[i - 1], states[i - 1 + 1], steps[i - 1]);
    if states[i - 1].pc == ReturnedOk {
      j := DrainFound(states, steps, i - 1);
    } else {
      OnlyDrainReturnsOk(states[i - 1], states[i], steps[i - 1]);
      j := i - 1;
    }
  }

  /** A step in which `wait_for_drain` loaded a lease count of zero. */
  ghost predicate SawNoLease(s: State, step: Step) {
    step == Selects(Drain) && s.otherLeases == 0 && Holding(s.ledger) == {}
  }

  lemma OnlyDrainReturnsOk(s: State, s': State, step: Step)
    requires Next(s, s', step) && s'.pc == ReturnedOk && s.pc != ReturnedOk
    ensures SawNoLease(s, step)
  {
    hide Q.DriverNext, Q.Peek, Q.ReadHead, Q.CommitPop, Q.Fail, Q.Begin, Q.StoreId, Q.StoreLength, Q.Bump, Q.StoreIndex;
  }

  /**
   What drains is the lease count, not the revoke: `run` can return `Ok` while
   `stop` has stored `down` and has yet to call `revoke`, and leases can follow.
   */
  lemma OkBeforeRevoke(s: State) returns (states: seq<State>, steps: seq<Step>)
    requires Init(s) && s.otherLeases == 0
    ensures Run(states, steps) && states[0] == s && |states| == 6
    ensures states[5].pc == ReturnedOk && !states[5].notice.revoked && !LeaseFreeForever(states[5])
  {
    var s1 := s.(notice := s.notice.(down := true, stopping := 1));
    var s2 := s1.(pc := WhileTest);
    var s3 := s1.(pc := AfterScan);
    var s4 := s1.(pc := Draining);
    var s5 := s1.(pc := ReturnedOk);
    assert s.ledger.Pending() == {} && Holding(s.ledger) == {};
    states := [s, s1, s2, s3, s4, s5];
    steps := [Outer(StopDown), Parks(Test), Scans(TestWhile), Scans(EndScan), Selects(Drain)];
    OkFinalIffRevoked(s4, s5);
  }

  // publication order

  /** A length on record was put there by the worker's status write. */
  lemma {:induction false} StatusWriteFound(states: seq<State>, steps: seq<Step>, i: nat, w: Work, length: u32)
    returns (j: nat)
    requires Run(states, steps) && i < |states| && WrittenAs(states[i].ledger.written, w, length)
    ensures j < i && steps[j] == Outer(Worker(w, StatusWritten(length)))
    decreases i
  {
    assert Next(states[i - 1], states[i - 1 + 1], steps[i - 1]);
    if steps[i - 1] == Outer(Worker(w, StatusWritten(length))) {
      j := i - 1;
    } else {
      WrittenStep(states[i - 1], states[i], steps[i - 1], w, length);
      j := StatusWriteFound(states, steps, i - 1, w, length);
    }
  }

  lemma WrittenStep(s: State, s': State, step: Step, w: Work, length: u32)
    requires Next(s, s', step) && WrittenAs(s'.ledger.written, w, length)
    requires step != Outer(Worker(w, StatusWritten(length)))
    ensures WrittenAs(s.ledger.written, w, length)
  {
  }

  lemma {:induction false} DataMoveFound(states: seq<State>, steps: seq<Step>, i: nat, w: Work) returns (j: nat)
    requires Run(states, steps) && i < |states| && states[i].ledger.Is(w, Running(DataMoved))
    ensures j < i && steps[j] == Outer(Worker(w, DataMoved))
    decreases i
  {
    assert Next(states[i - 1], states[i - 1 + 1], steps[i - 1]);
    if steps[i - 1] == Outer(Worker(w, DataMoved)) {
      j := i - 1;
    } else {
      MovedStep(states[i - 1], states[i], steps[i - 1], w);
      j := DataMoveFound(states, steps, i - 1, w);
    }
  }

  lemma MovedStep(s: State, s': State, step: Step, w: Work)
    requires Next(s, s', step) && s'.ledger.Is(w, Running(DataMoved)) && step != Outer(Worker(w, DataMoved))
    ensures s.ledger.Is(w, Running(DataMoved))
  {
    hide Q.DriverNext, Q.Peek, Q.ReadHead, Q.CommitPop, Q.Fail, Q.Begin, Q.StoreId, Q.StoreLength, Q.Bump, Q.StoreIndex;
  }

  /**
   Publication order, at every step, also in the middle of `complete` and after
   a revoke: a used entry the in-memory used index covers names the head of a
   popped chain with the length its worker reported, it stands whole in the used
   ring until the driver reclaims it, and that chain's data, then its status
   byte, were written by earlier steps.
   */
  lemma PublishedWhole(states: seq<State>, steps: seq<Step>, i: nat, q: nat, k: nat) returns (data: nat, status: nat)
    requires Run(states, steps) && i < |states| && q < |states[i].queues| && k < |states[i].queues[q].completed|
    ensures var queue := states[i].queues[q];
      var c := queue.completed[k];
      && Q.Shape(queue)
      && queue.rings.usedIndex == |queue.completed| % U16_LIMIT
      && c.ticket < queue.popped && c.head == queue.published[c.ticket]
      && (queue.reclaimed <= k ==> Q.Entry(queue, k, c))
      && data < status < i
      && steps[data] == Outer(Worker(Work(q, c.ticket), DataMoved))
      && steps[status] == Outer(Worker(Work(q, c.ticket), StatusWritten(c.length)))
  {
    RunInv(states, steps, i);
    var queue := states[i].queues[q];
    var c := queue.completed[k];
    assert Q.Inv(queue);
    assert QueueWritten(states[i].ledger.written, q, queue);
    var w := Work(q, c.ticket);
    assert WrittenAs(states[i].ledger.written, w, c.length);
    status := StatusWriteFound(states, steps, i, w, c.length);
    assert Next(states[status], states[status + 1], steps[status]);
    data := DataMoveFound(states, steps, status, w);
  }

  /** Each queue of the loop, seen alone, moves only by steps of its own protocol. */
  lemma QueueFollowsProtocol(s: State, s': State, step: Step, q: nat)
    requires Inv(s) && Next(s, s', step) && q < |s.queues|
    ensures |s'.queues| == |s.queues| && Q.Follows(s.queues[q], s'.queues[q])
  {
    match step
    case Drives(p, next, event) => DriveStaged(s, s', p, next, event);
    case Outer(o) => OutsideStaged(s, s', o);
    case Parks(p) => ParkStaged(s, s', p);
    case Scans(c) => ScanStaged(s, s', c);
    case Pops(d) => PopStaged(s, s', d);
    case Selects(e) =>
      assert s.pc.Finishing? ==> s.pc.work in s.ledger.place.Keys;
      SelectStaged(s, s', e);
    case Completes(f) => CompleteStaged(s, s', f);
  }

  lemma {:induction false} SameQueueCount(states: seq<State>, steps: seq<Step>, i: nat)
    requires Run(states, steps) && i < |states|
    ensures |states[i].queues| == |states[0].queues|
    decreases i
  {
    hide Path, Next;
    PathStep(states, steps, i);
    if i > 0 {
      SameQueueCount(states, steps, i - 1);
      AttemptStep(states[i - 1], states[i], steps[i - 1], 0);
    }
  }

  ghost predicate HasQueue(states: seq<State>, q: nat) {
    forall i :: 0 <= i < |states| ==> q < |states[i].queues|
  }

  /** Queue `q` at every state. */
  ghost function HistoryOf(states: seq<State>, q: nat): (history: seq<Q.Queue>)
    requires HasQueue(states, q)
    ensures |history| == |states| && forall i :: 0 <= i < |states| ==> history[i] == states[i].queues[q]
  {
    seq(|states|, i requires 0 <= i < |states| => states[i].queues[q])
  }

  /**
   What happens to one queue of the loop over a whole run, stutters left out, is
   a run of the queue protocol: all its theorems hold of every queue, in
   particular that pops and reclaims come in order and an overrun is never seen.
   */
  lemma QueueRuns(states: seq<State>, steps: seq<Step>, q: nat) returns (labels: seq<Q.Label>)
    requires Run(states, steps) && q < |states[0].queues|
    ensures HasQueue(states, q) && states != [] && Q.Run(Q.Changes(HistoryOf(states, q)), labels)
    ensures Q.PoppedHeads(labels) <= Q.PublishedHeads(labels) && Q.SawOverrun !in labels
    ensures Q.ReclaimedEntries(labels) <= Q.FinishedEntries(labels)
  {
    RunHistory(states, steps, q);
    hide Run, Q.Run, Q.History;
    labels := Q.HistoryRuns(HistoryOf(states, q));
    Q.PopsAndReclaimsInOrder(Q.Changes(HistoryOf(states, q)), labels);
  }

  lemma RunHistory(states: seq<State>, steps: seq<Step>, q: nat)
    requires Run(states, steps) && q < |states[0].queues|
    ensures states != [] && HasQueue(states, q) && Q.History(HistoryOf(states, q))
  {
    hide Path, Q.Follows;
    RunLength(states, steps);
    forall i | 0 <= i < |states| ensures q < |states[i].queues| {
      SameQueueCount(states, steps, i);
    }
    var history := HistoryOf(states, q);
    assert Q.Init(history[0]);
    forall i | 0 <= i < |history| - 1 ensures Q.Follows(history[i], history[i + 1]) {
      FollowsAt(states, steps, i + 1, q);
    }
  }

  lemma FollowsAt(states: seq<State>, steps: seq<Step>, i: nat, q: nat)
    requires Run(states, steps) && 0 < i < |states| && q < |states[i - 1].queues|
    ensures q < |states[i].queues| && Q.Follows(states[i - 1].queues[q], states[i].queues[q])
  {
    RunInv(states, steps, i - 1);
    PathStep(states, steps, i);
    QueueFollowsProtocol(states[i - 1], states[i], steps[i - 1], q);
  }

  // ------------------------------------------------------------ bounded bypass

  /** Queue `q` has entries and its `popped` count stands at `popped`. */
  predicate WaitingAt(s: State, q: nat, popped: nat) {
    q < |s.queues| && HasUnpopped(s.queues[q]) && s.queues[q].popped == popped
  }

  /** Past an attempt at `q`, the loop pops from `q` or has failed. */
  predicate Served(s: State, q: nat) {
    s.pc == Popping(q) || s.pc.Returned()
  }

  /** How one step moves the attempt counter and the service of a waiting queue. */
  ghost predicate LookStep(s: State, s': State, q: nat) {
    && |s'.queues| == |s.queues| > 0
    && (s'.attempts == s.attempts || (s'.attempts == s.attempts + 1 && !Served(s, q)))
    && (Served(s, q) ==> Served(s', q))
    && (s'.attempts == s.attempts + 1 && Visited(s.attempts, |s.queues|) == q ==> Served(s', q))
  }

  lemma ScanLooks(s: State, s': State, step: Scan, q: nat, popped: nat)
    requires Inv(s) && ScanNext(s, s', step) && WaitingAt(s, q, popped)
    ensures LookStep(s, s', q)
  {
    if step.Attempt? {
      Q.PeekExact(s.queues[Visited(s.attempts, |s.queues|)]);
    }
  }

  lemma PopLooks(s: State, s': State, step: Pop, q: nat, popped: nat)
    requires |s.queues| > 0 && PopNext(s, s', step) && WaitingAt(s, q, popped) && WaitingAt(s', q, popped)
    ensures LookStep(s, s', q)
  {
  }

  lemma OthersLook(s: State, s': State, step: Step, q: nat)
    requires |s.queues| > 0 && Next(s, s', step) && !step.Scans? && !step.Pops?
    ensures LookStep(s, s', q)
  {
  }

  lemma RunLooks(states: seq<State>, steps: seq<Step>, j: nat, q: nat, popped: nat)
    requires Run(states, steps) && j < |steps|
    requires WaitingAt(states[j], q, popped) && WaitingAt(states[j + 1], q, popped)
    ensures LookStep(states[j], states[j + 1], q)
  {
    RunInv(states, steps, j);
    match steps[j]
    case Scans(c) => ScanLooks(states[j], states[j + 1], c, q, popped);
    case Pops(d) => PopLooks(states[j], states[j + 1], d, q, popped);
    case _ => OthersLook(states[j], states[j + 1], steps[j], q);
  }

  /** An attempt at a waiting `q` made since state `i` was the last one made. */
  lemma {:induction false} LastLook(states: seq<State>, steps: seq<Step>, i: nat, j: nat, q: nat, popped: nat, k: nat)
    requires Run(states, steps) && i <= j < |states| && |states[i].queues| > 0
    requires forall m :: i <= m <= j ==> WaitingAt(states[m], q, popped)
    ensures |states[j].queues| == |states[i].queues| && states[i].attempts <= states[j].attempts
    ensures states[i].attempts <= k < states[j].attempts && Visited(k, |states[i].queues|) == q ==>
      k + 1 == states[j].attempts && Served(states[j], q)
    decreases j
  {
    hide Run, Path, Served, Visited, WaitingAt;
    RunLength(states, steps);
    if i < j {
      LastLook(states, steps, i, j - 1, q, popped, k);
      assert WaitingAt(states[j - 1], q, popped) && WaitingAt(states[j], q, popped);
      RunLooks(states, steps, j - 1, q, popped);
    }
  }

  lemma RunSize(states: seq<State>, steps: seq<Step>, i: nat)
    requires Run(states, steps) && i < |states|
    ensures 0 < |states[i].queues| < U64_LIMIT
  {
    RunInv(states, steps, i);
  }

  /** A chain is taken from a queue other than `q`. */
  predicate TakesElsewhere(s: State, step: Step, q: nat) {
    && step.Scans? && step.c.Attempt? && step.c.decision.Take?
    && |s.queues| > 0 && Visited(s.attempts, |s.queues|) != q
  }

  /** How many chains the steps from `i` up to `j` take from queues other than `q`. */
  ghost function Takes(states: seq<State>, steps: seq<Step>, i: nat, j: nat, q: nat): nat
    requires i <= j < |states| == |steps| + 1
  {
    if i == j then 0
    else Takes(states, steps, i, j - 1, q) + if TakesElsewhere(states[j - 1], steps[j - 1], q) then 1 else 0
  }

  lemma AttemptStep(s: State, s': State, step: Step, q: nat)
    requires Next(s, s', step)
    ensures |s'.queues| == |s.queues|
    ensures s'.attempts == s.attempts || s'.attempts == s.attempts + 1
    ensures TakesElsewhere(s, step, q) ==>
      s'.attempts == s.attempts + 1 && |s.queues| > 0 && Visited(s.attempts, |s.queues|) != q
  {
    hide Q.DriverNext, Q.Peek, Q.ReadHead, Q.CommitPop, Q.Fail, Q.Begin, Q.StoreId, Q.StoreLength, Q.Bump, Q.StoreIndex;
  }

  /** Takes are attempts, and an attempt at `q` is no take from elsewhere. */
  lemma {:induction false} TakesAreAttempts(states: seq<State>, steps: seq<Step>, i: nat, j: nat, q: nat, k: nat)
    requires Path(states, steps) && i <= j < |states| && |states[i].queues| > 0
    ensures |states[j].queues| == |states[i].queues|
    ensures states[i].attempts + Takes(states, steps, i, j, q) <= states[j].attempts
    ensures states[i].attempts <= k < states[j].attempts && Visited(k, |states[i].queues|) == q ==>
      states[i].attempts + Takes(states, steps, i, j, q) < states[j].attempts
    decreases j
  {
    hide Path, Next, Visited, TakesElsewhere;
    PathStep(states, steps, j);
    if i < j {
      TakesAreAttempts(states, steps, i, j - 1, q, k);
      AttemptStep(states[j - 1], states[j], steps[j - 1], q);
    }
  }

  /** What bounded bypass promises about the steps from `i` to `j`. */
  ghost predicate Bounded(states: seq<State>, steps: seq<Step>, i: nat, j: nat, q: nat)
    requires i <= j < |states| == |steps| + 1
  {
    var n, made := |states[i].queues|, states[j].attempts - states[i].attempts;
    && made <= n && Takes(states, steps, i, j, q) <= n - 1
    && (made == n > 0 ==> states[j].attempts > 0 && Visited(states[j].attempts - 1, n) == q && Served(states[j], q))
  }

  /** The bypass bound, given which of the next `n` attempts is at `q`. */
  lemma BypassUpTo(states: seq<State>, steps: seq<Step>, i: nat, j: nat, q: nat, popped: nat, k: nat)
    requires Run(states, steps) && i <= j < |states| && |states[i].queues| > 0
    requires forall m :: i <= m <= j ==> WaitingAt(states[m], q, popped)
    requires states[i].attempts <= k < states[i].attempts + |states[i].queues| && Visited(k, |states[i].queues|) == q
    ensures |states[j].queues| == |states[i].queues| && |states| == |steps| + 1
    ensures Bounded(states, steps, i, j, q)
  {
    hide Run, Path, Served, WaitingAt, Visited, Takes;
    RunLength(states, steps);
    LastLook(states, steps, i, j, q, popped, k);
    TakesAreAttempts(states, steps, i, j, q, k);
  }

  /**
   Bounded bypass: while a queue has entries and none of them is popped, over a
   fair window at most `n - 1` chains are taken from other queues, across breaks
   and separate scans: at most `n` attempts are made at all, and the last of `n`
   is at this queue.
   */
  lemma BoundedBypass(states: seq<State>, steps: seq<Step>, i: nat, j: nat, q: nat, popped: nat)
    requires Run(states, steps) && i <= j < |states|
    requires forall m :: i <= m <= j ==> WaitingAt(states[m], q, popped)
    ensures |states[j].queues| == |states[i].queues| > 0 && |states| == |steps| + 1
    ensures Fair(states[i].attempts, |states[i].queues|) ==> Bounded(states, steps, i, j, q)
  {
    var n, a := |states[i].queues|, states[i].attempts;
    assert q < n by {
      assert WaitingAt(states[i], q, popped);
    }
    RunSize(states, steps, i);
    hide Run, Path, WaitingAt, Visited, Fair, Bounded;
    RunLength(states, steps);
    LastLook(states, steps, i, j, q, popped, 0);
    if Fair(a, n) {
      FairVisits(a, n, q);
      var k :| a <= k < a + n && Visited(k, n) == q;
      BypassUpTo(states, steps, i, j, q, popped, k);
    }
  }
}
