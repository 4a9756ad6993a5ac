/** What every step of the device loop and its surroundings keeps. */
module DeviceLoopInvariant {
  import opened Primitives
  import opened RoundRobin
  import opened DeviceLoop
  import Q = QueueProtocol

  // ----------------------------------------------------------- queues follow

  /** Every queue is in a state its own protocol can reach. */
  ghost predicate QueuesSound(s: State) {
    0 < |s.queues| < U64_LIMIT && forall q :: 0 <= q < |s.queues| ==> Q.Inv(s.queues[q])
  }

  /** No queue but `busy` is in the middle of a `pop` or a `complete`. */
  ghost predicate Quiet(queues: seq<Q.Queue>, busy: int) {
    forall q :: 0 <= q < |queues| && q != busy ==> queues[q].device.Ready?
  }

  predicate CompletingStage(device: Q.DeviceStep, ticket: nat, length: u32) {
    || device.Ready?
    || ((device.StoringId? || device.StoringLength? || device.Bumping? || device.StoringIndex?)
        && device.c.ticket == ticket && device.c.length == length)
  }

  /** A queue's device side is mid-operation only where the loop is working on it. */
  ghost predicate Staged(s: State) {
    match s.pc
    case Popping(q) =>
      q < |s.queues| && Quiet(s.queues, q) && (s.queues[q].device.Reading? || s.queues[q].device.Walking?)
    case Completing(w, length) =>
      w.queue < |s.queues| && Quiet(s.queues, w.queue)
      && CompletingStage(s.queues[w.queue].device, w.ticket, length)
    case ReturnedErr => true
    case _ => Quiet(s.queues, -1)
  }

  ghost predicate QueuesFollow(s: State, s': State) {
    && |s'.queues| == |s.queues|
    && forall q :: 0 <= q < |s.queues| ==> Q.Follows(s.queues[q], s'.queues[q])
  }

  lemma OneFollows(s: State, s': State, q: nat, next: Q.Queue, l: Q.Label)
    requires q < |s.queues| && s'.queues == s.queues[q := next] && Q.Next(s.queues[q], next, l)
    ensures QueuesFollow(s, s')
  {
    assert Q.Follows(s.queues[q], next);
  }

  lemma QueuesSoundKept(s: State, s': State)
    requires QueuesSound(s) && QueuesFollow(s, s')
    ensures QueuesSound(s')
  {
    forall q | 0 <= q < |s.queues| ensures Q.Inv(s'.queues[q]) {
      assert Q.Follows(s.queues[q], s'.queues[q]);
      if l :| Q.Next(s.queues[q], s'.queues[q], l) {
        Q.NextInv(s.queues[q], s'.queues[q], l);
      }
    }
  }

  // ------------------------------------------------------------------ stages

  lemma DriverKeepsDevice(q: Q.Queue, q': Q.Queue, l: Q.Label)
    requires Q.DriverNext(q, q', l)
    ensures q'.device == q.device && q'.inFlight == q.inFlight && q'.popped == q.popped && q'.completed == q.completed
    ensures q.published <= q'.published
    ensures |q'.published| > |q.published| ==> l.Published?
  {
  }

  lemma DriveStaged(s: State, s': State, q: nat, next: Q.Queue, event: Q.Label)
    requires Staged(s) && DriveNext(s, s', q, next, event)
    ensures Staged(s') && QueuesFollow(s, s')
  {
    DriverKeepsDevice(s.queues[q], next, event);
    OneFollows(s, s', q, next, event);
  }

  /** The loop is not inside `pop` or `complete`. */
  predicate Plain(pc: Pc) {
    !pc.Popping? && !pc.Completing?
  }

  lemma SameStage(s: State, s': State)
    requires Staged(s) && s'.queues == s.queues && !s.pc.ReturnedErr?
    requires s'.pc == s.pc || (Plain(s.pc) && Plain(s'.pc))
    ensures Staged(s')
  {
  }

  lemma OutsidePc(s: State, s': State, step: Outside)
    requires OutsideNext(s, s', step)
    ensures s'.queues == s.queues && (s'.pc == s.pc || (Plain(s.pc) && Plain(s'.pc)))
    ensures s'.pc.ReturnedErr? <==> s.pc.ReturnedErr?
  {
  }

  lemma OutsideStaged(s: State, s': State, step: Outside)
    requires Staged(s) && OutsideNext(s, s', step)
    ensures Staged(s') && s'.queues == s.queues
  {
    OutsidePc(s, s', step);
    if !s.pc.ReturnedErr? {
      SameStage(s, s');
    }
  }

  lemma ParkStaged(s: State, s': State, step: Park)
    requires Staged(s) && ParkNext(s, s', step)
    ensures Staged(s') && s'.queues == s.queues
  {
  }

  lemma SelectStaged(s: State, s': State, step: Select)
    requires Staged(s) && SelectNext(s, s', step)
    requires s.pc.Finishing? ==> s.pc.work.queue < |s.queues|
    ensures Staged(s') && s'.queues == s.queues
  {
  }

  lemma ScanStaged(s: State, s': State, step: Scan)
    requires Staged(s) && ScanNext(s, s', step)
    ensures Staged(s') && QueuesFollow(s, s')
  {
    match step
    case Attempt(next, decision) =>
      var q := Visited(s.attempts, |s.queues|);
      OneFollows(s, s', q, next,
                 match decision case Empty => Q.SawEmpty case Overrun => Q.SawOverrun case Take => Q.Internal);
    case _ => assert s'.queues == s.queues;
  }

  lemma PopStaged(s: State, s': State, step: Pop)
    requires Staged(s) && PopNext(s, s', step)
    ensures Staged(s') && QueuesFollow(s, s')
  {
    var q := s.pc.queue;
    OneFollows(s, s', q, step.next, if step.CommitPop? then Q.Popped(s.queues[q].device.head) else Q.Internal);
  }

  lemma CompleteStaged(s: State, s': State, step: Complete)
    requires Staged(s) && CompleteNext(s, s', step)
    ensures Staged(s') && QueuesFollow(s, s')
  {
    var q := s.pc.work.queue;
    OneFollows(s, s', q, step.next, if step.StoreIndex? then Q.Finished(s.queues[q].device.c) else Q.Internal);
  }

  // -------------------------------------------------------------- accounting

  /** The loop has this chain in its hands. */
  predicate InHand(pc: Pc, w: Work) {
    (pc.Parsing? || pc.Finishing? || pc.Completing?) && pc.work == w
  }

  /** The ledger lists exactly the chains popped and not completed. */
  ghost predicate Exact(queues: seq<Q.Queue>, out: set<Work>) {
    && (forall w :: w in out ==> w.queue < |queues|)
    && (forall q, t :: 0 <= q < |queues| ==> (t in queues[q].inFlight <==> Work(q, t) in out))
  }

  /** Held chains are in hand, abandoned ones need `down`, lost ones a failed run. */
  ghost predicate Placed(place: map<Work, Place>, pc: Pc, down: bool) {
    && (forall w :: w in place ==>
        match place[w]
        case Running(_) => true
        case Held => InHand(pc, w)
        case Abandoned => down
        case Lost => pc.ReturnedErr?)
    && (pc.Parsing? || pc.Finishing? || pc.Completing? ==> pc.work in place && place[pc.work] == Held)
  }

  ghost predicate Accounted(s: State) {
    Exact(s.queues, s.ledger.place.Keys) && Placed(s.ledger.place, s.pc, s.notice.down)
  }

  lemma ExactAlike(queues: seq<Q.Queue>, queues': seq<Q.Queue>, out: set<Work>)
    requires Exact(queues, out) && |queues'| == |queues|
    requires forall q :: 0 <= q < |queues| ==> queues'[q].inFlight == queues[q].inFlight
    ensures Exact(queues', out)
  {
  }

  lemma PoppedExact(queues: seq<Q.Queue>, q: nat, next: Q.Queue, out: set<Work>, t: nat)
    requires q < |queues| && Exact(queues, out) && next.inFlight == queues[q].inFlight + {t}
    ensures Exact(queues[q := next], out + {Work(q, t)})
  {
  }

  lemma CompletedExact(queues: seq<Q.Queue>, q: nat, next: Q.Queue, out: set<Work>, t: nat)
    requires q < |queues| && Exact(queues, out) && next.inFlight == queues[q].inFlight - {t}
    ensures Exact(queues[q := next], out - {Work(q, t)})
  {
  }

  lemma PutKeys(l: Ledger, w: Work, p: Place)
    ensures l.Put(w, p).place.Keys == l.place.Keys + {w}
    ensures l.Remove(w).place.Keys == l.place.Keys - {w}
  {
  }

  lemma DriveAccounted(s: State, s': State, q: nat, next: Q.Queue, event: Q.Label)
    requires Accounted(s) && DriveNext(s, s', q, next, event)
    ensures Accounted(s')
  {
    DriverKeepsDevice(s.queues[q], next, event);
    ExactAlike(s.queues, s'.queues, s.ledger.place.Keys);
  }

  lemma OutsideAccounted(s: State, s': State, step: Outside)
    requires Accounted(s) && OutsideNext(s, s', step)
    ensures Accounted(s')
  {
    OutsidePc(s, s', step);
    if step.Worker? {
      PutKeys(s.ledger, step.w, Running(step.phase));
      assert s'.ledger.place.Keys == s.ledger.place.Keys;
    }
  }

  lemma ParkAccounted(s: State, s': State, step: Park)
    requires Accounted(s) && ParkNext(s, s', step)
    ensures Accounted(s')
  {
  }

  lemma ScanAccounted(s: State, s': State, step: Scan)
    requires Accounted(s) && ScanNext(s, s', step)
    ensures Accounted(s')
  {
    if step.Parse? {
      assert s'.ledger.place.Keys == s.ledger.place.Keys;
    } else {
      ExactAlike(s.queues, s'.queues, s.ledger.place.Keys);
    }
  }

  lemma PopAccounted(s: State, s': State, step: Pop)
    requires Accounted(s) && PopNext(s, s', step)
    ensures Accounted(s')
  {
    if step.CommitPop? {
      var q, t := s.pc.queue, s.queues[s.pc.queue].popped;
      PoppedExact(s.queues, q, step.next, s.ledger.place.Keys, t);
      PutKeys(s.ledger, Work(q, t), Held);
    } else {
      ExactAlike(s.queues, s'.queues, s.ledger.place.Keys);
    }
  }

  lemma SelectAccounted(s: State, s': State, step: Select)
    requires Accounted(s) && SelectNext(s, s', step)
    ensures Accounted(s')
  {
    hide Exact;
    assert s'.ledger.place.Keys == s.ledger.place.Keys;
  }

  lemma CompleteAccounted(s: State, s': State, step: Complete)
    requires Staged(s) && Accounted(s) && CompleteNext(s, s', step)
    ensures Accounted(s')
  {
    var w := s.pc.work;
    if step.StoreIndex? {
      CompletedExact(s.queues, w.queue, step.next, s.ledger.place.Keys, w.ticket);
      PutKeys(s.ledger, w, Held);
    } else {
      ExactAlike(s.queues, s'.queues, s.ledger.place.Keys);
      assert s'.ledger.place.Keys == s.ledger.place.Keys;
    }
  }

  // ------------------------------------------------- flags and the in-flight bound

  /** Which flags and how much work in flight each point of the loop implies. */
  ghost predicate FlagsAt(pc: Pc, scan: bool, attempts: nat, down: bool, count: nat, n: nat) {
    && count <= MaximumInFlight(n)
    && match pc
       case Top => scan || down || count == 0
       case WhileTest => scan || down
       case Scanning(tried) => tried < n && tried <= attempts && scan && count < MaximumInFlight(n)
       case Popping(_) => scan && count < MaximumInFlight(n)
       case Parsing(_) => scan && count < MaximumInFlight(n)
       case Selecting => count > 0
       case Waiting(_) => count > 0
       case Draining => down && count == 0
       case ReturnedOk => down && count == 0
       case _ => pc.Parking() ==> count == 0
  }

  ghost predicate Flags(s: State) {
    FlagsAt(s.pc, s.scan, s.attempts, s.notice.down, |s.ledger.Pending()|, |s.queues|)
  }

  /** How the number in flight changes when one chain changes place. */
  lemma PutCount(l: Ledger, w: Work, p: Place)
    ensures p.Running? ==> 0 < |l.Put(w, p).Pending()| <= |l.Pending()| + 1
    ensures !p.Running? ==> |l.Put(w, p).Pending()| <= |l.Pending()|
    ensures (w in l.Pending()) == p.Running? ==> |l.Put(w, p).Pending()| == |l.Pending()|
    ensures w !in l.Pending() ==> |l.Remove(w).Pending()| == |l.Pending()|
  {
    assert l.Put(w, p).Pending() == if p.Running? then l.Pending() + {w} else l.Pending() - {w};
    assert l.Remove(w).Pending() == l.Pending() - {w};
    assert w !in l.Pending() ==> l.Pending() - {w} == l.Pending();
    assert w in l.Pending() ==> l.Pending() + {w} == l.Pending();
  }

  lemma OutsideFlags(s: State, s': State, step: Outside)
    requires Flags(s) && OutsideNext(s, s', step)
    ensures Flags(s')
  {
    if step.Worker? {
      PutCount(s.ledger, step.w, Running(step.phase));
      assert s'.ledger.Pending() == s.ledger.Put(step.w, Running(step.phase)).Pending();
    }
  }

  lemma ParkFlags(s: State, s': State, step: Park)
    requires Flags(s) && ParkNext(s, s', step)
    ensures Flags(s')
  {
  }

  lemma ScanFlags(s: State, s': State, step: Scan)
    requires |s.queues| > 0 && Flags(s) && ScanNext(s, s', step)
    ensures Flags(s')
  {
    if step.Parse? {
      PutCount(s.ledger, s.pc.work, if step.ok then Running(Queued) else Lost);
    }
  }

  lemma PopFlags(s: State, s': State, step: Pop)
    requires QueuesSound(s) && Accounted(s) && Flags(s) && PopNext(s, s', step)
    ensures Flags(s')
  {
    if step.CommitPop? {
      PutCount(s.ledger, Work(s.pc.queue, s.queues[s.pc.queue].popped), Held);
    }
  }

  lemma SelectFlags(s: State, s': State, step: Select)
    requires Accounted(s) && Flags(s) && SelectNext(s, s', step)
    ensures Flags(s')
  {
    match step
    case TakeWork(w) => PutCount(s.ledger, w, s'.ledger.place[w]);
    case CheckDown => PutCount(s.ledger, s.pc.work, Abandoned);
    case _ =>
  }

  lemma CompleteFlags(s: State, s': State, step: Complete)
    requires Accounted(s) && Flags(s) && CompleteNext(s, s', step)
    ensures Flags(s')
  {
    PutCount(s.ledger, s.pc.work, Lost);
  }

  // -------------------------------------------------- written before published

  ghost predicate WrittenAs(written: map<Work, u32>, w: Work, length: u32) {
    w in written && written[w] == length
  }

  /** Every completion of the queue was written, with the length it reports, beforehand. */
  ghost predicate QueueWritten(written: map<Work, u32>, q: nat, queue: Q.Queue) {
    forall i :: 0 <= i < |queue.completed| ==>
      WrittenAs(written, Work(q, queue.completed[i].ticket), queue.completed[i].length)
  }

  ghost predicate Ordered(s: State) {
    && (forall w :: w in s.ledger.place && s.ledger.place[w].Running? && s.ledger.place[w].phase.StatusWritten? ==>
        WrittenAs(s.ledger.written, w, s.ledger.place[w].phase.length))
    && (s.pc.Finishing? || s.pc.Completing? ==> WrittenAs(s.ledger.written, s.pc.work, s.pc.length))
    && (forall q :: 0 <= q < |s.queues| ==> QueueWritten(s.ledger.written, q, s.queues[q]))
  }

  lemma DriveOrdered(s: State, s': State, q: nat, next: Q.Queue, event: Q.Label)
    requires Ordered(s) && DriveNext(s, s', q, next, event)
    ensures Ordered(s')
  {
    DriverKeepsDevice(s.queues[q], next, event);
    assert QueueWritten(s.ledger.written, q, s.queues[q]);
  }

  /** A worker writes only a chain that is still in flight, so no completed one. */
  lemma WorkerOrdered(s: State, s': State, w: Work, phase: Phase)
    requires QueuesSound(s) && Accounted(s) && Ordered(s) && OutsideNext(s, s', Worker(w, phase))
    ensures Ordered(s')
  {
    forall q | 0 <= q < |s.queues| ensures QueueWritten(s'.ledger.written, q, s.queues[q]) {
      assert QueueWritten(s.ledger.written, q, s.queues[q]);
      forall i | 0 <= i < |s.queues[q].completed|
        ensures Work(q, s.queues[q].completed[i].ticket) != w
      {
        assert Q.Inv(s.queues[q]);
      }
    }
  }

  lemma OutsideOrdered(s: State, s': State, step: Outside)
    requires QueuesSound(s) && Accounted(s) && Ordered(s) && OutsideNext(s, s', step)
    ensures Ordered(s')
  {
    if step.Worker? {
      WorkerOrdered(s, s', step.w, step.phase);
    } else {
      assert s'.ledger == s.ledger && s'.queues == s.queues;
    }
  }

  lemma ParkOrdered(s: State, s': State, step: Park)
    requires Ordered(s) && ParkNext(s, s', step)
    ensures Ordered(s')
  {
  }

  lemma ScanOrdered(s: State, s': State, step: Scan)
    requires Ordered(s) && ScanNext(s, s', step)
    ensures Ordered(s')
  {
    forall q | 0 <= q < |s.queues| ensures QueueWritten(s'.ledger.written, q, s'.queues[q]) {
      assert QueueWritten(s.ledger.written, q, s.queues[q]);
    }
  }

  lemma PopOrdered(s: State, s': State, step: Pop)
    requires Ordered(s) && PopNext(s, s', step)
    ensures Ordered(s')
  {
    forall q | 0 <= q < |s.queues| ensures QueueWritten(s'.ledger.written, q, s'.queues[q]) {
      assert QueueWritten(s.ledger.written, q, s.queues[q]);
    }
  }

  lemma SelectOrdered(s: State, s': State, step: Select)
    requires Ordered(s) && SelectNext(s, s', step)
    ensures Ordered(s')
  {
    assert s'.queues == s.queues && s'.ledger.written == s.ledger.written;
  }

  lemma CompleteOrdered(s: State, s': State, step: Complete)
    requires Staged(s) && Ordered(s) && CompleteNext(s, s', step)
    ensures Ordered(s')
  {
    forall q | 0 <= q < |s.queues| ensures QueueWritten(s'.ledger.written, q, s'.queues[q]) {
      assert QueueWritten(s.ledger.written, q, s.queues[q]);
    }
  }

  // ------------------------------------------------------------- no lost kick

  predicate HasUnpopped(q: Q.Queue) {
    q.popped < |q.published|
  }

  /** Without being woken again, the loop will look at queue `q` or have a completion to wake it. */
  ghost predicate WillLook(s: State, q: nat)
    requires |s.queues| > 0
  {
    var full := |s.ledger.Pending()| == MaximumInFlight(|s.queues|);
    match s.pc
    case Top => s.scan
    case WhileTest => s.scan
    case Creating => false
    case Rechecking(woken) => woken
    case Polling(woken) => woken
    case Idle(wake) => wake != No
    case Scanning(tried) => Unvisited(s.attempts, tried, |s.queues|, q)
    case AfterScan => full
    case Selecting => full
    case Waiting(wake) => wake != No || full
    case _ => true
  }

  /** None of the last `tried` attempts looked at `q`. */
  ghost predicate Unvisited(attempts: nat, tried: nat, n: nat, q: nat)
    requires n > 0
  {
    forall i: nat :: attempts - tried <= i < attempts ==> Visited(i, n) != q
  }

  /** A kick is still due, its permit is stored, the loop will look anyway, or it is going down. */
  ghost predicate Covered(s: State, q: nat)
    requires |s.queues| > 0
  {
    || q in s.notice.owed
    || s.notice.permit
    || WillLook(s, q)
    || (s.notice.down && !s.pc.Parking())
  }

  /** The last `n` attempts did not straddle a wrap that skips a queue, or the loop is still at it. */
  predicate LastScanFair(s: State)
    requires |s.queues| > 0
  {
    s.pc.Scanning? || s.attempts < |s.queues| || Fair(s.attempts - |s.queues|, |s.queues|)
  }

  ghost predicate AllCovered(s: State)
    requires |s.queues| > 0
  {
    forall q :: 0 <= q < |s.queues| && HasUnpopped(s.queues[q]) ==> Covered(s, q)
  }

  ghost predicate Doorbell(s: State) {
    |s.queues| > 0 && (LastScanFair(s) ==> AllCovered(s))
  }

  lemma DriveDoorbell(s: State, s': State, q: nat, next: Q.Queue, event: Q.Label)
    requires Doorbell(s) && DriveNext(s, s', q, next, event)
    ensures Doorbell(s')
  {
    DriverKeepsDevice(s.queues[q], next, event);
    if LastScanFair(s) {
      forall p | 0 <= p < |s'.queues| && HasUnpopped(s'.queues[p]) ensures Covered(s', p) {
        assert HasUnpopped(s.queues[p]) ==> Covered(s, p);
      }
    }
  }

  lemma OutsideDoorbell(s: State, s': State, step: Outside)
    requires Doorbell(s) && OutsideNext(s, s', step)
    ensures Doorbell(s')
  {
    if LastScanFair(s) {
      if step.Worker? {
        PutCount(s.ledger, step.w, Running(step.phase));
        assert s'.ledger.Pending() == s.ledger.Put(step.w, Running(step.phase)).Pending();
      }
      forall p | 0 <= p < |s'.queues| && HasUnpopped(s'.queues[p]) ensures Covered(s', p) {
        assert Covered(s, p);
      }
    }
  }

  lemma ParkDoorbell(s: State, s': State, step: Park)
    requires Flags(s) && Doorbell(s) && ParkNext(s, s', step)
    ensures Doorbell(s')
  {
    if LastScanFair(s) {
      forall p | 0 <= p < |s'.queues| && HasUnpopped(s'.queues[p]) ensures Covered(s', p) {
        assert Covered(s, p);
      }
    }
  }

  /** `n` tries in a row that all missed `q` are impossible in a fair scan. */
  lemma FullScanVisits(s: State, q: nat)
    requires |s.queues| > 0 && q < |s.queues| && |s.queues| < U64_LIMIT
    requires |s.queues| <= s.attempts && LastScanFair(s) && !s.pc.Scanning?
    ensures !Unvisited(s.attempts, |s.queues|, |s.queues|, q)
  {
    var start := s.attempts - |s.queues|;
    FairVisits(start, |s.queues|, q);
  }

  lemma AttemptDoorbell(s: State, s': State, next: Q.Queue, decision: Q.Decision)
    requires QueuesSound(s) && Flags(s) && Doorbell(s) && ScanNext(s, s', Attempt(next, decision))
    ensures Doorbell(s')
  {
    var n := |s.queues|;
    var v := Visited(s.attempts, n);
    Q.PeekExact(s.queues[v]);
    hide Q.Inv, Q.Decide, Visited, Fair;
    if LastScanFair(s') && decision.Empty? {
      forall p | 0 <= p < n && HasUnpopped(s'.queues[p]) ensures Covered(s', p) {
        assert Covered(s, p) && p != v;
        if WillLook(s, p) {
          assert Unvisited(s'.attempts, s.pc.tried + 1, n, p);
          if s.pc.tried + 1 == n {
            FullScanVisits(s', p);
          }
        }
      }
    }
  }

  lemma ScanDoorbell(s: State, s': State, step: Scan)
    requires QueuesSound(s) && Flags(s) && Doorbell(s) && ScanNext(s, s', step)
    ensures Doorbell(s')
  {
    if step.Attempt? {
      AttemptDoorbell(s, s', step.next, step.decision);
    } else if LastScanFair(s') {
      forall p | 0 <= p < |s'.queues| && HasUnpopped(s'.queues[p]) ensures Covered(s', p) {
        assert Covered(s, p);
      }
    }
  }

  lemma PopDoorbell(s: State, s': State, step: Pop)
    requires Doorbell(s) && PopNext(s, s', step)
    ensures Doorbell(s')
  {
  }

  lemma SelectDoorbell(s: State, s': State, step: Select)
    requires Doorbell(s) && SelectNext(s, s', step)
    ensures Doorbell(s')
  {
    if LastScanFair(s) {
      forall p | 0 <= p < |s'.queues| && HasUnpopped(s'.queues[p]) ensures Covered(s', p) {
        assert Covered(s, p);
      }
    }
  }

  lemma CompleteDoorbell(s: State, s': State, step: Complete)
    requires Doorbell(s) && CompleteNext(s, s', step)
    ensures Doorbell(s')
  {
  }

  // ------------------------------------------------------------- no lost stop

  /** Parked unwoken after `down` was set: some `stop` has yet to notify. */
  ghost predicate StopSeen(s: State) {
    (s.pc == Polling(false) || s.pc == Idle(No)) && s.notice.down ==> s.notice.stopping > 0
  }

  lemma StopOutside(s: State, s': State, step: Outside)
    requires StopSeen(s) && OutsideNext(s, s', step)
    ensures StopSeen(s')
  {
  }

  lemma StopPark(s: State, s': State, step: Park)
    requires StopSeen(s) && ParkNext(s, s', step)
    ensures StopSeen(s')
  {
  }

  lemma StopElsewhere(s: State, s': State, step: Step)
    requires StopSeen(s) && Next(s, s', step) && !step.Outer? && !step.Parks?
    ensures StopSeen(s')
  {
    hide Q.DriverNext, Q.Peek, Q.ReadHead, Q.CommitPop, Q.Fail, Q.Begin, Q.StoreId, Q.StoreLength, Q.Bump, Q.StoreIndex;
  }

  lemma StopKept(s: State, s': State, step: Step)
    requires StopSeen(s) && Next(s, s', step)
    ensures StopSeen(s')
  {
    match step
    case Outer(o) => StopOutside(s, s', o);
    case Parks(p) => StopPark(s, s', p);
    case Drives(_, _, _) => StopElsewhere(s, s', step);
    case Scans(_) => StopElsewhere(s, s', step);
    case Pops(_) => StopElsewhere(s, s', step);
    case Selects(_) => StopElsewhere(s, s', step);
    case Completes(_) => StopElsewhere(s, s', step);
  }
}
