/**
 The multi-queue device loop (src/block.rs:494-562, and the same loop in
 src/fs.rs:720-787) with everything that runs beside it: drivers publishing and
 kicking, callers of `stop`, and the blocking workers. One atomic load, store,
 notification or memory access per step. `Notify` is tokio's: `notify_one`
 wakes a registered waiter or else leaves one permit, `notify_waiters` wakes the
 `Notified` already created, and a waiter dropped after `notify_one` puts the
 permit back.
 */
module DeviceLoop {
  import opened Primitives
  import opened RoundRobin
  import Q = QueueProtocol

  /** A popped chain: the `ticket`-th pop of its queue. */
  datatype Work = Work(queue: nat, ticket: nat)

  /** Where `execute_work` stands for one chain. */
  datatype Phase =
    | Queued
    | Leased                       // payload and status leased, worker started
    | DataMoved                    // data transferred, status not yet written
    | StatusWritten(length: u32)
    | Failed

  datatype Wake = No | One | All

  datatype Pc =
    | Top                          // the check before parking
    | Creating                     // about to call `notified()`
    | Rechecking(woken: bool)      // `Notified` created, about to load `down` again
    | Polling(woken: bool)         // about to poll it
    | Idle(wake: Wake)             // parked with nothing in flight
    | WhileTest
    | Scanning(tried: nat)
    | Popping(queue: nat)
    | Parsing(work: Work)
    | AfterScan
    | Selecting                    // about to poll both branches of `select!`
    | Waiting(wake: Wake)          // parked in `select!`
    | Finishing(work: Work, length: u32)
    | Completing(work: Work, length: u32)
    | Interrupting
    | Draining
    | ReturnedOk
    | ReturnedErr
  {
    /** On the way to parking with nothing in flight. */
    predicate Parking() {
      Creating? || Rechecking? || Polling? || Idle?
    }

    predicate Returned() {
      ReturnedOk? || ReturnedErr?
    }
  }

  /** What `kick`, `stop` and the drivers leave for the loop to see. */
  datatype Notice = Notice(
    down: bool, revoked: bool,
    permit: bool,                  // the permit stored in `wake`
    stopping: nat,                 // `stop` calls between their store and their notify
    owed: set<nat>)                // queues published to since their last kick

  /** Where a popped chain that is not yet completed has gone. */
  datatype Place =
    | Running(phase: Phase)        // in `pending`, the loop's `FuturesUnordered`
    | Held                         // in the loop's own hands
    | Abandoned                    // finished after `down`, never completed
    | Lost                         // in hand when `run` returned an error

  datatype Ledger = Ledger(
    place: map<Work, Place>,
    written: map<Work, u32>)       // chains whose data, then status, were written
  {
    predicate Is(w: Work, p: Place) {
      w in place && place[w] == p
    }

    function Put(w: Work, p: Place): Ledger {
      this.(place := place[w := p])
    }

    function Remove(w: Work): Ledger {
      this.(place := place - {w})
    }

    /** The contents of `pending`. */
    function Pending(): set<Work> {
      set w | w in place && place[w].Running?
    }
  }

  datatype State = State(
    queues: seq<Q.Queue>,
    pc: Pc, scan: bool, attempts: nat,
    notice: Notice, ledger: Ledger,
    otherLeases: nat)              // leases held outside the workers

  /** `queues.len().saturating_mul(4).clamp(1, 64)` */
  function MaximumInFlight(n: nat): (m: nat)
    ensures 1 <= m <= 64
  {
    if 4 * n < 1 then 1 else if 4 * n > 64 then 64 else 4 * n
  }

  /** With some queue, the maximum is four per queue or 64, whichever is less. */
  lemma FourPerQueue(n: nat)
    requires n > 0
    ensures MaximumInFlight(n) <= 4 * n && MaximumInFlight(n) <= 64
    ensures MaximumInFlight(n) == 4 * n || MaximumInFlight(n) == 64
  {
  }

  function Holding(l: Ledger): set<Work> {
    set w | w in l.place && (l.place[w] == Running(Leased) || l.place[w] == Running(DataMoved))
  }

  // ------------------------------------------------------------------- steps

  ghost predicate Init(s: State) {
    && 0 < |s.queues| < U64_LIMIT && (forall q :: 0 <= q < |s.queues| ==> Q.Init(s.queues[q]))
    && s == State(s.queues, Top, false, 0, Notice(false, false, false, 0, {}), Ledger(map[], map[]), s.otherLeases)
  }

  /** A waiter is registered and not yet woken. */
  predicate Registered(pc: Pc) {
    pc == Idle(No) || pc == Waiting(No)
  }

  function NotifyOne(s: State): State {
    if Registered(s.pc) then s.(pc := if s.pc.Idle? then Idle(One) else Waiting(One))
    else s.(notice := s.notice.(permit := true))
  }

  function NotifyAll(s: State): State {
    s.(pc := if s.pc == Idle(No) then Idle(All)
             else if s.pc == Waiting(No) then Waiting(All)
             else if s.pc.Rechecking? then Rechecking(true)
             else if s.pc.Polling? then Polling(true)
             else s.pc)
  }

  /** A driver's step on queue `q`; publishing leaves it owing a kick. */
  ghost predicate DriveNext(s: State, s': State, q: nat, next: Q.Queue, event: Q.Label) {
    && q < |s.queues| && Q.DriverNext(s.queues[q], next, event)
    && s' == s.(queues := s.queues[q := next],
                notice := if event.Published? then s.notice.(owed := s.notice.owed + {q}) else s.notice)
  }

  /** Steps of everyone else but the loop itself. */
  datatype Outside =
    | Kick(q: nat)
    | StopDown | Revoke | StopNotify
    | TakeLease | DropLease
    | Worker(w: Work, phase: Phase)

  predicate PhaseNext(a: Phase, b: Phase, revoked: bool) {
    match a
    case Queued => (b.Leased? && !revoked) || b.Failed?
    case Leased => b.DataMoved? || b.Failed?
    case DataMoved => b.StatusWritten? || b.Failed?
    case _ => false
  }

  ghost predicate OutsideNext(s: State, s': State, step: Outside) {
    match step
    case Kick(q) => s' == NotifyOne(s.(notice := s.notice.(owed := s.notice.owed - {q})))
    case StopDown => s' == s.(notice := s.notice.(down := true, stopping := s.notice.stopping + 1))
    case Revoke => s' == s.(notice := s.notice.(revoked := true))   // by a `stop`, or by the transport itself
    case StopNotify =>
      && s.notice.stopping > 0 && s.notice.revoked
      && s' == NotifyAll(s.(notice := s.notice.(stopping := s.notice.stopping - 1)))
    case TakeLease => !s.notice.revoked && s' == s.(otherLeases := s.otherLeases + 1)
    case DropLease => s.otherLeases > 0 && s' == s.(otherLeases := s.otherLeases - 1)
    case Worker(w, phase) =>
      && w in s.ledger.place && s.ledger.place[w].Running?
      && PhaseNext(s.ledger.place[w].phase, phase, s.notice.revoked)
      && s' == s.(ledger := s.ledger.Put(w, Running(phase)).(
                    written := if phase.StatusWritten? then s.ledger.written[w := phase.length] else s.ledger.written))
  }

  /** Steps of `run` at the top of the loop. */
  datatype Park = Test | Create | Recheck | Poll | Resume

  ghost predicate ParkNext(s: State, s': State, step: Park) {
    match step
    case Test =>
      && s.pc == Top
      && s' == s.(pc := if !s.scan && s.ledger.Pending() == {} && !s.notice.down then Creating else WhileTest)
    case Create => s.pc == Creating && s' == s.(pc := Rechecking(false))
    case Recheck =>
      s.pc.Rechecking? && s' == s.(pc := if s.notice.down then WhileTest else Polling(s.pc.woken))
    case Poll =>
      && s.pc.Polling?
      && s' == if s.notice.permit then s.(notice := s.notice.(permit := false), scan := true, pc := WhileTest)
               else if s.pc.woken then s.(scan := true, pc := WhileTest)
               else s.(pc := Idle(No))
    case Resume => s.pc.Idle? && s.pc.wake != No && s' == s.(scan := true, pc := WhileTest)
  }

  /** Steps of the inner `while`: looking for a queue with work. */
  datatype Scan =
    | TestWhile
    | Attempt(next: Q.Queue, decision: Q.Decision) | AttemptRefused
    | Parse(ok: bool)
    | EndScan

  ghost predicate ScanNext(s: State, s': State, step: Scan) {
    var n := |s.queues|;
    match step
    case TestWhile =>
      && s.pc == WhileTest
      && s' == s.(pc := if !s.notice.down && s.scan && |s.ledger.Pending()| < MaximumInFlight(n) then Scanning(0)
                        else AfterScan)
    case Attempt(next, decision) =>
      && s.pc.Scanning? && n > 0
      && var q := Visited(s.attempts, n);
      && Q.Peek(s.queues[q], next, decision)
      && s' == s.(attempts := s.attempts + 1, queues := s.queues[q := next],
                  pc := match decision
                        case Take => Popping(q)
                        case Overrun => ReturnedErr
                        case Empty => if s.pc.tried + 1 == n then AfterScan else Scanning(s.pc.tried + 1))
    case AttemptRefused =>
      s.pc.Scanning? && s.notice.revoked && s' == s.(attempts := s.attempts + 1, pc := ReturnedErr)
    case Parse(ok) =>
      && s.pc.Parsing?
      && s' == if ok then s.(ledger := s.ledger.Put(s.pc.work, Running(Queued)), pc := WhileTest)
               else s.(ledger := s.ledger.Put(s.pc.work, Lost), pc := ReturnedErr)
    case EndScan =>
      && s.pc == AfterScan
      && s' == s.(scan := false,
                  pc := if s.ledger.Pending() != {} then Selecting else if s.notice.down then Draining else Top)
  }

  /** Steps of `pop` on the queue that had work. */
  datatype Pop = ReadHead(next: Q.Queue) | CommitPop(next: Q.Queue) | PopFailed(next: Q.Queue)

  ghost predicate PopNext(s: State, s': State, step: Pop) {
    var n := |s.queues|;
    match step
    case ReadHead(next) =>
      && s.pc.Popping? && s.pc.queue < n
      && Q.ReadHead(s.queues[s.pc.queue], next)
      && s' == s.(queues := s.queues[s.pc.queue := next])
    case CommitPop(next) =>
      && s.pc.Popping? && s.pc.queue < n
      && Q.CommitPop(s.queues[s.pc.queue], next)
      && var w := Work(s.pc.queue, s.queues[s.pc.queue].popped);
      && s' == s.(queues := s.queues[s.pc.queue := next], ledger := s.ledger.Put(w, Held), pc := Parsing(w))
    case PopFailed(next) =>
      && s.pc.Popping? && s.pc.queue < n
      && Q.Fail(s.queues[s.pc.queue], next)
      && s' == s.(queues := s.queues[s.pc.queue := next], pc := ReturnedErr)
  }

  /** Steps of the `select!`, and what follows it short of `complete`. */
  datatype Select = TakePermit | ParkBoth | WokenByKick | TakeWork(w: Work) | CheckDown | Interrupt(ok: bool) | Drain

  ghost predicate SelectNext(s: State, s': State, step: Select) {
    match step
    case TakePermit =>
      && s.pc == Selecting && s.notice.permit
      && s' == s.(notice := s.notice.(permit := false), scan := true, pc := Top)
    case ParkBoth => s.pc == Selecting && !s.notice.permit && s' == s.(pc := Waiting(No))
    case WokenByKick => s.pc.Waiting? && s.pc.wake != No && s' == s.(scan := true, pc := Top)
    case TakeWork(w) =>
      && (s.pc == Selecting || s.pc.Waiting?)
      && w in s.ledger.place && s.ledger.place[w].Running?
      && var phase := s.ledger.place[w].phase;
      && (phase.StatusWritten? || phase.Failed?)
      && var s1 := s.(notice := s.notice.(permit := s.notice.permit || s.pc == Waiting(One)));
      && s' == if phase.Failed? then s1.(ledger := s.ledger.Put(w, Lost), pc := ReturnedErr)
               else s1.(ledger := s.ledger.Put(w, Held), pc := Finishing(w, phase.length))
    case CheckDown =>
      && s.pc.Finishing?
      && s' == if s.notice.down then s.(ledger := s.ledger.Put(s.pc.work, Abandoned), pc := Top)
               else s.(pc := Completing(s.pc.work, s.pc.length))
    case Interrupt(ok) =>
      && s.pc == Interrupting
      && s' == if ok then s.(scan := true, pc := Top) else s.(pc := ReturnedErr)
    case Drain =>
      s.pc == Draining && s.otherLeases + |Holding(s.ledger)| == 0 && s' == s.(pc := ReturnedOk)
  }

  /** Steps of `complete` on the finished chain's queue. */
  datatype Complete =
    | Begin(next: Q.Queue) | StoreUsed(next: Q.Queue) | Bump(next: Q.Queue) | StoreIndex(next: Q.Queue)
    | CompleteFailed(next: Q.Queue)

  ghost predicate CompleteNext(s: State, s': State, step: Complete) {
    var n := |s.queues|;
    match step
    case Begin(next) =>
      && s.pc.Completing? && s.pc.work.queue < n
      && s.pc.work.ticket < |s.queues[s.pc.work.queue].published|
      && Q.Begin(s.queues[s.pc.work.queue], next, CompletionOf(s))
      && s' == s.(queues := s.queues[s.pc.work.queue := next])
    case StoreUsed(next) =>
      && s.pc.Completing? && s.pc.work.queue < n
      && (Q.StoreId(s.queues[s.pc.work.queue], next) || Q.StoreLength(s.queues[s.pc.work.queue], next))
      && s' == s.(queues := s.queues[s.pc.work.queue := next])
    case Bump(next) =>
      && s.pc.Completing? && s.pc.work.queue < n
      && Q.Bump(s.queues[s.pc.work.queue], next)
      && s' == s.(queues := s.queues[s.pc.work.queue := next])
    case StoreIndex(next) =>
      && s.pc.Completing? && s.pc.work.queue < n
      && Q.StoreIndex(s.queues[s.pc.work.queue], next)
      && s' == s.(queues := s.queues[s.pc.work.queue := next], ledger := s.ledger.Remove(s.pc.work), pc := Interrupting)
    case CompleteFailed(next) =>
      && s.pc.Completing? && s.pc.work.queue < n
      && Q.Fail(s.queues[s.pc.work.queue], next)
      && s' == s.(queues := s.queues[s.pc.work.queue := next], ledger := s.ledger.Put(s.pc.work, Lost),
                  pc := ReturnedErr)
  }

  /** The chain `complete` is called with, and the length the worker reported. */
  function CompletionOf(s: State): Q.Completion
    requires s.pc.Completing? && s.pc.work.queue < |s.queues|
    requires s.pc.work.ticket < |s.queues[s.pc.work.queue].published|
  {
    Q.Completion(s.pc.work.ticket, s.queues[s.pc.work.queue].published[s.pc.work.ticket], s.pc.length)
  }

  datatype Step =
    | Drives(q: nat, next: Q.Queue, event: Q.Label)
    | Outer(o: Outside)
    | Parks(p: Park) | Scans(c: Scan) | Pops(d: Pop) | Selects(e: Select) | Completes(f: Complete)

  ghost predicate Next(s: State, s': State, step: Step) {
    match step
    case Drives(q, next, event) => DriveNext(s, s', q, next, event)
    case Outer(o) => OutsideNext(s, s', o)
    case Parks(p) => ParkNext(s, s', p)
    case Scans(c) => ScanNext(s, s', c)
    case Pops(d) => PopNext(s, s', d)
    case Selects(e) => SelectNext(s, s', e)
    case Completes(f) => CompleteNext(s, s', f)
  }
}
