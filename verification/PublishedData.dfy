/**
 The guest's view of a completed block request: when the used index comes to
 cover an entry, the request's data and status byte stand in guest memory. The
 runs of DeviceLoop with guest memory and one disk beside them: workers write what
 FlatDisk says, first data, then status, each transfer in one step on the disk it
 finds; one that fails may leave anything in its own buffers; and everyone else
 keeps out of the disk and of the buffers of chains that were popped and not
 completed (src/block.rs:232-322).
 */
module PublishedData {
  import opened Primitives
  import opened GuestMemory
  import opened Scatter
  import opened DeviceLoop
  import opened DeviceLoopInvariant
  import opened DeviceLoopTheorems
  import Q = QueueProtocol
  import F = FlatDisk

  /** What a worker's transfer came to, and the disk it found. */
  datatype Served = Served(completion: F.Completion, disk: seq<byte>)

  /** The device, the image it was opened on, and the request each popped chain is. */
  datatype Setup = Setup(device: F.Device, image: seq<byte>, requests: Work -> F.Request)

  /** What stands beside the loop: guest memory, the disk, the transfers so far and what they came to. */
  datatype World = World(mem: Memory, disk: seq<byte>, log: seq<F.Event>, record: map<Work, Served>)

  ghost function Buffers(r: F.Request): seq<int> {
    Addressed(r.payload) + Span(r.status.gpa, 1)
  }

  /** No address is in both lists. */
  ghost predicate Disjoint(a: seq<int>, b: seq<int>) {
    forall x :: x in a ==> x !in b
  }

  /** What stood at these addresses still does. */
  ghost predicate Kept(mem: Memory, mem': Memory, addresses: seq<int>) {
    forall x :: x in addresses && x in mem ==> x in mem' && mem'[x] == mem[x]
  }

  /** The driver gives every chain in flight buffers of its own. */
  ghost predicate OwnBuffers(x: Setup, s: State) {
    && (forall w :: w in s.ledger.place ==> F.BuffersApart(x.requests(w)))
    && (forall v, w :: v in s.ledger.place && w in s.ledger.place && v != w ==>
        Disjoint(Buffers(x.requests(v)), Buffers(x.requests(w))))
  }

  ghost function Outcome(x: Setup, v: World, e: F.Event): F.Outcome
    requires F.Sound(e)
  {
    F.Execute(x.device, v.disk, e.mem, e.request, e.iovecs, e.host)
  }

  /** A worker's transfer for `r`, as event `e`: the flat disk's outcome on the disk and memory it finds. */
  ghost predicate Transfers(x: Setup, r: F.Request, v: World, v': World, e: F.Event, served: Served) {
    && e.request == r && e.mem == v.mem && F.Sound(e)
    && Outcome(x, v, e) == F.Outcome(v'.disk, v'.mem, Ok(served.completion))
    && served.disk == v.disk && v'.log == v.log + [e]
  }

  ghost predicate Transferred(x: Setup, r: F.Request, v: World, v': World, served: Served) {
    exists e :: Transfers(x, r, v, v', e, served)
  }

  ghost predicate WorldNext(x: Setup, s: State, step: Step, v: World, v': World) {
    if step.Outer? && step.o.Worker? && step.o.phase.DataMoved? then
      var w := step.o.w;
      exists served :: Transferred(x, x.requests(w), v, v', served) && v'.record == v.record[w := served]
    else
      && v'.disk == v.disk && v'.log == v.log && v'.record == v.record
      && if step.Outer? && step.o.Worker? && step.o.phase.StatusWritten? then
           var w := step.o.w;
           && w in v.record && step.o.phase.length == v.record[w].completion.usedLength
           && v'.mem == F.WithStatus(v.mem, x.requests(w), v.record[w].completion.status)
         else
           forall w :: w in s.ledger.place && step != Outer(Worker(w, Failed)) ==>
             Kept(v.mem, v'.mem, Buffers(x.requests(w)))
  }

  /** A run of the loop, with the world beside it. */
  ghost predicate DataRun(x: Setup, states: seq<State>, steps: seq<Step>, worlds: seq<World>) {
    && Run(states, steps) && |worlds| == |states|
    && worlds[0].disk == x.image && worlds[0].log == [] && worlds[0].record == map[]
    && (forall i :: 0 <= i < |states| ==> OwnBuffers(x, states[i]))
    && (forall i :: 0 <= i < |steps| ==> WorldNext(x, states[i], steps[i], worlds[i], worlds[i + 1]))
  }

  // --------------------------------------------------------------- invariant

  /** The payload buffers hold what the request asked for: after an OK read, the disk's window. */
  ghost predicate HoldsData(r: F.Request, mem: Memory, served: Served) {
    && Covers(mem, Addressed(r.payload))
    && (r.kind.In? && served.completion.status == F.STATUS_OK ==>
        && F.Offset(r) + Capacity(r.payload) <= |served.disk|
        && Gathered(mem, r.payload) == served.disk[F.Offset(r)..F.Offset(r) + Capacity(r.payload)])
  }

  ghost predicate HoldsStatus(r: F.Request, mem: Memory, served: Served) {
    r.status.gpa in mem && mem[r.status.gpa] == served.completion.status
  }

  /** The worker of `w` is through, with this length to report. */
  predicate Through(s: State, w: Work, length: u32) {
    || s.ledger.Is(w, Running(StatusWritten(length)))
    || ((s.pc.Finishing? || s.pc.Completing?) && s.pc.work == w && s.pc.length == length)
  }

  /** Chain `w`'s data stand in memory, as recorded. */
  ghost predicate DataThere(x: Setup, v: World, w: Work) {
    w in v.record && HoldsData(x.requests(w), v.mem, v.record[w])
  }

  ghost predicate AllThere(x: Setup, v: World, w: Work, length: u32) {
    && DataThere(x, v, w) && HoldsStatus(x.requests(w), v.mem, v.record[w])
    && length == v.record[w].completion.usedLength
  }

  ghost predicate InPlace(x: Setup, s: State, v: World, w: Work) {
    && (s.ledger.Is(w, Running(DataMoved)) ==> DataThere(x, v, w))
    && (forall length :: Through(s, w, length) ==> AllThere(x, v, w, length))
  }

  // what a write leaves alone

  lemma KeptHolds(r: F.Request, mem: Memory, mem': Memory, served: Served)
    requires Kept(mem, mem', Buffers(r)) && HoldsData(r, mem, served)
    ensures HoldsData(r, mem', served)
    ensures HoldsStatus(r, mem, served) ==> HoldsStatus(r, mem', served)
  {
    var all, both := Addressed(r.payload), Buffers(r);
    forall i | 0 <= i < |all| ensures all[i] in mem' && mem'[all[i]] == mem[all[i]] {
      assert both[i] == all[i] && all[i] in mem;
    }
    assert Load(mem', all) == Load(mem, all);
    assert both[|all|] == r.status.gpa;
  }

  /** What a transfer that completes does to memory: a read's prefix of the window, all of it if OK. */
  lemma TransferWrites(x: Setup, r: F.Request, v: World, v': World, served: Served) returns (moved: nat)
    requires Transferred(x, r, v, v', served)
    ensures Covers(v.mem, Addressed(r.payload)) && moved <= Capacity(r.payload) == |Addressed(r.payload)|
    ensures moved > 0 || (r.kind.In? && served.completion.status == F.STATUS_OK) ==>
      F.Offset(r) + Capacity(r.payload) <= |served.disk|
    ensures r.kind.In? && served.completion.status == F.STATUS_OK ==> moved == Capacity(r.payload)
    ensures v'.mem == if moved == 0 then v.mem
                      else Scattered(v.mem, r.payload, served.disk[F.Offset(r)..F.Offset(r) + moved])
  {
    var e :| Transfers(x, r, v, v', e, served);
    CapacityIsLength(r.payload);
    hide Addressed, Capacity;
    moved := if r.kind.In? && F.Refusal(x.device, |v.disk|, r, e.iovecs).None? then F.Moved(e.host) else 0;
  }

  lemma TransferKeeps(x: Setup, r: F.Request, v: World, v': World, served: Served, others: seq<int>)
    requires Transferred(x, r, v, v', served) && Disjoint(Buffers(r), others)
    ensures Kept(v.mem, v'.mem, others)
  {
    var moved := TransferWrites(x, r, v, v', served);
    hide Transferred, Addressed, Capacity, F.Offset;
    if moved > 0 {
      var all := Addressed(r.payload);
      StoreFrame(v.mem, all[..moved], served.disk[F.Offset(r)..F.Offset(r) + moved]);
      forall a | a in others && a in v.mem ensures a in v'.mem && v'.mem[a] == v.mem[a] {
        assert a in all[..moved] ==> a in Buffers(r);
      }
    }
  }

  lemma TransferDelivers(x: Setup, r: F.Request, v: World, v': World, served: Served)
    requires Transferred(x, r, v, v', served) && F.BuffersApart(r)
    ensures HoldsData(r, v'.mem, served)
  {
    var moved := TransferWrites(x, r, v, v', served);
    F.BuffersSplit(r);
    hide Transferred, Addressed, Capacity, F.Offset, F.BuffersApart;
    if moved > 0 {
      var bytes := served.disk[F.Offset(r)..F.Offset(r) + moved];
      GatherScattered(v.mem, r.payload, bytes);
      assert moved == Capacity(r.payload) ==> bytes + Gathered(v.mem, r.payload)[moved..] == bytes;
    } else if Capacity(r.payload) == 0 {
      assert Gathered(v.mem, r.payload) == [];
    }
  }

  lemma StatusKeeps(r: F.Request, mem: Memory, status: byte, others: seq<int>)
    requires Disjoint(Buffers(r), others)
    ensures Kept(mem, F.WithStatus(mem, r, status), others)
  {
    StoreSpan(mem, r.status.gpa, [status]);
    assert Buffers(r)[|Addressed(r.payload)|] == r.status.gpa;
  }

  lemma StatusStands(r: F.Request, mem: Memory, served: Served)
    requires F.BuffersApart(r) && HoldsData(r, mem, served)
    ensures var mem' := F.WithStatus(mem, r, served.completion.status);
      HoldsData(r, mem', served) && HoldsStatus(r, mem', served)
  {
    F.BuffersSplit(r);
    var mem', all := F.WithStatus(mem, r, served.completion.status), Addressed(r.payload);
    StoreSpan(mem, r.status.gpa, [served.completion.status]);
    forall i | 0 <= i < |all| ensures all[i] in mem' && mem'[all[i]] == mem[all[i]] {
      var a := all[i];
      assert a in all && a in mem;
    }
    assert Load(mem', all) == Load(mem, all);
  }

  // where a chain's place comes from

  lemma ThroughSelect(s: State, s': State, step: Select, w: Work, length: u32)
    requires SelectNext(s, s', step) && Through(s', w, length)
    ensures Through(s, w, length)
  {
  }

  lemma ThroughOutside(s: State, s': State, step: Outside, w: Work, length: u32)
    requires OutsideNext(s, s', step) && Through(s', w, length) && step != Worker(w, StatusWritten(length))
    ensures Through(s, w, length)
  {
  }

  lemma ThroughElsewhere(s: State, s': State, step: Step, w: Work, length: u32)
    requires Next(s, s', step) && Through(s', w, length) && !step.Selects? && !step.Outer?
    ensures Through(s, w, length)
  {
    hide Q.DriverNext, Q.Peek, Q.ReadHead, Q.CommitPop, Q.Fail, Q.Begin, Q.StoreId, Q.StoreLength, Q.Bump, Q.StoreIndex;
  }

  lemma ThroughStep(s: State, s': State, step: Step, w: Work, length: u32)
    requires Next(s, s', step) && Through(s', w, length) && step != Outer(Worker(w, StatusWritten(length)))
    ensures Through(s, w, length)
  {
    if step.Selects? {
      ThroughSelect(s, s', step.e, w, length);
    } else if step.Outer? {
      ThroughOutside(s, s', step.o, w, length);
    } else {
      ThroughElsewhere(s, s', step, w, length);
    }
  }

  lemma ThroughPlaced(s: State, w: Work, length: u32)
    requires Accounted(s) && Through(s, w, length)
    ensures w in s.ledger.place && (s.ledger.place[w] == Held || s.ledger.place[w] == Running(StatusWritten(length)))
  {
  }

  lemma WorkerMoves(s: State, s': State, step: Step)
    requires Next(s, s', step)
    ensures step.Outer? && step.o.Worker? ==>
      && s'.ledger.Is(step.o.w, Running(step.o.phase)) && step.o.w in s.ledger.place
      && (step.o.phase.StatusWritten? ==> s.ledger.Is(step.o.w, Running(DataMoved)))
  {
  }

  /** A chain other than the one a worker is writing for keeps its bytes and its record. */
  lemma OthersKept(x: Setup, s: State, s': State, step: Step, v: World, v': World, w: Work)
    requires Next(s, s', step) && OwnBuffers(x, s) && w in s.ledger.place && WorldNext(x, s, step, v, v')
    requires !(step.Outer? && step.o.Worker? && step.o.w == w)
    ensures Kept(v.mem, v'.mem, Buffers(x.requests(w)))
    ensures w in v.record ==> w in v'.record && v'.record[w] == v.record[w]
  {
    WorkerMoves(s, s', step);
    hide Next, Transferred, Buffers, Kept, Disjoint;
    if step.Outer? && step.o.Worker? && step.o.phase.DataMoved? {
      var mover := step.o.w;
      var served :| Transferred(x, x.requests(mover), v, v', served) && v'.record == v.record[mover := served];
      TransferKeeps(x, x.requests(mover), v, v', served, Buffers(x.requests(w)));
    } else if step.Outer? && step.o.Worker? && step.o.phase.StatusWritten? {
      StatusKeeps(x.requests(step.o.w), v.mem, v.record[step.o.w].completion.status, Buffers(x.requests(w)));
    }
  }

  lemma ThereKept(x: Setup, s: State, s': State, step: Step, v: World, v': World, w: Work)
    requires Next(s, s', step) && OwnBuffers(x, s) && w in s.ledger.place && WorldNext(x, s, step, v, v')
    requires !(step.Outer? && step.o.Worker? && step.o.w == w) && DataThere(x, v, w)
    ensures DataThere(x, v', w)
    ensures forall length :: AllThere(x, v, w, length) ==> AllThere(x, v', w, length)
  {
    OthersKept(x, s, s', step, v, v', w);
    hide Next, OwnBuffers, WorldNext, HoldsData, HoldsStatus, Kept, Buffers;
    KeptHolds(x.requests(w), v.mem, v'.mem, v.record[w]);
  }

  lemma OwnApart(x: Setup, s: State, w: Work)
    requires OwnBuffers(x, s) && w in s.ledger.place
    ensures F.BuffersApart(x.requests(w))
  {
  }

  lemma DataStep(x: Setup, s: State, s': State, step: Step, v: World, v': World, w: Work)
    requires Next(s, s', step) && OwnBuffers(x, s) && WorldNext(x, s, step, v, v')
    requires InPlace(x, s, v, w) && s'.ledger.Is(w, Running(DataMoved))
    ensures DataThere(x, v', w)
  {
    hide Next, OwnBuffers, WorldNext, HoldsData, Transferred;
    WorkerMoves(s, s', step);
    if step == Outer(Worker(w, DataMoved)) {
      OwnApart(x, s, w);
      RecordMade(x, s, v, v', w);
      TransferDelivers(x, x.requests(w), v, v', v'.record[w]);
    } else {
      MovedStep(s, s', step, w);
      hide DataThere;
      ThereKept(x, s, s', step, v, v', w);
    }
  }

  lemma StatusStep(x: Setup, s: State, s': State, step: Step, v: World, v': World, w: Work, length: u32)
    requires Accounted(s) && Next(s, s', step) && OwnBuffers(x, s) && WorldNext(x, s, step, v, v')
    requires InPlace(x, s, v, w) && Through(s', w, length)
    requires s'.ledger.Is(w, Held) || s'.ledger.Is(w, Running(StatusWritten(length)))
    ensures AllThere(x, v', w, length)
  {
    WorkerMoves(s, s', step);
    if step == Outer(Worker(w, StatusWritten(length))) {
      assert F.BuffersApart(x.requests(w));
      hide Next, OwnBuffers, HoldsData, HoldsStatus, Kept, Buffers, Through, Accounted;
      StatusStands(x.requests(w), v.mem, v.record[w]);
    } else {
      ThroughStep(s, s', step, w, length);
      ThroughPlaced(s, w, length);
      hide Next, OwnBuffers, WorldNext, DataThere, Accounted;
      ThereKept(x, s, s', step, v, v', w);
    }
  }

  /** What one step keeps, for one chain. */
  lemma InPlaceKept(x: Setup, s: State, s': State, step: Step, v: World, v': World, w: Work)
    requires Inv(s) && Inv(s') && Next(s, s', step) && OwnBuffers(x, s) && WorldNext(x, s, step, v, v')
    requires InPlace(x, s, v, w)
    ensures InPlace(x, s', v', w)
  {
    hide QueuesSound, Staged, Flags, Ordered, Doorbell, StopSeen, OwnBuffers, Exact, WorldNext, DataThere, AllThere;
    if s'.ledger.Is(w, Running(DataMoved)) {
      DataStep(x, s, s', step, v, v', w);
    }
    forall length | Through(s', w, length) ensures AllThere(x, v', w, length) {
      ThroughPlaced(s', w, length);
      StatusStep(x, s, s', step, v, v', w, length);
    }
  }

  lemma WorldStep(x: Setup, states: seq<State>, steps: seq<Step>, worlds: seq<World>, i: nat)
    requires DataRun(x, states, steps, worlds) && i < |states|
    ensures Run(states, steps) && |worlds| == |states| == |steps| + 1 && OwnBuffers(x, states[i])
    ensures i > 0 ==> WorldNext(x, states[i - 1], steps[i - 1], worlds[i - 1], worlds[i])
  {
    assert i > 0 ==> WorldNext(x, states[i - 1], steps[i - 1], worlds[i - 1], worlds[i - 1 + 1]);
  }

  lemma InPlaceAtFirst(x: Setup, states: seq<State>, steps: seq<Step>, worlds: seq<World>, w: Work)
    requires DataRun(x, states, steps, worlds)
    ensures InPlace(x, states[0], worlds[0], w)
  {
    hide Path, OwnBuffers, WorldNext, DataThere, AllThere;
    assert Init(states[0]);
  }

  lemma {:induction false} DataInPlace(x: Setup, states: seq<State>, steps: seq<Step>, worlds: seq<World>,
                                       i: nat, w: Work)
    requires DataRun(x, states, steps, worlds) && i < |states|
    ensures |worlds| == |states| && InPlace(x, states[i], worlds[i], w)
    decreases i
  {
    hide DataRun, Run, Path, Inv, OwnBuffers, WorldNext, Next, InPlace;
    WorldStep(x, states, steps, worlds, i);
    if i == 0 {
      InPlaceAtFirst(x, states, steps, worlds, w);
    } else {
      DataInPlace(x, states, steps, worlds, i - 1, w);
      RunInv(states, steps, i - 1);
      RunInv(states, steps, i);
      RunLength(states, steps);
      PathStep(states, steps, i);
      WorldStep(x, states, steps, worlds, i - 1);
      InPlaceKept(x, states[i - 1], states[i], steps[i - 1], worlds[i - 1], worlds[i], w);
    }
  }

  // ---------------------------------------------------------- the log of transfers

  /** The disk is the image after the logged transfers, in the order of their steps. */
  ghost predicate Logged(x: Setup, v: World) {
    F.AllSound(v.log) && v.disk == F.DiskAfter(x.device, x.image, v.log)
  }

  /** What a transfer came to is determined by what it found and what it left. */
  lemma TransferUnique(x: Setup, r: F.Request, v: World, v': World, a: Served, b: Served)
    requires Transferred(x, r, v, v', a) && Transferred(x, r, v, v', b)
    ensures a == b
  {
    var e :| Transfers(x, r, v, v', e, a);
    var f :| Transfers(x, r, v, v', f, b);
    hide F.Execute, F.Sound;
    assert v'.log[|v.log|] == e && v'.log[|v.log|] == f;
  }

  lemma LoggedTransfer(x: Setup, r: F.Request, v: World, v': World, served: Served)
    requires Logged(x, v) && Transferred(x, r, v, v', served)
    ensures Logged(x, v') && v.log <= v'.log
  {
    var e :| Transfers(x, r, v, v', e, served);
    hide F.Execute, F.Sound;
    assert v'.log[..|v'.log| - 1] == v.log;
  }

  lemma LoggedStep(x: Setup, s: State, step: Step, v: World, v': World)
    requires Logged(x, v) && WorldNext(x, s, step, v, v')
    ensures Logged(x, v') && v.log <= v'.log
  {
    hide Logged, Transferred;
    if step.Outer? && step.o.Worker? && step.o.phase.DataMoved? {
      var w := step.o.w;
      var served :| Transferred(x, x.requests(w), v, v', served) && v'.record == v.record[w := served];
      LoggedTransfer(x, x.requests(w), v, v', served);
    } else {
      SameLog(x, v, v');
    }
  }

  lemma SameLog(x: Setup, v: World, v': World)
    requires Logged(x, v) && v'.log == v.log && v'.disk == v.disk
    ensures Logged(x, v')
  {
  }

  /** At every point the disk is a flat disk after the transfers logged, and the log only grows. */
  lemma {:induction false} DiskIsLogged(x: Setup, states: seq<State>, steps: seq<Step>, worlds: seq<World>,
                                        i: nat, j: nat)
    requires DataRun(x, states, steps, worlds) && i <= j < |states|
    ensures |worlds| == |states| && Logged(x, worlds[j]) && worlds[i].log <= worlds[j].log
    decreases j
  {
    WorldStep(x, states, steps, worlds, j);
    if j > 0 {
      hide DataRun, WorldNext, Logged;
      DiskIsLogged(x, states, steps, worlds, if i < j then i else j - 1, j - 1);
      LoggedStep(x, states[j - 1], steps[j - 1], worlds[j - 1], worlds[j]);
    }
  }

  /** What is on record for a chain was put there by its worker's transfer. */
  lemma {:induction false} TransferFound(x: Setup, states: seq<State>, steps: seq<Step>, worlds: seq<World>,
                                         i: nat, w: Work)
    returns (d: nat)
    requires DataRun(x, states, steps, worlds) && i < |states|
    requires |worlds| == |states| && w in worlds[i].record
    ensures |states| == |steps| + 1 && d < i && steps[d] == Outer(Worker(w, DataMoved))
    ensures Transferred(x, x.requests(w), worlds[d], worlds[d + 1], worlds[i].record[w])
    decreases i
  {
    hide DataRun, Run, Transferred, WorldNext, OwnBuffers;
    WorldStep(x, states, steps, worlds, i);
    NothingRecorded(x, states, steps, worlds);
    if steps[i - 1] == Outer(Worker(w, DataMoved)) {
      RecordMade(x, states[i - 1], worlds[i - 1], worlds[i], w);
      d := i - 1;
    } else {
      RecordKept(x, states[i - 1], steps[i - 1], worlds[i - 1], worlds[i], w);
      d := TransferFound(x, states, steps, worlds, i - 1, w);
    }
  }

  lemma NothingRecorded(x: Setup, states: seq<State>, steps: seq<Step>, worlds: seq<World>)
    requires DataRun(x, states, steps, worlds)
    ensures worlds[0].record == map[]
  {
  }

  lemma RecordMade(x: Setup, s: State, v: World, v': World, w: Work)
    requires WorldNext(x, s, Outer(Worker(w, DataMoved)), v, v')
    ensures w in v'.record && Transferred(x, x.requests(w), v, v', v'.record[w])
  {
    hide Transferred;
  }

  lemma RecordKept(x: Setup, s: State, step: Step, v: World, v': World, w: Work)
    requires WorldNext(x, s, step, v, v') && step != Outer(Worker(w, DataMoved)) && w in v'.record
    ensures w in v.record && v.record[w] == v'.record[w]
  {
  }

  // ----------------------------------------------------------------- theorem

  /** Step `j` makes the used index cover entry `k` of queue `q`. */
  ghost predicate Publishes(states: seq<State>, steps: seq<Step>, j: nat, q: nat, k: nat, c: Q.Completion)
    requires |states| == |steps| + 1
  {
    && j < |steps| && steps[j].Completes? && steps[j].f.StoreIndex?
    && states[j].pc.Completing? && states[j].pc.work == Work(q, c.ticket) && states[j].pc.length == c.length
    && q < |states[j + 1].queues| && |states[j + 1].queues[q].completed| == k + 1
    && states[j + 1].queues[q].completed[k] == c
  }

  /** Entry `k` of queue `q` was there before, or this step of `complete` made the index cover it. */
  ghost predicate CompletedBy(s: State, s': State, step: Step, q: nat, k: nat)
    requires q < |s.queues| == |s'.queues| && k < |s'.queues[q].completed|
  {
    var c := s'.queues[q].completed[k];
    || (k < |s.queues[q].completed| && s.queues[q].completed[k] == c)
    || (&& step.Completes? && step.f.StoreIndex? && |s'.queues[q].completed| == k + 1
        && s.pc.Completing? && s.pc.work == Work(q, c.ticket) && s.pc.length == c.length)
  }

  lemma CompletedStep(s: State, s': State, step: Step, q: nat, k: nat)
    requires Staged(s) && Next(s, s', step) && q < |s.queues| == |s'.queues| && k < |s'.queues[q].completed|
    ensures CompletedBy(s, s', step, q, k)
  {
    if step.Completes? {
      FinishedStep(s, s', step.f, q, k);
    } else {
      hide Staged;
      if step.Drives? {
        DriverKeepsDevice(s.queues[step.q], step.next, step.event);
        hide Q.DriverNext;
      }
    }
  }

  lemma FinishedStep(s: State, s': State, step: Complete, q: nat, k: nat)
    requires Staged(s) && CompleteNext(s, s', step) && q < |s.queues| == |s'.queues| && k < |s'.queues[q].completed|
    ensures CompletedBy(s, s', Completes(step), q, k)
  {
    var p := s.pc.work.queue;
    assert q != p ==> s'.queues[q] == s.queues[q];
    if step.StoreIndex? && q == p {
      var c := s.queues[p].device.c;
      assert s'.queues[q].completed == s.queues[q].completed + [c];
      assert CompletingStage(s.queues[p].device, s.pc.work.ticket, s.pc.length);
    }
  }

  lemma NothingAtFirst(states: seq<State>, steps: seq<Step>, q: nat)
    requires Run(states, steps)
    ensures q < |states[0].queues| ==> states[0].queues[q].completed == []
  {
    assert q < |states[0].queues| ==> Q.Init(states[0].queues[q]);
  }

  lemma {:induction false} PublicationFound(states: seq<State>, steps: seq<Step>, i: nat, q: nat, k: nat)
    returns (j: nat)
    requires Run(states, steps) && i < |states| && q < |states[i].queues| && k < |states[i].queues[q].completed|
    ensures |states| == |steps| + 1 && j < i && Publishes(states, steps, j, q, k, states[i].queues[q].completed[k])
    decreases i
  {
    hide Inv, Next, Staged, Run, Path, Init;
    RunLength(states, steps);
    PathStep(states, steps, i);
    SameQueueCount(states, steps, i);
    NothingAtFirst(states, steps, q);
    SameQueueCount(states, steps, i - 1);
    StagedAt(states, steps, i - 1);
    CompletedStep(states[i - 1], states[i], steps[i - 1], q, k);
    var before := states[i - 1].queues[q].completed;
    if k < |before| && before[k] == states[i].queues[q].completed[k] {
      j := PublicationFound(states, steps, i - 1, q, k);
    } else {
      j := i - 1;
    }
  }

  lemma StagedAt(states: seq<State>, steps: seq<Step>, i: nat)
    requires Run(states, steps) && i < |states|
    ensures Staged(states[i])
  {
    RunInv(states, steps, i);
  }

  /**
   Every used entry the index covers was published by a step after which the
   request's data and status byte stood in guest memory: those of the transfer
   its worker made, at an earlier step, on the disk as it then was, with the
   length that transfer came to. The guest that sees the entry finds them.
   */
  lemma PublishedBytes(x: Setup, states: seq<State>, steps: seq<Step>, worlds: seq<World>, i: nat, q: nat, k: nat)
    returns (d: nat, j: nat, served: Served)
    requires DataRun(x, states, steps, worlds) && i < |states|
    requires q < |states[i].queues| && k < |states[i].queues[q].completed|
    ensures |worlds| == |states| == |steps| + 1 && d < j < i
    ensures Publishes(states, steps, j, q, k, states[i].queues[q].completed[k])
    ensures var c := states[i].queues[q].completed[k]; var w := Work(q, c.ticket); var r := x.requests(w);
      && steps[d] == Outer(Worker(w, DataMoved)) && Transferred(x, r, worlds[d], worlds[d + 1], served)
      && HoldsData(r, worlds[j + 1].mem, served) && HoldsStatus(r, worlds[j + 1].mem, served)
      && c.length == served.completion.usedLength && F.BuffersApart(r)
  {
    var c := states[i].queues[q].completed[k];
    var w := Work(q, c.ticket);
    WorldStep(x, states, steps, worlds, 0);
    j := PublicationFound(states, steps, i, q, k);
    hide DataRun, Run, HoldsData, HoldsStatus, Transferred, Kept, Buffers;
    DataInPlace(x, states, steps, worlds, j, w);
    assert Through(states[j], w, c.length);
    assert AllThere(x, worlds[j], w, c.length);
    served := worlds[j].record[w];
    d := TransferFound(x, states, steps, worlds, j, w);
    PlacedAt(states, steps, j, w, c.length);
    WorldStep(x, states, steps, worlds, j);
    WorldStep(x, states, steps, worlds, j + 1);
    KeptHolds(x.requests(w), worlds[j].mem, worlds[j + 1].mem, served);
  }

  /**
   A published read is linearized at its transfer: where its status byte says OK,
   its buffers hold, byte for byte, what the latest of the transfers before it
   put in its disk window, in whatever order requests were popped and completed.
   */
  lemma PublishedRead(x: Setup, states: seq<State>, steps: seq<Step>, worlds: seq<World>, i: nat, q: nat, k: nat)
    returns (d: nat, j: nat)
    requires DataRun(x, states, steps, worlds) && i < |states|
    requires q < |states[i].queues| && k < |states[i].queues[q].completed|
    ensures |worlds| == |states| == |steps| + 1 && d < j < i && F.AllSound(worlds[d].log)
    ensures Publishes(states, steps, j, q, k, states[i].queues[q].completed[k])
    ensures var c := states[i].queues[q].completed[k]; var w := Work(q, c.ticket); var r := x.requests(w);
      && var mem := worlds[j + 1].mem;
      && steps[d] == Outer(Worker(w, DataMoved)) && r.status.gpa in mem && Covers(mem, Addressed(r.payload))
      && (r.kind.In? && mem[r.status.gpa] == F.STATUS_OK ==>
          && F.Offset(r) + Capacity(r.payload) <= |x.image| && |Gathered(mem, r.payload)| == Capacity(r.payload)
          && forall p :: 0 <= p < Capacity(r.payload) ==>
               Gathered(mem, r.payload)[p] == F.LastWritten(x.device, x.image, worlds[d].log, F.Offset(r) + p))
  {
    var served;
    d, j, served := PublishedBytes(x, states, steps, worlds, i, q, k);
    DiskIsLogged(x, states, steps, worlds, d, d);
    var r := x.requests(Work(q, states[i].queues[q].completed[k].ticket));
    hide DataRun, Publishes, F.LastWritten, F.Execute;
    assert served.disk == worlds[d].disk;
    F.DiskHoldsLastWrites(x.device, x.image, worlds[d].log);
    CapacityIsLength(r.payload);
  }

  /** The disk window of `r`, and nothing else on disk, became what its buffers held. */
  ghost predicate Replaced(r: F.Request, v: World, v': World) {
    var start, end := F.Offset(r), F.Offset(r) + Capacity(r.payload);
    && end <= |v.disk| == |v'.disk| && Covers(v.mem, Addressed(r.payload))
    && v'.disk[start..end] == Gathered(v.mem, r.payload)
    && v'.disk[..start] == v.disk[..start] && v'.disk[end..] == v.disk[end..]
  }

  lemma TransferReplaces(x: Setup, r: F.Request, v: World, v': World, served: Served)
    requires Transferred(x, r, v, v', served)
    ensures v.log < v'.log
    ensures r.kind.Out? && served.completion.status == F.STATUS_OK ==> !x.device.readOnly && Replaced(r, v, v')
  {
    var e :| Transfers(x, r, v, v', e, served);
    hide F.Execute;
    if r.kind.Out? && served.completion.status == F.STATUS_OK {
      F.WriteReplaces(x.device, v.disk, v.mem, r, e.iovecs, e.host);
    }
  }

  /**
   A published write with status OK has replaced its disk window by what its
   buffers held when it was transferred, and every later transfer finds it in
   the log.
   */
  lemma PublishedWrite(x: Setup, states: seq<State>, steps: seq<Step>, worlds: seq<World>, i: nat, q: nat, k: nat)
    returns (d: nat, j: nat)
    requires DataRun(x, states, steps, worlds) && i < |states|
    requires q < |states[i].queues| && k < |states[i].queues[q].completed|
    ensures |worlds| == |states| == |steps| + 1 && d < j < i
    ensures Publishes(states, steps, j, q, k, states[i].queues[q].completed[k])
    ensures worlds[d].log < worlds[d + 1].log <= worlds[j].log
    ensures var c := states[i].queues[q].completed[k]; var w := Work(q, c.ticket); var r := x.requests(w);
      && steps[d] == Outer(Worker(w, DataMoved)) && r.status.gpa in worlds[j + 1].mem
      && (r.kind.Out? && worlds[j + 1].mem[r.status.gpa] == F.STATUS_OK ==>
          !x.device.readOnly && Replaced(r, worlds[d], worlds[d + 1]))
  {
    hide DataRun, Publishes, Transferred, HoldsData, Replaced, Logged;
    var served;
    d, j, served := PublishedBytes(x, states, steps, worlds, i, q, k);
    DiskIsLogged(x, states, steps, worlds, d + 1, j);
    TransferReplaces(x, x.requests(Work(q, states[i].queues[q].completed[k].ticket)), worlds[d], worlds[d + 1], served);
  }

  lemma PlacedAt(states: seq<State>, steps: seq<Step>, j: nat, w: Work, length: u32)
    requires Run(states, steps) && j < |states| && Through(states[j], w, length)
    ensures w in states[j].ledger.place
  {
    RunInv(states, steps, j);
    ThroughPlaced(states[j], w, length);
  }
}
