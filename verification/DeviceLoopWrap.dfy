/**
 What the wrapping attempt counter costs the device loop: for every number of
 queues that does not divide 2^64 there is a run that loses a doorbell, so the
 guarantees over all runs hold exactly for the numbers that do.
 */
module DeviceLoopWrap {
  import opened Primitives
  import opened Arithmetic
  import opened RoundRobin
  import opened DeviceLoop
  import opened DeviceLoopInvariant
  import opened DeviceLoopTheorems
  import Q = QueueProtocol

  // ------------------------------------------------------------ building runs

  ghost function End(states: seq<State>): State
    requires states != []
  {
    states[|states| - 1]
  }

  lemma Join(p: seq<State>, a: seq<Step>, r: seq<State>, b: seq<Step>) returns (states: seq<State>, steps: seq<Step>)
    requires Path(p, a) && Path(r, b) && End(p) == r[0]
    ensures Path(states, steps) && states[0] == p[0] && End(states) == End(r)
    ensures states == p + r[1..]
  {
    hide Next;
    states, steps := p + r[1..], a + b;
    forall i | 0 <= i < |steps| ensures Next(states[i], states[i + 1], steps[i]) {
      assert i < |a| ==> Next(p[i], p[i + 1], a[i]);
      assert i >= |a| ==> Next(r[i - |a|], r[i - |a| + 1], b[i - |a|]);
    }
  }

  /** Every state of the path has these queues. */
  ghost predicate Still(states: seq<State>, queues: seq<Q.Queue>) {
    forall i :: 0 <= i < |states| ==> states[i].queues == queues
  }

  /** Nothing in flight, nobody stopping, no permit. */
  ghost predicate Calm(s: State) {
    && |s.queues| > 0 && !s.scan && !s.notice.down && !s.notice.permit
    && s.ledger.place == map[]
  }

  lemma CalmPending(s: State)
    requires Calm(s)
    ensures s.ledger.Pending() == {}
  {
  }

  /** From the top of the loop to sleep. */
  lemma FallAsleep(s: State) returns (states: seq<State>, steps: seq<Step>)
    requires Calm(s) && s.pc == Top
    ensures Path(states, steps) && states[0] == s && End(states) == s.(pc := Idle(No)) && Still(states, s.queues)
  {
    CalmPending(s);
    var s1, s2, s3 := s.(pc := Creating), s.(pc := Rechecking(false)), s.(pc := Polling(false));
    states := [s, s1, s2, s3, s.(pc := Idle(No))];
    steps := [Parks(Test), Parks(Create), Parks(Recheck), Parks(Poll)];
  }

  /** A look at this queue finds it empty. */
  ghost predicate LooksEmpty(q: Q.Queue) {
    Q.Peek(q, q, Q.Empty)
  }

  /** The attempts from `from` up to `to` find every queue they look at empty. */
  ghost predicate AllLookEmpty(queues: seq<Q.Queue>, from: nat, to: nat)
    requires |queues| > 0
  {
    forall i: nat :: from <= i < to ==> LooksEmpty(queues[Visited(i, |queues|)])
  }

  /** The rest of a scan that finds every queue it looks at empty. */
  lemma {:induction false} FruitlessScan(s: State, tried: nat) returns (states: seq<State>, steps: seq<Step>)
    requires s.pc == Scanning(tried) && tried < |s.queues|
    requires AllLookEmpty(s.queues, s.attempts, s.attempts + (|s.queues| - tried))
    ensures Path(states, steps) && states[0] == s && Still(states, s.queues)
    ensures End(states) == s.(attempts := s.attempts + (|s.queues| - tried), pc := AfterScan)
    decreases |s.queues| - tried
  {
    var n := |s.queues|;
    var v := Visited(s.attempts, n);
    assert LooksEmpty(s.queues[v]);
    var t := s.(attempts := s.attempts + 1, pc := if tried + 1 == n then AfterScan else Scanning(tried + 1));
    assert s.queues[v := s.queues[v]] == s.queues;
    states, steps := [s, t], [Scans(Attempt(s.queues[v], Q.Empty))];
    assert Next(s, t, steps[0]);
    if tried + 1 < n {
      var more, after := FruitlessScan(t, tried + 1);
      states, steps := Join(states, steps, more, after);
    }
  }

  /** A kick wakes the sleeping loop, which scans once in vain and sleeps again. */
  lemma FruitlessKick(s: State, q: nat) returns (states: seq<State>, steps: seq<Step>)
    requires Calm(s) && s.pc == Idle(No)
    requires AllLookEmpty(s.queues, s.attempts, s.attempts + |s.queues|)
    ensures Path(states, steps) && states[0] == s && Still(states, s.queues)
    ensures End(states) == s.(attempts := s.attempts + |s.queues|, notice := s.notice.(owed := s.notice.owed - {q}))
  {
    CalmPending(s);
    var k := s.(notice := s.notice.(owed := s.notice.owed - {q}), pc := Idle(One));
    var w := k.(scan := true, pc := WhileTest);
    var c := w.(pc := Scanning(0));
    states, steps := [s, k, w, c], [Outer(Kick(q)), Parks(Resume), Scans(TestWhile)];
    assert Path(states, steps);
    var e := c.(attempts := c.attempts + |c.queues|, pc := AfterScan);
    var t := e.(scan := false, pc := Top);
    var last, end := [e, t], [Scans(EndScan)];
    assert Path(last, end);
    hide Path, LooksEmpty, Visited;
    var more, after := FruitlessScan(c, 0);
    states, steps := Join(states, steps, more, after);
    states, steps := Join(states, steps, last, end);
    more, after := FallAsleep(t);
    states, steps := Join(states, steps, more, after);
  }

  /** As many such rounds as one likes. */
  lemma {:induction false} FruitlessRounds(s: State, rounds: nat) returns (states: seq<State>, steps: seq<Step>)
    requires Calm(s) && s.pc == Idle(No) && s.notice.owed == {}
    requires forall q :: 0 <= q < |s.queues| ==> LooksEmpty(s.queues[q])
    ensures Path(states, steps) && states[0] == s
    ensures End(states) == s.(attempts := s.attempts + rounds * |s.queues|)
    decreases rounds
  {
    if rounds == 0 {
      states, steps := [s], [];
    } else {
      states, steps := FruitlessRounds(s, rounds - 1);
      var more, after := FruitlessKick(End(states), 0);
      states, steps := Join(states, steps, more, after);
      Distribute(rounds - 1, 1, |s.queues|);
    }
  }

  /** A driver publishes one head to queue `q`. */
  lemma PublishOne(s: State, q: nat) returns (states: seq<State>, steps: seq<Step>, next: Q.Queue)
    requires q < |s.queues| && Q.Init(s.queues[q])
    ensures Path(states, steps) && states[0] == s
    ensures End(states) == s.(queues := s.queues[q := next], notice := s.notice.(owed := s.notice.owed + {q}))
    ensures HasUnpopped(next) && next.popped == 0
  {
    var was := s.queues[q];
    var written;
    written, next := FirstHead(was);
    var t := s.(queues := s.queues[q := written]);
    var u := s.(queues := s.queues[q := next], notice := s.notice.(owed := s.notice.owed + {q}));
    hide Q.DriverNext, Q.Init;
    assert DriveNext(s, t, q, written, Q.Internal);
    assert t.queues[q] == written && t.queues[q := next] == u.queues;
    assert DriveNext(t, u, q, next, Q.Published([0]));
    states, steps := [s, t, u], [Drives(q, written, Q.Internal), Drives(q, next, Q.Published([0]))];
  }

  /** A driver's first head on a fresh queue: written, then published. */
  lemma FirstHead(q: Q.Queue) returns (written: Q.Queue, next: Q.Queue)
    requires Q.Init(q)
    ensures Q.DriverNext(q, written, Q.Internal) && Q.DriverNext(written, next, Q.Published([0]))
    ensures HasUnpopped(next) && next.popped == 0
  {
    hide PowerOfTwo;
    SmallMod(q.size);
    written := q.(driver := Q.Staged([0]), rings := q.rings.(avail := q.rings.avail[0 := 0]));
    next := written.(driver := Q.Staged([]), rings := written.rings.(availIndex := 1), published := [0]);
    assert Q.WriteEntry(q, written, 0) by {
      assert Q.NextEntry(q) == 0 && q.driver.heads + [0] == [0];
    }
    assert Q.Publish(written, next) by {
      assert written.published + [0] == [0];
    }
    hide Q.WriteEntry, Q.Publish, Q.Init;
  }

  lemma SmallMod(size: nat)
    requires size > 0
    ensures 0 % size == 0 && 1 % U16_LIMIT == 1
  {
  }

  // --------------------------------------------------------- the lost doorbell

  /** Asleep with entries waiting in `q` that nobody will kick for. */
  predicate Lost(s: State, q: nat) {
    && Asleep(s) && !AwaitsCompletion(s)
    && q < |s.queues| && HasUnpopped(s.queues[q]) && q !in s.notice.owed
  }

  /** The rounds of `n` attempts reach one that straddles the wrap and misses some queue. */
  lemma MissedQueue(n: nat) returns (rounds: nat, q: nat)
    requires 0 < n < U64_LIMIT && U64_LIMIT % n != 0
    ensures q < n && forall i: nat :: rounds * n <= i < rounds * n + n ==> Visited(i, n) != q
  {
    rounds := U64_LIMIT / n;
    var start := rounds * n;
    assert start < U64_LIMIT < start + n;
    assert !Fair(start, n);
    WindowVisitsAll(start, n);
    var missed: nat :| missed < n && !Visits(start, n, missed);
    q := missed;
  }

  /** A run up to where `q` alone has an entry and its driver is about to kick. */
  lemma AboutToKick(s: State, rounds: nat, q: nat) returns (states: seq<State>, steps: seq<Step>, next: Q.Queue)
    requires Init(s) && q < |s.queues|
    ensures Run(states, steps) && states[0] == s && HasUnpopped(next) && next.popped == 0
    ensures var n := |s.queues|;
      End(states) == s.(pc := Idle(No), attempts := rounds * n, queues := s.queues[q := next],
                        notice := s.notice.(owed := {q}))
  {
    var more, after;
    states, steps := FallAsleep(s);
    forall p | 0 <= p < |s.queues| ensures LooksEmpty(s.queues[p]) {
      assert Q.Init(s.queues[p]);
    }
    hide Path, Q.Init, LooksEmpty;
    more, after := FruitlessRounds(End(states), rounds);
    states, steps := Join(states, steps, more, after);
    more, after, next := PublishOne(End(states), q);
    states, steps := Join(states, steps, more, after);
  }

  /**
   For every number of queues that does not divide 2^64 some run loses a
   doorbell: from state `i` on an entry waits in `q`, its driver kicks, a whole
   scan passes it over, and the loop goes to sleep.
   */
  lemma DoorbellLost(s: State) returns (states: seq<State>, steps: seq<Step>, i: nat, q: nat)
    requires Init(s) && U64_LIMIT % |s.queues| != 0
    ensures Run(states, steps) && states[0] == s && i < |states|
    ensures forall m :: i <= m < |states| ==> WaitingAt(states[m], q, 0)
    ensures Lost(End(states), q)
    ensures End(states).attempts == states[i].attempts + |states[i].queues| && !Served(End(states), q)
  {
    var n := |s.queues|;
    var rounds, next;
    rounds, q := MissedQueue(n);
    states, steps, next := AboutToKick(s, rounds, q);
    i := |states| - 1;
    var waiting := End(states);
    forall k: nat | rounds * n <= k < rounds * n + n ensures LooksEmpty(waiting.queues[Visited(k, n)]) {
      assert Q.Init(s.queues[Visited(k, n)]);
    }
    hide Path, Q.Init, LooksEmpty;
    var more, after := FruitlessKick(waiting, q);
    var joined, all := Join(states, steps, more, after);
    forall m | i <= m < |joined| ensures WaitingAt(joined[m], q, 0) {
      assert m > i ==> joined[m] == more[m - i];
    }
    states, steps := joined, all;
  }

  /** No run from `s` loses a doorbell. */
  ghost predicate NeverLost(s: State) {
    forall states, steps, i, q: nat ::
      Run(states, steps) && states[0] == s && 0 <= i < |states| ==> !Lost(states[i], q)
  }

  /** The guarantee over all runs holds exactly for the numbers of queues that divide 2^64. */
  lemma NeverLostIffDivides(s: State)
    requires Init(s)
    ensures NeverLost(s) <==> U64_LIMIT % |s.queues| == 0
  {
    if U64_LIMIT % |s.queues| == 0 {
      forall states, steps, i, q: nat | Run(states, steps) && states[0] == s && 0 <= i < |states|
        ensures !Lost(states[i], q)
      {
        SameQueueCount(states, steps, i);
        if Lost(states[i], q) {
          NoLostDoorbell(states, steps, i, q);
        }
      }
    } else {
      var states, steps, i, q := DoorbellLost(s);
      assert Lost(states[|states| - 1], q);
    }
  }

  /** In no run from `s` is a waiting queue passed over for longer than the bypass bound. */
  ghost predicate AlwaysBounded(s: State) {
    forall states, steps, i, j, q: nat, popped: nat ::
      Run(states, steps) && states[0] == s && 0 <= i <= j < |states| && WaitingThrough(states, i, j, q, popped) ==>
        BoundedAt(states, steps, i, j, q)
  }

  ghost predicate WaitingThrough(states: seq<State>, i: int, j: int, q: nat, popped: nat)
    requires 0 <= i <= j < |states|
  {
    forall m :: i <= m <= j ==> WaitingAt(states[m], q, popped)
  }

  ghost predicate BoundedAt(states: seq<State>, steps: seq<Step>, i: nat, j: nat, q: nat) {
    i <= j < |states| == |steps| + 1 && Bounded(states, steps, i, j, q)
  }

  lemma BypassBoundedIffDivides(s: State)
    requires Init(s)
    ensures AlwaysBounded(s) <==> U64_LIMIT % |s.queues| == 0
  {
    if U64_LIMIT % |s.queues| == 0 {
      forall states, steps, i, j, q: nat, popped: nat |
        Run(states, steps) && states[0] == s && 0 <= i <= j < |states| && WaitingThrough(states, i, j, q, popped)
        ensures BoundedAt(states, steps, i, j, q)
      {
        SameQueueCount(states, steps, i);
        BoundedBypass(states, steps, i, j, q, popped);
      }
    } else {
      var states, steps, i, q := DoorbellLost(s);
      var j := |states| - 1;
      assert WaitingThrough(states, i, j, q, 0);
      assert WaitingAt(states[i], q, 0);
      assert !Bounded(states, steps, i, j, q);
      assert !BoundedAt(states, steps, i, j, q);
    }
  }
}
