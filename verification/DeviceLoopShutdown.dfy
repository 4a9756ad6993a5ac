/** How the device loop comes to rest once `stop` has stored `down`. */
module DeviceLoopShutdown {
  import opened RoundRobin
  import opened DeviceLoop
  import opened DeviceLoopTheorems
  import Q = QueueProtocol

  /** Chains popped, and completions published, over all queues. */
  function Popped(queues: seq<Q.Queue>): nat {
    if queues == [] then 0 else Popped(queues[..|queues| - 1]) + queues[|queues| - 1].popped
  }

  function Completed(queues: seq<Q.Queue>): nat {
    if queues == [] then 0 else Completed(queues[..|queues| - 1]) + |queues[|queues| - 1].completed|
  }

  lemma {:induction false} TotalsUpdate(queues: seq<Q.Queue>, q: nat, next: Q.Queue)
    requires q < |queues|
    ensures Popped(queues[q := next]) == Popped(queues) - queues[q].popped + next.popped
    ensures Completed(queues[q := next]) == Completed(queues) - |queues[q].completed| + |next.completed|
    decreases |queues|
  {
    var front := queues[..|queues| - 1];
    if q < |front| {
      TotalsUpdate(front, q, next);
      assert queues[q := next][..|front|] == front[q := next];
    } else {
      assert queues[q := next][..|front|] == front;
    }
  }

  /** The loop is past its last look at `down` and may still pop, or publish, one chain. */
  function MayPop(s: State): nat {
    if s.pc.Scanning? || s.pc.Popping? then 1 else 0
  }

  function MayComplete(s: State): nat {
    if s.pc.Completing? then 1 else 0
  }

  /** Neither total grows by more than it may, and what it may do it does once. */
  ghost predicate Settles(s: State, s': State) {
    && s'.notice.down
    && Popped(s'.queues) + MayPop(s') <= Popped(s.queues) + MayPop(s)
    && Completed(s'.queues) + MayComplete(s') <= Completed(s.queues) + MayComplete(s)
  }

  lemma DriveSettles(s: State, s': State, q: nat, next: Q.Queue, event: Q.Label)
    requires s.notice.down && DriveNext(s, s', q, next, event)
    ensures Settles(s, s')
  {
    TotalsUpdate(s.queues, q, next);
    hide Popped, Completed;
  }

  lemma OutsideSettles(s: State, s': State, step: Outside)
    requires s.notice.down && OutsideNext(s, s', step)
    ensures Settles(s, s')
  {
    hide Popped, Completed;
  }

  lemma ParkSettles(s: State, s': State, step: Park)
    requires s.notice.down && ParkNext(s, s', step)
    ensures Settles(s, s')
  {
    hide Popped, Completed;
  }

  lemma ScanSettles(s: State, s': State, step: Scan)
    requires s.notice.down && ScanNext(s, s', step)
    ensures Settles(s, s')
  {
    if step.Attempt? {
      TotalsUpdate(s.queues, Visited(s.attempts, |s.queues|), step.next);
    }
    hide Popped, Completed, Visited, Q.Decide;
  }

  lemma PopSettles(s: State, s': State, step: Pop)
    requires s.notice.down && PopNext(s, s', step)
    ensures Settles(s, s')
  {
    TotalsUpdate(s.queues, s.pc.queue, step.next);
    hide Popped, Completed;
  }

  lemma SelectSettles(s: State, s': State, step: Select)
    requires s.notice.down && SelectNext(s, s', step)
    ensures Settles(s, s')
  {
    hide Popped, Completed;
  }

  lemma CompleteSettles(s: State, s': State, step: Complete)
    requires s.notice.down && CompleteNext(s, s', step)
    ensures Settles(s, s')
  {
    TotalsUpdate(s.queues, s.pc.work.queue, step.next);
    hide Popped, Completed;
  }

  lemma NextSettles(s: State, s': State, step: Step)
    requires s.notice.down && Next(s, s', step)
    ensures Settles(s, s')
  {
    hide Settles;
    match step
    case Drives(q, next, event) => DriveSettles(s, s', q, next, event);
    case Outer(o) => OutsideSettles(s, s', o);
    case Parks(p) => ParkSettles(s, s', p);
    case Scans(c) => ScanSettles(s, s', c);
    case Pops(d) => PopSettles(s, s', d);
    case Selects(e) => SelectSettles(s, s', e);
    case Completes(f) => CompleteSettles(s, s', f);
  }

  lemma {:induction false} SettlesForever(states: seq<State>, steps: seq<Step>, i: nat, j: nat)
    requires Path(states, steps) && i <= j < |states| && states[i].notice.down
    ensures Settles(states[i], states[j])
    decreases j
  {
    hide Path, Next, Popped, Completed;
    PathStep(states, steps, j);
    if i < j {
      SettlesForever(states, steps, i, j - 1);
      NextSettles(states[j - 1], states[j], steps[j - 1]);
    }
  }

  /**
   Once `down` is set the device takes at most one more chain and publishes at
   most one more completion, over all its queues and for ever: only those it was
   on the way to when it last looked.
   */
  lemma ComesToRest(states: seq<State>, steps: seq<Step>, i: nat, j: nat)
    requires Path(states, steps) && i <= j < |states| && states[i].notice.down
    ensures Popped(states[j].queues) <= Popped(states[i].queues) + MayPop(states[i]) <= Popped(states[i].queues) + 1
    ensures Completed(states[j].queues) <= Completed(states[i].queues) + MayComplete(states[i])
         <= Completed(states[i].queues) + 1
  {
    SettlesForever(states, steps, i, j);
  }
}
