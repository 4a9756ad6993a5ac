/**
 Leases, revocation and draining over all thread interleavings
 (src/dma.rs:115-153 and 210-221), one atomic operation per step. Atomics are
 sequentially consistent; `notify_waiters` wakes every `Notified` already created.
 */
module LeaseProtocol {

  /** Where one call of `lease`, and then the lease it returns, stands. */
  datatype Holder =
    | Arrived       // about to load `revoked`
    | Checked       // loaded false, about to increment `active`
    | Counted       // incremented, about to load `revoked` again
    | Translating   // loaded false again
    | Live          // the lease is in the caller's hands
    | Releasing     // about to decrement: retracted, failed to translate, or dropped
    | Notifying     // decremented one to zero, about to `notify_waiters`
    | Gone
  {
    /** Counted in `active`. */
    predicate Counts() {
      Counted? || Translating? || Live? || Releasing?
    }

    /** May touch guest memory now or after a later step without another check. */
    predicate Granted() {
      Translating? || Live?
    }
  }

  /** Where one call of `wait_for_drain` stands; `woken` belongs to its `Notified`. */
  datatype Waiter =
    | Watching(woken: bool)  // `Notified` created, about to load `active`
    | Parked(woken: bool)    // loaded non-zero, awaiting the `Notified`
    | Drained

  /** `safe` records that some `wait_for_drain` loaded zero after the revoke. */
  datatype State = State(
    revoked: bool, active: int,
    holders: map<nat, Holder>, waiters: map<nat, Waiter>, safe: bool)

  // ------------------------------------------------------------------- steps

  predicate Init(s: State) {
    s == State(false, 0, map[], map[], false)
  }

  predicate At(s: State, t: nat, h: Holder) {
    t in s.holders && s.holders[t] == h
  }

  function Move(s: State, t: nat, h: Holder): State {
    s.(holders := s.holders[t := h])
  }

  datatype Step =
    | Arrive(t: nat) | LoadFirst(t: nat) | Increment(t: nat) | LoadSecond(t: nat)
    | Translate(t: nat, mapped: bool) | Drop(t: nat) | Decrement(t: nat) | Notify(t: nat)
    | Revoke | Watch(w: nat) | LoadActive(w: nat)

  ghost predicate Next(s: State, s': State, step: Step) {
    match step
    case Arrive(t) => t !in s.holders && s' == Move(s, t, Arrived)
    case LoadFirst(t) => At(s, t, Arrived) && s' == Move(s, t, if s.revoked then Gone else Checked)
    case Increment(t) => At(s, t, Checked) && s' == Move(s, t, Counted).(active := s.active + 1)
    case LoadSecond(t) => At(s, t, Counted) && s' == Move(s, t, if s.revoked then Releasing else Translating)
    case Translate(t, mapped) => At(s, t, Translating) && s' == Move(s, t, if mapped then Live else Releasing)
    case Drop(t) => At(s, t, Live) && s' == Move(s, t, Releasing)
    case Decrement(t) =>
      At(s, t, Releasing)
      && s' == Move(s, t, if s.active == 1 then Notifying else Gone).(active := s.active - 1)
    case Notify(t) =>
      At(s, t, Notifying) && s' == Move(s, t, Gone).(waiters := WakeAll(s.waiters))
    case Revoke => s' == s.(revoked := true)
    case Watch(w) =>
      (w !in s.waiters || s.waiters[w] == Parked(true))
      && s' == s.(waiters := s.waiters[w := Watching(false)])
    case LoadActive(w) =>
      w in s.waiters && s.waiters[w].Watching?
      && s' == if s.active == 0
               then s.(waiters := s.waiters[w := Drained], safe := s.safe || s.revoked)
               else s.(waiters := s.waiters[w := Parked(s.waiters[w].woken)])
  }

  function Wake(w: Waiter): Waiter {
    match w
    case Watching(_) => Watching(true)
    case Parked(_) => Parked(true)
    case Drained => Drained
  }

  function WakeAll(waiters: map<nat, Waiter>): map<nat, Waiter> {
    map w | w in waiters :: Wake(waiters[w])
  }

  // --------------------------------------------------------------- invariant

  ghost function Counting(holders: map<nat, Holder>): set<nat> {
    set t | t in holders && holders[t].Counts()
  }

  /** `active` is exactly the live leases plus the calls between increment and resolution. */
  ghost predicate CountExact(s: State) {
    s.active == |Counting(s.holders)|
  }

  /** No lease is live, nor about to become live without another look at `revoked`. */
  ghost predicate NoneGranted(s: State) {
    forall t :: t in s.holders ==> !s.holders[t].Granted()
  }

  /** A waiter asleep and not woken still has someone who will wake it. */
  ghost predicate NoLostWakeup(s: State) {
    forall w :: w in s.waiters && s.waiters[w] == Parked(false) ==>
      s.active > 0 || exists t :: At(s, t, Notifying)
  }

  ghost predicate Inv(s: State) {
    CountExact(s) && NoLostWakeup(s) && (s.safe ==> s.revoked && NoneGranted(s))
  }

  lemma CountingMove(holders: map<nat, Holder>, t: nat, h: Holder)
    ensures |Counting(holders[t := h])| == |Counting(holders)|
      + (if h.Counts() then 1 else 0) - (if t in holders && holders[t].Counts() then 1 else 0)
  {
    var before, after := Counting(holders), Counting(holders[t := h]);
    assert after == if h.Counts() then before + {t} else before - {t};
    assert t in before <==> t in holders && holders[t].Counts();
  }

  lemma CountKept(s: State, s': State, step: Step)
    requires Inv(s) && Next(s, s', step)
    ensures CountExact(s')
  {
    if !step.Revoke? && !step.Watch? && !step.LoadActive? {
      var t := step.t;
      var h := s'.holders[t];
      assert s'.holders == s.holders[t := h];
      CountingMove(s.holders, t, h);
    }
  }

  lemma WakeupKept(s: State, s': State, step: Step)
    requires Inv(s) && Next(s, s', step)
    ensures NoLostWakeup(s')
  {
    match step
    case Decrement(t) =>
      CountKept(s, s', step);
      assert s'.active == 0 ==> At(s', t, Notifying);
    case Increment(_) => CountKept(s, s', step);
    case Notify(_) =>
    case LoadActive(_) =>
      CountKept(s, s', step);
      assert forall t :: At(s, t, Notifying) ==> At(s', t, Notifying);
    case Watch(_) => assert forall t :: At(s, t, Notifying) ==> At(s', t, Notifying);
    case Revoke => assert forall t :: At(s, t, Notifying) ==> At(s', t, Notifying);
    case _ =>
      assert forall u :: At(s, u, Notifying) ==> At(s', u, Notifying);
  }

  lemma SafetyKept(s: State, s': State, step: Step)
    requires Inv(s) && Next(s, s', step)
    ensures s'.safe ==> s'.revoked && NoneGranted(s')
  {
    if step.LoadActive? && s.active == 0 {
      forall t | t in s.holders ensures !s.holders[t].Counts() {
        assert t in Counting(s.holders) <==> s.holders[t].Counts();
      }
    }
  }

  lemma NextInv(s: State, s': State, step: Step)
    requires Inv(s) && Next(s, s', step)
    ensures Inv(s')
  {
    CountKept(s, s', step);
    WakeupKept(s, s', step);
    SafetyKept(s, s', step);
  }

  // -------------------------------------------------------------------- runs

  ghost predicate Path(states: seq<State>, steps: seq<Step>) {
    && |states| == |steps| + 1
    && forall i :: 0 <= i < |steps| ==> Next(states[i], states[i + 1], steps[i])
  }

  ghost predicate Run(states: seq<State>, steps: seq<Step>) {
    Path(states, steps) && Init(states[0])
  }

  lemma {:induction false} RunInv(states: seq<State>, steps: seq<Step>, i: nat)
    requires Run(states, steps) && i < |states|
    ensures Inv(states[i])
    decreases i
  {
    if i == 0 {
      assert Counting(states[0].holders) == {};
    } else {
      RunInv(states, steps, i - 1);
      NextInv(states[i - 1], states[i - 1 + 1], steps[i - 1]);
    }
  }

  lemma {:induction false} SafeForever(states: seq<State>, steps: seq<Step>, i: nat, j: nat)
    requires Run(states, steps) && i <= j < |states| && states[i].safe
    ensures states[j].safe
    decreases j - i
  {
    if i < j {
      assert Next(states[i], states[i + 1], steps[i]);
      SafeForever(states, steps, i + 1, j);
    }
  }

  /**
   Over every run: the count is exact at every step, and from the step where a
   drain reads zero after `revoke` no lease is live and none is granted again.
   */
  lemma LeaseSafety(states: seq<State>, steps: seq<Step>, i: nat, j: nat)
    requires Run(states, steps) && i < |steps| && i < j < |states|
    requires steps[i].LoadActive? && states[i].active == 0 && states[i].revoked
    ensures CountExact(states[j])
    ensures NoneGranted(states[j])
  {
    RunInv(states, steps, j);
    SafeForever(states, steps, i + 1, j);
  }

  /** Over every run: a drain that is asleep and not woken has a waker to come. */
  lemma DrainWakes(states: seq<State>, steps: seq<Step>, i: nat, w: nat)
    requires Run(states, steps) && i < |states|
    requires w in states[i].waiters && states[i].waiters[w] == Parked(false)
    ensures states[i].active > 0 || exists t :: At(states[i], t, Notifying)
  {
    RunInv(states, steps, i);
  }

  /**
   The count itself may still rise after a drain read zero: a caller that
   looked before the revoke increments, looks again and retracts.
   */
  lemma CountMayRiseAfterDrain() returns (states: seq<State>, steps: seq<Step>)
    ensures Run(states, steps)
    ensures |states| == 7 && states[5].safe && states[5].active == 0 && states[6].active == 1
  {
    var s0 := State(false, 0, map[], map[], false);
    var s1 := Move(s0, 0, Arrived);
    var s2 := Move(s1, 0, Checked);
    var s3 := s2.(revoked := true);
    var s4 := s3.(waiters := map[0 := Watching(false)]);
    var s5 := s4.(waiters := s4.waiters[0 := Drained], safe := true);
    var s6 := Move(s5, 0, Counted).(active := 1);
    states := [s0, s1, s2, s3, s4, s5, s6];
    steps := [Arrive(0), LoadFirst(0), Revoke, Watch(0), LoadActive(0), Increment(0)];
  }

  /** The count is zero at every state of every continuation. */
  ghost predicate ZeroForever(s: State) {
    forall states: seq<State>, steps: seq<Step>, k ::
      Path(states, steps) && states[0] == s && 0 <= k < |states| ==> states[k].active == 0
  }

  /** Nobody is counted, nor between the first look and the increment. */
  ghost predicate Settled(s: State) {
    && s.revoked && s.active == 0
    && forall t :: t in s.holders ==> !s.holders[t].Counts() && !s.holders[t].Checked?
  }

  lemma {:induction false} SettledForever(states: seq<State>, steps: seq<Step>, k: nat)
    requires Path(states, steps) && Settled(states[0]) && k < |states|
    ensures Settled(states[k])
    decreases k
  {
    if k > 0 {
      SettledForever(states, steps, k - 1);
      assert Next(states[k - 1], states[k - 1 + 1], steps[k - 1]);
    }
  }

  /**
   Exactly when a zero seen after the revoke is final: if no caller stands
   between its first look at `revoked` and its increment.
   */
  lemma ZeroForeverIff(states: seq<State>, steps: seq<Step>, i: nat)
    requires Run(states, steps) && i < |states| && states[i].revoked && states[i].active == 0
    ensures ZeroForever(states[i]) <==> forall t :: !At(states[i], t, Checked)
  {
    var s := states[i];
    RunInv(states, steps, i);
    if t :| At(s, t, Checked) {
      var s' := Move(s, t, Counted).(active := 1);
      var path, taken := [s, s'], [Increment(t)];
      assert Path(path, taken) && path[1].active != 0;
    } else {
      forall t | t in s.holders ensures !s.holders[t].Counts() && !s.holders[t].Checked? {
        assert t in Counting(s.holders) <==> s.holders[t].Counts();
        assert !At(s, t, Checked);
      }
      forall path: seq<State>, taken: seq<Step>, k | Path(path, taken) && path[0] == s && 0 <= k < |path|
        ensures path[k].active == 0
      {
        SettledForever(path, taken, k);
      }
    }
  }
}
