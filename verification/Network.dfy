/** Frames and control requests of virtio-net (src/network.rs:182-240 and 285-358). */
module Network {
  import opened Primitives
  import opened Arithmetic
  import opened LittleEndian
  import opened GuestMemory
  import opened Dma
  import opened DescriptorChains
  import opened Scatter
  import opened NetworkLoop
  import opened RoundRobin

  const MAXIMUM_FRAME_SIZE := 65536
  const CONTROL_MQ: byte := 4
  const PAIRS_SET: byte := 0
  const STATUS_OK: byte := 0
  const STATUS_ERR: byte := 1

  predicate FrameFits(length: int) {
    1 <= length <= MAXIMUM_FRAME_SIZE
  }

  /** A frame is 1 to 65536 bytes, and is received behind twelve zeros. */
  lemma FrameFormat(frame: Frame)
    ensures FrameFits(|frame|) <==> 1 <= |frame| <= 65536
    ensures RxBytes(frame) == [0, 0, 0, 0, 0, 0, 0, 0, 0, 0, 0, 0] + frame
  {
  }

  predicate AllReadable(ds: seq<Descriptor>) {
    forall i :: 0 <= i < |ds| ==> !ds[i].Writable()
  }

  predicate AllWritable(ds: seq<Descriptor>) {
    forall i :: 0 <= i < |ds| ==> ds[i].Writable()
  }

  /** `read_tx_frame`: what follows the header in the gathered chain. */
  method ReadTxFrame(memory: DmaMemory, ghost mem: Memory, ds: seq<Descriptor>) returns (r: Result<Frame>)
    requires Over(memory, mem)
    modifies memory`revoked, memory`drained, memory`active
    ensures Over(memory, mem) && memory.active == old(memory.active)
    ensures r.Ok? ==>
      && AllReadable(ds) && Covers(mem, Addressed(RangesOf(ds)))
      && FrameFits(Capacity(RangesOf(ds)) - HEADER_SIZE)
      && |Gathered(mem, RangesOf(ds))| >= HEADER_SIZE
      && r.value == Gathered(mem, RangesOf(ds))[HEADER_SIZE..]
    ensures r.Err? ==>
      || !AllReadable(ds) || !FrameFits(Capacity(RangesOf(ds)) - HEADER_SIZE)
      || Refused(memory, RangesOf(ds), r.error)
  {
    if exists i :: 0 <= i < |ds| && ds[i].Writable() {
      return Err(Malformed("virtio-net TX chain is writable"));
    }
    var bytes := ReadChain(memory, mem, RangesOf(ds));
    if bytes.Err? {
      return Err(bytes.error);
    }
    CapacityIsLength(RangesOf(ds));
    if |bytes.value| <= HEADER_SIZE || |bytes.value| - HEADER_SIZE > MAXIMUM_FRAME_SIZE {
      return Err(Malformed("invalid virtio-net TX frame length"));
    }
    return Ok(bytes.value[HEADER_SIZE..]);
  }

  /** `write_rx_frame`: a zero header and the whole frame, or an error. */
  method WriteRxFrame(memory: DmaMemory, ghost mem: Memory, ds: seq<Descriptor>, frame: Frame)
    returns (r: Result<u32>, ghost n: nat)
    requires Over(memory, mem)
    modifies memory`revoked, memory`drained, memory`active, memory.bases
    ensures memory.active == old(memory.active) && n <= |RxBytes(frame)| && n <= |Addressed(RangesOf(ds))|
    ensures Over(memory, Scattered(mem, RangesOf(ds), RxBytes(frame)[..n]))
    ensures r.Ok? ==>
      && FrameFits(|frame|) && AllWritable(ds) && n == |RxBytes(frame)| == r.value
    ensures !FrameFits(|frame|) || !AllWritable(ds) || Capacity(RangesOf(ds)) < |RxBytes(frame)| ==> n == 0
    ensures r.Err? ==>
      || !FrameFits(|frame|) || !AllWritable(ds) || Capacity(RangesOf(ds)) < |RxBytes(frame)|
      || Capacity(RangesOf(ds)) >= U64_LIMIT || Refused(memory, RangesOf(ds), r.error)
  {
    n := 0;
    if frame == [] || |frame| > MAXIMUM_FRAME_SIZE {
      return Err(Malformed("invalid virtio-net RX frame length")), n;
    }
    if exists i :: 0 <= i < |ds| && !ds[i].Writable() {
      return Err(Malformed("virtio-net RX chain is readable")), n;
    }
    var bytes := RxBytes(frame);
    var written;
    written, n := WriteChain(memory, mem, RangesOf(ds), bytes);
    if written.Err? {
      return Err(written.error), n;
    }
    return Ok(|bytes|), n;
  }

  /**
   A frame received into buffers that do not overlap stands there behind its
   header; handed back for transmission, the same buffers give the frame again
   exactly when it filled them.
   */
  lemma FrameThroughMemory(mem: Memory, ranges: seq<Range>, frame: Frame)
    requires Covers(mem, Addressed(ranges)) && NoDuplicates(Addressed(ranges))
    requires |RxBytes(frame)| <= Capacity(ranges)
    ensures |RxBytes(frame)| <= |Addressed(ranges)|
    ensures var mem' := Scattered(mem, ranges, RxBytes(frame));
      && Covers(mem', Addressed(ranges)) && |Gathered(mem', ranges)| == Capacity(ranges)
      && Gathered(mem', ranges) == RxBytes(frame) + Gathered(mem, ranges)[|RxBytes(frame)|..]
      && (Gathered(mem', ranges)[HEADER_SIZE..] == frame <==> Capacity(ranges) == |RxBytes(frame)|)
  {
    var bytes := RxBytes(frame);
    GatherScattered(mem, ranges, bytes);
    CapacityIsLength(ranges);
    var all := Gathered(Scattered(mem, ranges, bytes), ranges);
    if |all| == |bytes| {
      assert all == bytes;
      assert bytes[HEADER_SIZE..] == frame;
    } else {
      assert |all[HEADER_SIZE..]| > |frame|;
    }
  }

  // ----------------------------------------------------------------- control

  /** A readable descriptor of two bytes. */
  ghost predicate TwoReadable(mem: Memory, d: Descriptor) {
    !d.Writable() && d.length == 2 && Covers(mem, Span(d.address, 2))
  }

  /** The chain asks for `pairs` queue pairs. */
  ghost predicate AsksPairs(mem: Memory, ds: seq<Descriptor>, pairs: nat) {
    && |ds| >= 2 && TwoReadable(mem, ds[0]) && TwoReadable(mem, ds[1])
    && Load(mem, Span(ds[0].address, 2)) == [CONTROL_MQ, PAIRS_SET]
    && pairs == DecodeU16(Load(mem, Span(ds[1].address, 2)))
  }

  /** Two readable descriptors of two bytes: class 4 and command 0, then the number of pairs. */
  lemma ControlFormat(mem: Memory, ds: seq<Descriptor>, pairs: nat)
    ensures AsksPairs(mem, ds, pairs) <==>
      && |ds| >= 2 && ds[0].flags / 2 % 2 == ds[1].flags / 2 % 2 == 0 && ds[0].length == ds[1].length == 2
      && Covers(mem, Span(ds[0].address, 2)) && Covers(mem, Span(ds[1].address, 2))
      && Load(mem, Span(ds[0].address, 2)) == [4, 0] && pairs == Decode(Load(mem, Span(ds[1].address, 2)))
  {
  }

  method ReadTwo(memory: DmaMemory, ghost mem: Memory, d: Descriptor) returns (r: Result<seq<byte>>)
    requires Over(memory, mem)
    modifies memory`revoked, memory`drained, memory`active
    ensures Over(memory, mem) && memory.active == old(memory.active)
    ensures r.Ok? ==> TwoReadable(mem, d) && r.value == Load(mem, Span(d.address, 2))
    ensures r.Err? ==> (r.error == Down(Revoked) && memory.revoked) || !TwoReadable(mem, d)
  {
    if d.Writable() || d.length != 2 {
      return Err(Malformed("invalid virtio-net control descriptor"));
    }
    r := memory.ReadBytes(d.address, 2);
    if r.Err? && Covers(mem, Span(d.address, 2)) {
      CoveredUsable(memory, mem, Range(d.address, 2));
    }
  }

  /**
   `handle_control`: answers OK exactly to a request for a number of pairs the
   device has, which it then uses, and 1 to any other command or number, unless
   revoked; a malformed request is an error. Neither changes the pairs in use.
   */
  method HandleControl(memory: DmaMemory, ghost mem: Memory, ds: seq<Descriptor>, active: nat, maximum: nat)
    returns (r: Result<byte>, active': nat)
    requires Over(memory, mem) && 1 <= active <= maximum
    modifies memory`revoked, memory`drained, memory`active
    ensures Over(memory, mem) && memory.active == old(memory.active) && 1 <= active' <= maximum
    ensures r == Ok(0) ==> AsksPairs(mem, ds, active') && (active', true) == SetPairs(active, maximum, active')
    ensures r != Ok(0) ==> active' == active
    ensures forall pairs :: 1 <= pairs <= maximum && AsksPairs(mem, ds, pairs) ==>
      (r == Ok(0) && active' == pairs) || (r == Err(Down(Revoked)) && memory.revoked)
    ensures forall pairs :: (pairs == 0 || pairs > maximum) && AsksPairs(mem, ds, pairs) ==>
      r == Ok(1) || (r == Err(Down(Revoked)) && memory.revoked)
    ensures |ds| >= 2 && TwoReadable(mem, ds[0]) && Load(mem, Span(ds[0].address, 2)) != [4, 0] ==>
      r == Ok(1) || (r == Err(Down(Revoked)) && memory.revoked)
    ensures r.Ok? ==>
      && |ds| >= 2 && TwoReadable(mem, ds[0])
      && (Load(mem, Span(ds[0].address, 2)) == [4, 0] ==> TwoReadable(mem, ds[1]))
    ensures r.Ok? && r.value != 0 ==>
      r.value == 1 && forall pairs :: 1 <= pairs <= maximum ==> !AsksPairs(mem, ds, pairs)
  {
    active' := active;
    if |ds| < 2 {
      return Err(Malformed("virtio-net control chain is too short")), active';
    }
    var header := ReadTwo(memory, mem, ds[0]);
    if header.Err? {
      return Err(header.error), active';
    }
    assert header.value == [header.value[0], header.value[1]];
    if header.value[0] != CONTROL_MQ || header.value[1] != PAIRS_SET {
      return Ok(STATUS_ERR), active';
    }
    var data := ReadTwo(memory, mem, ds[1]);
    if data.Err? {
      return Err(data.error), active';
    }
    var pairs := DecodeU16(data.value);
    assert AsksPairs(mem, ds, pairs);
    if pairs == 0 || pairs > maximum {
      return Ok(STATUS_ERR), active';
    }
    return Ok(STATUS_OK), pairs;
  }

  // ------------------------------------------------------------ one RX pass

  /**
   What one `process_rx` leaves: frames still in the backend. `buffers` counts
   free chains per pair in use, `next` the turns taken so far.
   */
  function RxPass(frames: nat, buffers: seq<nat>, next: nat): (left: nat)
    requires buffers != []
    ensures left <= frames
  {
    var pair := Visited(next, |buffers|);
    if frames == 0 || buffers[pair] == 0 then frames
    else RxPass(frames - 1, buffers[pair := buffers[pair] - 1], next + 1)
  }

  /** How many of the first `k` turns fall to `pair`. */
  function Earlier(next: nat, n: nat, pair: nat, k: nat): nat
    requires n > 0
  {
    if k == 0 then 0 else Earlier(next, n, pair, k - 1) + if Visited(next + k - 1, n) == pair then 1 else 0
  }

  lemma {:induction false} EarlierShift(next: nat, n: nat, pair: nat, k: nat)
    requires n > 0
    ensures Earlier(next, n, pair, k + 1) ==
      Earlier(next + 1, n, pair, k) + if Visited(next, n) == pair then 1 else 0
  {
    if k > 0 {
      EarlierShift(next, n, pair, k - 1);
      assert next + (k + 1) - 1 == next + 1 + k - 1;
    }
  }

  /** The `k`-th frame from here finds a chain: its queue has more than the turns before it use up. */
  predicate FindsChain(buffers: seq<nat>, next: nat, k: nat)
    requires buffers != []
  {
    var pair := Visited(next + k, |buffers|);
    buffers[pair] > Earlier(next, |buffers|, pair, k)
  }

  ghost predicate AllFindChains(frames: nat, buffers: seq<nat>, next: nat)
    requires buffers != []
  {
    forall k :: 0 <= k < frames ==> FindsChain(buffers, next, k)
  }

  lemma FindsChainShift(buffers: seq<nat>, next: nat, k: nat)
    requires buffers != [] && buffers[Visited(next, |buffers|)] > 0
    ensures var pair := Visited(next, |buffers|);
      FindsChain(buffers[pair := buffers[pair] - 1], next + 1, k) <==> FindsChain(buffers, next, k + 1)
  {
    var n := |buffers|;
    assert next + 1 + k == next + (k + 1);
    EarlierShift(next, n, Visited(next + 1 + k, n), k);
  }

  lemma AllFindStep(frames: nat, buffers: seq<nat>, next: nat)
    requires frames > 0 && buffers != [] && buffers[Visited(next, |buffers|)] > 0
    ensures var pair := Visited(next, |buffers|);
      AllFindChains(frames, buffers, next) <==> AllFindChains(frames - 1, buffers[pair := buffers[pair] - 1], next + 1)
  {
    var pair := Visited(next, |buffers|);
    var after, later := buffers[pair := buffers[pair] - 1], next + 1;
    assert FindsChain(buffers, next, 0);
    hide FindsChain;
    if AllFindChains(frames, buffers, next) {
      forall k | 0 <= k < frames - 1 ensures FindsChain(after, later, k) {
        FindsChainShift(buffers, next, k);
      }
    }
    if AllFindChains(frames - 1, after, later) {
      forall k | 0 <= k < frames ensures FindsChain(buffers, next, k) {
        if k > 0 {
          FindsChainShift(buffers, next, k - 1);
          assert FindsChain(after, later, k - 1);
        }
      }
    }
  }

  /**
   A pass empties the backend exactly when every frame's turn falls on a queue
   that still has a chain, wherever the turn counter wraps. Chains elsewhere do
   not help.
   */
  lemma {:induction false} RxPassEmpties(frames: nat, buffers: seq<nat>, next: nat)
    requires buffers != []
    ensures RxPass(frames, buffers, next) == 0 <==> AllFindChains(frames, buffers, next)
    decreases frames
  {
    var pair := Visited(next, |buffers|);
    if frames > 0 && buffers[pair] > 0 {
      hide AllFindChains, Visited;
      AllFindStep(frames, buffers, next);
      RxPassEmpties(frames - 1, buffers[pair := buffers[pair] - 1], next + 1);
    } else if frames > 0 {
      assert !FindsChain(buffers, next, 0);
    }
  }

  lemma SameCounter(a: nat, b: nat, n: nat)
    requires n > 0 && a % U64_LIMIT == b % U64_LIMIT
    ensures Visited(a, n) == Visited(b, n) && (a + 1) % U64_LIMIT == (b + 1) % U64_LIMIT
  {
  }

  /** Only the counter's value modulo 2^64 matters. */
  lemma {:induction false} RxPassWraps(frames: nat, buffers: seq<nat>, a: nat, b: nat)
    requires buffers != [] && a % U64_LIMIT == b % U64_LIMIT
    ensures RxPass(frames, buffers, a) == RxPass(frames, buffers, b)
    decreases frames
  {
    hide Visited;
    SameCounter(a, b, |buffers|);
    var pair := Visited(a, |buffers|);
    if frames > 0 && buffers[pair] > 0 {
      RxPassWraps(frames - 1, buffers[pair := buffers[pair] - 1], a + 1, b + 1);
    }
  }

  // where the turns are even, the condition in closed form

  /** The `k`-th frame from here finds a chain in the queue whose turn it is. */
  predicate TurnHasBuffer(buffers: seq<nat>, next: nat, k: nat)
    requires buffers != []
  {
    buffers[(next + k) % |buffers|] > k / |buffers|
  }

  /** Taking the first turn's buffer shifts every later turn by one. */
  lemma NextTurn(buffers: seq<nat>, next: nat, k: nat)
    requires buffers != [] && buffers[next % |buffers|] > 0
    ensures var pair := next % |buffers|; var after := buffers[pair := buffers[pair] - 1];
      TurnHasBuffer(after, next + 1, k) <==> TurnHasBuffer(buffers, next, k + 1)
  {
    var n, pair := |buffers|, next % |buffers|;
    assert (next + 1 + k) % n == (next + (k + 1)) % n;
    SameTurn(next, k + 1, n);
    if (next + (k + 1)) % n == pair {
      assert (k + 1) / n == k / n + 1 by { Quotients(k, n); }
    } else {
      assert (k + 1) / n == k / n by { Quotients(k, n); }
    }
  }

  /** `k` turns on it is the same pair's turn exactly after whole rounds. */
  lemma SameTurn(next: nat, k: nat, n: nat)
    requires n > 0
    ensures (next + k) % n == next % n <==> k % n == 0
  {
    var whole, part := next / n + k / n, next % n + k % n;
    Distribute(next / n, k / n, n);
    assert next + k == whole * n + part;
    if part < n {
      DivModUnique(next + k, n, whole, part);
    } else {
      Distribute(whole, 1, n);
      DivModUnique(next + k, n, whole + 1, part - n);
    }
  }

  lemma Quotients(k: nat, n: nat)
    requires n > 0
    ensures (k + 1) / n == k / n + (if (k + 1) % n == 0 then 1 else 0)
  {
    Distribute(k / n, 1, n);
    if k % n + 1 == n {
      DivModUnique(k + 1, n, k / n + 1, 0);
    } else {
      DivModUnique(k + 1, n, k / n, k % n + 1);
    }
  }

  ghost predicate AllTurns(frames: nat, buffers: seq<nat>, next: nat)
    requires buffers != []
  {
    forall k :: 0 <= k < frames ==> TurnHasBuffer(buffers, next, k)
  }

  lemma AllTurnsStep(frames: nat, buffers: seq<nat>, next: nat)
    requires frames > 0 && buffers != [] && buffers[next % |buffers|] > 0
    ensures var pair := next % |buffers|;
      AllTurns(frames, buffers, next) <==> AllTurns(frames - 1, buffers[pair := buffers[pair] - 1], next + 1)
  {
    var pair := next % |buffers|;
    var after, later := buffers[pair := buffers[pair] - 1], next + 1;
    assert TurnHasBuffer(buffers, next, 0);
    hide TurnHasBuffer;
    if AllTurns(frames, buffers, next) {
      forall k | 0 <= k < frames - 1 ensures TurnHasBuffer(after, later, k) {
        NextTurn(buffers, next, k);
      }
    }
    if AllTurns(frames - 1, after, later) {
      forall k | 0 <= k < frames ensures TurnHasBuffer(buffers, next, k) {
        if k > 0 {
          NextTurn(buffers, next, k - 1);
          assert TurnHasBuffer(after, later, k - 1);
        }
      }
    }
  }

  /** The counter does not wrap during the pass, or the number of pairs divides 2^64. */
  predicate EvenTurns(frames: nat, n: nat, next: nat)
    requires n > 0
  {
    next + frames <= U64_LIMIT || U64_LIMIT % n == 0
  }

  lemma EvenTurn(frames: nat, n: nat, next: nat)
    requires frames > 0 && n > 0 && EvenTurns(frames, n, next)
    ensures Visited(next, n) == next % n && EvenTurns(frames - 1, n, next + 1)
  {
    if U64_LIMIT % n == 0 {
      assert U64_LIMIT == (U64_LIMIT / n) * n;
      ModOfMod(next, n, U64_LIMIT);
    }
  }

  /** With even turns, the k-th frame needs more than k / pairs chains in queue (next + k) % pairs. */
  lemma {:induction false} RxPassInTurn(frames: nat, buffers: seq<nat>, next: nat)
    requires buffers != [] && EvenTurns(frames, |buffers|, next)
    ensures RxPass(frames, buffers, next) == 0 <==> AllTurns(frames, buffers, next)
    decreases frames
  {
    var pair := next % |buffers|;
    if frames > 0 {
      EvenTurn(frames, |buffers|, next);
      if buffers[pair] > 0 {
        hide AllTurns, Visited, EvenTurns;
        AllTurnsStep(frames, buffers, next);
        RxPassInTurn(frames - 1, buffers[pair := buffers[pair] - 1], next + 1);
      } else {
        assert !TurnHasBuffer(buffers, next, 0);
      }
    }
  }

  /** Free chains of the receive queues in use. */
  ghost function Buffers(s: State): (buffers: seq<nat>)
    requires Shaped(s)
    ensures |buffers| == s.active
  {
    seq<nat>(s.active, pair requires 0 <= pair < s.active => s.rings.waiting[RxQueue(pair)])
  }

  /** One frame's three steps, undisturbed. */
  lemma OneFrame(s: State) returns (a: State, b: State, t: State)
    requires Shaped(s) && s.pc == Receive && s.frames.backend != [] && Buffers(s)[s.next % s.active] > 0
    ensures Receiving(s, a) && Receiving(a, b) && Receiving(b, t) && Shaped(t) && t.pc == Receive
    ensures t.active == s.active && t.next == (s.next + 1) % U64_LIMIT && t.frames.backend == s.frames.backend[1..]
    ensures var pair := s.next % s.active; Buffers(t) == Buffers(s)[pair := Buffers(s)[pair] - 1]
  {
    var pair := s.next % s.active;
    var q := RxQueue(pair);
    a := s.(pc := Popped(q), next := (s.next + 1) % U64_LIMIT, rings := Took(s.rings, q));
    ShapedReceiving(s, a);
    b := a.(pc := Holding(q), frames := a.frames.(hand := [a.frames.backend[0]], backend := a.frames.backend[1..]));
    ShapedReceiving(a, b);
    t := b.(pc := Receive, frames := Delivered(b.frames, q));
    ShapedReceiving(b, t);
    forall p | 0 <= p < s.active
      ensures Buffers(t)[p] == Buffers(s)[pair := Buffers(s)[pair] - 1][p]
    {
      assert RxQueue(p) == q <==> p == pair;
    }
  }

  ghost predicate Steps(run: seq<State>) {
    run != [] && forall i :: 0 <= i < |run| - 1 ==> Receiving(run[i], run[i + 1])
  }

  lemma FirstTurn(next: u64, n: nat)
    requires n > 0
    ensures Visited(next, n) == next % n
    ensures ((next + 1) % U64_LIMIT) % U64_LIMIT == (next + 1) % U64_LIMIT
  {
  }

  lemma RxPassStep(frames: nat, buffers: seq<nat>, next: nat)
    requires frames > 0 && buffers != [] && buffers[Visited(next, |buffers|)] > 0
    ensures var pair := Visited(next, |buffers|);
      RxPass(frames, buffers, next) == RxPass(frames - 1, buffers[pair := buffers[pair] - 1], next + 1)
  {
    hide Visited;
  }

  lemma OneFrameLess(s: State, t: State)
    requires Shaped(s) && Shaped(t) && s.frames.backend != [] && Buffers(s)[s.next % s.active] > 0
    requires t.active == s.active && t.next == (s.next + 1) % U64_LIMIT && t.frames.backend == s.frames.backend[1..]
    requires var pair := s.next % s.active; Buffers(t) == Buffers(s)[pair := Buffers(s)[pair] - 1]
    ensures RxPass(|s.frames.backend|, Buffers(s), s.next) == RxPass(|t.frames.backend|, Buffers(t), t.next)
  {
    FirstTurn(s.next, s.active);
    hide Buffers, Visited, RxPass;
    RxPassStep(|s.frames.backend|, Buffers(s), s.next);
    RxPassWraps(|t.frames.backend|, Buffers(t), s.next + 1, t.next);
  }

  /** RxPass is what the loop's machine does when nothing else intervenes. */
  lemma {:induction false} RxPassRuns(s: State) returns (run: seq<State>)
    requires Shaped(s) && s.pc == Receive
    ensures Steps(run) && run[0] == s && run[|run| - 1].pc == Create
    ensures |run[|run| - 1].frames.backend| == RxPass(|s.frames.backend|, Buffers(s), s.next)
    decreases |s.frames.backend|
  {
    if s.frames.backend == [] || Buffers(s)[s.next % s.active] == 0 {
      var t := PassEnds(s);
      run := [s, t];
    } else {
      var a, b, t := OneFrame(s);
      var rest := RxPassRuns(t);
      OneFrameLess(s, t);
      hide Receiving, Buffers, Shaped, RxPass;
      run := [s, a, b] + rest;
      forall i | 0 <= i < |run| - 1 ensures Receiving(run[i], run[i + 1]) {
        assert i >= 3 ==> Receiving(rest[i - 3], rest[i - 3 + 1]);
      }
    }
  }

  /** A pass ends for want of frames, or of a chain in the queue whose turn it is. */
  lemma PassEnds(s: State) returns (t: State)
    requires Shaped(s) && s.pc == Receive
    requires s.frames.backend == [] || Buffers(s)[s.next % s.active] == 0
    ensures Receiving(s, t) && t.pc == Create
    ensures |t.frames.backend| == RxPass(|s.frames.backend|, Buffers(s), s.next)
  {
    assert Visited(s.next, s.active) == s.next % s.active;
    t := s.(pc := Create, next := if s.frames.backend == [] then s.next else (s.next + 1) % U64_LIMIT);
  }

  /** A frame can stay behind although another receive queue in use has chains. */
  lemma FrameLeftBehind()
    ensures RxPass(1, [5, 0], 1) == 1 && RxPass(1, [5, 0], 2) == 0
  {
  }
}
