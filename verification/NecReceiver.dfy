/** The infrared receiver of apps/pwm5ch/ir_recv.c: an edge interrupt and a poll that share a
    state machine over a wrapping 32-bit clock of 16 ticks per microsecond. */
module NecReceiver {
  import opened Words

  const CLOCK: nat := 0x1_0000_0000

  const LEADER_LOW_MIN: nat := 7500
  const LEADER_LOW_MAX: nat := 10500
  const LEADER_HIGH_MIN: nat := 3800
  const LEADER_HIGH_MAX: nat := 5200
  const REPEAT_HIGH_MIN: nat := 1800
  const REPEAT_HIGH_MAX: nat := 2700
  const BIT_LOW_MIN: nat := 300
  const BIT_LOW_MAX: nat := 900
  const BIT_ONE_MIN: nat := 1300
  const BIT_ONE_MAX: nat := 2000
  const BIT_ZERO_MIN: nat := 300
  const BIT_ZERO_MAX: nat := 900
  const TIMEOUT_US: nat := 30000
  const CMD_NONE: byte := 0xFF

  datatype Phase = Idle | LeaderLow | LeaderHigh | Data | DataHigh

  /** A command handed to the application, or announced to it. */
  datatype Notice = Notice(addr: byte, cmd: byte, again: bool)

  /** `announced` lists every time the ready flag was set, `delivered` every time it was
      taken; the interrupt is armed for rising edges if `rising`. */
  datatype State = State(phase: Phase, last: u32, bits: Bits, cnt: nat, cmd: byte, addr: byte, again: bool,
                         ready: bool, rising: bool, announced: seq<Notice>, delivered: seq<Notice>)

  datatype Event = Edge(now: u32, high: bool) | Poll(now: u32) | GetCmd

  // ----- the receiver -----

  function Us(ticks: nat): nat {
    ticks / 16
  }

  /** The clock has passed zero at most once. */
  function Since(last: u32, now: u32): u32 {
    if now >= last then now - last else 0xFFFF_FFFF - last + now + 1
  }

  predicate InRange(us: nat, min: nat, max: nat) {
    min <= us <= max
  }

  /** ir_reset_to_idle. */
  function Reset(st: State): State {
    st.(phase := Idle, rising := false)
  }

  function Byte(bits: Bits, k: nat): byte
    requires k < 4 && |bits| == 32
  {
    var b := bits[8 * k..8 * k + 8];
    BitsOfValue(b);
    BytesHaveEightBits();
    Value(b)
  }

  /** The complement check as the code makes it: either half is enough. */
  predicate Accepted(bits: Bits)
    requires |bits| == 32
  {
    And(Byte(bits, 0), Byte(bits, 1)) == 0 || 255 - Byte(bits, 2) == Byte(bits, 3)
  }

  function Announce(st: State, n: Notice): State {
    st.(addr := n.addr, cmd := n.cmd, again := n.again, ready := true, announced := st.announced + [n])
  }

  /** All 32 bits are in. */
  function Decided(st: State): State
    requires |st.bits| == 32
  {
    Reset(if Accepted(st.bits) then Announce(st, Notice(Byte(st.bits, 0), Byte(st.bits, 2), false)) else st)
  }

  /** A bit's pause has ended. */
  function BitStep(st: State, us: nat): State
    requires |st.bits| == 32 && st.cnt < 32
  {
    var one := InRange(us, BIT_ONE_MIN, BIT_ONE_MAX);
    if !one && !InRange(us, BIT_ZERO_MIN, BIT_ZERO_MAX) then Reset(st)
    else
      var taken := st.(bits := if one then st.bits[st.cnt := true] else st.bits, cnt := st.cnt + 1);
      if taken.cnt >= 32 then Decided(taken) else taken.(phase := Data)
  }

  /** In a data phase the bit under way has a place in the word. */
  predicate Runs(st: State) {
    |st.bits| == 32 && (st.phase == DataHigh ==> st.cnt < 32)
  }

  /** ir_recv_gpio_irq. */
  function IrqStep(st: State, now: u32, high: bool): State
    requires Runs(st)
  {
    if st.phase == Idle && high then st
    else
      var us := Us(Since(st.last, now));
      var seen := st.(last := now, rising := !high);
      match st.phase
      case Idle => seen.(phase := LeaderLow, bits := Zeros(32), cnt := 0)
      case LeaderLow =>
        if !high then seen
        else if InRange(us, LEADER_LOW_MIN, LEADER_LOW_MAX) then seen.(phase := LeaderHigh)
        else Reset(seen)
      case LeaderHigh =>
        if high then seen
        else if InRange(us, LEADER_HIGH_MIN, LEADER_HIGH_MAX) then seen.(phase := Data)
        else if InRange(us, REPEAT_HIGH_MIN, REPEAT_HIGH_MAX) && st.cmd != CMD_NONE then
          Reset(Announce(seen, Notice(st.addr, st.cmd, true)))
        else Reset(seen)
      case Data =>
        if !high then seen
        else if InRange(us, BIT_LOW_MIN, BIT_LOW_MAX) then seen.(phase := DataHigh)
        else Reset(seen)
      case DataHigh => if high then seen else BitStep(seen, us)
  }

  function Deliver(st: State): State {
    if st.ready then st.(ready := false, delivered := st.delivered + [Notice(st.addr, st.cmd, st.again)]) else st
  }

  /** ir_recv_poll. */
  function PollStep(st: State, now: u32): State {
    Deliver(if st.phase != Idle && Us(Since(st.last, now)) > TIMEOUT_US then Reset(st) else st)
  }

  function Step(st: State, e: Event): State
    requires e.Edge? ==> Runs(st)
  {
    match e
    case Edge(now, high) => IrqStep(st, now, high)
    case Poll(now) => PollStep(st, now)
    case GetCmd => Deliver(st)
  }

  // ----- what every run keeps -----

  /** The edge each phase waits for. */
  function WaitsForRising(p: Phase): bool {
    p == LeaderLow || p == Data
  }

  ghost predicate Subsequence(a: seq<Notice>, b: seq<Notice>)
    decreases |b|
  {
    if b == [] then a == []
    else
      || Subsequence(a, b[..|b| - 1])
      || (a != [] && a[|a| - 1] == b[|b| - 1] && Subsequence(a[..|a| - 1], b[..|b| - 1]))
  }

  /** A repeat names the address and command of the announcement before it; the first
      announcement is no repeat. */
  ghost predicate RepeatsFollow(n: seq<Notice>) {
    forall i :: 0 <= i < |n| && n[i].again ==> i > 0 && n[i].addr == n[i - 1].addr && n[i].cmd == n[i - 1].cmd
  }

  ghost predicate Inv(st: State) {
    && |st.bits| == 32
    && st.rising == WaitsForRising(st.phase)
    && (st.phase != Idle ==> st.cnt < 32)
    && (st.phase == LeaderLow || st.phase == LeaderHigh ==> st.cnt == 0)
    && (st.phase != Idle ==> forall i :: st.cnt <= i < 32 ==> !st.bits[i])
    && RepeatsFollow(st.announced)
    && (st.cmd != CMD_NONE ==> st.announced != [])
    && (st.announced != [] ==> Notice(st.addr, st.cmd, st.again) == st.announced[|st.announced| - 1])
    && (st.ready ==> st.announced != [])
    && Subsequence(st.delivered, if st.ready then st.announced[..|st.announced| - 1] else st.announced)
  }

  lemma AnnounceKeeps(st: State, n: Notice)
    requires RepeatsFollow(st.announced)
    requires st.announced != [] ==> Notice(st.addr, st.cmd, st.again) == st.announced[|st.announced| - 1]
    requires st.ready ==> st.announced != []
    requires Subsequence(st.delivered, if st.ready then st.announced[..|st.announced| - 1] else st.announced)
    requires n.again ==> st.announced != [] && n.addr == st.addr && n.cmd == st.cmd
    ensures var r := Announce(st, n);
            && RepeatsFollow(r.announced)
            && r.announced[..|r.announced| - 1] == st.announced
            && Subsequence(r.delivered, st.announced)
  {
  }

  lemma DeliverKeeps(st: State)
    requires Inv(st)
    ensures Inv(Deliver(st))
  {
  }

  lemma RepeatKeeps(st: State, seen: State)
    requires Inv(st) && st.phase == LeaderHigh && st.cmd != CMD_NONE
    requires seen == st.(last := seen.last, rising := true)
    ensures Inv(Reset(Announce(seen, Notice(st.addr, st.cmd, true))))
  {
  }

  /** The phases move on without anything being announced or lost. */
  lemma MoveKeeps(st: State, r: State)
    requires Inv(st) && r == st.(phase := r.phase, last := r.last, rising := r.rising, bits := r.bits, cnt := r.cnt)
    requires |r.bits| == 32 && r.rising == WaitsForRising(r.phase)
    requires r.phase != Idle ==> r.cnt < 32 && forall i :: r.cnt <= i < 32 ==> !r.bits[i]
    requires r.phase == LeaderLow || r.phase == LeaderHigh ==> r.cnt == 0
    ensures Inv(r)
  {
  }

  lemma IrqKeeps(st: State, now: u32, high: bool)
    requires Inv(st)
    ensures Inv(IrqStep(st, now, high))
  {
    var us := Us(Since(st.last, now));
    var seen := st.(last := now, rising := !high);
    if st.phase == DataHigh && !high {
      BitKeeps(st, seen, us);
    } else if st.phase == LeaderHigh && !high && st.cmd != CMD_NONE && InRange(us, REPEAT_HIGH_MIN, REPEAT_HIGH_MAX) {
      RepeatKeeps(st, seen);
    } else {
      hide Subsequence, RepeatsFollow, Us, Since, Announce, BitStep;
      MoveKeeps(st, IrqStep(st, now, high));
    }
  }

  lemma BitKeeps(st: State, seen: State, us: nat)
    requires Inv(st) && st.phase == DataHigh && seen == st.(last := seen.last, rising := true)
    ensures Inv(BitStep(seen, us))
  {
    hide Byte, Accepted, Subsequence, RepeatsFollow;
    var one := InRange(us, BIT_ONE_MIN, BIT_ONE_MAX);
    var taken := seen.(bits := if one then st.bits[st.cnt := true] else st.bits, cnt := st.cnt + 1);
    if one || InRange(us, BIT_ZERO_MIN, BIT_ZERO_MAX) {
      if taken.cnt >= 32 {
        DecidedKeeps(st, taken);
      }
    }
  }

  lemma DecidedKeeps(st: State, taken: State)
    requires Inv(st) && |taken.bits| == 32
    requires taken == st.(last := taken.last, rising := taken.rising, bits := taken.bits, cnt := taken.cnt)
    ensures Inv(Decided(taken))
  {
    hide Byte, Accepted, Subsequence, RepeatsFollow;
    AnnounceKeeps(taken, Notice(Byte(taken.bits, 0), Byte(taken.bits, 2), false));
  }

  /** Every event keeps the invariant: the interrupt waits for the right edge, fewer than 32
      bits are in while a frame is under way, and each announcement is delivered at most
      once, in order. */
  lemma StepKeeps(st: State, e: Event)
    requires Inv(st)
    ensures Inv(Step(st, e))
  {
    match e {
      case Edge(now, high) =>
        IrqKeeps(st, now, high);
      case Poll(now) =>
        hide Subsequence, RepeatsFollow, Deliver, Us, Since;
        DeliverKeeps(if st.phase != Idle && Us(Since(st.last, now)) > TIMEOUT_US then Reset(st) else st);
      case GetCmd =>
        DeliverKeeps(st);
    }
  }

  /** As ir_recv_init leaves it, whatever was in RAM. */
  function Initialised(st: State, now: u32): State {
    Reset(st).(ready := false, cmd := CMD_NONE, last := now, announced := [], delivered := [])
  }

  ghost function Run(st: State, events: seq<Event>): State
    requires Inv(st)
    decreases |events|
  {
    assert Runs(st);
    hide Step, Inv;
    if events == [] then st
    else
      StepKeeps(st, events[0]);
      Run(Step(st, events[0]), events[1..])
  }

  lemma {:induction false} RunKeeps(st: State, events: seq<Event>)
    requires Inv(st)
    ensures Inv(Run(st, events))
    decreases |events|
  {
    assert Runs(st);
    hide Step, Inv;
    if events != [] {
      StepKeeps(st, events[0]);
      RunKeeps(Step(st, events[0]), events[1..]);
    }
  }

  /** After start-up, whatever edges and polls come: what has been delivered is part of what
      was announced, in order and each at most once, and every repeat repeats the
      announcement before it, so none comes before the first full frame. */
  lemma DeliveriesAreAnnounced(ram: State, now: u32, events: seq<Event>)
    requires |ram.bits| == 32
    ensures Inv(Initialised(ram, now))
    ensures Initialised(ram, now)
         == ram.(phase := Idle, last := now, rising := false, ready := false, cmd := 0xFF,
                 announced := [], delivered := [])
    ensures var r := Run(Initialised(ram, now), events);
            && Subsequence(r.delivered, r.announced) && RepeatsFollow(r.announced)
            && r.rising == WaitsForRising(r.phase)
            && (r.phase != Idle ==> r.cnt < 32 && |r.bits| == 32 && forall i :: r.cnt <= i < 32 ==> !r.bits[i])
  {
    RunKeeps(Initialised(ram, now), events);
    hide RepeatsFollow;
  }

  // ----- the waveform of a frame -----

  /** The line keeps its level for `width` ticks; meanwhile the main loop polls at the given
      times after the last edge. */
  datatype Pulse = Pulse(width: nat, polls: seq<nat>)

  predicate Lasts(p: Pulse, min: nat, max: nat) {
    && min <= p.width / 16 <= max
    && forall d :: d in p.polls ==> d <= p.width
  }

  /** A bit, least significant first: a mark, then a long or a short pause. */
  predicate IsBit(mark: Pulse, pause: Pulse, bit: bool) {
    && Lasts(mark, 300, 900)
    && if bit then Lasts(pause, 1300, 2000) else Lasts(pause, 300, 900)
  }

  predicate AreBits(pulses: seq<Pulse>, bits: Bits) {
    && |pulses| == 2 * |bits|
    && forall i :: 0 <= i < |bits| ==> IsBit(pulses[2 * i], pulses[2 * i + 1], bits[i])
  }

  /** The 66 pulses between the 67 edges of a frame. */
  predicate IsFrame(pulses: seq<Pulse>, word: Bits) {
    && |word| == 32 && |pulses| == 66
    && Lasts(pulses[0], 7500, 10500)
    && Lasts(pulses[1], 3800, 5200)
    && AreBits(pulses[2..], word)
  }

  function PollAll(st: State, t: nat, polls: seq<nat>): State
    decreases |polls|
  {
    if polls == [] then st else PollAll(PollStep(st, (t + polls[0]) % CLOCK), t, polls[1..])
  }

  /** One pulse: its polls, then the edge that ends it. */
  function PulseStep(st: State, t: nat, p: Pulse, high: bool): State {
    var polled := PollAll(st, t, p.polls);
    if Runs(polled) then IrqStep(polled, (t + p.width) % CLOCK, high) else polled
  }

  /** Pulses in a row from time `t` on, the first one ending in a rising edge if `high`. */
  function Play(st: State, t: nat, pulses: seq<Pulse>, high: bool): State
    decreases |pulses|
  {
    hide PulseStep;
    if pulses == [] then st
    else Play(PulseStep(st, t, pulses[0], high), t + pulses[0].width, pulses[1..], !high)
  }

  function End(t: nat, pulses: seq<Pulse>): nat
    decreases |pulses|
  {
    if pulses == [] then t else End(t + pulses[0].width, pulses[1..])
  }

  predicate Polled(pulses: seq<Pulse>) {
    pulses != [] && (pulses[0].polls != [] || Polled(pulses[1..]))
  }

  function DeliverIf(st: State, polled: bool): State {
    if polled then Deliver(st) else st
  }

  /** However often the clock has wrapped, in ticks and in microseconds. */
  lemma ClockWraps(t: nat, w: nat)
    requires w < CLOCK
    ensures Since(t % CLOCK, (t + w) % CLOCK) == w
    ensures Us(w) == w / 16 && CLOCK == 0x1_0000_0000
  {
  }

  /** Polls inside a pulse deliver what is pending and do nothing else. */
  lemma {:induction false} PollsOnlyDeliver(st: State, t: nat, w: nat, polls: seq<nat>)
    requires st.last == t % CLOCK && Us(w) <= TIMEOUT_US
    requires forall d :: d in polls ==> d <= w
    ensures PollAll(st, t, polls) == DeliverIf(st, polls != [])
    decreases |polls|
  {
    if polls != [] {
      assert polls[0] in polls && polls[0] <= w;
      ClockWraps(t, polls[0]);
      assert forall d :: d in polls[1..] ==> d in polls;
      PollsOnlyDeliver(Deliver(st), t, w, polls[1..]);
    }
  }

  /** A pulse within its window is measured exactly. */
  lemma PulseFollows(st: State, t: nat, p: Pulse, min: nat, max: nat, high: bool)
    requires Runs(st) && st.last == t % CLOCK && Lasts(p, min, max) && max <= TIMEOUT_US
    ensures PulseStep(st, t, p, high) == IrqStep(DeliverIf(st, p.polls != []), (t + p.width) % CLOCK, high)
    ensures Since(st.last, (t + p.width) % CLOCK) == p.width && min <= Us(p.width) <= max
  {
    PollsOnlyDeliver(st, t, p.width, p.polls);
    ClockWraps(t, p.width);
    hide IrqStep;
  }

  lemma DeliverTwice(st: State, a: bool, b: bool)
    ensures DeliverIf(DeliverIf(st, a), b) == DeliverIf(st, a || b)
  {
  }

  /** The state after `k` bits of `word`, at time `t`. */
  function Holding(st: State, t: nat, word: Bits, k: nat): State
    requires k <= |word| == 32
  {
    st.(phase := Data, last := t % CLOCK, bits := word[..k] + Zeros(32 - k), cnt := k, rising := true)
  }

  /** The same in the middle of a bit. */
  function Marked(st: State, t: nat, word: Bits, k: nat): State
    requires k <= |word| == 32
  {
    Holding(st, t, word, k).(phase := DataHigh, rising := false)
  }

  lemma MarkFollows(st: State, t: nat, word: Bits, k: nat, mark: Pulse)
    requires |word| == 32 && k < 32 && Lasts(mark, 300, 900)
    ensures PulseStep(Holding(st, t, word, k), t, mark, true)
         == Marked(DeliverIf(st, mark.polls != []), t + mark.width, word, k)
  {
    PulseFollows(Holding(st, t, word, k), t, mark, 300, 900, true);
    hide Zeros, PulseStep, Since, Us, Lasts;
  }

  /** A pause inside one of the two windows puts its bit in place. */
  lemma BitStepFollows(st: State, t: nat, word: Bits, k: nat, us: nat)
    requires |word| == 32 && k < 32
    requires if word[k] then 1300 <= us <= 2000 else 300 <= us <= 900
    ensures BitStep(Marked(st, t, word, k).(rising := true), us)
         == if k + 1 < 32 then Holding(st, t, word, k + 1) else Decided(Holding(st, t, word, k + 1))
  {
    var bits := word[..k] + Zeros(32 - k);
    assert (if word[k] then bits[k := true] else bits) == word[..k + 1] + Zeros(32 - (k + 1));
    hide Zeros, Byte, Accepted;
  }

  lemma PauseFollows(st: State, t: nat, word: Bits, k: nat, pause: Pulse)
    requires |word| == 32 && k < 32
    requires if word[k] then Lasts(pause, 1300, 2000) else Lasts(pause, 300, 900)
    ensures var got := Holding(DeliverIf(st, pause.polls != []), t + pause.width, word, k + 1);
            PulseStep(Marked(st, t, word, k), t, pause, false) == if k + 1 < 32 then got else Decided(got)
  {
    hide Since, Us, BitStep, IrqStep, PulseStep, Zeros, Decided, Marked, Holding, DeliverIf, Lasts;
    var s, polled := Marked(st, t, word, k), DeliverIf(st, pause.polls != []);
    MarkedDelivers(st, t, t + pause.width, word, k, pause.polls != []);
    if word[k] {
      PulseFollows(s, t, pause, 1300, 2000, false);
    } else {
      PulseFollows(s, t, pause, 300, 900, false);
    }
    PauseEdge(DeliverIf(s, pause.polls != []), (t + pause.width) % CLOCK);
    BitStepFollows(polled, t + pause.width, word, k, Us(pause.width));
  }

  lemma PauseEdge(st: State, now: u32)
    requires Runs(st) && st.phase == DataHigh
    ensures IrqStep(st, now, false) == BitStep(st.(last := now, rising := true), Us(Since(st.last, now)))
  {
    hide BitStep, Us, Since;
  }

  lemma MarkedDelivers(st: State, t: nat, t': nat, word: Bits, k: nat, polled: bool)
    requires k < |word| == 32
    ensures var s := Marked(st, t, word, k);
            && Runs(s) && s.last == t % CLOCK && s.phase == DataHigh
            && Runs(DeliverIf(s, polled))
            && DeliverIf(s, polled).phase == DataHigh && DeliverIf(s, polled).last == s.last
    ensures DeliverIf(Marked(st, t, word, k), polled).(last := t' % CLOCK, rising := true)
         == Marked(DeliverIf(st, polled), t', word, k).(rising := true)
  {
    hide Zeros;
  }

  lemma {:induction false} BitsAreIn(st: State, t: nat, word: Bits, k: nat, pulses: seq<Pulse>)
    requires |word| == 32 && k < 32 && AreBits(pulses, word[k..])
    ensures Play(Holding(st, t, word, k), t, pulses, true)
         == Decided(Holding(DeliverIf(st, Polled(pulses)), End(t, pulses), word, 32))
    decreases 32 - k
  {
    hide Holding, Marked, PulseStep, Decided, Deliver, Byte, Accepted;
    var mark, pause, rest := pulses[0], pulses[1], pulses[2..];
    assert IsBit(pulses[2 * 0], pulses[2 * 0 + 1], word[k..][0]);
    MarkFollows(st, t, word, k, mark);
    var marked := DeliverIf(st, mark.polls != []);
    PauseFollows(marked, t + mark.width, word, k, pause);
    PlayTwo(Holding(st, t, word, k), t, pulses);
    var bit := DeliverIf(marked, pause.polls != []);
    var t' := t + mark.width + pause.width;
    DeliverTwice(st, mark.polls != [], pause.polls != []);
    if k < 31 {
      RestAreBits(pulses, word[k..]);
      assert word[k..][1..] == word[k + 1..];
      BitsAreIn(bit, t', word, k + 1, rest);
      DeliverTwice(st, mark.polls != [] || pause.polls != [], Polled(rest));
    } else {
      assert rest == [];
    }
  }

  lemma RestAreBits(pulses: seq<Pulse>, bits: Bits)
    requires bits != [] && AreBits(pulses, bits)
    ensures AreBits(pulses[2..], bits[1..])
  {
  }

  lemma PlayTwo(st: State, t: nat, pulses: seq<Pulse>)
    requires |pulses| >= 2
    ensures var s1 := PulseStep(st, t, pulses[0], true);
            var s2 := PulseStep(s1, t + pulses[0].width, pulses[1], false);
            Play(st, t, pulses, true) == Play(s2, t + pulses[0].width + pulses[1].width, pulses[2..], true)
    ensures End(t, pulses) == End(t + pulses[0].width + pulses[1].width, pulses[2..])
    ensures Polled(pulses) == (pulses[0].polls != [] || pulses[1].polls != [] || Polled(pulses[2..]))
  {
  }

  /** The frame's falling edge at time `t`, and the leader. */
  lemma LeaderFollows(st: State, t: nat, low: Pulse, pause: Pulse, word: Bits)
    requires |st.bits| == 32 && st.phase == Idle && |word| == 32
    requires Lasts(low, 7500, 10500) && Lasts(pause, 3800, 5200)
    ensures var s1 := PulseStep(IrqStep(st, t % CLOCK, false), t, low, true);
            PulseStep(s1, t + low.width, pause, false)
            == Holding(DeliverIf(st, low.polls != [] || pause.polls != []), t + low.width + pause.width, word, 0)
  {
    hide Since, Us, BitStep, IrqStep, PulseStep, Zeros, Holding, DeliverIf, Lasts;
    var now, t1 := t % CLOCK, t + low.width;
    var s0, polled := IrqStep(st, now, false), DeliverIf(st, low.polls != []);
    StartEdge(st, t, low.polls != []);
    PulseFollows(s0, t, low, 7500, 10500, true);
    LowEdge(polled, t, t1 % CLOCK);
    var s1 := IrqStep(DeliverIf(s0, low.polls != []), t1 % CLOCK, true);
    PulseFollows(s1, t1, pause, 3800, 5200, false);
    HighEdge(polled, t, t1, pause.polls != [], t1 + pause.width, word);
    DeliverTwice(st, low.polls != [], pause.polls != []);
  }

  /** After the falling edge that begins a frame. */
  function Begun(st: State, last: u32): State {
    st.(phase := LeaderLow, last := last, rising := true, bits := Zeros(32), cnt := 0)
  }

  lemma StartEdge(st: State, t: nat, polled: bool)
    requires |st.bits| == 32 && st.phase == Idle
    ensures IrqStep(st, t % CLOCK, false) == Begun(st, t % CLOCK) && Runs(Begun(st, t % CLOCK))
    ensures DeliverIf(Begun(st, t % CLOCK), polled) == Begun(DeliverIf(st, polled), t % CLOCK)
  {
    hide Zeros;
  }

  lemma LowEdge(st: State, t: nat, now: u32)
    requires 7500 <= Us(Since(t % CLOCK, now)) <= 10500
    ensures Runs(Begun(st, t % CLOCK))
    ensures IrqStep(Begun(st, t % CLOCK), now, true) == Begun(st, now).(phase := LeaderHigh, rising := false)
  {
    hide Us, Since, Zeros;
  }

  lemma HighEdge(st: State, t: nat, t1: nat, polled: bool, t2: nat, word: Bits)
    requires |word| == 32 && 3800 <= Us(Since(t1 % CLOCK, t2 % CLOCK)) <= 5200
    ensures var s1 := DeliverIf(Begun(st, t1 % CLOCK).(phase := LeaderHigh, rising := false), polled);
            Runs(s1) && IrqStep(s1, t2 % CLOCK, false) == Holding(DeliverIf(st, polled), t2, word, 0)
  {
    assert word[..0] + Zeros(32) == Zeros(32);
    hide Us, Since, Zeros;
  }

  /** The same as part of a frame. */
  lemma FrameLeads(st: State, t: nat, low: Pulse, pause: Pulse, rest: seq<Pulse>, word: Bits)
    requires |st.bits| == 32 && st.phase == Idle && |word| == 32
    requires Lasts(low, 7500, 10500) && Lasts(pause, 3800, 5200)
    ensures var polled, t' := low.polls != [] || pause.polls != [], t + low.width + pause.width;
            && Play(IrqStep(st, t % CLOCK, false), t, [low, pause] + rest, true)
               == Play(Holding(DeliverIf(st, polled), t', word, 0), t', rest, true)
            && End(t, [low, pause] + rest) == End(t', rest) && Polled([low, pause] + rest) == (polled || Polled(rest))
  {
    hide Play, PulseStep, IrqStep, Holding, DeliverIf, Polled, End, Lasts;
    LeaderFollows(st, t, low, pause, word);
    var pulses := [low, pause] + rest;
    assert pulses[0] == low && pulses[1] == pause && pulses[2..] == rest;
    PlayTwo(IrqStep(st, t % CLOCK, false), t, pulses);
  }

  lemma FrameParts(pulses: seq<Pulse>, word: Bits)
    requires IsFrame(pulses, word)
    ensures |word| == 32 && |pulses| == 66 && pulses == [pulses[0], pulses[1]] + pulses[2..]
    ensures Lasts(pulses[0], 7500, 10500) && Lasts(pulses[1], 3800, 5200)
    ensures AreBits(pulses[2..], word)
  {
    hide AreBits;
  }

  lemma FrameFollows(st: State, t: nat, pulses: seq<Pulse>, word: Bits)
    requires |st.bits| == 32 && st.phase == Idle && IsFrame(pulses, word)
    ensures Play(IrqStep(st, t % CLOCK, false), t, pulses, true)
         == Decided(Holding(DeliverIf(st, Polled(pulses)), End(t, pulses), word, 32))
  {
    hide Play, IrqStep, Decided, Holding, DeliverIf, Polled, End, AreBits, IsFrame, Lasts;
    FrameParts(pulses, word);
    var low, pause, rest := pulses[0], pulses[1], pulses[2..];
    FrameLeads(st, t, low, pause, rest, word);
    var polled := low.polls != [] || pause.polls != [];
    BitsFollow(DeliverIf(st, polled), t + low.width + pause.width, rest, word);
    DeliverTwice(st, polled, Polled(rest));
  }

  lemma BitsFollow(st: State, t: nat, pulses: seq<Pulse>, word: Bits)
    requires |word| == 32 && AreBits(pulses, word)
    ensures Play(Holding(st, t, word, 0), t, pulses, true)
         == Decided(Holding(DeliverIf(st, Polled(pulses)), End(t, pulses), word, 32))
  {
    hide *;
    assert word[0..] == word;
    BitsAreIn(st, t, word, 0, pulses);
  }

  lemma DecidedHolding(st: State, t: nat, word: Bits)
    requires |word| == 32
    ensures var r := Decided(Holding(st, t, word, 32));
            && r.phase == Idle && !r.rising && r.bits == word && r.last == t % CLOCK && r.delivered == st.delivered
            && if Accepted(word) then
                 && r.announced == st.announced + [Notice(Byte(word, 0), Byte(word, 2), false)]
                 && r.ready && r.addr == Byte(word, 0) && r.cmd == Byte(word, 2) && !r.again
               else
                 && r.announced == st.announced
                 && r.ready == st.ready && r.addr == st.addr && r.cmd == st.cmd && r.again == st.again
  {
  }

  /** Round trip: every 32-bit word, sent with any pulse widths inside the windows, at any
      time and with any polls in between, is received. The receiver is idle again, holds the
      word, and announces its first and third byte exactly when the check accepts it. */
  lemma FrameRoundTrip(st: State, t: nat, pulses: seq<Pulse>, word: Bits)
    requires |st.bits| == 32 && st.phase == Idle && IsFrame(pulses, word)
    ensures var r := Play(IrqStep(st, t % CLOCK, false), t, pulses, true);
            var before := DeliverIf(st, Polled(pulses));
            && r.phase == Idle && !r.rising && r.bits == word
            && r.last == End(t, pulses) % CLOCK
            && r.delivered == before.delivered
            && if Accepted(word) then
                 && r.announced == st.announced + [Notice(Byte(word, 0), Byte(word, 2), false)]
                 && r.ready && r.addr == Byte(word, 0) && r.cmd == Byte(word, 2) && !r.again
               else
                 && r.announced == st.announced
                 && r.ready == before.ready && r.addr == st.addr && r.cmd == st.cmd && r.again == st.again
  {
    FrameFollows(st, t, pulses, word);
    hide Decided, IrqStep, Play, Holding, Byte, Accepted, Deliver, IsFrame;
    DecidedHolding(DeliverIf(st, Polled(pulses)), End(t, pulses), word);
    KeepsOtherwise(st, Polled(pulses));
  }

  lemma KeepsOtherwise(st: State, polled: bool)
    ensures var r := DeliverIf(st, polled);
            r.announced == st.announced && r.addr == st.addr && r.cmd == st.cmd && r.again == st.again
  {
  }

  /** The bytes of a word, its first bit the lowest of the first byte. */
  lemma ByteIs(word: Bits, k: nat)
    requires |word| == 32 && k < 4
    ensures Byte(word, k)
         == (if word[8 * k] then 1 else 0) + (if word[8 * k + 1] then 2 else 0) + (if word[8 * k + 2] then 4 else 0)
          + (if word[8 * k + 3] then 8 else 0) + (if word[8 * k + 4] then 16 else 0)
          + (if word[8 * k + 5] then 32 else 0) + (if word[8 * k + 6] then 64 else 0)
          + (if word[8 * k + 7] then 128 else 0)
  {
    var b := word[8 * k..8 * k + 8];
    BitsAreSummed(b);
    hide Value;
    assert forall i :: 0 <= i < 8 ==> b[i] == word[8 * k + i];
  }

  // ----- the time-out -----

  /** A poll at a true distance of 30001 microseconds or more from the last edge, and less than
      one turn of the clock, leaves the receiver idle and waiting for a falling edge, whatever
      it was doing; a poll before that changes nothing of a frame under way. Either way what is
      pending is delivered once. */
  lemma PollTimesOut(st: State, t: nat, w: nat)
    requires st.last == t % 0x1_0000_0000 && w < 0x1_0000_0000 && (st.phase == Idle ==> !st.rising)
    ensures var r := Step(st, Poll((t + w) % 0x1_0000_0000));
            && (w >= 16 * 30001 ==> r.phase == Idle && !r.rising)
            && (w < 16 * 30001 ==> r.phase == st.phase && r.rising == st.rising)
            && r.bits == st.bits && r.cnt == st.cnt && r.last == st.last
            && r.cmd == st.cmd && r.addr == st.addr && r.again == st.again && r.announced == st.announced
            && !r.ready
            && r.delivered == st.delivered + if st.ready then [Notice(st.addr, st.cmd, st.again)] else []
  {
    ClockWraps(t, w);
  }

  /** Handing out what is pending, by a call for it. */
  lemma GetCmdDelivers(st: State)
    ensures Step(st, GetCmd)
         == st.(ready := false,
                delivered := st.delivered + if st.ready then [Notice(st.addr, st.cmd, st.again)] else [])
  {
  }

  /** A frame that breaks off, anywhere and after whatever edges, does no harm to the next: with
      a poll in the silence between them the next one is received as from rest. */
  lemma NextFrameIsReceived(st: State, t0: nat, w: nat, t: nat, pulses: seq<Pulse>, word: Bits)
    requires Inv(st) && st.last == t0 % 0x1_0000_0000 && 16 * 30001 <= w < 0x1_0000_0000 && IsFrame(pulses, word)
    ensures var idle := Step(st, Poll((t0 + w) % 0x1_0000_0000));
            && |idle.bits| == 32 && idle.phase == Idle
            && var r := Play(IrqStep(idle, t % 0x1_0000_0000, false), t, pulses, true);
               && r.phase == Idle && !r.rising && r.bits == word && r.last == End(t, pulses) % 0x1_0000_0000
               && r.delivered == idle.delivered
               && if Accepted(word) then
                    && r.announced == st.announced + [Notice(Byte(word, 0), Byte(word, 2), false)]
                    && r.ready && r.addr == Byte(word, 0) && r.cmd == Byte(word, 2) && !r.again
                  else
                    r.announced == st.announced && !r.ready && r.addr == st.addr && r.cmd == st.cmd
  {
    InvFacts(st);
    assert |st.bits| == 32 && (st.phase == Idle ==> !st.rising);
    hide Inv, Step, Play, IrqStep, IsFrame, Byte, Accepted;
    PollTimesOut(st, t0, w);
    FrameRoundTrip(Step(st, Poll((t0 + w) % 0x1_0000_0000)), t, pulses, word);
  }

  /** A pulse outside its windows ends the frame at once: the receiver is idle and waits for a
      falling edge. */
  lemma BadPulseResets(st: State, t: nat, w: nat)
    requires Runs(st) && st.last == t % 0x1_0000_0000 && w < 0x1_0000_0000
    ensures var now: u32, us := (t + w) % 0x1_0000_0000, w / 16;
            var rise, fall := IrqStep(st, now, true), IrqStep(st, now, false);
            && (st.phase == Idle ==> rise == st)
            && (st.phase == LeaderLow && !(7500 <= us <= 10500) ==>
                  rise == st.(phase := Idle, rising := false, last := now))
            && (st.phase == LeaderHigh && !(3800 <= us <= 5200) && !(1800 <= us <= 2700) ==>
                  fall == st.(phase := Idle, rising := false, last := now))
            && (st.phase == Data && !(300 <= us <= 900) ==> rise == st.(phase := Idle, rising := false, last := now))
            && (st.phase == DataHigh && !(1300 <= us <= 2000) && !(300 <= us <= 900) ==>
                  fall == st.(phase := Idle, rising := false, last := now))
  {
    ClockWraps(t, w);
    hide Since, Decided, Announce;
  }

  /** A repeat frame announces the last command again, if there was one. */
  lemma RepeatRoundTrip(st: State, t: nat, low: Pulse, pause: Pulse)
    requires |st.bits| == 32 && st.phase == Idle
    requires Lasts(low, 7500, 10500) && Lasts(pause, 1800, 2700)
    ensures var s1 := PulseStep(IrqStep(st, t % CLOCK, false), t, low, true);
            var r := PulseStep(s1, t + low.width, pause, false);
            && r.phase == Idle && !r.rising
            && if st.cmd != 0xFF then r.ready && r.announced == st.announced + [Notice(st.addr, st.cmd, true)]
               else r.announced == st.announced && (r.ready ==> st.ready)
  {
    hide Since, Us, Lasts, PulseStep, BitStep;
    var s0 := IrqStep(st, t % CLOCK, false);
    PulseFollows(s0, t, low, 7500, 10500, true);
    PulseFollows(PulseStep(s0, t, low, true), t + low.width, pause, 1800, 2700, false);
  }

  // ----- nothing but a frame -----

  /** The pulse widths of a leader and of the first `cnt` bits of `bits`. */
  predicate Widths(h: seq<nat>, bits: Bits, cnt: nat) {
    && cnt <= |bits| && |h| >= 2 + 2 * cnt
    && 7500 <= h[0] <= 10500 && 3800 <= h[1] <= 5200
    && forall i :: 0 <= i < cnt ==> BitWidths(h, bits[i], i)
  }

  predicate BitWidths(h: seq<nat>, bit: bool, i: nat)
    requires |h| >= 4 + 2 * i
  {
    && 300 <= h[2 + 2 * i] <= 900
    && (bit ==> 1300 <= h[3 + 2 * i] <= 2000)
    && (!bit ==> 300 <= h[3 + 2 * i] <= 900)
  }

  /** The widths, since the receiver last left idle, of the pulses that moved it on. */
  function Observe(st: State, e: Event, r: State, h: seq<nat>): seq<nat> {
    if r.phase == Idle || st.phase == Idle then []
    else if e.Edge? && r.phase != st.phase then h + [Us(Since(st.last, e.now))] else h
  }

  ghost predicate Seen(st: State, h: seq<nat>) {
    && |st.bits| == 32
    && match st.phase
       case Idle => h == []
       case LeaderLow => h == []
       case LeaderHigh => |h| == 1 && 7500 <= h[0] <= 10500
       case Data => |h| == 2 + 2 * st.cnt && Widths(h, st.bits, st.cnt)
       case DataHigh =>
         |h| == 3 + 2 * st.cnt && Widths(h, st.bits, st.cnt) && 300 <= h[2 + 2 * st.cnt] <= 900
  }

  /** The 66 widths of a frame that carries `n`, or the two of a repeat of what came before. */
  ghost predicate Justifies(h: seq<nat>, n: Notice, st: State, r: State) {
    if n.again then
      && |h| == 2 && 7500 <= h[0] <= 10500 && 1800 <= h[1] <= 2700
      && st.cmd != 0xFF && n.addr == st.addr && n.cmd == st.cmd
    else
      && |h| == 66 && |r.bits| == 32 && Widths(h, r.bits, 32) && Accepted(r.bits)
      && n.addr == Byte(r.bits, 0) && n.cmd == Byte(r.bits, 2)
  }

  lemma WidthsGrow(h: seq<nat>, bits: Bits, cnt: nat, us: nat, one: bool)
    requires cnt < |bits| && |h| == 3 + 2 * cnt && Widths(h, bits, cnt) && !bits[cnt]
    requires 300 <= h[2 + 2 * cnt] <= 900
    requires if one then 1300 <= us <= 2000 else 300 <= us <= 900
    ensures Widths(h + [us], if one then bits[cnt := true] else bits, cnt + 1)
  {
  }

  /** What the pause of a bit leads to, from the record the interrupt has brought up to date. */
  lemma BitTaken(st: State, h: seq<nat>, us: nat, before: State)
    requires |st.bits| == 32 && st.cnt < 32 && !st.bits[st.cnt] && |h| == 3 + 2 * st.cnt && Widths(h, st.bits, st.cnt)
    requires 300 <= h[2 + 2 * st.cnt] <= 900
    ensures var r := BitStep(st, us);
            && |r.bits| == 32
            && (r.phase == Data ==>
                  |h| + 1 == 2 + 2 * r.cnt && Widths(h + [us], r.bits, r.cnt) && r.announced == st.announced)
            && (r.phase != Data ==> r.phase == Idle)
            && (r.announced == st.announced
                || (r.announced == st.announced + [Notice(r.addr, r.cmd, r.again)]
                    && Justifies(h + [us], Notice(r.addr, r.cmd, r.again), before, r)))
  {
    hide Widths, Decided, Justifies;
    var one := InRange(us, BIT_ONE_MIN, BIT_ONE_MAX);
    if one || InRange(us, BIT_ZERO_MIN, BIT_ZERO_MAX) {
      WidthsGrow(h, st.bits, st.cnt, us, one);
      var taken := st.(bits := if one then st.bits[st.cnt := true] else st.bits, cnt := st.cnt + 1);
      if taken.cnt == 32 {
        DecidedJustified(taken, h + [us], before);
      }
    }
  }

  lemma DecidedJustified(st: State, h: seq<nat>, before: State)
    requires |st.bits| == 32 && |h| == 66 && Widths(h, st.bits, 32)
    ensures var r := Decided(st);
            && |r.bits| == 32 && r.phase == Idle
            && (r.announced == st.announced
                || (r.announced == st.announced + [Notice(r.addr, r.cmd, r.again)]
                    && Justifies(h, Notice(r.addr, r.cmd, r.again), before, r)))
  {
    hide Widths, Byte, Accepted;
  }

  lemma BitIsJustified(st: State, h: seq<nat>, now: u32)
    requires |st.bits| == 32 && st.cnt < 32 && !st.bits[st.cnt] && Seen(st, h) && st.phase == DataHigh
    ensures var r, us := IrqStep(st, now, false), Us(Since(st.last, now));
            && Seen(r, Observe(st, Edge(now, false), r, h))
            && (r.announced == st.announced
                || (r.announced == st.announced + [Notice(r.addr, r.cmd, r.again)]
                    && Justifies(h + [us], Notice(r.addr, r.cmd, r.again), st, r)))
  {
    hide Us, Since, Widths, BitStep, Justifies, InRange;
    BitTaken(st.(last := now, rising := true), h, Us(Since(st.last, now)), st);
  }

  lemma OtherEdge(st: State, h: seq<nat>, now: u32, high: bool)
    requires Runs(st) && Seen(st, h) && !(st.phase == DataHigh && !high)
    requires st.phase == LeaderHigh ==> st.cnt == 0
    ensures var r := IrqStep(st, now, high);
            && Seen(r, Observe(st, Edge(now, high), r, h))
            && (r.announced == st.announced
                || (r.announced == st.announced + [Notice(r.addr, r.cmd, r.again)]
                    && Justifies(h + [Us(Since(st.last, now))], Notice(r.addr, r.cmd, r.again), st, r)))
  {
    hide Us, Since, BitStep, Byte, Accepted;
  }

  lemma NoEdge(st: State, h: seq<nat>, e: Event)
    requires Seen(st, h) && !e.Edge?
    ensures Seen(Step(st, e), Observe(st, e, Step(st, e), h)) && Step(st, e).announced == st.announced
  {
    hide Us, Since, Widths;
  }

  lemma InvFacts(st: State)
    requires Inv(st)
    ensures Runs(st) && (st.phase == LeaderHigh ==> st.cnt == 0) && (st.phase == DataHigh ==> !st.bits[st.cnt])
  {
    hide RepeatsFollow, Subsequence;
  }

  /** Nothing is announced but at the last edge of a frame or a repeat. */
  lemma AnnouncementsAreJustified(st: State, h: seq<nat>, e: Event)
    requires Inv(st) && Seen(st, h)
    ensures e.Edge? ==> Runs(st)
    ensures var r := Step(st, e);
            && Seen(r, Observe(st, e, r, h))
            && (r.announced == st.announced
                || (&& e.Edge? && r.announced == st.announced + [Notice(r.addr, r.cmd, r.again)]
                    && Justifies(h + [Us(Since(st.last, e.now))], Notice(r.addr, r.cmd, r.again), st, r)))
  {
    InvFacts(st);
    assert |st.bits| == 32;
    hide Inv, Seen, Observe, Justifies, IrqStep, PollStep, Deliver, Us, Since;
    match e {
      case Edge(now, high) =>
        if st.phase == DataHigh && !high {
          BitIsJustified(st, h, now);
        } else {
          OtherEdge(st, h, now, high);
        }
      case Poll(_) =>
        NoEdge(st, h, e);
      case GetCmd =>
        NoEdge(st, h, e);
    }
  }

  ghost function RunWidths(st: State, h: seq<nat>, events: seq<Event>): seq<nat>
    requires Inv(st)
    decreases |events|
  {
    assert Runs(st);
    hide Step, Inv, Observe;
    if events == [] then h
    else
      StepKeeps(st, events[0]);
      var r := Step(st, events[0]);
      RunWidths(r, Observe(st, events[0], r, h), events[1..])
  }

  lemma {:induction false} RunIsSeen(st: State, h: seq<nat>, events: seq<Event>)
    requires Inv(st) && Seen(st, h)
    ensures Seen(Run(st, events), RunWidths(st, h, events))
    decreases |events|
  {
    assert Runs(st);
    hide Step, Inv, Observe, Seen, Justifies;
    if events != [] {
      StepKeeps(st, events[0]);
      AnnouncementsAreJustified(st, h, events[0]);
      var r := Step(st, events[0]);
      RunIsSeen(r, Observe(st, events[0], r, h), events[1..]);
    }
  }

  /** After start-up, whatever edges and polls have come, the next event announces something
      only if it is the edge that completes a frame the check accepts, or a repeat. */
  lemma OnlyFramesAreAnnounced(ram: State, now: u32, events: seq<Event>, e: Event)
    requires |ram.bits| == 32
    ensures Inv(Initialised(ram, now))
    ensures var st := Run(Initialised(ram, now), events);
            var h := RunWidths(Initialised(ram, now), [], events);
            && (e.Edge? ==> Runs(st))
            && var r := Step(st, e);
               || r.announced == st.announced
               || (&& e.Edge? && r.announced == st.announced + [Notice(r.addr, r.cmd, r.again)]
                   && Justifies(h + [Us(Since(st.last, e.now))], Notice(r.addr, r.cmd, r.again), st, r))
  {
    var st0 := Initialised(ram, now);
    assert Inv(st0) && Seen(st0, []);
    RunKeeps(st0, events);
    RunIsSeen(st0, [], events);
    assert Runs(Run(st0, events));
    hide Step, Inv, Seen, Justifies, Run, RunWidths, Observe, Initialised;
    AnnouncementsAreJustified(Run(st0, events), RunWidths(st0, [], events), e);
  }

  // ----- the complement check -----

  lemma {:induction false} ZeroValue(b: Bits)
    ensures Value(b) == 0 <==> forall i :: 0 <= i < |b| ==> !b[i]
  {
    if b != [] {
      ZeroValue(b[1..]);
      assert (forall i :: 0 <= i < |b| ==> !b[i]) ==> forall i :: 0 <= i < |b[1..]| ==> !b[1..][i];
      assert (forall i :: 0 <= i < |b[1..]| ==> !b[1..][i]) && !b[0] ==>
               forall i :: 0 <= i < |b| ==> b[i] == (i > 0 && b[1..][i - 1]);
    }
  }

  lemma {:induction false} ComplementValue(a: Bits, b: Bits)
    requires |a| == |b|
    ensures Value(a) + Value(b) == Pow2(|a|) - 1 <== forall i :: 0 <= i < |a| ==> a[i] != b[i]
  {
    if a != [] {
      if forall i :: 0 <= i < |a| ==> a[i] != b[i] {
        assert forall i :: 0 <= i < |a[1..]| ==> a[1..][i] == a[i + 1] && b[1..][i] == b[i + 1];
        ComplementValue(a[1..], b[1..]);
      }
    }
  }

  lemma ByteBits(bits: Bits, k: nat)
    requires |bits| == 32 && k < 4
    ensures Bits8(Byte(bits, k)) == bits[8 * k..8 * k + 8]
  {
    BitsOfValue(bits[8 * k..8 * k + 8]);
  }

  /** What the check means bit by bit: no bit of the address is repeated uninverted, or every
      bit of the command is inverted in the last byte. */
  lemma AcceptedBits(bits: Bits)
    requires |bits| == 32
    ensures Accepted(bits) <==>
              || (forall i :: 0 <= i < 8 ==> !(bits[i] && bits[8 + i]))
              || (forall i :: 16 <= i < 24 ==> bits[i] != bits[8 + i])
  {
    AddressPart(bits);
    CommandPart(bits);
    hide Byte, And;
  }

  lemma AddressPart(bits: Bits)
    requires |bits| == 32
    ensures And(Byte(bits, 0), Byte(bits, 1)) == 0 <==> forall i :: 0 <= i < 8 ==> !(bits[i] && bits[8 + i])
  {
    var a, b := Byte(bits, 0), Byte(bits, 1);
    ByteBits(bits, 0);
    ByteBits(bits, 1);
    hide Byte, BitsOf;
    var both := seq(8, i requires 0 <= i < 8 => Bits8(a)[i] && Bits8(b)[i]);
    assert forall i :: 0 <= i < 8 ==> both[i] == (bits[i] && bits[8 + i]);
    ZeroValue(both);
  }

  lemma CommandPart(bits: Bits)
    requires |bits| == 32
    ensures 255 - Byte(bits, 2) == Byte(bits, 3) <==> forall i :: 16 <= i < 24 ==> bits[i] != bits[8 + i]
  {
    var c, d := bits[16..24], bits[24..32];
    BytesHaveEightBits();
    var inverted := seq(8, i requires 0 <= i < 8 => !c[i]);
    ComplementValue(c, inverted);
    BitsOfValue(d);
    BitsOfValue(inverted);
    hide Value, BitsOf;
    assert 255 - Byte(bits, 2) == Value(inverted);
    assert Value(inverted) == Value(d) <==> inverted == d;
    Inverted(bits, inverted);
  }

  lemma Inverted(bits: Bits, inverted: Bits)
    requires |bits| == 32 && |inverted| == 8 && forall i :: 0 <= i < 8 ==> inverted[i] == !bits[16 + i]
    ensures inverted == bits[24..32] <==> forall i :: 16 <= i < 24 ==> bits[i] != bits[8 + i]
  {
    var d := bits[24..32];
    if inverted == d {
      forall i | 16 <= i < 24
        ensures bits[i] != bits[8 + i]
      {
        assert d[i - 16] == inverted[i - 16];
      }
    } else {
      var i :| 0 <= i < 8 && inverted[i] != d[i];
      assert d[i] == bits[24 + i] && bits[16 + i] == bits[8 + (16 + i)];
    }
  }

  // ----- the firmware -----

  class Receiver {
    var phase: Phase
    var last: u32
    var bits: Bits
    var cnt: nat
    var cmd: byte
    var addr: byte
    var again: bool
    var ready: bool
    var rising: bool
    ghost var announced: seq<Notice>
    ghost var delivered: seq<Notice>

    ghost function Value(): State
      reads this
    {
      State(phase, last, bits, cnt, cmd, addr, again, ready, rising, announced, delivered)
    }

    /** ir_recv_init. */
    constructor (now: u32)
      ensures Inv(Value()) && Value() == Initialised(Value(), now)
    {
      phase, last, bits, cnt, cmd, addr := Idle, now, Zeros(32), 0, CMD_NONE, 0;
      again, ready, rising, announced, delivered := false, false, false, [], [];
    }

    method ResetToIdle()
      modifies this`phase, this`rising
      ensures Value() == Reset(old(Value()))
    {
      phase := Idle;
      rising := false;
    }

    method SetReady(a: byte, c: byte, rep: bool)
      modifies this`addr, this`cmd, this`again, this`ready, this`announced
      ensures Value() == Announce(old(Value()), Notice(a, c, rep))
    {
      addr := a;
      cmd := c;
      again := rep;
      ready := true;
      announced := announced + [Notice(a, c, rep)];
    }

    /** ir_recv_gpio_irq. */
    method GpioIrq(now: u32, high: bool)
      requires Runs(Value())
      modifies this
      ensures Value() == IrqStep(old(Value()), now, high)
    {
      hide Announce, BitStep;
      if phase == Idle && high {
        return;
      }
      rising := !high;
      var us := Us(Since(last, now));
      last := now;
      match phase {
        case Idle =>
          phase := LeaderLow;
          bits := Zeros(32);
          cnt := 0;
        case LeaderLow =>
          if high {
            if InRange(us, LEADER_LOW_MIN, LEADER_LOW_MAX) {
              phase := LeaderHigh;
            } else {
              ResetToIdle();
            }
          }
        case LeaderHigh =>
          if !high {
            if InRange(us, LEADER_HIGH_MIN, LEADER_HIGH_MAX) {
              phase := Data;
            } else if InRange(us, REPEAT_HIGH_MIN, REPEAT_HIGH_MAX) {
              if cmd != CMD_NONE {
                SetReady(addr, cmd, true);
              }
              ResetToIdle();
            } else {
              ResetToIdle();
            }
          }
        case Data =>
          if high {
            if InRange(us, BIT_LOW_MIN, BIT_LOW_MAX) {
              phase := DataHigh;
            } else {
              ResetToIdle();
            }
          }
        case DataHigh =>
          if !high {
            EndOfBit(us);
          }
      }
    }

    /** The IR_STATE_DATA_HIGH case of the interrupt. */
    method EndOfBit(us: nat)
      requires |bits| == 32 && cnt < 32
      modifies this
      ensures Value() == BitStep(old(Value()), us)
    {
      if InRange(us, BIT_ONE_MIN, BIT_ONE_MAX) {
        bits := bits[cnt := true];
      } else if InRange(us, BIT_ZERO_MIN, BIT_ZERO_MAX) {
        // bit 0
      } else {
        ResetToIdle();
        return;
      }
      cnt := cnt + 1;
      if cnt >= 32 {
        var a, aInv, c, cInv := Byte(bits, 0), Byte(bits, 1), Byte(bits, 2), Byte(bits, 3);
        hide Byte, And;
        if And(a, aInv) == 0 || 255 - c == cInv {
          SetReady(a, c, false);
        }
        ResetToIdle();
      } else {
        phase := Data;
      }
    }

    /** ir_recv_poll; `got` is what the callback is given. */
    method Poll(now: u32) returns (got: seq<Notice>)
      modifies this
      ensures Value() == PollStep(old(Value()), now)
      ensures delivered == old(delivered) + got && |got| <= 1
    {
      got := [];
      if phase != Idle {
        if Us(Since(last, now)) > TIMEOUT_US {
          ResetToIdle();
        }
      }
      if ready {
        ready := false;
        got := [Notice(addr, cmd, again)];
        delivered := delivered + got;
      }
    }

    /** ir_recv_get_cmd. */
    method TakeCmd() returns (c: byte)
      modifies this
      ensures Value() == Step(old(Value()), GetCmd)
      ensures c == if old(ready) then old(cmd) else CMD_NONE
    {
      if !ready {
        return CMD_NONE;
      }
      ready := false;
      delivered := delivered + [Notice(addr, cmd, again)];
      return cmd;
    }
  }
}
