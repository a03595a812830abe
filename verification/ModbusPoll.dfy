/** The poll cycle of apps/epeverMonitor/epeverMonitor.c: three requests, three answers, one
    published record, with time-outs and a periodic restart. */
module ModbusPoll {
  import opened Words
  import opened CrcAlgebra
  import opened ModbusFrames

  const TICKS_PER_MS: nat := 16000
  const RSP_TIMEOUT_MS: nat := 500
  const RX_DATA: nat := 124

  const ADDR1: word := 0x3100
  const ADDR2: word := 0x310C
  const ADDR3: word := 0x311A

  datatype Phase = RatedReq | RatedWait | Idle | Wait1 | Wait2 | Wait3 {
    predicate Waiting() {
      Wait1? || Wait2? || Wait3?
    }
  }

  /** `rxLen` and `rx` are the receive buffer behind its four-byte length header. */
  datatype State = State(phase: Phase, reqTime: u32, data: Record, rxFlag: bool, rxLen: word, rx: seq<byte>,
                         sent: seq<seq<byte>>, published: seq<Record>)

  /** A timer tick, a frame put into the buffer by DMA, and the two polls of the main loop;
      `now` and `later` are successive readings of the 16 MHz clock. */
  datatype Event = Tick(now: u32) | Frame(len: word, bytes: seq<byte>) | RxPoll(now: u32, later: u32)
                 | TimeoutPoll(now: u32)

  /** Milliseconds since the last request, as the wrapping clock shows them. */
  function Elapsed(reqTime: u32, now: u32): nat {
    (now - reqTime) % 0x1_0000_0000 / TICKS_PER_MS
  }

  function ReadRequest(addr: word, count: nat): seq<byte>
    requires count < 128
  {
    Request(SLAVE_ID, FUNC_READ, addr, count)
  }

  function Requested(st: State, addr: word, count: nat, next: Phase, now: u32): State
    requires count < 128
  {
    st.(sent := st.sent + [ReadRequest(addr, count)], phase := next, reqTime := now)
  }

  /** epever_poll_timer_cb. */
  function TickStep(st: State, now: u32): State {
    var idle := if st.phase != Idle then st.(phase := Idle, rxFlag := false) else st;
    Requested(idle.(data := ZERO_RECORD), ADDR1, COUNT1, Wait1, now)
  }

  /** uart_rx_poll. */
  function RxStep(st: State, now: u32, later: u32): State
    requires |st.rx| == RX_DATA
  {
    if !st.rxFlag then st
    else
      var taken := st.(rxFlag := false);
      if st.phase == RatedWait then
        taken.(phase := if Elapsed(st.reqTime, now) > RSP_TIMEOUT_MS then RatedReq else Idle)
      else if !st.phase.Waiting() then taken
      else if Elapsed(st.reqTime, now) > RSP_TIMEOUT_MS then taken.(phase := Idle)
      else AnswerStep(taken, later)
  }

  /** A frame that arrived in time. */
  function AnswerStep(st: State, later: u32): State
    requires |st.rx| == RX_DATA && st.phase.Waiting()
  {
    var failed := st.(phase := Idle);
    if st.rxLen == 0 || st.rxLen > RX_DATA then failed
    else if st.rxLen >= 3 && st.rx[1] >= 0x80 then failed
    else match st.phase
      case Wait1 =>
        if ValidResponse(st.rx, st.rxLen, COUNT1) then
          Requested(st.(data := WithSolar(st.data, Registers(st.rx, COUNT1))), ADDR2, COUNT2, Wait2, later)
        else failed
      case Wait2 =>
        if ValidResponse(st.rx, st.rxLen, COUNT2) then
          Requested(st.(data := WithLoad(st.data, Registers(st.rx, COUNT2))), ADDR3, COUNT3, Wait3, later)
        else failed
      case Wait3 =>
        if ValidResponse(st.rx, st.rxLen, COUNT3) then
          var full := WithCharge(st.data, Registers(st.rx, COUNT3));
          failed.(data := full, published := st.published + [full])
        else failed
  }

  /** epever_modbus_timeout_poll. */
  function TimeoutStep(st: State, now: u32): State {
    if st.rxFlag || st.reqTime == 0 || Elapsed(st.reqTime, now) <= RSP_TIMEOUT_MS then st
    else if st.phase == RatedWait then st.(phase := RatedReq)
    else if st.phase.Waiting() then st.(phase := Idle)
    else st
  }

  function Step(st: State, e: Event): (r: State)
    requires |st.rx| == RX_DATA && Enabled(e)
    ensures |r.rx| == RX_DATA
  {
    match e
    case Tick(now) => TickStep(st, now)
    case Frame(len, bytes) => st.(rxFlag := true, rxLen := len, rx := bytes)
    case RxPoll(now, later) => RxStep(st, now, later)
    case TimeoutPoll(now) => TimeoutStep(st, now)
  }

  predicate Enabled(e: Event) {
    e.Frame? ==> |e.bytes| == RX_DATA
  }

  // ----- what an observer sees -----

  /** A frame taken out of the buffer, and how long after the last request. */
  datatype Seen = Seen(len: word, bytes: seq<byte>, elapsed: nat)

  /** Since the last tick: the frames taken, the requests sent and the records published. */
  datatype History = History(seen: seq<Seen>, sent: seq<seq<byte>>, published: seq<Record>)

  const NOTHING: History := History([], [], [])

  function Observe(st: State, r: State, e: Event, h: History): History {
    var since := if e.Tick? then NOTHING else h;
    var sent := if |st.sent| <= |r.sent| then r.sent[|st.sent|..] else [];
    var published := if |st.published| <= |r.published| then r.published[|st.published|..] else [];
    History(if e.RxPoll? && st.rxFlag
            then since.seen + [Seen(st.rxLen, st.rx, Elapsed(st.reqTime, e.now))]
            else since.seen,
            since.sent + sent, since.published + published)
  }

  /** The three requests of a cycle. */
  function Requests(): (r: seq<seq<byte>>)
    ensures |r| == 3
  {
    [ReadRequest(ADDR1, COUNT1), ReadRequest(ADDR2, COUNT2), ReadRequest(ADDR3, COUNT3)]
  }

  function Count(i: nat): (n: nat)
    ensures n < 60
  {
    if i == 0 then COUNT1 else if i == 1 then COUNT2 else COUNT3
  }

  /** The `i`-th frame of a cycle: in time, no longer than the buffer, and the right answer. */
  predicate Answers(s: Seen, i: nat) {
    && s.elapsed <= 500 && |s.bytes| == 124 && s.len <= 124
    && ValidResponse(s.bytes, s.len, Count(i))
  }

  predicate AllAnswer(seen: seq<Seen>) {
    forall i :: 0 <= i < |seen| ==> Answers(seen[i], i)
  }

  /** What the answers of a cycle say. */
  function Assembled(seen: seq<Seen>): Record
    requires |seen| <= 3 && AllAnswer(seen)
  {
    if |seen| == 0 then ZERO_RECORD
    else
      var before, s := Assembled(seen[..|seen| - 1]), seen[|seen| - 1];
      assert Answers(s, |seen| - 1);
      if |seen| == 1 then WithSolar(before, Registers(s.bytes, COUNT1))
      else if |seen| == 2 then WithLoad(before, Registers(s.bytes, COUNT2))
      else WithCharge(before, Registers(s.bytes, COUNT3))
  }

  function Position(p: Phase): nat
    requires p.Waiting()
  {
    if p.Wait1? then 0 else if p.Wait2? then 1 else 2
  }

  /** A waiting cycle has taken exactly the answers it stands for; an idle one has sent at
      most three requests and published at most one record. */
  ghost predicate Inv(st: State, h: History) {
    && |st.rx| == RX_DATA
    && (st.phase == Idle || st.phase.Waiting())
    && (st.phase == Idle ==> h.sent <= Requests() && |h.published| <= 1)
    && (st.phase.Waiting() ==>
          && |h.seen| == Position(st.phase) && AllAnswer(h.seen)
          && st.data == Assembled(h.seen)
          && h.sent == Requests()[..Position(st.phase) + 1]
          && h.published == [])
  }

  /** A step publishes nothing, or the record of exactly three frames taken since the last
      tick, each in time and the right answer to its request. */
  ghost predicate PublishesSnapshot(st: State, r: State, h': History) {
    || r.published == st.published
    || (&& |h'.seen| == 3 && AllAnswer(h'.seen)
        && r.published == st.published + [Assembled(h'.seen)] && Assembled(h'.seen).valid)
  }

  lemma AssembledGrows(seen: seq<Seen>, s: Seen)
    requires |seen| < 3 && AllAnswer(seen) && Answers(s, |seen|)
    ensures AllAnswer(seen + [s])
    ensures |s.bytes| >= 3 + 2 * Count(|seen|)
    ensures Assembled(seen + [s]) == (
              if |seen| == 0 then WithSolar(Assembled(seen), Registers(s.bytes, COUNT1))
              else if |seen| == 1 then WithLoad(Assembled(seen), Registers(s.bytes, COUNT2))
              else WithCharge(Assembled(seen), Registers(s.bytes, COUNT3)))
  {
  }

  lemma AnswerKeeps(st: State, h: History, e: Event)
    requires Inv(st, h) && e.RxPoll? && st.rxFlag && st.phase.Waiting()
    requires Elapsed(st.reqTime, e.now) <= RSP_TIMEOUT_MS
    ensures var r := Step(st, e);
            Inv(r, Observe(st, r, e, h)) && PublishesSnapshot(st, r, Observe(st, r, e, h))
  {
    hide ValidResponse, Registers, WithSolar, WithLoad, ReadRequest, Elapsed, AllAnswer, Assembled;
    var s := Seen(st.rxLen, st.rx, Elapsed(st.reqTime, e.now));
    if st.rxLen <= RX_DATA && ValidResponse(st.rx, st.rxLen, Count(Position(st.phase))) {
      AssembledGrows(h.seen, s);
    }
  }

  lemma NothingSeen()
    ensures AllAnswer([]) && Assembled([]) == ZERO_RECORD
  {
  }

  lemma TickKeeps(st: State, h: History, now: u32)
    requires |st.rx| == RX_DATA
    ensures var r := TickStep(st, now);
            && Inv(r, Observe(st, r, Tick(now), h)) && r.published == st.published
  {
    hide ReadRequest, AllAnswer, Assembled;
    var r := TickStep(st, now);
    assert r.sent[|st.sent|..] == [ReadRequest(ADDR1, COUNT1)] == Requests()[..1];
    NothingSeen();
  }

  /** A step that sends and publishes nothing stays where it is or falls back to idle. */
  lemma QuietKeeps(st: State, r: State, h: History, h': History)
    requires Inv(st, h) && |r.rx| == RX_DATA && h'.sent == h.sent && h'.published == h.published
    requires r.phase == Idle || (r.phase == st.phase && r.data == st.data && h'.seen == h.seen)
    ensures Inv(r, h')
  {
    hide Requests, AllAnswer, Assembled;
  }

  lemma QuietHistory(st: State, r: State, e: Event, h: History)
    requires !e.Tick? && r.sent == st.sent && r.published == st.published
    ensures var h' := Observe(st, r, e, h);
            && h'.sent == h.sent && h'.published == h.published
            && (!(e.RxPoll? && st.rxFlag) ==> h'.seen == h.seen)
  {
  }

  lemma QuietStep(st: State, e: Event)
    requires |st.rx| == RX_DATA && Enabled(e) && !e.Tick? && (st.phase == Idle || st.phase.Waiting())
    requires !(e.RxPoll? && st.rxFlag && st.phase.Waiting() && Elapsed(st.reqTime, e.now) <= RSP_TIMEOUT_MS)
    ensures var r := Step(st, e);
            && r.sent == st.sent && r.published == st.published
            && (r.phase == Idle || (r.phase == st.phase && r.data == st.data && !(e.RxPoll? && st.rxFlag)))
  {
  }

  /** Every event keeps the invariant, and nothing but a consistent snapshot is published. */
  lemma StepKeeps(st: State, h: History, e: Event)
    requires Inv(st, h) && Enabled(e)
    ensures var r := Step(st, e);
            Inv(r, Observe(st, r, e, h)) && PublishesSnapshot(st, r, Observe(st, r, e, h))
  {
    assert |st.rx| == RX_DATA && (st.phase == Idle || st.phase.Waiting());
    hide Inv, Observe, Elapsed, AnswerStep, TickStep, AllAnswer, Assembled;
    var r := Step(st, e);
    if e.Tick? {
      TickKeeps(st, h, e.now);
    } else if e.RxPoll? && st.rxFlag && st.phase.Waiting() && Elapsed(st.reqTime, e.now) <= RSP_TIMEOUT_MS {
      AnswerKeeps(st, h, e);
    } else {
      QuietStep(st, e);
      hide Step;
      QuietHistory(st, r, e, h);
      QuietKeeps(st, r, h, Observe(st, r, e, h));
    }
  }

  // ----- runs -----

  function Run(st: State, events: seq<Event>): (r: State)
    requires |st.rx| == RX_DATA && forall e :: e in events ==> Enabled(e)
    ensures |r.rx| == RX_DATA
    decreases |events|
  {
    hide Step, Enabled;
    if events == [] then st
    else
      assert events[0] in events;
      Run(Step(st, events[0]), events[1..])
  }

  function RunHistory(st: State, h: History, events: seq<Event>): History
    requires |st.rx| == RX_DATA && forall e :: e in events ==> Enabled(e)
    decreases |events|
  {
    hide Step, Enabled, Observe;
    if events == [] then h
    else
      assert events[0] in events;
      var r := Step(st, events[0]);
      RunHistory(r, Observe(st, r, events[0], h), events[1..])
  }

  lemma {:induction false} RunKeeps(st: State, h: History, events: seq<Event>)
    requires Inv(st, h) && forall e :: e in events ==> Enabled(e)
    ensures Inv(Run(st, events), RunHistory(st, h, events))
    decreases |events|
  {
    assert |st.rx| == RX_DATA;
    hide Step, Enabled, Observe, Inv, PublishesSnapshot;
    if events != [] {
      assert events[0] in events;
      StepKeeps(st, h, events[0]);
      var r := Step(st, events[0]);
      RunKeeps(r, Observe(st, r, events[0], h), events[1..]);
    }
  }

  /** As user_init leaves it, apart from the state of the receive buffer. */
  ghost predicate Initial(st: State) {
    st.phase == Idle && |st.rx| == RX_DATA && st.sent == [] && st.published == []
  }

  /** In every interleaving of ticks, frames and polls after start-up: only the idle and the
      three waiting phases occur; at most three requests, the right ones in order, and at
      most one record per tick; and whatever is published next is a consistent snapshot. */
  lemma ConsistentSnapshots(st: State, events: seq<Event>, e: Event)
    requires Initial(st) && Enabled(e) && forall x :: x in events ==> Enabled(x)
    ensures var r, h := Run(st, events), RunHistory(st, NOTHING, events);
            && (r.phase == Idle || r.phase.Waiting())
            && h.sent <= Requests() && |h.published| <= 1
            && PublishesSnapshot(r, Step(r, e), Observe(r, Step(r, e), e, h))
            && PublishesAnswers(r, Step(r, e), Observe(r, Step(r, e), e, h))
  {
    InitialIsInv(st);
    hide Step, Run, RunHistory, Observe, PublishesSnapshot, Inv, Enabled, Initial, Requests;
    RunKeeps(st, NOTHING, events);
    var r, h := Run(st, events), RunHistory(st, NOTHING, events);
    StepKeeps(r, h, e);
    InvMeans(r, h);
    SnapshotShows(r, Step(r, e), Observe(r, Step(r, e), e, h));
  }

  /** A register of a frame in the buffer. */
  function RegisterAt(bytes: seq<byte>, i: nat): word
    requires |bytes| == 124 && i < 60
  {
    256 * (bytes[3 + 2 * i] as int) + bytes[4 + 2 * i]
  }

  function RegistersAt(bytes: seq<byte>, n: nat): (q: seq<word>)
    requires |bytes| == 124 && n < 60
    ensures |q| == n
  {
    seq(n, i requires 0 <= i < n => RegisterAt(bytes, i))
  }

  /** A step publishes nothing, or what the bytes of the three frames say. */
  ghost predicate PublishesAnswers(st: State, r: State, h: History) {
    || r.published == st.published
    || (&& |h.seen| == 3 && |r.published| == |st.published| + 1 && st.published <= r.published
        && (forall i :: 0 <= i < 3 ==> |h.seen[i].bytes| == 124)
        && Shows(r.published[|st.published|], RegistersAt(h.seen[0].bytes, 8), RegistersAt(h.seen[1].bytes, 6),
                 RegistersAt(h.seen[2].bytes, 1)))
  }

  lemma SnapshotShows(st: State, r: State, h: History)
    requires PublishesSnapshot(st, r, h)
    ensures PublishesAnswers(st, r, h)
  {
    hide Shows, WithSolar, WithLoad, WithCharge, ValidResponse, Registers;
    if r.published != st.published {
      var solar, load := RegistersAt(h.seen[0].bytes, 8), RegistersAt(h.seen[1].bytes, 6);
      var charge := RegistersAt(h.seen[2].bytes, 1);
      AssembledIs(h.seen);
      SegmentsShow(ZERO_RECORD, solar, load, charge);
    }
  }

  lemma AssembledIs(seen: seq<Seen>)
    requires |seen| == 3 && AllAnswer(seen)
    ensures forall i :: 0 <= i < 3 ==> |seen[i].bytes| == 124
    ensures Assembled(seen) == WithCharge(WithLoad(WithSolar(ZERO_RECORD, RegistersAt(seen[0].bytes, 8)),
                                                   RegistersAt(seen[1].bytes, 6)), RegistersAt(seen[2].bytes, 1))
  {
    NothingSeen();
    hide WithSolar, WithLoad, WithCharge, ValidResponse, Assembled;
    assert Answers(seen[0], 0) && Answers(seen[1], 1) && Answers(seen[2], 2);
    AssembledGrows([], seen[0]);
    assert [] + [seen[0]] == [seen[0]] && [seen[0]] + [seen[1]] == [seen[0], seen[1]];
    assert [seen[0], seen[1]] + [seen[2]] == seen;
    AssembledGrows([seen[0]], seen[1]);
    AssembledGrows([seen[0], seen[1]], seen[2]);
    assert Registers(seen[0].bytes, 8) == RegistersAt(seen[0].bytes, 8);
    assert Registers(seen[1].bytes, 6) == RegistersAt(seen[1].bytes, 6);
    assert Registers(seen[2].bytes, 1) == RegistersAt(seen[2].bytes, 1);
  }

  lemma InitialIsInv(st: State)
    requires Initial(st)
    ensures |st.rx| == RX_DATA && Inv(st, NOTHING)
  {
    hide Requests, AllAnswer, Assembled;
  }

  lemma InvMeans(st: State, h: History)
    requires Inv(st, h)
    ensures (st.phase == Idle || st.phase.Waiting()) && h.sent <= Requests() && |h.published| <= 1
  {
    hide AllAnswer, Assembled, Requests;
  }

  // ----- frames older than their request -----

  /** Of the frame in the buffer, whether it came before the last request; of each frame taken
      since the last tick, whether it came before its request; whether that tick found the poll
      idle with a frame in the buffer; and whether another frame has come since, before the
      first was taken. */
  datatype Ages = Ages(early: bool, taken: seq<bool>, found: bool, renewed: bool)

  const UNAGED: Ages := Ages(false, [], false, false)

  function Aged(st: State, r: State, e: Event, a: Ages): Ages {
    var since := if e.Tick? then Ages(a.early, [], st.phase == Idle && st.rxFlag, false) else a;
    Ages(if e.Frame? then false else if r.sent != st.sent then r.rxFlag else a.early && r.rxFlag,
         if e.RxPoll? && st.rxFlag then since.taken + [a.early] else since.taken,
         since.found, since.renewed || (e.Frame? && a.taken == []))
  }

  /** Only the first frame of a cycle can be older than its request. */
  ghost predicate AgeInv(st: State, h: History, a: Ages) {
    && |a.taken| == |h.seen|
    && (a.early <==> a.found && !a.renewed && a.taken == [])
    && (a.early ==> st.rxFlag && st.phase == Wait1)
    && forall i :: 0 <= i < |a.taken| ==> (a.taken[i] <==> i == 0 && a.found && !a.renewed)
  }

  lemma AgeKeeps(st: State, h: History, a: Ages, e: Event)
    requires AgeInv(st, h, a) && |st.rx| == RX_DATA && Enabled(e)
    ensures AgeInv(Step(st, e), Observe(st, Step(st, e), e, h), Aged(st, Step(st, e), e, a))
  {
    hide ValidResponse, Registers, WithSolar, WithLoad, WithCharge, ReadRequest, Elapsed;
  }

  function RunAges(st: State, a: Ages, events: seq<Event>): Ages
    requires |st.rx| == RX_DATA && forall e :: e in events ==> Enabled(e)
    decreases |events|
  {
    hide Step, Enabled, Aged;
    if events == [] then a
    else
      assert events[0] in events;
      var r := Step(st, events[0]);
      RunAges(r, Aged(st, r, events[0], a), events[1..])
  }

  lemma {:induction false} RunAgeKeeps(st: State, h: History, a: Ages, events: seq<Event>)
    requires AgeInv(st, h, a) && |st.rx| == RX_DATA && forall e :: e in events ==> Enabled(e)
    ensures AgeInv(Run(st, events), RunHistory(st, h, events), RunAges(st, a, events))
    decreases |events|
  {
    hide Step, Enabled, Observe, AgeInv, Aged;
    if events != [] {
      assert events[0] in events;
      AgeKeeps(st, h, a, events[0]);
      var r := Step(st, events[0]);
      RunAgeKeeps(r, Observe(st, r, events[0], h), Aged(st, r, events[0], a), events[1..]);
    }
  }

  /** In every interleaving after start-up: a frame taken in a cycle came before its request
      exactly if it is the first of the cycle, the tick found the poll idle with it in the
      buffer, and no other frame came in its place. So a published record, of three frames,
      can hold an older one, but only its first. */
  lemma OnlyFirstIsEarly(st: State, events: seq<Event>)
    requires Initial(st) && forall e :: e in events ==> Enabled(e)
    ensures var a, h := RunAges(st, UNAGED, events), RunHistory(st, NOTHING, events);
            && |a.taken| == |h.seen|
            && forall i :: 0 <= i < |a.taken| ==> (a.taken[i] <==> i == 0 && a.found && !a.renewed)
  {
    assert AgeInv(st, NOTHING, UNAGED);
    hide Run, RunHistory, RunAges;
    RunAgeKeeps(st, NOTHING, UNAGED, events);
  }

  // ----- progress -----

  /** The bytes of an answer as they lie in the receive buffer. */
  function InBuffer(frame: seq<byte>, tail: seq<byte>): (b: seq<byte>)
    requires |frame| + |tail| == RX_DATA
    ensures |b| == RX_DATA
  {
    frame + tail
  }

  /** The frame that carries `regs`, received and polled in time in phase `p`. */
  lemma GoodAnswer(st: State, regs: seq<word>, tail: seq<byte>, now: u32, later: u32)
    requires |st.rx| == RX_DATA && st.phase.Waiting() && |regs| == Count(Position(st.phase))
    requires |Response(regs)| + |tail| == RX_DATA && Elapsed(st.reqTime, now) <= RSP_TIMEOUT_MS
    ensures var arrived := Step(st, Frame(|Response(regs)|, InBuffer(Response(regs), tail)));
            var taken := arrived.(rxFlag := false);
            Step(arrived, RxPoll(now, later)) == (
              match st.phase
              case Wait1 => Requested(taken.(data := WithSolar(st.data, regs)), ADDR2, COUNT2, Wait2, later)
              case Wait2 => Requested(taken.(data := WithLoad(st.data, regs)), ADDR3, COUNT3, Wait3, later)
              case Wait3 => taken.(phase := Idle, data := WithCharge(st.data, regs),
                               published := st.published + [WithCharge(st.data, regs)]))
  {
    hide CrcTest, Response, Registers, WithSolar, WithLoad, ReadRequest, Elapsed, ValidResponse, InBuffer;
    AnswerInBuffer(regs, tail);
  }

  lemma AnswerInBuffer(regs: seq<word>, tail: seq<byte>)
    requires |regs| < 60 && |Response(regs)| + |tail| == RX_DATA
    ensures var buf := InBuffer(Response(regs), tail);
            && |Response(regs)| == 5 + 2 * |regs| && ValidResponse(buf, |Response(regs)|, |regs|)
            && Registers(buf, |regs|) == regs && buf[1] < 0x80
  {
    var n := |Response(regs)|;
    var buf := InBuffer(Response(regs), tail);
    assert buf[..n] == Response(regs);
    ResponseReads(regs, tail);
    AcceptedIsResponse(buf, n, |regs|);
    hide CrcTest, Response, Registers;
    assert ValidResponse(buf, n, |regs|);
    assert buf[1] == FUNC_READ;
  }

  /** The readings of the slave's 15 registers. */
  datatype Readings = Readings(solar: seq<word>, load: seq<word>, charge: seq<word>)

  predicate Complete(q: Readings) {
    |q.solar| == COUNT1 && |q.load| == COUNT2 && |q.charge| == COUNT3
  }

  function Snapshot(q: Readings): Record
    requires Complete(q)
  {
    WithCharge(WithLoad(WithSolar(ZERO_RECORD, q.solar), q.load), q.charge)
  }

  function Answer(st: State, regs: seq<word>, tail: seq<byte>, now: u32, later: u32): (r: State)
    requires |st.rx| == RX_DATA && |regs| < 60 && |Response(regs)| + |tail| == RX_DATA
    ensures |r.rx| == RX_DATA
  {
    hide *;
    Step(Step(st, Frame(|Response(regs)|, InBuffer(Response(regs), tail))), RxPoll(now, later))
  }

  /** From any state whatever, a tick and three good answers in time publish exactly the
      slave's registers. */
  lemma CycleCompletes(st: State, q: Readings, t: seq<u32>, tails: seq<seq<byte>>)
    requires |st.rx| == RX_DATA && Complete(q) && |t| == 6 && |tails| == 3
    requires |tails[0]| == RX_DATA - 21 && |tails[1]| == RX_DATA - 17 && |tails[2]| == RX_DATA - 7
    requires Elapsed(t[0], t[1]) <= RSP_TIMEOUT_MS
    requires Elapsed(t[2], t[3]) <= RSP_TIMEOUT_MS && Elapsed(t[4], t[5]) <= RSP_TIMEOUT_MS
    ensures var s1 := Answer(Step(st, Tick(t[0])), q.solar, tails[0], t[1], t[2]);
            var s2 := Answer(s1, q.load, tails[1], t[3], t[4]);
            var s3 := Answer(s2, q.charge, tails[2], t[5], t[5]);
            && s3.published == st.published + [Snapshot(q)] && Shows(Snapshot(q), q.solar, q.load, q.charge)
            && s3.sent == st.sent + Requests() && s3.phase == Idle
  {
    hide Response, WithSolar, WithLoad, WithCharge, ReadRequest, Elapsed, RxStep, InBuffer;
    var s0 := Step(st, Tick(t[0]));
    GoodAnswer(s0, q.solar, tails[0], t[1], t[2]);
    var s1 := Answer(s0, q.solar, tails[0], t[1], t[2]);
    GoodAnswer(s1, q.load, tails[1], t[3], t[4]);
    var s2 := Answer(s1, q.load, tails[1], t[3], t[4]);
    GoodAnswer(s2, q.charge, tails[2], t[5], t[5]);
    SnapshotIs(q);
  }

  lemma SnapshotIs(q: Readings)
    requires Complete(q)
    ensures Shows(Snapshot(q), q.solar, q.load, q.charge)
  {
    SegmentsShow(ZERO_RECORD, q.solar, q.load, q.charge);
    hide Shows;
  }

  /** The three requests as they go out: slave 1, function 4, 8 registers from 0x3100, 6 from
      0x310C, 1 from 0x311A. */
  lemma RequestsAre()
    ensures Requests()[0][..6] == [1, 4, 0x31, 0x00, 0, 8]
    ensures Requests()[1][..6] == [1, 4, 0x31, 0x0C, 0, 6]
    ensures Requests()[2][..6] == [1, 4, 0x31, 0x1A, 0, 1]
  {
    hide Sealed;
    assert Bytes(ADDR1) == [0x31, 0x00] && Bytes(ADDR2) == [0x31, 0x0C] && Bytes(ADDR3) == [0x31, 0x1A];
    assert [SLAVE_ID, FUNC_READ] + [0x31, 0x00] + [0, 8] == [1, 4, 0x31, 0x00, 0, 8];
    assert [SLAVE_ID, FUNC_READ] + [0x31, 0x0C] + [0, 6] == [1, 4, 0x31, 0x0C, 0, 6];
    assert [SLAVE_ID, FUNC_READ] + [0x31, 0x1A] + [0, 1] == [1, 4, 0x31, 0x1A, 0, 1];
  }

  /** A tick starts a cycle whatever went before: nothing read yet, the first request sent, and
      the buffer emptied if a cycle was under way. */
  lemma TickStarts(st: State, now: u32)
    requires |st.rx| == RX_DATA
    ensures Step(st, Tick(now))
         == st.(phase := Wait1, reqTime := now, data := ZERO_RECORD, sent := st.sent + [Requests()[0]],
                rxFlag := st.rxFlag && st.phase == Idle)
    ensures ZERO_RECORD == Record(0, 0, 0, 0, 0, 0, 0, 0, 0, 0, 0, 0, false)
  {
  }

  /** The milliseconds the code counts, from true times less than one turn of the clock apart. */
  lemma ElapsedIs(from: nat, at: nat)
    requires from <= at < from + 0x1_0000_0000
    ensures Elapsed(from % 0x1_0000_0000, at % 0x1_0000_0000) == (at - from) / 16000
  {
    assert (at % 0x1_0000_0000 - from % 0x1_0000_0000) % 0x1_0000_0000 == at - from;
  }

  /** What becomes of a frame that is not the answer waited for: it is thrown away, and a cycle
      under way is given up, if the frame comes from the 501st millisecond on, if its length
      does not fit the buffer, or if it is no valid answer; error replies are none. */
  lemma OtherFrames(st: State, from: nat, at: nat, later: u32)
    requires |st.rx| == RX_DATA && st.rxFlag && st.reqTime == from % 0x1_0000_0000
    requires from <= at < from + 0x1_0000_0000
    ensures var r := Step(st, RxPoll(at % 0x1_0000_0000, later));
            && (st.phase == Idle ==> r == st.(rxFlag := false))
            && (st.phase == RatedWait ==>
                  r == st.(rxFlag := false, phase := if at - from >= 501 * 16000 then RatedReq else Idle))
            && (st.phase.Waiting() && (at - from >= 501 * 16000 || st.rxLen > 124
                                       || !ValidResponse(st.rx, st.rxLen, Count(Position(st.phase)))) ==>
                  r == st.(rxFlag := false, phase := Idle))
            && (st.phase.Waiting() && at - from < 501 * 16000 && st.rxLen <= 124
                && ValidResponse(st.rx, st.rxLen, Count(Position(st.phase))) ==>
                  && !r.rxFlag
                  && r.phase == (if st.phase == Wait1 then Wait2 else if st.phase == Wait2 then Wait3 else Idle)
                  && r.sent == (if st.phase == Wait1 then st.sent + [Requests()[1]]
                                else if st.phase == Wait2 then st.sent + [Requests()[2]] else st.sent)
                  && |r.published| == |st.published| + if st.phase == Wait3 then 1 else 0)
  {
    ElapsedIs(from, at);
    hide CrcTest, Registers, WithSolar, WithLoad, WithCharge, ReadRequest, Elapsed;
  }

  /** An answer that comes while the poll is idle is taken for the answer to the request that
      the next tick sends, and its registers are published with the two that follow. */
  lemma EarlyAnswerIsPublished(st: State, q: Readings, t: seq<u32>, tails: seq<seq<byte>>)
    requires |st.rx| == RX_DATA && st.phase == Idle && Complete(q) && |t| == 6 && |tails| == 3
    requires |tails[0]| == RX_DATA - 21 && |tails[1]| == RX_DATA - 17 && |tails[2]| == RX_DATA - 7
    requires Elapsed(t[0], t[1]) <= RSP_TIMEOUT_MS
    requires Elapsed(t[2], t[3]) <= RSP_TIMEOUT_MS && Elapsed(t[4], t[5]) <= RSP_TIMEOUT_MS
    ensures var early := Step(st, Frame(|Response(q.solar)|, InBuffer(Response(q.solar), tails[0])));
            var s1 := Step(Step(early, Tick(t[0])), RxPoll(t[1], t[2]));
            var s2 := Answer(s1, q.load, tails[1], t[3], t[4]);
            var s3 := Answer(s2, q.charge, tails[2], t[5], t[5]);
            && s3.published == st.published + [Snapshot(q)] && Shows(Snapshot(q), q.solar, q.load, q.charge)
            && s3.sent == st.sent + Requests() && s3.phase == Idle
  {
    hide Response, WithSolar, WithLoad, WithCharge, ReadRequest, Elapsed, RxStep, InBuffer;
    var frame := Frame(|Response(q.solar)|, InBuffer(Response(q.solar), tails[0]));
    assert Step(Step(st, frame), Tick(t[0])) == Step(Step(st, Tick(t[0])), frame);
    CycleCompletes(st, q, t, tails);
  }

  /** With the true time `from` of the request and `at` of the poll less than one turn of
      the clock apart, a waiting cycle without a frame is given up exactly from the 501st
      millisecond on, unless the request left when the clock read zero: then never. */
  lemma SilenceTimesOut(st: State, from: nat, at: nat)
    requires st.phase.Waiting() && !st.rxFlag && st.reqTime == from % 0x1_0000_0000
    requires from <= at < from + 0x1_0000_0000
    ensures var r := TimeoutStep(st, at % 0x1_0000_0000);
            r == if from % 0x1_0000_0000 != 0 && at - from >= 501 * 16000 then st.(phase := Idle) else st
  {
    var now: u32 := at % 0x1_0000_0000;
    assert (now - st.reqTime) % 0x1_0000_0000 == at - from;
  }

  // ----- the firmware -----

  class Monitor {
    var phase: Phase
    var reqTime: u32
    const pollData: PollData
    var rxFlag: bool
    var rxLen: word
    const rx: array<byte>
    var sent: seq<seq<byte>>
    var published: seq<Record>

    ghost predicate Valid()
      reads this
    {
      rx.Length == RX_DATA
    }

    ghost function Value(): State
      reads this, pollData, rx
    {
      State(phase, reqTime, pollData.value, rxFlag, rxLen, rx[..], sent, published)
    }

    /** The state user_init leaves. */
    constructor ()
      ensures Valid() && Initial(Value()) && fresh(pollData) && fresh(rx)
    {
      phase, reqTime, rxFlag, rxLen, sent, published := Idle, 0, false, 0, [], [];
      pollData := new PollData();
      rx := new byte[RX_DATA](_ => 0);
    }

    /** epever_send_req. */
    method SendReq(addr: word, count: nat, next: Phase, now: u32)
      requires count < 128
      modifies this
      ensures Value() == Requested(old(Value()), addr, count, next, now)
    {
      var buf := new byte[8](_ => 0);
      BuildRequest(buf, SLAVE_ID, FUNC_READ, addr, count);
      hide Request;
      sent := sent + [buf[..8]];
      phase := next;
      reqTime := now;
    }

    /** epever_poll_timer_cb. */
    method PollTimer(now: u32)
      requires Valid()
      modifies this, pollData
      ensures Valid() && Value() == Step(old(Value()), Tick(now))
    {
      hide ReadRequest;
      if phase != Idle {
        phase := Idle;
        rxFlag := false;
      }
      pollData.value := ZERO_RECORD;
      SendReq(ADDR1, COUNT1, Wait1, now);
    }

    /** The DMA transfer of a frame and uart_rx_cb. */
    method Receive(len: word, bytes: seq<byte>)
      requires Valid() && |bytes| == RX_DATA
      modifies this, rx
      ensures Valid() && Value() == Step(old(Value()), Frame(len, bytes))
    {
      forall k | 0 <= k < RX_DATA {
        rx[k] := bytes[k];
      }
      rxLen := len;
      rxFlag := true;
      assert rx[..] == bytes;
    }

    /** uart_rx_poll. */
    method UartRxPoll(now: u32, later: u32)
      requires Valid()
      modifies this, pollData
      ensures Valid() && Value() == Step(old(Value()), RxPoll(now, later))
    {
      hide ReadRequest, ValidResponse, Registers, WithSolar, WithLoad, WithCharge, Elapsed;
      if !rxFlag {
        return;
      }
      if phase == RatedWait {
        phase := if Elapsed(reqTime, now) > RSP_TIMEOUT_MS then RatedReq else Idle;
        rxFlag := false;
        return;
      }
      if phase != Wait1 && phase != Wait2 && phase != Wait3 {
        rxFlag := false;
        return;
      }
      if Elapsed(reqTime, now) > RSP_TIMEOUT_MS {
        phase := Idle;
        rxFlag := false;
        return;
      }
      rxFlag := false;
      TakeAnswer(later);
    }

    /** The part of uart_rx_poll that looks at the frame. */
    method TakeAnswer(later: u32)
      requires Valid() && phase.Waiting()
      modifies this, pollData
      ensures Valid() && Value() == AnswerStep(old(Value()), later)
    {
      hide ReadRequest, Registers, WithSolar, WithLoad, WithCharge, CrcTest;
      if rxLen == 0 || rxLen > RX_DATA {
        phase := Idle;
        return;
      }
      if rxLen >= 3 && rx[1] >= 0x80 {
        phase := Idle;
        return;
      }
      if phase == Wait1 {
        var ok := ParseRsp1(rx, rxLen, pollData);
        if ok {
          SendReq(ADDR2, COUNT2, Wait2, later);
        } else {
          phase := Idle;
        }
      } else if phase == Wait2 {
        var ok := ParseRsp2(rx, rxLen, pollData);
        if ok {
          SendReq(ADDR3, COUNT3, Wait3, later);
        } else {
          phase := Idle;
        }
      } else {
        var ok := ParseRsp3(rx, rxLen, pollData);
        if ok {
          published := published + [pollData.value];
        }
        phase := Idle;
      }
    }

    /** epever_modbus_timeout_poll. */
    method ModbusTimeoutPoll(now: u32)
      requires Valid()
      modifies this
      ensures Valid() && Value() == Step(old(Value()), TimeoutPoll(now))
    {
      if rxFlag {
        return;
      }
      if reqTime == 0 {
        return;
      }
      var elapsed := Elapsed(reqTime, now);
      if phase == RatedWait {
        if elapsed > RSP_TIMEOUT_MS {
          phase := RatedReq;
        }
      } else if phase == Wait1 || phase == Wait2 || phase == Wait3 {
        if elapsed > RSP_TIMEOUT_MS {
          phase := Idle;
        }
      }
    }
  }
}
