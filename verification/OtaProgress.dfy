/** The update session cannot go on for ever, asks for a block at most five times, and does
    not care how the file is cut into blocks. */
module OtaProgress {
  import opened Words
  import opened Flash
  import opened OtaSession
  import opened OtaInvariant
  import opened OtaSteps
  import opened OtaRuns

  // ----- termination -----

  /** An event that moves an open session on: a retry tick, or a non-empty block that is
      taken. */
  predicate Effective(st: State, e: Event) {
    || e.Tick?
    || (e.Block? && e.ok && e.offset == st.info.offset && e.data != [])
  }

  /** What a session has left, in lexicographic order: bytes to come, then requests. */
  function BytesLeft(st: State): int {
    st.info.total - st.info.offset
  }

  function RequestsLeft(st: State): int {
    RETRY_MAX - st.info.requestCnt
  }

  /** A stale or repeated block, an empty block at the current offset, or a second start
      request leave the count of bytes and, but for the empty block, of requests alone. */
  lemma EffectiveEventsDecrease(L: Layout, st: State, recv: seq<byte>, e: Event)
    requires Inv(L, st, recv) && Enabled(st, e) && st.info.processStart && Effective(st, e)
    ensures var r := Step(L, st, e);
            r.info.processStart ==>
              && 0 <= BytesLeft(r) && 0 <= RequestsLeft(r)
              && (BytesLeft(r) < BytesLeft(st)
                  || (BytesLeft(r) == BytesLeft(st) && RequestsLeft(r) < RequestsLeft(st)))
  {
  }

  /** Six events per byte still missing, and the requests left for the current offset. */
  function Budget(st: State): int {
    (RETRY_MAX + 1) * BytesLeft(st) + RequestsLeft(st)
  }

  /** Events that are not effective, and are not an empty block, change nothing here. */
  predicate Idle(st: State, e: Event) {
    || e.Start?
    || (e.Block? && e.ok && e.offset != st.info.offset)
  }

  lemma BudgetStep(L: Layout, st: State, recv: seq<byte>, e: Event)
    requires Inv(L, st, recv) && Enabled(st, e) && st.info.processStart
    requires Step(L, st, e).info.processStart
    ensures 0 <= Budget(Step(L, st, e))
    ensures Effective(st, e) ==> Budget(Step(L, st, e)) < Budget(st)
    ensures Idle(st, e) ==> Budget(Step(L, st, e)) == Budget(st)
  {
    var r := Step(L, st, e);
    OpenStep(L, st, recv, e);
    if Effective(st, e) {
      if e.Tick? {
        RetryFollows(L, st, recv);
      } else {
        CountRestarts(L, st, e);
        SessionStays(L, st, e);
      }
    } else if Idle(st, e) {
      assert r.info == st.info;
    }
    hide Span, Content, Knows, Step, Closes;
  }

  /** An empty block at the current offset: it is taken, and only restarts the request count. */
  predicate EmptyTaken(st: State, e: Event) {
    e.Block? && e.ok && e.offset == st.info.offset && e.data == []
  }

  lemma EmptyRestarts(L: Layout, st: State, recv: seq<byte>, e: Event)
    requires Inv(L, st, recv) && Enabled(st, e) && st.info.processStart && EmptyTaken(st, e)
    requires Step(L, st, e).info.processStart
    ensures 0 <= Budget(Step(L, st, e)) <= Budget(st) + RETRY_MAX
  {
    InvBounds(L, st, recv);
    StepKeeps(L, st, recv, e);
    hide Inv, Step;
    CountRestarts(L, st, e);
    SessionStays(L, st, e);
  }

  lemma InvBounds(L: Layout, st: State, recv: seq<byte>)
    requires Inv(L, st, recv) && st.info.processStart
    ensures InChip(L, st) && 0 <= BytesLeft(st) && 0 <= RequestsLeft(st) && 0 <= Budget(st)
  {
    hide Span, Content, Knows;
  }

  ghost function CountEffective(L: Layout, st: State, events: seq<Event>): nat
    requires InChip(L, st) && IsRun(L, st, events)
    decreases |events|
  {
    hide Step, InChip;
    if events == [] then 0
    else
      var rest := CountEffective(L, Step(L, st, events[0]), events[1..]);
      if Effective(st, events[0]) then rest + 1 else rest
  }

  ghost function CountEmpty(L: Layout, st: State, events: seq<Event>): nat
    requires InChip(L, st) && IsRun(L, st, events)
    decreases |events|
  {
    hide Step, InChip;
    if events == [] then 0
    else
      var rest := CountEmpty(L, Step(L, st, events[0]), events[1..]);
      if EmptyTaken(st, events[0]) then rest + 1 else rest
  }

  /** An event that leaves the session open is effective, an empty block taken, or idle. */
  lemma EventKinds(L: Layout, st: State, recv: seq<byte>, e: Event)
    requires Inv(L, st, recv) && Enabled(st, e) && st.info.processStart && Step(L, st, e).info.processStart
    ensures Effective(st, e) || EmptyTaken(st, e) || Idle(st, e)
    ensures !(Effective(st, e) && EmptyTaken(st, e))
  {
    if e.Block? && !e.ok {
      BlockFollows(L, st, recv, e);
      hide Step, Inv, Span, AllErased;
      assert false;
    }
    hide Step, Inv;
  }

  /** Every run: a session that stays open has seen at most as many effective events as its
      budget, and five more for every empty block it has taken. */
  lemma {:induction false} EventsAreBounded(L: Layout, st: State, recv: seq<byte>, events: seq<Event>)
    requires Inv(L, st, recv) && InChip(L, st) && IsRun(L, st, events) && StaysOpen(L, st, events)
    ensures CountEffective(L, st, events) <= Budget(st) + RETRY_MAX * CountEmpty(L, st, events)
    decreases |events|
  {
    hide Step, InChip, Inv, Effective, EmptyTaken, Idle, Budget, Layout.Valid;
    assert st.info.processStart;
    InvBounds(L, st, recv);
    if events != [] {
      var e, r := events[0], Step(L, st, events[0]);
      StepKeeps(L, st, recv, e);
      assert r.info.processStart;
      EventKinds(L, st, recv, e);
      if EmptyTaken(st, e) {
        EmptyRestarts(L, st, recv, e);
      } else {
        BudgetStep(L, st, recv, e);
      }
      EventsAreBounded(L, r, Received(st, recv, e), events[1..]);
    }
  }

  /** Non-empty blocks and arbitrary timing. */
  ghost predicate NonEmptyBlocks(events: seq<Event>) {
    forall e :: e in events && e.Block? ==> e.data != []
  }

  lemma {:induction false} NoEmptyBlocks(L: Layout, st: State, events: seq<Event>)
    requires InChip(L, st) && IsRun(L, st, events) && NonEmptyBlocks(events)
    ensures CountEmpty(L, st, events) == 0
    decreases |events|
  {
    hide Step, InChip;
    if events != [] {
      assert events[0] in events;
      NoEmptyBlocks(L, Step(L, st, events[0]), events[1..]);
    }
  }

  /** Without empty blocks no run of blocks and ticks keeps a session open for ever. */
  lemma SessionsTerminate(L: Layout, st: State, recv: seq<byte>, events: seq<Event>)
    requires Inv(L, st, recv) && InChip(L, st) && IsRun(L, st, events) && StaysOpen(L, st, events)
    requires NonEmptyBlocks(events)
    ensures CountEffective(L, st, events) <= Budget(st)
  {
    hide Inv, InChip, Budget, NonEmptyBlocks, CountEffective, CountEmpty, IsRun, StaysOpen;
    EventsAreBounded(L, st, recv, events);
    NoEmptyBlocks(L, st, events);
  }

  lemma TickRetries(L: Layout, st: State, recv: seq<byte>)
    requires Inv(L, st, recv) && st.info.processStart
    ensures InChip(L, st) && st.timer == RetryTimer && st.info.offset <= st.info.total && L.sector > 0
    ensures Step(L, st, Tick) == RetryStep(L, st)
  {
    hide Span, Content, Knows, RetryStep;
  }

  /** An empty block is refused only where a local session looks at the flag byte and finds
      another one behind the block. */
  predicate EmptyPasses(L: Layout, info: Info, next: byte) {
    info.binType == LOCAL_BIN && info.offset == L.flagAt ==> next == START_FLAG
  }

  /** An empty answer at the current offset is taken as progress: the session stays open, and
      all that changes is that the request count starts again. */
  lemma EmptyBlocksStall(L: Layout, st: State, recv: seq<byte>, next: byte)
    requires Inv(L, st, recv) && st.info.processStart && st.info.total > 0
    ensures InChip(L, st) && st.info.offset < 0x1_0000_0000
    ensures var r := Step(L, st, Block(true, st.info.offset, [], next));
            if EmptyPasses(L, st.info, next) then
              r.info == st.info.(requestCnt := 0) && r.timer == RetryTimer && r.sent == st.sent && r.mem == st.mem
            else !r.info.processStart
  {
    assert InChip(L, st) && st.info.offset < st.info.total && |st.info.bootFlag| == 4;
    assert st.info.findBootFlag ==> st.info.offset > L.flagAt + 3 || st.info.binType == LOCAL_BIN;
    hide Inv, Span, Content, Knows;
    assert Fold(L.crcStep, [], st.info.crc) == st.info.crc;
    assert FlagBytes(L, st.info.bootFlag, st.info.offset, []) == st.info.bootFlag;
    assert Programmed(st.mem, st.info.start + st.info.offset, []) == st.mem;
    hide Fold, Programmed, SendEnd, EraseRun, FlagBytes;
  }

  /** `n` times a request that is answered with an empty block. */
  function Stall(offset: u32, next: byte, n: nat): (events: seq<Event>)
    ensures |events| == 2 * n
  {
    if n == 0 then [] else [Tick, Block(true, offset, [], next)] + Stall(offset, next, n - 1)
  }

  /** A host that keeps sending empty blocks is asked for ever: after any number of rounds the
      session is open at the same offset, with every tick of them counted. */
  lemma {:induction false} StallsForEver(L: Layout, st: State, recv: seq<byte>, next: byte, n: nat)
    requires Inv(L, st, recv) && st.info.processStart && st.info.total > 0 && st.info.requestCnt < RETRY_MAX
    requires EmptyPasses(L, st.info, next)
    ensures InChip(L, st) && st.info.offset < 0x1_0000_0000
    ensures var events := Stall(st.info.offset, next, n);
            && IsRun(L, st, events) && StaysOpen(L, st, events)
            && CountEffective(L, st, events) == n == CountEmpty(L, st, events)
            && var r := Run(L, st, events);
               && Inv(L, r, recv) && r.mem == st.mem
               && r.info == st.info.(requestCnt := if n == 0 then st.info.requestCnt else 0)
    decreases n
  {
    hide Inv, InChip, RetryStep, BlockStep, StartStep, RebootStep, EmptyPasses;
    EmptyBlocksStall(L, st, recv, next);
    TickRetries(L, st, recv);
    RetryFollows(L, st, recv);
    var events := Stall(st.info.offset, next, n);
    if n > 0 {
      var asked := Step(L, st, Tick);
      OpenIsInChip(L, asked, recv);
      EmptyBlocksStall(L, asked, recv, next);
      var answer := Block(true, st.info.offset, [], next);
      StepKeeps(L, asked, recv, answer);
      var r := Step(L, asked, answer);
      assert recv + [] == recv && EmptyPasses(L, asked.info, next) by { SamePasses(L, st.info, asked.info, next); }
      OpenIsInChip(L, r, recv);
      SamePasses(L, st.info, r.info, next);
      StallsForEver(L, r, recv, next, n - 1);
      hide Step, Run, IsRun, StaysOpen, CountEffective, CountEmpty;
      TwoSteps(L, st, events, asked, r);
    } else {
      hide Step;
    }
  }

  lemma SamePasses(L: Layout, info: Info, info': Info, next: byte)
    requires EmptyPasses(L, info, next) && info'.binType == info.binType && info'.offset == info.offset
    ensures EmptyPasses(L, info', next)
  {
  }

  lemma OpenIsInChip(L: Layout, st: State, recv: seq<byte>)
    requires Inv(L, st, recv) && st.info.processStart
    ensures InChip(L, st) && st.timer == RetryTimer
  {
    hide Span, Content, Knows;
  }

  /** A request and an empty answer at the head of a run. */
  lemma TwoSteps(L: Layout, st: State, events: seq<Event>, asked: State, r: State)
    requires |events| >= 2 && events[0] == Tick && events[1].Block? && InChip(L, st) && InChip(L, asked) && InChip(L, r)
    requires Enabled(st, Tick) && asked == Step(L, st, Tick)
    requires Enabled(asked, events[1]) && r == Step(L, asked, events[1])
    requires st.info.processStart && asked.info.processStart && EmptyTaken(asked, events[1])
    requires IsRun(L, r, events[2..]) && StaysOpen(L, r, events[2..])
    ensures IsRun(L, st, events) && StaysOpen(L, st, events)
    ensures Run(L, st, events) == Run(L, r, events[2..])
    ensures CountEffective(L, st, events) == 1 + CountEffective(L, r, events[2..])
    ensures CountEmpty(L, st, events) == 1 + CountEmpty(L, r, events[2..])
  {
    hide Step, InChip;
    var tail := events[1..];
    assert tail[1..] == events[2..] && tail[0] == events[1];
    assert IsRun(L, asked, tail) && StaysOpen(L, asked, tail) && Run(L, asked, tail) == Run(L, r, events[2..]);
  }

  // ----- the silent host -----

  /** `n` ticks in a row. */
  ghost function Ticks(L: Layout, st: State, n: nat): State
    decreases n
  {
    hide Step, InChip;
    if n == 0 || !InChip(L, st) || st.timer != RetryTimer then st
    else Ticks(L, Step(L, st, Tick), n - 1)
  }

  /** A host that never answers is asked for the same block once per tick until five
      requests have gone out; the next tick ends the session. */
  lemma {:induction false} SilentHostTimesOut(L: Layout, st: State, recv: seq<byte>, n: nat)
    requires Inv(L, st, recv) && st.info.processStart
    requires n == 5 - st.info.requestCnt
    ensures var asked := Ticks(L, st, n);
            && Inv(L, asked, recv) && asked.info.processStart && asked.info.requestCnt == 5
            && asked.mem == st.mem
            && asked.sent == st.sent + Repeat(BlockReq(|recv|, RequestLen(st.info)), n)
            && EndsClean(L, asked, Step(L, asked, Tick), |recv|, GetBlockTimeout)
    decreases n
  {
    hide Step, InChip, Inv, RetryStep, EndsClean, RequestLen;
    TickRetries(L, st, recv);
    RetryFollows(L, st, recv);
    if n > 0 {
      var next := Step(L, st, Tick);
      SilentHostTimesOut(L, next, recv, n - 1);
      SameRequest(st.info, next.info);
      var m := BlockReq(|recv|, RequestLen(st.info));
      assert st.sent + [m] + Repeat(m, n - 1) == st.sent + ([m] + Repeat(m, n - 1));
    } else {
      assert st.sent + [] == st.sent;
    }
  }

  lemma SameRequest(info: Info, info': Info)
    requires info.offset <= info.total && info'.offset == info.offset && info'.total == info.total
    ensures RequestLen(info') == RequestLen(info)
  {
  }

  function Repeat(m: Msg, n: nat): seq<Msg> {
    if n == 0 then [] else [m] + Repeat(m, n - 1)
  }

  // ----- requests for one offset -----

  function CountRequests(sent: seq<Msg>): nat {
    if sent == [] then 0 else CountRequests(sent[..|sent| - 1]) + if sent[|sent| - 1].BlockReq? then 1 else 0
  }

  lemma OneMoreMessage(sent: seq<Msg>, m: Msg)
    ensures CountRequests(sent + [m]) == CountRequests(sent) + if m.BlockReq? then 1 else 0
  {
    assert (sent + [m])[..|sent|] == sent;
  }

  /** No block for this offset arrives: blocks for other offsets, late or repeated, and start
      requests may. */
  ghost predicate NothingFor(offset: nat, events: seq<Event>) {
    forall e :: e in events && e.Block? && e.ok ==> e.offset != offset
  }

  lemma RequestStep(L: Layout, st: State, recv: seq<byte>, e: Event)
    requires Inv(L, st, recv) && Enabled(st, e) && st.info.processStart && Step(L, st, e).info.processStart
    requires !(e.Block? && e.ok && e.offset == st.info.offset)
    ensures var r := Step(L, st, e);
            && r.info == st.info.(requestCnt := r.info.requestCnt)
            && CountRequests(r.sent) - CountRequests(st.sent) == r.info.requestCnt - st.info.requestCnt
  {
    RetryFollows(L, st, recv);
    assert st.timer == RetryTimer;
    if e.Block? && !e.ok {
      EventKinds(L, st, recv, e);
      assert false;
    } else if e.Tick? {
      hide RetryStep, Inv;
      OneMoreMessage(st.sent, BlockReq(|recv|, RequestLen(st.info)));
    } else if e.Start? {
      hide Inv, CountRequests;
      OneMoreMessage(st.sent, Answer(st.info, InProgress));
    }
  }

  /** While no block for the current offset arrives, the requests sent are counted exactly,
      whatever else happens, and so they are at most five for one offset. */
  lemma {:induction false} AtMostFiveRequests(L: Layout, st: State, recv: seq<byte>, events: seq<Event>)
    requires Inv(L, st, recv) && InChip(L, st) && IsRun(L, st, events) && StaysOpen(L, st, events)
    requires NothingFor(st.info.offset, events)
    ensures var r := Run(L, st, events);
            && r.info == st.info.(requestCnt := r.info.requestCnt)
            && CountRequests(r.sent) - CountRequests(st.sent) == r.info.requestCnt - st.info.requestCnt
            && r.info.requestCnt <= 5
    decreases |events|
  {
    InvBounds(L, st, recv);
    hide Step, InChip, Inv, CountRequests, Layout.Valid;
    if events != [] {
      var e, r := events[0], Step(L, st, events[0]);
      assert e in events && st.info.processStart && r.info.processStart;
      RequestStep(L, st, recv, e);
      StepKeeps(L, st, recv, e);
      assert forall x :: x in events[1..] ==> x in events;
      AtMostFiveRequests(L, r, Received(st, recv, e), events[1..]);
    }
  }

  // ----- how the file is cut does not matter -----

  function Joined(blocks: seq<seq<byte>>): seq<byte> {
    if blocks == [] then [] else blocks[0] + Joined(blocks[1..])
  }

  /** The blocks in order, each at the offset the device has reached. */
  ghost function Feed(L: Layout, st: State, blocks: seq<seq<byte>>, next: nat -> byte): State
    decreases |blocks|
  {
    hide Step, InChip, Layout.Valid;
    if blocks == [] || !InChip(L, st) || !st.info.processStart || |blocks[0]| >= 256
       || st.info.offset >= 0x1_0000_0000 then st
    else Feed(L, Step(L, st, Block(true, st.info.offset, blocks[0], next(st.info.offset))), blocks[1..], next)
  }

  lemma SessionFacts(L: Layout, st: State, recv: seq<byte>)
    requires Inv(L, st, recv) && st.info.processStart
    ensures InChip(L, st) && st.info.offset == |recv| < 0x1_0000_0000
  {
  }

  lemma FeedingStops(L: Layout, st: State, blocks: seq<seq<byte>>, next: nat -> byte)
    ensures !st.info.processStart ==> Feed(L, st, blocks, next) == st
  {
  }

  /** Feeding blocks keeps the invariant with the blocks joined up. */
  lemma {:induction false} FeedKeeps(L: Layout, st: State, recv: seq<byte>, blocks: seq<seq<byte>>, next: nat -> byte)
    requires Inv(L, st, recv) && st.info.processStart
    requires forall b :: b in blocks ==> |b| < 256
    requires Feed(L, st, blocks, next).info.processStart
    ensures Inv(L, Feed(L, st, blocks, next), recv + Joined(blocks))
    ensures var r := Feed(L, st, blocks, next);
            r.info.total == st.info.total && r.info.binType == st.info.binType && r.info.start == st.info.start
    decreases |blocks|
  {
    hide Step, InChip, Inv, Layout.Valid;
    SessionFacts(L, st, recv);
    if blocks == [] {
      assert recv + [] == recv;
    } else {
      assert blocks[0] in blocks;
      var e := Block(true, st.info.offset, blocks[0], next(st.info.offset));
      var r := Step(L, st, e);
      StepKeeps(L, st, recv, e);
      FeedingStops(L, r, blocks[1..], next);
      SessionStays(L, st, e);
      FeedKeeps(L, r, recv + blocks[0], blocks[1..], next);
      assert recv + blocks[0] + Joined(blocks[1..]) == recv + Joined(blocks);
    }
  }

  /** Two sessions for the same file that have received the same bytes, however they were
      cut into blocks, hold the same bytes in flash, have the same offset, and know the same:
      the checksum of a local file, or whether the start-up word of a remote one is complete. */
  lemma PartitionDoesNotMatter(L: Layout, st: State, a: seq<seq<byte>>, b: seq<seq<byte>>, next: nat -> byte)
    requires Inv(L, st, []) && st.info.processStart
    requires (forall x :: x in a ==> |x| < 256) && (forall x :: x in b ==> |x| < 256)
    requires Joined(a) == Joined(b)
    requires Feed(L, st, a, next).info.processStart && Feed(L, st, b, next).info.processStart
    ensures var ra, rb := Feed(L, st, a, next), Feed(L, st, b, next);
            && ra.info.offset == rb.info.offset == |Joined(a)|
            && (st.info.binType == LOCAL_BIN ==>
                  ra.info.crc == rb.info.crc
                  == Fold(L.crcStep, Joined(a)[..CrcSpan(st.info.total, |Joined(a)|)], CRC_INIT))
            && (st.info.binType != LOCAL_BIN ==>
                  ra.info.findBootFlag == rb.info.findBootFlag == (L.flagAt + 4 <= |Joined(a)|))
            && L.sector > 0 && |ra.mem| == |rb.mem|
            && forall i :: st.info.start <= i < st.info.start + Span(L, st.info.total) && i < |ra.mem| ==>
                 ra.mem[i] == rb.mem[i]
  {
    FeedKeeps(L, st, [], a, next);
    FeedKeeps(L, st, [], b, next);
    assert [] + Joined(a) == Joined(a);
    FedSession(L, Feed(L, st, a, next), Joined(a));
    FedSession(L, Feed(L, st, b, next), Joined(a));
    hide Span, Feed, Inv, StoredByte, Fold;
  }

  lemma FedSession(L: Layout, r: State, recv: seq<byte>)
    requires Inv(L, r, recv) && r.info.processStart
    ensures OpenSlot(L, r, recv) && Knows(L, r.info, recv) && |r.mem| == L.size
  {
    SessionHasSlot(L, r, recv);
  }
}
