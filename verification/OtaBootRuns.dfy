/** Whole runs with sessions and reboots: the chip can always boot, the running slot is not
    touched before the switch, and a sound file ends up as the one image that boots. */
module OtaBootRuns {
  import opened Words
  import opened Flash
  import opened OtaSession
  import opened OtaInvariant
  import opened OtaSteps
  import opened OtaStray
  import opened OtaRuns
  import opened OtaBoot

  // ----- what a step leaves alone -----

  lemma EndOutside(L: Layout, st: State, status: Status, n: nat, i: nat)
    requires L.sector > 0 && st.info.start % L.sector == 0 && i < |st.mem| && st.info.offset <= n
    requires !(st.info.start <= i < st.info.start + Span(L, n))
    ensures SendEnd(L, st, status).mem[i] == st.mem[i]
  {
    SpanGrows(L, st.info.offset, n);
    if status != Success {
      hide Span;
      EndSweeps(L, st, status, i);
    }
  }

  lemma AcceptOutside(L: Layout, st: State, d: seq<byte>, i: nat)
    requires CanTake(L, st, d) && st.info.start % L.sector == 0 && i < |st.mem|
    requires !(st.info.start <= i < st.info.start + Span(L, st.info.offset + |d|))
    ensures Accept(L, st, d).mem[i] == st.mem[i]
  {
    var n := st.info.offset + |d|;
    var a := st.info.start + st.info.offset;
    ProgramsByte(st.mem, a, d, i);
    assert n < Span(L, n);
    hide Span, Programmed, SendEnd, ImageStored;
    var stored := DoOp(L, st, Write(a, d));
    assert stored.mem[i] == st.mem[i];
    var ended := stored.(info := st.info.(offset := n));
    var timed := ended.(timer := if st.info.binType == LOCAL_BIN then RebootTimer else st.timer);
    EndOutside(L, ended, IncorrectData, n, i);
    EndOutside(L, ended, IncorrectOffset, n, i);
    EndOutside(L, timed, Success, n, i);
  }

  /** How many bytes of the slot the device has stored after an event. */
  ghost function Reach(L: Layout, st: State, recv: seq<byte>, e: Event): nat {
    if e.Block? && e.ok && e.offset == st.info.offset && !Refused(L, st.info, recv, e)
    then st.info.offset + |e.data| else st.info.offset
  }

  lemma LocalOutside(L: Layout, st: State, recv: seq<byte>, e: Event, i: nat)
    requires e.Block? && e.ok && e.offset == st.info.offset == |recv| && CanTake(L, st, e.data)
    requires st.info.start % L.sector == 0 && i < |st.mem| && st.info.binType == LOCAL_BIN
    requires !(st.info.start <= i < st.info.start + Span(L, Reach(L, st, recv, e)))
    ensures BlockStep(L, st, true, e.offset, e.data, e.next).mem[i] == st.mem[i]
  {
    hide Span, SendEnd, Accept, Fold, Patched, CrcLen, FileIsSound;
    if TouchesFlag(L, |recv|, |e.data|) {
      FlagByteSeen(L, recv, e.data, e.next);
    }
    var counted := Counted(L, st, e.data);
    if TouchesFlag(L, |recv|, |e.data|) && (e.data + [e.next])[L.flagAt - |recv|] != START_FLAG {
      EndOutside(L, counted, IncorrectData, st.info.offset, i);
    } else {
      AcceptOutside(L, counted, Patched(L, e.offset, e.data), i);
    }
  }

  lemma RemoteOutside(L: Layout, st: State, recv: seq<byte>, e: Event, i: nat)
    requires e.Block? && e.ok && e.offset == st.info.offset == |recv| && CanTake(L, st, e.data)
    requires st.info.start % L.sector == 0 && i < |st.mem| && st.info.binType != LOCAL_BIN && Knows(L, st.info, recv)
    requires !(st.info.start <= i < st.info.start + Span(L, Reach(L, st, recv, e)))
    ensures BlockStep(L, st, true, e.offset, e.data, e.next).mem[i] == st.mem[i]
  {
    if !st.info.findBootFlag {
      RemoteLearns(L, st.info, recv, e.data);
    }
    hide Span, SendEnd, Accept, Fold, FlagBytes, FileIsSound, Knows;
    var scanned := Scanned(L, st, e.data);
    if |recv| < L.flagAt + 4 <= |recv + e.data| && Four(recv + e.data, L.flagAt) == FLAG_WHOLE {
      EndOutside(L, scanned, MatchBootFlag, st.info.offset, i);
    } else {
      AcceptOutside(L, scanned, e.data, i);
    }
  }

  /** A step of an open session changes nothing outside the sectors of what it stores. */
  lemma OpenOutside(L: Layout, st: State, recv: seq<byte>, e: Event, i: nat)
    requires Inv(L, st, recv) && Enabled(st, e) && st.info.processStart && i < |st.mem|
    requires !(st.info.start <= i < st.info.start + Span(L, Reach(L, st, recv, e)))
    ensures i < |Step(L, st, e).mem| && Step(L, st, e).mem[i] == st.mem[i]
  {
    SlotIsAligned(L, st.info.start);
    assert InChip(L, st) && (e.Block? ==> CanTake(L, st, e.data)) && Knows(L, st.info, recv);
    assert L.sector > 0 && |recv| == st.info.offset <= st.info.total && st.timer == RetryTimer;
    hide Inv, Span, SendEnd, BlockStep, Layout.Valid, InChip, CanTake, Knows, Refused;
    if e.Tick? {
      var counted := st.(info := st.info.(requestCnt := st.info.requestCnt + 1));
      EndOutside(L, counted, GetBlockTimeout, st.info.offset, i);
    } else if e.Block? {
      if e.ok && e.offset == st.info.offset {
        if st.info.binType == LOCAL_BIN {
          LocalOutside(L, st, recv, e, i);
        } else {
          RemoteOutside(L, st, recv, e, i);
        }
      } else {
        EndOutside(L, st.(timer := NoTimer), IncorrectData, st.info.offset, i);
        OtherBlock(L, st, e);
      }
    }
  }

  lemma OtherBlock(L: Layout, st: State, e: Event)
    requires e.Block? && !(e.ok && e.offset == st.info.offset) && CanTake(L, st, e.data)
    ensures var r := BlockStep(L, st, e.ok, e.offset, e.data, e.next);
            r == if e.ok then st else SendEnd(L, st.(timer := NoTimer), IncorrectData)
  {
  }

  lemma ReachSpares(L: Layout, st: State, recv: seq<byte>, e: Event, b: nat)
    requires Inv(L, st, recv) && st.info.processStart && SparesRunningSlot(L, st, recv, e)
    requires (b == 0 || b == L.otaAddr) && st.info.start == OtherSlot(L, b)
    ensures L.sector > 0 && L.imageMax <= L.otaAddr
    ensures b == L.otaAddr ==> Span(L, Reach(L, st, recv, e)) <= L.otaAddr
  {
    SlotsFit(L);
    hide Span, Content, Knows, Refused;
    SpanFits(L, Reach(L, st, recv, e), L.otaAddr);
  }

  /** No event of an open session touches the running slot, as long as no block that is
      stored reaches it. */
  lemma RunningSlotUntouched(L: Layout, st: State, recv: seq<byte>, e: Event, b: nat)
    requires Inv(L, st, recv) && Enabled(st, e) && st.info.processStart
    requires (b == 0 || b == L.otaAddr) && st.info.start == OtherSlot(L, b) && SparesRunningSlot(L, st, recv, e)
    ensures SameSlot(L, st.mem, Step(L, st, e).mem, b)
  {
    assert InChip(L, st);
    hide Inv, Step, Span, Layout.Valid, Reach, SparesRunningSlot, InChip;
    SizeStays(L, st, e);
    ReachSpares(L, st, recv, e, b);
    forall i | b <= i < b + L.imageMax && i < |st.mem|
      ensures Step(L, st, e).mem[i] == st.mem[i]
    {
      OpenOutside(L, st, recv, e, i);
    }
  }

  /** Blocks of the requested length never reach it. */
  lemma RequestedBlocksSpare(L: Layout, st: State, recv: seq<byte>, e: Event)
    requires Inv(L, st, recv) && st.info.processStart && e.Block? && |e.data| <= RequestLen(st.info)
    ensures SparesRunningSlot(L, st, recv, e)
  {
    hide Span, Content, Knows;
  }

  /** Nor does any block at all, if the slots are a block's length apart. */
  lemma GapSpares(L: Layout, st: State, recv: seq<byte>, e: Event)
    requires Inv(L, st, recv) && Enabled(st, e) && st.info.processStart && L.imageMax + 255 <= L.otaAddr
    ensures SparesRunningSlot(L, st, recv, e)
  {
    hide Span, Content, Knows, Refused;
  }

  // ----- whole runs -----

  /** The chip can boot and always could since it held `mem`; an open session uses the other
      slot, and so would a refused one. */
  ghost predicate BootInv(L: Layout, mem: seq<byte>, st: State, recv: seq<byte>) {
    && Inv(L, st, recv) && Tracked(L, mem, st) && Bootable(L, st.mem)
    && |st.mem| > 0
    && (st.info.processStart || st.info.total > 0 ==> st.info.start == OtherSlot(L, BootAddr(L, st.mem)))
  }

  /** The device after power-up. */
  function Fresh(mem: seq<byte>): State {
    State(mem, ZERO_INFO, NoTimer, [], [])
  }

  lemma FreshIsBootInv(L: Layout, mem: seq<byte>)
    requires Usable(L) && |mem| == L.size && Bootable(L, mem)
    ensures BootInv(L, mem, Fresh(mem), []) && InChip(L, Fresh(mem))
  {
    hide Boots;
  }

  /** What is asked of the host and of the image it has sent: of a block in a session, of a
      block outside one, and of the reboot. */
  ghost predicate Careful(L: Layout, st: State, recv: seq<byte>, e: Event)
    requires |st.mem| > 0
  {
    && (st.info.processStart ==> SparesRunningSlot(L, st, recv, e))
    && (!st.info.processStart && e.Block? ==> StraySpares(L, st, e))
    && (st.timer == RebootTimer && e.Tick? ==>
          var n := OtherSlot(L, BootAddr(L, st.mem));
          ImageValid(L, st.mem, n) ==> SumApart(L, HeaderSize(st.mem, n)))
  }

  lemma BootInvSplits(L: Layout, mem: seq<byte>, st: State, recv: seq<byte>)
    requires BootInv(L, mem, st, recv)
    ensures |st.mem| > 0
    ensures var b := BootAddr(L, st.mem);
            && Safe(L, mem, st, b) && (b == 0 || b == L.otaAddr) && InChip(L, st) && L.Valid() && Usable(L)
            && (st.info.processStart ==> Guarded(L, mem, st, b))
            && (st.info.processStart || st.info.total > 0 ==> st.info.start == OtherSlot(L, b))
  {
  }

  lemma SafeIsBootInv(L: Layout, mem: seq<byte>, r: State, recv: seq<byte>, b: nat)
    requires Safe(L, mem, r, b) && Inv(L, r, recv)
    requires r.info.processStart || r.info.total > 0 ==> r.info.start == OtherSlot(L, b)
    ensures BootInv(L, mem, r, recv) && |r.mem| > 0 && BootAddr(L, r.mem) == b
  {
    hide RealImage, Replay, SafeLog, Span, Content, Knows;
  }

  lemma RebootStepBoots(L: Layout, mem: seq<byte>, st: State, recv: seq<byte>)
    requires BootInv(L, mem, st, recv) && |st.mem| > 0 && st.timer == RebootTimer && Careful(L, st, recv, Tick)
    ensures InChip(L, st) && BootInv(L, mem, Step(L, st, Tick), recv)
  {
    BootInvSplits(L, mem, st, recv);
    SlotsFit(L);
    assert Inv(L, st, recv);
    var b := BootAddr(L, st.mem);
    assert st.info.total > 0 ==> st.info.start == OtherSlot(L, b);
    hide Inv, BootInv, Safe, Guarded, RebootStep, Boots, Bootable, Usable;
    hide ImageValid, HeaderSize, Tracked, CanSwitch, BootAddr;
    RebootIsSafe(L, mem, st, b);
    RebootKeeps(L, st, recv);
    ClosedBoots(L, mem, RebootStep(L, st), recv);
  }

  lemma ClosedBoots(L: Layout, mem: seq<byte>, r: State, recv: seq<byte>)
    requires Tracked(L, mem, r) && Bootable(L, r.mem) && Inv(L, r, recv) && !r.info.processStart && |r.mem| > 0
    requires r.info.total > 0 ==> r.info.start == OtherSlot(L, BootAddr(L, r.mem))
    ensures BootInv(L, mem, r, recv)
  {
    hide Inv, Boots, Replay, SafeLog;
  }

  /** Every event keeps the chip bootable; only the reboot can move the slot it boots from. */
  lemma BootStep(L: Layout, mem: seq<byte>, st: State, recv: seq<byte>, e: Event)
    requires BootInv(L, mem, st, recv) && InChip(L, st) && Enabled(st, e) && !Arms(L, st, e)
    requires |st.mem| > 0 && Careful(L, st, recv, e)
    ensures BootInv(L, mem, Step(L, st, e), Received(st, recv, e))
    ensures st.info.processStart || !e.Tick? ==>
              |Step(L, st, e).mem| > 0 && BootAddr(L, Step(L, st, e).mem) == BootAddr(L, st.mem)
  {
    BootInvSplits(L, mem, st, recv);
    assert Inv(L, st, recv);
    var b := BootAddr(L, st.mem);
    StepKeeps(L, st, recv, e);
    var r := Step(L, st, e);
    if st.info.processStart {
      if r.info.processStart { SessionStays(L, st, e); }
      hide Inv, BootInv, Safe, Guarded, Boots, Bootable, Tracked, Step, BootAddr;
      OpenIsSafe(L, mem, st, recv, e, b);
      SafeIsBootInv(L, mem, r, Received(st, recv, e), b);
    } else if e.Start? {
      hide Inv, BootInv, Safe, Boots, Bootable, Tracked, StartStep, BootAddr;
      StartIsSafe(L, mem, st, e.total, e.bin, b);
      SafeIsBootInv(L, mem, r, Received(st, recv, e), b);
    } else if e.Block? {
      StrayArms(L, st, e);
      hide Inv, BootInv, Safe, Guarded, Boots, Bootable, Tracked, Step, BootAddr, Careful;
      StrayIsSafe(L, mem, st, e, b);
      SafeIsBootInv(L, mem, r, Received(st, recv, e), b);
    } else {
      hide Inv, BootInv, Safe, Guarded, Boots, Bootable, Tracked, RebootStep, BootAddr;
      RebootStepBoots(L, mem, st, recv);
    }
  }

  ghost predicate CarefulRun(L: Layout, st: State, recv: seq<byte>, events: seq<Event>)
    requires InChip(L, st) && IsRun(L, st, events)
    decreases |events|
  {
    hide Step, InChip;
    events == [] ||
    (&& |st.mem| > 0 && Careful(L, st, recv, events[0])
     && CarefulRun(L, Step(L, st, events[0]), Received(st, recv, events[0]), events[1..]))
  }

  /** A/B safety: over runs of starts, ticks and blocks, in sessions and outside them, that meet
      these conditions, at every point of the run and in the middle of every flash operation of
      it, there is a slot to boot from and it holds an image. */
  lemma {:induction false} AlwaysBoots(L: Layout, mem: seq<byte>, st: State, recv: seq<byte>, events: seq<Event>)
    requires BootInv(L, mem, st, recv) && InChip(L, st) && IsRun(L, st, events) && CarefulRun(L, st, recv, events)
    ensures BootInv(L, mem, Run(L, st, events), RunReceived(L, st, recv, events))
    decreases |events|
  {
    hide Step, InChip, BootInv, Careful;
    if events != [] {
      BootStep(L, mem, st, recv, events[0]);
      AlwaysBoots(L, mem, Step(L, st, events[0]), Received(st, recv, events[0]), events[1..]);
    }
  }

  // ----- the block that reaches into the running slot -----

  lemma SpanPasses(L: Layout, n: nat, bound: nat)
    requires L.sector > 0 && bound % L.sector == 0 && bound <= n
    ensures bound + L.sector <= Span(L, n)
  {
    QuotientGrows(L.sector, bound, n);
    MulMono(bound / L.sector + 1, n / L.sector + 1, L.sector);
    assert bound == bound / L.sector * L.sector;
  }

  lemma ErasedFlagsDoNotBoot(L: Layout, mem: seq<byte>)
    requires L.Valid() && |mem| == L.size && mem[L.flagAt] == 255 && mem[L.otaAddr + L.flagAt] == 255
    ensures !Bootable(L, mem)
  {
  }

  lemma OvershootErases(L: Layout, st: State, recv: seq<byte>, e: Event)
    requires Inv(L, st, recv) && InChip(L, st) && Enabled(st, e) && st.info.processStart && st.info.start == 0
    requires e.Block? && e.ok && e.offset == st.info.offset && !Refused(L, st.info, recv, e)
    requires st.info.offset + |e.data| >= L.otaAddr
    ensures !Bootable(L, Step(L, st, e).mem)
  {
    SlotsFit(L);
    SlotIsAligned(L, L.otaAddr);
    SizeStays(L, st, e);
    var n := st.info.offset + |e.data|;
    assert |recv + e.data| == n && st.info.total < n && |st.mem| == L.size;
    var r := Step(L, st, e);
    assert Verdict(L, st.info, recv, e) == Some(IncorrectOffset);
    BlockFollows(L, st, recv, e);
    SpanPasses(L, n, L.otaAddr);
    hide Inv, Step, Span, Verdict, Refused, Bootable;
    assert AllErased(r.mem, 0, Span(L, n));
    assert r.mem[L.flagAt] == 255 && r.mem[L.otaAddr + L.flagAt] == 255;
    ErasedFlagsDoNotBoot(L, r.mem);
  }

  /** While slot 0 is being written, a block at the current offset leaves a bootable chip
      exactly if it is refused or ends before the running slot: the sweep after an overshoot
      covers all the sectors the block reached, the running image's first one too. */
  lemma OvershootDecides(L: Layout, mem: seq<byte>, st: State, recv: seq<byte>, e: Event)
    requires BootInv(L, mem, st, recv) && InChip(L, st) && Enabled(st, e)
    requires st.info.processStart && st.info.start == 0
    requires e.Block? && e.ok && e.offset == st.info.offset
    ensures Bootable(L, Step(L, st, e).mem) <==>
              Refused(L, st.info, recv, e) || st.info.offset + |e.data| < L.otaAddr
  {
    assert Inv(L, st, recv) && |st.mem| > 0;
    if Refused(L, st.info, recv, e) || st.info.offset + |e.data| < L.otaAddr {
      assert Careful(L, st, recv, e);
      hide Step, Inv, Careful, Refused, Bootable;
      BootStep(L, mem, st, recv, e);
    } else {
      hide Step, Inv, Refused, Bootable;
      OvershootErases(L, st, recv, e);
    }
  }

  /** Two slots of two small sectors, the second with a 44-byte image. */
  function SmallLayout(): Layout {
    Layout(64, 128, 128, 8, 640, (c: u32, x: byte) => 0)
  }

  function SmallByte(i: nat): byte {
    if i < 128 then 255 else if i == 136 then 0x4B else if i == 137 then 0x4E else if i == 138 then 0x4C
    else if i == 139 then 0x54 else if i == 152 then 44 else 0
  }

  function SmallChip(): (mem: seq<byte>)
    ensures |mem| == 640
  {
    seq(640, i requires 0 <= i => SmallByte(i))
  }

  lemma SmallChipBoots()
    ensures Usable(SmallLayout()) && Boots(SmallLayout(), SmallChip(), 128)
    ensures Bootable(SmallLayout(), SmallChip())
  {
  }

  /** On that chip, an oversized block for a 127-byte file erases the image the device runs
      from. */
  lemma OvershootCanBrick()
    ensures exists st ::
              BootInv(SmallLayout(), SmallChip(), st, []) && InChip(SmallLayout(), st) && Enabled(st, LongBlock())
              && !Bootable(SmallLayout(), Step(SmallLayout(), st, LongBlock()).mem)
  {
    var L, mem := SmallLayout(), SmallChip();
    SmallChipBoots();
    var closed := Fresh(mem);
    FreshIsBootInv(L, mem);
    assert Inv(L, closed, []) && Opens(L, closed, 127) && Careful(L, closed, [], Start(127, None));
    hide BootInv, Inv, Boots, Bootable, StartStep, Careful, EraseRun, Tracked;
    StartOpens(L, closed, 127, None);
    BootStep(L, mem, closed, [], Start(127, None));
    var st := Step(L, closed, Start(127, None));
    OvershootFacts(L, st, LongBlock());
    OvershootErases(L, st, [], LongBlock());
    assert BootInv(L, mem, st, []);
  }

  /** 128 zero bytes for offset 0. */
  function LongBlock(): (e: Event)
    ensures e.Block? && |e.data| == 128 && e.data[8] == 0
  {
    Block(true, 0, seq(128, i => 0), 0)
  }

  lemma OvershootFacts(L: Layout, st: State, e: Event)
    requires Inv(L, st, []) && st.info.processStart && st.info.binType == REMOTE_BIN && L.flagAt == 8
    requires e.Block? && e.ok && e.offset == 0 && |e.data| == 128 && e.data[8] == 0
    ensures InChip(L, st) && Enabled(st, e) && st.info.offset == 0 && !Refused(L, st.info, [], e)
  {
  }

  // ----- an image whose checksum word contains the flag byte -----

  /** The small layout with a checksum that is always 0x544C4EFF. */
  function OddLayout(): Layout {
    Layout(64, 128, 128, 8, 640, (c: u32, x: byte) => 0x544C_4EFF)
  }

  /** Slot 0 holds an image of 12 bytes, the last four of which are the start-up word with its
      first byte erased; slot 1 holds one of 44 bytes. */
  function OddByte(i: nat): byte {
    if i == 8 || i == 168 then 0xFF else if i == 9 || i == 137 || i == 169 then 0x4E
    else if i == 10 || i == 138 || i == 170 then 0x4C else if i == 11 || i == 139 || i == 171 then 0x54
    else if i == 24 then 12 else if i == 136 then 0x4B else if i == 152 then 44 else 0
  }

  function OddChip(): (mem: seq<byte>)
    ensures |mem| == 640
  {
    seq(640, i requires 0 <= i => OddByte(i))
  }

  lemma {:induction false} ConstantFold(step: (u32, byte) -> u32, data: seq<byte>, init: u32, c: u32)
    requires data != [] && forall x: u32, y: byte :: step(x, y) == c
    ensures Fold(step, data, init) == c
  {
  }

  lemma OddChipBoots()
    ensures var L, mem := OddLayout(), OddChip();
            && Usable(L) && Boots(L, mem, 128) && Bootable(L, mem)
            && ImageValid(L, mem, 0) && HeaderSize(mem, 0) == 12
  {
    var L, mem := OddLayout(), OddChip();
    assert Read4(mem, 8) == [0xFF, 0x4E, 0x4C, 0x54] && Read4(mem, 136) == [0x4B, 0x4E, 0x4C, 0x54];
    assert Word(Read4(mem, 24)) == 12 && Word(Read4(mem, 152)) == 44;
    assert Word(Read4(mem, 168)) == 0x544C_4EFF;
    ConstantFold(L.crcStep, ImageBody(L, mem, 0, 12), CRC_INIT, 0x544C_4EFF);
    ConstantFold(L.crcStep, ImageBody(L, mem, 128, 44), CRC_INIT, 0x544C_4EFF);
  }

  /** The reboot handler accepts the 12-byte image and switches to it; setting its flag byte
      has changed its checksum word, so what boots then is no valid image. */
  lemma ChecksumOverFlagBricks()
    ensures var L, mem := OddLayout(), OddChip();
            && Boots(L, mem, 128) && ImageValid(L, mem, 0) && !SumApart(L, HeaderSize(mem, 0))
            && var r := RebootStep(L, State(mem, ZERO_INFO, RebootTimer, [], []));
               r.info == ZERO_INFO && |r.mem| > 0 && BootAddr(L, r.mem) == 0 && !ImageValid(L, r.mem, 0)
  {
    hide Boots, Bootable, ImageValid, HeaderSize, RebootStep, Usable, And, SumApart;
    var L, mem := OddLayout(), OddChip();
    OddChipBoots();
    OddBootAddr();
    AndOnes(START_FLAG);
    RebootDecides(L, State(mem, ZERO_INFO, RebootTimer, [], []), 128, 0);
    assert !SumApart(L, 12) by { OddSum(); }
  }

  lemma OddSum()
    ensures !SumApart(OddLayout(), 12)
  {
  }

  lemma OddBootAddr()
    ensures BootAddr(OddLayout(), OddChip()) == 128
  {
    OddChipBoots();
  }

  // ----- a sound file takes over -----

  /** A file that is sound and whose header gives its length. */
  ghost predicate FileIsImage(L: Layout, file: seq<byte>) {
    && 28 <= |file| < L.imageMax && SumApart(L, |file|)
    && FileIsSound(L, file) && Word(Four(file, 0x18)) == |file|
  }

  lemma StoredHeader(L: Layout, r: seq<byte>, start: nat, total: nat, file: seq<byte>, at: nat)
    requires L.sector > 0 && start + Span(L, total) <= |r| && |file| == total && at + 4 <= total
    requires Content(L, r, start, total, LOCAL_BIN, file)
    requires !(at <= L.flagAt < at + 4)
    ensures Read4(r, start + at) == Four(file, at)
  {
  }

  lemma StoredBody(L: Layout, r: seq<byte>, start: nat, total: nat, file: seq<byte>)
    requires L.sector > 0 && start + Span(L, total) <= |r| && |file| == total >= 4 && L.flagAt < total
    requires Content(L, r, start, total, LOCAL_BIN, file) && file[L.flagAt] == START_FLAG
    ensures ImageBody(L, r, start, total) == file[..total - 4]
  {
  }

  lemma StoredFlag(L: Layout, r: seq<byte>, start: nat, total: nat, file: seq<byte>)
    requires L.sector > 0 && start + Span(L, total) <= |r| && |file| == total && L.flagAt + 4 <= total
    requires Content(L, r, start, total, LOCAL_BIN, file) && Four(file, L.flagAt) == FLAG_WHOLE
    ensures r[start + L.flagAt] == 255 && file[L.flagAt] == START_FLAG
    ensures Read4(r, start + L.flagAt)[1..] == FLAG_WHOLE[1..]
  {
  }

  lemma StoredImageIsValid(L: Layout, st: State, r: State, file: seq<byte>)
    requires Usable(L) && EndsWell(L, st, r, file) && FileIsImage(L, file) && st.info.binType == LOCAL_BIN
    requires |r.mem| == L.size && (st.info.start == 0 || st.info.start == L.otaAddr)
    ensures st.info.start + L.flagAt < |r.mem| && CanSwitch(L, r.mem, st.info.start)
    ensures HeaderSize(r.mem, st.info.start) == |file|
  {
    SlotsFit(L);
    var start, total := st.info.start, |file|;
    assert start + Span(L, total) <= |r.mem| && Content(L, r.mem, start, total, LOCAL_BIN, file);
    assert Word(Four(file, total - 4)) == Fold(L.crcStep, file[..total - 4], CRC_INIT) by {
      assert Four(Patched(L, 0, file), total - 4) == Four(file, total - 4);
    }
    assert total < Span(L, total) && total <= L.imageMax;
    assert L.sector > 0 && Four(file, L.flagAt) == FLAG_WHOLE && Word(Four(file, 0x18)) == total;
    hide Span, Content, Fold, EndsWell, FileIsSound, FileIsImage, Layout.Valid, Usable;
    StoredWordsAreValid(L, r.mem, start, file);
  }

  lemma StoredWordsAreValid(L: Layout, r: seq<byte>, start: nat, file: seq<byte>)
    requires 28 <= |file| <= L.imageMax && L.flagAt + 4 <= |file| && SumApart(L, |file|)
    requires !(0x18 <= L.flagAt < 0x1C) && L.sector > 0
    requires start + Span(L, |file|) <= |r| && Content(L, r, start, |file|, LOCAL_BIN, file)
    requires Four(file, L.flagAt) == FLAG_WHOLE && Word(Four(file, 0x18)) == |file|
    requires Word(Four(file, |file| - 4)) == Fold(L.crcStep, file[..|file| - 4], CRC_INIT)
    ensures start + L.flagAt < |r| && CanSwitch(L, r, start) && HeaderSize(r, start) == |file|
  {
    hide Span, Content, Fold, ImageBody, And, Read4, Word, Four, SumApart;
    var total := |file|;
    assert total < Span(L, total);
    AndOnes(START_FLAG);
    ChecksumClear(L, total);
    StoredHeader(L, r, start, total, file, total - 4);
    StoredFlag(L, r, start, total, file);
    StoredSize(L, r, start, file);
    StoredBody(L, r, start, total, file);
  }

  lemma ChecksumClear(L: Layout, size: nat)
    requires SumApart(L, size)
    ensures 4 <= size && !(size - 4 <= L.flagAt < size)
  {
  }

  lemma StoredSize(L: Layout, r: seq<byte>, start: nat, file: seq<byte>)
    requires 28 <= |file| && !(0x18 <= L.flagAt < 0x1C) && L.sector > 0
    requires start + Span(L, |file|) <= |r| && Content(L, r, start, |file|, LOCAL_BIN, file)
    requires Word(Four(file, 0x18)) == |file|
    ensures HeaderSize(r, start) == |file|
  {
    StoredHeader(L, r, start, |file|, file, 0x18);
    hide Span, Content, Read4, Word, Four;
  }

  /** The other slot is the one that boots now; the record is zero. */
  ghost predicate TookOver(L: Layout, st: State, s: State) {
    && |st.mem| > 0 && |s.mem| > 0
    && s.info == ZERO_INFO
    && BootAddr(L, s.mem) == OtherSlot(L, BootAddr(L, st.mem)) != BootAddr(L, st.mem)
    && Read4(s.mem, BootAddr(L, st.mem) + L.flagAt) != FLAG_WHOLE
  }

  /** Once the last block of an image has been taken, the next timer tick makes it the one
      that boots, and the old one loses the start-up word. */
  lemma NewImageTakesOver(L: Layout, mem: seq<byte>, st: State, recv: seq<byte>, e: Event)
    requires BootInv(L, mem, st, recv) && InChip(L, st) && Enabled(st, e) && st.info.processStart && e.Block?
    requires Verdict(L, st.info, recv, e) == Some(Success)
    requires st.info.binType == LOCAL_BIN && FileIsImage(L, recv + e.data)
    ensures var r := Step(L, st, e);
            && InChip(L, r) && Enabled(r, Tick)
            && TookOver(L, st, Step(L, r, Tick))
  {
    hide Inv, Step, Verdict, BootInv, FileIsImage, Safe, Guarded, BootAddr, CanSwitch, HeaderSize, RebootStep, Usable,
      Layout.Valid, TookOver, InChip;
    BootInvSplits(L, mem, st, recv);
    var b := BootAddr(L, st.mem);
    var r := Step(L, st, e);
    SuccessFacts(L, mem, st, recv, e, b);
    SlotsFit(L);
    OtherIsOther(L, b);
    TickReboots(L, r);
    SwitchTakesOver(L, mem, st, r, b, st.info.start);
  }

  lemma OtherIsOther(L: Layout, b: nat)
    requires L.otaAddr > 0
    ensures b == 0 || b == L.otaAddr ==> OtherSlot(L, b) != b && OtherSlot(L, b) <= L.otaAddr
  {
  }

  lemma SuccessFacts(L: Layout, mem: seq<byte>, st: State, recv: seq<byte>, e: Event, b: nat)
    requires BootInv(L, mem, st, recv) && InChip(L, st) && Enabled(st, e) && st.info.processStart && e.Block?
    requires Guarded(L, mem, st, b) && (b == 0 || b == L.otaAddr) && st.info.start == OtherSlot(L, b) && Usable(L)
    requires Verdict(L, st.info, recv, e) == Some(Success)
    requires st.info.binType == LOCAL_BIN && FileIsImage(L, recv + e.data)
    ensures var r := Step(L, st, e);
            && InChip(L, r) && r.timer == RebootTimer && Safe(L, mem, r, b) && |r.mem| == L.size
            && L.sector > 0 && st.info.start + L.flagAt < |r.mem|
            && CanSwitch(L, r.mem, st.info.start) && SumApart(L, HeaderSize(r.mem, st.info.start))
  {
    var r, file := Step(L, st, e), recv + e.data;
    assert Inv(L, st, recv) && |st.mem| == L.size;
    SizeStays(L, st, e);
    StepKeeps(L, st, recv, e);
    assert InChip(L, r);
    assert e.ok && e.offset == |recv| && |file| == st.info.total && Follows(L, st, r, recv, e) by {
      BlockFollows(L, st, recv, e);
      SuccessMeans(L, st.info, recv, e);
      hide Inv, Follows, Verdict, Step;
    }
    assert |recv| == st.info.offset && SumApart(L, |file|) && L.otaAddr > st.info.total by { SlotsFit(L); }
    hide Inv, Step, Verdict, Refused, BootInv, FileIsImage, Safe, Guarded, Usable, InChip;
    assert Received(st, recv, e) == file && EndsWell(L, st, r, file);
    OpenIsSafe(L, mem, st, recv, e, b);
    assert r.timer == RebootTimer;
    hide EndsWell;
    StoredImageIsValid(L, st, r, file);
  }

  lemma SuccessMeans(L: Layout, info: Info, recv: seq<byte>, e: Event)
    requires e.Block? && Verdict(L, info, recv, e) == Some(Success)
    ensures e.ok && e.offset == |recv| && |recv + e.data| == info.total
  {
  }

  lemma TickReboots(L: Layout, r: State)
    requires InChip(L, r) && r.timer == RebootTimer
    ensures Step(L, r, Tick) == RebootStep(L, r)
  {
  }

  lemma SwitchTakesOver(L: Layout, mem: seq<byte>, st: State, r: State, b: nat, n: nat)
    requires Safe(L, mem, r, b) && L.sector > 0 && L.otaAddr + L.flagAt + 1 <= |r.mem|
    requires n == OtherSlot(L, b) != b && n + L.flagAt < |r.mem| && b + L.flagAt < |r.mem|
    requires CanSwitch(L, r.mem, n) && SumApart(L, HeaderSize(r.mem, n))
    requires |st.mem| > 0 && b == BootAddr(L, st.mem)
    ensures TookOver(L, st, RebootStep(L, r))
  {
    hide Safe, CanSwitch, HeaderSize, RebootStep, BootAddr, Read4;
    SwitchFollows(L, mem, r, b, n);
  }

  lemma SwitchFollows(L: Layout, mem: seq<byte>, r: State, b: nat, n: nat)
    requires Safe(L, mem, r, b) && L.sector > 0 && L.otaAddr + L.flagAt + 1 <= |r.mem|
    requires n == OtherSlot(L, b) && n + L.flagAt < |r.mem| && b + L.flagAt < |r.mem|
    requires CanSwitch(L, r.mem, n) && SumApart(L, HeaderSize(r.mem, n))
    ensures var s := RebootStep(L, r);
            && |s.mem| > 0 && s.info == ZERO_INFO && BootAddr(L, s.mem) == n
            && Read4(s.mem, b + L.flagAt) != FLAG_WHOLE
  {
    hide Safe, CanSwitch, HeaderSize, RebootStep, RealImage, Tracked, Bootable, BootAddr, Read4;
    RebootIsSafe(L, mem, r, b);
    assert Boots(L, RebootStep(L, r).mem, n);
  }
}
