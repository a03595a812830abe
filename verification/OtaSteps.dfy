/** The update session step by step: blocks are stored in order, the checksum and the
    start-up word are tracked whatever the block lengths, and a failure leaves no trace. */
module OtaSteps {
  import opened Words
  import opened Flash
  import opened OtaSession
  import opened OtaInvariant

  /** The running checksum after a block that does not overshoot the file. */
  lemma CrcAdvances(L: Layout, info: Info, recv: seq<byte>, data: seq<byte>)
    requires |recv| == info.offset <= info.total < 0x1_0000_0000 && |data| < 256
    requires info.offset + |data| <= info.total
    requires info.crc == Fold(L.crcStep, recv[..CrcSpan(info.total, |recv|)], CRC_INIT)
    ensures Fold(L.crcStep, data[..CrcLen(info, |data|)], info.crc)
         == Fold(L.crcStep, (recv + data)[..CrcSpan(info.total, |recv + data|)], CRC_INIT)
  {
    var before := recv[..CrcSpan(info.total, |recv|)];
    var added := data[..CrcLen(info, |data|)];
    assert (recv + data)[..CrcSpan(info.total, |recv + data|)] == before + added;
    FoldAppend(L.crcStep, before, added, CRC_INIT);
  }

  lemma LocalLearns(L: Layout, info: Info, recv: seq<byte>, data: seq<byte>, next: byte)
    requires |recv| == info.offset <= info.total < 0x1_0000_0000 && |data| < 256
    requires info.offset + |data| <= info.total
    requires info.binType == LOCAL_BIN && Knows(L, info, recv)
    requires TouchesFlag(L, info.offset, |data|) ==> (data + [next])[L.flagAt - info.offset] == START_FLAG
    ensures Knows(L, info.(crc := Fold(L.crcStep, data[..CrcLen(info, |data|)], info.crc)), recv + data)
  {
    CrcAdvances(L, info, recv, data);
  }

  /** The remote branch sees the start-up word in full, and refuses it, exactly when the
      block completes it, however the word is split across blocks. */
  lemma RemoteLearns(L: Layout, info: Info, recv: seq<byte>, data: seq<byte>)
    requires |recv| == info.offset && info.binType != LOCAL_BIN && Knows(L, info, recv)
    requires !info.findBootFlag
    ensures var flag := FlagBytes(L, info.bootFlag, info.offset, data);
            var found := info.offset <= L.flagAt + 3 < info.offset + |data|;
            && (found <==> L.flagAt + 4 <= |recv + data|)
            && (found ==> flag == Four(recv + data, L.flagAt))
            && (!(found && flag == FLAG_WHOLE) ==>
                  Knows(L, info.(bootFlag := flag, findBootFlag := found), recv + data))
  {
  }

  /** Programming erased flash stores the block behind what is there already. */
  lemma BlockIsStored(L: Layout, mem: seq<byte>, info: Info, recv: seq<byte>, data: seq<byte>, d: seq<byte>)
    requires L.sector > 0 && info.start + Span(L, info.total) <= |mem|
    requires |recv| == info.offset && |d| == |data| && info.start + info.offset + |d| <= |mem|
    requires info.offset + |data| <= Span(L, info.total)
    requires Content(L, mem, info.start, info.total, info.binType, recv)
    requires forall k :: 0 <= k < |d| ==> d[k] == StoredByte(L, info.binType, recv + data, |recv| + k)
    ensures Content(L, Programmed(mem, info.start + info.offset, d), info.start, info.total, info.binType, recv + data)
  {
    hide Span, Programmed, StoredByte;
    var from := info.start + info.offset;
    var after := Programmed(mem, from, d);
    forall i | info.start <= i < info.start + Span(L, info.total)
      ensures after[i] == if i - info.start < |recv + data|
                          then StoredByte(L, info.binType, recv + data, i - info.start) else 255
    {
      if from <= i < from + |d| {
        assert d[i - from] == StoredByte(L, info.binType, recv + data, |recv| + (i - from));
        assert mem[i] == 255;
      } else if i < from {
        assert mem[i] == StoredByte(L, info.binType, recv, i - info.start);
        StoredStays(L, info.binType, recv, data, i - info.start);
      }
      ProgramsByte(mem, from, d, i);
    }
  }

  lemma StoredStays(L: Layout, binType: byte, recv: seq<byte>, data: seq<byte>, i: nat)
    requires i < |recv|
    ensures StoredByte(L, binType, recv + data, i) == StoredByte(L, binType, recv, i)
  {
  }

  lemma ProgramsByte(mem: seq<byte>, from: nat, d: seq<byte>, i: nat)
    requires from + |d| <= |mem| && i < |mem|
    ensures Programmed(mem, from, d)[i]
         == if !(from <= i < from + |d|) then mem[i]
            else if mem[i] == 255 then d[i - from] else And(mem[i], d[i - from])
  {
    if from <= i < from + |d| {
      AndOnes(d[i - from]);
    }
  }

  /** The received file is an image: it carries the start-up word, and its last word, as
      flash holds it, is the checksum of the rest. */
  ghost predicate FileIsSound(L: Layout, file: seq<byte>) {
    && L.flagAt + 4 <= |file|
    && Four(file, L.flagAt) == [0x4B, 0x4E, 0x4C, 0x54]
    && Word(Four(Patched(L, 0, file), |file| - 4)) == Fold(L.crcStep, file[..|file| - 4], 0xFFFF_FFFF)
  }

  /** The device's final test on flash decides exactly whether the file is sound. */
  lemma FinalTestIsExact(L: Layout, mem: seq<byte>, info: Info, recv: seq<byte>)
    requires L.Valid() && info.start + Span(L, info.total) <= |mem|
    requires info.binType == LOCAL_BIN && |recv| == info.total
    requires Content(L, mem, info.start, info.total, info.binType, recv) && Knows(L, info, recv)
    ensures ImageStored(L, mem, info) <==> FileIsSound(L, recv)
  {
  }

  // ----- how a session can end -----

  /** All of the file was received and stored; a local file is sound and a reboot is
      scheduled, a remote file does not carry the start-up word. */
  ghost predicate EndsWell(L: Layout, st: State, r: State, recv: seq<byte>) {
    var info := st.info;
    && r.info == Info(0, 0, 0, 0, [0, 0, 0, 0], false, false, 0, 0)
    && r.sent == st.sent + [End(info.total, |recv|, Success)]
    && |recv| == info.total
    && L.sector > 0 && info.start + Span(L, info.total) <= |r.mem|
    && Content(L, r.mem, info.start, info.total, info.binType, recv)
    && if info.binType == LOCAL_BIN then
         r.timer == RebootTimer && FileIsSound(L, recv)
       else
         r.timer == NoTimer && (L.flagAt + 4 <= |recv| ==> Four(recv, L.flagAt) != FLAG_WHOLE)
  }

  /** The session failed: the host has been told, the record is zero, no timer runs, and
      every byte of the slot that was erased or written reads 0xFF. */
  ghost predicate EndsClean(L: Layout, st: State, r: State, received: nat, status: Status) {
    && status != Success
    && r.info == Info(0, 0, 0, 0, [0, 0, 0, 0], false, false, 0, 0) && r.timer == NoTimer
    && r.sent == st.sent + [End(st.info.total, received, status)]
    && L.sector > 0
    && AllErased(r.mem, st.info.start, Span(L, Max(st.info.total, received)))
  }

  // ----- storing a block -----

  /** What Accept needs to know about the block at hand. */
  ghost predicate Ready(L: Layout, st: State, recv: seq<byte>, data: seq<byte>, d: seq<byte>) {
    && L.Valid() && |st.mem| == L.size
    && (st.info.start == 0 || st.info.start == L.otaAddr)
    && st.info.offset <= st.info.total < L.imageMax
    && (st.info.offset < st.info.total || st.info.total == 0)
    && Span(L, st.info.total) <= L.imageMax
    && |recv| == st.info.offset && |d| == |data| < 256
    && |st.info.bootFlag| == 4
    && st.timer == NoTimer
    && Content(L, st.mem, st.info.start, st.info.total, st.info.binType, recv)
    && (forall k :: 0 <= k < |d| ==> d[k] == StoredByte(L, st.info.binType, recv + data, |recv| + k))
    && (|recv + data| <= st.info.total ==> Knows(L, st.info, recv + data))
  }

  lemma SlotIsAligned(L: Layout, start: nat)
    requires L.Valid() && (start == 0 || start == L.otaAddr)
    ensures start % L.sector == 0
  {
    QuotientIs(L.sector, 0, 0);
  }

  lemma AcceptCarriesOn(L: Layout, st: State, recv: seq<byte>, data: seq<byte>, d: seq<byte>)
    requires Ready(L, st, recv, data, d) && st.info.processStart
    requires |recv + data| < st.info.total
    ensures Inv(L, Accept(L, st, d), recv + data)
    ensures Accept(L, st, d).info.processStart && Accept(L, st, d).sent == st.sent
  {
    hide Span, Programmed, StoredByte, Fold;
    BlockIsStored(L, st.mem, st.info, recv, data, d);
    var r := Accept(L, st, d);
    assert r.info == st.info.(offset := |recv + data|, requestCnt := 0);
  }

  lemma AcceptFinishes(L: Layout, st: State, recv: seq<byte>, data: seq<byte>, d: seq<byte>)
    requires Ready(L, st, recv, data, d)
    requires |recv + data| == st.info.total
    ensures var r := Accept(L, st, d);
            if st.info.binType == LOCAL_BIN && !FileIsSound(L, recv + data)
            then EndsClean(L, st, r, |recv + data|, IncorrectData)
            else EndsWell(L, st, r, recv + data)
  {
    hide Span, Programmed, StoredByte, Fold, EraseRun, ImageStored, FileIsSound;
    BlockIsStored(L, st.mem, st.info, recv, data, d);
    var stored := DoOp(L, st, Write(st.info.start + st.info.offset, d));
    var info := st.info.(offset := st.info.total);
    if st.info.binType == LOCAL_BIN {
      FinalTestIsExact(L, stored.mem, info, recv + data);
    }
    if st.info.binType == LOCAL_BIN && !FileIsSound(L, recv + data) {
      SlotIsAligned(L, st.info.start);
      FailureSweeps(L, stored.(info := info), recv + data, IncorrectData);
    }
  }

  /** The slot of an open session holds what was received, and nothing behind it. */
  ghost predicate OpenSlot(L: Layout, st: State, recv: seq<byte>) {
    && L.sector > 0 && st.info.start % L.sector == 0
    && st.info.start + Span(L, st.info.total) <= |st.mem|
    && |recv| == st.info.offset <= st.info.total
    && Content(L, st.mem, st.info.start, st.info.total, st.info.binType, recv)
  }

  lemma SessionHasSlot(L: Layout, st: State, recv: seq<byte>)
    requires Inv(L, st, recv) && st.info.processStart
    ensures OpenSlot(L, st, recv)
  {
    SlotIsAligned(L, st.info.start);
  }

  /** Ending badly sweeps the slot. */
  lemma FailureSweeps(L: Layout, st: State, recv: seq<byte>, status: Status)
    requires OpenSlot(L, st, recv) && status != Success && st.timer == NoTimer
    ensures EndsClean(L, st, SendEnd(L, st, status), |recv|, status)
  {
    hide Span, StoredByte, EraseRun;
    EndErases(L, st, status);
  }

  lemma AcceptOvershoots(L: Layout, st: State, recv: seq<byte>, data: seq<byte>, d: seq<byte>)
    requires Ready(L, st, recv, data, d)
    requires |recv + data| > st.info.total
    ensures EndsClean(L, st, Accept(L, st, d), |recv + data|, IncorrectOffset)
  {
    hide Span, StoredByte, Fold, EraseRun, Knows, Programmed, Content, SendEnd;
    assert L.sector > 0;
    SlotIsAligned(L, st.info.start);
    hide Layout.Valid;
    BehindIsErased(L, st, recv, data, d);
    var stored := DoOp(L, st, Write(st.info.start + st.info.offset, d));
    var info := st.info.(offset := st.info.offset + |d|);
    EndErases(L, stored.(info := info), IncorrectOffset);
    EndTells(L, stored.(info := info), IncorrectOffset);
  }

  lemma BehindIsErased(L: Layout, st: State, recv: seq<byte>, data: seq<byte>, d: seq<byte>)
    requires Ready(L, st, recv, data, d) && L.sector > 0
    ensures var from := st.info.start + st.info.offset;
            && from + |d| <= |st.mem|
            && forall i :: 0 <= i < |st.mem| ==> from + |d| <= i < st.info.start + Span(L, st.info.total) ==>
                 Programmed(st.mem, from, d)[i] == 255
  {
    hide Span, StoredByte, Knows, Programmed;
    var from := st.info.start + st.info.offset;
    forall i | 0 <= i < |st.mem| && from + |d| <= i < st.info.start + Span(L, st.info.total)
      ensures Programmed(st.mem, from, d)[i] == 255
    {
      ProgramsByte(st.mem, from, d, i);
    }
  }

  /** What the end of a session leaves besides flash. */
  lemma EndTells(L: Layout, st: State, status: Status)
    requires L.sector > 0
    ensures var r := SendEnd(L, st, status);
            && r.sent == st.sent + [End(st.info.total, st.info.offset, status)]
            && r.timer == st.timer && r.info == ZERO_INFO
  {
    hide EraseRun;
  }

  // ----- the verdict on a block -----

  /** What becomes of a block, told from the bytes the host has sent so far. */
  ghost function Verdict(L: Layout, info: Info, recv: seq<byte>, e: Event): (v: Option<Status>)
    requires e.Block?
  {
    var all := recv + e.data;
    if !e.ok then Some(IncorrectData)
    else if e.offset != |recv| then None
    else if info.binType == 1 && |recv| <= L.flagAt <= |all|
         && (all + [e.next])[L.flagAt] != 0x4B then Some(IncorrectData)
    else if info.binType != 1 && |recv| < L.flagAt + 4 <= |all|
         && Four(all, L.flagAt) == [0x4B, 0x4E, 0x4C, 0x54] then Some(MatchBootFlag)
    else if |all| < info.total then None
    else if |all| > info.total then Some(IncorrectOffset)
    else if info.binType == 1 && !FileIsSound(L, all) then Some(IncorrectData)
    else Some(Success)
  }

  /** A refused block was not stored. */
  ghost predicate Refused(L: Layout, info: Info, recv: seq<byte>, e: Event)
    requires e.Block?
  {
    || !e.ok
    || (info.binType == 1 && |recv| <= L.flagAt <= |recv| + |e.data|
        && (recv + e.data + [e.next])[L.flagAt] != 0x4B)
    || Verdict(L, info, recv, e) == Some(MatchBootFlag)
  }

  ghost predicate Follows(L: Layout, st: State, r: State, recv: seq<byte>, e: Event)
    requires e.Block?
  {
    var recv' := Received(st, recv, e);
    match Verdict(L, st.info, recv, e)
    case None => r.info.processStart && Inv(L, r, recv') && r.sent == st.sent
    case Some(Success) => EndsWell(L, st, r, recv')
    case Some(bad) =>
      EndsClean(L, st, r, if Refused(L, st.info, recv, e) then |recv| else |recv'|, bad)
  }

  lemma StoreAndJudge(L: Layout, st: State, recv: seq<byte>, data: seq<byte>, d: seq<byte>)
    requires Ready(L, st, recv, data, d) && st.info.processStart
    ensures var r, all := Accept(L, st, d), recv + data;
            if |all| < st.info.total then r.info.processStart && Inv(L, r, all) && r.sent == st.sent
            else if |all| > st.info.total then EndsClean(L, st, r, |all|, IncorrectOffset)
            else if st.info.binType == LOCAL_BIN && !FileIsSound(L, all) then EndsClean(L, st, r, |all|, IncorrectData)
            else EndsWell(L, st, r, all)
  {
    hide *;
    if |recv + data| < st.info.total {
      AcceptCarriesOn(L, st, recv, data, d);
    } else if |recv + data| > st.info.total {
      AcceptOvershoots(L, st, recv, data, d);
    } else {
      AcceptFinishes(L, st, recv, data, d);
    }
  }

  lemma PatchedIsStored(L: Layout, recv: seq<byte>, data: seq<byte>)
    ensures forall k :: 0 <= k < |data| ==>
              Patched(L, |recv|, data)[k] == StoredByte(L, LOCAL_BIN, recv + data, |recv| + k)
  {
  }

  function Counted(L: Layout, st: State, data: seq<byte>): (r: State)
    requires CanTake(L, st, data)
  {
    st.(timer := NoTimer, info := st.info.(crc := Fold(L.crcStep, data[..CrcLen(st.info, |data|)], st.info.crc)))
  }

  /** The flag byte the local branch looks at is the one the host sent. */
  lemma FlagByteSeen(L: Layout, recv: seq<byte>, data: seq<byte>, next: byte)
    requires TouchesFlag(L, |recv|, |data|)
    ensures (recv + data + [next])[L.flagAt] == (data + [next])[L.flagAt - |recv|]
  {
  }

  lemma LocalReady(L: Layout, st: State, recv: seq<byte>, data: seq<byte>, next: byte)
    requires Inv(L, st, recv) && st.info.processStart && st.info.binType == LOCAL_BIN && |data| < 256
    requires TouchesFlag(L, |recv|, |data|) ==> (data + [next])[L.flagAt - |recv|] == START_FLAG
    ensures Ready(L, Counted(L, st, data), recv, data, Patched(L, |recv|, data))
  {
    assert CanTake(L, st, data) && st.info.total < 0x1_0000_0000;
    hide Fold, Span, StoredByte, Patched, Layout.Valid, CrcLen;
    PatchedIsStored(L, recv, data);
    assert |recv + data| <= st.info.total ==> Knows(L, Counted(L, st, data).info, recv + data) by {
      if |recv + data| <= st.info.total {
        LocalLearns(L, st.info, recv, data, next);
      }
    }
    hide Knows, TouchesFlag;
  }

  lemma LocalRefused(L: Layout, st: State, recv: seq<byte>, data: seq<byte>)
    requires Inv(L, st, recv) && st.info.processStart && |data| < 256
    ensures EndsClean(L, st, SendEnd(L, Counted(L, st, data), IncorrectData), |recv|, IncorrectData)
  {
    SessionHasSlot(L, st, recv);
    hide Fold, Span, StoredByte, Layout.Valid, CrcLen, SendEnd;
    FailureSweeps(L, Counted(L, st, data), recv, IncorrectData);
  }

  /** The local branch, in terms of the record with the checksum taken. */
  lemma LocalStep(L: Layout, st: State, e: Event)
    requires InChip(L, st) && st.info.processStart && st.info.binType == LOCAL_BIN
    requires e.Block? && e.ok && e.offset == st.info.offset && |e.data| < 256
    ensures CanTake(L, st, e.data)
    ensures Step(L, st, e)
         == if TouchesFlag(L, e.offset, |e.data|) && (e.data + [e.next])[L.flagAt - e.offset] != START_FLAG
            then SendEnd(L, Counted(L, st, e.data), IncorrectData)
            else Accept(L, Counted(L, st, e.data), Patched(L, e.offset, e.data))
  {
    hide Fold, Patched, Accept, SendEnd, CrcLen;
  }

  lemma LocalBlock(L: Layout, st: State, recv: seq<byte>, e: Event)
    requires Inv(L, st, recv) && st.info.processStart && st.info.binType == LOCAL_BIN
    requires e.Block? && e.ok && e.offset == st.info.offset && |e.data| < 256
    ensures Follows(L, st, Step(L, st, e), recv, e)
  {
    LocalStep(L, st, e);
    hide Step, BlockStep, Counted, Fold, Span, StoredByte, Programmed, EraseRun, Layout.Valid, Patched, Accept, SendEnd;
    hide Knows, FileIsSound, Ready, Content, CrcLen, EndsClean, EndsWell;
    if TouchesFlag(L, |recv|, |e.data|) {
      FlagByteSeen(L, recv, e.data, e.next);
    }
    if TouchesFlag(L, |recv|, |e.data|) && (e.data + [e.next])[L.flagAt - |recv|] != START_FLAG {
      LocalRefused(L, st, recv, e.data);
    } else {
      LocalReady(L, st, recv, e.data, e.next);
      StoreAndJudge(L, Counted(L, st, e.data), recv, e.data, Patched(L, |recv|, e.data));
    }
  }

  /** The record after the remote branch has looked through a block. */
  function Scanned(L: Layout, st: State, data: seq<byte>): (r: State)
    requires |st.info.bootFlag| == 4
  {
    var found := st.info.offset <= L.flagAt + 3 < st.info.offset + |data|;
    var idle := st.(timer := NoTimer);
    if st.info.findBootFlag then idle
    else
      idle.(info := st.info.(bootFlag := FlagBytes(L, st.info.bootFlag, st.info.offset, data),
                             findBootFlag := found))
  }

  lemma RemoteReady(L: Layout, st: State, recv: seq<byte>, data: seq<byte>)
    requires Inv(L, st, recv) && st.info.processStart && st.info.binType != LOCAL_BIN && |data| < 256
    requires !(|recv| < L.flagAt + 4 <= |recv + data| && Four(recv + data, L.flagAt) == FLAG_WHOLE)
    ensures Ready(L, Scanned(L, st, data), recv, data, data)
  {
  }

  lemma RemoteRefused(L: Layout, st: State, recv: seq<byte>, data: seq<byte>)
    requires Inv(L, st, recv) && st.info.processStart && |data| < 256
    ensures EndsClean(L, st, SendEnd(L, Scanned(L, st, data), MatchBootFlag), |recv|, MatchBootFlag)
  {
    SessionHasSlot(L, st, recv);
    hide Span, StoredByte, Layout.Valid, FlagBytes, SendEnd;
    FailureSweeps(L, Scanned(L, st, data), recv, MatchBootFlag);
  }

  lemma RemoteBlock(L: Layout, st: State, recv: seq<byte>, e: Event)
    requires Inv(L, st, recv) && st.info.processStart && st.info.binType != LOCAL_BIN
    requires e.Block? && e.ok && e.offset == st.info.offset && |e.data| < 256
    ensures Follows(L, st, Step(L, st, e), recv, e)
  {
    assert CanTake(L, st, e.data);
    assert st.info.findBootFlag <==> L.flagAt + 4 <= |recv|;
    if !st.info.findBootFlag {
      RemoteLearns(L, st.info, recv, e.data);
    }
    hide Fold, Span, StoredByte, Programmed, EraseRun, Layout.Valid, Accept, SendEnd;
    hide Knows, FileIsSound, Ready, Content, FlagBytes;
    if |recv| < L.flagAt + 4 <= |recv + e.data| && Four(recv + e.data, L.flagAt) == FLAG_WHOLE {
      RemoteRefused(L, st, recv, e.data);
    } else {
      RemoteReady(L, st, recv, e.data);
      StoreAndJudge(L, Scanned(L, st, e.data), recv, e.data, e.data);
    }
  }

  /** What follows any block response is what the verdict says, whatever the host sends. */
  lemma BlockFollows(L: Layout, st: State, recv: seq<byte>, e: Event)
    requires Inv(L, st, recv) && st.info.processStart && e.Block? && |e.data| < 256
    ensures Follows(L, st, Step(L, st, e), recv, e)
  {
    if e.ok && e.offset == st.info.offset {
      if st.info.binType == LOCAL_BIN {
        LocalBlock(L, st, recv, e);
      } else {
        RemoteBlock(L, st, recv, e);
      }
    } else if !e.ok {
      SessionHasSlot(L, st, recv);
      hide Span, StoredByte, Layout.Valid, Knows, SendEnd;
      FailureSweeps(L, st.(timer := NoTimer), recv, IncorrectData);
    }
  }

  // ----- opening a session and waiting for blocks -----

  /** A start request opens a session on a freshly erased slot, unless one is open, no slot
      boots or the file is too large. */
  predicate Opens(L: Layout, st: State, total: u32)
    requires |st.mem| > 0
  {
    !st.info.processStart && BootAddr(L, st.mem) != NO_BOOT && total < L.imageMax
  }

  lemma StartOpens(L: Layout, st: State, total: u32, bin: Option<byte>)
    requires InChip(L, st) && Opens(L, st, total)
    ensures var r := StartStep(L, st, total, bin);
            && Inv(L, r, []) && r.info.processStart
            && r.info.start == OtherSlot(L, BootAddr(L, st.mem)) && r.info.total == total
            && r.info.binType == (if bin.Some? then bin.value else REMOTE_BIN)
            && r.sent == st.sent + [StartRsp(r.info.start, total, 0, Success)]
  {
    var start := OtherSlot(L, BootAddr(L, st.mem));
    SlotIsAligned(L, start);
    SpanFits(L, total, L.imageMax);
    var r := StartStep(L, st, total, bin);
    SessionOpens(L, st, total, start, r.info.binType);
    NothingKnownYet(L, r.info);
    assert InChip(L, r) by { hide Span, EraseRun, BootAddr; }
    hide Layout.Valid, Knows, Content, Span, EraseRun, BootAddr;
  }

  lemma StartKeeps(L: Layout, st: State, recv: seq<byte>, total: u32, bin: Option<byte>)
    requires Inv(L, st, recv)
    ensures Inv(L, StartStep(L, st, total, bin), Received(st, recv, Start(total, bin)))
    ensures !Opens(L, st, total) ==> StartStep(L, st, total, bin).mem == st.mem
  {
    if Opens(L, st, total) {
      StartOpens(L, st, total, bin);
    } else {
      hide Span, EraseRun, BootAddr, Fold, StoredByte, Layout.Valid, Content;
    }
  }

  /** How a start request is answered, and what it leaves, in the four cases: a session is open,
      neither slot carries the start-up word, the file is too large, or the session opens. */
  lemma StartAnswers(L: Layout, st: State, total: u32, bin: Option<byte>)
    requires InChip(L, st) && |st.mem| > 0
    ensures var r, info := StartStep(L, st, total, bin), st.info;
            var first, second := Read4(st.mem, L.flagAt), Read4(st.mem, L.otaAddr + L.flagAt);
            var whole: seq<byte> := [0x4B, 0x4E, 0x4C, 0x54];
            var slot := if first == whole then L.otaAddr else 0;
            && (info.processStart ==>
                  r == st.(sent := st.sent + [StartRsp(info.start, info.total, info.offset, InProgress)]))
            && (!info.processStart && first != whole && second != whole ==>
                  r == st.(sent := st.sent + [StartRsp(info.start, info.total, info.offset, BootAddrError)]))
            && (!info.processStart && (first == whole || second == whole) && total >= L.imageMax ==>
                  r == st.(info := info.(start := slot, total := total),
                           sent := st.sent + [StartRsp(slot, total, 0, FileOversize)]))
            && (!info.processStart && (first == whole || second == whole) && total < L.imageMax ==>
                  && r.sent == st.sent + [StartRsp(slot, total, 0, Success)] && r.timer == RetryTimer
                  && r.info == info.(start := slot, total := total, offset := 0, processStart := true,
                                     findBootFlag := false, requestCnt := 0, crc := 0xFFFF_FFFF,
                                     binType := if bin.Some? then bin.value else 0))
  {
    assert L.otaAddr > 0 && L.otaAddr < NO_BOOT;
    hide Read4, EraseRun, Layout.Valid;
  }

  /** Which slot the chip boots from: the first if its flag word is whole, the second if only
      that one's is, and otherwise none. */
  lemma BootAddrIs(L: Layout, mem: seq<byte>)
    requires L.Valid() && |mem| == L.size && |mem| > 0
    ensures var first, second := L.flagAt, L.otaAddr + L.flagAt;
            && second + 4 <= |mem|
            && BootAddr(L, mem) == if mem[first..first + 4] == [0x4B, 0x4E, 0x4C, 0x54] then 0
                                   else if mem[second..second + 4] == [0x4B, 0x4E, 0x4C, 0x54] then L.otaAddr
                                   else 0xFFFF_FFFF
  {
    ReadIsSlice(mem, L.flagAt);
    ReadIsSlice(mem, L.otaAddr + L.flagAt);
    hide Read4;
  }

  lemma ReadIsSlice(mem: seq<byte>, at: nat)
    requires at + 4 <= |mem|
    ensures |mem| > 0 && Read4(mem, at) == mem[at..at + 4]
  {
  }

  lemma SessionOpens(L: Layout, st: State, total: nat, start: nat, bin: byte)
    requires L.sector > 0 && start % L.sector == 0 && start + Span(L, total) <= |st.mem|
    ensures Content(L, EraseRun(L, st, start, Sectors(L, total)).mem, start, total, bin, [])
  {
    var mem := EraseRun(L, st, start, Sectors(L, total)).mem;
    forall i | start <= i < start + Span(L, total)
      ensures mem[i] == 255
    {
      EraseRunAt(L, st, start, Sectors(L, total), i);
    }
  }

  lemma NothingKnownYet(L: Layout, info: Info)
    requires |info.bootFlag| == 4 && info.crc == CRC_INIT && !info.findBootFlag
    ensures Knows(L, info, [])
  {
  }

  /** A retry tick asks again for the block at the current offset, or gives up after five
      requests. */
  lemma RetryFollows(L: Layout, st: State, recv: seq<byte>)
    requires Inv(L, st, recv) && st.info.processStart
    ensures var r := RetryStep(L, st);
            if st.info.requestCnt < 5 then
              && Inv(L, r, recv) && r.mem == st.mem
              && r.info == st.info.(requestCnt := st.info.requestCnt + 1)
              && st.info.offset <= st.info.total
              && RequestLen(st.info) == (if st.info.total - |recv| >= 40 then 40 else st.info.total - |recv|)
              && r.sent == st.sent + [BlockReq(|recv|, RequestLen(st.info))]
            else EndsClean(L, st, r, |recv|, GetBlockTimeout)
  {
    hide Span, StoredByte, Fold, Programmed;
    SessionHasSlot(L, st, recv);
    hide Layout.Valid, SendEnd;
    var counted := st.(info := st.info.(requestCnt := st.info.requestCnt + 1));
    FailureSweeps(L, counted.(timer := NoTimer), recv, GetBlockTimeout);
    TimerDoesNotMatter(L, counted, GetBlockTimeout);
  }

  /** Ending a session neither reads nor sets the timer. */
  lemma TimerDoesNotMatter(L: Layout, st: State, status: Status)
    requires L.sector > 0
    ensures SendEnd(L, st, status).(timer := NoTimer) == SendEnd(L, st.(timer := NoTimer), status)
  {
    var told := Send(st, End(st.info.total, st.info.offset, status));
    EraseIgnoresTimer(L, told, st.info.start, Sectors(L, st.info.offset));
  }

  lemma {:induction false} EraseIgnoresTimer(L: Layout, st: State, start: nat, n: nat)
    requires L.sector > 0
    ensures EraseRun(L, st, start, n).(timer := NoTimer) == EraseRun(L, st.(timer := NoTimer), start, n)
  {
    if n > 0 {
      EraseIgnoresTimer(L, st, start, n - 1);
    }
  }
}
