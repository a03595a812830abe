/** What becomes of a chip that boots when a block response comes with no session open, as a
    late repeat does on a channel that delays: exactly when it still boots, and what that
    leaves of an update that had just succeeded. */
module OtaLate {
  import opened Words
  import opened Flash
  import opened OtaSession
  import opened OtaInvariant
  import opened OtaSteps
  import opened OtaStray
  import opened OtaRuns
  import opened OtaBoot
  import opened OtaBootRuns
  import opened OtaUpdate

  /** The second slot would boot if the first one did not. */
  ghost predicate Standing(L: Layout, mem: seq<byte>)
    requires |mem| > 0
  {
    Read4(mem, L.otaAddr + L.flagAt) == FLAG_WHOLE && RealImage(L, mem, L.otaAddr)
  }

  /** Nothing in flash changes. */
  predicate Untouched(e: Event) {
    e.Block? && e.ok && (e.offset != 0 || e.data == [])
  }

  /** The flash is erased from its start up to `span` and otherwise as it was. */
  ghost predicate SweptTo(mem: seq<byte>, after: seq<byte>, span: nat) {
    |after| == |mem| && forall i :: 0 <= i < |mem| ==> after[i] == if i < span then 255 else mem[i]
  }

  lemma BootableStands(L: Layout, mem: seq<byte>)
    requires |mem| > 0 && Bootable(L, mem) && 0 < L.otaAddr < NO_BOOT
    ensures BootAddr(L, mem) == 0 || BootAddr(L, mem) == L.otaAddr
    ensures BootAddr(L, mem) == L.otaAddr ==> Standing(L, mem)
  {
    hide RealImage, Read4;
  }

  lemma SweptBoots(L: Layout, mem: seq<byte>, after: seq<byte>, n: nat)
    requires Usable(L) && L.sector > 0 && |mem| == L.size && |mem| > 0 && SweptTo(mem, after, Span(L, n))
    ensures Bootable(L, after) <==> Standing(L, mem) && n < L.otaAddr
  {
    SlotsFit(L);
    SlotIsAligned(L, L.otaAddr);
    SpanFits(L, n, L.otaAddr);
    hide RealImage, Layout.Valid, Span;
    assert after[L.flagAt] == 255;
    if n < L.otaAddr {
      hide SweptTo;
      SweptLeaves(L, mem, after, Span(L, n));
      FirstSlotGone(L, after);
    } else {
      SpanPasses(L, n, L.otaAddr);
      assert after[L.otaAddr + L.flagAt] == 255;
      ErasedFlagsDoNotBoot(L, after);
    }
  }

  lemma SweptLeaves(L: Layout, mem: seq<byte>, after: seq<byte>, span: nat)
    requires Usable(L) && |mem| == L.size && |mem| > 0 && SweptTo(mem, after, span) && span <= L.otaAddr
    ensures |after| > 0 && (Standing(L, after) <==> Standing(L, mem))
  {
    SlotsFit(L);
    hide RealImage, Layout.Valid, Read4;
    assert SlotAgrees(L, mem, after, L.otaAddr) && SlotAgrees(L, after, mem, L.otaAddr);
    SameReads(L, mem, after, L.otaAddr, L.flagAt);
    if RealImage(L, mem, L.otaAddr) {
      ImageSurvives(L, mem, after, L.otaAddr);
    }
    if RealImage(L, after, L.otaAddr) {
      ImageSurvives(L, after, mem, L.otaAddr);
    }
  }

  lemma FirstSlotGone(L: Layout, mem: seq<byte>)
    requires L.Valid() && |mem| == L.size && |mem| > 0 && L.flagAt < |mem| && mem[L.flagAt] == 255
    ensures Bootable(L, mem) <==> Standing(L, mem)
  {
    SlotsFit(L);
    hide RealImage, Layout.Valid;
    assert Read4(mem, L.flagAt)[0] == 255;
  }

  /** With a zero record, a block response leaves a chip that boots if and only if it touches
      nothing, or the second slot can boot and is not reached: it is harmless to a device that
      runs from the second slot, and an error response, or a block for offset 0, erases the
      image of one that runs from the first. */
  lemma StrayDecides(L: Layout, st: State, e: Event)
    requires InChip(L, st) && Usable(L) && st.info == ZERO_INFO && e.Block? && Enabled(st, e)
    requires |st.mem| > 0 && Bootable(L, st.mem)
    ensures Bootable(L, Step(L, st, e).mem) <==>
              Untouched(e) || (Standing(L, st.mem) && (TurnedAway(L, e) || |e.data| < L.otaAddr))
    ensures BootAddr(L, st.mem) == 0 || BootAddr(L, st.mem) == L.otaAddr
    ensures BootAddr(L, st.mem) == L.otaAddr ==> Standing(L, st.mem)
  {
    assert L.sector > 0 && |st.mem| == L.size && 0 < L.otaAddr < NO_BOOT by { SlotsFit(L); }
    BootableStands(L, st.mem);
    hide InChip, Bootable, Standing, Step, BootAddr;
    if Untouched(e) {
      UntouchedIsSame(L, st, e);
    } else {
      StraySwept(L, st, e);
      SweptBoots(L, st.mem, Step(L, st, e).mem, if TurnedAway(L, e) then 0 else |e.data|);
    }
  }

  lemma UntouchedIsSame(L: Layout, st: State, e: Event)
    requires InChip(L, st) && st.info == ZERO_INFO && Untouched(e) && Enabled(st, e)
    ensures Step(L, st, e).mem == st.mem
  {
    if e.offset == 0 {
      StrayEmpty(L, st, e);
    } else {
      StrayArms(L, st, e);
    }
    hide Step;
  }

  lemma StraySwept(L: Layout, st: State, e: Event)
    requires InChip(L, st) && st.info == ZERO_INFO && e.Block? && Enabled(st, e) && !Untouched(e) && L.sector > 0
    ensures SweptTo(st.mem, Step(L, st, e).mem, Span(L, if TurnedAway(L, e) then 0 else |e.data|))
  {
    assert |Step(L, st, e).mem| == |st.mem|;
    hide InChip, Step, Span;
    forall i: nat | i < |st.mem|
      ensures Step(L, st, e).mem[i] == if i < Span(L, if TurnedAway(L, e) then 0 else |e.data|) then 255 else st.mem[i]
    {
      StraySweeps(L, st, e, i);
    }
  }

  lemma DeliveredFlag(L: Layout, st: State, file: seq<byte>, start: nat)
    requires Delivered(L, st, file, start) && FileIsSound(L, file)
    ensures start + L.flagAt < |st.mem| && st.mem[start + L.flagAt] == 255
  {
    hide Fold;
    assert st.mem[start..start + |file|][L.flagAt] == Patched(L, 0, file)[L.flagAt];
  }

  lemma ErasedIsNoImage(L: Layout, mem: seq<byte>)
    requires L.Valid() && |mem| == L.size && |mem| > 0 && forall i :: 0 <= i < L.sector && i < |mem| ==> mem[i] == 255
    ensures !ImageValid(L, mem, 0)
  {
    SlotsFit(L);
    hide Layout.Valid, Fold, ImageBody, Word;
    assert Read4(mem, L.flagAt)[1..][0] == 255;
  }

  /** A file has been delivered, the host has been told so and the reboot is due. A late repeat
      of the host's first block, of any length, undoes that: the reboot is cancelled, and the
      new image is gone if it was in the first slot, or else the running one, and with it the
      only slot that boots. */
  lemma LateRepeatUndoes(L: Layout, st: State, file: seq<byte>, n: nat, next: byte)
    requires InChip(L, st) && Usable(L) && |st.mem| > 0 && Bootable(L, st.mem) && FileIsSound(L, file)
    requires Delivered(L, st, file, OtherSlot(L, BootAddr(L, st.mem)))
    requires 0 < n < 256 && n <= |file| && n < L.otaAddr
    ensures Honest(file, Block(true, 0, file[..n], next))
    ensures var r := Step(L, st, Block(true, 0, file[..n], next));
            && |r.mem| > 0 && r.info == ZERO_INFO && r.timer == NoTimer && LastStatus(r) != Some(Success)
            && if BootAddr(L, st.mem) == 0 then !Bootable(L, r.mem)
               else Bootable(L, r.mem) && BootAddr(L, r.mem) == BootAddr(L, st.mem) && !ImageValid(L, r.mem, 0)
  {
    hide InChip, Usable, Step, Bootable, FileIsSound, BootAddr, TurnedAway, ImageValid, Standing;
    var e := Block(true, 0, file[..n], next);
    var b := BootAddr(L, st.mem);
    assert st.info == ZERO_INFO && !Untouched(e);
    StrayDecides(L, st, e);
    DeliveredFlag(L, st, file, OtherSlot(L, b));
    StrayEnds(L, st, e);
    hide Delivered, Ignored;
    if b == 0 {
      NotStanding(L, st.mem);
    } else {
      SecondSlotBoots(L, Step(L, st, e).mem);
    }
  }

  lemma StrayEnds(L: Layout, st: State, e: Event)
    requires InChip(L, st) && st.info == ZERO_INFO && e.Block? && Enabled(st, e) && !Untouched(e) && |st.mem| > 0
    ensures var r := Step(L, st, e);
            && |r.mem| > 0 && r.info == ZERO_INFO && r.timer == NoTimer
            && LastStatus(r).Some? && LastStatus(r) != Some(Success)
            && 0 <= L.flagAt < |r.mem| && r.mem[L.flagAt] == 255 && 0 < L.otaAddr && !ImageValid(L, r.mem, 0)
  {
    assert L.Valid() && L.sector > 0 && |st.mem| == L.size;
    StrayArms(L, st, e);
    StrayIsReported(L, st, e);
    StraySwept(L, st, e);
    SlotsFit(L);
    hide Step, Layout.Valid, TurnedAway, Span;
    ErasedIsNoImage(L, Step(L, st, e).mem);
  }

  lemma NotStanding(L: Layout, mem: seq<byte>)
    requires L.otaAddr + L.flagAt < |mem| && mem[L.otaAddr + L.flagAt] == 255
    ensures !Standing(L, mem)
  {
    hide RealImage;
    assert Read4(mem, L.otaAddr + L.flagAt)[0] == 255;
  }

  lemma SecondSlotBoots(L: Layout, mem: seq<byte>)
    requires |mem| > 0 && L.flagAt < |mem| && mem[L.flagAt] == 255 && Bootable(L, mem) && L.otaAddr > 0
    ensures BootAddr(L, mem) == L.otaAddr
  {
    hide RealImage;
    assert Read4(mem, L.flagAt)[0] == 255;
  }

  lemma StrayIsReported(L: Layout, st: State, e: Event)
    requires InChip(L, st) && st.info == ZERO_INFO && e.Block? && Enabled(st, e) && !Untouched(e)
    ensures LastStatus(Step(L, st, e)).Some? && LastStatus(Step(L, st, e)) != Some(Success)
  {
    StrayTaken(L, st, e);
    hide Step, Programmed, EraseRun, FlagBytes;
  }

  /** End to end: the update of UpdateInstalls, on a device that runs from its first slot, with
      every request answered. At the next tick the device would boot the new image; if a repeat
      of the first answer comes before that, nothing boots any more. */
  lemma UpdateUndone(L: Layout, mem: seq<byte>, st: State, file: seq<byte>, next: nat -> byte, n: nat)
    requires BootInv(L, mem, st, []) && |st.mem| > 0 && !st.info.processStart && FileIsImage(L, file)
    requires 40 * n - 40 < |file| <= 40 * n && BootAddr(L, st.mem) == 0
    ensures InChip(L, st) && |file| < 0x1_0000_0000
    ensures var s0 := Step(L, st, Start(|file|, Some(LOCAL_BIN)));
            var r := Rounds(L, s0, file, next, n);
            && Installs(L, st, r) && s0.info.offset <= s0.info.total == |file|
            && !Bootable(L, Step(L, r, AnswerTo(s0, file, next)).mem)
  {
    hide Step, Rounds, BootInv, InChip, FileIsImage, FileIsSound, Serving, Bootable, BootAddr, TookOver, Updating;
    hide Installs, Delivered, AnswerTo, Usable;
    StartUpdates(L, mem, st, file);
    UpdateInstalls(L, mem, st, file, next, n);
    var s0 := Step(L, st, Start(|file|, Some(LOCAL_BIN)));
    UpdatingFacts(L, mem, s0, file);
    StartFacts(L, mem, st, s0, file);
    SoundFileArrives(L, s0, file, next, n);
    FirstAnswerUndoes(L, st, s0, Rounds(L, s0, file, next, n), file, next);
  }

  lemma FirstAnswerUndoes(L: Layout, st: State, s0: State, r: State, file: seq<byte>, next: nat -> byte)
    requires Installs(L, st, r) && BootAddr(L, st.mem) == 0 && Delivered(L, r, file, OtherSlot(L, 0))
    requires Usable(L) && FileIsSound(L, file) && 0 < |file| < 0x1_0000_0000 && |file| < L.otaAddr
    requires s0.info.offset == 0 && s0.info.total == |file|
    ensures InChip(L, r) && Enabled(r, AnswerTo(s0, file, next))
    ensures !Bootable(L, Step(L, r, AnswerTo(s0, file, next)).mem)
  {
    hide TookOver, Bootable, BootAddr, InChip, Usable, FileIsSound, Delivered, Step;
    LateRepeatUndoes(L, r, file, RequestLen(s0.info), next(0));
  }

  lemma StartFacts(L: Layout, mem: seq<byte>, st: State, s0: State, file: seq<byte>)
    requires Updating(L, mem, s0, file) && s0.info.offset == 0 && |s0.mem| > 0 && |st.mem| > 0
    requires BootAddr(L, s0.mem) == BootAddr(L, st.mem)
    ensures Serving(L, s0, file) && s0.info.start == OtherSlot(L, BootAddr(L, st.mem)) && Usable(L)
    ensures s0.info.requestCnt < RETRY_MAX && s0.info.total == |file| && 0 < |file| < L.otaAddr
  {
    hide BootAddr, Boots, Content, Knows, Span, Tracked;
    assert Serving(L, s0, file);
    BootInvSplits(L, mem, s0, file[..0]);
    SlotsFit(L);
    ServingFacts(L, s0, file);
    UpdatingFacts(L, mem, s0, file);
  }

  /** The small layout with the 44-byte image in the first slot. */
  function FirstChip(): (mem: seq<byte>)
    ensures |mem| == 640
  {
    seq(640, i requires 0 <= i => if i < 128 then SmallByte(128 + i) else 255)
  }

  lemma FirstChipBoots()
    ensures Usable(SmallLayout()) && Boots(SmallLayout(), FirstChip(), 0) && Bootable(SmallLayout(), FirstChip())
    ensures BootAddr(SmallLayout(), FirstChip()) == 0
  {
  }

  lemma StartOffset(L: Layout, st: State, total: u32)
    requires InChip(L, st) && |st.mem| > 0 && Opens(L, st, total) && L.sector > 0
    ensures var info := Step(L, st, Start(total, Some(LOCAL_BIN))).info;
            info.offset == 0 && info.total == total
  {
    OpenedFields(L, st, total, Step(L, st, Start(total, Some(LOCAL_BIN))));
  }

  /** There are such devices and images. */
  lemma SmallUpdateUndone(next: nat -> byte)
    ensures var L, mem := SmallLayout(), FirstChip();
            exists st :: BootInv(L, mem, st, []) && |st.mem| > 0 && !st.info.processStart && InChip(L, st)
                      && BootAddr(L, st.mem) == 0
                      && var r := Rounds(L, Step(L, st, Start(44, Some(LOCAL_BIN))), SmallFile(), next, 2);
                         Installs(L, st, r) && !Bootable(L, Step(L, r, Block(true, 0, SmallFile()[..40], next(0))).mem)
  {
    hide BootInv, Rounds, InChip, Step, Boots, Bootable, FileIsImage, Installs, BootAddr, Usable;
    var L, mem, file := SmallLayout(), FirstChip(), SmallFile();
    FirstChipBoots();
    SmallFileIsImage();
    FreshIsBootInv(L, mem);
    var st := Fresh(mem);
    UpdateUndone(L, mem, st, file, next, 2);
    assert Opens(L, st, 44);
    StartOffset(L, st, 44);
  }
}
