/** The whole update, end to end: a device that boots, an image, and a host that answers every
    request; in the end the device boots the new image. */
module OtaUpdate {
  import opened Words
  import opened OtaSession
  import opened OtaInvariant
  import opened OtaSteps
  import opened OtaRuns
  import opened OtaBoot
  import opened OtaBootRuns

  /** A session for `file` on a device that can boot, about to ask for its next block. */
  ghost predicate Updating(L: Layout, mem: seq<byte>, st: State, file: seq<byte>) {
    && Serving(L, st, file) && FileIsImage(L, file) && st.info.requestCnt < RETRY_MAX
    && (st.info.offset == 0 || st.info.offset > L.flagAt)
    && BootInv(L, mem, st, file[..st.info.offset])
  }

  lemma UpdatingFacts(L: Layout, mem: seq<byte>, st: State, file: seq<byte>)
    requires Updating(L, mem, st, file)
    ensures InChip(L, st) && Enabled(st, Tick) && |st.mem| > 0 && Careful(L, st, file[..st.info.offset], Tick)
    ensures FileIsSound(L, file) && |file| < L.otaAddr && st.info.offset < |file| && st.info.processStart
  {
    ServingFacts(L, st, file);
    hide Inv, FileIsSound, Tracked, Bootable, ImageValid, RealImage;
  }

  lemma AskBoots(L: Layout, mem: seq<byte>, st: State, file: seq<byte>)
    requires Updating(L, mem, st, file)
    ensures InChip(L, st) && Enabled(st, Tick) && |st.mem| > 0
    ensures var asked := Step(L, st, Tick);
            && Serving(L, asked, file) && asked.info == st.info.(requestCnt := st.info.requestCnt + 1)
            && BootInv(L, mem, asked, file[..st.info.offset])
            && |asked.mem| > 0 && BootAddr(L, asked.mem) == BootAddr(L, st.mem)
  {
    UpdatingFacts(L, mem, st, file);
    hide Step, BootInv, Serving, InChip, Careful, FileIsImage, BootAddr;
    AskFollows(L, st, file);
    BootStep(L, mem, st, file[..st.info.offset], Tick);
  }

  lemma AnswerIsCareful(L: Layout, st: State, file: seq<byte>, e: Event)
    requires st.info.processStart && |st.mem| > 0 && |file| < L.otaAddr && st.timer == RetryTimer
    requires e.Block? && e.ok && e.offset == st.info.offset && st.info.offset + |e.data| <= |file|
    ensures Careful(L, st, file[..st.info.offset], e)
    ensures Received(st, file[..st.info.offset], e) == file[..st.info.offset] + e.data
  {
  }

  /** The file has arrived: the device still boots from where it did, and when the reboot timer
      ticks it switches slots. */
  ghost predicate Installs(L: Layout, st: State, r: State) {
    && |st.mem| > 0 && |r.mem| > 0 && Bootable(L, r.mem) && BootAddr(L, r.mem) == BootAddr(L, st.mem)
    && InChip(L, r) && Enabled(r, Tick) && TookOver(L, st, Step(L, r, Tick))
  }

  /** What the last answer leads to. */
  lemma LastAnswerTakesOver(L: Layout, mem: seq<byte>, asked: State, file: seq<byte>, next: nat -> byte)
    requires Serving(L, asked, file) && FileIsImage(L, file) && FileIsSound(L, file)
    requires asked.info.offset == 0 || asked.info.offset > L.flagAt
    requires BootInv(L, mem, asked, file[..asked.info.offset]) && |file| - asked.info.offset <= BLOCK_MAX
    ensures InChip(L, asked) && |file| < 0x1_0000_0000 && Enabled(asked, AnswerTo(asked, file, next))
    ensures Installs(L, asked, Step(L, asked, AnswerTo(asked, file, next)))
  {
    ServingFacts(L, asked, file);
    BootInvSplits(L, mem, asked, file[..asked.info.offset]);
    assert |asked.mem| > 0 && asked.timer == RetryTimer && |file| < L.otaAddr && L.flagAt < BLOCK_MAX by {
      SlotsFit(L);
    }
    AnswerFits(L, asked, file, next);
    var e := AnswerTo(asked, file, next);
    AnswerIsCareful(L, asked, file, e);
    hide Step, BootInv, Serving, InChip, FileIsImage, FileIsSound, Verdict, TookOver, BootAddr, Careful, Guarded, Safe;
    NewImageTakesOver(L, mem, asked, file[..asked.info.offset], e);
    BootStep(L, mem, asked, file[..asked.info.offset], e);
    BootInvBoots(L, mem, Step(L, asked, e), Received(asked, file[..asked.info.offset], e));
  }

  lemma BootInvBoots(L: Layout, mem: seq<byte>, st: State, recv: seq<byte>)
    requires BootInv(L, mem, st, recv)
    ensures Bootable(L, st.mem)
  {
  }

  lemma NextAnswerBoots(L: Layout, mem: seq<byte>, asked: State, file: seq<byte>, next: nat -> byte)
    requires Serving(L, asked, file) && FileIsImage(L, file) && FileIsSound(L, file)
    requires asked.info.offset == 0 || asked.info.offset > L.flagAt
    requires BootInv(L, mem, asked, file[..asked.info.offset]) && |file| - asked.info.offset > BLOCK_MAX
    ensures InChip(L, asked) && |file| < 0x1_0000_0000 && Enabled(asked, AnswerTo(asked, file, next))
    ensures var r := Step(L, asked, AnswerTo(asked, file, next));
            && Updating(L, mem, r, file) && r.info.offset == asked.info.offset + BLOCK_MAX
            && |asked.mem| > 0 && |r.mem| > 0 && BootAddr(L, r.mem) == BootAddr(L, asked.mem)
  {
    ServingFacts(L, asked, file);
    BootInvSplits(L, mem, asked, file[..asked.info.offset]);
    assert |asked.mem| > 0 && asked.timer == RetryTimer && |file| < L.otaAddr && L.flagAt < BLOCK_MAX by {
      SlotsFit(L);
    }
    var e := AnswerTo(asked, file, next);
    AnswerFits(L, asked, file, next);
    AnswerIsCareful(L, asked, file, e);
    hide Step, BootInv, Serving, InChip, FileIsImage, FileIsSound, Verdict, BootAddr, Careful, Received, Guarded, Safe;
    AnswerFollows(L, asked, file, next);
    BootStep(L, mem, asked, file[..asked.info.offset], e);
    PrefixGrows(file, asked.info.offset, BLOCK_MAX);
  }

  lemma SameBootAddr(L: Layout, st: State, asked: State, r: State)
    requires Installs(L, asked, r) && |st.mem| > 0 && |asked.mem| > 0 && BootAddr(L, st.mem) == BootAddr(L, asked.mem)
    ensures Installs(L, st, r)
  {
    hide BootAddr, Read4, Step;
  }

  /** One round of asking and answering. */
  lemma RoundBoots(L: Layout, mem: seq<byte>, st: State, file: seq<byte>, next: nat -> byte)
    requires Updating(L, mem, st, file)
    ensures var r := Round(L, st, file, next);
            if |file| - st.info.offset <= BLOCK_MAX then Installs(L, st, r)
            else
              && Updating(L, mem, r, file) && r.info.offset == st.info.offset + BLOCK_MAX
              && |st.mem| > 0 && |r.mem| > 0 && BootAddr(L, r.mem) == BootAddr(L, st.mem)
  {
    UpdatingFacts(L, mem, st, file);
    hide Step, BootInv, InChip, FileIsImage, FileIsSound, Installs, BootAddr, Careful, AnswerTo, Serving;
    AskBoots(L, mem, st, file);
    var asked := Step(L, st, Tick);
    if |file| - st.info.offset <= BLOCK_MAX {
      LastAnswerTakesOver(L, mem, asked, file, next);
      SameBootAddr(L, st, asked, Step(L, asked, AnswerTo(asked, file, next)));
    } else {
      NextAnswerBoots(L, mem, asked, file, next);
    }
  }

  lemma {:induction false} RoundsBoot(L: Layout, mem: seq<byte>, st: State, file: seq<byte>, next: nat -> byte, n: nat)
    requires Updating(L, mem, st, file)
    requires 40 * n - 40 < |file| - st.info.offset <= 40 * n
    ensures Installs(L, st, Rounds(L, st, file, next, n))
    decreases n
  {
    hide Updating, Round, Rounds, Installs, BootAddr, InChip, FileIsSound, Enabled, Careful, Serving;
    UpdatingFacts(L, mem, st, file);
    RoundBoots(L, mem, st, file, next);
    var r := Round(L, st, file, next);
    RoundsUnfold(L, st, file, next, n);
    if |file| - st.info.offset <= BLOCK_MAX {
      RoundsEnd(L, r, file, next);
      assert n == 1;
    } else {
      RoundsBoot(L, mem, r, file, next, n - 1);
      SameBootAddr(L, st, r, Rounds(L, r, file, next, n - 1));
    }
  }

  lemma RoundsUnfold(L: Layout, st: State, file: seq<byte>, next: nat -> byte, n: nat)
    requires n > 0
    ensures Rounds(L, st, file, next, n) == Rounds(L, Round(L, st, file, next), file, next, n - 1)
  {
  }

  lemma RoundsEnd(L: Layout, st: State, file: seq<byte>, next: nat -> byte)
    ensures Rounds(L, st, file, next, 0) == st
  {
  }

  lemma StartUpdates(L: Layout, mem: seq<byte>, st: State, file: seq<byte>)
    requires BootInv(L, mem, st, []) && |st.mem| > 0 && !st.info.processStart && FileIsImage(L, file)
    ensures InChip(L, st) && |file| < 0x1_0000_0000
    ensures var s0 := Step(L, st, Start(|file|, Some(LOCAL_BIN)));
            && Updating(L, mem, s0, file) && s0.info.offset == 0
            && |s0.mem| > 0 && BootAddr(L, s0.mem) == BootAddr(L, st.mem)
  {
    BootInvSplits(L, mem, st, []);
    assert |file| < L.imageMax < 0x1_0000_0000 && BootAddr(L, st.mem) != NO_BOOT by { SlotsFit(L); }
    var e := Start(|file|, Some(LOCAL_BIN));
    assert Opens(L, st, |file|) && Careful(L, st, [], e);
    hide BootInv, StartStep, InChip, BootAddr, Careful, FileIsImage, Guarded, Safe;
    StartOpens(L, st, |file|, Some(LOCAL_BIN));
    BootStep(L, mem, st, [], e);
    var s0 := Step(L, st, e);
    assert file[..0] == [] && Inv(L, s0, []);
    OpenedFields(L, st, |file|, s0);
  }

  lemma OpenedFields(L: Layout, st: State, total: u32, s0: State)
    requires |st.mem| > 0 && L.sector > 0 && Opens(L, st, total) && s0 == StartStep(L, st, total, Some(LOCAL_BIN))
    ensures s0.info.offset == 0 && s0.info.requestCnt == 0 && s0.info.total == total && s0.info.binType == LOCAL_BIN
  {
  }

  /** From any bootable device without an open session: start, one round per 40 bytes, one tick
      of the reboot timer, and the device boots from the other slot, where the image is. */
  lemma UpdateInstalls(L: Layout, mem: seq<byte>, st: State, file: seq<byte>, next: nat -> byte, n: nat)
    requires BootInv(L, mem, st, []) && |st.mem| > 0 && !st.info.processStart && FileIsImage(L, file)
    requires 40 * n - 40 < |file| <= 40 * n
    ensures InChip(L, st) && |file| < 0x1_0000_0000
    ensures Installs(L, st, Rounds(L, Step(L, st, Start(|file|, Some(LOCAL_BIN))), file, next, n))
  {
    StartUpdates(L, mem, st, file);
    var s0 := Step(L, st, Start(|file|, Some(LOCAL_BIN)));
    hide Step, InChip, Installs, Round, Rounds, Updating, BootInv, BootAddr, FileIsImage;
    RoundsBoot(L, mem, s0, file, next, n);
    SameBootAddr(L, st, s0, Rounds(L, s0, file, next, n));
  }

  /** A 44-byte image for the small layout. */
  function SmallFile(): (f: seq<byte>)
    ensures |f| == 44
  {
    seq(44, i requires 0 <= i < 44 => SmallByte(128 + i))
  }

  /** There are such devices and images: the small chip, which runs from its second slot, ends
      up running from its first. */
  lemma SmallUpdate(next: nat -> byte)
    ensures var L, mem := SmallLayout(), SmallChip();
            exists st :: BootInv(L, mem, st, []) && |st.mem| > 0 && !st.info.processStart && InChip(L, st)
                      && BootAddr(L, st.mem) == 128
                      && Installs(L, st, Rounds(L, Step(L, st, Start(44, Some(LOCAL_BIN))), SmallFile(), next, 2))
  {
    hide BootInv, Rounds, InChip, Step, Boots, Bootable, FileIsImage, Installs, BootAddr, Usable;
    var L, mem, file := SmallLayout(), SmallChip(), SmallFile();
    SmallChipBoots();
    SmallBootAddr();
    SmallFileIsImage();
    FreshIsBootInv(L, mem);
    UpdateInstalls(L, mem, Fresh(mem), file, next, 2);
  }

  lemma SmallBootAddr()
    ensures BootAddr(SmallLayout(), SmallChip()) == 128
  {
  }

  lemma SmallFileIsImage()
    ensures FileIsImage(SmallLayout(), SmallFile())
  {
  }
}
