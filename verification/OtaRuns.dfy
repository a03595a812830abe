/** Whole runs of the update session, with blocks at any time: what every run keeps, and
    correctness of the transfer over a channel that drops, repeats, delays and reorders. */
module OtaRuns {
  import opened Words
  import opened Flash
  import opened OtaSession
  import opened OtaInvariant
  import opened OtaSteps
  import opened OtaStray

  function LastStatus(r: State): (s: Option<Status>) {
    if r.sent != [] && r.sent[|r.sent| - 1].End? then Some(r.sent[|r.sent| - 1].status) else None
  }

  /** A step closes an open session either well or clean, and says which. */
  ghost predicate Closes(L: Layout, st: State, r: State, recv': seq<byte>) {
    match LastStatus(r)
    case None => false
    case Some(Success) => EndsWell(L, st, r, recv')
    case Some(bad) => EndsClean(L, st, r, r.sent[|r.sent| - 1].offset, bad)
  }

  lemma OpenStep(L: Layout, st: State, recv: seq<byte>, e: Event)
    requires Inv(L, st, recv) && Enabled(st, e) && st.info.processStart
    ensures var r, recv' := Step(L, st, e), Received(st, recv, e);
            if r.info.processStart then Inv(L, r, recv') else Closes(L, st, r, recv')
  {
    hide Span, StoredByte, Knows, Content, FileIsSound, AllErased, RetryStep;
    match e {
      case Start(total, bin) =>
        StartKeeps(L, st, recv, total, bin);
      case Block(_, _, data, _) =>
        hide Step, Verdict, Refused, InChip;
        BlockFollows(L, st, recv, e);
      case Tick =>
        hide InChip;
        RetryFollows(L, st, recv);
    }
  }

  lemma ClosedIsInv(L: Layout, st: State, r: State, recv: seq<byte>, recv': seq<byte>)
    requires InChip(L, st) && |r.mem| == |st.mem| && Closes(L, st, r, recv')
    ensures Inv(L, r, recv) && r.info == ZERO_INFO
  {
  }

  lemma RebootKeeps(L: Layout, st: State, recv: seq<byte>)
    requires Inv(L, st, recv) && st.timer == RebootTimer
    ensures Inv(L, RebootStep(L, st), recv)
    ensures RebootStep(L, st).timer == NoTimer && !RebootStep(L, st).info.processStart
  {
  }

  /** Every step keeps the invariant, but for a block that a refused start request has made
      the first of a session that is not open. */
  lemma StepKeeps(L: Layout, st: State, recv: seq<byte>, e: Event)
    requires Inv(L, st, recv) && Enabled(st, e) && !Arms(L, st, e)
    ensures Inv(L, Step(L, st, e), Received(st, recv, e))
    ensures st.info.processStart && !Step(L, st, e).info.processStart ==> Step(L, st, e).info == ZERO_INFO
  {
    var r := Step(L, st, e);
    if st.info.processStart {
      OpenStep(L, st, recv, e);
      if !r.info.processStart {
        SizeStays(L, st, e);
        ClosedIsInv(L, st, r, Received(st, recv, e), Received(st, recv, e));
      }
    } else if e.Start? {
      StartKeeps(L, st, recv, e.total, e.bin);
    } else if e.Block? {
      StrayArms(L, st, e);
    } else {
      RebootKeeps(L, st, recv);
    }
  }

  lemma SizeStays(L: Layout, st: State, e: Event)
    requires InChip(L, st) && Enabled(st, e)
    ensures |Step(L, st, e).mem| == |st.mem|
  {
  }

  // ----- runs -----

  /** A run: the events in order, every one possible when it happens. Blocks may come at any
      time; the one kind that must not is the one StrayArms describes. */
  ghost predicate IsRun(L: Layout, st: State, events: seq<Event>)
    requires InChip(L, st)
    decreases |events|
  {
    hide Step, InChip;
    events == [] ||
    (Enabled(st, events[0]) && !Arms(L, st, events[0]) &&
     var r := Step(L, st, events[0]);
     InChip(L, r) && IsRun(L, r, events[1..]))
  }

  ghost function Run(L: Layout, st: State, events: seq<Event>): State
    requires InChip(L, st) && IsRun(L, st, events)
    decreases |events|
  {
    hide Step, InChip;
    if events == [] then st else Run(L, Step(L, st, events[0]), events[1..])
  }

  ghost function RunReceived(L: Layout, st: State, recv: seq<byte>, events: seq<Event>): seq<byte>
    requires InChip(L, st) && IsRun(L, st, events)
    decreases |events|
  {
    hide Step, InChip;
    if events == [] then recv
    else RunReceived(L, Step(L, st, events[0]), Received(st, recv, events[0]), events[1..])
  }

  /** The invariant holds after every run. */
  lemma {:induction false} RunKeeps(L: Layout, st: State, recv: seq<byte>, events: seq<Event>)
    requires Inv(L, st, recv) && IsRun(L, st, events)
    ensures Inv(L, Run(L, st, events), RunReceived(L, st, recv, events))
    decreases |events|
  {
    hide Step, InChip;
    if events != [] {
      StepKeeps(L, st, recv, events[0]);
      RunKeeps(L, Step(L, st, events[0]), Received(st, recv, events[0]), events[1..]);
    }
  }

  /** After any run a session is open exactly while the retry timer is armed, and whatever
      event comes next keeps it so if and only if it is not one that arms the timer alone. */
  lemma TimerTellsSession(L: Layout, st: State, events: seq<Event>, e: Event)
    requires Inv(L, st, []) && !st.info.processStart && IsRun(L, st, events)
    requires Enabled(Run(L, st, events), e)
    ensures var r := Run(L, st, events);
            && (r.info.processStart <==> r.timer == RetryTimer)
            && InChip(L, r)
            && var s := Step(L, r, e);
               ((s.info.processStart <==> s.timer == RetryTimer) <==> !Arms(L, r, e))
  {
    RunKeeps(L, st, [], events);
    var r := Run(L, st, events);
    if Arms(L, r, e) {
      StrayArms(L, r, e);
    } else {
      StepKeeps(L, r, RunReceived(L, st, [], events), e);
    }
    hide Step;
  }

  // ----- the transfer of one file -----

  /** A local session for `file` that has stored exactly the first `offset` bytes. */
  ghost predicate Serving(L: Layout, st: State, file: seq<byte>) {
    && st.info.processStart && st.info.binType == LOCAL_BIN
    && st.info.total == |file| && st.info.offset <= |file|
    && Inv(L, st, file[..st.info.offset])
  }

  /** Good answers carry the file's bytes at the offset they name; which answers arrive, how
      often and in what order is left open, and so are error answers. */
  predicate Honest(file: seq<byte>, e: Event) {
    e.Block? && e.ok ==> e.offset + |e.data| <= |file| && e.data == file[e.offset..e.offset + |e.data|]
  }

  lemma PrefixGrows(file: seq<byte>, n: nat, k: nat)
    requires n + k <= |file|
    ensures file[..n] + file[n..n + k] == file[..n + k]
  {
  }

  lemma ServingStep(L: Layout, st: State, file: seq<byte>, e: Event)
    requires Serving(L, st, file) && Enabled(st, e) && Honest(file, e)
    ensures var r := Step(L, st, e);
            if r.info.processStart then Serving(L, r, file) && r.info.start == st.info.start
            else if LastStatus(r) == Some(Success) then EndsWell(L, st, r, file)
            else LastStatus(r).Some? && EndsClean(L, st, r, r.sent[|r.sent| - 1].offset, LastStatus(r).value)
  {
    hide Span, StoredByte, Knows, Content, FileIsSound, AllErased, Step, Layout.Valid;
    var recv := file[..st.info.offset];
    var recv' := Received(st, recv, e);
    OpenStep(L, st, recv, e);
    assert recv' == file[..|recv'|] by {
      if e.Block? && e.ok && e.offset == st.info.offset {
        PrefixGrows(file, e.offset, |e.data|);
      }
    }
    var r := Step(L, st, e);
    if r.info.processStart {
      SessionStays(L, st, e);
    } else if LastStatus(r) == Some(Success) {
      assert file[..|file|] == file;
    }
  }

  /** While a session stays open its file, slot and kind do not change. */
  lemma SessionStays(L: Layout, st: State, e: Event)
    requires InChip(L, st) && Enabled(st, e) && st.info.processStart && Step(L, st, e).info.processStart
    ensures var r := Step(L, st, e);
            r.info.start == st.info.start && r.info.total == st.info.total && r.info.binType == st.info.binType
  {
    hide EraseRun, BootAddr, ImageValid, Fold, Programmed, FlagBytes, Patched, ImageStored;
  }

  ghost predicate StaysOpen(L: Layout, st: State, events: seq<Event>)
    requires InChip(L, st) && IsRun(L, st, events)
    decreases |events|
  {
    hide Step, InChip;
    st.info.processStart && (events == [] || StaysOpen(L, Step(L, st, events[0]), events[1..]))
  }

  /** Over any channel, the flash always holds exactly a prefix of the file. */
  lemma {:induction false} ServingRun(L: Layout, st: State, file: seq<byte>, events: seq<Event>)
    requires Serving(L, st, file) && IsRun(L, st, events) && StaysOpen(L, st, events)
    requires forall e :: e in events ==> Honest(file, e)
    ensures Serving(L, Run(L, st, events), file)
    ensures Run(L, st, events).info.start == st.info.start
    decreases |events|
  {
    assert InChip(L, st);
    hide Step, InChip, Inv;
    if events != [] {
      assert events[0] in events;
      var r := Step(L, st, events[0]);
      ServingStep(L, st, file, events[0]);
      assert r.info.processStart;
      ServingRun(L, r, file, events[1..]);
    }
  }

  /** Stop-and-wait correctness: a local session opened for a file stores, at every moment,
      the first `offset` bytes of that file with the flag byte erased. */
  lemma StopAndWait(L: Layout, st: State, file: seq<byte>, events: seq<Event>)
    requires InChip(L, st) && |file| < L.imageMax && Opens(L, st, |file|)
    requires var s0 := StartStep(L, st, |file|, Some(LOCAL_BIN));
             InChip(L, s0) && IsRun(L, s0, events) && StaysOpen(L, s0, events)
    requires forall e :: e in events ==> Honest(file, e)
    ensures var s0 := StartStep(L, st, |file|, Some(LOCAL_BIN));
            var r := Run(L, s0, events);
            && Serving(L, r, file)
            && r.info.start + r.info.offset <= |r.mem|
            && r.info.start == OtherSlot(L, BootAddr(L, st.mem))
            && r.mem[r.info.start..r.info.start + r.info.offset] == Patched(L, 0, file)[..r.info.offset]
  {
    var s0 := StartStep(L, st, |file|, Some(LOCAL_BIN));
    StartOpens(L, st, |file|, Some(LOCAL_BIN));
    assert file[..0] == [];
    ServingRun(L, s0, file, events);
    StoredPrefix(L, Run(L, s0, events), file);
  }

  lemma StoredPrefix(L: Layout, r: State, file: seq<byte>)
    requires Serving(L, r, file)
    ensures r.info.start + r.info.offset <= |r.mem|
    ensures r.mem[r.info.start..r.info.start + r.info.offset] == Patched(L, 0, file)[..r.info.offset]
  {
    hide Span, Layout.Valid, Knows, Inv;
    SessionHasSlot(L, r, file[..r.info.offset]);
    var start, n := r.info.start, r.info.offset;
    forall i | 0 <= i < n
      ensures r.mem[start + i] == Patched(L, 0, file)[i]
    {
      assert r.mem[start + i] == StoredByte(L, LOCAL_BIN, file[..n], i);
    }
  }

  // ----- a sound file arrives -----

  /** The answer to the request the device makes in state `st`. */
  function AnswerTo(st: State, file: seq<byte>, next: nat -> byte): (e: Event)
    requires st.info.offset <= st.info.total == |file| < 0x1_0000_0000
    ensures e.Block? && e.ok && |e.data| <= BLOCK_MAX && Honest(file, e)
  {
    var from, len := st.info.offset, RequestLen(st.info);
    Block(true, from, file[from..from + len], next(from))
  }

  lemma AskFollows(L: Layout, st: State, file: seq<byte>)
    requires Serving(L, st, file) && st.info.requestCnt < RETRY_MAX
    ensures Enabled(st, Tick) && InChip(L, st)
    ensures var asked := Step(L, st, Tick);
            && Serving(L, asked, file) && asked.info == st.info.(requestCnt := st.info.requestCnt + 1)
            && asked.sent == st.sent + [BlockReq(st.info.offset, RequestLen(st.info))]
  {
    RetryFollows(L, st, file[..st.info.offset]);
    hide Span, Content, Knows, RetryStep;
  }

  /** One round: the timer ticks, the device asks, the host answers that request. Nothing
      happens once the session is over. */
  ghost function Round(L: Layout, st: State, file: seq<byte>, next: nat -> byte): State {
    hide RetryStep, Inv, BlockStep, StartStep, RebootStep;
    if Serving(L, st, file) && st.info.requestCnt < RETRY_MAX then
      AskFollows(L, st, file);
      var asked := Step(L, st, Tick);
      assert InChip(L, asked) && |file| < 0x1_0000_0000 by { ServingFacts(L, asked, file); }
      Step(L, asked, AnswerTo(asked, file, next))
    else st
  }

  lemma ServingFacts(L: Layout, st: State, file: seq<byte>)
    requires Serving(L, st, file)
    ensures InChip(L, st) && |file| < 0x1_0000_0000 && L.Valid() && L.flagAt < BLOCK_MAX
    ensures st.info.offset < |file| || |file| == 0
  {
  }

  ghost function Rounds(L: Layout, st: State, file: seq<byte>, next: nat -> byte, n: nat): State
    decreases n
  {
    hide Round;
    if n == 0 then st else Rounds(L, Round(L, st, file, next), file, next, n - 1)
  }

  /** The file is stored, the host has heard of it and the reboot is scheduled. */
  ghost predicate Delivered(L: Layout, r: State, file: seq<byte>, start: nat) {
    && r.info == ZERO_INFO && r.timer == RebootTimer
    && LastStatus(r) == Some(Success)
    && start + |file| <= |r.mem|
    && r.mem[start..start + |file|] == Patched(L, 0, file)
  }

  lemma EndIsDelivery(L: Layout, st: State, r: State, file: seq<byte>)
    requires EndsWell(L, st, r, file) && st.info.binType == LOCAL_BIN
    ensures Delivered(L, r, file, st.info.start)
  {
  }

  lemma AnswerIsTaken(L: Layout, info: Info, file: seq<byte>, from: nat, len: nat, e: Event)
    requires L.flagAt + 4 <= BLOCK_MAX && FileIsSound(L, file)
    requires info.binType == LOCAL_BIN && info.total == |file|
    requires from < |file| && (from == 0 || from > L.flagAt)
    requires len == if |file| - from >= BLOCK_MAX then BLOCK_MAX else |file| - from
    requires e.Block? && e.ok && e.offset == from && |e.data| == len && file[..from] + e.data == file[..from + len]
    ensures Verdict(L, info, file[..from], e) == if from + len < |file| then None else Some(Success)
  {
    assert file[..|file|] == file;
    assert L.flagAt + 4 <= |file| && file[L.flagAt] == Four(file, L.flagAt)[0];
    hide Fold, Patched, Four, Word, FileIsSound;
    if from == 0 {
      assert (file[..len] + [e.next])[L.flagAt] == file[L.flagAt];
    }
  }

  lemma SoundIsNotEmpty(L: Layout, file: seq<byte>)
    requires FileIsSound(L, file)
    ensures |file| >= L.flagAt + 4
  {
  }

  lemma AnswerFits(L: Layout, st: State, file: seq<byte>, next: nat -> byte)
    requires Serving(L, st, file) && FileIsSound(L, file)
    requires st.info.offset == 0 || st.info.offset > L.flagAt
    ensures InChip(L, st) && |file| < 0x1_0000_0000 && st.info.offset <= st.info.total == |file|
    ensures var from, e := st.info.offset, AnswerTo(st, file, next);
            && Enabled(st, e) && Inv(L, st, file[..from])
            && (|file| - from <= BLOCK_MAX ==> file[..from] + e.data == file)
            && st.info.processStart && st.info.binType == LOCAL_BIN
            && Verdict(L, st.info, file[..from], e)
               == if |file| - from <= BLOCK_MAX then Some(Success) else None
  {
    hide Inv, FileIsSound, Verdict, Layout.Valid;
    SoundIsNotEmpty(L, file);
    ServingFacts(L, st, file);
    var from, len := st.info.offset, RequestLen(st.info);
    var e := AnswerTo(st, file, next);
    PrefixGrows(file, from, len);
    AnswerIsTaken(L, st.info, file, from, len, e);
  }

  lemma LastAnswer(L: Layout, st: State, recv: seq<byte>, e: Event, file: seq<byte>)
    requires Inv(L, st, recv) && InChip(L, st) && Enabled(st, e)
    requires st.info.processStart && st.info.binType == LOCAL_BIN
    requires e.Block? && e.ok && e.offset == st.info.offset && recv + e.data == file
    requires Verdict(L, st.info, recv, e) == Some(Success)
    ensures Delivered(L, Step(L, st, e), file, st.info.start)
  {
    hide Inv, FileIsSound, Step, Verdict, Refused, EndsWell, InChip, Delivered;
    BlockFollows(L, st, recv, e);
    EndIsDelivery(L, st, Step(L, st, e), file);
  }

  lemma OtherAnswer(L: Layout, st: State, file: seq<byte>, e: Event)
    requires Serving(L, st, file) && InChip(L, st) && Enabled(st, e) && Honest(file, e)
    requires e.Block? && e.ok && e.offset == st.info.offset
    requires Verdict(L, st.info, file[..st.info.offset], e) == None
    ensures var r := Step(L, st, e);
            && Serving(L, r, file) && r.info.requestCnt == 0 && r.info.start == st.info.start
            && r.info.offset == st.info.offset + |e.data|
  {
    var recv := file[..st.info.offset];
    assert Inv(L, st, recv);
    hide Inv, Step, Verdict, Refused, InChip, Serving;
    BlockFollows(L, st, recv, e);
    ServingStep(L, st, file, e);
    CountRestarts(L, st, e);
  }

  lemma AnswerFollows(L: Layout, st: State, file: seq<byte>, next: nat -> byte)
    requires Serving(L, st, file) && FileIsSound(L, file)
    requires st.info.offset == 0 || st.info.offset > L.flagAt
    ensures InChip(L, st) && |file| < 0x1_0000_0000 && Enabled(st, AnswerTo(st, file, next))
    ensures var r, from := Step(L, st, AnswerTo(st, file, next)), st.info.offset;
            if |file| - from <= BLOCK_MAX then Delivered(L, r, file, st.info.start)
            else Serving(L, r, file) && r.info.requestCnt == 0 && r.info.start == st.info.start
                 && r.info.offset == from + BLOCK_MAX
  {
    AnswerFits(L, st, file, next);
    var from, e := st.info.offset, AnswerTo(st, file, next);
    hide Inv, FileIsSound, Step, Verdict, InChip, Delivered, Serving;
    if |file| - from <= BLOCK_MAX {
      LastAnswer(L, st, file[..from], e, file);
    } else {
      OtherAnswer(L, st, file, e);
    }
  }

  lemma RoundAdvances(L: Layout, st: State, file: seq<byte>, next: nat -> byte)
    requires Serving(L, st, file) && FileIsSound(L, file) && st.info.requestCnt < RETRY_MAX
    requires st.info.offset == 0 || st.info.offset > L.flagAt
    ensures var r, from := Round(L, st, file, next), st.info.offset;
            if |file| - from <= BLOCK_MAX then Delivered(L, r, file, st.info.start)
            else Serving(L, r, file) && r.info.requestCnt == 0 && r.info.start == st.info.start
                 && r.info.offset == from + BLOCK_MAX
  {
    hide Step, Serving, Delivered, FileIsSound, InChip, AnswerTo;
    AskFollows(L, st, file);
    AnswerFollows(L, Step(L, st, Tick), file, next);
  }

  /** An accepted block restarts the request count and moves the offset by its length. */
  lemma CountRestarts(L: Layout, st: State, e: Event)
    requires InChip(L, st) && Enabled(st, e) && st.info.processStart && Step(L, st, e).info.processStart
    requires e.Block? && e.ok && e.offset == st.info.offset
    ensures var r := Step(L, st, e);
            r.info.requestCnt == 0 && r.info.offset == st.info.offset + |e.data| < st.info.total
  {
  }

  /** Liveness: if every request is answered, a sound file is delivered after exactly as
      many rounds as it has 40-byte blocks, whatever lies behind the blocks in the receive
      buffer. */
  lemma {:induction false} SoundFileArrives(L: Layout, st: State, file: seq<byte>, next: nat -> byte, n: nat)
    requires Serving(L, st, file) && FileIsSound(L, file) && st.info.requestCnt < RETRY_MAX
    requires st.info.offset == 0 || st.info.offset > L.flagAt
    requires 40 * n - 40 < |file| - st.info.offset <= 40 * n
    ensures Delivered(L, Rounds(L, st, file, next, n), file, st.info.start)
    decreases n
  {
    hide Round, Serving, FileIsSound, Delivered, Layout.Valid, InChip;
    SoundIsNotEmpty(L, file);
    ServingFacts(L, st, file);
    RoundAdvances(L, st, file, next);
    var r := Round(L, st, file, next);
    if |file| - st.info.offset <= BLOCK_MAX {
      assert n == 1 && Rounds(L, r, file, next, 0) == r;
    } else {
      SoundFileArrives(L, r, file, next, n - 1);
    }
  }
}
