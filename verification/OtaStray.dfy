/** Block responses that arrive with no session open: the handler takes them like any other,
    with what the last session or a refused start request has left in the record. */
module OtaStray {
  import opened Words
  import opened Flash
  import opened OtaSession
  import opened OtaInvariant
  import opened OtaSteps

  /** The block has the start-up word at the flag offset. */
  predicate CarriesStartWord(L: Layout, data: seq<byte>) {
    L.flagAt + 4 <= |data| && Four(data, L.flagAt) == FLAG_WHOLE
  }

  /** The block is for another offset than 0: nothing happens. */
  predicate Ignored(e: Event) {
    e.Block? && e.ok && e.offset != 0
  }

  /** The block is answered with a bad end before anything is stored. */
  predicate TurnedAway(L: Layout, e: Event) {
    e.Block? && (!e.ok || (e.offset == 0 && CarriesStartWord(L, e.data)))
  }

  /** With no session open, the block starts the retry timer: a start request has been refused
      as too large, and the record it has left takes the block as the first of its file. */
  predicate Arms(L: Layout, st: State, e: Event) {
    && !st.info.processStart && st.info.total > 0
    && e.Block? && !Ignored(e) && !TurnedAway(L, e) && |e.data| < st.info.total
  }

  /** The record after the handler has looked through the block. */
  function Looked(L: Layout, st: State, e: Event): (r: State)
    requires e.Block? && |st.info.bootFlag| == 4
  {
    if e.ok then Scanned(L, st, e.data) else st.(timer := NoTimer)
  }

  lemma StrayTaken(L: Layout, st: State, e: Event)
    requires InChip(L, st) && !st.info.processStart && e.Block? && Enabled(st, e)
    ensures CanTake(L, Looked(L, st, e), e.data)
    ensures var r, looked := Step(L, st, e), Looked(L, st, e);
            if Ignored(e) then r == st
            else if TurnedAway(L, e) then r == SendEnd(L, looked, if e.ok then MatchBootFlag else IncorrectData)
            else r == Accept(L, looked, e.data)
  {
    hide Accept, SendEnd;
  }

  /** With no session open a block opens none, and whether it arms the retry timer, so that
      requests go out for a session that is not open, is decided by Arms. */
  lemma StrayArms(L: Layout, st: State, e: Event)
    requires InChip(L, st) && !st.info.processStart && e.Block? && Enabled(st, e)
    ensures var r := Step(L, st, e);
            && !r.info.processStart
            && (r.timer == RetryTimer <==> Arms(L, st, e))
            && (InChip(L, r) <==> !Arms(L, st, e))
            && (!Arms(L, st, e) ==> if Ignored(e) then r == st else r.timer == NoTimer && r.info == ZERO_INFO)
  {
    StrayTaken(L, st, e);
    hide EraseRun, Programmed, Layout.Valid, FlagBytes;
  }

  /** A start request refused as too large, and then one block for offset 0: that is how. */
  lemma RefusedStartArms(L: Layout, st: State, total: u32, bin: Option<byte>, e: Event)
    requires InChip(L, st) && !st.info.processStart && e.Block? && |e.data| < 256 && |st.mem| > 0
    requires BootAddr(L, st.mem) != NO_BOOT && total >= L.imageMax
    ensures var refused := Step(L, st, Start(total, bin));
            && InChip(L, refused) && refused.mem == st.mem && refused.timer == st.timer
            && refused.sent == st.sent + [StartRsp(refused.info.start, total, 0, FileOversize)]
            && var r := Step(L, refused, e);
               && !r.info.processStart
               && (r.timer == RetryTimer <==>
                     e.ok && e.offset == 0 && |e.data| < total && !CarriesStartWord(L, e.data))
  {
    assert L.imageMax > 0;
    hide EraseRun, Layout.Valid, BlockStep;
    var refused := Step(L, st, Start(total, bin));
    StrayArms(L, refused, e);
  }

  lemma LookedKeeps(L: Layout, st: State, e: Event)
    requires e.Block? && |st.info.bootFlag| == 4
    ensures var r := Looked(L, st, e);
            && r.mem == st.mem && r.info.start == st.info.start && r.info.offset == st.info.offset
            && r.info.total == st.info.total
  {
  }

  /** A zero record says that the file has no bytes: any block that is stored overshoots it. */
  lemma StrayOvershoots(L: Layout, looked: State, data: seq<byte>)
    requires CanTake(L, looked, data) && looked.info.total == 0 && data != []
    ensures var stored := DoOp(L, looked, Write(looked.info.start + looked.info.offset, data));
            var info := looked.info.(offset := looked.info.offset + |data|);
            Accept(L, looked, data) == SendEnd(L, stored.(info := info), IncorrectOffset)
  {
    hide SendEnd, Applied;
  }

  /** What a block with no session open leaves of the flash, if it is not ignored and is no
      empty block: the sectors it reaches from the start of the slot are erased, and nothing
      else has changed. */
  lemma StraySweeps(L: Layout, st: State, e: Event, i: nat)
    requires InChip(L, st) && st.info == ZERO_INFO && e.Block? && Enabled(st, e) && i < |st.mem| && L.sector > 0
    requires TurnedAway(L, e) || (!Ignored(e) && e.data != [])
    ensures var reach := if TurnedAway(L, e) then 0 else |e.data|;
            |Step(L, st, e).mem| == |st.mem| && Step(L, st, e).mem[i] == if i < Span(L, reach) then 255 else st.mem[i]
  {
    SlotIsAligned(L, 0);
    hide Span, SendEnd, Accept, Looked, Applied, Layout.Valid, TurnedAway;
    StrayTaken(L, st, e);
    LookedKeeps(L, st, e);
    var looked := Looked(L, st, e);
    if TurnedAway(L, e) {
      EndSweeps(L, looked, if e.ok then MatchBootFlag else IncorrectData, i);
    } else {
      StrayOvershoots(L, looked, e.data);
      StoredSweeps(L, looked, e.data, i);
    }
  }

  lemma StoredSweeps(L: Layout, st: State, data: seq<byte>, i: nat)
    requires L.sector > 0 && st.info.start == st.info.offset == 0 && |data| <= |st.mem| && i < |st.mem|
    ensures var stored := DoOp(L, st, Write(0, data)).(info := st.info.(offset := |data|));
            SendEnd(L, stored, IncorrectOffset).mem[i] == if i < Span(L, |data|) then 255 else st.mem[i]
  {
    assert 0 % L.sector == 0 by { MultipleOfSector(L); }
    hide Span, SendEnd, Programmed;
    ProgramsByte(st.mem, 0, data, i);
    EndSweeps(L, DoOp(L, st, Write(0, data)).(info := st.info.(offset := |data|)), IncorrectOffset, i);
  }

  lemma MultipleOfSector(L: Layout)
    requires L.sector > 0
    ensures 0 % L.sector == 0
  {
    QuotientIs(L.sector, 0, 0);
  }
}
