/** A/B boot safety of the update: at every moment, even in the middle of a flash operation,
    the slot the device would boot from holds a valid image. */
module OtaBoot {
  import opened Words
  import opened Flash
  import opened OtaSession
  import opened OtaInvariant
  import opened OtaSteps
  import opened OtaStray

  // ----- a bootable chip -----

  function HeaderSize(mem: seq<byte>, base: nat): u32
    requires |mem| > 0
  {
    Word(Read4(mem, base + 0x18))
  }

  /** The checksum word of an image of this size lies in its slot, clear of the flag byte. */
  predicate SumApart(L: Layout, size: nat) {
    4 <= size && !(size - 4 <= L.flagAt < size)
  }

  /** A valid image that stays valid whatever becomes of its flag byte and of the rest of the
      chip; SurvivalIsExact shows that these are all there are. */
  ghost predicate RealImage(L: Layout, mem: seq<byte>, base: nat)
    requires |mem| > 0
  {
    ImageValid(L, mem, base) && SumApart(L, HeaderSize(mem, base))
  }

  /** The device boots from slot `b`, and what it finds there is an image. */
  ghost predicate Boots(L: Layout, mem: seq<byte>, b: nat) {
    && |mem| == L.size && |mem| > 0
    && (b == 0 || b == L.otaAddr)
    && BootAddr(L, mem) == b && RealImage(L, mem, b)
  }

  /** There is a slot to boot from, and it holds an image. */
  ghost predicate Bootable(L: Layout, mem: seq<byte>) {
    |mem| > 0 && Boots(L, mem, BootAddr(L, mem))
  }

  /** Layouts whose flag byte is not part of the size field, as on every supported chip. */
  ghost predicate Usable(L: Layout) {
    L.Valid() && !(0x18 <= L.flagAt < 0x1C)
  }

  ghost predicate SameSlot(L: Layout, mem: seq<byte>, mem': seq<byte>, b: nat) {
    |mem| == |mem'| && forall i :: b <= i < b + L.imageMax && i < |mem| ==> mem'[i] == mem[i]
  }

  lemma SameReads(L: Layout, mem: seq<byte>, mem': seq<byte>, b: nat, at: nat)
    requires SameSlot(L, mem, mem', b) && b + L.imageMax <= |mem| && at + 4 <= L.imageMax && L.imageMax > 0
    ensures Read4(mem', b + at) == Read4(mem, b + at)
  {
  }

  lemma SameBody(L: Layout, mem: seq<byte>, mem': seq<byte>, b: nat, size: nat)
    requires b + L.imageMax <= |mem| == |mem'| && 0 < size <= L.imageMax
    requires forall i :: b <= i < b + L.imageMax && i != b + L.flagAt ==> mem'[i] == mem[i]
    ensures ImageBody(L, mem', b, size) == ImageBody(L, mem, b, size)
  {
  }

  /** Nothing but the flag byte changed inside the slot. */
  ghost predicate SlotAgrees(L: Layout, mem: seq<byte>, mem': seq<byte>, b: nat) {
    && |mem| == |mem'|
    && forall i :: b <= i < b + L.imageMax && i < |mem| && i != b + L.flagAt ==> mem'[i] == mem[i]
  }

  /** Nothing but the flag byte changed inside the slot: the image is still an image. */
  lemma ImageSurvives(L: Layout, mem: seq<byte>, mem': seq<byte>, b: nat)
    requires Usable(L) && |mem| == |mem'| == L.size && (b == 0 || b == L.otaAddr)
    requires RealImage(L, mem, b) && SlotAgrees(L, mem, mem', b)
    ensures RealImage(L, mem', b)
  {
    hide Fold, Layout.Valid, ImageBody;
    SlotsFit(L);
    var size := HeaderSize(mem, b);
    assert Read4(mem', b + 0x18) == Read4(mem, b + 0x18);
    assert Read4(mem', b + size - 4) == Read4(mem, b + size - 4);
    assert Read4(mem', b + L.flagAt)[1..] == Read4(mem, b + L.flagAt)[1..];
    SameBody(L, mem, mem', b, size);
  }

  lemma WordsDiffer(w: seq<byte>, w': seq<byte>, k: nat)
    requires |w| == |w'| == 4 && k < 4 && w[k] != w'[k]
    requires forall i :: 0 <= i < 4 && i != k ==> w[i] == w'[i]
    ensures Word(w) != Word(w')
  {
    assert (k != 0 ==> w[0] == w'[0]) && (k != 1 ==> w[1] == w'[1]);
    assert (k != 2 ==> w[2] == w'[2]) && (k != 3 ==> w[3] == w'[3]);
  }

  lemma ChecksumDecides(L: Layout, mem: seq<byte>, mem': seq<byte>, b: nat)
    requires |mem| > 0 && |mem'| > 0 && ImageValid(L, mem, b) && HeaderSize(mem', b) == HeaderSize(mem, b)
    requires ImageBody(L, mem', b, HeaderSize(mem, b)) == ImageBody(L, mem, b, HeaderSize(mem, b))
    requires Word(Read4(mem', b + HeaderSize(mem, b) - 4)) != Word(Read4(mem, b + HeaderSize(mem, b) - 4))
    ensures !ImageValid(L, mem', b)
  {
    hide Read4, Word, Fold, ImageBody;
  }

  /** Some other byte. */
  function Other(x: byte): (y: byte)
    ensures y != x
  {
    if x == 0 then 1 else 0
  }

  lemma ReadsElsewhere(mem: seq<byte>, at: nat, x: byte, q: nat)
    requires at < |mem| && q + 4 <= |mem| && !(q <= at < q + 4)
    ensures Read4(mem[at := x], q) == Read4(mem, q)
  {
  }

  /** A word that is read over the changed byte, from inside the chip or from before its start. */
  lemma ReadChanges(mem: seq<byte>, at: nat, x: byte, p: int, k: nat)
    requires at < |mem| && 4 <= |mem| && k < 4 && x != mem[at]
    requires if p < 0 then k == 0 && -4 <= p && at == |mem| + p else at == p + k && p + 4 <= |mem|
    ensures Word(Read4(mem[at := x], p)) != Word(Read4(mem, p))
  {
    var w, w' := Read4(mem, p), Read4(mem[at := x], p);
    forall i | 0 <= i < 4
      ensures i == k ==> w'[i] != w[i]
      ensures i != k ==> w'[i] == w[i]
    {
      WrapsAt(mem, p, i);
      WrapsAt(mem[at := x], p, i);
    }
    hide Word, Read4;
    WordsDiffer(w, w', k);
  }

  lemma WrapOnce(x: int, n: nat)
    requires x < 0 <= n + x
    ensures x % n == n + x
  {
    QuotientIs(n, -1, n + x);
    assert -1 * n + (n + x) == x;
  }

  lemma WrapsAt(mem: seq<byte>, p: int, i: nat)
    requires 4 <= |mem| && -4 <= p && p + 4 <= |mem| && i < 4
    ensures Read4(mem, p)[i] == mem[if p + i < 0 then |mem| + p + i else p + i]
  {
    if p + i < 0 {
      WrapOnce(p + i, |mem|);
    }
    assert Read4(mem, p)[i] == ByteAt(mem, p + i);
  }

  /** The checksum word begins before the slot: the byte there decides. */
  lemma OutsideBreaks(L: Layout, mem: seq<byte>, b: nat) returns (mem': seq<byte>)
    requires L.Valid() && |mem| == L.size && (b == 0 || b == L.otaAddr)
    requires |mem| > 0 && ImageValid(L, mem, b) && HeaderSize(mem, b) < 4
    ensures SlotAgrees(L, mem, mem', b) && |mem'| > 0 && !ImageValid(L, mem', b)
  {
    hide Layout.Valid, ImageValid, Read4, Word;
    SlotsFit(L);
    var p: int := b + HeaderSize(mem, b) - 4;
    var at := if p < 0 then |mem| + p else p;
    mem' := mem[at := Other(mem[at])];
    ReadsElsewhere(mem, at, Other(mem[at]), b + 0x18);
    ReadChanges(mem, at, Other(mem[at]), p, 0);
    assert ImageBody(L, mem', b, HeaderSize(mem, b)) == ImageBody(L, mem, b, HeaderSize(mem, b));
    ChecksumDecides(L, mem, mem', b);
  }

  lemma SizeFits(L: Layout, mem: seq<byte>, b: nat)
    requires |mem| > 0 && ImageValid(L, mem, b)
    ensures HeaderSize(mem, b) <= L.imageMax
  {
  }

  /** The checksum word contains the flag byte: that byte decides. */
  lemma FlagBreaks(L: Layout, mem: seq<byte>, b: nat) returns (mem': seq<byte>)
    requires Usable(L) && |mem| == L.size && (b == 0 || b == L.otaAddr)
    requires |mem| > 0 && ImageValid(L, mem, b) && 4 <= HeaderSize(mem, b)
    requires HeaderSize(mem, b) - 4 <= L.flagAt < HeaderSize(mem, b)
    ensures SlotAgrees(L, mem, mem', b) && |mem'| > 0 && !ImageValid(L, mem', b)
  {
    hide Layout.Valid, ImageValid, Read4, Word, ImageBody;
    SlotsFit(L);
    SizeFits(L, mem, b);
    var size, at := HeaderSize(mem, b), b + L.flagAt;
    mem' := mem[at := Other(mem[at])];
    ReadsElsewhere(mem, at, Other(mem[at]), b + 0x18);
    ReadChanges(mem, at, Other(mem[at]), b + size - 4, L.flagAt - (size - 4));
    SameBody(L, mem, mem', b, size);
    ChecksumDecides(L, mem, mem', b);
  }

  /** An accepted image stays accepted, whatever becomes of its flag byte and of the rest of
      the chip, exactly if its checksum word lies in its slot clear of the flag byte. */
  lemma SurvivalIsExact(L: Layout, mem: seq<byte>, b: nat)
    requires Usable(L) && |mem| == L.size && |mem| > 0 && (b == 0 || b == L.otaAddr) && ImageValid(L, mem, b)
    ensures SumApart(L, HeaderSize(mem, b)) <==>
              forall mem' | SlotAgrees(L, mem, mem', b) :: |mem'| > 0 && ImageValid(L, mem', b)
  {
    if SumApart(L, HeaderSize(mem, b)) {
      forall mem' | SlotAgrees(L, mem, mem', b)
        ensures |mem'| > 0 && ImageValid(L, mem', b)
      {
        ImageSurvives(L, mem, mem', b);
      }
    } else if HeaderSize(mem, b) < 4 {
      var mem' := OutsideBreaks(L, mem, b);
    } else {
      var mem' := FlagBreaks(L, mem, b);
    }
  }

  lemma SlotsFit(L: Layout)
    requires L.Valid()
    ensures L.flagAt + 4 <= 40 <= L.sector <= L.imageMax <= L.otaAddr
    ensures L.otaAddr + L.imageMax + L.sector + 256 <= L.size <= NO_BOOT
  {
    SpanFits(L, 0, L.imageMax);
  }

  /** What ota_newImageValid accepts, for a header size of four bytes or more: the size fits the
      slot, the flag word is whole but for its first byte, and the slot's bytes up to the last
      four, with that byte taken as 0x4B, have the last four for a checksum. */
  lemma ImageValidIs(L: Layout, mem: seq<byte>, b: nat)
    requires L.Valid() && |mem| == L.size && |mem| > 0 && (b == 0 || b == L.otaAddr)
    requires 4 <= HeaderSize(mem, b)
    ensures b + L.imageMax <= |mem| && b + 0x1C <= |mem| && L.flagAt + 4 <= L.imageMax
    ensures HeaderSize(mem, b) == Word(mem[b + 0x18..b + 0x1C])
    ensures var size, slot := HeaderSize(mem, b), mem[b..b + L.imageMax];
            ImageValid(L, mem, b) <==>
              && size <= L.imageMax && slot[L.flagAt + 1..L.flagAt + 4] == [0x4E, 0x4C, 0x54]
              && Fold(L.crcStep, slot[L.flagAt := 0x4B][..size - 4], 0xFFFF_FFFF) == Word(slot[size - 4..size])
  {
    hide Layout.Valid, Read4, Word, Fold, ImageBody, ImageValid;
    SlotsFit(L);
    ReadIsSlice(mem, b + 0x18);
    var size, slot := HeaderSize(mem, b), mem[b..b + L.imageMax];
    FlagTailIs(L, mem, b);
    ImageValidUnfolds(L, mem, b);
    if size <= L.imageMax {
      ReadIsSlice(mem, b + size - 4);
      SliceOfSlot(mem, b, L.imageMax, size - 4, size);
      BodyIs(L, mem, b, size);
    }
  }

  lemma SliceOfSlot(mem: seq<byte>, b: nat, n: nat, i: nat, j: nat)
    requires b + n <= |mem| && i <= j <= n
    ensures mem[b + i..b + j] == mem[b..b + n][i..j]
  {
    var x, y := mem[b + i..b + j], mem[b..b + n][i..j];
    forall k | 0 <= k < j - i
      ensures x[k] == y[k]
    {
      assert x[k] == mem[b + i + k];
    }
  }

  lemma FlagTailIs(L: Layout, mem: seq<byte>, b: nat)
    requires b + L.imageMax <= |mem| && L.flagAt + 4 <= L.imageMax
    ensures |mem| > 0 && Read4(mem, b + L.flagAt)[1..] == mem[b..b + L.imageMax][L.flagAt + 1..L.flagAt + 4]
  {
    ReadIsSlice(mem, b + L.flagAt);
    SliceOfSlot(mem, b, L.imageMax, L.flagAt + 1, L.flagAt + 4);
    assert mem[b + L.flagAt..b + L.flagAt + 4][1..] == mem[b + (L.flagAt + 1)..b + (L.flagAt + 4)];
  }

  lemma ImageValidUnfolds(L: Layout, mem: seq<byte>, b: nat)
    requires |mem| > 0
    ensures var size := HeaderSize(mem, b);
            ImageValid(L, mem, b) <==>
              && size <= L.imageMax && Read4(mem, b + L.flagAt)[1..] == [0x4E, 0x4C, 0x54]
              && Fold(L.crcStep, ImageBody(L, mem, b, size), 0xFFFF_FFFF) == Word(Read4(mem, b + size - 4))
  {
    hide Read4, Word, Fold, ImageBody;
    assert FLAG_WHOLE[1..] == [0x4E, 0x4C, 0x54];
  }

  lemma BodyIs(L: Layout, mem: seq<byte>, b: nat, size: nat)
    requires 4 <= size <= L.imageMax && b + L.imageMax <= |mem| && L.flagAt < L.imageMax
    ensures ImageBody(L, mem, b, size) == mem[b..b + L.imageMax][L.flagAt := 0x4B][..size - 4]
  {
  }

  // ----- one flash operation -----

  /** Every image the chip can be left with when power fails during `op` is bootable. */
  ghost predicate SafeDuring(L: Layout, mem: seq<byte>, op: FlashOp)
    requires L.sector > 0 && (op.Write? ==> op.addr + |op.data| <= |mem|)
  {
    match op
    case Erase(_) => Bootable(L, Applied(L.sector, mem, op))
    case Write(a, d) => forall k :: 0 <= k <= |d| ==> Bootable(L, Programmed(mem, a, d[..k]))
  }

  /** The running slot `b` is untouched and the other one, if it has precedence, does not
      carry the start-up word. */
  ghost predicate Kept(L: Layout, mem: seq<byte>, mem': seq<byte>, b: nat)
    requires |mem'| > 0
  {
    SameSlot(L, mem, mem', b) && (b != 0 ==> Read4(mem', L.flagAt) != FLAG_WHOLE)
  }

  lemma KeptBoots(L: Layout, mem: seq<byte>, mem': seq<byte>, b: nat)
    requires Usable(L) && Boots(L, mem, b) && |mem'| > 0 && Kept(L, mem, mem', b)
    ensures Boots(L, mem', b)
  {
    SlotsFit(L);
    ImageSurvives(L, mem, mem', b);
    SameReads(L, mem, mem', b, L.flagAt);
    hide RealImage, Layout.Valid;
  }

  /** The address range a session for the slot other than `b` may use. */
  predicate Spares(L: Layout, b: nat, from: int, to: int) {
    if b == 0 then L.otaAddr <= from else to <= L.otaAddr
  }

  lemma ErasedIsSector(mem: seq<byte>, sector: nat, a: nat)
    requires sector > 0 && a % sector == 0
    ensures forall i :: 0 <= i < |mem| ==>
              Erased(mem, sector, a)[i] == if a <= i < a + sector then 255 else mem[i]
  {
    forall i: nat | i < |mem|
      ensures Erased(mem, sector, a)[i] == if a <= i < a + sector then 255 else mem[i]
    {
      InSector(sector, a, i);
    }
  }

  lemma EraseSpares(L: Layout, mem: seq<byte>, b: nat, a: nat)
    requires Usable(L) && Boots(L, mem, b) && a % L.sector == 0 && Spares(L, b, a, a + L.sector)
    ensures Boots(L, Erased(mem, L.sector, a), b) && SafeDuring(L, mem, Erase(a))
  {
    hide RealImage, Erased, Layout.Valid, Read4;
    SlotsFit(L);
    ErasedIsSector(mem, L.sector, a);
    var after := Erased(mem, L.sector, a);
    FlagSectorErased(L, mem, after, a);
    KeptBoots(L, mem, after, b);
    assert Applied(L.sector, mem, Erase(a)) == after;
  }

  lemma FlagSectorErased(L: Layout, mem: seq<byte>, after: seq<byte>, a: nat)
    requires L.sector > 0 && a % L.sector == 0 && L.flagAt + 4 <= L.sector <= |mem| == |after|
    requires forall i :: 0 <= i < |mem| ==> after[i] == if a <= i < a + L.sector then 255 else mem[i]
    ensures Read4(mem, L.flagAt) != FLAG_WHOLE ==> Read4(after, L.flagAt) != FLAG_WHOLE
  {
  }

  lemma WriteSpares(L: Layout, mem: seq<byte>, b: nat, a: nat, d: seq<byte>)
    requires Usable(L) && Boots(L, mem, b) && a + |d| <= |mem| && Spares(L, b, a, a + |d|)
    requires b != 0 ==> forall k :: 0 <= k <= |d| ==> Read4(Programmed(mem, a, d[..k]), L.flagAt) != FLAG_WHOLE
    ensures Boots(L, Programmed(mem, a, d), b) && SafeDuring(L, mem, Write(a, d))
  {
    hide RealImage, Layout.Valid, Read4;
    SlotsFit(L);
    forall k | 0 <= k <= |d|
      ensures Boots(L, Programmed(mem, a, d[..k]), b) && Bootable(L, Programmed(mem, a, d[..k]))
    {
      KeptBoots(L, mem, Programmed(mem, a, d[..k]), b);
    }
    assert d[..|d|] == d;
  }

  // ----- histories -----

  ghost function Replay(L: Layout, mem: seq<byte>, log: seq<FlashOp>): (r: seq<byte>)
    requires L.sector > 0
    ensures |r| == |mem|
  {
    hide Applied;
    if log == [] then mem
    else
      var before, op := Replay(L, mem, log[..|log| - 1]), log[|log| - 1];
      if op.Write? && op.addr + |op.data| > |mem| then before else Applied(L.sector, before, op)
  }

  /** From `mem` on, every operation of the log was safe throughout. */
  ghost predicate SafeLog(L: Layout, mem: seq<byte>, log: seq<FlashOp>)
    requires L.sector > 0
  {
    hide Applied, SafeDuring;
    if log == [] then Bootable(L, mem)
    else
      var before, op := Replay(L, mem, log[..|log| - 1]), log[|log| - 1];
      && SafeLog(L, mem, log[..|log| - 1])
      && (op.Write? ==> op.addr + |op.data| <= |mem|)
      && SafeDuring(L, before, op)
  }

  /** The state's flash is what its log made of `mem`, safely. */
  ghost predicate Tracked(L: Layout, mem: seq<byte>, st: State) {
    && Usable(L) && L.sector > 0 && |mem| == |st.mem| == L.size
    && st.mem == Replay(L, mem, st.log) && SafeLog(L, mem, st.log)
  }

  lemma TrackOp(L: Layout, mem: seq<byte>, st: State, op: FlashOp)
    requires Tracked(L, mem, st) && (op.Write? ==> op.addr + |op.data| <= |st.mem|)
    requires SafeDuring(L, st.mem, op)
    ensures Tracked(L, mem, DoOp(L, st, op))
  {
    hide Applied, SafeDuring, Layout.Valid, Bootable;
    assert (st.log + [op])[..|st.log|] == st.log;
  }

  /** Only flash and log decide. */
  lemma TrackSame(L: Layout, mem: seq<byte>, st: State, st': State)
    requires Tracked(L, mem, st) && st'.mem == st.mem && st'.log == st.log
    ensures Tracked(L, mem, st')
  {
  }

  /** Erase loops inside the other slot's range. */
  lemma {:induction false} TrackErase(L: Layout, mem: seq<byte>, st: State, b: nat, start: nat, n: nat)
    requires Tracked(L, mem, st) && Boots(L, st.mem, b) && start % L.sector == 0
    requires Spares(L, b, start, start + n * L.sector)
    ensures Tracked(L, mem, EraseRun(L, st, start, n)) && Boots(L, EraseRun(L, st, start, n).mem, b)
  {
    hide RealImage, Layout.Valid, Replay, SafeLog, SafeDuring, Erased;
    if n > 0 {
      var before := EraseRun(L, st, start, n - 1);
      var a := start + (n - 1) * L.sector;
      assert a + L.sector == start + n * L.sector;
      TrackErase(L, mem, st, b, start, n - 1);
      NextSector(L.sector, start, n - 1);
      EraseSpares(L, before.mem, b, a);
      TrackOp(L, mem, before, Erase(a));
    }
  }

  // ----- the steps of a session -----

  /** What a block leaves of the start-up word of slot 0, even if only `k` bytes of it get
      programmed, is not the start-up word. */
  lemma TornBlock(L: Layout, mem: seq<byte>, info: Info, recv: seq<byte>, data: seq<byte>, d: seq<byte>, k: nat)
    requires L.sector >= 40 && L.flagAt + 4 <= 40 && info.start == 0 && Span(L, info.total) <= |mem|
    requires |recv| == info.offset && |d| == |data| && info.offset + |d| <= |mem| && k <= |d|
    requires Content(L, mem, 0, info.total, info.binType, recv)
    requires forall j :: 0 <= j < |d| ==> d[j] == StoredByte(L, info.binType, recv + data, |recv| + j)
    requires info.binType != LOCAL_BIN && L.flagAt + 4 <= |recv + data| ==> Four(recv + data, L.flagAt) != FLAG_WHOLE
    ensures Read4(Programmed(mem, info.offset, d[..k]), L.flagAt) != FLAG_WHOLE
  {
    hide Span, Programmed;
    var after, at := Programmed(mem, info.offset, d[..k]), L.flagAt;
    forall i | at <= i < at + 4
      ensures after[i] == if i < |recv| + k then StoredByte(L, info.binType, recv + data, i) else 255
    {
      ProgramsByte(mem, info.offset, d[..k], i);
      if i < |recv| {
        assert mem[i] == StoredByte(L, info.binType, recv, i);
      } else if i < |recv| + k {
        assert d[i - |recv|] == StoredByte(L, info.binType, recv + data, |recv| + (i - |recv|));
      }
    }
    hide Content;
    var w := Read4(after, at);
    assert w[0] == after[at] && w[3] == after[at + 3];
    if info.binType != LOCAL_BIN && |recv| + k >= at + 4 {
      assert w[1] == after[at + 1] && w[2] == after[at + 2];
      assert w == Four(recv + data, at);
    }
  }

  /** What a session erases for `m` bytes lies in the range it may use. */
  lemma SpanSpares(L: Layout, b: nat, m: nat)
    requires L.Valid() && (b == 0 || m < L.otaAddr)
    ensures var start := OtherSlot(L, b);
            start % L.sector == 0 && Spares(L, b, start, start + Sectors(L, m) * L.sector)
  {
    SlotIsAligned(L, OtherSlot(L, b));
    SpanFits(L, m, L.otaAddr);
  }

  /** The chip is bootable from `b`, has been all along, and the session uses the other slot. */
  ghost predicate Guarded(L: Layout, mem: seq<byte>, st: State, b: nat) {
    && Tracked(L, mem, st) && Boots(L, st.mem, b) && st.info.start == OtherSlot(L, b)
  }

  lemma GuardSame(L: Layout, mem: seq<byte>, st: State, st': State, b: nat)
    requires Guarded(L, mem, st, b)
    requires st'.mem == st.mem && st'.log == st.log && st'.info.start == st.info.start
    ensures Guarded(L, mem, st', b)
  {
    hide Boots, Usable, Replay, SafeLog;
  }

  lemma EndIsErase(L: Layout, st: State, status: Status)
    requires L.sector > 0
    ensures var r := SendEnd(L, st, status);
            var e := EraseRun(L, Send(st, End(st.info.total, st.info.offset, status)),
                              st.info.start, Sectors(L, st.info.offset));
            if status == Success then r.mem == st.mem && r.log == st.log else r.mem == e.mem && r.log == e.log
  {
  }

  lemma GuardErase(L: Layout, mem: seq<byte>, st: State, b: nat, m: nat, n: nat)
    requires L.sector > 0 && n == Sectors(L, m)
    requires Guarded(L, mem, st, b) && (b == 0 || m < L.otaAddr)
    ensures Guarded(L, mem, EraseRun(L, st, st.info.start, n), b)
  {
    SpanSpares(L, b, m);
    hide Boots, EraseRun, Usable, Replay, SafeLog, Spares;
    TrackErase(L, mem, st, b, st.info.start, n);
  }

  ghost predicate Safe(L: Layout, mem: seq<byte>, r: State, b: nat) {
    Tracked(L, mem, r) && Boots(L, r.mem, b)
  }

  lemma GuardedIsSafe(L: Layout, mem: seq<byte>, st: State, r: State, b: nat)
    requires Guarded(L, mem, st, b) && r.mem == st.mem && r.log == st.log
    ensures Safe(L, mem, r, b)
  {
    hide Boots, Usable, Replay, SafeLog;
  }

  /** Ending a session sweeps only the session's own range. */
  lemma EndIsSafe(L: Layout, mem: seq<byte>, st: State, b: nat, status: Status)
    requires L.sector > 0 && Guarded(L, mem, st, b) && (b == 0 || st.info.offset < L.otaAddr)
    ensures Safe(L, mem, SendEnd(L, st, status), b)
  {
    hide Guarded, Safe, SendEnd;
    EndIsErase(L, st, status);
    var told := Send(st, End(st.info.total, st.info.offset, status));
    GuardSame(L, mem, st, told, b);
    GuardErase(L, mem, told, b, st.info.offset, Sectors(L, st.info.offset));
    var swept := EraseRun(L, told, st.info.start, Sectors(L, st.info.offset));
    GuardedIsSafe(L, mem, if status == Success then st else swept, SendEnd(L, st, status), b);
  }

  /** A remote file does not carry the start-up word as far as it is known. */
  ghost predicate NoStartWord(L: Layout, info: Info, all: seq<byte>) {
    info.binType != LOCAL_BIN && L.flagAt + 4 <= |all| ==> Four(all, L.flagAt) != FLAG_WHOLE
  }

  lemma TornBlocks(L: Layout, st: State, b: nat, recv: seq<byte>, data: seq<byte>, d: seq<byte>)
    requires Ready(L, st, recv, data, d) && NoStartWord(L, st.info, recv + data)
    requires st.info.start == 0
    ensures st.info.offset + |d| <= |st.mem|
    ensures forall k :: 0 <= k <= |d| ==> Read4(Programmed(st.mem, st.info.offset, d[..k]), L.flagAt) != FLAG_WHOLE
  {
    SlotsFit(L);
    hide Layout.Valid, Span, Knows, StoredByte, Programmed, Read4;
    forall k | 0 <= k <= |d|
      ensures Read4(Programmed(st.mem, st.info.offset, d[..k]), L.flagAt) != FLAG_WHOLE
    {
      TornBlock(L, st.mem, st.info, recv, data, d, k);
    }
  }

  lemma WriteIsGuarded(L: Layout, mem: seq<byte>, st: State, b: nat, d: seq<byte>)
    requires L.sector > 0 && Guarded(L, mem, st, b) && st.info.start + st.info.offset + |d| <= |st.mem|
    requires b == 0 || st.info.offset + |d| <= L.otaAddr
    requires b != 0 ==> forall k :: 0 <= k <= |d| ==>
               Read4(Programmed(st.mem, st.info.offset, d[..k]), L.flagAt) != FLAG_WHOLE
    ensures Guarded(L, mem, DoOp(L, st, Write(st.info.start + st.info.offset, d)), b)
  {
    var a := st.info.start + st.info.offset;
    hide RealImage, Replay, SafeLog, Programmed, Read4, SafeDuring, Layout.Valid, BootAddr;
    WriteSpares(L, st.mem, b, a, d);
    TrackOp(L, mem, st, Write(a, d));
  }

  lemma StoreIsGuarded(L: Layout, mem: seq<byte>, st: State, b: nat, recv: seq<byte>, data: seq<byte>, d: seq<byte>)
    requires L.sector > 0 && Guarded(L, mem, st, b) && Ready(L, st, recv, data, d)
    requires b == 0 || st.info.offset + |data| < L.otaAddr
    requires NoStartWord(L, st.info, recv + data)
    ensures st.info.start + st.info.offset + |d| <= |st.mem|
    ensures Guarded(L, mem, DoOp(L, st, Write(st.info.start + st.info.offset, d)), b)
  {
    assert st.info.start + st.info.offset + |d| <= |st.mem| && |d| == |data| by { SlotsFit(L); }
    assert st.info.start == OtherSlot(L, b);
    hide Guarded, Ready, NoStartWord;
    if b != 0 {
      TornBlocks(L, st, b, recv, data, d);
    }
    hide Programmed, Read4;
    WriteIsGuarded(L, mem, st, b, d);
  }

  lemma AcceptCases(L: Layout, st: State, d: seq<byte>)
    requires CanTake(L, st, d)
    ensures var stored := DoOp(L, st, Write(st.info.start + st.info.offset, d));
            var ended := stored.(info := st.info.(offset := st.info.offset + |d|));
            var timed := ended.(timer := if st.info.binType == LOCAL_BIN then RebootTimer else st.timer);
            var r := Accept(L, st, d);
            || (r.mem == stored.mem && r.log == stored.log)
            || r == SendEnd(L, ended, IncorrectData)
            || r == SendEnd(L, ended, IncorrectOffset)
            || r == SendEnd(L, timed, Success)
  {
    hide SendEnd, ImageStored, Applied;
  }

  lemma AcceptIsSafe(L: Layout, mem: seq<byte>, st: State, b: nat, recv: seq<byte>, data: seq<byte>, d: seq<byte>)
    requires L.sector > 0 && Guarded(L, mem, st, b) && Ready(L, st, recv, data, d) && CanTake(L, st, d)
    requires b == 0 || st.info.offset + |data| < L.otaAddr
    requires NoStartWord(L, st.info, recv + data)
    ensures Safe(L, mem, Accept(L, st, d), b)
  {
    StoreIsGuarded(L, mem, st, b, recv, data, d);
    assert |d| == |data|;
    hide Guarded, Ready, NoStartWord, Accept, SendEnd, Safe, Applied;
    StoredIsSafe(L, mem, st, b, d);
  }

  lemma StoredIsSafe(L: Layout, mem: seq<byte>, st: State, b: nat, d: seq<byte>)
    requires CanTake(L, st, d) && (b == 0 || st.info.offset + |d| < L.otaAddr)
    requires Guarded(L, mem, DoOp(L, st, Write(st.info.start + st.info.offset, d)), b)
    ensures Safe(L, mem, Accept(L, st, d), b)
  {
    hide Guarded, Accept, SendEnd, Safe, Applied;
    AcceptCases(L, st, d);
    var stored := DoOp(L, st, Write(st.info.start + st.info.offset, d));
    var ended := stored.(info := st.info.(offset := st.info.offset + |d|));
    var timed := ended.(timer := if st.info.binType == LOCAL_BIN then RebootTimer else st.timer);
    GuardSame(L, mem, stored, ended, b);
    GuardSame(L, mem, stored, timed, b);
    EndIsSafe(L, mem, ended, b, IncorrectData);
    EndIsSafe(L, mem, ended, b, IncorrectOffset);
    EndIsSafe(L, mem, timed, b, Success);
    var r := Accept(L, st, d);
    if r.mem == stored.mem && r.log == stored.log {
      GuardedIsSafe(L, mem, stored, r, b);
    }
  }

  lemma RefusalIsSafe(L: Layout, mem: seq<byte>, st: State, st': State, recv: seq<byte>, b: nat, status: Status)
    requires L.sector > 0 && Inv(L, st, recv) && st.info.processStart && Guarded(L, mem, st, b)
    requires st'.mem == st.mem && st'.log == st.log
    requires st'.info.start == st.info.start && st'.info.offset == st.info.offset
    ensures Safe(L, mem, SendEnd(L, st', status), b)
  {
    assert st.info.offset < L.otaAddr by { SlotsFit(L); }
    hide Guarded, Safe, SendEnd, Inv;
    GuardSame(L, mem, st, st', b);
    EndIsSafe(L, mem, st', b, status);
  }

  /** A block that is stored ends before the running slot begins. */
  ghost predicate SparesRunningSlot(L: Layout, st: State, recv: seq<byte>, e: Event) {
    e.Block? && e.ok && e.offset == st.info.offset && !Refused(L, st.info, recv, e) ==>
      st.info.start == L.otaAddr || st.info.offset + |e.data| < L.otaAddr
  }

  lemma LocalIsSafe(L: Layout, mem: seq<byte>, st: State, recv: seq<byte>, e: Event, b: nat)
    requires L.sector > 0 && Inv(L, st, recv) && st.info.processStart && st.info.binType == LOCAL_BIN
    requires e.Block? && e.ok && e.offset == st.info.offset && |e.data| < 256 && |recv| == st.info.offset
    requires InChip(L, st) && CanTake(L, st, e.data)
    requires Guarded(L, mem, st, b)
    requires b == 0 || st.info.offset + |e.data| < L.otaAddr || Refused(L, st.info, recv, e)
    ensures Safe(L, mem, Step(L, st, e), b)
  {
    hide Guarded, Inv, SendEnd, Accept, Fold, CrcLen, Patched, InChip, Safe, Ready, FileIsSound;
    if TouchesFlag(L, |recv|, |e.data|) {
      FlagByteSeen(L, recv, e.data, e.next);
    }
    var counted := Counted(L, st, e.data);
    if TouchesFlag(L, |recv|, |e.data|) && (e.data + [e.next])[L.flagAt - |recv|] != START_FLAG {
      RefusalIsSafe(L, mem, st, counted, recv, b, IncorrectData);
    } else {
      LocalReady(L, st, recv, e.data, e.next);
      GuardSame(L, mem, st, counted, b);
      AcceptIsSafe(L, mem, counted, b, recv, e.data, Patched(L, |recv|, e.data));
    }
  }

  lemma RemoteIsSafe(L: Layout, mem: seq<byte>, st: State, recv: seq<byte>, e: Event, b: nat)
    requires L.sector > 0 && Inv(L, st, recv) && st.info.processStart && st.info.binType != LOCAL_BIN
    requires e.Block? && e.ok && e.offset == st.info.offset && |e.data| < 256 && |recv| == st.info.offset
    requires InChip(L, st) && CanTake(L, st, e.data)
    requires Guarded(L, mem, st, b)
    requires b == 0 || st.info.offset + |e.data| < L.otaAddr || Refused(L, st.info, recv, e)
    ensures Safe(L, mem, Step(L, st, e), b)
  {
    assert Knows(L, st.info, recv);
    hide Guarded, Inv, SendEnd, Accept, Fold, FlagBytes, InChip, Safe, Ready, FileIsSound;
    var all := recv + e.data;
    if !st.info.findBootFlag {
      RemoteLearns(L, st.info, recv, e.data);
    } else {
      assert Four(all, L.flagAt) == Four(recv, L.flagAt);
    }
    var scanned := Scanned(L, st, e.data);
    if |recv| < L.flagAt + 4 <= |all| && Four(all, L.flagAt) == FLAG_WHOLE {
      RefusalIsSafe(L, mem, st, scanned, recv, b, MatchBootFlag);
    } else {
      RemoteReady(L, st, recv, e.data);
      GuardSame(L, mem, st, scanned, b);
      AcceptIsSafe(L, mem, scanned, b, recv, e.data, e.data);
    }
  }

  /** An open session keeps the chip bootable from the running slot through every event. */
  lemma OpenIsSafe(L: Layout, mem: seq<byte>, st: State, recv: seq<byte>, e: Event, b: nat)
    requires Inv(L, st, recv) && InChip(L, st) && Enabled(st, e) && st.info.processStart
    requires Guarded(L, mem, st, b) && SparesRunningSlot(L, st, recv, e)
    ensures Safe(L, mem, Step(L, st, e), b)
  {
    assert L.sector > 0 && (b == 0 || b == L.otaAddr) && |recv| == st.info.offset && L.otaAddr > 0 by { SlotsFit(L); }
    assert st.info.start == OtherSlot(L, b) && st.timer == RetryTimer && st.info.offset <= st.info.total;
    if e.Block? {
      assert CanTake(L, st, e.data);
    }
    hide Guarded, Inv, SendEnd, Accept, Safe, InChip, Layout.Valid;
    if e.Start? {
      GuardedIsSafe(L, mem, st, Step(L, st, e), b);
    } else if e.Tick? {
      var counted := st.(info := st.info.(requestCnt := st.info.requestCnt + 1));
      RefusalIsSafe(L, mem, st, counted, recv, b, GetBlockTimeout);
      RetryIsSafe(L, mem, st, counted, b);
    } else if !e.ok {
      RefusalIsSafe(L, mem, st, st.(timer := NoTimer), recv, b, IncorrectData);
    } else if e.offset != st.info.offset {
      GuardedIsSafe(L, mem, st, Step(L, st, e), b);
    } else if st.info.binType == LOCAL_BIN {
      LocalIsSafe(L, mem, st, recv, e, b);
    } else {
      RemoteIsSafe(L, mem, st, recv, e, b);
    }
  }

  /** Programming the block at the start of the chip, if power fails in the middle of it or
      not, makes the start-up word of slot 0 out of what lies there. */
  ghost predicate Assembles(L: Layout, mem: seq<byte>, data: seq<byte>)
    requires |mem| > 0
  {
    |data| <= |mem| && exists k :: 0 <= k <= |data| && Read4(Programmed(mem, 0, data[..k]), L.flagAt) == FLAG_WHOLE
  }

  /** With no session open: the block changes nothing, or the record does not point at the
      running slot and the block neither reaches it nor makes slot 0 boot. */
  ghost predicate StraySpares(L: Layout, st: State, e: Event)
    requires |st.mem| > 0 && e.Block?
  {
    || Ignored(e)
    || (e.ok && e.data == [])
    || (&& st.info.start == OtherSlot(L, BootAddr(L, st.mem))
        && (|| TurnedAway(L, e)
            || BootAddr(L, st.mem) == 0
            || (|e.data| < L.otaAddr && !Assembles(L, st.mem, e.data))))
  }

  lemma StrayStoreIsGuarded(L: Layout, mem: seq<byte>, st: State, b: nat, data: seq<byte>)
    requires L.sector > 0 && Guarded(L, mem, st, b) && st.info.offset == 0 && st.info.start + |data| <= |st.mem|
    requires |st.mem| > 0
    requires b == 0 || (b == L.otaAddr && |data| < L.otaAddr && !Assembles(L, st.mem, data))
    ensures Guarded(L, mem, DoOp(L, st, Write(st.info.start + st.info.offset, data)), b)
  {
    hide Guarded, Programmed, Read4;
    WriteIsGuarded(L, mem, st, b, data);
  }

  lemma StrayEmpty(L: Layout, st: State, e: Event)
    requires InChip(L, st) && !st.info.processStart && e.Block? && Enabled(st, e) && !Arms(L, st, e)
    requires e.ok && e.offset == 0 && e.data == [] && st.info.total == 0
    ensures Step(L, st, e).mem == st.mem && Step(L, st, e).log == st.log + [Write(0, [])]
  {
    assert Programmed(st.mem, 0, []) == st.mem;
    hide Programmed, EraseRun, FlagBytes, Layout.Valid;
  }

  lemma StrayEmptyIsSafe(L: Layout, mem: seq<byte>, st: State, e: Event, b: nat)
    requires InChip(L, st) && !st.info.processStart && e.Block? && Enabled(st, e) && !Arms(L, st, e)
    requires e.ok && e.offset == 0 && e.data == [] && Safe(L, mem, st, b)
    ensures Safe(L, mem, Step(L, st, e), b)
  {
    assert st.info.total == 0 && L.sector > 0;
    StrayEmpty(L, st, e);
    assert Programmed(st.mem, 0, []) == st.mem;
    hide Step, InChip, Programmed, Boots, SafeLog, Replay, Usable;
    var op := Write(0, []);
    assert op.data[..0] == [];
    BootsIsBootable(L, st.mem, b);
    assert SafeDuring(L, st.mem, op);
    TrackOp(L, mem, st, op);
    TrackSame(L, mem, DoOp(L, st, op), Step(L, st, e));
  }

  /** With no session open such a block keeps the chip bootable throughout. */
  lemma StrayIsSafe(L: Layout, mem: seq<byte>, st: State, e: Event, b: nat)
    requires InChip(L, st) && !st.info.processStart && e.Block? && Enabled(st, e) && !Arms(L, st, e)
    requires Safe(L, mem, st, b) && |st.mem| > 0 && StraySpares(L, st, e)
    ensures Safe(L, mem, Step(L, st, e), b)
  {
    assert BootAddr(L, st.mem) == b && (b == 0 || b == L.otaAddr) && L.otaAddr > 0 && L.sector > 0 by { SlotsFit(L); }
    StrayTaken(L, st, e);
    var looked := Looked(L, st, e);
    assert looked.mem == st.mem && looked.log == st.log && looked.info.start == st.info.start;
    assert looked.info.offset == 0;
    hide Step, InChip, Safe, Guarded, Accept, SendEnd, Scanned, Assembles, BootAddr;
    if !Ignored(e) {
      if e.ok && e.data == [] && !TurnedAway(L, e) {
        StrayEmptyIsSafe(L, mem, st, e, b);
      } else {
        StrayGuarded(L, mem, st, looked, b);
        if TurnedAway(L, e) {
          EndIsSafe(L, mem, looked, b, if e.ok then MatchBootFlag else IncorrectData);
        } else {
          StrayStoreIsGuarded(L, mem, looked, b, e.data);
          StoredIsSafe(L, mem, looked, b, e.data);
        }
      }
    }
  }

  lemma StrayGuarded(L: Layout, mem: seq<byte>, st: State, looked: State, b: nat)
    requires Safe(L, mem, st, b) && st.info.start == OtherSlot(L, b)
    requires looked.mem == st.mem && looked.log == st.log && looked.info.start == st.info.start
    ensures Guarded(L, mem, looked, b)
  {
    hide Boots, Usable, Replay, SafeLog;
  }

  lemma RetryIsSafe(L: Layout, mem: seq<byte>, st: State, counted: State, b: nat)
    requires L.sector > 0 && st.info.offset <= st.info.total && Guarded(L, mem, st, b)
    requires counted == st.(info := st.info.(requestCnt := st.info.requestCnt + 1))
    requires Safe(L, mem, SendEnd(L, counted, GetBlockTimeout), b)
    ensures Safe(L, mem, RetryStep(L, st), b)
  {
    hide Boots, Replay, SafeLog, SendEnd, Usable;
  }

  /** A closed device, with the record pointing at the slot a session would use. */
  function Placed(L: Layout, st: State, b: nat): State {
    st.(info := st.info.(start := OtherSlot(L, b)))
  }

  lemma PlacedIsGuarded(L: Layout, mem: seq<byte>, st: State, b: nat)
    requires Safe(L, mem, st, b)
    ensures Guarded(L, mem, Placed(L, st, b), b)
  {
    hide Boots, Usable, Replay, SafeLog;
  }

  lemma StartCases(L: Layout, st: State, total: u32, bin: Option<byte>, b: nat, n: nat)
    requires L.sector > 0 && |st.mem| > 0 && !st.info.processStart
    requires BootAddr(L, st.mem) == b && b != NO_BOOT && n == Sectors(L, total)
    ensures var r := StartStep(L, st, total, bin);
            var erased := EraseRun(L, Placed(L, st, b), OtherSlot(L, b), n);
            && r.info.start == OtherSlot(L, b)
            && (total < L.imageMax ==> r.mem == erased.mem && r.log == erased.log)
            && (total >= L.imageMax ==> r.mem == st.mem && r.log == st.log)
  {
    EraseIgnoresInfo(L, st, Placed(L, st, b).info, OtherSlot(L, b), n);
    hide EraseRun, BootAddr;
  }

  lemma StartErases(L: Layout, mem: seq<byte>, st: State, r: State, b: nat, total: nat, n: nat)
    requires L.sector > 0 && n == Sectors(L, total) && Safe(L, mem, st, b)
    requires r.info.start == OtherSlot(L, b) && (total < L.imageMax ==> total < L.otaAddr)
    requires var erased := EraseRun(L, Placed(L, st, b), OtherSlot(L, b), n);
             if total < L.imageMax then r.mem == erased.mem && r.log == erased.log
             else r.mem == st.mem && r.log == st.log
    ensures Guarded(L, mem, r, b) && Safe(L, mem, r, b)
  {
    hide Guarded, Safe, EraseRun;
    var placed := Placed(L, st, b);
    PlacedIsGuarded(L, mem, st, b);
    if total < L.imageMax {
      GuardErase(L, mem, placed, b, total, n);
      GuardSame(L, mem, EraseRun(L, placed, OtherSlot(L, b), n), r, b);
    } else {
      GuardSame(L, mem, placed, r, b);
    }
    GuardedIsSafe(L, mem, r, r, b);
  }

  /** Opening a session erases only the other slot. */
  lemma StartIsSafe(L: Layout, mem: seq<byte>, st: State, total: u32, bin: Option<byte>, b: nat)
    requires InChip(L, st) && Safe(L, mem, st, b) && !st.info.processStart
    ensures var r := StartStep(L, st, total, bin);
            Safe(L, mem, r, b) && Guarded(L, mem, r, b)
  {
    assert L.sector > 0 && L.imageMax <= L.otaAddr && BootAddr(L, st.mem) == b && b != NO_BOOT by { SlotsFit(L); }
    hide Guarded, Safe, Boots, InChip, BootAddr, Layout.Valid, StartStep, EraseRun, Sectors;
    StartCases(L, st, total, bin, b, Sectors(L, total));
    StartErases(L, mem, st, StartStep(L, st, total, bin), b, total, Sectors(L, total));
  }

  // ----- the reboot -----

  lemma OneByteWrite(mem: seq<byte>, a: nat, x: byte, i: nat)
    requires a < |mem| && i < |mem|
    ensures Programmed(mem, a, [x])[i] == if i == a then And(mem[a], x) else mem[i]
    ensures Programmed(mem, a, [x][..0]) == mem
  {
  }

  lemma OneByteOp(L: Layout, mem: seq<byte>, a: nat, x: byte)
    requires L.sector > 0 && a < |mem| && Bootable(L, mem) && Bootable(L, Programmed(mem, a, [x]))
    ensures SafeDuring(L, mem, Write(a, [x]))
  {
    OneByteWrite(mem, a, x, 0);
    hide Bootable;
    assert forall k :: 0 <= k <= 1 ==> [x][..k] == (if k == 0 then [x][..0] else [x]);
  }

  /** Two chips that differ in the flag byte of slot `n` at most. */
  ghost predicate FlagByteOnly(L: Layout, mem: seq<byte>, mem': seq<byte>, n: nat) {
    |mem| == |mem'| && forall i :: 0 <= i < |mem| && i != n + L.flagAt ==> mem'[i] == mem[i]
  }

  lemma FlagWrite(L: Layout, mem: seq<byte>, n: nat, x: byte)
    requires n + L.flagAt < |mem|
    ensures var after := Programmed(mem, n + L.flagAt, [x]);
            FlagByteOnly(L, mem, after, n) && after[n + L.flagAt] == And(mem[n + L.flagAt], x)
  {
  }

  lemma FlagByteKeeps(L: Layout, mem: seq<byte>, after: seq<byte>, n: nat, m: nat)
    requires Usable(L) && |mem| == L.size && FlagByteOnly(L, mem, after, n)
    requires (n == 0 && m == L.otaAddr) || (n == L.otaAddr && m == 0)
    ensures RealImage(L, mem, n) ==> RealImage(L, after, n)
    ensures RealImage(L, mem, m) ==> RealImage(L, after, m)
    ensures Read4(after, m + L.flagAt) == Read4(mem, m + L.flagAt)
  {
    SlotsFit(L);
    hide RealImage, Layout.Valid;
    if RealImage(L, mem, n) { ImageSurvives(L, mem, after, n); }
    if RealImage(L, mem, m) { ImageSurvives(L, mem, after, m); }
    SameReads(L, mem, after, m, L.flagAt);
  }

  lemma BothImages(L: Layout, mem: seq<byte>, b: nat)
    requires Usable(L) && |mem| == L.size && (b == 0 || b == L.otaAddr)
    requires RealImage(L, mem, 0) && RealImage(L, mem, L.otaAddr)
    requires Read4(mem, b + L.flagAt) == FLAG_WHOLE
    ensures Bootable(L, mem)
  {
    SlotsFit(L);
    hide RealImage, Layout.Valid;
  }

  lemma FlagIsSet(L: Layout, mem: seq<byte>, b: nat, n: nat)
    requires Usable(L) && |mem| == L.size && n + L.flagAt < |mem|
    requires (n == 0 && b == L.otaAddr) || (n == L.otaAddr && b == 0)
    requires RealImage(L, mem, b) && RealImage(L, mem, n) && Read4(mem, b + L.flagAt) == FLAG_WHOLE
    ensures var after := Programmed(mem, n + L.flagAt, [START_FLAG]);
            && Bootable(L, mem) && Bootable(L, after) && |after| == L.size
            && RealImage(L, after, b) && RealImage(L, after, n)
            && after[n + L.flagAt] == And(mem[n + L.flagAt], START_FLAG)
            && Read4(after, b + L.flagAt) == FLAG_WHOLE
  {
    FlagWrite(L, mem, n, START_FLAG);
    hide RealImage, Programmed, Read4, Bootable, Usable;
    FlagByteKeeps(L, mem, Programmed(mem, n + L.flagAt, [START_FLAG]), n, b);
    BothImages(L, mem, b);
    BothImages(L, Programmed(mem, n + L.flagAt, [START_FLAG]), b);
  }

  lemma FlagByteZero(L: Layout, mem: seq<byte>, b: nat)
    requires b + L.flagAt < |mem|
    ensures Read4(Programmed(mem, b + L.flagAt, [0]), b + L.flagAt) != FLAG_WHOLE
  {
  }

  /** Only slot `n` carries the start-up word. */
  lemma OnlySlotBoots(L: Layout, mem: seq<byte>, b: nat, n: nat)
    requires Usable(L) && |mem| == L.size
    requires (n == 0 && b == L.otaAddr) || (n == L.otaAddr && b == 0)
    requires RealImage(L, mem, n) && Read4(mem, n + L.flagAt) == FLAG_WHOLE
    requires Read4(mem, b + L.flagAt) != FLAG_WHOLE
    ensures Boots(L, mem, n) && Bootable(L, mem)
  {
    SlotsFit(L);
    hide RealImage, Read4, Layout.Valid;
  }

  lemma FlagIsCleared(L: Layout, mem: seq<byte>, b: nat, n: nat)
    requires Usable(L) && |mem| == L.size && b + L.flagAt < |mem|
    requires (n == 0 && b == L.otaAddr) || (n == L.otaAddr && b == 0)
    requires RealImage(L, mem, n) && Read4(mem, n + L.flagAt) == FLAG_WHOLE
    ensures var after := Programmed(mem, b + L.flagAt, [0]);
            Boots(L, after, n) && Bootable(L, after) && Read4(after, b + L.flagAt) != FLAG_WHOLE
  {
    FlagWrite(L, mem, b, 0);
    FlagByteZero(L, mem, b);
    hide Programmed, RealImage, Read4, Boots, Bootable, Usable;
    var after := Programmed(mem, b + L.flagAt, [0]);
    FlagByteKeeps(L, mem, after, b, n);
    OnlySlotBoots(L, after, b, n);
  }

  lemma TrackWrite(L: Layout, mem: seq<byte>, st: State, a: nat, x: byte)
    requires Tracked(L, mem, st) && L.sector > 0 && a < |st.mem|
    requires Bootable(L, st.mem) && Bootable(L, Programmed(st.mem, a, [x]))
    ensures Tracked(L, mem, DoOp(L, st, Write(a, [x])))
    ensures DoOp(L, st, Write(a, [x])).mem == Programmed(st.mem, a, [x])
  {
    hide Bootable, Tracked, SafeDuring, Programmed;
    OneByteOp(L, st.mem, a, x);
    TrackOp(L, mem, st, Write(a, [x]));
  }

  lemma RebootCases(L: Layout, st: State, b: nat, n: nat)
    requires L.sector > 0 && L.otaAddr + L.flagAt + 1 <= |st.mem|
    requires BootAddr(L, st.mem) == b && b != NO_BOOT && OtherSlot(L, b) == n && b <= L.otaAddr
    ensures var r, idle := RebootStep(L, st), st.(timer := NoTimer);
            var flagged := DoOp(L, idle, Write(n + L.flagAt, [START_FLAG]));
            if !ImageValid(L, st.mem, n) then r == idle
            else if flagged.mem[n + L.flagAt] != START_FLAG then r == flagged
            else r == DoOp(L, flagged, Write(b + L.flagAt, [0])).(info := ZERO_INFO)
  {
    hide ImageValid, Programmed;
  }

  lemma BootFacts(L: Layout, mem: seq<byte>, st: State, b: nat)
    requires Safe(L, mem, st, b)
    ensures Usable(L) && L.sector > 0 && |st.mem| == L.size && L.otaAddr + L.flagAt + 4 <= |st.mem|
    ensures Tracked(L, mem, st) && (b == 0 || b == L.otaAddr) && BootAddr(L, st.mem) == b && b != NO_BOOT
    ensures OtherSlot(L, OtherSlot(L, b)) == b && OtherSlot(L, b) != b && Bootable(L, st.mem)
    ensures RealImage(L, st.mem, b) && Read4(st.mem, b + L.flagAt) == FLAG_WHOLE
  {
    hide RealImage, Layout.Valid, SafeLog, Replay;
    SlotsFit(L);
  }

  lemma SetIsSafe(L: Layout, mem: seq<byte>, st: State, b: nat, n: nat)
    requires Safe(L, mem, st, b) && n == OtherSlot(L, b) && L.sector > 0
    requires n + L.flagAt < |st.mem| && RealImage(L, st.mem, n)
    ensures var flagged := DoOp(L, st, Write(n + L.flagAt, [START_FLAG]));
            && flagged.mem[n + L.flagAt] == And(st.mem[n + L.flagAt], START_FLAG)
            && Tracked(L, mem, flagged) && Bootable(L, flagged.mem)
            && RealImage(L, flagged.mem, n) && |flagged.mem| == L.size
  {
    hide RealImage, Tracked, Bootable, Boots, Usable, Programmed, Safe, Read4, BootAddr;
    BootFacts(L, mem, st, b);
    FlagIsSet(L, st.mem, b, n);
    TrackWrite(L, mem, st, n + L.flagAt, START_FLAG);
  }

  lemma ClearIsSafe(L: Layout, mem: seq<byte>, st: State, b: nat, n: nat)
    requires Usable(L) && L.sector > 0 && |st.mem| == L.size && b + L.flagAt < |st.mem| && n + L.flagAt < |st.mem|
    requires (n == 0 && b == L.otaAddr) || (n == L.otaAddr && b == 0)
    requires Tracked(L, mem, st) && Bootable(L, st.mem) && RealImage(L, st.mem, n)
    requires st.mem[n + L.flagAt] == START_FLAG
    ensures var r := DoOp(L, st, Write(b + L.flagAt, [0]));
            Tracked(L, mem, r) && Boots(L, r.mem, n) && Read4(r.mem, b + L.flagAt) != FLAG_WHOLE
  {
    hide RealImage, Tracked, Bootable, Boots, Usable, Programmed, Read4, Applied;
    FlagWordWhole(L, st.mem, n);
    FlagIsCleared(L, st.mem, b, n);
    TrackWrite(L, mem, st, b + L.flagAt, 0);
  }

  lemma FlagWordWhole(L: Layout, mem: seq<byte>, n: nat)
    requires n + L.flagAt < |mem| && RealImage(L, mem, n) && mem[n + L.flagAt] == START_FLAG
    ensures Read4(mem, n + L.flagAt) == FLAG_WHOLE
  {
  }

  /** The new image is complete and its flag byte can still be set. */
  predicate CanSwitch(L: Layout, mem: seq<byte>, n: nat)
    requires n + L.flagAt < |mem|
  {
    ImageValid(L, mem, n) && And(mem[n + L.flagAt], START_FLAG) == START_FLAG
  }

  lemma RebootCore(L: Layout, mem: seq<byte>, st: State, r: State, b: nat, n: nat)
    requires Usable(L) && L.sector > 0 && |st.mem| == L.size
    requires b + L.flagAt < |st.mem| && n + L.flagAt < |st.mem|
    requires (n == 0 && b == L.otaAddr) || (n == L.otaAddr && b == 0)
    requires Safe(L, mem, st, b) && RealImage(L, st.mem, n)
    requires var flagged := DoOp(L, st, Write(n + L.flagAt, [START_FLAG]));
             if flagged.mem[n + L.flagAt] != START_FLAG then r == flagged
             else r == DoOp(L, flagged, Write(b + L.flagAt, [0])).(info := ZERO_INFO)
    ensures Tracked(L, mem, r) && Bootable(L, r.mem)
    ensures And(st.mem[n + L.flagAt], START_FLAG) == START_FLAG ==>
              Boots(L, r.mem, n) && Read4(r.mem, b + L.flagAt) != FLAG_WHOLE && r.info == ZERO_INFO
  {
    hide RealImage, Tracked, Bootable, Boots, Usable, Safe, Read4, Applied, And;
    SetIsSafe(L, mem, st, b, n);
    var flagged := DoOp(L, st, Write(n + L.flagAt, [START_FLAG]));
    if flagged.mem[n + L.flagAt] == START_FLAG {
      ClearedIsSafe(L, mem, flagged, r, b, n);
    }
  }

  lemma RebootFrom(L: Layout, mem: seq<byte>, st: State, b: nat, n: nat)
    requires L.sector > 0 && |st.mem| == L.size && L.otaAddr + L.flagAt + 1 <= |st.mem| && Usable(L)
    requires (n == 0 && b == L.otaAddr) || (n == L.otaAddr && b == 0)
    requires BootAddr(L, st.mem) == b && b != NO_BOOT && OtherSlot(L, b) == n
    requires Safe(L, mem, st.(timer := NoTimer), b) && Tracked(L, mem, st.(timer := NoTimer)) && Bootable(L, st.mem)
    requires ImageValid(L, st.mem, n) ==> RealImage(L, st.mem, n)
    ensures var r := RebootStep(L, st);
            && Tracked(L, mem, r) && Bootable(L, r.mem)
            && (CanSwitch(L, st.mem, n) ==>
                  Boots(L, r.mem, n) && Read4(r.mem, b + L.flagAt) != FLAG_WHOLE && r.info == ZERO_INFO)
  {
    hide RealImage, Tracked, Bootable, Boots, Usable, Safe, Read4, BootAddr, RebootStep, ImageValid, Applied, And;
    RebootCases(L, st, b, n);
    if ImageValid(L, st.mem, n) {
      RebootCore(L, mem, st.(timer := NoTimer), RebootStep(L, st), b, n);
    }
  }

  /** An image that cannot be switched to leaves the device booting from where it did. */
  lemma RebootStays(L: Layout, st: State, b: nat, n: nat)
    requires L.Valid() && L.sector > 0 && |st.mem| == L.size && n + L.flagAt < |st.mem|
    requires (n == 0 && b == L.otaAddr) || (n == L.otaAddr && b == 0)
    requires BootAddr(L, st.mem) == b && !CanSwitch(L, st.mem, n)
    ensures L.otaAddr + L.flagAt + 1 <= |st.mem|
    ensures BootAddr(L, RebootStep(L, st).mem) == b && RebootStep(L, st).info == st.info
  {
    SlotsFit(L);
    assert b != NO_BOOT && OtherSlot(L, b) == n && (ImageValid(L, st.mem, n) ==>
             And(st.mem[n + L.flagAt], START_FLAG) != START_FLAG) by { hide ImageValid, And; }
    hide Layout.Valid, RebootStep, ImageValid, Programmed, And, CanSwitch, BootAddr;
    RebootFails(L, st, b, n);
    if ImageValid(L, st.mem, n) {
      FlagRefused(L, st.mem, b, n);
    }
  }

  lemma RebootFails(L: Layout, st: State, b: nat, n: nat)
    requires L.sector > 0 && L.otaAddr + L.flagAt + 1 <= |st.mem| && n <= L.otaAddr && b <= L.otaAddr
    requires BootAddr(L, st.mem) == b && b != NO_BOOT && OtherSlot(L, b) == n
    requires ImageValid(L, st.mem, n) ==> And(st.mem[n + L.flagAt], START_FLAG) != START_FLAG
    ensures var r := RebootStep(L, st);
            && r.info == st.info
            && r.mem == if ImageValid(L, st.mem, n) then Programmed(st.mem, n + L.flagAt, [START_FLAG]) else st.mem
  {
    hide Programmed, ImageValid, BootAddr, And;
    FlagSet(L, st.mem, n);
  }

  lemma FlagRefused(L: Layout, mem: seq<byte>, b: nat, n: nat)
    requires L.Valid() && |mem| == L.size && n + L.flagAt < |mem|
    requires (n == 0 && b == L.otaAddr) || (n == L.otaAddr && b == 0)
    requires BootAddr(L, mem) == b && And(mem[n + L.flagAt], START_FLAG) != START_FLAG
    ensures BootAddr(L, Programmed(mem, n + L.flagAt, [START_FLAG])) == b
  {
    SlotsFit(L);
    FlagWrite(L, mem, n, START_FLAG);
    hide Layout.Valid, Programmed, And;
    var after := Programmed(mem, n + L.flagAt, [START_FLAG]);
    assert Read4(after, b + L.flagAt) == Read4(mem, b + L.flagAt);
    assert Read4(after, n + L.flagAt)[0] != START_FLAG;
  }

  /** What the reboot handler does, in three cases: no slot boots, or the image in the other one
      is not accepted; its flag byte cannot be set; or it can, and then the old flag byte is
      cleared behind it and the device resets with a zero record. */
  lemma RebootIs(L: Layout, st: State, b: nat, n: nat)
    requires L.Valid() && L.sector > 0 && |st.mem| == L.size && |st.mem| > 0
    requires b == BootAddr(L, st.mem) && (b == 0xFFFF_FFFF || (b == 0 && n == L.otaAddr) || (b == L.otaAddr && n == 0))
    ensures L.otaAddr + L.flagAt + 1 <= |st.mem|
    ensures var r, at, was := RebootStep(L, st), n + L.flagAt, b + L.flagAt;
            && r.sent == st.sent && r.timer == NoTimer
            && (b == 0xFFFF_FFFF || !ImageValid(L, st.mem, n) ==> r == st.(timer := NoTimer))
            && (b != 0xFFFF_FFFF && ImageValid(L, st.mem, n) ==>
                  && at < |st.mem| && was < |st.mem|
                  && (And(st.mem[at], 0x4B) != 0x4B ==>
                        r.info == st.info && r.mem == st.mem[at := And(st.mem[at], 0x4B)])
                  && (And(st.mem[at], 0x4B) == 0x4B ==>
                        && r.info == Info(0, 0, 0, 0, [0, 0, 0, 0], false, false, 0, 0)
                        && r.mem == st.mem[at := 0x4B][was := And(st.mem[was], 0)]))
  {
    SlotsFit(L);
    hide Layout.Valid, ImageValid, Programmed, And, BootAddr, RebootStep, Applied;
    if b != 0xFFFF_FFFF {
      FlagProgrammed(st.mem, n + L.flagAt, START_FLAG);
      FlagProgrammed(Programmed(st.mem, n + L.flagAt, [START_FLAG]), b + L.flagAt, 0);
      if !ImageValid(L, st.mem, n) {
        RebootCases(L, st, b, n);
      } else if And(st.mem[n + L.flagAt], START_FLAG) != START_FLAG {
        RebootFails(L, st, b, n);
      } else {
        RebootWrites(L, st, b, n);
      }
    }
    RebootQuiet(L, st);
  }

  lemma FlagProgrammed(mem: seq<byte>, at: nat, x: byte)
    requires at < |mem|
    ensures Programmed(mem, at, [x]) == mem[at := And(mem[at], x)]
  {
  }

  lemma RebootQuiet(L: Layout, st: State)
    requires L.sector > 0 && L.otaAddr + L.flagAt + 1 <= |st.mem|
    ensures var r := RebootStep(L, st);
            r.sent == st.sent && r.timer == NoTimer && (BootAddr(L, st.mem) == NO_BOOT ==> r == st.(timer := NoTimer))
  {
    hide ImageValid, Programmed, BootAddr;
  }

  /** Nothing but the two flag bytes changed. */
  ghost predicate FlagBytesOnly(L: Layout, mem: seq<byte>, mem': seq<byte>) {
    && |mem| == |mem'|
    && forall i :: 0 <= i < |mem| && i != L.flagAt && i != L.otaAddr + L.flagAt ==> mem'[i] == mem[i]
  }

  lemma WordIsInjective(w: seq<byte>, w': seq<byte>)
    requires |w| == |w'| == 4 && Word(w) == Word(w')
    ensures w == w'
  {
    var x0: int, x1: int, x2: int, x3: int := w[0], w[1], w[2], w[3];
    var y0: int, y1: int, y2: int, y3: int := w'[0], w'[1], w'[2], w'[3];
    DigitIsUnique(x0, x1 + 0x100 * x2 + 0x1_0000 * x3, y0, y1 + 0x100 * y2 + 0x1_0000 * y3);
    DigitIsUnique(x1, x2 + 0x100 * x3, y1, y2 + 0x100 * y3);
    DigitIsUnique(x2, x3, y2, y3);
  }

  lemma DigitIsUnique(x: int, high: int, y: int, high': int)
    requires 0 <= x < 256 && 0 <= y < 256 && x + 256 * high == y + 256 * high'
    ensures x == y && high == high'
  {
  }

  /** A word read at `p` contains the byte at `a`. */
  predicate Covers(p: int, a: nat) {
    p <= a < p + 4
  }

  lemma SumReadStays(L: Layout, mem: seq<byte>, mem': seq<byte>, n: nat, b: nat, p: int)
    requires L.Valid() && |mem| == L.size && |mem'| == L.size && FlagBytesOnly(L, mem, mem')
    requires (n == 0 && b == L.otaAddr) || (n == L.otaAddr && b == 0)
    requires n - 4 <= p <= n + L.imageMax - 4 && b + L.flagAt < |mem| && n + L.flagAt < |mem|
    ensures |mem| > 0 && |mem'| > 0
    ensures Word(Read4(mem', p)) == Word(Read4(mem, p)) <==>
              && (Covers(p, n + L.flagAt) ==> mem'[n + L.flagAt] == mem[n + L.flagAt])
              && (Covers(p, b + L.flagAt) ==> mem'[b + L.flagAt] == mem[b + L.flagAt])
  {
    SlotsFit(L);
    hide Layout.Valid, Word, Read4;
    var w, w' := Read4(mem, p), Read4(mem', p);
    forall k | 0 <= k < 4
      ensures w[k] == mem[if p + k < 0 then |mem| + p + k else p + k]
      ensures w'[k] == mem'[if p + k < 0 then |mem| + p + k else p + k]
    {
      WrapsAt(mem, p, k);
      WrapsAt(mem', p, k);
    }
    if Word(w) == Word(w') {
      WordIsInjective(w, w');
      CoveredByte(mem, mem', w, p, n + L.flagAt);
      CoveredByte(mem, mem', w, p, b + L.flagAt);
    }
    if && (Covers(p, n + L.flagAt) ==> mem'[n + L.flagAt] == mem[n + L.flagAt])
       && (Covers(p, b + L.flagAt) ==> mem'[b + L.flagAt] == mem[b + L.flagAt]) {
      assert w == w';
    }
  }

  lemma CoveredByte(mem: seq<byte>, mem': seq<byte>, w: seq<byte>, p: int, a: nat)
    requires |w| == 4 <= |mem'| == |mem| && a < |mem| && -4 <= p && p + 4 <= |mem|
    requires forall k :: 0 <= k < 4 ==> w[k] == mem[if p + k < 0 then |mem| + p + k else p + k]
    requires forall k :: 0 <= k < 4 ==> w[k] == mem'[if p + k < 0 then |mem| + p + k else p + k]
    ensures Covers(p, a) ==> mem'[a] == mem[a]
  {
    if Covers(p, a) {
      assert w[a - p] == mem[a] && w[a - p] == mem'[a];
    }
  }

  lemma BodyStays(L: Layout, mem: seq<byte>, mem': seq<byte>, n: nat, size: nat)
    requires n + L.imageMax <= |mem| && size <= L.imageMax && |mem| > 0 && |mem'| > 0 && SlotAgrees(L, mem, mem', n)
    ensures ImageBody(L, mem', n, size) == ImageBody(L, mem, n, size)
  {
    if size >= 4 {
      SameBody(L, mem, mem', n, size);
    }
  }

  lemma FlagWordStays(L: Layout, mem: seq<byte>, mem': seq<byte>, n: nat)
    requires n + L.flagAt + 4 <= |mem| && SlotAgrees(L, mem, mem', n) && L.flagAt + 4 <= L.imageMax && |mem| > 0
    ensures Read4(mem', n + L.flagAt)[1..] == Read4(mem, n + L.flagAt)[1..]
  {
    var w, w' := Read4(mem, n + L.flagAt), Read4(mem', n + L.flagAt);
    assert w'[1] == w[1] && w'[2] == w[2] && w'[3] == w[3];
  }

  lemma SumDecides(L: Layout, mem: seq<byte>, mem': seq<byte>, n: nat)
    requires |mem| > 0 && |mem'| > 0 && ImageValid(L, mem, n) && HeaderSize(mem', n) == HeaderSize(mem, n)
    requires ImageBody(L, mem', n, HeaderSize(mem, n)) == ImageBody(L, mem, n, HeaderSize(mem, n))
    requires Read4(mem', n + L.flagAt)[1..] == Read4(mem, n + L.flagAt)[1..]
    ensures var p := n + HeaderSize(mem, n) - 4;
            ImageValid(L, mem', n) <==> Word(Read4(mem', p)) == Word(Read4(mem, p))
  {
    hide Read4, Word, Fold, ImageBody;
  }

  /** What the flag bytes decide: with them changed at most, an accepted image of any size stays
      accepted exactly if every flag byte its checksum word contains is as it was. */
  lemma FlagBytesDecide(L: Layout, mem: seq<byte>, mem': seq<byte>, n: nat, b: nat)
    requires Usable(L) && |mem| == L.size && |mem| > 0 && |mem'| > 0 && FlagBytesOnly(L, mem, mem')
    requires (n == 0 && b == L.otaAddr) || (n == L.otaAddr && b == 0)
    requires n + L.flagAt < |mem| && b + L.flagAt < |mem| && ImageValid(L, mem, n)
    ensures var p := n + HeaderSize(mem, n) - 4;
            ImageValid(L, mem', n) <==>
              && (Covers(p, n + L.flagAt) ==> mem'[n + L.flagAt] == mem[n + L.flagAt])
              && (Covers(p, b + L.flagAt) ==> mem'[b + L.flagAt] == mem[b + L.flagAt])
  {
    SlotsFit(L);
    SizeFits(L, mem, n);
    assert SlotAgrees(L, mem, mem', n);
    hide Layout.Valid, ImageValid, Read4, Word, ImageBody, HeaderSize, Covers, SlotAgrees, FlagBytesOnly;
    SameHeader(L, mem, mem', n);
    BodyStays(L, mem, mem', n, HeaderSize(mem, n));
    FlagWordStays(L, mem, mem', n);
    SumDecides(L, mem, mem', n);
    SumReadStays(L, mem, mem', n, b, n + HeaderSize(mem, n) - 4);
  }

  lemma SameHeader(L: Layout, mem: seq<byte>, mem': seq<byte>, n: nat)
    requires Usable(L) && |mem| == L.size && |mem| > 0 && |mem'| > 0 && SlotAgrees(L, mem, mem', n)
    requires n == 0 || n == L.otaAddr
    ensures HeaderSize(mem', n) == HeaderSize(mem, n)
  {
    SlotsFit(L);
    hide Layout.Valid, Word;
  }

  lemma FlagsWritten(L: Layout, mem: seq<byte>, b: nat, n: nat)
    requires L.Valid() && |mem| == L.size && n + L.flagAt < |mem| && b + L.flagAt < |mem|
    requires (n == 0 && b == L.otaAddr) || (n == L.otaAddr && b == 0)
    requires Read4(mem, n + L.flagAt)[1..] == FLAG_WHOLE[1..] && And(mem[n + L.flagAt], START_FLAG) == START_FLAG
    ensures var after := Programmed(Programmed(mem, n + L.flagAt, [START_FLAG]), b + L.flagAt, [0]);
            && FlagBytesOnly(L, mem, after) && after[n + L.flagAt] == START_FLAG
            && Read4(after, n + L.flagAt) == FLAG_WHOLE && Read4(after, b + L.flagAt) != FLAG_WHOLE
            && after[b + L.flagAt] == And(mem[b + L.flagAt], 0)
  {
    SlotsFit(L);
    var flagged := Programmed(mem, n + L.flagAt, [START_FLAG]);
    FlagWrite(L, mem, n, START_FLAG);
    FlagWrite(L, flagged, b, 0);
    FlagByteZero(L, flagged, b);
    hide Layout.Valid, Programmed, And;
    var after := Programmed(flagged, b + L.flagAt, [0]);
    var w, w' := Read4(mem, n + L.flagAt), Read4(after, n + L.flagAt);
    assert w[1] == w[1..][0] && w[2] == w[1..][1] && w[3] == w[1..][2];
    assert w'[1] == w[1] && w'[2] == w[2] && w'[3] == w[3];
  }

  lemma OnlyFlagBoots(L: Layout, mem: seq<byte>, b: nat, n: nat)
    requires |mem| > 0 && ((n == 0 && b == L.otaAddr) || (n == L.otaAddr && b == 0))
    requires Read4(mem, n + L.flagAt) == FLAG_WHOLE && Read4(mem, b + L.flagAt) != FLAG_WHOLE
    ensures BootAddr(L, mem) == n
  {
    hide Read4;
  }

  lemma RebootWrites(L: Layout, st: State, b: nat, n: nat)
    requires L.sector > 0 && L.otaAddr + L.flagAt + 1 <= |st.mem| && n <= L.otaAddr && b <= L.otaAddr
    requires BootAddr(L, st.mem) == b && b != NO_BOOT && OtherSlot(L, b) == n && ImageValid(L, st.mem, n)
    requires Programmed(st.mem, n + L.flagAt, [START_FLAG])[n + L.flagAt] == START_FLAG
    ensures var r := RebootStep(L, st);
            && r.mem == Programmed(Programmed(st.mem, n + L.flagAt, [START_FLAG]), b + L.flagAt, [0])
            && r.info == ZERO_INFO
  {
    hide Programmed, ImageValid, BootAddr;
  }

  lemma ClearedFlagDiffers(L: Layout, mem: seq<byte>, b: nat)
    requires b + L.flagAt < |mem| && BootAddr(L, mem) == b && b != NO_BOOT
    ensures And(mem[b + L.flagAt], 0) != mem[b + L.flagAt]
  {
    assert Read4(mem, b + L.flagAt)[0] == mem[b + L.flagAt] == START_FLAG;
    assert And(START_FLAG, 0) != START_FLAG;
  }

  lemma SwitchedFlags(L: Layout, st: State, b: nat, n: nat)
    requires L.Valid() && L.sector > 0 && |st.mem| == L.size && n + L.flagAt < |st.mem|
    requires (n == 0 && b == L.otaAddr) || (n == L.otaAddr && b == 0)
    requires BootAddr(L, st.mem) == b && CanSwitch(L, st.mem, n)
    ensures L.otaAddr + L.flagAt + 1 <= |st.mem|
    ensures var r := RebootStep(L, st);
            && |r.mem| > 0 && r.info == ZERO_INFO && BootAddr(L, r.mem) == n && FlagBytesOnly(L, st.mem, r.mem)
            && r.mem[n + L.flagAt] == START_FLAG && r.mem[b + L.flagAt] != st.mem[b + L.flagAt]
  {
    SlotsFit(L);
    assert Read4(st.mem, n + L.flagAt)[1..] == FLAG_WHOLE[1..];
    assert And(st.mem[n + L.flagAt], START_FLAG) == START_FLAG;
    hide CanSwitch, RebootStep, Layout.Valid, Programmed, And, Read4, BootAddr, FlagBytesOnly;
    FlagSet(L, st.mem, n);
    RebootWrites(L, st, b, n);
    FlagsWritten(L, st.mem, b, n);
    ClearedFlagDiffers(L, st.mem, b);
    OnlyFlagBoots(L, RebootStep(L, st).mem, b, n);
  }

  lemma FlagSet(L: Layout, mem: seq<byte>, n: nat)
    requires n + L.flagAt < |mem|
    ensures Programmed(mem, n + L.flagAt, [START_FLAG])[n + L.flagAt] == And(mem[n + L.flagAt], START_FLAG)
  {
  }

  lemma FlagBytesApart(L: Layout, n: nat, b: nat, size: nat)
    requires L.Valid() && ((n == 0 && b == L.otaAddr) || (n == L.otaAddr && b == 0)) && 4 <= size <= L.imageMax
    ensures !Covers(n + size - 4, b + L.flagAt)
    ensures Covers(n + size - 4, n + L.flagAt) <==> !SumApart(L, size)
  {
    SlotsFit(L);
  }

  /** What the reboot decides, for every image it switches to: what boots then is a valid image
      exactly if the word it has for a checksum contains neither flag byte, or only its own and
      that byte was set; an image of at least four bytes, if its checksum word is clear of its
      flag byte or that byte was set. */
  lemma RebootDecides(L: Layout, st: State, b: nat, n: nat)
    requires Usable(L) && L.sector > 0 && |st.mem| == L.size && n + L.flagAt < |st.mem| && b + L.flagAt < |st.mem|
    requires (n == 0 && b == L.otaAddr) || (n == L.otaAddr && b == 0)
    requires BootAddr(L, st.mem) == b && CanSwitch(L, st.mem, n)
    ensures L.otaAddr + L.flagAt + 1 <= |st.mem|
    ensures var r, size := RebootStep(L, st), HeaderSize(st.mem, n);
            && r.info == ZERO_INFO && |r.mem| > 0 && BootAddr(L, r.mem) == n
            && (ImageValid(L, r.mem, n) <==>
                  && !Covers(n + size - 4, b + L.flagAt)
                  && (Covers(n + size - 4, n + L.flagAt) ==> st.mem[n + L.flagAt] == START_FLAG))
            && (4 <= size ==>
                  (ImageValid(L, r.mem, n) <==> SumApart(L, size) || st.mem[n + L.flagAt] == START_FLAG))
  {
    assert ImageValid(L, st.mem, n);
    SwitchedFlags(L, st, b, n);
    SizeFits(L, st.mem, n);
    hide RebootStep, ImageValid, HeaderSize, BootAddr, SumApart, Covers, CanSwitch, FlagBytesOnly;
    FlagBytesDecide(L, st.mem, RebootStep(L, st).mem, n, b);
    if 4 <= HeaderSize(st.mem, n) {
      FlagBytesApart(L, n, b, HeaderSize(st.mem, n));
    }
  }

  /** The reboot handler keeps the chip bootable throughout. If it resets, the new slot is
      the one that boots and the old one no longer carries the start-up word; if not, the
      device goes on booting from where it did. */
  lemma RebootIsSafe(L: Layout, mem: seq<byte>, st: State, b: nat)
    requires Safe(L, mem, st, b) && L.sector > 0 && L.otaAddr + L.flagAt + 1 <= |st.mem|
    requires ImageValid(L, st.mem, OtherSlot(L, b)) ==> SumApart(L, HeaderSize(st.mem, OtherSlot(L, b)))
    requires OtherSlot(L, b) + L.flagAt < |st.mem|
    ensures var r, n := RebootStep(L, st), OtherSlot(L, b);
            && Tracked(L, mem, r) && Bootable(L, r.mem)
            && (CanSwitch(L, st.mem, n) ==>
                  Boots(L, r.mem, n) && Read4(r.mem, b + L.flagAt) != FLAG_WHOLE && r.info == ZERO_INFO)
            && (!CanSwitch(L, st.mem, n) ==> |r.mem| > 0 && BootAddr(L, r.mem) == b && r.info == st.info)
  {
    hide RealImage, Tracked, Bootable, Boots, Safe, Read4, BootAddr;
    hide RebootStep, ImageValid, HeaderSize, And, CanSwitch;
    BootFacts(L, mem, st, b);
    if !CanSwitch(L, st.mem, OtherSlot(L, b)) {
      RebootStays(L, st, b, OtherSlot(L, b));
    }
    IdleIsSafe(L, mem, st, st.(timer := NoTimer), b, OtherSlot(L, b));
    RebootFrom(L, mem, st, b, OtherSlot(L, b));
  }

  lemma ClearedIsSafe(L: Layout, mem: seq<byte>, flagged: State, r: State, b: nat, n: nat)
    requires Usable(L) && L.sector > 0 && |flagged.mem| == L.size
    requires b + L.flagAt < |flagged.mem| && n + L.flagAt < |flagged.mem|
    requires (n == 0 && b == L.otaAddr) || (n == L.otaAddr && b == 0)
    requires Tracked(L, mem, flagged) && Bootable(L, flagged.mem) && RealImage(L, flagged.mem, n)
    requires flagged.mem[n + L.flagAt] == START_FLAG
    requires r == DoOp(L, flagged, Write(b + L.flagAt, [0])).(info := ZERO_INFO)
    ensures Tracked(L, mem, r) && Bootable(L, r.mem) && Boots(L, r.mem, n) && Read4(r.mem, b + L.flagAt) != FLAG_WHOLE
  {
    hide RealImage, Tracked, Bootable, Boots, Usable, Read4, Applied;
    ClearIsSafe(L, mem, flagged, b, n);
    var cleared := DoOp(L, flagged, Write(b + L.flagAt, [0]));
    TrackSame(L, mem, cleared, r);
    BootsIsBootable(L, cleared.mem, n);
  }

  lemma IdleIsSafe(L: Layout, mem: seq<byte>, st: State, idle: State, b: nat, n: nat)
    requires Safe(L, mem, st, b) && idle == st.(timer := NoTimer) && |st.mem| > 0
    requires ImageValid(L, st.mem, n) ==> SumApart(L, HeaderSize(st.mem, n))
    ensures Safe(L, mem, idle, b) && Tracked(L, mem, idle)
    ensures ImageValid(L, st.mem, n) ==> RealImage(L, st.mem, n)
  {
    hide Boots, Replay, SafeLog, ImageValid, HeaderSize;
  }

  lemma BootsIsBootable(L: Layout, mem: seq<byte>, b: nat)
    requires Boots(L, mem, b)
    ensures Bootable(L, mem)
  {
  }
}
