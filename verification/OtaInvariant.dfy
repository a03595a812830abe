/** What every step of the update session keeps, and what each way of ending it leaves. */
module OtaInvariant {
  import opened Words
  import opened Flash
  import opened OtaSession

  // ----- erasing and folding -----

  lemma MulMono(a: int, b: int, s: int)
    requires a <= b && 0 <= s
    ensures a * s <= b * s
  {
  }

  lemma DivisionIsUnique(s: nat, q: int, r: int, q': int, r': int)
    requires s > 0 && 0 <= r < s && 0 <= r' < s && q * s + r == q' * s + r'
    ensures q == q'
  {
    if q < q' {
      MulMono(q + 1, q', s);
      assert false;
    } else if q' < q {
      MulMono(q' + 1, q, s);
      assert false;
    }
  }

  lemma QuotientIs(s: nat, q: int, r: int)
    requires s > 0 && 0 <= r < s
    ensures (q * s + r) / s == q && (q * s + r) % s == r
  {
    var x := q * s + r;
    assert x / s * s + x % s == x;
    DivisionIsUnique(s, q, r, x / s, x % s);
  }

  lemma InSector(sector: nat, base: nat, i: nat)
    requires sector > 0 && base % sector == 0
    ensures i / sector == base / sector <==> base <= i < base + sector
  {
    var b := base / sector;
    assert base == b * sector;
    if base <= i < base + sector {
      QuotientIs(sector, b, i - base);
    }
    assert i == i / sector * sector + i % sector;
  }

  lemma NextSector(sector: nat, base: nat, k: nat)
    requires sector > 0 && base % sector == 0
    ensures (base + k * sector) % sector == 0
  {
    QuotientIs(sector, base / sector + k, 0);
    assert base / sector * sector == base;
    assert (base / sector + k) * sector == base + k * sector;
  }

  lemma {:induction false} EraseRunAt(L: Layout, st: State, start: nat, n: nat, i: nat)
    requires L.sector > 0 && start % L.sector == 0 && i < |st.mem|
    ensures EraseRun(L, st, start, n).mem[i]
         == if start <= i < start + n * L.sector then 255 else st.mem[i]
  {
    if n > 0 {
      var base := start + (n - 1) * L.sector;
      EraseRunAt(L, st, start, n - 1, i);
      NextSector(L.sector, start, n - 1);
      InSector(L.sector, base, i);
      assert start + n * L.sector == base + L.sector;
    }
  }

  /** Erasing depends on the flash and the log only. */
  lemma {:induction false} EraseIgnoresInfo(L: Layout, st: State, info: Info, start: nat, n: nat)
    requires L.sector > 0
    ensures EraseRun(L, st.(info := info), start, n) == EraseRun(L, st, start, n).(info := info)
  {
    hide Erased;
    if n > 0 {
      EraseIgnoresInfo(L, st, info, start, n - 1);
    }
  }

  /** The bytes from the start of a slot that erasing for `n` bytes covers. */
  function Span(L: Layout, n: nat): (s: nat)
    requires L.sector > 0
    ensures n < s && L.sector <= s
  {
    MulMono(1, n / L.sector + 1, L.sector);
    assert n == n / L.sector * L.sector + n % L.sector;
    (n / L.sector + 1) * L.sector
  }

  lemma QuotientGrows(s: nat, n: nat, m: nat)
    requires s > 0 && n <= m
    ensures n / s <= m / s
  {
    assert n == n / s * s + n % s && m == m / s * s + m % s;
    if m / s < n / s {
      MulMono(m / s + 1, n / s, s);
      assert false;
    }
  }

  lemma SpanGrows(L: Layout, n: nat, m: nat)
    requires L.sector > 0 && n <= m
    ensures Span(L, n) <= Span(L, m)
  {
    QuotientGrows(L.sector, n, m);
    MulMono(n / L.sector + 1, m / L.sector + 1, L.sector);
  }

  /** Erasing for `n` bytes stays below a sector boundary exactly when `n` does. */
  lemma SpanFits(L: Layout, n: nat, bound: nat)
    requires L.sector > 0 && bound % L.sector == 0
    ensures Span(L, n) <= bound <==> n < bound
  {
    var b := bound / L.sector;
    assert bound == b * L.sector;
    assert n == n / L.sector * L.sector + n % L.sector;
    if n / L.sector + 1 <= b {
      MulMono(n / L.sector + 1, b, L.sector);
    } else {
      MulMono(b, n / L.sector, L.sector);
    }
  }

  lemma {:induction false} FoldAppend(step: (u32, byte) -> u32, a: seq<byte>, b: seq<byte>, init: u32)
    ensures Fold(step, a + b, init) == Fold(step, b, Fold(step, a, init))
  {
    if b == [] {
      assert a + b == a;
    } else {
      FoldAppend(step, a, b[..|b| - 1], init);
      assert (a + b)[..|a + b| - 1] == a + b[..|b| - 1];
    }
  }

  // ----- the invariant -----

  /** How many of the first `n` bytes of the file enter the checksum: all but the last four
      of the file. */
  function CrcSpan(total: nat, n: nat): (k: nat)
    ensures k <= n
  {
    if total < 4 then 0 else if n <= total - 4 then n else total - 4
  }

  /** A received byte as flash holds it. */
  function StoredByte(L: Layout, binType: byte, recv: seq<byte>, i: nat): byte
    requires i < |recv|
  {
    if binType == LOCAL_BIN && i == L.flagAt then 255 else recv[i]
  }

  /** The slot holds the received bytes, and is erased behind them. */
  ghost predicate Content(L: Layout, mem: seq<byte>, start: nat, total: nat, binType: byte, recv: seq<byte>)
    requires L.sector > 0 && start + Span(L, total) <= |mem|
  {
    forall i :: start <= i < start + Span(L, total) ==>
      mem[i] == if i - start < |recv| then StoredByte(L, binType, recv, i - start) else 255
  }

  /** What the record knows about the bytes received so far. */
  ghost predicate Knows(L: Layout, info: Info, recv: seq<byte>) {
    && |info.bootFlag| == 4
    && if info.binType == LOCAL_BIN then
         && info.crc == Fold(L.crcStep, recv[..CrcSpan(info.total, |recv|)], CRC_INIT)
         && (L.flagAt < |recv| ==> recv[L.flagAt] == START_FLAG)
       else
         && (info.findBootFlag <==> L.flagAt + 4 <= |recv|)
         && (forall k :: 0 <= k < 4 && L.flagAt + k < |recv| && !info.findBootFlag ==>
               info.bootFlag[k] == recv[L.flagAt + k])
         && (info.findBootFlag ==> Four(recv, L.flagAt) != FLAG_WHOLE)
  }

  /** `recv` is every byte accepted since the session started, as the host sent it. */
  ghost predicate Inv(L: Layout, st: State, recv: seq<byte>) {
    && InChip(L, st)
    && (st.info.processStart ==>
          && |recv| == st.info.offset
          && (st.info.offset < st.info.total || st.info.total == 0)
          && st.info.requestCnt <= RETRY_MAX
          && Span(L, st.info.total) <= L.imageMax
          && Content(L, st.mem, st.info.start, st.info.total, st.info.binType, recv)
          && Knows(L, st.info, recv))
  }

  /** The bytes received after a step. */
  function Received(st: State, recv: seq<byte>, e: Event): seq<byte> {
    match e
    case Start(_, _) => if st.info.processStart then recv else []
    case Block(ok, offset, data, _) => if ok && offset == st.info.offset then recv + data else recv
    case Tick => recv
  }

  ghost predicate AllErased(mem: seq<byte>, from: nat, n: nat) {
    forall i :: from <= i < from + n && i < |mem| ==> mem[i] == 255
  }

  function Max(a: nat, b: nat): nat {
    if a < b then b else a
  }

  // ----- ending a session -----

  /** The flash after a session has ended badly in state `st`: swept from the start of the
      slot up to the sector that holds the last byte received, and otherwise untouched. */
  lemma EndSweeps(L: Layout, st: State, status: Status, i: nat)
    requires L.sector > 0 && status != Success && st.info.start % L.sector == 0 && i < |st.mem|
    ensures SendEnd(L, st, status).mem[i]
         == if st.info.start <= i < st.info.start + Span(L, st.info.offset) then 255 else st.mem[i]
  {
    var told := Send(st, End(st.info.total, st.info.offset, status));
    EraseRunAt(L, told, st.info.start, Sectors(L, st.info.offset), i);
  }

  /** If nothing was written behind `offset`, the whole region reads erased afterwards. */
  lemma EndErases(L: Layout, st: State, status: Status)
    requires L.sector > 0 && status != Success && st.info.start % L.sector == 0
    requires forall i :: 0 <= i < |st.mem| ==>
               st.info.start + st.info.offset <= i < st.info.start + Span(L, st.info.total) ==> st.mem[i] == 255
    ensures AllErased(SendEnd(L, st, status).mem, st.info.start, Span(L, Max(st.info.total, st.info.offset)))
  {
    hide Span;
    var start, offset, total := st.info.start, st.info.offset, st.info.total;
    var r := SendEnd(L, st, status);
    forall i | start <= i < start + Span(L, Max(total, offset)) && i < |r.mem|
      ensures r.mem[i] == 255
    {
      EndSweeps(L, st, status, i);
    }
  }
}
