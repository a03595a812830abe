/** The flash chip and its driver: platform/chip_8258/flash.c and proj/drivers/drv_flash.c.
    Programming can only clear bits, erasing sets a whole sector to 0xFF, and one page
    command that runs past the end of its 256-byte page wraps to the start of that page. */
module Flash {
  import opened Words

  const PAGE_SIZE: nat := 256

  // ----- what the chip does -----

  /** Every byte of `data` programmed at its own address. */
  function Programmed(mem: seq<byte>, addr: nat, data: seq<byte>): (r: seq<byte>)
    requires addr + |data| <= |mem|
    ensures |r| == |mem|
  {
    seq(|mem|, i requires 0 <= i < |mem| =>
      if addr <= i < addr + |data| then And(mem[i], data[i - addr]) else mem[i])
  }

  /** How far position `i` of a page lies behind `addr`, going round the page. */
  function PageDistance(addr: nat, i: nat): (d: nat)
    ensures d < PAGE_SIZE
  {
    (i % PAGE_SIZE + PAGE_SIZE - addr % PAGE_SIZE) % PAGE_SIZE
  }

  /** One page program command: the address counter stays inside the page. */
  function PageProgrammed(mem: seq<byte>, addr: nat, data: seq<byte>): (r: seq<byte>)
    requires |data| <= PAGE_SIZE && addr < |mem|
    ensures |r| == |mem|
  {
    seq(|mem|, i requires 0 <= i < |mem| =>
      if i / PAGE_SIZE == addr / PAGE_SIZE && PageDistance(addr, i) < |data|
      then And(mem[i], data[PageDistance(addr, i)]) else mem[i])
  }

  /** The sector of `sector` bytes that contains `addr`, erased. */
  function Erased(mem: seq<byte>, sector: nat, addr: nat): (r: seq<byte>)
    requires sector > 0
    ensures |r| == |mem|
  {
    seq(|mem|, i requires 0 <= i < |mem| => if i / sector == addr / sector then 255 else mem[i])
  }

  /** Programming clears the bits that are written as zeros, and does nothing else. */
  lemma ProgrammingClears(mem: seq<byte>, addr: nat, data: seq<byte>, i: nat, k: nat)
    requires addr + |data| <= |mem| && i < |mem| && k < 8
    ensures Bits8(Programmed(mem, addr, data)[i])[k]
         == (Bits8(mem[i])[k] && (addr <= i < addr + |data| ==> Bits8(data[i - addr])[k]))
  {
    hide Bits8, And;
    if addr <= i < addr + |data| {
      AndMeans(mem[i], data[i - addr], k);
    }
  }

  /** Where the bytes of one command go: the d-th to the place d behind the address, going
      round the 256 bytes of the page; the rest of the page, and the chip, stays as it was. */
  lemma PageCommandWrites(mem: seq<byte>, addr: nat, data: seq<byte>, d: nat)
    requires |data| <= 256 && d < 256 && addr < |mem| && addr - addr % 256 + 256 <= |mem|
    ensures var at := addr - addr % 256 + (addr + d) % 256;
            PageProgrammed(mem, addr, data)[at] == if d < |data| then And(mem[at], data[d]) else mem[at]
    ensures forall i :: 0 <= i < |mem| && !(addr - addr % 256 <= i < addr - addr % 256 + 256) ==>
              PageProgrammed(mem, addr, data)[i] == mem[i]
  {
    var first, at := addr - addr % 256, addr - addr % 256 + (addr + d) % 256;
    assert first % 256 == 0 && at / 256 == addr / 256 && at % 256 == (addr + d) % 256;
    assert PageDistance(addr, at) == d;
    hide And;
  }

  // ----- what the driver makes of it -----

  /** The bytes covered by the first `k` page commands of a write. */
  function Covered(addr: nat, len: nat, k: nat): (n: nat)
    ensures n <= len
    ensures 0 < n < len ==> (addr + n) % PAGE_SIZE == 0
  {
    var n := if k == 0 then 0 else k * PAGE_SIZE - addr % PAGE_SIZE;
    if n <= len then n else len
  }

  lemma WithinPageIsFlat(mem: seq<byte>, addr: nat, data: seq<byte>)
    requires addr % PAGE_SIZE + |data| <= PAGE_SIZE && addr + |data| <= |mem| && addr < |mem|
    ensures PageProgrammed(mem, addr, data) == Programmed(mem, addr, data)
  {
  }

  lemma NothingProgrammed(mem: seq<byte>, addr: nat, data: seq<byte>)
    requires addr <= |mem|
    ensures mem == Programmed(mem, addr, data[..0])
  {
  }

  /** One page command of a write in progress. */
  lemma NextPage(mem: seq<byte>, start: nat, data: seq<byte>, buf: nat, nw: nat)
    requires start + |data| <= |mem| && start + buf < |mem| && buf + nw <= |data|
    requires (start + buf) % PAGE_SIZE + nw <= PAGE_SIZE
    ensures PageProgrammed(Programmed(mem, start, data[..buf]), start + buf, data[buf..buf + nw])
         == Programmed(mem, start, data[..buf + nw])
  {
  }

  lemma CoveredGrows(start: nat, len: nat, pages: nat)
    requires pages == 0 || Covered(start, len, pages) < len
    ensures var buf := Covered(start, len, pages);
            var ns := PAGE_SIZE - (start + buf) % PAGE_SIZE;
            && (pages > 0 ==> ns == PAGE_SIZE)
            && Covered(start, len, pages + 1) == if len - buf > ns then buf + ns else len
  {
  }

  /** A single command across a page boundary damages the start of the page instead: on
      erased memory the page's own first byte changes and the one behind the page does not. */
  lemma CrossingWraps(mem: seq<byte>, addr: nat, data: seq<byte>)
    requires |data| <= PAGE_SIZE && addr + |data| <= |mem|
    requires addr % PAGE_SIZE + |data| > PAGE_SIZE
    requires forall i :: 0 <= i < |mem| ==> mem[i] == 255
    requires forall k :: 0 <= k < |data| ==> data[k] != 255
    ensures var first := addr - addr % PAGE_SIZE;
            && PageProgrammed(mem, addr, data)[first] != 255 == PageProgrammed(mem, addr, data)[first + PAGE_SIZE]
            && Programmed(mem, addr, data)[first] == 255 != Programmed(mem, addr, data)[first + PAGE_SIZE]
  {
    var first := addr - addr % PAGE_SIZE;
    var k := PAGE_SIZE - addr % PAGE_SIZE;
    assert first % PAGE_SIZE == 0 && first / PAGE_SIZE == addr / PAGE_SIZE;
    assert PageDistance(addr, first) == k;
    assert (first + PAGE_SIZE) / PAGE_SIZE != addr / PAGE_SIZE;
    assert addr != first;
    AndOnes(data[k]);
  }

  /** The supply voltage and its fluctuation in millivolts, as measured before a command. */
  datatype Supply = Supply(vol: nat, fluct: nat)

  const SAFE_FLUCT: nat := 500

  class FlashDevice {
    var mem: seq<byte>

    /** Whether the chip is of the kind that must be guarded, and above which voltage it works. */
    const zbit: bool
    const workVol: nat

    constructor (image: seq<byte>, zbit: bool, workVol: nat)
      ensures mem == image && this.zbit == zbit && this.workVol == workVol
    {
      mem := image;
      this.zbit, this.workVol := zbit, workVol;
    }

    predicate Trusts(s: Supply) {
      zbit ==> s.vol > workVol && s.fluct < SAFE_FLUCT
    }

    /** A supply in order. */
    function Steady(): (s: Supply)
      ensures Trusts(s)
    {
      Supply(workVol + 1, 0)
    }

    /** flash_mspi_write_ram with a page program command. The voltage check guards the chips
        that need it; when it refuses, no address and no data are sent. */
    method MspiWrite(addr: nat, data: seq<byte>, s: Supply) returns (ok: bool)
      requires |data| <= PAGE_SIZE && addr < |mem|
      modifies this
      ensures ok <==> (zbit ==> s.vol > workVol && s.fluct < SAFE_FLUCT)
      ensures mem == if ok then PageProgrammed(old(mem), addr, data) else old(mem)
    {
      ok := true;
      if zbit {
        if !(s.vol > workVol && s.fluct < SAFE_FLUCT) {
          ok := false;
        }
      }
      if ok {
        mem := PageProgrammed(mem, addr, data);
      }
    }

    /** flash_write_page: split at page boundaries, stop at the first refused command.
        `supply(k)` is what is measured before the k-th command. */
    method WritePage(start: nat, data: seq<byte>, supply: nat -> Supply) returns (pages: nat)
      requires start + |data| <= |mem| && start < |mem|
      modifies this
      ensures mem == Programmed(old(mem), start, data[..Covered(start, |data|, pages)])
      ensures forall k :: 0 <= k < pages ==> Trusts(supply(k))
      ensures Covered(start, |data|, pages) == |data| || !Trusts(supply(pages))
    {
      hide Programmed, PageProgrammed;
      var addr, buf, len := start, 0, |data|;
      var ns := PAGE_SIZE - addr % PAGE_SIZE;
      pages := 0;
      assert mem == Programmed(mem, start, data[..0]) by { NothingProgrammed(mem, start, data); }
      // the first turn of the do-while loop is taken whatever the length
      var again := true;
      while again
        invariant |mem| == |old(mem)|
        invariant addr == start + buf && buf + len == |data|
        invariant buf == Covered(start, |data|, pages)
        invariant again ==> addr < |mem| && ns == PAGE_SIZE - addr % PAGE_SIZE
        invariant again ==> pages == 0 || len > 0
        invariant mem == Programmed(old(mem), start, data[..buf])
        invariant forall k :: 0 <= k < pages ==> Trusts(supply(k))
        invariant !again ==> len == 0
        decreases again, len
      {
        var nw := if len > ns then ns else len;
        NextPage(old(mem), start, data, buf, nw);
        CoveredGrows(start, |data|, pages);
        var ok := MspiWrite(addr, data[buf..buf + nw], supply(pages));
        if !ok {
          break;
        }
        ns := PAGE_SIZE;
        addr := addr + nw;
        buf := buf + nw;
        len := len - nw;
        pages := pages + 1;
        again := len > 0;
      }
    }

    /** flash_erase_sector. */
    method EraseSector(sector: nat, addr: nat)
      requires sector > 0
      modifies this
      ensures mem == Erased(old(mem), sector, addr)
    {
      mem := Erased(mem, sector, addr);
    }

    /** flash_writeWithCheck: nothing on a low battery, otherwise write, then read back in
        pieces of at most 48 bytes. `pages` says how far the write got. */
    method WriteWithCheck(addr: nat, data: seq<byte>, batteryOk: bool, supply: nat -> Supply)
        returns (same: bool, pages: nat)
      requires addr + |data| <= |mem| && addr < |mem|
      modifies this
      ensures !batteryOk ==> mem == old(mem) && !same
      ensures batteryOk ==>
                && mem == Programmed(old(mem), addr, data[..Covered(addr, |data|, pages)])
                && (Covered(addr, |data|, pages) == |data| || !Trusts(supply(pages)))
                && (same <==> mem[addr..addr + |data|] == data)
    {
      if !batteryOk {
        return false, 0;
      }
      pages := WritePage(addr, data, supply);
      hide Programmed;
      same := true;
      var done := 0;
      while done < |data| && same
        invariant 0 <= done <= |data|
        invariant same ==> forall k :: 0 <= k < done ==> mem[addr + k] == data[k]
        invariant !same ==> exists k :: 0 <= k < |data| && mem[addr + k] != data[k]
        decreases same, |data| - done
      {
        var wLen := if |data| - done > 48 then 48 else |data| - done;
        var read, src := mem[addr + done..addr + done + wLen], data[done..done + wLen];
        same := read == src;
        forall k | done <= k < done + wLen
          ensures same ==> mem[addr + k] == data[k]
        {
          assert read[k - done] == mem[addr + k] && src[k - done] == data[k];
        }
        done := done + wLen;
      }
    }
  }
}
