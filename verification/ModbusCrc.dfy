/** The Modbus RTU checksum of apps/epeverMonitor/epeverMonitor.c, read three ways: the
    byte-at-a-time loop of the firmware, a bit-serial shift register, and the remainder of
    a polynomial division over GF(2) (MODBUS over Serial Line V1.02, section 6.2.2).
    The 16-bit register is the list of its bits, least significant first. */
module ModbusCrc {
  import opened Words

  // ----- the shift register -----

  /** 0xA001: bits 0, 13 and 15. */
  function Poly(): (p: Bits)
    ensures |p| == 16
  {
    [true] + Zeros(12) + [true, false, true]
  }

  function ShiftRight(c: Bits): (d: Bits)
    requires |c| == 16
    ensures |d| == 16
  {
    c[1..] + [false]
  }

  /** One message bit enters the register: shift, and feed back when the bit falling out
      differs from the message bit. */
  function BitStep(c: Bits, bit: bool): (d: Bits)
    requires |c| == 16
    ensures |d| == 16
  {
    if c[0] != bit then Xor(ShiftRight(c), Poly()) else ShiftRight(c)
  }

  function CrcBits(c: Bits, bits: Bits): (d: Bits)
    requires |c| == 16
    ensures |d| == 16
  {
    if bits == [] then c else BitStep(CrcBits(c, bits[..|bits| - 1]), bits[|bits| - 1])
  }

  /** The bits of a frame in the order they travel. */
  function Wire(buf: seq<byte>): (bits: Bits)
    ensures |bits| == 8 * |buf|
  {
    if buf == [] then [] else Wire(buf[..|buf| - 1]) + Bits8(buf[|buf| - 1])
  }

  function Crc(buf: seq<byte>): (c: Bits)
    ensures |c| == 16
  {
    CrcBits(Ones(16), Wire(buf))
  }

  lemma {:induction false} CrcAppend(c: Bits, a: Bits, b: Bits)
    requires |c| == 16
    ensures CrcBits(c, a + b) == CrcBits(CrcBits(c, a), b)
  {
    if b == [] {
      assert a + b == a;
    } else {
      CrcAppend(c, a, b[..|b| - 1]);
      assert (a + b)[..|a + b| - 1] == a + b[..|b| - 1];
    }
  }

  lemma CrcOneMore(c: Bits, bits: Bits, bit: bool)
    requires |c| == 16
    ensures CrcBits(c, bits + [bit]) == BitStep(CrcBits(c, bits), bit)
  {
  }

  /** Bits already loaded above the lowest wait their turn while the register shifts. */
  lemma LoadedBitsWait(c: Bits, bit: bool, waiting: Bits)
    requires |c| == 16 && |waiting| == 15
    ensures Xor(c, [bit] + waiting)[0] == (c[0] != bit)
    ensures (var s := ShiftRight(Xor(c, [bit] + waiting));
             (if c[0] != bit then Xor(s, Poly()) else s) == Xor(BitStep(c, bit), waiting + [false]))
  {
  }

  /** One pass of the firmware's inner loop. */
  function Shift(c: Bits): (d: Bits)
    requires |c| == 16
    ensures |d| == 16
  {
    if c[0] then Xor(ShiftRight(c), Poly()) else ShiftRight(c)
  }

  /** After `j` shifts of a register loaded with byte bits `b`, `j` bits have been consumed
      and the rest still lie over the register. */
  ghost predicate Loaded(crc: Bits, before: Bits, b: Bits, j: nat)
    requires |before| == 16 && |b| == 8 && j <= 8
  {
    crc == Xor(CrcBits(before, b[..j]), b[j..] + Zeros(8 + j))
  }

  lemma LoadedShift(crc: Bits, before: Bits, b: Bits, j: nat)
    requires |before| == 16 && |b| == 8 && j < 8 && Loaded(crc, before, b, j)
    ensures |crc| == 16 && Loaded(Shift(crc), before, b, j + 1)
  {
    hide BitStep, Xor, Poly, ShiftRight, Zeros, CrcBits;
    var c := CrcBits(before, b[..j]);
    var waiting := b[j + 1..] + Zeros(8 + j);
    assert b[j..] + Zeros(8 + j) == [b[j]] + waiting;
    LoadedBitsWait(c, b[j], waiting);
    CrcOneMore(before, b[..j], b[j]);
    assert b[..j] + [b[j]] == b[..j + 1];
    OneMoreZero(8 + j);
    assert waiting + [false] == b[j + 1..] + Zeros(9 + j);
  }

  lemma OneMoreZero(n: nat)
    ensures Zeros(n + 1) == Zeros(n) + [false]
  {
  }

  lemma LoadedEnds(crc: Bits, before: Bits, b: Bits)
    requires |before| == 16 && |b| == 8
    ensures Loaded(Xor(before, b + Zeros(8)), before, b, 0)
    ensures Loaded(crc, before, b, 8) ==> crc == CrcBits(before, b)
  {
    assert b[..0] == [] && b[0..] == b && b[..8] == b && b[8..] == [];
    assert Xor(CrcBits(before, b), [] + Zeros(16)) == CrcBits(before, b);
  }

  /** The firmware's loop: whole bytes are loaded and then shifted out. */
  method Crc16(buf: array<byte>, len: nat) returns (crc: Bits)
    requires len <= buf.Length
    ensures crc == Crc(buf[..len])
  {
    crc := Ones(16);
    var i := 0;
    while i < len
      invariant 0 <= i <= len
      invariant crc == Crc(buf[..i])
    {
      ghost var before, b := crc, Bits8(buf[i]);
      crc := Xor(crc, Bits8(buf[i]) + Zeros(8));
      LoadedEnds(crc, before, b);
      var j := 0;
      while j < 8
        invariant 0 <= j <= 8
        invariant |crc| == 16 && Loaded(crc, before, b, j)
      {
        LoadedShift(crc, before, b, j);
        if crc[0] {
          crc := Xor(ShiftRight(crc), Poly());
        } else {
          crc := ShiftRight(crc);
        }
        j := j + 1;
      }
      LoadedEnds(crc, before, b);
      CrcAppend(Ones(16), Wire(buf[..i]), b);
      assert buf[..i + 1][..i] == buf[..i];
      i := i + 1;
    }
  }
}
