/** The request builder and the three response parsers of apps/epeverMonitor/epeverMonitor.c,
    against the frame format of Modbus Application Protocol V1.1b3, section 6.4. Values are
    the raw register integers; the firmware divides them by 100 afterwards. */
module ModbusFrames {
  import opened Words
  import opened ModbusCrc
  import opened CrcAlgebra

  const SLAVE_ID: byte := 1
  const FUNC_READ: byte := 4

  // ----- frames as the protocol defines them -----

  /** A message followed by its checksum, low byte first. */
  function Sealed(body: seq<byte>): (frame: seq<byte>)
    ensures |frame| == |body| + 2 && frame[..|body|] == body
  {
    var c := Crc(body);
    body + [LowByte(c), HighByte(c)]
  }

  function LowByte(c: Bits): byte
    requires |c| == 16
  {
    BitsOfValue(c[..8]);
    BytesHaveEightBits();
    Value(c[..8])
  }

  function HighByte(c: Bits): byte
    requires |c| == 16
  {
    BitsOfValue(c[8..]);
    BytesHaveEightBits();
    Value(c[8..])
  }

  lemma RegisterIsItsBytes(c: Bits)
    requires |c| == 16
    ensures c == Bits8(LowByte(c)) + Bits8(HighByte(c))
  {
    BitsOfValue(c[..8]);
    BitsOfValue(c[8..]);
    assert c == c[..8] + c[8..];
  }

  /** A register in transmission order. */
  function Bytes(x: word): (b: seq<byte>)
    ensures |b| == 2
  {
    [x / 256, x % 256]
  }

  function AllBytes(regs: seq<word>): (b: seq<byte>)
    ensures |b| == 2 * |regs|
  {
    if regs == [] then [] else AllBytes(regs[..|regs| - 1]) + Bytes(regs[|regs| - 1])
  }

  /** Request to read `count` input registers from `addr` on. */
  function Request(slave: byte, func: byte, addr: word, count: word): (frame: seq<byte>)
    ensures |frame| == 8
  {
    Sealed([slave, func] + Bytes(addr) + Bytes(count))
  }

  /** The answer that carries `regs`. */
  function Response(regs: seq<word>): (frame: seq<byte>)
    requires |regs| < 128
    ensures |frame| == 3 + 2 * |regs| + 2
  {
    Sealed([SLAVE_ID, FUNC_READ, 2 * |regs|] + AllBytes(regs))
  }

  /** REG_BE. */
  function Reg(buf: seq<byte>, i: nat): word
    requires 3 + 2 * i + 2 <= |buf|
  {
    var hi: int := buf[3 + 2 * i];
    256 * hi + buf[3 + 2 * i + 1]
  }

  function Registers(buf: seq<byte>, count: nat): (regs: seq<word>)
    requires 3 + 2 * count <= |buf|
    ensures |regs| == count
  {
    seq(count, i requires 0 <= i < count => Reg(buf, i))
  }

  /** What a parser accepts from a buffer with `len` bytes received. */
  predicate ValidResponse(buf: seq<byte>, len: nat, count: nat)
    requires len <= |buf|
  {
    var expected := 3 + count * 2 + 2;
    && len >= expected
    && buf[0] == SLAVE_ID && buf[1] == FUNC_READ && buf[2] == count * 2
    && CrcTest(buf, expected)
  }

  // ----- round trips -----

  lemma SealedPasses(body: seq<byte>)
    ensures CrcTest(Sealed(body), |body| + 2) && Crc(Sealed(body)) == Zeros(16)
  {
    RegisterIsItsBytes(Crc(body));
    PassesIffZeroResidue(Sealed(body));
  }

  lemma TestedIsSealed(frame: seq<byte>)
    requires 2 <= |frame| && CrcTest(frame, |frame|)
    ensures frame == Sealed(frame[..|frame| - 2])
  {
    hide Crc, Bits8;
    var n := |frame| - 2;
    var c := Crc(frame[..n]);
    var lo, hi := Bits8(frame[n]), Bits8(frame[n + 1]);
    RegisterIsItsBytes(c);
    assert c[..8] == lo == Bits8(LowByte(c)) && c[8..] == hi == Bits8(HighByte(c));
    Bits8Injective(frame[n], LowByte(c));
    Bits8Injective(frame[n + 1], HighByte(c));
    assert frame == frame[..n] + [frame[n], frame[n + 1]];
  }

  lemma {:induction false} AllBytesAt(regs: seq<word>, i: nat)
    requires i < |regs|
    ensures AllBytes(regs)[2 * i] == regs[i] / 256 && AllBytes(regs)[2 * i + 1] == regs[i] % 256
  {
    if i < |regs| - 1 {
      AllBytesAt(regs[..|regs| - 1], i);
    }
  }

  /** The registers of an answer are read back as they were sent, whatever follows it. */
  lemma ResponseReads(regs: seq<word>, tail: seq<byte>)
    requires |regs| < 128
    ensures Registers(Response(regs) + tail, |regs|) == regs
  {
    var buf := Response(regs) + tail;
    forall i: nat | i < |regs|
      ensures Reg(buf, i) == regs[i]
    {
      AllBytesAt(regs, i);
      assert buf[3 + 2 * i] == AllBytes(regs)[2 * i] && buf[3 + 2 * i + 1] == AllBytes(regs)[2 * i + 1];
    }
  }

  lemma TestIgnoresTail(frame: seq<byte>, tail: seq<byte>)
    requires 2 <= |frame|
    ensures CrcTest(frame + tail, |frame|) <==> CrcTest(frame, |frame|)
  {
    assert (frame + tail)[..|frame| - 2] == frame[..|frame| - 2];
  }

  lemma {:induction false} BytesOfRegisters(regs: seq<word>, buf: seq<byte>)
    requires 3 + 2 * |regs| <= |buf|
    requires forall i :: 0 <= i < |regs| ==> regs[i] == Reg(buf, i)
    ensures AllBytes(regs) == buf[3..3 + 2 * |regs|]
  {
    if regs != [] {
      var k := |regs| - 1;
      BytesOfRegisters(regs[..k], buf);
      assert Bytes(regs[k]) == [buf[3 + 2 * k], buf[3 + 2 * k + 1]];
      assert buf[3..3 + 2 * |regs|] == buf[3..3 + 2 * k] + [buf[3 + 2 * k], buf[3 + 2 * k + 1]];
    }
  }

  lemma ResponseAt(regs: seq<word>, i: nat)
    requires |regs| < 128 && i < 3
    ensures Response(regs)[i] == [SLAVE_ID, FUNC_READ, 2 * |regs|][i]
  {
  }

  lemma AcceptedStarts(buf: seq<byte>, len: nat, count: nat)
    requires len <= |buf| && count < 128 && ValidResponse(buf, len, count)
    ensures buf[..3 + 2 * count + 2] == Response(Registers(buf, count))
  {
    hide Crc, Reg;
    var n := 3 + 2 * count + 2;
    var frame, regs := buf[..n], Registers(buf, count);
    BytesOfRegisters(regs, buf);
    assert buf == frame + buf[n..];
    TestIgnoresTail(frame, buf[n..]);
    hide CrcTest;
    TestedIsSealed(frame);
    assert frame[..n - 2] == [SLAVE_ID, FUNC_READ, 2 * count] + AllBytes(regs);
  }

  lemma ResponseIsAccepted(buf: seq<byte>, len: nat, count: nat, regs: seq<word>)
    requires 3 + 2 * count + 2 <= len <= |buf| && |regs| == count < 128
    requires buf[..3 + 2 * count + 2] == Response(regs)
    ensures ValidResponse(buf, len, count)
  {
    hide Crc, AllBytes, CrcTest, Sealed;
    var n := 3 + 2 * count + 2;
    var frame := buf[..n];
    SealedPasses([SLAVE_ID, FUNC_READ, 2 * count] + AllBytes(regs));
    assert buf == frame + buf[n..];
    TestIgnoresTail(frame, buf[n..]);
    ResponseAt(regs, 0);
    ResponseAt(regs, 1);
    ResponseAt(regs, 2);
    assert buf[0] == frame[0] && buf[1] == frame[1] && buf[2] == frame[2];
  }

  /** A buffer is accepted exactly when it starts with the answer that carries the registers
      read from it. */
  lemma AcceptedIsResponse(buf: seq<byte>, len: nat, count: nat)
    requires len <= |buf| && count < 128
    ensures ValidResponse(buf, len, count) <==>
              3 + 2 * count + 2 <= len && buf[..3 + 2 * count + 2] == Response(Registers(buf, count))
  {
    hide CrcTest, Response;
    if ValidResponse(buf, len, count) {
      AcceptedStarts(buf, len, count);
    } else if 3 + 2 * count + 2 <= len && buf[..3 + 2 * count + 2] == Response(Registers(buf, count)) {
      ResponseIsAccepted(buf, len, count, Registers(buf, count));
    }
  }

  /** Different requests look different, and every one passes the receiver's test. */
  lemma RequestsAreDistinct(a: (byte, byte, word, word), b: (byte, byte, word, word))
    requires Request(a.0, a.1, a.2, a.3) == Request(b.0, b.1, b.2, b.3)
    ensures a == b
  {
    var f, g := Request(a.0, a.1, a.2, a.3), Request(b.0, b.1, b.2, b.3);
    assert f[0] == a.0 && f[1] == a.1 && f[2] == a.2 / 256 && f[3] == a.2 % 256;
    assert f[4] == a.3 / 256 && f[5] == a.3 % 256;
    assert g[0] == b.0 && g[1] == b.1 && g[2] == b.2 / 256 && g[3] == b.2 % 256;
    assert g[4] == b.3 / 256 && g[5] == b.3 % 256;
  }

  /** Where everything is in a request: high bytes first, and the checksum that clears the
      register behind it. */
  lemma RequestLayout(slave: byte, func: byte, addr: word, count: word)
    ensures var f := Request(slave, func, addr, count);
            && f[0] == slave && f[1] == func
            && 256 * (f[2] as int) + f[3] == addr && 256 * (f[4] as int) + f[5] == count
            && Crc(f) == Zeros(16)
  {
    SealedPasses([slave, func] + Bytes(addr) + Bytes(count));
    hide Crc;
  }

  /** Where everything is in an answer. */
  lemma ResponseLayout(regs: seq<word>)
    requires |regs| < 128
    ensures var f := Response(regs);
            && |f| == 5 + 2 * |regs| && f[0] == 1 && f[1] == 4 && f[2] == 2 * |regs| && Crc(f) == Zeros(16)
            && forall i :: 0 <= i < |regs| ==> 256 * (f[3 + 2 * i] as int) + f[4 + 2 * i] == regs[i]
  {
    var body := [SLAVE_ID, FUNC_READ, 2 * |regs|] + AllBytes(regs);
    SealedPasses(body);
    hide Crc, AllBytes;
    var f := Response(regs);
    assert f == Sealed(body);
    forall i: nat | i < |regs|
      ensures 256 * (f[3 + 2 * i] as int) + f[4 + 2 * i] == regs[i]
    {
      AllBytesAt(regs, i);
      assert f[3 + 2 * i] == AllBytes(regs)[2 * i] && f[3 + 2 * i + 1] == AllBytes(regs)[2 * i + 1];
    }
    assert f[0] == body[0] && f[1] == body[1] && f[2] == body[2];
  }

  /** modbus_build_request. */
  method BuildRequest(buf: array<byte>, slave: byte, func: byte, addr: word, count: word)
    requires 8 <= buf.Length
    modifies buf
    ensures buf[..8] == Request(slave, func, addr, count) && buf[8..] == old(buf[8..])
  {
    buf[0] := slave;
    buf[1] := func;
    buf[2] := addr / 256 % 256;
    buf[3] := addr % 256;
    buf[4] := count / 256 % 256;
    buf[5] := count % 256;
    ghost var body := [slave, func] + Bytes(addr) + Bytes(count);
    assert buf[..6] == body;
    hide Crc;
    var crc := Crc16(buf, 6);
    buf[6] := LowByte(crc);
    buf[7] := HighByte(crc);
    assert buf[..8] == body + [LowByte(crc), HighByte(crc)];
  }

  // ----- the record the parsers fill in -----

  /** epever_data_t, in raw register units. */
  datatype Record = Record(solarVolt: word, solarCurr: word, solarPow: u32, batVolt: word, batCurr: word, chgPow: u32,
                           loadVolt: word, loadCurr: word, loadPow: u32, batTemp: word, devTemp: word,
                           batSoc: byte, valid: bool)

  const ZERO_RECORD: Record := Record(0, 0, 0, 0, 0, 0, 0, 0, 0, 0, 0, 0, false)

  function Long(hi: word, lo: word): u32 {
    0x1_0000 * (hi as int) + lo
  }

  const COUNT1: nat := 8
  const COUNT2: nat := 6
  const COUNT3: nat := 1

  function WithSolar(r: Record, q: seq<word>): Record
    requires |q| == COUNT1
  {
    r.(solarVolt := q[0], solarCurr := q[1], solarPow := Long(q[3], q[2]),
       batVolt := q[4], batCurr := q[5], chgPow := Long(q[7], q[6]))
  }

  function WithLoad(r: Record, q: seq<word>): Record
    requires |q| == COUNT2
  {
    r.(loadVolt := q[0], loadCurr := q[1], loadPow := Long(q[3], q[2]), batTemp := q[4], devTemp := q[5])
  }

  function WithCharge(r: Record, q: seq<word>): Record
    requires |q| == COUNT3
  {
    r.(batSoc := q[0] % 256, valid := true)
  }

  /** What the registers stand for, by the addresses of the charge controller: 0x3100 to 0x3107,
      0x310C to 0x3111 and 0x311A. A power has its low word first. */
  predicate Shows(r: Record, solar: seq<word>, load: seq<word>, charge: seq<word>)
    requires |solar| == 8 && |load| == 6 && |charge| == 1
  {
    && r.solarVolt == solar[0] && r.solarCurr == solar[1]
    && r.solarPow == 65536 * (solar[3] as int) + solar[2]
    && r.batVolt == solar[4] && r.batCurr == solar[5]
    && r.chgPow == 65536 * (solar[7] as int) + solar[6]
    && r.loadVolt == load[0] && r.loadCurr == load[1]
    && r.loadPow == 65536 * (load[3] as int) + load[2]
    && r.batTemp == load[4] && r.devTemp == load[5]
    && r.batSoc == charge[0] % 256 && r.valid
  }

  /** Each segment fills in its own fields and leaves the others alone. */
  lemma SegmentsShow(r: Record, solar: seq<word>, load: seq<word>, charge: seq<word>)
    requires |solar| == 8 && |load| == 6 && |charge| == 1
    ensures Shows(WithCharge(WithLoad(WithSolar(r, solar), load), charge), solar, load, charge)
    ensures var s := WithSolar(r, solar);
            s == r.(solarVolt := s.solarVolt, solarCurr := s.solarCurr, solarPow := s.solarPow,
                    batVolt := s.batVolt, batCurr := s.batCurr, chgPow := s.chgPow)
    ensures var s := WithLoad(r, load);
            s == r.(loadVolt := s.loadVolt, loadCurr := s.loadCurr, loadPow := s.loadPow,
                    batTemp := s.batTemp, devTemp := s.devTemp)
    ensures WithCharge(r, charge) == r.(batSoc := charge[0] % 256, valid := true)
  {
  }

  /** The record that accumulates over one poll cycle. */
  class PollData {
    var value: Record

    constructor ()
      ensures value == ZERO_RECORD
    {
      value := ZERO_RECORD;
    }
  }

  /** The tests the three parsers share. */
  method CheckResponse(buf: array<byte>, len: nat, count: nat) returns (ok: bool)
    requires len <= buf.Length && count < 128
    ensures ok <==> ValidResponse(buf[..], len, count)
  {
    hide Crc;
    var expected := 3 + count * 2 + 2;
    if len < expected { return false; }
    if buf[0] != SLAVE_ID { return false; }
    if buf[1] != FUNC_READ { return false; }
    if buf[2] != count * 2 { return false; }
    var crcCalc := Crc16(buf, expected - 2);
    var crcRecv := Bits8(buf[expected - 2]) + Bits8(buf[expected - 1]);
    assert buf[..][..expected - 2] == buf[..expected - 2];
    return crcCalc == crcRecv;
  }

  /** epever_parse_rsp1. */
  method ParseRsp1(buf: array<byte>, len: nat, out: PollData) returns (ok: bool)
    requires len <= buf.Length
    modifies out
    ensures ok <==> ValidResponse(buf[..], len, COUNT1)
    ensures out.value == if ok then WithSolar(old(out.value), Registers(buf[..], COUNT1)) else old(out.value)
  {
    hide CrcTest;
    ok := CheckResponse(buf, len, COUNT1);
    if ok {
      var d := buf[..];
      var solPow, chgPow := Long(Reg(d, 3), Reg(d, 2)), Long(Reg(d, 7), Reg(d, 6));
      out.value := out.value.(solarVolt := Reg(d, 0), solarCurr := Reg(d, 1), solarPow := solPow);
      out.value := out.value.(batVolt := Reg(d, 4), batCurr := Reg(d, 5), chgPow := chgPow);
    }
  }

  /** epever_parse_rsp2. */
  method ParseRsp2(buf: array<byte>, len: nat, out: PollData) returns (ok: bool)
    requires len <= buf.Length
    modifies out
    ensures ok <==> ValidResponse(buf[..], len, COUNT2)
    ensures out.value == if ok then WithLoad(old(out.value), Registers(buf[..], COUNT2)) else old(out.value)
  {
    hide CrcTest;
    ok := CheckResponse(buf, len, COUNT2);
    if ok {
      var d := buf[..];
      var loadPow := Long(Reg(d, 3), Reg(d, 2));
      out.value := out.value.(loadVolt := Reg(d, 0), loadCurr := Reg(d, 1), loadPow := loadPow);
      out.value := out.value.(batTemp := Reg(d, 4), devTemp := Reg(d, 5));
    }
  }

  /** epever_parse_rsp3. */
  method ParseRsp3(buf: array<byte>, len: nat, out: PollData) returns (ok: bool)
    requires len <= buf.Length
    modifies out
    ensures ok <==> ValidResponse(buf[..], len, COUNT3)
    ensures out.value == if ok then WithCharge(old(out.value), Registers(buf[..], COUNT3)) else old(out.value)
  {
    hide CrcTest;
    ok := CheckResponse(buf, len, COUNT3);
    if ok {
      out.value := out.value.(batSoc := Reg(buf[..], 0) % 256, valid := true);
    }
  }
}
