/** The bit-banged I2C transmitter of apps/pwm5ch/i2c_sw.c, heard by a listener that knows
    only the bus lines (UM10204, sections 3.1.3 to 3.1.6). */
module I2cMaster {
  import opened Words

  /** The levels of the two lines, and what the master alone does with SDA (true is released),
      which nobody can hear while the slave holds it down. */
  datatype Line = Line(scl: bool, sda: bool, driven: bool)

  /** What the master drives (true is released), what the slave holds down, and every level
      the bus has had. `falls` is the slave's count of falling clock edges since the one that
      follows START. */
  datatype Bus = Bus(sda: bool, scl: bool, pull: bool, falls: int, trace: seq<Line>)

  /** Both lines are open drain. */
  function Level(b: Bus): Line {
    Line(b.scl, b.sda && !b.pull, b.sda)
  }

  function Record(b: Bus): Bus {
    b.(trace := b.trace + [Level(b)])
  }

  /** The master sets SDA. The slave starts counting anew when SDA changes under a high clock. */
  function SetSda(b: Bus, v: bool): Bus {
    Record(b.(sda := v, falls := if b.scl && !b.pull && v != b.sda then -1 else b.falls))
  }

  /** The master sets SCL. After the eighth falling edge of the k-th byte the slave pulls SDA
      down if it acknowledges that byte, and it lets go after the ninth. */
  function SetScl(b: Bus, v: bool, acks: nat -> bool): Bus {
    if v || !b.scl then Record(b.(scl := v))
    else
      var low := Record(b.(scl := false, falls := b.falls + 1));
      var pull := low.falls >= 0 && low.falls % 9 == 8 && acks(low.falls / 9);
      if pull == low.pull then low else Record(low.(pull := pull))
  }

  // ----- the master -----

  function Start(b: Bus, acks: nat -> bool): Bus {
    SetScl(SetSda(SetScl(SetSda(b, true), true, acks), false), false, acks)
  }

  function Stop(b: Bus, acks: nat -> bool): Bus {
    SetSda(SetScl(SetSda(b, false), true, acks), true)
  }

  function Clocked(b: Bus, acks: nat -> bool): Bus {
    SetScl(SetScl(b, true, acks), false, acks)
  }

  /** Bits most significant first. */
  function SendBits(b: Bus, bits: Bits, acks: nat -> bool): Bus {
    if bits == [] then b else Clocked(SetSda(SendBits(b, bits[..|bits| - 1], acks), bits[|bits| - 1]), acks)
  }

  function Reverse(bits: Bits): (r: Bits)
    ensures |r| == |bits|
  {
    if bits == [] then [] else Reverse(bits[1..]) + [bits[0]]
  }

  /** All of a byte but the acknowledgement. */
  function SendByte(b: Bus, x: byte, acks: nat -> bool): Bus {
    SendBits(b, Reverse(Bits8(x)), acks)
  }

  /** The acknowledgement the master reads, with SDA released and SCL high. */
  function AckRead(b: Bus, acks: nat -> bool): bool {
    !Level(SetScl(SetSda(b, true), true, acks)).sda
  }

  function WriteByte(b: Bus, x: byte, acks: nat -> bool): Bus {
    Clocked(SetSda(SendByte(b, x, acks), true), acks)
  }

  /** Bytes until one is not acknowledged. */
  function WriteBytes(b: Bus, data: seq<byte>, acks: nat -> bool): (r: (Bus, bool))
    decreases |data|
  {
    if data == [] then (b, true)
    else
      var sent := WriteByte(b, data[0], acks);
      if AckRead(SendByte(b, data[0], acks), acks) then WriteBytes(sent, data[1..], acks) else (sent, false)
  }

  /** i2c_sw_write. */
  function Transfer(b: Bus, addr7: byte, data: seq<byte>, acks: nat -> bool): (r: (Bus, bool)) {
    var (sent, ok) := WriteBytes(Start(b, acks), [addr7 * 2 % 256] + data, acks);
    (Stop(sent, acks), ok)
  }

  // ----- the listener -----

  datatype Item = Started | Stopped | Sent(value: nat, ack: bool)

  /** Bits of the byte under way, and what has been heard. */
  datatype Ear = Ear(bits: Bits, items: seq<Item>)

  function Msb(bits: Bits): nat {
    if bits == [] then 0 else 2 * Msb(bits[..|bits| - 1]) + if bits[|bits| - 1] then 1 else 0
  }

  /** One change of the lines: SDA changing under a high clock is START or STOP, a rising
      clock carries a bit, and every ninth bit is an acknowledgement. */
  function Hear(ear: Ear, before: Line, now: Line): Ear {
    if before.scl && now.scl && before.sda && !now.sda then Ear([], ear.items + [Started])
    else if before.scl && now.scl && !before.sda && now.sda then Ear([], ear.items + [Stopped])
    else if !before.scl && now.scl then
      if |ear.bits| < 8 then ear.(bits := ear.bits + [now.sda])
      else Ear([], ear.items + [Sent(Msb(ear.bits[..8]), !now.sda)])
    else ear
  }

  function Heard(trace: seq<Line>): Ear {
    if |trace| <= 1 then Ear([], [])
    else Hear(Heard(trace[..|trace| - 1]), trace[|trace| - 2], trace[|trace| - 1])
  }

  // ----- what is heard -----

  /** Whenever the master has moved SDA under a high clock, a START or a STOP has been heard. */
  ghost predicate Steady(trace: seq<Line>) {
    if |trace| <= 1 then true
    else
      var front, before, now := trace[..|trace| - 1], trace[|trace| - 2], trace[|trace| - 1];
      && Steady(front)
      && (before.scl && now.scl && before.driven != now.driven ==>
            Hear(Heard(front), before, now).items
            == Heard(front).items + [if now.driven then Stopped else Started])
  }

  /** The trace is up to date with the lines, and the master has moved SDA under a high clock
      only for START and STOP. */
  ghost predicate Current(b: Bus) {
    b.trace != [] && b.trace[|b.trace| - 1] == Level(b) && Steady(b.trace)
  }

  ghost function Listening(b: Bus): Ear {
    Heard(b.trace)
  }

  lemma RecordHeard(b: Bus, r: Bus)
    requires Current(b) && r.trace == b.trace + [Level(r)]
    requires b.scl && r.scl && b.sda != r.sda ==> !b.pull && !r.pull
    ensures Current(r) && Listening(r) == Hear(Listening(b), Level(b), Level(r))
  {
  }

  lemma SdaHeard(b: Bus, v: bool)
    requires Current(b) && (b.scl && v != b.sda ==> !b.pull)
    ensures var r := SetSda(b, v);
            && Current(r) && Listening(r) == Hear(Listening(b), Level(b), Level(r))
  {
  }

  /** A falling clock is silent, whatever the slave does with SDA then. */
  lemma FallHeard(b: Bus, acks: nat -> bool)
    requires Current(b) && b.scl
    ensures var r := SetScl(b, false, acks);
            && Current(r) && Listening(r) == Listening(b)
  {
    var low := Record(b.(scl := false, falls := b.falls + 1));
    RecordHeard(b, low);
    var r := SetScl(b, false, acks);
    if r != low {
      RecordHeard(low, r);
    }
  }

  lemma RiseHeard(b: Bus, acks: nat -> bool)
    requires Current(b)
    ensures var r := SetScl(b, true, acks);
            && Current(r) && Listening(r) == Hear(Listening(b), Level(b), Level(r))
  {
  }

  /** A clock pulse over a settled SDA carries exactly that level. */
  lemma PulseHeard(b: Bus, acks: nat -> bool)
    requires Current(b) && !b.scl
    ensures var r := Clocked(b, acks);
            && Current(r) && !r.scl && r.sda == b.sda && r.falls == b.falls + 1
            && r.pull == (r.falls >= 0 && r.falls % 9 == 8 && acks(r.falls / 9))
            && Listening(r) == Hear(Listening(b), Level(b), Level(b).(scl := true))
  {
    RiseHeard(b, acks);
    FallHeard(SetScl(b, true, acks), acks);
  }

  /** Ready for the k-th byte: the clock is low and nothing of the byte has been heard. */
  ghost predicate Ready(b: Bus, k: nat) {
    Current(b) && !b.scl && !b.pull && b.falls == 9 * k && Listening(b).bits == []
  }

  lemma BitHeard(b: Bus, bit: bool, k: nat, n: nat, acks: nat -> bool)
    requires Current(b) && !b.scl && !b.pull && b.falls == 9 * k + n && |Listening(b).bits| == n < 8
    ensures var r := Clocked(SetSda(b, bit), acks);
            && Current(r) && !r.scl && r.falls == 9 * k + n + 1 && r.pull == (n == 7 && acks(k))
            && Listening(r) == Ear(Listening(b).bits + [bit], Listening(b).items)
  {
    hide Heard;
    SdaHeard(b, bit);
    PulseHeard(SetSda(b, bit), acks);
    FallCount(k, n + 1);
  }

  lemma ReadyIs(b: Bus, k: nat)
    requires Ready(b, k)
    ensures Current(b) && !b.scl && !b.pull && b.falls == 9 * k && Listening(b).bits == []
  {
  }

  lemma {:induction false} BitsHeard(b: Bus, k: nat, bits: Bits, acks: nat -> bool)
    requires Ready(b, k) && |bits| <= 8
    ensures var r := SendBits(b, bits, acks);
            && Current(r) && !r.scl && r.falls == 9 * k + |bits|
            && r.pull == (|bits| == 8 && acks(k))
            && Listening(r) == Ear(bits, Listening(b).items)
  {
    hide Heard, SetSda, Clocked, Current, Ready, Listening;
    ReadyIs(b, k);
    if bits != [] {
      var front := bits[..|bits| - 1];
      BitsHeard(b, k, front, acks);
      BitHeard(SendBits(b, front, acks), bits[|bits| - 1], k, |front|, acks);
      assert front + [bits[|bits| - 1]] == bits;
    }
  }

  lemma FallCount(k: nat, n: nat)
    requires n < 9
    ensures (9 * k + n) % 9 == n && (9 * k + n) / 9 == k
  {
  }

  lemma {:induction false} MsbOfReverse(bits: Bits)
    ensures Msb(Reverse(bits)) == Value(bits)
  {
    if bits != [] {
      MsbOfReverse(bits[1..]);
      assert Reverse(bits)[..|bits| - 1] == Reverse(bits[1..]);
    }
  }

  lemma ByteArrives(x: byte)
    ensures Msb(Reverse(Bits8(x))) == x
  {
    MsbOfReverse(Bits8(x));
    BytesHaveEightBits();
    ValueOfBits(x, 8);
  }

  /** One byte: the listener hears it and the acknowledgement, and the master reads the same
      acknowledgement. */
  lemma ByteHeard(b: Bus, k: nat, x: byte, acks: nat -> bool)
    requires Ready(b, k)
    ensures Ready(WriteByte(b, x, acks), k + 1)
    ensures Listening(WriteByte(b, x, acks)).items == Listening(b).items + [Sent(x, acks(k))]
    ensures AckRead(SendByte(b, x, acks), acks) == acks(k)
  {
    hide Heard;
    var bits := Reverse(Bits8(x));
    BitsHeard(b, k, bits, acks);
    ByteArrives(x);
    var sent := SendByte(b, x, acks);
    SdaHeard(sent, true);
    PulseHeard(SetSda(sent, true), acks);
    FallCount(k + 1, 0);
    assert bits[..8] == bits;
  }

  /** The bytes that go out: up to and including the first one not acknowledged. */
  function Outgoing(data: seq<byte>, k: nat, acks: nat -> bool): (n: nat)
    ensures n <= |data|
    decreases |data|
  {
    if data == [] then 0 else if acks(k) then 1 + Outgoing(data[1..], k + 1, acks) else 1
  }

  function Spoken(data: seq<byte>, k: nat, acks: nat -> bool): (items: seq<Item>)
    ensures |items| == |data|
  {
    seq(|data|, i requires 0 <= i < |data| => Sent(data[i], acks(k + i)))
  }

  lemma SpokenGrows(before: seq<Item>, data: seq<byte>, k: nat, n: nat, acks: nat -> bool)
    requires n < |data|
    ensures before + [Sent(data[0], acks(k))] + Spoken(data[1..][..n], k + 1, acks)
            == before + Spoken(data[..n + 1], k, acks)
    ensures Spoken([], k + 1, acks) == []
    ensures n == 0 ==> before + [Sent(data[0], acks(k))] == before + Spoken(data[..1], k, acks)
  {
  }

  lemma {:induction false} BytesHeard(b: Bus, k: nat, data: seq<byte>, acks: nat -> bool)
    requires Ready(b, k)
    ensures var (r, ok) := WriteBytes(b, data, acks);
            var n := Outgoing(data, k, acks);
            && Ready(r, k + n)
            && Listening(r).items == Listening(b).items + Spoken(data[..n], k, acks)
            && (ok <==> forall j :: k <= j < k + |data| ==> acks(j))
    decreases |data|
  {
    hide Ready, Heard, WriteByte, AckRead, SendByte, Listening;
    if data == [] {
      assert Listening(b).items == Listening(b).items + Spoken([], k, acks);
    } else {
      ByteHeard(b, k, data[0], acks);
      var sent := WriteByte(b, data[0], acks);
      if acks(k) {
        BytesHeard(sent, k + 1, data[1..], acks);
        var n := Outgoing(data[1..], k + 1, acks);
        SpokenGrows(Listening(b).items, data, k, n, acks);
      } else {
        SpokenGrows(Listening(b).items, data, k, 0, acks);
      }
    }
  }

  /** Both lines high and nobody holding them, nothing half heard. */
  ghost predicate Rest(b: Bus) {
    Current(b) && b.sda && b.scl && !b.pull && Listening(b).bits == []
  }

  lemma StartHeard(b: Bus, acks: nat -> bool)
    requires Rest(b)
    ensures Ready(Start(b, acks), 0) && Listening(Start(b, acks)).items == Listening(b).items + [Started]
  {
    hide Heard;
    SdaHeard(b, true);
    var b1 := SetSda(b, true);
    RiseHeard(b1, acks);
    var b2 := SetScl(b1, true, acks);
    SdaHeard(b2, false);
    FallHeard(SetSda(b2, false), acks);
  }

  lemma StopHeard(b: Bus, k: nat, acks: nat -> bool)
    requires Ready(b, k)
    ensures Rest(Stop(b, acks)) && Listening(Stop(b, acks)).items == Listening(b).items + [Stopped]
  {
    hide Heard;
    SdaHeard(b, false);
    var b1 := SetSda(b, false);
    RiseHeard(b1, acks);
    SdaHeard(SetScl(b1, true, acks), true);
  }

  lemma RestIsSteady(b: Bus)
    requires Rest(b)
    ensures Steady(b.trace)
  {
  }

  /** Round trip: for every address, buffer and pattern of acknowledgements the listener hears
      START, the address byte, the bytes up to and including the first one not acknowledged,
      and STOP; the master moves SDA under a high clock for these two only, also where the
      slave's hold on the line would hide it; the bus is idle again; and the result is success
      exactly if everything was acknowledged. */
  lemma TransferHeard(b: Bus, addr7: byte, data: seq<byte>, acks: nat -> bool)
    requires Rest(b)
    ensures var (r, ok) := Transfer(b, addr7, data, acks);
            var bytes := [addr7 * 2 % 256] + data;
            var n := Outgoing(bytes, 0, acks);
            && Rest(r) && Steady(r.trace)
            && Listening(r).items == Listening(b).items + [Started] + Spoken(bytes[..n], 0, acks) + [Stopped]
            && (ok <==> forall j :: 0 <= j < |bytes| ==> acks(j))
  {
    hide Rest, Ready, Heard, Start, Stop, WriteBytes;
    StartHeard(b, acks);
    var bytes := [addr7 * 2 % 256] + data;
    BytesHeard(Start(b, acks), 0, bytes, acks);
    StopHeard(WriteBytes(Start(b, acks), bytes, acks).0, Outgoing(bytes, 0, acks), acks);
    RestIsSteady(Transfer(b, addr7, data, acks).0);
  }

  /** Which byte is the last to go out: all before it were acknowledged, and it is the last
      of all or was not. */
  lemma {:induction false} OutgoingEndsAtNack(data: seq<byte>, k: nat, acks: nat -> bool)
    ensures var n := Outgoing(data, k, acks);
            && (forall j :: k <= j < k + n - 1 ==> acks(j))
            && (n < |data| ==> n > 0 && !acks(k + n - 1))
            && (data != [] ==> n > 0)
    decreases |data|
  {
    if data != [] && acks(k) {
      OutgoingEndsAtNack(data[1..], k + 1, acks);
    }
  }

  // ----- the firmware -----

  class Master {
    var sda: bool
    var scl: bool
    var pull: bool
    var falls: int
    var trace: seq<Line>
    const acks: nat -> bool

    /** i2c_sw_init, with a slave that acknowledges as `acks` says. */
    constructor (acks: nat -> bool)
      ensures this.acks == acks && Rest(Value())
    {
      this.acks := acks;
      sda, scl, pull, falls, trace := true, true, false, -1, [Line(true, true, true)];
    }

    ghost function Value(): Bus
      reads this
    {
      Bus(sda, scl, pull, falls, trace)
    }

    method Note()
      modifies this`trace
      ensures Value() == Record(old(Value()))
    {
      trace := trace + [Line(scl, sda && !pull, sda)];
    }

    method Sda(v: bool)
      modifies this
      ensures Value() == SetSda(old(Value()), v)
    {
      if scl && !pull && v != sda {
        falls := -1;
      }
      sda := v;
      Note();
    }

    method Scl(v: bool)
      modifies this
      ensures Value() == SetScl(old(Value()), v, acks)
    {
      if v || !scl {
        scl := v;
        Note();
      } else {
        scl := false;
        falls := falls + 1;
        Note();
        var hold := falls >= 0 && falls % 9 == 8 && acks(falls / 9);
        if hold != pull {
          pull := hold;
          Note();
        }
      }
    }

    /** _start. */
    method StartCondition()
      modifies this
      ensures Value() == Start(old(Value()), acks)
    {
      hide SetSda, SetScl;
      Sda(true);
      Scl(true);
      Sda(false);
      Scl(false);
    }

    /** _stop. */
    method StopCondition()
      modifies this
      ensures Value() == Stop(old(Value()), acks)
    {
      hide SetSda, SetScl;
      Sda(false);
      Scl(true);
      Sda(true);
    }

    /** _write_byte. */
    method Byte(x: byte) returns (ack: bool)
      modifies this
      ensures Value() == WriteByte(old(Value()), x, acks)
      ensures ack == AckRead(SendByte(old(Value()), x, acks), acks)
    {
      hide SetSda, SetScl;
      ghost var bits := Reverse(Bits8(x));
      var i := 7;
      while i >= 0
        invariant -1 <= i <= 7
        invariant Value() == SendBits(old(Value()), bits[..7 - i], acks)
      {
        ReverseAt(Bits8(x), 7 - i);
        assert bits[..7 - i + 1][..7 - i] == bits[..7 - i];
        Sda(Bits8(x)[i]);
        Scl(true);
        Scl(false);
        i := i - 1;
      }
      assert bits[..8] == bits;
      Sda(true);
      Scl(true);
      ghost var high := Value();
      ack := !(sda && !pull);
      assert ack == !Level(high).sda;
      Scl(false);
    }

    /** i2c_sw_write; `ok` stands for the result 0. */
    method Write(addr7: byte, buf: array<byte>, len: nat) returns (ok: bool)
      requires len <= buf.Length
      modifies this
      ensures Value() == Transfer(old(Value()), addr7, buf[..len], acks).0
      ensures ok == Transfer(old(Value()), addr7, buf[..len], acks).1
    {
      hide WriteByte, AckRead, SendByte, Start, Stop;
      ghost var bytes := [addr7 * 2 % 256] + buf[..len];
      StartCondition();
      ghost var begun := Value();
      assert bytes[1..] == buf[..len];
      ok := Byte(addr7 * 2 % 256);
      if !ok {
        StopCondition();
        return;
      }
      var i := 0;
      while i < len
        invariant 0 <= i <= len && ok
        invariant WriteBytes(begun, bytes, acks) == WriteBytes(Value(), buf[i..len], acks)
      {
        assert buf[i..len][1..] == buf[i + 1..len];
        ok := Byte(buf[i]);
        if !ok {
          StopCondition();
          return;
        }
        i := i + 1;
      }
      StopCondition();
    }
  }

  lemma {:induction false} ReverseAt(bits: Bits, i: nat)
    requires i < |bits|
    ensures Reverse(bits)[i] == bits[|bits| - 1 - i]
  {
    if i < |bits| - 1 {
      ReverseAt(bits[1..], i);
    }
  }
}
