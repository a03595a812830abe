/** Bytes and machine words as numbers, and words as lists of bits, least significant first. */
module Words {

  type byte = x: int | 0 <= x < 256

  type word = x: int | 0 <= x < 0x1_0000

  type u32 = x: int | 0 <= x < 0x1_0000_0000

  datatype Option<T> = None | Some(value: T)

  type Bits = seq<bool>

  function Zeros(n: nat): (z: Bits)
    ensures |z| == n
    ensures forall i :: 0 <= i < n ==> !z[i]
  {
    if n == 0 then [] else Zeros(n - 1) + [false]
  }

  function Ones(n: nat): (z: Bits)
    ensures |z| == n
    ensures forall i :: 0 <= i < n ==> z[i]
  {
    if n == 0 then [] else Ones(n - 1) + [true]
  }

  function Xor(a: Bits, b: Bits): (c: Bits)
    requires |a| == |b|
    ensures |c| == |a|
  {
    seq(|a|, i requires 0 <= i < |a| => a[i] != b[i])
  }

  /** The low `n` bits of a number. */
  function BitsOf(x: nat, n: nat): (b: Bits)
    ensures |b| == n
  {
    if n == 0 then [] else [x % 2 == 1] + BitsOf(x / 2, n - 1)
  }

  function Value(b: Bits): (x: nat)
  {
    if b == [] then 0 else (if b[0] then 1 else 0) + 2 * Value(b[1..])
  }

  function Pow2(n: nat): (p: nat)
    ensures p > 0
  {
    if n == 0 then 1 else 2 * Pow2(n - 1)
  }

  lemma {:induction false} ValueOfBits(x: nat, n: nat)
    requires x < Pow2(n)
    ensures Value(BitsOf(x, n)) == x
  {
    if n > 0 {
      ValueOfBits(x / 2, n - 1);
      assert BitsOf(x, n)[1..] == BitsOf(x / 2, n - 1);
    }
  }

  lemma {:induction false} BitsOfValue(b: Bits)
    ensures Value(b) < Pow2(|b|)
    ensures BitsOf(Value(b), |b|) == b
  {
    if b != [] {
      BitsOfValue(b[1..]);
      assert Value(b) / 2 == Value(b[1..]);
      assert b == [b[0]] + b[1..];
    }
  }

  lemma BytesHaveEightBits()
    ensures Pow2(8) == 256
  {
  }

  /** A byte's bits in the order a UART sends them. */
  function Bits8(x: byte): (b: Bits)
    ensures |b| == 8
  {
    BitsOf(x, 8)
  }

  lemma Bits8Injective(x: byte, y: byte)
    requires Bits8(x) == Bits8(y)
    ensures x == y
  {
    BytesHaveEightBits();
    ValueOfBits(x, 8);
    ValueOfBits(y, 8);
  }

  /** Bitwise AND of two bytes. */
  function And(x: byte, y: byte): (z: byte)
  {
    var b := seq(8, i requires 0 <= i < 8 => Bits8(x)[i] && Bits8(y)[i]);
    BitsOfValue(b);
    BytesHaveEightBits();
    Value(b)
  }

  lemma AllOnes()
    ensures Bits8(255) == Ones(8)
  {
  }

  /** Erased flash takes any byte unchanged. */
  lemma AndOnes(x: byte)
    ensures And(255, x) == x && And(x, 255) == x
  {
    AllOnes();
    BytesHaveEightBits();
    ValueOfBits(x, 8);
    assert seq(8, i requires 0 <= i < 8 => Bits8(255)[i] && Bits8(x)[i]) == Bits8(x);
    assert seq(8, i requires 0 <= i < 8 => Bits8(x)[i] && Bits8(255)[i]) == Bits8(x);
  }

  /** A byte is the sum of its bits. */
  lemma ByteIsItsBits(x: byte)
    ensures var b := Bits8(x);
            x == (if b[0] then 1 else 0) + (if b[1] then 2 else 0) + (if b[2] then 4 else 0)
               + (if b[3] then 8 else 0) + (if b[4] then 16 else 0) + (if b[5] then 32 else 0)
               + (if b[6] then 64 else 0) + (if b[7] then 128 else 0)
  {
    BitsAreSummed(Bits8(x));
    BytesHaveEightBits();
    ValueOfBits(x, 8);
  }

  lemma BitsAreSummed(b: Bits)
    requires |b| == 8
    ensures Value(b) == (if b[0] then 1 else 0) + (if b[1] then 2 else 0) + (if b[2] then 4 else 0)
                      + (if b[3] then 8 else 0) + (if b[4] then 16 else 0) + (if b[5] then 32 else 0)
                      + (if b[6] then 64 else 0) + (if b[7] then 128 else 0)
  {
    hide Value;
    ValueFrom(b, 0);
    ValueFrom(b, 1);
    ValueFrom(b, 2);
    ValueFrom(b, 3);
    ValueFrom(b, 4);
    ValueFrom(b, 5);
    ValueFrom(b, 6);
    ValueFrom(b, 7);
    assert b[0..] == b;
  }

  lemma ValueFrom(b: Bits, k: nat)
    requires k < |b|
    ensures Value(b[k..]) == (if b[k] then 1 else 0) + 2 * Value(b[k + 1..])
    ensures k + 1 == |b| ==> Value(b[k + 1..]) == 0
  {
    assert b[k..][0] == b[k] && b[k..][1..] == b[k + 1..];
  }

  /** The bits of a conjunction. */
  lemma AndMeans(x: byte, y: byte, k: nat)
    requires k < 8
    ensures Bits8(And(x, y))[k] == (Bits8(x)[k] && Bits8(y)[k])
  {
    var b := seq(8, i requires 0 <= i < 8 => Bits8(x)[i] && Bits8(y)[i]);
    BitsOfValue(b);
    hide Value, BitsOf;
    assert Bits8(And(x, y)) == b;
  }
}
