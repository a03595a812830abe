/** What the Modbus checksum means: it is a polynomial remainder over GF(2), an intact frame
    leaves the zero register, and no burst of up to sixteen bits goes unnoticed.
    A polynomial is the list of its coefficients, constant term first. */
module CrcAlgebra {
  import opened Words
  import opened ModbusCrc

  // ----- polynomials -----

  /** x^16 + x^15 + x^2 + 1. */
  function Generator(): (g: Bits)
    ensures |g| == 17
  {
    [true, false, true] + Zeros(12) + [true, true]
  }

  /** The coefficient of x^i, which is zero outside the list. */
  predicate Coef(p: Bits, i: int) {
    0 <= i < |p| && p[i]
  }

  /** The product of two polynomials, one shifted copy of `g` per term of `q`. */
  function Mul(q: Bits, g: Bits): (r: Bits)
    requires |g| > 0
    ensures |r| == |q| + |g| - 1
  {
    if q == [] then Zeros(|g| - 1)
    else
      var rest := Mul(q[1..], g);
      seq(|q| + |g| - 1, i requires 0 <= i => (q[0] && Coef(g, i)) != Coef(rest, i - 1))
  }

  /** The message times x^16, with the initial register of ones added to its leading terms;
      the first bit on the wire is the leading coefficient. */
  function Dividend(bits: Bits): (p: Bits)
    ensures |p| == |bits| + 16
  {
    seq(|bits| + 16, i requires 0 <= i => Coef(bits, |bits| + 15 - i) != (|bits| <= i))
  }

  /** The polynomial held by a register: its lowest bit is the coefficient of x^15. */
  function Register(c: Bits): (r: Bits)
    requires |c| == 16
    ensures |r| == 16
    ensures forall i :: 0 <= i < 16 ==> r[i] == c[15 - i]
  {
    seq(16, i requires 0 <= i < 16 => c[15 - i])
  }

  /** p == q * Generator + r, with r of degree below 16. */
  ghost predicate DividesWith(p: Bits, q: Bits, r: Bits)
    requires |r| == 16 && |p| == |q| + 16
  {
    forall i :: 0 <= i < |p| ==> p[i] == (Mul(q, Generator())[i] != Coef(r, i))
  }

  function Quotient(bits: Bits): (q: Bits)
    ensures |q| == |bits|
  {
    if bits == [] then []
    else
      var front := bits[..|bits| - 1];
      [CrcBits(Ones(16), front)[0] != bits[|bits| - 1]] + Quotient(front)
  }

  lemma GeneratorIsPoly(i: int)
    ensures Coef(Generator(), i) <==> i == 16 || Coef(Poly(), 15 - i)
  {
  }

  /** One register step is one step of long division. */
  lemma DivisionStep(c: Bits, bit: bool, i: int)
    requires |c| == 16 && 0 <= i
    ensures (Coef(Register(c), i - 1) != (i == 16 && bit))
         == (((c[0] != bit) && Coef(Generator(), i)) != Coef(Register(BitStep(c, bit)), i))
  {
    GeneratorIsPoly(i);
    if 0 < i < 16 {
      assert BitStep(c, bit)[15 - i] == (c[16 - i] != ((c[0] != bit) && Poly()[15 - i]));
    }
  }

  lemma DividendStep(bits: Bits, bit: bool, i: int)
    requires 0 <= i < |bits| + 17
    ensures Dividend(bits + [bit])[i] == (Coef(Dividend(bits), i - 1) != (i == 16 && bit))
  {
    var n := |bits|;
    assert Coef(bits + [bit], n + 16 - i) == (Coef(bits, n + 16 - i) != (i == 16 && bit));
    if i > 0 {
      assert Dividend(bits)[i - 1] == (Coef(bits, n + 15 - (i - 1)) != (n <= i - 1));
    }
  }

  lemma MulFirst(q: Bits, g: Bits, i: int)
    requires |g| > 0 && q != [] && 0 <= i < |q| + |g| - 1
    ensures Mul(q, g)[i] == ((q[0] && Coef(g, i)) != Coef(Mul(q[1..], g), i - 1))
  {
    hide Coef;
  }

  lemma MulStep(k: bool, q: Bits, g: Bits, i: int)
    requires |g| > 0 && 0 <= i < |q| + |g|
    ensures Mul([k] + q, g)[i] == ((k && Coef(g, i)) != Coef(Mul(q, g), i - 1))
  {
    hide Coef, Mul;
    var longer := [k] + q;
    assert longer[0] == k && longer[1..] == q;
    MulFirst(longer, g, i);
  }

  lemma CarryDown(p: Bits, q: Bits, c: Bits, bit: bool, p': Bits)
    requires |c| == 16 && |p| == |q| + 16 && |p'| == |q| + 17
    requires DividesWith(p, q, Register(c))
    requires forall i :: 0 <= i < |p'| ==> p'[i] == (Coef(p, i - 1) != (i == 16 && bit))
    ensures DividesWith(p', [c[0] != bit] + q, Register(BitStep(c, bit)))
  {
    var q' := [c[0] != bit] + q;
    forall i | 0 <= i < |p'|
      ensures p'[i] == (Mul(q', Generator())[i] != Coef(Register(BitStep(c, bit)), i))
    {
      DivisionStep(c, bit, i);
      MulStep(c[0] != bit, q, Generator(), i);
      assert i > 0 ==> p[i - 1] == (Mul(q, Generator())[i - 1] != Coef(Register(c), i - 1));
    }
  }

  /** The checksum register is the remainder of the division of the message polynomial by
      the generator, for messages of any length. */
  lemma {:induction false} CrcIsRemainder(bits: Bits)
    ensures DividesWith(Dividend(bits), Quotient(bits), Register(CrcBits(Ones(16), bits)))
  {
    if bits == [] {
      forall i | 0 <= i < 16
        ensures Dividend(bits)[i] && !Mul(Quotient(bits), Generator())[i]
      {
        assert !Coef(bits, |bits| + 15 - i);
      }
    } else {
      var n := |bits| - 1;
      var front, bit := bits[..n], bits[n];
      CrcIsRemainder(front);
      assert bits == front + [bit];
      forall i | 0 <= i < n + 17
        ensures Dividend(bits)[i] == (Coef(Dividend(front), i - 1) != (i == 16 && bit))
      {
        DividendStep(front, bit, i);
      }
      var c := CrcBits(Ones(16), front);
      assert Quotient(bits) == [c[0] != bit] + Quotient(front);
      CarryDown(Dividend(front), Quotient(front), c, bit, Dividend(bits));
    }
  }

  // ----- uniqueness of the remainder -----

  lemma {:induction false} MulLinear(q: Bits, q': Bits, g: Bits, i: int)
    requires |q| == |q'| && |g| > 0 && 0 <= i < |q| + |g| - 1
    ensures Mul(Xor(q, q'), g)[i] == (Mul(q, g)[i] != Mul(q', g)[i])
  {
    if q != [] {
      assert Xor(q, q')[1..] == Xor(q[1..], q'[1..]);
      assert Coef(Mul(Xor(q, q')[1..], g), i - 1) == (Coef(Mul(q[1..], g), i - 1) != Coef(Mul(q'[1..], g), i - 1)) by {
        if 0 < i < |q| + |g| - 1 { MulLinear(q[1..], q'[1..], g, i - 1); }
      }
    }
  }

  /** The generator is monic, so the leading term of a multiple sits sixteen places above
      the leading term of the multiplier. */
  lemma {:induction false} LeadingTerm(q: Bits, k: int)
    requires 0 <= k < |q| && q[k] && forall j :: k < j < |q| ==> !q[j]
    ensures Mul(q, Generator())[k + 16]
  {
    assert q == [q[0]] + q[1..];
    MulStep(q[0], q[1..], Generator(), k + 16);
    if k == 0 {
      NoTerms(q[1..], 15);
    } else {
      LeadingTerm(q[1..], k - 1);
    }
  }

  lemma {:induction false} NoTerms(q: Bits, i: int)
    requires forall j :: 0 <= j < |q| ==> !q[j]
    ensures !Coef(Mul(q, Generator()), i)
  {
    if q != [] {
      NoTerms(q[1..], i - 1);
    }
  }

  lemma HighestTerm(q: Bits) returns (k: int)
    requires exists j :: 0 <= j < |q| && q[j]
    ensures 0 <= k < |q| && q[k] && forall j :: k < j < |q| ==> !q[j]
  {
    k := |q| - 1;
    while !q[k]
      invariant 0 <= k < |q|
      invariant forall j :: k < j < |q| ==> !q[j]
      invariant exists j :: 0 <= j <= k && q[j]
      decreases k
    {
      k := k - 1;
    }
  }

  /** Quotient and remainder are the only ones there are: any other way of writing the
      dividend as multiple plus low-degree rest is the same. */
  lemma RemainderIsUnique(p: Bits, q: Bits, r: Bits, q': Bits, r': Bits)
    requires |r| == |r'| == 16 && |q| == |q'| && |p| == |q| + 16
    requires DividesWith(p, q, r) && DividesWith(p, q', r')
    ensures q == q' && r == r'
  {
    var d := Xor(q, q');
    forall i | 0 <= i < |p|
      ensures Mul(d, Generator())[i] == (Coef(r, i) != Coef(r', i))
    {
      MulLinear(q, q', Generator(), i);
      assert p[i] == (Mul(q, Generator())[i] != Coef(r, i));
      assert p[i] == (Mul(q', Generator())[i] != Coef(r', i));
    }
    if exists j :: 0 <= j < |d| && d[j] {
      var k := HighestTerm(d);
      LeadingTerm(d, k);
      assert false;
    }
    forall i | 0 <= i < 16
      ensures r[i] == r'[i]
    {
      NoTerms(d, i);
      assert Mul(d, Generator())[i] == (Coef(r, i) != Coef(r', i));
    }
    forall j | 0 <= j < |q|
      ensures q[j] == q'[j]
    {
      assert !d[j];
    }
  }

  // ----- error detection -----

  lemma CrcFirst(c: Bits, bits: Bits)
    requires |c| == 16 && bits != []
    ensures CrcBits(c, bits) == CrcBits(BitStep(c, bits[0]), bits[1..])
  {
    assert bits == bits[..1] + bits[1..] && bits[..1] == [] + [bits[0]];
    CrcAppend(c, bits[..1], bits[1..]);
    CrcOneMore(c, [], bits[0]);
  }

  /** The feedback of a step can be read off its result. */
  lemma FeedbackShows(c: Bits, bit: bool)
    requires |c| == 16
    ensures BitStep(c, bit)[15] == (c[0] != bit)
    ensures forall i :: 0 <= i < 15 ==> BitStep(c, bit)[i] == (c[i + 1] != ((c[0] != bit) && Poly()[i]))
  {
  }

  /** Registers that a common suffix brings together were together already; over at most
      sixteen bits, registers that end together differ exactly where the bits differ. */
  lemma {:induction false} EndTogether(c: Bits, d: Bits, u: Bits, v: Bits)
    requires |c| == |d| == 16 && |u| == |v|
    requires |u| <= 16 || u == v
    requires CrcBits(c, u) == CrcBits(d, v)
    ensures forall i :: 0 <= i < 16 ==> (c[i] != d[i]) == (Coef(u, i) != Coef(v, i))
    decreases |u|
  {
    if u != [] {
      CrcFirst(c, u);
      CrcFirst(d, v);
      var c', d' := BitStep(c, u[0]), BitStep(d, v[0]);
      EndTogether(c', d', u[1..], v[1..]);
      FeedbackShows(c, u[0]);
      FeedbackShows(d, v[0]);
      assert c'[15] == d'[15];
      forall i | 0 <= i < 16
        ensures (c[i] != d[i]) == (Coef(u, i) != Coef(v, i))
      {
        if i > 0 {
          assert (c'[i - 1] != d'[i - 1]) == (Coef(u[1..], i - 1) != Coef(v[1..], i - 1));
        }
      }
    }
  }

  lemma CrcOfThree(c: Bits, x: Bits, y: Bits, z: Bits)
    requires |c| == 16
    ensures CrcBits(c, x + y + z) == CrcBits(CrcBits(CrcBits(c, x), y), z)
  {
    CrcAppend(c, x + y, z);
    CrcAppend(c, x, y);
  }

  lemma SuffixKeepsApart(c: Bits, d: Bits, s: Bits)
    requires |c| == |d| == 16 && CrcBits(c, s) == CrcBits(d, s)
    ensures c == d
  {
    EndTogether(c, d, s, s);
  }

  lemma ShortMessagesDiffer(c: Bits, u: Bits, v: Bits)
    requires |c| == 16 && |u| == |v| <= 16 && CrcBits(c, u) == CrcBits(c, v)
    ensures u == v
  {
    EndTogether(c, c, u, v);
    forall i | 0 <= i < |u|
      ensures u[i] == v[i]
    {
      assert Coef(u, i) == Coef(v, i);
    }
  }

  /** Two messages that differ, but only inside sixteen consecutive bits, have different
      checksums, however long they are. */
  lemma BurstChangesCrc(c: Bits, front: Bits, u: Bits, v: Bits, back: Bits)
    requires |c| == 16 && |u| == |v| <= 16 && u != v
    ensures CrcBits(c, front + u + back) != CrcBits(c, front + v + back)
  {
    CrcOfThree(c, front, u, back);
    CrcOfThree(c, front, v, back);
    var f := CrcBits(c, front);
    if CrcBits(c, front + u + back) == CrcBits(c, front + v + back) {
      SuffixKeepsApart(CrcBits(f, u), CrcBits(f, v), back);
      ShortMessagesDiffer(f, u, v);
    }
  }

  // ----- frames -----

  /** The checksum test of the response validators on the first `n` bytes of a buffer: the
      last two bytes are the checksum of the others, low byte first. */
  predicate CrcTest(buf: seq<byte>, n: nat)
    requires 2 <= n <= |buf|
  {
    Crc(buf[..n - 2]) == Bits8(buf[n - 2]) + Bits8(buf[n - 1])
  }

  lemma {:induction false} WireAt(buf: seq<byte>, i: nat, b: nat)
    requires i < |buf| && b < 8
    ensures Wire(buf)[8 * i + b] == Bits8(buf[i])[b]
  {
    if i < |buf| - 1 {
      WireAt(buf[..|buf| - 1], i, b);
    }
  }

  lemma WireOfTwo(buf: seq<byte>, x: byte, y: byte)
    ensures Wire(buf + [x, y]) == Wire(buf) + (Bits8(x) + Bits8(y))
  {
    assert (buf + [x, y])[..|buf| + 1] == buf + [x];
    assert (buf + [x])[..|buf|] == buf;
  }

  lemma {:induction false} OwnBitsCancel(c: Bits, k: nat)
    requires |c| == 16 && k <= 16
    ensures CrcBits(c, c[..k]) == c[k..] + Zeros(k)
  {
    if k > 0 {
      OwnBitsCancel(c, k - 1);
      assert c[..k] == c[..k - 1] + [c[k - 1]];
      CrcOneMore(c, c[..k - 1], c[k - 1]);
    }
  }

  /** A frame carries its own checksum exactly when running over all of it, checksum
      included, ends in the zero register. */
  lemma PassesIffZeroResidue(buf: seq<byte>)
    requires 2 <= |buf|
    ensures CrcTest(buf, |buf|) <==> Crc(buf) == Zeros(16)
  {
    var n := |buf| - 2;
    var sum := Bits8(buf[n]) + Bits8(buf[n + 1]);
    assert buf == buf[..n] + [buf[n], buf[n + 1]];
    WireOfTwo(buf[..n], buf[n], buf[n + 1]);
    var c := Crc(buf[..n]);
    CrcAppend(Ones(16), Wire(buf[..n]), sum);
    assert Crc(buf) == CrcBits(c, sum);
    OwnBitsCancel(c, 16);
    assert c[..16] == c;
    if CrcBits(c, sum) == Zeros(16) {
      ShortMessagesDiffer(c, sum, c);
    }
  }

  lemma CutOutWindow(a: Bits, b: Bits, k: nat)
    requires |a| == |b| && a != b
    requires forall i :: 0 <= i < |a| && !(k <= i < k + 16) ==> a[i] == b[i]
    ensures CrcBits(Ones(16), a) != CrcBits(Ones(16), b)
  {
    var n := |a|;
    var lo := if k < n then k else n;
    var hi := if k + 16 < n then k + 16 else n;
    var front, u, v, back := a[..lo], a[lo..hi], b[lo..hi], a[hi..];
    assert a == front + u + back;
    assert b == front + v + back;
    BurstChangesCrc(Ones(16), front, u, v, back);
  }

  /** No two different frames of one length that agree outside sixteen consecutive bits of
      the wire can both pass the validators, checksum bits included. */
  lemma BurstIsCaught(f: seq<byte>, g: seq<byte>, k: nat)
    requires 2 <= |f| == |g| && Wire(f) != Wire(g)
    requires forall i :: 0 <= i < 8 * |f| && !(k <= i < k + 16) ==> Wire(f)[i] == Wire(g)[i]
    ensures !(CrcTest(f, |f|) && CrcTest(g, |g|))
  {
    CutOutWindow(Wire(f), Wire(g), k);
    PassesIffZeroResidue(f);
    PassesIffZeroResidue(g);
  }

  lemma WiresDiffer(f: seq<byte>, g: seq<byte>, i: nat)
    requires |f| == |g| && i < |f| && f[i] != g[i]
    ensures Wire(f) != Wire(g)
  {
    hide Wire, Bits8;
    if Wire(f) == Wire(g) {
      forall b: nat | b < 8
        ensures Bits8(f[i])[b] == Bits8(g[i])[b]
      {
        WireAt(f, i, b);
        WireAt(g, i, b);
      }
      Bits8Injective(f[i], g[i]);
    }
  }

  /** In particular two frames that differ only within two adjacent bytes. */
  lemma AdjacentBytesAreCaught(f: seq<byte>, g: seq<byte>, j: nat)
    requires 2 <= |f| == |g| && f != g
    requires forall i :: 0 <= i < |f| && i != j && i != j + 1 ==> f[i] == g[i]
    ensures !(CrcTest(f, |f|) && CrcTest(g, |g|))
  {
    forall i | 0 <= i < 8 * |f| && !(8 * j <= i < 8 * j + 16)
      ensures Wire(f)[i] == Wire(g)[i]
    {
      WireAt(f, i / 8, i % 8);
      WireAt(g, i / 8, i % 8);
    }
    var i :| 0 <= i < |f| && f[i] != g[i];
    hide Wire, CrcTest;
    WiresDiffer(f, g, i);
    BurstIsCaught(f, g, 8 * j);
  }

  // ----- parity -----

  /** An odd number of ones. */
  predicate Odd(b: Bits) {
    b != [] && Odd(b[..|b| - 1]) != b[|b| - 1]
  }

  lemma {:induction false} OddAppend(a: Bits, b: Bits)
    ensures Odd(a + b) == (Odd(a) != Odd(b))
  {
    if b == [] {
      assert a + b == a;
    } else {
      OddAppend(a, b[..|b| - 1]);
      assert (a + b)[..|a + b| - 1] == a + b[..|b| - 1];
    }
  }

  lemma {:induction false} OddXor(a: Bits, b: Bits)
    requires |a| == |b|
    ensures Odd(Xor(a, b)) == (Odd(a) != Odd(b))
  {
    if a != [] {
      OddXor(a[..|a| - 1], b[..|b| - 1]);
      assert Xor(a, b)[..|a| - 1] == Xor(a[..|a| - 1], b[..|b| - 1]);
    }
  }

  lemma {:induction false} ZerosAreEven(n: nat)
    ensures !Odd(Zeros(n))
  {
    if n > 0 {
      ZerosAreEven(n - 1);
      assert Zeros(n)[..n - 1] == Zeros(n - 1);
    }
  }

  lemma {:induction false} OddOnes(n: nat)
    ensures Odd(Ones(n)) <==> n % 2 == 1
  {
    if n > 0 {
      OddOnes(n - 1);
      assert Ones(n)[..n - 1] == Ones(n - 1);
    }
  }

  lemma OddOfOne(x: bool)
    ensures Odd([x]) == x
  {
    assert [x][..0] == [];
  }

  lemma PolyIsOdd()
    ensures Odd(Poly())
  {
    ZerosAreEven(12);
    OddOfOne(true);
    OddAppend([true], Zeros(12));
    OddAppend([true] + Zeros(12), [true, false, true]);
    assert [true, false, true] == [true] + [false] + [true];
    OddOfOne(false);
    OddAppend([true], [false]);
    OddAppend([true] + [false], [true]);
  }

  /** The generator has x + 1 as a factor: a step adds the message bit to the parity of the
      register. */
  lemma StepParity(c: Bits, bit: bool)
    requires |c| == 16
    ensures Odd(BitStep(c, bit)) == (Odd(c) != bit)
  {
    assert c == [c[0]] + c[1..];
    OddOfOne(c[0]);
    OddAppend([c[0]], c[1..]);
    OddOfOne(false);
    OddAppend(c[1..], [false]);
    PolyIsOdd();
    OddXor(ShiftRight(c), Poly());
  }

  lemma {:induction false} CrcParity(c: Bits, bits: Bits)
    requires |c| == 16
    ensures Odd(CrcBits(c, bits)) == (Odd(c) != Odd(bits))
  {
    hide BitStep;
    if bits != [] {
      CrcParity(c, bits[..|bits| - 1]);
      StepParity(CrcBits(c, bits[..|bits| - 1]), bits[|bits| - 1]);
    }
  }

  /** Every frame that passes has an even number of ones on the wire, checksum included. */
  lemma PassingIsEven(f: seq<byte>)
    requires 2 <= |f| && CrcTest(f, |f|)
    ensures !Odd(Wire(f))
  {
    PassesIffZeroResidue(f);
    CrcParity(Ones(16), Wire(f));
    OddOnes(16);
    ZerosAreEven(16);
  }

  /** In how many places two lists of bits differ. */
  function Differences(a: Bits, b: Bits): nat
    requires |a| == |b|
  {
    if a == [] then 0
    else Differences(a[..|a| - 1], b[..|b| - 1]) + if a[|a| - 1] != b[|b| - 1] then 1 else 0
  }

  lemma {:induction false} DifferencesParity(a: Bits, b: Bits)
    requires |a| == |b|
    ensures Differences(a, b) % 2 == 1 <==> Odd(a) != Odd(b)
  {
    if a != [] {
      DifferencesParity(a[..|a| - 1], b[..|b| - 1]);
    }
  }

  /** No two frames of one length whose wires differ in an odd number of bits, wherever these
      are, can both pass the validators. */
  lemma OddErrorsAreCaught(f: seq<byte>, g: seq<byte>)
    requires 2 <= |f| == |g| && Differences(Wire(f), Wire(g)) % 2 == 1
    ensures !(CrcTest(f, |f|) && CrcTest(g, |g|))
  {
    DifferencesParity(Wire(f), Wire(g));
    if CrcTest(f, |f|) && CrcTest(g, |g|) {
      PassingIsEven(f);
      PassingIsEven(g);
      assert false;
    }
  }
}
