/** The serial input of apps/juntekBMS/juntekMonitor.c: packets of any size are put together
    to lines, and ":r50=" lines are read as comma-separated numbers. */
module JuntekStream {
  import opened Words

  const TAB: byte := 9
  const LF: byte := 10
  const CR: byte := 13
  const SPACE: byte := 32
  const PLUS: byte := 43
  const COMMA: byte := 44
  const MINUS: byte := 45
  const SLASH: byte := 47
  const ZERO: byte := 48
  const COLON: byte := 58
  const EQUALS: byte := 61

  const LINE_MAX: nat := 199
  const PACKET_MAX: nat := 124
  const TOKENS_MAX: nat := 17
  const TOKEN_LEN: nat := 19
  const TOKENS_MIN: nat := 13
  const INT_MAX: int := 2147483647

  /** juntek_data_t of a valid line. */
  datatype Reading = Reading(voltage: real, current: real, remainAh: real, temperature: real,
                             relay: int, elapsedMin: int, power: real)

  // ----- numbers -----

  predicate IsDigit(c: byte) {
    ZERO <= c <= ZERO + 9
  }

  predicate IsBlank(c: byte) {
    c == SPACE || c == TAB
  }

  function Negated(x: nat, negative: bool): int {
    if negative then 0 - x else x
  }

  /** The digits of a number, up to the first other character, behind a value read already. */
  function ReadDigits(s: seq<byte>, acc: nat, negative: bool): int {
    if s == [] || !IsDigit(s[0]) then Negated(acc, negative)
    else
      var next: nat := acc * 10 + (s[0] - ZERO);
      if !negative && next > INT_MAX then INT_MAX
      else if negative && next > INT_MAX + 1 then -INT_MAX - 1
      else ReadDigits(s[1..], next, negative)
  }

  /** juntek_atoi. */
  function Atoi(s: seq<byte>): int {
    if s == [] then 0
    else if IsBlank(s[0]) then Atoi(s[1..])
    else if s[0] == MINUS then ReadDigits(s[1..], 0, true)
    else if s[0] == PLUS then ReadDigits(s[1..], 0, false)
    else ReadDigits(s, 0, false)
  }

  method ParseInt(s: seq<byte>) returns (x: int)
    ensures x == Atoi(s)
  {
    var p := 0;
    while p < |s| && IsBlank(s[p])
      invariant 0 <= p <= |s|
      invariant Atoi(s) == Atoi(s[p..])
    {
      assert s[p..][1..] == s[p + 1..];
      p := p + 1;
    }
    var negative := false;
    if p < |s| && s[p] == MINUS {
      negative := true;
      p := p + 1;
    } else if p < |s| && s[p] == PLUS {
      p := p + 1;
    }
    assert Atoi(s) == ReadDigits(s[p..], 0, negative);
    var res: nat := 0;
    while p < |s| && IsDigit(s[p])
      invariant 0 <= p <= |s|
      invariant Atoi(s) == ReadDigits(s[p..], res, negative)
    {
      assert s[p..][0] == s[p] && s[p..][1..] == s[p + 1..];
      res := res * 10 + (s[p] - ZERO);
      if !negative && res > INT_MAX {
        return INT_MAX;
      }
      if negative && res > INT_MAX + 1 {
        return -INT_MAX - 1;
      }
      p := p + 1;
    }
    return Negated(res, negative);
  }

  predicate AllDigits(s: seq<byte>) {
    forall c :: c in s ==> 48 <= c <= 57
  }

  function DigitsValue(s: seq<byte>, acc: nat): (x: nat)
    requires AllDigits(s)
    ensures x >= acc
    decreases |s|
  {
    if s == [] then acc
    else
      assert s[0] in s && forall c :: c in s[1..] ==> c in s;
      DigitsValue(s[1..], acc * 10 + (s[0] - 48))
  }

  /** A decimal number of at most 19 characters, with or without a sign and leading zeros,
      that stands for `v`. */
  predicate IsField(t: seq<byte>, v: int) {
    && 1 <= |t| <= 19
    && var body := if t[0] == 45 || t[0] == 43 then t[1..] else t;
       && body != [] && AllDigits(body) && DigitsValue(body, 0) <= 2147483647
       && v == if t[0] == 45 then 0 - DigitsValue(body, 0) else DigitsValue(body, 0)
  }

  lemma {:induction false} DigitsAreRead(s: seq<byte>, acc: nat, negative: bool)
    requires AllDigits(s) && DigitsValue(s, acc) <= INT_MAX
    ensures ReadDigits(s, acc, negative) == Negated(DigitsValue(s, acc), negative)
    decreases |s|
  {
    if s != [] {
      TailDigits(s);
      DigitsAreRead(s[1..], acc * 10 + (s[0] - ZERO), negative);
    }
  }

  /** Every decimal number within 32 bits is read as what it stands for. */
  lemma FieldIsRead(t: seq<byte>, v: int)
    requires IsField(t, v)
    ensures Atoi(t) == v
  {
    var body := if t[0] == MINUS || t[0] == PLUS then t[1..] else t;
    DigitsAreRead(body, 0, t[0] == MINUS);
    if body == t {
      assert t[0] in t;
    }
  }

  /** The value of a number that may not fit 32 bits. */
  function Saturated(x: nat, negative: bool): int {
    if negative then (if x > 2147483648 then -2147483648 else 0 - x) else if x > 2147483647 then 2147483647 else x
  }

  lemma TailDigits(s: seq<byte>)
    requires s != [] && AllDigits(s)
    ensures 48 <= s[0] <= 57 && AllDigits(s[1..])
  {
    assert s[0] in s && forall c :: c in s[1..] ==> c in s;
  }

  lemma {:induction false} DigitsSaturate(digits: seq<byte>, rest: seq<byte>, acc: nat, negative: bool)
    requires AllDigits(digits) && (rest == [] || !(48 <= rest[0] <= 57))
    requires acc <= if negative then 2147483648 else 2147483647
    ensures ReadDigits(digits + rest, acc, negative) == Saturated(DigitsValue(digits, acc), negative)
    decreases |digits|
  {
    if digits == [] {
      assert digits + rest == rest;
    } else {
      TailDigits(digits);
      var next: nat := acc * 10 + (digits[0] - 48);
      assert (digits + rest)[0] == digits[0] && (digits + rest)[1..] == digits[1..] + rest;
      if next <= if negative then 2147483648 else 2147483647 {
        DigitsSaturate(digits[1..], rest, next, negative);
      }
    }
  }

  /** What the number reader makes of any text: blanks, a sign or none, digits, and whatever
      does not continue them. */
  lemma {:induction false} NumberIsRead(blanks: seq<byte>, sign: seq<byte>, digits: seq<byte>, rest: seq<byte>)
    requires (forall c :: c in blanks ==> c == 32 || c == 9) && (sign == [] || sign == [43] || sign == [45])
    requires AllDigits(digits) && (rest == [] || !(48 <= rest[0] <= 57))
    requires sign == [] && digits == [] && rest != [] ==> rest[0] !in [32, 9, 43, 45]
    ensures Atoi(blanks + (sign + (digits + rest))) == Saturated(DigitsValue(digits, 0), sign == [45])
  {
    var text := sign + (digits + rest);
    if blanks == [] {
      assert blanks + text == text;
      DigitsSaturate(digits, rest, 0, sign == [45]);
      assert sign != [] ==> text[0] == sign[0] && text[1..] == digits + rest;
      assert sign == [] ==> text == digits + rest;
      assert digits != [] ==> digits[0] in digits && (digits + rest)[0] == digits[0];
    } else {
      assert blanks[0] in blanks && (blanks + text)[0] == blanks[0] && (blanks + text)[1..] == blanks[1..] + text;
      assert forall c :: c in blanks[1..] ==> c in blanks;
      NumberIsRead(blanks[1..], sign, digits, rest);
    }
  }

  function Decimal(n: nat): (s: seq<byte>)
    ensures s != [] && AllDigits(s)
  {
    if n < 10 then [ZERO + n] else Decimal(n / 10) + [ZERO + n % 10]
  }

  lemma {:induction false} ValueOfMore(s: seq<byte>, c: byte, acc: nat)
    requires AllDigits(s) && IsDigit(c)
    ensures AllDigits(s + [c]) && DigitsValue(s + [c], acc) == DigitsValue(s, acc) * 10 + (c - ZERO)
    decreases |s|
  {
    if s == [] {
      assert [] + [c] == [c] && DigitsValue([c][1..], acc * 10 + (c - ZERO)) == acc * 10 + (c - ZERO);
    } else {
      TailDigits(s);
      assert (s + [c])[1..] == s[1..] + [c];
      ValueOfMore(s[1..], c, acc * 10 + (s[0] - ZERO));
    }
  }

  lemma {:induction false} ValueOfDecimal(n: nat)
    ensures DigitsValue(Decimal(n), 0) == n
  {
    if n < 10 {
      assert Decimal(n)[1..] == [];
    } else {
      ValueOfDecimal(n / 10);
      ValueOfMore(Decimal(n / 10), ZERO + n % 10, 0);
    }
  }

  function Tens(k: nat): nat {
    if k == 0 then 1 else 10 * Tens(k - 1)
  }

  lemma {:induction false} DecimalLength(n: nat, k: nat)
    requires k > 0 && n < Tens(k)
    ensures |Decimal(n)| <= k
  {
    if n >= 10 {
      DecimalLength(n / 10, k - 1);
    }
  }

  /** Every number within range can be written as a field. */
  lemma DecimalIsField(v: int)
    requires -INT_MAX <= v <= INT_MAX
    ensures IsField(if v < 0 then [MINUS] + Decimal(-v) else Decimal(v), v)
  {
    var n := if v < 0 then -v else v;
    assert Tens(4) == 10000;
    assert Tens(8) == 100000000;
    DecimalLength(n, 10);
    ValueOfDecimal(n);
    assert Decimal(n)[0] in Decimal(n);
    assert ([MINUS] + Decimal(n))[1..] == Decimal(n);
  }

  // ----- one line -----

  /** The first `c` at or behind `from`, or the end of the string. */
  function Find(s: seq<byte>, c: byte, from: nat): (i: nat)
    requires from <= |s|
    ensures from <= i <= |s|
    ensures i < |s| ==> s[i] == c
    ensures forall k :: from <= k < i ==> s[k] != c
    decreases |s| - from
  {
    if from == |s| || s[from] == c then from else Find(s, c, from + 1)
  }

  /** C strings end at the first zero byte. */
  function CString(line: seq<byte>): seq<byte> {
    line[..Find(line, 0, 0)]
  }

  function WithoutSlashes(s: seq<byte>): seq<byte> {
    if s == [] then []
    else
      var front, c := WithoutSlashes(s[..|s| - 1]), s[|s| - 1];
      if c == SLASH then front else front + [c]
  }

  const R50: seq<byte> := [58, 114, 53, 48]

  /** ":r50", with slashes anywhere and whatever behind it. */
  predicate IsR50(command: seq<byte>) {
    var cmd := WithoutSlashes(command);
    |cmd| >= 4 && cmd[..4] == R50
  }

  predicate EndsLine(c: byte) {
    c == CR || c == LF
  }

  predicate OneLine(s: seq<byte>) {
    forall c :: c in s ==> c != 13 && c != 10
  }

  /** The tokens of the rest of a line, behind tokens found already and the beginning of the
      current one. */
  function Tokens(s: seq<byte>, done: seq<seq<byte>>, cur: seq<byte>): seq<seq<byte>>
    decreases |s|
  {
    if s == [] || |done| >= TOKENS_MAX then
      if cur != [] && |done| < TOKENS_MAX then done + [cur] else done
    else if s[0] == COMMA then Tokens(s[1..], done + [cur], [])
    else if EndsLine(s[0]) then done + [cur]
    else Tokens(s[1..], done, if |cur| < TOKEN_LEN then cur + [s[0]] else cur)
  }

  /** The scaled values; the relay tells charging from discharging. */
  function Scaled(v: seq<int>): Reading
    requires |v| >= TOKENS_MIN
  {
    var voltage, amount := v[2] as real / 100.0, v[3] as real / 100.0;
    var current := if v[11] < 1 then -amount else amount;
    Reading(voltage, current, v[4] as real / 1000.0, v[8] as real - 100.0, v[11], v[12], voltage * current)
  }

  function Values(tokens: seq<seq<byte>>): (v: seq<int>)
    ensures |v| == |tokens|
  {
    seq(|tokens|, i requires 0 <= i < |tokens| => Atoi(tokens[i]))
  }

  /** juntek_parse_r50. */
  function Parse(line: seq<byte>): Option<Reading> {
    var s := CString(line);
    var p := Find(s, COLON, 0);
    var eq := Find(s, EQUALS, p);
    if p == |s| || eq == |s| || !IsR50(s[p..eq]) then None
    else
      var tokens := Tokens(s[eq + 1..], [], []);
      if |tokens| < TOKENS_MIN then None else Some(Scaled(Values(tokens)))
  }

  // ----- a line made of fields -----

  function Join(fields: seq<seq<byte>>): seq<byte> {
    if fields == [] then []
    else if |fields| == 1 then fields[0]
    else fields[0] + [COMMA] + Join(fields[1..])
  }

  function LineOf(fields: seq<seq<byte>>): seq<byte> {
    R50 + [EQUALS] + Join(fields)
  }

  /** No separator and no terminator. */
  predicate Plain(t: seq<byte>) {
    forall c :: c in t ==> c != 44 && c != 13 && c != 10 && c != 0
  }

  /** As much of a field as a token holds. */
  function Cut(t: seq<byte>): (c: seq<byte>)
    ensures |c| <= 19 && c <= t
  {
    if |t| <= 19 then t else t[..19]
  }

  function AllCut(fields: seq<seq<byte>>): (c: seq<seq<byte>>)
    ensures |c| == |fields|
  {
    seq(|fields|, i requires 0 <= i < |fields| => Cut(fields[i]))
  }

  lemma {:induction false} TokenTaken(t: seq<byte>, rest: seq<byte>, done: seq<seq<byte>>, cur: seq<byte>)
    requires |done| < TOKENS_MAX && |cur| <= 19 && Plain(t)
    ensures Tokens(t + rest, done, cur) == Tokens(rest, done, Cut(cur + t))
    decreases |t|
  {
    if t == [] {
      assert t + rest == rest && cur + t == cur;
    } else {
      assert t[0] in t && (t + rest)[1..] == t[1..] + rest && (t + rest)[0] == t[0];
      assert forall c :: c in t[1..] ==> c in t;
      var next := if |cur| < 19 then cur + [t[0]] else cur;
      TokenTaken(t[1..], rest, done, next);
      assert Cut(next + t[1..]) == Cut(cur + t) by {
        assert cur + [t[0]] + t[1..] == cur + t;
        if |cur| == 19 { assert (cur + t[1..])[..19] == cur == (cur + t)[..19]; }
      }
    }
  }

  lemma FieldTaken(t: seq<byte>, rest: seq<byte>, done: seq<seq<byte>>)
    requires |done| < TOKENS_MAX && Plain(t)
    ensures Tokens(t + [COMMA] + rest, done, []) == Tokens(rest, done + [Cut(t)], [])
  {
    var behind := [COMMA] + rest;
    assert Tokens(behind, done, Cut(t)) == Tokens(rest, done + [Cut(t)], []) by { assert behind[1..] == rest; }
    hide Tokens, Cut;
    TokenTaken(t, behind, done, []);
    assert [] + t == t && t + [COMMA] + rest == t + behind;
  }

  lemma LastFieldTaken(t: seq<byte>, done: seq<seq<byte>>)
    requires |done| < TOKENS_MAX && Plain(t) && t != []
    ensures Tokens(t, done, []) == done + [Cut(t)]
  {
    assert Tokens([], done, Cut(t)) == done + [Cut(t)];
    hide Tokens, Cut;
    TokenTaken(t, [], done, []);
    assert [] + t == t && t + [] == t;
  }

  /** The last field is not empty: the code drops it if it is. */
  predicate EndsInField(fields: seq<seq<byte>>) {
    fields != [] ==> fields[|fields| - 1] != []
  }

  /** As many fields as there is room for, in order, each cut to 19 characters. */
  lemma {:induction false} JoinedAreTokens(fields: seq<seq<byte>>, done: seq<seq<byte>>)
    requires |done| <= 17 && EndsInField(fields) && forall t :: t in fields ==> Plain(t)
    ensures var room := 17 - |done|;
            Tokens(Join(fields), done, []) == done + AllCut(fields)[..if |fields| < room then |fields| else room]
    decreases |fields|
  {
    if fields != [] && |done| < 17 {
      var t, rest := fields[0], fields[1..];
      assert t in fields && forall x :: x in rest ==> x in fields;
      hide Tokens, Plain, Cut;
      if |fields| == 1 {
        LastFieldTaken(t, done);
        assert AllCut(fields) == [Cut(t)];
      } else {
        FieldTaken(t, Join(rest), done);
        JoinedAreTokens(rest, done + [Cut(t)]);
        assert AllCut(fields)[0] == Cut(t) && AllCut(fields)[1..] == AllCut(rest);
        FirstOfMany(AllCut(fields), done);
      }
    }
  }

  lemma FirstOfMany(fields: seq<seq<byte>>, done: seq<seq<byte>>)
    requires fields != [] && |done| < 17
    ensures var room, less := 17 - |done|, 17 - |done| - 1;
            done + [fields[0]] + fields[1..][..if |fields| - 1 < less then |fields| - 1 else less]
            == done + fields[..if |fields| < room then |fields| else room]
  {
    var less := 17 - |done| - 1;
    var k := if |fields| - 1 < less then |fields| - 1 else less;
    assert fields[..k + 1] == [fields[0]] + fields[1..][..k];
    assert done + [fields[0]] + fields[1..][..k] == done + ([fields[0]] + fields[1..][..k]);
  }

  lemma {:induction false} JoinHasNoZero(fields: seq<seq<byte>>)
    requires forall t :: t in fields ==> Plain(t)
    ensures forall c :: c in Join(fields) ==> c != 0 && !EndsLine(c)
  {
    if fields != [] {
      assert Plain(fields[0]);
      JoinHasNoZero(fields[1..]);
    }
  }

  lemma FindsFirst(s: seq<byte>, c: byte, from: nat, i: nat)
    requires from <= i <= |s| && (i < |s| ==> s[i] == c) && forall k :: from <= k < i ==> s[k] != c
    ensures Find(s, c, from) == i
  {
  }

  /** A line: anything up to the first colon, a command up to the next equals sign, fields. */
  function AnyLine(front: seq<byte>, cmd: seq<byte>, fields: seq<seq<byte>>): seq<byte> {
    front + [58] + cmd + [61] + Join(fields)
  }

  /** Neither the end of a string nor the given character. */
  predicate Without(s: seq<byte>, c: byte) {
    0 !in s && c !in s
  }

  lemma PartsOfLine(front: seq<byte>, cmd: seq<byte>, fields: seq<seq<byte>>)
    requires Without(front, 58) && Without(cmd, 61) && forall t :: t in fields ==> Plain(t)
    ensures var s, p, q := AnyLine(front, cmd, fields), |front|, |front| + 1 + |cmd|;
            && CString(s) == s && q < |s| && Find(s, COLON, 0) == p && Find(s, EQUALS, p) == q
            && s[p..q] == [58] + cmd && s[q + 1..] == Join(fields)
  {
    var s, p, q := AnyLine(front, cmd, fields), |front|, |front| + 1 + |cmd|;
    JoinHasNoZero(fields);
    hide Find, Join, Plain;
    LinePieces(front, cmd, Join(fields));
    forall k | 0 <= k < |s|
      ensures s[k] != 0
    {
      assert k < p ==> s[k] in front;
      assert p < k < q ==> s[k] in cmd;
      assert k > q ==> s[k] in Join(fields);
    }
    forall k | 0 <= k < q && k != p
      ensures k < p ==> s[k] != COLON
      ensures k > p ==> s[k] != EQUALS
    {
      assert k < p ==> s[k] in front;
      assert p < k ==> s[k] in cmd;
    }
    FindsFirst(s, 0, 0, |s|);
    FindsFirst(s, COLON, 0, p);
    FindsFirst(s, EQUALS, p, q);
  }

  lemma LinePieces(front: seq<byte>, cmd: seq<byte>, rest: seq<byte>)
    ensures var s, p, q := front + [58] + cmd + [61] + rest, |front|, |front| + 1 + |cmd|;
            && |s| == q + 1 + |rest| && s[p] == 58 && s[q] == 61
            && s[p..q] == [58] + cmd && s[q + 1..] == rest
            && (forall k :: 0 <= k < p ==> s[k] == front[k])
            && (forall k :: p < k < q ==> s[k] == cmd[k - p - 1])
            && (forall k :: q < k < |s| ==> s[k] == rest[k - q - 1])
  {
  }

  lemma {:induction false} NoSlashes(s: seq<byte>)
    requires forall c :: c in s ==> c != SLASH
    ensures WithoutSlashes(s) == s
  {
    if s != [] {
      var front, c := s[..|s| - 1], s[|s| - 1];
      assert s == front + [c];
      assert c in s && forall d :: d in front ==> d in s;
      NoSlashes(front);
    }
  }

  /** Slashes in the command are skipped, wherever they are. */
  lemma {:induction false} SlashesGo(a: seq<byte>, b: seq<byte>)
    ensures WithoutSlashes(a + [47] + b) == WithoutSlashes(a + b)
  {
    if b == [] {
      assert (a + [47] + b)[..|a|] == a && a + b == a;
    } else {
      SlashesGo(a, b[..|b| - 1]);
      assert (a + [47] + b)[..|a| + |b|] == a + [47] + b[..|b| - 1];
      assert (a + b)[..|a| + |b| - 1] == a + b[..|b| - 1];
    }
  }

  lemma FieldsArePlain(fields: seq<seq<byte>>, v: seq<int>)
    requires |fields| == |v| && forall i :: 0 <= i < |v| ==> IsField(fields[i], v[i])
    ensures EndsInField(fields) && AllCut(fields) == fields && forall t :: t in fields ==> Plain(t)
  {
    forall i | 0 <= i < |v|
      ensures fields[i] != [] && Cut(fields[i]) == fields[i] && Plain(fields[i])
    {
      FieldIsPlain(fields[i], v[i]);
    }
    hide IsField, Plain;
  }

  lemma FieldIsPlain(t: seq<byte>, v: int)
    requires IsField(t, v)
    ensures t != [] && Cut(t) == t && Plain(t)
  {
    var body := if t[0] == 45 || t[0] == 43 then t[1..] else t;
    forall c | c in t
      ensures c == t[0] || c in body
    {
    }
  }

  lemma FieldsAreRead(fields: seq<seq<byte>>, v: seq<int>)
    requires |fields| == |v| && forall i :: 0 <= i < |v| ==> IsField(fields[i], v[i])
    ensures Values(fields) == v
  {
    hide IsField, Atoi;
    forall i | 0 <= i < |v|
      ensures Values(fields)[i] == v[i]
    {
      FieldIsRead(fields[i], v[i]);
    }
  }

  lemma ScaledPrefix(v: seq<int>, n: nat)
    requires 13 <= n <= |v|
    ensures Scaled(v[..n]) == Scaled(v)
  {
  }

  /** What the fields of a line stand for: the third the voltage and the fourth the current in
      hundredths, the current counting as negative unless the twelfth, the relay, says that the
      battery is charged; the fifth the charge in thousandths; the ninth the temperature plus
      100; the thirteenth the minutes. */
  predicate StandsFor(r: Reading, v: seq<int>)
    requires |v| >= 13
  {
    && r.voltage * 100.0 == v[2] as real
    && r.current * 100.0 == (if v[11] >= 1 then v[3] as real else 0.0 - v[3] as real)
    && r.remainAh * 1000.0 == v[4] as real
    && r.temperature == v[8] as real - 100.0
    && r.relay == v[11] && r.elapsedMin == v[12]
    && r.power == r.voltage * r.current
  }

  lemma ScaledStandsFor(v: seq<int>)
    requires |v| >= 13
    ensures StandsFor(Scaled(v), v)
  {
  }

  /** Every line with a colon, an equals sign behind it and fields is read if and only if the
      command is ":r50", but for slashes and for what follows it, and there are thirteen fields
      at least; and then it is read as what the first 19 characters of each field stand for. */
  lemma LineIsParsed(front: seq<byte>, cmd: seq<byte>, fields: seq<seq<byte>>)
    requires Without(front, 58) && Without(cmd, 61) && EndsInField(fields) && forall t :: t in fields ==> Plain(t)
    ensures var r, named := Parse(AnyLine(front, cmd, fields)), WithoutSlashes([58] + cmd);
            && (r.Some? <==> |named| >= 4 && named[..4] == [58, 114, 53, 48] && |fields| >= 13)
            && (r.Some? ==>
                  && StandsFor(r.value, Values(AllCut(fields)))
                  && forall i :: 0 <= i < |fields| ==> Values(AllCut(fields))[i] == Atoi(Cut(fields[i])))
  {
    ParsedFrom(front, cmd, fields);
    hide Plain, AnyLine, Scaled, Atoi, Cut, WithoutSlashes, StandsFor, Parse;
    if |fields| >= 13 {
      ScaledStandsFor(Values(AllCut(fields)));
    }
  }

  lemma ParsedFrom(front: seq<byte>, cmd: seq<byte>, fields: seq<seq<byte>>)
    requires Without(front, 58) && Without(cmd, 61) && EndsInField(fields) && forall t :: t in fields ==> Plain(t)
    ensures Parse(AnyLine(front, cmd, fields))
         == if IsR50([58] + cmd) && |fields| >= 13 then Some(Scaled(Values(AllCut(fields)))) else None
  {
    hide Plain, Tokens, CString, Find, IsR50, AnyLine, Join, Scaled, Atoi, Cut, Without, EndsInField;
    PartsOfLine(front, cmd, fields);
    JoinedAreTokens(fields, []);
    var n, cut := if |fields| < 17 then |fields| else 17, AllCut(fields);
    assert Tokens(Join(fields), [], []) == cut[..n];
    if n >= 13 {
      assert Values(cut[..n]) == Values(cut)[..n];
      ScaledPrefix(Values(cut), n);
    }
  }

  /** Without a colon, or without an equals sign behind the first one, nothing is read. */
  lemma HeadlessIsIgnored(front: seq<byte>, rest: seq<byte>)
    requires Without(front, 58) && Without(rest, 61)
    ensures Parse(front) == None && Parse(front + [58] + rest) == None
  {
    FindsFirst(front, 0, 0, |front|);
    FindsFirst(front, COLON, 0, |front|);
    var s := front + [58] + rest;
    forall k | 0 <= k < |s|
      ensures s[k] != 0 && (k < |front| ==> s[k] != 58) && (k > |front| ==> s[k] != 61)
    {
      assert k < |front| ==> s[k] in front;
      assert k > |front| ==> s[k] in rest;
    }
    FindsFirst(s, 0, 0, |s|);
    FindsFirst(s, COLON, 0, |front|);
    FindsFirst(s, EQUALS, |front|, |s|);
  }

  /** Round trip of one line: thirteen or more numbers are read back as what they stand for. */
  lemma LineIsRead(fields: seq<seq<byte>>, v: seq<int>)
    requires |fields| == |v| >= 13 && forall i :: 0 <= i < |v| ==> IsField(fields[i], v[i])
    ensures Parse(LineOf(fields)) == Some(Scaled(v)) && StandsFor(Scaled(v), v)
    ensures LineOf(fields) != [] && OneLine(LineOf(fields))
  {
    hide IsField, Plain, LineOf, Scaled, AnyLine, Parse, AllDigits, StandsFor;
    LineOfIsAny(fields);
    FieldsArePlain(fields, v);
    IsNamed();
    ParsedFrom([], [114, 53, 48], fields);
    FieldsAreRead(fields, v);
    ScaledStandsFor(v);
    NoLineEnds(fields);
  }

  lemma IsNamed()
    ensures Without([], 58) && Without([114, 53, 48], 61) && IsR50([58] + [114, 53, 48])
  {
    assert [58] + [114, 53, 48] == [58, 114, 53, 48];
    NoSlashes([58, 114, 53, 48]);
  }

  lemma LineOfIsAny(fields: seq<seq<byte>>)
    ensures LineOf(fields) == AnyLine([], [114, 53, 48], fields) && LineOf(fields) != []
  {
  }

  lemma NoLineEnds(fields: seq<seq<byte>>)
    requires forall t :: t in fields ==> Plain(t)
    ensures OneLine(LineOf(fields))
  {
    JoinHasNoZero(fields);
    hide Join, Plain;
  }

  // ----- the stream -----

  /** The line under way and the readings so far. */
  datatype Stream = Stream(line: seq<byte>, readings: seq<Reading>)

  function Found(line: seq<byte>): seq<Reading> {
    match Parse(line)
    case None => []
    case Some(r) => [r]
  }

  /** One byte of uart_rx_poll's loop. A line that gets too long starts again from nothing. */
  function Put(st: Stream, c: byte): Stream {
    if EndsLine(c) then
      if st.line == [] then st else Stream([], st.readings + Found(st.line))
    else if |st.line| < LINE_MAX then st.(line := st.line + [c])
    else st.(line := [])
  }

  function Feed(st: Stream, s: seq<byte>): Stream {
    if s == [] then st else Put(Feed(st, s[..|s| - 1]), s[|s| - 1])
  }

  /** uart_rx_poll on a packet whose header says `len`. */
  function PollPacket(st: Stream, len: nat, data: seq<byte>): Stream
    requires |data| == PACKET_MAX
  {
    if len == 0 || len > PACKET_MAX then st else Feed(st, data[..len])
  }

  lemma {:induction false} FeedAppend(st: Stream, a: seq<byte>, b: seq<byte>)
    ensures Feed(st, a + b) == Feed(Feed(st, a), b)
  {
    if b == [] {
      assert a + b == a;
    } else {
      FeedAppend(st, a, b[..|b| - 1]);
      assert (a + b)[..|a + b| - 1] == a + b[..|b| - 1];
    }
  }

  /** What is left of a line in the buffer: nothing is lost up to 199 characters, and from
      then on every 200 characters are dropped. */
  function Kept(text: seq<byte>): (k: seq<byte>)
    ensures |text| <= 199 ==> k == text
  {
    text[|text| - |text| % 200..]
  }

  lemma {:induction false} LineIsKept(st: Stream, text: seq<byte>)
    requires st.line == [] && OneLine(text)
    ensures Feed(st, text) == st.(line := Kept(text))
  {
    hide Kept;
    if text == [] {
      NothingKept();
    } else {
      var front, c := text[..|text| - 1], text[|text| - 1];
      assert text == front + [c] && c in text && forall d :: d in front ==> d in text;
      LineIsKept(st, front);
      KeptGrows(front, c);
    }
  }

  lemma NothingKept()
    ensures Kept([]) == []
  {
  }

  lemma KeptGrows(text: seq<byte>, c: byte)
    ensures Kept(text + [c]) == if |Kept(text)| < LINE_MAX then Kept(text) + [c] else []
  {
  }

  /** A text ended by CR and LF is handed to the parser once, however often the buffer ran
      full before. */
  lemma LineIsFed(st: Stream, text: seq<byte>)
    requires st.line == [] && OneLine(text)
    ensures Feed(st, text + [CR, LF])
         == Stream([], st.readings + if Kept(text) == [] then [] else Found(Kept(text)))
  {
    FeedAppend(st, text, [CR, LF]);
    LineIsKept(st, text);
    var s := Feed(st, text);
    assert [CR, LF][..1] == [CR] && [CR][..0] == [];
    assert Feed(s, [CR]) == Put(s, CR);
    assert Feed(s, [CR, LF]) == Put(Put(s, CR), LF);
    hide Found;
  }

  function Text(lines: seq<seq<byte>>): seq<byte> {
    if lines == [] then [] else Text(lines[..|lines| - 1]) + (lines[|lines| - 1] + [CR, LF])
  }

  function AllFound(lines: seq<seq<byte>>): seq<Reading> {
    if lines == [] then []
    else
      var text := Kept(lines[|lines| - 1]);
      AllFound(lines[..|lines| - 1]) + if text == [] then [] else Found(text)
  }

  lemma LastLine(lines: seq<seq<byte>>, st: Stream)
    ensures lines == [] ==> Feed(st, Text(lines)) == st && AllFound(lines) == []
    ensures lines != [] ==>
              var front, last := lines[..|lines| - 1], lines[|lines| - 1];
              && Text(lines) == Text(front) + (last + [CR, LF])
              && AllFound(lines) == AllFound(front) + if Kept(last) == [] then [] else Found(Kept(last))
  {
    hide Found, Kept, Put;
  }

  /** Any lines at all, long or short, valid or not, are read one after the other. */
  lemma {:induction false} LinesAreFed(st: Stream, lines: seq<seq<byte>>)
    requires st.line == [] && forall t :: t in lines ==> OneLine(t)
    ensures Feed(st, Text(lines)) == Stream([], st.readings + AllFound(lines))
  {
    hide Found, Kept, OneLine, Put, Feed, Text, AllFound;
    LastLine(lines, st);
    if lines != [] {
      var front, last := lines[..|lines| - 1], lines[|lines| - 1];
      assert last in lines && forall t :: t in front ==> t in lines;
      LinesAreFed(st, front);
      FeedAppend(st, Text(front), last + [CR, LF]);
      LineIsFed(Feed(st, Text(front)), last);
    }
  }

  function Polls(st: Stream, packets: seq<seq<byte>>): Stream
    requires forall p :: p in packets ==> |p| <= PACKET_MAX
  {
    if packets == [] then st
    else
      var last := packets[|packets| - 1];
      assert last in packets;
      var pad: seq<byte> := seq(PACKET_MAX - |last|, i => 0);
      PollPacket(Polls(st, packets[..|packets| - 1]), |last|, last + pad)
  }

  function Flat(packets: seq<seq<byte>>): seq<byte> {
    if packets == [] then [] else Flat(packets[..|packets| - 1]) + packets[|packets| - 1]
  }

  /** A packet is taken if its length is within the buffer, and ignored otherwise. */
  lemma PacketTaken(st: Stream, len: nat, data: seq<byte>)
    requires |data| == 124
    ensures PollPacket(st, len, data) == if 1 <= len <= 124 then Feed(st, data[..len]) else st
  {
  }

  /** It does not matter how the bytes are cut into packets. */
  lemma {:induction false} PacketsDoNotMatter(st: Stream, packets: seq<seq<byte>>)
    requires forall p :: p in packets ==> 1 <= |p| <= 124
    ensures Polls(st, packets) == Feed(st, Flat(packets))
  {
    if packets != [] {
      var front, last := packets[..|packets| - 1], packets[|packets| - 1];
      assert last in packets && forall p :: p in front ==> p in packets;
      PacketsDoNotMatter(st, front);
      FeedAppend(st, Flat(front), last);
      var pad: seq<byte> := seq(PACKET_MAX - |last|, i => 0);
      assert (last + pad)[..|last|] == last;
    }
  }

  function LinesOf(rows: seq<seq<seq<byte>>>): seq<seq<byte>> {
    seq(|rows|, i requires 0 <= i < |rows| => LineOf(rows[i]))
  }

  function Records(values: seq<seq<int>>): seq<Reading>
    requires forall v :: v in values ==> |v| >= TOKENS_MIN
  {
    seq(|values|, i requires 0 <= i < |values| => assert values[i] in values; Scaled(values[i]))
  }

  lemma FoundGrows(lines: seq<seq<byte>>, row: seq<byte>)
    requires Kept(row) == row != []
    ensures AllFound(lines + [row]) == AllFound(lines) + Found(row)
  {
  }

  lemma {:induction false} RowsAreFound(rows: seq<seq<seq<byte>>>, values: seq<seq<int>>)
    requires |rows| == |values| && forall v :: v in values ==> |v| >= TOKENS_MIN
    requires forall r :: 0 <= r < |rows| ==> IsRow(rows[r], values[r])
    ensures AllFound(LinesOf(rows)) == Records(values)
  {
    hide Found, Kept, Scaled, IsRow, LineOf, AllFound;
    if rows == [] {
      NothingFound();
      assert LinesOf(rows) == [];
    } else {
      var n := |rows| - 1;
      assert values[n] in values && forall v :: v in values[..n] ==> v in values;
      RowsAreFound(rows[..n], values[..n]);
      RowIsFound(rows[n], values[n]);
      FoundGrows(LinesOf(rows[..n]), LineOf(rows[n]));
      assert LinesOf(rows) == LinesOf(rows[..n]) + [LineOf(rows[n])];
      assert Records(values) == Records(values[..n]) + [Scaled(values[n])];
    }
  }

  lemma NothingFound()
    ensures AllFound([]) == []
  {
  }

  /** A line the battery monitor sends: at least thirteen numbers, at most 199 characters. */
  predicate IsRow(fields: seq<seq<byte>>, v: seq<int>) {
    && |fields| == |v| >= 13 && |LineOf(fields)| <= 199
    && forall i :: 0 <= i < |v| ==> IsField(fields[i], v[i])
  }

  lemma RowIsFound(fields: seq<seq<byte>>, v: seq<int>)
    requires IsRow(fields, v)
    ensures Kept(LineOf(fields)) == LineOf(fields) != []
    ensures Found(LineOf(fields)) == [Scaled(v)] && OneLine(LineOf(fields))
  {
    LineIsRead(fields, v);
    hide Parse, Scaled, LineOf;
  }

  lemma RecordsStandFor(values: seq<seq<int>>)
    requires forall v :: v in values ==> |v| >= 13
    ensures |Records(values)| == |values| && forall r :: 0 <= r < |values| ==> |values[r]| >= 13
    ensures forall r :: 0 <= r < |values| ==> StandsFor(Records(values)[r], values[r])
  {
    hide Scaled, StandsFor;
    forall r | 0 <= r < |values|
      ensures |values[r]| >= 13 && StandsFor(Records(values)[r], values[r])
    {
      assert values[r] in values;
      ScaledStandsFor(values[r]);
    }
  }

  /** Round trip of the stream: lines of at least thirteen numbers, cut into packets of 1 to
      124 bytes in any way, give exactly their records, in order. */
  lemma StreamIsRead(st: Stream, rows: seq<seq<seq<byte>>>, values: seq<seq<int>>, packets: seq<seq<byte>>)
    requires st.line == [] && |rows| == |values| && forall v :: v in values ==> |v| >= TOKENS_MIN
    requires forall r :: 0 <= r < |rows| ==> IsRow(rows[r], values[r])
    requires forall p :: p in packets ==> 1 <= |p| <= 124
    requires Flat(packets) == Text(LinesOf(rows))
    ensures Polls(st, packets) == Stream([], st.readings + Records(values)) && |Records(values)| == |values|
    ensures forall r :: 0 <= r < |values| ==> StandsFor(Records(values)[r], values[r])
  {
    hide IsRow, Found, Kept, Scaled, LineOf, StandsFor, Records, Polls, Feed, Flat, Text, AllFound;
    RecordsStandFor(values);
    PacketsDoNotMatter(st, packets);
    forall t | t in LinesOf(rows)
      ensures OneLine(t)
    {
      var r :| 0 <= r < |rows| && LineOf(rows[r]) == t;
      RowIsFound(rows[r], values[r]);
    }
    LinesAreFed(st, LinesOf(rows));
    RowsAreFound(rows, values);
  }

  // ----- the firmware -----

  /** The command between colon and equals sign, without slashes, as far as it fits. */
  method CopyCommand(s: seq<byte>) returns (cmd: seq<byte>)
    ensures cmd == (var all := WithoutSlashes(s); if |all| <= 7 then all else all[..7])
  {
    cmd := [];
    var cp := 0;
    while cp < |s| && |cmd| < 7
      invariant 0 <= cp <= |s| && |cmd| <= 7
      invariant cmd == WithoutSlashes(s[..cp])
    {
      assert s[..cp + 1][..cp] == s[..cp];
      if s[cp] != SLASH {
        cmd := cmd + [s[cp]];
      }
      cp := cp + 1;
    }
    assert s[..|s|] == s;
    PrefixWithoutSlashes(s, cp);
  }

  lemma {:induction false} PrefixWithoutSlashes(s: seq<byte>, n: nat)
    requires n <= |s|
    ensures WithoutSlashes(s[..n]) <= WithoutSlashes(s)
    decreases |s| - n
  {
    if n == |s| {
      assert s[..n] == s;
    } else {
      PrefixWithoutSlashes(s, n + 1);
      assert s[..n + 1][..n] == s[..n];
    }
  }

  method SplitTokens(s: seq<byte>) returns (tokens: seq<seq<byte>>)
    ensures tokens == Tokens(s, [], [])
  {
    tokens := [];
    var cur: seq<byte> := [];
    var i := 0;
    while i < |s| && |tokens| < TOKENS_MAX
      invariant 0 <= i <= |s| && |tokens| <= TOKENS_MAX
      invariant Tokens(s, [], []) == Tokens(s[i..], tokens, cur)
    {
      assert s[i..][1..] == s[i + 1..];
      if s[i] == COMMA || EndsLine(s[i]) {
        tokens := tokens + [cur];
        cur := [];
        if EndsLine(s[i]) {
          return;
        }
      } else if |cur| < TOKEN_LEN {
        cur := cur + [s[i]];
      }
      i := i + 1;
    }
    if cur != [] && |tokens| < TOKENS_MAX {
      tokens := tokens + [cur];
    }
  }

  method Scan(s: seq<byte>, c: byte, from: nat) returns (i: nat)
    requires from <= |s|
    ensures i == Find(s, c, from)
  {
    i := from;
    while i < |s| && s[i] != c
      invariant from <= i <= |s|
      invariant Find(s, c, from) == Find(s, c, i)
    {
      i := i + 1;
    }
  }

  method ParseR50(line: seq<byte>) returns (out: Option<Reading>)
    ensures out == Parse(line)
  {
    hide Tokens, WithoutSlashes, Find, Scaled;
    var end := Scan(line, 0, 0);
    var s := line[..end];
    var p := Scan(s, COLON, 0);
    var eq := Scan(s, EQUALS, p);
    if p == |s| || eq == |s| {
      return None;
    }
    var cmd := CopyCommand(s[p..eq]);
    assert IsR50(s[p..eq]) <==> |cmd| >= 4 && cmd[..4] == R50;
    if |cmd| < 4 || cmd[..4] != R50 {
      return None;
    }
    var tokens := SplitTokens(s[eq + 1..]);
    if |tokens| < TOKENS_MIN {
      return None;
    }
    var values: seq<int> := [];
    while |values| < |tokens|
      invariant |values| <= |tokens| && values == Values(tokens)[..|values|]
    {
      var x := ParseInt(tokens[|values|]);
      values := values + [x];
    }
    assert Values(tokens)[..|tokens|] == Values(tokens);
    return Some(Scaled(values));
  }

  class LineReader {
    const lineBuf: array<byte>
    var linePos: nat
    var readings: seq<Reading>

    ghost predicate Valid()
      reads this
    {
      lineBuf.Length == LINE_MAX + 1 && linePos <= LINE_MAX
    }

    ghost function Value(): Stream
      requires Valid()
      reads this, lineBuf
    {
      Stream(lineBuf[..linePos], readings)
    }

    constructor ()
      ensures Valid() && Value() == Stream([], []) && fresh(lineBuf)
    {
      lineBuf := new byte[LINE_MAX + 1](_ => 0);
      linePos, readings := 0, [];
    }

    method PutByte(c: byte)
      requires Valid()
      modifies this, lineBuf
      ensures Valid() && Value() == Put(old(Value()), c)
    {
      hide Parse;
      if EndsLine(c) {
        if linePos > 0 {
          var d := ParseR50(lineBuf[..linePos]);
          if d.Some? {
            readings := readings + [d.value];
          }
          linePos := 0;
        }
      } else if linePos < LINE_MAX {
        lineBuf[linePos] := c;
        linePos := linePos + 1;
      } else {
        linePos := 0;
      }
    }

    /** uart_rx_poll with a packet in the DMA buffer. */
    method Poll(len: nat, data: array<byte>)
      requires Valid() && data.Length == PACKET_MAX && data != lineBuf
      modifies this, lineBuf
      ensures Valid() && Value() == PollPacket(old(Value()), len, data[..])
    {
      hide Put;
      if len == 0 || len > PACKET_MAX {
        return;
      }
      var i := 0;
      while i < len
        invariant 0 <= i <= len && Valid()
        invariant Value() == Feed(old(Value()), data[..i])
        invariant data[..] == old(data[..])
      {
        assert data[..i + 1][..i] == data[..i];
        PutByte(data[i]);
        i := i + 1;
      }
      assert data[..][..len] == data[..len];
    }
  }
}
