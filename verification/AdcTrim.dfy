/** The sampling loop of adc_sample_and_get_result_op in platform/chip_8258/adc.c: eight
    readings are kept sorted as they come in, and the middle four are averaged. */
module AdcTrim {

  const SAMPLES: nat := 8

  /** Bit 13 is the sign; negative readings count as zero. */
  function Code(raw: nat): nat {
    if raw / 0x2000 % 2 == 1 then 0 else raw % 0x2000
  }

  function Codes(raw: seq<nat>): (c: seq<nat>)
    ensures |c| == |raw|
  {
    seq(|raw|, i requires 0 <= i < |raw| => Code(raw[i]))
  }

  /** Into a sorted list, behind everything that is not greater. */
  function Inserted(s: seq<nat>, x: nat): (r: seq<nat>)
    ensures |r| == |s| + 1
  {
    if s == [] || s[|s| - 1] <= x then s + [x]
    else Inserted(s[..|s| - 1], x) + [s[|s| - 1]]
  }

  function InsertionSort(c: seq<nat>): (r: seq<nat>)
    ensures |r| == |c|
  {
    if c == [] then [] else Inserted(InsertionSort(c[..|c| - 1]), c[|c| - 1])
  }

  function Average(s: seq<nat>): nat
    requires |s| == SAMPLES
  {
    (s[2] + s[3] + s[4] + s[5]) / 4
  }

  // ----- it sorts -----

  predicate Sorted(s: seq<nat>) {
    forall i, j :: 0 <= i < j < |s| ==> s[i] <= s[j]
  }

  lemma SortedSnoc(a: seq<nat>, y: nat)
    requires Sorted(a) && (a != [] ==> a[|a| - 1] <= y)
    ensures Sorted(a + [y])
  {
  }

  lemma {:induction false} InsertedIsSorted(s: seq<nat>, x: nat)
    requires Sorted(s)
    ensures Sorted(Inserted(s, x))
    ensures Inserted(s, x)[|s|] == if s == [] || s[|s| - 1] <= x then x else s[|s| - 1]
  {
    if s == [] || s[|s| - 1] <= x {
      SortedSnoc(s, x);
    } else {
      var front, last := s[..|s| - 1], s[|s| - 1];
      InsertedIsSorted(front, x);
      assert front != [] ==> front[|front| - 1] == s[|s| - 2] <= last;
      hide Sorted;
      SortedSnoc(Inserted(front, x), last);
    }
  }

  lemma {:induction false} InsertedIsPermutation(s: seq<nat>, x: nat)
    ensures multiset(Inserted(s, x)) == multiset(s) + multiset{x}
  {
    if s != [] && s[|s| - 1] > x {
      InsertedIsPermutation(s[..|s| - 1], x);
      assert s == s[..|s| - 1] + [s[|s| - 1]];
    }
  }

  /** What the loop leaves is sorted, and a permutation of the readings. */
  lemma {:induction false} SortIsPermutation(c: seq<nat>)
    ensures Sorted(InsertionSort(c)) && multiset(InsertionSort(c)) == multiset(c)
  {
    if c != [] {
      var front, last := c[..|c| - 1], c[|c| - 1];
      assert c == front + [last];
      SortIsPermutation(front);
      hide Sorted;
      InsertedIsSorted(InsertionSort(front), last);
      InsertedIsPermutation(InsertionSort(front), last);
    }
  }

  // ----- what the result is -----

  /** A reading with bit 13 set counts as zero; otherwise bits 0 to 12 count. `high` is what
      lies above bit 13. */
  lemma CodeIs(high: nat, r: nat)
    requires r < 8192
    ensures Code(16384 * high + 8192 + r) == 0 && Code(16384 * high + r) == r
  {
    assert (16384 * high + 8192 + r) / 8192 == 2 * high + 1 && (16384 * high + r) / 8192 == 2 * high;
  }

  /** The result is a quarter, rounded down, of the sum of the four in the middle of the sorted
      readings. */
  lemma ResultIs(raw: seq<nat>)
    requires |raw| == 8
    ensures var s, r := InsertionSort(Codes(raw)), Average(InsertionSort(Codes(raw)));
            && |s| == 8 && Sorted(s) && multiset(s) == multiset(Codes(raw))
            && 4 * r <= s[2] + s[3] + s[4] + s[5] < 4 * r + 4
            && forall i :: 0 <= i < 8 ==> Codes(raw)[i] == Code(raw[i])
  {
    SortIsPermutation(Codes(raw));
    hide InsertionSort, Sorted, Code;
  }

  // ----- the average withstands two bad readings -----

  /** How many readings lie in a range. */
  function Inside(s: seq<nat>, lo: nat, hi: nat): (n: nat)
    ensures n <= |s|
  {
    if s == [] then 0 else Inside(s[..|s| - 1], lo, hi) + if lo <= s[|s| - 1] <= hi then 1 else 0
  }

  lemma {:induction false} InsideAppend(a: seq<nat>, b: seq<nat>, lo: nat, hi: nat)
    ensures Inside(a + b, lo, hi) == Inside(a, lo, hi) + Inside(b, lo, hi)
  {
    if b == [] {
      assert a + b == a;
    } else {
      InsideAppend(a, b[..|b| - 1], lo, hi);
      assert (a + b)[..|a + b| - 1] == a + b[..|b| - 1];
    }
  }

  lemma {:induction false} InsertedInside(s: seq<nat>, x: nat, lo: nat, hi: nat)
    ensures Inside(Inserted(s, x), lo, hi) == Inside(s + [x], lo, hi)
  {
    InsideAppend(s, [x], lo, hi);
    if s != [] && s[|s| - 1] > x {
      InsertedInside(s[..|s| - 1], x, lo, hi);
      InsideAppend(s[..|s| - 1], [x], lo, hi);
      InsideAppend(Inserted(s[..|s| - 1], x), [s[|s| - 1]], lo, hi);
      InsideAppend(s[..|s| - 1], [s[|s| - 1]], lo, hi);
      assert s == s[..|s| - 1] + [s[|s| - 1]];
    }
  }

  lemma {:induction false} SortInside(c: seq<nat>, lo: nat, hi: nat)
    ensures Inside(InsertionSort(c), lo, hi) == Inside(c, lo, hi)
  {
    if c != [] {
      SortInside(c[..|c| - 1], lo, hi);
      InsertedInside(InsertionSort(c[..|c| - 1]), c[|c| - 1], lo, hi);
      InsideAppend(InsertionSort(c[..|c| - 1]), [c[|c| - 1]], lo, hi);
    }
  }

  lemma {:induction false} NoneInside(s: seq<nat>, lo: nat, hi: nat)
    requires forall i :: 0 <= i < |s| ==> !(lo <= s[i] <= hi)
    ensures Inside(s, lo, hi) == 0
  {
    if s != [] {
      NoneInside(s[..|s| - 1], lo, hi);
    }
  }

  lemma MiddleIsInside(s: seq<nat>, lo: nat, hi: nat)
    requires |s| == SAMPLES && Sorted(s) && Inside(s, lo, hi) >= 6
    ensures lo <= s[2] && s[5] <= hi
  {
    InsideAppend(s[..3], s[3..], lo, hi);
    InsideAppend(s[..5], s[5..], lo, hi);
    assert s == s[..3] + s[3..] == s[..5] + s[5..];
    if s[2] < lo {
      NoneInside(s[..3], lo, hi);
    } else if s[5] > hi {
      NoneInside(s[5..], lo, hi);
    }
  }

  /** If at least six of the eight readings lie in a range, so does the result, whatever the
      other two are. */
  lemma TrimmedMeanIsRobust(raw: seq<nat>, lo: nat, hi: nat)
    requires |raw| == SAMPLES && Inside(Codes(raw), lo, hi) >= 6
    ensures lo <= Average(InsertionSort(Codes(raw))) <= hi
  {
    var s := InsertionSort(Codes(raw));
    SortIsPermutation(Codes(raw));
    SortInside(Codes(raw), lo, hi);
    hide InsertionSort, Inside;
    MiddleIsInside(s, lo, hi);
    assert s[2] <= s[3] <= s[4] <= s[5];
  }

  lemma {:induction false} AllInside(s: seq<nat>, lo: nat, hi: nat)
    requires forall i :: 0 <= i < |s| ==> lo <= s[i] <= hi
    ensures Inside(s, lo, hi) == |s|
  {
    if s != [] {
      AllInside(s[..|s| - 1], lo, hi);
    }
  }

  /** Two bad readings are the most that is withstood: with five of eight in range the result
      can leave it. */
  lemma ThreeBadReadingsShow(hi: nat)
    requires hi < 0x400
    ensures exists raw :: |raw| == SAMPLES && Inside(Codes(raw), 0, hi) == 5 && Average(InsertionSort(Codes(raw))) > hi
  {
    var x := 4 * hi + 4;
    var good, bad := [0, 0, 0, 0, 0], [x, x, x];
    var raw := good + bad;
    assert Code(x) == x && Codes(raw) == raw;
    AlreadySorted(raw);
    AllInside(good, 0, hi);
    NoneInside(bad, 0, hi);
    InsideAppend(good, bad, 0, hi);
    hide InsertionSort, Inside, Codes, Code;
    assert Average(raw) == x / 4;
  }

  lemma {:induction false} AlreadySorted(s: seq<nat>)
    requires Sorted(s)
    ensures InsertionSort(s) == s
  {
    if s != [] {
      AlreadySorted(s[..|s| - 1]);
      assert s == s[..|s| - 1] + [s[|s| - 1]];
    }
  }

  // ----- the firmware -----

  lemma {:induction false} InsertedAt(s: seq<nat>, x: nat, p: nat)
    requires p <= |s| && (forall k :: p <= k < |s| ==> s[k] > x) && (p > 0 ==> s[p - 1] <= x)
    ensures Inserted(s, x) == s[..p] + [x] + s[p..]
  {
    if p == |s| {
      assert s[..p] + [x] + s[p..] == s + [x];
    } else {
      var front, last := s[..|s| - 1], s[|s| - 1];
      InsertedAt(front, x, p);
      assert front[..p] + [x] + front[p..] + [last] == s[..p] + [x] + s[p..];
    }
  }

  lemma SplicedAt(s: seq<nat>, x: nat, p: nat, k: nat)
    requires p <= |s| && k <= |s|
    ensures (s[..p] + [x] + s[p..])[k] == if k < p then s[k] else if k == p then x else s[k - 1]
  {
  }

  /** Move the greater samples before the `i`-th one up by one place, and put it at `p`. */
  method ShiftIn(sample: array<nat>, i: nat) returns (p: nat)
    requires 0 < i < sample.Length && sample[i] < sample[i - 1]
    modifies sample
    ensures p < i && (p > 0 ==> old(sample[p - 1]) <= old(sample[i]))
    ensures forall k :: p <= k < i ==> old(sample[k]) > old(sample[i])
    ensures forall k :: 0 <= k < sample.Length && !(p <= k <= i) ==> sample[k] == old(sample[k])
    ensures sample[p] == old(sample[i]) && forall k :: p < k <= i ==> sample[k] == old(sample[k - 1])
  {
    var temp := sample[i];
    sample[i] := sample[i - 1];
    var j := i - 1;
    while j >= 0 && sample[j] > temp
      invariant -1 <= j < i && (j == i - 1 ==> old(sample[j]) > temp)
      invariant forall k :: 0 <= k < sample.Length && !(j < k <= i) ==> sample[k] == old(sample[k])
      invariant forall k :: j + 1 < k <= i ==> sample[k] == old(sample[k - 1])
      invariant forall k :: j < k < i ==> old(sample[k]) > temp
    {
      sample[j + 1] := sample[j];
      j := j - 1;
    }
    sample[j + 1] := temp;
    p := j + 1;
  }

  /** Insert the `i`-th sample into the ones before it, in place. */
  method Insert(sample: array<nat>, i: nat)
    requires i < sample.Length
    modifies sample
    ensures sample[..i + 1] == Inserted(old(sample[..i]), old(sample[i]))
    ensures forall k :: i < k < sample.Length ==> sample[k] == old(sample[k])
  {
    hide Inserted;
    ghost var s, x := sample[..i], sample[i];
    var p := i;
    if i > 0 {
      if sample[i] < sample[i - 1] {
        p := ShiftIn(sample, i);
      }
    }
    InsertedAt(s, x, p);
    forall k | 0 <= k <= i
      ensures sample[k] == Inserted(s, x)[k]
    {
      SplicedAt(s, x, p, k);
    }
  }

  /** The loop of adc_sample_and_get_result_op over the readings DMA has delivered, and the
      average of the middle ones. */
  method SampleAndAverage(raw: array<nat>, sample: array<nat>) returns (average: nat)
    requires raw.Length == sample.Length == SAMPLES && raw != sample
    modifies sample
    ensures sample[..] == InsertionSort(Codes(raw[..]))
    ensures average == Average(InsertionSort(Codes(raw[..])))
  {
    hide Code;
    var i := 0;
    while i < SAMPLES
      invariant 0 <= i <= SAMPLES
      invariant sample[..i] == InsertionSort(Codes(raw[..i]))
    {
      ghost var before := sample[..i];
      sample[i] := Code(raw[i]);
      assert sample[..i] == before;
      Insert(sample, i);
      assert Codes(raw[..i + 1])[..i] == Codes(raw[..i]);
      i := i + 1;
    }
    assert raw[..SAMPLES] == raw[..] && sample[..SAMPLES] == sample[..];
    average := (sample[2] + sample[3] + sample[4] + sample[5]) / 4;
  }
}
