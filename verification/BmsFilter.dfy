/** The plausibility filter of apps/juntekBMS/juntekMonitor.c over exact real numbers: range
    check, rate limit against the last output, and a moving average over four samples. */
module BmsFilter {
  import opened Words
  import opened JuntekStream

  const N: nat := 4

  /** bms_filter_t. */
  datatype Ring = Ring(buf: seq<real>, idx: nat, filled: bool, last: real, initialized: bool)

  /** juntek_filter_cfg_t. */
  datatype Config = Config(voltMin: real, voltMax: real, currMin: real, currMax: real, tempMin: real, tempMax: real,
                           ahMax: real, voltRate: real, currRate: real, tempRate: real)

  datatype Filter = Filter(voltage: Ring, current: Ring, temperature: Ring, remainAh: Ring)

  // ----- the code -----

  function Sum(s: seq<real>): real {
    if s == [] then 0.0 else Sum(s[..|s| - 1]) + s[|s| - 1]
  }

  predicate Sized(f: Ring) {
    |f.buf| == N && f.idx < N
  }

  /** The ring with `v` in it. */
  function Pushed(f: Ring, v: real): (r: Ring)
    requires Sized(f)
    ensures Sized(r)
  {
    var idx := (f.idx + 1) % N;
    f.(buf := f.buf[f.idx := v], idx := idx, filled := f.filled || idx == 0)
  }

  function InUse(f: Ring): (n: nat)
    ensures n > 0
  {
    if f.filled then N else if f.idx > 0 then f.idx else 1
  }

  /** filter_avg: the new ring and its average. */
  function Averaged(f: Ring, v: real): (real, Ring)
    requires Sized(f)
  {
    var g := Pushed(f, v);
    (Sum(g.buf[..InUse(g)]) / InUse(g) as real, g)
  }

  function Abs(x: real): real {
    if x < 0.0 then -x else x
  }

  predicate InRange(c: Config, d: Reading) {
    && !(d.voltage < c.voltMin || d.voltage > c.voltMax)
    && !(d.current < c.currMin || d.current > c.currMax)
    && !(d.temperature < c.tempMin || d.temperature > c.tempMax)
    && !(d.remainAh < 0.0 || d.remainAh > c.ahMax)
  }

  predicate InRate(c: Config, f: Filter, d: Reading) {
    f.voltage.initialized ==>
      && !(Abs(d.voltage - f.voltage.last) > c.voltRate)
      && !(Abs(d.current - f.current.last) > c.currRate)
      && !(Abs(d.temperature - f.temperature.last) > c.tempRate)
  }

  predicate Ready(f: Filter) {
    Sized(f.voltage) && Sized(f.current) && Sized(f.temperature) && Sized(f.remainAh)
  }

  function Power(voltage: real, current: real): real {
    voltage * current
  }

  /** The ring after its average has been taken over as the last output. */
  function Output(a: (real, Ring)): Ring {
    a.1.(last := a.0, initialized := true)
  }

  /** bms_filter_apply: what is published, if anything, and the new filter state. */
  function Apply(f: Filter, c: Config, d: Reading): (Option<Reading>, Filter)
    requires Ready(f)
  {
    if !InRange(c, d) || !InRate(c, f, d) then (None, f)
    else
      var v, a := Averaged(f.voltage, d.voltage), Averaged(f.current, d.current);
      var t, ah := Averaged(f.temperature, d.temperature), Averaged(f.remainAh, d.remainAh);
      (Some(d.(voltage := v.0, current := a.0, temperature := t.0, remainAh := ah.0, power := Power(v.0, a.0))),
       Filter(Output(v), Output(a), Output(t), Output(ah)))
  }

  // ----- a window over the accepted samples -----

  function Window(h: seq<real>): seq<real> {
    if |h| <= N then h else h[|h| - N..]
  }

  function Mean(h: seq<real>): real
    requires h != []
  {
    Sum(Window(h)) / |Window(h)| as real
  }

  /** The ring after the samples `h`: the newest ones, each in its place, and their mean. */
  ghost predicate Holds(f: Ring, h: seq<real>) {
    && Sized(f) && f.idx == |h| % N && (f.filled <==> |h| >= N)
    && (forall k :: 0 <= k < |h| && |h| <= k + N ==> f.buf[k % N] == h[k])
    && (f.initialized <==> h != [])
    && (h != [] ==> f.last == Mean(h))
  }

  lemma SumOfFour(s: seq<real>)
    ensures |s| == 1 ==> Sum(s) == s[0]
    ensures |s| == 2 ==> Sum(s) == s[0] + s[1]
    ensures |s| == 3 ==> Sum(s) == s[0] + s[1] + s[2]
    ensures |s| == 4 ==> Sum(s) == s[0] + s[1] + s[2] + s[3]
  {
  }

  lemma NextSlot(n: nat, idx: nat)
    requires idx == n % N
    ensures (idx + 1) % N == (n + 1) % N
    ensures (idx + 1) % N == 0 ==> n + 1 >= N
    ensures n + 1 < N ==> (idx + 1) % N == n + 1
  {
  }

  lemma OtherSlot(k: nat, n: nat)
    requires k < n < k + N
    ensures k % N != n % N
  {
  }

  lemma PushHolds(f: Ring, h: seq<real>, v: real)
    requires Holds(f, h)
    ensures var g, h' := Pushed(f, v), h + [v];
            && g.idx == |h'| % N && (g.filled <==> |h'| >= N)
            && InUse(g) == (if |h'| < N then |h'| else N)
            && forall k :: 0 <= k < |h'| && |h'| <= k + N ==> g.buf[k % N] == h'[k]
  {
    hide Mean;
    NextSlot(|h|, f.idx);
    var g, h' := Pushed(f, v), h + [v];
    forall k | 0 <= k < |h'| && |h'| <= k + N
      ensures g.buf[k % N] == h'[k]
    {
      if k < |h| {
        OtherSlot(k, |h|);
        assert f.buf[k % N] == h[k];
      }
    }
  }

  lemma MeanIs(h: seq<real>)
    requires h != []
    ensures var n := |h|;
            Mean(h) == if n == 1 then h[0]
                       else if n == 2 then (h[0] + h[1]) / 2.0
                       else if n == 3 then (h[0] + h[1] + h[2]) / 3.0
                       else (h[n - 4] + h[n - 3] + h[n - 2] + h[n - 1]) / 4.0
  {
    SumOfFour(Window(h));
    hide Sum;
    if |h| > 4 {
      var w, n := Window(h), |h|;
      assert w[0] == h[n - 4] && w[1] == h[n - 3] && w[2] == h[n - 2] && w[3] == h[n - 1];
    }
  }

  lemma FullSum(buf: seq<real>, h: seq<real>)
    requires |buf| == N <= |h| && forall k :: 0 <= k < |h| && |h| <= k + N ==> buf[k % N] == h[k]
    ensures Sum(buf[..N]) == Sum(Window(h))
  {
    SumOfFour(buf[..N]);
    SumOfFour(Window(h));
    hide Sum;
    RotatedSum(buf, h);
  }

  lemma PartSum(buf: seq<real>, h: seq<real>)
    requires |h| < N == |buf| && forall k :: 0 <= k < |h| && |h| <= k + N ==> buf[k % N] == h[k]
    ensures buf[..|h|] == h == Window(h)
  {
  }

  /** The average is the mean of the last samples, four of them or as many as there are. */
  lemma AverageIsMean(f: Ring, h: seq<real>, v: real)
    requires Holds(f, h)
    ensures Averaged(f, v).0 == Mean(h + [v])
    ensures Holds(Output(Averaged(f, v)), h + [v])
  {
    PushHolds(f, h, v);
    var g, h' := Pushed(f, v), h + [v];
    if |h'| >= N {
      FullSum(g.buf, h');
    } else {
      PartSum(g.buf, h');
    }
    hide Sum;
  }

  lemma RotatedSum(buf: seq<real>, h: seq<real>)
    requires |buf| == N <= |h| && forall k :: 0 <= k < |h| && |h| <= k + N ==> buf[k % N] == h[k]
    ensures buf[0] + buf[1] + buf[2] + buf[3] == h[|h| - 4] + h[|h| - 3] + h[|h| - 2] + h[|h| - 1]
  {
  }

  // ----- runs -----

  function Voltages(a: seq<Reading>): (h: seq<real>)
    ensures |h| == |a|
  {
    seq(|a|, i requires 0 <= i < |a| => a[i].voltage)
  }

  function Currents(a: seq<Reading>): (h: seq<real>)
    ensures |h| == |a|
  {
    seq(|a|, i requires 0 <= i < |a| => a[i].current)
  }

  function Temperatures(a: seq<Reading>): (h: seq<real>)
    ensures |h| == |a|
  {
    seq(|a|, i requires 0 <= i < |a| => a[i].temperature)
  }

  function Charges(a: seq<Reading>): (h: seq<real>)
    ensures |h| == |a|
  {
    seq(|a|, i requires 0 <= i < |a| => a[i].remainAh)
  }

  /** All four rings hold the same accepted samples. */
  ghost predicate Lockstep(f: Filter, a: seq<Reading>) {
    && Holds(f.voltage, Voltages(a)) && Holds(f.current, Currents(a))
    && Holds(f.temperature, Temperatures(a)) && Holds(f.remainAh, Charges(a))
  }

  /** What the window makes of the accepted samples. */
  function Smoothed(a: seq<Reading>): Reading
    requires a != []
  {
    var v, i := Mean(Voltages(a)), Mean(Currents(a));
    a[|a| - 1].(voltage := v, current := i, temperature := Mean(Temperatures(a)),
                remainAh := Mean(Charges(a)), power := Power(v, i))
  }

  /** One sample: rejected without a trace, or published as the mean of the window. */
  lemma SampleFollows(f: Filter, c: Config, a: seq<Reading>, d: Reading)
    requires Lockstep(f, a)
    ensures var (out, g) := Apply(f, c, d);
            if InRange(c, d) && InRate(c, f, d) then out == Some(Smoothed(a + [d])) && Lockstep(g, a + [d])
            else out == None && g == f
  {
    hide Holds, Averaged, Mean, Power;
    SampleSizes(f, a);
    AverageIsMean(f.voltage, Voltages(a), d.voltage);
    AverageIsMean(f.current, Currents(a), d.current);
    AverageIsMean(f.temperature, Temperatures(a), d.temperature);
    AverageIsMean(f.remainAh, Charges(a), d.remainAh);
    SamplesGrow(a, d);
    assert (a + [d])[|a + [d]| - 1] == d;
  }

  lemma SampleSizes(f: Filter, a: seq<Reading>)
    requires Lockstep(f, a)
    ensures Ready(f)
  {
  }

  const FRESH: Ring := Ring([0.0, 0.0, 0.0, 0.0], 0, false, 0.0, false)

  const START: Filter := Filter(FRESH, FRESH, FRESH, FRESH)

  /** The samples accepted in a run. */
  function Accepted(c: Config, ds: seq<Reading>): seq<Reading>
    decreases |ds|, 0
  {
    if ds == [] then []
    else
      var before, d := Accepted(c, ds[..|ds| - 1]), ds[|ds| - 1];
      var f := After(c, ds[..|ds| - 1]);
      if InRange(c, d) && InRate(c, f, d) then before + [d] else before
  }

  function After(c: Config, ds: seq<Reading>): (f: Filter)
    ensures Ready(f)
    decreases |ds|
  {
    if ds == [] then START else Apply(After(c, ds[..|ds| - 1]), c, ds[|ds| - 1]).1
  }

  function Published(c: Config, ds: seq<Reading>): seq<Reading>
    decreases |ds|
  {
    if ds == [] then []
    else
      match Apply(After(c, ds[..|ds| - 1]), c, ds[|ds| - 1]).0
      case None => Published(c, ds[..|ds| - 1])
      case Some(r) => Published(c, ds[..|ds| - 1]) + [r]
  }

  /** The k-th record is the mean of the window after k + 1 accepted samples. */
  ghost predicate Windows(published: seq<Reading>, a: seq<Reading>) {
    && |published| == |a|
    && forall k :: 0 <= k < |published| ==> published[k] == Smoothed(a[..k + 1])
  }

  lemma WindowsGrow(published: seq<Reading>, a: seq<Reading>, d: Reading)
    requires Windows(published, a)
    ensures Windows(published + [Smoothed(a + [d])], a + [d])
  {
    hide Smoothed;
    var p, b := published + [Smoothed(a + [d])], a + [d];
    forall k | 0 <= k < |p|
      ensures p[k] == Smoothed(b[..k + 1])
    {
      if k < |a| {
        assert b[..k + 1] == a[..k + 1];
      } else {
        assert b[..k + 1] == b;
      }
    }
  }

  /** Over any run with a fixed configuration the rings stay in lockstep, and the k-th record
      published is the mean of the last min(k, 4) accepted samples. */
  lemma {:induction false} RunIsWindow(c: Config, ds: seq<Reading>)
    ensures Lockstep(After(c, ds), Accepted(c, ds))
    ensures Windows(Published(c, ds), Accepted(c, ds))
    decreases |ds|
  {
    if ds == [] {
      hide Mean;
      assert Lockstep(START, []);
    } else {
      var front, d := ds[..|ds| - 1], ds[|ds| - 1];
      hide Lockstep, Smoothed, Apply, InRange, InRate, Windows;
      RunIsWindow(c, front);
      var a := Accepted(c, front);
      SampleFollows(After(c, front), c, a, d);
      WindowsGrow(Published(c, front), a, d);
    }
  }

  /** From the serial line to the reports: the records of the lines received, in order, are
      what the filter smooths. */
  lemma StreamIsSmoothed(c: Config, rows: seq<seq<seq<byte>>>, values: seq<seq<int>>, packets: seq<seq<byte>>)
    requires |rows| == |values| && forall v :: v in values ==> |v| >= TOKENS_MIN
    requires forall r :: 0 <= r < |rows| ==> IsRow(rows[r], values[r])
    requires forall p :: p in packets ==> 1 <= |p| <= PACKET_MAX
    requires Flat(packets) == Text(LinesOf(rows))
    ensures var readings := Polls(Stream([], []), packets).readings;
            && readings == Records(values) && |readings| == |values|
            && (forall r :: 0 <= r < |values| ==> StandsFor(readings[r], values[r]))
            && Windows(Published(c, readings), Accepted(c, Records(values)))
  {
    hide IsRow, LinesOf, Text, Flat, Windows, Published, Accepted, Records, Polls, Lockstep;
    StreamIsRead(Stream([], []), rows, values, packets);
    RunIsWindow(c, Records(values));
  }

  // ----- a filter that nothing gets through -----

  /** The sample is within all ranges, and within all rates of the last outputs. */
  predicate Acceptable(c: Config, f: Filter, d: Reading) {
    InRange(c, d) && InRate(c, f, d)
  }

  lemma RejectedLeavesNoTrace(c: Config, ds: seq<Reading>, d: Reading)
    ensures Published(c, ds) <= Published(c, ds + [d])
    ensures if Acceptable(c, After(c, ds), d) then |Published(c, ds + [d])| == |Published(c, ds)| + 1
            else Published(c, ds + [d]) == Published(c, ds) && After(c, ds + [d]) == After(c, ds)
  {
    hide InRange, InRate, Averaged;
    assert (ds + [d])[..|ds|] == ds;
  }

  lemma {:induction false} PublishedGrows(c: Config, ds: seq<Reading>, later: seq<Reading>)
    ensures |Published(c, ds)| <= |Published(c, ds + later)|
    decreases |later|
  {
    hide Published, Acceptable, After;
    if later == [] {
      assert ds + later == ds;
    } else {
      RejectedLeavesNoTrace(c, ds, later[0]);
      PublishedGrows(c, ds + [later[0]], later[1..]);
      assert ds + [later[0]] + later[1..] == ds + later;
    }
  }

  /** Rejected samples do not move the outputs they are compared with, so a run publishes
      nothing more, however long it is, exactly if none of its samples would be accepted first. */
  lemma {:induction false} SilentIff(c: Config, ds: seq<Reading>, later: seq<Reading>)
    ensures Published(c, ds + later) == Published(c, ds) <==>
              forall d :: d in later ==> !Acceptable(c, After(c, ds), d)
    decreases |later|
  {
    hide Published, Acceptable, After;
    if later == [] {
      assert ds + later == ds;
    } else {
      var d, rest := later[0], later[1..];
      assert later == [d] + rest;
      assert ds + [d] + rest == ds + later;
      RejectedLeavesNoTrace(c, ds, d);
      if Acceptable(c, After(c, ds), d) {
        PublishedGrows(c, ds + [d], rest);
        assert d in later;
      } else {
        SilentIff(c, ds + [d], rest);
        assert forall x :: x in later <==> x == d || x in rest;
      }
    }
  }

  /** A lasting jump of the voltage by more than its rate limit silences the filter for good. */
  lemma JumpSilences(c: Config, ds: seq<Reading>, later: seq<Reading>)
    requires Accepted(c, ds) != []
    requires forall d :: d in later ==> Abs(d.voltage - Mean(Voltages(Accepted(c, ds)))) > c.voltRate
    ensures Published(c, ds) != []
    ensures Published(c, ds)[|Published(c, ds)| - 1].voltage == Mean(Voltages(Accepted(c, ds)))
    ensures Published(c, ds + later) == Published(c, ds)
  {
    hide Published, Accepted, After, Mean, InRange, Abs;
    RunIsWindow(c, ds);
    var a := Accepted(c, ds);
    assert Published(c, ds)[|a| - 1] == Smoothed(a[..|a|]) && a[..|a|] == a;
    SilentIff(c, ds, later);
  }

  // ----- bounds -----

  predicate AllBetween(s: seq<real>, lo: real, hi: real) {
    forall x :: x in s ==> lo <= x <= hi
  }

  lemma OneMore(x: real, n: nat)
    ensures x * (n + 1) as real == x * n as real + x
  {
  }

  lemma {:induction false} SumBetween(s: seq<real>, lo: real, hi: real)
    requires AllBetween(s, lo, hi)
    ensures lo * |s| as real <= Sum(s) <= hi * |s| as real
  {
    if s != [] {
      var t := s[..|s| - 1];
      assert s[|s| - 1] in s && forall x :: x in t ==> x in s;
      SumBetween(t, lo, hi);
      OneMore(lo, |t|);
      OneMore(hi, |t|);
    }
  }

  lemma QuotientBetween(sum: real, n: real, lo: real, hi: real)
    requires n > 0.0 && lo * n <= sum <= hi * n
    ensures lo <= sum / n <= hi
  {
  }

  lemma MeanBetween(h: seq<real>, lo: real, hi: real)
    requires h != [] && AllBetween(h, lo, hi)
    ensures lo <= Mean(h) <= hi
  {
    var w := Window(h);
    assert forall x :: x in w ==> x in h;
    SumBetween(w, lo, hi);
    QuotientBetween(Sum(w), |w| as real, lo, hi);
  }

  lemma {:induction false} AcceptedInRange(c: Config, ds: seq<Reading>)
    ensures forall d :: d in Accepted(c, ds) ==> InRange(c, d)
    decreases |ds|
  {
    hide InRange, InRate, Apply;
    if ds != [] {
      AcceptedInRange(c, ds[..|ds| - 1]);
    }
  }

  /** Everything ever published lies in the configured ranges. */
  lemma PublishedInRange(c: Config, ds: seq<Reading>)
    ensures forall r :: r in Published(c, ds) ==>
              && c.voltMin <= r.voltage <= c.voltMax && c.currMin <= r.current <= c.currMax
              && c.tempMin <= r.temperature <= c.tempMax && 0.0 <= r.remainAh <= c.ahMax
  {
    PublishedPass(c, ds);
    hide Published;
    forall r | r in Published(c, ds)
      ensures && c.voltMin <= r.voltage <= c.voltMax && c.currMin <= r.current <= c.currMax
              && c.tempMin <= r.temperature <= c.tempMax && 0.0 <= r.remainAh <= c.ahMax
    {
      assert InRange(c, r);
    }
  }

  /** Within the distance `d` of each other. */
  predicate Near(x: real, y: real, d: real) {
    x - d <= y <= x + d
  }

  /** When a sample is published: it lies in the four ranges and, once there is a last record,
      its voltage, current and temperature within their rates of that record's. */
  lemma PublishedIff(c: Config, ds: seq<Reading>, d: Reading)
    ensures var p, q := Published(c, ds), Published(c, ds + [d]);
            && (|q| == |p| + 1 || q == p) && p <= q
            && (|q| == |p| + 1 <==>
                  && c.voltMin <= d.voltage <= c.voltMax && c.currMin <= d.current <= c.currMax
                  && c.tempMin <= d.temperature <= c.tempMax && 0.0 <= d.remainAh <= c.ahMax
                  && (p != [] ==>
                        && Near(p[|p| - 1].voltage, d.voltage, c.voltRate)
                        && Near(p[|p| - 1].current, d.current, c.currRate)
                        && Near(p[|p| - 1].temperature, d.temperature, c.tempRate)))
  {
    hide After, Published, Acceptable, Near;
    RejectedLeavesNoTrace(c, ds, d);
    LastIsPublished(c, ds);
    RateIs(c, After(c, ds), d);
  }

  lemma RateIs(c: Config, f: Filter, d: Reading)
    ensures Acceptable(c, f, d) <==>
              && c.voltMin <= d.voltage <= c.voltMax && c.currMin <= d.current <= c.currMax
              && c.tempMin <= d.temperature <= c.tempMax && 0.0 <= d.remainAh <= c.ahMax
              && (f.voltage.initialized ==>
                    && Near(f.voltage.last, d.voltage, c.voltRate)
                    && Near(f.current.last, d.current, c.currRate)
                    && Near(f.temperature.last, d.temperature, c.tempRate))
  {
  }

  /** The outputs the next sample is compared with are those of the last record. */
  lemma LastIsPublished(c: Config, ds: seq<Reading>)
    ensures var f, p := After(c, ds), Published(c, ds);
            && (f.voltage.initialized <==> p != [])
            && (p != [] ==>
                  && f.voltage.last == p[|p| - 1].voltage && f.current.last == p[|p| - 1].current
                  && f.temperature.last == p[|p| - 1].temperature && f.remainAh.last == p[|p| - 1].remainAh)
  {
    RunIsWindow(c, ds);
    hide Mean, Power, Published, After, Accepted;
    var p, a := Published(c, ds), Accepted(c, ds);
    if p != [] {
      assert p[|p| - 1] == Smoothed(a[..|a|]) && a[..|a|] == a;
    }
  }

  /** The plain average of one, two or three numbers, and of the last four from the fourth on. */
  predicate Averages(r: real, h: seq<real>) {
    var n := |h|;
    && (n == 1 ==> r == h[0])
    && (n == 2 ==> 2.0 * r == h[0] + h[1])
    && (n == 3 ==> 3.0 * r == h[0] + h[1] + h[2])
    && (n >= 4 ==> 4.0 * r == h[n - 4] + h[n - 3] + h[n - 2] + h[n - 1])
  }

  /** The last record after some accepted samples: four averages, the power of two of them, and
      the relay and the minutes of the last sample. */
  lemma SmoothedIs(a: seq<Reading>, volts: seq<real>, amps: seq<real>, temps: seq<real>, charges: seq<real>)
    requires a != [] && |volts| == |amps| == |temps| == |charges| == |a|
    requires forall i :: 0 <= i < |a| ==>
               && volts[i] == a[i].voltage && amps[i] == a[i].current
               && temps[i] == a[i].temperature && charges[i] == a[i].remainAh
    ensures var r, last := Smoothed(a), a[|a| - 1];
            && Averages(r.voltage, volts) && Averages(r.current, amps)
            && Averages(r.temperature, temps) && Averages(r.remainAh, charges)
            && r.power == r.voltage * r.current && r.relay == last.relay && r.elapsedMin == last.elapsedMin
  {
    hide Mean, Averages;
    assert volts == Voltages(a) && amps == Currents(a) && temps == Temperatures(a) && charges == Charges(a);
    MeanAverages(volts);
    MeanAverages(amps);
    MeanAverages(temps);
    MeanAverages(charges);
  }

  lemma MeanAverages(h: seq<real>)
    requires h != []
    ensures Averages(Mean(h), h)
  {
    hide Mean;
    MeanIs(h);
  }

  lemma PublishedPass(c: Config, ds: seq<Reading>)
    ensures forall r :: r in Published(c, ds) ==> InRange(c, r)
  {
    RunIsWindow(c, ds);
    AcceptedInRange(c, ds);
    var a := Accepted(c, ds);
    forall r | r in Published(c, ds)
      ensures InRange(c, r)
    {
      var k :| 0 <= k < |Published(c, ds)| && Published(c, ds)[k] == r;
      hide Published, Accepted, Lockstep, InRange, Smoothed;
      assert forall d :: d in a[..k + 1] ==> d in a;
      SmoothedInRange(c, a[..k + 1]);
    }
  }

  lemma SmoothedInRange(c: Config, a: seq<Reading>)
    requires a != [] && forall d :: d in a ==> InRange(c, d)
    ensures InRange(c, Smoothed(a))
  {
    hide Mean;
    assert forall i :: 0 <= i < |a| ==> a[i] in a && InRange(c, a[i]);
    MeanBetween(Voltages(a), c.voltMin, c.voltMax);
    MeanBetween(Currents(a), c.currMin, c.currMax);
    MeanBetween(Temperatures(a), c.tempMin, c.tempMax);
    MeanBetween(Charges(a), 0.0, c.ahMax);
  }

  /** While the window fills, the k-th sample moves the mean by a k-th of its distance; from
      then on by a quarter of its distance from the sample that leaves the window. */
  lemma MeanMoves(h: seq<real>, v: real)
    requires h != []
    ensures var k := |h| + 1;
            if k <= N then (Mean(h + [v]) - Mean(h)) * k as real == v - Mean(h)
            else (Mean(h + [v]) - Mean(h)) * N as real == v - h[|h| - N]
  {
    MeanIs(h);
    MeanIs(h + [v]);
    hide Mean;
    var n := |h|;
    if n >= N {
      assert (h + [v])[n - 3] == h[n - 3] && (h + [v])[n - 2] == h[n - 2];
      assert (h + [v])[n - 1] == h[n - 1] && (h + [v])[n] == v;
    }
  }

  lemma StepBound(h: seq<real>, v: real, rate: real)
    requires 1 <= |h| < N && Abs(v - Mean(h)) <= rate
    ensures Abs(Mean(h + [v]) - Mean(h)) <= rate / (|h| + 1) as real
  {
  }

  lemma LastOutputs(f: Filter, a: seq<Reading>)
    requires Lockstep(f, a) && a != []
    ensures f.voltage.initialized && f.voltage.last == Mean(Voltages(a))
    ensures f.current.last == Mean(Currents(a)) && f.temperature.last == Mean(Temperatures(a))
  {
  }

  lemma SamplesGrow(a: seq<Reading>, d: Reading)
    ensures Voltages(a + [d]) == Voltages(a) + [d.voltage] && Currents(a + [d]) == Currents(a) + [d.current]
    ensures Temperatures(a + [d]) == Temperatures(a) + [d.temperature] && Charges(a + [d]) == Charges(a) + [d.remainAh]
  {
  }

  /** The k-th accepted sample, while the window fills, moves the voltage, current and
      temperature that are published by at most a k-th of their rate limits. */
  lemma FillMovesSlowly(f: Filter, c: Config, a: seq<Reading>, d: Reading)
    requires Lockstep(f, a) && 2 <= |a| + 1 <= N && InRate(c, f, d)
    ensures var before, after, k := Smoothed(a), Smoothed(a + [d]), (|a| + 1) as real;
            && Abs(after.voltage - before.voltage) <= c.voltRate / k
            && Abs(after.current - before.current) <= c.currRate / k
            && Abs(after.temperature - before.temperature) <= c.tempRate / k
  {
    hide Mean, Abs, Lockstep, Power;
    LastOutputs(f, a);
    SamplesGrow(a, d);
    hide Voltages, Currents, Temperatures, Charges;
    StepBound(Voltages(a), d.voltage, c.voltRate);
    StepBound(Currents(a), d.current, c.currRate);
    StepBound(Temperatures(a), d.temperature, c.tempRate);
  }

  lemma QuarterIff(h: seq<real>, v: real, rate: real)
    requires |h| >= N
    ensures Abs(Mean(h + [v]) - Mean(h)) <= rate / 4.0 <==> Abs(v - h[|h| - N]) <= rate
  {
    hide Mean;
    MeanMoves(h, v);
  }

  /** Once the window is full an output moves by at most a quarter of a rate exactly if the
      new sample lies within that rate of the sample that leaves the window, which the rate
      limit does not ask for. */
  lemma FullWindowMoves(c: Config, a: seq<Reading>, d: Reading)
    requires |a| >= N
    ensures var before, after, leaving := Smoothed(a), Smoothed(a + [d]), a[|a| - N];
            && (Abs(after.voltage - before.voltage) <= c.voltRate / 4.0
                <==> Abs(d.voltage - leaving.voltage) <= c.voltRate)
            && (Abs(after.current - before.current) <= c.currRate / 4.0
                <==> Abs(d.current - leaving.current) <= c.currRate)
            && (Abs(after.temperature - before.temperature) <= c.tempRate / 4.0
                <==> Abs(d.temperature - leaving.temperature) <= c.tempRate)
  {
    hide Mean, Abs, Power;
    SamplesGrow(a, d);
    QuarterIff(Voltages(a), d.voltage, c.voltRate);
    QuarterIff(Currents(a), d.current, c.currRate);
    QuarterIff(Temperatures(a), d.temperature, c.tempRate);
  }

  /** A sample close enough to the last outputs is accepted after samples that all were. */
  lemma AcceptsNext(c: Config, ds: seq<Reading>, d: Reading)
    requires Accepted(c, ds) == ds && InRange(c, d)
    requires ds != [] ==>
               && Abs(d.voltage - Mean(Voltages(ds))) <= c.voltRate && Abs(d.current - Mean(Currents(ds))) <= c.currRate
               && Abs(d.temperature - Mean(Temperatures(ds))) <= c.tempRate
    ensures Accepted(c, ds + [d]) == ds + [d]
  {
    hide Mean, Abs, InRange, After, Smoothed, Windows, Published;
    RunIsWindow(c, ds);
    assert (ds + [d])[..|ds|] == ds;
    if ds != [] {
      LastOutputs(After(c, ds), ds);
    }
  }

  const WIDE: Config := Config(0.0, 15.0, -10.0, 10.0, -10.0, 10.0, 100.0, 1.0, 1.0, 1.0)

  /** Five readings that differ in their voltage only. */
  function Five(): (ds: seq<Reading>)
    ensures |ds| == 5
  {
    [At(0.0), At(1.0), At(1.5), At(1.8), At(2.0)]
  }

  function At(voltage: real): Reading {
    Reading(voltage, 0.0, 0.0, 0.0, 1, 0, 0.0)
  }

  lemma StillThere(ds: seq<Reading>)
    requires ds != [] && forall d :: d in ds ==> d.current == 0.0 && d.temperature == 0.0
    ensures Mean(Currents(ds)) == 0.0 && Mean(Temperatures(ds)) == 0.0
  {
    assert forall i :: 0 <= i < |ds| ==> ds[i] in ds;
    MeanBetween(Currents(ds), 0.0, 0.0);
    MeanBetween(Temperatures(ds), 0.0, 0.0);
  }

  lemma FiveMeans(k: nat)
    requires 1 <= k <= 4
    ensures var ds := Five()[..k];
            && Abs(Five()[k].voltage - Mean(Voltages(ds))) <= 1.0
            && Mean(Currents(ds)) == 0.0 && Mean(Temperatures(ds)) == 0.0
  {
    hide Mean, Currents, Temperatures;
    MeanIs(Voltages(Five()[..k]));
    StillThere(Five()[..k]);
  }

  lemma FiveNext(k: nat)
    requires k < 5 && Accepted(WIDE, Five()[..k]) == Five()[..k]
    ensures Accepted(WIDE, Five()[..k] + [Five()[k]]) == Five()[..k + 1]
  {
    var ds, d := Five()[..k], Five()[k];
    assert InRange(WIDE, d) && d.current == 0.0 == d.temperature && ds + [d] == Five()[..k + 1];
    if k > 0 {
      FiveMeans(k);
    }
    hide Mean, Accepted, Voltages, Currents, Temperatures, Five, InRange;
    AcceptsNext(WIDE, ds, d);
  }

  lemma {:induction false} FiveAccepted(k: nat)
    requires k <= 5
    ensures Accepted(WIDE, Five()[..k]) == Five()[..k]
  {
    if k > 0 {
      FiveAccepted(k - 1);
      FiveNext(k - 1);
      assert Five()[..k] == Five()[..k - 1] + [Five()[k - 1]];
      hide Accepted, Five;
    }
  }

  /** With a rate limit of one, five readings are all accepted, and the fifth moves the
      published voltage by a half, not by a quarter. */
  lemma FullWindowMovesFaster()
    ensures var published := Published(WIDE, Five());
            && |published| == 5 && Accepted(WIDE, Five()) == Five()
            && Abs(published[4].voltage - published[3].voltage) == 0.5 > WIDE.voltRate / 4.0
  {
    hide Accepted, Published, Mean, Lockstep;
    RunIsWindow(WIDE, Five());
    FiveAccepted(5);
    assert Five()[..5] == Five();
    MeanIs(Voltages(Five()[..4]));
    MeanIs(Voltages(Five()));
    assert Published(WIDE, Five())[4] == Smoothed(Five()[..5]);
  }

  // ----- the firmware -----

  class MovingAverage {
    const buf: array<real>
    var idx: nat
    var filled: bool
    var last: real
    var initialized: bool

    ghost predicate Valid()
      reads this
    {
      buf.Length == N && idx < N
    }

    ghost function Value(): (r: Ring)
      requires Valid()
      reads this, buf
      ensures Sized(r)
    {
      Ring(buf[..], idx, filled, last, initialized)
    }

    constructor ()
      ensures Valid() && fresh(buf) && Value() == FRESH
    {
      buf := new real[N](_ => 0.0);
      idx, filled, last, initialized := 0, false, 0.0, false;
      new;
      assert buf[..] == [0.0, 0.0, 0.0, 0.0];
    }

    /** filter_avg. */
    method Average(v: real) returns (mean: real)
      requires Valid()
      modifies this, buf
      ensures Valid()
      ensures (mean, Value()) == Averaged(old(Value()), v)
    {
      buf[idx] := v;
      idx := (idx + 1) % N;
      if idx == 0 {
        filled := true;
      }
      var n := if filled then N else if idx > 0 then idx else 1;
      var sum, i := 0.0, 0;
      while i < n
        invariant 0 <= i <= n && sum == Sum(buf[..i])
      {
        assert buf[..i + 1][..i] == buf[..i];
        sum := sum + buf[i];
        i := i + 1;
      }
      mean := sum / n as real;
      assert buf[..] == old(buf[..])[old(idx) := v];
      assert buf[..][..n] == buf[..n];
    }

    /** The average, kept as the last output. */
    method Next(v: real) returns (mean: real)
      requires Valid()
      modifies this, buf
      ensures Valid()
      ensures mean == Averaged(old(Value()), v).0 && Value() == Output(Averaged(old(Value()), v))
    {
      hide Averaged;
      mean := Average(v);
      last := mean;
      initialized := true;
    }
  }

  class Bms {
    const voltage: MovingAverage
    const current: MovingAverage
    const temperature: MovingAverage
    const remainAh: MovingAverage

    ghost predicate Valid()
      reads voltage, current, temperature, remainAh
    {
      && voltage.Valid() && current.Valid() && temperature.Valid() && remainAh.Valid()
      && voltage != current && voltage != temperature && voltage != remainAh
      && current != temperature && current != remainAh && temperature != remainAh
      && voltage.buf != current.buf && voltage.buf != temperature.buf && voltage.buf != remainAh.buf
      && current.buf != temperature.buf && current.buf != remainAh.buf && temperature.buf != remainAh.buf
    }

    ghost function Value(): (f: Filter)
      requires Valid()
      reads voltage, current, temperature, remainAh, voltage.buf, current.buf, temperature.buf, remainAh.buf
      ensures Ready(f)
    {
      Filter(voltage.Value(), current.Value(), temperature.Value(), remainAh.Value())
    }

    constructor ()
      ensures Valid() && Value() == START
    {
      voltage := new MovingAverage();
      current := new MovingAverage();
      temperature := new MovingAverage();
      remainAh := new MovingAverage();
    }

    /** bms_filter_apply; what is published if the sample is taken. */
    method ApplyFilter(c: Config, d: Reading) returns (out: Option<Reading>)
      requires Valid()
      modifies voltage, current, temperature, remainAh, voltage.buf, current.buf, temperature.buf, remainAh.buf
      ensures Valid() && (out, Value()) == Apply(old(Value()), c, d)
    {
      hide Averaged, Abs, Output, Power;
      if d.voltage < c.voltMin || d.voltage > c.voltMax { return None; }
      if d.current < c.currMin || d.current > c.currMax { return None; }
      if d.temperature < c.tempMin || d.temperature > c.tempMax { return None; }
      if d.remainAh < 0.0 || d.remainAh > c.ahMax { return None; }
      if voltage.initialized {
        if Abs(d.voltage - voltage.last) > c.voltRate { return None; }
        if Abs(d.current - current.last) > c.currRate { return None; }
        if Abs(d.temperature - temperature.last) > c.tempRate { return None; }
      }
      var v := voltage.Next(d.voltage);
      var i := current.Next(d.current);
      var t := temperature.Next(d.temperature);
      var ah := remainAh.Next(d.remainAh);
      return Some(d.(voltage := v, current := i, temperature := t, remainAh := ah, power := Power(v, i)));
    }
  }
}
