/**
 The volume monitor (monit_vol.py). The volume column gets a trailing rolling
 mean over `n` bars, undefined (NaN) until `n` bars are available; the ratio
 column divides each bar's volume by the PREVIOUS bar's rolling mean. The
 monitor alerts when the last bar's ratio is at least the multiplier `x`.
 */
module VolMonitor {
  import opened Numeric
  import opened Wrappers
  import opened Kline
  import opened SelfCheck

  /** Sum of `s[lo..hi]`. */
  function WindowSum(s: seq<real>, lo: nat, hi: nat): (sum: real)
    requires lo <= hi <= |s|
    decreases hi - lo
  {
    if lo == hi then 0.0 else WindowSum(s, lo, hi - 1) + s[hi - 1]
  }

  /** `volume.rolling(window=n).mean()` at index `i`: the mean of the `n`
      volumes ending at `i`, NaN while fewer than `n` bars exist. */
  function RollingMean(s: seq<real>, n: int, i: nat): (mean: Double)
    requires n >= 1 && i < |s|
  {
    if i >= n - 1 then Finite(WindowSum(s, i - n + 1, i + 1) / n as real) else NaN
  }

  /** `volume / vol_ma.shift(1)` at index `i`; the shift leaves NaN at index 0. */
  function Ratio(s: seq<real>, n: int, i: nat): (ratio: Double)
    requires n >= 1 && i < |s|
  {
    if i == 0 then NaN else Div(s[i], RollingMean(s, n, i - 1))
  }

  /** A window sum is a difference of two prefix sums. */
  lemma {:induction false} WindowSumSplit(s: seq<real>, lo: nat, hi: nat)
    requires lo <= hi <= |s|
    ensures WindowSum(s, lo, hi) == WindowSum(s, 0, hi) - WindowSum(s, 0, lo)
    decreases hi - lo
  {
    if lo < hi {
      WindowSumSplit(s, lo, hi - 1);
    }
  }

  /** A window sum lies between its length times the smallest and the largest
      value in the window. */
  lemma {:induction false} WindowSumBounds(s: seq<real>, lo: nat, hi: nat, low: real, high: real)
    requires lo <= hi <= |s|
    requires forall j :: lo <= j < hi ==> low <= s[j] <= high
    ensures (hi - lo) as real * low <= WindowSum(s, lo, hi) <= (hi - lo) as real * high
    decreases hi - lo
  {
    if lo < hi {
      WindowSumBounds(s, lo, hi - 1, low, high);
      var k := (hi - 1 - lo) as real;
      assert (hi - lo) as real * low == k * low + low;
      assert (hi - lo) as real * high == k * high + high;
    }
  }

  /** Dividing by a positive number keeps the order. */
  lemma DivMonotone(a: real, b: real, w: real)
    requires a <= b && w > 0.0
    ensures a / w <= b / w
  {
    assert b / w - a / w == (b - a) / w;
  }

  /** A sum of `w` values between `low` and `high`, divided by `w`, stays
      between them. */
  lemma MeanBetween(sum: real, w: real, low: real, high: real)
    requires w > 0.0 && w * low <= sum <= w * high
    ensures low <= sum / w <= high
  {
    assert low == (w * low) / w && high == (w * high) / w;
    DivMonotone(w * low, sum, w);
    DivMonotone(sum, w * high, w);
  }

  /** The rolling mean is defined exactly from index `n - 1` on, and then
      lies within the range of the `n` volumes it averages. */
  lemma MeanWithinWindow(s: seq<real>, n: int, i: nat, low: real, high: real)
    requires n >= 1 && i < |s|
    requires forall j :: i - n < j <= i && 0 <= j ==> low <= s[j] <= high
    ensures RollingMean(s, n, i).Finite? <==> i >= n - 1
    ensures RollingMean(s, n, i).Finite? ==> low <= RollingMean(s, n, i).v <= high
  {
    if i >= n - 1 {
      WindowSumBounds(s, i - n + 1, i + 1, low, high);
      MeanBetween(WindowSum(s, i - n + 1, i + 1), n as real, low, high);
    }
  }

  /** The ratio is defined only from index `n` on, and there it is the bar's
      volume over the mean of the `n` volumes BEFORE it (the bar's own volume
      is not part of its denominator). */
  lemma RatioUsesPreviousWindow(s: seq<real>, n: int, i: nat)
    requires n >= 1 && i < |s|
    ensures i < n ==> Ratio(s, n, i) == NaN
    ensures i >= n ==> Ratio(s, n, i) == Div(s[i], Finite(WindowSum(s, i - n, i) / n as real))
  {
  }

  /** `cal_vol_ma`: the two columns, computed with running prefix sums. */
  method CalVolMa(volumes: seq<real>, n: int) returns (volMa: seq<Double>, volRatio: seq<Double>)
    requires n >= 1
    ensures |volMa| == |volumes| && |volRatio| == |volumes|
    ensures forall i :: 0 <= i < |volumes| ==> volMa[i] == RollingMean(volumes, n, i)
    ensures forall i :: 0 <= i < |volumes| ==> volRatio[i] == Ratio(volumes, n, i)
  {
    var prefix := [0.0];
    volMa := [];
    volRatio := [];
    var i := 0;
    while i < |volumes|
      invariant 0 <= i <= |volumes|
      invariant |prefix| == i + 1
      invariant forall k :: 0 <= k <= i ==> prefix[k] == WindowSum(volumes, 0, k)
      invariant |volMa| == i && |volRatio| == i
      invariant forall j :: 0 <= j < i ==> volMa[j] == RollingMean(volumes, n, j)
      invariant forall j :: 0 <= j < i ==> volRatio[j] == Ratio(volumes, n, j)
    {
      prefix := prefix + [prefix[i] + volumes[i]];
      var mean := NaN;
      if i >= n - 1 {
        WindowSumSplit(volumes, i + 1 - n, i + 1);
        mean := Finite((prefix[i + 1] - prefix[i + 1 - n]) / n as real);
      }
      var ratio := if i == 0 then NaN else Div(volumes[i], volMa[i - 1]);
      volMa := volMa + [mean];
      volRatio := volRatio + [ratio];
      i := i + 1;
    }
  }

  /** The golden row: with volumes 10, 10, 10, 10, 50 and `n = 4` the last
      bar's own mean is 20, but its ratio uses the previous mean 10. */
  lemma GoldenWindow()
    ensures RollingMean([10.0, 10.0, 10.0, 10.0, 50.0], 4, 4) == Finite(20.0)
    ensures Ratio([10.0, 10.0, 10.0, 10.0, 50.0], 4, 4) == Finite(5.0)
  {
    var s := [10.0, 10.0, 10.0, 10.0, 50.0];
    assert WindowSum(s, 1, 5) == 80.0 by {
      assert WindowSum(s, 1, 1) == 0.0;
    }
    assert WindowSum(s, 0, 4) == 40.0 by {
      assert WindowSum(s, 0, 0) == 0.0;
    }
  }

  /** What `_core` logs and sends for the last bar. */
  datatype VolAlert = VolAlert(volume: real, volMa: Double, ratio: Double)

  /** `_core` on a fetched kline array with window `n` and multiplier `x`. */
  function Core(kl: Option<seq<Row>>, n: int, x: real): (alerts: seq<VolAlert>)
    requires n >= 1
    requires kl.Some? ==> WellFormed(kl.value)
    ensures |alerts| <= 1
    ensures alerts != [] ==> Usable(kl) && |kl.value| >= n + 1
    ensures Usable(kl) && |kl.value| >= n + 1 ==>
              var vs := Volumes(ToBars(kl.value));
              var last := |vs| - 1;
              var prevMean := WindowSum(vs, last - n, last) / n as real;
              (prevMean != 0.0 ==> (alerts != [] <==> vs[last] / prevMean >= x)) &&
              (prevMean == 0.0 ==> (alerts != [] <==> vs[last] > 0.0)) &&
              (alerts != [] ==> alerts[0].volume == vs[last] && alerts[0].volMa == RollingMean(vs, n, last))
  {
    if !Usable(kl) then []
    else
      var vs := Volumes(ToBars(kl.value));
      var last := |vs| - 1;
      var ratio := Ratio(vs, n, last);
      if ratio.AtLeast(x) then [VolAlert(vs[last], RollingMean(vs, n, last), ratio)] else []
  }

  /** The volume monitor's configuration; `feishu == ""` means absent. */
  datatype VolConfig = VolConfig(symbols: seq<string>, interval: string, feishu: string, slp: int, x: real, n: int)

  /** `init_system`: `x` is checked first, then the destination warning,
      then the sleep interval. The window `n` is not checked. */
  function InitSystem(cfg: VolConfig): (s: Startup)
    ensures s.verdict == Ready <==> cfg.x > 1.0 && cfg.slp > 0
    ensures s.verdict == Fatal(ThresholdTooLow) <==> cfg.x <= 1.0
    ensures s.verdict == Fatal(SleepNotPositive) <==> cfg.x > 1.0 && cfg.slp <= 0
    ensures s.destinationWarning <==> cfg.x > 1.0 && cfg.feishu == ""
  {
    if cfg.x <= 1.0 then Startup(false, Fatal(ThresholdTooLow))
    else
      var warn := cfg.feishu == "";
      if cfg.slp <= 0 then Startup(warn, Fatal(SleepNotPositive)) else Startup(warn, Ready)
  }

  /** A missing destination never decides whether startup succeeds. */
  lemma MissingDestinationNotFatal(cfg: VolConfig)
    ensures InitSystem(cfg).verdict == InitSystem(cfg.(feishu := "")).verdict
  {
  }
}
