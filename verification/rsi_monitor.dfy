/**
 The RSI monitor (monit_rsi.py). The closes of the fetched window go to a
 foreign RSI routine with a fixed period of 6; its value at the last bar is
 compared with two thresholds, overbought (`>= up`) and oversold (`<= down`),
 in two independent checks. The routine itself is a parameter: it returns the
 last cell of its output column, which is NaN when the window is too short.
 */
module RsiMonitor {
  import opened Numeric
  import opened Wrappers
  import opened Kline
  import opened SelfCheck

  /** The period handed to the RSI routine; the configured `n` is not used. */
  const RsiPeriod: nat := 6

  /** `talib.RSI(closes, period)[-1]`. */
  type RsiRoutine = (seq<real>, nat) -> Double

  /** Overbought suggests opening a short, oversold a long. */
  datatype RsiAlert = Overbought(rsi: Double) | Oversold(rsi: Double)

  /** The two threshold checks on the last RSI value, overbought first. */
  function RsiRule(v: Double, up: real, down: real): (alerts: seq<RsiAlert>)
    ensures Overbought(v) in alerts <==> v.AtLeast(up)
    ensures Oversold(v) in alerts <==> v.AtMost(down)
    ensures forall a :: a in alerts ==> a.rsi == v
    ensures |alerts| == (if v.AtLeast(up) then 1 else 0) + (if v.AtMost(down) then 1 else 0)
    ensures |alerts| == 2 ==> alerts[0].Overbought?
  {
    (if v.AtLeast(up) then [Overbought(v)] else []) +
    (if v.AtMost(down) then [Oversold(v)] else [])
  }

  /** With the usual thresholds (`down < up`) at most one alert fires, and a
      NaN value fires none. */
  lemma AtMostOneAlert(v: Double, up: real, down: real)
    requires down < up
    ensures |RsiRule(v, up, down)| <= 1
    ensures v == NaN ==> RsiRule(v, up, down) == []
  {
    if |RsiRule(v, up, down)| == 2 {
      BothThresholds(v, up, down);
    }
  }

  /** The RSI monitor's configuration; `feishu == ""` means absent. */
  datatype RsiConfig = RsiConfig(symbols: seq<string>, interval: string, feishu: string, slp: int, up: real, down: real, n: int)

  /** `_core` on a fetched kline array: the routine sees exactly field 4 of
      every row, in order, with period 6. */
  function Core(kl: Option<seq<Row>>, cfg: RsiConfig, rsi: RsiRoutine): (alerts: seq<RsiAlert>)
    requires kl.Some? ==> WellFormed(kl.value)
    ensures !Usable(kl) ==> alerts == []
    ensures Usable(kl) ==>
              var cs := seq(|kl.value|, i requires 0 <= i < |kl.value| => kl.value[i][4]);
              var v := rsi(cs, 6);
              (Overbought(v) in alerts <==> v.AtLeast(cfg.up)) &&
              (Oversold(v) in alerts <==> v.AtMost(cfg.down)) &&
              (forall a :: a in alerts ==> a.rsi == v) &&
              |alerts| == (if v.AtLeast(cfg.up) then 1 else 0) + (if v.AtMost(cfg.down) then 1 else 0)
  {
    if !Usable(kl) then []
    else
      var rows := kl.value;
      ClosesAreFieldFour(rows);
      assert Closes(ToBars(rows)) == seq(|rows|, i requires 0 <= i < |rows| => rows[i][4]);
      RsiRule(rsi(Closes(ToBars(rows)), RsiPeriod), cfg.up, cfg.down)
  }

  /** The configured period never changes what the monitor does. */
  lemma PeriodIgnoresConfig(kl: Option<seq<Row>>, cfg: RsiConfig, rsi: RsiRoutine, n: int)
    requires kl.Some? ==> WellFormed(kl.value)
    ensures Core(kl, cfg, rsi) == Core(kl, cfg.(n := n), rsi)
  {
  }

  /** The routine leaves the last cell NaN when it has no more closes than
      its period. */
  ghost predicate UndefinedWhenShort(rsi: RsiRoutine) {
    forall cs: seq<real> :: |cs| <= RsiPeriod ==> rsi(cs, RsiPeriod) == NaN
  }

  /** Such a routine on six bars or fewer never alerts, whatever the
      thresholds. */
  lemma ShortWindowNeverAlerts(kl: Option<seq<Row>>, cfg: RsiConfig, rsi: RsiRoutine)
    requires kl.Some? ==> WellFormed(kl.value)
    requires UndefinedWhenShort(rsi)
    requires kl.Some? ==> |kl.value| <= RsiPeriod
    ensures Core(kl, cfg, rsi) == []
  {
    if Usable(kl) {
      var cs := Closes(ToBars(kl.value));
      assert rsi(cs, RsiPeriod) == NaN;
    }
  }

  /** `init_system`: `n` is checked first, then the destination warning,
      then the sleep interval. */
  function InitSystem(cfg: RsiConfig): (s: Startup)
    ensures s.verdict == Ready <==> cfg.n > 1 && cfg.slp > 0
    ensures s.verdict == Fatal(PeriodTooSmall) <==> cfg.n <= 1
    ensures s.verdict == Fatal(SleepNotPositive) <==> cfg.n > 1 && cfg.slp <= 0
    ensures s.destinationWarning <==> cfg.n > 1 && cfg.feishu == ""
  {
    if cfg.n <= 1 then Startup(false, Fatal(PeriodTooSmall))
    else
      var warn := cfg.feishu == "";
      if cfg.slp <= 0 then Startup(warn, Fatal(SleepNotPositive)) else Startup(warn, Ready)
  }

  /** A missing destination never decides whether startup succeeds. */
  lemma MissingDestinationNotFatal(cfg: RsiConfig)
    ensures InitSystem(cfg).verdict == InitSystem(cfg.(feishu := "")).verdict
  {
  }
}
