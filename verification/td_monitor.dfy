/**
 The TD-Sequential monitor (monit_td9.py). For every bar from index 4 on, the
 close is compared with the close four bars earlier; a "down" counter grows
 while the close stays strictly below that reference and resets to 0
 otherwise, and an "up" counter does the same for strictly above. Both
 counters start at 0 for the first four bars. The monitor alerts when the
 last bar's counter is exactly 9 or 13 and the configured side allows it.
 */
module TdMonitor {
  import opened Wrappers
  import opened Kline

  /** The two directions the source counts in parallel. */
  datatype Direction = Up | Down

  /** `close[i]` is strictly beyond `close[i-4]` in direction `dir`; false for
      the first four bars and past the end of the window. */
  predicate Beats(c: seq<real>, i: int, dir: Direction) {
    4 <= i < |c| &&
    match dir
    case Up => c[i] > c[i - 4]
    case Down => c[i] < c[i - 4]
  }

  /** The counter column at index `i`, written as the source's recurrence,
      including its `... + 1 if prev >= 0 else 1` step. */
  function Count(c: seq<real>, i: nat, dir: Direction): (count: int)
    requires i < |c|
  {
    if i < 4 then 0
    else if Beats(c, i, dir) then
      var prev := Count(c, i - 1, dir);
      if prev >= 0 then prev + 1 else 1
    else 0
  }

  /** The three columns `cal_td_sequential` returns. */
  datatype TdFrame = TdFrame(close: seq<real>, down: seq<int>, up: seq<int>)

  lemma ZeroBeforeFourthBar(c: seq<real>, i: nat)
    requires i < |c| && i < 4
    ensures Count(c, i, Up) == 0 && Count(c, i, Down) == 0
  {
  }

  /** The counters never go negative, so the `else 1` branch is dead. */
  lemma {:induction false} CountNonNegative(c: seq<real>, i: nat, dir: Direction)
    requires i < |c|
    ensures Count(c, i, dir) >= 0
    ensures i >= 4 ==> Count(c, i - 1, dir) >= 0
  {
    if i >= 4 {
      CountNonNegative(c, i - 1, dir);
    }
  }

  /** The recurrence without its dead branch: one more than the previous
      bar's count while the comparison holds, 0 as soon as it fails. */
  lemma CountStep(c: seq<real>, i: nat, dir: Direction)
    requires 4 <= i < |c|
    ensures Beats(c, i, dir) ==> Count(c, i, dir) == Count(c, i - 1, dir) + 1
    ensures !Beats(c, i, dir) ==> Count(c, i, dir) == 0
  {
    CountNonNegative(c, i, dir);
  }

  /** Up and down are never positive at the same bar, and both are 0 when
      the close equals the close four bars earlier. */
  lemma NeverBothPositive(c: seq<real>, i: nat)
    requires i < |c|
    ensures Count(c, i, Up) == 0 || Count(c, i, Down) == 0
    ensures i >= 4 && c[i] == c[i - 4] ==> Count(c, i, Up) == 0 && Count(c, i, Down) == 0
  {
  }

  /** A counter cannot exceed the number of bars compared so far. */
  lemma {:induction false} CountBound(c: seq<real>, i: nat, dir: Direction)
    requires 4 <= i < |c|
    ensures 0 <= Count(c, i, dir) <= i - 3
  {
    CountNonNegative(c, i, dir);
    if i > 4 {
      CountBound(c, i - 1, dir);
    }
  }

  /** The counter at `i` is the length of the run of consecutive bars ending
      at `i` that beat their reference, and the bar just before the run does
      not. */
  lemma {:induction false} CountIsRunLength(c: seq<real>, i: nat, dir: Direction)
    requires i < |c|
    ensures 0 <= Count(c, i, dir) <= i
    ensures forall j :: i - Count(c, i, dir) < j <= i ==> Beats(c, j, dir)
    ensures !Beats(c, i - Count(c, i, dir), dir)
  {
    CountNonNegative(c, i, dir);
    if i >= 4 && Beats(c, i, dir) {
      CountIsRunLength(c, i - 1, dir);
    }
  }

  /** Conversely, any run length with those two properties is the counter:
      the reference definition determines the recurrence's value. */
  lemma RunLengthIsCount(c: seq<real>, i: nat, dir: Direction, k: int)
    requires i < |c| && 0 <= k <= i
    requires forall j :: i - k < j <= i ==> Beats(c, j, dir)
    requires !Beats(c, i - k, dir)
    ensures Count(c, i, dir) == k
  {
    CountIsRunLength(c, i, dir);
    var m := Count(c, i, dir);
    // A shorter count would put its non-beating bar inside the given run,
    // a longer one would put the given non-beating bar inside its run.
    assert i - k < i - m <= i ==> Beats(c, i - m, dir);
    assert i - m < i - k <= i ==> Beats(c, i - k, dir);
  }

  predicate StrictlyIncreasing(c: seq<real>) {
    forall j, k :: 0 <= j < k < |c| ==> c[j] < c[k]
  }

  /** With strictly rising closes every bar from index 4 beats its reference:
      the up counter is exactly `i - 3` and the down counter stays 0. */
  lemma {:induction false} RisingCloses(c: seq<real>, i: nat)
    requires StrictlyIncreasing(c) && 4 <= i < |c|
    ensures Count(c, i, Up) == i - 3
    ensures Count(c, i, Down) == 0
  {
    assert c[i - 4] < c[i];
    if i > 4 {
      RisingCloses(c, i - 1);
    }
  }

  /** Thirteen rising closes reach the first alert boundary at their last bar. */
  lemma RisingWindowReachesNine()
    ensures Count(seq(13, j => j as real), 12, Up) == 9
  {
    var c := seq(13, j => j as real);
    assert StrictlyIncreasing(c);
    RisingCloses(c, 12);
  }

  /** `cal_td_sequential`: both columns start at 0 and are filled from index 4
      with the source's branches. */
  method CalTdSequential(closes: seq<real>) returns (frame: TdFrame)
    ensures frame.close == closes
    ensures |frame.down| == |closes| && |frame.up| == |closes|
    ensures forall i :: 0 <= i < |closes| ==> frame.down[i] == Count(closes, i, Down) && frame.up[i] == Count(closes, i, Up)
  {
    var down := seq(|closes|, _ => 0);
    var up := seq(|closes|, _ => 0);
    var i := 4;
    while i < |closes|
      invariant |down| == |closes| && |up| == |closes|
      invariant 4 <= i && (i <= |closes| || |closes| < 4)
      invariant forall j :: 0 <= j < |closes| && j < i ==> down[j] == Count(closes, j, Down) && up[j] == Count(closes, j, Up)
      invariant forall j :: i <= j < |closes| ==> down[j] == 0 && up[j] == 0
    {
      if closes[i] < closes[i - 4] {
        down := down[i := if down[i - 1] >= 0 then down[i - 1] + 1 else 1];
      } else {
        down := down[i := 0];
      }
      if closes[i] > closes[i - 4] {
        up := up[i := if up[i - 1] >= 0 then up[i - 1] + 1 else 1];
      } else {
        up := up[i := 0];
      }
      i := i + 1;
    }
    frame := TdFrame(closes, down, up);
  }

  /** A counter value the source alerts on. */
  predicate IsSignal(count: int) {
    count == 9 || count == 13
  }

  predicate SideAllows(side: string, dir: Direction) {
    side == "all" || side == (match dir case Up => "up" case Down => "down")
  }

  /** The messages `handle_symbol` hands to the notifier: an up count reads
      as a sell signal, a down count as a buy signal. */
  datatype TdAlert = Sell(up: int) | Buy(down: int)

  /** The alert rule on the last bar's counters: the up check comes first and
      the two checks are independent of each other. */
  function TdRule(lastUp: int, lastDown: int, side: string): (alerts: seq<TdAlert>)
    ensures Sell(lastUp) in alerts <==> IsSignal(lastUp) && (side == "all" || side == "up")
    ensures Buy(lastDown) in alerts <==> IsSignal(lastDown) && (side == "all" || side == "down")
    ensures forall a :: a in alerts ==> a == Sell(lastUp) || a == Buy(lastDown)
    ensures |alerts| == (if IsSignal(lastUp) && SideAllows(side, Up) then 1 else 0)
                      + (if IsSignal(lastDown) && SideAllows(side, Down) then 1 else 0)
    ensures |alerts| == 2 ==> alerts[0].Sell?
  {
    (if IsSignal(lastUp) && SideAllows(side, Up) then [Sell(lastUp)] else []) +
    (if IsSignal(lastDown) && SideAllows(side, Down) then [Buy(lastDown)] else [])
  }

  /** `handle_symbol` on a fetched kline array (None when the request failed). */
  function HandleSymbol(kl: Option<seq<Row>>, side: string): (alerts: seq<TdAlert>)
    requires kl.Some? ==> WellFormed(kl.value)
    ensures !Usable(kl) ==> alerts == []
    ensures Usable(kl) ==>
              var c := Closes(ToBars(kl.value));
              var last := |c| - 1;
              (Sell(Count(c, last, Up)) in alerts <==> IsSignal(Count(c, last, Up)) && SideAllows(side, Up)) &&
              (Buy(Count(c, last, Down)) in alerts <==> IsSignal(Count(c, last, Down)) && SideAllows(side, Down)) &&
              (forall a :: a in alerts ==> a == Sell(Count(c, last, Up)) || a == Buy(Count(c, last, Down)))
  {
    if !Usable(kl) then []
    else
      var c := Closes(ToBars(kl.value));
      var last := |c| - 1;
      TdRule(Count(c, last, Up), Count(c, last, Down), side)
  }

  /** An alert needs at least 13 bars (nine comparisons after the first four)
      and never fires in both directions at once. */
  lemma AlertNeedsThirteenBars(kl: Option<seq<Row>>, side: string)
    requires kl.Some? ==> WellFormed(kl.value)
    requires HandleSymbol(kl, side) != []
    ensures Usable(kl) && |kl.value| >= 13
    ensures |HandleSymbol(kl, side)| == 1
  {
    var c := Closes(ToBars(kl.value));
    var last := |c| - 1;
    if last < 4 {
      ZeroBeforeFourthBar(c, last);
    } else {
      CountBound(c, last, Up);
      CountBound(c, last, Down);
    }
    NeverBothPositive(c, last);
  }
}
