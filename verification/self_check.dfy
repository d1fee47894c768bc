/**
 The outcome of a monitor's startup self-check (`init_system`). A bad numeric
 parameter aborts startup by raising; a missing notifier destination is only
 logged as a warning, after which every notification is a no-op. The checks
 run in source order, so a parameter rejected before the destination test
 leaves no warning behind.
 */
module SelfCheck {

  datatype ConfigError =
    | ThresholdTooLow   // volume monitor: `x <= 1`
    | PeriodTooSmall    // RSI monitor: `n <= 1`
    | SleepNotPositive  // both: `slp <= 0`

  datatype Verdict = Ready | Fatal(error: ConfigError)

  datatype Startup = Startup(destinationWarning: bool, verdict: Verdict)
}
