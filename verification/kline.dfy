/**
 Kline (candle) rows as the Binance monitors read them, and the bar they turn
 each row into. The provider returns one array per candle; only its first six
 fields (open time, open, high, low, close, volume) are read, and they are kept
 in that order. Parsing the provider's numeric strings into numbers is left to
 the fetch, so a row here is already a sequence of numbers.
 */
module Kline {
  import opened Wrappers

  type Row = seq<real>

  /** One OHLCV bar; the open time is carried through unconverted. */
  datatype Bar = Bar(openTime: real, open: real, high: real, low: real, close: real, volume: real)

  /** The source indexes `x[0]` .. `x[5]` without a guard, so every row must
      carry at least six fields. */
  predicate WellFormed(rows: seq<Row>) {
    forall i :: 0 <= i < |rows| ==> |rows[i]| >= 6
  }

  function ToBar(row: Row): (b: Bar)
    requires |row| >= 6
    ensures [b.openTime, b.open, b.high, b.low, b.close, b.volume] == row[..6]
  {
    Bar(row[0], row[1], row[2], row[3], row[4], row[5])
  }

  /** The bar list built from a fetched kline array: same length, same order,
      and bar `i` is made of the first six fields of row `i`. */
  function ToBars(rows: seq<Row>): (bars: seq<Bar>)
    requires WellFormed(rows)
    ensures |bars| == |rows|
    ensures forall i :: 0 <= i < |rows| ==>
              [bars[i].openTime, bars[i].open, bars[i].high, bars[i].low, bars[i].close, bars[i].volume] == rows[i][..6]
  {
    seq(|rows|, i requires 0 <= i < |rows| => ToBar(rows[i]))
  }

  /** The close column: field 4 of every bar, in order. */
  function Closes(bars: seq<Bar>): (cs: seq<real>)
    ensures |cs| == |bars|
    ensures forall i :: 0 <= i < |bars| ==> cs[i] == bars[i].close
  {
    seq(|bars|, i requires 0 <= i < |bars| => bars[i].close)
  }

  /** The volume column: field 5 of every bar, in order. */
  function Volumes(bars: seq<Bar>): (vs: seq<real>)
    ensures |vs| == |bars|
    ensures forall i :: 0 <= i < |bars| ==> vs[i] == bars[i].volume
  {
    seq(|bars|, i requires 0 <= i < |bars| => bars[i].volume)
  }

  /** Field 4 of the raw rows, which is what the indicator columns read. */
  lemma ClosesAreFieldFour(rows: seq<Row>)
    requires WellFormed(rows)
    ensures |Closes(ToBars(rows))| == |rows|
    ensures forall i :: 0 <= i < |rows| ==> Closes(ToBars(rows))[i] == rows[i][4]
  {
    var bars := ToBars(rows);
    forall i | 0 <= i < |rows|
      ensures Closes(bars)[i] == rows[i][4]
    {
      assert [bars[i].openTime, bars[i].open, bars[i].high, bars[i].low, bars[i].close, bars[i].volume][4] == rows[i][..6][4];
    }
  }

  /** Field 5 of the raw rows. */
  lemma VolumesAreFieldFive(rows: seq<Row>)
    requires WellFormed(rows)
    ensures |Volumes(ToBars(rows))| == |rows|
    ensures forall i :: 0 <= i < |rows| ==> Volumes(ToBars(rows))[i] == rows[i][5]
  {
    var bars := ToBars(rows);
    forall i | 0 <= i < |rows|
      ensures Volumes(bars)[i] == rows[i][5]
    {
      assert [bars[i].openTime, bars[i].open, bars[i].high, bars[i].low, bars[i].close, bars[i].volume][5] == rows[i][..6][5];
    }
  }

  /** What a fetch hands to a monitor: nothing (request failed) or a kline
      array, which may be empty. Both are skipped by `if not kl: return`. */
  predicate Usable(kl: Option<seq<Row>>) {
    kl.Some? && |kl.value| > 0
  }
}
