/**
 The Cetus APR monitor (monit_cetus.py). From a pool-statistics snapshot it
 picks the pool with the highest display APR among pools that still pay a
 mining reward, and notifies when that APR exceeds a configured minimum.
 Python's `round(x, 4)` is modelled as exact round-half-to-even on rationals.
 */
module CetusMonitor {
  import opened Wrappers

  /** Python's `round` to an integer: nearest integer, ties to even. */
  function RoundHalfEven(y: real): (k: int)
    ensures -0.5 <= k as real - y <= 0.5
    ensures (k as real - y == 0.5 || y - k as real == 0.5) ==> k % 2 == 0
  {
    var f := y.Floor;
    var frac := y - f as real;
    if frac < 0.5 then f
    else if frac > 0.5 then f + 1
    else if f % 2 == 0 then f
    else f + 1
  }

  /** `round(v, 4)`: the nearest multiple of 1/10000, ties to even. */
  function Round4(v: real): (r: real)
    ensures -0.00005 <= r - v <= 0.00005
    ensures (r * 10000.0).Floor as real == r * 10000.0
  {
    RoundHalfEven(v * 10000.0) as real / 10000.0
  }

  /** One entry of `data['pools']`; `totalApr` is a fraction, the reward APRs
      are percentage strings such as "12.5%". */
  datatype Pool = Pool(symbol: string, totalApr: real, rewarderApr: seq<string>)

  /** Every reward entry reads "0%" or is empty: the pool mints nothing. */
  predicate NoReward(p: Pool) {
    forall a :: a in p.rewarderApr ==> a == "0%" || a == ""
  }

  /** A pool takes part in the selection: it lists rewards and at least one
      of them is active. */
  predicate Survives(p: Pool) {
    p.rewarderApr != [] && !NoReward(p)
  }

  /** The APR as displayed and compared: percent, rounded to two decimals of
      percent. */
  function DisplayApr(p: Pool): (apr: real) {
    100.0 * Round4(p.totalApr)
  }

  /** The running pair `(target_symbol, max_total_apr)`. */
  datatype Selection = Selection(symbol: string, apr: real)

  const NoSelection := Selection("", 0.0)

  /** The selection after the loop has seen the first `k` pools. */
  function SelectPrefix(pools: seq<Pool>, k: nat): (sel: Selection)
    requires k <= |pools|
  {
    if k == 0 then NoSelection
    else
      var prev := SelectPrefix(pools, k - 1);
      var p := pools[k - 1];
      if Survives(p) && DisplayApr(p) > prev.apr then Selection(p.symbol, DisplayApr(p)) else prev
  }

  /** Reference definition of the result: `sel` is the first surviving pool
      with the largest positive display APR, or the seed `("", 0)` when no
      surviving pool has a positive one. */
  ghost predicate IsFirstMax(pools: seq<Pool>, sel: Selection) {
    && sel.apr >= 0.0
    && (forall j :: 0 <= j < |pools| && Survives(pools[j]) ==> DisplayApr(pools[j]) <= sel.apr)
    && (sel.apr == 0.0 ==> sel == NoSelection)
    && (sel.apr > 0.0 ==>
          exists k :: 0 <= k < |pools| && Survives(pools[k]) && DisplayApr(pools[k]) == sel.apr
                      && sel.symbol == pools[k].symbol
                      && forall j :: 0 <= j < k && Survives(pools[j]) ==> DisplayApr(pools[j]) < sel.apr)
  }

  /** The loop computes the first maximum over every prefix it has seen. */
  lemma {:induction false} SelectPrefixIsFirstMax(pools: seq<Pool>, k: nat)
    requires k <= |pools|
    ensures IsFirstMax(pools[..k], SelectPrefix(pools, k))
  {
    if k > 0 {
      SelectPrefixIsFirstMax(pools, k - 1);
      var prev := SelectPrefix(pools, k - 1);
      var sel := SelectPrefix(pools, k);
      var p := pools[k - 1];
      assert pools[..k] == pools[..k - 1] + [p];
      if Survives(p) && DisplayApr(p) > prev.apr {
        assert pools[..k][k - 1] == p;
        assert forall j :: 0 <= j < k - 1 ==> pools[..k][j] == pools[..k - 1][j];
      } else if sel.apr > 0.0 {
        var q := pools[..k - 1];
        var w :| 0 <= w < k - 1 && Survives(q[w]) && DisplayApr(q[w]) == prev.apr
                 && prev.symbol == q[w].symbol
                 && forall j :: 0 <= j < w && Survives(q[j]) ==> DisplayApr(q[j]) < prev.apr;
        assert pools[..k][w] == q[w];
        assert forall j :: 0 <= j < w ==> pools[..k][j] == q[j];
      }
    }
  }

  /** The first maximum is unique: the reference definition pins down one
      selection. */
  lemma FirstMaxUnique(pools: seq<Pool>, a: Selection, b: Selection)
    requires IsFirstMax(pools, a) && IsFirstMax(pools, b)
    ensures a == b
  {
    if a.apr > 0.0 && b.apr > 0.0 {
      var ka :| 0 <= ka < |pools| && Survives(pools[ka]) && DisplayApr(pools[ka]) == a.apr
                && a.symbol == pools[ka].symbol
                && forall j :: 0 <= j < ka && Survives(pools[j]) ==> DisplayApr(pools[j]) < a.apr;
      var kb :| 0 <= kb < |pools| && Survives(pools[kb]) && DisplayApr(pools[kb]) == b.apr
                && b.symbol == pools[kb].symbol
                && forall j :: 0 <= j < kb && Survives(pools[j]) ==> DisplayApr(pools[j]) < b.apr;
      assert a.apr == b.apr;
      assert !(ka < kb) && !(kb < ka);
    }
  }

  /** The selection loop of `handle_data`, seeded with `("", 0)`. */
  method SelectMax(pools: seq<Pool>) returns (sel: Selection)
    ensures IsFirstMax(pools, sel)
    ensures sel == SelectPrefix(pools, |pools|)
  {
    sel := NoSelection;
    var i := 0;
    while i < |pools|
      invariant 0 <= i <= |pools|
      invariant sel == SelectPrefix(pools, i)
    {
      var p := pools[i];
      if p.rewarderApr != [] {
        var noReward := forall a :: a in p.rewarderApr ==> a == "0%" || a == "";
        if !noReward {
          var apr := 100.0 * Round4(p.totalApr);
          if apr > sel.apr {
            sel := Selection(p.symbol, apr);
          }
        }
      }
      i := i + 1;
    }
    SelectPrefixIsFirstMax(pools, |pools|);
    assert pools[..|pools|] == pools;
  }

  /** `result['data']`: the object holding `pools`, which may be null. */
  datatype PoolsData = PoolsData(pools: Option<seq<Pool>>)

  /** The two return shapes of `handle_data`: `(None, None)` or a pair. */
  datatype Handled = Missing | Found(sel: Selection)

  /** `handle_data`: no data, null pools and an empty pool list all yield
      `(None, None)`; otherwise the first maximum, possibly the seed. */
  function HandleData(data: Option<PoolsData>): (h: Handled)
    ensures h.Missing? <==> data.None? || data.value.pools.None? || data.value.pools.value == []
    ensures h.Found? ==> IsFirstMax(data.value.pools.value, h.sel)
  {
    if data.None? || data.value.pools.None? || data.value.pools.value == [] then Missing
    else
      var pools := data.value.pools.value;
      SelectPrefixIsFirstMax(pools, |pools|);
      assert pools[..|pools|] == pools;
      Found(SelectPrefix(pools, |pools|))
  }

  /** A non-empty snapshot in which no pool has a positive display APR among
      the reward-paying ones leaves the seed `("", 0)` in place, which `job`
      then treats as a missing result. */
  lemma NoPositiveSurvivorGivesSeed(pools: seq<Pool>)
    requires pools != []
    requires forall j :: 0 <= j < |pools| && Survives(pools[j]) ==> DisplayApr(pools[j]) <= 0.0
    ensures HandleData(Some(PoolsData(Some(pools)))) == Found(NoSelection)
  {
  }

  /** The parsed body of the statistics response. */
  datatype Body = Body(code: int, data: Option<PoolsData>)

  /** An HTTP response: the body is only read when the status is 200. */
  datatype Response = Response(status: int, body: Body)

  /** Where one run of `job` ends. Only `Notify` calls the notifier. */
  datatype JobOutcome =
    | HttpNotOk                           // status != 200: nothing at all
    | CodeNotOk(code: int)                // body code != 200: logged as a net error
    | NoTarget                            // missing, empty symbol or zero APR
    | BelowMinimum(symbol: string, apr: real)
    | Notify(symbol: string, apr: real)

  /** `job`: response checks, the missing-result guard, then the minimum. */
  function Job(resp: Response, minApr: real): (o: JobOutcome)
    ensures o.HttpNotOk? <==> resp.status != 200
    ensures o.CodeNotOk? <==> resp.status == 200 && resp.body.code != 200
    ensures o.Notify? ==> o.apr > minApr && o.apr > 0.0 && o.symbol != ""
    ensures o.Notify? || o.BelowMinimum? ==>
              HandleData(resp.body.data) == Found(Selection(o.symbol, o.apr))
    ensures o.BelowMinimum? ==> o.apr <= minApr
    ensures resp.status == 200 && resp.body.code == 200 ==>
              var h := HandleData(resp.body.data);
              && (o.NoTarget? <==> h.Missing? || h.sel.symbol == "" || h.sel.apr == 0.0)
              && (h.Found? && h.sel.symbol != "" && h.sel.apr != 0.0 ==> (o.Notify? <==> h.sel.apr > minApr))
  {
    if resp.status != 200 then HttpNotOk
    else if resp.body.code != 200 then CodeNotOk(resp.body.code)
    else
      match HandleData(resp.body.data)
      case Missing => NoTarget
      case Found(sel) =>
        if sel.symbol == "" || sel.apr == 0.0 then NoTarget
        else if sel.apr <= minApr then BelowMinimum(sel.symbol, sel.apr)
        else Notify(sel.symbol, sel.apr)
  }

  /** A notification names a pool of the snapshot that pays an active reward,
      whose display APR is above the minimum and is the largest of all
      surviving pools. */
  lemma NotifiedPoolIsBest(resp: Response, minApr: real)
    requires Job(resp, minApr).Notify?
    ensures var o := Job(resp, minApr);
            var pools := resp.body.data.value.pools.value;
            && (exists k :: 0 <= k < |pools| && Survives(pools[k]) && pools[k].symbol == o.symbol && DisplayApr(pools[k]) == o.apr)
            && (forall j :: 0 <= j < |pools| && Survives(pools[j]) ==> DisplayApr(pools[j]) <= o.apr)
            && o.apr > minApr
  {
  }

  /** The example snapshot: pool B has the higher raw APR but only zero
      rewards, so pool A is selected with display APR 10. */
  lemma ZeroRewardPoolIgnored()
    ensures HandleData(Some(PoolsData(Some([Pool("A", 0.10, ["5%"]), Pool("B", 0.20, ["0%", ""])]))))
            == Found(Selection("A", 10.0))
  {
    var a := Pool("A", 0.10, ["5%"]);
    var b := Pool("B", 0.20, ["0%", ""]);
    assert "5%" in a.rewarderApr && "5%" != "0%" && "5%" != "";
    assert Survives(a);
    assert !Survives(b);
    assert (0.10 * 10000.0).Floor == 1000;
    assert RoundHalfEven(0.10 * 10000.0) == 1000;
    assert DisplayApr(a) == 10.0;
    var pools := [a, b];
    assert SelectPrefix(pools, 1) == Selection("A", 10.0);
    assert SelectPrefix(pools, 2) == Selection("A", 10.0);
  }
}
