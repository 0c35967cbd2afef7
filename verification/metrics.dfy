/** The figures `main` computes after the read loop (main.c:454-479): available cash,
    the window of months the averages look at, average burn, average net and runway. */
module Metrics {
  import opened Tables

  /** `available_cash`: starting cash less reserved cash, but never below zero. */
  function AvailableCash(starting: real, reserved: real): (r: real)
    ensures r >= 0.0 && r >= starting - reserved
    ensures r == starting - reserved || r == 0.0
  {
    if starting - reserved < 0.0 then 0.0 else starting - reserved
  }

  /** `month_start`: where the window of the last `window` months begins, or 0 when the
      window is not positive or covers every month. */
  function WindowStart(count: nat, window: int): (r: nat)
    ensures r <= count
    ensures r > 0 <==> 0 < window < count
    ensures r > 0 ==> count - r == window
  {
    if window > 0 && count > window then count - window else 0
  }

  /** The net of one month. */
  function MonthNet(m: MonthStat): real {
    m.inflow - m.outflow
  }

  /** What a month adds to the burn: its shortfall when its net is negative. */
  function Burn(m: MonthStat): (r: real)
    ensures r >= 0.0
    ensures r > 0.0 <==> MonthNet(m) < 0.0
    ensures r == 0.0 || r == -MonthNet(m)
  {
    if MonthNet(m) < 0.0 then -MonthNet(m) else 0.0
  }

  /** Number of months whose net is negative. */
  function BurnCount(ms: seq<MonthStat>): (n: nat)
    ensures n <= |ms|
  {
    if ms == [] then 0 else BurnCount(ms[..|ms| - 1]) + (if MonthNet(ms[|ms| - 1]) < 0.0 then 1 else 0)
  }

  /** The burn is never negative, and it is positive exactly when some month is
      negative, which is also exactly when the burn count is positive. */
  lemma {:induction false} BurnSumSign(ms: seq<MonthStat>)
    ensures SumOf(ms, Burn) >= 0.0
    ensures SumOf(ms, Burn) > 0.0 <==> BurnCount(ms) > 0
    ensures BurnCount(ms) > 0 <==> exists j :: 0 <= j < |ms| && MonthNet(ms[j]) < 0.0
  {
    if ms != [] {
      var init := ms[..|ms| - 1];
      BurnSumSign(init);
      if exists j :: 0 <= j < |init| && MonthNet(init[j]) < 0.0 {
        var j :| 0 <= j < |init| && MonthNet(init[j]) < 0.0;
        assert ms[j] == init[j];
      }
      if exists j :: 0 <= j < |ms| && MonthNet(ms[j]) < 0.0 {
        var j :| 0 <= j < |ms| && MonthNet(ms[j]) < 0.0;
        if j < |init| {
          assert init[j] == ms[j];
        }
      }
    }
  }

  /** The net of a run of months is its total inflow less its total outflow. */
  lemma {:induction false} NetSumTotals(ms: seq<MonthStat>)
    ensures SumOf(ms, MonthNet) == SumOf(ms, InflowOf) - SumOf(ms, OutflowOf)
  {
    if ms != [] {
      NetSumTotals(ms[..|ms| - 1]);
    }
  }

  /** The window loop (main.c:460-469): over the months from `start`, sum the nets and
      count them, and sum and count the shortfalls of the negative ones. */
  method WindowTotals(months: seq<MonthStat>, start: nat)
    returns (burnTotal: real, burnCount: nat, netTotal: real, netCount: nat)
    requires start <= |months|
    ensures burnTotal == SumOf(months[start..], Burn) && burnCount == BurnCount(months[start..])
    ensures netTotal == SumOf(months[start..], MonthNet) && netCount == |months| - start
  {
    burnTotal, burnCount, netTotal, netCount := 0.0, 0, 0.0, 0;
    var i := start;
    while i < |months|
      invariant start <= i <= |months| && netCount == i - start
      invariant burnTotal == SumOf(months[start..i], Burn) && burnCount == BurnCount(months[start..i])
      invariant netTotal == SumOf(months[start..i], MonthNet)
    {
      assert months[start..i + 1][..i - start] == months[start..i];
      var monthNet := months[i].inflow - months[i].outflow;
      netTotal := netTotal + monthNet;
      netCount := netCount + 1;
      if monthNet < 0.0 {
        burnTotal := burnTotal + -monthNet;
        burnCount := burnCount + 1;
      }
      i := i + 1;
    }
    assert months[start..i] == months[start..];
  }

  /** A mean as `main` writes it: the total over the count, or 0 for no items. */
  function Mean(total: real, count: nat): (r: real)
    ensures count > 0 ==> r * (count as real) == total
    ensures count == 0 ==> r == 0.0
  {
    if count > 0 then total / count as real else 0.0
  }

  /** `avg_burn`: the mean shortfall over the negative months, or 0 when there are
      none. */
  function AverageBurn(ms: seq<MonthStat>): (r: real)
    ensures r >= 0.0
    ensures r > 0.0 <==> exists j :: 0 <= j < |ms| && MonthNet(ms[j]) < 0.0
    ensures BurnCount(ms) > 0 ==> r * (BurnCount(ms) as real) == SumOf(ms, Burn)
  {
    BurnSumSign(ms);
    Mean(SumOf(ms, Burn), BurnCount(ms))
  }

  /** `avg_net`: the mean monthly net, or 0 over no months. */
  function AverageNet(ms: seq<MonthStat>): (r: real)
    ensures ms != [] ==> r * (|ms| as real) == SumOf(ms, MonthNet)
    ensures ms == [] ==> r == 0.0
  {
    Mean(SumOf(ms, MonthNet), |ms|)
  }

  /** `runway_months`: how many months of average burn the available cash covers, or 0
      when there is no burn. */
  function Runway(available: real, avgBurn: real): (r: real)
    ensures avgBurn > 0.0 ==> r * avgBurn == available
    ensures avgBurn > 0.0 && available >= 0.0 ==> r >= 0.0
    ensures avgBurn <= 0.0 ==> r == 0.0
  {
    if avgBurn > 0.0 then available / avgBurn else 0.0
  }

  /** A deficit month followed by a surplus month, with 10000 available: the average
      burn is the one deficit of 1000, and the runway is 10 months. */
  lemma RunwayExample(ms: seq<MonthStat>, jan: seq<char>, feb: seq<char>)
    requires ms == [MonthStat(jan, 0.0, 1000.0), MonthStat(feb, 1000.0, 0.0)]
    ensures AverageBurn(ms) == 1000.0
    ensures Runway(AvailableCash(12000.0, 2000.0), AverageBurn(ms)) == 10.0
  {
    var first := ms[..1];
    assert first[..0] == [];
    assert Burn(ms[0]) == 1000.0 && MonthNet(ms[0]) < 0.0;
    assert SumOf(first, Burn) == 1000.0 && BurnCount(first) == 1;
    assert ms[..|ms| - 1] == first;
    assert Burn(ms[1]) == 0.0 && MonthNet(ms[1]) >= 0.0;
    assert SumOf(ms, Burn) == 1000.0 && BurnCount(ms) == 1;
  }
}
