/** The whole run of `main` once the options are read (main.c:361-479): aggregate the
    file, sort the tables and compute the figures the report prints. */
module Report {
  import opened Text
  import opened Sorting
  import opened Tables
  import opened Ledger
  import opened Metrics

  /** How many of the latest months the report lists. */
  const RecentMonths: nat := 6
  /** How many categories the report lists. */
  const TopCategories: nat := 5

  /** The figures of the text and JSON reports. */
  datatype Figures = Figures(records: nat, months: nat, skipped: nat,
                             inflow: real, outflow: real, net: real, available: real,
                             avgBurn: real, burnCount: nat, avgNet: real, netCount: nat,
                             runway: real, restricted: real,
                             recent: seq<MonthStat>, top: seq<CategoryStat>)

  /** The last six months (`recent_start`), in their sorted order. */
  function Recent(ms: seq<MonthStat>): (r: seq<MonthStat>)
    ensures |r| == if |ms| > RecentMonths then RecentMonths else |ms|
    ensures r == ms[|ms| - |r|..]
  {
    if |ms| > RecentMonths then ms[|ms| - RecentMonths..] else ms
  }

  /** The first five categories (`top`); after the sort, none of the others has a
      larger outflow than any of these. */
  function Top(cs: seq<CategoryStat>): (r: seq<CategoryStat>)
    ensures |r| == if |cs| > TopCategories then TopCategories else |cs|
    ensures r == cs[..|r|]
    ensures SortedBy(cs, CategoryLe) ==>
              forall p, q :: 0 <= p < |r| <= q < |cs| ==> r[p].outflow >= cs[q].outflow
  {
    if |cs| > TopCategories then cs[..TopCategories] else cs
  }

  /** The figures computed from the aggregated ledger, the two cash options and the
      window option. The averages cover the last `window` months (all of them when
      the window is not positive or not smaller than their number), and the average
      burn is positive exactly when one of those months ran a deficit. */
  function FiguresOf(sum: Summary, starting: real, reserved: real, window: int): (f: Figures)
    ensures f.netCount == if 0 < window < |sum.months| then window else |sum.months|
    ensures f.avgBurn > 0.0 <==>
              exists j :: WindowStart(|sum.months|, window) <= j < |sum.months| && MonthNet(sum.months[j]) < 0.0
  {
    var start := WindowStart(|sum.months|, window);
    var w := sum.months[start..];
    var available := AvailableCash(starting, reserved);
    var avgBurn := AverageBurn(w);
    WindowDeficit(sum.months, start);
    Figures(sum.records, |sum.months|, sum.skipped, sum.inflow, sum.outflow, sum.inflow - sum.outflow,
            available, avgBurn, BurnCount(w), AverageNet(w), |w|, Runway(available, avgBurn),
            sum.restricted, Recent(sum.months), Top(sum.categories))
  }

  /** A month of the window has a deficit exactly when a month from `start` on does. */
  lemma WindowDeficit(ms: seq<MonthStat>, start: nat)
    requires start <= |ms|
    ensures (exists j :: 0 <= j < |ms[start..]| && MonthNet(ms[start..][j]) < 0.0) <==>
            (exists j :: start <= j < |ms| && MonthNet(ms[j]) < 0.0)
  {
    var w := ms[start..];
    if exists j :: 0 <= j < |w| && MonthNet(w[j]) < 0.0 {
      var j :| 0 <= j < |w| && MonthNet(w[j]) < 0.0;
      assert ms[start + j] == w[j];
    }
    if exists j :: start <= j < |ms| && MonthNet(ms[j]) < 0.0 {
      var j :| start <= j < |ms| && MonthNet(ms[j]) < 0.0;
      assert w[j - start] == ms[j];
    }
  }

  /** After the sort, the monthly nets still add up to the net total and the category
      outflows to the outflow total. */
  lemma SortedTablesKeepTotals(acc: Acc, ms: seq<MonthStat>, cs: seq<CategoryStat>)
    requires Consistent(acc)
    requires multiset(ms) == multiset(acc.months) && multiset(cs) == multiset(acc.categories)
    ensures SumOf(ms, MonthNet) == acc.inflow - acc.outflow
    ensures SumOf(cs, CategoryOutflowOf) == acc.outflow
  {
    SumOfPermutation(ms, acc.months, InflowOf);
    SumOfPermutation(ms, acc.months, OutflowOf);
    NetSumTotals(ms);
    SumOfPermutation(cs, acc.categories, CategoryOutflowOf);
  }

  /** The run: read and aggregate `lines`, then compute the figures with the window
      loop. `ok` is false when the header lacks a required column. */
  method Run(lines: seq<seq<char>>, starting: real, reserved: real, window: int, asOf: seq<char>)
    returns (ok: bool, sum: Summary, figures: Figures)
    ensures ok <==> TallyOf(lines, asOf).Tallied?
    ensures ok ==>
              var a := TallyOf(lines, asOf).acc;
              && sum.records == a.records && sum.skipped == a.skipped
              && sum.inflow == a.inflow && sum.outflow == a.outflow && sum.restricted == a.restricted
              && multiset(sum.months) == multiset(a.months)
              && multiset(sum.categories) == multiset(a.categories)
    ensures ok ==> forall p, q :: 0 <= p < q < |sum.months| ==> LexLess(sum.months[p].month, sum.months[q].month)
    ensures ok ==> SortedBy(sum.categories, CategoryLe)
    ensures ok ==> figures == FiguresOf(sum, starting, reserved, window)
  {
    ok, sum := Aggregate(lines, asOf);
    if !ok {
      figures := Figures(0, 0, 0, 0.0, 0.0, 0.0, 0.0, 0.0, 0, 0.0, 0, 0.0, 0.0, [], []);
      return;
    }
    figures := Compute(sum, starting, reserved, window);
  }

  /** The figures of main.c:451-479 for an aggregated ledger. */
  method Compute(sum: Summary, starting: real, reserved: real, window: int) returns (figures: Figures)
    ensures figures == FiguresOf(sum, starting, reserved, window)
  {
    var available := AvailableCash(starting, reserved);
    var start := WindowStart(|sum.months|, window);
    var burnTotal, burnCount, netTotal, netCount := WindowTotals(sum.months, start);
    var avgBurn := Mean(burnTotal, burnCount);
    var avgNet := Mean(netTotal, netCount);
    var runway := Runway(available, avgBurn);
    var recentStart := if |sum.months| > RecentMonths then |sum.months| - RecentMonths else 0;
    var top := if |sum.categories| > TopCategories then TopCategories else |sum.categories|;
    figures := Figures(sum.records, |sum.months|, sum.skipped, sum.inflow, sum.outflow,
                       sum.inflow - sum.outflow, available, avgBurn, burnCount, avgNet, netCount,
                       runway, sum.restricted, sum.months[recentStart..], sum.categories[..top]);
  }
}
