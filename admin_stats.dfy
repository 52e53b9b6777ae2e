/** The admin dashboard's figures: user count, scenario count, total investment and mean ROI. */
module AdminStats {
  import opened Wrappers

  /** A row of the query `select('inkline_investment, roi')`. */
  datatype StatsRow = StatsRow(investment: Option<real>, roi: Option<real>)

  datatype Stats = Stats(totalUsers: int, totalScenarios: nat, totalInvestment: real, avgRoi: real)

  const InitialStats: Stats := Stats(0, 0, 0.0, 0.0)

  /** `s.inkline_investment || 0`. */
  function InvestmentOrZero(row: StatsRow): real
  {
    row.investment.GetOr(0.0)
  }

  /** The `reduce` summing the investments, a missing one counting as 0. */
  function TotalInvestment(rows: seq<StatsRow>): real
  {
    if rows == [] then 0.0 else TotalInvestment(rows[..|rows| - 1]) + InvestmentOrZero(rows[|rows| - 1])
  }

  /** The total of a concatenation is the sum of the totals. */
  lemma {:induction false} TotalInvestmentAppend(a: seq<StatsRow>, b: seq<StatsRow>)
    ensures TotalInvestment(a + b) == TotalInvestment(a) + TotalInvestment(b)
    decreases |b|
  {
    if b == [] {
      assert a + b == a;
    } else {
      var front := b[..|b| - 1];
      assert (a + b)[..|a + b| - 1] == a + front;
      TotalInvestmentAppend(a, front);
    }
  }

  /** Rows without a negative investment have a non-negative total. */
  lemma {:induction false} TotalInvestmentNonNegative(rows: seq<StatsRow>)
    requires forall k :: 0 <= k < |rows| ==> InvestmentOrZero(rows[k]) >= 0.0
    ensures TotalInvestment(rows) >= 0.0
  {
    if rows != [] {
      TotalInvestmentNonNegative(rows[..|rows| - 1]);
    }
  }

  /** `filter(s => s.roi !== null).map(s => s.roi)`: the ROIs that are present, in order. */
  function ValidRois(rows: seq<StatsRow>): (rois: seq<real>)
    ensures |rois| <= |rows|
    ensures forall x :: x in rois <==> exists k :: 0 <= k < |rows| && rows[k].roi == Some(x)
    ensures rois == [] <==> forall k :: 0 <= k < |rows| ==> rows[k].roi.None?
  {
    if rows == [] then []
    else
      var rest := ValidRois(rows[1..]);
      assert forall k :: 1 <= k < |rows| ==> rows[k] == rows[1..][k - 1];
      match rows[0].roi
      case None => rest
      case Some(x) => [x] + rest
  }

  /**
   * The present ROIs are collected row by row: one entry for each row with an ROI, in row
   * order, duplicates kept.
   */
  lemma {:induction false} ValidRoisAppend(a: seq<StatsRow>, b: seq<StatsRow>)
    ensures ValidRois(a + b) == ValidRois(a) + ValidRois(b)
    decreases |a|
  {
    if a == [] {
      assert a + b == b;
    } else {
      assert (a + b)[0] == a[0];
      assert (a + b)[1..] == a[1..] + b;
      ValidRoisAppend(a[1..], b);
    }
  }

  /** A single row contributes its ROI when it has one, and nothing otherwise. */
  lemma ValidRoisOfRow(row: StatsRow)
    ensures ValidRois([row]) == if row.roi.Some? then [row.roi.value] else []
  {
    assert [row][1..] == [];
  }

  /** The `reduce` summing a run of numbers from the left. */
  function Sum(xs: seq<real>): real
  {
    if xs == [] then 0.0 else Sum(xs[..|xs| - 1]) + xs[|xs| - 1]
  }

  /** `n` copies of `x` added up. */
  function Repeated(n: nat, x: real): real
  {
    if n == 0 then 0.0 else Repeated(n - 1, x) + x
  }

  lemma {:induction false} RepeatedIsProduct(n: nat, x: real)
    ensures Repeated(n, x) == n as real * x
  {
    if n > 0 {
      RepeatedIsProduct(n - 1, x);
    }
  }

  /** A sum of values between `lo` and `hi` lies between `|xs|` copies of `lo` and of `hi`. */
  lemma {:induction false} SumBounds(xs: seq<real>, lo: real, hi: real)
    requires forall k :: 0 <= k < |xs| ==> lo <= xs[k] <= hi
    ensures Repeated(|xs|, lo) <= Sum(xs) <= Repeated(|xs|, hi)
  {
    if xs != [] {
      SumBounds(xs[..|xs| - 1], lo, hi);
    }
  }

  /** `avgROI`: the mean of the present ROIs, or 0 when there is none. */
  function AvgRoi(rows: seq<StatsRow>): real
  {
    var rois := ValidRois(rows);
    if |rois| > 0 then Sum(rois) / |rois| as real else 0.0
  }

  /** A total between `n` copies of `lo` and of `hi` has its mean over `n` between `lo` and `hi`. */
  lemma MeanBounds(total: real, n: nat, lo: real, hi: real)
    requires n > 0 && Repeated(n, lo) <= total <= Repeated(n, hi)
    ensures lo <= total / n as real <= hi
  {
    RepeatedIsProduct(n, lo);
    RepeatedIsProduct(n, hi);
    var m := n as real;
    var q := total / m;
    assert total == q * m;
    assert (q - lo) * m == total - m * lo;
    assert (hi - q) * m == m * hi - total;
  }

  /** The present ROIs keep any bound that all rows' ROIs respect. */
  lemma ValidRoisWithin(rows: seq<StatsRow>, lo: real, hi: real)
    requires forall k :: 0 <= k < |rows| && rows[k].roi.Some? ==> lo <= rows[k].roi.value <= hi
    ensures forall k :: 0 <= k < |ValidRois(rows)| ==> lo <= ValidRois(rows)[k] <= hi
  {
    var rois := ValidRois(rows);
    forall k | 0 <= k < |rois|
      ensures lo <= rois[k] <= hi
    {
      assert rois[k] in rois;
    }
  }

  /** The mean lies between the least and the greatest present ROI; with no ROI it is 0. */
  lemma AvgRoiBounds(rows: seq<StatsRow>, lo: real, hi: real)
    requires forall k :: 0 <= k < |rows| && rows[k].roi.Some? ==> lo <= rows[k].roi.value <= hi
    ensures ValidRois(rows) == [] ==> AvgRoi(rows) == 0.0
    ensures ValidRois(rows) != [] ==> lo <= AvgRoi(rows) <= hi
  {
    var rois := ValidRois(rows);
    if rois != [] {
      ValidRoisWithin(rows, lo, hi);
      SumBounds(rois, lo, hi);
      MeanBounds(Sum(rois), |rois|, lo, hi);
    }
  }

  /** With at least one present ROI, as many copies of the mean as there are ROIs add up to their sum. */
  lemma AvgRoiIsMean(rows: seq<StatsRow>)
    requires ValidRois(rows) != []
    ensures Repeated(|ValidRois(rows)|, AvgRoi(rows)) == Sum(ValidRois(rows))
  {
    MeanRepeated(Sum(ValidRois(rows)), |ValidRois(rows)|);
  }

  /** `n` copies of `total / n` add up to `total`. */
  lemma MeanRepeated(total: real, n: nat)
    requires n > 0
    ensures Repeated(n, total / n as real) == total
  {
    RepeatedIsProduct(n, total / n as real);
  }

  /** The figures computed from a successful pair of queries. */
  function ComputeStats(userCount: Option<int>, rows: seq<StatsRow>): (s: Stats)
    ensures s.totalScenarios == |rows|
    ensures userCount.None? ==> s.totalUsers == 0
    ensures userCount.Some? ==> s.totalUsers == userCount.value
    ensures s.totalInvestment == TotalInvestment(rows)
    ensures s.avgRoi == AvgRoi(rows)
  {
    Stats(userCount.GetOr(0), |rows|, TotalInvestment(rows), AvgRoi(rows))
  }

  /** The dashboard's figures and loading flag. */
  class StatsPanel {
    var stats: Stats
    var loading: bool

    /** All figures start at zero, loading. */
    constructor ()
      ensures stats == InitialStats && loading
    {
      stats := InitialStats;
      loading := true;
    }

    /** `loadStats`: with both queries answered the figures are recomputed; on an error they are kept. */
    method LoadStats(userCount: Result<Option<int>>, rows: Result<seq<StatsRow>>)
      modifies this
      ensures stats == if userCount.Ok? && rows.Ok? then ComputeStats(userCount.value, rows.value) else old(stats)
      ensures !loading
    {
      if userCount.Ok? && rows.Ok? {
        stats := ComputeStats(userCount.value, rows.value);
      }
      loading := false;
    }
  }
}
