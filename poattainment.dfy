/** The CO-PO aggregation of obe.js. A teacher maps every CO to each of the 12
    POs and 3 PSOs with a level 0-3. `computePOAttainment` averages the levels
    of every PO column over all COs and weighs them with the final CO
    percentages; `storePOForChart` turns the averages into expected
    percentages; the average row under the mapping table and the "Avg Mapping"
    row of the output table average only the mapped (positive) cells. The two
    kinds of average divide by different counts, as the source does. */
module PoAttainment {
  import opened Common

  /** 12 POs followed by 3 PSOs. */
  const TOTAL_PO: nat := 15

  datatype POError = NoFinalScores  // the final CO percentages were never computed

  /** The mapping level of CO `co` (0-based) to PO `po`: a stored entry, or 0
      where nothing was entered. */
  function LevelAt(m: seq<seq<real>>, co: nat, po: nat): (r: real)
    ensures co < |m| && po < |m[co]| ==> r == m[co][po]
    ensures co >= |m| || po >= |m[co]| ==> r == 0.0
  {
    if co < |m| && po < |m[co]| then m[co][po] else 0.0
  }

  /** The sum of the levels of PO column `po` over COs 0 .. k - 1. */
  function ColumnSum(m: seq<seq<real>>, po: nat, k: nat): real {
    if k == 0 then 0.0 else ColumnSum(m, po, k - 1) + LevelAt(m, k - 1, po)
  }

  /** The sum over COs 0 .. k - 1 of the final percentage, scaled to 0-1, times
      the level of PO `po`. */
  function WeightedSum(final: seq<real>, m: seq<seq<real>>, po: nat, k: nat): real
    requires k <= |final|
  {
    if k == 0 then 0.0
    else WeightedSum(final, m, po, k - 1) + final[k - 1] / 100.0 * LevelAt(m, k - 1, po)
  }

  /** What `computePOAttainment` leaves behind for the chart and the table:
      per PO the mean level over all COs (`avg_<PO>`), the attained percentage
      (`poFinal`), and the expected and attained chart series. */
  datatype POAttainment = POAttainment(
    avg: seq<real>, poFinal: seq<real>, expected: seq<real>, attained: seq<real>)

  /** `poAvg[p]`: the column sum divided by the number of COs, not rounded. */
  function POAvgOf(final: seq<real>, m: seq<seq<real>>): (r: seq<real>)
    requires |final| > 0
    ensures |r| == TOTAL_PO
  {
    seq(TOTAL_PO, p requires 0 <= p < TOTAL_PO => ColumnSum(m, p, |final|) / |final| as real)
  }

  /** `poFinal[p]`: the weighted sum divided by the number of COs, rounded to two
      decimals, read as a fraction of level 3 and written as a percentage. */
  function POFinalOf(final: seq<real>, m: seq<seq<real>>): (r: seq<real>)
    requires |final| > 0
    ensures |r| == TOTAL_PO
  {
    seq(TOTAL_PO, p requires 0 <= p < TOTAL_PO =>
      Round2(WeightedSum(final, m, p, |final|) / |final| as real) / 3.0 * 100.0)
  }

  /** `storePOForChart`: the expected percentage of each PO is its mean level as a
      fraction of 3, rounded; the attained series is `poFinal` as it is. */
  function ChartSeries(avg: seq<real>, poFinal: seq<real>): (r: (seq<real>, seq<real>))
    ensures |r.0| == |avg| && r.1 == poFinal
  {
    (seq(|avg|, p requires 0 <= p < |avg| => Round2(avg[p] / 3.0 * 100.0)), poFinal)
  }

  function POAttainmentOf(final: seq<real>, m: seq<seq<real>>): (r: POAttainment)
    requires |final| > 0
    ensures |r.avg| == |r.poFinal| == |r.expected| == |r.attained| == TOTAL_PO
  {
    var avg := POAvgOf(final, m);
    var poFinal := POFinalOf(final, m);
    var series := ChartSeries(avg, poFinal);
    POAttainment(avg, poFinal, series.0, series.1)
  }

  /** `computePOAttainment` with `storePOForChart`: refuses when no final CO
      percentages exist, otherwise accumulates, CO by CO and PO by PO, the
      weighted sums and the level sums, then divides by the number of COs. */
  method ComputePOAttainment(final: seq<real>, m: seq<seq<real>>)
    returns (r: Result<POAttainment, POError>)
    ensures |final| == 0 <==> r.Err?
    ensures r.Ok? ==> r.value == POAttainmentOf(final, m)
  {
    if |final| == 0 {
      return Err(NoFinalScores);
    }
    var numCOs := |final|;
    var weighted := new real[TOTAL_PO](_ => 0.0);
    var sums := new real[TOTAL_PO](_ => 0.0);
    for co := 1 to numCOs + 1
      invariant forall p :: 0 <= p < TOTAL_PO ==>
        weighted[p] == WeightedSum(final, m, p, co - 1) && sums[p] == ColumnSum(m, p, co - 1)
    {
      AddCO(final, m, co, weighted, sums);
    }
    var sv, wv := sums[..], weighted[..];
    var avg := seq(TOTAL_PO, p requires 0 <= p < TOTAL_PO => sv[p] / numCOs as real);
    var poFinal := seq(TOTAL_PO, p requires 0 <= p < TOTAL_PO =>
      Round2(wv[p] / numCOs as real) / 3.0 * 100.0);
    var series := ChartSeries(avg, poFinal);
    r := Ok(POAttainment(avg, poFinal, series.0, series.1));
  }

  /** One pass of the outer loop of `computePOAttainment`: adds CO `co` (1-based)
      to the weighted sum and the level sum of every PO. */
  method AddCO(final: seq<real>, m: seq<seq<real>>, co: nat, weighted: array<real>, sums: array<real>)
    requires 1 <= co <= |final|
    requires weighted != sums && weighted.Length == sums.Length == TOTAL_PO
    requires forall p :: 0 <= p < TOTAL_PO ==>
      weighted[p] == WeightedSum(final, m, p, co - 1) && sums[p] == ColumnSum(m, p, co - 1)
    modifies weighted, sums
    ensures forall p :: 0 <= p < TOTAL_PO ==>
      weighted[p] == WeightedSum(final, m, p, co) && sums[p] == ColumnSum(m, p, co)
  {
    var finalCO := final[co - 1];
    for index := 0 to TOTAL_PO
      invariant forall p :: 0 <= p < index ==>
        weighted[p] == WeightedSum(final, m, p, co) && sums[p] == ColumnSum(m, p, co)
      invariant forall p :: index <= p < TOTAL_PO ==>
        weighted[p] == WeightedSum(final, m, p, co - 1) && sums[p] == ColumnSum(m, p, co - 1)
    {
      var level := LevelAt(m, co - 1, index);
      weighted[index] := weighted[index] + finalCO / 100.0 * level;
      sums[index] := sums[index] + level;
    }
  }

  /** A PO column with no level entered anywhere yields 0 for the mean level, the
      attained and the expected percentage. */
  lemma {:induction false} ZeroColumnSums(final: seq<real>, m: seq<seq<real>>, po: nat, k: nat)
    requires k <= |final|
    requires forall co :: 0 <= co < k ==> LevelAt(m, co, po) == 0.0
    ensures ColumnSum(m, po, k) == 0.0 && WeightedSum(final, m, po, k) == 0.0
  {
    if k > 0 {
      ZeroColumnSums(final, m, po, k - 1);
    }
  }

  lemma ZeroColumn(final: seq<real>, m: seq<seq<real>>, po: nat)
    requires |final| > 0 && po < TOTAL_PO
    requires forall co :: 0 <= co < |final| ==> LevelAt(m, co, po) == 0.0
    ensures var r := POAttainmentOf(final, m);
      r.avg[po] == 0.0 && r.poFinal[po] == 0.0 && r.expected[po] == 0.0 && r.attained[po] == 0.0
  {
    ZeroColumnSums(final, m, po, |final|);
    Round2OnGrid(0);
  }

  /** A scaled level is between 0 and the level when the final percentage is
      0 .. 100 and the level is non-negative. */
  lemma ScaledLevel(f: real, level: real)
    requires 0.0 <= f <= 100.0 && 0.0 <= level
    ensures 0.0 <= f / 100.0 * level <= level
  {
    var a := f / 100.0;
    assert level - a * level == (1.0 - a) * level;
  }

  /** With levels 0 .. 3, the level sum of COs 0 .. k - 1 is within 0 .. 3k. */
  lemma {:induction false} ColumnSumBounds(m: seq<seq<real>>, po: nat, k: nat)
    requires forall co :: 0 <= co < k ==> 0.0 <= LevelAt(m, co, po) <= 3.0
    ensures 0.0 <= ColumnSum(m, po, k) <= 3.0 * k as real
  {
    if k > 0 {
      ColumnSumBounds(m, po, k - 1);
      assert 0.0 <= LevelAt(m, k - 1, po) <= 3.0;
    }
  }

  /** With non-negative levels and final percentages 0 .. 100, the weighted sum
      is between 0 and the level sum. */
  lemma {:induction false} WeightedBelowColumn(final: seq<real>, m: seq<seq<real>>, po: nat, k: nat)
    requires k <= |final|
    requires forall co :: 0 <= co < k ==> 0.0 <= final[co] <= 100.0 && 0.0 <= LevelAt(m, co, po)
    ensures 0.0 <= WeightedSum(final, m, po, k) <= ColumnSum(m, po, k)
  {
    if k > 0 {
      WeightedBelowColumn(final, m, po, k - 1);
      var w, c := WeightedSum(final, m, po, k - 1), ColumnSum(m, po, k - 1);
      var f, level := final[k - 1], LevelAt(m, k - 1, po);
      var scaled := f / 100.0 * level;
      assert 0.0 <= scaled <= level by {
        assert 0.0 <= f <= 100.0 && 0.0 <= level;
        ScaledLevel(f, level);
      }
      assert WeightedSum(final, m, po, k) == w + scaled;
      assert ColumnSum(m, po, k) == c + level;
    }
  }

  /** With levels 0 .. 3 and final percentages 0 .. 100, the weighted sum never
      exceeds the level sum, which never exceeds 3 per CO. */
  lemma SumBounds(final: seq<real>, m: seq<seq<real>>, po: nat, k: nat)
    requires k <= |final|
    requires forall co :: 0 <= co < k ==> 0.0 <= final[co] <= 100.0 && 0.0 <= LevelAt(m, co, po) <= 3.0
    ensures 0.0 <= WeightedSum(final, m, po, k) <= ColumnSum(m, po, k) <= 3.0 * k as real
  {
    ColumnSumBounds(m, po, k);
    WeightedBelowColumn(final, m, po, k);
  }

  /** A quotient of a sum bounded by 3 per CO by the CO count is within 0 .. 3. */
  lemma MeanBounds(s: real, n: nat)
    requires n > 0 && 0.0 <= s <= 3.0 * n as real
    ensures 0.0 <= s / n as real <= 3.0
  {
    QuotientBetween(s, n as real, 0.0, 3.0);
  }

  /** With levels 0 .. 3 and final percentages 0 .. 100, every mean level is within
      0 .. 3 and every expected and attained percentage within 0 .. 100, and the
      attained percentage of a PO never exceeds its rounded mean level as a
      percentage of 3. */
  lemma POBounds(final: seq<real>, m: seq<seq<real>>, po: nat)
    requires |final| > 0 && po < TOTAL_PO
    requires forall co :: 0 <= co < |final| ==> 0.0 <= final[co] <= 100.0
    requires forall co :: 0 <= co < |final| ==> 0.0 <= LevelAt(m, co, po) <= 3.0
    ensures var r := POAttainmentOf(final, m);
      0.0 <= r.avg[po] <= 3.0 && 0.0 <= r.expected[po] <= 100.0
      && 0.0 <= r.attained[po] <= 100.0
      && r.attained[po] <= Round2(r.avg[po]) / 3.0 * 100.0
  {
    var n := |final|;
    SumBounds(final, m, po, n);
    var w, c := WeightedSum(final, m, po, n), ColumnSum(m, po, n);
    MeanBounds(w, n);
    MeanBounds(c, n);
    QuotientMonotone(w, c, n as real);
    Round2Between(w / n as real, 0, 300);
    Round2Monotone(w / n as real, c / n as real);
    Round2Percent(c / n as real / 3.0 * 100.0);
  }

  /** When every CO is fully attained (final 100), the weighted sum is the level
      sum, so the attained percentage is the rounded mean level as a percentage
      of 3. */
  lemma {:induction false} FullMarksSums(final: seq<real>, m: seq<seq<real>>, po: nat, k: nat)
    requires k <= |final|
    requires forall co :: 0 <= co < k ==> final[co] == 100.0
    ensures WeightedSum(final, m, po, k) == ColumnSum(m, po, k)
  {
    if k > 0 {
      FullMarksSums(final, m, po, k - 1);
    }
  }

  lemma FullMarks(final: seq<real>, m: seq<seq<real>>, po: nat)
    requires |final| > 0 && po < TOTAL_PO
    requires forall co :: 0 <= co < |final| ==> final[co] == 100.0
    ensures var r := POAttainmentOf(final, m); r.attained[po] == Round2(r.avg[po]) / 3.0 * 100.0
  {
    FullMarksSums(final, m, po, |final|);
  }

  // ---------------------------------------------------------------------------
  // Mapped-only averages
  // ---------------------------------------------------------------------------

  /** The number of COs among 0 .. k - 1 mapped to PO `po` with a positive level. */
  function MappedCount(m: seq<seq<real>>, po: nat, k: nat): (r: nat)
    ensures r <= k
  {
    if k == 0 then 0
    else MappedCount(m, po, k - 1) + (if LevelAt(m, k - 1, po) > 0.0 then 1 else 0)
  }

  /** The sum over the mapped COs among 0 .. k - 1 of `scale[co]` times the level. */
  function MappedSum(scale: seq<real>, m: seq<seq<real>>, po: nat, k: nat): real
    requires k <= |scale|
  {
    if k == 0 then 0.0
    else
      MappedSum(scale, m, po, k - 1)
      + (if LevelAt(m, k - 1, po) > 0.0 then scale[k - 1] * LevelAt(m, k - 1, po) else 0.0)
  }

  /** The mapped-only average of a PO column: the sum over the mapped cells
      divided by their number and rounded, "0.00" when no cell is mapped. */
  function MappedAverage(scale: seq<real>, m: seq<seq<real>>, po: nat, n: nat): real
    requires n <= |scale|
  {
    var count := MappedCount(m, po, n);
    if count > 0 then Round2(MappedSum(scale, m, po, n) / count as real) else 0.0
  }

  /** The per-CO factor of the average row under the mapping table: the level
      itself. */
  function Ones(n: nat): (r: seq<real>)
    ensures |r| == n && forall k :: 0 <= k < n ==> r[k] == 1.0
  {
    seq(n, k requires 0 <= k < n => 1.0)
  }

  /** The per-CO factor of the "Avg Mapping" row: the final percentage scaled to
      0-1. */
  function FinalFractions(final: seq<real>): (r: seq<real>)
    ensures |r| == |final| && forall k :: 0 <= k < |final| ==> r[k] == final[k] / 100.0
  {
    seq(|final|, k requires 0 <= k < |final| => final[k] / 100.0)
  }

  /** The inner loop both mapped-only rows share: sum and count the mapped cells
      of one PO column, then divide. */
  method MappedColumnAverage(scale: seq<real>, m: seq<seq<real>>, po: nat, n: nat)
    returns (avg: real)
    requires n <= |scale|
    ensures avg == MappedAverage(scale, m, po, n)
  {
    var sum, count := 0.0, 0;
    for co := 1 to n + 1
      invariant sum == MappedSum(scale, m, po, co - 1) && count == MappedCount(m, po, co - 1)
    {
      var level := LevelAt(m, co - 1, po);
      if level > 0.0 {
        sum := sum + scale[co - 1] * level;
        count := count + 1;
      }
    }
    avg := if count > 0 then Round2(sum / count as real) else 0.0;
  }

  /** `updatePOColumnAverages`: the average row under the mapping table, one
      mapped-only average of the levels per PO, over as many COs as there are
      final percentages. */
  method UpdatePOColumnAverages(numCOs: nat, m: seq<seq<real>>) returns (avgs: seq<real>)
    ensures |avgs| == TOTAL_PO
    ensures forall p :: 0 <= p < TOTAL_PO ==> avgs[p] == MappedAverage(Ones(numCOs), m, p, numCOs)
  {
    avgs := [];
    for index := 0 to TOTAL_PO
      invariant |avgs| == index
      invariant forall p :: 0 <= p < index ==> avgs[p] == MappedAverage(Ones(numCOs), m, p, numCOs)
    {
      var avg := MappedColumnAverage(Ones(numCOs), m, index, numCOs);
      avgs := avgs + [avg];
    }
  }

  /** The "Avg Mapping" row of `renderCOPOTableWithFinal`: per PO, the mapped-only
      average of the final fraction times the level. */
  method AvgMappingRow(final: seq<real>, m: seq<seq<real>>) returns (avgs: seq<real>)
    ensures |avgs| == TOTAL_PO
    ensures forall p :: 0 <= p < TOTAL_PO ==>
      avgs[p] == MappedAverage(FinalFractions(final), m, p, |final|)
  {
    avgs := [];
    for index := 0 to TOTAL_PO
      invariant |avgs| == index
      invariant forall p :: 0 <= p < index ==>
        avgs[p] == MappedAverage(FinalFractions(final), m, p, |final|)
    {
      var avg := MappedColumnAverage(FinalFractions(final), m, index, |final|);
      avgs := avgs + [avg];
    }
  }

  /** A column is unmapped exactly when none of its levels is positive; its
      mapped-only average is then 0. */
  lemma {:induction false} MappedCountZero(m: seq<seq<real>>, po: nat, k: nat)
    ensures MappedCount(m, po, k) == 0 <==> forall co :: 0 <= co < k ==> LevelAt(m, co, po) <= 0.0
  {
    if k > 0 {
      MappedCountZero(m, po, k - 1);
    }
  }

  lemma UnmappedColumn(scale: seq<real>, m: seq<seq<real>>, po: nat, n: nat)
    requires n <= |scale|
    requires forall co :: 0 <= co < n ==> LevelAt(m, co, po) <= 0.0
    ensures MappedAverage(scale, m, po, n) == 0.0
  {
    MappedCountZero(m, po, n);
  }

  /** With every level either 0 or within 1 .. 3, the mapped cells sum to between
      one and three times their number. */
  lemma {:induction false} MappedSumBounds(m: seq<seq<real>>, po: nat, k: nat)
    requires forall co :: 0 <= co < k ==>
      LevelAt(m, co, po) == 0.0 || 1.0 <= LevelAt(m, co, po) <= 3.0
    ensures MappedCount(m, po, k) as real <= MappedSum(Ones(k), m, po, k)
            <= 3.0 * MappedCount(m, po, k) as real
  {
    if k > 0 {
      MappedSumBounds(m, po, k - 1);
      MappedSumPrefix(Ones(k), Ones(k - 1), m, po, k - 1);
    }
  }

  /** The mapped sum over COs 0 .. k - 1 depends only on the first k factors. */
  lemma {:induction false} MappedSumPrefix(a: seq<real>, b: seq<real>, m: seq<seq<real>>, po: nat, k: nat)
    requires k <= |a| && k <= |b|
    requires forall co :: 0 <= co < k ==> a[co] == b[co]
    ensures MappedSum(a, m, po, k) == MappedSum(b, m, po, k)
  {
    if k > 0 {
      MappedSumPrefix(a, b, m, po, k - 1);
    }
  }

  /** With every level either 0 or within 1 .. 3, a mapped column's average under
      the mapping table lies within 1 .. 3. */
  lemma MappedAverageRange(m: seq<seq<real>>, po: nat, n: nat)
    requires forall co :: 0 <= co < n ==>
      LevelAt(m, co, po) == 0.0 || 1.0 <= LevelAt(m, co, po) <= 3.0
    requires MappedCount(m, po, n) > 0
    ensures 1.0 <= MappedAverage(Ones(n), m, po, n) <= 3.0
  {
    MappedSumBounds(m, po, n);
    var c := MappedCount(m, po, n) as real;
    var s := MappedSum(Ones(n), m, po, n);
    QuotientBetween(s, c, 1.0, 3.0);
    Round2Between(s / c, 100, 300);
  }

  /** With non-negative levels the mapped cells carry the whole column sum, so
      the mapped-only average is at least the all-COs mean level, rounded: the
      two denominators make the average row read higher than `poAvg`. */
  lemma {:induction false} MappedSumIsColumnSum(m: seq<seq<real>>, po: nat, k: nat)
    requires forall co :: 0 <= co < k ==> 0.0 <= LevelAt(m, co, po)
    ensures MappedSum(Ones(k), m, po, k) == ColumnSum(m, po, k)
  {
    if k > 0 {
      MappedSumIsColumnSum(m, po, k - 1);
      MappedSumPrefix(Ones(k), Ones(k - 1), m, po, k - 1);
    }
  }

  lemma MappedAverageAtLeastMean(m: seq<seq<real>>, po: nat, n: nat)
    requires n > 0
    requires forall co :: 0 <= co < n ==> 0.0 <= LevelAt(m, co, po)
    ensures Round2(ColumnSum(m, po, n) / n as real) <= MappedAverage(Ones(n), m, po, n)
  {
    MappedSumIsColumnSum(m, po, n);
    MappedColumnNonNegative(m, po, n);
    var s := ColumnSum(m, po, n);
    var c := MappedCount(m, po, n);
    if c == 0 {
      MappedCountZero(m, po, n);
      ZeroLevels(m, po, n);
      Round2OnGrid(0);
    } else {
      assert s / n as real <= s / c as real by {
        DivideByFewer(s, c, n);
      }
      Round2Monotone(s / n as real, s / c as real);
    }
  }

  lemma {:induction false} MappedColumnNonNegative(m: seq<seq<real>>, po: nat, k: nat)
    requires forall co :: 0 <= co < k ==> 0.0 <= LevelAt(m, co, po)
    ensures 0.0 <= ColumnSum(m, po, k)
  {
    if k > 0 {
      MappedColumnNonNegative(m, po, k - 1);
    }
  }

  lemma {:induction false} ZeroLevels(m: seq<seq<real>>, po: nat, k: nat)
    requires forall co :: 0 <= co < k ==> LevelAt(m, co, po) == 0.0
    ensures ColumnSum(m, po, k) == 0.0
  {
    if k > 0 {
      ZeroLevels(m, po, k - 1);
    }
  }

  /** Dividing a non-negative sum by a smaller positive count gives more. */
  lemma DivideByFewer(s: real, c: nat, n: nat)
    requires 0.0 <= s && 0 < c <= n
    ensures s / n as real <= s / c as real
  {
    var q := s / n as real;
    assert q * n as real == s;
    assert q * c as real <= q * n as real;
    assert q * c as real <= s;
  }
}
