/** The final CO score section of obe.js: the CO count it starts from, the
    direct/indirect weight fields and the 1-5 indirect score fields with the
    clamps their input handlers apply, and `computeAndRender`, which blends CIE
    and SEE percentages into a direct percentage and that with the indirect
    score into the final percentage of every CO. */
module FinalScore {
  import opened Common
  import opened Text
  import opened Normaliser

  /** The CO count of the section: `parseInt(stored || '4', 10)`, kept when it is
      an integer of at least 1, 4 otherwise. A missing entry reads as "". Unlike
      the template's count it has no upper bound. */
  function FinalCOCount(stored: string): (r: nat)
    ensures r >= 1
    ensures stored == "" ==> r == 4
    ensures SettingValue(stored, 4).None? ==> r == 4
    ensures SettingValue(stored, 4).Some? ==>
      (SettingValue(stored, 4).value >= 1 ==> r == SettingValue(stored, 4).value)
      && (SettingValue(stored, 4).value < 1 ==> r == 4)
  {
    match SettingValue(stored, 4)
    case Some(n) => if n >= 1 then n else 4
    case None => 4
  }

  /** A count stored as its decimal text is read back unchanged. */
  lemma FinalCOCountRoundTrip(n: nat)
    requires n >= 1
    ensures FinalCOCount(NatText(n)) == n
  {
    ParseIntNatText(n);
  }

  /** `Number(value) || 0`, where `v` is what `Number` makes of the field (`None`
      for NaN). */
  function OrZero(v: Option<real>): (r: real)
    ensures v.Some? ==> r == v.value
    ensures v.None? ==> r == 0.0
  {
    v.GetOr(0.0)
  }

  /** The direct-weight input handler: `Number(value) || 0`, then clamped to
      0 .. 100. */
  function ClampDirectWeight(v: Option<real>): (r: real)
    ensures 0.0 <= r <= 100.0
    ensures 0.0 <= OrZero(v) <= 100.0 ==> r == OrZero(v)
    ensures OrZero(v) < 0.0 ==> r == 0.0
    ensures OrZero(v) > 100.0 ==> r == 100.0
  {
    var d := OrZero(v);
    if d < 0.0 then 0.0 else if d > 100.0 then 100.0 else d
  }

  /** `updateIndirectAuto`: the indirect weight is what the direct weight leaves
      of 100, never negative. The direct field is not clamped here: a stored
      weight above 100 leaves an indirect weight of 0 and a sum above 100. */
  function IndirectWeight(direct: Option<real>): (r: real)
    ensures r >= 0.0
    ensures OrZero(direct) <= 100.0 ==> OrZero(direct) + r == 100.0
    ensures OrZero(direct) >= 100.0 ==> r == 0.0
  {
    var d := OrZero(direct);
    if 100.0 - d < 0.0 then 0.0 else 100.0 - d
  }

  /** After the direct-weight handler has run, the two weights add up to 100. */
  lemma ClampedWeightsComplementary(v: Option<real>)
    ensures ClampDirectWeight(v) + IndirectWeight(Some(ClampDirectWeight(v))) == 100.0
  {
  }

  /** The indirect-score input handler: `Number(value) || 1` (NaN and 0 both give
      1), then clamped to 1 .. 5. */
  function ClampIndirectScore(v: Option<real>): (r: real)
    ensures 1.0 <= r <= 5.0
    ensures v.None? || v.value == 0.0 ==> r == 1.0
    ensures v.Some? && 1.0 <= v.value <= 5.0 ==> r == v.value
    ensures v.Some? && v.value < 1.0 ==> r == 1.0
    ensures v.Some? && v.value > 5.0 ==> r == 5.0
  {
    var x := if v.None? || v.value == 0.0 then 1.0 else v.value;
    if x < 1.0 then 1.0 else if x > 5.0 then 5.0 else x
  }

  /** The four weights `computeAndRender` reads, each as a fraction: the field's
      number (or 0) divided by 100. */
  datatype Weights = Weights(cie: real, see: real, direct: real, indirect: real)

  function WeightsOf(cieField: Option<real>, seeField: Option<real>,
                     directField: Option<real>, indirectField: Option<real>): (w: Weights)
    ensures w.cie * 100.0 == OrZero(cieField) && w.see * 100.0 == OrZero(seeField)
    ensures w.direct * 100.0 == OrZero(directField)
    ensures w.indirect * 100.0 == OrZero(indirectField)
  {
    Weights(OrZero(cieField) / 100.0, OrZero(seeField) / 100.0,
            OrZero(directField) / 100.0, OrZero(indirectField) / 100.0)
  }

  /** A percentage or score as `computeAndRender` reads it: `parseFloat(text) || 0`. */
  function Reading(text: string): real {
    ParseFloat(text).GetOr(0.0)
  }

  function DirectPercent(cie: real, see: real, w: Weights): real {
    cie * w.cie + see * w.see
  }

  function IndirectPercent(score: real): real {
    score / 5.0 * 100.0
  }

  function FinalPercent(direct: real, indirectPercent: real, w: Weights): real {
    direct * w.direct + indirectPercent * w.indirect
  }

  /** A fraction of a non-negative amount is at most that amount. */
  lemma FractionOf(a: real, c: real)
    requires 0.0 <= a <= 1.0 && 0.0 <= c
    ensures 0.0 <= a * c <= c
  {
    assert c - a * c == (1.0 - a) * c;
  }

  /** Scaling by a non-negative factor keeps the order. */
  lemma ScaleLe(a: real, x: real, y: real)
    requires 0.0 <= a && x <= y
    ensures x * a <= y * a
  {
    assert a * y - a * x == a * (y - x);
  }

  /** A blend `a * x + b * y` with non-negative weights adding up to 1 lies
      between `x` and `y`. */
  lemma BlendBetween(x: real, y: real, a: real, b: real)
    requires 0.0 <= a && 0.0 <= b && a + b == 1.0
    ensures x <= y ==> x <= a * x + b * y <= y
    ensures y <= x ==> y <= a * x + b * y <= x
  {
    assert a * x + b * y == x + b * (y - x);
    assert a * x + b * y == y + a * (x - y);
    if x <= y {
      FractionOf(b, y - x);
    } else {
      FractionOf(a, x - y);
    }
  }

  /** With non-negative CIE and SEE weights that add up to at most 1, two
      percentages give a direct percentage within 0 .. 100. */
  lemma DirectPercentBounds(cie: real, see: real, w: Weights)
    requires 0.0 <= cie <= 100.0 && 0.0 <= see <= 100.0
    requires 0.0 <= w.cie && 0.0 <= w.see && w.cie + w.see <= 1.0
    ensures 0.0 <= DirectPercent(cie, see, w) <= 100.0
  {
    var p, q := cie * w.cie, see * w.see;
    ScaleLe(w.cie, cie, 100.0);
    ScaleLe(w.see, see, 100.0);
    ScaleLe(w.cie, 0.0, cie);
    ScaleLe(w.see, 0.0, see);
    assert 0.0 <= p <= 100.0 * w.cie;
    assert 0.0 <= q <= 100.0 * w.see;
  }

  /** A clamped indirect score is worth 20 .. 100 percent, and 1 .. 5 map onto
      it in order. */
  lemma IndirectPercentOfClamped(v: Option<real>, u: Option<real>)
    ensures 20.0 <= IndirectPercent(ClampIndirectScore(v)) <= 100.0
    ensures ClampIndirectScore(v) <= ClampIndirectScore(u) ==>
      IndirectPercent(ClampIndirectScore(v)) <= IndirectPercent(ClampIndirectScore(u))
  {
  }

  /** With complementary non-negative weights, the final percentage lies between
      the direct and the indirect percentage; in particular two percentages in
      0 .. 100 give a final percentage in 0 .. 100. */
  lemma FinalBetween(direct: real, indirectPercent: real, w: Weights)
    requires 0.0 <= w.direct && 0.0 <= w.indirect && w.direct + w.indirect == 1.0
    ensures direct <= indirectPercent ==>
      direct <= FinalPercent(direct, indirectPercent, w) <= indirectPercent
    ensures indirectPercent <= direct ==>
      indirectPercent <= FinalPercent(direct, indirectPercent, w) <= direct
  {
    BlendBetween(direct, indirectPercent, w.direct, w.indirect);
  }

  /** The weight fields as the handlers leave them are complementary fractions. */
  lemma HandlerWeights(cieField: Option<real>, seeField: Option<real>, directField: Option<real>)
    ensures var d := ClampDirectWeight(directField);
            var w := WeightsOf(cieField, seeField, Some(d), Some(IndirectWeight(Some(d))));
            0.0 <= w.direct && 0.0 <= w.indirect && w.direct + w.indirect == 1.0
  {
    var d := ClampDirectWeight(directField);
    var w := WeightsOf(cieField, seeField, Some(d), Some(IndirectWeight(Some(d))));
    assert (w.direct + w.indirect) * 100.0 == 100.0;
  }

  /** The seven result columns of `computeAndRender`, one entry per CO. */
  datatype FinalTable = FinalTable(
    labels: seq<string>,
    cie: seq<real>,
    see: seq<real>,
    direct: seq<real>,
    indirectScore: seq<real>,
    indirectPercent: seq<real>,
    final: seq<real>)

  /** The readings of a column of fields. */
  function Readings(texts: seq<string>): (r: seq<real>)
    ensures |r| == |texts| && forall k :: 0 <= k < |texts| ==> r[k] == Reading(texts[k])
  {
    seq(|texts|, k requires 0 <= k < |texts| => Reading(texts[k]))
  }

  /** The unrounded final percentage of a CO. */
  function FinalOf(w: Weights, cie: real, see: real, score: real): real {
    FinalPercent(DirectPercent(cie, see, w), IndirectPercent(score), w)
  }

  /** The result columns, as values, for the CIE, SEE and indirect readings of
      CO 1 .. n: entry `i` belongs to CO `i + 1`. The indirect score is shown as
      read, without rounding. */
  function FinalTableOf(w: Weights, cie: seq<real>, see: seq<real>, score: seq<real>)
    : (t: FinalTable)
    requires |cie| == |see| == |score|
    ensures var n := |cie|;
      |t.labels| == |t.cie| == |t.see| == |t.direct| == n
      && |t.indirectScore| == |t.indirectPercent| == |t.final| == n
  {
    var n := |cie|;
    FinalTable(
      seq(n, i requires 0 <= i < n => COLabel(i + 1)),
      seq(n, i requires 0 <= i < n => Round2(cie[i])),
      seq(n, i requires 0 <= i < n => Round2(see[i])),
      seq(n, i requires 0 <= i < n => Round2(DirectPercent(cie[i], see[i], w))),
      score,
      seq(n, i requires 0 <= i < n => Round2(IndirectPercent(score[i]))),
      seq(n, i requires 0 <= i < n => Round2(FinalOf(w, cie[i], see[i], score[i]))))
  }

  /** The loop of `computeAndRender`: one pass over CO 1 .. n pushing every
      column from the CO's CIE, SEE and indirect readings. */
  method FillColumns(w: Weights, cie: seq<real>, see: seq<real>, score: seq<real>)
    returns (t: FinalTable)
    requires |cie| == |see| == |score|
    ensures t == FinalTableOf(w, cie, see, score)
  {
    var n := |cie|;
    var labels, cieArr, seeArr, directArr := [], [], [], [];
    var scoreArr, indirectArr, finalArr := [], [], [];
    for i := 1 to n + 1
      invariant labels == seq(i - 1, k requires 0 <= k < i - 1 => COLabel(k + 1))
      invariant cieArr == seq(i - 1, k requires 0 <= k < i - 1 => Round2(cie[k]))
      invariant seeArr == seq(i - 1, k requires 0 <= k < i - 1 => Round2(see[k]))
      invariant directArr == seq(i - 1, k requires 0 <= k < i - 1 => Round2(DirectPercent(cie[k], see[k], w)))
      invariant scoreArr == score[..i - 1]
      invariant indirectArr == seq(i - 1, k requires 0 <= k < i - 1 => Round2(IndirectPercent(score[k])))
      invariant finalArr == seq(i - 1, k requires 0 <= k < i - 1 => Round2(FinalOf(w, cie[k], see[k], score[k])))
    {
      var directPercent := DirectPercent(cie[i - 1], see[i - 1], w);
      var indirectPercent := IndirectPercent(score[i - 1]);
      var final := FinalOf(w, cie[i - 1], see[i - 1], score[i - 1]);
      labels := labels + [COLabel(i)];
      cieArr := cieArr + [Round2(cie[i - 1])];
      seeArr := seeArr + [Round2(see[i - 1])];
      directArr := directArr + [Round2(directPercent)];
      scoreArr := scoreArr + [score[i - 1]];
      indirectArr := indirectArr + [Round2(indirectPercent)];
      finalArr := finalArr + [Round2(final)];
    }
    assert score[..n] == score;
    t := FinalTable(labels, cieArr, seeArr, directArr, scoreArr, indirectArr, finalArr);
  }

  /** `computeAndRender`: reads the CIE, SEE and indirect fields of CO 1 ..
      numCOs with `parseFloat(value) || 0` and fills the result columns; the
      final column is what the CO-PO section later works from. */
  method ComputeAndRender(numCOs: nat, w: Weights,
                          cieText: seq<string>, seeText: seq<string>, indText: seq<string>)
    returns (t: FinalTable)
    requires |cieText| == |seeText| == |indText| == numCOs
    ensures t == FinalTableOf(w, Readings(cieText), Readings(seeText), Readings(indText))
    ensures |t.labels| == |t.cie| == |t.see| == |t.direct| == numCOs
    ensures |t.indirectScore| == |t.indirectPercent| == |t.final| == numCOs
  {
    t := FillColumns(w, Readings(cieText), Readings(seeText), Readings(indText));
  }

  /** Every direct, indirect and final percentage of the table is within 0 .. 100
      (the indirect one within 20 .. 100) when the CIE and SEE readings are
      percentages, the CIE/SEE weights are non-negative and add up to at most 1,
      the indirect scores are 1 .. 5 and the direct and indirect weights are
      complementary. */
  lemma FinalTableBounds(w: Weights, cie: seq<real>, see: seq<real>, score: seq<real>)
    requires |cie| == |see| == |score|
    requires forall i :: 0 <= i < |cie| ==>
      0.0 <= cie[i] <= 100.0 && 0.0 <= see[i] <= 100.0 && 1.0 <= score[i] <= 5.0
    requires 0.0 <= w.cie && 0.0 <= w.see && w.cie + w.see <= 1.0
    requires 0.0 <= w.direct && 0.0 <= w.indirect && w.direct + w.indirect == 1.0
    ensures var t := FinalTableOf(w, cie, see, score);
      forall i :: 0 <= i < |t.final| ==>
        0.0 <= t.direct[i] <= 100.0 && 20.0 <= t.indirectPercent[i] <= 100.0
        && 0.0 <= t.final[i] <= 100.0
  {
    var t := FinalTableOf(w, cie, see, score);
    forall i | 0 <= i < |t.final|
      ensures 0.0 <= t.direct[i] <= 100.0 && 20.0 <= t.indirectPercent[i] <= 100.0
              && 0.0 <= t.final[i] <= 100.0
    {
      var d := DirectPercent(cie[i], see[i], w);
      var p := IndirectPercent(score[i]);
      DirectPercentBounds(cie[i], see[i], w);
      FinalBetween(d, p, w);
      Round2Percent(d);
      Round2Between(p, 2000, 10000);
      Round2Percent(FinalOf(w, cie[i], see[i], score[i]));
    }
  }

  /** Each final entry lies between the rounded direct and indirect entries of
      its CO when the direct and indirect weights are complementary. */
  lemma FinalTableBetween(w: Weights, cie: seq<real>, see: seq<real>, score: seq<real>, i: nat)
    requires |cie| == |see| == |score| && i < |cie|
    requires 0.0 <= w.direct && 0.0 <= w.indirect && w.direct + w.indirect == 1.0
    ensures var t := FinalTableOf(w, cie, see, score);
      (t.direct[i] <= t.indirectPercent[i] ==> t.direct[i] <= t.final[i] <= t.indirectPercent[i])
      && (t.indirectPercent[i] <= t.direct[i] ==> t.indirectPercent[i] <= t.final[i] <= t.direct[i])
  {
    var d := DirectPercent(cie[i], see[i], w);
    var p := IndirectPercent(score[i]);
    var f := FinalOf(w, cie[i], see[i], score[i]);
    FinalBetween(d, p, w);
    if d <= p {
      Round2Monotone(d, f);
      Round2Monotone(f, p);
    } else {
      Round2Monotone(p, f);
      Round2Monotone(f, d);
    }
  }
}
