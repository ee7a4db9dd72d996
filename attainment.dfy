/** The CO attainment summary (`computeSummary` in obe.js): how many students
    reach each course outcome's target, that number as a rounded percentage of
    the class, and the 0-3 attainment level the percentage earns. */
module Attainment {
  import opened Common

  /** One normalised spreadsheet row: serial number, USN, name and one score per
      detected CO column. */
  datatype Student = Student(slno: Cell, usn: Cell, name: Cell, cos: seq<real>)

  datatype Summary = Summary(
    nStudents: nat,
    nCOs: nat,
    counts: seq<nat>,
    percent: seq<real>,
    level: seq<nat>)

  /** Student `s` reaches the target of CO `i`. The threshold is inclusive. A
      score without a target (`targets[i]` is `undefined`) never passes, and a
      target without a score is never reached. */
  predicate Passes(s: Student, targets: seq<real>, i: nat) {
    i < |targets| && i < |s.cos| && s.cos[i] >= targets[i]
  }

  /** The number of students that reach the target of CO `i`. */
  function CountPassing(students: seq<Student>, targets: seq<real>, i: nat): (r: nat)
    ensures r <= |students|
    ensures i >= |targets| ==> r == 0
  {
    if students == [] then 0
    else
      CountPassing(students[..|students| - 1], targets, i)
      + (if Passes(students[|students| - 1], targets, i) then 1 else 0)
  }

  /** The students that reach the target of CO `i`, by position. */
  ghost function PassingIndices(students: seq<Student>, targets: seq<real>, i: nat): set<nat> {
    set k: nat | k < |students| && Passes(students[k], targets, i)
  }

  /** The passing positions of a class are those of all but its last student,
      and the last position when that student passes. */
  lemma PassingStep(students: seq<Student>, targets: seq<real>, i: nat)
    requires students != []
    ensures var n := |students| - 1;
      PassingIndices(students, targets, i)
      == PassingIndices(students[..n], targets, i) + (if Passes(students[n], targets, i) then {n} else {})
  {
    var n := |students| - 1;
    var prefix := students[..n];
    var all := PassingIndices(students, targets, i);
    var rhs := PassingIndices(prefix, targets, i) + (if Passes(students[n], targets, i) then {n} else {});
    forall k ensures k in all <==> k in rhs {
      if 0 <= k < n {
        assert prefix[k] == students[k];
      }
    }
  }

  /** The count is exactly the number of students whose score reaches the target. */
  lemma {:induction false} CountPassingIsCardinality(students: seq<Student>, targets: seq<real>, i: nat)
    ensures CountPassing(students, targets, i) == |PassingIndices(students, targets, i)|
  {
    if students != [] {
      var n := |students| - 1;
      var prefix := students[..n];
      CountPassingIsCardinality(prefix, targets, i);
      PassingStep(students, targets, i);
      var before := PassingIndices(prefix, targets, i);
      assert n !in before;
    }
  }

  /** The pass count of a CO as a percentage of the class, rounded as `toFixed(2)`. */
  function Percent(count: nat, nStudents: nat): (r: real)
    requires 0 < nStudents
    requires count <= nStudents
    ensures 0.0 <= r <= 100.0
    ensures count == 0 ==> r == 0.0
    ensures count == nStudents ==> r == 100.0
  {
    var p := count as real / nStudents as real * 100.0;
    ShareOfClass(count, nStudents);
    Round2Percent(p);
    Round2OnGrid(10000);
    Round2OnGrid(0);
    Round2(p)
  }

  /** A part of the class as a percentage of it is within 0 .. 100. */
  lemma ShareOfClass(count: nat, nStudents: nat)
    requires 0 < nStudents && count <= nStudents
    ensures var p := count as real / nStudents as real * 100.0;
      0.0 <= p <= 100.0 && (count == 0 ==> p == 0.0) && (count == nStudents ==> p == 10000 as real / 100.0)
  {
    var c, n := count as real, nStudents as real;
    QuotientBetween(c, n, 0.0, 1.0);
    if count == nStudents {
      QuotientBetween(c, n, 1.0, 1.0);
    }
    if count == 0 {
      QuotientBetween(c, n, 0.0, 0.0);
    }
  }

  /** The attainment level a percentage earns: 0 below 60, and from 60 on one
      level for every full ten points, capped at 3. */
  function Level(p: real): (r: nat)
    ensures r <= 3
    ensures r > 0 ==> p >= 50.0 + 10.0 * r as real
    ensures r < 3 ==> p < 60.0 + 10.0 * r as real
  {
    if p < 60.0 then 0 else if p >= 80.0 then 3 else if p >= 70.0 then 2 else 1
  }

  /** A higher percentage never earns a lower level. */
  lemma LevelMonotone(p: real, q: real)
    requires p <= q
    ensures Level(p) <= Level(q)
  {
  }

  function Counts(students: seq<Student>, targets: seq<real>): (r: seq<nat>)
    ensures |r| == |targets|
    ensures forall i :: 0 <= i < |r| ==> r[i] <= |students|
  {
    seq(|targets|, i requires 0 <= i < |targets| => CountPassing(students, targets, i))
  }

  /** The whole summary, as a value: what `ComputeSummary` returns. */
  function SummaryOf(students: seq<Student>, targets: seq<real>): (r: Summary)
    requires |students| > 0
    ensures |r.counts| == |r.percent| == |r.level| == r.nCOs == |targets|
  {
    var counts := Counts(students, targets);
    var percent := seq(|targets|, i requires 0 <= i < |targets| => Percent(counts[i], |students|));
    var level := seq(|targets|, i requires 0 <= i < |targets| => Level(percent[i]));
    Summary(|students|, |targets|, counts, percent, level)
  }

  /** `computeSummary`: counts, per CO, the students at or above the target by
      walking every score of every student, then converts the counts to
      percentages and levels. */
  method ComputeSummary(students: seq<Student>, targets: seq<real>) returns (summary: Summary)
    requires |students| > 0
    ensures summary == SummaryOf(students, targets)
    ensures summary.nStudents == |students| && summary.nCOs == |targets|
    ensures |summary.counts| == |summary.percent| == |summary.level| == |targets|
    ensures forall i :: 0 <= i < |targets| ==>
      summary.counts[i] == |PassingIndices(students, targets, i)|
    ensures forall i :: 0 <= i < |targets| ==>
      0.0 <= summary.percent[i] <= 100.0 && summary.level[i] <= 3
  {
    var nCOs := |targets|;
    var counts := new nat[nCOs](_ => 0);
    for si := 0 to |students|
      invariant forall k :: 0 <= k < nCOs ==> counts[k] == CountPassing(students[..si], targets, k)
    {
      var s := students[si];
      for ci := 0 to |s.cos|
        invariant forall k :: 0 <= k < nCOs ==>
          counts[k] == CountPassing(students[..si], targets, k)
                       + (if k < ci && Passes(s, targets, k) then 1 else 0)
      {
        if ci < nCOs && s.cos[ci] >= targets[ci] {
          counts[ci] := counts[ci] + 1;
        }
      }
      assert students[..si + 1][..si] == students[..si];
    }
    assert students[..|students|] == students;
    var c := counts[..];
    var percent := seq(nCOs, i requires 0 <= i < nCOs => Percent(c[i], |students|));
    var level := seq(nCOs, i requires 0 <= i < nCOs => Level(percent[i]));
    summary := Summary(|students|, nCOs, c, percent, level);
    forall i | 0 <= i < nCOs
      ensures summary.counts[i] == |PassingIndices(students, targets, i)|
    {
      CountPassingIsCardinality(students, targets, i);
    }
  }

  /** A worked example: targets 60 and 60, two students scoring (70, 50) and
      (80, 90). Both reach CO1 and one reaches CO2, so CO2's 50% earns level 0. */
  lemma SummaryExample()
    ensures var ss := [Student(Num(1.0), Empty, Empty, [70.0, 50.0]),
                       Student(Num(2.0), Empty, Empty, [80.0, 90.0])];
            var r := SummaryOf(ss, [60.0, 60.0]);
            r.counts == [2, 1] && r.percent == [100.0, 50.0] && r.level == [3, 0]
  {
    var ss := [Student(Num(1.0), Empty, Empty, [70.0, 50.0]),
               Student(Num(2.0), Empty, Empty, [80.0, 90.0])];
    var t := [60.0, 60.0];
    assert ss[..1][..0] == [];
    assert CountPassing(ss[..1], t, 0) == 1;
    assert CountPassing(ss[..1], t, 1) == 0;
    assert CountPassing(ss, t, 0) == 2;
    assert CountPassing(ss, t, 1) == 1;
    Round2OnGrid(5000);
    assert 1 as real / 2 as real * 100.0 == 5000 as real / 100.0;
    assert Percent(1, 2) == 50.0;
    assert Percent(2, 2) == 100.0;
  }
}
