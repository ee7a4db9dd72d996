/** The question-to-CO mark aggregation of script.js: marks are summed per
    question number, questions 1..5 are compulsory and each either/or pair
    (6,7) .. (14,15) contributes its better question, all to the CO the
    mapping names; `addNameColumn` then numbers the result rows and adds the
    student names next to the USN column. */
module QuestionMarks {
  import opened Common
  import opened Text

  /** One spreadsheet row as `sheet_to_json` gives it: column header and value. */
  type Student = seq<(string, Cell)>

  function Max(a: real, b: real): (r: real)
    ensures r >= a && r >= b && (r == a || r == b)
  {
    if a >= b then a else b
  }

  // ---------------------------------------------------------------------------
  // getQMarks
  // ---------------------------------------------------------------------------

  /** What one column adds to the marks of question `q`: its numeric value when
      the first run of digits in its header reads `q`, and 0 otherwise or when
      the value is not a number. */
  function Contribution(field: (string, Cell), q: int): real {
    if FirstDigitRun(field.0) == Some(q) then CellNumber(field.1).GetOr(0.0) else 0.0
  }

  /** The marks of question `q`: the sum of the contributions of all columns. */
  function QMarks(student: Student, q: int): real {
    if student == [] then 0.0
    else QMarks(student[..|student| - 1], q) + Contribution(student[|student| - 1], q)
  }

  /** `getQMarks`: walks the columns and adds up those of question `qNo`. */
  method GetQMarks(student: Student, qNo: int) returns (total: real)
    ensures total == QMarks(student, qNo)
  {
    total := 0.0;
    for i := 0 to |student|
      invariant total == QMarks(student[..i], qNo)
    {
      assert student[..i + 1][..i] == student[..i];
      total := total + Contribution(student[i], qNo);
    }
    assert student[..|student|] == student;
  }

  /** The marks of a question add up over the columns of a split row. */
  lemma {:induction false} QMarksAppend(a: Student, b: Student, q: int)
    ensures QMarks(a + b, q) == QMarks(a, q) + QMarks(b, q)
  {
    if b != [] {
      var c := b[..|b| - 1];
      assert (a + b)[..|a + b| - 1] == a + c;
      QMarksAppend(a, c, q);
    } else {
      assert a + b == a;
    }
  }

  /** A question no column header names has no marks. */
  lemma {:induction false} QMarksUnnamed(student: Student, q: int)
    requires forall i :: 0 <= i < |student| ==> FirstDigitRun(student[i].0) != Some(q)
    ensures QMarks(student, q) == 0.0
  {
    if student != [] {
      QMarksUnnamed(student[..|student| - 1], q);
    }
  }

  /** Columns whose values are not negative give marks that are not negative. */
  lemma {:induction false} QMarksNonNegative(student: Student, q: int)
    requires forall i :: 0 <= i < |student| ==> CellNumber(student[i].1).GetOr(0.0) >= 0.0
    ensures QMarks(student, q) >= 0.0
  {
    if student != [] {
      QMarksNonNegative(student[..|student| - 1], q);
    }
  }

  // ---------------------------------------------------------------------------
  // computeCOs
  // ---------------------------------------------------------------------------

  /** The question-to-CO mapping: question q (1..15) is a key when its input
      field exists and is not empty, mapped to `parseInt` (no radix) of the field,
      `None` standing for NaN. */
  type Mapping = map<int, Option<int>>

  /** The value of input field `co_Q<q>`, "" for a missing or empty one. */
  function Field(inputs: seq<string>, q: int): string
    requires |inputs| == 15
  {
    if 1 <= q <= 15 then inputs[q - 1] else ""
  }

  /** `parseInt(el.value)` for field `co_Q<q>`. */
  function FieldValue(inputs: seq<string>, q: int): Option<int>
    requires |inputs| == 15
  {
    ParseIntAuto(Field(inputs, q))
  }

  /** The entry of question `q` in a per-question sequence, `d` outside 1 .. 15. */
  function Entry<V>(vs: seq<V>, q: int, d: V): V
    requires |vs| == 15
  {
    if 1 <= q <= 15 then vs[q - 1] else d
  }

  /** Questions 1 .. q - 1 whose field is not empty, each with its value. */
  function Collected<V>(fields: seq<string>, values: seq<V>, q: nat): map<int, V>
    requires |fields| == |values| == 15
  {
    if q <= 1 then map[]
    else
      var m := Collected(fields, values, q - 1);
      if Entry(fields, q - 1, "") != "" then m[q - 1 := Entry(values, q - 1, values[0])] else m
  }

  /** Question k is collected exactly when it is below q and its field is not empty. */
  lemma {:induction false} CollectedMembers<V>(fields: seq<string>, values: seq<V>, q: nat, k: int)
    requires |fields| == |values| == 15
    ensures k in Collected(fields, values, q) <==> 1 <= k < q && Entry(fields, k, "") != ""
    ensures k in Collected(fields, values, q) ==> Collected(fields, values, q)[k] == Entry(values, k, values[0])
  {
    if q > 1 {
      CollectedMembers(fields, values, q - 1, k);
    }
  }

  /** `parseInt` with no radix of each field. */
  function Parsed(inputs: seq<string>): (r: seq<Option<int>>)
    ensures |r| == |inputs| && forall i :: 0 <= i < |inputs| ==> r[i] == ParseIntAuto(inputs[i])
  {
    seq(|inputs|, i requires 0 <= i < |inputs| => ParseIntAuto(inputs[i]))
  }

  /** The mapping read from the fields `co_Q1` .. `co_Q15`. */
  function MappingOf(inputs: seq<string>): (m: Mapping)
    requires |inputs| == 15
    ensures forall q :: q in m <==> 1 <= q <= 15 && Field(inputs, q) != ""
    ensures forall q :: q in m ==> m[q] == FieldValue(inputs, q)
  {
    var values := Parsed(inputs);
    var m := Collected(inputs, values, 16);
    forall q ensures (q in m <==> 1 <= q <= 15 && Field(inputs, q) != "") && (q in m ==> m[q] == FieldValue(inputs, q)) {
      CollectedMembers(inputs, values, 16, q);
    }
    m
  }

  /** The loop that reads the mapping fields. */
  method BuildMapping(inputs: seq<string>) returns (coMapping: Mapping)
    requires |inputs| == 15
    ensures coMapping == MappingOf(inputs)
  {
    ghost var values := Parsed(inputs);
    coMapping := map[];
    for q := 1 to 16
      invariant coMapping == Collected(inputs, values, q)
    {
      var value := inputs[q - 1];
      assert Entry(inputs, q, "") == value && Entry(values, q, values[0]) == ParseIntAuto(value);
      if value != "" {
        coMapping := coMapping[q := ParseIntAuto(value)];
      }
    }
    assert coMapping == Collected(inputs, values, 16);
  }

  /** `if (coMapping[q])`: question q is mapped to a CO that is neither NaN nor 0. */
  predicate Mapped(m: Mapping, q: int) {
    q in m && m[q].Some? && m[q].value != 0
  }

  /** The CO keys every result carries: the mapping targets of questions 1..15,
      each starting at 0; a NaN target is a key of its own. */
  function MappedCOs(m: Mapping): set<Option<int>> {
    set q | 1 <= q <= 15 && q in m :: m[q]
  }

  /** The either/or pairs (6,7), (8,9), (10,11), (12,13), (14,15). */
  function OrPair(k: nat): (p: (int, int))
    requires k < 5
    ensures 6 <= p.0 <= 14 && p.1 == p.0 + 1 && p.0 % 2 == 0
  {
    (6 + 2 * k, 7 + 2 * k)
  }

  /** What the compulsory questions 1 .. q add to CO `co`. */
  function SinglesTotal(m: Mapping, s: Student, co: Option<int>, q: nat): real
    requires q <= 5
  {
    if q == 0 then 0.0
    else SinglesTotal(m, s, co, q - 1) + (if Mapped(m, q) && m[q] == co then QMarks(s, q) else 0.0)
  }

  /** What the first k either/or pairs add to CO `co`: the better of the two
      questions, for a pair whose first question is mapped to `co`. */
  function PairsTotal(m: Mapping, s: Student, co: Option<int>, k: nat): real
    requires k <= 5
  {
    if k == 0 then 0.0
    else
      var (q1, q2) := OrPair(k - 1);
      PairsTotal(m, s, co, k - 1) + (if Mapped(m, q1) && m[q1] == co then Max(QMarks(s, q1), QMarks(s, q2)) else 0.0)
  }

  /** The score of CO `co` for one student. */
  function COTotal(m: Mapping, s: Student, co: Option<int>): real {
    SinglesTotal(m, s, co, 5) + PairsTotal(m, s, co, 5)
  }

  /** One row of the result: the student's USN and a score per CO key. */
  datatype COResult = COResult(usn: Cell, scores: map<Option<int>, real>)

  datatype QuestionError = NoData

  /** `student.student_usno`: the value of the first column of that name. */
  function UsnOf(s: Student): Cell {
    if s == [] then Empty
    else if s[0].0 == "student_usno" then s[0].1
    else UsnOf(s[1..])
  }

  /** Every CO key of the mapping, at 0. */
  method InitScores(coMapping: Mapping) returns (scores: map<Option<int>, real>)
    ensures scores.Keys == MappedCOs(coMapping)
    ensures forall co :: co in scores ==> scores[co] == 0.0
  {
    scores := map[];
    for q := 1 to 16
      invariant scores.Keys == set k | 1 <= k < q && k in coMapping :: coMapping[k]
      invariant forall co :: co in scores ==> scores[co] == 0.0
    {
      if q in coMapping && (coMapping[q] !in scores || scores[coMapping[q]] == 0.0) {
        scores := scores[coMapping[q] := 0.0];
      }
    }
  }

  /** Adds the marks of each mapped compulsory question 1..5 to its CO. */
  method AddSingles(coMapping: Mapping, student: Student, start: map<Option<int>, real>)
    returns (scores: map<Option<int>, real>)
    requires start.Keys == MappedCOs(coMapping)
    ensures scores.Keys == start.Keys
    ensures forall co :: co in scores ==> scores[co] == start[co] + SinglesTotal(coMapping, student, co, 5)
  {
    scores := start;
    for q := 1 to 6
      invariant scores.Keys == start.Keys
      invariant forall co :: co in scores ==> scores[co] == start[co] + SinglesTotal(coMapping, student, co, q - 1)
    {
      if Mapped(coMapping, q) {
        var co := coMapping[q];
        assert co in MappedCOs(coMapping);
        var marks := GetQMarks(student, q);
        scores := scores[co := scores[co] + marks];
      }
    }
  }

  /** Adds the better mark of each either/or pair to the CO of its first
      question, skipping a pair whose first question is not mapped. */
  method AddPairs(coMapping: Mapping, student: Student, start: map<Option<int>, real>)
    returns (scores: map<Option<int>, real>)
    requires start.Keys == MappedCOs(coMapping)
    ensures scores.Keys == start.Keys
    ensures forall co :: co in scores ==> scores[co] == start[co] + PairsTotal(coMapping, student, co, 5)
  {
    scores := start;
    for k := 0 to 5
      invariant scores.Keys == start.Keys
      invariant forall co :: co in scores ==> scores[co] == start[co] + PairsTotal(coMapping, student, co, k)
    {
      var (q1, q2) := OrPair(k);
      if Mapped(coMapping, q1) {
        var co := coMapping[q1];
        assert co in MappedCOs(coMapping);
        var m1 := GetQMarks(student, q1);
        var m2 := GetQMarks(student, q2);
        scores := scores[co := scores[co] + Max(m1, m2)];
      }
    }
  }

  /** The scores of one student, built as `computeCOs` does: every CO key at 0,
      then the compulsory questions, then the either/or pairs. */
  method StudentScores(coMapping: Mapping, student: Student) returns (scores: map<Option<int>, real>)
    ensures scores.Keys == MappedCOs(coMapping)
    ensures forall co :: co in scores ==> scores[co] == COTotal(coMapping, student, co)
  {
    var zero := InitScores(coMapping);
    var singles := AddSingles(coMapping, student, zero);
    scores := AddPairs(coMapping, student, singles);
  }

  /** Result row `r` is the one `computeCOs` makes for student `s`. */
  predicate ScoredAs(r: COResult, m: Mapping, s: Student) {
    r.usn == UsnOf(s) && r.scores.Keys == MappedCOs(m)
    && forall co :: co in r.scores ==> r.scores[co] == COTotal(m, s, co)
  }

  /** The loop over the students of `computeCOs`. */
  method ScoreAll(coMapping: Mapping, excelData: seq<Student>) returns (results: seq<COResult>)
    ensures |results| == |excelData|
    ensures forall i :: 0 <= i < |excelData| ==> ScoredAs(results[i], coMapping, excelData[i])
  {
    results := [];
    for i := 0 to |excelData|
      invariant |results| == i
      invariant forall j :: 0 <= j < i ==> ScoredAs(results[j], coMapping, excelData[j])
    {
      var scores := StudentScores(coMapping, excelData[i]);
      results := results + [COResult(UsnOf(excelData[i]), scores)];
    }
  }

  /** `computeCOs`: refuses an empty upload; otherwise one result per student,
      in upload order, with the student's USN and every CO key's score. */
  method ComputeCOs(inputs: seq<string>, excelData: seq<Student>) returns (r: Result<seq<COResult>, QuestionError>)
    requires |inputs| == 15
    ensures r.Err? <==> |excelData| == 0
    ensures r.Ok? ==> (|r.value| == |excelData|
      && forall i :: 0 <= i < |excelData| ==> ScoredAs(r.value[i], MappingOf(inputs), excelData[i]))
  {
    if |excelData| == 0 {
      return Err(NoData);
    }
    var coMapping := BuildMapping(inputs);
    var results := ScoreAll(coMapping, excelData);
    r := Ok(results);
  }

  /** The compulsory questions' part of a score does not depend on what
      question `q2` (beyond 5) is mapped to. */
  lemma {:induction false} SinglesIgnore(m: Mapping, s: Student, co: Option<int>, q: nat, q2: int, x: Option<int>)
    requires q <= 5 && q2 > 5
    ensures SinglesTotal(m[q2 := x], s, co, q) == SinglesTotal(m, s, co, q)
  {
    if q > 0 {
      SinglesIgnore(m, s, co, q - 1, q2, x);
      assert Mapped(m[q2 := x], q) == Mapped(m, q);
    }
  }

  /** The pairs' part of a score does not depend on what the second question of
      a pair is mapped to. */
  lemma {:induction false} PairsIgnore(m: Mapping, s: Student, co: Option<int>, k: nat, q2: int, x: Option<int>)
    requires k <= 5 && q2 % 2 == 1
    ensures PairsTotal(m[q2 := x], s, co, k) == PairsTotal(m, s, co, k)
  {
    if k > 0 {
      PairsIgnore(m, s, co, k - 1, q2, x);
      var (q1, _) := OrPair(k - 1);
      assert Mapped(m[q2 := x], q1) == Mapped(m, q1);
    }
  }

  /** The mapping of the second question of an either/or pair never changes a
      score: the pair counts toward its first question's CO. */
  lemma SecondOfPairIgnored(m: Mapping, s: Student, co: Option<int>, k: nat, x: Option<int>)
    requires k < 5
    ensures COTotal(m[OrPair(k).1 := x], s, co) == COTotal(m, s, co)
  {
    SinglesIgnore(m, s, co, 5, OrPair(k).1, x);
    PairsIgnore(m, s, co, 5, OrPair(k).1, x);
  }

  /** A CO no compulsory question and no first question of a pair is mapped to
      keeps its initial 0. */
  lemma UntargetedCOIsZero(m: Mapping, s: Student, co: Option<int>)
    requires forall q :: 1 <= q <= 5 ==> !(Mapped(m, q) && m[q] == co)
    requires forall k :: 0 <= k < 5 ==> !(Mapped(m, OrPair(k).0) && m[OrPair(k).0] == co)
    ensures COTotal(m, s, co) == 0.0
  {
    SinglesZero(m, s, co, 5);
    PairsZero(m, s, co, 5);
  }

  lemma {:induction false} SinglesZero(m: Mapping, s: Student, co: Option<int>, q: nat)
    requires q <= 5
    requires forall q' :: 1 <= q' <= q ==> !(Mapped(m, q') && m[q'] == co)
    ensures SinglesTotal(m, s, co, q) == 0.0
  {
    if q > 0 {
      SinglesZero(m, s, co, q - 1);
    }
  }

  lemma {:induction false} PairsZero(m: Mapping, s: Student, co: Option<int>, k: nat)
    requires k <= 5
    requires forall j :: 0 <= j < k ==> !(Mapped(m, OrPair(j).0) && m[OrPair(j).0] == co)
    ensures PairsTotal(m, s, co, k) == 0.0
  {
    if k > 0 {
      PairsZero(m, s, co, k - 1);
    }
  }

  /** Marks that are never negative give CO scores that are never negative. */
  lemma COTotalNonNegative(m: Mapping, s: Student, co: Option<int>)
    requires forall i :: 0 <= i < |s| ==> CellNumber(s[i].1).GetOr(0.0) >= 0.0
    ensures COTotal(m, s, co) >= 0.0
  {
    forall q | true ensures QMarks(s, q) >= 0.0 {
      QMarksNonNegative(s, q);
    }
    SinglesNonNegative(m, s, co, 5);
    PairsNonNegative(m, s, co, 5);
  }

  lemma {:induction false} SinglesNonNegative(m: Mapping, s: Student, co: Option<int>, q: nat)
    requires q <= 5 && forall q' :: QMarks(s, q') >= 0.0
    ensures SinglesTotal(m, s, co, q) >= 0.0
  {
    if q > 0 {
      SinglesNonNegative(m, s, co, q - 1);
    }
  }

  lemma {:induction false} PairsNonNegative(m: Mapping, s: Student, co: Option<int>, k: nat)
    requires k <= 5 && forall q' :: QMarks(s, q') >= 0.0
    ensures PairsTotal(m, s, co, k) >= 0.0
  {
    if k > 0 {
      PairsNonNegative(m, s, co, k - 1);
    }
  }

  // ---------------------------------------------------------------------------
  // addNameColumn
  // ---------------------------------------------------------------------------

  /** A record of the student-details sheet: its `USN` value and the text of its
      `NAME OF THE STUDENT` value. */
  datatype Detail = Detail(usn: Cell, name: string)

  /** `findIndex`: the first position of `wanted`, or -1. */
  function IndexOf(cells: seq<string>, wanted: string): (r: int)
    ensures -1 <= r < |cells|
    ensures r >= 0 ==> cells[r] == wanted && forall k :: 0 <= k < r ==> cells[k] != wanted
    ensures r == -1 <==> wanted !in cells
  {
    if cells == [] then -1
    else if cells[0] == wanted then 0
    else
      var r := IndexOf(cells[1..], wanted);
      assert cells == [cells[0]] + cells[1..];
      if r == -1 then -1 else r + 1
  }

  /** `studentDetails.find(s => s.USN === usn)`: the first record whose USN is
      the string `usn`. */
  function FirstDetail(details: seq<Detail>, usn: string): (r: Option<nat>)
    ensures r.Some? ==> r.value < |details| && details[r.value].usn == Str(usn)
                        && forall k :: 0 <= k < r.value ==> details[k].usn != Str(usn)
    ensures r.None? ==> forall k :: 0 <= k < |details| ==> details[k].usn != Str(usn)
  {
    if details == [] then None
    else if details[0].usn == Str(usn) then Some(0)
    else
      var r := FirstDetail(details[1..], usn);
      if r.None? then None else Some(r.value + 1)
  }

  /** The name written next to a USN: that of the first matching record, else "". */
  function NameOf(details: seq<Detail>, usn: string): string {
    match FirstDetail(details, usn)
    case Some(j) => details[j].name
    case None => ""
  }

  /** The search loop of `find`. */
  method FindName(details: seq<Detail>, usn: string) returns (nameValue: string)
    ensures nameValue == NameOf(details, usn)
  {
    var j := 0;
    while j < |details| && details[j].usn != Str(usn)
      invariant 0 <= j <= |details|
      invariant forall k :: 0 <= k < j ==> details[k].usn != Str(usn)
    {
      j := j + 1;
    }
    nameValue := if j < |details| then details[j].name else "";
  }

  /** The rows that `addNameColumn` can work on: a header with a
      `student_usno` cell and data rows that reach that column. */
  predicate NameColumnReady(rows: seq<seq<string>>) {
    rows != [] && "student_usno" in rows[0]
    && forall i :: 1 <= i < |rows| ==> IndexOf(rows[0], "student_usno") < |rows[i]|
  }

  /** The table after the first half of `addNameColumn`: an `SLNO` header
      cell in front, and data row i numbered i. */
  function Numbered(rows: seq<seq<string>>): (r: seq<seq<string>>)
    ensures |r| == |rows|
  {
    seq(|rows|, i requires 0 <= i < |rows| =>
      if i == 0 then ["SLNO"] + rows[0] else [NatText(i)] + rows[i])
  }

  /** Every row reaches column `u`. */
  predicate Reaches(rows: seq<seq<string>>, u: nat) {
    forall i :: 0 <= i < |rows| ==> u < |rows[i]|
  }

  /** The table after the second half: a `NAME` cell right after column `u`,
      holding in each data row the name for the USN in column `u`. */
  function NamesAfter(rows: seq<seq<string>>, u: nat, details: seq<Detail>): (r: seq<seq<string>>)
    requires Reaches(rows, u)
    ensures |r| == |rows|
  {
    seq(|rows|, i requires 0 <= i < |rows| =>
      rows[i][..u + 1] + [if i == 0 then "NAME" else NameOf(details, rows[i][u])] + rows[i][u + 1..])
  }

  /** The whole of `addNameColumn`; the `student_usno` column has moved one
      place right once `SLNO` is in front of it. */
  function WithNames(rows: seq<seq<string>>, details: seq<Detail>): (r: seq<seq<string>>)
    requires NameColumnReady(rows)
    ensures |r| == |rows|
  {
    var u := IndexOf(rows[0], "student_usno") + 1;
    NumberedReaches(rows, u);
    NamesAfter(Numbered(rows), u, details)
  }

  lemma NumberedReaches(rows: seq<seq<string>>, u: nat)
    requires NameColumnReady(rows) && u == IndexOf(rows[0], "student_usno") + 1
    ensures Reaches(Numbered(rows), u)
  {
    var n := Numbered(rows);
    forall i | 0 <= i < |n| ensures u < |n[i]| {
      assert |n[i]| == |rows[i]| + 1;
    }
  }

  /** A row `cells` with `h` put in front and `x` spliced in after the cells
      column `u`. */
  lemma PlacedRow(cells: seq<string>, h: string, x: string, u: nat)
    requires u < |cells|
    ensures var n := [h] + cells; var r := n[..u + 2] + [x] + n[u + 2..];
      |r| == |cells| + 2 && r[0] == h && r[1..u + 2] == cells[..u + 1] && r[u + 1] == cells[u]
      && r[u + 2] == x && r[u + 3..] == cells[u + 1..]
  {
    var n := [h] + cells;
    var r := n[..u + 2] + [x] + n[u + 2..];
    assert r[1..u + 2] == cells[..u + 1];
    assert r[u + 3..] == cells[u + 1..];
  }

  /** Where everything lands: data row i starts with i, the old cells up to the
      USN follow, then the name of the first details record with that USN, then
      the remaining old cells; the header gains `SLNO` and `NAME` alike. */
  lemma NameColumnPlacement(rows: seq<seq<string>>, details: seq<Detail>, i: nat)
    requires NameColumnReady(rows) && i < |rows|
    ensures var u := IndexOf(rows[0], "student_usno");
      var r := WithNames(rows, details)[i];
      |r| == |rows[i]| + 2
      && r[1..u + 2] == rows[i][..u + 1] && r[u + 3..] == rows[i][u + 1..]
      && r[u + 1] == rows[i][u]
      && (i == 0 ==> r[0] == "SLNO" && r[u + 2] == "NAME")
      && (i > 0 ==> r[0] == NatText(i) && r[u + 2] == NameOf(details, rows[i][u]))
  {
    var u := IndexOf(rows[0], "student_usno");
    NumberedReaches(rows, u + 1);
    var h := if i == 0 then "SLNO" else NatText(i);
    var n := Numbered(rows)[i];
    assert n == [h] + rows[i];
    assert u < |rows[i]|;
    assert n[u + 1] == rows[i][u];
    var x := if i == 0 then "NAME" else NameOf(details, rows[i][u]);
    assert WithNames(rows, details)[i] == n[..u + 2] + [x] + n[u + 2..];
    PlacedRow(rows[i], h, x, u);
  }

  /** The result table of `computeCOs` as rendered, whose rows `addNameColumn`
      extends in place. */
  class OutputTable {
    var rows: seq<seq<string>>

    constructor (initial: seq<seq<string>>)
      ensures rows == initial
    {
      rows := initial;
    }

    /** `addNameColumn`. */
    method AddNameColumn(details: seq<Detail>)
      requires NameColumnReady(rows)
      modifies this
      ensures rows == WithNames(old(rows), details)
    {
      ghost var before := rows;
      NumberRows();
      var usnIndex := FindIndex(rows[0], "student_usno");
      assert usnIndex == IndexOf(before[0], "student_usno") + 1 by {
        assert rows[0] == ["SLNO"] + before[0];
        IndexOfShift(before[0], "SLNO", "student_usno");
      }
      NumberedReaches(before, usnIndex);
      InsertNames(usnIndex, details);
    }

    /** The SLNO half of `addNameColumn`. */
    method NumberRows()
      requires rows != []
      modifies this
      ensures rows == Numbered(old(rows))
    {
      ghost var before := rows;
      rows := rows[0 := ["SLNO"] + rows[0]];
      var i := 1;
      while i < |rows|
        invariant 1 <= i && |rows| == |before| && rows[0] == ["SLNO"] + before[0]
        invariant forall k :: 1 <= k < i && k < |rows| ==> rows[k] == [NatText(k)] + before[k]
        invariant forall k :: i <= k < |rows| ==> rows[k] == before[k]
      {
        rows := rows[i := [NatText(i)] + rows[i]];
        i := i + 1;
      }
    }

    /** The NAME half of `addNameColumn`, after the USN column `usnIndex`. */
    method InsertNames(usnIndex: nat, details: seq<Detail>)
      requires Reaches(rows, usnIndex)
      modifies this
      ensures rows == NamesAfter(old(rows), usnIndex, details)
    {
      ghost var before := rows;
      if rows != [] {
        rows := rows[0 := rows[0][..usnIndex + 1] + ["NAME"] + rows[0][usnIndex + 1..]];
      }
      var i := 1;
      while i < |rows|
        invariant 1 <= i && |rows| == |before|
        invariant forall k :: 0 <= k < i && k < |rows| ==> rows[k] == NamesAfter(before, usnIndex, details)[k]
        invariant forall k :: i <= k < |rows| ==> rows[k] == before[k]
      {
        var usn := rows[i][usnIndex];
        var nameValue := FindName(details, usn);
        rows := rows[i := rows[i][..usnIndex + 1] + [nameValue] + rows[i][usnIndex + 1..]];
        i := i + 1;
      }
    }
  }

  /** Putting a different cell in front moves the first `wanted` one place right. */
  lemma IndexOfShift(cells: seq<string>, first: string, wanted: string)
    requires first != wanted && wanted in cells
    ensures IndexOf([first] + cells, wanted) == IndexOf(cells, wanted) + 1
  {
    assert ([first] + cells)[1..] == cells;
  }

  /** `Array.from(cells).findIndex(c => c.innerText === wanted)`. */
  method FindIndex(cells: seq<string>, wanted: string) returns (index: int)
    ensures index == IndexOf(cells, wanted)
  {
    index := 0;
    while index < |cells| && cells[index] != wanted
      invariant 0 <= index <= |cells|
      invariant forall k :: 0 <= k < index ==> cells[k] != wanted
    {
      index := index + 1;
    }
    if index == |cells| {
      index := -1;
    }
  }
}
