/** The sheet normaliser of obe.js: `processAOA` turns the rows-of-cells grid
    of an uploaded CIE or SEE sheet into student records, one score per `CO<n>`
    header column, and hands them to `computeSummary`; the upload callback
    refuses a sheet without data rows; the template download builds the grid
    a teacher fills in, for a CO count clamped to 1..12. */
module Normaliser {
  import opened Common
  import opened Text
  import opened Attainment

  datatype NormaliseError =
    | EmptyDataset      // fewer than two rows: no header and data
    | NoOutcomeColumns  // no header matches CO<n>
    | NoStudentRows     // every data row is empty

  /** What `processAOA` stores for a sheet: trimmed headers, students, targets. */
  datatype Upload = Upload(headers: seq<Cell>, students: seq<Student>, targets: seq<real>)

  datatype Processed = Processed(upload: Upload, summary: Summary)

  /** `String(h).trim()`. A number keeps its value (its text never matches the CO
      pattern, which needs a letter first); `undefined` reads as "undefined". */
  function HeaderLabel(c: Cell): Cell {
    match c
    case Str(s) => Str(Trim(s))
    case Num(v) => Num(v)
    case Empty => Str("undefined")
  }

  /** The header test `/^CO\s*\d+/i`: C and O in either case, optional white
      space, then a digit. */
  predicate IsCOHeader(h: string) {
    |h| >= 3 && (h[0] == 'C' || h[0] == 'c') && (h[1] == 'O' || h[1] == 'o')
    && var rest := TrimStart(h[2..]); rest != [] && IsDigit(rest[0])
  }

  predicate IsCOLabel(c: Cell) {
    c.Str? && IsCOHeader(c.s)
  }

  /** `aoa[0].map(h => String(h).trim())`. */
  function Headers(row: seq<Cell>): (hs: seq<Cell>)
    ensures |hs| == |row|
  {
    seq(|row|, i requires 0 <= i < |row| => HeaderLabel(row[i]))
  }

  /** `headers.filter(isCO).length`. */
  function CountCOs(headers: seq<Cell>): (r: nat)
    ensures r <= |headers|
  {
    if headers == [] then 0
    else (if IsCOLabel(headers[0]) then 1 else 0) + CountCOs(headers[1..])
  }

  /** The target typed for CO `i + 1`: `parseFloat(value || '0')`, `NaN` read as 0;
      a target box that does not exist reads as 0 too. */
  function TargetValue(targetInputs: seq<string>, i: nat): real {
    if i < |targetInputs| then ParseFloat(targetInputs[i]).GetOr(0.0) else 0.0
  }

  /** The targets of CO 1 .. numCOs. */
  function Targets(targetInputs: seq<string>, numCOs: nat): (t: seq<real>)
    ensures |t| == numCOs && forall i :: 0 <= i < numCOs ==> t[i] == TargetValue(targetInputs, i)
  {
    seq(numCOs, i requires 0 <= i < numCOs => TargetValue(targetInputs, i))
  }

  /** The score of CO `ci + 1` in a row: `parseFloat(row[3 + ci])`, `NaN` read as 0. */
  function ScoreOf(row: seq<Cell>, ci: nat): real {
    CellNumber(CellAt(row, 3 + ci)).GetOr(0.0)
  }

  /** The student record of data row `r`: the serial number falls back to the
      row index when cell 0 is falsy, USN and name fall back to "". */
  function StudentOf(row: seq<Cell>, r: nat, numCOs: nat): (s: Student)
    ensures |s.cos| == numCOs
    ensures forall ci :: 0 <= ci < numCOs ==> s.cos[ci] == ScoreOf(row, ci)
  {
    var slno := if Truthy(CellAt(row, 0)) then CellAt(row, 0) else Num(r as real);
    var usn := if Truthy(CellAt(row, 1)) then CellAt(row, 1) else Str("");
    var name := if Truthy(CellAt(row, 2)) then CellAt(row, 2) else Str("");
    Student(slno, usn, name, seq(numCOs, ci requires 0 <= ci < numCOs => ScoreOf(row, ci)))
  }

  /** The students of data rows 1 .. end - 1, in row order; empty rows are skipped. */
  function StudentRows(aoa: seq<seq<Cell>>, end: nat, numCOs: nat): (r: seq<Student>)
    requires 1 <= end <= |aoa|
    ensures |r| <= end - 1
    ensures forall k :: 0 <= k < |r| ==> |r[k].cos| == numCOs
  {
    if end == 1 then []
    else
      StudentRows(aoa, end - 1, numCOs)
      + (if |aoa[end - 1]| == 0 then [] else [StudentOf(aoa[end - 1], end - 1, numCOs)])
  }

  /** What `processAOA` computes from a grid whose row 0 is the header row. */
  function Normalise(aoa: seq<seq<Cell>>, targetInputs: seq<string>): (r: Result<Upload, NormaliseError>)
    requires |aoa| >= 1
    ensures r.Err? ==> r.error != EmptyDataset
    ensures r.Ok? ==> |r.value.targets| == CountCOs(r.value.headers) > 0
    ensures r.Ok? ==> r.value.students != []
    ensures r.Ok? ==> forall k :: 0 <= k < |r.value.students| ==>
      |r.value.students[k].cos| == |r.value.targets|
  {
    var headers := Headers(aoa[0]);
    var numCOs := CountCOs(headers);
    if numCOs == 0 then Err(NoOutcomeColumns)
    else
      var targets := Targets(targetInputs, numCOs);
      var students := StudentRows(aoa, |aoa|, numCOs);
      if students == [] then Err(NoStudentRows)
      else Ok(Upload(headers, students, targets))
  }

  /** The body of `processAOA`'s row loop for one non-empty row. */
  method ReadStudent(cells: seq<Cell>, row: nat, numCOs: nat) returns (s: Student)
    ensures s == StudentOf(cells, row, numCOs)
  {
    var slno := if Truthy(CellAt(cells, 0)) then CellAt(cells, 0) else Num(row as real);
    var usn := if Truthy(CellAt(cells, 1)) then CellAt(cells, 1) else Str("");
    var name := if Truthy(CellAt(cells, 2)) then CellAt(cells, 2) else Str("");
    var cos := [];
    for ci := 0 to numCOs
      invariant cos == seq(ci, k requires 0 <= k < ci => ScoreOf(cells, k))
    {
      var v := CellNumber(CellAt(cells, 3 + ci));
      cos := cos + [if v.Some? then v.value else 0.0];
    }
    s := Student(slno, usn, name, cos);
  }

  /** The target loop of `processAOA`. */
  method ReadTargets(targetInputs: seq<string>, numCOs: nat) returns (targets: seq<real>)
    ensures targets == Targets(targetInputs, numCOs)
  {
    targets := [];
    for i := 0 to numCOs
      invariant targets == Targets(targetInputs, i)
    {
      targets := targets + [TargetValue(targetInputs, i)];
    }
  }

  /** The row loop of `processAOA`: empty rows are skipped. */
  method ReadStudents(aoa: seq<seq<Cell>>, numCOs: nat) returns (students: seq<Student>)
    requires |aoa| >= 1
    ensures students == StudentRows(aoa, |aoa|, numCOs)
  {
    students := [];
    for row := 1 to |aoa|
      invariant students == StudentRows(aoa, row, numCOs)
    {
      var cells := aoa[row];
      if |cells| == 0 {
        continue;
      }
      var student := ReadStudent(cells, row, numCOs);
      students := students + [student];
    }
  }

  /** `processAOA`: detect the CO columns, collect the targets and the students
      in loops, and summarise. An error returns before anything is stored. */
  method ProcessAOA(aoa: seq<seq<Cell>>, targetInputs: seq<string>)
    returns (r: Result<Processed, NormaliseError>)
    requires |aoa| >= 1
    ensures r.Err? ==> Normalise(aoa, targetInputs) == Err(r.error)
    ensures r.Ok? ==> Normalise(aoa, targetInputs) == Ok(r.value.upload)
    ensures r.Ok? ==> r.value.summary == SummaryOf(r.value.upload.students, r.value.upload.targets)
  {
    var headers := Headers(aoa[0]);
    var numCOs := CountCOs(headers);
    if numCOs == 0 {
      return Err(NoOutcomeColumns);
    }

    var targets := ReadTargets(targetInputs, numCOs);
    var students := ReadStudents(aoa, numCOs);
    if |students| == 0 {
      return Err(NoStudentRows);
    }
    var summary := ComputeSummary(students, targets);
    r := Ok(Processed(Upload(headers, students, targets), summary));
  }

  /** The upload callback: a sheet needs a header row and at least one data row
      before `processAOA` sees it. */
  method LoadSheet(aoa: seq<seq<Cell>>, targetInputs: seq<string>)
    returns (r: Result<Processed, NormaliseError>)
    ensures r.Err? <==> |aoa| < 2 || Normalise(aoa, targetInputs).Err?
    ensures r.Err? && |aoa| < 2 ==> r.error == EmptyDataset
    ensures r.Err? && |aoa| >= 2 ==> Normalise(aoa, targetInputs) == Err(r.error)
    ensures r.Ok? ==> Normalise(aoa, targetInputs) == Ok(r.value.upload)
    ensures r.Ok? ==> r.value.summary == SummaryOf(r.value.upload.students, r.value.upload.targets)
  {
    if |aoa| < 2 {
      return Err(EmptyDataset);
    }
    r := ProcessAOA(aoa, targetInputs);
  }

  /** Every non-empty data row yields its student and nothing else does. */
  lemma {:induction false} StudentRowsMembers(aoa: seq<seq<Cell>>, end: nat, numCOs: nat, s: Student)
    requires 1 <= end <= |aoa|
    ensures s in StudentRows(aoa, end, numCOs) <==>
      exists r :: 1 <= r < end && |aoa[r]| > 0 && s == StudentOf(aoa[r], r, numCOs)
  {
    if end > 1 {
      StudentRowsMembers(aoa, end - 1, numCOs, s);
    }
  }

  /** Only empty rows are skipped: no student at all means every data row is empty. */
  lemma {:induction false} StudentRowsEmpty(aoa: seq<seq<Cell>>, end: nat, numCOs: nat)
    requires 1 <= end <= |aoa|
    ensures StudentRows(aoa, end, numCOs) == [] <==> forall r :: 1 <= r < end ==> |aoa[r]| == 0
  {
    if end > 1 {
      StudentRowsEmpty(aoa, end - 1, numCOs);
    }
  }

  /** The two ways `processAOA` refuses a sheet, each stated on the input alone. */
  lemma NormaliseErrors(aoa: seq<seq<Cell>>, targetInputs: seq<string>)
    requires |aoa| >= 1
    ensures Normalise(aoa, targetInputs) == Err(NoOutcomeColumns) <==>
      forall k :: 0 <= k < |aoa[0]| ==> !IsCOLabel(Headers(aoa[0])[k])
    ensures Normalise(aoa, targetInputs) == Err(NoStudentRows) <==>
      (exists k :: 0 <= k < |aoa[0]| && IsCOLabel(Headers(aoa[0])[k]))
      && forall r :: 1 <= r < |aoa| ==> |aoa[r]| == 0
  {
    var headers := Headers(aoa[0]);
    CountCOsZero(headers);
    StudentRowsEmpty(aoa, |aoa|, CountCOs(headers));
  }

  // ---------------------------------------------------------------------------
  // The CO count setting and the downloadable template
  // ---------------------------------------------------------------------------

  /** `parseInt(value || fallback, 10)`: an empty field means the fallback. */
  function SettingValue(value: string, fallback: nat): (r: Option<int>)
    ensures value == "" ==> r == Some(fallback as int)
  {
    if value == "" then Some(fallback as int) else ParseInt(value)
  }

  /** `Math.max(1, Math.min(12, n))`. */
  function ClampCOCount(n: int): (r: nat)
    ensures 1 <= r <= 12
    ensures 1 <= n <= 12 ==> r == n
    ensures n < 1 ==> r == 1
    ensures n > 12 ==> r == 12
  {
    if n < 1 then 1 else if n > 12 then 12 else n
  }

  /** The number of CO target boxes and template columns for the "numcos" field
      (default 4). A field that does not parse makes the clamp `NaN`, and a loop
      `i <= NaN` runs zero times. */
  function COCountFromField(value: string): (r: nat)
    ensures r <= 12
    ensures SettingValue(value, 4).Some? ==> 1 <= r
  {
    match SettingValue(value, 4)
    case Some(n) => ClampCOCount(n)
    case None => 0
  }

  /** `Math.max(1, parseInt(numstudents || 18, 10))`, `NaN` giving no rows. */
  function StudentCountFromField(value: string): (r: nat)
    ensures SettingValue(value, 18).Some? ==> 1 <= r
  {
    match SettingValue(value, 18)
    case Some(n) => if n < 1 then 1 else n
    case None => 0
  }

  function COLabel(i: nat): string {
    "CO" + NatText(i)
  }

  function TemplateHeader(n: nat): (h: seq<Cell>)
    ensures |h| == 3 + n
  {
    [Str("SLNO"), Str("USN"), Str("Student Name")] + COColumns(n)
  }

  function TemplateRow(n: nat, r: nat): (row: seq<Cell>)
    ensures |row| == 3 + n
  {
    [Num(r as real), Str(""), Str("")] + seq(n, i requires 0 <= i < n => Str(""))
  }

  /** The template grid: a header row and `students` numbered, otherwise blank rows. */
  function Template(n: nat, students: nat): (rows: seq<seq<Cell>>)
    ensures |rows| == students + 1
  {
    [TemplateHeader(n)] + seq(students, r requires 0 <= r < students => TemplateRow(n, r + 1))
  }

  /** The template download: builds the header and the rows in loops. */
  method BuildTemplate(numcosField: string, numstudentsField: string) returns (rows: seq<seq<Cell>>)
    ensures rows == Template(COCountFromField(numcosField), StudentCountFromField(numstudentsField))
  {
    var n := COCountFromField(numcosField);
    var students := StudentCountFromField(numstudentsField);
    var headers := [Str("SLNO"), Str("USN"), Str("Student Name")];
    for i := 1 to n + 1
      invariant headers == TemplateHeader(i - 1)
    {
      headers := headers + [Str(COLabel(i))];
    }
    rows := [headers];
    for r := 1 to students + 1
      invariant rows == Template(n, r - 1)
    {
      var row := [Num(r as real), Str(""), Str("")];
      for i := 1 to n + 1
        invariant row == TemplateRow(i - 1, r)
      {
        row := row + [Str("")];
      }
      rows := rows + [row];
    }
  }

  /** A `CO` followed by digits is a CO header with no white space around it. */
  lemma CODigitsHeader(h: string)
    requires |h| >= 3 && h[0] == 'C' && h[1] == 'O' && AllDigits(h[2..])
    ensures IsCOHeader(h) && Trim(h) == h
  {
    var t := h[2..];
    DigitsShape(t);
    assert TrimStart(h) == h by { assert !IsSpace(h[0]); }
    assert TrimEnd(h) == h by { assert h[|h| - 1] == t[|t| - 1]; assert IsDigit(t[|t| - 1]); }
  }

  lemma COLabelIsCOHeader(i: nat)
    ensures IsCOHeader(COLabel(i)) && Trim(COLabel(i)) == COLabel(i)
  {
    var h := COLabel(i);
    assert h[2..] == NatText(i);
    CODigitsHeader(h);
  }

  /** The cell of a CO header without surrounding white space is a CO label
      that trimming keeps. */
  lemma COCell(c: Cell, h: string)
    requires c == Str(h) && IsCOHeader(h) && Trim(h) == h
    ensures IsCOLabel(c) && HeaderLabel(c) == c
  {
  }

  lemma {:induction false} CountCOsAppend(a: seq<Cell>, b: seq<Cell>)
    ensures CountCOs(a + b) == CountCOs(a) + CountCOs(b)
  {
    if a != [] {
      assert (a + b)[0] == a[0];
      assert (a + b)[1..] == a[1..] + b;
      CountCOsAppend(a[1..], b);
    } else {
      assert a + b == b;
    }
  }

  /** No CO column is counted exactly when no header matches the pattern. */
  lemma {:induction false} CountCOsZero(hs: seq<Cell>)
    ensures CountCOs(hs) == 0 <==> forall k :: 0 <= k < |hs| ==> !IsCOLabel(hs[k])
  {
    if hs != [] {
      CountCOsZero(hs[1..]);
      assert forall k :: 1 <= k < |hs| ==> hs[k] == hs[1..][k - 1];
    }
  }

  lemma {:induction false} CountCOsAll(hs: seq<Cell>)
    requires forall k :: 0 <= k < |hs| ==> IsCOLabel(hs[k])
    ensures CountCOs(hs) == |hs|
  {
    if hs != [] {
      CountCOsAll(hs[1..]);
    }
  }

  /** The student a blank template row turns into. */
  function BlankStudent(n: nat, r: nat): Student {
    Student(Num(r as real), Str(""), Str(""), seq(n, i requires 0 <= i < n => 0.0))
  }

  lemma {:induction false} TemplateStudentRows(n: nat, students: nat, end: nat)
    requires 1 <= end <= students + 1
    ensures StudentRows(Template(n, students), end, n)
         == seq(end - 1, r requires 0 <= r < end - 1 => BlankStudent(n, r + 1))
  {
    var aoa := Template(n, students);
    if end > 1 {
      TemplateStudentRows(n, students, end - 1);
      var row := aoa[end - 1];
      assert row == TemplateRow(n, end - 1);
      assert StudentOf(row, end - 1, n) == BlankStudent(n, end - 1) by {
        forall ci | 0 <= ci < n ensures ScoreOf(row, ci) == 0.0 {
          assert CellAt(row, 3 + ci) == Str("");
        }
      }
    }
  }

  lemma TrimUnchanged(s: string)
    requires s != [] && !IsSpace(s[0]) && !IsSpace(s[|s| - 1])
    ensures Trim(s) == s
  {
    assert TrimStart(s) == s;
  }

  /** Labels without surrounding white space are stored as they are. */
  lemma HeadersUnchanged(row: seq<Cell>)
    requires forall k :: 0 <= k < |row| ==>
      row[k].Str? && row[k].s != [] && !IsSpace(row[k].s[0]) && !IsSpace(row[k].s[|row[k].s| - 1])
    ensures Headers(row) == row
  {
    forall k | 0 <= k < |row| ensures Headers(row)[k] == row[k] {
      TrimUnchanged(row[k].s);
    }
  }

  /** The three fixed columns of the template are not CO columns. */
  lemma FixedHeadersAreNotCOs(a: string, b: string, c: string)
    requires a == "SLNO" && b == "USN" && c == "Student Name"
    ensures CountCOs([Str(a), Str(b), Str(c)]) == 0
  {
    var fixed := [Str(a), Str(b), Str(c)];
    assert !IsCOHeader(a) && !IsCOHeader(b) && !IsCOHeader(c);
    assert fixed[0] == Str(a) && fixed[1..][0] == Str(b) && fixed[1..][1..][0] == Str(c);
    assert fixed[1..][1..][1..] == [];
    assert CountCOs(fixed[1..][1..]) == 0;
    assert CountCOs(fixed[1..]) == 0;
  }

  /** The labels of the three fixed columns are stored as they are. */
  lemma FixedHeadersUnchanged(a: string, b: string, c: string)
    requires a == "SLNO" && b == "USN" && c == "Student Name"
    ensures Headers([Str(a), Str(b), Str(c)]) == [Str(a), Str(b), Str(c)]
  {
    assert a[0] == 'S' && a[|a| - 1] == 'O';
    assert b[0] == 'U' && b[|b| - 1] == 'N';
    assert c[0] == 'S' && c[|c| - 1] == 'e';
    HeadersUnchanged([Str(a), Str(b), Str(c)]);
  }

  function COColumns(n: nat): (cos: seq<Cell>)
    ensures |cos| == n
  {
    seq(n, i requires 0 <= i < n => Str(COLabel(i + 1)))
  }

  lemma COColumn(n: nat, k: nat)
    requires k < n
    ensures IsCOLabel(COColumns(n)[k]) && HeaderLabel(COColumns(n)[k]) == COColumns(n)[k]
  {
    COLabelIsCOHeader(k + 1);
    COCell(COColumns(n)[k], COLabel(k + 1));
  }

  /** The labels `CO1 .. COn` are all CO labels. */
  lemma COColumnsCount(n: nat)
    ensures CountCOs(COColumns(n)) == n
  {
    forall k | 0 <= k < n ensures IsCOLabel(COColumns(n)[k]) {
      COColumn(n, k);
    }
    CountCOsAll(COColumns(n));
  }

  /** Trimming leaves the labels `CO1 .. COn` as they are. */
  lemma COColumnsKept(n: nat)
    ensures Headers(COColumns(n)) == COColumns(n)
  {
    forall k | 0 <= k < n ensures Headers(COColumns(n))[k] == COColumns(n)[k] {
      COColumn(n, k);
    }
  }

  /** Labels that trimming keeps stay kept when two rows are joined. */
  lemma HeadersAppend(a: seq<Cell>, b: seq<Cell>)
    requires Headers(a) == a && Headers(b) == b
    ensures Headers(a + b) == a + b
  {
    forall i | 0 <= i < |a + b| ensures Headers(a + b)[i] == (a + b)[i] {
      if i < |a| {
        assert Headers(a)[i] == a[i];
      } else {
        assert Headers(b)[i - |a|] == b[i - |a|];
      }
    }
  }

  /** The template's header row survives trimming and holds exactly `n` CO columns. */
  lemma TemplateHeaderLabels(n: nat)
    ensures Headers(TemplateHeader(n)) == TemplateHeader(n)
    ensures CountCOs(TemplateHeader(n)) == n
  {
    FixedHeadersAreNotCOs("SLNO", "USN", "Student Name");
    FixedHeadersUnchanged("SLNO", "USN", "Student Name");
    var fixed := [Str("SLNO"), Str("USN"), Str("Student Name")];
    COColumnsCount(n);
    COColumnsKept(n);
    HeadersAppend(fixed, COColumns(n));
    CountCOsAppend(fixed, COColumns(n));
  }

  /** Round trip: a downloaded template, uploaded unchanged, is read back with
      exactly `n` CO columns and one all-zero student per template row, numbered
      1 .. students. */
  lemma TemplateRoundTrip(n: nat, students: nat, targetInputs: seq<string>)
    requires 1 <= n && 1 <= students
    ensures Normalise(Template(n, students), targetInputs) == Ok(Upload(
      TemplateHeader(n),
      seq(students, r requires 0 <= r < students => BlankStudent(n, r + 1)),
      seq(n, i requires 0 <= i < n => TargetValue(targetInputs, i))))
  {
    var aoa := Template(n, students);
    assert aoa[0] == TemplateHeader(n);
    TemplateHeaderLabels(n);
    TemplateStudentRows(n, students, |aoa|);
  }
}
