/** The department statistics page of stats.js: the rows of an uploaded
    result sheet are grouped by (year, branch, course code), and each group
    reports the average of its CIE, SEE, PO and PSO columns together with the
    distinct sections and faculty names that occur in it. */
module GroupStats {
  import opened Common

  /** One sheet row, cell by cell; cells past its end read as `undefined`. */
  type Row = seq<Cell>

  // Column positions and counts of the sheet layout.
  const YEAR: nat := 0
  const SECTION: nat := 2
  const BRANCH: nat := 3
  const CODE: nat := 4
  const FACULTY: nat := 5
  const CIE_START: nat := 6
  const SEE_START: nat := 11
  const PO_START: nat := 17
  const PSO_START: nat := 29
  const CIE_COUNT: nat := 5
  const SEE_COUNT: nat := 5
  const PO_COUNT: nat := 12
  const PSO_COUNT: nat := 3

  // ---------------------------------------------------------------------------
  // average
  // ---------------------------------------------------------------------------

  /** `isNumber`: the cell holds a number. */
  predicate IsNumber(c: Cell) {
    c.Num?
  }

  /** `arr.filter(isNumber)`, as the numbers themselves. */
  function Numbers(arr: seq<Cell>): (r: seq<real>)
    ensures |r| <= |arr|
    ensures forall x :: x in r <==> Num(x) in arr
    ensures |arr| == 1 ==> r == if IsNumber(arr[0]) then [arr[0].n] else []
  {
    if arr == [] then []
    else
      var last := arr[|arr| - 1];
      assert arr == arr[..|arr| - 1] + [last];
      Numbers(arr[..|arr| - 1]) + (if IsNumber(last) then [last.n] else [])
  }

  function Sum(xs: seq<real>): real {
    if xs == [] then 0.0 else Sum(xs[..|xs| - 1]) + xs[|xs| - 1]
  }

  /** `average`: "" (here `None`) when the entries hold no number, otherwise
      the mean of the numbers, to two decimals. */
  function Average(arr: seq<Cell>): (r: Option<real>)
    ensures r.None? <==> forall k :: 0 <= k < |arr| ==> !IsNumber(arr[k])
  {
    var nums := Numbers(arr);
    if nums == [] then
      assert forall k :: 0 <= k < |arr| ==> arr[k].Num? ==> arr[k].n in nums;
      None
    else
      assert Num(nums[0]) in arr;
      Some(Round2(Sum(nums) / |nums| as real))
  }

  lemma {:induction false} SumBounds(xs: seq<real>, lo: real, hi: real)
    requires forall x :: x in xs ==> lo <= x <= hi
    ensures |xs| as real * lo <= Sum(xs) <= |xs| as real * hi
  {
    if xs != [] {
      var init := xs[..|xs| - 1];
      assert forall x :: x in init ==> x in xs;
      SumBounds(init, lo, hi);
      assert xs[|xs| - 1] in xs;
    }
  }

  lemma MeanBetween(xs: seq<real>, lo: real, hi: real)
    requires xs != [] && forall x :: x in xs ==> lo <= x <= hi
    ensures Round2(lo) <= Round2(Sum(xs) / |xs| as real) <= Round2(hi)
  {
    var n := |xs| as real;
    var s := Sum(xs);
    SumBounds(xs, lo, hi);
    assert lo * n <= s <= hi * n;
    QuotientBetween(s, n, lo, hi);
    var m := s / n;
    Round2Monotone(lo, m);
    Round2Monotone(m, hi);
  }

  /** The average lies between the rounded smallest and the rounded largest
      number of the entries. */
  lemma AverageBetween(arr: seq<Cell>, lo: real, hi: real)
    requires Numbers(arr) != []
    requires forall x :: x in Numbers(arr) ==> lo <= x <= hi
    ensures Average(arr).Some? && Round2(lo) <= Average(arr).value <= Round2(hi)
  {
    MeanBetween(Numbers(arr), lo, hi);
  }

  /** Filtering distributes over concatenation; with the one-cell case in the
      contract of `Numbers`, this fixes every number cell to appear once, in
      order, as many times as it occurs. */
  lemma {:induction false} NumbersAppend(a: seq<Cell>, b: seq<Cell>)
    ensures Numbers(a + b) == Numbers(a) + Numbers(b)
  {
    if b == [] {
      assert a + b == a;
    } else {
      var init, last := b[..|b| - 1], b[|b| - 1];
      NumbersAppend(a, init);
      assert (a + b)[..|a + b| - 1] == a + init;
      assert (a + b)[|a + b| - 1] == last;
      var tail := if IsNumber(last) then [last.n] else [];
      assert Numbers(a + b) == Numbers(a + init) + tail;
      assert Numbers(b) == Numbers(init) + tail;
    }
  }

  /** Entries that are not numbers do not change the average, wherever they sit. */
  lemma AverageIgnoresNonNumbers(a: seq<Cell>, c: Cell, b: seq<Cell>)
    requires !IsNumber(c)
    ensures Average(a + [c] + b) == Average(a + b)
  {
    NumbersAppend(a + [c], b);
    NumbersAppend(a, [c]);
    NumbersAppend(a, b);
    assert Numbers(a + [c] + b) == Numbers(a + b);
  }

  // ---------------------------------------------------------------------------
  // uniqueList
  // ---------------------------------------------------------------------------

  /** The distinct values of `xs` in the order of their first occurrence, as
      `[...new Set(xs)]` lists them. */
  function Distinct<T(==,!new)>(xs: seq<T>): (r: seq<T>)
    ensures forall x :: x in r <==> x in xs
    ensures forall i, j :: 0 <= i < j < |r| ==> r[i] != r[j]
  {
    if xs == [] then []
    else
      var init, last := xs[..|xs| - 1], xs[|xs| - 1];
      assert xs == init + [last];
      var d := Distinct(init);
      if last in d then d else d + [last]
  }

  /** The position of the first occurrence of `x`. */
  function FirstIndex<T(==,!new)>(xs: seq<T>, x: T): (r: nat)
    requires x in xs
    ensures r < |xs| && xs[r] == x && forall k :: 0 <= k < r ==> xs[k] != x
  {
    if xs[0] == x then 0 else 1 + FirstIndex(xs[1..], x)
  }

  lemma {:induction false} FirstIndexExtend<T(!new)>(xs: seq<T>, y: T, x: T)
    requires x in xs
    ensures FirstIndex(xs + [y], x) == FirstIndex(xs, x)
  {
    if xs[0] != x {
      assert (xs + [y])[1..] == xs[1..] + [y];
      FirstIndexExtend(xs[1..], y, x);
    }
  }

  /** `Distinct` lists values in the order in which they first occur. */
  lemma {:induction false} DistinctFirstSeen<T(!new)>(xs: seq<T>, i: nat, j: nat)
    requires i < j < |Distinct(xs)|
    ensures FirstIndex(xs, Distinct(xs)[i]) < FirstIndex(xs, Distinct(xs)[j])
  {
    var init, last := xs[..|xs| - 1], xs[|xs| - 1];
    assert xs == init + [last];
    var d := Distinct(init);
    var r := Distinct(xs);
    if j < |d| {
      assert r[i] == d[i] && r[j] == d[j];
      DistinctFirstSeen(init, i, j);
      FirstIndexExtend(init, last, d[i]);
      FirstIndexExtend(init, last, d[j]);
    } else {
      assert r[j] == last && last !in init;
      assert r[i] == d[i] && d[i] in init;
      FirstIndexExtend(init, last, d[i]);
    }
  }

  /** `rows.map(r => r[idx]).filter(v => v)`. */
  function TruthyColumn(rows: seq<Row>, idx: nat): (r: seq<Cell>)
    ensures forall v :: v in r <==> Truthy(v) && exists k :: 0 <= k < |rows| && CellAt(rows[k], idx) == v
  {
    if rows == [] then []
    else
      var init := rows[..|rows| - 1];
      var v := CellAt(rows[|rows| - 1], idx);
      var r := TruthyColumn(init, idx) + (if Truthy(v) then [v] else []);
      assert forall k :: 0 <= k < |init| ==> init[k] == rows[k];
      r
  }

  /** `uniqueList`: the distinct truthy values of column `idx`, in the order of
      their first occurrence. */
  function UniqueList(rows: seq<Row>, idx: nat): seq<Cell> {
    Distinct(TruthyColumn(rows, idx))
  }

  /** A value is listed exactly when it is truthy and occurs in the column, and
      it is listed once. */
  lemma UniqueListMembers(rows: seq<Row>, idx: nat)
    ensures var u := UniqueList(rows, idx);
      (forall v :: v in u <==> Truthy(v) && exists k :: 0 <= k < |rows| && CellAt(rows[k], idx) == v)
      && forall i, j :: 0 <= i < j < |u| ==> u[i] != u[j]
  {
  }

  // ---------------------------------------------------------------------------
  // generateStats
  // ---------------------------------------------------------------------------

  /** A group: the year, branch and code it was opened with, and its rows. */
  datatype Group = Group(year: Cell, branch: Cell, code: Cell, rows: seq<Row>)

  type Key = (Cell, Cell, Cell)

  function KeyOf(row: Row): Key {
    (CellAt(row, YEAR), CellAt(row, BRANCH), CellAt(row, CODE))
  }

  function GroupKey(g: Group): Key {
    (g.year, g.branch, g.code)
  }

  /** A row takes part: its year, branch and code are all truthy. */
  predicate Kept(row: Row) {
    Truthy(CellAt(row, YEAR)) && Truthy(CellAt(row, BRANCH)) && Truthy(CellAt(row, CODE))
  }

  /** The keys of the kept rows, in row order (with repetitions). */
  function KeptKeys(data: seq<Row>): seq<Key> {
    if data == [] then []
    else
      var last := data[|data| - 1];
      KeptKeys(data[..|data| - 1]) + (if Kept(last) then [KeyOf(last)] else [])
  }

  /** The kept rows whose key is `k`, in row order. */
  function RowsWithKey(data: seq<Row>, k: Key): seq<Row> {
    if data == [] then []
    else
      var last := data[|data| - 1];
      RowsWithKey(data[..|data| - 1], k) + (if Kept(last) && KeyOf(last) == k then [last] else [])
  }

  /** `groups` is what `generateStats` holds after the rows `data`: one group
      per distinct key of the kept rows, in first-seen order, each with the
      kept rows of its key in row order. */
  predicate GroupsOf(groups: seq<Group>, data: seq<Row>) {
    var keys := Distinct(KeptKeys(data));
    |groups| == |keys|
    && forall g :: 0 <= g < |groups| ==>
         GroupKey(groups[g]) == keys[g] && groups[g].rows == RowsWithKey(data, keys[g])
  }

  lemma {:induction false} KeptKeysMembers(data: seq<Row>, k: Key)
    ensures k in KeptKeys(data) <==> exists r :: 0 <= r < |data| && Kept(data[r]) && KeyOf(data[r]) == k
  {
    if data != [] {
      var init := data[..|data| - 1];
      KeptKeysMembers(init, k);
      assert forall r :: 0 <= r < |init| ==> init[r] == data[r];
    }
  }

  /** A row is in the rows of key `k` exactly when it is a kept row of `data`
      with that key. */
  lemma {:induction false} RowsWithKeyMembers(data: seq<Row>, k: Key, row: Row)
    ensures row in RowsWithKey(data, k) <==> row in data && Kept(row) && KeyOf(row) == k
  {
    if data != [] {
      var init := data[..|data| - 1];
      RowsWithKeyMembers(init, k, row);
      assert data == init + [data[|data| - 1]];
    }
  }

  lemma {:induction false} RowsWithAbsentKey(data: seq<Row>, k: Key)
    requires k !in KeptKeys(data)
    ensures RowsWithKey(data, k) == []
  {
    if data != [] {
      var init := data[..|data| - 1];
      assert KeptKeys(data) == KeptKeys(init) + (if Kept(data[|data| - 1]) then [KeyOf(data[|data| - 1])] else []);
      RowsWithAbsentKey(init, k);
    }
  }

  /** `Object.values(groups)` lookup: the position of the group with key `k`, or -1. */
  method FindGroup(groups: seq<Group>, k: Key) returns (g: int)
    ensures -1 <= g < |groups|
    ensures g >= 0 ==> GroupKey(groups[g]) == k
    ensures g == -1 ==> forall h :: 0 <= h < |groups| ==> GroupKey(groups[h]) != k
  {
    g := 0;
    while g < |groups| && GroupKey(groups[g]) != k
      invariant 0 <= g <= |groups|
      invariant forall h :: 0 <= h < g ==> GroupKey(groups[h]) != k
    {
      g := g + 1;
    }
    if g == |groups| {
      g := -1;
    }
  }

  /** One pass of the `forEach` of `generateStats`. */
  method AddRow(groups: seq<Group>, ghost prefix: seq<Row>, row: Row) returns (next: seq<Group>)
    requires GroupsOf(groups, prefix)
    ensures GroupsOf(next, prefix + [row])
  {
    var all := prefix + [row];
    assert all[..|all| - 1] == prefix && all[|all| - 1] == row;
    var year, branch, code := CellAt(row, YEAR), CellAt(row, BRANCH), CellAt(row, CODE);
    if !Truthy(year) || !Truthy(branch) || !Truthy(code) {
      next := groups;
      assert KeptKeys(all) == KeptKeys(prefix);
      forall k ensures RowsWithKey(all, k) == RowsWithKey(prefix, k) { }
      return;
    }
    var key := (year, branch, code);
    ghost var keys := KeptKeys(prefix);
    assert KeptKeys(all) == keys + [key];
    assert Distinct(keys + [key]) == if key in Distinct(keys) then Distinct(keys) else Distinct(keys) + [key] by {
      assert (keys + [key])[..|keys|] == keys;
    }
    var g := FindGroup(groups, key);
    if g < 0 {
      RowsWithAbsentKey(prefix, key);
      next := groups + [Group(year, branch, code, [row])];
      assert RowsWithKey(all, key) == [row];
    } else {
      next := groups[g := groups[g].(rows := groups[g].rows + [row])];
    }
  }

  /** `generateStats`: groups the kept rows by (year, branch, code). */
  method GenerateStats(data: seq<Row>) returns (groups: seq<Group>)
    ensures GroupsOf(groups, data)
  {
    groups := [];
    for i := 0 to |data|
      invariant GroupsOf(groups, data[..i])
    {
      groups := AddRow(groups, data[..i], data[i]);
      assert data[..i] + [data[i]] == data[..i + 1];
    }
    assert data[..|data|] == data;
  }

  /** The groups have distinct keys, and every kept row is in the group of its
      key and in no other; a row that is not kept is in no group. */
  lemma GroupsPartition(groups: seq<Group>, data: seq<Row>, row: Row)
    requires GroupsOf(groups, data)
    ensures forall g, h :: 0 <= g < h < |groups| ==> GroupKey(groups[g]) != GroupKey(groups[h])
    ensures forall g :: 0 <= g < |groups| ==>
      (row in groups[g].rows <==> row in data && Kept(row) && GroupKey(groups[g]) == KeyOf(row))
    ensures row in data && Kept(row) ==> exists g :: 0 <= g < |groups| && GroupKey(groups[g]) == KeyOf(row)
  {
    var keys := Distinct(KeptKeys(data));
    forall g | 0 <= g < |groups|
      ensures row in groups[g].rows <==> row in data && Kept(row) && GroupKey(groups[g]) == KeyOf(row)
    {
      RowsWithKeyMembers(data, keys[g], row);
    }
    if row in data && Kept(row) {
      var r :| 0 <= r < |data| && data[r] == row;
      KeptKeysMembers(data, KeyOf(row));
      var g :| 0 <= g < |keys| && keys[g] == KeyOf(row);
      assert GroupKey(groups[g]) == KeyOf(row);
    }
  }

  /** Groups appear in the order in which their keys first occur among the
      kept rows. */
  lemma GroupsFirstSeen(groups: seq<Group>, data: seq<Row>, g: nat, h: nat)
    requires GroupsOf(groups, data) && g < h < |groups|
    ensures FirstIndex(KeptKeys(data), GroupKey(groups[g])) < FirstIndex(KeptKeys(data), GroupKey(groups[h]))
  {
    DistinctFirstSeen(KeptKeys(data), g, h);
  }

  // ---------------------------------------------------------------------------
  // calculate
  // ---------------------------------------------------------------------------

  /** `rows.map(r => r[j])`. */
  function Column(rows: seq<Row>, j: nat): (c: seq<Cell>)
    ensures |c| == |rows| && forall r :: 0 <= r < |rows| ==> c[r] == CellAt(rows[r], j)
  {
    seq(|rows|, r requires 0 <= r < |rows| => CellAt(rows[r], j))
  }

  /** `calcRange`: the averages of `count` consecutive columns from `start`. */
  function CalcRange(rows: seq<Row>, start: nat, count: nat): (r: seq<Option<real>>)
    ensures |r| == count
  {
    seq(count, i requires 0 <= i < count => Average(Column(rows, start + i)))
  }

  /** The averages a group reports. */
  datatype Stats = Stats(cie: seq<Option<real>>, see: seq<Option<real>>, po: seq<Option<real>>, pso: seq<Option<real>>)

  /** `calculate`. */
  function Calculate(g: Group): (s: Stats)
    ensures |s.cie| == CIE_COUNT && |s.see| == SEE_COUNT && |s.po| == PO_COUNT && |s.pso| == PSO_COUNT
  {
    Stats(CalcRange(g.rows, CIE_START, CIE_COUNT), CalcRange(g.rows, SEE_START, SEE_COUNT),
          CalcRange(g.rows, PO_START, PO_COUNT), CalcRange(g.rows, PSO_START, PSO_COUNT))
  }

  /** The 25 averages of a report row, in order, are those of the sheet columns
      6..15 and 17..31: column 16 is never reported. */
  lemma ReportedColumns(g: Group)
    ensures var s := Calculate(g);
      var all := s.cie + s.see + s.po + s.pso;
      |all| == 25
      && forall k :: 0 <= k < 25 ==> all[k] == Average(Column(g.rows, if k < 10 then 6 + k else 7 + k))
  {
    var s := Calculate(g);
    var all := s.cie + s.see + s.po + s.pso;
    forall k | 0 <= k < 25
      ensures all[k] == Average(Column(g.rows, if k < 10 then 6 + k else 7 + k))
    {
      if k < 5 {
        assert all[k] == s.cie[k];
      } else if k < 10 {
        assert all[k] == s.see[k - 5];
      } else if k < 22 {
        assert all[k] == s.po[k - 10];
      } else {
        assert all[k] == s.pso[k - 22];
      }
    }
  }

  /** A reported average lies between the rounded smallest and largest number
      in its column among the group's rows. */
  lemma ReportedAverageBetween(g: Group, j: nat, lo: real, hi: real)
    requires forall r :: 0 <= r < |g.rows| ==> IsNumber(CellAt(g.rows[r], j)) ==> lo <= CellAt(g.rows[r], j).n <= hi
    requires exists r :: 0 <= r < |g.rows| && IsNumber(CellAt(g.rows[r], j))
    ensures Average(Column(g.rows, j)).Some?
    ensures Round2(lo) <= Average(Column(g.rows, j)).value <= Round2(hi)
  {
    var c := Column(g.rows, j);
    var r :| 0 <= r < |g.rows| && IsNumber(CellAt(g.rows[r], j));
    assert c[r].n in Numbers(c);
    forall x | x in Numbers(c) ensures lo <= x <= hi {
      var k :| 0 <= k < |c| && c[k] == Num(x);
    }
    AverageBetween(c, lo, hi);
  }
}
