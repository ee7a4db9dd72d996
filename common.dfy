/** Values shared by every part of the attainment calculator: spreadsheet cells,
    optional and fallible results, and the two-decimal rounding of `toFixed(2)`. */
module Common {

  datatype Option<+T> = None | Some(value: T) {
    function GetOr(default: T): T {
      match this
      case Some(v) => v
      case None => default
    }
  }

  datatype Result<+T, +E> = Ok(value: T) | Err(error: E)

  /** One cell of a spreadsheet row as the sheet reader hands it over:
      a number, a piece of text, or nothing at all (`undefined`, a hole). */
  datatype Cell = Num(n: real) | Str(s: string) | Empty

  /** JavaScript truthiness of a cell: 0, "" and undefined are falsy. */
  predicate Truthy(c: Cell) {
    match c
    case Num(v) => v != 0.0
    case Str(s) => s != ""
    case Empty => false
  }

  /** The cell at index `i` of a row; reading past the end gives `undefined`. */
  function CellAt(row: seq<Cell>, i: nat): (c: Cell)
    ensures i >= |row| ==> c == Empty
    ensures i < |row| ==> c == row[i]
  {
    if i < |row| then row[i] else Empty
  }

  /** Round half up on a non-negative real, to two decimals. */
  function RoundHalfUp2(x: real): real
    requires x >= 0.0
  {
    ((x * 100.0 + 0.5).Floor as real) / 100.0
  }

  /** `+x.toFixed(2)`: the nearest multiple of 0.01, ties away from zero
      (toFixed rounds the magnitude and then restores the sign). */
  function Round2(x: real): (r: real)
    ensures x >= 0.0 ==> r >= 0.0
    ensures x <= 0.0 ==> r <= 0.0
    ensures -0.005 <= r - x <= 0.005
  {
    if x < 0.0 then -RoundHalfUp2(-x) else RoundHalfUp2(x)
  }

  lemma RoundHalfUp2Monotone(x: real, y: real)
    requires 0.0 <= x <= y
    ensures RoundHalfUp2(x) <= RoundHalfUp2(y)
  {
    var u, v := x * 100.0 + 0.5, y * 100.0 + 0.5;
    assert u <= v;
    var a, b := u.Floor, v.Floor;
    assert a as real <= u && v < b as real + 1.0;
    assert a <= b;
    assert RoundHalfUp2(x) == a as real / 100.0;
    assert RoundHalfUp2(y) == b as real / 100.0;
  }

  /** Rounding never reverses the order of two values. */
  lemma Round2Monotone(x: real, y: real)
    requires x <= y
    ensures Round2(x) <= Round2(y)
  {
    if 0.0 <= x {
      RoundHalfUp2Monotone(x, y);
    } else if y < 0.0 {
      RoundHalfUp2Monotone(-y, -x);
    }
  }

  /** A value that already has at most two decimals is left as it is. */
  lemma Round2OnGrid(k: int)
    ensures Round2(k as real / 100.0) == k as real / 100.0
  {
    var x := k as real / 100.0;
    if k < 0 {
      assert (-x * 100.0 + 0.5).Floor == -k;
    } else {
      assert (x * 100.0 + 0.5).Floor == k;
    }
  }

  /** Rounding keeps a value inside any interval whose ends have two decimals. */
  lemma Round2Between(x: real, lo: int, hi: int)
    requires lo as real / 100.0 <= x <= hi as real / 100.0
    ensures lo as real / 100.0 <= Round2(x) <= hi as real / 100.0
  {
    Round2Monotone(lo as real / 100.0, x);
    Round2Monotone(x, hi as real / 100.0);
    Round2OnGrid(lo);
    Round2OnGrid(hi);
  }

  /** Percentages stay percentages after rounding. */
  lemma Round2Percent(x: real)
    requires 0.0 <= x <= 100.0
    ensures 0.0 <= Round2(x) <= 100.0
  {
    Round2Between(x, 0, 10000);
  }

  /** A sum between `lo` and `hi` times a positive count, divided by the count,
      is between `lo` and `hi`. */
  lemma QuotientBetween(s: real, c: real, lo: real, hi: real)
    requires c > 0.0 && lo * c <= s <= hi * c
    ensures lo <= s / c <= hi
  {
    assert s / c * c == s;
  }

  /** Dividing by a positive count keeps the order of two sums. */
  lemma QuotientMonotone(a: real, b: real, c: real)
    requires c > 0.0 && a <= b
    ensures a / c <= b / c
  {
    assert b / c - a / c == (b - a) / c;
  }
}
