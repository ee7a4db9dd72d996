/** The few text operations the calculator relies on: trimming, ASCII case
    mapping, decimal rendering of counters and JavaScript's `parseInt` /
    `parseFloat` on decimal text. */
module Text {
  import opened Common

  /** The white-space characters that `trim()` and `\s` remove: tab, vertical
      tab, form feed, the byte-order mark, every space separator (U+0020, U+00A0,
      U+1680, U+2000 .. U+200A, U+202F, U+205F, U+3000) and the line terminators
      (line feed, carriage return, U+2028, U+2029). */
  predicate IsSpace(c: char) {
    c == '\t' || c == '\U{B}' || c == '\U{C}' || c == '\U{FEFF}'
    || c == ' ' || c == '\U{A0}' || c == '\U{1680}' || '\U{2000}' <= c <= '\U{200A}'
    || c == '\U{202F}' || c == '\U{205F}' || c == '\U{3000}'
    || c == '\n' || c == '\r' || c == '\U{2028}' || c == '\U{2029}'
  }

  function TrimStart(s: string): (r: string)
    ensures |r| <= |s|
    ensures r != [] ==> !IsSpace(r[0])
  {
    if s != [] && IsSpace(s[0]) then TrimStart(s[1..]) else s
  }

  function TrimEnd(s: string): (r: string)
    ensures |r| <= |s|
    ensures r != [] ==> !IsSpace(r[|r| - 1])
  {
    if s != [] && IsSpace(s[|s| - 1]) then TrimEnd(s[..|s| - 1]) else s
  }

  /** What `TrimEnd` keeps is a prefix of its input. */
  lemma {:induction false} TrimEndPrefix(s: string)
    ensures TrimEnd(s) == s[..|TrimEnd(s)|]
  {
    if s != [] && IsSpace(s[|s| - 1]) {
      var t := s[..|s| - 1];
      TrimEndPrefix(t);
      assert t[..|TrimEnd(t)|] == s[..|TrimEnd(t)|];
    }
  }

  /** `String.prototype.trim`. */
  function Trim(s: string): (r: string)
    ensures r != [] ==> !IsSpace(r[0]) && !IsSpace(r[|r| - 1])
  {
    var t := TrimStart(s);
    TrimEndPrefix(t);
    TrimEnd(t)
  }

  function ToUpperChar(c: char): char {
    if 'a' <= c <= 'z' then (c as int - 32) as char else c
  }

  function ToLowerChar(c: char): char {
    if 'A' <= c <= 'Z' then (c as int + 32) as char else c
  }

  /** `toUpperCase()` restricted to ASCII letters. */
  function ToUpper(s: string): (r: string)
    ensures |r| == |s| && forall k :: 0 <= k < |s| ==> r[k] == ToUpperChar(s[k])
  {
    seq(|s|, k requires 0 <= k < |s| => ToUpperChar(s[k]))
  }

  /** `toLowerCase()` restricted to ASCII letters. */
  function ToLower(s: string): (r: string)
    ensures |r| == |s| && forall k :: 0 <= k < |s| ==> r[k] == ToLowerChar(s[k])
  {
    seq(|s|, k requires 0 <= k < |s| => ToLowerChar(s[k]))
  }

  predicate IsDigit(c: char) {
    '0' <= c <= '9'
  }

  predicate AllDigits(s: string) {
    forall k :: 0 <= k < |s| ==> IsDigit(s[k])
  }

  function DigitValue(c: char): nat
    requires IsDigit(c)
  {
    c as int - '0' as int
  }

  function DigitChar(d: nat): (c: char)
    requires d < 10
    ensures IsDigit(c) && DigitValue(c) == d
  {
    ('0' as int + d) as char
  }

  /** The value of a run of decimal digits, most significant first. */
  function DigitsValue(ds: string): nat
    requires AllDigits(ds)
  {
    if ds == [] then 0 else DigitsValue(ds[..|ds| - 1]) * 10 + DigitValue(ds[|ds| - 1])
  }

  /** The value of the digits after a decimal point. */
  function FractionValue(ds: string): (r: real)
    requires AllDigits(ds)
    ensures 0.0 <= r <= 1.0
  {
    if ds == [] then 0.0 else (DigitValue(ds[0]) as real + FractionValue(ds[1..])) / 10.0
  }

  /** The longest prefix of `s` made of digits. */
  function LeadingDigits(s: string): (r: string)
    ensures |r| <= |s| && AllDigits(r)
    ensures |r| < |s| ==> !IsDigit(s[|r|])
  {
    if s != [] && IsDigit(s[0]) then
      var r := [s[0]] + LeadingDigits(s[1..]);
      assert s == [s[0]] + s[1..];
      r
    else []
  }

  /** The decimal text of a counter, as `String(n)` or a cell's `innerText = n` gives it. */
  function NatText(n: nat): (r: string)
    ensures r != [] && AllDigits(r)
    ensures DigitsValue(r) == n
  {
    if n < 10 then [DigitChar(n)]
    else
      var r := NatText(n / 10) + [DigitChar(n % 10)];
      assert r[..|r| - 1] == NatText(n / 10);
      r
  }

  /** Splits an optional leading sign off a numeral. */
  function SplitSign(t: string): (r: (bool, string))
    ensures |r.1| <= |t|
  {
    if t != [] && (t[0] == '-' || t[0] == '+') then (t[0] == '-', t[1..]) else (false, t)
  }

  /** `parseInt(s, 10)`: leading white space, an optional sign, then the longest
      run of digits; `None` stands for `NaN` (no digit at all). */
  function ParseInt(s: string): (r: Option<int>)
    ensures r.None? <==> LeadingDigits(SplitSign(TrimStart(s)).1) == []
  {
    var (neg, body) := SplitSign(TrimStart(s));
    var ds := LeadingDigits(body);
    if ds == [] then None
    else Some(if neg then -(DigitsValue(ds) as int) else DigitsValue(ds) as int)
  }

  predicate IsHexDigit(c: char) {
    IsDigit(c) || 'a' <= c <= 'f' || 'A' <= c <= 'F'
  }

  function HexDigitValue(c: char): (d: nat)
    requires IsHexDigit(c)
    ensures d < 16
  {
    if IsDigit(c) then DigitValue(c)
    else if 'a' <= c <= 'f' then (c as int - 'a' as int) + 10
    else (c as int - 'A' as int) + 10
  }

  /** The longest prefix of `s` made of hexadecimal digits. */
  function LeadingHexDigits(s: string): (r: string)
    ensures |r| <= |s| && forall k :: 0 <= k < |r| ==> IsHexDigit(r[k])
    ensures |r| < |s| ==> !IsHexDigit(s[|r|])
  {
    if s != [] && IsHexDigit(s[0]) then
      var r := [s[0]] + LeadingHexDigits(s[1..]);
      assert s == [s[0]] + s[1..];
      r
    else []
  }

  /** The value of a run of hexadecimal digits, most significant first. */
  function HexValue(hs: string): nat
    requires forall k :: 0 <= k < |hs| ==> IsHexDigit(hs[k])
  {
    if hs == [] then 0 else HexValue(hs[..|hs| - 1]) * 16 + HexDigitValue(hs[|hs| - 1])
  }

  /** A numeral that starts with `0x` or `0X`. */
  predicate HexPrefixed(t: string) {
    |t| >= 2 && t[0] == '0' && (t[1] == 'x' || t[1] == 'X')
  }

  /** `parseInt(s)` with no radix: after white space and an optional sign, a
      `0x` / `0X` prefix switches to hexadecimal (`NaN` when no hex digit
      follows); any other numeral is read in decimal, as `ParseInt` does. */
  function ParseIntAuto(s: string): (r: Option<int>)
    ensures !HexPrefixed(SplitSign(TrimStart(s)).1) ==> r == ParseInt(s)
    ensures HexPrefixed(SplitSign(TrimStart(s)).1) ==>
      (r.None? <==> LeadingHexDigits(SplitSign(TrimStart(s)).1[2..]) == [])
  {
    var (neg, body) := SplitSign(TrimStart(s));
    if HexPrefixed(body) then
      var hs := LeadingHexDigits(body[2..]);
      if hs == [] then None
      else Some(if neg then -(HexValue(hs) as int) else HexValue(hs) as int)
    else ParseInt(s)
  }

  /** `parseFloat(s)` on decimal notation: leading white space, an optional sign,
      digits, and an optional point followed by digits; at least one digit is
      needed, otherwise the result is `NaN`, here `None`. */
  function ParseFloat(s: string): (r: Option<real>)
    ensures LeadingDigits(SplitSign(TrimStart(s)).1) != [] ==> r.Some?
  {
    var (neg, body) := SplitSign(TrimStart(s));
    var ip := LeadingDigits(body);
    var rest := body[|ip|..];
    var fp := if rest != [] && rest[0] == '.' then LeadingDigits(rest[1..]) else [];
    if ip == [] && fp == [] then None
    else
      var v := DigitsValue(ip) as real + FractionValue(fp);
      Some(if neg then -v else v)
  }

  /** `parseFloat` applied to a spreadsheet cell. */
  function CellNumber(c: Cell): (r: Option<real>)
    ensures c.Num? ==> r == Some(c.n)
    ensures c.Empty? ==> r == None
  {
    match c
    case Num(v) => Some(v)
    case Str(s) => ParseFloat(s)
    case Empty => None
  }

  /** `parseInt(match[0])` for `match = s.match(/\d+/)`: the value of the first
      run of digits in `s`, if there is one. */
  function FirstDigitRun(s: string): (r: Option<nat>)
    ensures AllDigits(s) && s != [] ==> r == Some(DigitsValue(LeadingDigits(s)))
    ensures r.None? <==> forall k :: 0 <= k < |s| ==> !IsDigit(s[k])
  {
    if s == [] then None
    else if IsDigit(s[0]) then Some(DigitsValue(LeadingDigits(s)))
    else FirstDigitRun(s[1..])
  }

  lemma {:induction false} LeadingDigitsOfDigits(s: string)
    requires AllDigits(s)
    ensures LeadingDigits(s) == s
  {
    if s != [] {
      LeadingDigitsOfDigits(s[1..]);
    }
  }

  /** A non-empty run of digits has no white space or sign in front. */
  lemma DigitsShape(t: string)
    requires t != [] && AllDigits(t)
    ensures TrimStart(t) == t && SplitSign(t) == (false, t) && LeadingDigits(t) == t
  {
    assert IsDigit(t[0]);
    assert !IsSpace(t[0]);
    LeadingDigitsOfDigits(t);
  }

  /** The text of a counter has no white space or sign in front and is all digits. */
  lemma NatTextShape(n: nat)
    ensures var t := NatText(n);
      TrimStart(t) == t && SplitSign(t) == (false, t) && LeadingDigits(t) == t
  {
    DigitsShape(NatText(n));
  }

  /** A counter written out by `NatText` reads back as the same number. */
  lemma ParseIntNatText(n: nat)
    ensures ParseInt(NatText(n)) == Some(n as int)
  {
    NatTextShape(n);
  }

  /** The text of a counter has no hex prefix, so the radix-less reading gives
      the counter back as well. */
  lemma ParseIntAutoNatText(n: nat)
    ensures ParseIntAuto(NatText(n)) == Some(n as int)
  {
    var t := NatText(n);
    NatTextShape(n);
    ParseIntNatText(n);
    if |t| >= 2 {
      assert IsDigit(t[1]);
    }
  }

  /** Read in decimal, a numeral `0x...` stops at the `x` and gives 0. */
  lemma DecimalReadsZero(s: string)
    requires |s| >= 2 && s[0] == '0' && s[1] == 'x'
    ensures ParseInt(s) == Some(0)
  {
    assert !IsSpace(s[0]) && TrimStart(s) == s;
    assert SplitSign(s) == (false, s);
    assert !IsDigit(s[1..][0]) && LeadingDigits(s[1..]) == [];
    assert LeadingDigits(s) == "0";
    assert "0"[..0] == [];
    assert DigitsValue("0") == 0;
  }

  /** `parseInt("0x10")` is 16 with no radix, but 0 in decimal. */
  lemma ParseIntAutoHex()
    ensures ParseIntAuto("0x10") == Some(16) && ParseInt("0x10") == Some(0)
  {
    var s := "0x10";
    assert !IsSpace(s[0]) && TrimStart(s) == s;
    assert SplitSign(s) == (false, s) && HexPrefixed(s);
    var hs := s[2..];
    assert hs == "10";
    assert LeadingHexDigits(hs[1..]) == "0";
    assert LeadingHexDigits(hs) == hs;
    assert hs[..|hs| - 1] == "1" && "1"[..0] == [];
    assert HexValue("1") == 1;
    assert HexValue(hs) == 16;
    assert ParseIntAuto(s) == Some(16);
    DecimalReadsZero(s);
  }

  /** With no radix, a sign may precede the prefix and the hex digits take
      either case: `parseInt(" -0XfF")` is -255. */
  lemma ParseIntAutoSignedHex()
    ensures ParseIntAuto(" -0XfF") == Some(-255)
  {
    var s := " -0XfF";
    var t := s[1..];
    assert t == "-0XfF" && !IsSpace(t[0]);
    assert TrimStart(s) == t;
    var body := t[1..];
    assert SplitSign(t) == (true, body) && HexPrefixed(body);
    var hs := body[2..];
    assert hs == "fF";
    assert LeadingHexDigits(hs[1..]) == "F";
    assert LeadingHexDigits(hs) == hs;
    assert hs[..|hs| - 1] == "f" && "f"[..0] == [];
    assert HexValue("f") == 15;
    assert HexValue(hs) == 255;
  }

  /** `parseInt("0x")` is `NaN` with no radix, but 0 in decimal. */
  lemma ParseIntAutoBarePrefix()
    ensures ParseIntAuto("0x") == None && ParseInt("0x") == Some(0)
  {
    var s := "0x";
    assert !IsSpace(s[0]) && TrimStart(s) == s;
    assert SplitSign(s) == (false, s) && HexPrefixed(s);
    assert s[2..] == [] && LeadingHexDigits(s[2..]) == [];
    assert ParseIntAuto(s) == None;
    DecimalReadsZero(s);
  }

  lemma ParseFloatNatText(n: nat)
    ensures ParseFloat(NatText(n)) == Some(n as real)
  {
    var t := NatText(n);
    NatTextShape(n);
    assert t[|t|..] == [];
    assert FractionValue([]) == 0.0;
  }

  lemma TrimOfNatText(n: nat)
    ensures Trim(NatText(n)) == NatText(n)
  {
    var t := NatText(n);
    assert !IsSpace(t[0]) && !IsSpace(t[|t| - 1]);
  }
}
