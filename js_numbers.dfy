/** JavaScript's number conversions as the forms use them: `parseInt(s)` (radix
    left unspecified), `Number(s)` on the pieces of a time string and `String(n)`
    on an integer. `NaN` is `None`. */
module JsNumbers {
  import opened Wrappers
  import JsText

  predicate IsDigit(c: char)
  {
    '0' <= c <= '9'
  }

  predicate IsHexDigit(c: char)
  {
    IsDigit(c) || 'a' <= c <= 'f' || 'A' <= c <= 'F'
  }

  /** A digit of base 10 or, when `hex`, of base 16. */
  predicate IsRadixDigit(c: char, hex: bool)
  {
    if hex then IsHexDigit(c) else IsDigit(c)
  }

  function DigitValue(c: char): (v: nat)
    requires IsHexDigit(c)
    ensures v < 16 && (IsDigit(c) ==> v < 10)
  {
    if IsDigit(c) then c as int - '0' as int
    else if 'a' <= c <= 'f' then c as int - 'a' as int + 10
    else c as int - 'A' as int + 10
  }

  /** The value of a string of digits, most significant first. */
  function DigitsValue(s: string, hex: bool): nat
    requires forall i :: 0 <= i < |s| ==> IsRadixDigit(s[i], hex)
  {
    if s == [] then 0
    else
      var c := s[|s| - 1];
      assert IsRadixDigit(c, hex);
      var high := DigitsValue(s[..|s| - 1], hex);
      (if hex then high * 16 else high * 10) + DigitValue(c)
  }

  /** Leading zeros do not change the value of a digit string. */
  lemma {:induction false} LeadingZero(d: string, hex: bool)
    requires forall i :: 0 <= i < |d| ==> IsRadixDigit(d[i], hex)
    ensures DigitsValue(['0'] + d, hex) == DigitsValue(d, hex)
  {
    if d != [] {
      var z := ['0'] + d;
      assert z[..|z| - 1] == ['0'] + d[..|d| - 1];
      LeadingZero(d[..|d| - 1], hex);
    }
  }

  /** The longest prefix of `s` made of digits. */
  function DigitPrefix(s: string, hex: bool): (d: string)
    ensures |d| <= |s| && d == s[..|d|]
    ensures forall i :: 0 <= i < |d| ==> IsRadixDigit(d[i], hex)
    ensures |d| < |s| ==> !IsRadixDigit(s[|d|], hex)
  {
    if s != [] && IsRadixDigit(s[0], hex) then [s[0]] + DigitPrefix(s[1..], hex) else []
  }

  /** `parseInt(s)`: leading white space is skipped, one sign is read, a `0x`/`0X`
      prefix switches to base 16, and the longest run of digits that follows is the
      value; no digit at all is `NaN`. */
  function ParseInt(s: string): (r: Option<int>)
    ensures JsText.Trim(s) == [] ==> r.None?
  {
    var t := JsText.TrimStart(s);
    var u := if t != [] && (t[0] == '-' || t[0] == '+') then t[1..] else t;
    var hex := |u| >= 2 && u[0] == '0' && (u[1] == 'x' || u[1] == 'X');
    var digits := DigitPrefix(if hex then u[2..] else u, hex);
    if digits == [] then None
    else
      var v: int := DigitsValue(digits, hex);
      Some(if t[0] == '-' then -v else v)
  }

  function DigitChar(d: nat): (c: char)
    requires d < 10
    ensures IsDigit(c) && DigitValue(c) == d
  {
    ('0' as int + d) as char
  }

  /** `String(n)` for a natural number: its decimal digits, without leading zeros. */
  function NatToString(n: nat): (r: string)
    ensures |r| >= 1 && forall i :: 0 <= i < |r| ==> IsDigit(r[i])
    ensures DigitsValue(r, false) == n
    ensures r[0] == '0' ==> n == 0 && |r| == 1
  {
    if n < 10 then [DigitChar(n)]
    else
      var r := NatToString(n / 10) + [DigitChar(n % 10)];
      assert r[..|r| - 1] == NatToString(n / 10);
      r
  }

  /** `String(i)` for an integer. */
  function IntToString(i: int): (r: string)
    ensures r != [] && (r[0] == '-' <==> i < 0)
  {
    if i < 0 then "-" + NatToString(-i) else NatToString(i)
  }

  /** A string of digits is its own longest digit prefix. */
  lemma {:induction false} DigitPrefixOfDigits(s: string, hex: bool)
    requires forall i :: 0 <= i < |s| ==> IsRadixDigit(s[i], hex)
    ensures DigitPrefix(s, hex) == s
  {
    if s != [] {
      DigitPrefixOfDigits(s[1..], hex);
    }
  }

  /** A digit or a sign is not white space, so trimming stops before it. */
  lemma TrimStartAtNonSpace(s: string)
    requires s != [] && (IsDigit(s[0]) || s[0] == '-')
    ensures JsText.TrimStart(s) == s
  {
  }

  /** `parseInt(String(i)) == i`: the loaders turn a backend number into the form's
      text with `String` and the payloads turn it back with `parseInt`. */
  lemma ParseIntOfIntToString(i: int)
    ensures ParseInt(IntToString(i)) == Some(i)
  {
    var s := IntToString(i);
    TrimStartAtNonSpace(s);
    var u := if i < 0 then NatToString(-i) else NatToString(i);
    assert u == (if s[0] == '-' || s[0] == '+' then s[1..] else s);
    assert !(|u| >= 2 && u[0] == '0');
    DigitPrefixOfDigits(u, false);
  }

  /** `Number(s)` for the strings a time field holds: the trimmed text read as a
      (signed) decimal integer, `0` for a blank string and `NaN` otherwise. */
  function ToNumber(s: string): (r: Option<int>)
    ensures JsText.Trim(s) == [] ==> r == Some(0)
  {
    var t := JsText.Trim(s);
    if t == [] then Some(0)
    else
      var u := if t[0] == '-' || t[0] == '+' then t[1..] else t;
      if u != [] && forall i :: 0 <= i < |u| ==> IsDigit(u[i]) then
        var v: int := DigitsValue(u, false);
        Some(if t[0] == '-' then -v else v)
      else None
  }

  /** `Number` of a non-empty digit string is its decimal value. */
  lemma ToNumberOfDigits(p: string)
    requires p != [] && forall i :: 0 <= i < |p| ==> IsDigit(p[i])
    ensures ToNumber(p) == Some(DigitsValue(p, false))
  {
    assert !JsText.IsSpace(p[0]) && !JsText.IsSpace(p[|p| - 1]);
    JsText.TrimOfTrimmed(p);
    assert p[0] != '-' && p[0] != '+';
  }

  /** `Number` reads back a natural number written as `String(n)`, also when it
      was zero-padded to two characters. */
  lemma ToNumberOfPadded(n: nat)
    ensures ToNumber(JsText.PadStart(NatToString(n), 2, '0')) == Some(n)
  {
    var d := NatToString(n);
    var p := JsText.PadStart(d, 2, '0');
    if |d| < 2 {
      assert p == ['0'] + d;
      LeadingZero(d, false);
    } else {
      assert p == d;
    }
    assert forall i :: 0 <= i < |p| ==> IsDigit(p[i]);
    ToNumberOfDigits(p);
  }
}
