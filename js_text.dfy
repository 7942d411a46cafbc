/** The JavaScript string operations the forms rely on: `trim`, `split` on one
    character, `join`, `padStart` and `includes`, with JavaScript's meaning. */
module JsText {

  /** The code points ECMAScript counts as WhiteSpace or LineTerminator: exactly
      what `String.prototype.trim` strips and what the pattern class `\s` matches. */
  predicate IsSpace(c: char)
  {
    var n := c as int;
    n == 0x09 || n == 0x0A || n == 0x0B || n == 0x0C || n == 0x0D || n == 0x20 ||
    n == 0xA0 || n == 0x1680 || (0x2000 <= n <= 0x200A) || n == 0x2028 ||
    n == 0x2029 || n == 0x202F || n == 0x205F || n == 0x3000 || n == 0xFEFF
  }

  /** The end of the run of white space that starts at `i`. */
  function SpaceRunEnd(s: string, i: nat): (j: nat)
    requires i <= |s|
    ensures i <= j <= |s|
    ensures forall k :: i <= k < j ==> IsSpace(s[k])
    ensures j < |s| ==> !IsSpace(s[j])
    decreases |s| - i
  {
    if i < |s| && IsSpace(s[i]) then SpaceRunEnd(s, i + 1) else i
  }

  /** The start of the run of white space that ends at `j`. */
  function SpaceRunStart(s: string, j: nat): (i: nat)
    requires j <= |s|
    ensures i <= j
    ensures forall k :: i <= k < j ==> IsSpace(s[k])
    ensures i > 0 ==> !IsSpace(s[i - 1])
  {
    if j > 0 && IsSpace(s[j - 1]) then SpaceRunStart(s, j - 1) else j
  }

  /** `s.trimStart()`: drops the leading white space and nothing else, so the
      result is the suffix of `s` after its first non-space. */
  function TrimStart(s: string): (r: string)
    ensures |r| <= |s|
    ensures forall i :: 0 <= i < |s| - |r| ==> IsSpace(s[i])
    ensures r != [] ==> !IsSpace(r[0])
  {
    s[SpaceRunEnd(s, 0)..]
  }

  /** `s.trimEnd()`: drops the trailing white space and nothing else, so the
      result is the prefix of `s` up to its last non-space. */
  function TrimEnd(s: string): (r: string)
    ensures |r| <= |s|
    ensures forall i :: |r| <= i < |s| ==> IsSpace(s[i])
    ensures r != [] ==> !IsSpace(r[|r| - 1])
  {
    s[..SpaceRunStart(s, |s|)]
  }

  /** `s.trim()`: white space is dropped from both ends, one character at a time.
      It is empty exactly when `s` is all white space (the source's `!s.trim()`
      test), and otherwise starts and ends with a non-space. */
  function Trim(s: string): (r: string)
    ensures |r| <= |s|
    ensures r == [] <==> forall i :: 0 <= i < |s| ==> IsSpace(s[i])
    ensures r != [] ==> !IsSpace(r[0]) && !IsSpace(r[|r| - 1])
    decreases |s|
  {
    if s == [] then []
    else if IsSpace(s[0]) then
      assert forall i :: 1 <= i < |s| ==> s[i] == s[1..][i - 1];
      Trim(s[1..])
    else if IsSpace(s[|s| - 1]) then
      assert forall i :: 0 <= i < |s| - 1 ==> s[i] == s[..|s| - 1][i];
      Trim(s[..|s| - 1])
    else s
  }

  /** `s[a..b]` is `s` cut at `a` and `b` with only white space removed. */
  predicate SpaceOutside(s: string, a: int, b: int)
  {
    0 <= a <= b <= |s| &&
    (forall i :: 0 <= i < a ==> IsSpace(s[i])) &&
    (forall i :: b <= i < |s| ==> IsSpace(s[i]))
  }

  /** What `trim` returns is a piece of `s`: only white space is dropped, and
      only at the two ends. */
  lemma {:induction false} TrimIsInfix(s: string)
    ensures exists a, b :: SpaceOutside(s, a, b) && Trim(s) == s[a..b]
    decreases |s|
  {
    if s == [] {
      assert SpaceOutside(s, 0, 0) && Trim(s) == s[0..0];
    } else if IsSpace(s[0]) {
      TrimIsInfix(s[1..]);
      var a, b :| SpaceOutside(s[1..], a, b) && Trim(s[1..]) == s[1..][a..b];
      SpaceOutsideFront(s, a, b);
    } else if IsSpace(s[|s| - 1]) {
      TrimIsInfix(s[..|s| - 1]);
      var a, b :| SpaceOutside(s[..|s| - 1], a, b) && Trim(s[..|s| - 1]) == s[..|s| - 1][a..b];
      SpaceOutsideBack(s, a, b);
    } else {
      assert SpaceOutside(s, 0, |s|) && Trim(s) == s[0..|s|];
    }
  }

  /** `r` is `s` without its surrounding white space: empty exactly when `s` is
      all white space, otherwise bounded by non-space characters, and a piece of
      `s` outside which there is only white space. */
  ghost predicate IsTrimOf(r: string, s: string)
  {
    (r == [] <==> forall i :: 0 <= i < |s| ==> IsSpace(s[i])) &&
    (r != [] ==> !IsSpace(r[0]) && !IsSpace(r[|r| - 1])) &&
    exists a, b :: SpaceOutside(s, a, b) && r == s[a..b]
  }

  /** A cut of `s[1..]` is a cut of `s` one further on when `s` starts with white space. */
  lemma SpaceOutsideFront(s: string, a: int, b: int)
    requires s != [] && IsSpace(s[0]) && SpaceOutside(s[1..], a, b)
    ensures SpaceOutside(s, a + 1, b + 1) && s[1..][a..b] == s[a + 1..b + 1]
  {
    forall i | 0 <= i < a + 1 ensures IsSpace(s[i]) {
      if i > 0 { assert s[i] == s[1..][i - 1]; }
    }
    forall i | b + 1 <= i < |s| ensures IsSpace(s[i]) {
      assert s[i] == s[1..][i - 1];
    }
  }

  /** A cut of the prefix without the last character is a cut of `s` when that
      character is white space. */
  lemma SpaceOutsideBack(s: string, a: int, b: int)
    requires s != [] && IsSpace(s[|s| - 1]) && SpaceOutside(s[..|s| - 1], a, b)
    ensures SpaceOutside(s, a, b) && s[..|s| - 1][a..b] == s[a..b]
  {
    forall i | 0 <= i < a ensures IsSpace(s[i]) {
      assert s[i] == s[..|s| - 1][i];
    }
    forall i | b <= i < |s| ensures IsSpace(s[i]) {
      if i < |s| - 1 { assert s[i] == s[..|s| - 1][i]; }
    }
  }

  /** A string that neither starts nor ends with white space is its own trim. */
  lemma TrimOfTrimmed(s: string)
    requires s == [] || (!IsSpace(s[0]) && !IsSpace(s[|s| - 1]))
    ensures Trim(s) == s
  {
  }

  /** Trimming twice is trimming once. */
  lemma TrimIdempotent(s: string)
    ensures Trim(Trim(s)) == Trim(s)
  {
    TrimOfTrimmed(Trim(s));
  }

  /** The number of occurrences of `c` in `s`. */
  function Occurrences(s: string, c: char): nat
  {
    multiset(s)[c]
  }

  /** The position of the first `c` in `s`. */
  function FirstIndex(s: string, c: char): (i: nat)
    requires c in s
    ensures i < |s| && s[i] == c && c !in s[..i]
  {
    if s[0] == c then 0 else 1 + FirstIndex(s[1..], c)
  }

  /** `s.split(sep)` for a one-character separator: the pieces between the
      separators, one more piece than there are separators, none containing one. */
  function Split(s: string, sep: char): (parts: seq<string>)
    ensures |parts| == Occurrences(s, sep) + 1
    ensures forall k :: 0 <= k < |parts| ==> sep !in parts[k]
    decreases |s|
  {
    if sep !in s then
      assert multiset(s)[sep] == 0;
      [s]
    else
      var i := FirstIndex(s, sep);
      assert s == s[..i] + [sep] + s[i + 1..];
      assert multiset(s)[sep] == multiset(s[..i])[sep] + 1 + multiset(s[i + 1..])[sep];
      assert multiset(s[..i])[sep] == 0;
      [s[..i]] + Split(s[i + 1..], sep)
  }

  /** `parts.join(sep)`. */
  function Join(parts: seq<string>, sep: char): string
  {
    if parts == [] then ""
    else if |parts| == 1 then parts[0]
    else parts[0] + [sep] + Join(parts[1..], sep)
  }

  /** Joining the pieces of a split gives the string back. */
  lemma {:induction false} JoinSplit(s: string, sep: char)
    ensures Join(Split(s, sep), sep) == s
    decreases |s|
  {
    if sep in s {
      var i := FirstIndex(s, sep);
      var rest := Split(s[i + 1..], sep);
      JoinSplit(s[i + 1..], sep);
      assert Split(s, sep) == [s[..i]] + rest;
      assert Split(s, sep)[1..] == rest;
      assert s == s[..i] + [sep] + s[i + 1..];
    }
  }

  /** Splitting at the first separator: a separator-free head is the first piece. */
  lemma SplitAtFirst(a: string, sep: char, b: string)
    requires sep !in a
    ensures Split(a + [sep] + b, sep) == [a] + Split(b, sep)
  {
    var s := a + [sep] + b;
    assert s[|a|] == sep;
    var i := FirstIndex(s, sep);
    assert s[..i] == a && s[i + 1..] == b;
  }

  /** Splitting a join of separator-free pieces gives the pieces back. */
  lemma {:induction false} SplitJoin(parts: seq<string>, sep: char)
    requires |parts| >= 1
    requires forall k :: 0 <= k < |parts| ==> sep !in parts[k]
    ensures Split(Join(parts, sep), sep) == parts
  {
    if |parts| > 1 {
      SplitJoin(parts[1..], sep);
      SplitAtFirst(parts[0], sep, Join(parts[1..], sep));
      assert parts == [parts[0]] + parts[1..];
    }
  }

  /** The first `n` pieces (`parts.slice(0, n)`). */
  function Take(parts: seq<string>, n: nat): (r: seq<string>)
    ensures |r| == if |parts| < n then |parts| else n
    ensures r == parts[..|r|]
  {
    if |parts| < n then parts else parts[..n]
  }

  /** `n` copies of `c`. */
  function Repeat(c: char, n: nat): (r: string)
    ensures |r| == n && forall i :: 0 <= i < n ==> r[i] == c
  {
    if n == 0 then "" else [c] + Repeat(c, n - 1)
  }

  /** `s.padStart(width, fill)`: `fill` is prepended until the string is `width`
      long; a string already that long is unchanged. */
  function PadStart(s: string, width: nat, fill: char): (r: string)
    ensures |r| == if |s| >= width then |s| else width
    ensures forall i :: 0 <= i < |r| - |s| ==> r[i] == fill
  {
    Repeat(fill, if |s| >= width then 0 else width - |s|) + s
  }

  /** Padding with `fill` adds no character other than `fill`. */
  lemma PadStartKeepsOut(s: string, width: nat, fill: char, c: char)
    requires c != fill && c !in s
    ensures c !in PadStart(s, width, fill)
  {
    var p := PadStart(s, width, fill);
    var n := |p| - |s|;
    forall i | 0 <= i < |p|
      ensures p[i] != c
    {
      if i >= n {
        assert p[i] == s[i - n];
      }
    }
  }

  /** A string already `width` long is left as it is. */
  lemma PadStartOfLong(s: string, width: nat, fill: char)
    requires |s| >= width
    ensures PadStart(s, width, fill) == s
  {
    assert Repeat(fill, 0) == "";
  }
}
