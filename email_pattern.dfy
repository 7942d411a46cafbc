/** The e-mail test shared by the speaker forms and the registration form:
    `/^[^\s@]+@[^\s@]+\.[^\s@]+$/.test(email)`. It is not RFC 5322. */
module EmailPattern {
  import JsText

  /** A character of the class `[^\s@]`. */
  predicate Plain(c: char)
  {
    !JsText.IsSpace(c) && c != '@'
  }

  predicate AllPlain(s: string)
  {
    forall i :: 0 <= i < |s| ==> Plain(s[i])
  }

  /** The pattern read literally: a non-empty plain run, `@`, a non-empty plain run,
      `.`, a non-empty plain run, and nothing else. */
  predicate IsValidEmail(s: string)
  {
    exists at, dot | 0 < at < |s| && at + 1 < dot < |s| - 1 ::
      s[at] == '@' && s[dot] == '.' &&
      AllPlain(s[..at]) && AllPlain(s[at + 1..dot]) && AllPlain(s[dot + 1..])
  }

  /** The same test described by its parts: no white space, exactly one `@` with
      something before it, and after it a `.` that is neither the first nor the
      last character of what follows the `@`. */
  predicate HasEmailShape(s: string)
  {
    (forall i :: 0 <= i < |s| ==> !JsText.IsSpace(s[i])) &&
    JsText.Occurrences(s, '@') == 1 &&
    var at := JsText.FirstIndex(s, '@');
    0 < at &&
    exists dot | at + 1 < dot < |s| - 1 :: s[dot] == '.'
  }

  /** Cutting `s` around position `i` splits its count of `c`. */
  lemma OccurrencesAround(s: string, i: nat, c: char)
    requires i < |s|
    ensures JsText.Occurrences(s, c) ==
            JsText.Occurrences(s[..i], c) + (if s[i] == c then 1 else 0) + JsText.Occurrences(s[i + 1..], c)
  {
    assert s == s[..i] + [s[i]] + s[i + 1..];
  }

  /** Outside position `at`, a string that matches the pattern holds only plain characters. */
  lemma PlainOutsideAt(s: string, at: nat, dot: nat)
    requires 0 < at < |s| && at + 1 < dot < |s| - 1 && s[dot] == '.'
    requires AllPlain(s[..at]) && AllPlain(s[at + 1..dot]) && AllPlain(s[dot + 1..])
    ensures forall i :: 0 <= i < |s| && i != at ==> Plain(s[i])
  {
    var a, b, c := s[..at], s[at + 1..dot], s[dot + 1..];
    forall i | 0 <= i < |s| && i != at ensures Plain(s[i]) {
      if i < at { assert s[i] == a[i]; }
      else if i < dot { assert s[i] == b[i - at - 1]; }
      else if i > dot { assert s[i] == c[i - dot - 1]; }
    }
  }

  lemma ValidEmailHasShape(s: string)
    requires IsValidEmail(s)
    ensures HasEmailShape(s)
  {
    var at, dot :| 0 < at < |s| && at + 1 < dot < |s| - 1 &&
      s[at] == '@' && s[dot] == '.' &&
      AllPlain(s[..at]) && AllPlain(s[at + 1..dot]) && AllPlain(s[dot + 1..]);
    PlainOutsideAt(s, at, dot);
    assert forall i :: 0 <= i < |s| ==> !JsText.IsSpace(s[i]);
    var head, rest := s[..at], s[at + 1..];
    assert '@' !in head by {
      forall j | 0 <= j < |head| ensures head[j] != '@' { assert head[j] == s[j]; }
    }
    assert '@' !in rest by {
      forall j | 0 <= j < |rest| ensures rest[j] != '@' { assert rest[j] == s[at + 1 + j]; }
    }
    assert JsText.Occurrences(head, '@') == 0 && JsText.Occurrences(rest, '@') == 0;
    OccurrencesAround(s, at, '@');
    var first := JsText.FirstIndex(s, '@');
    assert first == at;
    assert at + 1 < dot < |s| - 1 && s[dot] == '.';
  }

  lemma ShapeIsValidEmail(s: string)
    requires HasEmailShape(s)
    ensures IsValidEmail(s)
  {
    var at := JsText.FirstIndex(s, '@');
    var dot :| at + 1 < dot < |s| - 1 && s[dot] == '.';
    OccurrencesAround(s, at, '@');
    assert JsText.Occurrences(s[at + 1..], '@') == 0;
    assert '@' !in s[at + 1..];
    forall i | 0 <= i < |s| && i != at ensures Plain(s[i]) {
      if i < at { assert s[i] == s[..at][i]; }
      else { assert s[i] == s[at + 1..][i - at - 1]; }
    }
    assert AllPlain(s[..at]) by {
      forall j | 0 <= j < at ensures Plain(s[..at][j]) { assert s[..at][j] == s[j]; }
    }
    var middle, tail := s[at + 1..dot], s[dot + 1..];
    assert AllPlain(middle) by {
      forall j | 0 <= j < |middle| ensures Plain(middle[j]) { assert middle[j] == s[at + 1 + j]; }
    }
    assert AllPlain(tail) by {
      forall j | 0 <= j < |tail| ensures Plain(tail[j]) { assert tail[j] == s[dot + 1 + j]; }
    }
  }

  /** The pattern accepts exactly the strings of that shape. */
  lemma EmailPatternShape(s: string)
    ensures IsValidEmail(s) <==> HasEmailShape(s)
  {
    if IsValidEmail(s) { ValidEmailHasShape(s); }
    if HasEmailShape(s) { ShapeIsValidEmail(s); }
  }
}
