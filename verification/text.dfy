/** The JavaScript string operations the dashboard relies on: `trim`,
    ASCII case mapping, `includes`, `startsWith`, decimal digit runs
    (`/\d+/`), `parseInt` of a digit run, and the lexicographic `<` that
    string keys are sorted with. */
module Text {
  import opened Common

  // ---------------------------------------------------------------------
  // Character classes
  // ---------------------------------------------------------------------

  /** `\d` without the unicode flag: the ASCII digits only. */
  predicate IsDigit(c: char) {
    '0' <= c <= '9'
  }

  function DigitValue(c: char): nat
    requires IsDigit(c)
  {
    c as int - '0' as int
  }

  function DigitChar(d: nat): (c: char)
    requires d < 10
    ensures IsDigit(c) && DigitValue(c) == d
  {
    ('0' as int + d) as char
  }

  predicate AllDigits(s: string) {
    forall i | 0 <= i < |s| :: IsDigit(s[i])
  }

  /** The LineTerminator production of ECMAScript: LF, CR, LS, PS.
      The regular-expression `.` matches every character except these. */
  predicate IsLineTerminator(c: char) {
    c == '\n' || c == '\r' || c == '\U{2028}' || c == '\U{2029}'
  }

  /** The characters `String.prototype.trim` removes: ECMAScript WhiteSpace
      (TAB, VT, FF, ZWNBSP and the Unicode space separators) and
      LineTerminator. */
  predicate IsWhitespace(c: char) {
    || c == '\t' || c == '\U{000B}' || c == '\U{000C}' || c == ' '
    || c == '\U{00A0}' || c == '\U{FEFF}' || c == '\U{1680}'
    || ('\U{2000}' <= c <= '\U{200A}')
    || c == '\U{202F}' || c == '\U{205F}' || c == '\U{3000}'
    || IsLineTerminator(c)
  }

  // ---------------------------------------------------------------------
  // trim
  // ---------------------------------------------------------------------

  function TrimStart(s: string): (r: string)
    ensures |r| <= |s| && r == s[|s| - |r|..]
    ensures forall i | 0 <= i < |s| - |r| :: IsWhitespace(s[i])
    ensures r != [] ==> !IsWhitespace(r[0])
  {
    if |s| > 0 && IsWhitespace(s[0]) then TrimStart(s[1..]) else s
  }

  function TrimEnd(s: string): (r: string)
    ensures |r| <= |s| && r == s[..|r|]
    ensures forall i | |r| <= i < |s| :: IsWhitespace(s[i])
    ensures r != [] ==> !IsWhitespace(r[|r| - 1])
  {
    if |s| > 0 && IsWhitespace(s[|s| - 1]) then TrimEnd(s[..|s| - 1]) else s
  }

  /** `s.trim()`: the longest slice of `s` that neither starts nor ends
      with whitespace. */
  function Trim(s: string): (r: string)
    ensures |r| <= |s|
    ensures r == [] <==> forall i | 0 <= i < |s| :: IsWhitespace(s[i])
    ensures r != [] ==> !IsWhitespace(r[0]) && !IsWhitespace(r[|r| - 1])
  {
    var t := TrimStart(s);
    var r := TrimEnd(t);
    r
  }

  /** A string that neither starts nor ends with whitespace is its own trim. */
  lemma TrimUnchanged(s: string)
    requires s != [] ==> !IsWhitespace(s[0]) && !IsWhitespace(s[|s| - 1])
    ensures Trim(s) == s
  {
    assert TrimStart(s) == s;
    assert TrimEnd(s) == s;
  }

  /** A string JavaScript treats as blank: `!s.trim()`. */
  predicate IsBlank(s: string) {
    Trim(s) == []
  }

  lemma TrimIdempotent(s: string)
    ensures Trim(Trim(s)) == Trim(s)
  {
    var r := Trim(s);
    assert TrimStart(r) == r;
    assert TrimEnd(r) == r;
  }

  // ---------------------------------------------------------------------
  // Case mapping (ASCII letters; other characters map to themselves)
  // ---------------------------------------------------------------------

  function LowerChar(c: char): (d: char)
    ensures !('A' <= d <= 'Z')
  {
    if 'A' <= c <= 'Z' then (c as int + 32) as char else c
  }

  function UpperChar(c: char): (d: char)
    ensures !('a' <= d <= 'z')
  {
    if 'a' <= c <= 'z' then (c as int - 32) as char else c
  }

  /** `s.toLowerCase()` */
  function Lower(s: string): (r: string)
    ensures |r| == |s|
    ensures forall i | 0 <= i < |s| :: r[i] == LowerChar(s[i])
  {
    seq(|s|, i requires 0 <= i < |s| => LowerChar(s[i]))
  }

  /** `s.toUpperCase()` */
  function Upper(s: string): (r: string)
    ensures |r| == |s|
    ensures forall i | 0 <= i < |s| :: r[i] == UpperChar(s[i])
  {
    seq(|s|, i requires 0 <= i < |s| => UpperChar(s[i]))
  }

  lemma LowerIdempotent(s: string)
    ensures Lower(Lower(s)) == Lower(s)
  {
  }

  // ---------------------------------------------------------------------
  // includes / startsWith
  // ---------------------------------------------------------------------

  predicate StartsWith(s: string, prefix: string) {
    |prefix| <= |s| && s[..|prefix|] == prefix
  }

  /** `s.includes(sub)`; every string includes the empty string. */
  predicate Contains(s: string, sub: string) {
    exists i | 0 <= i <= |s| :: OccursAt(s, sub, i)
  }

  predicate OccursAt(s: string, sub: string, i: int) {
    0 <= i && i + |sub| <= |s| && s[i..i + |sub|] == sub
  }

  lemma ContainsEmpty(s: string)
    ensures Contains(s, [])
  {
    assert OccursAt(s, [], 0);
  }

  // ---------------------------------------------------------------------
  // Decimal numerals
  // ---------------------------------------------------------------------

  /** `String(n)` for a natural number: decimal, no leading zeros. */
  function NatToString(n: nat): (r: string)
    ensures |r| > 0 && AllDigits(r)
    ensures n < 10 <==> |r| == 1
  {
    if n < 10 then [DigitChar(n)] else NatToString(n / 10) + [DigitChar(n % 10)]
  }

  /** `parseInt(d, 10)` of a run of decimal digits, exactly. */
  function ParseDigits(d: string): nat
    requires AllDigits(d)
  {
    if |d| == 0 then 0 else ParseDigits(d[..|d| - 1]) * 10 + DigitValue(d[|d| - 1])
  }

  lemma {:induction false} ParseNatToString(n: nat)
    ensures ParseDigits(NatToString(n)) == n
  {
    if n >= 10 {
      var r := NatToString(n);
      var p := NatToString(n / 10);
      assert r[..|r| - 1] == p;
      ParseNatToString(n / 10);
    }
  }

  /** A leading zero does not change the value of a digit run. */
  lemma {:induction false} ParseLeadingZero(d: string)
    requires AllDigits(d)
    ensures AllDigits("0" + d) && ParseDigits("0" + d) == ParseDigits(d)
  {
    var z := "0" + d;
    assert AllDigits(z) by {
      forall i | 0 <= i < |z| ensures IsDigit(z[i]) {
        if i > 0 { assert z[i] == d[i - 1]; }
      }
    }
    if |d| > 0 {
      assert z[..|z| - 1] == "0" + d[..|d| - 1];
      ParseLeadingZero(d[..|d| - 1]);
    }
  }

  /** The maximal run of digits that starts at index `i`. */
  function DigitRunAt(s: string, i: nat): (r: string)
    requires i <= |s|
    ensures AllDigits(r) && i + |r| <= |s| && r == s[i..i + |r|]
    ensures i + |r| == |s| || !IsDigit(s[i + |r|])
    decreases |s| - i
  {
    if i < |s| && IsDigit(s[i]) then [s[i]] + DigitRunAt(s, i + 1) else []
  }

  /** Index of the first decimal digit of `s`, if any. */
  function FirstDigitIndex(s: string): (r: Option<nat>)
    ensures r.None? <==> forall k | 0 <= k < |s| :: !IsDigit(s[k])
    ensures r.Some? ==> r.value < |s| && IsDigit(s[r.value])
    ensures r.Some? ==> forall k | 0 <= k < r.value :: !IsDigit(s[k])
  {
    if |s| == 0 then None
    else if IsDigit(s[0]) then Some(0)
    else match FirstDigitIndex(s[1..])
      case None => None
      case Some(k) => Some(k + 1)
  }

  /** The capture of `/(\d+)/`: the leftmost, longest run of digits. */
  function FirstDigitRun(s: string): (r: Option<string>)
    ensures r.None? <==> forall k | 0 <= k < |s| :: !IsDigit(s[k])
    ensures r.Some? ==> |r.value| > 0 && AllDigits(r.value)
    ensures r.Some? ==> exists i :: LeftmostLongestRun(s, i, r.value)
  {
    match FirstDigitIndex(s)
    case None => None
    case Some(i) =>
      var d := DigitRunAt(s, i);
      assert LeftmostLongestRun(s, i, d);
      Some(d)
  }

  /** `r` occurs at `i` with only non-digits before it (leftmost) and a
      non-digit or the end after it (longest). */
  predicate LeftmostLongestRun(s: string, i: int, r: string) {
    && 0 <= i && i + |r| <= |s|
    && (forall k | 0 <= k < i :: !IsDigit(s[k]))
    && s[i..i + |r|] == r
    && (i + |r| == |s| || !IsDigit(s[i + |r|]))
  }

  lemma FirstDigitRunSkipsPrefix(p: string, s: string)
    requires forall k | 0 <= k < |p| :: !IsDigit(p[k])
    ensures FirstDigitRun(p + s) == FirstDigitRun(s)
  {
    var ps := p + s;
    match FirstDigitIndex(s)
    case None =>
      assert forall k | 0 <= k < |ps| :: !IsDigit(ps[k]) by {
        forall k | 0 <= k < |ps| ensures !IsDigit(ps[k]) {
          if k >= |p| { assert ps[k] == s[k - |p|]; }
        }
      }
    case Some(i) =>
      assert ps[|p| + i] == s[i];
      forall k | 0 <= k < |p| + i ensures !IsDigit(ps[k]) {
        if k >= |p| { assert ps[k] == s[k - |p|]; }
      }
      assert FirstDigitIndex(ps) == Some(|p| + i);
      DigitRunShift(p, s, i);
  }

  lemma {:induction false} DigitRunShift(p: string, s: string, i: nat)
    requires i <= |s|
    ensures DigitRunAt(p + s, |p| + i) == DigitRunAt(s, i)
    decreases |s| - i
  {
    if i < |s| {
      assert (p + s)[|p| + i] == s[i];
      DigitRunShift(p, s, i + 1);
    }
  }

  /** The run at `i` is the only all-digit slice there that is not
      followed by another digit. */
  lemma DigitRunAtUnique(s: string, i: nat, r: string)
    requires AllDigits(r) && i + |r| <= |s| && r == s[i..i + |r|]
    requires i + |r| == |s| || !IsDigit(s[i + |r|])
    ensures DigitRunAt(s, i) == r
  {
  }

  /** A non-empty string of digits is its own first digit run. */
  lemma FirstDigitRunOfDigits(d: string)
    requires |d| > 0 && AllDigits(d)
    ensures FirstDigitRun(d) == Some(d)
  {
    assert FirstDigitIndex(d) == Some(0);
    DigitRunAtUnique(d, 0, d);
  }

  /** Text without digits appended after `s` leaves its first run alone. */
  lemma FirstDigitRunDropsSuffix(s: string, w: string)
    requires forall k | 0 <= k < |w| :: !IsDigit(w[k])
    ensures FirstDigitRun(s + w) == FirstDigitRun(s)
  {
    var sw := s + w;
    match FirstDigitIndex(s)
    case None =>
      assert forall k | 0 <= k < |sw| :: !IsDigit(sw[k]) by {
        forall k | 0 <= k < |sw| ensures !IsDigit(sw[k]) {
          if k < |s| { assert sw[k] == s[k]; } else { assert sw[k] == w[k - |s|]; }
        }
      }
    case Some(i) =>
      assert sw[i] == s[i];
      forall k | 0 <= k < i ensures !IsDigit(sw[k]) {
        assert sw[k] == s[k];
      }
      assert FirstDigitIndex(sw) == Some(i);
      var r := DigitRunAt(s, i);
      assert sw[i..i + |r|] == r;
      if i + |r| < |s| {
        assert sw[i + |r|] == s[i + |r|];
      } else if i + |r| < |sw| {
        assert sw[i + |r|] == w[0];
      }
      DigitRunAtUnique(sw, i, r);
  }

  lemma WhitespaceIsNotDigit(c: char)
    requires IsWhitespace(c)
    ensures !IsDigit(c)
  {
  }

  /** Trimming never changes the first digit run: whitespace is not a digit. */
  lemma FirstDigitRunOfTrim(s: string)
    ensures FirstDigitRun(Trim(s)) == FirstDigitRun(s)
  {
    TrimStartKeepsDigitRun(s);
    TrimEndKeepsDigitRun(TrimStart(s));
  }

  lemma TrimStartKeepsDigitRun(s: string)
    ensures FirstDigitRun(TrimStart(s)) == FirstDigitRun(s)
  {
    var t := TrimStart(s);
    var n := |s| - |t|;
    var pre := s[..n];
    assert t == s[n..];
    assert s == pre + t;
    forall k | 0 <= k < |pre| ensures !IsDigit(pre[k]) {
      assert pre[k] == s[k];
      WhitespaceIsNotDigit(s[k]);
    }
    FirstDigitRunSkipsPrefix(pre, t);
  }

  lemma TrimEndKeepsDigitRun(t: string)
    ensures FirstDigitRun(TrimEnd(t)) == FirstDigitRun(t)
  {
    var r := TrimEnd(t);
    var post := t[|r|..];
    assert t == r + post;
    forall k | 0 <= k < |post| ensures !IsDigit(post[k]) {
      assert post[k] == t[|r| + k];
      WhitespaceIsNotDigit(t[|r| + k]);
    }
    FirstDigitRunDropsSuffix(r, post);
  }

  // ---------------------------------------------------------------------
  // Falsy strings
  // ---------------------------------------------------------------------

  /** `s || d` for a string that may be missing: both a missing and an
      empty string are falsy. */
  function OrElse(s: Option<string>, d: string): (r: string)
    ensures r == d || (s.Some? && r == s.value && r != "")
  {
    if s.Some? && s.value != "" then s.value else d
  }

  // ---------------------------------------------------------------------
  // Lexicographic order of strings (JavaScript `a < b` on strings)
  // ---------------------------------------------------------------------

  predicate StrLess(a: string, b: string)
    decreases |a|
  {
    |b| > 0 && (|a| == 0 || a[0] < b[0] || (a[0] == b[0] && StrLess(a[1..], b[1..])))
  }

  lemma {:induction false} StrLessIrreflexive(a: string)
    ensures !StrLess(a, a)
  {
    if |a| > 0 { StrLessIrreflexive(a[1..]); }
  }

  lemma {:induction false} StrLessTransitive(a: string, b: string, c: string)
    requires StrLess(a, b) && StrLess(b, c)
    ensures StrLess(a, c)
    decreases |a|
  {
    if |a| > 0 && a[0] == b[0] && b[0] == c[0] {
      StrLessTransitive(a[1..], b[1..], c[1..]);
    }
  }

  lemma {:induction false} StrLessTotal(a: string, b: string)
    requires a != b
    ensures StrLess(a, b) || StrLess(b, a)
    decreases |a|
  {
    if |a| > 0 && |b| > 0 && a[0] == b[0] {
      assert a == [a[0]] + a[1..] && b == [b[0]] + b[1..];
      StrLessTotal(a[1..], b[1..]);
    }
  }
}
