/** `ensureVideoUrl`: turns the `s3_url` stored for a video into a playable
    address. Absolute http(s) addresses are kept; anything else is reduced to
    its file name and served from `<API_BASE>/static/`. The environment's
    `API_BASE` is the parameter `base`. */
module VideoUrl {
  import opened Common
  import opened Text

  predicate IsSeparator(c: char) {
    c == '/' || c == '\\'
  }

  /** `/^https?:\/\//i.test(s)`; case-insensitive matching only folds ASCII
      letters here, because no other character folds to h, t, p or s. */
  predicate HasHttpScheme(s: string) {
    StartsWith(Lower(s), "http://") || StartsWith(Lower(s), "https://")
  }

  /** Length of the first line: the regular-expression `.` cannot cross a
      line terminator, so `^.*` never reaches past it. */
  function LineEnd(s: string): (n: nat)
    ensures n <= |s|
    ensures forall k | 0 <= k < n :: !IsLineTerminator(s[k])
    ensures n == |s| || IsLineTerminator(s[n])
  {
    if |s| == 0 || IsLineTerminator(s[0]) then 0 else 1 + LineEnd(s[1..])
  }

  lemma LineEndUnique(s: string, n: nat)
    requires n <= |s|
    requires forall k | 0 <= k < n :: !IsLineTerminator(s[k])
    requires n == |s| || IsLineTerminator(s[n])
    ensures LineEnd(s) == n
  {
  }

  /** Index of the last separator among the first `n` characters. */
  function LastSeparatorBefore(s: string, n: nat): (r: Option<nat>)
    requires n <= |s|
    ensures r.None? <==> forall m | 0 <= m < n :: !IsSeparator(s[m])
    ensures r.Some? ==> r.value < n && IsSeparator(s[r.value])
    ensures r.Some? ==> forall m | r.value < m < n :: !IsSeparator(s[m])
  {
    if n == 0 then None
    else if IsSeparator(s[n - 1]) then Some(n - 1)
    else LastSeparatorBefore(s, n - 1)
  }

  /** `String(url).replace(/^.*[\\/]/, "")`: drops the longest prefix of the
      first line that ends with `/` or `\`. */
  function FileName(s: string): (r: string)
    ensures |r| <= |s| && r == s[|s| - |r|..]
    ensures forall m | 0 <= m < LineEnd(r) :: !IsSeparator(r[m])
    ensures (forall m | 0 <= m < LineEnd(s) :: !IsSeparator(s[m])) ==> r == s
    // the dropped prefix lies on the first line and ends at its last separator
    ensures |s| - |r| <= LineEnd(s)
    ensures r != s ==> IsSeparator(s[|s| - |r| - 1])
    ensures r != s ==> forall m | |s| - |r| <= m < LineEnd(s) :: !IsSeparator(s[m])
  {
    var n := LineEnd(s);
    match LastSeparatorBefore(s, n)
    case None => s
    case Some(k) =>
      var r := s[k + 1..];
      LineEndUnique(r, n - (k + 1));
      assert forall m | 0 <= m < n - (k + 1) :: r[m] == s[m + k + 1];
      r
  }

  /** Without line terminators the file name contains no separator at all. */
  lemma FileNameHasNoSeparator(s: string)
    requires forall k | 0 <= k < |s| :: !IsLineTerminator(s[k])
    ensures forall m | 0 <= m < |FileName(s)| :: !IsSeparator(FileName(s)[m])
  {
    var r := FileName(s);
    LineEndUnique(r, |r|);
  }

  /** A bare name (no separator on its first line) is its own file name. */
  lemma FileNameOfBareName(s: string)
    requires forall m | 0 <= m < LineEnd(s) :: !IsSeparator(s[m])
    ensures FileName(s) == s
  {
  }

  const StaticPath: string := "/static/"

  /** The shared `API_BASE`: `NEXT_PUBLIC_API_BASE || "/api/backend"`, with
      an unset variable as `None`. */
  const DefaultBase: string := "/api/backend"

  function ApiBase(apiBaseVar: Option<string>): (b: string)
    ensures b != ""
    ensures apiBaseVar.Some? && apiBaseVar.value != "" ==> b == apiBaseVar.value
    ensures apiBaseVar.None? || apiBaseVar.value == "" ==> b == DefaultBase
  {
    OrElse(apiBaseVar, DefaultBase)
  }

  function EnsureVideoUrl(base: string, url: Option<string>): (r: string)
    ensures r == "" <==> url.None? || url.value == ""
    ensures url.Some? && HasHttpScheme(url.value) ==> r == url.value
    ensures url.Some? && url.value != "" && !HasHttpScheme(url.value) ==>
              StartsWith(r, base + StaticPath) && r[|base + StaticPath|..] == FileName(url.value)
  {
    match url
    case None => ""
    case Some(u) =>
      if u == "" then ""
      else if HasHttpScheme(u) then u
      else
        var r := base + StaticPath + FileName(u);
        assert r[..|base + StaticPath|] == base + StaticPath;
        r
  }

  /** Behind a separator-terminated, single-line prefix, a bare name is
      exactly what `FileName` recovers. */
  lemma {:induction false} FileNameBehindPrefix(p: string, f: string)
    requires |p| > 0 && IsSeparator(p[|p| - 1])
    requires forall k | 0 <= k < |p| :: !IsLineTerminator(p[k])
    requires forall m | 0 <= m < LineEnd(f) :: !IsSeparator(f[m])
    ensures FileName(p + f) == f
  {
    var r := p + f;
    var lf := LineEnd(f);
    assert forall k | 0 <= k < |p| :: r[k] == p[k];
    assert forall k | |p| <= k < |p| + lf :: r[k] == f[k - |p|];
    assert |p| + lf == |r| || IsLineTerminator(r[|p| + lf]) by {
      if lf < |f| { assert r[|p| + lf] == f[lf]; }
    }
    LineEndUnique(r, |p| + lf);
    assert LastSeparatorBefore(r, |p| + lf) == Some(|p| - 1);
    assert r[|p|..] == f;
  }

  /** Normalising an already normalised address changes nothing, provided
      the configured base has no line terminator. */
  lemma {:induction false} EnsureVideoUrlIdempotent(base: string, url: Option<string>)
    requires forall k | 0 <= k < |base| :: !IsLineTerminator(base[k])
    ensures EnsureVideoUrl(base, Some(EnsureVideoUrl(base, url))) == EnsureVideoUrl(base, url)
  {
    if url.Some? && url.value != "" && !HasHttpScheme(url.value) {
      var p := base + StaticPath;
      var f := FileName(url.value);
      assert EnsureVideoUrl(base, url) == p + f;
      if !HasHttpScheme(p + f) {
        StaticPrefixSingleLine(base);
        FileNameBehindPrefix(p, f);
      }
    }
  }

  lemma StaticPrefixSingleLine(base: string)
    requires forall k | 0 <= k < |base| :: !IsLineTerminator(base[k])
    ensures var p := base + StaticPath;
      |p| > 0 && IsSeparator(p[|p| - 1]) && forall k | 0 <= k < |p| :: !IsLineTerminator(p[k])
  {
    var p := base + StaticPath;
    forall k | 0 <= k < |p| ensures !IsLineTerminator(p[k]) {
      if k >= |base| { assert p[k] == StaticPath[k - |base|]; }
    }
  }
}
