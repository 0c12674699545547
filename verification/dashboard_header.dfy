/** The dashboard header's two text helpers: the avatar initials and the
    name shown next to them. */
module DashboardHeader {
  import opened Common
  import opened Text

  // ---------------------------------------------------------------------
  // Splitting on spaces
  // ---------------------------------------------------------------------

  predicate NoSpace(w: string) {
    forall i | 0 <= i < |w| :: w[i] != ' '
  }

  /** `words.join(" ")` */
  function JoinSpaces(ws: seq<string>): string
    requires |ws| > 0
  {
    if |ws| == 1 then ws[0] else ws[0] + " " + JoinSpaces(ws[1..])
  }

  /** `s.split(" ")`: the pieces between single spaces, empty ones included. */
  function SplitSpaces(s: string): (ws: seq<string>)
    ensures |ws| > 0
    ensures forall k | 0 <= k < |ws| :: NoSpace(ws[k])
    ensures JoinSpaces(ws) == s
  {
    if s == [] then [""]
    else
      var rest := SplitSpaces(s[1..]);
      if s[0] == ' ' then
        assert s == " " + s[1..];
        [""] + rest
      else
        var ws := [[s[0]] + rest[0]] + rest[1..];
        assert ws[1..] == rest[1..];
        assert s == [s[0]] + s[1..];
        ws
  }

  // ---------------------------------------------------------------------
  // Initials
  // ---------------------------------------------------------------------

  /** `.map(w => w[0]).join("")`: the first character of every non-empty
      word; an empty word contributes `undefined`, which joins as "". */
  function FirstChars(ws: seq<string>): (r: string)
    ensures |r| <= |ws|
  {
    if ws == [] then []
    else (if ws[0] != "" then [ws[0][0]] else []) + FirstChars(ws[1..])
  }

  /** The characters that start a word: non-spaces at the start of the
      string or right after a space. `afterSpace` says whether the
      character before `s` was a space (or `s` starts the string). */
  function WordStarts(s: string, afterSpace: bool): (r: string)
    ensures |r| <= |s|
    ensures forall k | 0 <= k < |r| :: r[k] != ' '
  {
    if s == [] then []
    else (if s[0] != ' ' && afterSpace then [s[0]] else []) + WordStarts(s[1..], s[0] == ' ')
  }

  /** Splitting then taking first characters picks exactly the word
      starts. */
  lemma {:induction false} FirstCharsAreWordStarts(s: string)
    ensures FirstChars(SplitSpaces(s)) == WordStarts(s, true)
    decreases |s|, 1
  {
    if s != [] {
      var rest := SplitSpaces(s[1..]);
      if s[0] == ' ' {
        assert SplitSpaces(s) == [""] + rest;
        assert ([""] + rest)[1..] == rest;
        FirstCharsAreWordStarts(s[1..]);
      } else {
        var ws := SplitSpaces(s);
        assert ws == [[s[0]] + rest[0]] + rest[1..];
        assert ws[1..] == rest[1..];
        InnerWordStarts(s[1..]);
      }
    }
  }

  /** The same for the words after the first one, when `s` continues a word. */
  lemma {:induction false} InnerWordStarts(s: string)
    ensures FirstChars(SplitSpaces(s)[1..]) == WordStarts(s, false)
    decreases |s|, 0
  {
    if s != [] {
      var rest := SplitSpaces(s[1..]);
      if s[0] == ' ' {
        assert SplitSpaces(s) == [""] + rest;
        assert ([""] + rest)[1..] == rest;
        FirstCharsAreWordStarts(s[1..]);
      } else {
        var ws := SplitSpaces(s);
        assert ws == [[s[0]] + rest[0]] + rest[1..];
        assert ws[1..] == rest[1..];
        InnerWordStarts(s[1..]);
      }
    }
  }

  function Take(s: string, n: nat): (r: string)
    ensures |r| == if |s| < n then |s| else n
    ensures r == s[..|r|]
  {
    if |s| <= n then s else s[..n]
  }

  /** `getInitials`: at most two characters, the uppercased first letters
      of the space-separated words, in order. */
  function GetInitials(nameOrRole: string): (r: string)
    ensures nameOrRole == "" ==> r == ""
    ensures |r| <= 2
    ensures r == Take(Upper(WordStarts(nameOrRole, true)), 2)
  {
    if nameOrRole == "" then ""
    else
      FirstCharsAreWordStarts(nameOrRole);
      Take(Upper(FirstChars(SplitSpaces(nameOrRole))), 2)
  }

  // ---------------------------------------------------------------------
  // Display name
  // ---------------------------------------------------------------------

  /** `role.charAt(0).toUpperCase() + role.slice(1)` */
  function Capitalize(role: string): (r: string)
    ensures |r| == |role|
    ensures role != "" ==> r[0] == UpperChar(role[0]) && r[1..] == role[1..]
  {
    if role == "" then "" else Upper([role[0]]) + role[1..]
  }

  lemma CapitalizeIdempotent(role: string)
    ensures Capitalize(Capitalize(role)) == Capitalize(role)
  {
    if role != "" {
      var c := Capitalize(role);
      assert c == [c[0]] + c[1..];
    }
  }

  /** `user?.name || role` capitalized. */
  function DisplayName(name: Option<string>, role: string): (r: string)
    ensures name.Some? && name.value != "" ==> r == name.value
    ensures name.None? || name.value == "" ==> r == Capitalize(role)
  {
    OrElse(name, Capitalize(role))
  }
}
