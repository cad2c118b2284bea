/** Substring matching and stripping, as the driver's string code uses them. */
module Text {

  /** The pattern `t` occurs in `s` starting at index `pos`. */
  predicate StartsAt(s: string, pos: nat, t: string) {
    pos + |t| <= |s| && s[pos..pos + |t|] == t
  }

  /** No element of `terms` starts at index `pos`. */
  predicate NoneAt(s: string, pos: nat, terms: seq<string>) {
    forall t | t in terms :: !StartsAt(s, pos, t)
  }

  /** `t` occurs nowhere in `s`. */
  predicate Absent(s: string, t: string) {
    forall k: nat | k < |s| :: !StartsAt(s, k, t)
  }

  lemma StartsAtConcat(s: string, pos: nat, a: string, b: string)
    ensures StartsAt(s, pos, a + b) <==> StartsAt(s, pos, a) && StartsAt(s, pos + |a|, b)
  {
    if pos + |a| + |b| <= |s| {
      var u := s[pos..pos + |a| + |b|];
      assert u[..|a|] == s[pos..pos + |a|];
      assert u[|a|..] == s[pos + |a|..pos + |a| + |b|];
      assert (a + b)[..|a|] == a && (a + b)[|a|..] == b;
    }
  }

  /** What is written at `pos` can be read off character by character. */
  lemma CharsAt(s: string, pos: nat, t: string)
    requires StartsAt(s, pos, t)
    ensures pos + |t| <= |s| && s[pos..pos + |t|] == t
    ensures forall k: nat | k < |t| :: s[pos + k] == t[k]
    ensures |t| > 0 ==> s[pos] == t[0]
    ensures |t| > 1 ==> s[pos + 1] == t[1]
  {
  }

  function Spaces(n: nat): (r: string)
    ensures |r| == n && forall k | 0 <= k < n :: r[k] == ' '
  {
    seq(n, _ => ' ')
  }

  // Python's str.strip() and str.strip(' ').

  predicate IsWhitespace(c: char) {
    c in {' ', '\t', '\n', '\r', '\U{000B}', '\U{000C}'}
  }

  function LeftStrip(s: string, drop: char -> bool): (r: string)
    ensures |r| <= |s| && r == s[|s| - |r|..]
    ensures r != "" ==> !drop(r[0])
    ensures forall k | 0 <= k < |s| - |r| :: drop(s[k])
  {
    if s == "" then "" else if drop(s[0]) then LeftStrip(s[1..], drop) else s
  }

  function RightStrip(s: string, drop: char -> bool): (r: string)
    ensures r <= s
    ensures r != "" ==> !drop(r[|r| - 1])
    ensures forall k | |r| <= k < |s| :: drop(s[k])
  {
    if s == "" then "" else if drop(s[|s| - 1]) then RightStrip(s[..|s| - 1], drop) else s
  }

  function Strip(s: string): string {
    RightStrip(LeftStrip(s, IsWhitespace), IsWhitespace)
  }

  function StripSpaces(s: string): string {
    RightStrip(LeftStrip(s, c => c == ' '), c => c == ' ')
  }

  predicate Blank(c: char) {
    c == ' ' || c == '\t' || c == '\n' || c == '\r' || c == '\U{000B}' || c == '\U{000C}'
  }

  predicate Blanks(s: string) {
    forall c | c in s :: Blank(c)
  }

  /** No blank character at either end. */
  predicate Trimmed(s: string) {
    s != "" ==> !Blank(s[0]) && !Blank(s[|s| - 1])
  }

  /** Stripping takes off blanks, and all of them. */
  lemma StripSplits(s: string) returns (before: string, after: string)
    ensures s == before + Strip(s) + after && Blanks(before) && Blanks(after) && Trimmed(Strip(s))
  {
    var left := LeftStrip(s, IsWhitespace);
    before, after := s[..|s| - |left|], left[|Strip(s)|..];
  }

  /** There is only one way to take all blanks off both ends. */
  lemma SameMiddle(a: string, s: string, b: string, a': string, s': string, b': string)
    requires a + s + b == a' + s' + b' && Blanks(a) && Blanks(b) && Blanks(a') && Blanks(b')
    requires Trimmed(s) && Trimmed(s') && s != ""
    ensures s == s'
  {
    var all := a + s + b;
    BlanksOutside(a, s, b);
    BlanksOutside(a', s', b');
    assert all[|a|] == s[0] && all[|a + s| - 1] == s[|s| - 1];
    assert s' != "" ==> all[|a'|] == s'[0] && all[|a' + s'| - 1] == s'[|s'| - 1];
    assert |a'| <= |a| && |a + s| <= |a' + s'|;
    assert s == all[|a|..|a + s|] && s' == all[|a'|..|a' + s'|];
  }

  lemma BlanksOutside(a: string, s: string, b: string)
    requires Blanks(a) && Blanks(b)
    ensures forall k | 0 <= k < |a + s + b| && (k < |a| || |a + s| <= k) :: Blank((a + s + b)[k])
  {
    forall k | 0 <= k < |a + s + b| && (k < |a| || |a + s| <= k)
      ensures Blank((a + s + b)[k])
    {
      assert (a + s + b)[k] == if k < |a| then a[k] else b[k - |a + s|];
    }
  }

  lemma StripOf(before: string, s: string, after: string)
    requires Blanks(before) && Trimmed(s) && Blanks(after)
    ensures Strip(before + s + after) == s
  {
    hide Strip;
    var all := before + s + after;
    var a, b := StripSplits(all);
    if s != "" {
      SameMiddle(before, s, after, a, Strip(all), b);
    } else if Strip(all) != "" {
      SameMiddle(a, Strip(all), b, before, s, after);
    }
  }

  /** The same for spaces alone. */
  lemma StripSpacesOf(before: nat, s: string, after: nat)
    requires s != "" ==> s[0] != ' ' && s[|s| - 1] != ' '
    ensures StripSpaces(Spaces(before) + s + Spaces(after)) == s
  {
    var all := Spaces(before) + s + Spaces(after);
    var left := LeftStrip(all, c => c == ' ');
    var r := StripSpaces(all);
    if s == "" {
      assert r == "";
    } else {
      assert all[before] == s[0] && all[before + |s| - 1] == s[|s| - 1];
      assert |all| - |left| == before;
      assert |r| == |s|;
    }
  }

  lemma StripKeeps(s: string)
    requires s != "" ==> !IsWhitespace(s[0]) && !IsWhitespace(s[|s| - 1])
    ensures Strip(s) == s && StripSpaces(s) == s
  {
  }

  /** Python's str.split on a one-character separator. */
  function SplitOn(s: string, sep: char): (r: seq<string>)
    ensures r != []
  {
    if s == "" then [""]
    else if s[0] == sep then [""] + SplitOn(s[1..], sep)
    else var r := SplitOn(s[1..], sep); [[s[0]] + r[0]] + r[1..]
  }

  /** Python's sep.join(parts). */
  function JoinWith(parts: seq<string>, sep: string): string {
    if parts == [] then ""
    else if |parts| == 1 then parts[0]
    else parts[0] + sep + JoinWith(parts[1..], sep)
  }

  lemma {:induction false} SplitOnPrefix(a: string, b: string, sep: char)
    requires sep !in a
    ensures SplitOn(a + [sep] + b, sep) == [a] + SplitOn(b, sep)
  {
    if a == "" {
      assert (a + [sep] + b)[1..] == b;
    } else {
      SplitOnPrefix(a[1..], b, sep);
      assert (a + [sep] + b)[1..] == a[1..] + [sep] + b;
      assert [a[0]] + a[1..] == a;
    }
  }

  lemma {:induction false} SplitOnOne(a: string, sep: char)
    requires sep !in a
    ensures SplitOn(a, sep) == [a]
  {
    if a != "" {
      SplitOnOne(a[1..], sep);
      assert [a[0]] + a[1..] == a;
    }
  }

  /** Splitting what was joined gives the parts back. */
  lemma {:induction false} SplitJoinOn(parts: seq<string>, sep: char)
    requires parts != [] && forall p | p in parts :: sep !in p
    ensures SplitOn(JoinWith(parts, [sep]), sep) == parts
  {
    if |parts| == 1 {
      SplitOnOne(parts[0], sep);
    } else {
      SplitJoinOn(parts[1..], sep);
      SplitOnPrefix(parts[0], JoinWith(parts[1..], [sep]), sep);
    }
  }

  lemma {:induction false} JoinWithFree(parts: seq<string>, sep: string, c: char)
    requires c !in sep && forall p | p in parts :: c !in p
    ensures c !in JoinWith(parts, sep)
  {
    if |parts| > 1 {
      JoinWithFree(parts[1..], sep, c);
    }
  }
}
