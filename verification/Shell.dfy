/** Shell-style quoting: shell.split, shell.escape, shell.join and shell.unescape. */
module Shell {
  import opened Text

  datatype ShellError = UnterminatedEscape | UnterminatedQuote | NotOneWord

  datatype Result<+T> = Good(value: T) | Bad(error: ShellError)

  /** What the scanner is in the middle of. */
  datatype Mode = Gap | Word(buf: string, quoted: bool)

  function Before(out: seq<string>, r: Result<seq<string>>): Result<seq<string>> {
    if r.Good? then Good(out + r.value) else r
  }

  lemma BeforeTwice(a: seq<string>, b: seq<string>, r: Result<seq<string>>)
    ensures Before(a, Before(b, r)) == Before(a + b, r)
    ensures Before([], r) == r
  {
    if r.Good? {
      assert a + (b + r.value) == a + b + r.value;
      assert [] + r.value == r.value;
    }
  }

  /** The words of `s`, when scanning starts in `mode`. */
  function Words(s: string, mode: Mode): Result<seq<string>> {
    if s == "" then
      match mode
      case Gap => Good([])
      case Word(buf, quoted) => if quoted then Bad(UnterminatedQuote) else Good([buf])
    else
      var (buf, quoted) := if mode.Gap? then ("", false) else (mode.buf, mode.quoted);
      if s[0] == '"' then Words(s[1..], Word(buf, !quoted))
      else if s[0] == ' ' && !quoted then Before(if mode.Gap? then [] else [buf], Words(s[1..], Gap))
      else if s[0] == '\\' then
        if |s| == 1 then Bad(UnterminatedEscape) else Words(s[2..], Word(buf + [s[1]], quoted))
      else Words(s[1..], Word(buf + [s[0]], quoted))
  }

  method Split(s: string) returns (r: Result<seq<string>>)
    ensures r == Words(s, Gap)
  {
    var out: seq<string> := [];
    var inspace, inquote, buf := true, false, "";
    var i := 0;
    BeforeTwice([], [], Words(s, Gap));
    while i < |s|
      invariant i <= |s|
      invariant inspace ==> !inquote && buf == ""
      invariant Words(s, Gap) == Before(out, Words(s[i..], if inspace then Gap else Word(buf, inquote)))
    {
      ghost var rest := s[i..];
      assert s[i + 1..] == rest[1..];
      if s[i] == '"' {
        inspace, inquote := false, !inquote;
      } else if s[i] == ' ' && !inquote {
        BeforeTwice(out, if inspace then [] else [buf], Words(rest[1..], Gap));
        if !inspace {
          out, buf := out + [buf], "";
        }
        inspace := true;
      } else if s[i] == '\\' {
        if i + 1 == |s| {
          return Bad(UnterminatedEscape);
        }
        assert s[i + 2..] == rest[2..];
        inspace := false;
        i := i + 1;
        buf := buf + [s[i]];
      } else {
        inspace := false;
        buf := buf + [s[i]];
      }
      i := i + 1;
    }
    if inquote {
      return Bad(UnterminatedQuote);
    }
    assert s[i..] == "";
    assert out + [] == out;
    return Good(if inspace then out else out + [buf]);
  }

  /** Python's str.replace for a one-character pattern. */
  function Replace(s: string, c: char, with: string): string {
    if s == "" then "" else (if s[0] == c then with else [s[0]]) + Replace(s[1..], c, with)
  }

  function Escape(s: string): string {
    var e := Replace(Replace(s, '\\', "\\\\"), '"', "\\\"");
    if ' ' in e then "\"" + e + "\"" else e
  }

  function Join(args: seq<string>): string {
    JoinWith(seq(|args|, i requires 0 <= i < |args| => Escape(args[i])), " ")
  }

  function Unescape(s: string): Result<string> {
    match Words(s, Gap)
    case Good(w) => if w == [] then Good("") else if |w| == 1 then Good(w[0]) else Bad(NotOneWord)
    case Bad(e) => Bad(e)
  }

  /** The terms that survive being stored: all but the empty strings. */
  function NonEmpty(args: seq<string>): seq<string> {
    if args == [] then [] else (if args[0] == "" then [] else [args[0]]) + NonEmpty(args[1..])
  }

  lemma NonEmptyFirst(args: seq<string>, first: string, rest: seq<string>, head: seq<string>)
    requires args != [] && args[0] == first && args[1..] == rest && head == if first == "" then [] else [first]
    ensures NonEmpty(args) == head + NonEmpty(rest)
  {
  }

  lemma Associate(a: seq<string>, b: seq<string>, c: seq<string>)
    ensures a + (b + c) == a + b + c
  {
  }

  lemma {:induction false} NonEmptyConcat(a: seq<string>, b: seq<string>)
    ensures NonEmpty(a + b) == NonEmpty(a) + NonEmpty(b)
  {
    if a == [] {
      assert a + b == b;
    } else {
      NonEmptyConcat(a[1..], b);
      NonEmptyOneMore(a, b, a[0], a[1..]);
    }
  }

  lemma NonEmptyOneMore(a: seq<string>, b: seq<string>, first: string, rest: seq<string>)
    requires a != [] && a[0] == first && a[1..] == rest && NonEmpty(rest + b) == NonEmpty(rest) + NonEmpty(b)
    ensures NonEmpty(a + b) == NonEmpty(a) + NonEmpty(b)
  {
    hide NonEmpty;
    var head := if first == "" then [] else [first];
    assert (a + b)[1..] == rest + b;
    NonEmptyFirst(a, first, rest, head);
    NonEmptyFirst(a + b, first, rest + b, head);
    Associate(head, NonEmpty(rest), NonEmpty(b));
  }

  // ----- Round trips

  /** One character of `t`, as the two replacements leave it. */
  function Quoted(c: char): string {
    if c == '\\' || c == '"' then ['\\', c] else [c]
  }

  function QuotedAll(t: string): string {
    if t == "" then "" else Quoted(t[0]) + QuotedAll(t[1..])
  }

  lemma ReplaceFirst(s: string, first: char, rest: string, c: char, with: string)
    requires s != "" && s[0] == first && s[1..] == rest
    ensures Replace(s, c, with) == (if first == c then with else [first]) + Replace(rest, c, with)
  {
  }

  lemma {:induction false} ReplaceConcat(a: string, b: string, c: char, with: string)
    ensures Replace(a + b, c, with) == Replace(a, c, with) + Replace(b, c, with)
    decreases |a|
  {
    if a == "" {
      assert a + b == b;
    } else {
      ReplaceConcat(a[1..], b, c, with);
      assert (a + b)[1..] == a[1..] + b;
      ReplaceFirst(a, a[0], a[1..], c, with);
      ReplaceFirst(a + b, a[0], a[1..] + b, c, with);
    }
  }

  lemma {:induction false} EscapeQuotesEachChar(t: string)
    ensures Replace(Replace(t, '\\', "\\\\"), '"', "\\\"") == QuotedAll(t)
  {
    if t != "" {
      var head := if t[0] == '\\' then "\\\\" else [t[0]];
      ReplaceConcat(head, Replace(t[1..], '\\', "\\\\"), '"', "\\\"");
      EscapeQuotesEachChar(t[1..]);
      assert Replace("", '"', "\\\"") == "";
      assert head[1..] == if t[0] == '\\' then "\\" else "";
      assert Replace(head[1..], '"', "\\\"") == head[1..];
    }
  }

  lemma {:induction false} QuotedSpaces(t: string)
    ensures ' ' in QuotedAll(t) <==> ' ' in t
    ensures QuotedAll(t) == "" <==> t == ""
  {
    if t != "" {
      QuotedSpaces(t[1..]);
      assert t == [t[0]] + t[1..];
    }
  }

  lemma ReadQuotedChar(c: char, tail: string, mode: Mode)
    requires c != ' ' || (mode.Word? && mode.quoted)
    ensures Words(Quoted(c) + tail, mode) ==
            Words(tail, if mode.Gap? then Word([c], false) else Word(mode.buf + [c], mode.quoted))
  {
    var s := Quoted(c) + tail;
    assert s[|Quoted(c)|..] == tail;
    assert "" + [c] == [c];
  }

  /** Inside a word, escaped text is read back literally. */
  lemma {:induction false} ReadQuoted(t: string, rest: string, buf: string, quoted: bool)
    requires quoted || ' ' !in t
    ensures Words(QuotedAll(t) + rest, Word(buf, quoted)) == Words(rest, Word(buf + t, quoted))
  {
    if t == "" {
      assert QuotedAll(t) + rest == rest && buf + t == buf;
    } else {
      var tail := QuotedAll(t[1..]) + rest;
      assert QuotedAll(t) + rest == Quoted(t[0]) + tail;
      ReadQuotedChar(t[0], tail, Word(buf, quoted));
      ReadQuoted(t[1..], rest, buf + [t[0]], quoted);
      assert buf + [t[0]] + t[1..] == buf + t;
    }
  }

  lemma EscapeForm(t: string)
    ensures Escape(t) == if ' ' in t then "\"" + QuotedAll(t) + "\"" else QuotedAll(t)
  {
    EscapeQuotesEachChar(t);
    QuotedSpaces(t);
  }

  /** From a gap, an escaped non-empty term starts exactly that word. */
  lemma ReadEscaped(t: string, rest: string)
    requires t != ""
    ensures Words(Escape(t) + rest, Gap) == Words(rest, Word(t, false))
  {
    hide Words, Escape;
    EscapeForm(t);
    var q := QuotedAll(t);
    if ' ' in t {
      var s, tail := Escape(t) + rest, "\"" + rest;
      assert s[0] == '"' && s[1..] == q + tail;
      OpenQuote(s, q + tail);
      ReadQuoted(t, tail, "", true);
      assert "" + t == t;
      CloseQuote(t, rest);
    } else {
      ReadUnquoted(t, rest);
    }
  }

  lemma ReadUnquoted(t: string, rest: string)
    requires t != "" && ' ' !in t
    ensures Words(QuotedAll(t) + rest, Gap) == Words(rest, Word(t, false))
  {
    hide Words, Quoted;
    var first, later := t[0], t[1..];
    assert t == [first] + later && first in t;
    var tail := QuotedAll(later) + rest;
    assert QuotedAll(t) == Quoted(first) + QuotedAll(later);
    hide QuotedAll;
    assert QuotedAll(t) + rest == Quoted(first) + tail;
    ReadQuotedChar(first, tail, Gap);
    ReadQuoted(later, rest, [first], false);
  }

  lemma OpenQuote(s: string, tail: string)
    requires s != "" && s[0] == '"' && s[1..] == tail
    ensures Words(s, Gap) == Words(tail, Word("", true))
  {
  }

  lemma CloseQuote(buf: string, rest: string)
    ensures Words("\"" + rest, Word(buf, true)) == Words(rest, Word(buf, false))
  {
    assert ("\"" + rest)[1..] == rest;
  }

  /** Joining two well-formed texts by a space concatenates their words. */
  lemma {:induction false} WordsConcat(a: string, b: string, mode: Mode)
    requires Words(a, mode).Good?
    ensures Words(a + " " + b, mode) == Before(Words(a, mode).value, Words(b, Gap))
  {
    var s := a + " " + b;
    if a == "" {
      assert s[1..] == b;
    } else {
      assert s[1..] == a[1..] + " " + b;
      var (buf, quoted) := if mode.Gap? then ("", false) else (mode.buf, mode.quoted);
      if a[0] == '"' {
        WordsConcat(a[1..], b, Word(buf, !quoted));
      } else if a[0] == ' ' && !quoted {
        WordsConcat(a[1..], b, Gap);
        var w, first := Words(a[1..], Gap).value, if mode.Gap? then [] else [buf];
        if Words(b, Gap).Good? {
          assert first + (w + Words(b, Gap).value) == first + w + Words(b, Gap).value;
        }
      } else if a[0] == '\\' {
        assert s[2..] == a[2..] + " " + b;
        WordsConcat(a[2..], b, Word(buf + [a[1]], quoted));
      } else {
        WordsConcat(a[1..], b, Word(buf + [a[0]], quoted));
      }
    }
  }

  lemma WordsEscape(t: string)
    ensures Words(Escape(t), Gap) == Good(NonEmpty([t]))
  {
    assert [t][1..] == [];
    if t == "" {
      EscapeQuotesEachChar(t);
      assert Escape(t) == "" && NonEmpty([t]) == [];
    } else {
      ReadEscaped(t, "");
      assert Escape(t) + "" == Escape(t) && NonEmpty([t]) == [t];
    }
  }

  /** Appending an escaped term appends the term, or nothing when it is empty. */
  lemma AppendEscaped(a: string, t: string)
    requires Words(a, Gap).Good?
    ensures Words(a + " " + Escape(t), Gap) == Good(Words(a, Gap).value + NonEmpty([t]))
  {
    WordsConcat(a, Escape(t), Gap);
    WordsEscape(t);
  }

  /** split(join(args)) is args without its empty strings; no error is reached. */
  lemma {:induction false} SplitJoin(args: seq<string>)
    ensures Words(Join(args), Gap) == Good(NonEmpty(args))
  {
    if args != [] {
      var tail := args[1..];
      WordsEscape(args[0]);
      var parts := seq(|args|, i requires 0 <= i < |args| => Escape(args[i]));
      if tail == [] {
        assert args == [args[0]];
      } else {
        SplitJoin(tail);
        assert parts[1..] == seq(|tail|, i requires 0 <= i < |tail| => Escape(tail[i]));
        WordsConcat(Escape(args[0]), Join(tail), Gap);
        NonEmptyConcat([args[0]], tail);
        assert args == [args[0]] + tail;
      }
    }
  }

  lemma UnescapeEscape(s: string)
    ensures Unescape(Escape(s)) == Good(s)
  {
    WordsEscape(s);
  }
}
