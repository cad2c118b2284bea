/**
 Linker scripts as text: every way of laying out a script's tokens, with blanks and comments between
 them, is read back as those tokens; so parsing any layout of a script gives the script's flags.
 */
module LinkerScriptText {
  import opened LinkerScript
  import opened LinkerScriptGrammar
  import opened Options

  // ----- The tokens of a text

  function TokenList(text: string): Option<seq<string>>
    decreases |text|
  {
    match Scan(text, "")
    case (None, _) => None
    case (Some(token), after) =>
      if token == "" then Some([])
      else
        match TokenList(after)
        case None => None
        case Some(tokens) => Some([token] + tokens)
  }

  /** Parsing while reading is reading all tokens and then parsing them. */
  lemma {:induction false} ParseIsRun(text: string, st: ParserState)
    ensures ParseFrom(text, st) ==
            if TokenList(text).None? then None else RunTokens(st, TokenList(text).value)
    ensures TokenList(text).Some? ==> GoodTokens(TokenList(text).value)
    decreases |text|
  {
    hide Scan, Step;
    match Scan(text, "")
    case (None, _) =>
    case (Some(token), after) =>
      if token != "" {
        if Step(st, token).Some? {
          ParseIsRun(after, Step(st, token).value);
        } else {
          ParseIsRun(after, st);
        }
        if TokenList(after).Some? { RunOne(st, token, TokenList(after).value); }
      }
  }

  // ----- Layouts

  datatype Spacing = Blank(c: char) | Comment(body: string)

  /** Tokens with the spacing before each of them, and after the last. */
  datatype Layout = Last(gap: seq<Spacing>) | Next(gap: seq<Spacing>, token: string, rest: Layout)

  function GapText(gap: seq<Spacing>): string {
    if gap == [] then ""
    else SpacingText(gap[0]) + GapText(gap[1..])
  }

  function SpacingText(g: Spacing): string {
    match g
    case Blank(c) => [c]
    case Comment(body) => "/*" + (body + "*/")
  }

  function Text(l: Layout): string {
    match l
    case Last(gap) => GapText(gap)
    case Next(gap, token, rest) => GapText(gap) + (token + Text(rest))
  }

  function TokensIn(l: Layout): seq<string> {
    match l
    case Last(_) => []
    case Next(_, token, rest) => [token] + TokensIn(rest)
  }

  /** `a` directly followed by `b` within `s`. */
  predicate Has(s: string, a: char, b: char) {
    exists k: nat :: k + 1 < |s| && s[k] == a && s[k + 1] == b
  }

  predicate GoodSpacing(g: Spacing) {
    match g
    case Blank(c) => c == ' ' || c == '\t' || c == '\n'
    case Comment(body) => !Has(body + "*", '*', '/')
  }

  predicate IsWord(token: string) {
    && token != "" && !Has(token, '/', '*')
    && forall c | c in token :: c != ' ' && c != '\t' && c != '\n' && c != '(' && c != ')'
  }

  predicate IsParenToken(token: string) {
    token == "(" || token == ")"
  }

  predicate HasBlank(gap: seq<Spacing>) {
    exists g :: g in gap && g.Blank?
  }

  /** Between two words there is at least one blank, beside any comments. */
  predicate GoodLayout(l: Layout) {
    && (forall g | g in l.gap :: GoodSpacing(g))
    && (l.Next? ==>
          && GoodLayout(l.rest)
          && (IsParenToken(l.token)
              || (IsWord(l.token) && (l.rest.Next? && IsWord(l.rest.token) ==> HasBlank(l.rest.gap)))))
  }

  // ----- Scanning a layout

  lemma EndsPair(s: string, pair: string)
    requires |pair| == 2
    ensures EndsWith(s, pair) <==> |s| >= 2 && s[|s| - 2] == pair[0] && s[|s| - 1] == pair[1]
  {
    assert |s| >= 2 ==> s[|s| - 2..] == [s[|s| - 2], s[|s| - 1]];
  }

  lemma {:induction false} CommentEnds(body: string, read: string, after: string)
    requires !Has(body + "*", '*', '/')
    requires read != "" && body != "" ==> !(read[|read| - 1] == '*' && body[0] == '/')
    ensures AfterComment(body + "*/" + after, read, "*/") == Some(after)
    decreases |body|
  {
    hide EndsWith;
    var rest := body + "*/" + after;
    if body == "" {
      assert rest[0] == '*' && rest[1..][0] == '/' && rest[1..][1..] == after;
      EndsPair(read + ['*'], "*/");
      EndsPair(read + ['*'] + ['/'], "*/");
    } else {
      var c, tail := body[0], body[1..];
      assert rest[0] == c && rest[1..] == tail + "*/" + after;
      EndsPair(read + [c], "*/");
      HasTail(body + "*", '*', '/');
      assert (body + "*")[1..] == tail + "*";
      assert tail != "" ==> (body + "*")[1] == tail[0];
      CommentEnds(tail, read + [c], after);
    }
  }

  lemma HasTail(s: string, a: char, b: char)
    requires !Has(s, a, b) && s != ""
    ensures !Has(s[1..], a, b) && (|s| > 1 ==> !(s[0] == a && s[1] == b))
  {
    forall k: nat | k + 1 < |s[1..]|
      ensures !(s[1..][k] == a && s[1..][k + 1] == b)
    {
      assert s[1..][k] == s[k + 1] && s[1..][k + 1] == s[k + 2];
      assert !(s[k + 1] == a && s[k + 1 + 1] == b);
    }
  }

  lemma CommentParts(body: string, after: string)
    ensures var rest := SpacingText(Comment(body)) + after;
            rest != "" && rest[0] == '/' && rest[1..] != "" && rest[1..][0] == '*' &&
                rest[1..][1..] == body + "*/" + after
  {
  }

  /** A comment leaves the token being collected as it was. */
  lemma ScanComment(body: string, after: string, token: string)
    requires GoodSpacing(Comment(body))
    ensures Scan(SpacingText(Comment(body)) + after, token) == Scan(after, token)
  {
    hide AfterComment, Scan, EndsWith, SpacingText;
    var rest := SpacingText(Comment(body)) + after;
    CommentParts(body, after);
    EndsPair(token + ['/'], "/*");
    EndsPair(token + ['/'] + ['*'], "/*");
    ScanCases(rest, token);
    ScanCases(rest[1..], token + ['/']);
    assert "" + body + "*" == body + "*";
    CommentEnds(body, "", after);
    assert (token + ['/'] + ['*'])[..|token|] == token;
  }

  lemma GapParts(gap: seq<Spacing>, after: string)
    ensures gap == [] ==> GapText(gap) + after == after
    ensures gap != [] ==> GapText(gap) + after == SpacingText(gap[0]) + (GapText(gap[1..]) + after)
  {
    hide SpacingText;
  }

  lemma BlankSpacing(c: char)
    ensures GoodSpacing(Blank(c)) <==> IsBlank(c)
    ensures SpacingText(Blank(c)) == [c]
  {
  }

  /** Spacing before a token is skipped. */
  lemma {:induction false} SkipGap(gap: seq<Spacing>, after: string)
    requires forall g | g in gap :: GoodSpacing(g)
    ensures Scan(GapText(gap) + after, "") == Scan(after, "")
    decreases |gap|
  {
    hide Scan, GoodSpacing, SpacingText;
    GapParts(gap, after);
    if gap != [] {
      var tail := GapText(gap[1..]) + after;
      SkipGap(gap[1..], after);
      match gap[0]
      case Blank(c) =>
        BlankSpacing(c);
        ScanCases([c] + tail, "");
        assert ([c] + tail)[1..] == tail;
      case Comment(body) =>
        ScanComment(body, tail, "");
    }
  }

  /** Spacing after a word: its first blank ends the word; comments alone do not. */
  lemma {:induction false} EndWord(token: string, gap: seq<Spacing>, after: string) returns (left: seq<Spacing>)
    requires token != "" && forall g | g in gap :: GoodSpacing(g)
    ensures forall g | g in left :: GoodSpacing(g)
    ensures HasBlank(gap) ==> Scan(GapText(gap) + after, token) == (Some(token), GapText(left) + after)
    ensures !HasBlank(gap) ==> Scan(GapText(gap) + after, token) == Scan(after, token)
    decreases |gap|
  {
    hide Scan, GoodSpacing, SpacingText;
    GapParts(gap, after);
    if gap == [] {
      left := [];
    } else {
      var tail := GapText(gap[1..]) + after;
      match gap[0]
      case Blank(c) =>
        left := gap[1..];
        BlankSpacing(c);
        ScanCases([c] + tail, token);
        assert ([c] + tail)[1..] == tail;
        assert gap[0] in gap;
      case Comment(body) =>
        left := EndWord(token, gap[1..], after);
        assert gap[0] in gap;
        ScanComment(body, tail, token);
        assert HasBlank(gap) <==> HasBlank(gap[1..]) by {
          assert forall g :: g in gap <==> g == gap[0] || g in gap[1..];
        }
    }
  }

  lemma {:induction false} ScanWord(word: string, token: string, after: string)
    requires !Has(token + word, '/', '*') && forall c | c in word :: !IsBlank(c) && !IsParen(c)
    ensures Scan(word + after, token) == Scan(after, token + word)
    decreases |word|
  {
    hide Scan, EndsWith;
    if word == "" {
      assert word + after == after && token + word == token;
    } else {
      var c, rest := word[0], word[1..];
      var more := token + [c];
      assert (word + after)[0] == c && (word + after)[1..] == rest + after;
      assert c in word;
      ScanCases(word + after, token);
      assert more + rest == token + word;
      EndsPair(more, "/*");
      assert |more| >= 2 ==>
          (token + word)[|more| - 2] == more[|more| - 2] && (token + word)[|more| - 1] == more[|more| - 1];
      ScanWord(rest, more, after);
    }
  }

  function WithGap(l: Layout, gap: seq<Spacing>): Layout {
    match l
    case Last(_) => Last(gap)
    case Next(_, token, rest) => Next(gap, token, rest)
  }

  function Body(l: Layout): string {
    match l
    case Last(_) => ""
    case Next(_, token, rest) => token + Text(rest)
  }

  lemma GapAndBody(l: Layout)
    ensures Text(l) == GapText(l.gap) + Body(l)
  {
  }

  /** What follows a word that no blank separates ends the word without being read. */
  lemma BodyEndsWord(token: string, l: Layout)
    requires token != "" && GoodLayout(l) && (l.Next? ==> IsParenToken(l.token))
    ensures Scan(Body(l), token) == (Some(token), Body(l))
  {
    if l.Next? { assert Body(l)[0] == l.token[0]; }
  }

  /** Reading the first token of a layout leaves a layout of the others. */
  lemma FirstToken(l: Layout) returns (after: Layout)
    requires GoodLayout(l) && l.Next?
    ensures GoodLayout(after) && TokensIn(after) == TokensIn(l.rest)
    ensures Scan(Text(l), "") == (Some(l.token), Text(after)) && l.token != ""
  {
    hide Scan;
    var Next(gap, token, rest) := l;
    SkipGap(gap, token + Text(rest));
    GapAndBody(rest);
    if IsParenToken(token) {
      after := rest;
      ScanCases(token + Text(rest), "");
      assert (token + Text(rest))[0] == token[0] && (token + Text(rest))[1..] == Text(rest);
      assert token == [token[0]];
    } else {
      assert "" + token == token;
      ScanWord(token, "", Text(rest));
      var left := EndWord(token, rest.gap, Body(rest));
      if HasBlank(rest.gap) {
        after := WithGap(rest, left);
        GapAndBody(after);
      } else {
        after := WithGap(rest, []);
        GapAndBody(after);
        assert GapText([]) + Body(rest) == Body(rest);
        BodyEndsWord(token, rest);
      }
    }
  }

  /** Every layout is read back as its tokens. */
  lemma {:induction false} LayoutTokens(l: Layout)
    requires GoodLayout(l)
    ensures TokenList(Text(l)) == Some(TokensIn(l))
    decreases |TokensIn(l)|
  {
    hide Scan;
    match l
    case Last(gap) =>
      SkipGap(gap, "");
      assert GapText(gap) + "" == GapText(gap);
      ScanCases("", "");
    case Next(_, token, _) =>
      var after := FirstToken(l);
      LayoutTokens(after);
  }

  // ----- Main results

  /** Parsing any layout of a script gives exactly the script's flags, with every section closed. */
  lemma ParseLayout(script: Script, l: Layout)
    requires GoodScript(script) && GoodLayout(l) && TokensIn(l) == Tokens(script)
    ensures ParseFrom(Text(l), START) == Some(ParserState(Flags(script), [], ""))
  {
    LayoutTokens(l);
    ParseIsRun(Text(l), START);
    RunScript([], script);
    assert [] + Flags(script) == Flags(script);
  }

  /** A text is accepted exactly when its comments close and its tokens begin some script. */
  lemma ParsesIff(text: string)
    ensures ParseFrom(text, START).Some? <==>
            TokenList(text).Some? &&
            exists script, missing :: GoodScript(script) && Tokens(script) == TokenList(text).value + missing
  {
    ParseIsRun(text, START);
    if TokenList(text).Some? { AcceptsIff(TokenList(text).value); }
  }

  /**
   * The flags of an accepted text are properly nested exactly when its tokens are those of whole sections, and perhaps
   * of one unfinished section that is no GROUP and has no AS_NEEDED open.
   */
  lemma ParsedFlagsNestIff(text: string)
    requires ParseFrom(text, START).Some?
    ensures TokenList(text).Some?
    ensures StillOpen(ParseFrom(text, START).value.ret, []) == Some([]) <==> EndsNested(TokenList(text).value)
  {
    hide RunTokens, StillOpen, EndsNested;
    ParseIsRun(text, START);
    FlagsNestIff(TokenList(text).value);
  }

  /** A text that ends early is accepted with its group left open: `GROUP ( a`. */
  lemma OpenGroupExample(text: string)
    requires text == "GROUP ( a"
    ensures ParseFrom(text, START) == Some(ParserState(["--start-group", "-l:a"], [Group], ""))
  {
    hide TokenList, ParseFrom, Step, GoodLayout, Scan;
    ParseIsRun(text, START);
    ExampleTokens(text);
    var tokens := TokenList(text).value;
    assert TokenList(text) == Some(tokens) && tokens == ["GROUP", "(", "a"];
    ExampleRun(tokens);
  }

  lemma ExampleTokens(text: string)
    requires text == "GROUP ( a"
    ensures TokenList(text) == Some(["GROUP", "(", "a"])
  {
    hide TokenList, Scan;
    var a := Next([Blank(' ')], "a", Last([]));
    var paren := Next([Blank(' ')], "(", a);
    var l := Next([], "GROUP", paren);
    assert Text(a) == " a" && Text(paren) == " ( a" && Text(l) == text;
    assert TokensIn(a) == ["a"] && TokensIn(paren) == ["(", "a"] && TokensIn(l) == ["GROUP", "(", "a"];
    assert GoodLayout(a) && GoodLayout(paren);
    LayoutTokens(l);
  }

  lemma ExampleRun(tokens: seq<string>)
    requires tokens == ["GROUP", "(", "a"]
    ensures RunTokens(START, tokens) == Some(ParserState(["--start-group", "-l:a"], [Group], ""))
  {
    hide RunTokens;
    var st1, st2 := ParserState(["--start-group"], [Group], "("), ParserState(["--start-group"], [Group], "");
    var st3 := ParserState(["--start-group", "-l:a"], [Group], "");
    assert "-l:" + "a" == "-l:a" && [] + ["--start-group"] == ["--start-group"] && [Group][..0] == [];
    assert ["--start-group"] + ["-l:a"] == ["--start-group", "-l:a"];
    RunOne(START, "GROUP", ["(", "a"]);
    assert ["GROUP"] + ["(", "a"] == ["GROUP", "(", "a"];
    RunOne(st1, "(", ["a"]);
    assert ["("] + ["a"] == ["(", "a"];
    RunOne(st2, "a", []);
    assert ["a"] + [] == ["a"];
    RunNone(st3);
  }
}
