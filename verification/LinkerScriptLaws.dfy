/** The flags that sections of a linker script stand for, written out. */
module LinkerScriptLaws {
  import opened LinkerScript
  import opened LinkerScriptGrammar
  import opened LinkerScriptText
  import opened Options

  /** Every word with the prefix before it. */
  function Each(prefix: string, words: seq<string>): seq<string> {
    seq(|words|, i requires 0 <= i < |words| => prefix + words[i])
  }

  /** The words of a section: neither its end nor the start of a section within it. */
  predicate PlainWords(words: seq<string>) {
    forall w | w in words :: w != "" && w != ")" && w != "AS_NEEDED"
  }

  // ----- Sections as trees

  function Listed(words: seq<string>, more: Items): Items {
    if words == [] then more else Word(words[0], Listed(words[1..], more))
  }

  lemma {:induction false} ListedTokens(words: seq<string>, more: Items)
    requires PlainWords(words) && GoodItems(more)
    ensures GoodItems(Listed(words, more)) && ItemTokens(Listed(words, more)) == words + ItemTokens(more)
  {
    if words == [] {
      assert words + ItemTokens(more) == ItemTokens(more);
    } else {
      assert words[0] in words && forall w | w in words[1..] :: w in words;
      ListedTokens(words[1..], more);
      assert words == [words[0]] + words[1..];
      assert [words[0]] + (words[1..] + ItemTokens(more)) == words + ItemTokens(more);
    }
  }

  lemma {:induction false} ListedFlags(words: seq<string>, more: Items, kind: Kind)
    ensures ItemFlags(Listed(words, more), kind) ==
            (if kind == OutputFormat then [] else Each(if kind == Extern then "--undefined=" else "-l:", words)) +
            ItemFlags(more, kind)
  {
    if words == [] {
      EachParts(if kind == Extern then "--undefined=" else "-l:", words, []);
      assert [] + ItemFlags(more, kind) == ItemFlags(more, kind);
    } else {
      var prefix, rest := if kind == Extern then "--undefined=" else "-l:", words[1..];
      ListedFlags(rest, more, kind);
      WordFlagsFirst(words[0], Listed(rest, more), kind);
      hide ItemFlags, Each;
      EachParts(prefix, words, ItemFlags(more, kind));
    }
  }

  lemma WordFlagsFirst(word: string, more: Items, kind: Kind)
    ensures ItemFlags(Word(word, more), kind) ==
            (if kind == OutputFormat then [] else [(if kind == Extern then "--undefined=" else "-l:") + word]) +
            ItemFlags(more, kind)
  {
  }

  lemma EachParts(prefix: string, words: seq<string>, more: seq<string>)
    ensures words == [] ==> Each(prefix, words) == []
    ensures words != [] ==>
              [prefix + words[0]] + (Each(prefix, words[1..]) + more) == Each(prefix, words) + more
  {
    if words != [] {
      assert Each(prefix, words) == [prefix + words[0]] + Each(prefix, words[1..]);
    }
  }

  // ----- Sections as text

  lemma SectionParses(l: Layout, kind: Kind, items: Items, tokens: seq<string>, flags: seq<string>)
    requires kind != AsNeededKind && GoodItems(items) && GoodLayout(l)
    requires TokensIn(l) == [Keyword(kind), "("] + ItemTokens(items) + [")"]
    requires flags == OpenFlags(kind) + ItemFlags(items, kind) + CloseFlags(kind)
    ensures ParseFrom(Text(l), START) == Some(ParserState(flags, [], ""))
  {
    hide ParseFrom, Text, TokensIn, GoodLayout, ItemTokens, ItemFlags, GoodItems, Keyword, OpenFlags, CloseFlags;
    var script := Section(kind, items, Eof);
    assert Tokens(script) == [Keyword(kind), "("] + ItemTokens(items) + [")"] by {
      assert [")"] + Tokens(Eof) == [")"];
    }
    assert Flags(script) == flags by {
      assert CloseFlags(kind) + Flags(Eof) == CloseFlags(kind);
    }
    ParseLayout(script, l);
  }

  function KindFor(keyword: string): Kind {
    if keyword == "INPUT" then Input
    else if keyword == "GROUP" then Group
    else if keyword == "OUTPUT_FORMAT" then OutputFormat
    else Extern
  }

  lemma KindForKeyword(keyword: string)
    requires keyword in {"INPUT", "GROUP", "OUTPUT_FORMAT", "EXTERN"}
    ensures var kind := KindFor(keyword);
            && Keyword(kind) == keyword && kind != AsNeededKind
            && (kind == OutputFormat <==> keyword == "OUTPUT_FORMAT") && (kind == Extern <==> keyword == "EXTERN")
            && OpenFlags(kind) == (if keyword == "GROUP" then ["--start-group"] else [])
            && CloseFlags(kind) == if keyword == "GROUP" then ["--end-group"] else []
  {
  }

  /** Any layout of `EXTERN ( words )`: the symbols are undefined. */
  lemma ExternText(l: Layout, words: seq<string>)
    requires GoodLayout(l) && PlainWords(words) && TokensIn(l) == ["EXTERN", "("] + words + [")"]
    ensures ParseFrom(Text(l), START) == Some(ParserState(Each("--undefined=", words), [], ""))
  {
    PlainSection(l, "EXTERN", words);
    assert [] + Each("--undefined=", words) + [] == Each("--undefined=", words);
  }

  /** Any layout of `INPUT ( words )`: the libraries are searched for. */
  lemma InputText(l: Layout, words: seq<string>)
    requires GoodLayout(l) && PlainWords(words) && TokensIn(l) == ["INPUT", "("] + words + [")"]
    ensures ParseFrom(Text(l), START) == Some(ParserState(Each("-l:", words), [], ""))
  {
    PlainSection(l, "INPUT", words);
    assert [] + Each("-l:", words) + [] == Each("-l:", words);
  }

  /** Any layout of `GROUP ( words )`: the libraries, between the markers of a group. */
  lemma GroupText(l: Layout, words: seq<string>)
    requires GoodLayout(l) && PlainWords(words) && TokensIn(l) == ["GROUP", "("] + words + [")"]
    ensures ParseFrom(Text(l), START) ==
            Some(ParserState(["--start-group"] + Each("-l:", words) + ["--end-group"], [], ""))
  {
    PlainSection(l, "GROUP", words);
  }

  /** Any layout of `OUTPUT_FORMAT ( words )`: nothing. */
  lemma OutputFormatText(l: Layout, words: seq<string>)
    requires GoodLayout(l) && PlainWords(words) && TokensIn(l) == ["OUTPUT_FORMAT", "("] + words + [")"]
    ensures ParseFrom(Text(l), START) == Some(ParserState([], [], ""))
  {
    var none: seq<string> := [];
    assert none + none + none == none;
    PlainSection(l, "OUTPUT_FORMAT", words);
  }

  lemma PlainSection(l: Layout, keyword: string, words: seq<string>)
    requires keyword in {"INPUT", "GROUP", "OUTPUT_FORMAT", "EXTERN"} && GoodLayout(l) && PlainWords(words)
    requires TokensIn(l) == [keyword, "("] + words + [")"]
    ensures ParseFrom(Text(l), START) ==
            Some(ParserState((if keyword == "GROUP" then ["--start-group"] else []) +
                             (if keyword == "OUTPUT_FORMAT" then []
                              else Each(if keyword == "EXTERN" then "--undefined=" else "-l:", words)) +
                             (if keyword == "GROUP" then ["--end-group"] else []), [], ""))
  {
    hide ParseFrom, Text, TokensIn, GoodLayout, Each, PlainWords, Listed;
    var kind := KindFor(keyword);
    KindForKeyword(keyword);
    hide KindFor, Keyword, OpenFlags, CloseFlags;
    ListedTokens(words, Done);
    ListedFlags(words, Done, kind);
    assert ItemTokens(Done) == [] && ItemFlags(Done, kind) == [];
    hide ItemTokens, ItemFlags;
    var items := Listed(words, Done);
    assert words + [] == words && ItemFlags(items, kind) + [] == ItemFlags(items, kind);
    var flags := OpenFlags(kind) + ItemFlags(items, kind) + CloseFlags(kind);
    SectionParses(l, kind, items, TokensIn(l), flags);
    var own := if kind == OutputFormat then [] else Each(if kind == Extern then "--undefined=" else "-l:", words);
    assert own + [] == own;
  }

  /** Any section with an AS_NEEDED section within it, whose libraries stand between markers of their own. */
  lemma SectionWithin(l: Layout, keyword: string, words: seq<string>, inner: seq<string>, more: seq<string>)
    requires keyword in {"INPUT", "GROUP", "OUTPUT_FORMAT", "EXTERN"} && GoodLayout(l)
    requires PlainWords(words) && PlainWords(inner) && PlainWords(more)
    requires TokensIn(l) ==
             [keyword, "("] + (words + (["AS_NEEDED", "("] + (inner + ([")"] + more)))) + [")"]
    ensures var own := (ws: seq<string>) => if keyword == "OUTPUT_FORMAT" then []
                       else Each(if keyword == "EXTERN" then "--undefined=" else "-l:", ws);
            ParseFrom(Text(l), START) ==
            Some(ParserState((if keyword == "GROUP" then ["--start-group"] else []) +
                             (own(words) +
                              (["--as-needed"] + (Each("-l:", inner) + (["--no-as-needed"] + own(more))))) +
                             (if keyword == "GROUP" then ["--end-group"] else []), [], ""))
  {
    hide ParseFrom, Text, TokensIn, GoodLayout, Each, PlainWords, Listed;
    var kind := KindFor(keyword);
    KindForKeyword(keyword);
    hide KindFor, Keyword, OpenFlags, CloseFlags;
    var within := AsNeeded(Listed(inner, Done), Listed(more, Done));
    var items := Listed(words, within);
    ListedTokens(inner, Done);
    ListedTokens(more, Done);
    ListedTokens(words, within);
    ListedFlags(inner, Done, AsNeededKind);
    ListedFlags(more, Done, kind);
    ListedFlags(words, within, kind);
    assert inner + [] == inner && more + [] == more && Each("-l:", inner) + [] == Each("-l:", inner);
    var own := if kind == OutputFormat then [] else Each(if kind == Extern then "--undefined=" else "-l:", more);
    assert own + [] == own;
    hide ItemTokens, ItemFlags;
    SectionParses(l, kind, items, TokensIn(l), OpenFlags(kind) + ItemFlags(items, kind) + CloseFlags(kind));
  }

  // ----- A text

  function After(token: string, more: Layout): Layout {
    Next([Blank(' ')], token, more)
  }

  lemma AfterText(token: string, more: Layout)
    requires GoodLayout(more) && (IsWord(token) || token == "(" || token == ")")
    requires more.Next? ==> more.gap == [Blank(' ')]
    ensures GoodLayout(After(token, more)) && Text(After(token, more)) == " " + token + Text(more)
    ensures TokensIn(After(token, more)) == [token] + TokensIn(more)
  {
    OneBlank();
    hide IsWord, GapText, HasBlank, GoodSpacing;
  }

  lemma OneBlank()
    ensures GapText([Blank(' ')]) == " " && HasBlank([Blank(' ')]) && GoodSpacing(Blank(' '))
  {
    assert [Blank(' ')][1..] == [] && Blank(' ') in [Blank(' ')];
  }

  lemma FirstText(token: string, more: Layout)
    requires GoodLayout(more) && IsWord(token) && more.Next? && more.gap == [Blank(' ')]
    ensures GoodLayout(Next([], token, more)) && Text(Next([], token, more)) == token + Text(more)
    ensures TokensIn(Next([], token, more)) == [token] + TokensIn(more)
  {
    hide IsWord;
    assert GapText([]) == "" && Blank(' ') in [Blank(' ')];
  }

  lemma NothingLaidOut()
    ensures GoodLayout(Last([])) && Text(Last([])) == "" && TokensIn(Last([])) == []
  {
  }

  lemma KeywordsAreWords()
    ensures IsWord("GROUP") && IsWord("AS_NEEDED")
  {
  }

  /** The script of ParseLinkerScript's own description, for any file names. */
  lemma DescribedScript(a: string, b: string, c: string)
    requires forall w | w in {a, b, c} :: IsWord(w) && w != "AS_NEEDED"
    ensures ParseFrom("GROUP ( " + a + " " + b + " AS_NEEDED ( " + c + " ) )", START) ==
            Some(ParserState(["--start-group", "-l:" + a, "-l:" + b, "--as-needed", "-l:" + c, "--no-as-needed",
                              "--end-group"], [], ""))
  {
    hide ParseFrom, IsWord;
    var l := DescribedLayout(a, b, c);
    assert PlainWords([a, b]) && PlainWords([c]) && PlainWords([]) by { WordsArePlain({a, b, c}); }
    assert ["GROUP", "("] + ([a, b] + (["AS_NEEDED", "("] + ([c] + ([")"] + [])))) + [")"] ==
           ["GROUP", "(", a, b, "AS_NEEDED", "(", c, ")", ")"];
    SectionWithin(l, "GROUP", [a, b], [c], []);
    var libs: seq<string>, needed: seq<string>, none: seq<string> := ["-l:" + a, "-l:" + b], ["-l:" + c], [];
    assert Each("-l:", [a, b]) == libs && Each("-l:", [c]) == needed && Each("-l:", []) == none;
    assert ["--start-group"] + (libs + (["--as-needed"] + (needed + (["--no-as-needed"] + none)))) + ["--end-group"] ==
           ["--start-group", "-l:" + a, "-l:" + b, "--as-needed", "-l:" + c, "--no-as-needed", "--end-group"];
  }

  lemma WordsArePlain(words: set<string>)
    requires forall w | w in words :: IsWord(w)
    ensures forall w | w in words :: w != "" && w != ")"
  {
    var close := ")";
    assert close[0] in close;
  }

  lemma DescribedLayout(a: string, b: string, c: string) returns (l: Layout)
    requires IsWord(a) && IsWord(b) && IsWord(c)
    ensures GoodLayout(l) && Text(l) == "GROUP ( " + a + " " + b + " AS_NEEDED ( " + c + " ) )"
    ensures TokensIn(l) == ["GROUP", "(", a, b, "AS_NEEDED", "(", c, ")", ")"]
  {
    KeywordsAreWords();
    NothingLaidOut();
    hide IsWord, Text, TokensIn, GoodLayout;
    var l1 := After(")", Last([]));
    var l2 := After(")", l1);
    var l3 := After(c, l2);
    var l4 := After("(", l3);
    var l5 := After("AS_NEEDED", l4);
    var l6 := After(b, l5);
    var l7 := After(a, l6);
    var l8 := After("(", l7);
    AfterText(")", Last([]));
    AfterText(")", l1);
    AfterText(c, l2);
    AfterText("(", l3);
    AfterText("AS_NEEDED", l4);
    AfterText(b, l5);
    AfterText(a, l6);
    AfterText("(", l7);
    l := Next([], "GROUP", l8);
    FirstText("GROUP", l8);
    assert Text(l5) == " AS_NEEDED ( " + c + " ) )";
    assert Text(l) == "GROUP ( " + a + " " + b + " AS_NEEDED ( " + c + " ) )";
  }
}
