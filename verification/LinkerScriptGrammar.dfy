/**
 Linker scripts as trees: the flags a script stands for, the tokens and texts that spell it, and the
 theorems that the parser reads every spelling as the script's flags and accepts nothing else.
 */
module LinkerScriptGrammar {
  import opened LinkerScript
  import opened Options

  // ----- Scripts

  /** What a section holds: words, and AS_NEEDED sections nested to any depth. */
  datatype Items = Done | Word(token: string, more: Items) | AsNeeded(inner: Items, more: Items)

  datatype Script = Eof | Semicolon(rest: Script) | Section(kind: Kind, items: Items, rest: Script)

  predicate GoodWord(token: string) {
    token != "" && token != ")" && token != "AS_NEEDED"
  }

  predicate GoodItems(items: Items) {
    match items
    case Done => true
    case Word(token, more) => GoodWord(token) && GoodItems(more)
    case AsNeeded(inner, more) => GoodItems(inner) && GoodItems(more)
  }

  /** AS_NEEDED sections occur only inside others. */
  predicate GoodScript(script: Script) {
    match script
    case Eof => true
    case Semicolon(rest) => GoodScript(rest)
    case Section(kind, items, rest) => kind != AsNeededKind && GoodItems(items) && GoodScript(rest)
  }

  // ----- What a script means

  function ItemFlags(items: Items, kind: Kind): seq<string> {
    match items
    case Done => []
    case Word(token, more) => WordFlags(kind, token) + ItemFlags(more, kind)
    case AsNeeded(inner, more) =>
      ["--as-needed"] + (ItemFlags(inner, AsNeededKind) + (["--no-as-needed"] + ItemFlags(more, kind)))
  }

  function Flags(script: Script): seq<string> {
    match script
    case Eof => []
    case Semicolon(rest) => Flags(rest)
    case Section(kind, items, rest) => OpenFlags(kind) + (ItemFlags(items, kind) + (CloseFlags(kind) + Flags(rest)))
  }

  // ----- How a script is written, token by token

  function Keyword(kind: Kind): string {
    match kind
    case Input => "INPUT"
    case Group => "GROUP"
    case OutputFormat => "OUTPUT_FORMAT"
    case Extern => "EXTERN"
    case AsNeededKind => "AS_NEEDED"
  }

  function ItemTokens(items: Items): seq<string> {
    match items
    case Done => []
    case Word(token, more) => [token] + ItemTokens(more)
    case AsNeeded(inner, more) => ["AS_NEEDED", "("] + (ItemTokens(inner) + ([")"] + ItemTokens(more)))
  }

  function Tokens(script: Script): seq<string> {
    match script
    case Eof => []
    case Semicolon(rest) => [";"] + Tokens(rest)
    case Section(kind, items, rest) => [Keyword(kind), "("] + (ItemTokens(items) + ([")"] + Tokens(rest)))
  }

  // ----- The parser reads every script's tokens as its flags

  lemma {:induction false} RunConcat(st: ParserState, a: seq<string>, b: seq<string>)
    ensures RunTokens(st, a + b) ==
            if RunTokens(st, a).None? then None else RunTokens(RunTokens(st, a).value, b)
    decreases |a|
  {
    if a == [] {
      assert a + b == b;
    } else {
      assert (a + b)[0] == a[0] && (a + b)[1..] == a[1..] + b;
      match Step(st, a[0])
      case None =>
      case Some(next) => RunConcat(next, a[1..], b);
    }
  }

  lemma RunOne(st: ParserState, token: string, rest: seq<string>)
    ensures RunTokens(st, [token] + rest) ==
            if Step(st, token).None? then None else RunTokens(Step(st, token).value, rest)
  {
    assert ([token] + rest)[1..] == rest;
  }

  /** Inside a section, items leave the stack alone and add their flags. */
  lemma {:induction false} RunItems(ret: seq<string>, stack: seq<Kind>, items: Items, rest: seq<string>)
    requires GoodItems(items) && stack != []
    ensures RunTokens(ParserState(ret, stack, ""), ItemTokens(items) + rest) ==
            RunTokens(ParserState(ret + ItemFlags(items, stack[|stack| - 1]), stack, ""), rest)
    decreases items
  {
    hide RunTokens, ItemTokens, ItemFlags;
    var top := stack[|stack| - 1];
    var st := ParserState(ret, stack, "");
    match items
    case Done =>
      DoneParts(ret, top, rest);
    case Word(token, more) =>
      WordParts(ret, token, more, top, rest);
      RunOne(st, token, ItemTokens(more) + rest);
      RunItems(ret + WordFlags(top, token), stack, more, rest);
    case AsNeeded(inner, more) =>
      var after := [")"] + (ItemTokens(more) + rest);
      var within := stack + [AsNeededKind];
      var ret1 := ret + ["--as-needed"];
      var ret2 := ret1 + ItemFlags(inner, AsNeededKind);
      AsNeededParts(ret, inner, more, top, rest);
      RunOne(st, "AS_NEEDED", ["("] + (ItemTokens(inner) + after));
      RunOne(ParserState(ret1, within, "("), "(", ItemTokens(inner) + after);
      RunItems(ret1, within, inner, after);
      RunOne(ParserState(ret2, within, ""), ")", ItemTokens(more) + rest);
      assert within[..|within| - 1] == stack;
      RunItems(ret2 + ["--no-as-needed"], stack, more, rest);
  }

  lemma DoneParts(ret: seq<string>, kind: Kind, rest: seq<string>)
    ensures ItemTokens(Done) + rest == rest && ret + ItemFlags(Done, kind) == ret
  {
  }

  lemma WordParts(ret: seq<string>, token: string, more: Items, kind: Kind, rest: seq<string>)
    ensures ItemTokens(Word(token, more)) + rest == [token] + (ItemTokens(more) + rest)
    ensures ret + ItemFlags(Word(token, more), kind) == ret + WordFlags(kind, token) + ItemFlags(more, kind)
  {
  }

  lemma AsNeededParts(ret: seq<string>, inner: Items, more: Items, kind: Kind, rest: seq<string>)
    ensures ItemTokens(AsNeeded(inner, more)) + rest ==
            ["AS_NEEDED"] + (["("] + (ItemTokens(inner) + ([")"] + (ItemTokens(more) + rest))))
    ensures ret + ItemFlags(AsNeeded(inner, more), kind) ==
            ret + ["--as-needed"] + ItemFlags(inner, AsNeededKind) + ["--no-as-needed"] + ItemFlags(more, kind)
  {
  }

  /** From outside any section, a script's tokens are accepted and yield exactly its flags. */
  lemma {:induction false} RunScript(ret: seq<string>, script: Script)
    requires GoodScript(script)
    ensures RunTokens(ParserState(ret, [], ""), Tokens(script)) == Some(ParserState(ret + Flags(script), [], ""))
    decreases script
  {
    hide RunTokens, ItemTokens, ItemFlags, Tokens, Flags;
    var st := ParserState(ret, [], "");
    match script
    case Eof =>
      EofParts(ret);
      RunNone(st);
    case Semicolon(rest) =>
      SemicolonParts(rest);
      RunOne(st, ";", Tokens(rest));
      RunScript(ret, rest);
    case Section(kind, items, rest) =>
      var after := [")"] + Tokens(rest);
      var ret1 := ret + OpenFlags(kind);
      var ret2 := ret1 + ItemFlags(items, kind);
      SectionParts(ret, kind, items, rest);
      RunOne(st, Keyword(kind), ["("] + (ItemTokens(items) + after));
      RunOne(ParserState(ret1, [kind], "("), "(", ItemTokens(items) + after);
      RunItems(ret1, [kind], items, after);
      RunOne(ParserState(ret2, [kind], ""), ")", Tokens(rest));
      assert [kind][..0] == [];
      RunScript(ret2 + CloseFlags(kind), rest);
  }

  lemma EofParts(ret: seq<string>)
    ensures Tokens(Eof) == [] && ret + Flags(Eof) == ret
  {
  }

  lemma SemicolonParts(rest: Script)
    ensures Tokens(Semicolon(rest)) == [";"] + Tokens(rest) && Flags(Semicolon(rest)) == Flags(rest)
  {
  }

  lemma SectionParts(ret: seq<string>, kind: Kind, items: Items, rest: Script)
    ensures Tokens(Section(kind, items, rest)) == [Keyword(kind)] +
            (["("] + (ItemTokens(items) + ([")"] + Tokens(rest))))
    ensures ret + Flags(Section(kind, items, rest)) ==
            ret + OpenFlags(kind) + ItemFlags(items, kind) + CloseFlags(kind) + Flags(rest)
  {
    hide ItemTokens, ItemFlags, OpenFlags, CloseFlags, Keyword;
  }

  lemma RunNone(st: ParserState)
    ensures RunTokens(st, []) == Some(st)
  {
  }

  // ----- The parser accepts only scripts, and their beginnings

  /** What is missing for all open sections to be closed. */
  function Closing(st: ParserState): seq<string> {
    (if st.expected != "" then [st.expected] else []) + seq(|st.stack|, _ => ")")
  }

  predicate GoodTokens(tokens: seq<string>) {
    "" !in tokens
  }

  /** A run that ends outside all sections has, after its current section's items, that section's ")". */
  lemma {:induction false} SplitItems(ret: seq<string>, stack: seq<Kind>, tokens: seq<string>)
    returns (items: Items, rest: seq<string>)
    requires stack != [] && GoodTokens(tokens)
    requires RunTokens(ParserState(ret, stack, ""), tokens).Some?
    requires RunTokens(ParserState(ret, stack, ""), tokens).value.stack == []
    ensures GoodItems(items) && GoodTokens(rest) && |rest| < |tokens|
    ensures tokens == ItemTokens(items) + ([")"] + rest)
    decreases |tokens|
  {
    hide ItemFlags, WordFlags, Tokens, Flags;
    var t, tail := tokens[0], tokens[1..];
    assert tokens == [t] + tail && t in tokens;
    if t == ")" {
      items, rest := Done, tail;
    } else if t == "AS_NEEDED" {
      var ret1, within := ret + ["--as-needed"], stack + [AsNeededKind];
      assert tail != [] && tail[0] == "(" && tail == ["("] + tail[1..];
      var inner, rest1 := SplitItems(ret1, within, tail[1..]);
      var ret2 := ret1 + ItemFlags(inner, AsNeededKind);
      RunItems(ret1, within, inner, [")"] + rest1);
      RunOne(ParserState(ret2, within, ""), ")", rest1);
      assert within[..|within| - 1] == stack;
      var more, rest2 := SplitItems(ret2 + ["--no-as-needed"], stack, rest1);
      items, rest := AsNeeded(inner, more), rest2;
      AsNeededTokens(inner, more, rest2);
    } else {
      var more, rest1 := SplitItems(ret + WordFlags(stack[|stack| - 1], t), stack, tail);
      items, rest := Word(t, more), rest1;
    }
  }

  lemma AsNeededTokens(inner: Items, more: Items, rest: seq<string>)
    ensures ItemTokens(AsNeeded(inner, more)) + ([")"] + rest) ==
            ["AS_NEEDED"] + (["("] + (ItemTokens(inner) + ([")"] + (ItemTokens(more) + ([")"] + rest)))))
  {
  }

  /** A run from outside all sections that ends outside all sections has read the tokens of a script. */
  lemma {:induction false} ToScript(ret: seq<string>, tokens: seq<string>) returns (script: Script)
    requires GoodTokens(tokens) && RunTokens(ParserState(ret, [], ""), tokens).Some?
    requires RunTokens(ParserState(ret, [], ""), tokens).value.stack == []
    ensures GoodScript(script) && tokens == Tokens(script)
    decreases |tokens|
  {
    hide ItemFlags, ItemTokens, Flags, GoodItems, OpenFlags, CloseFlags;
    if tokens == [] {
      script := Eof;
    } else {
      var t, tail := tokens[0], tokens[1..];
      assert tokens == [t] + tail;
      if t == ";" {
        var rest := ToScript(ret, tail);
        script := Semicolon(rest);
      } else {
        var kind := KindOf(t).value;
        var ret1 := ret + OpenFlags(kind);
        assert tail != [] && tail[0] == "(" && tail == ["("] + tail[1..];
        RunOne(ParserState(ret1, [kind], "("), "(", tail[1..]);
        var items, after := SplitItems(ret1, [kind], tail[1..]);
        RunItems(ret1, [kind], items, [")"] + after);
        var ret2 := ret1 + ItemFlags(items, kind);
        RunOne(ParserState(ret2, [kind], ""), ")", after);
        var rest := ToScript(ret2 + CloseFlags(kind), after);
        script := Section(kind, items, rest);
      }
    }
  }

  /** A parenthesis is expected only directly after a section was pending. */
  predicate Sound(st: ParserState) {
    st.expected == "" || (st.expected == "(" && st.stack != [])
  }

  lemma {:induction false} RunSound(st: ParserState, tokens: seq<string>)
    requires Sound(st) && RunTokens(st, tokens).Some?
    ensures Sound(RunTokens(st, tokens).value)
    decreases |tokens|
  {
    if tokens != [] {
      RunSound(Step(st, tokens[0]).value, tokens[1..]);
    }
  }

  lemma {:induction false} RunParens(ret: seq<string>, stack: seq<Kind>)
    ensures RunTokens(ParserState(ret, stack, ""), seq(|stack|, _ => ")")).Some?
    ensures RunTokens(ParserState(ret, stack, ""), seq(|stack|, _ => ")")).value.stack == []
    decreases |stack|
  {
    if stack != [] {
      var parens := seq(|stack|, _ => ")");
      var below := stack[..|stack| - 1];
      assert parens[1..] == seq(|below|, _ => ")");
      RunParens(ret + CloseFlags(stack[|stack| - 1]), below);
    }
  }

  /** The parser accepts exactly the token sequences that begin a script; it never asks for the end. */
  lemma AcceptsIff(tokens: seq<string>)
    requires GoodTokens(tokens)
    ensures RunTokens(START, tokens).Some? <==>
            exists script, missing :: GoodScript(script) && Tokens(script) == tokens + missing
  {
    if RunTokens(START, tokens).Some? {
      RunSound(START, tokens);
      var st := RunTokens(START, tokens).value;
      RunConcat(START, tokens, Closing(st));
      var parens := seq(|st.stack|, _ => ")");
      RunParens(st.ret, st.stack);
      if st.expected != "" {
        RunOne(st, "(", parens);
      } else {
        assert [] + parens == parens;
      }
      var script := ToScript([], tokens + Closing(st));
    }
    if script, missing :| GoodScript(script) && Tokens(script) == tokens + missing {
      RunScript([], script);
      RunConcat(START, tokens, missing);
    }
  }

  /** It ends outside every section exactly when it has read a whole script, and its flags are that script's. */
  lemma CompleteIff(tokens: seq<string>, ret: seq<string>)
    requires GoodTokens(tokens)
    ensures RunTokens(START, tokens) == Some(ParserState(ret, [], "")) <==>
            exists script :: GoodScript(script) && Tokens(script) == tokens && Flags(script) == ret
  {
    if RunTokens(START, tokens) == Some(ParserState(ret, [], "")) {
      var script := ToScript([], tokens);
      RunScript([], script);
      assert [] + Flags(script) == Flags(script);
    }
    if script :| GoodScript(script) && Tokens(script) == tokens && Flags(script) == ret {
      RunScript([], script);
      assert [] + Flags(script) == Flags(script);
    }
  }

  // ----- Flags mirror the stack

  /**
   * The group and as-needed flags still open after `flags`; None if one is closed that is not the innermost open one.
   */
  function StillOpen(flags: seq<string>, pending: seq<Kind>): Option<seq<Kind>>
    decreases |flags|
  {
    if flags == [] then Some(pending)
    else if flags[0] == "--start-group" then StillOpen(flags[1..], pending + [Group])
    else if flags[0] == "--as-needed" then StillOpen(flags[1..], pending + [AsNeededKind])
    else if flags[0] == "--end-group" || flags[0] == "--no-as-needed" then
      var kind := if flags[0] == "--end-group" then Group else AsNeededKind;
      if pending != [] && pending[|pending| - 1] == kind then StillOpen(flags[1..], pending[..|pending| - 1]) else None
    else StillOpen(flags[1..], pending)
  }

  /** The sections of the stack that are written as a pair of flags. */
  function Flagged(stack: seq<Kind>): seq<Kind> {
    if stack == [] then []
    else
      var top := stack[|stack| - 1];
      Flagged(stack[..|stack| - 1]) + if top == Group || top == AsNeededKind then [top] else []
  }

  lemma {:induction false} StillOpenConcat(a: seq<string>, b: seq<string>, pending: seq<Kind>)
    ensures StillOpen(a + b, pending) ==
            if StillOpen(a, pending).None? then None else StillOpen(b, StillOpen(a, pending).value)
    decreases |a|
  {
    if a == [] {
      assert a + b == b;
    } else {
      assert (a + b)[0] == a[0] && (a + b)[1..] == a[1..] + b;
      var kind := if a[0] == "--end-group" then Group else AsNeededKind;
      if a[0] == "--start-group" {
        StillOpenConcat(a[1..], b, pending + [Group]);
      } else if a[0] == "--as-needed" {
        StillOpenConcat(a[1..], b, pending + [AsNeededKind]);
      } else if a[0] == "--end-group" || a[0] == "--no-as-needed" {
        if pending != [] && pending[|pending| - 1] == kind {
          StillOpenConcat(a[1..], b, pending[..|pending| - 1]);
        }
      } else {
        StillOpenConcat(a[1..], b, pending);
      }
    }
  }

  /** The flags collected so far have open exactly the flagged sections of the stack. */
  predicate Mirrors(st: ParserState) {
    StillOpen(st.ret, []) == Some(Flagged(st.stack))
  }

  lemma WordIsNoMarker(kind: Kind, token: string, pending: seq<Kind>)
    ensures StillOpen(WordFlags(kind, token), pending) == Some(pending)
  {
    var flags := WordFlags(kind, token);
    if flags != [] {
      assert flags[0][1] == 'l' || flags[0][2] == 'u';
      assert "--start-group"[2] == 's' && "--end-group"[2] == 'e' && "--as-needed"[2] == 'a' &&
          "--no-as-needed"[2] == 'n';
      assert flags[1..] == [];
    }
  }

  function FlaggedOne(kind: Kind): seq<Kind> {
    if kind == Group || kind == AsNeededKind then [kind] else []
  }

  lemma FlaggedPush(stack: seq<Kind>, kind: Kind)
    ensures Flagged(stack + [kind]) == Flagged(stack) + FlaggedOne(kind)
  {
    assert (stack + [kind])[..|stack|] == stack;
  }

  lemma FlaggedTop(stack: seq<Kind>)
    requires stack != []
    ensures Flagged(stack) == Flagged(stack[..|stack| - 1]) + FlaggedOne(stack[|stack| - 1])
  {
  }

  lemma OpenIsFlagged(kind: Kind, pending: seq<Kind>)
    ensures StillOpen(OpenFlags(kind), pending) == Some(pending + FlaggedOne(kind))
  {
    assert pending + [] == pending;
    var flags := OpenFlags(kind);
    if flags != [] { assert flags[1..] == []; }
  }

  lemma CloseIsFlagged(kind: Kind, pending: seq<Kind>)
    ensures StillOpen(CloseFlags(kind), pending + FlaggedOne(kind)) == Some(pending)
  {
    assert pending + [] == pending && (pending + [kind])[..|pending|] == pending;
    var flags := CloseFlags(kind);
    if flags != [] { assert flags[1..] == []; }
  }

  /** Every token keeps the flags mirroring the stack. */
  lemma StepMirrors(st: ParserState, token: string)
    requires Mirrors(st) && Step(st, token).Some?
    ensures Mirrors(Step(st, token).value)
  {
    hide StillOpen, Flagged, FlaggedOne, OpenFlags, CloseFlags, WordFlags;
    var flagged := Flagged(st.stack);
    if st.expected != "" || (st.stack == [] && token == ";") {
    } else if st.stack == [] {
      var kind := KindOf(token).value;
      assert [] + [kind] == [kind];
      FlaggedPush([], kind);
      StillOpenConcat(st.ret, OpenFlags(kind), []);
      OpenIsFlagged(kind, flagged);
    } else {
      var top := st.stack[|st.stack| - 1];
      if token == ")" {
        FlaggedTop(st.stack);
        StillOpenConcat(st.ret, CloseFlags(top), []);
        CloseIsFlagged(top, Flagged(st.stack[..|st.stack| - 1]));
      } else if token == "AS_NEEDED" {
        AsNeededOpens();
        FlaggedPush(st.stack, AsNeededKind);
        StillOpenConcat(st.ret, OpenFlags(AsNeededKind), []);
        OpenIsFlagged(AsNeededKind, flagged);
      } else {
        StillOpenConcat(st.ret, WordFlags(top, token), []);
        WordIsNoMarker(top, token, flagged);
      }
    }
  }

  lemma AsNeededOpens()
    ensures OpenFlags(AsNeededKind) == ["--as-needed"]
  {
  }

  lemma {:induction false} RunMirrors(st: ParserState, tokens: seq<string>)
    requires Mirrors(st) && RunTokens(st, tokens).Some?
    ensures Mirrors(RunTokens(st, tokens).value)
    decreases |tokens|
  {
    if tokens != [] {
      StepMirrors(st, tokens[0]);
      RunMirrors(Step(st, tokens[0]).value, tokens[1..]);
    }
  }

  /** A script's flags are properly nested, whatever the script. */
  lemma ScriptFlagsNest(script: Script)
    requires GoodScript(script)
    ensures StillOpen(Flags(script), []) == Some([])
  {
    RunScript([], script);
    RunMirrors(START, Tokens(script));
    assert [] + Flags(script) == Flags(script);
  }

  // ----- Which accepted texts have properly nested flags

  /**
   * The tokens of whole sections, and perhaps of one more that is not closed: no GROUP, and with no AS_NEEDED open in
   * it.
   */
  ghost predicate EndsNested(tokens: seq<string>) {
    || (exists script :: GoodScript(script) && tokens == Tokens(script))
    || (exists script, kind :: Unflagged(kind) && GoodScript(script) && tokens == Tokens(script) + [Keyword(kind)])
    || (exists script, kind, items ::
        Unflagged(kind) && GoodScript(script) && GoodItems(items) && tokens == Opened(script, kind, items))
  }

  /** The kinds of section that leave no flag open. */
  predicate Unflagged(kind: Kind) {
    kind == Input || kind == OutputFormat || kind == Extern
  }

  /** A script followed by a section that is not closed. */
  function Opened(script: Script, kind: Kind, items: Items): seq<string> {
    Tokens(script) + ([Keyword(kind)] + (["("] + ItemTokens(items)))
  }

  /** Only the lowest section can be another than AS_NEEDED. */
  predicate WellStacked(st: ParserState) {
    && (forall i | 0 < i < |st.stack| :: st.stack[i] == AsNeededKind)
    && (st.stack != [] ==> st.stack[0] != AsNeededKind)
    && Sound(st)
  }

  lemma {:induction false} RunStacks(st: ParserState, tokens: seq<string>)
    requires WellStacked(st) && RunTokens(st, tokens).Some?
    ensures WellStacked(RunTokens(st, tokens).value)
    decreases |tokens|
  {
    if tokens != [] {
      RunStacks(Step(st, tokens[0]).value, tokens[1..]);
    }
  }

  lemma {:induction false} FlaggedNone(stack: seq<Kind>)
    ensures Flagged(stack) == [] <==> forall i | 0 <= i < |stack| :: stack[i] != Group && stack[i] != AsNeededKind
    decreases |stack|
  {
    if stack != [] {
      var front := stack[..|stack| - 1];
      FlaggedNone(front);
      assert forall i | 0 <= i < |front| :: front[i] == stack[i];
    }
  }

  /** The state after an unclosed section. */
  lemma RunOpened(script: Script, kind: Kind, items: Items)
    requires GoodScript(script) && GoodItems(items) && kind != AsNeededKind
    ensures RunTokens(START, Tokens(script) + [Keyword(kind)]) ==
            Some(ParserState(Flags(script) + OpenFlags(kind), [kind], "("))
    ensures RunTokens(START, Opened(script, kind, items)) ==
            Some(ParserState(Flags(script) + OpenFlags(kind) + ItemFlags(items, kind), [kind], ""))
  {
    hide RunTokens, Tokens, Flags, ItemTokens, ItemFlags, OpenFlags;
    var st, pending := ParserState(Flags(script), [], ""), ParserState(Flags(script) + OpenFlags(kind), [kind], "(");
    RunScript([], script);
    assert [] + Flags(script) == Flags(script);
    RunConcat(START, Tokens(script), [Keyword(kind)]);
    assert [Keyword(kind)] + [] == [Keyword(kind)];
    RunOne(st, Keyword(kind), []);
    RunNone(pending);
    RunConcat(START, Tokens(script), [Keyword(kind)] + (["("] + ItemTokens(items)));
    RunOne(st, Keyword(kind), ["("] + ItemTokens(items));
    RunOne(pending, "(", ItemTokens(items));
    RunItems(pending.ret, [kind], items, []);
    assert ItemTokens(items) + [] == ItemTokens(items);
    RunNone(ParserState(pending.ret + ItemFlags(items, kind), [kind], ""));
  }

  /** A script whose last token closes a section ends with that section. */
  lemma {:induction false} LastSection(script: Script, tokens: seq<string>)
    returns (front: Script, kind: Kind, items: Items)
    requires GoodScript(script) && Tokens(script) == tokens + [")"]
    ensures GoodScript(front) && GoodItems(items) && kind != AsNeededKind && tokens == Opened(front, kind, items)
    decreases script
  {
    hide ItemTokens, GoodItems, Opened;
    match script
    case Eof => EofParts([]);
    case Semicolon(rest) =>
      SemicolonParts(rest);
      var less := BeforeLast([";"], Tokens(rest), tokens);
      hide Tokens;
      front, kind, items := LastSection(rest, less);
      LongerBy(front, kind, items);
      front := Semicolon(front);
    case Section(k, inner, rest) =>
      var opening := [Keyword(k)] + (["("] + ItemTokens(inner));
      SectionParts([], k, inner, rest);
      assert Tokens(script) == opening + [")"] + Tokens(rest);
      NoTokensOnlyInEof(rest);
      hide Tokens, Keyword;
      if rest == Eof {
        front, kind, items := Eof, k, inner;
        OnlySection(k, inner, tokens);
      } else {
        var less := BeforeLast(opening + [")"], Tokens(rest), tokens);
        front, kind, items := LastSection(rest, less);
        LongerFront(k, inner, front, kind, items, less, tokens);
        front := Section(k, inner, front);
      }
  }

  /** What comes before the last token when something stands in front. */
  lemma BeforeLast(front: seq<string>, rest: seq<string>, tokens: seq<string>) returns (less: seq<string>)
    requires front + rest == tokens + [")"] && (rest != [] || front == [";"])
    ensures rest == less + [")"] && tokens == front + less
  {
    var all := front + rest;
    assert all[|all| - 1] == ")";
    less := tokens[|front|..];
    assert rest == all[|front|..];
    assert tokens == all[..|all| - 1];
  }

  lemma LongerBy(front: Script, kind: Kind, items: Items)
    ensures Opened(Semicolon(front), kind, items) == [";"] + Opened(front, kind, items)
  {
    hide ItemTokens, Keyword;
  }

  lemma OnlySection(kind: Kind, items: Items, tokens: seq<string>)
    requires [Keyword(kind)] + (["("] + ItemTokens(items)) + [")"] + [] == tokens + [")"]
    ensures tokens == Opened(Eof, kind, items)
  {
    hide ItemTokens, Keyword;
    var all := [Keyword(kind)] + (["("] + ItemTokens(items)) + [")"] + [];
    assert tokens == all[..|all| - 1] == [Keyword(kind)] + (["("] + ItemTokens(items));
  }

  lemma NoTokensOnlyInEof(script: Script)
    ensures Tokens(script) == [] <==> script == Eof
  {
  }

  lemma LongerFront(k: Kind, inner: Items, front: Script, kind: Kind, items: Items, less: seq<string>,
                    tokens: seq<string>)
    requires less == Opened(front, kind, items)
    requires tokens == [Keyword(k)] + (["("] + ItemTokens(inner)) + [")"] + less
    ensures tokens == Opened(Section(k, inner, front), kind, items)
  {
    hide ItemTokens, Keyword, Tokens;
    SectionParts([], k, inner, front);
    Regroup([Keyword(k)], ItemTokens(inner), Tokens(front), [Keyword(kind)] + (["("] + ItemTokens(items)));
  }

  lemma Regroup(keyword: seq<string>, inner: seq<string>, front: seq<string>, last: seq<string>)
    ensures keyword + (["("] + inner) + [")"] + (front + last) == keyword + (["("] + (inner + ([")"] + front))) + last
  {
  }

  /**
   * The flags of accepted tokens are properly nested exactly when no group and no AS_NEEDED is left open by the tokens.
   */
  lemma FlagsNestIff(tokens: seq<string>)
    requires GoodTokens(tokens) && RunTokens(START, tokens).Some?
    ensures StillOpen(RunTokens(START, tokens).value.ret, []) == Some([]) <==> EndsNested(tokens)
  {
    hide RunTokens, StillOpen, Flagged;
    var st := RunTokens(START, tokens).value;
    StartMirrors();
    RunMirrors(START, tokens);
    RunStacks(START, tokens);
    FlaggedNone(st.stack);
    if Flagged(st.stack) == [] {
      NestedEnds(tokens, st);
    }
    if EndsNested(tokens) {
      EndsInside(tokens);
    }
  }

  lemma StartMirrors()
    ensures Mirrors(START) && WellStacked(START)
  {
  }

  /** Such tokens leave no section open, or one that leaves no flag open. */
  lemma EndsInside(tokens: seq<string>)
    requires EndsNested(tokens)
    ensures RunTokens(START, tokens).Some?
    ensures forall i | 0 <= i < |RunTokens(START, tokens).value.stack| ::
            Unflagged(RunTokens(START, tokens).value.stack[i])
  {
    hide RunTokens, Tokens, Opened, Keyword;
    if script :| GoodScript(script) && tokens == Tokens(script) {
      RunScript([], script);
    } else if script, kind :| Unflagged(kind) && GoodScript(script) && tokens == Tokens(script) + [Keyword(kind)] {
      RunOpened(script, kind, Done);
    } else {
      var script, kind, items :| Unflagged(kind) && GoodScript(script) && GoodItems(items) &&
          tokens == Opened(script, kind, items);
      RunOpened(script, kind, items);
    }
  }

  lemma SecondSection(stack: seq<Kind>)
    requires forall i | 0 < i < |stack| :: stack[i] == AsNeededKind
    ensures |stack| <= 1 || stack[1] == AsNeededKind
  {
  }

  lemma NestedEnds(tokens: seq<string>, st: ParserState)
    requires GoodTokens(tokens) && RunTokens(START, tokens) == Some(st) && WellStacked(st)
    requires forall i | 0 <= i < |st.stack| :: st.stack[i] != Group && st.stack[i] != AsNeededKind
    ensures EndsNested(tokens)
  {
    hide RunTokens, Tokens, Opened, Keyword, Flags, ItemFlags, OpenFlags;
    SecondSection(st.stack);
    if st.stack == [] {
      var script := ToScript([], tokens);
    } else if st.expected == "" {
      RunConcat(START, tokens, [")"]);
      assert [")"] + [] == [")"];
      RunOne(st, ")", []);
      RunNone(Step(st, ")").value);
      var script := ToScript([], tokens + [")"]);
      var front, kind, items := LastSection(script, tokens);
      RunOpened(front, kind, items);
      assert Unflagged(kind);
    } else {
      var script, kind := LastKeyword(tokens, st);
      RunOpened(script, kind, Done);
      assert Unflagged(kind);
    }
  }

  /** Waiting for the parenthesis of an outermost section, the last token was its keyword, after whole sections. */
  lemma LastKeyword(tokens: seq<string>, st: ParserState) returns (script: Script, kind: Kind)
    requires GoodTokens(tokens) && RunTokens(START, tokens) == Some(st) && |st.stack| == 1 && st.expected != ""
    ensures GoodScript(script) && kind != AsNeededKind && tokens == Tokens(script) + [Keyword(kind)]
  {
    hide RunTokens, Tokens, Flags;
    if tokens == [] {
      RunNone(START);
    }
    var front, t := tokens[..|tokens| - 1], tokens[|tokens| - 1];
    assert tokens == front + [t];
    RunConcat(START, front, [t]);
    var before := RunTokens(START, front).value;
    assert [t] + [] == [t];
    RunOne(before, t, []);
    RunNone(Step(before, t).value);
    RunStacks(START, front);
    script := ToScript([], front);
    kind := KindOf(t).value;
  }
}
