/** Linker scripts: the tokenizer, the stack parser, and what they do to written-out scripts. */
module LinkerScript {
  import opened Options

  // ----- Tokens

  predicate IsBlank(c: char) {
    c == ' ' || c == '\t' || c == '\n'
  }

  predicate IsParen(c: char) {
    c == '(' || c == ')'
  }

  predicate EndsWith(s: string, t: string) {
    |t| <= |s| && s[|s| - |t|..] == t
  }

  /** What follows the first terminator read, given that `read` has been read already. */
  function AfterComment(rest: string, read: string, terminator: string): (r: Option<string>)
    ensures r.Some? ==> |r.value| < |rest| && r.value == rest[|rest| - |r.value|..]
  {
    if rest == "" then None
    else if EndsWith(read + [rest[0]], terminator) then Some(rest[1..])
    else AfterComment(rest[1..], read + [rest[0]], terminator)
  }

  /**
   * The next token of `rest`, with `token` collected so far, and what is left: None on an open comment, "" at the end.
   */
  function Scan(rest: string, token: string): (r: (Option<string>, string))
    ensures |r.1| <= |rest| && r.1 == rest[|rest| - |r.1|..]
    ensures r.0.Some? && r.0.value != "" && token == "" ==> |r.1| < |rest|
    decreases |rest|
  {
    if rest == "" then (Some(token), "")
    else if IsBlank(rest[0]) then
      if token != "" then (Some(token), rest[1..]) else Scan(rest[1..], token)
    else if IsParen(rest[0]) then
      if token != "" then (Some(token), rest) else (Some([rest[0]]), rest[1..])
    else
      var more := token + [rest[0]];
      if EndsWith(more, "/*") then
        match AfterComment(rest[1..], "", "*/")
        case None => (None, "")
        case Some(after) => Scan(after, more[..|more| - 2])
      else Scan(rest[1..], more)
  }

  /** One character of scanning, case by case. */
  lemma ScanCases(rest: string, token: string)
    ensures rest == "" ==> Scan(rest, token) == (Some(token), "")
    ensures rest != "" ==>
      var c, after := rest[0], rest[1..];
      && (IsBlank(c) ==> Scan(rest, token) == if token != "" then (Some(token), after) else Scan(after, token))
      && (IsParen(c) ==> Scan(rest, token) == if token != "" then (Some(token), rest) else (Some([c]), after))
      && (!IsBlank(c) && !IsParen(c) && !EndsWith(token + [c], "/*") ==> Scan(rest, token) == Scan(after, token + [c]))
      && (!IsBlank(c) && !IsParen(c) && EndsWith(token + [c], "/*") ==>
            && |token + [c]| >= 2
            && Scan(rest, token) ==
               match AfterComment(after, "", "*/") {
                 case None => (None, "")
                 case Some(more) => Scan(more, (token + [c])[..|token + [c]| - 2])
               })
  {
  }

  // ----- The parser

  datatype Kind = Input | Group | OutputFormat | Extern | AsNeededKind

  function KindOf(token: string): Option<Kind> {
    if token == "INPUT" then Some(Input)
    else if token == "GROUP" then Some(Group)
    else if token == "OUTPUT_FORMAT" then Some(OutputFormat)
    else if token == "EXTERN" then Some(Extern)
    else None
  }

  datatype ParserState = ParserState(ret: seq<string>, stack: seq<Kind>, expected: string)

  function WordFlags(kind: Kind, token: string): seq<string> {
    match kind
    case OutputFormat => []
    case Extern => ["--undefined=" + token]
    case _ => ["-l:" + token]
  }

  function OpenFlags(kind: Kind): seq<string> {
    match kind
    case Group => ["--start-group"]
    case AsNeededKind => ["--as-needed"]
    case _ => []
  }

  function CloseFlags(kind: Kind): seq<string> {
    match kind
    case Group => ["--end-group"]
    case AsNeededKind => ["--no-as-needed"]
    case _ => []
  }

  /** One token; None is a parse error. */
  function Step(st: ParserState, token: string): Option<ParserState> {
    if st.expected != "" then
      if token == st.expected then Some(st.(expected := "")) else None
    else if st.stack == [] then
      match KindOf(token)
      case Some(kind) => Some(ParserState(st.ret + OpenFlags(kind), [kind], "("))
      case None => if token == ";" then Some(st) else None
    else
      var top := st.stack[|st.stack| - 1];
      if token == ")" then Some(ParserState(st.ret + CloseFlags(top), st.stack[..|st.stack| - 1], ""))
      else if token == "AS_NEEDED" then Some(ParserState(st.ret + ["--as-needed"], st.stack + [AsNeededKind], "("))
      else Some(st.(ret := st.ret + WordFlags(top, token)))
  }

  function RunTokens(st: ParserState, tokens: seq<string>): Option<ParserState>
    decreases |tokens|
  {
    if tokens == [] then Some(st)
    else
      match Step(st, tokens[0])
      case None => None
      case Some(next) => RunTokens(next, tokens[1..])
  }

  const START := ParserState([], [], "")

  /** Parsing from the state `st`: the state in which the text ends. */
  function ParseFrom(rest: string, st: ParserState): Option<ParserState>
    decreases |rest|
  {
    match Scan(rest, "")
    case (None, _) => None
    case (Some(token), after) =>
      if token == "" then Some(st)
      else
        match Step(st, token)
        case None => None
        case Some(next) => ParseFrom(after, next)
  }

  // ----- The code, over a file and its position

  class ScriptFile {
    const text: string
    var pos: nat

    constructor (text: string)
      ensures this.text == text && pos == 0
    {
      this.text := text;
      pos := 0;
    }

    ghost predicate Valid()
      reads this
    {
      pos <= |text|
    }

    /** read(1): the empty string at the end. */
    method Read1() returns (ch: string)
      requires Valid()
      modifies this`pos
      ensures Valid()
      ensures old(pos) == |text| ==> ch == "" && pos == old(pos)
      ensures old(pos) < |text| ==> ch == [text[old(pos)]] && pos == old(pos) + 1
    {
      if pos < |text| {
        ch := [text[pos]];
        pos := pos + 1;
      } else {
        ch := "";
      }
    }

    /** seek(-1, SEEK_CUR). */
    method Back()
      requires Valid() && pos > 0
      modifies this`pos
      ensures Valid() && pos == old(pos) - 1
    {
      pos := pos - 1;
    }

    method ReadPastComment(terminator: string) returns (ok: bool)
      requires Valid()
      modifies this`pos
      ensures Valid()
      ensures ok == AfterComment(old(text[pos..]), "", terminator).Some?
      ensures ok ==> pos > old(pos) && text[pos..] == AfterComment(old(text[pos..]), "", terminator).value
    {
      var s := "";
      ghost var from := pos;
      while true
        invariant Valid() && from <= pos
        invariant AfterComment(text[from..], "", terminator) == AfterComment(text[pos..], s, terminator)
        decreases |text| - pos
      {
        ghost var rest := text[pos..];
        var ch := Read1();
        if ch == "" {
          return false;
        }
        assert text[pos..] == rest[1..];
        s := s + ch;
        if EndsWith(s, terminator) {
          return true;
        }
      }
    }

    method GetNextToken() returns (token: Option<string>)
      requires Valid()
      modifies this`pos
      ensures Valid() && token == Scan(old(text[pos..]), "").0
      ensures token.Some? ==> text[pos..] == Scan(old(text[pos..]), "").1
      ensures token.Some? && token.value != "" ==> pos > old(pos)
    {
      hide AfterComment, Scan, EndsWith, IsBlank, IsParen;
      var t := "";
      ghost var all := Scan(text[pos..], "");
      ghost var from := pos;
      while true
        invariant Valid() && from <= pos && (t != "" ==> from < pos)
        invariant Scan(text[pos..], t) == all
        decreases |text| - pos
      {
        ghost var here, rest := pos, text[pos..];
        ScanCases(rest, t);
        var ch := Read1();
        if ch == "" {
          return Some(t);
        }
        var c := ch[0];
        ghost var after := text[pos..];
        assert c == rest[0] && after == rest[1..];
        if IsBlank(c) {
          if t != "" {
            return Some(t);
          }
        } else if IsParen(c) {
          if t != "" {
            Back();
            assert pos == here;
            return Some(t);
          } else {
            return Some([c]);
          }
        } else {
          t := t + [c];
          if EndsWith(t, "/*") {
            var closed := ReadPastComment("*/");
            if !closed {
              return None;
            }
            t := t[..|t| - 2];
          }
        }
      }
    }

    method ParseLinkerScript() returns (r: Option<seq<string>>)
      requires Valid() && pos == 0
      modifies this`pos
      ensures r == match ParseFrom(text, START) { case None => None case Some(st) => Some(st.ret) }
    {
      hide Scan, Step;
      var st := START;
      assert text[0..] == text;
      while true
        invariant Valid()
        invariant ParseFrom(text, START) == ParseFrom(text[pos..], st)
        decreases |text| - pos
      {
        var token := GetNextToken();
        if token.None? {
          return None;
        }
        if token.value == "" {
          return Some(st.ret);
        }
        var next := TakeToken(st, token.value);
        if next.None? {
          return None;
        }
        st := next.value;
      }
    }
  }

  /** The loop body of ParseLinkerScript: None is the early return of a parse error. */
  method TakeToken(st: ParserState, token: string) returns (r: Option<ParserState>)
    ensures r == Step(st, token)
  {
    assert st.ret + [] == st.ret && forall kind: Kind :: [] + [kind] == [kind];
    var ParserState(ret, stack, expected) := st;
    if expected != "" {
      if token == expected {
        expected := "";
      } else {
        return None;
      }
    } else if stack == [] {
      if token == "INPUT" {
        expected, stack := "(", stack + [Input];
      } else if token == "GROUP" {
        expected, ret, stack := "(", ret + ["--start-group"], stack + [Group];
      } else if token == "OUTPUT_FORMAT" {
        expected, stack := "(", stack + [OutputFormat];
      } else if token == "EXTERN" {
        expected, stack := "(", stack + [Extern];
      } else if token != ";" {
        return None;
      }
    } else if token == ")" {
      var section := stack[|stack| - 1];
      stack := stack[..|stack| - 1];
      if section == AsNeededKind {
        ret := ret + ["--no-as-needed"];
      } else if section == Group {
        ret := ret + ["--end-group"];
      }
    } else if token == "AS_NEEDED" {
      expected, ret, stack := "(", ret + ["--as-needed"], stack + [AsNeededKind];
    } else if stack[|stack| - 1] == OutputFormat {
    } else if stack[|stack| - 1] == Extern {
      ret := ret + ["--undefined=" + token];
    } else {
      ret := ret + ["-l:" + token];
    }
    return Some(ParserState(ret, stack, expected));
  }
}
