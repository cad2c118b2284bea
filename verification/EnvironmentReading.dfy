/** What is read from a variable: its templates, each evaluated on its own, and its terms, one after another. */
module EnvironmentReading {
  import opened DriverEnvironment
  import opened EnvironmentParts
  import opened Evaluator
  import opened EvaluatorExtension
  import opened EvaluatorRoundTrip
  import opened Options
  import Shell
  import opened Text

  /** Text without substitutions evaluates to itself. */
  lemma EvalPlain(c: Context, text: string)
    requires Absent(text, "${")
    ensures EvalText(c, text) == Val(text)
  {
    hide EvalText, StartsAt;
    assert text + "" == text && ["${"] + [] == ["${"];
    EvalTextPrint(c, Literal(text));
  }

  /** Space-separated references to `names`. */
  function TemplateFrom(before: string, names: seq<string>): Expr
    requires names != []
    decreases |names|
  {
    Subst(before, Var(0, Plain(names[0])), if |names| == 1 then Literal("") else TemplateFrom(" ", names[1..]))
  }

  function References(names: seq<string>): seq<string> {
    seq(|names|, i requires 0 <= i < |names| => "${" + names[i] + "}")
  }

  predicate SimpleName(name: string) {
    FreeOf(name, {' ', '}', '%', '?', '@'})
  }

  lemma {:induction false} TemplatePrints(before: string, names: seq<string>)
    requires names != []
    ensures PrintExpr(TemplateFrom(before, names)) == before + JoinWith(References(names), " ")
    decreases |names|
  {
    var name := names[0];
    assert Spaces(0) + name == name;
    assert PrintBracket(Var(0, Plain(name))) == name;
    var rest := if |names| == 1 then Literal("") else TemplateFrom(" ", names[1..]);
    if |names| > 1 {
      TemplatePrints(" ", names[1..]);
      assert References(names)[1..] == References(names[1..]);
    }
    assert before + ("${" + (name + ("}" + PrintExpr(rest)))) == before + ("${" + name + "}" + PrintExpr(rest));
  }

  lemma {:induction false} TemplateGood(before: string, names: seq<string>)
    requires names != [] && (before == "" || before == " ") && forall n | n in names :: SimpleName(n)
    ensures GoodExpr(TemplateFrom(before, names), "", [])
    decreases |names|
  {
    assert names[0] in names;
    AbsentChars(before + "${");
    CleanBefore(before);
    if |names| > 1 {
      TemplateGood(" ", names[1..]);
    }
  }

  lemma CleanBefore(before: string)
    requires before == "" || before == " "
    ensures CleanText(before, "${", ["${"] + []) && CleanText("", "", ["${"] + [])
  {
    if before == " " { assert (before + "${")[0..2] == " $"; }
  }

  lemma {:induction false} StripSimple(name: string)
    requires SimpleName(name)
    ensures StripSpaces(name) == name
  {
    if name != "" { assert name[0] in name && name[|name| - 1] in name; }
  }

  /** What the references stand for, one variable's terms after another. */
  function Gathered(t: map<string, seq<string>>, names: seq<string>): seq<string>
    requires forall n | n in names :: n in t
  {
    if names == [] then [] else t[names[0]] + Gathered(t, names[1..])
  }

  /** Reading the variable's text in this context gives the terms. */
  predicate ReadsIn(c: Context, name: string, terms: seq<string>) {
    name in c.world.data && c.eval(c.world.data[name]).Val? &&
    Shell.Words(c.eval(c.world.data[name]).value, Shell.Gap) == Shell.Good(terms)
  }

  lemma ReferenceMeans(c: Context, name: string)
    requires SimpleName(name) && name in c.world.data
    ensures DenoteBracket(c, Var(0, Plain(name))) == c.eval(c.world.data[name])
  {
    StripSimple(name);
  }

  lemma {:induction false} TemplateMeans(c: Context, t: map<string, seq<string>>, before: string, names: seq<string>)
    requires names != [] && (before == "" || before == " ")
    requires forall n | n in names :: SimpleName(n) && n in t && ReadsIn(c, n, t[n])
    ensures DenoteExpr(c, TemplateFrom(before, names)).Val?
    ensures Shell.Words(DenoteExpr(c, TemplateFrom(before, names)).value, Shell.Gap) == Shell.Good(Gathered(t, names))
    decreases |names|
  {
    hide Shell.Words, DenoteBracket, SimpleName, Absent;
    var name := names[0];
    assert name in names;
    ReferenceMeans(c, name);
    var text := c.eval(c.world.data[name]).value;
    if |names| == 1 {
      assert names[1..] == [] && Gathered(t, names) == t[name];
      assert before + text + "" == before + text;
      LeadingSpace(before, text);
    } else {
      TemplateMeans(c, t, " ", names[1..]);
      var rest := DenoteExpr(c, TemplateFrom(" ", names[1..])).value;
      LeadingSpaceOf(c, names[1..]);
      TwoPieces(before, text, rest);
    }
  }

  lemma TwoPieces(before: string, text: string, rest: string)
    requires before == "" || before == " "
    requires rest != "" && rest[0] == ' ' && Shell.Words(text, Shell.Gap).Good?
    ensures Shell.Words(before + text + rest, Shell.Gap) ==
            Shell.Before(Shell.Words(text, Shell.Gap).value, Shell.Words(rest, Shell.Gap))
  {
    hide Shell.Words;
    var tail := rest[1..];
    assert rest == " " + tail;
    Shell.WordsConcat(text, tail, Shell.Gap);
    LeadingSpace(" ", tail);
    assert before + text + rest == before + (text + " " + tail);
    LeadingSpace(before, text + " " + tail);
  }

  lemma LeadingSpaceOf(c: Context, names: seq<string>)
    requires names != [] && DenoteExpr(c, TemplateFrom(" ", names)).Val?
    ensures var text := DenoteExpr(c, TemplateFrom(" ", names)).value; text != "" && text[0] == ' '
  {
  }

  lemma LeadingSpace(before: string, text: string)
    requires before == "" || before == " "
    ensures Shell.Words(before + text, Shell.Gap) == Shell.Words(text, Shell.Gap)
  {
    if before == " " {
      assert (before + text)[1..] == text;
      Shell.BeforeTwice([], [], Shell.Words(text, Shell.Gap));
    } else {
      assert before + text == text;
    }
  }

  /** Reading space-separated references gives what reading each of the variables gives, one after another. */
  lemma GetReferences(w: World, t: map<string, seq<string>>, depth: nat, names: seq<string>)
    requires depth >= 1
    requires forall n | n in names ::
               SimpleName(n) && n in w.data && n in t && GetText(w, depth - 1, w.data[n]) == Val(Shell.Good(t[n]))
    ensures GetText(w, depth, JoinWith(References(names), " ")) == Val(Shell.Good(Gathered(t, names)))
  {
    var c := Inside(w, depth - 1);
    InsideEval(w, depth - 1);
    if names == [] {
      EvalPlain(c, "");
    } else {
      TemplatePrints("", names);
      TemplateGood("", names);
      EvalTextPrint(c, TemplateFrom("", names));
      TemplateMeans(c, t, "", names);
      assert "" + JoinWith(References(names), " ") == JoinWith(References(names), " ");
    }
  }

  /** What is read from one text and then another: the words of both, or the first error. */
  function Then(first: Outcome<Shell.Result<seq<string>>>, second: Outcome<Shell.Result<seq<string>>>)
    : Outcome<Shell.Result<seq<string>>>
  {
    if first.Fail? || first.value.Bad? then first
    else if second.Fail? then second
    else Val(Shell.Before(first.value.value, second.value))
  }

  predicate ReadsWell(r: Outcome<Shell.Result<seq<string>>>) {
    r.Val? && r.value.Good?
  }

  /** Reading a part on its own. */
  function ReadPart(w: World, depth: nat, part: Part): Outcome<Shell.Result<seq<string>>> {
    match part
    case Terms(terms) => Val(Shell.Good(terms))
    case Template(text) => GetText(w, depth, text)
  }

  /** Reading the parts one after another. */
  function Read(w: World, depth: nat, h: Held): Outcome<Shell.Result<seq<string>>> {
    if h == [] then Val(Shell.Good([]))
    else Then(Read(w, depth, h[..|h| - 1]), ReadPart(w, depth, h[|h| - 1]))
  }

  /** Whatever is put behind a text that reads well is read after it, errors included. */
  lemma ReadJoined(w: World, depth: nat, text: string, more: string)
    requires depth >= 1 && ReadsWell(GetText(w, depth, text))
    ensures GetText(w, depth, Joined(text, more)) == Then(GetText(w, depth, text), GetText(w, depth, more))
  {
    hide EvalText, Shell.Words;
    var c := Inside(w, depth - 1);
    if text == "" {
      EvalPlain(c, "");
      EmptyReads(c);
      ThenAlone(GetText(w, depth, more));
      assert Joined(text, more) == more;
    } else {
      var value := EvalText(c, text).value;
      AbsentChars(" ");
      EvalPlain(c, " ");
      EvalTextExtends(c, " ", more);
      EvalTextExtends(c, text, " " + more);
      assert Joined(text, more) == text + (" " + more);
      if EvalText(c, more).Val? {
        assert value + (" " + EvalText(c, more).value) == value + " " + EvalText(c, more).value;
        Shell.WordsConcat(value, EvalText(c, more).value, Shell.Gap);
      }
    }
  }

  lemma EmptyReads(c: Context)
    requires EvalText(c, "") == Val("")
    ensures Shell.Words("", Shell.Gap) == Shell.Good([])
  {
  }

  lemma ThenAlone(r: Outcome<Shell.Result<seq<string>>>)
    ensures Then(Val(Shell.Good([])), r) == r
  {
    if ReadsWell(r) { assert [] + r.value.value == r.value.value; }
  }

  lemma PartReads(w: World, depth: nat, text: string, part: Part)
    requires depth >= 1 && HoldsPart(text, part)
    ensures GetText(w, depth, text) == ReadPart(w, depth, part)
  {
    hide EvalText, Shell.Words;
    if part.Terms? { EvalPlain(Inside(w, depth - 1), text); }
  }

  lemma NothingHeld(w: World, depth: nat)
    requires depth >= 1
    ensures GetText(w, depth, "") == Val(Shell.Good([]))
  {
    NothingRead();
    PartReads(w, depth, "", Terms([]));
  }

  /** A text that is made of pieces reads as its parts one after another, if those before the last read well. */
  lemma {:induction false} GetParts(w: World, depth: nat, text: string, h: Held)
    requires depth >= 1 && Holds(text, h)
    requires h != [] ==> ReadsWell(Read(w, depth, h[..|h| - 1]))
    ensures GetText(w, depth, text) == Read(w, depth, h)
    decreases |h|
  {
    hide GetText, HoldsPart, ReadPart, Joined;
    if h == [] {
      NothingHeld(w, depth);
    } else {
      var before := h[..|h| - 1];
      var front, back :| Holds(front, before) && HoldsPart(back, h[|h| - 1]) && text == Joined(front, back);
      GetParts(w, depth, front, before);
      PartReads(w, depth, back, h[|h| - 1]);
      ReadJoined(w, depth, front, back);
    }
  }

  /** Reading a variable reads its parts one after another. */
  lemma GetHeld(s: State<string>, t: State<Held>, functions: map<string, seq<string> -> Option<string>>,
                depth: nat, name: string)
    requires Refines(s, t) && depth >= 1 && name in t.data
    requires var h := t.data[name]; h != [] ==> ReadsWell(Read(World(s.data, functions), depth, h[..|h| - 1]))
    ensures GetText(World(s.data, functions), depth, s.data[name]) ==
            Read(World(s.data, functions), depth, t.data[name])
  {
    hide GetText, Holds, Read;
    GetParts(World(s.data, functions), depth, s.data[name], t.data[name]);
  }

  predicate AllTerms(h: Held) {
    forall part | part in h :: part.Terms?
  }

  function TermsIn(h: Held): seq<string> {
    if h == [] then []
    else TermsIn(h[..|h| - 1]) + match h[|h| - 1] { case Terms(terms) => terms case Template(_) => [] }
  }

  /** Terms behind other parts are read as they are. */
  lemma {:induction false} ReadTerms(w: World, depth: nat, h: Held, more: Held)
    requires AllTerms(more) && ReadsWell(Read(w, depth, h))
    ensures Read(w, depth, h + more) == Val(Shell.Good(Read(w, depth, h).value.value + TermsIn(more)))
    decreases |more|
  {
    hide GetText;
    if more == [] {
      assert h + more == h && Read(w, depth, h).value.value + [] == Read(w, depth, h).value.value;
    } else {
      var less, last := more[..|more| - 1], more[|more| - 1];
      ReadTerms(w, depth, h, less);
      assert (h + more)[..|h + more| - 1] == h + less && (h + more)[|h + more| - 1] == last && last in more;
      assert Read(w, depth, h).value.value + (TermsIn(less) + last.terms) ==
             Read(w, depth, h).value.value + TermsIn(less) + last.terms;
    }
  }

  lemma ReadAllTerms(w: World, depth: nat, h: Held)
    requires AllTerms(h)
    ensures Read(w, depth, h) == Val(Shell.Good(TermsIn(h)))
    ensures h != [] ==> Read(w, depth, h[..|h| - 1]) == Val(Shell.Good(TermsIn(h[..|h| - 1])))
  {
    ReadTerms(w, depth, [], h);
    assert [] + h == h && [] + TermsIn(h) == TermsIn(h);
    if h != [] {
      var less := h[..|h| - 1];
      ReadTerms(w, depth, [], less);
      assert [] + less == less && [] + TermsIn(less) == TermsIn(less);
    }
  }

  /** Reading a variable that holds no template gives its terms. */
  lemma GetVariable(s: State<string>, t: State<Held>, functions: map<string, seq<string> -> Option<string>>,
                    depth: nat, name: string)
    requires Refines(s, t) && depth >= 1 && name in t.data && AllTerms(t.data[name])
    ensures GetText(World(s.data, functions), depth, s.data[name]) == Val(Shell.Good(TermsIn(t.data[name])))
  {
    hide GetText, Refines, Read;
    ReadAllTerms(World(s.data, functions), depth, t.data[name]);
    GetHeld(s, t, functions, depth, name);
  }

  function TermsOf(t: map<string, Held>): map<string, seq<string>> {
    map n | n in t :: TermsIn(t[n])
  }

  /**
   * Reading a variable with a template of space-separated references to variables without templates gives its terms,
   * with the terms of those variables in the place of the template.
   */
  lemma GetTemplate(s: State<string>, t: State<Held>, functions: map<string, seq<string> -> Option<string>>,
                    depth: nat, name: string, before: Held, names: seq<string>, after: Held)
    requires Refines(s, t) && depth >= 2 && name in t.data && AllTerms(before) && AllTerms(after)
    requires t.data[name] == before + [Template(JoinWith(References(names), " "))] + after
    requires forall n | n in names :: SimpleName(n) && n in t.data && AllTerms(t.data[n])
    ensures GetText(World(s.data, functions), depth, s.data[name]) ==
            Val(Shell.Good(TermsIn(before) + Gathered(TermsOf(t.data), names) + TermsIn(after)))
  {
    hide GetText, SimpleName, References, Holds, AllTerms, TermsIn;
    var w := World(s.data, functions);
    forall n | n in names
      ensures n in s.data
      ensures GetText(w, depth - 1, s.data[n]) == Val(Shell.Good(TermsOf(t.data)[n]))
    {
      GetVariable(s, t, functions, depth - 1, n);
    }
    GetReferences(w, TermsOf(t.data), depth, names);
    ReadAround(w, depth, before, JoinWith(References(names), " "), after);
    GetHeld(s, t, functions, depth, name);
  }

  /** A template that reads well, between terms. */
  lemma ReadAround(w: World, depth: nat, before: Held, text: string, after: Held)
    requires AllTerms(before) && AllTerms(after) && ReadsWell(GetText(w, depth, text))
    ensures var h := before + [Template(text)] + after;
            && Read(w, depth, h) ==
               Val(Shell.Good(TermsIn(before) + GetText(w, depth, text).value.value + TermsIn(after)))
            && ReadsWell(Read(w, depth, h[..|h| - 1]))
  {
    hide GetText, TermsIn;
    var front := before + [Template(text)];
    ReadAllTerms(w, depth, before);
    assert front[..|front| - 1] == before;
    ReadTerms(w, depth, front, after);
    var h := front + after;
    if after == [] {
      assert h[..|h| - 1] == before;
    } else {
      var less := after[..|after| - 1];
      assert h[..|h| - 1] == front + less;
      ReadTerms(w, depth, front, less);
    }
  }

  /** getone after set gives the one term back, an empty one included. */
  lemma GetOneAfterSet(s: State<string>, functions: map<string, seq<string> -> Option<string>>, depth: nat,
                       name: string, term: string)
    requires depth >= 1 && Absent(term, "${")
    ensures var data := Step(s, Set(name, [term])).data;
            name in data && Eval(World(data, functions), depth, data[name]) == Val(Shell.Escape(term))
    ensures Shell.Unescape(Shell.Escape(term)) == Shell.Good(term)
  {
    hide EvalText;
    var data := Step(s, Set(name, [term])).data;
    AbsentEscape(term);
    assert Appended("", [term]) == Shell.Escape(term);
    EvalPlain(Inside(World(data, functions), depth - 1), data[name]);
    Shell.UnescapeEscape(term);
  }

  /** A variable that was set during the run, and to no template, reads as terms of which none is empty. */
  lemma NoEmptyTermRead(data: map<string, string>, ops: seq<Op>, functions: map<string, seq<string> -> Option<string>>,
                        depth: nat, name: string)
    requires depth >= 1
    requires var t := RunParts(Loaded(data), ops).data; name in t && AllTerms(t[name])
    ensures var now := Run(State(data, []), ops).data;
            && name in now && GetText(World(now, functions), depth, now[name]).Val?
            && GetText(World(now, functions), depth, now[name]).value.Good?
            && "" !in GetText(World(now, functions), depth, now[name]).value.value
  {
    hide Refines, GetText, Holds;
    var t := RunParts(Loaded(data), ops);
    RunFromLoaded(data, ops);
    RunNonEmpty(Loaded(data), ops);
    TermsNotEmpty(t.data[name]);
    assert Run(State(data, []), ops).data.Keys == t.data.Keys by { SameNames(data, ops); }
    GetVariable(Run(State(data, []), ops), t, functions, depth, name);
  }

  lemma SameNames(data: map<string, string>, ops: seq<Op>)
    requires Refines(Run(State(data, []), ops), RunParts(Loaded(data), ops))
    ensures Run(State(data, []), ops).data.Keys == RunParts(Loaded(data), ops).data.Keys
  {
  }

  lemma {:induction false} TermsNotEmpty(h: Held)
    requires NoneEmptyIn(h)
    ensures "" !in TermsIn(h)
  {
    if h != [] {
      TermsNotEmpty(h[..|h| - 1]);
      assert h[|h| - 1] in h;
    }
  }
}
