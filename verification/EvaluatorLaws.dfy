/**
 What the expression language gives for texts that are written out: variables, computed names, calls and choices, stated
 on the text and on the variables and functions themselves.
 */
module EvaluatorLaws {
  import opened Evaluator
  import opened EvaluatorRoundTrip
  import opened Options
  import opened Text

  /** None of the characters occurs in the text. */
  predicate Without(s: string, chars: set<char>) {
    forall x | x in s :: x !in chars
  }

  /** A variable name without spaces or any character that means something in a test or a reference. */
  predicate PlainName(name: string) {
    name != "" && Without(name, {' ', '!', '#', '%', '&', '=', '?', '@', '|', '}'})
  }

  /** The arm of a choice: no substitution, no closing brace, and no ':' behind a space or at the start. */
  predicate PlainArm(s: string) {
    Without(s, {'$', '}'}) && forall k | 0 <= k < |s| && s[k] == ':' :: k > 0 && s[k - 1] != ' '
  }

  lemma Substituted(c: Context, b: Bracket, text: string)
    requires GoodBracket(b, '}') && PrintBracket(b) == text
    ensures EvalText(c, "${" + text + "}") == DenoteBracket(c, b)
  {
    hide EvalText, PrintBracket, GoodBracket, DenoteBracket, StartsAt;
    var e := Subst("", b, Literal(""));
    assert PrintExpr(e) == "${" + text + "}";
    EvalTextPrint(c, e);
    if DenoteBracket(c, b).Val? {
      assert "" + DenoteBracket(c, b).value + "" == DenoteBracket(c, b).value;
    }
  }

  predicate OnlySpaces(s: string) {
    forall x | x in s :: x == ' '
  }

  lemma AreSpaces(s: string)
    requires OnlySpaces(s)
    ensures s == Spaces(|s|)
  {
    forall k | 0 <= k < |s|
      ensures s[k] == ' '
    {
      assert s[k] in s;
    }
  }

  // ----- Variables

  /** `${name}`, with any spaces around the name. */
  lemma VariableText(w: World, depth: nat, before: string, name: string, after: string)
    requires Without(name, {' ', '%', '?', '@', '}'}) && OnlySpaces(before) && OnlySpaces(after)
    ensures Eval(w, depth + 1, "${" + (before + name + after) + "}") ==
            if name in w.data then Eval(w, depth, w.data[name]) else Fail(UndefinedVariable)
  {
    hide EvalText;
    InsideEval(w, depth);
    var c := Inside(w, depth);
    AreSpaces(before);
    AreSpaces(after);
    if name == "" {
      VariableMeans(c, |before + after|, "", "");
      assert Spaces(|before + after|) + ("" + "") == before + name + after;
    } else {
      VariableMeans(c, |before|, name, after);
      assert before + (name + after) == before + name + after;
    }
  }

  lemma VariableMeans(c: Context, pad: nat, name: string, after: string)
    requires Without(name, {' ', '%', '?', '@', '}'}) && OnlySpaces(after) && (name == "" ==> after == "")
    ensures EvalText(c, "${" + (Spaces(pad) + (name + after)) + "}") == c.Lookup(name)
  {
    hide EvalText, GoodBracket, PrintBracket, StripSpaces, Without, Spaces;
    var b := Var(pad, Plain(name + after));
    VariableGood(pad, name, after);
    NoSpacesAround(name, after);
    Substituted(c, b, Spaces(pad) + (name + after));
  }

  lemma VariableGood(pad: nat, name: string, after: string)
    requires Without(name, {' ', '%', '?', '@', '}'}) && OnlySpaces(after) && (name == "" ==> after == "")
    ensures var b := Var(pad, Plain(name + after));
            GoodBracket(b, '}') && PrintBracket(b) == Spaces(pad) + (name + after)
  {
    hide Spaces;
    var text := name + after;
    assert forall x | x in text :: x in name || x in after;
    assert FreeOf(text, {'}'} + {'%'});
    assert text != "" ==> text[0] in name;
    assert ReachesFirst(text, '}', '?') by { assert forall k | 0 <= k < |text| :: text[k] in text; }
  }

  lemma NoSpacesAround(s: string, after: string)
    requires Without(s, {' ', '%', '?', '@', '}'}) && OnlySpaces(after)
    ensures StripSpaces(s + after) == s && StripSpaces(s) == s
  {
    hide StripSpaces;
    if s != "" { assert s[0] in s && s[|s| - 1] in s; }
    AreSpaces(after);
    StripSpacesOf(0, s, |after|);
    StripSpacesOf(0, s, 0);
    assert Spaces(0) + s + Spaces(|after|) == s + after && Spaces(0) + s + Spaces(0) == s;
  }

  /** `${left%inner%right}`: the name is looked up that the texts and what `inner` holds make together. */
  lemma ComputedText(w: World, depth: nat, left: string, inner: string, right: string)
    requires Without(left, {' ', '%', '?', '@', '}'}) && Without(inner, {' ', '%', '?', '@', '}'})
    requires Without(right, {' ', '%', '?', '@', '}'})
    requires inner in w.data && Eval(w, depth, w.data[inner]).Val?
    requires Trimmed(left + Eval(w, depth, w.data[inner]).value + right)
    ensures var name := left + Eval(w, depth, w.data[inner]).value + right;
            Eval(w, depth + 1, "${" + left + "%" + inner + "%" + right + "}") ==
            if name in w.data then Eval(w, depth, w.data[name]) else Fail(UndefinedVariable)
  {
    hide EvalText, Trimmed, GoodBracket, PrintBracket, Strip, StripSpaces, Without;
    InsideEval(w, depth);
    var c := Inside(w, depth);
    ComputedGood(left, inner, right);
    ComputedMeans(c, left, inner, right, Eval(w, depth, w.data[inner]).value);
    var text := left + "%" + inner + "%" + right;
    Substituted(c, Var(0, Computed(left, Var(0, Plain(inner)), Plain(right))), text);
    assert "${" + text + "}" == "${" + left + "%" + inner + "%" + right + "}";
  }

  lemma ComputedMeans(c: Context, left: string, inner: string, right: string, middle: string)
    requires Without(left, {' ', '%', '?', '@', '}'}) && Without(inner, {' ', '%', '?', '@', '}'})
    requires Without(right, {' ', '%', '?', '@', '}'})
    requires c.Lookup(inner) == Val(middle) && Trimmed(left + middle + right)
    ensures DenoteBracket(c, Var(0, Computed(left, Var(0, Plain(inner)), Plain(right)))) ==
            c.Lookup(left + middle + right)
  {
    hide Trimmed, Strip, StripSpaces, Without, Context.Lookup;
    NoSpacesAround(left, "");
    NoSpacesAround(inner, "");
    NoSpacesAround(right, "");
    StripOf("", left + middle + right, "");
    assert "" + (left + middle + right) + "" == left + middle + right;
    var n := Computed(left, Var(0, Plain(inner)), Plain(right));
    assert DenoteName(c, Plain(inner)) == Val(inner) && DenoteName(c, Plain(right)) == Val(right);
    assert DenoteBracket(c, n.inner) == Val(middle);
    assert DenoteName(c, n) == Val(left + middle + right);
  }

  lemma ComputedGood(left: string, inner: string, right: string)
    requires Without(left, {' ', '%', '?', '@', '}'}) && Without(inner, {' ', '%', '?', '@', '}'})
    requires Without(right, {' ', '%', '?', '@', '}'})
    ensures var b := Var(0, Computed(left, Var(0, Plain(inner)), Plain(right)));
            GoodBracket(b, '}') && PrintBracket(b) == left + "%" + inner + "%" + right
  {
    var n := Computed(left, Var(0, Plain(inner)), Plain(right));
    assert Spaces(0) + inner == inner;
    assert PrintBracket(n.inner) == inner && PrintName(n.right) == right;
    var text := left + ("%" + (inner + ("%" + right)));
    assert PrintName(n) == text && Spaces(0) + text == left + "%" + inner + "%" + right;
    assert text[0] == if left == "" then '%' else left[0];
    assert Without(text, {'?', ' ', '@'});
    assert GoodBracket(n.inner, '%') by { assert FreeOf(inner, {'%'} + {'%'}); }
    assert GoodName(n, {'}'}) by { assert FreeOf(left, {'}'} + {'%'}) && FreeOf(right, {'}'} + {'%'}); }
  }

  // ----- Calls

  /** The arguments, each with a colon before it. */
  function Colons(args: seq<string>): string {
    if args == [] then "" else ":" + args[0] + Colons(args[1..])
  }

  /** `${@func:arg1:arg2}` is what the registered function's result for these arguments evaluates to. */
  lemma CallText(w: World, depth: nat, func: string, args: seq<string>)
    requires Without(func, {':', '}'}) && forall a | a in args :: Without(a, {':', '}'})
    ensures Eval(w, depth + 1, "${@" + func + Colons(args) + "}") ==
            if func !in w.functions then Fail(KeyError)
            else if w.functions[func](args).None? then Fail(CallFailed)
            else Eval(w, depth, w.functions[func](args).value)
  {
    hide EvalText;
    InsideEval(w, depth);
    var b := Call(0, func, args);
    ColonsJoin(args);
    assert FreeOf(func, {':', '}'}) && forall a | a in args :: FreeOf(a, {':', '}'});
    assert Spaces(0) + ("@" + (func + Colons(args))) == "@" + func + Colons(args);
    Substituted(Inside(w, depth), b, "@" + func + Colons(args));
    assert "${" + ("@" + func + Colons(args)) + "}" == "${@" + func + Colons(args) + "}";
  }

  lemma {:induction false} ColonsJoin(args: seq<string>)
    ensures Colons(args) == if args == [] then "" else ":" + JoinWith(args, ":")
  {
    if args != [] {
      ColonsJoin(args[1..]);
      if |args| > 1 {
        assert ":" + args[0] + (":" + JoinWith(args[1..], ":")) == ":" + (args[0] + ":" + JoinWith(args[1..], ":"));
      }
    }
  }

  // ----- Choices

  /** Whatever the arms give, the choice is the chosen one without the blanks around it. */
  lemma ChoiceTrims(c: Context, test: BoolExpr, yes: Expr, no: Expr, first: seq<string>, second: seq<string>)
    requires GoodBracket(Ternary(test, yes, Some(no)), '}') && DenoteBoolExpr(c, test).Val?
    requires |first| == 3 && Blanks(first[0]) && Trimmed(first[1]) && Blanks(first[2])
    requires |second| == 3 && Blanks(second[0]) && Trimmed(second[1]) && Blanks(second[2])
    requires DenoteExpr(c, yes) == Val(first[0] + first[1] + first[2])
    requires DenoteExpr(c, no) == Val(second[0] + second[1] + second[2])
    ensures EvalText(c, "${" + (PrintBoolExpr(test) + ("?" + (PrintExpr(yes) + (" : " + PrintExpr(no))))) + "}") ==
            Val(if DenoteBoolExpr(c, test).value then first[1] else second[1])
  {
    hide EvalText, GoodBracket, DenoteExpr, DenoteBoolExpr, PrintExpr, PrintBoolExpr, Strip, Blanks, Trimmed;
    var b := Ternary(test, yes, Some(no));
    StripOf(first[0], first[1], first[2]);
    StripOf(second[0], second[1], second[2]);
    Substituted(c, b, PrintBracket(b));
  }

  /** Without a second arm, it is the first or nothing. */
  lemma ChoiceOrNothing(c: Context, test: BoolExpr, yes: Expr, before: string, value: string, after: string)
    requires GoodBracket(Ternary(test, yes, None), '}') && DenoteBoolExpr(c, test).Val?
    requires Blanks(before) && Trimmed(value) && Blanks(after) && DenoteExpr(c, yes) == Val(before + value + after)
    ensures EvalText(c, "${" + (PrintBoolExpr(test) + ("?" + PrintExpr(yes))) + "}") ==
            Val(if DenoteBoolExpr(c, test).value then value else "")
  {
    hide EvalText, GoodBracket, DenoteExpr, DenoteBoolExpr, DenoteName, PrintExpr, PrintBoolExpr, PrintName, Strip;
    var b := Ternary(test, yes, None);
    StripOf("", "", "");
    hide Blanks, Trimmed;
    StripOf(before, value, after);
    assert "" + "" + "" == "";
    assert DenoteBracket(c, b) == Val(if DenoteBoolExpr(c, test).value then value else "");
    assert PrintBracket(b) == PrintBoolExpr(test) + ("?" + PrintExpr(yes)) by {
      assert PrintExpr(yes) + PrintNo(None) == PrintExpr(yes);
    }
    hide DenoteBracket, PrintBracket;
    Substituted(c, b, PrintBracket(b));
  }

  /** A test written out, and two arms of literal text. */
  lemma ChoiceText(c: Context, test: BoolExpr, text: string, yes: string, no: string)
    requires PrintBoolExpr(test) == text && GoodBoolExpr(test, {'?', '}'}) && FirstNot(StripPad(test), {' ', '@'})
    requires Without(text, {'}'}) && PlainArm(yes) && PlainArm(no) && Trimmed(yes) && Trimmed(no)
    ensures EvalText(c, "${" + text + "? " + yes + " : " + no + "}") ==
            if DenoteBoolExpr(c, test).Fail? then Fail(DenoteBoolExpr(c, test).fault)
            else Val(if DenoteBoolExpr(c, test).value then yes else no)
  {
    hide EvalText, GoodBracket, DenoteBoolExpr, PrintBoolExpr, GoodBoolExpr, Strip, StripPad, Trimmed, PlainArm;
    var b := Ternary(test, Literal(" " + yes), Some(Literal(no)));
    ArmsGood(yes, no);
    ChoiceGood(test, text, yes, no);
    StripOf(" ", yes, "");
    StripOf("", no, "");
    assert " " + yes + "" == " " + yes && "" + no + "" == no;
    Substituted(c, b, text + "? " + yes + " : " + no);
    assert "${" + (text + "? " + yes + " : " + no) + "}" == "${" + text + "? " + yes + " : " + no + "}";
  }

  lemma ChoiceGood(test: BoolExpr, text: string, yes: string, no: string)
    requires PrintBoolExpr(test) == text && GoodBoolExpr(test, {'?', '}'}) && FirstNot(StripPad(test), {' ', '@'})
    requires Without(text, {'}'})
    requires GoodExpr(Literal(" " + yes), " : ", [" : ", "}"]) && GoodExpr(Literal(no), "}", ["}"])
    ensures var b := Ternary(test, Literal(" " + yes), Some(Literal(no)));
            GoodBracket(b, '}') && PrintBracket(b) == text + "? " + yes + " : " + no
  {
    hide PrintBoolExpr, GoodBoolExpr, StripPad, CleanText;
    var b := Ternary(test, Literal(" " + yes), Some(Literal(no)));
    assert ReachesFirst(text, '?', '}') by { assert forall k | 0 <= k < |text| :: text[k] in text; }
    assert ['}'] == "}";
    assert PrintExpr(Literal(" " + yes)) == " " + yes && PrintNo(Some(Literal(no))) == " : " + no;
    assert PrintBracket(b) == text + ("?" + (" " + yes + (" : " + no)));
  }

  lemma ArmsGood(yes: string, no: string)
    requires PlainArm(yes) && PlainArm(no)
    ensures GoodExpr(Literal(" " + yes), " : ", [" : ", "}"]) && GoodExpr(Literal(no), "}", ["}"])
  {
    var first, all := " " + yes, " " + yes + " : ";
    forall k: nat | k < |first|
      ensures NoneAt(all, k, ["${"] + [" : ", "}"])
    {
      assert all[k] == first[k] && (k > 0 ==> first[k] in yes);
      assert !StartsAt(all, k, "${") && !StartsAt(all, k, "}") by {
        if StartsAt(all, k, "${") { CharsAt(all, k, "${"); }
        if StartsAt(all, k, "}") { CharsAt(all, k, "}"); }
      }
      assert all[k + 1] == if k < |yes| then yes[k] else ' ';
      assert k < |yes| && yes[k] == ':' ==> all[k] == yes[k - 1];
      if StartsAt(all, k, " : ") { CharsAt(all, k, " : "); }
    }
    forall k: nat | k < |no|
      ensures NoneAt(no + "}", k, ["${"] + ["}"])
    {
      assert (no + "}")[k] == no[k] && no[k] in no;
      if StartsAt(no + "}", k, "${") { CharsAt(no + "}", k, "${"); }
      if StartsAt(no + "}", k, "}") { CharsAt(no + "}", k, "}"); }
    }
  }

  /** A variable as a test: negated or not, its length or its value, alone or compared with a literal. */
  function Test(negated: bool, useLen: bool, text: string, equals: Option<Literally>): BoolVal {
    BoolVal(0, negated, 0, useLen, Plain(text), equals)
  }

  lemma TestPrints(negated: bool, useLen: bool, text: string, equals: Option<Literally>)
    ensures PrintBoolVal(Test(negated, useLen, text, equals)) ==
            (if negated then "!" else "") + (if useLen then "#" else "") + text + PrintEquals(equals)
  {
    hide PrintEquals;
    var bang, hash := if negated then "!" else "", if useLen then "#" else "";
    assert Spaces(0) == "";
    assert "" + (bang + ("" + (hash + (text + PrintEquals(equals))))) == bang + hash + text + PrintEquals(equals);
  }

  lemma TestGood(negated: bool, useLen: bool, name: string, after: string, equals: Option<Literally>)
    requires PlainName(name) && OnlySpaces(after)
    requires equals.Some? ==> equals.value.text != "" && Without(equals.value.text, {' ', '&', '|', '?', '}'})
    ensures var v := Test(negated, useLen, name + after, equals);
            && GoodBoolExpr(Single(v), {'?', '}'}) && FirstNot(StripPad(Single(v)), {' ', '@'})
            && Without(PrintBoolVal(v), {'}'})
  {
    var text := name + after;
    var v := Test(negated, useLen, text, equals);
    hide PrintBoolVal, PrintEquals;
    TestPrints(negated, useLen, text, equals);
    EqualsPlain(equals);
    assert forall x | x in text :: x in name || x in after;
    assert text[0] == name[0] && name[0] in name;
    assert GoodName(v.name, {'='} + ({'&', '|'} + {'?', '}'})) by {
      assert FreeOf(text, {'='} + ({'&', '|'} + {'?', '}'}) + {'%'});
    }
    assert PrintName(v.name) == text && FirstNot(text, {' ', '#', '!', '@'});
    assert equals.Some? ==> GoodLiteral(equals.value, {' '} + ({'&', '|'} + {'?', '}'}));
    assert GoodBoolVal(v, {'&', '|'} + {'?', '}'});
    assert PrintBoolVal(v)[0..] == PrintBoolVal(v);
  }

  lemma EqualsPlain(equals: Option<Literally>)
    requires equals.Some? ==> Without(equals.value.text, {' ', '&', '|', '?', '}'})
    ensures Without(PrintEquals(equals), {'}'})
  {
  }

  lemma TestMeans(c: Context, negated: bool, useLen: bool, name: string, after: string, equals: Option<Literally>)
    requires PlainName(name) && OnlySpaces(after) && c.Lookup(name).Val? && (useLen ==> equals.None?)
    ensures var value := c.Lookup(name).value;
            DenoteBoolVal(c, Test(negated, useLen, name + after, equals)) ==
            if equals.Some? then Val(negated != (value == equals.value.text))
            else if useLen then Val(negated != (value != ""))
            else if value == "1" then Val(!negated)
            else if value == "0" then Val(negated)
            else Fail(NotBoolean)
  {
    hide StripSpaces, Context.Lookup;
    NoSpacesAround(name, after);
  }

  function Spelled(test: string, yes: string, no: string): string {
    "${" + test + " ? " + yes + " : " + no + "}"
  }

  lemma SpelledText(test: string, yes: string, no: string)
    ensures "${" + (test + " ") + "? " + yes + " : " + no + "}" == Spelled(test, yes, no)
  {
  }

  /** A single test with a space behind the variable's name or the literal. */
  lemma ChoiceByTest(w: World, depth: nat, negated: bool, useLen: bool, name: string, literal: Option<string>,
                     yes: string, no: string)
    requires PlainName(name) && PlainArm(yes) && PlainArm(no) && Trimmed(yes) && Trimmed(no)
    requires literal.Some? ==> !useLen && literal.value != "" && Without(literal.value, {' ', '&', '|', '?', '}'})
    requires name in w.data && Eval(w, depth, w.data[name]).Val?
    ensures Eval(w, depth + 1,
                 Spelled((if negated then "!" else "") + (if useLen then "#" else "") + name +
                         (if literal.Some? then "==" + literal.value else ""), yes, no)) ==
            var value := Eval(w, depth, w.data[name]).value;
            if literal.Some? then Val(if negated != (value == literal.value) then yes else no)
            else if useLen then Val(if negated != (value != "") then yes else no)
            else if value == "1" then Val(if negated then no else yes)
            else if value == "0" then Val(if negated then yes else no)
            else Fail(NotBoolean)
  {
    hide EvalText, PrintBoolVal, GoodBoolExpr, StripPad, DenoteBoolVal, PlainArm, Trimmed, Test;
    InsideEval(w, depth);
    var c := Inside(w, depth);
    var after := if literal.Some? then "" else " ";
    var equals := if literal.Some? then Some(Literally(0, literal.value, 1)) else None;
    var test := Single(Test(negated, useLen, name + after, equals));
    TestPrints(negated, useLen, name + after, equals);
    TestGood(negated, useLen, name, after, equals);
    TestMeans(c, negated, useLen, name, after, equals);
    var bang, hash := if negated then "!" else "", if useLen then "#" else "";
    var front := bang + hash + name + (if literal.Some? then "==" + literal.value else "");
    assert PrintBoolExpr(test) == front + " " by {
      assert Spaces(0) == "" && Spaces(1) == " ";
    }
    ChoiceText(c, test, front + " ", yes, no);
    SpelledText(front, yes, no);
  }

  /** `${name ? yes : no}` and `${!name ? yes : no}`. */
  lemma ChosenByFlag(w: World, depth: nat, negated: bool, name: string, yes: string, no: string)
    requires PlainName(name) && PlainArm(yes) && PlainArm(no) && Trimmed(yes) && Trimmed(no)
    requires name in w.data && Eval(w, depth, w.data[name]).Val?
    ensures Eval(w, depth + 1, "${" + (if negated then "!" else "") + name + " ? " + yes + " : " + no + "}") ==
            var value := Eval(w, depth, w.data[name]).value;
            if value == "1" then Val(if negated then no else yes)
            else if value == "0" then Val(if negated then yes else no)
            else Fail(NotBoolean)
  {
    hide Eval, PlainArm, Trimmed;
    ChoiceByTest(w, depth, negated, false, name, None, yes, no);
    var bang := if negated then "!" else "";
    assert bang + "" + name + "" == bang + name && "${" + (bang + name) == "${" + bang + name;
  }

  /** `${#name ? yes : no}`: whether the variable is empty. */
  lemma ChosenByLength(w: World, depth: nat, name: string, yes: string, no: string)
    requires PlainName(name) && PlainArm(yes) && PlainArm(no) && Trimmed(yes) && Trimmed(no)
    requires name in w.data && Eval(w, depth, w.data[name]).Val?
    ensures Eval(w, depth + 1, "${#" + name + " ? " + yes + " : " + no + "}") ==
            Val(if Eval(w, depth, w.data[name]).value != "" then yes else no)
  {
    hide Eval, PlainArm, Trimmed;
    ChoiceByTest(w, depth, false, true, name, None, yes, no);
    assert "" + "#" + name + "" == "#" + name && "${" + ("#" + name) == "${#" + name;
  }

  /** `${name==literal ? yes : no}`. */
  lemma ChosenByLiteral(w: World, depth: nat, name: string, literal: string, yes: string, no: string)
    requires PlainName(name) && PlainArm(yes) && PlainArm(no) && Trimmed(yes) && Trimmed(no)
    requires literal != "" && Without(literal, {' ', '&', '|', '?', '}'})
    requires name in w.data && Eval(w, depth, w.data[name]).Val?
    ensures Eval(w, depth + 1, "${" + name + "==" + literal + " ? " + yes + " : " + no + "}") ==
            Val(if Eval(w, depth, w.data[name]).value == literal then yes else no)
  {
    hide Eval, PlainArm, Trimmed;
    ChoiceByTest(w, depth, false, false, name, Some(literal), yes, no);
    assert "" + "" + name + ("==" + literal) == name + "==" + literal;
    assert "${" + (name + "==" + literal) == "${" + name + "==" + literal;
  }

  /** The start file for exception handling is linked in just in that mode. */
  lemma StartFile(w: World, depth: nat, name: string, literal: string, yes: string, no: string)
    requires name == "CXX_EH_MODE" && literal == "zerocost" && yes == "-l:crt1_for_eh.x" && no == "-l:crt1.x"
    requires name in w.data && Eval(w, depth, w.data[name]).Val?
    ensures Eval(w, depth + 1, "${" + name + "==" + literal + " ? " + yes + " : " + no + "}") ==
            Val(if Eval(w, depth, w.data[name]).value == literal then yes else no)
  {
    hide Eval, PlainName, PlainArm, Trimmed, Without;
    StartFileTest(name, literal);
    StartFileArm(yes);
    StartFileArm(no);
    ChosenByLiteral(w, depth, name, literal, yes, no);
  }

  lemma StartFileTest(name: string, literal: string)
    requires name == "CXX_EH_MODE" && literal == "zerocost"
    ensures PlainName(name) && literal != "" && Without(literal, {' ', '&', '|', '?', '}'})
  {
  }

  lemma StartFileArm(arm: string)
    requires arm == "-l:crt1_for_eh.x" || arm == "-l:crt1.x"
    ensures PlainArm(arm) && Trimmed(arm)
  {
  }

  /** `${first && !second ? yes : no}`, and the same with `||`. */
  lemma ChosenByTwo(w: World, depth: nat, first: string, isAnd: bool, negated: bool, second: string, yes: string,
                    no: string)
    requires PlainName(first) && PlainName(second)
    requires PlainArm(yes) && PlainArm(no) && Trimmed(yes) && Trimmed(no)
    requires first in w.data && Eval(w, depth, w.data[first]) in {Val("0"), Val("1")}
    requires second in w.data && Eval(w, depth, w.data[second]) in {Val("0"), Val("1")}
    ensures var one, two := Eval(w, depth, w.data[first]) == Val("1"), Eval(w, depth, w.data[second]) == Val("1");
            Eval(w, depth + 1,
                 "${" + first + (if isAnd then "&&" else "||") + (if negated then "!" else "") + second +
                 " ? " + yes + " : " + no + "}") ==
            Val(if isAnd && one && two != negated then yes
                else if !isAnd && (one || two != negated) then yes else no)
  {
    hide EvalText, PlainArm, Trimmed, PlainName, PrintBoolExpr, GoodBoolExpr, DenoteBoolExpr, StripPad, Without;
    InsideEval(w, depth);
    var c := Inside(w, depth);
    TwoTests(c, first, isAnd, negated, second);
    var op, bang := if isAnd then "&&" else "||", if negated then "!" else "";
    var test := Operator(Test(false, false, first, None), isAnd, Single(Test(negated, false, second + " ", None)));
    var front := first + op + bang + second;
    ChoiceText(c, test, front + " ", yes, no);
    SpelledText(front, yes, no);
    assert "${" + front == "${" + first + op + bang + second;
  }

  lemma TwoGood(v: BoolVal, isAnd: bool, u: BoolVal)
    requires GoodBoolExpr(Single(v), {'?', '}'}) && GoodBoolExpr(Single(u), {'?', '}'})
    requires FirstNot(StripPad(Single(v)), {' ', '@'})
    requires Without(PrintBoolVal(v), {'}'}) && Without(PrintBoolVal(u), {'}'})
    ensures var test := Operator(v, isAnd, Single(u));
            && GoodBoolExpr(test, {'?', '}'}) && FirstNot(StripPad(test), {' ', '@'})
            && PrintBoolExpr(test) == PrintBoolVal(v) + ((if isAnd then "&&" else "||") + PrintBoolVal(u))
            && Without(PrintBoolExpr(test), {'}'})
  {
    hide PrintBoolVal, GoodBoolVal;
  }

  lemma TwoTests(c: Context, first: string, isAnd: bool, negated: bool, second: string)
    requires PlainName(first) && PlainName(second)
    requires c.Lookup(first) in {Val("0"), Val("1")} && c.Lookup(second) in {Val("0"), Val("1")}
    ensures var one, two := c.Lookup(first) == Val("1"), c.Lookup(second) == Val("1");
            var right := Test(negated, false, second + " ", None);
            var test := Operator(Test(false, false, first, None), isAnd, Single(right));
            && PrintBoolExpr(test) ==
               first + (if isAnd then "&&" else "||") + (if negated then "!" else "") + second + " "
            && GoodBoolExpr(test, {'?', '}'}) && FirstNot(StripPad(test), {' ', '@'})
            && Without(PrintBoolExpr(test), {'}'})
            && DenoteBoolExpr(c, test) == Val(if isAnd then one && two != negated else one || two != negated)
  {
    hide PrintBoolVal, GoodBoolExpr, PrintBoolExpr, StripPad, Without, DenoteBoolVal, PlainName, Test, Context.Lookup;
    assert first + "" == first && "1" != "0" by { assert "1"[0] != "0"[0]; }
    TestPrints(false, false, first, None);
    TestPrints(negated, false, second + " ", None);
    TestGood(false, false, first, "", None);
    TestGood(negated, false, second, " ", None);
    TwoGood(Test(false, false, first, None), isAnd, Test(negated, false, second + " ", None));
    var op, bang := if isAnd then "&&" else "||", if negated then "!" else "";
    assert "" + "" + first + "" + (op + (bang + "" + (second + " ") + "")) == first + op + bang + second + " ";
    TestMeans(c, false, false, first, "", None);
    TestMeans(c, negated, false, second, " ", None);
  }
}
