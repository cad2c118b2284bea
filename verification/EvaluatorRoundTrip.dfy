/**
 The expression language's grammar as syntax trees, its eager semantics, its printed form, and the
 theorem that evaluating the printed form yields the semantics.
 */
module EvaluatorRoundTrip {
  import opened Evaluator
  import opened Options
  import opened Text

  // ----- Syntax

  /** Literal text interleaved with `${...}` substitutions. */
  datatype Expr = Literal(text: string) | Subst(text: string, inner: Bracket, rest: Expr)

  /** The inside of `${...}` or `%...%`. */
  datatype Bracket =
    | Var(pad: nat, name: Name)
    | Call(pad: nat, func: string, args: seq<string>)
    | Ternary(test: BoolExpr, yes: Expr, no: Option<Expr>)

  /** A variable name, possibly computed with `%...%`. */
  datatype Name = Plain(text: string) | Computed(text: string, inner: Bracket, right: Name)

  /** `v && rest` or `v || rest`: both associate to the right, with one precedence. */
  datatype BoolExpr = Single(val: BoolVal) | Operator(val: BoolVal, isAnd: bool, rest: BoolExpr)

  /** `!name`, `#name`, `name == text`, with the spaces that may surround the parts. */
  datatype BoolVal = BoolVal(pad: nat, negated: bool, padAfter: nat, useLen: bool, name: Name,
                             equals: Option<Literally>)

  datatype Literally = Literally(before: nat, text: string, after: nat)

  // ----- Semantics: every operand and both arms are evaluated, from left to right

  function DenoteExpr(c: Context, e: Expr): Outcome<string> {
    match e
    case Literal(text) => Val(text)
    case Subst(text, inner, rest) =>
      var middle :- DenoteBracket(c, inner);
      var right :- DenoteExpr(c, rest);
      Val(text + middle + right)
  }

  function DenoteBracket(c: Context, b: Bracket): Outcome<string> {
    match b
    case Var(_, name) =>
      var n :- DenoteName(c, name);
      c.Lookup(n)
    case Call(_, func, args) => c.Call(func, args)
    case Ternary(test, yes, no) =>
      var cond :- DenoteBoolExpr(c, test);
      var first :- DenoteExpr(c, yes);
      var second :- match no { case None => Val("") case Some(e) => DenoteExpr(c, e) };
      Val(Strip(if cond then first else second))
  }

  function DenoteName(c: Context, n: Name): Outcome<string> {
    match n
    case Plain(text) => Val(StripSpaces(text))
    case Computed(text, inner, right) =>
      var middle :- DenoteBracket(c, inner);
      var last :- DenoteName(c, right);
      Val(Strip(StripSpaces(text) + middle + last))
  }

  function DenoteBoolExpr(c: Context, b: BoolExpr): Outcome<bool> {
    match b
    case Single(v) => DenoteBoolVal(c, v)
    case Operator(v, isAnd, rest) =>
      var left :- DenoteBoolVal(c, v);
      var right :- DenoteBoolExpr(c, rest);
      Val(if isAnd then left && right else left || right)
  }

  function DenoteBoolVal(c: Context, v: BoolVal): Outcome<bool> {
    var name :- DenoteName(c, v.name);
    var contents :- c.Lookup(name);
    match v.equals
    case Some(lit) => if v.useLen then Fail(CombinedLengthAndEquality) else Val(v.negated != (contents == lit.text))
    case None =>
      if v.useLen then Val(v.negated != (contents != ""))
      else if contents == "1" then Val(!v.negated)
      else if contents == "0" then Val(v.negated)
      else Fail(NotBoolean)
  }

  // ----- Printed form

  function PrintExpr(e: Expr): string {
    match e
    case Literal(text) => text
    case Subst(text, inner, rest) => text + ("${" + (PrintBracket(inner) + ("}" + PrintExpr(rest))))
  }

  function PrintBracket(b: Bracket): string {
    match b
    case Var(pad, name) => Spaces(pad) + PrintName(name)
    case Call(pad, func, args) =>
      Spaces(pad) + PrintCall(func, args)
    case Ternary(test, yes, no) =>
      PrintBoolExpr(test) + ("?" + (PrintExpr(yes) + PrintNo(no)))
  }

  function PrintCall(func: string, args: seq<string>): string {
    "@" + (func + (if args == [] then "" else ":" + JoinWith(args, ":")))
  }

  function PrintNo(no: Option<Expr>): string {
    match no
    case None => ""
    case Some(e) => " : " + PrintExpr(e)
  }

  function PrintName(n: Name): string {
    match n
    case Plain(text) => text
    case Computed(text, inner, right) => text + ("%" + (PrintBracket(inner) + ("%" + PrintName(right))))
  }

  function PrintBoolExpr(b: BoolExpr): string {
    match b
    case Single(v) => PrintBoolVal(v)
    case Operator(v, isAnd, rest) => PrintBoolVal(v) + ((if isAnd then "&&" else "||") + PrintBoolExpr(rest))
  }

  function PrintBoolVal(v: BoolVal): string {
    Spaces(v.pad) + ((if v.negated then "!" else "") + (Spaces(v.padAfter) + ((if v.useLen then "#" else "") +
    (PrintName(v.name) + PrintEquals(v.equals)))))
  }

  function PrintEquals(e: Option<Literally>): string {
    match e
    case None => ""
    case Some(lit) => "==" + (Spaces(lit.before) + (lit.text + Spaces(lit.after)))
  }

  // ----- Which trees are written as intended

  /** Written directly before `follow`, the literal `text` contains no start of an element of `terms`. */
  predicate CleanText(text: string, follow: string, terms: seq<string>) {
    forall k: nat | k < |text| :: NoneAt(text + follow, k, terms)
  }

  predicate FreeOf(text: string, chars: set<char>) {
    forall c | c in text :: c !in chars
  }

  predicate FirstNot(text: string, chars: set<char>) {
    text != "" ==> text[0] !in chars
  }

  /** In `text + [stop]`, no `other` comes before the first `stop`. */
  predicate ReachesFirst(text: string, stop: char, other: char) {
    forall k: nat | k < |text| && text[k] == other :: exists m: nat :: m < k && text[m] == stop
  }

  predicate GoodExpr(e: Expr, follow: string, terms: seq<string>) {
    match e
    case Literal(text) => CleanText(text, follow, ["${"] + terms)
    case Subst(text, inner, rest) =>
      CleanText(text, "${", ["${"] + terms) && GoodBracket(inner, '}') && GoodExpr(rest, follow, terms)
  }

  /** `close` is the delimiter that ends the bracket. */
  predicate GoodBracket(b: Bracket, close: char) {
    match b
    case Var(_, name) =>
      && GoodName(name, {close})
      && FirstNot(PrintName(name), {' ', '@'})
      && ReachesFirst(PrintName(name), close, '?')
    case Call(_, func, args) =>
      FreeOf(func, {':', close}) && forall a | a in args :: FreeOf(a, {':', close})
    case Ternary(test, yes, no) =>
      && GoodBoolExpr(test, {'?', close})
      && FirstNot(StripPad(test), {' ', '@'})
      && ReachesFirst(PrintBoolExpr(test), '?', close)
      && (match no
          case None => GoodExpr(yes, [close], [" : ", [close]])
          case Some(e) => GoodExpr(yes, " : ", [" : ", [close]]) && GoodExpr(e, [close], [[close]]))
  }

  /** `stops` are the characters that end the name; a computed name needs '%' not to be one of them. */
  predicate GoodName(n: Name, stops: set<char>) {
    match n
    case Plain(text) => FreeOf(text, stops + {'%'})
    case Computed(text, inner, right) =>
      '%' !in stops && FreeOf(text, stops + {'%'}) && GoodBracket(inner, '%') && GoodName(right, stops)
  }

  /** `stops` are the characters that end the whole test. */
  predicate GoodBoolExpr(b: BoolExpr, stops: set<char>) {
    match b
    case Single(v) => GoodBoolVal(v, {'&', '|'} + stops)
    case Operator(v, _, rest) => GoodBoolVal(v, {'&', '|'} + stops) && GoodBoolExpr(rest, stops)
  }

  predicate GoodBoolVal(v: BoolVal, stops: set<char>) {
    && GoodName(v.name, {'='} + stops)
    && (!v.negated ==> v.padAfter == 0)
    && (!v.useLen ==> FirstNot(PrintName(v.name), {' ', '#'}))
    && (!v.useLen && !v.negated ==> FirstNot(PrintName(v.name), {'!'}))
    && (v.equals.Some? ==> GoodLiteral(v.equals.value, {' '} + stops))
  }

  predicate GoodLiteral(l: Literally, stops: set<char>) {
    FreeOf(l.text, stops) && (l.text == "" ==> l.after == 0)
  }

  function FirstVal(b: BoolExpr): BoolVal {
    b.val
  }

  /** The printed test without its leading spaces. */
  function StripPad(b: BoolExpr): string {
    var v := FirstVal(b);
    PrintBoolVal(v)[v.pad..]
  }

  // ----- Scanning printed text

  /** `terms` are one-character patterns, the characters of `chars`. */
  predicate OneChar(terms: seq<string>, chars: set<char>) {
    && (forall t | t in terms :: |t| == 1 && t[0] in chars)
    && (forall c | c in chars :: [c] in terms)
  }

  lemma OneCharCons(c: char, terms: seq<string>, chars: set<char>)
    requires OneChar(terms, chars)
    ensures OneChar([[c]] + terms, chars + {c}) && OneChar([[c]] + terms, {c} + chars)
    ensures forall x: char :: [x] in terms <==> x in chars
  {
    forall x: char | [x] in terms
      ensures x in chars
    {
      assert [x][0] == x;
    }
  }

  /** FindFirst stops at `p` when no pattern starts earlier and one starts there. */
  lemma StopsAt(s: string, pos: nat, terms: seq<string>, p: nat, t: string)
    requires pos <= p < |s| && t in terms && StartsAt(s, p, t)
    requires forall k: nat | pos <= k < p :: NoneAt(s, k, terms)
    ensures FindFirst(s, pos, terms).0.Some? && FindFirst(s, pos, terms).1 == p
  {
    hide FindFirst, StartsAt;
    var (m, i) := FindFirst(s, pos, terms);
    assert !NoneAt(s, p, terms);
    assert i < |s| ==> m.Some? && !NoneAt(s, i, terms);
    assert p < i ==> NoneAt(s, p, terms);
    assert i < p ==> NoneAt(s, i, terms);
  }

  /** FindFirst skips text free of the one-character patterns and stops at the pattern after it. */
  lemma SkipChars(s: string, pos: nat, text: string, terms: seq<string>, chars: set<char>)
    requires OneChar(terms, chars) && FreeOf(text, chars)
    requires StartsAt(s, pos, text) && pos + |text| < |s| && s[pos + |text|] in chars
    ensures FindFirst(s, pos, terms) == (Some([s[pos + |text|]]), pos + |text|)
    ensures [s[pos + |text|]] in terms && s[pos..pos + |text|] == text
  {
    hide FindFirst, StartsAt;
    var p := pos + |text|;
    CharsAt(s, pos, text);
    OneAt(s, p, s[p]);
    forall k: nat | pos <= k < p
      ensures NoneAt(s, k, terms)
    {
      assert s[k] == text[k - pos];
      NotHere(s, k, terms, chars);
    }
    StopsAt(s, pos, terms, p, [s[p]]);
    var m := FindFirst(s, pos, terms).0;
    CharsAt(s, p, m.value);
    assert m.value == [s[p]];
  }

  lemma NotHere(s: string, k: nat, terms: seq<string>, chars: set<char>)
    requires OneChar(terms, chars) && k < |s| && s[k] !in chars
    ensures NoneAt(s, k, terms)
  {
    forall t | t in terms
      ensures !StartsAt(s, k, t)
    {
      assert |t| == 1 && t[0] in chars;
    }
  }

  lemma SkipSpaces(s: string, pos: nat, n: nat)
    requires StartsAt(s, pos, Spaces(n)) && (pos + n < |s| ==> s[pos + n] != ' ')
    ensures Whitespace(s, pos) == pos + n
  {
    CharsAt(s, pos, Spaces(n));
    forall k: nat | pos <= k < pos + n
      ensures s[k] == ' '
    {
      assert s[pos + (k - pos)] == Spaces(n)[k - pos];
    }
  }

  /** What may follow an expression, given the terminators it is evaluated with. */
  predicate Ender(follow: string, terms: seq<string>) {
    || (follow == "" && terms == [])
    || (exists c | c in {'}', '%'} :: follow == [c] && terms == [[c]])
    || (exists c | c in {'}', '%'} :: (follow == [c] || follow == " : ") && terms == [" : ", [c]])
  }

  /** A pattern found within a printed piece is in the piece. */
  lemma Carries(s: string, pos: nat, all: string, d: nat, t: string)
    requires StartsAt(s, pos, all) && StartsAt(s, pos + d, t) && d + |t| <= |all|
    ensures StartsAt(all, d, t)
  {
    assert all == all[..d] + (all[d..d + |t|] + all[d + |t|..]);
    StartsAtConcat(s, pos, all[..d], all[d..d + |t|] + all[d + |t|..]);
    StartsAtConcat(s, pos + d, all[d..d + |t|], all[d + |t|..]);
  }

  /** No pattern that starts in a literal reaches beyond what follows the literal. */
  lemma Fits(s: string, pos: nat, text: string, follow: string, ender: string, terms: seq<string>, d: nat, t: string)
    requires Ender(ender, terms) && (follow == "${" || follow == ender)
    requires StartsAt(s, pos, text + follow) && (follow == "" ==> pos + |text| == |s|)
    requires t in ["${"] + terms && d < |text| && StartsAt(s, pos + d, t)
    ensures d + |t| <= |text + follow|
  {
    StartsAtConcat(s, pos, text, follow);
    CharsAt(s, pos + |text|, follow);
    CharsAt(s, pos + d, t);
  }

  lemma SkipText(s: string, pos: nat, text: string, follow: string, ender: string, terms: seq<string>)
    requires Ender(ender, terms) && (follow == "${" || follow == ender)
    requires CleanText(text, follow, ["${"] + terms) && StartsAt(s, pos, text + follow)
    requires follow == "" ==> pos + |text| == |s|
    ensures forall k: nat | pos <= k < pos + |text| :: NoneAt(s, k, ["${"] + terms)
  {
    hide StartsAt, Ender;
    forall k: nat, t | pos <= k < pos + |text| && t in ["${"] + terms
      ensures !StartsAt(s, k, t)
    {
      var d := k - pos;
      assert NoneAt(text + follow, d, ["${"] + terms);
      if StartsAt(s, pos + d, t) {
        Fits(s, pos, text, follow, ender, terms, d, t);
        Carries(s, pos, text + follow, d, t);
      }
    }
  }

  // ----- Evaluating printed text

  /** A printed name evaluates to its meaning, ending at the character that follows it. */
  lemma {:induction false} NameRuns(c: Context, s: string, pos: nat, n: Name, terms: seq<string>, stops: set<char>)
    requires OneChar(terms, stops) && GoodName(n, stops)
    requires StartsAt(s, pos, PrintName(n)) && pos + |PrintName(n)| < |s| && s[pos + |PrintName(n)|] in stops
    ensures EvalVarname(c, s, pos, terms) == At(DenoteName(c, n), pos + |PrintName(n)|)
    decreases n
  {
    hide EvalBoolVal, EvalEquality, EvalBoolExpr, EvalBracketExpr, EvalCall, EvalTernary, EvalExpr, DenoteExpr,
         DenoteBracket, DenoteBoolExpr, DenoteBoolVal, PrintExpr, PrintBracket, PrintBoolExpr, PrintBoolVal, GoodExpr,
         GoodBracket, GoodBoolExpr, GoodBoolVal, FindFirst, MatchAt, StartsAt, NoneAt, Whitespace, Strip, StripSpaces,
         SplitOn, JoinWith, Spaces, OneChar, FreeOf, EvalVarname;
    OneCharCons('%', terms, stops);
    VarnameCases(c, s, pos, terms);
    match n
    case Plain(text) =>
      SkipChars(s, pos, text, ["%"] + terms, stops + {'%'});
    case Computed(text, inner, right) =>
      ComputedParts(c, n, stops);
      hide PrintName, GoodName, DenoteName;
      NamePieces(s, pos, text, PrintBracket(inner), PrintName(right));
      SkipChars(s, pos, text, ["%"] + terms, stops + {'%'});
      var i := pos + |text|;
      BracketRuns(c, s, i + 1, inner, '%');
      NameRuns(c, s, i + |PrintBracket(inner)| + 2, right, terms, stops);
  }

  lemma ComputedParts(c: Context, n: Name, stops: set<char>)
    requires n.Computed? && GoodName(n, stops)
    ensures PrintName(n) == n.text + ("%" + (PrintBracket(n.inner) + ("%" + PrintName(n.right))))
    ensures '%' !in stops && FreeOf(n.text, stops + {'%'}) && GoodBracket(n.inner, '%') && GoodName(n.right, stops)
    ensures var m, r := DenoteBracket(c, n.inner), DenoteName(c, n.right);
            DenoteName(c, n) ==
            if m.Fail? then Fail(m.fault) else if r.Fail? then Fail(r.fault)
            else Val(Strip(StripSpaces(n.text) + m.value + r.value))
  {
    hide PrintBracket, GoodBracket, DenoteBracket, Strip, StripSpaces, FreeOf;
  }

  lemma NamePieces(s: string, pos: nat, text: string, inner: string, right: string)
    requires StartsAt(s, pos, text + ("%" + (inner + ("%" + right))))
    ensures StartsAt(s, pos, text)
    ensures var i := pos + |text|;
            && i < |s| && s[i] == '%' && StartsAt(s, i + 1, inner + "%")
            && var j := i + 1 + |inner|; j < |s| && s[j] == '%' && StartsAt(s, j + 1, right)
  {
    hide StartsAt;
    var i := pos + |text|;
    StartsAtConcat(s, pos, text, "%" + (inner + ("%" + right)));
    StartsAtConcat(s, i, "%", inner + ("%" + right));
    CharsAt(s, i, "%");
    assert inner + ("%" + right) == (inner + "%") + right;
    StartsAtConcat(s, i + 1, inner + "%", right);
    StartsAtConcat(s, i + 1, inner, "%");
    CharsAt(s, i + 1 + |inner|, "%");
  }

  /** A printed bracket evaluates to its meaning, ending at its closing delimiter. */
  lemma {:induction false} BracketRuns(c: Context, s: string, pos: nat, b: Bracket, close: char)
    requires StartsAt(s, pos, PrintBracket(b) + [close])
    requires close in {'}', '%'} && GoodBracket(b, close)
    ensures EvalBracketExpr(c, s, pos, [[close]]) == At(DenoteBracket(c, b), pos + |PrintBracket(b)|)
    decreases b, 1
  {
    hide EvalVarname, EvalBoolVal, EvalEquality, EvalBoolExpr, EvalBracketExpr, EvalCall, EvalTernary, EvalExpr,
         DenoteExpr, DenoteBracket, DenoteName, DenoteBoolExpr, DenoteBoolVal, PrintExpr, PrintBracket, PrintName,
         PrintBoolExpr, PrintBoolVal, GoodExpr, GoodBracket, GoodName, GoodBoolExpr, GoodBoolVal, FindFirst, MatchAt,
         StartsAt, NoneAt, Whitespace, Strip, StripSpaces, SplitOn, JoinWith, Spaces;
    match b
    case Var(_, _) => VarRuns(c, s, pos, b, close);
    case Call(pad, func, args) =>
      CallPrints(b, close);
      CallRuns(c, s, pos, pad, func, args, close);
      BracketCalls(c, s, pos, b, close);
    case Ternary(test, yes, no) =>
      TernaryPrints(b, close);
      TernaryPieces(s, pos, PrintBoolExpr(test), PrintExpr(yes), no, close);
      TestRuns(c, s, pos, test, close);
      var i, terms := pos + |PrintBoolExpr(test)| + 1, [" : ", [close]];
      assert [" : "] + [[close]] == terms;
      EnderCases(close);
      if no.None? {
        ExprRuns(c, s, i, yes, [close], terms);
      } else {
        ExprRuns(c, s, i, yes, " : ", terms);
        ExprRuns(c, s, i + |PrintExpr(yes)| + 3, no.value, [close], [[close]]);
      }
      TernaryMeans(c, s, pos, b, close);
      TernaryCases(c, s, Whitespace(s, pos), [[close]]);
  }

  lemma TernaryPrints(b: Bracket, close: char)
    requires b.Ternary? && GoodBracket(b, close)
    ensures PrintBracket(b) == PrintBoolExpr(b.test) + ("?" + (PrintExpr(b.yes) + PrintNo(b.no)))
    ensures GoodBoolExpr(b.test, {'?', close}) && FirstNot(StripPad(b.test), {' ', '@'})
    ensures ReachesFirst(PrintBoolExpr(b.test), '?', close)
    ensures b.no.None? ==> GoodExpr(b.yes, [close], [" : ", [close]]) && PrintNo(b.no) == ""
    ensures b.no.Some? ==> GoodExpr(b.yes, " : ", [" : ", [close]]) && GoodExpr(b.no.value, [close], [[close]])
    ensures b.no.Some? ==> PrintNo(b.no) == " : " + PrintExpr(b.no.value)
  {
    hide PrintBoolExpr, PrintExpr, GoodBoolExpr, GoodExpr, FirstNot, ReachesFirst, StripPad;
  }

  /** The ternary branch is taken where the look-ahead sees a '?'; both arms are evaluated, one is chosen. */
  lemma TernaryMeans(c: Context, s: string, pos: nat, b: Bracket, close: char)
    requires close in {'}', '%'} && b.Ternary? && pos <= |s|
    requires var from := Whitespace(s, pos);
             from < |s| && s[from] != '@' && FindFirst(s, from, ["?"] + [[close]]).0 == Some("?")
    ensures EvalBracketExpr(c, s, pos, [[close]]) == EvalTernary(c, s, Whitespace(s, pos), [[close]])
    ensures var test, yes := DenoteBoolExpr(c, b.test), DenoteExpr(c, b.yes);
            DenoteBracket(c, b) ==
            if test.Fail? then Fail(test.fault)
            else if yes.Fail? then yes
            else if b.no.None? then Val(Strip(if test.value then yes.value else ""))
            else if DenoteExpr(c, b.no.value).Fail? then DenoteExpr(c, b.no.value)
            else Val(Strip(if test.value then yes.value else DenoteExpr(c, b.no.value).value))
  {
    hide EvalTernary, Whitespace, FindFirst, DenoteName, DenoteExpr, DenoteBoolExpr, Strip;
  }

  lemma CallPrints(b: Bracket, close: char)
    requires b.Call? && GoodBracket(b, close)
    ensures PrintBracket(b) == Spaces(b.pad) + PrintCall(b.func, b.args)
    ensures FreeOf(b.func, {':', close}) && forall a | a in b.args :: FreeOf(a, {':', close})
  {
    hide PrintCall, FreeOf, Spaces;
  }

  lemma BracketCalls(c: Context, s: string, pos: nat, b: Bracket, close: char)
    requires close in {'}', '%'} && b.Call? && pos <= |s| && Whitespace(s, pos) < |s| && s[Whitespace(s, pos)] == '@'
    ensures EvalBracketExpr(c, s, pos, [[close]]) == EvalCall(c, s, Whitespace(s, pos), [[close]])
    ensures DenoteBracket(c, b) == c.Call(b.func, b.args)
  {
    hide EvalCall, Whitespace, DenoteName, DenoteExpr, DenoteBoolExpr;
  }

  lemma {:induction false} VarRuns(c: Context, s: string, pos: nat, b: Bracket, close: char)
    requires close in {'}', '%'} && b.Var? && GoodBracket(b, close)
    requires StartsAt(s, pos, PrintBracket(b) + [close])
    ensures EvalBracketExpr(c, s, pos, [[close]]) == At(DenoteBracket(c, b), pos + |PrintBracket(b)|)
    decreases b, 0
  {
    hide EvalVarname, EvalBoolVal, EvalEquality, EvalBoolExpr, EvalCall, EvalTernary, EvalExpr, DenoteExpr, DenoteName,
         DenoteBoolExpr, DenoteBoolVal, PrintExpr, PrintName, PrintBoolExpr, PrintBoolVal, GoodExpr, GoodName,
         GoodBoolExpr, GoodBoolVal, FindFirst, MatchAt, StartsAt, NoneAt, Whitespace, Strip, StripSpaces, SplitOn,
         JoinWith, Spaces, FreeOf, ReachesFirst;
    var Var(pad, name) := b;
    var text := PrintName(name);
    assert PrintBracket(b) + [close] == Spaces(pad) + (text + [close]);
    StartsAtConcat(s, pos, Spaces(pad), text + [close]);
    var from := pos + pad;
    StartsAtConcat(s, from, text, [close]);
    CharsAt(s, from + |text|, [close]);
    CharsAt(s, from, text);
    SkipSpaces(s, pos, pad);
    LooksPlain(s, from, text, close);
    assert OneChar([[close]], {close});
    NameRuns(c, s, from, name, [[close]], {close});
  }

  /** FindFirst goes no further than the start of a pattern. */
  lemma NoFurther(s: string, pos: nat, terms: seq<string>, p: nat, t: string)
    requires pos <= p < |s| && t in terms && StartsAt(s, p, t)
    ensures FindFirst(s, pos, terms).0.Some? && FindFirst(s, pos, terms).1 <= p
  {
    assert !NoneAt(s, p, terms);
  }

  /** In `text + [end]`, FindFirst of one-character patterns that include `end` finds a character that none precedes. */
  lemma FirstChar(s: string, pos: nat, text: string, end: char, terms: seq<string>, chars: set<char>) returns (k: nat)
    requires OneChar(terms, chars) && end in chars && StartsAt(s, pos, text + [end])
    ensures k <= |text| && FindFirst(s, pos, terms) == (Some([(text + [end])[k]]), pos + k)
    ensures forall n: nat | n < k :: text[n] !in chars
  {
    hide FindFirst, MatchAt, StartsAt;
    StartsAtConcat(s, pos, text, [end]);
    CharsAt(s, pos, text + [end]);
    CharsAt(s, pos + |text|, [end]);
    NoFurther(s, pos, terms, pos + |text|, [end]);
    var (m, i) := FindFirst(s, pos, terms);
    k := i - pos;
    CharsAt(s, i, m.value);
    assert m.value == [s[pos + k]];
    forall n: nat | n < k
      ensures text[n] !in chars
    {
      assert NoneAt(s, pos + n, terms);
      if text[n] in chars {
        assert s[pos + n] == (text + [end])[n];
        OneAt(s, pos + n, text[n]);
      }
    }
  }

  lemma OneAt(s: string, pos: nat, c: char)
    requires pos < |s| && s[pos] == c
    ensures StartsAt(s, pos, [c])
  {
  }

  /** The look-ahead takes the variable branch when no '?' precedes the closing delimiter. */
  lemma LooksPlain(s: string, pos: nat, text: string, close: char)
    requires close in {'}', '%'} && ReachesFirst(text, close, '?') && StartsAt(s, pos, text + [close])
    ensures FindFirst(s, pos, ["?"] + [[close]]).0 != Some("?")
  {
    hide FindFirst, MatchAt, StartsAt;
    assert OneChar(["?"] + [[close]], {'?', close});
    var k := FirstChar(s, pos, text, close, ["?"] + [[close]], {'?', close});
    assert "?"[0] == '?';
  }

  lemma LooksTernary(s: string, pos: nat, text: string, close: char)
    requires close in {'}', '%'} && ReachesFirst(text, '?', close) && StartsAt(s, pos, text + "?")
    ensures FindFirst(s, pos, ["?"] + [[close]]).0 == Some("?")
  {
    hide FindFirst, MatchAt, StartsAt;
    assert OneChar(["?"] + [[close]], {'?', close});
    assert text + "?" == text + ['?'];
    var k := FirstChar(s, pos, text, '?', ["?"] + [[close]], {'?', close});
    assert "?"[0] == '?';
  }

  lemma CallRuns(c: Context, s: string, pos: nat, pad: nat, func: string, args: seq<string>, close: char)
    requires close in {'}', '%'} && FreeOf(func, {':', close}) && forall a | a in args :: FreeOf(a, {':', close})
    requires StartsAt(s, pos, Spaces(pad) + PrintCall(func, args) + [close])
    ensures Whitespace(s, pos) == pos + pad < |s| && s[pos + pad] == '@'
    ensures EvalCall(c, s, pos + pad, [[close]]) == At(c.Call(func, args), pos + pad + |PrintCall(func, args)|)
  {
    hide EvalCall, PrintCall, FindFirst, MatchAt, StartsAt, NoneAt, Whitespace, SplitOn, JoinWith, Spaces, FreeOf;
    var terms := [[close]];
    assert OneChar(terms, {close});
    assert Spaces(pad) + PrintCall(func, args) + [close] == Spaces(pad) + (PrintCall(func, args) + [close]);
    StartsAtConcat(s, pos, Spaces(pad), PrintCall(func, args) + [close]);
    CallArgsRun(c, s, pos + pad, func, args, terms, close);
    SkipSpaces(s, pos, pad);
  }

  lemma CallArgsRun(c: Context, s: string, at: nat, func: string, args: seq<string>, terms: seq<string>, close: char)
    requires OneChar(terms, {close}) && Closing(terms) && close != ':' && close != '@'
    requires FreeOf(func, {':', close}) && forall a | a in args :: FreeOf(a, {':', close})
    requires StartsAt(s, at, PrintCall(func, args) + [close])
    ensures at < |s| && s[at] == '@'
    ensures EvalCall(c, s, at, terms) == At(c.Call(func, args), at + |PrintCall(func, args)|)
  {
    hide FindFirst, MatchAt, StartsAt, NoneAt, OneChar, SplitOn, JoinWith, PrintCall;
    CallPieces(s, at, func, args, close);
    OneCharCons(':', terms, {close});
    assert {':'} + {close} == {':', close};
    var i := at + 1 + |func|;
    SkipChars(s, at, "@" + func, [":"] + terms, {':', close});
    assert s[at + 1..i] == func;
    if args != [] {
      var joined := JoinWith(args, ":");
      assert FreeOf(joined, {close}) by { JoinWithFree(args, ":", close); }
      SkipChars(s, i + 1, joined, terms, {close});
      SplitJoinOn(args, ':');
    }
  }

  lemma CallPieces(s: string, at: nat, func: string, args: seq<string>, close: char)
    requires StartsAt(s, at, PrintCall(func, args) + [close])
    ensures at < |s| && s[at] == '@' && StartsAt(s, at, "@" + func)
    ensures at + 1 + |func| < |s| && s[at + 1..at + 1 + |func|] == func
    ensures args == [] ==> |PrintCall(func, args)| == 1 + |func| && s[at + 1 + |func|] == close
    ensures args != [] ==>
      var joined := JoinWith(args, ":");
      var from := at + 2 + |func|;
      && |PrintCall(func, args)| == 2 + |func| + |joined|
      && s[from - 1] == ':' && StartsAt(s, from, joined)
      && from + |joined| < |s| && s[from..from + |joined|] == joined && s[from + |joined|] == close
  {
    hide StartsAt, JoinWith;
    var head, joined := "@" + func, JoinWith(args, ":");
    var tail := if args == [] then "" else ":" + joined;
    assert PrintCall(func, args) + [close] == head + (tail + [close]);
    StartsAtConcat(s, at, head, tail + [close]);
    StartsAtConcat(s, at, "@", func);
    CharsAt(s, at, "@");
    CharsAt(s, at + 1, func);
    var i := at + |head|;
    StartsAtConcat(s, i, tail, [close]);
    CharsAt(s, i, tail);
    CharsAt(s, i + |tail|, [close]);
    if args != [] {
      StartsAtConcat(s, i, ":", joined);
      CharsAt(s, i + 1, joined);
    }
  }

  lemma EnderCases(close: char)
    requires close in {'}', '%'}
    ensures Ender([close], [[close]]) && Ender([close], [" : ", [close]]) && Ender(" : ", [" : ", [close]])
  {
  }

  lemma TernaryPieces(s: string, pos: nat, test: string, yes: string, no: Option<Expr>, close: char)
    requires close in {'}', '%'}
    requires StartsAt(s, pos, (test + ("?" + (yes + PrintNo(no)))) + [close])
    ensures StartsAt(s, pos, test + "?") && pos + |test| < |s| && s[pos + |test|] == '?'
    ensures
      var j := pos + |test| + 1 + |yes|;
      && StartsAt(s, j - |yes|, yes + if no.None? then [close] else " : ")
      && j + |PrintNo(no)| < |s| && s[j + |PrintNo(no)|] == close
      && (no.None? ==> !StartsAt(s, j, " : "))
      && (no.Some? ==> StartsAt(s, j, " : ") && StartsAt(s, j + 3, PrintExpr(no.value) + [close]))
  {
    hide StartsAt, PrintExpr;
    var tail := PrintNo(no) + [close];
    assert (test + ("?" + (yes + PrintNo(no)))) + [close] == (test + "?") + (yes + tail);
    StartsAtConcat(s, pos, test + "?", yes + tail);
    StartsAtConcat(s, pos, test, "?");
    CharsAt(s, pos + |test|, "?");
    var i := pos + |test| + 1;
    StartsAtConcat(s, i, yes, tail);
    var j := i + |yes|;
    StartsAtConcat(s, j, PrintNo(no), [close]);
    CharsAt(s, j + |PrintNo(no)|, [close]);
    if no.None? {
      assert tail == [close];
      if StartsAt(s, j, " : ") { CharsAt(s, j, " : "); }
    } else {
      assert tail == " : " + (PrintExpr(no.value) + [close]);
      StartsAtConcat(s, j, " : ", PrintExpr(no.value) + [close]);
      StartsAtConcat(s, i, yes, " : ");
    }
  }

  /** The test of a printed ternary is recognised as one and evaluates to its meaning, ending at the '?'. */
  lemma {:induction false} TestRuns(c: Context, s: string, pos: nat, test: BoolExpr, close: char)
    requires close in {'}', '%'} && GoodBoolExpr(test, {'?', close}) && FirstNot(StripPad(test), {' ', '@'})
    requires ReachesFirst(PrintBoolExpr(test), '?', close)
    requires StartsAt(s, pos, PrintBoolExpr(test) + "?")
    ensures var from := Whitespace(s, pos);
            && from < |s| && s[from] != '@' && FindFirst(s, from, ["?"] + [[close]]).0 == Some("?")
            && EvalBoolExpr(c, s, from, ["?"] + [[close]]) == At(DenoteBoolExpr(c, test), pos + |PrintBoolExpr(test)|)
    decreases test, 1
  {
    hide EvalVarname, EvalBoolVal, EvalEquality, EvalBoolExpr, EvalBracketExpr, EvalCall, EvalTernary, EvalExpr,
         DenoteExpr, DenoteBracket, DenoteName, DenoteBoolExpr, DenoteBoolVal, PrintExpr, PrintBracket, PrintName,
         PrintBoolExpr, PrintBoolVal, GoodExpr, GoodBracket, GoodName, GoodBoolExpr, GoodBoolVal, FindFirst, MatchAt,
         StartsAt, NoneAt, Whitespace, Strip, StripSpaces, SplitOn, JoinWith, Spaces, FirstNot, ReachesFirst;
    StartsAtConcat(s, pos, PrintBoolExpr(test), "?");
    CharsAt(s, pos + |PrintBoolExpr(test)|, "?");
    assert OneChar(["?"] + [[close]], {'?', close});
    BoolExprRuns(c, s, pos, test, ["?"] + [[close]], {'?', close});
    var rest := TestStart(test, close);
    BracketStart(s, pos, FirstVal(test).pad, rest, close);
    SkipBoolPad(c, s, pos, close);
  }

  /** eval_bool_val skips the spaces eval_bracket_expr has already skipped, if any. */
  lemma SkipBoolPad(c: Context, s: string, pos: nat, close: char)
    requires pos <= |s|
    ensures EvalBoolExpr(c, s, Whitespace(s, pos), ["?"] + [[close]]) == EvalBoolExpr(c, s, pos, ["?"] + [[close]])
  {
    hide EvalVarname, EvalEquality, EvalBracketExpr, EvalCall, EvalTernary, EvalExpr, FindFirst, MatchAt, StartsAt,
         NoneAt, Strip, StripSpaces, SplitOn, JoinWith, Spaces;
    var from := Whitespace(s, pos);
    assert Whitespace(s, from) == from;
    assert EvalBoolVal(c, s, from, ["&", "|"] + (["?"] + [[close]])) ==
        EvalBoolVal(c, s, pos, ["&", "|"] + (["?"] + [[close]]));
  }

  /** A printed test is its leading spaces and then neither a space nor '@'. */
  lemma TestStart(test: BoolExpr, close: char) returns (rest: string)
    requires GoodBoolExpr(test, {'?', close}) && FirstNot(StripPad(test), {' ', '@'})
    ensures PrintBoolExpr(test) == Spaces(FirstVal(test).pad) + rest
    ensures FirstNot(rest, {' ', '@'})
  {
    hide PrintExpr, PrintBracket, PrintName, PrintEquals, GoodBoolExpr, GoodBoolVal, Spaces;
    var v := FirstVal(test);
    var vt := PrintBoolVal(v);
    var own := StripPad(test);
    assert vt == Spaces(v.pad) + own;
    match test
    case Single(_) => rest := own;
    case Operator(_, isAnd, r) =>
      var more := (if isAnd then "&&" else "||") + PrintBoolExpr(r);
      rest := own + more;
      assert PrintBoolExpr(test) == vt + more;
  }

  /** Before a printed test, the bracket evaluator sees neither a call nor a plain variable. */
  lemma BracketStart(s: string, pos: nat, pad: nat, rest: string, close: char)
    requires close in {'}', '%'} && FirstNot(rest, {' ', '@'})
    requires ReachesFirst(Spaces(pad) + rest, '?', close)
    requires StartsAt(s, pos, (Spaces(pad) + rest) + "?")
    ensures var from := Whitespace(s, pos);
            from < |s| && s[from] != '@' && FindFirst(s, from, ["?"] + [[close]]).0 == Some("?")
  {
    hide FindFirst, MatchAt, StartsAt, NoneAt, Whitespace;
    var whole := Spaces(pad) + rest;
    assert whole + "?" == Spaces(pad) + (rest + "?");
    StartsAtConcat(s, pos, Spaces(pad), rest + "?");
    CharsAt(s, pos + pad, rest + "?");
    SkipSpaces(s, pos, pad);
    forall k: nat | k < |rest| && rest[k] == close
      ensures exists m: nat :: m < k && rest[m] == '?'
    {
      assert whole[pad + k] == close;
      var m: nat :| m < pad + k && whole[m] == '?';
      assert m >= pad && rest[m - pad] == '?';
    }
    LooksTernary(s, pos + pad, rest, close);
  }

  lemma {:induction false} BoolExprRuns(c: Context, s: string, pos: nat, b: BoolExpr, terms: seq<string>,
                                        stops: set<char>)
    requires OneChar(terms, stops) && stops !! {' ', '=', '!', '#', '&', '|'}
    requires GoodBoolExpr(b, stops) && StartsAt(s, pos, PrintBoolExpr(b))
    requires pos + |PrintBoolExpr(b)| < |s| && s[pos + |PrintBoolExpr(b)|] in stops
    ensures EvalBoolExpr(c, s, pos, terms) == At(DenoteBoolExpr(c, b), pos + |PrintBoolExpr(b)|)
    decreases b, 0
  {
    hide EvalVarname, EvalBoolVal, EvalEquality, EvalBracketExpr, EvalCall, EvalTernary, EvalExpr, DenoteExpr,
         DenoteBracket, DenoteName, DenoteBoolVal, PrintExpr, PrintBracket, PrintName, PrintBoolVal, GoodExpr,
         GoodBracket, GoodName, GoodBoolVal, FindFirst, MatchAt, StartsAt, NoneAt, Whitespace, Strip, StripSpaces,
         SplitOn, JoinWith, Spaces, OneChar, EvalBoolExpr;
    BoolExprCases(c, s, pos, terms);
    AndOr(terms, stops);
    match b
    case Single(v) =>
      BoolValRuns(c, s, pos, v, ["&", "|"] + terms, {'&', '|'} + stops);
    case Operator(v, isAnd, rest) =>
      var op := if isAnd then "&&" else "||";
      StartsAtConcat(s, pos, PrintBoolVal(v), op + PrintBoolExpr(rest));
      var i := pos + |PrintBoolVal(v)|;
      StartsAtConcat(s, i, op, PrintBoolExpr(rest));
      CharsAt(s, i, op);
      BoolValRuns(c, s, pos, v, ["&", "|"] + terms, {'&', '|'} + stops);
      BoolExprRuns(c, s, i + 2, rest, terms, stops);
  }

  lemma AndOr(terms: seq<string>, stops: set<char>)
    requires OneChar(terms, stops)
    ensures OneChar(["&", "|"] + terms, {'&', '|'} + stops)
  {
    OneCharCons('|', terms, stops);
    OneCharCons('&', ["|"] + terms, {'|'} + stops);
    assert ["&", "|"] + terms == ["&"] + (["|"] + terms) && {'&', '|'} + stops == {'&'} + ({'|'} + stops);
  }

  lemma {:induction false} BoolValRuns(c: Context, s: string, pos: nat, v: BoolVal, terms: seq<string>,
                                       stops: set<char>)
    requires OneChar(terms, stops) && stops !! {' ', '=', '!', '#'}
    requires GoodBoolVal(v, stops) && StartsAt(s, pos, PrintBoolVal(v))
    requires pos + |PrintBoolVal(v)| < |s| && s[pos + |PrintBoolVal(v)|] in stops
    ensures EvalBoolVal(c, s, pos, terms) == At(DenoteBoolVal(c, v), pos + |PrintBoolVal(v)|)
    decreases v
  {
    hide EvalVarname, EvalEquality, EvalBoolExpr, EvalBracketExpr, EvalCall, EvalTernary, EvalExpr, DenoteExpr,
         DenoteBracket, DenoteName, DenoteBoolExpr, PrintExpr, PrintBracket, PrintName, PrintBoolExpr, PrintBoolVal,
         GoodExpr, GoodBracket, GoodName, GoodBoolExpr, FindFirst, MatchAt, StartsAt, NoneAt, Whitespace, Strip,
         StripSpaces, SplitOn, JoinWith, Spaces, OneChar, FirstNot, PrintEquals, GoodLiteral, Context.Lookup;
    var at := FlagsRun(s, pos, v, stops);
    var name, tail := PrintName(v.name), PrintEquals(v.equals);
    StartsAtConcat(s, at, name, tail);
    var j := at + |name|;
    CharsAt(s, j, tail);
    EqualsStart(v.equals);
    OneCharCons('=', terms, stops);
    NameRuns(c, s, at, v.name, ["="] + terms, {'='} + stops);
    BoolValCases(c, s, pos, terms, at);
    hide EvalBoolVal;
    var n := DenoteName(c, v.name);
    if v.equals.Some? && n.Val? && c.Lookup(n.value).Val? {
      EqualityRuns(s, j, v.equals.value, terms, stops, v.negated, v.useLen, c.Lookup(n.value).value);
    }
  }

  lemma EqualsStart(e: Option<Literally>)
    ensures e.None? ==> PrintEquals(e) == ""
    ensures e.Some? ==> PrintEquals(e) != "" && PrintEquals(e)[0] == '='
  {
  }

  /** The flags of a printed operand are read as written; `at` is where its variable name starts. */
  lemma FlagsRun(s: string, pos: nat, v: BoolVal, stops: set<char>) returns (at: nat)
    requires stops !! {' ', '=', '!', '#'} && GoodBoolVal(v, stops)
    requires StartsAt(s, pos, PrintBoolVal(v))
    requires pos + |PrintBoolVal(v)| < |s| && s[pos + |PrintBoolVal(v)|] in stops
    ensures at + |PrintName(v.name) + PrintEquals(v.equals)| == pos + |PrintBoolVal(v)|
    ensures StartsAt(s, at, PrintName(v.name) + PrintEquals(v.equals))
    ensures var p1 := Whitespace(s, pos);
            && p1 < |s| && v.negated == (s[p1] == '!')
            && var p2 := Whitespace(s, if v.negated then p1 + 1 else p1);
               p2 < |s| && v.useLen == (s[p2] == '#') && at == if v.useLen then p2 + 1 else p2
  {
    hide PrintExpr, PrintBracket, PrintName, PrintEquals, PrintBoolExpr, GoodExpr, GoodBracket, GoodName, GoodBoolExpr,
         GoodLiteral, FindFirst, MatchAt, StartsAt, NoneAt, Whitespace, Strip, StripSpaces, SplitOn, JoinWith, Spaces,
         FreeOf;
    var rest := PrintName(v.name) + PrintEquals(v.equals);
    var bang, hash := if v.negated then "!" else "", if v.useLen then "#" else "";
    FlagPieces(s, pos, v.pad, bang, v.padAfter, hash, rest);
    EqualsStart(v.equals);
    var p2 := pos + v.pad + |bang|;
    at := p2 + v.padAfter + |hash|;
    assert at + |rest| == pos + |PrintBoolVal(v)|;
    assert rest != "" ==> rest[0] == if PrintName(v.name) == "" then '=' else PrintName(v.name)[0];
    SkipSpaces(s, p2, v.padAfter);
    SkipSpaces(s, pos, v.pad);
  }

  lemma FlagPieces(s: string, pos: nat, pad: nat, bang: string, padAfter: nat, hash: string, rest: string)
    requires StartsAt(s, pos, Spaces(pad) + (bang + (Spaces(padAfter) + (hash + rest))))
    ensures StartsAt(s, pos, Spaces(pad))
    ensures var p1 := pos + pad;
            && (bang != "" ==> p1 < |s| && s[p1] == bang[0])
            && var p2 := p1 + |bang|;
               && StartsAt(s, p2, Spaces(padAfter)) && (padAfter > 0 ==> p2 < |s| && s[p2] == ' ')
               && var p3 := p2 + padAfter;
                  && (hash != "" ==> p3 < |s| && s[p3] == hash[0])
                  && var at := p3 + |hash|;
                     StartsAt(s, at, rest) && (rest != "" ==> at < |s| && s[at] == rest[0])
  {
    hide StartsAt;
    StartsAtConcat(s, pos, Spaces(pad), bang + (Spaces(padAfter) + (hash + rest)));
    var p1 := pos + pad;
    StartsAtConcat(s, p1, bang, Spaces(padAfter) + (hash + rest));
    var p2 := p1 + |bang|;
    StartsAtConcat(s, p2, Spaces(padAfter), hash + rest);
    var p3 := p2 + padAfter;
    StartsAtConcat(s, p3, hash, rest);
    CharsAt(s, p1, bang);
    CharsAt(s, p2, Spaces(padAfter));
    CharsAt(s, p3, hash);
    CharsAt(s, p3 + |hash|, rest);
  }

  lemma EqualityRuns(s: string, j: nat, l: Literally, terms: seq<string>, stops: set<char>,
                     negated: bool, useLen: bool, contents: string)
    requires OneChar(terms, stops) && ' ' !in stops && GoodLiteral(l, {' '} + stops)
    requires StartsAt(s, j, PrintEquals(Some(l)))
    requires j + |PrintEquals(Some(l))| < |s| && s[j + |PrintEquals(Some(l))|] in stops
    ensures j < |s| && s[j] == '='
    ensures
      EvalEquality(s, j, terms, negated, useLen, contents) ==
      if useLen then Err(CombinedLengthAndEquality)
      else Ok(negated != (contents == l.text), j + |PrintEquals(Some(l))|)
  {
    hide EvalEquality, FindFirst, StartsAt, Whitespace, Spaces, OneChar;
    EqualityPieces(s, j, l.before, l.text, l.after);
    OneCharCons(' ', terms, stops);
    NotBlankFirst(l, stops);
    hide FreeOf;
    var from := j + 2 + l.before;
    var to := from + |l.text|;
    assert to + l.after == j + |PrintEquals(Some(l))|;
    SkipSpaces(s, j + 2, l.before);
    SkipChars(s, from, l.text, [" "] + terms, {' '} + stops);
    SkipSpaces(s, to, l.after);
    EqualityAt(s, j, terms, negated, useLen, contents, from, to, to + l.after);
  }

  lemma NotBlankFirst(l: Literally, stops: set<char>)
    requires GoodLiteral(l, {' '} + stops)
    ensures FreeOf(l.text, {' '} + stops) && (l.text != "" ==> l.text[0] != ' ') && (l.text == "" ==> l.after == 0)
  {
  }

  lemma EqualityAt(s: string, j: nat, terms: seq<string>, negated: bool, useLen: bool, contents: string,
                   from: nat, to: nat, end: nat)
    requires j + 1 < |s| && s[j + 1] == '=' && j + 2 <= from <= to <= end < |s|
    requires Whitespace(s, j + 2) == from && FindFirst(s, from, [" "] + terms).1 == to && Whitespace(s, to) == end
    ensures EvalEquality(s, j, terms, negated, useLen, contents) ==
            if useLen then Err(CombinedLengthAndEquality) else Ok(negated != (contents == s[from..to]), end)
  {
    hide FindFirst, Whitespace;
  }

  lemma EqualityPieces(s: string, j: nat, before: nat, text: string, after: nat)
    requires StartsAt(s, j, "==" + (Spaces(before) + (text + Spaces(after))))
    ensures j + 2 <= |s| && s[j] == '=' && s[j + 1] == '='
    ensures StartsAt(s, j + 2, Spaces(before))
    ensures StartsAt(s, j + 2 + before, text) && (text != "" ==> s[j + 2 + before] == text[0])
    ensures StartsAt(s, j + 2 + before + |text|, Spaces(after)) && (after > 0 ==> s[j + 2 + before + |text|] == ' ')
  {
    hide StartsAt, Spaces;
    StartsAtConcat(s, j, "==", Spaces(before) + (text + Spaces(after)));
    CharsAt(s, j, "==");
    StartsAtConcat(s, j + 2, Spaces(before), text + Spaces(after));
    var p1 := j + 2 + before;
    StartsAtConcat(s, p1, text, Spaces(after));
    CharsAt(s, p1, text);
    CharsAt(s, p1 + |text|, Spaces(after));
  }

  /** Scanning a literal of an expression stops at what follows it, and tells a substitution from an end. */
  lemma TextRuns(s: string, pos: nat, text: string, follow: string, ender: string, terms: seq<string>)
    requires Ender(ender, terms) && (follow == "${" || follow == ender)
    requires CleanText(text, follow, ["${"] + terms) && StartsAt(s, pos, text + follow)
    requires follow == "" ==> pos + |text| == |s|
    ensures pos + |text| <= |s| && s[pos..pos + |text|] == text
    ensures FindFirst(s, pos, ["${"] + terms).1 == pos + |text|
    ensures follow == "${" ==> pos + |text| < |s| && FindFirst(s, pos, ["${"] + terms).0.value !in terms
    ensures follow == ender && ender != "" ==> pos + |text| < |s| && FindFirst(s, pos, ["${"] + terms).0.value in terms
  {
    hide FindFirst, MatchAt, StartsAt, CleanText;
    SkipText(s, pos, text, follow, ender, terms);
    StartsAtConcat(s, pos, text, follow);
    CharsAt(s, pos, text);
    var p := pos + |text|;
    var (m, i) := FindFirst(s, pos, ["${"] + terms);
    CharsAt(s, p, follow);
    if follow == "" {
      assert m.Some? ==> !NoneAt(s, i, ["${"] + terms);
    } else {
      assert follow in ["${"] + terms;
      StopsAt(s, pos, ["${"] + terms, p, follow);
      CharsAt(s, p, m.value);
      assert m.value != "" && m.value[0] == follow[0];
    }
  }

  /** A printed expression evaluates to its meaning, ending where the text that follows it starts. */
  lemma {:induction false} ExprRuns(c: Context, s: string, pos: nat, e: Expr, follow: string, terms: seq<string>)
    requires Ender(follow, terms) && GoodExpr(e, follow, terms)
    requires StartsAt(s, pos, PrintExpr(e) + follow)
    requires follow == "" ==> pos + |PrintExpr(e)| == |s|
    ensures EvalExpr(c, s, pos, terms) == At(DenoteExpr(c, e), pos + |PrintExpr(e)|)
    decreases e
  {
    hide EvalVarname, EvalBoolVal, EvalEquality, EvalBoolExpr, EvalBracketExpr, EvalCall, EvalTernary, EvalExpr,
         DenoteBracket, DenoteName, DenoteBoolExpr, DenoteBoolVal, PrintBracket, PrintName, PrintBoolExpr, PrintBoolVal,
         GoodBracket, GoodName, GoodBoolExpr, GoodBoolVal, FindFirst, MatchAt, StartsAt, NoneAt, Whitespace, Strip,
         StripSpaces, SplitOn, JoinWith, Spaces, CleanText, Ender;
    match e
    case Literal(text) =>
      TextRuns(s, pos, text, follow, follow, terms);
      ExprCases(c, s, pos, terms);
    case Subst(text, inner, rest) =>
      SubstPieces(s, pos, text, PrintBracket(inner), PrintExpr(rest), follow);
      TextRuns(s, pos, text, "${", follow, terms);
      var i := pos + |text|;
      BracketRuns(c, s, i + 2, inner, '}');
      var j := i + 2 + |PrintBracket(inner)|;
      ExprRuns(c, s, j + 1, rest, follow, terms);
      ExprCases(c, s, pos, terms);
  }

  lemma SubstPieces(s: string, pos: nat, text: string, inner: string, rest: string, follow: string)
    requires StartsAt(s, pos, text + ("${" + (inner + ("}" + rest))) + follow)
    ensures StartsAt(s, pos, text + "${")
    ensures var i := pos + |text| + 2;
            && StartsAt(s, i, inner + "}") && i + |inner| < |s| && s[i + |inner|] == '}'
            && StartsAt(s, i + |inner| + 1, rest + follow)
  {
    hide StartsAt;
    var first, last := inner + "}", rest + follow;
    assert text + ("${" + (inner + ("}" + rest))) + follow == (text + "${") + (first + last);
    StartsAtConcat(s, pos, text + "${", first + last);
    var i := pos + |text| + 2;
    StartsAtConcat(s, i, first, last);
    StartsAtConcat(s, i, inner, "}");
    CharsAt(s, i + |inner|, "}");
  }

  lemma WholeAt(s: string)
    ensures StartsAt(s, 0, s)
  {
    assert s[0..|s|] == s;
  }

  /** Evaluating a printed expression gives the expression's meaning, whatever evaluates the variables it names. */
  lemma EvalTextPrint(c: Context, e: Expr)
    requires GoodExpr(e, "", [])
    ensures EvalText(c, PrintExpr(e)) == DenoteExpr(c, e)
  {
    hide EvalExpr, DenoteExpr, PrintExpr, GoodExpr, StartsAt;
    assert PrintExpr(e) + "" == PrintExpr(e);
    WholeAt(PrintExpr(e));
    ExprRuns(c, PrintExpr(e), 0, e, "", []);
  }

  /** A variable reference read as a test: the whole name, with no flag and no comparison. */
  function AsTest(name: Name): BoolExpr {
    Single(BoolVal(0, false, 0, false, name, None))
  }

  lemma {:induction false} LooksMistaken(s: string, pos: nat, text: string)
    requires !ReachesFirst(text, '}', '?') && StartsAt(s, pos, text + ['}'])
    ensures FindFirst(s, pos, ["?"] + ["}"]).0 == Some("?")
  {
    hide FindFirst, MatchAt, StartsAt;
    assert OneChar(["?"] + ["}"], {'?', '}'});
    var k := FirstChar(s, pos, text, '}', ["?"] + ["}"], {'?', '}'});
    var bad: nat :| bad < |text| && text[bad] == '?' && forall m: nat :: m < bad ==> text[m] != '}';
    assert k <= bad;
  }

  lemma VariableWorks(c: Context, s: string, pos: nat, name: Name)
    requires GoodName(name, {'=', '&', '|', '?', '}'}) && FirstNot(PrintName(name), {' ', '@', '!', '#'})
    requires StartsAt(s, pos, PrintName(name) + "}") && ReachesFirst(PrintName(name), '}', '?')
    ensures EvalBracketExpr(c, s, pos, ["}"]) == At(DenoteBracket(c, Var(0, name)), pos + |PrintName(name)|)
  {
    hide EvalVarname, EvalBoolVal, EvalBoolExpr, EvalCall, EvalTernary, EvalExpr, EvalEquality, DenoteName, PrintName,
         GoodName, FindFirst, MatchAt, StartsAt, Whitespace, FreeOf, EvalBracketExpr, DenoteBracket;
    FewerStops(name, {'=', '&', '|', '?', '}'}, {'}'});
    var text := PrintName(name);
    assert Spaces(0) + text == text && text + ['}'] == text + "}";
    BracketRuns(c, s, pos, Var(0, name), '}');
  }

  /** Read as a test, the name is evaluated whole and the test ends at the '}'. */
  lemma MisreadAsTest(c: Context, s: string, pos: nat, name: Name)
    requires GoodName(name, {'=', '&', '|', '?', '}'}) && FirstNot(PrintName(name), {' ', '@', '!', '#'})
    requires StartsAt(s, pos, PrintName(name) + "}")
    ensures EvalBoolExpr(c, s, pos, ["?"] + ["}"]) == At(DenoteBoolExpr(c, AsTest(name)), pos + |PrintName(name)|)
    ensures pos + |PrintName(name)| < |s| && s[pos + |PrintName(name)|] == '}'
  {
    hide EvalVarname, EvalBoolVal, EvalBoolExpr, EvalCall, EvalTernary, EvalExpr, EvalEquality, DenoteName, PrintName,
         GoodName, FindFirst, MatchAt, StartsAt, Whitespace, FreeOf, EvalBracketExpr, ReachesFirst, DenoteBoolExpr,
         PrintBoolExpr, GoodBoolExpr, OneChar, FirstNot, AsTest;
    var text := PrintName(name);
    StartsAtConcat(s, pos, text, "}");
    CharsAt(s, pos + |text|, "}");
    AsTestPrints(name);
    BoolExprRuns(c, s, pos, AsTest(name), ["?"] + ["}"], {'?', '}'});
  }

  /** A test that does not end at a '?' trips the assertion. */
  lemma TernaryNeedsQuestion(c: Context, s: string, pos: nat, terms: seq<string>)
    requires pos <= |s|
    requires var t := EvalBoolExpr(c, s, pos, ["?"] + terms); t.Ok? && t.pos < |s| ==> s[t.pos] != '?'
    ensures EvalTernary(c, s, pos, terms).Err?
  {
    hide EvalBoolExpr, EvalExpr, EvalVarname, EvalBoolVal, EvalBracketExpr, StartsAt, Strip;
  }

  lemma VariableMisread(c: Context, s: string, pos: nat, name: Name)
    requires GoodName(name, {'=', '&', '|', '?', '}'}) && FirstNot(PrintName(name), {' ', '@', '!', '#'})
    requires StartsAt(s, pos, PrintName(name) + "}") && !ReachesFirst(PrintName(name), '}', '?')
    ensures EvalBracketExpr(c, s, pos, ["}"]).Err?
  {
    hide EvalVarname, EvalBoolExpr, EvalCall, EvalTernary, DenoteBoolExpr, AsTest, PrintName, GoodName, FindFirst,
         MatchAt, StartsAt, Whitespace, FreeOf, ReachesFirst;
    var text := PrintName(name) + ['}'];
    assert text == PrintName(name) + "}";
    LooksMistaken(s, pos, PrintName(name));
    CharsAt(s, pos, text);
    assert text[0] != ' ' && text[0] != '@';
    NoSpaces(s, pos);
    MisreadAsTest(c, s, pos, name);
    TernaryNeedsQuestion(c, s, pos, ["}"]);
  }

  lemma NoSpaces(s: string, pos: nat)
    requires pos < |s| && s[pos] != ' '
    ensures Whitespace(s, pos) == pos
  {
  }

  lemma AsTestPrints(name: Name)
    requires GoodName(name, {'=', '&', '|', '?', '}'}) && FirstNot(PrintName(name), {' ', '@', '!', '#'})
    ensures PrintBoolExpr(AsTest(name)) == PrintName(name)
    ensures GoodBoolExpr(AsTest(name), {'?', '}'}) && OneChar(["?"] + ["}"], {'?', '}'})
  {
    hide PrintName, GoodName;
    assert {'='} + ({'&', '|'} + {'?', '}'}) == {'=', '&', '|', '?', '}'};
  }

  /**
   * Exactly when `${name}` works, for a name without operator characters of its own: no '?' inside its
   * `%...%` parts may come before the first '}'. Otherwise the look-ahead takes the name for a test, and
   * the evaluation ends in an error.
   */
  lemma VariableWorksIff(c: Context, s: string, pos: nat, name: Name)
    requires GoodName(name, {'=', '&', '|', '?', '}'}) && FirstNot(PrintName(name), {' ', '@', '!', '#'})
    requires StartsAt(s, pos, PrintName(name) + "}")
    ensures EvalBracketExpr(c, s, pos, ["}"]).Ok? <==>
            ReachesFirst(PrintName(name), '}', '?') && DenoteBracket(c, Var(0, name)).Val?
    ensures ReachesFirst(PrintName(name), '}', '?') ==>
            EvalBracketExpr(c, s, pos, ["}"]) == At(DenoteBracket(c, Var(0, name)), pos + |PrintName(name)|)
  {
    hide EvalBracketExpr, DenoteBracket, PrintName, GoodName, StartsAt, ReachesFirst;
    if ReachesFirst(PrintName(name), '}', '?') {
      VariableWorks(c, s, pos, name);
    } else {
      VariableMisread(c, s, pos, name);
    }
  }

  lemma {:induction false} FewerStops(n: Name, stops: set<char>, fewer: set<char>)
    requires GoodName(n, stops) && fewer <= stops
    ensures GoodName(n, fewer)
    decreases n
  {
    match n
    case Plain(_) =>
    case Computed(_, _, right) => FewerStops(right, stops, fewer);
  }

  /** The name `X%@f:?%`. */
  const EXAMPLE := Computed("X", Call(0, "f", ["?"]), Plain(""))

  lemma ExampleReads()
    ensures PrintName(EXAMPLE) == "X%@f:?%" && GoodName(EXAMPLE, {'=', '&', '|', '?', '}'})
    ensures !ReachesFirst("X%@f:?%", '}', '?')
  {
    var text := "X%@f:?%";
    assert text[5] == '?';
    ExampleCall();
    hide PrintCall, GoodBracket;
    assert PrintBracket(EXAMPLE.inner) == "@f:?" && Spaces(0) + "@f:?" == "@f:?";
  }

  lemma ExampleCall()
    ensures PrintCall("f", ["?"]) == "@f:?" && GoodBracket(Call(0, "f", ["?"]), '%')
  {
  }

  lemma ExampleName()
    ensures Strip(StripSpaces("X") + "1" + StripSpaces("")) == "X1"
  {
    hide Strip, StripSpaces;
    StripKeeps("X");
    StripKeeps("");
    StripKeeps("X1");
    assert "X" + "1" + "" == "X1";
  }

  /** A concrete text the look-ahead misreads: where f gives 1 and X1 gives v it should read v, and fails. */
  lemma MisreadExample(c: Context, text: string)
    requires text == "${X%@f:?%}"
    requires c.Call("f", ["?"]) == Val("1") && c.Lookup("X1") == Val("v")
    ensures PrintExpr(Subst("", Var(0, EXAMPLE), Literal(""))) == text
    ensures DenoteExpr(c, Subst("", Var(0, EXAMPLE), Literal(""))) == Val("v")
    ensures EvalText(c, text).Fail?
  {
    hide EvalBracketExpr, PrintName, GoodName, StartsAt, ReachesFirst, EvalExpr, StripSpaces, Strip;
    assert DenoteBracket(c, Call(0, "f", ["?"])) == Val("1") && DenoteName(c, Plain("")) == Val(StripSpaces(""));
    ExampleName();
    assert DenoteName(c, EXAMPLE) == Val("X1");
    assert DenoteBracket(c, Var(0, EXAMPLE)) == Val("v");
    hide DenoteBracket;
    var inner := "X%@f:?%";
    ExampleReads();
    assert Spaces(0) + inner == inner && "v" + "" == "v" && "" + "v" == "v";
    assert text == "${" + (inner + "}") && "" + text == text;
    WholeAt(text);
    StartsAtConcat(text, 0, "${", inner + "}");
    VariableMisread(c, text, 2, EXAMPLE);
    StopsAt(text, 0, ["${"] + [], 0, "${");
    ExprCases(c, text, 0, []);
  }

  // ----- When a test is recognised

  /**
   * The look-ahead takes a printed test and its '?' for a ternary exactly when no closing delimiter inside the test's
   * `%...%` parts comes before the first '?'; otherwise it takes them for a variable.
   */
  lemma TernarySeenIff(s: string, pos: nat, test: BoolExpr, close: char)
    requires close in {'}', '%'} && GoodBoolExpr(test, {'?', close}) && FirstNot(StripPad(test), {' ', '@'})
    requires StartsAt(s, pos, PrintBoolExpr(test) + "?")
    ensures pos <= Whitespace(s, pos) < |s| && s[Whitespace(s, pos)] != '@'
    ensures FindFirst(s, Whitespace(s, pos), ["?"] + [[close]]).0 == Some("?") <==>
            ReachesFirst(PrintBoolExpr(test), '?', close)
  {
    hide GoodBoolExpr, PrintBoolExpr, FindFirst, MatchAt, StartsAt, NoneAt, Whitespace;
    var rest := TestStart(test, close);
    var pad := FirstVal(test).pad;
    var whole := Spaces(pad) + rest;
    assert whole + "?" == Spaces(pad) + (rest + "?");
    StartsAtConcat(s, pos, Spaces(pad), rest + "?");
    CharsAt(s, pos + pad, rest + "?");
    SkipSpaces(s, pos, pad);
    PadReaches(pad, rest, close);
    SeenFirst(s, pos + pad, rest, close);
  }

  lemma PadReaches(pad: nat, rest: string, close: char)
    requires close in {'}', '%'}
    ensures ReachesFirst(Spaces(pad) + rest, '?', close) <==> ReachesFirst(rest, '?', close)
  {
    var whole := Spaces(pad) + rest;
    assert forall k: nat | k < |rest| :: whole[pad + k] == rest[k];
    if ReachesFirst(whole, '?', close) {
      forall k: nat | k < |rest| && rest[k] == close
        ensures exists m: nat :: m < k && rest[m] == '?'
      {
        assert whole[pad + k] == close;
        var m: nat :| m < pad + k && whole[m] == '?';
        assert m >= pad && rest[m - pad] == '?';
      }
    }
    if ReachesFirst(rest, '?', close) {
      forall k: nat | k < |whole| && whole[k] == close
        ensures exists m: nat :: m < k && whole[m] == '?'
      {
        assert rest[k - pad] == close;
        var m: nat :| m < k - pad && rest[m] == '?';
        assert whole[pad + m] == '?';
      }
    }
  }

  lemma SeenFirst(s: string, pos: nat, text: string, close: char)
    requires close in {'}', '%'} && StartsAt(s, pos, text + "?")
    ensures FindFirst(s, pos, ["?"] + [[close]]).0 == Some("?") <==> ReachesFirst(text, '?', close)
  {
    hide FindFirst, MatchAt, StartsAt;
    assert OneChar(["?"] + [[close]], {'?', close});
    assert text + "?" == text + ['?'];
    var k := FirstChar(s, pos, text, '?', ["?"] + [[close]], {'?', close});
    var found := (text + ['?'])[k];
    assert "?"[0] == '?' && [found][0] == found;
    if found == '?' {
      assert forall n: nat | n < |text| && text[n] == close :: n > k;
    } else {
      assert found == close && k < |text|;
    }
  }

  lemma BraceOrQuestion()
    ensures OneChar(["?"] + ["}"], {'?', '}'})
  {
  }

  /** In `${X%@f:}% ? a : b}` the look-ahead sees a variable, because of the brace in the argument. */
  lemma UnseenTernaryExample(text: string)
    requires text == "X%@f:}% ? a : b}"
    ensures FindFirst(text, 0, ["?"] + ["}"]).0 == Some("}")
  {
    hide FindFirst, MatchAt, StartsAt, OneChar;
    var front := "X%@f:";
    assert text == (front + ['}']) + "% ? a : b}";
    WholeAt(text);
    StartsAtConcat(text, 0, front + ['}'], "% ? a : b}");
    BraceOrQuestion();
    var k := FirstChar(text, 0, front, '}', ["?"] + ["}"], {'?', '}'});
    assert (front + ['}'])[k] in {'?', '}'};
    assert "?"[0] == '?' && "}"[0] == '}';
  }
}
