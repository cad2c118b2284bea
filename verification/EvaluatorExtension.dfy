/**
 Text put behind an expression does not change how the expression is read: evaluating a text to which something has
 been appended gives what the text gives, followed by what is appended gives.
 */
module EvaluatorExtension {
  import opened Evaluator
  import opened EvaluatorShift
  import opened Options
  import opened Text

  // ----- Scanning

  /** No pattern lies in another, so whatever is found first is found first in a longer text, too. */
  ghost predicate NoneInside(terms: seq<string>) {
    forall t, u, n: nat | t in terms && u in terms && n + |u| < |t| :: !StartsAt(t, n, u)
  }

  lemma StartsAtLonger(a: string, b: string, pos: nat, t: string)
    requires pos + |t| <= |a|
    ensures StartsAt(a + b, pos, t) <==> StartsAt(a, pos, t)
  {
    assert (a + b)[pos..pos + |t|] == a[pos..pos + |t|];
  }

  lemma {:induction false} MatchAtLonger(a: string, b: string, pos: nat, terms: seq<string>)
    requires forall t | t in terms :: StartsAt(a + b, pos, t) <==> StartsAt(a, pos, t)
    ensures MatchAt(a + b, pos, terms) == MatchAt(a, pos, terms)
  {
    hide StartsAt;
    if terms != [] {
      MatchAtLonger(a, b, pos, terms[..|terms| - 1]);
    }
  }

  /** Before or at a place where a pattern `u` is found, no pattern starts that reaches beyond the text. */
  lemma NoneCrosses(a: string, b: string, k: nat, i: nat, t: string, u: string, terms: seq<string>)
    requires NoneInside(terms) && t in terms && u in terms && k <= i && StartsAt(a, i, u)
    ensures StartsAt(a + b, k, t) <==> StartsAt(a, k, t)
  {
    if k + |t| <= |a| {
      StartsAtLonger(a, b, k, t);
    } else if StartsAt(a + b, k, t) {
      StartsAtLonger(a, b, i, u);
      var n := i - k;
      assert t[n..n + |u|] == (a + b)[i..i + |u|] == u;
      assert StartsAt(t, n, u);
    }
  }

  lemma FindFirstLonger(a: string, b: string, pos: nat, terms: seq<string>)
    requires NoneInside(terms) && pos <= |a| && FindFirst(a, pos, terms).1 < |a|
    ensures FindFirst(a + b, pos, terms) == FindFirst(a, pos, terms)
  {
    hide StartsAt, FindFirst, MatchAt, NoneInside;
    var (m, i) := FindFirst(a, pos, terms);
    forall k: nat, t | k <= i && t in terms
      ensures StartsAt(a + b, k, t) <==> StartsAt(a, k, t)
    {
      NoneCrosses(a, b, k, i, t, m.value, terms);
    }
    assert forall k: nat | pos <= k < i :: NoneAt(a, k, terms) ==> NoneAt(a + b, k, terms);
    assert StartsAt(a + b, i, m.value) && !NoneAt(a + b, i, terms);
    MatchedFirst(a, pos, terms);
    MatchedFirst(a + b, pos, terms);
    MatchAtLonger(a, b, i, terms);
  }

  lemma {:induction false} WhitespaceLonger(a: string, b: string, pos: nat)
    requires pos <= |a| && Whitespace(a, pos) < |a|
    ensures Whitespace(a + b, pos) == Whitespace(a, pos)
    decreases |a| - pos
  {
    if a[pos] == ' ' {
      WhitespaceLonger(a, b, pos + 1);
    }
  }

  /** One-character patterns. */
  predicate Singles(terms: seq<string>) {
    forall t | t in terms :: |t| == 1
  }

  lemma SinglesApart(terms: seq<string>)
    requires Singles(terms)
    ensures NoneInside(terms)
  {
  }

  // ----- Expressions inside longer texts

  /** What ends an expression in a bracket, or nothing at the top. */
  predicate ExprTerms(terms: seq<string>) {
    terms == [] || Closing(terms) || terms == [" : ", "}"] || terms == [" : ", "%"]
  }

  lemma ExprTermsApart(terms: seq<string>)
    requires ExprTerms(terms)
    ensures NoneInside(["${"] + terms)
  {
    forall t, u, n: nat | t in ["${"] + terms && u in ["${"] + terms && n + |u| < |t|
      ensures !StartsAt(t, n, u)
    {
      assert t in ["${", " : ", "}", "%"] && u in ["${", " : ", "}", "%"];
      if StartsAt(t, n, u) { CharsAt(t, n, u); }
    }
  }

  /** The parser ended inside the text, so the rest of a longer text does not matter to it. */
  predicate Same<T(==)>(r: Parsed<T>, longer: Parsed<T>, n: nat) {
    r.Ok? && r.pos < n ==> longer == r
  }

  lemma {:induction false} VarnameSame(c: Context, a: string, b: string, pos: nat, terms: seq<string>)
    requires pos <= |a| && Singles(terms)
    ensures Same(EvalVarname(c, a, pos, terms), EvalVarname(c, a + b, pos, terms), |a|)
    decreases |a| - pos, 1
  {
    hide NoneAt, StartsAt, FindFirst, EvalBracketExpr, EvalVarname, Strip, StripSpaces, NoneInside;
    SinglesApart(["%"] + terms);
    hide Singles;
    VarnameCases(c, a, pos, terms);
    VarnameCases(c, a + b, pos, terms);
    var i := FindFirst(a, pos, ["%"] + terms).1;
    if i < |a| {
      FindFirstLonger(a, b, pos, ["%"] + terms);
      assert (a + b)[pos..i] == a[pos..i] && (a + b)[i] == a[i];
      if [a[i]] !in terms {
        BracketSame(c, a, b, i + 1, ["%"]);
        var m := EvalBracketExpr(c, a, i + 1, ["%"]);
        if m.Ok? && m.pos < |a| && a[m.pos] == '%' {
          VarnameSame(c, a, b, m.pos + 1, terms);
        }
      }
    }
  }

  lemma EqualitySame(a: string, b: string, j: nat, terms: seq<string>, negated: bool, useLen: bool, contents: string)
    requires j < |a| && Singles(terms)
    ensures Same(EvalEquality(a, j, terms, negated, useLen, contents),
                 EvalEquality(a + b, j, terms, negated, useLen, contents), |a|)
  {
    hide FindFirst, Whitespace, NoneInside, NoneAt, StartsAt;
    if j + 1 < |a| && a[j + 1] == '=' {
      SinglesApart([" "] + terms);
      var from := Whitespace(a, j + 2);
      var to := FindFirst(a, from, [" "] + terms).1;
      if Whitespace(a, to) < |a| {
        WhitespaceLonger(a, b, j + 2);
        FindFirstLonger(a, b, from, [" "] + terms);
        WhitespaceLonger(a, b, to);
        assert (a + b)[from..to] == a[from..to];
      }
    }
  }

  lemma {:induction false} BoolValSame(c: Context, a: string, b: string, pos: nat, terms: seq<string>)
    requires pos <= |a| && Singles(terms)
    ensures Same(EvalBoolVal(c, a, pos, terms), EvalBoolVal(c, a + b, pos, terms), |a|)
    decreases |a| - pos, 2
  {
    hide NoneAt, StartsAt, FindFirst, Whitespace, EvalVarname, EvalEquality, Context.Lookup;
    var s := a + b;
    var i := Whitespace(a, pos);
    if i < |a| {
      WhitespaceLonger(a, b, pos);
      var next := if a[i] == '!' then i + 1 else i;
      var i' := Whitespace(a, next);
      if i' < |a| {
        WhitespaceLonger(a, b, next);
        var from := if a[i'] == '#' then i' + 1 else i';
        assert s[i] == a[i] && s[i'] == a[i'];
        BoolValCases(c, a, pos, terms, from);
        BoolValCases(c, s, pos, terms, from);
        hide EvalBoolVal;
        VarnameSame(c, a, b, from, ["="] + terms);
        var n := EvalVarname(c, a, from, ["="] + terms);
        if n.Ok? && n.pos < |a| && a[n.pos] == '=' && c.Lookup(n.value).Val? {
          EqualitySame(a, b, n.pos, terms, a[i] == '!', a[i'] == '#', c.Lookup(n.value).value);
        }
      }
    }
  }

  lemma {:induction false} BoolExprSame(c: Context, a: string, b: string, pos: nat, terms: seq<string>)
    requires pos <= |a| && Singles(terms)
    ensures Same(EvalBoolExpr(c, a, pos, terms), EvalBoolExpr(c, a + b, pos, terms), |a|)
    decreases |a| - pos, 3
  {
    hide NoneAt, StartsAt, EvalBoolVal, EvalBoolExpr;
    BoolExprCases(c, a, pos, terms);
    BoolExprCases(c, a + b, pos, terms);
    BoolValSame(c, a, b, pos, ["&", "|"] + terms);
    var v := EvalBoolVal(c, a, pos, ["&", "|"] + terms);
    if v.Ok? && v.pos + 1 < |a| {
      BoolExprSame(c, a, b, v.pos + 2, terms);
    }
  }

  lemma CallSame(c: Context, a: string, b: string, pos: nat, terms: seq<string>)
    requires pos < |a| && a[pos] == '@' && Closing(terms)
    ensures Same(EvalCall(c, a, pos, terms), EvalCall(c, a + b, pos, terms), |a|)
  {
    hide FindFirst, SplitOn, StartsAt, NoneAt, NoneInside, Context.Call;
    SinglesApart([":"] + terms);
    SinglesApart(terms);
    var (m, i) := FindFirst(a, pos, [":"] + terms);
    if i < |a| {
      FindFirstLonger(a, b, pos, [":"] + terms);
      CharsAt(a, i, m.value);
      assert m.value in {":", "}", "%"} && m.value[0] != '@';
      assert (a + b)[pos + 1..i] == a[pos + 1..i] && (a + b)[i] == a[i] && (a + b)[pos] == '@';
      if a[i] == ':' {
        var j := FindFirst(a, i + 1, terms).1;
        if j < |a| {
          FindFirstLonger(a, b, i + 1, terms);
          assert (a + b)[i + 1..j] == a[i + 1..j];
        }
      }
    }
  }

  lemma BracketSame(c: Context, a: string, b: string, start: nat, terms: seq<string>)
    requires start <= |a| && Closing(terms)
    ensures Same(EvalBracketExpr(c, a, start, terms), EvalBracketExpr(c, a + b, start, terms), |a|)
    decreases |a| - start, 5
  {
    hide NoneAt, StartsAt, FindFirst, Whitespace, EvalVarname, EvalTernary, EvalCall, Context.Lookup, NoneInside;
    var pos := Whitespace(a, start);
    if pos < |a| {
      WhitespaceLonger(a, b, start);
      assert (a + b)[pos] == a[pos];
      if a[pos] == '@' {
        CallSame(c, a, b, pos, terms);
      } else {
        SinglesApart(["?"] + terms);
        var (m, i) := FindFirst(a, pos, ["?"] + terms);
        if i < |a| {
          FindFirstLonger(a, b, pos, ["?"] + terms);
          VarnameSame(c, a, b, pos, terms);
          TernarySame(c, a, b, pos, terms);
        } else {
          NoEndFound(c, a, pos, terms);
        }
      }
    }
  }

  /** A name without a terminator behind it does not end inside the text. */
  lemma NoEndFound(c: Context, s: string, pos: nat, terms: seq<string>)
    requires pos <= |s| && FindFirst(s, pos, ["?"] + terms).1 == |s|
    ensures FindFirst(s, pos, ["?"] + terms).0 == None
    ensures EvalVarname(c, s, pos, terms).Ok? ==> EvalVarname(c, s, pos, terms).pos == |s|
  {
    hide FindFirst, EvalVarname;
    forall k: nat | pos <= k < |s|
      ensures [s[k]] !in terms
    {
      NotAtChar(s, k, ["?"] + terms);
    }
  }

  lemma NotAtChar(s: string, k: nat, terms: seq<string>)
    requires k < |s| && NoneAt(s, k, terms)
    ensures [s[k]] !in terms
  {
    assert s[k..k + 1] == [s[k]];
  }

  lemma {:induction false} TernarySame(c: Context, a: string, b: string, pos: nat, terms: seq<string>)
    requires pos <= |a| && Closing(terms)
    ensures Same(EvalTernary(c, a, pos, terms), EvalTernary(c, a + b, pos, terms), |a|)
    decreases |a| - pos, 4
  {
    hide NoneAt, StartsAt, EvalBoolExpr, EvalExpr, Strip, EvalTernary;
    TernaryCases(c, a, pos, terms);
    TernaryCases(c, a + b, pos, terms);
    BoolExprSame(c, a, b, pos, ["?"] + terms);
    var t := EvalBoolExpr(c, a, pos, ["?"] + terms);
    if t.Ok? && t.pos < |a| && a[t.pos] == '?' {
      assert [" : "] + terms == [" : ", terms[0]];
      ExprSame(c, a, b, t.pos + 1, [" : "] + terms);
      var y := EvalExpr(c, a, t.pos + 1, [" : "] + terms);
      if y.Ok? && y.pos < |a| {
        ArmEnd(c, a, b, t.pos + 1, terms);
        if StartsAt(a, y.pos, " : ") {
          CharsAt(a, y.pos, " : ");
          ExprSame(c, a, b, y.pos + 3, terms);
        }
      }
    }
  }

  /** An expression that ends inside the text ends at a terminator. */
  lemma {:induction false} ExprEnd(c: Context, s: string, pos: nat, terms: seq<string>)
    requires pos <= |s|
    ensures var r := EvalExpr(c, s, pos, terms); r.Ok? && r.pos < |s| ==>
              exists t :: t in terms && StartsAt(s, r.pos, t)
    decreases |s| - pos
  {
    hide NoneAt, StartsAt, FindFirst, EvalBracketExpr, EvalExpr;
    ExprCases(c, s, pos, terms);
    var (m, i) := FindFirst(s, pos, ["${"] + terms);
    if i < |s| && m.value !in terms {
      SubstitutionFits(s, pos, terms);
      var b := EvalBracketExpr(c, s, i + 2, ["}"]);
      if b.Ok? && b.pos < |s| && s[b.pos] == '}' {
        ExprEnd(c, s, b.pos + 1, terms);
      }
    }
  }

  /** Where the first arm of a ternary ends, the longer text has the separator just if the text has. */
  lemma ArmEnd(c: Context, a: string, b: string, pos: nat, terms: seq<string>)
    requires pos <= |a| && Closing(terms)
    requires EvalExpr(c, a, pos, [" : "] + terms).Ok? && EvalExpr(c, a, pos, [" : "] + terms).pos < |a|
    ensures var j := EvalExpr(c, a, pos, [" : "] + terms).pos; StartsAt(a + b, j, " : ") <==> StartsAt(a, j, " : ")
  {
    hide EvalExpr, NoneInside, StartsAt;
    var j := EvalExpr(c, a, pos, [" : "] + terms).pos;
    ExprEnd(c, a, pos, [" : "] + terms);
    var t :| t in [" : "] + terms && StartsAt(a, j, t);
    ExprTermsApart([" : "] + terms);
    assert [" : "] + terms == [" : ", terms[0]];
    NoneCrosses(a, b, j, j, " : ", t, ["${"] + ([" : "] + terms));
  }

  lemma {:induction false} ExprSame(c: Context, a: string, b: string, pos: nat, terms: seq<string>)
    requires pos <= |a| && ExprTerms(terms) && terms != []
    ensures Same(EvalExpr(c, a, pos, terms), EvalExpr(c, a + b, pos, terms), |a|)
    decreases |a| - pos, 6
  {
    hide NoneAt, StartsAt, FindFirst, EvalBracketExpr, EvalExpr, NoneInside;
    ExprCases(c, a, pos, terms);
    ExprCases(c, a + b, pos, terms);
    ExprTermsApart(terms);
    var (m, i) := FindFirst(a, pos, ["${"] + terms);
    if i < |a| {
      FindFirstLonger(a, b, pos, ["${"] + terms);
      assert (a + b)[pos..i] == a[pos..i];
      if m.value !in terms {
        SubstitutionFits(a, pos, terms);
        BracketSame(c, a, b, i + 2, ["}"]);
        var inner := EvalBracketExpr(c, a, i + 2, ["}"]);
        if inner.Ok? && inner.pos < |a| && a[inner.pos] == '}' {
          ExprSame(c, a, b, inner.pos + 1, terms);
        }
      }
    }
  }

  // ----- One expression behind another

  /** `b` does not complete a substitution that `a` starts. */
  predicate Apart(a: string, b: string) {
    a == "" || b == "" || a[|a| - 1] != '$' || b[0] != '{'
  }

  lemma {:induction false} SkipNone(s: string, pos: nat, at: nat, terms: seq<string>)
    requires pos <= at <= |s| && forall k: nat | pos <= k < at :: NoneAt(s, k, terms)
    ensures FindFirst(s, pos, terms) == FindFirst(s, at, terms)
    decreases at - pos
  {
    if pos < at {
      assert NoneAt(s, pos, terms);
      SkipNone(s, pos + 1, at, terms);
    }
  }

  lemma NoneBefore(a: string, b: string, pos: nat)
    requires pos <= |a| && Apart(a, b) && FindFirst(a, pos, ["${"] + []).1 == |a|
    ensures FindFirst(a + b, pos, ["${"] + []) == FindFirst(a + b, |a|, ["${"] + [])
  {
    hide FindFirst;
    var s, substitution := a + b, "${";
    assert ["${"] + [] == [substitution] && substitution in [substitution] && substitution[1] == '{';
    forall k: nat | pos <= k < |a|
      ensures NoneAt(s, k, [substitution])
    {
      if k + 2 <= |a| {
        assert NoneAt(a, k, ["${"] + []);
        StartsAtLonger(a, b, k, substitution);
      } else {
        assert k + 2 <= |s| ==> s[k..k + 2] == [a[|a| - 1], b[0]];
      }
    }
    SkipNone(s, pos, |a|, ["${"] + []);
  }

  /** A result with `front` before its value, and moved by `n` places. */
  function Behind(front: string, r: Parsed<string>, n: nat): Parsed<string> {
    match r
    case Ok(value, pos) => Ok(front + value, n + pos)
    case Err(f) => Err(f)
  }

  lemma LiteralInFront(c: Context, s: string, pos: nat, at: nat)
    requires pos <= at <= |s| && FindFirst(s, pos, ["${"] + []) == FindFirst(s, at, ["${"] + [])
    ensures EvalExpr(c, s, pos, []) == Behind(s[pos..at], EvalExpr(c, s, at, []), 0)
  {
    hide NoneAt, StartsAt, FindFirst, EvalBracketExpr, EvalExpr;
    ExprCases(c, s, pos, []);
    ExprCases(c, s, at, []);
    var (m, i) := FindFirst(s, at, ["${"] + []);
    assert s[pos..i] == s[pos..at] + s[at..i];
    if i < |s| {
      SubstitutionFits(s, at, []);
      var inner := EvalBracketExpr(c, s, i + 2, ["}"]);
      if inner.Ok? && inner.pos < |s| && EvalExpr(c, s, inner.pos + 1, []).Ok? {
        var right := EvalExpr(c, s, inner.pos + 1, []).value;
        assert s[pos..at] + s[at..i] + inner.value + right == s[pos..at] + (s[at..i] + inner.value + right);
      }
    }
  }

  lemma {:induction false} WholeExtends(c: Context, a: string, b: string, pos: nat)
    requires pos <= |a| && Apart(a, b) && EvalExpr(c, a, pos, []).Ok?
    ensures EvalExpr(c, a + b, pos, []) == Behind(EvalExpr(c, a, pos, []).value, EvalExpr(c, b, 0, []), |a|)
    decreases |a| - pos
  {
    hide NoneAt, StartsAt, FindFirst, EvalBracketExpr, EvalExpr, NoneInside, Apart;
    var s := a + b;
    ExprCases(c, a, pos, []);
    var (m, i) := FindFirst(a, pos, ["${"] + []);
    if i == |a| {
      NoneBefore(a, b, pos);
      LiteralInFront(c, s, pos, |a|);
      assert s[|a|..] == b && s[pos..|a|] == a[pos..i];
      ExprMoved(c, s, |a|, b, 0, []);
    } else {
      ExprTermsApart([]);
      FindFirstLonger(a, b, pos, ["${"] + []);
      SubstitutionFits(a, pos, []);
      BracketSame(c, a, b, i + 2, ["}"]);
      var inner := EvalBracketExpr(c, a, i + 2, ["}"]);
      assert s[pos..i] == a[pos..i] && s[inner.pos] == a[inner.pos];
      WholeExtends(c, a, b, inner.pos + 1);
      ExprCases(c, s, pos, []);
      Associate(a[pos..i] + inner.value, EvalExpr(c, a, inner.pos + 1, []).value, EvalExpr(c, b, 0, []));
    }
  }

  lemma Associate(x: string, y: string, r: Parsed<string>)
    ensures r.Ok? ==> x + (y + r.value) == x + y + r.value
  {
  }

  /** One expression evaluated and then the other, errors of the second included. */
  lemma EvalTextExtends(c: Context, a: string, b: string)
    requires Apart(a, b) && EvalText(c, a).Val?
    ensures EvalText(c, a + b) ==
            if EvalText(c, b).Val? then Val(EvalText(c, a).value + EvalText(c, b).value) else EvalText(c, b)
  {
    hide EvalExpr, Apart;
    WholeExtends(c, a, b, 0);
  }
}
