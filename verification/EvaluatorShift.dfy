/**
 An expression means the same wherever in a text it stands: parsing from a place in a text is parsing the rest of the
 text on its own.
 */
module EvaluatorShift {
  import opened Evaluator
  import opened Options
  import opened Text

  /** `b` is what `s` holds from position `n` on. */
  predicate IsRest(s: string, n: nat, b: string) {
    n <= |s| && b == s[n..]
  }

  /** A parser's result in the rest of a text, as a result in the whole text. */
  function Moved<T>(r: Parsed<T>, n: nat): Parsed<T> {
    match r
    case Ok(value, pos) => Ok(value, n + pos)
    case Err(f) => Err(f)
  }

  lemma SameSlice(s: string, n: nat, b: string, from: nat, to: nat)
    requires IsRest(s, n, b) && from <= to <= |b|
    ensures s[n + from..n + to] == b[from..to]
  {
  }

  lemma SameChar(s: string, n: nat, b: string, k: nat)
    requires IsRest(s, n, b) && k <= |b|
    ensures |s| == n + |b| && (k < |b| ==> s[n + k] == b[k])
  {
  }

  lemma StartsAtMoved(s: string, n: nat, b: string, k: nat, t: string)
    requires IsRest(s, n, b)
    ensures StartsAt(s, n + k, t) <==> StartsAt(b, k, t)
  {
    if k + |t| <= |b| {
      SameSlice(s, n, b, k, k + |t|);
    }
  }

  lemma {:induction false} MatchAtMoved(s: string, n: nat, b: string, k: nat, terms: seq<string>)
    requires IsRest(s, n, b)
    ensures MatchAt(s, n + k, terms) == MatchAt(b, k, terms)
  {
    hide StartsAt, IsRest;
    if terms != [] {
      StartsAtMoved(s, n, b, k, terms[|terms| - 1]);
      MatchAtMoved(s, n, b, k, terms[..|terms| - 1]);
    }
  }

  lemma {:induction false} FindFirstMoved(s: string, n: nat, b: string, k: nat, terms: seq<string>)
    requires IsRest(s, n, b) && k <= |b|
    ensures var (m, i) := FindFirst(b, k, terms); FindFirst(s, n + k, terms) == (m, n + i)
    decreases |b| - k
  {
    hide StartsAt, NoneAt, MatchAt;
    MatchAtMoved(s, n, b, k, terms);
    if k < |b| && MatchAt(b, k, terms).None? {
      FindFirstMoved(s, n, b, k + 1, terms);
    }
  }

  lemma {:induction false} WhitespaceMoved(s: string, n: nat, b: string, k: nat)
    requires IsRest(s, n, b) && k <= |b|
    ensures Whitespace(s, n + k) == n + Whitespace(b, k)
    decreases |b| - k
  {
    if k < |b| && b[k] == ' ' {
      WhitespaceMoved(s, n, b, k + 1);
    }
  }

  lemma {:induction false} VarnameMoved(c: Context, s: string, n: nat, b: string, k: nat, terms: seq<string>)
    requires IsRest(s, n, b) && k <= |b|
    ensures EvalVarname(c, s, n + k, terms) == Moved(EvalVarname(c, b, k, terms), n)
    decreases |b| - k, 1
  {
    hide NoneAt, StartsAt, FindFirst, EvalBracketExpr, EvalVarname, Strip, StripSpaces;
    VarnameCases(c, s, n + k, terms);
    VarnameCases(c, b, k, terms);
    FindFirstMoved(s, n, b, k, ["%"] + terms);
    var i := FindFirst(b, k, ["%"] + terms).1;
    SameSlice(s, n, b, k, i);
    if i < |b| && [b[i]] !in terms {
      BracketMoved(c, s, n, b, i + 1, ["%"]);
      var m := EvalBracketExpr(c, b, i + 1, ["%"]);
      if m.Ok? && m.pos < |b| && b[m.pos] == '%' {
        VarnameMoved(c, s, n, b, m.pos + 1, terms);
      }
    }
  }

  lemma EqualityMoved(s: string, n: nat, b: string, j: nat, terms: seq<string>, negated: bool, useLen: bool,
                      contents: string)
    requires IsRest(s, n, b) && j < |b|
    ensures EvalEquality(s, n + j, terms, negated, useLen, contents) ==
            Moved(EvalEquality(b, j, terms, negated, useLen, contents), n)
  {
    hide FindFirst, Whitespace, NoneAt, StartsAt;
    if j + 1 < |b| && b[j + 1] == '=' {
      WhitespaceMoved(s, n, b, j + 2);
      var from := Whitespace(b, j + 2);
      FindFirstMoved(s, n, b, from, [" "] + terms);
      var to := FindFirst(b, from, [" "] + terms).1;
      WhitespaceMoved(s, n, b, to);
      SameSlice(s, n, b, from, to);
    }
  }

  lemma {:induction false} BoolValMoved(c: Context, s: string, n: nat, b: string, k: nat, terms: seq<string>)
    requires IsRest(s, n, b) && k <= |b|
    ensures EvalBoolVal(c, s, n + k, terms) == Moved(EvalBoolVal(c, b, k, terms), n)
    decreases |b| - k, 2
  {
    hide NoneAt, StartsAt, FindFirst, Whitespace, EvalVarname, EvalEquality, EvalBoolVal, Context.Lookup;
    WhitespaceMoved(s, n, b, k);
    var i := Whitespace(b, k);
    if i == |b| {
      BoolValCutOff(c, s, n + k, terms);
      BoolValCutOff(c, b, k, terms);
      return;
    }
    var next := if b[i] == '!' then i + 1 else i;
    WhitespaceMoved(s, n, b, next);
    var i' := Whitespace(b, next);
    if i' == |b| {
      BoolValCutOff(c, s, n + k, terms);
      BoolValCutOff(c, b, k, terms);
      return;
    }
    var from := if b[i'] == '#' then i' + 1 else i';
    VarnameMoved(c, s, n, b, from, ["="] + terms);
    BoolValSettled(c, s, n, b, k, terms, i, i', from);
  }

  lemma BoolValSettled(c: Context, s: string, n: nat, b: string, k: nat, terms: seq<string>, i: nat, i': nat, from: nat)
    requires IsRest(s, n, b) && k <= |b|
    requires i == Whitespace(b, k) < |b| && n + i == Whitespace(s, n + k)
    requires i' == Whitespace(b, if b[i] == '!' then i + 1 else i) < |b|
    requires n + i' == Whitespace(s, n + if b[i] == '!' then i + 1 else i)
    requires from == if b[i'] == '#' then i' + 1 else i'
    requires EvalVarname(c, s, n + from, ["="] + terms) == Moved(EvalVarname(c, b, from, ["="] + terms), n)
    ensures EvalBoolVal(c, s, n + k, terms) == Moved(EvalBoolVal(c, b, k, terms), n)
  {
    hide NoneAt, StartsAt, FindFirst, Whitespace, EvalVarname, EvalEquality, EvalBoolVal, Context.Lookup, IsRest;
    var m := EvalVarname(c, b, from, ["="] + terms);
    SameChar(s, n, b, i);
    SameChar(s, n, b, i');
    BoolValCases(c, b, k, terms, from);
    BoolValCases(c, s, n + k, terms, n + from);
    if m.Ok? && m.pos < |b| {
      SameChar(s, n, b, m.pos);
      if b[m.pos] == '=' && c.Lookup(m.value).Val? {
        EqualityMoved(s, n, b, m.pos, terms, b[i] == '!', b[i'] == '#', c.Lookup(m.value).value);
      }
    }
  }

  lemma BoolValCutOff(c: Context, s: string, pos: nat, terms: seq<string>)
    requires pos <= |s|
    requires var i := Whitespace(s, pos); i == |s| || Whitespace(s, if s[i] == '!' then i + 1 else i) == |s|
    ensures EvalBoolVal(c, s, pos, terms) == Err(IndexError)
  {
    hide EvalVarname, EvalEquality, Whitespace, Context.Lookup;
  }

  lemma {:induction false} BoolExprMoved(c: Context, s: string, n: nat, b: string, k: nat, terms: seq<string>)
    requires IsRest(s, n, b) && k <= |b|
    ensures EvalBoolExpr(c, s, n + k, terms) == Moved(EvalBoolExpr(c, b, k, terms), n)
    decreases |b| - k, 3
  {
    hide NoneAt, StartsAt, EvalBoolVal, EvalBoolExpr;
    BoolExprCases(c, s, n + k, terms);
    BoolExprCases(c, b, k, terms);
    BoolValMoved(c, s, n, b, k, ["&", "|"] + terms);
    var v := EvalBoolVal(c, b, k, ["&", "|"] + terms);
    if v.Ok? && v.pos + 1 < |b| {
      BoolExprMoved(c, s, n, b, v.pos + 2, terms);
    }
  }

  lemma CallMoved(c: Context, s: string, n: nat, b: string, k: nat, terms: seq<string>)
    requires IsRest(s, n, b) && k < |b| && b[k] == '@' && Closing(terms)
    ensures EvalCall(c, s, n + k, terms) == Moved(EvalCall(c, b, k, terms), n)
  {
    hide FindFirst, SplitOn, StartsAt, NoneAt, Context.Call;
    FindFirstMoved(s, n, b, k, [":"] + terms);
    var (m, i) := FindFirst(b, k, [":"] + terms);
    if i < |b| {
      CharsAt(b, i, m.value);
      assert m.value in {":", "}", "%"} && m.value[0] != '@';
      SameSlice(s, n, b, k + 1, i);
      if b[i] == ':' {
        FindFirstMoved(s, n, b, i + 1, terms);
        SameSlice(s, n, b, i + 1, FindFirst(b, i + 1, terms).1);
      }
    }
  }

  lemma {:induction false} BracketMoved(c: Context, s: string, n: nat, b: string, start: nat, terms: seq<string>)
    requires IsRest(s, n, b) && start <= |b| && Closing(terms)
    ensures EvalBracketExpr(c, s, n + start, terms) == Moved(EvalBracketExpr(c, b, start, terms), n)
    decreases |b| - start, 5
  {
    hide NoneAt, StartsAt, FindFirst, Whitespace, EvalVarname, EvalTernary, EvalCall, Context.Lookup;
    WhitespaceMoved(s, n, b, start);
    var k := Whitespace(b, start);
    if k < |b| {
      if b[k] == '@' {
        CallMoved(c, s, n, b, k, terms);
      } else {
        FindFirstMoved(s, n, b, k, ["?"] + terms);
        VarnameMoved(c, s, n, b, k, terms);
        TernaryMoved(c, s, n, b, k, terms);
      }
    }
  }

  lemma {:induction false} TernaryMoved(c: Context, s: string, n: nat, b: string, k: nat, terms: seq<string>)
    requires IsRest(s, n, b) && k <= |b|
    ensures EvalTernary(c, s, n + k, terms) == Moved(EvalTernary(c, b, k, terms), n)
    decreases |b| - k, 4
  {
    hide NoneAt, StartsAt, EvalBoolExpr, EvalExpr, Strip, EvalTernary;
    TernaryCases(c, s, n + k, terms);
    TernaryCases(c, b, k, terms);
    BoolExprMoved(c, s, n, b, k, ["?"] + terms);
    var t := EvalBoolExpr(c, b, k, ["?"] + terms);
    if t.Ok? && t.pos < |b| && b[t.pos] == '?' {
      ExprMoved(c, s, n, b, t.pos + 1, [" : "] + terms);
      var y := EvalExpr(c, b, t.pos + 1, [" : "] + terms);
      if y.Ok? && y.pos < |b| {
        StartsAtMoved(s, n, b, y.pos, " : ");
        if StartsAt(b, y.pos, " : ") {
          CharsAt(b, y.pos, " : ");
          ExprMoved(c, s, n, b, y.pos + 3, terms);
        }
      }
    }
  }

  /** An expression in the rest of a text is evaluated as it is on its own. */
  lemma {:induction false} ExprMoved(c: Context, s: string, n: nat, b: string, k: nat, terms: seq<string>)
    requires IsRest(s, n, b) && k <= |b|
    ensures EvalExpr(c, s, n + k, terms) == Moved(EvalExpr(c, b, k, terms), n)
    decreases |b| - k, 6
  {
    hide NoneAt, StartsAt, FindFirst, EvalBracketExpr, EvalExpr;
    ExprCases(c, s, n + k, terms);
    ExprCases(c, b, k, terms);
    FindFirstMoved(s, n, b, k, ["${"] + terms);
    var (m, i) := FindFirst(b, k, ["${"] + terms);
    SameSlice(s, n, b, k, i);
    if i < |b| && m.value !in terms {
      SubstitutionFits(b, k, terms);
      BracketMoved(c, s, n, b, i + 2, ["}"]);
      var inner := EvalBracketExpr(c, b, i + 2, ["}"]);
      if inner.Ok? && inner.pos < |b| && b[inner.pos] == '}' {
        ExprMoved(c, s, n, b, inner.pos + 1, terms);
      }
    }
  }
}
