/**
 Nested evaluation: more depth never changes a result, and evaluation terminates exactly when the
 strings can be ranked so that every lookup asks for a string of lower rank.
 */
module EvaluatorDepth {
  import opened Evaluator
  import opened Options
  import opened Text

  // ----- Replacing the nested evaluator

  /** `c2` is `c1` with some nested evaluations replaced by the fault `f`. */
  ghost predicate Poisons(c1: Context, c2: Context, f: Fault) {
    c1.world == c2.world && forall q :: c2.eval(q) == c1.eval(q) || c2.eval(q) == Fail(f)
  }

  /** If `clean`, no nested evaluation in `c` ends in `f`. */
  ghost predicate Spares(c: Context, f: Fault, clean: bool) {
    clean ==> forall q :: c.eval(q) != Fail(f)
  }

  predicate Follows<T(==)>(r1: Parsed<T>, r2: Parsed<T>, f: Fault, clean: bool) {
    (r2 == r1 || r2 == Err(f)) && (clean ==> r1 != Err(f))
  }

  lemma {:induction false} VarnameFollows(c1: Context, c2: Context, s: string, pos: nat, terms: seq<string>, f: Fault,
                                          clean: bool)
    requires Poisons(c1, c2, f) && Spares(c1, f, clean) && (f == TooDeep || f == Probe) && pos <= |s|
    ensures Follows(EvalVarname(c1, s, pos, terms), EvalVarname(c2, s, pos, terms), f, clean)
    decreases |s| - pos, 1
  {
    hide Poisons, Spares, NoneAt, StartsAt, FindFirst, EvalBracketExpr, EvalEquality, EvalBoolVal, EvalBoolExpr,
         EvalExpr, EvalCall, EvalTernary, Strip, StripSpaces, EvalVarname;
    VarnameCases(c1, s, pos, terms);
    VarnameCases(c2, s, pos, terms);
    var i := FindFirst(s, pos, ["%"] + terms).1;
    if i < |s| && [s[i]] !in terms {
      BracketFollows(c1, c2, s, i + 1, ["%"], f, clean);
      var m := EvalBracketExpr(c1, s, i + 1, ["%"]);
      if m.Ok? && m.pos < |s| && s[m.pos] == '%' {
        VarnameFollows(c1, c2, s, m.pos + 1, terms, f, clean);
      }
    }
  }

  lemma LookupFollows(c1: Context, c2: Context, name: string, pos: nat, f: Fault, clean: bool)
    requires Poisons(c1, c2, f) && Spares(c1, f, clean) && (f == TooDeep || f == Probe)
    ensures Follows(At(c1.Lookup(name), pos), At(c2.Lookup(name), pos), f, clean)
  {
  }

  lemma CallFollows(c1: Context, c2: Context, s: string, pos: nat, terms: seq<string>, f: Fault, clean: bool)
    requires Poisons(c1, c2, f) && Spares(c1, f, clean) && (f == TooDeep || f == Probe)
    requires pos < |s| && s[pos] == '@' && Closing(terms)
    ensures Follows(EvalCall(c1, s, pos, terms), EvalCall(c2, s, pos, terms), f, clean)
  {
    hide FindFirst, SplitOn, StartsAt;
  }

  lemma {:induction false} BoolValFollows(c1: Context, c2: Context, s: string, pos: nat, terms: seq<string>, f: Fault,
                                          clean: bool)
    requires Poisons(c1, c2, f) && Spares(c1, f, clean) && (f == TooDeep || f == Probe) && pos <= |s|
    ensures Follows(EvalBoolVal(c1, s, pos, terms), EvalBoolVal(c2, s, pos, terms), f, clean)
    decreases |s| - pos, 2
  {
    hide Poisons, Spares, NoneAt, StartsAt, FindFirst, Whitespace, EvalBracketExpr, EvalVarname, EvalBoolExpr, EvalExpr,
         EvalCall, EvalTernary, EvalEquality, Context.Lookup;
    var i := Whitespace(s, pos);
    if i < |s| {
      var i' := Whitespace(s, if s[i] == '!' then i + 1 else i);
      if i' < |s| {
        var from := if s[i'] == '#' then i' + 1 else i';
        BoolValCases(c1, s, pos, terms, from);
        BoolValCases(c2, s, pos, terms, from);
        VarnameFollows(c1, c2, s, from, ["="] + terms, f, clean);
        var n := EvalVarname(c1, s, from, ["="] + terms);
        if n.Ok? {
          LookupFollows(c1, c2, n.value, n.pos, f, clean);
        }
      }
    }
  }

  lemma {:induction false} BoolExprFollows(c1: Context, c2: Context, s: string, pos: nat, terms: seq<string>, f: Fault,
                                           clean: bool)
    requires Poisons(c1, c2, f) && Spares(c1, f, clean) && (f == TooDeep || f == Probe) && pos <= |s|
    ensures Follows(EvalBoolExpr(c1, s, pos, terms), EvalBoolExpr(c2, s, pos, terms), f, clean)
    decreases |s| - pos, 3
  {
    hide Poisons, Spares, NoneAt, StartsAt, FindFirst, Whitespace, EvalBracketExpr, EvalVarname, EvalBoolVal,
         EvalEquality, EvalExpr, EvalCall, EvalTernary, EvalBoolExpr;
    BoolExprCases(c1, s, pos, terms);
    BoolExprCases(c2, s, pos, terms);
    BoolValFollows(c1, c2, s, pos, ["&", "|"] + terms, f, clean);
    var v := EvalBoolVal(c1, s, pos, ["&", "|"] + terms);
    if v.Ok? && v.pos + 1 < |s| {
      BoolExprFollows(c1, c2, s, v.pos + 2, terms, f, clean);
    }
  }

  lemma {:induction false} BracketFollows(c1: Context, c2: Context, s: string, start: nat, terms: seq<string>,
                                          f: Fault, clean: bool)
    requires Poisons(c1, c2, f) && Spares(c1, f, clean) && (f == TooDeep || f == Probe) && start <= |s|
    requires Closing(terms)
    ensures Follows(EvalBracketExpr(c1, s, start, terms), EvalBracketExpr(c2, s, start, terms), f, clean)
    decreases |s| - start, 5
  {
    hide Poisons, Spares, NoneAt, StartsAt, FindFirst, Whitespace, EvalVarname, EvalBoolVal, EvalEquality, EvalBoolExpr,
         EvalExpr, EvalCall, EvalTernary, Strip, Context.Lookup;
    var pos := Whitespace(s, start);
    if pos < |s| {
      if s[pos] == '@' {
        CallFollows(c1, c2, s, pos, terms, f, clean);
      } else if FindFirst(s, pos, ["?"] + terms).0 != Some("?") {
        VarnameFollows(c1, c2, s, pos, terms, f, clean);
        var n := EvalVarname(c1, s, pos, terms);
        if n.Ok? {
          LookupFollows(c1, c2, n.value, n.pos, f, clean);
        }
      } else {
        TernaryFollows(c1, c2, s, pos, terms, f, clean);
      }
    }
  }

  lemma {:induction false} TernaryFollows(c1: Context, c2: Context, s: string, pos: nat, terms: seq<string>, f: Fault,
                                          clean: bool)
    requires Poisons(c1, c2, f) && Spares(c1, f, clean) && (f == TooDeep || f == Probe) && pos <= |s|
    ensures Follows(EvalTernary(c1, s, pos, terms), EvalTernary(c2, s, pos, terms), f, clean)
    decreases |s| - pos, 4
  {
    hide Poisons, Spares, NoneAt, StartsAt, FindFirst, Whitespace, EvalVarname, EvalBoolVal, EvalEquality, EvalBoolExpr,
         EvalBracketExpr, EvalExpr, EvalCall, Strip, EvalTernary;
    TernaryCases(c1, s, pos, terms);
    TernaryCases(c2, s, pos, terms);
    BoolExprFollows(c1, c2, s, pos, ["?"] + terms, f, clean);
    var t := EvalBoolExpr(c1, s, pos, ["?"] + terms);
    if t.Ok? && t.pos < |s| {
      ExprFollows(c1, c2, s, t.pos + 1, [" : "] + terms, f, clean);
      var y := EvalExpr(c1, s, t.pos + 1, [" : "] + terms);
      if y.Ok? && StartsAt(s, y.pos, " : ") {
        CharsAt(s, y.pos, " : ");
        ExprFollows(c1, c2, s, y.pos + 3, terms, f, clean);
      }
    }
  }

  lemma {:induction false} ExprFollows(c1: Context, c2: Context, s: string, pos: nat, terms: seq<string>, f: Fault,
                                       clean: bool)
    requires Poisons(c1, c2, f) && Spares(c1, f, clean) && (f == TooDeep || f == Probe) && pos <= |s|
    ensures Follows(EvalExpr(c1, s, pos, terms), EvalExpr(c2, s, pos, terms), f, clean)
    decreases |s| - pos, 6
  {
    hide Poisons, Spares, NoneAt, StartsAt, FindFirst, Whitespace, EvalVarname, EvalBoolVal, EvalEquality, EvalBoolExpr,
         EvalBracketExpr, EvalCall, EvalTernary, EvalExpr;
    var (m, i) := FindFirst(s, pos, ["${"] + terms);
    ExprCases(c1, s, pos, terms);
    ExprCases(c2, s, pos, terms);
    if i < |s| && m.value !in terms {
      SubstitutionFits(s, pos, terms);
      BracketFollows(c1, c2, s, i + 2, ["}"], f, clean);
      var b := EvalBracketExpr(c1, s, i + 2, ["}"]);
      if b.Ok? && b.pos < |s| {
        ExprFollows(c1, c2, s, b.pos + 1, terms, f, clean);
      }
    }
  }

  /** Poisoning nested evaluations with `f` leaves the outcome as it was or makes it `f`. */
  lemma TextFollows(c1: Context, c2: Context, s: string, f: Fault, clean: bool)
    requires Poisons(c1, c2, f) && Spares(c1, f, clean) && (f == TooDeep || f == Probe)
    ensures EvalText(c2, s) == EvalText(c1, s) || EvalText(c2, s) == Fail(f)
    ensures clean ==> EvalText(c1, s) != Fail(f)
  {
    hide EvalExpr;
    ExprFollows(c1, c2, s, 0, [], f, clean);
  }

  // ----- Depth

  /** Once an evaluation ends, more depth gives the same outcome. */
  lemma {:induction false} DepthMonotone(w: World, n: nat, m: nat, s: string)
    requires n <= m && Eval(w, n, s) != Fail(TooDeep)
    ensures Eval(w, m, s) == Eval(w, n, s)
    decreases n
  {
    hide EvalText;
    if n > 0 {
      forall q {:trigger Eval(w, n - 1, q)} | true
        ensures Eval(w, n - 1, q) == Eval(w, m - 1, q) || Eval(w, n - 1, q) == Fail(TooDeep)
      {
        if Eval(w, n - 1, q) != Fail(TooDeep) {
          DepthMonotone(w, n - 1, m - 1, q);
        }
      }
      InsideEval(w, m - 1);
      InsideEval(w, n - 1);
      TextFollows(Inside(w, m - 1), Inside(w, n - 1), s, TooDeep, false);
    }
  }

  /** Nested evaluation restricted to strings ranked below `bound`; asking for any other is the fault Probe. */
  ghost function Capped(w: World, depth: nat, rank: string -> nat, bound: nat): Context {
    Context(w, q => if rank(q) < bound then Eval(w, depth, q) else Fail(Probe))
  }

  /** Evaluating a string asks only for strings of lower rank: variables' contents and results of calls alike. */
  ghost predicate Decreasing(w: World, rank: string -> nat) {
    forall s, depth: nat :: EvalText(Capped(w, depth, rank, rank(s)), s) != Fail(Probe)
  }

  ghost predicate Terminates(w: World, s: string) {
    exists depth: nat :: Eval(w, depth, s) != Fail(TooDeep)
  }

  lemma {:induction false} NeverProbe(w: World, depth: nat, s: string)
    ensures Eval(w, depth, s) != Fail(Probe)
    decreases depth
  {
    hide EvalText;
    if depth > 0 {
      forall q {:trigger Eval(w, depth - 1, q)} | true
        ensures Eval(w, depth - 1, q) != Fail(Probe)
      {
        NeverProbe(w, depth - 1, q);
      }
      InsideEval(w, depth - 1);
      TextFollows(Inside(w, depth - 1), Inside(w, depth - 1), s, Probe, true);
    }
  }

  /** A rank that every lookup decreases bounds the nesting. */
  lemma {:induction false} RankBoundsDepth(w: World, rank: string -> nat, n: nat, s: string)
    requires Decreasing(w, rank) && rank(s) < n
    ensures Eval(w, n, s) != Fail(TooDeep)
    decreases n
  {
    hide EvalText;
    var capped := Capped(w, n - 1, rank, rank(s));
    InsideEval(w, n - 1);
    TextFollows(Inside(w, n - 1), capped, s, Probe, false);
    forall q | rank(q) < rank(s)
      ensures Eval(w, n - 1, q) != Fail(TooDeep)
    {
      RankBoundsDepth(w, rank, n - 1, q);
    }
    TextFollows(capped, capped, s, TooDeep, true);
  }

  ghost function LeastDepth(w: World, s: string): (d: nat)
    requires Terminates(w, s)
    ensures Eval(w, d, s) != Fail(TooDeep)
    ensures forall n: nat :: n < d ==> Eval(w, n, s) == Fail(TooDeep)
  {
    var n: nat :| Eval(w, n, s) != Fail(TooDeep);
    LeastDepthBelow(w, s, n)
  }

  ghost function LeastDepthBelow(w: World, s: string, n: nat): (d: nat)
    requires Eval(w, n, s) != Fail(TooDeep)
    ensures Eval(w, d, s) != Fail(TooDeep)
    ensures forall m: nat :: m < d ==> Eval(w, m, s) == Fail(TooDeep)
    decreases n
  {
    if n > 0 && Eval(w, n - 1, s) != Fail(TooDeep) then LeastDepthBelow(w, s, n - 1)
    else
      assert forall m: nat :: m < n ==> Eval(w, m, s) == Fail(TooDeep) by {
        forall m: nat | m < n
          ensures Eval(w, m, s) == Fail(TooDeep)
        {
          if Eval(w, m, s) != Fail(TooDeep) { DepthMonotone(w, m, n - 1, s); }
        }
      }
      n
  }

  /** How much nesting a string needs below itself. */
  ghost function Nesting(w: World): string -> nat
    requires forall s :: Terminates(w, s)
  {
    (s: string) => LeastDepth(w, s) - 1
  }

  lemma CapAtNesting(w: World, depth: nat, d: nat)
    requires forall q :: Terminates(w, q)
    ensures Poisons(Capped(w, d, Nesting(w), d), Inside(w, d), TooDeep)
    ensures Poisons(Capped(w, d, Nesting(w), d), Capped(w, depth, Nesting(w), d), TooDeep)
  {
    hide EvalText, Eval;
    InsideEval(w, d);
    forall q | LeastDepth(w, q) <= d && Eval(w, depth, q) != Fail(TooDeep)
      ensures Eval(w, depth, q) == Eval(w, d, q)
    {
      DepthMonotone(w, LeastDepth(w, q), depth, q);
      DepthMonotone(w, LeastDepth(w, q), d, q);
    }
  }

  /** A string's evaluation needs only strings that need less nesting. */
  lemma ExactDepth(w: World, s: string)
    requires forall q :: Terminates(w, q)
    ensures LeastDepth(w, s) > 0
    ensures var d := LeastDepth(w, s) - 1;
            EvalText(Capped(w, d, Nesting(w), d), s) != Fail(TooDeep) &&
                EvalText(Capped(w, d, Nesting(w), d), s) != Fail(Probe)
  {
    hide EvalText, Poisons, Spares, Capped, Nesting, Inside;
    var d := LeastDepth(w, s) - 1;
    CapAtNesting(w, d, d);
    NotClean(Capped(w, d, Nesting(w), d), TooDeep);
    TextFollows(Capped(w, d, Nesting(w), d), Inside(w, d), s, TooDeep, false);
    NeverProbe(w, d + 1, s);
  }

  lemma NotClean(c: Context, f: Fault)
    ensures Spares(c, f, false)
  {
  }

  /** When everything terminates, the nesting each string needs is such a rank. */
  lemma NestingDecreases(w: World)
    requires forall s :: Terminates(w, s)
    ensures Decreasing(w, Nesting(w))
  {
    hide EvalText;
    forall s, depth: nat
      ensures EvalText(Capped(w, depth, Nesting(w), Nesting(w)(s)), s) != Fail(Probe)
    {
      NestingDecreasesAt(w, s, depth);
    }
  }

  lemma NestingDecreasesAt(w: World, s: string, depth: nat)
    requires forall q :: Terminates(w, q)
    ensures EvalText(Capped(w, depth, Nesting(w), Nesting(w)(s)), s) != Fail(Probe)
  {
    hide EvalText, Eval, Poisons, Spares, Capped;
    ExactDepth(w, s);
    var d := LeastDepth(w, s) - 1;
    CapAtNesting(w, depth, d);
    NotClean(Capped(w, d, Nesting(w), d), TooDeep);
    TextFollows(Capped(w, d, Nesting(w), d), Capped(w, depth, Nesting(w), d), s, TooDeep, false);
  }

  /** Evaluation of every string terminates exactly when some rank decreases at every lookup. */
  lemma TerminationIffRanked(w: World)
    ensures (forall s :: Terminates(w, s)) <==> exists rank: string -> nat :: Decreasing(w, rank)
  {
    if exists rank: string -> nat :: Decreasing(w, rank) {
      var rank: string -> nat :| Decreasing(w, rank);
      forall s
        ensures Terminates(w, s)
      {
        RankBoundsDepth(w, rank, rank(s) + 1, s);
      }
    }
    if forall s :: Terminates(w, s) {
      NestingDecreases(w);
    }
  }
}
