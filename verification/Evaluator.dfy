/** The driver's expression language: FindFirst and the eval_* functions. */
module Evaluator {
  import opened Options
  import opened Text

  /** Why an evaluation does not return: a ParseError message, a Python exception, or the depth bound. */
  datatype Fault =
    | UndefinedVariable
    | UnexpectedToken
    | CombinedLengthAndEquality
    | NotBoolean
    | UnterminatedPercent
    | UnterminatedBrace
    | IndexError
    | KeyError
    | AssertionError
    | CallFailed
    | TooDeep
    | Probe

  datatype Outcome<+T> = Val(value: T) | Fail(fault: Fault) {
    predicate IsFailure() { Fail? }
    function PropagateFailure<U>(): Outcome<U> requires Fail? { Fail(fault) }
    function Extract(): T requires Val? { value }
  }

  /** A parser function's result: a value and the position after it. */
  datatype Parsed<+T> = Ok(value: T, pos: nat) | Err(fault: Fault)

  function At<T>(o: Outcome<T>, pos: nat): Parsed<T> {
    match o
    case Val(v) => Ok(v, pos)
    case Fail(f) => Err(f)
  }

  /** The variables and the registered functions; a function that raises is None. */
  datatype World = World(data: map<string, string>, functions: map<string, seq<string> -> Option<string>>)

  /** A world with the evaluator used for the strings found in it (the code's self.eval). */
  datatype Context = Context(world: World, eval: string -> Outcome<string>) {
    function Lookup(name: string): Outcome<string> {
      if name in world.data then eval(world.data[name]) else Fail(UndefinedVariable)
    }

    function Call(func: string, args: seq<string>): Outcome<string> {
      if func !in world.functions then Fail(KeyError)
      else match world.functions[func](args)
        case None => Fail(CallFailed)
        case Some(text) => eval(text)
    }
  }

  // ----- FindFirst

  /** The last element of `terms` that starts at `pos`: FindFirst's dictionary keeps the last one entered. */
  function MatchAt(s: string, pos: nat, terms: seq<string>): (r: Option<string>)
    ensures r == None <==> NoneAt(s, pos, terms)
    ensures r.Some? ==> r.value in terms && StartsAt(s, pos, r.value)
  {
    if terms == [] then None
    else
      var last := terms[|terms| - 1];
      if StartsAt(s, pos, last) then Some(last)
      else
        assert forall t | t in terms :: t == last || t in terms[..|terms| - 1];
        MatchAt(s, pos, terms[..|terms| - 1])
  }

  /** The leftmost position at which an element of `terms` starts, with that element. */
  function FindFirst(s: string, pos: nat, terms: seq<string>): (r: (Option<string>, nat))
    requires pos <= |s|
    ensures pos <= r.1 <= |s|
    ensures forall k: nat | pos <= k < r.1 :: NoneAt(s, k, terms)
    ensures r.0 == None ==> r.1 == |s|
    ensures r.0.Some? ==> r.1 < |s| && r.0.value in terms && StartsAt(s, r.1, r.0.value)
    decreases |s| - pos
  {
    if pos == |s| then (None, |s|)
    else
      var m := MatchAt(s, pos, terms);
      if m.Some? then (m, pos) else FindFirst(s, pos + 1, terms)
  }

  function Find(s: string, pos: nat, t: string): (r: int)
    requires pos <= |s|
    ensures r == -1 || (pos <= r <= |s| && StartsAt(s, r, t))
    ensures forall k: nat | pos <= k < (if r == -1 then |s| else r) :: !StartsAt(s, k, t)
    decreases |s| - pos
  {
    if pos == |s| then -1 else if StartsAt(s, pos, t) then pos else Find(s, pos + 1, t)
  }

  /** FindFirst's dictionary: each pattern entered at its first position, -1 for none. */
  function Positions(s: string, pos: nat, strset: seq<string>): map<int, string>
    requires pos <= |s|
  {
    if strset == [] then map[]
    else
      var last := strset[|strset| - 1];
      Positions(s, pos, strset[..|strset| - 1])[Find(s, pos, last) := last]
  }

  /** At the least position entered, the dictionary holds the last pattern that starts there. */
  lemma {:induction false} PositionsMatch(s: string, pos: nat, strset: seq<string>, k: nat)
    requires pos <= k < |s|
    requires forall p | p in Positions(s, pos, strset) :: p == -1 || k <= p
    ensures MatchAt(s, k, strset) == if k in Positions(s, pos, strset) then Some(Positions(s, pos, strset)[k]) else None
  {
    if strset != [] {
      var init, last := strset[..|strset| - 1], strset[|strset| - 1];
      assert Find(s, pos, last) in Positions(s, pos, strset);
      assert StartsAt(s, k, last) <==> Find(s, pos, last) == k;
      assert forall p | p in Positions(s, pos, init) :: p in Positions(s, pos, strset);
      PositionsMatch(s, pos, init, k);
    }
  }

  /** The least position entered, or the end, is where FindFirst stops. */
  lemma FirstIsLeast(s: string, pos: nat, strset: seq<string>, at: nat)
    requires pos <= at <= |s|
    requires forall p | p in Positions(s, pos, strset) :: p == -1 || at <= p
    requires at < |s| ==> at in Positions(s, pos, strset)
    ensures FindFirst(s, pos, strset) == (if at < |s| then Some(Positions(s, pos, strset)[at]) else None, at)
  {
    var (w, first) := FindFirst(s, pos, strset);
    if at < |s| {
      PositionsMatch(s, pos, strset, at);
      assert !NoneAt(s, at, strset);
      MatchedFirst(s, pos, strset);
    }
    if first < at {
      PositionsMatch(s, pos, strset, first);
    }
  }

  lemma {:induction false} MatchedFirst(s: string, pos: nat, terms: seq<string>)
    requires pos <= |s|
    ensures FindFirst(s, pos, terms).0 ==
            if FindFirst(s, pos, terms).1 < |s| then MatchAt(s, FindFirst(s, pos, terms).1, terms) else None
    decreases |s| - pos
  {
    if pos < |s| && MatchAt(s, pos, terms).None? {
      MatchedFirst(s, pos + 1, terms);
    }
  }

  lemma LeastKey(keys: set<int>) returns (least: int)
    requires exists k :: k in keys
    ensures least in keys && forall k | k in keys :: least <= k
    decreases keys
  {
    var k :| k in keys;
    if forall k' | k' in keys :: k <= k' {
      least := k;
    } else {
      var j :| j in keys && j < k;
      assert j in keys - {k};
      least := LeastKey(keys - {k});
      assert forall k' | k' in keys :: k' == k || k' in keys - {k};
    }
  }

  /** FindFirst as it runs: fill the dictionary, drop -1, take the least key. */
  method FindFirstLoop(s: string, pos: nat, strset: seq<string>) returns (which: Option<string>, at: nat)
    requires pos <= |s| && "" !in strset
    ensures (which, at) == FindFirst(s, pos, strset)
  {
    var m: map<int, string> := map[];
    for n := 0 to |strset|
      invariant m == Positions(s, pos, strset[..n])
      invariant forall k | k in m :: m[k] in strset && (k == -1 || (pos <= k < |s| && StartsAt(s, k, m[k])))
    {
      assert strset[..n + 1][..n] == strset[..n];
      var i := Find(s, pos, strset[n]);
      m := m[i := strset[n]];
    }
    assert strset[..|strset|] == strset;
    ghost var all := m;
    m := m - {-1};
    assert forall p | p in all :: p == -1 || p in m;
    if m.Keys == {} {
      which, at := None, |s|;
    } else {
      ghost var least := LeastKey(m.Keys);
      at :| at in m && forall k | k in m :: at <= k;
      which := Some(m[at]);
    }
    FirstIsLeast(s, pos, strset, at);
  }

  // ----- The eval_* functions

  function Whitespace(s: string, pos: nat): (r: nat)
    requires pos <= |s|
    ensures pos <= r <= |s|
    ensures forall k | pos <= k < r :: s[k] == ' '
    ensures r < |s| ==> s[r] != ' '
    decreases |s| - pos
  {
    if pos < |s| && s[pos] == ' ' then Whitespace(s, pos + 1) else pos
  }

  method WhitespaceLoop(s: string, pos: nat) returns (i: nat)
    requires pos <= |s|
    ensures i == Whitespace(s, pos)
  {
    i := pos;
    while i < |s| && s[i] == ' '
      invariant pos <= i <= |s| && Whitespace(s, pos) == Whitespace(s, i)
    {
      i := i + 1;
    }
  }

  function EvalVarname(c: Context, s: string, pos: nat, terms: seq<string>): (r: Parsed<string>)
    requires pos <= |s|
    ensures r.Ok? ==> pos <= r.pos <= |s| && (r.pos < |s| ==> [s[r.pos]] in terms)
    decreases |s| - pos, 1
  {
    var i := FindFirst(s, pos, ["%"] + terms).1;
    var left := StripSpaces(s[pos..i]);
    if i == |s| || [s[i]] in terms then Ok(left, i)
    else
      match EvalBracketExpr(c, s, i + 1, ["%"])
      case Err(f) => Err(f)
      case Ok(middle, j) =>
        if j == |s| || s[j] != '%' then Err(UnterminatedPercent)
        else
          match EvalVarname(c, s, j + 1, terms)
          case Err(f) => Err(f)
          case Ok(right, k) => Ok(Strip(left + middle + right), k)
  }

  /** The cases of EvalVarname, one call at a time. */
  lemma VarnameCases(c: Context, s: string, pos: nat, terms: seq<string>)
    requires pos <= |s|
    ensures var i := FindFirst(s, pos, ["%"] + terms).1;
            var left := StripSpaces(s[pos..i]);
            if i == |s| || [s[i]] in terms then EvalVarname(c, s, pos, terms) == Ok(left, i)
            else
              var m := EvalBracketExpr(c, s, i + 1, ["%"]);
              if m.Err? then EvalVarname(c, s, pos, terms) == m
              else if m.pos == |s| || s[m.pos] != '%' then EvalVarname(c, s, pos, terms) == Err(UnterminatedPercent)
              else
                var r := EvalVarname(c, s, m.pos + 1, terms);
                EvalVarname(c, s, pos, terms) == if r.Err? then r else Ok(Strip(left + m.value + r.value), r.pos)
  {
    hide EvalBracketExpr, Strip, StripSpaces, FindFirst;
  }

  function EvalBoolVal(c: Context, s: string, pos: nat, terms: seq<string>): (r: Parsed<bool>)
    requires pos <= |s|
    ensures r.Ok? ==> pos <= r.pos <= |s|
    decreases |s| - pos, 2
  {
    var i := Whitespace(s, pos);
    if i == |s| then Err(IndexError)
    else
      var negated := s[i] == '!';
      var i := Whitespace(s, if negated then i + 1 else i);
      if i == |s| then Err(IndexError)
      else
        var useLen := s[i] == '#';
        var i := if useLen then i + 1 else i;
        match EvalVarname(c, s, i, ["="] + terms)
        case Err(f) => Err(f)
        case Ok(name, j) =>
          if j == |s| then Ok(false, j)
          else
            match c.Lookup(name)
            case Fail(f) => Err(f)
            case Val(contents) =>
              if s[j] == '=' then EvalEquality(s, j, terms, negated, useLen, contents)
              else if useLen then Ok(negated != (contents != ""), j)
              else if contents != "0" && contents != "1" then Err(NotBoolean)
              else Ok(negated != (contents == "1"), j)
  }

  /** The `==` branch of eval_bool_val, entered with s[j] == '='. */
  function EvalEquality(s: string, j: nat, terms: seq<string>,
                        negated: bool, useLen: bool, contents: string): (r: Parsed<bool>)
    requires j < |s|
    ensures r.Ok? ==> j <= r.pos <= |s|
    ensures r.Err? ==> r.fault in {UnexpectedToken, CombinedLengthAndEquality}
  {
    if j + 1 == |s| || s[j + 1] != '=' then Err(UnexpectedToken)
    else if useLen then Err(CombinedLengthAndEquality)
    else
      var from := Whitespace(s, j + 2);
      var to := FindFirst(s, from, [" "] + terms).1;
      var end := Whitespace(s, to);
      if end == |s| then Ok(false, end) else Ok(negated != (contents == s[from..to]), end)
  }

  function EvalBoolExpr(c: Context, s: string, pos: nat, terms: seq<string>): (r: Parsed<bool>)
    requires pos <= |s|
    ensures r.Ok? ==> pos <= r.pos <= |s|
    decreases |s| - pos, 3
  {
    match EvalBoolVal(c, s, pos, ["&", "|"] + terms)
    case Err(f) => Err(f)
    case Ok(val1, i) =>
      if i == |s| then Ok(false, i)
      else if s[i] != '&' && s[i] != '|' then Ok(val1, i)
      else if i + 1 == |s| || s[i + 1] != s[i] then Err(UnexpectedToken)
      else
        match EvalBoolExpr(c, s, i + 2, terms)
        case Err(f) => Err(f)
        case Ok(val2, j) =>
          if j == |s| then Ok(false, j)
          else Ok(if s[i] == '&' then val1 && val2 else val1 || val2, j)
  }

  /** The cases of EvalBoolVal once its flags have been read. */
  lemma BoolValCases(c: Context, s: string, pos: nat, terms: seq<string>, from: nat)
    requires pos <= |s|
    requires var i := Whitespace(s, pos);
             i < |s| && var i' := Whitespace(s, if s[i] == '!' then i + 1 else i);
                        i' < |s| && from == if s[i'] == '#' then i' + 1 else i'
    ensures var i := Whitespace(s, pos);
            var i' := Whitespace(s, if s[i] == '!' then i + 1 else i);
            var negated, useLen := s[i] == '!', s[i'] == '#';
            var n := EvalVarname(c, s, from, ["="] + terms);
            if n.Err? then EvalBoolVal(c, s, pos, terms) == Err(n.fault)
            else if n.pos == |s| then EvalBoolVal(c, s, pos, terms) == Ok(false, n.pos)
            else
              var v := c.Lookup(n.value);
              if v.Fail? then EvalBoolVal(c, s, pos, terms) == Err(v.fault)
              else if s[n.pos] == '='
                  then EvalBoolVal(c, s, pos, terms) == EvalEquality(s, n.pos, terms, negated, useLen, v.value)
              else
                EvalBoolVal(c, s, pos, terms) ==
                if useLen then Ok(negated != (v.value != ""), n.pos)
                else if v.value != "0" && v.value != "1" then Err(NotBoolean)
                else Ok(negated != (v.value == "1"), n.pos)
  {
    hide EvalVarname, EvalEquality, Whitespace, Context.Lookup;
  }

  /** The cases of EvalBoolExpr, one call at a time. */
  lemma BoolExprCases(c: Context, s: string, pos: nat, terms: seq<string>)
    requires pos <= |s|
    ensures var v := EvalBoolVal(c, s, pos, ["&", "|"] + terms);
            if v.Err? then EvalBoolExpr(c, s, pos, terms) == v
            else if v.pos == |s| then EvalBoolExpr(c, s, pos, terms) == Ok(false, v.pos)
            else if s[v.pos] != '&' && s[v.pos] != '|' then EvalBoolExpr(c, s, pos, terms) == v
            else if v.pos + 1 == |s| || s[v.pos + 1] != s[v.pos]
                then EvalBoolExpr(c, s, pos, terms) == Err(UnexpectedToken)
            else
              var r := EvalBoolExpr(c, s, v.pos + 2, terms);
              EvalBoolExpr(c, s, pos, terms) ==
              if r.Err? then r else if r.pos == |s| then Ok(false, r.pos)
              else Ok(if s[v.pos] == '&' then v.value && r.value else v.value || r.value, r.pos)
  {
    hide EvalBoolVal;
  }

  /** The bracket evaluator is only ever entered with one of the two closing delimiters. */
  predicate Closing(terms: seq<string>) {
    terms == ["}"] || terms == ["%"]
  }

  function EvalBracketExpr(c: Context, s: string, start: nat, terms: seq<string>): (r: Parsed<string>)
    requires start <= |s| && Closing(terms)
    ensures r.Ok? ==> start <= r.pos <= |s|
    decreases |s| - start, 5
  {
    var pos := Whitespace(s, start);
    if pos == |s| then Err(IndexError)
    else if s[pos] == '@' then EvalCall(c, s, pos, terms)
    else if FindFirst(s, pos, ["?"] + terms).0 != Some("?") then
      match EvalVarname(c, s, pos, terms)
      case Err(f) => Err(f)
      case Ok(name, i) => if i == |s| then Ok("", i) else At(c.Lookup(name), i)
    else EvalTernary(c, s, pos, terms)
  }

  /** The `test ? yes : no` branch of eval_bracket_expr. */
  function EvalTernary(c: Context, s: string, pos: nat, terms: seq<string>): (r: Parsed<string>)
    requires pos <= |s|
    ensures r.Ok? ==> pos <= r.pos <= |s|
    decreases |s| - pos, 4
  {
    match EvalBoolExpr(c, s, pos, ["?"] + terms)
    case Err(f) => Err(f)
    case Ok(cond, i) =>
      if i == |s| || s[i] != '?' then Err(AssertionError)
      else
        match EvalExpr(c, s, i + 1, [" : "] + terms)
        case Err(f) => Err(f)
        case Ok(yes, j) =>
          if j == |s| then Ok("", j)
          else if StartsAt(s, j, " : ") then
            match EvalExpr(c, s, j + 3, terms)
            case Err(f) => Err(f)
            case Ok(no, k) => if k == |s| then Ok("", k) else Ok(Strip(if cond then yes else no), k)
          else Ok(Strip(if cond then yes else ""), j)
  }

  /** The `@func:arg1:arg2` branch of eval_bracket_expr, entered with s[pos] == '@'. */
  function EvalCall(c: Context, s: string, pos: nat, terms: seq<string>): (r: Parsed<string>)
    requires pos < |s| && s[pos] == '@' && Closing(terms)
    ensures r.Ok? ==> pos <= r.pos <= |s|
  {
    var (m, i) := FindFirst(s, pos, [":"] + terms);
    if i == |s| then Ok("", i)
    else
      assert StartsAt(s, i, m.value) && m.value != "@";
      assert i != pos by { CharsAt(s, i, m.value); }
      var func := s[pos + 1..i];
      if s[i] != ':' then At(c.Call(func, []), i)
      else
        var j := FindFirst(s, i + 1, terms).1;
        if j == |s| then Ok("", j) else At(c.Call(func, SplitOn(s[i + 1..j], ':')), j)
  }

  function EvalExpr(c: Context, s: string, pos: nat, terms: seq<string>): (r: Parsed<string>)
    requires pos <= |s|
    ensures r.Ok? ==> pos <= r.pos <= |s|
    ensures r.Ok? && terms == [] ==> r.pos == |s|
    decreases |s| - pos, 6
  {
    var (m, i) := FindFirst(s, pos, ["${"] + terms);
    var left := s[pos..i];
    if i == |s| || m.value in terms then Ok(left, i)
    else
      match EvalBracketExpr(c, s, i + 2, ["}"])
      case Err(f) => Err(f)
      case Ok(middle, j) =>
        if j == |s| || s[j] != '}' then Err(UnterminatedBrace)
        else
          match EvalExpr(c, s, j + 1, terms)
          case Err(f) => Err(f)
          case Ok(right, k) => Ok(left + middle + right, k)
  }

  /** The cases of EvalTernary, one call at a time. */
  lemma {:induction false} TernaryCases(c: Context, s: string, pos: nat, terms: seq<string>)
    requires pos <= |s|
    ensures var t := EvalBoolExpr(c, s, pos, ["?"] + terms);
            if t.Err? then EvalTernary(c, s, pos, terms) == Err(t.fault)
            else if t.pos == |s| || s[t.pos] != '?' then EvalTernary(c, s, pos, terms) == Err(AssertionError)
            else
              var y := EvalExpr(c, s, t.pos + 1, [" : "] + terms);
              if y.Err? then EvalTernary(c, s, pos, terms) == y
              else if y.pos == |s| then EvalTernary(c, s, pos, terms) == Ok("", y.pos)
              else if !StartsAt(s, y.pos, " : ")
                  then EvalTernary(c, s, pos, terms) == Ok(Strip(if t.value then y.value else ""), y.pos)
              else
                var n := EvalExpr(c, s, y.pos + 3, terms);
                EvalTernary(c, s, pos, terms) ==
                if n.Err? then n else if n.pos == |s| then Ok("", n.pos)
                    else Ok(Strip(if t.value then y.value else n.value), n.pos)
  {
    hide EvalBoolExpr, EvalExpr, Strip, FindFirst;
  }

  lemma SubstitutionFits(s: string, pos: nat, terms: seq<string>)
    requires pos <= |s|
    ensures var (m, i) := FindFirst(s, pos, ["${"] + terms);
            i < |s| && m.value !in terms ==> m.value == "${" && i + 2 <= |s|
  {
  }

  /** The cases of EvalExpr, one call at a time. */
  lemma ExprCases(c: Context, s: string, pos: nat, terms: seq<string>)
    requires pos <= |s|
    ensures var (m, i) := FindFirst(s, pos, ["${"] + terms);
            if i == |s| || m.value in terms then EvalExpr(c, s, pos, terms) == Ok(s[pos..i], i)
            else
              var b := EvalBracketExpr(c, s, i + 2, ["}"]);
              if b.Err? then EvalExpr(c, s, pos, terms) == Err(b.fault)
              else if b.pos == |s| || s[b.pos] != '}' then EvalExpr(c, s, pos, terms) == Err(UnterminatedBrace)
              else
                var r := EvalExpr(c, s, b.pos + 1, terms);
                EvalExpr(c, s, pos, terms) == if r.Err? then r else Ok(s[pos..i] + b.value + r.value, r.pos)
  {
    hide EvalBracketExpr;
  }

  /** eval_expr from position 0 without terminators, with the assertion that it read the whole string. */
  function EvalText(c: Context, s: string): Outcome<string> {
    match EvalExpr(c, s, 0, [])
    case Ok(v, i) => if i == |s| then Val(v) else Fail(AssertionError)
    case Err(f) => Fail(f)
  }

  /** self.eval with at most `depth` nested evaluations. */
  function Eval(w: World, depth: nat, s: string): Outcome<string>
    decreases depth, 0
  {
    if depth == 0 then Fail(TooDeep) else EvalText(Inside(w, depth - 1), s)
  }

  function Inside(w: World, depth: nat): Context
    decreases depth, 1
  {
    Context(w, t => Eval(w, depth, t))
  }

  lemma InsideEval(w: World, depth: nat)
    ensures Inside(w, depth).world == w && forall q :: Inside(w, depth).eval(q) == Eval(w, depth, q)
  {
    hide EvalText;
  }
}
