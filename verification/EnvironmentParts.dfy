/**
 The environment as its users see it: a stack of maps from variables to what has been put in them, templates and lists
 of non-empty terms.
 */
module EnvironmentParts {
  import opened DriverEnvironment
  import Shell
  import opened Text

  /** What has been put in a variable at once: terms as they are, or text that is evaluated when it is read. */
  datatype Part = Terms(terms: seq<string>) | Template(text: string)

  /** A variable's parts, in order. */
  type Held = seq<Part>

  /** Terms without substitutions are just terms; any others make a template. */
  function PartOf(terms: seq<string>): Part {
    if PlainTerms(terms) then Terms(Shell.NonEmpty(terms)) else Template(Shell.Join(terms))
  }

  predicate PlainTerms(terms: seq<string>) {
    forall t | t in terms :: Absent(t, "${")
  }

  function StepParts(s: State<Held>, op: Op): State<Held> {
    if Raises(s, op) then s
    else match op
      case Set(name, terms) => s.(data := s.data[name := [PartOf(terms)]])
      case Append(name, terms) => s.(data := s.data[name := s.data[name] + [PartOf(terms)]])
      case Clear(name) => s.(data := s.data[name := []])
      case SetRaw(name, text) => s.(data := s.data[name := [Template(text)]])
      case Update(extra) => s.(data := s.data + Loaded(extra).data)
      case Push => s.(stack := s.stack + [s.data])
      case Pop => State(s.stack[|s.stack| - 1], s.stack[..|s.stack| - 1])
  }

  function RunParts(s: State<Held>, ops: seq<Op>): State<Held>
    decreases |ops|
  {
    if ops == [] then s else RunParts(StepParts(s, ops[0]), ops[1..])
  }

  /** The variables as they are loaded, whatever text they hold. */
  function Loaded(data: map<string, string>): State<Held> {
    State(map v | v in data :: [Template(data[v])], [])
  }

  /** `text` reads as `terms`, and holds nothing to substitute. */
  predicate Reads(text: string, terms: seq<string>) {
    Shell.Words(text, Shell.Gap) == Shell.Good(terms) && Absent(text, "${")
  }

  predicate HoldsPart(text: string, part: Part) {
    match part
    case Terms(terms) => Reads(text, terms)
    case Template(template) => text == template
  }

  /** `text` is made of pieces that hold the parts. */
  ghost predicate Holds(text: string, h: Held)
    decreases |h|
  {
    if h == [] then text == ""
    else
      exists front, back ::
        Holds(front, h[..|h| - 1]) && HoldsPart(back, h[|h| - 1]) && text == Joined(front, back)
  }

  ghost predicate HoldsAll(m: map<string, string>, t: map<string, Held>) {
    m.Keys == t.Keys && forall v | v in m :: Holds(m[v], t[v])
  }

  ghost predicate Refines(s: State<string>, t: State<Held>) {
    HoldsAll(s.data, t.data) && |s.stack| == |t.stack| &&
    forall i | 0 <= i < |s.stack| :: HoldsAll(s.stack[i], t.stack[i])
  }

  // ----- Stored text holds nothing to substitute

  lemma AbsentChars(s: string)
    ensures Absent(s, "${") <==> forall k: nat | k + 1 < |s| :: !(s[k] == '$' && s[k + 1] == '{')
  {
    if Absent(s, "${") {
      forall k: nat | k + 1 < |s|
        ensures !(s[k] == '$' && s[k + 1] == '{')
      {
        assert !StartsAt(s, k, "${") && s[k..k + 2] == [s[k], s[k + 1]];
      }
    }
    if forall k: nat | k + 1 < |s| :: !(s[k] == '$' && s[k + 1] == '{') {
      forall k: nat | k < |s|
        ensures !StartsAt(s, k, "${")
      {
        if k + 1 < |s| { assert s[k..k + 2] == [s[k], s[k + 1]]; }
      }
    }
  }

  /** Text put after text that does not end in '$' creates no substitution. */
  lemma AbsentConcat(a: string, b: string)
    requires Absent(a, "${") && Absent(b, "${")
    requires (a != "" ==> a[|a| - 1] != '$') || (b != "" ==> b[0] != '{')
    ensures Absent(a + b, "${")
  {
    AbsentChars(a);
    AbsentChars(b);
    AbsentChars(a + b);
    forall k: nat | k + 1 < |a + b|
      ensures !((a + b)[k] == '$' && (a + b)[k + 1] == '{')
    {
      if k >= |a| { assert (a + b)[k] == b[k - |a|] && (a + b)[k + 1] == b[k - |a| + 1]; }
    }
  }

  lemma {:induction false} AbsentQuoted(t: string)
    requires Absent(t, "${")
    ensures Absent(Shell.QuotedAll(t), "${")
    ensures t != "" ==> Shell.QuotedAll(t) != "" && (Shell.QuotedAll(t)[0] == '{' ==> t[0] == '{')
  {
    if t != "" {
      AbsentChars(t);
      AbsentChars(t[1..]);
      AbsentQuoted(t[1..]);
      AbsentChars(Shell.Quoted(t[0]));
      AbsentConcat(Shell.Quoted(t[0]), Shell.QuotedAll(t[1..]));
    }
  }

  /** Escaping never creates a substitution. */
  lemma AbsentEscape(t: string)
    requires Absent(t, "${")
    ensures Absent(Shell.Escape(t), "${")
  {
    Shell.EscapeQuotesEachChar(t);
    AbsentQuoted(t);
    var e := Shell.QuotedAll(t);
    AbsentChars("\"");
    AbsentConcat(e, "\"");
    AbsentConcat("\"", e + "\"");
    assert "\"" + e + "\"" == "\"" + (e + "\"");
  }

  lemma {:induction false} AbsentJoin(terms: seq<string>)
    requires forall t | t in terms :: Absent(t, "${")
    ensures Absent(Shell.Join(terms), "${")
  {
    if terms != [] {
      AbsentEscape(terms[0]);
      var parts := seq(|terms|, i requires 0 <= i < |terms| => Shell.Escape(terms[i]));
      if |terms| > 1 {
        var tail := terms[1..];
        AbsentJoin(tail);
        assert parts[1..] == seq(|tail|, i requires 0 <= i < |tail| => Shell.Escape(tail[i]));
        AbsentChars(" ");
        AbsentConcat(parts[0], " ");
        AbsentConcat(parts[0] + " ", Shell.Join(tail));
      }
    }
  }

  // ----- Refinement

  lemma NothingRead()
    ensures Reads("", [])
  {
  }

  lemma JoinHolds(terms: seq<string>)
    ensures HoldsPart(Shell.Join(terms), PartOf(terms))
  {
    Shell.SplitJoin(terms);
    if PlainTerms(terms) {
      AbsentJoin(terms);
    }
  }

  lemma HoldsMore(text: string, h: Held, more: string, part: Part)
    requires Holds(text, h) && HoldsPart(more, part)
    ensures Holds(Joined(text, more), h + [part])
  {
    assert (h + [part])[..|h|] == h;
  }

  lemma HoldsOne(text: string, part: Part)
    requires HoldsPart(text, part)
    ensures Holds(text, [part])
  {
    hide HoldsPart;
    HoldsMore("", [], text, part);
    assert [] + [part] == [part] && Joined("", text) == text;
  }

  /** Every operation keeps the stored text in line with what its users see, and raises when they expect it to. */
  lemma StepRefines(s: State<string>, t: State<Held>, op: Op)
    requires Refines(s, t)
    ensures Refines(Step(s, op), StepParts(t, op)) && (Raises(s, op) <==> Raises(t, op))
  {
    hide HoldsPart, PartOf, Joined, Holds, Loaded;
    NothingHolds();
    if !Raises(s, op) {
      match op
      case Set(name, terms) =>
        JoinHolds(terms);
        SetHolds(terms);
      case Append(name, terms) =>
        JoinHolds(terms);
        HoldsMore(s.data[name], t.data[name], Shell.Join(terms), PartOf(terms));
      case Clear(_) =>
      case SetRaw(_, text) => RawHolds(text);
      case Update(extra) => LoadedHolds(extra);
      case Push =>
      case Pop =>
    }
  }

  lemma SetHolds(terms: seq<string>)
    requires HoldsPart(Shell.Join(terms), PartOf(terms))
    ensures Holds(Appended("", terms), [PartOf(terms)])
  {
    hide HoldsPart, PartOf;
    HoldsOne(Shell.Join(terms), PartOf(terms));
    assert Appended("", terms) == Shell.Join(terms);
  }

  lemma NothingHolds()
    ensures Holds("", [])
  {
  }

  lemma RawHolds(text: string)
    ensures Holds(text, [Template(text)])
  {
    hide Holds;
    HoldsOne(text, Template(text));
  }

  lemma LoadedHolds(data: map<string, string>)
    ensures HoldsAll(data, Loaded(data).data)
  {
    hide Holds;
    forall v | v in data
      ensures Holds(data[v], [Template(data[v])])
    {
      RawHolds(data[v]);
    }
  }

  /** Over any run of operations, the string environment is the environment of parts. */
  lemma {:induction false} RunRefines(s: State<string>, t: State<Held>, ops: seq<Op>)
    requires Refines(s, t)
    ensures Refines(Run(s, ops), RunParts(t, ops))
    decreases |ops|
  {
    hide Refines;
    if ops != [] {
      StepRefines(s, t, ops[0]);
      RunRefines(Step(s, ops[0]), StepParts(t, ops[0]), ops[1..]);
    }
  }

  /** That holds from whatever the environment has been loaded with. */
  lemma RunFromLoaded(data: map<string, string>, ops: seq<Op>)
    ensures Refines(Run(State(data, []), ops), RunParts(Loaded(data), ops))
  {
    LoadedHolds(data);
    RunRefines(State(data, []), Loaded(data), ops);
  }

  /** No empty term is ever among what has been set or appended as terms. */
  lemma {:induction false} RunNonEmpty(t: State<Held>, ops: seq<Op>)
    requires NoneEmpty(t)
    ensures NoneEmpty(RunParts(t, ops))
    decreases |ops|
  {
    if ops != [] {
      if ops[0].Set? || ops[0].Append? { NonEmptyHasNone(ops[0].terms); }
      RunNonEmpty(StepParts(t, ops[0]), ops[1..]);
    }
  }

  predicate NoneEmpty(t: State<Held>) {
    (forall v | v in t.data :: NoneEmptyIn(t.data[v])) &&
    forall i, v | 0 <= i < |t.stack| && v in t.stack[i] :: NoneEmptyIn(t.stack[i][v])
  }

  predicate NoneEmptyIn(h: Held) {
    forall part | part in h && part.Terms? :: "" !in part.terms
  }

  lemma {:induction false} NonEmptyHasNone(terms: seq<string>)
    ensures "" !in Shell.NonEmpty(terms)
  {
    if terms != [] {
      NonEmptyHasNone(terms[1..]);
    }
  }
}
