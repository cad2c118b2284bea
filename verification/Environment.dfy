/** The driver's environment: variables hold shell-escaped text, which is evaluated and split again when read. */
module DriverEnvironment {
  import opened Evaluator
  import opened Options
  import Shell
  import opened Text

  /** The variables and the stack of saved copies. */
  datatype State<V> = State(data: map<string, V>, stack: seq<map<string, V>>)

  datatype Op =
    | Set(name: string, terms: seq<string>)
    | Append(name: string, terms: seq<string>)
    | Clear(name: string)
    | SetRaw(name: string, text: string)
    | Update(extra: map<string, string>)
    | Push
    | Pop

  /** Append on an unset variable is a KeyError, pop on an empty stack an IndexError; neither changes anything. */
  predicate Raises<V>(s: State<V>, op: Op) {
    (op.Append? && op.name !in s.data) || (op.Pop? && s.stack == [])
  }

  // ----- As the code stores it

  /** Text behind other text, with a separating space unless there is none. */
  function Joined(text: string, more: string): string {
    (if |text| > 0 then text + " " else text) + more
  }

  /** `append` to `text`: the escaped terms joined by spaces, behind it. */
  function Appended(text: string, terms: seq<string>): string {
    Joined(text, Shell.Join(terms))
  }

  function Step(s: State<string>, op: Op): State<string> {
    if Raises(s, op) then s
    else match op
      case Set(name, terms) => s.(data := s.data[name := Appended("", terms)])
      case Append(name, terms) => s.(data := s.data[name := Appended(s.data[name], terms)])
      case Clear(name) => s.(data := s.data[name := ""])
      case SetRaw(name, text) => s.(data := s.data[name := text])
      case Update(extra) => s.(data := s.data + extra)
      case Push => s.(stack := s.stack + [s.data])
      case Pop => State(s.stack[|s.stack| - 1], s.stack[..|s.stack| - 1])
  }

  function Run(s: State<string>, ops: seq<Op>): State<string>
    decreases |ops|
  {
    if ops == [] then s else Run(Step(s, ops[0]), ops[1..])
  }

  // ----- The object

  class Environment {
    var data: map<string, string>
    var stack: seq<map<string, string>>
    const functions: map<string, seq<string> -> Option<string>>

    function Now(): State<string>
      reads this
    {
      State(data, stack)
    }

    constructor (initial: map<string, string>, functions: map<string, seq<string> -> Option<string>>)
      ensures Now() == State(initial, []) && this.functions == functions
    {
      data, stack := initial, [];
      this.functions := functions;
    }

    method Push()
      modifies this
      ensures Now() == Step(old(Now()), Op.Push)
    {
      stack := stack + [data];
    }

    method Pop() returns (ok: bool)
      modifies this
      ensures ok == !Raises(old(Now()), Op.Pop) && Now() == Step(old(Now()), Op.Pop)
    {
      ok := stack != [];
      if ok {
        data, stack := stack[|stack| - 1], stack[..|stack| - 1];
      }
    }

    method Clear(name: string)
      modifies this`data
      ensures Now() == Step(old(Now()), Op.Clear(name))
    {
      data := data[name := ""];
    }

    method SetRaw(name: string, text: string)
      modifies this`data
      ensures Now() == Step(old(Now()), Op.SetRaw(name, text))
    {
      data := data[name := text];
    }

    method Update(extra: map<string, string>)
      modifies this`data
      ensures Now() == Step(old(Now()), Op.Update(extra))
    {
      data := data + extra;
    }

    method Append(name: string, terms: seq<string>) returns (ok: bool)
      modifies this`data
      ensures ok == !Raises(old(Now()), Op.Append(name, terms)) && Now() == Step(old(Now()), Op.Append(name, terms))
    {
      if name !in data {
        return false;
      }
      var escaped: seq<string> := [];
      for i := 0 to |terms|
        invariant escaped == seq(i, k requires 0 <= k < i => Shell.Escape(terms[k]))
      {
        escaped := escaped + [Shell.Escape(terms[i])];
      }
      if |data[name]| > 0 {
        data := data[name := data[name] + " "];
      }
      data := data[name := data[name] + JoinWith(escaped, " ")];
      assert data[name] == Appended(old(data)[name], terms);
      return true;
    }

    method Set(name: string, terms: seq<string>)
      modifies this`data
      ensures Now() == Step(old(Now()), Op.Set(name, terms))
    {
      Clear(name);
      var ok := Append(name, terms);
    }

    /** `get`: the variable's text, evaluated with at most `depth` nested evaluations, split into terms. */
    method Get(name: string, depth: nat) returns (r: Outcome<Shell.Result<seq<string>>>)
      ensures name !in data ==> r == Fail(KeyError)
      ensures name in data ==> r == GetText(World(data, functions), depth, data[name])
    {
      if name !in data {
        return Fail(KeyError);
      }
      var raw :- Eval(World(data, functions), depth, data[name]);
      var words := Shell.Split(raw);
      return Val(words);
    }
  }

  function GetText(w: World, depth: nat, text: string): Outcome<Shell.Result<seq<string>>> {
    var raw :- Eval(w, depth, text);
    Val(Shell.Words(raw, Shell.Gap))
  }
}
