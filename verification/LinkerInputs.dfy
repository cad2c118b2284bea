/**
 Linker inputs: library search and the repeated expansion of linker scripts in the input list, which is
 the recursive left-to-right flattening of the list, and ends exactly when that does.
 */
module LinkerInputs {
  import LinkerScript
  import opened Options

  /** A value, or the message argument of Log.Fatal. */
  datatype Result<+T> = Good(value: T) | Fatal(what: string)

  /** The files by path, and which of them file-type sniffing calls native or bitcode. */
  datatype Disk = Disk(files: map<string, string>, native: set<string>, bitcode: set<string>)

  datatype LibraryType = Bitcode | Native | Any

  // ----- Classifying inputs

  predicate StartsWith(s: string, t: string) {
    t <= s
  }

  predicate IsLib(arg: string) {
    StartsWith(arg, "-l")
  }

  predicate IsFlag(arg: string) {
    StartsWith(arg, "-") && !IsLib(arg)
  }

  /** The part of a path after its last '/'. */
  function Base(path: string): string {
    if path == "" then ""
    else if path[|path| - 1] == '/' then ""
    else Base(path[..|path| - 1]) + [path[|path| - 1]]
  }

  predicate OnlyDots(s: string) {
    forall k | 0 <= k < |s| :: s[k] == '.'
  }

  /** splitext gives this extension: the base name has it, after something other than dots. */
  predicate HasExtension(path: string, ext: string) {
    LinkerScript.EndsWith(path, "." + ext) && !OnlyDots(Base(path[..|path| - |ext| - 1]))
  }

  predicate ScriptName(path: string) {
    exists ext :: ext in ["o", "so", "a", "po", "pa", "x"] && HasExtension(path, ext)
  }

  function Parse(text: string): Option<seq<string>> {
    match LinkerScript.ParseFrom(text, LinkerScript.START)
    case None => None
    case Some(st) => Some(st.ret)
  }

  /** What IsLinkerScript finds out: opening a file that is missing is fatal. */
  datatype InputKind = Plain | Script(flags: seq<string>) | Missing

  function Inspect(disk: Disk, path: string): InputKind {
    if !ScriptName(path) then Plain
    else if path !in disk.files then Missing
    else match Parse(disk.files[path])
      case None => Plain
      case Some(flags) => Script(flags)
  }

  /** What FindFirstLinkerScriptInput does with one input: flags are passed over. */
  function Classify(disk: Disk, input: string): InputKind {
    if IsFlag(input) then Plain else Inspect(disk, input)
  }

  // ----- Library search

  datatype Search = Search(disk: Disk, dirs: seq<string>, staticOnly: bool)

  /** posixpath.join of two parts. */
  function Join(dir: string, name: string): string {
    if StartsWith(name, "/") then name
    else if dir == "" || LinkerScript.EndsWith(dir, "/") then dir + name
    else dir + "/" + name
  }

  predicate Acceptable(disk: Disk, path: string, types: LibraryType) {
    path in disk.files &&
    (types == Any || Inspect(disk, path).Script? || (types == Native && path in disk.native) ||
     (types == Bitcode && path in disk.bitcode))
  }

  function FindIn(disk: Disk, names: seq<string>, dir: string, types: LibraryType): Option<string> {
    if names == [] then None
    else if Acceptable(disk, Join(dir, names[0]), types) then Some(Join(dir, names[0]))
    else FindIn(disk, names[1..], dir, types)
  }

  /** The first acceptable file: directories in order, and within each the names in order. */
  function FindPath(disk: Disk, names: seq<string>, dirs: seq<string>, types: LibraryType): Option<string> {
    if dirs == [] then None
    else match FindIn(disk, names, dirs[0], types)
      case Some(path) => Some(path)
      case None => FindPath(disk, names, dirs[1..], types)
  }

  method FindFile(disk: Disk, names: seq<string>, dirs: seq<string>, types: LibraryType) returns (r: Option<string>)
    ensures r == FindPath(disk, names, dirs, types)
  {
    for i := 0 to |dirs|
      invariant FindPath(disk, names, dirs, types) == FindPath(disk, names, dirs[i..], types)
    {
      for j := 0 to |names|
        invariant FindIn(disk, names, dirs[i], types) == FindIn(disk, names[j..], dirs[i], types)
      {
        var path := Join(dirs[i], names[j]);
        if path in disk.files {
          if types == Any {
            return Some(path);
          }
          if Inspect(disk, path).Script? {
            return Some(path);
          }
          if types == Native && path in disk.native {
            return Some(path);
          }
          if types == Bitcode && path in disk.bitcode {
            return Some(path);
          }
        }
      }
    }
    return None;
  }

  function LibNames(name: string, staticOnly: bool): seq<string> {
    if staticOnly then ["lib" + name + ".a"] else ["lib" + name + ".so", "lib" + name + ".a"]
  }

  /** The file for `-lname` or `-l:file`; the argument of Log.Fatal when there is none. */
  function FindLib(s: Search, arg: string, types: LibraryType): Result<string>
    requires IsLib(arg)
  {
    var name := arg[2..];
    if name == "" then Fatal("-l")
    else if name[0] == ':' then
      var file := name[1..];
      var names := [file] + if file == "libpnacl_irt_shim.a" then ["libpnacl_irt_shim_dummy.a"] else [];
      match FindPath(s.disk, names, s.dirs, types)
      case Some(path) => Good(path)
      case None =>
        if file == "pthread" then FindPrivate(s, names, types, name) else Fatal(name)
    else
      match FindPath(s.disk, LibNames(name, s.staticOnly), s.dirs, types)
      case Some(path) => Good(path)
      case None => if name == "pthread" then FindPrivate(s, LibNames(name, s.staticOnly), types, arg) else Fatal(arg)
  }

  function FindPrivate(s: Search, names: seq<string>, types: LibraryType, shown: string): Result<string> {
    match FindPath(s.disk, names + LibNames("pthread_private", s.staticOnly), s.dirs, types)
    case Some(path) => Good(path)
    case None => Fatal(shown)
  }

  /** The list with every `-l` argument replaced; fatal at the first that is not found. */
  function Located(s: Search, inputs: seq<string>, types: LibraryType): Result<seq<string>> {
    if inputs == [] then Good([])
    else if !IsLib(inputs[0]) then Prepend(inputs[0], Located(s, inputs[1..], types))
    else match FindLib(s, inputs[0], types)
      case Fatal(what) => Fatal(what)
      case Good(path) => Prepend(path, Located(s, inputs[1..], types))
  }

  function Prepend(x: string, r: Result<seq<string>>): Result<seq<string>> {
    match r
    case Good(xs) => Good([x] + xs)
    case Fatal(what) => Fatal(what)
  }

  function PrependAll(xs: seq<string>, r: Result<seq<string>>): Result<seq<string>> {
    match r
    case Good(ys) => Good(xs + ys)
    case Fatal(what) => Fatal(what)
  }

  lemma PrependAllStep(xs: seq<string>, x: string, r: Result<seq<string>>)
    ensures PrependAll(xs, Prepend(x, r)) == PrependAll(xs + [x], r) && PrependAll([], r) == r
  {
    if r.Good? { assert xs + ([x] + r.value) == xs + [x] + r.value && [] + r.value == r.value; }
  }

  /** Replaces the `-l` arguments of the list in place. */
  method ExpandLibFlags(s: Search, inputs: array<string>, types: LibraryType) returns (fatal: Option<string>)
    modifies inputs
    ensures fatal.None? ==> Located(s, old(inputs[..]), types) == Good(inputs[..])
    ensures fatal.Some? ==> Located(s, old(inputs[..]), types) == Fatal(fatal.value)
  {
    ghost var was := inputs[..];
    PrependAllStep([], "", Located(s, was, types));
    for i := 0 to inputs.Length
      invariant inputs[i..] == was[i..]
      invariant Located(s, was, types) == PrependAll(inputs[..i], Located(s, was[i..], types))
    {
      var f := inputs[i];
      assert f == was[i] && was[i..][1..] == was[i + 1..];
      if !IsFlag(f) && IsLib(f) {
        var found := FindLib(s, f, types);
        if found.Fatal? {
          return Some(found.what);
        }
        inputs[i] := found.value;
      }
      PrependAllStep(inputs[..i], inputs[i], Located(s, was[i + 1..], types));
      assert inputs[..i + 1] == inputs[..i] + [inputs[i]];
    }
    assert inputs[..] == inputs[..inputs.Length] && inputs[..] + [] == inputs[..];
    return None;
  }

  // ----- Expansion as the recursive flattening

  /** What a script contributes: its flags, with the libraries they name located. */
  function Included(s: Search, flags: seq<string>): Result<seq<string>> {
    Located(s, flags, Any)
  }

  datatype Flattened = Done(inputs: seq<string>) | Stopped(what: string) | TooDeep

  function Then(xs: seq<string>, r: Flattened): Flattened {
    if r.Done? then Done(xs + r.inputs) else r
  }

  /** Every script replaced by the flattening of what it contributes, nested at most `depth` deep. */
  function Flatten(s: Search, depth: nat, inputs: seq<string>): Flattened
    decreases depth, |inputs|
  {
    if inputs == [] then Done([])
    else
      match Classify(s.disk, inputs[0])
      case Plain => Then([inputs[0]], Flatten(s, depth, inputs[1..]))
      case Missing => Stopped(inputs[0])
      case Script(flags) =>
        match Included(s, flags)
        case Fatal(what) => Stopped(what)
        case Good(included) =>
          if depth == 0 then TooDeep
          else
            var first := Flatten(s, depth - 1, included);
            if first.Done? then Then(first.inputs, Flatten(s, depth, inputs[1..])) else first
  }

  // ----- Expansion as the loop over the list

  /** FindFirstLinkerScriptInput: the index of the first script, or of the first missing file before it. */
  function FindFirst(disk: Disk, inputs: seq<string>): (i: nat)
    ensures i <= |inputs| && forall k | 0 <= k < i :: Classify(disk, inputs[k]).Plain?
    ensures i < |inputs| ==> !Classify(disk, inputs[i]).Plain?
  {
    if inputs == [] then 0
    else if Classify(disk, inputs[0]).Plain? then 1 + FindFirst(disk, inputs[1..])
    else 0
  }

  datatype Progress = Finished | Aborted(what: string) | Continue(inputs: seq<string>)

  /** One round of the loop. */
  function Round(s: Search, inputs: seq<string>): Progress {
    var i := FindFirst(s.disk, inputs);
    if i == |inputs| then Finished
    else match Classify(s.disk, inputs[i])
      case Missing => Aborted(inputs[i])
      case Script(flags) =>
        match Included(s, flags)
        case Fatal(what) => Aborted(what)
        case Good(included) => Continue(inputs[..i] + included + inputs[i + 1..])
  }

  datatype Outcome = Ended(result: Result<seq<string>>) | Running(inputs: seq<string>)

  /** At most `rounds` rounds. */
  function Loop(s: Search, rounds: nat, inputs: seq<string>): Outcome {
    match Round(s, inputs)
    case Finished => Ended(Good(inputs))
    case Aborted(what) => Ended(Fatal(what))
    case Continue(next) => if rounds == 0 then Running(inputs) else Loop(s, rounds - 1, next)
  }

  method FindFirstLinkerScriptInput(disk: Disk, inputs: seq<string>) returns (i: nat)
    ensures i == FindFirst(disk, inputs)
  {
    for n := 0 to |inputs|
      invariant FindFirst(disk, inputs) == n + FindFirst(disk, inputs[n..])
    {
      assert inputs[n..][1..] == inputs[n + 1..];
      if !IsFlag(inputs[n]) && !Inspect(disk, inputs[n]).Plain? {
        return n;
      }
    }
    return |inputs|;
  }

  // ----- The loop is the flattening

  lemma {:induction false} FlattenConcat(s: Search, depth: nat, a: seq<string>, b: seq<string>)
    ensures Flatten(s, depth, a + b) ==
            var first := Flatten(s, depth, a);
            if first.Done? then Then(first.inputs, Flatten(s, depth, b)) else first
    decreases |a|
  {
    hide Classify, Located, Included, FindLib;
    if a == [] {
      assert a + b == b;
      ThenThen([], [], Flatten(s, depth, b));
    } else {
      assert (a + b)[0] == a[0] && (a + b)[1..] == a[1..] + b;
      FlattenConcat(s, depth, a[1..], b);
      var rest := Flatten(s, depth, a[1..]);
      if rest.Done? {
        match Classify(s.disk, a[0])
        case Plain => ThenThen([a[0]], rest.inputs, Flatten(s, depth, b));
        case Missing =>
        case Script(flags) =>
          if depth > 0 && Included(s, flags).Good? {
            var first := Flatten(s, depth - 1, Included(s, flags).value);
            if first.Done? { ThenThen(first.inputs, rest.inputs, Flatten(s, depth, b)); }
          }
      }
    }
  }

  lemma ThenThen(a: seq<string>, b: seq<string>, r: Flattened)
    ensures Then(a, Then(b, r)) == Then(a + b, r)
    ensures Then([], r) == r
  {
    if r.Done? {
      assert a + (b + r.inputs) == a + b + r.inputs && [] + r.inputs == r.inputs;
    }
  }

  /** Allowing more nesting changes nothing where less is enough. */
  lemma {:induction false} FlattenDeeper(s: Search, depth: nat, more: nat, inputs: seq<string>)
    requires depth <= more && Flatten(s, depth, inputs) != TooDeep
    ensures Flatten(s, more, inputs) == Flatten(s, depth, inputs)
    decreases depth, |inputs|
  {
    hide Classify, Located, Included, FindLib;
    if inputs != [] {
      match Classify(s.disk, inputs[0])
      case Plain => FlattenDeeper(s, depth, more, inputs[1..]);
      case Missing =>
      case Script(flags) =>
        if Included(s, flags).Good? {
          FlattenDeeper(s, depth - 1, more - 1, Included(s, flags).value);
          if Flatten(s, depth - 1, Included(s, flags).value).Done? { FlattenDeeper(s, depth, more, inputs[1..]); }
        }
    }
  }

  /** The number of scripts expanded on the way: the loop's measure. */
  function Expansions(s: Search, depth: nat, inputs: seq<string>): nat
    requires Flatten(s, depth, inputs) != TooDeep
    decreases depth, |inputs|
  {
    if inputs == [] then 0
    else
      match Classify(s.disk, inputs[0])
      case Plain => Expansions(s, depth, inputs[1..])
      case Missing => 0
      case Script(flags) =>
        match Included(s, flags)
        case Fatal(_) => 0
        case Good(included) =>
          1 + Expansions(s, depth - 1, included)
          + if Flatten(s, depth - 1, included).Done? then Expansions(s, depth, inputs[1..]) else 0
  }

  /** Before the first script, the list is its own flattening. */
  lemma PlainPrefix(s: Search, depth: nat, inputs: seq<string>)
    ensures var i := FindFirst(s.disk, inputs);
            && Flatten(s, depth, inputs) == Then(inputs[..i], Flatten(s, depth, inputs[i..]))
            && (Flatten(s, depth, inputs) != TooDeep ==>
                  Expansions(s, depth, inputs) == Expansions(s, depth, inputs[i..]))
  {
    hide Flatten, Expansions, Classify, FindFirst;
    var i := FindFirst(s.disk, inputs);
    assert inputs == inputs[..i] + inputs[i..];
    AllPlain(s, depth, inputs[..i]);
    FlattenConcat(s, depth, inputs[..i], inputs[i..]);
    if Flatten(s, depth, inputs) != TooDeep { ExpansionsConcat(s, depth, inputs[..i], inputs[i..]); }
  }

  /** A round keeps the flattening and takes one expansion off the measure. */
  lemma RoundKeepsFlattening(s: Search, depth: nat, inputs: seq<string>)
    requires Flatten(s, depth, inputs) != TooDeep
    ensures Round(s, inputs) == Finished ==> Flatten(s, depth, inputs) == Done(inputs)
    ensures Round(s, inputs).Aborted? ==> Flatten(s, depth, inputs) == Stopped(Round(s, inputs).what)
    ensures Round(s, inputs).Continue? ==>
              var next := Round(s, inputs).inputs;
              Flatten(s, depth, next) == Flatten(s, depth, inputs) &&
                  Expansions(s, depth, next) + 1 == Expansions(s, depth, inputs)
  {
    hide Classify, Located, Included;
    PlainPrefix(s, depth, inputs);
    var i := FindFirst(s.disk, inputs);
    var before, from := inputs[..i], inputs[i..];
    if i == |inputs| {
      assert before == inputs && from == [];
    } else if Round(s, inputs).Continue? {
      var included, rest := Included(s, Classify(s.disk, inputs[i]).flags).value, inputs[i + 1..];
      assert from[0] == inputs[i] && from[1..] == rest;
      assert Round(s, inputs).inputs == before + included + rest;
      ExpandFront(s, depth, from);
      AllPlain(s, depth, before);
      FlattenConcat(s, depth, before, included + rest);
      ExpansionsConcat(s, depth, before, included + rest);
      assert before + (included + rest) == before + included + rest;
    }
  }

  lemma {:induction false} AllPlain(s: Search, depth: nat, inputs: seq<string>)
    requires forall k | 0 <= k < |inputs| :: Classify(s.disk, inputs[k]).Plain?
    ensures Flatten(s, depth, inputs) == Done(inputs) && Expansions(s, depth, inputs) == 0
    decreases |inputs|
  {
    hide Classify, Located, Included, FindLib;
    if inputs != [] {
      AllPlain(s, depth, inputs[1..]);
    }
  }

  lemma {:induction false} ExpansionsConcat(s: Search, depth: nat, a: seq<string>, b: seq<string>)
    requires Flatten(s, depth, a + b) != TooDeep
    ensures Flatten(s, depth, a) != TooDeep
    ensures Flatten(s, depth, a).Done? ==> Flatten(s, depth, b) != TooDeep
    ensures Expansions(s, depth, a + b) ==
            Expansions(s, depth, a) + if Flatten(s, depth, a).Done? then Expansions(s, depth, b) else 0
    decreases |a|
  {
    hide Classify, Located, Included, FindLib;
    FlattenConcat(s, depth, a, b);
    if a == [] {
      assert a + b == b;
    } else {
      assert (a + b)[0] == a[0] && (a + b)[1..] == a[1..] + b;
      FlattenConcat(s, depth, a[1..], b);
      match Classify(s.disk, a[0])
      case Plain => ExpansionsConcat(s, depth, a[1..], b);
      case Missing =>
      case Script(flags) =>
        if Included(s, flags).Good? && Flatten(s, depth - 1, Included(s, flags).value).Done? {
          ExpansionsConcat(s, depth, a[1..], b);
        }
    }
  }

  lemma {:induction false} ExpansionsDeeper(s: Search, depth: nat, more: nat, inputs: seq<string>)
    requires depth <= more && Flatten(s, depth, inputs) != TooDeep && Flatten(s, more, inputs) != TooDeep
    ensures Expansions(s, more, inputs) == Expansions(s, depth, inputs)
    decreases depth, |inputs|
  {
    hide Classify, Located, Included, FindLib;
    if inputs != [] {
      match Classify(s.disk, inputs[0])
      case Plain => ExpansionsDeeper(s, depth, more, inputs[1..]);
      case Missing =>
      case Script(flags) =>
        if Included(s, flags).Good? {
          FlattenDeeper(s, depth - 1, more - 1, Included(s, flags).value);
          ExpansionsDeeper(s, depth - 1, more - 1, Included(s, flags).value);
          if Flatten(s, depth - 1, Included(s, flags).value).Done? { ExpansionsDeeper(s, depth, more, inputs[1..]); }
        }
    }
  }

  /** Replacing a leading script by what it contributes. */
  lemma ExpandFront(s: Search, depth: nat, inputs: seq<string>)
    requires inputs != [] && Classify(s.disk, inputs[0]).Script? && Included(s, Classify(s.disk, inputs[0]).flags).Good?
    requires Flatten(s, depth, inputs) != TooDeep
    ensures var next := Included(s, Classify(s.disk, inputs[0]).flags).value + inputs[1..];
            Flatten(s, depth, next) == Flatten(s, depth, inputs) &&
                Expansions(s, depth, next) + 1 == Expansions(s, depth, inputs)
  {
    hide Classify, Located, Included;
    var included := Included(s, Classify(s.disk, inputs[0]).flags).value;
    FlattenDeeper(s, depth - 1, depth, included);
    ExpansionsDeeper(s, depth - 1, depth, included);
    FlattenConcat(s, depth, included, inputs[1..]);
    ExpansionsConcat(s, depth, included, inputs[1..]);
  }

  /** The result the code returns for a flattening that ends. */
  function AsResult(f: Flattened): Result<seq<string>>
    requires f != TooDeep
  {
    if f.Done? then Good(f.inputs) else Fatal(f.what)
  }

  /** ExpandLinkerScripts; `depth` only bounds the nesting of scripts, which must be finite for it to end. */
  method ExpandLinkerScripts(s: Search, inputs: seq<string>, ghost depth: nat) returns (r: Result<seq<string>>)
    requires Flatten(s, depth, inputs) != TooDeep
    ensures r == AsResult(Flatten(s, depth, inputs))
  {
    hide Flatten, Expansions, Located, FindFirst;
    var now := inputs;
    while true
      invariant Flatten(s, depth, now) == Flatten(s, depth, inputs)
      decreases Expansions(s, depth, now)
    {
      RoundKeepsFlattening(s, depth, now);
      var i := FindFirstLinkerScriptInput(s.disk, now);
      if i == |now| {
        return Good(now);
      }
      var kind := Inspect(s.disk, now[i]);
      if kind.Missing? {
        return Fatal(now[i]);
      }
      var included := new string[|kind.flags|](k requires 0 <= k < |kind.flags| => kind.flags[k]);
      assert included[..] == kind.flags;
      var fatal := ExpandLibFlags(s, included, Any);
      if fatal.Some? {
        return Fatal(fatal.value);
      }
      now := now[..i] + included[..] + now[i + 1..];
    }
  }

  /** Where the flattening ends, the loop ends with it, after exactly as many rounds as there are expansions. */
  lemma {:induction false} LoopEnds(s: Search, depth: nat, inputs: seq<string>)
    requires Flatten(s, depth, inputs) != TooDeep
    ensures Loop(s, Expansions(s, depth, inputs), inputs) == Ended(AsResult(Flatten(s, depth, inputs)))
    decreases Expansions(s, depth, inputs)
  {
    hide Flatten, Expansions, Round;
    RoundKeepsFlattening(s, depth, inputs);
    match Round(s, inputs)
    case Finished => EndsAtOnce(s, Expansions(s, depth, inputs), inputs);
    case Aborted(_) => EndsAtOnce(s, Expansions(s, depth, inputs), inputs);
    case Continue(next) => LoopEnds(s, depth, next);
  }

  lemma EndsAtOnce(s: Search, rounds: nat, inputs: seq<string>)
    ensures Round(s, inputs) == Finished ==> Loop(s, rounds, inputs) == Ended(Good(inputs))
    ensures Round(s, inputs).Aborted? ==> Loop(s, rounds, inputs) == Ended(Fatal(Round(s, inputs).what))
  {
    hide Round;
  }

  lemma PartsFlatten(s: Search, depth: nat, a: seq<string>, b: seq<string>)
    requires Flatten(s, depth, a + b) != TooDeep
    ensures Flatten(s, depth, a) != TooDeep
    ensures Flatten(s, depth, a).Done? ==> Flatten(s, depth + 1, b) != TooDeep
  {
    hide Flatten;
    FlattenConcat(s, depth, a, b);
    if Flatten(s, depth, a).Done? { FlattenDeeper(s, depth, depth + 1, b); }
  }

  /** Where the loop ends, so does the flattening, nested no deeper than there were rounds. */
  lemma {:induction false} EndedFlattens(s: Search, rounds: nat, inputs: seq<string>)
    requires Loop(s, rounds, inputs).Ended?
    ensures Flatten(s, rounds, inputs) != TooDeep
    decreases rounds
  {
    hide Located, Included, Classify, FindFirst;
    PlainPrefix(s, rounds, inputs);
    var i := FindFirst(s.disk, inputs);
    var before, from := inputs[..i], inputs[i..];
    if i < |inputs| && Round(s, inputs).Continue? {
      var included, rest := Included(s, Classify(s.disk, inputs[i]).flags).value, inputs[i + 1..];
      assert from[0] == inputs[i] && from[1..] == rest;
      EndedFlattens(s, rounds - 1, before + included + rest);
      assert before + included + rest == before + (included + rest);
      AllPlain(s, rounds - 1, before);
      FlattenConcat(s, rounds - 1, before, included + rest);
      PartsFlatten(s, rounds - 1, included, rest);
    }
  }

  /** The loop ends exactly when the recursive flattening does. */
  lemma TerminatesIff(s: Search, inputs: seq<string>)
    ensures (exists rounds: nat :: Loop(s, rounds, inputs).Ended?) <==>
            exists depth: nat :: Flatten(s, depth, inputs) != TooDeep
  {
    if rounds: nat :| Loop(s, rounds, inputs).Ended? {
      EndedFlattens(s, rounds, inputs);
    }
    if depth: nat :| Flatten(s, depth, inputs) != TooDeep {
      LoopEnds(s, depth, inputs);
    }
  }

  /** If every script includes only scripts of lower rank, flattening ends within the largest rank. */
  lemma {:induction false} RankedFlattens(s: Search, rank: string -> nat, depth: nat, inputs: seq<string>)
    requires forall f | Classify(s.disk, f).Script? && Included(s, Classify(s.disk, f).flags).Good? ::
               forall g | g in Included(s, Classify(s.disk, f).flags).value && Classify(s.disk, g).Script? ::
                   rank(g) < rank(f)
    requires forall f | f in inputs && Classify(s.disk, f).Script? :: rank(f) < depth
    ensures Flatten(s, depth, inputs) != TooDeep
    decreases depth, |inputs|
  {
    hide Classify, Located, Included, FindLib;
    if inputs != [] {
      assert inputs[0] in inputs;
      RankedFlattens(s, rank, depth, inputs[1..]);
      if Classify(s.disk, inputs[0]).Script? && Included(s, Classify(s.disk, inputs[0]).flags).Good? {
        RankedFlattens(s, rank, depth - 1, Included(s, Classify(s.disk, inputs[0]).flags).value);
      }
    }
  }

  // ----- What is left after ExpandInputs

  method ExpandInputs(s: Search, inputs: array<string>, types: LibraryType, ghost depth: nat)
    returns (r: Result<seq<string>>)
    requires var located := Located(s, inputs[..], types); located.Good? ==> Flatten(s, depth, located.value) != TooDeep
    modifies inputs
    ensures r == Expanded(s, old(inputs[..]), types, depth)
  {
    var fatal := ExpandLibFlags(s, inputs, types);
    if fatal.Some? {
      return Fatal(fatal.value);
    }
    r := ExpandLinkerScripts(s, inputs[..], depth);
  }

  function Expanded(s: Search, inputs: seq<string>, types: LibraryType, depth: nat): Result<seq<string>>
    requires var located := Located(s, inputs, types); located.Good? ==> Flatten(s, depth, located.value) != TooDeep
  {
    match Located(s, inputs, types)
    case Fatal(what) => Fatal(what)
    case Good(located) => AsResult(Flatten(s, depth, located))
  }

  /** No search directory lets a found path look like a `-l` argument. */
  predicate OrdinaryDirs(dirs: seq<string>) {
    forall d | d in dirs :: d != "" && !IsLib(d)
  }

  lemma {:induction false} FoundIn(disk: Disk, names: seq<string>, dir: string, types: LibraryType)
    requires dir != "" && !IsLib(dir) && FindIn(disk, names, dir, types).Some?
    ensures !IsLib(FindIn(disk, names, dir, types).value)
  {
    if Acceptable(disk, Join(dir, names[0]), types) {
      JoinOrdinary(dir, names[0]);
    } else {
      FoundIn(disk, names[1..], dir, types);
    }
  }

  lemma JoinOrdinary(dir: string, name: string)
    requires dir != "" && !IsLib(dir)
    ensures !IsLib(Join(dir, name))
  {
    var path := Join(dir, name);
    assert path[0] == if StartsWith(name, "/") then '/' else dir[0];
    if |dir| == 1 && !StartsWith(name, "/") {
      assert LinkerScript.EndsWith(dir, "/") <==> dir == "/";
      assert dir == "/" || path[1] == '/';
    } else if !StartsWith(name, "/") {
      assert path[1] == dir[1];
      assert dir[..2] != "-l";
    }
  }

  lemma {:induction false} FoundPath(disk: Disk, names: seq<string>, dirs: seq<string>, types: LibraryType)
    requires OrdinaryDirs(dirs) && FindPath(disk, names, dirs, types).Some?
    ensures !IsLib(FindPath(disk, names, dirs, types).value)
  {
    assert dirs[0] in dirs;
    if FindIn(disk, names, dirs[0], types).Some? {
      FoundIn(disk, names, dirs[0], types);
    } else {
      FoundPath(disk, names, dirs[1..], types);
    }
  }

  lemma FoundLib(s: Search, arg: string, types: LibraryType)
    requires IsLib(arg) && OrdinaryDirs(s.dirs) && FindLib(s, arg, types).Good?
    ensures !IsLib(FindLib(s, arg, types).value)
  {
    hide FindPath;
    forall names | FindPath(s.disk, names, s.dirs, types).Some?
      ensures !IsLib(FindPath(s.disk, names, s.dirs, types).value)
    {
      FoundPath(s.disk, names, s.dirs, types);
    }
  }

  lemma {:induction false} LocatedHasNoLibs(s: Search, inputs: seq<string>, types: LibraryType)
    requires OrdinaryDirs(s.dirs) && Located(s, inputs, types).Good?
    ensures NoLibs(Located(s, inputs, types).value)
  {
    hide FindLib;
    if inputs != [] {
      LocatedHasNoLibs(s, inputs[1..], types);
      if IsLib(inputs[0]) { FoundLib(s, inputs[0], types); }
    }
  }

  predicate NoLibs(inputs: seq<string>) {
    forall x | x in inputs :: !IsLib(x)
  }

  predicate NoScripts(disk: Disk, inputs: seq<string>) {
    forall x | x in inputs :: Classify(disk, x).Plain?
  }

  /** Only what is no script is left, and under ordinary search directories no `-l` argument comes in. */
  lemma {:induction false} FlattenLeaves(s: Search, depth: nat, inputs: seq<string>)
    requires Flatten(s, depth, inputs).Done?
    ensures NoScripts(s.disk, Flatten(s, depth, inputs).inputs)
    ensures OrdinaryDirs(s.dirs) && NoLibs(inputs) ==> NoLibs(Flatten(s, depth, inputs).inputs)
    decreases depth, |inputs|
  {
    hide Classify, IsLib, OrdinaryDirs;
    if inputs != [] {
      FlattenLeaves(s, depth, inputs[1..]);
      if Classify(s.disk, inputs[0]).Script? {
        var flags := Classify(s.disk, inputs[0]).flags;
        FlattenLeaves(s, depth - 1, Included(s, flags).value);
        if OrdinaryDirs(s.dirs) { LocatedHasNoLibs(s, flags, Any); }
      }
    }
  }

  /** After ExpandInputs no linker script is left, and under ordinary search directories no `-l` argument. */
  lemma ExpandedLeaves(s: Search, inputs: seq<string>, types: LibraryType, depth: nat)
    requires var located := Located(s, inputs, types); located.Good? ==> Flatten(s, depth, located.value) != TooDeep
    requires Expanded(s, inputs, types, depth).Good?
    ensures forall x | x in Expanded(s, inputs, types, depth).value :: IsFlag(x) || Inspect(s.disk, x).Plain?
    ensures OrdinaryDirs(s.dirs) ==> NoLibs(Expanded(s, inputs, types, depth).value)
  {
    hide Flatten, Located, OrdinaryDirs;
    FlattenLeaves(s, depth, Located(s, inputs, types).value);
    if OrdinaryDirs(s.dirs) { LocatedHasNoLibs(s, inputs, types); }
  }

  /** Whatever the files and the inputs, expanding everything leaves no `-l` argument. */
  ghost predicate LibsAlwaysGone(dirs: seq<string>, staticOnly: bool) {
    forall disk, inputs, types, depth: nat :: LibsGone(Search(disk, dirs, staticOnly), inputs, types, depth)
  }

  predicate LibsGone(s: Search, inputs: seq<string>, types: LibraryType, depth: nat) {
    var located := Located(s, inputs, types);
    located.Good? && Flatten(s, depth, located.value).Done? ==> NoLibs(Flatten(s, depth, located.value).inputs)
  }

  /**
   * That holds exactly for ordinary search directories: in `` or `-lx` some file looks like a `-l` argument when found.
   */
  lemma LibsGoneIff(dirs: seq<string>, staticOnly: bool)
    ensures LibsAlwaysGone(dirs, staticOnly) <==> OrdinaryDirs(dirs)
  {
    hide Located, Flatten, NoLibs;
    if OrdinaryDirs(dirs) {
      forall disk, inputs, types, depth: nat
        ensures LibsGone(Search(disk, dirs, staticOnly), inputs, types, depth)
      {
        var s := Search(disk, dirs, staticOnly);
        var located := Located(s, inputs, types);
        if located.Good? && Flatten(s, depth, located.value).Done? {
          LocatedHasNoLibs(s, inputs, types);
          FlattenLeaves(s, depth, located.value);
        }
      }
    } else {
      var d :| d in dirs && (d == "" || IsLib(d));
      LibStays(d, dirs, staticOnly);
    }
  }

  lemma LibStays(d: string, dirs: seq<string>, staticOnly: bool)
    requires d in dirs && (d == "" || IsLib(d))
    ensures !LibsAlwaysGone(dirs, staticOnly)
  {
    hide Flatten, FindPath;
    var name := if d == "" then "-lx" else "x";
    var path, arg := Join(d, name), "-l:" + name;
    var s := Search(Disk(map[path := ""], {}, {}), dirs, staticOnly);
    OddPath(d, name);
    FindsOnly(s.disk, name, d, dirs, path);
    assert arg[2..] == ":" + name && (":" + name)[1..] == name && name != "libpnacl_irt_shim.a";
    assert [name] + [] == [name];
    assert FindLib(s, arg, Any) == Good(path);
    OneLocated(s, arg, path);
    PlainFlattens(s, path);
    assert path in [path];
    assert !LibsGone(s, [arg], Any, 0);
  }

  lemma OneLocated(s: Search, arg: string, path: string)
    requires IsLib(arg) && FindLib(s, arg, Any) == Good(path)
    ensures Located(s, [arg], Any) == Good([path])
  {
    hide FindLib;
    var args: seq<string> := [arg];
    assert args[1..] == [] && [path] + [] == [path];
    assert Located(s, [], Any) == Good([]);
  }

  /** The path is taken for a `-l` argument, and not for a linker script. */
  lemma OddPath(d: string, name: string)
    requires d == "" || IsLib(d)
    requires name == if d == "" then "-lx" else "x"
    ensures var path := Join(d, name); IsLib(path) && !ScriptName(path)
  {
    var path := Join(d, name);
    assert path[|path| - 1] == 'x';
    assert path[|path| - 2] != '.';
    forall ext | ext in ["o", "so", "a", "po", "pa", "x"]
      ensures !LinkerScript.EndsWith(path, "." + ext)
    {
    }
  }

  /** With just one file, and that in one of the directories, it is what the search finds. */
  lemma {:induction false} FindsOnly(disk: Disk, name: string, d: string, dirs: seq<string>, path: string)
    requires disk.files.Keys == {path} && path == Join(d, name) && d in dirs
    ensures FindPath(disk, [name], dirs, Any) == Some(path)
  {
    var names: seq<string> := [name];
    assert names[1..] == [];
    assert FindIn(disk, [name], dirs[0], Any) == if Join(dirs[0], name) == path then Some(path) else None;
    if Join(dirs[0], name) != path {
      FindsOnly(disk, name, d, dirs[1..], path);
    }
  }

  lemma PlainFlattens(s: Search, path: string)
    requires !ScriptName(path)
    ensures Flatten(s, 0, [path]) == Done([path])
  {
    var paths: seq<string> := [path];
    assert paths[1..] == [] && [path] + [] == [path];
    assert Classify(s.disk, path).Plain?;
    hide Classify;
    assert Flatten(s, 0, []) == Done([]);
  }
}
