/** Which files `-l` arguments become, with names and directories written out, and which files are linker scripts. */
module LinkerInputsLaws {
  import opened LinkerInputs
  import LinkerScript
  import opened Options

  // ----- One argument at a time

  /** A list is located exactly if each of its arguments is; otherwise the first that is not is fatal. */
  lemma {:induction false} LocatedEach(s: Search, inputs: seq<string>, types: LibraryType)
    ensures Located(s, inputs, types).Good? ==>
              var out := Located(s, inputs, types).value;
              |out| == |inputs| && forall k | 0 <= k < |inputs| :: Located(s, [inputs[k]], types) == Good([out[k]])
    ensures Located(s, inputs, types).Fatal? ==>
              exists k | 0 <= k < |inputs| ::
                Located(s, [inputs[k]], types) == Located(s, inputs, types) &&
                forall j | 0 <= j < k :: Located(s, [inputs[j]], types).Good?
  {
    hide FindLib;
    if inputs != [] {
      var rest := inputs[1..];
      OneLocated(s, inputs[0], types);
      LocatedEach(s, rest, types);
      assert forall k | 0 <= k < |rest| :: rest[k] == inputs[k + 1];
      if Located(s, inputs, types).Fatal? {
        if Located(s, [inputs[0]], types).Good? {
          var k :| 0 <= k < |rest| && Located(s, [rest[k]], types) == Located(s, rest, types) &&
              forall j | 0 <= j < k :: Located(s, [rest[j]], types).Good?;
          assert Located(s, [inputs[k + 1]], types) == Located(s, inputs, types);
          assert forall j | 0 <= j < k + 1 :: j == 0 || inputs[j] == rest[j - 1];
        }
      }
    }
  }

  lemma OneLocated(s: Search, arg: string, types: LibraryType)
    ensures Located(s, [arg], types) ==
            if !IsLib(arg) then Good([arg])
            else if FindLib(s, arg, types).Good? then Good([FindLib(s, arg, types).value])
            else Fatal(FindLib(s, arg, types).what)
  {
    hide FindLib;
    var args: seq<string> := [arg];
    assert args[0] == arg && args[1..] == [] && Located(s, args[1..], types) == Good([]);
    assert [arg] + [] == [arg];
    if IsLib(arg) && FindLib(s, arg, types).Good? {
      var path := FindLib(s, arg, types).value;
      assert [path] + [] == [path];
    }
  }

  // ----- Searching

  /** A file in a directory: absolute names stay as they are, and no slash is doubled. */
  function Under(dir: string, name: string): string {
    if name != "" && name[0] == '/' then name
    else if dir == "" || dir[|dir| - 1] == '/' then dir + name
    else dir + "/" + name
  }

  lemma JoinUnder(dir: string, name: string)
    ensures Join(dir, name) == Under(dir, name)
  {
    assert StartsWith(name, "/") <==> name != "" && name[0] == '/';
  }

  /** A file that is there, and is of the kind asked for or a linker script. */
  predicate FitFor(disk: Disk, path: string, types: LibraryType) {
    path in disk.files && match types
      case Any => true
      case Native => path in disk.native || Inspect(disk, path).Script?
      case Bitcode => path in disk.bitcode || Inspect(disk, path).Script?
  }

  lemma AcceptableFits(disk: Disk, path: string, types: LibraryType)
    ensures Acceptable(disk, path, types) <==> FitFor(disk, path, types)
  {
    hide Inspect;
  }

  predicate Usable(s: Search, d: nat, name: string, types: LibraryType)
    requires d < |s.dirs|
  {
    FitFor(s.disk, Under(s.dirs[d], name), types)
  }

  /** Directory `d` is the first to hold a usable file of these names, and `n` is the first such name there. */
  predicate FirstAt(s: Search, names: seq<string>, types: LibraryType, d: nat, n: nat) {
    && d < |s.dirs| && n < |names| && Usable(s, d, names[n], types)
    && (forall j | 0 <= j < n :: !Usable(s, d, names[j], types))
    && (forall i, j | 0 <= i < d && 0 <= j < |names| :: !Usable(s, i, names[j], types))
  }

  predicate NoneAnywhere(s: Search, names: seq<string>, types: LibraryType) {
    forall i, j | 0 <= i < |s.dirs| && 0 <= j < |names| :: !Usable(s, i, names[j], types)
  }

  lemma {:induction false} FoundInDir(disk: Disk, names: seq<string>, dir: string, types: LibraryType) returns (n: nat)
    ensures n <= |names| && forall j | 0 <= j < n :: !FitFor(disk, Under(dir, names[j]), types)
    ensures n < |names| ==> FitFor(disk, Under(dir, names[n]), types)
    ensures FindIn(disk, names, dir, types) == if n < |names| then Some(Under(dir, names[n])) else None
  {
    hide FitFor, Under, Join;
    if names == [] {
      n := 0;
    } else {
      JoinUnder(dir, names[0]);
      AcceptableFits(disk, Under(dir, names[0]), types);
      if FitFor(disk, Under(dir, names[0]), types) {
        n := 0;
      } else {
        var m := FoundInDir(disk, names[1..], dir, types);
        n := m + 1;
        assert forall j | 1 <= j < n :: names[j] == names[1..][j - 1];
      }
    }
  }

  lemma {:induction false} FoundFirst(s: Search, names: seq<string>, types: LibraryType) returns (d: nat, n: nat)
    ensures FindPath(s.disk, names, s.dirs, types).None? ==> NoneAnywhere(s, names, types)
    ensures FindPath(s.disk, names, s.dirs, types).Some? ==>
              && FirstAt(s, names, types, d, n)
              && FindPath(s.disk, names, s.dirs, types) == Some(Under(s.dirs[d], names[n]))
    decreases |s.dirs|
  {
    hide FindIn, Under, FitFor;
    d, n := 0, 0;
    if s.dirs != [] {
      n := FoundInDir(s.disk, names, s.dirs[0], types);
      if n == |names| {
        var rest := s.(dirs := s.dirs[1..]);
        var d', n' := FoundFirst(rest, names, types);
        assert forall i | 0 <= i < |rest.dirs| :: rest.dirs[i] == s.dirs[i + 1];
        d, n := d' + 1, n';
        if FindPath(s.disk, names, s.dirs, types).Some? {
          forall i, j | 0 <= i < d && 0 <= j < |names|
            ensures !Usable(s, i, names[j], types)
          {
            if i > 0 { assert !Usable(rest, i - 1, names[j], types); }
          }
          assert forall j | 0 <= j < n :: !Usable(rest, d', names[j], types);
        } else {
          forall i, j | 0 <= i < |s.dirs| && 0 <= j < |names|
            ensures !Usable(s, i, names[j], types)
          {
            if i > 0 { assert !Usable(rest, i - 1, names[j], types); }
          }
        }
      }
    }
  }

  /** A search for these names ends with the first usable file, or is fatal with this message. */
  ghost predicate FoundOrFatal(s: Search, names: seq<string>, types: LibraryType, r: Result<seq<string>>,
                               shown: string)
  {
    || (exists d: nat, n: nat :: FirstAt(s, names, types, d, n) && r == Good([Under(s.dirs[d], names[n])]))
    || (NoneAnywhere(s, names, types) && r == Fatal(shown))
  }

  lemma SearchFinds(s: Search, names: seq<string>, types: LibraryType, shown: string)
    ensures FindPath(s.disk, names, s.dirs, types).Some? <==> !NoneAnywhere(s, names, types)
    ensures var found := FindPath(s.disk, names, s.dirs, types);
            FoundOrFatal(s, names, types, if found.Some? then Good([found.value]) else Fatal(shown), shown)
  {
    hide Usable;
    var d, n := FoundFirst(s, names, types);
  }

  // ----- The arguments

  lemma NoName(s: Search, types: LibraryType)
    ensures Located(s, ["-l"], types) == Fatal("-l")
  {
    OneLocated(s, "-l", types);
  }

  lemma OtherArgument(s: Search, arg: string, types: LibraryType)
    requires |arg| < 2 || arg[0] != '-' || arg[1] != 'l'
    ensures Located(s, [arg], types) == Good([arg])
  {
    OneLocated(s, arg, types);
    assert |arg| >= 2 ==> arg[..2] == [arg[0], arg[1]];
  }

  lemma IsArgument(rest: string)
    ensures IsLib("-l" + rest) && ("-l" + rest)[2..] == rest
  {
  }

  /** `-lname` is the shared library if it may be, and else the static one, from the first directory with either. */
  lemma PlainLibrary(s: Search, name: string, types: LibraryType)
    requires name != "" && name[0] != ':' && name != "pthread"
    ensures var names := if s.staticOnly then ["lib" + name + ".a"] else ["lib" + name + ".so", "lib" + name + ".a"];
            FoundOrFatal(s, names, types, Located(s, ["-l" + name], types), "-l" + name)
  {
    hide FindPath, FoundOrFatal, Located;
    IsArgument(name);
    OneLocated(s, "-l" + name, types);
    SearchFinds(s, LibNames(name, s.staticOnly), types, "-l" + name);
  }

  /** The same, directory by directory. */
  lemma SharedBeforeStatic(s: Search, name: string, types: LibraryType)
    requires name != "" && name[0] != ':' && name != "pthread" && !s.staticOnly
    ensures var r, shared, plain := Located(s, ["-l" + name], types), "lib" + name + ".so", "lib" + name + ".a";
            || (exists d: nat | d < |s.dirs| ::
                  && r == Good([Under(s.dirs[d], if Usable(s, d, shared, types) then shared else plain)])
                  && (Usable(s, d, shared, types) || Usable(s, d, plain, types))
                  && forall i: nat | i < d :: !Usable(s, i, shared, types) && !Usable(s, i, plain, types))
            || (r == Fatal("-l" + name) &&
                forall i: nat | i < |s.dirs| :: !Usable(s, i, shared, types) && !Usable(s, i, plain, types))
  {
    hide Usable, Located, Under;
    PlainLibrary(s, name, types);
    var r, shared, plain := Located(s, ["-l" + name], types), "lib" + name + ".so", "lib" + name + ".a";
    var names := [shared, plain];
    assert names[0] == shared && names[1] == plain;
    if NoneAnywhere(s, names, types) && r.Fatal? {
      forall i: nat | i < |s.dirs|
        ensures !Usable(s, i, shared, types) && !Usable(s, i, plain, types)
      {
        assert !Usable(s, i, names[0], types) && !Usable(s, i, names[1], types);
      }
    } else {
      var d: nat, n: nat :| FirstAt(s, names, types, d, n) && r == Good([Under(s.dirs[d], names[n])]);
      forall i: nat | i < d
        ensures !Usable(s, i, shared, types) && !Usable(s, i, plain, types)
      {
        assert !Usable(s, i, names[0], types) && !Usable(s, i, names[1], types);
      }
      assert n == 1 ==> !Usable(s, d, names[0], types);
    }
  }

  /** `-l:file` is just that file. */
  lemma ExactFile(s: Search, file: string, types: LibraryType)
    requires file != "libpnacl_irt_shim.a" && file != "pthread"
    ensures FoundOrFatal(s, [file], types, Located(s, ["-l:" + file], types), ":" + file)
  {
    hide FindPath, FoundOrFatal, Located;
    IsArgument(":" + file);
    assert "-l" + (":" + file) == "-l:" + file && (":" + file)[1..] == file && [file] + [] == [file];
    OneLocated(s, "-l:" + file, types);
    SearchFinds(s, [file], types, ":" + file);
  }

  /** The shim can be replaced by the dummy shim. */
  lemma ShimFile(s: Search, types: LibraryType)
    ensures FoundOrFatal(s, ["libpnacl_irt_shim.a", "libpnacl_irt_shim_dummy.a"], types,
                         Located(s, ["-l:libpnacl_irt_shim.a"], types), ":libpnacl_irt_shim.a")
  {
    hide FoundOrFatal, Located;
    var file := "libpnacl_irt_shim.a";
    assert "-l" + (":" + file) == "-l:libpnacl_irt_shim.a" && ":" + file == ":libpnacl_irt_shim.a";
    ShimSearched(s, file, types);
  }

  lemma ShimSearched(s: Search, file: string, types: LibraryType)
    requires file == "libpnacl_irt_shim.a"
    ensures FoundOrFatal(s, [file, "libpnacl_irt_shim_dummy.a"], types, Located(s, ["-l" + (":" + file)], types),
                         ":" + file)
  {
    hide FindPath, FoundOrFatal, Located;
    IsArgument(":" + file);
    assert (":" + file)[1..] == file && file != "pthread" by { assert file[0] == 'l'; }
    OneLocated(s, "-l" + (":" + file), types);
    assert [file] + ["libpnacl_irt_shim_dummy.a"] == [file, "libpnacl_irt_shim_dummy.a"];
    SearchFinds(s, [file, "libpnacl_irt_shim_dummy.a"], types, ":" + file);
  }

  /** `-lpthread` falls back to the private library. */
  lemma ThreadLibrary(s: Search, types: LibraryType)
    ensures var own := if s.staticOnly then ["libpthread.a"] else ["libpthread.so", "libpthread.a"];
            var all := if s.staticOnly then ["libpthread.a", "libpthread_private.a"]
                       else ["libpthread.so", "libpthread.a", "libpthread_private.so", "libpthread_private.a"];
            FoundOrFatal(s, if NoneAnywhere(s, own, types) then all else own, types,
                         Located(s, ["-lpthread"], types), "-lpthread")
  {
    hide FindPath, FoundOrFatal, Located, NoneAnywhere;
    var name := "pthread";
    IsArgument(name);
    assert "-l" + name == "-lpthread";
    OneLocated(s, "-l" + name, types);
    ThreadNames(s.staticOnly);
    var own := LibNames(name, s.staticOnly);
    SearchFinds(s, own, types, "-lpthread");
    SearchFinds(s, own + LibNames("pthread_private", s.staticOnly), types, "-lpthread");
  }

  lemma ThreadNames(staticOnly: bool)
    ensures var own, more := LibNames("pthread", staticOnly), LibNames("pthread_private", staticOnly);
            && own == (if staticOnly then ["libpthread.a"] else ["libpthread.so", "libpthread.a"])
            && more == (if staticOnly then ["libpthread_private.a"]
                        else ["libpthread_private.so", "libpthread_private.a"])
            && own + more == if staticOnly then ["libpthread.a", "libpthread_private.a"]
                             else ["libpthread.so", "libpthread.a", "libpthread_private.so", "libpthread_private.a"]
  {
    var name, private := "pthread", "pthread_private";
    assert "lib" + name + ".a" == "libpthread.a" && "lib" + name + ".so" == "libpthread.so";
    assert "lib" + private + ".a" == "libpthread_private.a" && "lib" + private + ".so" == "libpthread_private.so";
  }

  /** And so does `-l:pthread`, after the file of that name. */
  lemma ThreadFile(s: Search, types: LibraryType)
    ensures var all := if s.staticOnly then ["pthread", "libpthread_private.a"]
                       else ["pthread", "libpthread_private.so", "libpthread_private.a"];
            FoundOrFatal(s, if NoneAnywhere(s, ["pthread"], types) then all else ["pthread"], types,
                         Located(s, ["-l:pthread"], types), ":pthread")
  {
    hide FindPath, FoundOrFatal, Located, NoneAnywhere;
    var file := "pthread";
    IsArgument(":" + file);
    assert "-l" + (":" + file) == "-l:pthread" && (":" + file)[1..] == file && [file] + [] == [file];
    OneLocated(s, "-l" + (":" + file), types);
    ThreadNames(s.staticOnly);
    var more := LibNames("pthread_private", s.staticOnly);
    assert [file] + more == if s.staticOnly then ["pthread", "libpthread_private.a"]
                            else ["pthread", "libpthread_private.so", "libpthread_private.a"];
    SearchFinds(s, [file], types, ":pthread");
    SearchFinds(s, [file] + more, types, ":pthread");
  }

  // ----- Scripts

  /** A file is read as a linker script just by its extension, and is one if it parses. */
  lemma ScriptFile(disk: Disk, stem: string, ext: string)
    requires stem != "" && stem[|stem| - 1] != '.' && stem[|stem| - 1] != '/'
    requires forall x | x in ext :: x != '.' && x != '/'
    ensures var path := stem + "." + ext;
            Inspect(disk, path) ==
            if ext !in {"o", "so", "a", "po", "pa", "x"} then Plain
            else if path !in disk.files then Missing
            else if LinkerScript.ParseFrom(disk.files[path], LinkerScript.START).None? then Plain
            else Script(LinkerScript.ParseFrom(disk.files[path], LinkerScript.START).value.ret)
  {
    hide LinkerScript.ParseFrom;
    var path := stem + "." + ext;
    assert path[..|path| - |ext| - 1] == stem && path[|path| - |ext| - 1..] == "." + ext;
    NotOnlyDots(stem);
    assert HasExtension(path, ext) by {
      var suffix := "." + ext;
      assert path[|path| - |suffix|..] == suffix;
    }
    forall e | e in ["o", "so", "a", "po", "pa", "x"] && HasExtension(path, e)
      ensures e == ext
    {
      SameExtension(stem, ext, e);
    }
    assert ScriptName(path) <==> ext in ["o", "so", "a", "po", "pa", "x"];
  }

  lemma NotOnlyDots(stem: string)
    requires stem != "" && stem[|stem| - 1] != '.' && stem[|stem| - 1] != '/'
    ensures !OnlyDots(Base(stem))
  {
    var base := Base(stem);
    assert base[|base| - 1] == stem[|stem| - 1];
  }

  lemma DotInside(path: string, shorter: string, longer: string)
    requires |longer| <= |path| && path[|path| - |longer|..] == longer
    requires |shorter| < |path| && path[|path| - |shorter| - 1] == '.'
    ensures |shorter| < |longer| ==> '.' in longer
  {
    if |shorter| < |longer| { assert longer[|longer| - |shorter| - 1] == '.'; }
  }

  lemma SameExtension(stem: string, ext: string, other: string)
    requires '.' !in ext && '.' !in other && LinkerScript.EndsWith(stem + "." + ext, "." + other)
    ensures other == ext
  {
    var path, suffix := stem + "." + ext, "." + other;
    assert path[|path| - |suffix|..] == suffix && suffix[0] == '.' && suffix[1..] == other;
    assert path[|path| - |other|..] == other && path[|path| - |ext|..] == ext;
    assert path[|path| - |other| - 1] == '.' && path[|path| - |ext| - 1] == '.';
    DotInside(path, other, ext);
    DotInside(path, ext, other);
  }

  /** A flag is passed over even if it looks like the name of a script. */
  lemma FlagStays(s: Search, depth: nat, flag: string)
    requires flag != "" && flag[0] == '-' && (|flag| == 1 || flag[1] != 'l')
    ensures Flatten(s, depth, [flag]) == Done([flag])
  {
    var flags: seq<string> := [flag];
    assert flags[1..] == [] && [flag] + [] == [flag] && Flatten(s, depth, []) == Done([]);
    assert flag[..1] == "-" && (|flag| >= 2 ==> flag[..2][1] == flag[1]);
    assert IsFlag(flag);
  }

  /** Where no script is found, expanding is locating. */
  lemma {:induction false} NothingToFlatten(s: Search, depth: nat, inputs: seq<string>)
    requires forall x | x in inputs :: IsFlag(x) || Inspect(s.disk, x).Plain?
    ensures Flatten(s, depth, inputs) == Done(inputs)
  {
    hide Inspect, Included, Located;
    if inputs != [] {
      assert inputs[0] in inputs && forall x | x in inputs[1..] :: x in inputs;
      NothingToFlatten(s, depth, inputs[1..]);
      assert [inputs[0]] + inputs[1..] == inputs;
    }
  }

  lemma ExpandedIsLocated(s: Search, inputs: seq<string>, types: LibraryType, depth: nat)
    requires var r := Located(s, inputs, types);
             r.Good? ==> forall x | x in r.value :: IsFlag(x) || Inspect(s.disk, x).Plain?
    ensures var r := Located(s, inputs, types);
            (r.Good? ==> Flatten(s, depth, r.value) != TooDeep) && Expanded(s, inputs, types, depth) == r
  {
    hide Located, Inspect, Flatten;
    var r := Located(s, inputs, types);
    if r.Good? { NothingToFlatten(s, depth, r.value); }
  }
}
