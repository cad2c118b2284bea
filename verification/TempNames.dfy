/** Temporary names for input files: the base name, and as many parent directories as it takes to tell inputs apart. */
module TempNaming {
  import opened Options
  import opened Text

  // ----- Taking a path apart

  /** The index after the last slash. */
  function AfterSlash(p: string): (i: nat)
    ensures i <= |p| && (i > 0 ==> p[i - 1] == '/') && '/' !in p[i..]
  {
    if p == "" then 0 else if p[|p| - 1] == '/' then |p| else AfterSlash(p[..|p| - 1])
  }

  /** POSIX path splitting: slashes at the end of the head go, unless it is nothing but slashes. */
  function Split(p: string): (r: (string, string))
    ensures r.1 != "" ==> |r.0| < |p|
  {
    var i := AfterSlash(p);
    var head := RightStrip(p[..i], c => c == '/');
    (if head == "" then p[..i] else head, p[i..])
  }

  function Components(f: string): seq<string>
    decreases |f|
  {
    var (head, tail) := Split(f);
    if tail == "" then [] else Components(head) + [tail]
  }

  lemma ComponentsStep(f: string, head: string, tail: string)
    requires Split(f) == (head, tail)
    ensures Components(f) == if tail == "" then [] else Components(head) + [tail]
    ensures tail != "" ==> |head| < |f|
  {
    hide Split;
  }

  function Reversed(s: seq<string>): seq<string> {
    if s == [] then [] else Reversed(s[1..]) + [s[0]]
  }

  lemma {:induction false} ReversedMore(s: seq<string>, x: string)
    ensures Reversed(s + [x]) == [x] + Reversed(s)
  {
    if s != [] {
      ReversedMore(s[1..], x);
      assert (s + [x])[1..] == s[1..] + [x];
    }
  }

  method PathSplit(f: string) returns (paths: seq<string>)
    ensures paths == Components(f)
  {
    hide Split, Components;
    var backwards: seq<string> := [];
    var current := f;
    while true
      invariant Components(f) == Components(current) + Reversed(backwards)
      decreases |current|
    {
      var (head, piece) := Split(current);
      ComponentsStep(current, head, piece);
      if piece == "" {
        break;
      }
      ReversedMore(backwards, piece);
      backwards := backwards + [piece];
      current := head;
    }
    paths := Reversed(backwards);
  }

  predicate IsComponent(c: string) {
    c != "" && '/' !in c
  }

  /** The absolute path with the given components. */
  function Absolute(components: seq<string>): string {
    if |components| <= 1 then "/" + JoinWith(components, "/")
    else Absolute(components[..|components| - 1]) + "/" + components[|components| - 1]
  }

  lemma {:induction false} AfterSlashThere(p: string, tail: string)
    requires '/' !in tail
    ensures AfterSlash(p + "/" + tail) == |p| + 1
    decreases |tail|
  {
    var whole := p + "/" + tail;
    if tail != "" {
      AfterSlashThere(p, tail[..|tail| - 1]);
      assert whole[..|whole| - 1] == p + "/" + tail[..|tail| - 1];
    }
  }

  lemma SplitAbsolute(front: string, tail: string)
    requires IsComponent(tail) && (front == "" || front[|front| - 1] != '/')
    ensures Split(front + "/" + tail) == (if front == "" then "/" else front, tail)
  {
    var p := front + "/" + tail;
    AfterSlashThere(front, tail);
    assert p[..|front| + 1] == front + "/" && p[|front| + 1..] == tail;
    var head := front + "/";
    assert head[..|head| - 1] == front;
    assert RightStrip(head, c => c == '/') == RightStrip(front, c => c == '/') == front;
  }

  /** Splitting an absolute path gives its components back. */
  lemma {:induction false} ComponentsOfAbsolute(components: seq<string>)
    requires forall c | c in components :: IsComponent(c)
    ensures Components(Absolute(components)) == components
    ensures |components| > 0 ==> Absolute(components)[|Absolute(components)| - 1] != '/'
  {
    hide Split, Components;
    RootSplits();
    var f := Absolute(components);
    if |components| > 1 {
      var front, tail := components[..|components| - 1], components[|components| - 1];
      ComponentsOfAbsolute(front);
      SplitAbsolute(Absolute(front), tail);
      ComponentsStep(f, Absolute(front), tail);
    } else if |components| == 1 {
      SplitAbsolute("", components[0]);
      assert "" + "/" + components[0] == f;
      ComponentsStep(f, "/", components[0]);
    } else {
      assert f == "/";
    }
  }

  lemma RootSplits()
    ensures Components("/") == []
  {
    assert AfterSlash("/") == 1;
  }

  // ----- Names and conflicts

  /** A file's entry: how many components of its path are in its name. */
  datatype Entry = Entry(n: nat, path: seq<string>)

  type TempMap = map<string, Entry>

  function Last(path: seq<string>, n: nat): seq<string> {
    if n >= |path| then path else path[|path| - n..]
  }

  function MangledName(output: string, e: Entry): string {
    output + "---" + JoinWith(Last(e.path, e.n), "_") + "---"
  }

  /** Two files that would get the same name. */
  predicate Conflict(output: string, m: TempMap, f: string, g: string) {
    f in m && g in m && f != g && MangledName(output, m[f]) == MangledName(output, m[g])
  }

  function Conflicting(output: string, m: TempMap): set<string> {
    set f | f in m && exists g | g in m :: Conflict(output, m, f, g)
  }

  /** Files whose names cannot be made longer. */
  predicate Exhausted(m: TempMap, f: string) {
    f in m && m[f].n + 1 > |m[f].path|
  }

  function Bumped(m: TempMap, files: set<string>): TempMap {
    map f | f in m :: if f in files then Entry(m[f].n + 1, m[f].path) else m[f]
  }

  /** The components not yet used. */
  ghost function Slack(m: TempMap): set<(string, int)> {
    set f, i | f in m && m[f].n <= i < |m[f].path| :: (f, i)
  }

  lemma SlackFalls(m: TempMap, files: set<string>)
    requires files != {} && forall f | f in files :: f in m && !Exhausted(m, f)
    ensures Slack(Bumped(m, files)) < Slack(m)
  {
    var f :| f in files;
    assert (f, m[f].n as int) in Slack(m);
    assert (f, m[f].n as int) !in Slack(Bumped(m, files));
  }

  /** Lengthening all names in conflict until there is none, or failing when one cannot be lengthened. */
  ghost function Resolve(output: string, m: TempMap): Option<TempMap>
    decreases Slack(m)
  {
    var conflicts := Conflicting(output, m);
    if conflicts == {} then Some(m)
    else if exists f | f in conflicts :: Exhausted(m, f) then None
    else
      SlackFalls(m, conflicts);
      Resolve(output, Bumped(m, conflicts))
  }

  // ----- The naming loop

  class TempNameGen {
    const tempBase: string
    const output: string
    var tempMap: TempMap

    constructor (tempBase: string, output: string)
      ensures this.tempBase == tempBase && this.output == output && tempMap == map[]
    {
      this.tempBase, this.output := tempBase, output;
      tempMap := map[];
    }

    /** The initial mapping: options are left out, every other input starts with its base name. */
    method EnterInputs(inputs: seq<string>)
      modifies this
      ensures tempMap == Initial(inputs)
    {
      tempMap := map[];
      for i := 0 to |inputs|
        invariant tempMap == Initial(inputs[..i])
      {
        assert inputs[..i + 1] == inputs[..i] + [inputs[i]];
        OneMoreInput(inputs[..i], inputs[i]);
        if inputs[i] == "" || inputs[i][0] != '-' {
          var path := PathSplit(inputs[i]);
          tempMap := tempMap[inputs[i] := Entry(1, path)];
        }
      }
      assert inputs[..|inputs|] == inputs;
    }

    /** Looks at the entries in any order; remembers the first file seen with each name. */
    method FindConflicts() returns (conflicts: set<string>)
      ensures conflicts == Conflicting(output, tempMap)
    {
      hide MangledName;
      conflicts := {};
      var conflictMap: map<string, string> := map[];
      var left := tempMap.Keys;
      while left != {}
        invariant left <= tempMap.Keys
        invariant forall name | name in conflictMap ::
                    var f := conflictMap[name]; f in tempMap && f !in left && MangledName(output, tempMap[f]) == name
        invariant forall f | f in tempMap && f !in left :: MangledName(output, tempMap[f]) in conflictMap
        invariant forall f :: f in conflicts <==> f !in left && exists g | g !in left :: Conflict(output, tempMap, f, g)
        decreases left
      {
        var f :| f in left;
        var candidate := MangledName(output, tempMap[f]);
        if candidate in conflictMap {
          conflicts := conflicts + {conflictMap[candidate]};
          conflicts := conflicts + {f};
        } else {
          conflictMap := conflictMap[candidate := f];
        }
        left := left - {f};
      }
    }

    /** Lengthens the names of the given files in any order, unless one cannot be lengthened. */
    method LengthenNames(files: set<string>) returns (ok: bool)
      requires files <= tempMap.Keys
      modifies this
      ensures ok <==> forall f | f in files :: !Exhausted(old(tempMap), f)
      ensures ok ==> tempMap == Bumped(old(tempMap), files)
    {
      var left := files;
      ghost var before := tempMap;
      while left != {}
        invariant left <= files
        invariant tempMap == Bumped(before, files - left)
        invariant forall f | f in files && f !in left :: !Exhausted(before, f)
        decreases left
      {
        var f :| f in left;
        assert tempMap[f] == before[f];
        var n := tempMap[f].n;
        if n + 1 > |tempMap[f].path| {
          return false;
        }
        tempMap := tempMap[f := Entry(n + 1, tempMap[f].path)];
        left := left - {f};
      }
      assert files - left == files;
      return true;
    }

    /** Starts with base names and adds parent directories until all names differ, or reports failure. */
    method ResolveConflicts(inputs: seq<string>) returns (ok: bool)
      modifies this
      ensures var r := Resolve(output, Initial(inputs)); ok == r.Some? && (ok ==> tempMap == r.value)
    {
      EnterInputs(inputs);
      while true
        invariant Resolve(output, tempMap) == Resolve(output, Initial(inputs))
        decreases Slack(tempMap)
      {
        var conflicts := FindConflicts();
        if conflicts == {} {
          break;
        }
        ghost var before := tempMap;
        ok := LengthenNames(conflicts);
        if !ok {
          return;
        }
        SlackFalls(before, conflicts);
      }
      return true;
    }

    function TempNameForInput(fullpath: string, imtype: string): Option<string>
      reads this
    {
      TempName(tempBase, output, tempMap, fullpath, imtype)
    }
  }

  /** The temporary name for an input and an intermediate type; a temporary name only gets an extension. */
  function TempName(tempBase: string, output: string, m: TempMap, fullpath: string, imtype: string): Option<string> {
    if tempBase <= fullpath then Some(fullpath + "." + imtype)
    else if fullpath in m then Some(tempBase + "/" + MangledName(output, m[fullpath]) + "." + imtype)
    else None
  }

  /** The temporary name for an intermediate file of the output. */
  function TempNameForOutput(tempBase: string, output: string, imtype: string): string {
    tempBase + "/" + (output + "---linked") + "." + imtype
  }

  function Initial(inputs: seq<string>): TempMap {
    map f | f in inputs && (f == "" || f[0] != '-') :: Entry(1, Components(f))
  }

  lemma OneMoreInput(inputs: seq<string>, f: string)
    ensures Initial(inputs + [f]) ==
            if f == "" || f[0] != '-' then Initial(inputs)[f := Entry(1, Components(f))] else Initial(inputs)
  {
    hide Components;
  }

  // ----- What the loop achieves

  /** The loop only lengthens names, and ends without conflicts. */
  lemma {:induction false} ResolvedNames(output: string, m: TempMap)
    requires Resolve(output, m).Some?
    ensures var r := Resolve(output, m).value;
            && r.Keys == m.Keys && Conflicting(output, r) == {}
            && forall f | f in m :: r[f].path == m[f].path && m[f].n <= r[f].n
    decreases Slack(m)
  {
    hide Conflict;
    var conflicts := Conflicting(output, m);
    if conflicts != {} {
      SlackFalls(m, conflicts);
      ResolvedNames(output, Bumped(m, conflicts));
    }
  }

  /** Once the loop has ended, different inputs have different temporary names of every type. */
  lemma TempNamesDiffer(tempBase: string, output: string, inputs: seq<string>, imtype: string, f: string, g: string)
    requires Resolve(output, Initial(inputs)).Some? && f in Initial(inputs) && g in Initial(inputs) && f != g
    requires !(tempBase <= f) && !(tempBase <= g)
    ensures var m := Resolve(output, Initial(inputs)).value;
            var a, b := TempName(tempBase, output, m, f, imtype), TempName(tempBase, output, m, g, imtype);
            a.Some? && b.Some? && a != b
  {
    hide Resolve, Initial, MangledName;
    ResolvedNames(output, Initial(inputs));
    var m := Resolve(output, Initial(inputs)).value;
    assert f !in Conflicting(output, m);
    assert !Conflict(output, m, f, g);
    SameMiddle(tempBase + "/", MangledName(output, m[f]), MangledName(output, m[g]), ".", imtype);
  }

  lemma SameMiddle(front: string, a: string, b: string, dot: string, back: string)
    ensures front + a + dot + back == front + b + dot + back ==> a == b
  {
    var x, y := front + a + dot + back, front + b + dot + back;
    if x == y {
      assert a == x[|front|..|x| - |dot| - |back|] == y[|front|..|y| - |dot| - |back|] == b;
    }
  }

  /** The end of another path. */
  predicate IsEnd(path: seq<string>, of: seq<string>) {
    |path| <= |of| && path == of[|of| - |path|..]
  }

  /** Two entries whose names stay the same however long they get. */
  ghost predicate Entangled(m: TempMap, f: string, g: string) {
    && f in m && g in m && f != g && IsEnd(m[f].path, m[g].path) && m[f].n == m[g].n
    && (m[f].n <= |m[f].path| || m[f].path == m[g].path)
  }

  lemma EntangledConflict(output: string, m: TempMap, f: string, g: string)
    requires Entangled(m, f, g)
    ensures Conflict(output, m, f, g) && Conflict(output, m, g, f)
  {
    var n, p, q := m[f].n, m[f].path, m[g].path;
    if n <= |p| {
      assert Last(p, n) == p[|p| - n..] == q[|q| - n..] == Last(q, n);
    }
  }

  /** Names cannot be told apart where all of one input's path is the end of another's. */
  lemma {:induction false} EntangledFails(output: string, m: TempMap, f: string, g: string)
    requires Entangled(m, f, g)
    ensures Resolve(output, m).None?
    decreases Slack(m)
  {
    hide Conflict, Last, IsEnd;
    EntangledConflict(output, m, f, g);
    var conflicts := Conflicting(output, m);
    assert f in conflicts && g in conflicts;
    if !exists h | h in conflicts :: Exhausted(m, h) {
      SlackFalls(m, conflicts);
      assert !Exhausted(m, f);
      EntangledFails(output, Bumped(m, conflicts), f, g);
    }
  }

  // ----- When all names can be told apart

  /** No path is all of, or the end of, another. */
  ghost predicate Separable(m: TempMap) {
    forall f, g | f in m && g in m && f != g ::
        m[f].path != m[g].path && !(m[f].path != [] && IsEnd(m[f].path, m[g].path))
  }

  /** Where ends of the two paths are joined to the same name, they are the same components. */
  ghost predicate TellsApart(path: seq<string>, path': seq<string>) {
    forall i, j | 1 <= i && 1 <= j :: SameJoined(path, i, path', j) ==> Last(path, i) == Last(path', j)
  }

  predicate SameJoined(path: seq<string>, i: nat, path': seq<string>, j: nat) {
    JoinWith(Last(path, i), "_") == JoinWith(Last(path', j), "_")
  }

  /** No two files' paths have different ends that are joined to the same name. */
  ghost predicate Unambiguous(m: TempMap) {
    forall f, g | f in m && g in m && f != g :: TellsApart(m[f].path, m[g].path)
  }

  lemma SameEnds(front: string, a: string, b: string, back: string)
    requires front + a + back == front + b + back
    ensures a == b
  {
    var x, y := front + a + back, front + b + back;
    assert a == x[|front|..|x| - |back|] == y[|front|..|y| - |back|] == b;
  }

  lemma LastIsEnd(path: seq<string>, n: nat)
    ensures IsEnd(Last(path, n), path) && (n >= |path| ==> Last(path, n) == path)
    ensures (n >= 1 && path != [] ==> Last(path, n) != [])
  {
  }

  /** Of two entries with the same name, neither the end of the other, each name can be made longer. */
  lemma SameNameLengthens(output: string, e: Entry, e': Entry)
    requires TellsApart(e.path, e'.path) && e.n >= 1 && e'.n >= 1
    requires e.path != e'.path && !(e.path != [] && IsEnd(e.path, e'.path))
    requires MangledName(output, e) == MangledName(output, e')
    ensures e.n + 1 <= |e.path|
  {
    hide IsEnd, Last;
    LastIsEnd(e.path, e.n);
    LastIsEnd(e'.path, e'.n);
    SameEnds(output + "---", JoinWith(Last(e.path, e.n), "_"), JoinWith(Last(e'.path, e'.n), "_"), "---");
    assert SameJoined(e.path, e.n, e'.path, e'.n);
  }

  /** Every file uses at least its base name. */
  ghost predicate Named(m: TempMap) {
    forall f | f in m :: m[f].n >= 1
  }

  lemma ConflictApart(output: string, m: TempMap, f: string, g: string)
    ensures Conflict(output, m, f, g) ==> f in m && g in m && f != g
  {
  }

  lemma NotExhausted(output: string, m: TempMap, f: string, g: string)
    requires Conflict(output, m, f, g) && m[f].n >= 1 && m[g].n >= 1 && TellsApart(m[f].path, m[g].path)
    requires m[f].path != m[g].path && !(m[f].path != [] && IsEnd(m[f].path, m[g].path))
    ensures !Exhausted(m, f)
  {
    hide TellsApart, IsEnd, MangledName;
    SameNameLengthens(output, m[f], m[g]);
  }

  /** Separable and unambiguous paths can always be told apart by longer names. */
  lemma {:induction false} SeparableSucceeds(output: string, m: TempMap)
    requires Named(m) && Unambiguous(m) && Separable(m)
    ensures Resolve(output, m).Some?
    decreases Slack(m)
  {
    hide Conflict, IsEnd, Exhausted, TellsApart;
    var conflicts := Conflicting(output, m);
    forall f | f in conflicts
      ensures !Exhausted(m, f)
    {
      var g :| g in m && Conflict(output, m, f, g);
      ConflictApart(output, m, f, g);
      NotExhausted(output, m, f, g);
    }
    if conflicts != {} {
      SlackFalls(m, conflicts);
      SeparableSucceeds(output, Bumped(m, conflicts));
    }
  }

  /**
   * For inputs of whose paths no two different ends are joined to the same name, the naming succeeds exactly if no
   * input's path is the end of another's; in particular an input directly below the root can share its base name with
   * no other.
   */
  lemma ResolvesIff(output: string, inputs: seq<string>)
    requires Unambiguous(Initial(inputs))
    ensures Resolve(output, Initial(inputs)).Some? <==> Separable(Initial(inputs))
  {
    hide Components, Resolve, IsEnd, TellsApart;
    var m := Initial(inputs);
    if Separable(m) {
      SeparableSucceeds(output, m);
    } else {
      var f, g :| f in m && g in m && f != g &&
          (m[f].path == m[g].path || (m[f].path != [] && IsEnd(m[f].path, m[g].path)));
      EndOfSelf(m[f].path);
      assert Entangled(m, f, g);
      EntangledFails(output, m, f, g);
    }
  }

  lemma EndOfSelf(path: seq<string>)
    ensures IsEnd(path, path)
  {
  }

  // ----- Paths without underscores

  predicate PlainComponent(c: string) {
    c != "" && '_' !in c
  }

  predicate PlainPath(path: seq<string>) {
    forall c | c in path :: PlainComponent(c)
  }

  /** Without underscores, a joined name determines the components it was made from. */
  lemma JoinedTellsComponents(a: seq<string>, b: seq<string>)
    requires PlainPath(a) && PlainPath(b) && JoinWith(a, "_") == JoinWith(b, "_")
    ensures a == b
  {
    assert (a != [] ==> a[0] in a) && (b != [] ==> b[0] in b);
    if a == [] {
      if b != [] { JoinedIsNonEmpty(b); }
    } else if b == [] {
      JoinedIsNonEmpty(a);
    } else {
      SplitJoinOn(a, '_');
      SplitJoinOn(b, '_');
    }
  }

  lemma JoinedIsNonEmpty(a: seq<string>)
    requires a != [] && a[0] != ""
    ensures JoinWith(a, "_") != ""
  {
  }

  lemma PlainTellsApart(path: seq<string>, path': seq<string>)
    requires PlainPath(path) && PlainPath(path')
    ensures TellsApart(path, path')
  {
    hide PlainComponent, JoinWith;
    forall i, j | 1 <= i && 1 <= j && SameJoined(path, i, path', j)
      ensures Last(path, i) == Last(path', j)
    {
      JoinedTellsComponents(Last(path, i), Last(path', j));
    }
  }

  /** Inputs without underscores in their paths are unambiguous, so for them that is all there is to it. */
  lemma PlainResolvesIff(output: string, inputs: seq<string>)
    requires forall f | f in Initial(inputs) :: PlainPath(Components(f))
    ensures Resolve(output, Initial(inputs)).Some? <==> Separable(Initial(inputs))
  {
    hide Components, Resolve, PlainPath, TellsApart;
    var m := Initial(inputs);
    forall f, g | f in m && g in m && f != g
      ensures TellsApart(m[f].path, m[g].path)
    {
      PlainTellsApart(m[f].path, m[g].path);
    }
    ResolvesIff(output, inputs);
  }

  // ----- Underscores

  /** A component with an underscore can take the name that two others come apart to. */
  lemma {:induction false} UnderscoreFails(output: string, m: TempMap, f: string, g: string, h: string)
    requires Conflict(output, m, f, g) && h in m && h != f && Exhausted(m, h)
    requires m[f].n + 1 == |m[f].path| && JoinWith(m[f].path, "_") == JoinWith(m[h].path, "_")
    ensures Resolve(output, m).None?
  {
    hide JoinWith;
    assert MangledName(output, Entry(m[f].n + 1, m[f].path)) == MangledName(output, m[h]);
    hide MangledName;
    var conflicts := Conflicting(output, m);
    assert f in conflicts;
    ResolveStep(output, m, f);
    hide Resolve;
    if forall x | x in conflicts :: !Exhausted(m, x) {
      var next := Bumped(m, conflicts);
      assert Conflict(output, next, f, h) && Conflict(output, next, h, f);
      ResolveStep(output, next, h);
    }
  }

  lemma ResolveStep(output: string, m: TempMap, f: string)
    requires f in Conflicting(output, m)
    ensures (exists x | x in Conflicting(output, m) :: Exhausted(m, x)) ==> Resolve(output, m).None?
    ensures (forall x | x in Conflicting(output, m) :: !Exhausted(m, x)) ==>
              Resolve(output, m) == Resolve(output, Bumped(m, Conflicting(output, m)))
  {
    hide Conflicting, Bumped;
  }

  /** Where one component is two others joined, none of three paths is the end of another, and yet they get no names. */
  lemma UnderscoreClash(output: string, m: TempMap, f: string, g: string, h: string, a: string, b: string, c: string)
    requires f != g && g != h && f != h && a != c
    requires m == map[f := Entry(1, [a, b]), g := Entry(1, [c, b]), h := Entry(1, [a + "_" + b])]
    ensures Separable(m) && Resolve(output, m).None?
  {
    hide Resolve, MangledName;
    var u := a + "_" + b;
    assert |u| > |b|;
    PairsDiffer(a, b, c, u);
    SameBase(output, a, b, c);
    assert Conflict(output, m, f, g);
    assert JoinWith([a, b], "_") == u == JoinWith([u], "_");
    UnderscoreFails(output, m, f, g, h);
  }

  /** Three inputs that get no names although none is the end of another. */
  lemma UnderscoreExample(output: string, inputs: seq<string>)
    requires inputs == ["/a/b", "/c/b", "/a_b"]
    ensures Separable(Initial(inputs)) && Resolve(output, Initial(inputs)).None?
  {
    hide Resolve, Components, Separable;
    var f, g, h := "/a/b", "/c/b", "/a_b";
    assert f[1] == 'a' && g[1] == 'c' && h[1] == 'a' && f[2] == '/' && h[2] == '_';
    TwoComponents("a", "b");
    TwoComponents("c", "b");
    assert f == "/" + "a" + "/" + "b" && g == "/" + "c" + "/" + "b";
    OneComponent("a_b");
    assert h == "/" + "a_b";
    var m: TempMap := map[f := Entry(1, ["a", "b"]), g := Entry(1, ["c", "b"]), h := Entry(1, ["a" + "_" + "b"])];
    assert "a"[0] != "c"[0];
    assert "a" + "_" + "b" == "a_b";
    assert inputs == [f, g, h];
    assert Initial(inputs) == m;
    UnderscoreClash(output, m, f, g, h, "a", "b", "c");
  }

  lemma OneComponent(a: string)
    requires IsComponent(a)
    ensures Components("/" + a) == [a]
  {
    hide Components;
    ComponentsOfAbsolute([a]);
  }

  lemma TwoComponents(a: string, b: string)
    requires IsComponent(a) && IsComponent(b)
    ensures Components("/" + a + "/" + b) == [a, b]
  {
    hide Components;
    assert [a, b][..1] == [a];
    assert Absolute([a]) == "/" + a;
    ComponentsOfAbsolute([a, b]);
  }

  lemma SameBase(output: string, a: string, b: string, c: string)
    ensures MangledName(output, Entry(1, [a, b])) == MangledName(output, Entry(1, [c, b]))
    ensures JoinWith([a, b], "_") == a + "_" + b
  {
    assert Last([a, b], 1) == [b] == Last([c, b], 1);
    assert [a, b][1..] == [b];
  }

  lemma PairsDiffer(a: string, b: string, c: string, u: string)
    requires a != c && u != b
    ensures !IsEnd([a, b], [c, b]) && !IsEnd([c, b], [a, b]) && !IsEnd([u], [a, b]) && !IsEnd([u], [c, b])
  {
    assert [a, b][0] != [c, b][0];
    assert [u][0] != [a, b][1..][0] && [u][0] != [c, b][1..][0];
  }
}
