/** What temporary names look like, and how many components they take. */
module TempNamingLaws {
  import opened Options
  import opened TempNaming
  import opened Text

  // ----- Names of temporary files

  lemma SamePart(front: string, a: string, b: string, back: string)
    ensures front + a + back == front + b + back ==> a == b
  {
    var x, y := front + a + back, front + b + back;
    if x == y {
      assert a == x[|front|..|x| - |back|] == y[|front|..|y| - |back|] == b;
    }
  }

  /** A name under the base gets the type behind a dot; that tells names and types apart, and stays under the base. */
  lemma NamesUnderBase(tempBase: string, output: string, m: TempMap, f: string, g: string, imtype: string,
                       other: string)
    requires tempBase <= f && tempBase <= g
    ensures
      var name := TempName(tempBase, output, m, f, imtype);
      && name == Some(f + "." + imtype) && tempBase <= name.value && name.value != f
      && (name == TempName(tempBase, output, m, f, other) <==> imtype == other)
      && (name == TempName(tempBase, output, m, g, imtype) <==> f == g)
  {
    SamePart(f + ".", imtype, other, "");
    SamePart("", f, g, "." + imtype);
    assert (f + "." + imtype)[..|f|] == f && |f + "." + imtype| > |f|;
    assert f + "." + imtype + "" == f + "." + imtype && f + "." + other + "" == f + "." + other;
    assert "" + f + ("." + imtype) == f + "." + imtype && "" + g + ("." + imtype) == g + "." + imtype;
  }

  /** The temporary name for a temporary name has just one more extension. */
  lemma NameOfName(tempBase: string, output: string, m: TempMap, f: string, imtype: string, further: string)
    requires TempName(tempBase, output, m, f, imtype).Some?
    ensures
      var name := TempName(tempBase, output, m, f, imtype).value;
      TempName(tempBase, output, m, name, further) == Some(name + "." + further)
  {
    hide MangledName;
  }

  /** The name of a source file of which only the last component is used. */
  lemma NameOfOne(tempBase: string, output: string, m: TempMap, f: string, imtype: string, front: seq<string>,
                  c: string)
    requires f in m && !(tempBase <= f) && m[f] == Entry(1, front + [c])
    ensures TempName(tempBase, output, m, f, imtype) == Some(tempBase + "/" + output + "---" + c + "---." + imtype)
  {
    assert Last(front + [c], 1) == [c];
    assert tempBase + "/" + (output + "---" + c + "---") + "." + imtype ==
           tempBase + "/" + output + "---" + c + "---." + imtype;
  }

  /** One component more stands before the others, with an underscore between. */
  lemma NameOfMore(tempBase: string, output: string, m: TempMap, f: string, imtype: string,
                   front: seq<string>, x: string, back: seq<string>, j: string)
    requires f in m && !(tempBase <= f) && m[f] == Entry(|back|, front + [x] + back) && back != []
    requires TempName(tempBase, output, m, f, imtype) == Some(tempBase + "/" + output + "---" + j + "---." + imtype)
    ensures TempName(tempBase, output, m[f := Entry(|back| + 1, m[f].path)], f, imtype) ==
            Some(tempBase + "/" + output + "---" + x + "_" + j + "---." + imtype)
  {
    hide JoinWith;
    var path := m[f].path;
    assert path[|path| - |back|..] == back && path[|path| - (|back| + 1)..] == [x] + back;
    var joined := JoinWith(back, "_");
    assert tempBase + "/" + (output + "---" + joined + "---") + "." + imtype ==
           tempBase + "/" + output + "---" + joined + "---." + imtype;
    SamePart(tempBase + "/" + output + "---", joined, j, "---." + imtype);
    Spread(tempBase + "/" + output, joined, j, imtype);
    OneMoreJoined(x, back);
    assert tempBase + "/" + (output + "---" + (x + "_" + j) + "---") + "." + imtype ==
           tempBase + "/" + output + "---" + x + "_" + j + "---." + imtype;
  }

  lemma Spread(front: string, a: string, b: string, imtype: string)
    ensures front + "---" + a + "---." + imtype == front + "---" + a + ("---." + imtype)
    ensures front + "---" + b + "---." + imtype == front + "---" + b + ("---." + imtype)
  {
  }

  lemma OneMoreJoined(x: string, back: seq<string>)
    requires back != []
    ensures JoinWith([x] + back, "_") == x + "_" + JoinWith(back, "_")
  {
    assert ([x] + back)[1..] == back;
  }

  /** No input's temporary name is one of the output's of the same type. */
  lemma OutputsDiffer(tempBase: string, output: string, m: TempMap, f: string, imtype: string)
    requires !(tempBase <= f) && f in m
    ensures TempName(tempBase, output, m, f, imtype) != Some(TempNameForOutput(tempBase, output, imtype))
    ensures TempNameForOutput(tempBase, output, imtype) == tempBase + "/" + output + "---linked." + imtype
  {
    hide JoinWith;
    var j := JoinWith(Last(m[f].path, m[f].n), "_");
    var front, back := tempBase + "/", "." + imtype;
    var a, b := output + "---" + j + "---", output + "---linked";
    SamePart(front, a, b, back);
    assert a[|a| - 1] == '-' && b[|b| - 1] == 'd';
    assert front + a + back == tempBase + "/" + a + "." + imtype;
    assert front + b + back == tempBase + "/" + output + "---linked." + imtype;
  }

  // ----- As few components as tell the inputs apart

  /** The last `n` components of both paths are there and the same. */
  predicate SharesEnd(p: seq<string>, q: seq<string>, n: nat) {
    n <= |p| && n <= |q| && p[|p| - n..] == q[|q| - n..]
  }

  /** No other file's path ends in the same `n` components. */
  ghost predicate Alone(m: TempMap, f: string, n: nat)
    requires f in m
  {
    forall g | g in m && g != f :: !SharesEnd(m[f].path, m[g].path, n)
  }

  /** The number of components is the least that no other file's path ends in. */
  ghost predicate LeastApart(m: TempMap, f: string)
    requires f in m
  {
    1 <= m[f].n && Alone(m, f, m[f].n) && forall k: nat | k < m[f].n :: k == 0 || !Alone(m, f, k)
  }

  lemma SharesShorter(p: seq<string>, q: seq<string>, n: nat, k: nat)
    requires SharesEnd(p, q, n) && k <= n
    ensures SharesEnd(p, q, k)
  {
    assert p[|p| - k..] == p[|p| - n..][n - k..] == q[|q| - n..][n - k..] == q[|q| - k..];
  }

  /** Before round `r`, names that could not be told apart yet have `r` components, and no name has one too many. */
  ghost predicate Round(m: TempMap, r: nat) {
    forall f | f in m ::
        1 <= m[f].n <= r && (m[f].n < r ==> Alone(m, f, m[f].n)) && (m[f].n > 1 ==> !Alone(m, f, m[f].n - 1))
  }

  lemma ConflictShares(output: string, m: TempMap, f: string, g: string)
    requires Conflict(output, m, f, g) && TellsApart(m[f].path, m[g].path)
    requires 1 <= m[f].n <= |m[f].path| && 1 <= m[g].n <= |m[g].path|
    ensures m[f].n == m[g].n && SharesEnd(m[f].path, m[g].path, m[f].n)
  {
    hide JoinWith;
    var p, i, q, j := m[f].path, m[f].n, m[g].path, m[g].n;
    SamePart(output + "---", JoinWith(Last(p, i), "_"), JoinWith(Last(q, j), "_"), "---");
    assert SameJoined(p, i, q, j);
    LastOf(p, i);
    LastOf(q, j);
  }

  lemma LastOf(path: seq<string>, n: nat)
    requires n <= |path|
    ensures Last(path, n) == path[|path| - n..] && |Last(path, n)| == n
  {
  }

  lemma SharesConflict(output: string, m: TempMap, f: string, g: string)
    requires f in m && g in m && f != g && m[f].n == m[g].n && SharesEnd(m[f].path, m[g].path, m[f].n)
    ensures Conflict(output, m, f, g)
  {
    hide JoinWith;
    LastOf(m[f].path, m[f].n);
    LastOf(m[g].path, m[g].n);
  }

  /** The files in conflict are those that have taken part in all rounds and are not alone yet. */
  lemma RoundConflicts(output: string, m: TempMap, r: nat, f: string)
    requires Round(m, r) && Unambiguous(m) && f in m
    requires forall h | h in Conflicting(output, m) :: !Exhausted(m, h)
    ensures f in Conflicting(output, m) <==> m[f].n == r && !Alone(m, f, r)
  {
    hide Conflict, SharesEnd, TellsApart;
    if f in Conflicting(output, m) {
      var g :| g in m && Conflict(output, m, f, g);
      ConflictIsMutual(output, m, f, g);
      assert g in Conflicting(output, m) && !Exhausted(m, g);
      ConflictShares(output, m, f, g);
      assert !Alone(m, f, m[f].n);
    }
    if m[f].n == r && !Alone(m, f, r) {
      var g :| g in m && g != f && SharesEnd(m[f].path, m[g].path, r);
      SharesShorter(m[f].path, m[g].path, r, m[g].n);
      SharesMutual(m[f].path, m[g].path, m[g].n);
      assert !Alone(m, g, m[g].n);
      SharesConflict(output, m, f, g);
    }
  }

  lemma ConflictIsMutual(output: string, m: TempMap, f: string, g: string)
    requires Conflict(output, m, f, g)
    ensures Conflict(output, m, g, f) && f in m && g in m && f != g
  {
    hide MangledName;
  }

  lemma SharesMutual(p: seq<string>, q: seq<string>, n: nat)
    requires SharesEnd(p, q, n)
    ensures SharesEnd(q, p, n)
  {
  }

  lemma BumpedAlone(m: TempMap, files: set<string>, f: string, n: nat)
    requires f in m
    ensures Alone(Bumped(m, files), f, n) <==> Alone(m, f, n)
  {
    hide SharesEnd;
    assert forall g | g in m :: Bumped(m, files)[g].path == m[g].path;
  }

  lemma NextRound(output: string, m: TempMap, r: nat)
    requires Round(m, r) && Unambiguous(m)
    requires forall h | h in Conflicting(output, m) :: !Exhausted(m, h)
    ensures Round(Bumped(m, Conflicting(output, m)), r + 1)
  {
    hide Conflicting, Alone;
    var next := Bumped(m, Conflicting(output, m));
    forall f | f in next
      ensures 1 <= next[f].n <= r + 1 && (next[f].n < r + 1 ==> Alone(next, f, next[f].n))
      ensures next[f].n > 1 ==> !Alone(next, f, next[f].n - 1)
    {
      RoundConflicts(output, m, r, f);
      BumpedAlone(m, Conflicting(output, m), f, next[f].n);
      BumpedAlone(m, Conflicting(output, m), f, next[f].n - 1);
    }
  }

  lemma NotAloneBefore(m: TempMap, f: string, n: nat, k: nat)
    requires f in m && !Alone(m, f, n) && k <= n
    ensures !Alone(m, f, k)
  {
    hide SharesEnd;
    var g :| g in m && g != f && SharesEnd(m[f].path, m[g].path, n);
    SharesShorter(m[f].path, m[g].path, n, k);
  }

  lemma {:induction false} RoundsEnd(output: string, m: TempMap, r: nat)
    requires Round(m, r) && Unambiguous(m) && Resolve(output, m).Some?
    ensures var x := Resolve(output, m).value;
            x.Keys == m.Keys && forall f | f in m :: x[f].path == m[f].path && LeastApart(x, f)
    decreases Slack(m)
  {
    hide Conflicting, Bumped, Alone, TellsApart;
    var conflicts := Conflicting(output, m);
    ConflictsAreFiles(output, m);
    if conflicts == {} {
      forall f | f in m
        ensures LeastApart(m, f)
      {
        RoundConflicts(output, m, r, f);
        forall k: nat | 0 < k < m[f].n
          ensures !Alone(m, f, k)
        {
          NotAloneBefore(m, f, m[f].n - 1, k);
        }
      }
    } else {
      SlackFalls(m, conflicts);
      NextRound(output, m, r);
      SamePaths(m, conflicts);
      RoundsEnd(output, Bumped(m, conflicts), r + 1);
    }
  }

  lemma ConflictsAreFiles(output: string, m: TempMap)
    ensures Conflicting(output, m) <= m.Keys
  {
  }

  lemma SamePaths(m: TempMap, files: set<string>)
    ensures Bumped(m, files).Keys == m.Keys && forall f | f in m :: Bumped(m, files)[f].path == m[f].path
    ensures Unambiguous(m) ==> Unambiguous(Bumped(m, files))
  {
    hide TellsApart;
  }

  /** Every input's name takes the least number of components, at least one, that no other input's path ends in. */
  lemma NamesAreLeast(output: string, inputs: seq<string>)
    requires Unambiguous(Initial(inputs)) && Resolve(output, Initial(inputs)).Some?
    ensures
      var m := Resolve(output, Initial(inputs)).value;
      && m.Keys == Initial(inputs).Keys
      && forall f | f in m :: m[f].path == Components(f) && LeastApart(m, f)
  {
    hide Resolve, Components, Alone, TellsApart;
    RoundsEnd(output, Initial(inputs), 1);
  }

  /** A path that shares its last component with another is some directory, a slash, and that component. */
  lemma SharedComponent(path: seq<string>, g: string) returns (dir: string)
    requires "/" <= g && path != []
    ensures SharesEnd(path, Components(g), 1) ==> g == dir + "/" + path[|path| - 1]
  {
    var i := AfterSlash(g);
    assert g == g[..i] + g[i..] && g[0] == '/';
    dir := g[..i - 1];
    assert g == dir + "/" + g[i..];
    SharesLast(path, Components(g));
  }

  lemma SharesLast(p: seq<string>, q: seq<string>)
    requires p != []
    ensures SharesEnd(p, q, 1) ==> q != [] && p[|p| - 1] == q[|q| - 1]
  {
    assert p[|p| - 1..] == [p[|p| - 1]] && (q != [] ==> q[|q| - 1..] == [q[|q| - 1]]);
  }

  lemma ComponentsEnd(front: string, c: string)
    requires IsComponent(c)
    ensures var path := Components(front + "/" + c); path != [] && path == path[..|path| - 1] + [c]
  {
    AfterSlashThere(front, c);
    assert (front + "/" + c)[|front| + 1..] == c;
  }

  /** An absolute path whose last component no other input has is named by that component alone. */
  lemma BaseNameAlone(tempBase: string, output: string, inputs: seq<string>, imtype: string,
                      f: string, front: string, c: string)
    requires Unambiguous(Initial(inputs)) && Resolve(output, Initial(inputs)).Some?
    requires f in inputs && f == front + "/" + c && IsComponent(c) && !(tempBase <= f)
    requires forall g | g in inputs :: "/" <= g
    requires forall dir: string :: dir + "/" + c in inputs ==> dir == front
    ensures TempName(tempBase, output, Resolve(output, Initial(inputs)).value, f, imtype) ==
            Some(tempBase + "/" + output + "---" + c + "---." + imtype)
  {
    hide Resolve, Components, TellsApart;
    NamesAreLeast(output, inputs);
    var m := Resolve(output, Initial(inputs)).value;
    ComponentsEnd(front, c);
    var path := m[f].path;
    forall g | g in m && g != f
      ensures !SharesEnd(path, m[g].path, 1)
    {
      var dir := SharedComponent(path, g);
    }
    assert Alone(m, f, 1) && LeastApart(m, f);
    NameOfOne(tempBase, output, m, f, imtype, path[..|path| - 1], c);
  }
}
