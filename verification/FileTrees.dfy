/** Files and directories as values: what a path holds, what lies below it, and what a change leaves alone. */
module FileTrees {
  import opened Options

  /** The components of a path. */
  type Path = seq<string>

  datatype Entry = Directory | File(contents: string)

  type Tree = map<Path, Entry>

  /** The part of a path below another. */
  function Below(p: Path, at: Path): (rel: Path)
    requires at <= p
    ensures p == at + rel
  {
    p[|at|..]
  }

  lemma BelowJoined(at: Path, rel: Path)
    ensures at <= at + rel && Below(at + rel, at) == rel
  {
  }

  /** What lies at a path and below it, with paths counted from there. */
  function At(files: Tree, at: Path): (t: Tree)
    ensures forall rel :: rel in t <==> at + rel in files
    ensures forall rel | rel in t :: t[rel] == files[at + rel]
  {
    var rels := set p | p in files && at <= p :: Below(p, at);
    assert forall rel | at + rel in files :: rel in rels by {
      forall rel | at + rel in files
        ensures rel in rels
      {
        BelowJoined(at, rel);
      }
    }
    map rel | rel in rels :: files[at + rel]
  }

  /** The files once a path and all below it have been removed. */
  function Without(files: Tree, at: Path): Tree {
    map p | p in files && !(at <= p) :: files[p]
  }

  /** A tree put at a path, and nothing else. */
  function Rooted(at: Path, t: Tree): (r: Tree)
    ensures forall p :: p in r <==> at <= p && Below(p, at) in t
    ensures forall p | p in r :: r[p] == t[Below(p, at)]
  {
    var paths := set rel | rel in t :: at + rel;
    assert forall p :: p in paths <==> at <= p && Below(p, at) in t by {
      forall rel | rel in t
        ensures at <= at + rel && Below(at + rel, at) == rel
      {
        BelowJoined(at, rel);
      }
    }
    map p | p in paths :: t[Below(p, at)]
  }

  /** The files once a path has been replaced by a whole tree. */
  function Placed(files: Tree, at: Path, t: Tree): Tree {
    Without(files, at) + Rooted(at, t)
  }

  lemma PlacedThere(files: Tree, at: Path, t: Tree)
    ensures At(Placed(files, at, t), at) == t
    ensures AgreeAway(files, Placed(files, at, t), {at})
  {
    var r := Placed(files, at, t);
    forall rel
      ensures at + rel in r <==> rel in t
      ensures rel in t ==> r[at + rel] == t[rel]
    {
      BelowJoined(at, rel);
    }
    forall p | !Near(p, {at})
      ensures Agree(files, r, p)
    {
      assert !Related(p, at);
    }
  }

  /** Whether a directory can be made here: nothing on the way is a file. */
  predicate CanMake(files: Tree, path: Path) {
    forall i | 0 <= i <= |path| :: path[..i] in files ==> files[path[..i]].Directory?
  }

  lemma CanMakeIff(files: Tree, path: Path)
    ensures CanMake(files, path) <==> forall p | p <= path && p in files :: files[p].Directory?
  {
    assert forall p | p <= path :: p == path[..|p|];
  }

  function WithDirectories(files: Tree, path: Path): (r: Tree)
    ensures path in r && (CanMake(files, path) ==> r[path].Directory?)
    ensures forall p | !(p <= path) :: Agree(files, r, p)
    ensures forall p | p <= path :: p in r && r[p] == if p in files then files[p] else Directory
  {
    assert forall p | p <= path :: p == path[..|p|];
    var made := set i | 0 <= i <= |path| :: path[..i];
    assert path == path[..|path|];
    (map p | p in made :: Directory) + files
  }

  // ----- What a change leaves alone

  predicate Agree(a: Tree, b: Tree, p: Path) {
    (p in a <==> p in b) && (p in a ==> a[p] == b[p])
  }

  /** One of the two paths lies at or below the other. */
  predicate Related(p: Path, q: Path) {
    p <= q || q <= p
  }

  predicate Near(p: Path, places: set<Path>) {
    exists d | d in places :: Related(p, d)
  }

  /** Nothing has changed except at, below or on the way to the places. */
  ghost predicate AgreeAway(a: Tree, b: Tree, places: set<Path>) {
    forall p | !Near(p, places) :: Agree(a, b, p)
  }

  lemma AgreeAwayTwice(a: Tree, b: Tree, c: Tree, places: set<Path>)
    requires AgreeAway(a, b, places) && AgreeAway(b, c, places)
    ensures AgreeAway(a, c, places)
  {
  }

  lemma AgreeAwayBack(a: Tree, b: Tree, c: Tree, places: set<Path>)
    requires AgreeAway(a, b, places) && AgreeAway(a, c, places)
    ensures AgreeAway(b, c, places)
  {
    forall p | !Near(p, places)
      ensures Agree(b, c, p)
    {
      assert Agree(a, b, p) && Agree(a, c, p);
    }
  }

  lemma AgreeAwayMore(a: Tree, b: Tree, places: set<Path>, more: set<Path>)
    requires AgreeAway(a, b, places) && places <= more
    ensures AgreeAway(a, b, more)
  {
    forall p | !Near(p, more)
      ensures Agree(a, b, p)
    {
      assert !Near(p, places);
    }
  }

  /** What lies at a path that is not near any changed place is the same as before. */
  lemma SameAt(a: Tree, b: Tree, places: set<Path>, at: Path)
    requires AgreeAway(a, b, places) && !Near(at, places)
    ensures At(a, at) == At(b, at)
  {
    forall rel
      ensures Agree(a, b, at + rel)
    {
      if Near(at + rel, places) {
        var d :| d in places && Related(at + rel, d);
        if d <= at + rel { PrefixesRelated(at, d, at + rel); }
      }
    }
  }

  /** Two paths that lie on the way to a third are related. */
  lemma PrefixesRelated(p: Path, q: Path, whole: Path)
    requires p <= whole && q <= whole
    ensures Related(p, q)
  {
    if |p| <= |q| {
      assert p == whole[..|p|] == q[..|p|];
    } else {
      assert q == whole[..|q|] == p[..|q|];
    }
  }
}
