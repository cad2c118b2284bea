/** Moving a directory tree into another, merging directories that both have. */
module DirTreeMerging {
  import opened FileTrees
  import opened Options

  /** Everything that exists lies in a directory that exists; there is a root. */
  ghost predicate WellFormed(files: Tree) {
    && [] in files && files[[]].Directory?
    && forall p, i | p in files && 0 <= i < |p| :: p[..i] in files && files[p[..i]].Directory?
  }

  function Parent(p: Path): Path
    requires p != []
  {
    p[..|p| - 1]
  }

  function Look(files: Tree, p: Path): Option<Entry> {
    if p in files then Some(files[p]) else None
  }

  lemma SameLooks(a: Tree, b: Tree)
    requires forall p :: Look(a, p) == Look(b, p)
    ensures a == b
  {
    assert forall p :: Look(a, p).Some? <==> p in a;
    assert forall p :: Look(b, p).Some? <==> p in b;
    assert forall p | p in a :: Look(a, p).value == a[p];
    assert forall p | p in b :: Look(b, p).value == b[p];
  }

  /** The names in a directory. */
  function Children(files: Tree, dir: Path): set<string> {
    set p | p in files && |p| == |dir| + 1 && dir <= p :: p[|dir|]
  }

  lemma ChildrenAre(files: Tree, dir: Path)
    ensures forall n :: n in Children(files, dir) <==> dir + [n] in files
  {
    forall n
      ensures n in Children(files, dir) <==> dir + [n] in files
    {
      assert (dir + [n])[|dir|] == n;
      if n in Children(files, dir) {
        var p :| p in files && |p| == |dir| + 1 && dir <= p && p[|dir|] == n;
        assert p == dir + [n];
      }
    }
  }

  // ----- What a merge does

  /** The tree at `src` laid over whatever is at `dest`, and gone from `src`. */
  function Merged(files: Tree, src: Path, dest: Path): Tree {
    Without(files, src) + Rooted(dest, At(files, src))
  }

  /** Whatever exists at the same place in both trees is of the same kind. */
  ghost predicate Fits(files: Tree, src: Path, dest: Path) {
    forall rel | src + rel in files && dest + rel in files ::
        files[src + rel].Directory? == files[dest + rel].Directory?
  }

  /** Something that was at `src + rel` has been moved, or nothing has happened there. */
  ghost predicate MovedOrNot(before: Tree, after: Tree, src: Path, dest: Path, rel: Path) {
    || (Agree(before, after, src + rel) && Agree(before, after, dest + rel))
    || (src + rel !in after &&
        Look(after, dest + rel) == if src + rel in before then Look(before, src + rel) else Look(before, dest + rel))
  }

  /** Some of the tree has been moved. */
  ghost predicate PartlyMerged(before: Tree, after: Tree, src: Path, dest: Path) {
    && (forall p | !(src <= p) && !(dest <= p) :: Agree(before, after, p))
    && (forall rel :: MovedOrNot(before, after, src, dest, rel))
  }

  function LookMerged(files: Tree, src: Path, dest: Path, p: Path): Option<Entry> {
    if src <= p then None
    else if dest <= p && src + Below(p, dest) in files then Look(files, src + Below(p, dest))
    else Look(files, p)
  }

  lemma MergedLooks(files: Tree, src: Path, dest: Path, p: Path)
    requires !Related(src, dest)
    ensures Look(Merged(files, src, dest), p) == LookMerged(files, src, dest, p)
  {
    if src <= p && dest <= p { PrefixesRelated(src, dest, p); }
  }

  /** What is where once the children in `done` have been merged. */
  function LookBetween(files: Tree, src: Path, dest: Path, done: set<string>, p: Path): Option<Entry> {
    if src < p && p[|src|] in done then None
    else if dest < p && p[|dest|] in done && src + Below(p, dest) in files then Look(files, src + Below(p, dest))
    else Look(files, p)
  }

  ghost predicate Between(before: Tree, after: Tree, src: Path, dest: Path, done: set<string>) {
    forall p :: Look(after, p) == LookBetween(before, src, dest, done, p)
  }

  lemma OneMoreMerged(before: Tree, now: Tree, src: Path, dest: Path, done: set<string>, n: string)
    requires !Related(src, dest) && Between(before, now, src, dest, done) && n !in done
    ensures Between(before, Merged(now, src + [n], dest + [n]), src, dest, done + {n})
  {
    hide Look, Merged;
    ChildrenUnrelated(src, dest, n);
    forall p
      ensures Look(Merged(now, src + [n], dest + [n]), p) == LookBetween(before, src, dest, done + {n}, p)
    {
      MergedLooks(now, src + [n], dest + [n], p);
      OneMoreLook(before, now, src, dest, done, n, p);
    }
  }

  lemma ChildrenUnrelated(src: Path, dest: Path, n: string)
    requires !Related(src, dest)
    ensures !Related(src + [n], dest + [n])
  {
    if src + [n] <= dest + [n] {
      PrefixesRelated(src, dest, dest + [n]);
    } else if dest + [n] <= src + [n] {
      PrefixesRelated(src, dest, src + [n]);
    }
  }

  lemma OneMoreLook(before: Tree, now: Tree, src: Path, dest: Path, done: set<string>, n: string, p: Path)
    requires !Related(src, dest) && Between(before, now, src, dest, done) && n !in done
    ensures LookMerged(now, src + [n], dest + [n], p) == LookBetween(before, src, dest, done + {n}, p)
  {
    var s, d := src + [n], dest + [n];
    assert Look(now, p) == LookBetween(before, src, dest, done, p);
    ChildBelow(src, n, p);
    ChildBelow(dest, n, p);
    if d <= p {
      var q := s + Below(p, d);
      assert q == src + Below(p, dest);
      assert src < q && q[|src|] == n;
      assert !(dest <= q) by {
        if dest <= q { PrefixesRelated(src, dest, q); }
      }
      assert Look(now, q) == LookBetween(before, src, dest, done, q) == Look(before, q);
    }
  }

  lemma ChildBelow(dir: Path, n: string, p: Path)
    ensures dir + [n] <= p <==> dir < p && p[|dir|] == n
  {
  }

  // ----- Basic file operations

  lemma RenameKeepsForm(files: Tree, src: Path, dst: Path)
    requires WellFormed(files) && src in files && dst !in files && !Related(src, dst)
    requires Parent(dst) in files && files[Parent(dst)].Directory?
    ensures WellFormed(Merged(files, src, dst))
  {
    var moved := Merged(files, src, dst);
    forall p, i | p in moved && 0 <= i < |p|
      ensures p[..i] in moved && moved[p[..i]].Directory?
    {
      if dst <= p {
        UnderRenamed(files, src, dst, p, i);
      } else {
        assert p in files && !(src <= p);
        assert !(dst <= p[..i]) && !(src <= p[..i]);
      }
    }
  }

  lemma UnderRenamed(files: Tree, src: Path, dst: Path, p: Path, i: nat)
    requires WellFormed(files) && src in files && dst !in files && !Related(src, dst) && dst <= p && i < |p|
    requires Parent(dst) in files && files[Parent(dst)].Directory? && p in Merged(files, src, dst)
    ensures p[..i] in Merged(files, src, dst) && Merged(files, src, dst)[p[..i]].Directory?
  {
    var q := p[..i];
    if i < |dst| {
      assert q == if i == |dst| - 1 then Parent(dst) else Parent(dst)[..i];
      assert !(dst <= q);
      assert src <= q ==> src <= dst;
    } else {
      var rel := Below(p, dst);
      assert !(src <= p) by {
        if src <= p { PrefixesRelated(src, dst, p); }
      }
      assert src + rel in files;
      var k := i - |dst|;
      assert (src + rel)[..|src| + k] == src + rel[..k];
      assert dst <= q && Below(q, dst) == rel[..k];
    }
  }

  lemma DirectoriesKeepForm(files: Tree, path: Path)
    requires WellFormed(files) && CanMake(files, path)
    ensures WellFormed(WithDirectories(files, path))
  {
    var more := WithDirectories(files, path);
    forall p, i | p in more && 0 <= i < |p|
      ensures p[..i] in more && more[p[..i]].Directory?
    {
      if p !in files {
        assert p <= path;
        assert p[..i] == path[..i];
      }
    }
  }

  class FileSystem {
    var files: Tree

    constructor (files: Tree)
      ensures this.files == files
    {
      this.files := files;
    }

    ghost predicate Valid()
      reads this
    {
      WellFormed(files)
    }

    predicate IsDir(p: Path)
      reads this
    {
      p in files && files[p].Directory?
    }

    predicate IsFile(p: Path)
      reads this
    {
      p in files && files[p].File?
    }

    /** Gives the source the new name; fails if that would not be in a directory. */
    method Rename(src: Path, dst: Path) returns (ok: bool)
      requires Valid() && src in files && dst !in files && !Related(src, dst)
      modifies this
      ensures Valid() && (ok <==> old(IsDir(Parent(dst))))
      ensures files == if ok then Merged(old(files), src, dst) else old(files)
    {
      hide WellFormed, Merged;
      ok := IsDir(Parent(dst));
      if ok {
        RenameKeepsForm(files, src, dst);
        files := Merged(files, src, dst);
      }
    }

    method Unlink(p: Path)
      requires Valid() && IsFile(p)
      modifies this
      ensures Valid() && files == old(files) - {p}
    {
      files := files - {p};
    }

    /** Fails unless the directory is empty. */
    method RemoveDirectory(p: Path) returns (ok: bool)
      requires Valid() && IsDir(p) && p != []
      modifies this
      ensures Valid() && (ok <==> !exists q | q in old(files) :: p < q)
      ensures files == if ok then old(files) - {p} else old(files)
    {
      ok := !exists q | q in files :: p < q;
      if ok {
        files := files - {p};
      }
    }

    /** Fails where a file is in the way. */
    method MakeDirectoryIfAbsent(p: Path) returns (ok: bool)
      requires Valid()
      modifies this
      ensures Valid() && (ok <==> CanMake(old(files), p))
      ensures files == if ok then WithDirectories(old(files), p) else old(files)
    {
      hide WellFormed;
      ok := CanMake(files, p);
      if ok {
        DirectoriesKeepForm(files, p);
        files := WithDirectories(files, p);
      }
    }
  }

  // ----- Moving and merging

  ghost function Under(files: Tree, dir: Path): set<Path> {
    set p | p in files && dir <= p
  }

  ghost predicate IsEmpty(files: Tree, dir: Path) {
    forall p | p in files :: !(dir < p)
  }

  /** When moving and merging succeeds. */
  ghost predicate CanMerge(files: Tree, src: Path, dest: Path)
    requires dest != []
  {
    && src in files && files[src].Directory?
    && if dest !in files then CanMake(files, Parent(dest))
       else if files[dest].Directory? then Fits(files, src, dest)
       else IsEmpty(files, src)
  }

  /** What there is after moving and merging has succeeded. */
  function AfterMerge(files: Tree, src: Path, dest: Path): Tree
    requires dest != []
  {
    if dest !in files then Merged(WithDirectories(files, Parent(dest)), src, dest)
    else if files[dest].Directory? then Merged(files, src, dest)
    else Without(files, src)
  }

  lemma NothingMoved(files: Tree, src: Path, dest: Path)
    ensures PartlyMerged(files, files, src, dest)
  {
  }

  lemma NoneDone(files: Tree, src: Path, dest: Path)
    ensures Between(files, files, src, dest, {})
  {
  }

  /** A failed merge of one child, after some others, leaves everything moved or in place. */
  lemma FailedInside(before: Tree, now: Tree, after: Tree, src: Path, dest: Path, done: set<string>, n: string)
    requires !Related(src, dest) && Between(before, now, src, dest, done) && n !in done
    requires PartlyMerged(now, after, src + [n], dest + [n])
    ensures PartlyMerged(before, after, src, dest)
  {
    forall p | !(src <= p) && !(dest <= p)
      ensures Agree(before, after, p)
    {
      ChildBelow(src, n, p);
      ChildBelow(dest, n, p);
      assert Look(now, p) == LookBetween(before, src, dest, done, p) == Look(before, p);
      assert !(src + [n] <= p) && !(dest + [n] <= p);
      assert Agree(now, after, p);
    }
    forall rel
      ensures MovedOrNot(before, after, src, dest, rel)
    {
      InsideOrNot(before, now, after, src, dest, done, n, rel);
    }
  }

  lemma InsideOrNot(before: Tree, now: Tree, after: Tree, src: Path, dest: Path, done: set<string>, n: string,
                    rel: Path)
    requires !Related(src, dest) && Between(before, now, src, dest, done) && n !in done
    requires PartlyMerged(now, after, src + [n], dest + [n])
    ensures MovedOrNot(before, after, src, dest, rel)
  {
    hide LookBetween, Between, MovedOrNot;
    var s, d := src + rel, dest + rel;
    BetweenAt(before, now, src, dest, done, rel);
    if rel != [] && rel[0] == n {
      assert s == src + [n] + rel[1..] && d == dest + [n] + rel[1..];
      assert MovedOrNot(now, after, src + [n], dest + [n], rel[1..]);
      MovedLater(before, now, after, src, dest, n, rel);
    } else {
      ChildBelow(src, n, s);
      ChildBelow(dest, n, s);
      ChildBelow(src, n, d);
      ChildBelow(dest, n, d);
      BothBelow(src, dest, rel);
      assert Agree(now, after, s) && Agree(now, after, d);
      StillMovedOrNot(before, now, after, src, dest, rel);
    }
  }

  lemma BothBelow(src: Path, dest: Path, rel: Path)
    requires !Related(src, dest)
    ensures !(dest <= src + rel) && !(src <= dest + rel)
  {
    if dest <= src + rel { PrefixesRelated(src, dest, src + rel); }
    if src <= dest + rel { PrefixesRelated(src, dest, dest + rel); }
  }

  lemma StillMovedOrNot(before: Tree, now: Tree, after: Tree, src: Path, dest: Path, rel: Path)
    requires MovedOrNot(before, now, src, dest, rel) && Agree(now, after, src + rel) && Agree(now, after, dest + rel)
    ensures MovedOrNot(before, after, src, dest, rel)
  {
  }

  lemma MovedLater(before: Tree, now: Tree, after: Tree, src: Path, dest: Path, n: string, rel: Path)
    requires rel != [] && Agree(before, now, src + rel) && Agree(before, now, dest + rel)
    requires src + rel == src + [n] + rel[1..] && dest + rel == dest + [n] + rel[1..]
    requires MovedOrNot(now, after, src + [n], dest + [n], rel[1..])
    ensures MovedOrNot(before, after, src, dest, rel)
  {
  }

  /** Between two children everything has been moved or is in place. */
  lemma BetweenAt(before: Tree, now: Tree, src: Path, dest: Path, done: set<string>, rel: Path)
    requires !Related(src, dest) && Between(before, now, src, dest, done)
    ensures MovedOrNot(before, now, src, dest, rel)
    ensures rel == [] || rel[0] !in done ==> Agree(before, now, src + rel) && Agree(before, now, dest + rel)
  {
    var s, d := src + rel, dest + rel;
    BothBelow(src, dest, rel);
    BelowJoined(src, rel);
    BelowJoined(dest, rel);
    assert Look(now, s) == LookBetween(before, src, dest, done, s);
    assert Look(now, d) == LookBetween(before, src, dest, done, d);
  }

  /** What the merge of a child finds is what was there at the start. */
  lemma ChildAsBefore(before: Tree, now: Tree, src: Path, dest: Path, done: set<string>, n: string)
    requires !Related(src, dest) && Between(before, now, src, dest, done) && n !in done
    ensures Fits(now, src + [n], dest + [n]) <==> Fits(before, src + [n], dest + [n])
    ensures src + [n] in now <==> src + [n] in before
    ensures src in before ==> Under(now, src + [n]) < Under(before, src)
  {
    hide MovedOrNot;
    forall rel
      ensures Agree(before, now, src + [n] + rel) && Agree(before, now, dest + [n] + rel)
    {
      assert src + [n] + rel == src + ([n] + rel) && dest + [n] + rel == dest + ([n] + rel);
      BetweenAt(before, now, src, dest, done, [n] + rel);
    }
    assert src + [n] == src + [n] + [];
    forall p | p in Under(now, src + [n])
      ensures p in Under(before, src) && p != src
    {
      assert p == src + [n] + Below(p, src + [n]);
    }
    if src in before {
      assert src in Under(before, src);
    }
  }

  /** A directory fits when its children do. */
  lemma FitsByChildren(files: Tree, src: Path, dest: Path)
    requires WellFormed(files) && src in files && dest in files && files[src].Directory? == files[dest].Directory?
    requires forall n | n in Children(files, src) :: Fits(files, src + [n], dest + [n])
    ensures Fits(files, src, dest)
  {
    forall rel | src + rel in files && dest + rel in files
      ensures files[src + rel].Directory? == files[dest + rel].Directory?
    {
      if rel == [] {
        assert src + rel == src && dest + rel == dest;
      } else {
        var n := rel[0];
        assert (src + rel)[..|src| + 1] == src + [n];
        assert |src| + 1 < |src + rel| ==> src + [n] in files;
        ChildrenAre(files, src);
        assert src + rel == src + [n] + rel[1..] && dest + rel == dest + [n] + rel[1..];
      }
    }
  }

  lemma ChildMisfit(files: Tree, src: Path, dest: Path, n: string)
    requires !Fits(files, src + [n], dest + [n])
    ensures !Fits(files, src, dest)
  {
    var rel :| src + [n] + rel in files && dest + [n] + rel in files &&
               files[src + [n] + rel].Directory? != files[dest + [n] + rel].Directory?;
    assert src + [n] + rel == src + ([n] + rel) && dest + [n] + rel == dest + ([n] + rel);
  }

  /** With all children merged nothing is left in the source, and removing it completes the merge. */
  lemma AllDone(before: Tree, now: Tree, src: Path, dest: Path)
    requires WellFormed(before) && !Related(src, dest) && Between(before, now, src, dest, Children(before, src))
    requires src in before && dest in before && before[src].Directory? && before[dest].Directory?
    ensures IsEmpty(now, src) && src in now && now[src].Directory?
    ensures now - {src} == Merged(before, src, dest)
  {
    hide Merged;
    ChildrenAre(before, src);
    assert Look(now, src) == LookBetween(before, src, dest, Children(before, src), src);
    forall p
      ensures Look(now - {src}, p) == Look(Merged(before, src, dest), p)
      ensures src < p ==> p !in now
    {
      MergedLooks(before, src, dest, p);
      AllDoneLook(before, now, src, dest, p);
    }
    SameLooks(now - {src}, Merged(before, src, dest));
  }

  lemma ChildOnTheWay(files: Tree, dir: Path, rel: Path)
    requires WellFormed(files) && dir + rel in files && rel != []
    ensures rel[0] in Children(files, dir)
  {
    var q := dir + rel;
    ChildrenAre(files, dir);
    assert q[..|dir| + 1] == dir + [rel[0]];
    assert |dir| + 1 < |q| ==> q[..|dir| + 1] in files;
    assert |dir| + 1 == |q| ==> q[..|dir| + 1] == q;
  }

  lemma AllDoneLook(before: Tree, now: Tree, src: Path, dest: Path, p: Path)
    requires WellFormed(before) && !Related(src, dest) && Between(before, now, src, dest, Children(before, src))
    requires src in before && dest in before && before[src].Directory? && before[dest].Directory?
    ensures Look(now - {src}, p) == LookMerged(before, src, dest, p)
    ensures src < p ==> p !in now
  {
    var done := Children(before, src);
    assert Look(now, p) == LookBetween(before, src, dest, done, p);
    if src <= p {
      BothBelow(dest, src, Below(p, src));
      if p != src && p in before {
        ChildOnTheWay(before, src, Below(p, src));
        assert p[|src|] == Below(p, src)[0];
      }
    } else if dest <= p {
      AllDoneInDest(before, src, dest, Below(p, dest));
    }
  }

  lemma AllDoneInDest(before: Tree, src: Path, dest: Path, rel: Path)
    requires WellFormed(before) && !Related(src, dest)
    requires src in before && dest in before && before[src].Directory? && before[dest].Directory?
    ensures LookBetween(before, src, dest, Children(before, src), dest + rel) ==
            LookMerged(before, src, dest, dest + rel)
  {
    BothBelow(src, dest, rel);
    BelowJoined(dest, rel);
    if rel == [] {
      assert src + rel == src && dest + rel == dest;
    } else {
      assert (dest + rel)[|dest|] == rel[0];
      if src + rel in before {
        ChildOnTheWay(before, src, rel);
      }
    }
  }

  /** Moving one item of a directory to where the item of the same name is, or would be. */
  method MergeItem(fs: FileSystem, source: Path, destination: Path) returns (ok: bool)
    requires fs.Valid() && !Related(source, destination) && source in fs.files
    modifies fs
    ensures fs.Valid()
    ensures ok <==> old(fs.IsDir(Parent(destination))) && Fits(old(fs.files), source, destination)
    ensures ok ==> fs.files == Merged(old(fs.files), source, destination)
    ensures !ok ==> PartlyMerged(old(fs.files), fs.files, source, destination)
    decreases Under(fs.files, source), 2
  {
    hide Merged;
    NothingMoved(fs.files, source, destination);
    if destination in fs.files {
      assert source + [] == source && destination + [] == destination;
      if fs.IsDir(destination) && fs.IsDir(source) {
        ok := MoveAndMergeDirTree(fs, source, destination);
      } else if fs.IsFile(destination) && fs.IsFile(source) {
        OverwriteIsMerge(fs.files, source, destination);
        fs.Unlink(destination);
        ok := fs.Rename(source, destination);
      } else {
        return false;
      }
    } else {
      NothingBelow(fs.files, destination);
      ok := fs.Rename(source, destination);
    }
  }

  lemma NothingBelow(files: Tree, p: Path)
    requires WellFormed(files) && (p !in files || files[p].File?)
    ensures forall q | q in files :: !(p < q)
  {
    forall q | q in files
      ensures !(p < q)
    {
      if |p| < |q| {
        var front := q[..|p|];
        assert front in files && files[front].Directory?;
        assert p <= q ==> p == front;
      }
    }
  }

  lemma OverwriteIsMerge(files: Tree, source: Path, destination: Path)
    requires WellFormed(files) && !Related(source, destination) && source in files && destination in files
    requires files[source].File? && files[destination].File?
    ensures Merged(files - {destination}, source, destination) == Merged(files, source, destination)
    ensures Fits(files, source, destination) && Parent(destination) in files - {destination}
  {
    hide Merged;
    NothingBelow(files, source);
    NothingBelow(files, destination);
    assert source + [] == source && destination + [] == destination;
    forall rel | source + rel in files
      ensures rel == []
    {
      assert !(source < source + rel) && source <= source + rel;
    }
    var less := files - {destination};
    forall p
      ensures Look(Merged(less, source, destination), p) == Look(Merged(files, source, destination), p)
    {
      MergedLooks(less, source, destination, p);
      MergedLooks(files, source, destination, p);
      if destination <= p {
        BothBelow(source, destination, Below(p, destination));
      }
    }
    SameLooks(Merged(less, source, destination), Merged(files, source, destination));
  }

  /**
   * Moves everything from one directory to another. It succeeds exactly if nothing that exists in both is a directory
   * in one and a file in the other; the source is then gone and laid over the destination. Whether or not it succeeds,
   * everything in the source is still there or has been moved to its place in the destination.
   */
  method MoveAndMergeDirTree(fs: FileSystem, src: Path, dest: Path) returns (ok: bool)
    requires fs.Valid() && !Related(src, dest)
    modifies fs
    ensures fs.Valid() && (ok <==> CanMerge(old(fs.files), src, dest))
    ensures ok ==> fs.files == AfterMerge(old(fs.files), src, dest)
    ensures !ok ==> PartlyMerged(old(fs.files), fs.files, src, dest)
    decreases Under(fs.files, src), 1
  {
    hide WellFormed, Merged, Between, PartlyMerged, Fits, CanMake, WithDirectories;
    NothingMoved(fs.files, src, dest);
    if !fs.IsDir(src) {
      return false;
    }
    RootFirst(fs.files, src, dest);
    ghost var before := fs.files;
    if dest !in fs.files {
      ok := fs.MakeDirectoryIfAbsent(Parent(dest));
      if ok {
        ok := fs.Rename(src, dest);
      }
    } else {
      var isDir := fs.IsDir(dest);
      ok := MergeItems(fs, src, dest);
      if ok {
        if isDir {
          AllDone(before, fs.files, src, dest);
        } else {
          EmptyGone(before, src);
        }
        ok := fs.RemoveDirectory(src);
      }
    }
  }

  lemma RootsStay(before: Tree, now: Tree, src: Path, dest: Path, done: set<string>)
    requires !Related(src, dest) && Between(before, now, src, dest, done)
    ensures Agree(before, now, src) && Agree(before, now, dest)
  {
    assert src + [] == src && dest + [] == dest;
    BetweenAt(before, now, src, dest, done, []);
  }

  lemma RootFirst(files: Tree, src: Path, dest: Path)
    requires WellFormed(files) && !Related(src, dest)
    ensures src != [] && dest != []
    ensures dest !in files && CanMake(files, Parent(dest)) ==>
              var more := WithDirectories(files, Parent(dest));
              (src in files ==> src in more) && dest !in more && Parent(dest) in more && more[Parent(dest)].Directory?
  {
    if dest !in files {
      assert !(dest <= Parent(dest));
    }
  }

  lemma EmptyGone(files: Tree, src: Path)
    requires IsEmpty(files, src)
    ensures files - {src} == Without(files, src)
  {
    forall p | p in files && src <= p
      ensures p == src
    {
      assert |p| == |src|;
    }
  }

  /** The loop over the items of a directory, in whatever order the items come. */
  method MergeItems(fs: FileSystem, src: Path, dest: Path) returns (ok: bool)
    requires fs.Valid() && !Related(src, dest) && fs.IsDir(src) && dest in fs.files
    modifies fs
    ensures fs.Valid()
    ensures ok <==> if old(fs.IsDir(dest)) then Fits(old(fs.files), src, dest) else IsEmpty(old(fs.files), src)
    ensures ok && old(fs.IsDir(dest)) ==> Between(old(fs.files), fs.files, src, dest, Children(old(fs.files), src))
    ensures ok && !old(fs.IsDir(dest)) ==> fs.files == old(fs.files)
    ensures !ok ==> PartlyMerged(old(fs.files), fs.files, src, dest)
    decreases Under(fs.files, src), 0
  {
    hide WellFormed, Merged, Fits, Between, PartlyMerged, IsEmpty, Related, Under;
    ghost var before := fs.files;
    var items := Children(fs.files, src);
    ghost var done: set<string> := {};
    NoneDone(before, src, dest);
    ChildrenAre(before, src);
    while items != {}
      invariant fs.Valid() && Between(before, fs.files, src, dest, done)
      invariant done + items == Children(before, src) && done * items == {}
      invariant forall n | n in done :: fs.IsDir(dest) && Fits(before, src + [n], dest + [n])
      invariant fs.IsDir(dest) == old(fs.IsDir(dest))
      decreases items
    {
      var n :| n in items;
      ghost var now := fs.files;
      ChildrenUnrelated(src, dest, n);
      ChildAsBefore(before, now, src, dest, done, n);
      RootsStay(before, now, src, dest, done);
      assert Parent(dest + [n]) == dest;
      ok := MergeItem(fs, src + [n], dest + [n]);
      if !ok {
        FailedInside(before, now, fs.files, src, dest, done, n);
        if old(fs.IsDir(dest)) { ChildMisfit(before, src, dest, n); }
        HasChildren(before, src, n);
        return false;
      }
      OneMoreMerged(before, now, src, dest, done, n);
      items, done := items - {n}, done + {n};
      RootsStay(before, fs.files, src, dest, done);
    }
    assert done == Children(before, src);
    if fs.IsDir(dest) {
      RootsStay(before, fs.files, src, dest, done);
      FitsByChildren(before, src, dest);
    } else {
      assert done == {};
      NoChildren(before, src);
      NothingChanged(before, fs.files, src, dest);
    }
    return true;
  }

  lemma NoChildren(files: Tree, dir: Path)
    requires WellFormed(files) && Children(files, dir) == {}
    ensures IsEmpty(files, dir)
  {
    forall p | p in files
      ensures !(dir < p)
    {
      if dir <= p && p != dir {
        ChildOnTheWay(files, dir, Below(p, dir));
      }
    }
  }

  lemma HasChildren(files: Tree, dir: Path, n: string)
    requires n in Children(files, dir)
    ensures !IsEmpty(files, dir)
  {
    ChildrenAre(files, dir);
    assert dir < dir + [n];
  }

  lemma NothingChanged(before: Tree, now: Tree, src: Path, dest: Path)
    requires Between(before, now, src, dest, {})
    ensures now == before
  {
    forall p
      ensures Look(now, p) == Look(before, p)
    {
      assert Look(now, p) == LookBetween(before, src, dest, {}, p);
    }
    SameLooks(now, before);
  }

  // ----- What this means for the caller

  /** Merging into something that exists fails on a mismatch, except that an empty source is dropped on a file. */
  lemma SucceedsIff(files: Tree, src: Path, dest: Path)
    requires WellFormed(files) && !Related(src, dest) && src in files && files[src].Directory? && dest in files
    ensures CanMerge(files, src, dest) <==> Fits(files, src, dest) || (files[dest].File? && IsEmpty(files, src))
  {
    assert src + [] == src && dest + [] == dest;
  }

  /** An empty directory moved onto a file: no common path fits, and yet the move succeeds. */
  lemma EmptyOntoFile(files: Tree)
    requires files == map[[] := Directory, ["a"] := Directory, ["b"] := File("text")]
    ensures WellFormed(files) && !Related(["a"], ["b"])
    ensures !Fits(files, ["a"], ["b"]) && CanMerge(files, ["a"], ["b"])
    ensures AfterMerge(files, ["a"], ["b"]) == map[[] := Directory, ["b"] := File("text")]
  {
    var a: Path, b: Path := ["a"], ["b"];
    assert a[..0] == [] && b[..0] == [];
    assert a + [] == a && b + [] == b;
    assert a[0] != b[0];
  }

  lemma MergedIsPartly(files: Tree, src: Path, dest: Path)
    requires !Related(src, dest)
    ensures PartlyMerged(files, Merged(files, src, dest), src, dest)
  {
    hide Merged;
    var after := Merged(files, src, dest);
    forall p | !(src <= p) && !(dest <= p)
      ensures Agree(files, after, p)
    {
      MergedLooks(files, src, dest, p);
    }
    forall rel
      ensures MovedOrNot(files, after, src, dest, rel)
    {
      BothBelow(src, dest, rel);
      BelowJoined(src, rel);
      BelowJoined(dest, rel);
      MergedLooks(files, src, dest, src + rel);
      MergedLooks(files, src, dest, dest + rel);
    }
  }

  /** However a move ends, no file of the source is lost, and no other file but what it replaces. */
  lemma NothingLost(files: Tree, after: Tree, src: Path, dest: Path, rel: Path)
    requires WellFormed(files) && !Related(src, dest) && dest != []
    requires PartlyMerged(files, after, src, dest) ||
             (CanMerge(files, src, dest) && after == AfterMerge(files, src, dest))
    ensures src + rel in files && files[src + rel].File? ==>
              Look(after, src + rel) == Look(files, src + rel) || Look(after, dest + rel) == Look(files, src + rel)
    ensures dest + rel in files && src + rel !in files ==> Look(after, dest + rel) == Look(files, dest + rel)
    ensures forall p | p in files && !(src <= p) && !(dest <= p) :: Look(after, p) == Look(files, p)
  {
    hide Merged, WellFormed, CanMake, WithDirectories;
    if PartlyMerged(files, after, src, dest) {
      LostByMerging(files, after, src, dest, rel);
    } else if dest !in files {
      LostByMoving(files, src, dest, rel);
    } else if files[dest].Directory? {
      MergedIsPartly(files, src, dest);
      LostByMerging(files, after, src, dest, rel);
    } else {
      DroppedOnly(files, src, dest, rel);
    }
  }

  lemma LostByMerging(files: Tree, after: Tree, src: Path, dest: Path, rel: Path)
    requires PartlyMerged(files, after, src, dest)
    ensures src + rel in files ==>
              Look(after, src + rel) == Look(files, src + rel) || Look(after, dest + rel) == Look(files, src + rel)
    ensures dest + rel in files && src + rel !in files ==> Look(after, dest + rel) == Look(files, dest + rel)
    ensures forall p | p in files && !(src <= p) && !(dest <= p) :: Look(after, p) == Look(files, p)
  {
    assert MovedOrNot(files, after, src, dest, rel);
    forall p | p in files && !(src <= p) && !(dest <= p)
      ensures Look(after, p) == Look(files, p)
    {
      assert Agree(files, after, p);
    }
  }

  lemma LostByMoving(files: Tree, src: Path, dest: Path, rel: Path)
    requires WellFormed(files) && !Related(src, dest) && dest != [] && dest !in files
    ensures var after := AfterMerge(files, src, dest);
            && (src + rel in files ==> Look(after, dest + rel) == Look(files, src + rel))
            && dest + rel !in files
            && forall p | p in files && !(src <= p) && !(dest <= p) :: Look(after, p) == Look(files, p)
  {
    hide Merged, WellFormed, CanMake;
    var more, parent := WithDirectories(files, Parent(dest)), Parent(dest);
    NothingBelow(files, dest);
    var after := Merged(more, src, dest);
    BothBelow(src, dest, rel);
    BelowJoined(dest, rel);
    MergedLooks(more, src, dest, dest + rel);
    assert rel == [] ==> dest + rel == dest;
    assert rel != [] ==> dest < dest + rel;
    forall p | p in files && !(src <= p) && !(dest <= p)
      ensures Look(after, p) == Look(files, p)
    {
      MergedLooks(more, src, dest, p);
    }
  }

  lemma DroppedOnly(files: Tree, src: Path, dest: Path, rel: Path)
    requires !Related(src, dest) && dest in files && files[dest].File? && src in files && files[src].Directory?
    requires IsEmpty(files, src)
    ensures !(src + rel in files && files[src + rel].File?)
    ensures Look(Without(files, src), dest + rel) == Look(files, dest + rel)
  {
    BothBelow(src, dest, rel);
    assert rel == [] ==> src + rel == src;
    assert rel != [] ==> src < src + rel;
  }
}
