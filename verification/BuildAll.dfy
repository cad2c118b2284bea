/** Building packages in dependency order: why remembered hashes of inputs never go stale on the way. */
module PackageBuilds {
  import opened BuildOrdering
  import opened Digraph
  import opened FileTrees
  import opened OnceCache
  import opened Options

  /** A package that is built, as opposed to one that is only checked out. */
  datatype Package = Package(
    commands: seq<Command>,
    dependencies: seq<string>,
    inputs: Option<map<string, Path>>,
    outputSubdir: Option<Path>)

  /** What went into one package's signature, and whether the store had the result. */
  datatype Record = Record(package: string, commands: seq<Command>, signature: string, reused: bool)

  datatype BuildOutcome = Skipped | Completed(record: Record) | Raised

  /** The options of a build, and where it takes its sources from and puts its results. */
  datatype Plan = Plan(packages: map<string, Package>, source: Path, output: Path, clobber: bool,
                       syncSourcesOnly: bool) {

    function DependencyLists(): map<string, seq<string>> {
      map p | p in packages :: packages[p].dependencies
    }

    function InstallDir(package: string): Path {
      output + [package + "_install"]
    }

    function GetOutputDir(package: string, useSubdir: bool): Path
      requires package in packages
    {
      var root := InstallDir(package);
      if useSubdir && packages[package].outputSubdir.Some? then root + packages[package].outputSubdir.value else root
    }

    function WorkDir(package: string): Path {
      output + [package + "_work"]
    }

    /** What building the package may change. */
    function OutPlaces(package: string): set<Path> {
      Places(InstallDir(package), Some(WorkDir(package)))
    }

    function ExplicitInputs(package: string): map<string, Path>
      requires package in packages
    {
      if packages[package].inputs.Some? then packages[package].inputs.value else map["src" := source + [package]]
    }

    predicate DependenciesKnown(package: string)
      requires package in packages
    {
      forall d | d in packages[package].dependencies :: d in packages
    }

    /** A name that is both an explicit input and a dependency is refused; the default input gives way. */
    predicate InputsClash(package: string)
      requires package in packages
    {
      packages[package].inputs.Some? && exists d | d in packages[package].dependencies ::
          d in packages[package].inputs.value
    }

    function Inputs(package: string): map<string, Path>
      requires package in packages && DependenciesKnown(package)
    {
      ExplicitInputs(package) + map d | d in packages[package].dependencies :: GetOutputDir(d, true)
    }

    /** The signature computed from the files alone, with nothing remembered. */
    function UncachedSignature(tools: Tools, record: Record, files: Tree): string
      requires record.package in packages && DependenciesKnown(record.package)
    {
      Signature(tools, record.package, record.commands, HashesNow(tools, Inputs(record.package), files))
    }

    /** Not touched by building any package. */
    ghost predicate Untouched(path: Path) {
      forall p | p in packages :: !Near(path, OutPlaces(p))
    }

    /** Explicit inputs are disjoint from all outputs, and each package's commands keep to its own places. */
    ghost predicate WellBehaved() {
      forall p | p in packages ::
        && Confined(packages[p].commands, OutPlaces(p))
        && forall name | name in ExplicitInputs(p) :: Untouched(ExplicitInputs(p)[name])
    }

    /** Outside every output, or the output of a package that has been built. */
    ghost predicate Settled(path: Path, built: set<string>) {
      Untouched(path) || exists d :: d in built && d in packages && path == GetOutputDir(d, true)
    }
  }

  function HashesNow(tools: Tools, inputs: map<string, Path>, files: Tree): map<string, string> {
    map name | name in inputs :: CurrentHash(tools, files, inputs[name])
  }

  /** Every remembered hash is that of the path's contents now, and the path will not change any more. */
  ghost predicate CacheCurrent(plan: Plan, tools: Tools, cache: map<Path, string>, files: Tree, built: set<string>) {
    forall path | path in cache :: cache[path] == CurrentHash(tools, files, path) && plan.Settled(path, built)
  }

  ghost function Elements(s: seq<string>): set<string> {
    set x | x in s
  }

  lemma EmptyCurrent(plan: Plan, tools: Tools, files: Tree, built: set<string>)
    ensures CacheCurrent(plan, tools, map[], files, built)
  {
  }

  lemma CurrentSays(plan: Plan, tools: Tools, cache: map<Path, string>, files: Tree, built: set<string>)
    requires CacheCurrent(plan, tools, cache, files, built)
    ensures forall path | path in cache :: cache[path] == CurrentHash(tools, files, path)
  {
  }

  lemma MoreBuilt(plan: Plan, tools: Tools, cache: map<Path, string>, files: Tree, built: set<string>,
                  more: set<string>)
    requires CacheCurrent(plan, tools, cache, files, built) && built <= more
    ensures CacheCurrent(plan, tools, cache, files, more)
  {
  }

  // ----- Separate places

  lemma SiblingsUnrelated(parent: Path, a: string, b: string, below: Path)
    requires a != b
    ensures !Related(parent + [a] + below, parent + [b])
  {
    var p, q := parent + [a] + below, parent + [b];
    assert p[|parent|] == a && q[|parent|] == b;
  }

  lemma SuffixesDiffer(a: string, b: string, suffixA: string, suffixB: string)
    requires |suffixA| > 0 && |suffixB| > 0 && a + suffixA == b + suffixB
    ensures suffixA[|suffixA| - 1] == suffixB[|suffixB| - 1]
    ensures |suffixA| == |suffixB| ==> a == b
  {
    var whole := a + suffixA;
    assert whole[|whole| - 1] == suffixA[|suffixA| - 1] == suffixB[|suffixB| - 1];
    if |suffixA| == |suffixB| {
      assert a == whole[..|whole| - |suffixA|] == b;
    }
  }

  /** Building one package leaves the output of another alone. */
  lemma OutputsApart(plan: Plan, package: string, other: string)
    requires package in plan.packages && package != other
    ensures !Near(plan.GetOutputDir(package, true), plan.OutPlaces(other))
  {
    var dir := plan.GetOutputDir(package, true);
    var below := if plan.packages[package].outputSubdir.Some? then plan.packages[package].outputSubdir.value else [];
    assert dir == plan.output + [package + "_install"] + below;
    if package + "_install" == other + "_install" {
      SuffixesDiffer(package, other, "_install", "_install");
    }
    if package + "_install" == other + "_work" {
      SuffixesDiffer(package, other, "_install", "_work");
    }
    SiblingsUnrelated(plan.output, package + "_install", other + "_install", below);
    SiblingsUnrelated(plan.output, package + "_install", other + "_work", below);
  }

  lemma SettledStays(plan: Plan, tools: Tools, path: Path, built: set<string>, package: string, before: Tree,
                     after: Tree)
    requires plan.Settled(path, built) && package in plan.packages && package !in built
    requires AgreeAway(before, after, plan.OutPlaces(package))
    ensures CurrentHash(tools, before, path) == CurrentHash(tools, after, path)
  {
    if !plan.Untouched(path) {
      var d :| d in built && d in plan.packages && path == plan.GetOutputDir(d, true);
      OutputsApart(plan, d, package);
    }
    SameAt(before, after, plan.OutPlaces(package), path);
  }

  lemma CacheStaysCurrent(plan: Plan, tools: Tools, cache: map<Path, string>, built: set<string>, package: string,
                          before: Tree, after: Tree)
    requires CacheCurrent(plan, tools, cache, before, built) && package in plan.packages && package !in built
    requires AgreeAway(before, after, plan.OutPlaces(package))
    ensures CacheCurrent(plan, tools, cache, after, built)
  {
    hide CurrentHash;
    forall path | path in cache
      ensures cache[path] == CurrentHash(tools, after, path)
    {
      SettledStays(plan, tools, path, built, package, before, after);
    }
  }

  /** A package's inputs do not change any more once its dependencies have been built. */
  lemma InputsSettled(plan: Plan, package: string, built: set<string>, name: string)
    requires plan.WellBehaved() && package in plan.packages && plan.DependenciesKnown(package)
    requires forall d | d in plan.packages[package].dependencies :: d in built
    requires name in plan.Inputs(package)
    ensures plan.Settled(plan.Inputs(package)[name], built)
  {
    if name !in plan.packages[package].dependencies {
      assert name in plan.ExplicitInputs(package);
    }
  }

  /** With an up-to-date cache, signatures are those computed from the files. */
  lemma CacheUsable(plan: Plan, tools: Tools, cache: map<Path, string>, files: Tree, inputs: map<string, Path>,
                    built: set<string>)
    requires CacheCurrent(plan, tools, cache, files, built)
    requires forall name | name in inputs :: plan.Settled(inputs[name], built)
    ensures SeenHashes(tools, cache, files, inputs) == HashesNow(tools, inputs, files)
    ensures CacheCurrent(plan, tools, Remembered(tools, cache, files, inputs), files, built)
  {
    hide CurrentHash;
    var more := Remembered(tools, cache, files, inputs);
    forall path | path in more
      ensures more[path] == CurrentHash(tools, files, path) && plan.Settled(path, built)
    {
      if path !in cache {
        var name :| name in inputs && inputs[name] == path;
      }
    }
  }

  /** Building another package does not change what a package's inputs hash to. */
  lemma HashesStay(plan: Plan, tools: Tools, inputs: map<string, Path>, built: set<string>, package: string,
                   before: Tree, after: Tree)
    requires forall name | name in inputs :: plan.Settled(inputs[name], built)
    requires package in plan.packages && package !in built && AgreeAway(before, after, plan.OutPlaces(package))
    ensures HashesNow(tools, inputs, before) == HashesNow(tools, inputs, after)
  {
    hide CurrentHash;
    forall name | name in inputs
      ensures CurrentHash(tools, before, inputs[name]) == CurrentHash(tools, after, inputs[name])
    {
      SettledStays(plan, tools, inputs[name], built, package, before, after);
    }
  }

  /** A signature that is right for the files stays right while another package is built. */
  lemma SignatureStays(plan: Plan, tools: Tools, record: Record, built: set<string>, package: string, before: Tree,
                       after: Tree)
    requires plan.WellBehaved() && record.package in plan.packages && plan.DependenciesKnown(record.package)
    requires forall d | d in plan.packages[record.package].dependencies :: d in built
    requires package in plan.packages && package !in built && AgreeAway(before, after, plan.OutPlaces(package))
    ensures plan.UncachedSignature(tools, record, before) == plan.UncachedSignature(tools, record, after)
  {
    hide HashesNow;
    var inputs := plan.Inputs(record.package);
    forall name | name in inputs
      ensures plan.Settled(inputs[name], built)
    {
      InputsSettled(plan, record.package, built, name);
    }
    HashesStay(plan, tools, inputs, built, package, before, after);
  }

  /** At every point of a buildable order, what is before the point is closed under dependencies. */
  lemma BuiltSoFar(plan: Plan, order: seq<string>, i: nat)
    requires Buildable(plan.DependencyLists(), order) && i < |order|
    ensures order[i] in plan.packages && order[i] !in order[..i] && order[..i + 1] == order[..i] + [order[i]]
    ensures forall p | p in order[..i + 1] :: p in plan.packages && plan.DependenciesKnown(p) &&
                                              forall d | d in plan.packages[p].dependencies :: d in order[..i]
  {
    forall k | 0 <= k <= i
      ensures order[k] in plan.packages && plan.DependenciesKnown(order[k]) &&
              forall d | d in plan.packages[order[k]].dependencies :: d in order[..i]
    {
      assert order[k] in plan.DependencyLists();
      forall d | d in plan.packages[order[k]].dependencies
        ensures d in plan.packages && d in order[..i]
      {
        assert d in plan.DependencyLists()[order[k]];
        var j :| 0 <= j < k && order[j] == d;
        assert order[j] in plan.DependencyLists();
      }
    }
  }

  // ----- What a build leaves for the next

  /** Unpacking gives back exactly the directory that was packed. */
  ghost predicate ExactArchives(tools: Tools) {
    forall t: Tree | IsDirectory(t) :: Restored(tools, tools.pack(t)) == t
  }

  /** A signature tells the package it was computed for. */
  ghost predicate TellsPackage(tools: Tools) {
    forall m, m' | tools.sign(m) == tools.sign(m') :: m.package == m'.package
  }

  /** Everything published was published under a signature of its package. */
  ghost predicate Signed(tools: Tools, published: set<Publication>) {
    forall p | p in published :: IsSignatureOf(tools, p.signature, p.package)
  }

  ghost predicate IsSignatureOf(tools: Tools, signature: string, package: string) {
    exists m :: tools.sign(m) == signature && m.package == package
  }

  /** The output on disk is the one that the store has under this signature. */
  ghost predicate Kept(plan: Plan, tools: Tools, package: string, signature: string, files: Tree,
                       data: map<string, string>)
  {
    && SignatureKey(signature) in data
    && var key := ObjectKey(package, data[SignatureKey(signature)]);
    && key in data && At(files, plan.InstallDir(package)) == Restored(tools, data[key])
  }

  /** The signature of a package built from scratch. */
  function CleanSignature(plan: Plan, tools: Tools, package: string, files: Tree): string
    requires package in plan.packages && plan.DependenciesKnown(package)
  {
    plan.UncachedSignature(tools, Record(package, plan.packages[package].commands, "", false), files)
  }

  /** Every output on disk is the one that the store has under the signature a build from scratch would use. */
  ghost predicate AllKept(plan: Plan, tools: Tools, order: seq<string>, files: Tree, data: map<string, string>) {
    forall p | p in order ::
      p in plan.packages && plan.DependenciesKnown(p) &&
          Kept(plan, tools, p, CleanSignature(plan, tools, p, files), files, data)
  }

  lemma SignatureIsSigned(tools: Tools, package: string, commands: seq<Command>, items: map<string, string>)
    ensures IsSignatureOf(tools, Signature(tools, package, commands, items), package)
  {
    assert Material(package, tools.summary, Texts(commands), items).package == package;
  }

  lemma SignedMore(tools: Tools, published: set<Publication>, more: set<Publication>, package: string,
                   signature: string)
    requires IsSignatureOf(tools, signature, package)
    requires more == published || exists hash :: more == published + {Publication(package, signature, hash)}
    ensures Signed(tools, published) ==> Signed(tools, more)
  {
  }

  lemma SignedTells(tools: Tools, published: set<Publication>, signature: string, package: string)
    requires TellsPackage(tools) && Signed(tools, published) && IsSignatureOf(tools, signature, package)
    ensures SignatureOf(published, signature, package)
  {
    var m :| tools.sign(m) == signature && m.package == package;
    forall p | p in published && p.signature == signature
      ensures p.package == package
    {
      assert IsSignatureOf(tools, p.signature, p.package);
    }
  }

  lemma InstallApart(plan: Plan, package: string, other: string)
    requires package != other
    ensures !Near(plan.InstallDir(package), plan.OutPlaces(other))
  {
    if package + "_install" == other + "_install" {
      SuffixesDiffer(package, other, "_install", "_install");
    }
    if package + "_install" == other + "_work" {
      SuffixesDiffer(package, other, "_install", "_work");
    }
    assert plan.InstallDir(package) == plan.output + [package + "_install"] + [];
    SiblingsUnrelated(plan.output, package + "_install", other + "_install", []);
    SiblingsUnrelated(plan.output, package + "_install", other + "_work", []);
  }

  lemma AtInside(a: Tree, b: Tree, dir: Path, sub: Path)
    requires At(a, dir) == At(b, dir)
    ensures At(a, dir + sub) == At(b, dir + sub)
  {
    hide At;
    var x, y := At(a, dir + sub), At(b, dir + sub);
    forall rel
      ensures rel in x <==> rel in y
      ensures rel in x ==> x[rel] == y[rel]
    {
      InsideAt(a, dir, sub, rel);
      InsideAt(b, dir, sub, rel);
    }
    assert x == y;
  }

  lemma InsideAt(t: Tree, dir: Path, sub: Path, rel: Path)
    ensures dir + sub + rel in t <==> sub + rel in At(t, dir)
    ensures dir + sub + rel in t ==> t[dir + sub + rel] == At(t, dir)[sub + rel]
  {
    assert dir + sub + rel == dir + (sub + rel);
  }

  /**
   * What has been kept for one package is kept while another is built, unless that publishes under the same signature.
   */
  lemma KeptStays(plan: Plan, tools: Tools, package: string, signature: string, other: string, signature': string,
                  before: Tree, after: Tree, data: map<string, string>, data': map<string, string>)
    requires Kept(plan, tools, package, signature, before, data) && package != other && signature != signature'
    requires AgreeAway(before, after, plan.OutPlaces(other)) && Grown(data, data', signature')
    ensures Kept(plan, tools, package, signature, after, data')
  {
    hide At, Restored, ObjectKey, SignatureKey, AgreeAway;
    InstallApart(plan, package, other);
    SameAt(before, after, plan.OutPlaces(other), plan.InstallDir(package));
    if SignatureKey(signature) == SignatureKey(signature') {
      SignatureKeysDiffer(signature, signature');
    }
    KindsOfKeysDiffer(package, data[SignatureKey(signature)], signature');
  }

  /** Nothing has been changed in the store but what is under one signature. */
  ghost predicate Grown(data: map<string, string>, data': map<string, string>, signature: string) {
    forall key | key in data && key != SignatureKey(signature) :: key in data' && data'[key] == data[key]
  }

  /** Rebuilding a package to the output it had leaves all signatures and outputs as they were. */
  lemma AllKeptStays(plan: Plan, tools: Tools, order: seq<string>, package: string, before: Tree, after: Tree,
                     data: map<string, string>)
    requires plan.WellBehaved() && AllKept(plan, tools, order, before, data) && package in order
    requires AgreeAway(before, after, plan.OutPlaces(package))
    requires At(before, plan.InstallDir(package)) == At(after, plan.InstallDir(package))
    ensures AllKept(plan, tools, order, after, data)
  {
    hide At, Restored, ObjectKey, SignatureKey, HashesNow, Signature, AgreeAway;
    forall p | p in order
      ensures p in plan.packages && plan.DependenciesKnown(p)
      ensures Kept(plan, tools, p, CleanSignature(plan, tools, p, after), after, data)
    {
      HashesSettled(plan, tools, p, package, before, after);
      if p != package {
        InstallApart(plan, p, package);
        SameAt(before, after, plan.OutPlaces(package), plan.InstallDir(p));
      }
    }
  }

  lemma HashesSettled(plan: Plan, tools: Tools, p: string, package: string, before: Tree, after: Tree)
    requires plan.WellBehaved() && p in plan.packages && plan.DependenciesKnown(p) && package in plan.packages
    requires AgreeAway(before, after, plan.OutPlaces(package))
    requires At(before, plan.InstallDir(package)) == At(after, plan.InstallDir(package))
    ensures HashesNow(tools, plan.Inputs(p), before) == HashesNow(tools, plan.Inputs(p), after)
  {
    hide At, AgreeAway, Near, CurrentHash, Places;
    var inputs := plan.Inputs(p);
    forall name | name in inputs
      ensures CurrentHash(tools, before, inputs[name]) == CurrentHash(tools, after, inputs[name])
    {
      if name in plan.packages[p].dependencies {
        DependencyHashStays(plan, tools, name, package, before, after);
      } else {
        assert name in plan.ExplicitInputs(p);
        SameAt(before, after, plan.OutPlaces(package), inputs[name]);
        SameHash(tools, before, after, inputs[name]);
      }
    }
  }

  lemma SameHash(tools: Tools, a: Tree, b: Tree, path: Path)
    requires At(a, path) == At(b, path)
    ensures CurrentHash(tools, a, path) == CurrentHash(tools, b, path)
  {
  }

  lemma DependencyHashStays(plan: Plan, tools: Tools, name: string, package: string, before: Tree, after: Tree)
    requires name in plan.packages && AgreeAway(before, after, plan.OutPlaces(package))
    requires At(before, plan.InstallDir(package)) == At(after, plan.InstallDir(package))
    ensures CurrentHash(tools, before, plan.GetOutputDir(name, true)) ==
            CurrentHash(tools, after, plan.GetOutputDir(name, true))
  {
    hide At, AgreeAway, Near, CurrentHash, Places;
    var dir := plan.GetOutputDir(name, true);
    if name == package {
      var sub := if plan.packages[name].outputSubdir.Some? then plan.packages[name].outputSubdir.value else [];
      assert dir == plan.InstallDir(name) + sub;
      AtInside(before, after, plan.InstallDir(name), sub);
    } else {
      OutputsApart(plan, name, package);
      SameAt(before, after, plan.OutPlaces(package), dir);
    }
    SameHash(tools, before, after, dir);
  }

  /** Two signatures of different packages differ. */
  lemma SignaturesDiffer(plan: Plan, tools: Tools, a: Record, b: Record, files: Tree)
    requires TellsPackage(tools) && a.package in plan.packages && b.package in plan.packages && a.package != b.package
    requires plan.DependenciesKnown(a.package) && plan.DependenciesKnown(b.package)
    ensures plan.UncachedSignature(tools, a, files) != plan.UncachedSignature(tools, b, files)
  {
    hide HashesNow;
    var ma := Material(a.package, tools.summary, Texts(a.commands), HashesNow(tools, plan.Inputs(a.package), files));
    var mb := Material(b.package, tools.summary, Texts(b.commands), HashesNow(tools, plan.Inputs(b.package), files));
    assert tools.sign(ma) == tools.sign(mb) ==> ma.package == mb.package;
  }

  /** Where all is kept, a package's build from scratch comes to a signature that the store has. */
  lemma KeptSignature(plan: Plan, tools: Tools, order: seq<string>, built: set<string>, record: Record,
                      before: Tree, after: Tree, data: map<string, string>)
    requires plan.WellBehaved() && AllKept(plan, tools, order, before, data) && record.package in order
    requires record.package !in built
    requires record.package in plan.packages && plan.DependenciesKnown(record.package)
    requires forall d | d in plan.packages[record.package].dependencies :: d in built
    requires record.commands == plan.packages[record.package].commands
    requires AgreeAway(before, after, plan.OutPlaces(record.package))
    requires record.signature == plan.UncachedSignature(tools, record, after)
    ensures Kept(plan, tools, record.package, record.signature, before, data)
  {
    hide HashesNow, Signature, AgreeAway, Kept;
    SignatureStays(plan, tools, record, built, record.package, before, after);
    assert record.signature == CleanSignature(plan, tools, record.package, before);
  }

  lemma KeptOn(plan: Plan, tools: Tools, record: Record, other: Record,
               before: Tree, after: Tree, data: map<string, string>, data': map<string, string>)
    requires Kept(plan, tools, record.package, record.signature, before, data) && record.package != other.package
    requires TellsPackage(tools)
    requires record.package in plan.packages && plan.DependenciesKnown(record.package)
    requires other.package in plan.packages && plan.DependenciesKnown(other.package)
    requires record.signature == plan.UncachedSignature(tools, record, after)
    requires other.signature == plan.UncachedSignature(tools, other, after)
    requires AgreeAway(before, after, plan.OutPlaces(other.package)) && Grown(data, data', other.signature)
    ensures Kept(plan, tools, record.package, record.signature, after, data')
  {
    hide Kept, Grown, AgreeAway, TellsPackage, Signature, HashesNow;
    SignaturesDiffer(plan, tools, record, other, after);
    KeptStays(plan, tools, record.package, record.signature, other.package, other.signature, before, after, data,
              data');
  }

  lemma KeptBeside(plan: Plan, tools: Tools, record: Record, other: string, before: Tree, after: Tree,
                   data: map<string, string>)
    requires Kept(plan, tools, record.package, record.signature, before, data) && record.package != other
    requires AgreeAway(before, after, plan.OutPlaces(other))
    ensures Kept(plan, tools, record.package, record.signature, after, data)
  {
    hide Kept, AgreeAway;
    KeptStays(plan, tools, record.package, record.signature, other, record.signature + "'", before, after, data, data);
  }

  /** Reusing a package's output where all is kept changes nothing. */
  lemma StillAllKept(plan: Plan, tools: Tools, order: seq<string>, record: Record, before: Tree, after: Tree,
                     data: map<string, string>)
    requires plan.WellBehaved() && AllKept(plan, tools, order, before, data) && record.package in order
    requires AgreeAway(before, after, plan.OutPlaces(record.package))
    requires Kept(plan, tools, record.package, record.signature, before, data)
    requires Kept(plan, tools, record.package, record.signature, after, data)
    ensures AllKept(plan, tools, order, after, data)
  {
    hide AllKept, AgreeAway, At;
    AllKeptStays(plan, tools, order, record.package, before, after, data);
  }

  lemma KeptIsStored(plan: Plan, tools: Tools, package: string, signature: string, files: Tree,
                     data: map<string, string>)
    requires Kept(plan, tools, package, signature, files, data)
    ensures SignatureKey(signature) in data
  {
  }

  lemma RecordsKept(plan: Plan, tools: Tools, order: seq<string>, records: seq<Record>, files: Tree,
                    data: map<string, string>)
    requires |records| == |order| && forall i | 0 <= i < |order| :: records[i].package == order[i]
    requires forall record | record in records ::
               && record.package in plan.packages && plan.DependenciesKnown(record.package)
               && record.commands == plan.packages[record.package].commands
               && record.signature == plan.UncachedSignature(tools, record, files)
               && Kept(plan, tools, record.package, record.signature, files, data)
    ensures AllKept(plan, tools, order, files, data)
  {
    hide HashesNow, Signature, Kept;
    forall p | p in order
      ensures p in plan.packages && plan.DependenciesKnown(p)
      ensures Kept(plan, tools, p, CleanSignature(plan, tools, p, files), files, data)
    {
      var i :| 0 <= i < |order| && order[i] == p;
      assert records[i] in records;
    }
  }

  /** A result written to a steady store is kept there. */
  lemma WrittenIsKept(plan: Plan, tools: Tools, package: string, signature: string, made: Tree, now: Tree,
                      data: map<string, string>, data': map<string, string>)
    requires ExactArchives(tools)
    requires var t := At(made, plan.InstallDir(package));
             var key := ObjectKey(package, tools.hash(t));
             && (key in data || IsDirectory(t))
             && data' == AfterWriting(tools, data, package, signature, tools.hash(t), t, true)
             && now == if key in data then Placed(made, plan.InstallDir(package), Restored(tools, data[key])) else made
    ensures Kept(plan, tools, package, signature, now, data') && Grown(data, data', signature)
  {
    hide At, Restored, ObjectKey, SignatureKey, Placed, IsDirectory;
    var dir := plan.InstallDir(package);
    var t := At(made, dir);
    KindsOfKeysDiffer(package, tools.hash(t), signature);
    var key := ObjectKey(package, tools.hash(t));
    if key in data {
      PlacedThere(made, dir, Restored(tools, data[key]));
    }
  }

  // ----- What goes into a signature, and where a reused output comes from

  /** Every dependency's output directory, and the explicit inputs, which are the package's sources by default. */
  ghost predicate InputsOf(plan: Plan, package: string, inputs: map<string, Path>)
    requires package in plan.packages && plan.DependenciesKnown(package)
  {
    var p := plan.packages[package];
    && (forall name :: name in inputs <==>
          name in p.dependencies || if p.inputs.Some? then name in p.inputs.value else name == "src")
    && (forall d | d in p.dependencies ::
          inputs[d] == plan.output + [d + "_install"] +
                       if plan.packages[d].outputSubdir.Some? then plan.packages[d].outputSubdir.value else [])
    && forall name | name in inputs && name !in p.dependencies ::
         inputs[name] == if p.inputs.Some? then p.inputs.value[name] else plan.source + [package]
  }

  /** The record's signature is made of the package, its commands and what its inputs hold. */
  ghost predicate SignsFiles(plan: Plan, tools: Tools, record: Record, files: Tree) {
    && record.package in plan.packages && plan.DependenciesKnown(record.package)
    && exists inputs ::
         InputsOf(plan, record.package, inputs) &&
         Signs(tools, record.signature, record.package, record.commands, inputs, map[], files)
  }

  lemma InputsWrittenOut(plan: Plan, package: string)
    requires package in plan.packages && plan.DependenciesKnown(package)
    ensures InputsOf(plan, package, plan.Inputs(package))
  {
    forall d | d in plan.packages[package].dependencies
      ensures plan.Inputs(package)[d] ==
              plan.output + [d + "_install"] +
              if plan.packages[d].outputSubdir.Some? then plan.packages[d].outputSubdir.value else []
    {
      assert plan.output + [d + "_install"] + [] == plan.output + [d + "_install"];
    }
  }

  lemma UncachedSigns(plan: Plan, tools: Tools, record: Record, files: Tree)
    requires record.package in plan.packages && plan.DependenciesKnown(record.package)
    requires record.signature == plan.UncachedSignature(tools, record, files)
    ensures SignsFiles(plan, tools, record, files)
  {
    hide Signs, Signature, CurrentHash, InputsOf;
    var inputs := plan.Inputs(record.package);
    InputsWrittenOut(plan, record.package);
    SignatureSigns(tools, record.package, record.commands, inputs, map[], files);
    assert SeenHashes(tools, map[], files, inputs) == HashesNow(tools, inputs, files);
  }

  /** The hash of a package's output, in the directory where it is installed. */
  function OutputHash(plan: Plan, tools: Tools, package: string, files: Tree): string {
    tools.hash(At(files, plan.output + [package + "_install"]))
  }

  /** A reused output is one that has been published. */
  ghost predicate Earlier(plan: Plan, tools: Tools, record: Record, first: set<Publication>, files: Tree) {
    record.reused ==>
      Publication(record.package, record.signature, OutputHash(plan, tools, record.package, files)) in first
  }

  /**
   * Some earlier run of the package published an output with the hash of this one; and whatever its signature was made
   * of is the package, the record's commands and what the package's inputs hold now.
   */
  ghost predicate RanBefore(plan: Plan, tools: Tools, record: Record, first: set<Publication>, files: Tree) {
    && record.package in plan.packages && plan.DependenciesKnown(record.package)
    && exists p, inputs ::
         && p in first && p.package == record.package && p.hash == OutputHash(plan, tools, record.package, files)
         && InputsOf(plan, record.package, inputs)
         && Signs(tools, p.signature, record.package, record.commands, inputs, map[], files)
         && forall m | tools.sign(m) == p.signature ::
              MadeOf(m, tools, record.package, record.commands, inputs, map[], files)
  }

  lemma EarlierMeans(plan: Plan, tools: Tools, record: Record, first: set<Publication>, files: Tree)
    requires TellsAll(tools) && SignsFiles(plan, tools, record, files) && record.reused
    requires Earlier(plan, tools, record, first, files)
    ensures RanBefore(plan, tools, record, first, files)
  {
    hide InputsOf, OutputHash, MadeOf;
    var p := Publication(record.package, record.signature, OutputHash(plan, tools, record.package, files));
    var inputs :| InputsOf(plan, record.package, inputs) &&
        Signs(tools, record.signature, record.package, record.commands, inputs, map[], files);
    var m :| MadeOf(m, tools, record.package, record.commands, inputs, map[], files) &&
        record.signature == tools.sign(m);
    assert p in first && p.signature == record.signature;
  }

  /** All publications are signed, and come from before or from packages built since; so do the outputs reused. */
  ghost predicate Traced(plan: Plan, tools: Tools, order: seq<string>, i: nat, records: seq<Record>,
                         first: set<Publication>, published: set<Publication>, files: Tree)
  {
    && i <= |order| && (forall record | record in records :: record.package in order[..i])
    && (TellsPackage(tools) && Signed(tools, first) ==>
          && Signed(tools, published)
          && (forall p | p in published :: p in first || p.package in order[..i])
          && forall record | record in records :: Earlier(plan, tools, record, first, files))
  }

  lemma OutputStays(plan: Plan, tools: Tools, package: string, other: string, before: Tree, after: Tree)
    requires package != other && AgreeAway(before, after, plan.OutPlaces(other))
    ensures OutputHash(plan, tools, package, before) == OutputHash(plan, tools, package, after)
  {
    InstallApart(plan, package, other);
    SameAt(before, after, plan.OutPlaces(other), plan.InstallDir(package));
  }

  lemma TracedNext(plan: Plan, tools: Tools, order: seq<string>, i: nat, records: seq<Record>, r: BuildOutcome,
                   first: set<Publication>, published: set<Publication>, more: set<Publication>, before: Tree,
                   after: Tree)
    requires Traced(plan, tools, order, i, records, first, published, before) && i < |order|
    requires order[i] !in order[..i] && order[..i + 1] == order[..i] + [order[i]]
    requires AgreeAway(before, after, plan.OutPlaces(order[i]))
    requires Signed(tools, published) ==> Signed(tools, more)
    requires forall p | p in more :: p in published || p.package == order[i]
    requires r.Completed? ==> r.record.package == order[i]
    requires r.Completed? && TellsPackage(tools) && Signed(tools, published) ==>
               Earlier(plan, tools, r.record, published, after)
    ensures Traced(plan, tools, order, i + 1, if r.Completed? then records + [r.record] else records, first, more,
                   after)
  {
    hide OutputHash, Signed, TellsPackage, AgreeAway;
    forall record | record in records
      ensures OutputHash(plan, tools, record.package, before) == OutputHash(plan, tools, record.package, after)
    {
      OutputStays(plan, tools, record.package, order[i], before, after);
    }
  }

  // ----- Clearing the way for a build

  function WorkReady(plan: Plan, package: string, files: Tree): Tree {
    WithDirectories(if plan.clobber then Without(files, plan.WorkDir(package)) else files, plan.WorkDir(package))
  }

  function OutputReady(plan: Plan, package: string, files: Tree): Tree
    requires package in plan.packages
  {
    WithDirectories(Without(files, plan.InstallDir(package)), plan.GetOutputDir(package, true))
  }

  lemma WorkReadyNearby(plan: Plan, package: string, files: Tree)
    ensures AgreeAway(files, WorkReady(plan, package, files), plan.OutPlaces(package))
  {
    var work, ready := plan.WorkDir(package), WorkReady(plan, package, files);
    assert work in plan.OutPlaces(package);
    forall p | !Near(p, plan.OutPlaces(package))
      ensures Agree(files, ready, p)
    {
      assert !Related(p, work);
    }
  }

  lemma OutputReadyNearby(plan: Plan, package: string, files: Tree)
    requires package in plan.packages
    ensures AgreeAway(files, OutputReady(plan, package, files), plan.OutPlaces(package))
  {
    var root, dir := plan.InstallDir(package), plan.GetOutputDir(package, true);
    assert root in plan.OutPlaces(package);
    forall p | !Near(p, plan.OutPlaces(package))
      ensures Agree(files, OutputReady(plan, package, files), p)
    {
      assert !Related(p, root);
      if p <= dir { PrefixesRelated(p, root, dir); }
    }
  }

  /** Whether a directory holds anything. */
  predicate HoldsAnything(files: Tree, dir: Path) {
    exists p | p in files :: dir < p
  }

  function WithoutSkipped(commands: seq<Command>): (r: seq<Command>)
    ensures forall c :: c in r <==> c in commands && !c.skipForIncremental
  {
    if commands == [] then []
    else (if commands[0].skipForIncremental then [] else [commands[0]]) + WithoutSkipped(commands[1..])
  }

  /** The commands that are left keep their order. */
  lemma {:induction false} WithoutSkippedInOrder(a: seq<Command>, b: seq<Command>)
    ensures WithoutSkipped(a + b) == WithoutSkipped(a) + WithoutSkipped(b)
  {
    hide WithoutSkipped;
    if a == [] {
      assert a + b == b && [] + WithoutSkipped(b) == WithoutSkipped(b);
      NoneSkipped();
    } else {
      assert (a + b)[1..] == a[1..] + b;
      WithoutSkippedInOrder(a[1..], b);
      FirstSkipped(a);
      FirstSkipped(a + b);
    }
  }

  lemma NoneSkipped()
    ensures WithoutSkipped([]) == []
  {
  }

  lemma FirstSkipped(a: seq<Command>)
    requires a != []
    ensures WithoutSkipped(a) == (if a[0].skipForIncremental then [] else [a[0]]) + WithoutSkipped(a[1..])
  {
  }

  class PackageBuilder {
    const plan: Plan
    const buildOnce: Once

    constructor (plan: Plan, buildOnce: Once)
      ensures this.plan == plan && this.buildOnce == buildOnce
    {
      this.plan, this.buildOnce := plan, buildOnce;
    }

    ghost predicate Valid()
      reads this, buildOnce, buildOnce.storage
    {
      && plan.WellBehaved()
      && FaithfulArchives(buildOnce.tools) && PlainHashes(buildOnce.tools)
      && Sound(buildOnce.tools, buildOnce.storage.data, buildOnce.storage.published)
    }

    ghost predicate Current(built: set<string>)
      reads this, buildOnce, buildOnce.disk
    {
      CacheCurrent(plan, buildOnce.tools, buildOnce.pathHashCache, buildOnce.disk.files, built)
    }

    /** The record's signature is the one that hashing all its inputs now would give. */
    ghost predicate Accurate(record: Record)
      reads this, buildOnce, buildOnce.disk
    {
      && record.package in plan.packages && plan.DependenciesKnown(record.package)
      && record.signature == plan.UncachedSignature(buildOnce.tools, record, buildOnce.disk.files)
    }

    /** The store works, is used both ways, and nobody else's signatures get in the way. */
    ghost predicate Ideal()
      reads this, buildOnce, buildOnce.storage
    {
      && buildOnce.storage.steady && buildOnce.useCachedResults && buildOnce.cacheResults
      && ExactArchives(buildOnce.tools) && TellsPackage(buildOnce.tools) &&
          Signed(buildOnce.tools, buildOnce.storage.published)
    }

    /** The output is the stored one, or what the commands made of the files they started from, written to the store. */
    ghost predicate Made(start: Tree, record: Record, data: map<string, string>, items: map<string, Item>,
                         published: set<Publication>)
      reads this, buildOnce, buildOnce.storage, buildOnce.disk
    {
      var output := plan.InstallDir(record.package);
      if record.reused then
        && buildOnce.useCachedResults && buildOnce.storage.data == data
        && buildOnce.TookNamed(start, record.package, record.signature, output, items)
      else
        var ran := Effects(record.commands, start, record.signature);
        ran.ok && buildOnce.Wrote(ran.files, record.package, record.signature, output, true, data, items, published)
    }

    lemma MadeIsKept(start: Tree, record: Record, data: map<string, string>, items: map<string, Item>,
                     published: set<Publication>)
      requires Made(start, record, data, items, published) && ExactArchives(buildOnce.tools)
      requires buildOnce.storage.steady && buildOnce.useCachedResults && buildOnce.cacheResults
      ensures Kept(plan, buildOnce.tools, record.package, record.signature, buildOnce.disk.files,
                   buildOnce.storage.data)
      ensures Grown(data, buildOnce.storage.data, record.signature)
      ensures record.reused ==> buildOnce.storage.data == data
    {
      hide At, Restored, ObjectKey, SignatureKey, Placed, IsDirectory, ExactArchives, AfterWriting, Effects,
           Once.Recorded;
      var output := plan.InstallDir(record.package);
      if record.reused {
        var hash := data[SignatureKey(record.signature)];
        PlacedThere(start, output, Restored(buildOnce.tools, data[ObjectKey(record.package, hash)]));
      } else {
        var made := Effects(record.commands, start, record.signature).files;
        WrittenIsKept(plan, buildOnce.tools, record.package, record.signature, made, buildOnce.disk.files, data,
                      buildOnce.storage.data);
      }
    }

    /** What a hit has taken has been published. */
    lemma NamedEarlier(start: Tree, package: string, signature: string, items: map<string, Item>)
      requires buildOnce.TookNamed(start, package, signature, plan.InstallDir(package), items)
      requires Sound(buildOnce.tools, buildOnce.storage.data, buildOnce.storage.published)
      requires SignatureOf(buildOnce.storage.published, signature, package)
      ensures Publication(package, signature, OutputHash(plan, buildOnce.tools, package, buildOnce.disk.files))
              in buildOnce.storage.published
    {
      hide At, Restored, ObjectKey, SignatureKey, Placed, Sound, SignatureOf;
      HitIsBacked(buildOnce.tools, buildOnce.storage.data, buildOnce.storage.published, signature, package);
    }

    /** Makes an empty output directory and a working directory; says which commands are left to run. */
    method Prepare(package: string) returns (ok: bool, commands: seq<Command>)
      requires package in plan.packages
      modifies buildOnce.disk
      ensures ok ==>
                buildOnce.disk.files ==
                OutputReady(plan, package, WorkReady(plan, package, old(buildOnce.disk.files)))
      ensures ok ==>
                commands ==
                if !plan.clobber && HoldsAnything(buildOnce.disk.files, plan.WorkDir(package))
                then WithoutSkipped(plan.packages[package].commands)
                else plan.packages[package].commands
      ensures AgreeAway(old(buildOnce.disk.files), buildOnce.disk.files, plan.OutPlaces(package))
      ensures forall c | c in commands :: c in plan.packages[package].commands
      ensures plan.clobber ==> commands == plan.packages[package].commands
    {
      hide WorkReady, OutputReady, AgreeAway;
      var disk, work := buildOnce.disk, plan.WorkDir(package);
      ghost var before := disk.files;
      Unchanged(before, plan.OutPlaces(package));
      commands := plan.packages[package].commands;
      var cleared := if plan.clobber then Without(disk.files, work) else disk.files;
      if !CanMake(cleared, work) {
        return false, commands;
      }
      WorkReadyNearby(plan, package, disk.files);
      disk.files := WorkReady(plan, package, disk.files);
      ghost var worked := disk.files;
      if !CanMake(Without(disk.files, plan.InstallDir(package)), plan.GetOutputDir(package, true)) {
        return false, commands;
      }
      OutputReadyNearby(plan, package, disk.files);
      disk.files := OutputReady(plan, package, disk.files);
      AgreeAwayTwice(before, worked, disk.files, plan.OutPlaces(package));
      if !plan.clobber && HoldsAnything(disk.files, work) {
        commands := WithoutSkipped(commands);
      }
      ok := true;
    }

    /** Builds one package whose dependencies have been built. */
    method BuildPackage(package: string, ghost built: set<string>) returns (r: BuildOutcome, ghost start: Tree)
      requires Valid() && package in plan.packages && package !in built && plan.DependenciesKnown(package)
      requires forall d | d in plan.packages[package].dependencies :: d in built
      requires Current(built)
      modifies buildOnce, buildOnce.disk, buildOnce.storage
      ensures Valid() && Current(built) && (old(Ideal()) ==> Ideal())
      ensures AgreeAway(old(buildOnce.disk.files), buildOnce.disk.files, plan.OutPlaces(package))
      ensures plan.OutPlaces(package) == {plan.output + [package + "_install"], plan.output + [package + "_work"]}
      ensures r.Completed? ==> r.record.package == package && Accurate(r.record)
      ensures r.Completed? && plan.clobber ==> r.record.commands == plan.packages[package].commands
      ensures r.Completed? ==>
                Made(start, r.record, old(buildOnce.storage.data), old(buildOnce.cachedDirItems),
                     old(buildOnce.storage.published))
      ensures r.Completed? && SignatureKey(r.record.signature) !in old(buildOnce.storage.data) ==>
                start == Prepared(OutputReady(plan, package, WorkReady(plan, package, old(buildOnce.disk.files))),
                                  plan.InstallDir(package), Some(plan.WorkDir(package)))
      ensures r.Completed? && old(Ideal()) ==>
                (r.record.reused <==> SignatureKey(r.record.signature) in old(buildOnce.storage.data))
      ensures r.Raised? && buildOnce.storage.steady ==> buildOnce.storage.data == old(buildOnce.storage.data)
      ensures forall p | p in buildOnce.storage.published ::
                p in old(buildOnce.storage.published) || p.package == package
      ensures old(Signed(buildOnce.tools, buildOnce.storage.published)) ==>
                Signed(buildOnce.tools, buildOnce.storage.published)
      ensures r.Completed? && TellsPackage(buildOnce.tools) &&
              old(Signed(buildOnce.tools, buildOnce.storage.published)) ==>
                Earlier(plan, buildOnce.tools, r.record, old(buildOnce.storage.published), buildOnce.disk.files)
      ensures r.Skipped? <==> plan.syncSourcesOnly
      ensures plan.syncSourcesOnly ==> unchanged(buildOnce, buildOnce.disk, buildOnce.storage)
      ensures plan.InputsClash(package) && !plan.syncSourcesOnly ==>
                r.Raised? && unchanged(buildOnce, buildOnce.disk, buildOnce.storage)
    {
      hide AgreeAway, Sound, FaithfulArchives, PlainHashes, CacheCurrent, Signature, HashesNow, WorkReady, OutputReady,
           Prepared;
      hide ExactArchives, TellsPackage, Signed, Made, WithoutSkipped, Earlier;
      start := buildOnce.disk.files;
      Unchanged(buildOnce.disk.files, plan.OutPlaces(package));
      if plan.syncSourcesOnly {
        return Skipped, start;
      }
      if plan.InputsClash(package) {
        return Raised, start;
      }
      ghost var before := buildOnce.disk.files;
      var ok, commands := Prepare(package);
      ghost var prepared := buildOnce.disk.files;
      CacheStaysCurrent(plan, buildOnce.tools, buildOnce.pathHashCache, built, package, before, prepared);
      if !ok {
        return Raised, start;
      }
      r, start := RunBuild(package, commands, built);
      AgreeAwayTwice(before, prepared, buildOnce.disk.files, plan.OutPlaces(package));
    }

    method RunBuild(package: string, commands: seq<Command>, ghost built: set<string>)
      returns (r: BuildOutcome, ghost start: Tree)
      requires Valid() && package in plan.packages && package !in built && plan.DependenciesKnown(package)
      requires forall d | d in plan.packages[package].dependencies :: d in built
      requires forall c | c in commands :: c in plan.packages[package].commands
      requires Current(built)
      modifies buildOnce, buildOnce.disk, buildOnce.storage
      ensures Valid() && Current(built) && (old(Ideal()) ==> Ideal())
      ensures AgreeAway(old(buildOnce.disk.files), buildOnce.disk.files, plan.OutPlaces(package))
      ensures r.Completed? ==> r.record.package == package && r.record.commands == commands && Accurate(r.record)
      ensures r.Completed? ==>
                Made(start, r.record, old(buildOnce.storage.data), old(buildOnce.cachedDirItems),
                     old(buildOnce.storage.published))
      ensures r.Completed? && SignatureKey(r.record.signature) !in old(buildOnce.storage.data) ==>
                start == Prepared(old(buildOnce.disk.files), plan.InstallDir(package), Some(plan.WorkDir(package)))
      ensures r.Completed? && old(Ideal()) ==>
                (r.record.reused <==> SignatureKey(r.record.signature) in old(buildOnce.storage.data))
      ensures r.Raised? && buildOnce.storage.steady ==> buildOnce.storage.data == old(buildOnce.storage.data)
      ensures forall p | p in buildOnce.storage.published ::
                p in old(buildOnce.storage.published) || p.package == package
      ensures old(Signed(buildOnce.tools, buildOnce.storage.published)) ==>
                Signed(buildOnce.tools, buildOnce.storage.published)
      ensures r.Completed? && TellsPackage(buildOnce.tools) &&
              old(Signed(buildOnce.tools, buildOnce.storage.published)) ==>
                Earlier(plan, buildOnce.tools, r.record, old(buildOnce.storage.published), buildOnce.disk.files)
      ensures !r.Skipped?
    {
      hide AgreeAway, Sound, FaithfulArchives, PlainHashes, Evolves, CacheCurrent, SeenHashes, HashesNow, Signature;
      hide Remembered, Prepared, ExactArchives, TellsPackage, Signed, Effects, IsSignatureOf, SignatureOf;
      hide Once.TookNamed, Once.TookStored, At, IsDirectory, ObjectKey, SignatureKey, OutputHash;
      var inputs := plan.Inputs(package);
      ghost var tools, before, cache := buildOnce.tools, buildOnce.disk.files, buildOnce.pathHashCache;
      ghost var published := buildOnce.storage.published;
      var output, work := plan.InstallDir(package), Some(plan.WorkDir(package));
      ghost var places := plan.OutPlaces(package);
      forall name | name in inputs
        ensures plan.Settled(inputs[name], built)
      {
        InputsSettled(plan, package, built, name);
      }
      ghost var prepared := Prepared(before, output, work);
      PreparedNearby(before, output, work);
      CacheStaysCurrent(plan, tools, cache, built, package, before, prepared);
      CacheUsable(plan, tools, cache, prepared, inputs, built);
      ghost var sig := Signature(tools, package, commands, HashesNow(tools, inputs, prepared));
      SignatureIsSigned(tools, package, commands, HashesNow(tools, inputs, prepared));
      ghost var told := TellsPackage(tools) && Signed(tools, published);
      if told {
        SignedTells(tools, published, sig, package);
      }
      var outcome, signature;
      outcome, signature, start := buildOnce.Run(package, inputs, output, commands, work, true);
      ghost var after := buildOnce.disk.files;
      if outcome.Blocked? {
        return Raised, start;
      }
      assert signature == sig;
      SignedMore(tools, published, buildOnce.storage.published, package, signature);
      if told && outcome.Hit? {
        NamedEarlier(start, package, signature, old(buildOnce.cachedDirItems));
      }
      AgreeAwayBack(before, prepared, after, places);
      CacheStaysCurrent(plan, tools, buildOnce.pathHashCache, built, package, prepared, after);
      HashesStay(plan, tools, inputs, built, package, prepared, after);
      r := if outcome.Hit? || outcome.Built? then Completed(Record(package, commands, signature, outcome.Hit?))
          else Raised;
    }

    /** What the records of the packages built so far say is still so. */
    ghost predicate Recorded(order: seq<string>, i: nat, records: seq<Record>, ideal: bool)
      reads this, buildOnce, buildOnce.disk, buildOnce.storage
    {
      i <= |order| && forall record | record in records ::
        && record.package in order[..i] && Accurate(record)
        && (plan.clobber ==> record.commands == plan.packages[record.package].commands)
        && (ideal ==> Kept(plan, buildOnce.tools, record.package, record.signature, buildOnce.disk.files,
                           buildOnce.storage.data))
    }

    ghost predicate AllOutputsKept(order: seq<string>)
      reads this, buildOnce, buildOnce.disk, buildOnce.storage
    {
      AllKept(plan, buildOnce.tools, order, buildOnce.disk.files, buildOnce.storage.data)
    }

    /**
     * One step of BuildAll: it keeps what the records say, and where all outputs are as the store has them reuses the
     * next.
     */
    method BuildNext(order: seq<string>, i: nat, records: seq<Record>, ghost ideal: bool,
                     ghost first: set<Publication>)
      returns (r: BuildOutcome)
      requires Valid() && Buildable(plan.DependencyLists(), order) && i < |order|
      requires Traced(plan, buildOnce.tools, order, i, records, first, buildOnce.storage.published,
                      buildOnce.disk.files)
      requires Current(Elements(order[..i])) && Recorded(order, i, records, ideal) && (ideal ==> Ideal())
      modifies buildOnce, buildOnce.disk, buildOnce.storage
      ensures Valid() && (ideal ==> Ideal())
      ensures Current(Elements(order[..i + 1]))
      ensures plan.syncSourcesOnly ==> unchanged(buildOnce.storage)
      ensures r.Skipped? <==> plan.syncSourcesOnly
      ensures r.Completed? ==> r.record.package == order[i]
      ensures Recorded(order, i + 1, if r.Completed? then records + [r.record] else records, ideal)
      ensures Traced(plan, buildOnce.tools, order, i + 1, if r.Completed? then records + [r.record] else records, first,
                     buildOnce.storage.published, buildOnce.disk.files)
      ensures ideal && old(AllOutputsKept(order)) && plan.clobber ==>
                buildOnce.storage.data == old(buildOnce.storage.data) &&
                    (r.Completed? ==> r.record.reused && AllOutputsKept(order))
    {
      hide Sound, FaithfulArchives, PlainHashes, Signature, HashesNow, CacheCurrent, Buildable, AgreeAway, Kept,
           AllKept, Grown, Made;
      hide ExactArchives, TellsPackage, Signed, Prepared, OutputReady, WorkReady, SignatureKey, Traced, Earlier;
      ghost var published := buildOnce.storage.published;
      ghost var built, next := Elements(order[..i]), Elements(order[..i + 1]);
      ghost var tools, before, data := buildOnce.tools, buildOnce.disk.files, buildOnce.storage.data;
      BuiltSoFar(plan, order, i);
      ghost var start;
      r, start := BuildPackage(order[i], built);
      ghost var after, data' := buildOnce.disk.files, buildOnce.storage.data;
      TracedNext(plan, tools, order, i, records, r, first, published, buildOnce.storage.published, before, after);
      MoreBuilt(plan, tools, buildOnce.pathHashCache, after, built, next);
      if r.Completed? && ideal {
        MadeIsKept(start, r.record, data, old(buildOnce.cachedDirItems), old(buildOnce.storage.published));
      }
      forall record | record in records
        ensures Accurate(record)
        ensures ideal ==> Kept(plan, tools, record.package, record.signature, after, data')
      {
        SignatureStays(plan, tools, record, built, order[i], before, after);
        if ideal {
          if r.Completed? {
            KeptOn(plan, tools, record, r.record, before, after, data, data');
          } else {
            KeptBeside(plan, tools, record, order[i], before, after, data);
          }
        }
      }
      if ideal && old(AllOutputsKept(order)) && plan.clobber && r.Completed? {
        KeptSignature(plan, tools, order, built, r.record, before, after, data);
        KeptIsStored(plan, tools, order[i], r.record.signature, before, data);
        StillAllKept(plan, tools, order, r.record, before, after, data);
      }
    }

    /** What the records come to at the end. */
    lemma TracedMeans(order: seq<string>, i: nat, records: seq<Record>, ideal: bool, first: set<Publication>)
      requires Traced(plan, buildOnce.tools, order, i, records, first, buildOnce.storage.published,
                      buildOnce.disk.files)
      requires Recorded(order, i, records, ideal)
      ensures forall record | record in records ::
                && record.package in plan.packages && Accurate(record)
                && (plan.clobber ==> record.commands == plan.packages[record.package].commands)
      ensures forall record | record in records :: SignsFiles(plan, buildOnce.tools, record, buildOnce.disk.files)
      ensures TellsAll(buildOnce.tools) && Signed(buildOnce.tools, first) ==>
                forall record | record in records && record.reused ::
                  RanBefore(plan, buildOnce.tools, record, first, buildOnce.disk.files)
    {
      hide SignsFiles, Signed, RanBefore, Earlier, Signature, HashesNow, Kept;
      forall record | record in records
        ensures SignsFiles(plan, buildOnce.tools, record, buildOnce.disk.files)
      {
        UncachedSigns(plan, buildOnce.tools, record, buildOnce.disk.files);
      }
      if TellsAll(buildOnce.tools) && Signed(buildOnce.tools, first) {
        forall record | record in records && record.reused
          ensures RanBefore(plan, buildOnce.tools, record, first, buildOnce.disk.files)
        {
          EarlierMeans(plan, buildOnce.tools, record, first, buildOnce.disk.files);
        }
      }
    }

    lemma NothingYet(order: seq<string>)
      ensures Traced(plan, buildOnce.tools, order, 0, [], buildOnce.storage.published, buildOnce.storage.published,
                     buildOnce.disk.files)
      ensures Recorded(order, 0, [], true) && Recorded(order, 0, [], false)
    {
    }

    lemma RecordedKept(order: seq<string>, records: seq<Record>)
      requires Recorded(order, |order|, records, true) && plan.clobber
      requires |records| == |order| && forall i | 0 <= i < |order| :: records[i].package == order[i]
      ensures AllOutputsKept(order)
    {
      hide HashesNow, Signature, Kept, AllKept;
      RecordsKept(plan, buildOnce.tools, order, records, buildOnce.disk.files, buildOnce.storage.data);
    }

    /**
     * Builds the packages of an order, up to the first that fails. Every signature used on the way is the one that
     * hashing the package's inputs on the final disk gives, although most hashes were remembered from earlier; and an
     * output is reused only from an earlier run of the same package, commands and inputs. With an
     * ideal store a build from scratch leaves every output as the store has it; and a build that starts like that takes
     * every output from the store, and ends like that.
     */
    method BuildAll(order: seq<string>) returns (ok: bool, records: seq<Record>)
      requires Valid() && Buildable(plan.DependencyLists(), order) && buildOnce.pathHashCache == map[]
      modifies buildOnce, buildOnce.disk, buildOnce.storage
      ensures Valid() && (old(Ideal()) ==> Ideal())
      ensures forall record | record in records ::
                Accurate(record) && SignsFiles(plan, buildOnce.tools, record, buildOnce.disk.files)
      ensures old(TellsAll(buildOnce.tools) && Signed(buildOnce.tools, buildOnce.storage.published)) ==>
                forall record | record in records && record.reused ::
                  RanBefore(plan, buildOnce.tools, record, old(buildOnce.storage.published), buildOnce.disk.files)
      ensures forall record | record in records && plan.clobber ::
                record.package in plan.packages && record.commands == plan.packages[record.package].commands
      ensures ok && !plan.syncSourcesOnly ==>
                |records| == |order| && forall i | 0 <= i < |order| :: records[i].package == order[i]
      ensures forall path | path in buildOnce.pathHashCache ::
                buildOnce.pathHashCache[path] == CurrentHash(buildOnce.tools, buildOnce.disk.files, path)
      ensures ok && old(Ideal()) && plan.clobber && !plan.syncSourcesOnly ==>
                AllKept(plan, buildOnce.tools, order, buildOnce.disk.files, buildOnce.storage.data)
      ensures old(Ideal() && AllKept(plan, buildOnce.tools, order, buildOnce.disk.files, buildOnce.storage.data)) &&
              plan.clobber ==>
                && (forall record | record in records :: record.reused)
                && buildOnce.storage.data == old(buildOnce.storage.data)
    {
      hide Sound, FaithfulArchives, PlainHashes, CurrentHash, CacheCurrent, Buildable, AllKept, Ideal, Kept, Signature,
           HashesNow, Signed, SignsFiles, RanBefore, Earlier, TellsAll, TellsPackage, Accurate, Recorded, Traced;
      ghost var first := buildOnce.storage.published;
      NothingYet(order);
      EmptyCurrent(plan, buildOnce.tools, buildOnce.disk.files, Elements(order[..0]));
      ghost var ideal, kept := Ideal(), Ideal() && AllOutputsKept(order) && plan.clobber && !plan.syncSourcesOnly;
      records := [];
      for i := 0 to |order|
        invariant Valid() && (ideal ==> Ideal())
        invariant Current(Elements(order[..i])) && Recorded(order, i, records, ideal)
        invariant Traced(plan, buildOnce.tools, order, i, records, first, buildOnce.storage.published,
                         buildOnce.disk.files)
        invariant !plan.syncSourcesOnly ==> |records| == i && forall k | 0 <= k < i :: records[k].package == order[k]
        invariant kept ==> AllOutputsKept(order) && buildOnce.storage.data == old(buildOnce.storage.data)
        invariant kept ==> forall record | record in records :: record.reused
        invariant plan.syncSourcesOnly ==> records == [] && unchanged(buildOnce.storage)
      {
        var r := BuildNext(order, i, records, ideal, first);
        if r.Raised? {
          TracedMeans(order, i + 1, records, ideal, first);
          CurrentSays(plan, buildOnce.tools, buildOnce.pathHashCache, buildOnce.disk.files, Elements(order[..i + 1]));
          return false, records;
        }
        if r.Completed? {
          records := records + [r.record];
        }
      }
      TracedMeans(order, |order|, records, ideal, first);
      CurrentSays(plan, buildOnce.tools, buildOnce.pathHashCache, buildOnce.disk.files, Elements(order[..|order|]));
      if ideal && plan.clobber && !plan.syncSourcesOnly {
        RecordedKept(order, records);
      }
      return true, records;
    }
  }
}
