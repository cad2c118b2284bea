/** Memoized builds: a content-addressed store of outputs, and signatures of computations that point into it. */
module OnceCache {
  import opened FileTrees
  import opened Options

  // ----- What the build relies on but does not define

  /** Everything a build signature is computed from. */
  datatype Material = Material(package: string, summary: string, commands: seq<string>, items: map<string, string>)

  /** The stable hash of a tree, the archiver, and the digests of a signature's material and of an archive. */
  datatype Tools = Tools(
    hash: Tree -> string,
    pack: Tree -> string,
    unpack: string -> Tree,
    sign: Material -> string,
    digest: string -> string,
    summary: string)

  /** What unpacking an archive into a new directory leaves there. */
  function Restored(tools: Tools, archive: string): Tree {
    tools.unpack(archive)[[] := Directory]
  }

  /** An archived directory comes back with the stable hash it had. */
  ghost predicate FaithfulArchives(tools: Tools) {
    forall t: Tree | IsDirectory(t) :: tools.hash(Restored(tools, tools.pack(t))) == tools.hash(t)
  }

  predicate IsDirectory(t: Tree) {
    [] in t && t[[]].Directory?
  }

  /** Hashes are made of hexadecimal digits; what matters is that they have no underscore. */
  predicate PlainHash(hash: string) {
    '_' !in hash
  }

  ghost predicate PlainHashes(tools: Tools) {
    forall t: Tree :: PlainHash(tools.hash(t))
  }

  /** A build step: its text goes into the signature; it may fail half-way, having changed files. */
  datatype Command = Command(text: string, effect: (Tree, string) -> Ran, skipForIncremental: bool)

  datatype Ran = Ran(ok: bool, files: Tree)

  /** The commands one after another, up to the first that fails. */
  function Effects(commands: seq<Command>, files: Tree, signature: string): Ran {
    if commands == [] then Ran(true, files) else
      var before := Effects(commands[..|commands| - 1], files, signature);
      if before.ok then commands[|commands| - 1].effect(before.files, signature) else before
  }

  function Texts(commands: seq<Command>): seq<string> {
    seq(|commands|, i requires 0 <= i < |commands| => commands[i].text)
  }

  /** Commands that change nothing away from the given places. */
  ghost predicate Confined(commands: seq<Command>, places: set<Path>) {
    forall c | c in commands :: forall files, signature :: AgreeAway(files, c.effect(files, signature).files, places)
  }

  lemma {:induction false} EffectsConfined(commands: seq<Command>, files: Tree, signature: string, places: set<Path>)
    requires Confined(commands, places)
    ensures AgreeAway(files, Effects(commands, files, signature).files, places)
  {
    if commands != [] {
      var front := commands[..|commands| - 1];
      EffectsConfined(front, files, signature, places);
      var before := Effects(front, files, signature);
      if before.ok {
        AgreeAwayTwice(files, before.files, commands[|commands| - 1].effect(before.files, signature).files, places);
      }
    }
  }

  /** The first command runs on the files as they are, and the rest on what it made, unless it failed. */
  lemma {:induction false} EffectsInTurn(c: Command, rest: seq<Command>, files: Tree, signature: string)
    ensures Effects([], files, signature) == Ran(true, files)
    ensures
      var made := c.effect(files, signature);
      Effects([c] + rest, files, signature) == if made.ok then Effects(rest, made.files, signature) else made
    decreases |rest|
  {
    var all := [c] + rest;
    assert all[|all| - 1] == if rest == [] then c else rest[|rest| - 1];
    if rest == [] {
      assert all[..|all| - 1] == [];
    } else {
      var front := rest[..|rest| - 1];
      assert all[..|all| - 1] == [c] + front;
      EffectsInTurn(c, front, files, signature);
    }
  }

  // ----- Keys

  function ObjectKey(package: string, hash: string): string {
    "object/" + package + "_" + hash + ".tgz"
  }

  function SignatureKey(signature: string): string {
    "computed/" + signature + ".txt"
  }

  /** Different outputs, and outputs of different packages, have different keys. */
  lemma ObjectKeysDiffer(package: string, hash: string, package': string, hash': string)
    requires PlainHash(hash) && PlainHash(hash') && ObjectKey(package, hash) == ObjectKey(package', hash')
    ensures package == package' && hash == hash'
  {
    var prefix, suffix := "object/", ".tgz";
    var a, b := package + "_" + hash, package' + "_" + hash';
    Unwrapped(prefix, suffix, a, b, ObjectKey(package, hash), ObjectKey(package', hash'));
    LastUnderscore(package, hash, package', hash', a);
  }

  lemma SignatureKeysDiffer(signature: string, signature': string)
    requires SignatureKey(signature) == SignatureKey(signature')
    ensures signature == signature'
  {
    Unwrapped("computed/", ".txt", signature, signature', SignatureKey(signature), SignatureKey(signature'));
  }

  lemma Unwrapped(prefix: string, suffix: string, a: string, b: string, wholeA: string, wholeB: string)
    requires wholeA == prefix + a + suffix && wholeB == prefix + b + suffix && wholeA == wholeB
    ensures a == b
  {
    assert a == wholeA[|prefix|..|wholeA| - |suffix|];
    assert b == wholeB[|prefix|..|wholeB| - |suffix|];
  }

  lemma LastUnderscore(package: string, hash: string, package': string, hash': string, whole: string)
    requires PlainHash(hash) && PlainHash(hash')
    requires whole == package + "_" + hash && whole == package' + "_" + hash'
    ensures package == package' && hash == hash'
  {
    var k, k' := |package|, |package'|;
    assert whole[k] == '_' && whole[k'] == '_';
    assert forall i | k < i < |whole| :: whole[i] == hash[i - k - 1];
    assert forall i | k' < i < |whole| :: whole[i] == hash'[i - k' - 1];
    assert k == k';
    assert package == whole[..k] == package';
    assert hash == whole[k + 1..] == hash';
  }

  /** The store holds an output of the package, and the signature names its hash: the names of both, written out. */
  predicate StoredUnder(data: map<string, string>, package: string, signature: string, hash: string) {
    && "computed/" + signature + ".txt" in data && data["computed/" + signature + ".txt"] == hash
    && "object/" + package + "_" + hash + ".tgz" in data
  }

  lemma KindsOfKeysDiffer(package: string, hash: string, signature: string)
    ensures ObjectKey(package, hash) != SignatureKey(signature)
  {
    assert ObjectKey(package, hash)[0] == 'o' && SignatureKey(signature)[0] == 'c';
  }

  // ----- The store

  /** A run that published its result. */
  datatype Publication = Publication(package: string, signature: string, hash: string)

  /** Whatever is stored as the output with some hash unpacks to a tree of that hash. */
  ghost predicate ObjectsHonest(tools: Tools, data: map<string, string>) {
    forall package, hash | PlainHash(hash) && ObjectKey(package, hash) in data ::
      tools.hash(Restored(tools, data[ObjectKey(package, hash)])) == hash
  }

  /** Each publication's output is stored, and each stored signature has been published with the hash it names. */
  ghost predicate SignaturesBacked(data: map<string, string>, published: set<Publication>) {
    && (forall p | p in published :: PlainHash(p.hash) && ObjectKey(p.package, p.hash) in data)
    && (forall signature | SignatureKey(signature) in data ::
          exists p :: p in published && p.signature == signature && p.hash == data[SignatureKey(signature)])
  }

  ghost predicate Sound(tools: Tools, data: map<string, string>, published: set<Publication>) {
    ObjectsHonest(tools, data) && SignaturesBacked(data, published)
  }

  lemma EmptySound(tools: Tools)
    ensures Sound(tools, map[], {})
  {
  }

  /** Storing an output under its own hash keeps the store sound, whether or not something was there before. */
  lemma ObjectKeepsSound(tools: Tools, data: map<string, string>, published: set<Publication>,
                         package: string, t: Tree)
    requires Sound(tools, data, published) && FaithfulArchives(tools) && PlainHashes(tools) && IsDirectory(t)
    ensures Sound(tools, data[ObjectKey(package, tools.hash(t)) := tools.pack(t)], published)
  {
    hide ObjectKey, SignatureKey;
    var h := tools.hash(t);
    var data' := data[ObjectKey(package, h) := tools.pack(t)];
    forall package', hash' | PlainHash(hash') && ObjectKey(package', hash') in data'
      ensures tools.hash(Restored(tools, data'[ObjectKey(package', hash')])) == hash'
    {
      if ObjectKey(package', hash') == ObjectKey(package, h) {
        ObjectKeysDiffer(package', hash', package, h);
      }
    }
    forall signature | SignatureKey(signature) in data'
      ensures exists p :: p in published && p.signature == signature && p.hash == data'[SignatureKey(signature)]
    {
      KindsOfKeysDiffer(package, h, signature);
    }
  }

  /** Naming a stored output as a signature's result keeps the store sound. */
  lemma SignatureKeepsSound(tools: Tools, data: map<string, string>, published: set<Publication>, p: Publication)
    requires Sound(tools, data, published) && PlainHash(p.hash) && ObjectKey(p.package, p.hash) in data
    ensures Sound(tools, data[SignatureKey(p.signature) := p.hash], published + {p})
  {
    hide ObjectKey, SignatureKey;
    var data' := data[SignatureKey(p.signature) := p.hash];
    forall package', hash' | PlainHash(hash') && ObjectKey(package', hash') in data'
      ensures ObjectKey(package', hash') in data
      ensures data'[ObjectKey(package', hash')] == data[ObjectKey(package', hash')]
    {
      KindsOfKeysDiffer(package', hash', p.signature);
    }
    forall q | q in published + {p}
      ensures PlainHash(q.hash) && ObjectKey(q.package, q.hash) in data'
    {
    }
    forall signature | SignatureKey(signature) in data'
      ensures exists q :: q in published + {p} && q.signature == signature && q.hash == data'[SignatureKey(signature)]
    {
      if SignatureKey(signature) == SignatureKey(p.signature) {
        SignatureKeysDiffer(signature, p.signature);
        assert p in published + {p};
      } else {
        var q :| q in published && q.signature == signature && q.hash == data[SignatureKey(signature)];
        assert q in published + {p};
      }
    }
  }

  /** No two packages have published under this signature. */
  ghost predicate SignatureOf(published: set<Publication>, signature: string, package: string) {
    forall p | p in published && p.signature == signature :: p.package == package
  }

  /** The output with this hash is stored and unpacks to a tree with this hash. */
  ghost predicate StoredAs(tools: Tools, data: map<string, string>, package: string, hash: string) {
    ObjectKey(package, hash) in data && tools.hash(Restored(tools, data[ObjectKey(package, hash)])) == hash
  }

  /** The signature is stored, and so is the output it names. */
  ghost predicate Backed(tools: Tools, data: map<string, string>, package: string, signature: string) {
    SignatureKey(signature) in data && StoredAs(tools, data, package, data[SignatureKey(signature)])
  }

  /** A stored signature leads to a stored output that has the hash it names, published by an earlier run. */
  lemma HitIsBacked(tools: Tools, data: map<string, string>, published: set<Publication>, signature: string,
                    package: string)
    requires Sound(tools, data, published) && SignatureKey(signature) in data
    requires SignatureOf(published, signature, package)
    ensures Backed(tools, data, package, signature)
    ensures Publication(package, signature, data[SignatureKey(signature)]) in published
  {
    hide ObjectKey, SignatureKey;
    var p :| p in published && p.signature == signature && p.hash == data[SignatureKey(signature)];
    assert p == Publication(package, signature, data[SignatureKey(signature)]);
  }

  // ----- How a store may develop

  datatype Store = Store(data: map<string, string>, published: set<Publication>)

  ghost predicate StoresOutput(tools: Tools, a: Store, b: Store, package: string, t: Tree) {
    IsDirectory(t) && b == Store(a.data[ObjectKey(package, tools.hash(t)) := tools.pack(t)], a.published)
  }

  ghost predicate NamesOutput(a: Store, b: Store, p: Publication) {
    && PlainHash(p.hash) && ObjectKey(p.package, p.hash) in a.data
    && b == Store(a.data[SignatureKey(p.signature) := p.hash], a.published + {p})
  }

  ghost predicate Step(tools: Tools, a: Store, b: Store) {
    (exists package, t :: StoresOutput(tools, a, b, package, t)) || exists p :: NamesOutput(a, b, p)
  }

  ghost predicate History(tools: Tools, stores: seq<Store>) {
    stores != [] && forall i | 0 <= i < |stores| - 1 :: Step(tools, stores[i], stores[i + 1])
  }

  ghost predicate Evolves(tools: Tools, a: Store, b: Store) {
    exists stores :: History(tools, stores) && stores[0] == a && stores[|stores| - 1] == b
  }

  lemma OutputStep(tools: Tools, a: Store, b: Store, package: string, t: Tree)
    requires StoresOutput(tools, a, b, package, t)
    ensures Step(tools, a, b)
  {
  }

  lemma NameStep(tools: Tools, a: Store, b: Store, p: Publication)
    requires NamesOutput(a, b, p)
    ensures Step(tools, a, b)
  {
  }

  lemma EvolvesSelf(tools: Tools, a: Store)
    ensures Evolves(tools, a, a)
  {
    assert History(tools, [a]);
  }

  lemma EvolvesOn(tools: Tools, a: Store, b: Store, c: Store)
    requires Evolves(tools, a, b) && Step(tools, b, c)
    ensures Evolves(tools, a, c)
  {
    hide Step;
    var stores :| History(tools, stores) && stores[0] == a && stores[|stores| - 1] == b;
    var more := stores + [c];
    forall i | 0 <= i < |more| - 1
      ensures Step(tools, more[i], more[i + 1])
    {
      if i < |stores| - 1 { assert Step(tools, stores[i], stores[i + 1]); }
    }
    assert History(tools, more);
  }

  lemma StepKeeps(tools: Tools, a: Store, b: Store)
    requires Step(tools, a, b) && Sound(tools, a.data, a.published) && FaithfulArchives(tools) && PlainHashes(tools)
    ensures Sound(tools, b.data, b.published) && a.data.Keys <= b.data.Keys && a.published <= b.published
  {
    hide Sound, ObjectKey, SignatureKey;
    if package, t :| StoresOutput(tools, a, b, package, t) {
      ObjectKeepsSound(tools, a.data, a.published, package, t);
    } else {
      var p :| NamesOutput(a, b, p);
      SignatureKeepsSound(tools, a.data, a.published, p);
    }
  }

  /** Whatever is done with an empty store, it is sound at every moment and never loses a key or a publication. */
  lemma {:induction false} HistoryIsSound(tools: Tools, stores: seq<Store>, i: nat, j: nat)
    requires History(tools, stores) && stores[0] == Store(map[], {}) && FaithfulArchives(tools) && PlainHashes(tools)
    requires i <= j < |stores|
    ensures Sound(tools, stores[j].data, stores[j].published)
    ensures stores[i].data.Keys <= stores[j].data.Keys && stores[i].published <= stores[j].published
    decreases j
  {
    hide Step, Sound;
    if j == 0 {
      EmptySound(tools);
    } else {
      HistoryIsSound(tools, stores, if i < j then i else 0, j - 1);
      assert Step(tools, stores[j - 1], stores[j - 1 + 1]);
      StepKeeps(tools, stores[j - 1], stores[j]);
    }
  }

  /**
   * Once a package's run of a signature has been published, a later look-up of that signature finds an output of the
   * package whose hash is the one named, and some published run of the signature had that hash.
   */
  lemma PublishedStaysBacked(tools: Tools, stores: seq<Store>, i: nat, j: nat, p: Publication)
    requires History(tools, stores) && stores[0] == Store(map[], {}) && FaithfulArchives(tools) && PlainHashes(tools)
    requires i <= j < |stores| && p in stores[i].published && SignatureOf(stores[j].published, p.signature, p.package)
    ensures Backed(tools, stores[j].data, p.package, p.signature)
    ensures Publication(p.package, p.signature, stores[j].data[SignatureKey(p.signature)]) in stores[j].published
  {
    hide Sound, Backed, SignatureOf, History;
    HistoryIsSound(tools, stores, i, j);
    PublishedIsStored(tools, stores, i, p);
    HitIsBacked(tools, stores[j].data, stores[j].published, p.signature, p.package);
  }

  lemma {:induction false} PublishedIsStored(tools: Tools, stores: seq<Store>, i: nat, p: Publication)
    requires History(tools, stores) && stores[0] == Store(map[], {}) && i < |stores| && p in stores[i].published
    ensures SignatureKey(p.signature) in stores[i].data
    decreases i
  {
    hide ObjectKey, SignatureKey;
    if i > 0 {
      var a, b := stores[i - 1], stores[i];
      assert Step(tools, stores[i - 1], stores[i - 1 + 1]);
      if p in a.published { PublishedIsStored(tools, stores, i - 1, p); }
      if package, t :| StoresOutput(tools, a, b, package, t) {
      } else {
        var q :| NamesOutput(a, b, q);
      }
    }
  }

  /** A storage layer. A steady one always succeeds; any other may fail to find what is there, or to write. */
  class Storage {
    const steady: bool
    var data: map<string, string>
    ghost var published: set<Publication>

    constructor (steady: bool)
      ensures this.steady == steady && data == map[] && published == {}
    {
      this.steady := steady;
      data, published := map[], {};
    }

    ghost function State(): Store
      reads this
    {
      Store(data, published)
    }

    method Get(key: string) returns (r: Option<string>)
      ensures r.Some? ==> key in data && r.value == data[key]
      ensures steady && key in data ==> r.Some?
    {
      var lost := *;
      r := if key in data && (steady || !lost) then Some(data[key]) else None;
    }

    method Put(value: string, key: string) returns (ok: bool)
      modifies this`data
      ensures data == if ok then old(data)[key := value] else old(data)
      ensures steady ==> ok
    {
      var lost := *;
      ok := steady || !lost;
      if ok {
        data := data[key := value];
      }
    }
  }

  class Disk {
    var files: Tree

    constructor (files: Tree)
      ensures this.files == files
    {
      this.files := files;
    }
  }

  // ----- Memoized runs

  /** Where a stored output came from or went to. */
  datatype Item = Item(key: string, digest: string)

  function ItemOf(tools: Tools, key: string, archive: string): Item {
    Item(key, tools.digest(archive))
  }

  datatype Outcome = Hit | Built | CommandFailed | NotStored | Blocked

  function CurrentHash(tools: Tools, files: Tree, path: Path): string {
    "item:" + tools.hash(At(files, path))
  }

  /** The hash a signature takes for a path: the one remembered from before if there is one. */
  function SeenHash(tools: Tools, cache: map<Path, string>, files: Tree, path: Path): string {
    if path in cache then cache[path] else CurrentHash(tools, files, path)
  }

  function SeenHashes(tools: Tools, cache: map<Path, string>, files: Tree, inputs: map<string, Path>)
    : map<string, string>
  {
    map name | name in inputs :: SeenHash(tools, cache, files, inputs[name])
  }

  function Remembered(tools: Tools, cache: map<Path, string>, files: Tree, inputs: map<string, Path>)
    : (r: map<Path, string>)
    ensures r.Keys == cache.Keys + inputs.Values
    ensures forall p | p in r :: r[p] == SeenHash(tools, cache, files, p)
  {
    cache + map path | path in inputs.Values :: SeenHash(tools, cache, files, path)
  }

  function Signature(tools: Tools, package: string, commands: seq<Command>, items: map<string, string>): string {
    tools.sign(Material(package, tools.summary, Texts(commands), items))
  }

  // ----- What a signature is made of

  /** The hash that goes in for a path: the one remembered for it, or that of what lies there. */
  function UsedHash(tools: Tools, cache: map<Path, string>, files: Tree, path: Path): string {
    if path in cache then cache[path] else "item:" + tools.hash(At(files, path))
  }

  /** The package, the machine, the text of each command in turn, and a hash for each of the inputs. */
  ghost predicate MadeOf(m: Material, tools: Tools, package: string, commands: seq<Command>, inputs: map<string, Path>,
                         cache: map<Path, string>, files: Tree)
  {
    && m.package == package && m.summary == tools.summary && |m.commands| == |commands|
    && (forall i | 0 <= i < |commands| :: m.commands[i] == commands[i].text)
    && m.items.Keys == inputs.Keys
    && forall name | name in inputs :: m.items[name] == UsedHash(tools, cache, files, inputs[name])
  }

  ghost predicate Signs(tools: Tools, signature: string, package: string, commands: seq<Command>,
                        inputs: map<string, Path>, cache: map<Path, string>, files: Tree)
  {
    exists m :: MadeOf(m, tools, package, commands, inputs, cache, files) && signature == tools.sign(m)
  }

  /** No two materials have the same signature. */
  ghost predicate TellsAll(tools: Tools) {
    forall m, m' | tools.sign(m) == tools.sign(m') :: m == m'
  }

  lemma SignatureSigns(tools: Tools, package: string, commands: seq<Command>, inputs: map<string, Path>,
                       cache: map<Path, string>, files: Tree)
    ensures Signs(tools, Signature(tools, package, commands, SeenHashes(tools, cache, files, inputs)), package,
                  commands, inputs, cache, files)
  {
    var m := Material(package, tools.summary, Texts(commands), SeenHashes(tools, cache, files, inputs));
    assert MadeOf(m, tools, package, commands, inputs, cache, files);
  }

  /** What two computations must have in common to have one signature: everything that went into it. */
  lemma SameSignatureIff(tools: Tools, signature: string, package: string, commands: seq<Command>,
                         inputs: map<string, Path>, cache: map<Path, string>, files: Tree,
                         signature': string, package': string, commands': seq<Command>,
                         inputs': map<string, Path>, cache': map<Path, string>, files': Tree)
    requires TellsAll(tools) && Signs(tools, signature, package, commands, inputs, cache, files)
    requires Signs(tools, signature', package', commands', inputs', cache', files')
    ensures signature == signature' <==>
            && package == package' && |commands| == |commands'| && inputs.Keys == inputs'.Keys
            && (forall i | 0 <= i < |commands| :: commands[i].text == commands'[i].text)
            && (forall name | name in inputs ::
                  UsedHash(tools, cache, files, inputs[name]) == UsedHash(tools, cache', files', inputs'[name]))
  {
    hide UsedHash;
    var m :| MadeOf(m, tools, package, commands, inputs, cache, files) && signature == tools.sign(m);
    var m' :| MadeOf(m', tools, package', commands', inputs', cache', files') && signature' == tools.sign(m');
    assert m == m' <==> m.package == m'.package && m.commands == m'.commands && m.items == m'.items;
    assert m == m' <==> signature == signature';
    assert forall name | name in inputs :: name in m.items;
    assert forall name | name in inputs' :: name in m'.items;
  }

  /** Whether the output and working directories can be made. */
  predicate CanPrepare(files: Tree, output: Path, work: Option<Path>) {
    && CanMake(files, output)
    && (work.None? || CanMake(WithDirectories(files, output), work.value))
  }

  function Prepared(files: Tree, output: Path, work: Option<Path>): Tree {
    var r := WithDirectories(files, output);
    if work.None? then r else WithDirectories(r, work.value)
  }

  function Places(output: Path, work: Option<Path>): set<Path> {
    {output} + if work.None? then {} else {work.value}
  }

  lemma PreparedNearby(files: Tree, output: Path, work: Option<Path>)
    ensures AgreeAway(files, Prepared(files, output, work), Places(output, work))
  {
    var places := Places(output, work);
    forall p | !Near(p, places)
      ensures Agree(files, Prepared(files, output, work), p)
    {
      assert !Related(p, output);
      assert work.Some? ==> !Related(p, work.value);
    }
  }

  class Once {
    const storage: Storage
    const disk: Disk
    const tools: Tools
    const useCachedResults: bool
    const cacheResults: bool
    var cachedDirItems: map<string, Item>
    var pathHashCache: map<Path, string>

    constructor (storage: Storage, disk: Disk, tools: Tools, useCachedResults: bool, cacheResults: bool)
      ensures this.storage == storage && this.disk == disk && this.tools == tools
      ensures this.useCachedResults == useCachedResults && this.cacheResults == cacheResults
      ensures cachedDirItems == map[] && pathHashCache == map[]
    {
      this.storage, this.disk, this.tools := storage, disk, tools;
      this.useCachedResults, this.cacheResults := useCachedResults, cacheResults;
      cachedDirItems, pathHashCache := map[], map[];
    }

    /** Replaces the destination, by an empty directory if there is nothing to unpack. */
    method GetDirectory(key: string, path: Path) returns (r: Option<Item>)
      modifies disk
      ensures r.Some? ==> key in storage.data && r.value == ItemOf(tools, key, storage.data[key])
      ensures r.Some? ==> disk.files == Placed(old(disk.files), path, Restored(tools, storage.data[key]))
      ensures r.None? ==> disk.files == Placed(old(disk.files), path, map[[] := Directory])
      ensures storage.steady && key in storage.data ==> r.Some?
    {
      var archive := storage.Get(key);
      if archive.None? {
        disk.files := Placed(disk.files, path, map[[] := Directory]);
        return None;
      }
      disk.files := Placed(disk.files, path, Restored(tools, archive.value));
      r := Some(ItemOf(tools, key, archive.value));
    }

    method WriteOutputFromHash(package: string, hash: string, output: Path) returns (r: Option<Item>)
      modifies disk
      ensures AgreeAway(old(disk.files), disk.files, {output})
      ensures r.Some? ==>
                var key := ObjectKey(package, hash);
                && key in storage.data && r.value == ItemOf(tools, key, storage.data[key])
                && disk.files == Placed(old(disk.files), output, Restored(tools, storage.data[key]))
                && tools.hash(At(disk.files, output)) == hash
      ensures storage.steady && StoredAs(tools, storage.data, package, hash) ==> r.Some?
    {
      hide ObjectKey, Placed, Restored, At;
      var key := ObjectKey(package, hash);
      r := GetDirectory(key, output);
      PlacedThere(old(disk.files), output, map[[] := Directory]);
      if r.None? {
        return;
      }
      PlacedThere(old(disk.files), output, Restored(tools, storage.data[key]));
      if tools.hash(At(disk.files, output)) != hash {
        r := None;
      }
    }

    method ReadMemoizedResultFromCache(package: string, signature: string, output: Path) returns (hit: bool)
      modifies this`cachedDirItems, disk
      ensures AgreeAway(old(disk.files), disk.files, {output})
      ensures hit ==> useCachedResults && SignatureKey(signature) in storage.data
      ensures hit ==> TookNamed(old(disk.files), package, signature, output, old(cachedDirItems))
      ensures !hit ==> cachedDirItems == old(cachedDirItems)
      ensures !hit && !(useCachedResults && SignatureKey(signature) in storage.data) ==> disk.files == old(disk.files)
      ensures storage.steady && useCachedResults && Backed(tools, storage.data, package, signature) ==> hit
    {
      hide ObjectKey, SignatureKey, Placed, Restored, At, AgreeAway, StoredAs;
      assert AgreeAway(disk.files, disk.files, {output}) by { Unchanged(disk.files, {output}); }
      if useCachedResults {
        var hash := storage.Get(SignatureKey(signature));
        if hash.Some? {
          var item := WriteOutputFromHash(package, hash.value, output);
          if item.Some? {
            cachedDirItems := cachedDirItems[package := item.value];
            return true;
          }
        }
      }
      return false;
    }

    /** Runs the commands in turn until one fails. */
    method Invoke(commands: seq<Command>, signature: string) returns (ok: bool)
      modifies disk
      ensures Ran(ok, disk.files) == Effects(commands, old(disk.files), signature)
    {
      for i := 0 to |commands|
        invariant Ran(true, disk.files) == Effects(commands[..i], old(disk.files), signature)
      {
        assert commands[..i + 1][..i] == commands[..i];
        var ran := commands[i].effect(disk.files, signature);
        disk.files := ran.files;
        if !ran.ok {
          FailureStays(commands, i + 1, old(disk.files), signature);
          return false;
        }
      }
      assert commands[..|commands|] == commands;
      return true;
    }

    /** The signature of a computation; hashes of inputs are taken from the cache or put there. */
    method BuildSignature(package: string, inputs: map<string, Path>, commands: seq<Command>)
      returns (signature: string)
      modifies this`pathHashCache
      ensures signature ==
              Signature(tools, package, commands, SeenHashes(tools, old(pathHashCache), disk.files, inputs))
      ensures Signs(tools, signature, package, commands, inputs, old(pathHashCache), disk.files)
      ensures pathHashCache == Remembered(tools, old(pathHashCache), disk.files, inputs)
    {
      hide SeenHash, SeenHashes, Remembered, CurrentHash, Signature, Signs;
      SignatureSigns(tools, package, commands, inputs, pathHashCache, disk.files);
      NoneSeen(tools, pathHashCache, disk.files);
      var items: map<string, string> := map[];
      var names := inputs.Keys;
      ghost var done: map<string, Path> := map[];
      while names != {}
        invariant names <= inputs.Keys && done == map name | name in inputs && name !in names :: inputs[name]
        invariant items == SeenHashes(tools, old(pathHashCache), disk.files, done)
        invariant pathHashCache == Remembered(tools, old(pathHashCache), disk.files, done)
        decreases names
      {
        var name :| name in names;
        var path := inputs[name];
        ghost var more := done[name := path];
        OneMoreSeen(tools, old(pathHashCache), disk.files, done, name, path, pathHashCache);
        if path !in pathHashCache {
          pathHashCache := pathHashCache[path := CurrentHash(tools, disk.files, path)];
        }
        items := items[name := pathHashCache[path]];
        names := names - {name};
        done := more;
      }
      assert done == inputs;
      signature := Signature(tools, package, commands, items);
    }

    method PutDirectory(path: Path, key: string) returns (r: Option<Item>)
      modifies storage`data
      ensures r.Some? ==> IsDirectory(At(disk.files, path))
      ensures r.Some? ==> r.value == ItemOf(tools, key, tools.pack(At(disk.files, path)))
      ensures r.Some? ==> storage.data == old(storage.data)[key := tools.pack(At(disk.files, path))]
      ensures r.None? ==> storage.data == old(storage.data)
      ensures storage.steady && IsDirectory(At(disk.files, path)) ==> r.Some?
    {
      if !IsDirectory(At(disk.files, path)) {
        return None;
      }
      var archive := tools.pack(At(disk.files, path));
      var ok := storage.Put(archive, key);
      r := if ok then Some(ItemOf(tools, key, archive)) else None;
    }

    /** Makes sure the output is stored, and takes the stored copy in its place if there was one already. */
    method StoreOutput(package: string, hash: string, output: Path) returns (r: Option<Item>)
      requires hash == tools.hash(At(disk.files, output))
      requires Sound(tools, storage.data, storage.published) && FaithfulArchives(tools) && PlainHashes(tools)
      modifies disk, storage`data
      ensures Sound(tools, storage.data, storage.published)
      ensures Evolves(tools, old(storage.State()), storage.State())
      ensures AgreeAway(old(disk.files), disk.files, {output}) && tools.hash(At(disk.files, output)) == hash
      ensures disk.files == old(disk.files) ||
              (useCachedResults && ObjectKey(package, hash) in old(storage.data) &&
               disk.files == Placed(old(disk.files), output,
                                    Restored(tools, old(storage.data)[ObjectKey(package, hash)])))
      ensures storage.steady ==>
                disk.files == if useCachedResults && ObjectKey(package, hash) in old(storage.data)
                              then Placed(old(disk.files), output,
                                          Restored(tools, old(storage.data)[ObjectKey(package, hash)]))
                              else old(disk.files)
      ensures storage.data == old(storage.data) ||
              storage.data == old(storage.data)[ObjectKey(package, hash) := tools.pack(At(old(disk.files), output))]
      ensures r.None? ==> storage.data == old(storage.data)
      ensures r.Some? ==> ObjectKey(package, hash) in storage.data
      ensures r.Some? ==> r.value == ItemOf(tools, ObjectKey(package, hash), storage.data[ObjectKey(package, hash)])
      ensures storage.steady && ObjectKey(package, hash) in old(storage.data) ==>
                r.Some? && storage.data == old(storage.data)
      ensures storage.steady && ObjectKey(package, hash) !in old(storage.data) ==>
                (r.Some? <==> IsDirectory(At(old(disk.files), output)))
    {
      hide ObjectKey, SignatureKey, Placed, Restored, At, AgreeAway, IsDirectory, SignaturesBacked, Evolves, Step;
      EvolvesSelf(tools, storage.State());
      var key := ObjectKey(package, hash);
      assert AgreeAway(disk.files, disk.files, {output}) by { Unchanged(disk.files, {output}); }
      var stored := storage.Get(key);
      if stored.Some? {
        var restored := Restored(tools, stored.value);
        PlacedThere(disk.files, output, restored);
        if useCachedResults {
          disk.files := Placed(disk.files, output, restored);
        }
        r := Some(ItemOf(tools, key, stored.value));
      } else {
        if IsDirectory(At(disk.files, output)) {
          ObjectKeepsSound(tools, storage.data, storage.published, package, At(disk.files, output));
        }
        ghost var before := storage.State();
        r := PutDirectory(output, key);
        if r.Some? {
          OutputStep(tools, before, storage.State(), package, At(disk.files, output));
          EvolvesOn(tools, before, before, storage.State());
        }
      }
    }

    /** Maps the signature to the hash of a stored output. */
    method NameResult(package: string, signature: string, hash: string) returns (ok: bool)
      requires Sound(tools, storage.data, storage.published) && PlainHash(hash)
      requires ObjectKey(package, hash) in storage.data
      modifies storage
      ensures Sound(tools, storage.data, storage.published)
      ensures !ok ==> unchanged(storage)
      ensures ok ==> Step(tools, old(storage.State()), storage.State())
      ensures ok ==> storage.data == old(storage.data)[SignatureKey(signature) := hash]
      ensures ok ==> storage.published == old(storage.published) + {Publication(package, signature, hash)}
      ensures storage.steady ==> ok
    {
      hide ObjectKey, SignatureKey, Sound, Step;
      ghost var p, before := Publication(package, signature, hash), storage.State();
      SignatureKeepsSound(tools, storage.data, storage.published, p);
      ok := storage.Put(hash, SignatureKey(signature));
      if ok {
        storage.published := storage.published + {p};
        NameStep(tools, before, storage.State(), p);
      }
    }

    method WriteResultToCache(package: string, signature: string, output: Path) returns (ok: bool)
      requires Sound(tools, storage.data, storage.published) && FaithfulArchives(tools) && PlainHashes(tools)
      modifies this`cachedDirItems, disk, storage
      ensures Sound(tools, storage.data, storage.published)
      ensures AgreeAway(old(disk.files), disk.files, {output})
      ensures Wrote(old(disk.files), package, signature, output, ok, old(storage.data), old(cachedDirItems),
                    old(storage.published))
      ensures old(storage.published) <= storage.published && Evolves(tools, old(storage.State()), storage.State())
    {
      hide Evolves, Step, ObjectKey, SignatureKey, Placed, Restored, At, AgreeAway, IsDirectory, Sound, AfterWriting;
      EvolvesSelf(tools, storage.State());
      assert AgreeAway(disk.files, disk.files, {output}) by { Unchanged(disk.files, {output}); }
      if !cacheResults {
        return true;
      }
      ok := StoreAndName(package, signature, output);
    }

    method StoreAndName(package: string, signature: string, output: Path) returns (ok: bool)
      requires Sound(tools, storage.data, storage.published) && FaithfulArchives(tools) && PlainHashes(tools)
      requires cacheResults
      modifies this`cachedDirItems, disk, storage
      ensures Sound(tools, storage.data, storage.published) && Evolves(tools, old(storage.State()), storage.State())
      ensures AgreeAway(old(disk.files), disk.files, {output})
      ensures tools.hash(At(disk.files, output)) == tools.hash(At(old(disk.files), output))
      ensures disk.files == old(disk.files) || TookStored(old(disk.files), old(storage.data), package, output)
      ensures !ok ==> storage.published == old(storage.published) && cachedDirItems == old(cachedDirItems)
      ensures ok ==> Recorded(package, signature, tools.hash(At(old(disk.files), output)), old(cachedDirItems),
                              old(storage.published))
      ensures storage.steady ==> WroteSteadily(old(disk.files), package, signature, output, ok, old(storage.data))
    {
      hide Evolves, Step, ObjectKey, SignatureKey, Placed, Restored, At, AgreeAway, IsDirectory, Sound, ItemOf;
      var hash := tools.hash(At(disk.files, output));
      var item := StoreOutput(package, hash, output);
      if item.None? {
        return false;
      }
      ghost var before := storage.State();
      KindsOfKeysDiffer(package, hash, signature);
      ok := NameResult(package, signature, hash);
      if ok {
        EvolvesOn(tools, old(storage.State()), before, storage.State());
        cachedDirItems := cachedDirItems[package := item.value];
      }
    }

    /** The inputs of a computation as its signature sees them. */
    function SignatureNow(package: string, inputs: map<string, Path>, commands: seq<Command>, files: Tree): string
      reads this
    {
      Signature(tools, package, commands, SeenHashes(tools, pathHashCache, files, inputs))
    }

    /**
     * Runs the commands, or takes the output that an earlier run with the same signature stored. Whatever the store
     * holds and whichever step fails, a sound store stays sound.
     */
    method Run(package: string, inputs: map<string, Path>, output: Path, commands: seq<Command>,
               work: Option<Path>, memoize: bool) returns (r: Outcome, signature: string, ghost start: Tree)
      requires Sound(tools, storage.data, storage.published) && FaithfulArchives(tools) && PlainHashes(tools)
      requires Confined(commands, Places(output, work))
      modifies this, disk, storage
      ensures Sound(tools, storage.data, storage.published) && Evolves(tools, old(storage.State()), storage.State())
      ensures old(storage.published) <= storage.published
      ensures AgreeAway(old(disk.files), disk.files, Places(output, work))
      ensures r.Blocked? <==> !CanPrepare(old(disk.files), output, work)
      ensures r.Blocked? ==> unchanged(this) && unchanged(storage) && unchanged(disk)
      ensures !r.Blocked? ==>
                var prepared := Prepared(old(disk.files), output, work);
                && signature == old(SignatureNow(package, inputs, commands, prepared))
                && Signs(tools, signature, package, commands, inputs, old(pathHashCache), prepared)
                && pathHashCache == Remembered(tools, old(pathHashCache), prepared, inputs)
                && (start == prepared || (memoize && useCachedResults && SignatureKey(signature) in old(storage.data)))
      ensures r.Hit? ==> memoize && useCachedResults && unchanged(storage)
      ensures r.Hit? ==> TookNamed(start, package, signature, output, old(cachedDirItems))
      ensures storage.steady && !r.Blocked? && SignatureOf(old(storage.published), signature, package) ==>
                (r.Hit? <==> memoize && useCachedResults && SignatureKey(signature) in old(storage.data))
      ensures r.CommandFailed? ==> unchanged(storage) && Effects(commands, start, signature) == Ran(false, disk.files)
      ensures r.Built? || r.NotStored? ==> Effects(commands, start, signature).ok
      ensures (r.Built? || r.NotStored?) && !memoize ==>
                r.Built? && unchanged(storage) && disk.files == Effects(commands, start, signature).files
      ensures (r.Built? || r.NotStored?) && memoize ==>
                Wrote(Effects(commands, start, signature).files, package, signature, output, r.Built?,
                      old(storage.data), old(cachedDirItems), old(storage.published))
      ensures r.Hit? || (r.Built? && memoize && cacheResults) ==>
                StoredUnder(storage.data, package, signature, tools.hash(At(disk.files, output)))
    {
      hide Sound, FaithfulArchives, PlainHashes, Confined, CanPrepare, Prepared, Remembered, Signature, SeenHashes,
           Places, Signs, StoredUnder;
      hide TookNamed, Wrote, Effects, SignatureOf, SignatureKey, AgreeAway, Backed;
      hide Evolves, Step;
      EvolvesSelf(tools, storage.State());
      ghost var before := disk.files;
      signature := "";
      start := disk.files;
      if !CanPrepare(disk.files, output, work) {
        Unchanged(before, Places(output, work));
        return Blocked, signature, start;
      }
      disk.files := Prepared(disk.files, output, work);
      start := disk.files;
      PreparedNearby(before, output, work);
      signature := BuildSignature(package, inputs, commands);
      assert output in Places(output, work) by { OutputIsPlace(output, work); }
      if memoize {
        if SignatureOf(storage.published, signature, package) && SignatureKey(signature) in storage.data {
          HitIsBacked(tools, storage.data, storage.published, signature, package);
        }
        var hit := ReadMemoizedResultFromCache(package, signature, output);
        AgreeAwayMore(start, disk.files, {output}, Places(output, work));
        AgreeAwayTwice(before, start, disk.files, Places(output, work));
        if hit {
          TookUnder(start, package, signature, output, old(cachedDirItems));
          return Hit, signature, start;
        }
        start := disk.files;
      }
      var ok := Invoke(commands, signature);
      EffectsConfined(commands, start, signature, Places(output, work));
      AgreeAwayTwice(before, start, disk.files, Places(output, work));
      if !ok {
        return CommandFailed, signature, start;
      }
      if memoize {
        ghost var made := disk.files;
        var written := WriteResultToCache(package, signature, output);
        AgreeAwayMore(made, disk.files, {output}, Places(output, work));
        AgreeAwayTwice(before, made, disk.files, Places(output, work));
        if written && cacheResults {
          WroteUnder(made, package, signature, output, old(storage.data), old(cachedDirItems), old(storage.published));
        }
        return if written then Built else NotStored, signature, start;
      }
      return Built, signature, start;
    }

    /** The output was replaced by the stored output that the signature names. */
    ghost predicate TookNamed(start: Tree, package: string, signature: string, output: Path, items: map<string, Item>)
      reads this, storage, disk
    {
      && SignatureKey(signature) in storage.data
      && var hash := storage.data[SignatureKey(signature)];
      && var key := ObjectKey(package, hash);
      && key in storage.data && cachedDirItems == items[package := ItemOf(tools, key, storage.data[key])]
      && disk.files == Placed(start, output, Restored(tools, storage.data[key]))
      && tools.hash(At(disk.files, output)) == hash
    }

    /** The result that the commands left has been written to the store, as far as the store would take it. */
    ghost predicate Wrote(files: Tree, package: string, signature: string, output: Path, ok: bool,
                          data: map<string, string>, items: map<string, Item>, published: set<Publication>)
      reads this, storage, disk
    {
      var hash := tools.hash(At(files, output));
      && tools.hash(At(disk.files, output)) == hash
      && (disk.files == files || TookStored(files, data, package, output))
      && (!cacheResults ==> ok && storage.data == data)
      && (!(cacheResults && ok) ==> storage.published == published && cachedDirItems == items)
      && (cacheResults && ok ==> Recorded(package, signature, hash, items, published))
      && (storage.steady && cacheResults ==> WroteSteadily(files, package, signature, output, ok, data))
    }

    lemma WroteUnder(files: Tree, package: string, signature: string, output: Path, data: map<string, string>,
                     items: map<string, Item>, published: set<Publication>)
      requires cacheResults && Wrote(files, package, signature, output, true, data, items, published)
      ensures StoredUnder(storage.data, package, signature, tools.hash(At(disk.files, output)))
    {
      hide WroteSteadily, TookStored, At;
    }

    lemma TookUnder(start: Tree, package: string, signature: string, output: Path, items: map<string, Item>)
      requires TookNamed(start, package, signature, output, items)
      ensures StoredUnder(storage.data, package, signature, tools.hash(At(disk.files, output)))
    {
      hide At, Placed, Restored;
    }

    /** What writing to a steady store comes to: it fails only if there is no output directory. */
    ghost predicate WroteSteadily(files: Tree, package: string, signature: string, output: Path, ok: bool,
                                  data: map<string, string>)
      reads this, storage, disk
    {
      var hash := tools.hash(At(files, output));
      && (ok <==> ObjectKey(package, hash) in data || IsDirectory(At(files, output)))
      && storage.data == AfterWriting(tools, data, package, signature, hash, At(files, output), ok)
      && if useCachedResults && ObjectKey(package, hash) in data then TookStored(files, data, package, output)
         else disk.files == files
    }

    /** The output was replaced by the stored copy with its hash. */
    ghost predicate TookStored(files: Tree, data: map<string, string>, package: string, output: Path)
      reads this, disk
    {
      var key := ObjectKey(package, tools.hash(At(files, output)));
      useCachedResults && key in data && disk.files == Placed(files, output, Restored(tools, data[key]))
    }

    /** The signature names the hash, the output with the hash is stored, and this is on record. */
    ghost predicate Recorded(package: string, signature: string, hash: string,
                             items: map<string, Item>, published: set<Publication>)
      reads this, storage
    {
      var key := ObjectKey(package, hash);
      && SignatureKey(signature) in storage.data && storage.data[SignatureKey(signature)] == hash && key in storage.data
      && storage.published == published + {Publication(package, signature, hash)}
      && cachedDirItems == items[package := ItemOf(tools, key, storage.data[key])]
    }
  }

  /** What a steady store holds after a result has been written. */
  function AfterWriting(tools: Tools, data: map<string, string>, package: string, signature: string, hash: string,
                        t: Tree, ok: bool)
    : map<string, string>
  {
    var key := ObjectKey(package, hash);
    if !ok then data
    else (if key in data then data else data[key := tools.pack(t)])[SignatureKey(signature) := hash]
  }

  lemma OutputIsPlace(output: Path, work: Option<Path>)
    ensures output in Places(output, work)
  {
  }

  lemma Unchanged(files: Tree, places: set<Path>)
    ensures AgreeAway(files, files, places)
  {
  }

  lemma {:induction false} FailureStays(commands: seq<Command>, i: nat, files: Tree, signature: string)
    requires i <= |commands| && !Effects(commands[..i], files, signature).ok
    ensures Effects(commands, files, signature) == Effects(commands[..i], files, signature)
    decreases |commands| - i
  {
    if i == |commands| {
      assert commands[..i] == commands;
    } else {
      assert commands[..i + 1][..i] == commands[..i];
      FailureStays(commands, i + 1, files, signature);
    }
  }

  lemma NoneSeen(tools: Tools, cache: map<Path, string>, files: Tree)
    ensures SeenHashes(tools, cache, files, map[]) == map[] && Remembered(tools, cache, files, map[]) == cache
  {
  }

  lemma OneMoreValue(done: map<string, Path>, name: string, path: Path)
    requires name !in done
    ensures done[name := path].Values == done.Values + {path}
  {
    var more := done[name := path];
    assert name in more && more[name] == path;
    forall q: Path | q in done.Values
      ensures q in more.Values
    {
      var n :| n in done && done[n] == q;
      assert n in more && more[n] == q;
    }
  }

  /** What the cache and the items become when one more input has been looked at. */
  lemma OneMoreSeen(tools: Tools, cache: map<Path, string>, files: Tree, done: map<string, Path>, name: string,
                    path: Path,
                    seen: map<Path, string>)
    requires name !in done && seen == Remembered(tools, cache, files, done)
    ensures path in seen ==>
              Remembered(tools, cache, files, done[name := path]) == seen &&
                  seen[path] == SeenHash(tools, cache, files, path)
    ensures path !in seen ==>
              Remembered(tools, cache, files, done[name := path]) == seen[path := CurrentHash(tools, files, path)]
    ensures path !in seen ==> SeenHash(tools, cache, files, path) == CurrentHash(tools, files, path)
    ensures SeenHashes(tools, cache, files, done[name := path]) ==
            SeenHashes(tools, cache, files, done)[name := SeenHash(tools, cache, files, path)]
  {
    hide SeenHashes;
    hide Remembered, CurrentHash;
    OneMoreValue(done, name, path);
    OnlyMore(tools, cache, files, done, name, path, seen);
    OneMoreItem(tools, cache, files, done, name, path);
  }

  lemma OneMoreItem(tools: Tools, cache: map<Path, string>, files: Tree, done: map<string, Path>, name: string,
                    path: Path)
    requires name !in done
    ensures SeenHashes(tools, cache, files, done[name := path]) ==
            SeenHashes(tools, cache, files, done)[name := SeenHash(tools, cache, files, path)]
  {
    hide SeenHash;
    var more := done[name := path];
    assert forall n | n in done :: more[n] == done[n];
    assert SeenHashes(tools, cache, files, more).Keys == more.Keys;
  }

  lemma OnlyMore(tools: Tools, cache: map<Path, string>, files: Tree, done: map<string, Path>, name: string, path: Path,
                 seen: map<Path, string>)
    requires name !in done && seen == Remembered(tools, cache, files, done)
    requires done[name := path].Values == done.Values + {path}
    ensures path in seen ==> Remembered(tools, cache, files, done[name := path]) == seen
    ensures path !in seen ==>
              Remembered(tools, cache, files, done[name := path]) == seen[path := SeenHash(tools, cache, files, path)]
  {
    hide Remembered, SeenHash;
    var more := Remembered(tools, cache, files, done[name := path]);
    assert more.Keys == seen.Keys + {path};
    if path in seen {
      assert more == seen;
    } else {
      assert more == seen[path := SeenHash(tools, cache, files, path)];
    }
  }
}
