/** A program relocating itself: walking its own dynamic section and relocation table, in its own memory. */
module SelfRelocation {
  import opened Options

  const WORDS := 0x1_0000_0000

  type Byte = b | 0 <= b < 256

  type Word = w | 0 <= w < WORDS

  const DT_NULL: Word := 0
  const DT_REL: Word := 17
  const DT_RELSZ: Word := 18

  type Memory = seq<Byte>

  // ----- Words in memory, least significant byte first

  function ReadWord(m: Memory, a: nat): Word
    requires a + 4 <= |m|
  {
    var b0: int, b1: int, b2: int, b3: int := m[a], m[a + 1], m[a + 2], m[a + 3];
    b0 + 0x100 * b1 + 0x1_0000 * b2 + 0x100_0000 * b3
  }

  function ByteOf(w: Word, k: nat): Byte
    requires k < 4
  {
    if k == 0 then w % 0x100 else if k == 1 then w / 0x100 % 0x100 else if k == 2 then w / 0x1_0000 % 0x100
        else w / 0x100_0000
  }

  function WriteWord(m: Memory, a: nat, w: Word): (r: Memory)
    requires a + 4 <= |m|
    ensures |r| == |m|
  {
    m[a := ByteOf(w, 0)][a + 1 := ByteOf(w, 1)][a + 2 := ByteOf(w, 2)][a + 3 := ByteOf(w, 3)]
  }

  lemma WordFromBytes(w: Word)
    ensures w == ByteOf(w, 0) + 0x100 * ByteOf(w, 1) + 0x1_0000 * ByteOf(w, 2) + 0x100_0000 * ByteOf(w, 3)
  {
    var w1, w2 := w / 0x100, w / 0x1_0000;
    assert w == 0x100 * w1 + w % 0x100;
    assert w2 == w1 / 0x100 && w1 == 0x100 * w2 + w1 % 0x100;
    assert w / 0x100_0000 == w2 / 0x100 && w2 == 0x100 * (w2 / 0x100) + w2 % 0x100;
  }

  lemma BytesFromWord(m: Memory, a: nat, k: nat)
    requires a + 4 <= |m| && k < 4
    ensures m[a + k] == ByteOf(ReadWord(m, a), k)
  {
    BytesOfSum(m[a], m[a + 1], m[a + 2], m[a + 3]);
  }

  lemma BytesOfSum(b0: int, b1: int, b2: int, b3: int)
    requires 0 <= b0 < 256 && 0 <= b1 < 256 && 0 <= b2 < 256 && 0 <= b3 < 256
    ensures var w: Word := b0 + 0x100 * b1 + 0x1_0000 * b2 + 0x100_0000 * b3;
            ByteOf(w, 0) == b0 && ByteOf(w, 1) == b1 && ByteOf(w, 2) == b2 && ByteOf(w, 3) == b3
  {
    var w := b0 + 0x100 * b1 + 0x1_0000 * b2 + 0x100_0000 * b3;
    assert w == b0 + 0x100 * (b1 + 0x100 * b2 + 0x1_0000 * b3);
    assert w / 0x100 == b1 + 0x100 * (b2 + 0x100 * b3);
    assert w / 0x1_0000 == b2 + 0x100 * b3;
  }

  lemma ReadWritten(m: Memory, a: nat, w: Word)
    requires a + 4 <= |m|
    ensures ReadWord(WriteWord(m, a, w), a) == w
  {
    WordFromBytes(w);
  }

  predicate Apart(a: nat, b: nat) {
    a + 4 <= b || b + 4 <= a
  }

  lemma ReadElsewhere(m: Memory, a: nat, w: Word, b: nat)
    requires a + 4 <= |m| && b + 4 <= |m| && Apart(a, b)
    ensures ReadWord(WriteWord(m, a, w), b) == ReadWord(m, b)
  {
  }

  // ----- The dynamic section

  /** The tag and the value of the `i`th entry. */
  function Tag(m: Memory, dynamic: nat, i: nat): Word
    requires dynamic + 8 * i + 8 <= |m|
  {
    ReadWord(m, dynamic + 8 * i)
  }

  function Value(m: Memory, dynamic: nat, i: nat): Word
    requires dynamic + 8 * i + 8 <= |m|
  {
    ReadWord(m, dynamic + 8 * i + 4)
  }

  /** The section has `n` entries and then one with the null tag. */
  predicate HasDynamic(m: Memory, dynamic: nat, n: nat) {
    dynamic + 8 * n + 8 <= |m| && Tag(m, dynamic, n) == DT_NULL && forall i: nat | i < n ::
        Tag(m, dynamic, i) != DT_NULL
  }

  /** The value of the first entry with a tag. */
  function Entry(m: Memory, dynamic: nat, n: nat, tag: Word): (r: Option<Word>)
    requires HasDynamic(m, dynamic, n)
    ensures r.Some? <==> exists i: nat :: i < n && Tag(m, dynamic, i) == tag
    ensures r.Some? ==> exists i: nat :: i < n && Tag(m, dynamic, i) == tag && r.value == Value(m, dynamic, i) &&
                                         forall j: nat | j < i :: Tag(m, dynamic, j) != tag
  {
    EntryFrom(m, dynamic, n, tag, 0)
  }

  function EntryFrom(m: Memory, dynamic: nat, n: nat, tag: Word, i: nat): (r: Option<Word>)
    requires HasDynamic(m, dynamic, n) && i <= n
    ensures r.Some? <==> exists k: nat :: i <= k < n && Tag(m, dynamic, k) == tag
    ensures r.Some? ==> exists k: nat :: i <= k < n && Tag(m, dynamic, k) == tag && r.value == Value(m, dynamic, k) &&
                                         forall j: nat | i <= j < k :: Tag(m, dynamic, j) != tag
    decreases n - i
  {
    if i == n then None else if Tag(m, dynamic, i) == tag then Some(Value(m, dynamic, i))
        else EntryFrom(m, dynamic, n, tag, i + 1)
  }

  // ----- The relocation table

  datatype Rel = Rel(offset: Word, info: Word)

  function RelType(info: Word): Word {
    info % 0x100
  }

  function Address(base: Word, offset: Word): Word {
    (base + offset) % WORDS
  }

  /** How many entries start before the table's end. */
  function EntryCount(size: Word): nat {
    (size + 7) / 8
  }

  function RelAt(m: Memory, a: nat): Rel
    requires a + 8 <= |m|
  {
    Rel(ReadWord(m, a), ReadWord(m, a + 4))
  }

  function Table(m: Memory, start: nat, count: nat): (r: seq<Rel>)
    requires start + 8 * count <= |m|
    ensures |r| == count && forall i: nat | i < count :: r[i] == RelAt(m, start + 8 * i)
  {
    seq(count, i requires 0 <= i < count => RelAt(m, start + 8 * i))
  }

  predicate Relative(r: Rel, relative: Word) {
    RelType(r.info) == relative
  }

  predicate InBounds(rels: seq<Rel>, base: Word, size: nat) {
    forall i | 0 <= i < |rels| :: Address(base, rels[i].offset) + 4 <= size
  }

  /** No word that an entry names shares a byte with the given range. */
  predicate Outside(rels: seq<Rel>, base: Word, start: nat, end: nat) {
    forall i | 0 <= i < |rels| :: Address(base, rels[i].offset) + 4 <= start || end <= Address(base, rels[i].offset)
  }

  /** The words that entries name are the same or share no byte. */
  predicate DisjointWords(rels: seq<Rel>, base: Word) {
    forall i | 0 <= i < |rels| :: EqualOrApart(rels, base, Address(base, rels[i].offset))
  }

  predicate EqualOrApart(rels: seq<Rel>, base: Word, a: nat) {
    forall i | 0 <= i < |rels| :: Address(base, rels[i].offset) == a || Apart(Address(base, rels[i].offset), a)
  }

  datatype Applied = Applied(memory: Memory, trapped: bool)

  /** The entries applied in turn, up to the first of an unknown type. */
  function Apply(m: Memory, rels: seq<Rel>, base: Word, relative: Word): (r: Applied)
    requires InBounds(rels, base, |m|)
    ensures |r.memory| == |m|
  {
    if rels == [] then Applied(m, false) else
      var before := Apply(m, rels[..|rels| - 1], base, relative);
      var last := rels[|rels| - 1];
      if before.trapped then before
      else if !Relative(last, relative) then Applied(before.memory, true)
      else
        var a := Address(base, last.offset);
        Applied(WriteWord(before.memory, a, (ReadWord(before.memory, a) + base) % WORDS), false)
  }

  /** How many entries name a word. */
  function Count(rels: seq<Rel>, base: Word, a: nat): nat {
    if rels == [] then 0
    else Count(rels[..|rels| - 1], base, a) + if Address(base, rels[|rels| - 1].offset) == a then 1 else 0
  }

  /** Running into an entry of an unknown type is the only way to trap. */
  lemma {:induction false} TrapsIff(m: Memory, rels: seq<Rel>, base: Word, relative: Word)
    requires InBounds(rels, base, |m|)
    ensures Apply(m, rels, base, relative).trapped <==> exists i | 0 <= i < |rels| :: !Relative(rels[i], relative)
  {
    hide Address, ReadWord, WriteWord, Relative;
    if rels != [] {
      var front := rels[..|rels| - 1];
      TrapsIff(m, front, base, relative);
      assert forall i | 0 <= i < |front| :: front[i] == rels[i];
    }
  }

  lemma Accumulate(w: int, n: int, base: int)
    ensures ((w + n * base) % WORDS + base) % WORDS == (w + (n + 1) * base) % WORDS
  {
    var x := w + n * base;
    assert w + (n + 1) * base == x + base;
    assert x == WORDS * (x / WORDS) + x % WORDS;
    assert (x + base) % WORDS == (x % WORDS + base) % WORDS by {
      ModuloShift(x % WORDS + base, x / WORDS);
    }
  }

  lemma {:induction false} ModuloShift(x: int, k: int)
    ensures (x + WORDS * k) % WORDS == x % WORDS
    decreases if k < 0 then -k else k
  {
    if k > 0 {
      ModuloShift(x, k - 1);
      assert (x + WORDS * (k - 1) + WORDS) % WORDS == (x + WORDS * (k - 1)) % WORDS;
    } else if k < 0 {
      ModuloShift(x, k + 1);
      assert (x + WORDS * k + WORDS) % WORDS == (x + WORDS * k) % WORDS;
    }
  }

  lemma CountLast(rels: seq<Rel>, base: Word, a: nat)
    ensures rels == [] ==> Count(rels, base, a) == 0
    ensures rels != [] ==>
              Count(rels, base, a) ==
              Count(rels[..|rels| - 1], base, a) + if Address(base, rels[|rels| - 1].offset) == a then 1 else 0
  {
  }

  /** Each word grows by the base once for every entry that names it, modulo the size of a word. */
  lemma {:induction false} WordAfter(m: Memory, rels: seq<Rel>, base: Word, relative: Word, a: nat)
    requires InBounds(rels, base, |m|) && a + 4 <= |m| && EqualOrApart(rels, base, a)
    requires forall i | 0 <= i < |rels| :: Relative(rels[i], relative)
    ensures ReadWord(Apply(m, rels, base, relative).memory, a) == (ReadWord(m, a) + Count(rels, base, a) * base) % WORDS
  {
    hide ReadWord, WriteWord, Apart, Address, Relative, DisjointWords, Outside, Count;
    CountLast(rels, base, a);
    if rels != [] {
      var front, last := rels[..|rels| - 1], rels[|rels| - 1];
      WordAfter(m, front, base, relative, a);
      TrapsIff(m, front, base, relative);
      var before := Apply(m, front, base, relative).memory;
      var at := Address(base, last.offset);
      var w := (ReadWord(before, at) + base) % WORDS;
      if at == a {
        ReadWritten(before, a, w);
        Accumulate(ReadWord(m, a), Count(front, base, a), base);
      } else {
        ReadElsewhere(before, at, w, a);
      }
    }
  }

  /** Bytes that are in no word an entry names stay as they are. */
  lemma {:induction false} ByteStays(m: Memory, rels: seq<Rel>, base: Word, relative: Word, i: nat)
    requires InBounds(rels, base, |m|) && i < |m| && Outside(rels, base, i, i + 1)
    ensures Apply(m, rels, base, relative).memory[i] == m[i]
  {
    hide Address, ReadWord, Relative, ByteOf;
    if rels != [] {
      ByteStays(m, rels[..|rels| - 1], base, relative, i);
    }
  }

  // ----- The order of the entries

  lemma {:induction false} CountJoined(a: seq<Rel>, b: seq<Rel>, base: Word, at: nat)
    ensures Count(a + b, base, at) == Count(a, base, at) + Count(b, base, at)
  {
    if b == [] {
      assert a + b == a;
    } else {
      CountJoined(a, b[..|b| - 1], base, at);
      assert (a + b)[..|a + b| - 1] == a + b[..|b| - 1];
    }
  }

  lemma OneFewer(front: seq<Rel>, before: seq<Rel>, after: seq<Rel>, x: Rel)
    requires multiset(front + [x]) == multiset(before + [x] + after)
    ensures multiset(front) == multiset(before + after)
  {
    var a, b := multiset(front), multiset(before + after);
    assert a + multiset{x} == b + multiset{x};
    assert forall y :: (a + multiset{x})[y] == a[y] + multiset{x}[y];
    assert forall y :: (b + multiset{x})[y] == b[y] + multiset{x}[y];
    assert forall y :: a[y] == b[y];
  }

  lemma {:induction false} CountReordered(rels: seq<Rel>, rels': seq<Rel>, base: Word, at: nat)
    requires multiset(rels) == multiset(rels')
    ensures Count(rels, base, at) == Count(rels', base, at)
    decreases |rels|
  {
    hide Address;
    if rels == [] {
      assert |rels'| == |multiset(rels')| == 0;
    } else {
      var front, last := rels[..|rels| - 1], rels[|rels| - 1];
      assert rels == front + [last];
      var i := SameMembers(rels', rels, |rels| - 1);
      var before, after := rels'[..i], rels'[i + 1..];
      assert rels' == before + [last] + after;
      OneFewer(front, before, after, last);
      CountReordered(front, before + after, base, at);
      CountJoined(before, after, base, at);
      CountJoined(before + [last], after, base, at);
      CountJoined(before, [last], base, at);
      CountJoined(front, [last], base, at);
    }
  }

  lemma SameMembers(rels: seq<Rel>, rels': seq<Rel>, j: nat) returns (i: nat)
    requires multiset(rels) == multiset(rels') && j < |rels'|
    ensures i < |rels| && rels[i] == rels'[j]
  {
    assert rels'[j] in multiset(rels);
    i :| 0 <= i < |rels| && rels[i] == rels'[j];
  }

  /** With disjoint words, the order of the entries does not matter. */
  lemma OrderDoesNotMatter(m: Memory, rels: seq<Rel>, rels': seq<Rel>, base: Word, relative: Word)
    requires InBounds(rels, base, |m|) && InBounds(rels', base, |m|) && DisjointWords(rels, base)
    requires multiset(rels) == multiset(rels') && forall i | 0 <= i < |rels| :: Relative(rels[i], relative)
    ensures Apply(m, rels, base, relative) == Apply(m, rels', base, relative)
  {
    hide Apply, Relative, Address, ReadWord, Count, ByteOf;
    var r, r' := Apply(m, rels, base, relative), Apply(m, rels', base, relative);
    forall j: nat | j < |rels'|
      ensures Relative(rels'[j], relative)
    {
      var i := SameMembers(rels, rels', j);
    }
    TrapsIff(m, rels, base, relative);
    TrapsIff(m, rels', base, relative);
    forall b: nat | b < |m|
      ensures r.memory[b] == r'.memory[b]
    {
      if Outside(rels, base, b, b + 1) {
        forall j: nat | j < |rels'|
          ensures Address(base, rels'[j].offset) + 4 <= b || b + 1 <= Address(base, rels'[j].offset)
        {
          var i := SameMembers(rels, rels', j);
        }
        ByteStays(m, rels, base, relative, b);
        ByteStays(m, rels', base, relative, b);
      } else {
        var i :| 0 <= i < |rels| && Address(base, rels[i].offset) <= b < Address(base, rels[i].offset) + 4;
        SameWord(m, rels, rels', base, relative, Address(base, rels[i].offset));
        var a := Address(base, rels[i].offset);
        BytesFromWord(r.memory, a, b - a);
        BytesFromWord(r'.memory, a, b - a);
      }
    }
    assert r.memory == r'.memory;
  }

  lemma SameWord(m: Memory, rels: seq<Rel>, rels': seq<Rel>, base: Word, relative: Word, a: nat)
    requires InBounds(rels, base, |m|) && InBounds(rels', base, |m|) && multiset(rels) == multiset(rels')
    requires forall i | 0 <= i < |rels| :: Relative(rels[i], relative)
    requires forall i | 0 <= i < |rels'| :: Relative(rels'[i], relative)
    requires a + 4 <= |m| && EqualOrApart(rels, base, a)
    ensures ReadWord(Apply(m, rels, base, relative).memory, a) == ReadWord(Apply(m, rels', base, relative).memory, a)
  {
    hide Apply, Relative, Address, ReadWord, Apart;
    forall j: nat | j < |rels'|
      ensures Address(base, rels'[j].offset) == a || Apart(Address(base, rels'[j].offset), a)
    {
      var i := SameMembers(rels, rels', j);
    }
    WordAfter(m, rels, base, relative, a);
    WordAfter(m, rels', base, relative, a);
    CountReordered(rels, rels', base, a);
  }

  // ----- What is relocated, in plain arithmetic

  /** The little-endian number in four bytes. */
  function Number(m: Memory, a: nat): int
    requires a + 4 <= |m|
  {
    m[a] as int + 0x100 * m[a + 1] as int + 0x1_0000 * m[a + 2] as int + 0x100_0000 * m[a + 3] as int
  }

  /** Entry `i` of the dynamic section is the first with this tag, before the null entry `n`. */
  predicate FirstTag(m: Memory, dynamic: nat, n: nat, tag: int, i: nat) {
    i < n && dynamic + 8 * n + 8 <= |m| && NumberIn(m, dynamic, 2 * i) == tag &&
    forall j: nat | j < i :: NumberIn(m, dynamic, 2 * j) != tag
  }

  /** The `k`th number of those that start at `a`. */
  function NumberIn(m: Memory, a: nat, k: nat): int
    requires a + 4 * k + 4 <= |m|
  {
    Number(m, a + 4 * k)
  }

  /**
   * What each entry names, the start of the image plus the entry's first number, lies in memory, does not wrap, and is
   * apart from the table.
   */
  predicate EntriesFit(m: Memory, begin: Word, start: nat, count: nat) {
    && start + 8 * count <= |m|
    && forall i: nat | i < count ::
         var a := begin + Number(m, start + 8 * i);
         a < 0x1_0000_0000 && a + 4 <= |m| && (a + 4 <= start || start + 8 * count <= a)
  }

  /** Tags 17 and 18 give a table of `count` entries of eight bytes at `start`. */
  ghost predicate LaidOut(m: Memory, begin: Word, dynamic: nat, n: nat, start: nat, count: nat): (r: bool)
    ensures r ==> start + 8 * count <= |m|
  {
    && (exists i: nat, j: nat ::
          FirstTag(m, dynamic, n, 17, i) && FirstTag(m, dynamic, n, 18, j) &&
          start == begin + NumberIn(m, dynamic, 2 * i + 1) && 8 * count < NumberIn(m, dynamic, 2 * j + 1) + 8 &&
          NumberIn(m, dynamic, 2 * j + 1) <= 8 * count)
    && EntriesFit(m, begin, start, count)
  }

  /** The first `k` entries have the type in the low byte of their second number; the next, if any, has not. */
  predicate TypedUpTo(m: Memory, start: nat, count: nat, relative: int, k: nat)
    requires start + 8 * count <= |m|
  {
    && k <= count && (forall i: nat | i < k :: Number(m, start + 8 * i + 4) % 0x100 == relative)
    && (k < count ==> Number(m, start + 8 * k + 4) % 0x100 != relative)
  }

  /** The entries among the first `k` that name the word at `a`. */
  function Naming(m: Memory, begin: Word, start: nat, k: nat, a: nat): set<nat>
    requires start + 8 * k <= |m|
  {
    set i: nat | i < k && begin + Number(m, start + 8 * i) == a
  }

  /**
   * Every word that is disjoint from the others named grows by the image's start once for each entry that names it, and
   * every byte that is in no word named stays.
   */
  ghost predicate Grown(before: Memory, after: Memory, begin: Word, start: nat, k: nat)
    requires start + 8 * k <= |before|
  {
    && |after| == |before|
    && (forall a: nat |
          a + 4 <= |before| &&
          forall i: nat | i < k ::
            var b := begin + Number(before, start + 8 * i); b == a || b + 4 <= a || a + 4 <= b ::
          Number(after, a) ==
          (Number(before, a) + begin * |Naming(before, begin, start, k, a)|) % 0x1_0000_0000)
    && forall x: nat |
         x < |before| &&
         forall i: nat | i < k ::
           var b := begin + Number(before, start + 8 * i); x < b || b + 4 <= x ::
         after[x] == before[x]
  }

  lemma NumberIsWord(m: Memory, a: nat)
    requires a + 4 <= |m|
    ensures Number(m, a) == ReadWord(m, a)
  {
  }

  lemma {:induction false} CountNaming(m: Memory, begin: Word, start: nat, k: nat, a: nat)
    requires start + 8 * k <= |m|
    requires forall i: nat | i < k :: begin + Number(m, start + 8 * i) < 0x1_0000_0000
    ensures Count(Table(m, start, k), begin, a) == |Naming(m, begin, start, k, a)|
  {
    hide ReadWord, Number, Naming, Table, Address;
    if k == 0 {
      NamingMore(m, begin, start, 0, a);
    } else {
      CountNaming(m, begin, start, k - 1, a);
      assert Table(m, start, k)[..k - 1] == Table(m, start, k - 1);
      LastNames(m, begin, start, k - 1);
      NamingMore(m, begin, start, k, a);
    }
  }

  lemma LastNames(m: Memory, begin: Word, start: nat, i: nat)
    requires start + 8 * i + 8 <= |m| && begin + Number(m, start + 8 * i) < 0x1_0000_0000
    ensures Address(begin, RelAt(m, start + 8 * i).offset) == begin + Number(m, start + 8 * i)
  {
    hide ReadWord, Number;
    NumberIsWord(m, start + 8 * i);
  }

  lemma NamingMore(m: Memory, begin: Word, start: nat, k: nat, a: nat)
    requires start + 8 * k <= |m|
    ensures k == 0 ==> Naming(m, begin, start, k, a) == {}
    ensures k > 0 ==> |Naming(m, begin, start, k, a)| == |Naming(m, begin, start, k - 1, a)| +
                      if begin + Number(m, start + 8 * (k - 1)) == a then 1 else 0
  {
    hide Number;
    if k > 0 {
      var less := Naming(m, begin, start, k - 1, a);
      assert Naming(m, begin, start, k, a) ==
             if begin + Number(m, start + 8 * (k - 1)) == a then less + {k - 1} else less;
    }
  }

  lemma NamesAddress(m: Memory, begin: Word, start: nat, count: nat, i: nat)
    requires EntriesFit(m, begin, start, count) && i < count
    ensures var r := RelAt(m, start + 8 * i);
            && Address(begin, r.offset) == begin + Number(m, start + 8 * i)
            && RelType(r.info) == Number(m, start + 8 * i + 4) % 0x100
  {
    NumberIsWord(m, start + 8 * i);
    NumberIsWord(m, start + 8 * i + 4);
  }

  lemma TableFits(m: Memory, begin: Word, start: nat, count: nat)
    requires EntriesFit(m, begin, start, count)
    ensures InBounds(Table(m, start, count), begin, |m|)
    ensures Outside(Table(m, start, count), begin, start, start + 8 * count)
  {
    hide Address, Number, RelAt;
    forall i: nat | i < count
      ensures Address(begin, Table(m, start, count)[i].offset) == begin + Number(m, start + 8 * i)
    {
      NamesAddress(m, begin, start, count, i);
    }
  }

  lemma FewerFit(m: Memory, begin: Word, start: nat, count: nat, k: nat)
    requires EntriesFit(m, begin, start, count) && k <= count
    ensures EntriesFit(m, begin, start, k) && Table(m, start, count)[..k] == Table(m, start, k)
  {
    hide Number, RelAt;
  }

  /** Applying entries of the known type makes the words grow. */
  lemma TableGrows(m: Memory, begin: Word, start: nat, k: nat, relative: Word)
    requires EntriesFit(m, begin, start, k) && TypedUpTo(m, start, k, relative, k)
    requires InBounds(Table(m, start, k), begin, |m|)
    ensures var applied := Apply(m, Table(m, start, k), begin, relative);
            !applied.trapped && Grown(m, applied.memory, begin, start, k)
  {
    hide Apply, Address, Number, RelAt, ReadWord, Count;
    var table := Table(m, start, k);
    forall i: nat | i < k
      ensures Address(begin, table[i].offset) == begin + Number(m, start + 8 * i) && Relative(table[i], relative)
    {
      NamesAddress(m, begin, start, k, i);
    }
    TrapsIff(m, table, begin, relative);
    var after := Apply(m, table, begin, relative).memory;
    forall a: nat |
      a + 4 <= |m| &&
      forall i: nat | i < k ::
        var b := begin + Number(m, start + 8 * i); b == a || b + 4 <= a || a + 4 <= b
      ensures Number(after, a) == (Number(m, a) + begin * |Naming(m, begin, start, k, a)|) % 0x1_0000_0000
    {
      WordAfter(m, table, begin, relative, a);
      CountNaming(m, begin, start, k, a);
      NumberIsWord(m, a);
      NumberIsWord(after, a);
    }
    forall x: nat |
      x < |m| &&
      forall i: nat | i < k ::
        var b := begin + Number(m, start + 8 * i); x < b || b + 4 <= x
      ensures after[x] == m[x]
    {
      ByteStays(m, table, begin, relative, x);
    }
  }

  /** And so up to the first entry of another type, at which the program stops. */
  lemma TableGrowsUpTo(m: Memory, begin: Word, start: nat, count: nat, relative: Word, k: nat)
    requires EntriesFit(m, begin, start, count) && TypedUpTo(m, start, count, relative, k)
    requires InBounds(Table(m, start, count), begin, |m|)
    ensures var applied := Apply(m, Table(m, start, count), begin, relative);
            (applied.trapped <==> k < count) && Grown(m, applied.memory, begin, start, k)
  {
    hide Apply, Address, Number, RelAt, ReadWord, Count, Grown, InBounds, Table;
    FewerFit(m, begin, start, count, k);
    TableFits(m, begin, start, k);
    TableGrows(m, begin, start, k, relative);
    if k < count {
      FewerFit(m, begin, start, count, k + 1);
      TableFits(m, begin, start, k + 1);
      FewerFit(m, begin, start, k + 1, k);
      NamesAddress(m, begin, start, count, k);
      var table := Table(m, start, k + 1);
      ApplyOneMore(m, table, Table(m, start, k), begin, relative);
      TrapStays(m, Table(m, start, count), k + 1, begin, relative);
    }
  }

  /** The section ends at the first entry whose tag is 0. */
  lemma EndsAtZero(m: Memory, dynamic: nat, n: nat)
    ensures HasDynamic(m, dynamic, n) <==>
            && dynamic + 8 * n + 8 <= |m| && NumberIn(m, dynamic, 2 * n) == 0
            && forall i: nat | i < n :: NumberIn(m, dynamic, 2 * i) != 0
  {
    if dynamic + 8 * n + 8 <= |m| {
      TagsAreNumbers(m, dynamic, n);
      hide NumberIn, Tag;
    }
  }

  lemma TagsAreNumbers(m: Memory, dynamic: nat, n: nat)
    requires dynamic + 8 * n + 8 <= |m|
    ensures forall j: nat | j <= n :: Tag(m, dynamic, j) == NumberIn(m, dynamic, 2 * j)
    ensures forall j: nat | j <= n :: Value(m, dynamic, j) == NumberIn(m, dynamic, 2 * j + 1)
  {
    hide Number, ReadWord;
    forall j: nat | j <= n
      ensures Tag(m, dynamic, j) == NumberIn(m, dynamic, 2 * j)
      ensures Value(m, dynamic, j) == NumberIn(m, dynamic, 2 * j + 1)
    {
      NumberIsWord(m, dynamic + 8 * j);
      NumberIsWord(m, dynamic + 8 * j + 4);
    }
  }

  /** What find_dt_entry finds, in numbers. */
  lemma EntryInNumbers(m: Memory, dynamic: nat, n: nat, tag: Word)
    requires HasDynamic(m, dynamic, n)
    ensures Entry(m, dynamic, n, tag).Some? <==> exists i: nat :: FirstTag(m, dynamic, n, tag, i)
    ensures forall i: nat | FirstTag(m, dynamic, n, tag, i) ::
              Entry(m, dynamic, n, tag) == Some(NumberIn(m, dynamic, 2 * i + 1))
  {
    TagsAreNumbers(m, dynamic, n);
    hide NumberIn, Tag, Value;
    if Entry(m, dynamic, n, tag).Some? {
      var k: nat :| k < n && Tag(m, dynamic, k) == tag && Entry(m, dynamic, n, tag) == Some(Value(m, dynamic, k)) &&
          forall j: nat | j < k :: Tag(m, dynamic, j) != tag;
      assert FirstTag(m, dynamic, n, tag, k);
      forall i: nat | FirstTag(m, dynamic, n, tag, i)
        ensures i == k
      {
        assert Tag(m, dynamic, i) == tag;
      }
    }
    forall i: nat | FirstTag(m, dynamic, n, tag, i)
      ensures Entry(m, dynamic, n, tag).Some?
    {
      assert Tag(m, dynamic, i) == tag;
    }
  }

  lemma RangeLaidOut(m: Memory, begin: Word, dynamic: nat, n: nat, start: nat, count: nat)
    requires HasDynamic(m, dynamic, n) && LaidOut(m, begin, dynamic, n, start, count)
    ensures EntriesFit(m, begin, start, count)
    ensures var range := TableRange(m, begin, dynamic, n);
            range.Some? && range.value.0 == start && EntryCount(range.value.1) == count
  {
    hide Entry, NumberIn, EntriesFit;
    EntryInNumbers(m, dynamic, n, DT_REL);
    EntryInNumbers(m, dynamic, n, DT_RELSZ);
  }

  /** The outcome and the memory, where the table is laid out and its first `k` entries are of the known type. */
  ghost predicate GrownAsLaidOut(before: Memory, after: Memory, r: Outcome, begin: Word, dynamic: nat, n: nat,
                                 relative: Word)
  {
    forall start: nat, count: nat, k: nat |
      LaidOut(before, begin, dynamic, n, start, count) && TypedUpTo(before, start, count, relative, k) ::
      r == (if k < count then Trapped else Relocated) && Grown(before, after, begin, start, k)
  }

  lemma AppliedGrows(m: Memory, begin: Word, dynamic: nat, n: nat, relative: Word)
    requires HasDynamic(m, dynamic, n) && TableRange(m, begin, dynamic, n).Some?
    requires var range := TableRange(m, begin, dynamic, n).value; GoodTable(m, begin, range.0, range.1)
    ensures var range := TableRange(m, begin, dynamic, n).value;
            var applied := Apply(m, Table(m, range.0, EntryCount(range.1)), begin, relative);
            GrownAsLaidOut(m, applied.memory, if applied.trapped then Trapped else Relocated, begin, dynamic, n,
                           relative)
  {
    hide LaidOut, Grown, TableRange, Apply, HasDynamic, EntriesFit, EntryCount, Number;
    var range := TableRange(m, begin, dynamic, n).value;
    forall start: nat, count: nat, k: nat |
      LaidOut(m, begin, dynamic, n, start, count) && TypedUpTo(m, start, count, relative, k)
      ensures var applied := Apply(m, Table(m, range.0, EntryCount(range.1)), begin, relative);
              (applied.trapped <==> k < count) && Grown(m, applied.memory, begin, start, k)
    {
      RangeLaidOut(m, begin, dynamic, n, start, count);
      TableGrowsUpTo(m, begin, start, count, relative, k);
    }
  }

  lemma NothingLaidOut(m: Memory, begin: Word, dynamic: nat, n: nat, relative: Word)
    requires HasDynamic(m, dynamic, n) && TableRange(m, begin, dynamic, n).None?
    ensures GrownAsLaidOut(m, m, NothingToDo, begin, dynamic, n, relative)
  {
    hide LaidOut, TypedUpTo, Grown, TableRange, HasDynamic;
    forall start: nat, count: nat | LaidOut(m, begin, dynamic, n, start, count)
      ensures false
    {
      RangeLaidOut(m, begin, dynamic, n, start, count);
    }
  }

  /** One of the two tags is missing. */
  ghost predicate TagMissing(m: Memory, dynamic: nat, n: nat) {
    (forall i: nat :: !FirstTag(m, dynamic, n, 17, i)) || (forall i: nat :: !FirstTag(m, dynamic, n, 18, i))
  }

  lemma MissingMeansNothing(m: Memory, begin: Word, dynamic: nat, n: nat)
    requires HasDynamic(m, dynamic, n)
    ensures TableRange(m, begin, dynamic, n).None? <==> TagMissing(m, dynamic, n)
  {
    hide Entry, HasDynamic, FirstTag;
    EntryInNumbers(m, dynamic, n, DT_REL);
    EntryInNumbers(m, dynamic, n, DT_RELSZ);
  }

  // ----- The program

  datatype Outcome = Relocated | NothingToDo | Trapped

  method FindDtEntry(memory: array<Byte>, dynamic: nat, ghost n: nat, tag: Word) returns (r: Option<Word>)
    requires HasDynamic(memory[..], dynamic, n)
    ensures r == Entry(memory[..], dynamic, n, tag)
  {
    hide ReadWord;
    ghost var m := memory[..];
    var dyn := dynamic;
    ghost var i: nat := 0;
    while true
      invariant i <= n && dyn == dynamic + 8 * i && Entry(m, dynamic, n, tag) == EntryFrom(m, dynamic, n, tag, i)
      decreases n - i
    {
      var found := LoadWord(memory, dyn);
      assert found == Tag(m, dynamic, i);
      if found == DT_NULL {
        break;
      }
      if found == tag {
        var value := LoadWord(memory, dyn + 4);
        return Some(value);
      }
      dyn, i := dyn + 8, i + 1;
    }
    return None;
  }

  method LoadWord(memory: array<Byte>, a: nat) returns (w: Word)
    requires a + 4 <= memory.Length
    ensures w == ReadWord(memory[..], a)
  {
    var b0: int, b1: int, b2: int, b3: int := memory[a], memory[a + 1], memory[a + 2], memory[a + 3];
    w := b0 + 0x100 * b1 + 0x1_0000 * b2 + 0x100_0000 * b3;
  }

  method StoreWord(memory: array<Byte>, a: nat, w: Word)
    requires a + 4 <= memory.Length
    modifies memory
    ensures memory[..] == WriteWord(old(memory[..]), a, w)
  {
    memory[a], memory[a + 1], memory[a + 2], memory[a + 3] := ByteOf(w, 0), ByteOf(w, 1), ByteOf(w, 2), ByteOf(w, 3);
  }

  /** Where the table starts and how long it is, if there is one. */
  function TableRange(m: Memory, begin: Word, dynamic: nat, n: nat): Option<(nat, Word)>
    requires HasDynamic(m, dynamic, n)
  {
    var offset, size := Entry(m, dynamic, n, DT_REL), Entry(m, dynamic, n, DT_RELSZ);
    if offset.Some? && size.Some? then Some((begin + offset.value, size.value)) else None
  }

  /** The table lies in memory, as do the words it names, and no such word overlaps the table. */
  predicate GoodTable(m: Memory, begin: Word, start: nat, size: Word) {
    && start + 8 * EntryCount(size) <= |m|
    && var rels := Table(m, start, EntryCount(size));
    && InBounds(rels, begin, |m|) && Outside(rels, begin, start, start + 8 * EntryCount(size))
  }

  /** Applies the relocation table to the memory it is in; `relative` is the type R_386_RELATIVE or R_ARM_RELATIVE. */
  method ApplyRelocations(memory: array<Byte>, begin: Word, dynamic: nat, ghost n: nat, relative: Word)
    returns (r: Outcome)
    requires relative == 8 || relative == 23
    requires HasDynamic(memory[..], dynamic, n)
    requires var range := TableRange(memory[..], begin, dynamic, n);
             range.Some? ==> GoodTable(memory[..], begin, range.value.0, range.value.1)
    modifies memory
    ensures var range := old(TableRange(memory[..], begin, dynamic, n));
            if range.None? then r.NothingToDo? && memory[..] == old(memory[..])
            else
              var rels := old(Table(memory[..], range.value.0, EntryCount(range.value.1)));
              var applied := Apply(old(memory[..]), rels, begin, relative);
              memory[..] == applied.memory && r == if applied.trapped then Trapped else Relocated
    ensures r.NothingToDo? <==> TagMissing(old(memory[..]), dynamic, n)
    ensures GrownAsLaidOut(old(memory[..]), memory[..], r, begin, dynamic, n, relative)
  {
    ghost var m := memory[..];
    MissingMeansNothing(m, begin, dynamic, n);
    if TableRange(m, begin, dynamic, n).None? {
      NothingLaidOut(m, begin, dynamic, n, relative);
    } else {
      AppliedGrows(m, begin, dynamic, n, relative);
    }
    hide GrownAsLaidOut, TagMissing, GoodTable;
    hide Entry, Apply, Table, HasDynamic, ReadWord, WriteWord;
    var offset := FindDtEntry(memory, dynamic, n, DT_REL);
    if offset.None? {
      return NothingToDo;
    }
    var size := FindDtEntry(memory, dynamic, n, DT_RELSZ);
    if size.None? {
      return NothingToDo;
    }
    r := ApplyTable(memory, begin, begin + offset.value, size.value, relative);
  }

  method ApplyTable(memory: array<Byte>, begin: Word, start: nat, size: Word, relative: Word) returns (r: Outcome)
    requires GoodTable(memory[..], begin, start, size)
    modifies memory
    ensures var applied := Apply(old(memory[..]), old(Table(memory[..], start, EntryCount(size))), begin, relative);
            memory[..] == applied.memory && r == if applied.trapped then Trapped else Relocated
  {
    hide Apply, ReadWord, WriteWord, Address;
    ghost var m := memory[..];
    ghost var table := Table(m, start, EntryCount(size));
    var rels, relsEnd := start, start + size;
    ghost var i: nat := 0;
    ApplyNone(m, begin, relative);
    assert table[..0] == [];
    while rels < relsEnd
      invariant i <= |table| && rels == start + 8 * i
      invariant memory[..] == Apply(m, table[..i], begin, relative).memory
      invariant !Apply(m, table[..i], begin, relative).trapped
      decreases |table| - i
    {
      TableStays(m, table, begin, relative, start, i);
      var offset := LoadWord(memory, rels);
      var info := LoadWord(memory, rels + 4);
      assert table[i] == Rel(offset, info);
      assert table[..i + 1][..i] == table[..i];
      ApplyOneMore(m, table[..i + 1], table[..i], begin, relative);
      if RelType(info) != relative {
        TrapStays(m, table, i + 1, begin, relative);
        return Trapped;
      }
      var a := Address(begin, offset);
      var w := LoadWord(memory, a);
      StoreWord(memory, a, (w + begin) % WORDS);
      rels, i := rels + 8, i + 1;
    }
    assert table[..|table|] == table;
    return Relocated;
  }

  lemma ApplyNone(m: Memory, base: Word, relative: Word)
    ensures Apply(m, [], base, relative) == Applied(m, false)
  {
  }

  lemma ApplyOneMore(m: Memory, rels: seq<Rel>, front: seq<Rel>, base: Word, relative: Word)
    requires rels != [] && front == rels[..|rels| - 1] && InBounds(rels, base, |m|) && InBounds(front, base, |m|)
    ensures var last, before := rels[|rels| - 1], Apply(m, front, base, relative);
            var a := Address(base, last.offset);
            !before.trapped ==>
              Apply(m, rels, base, relative) ==
              if !Relative(last, relative) then Applied(before.memory, true)
              else Applied(WriteWord(before.memory, a, (ReadWord(before.memory, a) + base) % WORDS), false)
  {
    hide Address, Relative, WriteWord, ReadWord;
  }

  lemma {:induction false} TrapStays(m: Memory, rels: seq<Rel>, i: nat, base: Word, relative: Word)
    requires i <= |rels| && InBounds(rels, base, |m|) && InBounds(rels[..i], base, |m|)
    requires Apply(m, rels[..i], base, relative).trapped
    ensures Apply(m, rels, base, relative) == Apply(m, rels[..i], base, relative)
    decreases |rels|
  {
    hide Address, Relative, WriteWord, ReadWord;
    if i == |rels| {
      assert rels[..i] == rels;
    } else {
      assert rels[..|rels| - 1][..i] == rels[..i];
      TrapStays(m, rels[..|rels| - 1], i, base, relative);
    }
  }

  /** No entry changes another that is still to come. */
  lemma TableStays(m: Memory, table: seq<Rel>, begin: Word, relative: Word, start: nat, i: nat)
    requires start + 8 * |table| <= |m| && table == Table(m, start, |table|) && i < |table|
    requires InBounds(table, begin, |m|) && Outside(table, begin, start, start + 8 * |table|)
    ensures InBounds(table[..i], begin, |m|)
    ensures RelAt(Apply(m, table[..i], begin, relative).memory, start + 8 * i) == table[i]
  {
    hide Apply, Address, Table;
    var done := table[..i];
    forall b: nat | start + 8 * i <= b < start + 8 * i + 8
      ensures Apply(m, done, begin, relative).memory[b] == m[b]
    {
      assert Outside(done, begin, b, b + 1);
      ByteStays(m, done, begin, relative, b);
    }
  }
}
