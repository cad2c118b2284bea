/**
 Shell-style text written out: words made of bare characters, escaped characters and quoted stretches in any mixture,
 with spaces between the words; and that splitting it gives the words.
 */
module ShellSpelling {
  import opened Options
  import opened Shell

  /** A character as it is, or behind a backslash. */
  datatype Letter = Bare(c: char) | Escaped(c: char)

  /** A letter on its own, or letters between quotes. */
  datatype Piece = Single(letter: Letter) | InQuotes(letters: seq<Letter>)

  /** A word with the spaces before it. */
  datatype Spaced = Spaced(gap: string, word: seq<Piece>)

  function LetterText(x: Letter): string {
    match x
    case Bare(c) => [c]
    case Escaped(c) => ['\\', c]
  }

  function LettersText(xs: seq<Letter>): string {
    if xs == [] then "" else LetterText(xs[0]) + LettersText(xs[1..])
  }

  function PieceText(p: Piece): string {
    match p
    case Single(x) => LetterText(x)
    case InQuotes(xs) => "\"" + LettersText(xs) + "\""
  }

  function WordText(word: seq<Piece>): string {
    if word == [] then "" else PieceText(word[0]) + WordText(word[1..])
  }

  function LineText(line: seq<Spaced>): string {
    if line == [] then "" else line[0].gap + WordText(line[0].word) + LineText(line[1..])
  }

  function Contents(xs: seq<Letter>): string {
    if xs == [] then "" else [xs[0].c] + Contents(xs[1..])
  }

  function PieceMeaning(p: Piece): string {
    if p.Single? then [p.letter.c] else Contents(p.letters)
  }

  function Meaning(word: seq<Piece>): string {
    if word == [] then "" else PieceMeaning(word[0]) + Meaning(word[1..])
  }

  function Meanings(line: seq<Spaced>): seq<string> {
    if line == [] then [] else [Meaning(line[0].word)] + Meanings(line[1..])
  }

  /** Quotes and backslashes need a backslash everywhere, spaces need one or quotes. */
  predicate GoodPiece(p: Piece) {
    match p
    case Single(x) => x.Bare? ==> x.c != '"' && x.c != '\\' && x.c != ' '
    case InQuotes(xs) => forall x | x in xs && x.Bare? :: x.c != '"' && x.c != '\\'
  }

  predicate GoodLine(line: seq<Spaced>) {
    && (forall k | 0 <= k < |line| :: line[k].word != [] && forall p | p in line[k].word :: GoodPiece(p))
    && (forall k, x | 0 <= k < |line| && x in line[k].gap :: x == ' ')
    && (forall k | 0 < k < |line| :: line[k].gap != "")
  }

  function Buffer(mode: Mode): string {
    if mode.Gap? then "" else mode.buf
  }

  lemma ReadLetter(x: Letter, rest: string, mode: Mode)
    requires x.Bare? ==> x.c != '"' && x.c != '\\' && (x.c != ' ' || (mode.Word? && mode.quoted))
    ensures Words(LetterText(x) + rest, mode) ==
            Words(rest, Word(Buffer(mode) + [x.c], mode.Word? && mode.quoted))
  {
    var s := LetterText(x) + rest;
    assert s[|LetterText(x)|..] == rest;
  }

  lemma {:induction false} ReadLetters(xs: seq<Letter>, rest: string, buf: string)
    requires forall x | x in xs && x.Bare? :: x.c != '"' && x.c != '\\'
    ensures Words(LettersText(xs) + rest, Word(buf, true)) == Words(rest, Word(buf + Contents(xs), true))
  {
    hide Words, LetterText;
    if xs == [] {
      assert "" + rest == rest && buf + "" == buf;
    } else {
      var tail := LettersText(xs[1..]) + rest;
      assert LettersText(xs) + rest == LetterText(xs[0]) + tail;
      assert xs[0] in xs;
      ReadLetter(xs[0], tail, Word(buf, true));
      ReadLetters(xs[1..], rest, buf + [xs[0].c]);
      assert buf + [xs[0].c] + Contents(xs[1..]) == buf + ([xs[0].c] + Contents(xs[1..]));
    }
  }

  lemma ReadPiece(p: Piece, rest: string, mode: Mode)
    requires GoodPiece(p) && (mode.Word? ==> !mode.quoted)
    ensures Words(PieceText(p) + rest, mode) ==
            Words(rest, Word(Buffer(mode) + PieceMeaning(p), false))
  {
    hide LetterText, LettersText;
    match p
    case Single(x) => ReadLetter(x, rest, mode);
    case InQuotes(xs) =>
      var tail := "\"" + rest;
      assert PieceText(p) + rest == "\"" + (LettersText(xs) + tail);
      QuoteMark(LettersText(xs) + tail, mode);
      hide Words;
      ReadLetters(xs, tail, Buffer(mode));
      QuoteMark(rest, Word(Buffer(mode) + Contents(xs), true));
  }

  lemma QuoteMark(rest: string, mode: Mode)
    ensures Words("\"" + rest, mode) == Words(rest, Word(Buffer(mode), mode.Gap? || !mode.quoted))
  {
    assert ("\"" + rest)[1..] == rest;
  }

  lemma {:induction false} ReadWord(word: seq<Piece>, rest: string, mode: Mode)
    requires word != [] && (forall p | p in word :: GoodPiece(p)) && (mode.Word? ==> !mode.quoted)
    ensures Words(WordText(word) + rest, mode) == Words(rest, Word(Buffer(mode) + Meaning(word), false))
    decreases |word|
  {
    hide Words, GoodPiece, PieceText, PieceMeaning, Buffer;
    var first, later := word[0], word[1..];
    assert first in word;
    var tail := WordText(later) + rest;
    assert WordText(word) + rest == PieceText(first) + tail;
    ReadPiece(first, tail, mode);
    var buf := Buffer(mode) + PieceMeaning(first);
    assert Buffer(mode) + (PieceMeaning(first) + Meaning(later)) == buf + Meaning(later);
    if later == [] {
      assert tail == rest && buf + Meaning(later) == buf;
    } else {
      BufferOf(buf);
      ReadWord(later, rest, Word(buf, false));
    }
  }

  lemma BufferOf(buf: string)
    ensures Buffer(Word(buf, false)) == buf
  {
  }

  lemma {:induction false} ReadGap(gap: string, rest: string)
    requires forall x | x in gap :: x == ' '
    ensures Words(gap + rest, Gap) == Words(rest, Gap)
  {
    if gap == "" {
      assert gap + rest == rest;
    } else {
      assert gap[0] in gap && (gap + rest)[1..] == gap[1..] + rest && forall x | x in gap[1..] :: x in gap;
      ReadGap(gap[1..], rest);
      BeforeTwice([], [], Words(rest, Gap));
    }
  }

  lemma GapAfter(buf: string, gap: string, rest: string)
    requires gap != "" && forall x | x in gap :: x == ' '
    ensures Words(gap + rest, Word(buf, false)) == Before([buf], Words(rest, Gap))
  {
    assert gap[0] in gap && (gap + rest)[1..] == gap[1..] + rest && forall x | x in gap[1..] :: x in gap;
    ReadGap(gap[1..], rest);
  }

  lemma NothingLeft(buf: string)
    ensures Words("", Gap) == Good([]) && Words("", Word(buf, false)) == Good([buf])
  {
  }

  /** The words of a line come before those of what follows behind a gap. */
  lemma {:induction false} ReadLine(line: seq<Spaced>, gap: string, rest: string)
    requires GoodLine(line) && (line != [] ==> gap != "") && forall x | x in gap :: x == ' '
    ensures Words(LineText(line) + (gap + rest), Gap) == Before(Meanings(line), Words(rest, Gap))
    decreases |line|
  {
    hide Words, WordText, Meaning, GoodPiece;
    if line == [] {
      ReadGap(gap, rest);
      BeforeTwice([], [], Words(rest, Gap));
      assert "" + (gap + rest) == gap + rest;
    } else {
      var first, later := line[0], line[1..];
      var tail := LineText(later) + (gap + rest);
      assert LineText(line) + (gap + rest) == first.gap + (WordText(first.word) + tail);
      ReadGap(first.gap, WordText(first.word) + tail);
      ReadWord(first.word, tail, Gap);
      assert "" + Meaning(first.word) == Meaning(first.word);
      LaterGood(line);
      ReadLine(later, gap, rest);
      TailAfter(later, gap, rest, Meaning(first.word));
      BeforeTwice([Meaning(first.word)], Meanings(later), Words(rest, Gap));
    }
  }

  lemma LaterGood(line: seq<Spaced>)
    requires GoodLine(line) && line != []
    ensures GoodLine(line[1..]) && (line[1..] != [] ==> line[1..][0].gap != "")
  {
    hide GoodPiece;
    assert forall k | 0 <= k < |line[1..]| :: line[1..][k] == line[k + 1];
  }

  /** What follows a word starts with a gap, so the word ends there. */
  lemma TailAfter(later: seq<Spaced>, gap: string, rest: string, buf: string)
    requires GoodLine(later) && (if later == [] then gap != "" else later[0].gap != "")
    requires forall x | x in gap :: x == ' '
    ensures var tail := LineText(later) + (gap + rest);
            Words(tail, Word(buf, false)) == Before([buf], Words(tail, Gap))
  {
    hide Words, WordText, GoodPiece;
    if later == [] {
      assert "" + (gap + rest) == gap + rest;
      GapAfter(buf, gap, rest);
      ReadGap(gap, rest);
    } else {
      var more := WordText(later[0].word) + (LineText(later[1..]) + (gap + rest));
      assert LineText(later) + (gap + rest) == later[0].gap + more;
      GapAfter(buf, later[0].gap, more);
      ReadGap(later[0].gap, more);
    }
  }

  // ----- Every text

  /** A text: whole words, spaces, the pieces of a last word, then perhaps an open quote, then perhaps a backslash. */
  datatype Reading = Reading(line: seq<Spaced>, gap: string, word: seq<Piece>, quote: Option<seq<Letter>>, escape: bool)

  predicate GoodReading(r: Reading) {
    && GoodLine(r.line) && (r.line != [] ==> r.gap != "") && (forall x | x in r.gap :: x == ' ')
    && (forall p | p in r.word :: GoodPiece(p))
    && (r.quote.Some? ==> GoodPiece(InQuotes(r.quote.value)))
  }

  function OpenText(quote: Option<seq<Letter>>, escape: bool): string {
    (if quote.Some? then "\"" + LettersText(quote.value) else "") + (if escape then "\\" else "")
  }

  function ReadingText(r: Reading): string {
    LineText(r.line) + (r.gap + (WordText(r.word) + OpenText(r.quote, r.escape)))
  }

  lemma ReadOpen(quote: Option<seq<Letter>>, escape: bool, mode: Mode)
    requires (mode.Word? ==> !mode.quoted) && (quote.Some? ==> GoodPiece(InQuotes(quote.value)))
    ensures Words(OpenText(quote, escape), mode) ==
            if escape then Bad(UnterminatedEscape)
            else if quote.Some? then Bad(UnterminatedQuote)
            else Good(if mode.Gap? then [] else [mode.buf])
  {
    hide LettersText;
    var last := if escape then "\\" else "";
    if quote.Some? {
      var xs := quote.value;
      assert OpenText(quote, escape) == "\"" + (LettersText(xs) + last);
      QuoteMark(LettersText(xs) + last, mode);
      ReadLetters(xs, last, Buffer(mode));
    } else {
      assert OpenText(quote, escape) == last;
    }
  }

  /** Splitting gives the words' contents, unless the text ends with an open backslash or within quotes. */
  lemma ReadingSplits(r: Reading)
    requires GoodReading(r)
    ensures Words(ReadingText(r), Gap) ==
            if r.escape then Bad(UnterminatedEscape)
            else if r.quote.Some? then Bad(UnterminatedQuote)
            else Good(Meanings(r.line) + if r.word == [] then [] else [Meaning(r.word)])
  {
    hide Words, WordText, LineText, OpenText, GoodPiece, Meaning, Meanings;
    var open := OpenText(r.quote, r.escape);
    ReadLine(r.line, r.gap, WordText(r.word) + open);
    if r.word == [] {
      NoWord(open);
      ReadOpen(r.quote, r.escape, Gap);
    } else {
      ReadWord(r.word, open, Gap);
      assert "" + Meaning(r.word) == Meaning(r.word);
      ReadOpen(r.quote, r.escape, Word(Meaning(r.word), false));
    }
  }

  lemma NoWord(rest: string)
    ensures WordText([]) + rest == rest
  {
  }

  /** Every text is one of these, so that splitting it is characterised exactly. */
  lemma {:induction false} EveryText(s: string) returns (r: Reading)
    ensures GoodReading(r) && ReadingText(r) == s
    decreases |s|
  {
    if s == "" {
      r := Reading([], "", [], None, false);
    } else {
      var before, c := s[..|s| - 1], s[|s| - 1];
      var q := EveryText(before);
      r := OneMore(q, c);
      assert s == before + [c];
    }
  }

  lemma OneMore(q: Reading, c: char) returns (r: Reading)
    requires GoodReading(q)
    ensures GoodReading(r) && ReadingText(r) == ReadingText(q) + [c]
  {
    hide LineText, WordText, LettersText, GoodLine, GoodPiece;
    if !q.escape && c == '\\' {
      r := q.(escape := true);
    } else if !q.escape && c == '"' {
      r := AtQuote(q);
    } else if !q.escape && c == ' ' && q.quote.None? {
      r := AtSpace(q);
    } else {
      r := AtLetter(q, if q.escape then Escaped(c) else Bare(c));
    }
  }

  lemma AtQuote(q: Reading) returns (r: Reading)
    requires GoodReading(q) && !q.escape
    ensures GoodReading(r) && ReadingText(r) == ReadingText(q) + "\""
  {
    hide LineText, LettersText, WordText, GoodPiece;
    if q.quote.None? {
      r := q.(quote := Some([]));
      NoLetters();
      GoodNothing();
    } else {
      var p := InQuotes(q.quote.value);
      r := q.(word := q.word + [p], quote := None);
      WordMore(q.word, p);
    }
  }

  lemma NoLetters()
    ensures LettersText([]) == ""
  {
  }

  lemma GoodNothing()
    ensures GoodPiece(InQuotes([]))
  {
  }

  lemma AtSpace(q: Reading) returns (r: Reading)
    requires GoodReading(q) && !q.escape && q.quote.None?
    ensures GoodReading(r) && ReadingText(r) == ReadingText(q) + " "
  {
    hide GoodPiece, GoodLine, LineText, WordText;
    NoWord("");
    NoWord(" ");
    if q.word == [] {
      r := q.(gap := q.gap + " ");
    } else {
      var w := Spaced(q.gap, q.word);
      r := Reading(q.line + [w], " ", [], None, false);
      GoodMore(q.line, w);
      LineMore(q.line, w);
      assert LineText(q.line) + (w.gap + (WordText(w.word) + "")) + " " ==
             LineText(q.line) + (w.gap + WordText(w.word)) + (" " + "");
    }
  }

  lemma GoodMore(line: seq<Spaced>, w: Spaced)
    requires GoodLine(line) && (line != [] ==> w.gap != "") && (forall x | x in w.gap :: x == ' ')
    requires w.word != [] && forall p | p in w.word :: GoodPiece(p)
    ensures GoodLine(line + [w])
  {
    hide GoodPiece;
  }

  lemma AtLetter(q: Reading, x: Letter) returns (r: Reading)
    requires GoodReading(q) && (q.escape <==> x.Escaped?)
    requires x.Bare? ==> x.c != '"' && x.c != '\\' && (x.c != ' ' || q.quote.Some?)
    ensures GoodReading(r) && ReadingText(r) == ReadingText(q) + [x.c]
  {
    hide LineText, WordText, LettersText, GoodLine;
    if q.quote.Some? {
      r := q.(quote := Some(q.quote.value + [x]), escape := false);
      LettersMore(q.quote.value, x);
    } else {
      r := q.(word := q.word + [Single(x)], escape := false);
      WordMore(q.word, Single(x));
    }
  }

  lemma {:induction false} LettersMore(xs: seq<Letter>, x: Letter)
    ensures LettersText(xs + [x]) == LettersText(xs) + LetterText(x)
  {
    if xs == [] {
      assert [x][1..] == [] && LetterText(x) + "" == LetterText(x) == "" + LetterText(x);
    } else {
      assert (xs + [x])[1..] == xs[1..] + [x];
      LettersMore(xs[1..], x);
    }
  }

  lemma {:induction false} WordMore(word: seq<Piece>, p: Piece)
    ensures WordText(word + [p]) == WordText(word) + PieceText(p)
  {
    if word == [] {
      assert [p][1..] == [] && PieceText(p) + "" == PieceText(p) == "" + PieceText(p);
    } else {
      assert (word + [p])[1..] == word[1..] + [p];
      WordMore(word[1..], p);
    }
  }

  lemma {:induction false} LineMore(line: seq<Spaced>, w: Spaced)
    ensures LineText(line + [w]) == LineText(line) + (w.gap + WordText(w.word))
  {
    if line == [] {
      assert [w][1..] == [] && w.gap + WordText(w.word) + "" == "" + (w.gap + WordText(w.word));
    } else {
      assert (line + [w])[1..] == line[1..] + [w];
      LineMore(line[1..], w);
    }
  }

  lemma {:induction false} ReadPlain(t: string, rest: string, buf: string, quoted: bool)
    requires forall x | x in t :: x != '"' && x != '\\' && (x == ' ' ==> quoted)
    ensures Words(t + rest, Word(buf, quoted)) == Words(rest, Word(buf + t, quoted))
  {
    if t == "" {
      assert t + rest == rest && buf + t == buf;
    } else {
      assert t[0] in t && t + rest == [t[0]] + (t[1..] + rest) && forall x | x in t[1..] :: x in t;
      ReadLetter(Bare(t[0]), t[1..] + rest, Word(buf, quoted));
      ReadPlain(t[1..], rest, buf + [t[0]], quoted);
      assert buf + [t[0]] + t[1..] == buf + t;
    }
  }

  /** `-arg2="a b c"`: a stretch in quotes belongs to the word in which it stands. */
  lemma QuotesInside(front: string, inner: string, back: string)
    requires forall x | x in front || x in back :: x != '"' && x != '\\' && x != ' '
    requires forall x | x in inner :: x != '"' && x != '\\'
    ensures Words(front + "\"" + inner + "\"" + back, Gap) == Good([front + inner + back])
  {
    hide Words;
    var last := "\"" + back;
    var rest := "\"" + (inner + last);
    assert front + "\"" + inner + "\"" + back == front + rest && back + "" == back;
    if front == "" {
      assert front + rest == rest;
    } else {
      assert front + rest == [front[0]] + (front[1..] + rest) && [front[0]] + front[1..] == front && front[0] in front;
      assert forall x | x in front[1..] :: x in front;
      ReadLetter(Bare(front[0]), front[1..] + rest, Gap);
      assert "" + [front[0]] == [front[0]];
      ReadPlain(front[1..], rest, [front[0]], false);
    }
    QuoteMark(inner + last, if front == "" then Gap else Word(front, false));
    ReadPlain(inner, last, front, true);
    QuoteMark(back, Word(front + inner, true));
    ReadPlain(back, "", front + inner, false);
    NothingLeft(front + inner + back);
  }
}
