/** Compressing a file by hill climbing: apply the compressor over and over and keep the smallest result. */
module HillClimbing {

  type Files = map<string, string>

  /** The external compressor, as a function from content to content. */
  datatype Compressor = Compressor(run: string -> string)

  class Folder {
    var files: Files

    constructor (files: Files)
      ensures this.files == files
    {
      this.files := files;
    }

    method Remove(name: string)
      requires name in files
      modifies this
      ensures files == old(files) - {name}
    {
      files := files - {name};
    }

    method Move(source: string, target: string)
      requires source in files && source != target
      modifies this
      ensures files == (old(files) - {source})[target := old(files)[source]]
    {
      files := (files - {source})[target := files[source]];
    }

    method CopyFile(source: string, target: string)
      requires source in files && source != target
      modifies this
      ensures files == old(files)[target := old(files)[source]]
    {
      files := files[target := files[source]];
    }
  }

  // ----- Names of intermediate files

  function Digit(d: nat): char
    requires d < 10
  {
    "0123456789"[d]
  }

  function Decimal(n: nat): string {
    (if n < 10 then "" else Decimal(n / 10)) + [Digit(n % 10)]
  }

  lemma {:induction false} DecimalDiffers(m: nat, n: nat)
    requires Decimal(m) == Decimal(n)
    ensures m == n
  {
    var a, b := Decimal(m), Decimal(n);
    assert a[|a| - 1] == Digit(m % 10) && b[|b| - 1] == Digit(n % 10);
    SameDigit(m % 10, n % 10);
    assert a[..|a| - 1] == if m < 10 then "" else Decimal(m / 10);
    assert b[..|b| - 1] == if n < 10 then "" else Decimal(n / 10);
    if m >= 10 && n >= 10 { DecimalDiffers(m / 10, n / 10); }
  }

  lemma SameDigit(d: nat, e: nat)
    requires d < 10 && e < 10 && Digit(d) == Digit(e)
    ensures d == e
  {
  }

  function Name(input: string, suffix: string, i: nat): string {
    input + suffix + Decimal(i)
  }

  lemma NamesDiffer(input: string, suffix: string)
    ensures forall i: nat :: Name(input, suffix, i) != input
    ensures forall i: nat, j: nat | i != j :: Name(input, suffix, i) != Name(input, suffix, j)
  {
    forall i: nat
      ensures Name(input, suffix, i) != input
    {
      assert |Name(input, suffix, i)| > |input|;
    }
    forall i: nat, j: nat | i != j
      ensures Name(input, suffix, i) != Name(input, suffix, j)
    {
      var a, b := Name(input, suffix, i), Name(input, suffix, j);
      assert a[|input + suffix|..] == Decimal(i) && b[|input + suffix|..] == Decimal(j);
      if a == b { DecimalDiffers(i, j); }
    }
  }

  // ----- Which attempt wins, and when to stop

  /** What the compressor makes of the content when applied `i` times. */
  function Attempt(compressor: Compressor, content: string, i: nat): string {
    if i == 0 then content else compressor.run(Attempt(compressor, content, i - 1))
  }

  /** The first of the attempts up to `m` whose result is smallest; the content itself is attempt 0. */
  ghost predicate Best(compressor: Compressor, content: string, m: nat, j: nat) {
    && j <= m
    && (forall i: nat | i < j :: |Attempt(compressor, content, i)| > |Attempt(compressor, content, j)|)
    && (forall i: nat | i <= m :: |Attempt(compressor, content, i)| >= |Attempt(compressor, content, j)|)
  }

  /** The last `retries` of the `m` attempts have brought no improvement. */
  ghost predicate Stuck(compressor: Compressor, content: string, retries: int, m: nat) {
    exists j: nat :: Best(compressor, content, m, j) && m - j >= retries
  }

  /** There are `m` attempts: as many as allowed, or as it takes to get stuck, and not stuck before. */
  ghost predicate StopsAfter(compressor: Compressor, content: string, retries: int, maxAttempts: int, m: nat) {
    && m <= maxAttempts
    && (m == maxAttempts || Stuck(compressor, content, retries, m))
    && (forall k: nat | k < m :: !Stuck(compressor, content, retries, k))
  }

  lemma BestIsUnique(compressor: Compressor, content: string, m: nat, j: nat, j': nat)
    requires Best(compressor, content, m, j) && Best(compressor, content, m, j')
    ensures j == j'
  {
    var size, size' := |Attempt(compressor, content, j)|, |Attempt(compressor, content, j')|;
    assert (j < j' ==> size > size') && (j' < j ==> size' > size);
  }

  /** The number of attempts and the winner are determined. */
  lemma StopIsUnique(compressor: Compressor, content: string, retries: int, maxAttempts: int, m: nat, m': nat)
    requires StopsAfter(compressor, content, retries, maxAttempts, m)
    requires StopsAfter(compressor, content, retries, maxAttempts, m')
    ensures m == m'
  {
    hide Stuck;
  }

  /** Allowing more attempts or more patience never makes the result larger. */
  lemma MoreAttemptsHelp(compressor: Compressor, content: string, m: nat, m': nat, j: nat, j': nat)
    requires m <= m' && Best(compressor, content, m, j) && Best(compressor, content, m', j')
    ensures |Attempt(compressor, content, j')| <= |Attempt(compressor, content, j)| <= |content|
  {
    assert Attempt(compressor, content, 0) == content;
  }

  lemma PatienceMeansMore(compressor: Compressor, content: string, retries: int, retries': int,
                          maxAttempts: int, maxAttempts': int, m: nat, m': nat)
    requires retries <= retries' && maxAttempts <= maxAttempts'
    requires StopsAfter(compressor, content, retries, maxAttempts, m)
    requires StopsAfter(compressor, content, retries', maxAttempts', m')
    ensures m <= m'
  {
    hide Best;
    assert Stuck(compressor, content, retries', m') ==> Stuck(compressor, content, retries, m');
  }

  // ----- The loop

  datatype Outcome = Compressed | BadRetries | BadAttempts | NoInput

  /** The file an attempt's result is in. */
  function FileOf(input: string, suffix: string, i: nat): string {
    if i == 0 then input else Name(input, suffix, i)
  }

  /** The files with the result of an attempt in its intermediate file; the input itself is attempt 0. */
  function WithAttempt(files: Files, input: string, suffix: string, compressor: Compressor, content: string,
                       i: nat): Files {
    if i == 0 then files else files[Name(input, suffix, i) := Attempt(compressor, content, i)]
  }

  /** After `m` attempts the best result so far and the last one are there, next to the input. */
  function State(files: Files, input: string, suffix: string, compressor: Compressor, content: string, m: nat,
                 j: nat): Files {
    var best := WithAttempt(files, input, suffix, compressor, content, j);
    WithAttempt(best, input, suffix, compressor, content, m)
  }

  /** The names of the intermediate files are free. */
  ghost predicate NamesFree(files: Files, input: string, output: string, suffix: string, maxAttempts: int) {
    forall i: nat | i <= maxAttempts :: Name(input, suffix, i) !in files && Name(input, suffix, i) != output
  }

  ghost predicate Unused(files: Files, input: string, suffix: string, limit: int) {
    forall i: nat | i <= limit :: Name(input, suffix, i) !in files
  }

  /** Where hill climbing stands after `k` attempts of which the `j`th is the best so far. */
  ghost predicate Climbing(compressor: Compressor, content: string, retries: int, k: nat, j: nat) {
    && Best(compressor, content, k, j)
    && forall i: nat | i < k :: !Stuck(compressor, content, retries, i)
  }

  lemma ClimbOn(compressor: Compressor, content: string, retries: int, k: nat, j: nat)
    requires Climbing(compressor, content, retries, k, j) && k - j < retries
    ensures var next := |Attempt(compressor, content, k + 1)|;
            Climbing(compressor, content, retries, k + 1, if next < |Attempt(compressor, content, j)| then k + 1 else j)
  {
    forall j': nat | Best(compressor, content, k, j')
      ensures j' == j
    {
      BestIsUnique(compressor, content, k, j, j');
    }
    BestOn(compressor, content, k, j);
  }

  lemma BestOn(compressor: Compressor, content: string, k: nat, j: nat)
    requires Best(compressor, content, k, j)
    ensures var next := |Attempt(compressor, content, k + 1)|;
            Best(compressor, content, k + 1, if next < |Attempt(compressor, content, j)| then k + 1 else j)
  {
    hide Attempt;
  }

  /** One attempt's effect on the files: the new result is added, and what is no longer wanted removed. */
  lemma FilesAfterAttempt(files: Files, input: string, suffix: string, compressor: Compressor, content: string,
                          m: nat, j: nat, improved: bool)
    requires input in files && files[input] == content && j <= m
    requires forall i: nat | i <= m + 1 :: Name(input, suffix, i) !in files
    ensures var before := State(files, input, suffix, compressor, content, m, j);
            var last, best, next := FileOf(input, suffix, m), FileOf(input, suffix, j), Name(input, suffix, m + 1);
            var j' := if improved then m + 1 else j;
            && next == FileOf(input, suffix, m + 1) == input + suffix + Decimal(m + 1) && (input == best <==> j == 0)
            && last in before && before[last] == Attempt(compressor, content, m)
            && compressor.run(before[last]) == Attempt(compressor, content, m + 1)
            && var made := before[next := compressor.run(before[last])];
            && var kept := if m == 0 || j == m then made else made - {last};
            && last in made && best in kept
            && (if improved && input != best then kept - {best} else kept) ==
               State(files, input, suffix, compressor, content, m + 1, j')
  {
    assert Name(input, suffix, m + 1) == input + suffix + Decimal(m + 1);
    hide Name;
    NamesDiffer(input, suffix);
    assert Attempt(compressor, content, m + 1) == compressor.run(Attempt(compressor, content, m));
    hide Attempt;
  }

  lemma FilesAtEnd(files: Files, input: string, suffix: string, compressor: Compressor, content: string, m: nat, j: nat)
    requires input in files && files[input] == content && j <= m
    requires forall i: nat | i <= m :: Name(input, suffix, i) !in files
    ensures var before := State(files, input, suffix, compressor, content, m, j);
            var last := FileOf(input, suffix, m);
            && last in before
            && (if m == 0 || j == m then before else before - {last}) ==
                WithAttempt(files, input, suffix, compressor, content, j)
  {
    hide Name, Attempt;
    NamesDiffer(input, suffix);
  }

  /**
   * Hill climbing leaves in the output the smallest of the results of the attempts made, the first of them if several
   * are smallest. No intermediate file stays behind and no other file changes.
   */
  method Compress(folder: Folder, compressor: Compressor, input: string, output: string, suffix: string,
                  maxRetryCount: int, maxAttempts: int) returns (r: Outcome, ghost m: nat, ghost j: nat)
    requires NamesFree(folder.files, input, output, suffix, maxAttempts)
    modifies folder
    ensures r.BadRetries? <==> maxRetryCount < 1
    ensures r.BadAttempts? <==> maxRetryCount >= 1 && maxAttempts < 1
    ensures r.NoInput? <==> maxRetryCount >= 1 && maxAttempts >= 1 && input !in old(folder.files)
    ensures !r.Compressed? ==> folder.files == old(folder.files)
    ensures r.Compressed? ==>
              var content := old(folder.files)[input];
              && StopsAfter(compressor, content, maxRetryCount, maxAttempts, m)
              && Best(compressor, content, m, j)
              && folder.files == old(folder.files)[output := Attempt(compressor, content, j)]
  {
    m, j := 0, 0;
    if maxRetryCount < 1 {
      return BadRetries, m, j;
    }
    if maxAttempts < 1 {
      return BadAttempts, m, j;
    }
    if input !in folder.files {
      return NoInput, m, j;
    }
    ghost var files, content := folder.files, folder.files[input];
    var smallestFile;
    smallestFile, m, j := Climb(folder, compressor, input, output, suffix, maxRetryCount, maxAttempts);
    BestExists(compressor, content, m, j);
    assert Name(input, suffix, 0) !in files && Name(input, suffix, j) !in files && Name(input, suffix, j) != output;
    hide Best, StopsAfter, Name, Attempt, FileOf, WithAttempt, NamesFree;
    Install(folder, compressor, input, output, suffix, smallestFile, files, content, j);
    return Compressed, m, j;
  }

  lemma BestExists(compressor: Compressor, content: string, m: nat, j: nat)
    requires Best(compressor, content, m, j)
    ensures j <= m
  {
  }

  /** The attempts; afterwards only the input and the best result are there. */
  method Climb(folder: Folder, compressor: Compressor, input: string, output: string, suffix: string,
               maxRetryCount: int, maxAttempts: int) returns (smallestFile: string, ghost m: nat, ghost j: nat)
    requires NamesFree(folder.files, input, output, suffix, maxAttempts)
    requires maxRetryCount >= 1 && maxAttempts >= 1 && input in folder.files
    modifies folder
    ensures StopsAfter(compressor, old(folder.files)[input], maxRetryCount, maxAttempts, m)
    ensures Best(compressor, old(folder.files)[input], m, j)
    ensures smallestFile == FileOf(input, suffix, j)
    ensures folder.files == WithAttempt(old(folder.files), input, suffix, compressor, old(folder.files)[input], j)
  {
    ghost var files, content := folder.files, folder.files[input];
    assert Unused(files, input, suffix, maxAttempts);
    hide Unused;
    hide Best, Stuck, State, WithAttempt, Name, Decimal, Attempt, FileOf, Climbing, StopsAfter, NamesFree, Standing;
    m, j := 0, 0;
    var retryCount := maxRetryCount;
    var testIndex := 1;
    var attemptsLeft := maxAttempts;
    var lastFile, lastSaved := input, true;
    var smallestSize: nat := |folder.files[input]|;
    smallestFile := lastFile;
    StartClimbing(compressor, content, maxRetryCount, files, input, suffix);
    while attemptsLeft > 0 && retryCount > 0
      invariant attemptsLeft == maxAttempts - m >= 0 && testIndex == m + 1 && retryCount == maxRetryCount - (m - j)
      invariant j <= m && Climbing(compressor, content, maxRetryCount, m, j)
      invariant Standing(folder.files, files, input, suffix, compressor, m, j, lastFile, lastSaved, smallestFile,
                         smallestSize)
    {
      lastFile, lastSaved, smallestFile, smallestSize, j :=
        TryOnce(folder, compressor, input, suffix, testIndex, lastFile, lastSaved, smallestFile, smallestSize,
                maxRetryCount, maxAttempts, files, m, j);
      retryCount := if lastSaved then maxRetryCount else retryCount - 1;
      attemptsLeft, testIndex, m := attemptsLeft - 1, testIndex + 1, m + 1;
    }
    StopClimbing(compressor, content, maxRetryCount, maxAttempts, m, j);
    DropLast(folder, compressor, input, suffix, lastFile, lastSaved, smallestFile, smallestSize, maxAttempts, files, m,
             j);
  }

  /** What the loop's variables stand for after `m` attempts of which the `j`th is the best. */
  ghost predicate Standing(now: Files, files: Files, input: string, suffix: string, compressor: Compressor, m: nat,
                           j: nat, lastFile: string, lastSaved: bool, smallestFile: string, smallestSize: nat)
    requires input in files
  {
    && now == State(files, input, suffix, compressor, files[input], m, j)
    && lastFile == FileOf(input, suffix, m) && smallestFile == FileOf(input, suffix, j)
    && smallestSize == |Attempt(compressor, files[input], j)| && (lastSaved <==> m == 0 || j == m)
  }

  /** Compresses the last result once more and removes the files that are no longer wanted. */
  method TryOnce(folder: Folder, compressor: Compressor, input: string, suffix: string, testIndex: nat,
                 lastFile: string, lastSaved: bool, smallestFile: string, smallestSize: nat,
                 ghost retries: int, ghost limit: int, ghost files: Files, ghost m: nat, ghost j: nat)
    returns (nextFile: string, better: bool, bestFile: string, bestSize: nat, ghost best: nat)
    requires input in files && j <= m && testIndex == m + 1
    requires Unused(files, input, suffix, limit) && m + 1 <= limit
    requires Standing(folder.files, files, input, suffix, compressor, m, j, lastFile, lastSaved, smallestFile,
                      smallestSize)
    requires Climbing(compressor, files[input], retries, m, j) && m - j < retries
    modifies folder
    ensures best == (if better then m + 1 else j) && Climbing(compressor, files[input], retries, m + 1, best)
    ensures Standing(folder.files, files, input, suffix, compressor, m + 1, best, nextFile, better, bestFile, bestSize)
  {
    ghost var content := files[input];
    ClimbOn(compressor, content, retries, m, j);
    FilesAfterAttempt(files, input, suffix, compressor, content, m, j,
                      |Attempt(compressor, content, m + 1)| < smallestSize);
    hide State, WithAttempt, Name, Decimal, Attempt, FileOf, Climbing;
    nextFile, bestFile, bestSize, best := input + suffix + Decimal(testIndex), smallestFile, smallestSize, j;
    folder.files := folder.files[nextFile := compressor.run(folder.files[lastFile])];
    var nextSize := |folder.files[nextFile]|;
    if !lastSaved {
      folder.Remove(lastFile);
    }
    better := nextSize < smallestSize;
    if better {
      bestFile, bestSize, best := nextFile, nextSize, m + 1;
      if input != smallestFile {
        folder.Remove(smallestFile);
      }
    }
  }

  /** Removes the last result unless it is the best. */
  method DropLast(folder: Folder, compressor: Compressor, input: string, suffix: string,
                  lastFile: string, lastSaved: bool, smallestFile: string, smallestSize: nat,
                  ghost limit: int, ghost files: Files, ghost m: nat, ghost j: nat)
    requires input in files && j <= m <= limit && Unused(files, input, suffix, limit)
    requires Standing(folder.files, files, input, suffix, compressor, m, j, lastFile, lastSaved, smallestFile,
                      smallestSize)
    modifies folder
    ensures smallestFile == FileOf(input, suffix, j)
    ensures folder.files == WithAttempt(files, input, suffix, compressor, files[input], j)
  {
    FilesAtEnd(files, input, suffix, compressor, files[input], m, j);
    hide State, WithAttempt, Name, Attempt, FileOf;
    if !lastSaved {
      folder.Remove(lastFile);
    }
  }

  /** Puts the best result in the output, and nowhere else. */
  method Install(folder: Folder, compressor: Compressor, input: string, output: string, suffix: string,
                 smallestFile: string, ghost files: Files, ghost content: string, ghost j: nat)
    requires input in files && files[input] == content && smallestFile == FileOf(input, suffix, j)
    requires folder.files == WithAttempt(files, input, suffix, compressor, content, j)
    requires Name(input, suffix, j) !in files && Name(input, suffix, 0) !in files && Name(input, suffix, j) != output
    modifies folder
    ensures folder.files == files[output := Attempt(compressor, content, j)]
  {
    NamesDiffer(input, suffix);
    assert j == 0 ==> Attempt(compressor, content, j) == content;
    hide Attempt;
    if input == output {
      if input == smallestFile {
        return;
      }
      var temp := input + suffix + "0";
      assert temp == Name(input, suffix, 0);
      hide Name;
      folder.Move(input, temp);
      folder.Move(smallestFile, input);
      folder.Remove(temp);
    } else if input == smallestFile {
      folder.CopyFile(smallestFile, output);
    } else {
      folder.Move(smallestFile, output);
    }
  }

  lemma StartClimbing(compressor: Compressor, content: string, retries: int, files: Files, input: string,
                      suffix: string)
    requires retries >= 1
    ensures Climbing(compressor, content, retries, 0, 0)
    ensures Attempt(compressor, content, 0) == content && FileOf(input, suffix, 0) == input
    ensures State(files, input, suffix, compressor, content, 0, 0) == files
    ensures input in files && files[input] == content ==>
              Standing(files, files, input, suffix, compressor, 0, 0, input, true, input, |content|)
  {
  }

  lemma StopClimbing(compressor: Compressor, content: string, retries: int, maxAttempts: int, m: nat, j: nat)
    requires Climbing(compressor, content, retries, m, j) && m <= maxAttempts && (m == maxAttempts || m - j >= retries)
    ensures StopsAfter(compressor, content, retries, maxAttempts, m) && Best(compressor, content, m, j)
  {
  }
}
