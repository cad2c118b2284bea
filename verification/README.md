# Native Client build and driver tooling, in Dafny

This project models seven algorithmic cores of the repository and proves what they are for.

1. **The driver's environment and its expression language** (`Text`, `Shell`, `ShellSpelling`, `Evaluator`,
   `EvaluatorRoundTrip`, `EvaluatorLaws`, `EvaluatorDepth`, `EvaluatorShift`, `EvaluatorExtension`, `Environment`,
   `EnvironmentParts`, `EnvironmentReading`). Variables hold shell-escaped text; reading one evaluates `${...}`,
   `%...%`, booleans, ternaries and `@calls` by recursive descent, and splits the result into terms. The evaluator is
   modelled function by function on the string and position it reads. Nested evaluation is a parameter (`Context`),
   which `Eval` ties into a depth-bounded evaluator. Main results: printing any expression of the documented grammar
   and evaluating the text gives the expression's eager meaning, and what references, calls and choices written out as
   text evaluate to is stated over the variables and functions alone; every text is a line of words, perhaps with an
   open quote or backslash, and splits accordingly; one expression behind another evaluates to what both evaluate to;
   from whatever the environment is loaded with, any run of set, append, clear, setraw, update, push and pop behaves
   as a stack of maps from variables to templates and lists of non-empty terms, and reading a variable reads these one
   after another; a larger depth never changes an outcome, and evaluation of all strings terminates exactly when the
   strings can be ranked so that every lookup goes down.
2. **Linker inputs** (`LinkerScript`, `LinkerScriptGrammar`, `LinkerScriptText`, `LinkerScriptLaws`, `LinkerInputs`,
   `LinkerInputsLaws`, `SplitLinkLine`). The tokenizer with push-back and comments, the stack parser, library search,
   the worklist that replaces scripts by what they name, and the splitter of native and bitcode inputs. Main results:
   any layout of a script parses to its flags, which are written out for each kind of section; which file every kind
   of library argument becomes; which texts are accepted; the open group and as-needed flags always mirror the
   parser's stack; the worklist computes the recursive flattening and ends exactly when that does; the splitter keeps
   order and groups.
3. **Ordering the bot monitor's processors** (`Digraph`, `BotMon`). Edges are made while tags are read in any node
   order; Kahn's algorithm removes them again. Both assertions and the fatal message are characterised exactly, and so
   is when every stage finds its tags provided by earlier ones.
4. **Package builds** (`BuildOrder`, `FileTrees`, `Once`, `BuildAll`). Depth-first ordering with cycle detection, the
   content-addressed memo store with storage operations that may fail, and the in-process cache of path hashes. Main
   results: the order is exactly the dependency closure or the right error; the store is sound after any history; the
   path-hash cache never goes stale in a buildable order; every signature is made of the package, its commands' texts
   and the hashes of its inputs' files, so that an output is reused only from a run with all of these the same; and a
   build from scratch that follows a complete one takes every output from the store.
5. **Hill-climbing compression** (`Compress`).
6. **Temporary names and directory merging** (`TempNames`, `TempNamesLaws`, `MergeDirTree`). Names take the least
   number of path components that tells the inputs apart; merging succeeds exactly under a condition on both trees.
7. **Self-relocation** (`Relocate`): byte-addressed memory, 32-bit words with wrap-around. What changes is stated in
   plain arithmetic on the bytes.

Objects that the source updates in place are classes whose methods are proved against functions of their old state;
the properties are then proved about those functions. Files, directories, archives, stable hashes, digests, build
commands, the compressor and registered `@` functions are values, maps or function parameters. What is relied on about
them is stated where it is used: archives come back with the stable hash they had (`FaithfulArchives`), hashes contain
no underscore (`PlainHashes`), and build commands keep to their own output and working directories (`Confined`). Only
the result about repeated builds also needs archives to be exact (`ExactArchives`) and signatures of different packages
to differ (`TellsPackage`); what an equal signature says about commands and inputs needs all materials to be told apart
(`TellsAll`). `Options` holds the type of optional values that all modules share.

Where the code and its own words differ, the model follows the code:

- `tools/bot-mon.py:60-66` says that a stage whose required tag nobody provides can never run. In the code such a tag
  makes no edge, and the stage is ordered like any other: `UnprovidedExample` orders a single stage of that kind. The
  order provides every stage's tags by earlier stages if and only if some node provides each required tag
  (`ProvidedIff`, and in the contract of `ExecutionOrder`).
- The grammar comment at `pnacl/driver/driver_env.py:301-317` allows any bracket expression between percent signs.
  The look-ahead at line 454 takes a `?` there for a ternary of the enclosing bracket, and a closing delimiter there
  for the end of a variable. `VariableWorksIff` says exactly when a name is read as meant and `TernarySeenIff` when a
  test is recognised as one; `MisreadExample` and `UnseenTernaryExample` are texts that go wrong.
- A linker script that ends inside a section is accepted (`AcceptsIff`, `OpenGroupExample`). The flags of an accepted
  text nest exactly if its tokens are those of whole sections and perhaps of one more that does not end, which is no
  GROUP and in which no AS_NEEDED is open (`ParsedFlagsNestIff`).
- `-l` arguments are gone after expansion only for ordinary search directories (`LibsGoneIff`): in a directory named
  with the empty string, or starting with `-l`, what is found looks like a `-l` argument again.
- Moving a directory onto a file is meant to fail; an empty directory is dropped instead (`SucceedsIff`,
  `EmptyOntoFile`).
- Temporary names can fail to be found although no path is the end of another, because components are joined by an
  underscore that may also be in them (`UnderscoreExample`). `ResolvesIff` is exact for inputs of whose paths no two
  different ends are joined to the same name, and so for all without underscores (`PlainResolvesIff`).

`dafny verify dfyconfig.toml` checks the whole project.

## Model

| member | source | states |
|---|---|---|
| Evaluator.FindFirst | pnacl/driver/driver_env.py:193-208 | the result is the leftmost position from `pos` at which a pattern starts, with a pattern that starts there; the end of the string if there is none |
| Evaluator.FirstIsLeast | pnacl/driver/driver_env.py:200-208 | the least key of the dictionary of first positions, with the pattern entered last for it, is what the leftmost search gives |
| Evaluator.FindFirstLoop | pnacl/driver/driver_env.py:199-208 | filling the dictionary, dropping -1 and taking the least key computes FindFirst |
| Evaluator.WhitespaceLoop | pnacl/driver/driver_env.py:344-348 | the loop skips exactly the spaces at the position |
| Evaluator.EvalVarname | pnacl/driver/driver_env.py:327-341 | a name ends between its start and the string's length, and inside the string only at a terminator |
| Evaluator.EvalBoolVal | pnacl/driver/driver_env.py:350-401 | a parser that returns ends between its start and the string's length |
| Evaluator.EvalEquality | pnacl/driver/driver_env.py:378-395 | the comparison branch ends between its start and the string's length, and can only report the two errors of that branch |
| Evaluator.EvalBoolExpr | pnacl/driver/driver_env.py:404-426 | a parser that returns ends between its start and the string's length |
| Evaluator.EvalBracketExpr | pnacl/driver/driver_env.py:430-487 | a parser that returns ends between its start and the string's length |
| Evaluator.EvalTernary | pnacl/driver/driver_env.py:465-487 | a parser that returns ends between its start and the string's length |
| Evaluator.EvalCall | pnacl/driver/driver_env.py:433-452 | a parser that returns ends between its start and the string's length |
| Evaluator.EvalExpr | pnacl/driver/driver_env.py:296-502 | a parser that returns ends between its start and the string's length, and without terminators at the very end, so that the assertion of `eval` never fails |
| EvaluatorRoundTrip.NameRuns | pnacl/driver/driver_env.py:327-341 | a printed variable name, with computed parts, evaluates to the name it means and stops at its terminator |
| EvaluatorRoundTrip.CallRuns | pnacl/driver/driver_env.py:433-452 | a printed call evaluates to what the function's result evaluates to and stops at the closing delimiter |
| EvaluatorRoundTrip.BracketRuns | pnacl/driver/driver_env.py:430-487 | a printed variable, call or ternary, both of whose arms are evaluated, evaluates to its meaning and stops at its closing delimiter |
| EvaluatorRoundTrip.BoolExprRuns | pnacl/driver/driver_env.py:404-426 | printed conjunctions and disjunctions evaluate right-associated, with equal precedence, and eagerly |
| EvaluatorRoundTrip.BoolValRuns | pnacl/driver/driver_env.py:350-401 | a printed operand, with negation, length test or comparison and any padding, evaluates to its meaning |
| EvaluatorRoundTrip.EqualityRuns | pnacl/driver/driver_env.py:378-395 | a printed comparison compares with exactly the literal, and stops where it ends |
| EvaluatorRoundTrip.ExprRuns | pnacl/driver/driver_env.py:491-502 | a printed expression followed by a terminator evaluates to its meaning and stops at the terminator |
| EvaluatorRoundTrip.EvalTextPrint | pnacl/driver/driver_env.py:296-502 | printing any well-formed expression and evaluating the text gives the expression's meaning, errors included |
| EvaluatorRoundTrip.VariableWorksIff | pnacl/driver/driver_env.py:454-464 | a variable reference evaluates as meant if and only if no question mark inside its percent parts comes before the first closing brace and its meaning is a value |
| EvaluatorRoundTrip.MisreadExample | pnacl/driver/driver_env.py:454-468 | a concrete text with a meaning, `${X%@f:?%}`, that the look-ahead takes for a ternary and whose evaluation fails |
| EvaluatorRoundTrip.TernarySeenIff | pnacl/driver/driver_env.py:454-468 | a printed test before its question mark is taken for a ternary if and only if no closing delimiter inside its percent parts comes before the first question mark |
| EvaluatorRoundTrip.UnseenTernaryExample | pnacl/driver/driver_env.py:454-464 | a concrete ternary that the look-ahead takes for a variable |
| Text.StripSplits | pnacl/driver/driver_env.py:482-485 | every text is blanks, the stripped text and blanks again, and the stripped text has no blank at either end |
| Text.StripOf | pnacl/driver/driver_env.py:482-485 | blanks around a text that has none at its ends are what stripping takes away |
| EvaluatorLaws.VariableText | pnacl/driver/driver_env.py:454-464 | `${name}`, with any spaces around the name, evaluates to what the variable's text evaluates to; an undefined variable is an error |
| EvaluatorLaws.ComputedText | pnacl/driver/driver_env.py:327-341 | `${left%inner%right}` is the variable whose name the texts and the value of `inner` make together |
| EvaluatorLaws.CallText | pnacl/driver/driver_env.py:433-452 | `${@f:a:b}`, with any number of arguments, evaluates what the registered function gives for exactly these arguments in order; an unknown function and one that raises are errors |
| EvaluatorLaws.ChoiceTrims | pnacl/driver/driver_env.py:465-487 | a choice whose arms evaluate to blanks, a text and blanks gives exactly the text of the chosen arm |
| EvaluatorLaws.ChoiceOrNothing | pnacl/driver/driver_env.py:465-487 | without a second arm a choice gives the text of the first or nothing |
| EvaluatorLaws.ChosenByFlag | pnacl/driver/driver_env.py:350-487 | `${name ? yes : no}` and `${!name ? yes : no}` choose by whether the variable reads 1 or 0 |
| EvaluatorLaws.ChosenByLength | pnacl/driver/driver_env.py:350-487 | `${#name ? yes : no}` chooses by whether the variable reads as nothing |
| EvaluatorLaws.ChosenByLiteral | pnacl/driver/driver_env.py:378-487 | `${name==literal ? yes : no}` chooses by whether the variable reads as the literal |
| EvaluatorLaws.ChosenByTwo | pnacl/driver/driver_env.py:404-487 | two tests with `&&` or `||` between them, the second negated or not, choose as the two variables say |
| EvaluatorLaws.StartFile | pnacl/driver/pnacl-driver.py:141 | the driver's own choice of a start file by exception handling mode |
| EvaluatorDepth.TextFollows | pnacl/driver/driver_env.py:296-502 | replacing some nested evaluations by a fault leaves the outcome as it was or makes it that fault |
| EvaluatorDepth.DepthMonotone | pnacl/driver/driver_env.py:296-299 | once an evaluation ends within some nesting, every larger bound gives the same outcome |
| EvaluatorDepth.RankBoundsDepth | pnacl/driver/driver_env.py:296-464 | a rank that every lookup lowers, computed names and call results included, bounds the nesting |
| EvaluatorDepth.TerminationIffRanked | pnacl/driver/driver_env.py:296-464 | evaluation of every string terminates if and only if some rank falls at every lookup |
| Shell.Split | pnacl/driver/shelltools.py:36-71 | the character loop computes the words of the text, or the first of the two fatal errors |
| Shell.WordsConcat | pnacl/driver/shelltools.py:36-71 | two well-formed texts joined by a space split into the words of the one and then of the other |
| Shell.AppendEscaped | pnacl/driver/shelltools.py:36-89 | appending an escaped term to a well-formed text appends that term to its words, or nothing if it is empty |
| Shell.SplitJoin | pnacl/driver/shelltools.py:73-89 | splitting joined arguments gives the arguments without the empty ones, and no error |
| Shell.UnescapeEscape | pnacl/driver/shelltools.py:24-32 | unescaping an escaped string gives the string, for every string |
| Shell.EscapeForm | pnacl/driver/shelltools.py:81-89 | escaping puts a backslash before every quote and backslash, and quotes around a text with a space |
| ShellSpelling.ReadingSplits | pnacl/driver/shelltools.py:36-71 | words of bare and escaped characters and quoted stretches, with gaps between, split to their contents; a text that ends in an open backslash or quote is the one or the other error |
| ShellSpelling.EveryText | pnacl/driver/shelltools.py:36-71 | every text is one of those, so that result and error of splitting are characterised exactly |
| ShellSpelling.QuotesInside | pnacl/driver/shelltools.py:38-43 | a quoted stretch belongs to the word in which it stands, as in `-arg2="a b c"` |
| DriverEnvironment.Environment.Push | pnacl/driver/driver_env.py:233-235 | the variables stay and a copy of them is on top of the stack |
| DriverEnvironment.Environment.Pop | pnacl/driver/driver_env.py:237-238 | the last saved copy is taken back; nothing changes on an empty stack, which is an error |
| DriverEnvironment.Environment.Clear | pnacl/driver/driver_env.py:279-280 | the variable is empty and nothing else changes |
| DriverEnvironment.Environment.SetRaw | pnacl/driver/driver_env.py:266-267 | the variable holds the text as given and nothing else changes |
| DriverEnvironment.Environment.Update | pnacl/driver/driver_env.py:226-227 | the given variables hold the given text and nothing else changes |
| DriverEnvironment.Environment.Append | pnacl/driver/driver_env.py:289-293 | the escaped terms are added behind a space unless the text was empty; an unset variable is an error |
| DriverEnvironment.Environment.Set | pnacl/driver/driver_env.py:283-285 | the variable holds the escaped terms and nothing else changes |
| DriverEnvironment.Environment.Get | pnacl/driver/driver_env.py:243-249 | the result is the words of the evaluated text; an unset variable is an error |
| EnvironmentParts.StepRefines | pnacl/driver/driver_env.py:226-293 | every operation on stored text matches the operation on what has been put in the variables, whatever the terms, and raises in the same cases |
| EnvironmentParts.RunRefines | pnacl/driver/driver_env.py:226-293 | over any run of operations, with any terms, the stored text keeps holding what has been put in the variables |
| EnvironmentParts.RunFromLoaded | pnacl/driver/driver_env.py:22-293 | the same from any data the environment is loaded with, templates included |
| EnvironmentParts.RunNonEmpty | pnacl/driver/driver_env.py:289-293 | no run of operations ever puts an empty term among the terms of a variable |
| EnvironmentReading.EvalPlain | pnacl/driver/driver_env.py:296-299 | text without `${` evaluates to itself |
| EvaluatorShift.ExprMoved | pnacl/driver/driver_env.py:491-502 | an expression in the rest of a text is evaluated as it is on its own, errors included |
| EvaluatorExtension.BracketSame | pnacl/driver/driver_env.py:430-487 | a bracket expression that ends inside a text is read the same in every longer text |
| EvaluatorExtension.EvalTextExtends | pnacl/driver/driver_env.py:296-299 | one expression behind another evaluates to what the first and then the second evaluate to, errors of the second included |
| EnvironmentReading.ReadJoined | pnacl/driver/driver_env.py:243-293 | whatever is appended to a text that reads well is read after it, errors included |
| EnvironmentReading.GetHeld | pnacl/driver/driver_env.py:243-293 | after any operations a variable is read as its templates, each read on its own, and its terms, one after another |
| EnvironmentReading.GetReferences | pnacl/driver/driver_env.py:248-249 | reading space-separated references gives what reading each of the variables gives, one after another |
| EnvironmentReading.GetVariable | pnacl/driver/driver_env.py:248-249 | reading a variable that holds no template gives its list of terms, whatever the other variables hold |
| EnvironmentReading.GetTemplate | pnacl/driver/driver_env.py:248-249 | reading a variable that holds a template of space-separated references, between terms, gives these terms with those of the variables referred to in the place of the template |
| EnvironmentReading.NoEmptyTermRead | pnacl/driver/driver_env.py:243-293 | after any run from any data, a variable that was set, and to no template, is read without error and has no empty term |
| EnvironmentReading.GetOneAfterSet | pnacl/driver/driver_env.py:253-285 | after one term has been set, reading it as a single term gives it back, the empty one included |
| LinkerScript.ScriptFile.ReadPastComment | pnacl/driver/ldtools.py:150-160 | the position ends just after the first terminator, or there is none |
| LinkerScript.ScriptFile.GetNextToken | pnacl/driver/ldtools.py:114-148 | the loop with its push-back reads the next token of what is left and leaves the rest |
| LinkerScript.ScriptFile.ParseLinkerScript | pnacl/driver/ldtools.py:50-111 | the result is the flags of the state in which the token by token parse ends |
| LinkerScript.TakeToken | pnacl/driver/ldtools.py:66-108 | one token's effect on flags, stack and expected token, or a parse error |
| LinkerScriptGrammar.RunScript | pnacl/driver/ldtools.py:56-108 | a script's tokens are accepted from outside any section and yield exactly its flags |
| LinkerScriptGrammar.AcceptsIff | pnacl/driver/ldtools.py:56-108 | token lists are accepted if and only if they begin the tokens of some script |
| LinkerScriptGrammar.CompleteIff | pnacl/driver/ldtools.py:56-108 | the parse ends outside every section if and only if the tokens are those of a whole script, whose flags it gives |
| LinkerScriptGrammar.StepMirrors | pnacl/driver/ldtools.py:73-108 | every token keeps the open group and as-needed flags equal to those of the stack |
| LinkerScriptGrammar.RunMirrors | pnacl/driver/ldtools.py:56-108 | the same over any run of tokens |
| LinkerScriptGrammar.ScriptFlagsNest | pnacl/driver/ldtools.py:50-111 | the flags of every script are properly nested and closed |
| LinkerScriptGrammar.FlagsNestIff | pnacl/driver/ldtools.py:62-111 | the flags of accepted tokens are nested and closed if and only if the tokens are those of whole sections, and perhaps of one more without its end that is no GROUP and has no AS_NEEDED open |
| LinkerScriptText.ParseIsRun | pnacl/driver/ldtools.py:56-60 | parsing a text is running the parser over its list of tokens, unless a comment does not close |
| LinkerScriptText.LayoutTokens | pnacl/driver/ldtools.py:117-160 | any layout with blanks and blank-separated comments has exactly the tokens laid out |
| LinkerScriptText.ParseLayout | pnacl/driver/ldtools.py:50-160 | printing any script with any such layout and parsing it gives exactly the script's flags with every section closed |
| LinkerScriptText.ParsesIff | pnacl/driver/ldtools.py:50-160 | a text is accepted if and only if its comments close and its tokens begin some script |
| LinkerScriptText.ParsedFlagsNestIff | pnacl/driver/ldtools.py:62-111 | the flags of an accepted text are nested and closed if and only if its tokens are those of whole sections, and perhaps of one more without its end that is no GROUP and has no AS_NEEDED open |
| LinkerScriptText.OpenGroupExample | pnacl/driver/ldtools.py:62-64 | a concrete text that ends inside its group and is accepted |
| LinkerScriptLaws.ExternText | pnacl/driver/ldtools.py:105-106 | any layout of `EXTERN ( words )` parses to `--undefined=` and the word for each word |
| LinkerScriptLaws.InputText | pnacl/driver/ldtools.py:107-108 | any layout of `INPUT ( words )` parses to `-l:` and the word for each word |
| LinkerScriptLaws.GroupText | pnacl/driver/ldtools.py:77-108 | any layout of `GROUP ( words )` parses to the same between `--start-group` and `--end-group` |
| LinkerScriptLaws.OutputFormatText | pnacl/driver/ldtools.py:102-104 | any layout of `OUTPUT_FORMAT ( words )` parses to no flags |
| LinkerScriptLaws.SectionWithin | pnacl/driver/ldtools.py:73-108 | libraries of an `AS_NEEDED` within any section stand between `--as-needed` and `--no-as-needed`, in their place among the section's own |
| LinkerScriptLaws.DescribedScript | pnacl/driver/ldtools.py:37-46 | the script that the parser's description shows, with any file names, gives the flags shown there |
| LinkerInputs.FindFile | pnacl/driver/ldtools.py:258-275 | the nested loops find the first acceptable file, directories before names |
| LinkerInputs.ExpandLibFlags | pnacl/driver/ldtools.py:188-196 | the list is changed in place to the one with every library argument replaced by its file, or the first missing library is fatal |
| LinkerInputs.FindFirstLinkerScriptInput | pnacl/driver/ldtools.py:164-171 | the index of the first script among the inputs that are no flags |
| LinkerInputs.RoundKeepsFlattening | pnacl/driver/ldtools.py:174-186 | a round of the worklist keeps the flattening and uses up exactly one expansion |
| LinkerInputs.ExpandLinkerScripts | pnacl/driver/ldtools.py:173-186 | where the flattening is finite the loop ends, and its result is the recursive left-to-right flattening |
| LinkerInputs.LoopEnds | pnacl/driver/ldtools.py:173-186 | the loop ends after exactly as many rounds as there are expansions, with the flattening |
| LinkerInputs.EndedFlattens | pnacl/driver/ldtools.py:173-186 | a loop that ends after some rounds has a flattening no deeper than that |
| LinkerInputs.TerminatesIff | pnacl/driver/ldtools.py:173-186 | the worklist loop ends if and only if the nesting of scripts is finite |
| LinkerInputs.RankedFlattens | pnacl/driver/ldtools.py:173-186 | if every script brings in only scripts of lower rank the nesting is finite |
| LinkerInputs.ExpandInputs | pnacl/driver/ldtools.py:277-283 | the inputs are located in place and then flattened |
| LinkerInputs.FlattenLeaves | pnacl/driver/ldtools.py:173-196 | a flattening holds no script, and no library argument that was not there before |
| LinkerInputs.ExpandedLeaves | pnacl/driver/ldtools.py:277-283 | after expanding everything no linker script is left, and under ordinary search directories no library argument |
| LinkerInputs.LibsGoneIff | pnacl/driver/ldtools.py:204-283 | no library argument is left whatever the files and inputs if and only if no search directory is empty or starts with `-l` |
| LinkerInputsLaws.LocatedEach | pnacl/driver/ldtools.py:188-196 | a list is located argument by argument, and the first that cannot be is fatal |
| LinkerInputsLaws.PlainLibrary | pnacl/driver/ldtools.py:215-275 | `-lname` becomes the first acceptable of `libname.so`, unless static, and `libname.a` in the first directory with an acceptable one; if there is none it is fatal with the argument |
| LinkerInputsLaws.SharedBeforeStatic | pnacl/driver/ldtools.py:215-275 | so in one directory the shared library goes before the static one, and an earlier directory before a later one |
| LinkerInputsLaws.ExactFile | pnacl/driver/ldtools.py:226-241 | `-l:file` searches for exactly that file |
| LinkerInputsLaws.ShimFile | pnacl/driver/ldtools.py:231-233 | `-l:libpnacl_irt_shim.a` is also satisfied by `libpnacl_irt_shim_dummy.a` |
| LinkerInputsLaws.ThreadLibrary | pnacl/driver/ldtools.py:243-256 | `-lpthread` that is found nowhere becomes what `pthread_private` is found as |
| LinkerInputsLaws.ThreadFile | pnacl/driver/ldtools.py:243-256 | `-l:pthread` falls back to the same libraries |
| LinkerInputsLaws.NoName | pnacl/driver/ldtools.py:210-212 | `-l` alone is fatal |
| LinkerInputsLaws.OtherArgument | pnacl/driver/ldtools.py:191-202 | an argument that does not start with `-l` stays |
| LinkerInputsLaws.ScriptFile | pnacl/driver/ldtools.py:24-27 | a file is taken for a script if and only if its extension is one of the six and its text parses |
| LinkerInputsLaws.FlagStays | pnacl/driver/ldtools.py:164-171 | a flag is passed over even if it looks like the name of a script |
| LinkerInputsLaws.ExpandedIsLocated | pnacl/driver/ldtools.py:277-283 | where nothing located is a script, expanding gives the located list |
| SplitLine.SplitLinkLine | pnacl/driver/pnacl-ld.py:499-534 | the recursion with its loops computes the split of the line, or the fatal error of a group without an end |
| SplitLine.FlatIsRendered | pnacl/driver/pnacl-ld.py:508-524 | every line of flat matched groups is the rendering of segments that tell the groups apart |
| SplitLine.RenderIsFlat | pnacl/driver/pnacl-ld.py:518-524 | rendered segments are lines of flat matched groups |
| SplitLine.SplitFlat | pnacl/driver/pnacl-ld.py:499-534 | the split of a flat line is the rendering of each side's segments, without empty groups |
| SplitLine.KeepMembers | pnacl/driver/pnacl-ld.py:499-534 | each side's segments hold exactly its inputs, in order, each in the group it was in |
| SplitLine.KeepDistinct | pnacl/driver/pnacl-ld.py:499-534 | each side's segments still tell the groups apart |
| SplitLine.SplitKeepsGroups | pnacl/driver/pnacl-ld.py:499-534 | for the lines themselves: every flat line is split, each side has exactly its inputs in order, in a group or not as before, and two of them share a group if and only if they did before |
| SplitLine.SplitAgain | pnacl/driver/pnacl-ld.py:499-534 | both sides are flat, and splitting either again returns it with the other side empty |
| SplitLine.FirstGoes | pnacl/driver/pnacl-ld.py:527-533 | an input in front goes in front of the native side if it is a native file and no flag, where `-l` arguments are no flags; else in front of the normal side |
| SplitLine.GroupGoes | pnacl/driver/pnacl-ld.py:508-524 | a group in front puts what each side has of it between `--start-group` and `--end-group`, or nothing if the side has nothing of it |
| SplitLine.SplitEnds | pnacl/driver/pnacl-ld.py:508-515 | no inputs split to none, and a group never closed is the fatal error |
| BotMon.Node.AddEdgeTo | tools/bot-mon.py:116-119 | the edge is in both nodes' sets and nothing else changes |
| BotMon.Node.RemoveEdgeTo | tools/bot-mon.py:121-124 | the edge is out of both nodes' sets and nothing else changes |
| BotMon.ReadNode | tools/bot-mon.py:177-196 | reading one node adds the edges to and from the nodes read before, or finds a second provider |
| BotMon.AllRead | tools/bot-mon.py:175-196 | once all nodes are read the edges are exactly those from providers to requirers |
| BotMon.Graph.CreateGraphEdges | tools/bot-mon.py:175-196 | whatever the order of nodes, it succeeds if and only if no tag is provided twice, and then the edges are exactly those wanted |
| BotMon.LeftoverCyclic | tools/bot-mon.py:217-224 | nodes left over when the ready list is empty contain a cycle |
| BotMon.CompleteOrder | tools/bot-mon.py:217-225 | a complete order is topological and there is no cycle |
| BotMon.Kahn | tools/bot-mon.py:214-225 | an order is returned if and only if there are nodes and no cycle; it has every node once, sources before targets |
| BotMon.Graph.ExecutionOrder | tools/bot-mon.py:198-225 | the fatal message if and only if a tag is provided twice; an order if and only if besides there are nodes and no cycle; it is a duplicate-free permutation with providers first, and every stage has its tags provided by earlier ones if and only if some node provides each required tag |
| BotMon.ProvidedIff | tools/bot-mon.py:60-66 | in a topological order every stage has each of its required tags provided by an earlier stage if and only if some node provides every required tag |
| BotMon.UnprovidedExample | tools/bot-mon.py:175-225 | a single stage that requires a tag nobody provides is ordered |
| Digraph.StuckIsCyclic | tools/bot-mon.py:214-224 | a non-empty set of nodes that all have predecessors in it contains a cycle |
| Digraph.OrderedIsAcyclic | tools/bot-mon.py:198-225 | a graph with a topological order has no cycle |
| BuildOrdering.Builder.Add | toolchain_build/toolchain_main.py:264-275 | adds the target after all it depends on, keeping the order buildable; an error names a reachable unknown package or a chain that runs into itself |
| BuildOrdering.BuildOrder | toolchain_build/toolchain_main.py:252-279 | an order is returned if and only if everything reachable is known and on no cycle; it holds exactly the dependency closure, once each, dependencies first |
| BuildOrdering.HasAllNeeded | toolchain_build/toolchain_main.py:264-279 | a buildable order with the targets holds everything they need |
| BuildOrdering.OrderedHasNoCycle | toolchain_build/toolchain_main.py:264-279 | a buildable order with the targets excludes cycles among what they need |
| BuildOrdering.ChainShowsCycle | toolchain_build/toolchain_main.py:269-271 | a chain from a target that runs into itself is a cycle among what is needed |
| FileTrees.SameAt | pynacl/hashing_tools.py:38-74 | what lies at a path is unchanged by changes nowhere near the path |
| FileTrees.PlacedThere | pynacl/directory_storage.py:92-104 | a replaced path holds exactly the new tree and nothing else has changed |
| FileTrees.CanMakeIff | pynacl/file_tools.py:97-113 | a directory can be made if and only if nothing on its path is a file |
| OnceCache.ObjectKeysDiffer | toolchain_build/once.py:79-88 | keys of outputs determine package and hash |
| OnceCache.SignatureKeysDiffer | toolchain_build/once.py:90-99 | keys of computations determine the signature |
| OnceCache.KindsOfKeysDiffer | toolchain_build/once.py:79-99 | no output shares its key with a computation |
| OnceCache.ObjectKeepsSound | toolchain_build/once.py:147-158 | storing an output under its own hash keeps the store sound |
| OnceCache.SignatureKeepsSound | toolchain_build/once.py:167-169 | naming a stored output as a computation's result keeps the store sound |
| OnceCache.HistoryIsSound | toolchain_build/once.py:136-257 | a store is sound after any history from empty, and never loses a key or a publication |
| OnceCache.HitIsBacked | toolchain_build/once.py:186-195 | in a sound store a stored signature names a hash some earlier run of it published, whose output is stored and unpacks to that hash |
| OnceCache.PublishedStaysBacked | toolchain_build/once.py:136-196 | once a signature has been published, at every later moment looking it up finds a stored output with the hash it names |
| OnceCache.EffectsConfined | toolchain_build/once.py:249-254 | commands that keep to some places keep to them in sequence, even if one fails |
| OnceCache.EffectsInTurn | toolchain_build/once.py:249-254 | the first command runs on the files as they are and the rest on what it made, unless it failed |
| OnceCache.SignatureSigns | toolchain_build/once.py:307-320 | a signature is that of a material with the package, the machine's summary, every command's text in turn, and per input name the remembered hash or `item:` and the hash of what lies there |
| OnceCache.SameSignatureIff | toolchain_build/once.py:307-320 | where materials are told apart, two signatures are equal if and only if packages, texts command by command, input names and the hash used for each name are |
| OnceCache.Once.GetDirectory | pynacl/directory_storage.py:79-111 | the destination holds the unpacked archive, or an empty directory if there is none |
| OnceCache.Once.WriteOutputFromHash | toolchain_build/once.py:101-120 | success only if the output now has the wanted hash; succeeds on a steady store if the output is stored and honest |
| OnceCache.Once.ReadMemoizedResultFromCache | toolchain_build/once.py:175-196 | a hit leaves the stored output whose hash the signature names; on a steady store every backed signature is a hit |
| OnceCache.Once.StoreOutput | toolchain_build/once.py:147-166 | the output is stored, or was and is taken in its place, with the same hash; the store stays sound |
| OnceCache.Once.WriteResultToCache | toolchain_build/once.py:136-173 | the output's hash is kept, and the store ends with object and signature, or stops short at a failing write and is sound all the same |
| OnceCache.Once.Invoke | toolchain_build/once.py:249-254 | the loop runs the commands up to the first that fails |
| OnceCache.Once.BuildSignature | toolchain_build/once.py:307-320 | the signature of the package, the commands' texts and the inputs' hashes as remembered or computed, in any order of inputs, and what is remembered afterwards |
| OnceCache.Once.Run | toolchain_build/once.py:206-257 | a sound store stays sound and only develops by publishing; the signature is made of package, command texts and input hashes; on a steady store the commands are skipped if and only if memoizing finds the signature, and otherwise run from the prepared directories and their output is published; afterwards `computed/SIGNATURE.txt` holds the output's hash and `object/PACKAGE_HASH.tgz` is stored |
| PackageBuilds.OutputsApart | toolchain_build/toolchain_main.py:153-163 | building one package leaves every other package's output alone |
| PackageBuilds.SettledStays | toolchain_build/toolchain_main.py:196-221 | a path outside all outputs, or the output of a built package, keeps its hash while another package is built |
| PackageBuilds.CacheUsable | toolchain_build/once.py:312-319 | while remembered hashes are current, the cached signature uses the hashes of the files as they are, and what it remembers is current |
| PackageBuilds.InputsSettled | toolchain_build/toolchain_main.py:200-216 | a package's inputs do not change any more once its dependencies are built |
| PackageBuilds.SignatureStays | toolchain_build/toolchain_main.py:281-284 | a signature that is right stays right while later packages are built |
| PackageBuilds.InputsWrittenOut | toolchain_build/toolchain_main.py:200-216 | a package's inputs are those it lists or its directory of sources, and for each dependency that dependency's install directory with its subdirectory |
| PackageBuilds.UncachedSigns | toolchain_build/toolchain_main.py:200-250 | the signature that hashing everything anew gives is made of the package, its commands' texts and the hash of what lies at each of its inputs |
| PackageBuilds.EarlierMeans | toolchain_build/once.py:186-195 | an output reused was published by an earlier run with the same package, the same texts command by command and the same hash for every input |
| PackageBuilds.WithoutSkippedInOrder | toolchain_build/toolchain_main.py:231-236 | the commands that an incremental build keeps stay in their order |
| PackageBuilds.PackageBuilder.Prepare | toolchain_build/toolchain_main.py:199-232 | an empty output directory and a working directory are there and nothing else has changed; the commands that an incremental build skips are gone only if the working directory held something |
| PackageBuilds.PackageBuilder.BuildPackage | toolchain_build/toolchain_main.py:165-250 | remembered hashes stay current, only the package's own places change, the signature used is the one hashing everything anew would give and is made of what the files hold, and the output is the stored one or what the commands made, written to the store |
| PackageBuilds.WrittenIsKept | toolchain_build/once.py:136-170 | with exact archives, a result written to a steady store is on disk as the store has it |
| PackageBuilds.KeptStays | toolchain_build/once.py:136-170 | an output that is as the store has it stays so while another package is built under another signature |
| PackageBuilds.AllKeptStays | toolchain_build/toolchain_main.py:281-284 | putting back the output a package had changes no signature and no output |
| PackageBuilds.KeptSignature | toolchain_build/once.py:186-195 | where all outputs are as the store has them, a package built from scratch comes to a signature that is stored |
| PackageBuilds.PackageBuilder.BuildNext | toolchain_build/toolchain_main.py:281-284 | one more package keeps all earlier signatures right and outputs stored, and is reused where all outputs are as the store has them |
| PackageBuilds.PackageBuilder.BuildAll | toolchain_build/toolchain_main.py:281-284 | in a buildable order every signature used, and every hash remembered, is the one the final files give without any cache, and is made of package, command texts and the hash of every input; an output is reused only if an earlier run of the package with all of these the same published it; a complete build from scratch leaves every output as the store has it, and the next build from scratch reuses every one and changes nothing in the store |
| HillClimbing.DecimalDiffers | pnacl/driver/pnacl-compress.py:98 | different attempt numbers are written differently |
| HillClimbing.NamesDiffer | pnacl/driver/pnacl-compress.py:98 | intermediate files have names different from each other and from the input |
| HillClimbing.ClimbOn | pnacl/driver/pnacl-compress.py:107-122 | one more attempt keeps track of the first smallest result, short of the allowed number of failures |
| HillClimbing.FilesAfterAttempt | pnacl/driver/pnacl-compress.py:98-112 | after each attempt just the best and the last result are there besides the original files |
| HillClimbing.TryOnce | pnacl/driver/pnacl-compress.py:98-120 | one attempt keeps what the loop's variables stand for |
| HillClimbing.Install | pnacl/driver/pnacl-compress.py:132-143 | the best result is in the output, no intermediate file is left and nothing else has changed |
| HillClimbing.Compress | pnacl/driver/pnacl-compress.py:43-143 | the output is the first smallest of the results of the attempts, which are as many as allowed or as needed to fail RETRIES times in a row; no other file changes; the error cases |
| HillClimbing.StopIsUnique | pnacl/driver/pnacl-compress.py:96-122 | the number of attempts is determined by input and options |
| HillClimbing.MoreAttemptsHelp | pnacl/driver/pnacl-compress.py:46-59 | more attempts never give a larger result, and no result is larger than the input |
| HillClimbing.PatienceMeansMore | pnacl/driver/pnacl-compress.py:63-80 | larger limits never lead to fewer attempts |
| TempNaming.PathSplit | pnacl/driver/driver_tools.py:444-453 | the loop gives the components of the path, outermost first |
| TempNaming.ComponentsOfAbsolute | pnacl/driver/driver_tools.py:444-453 | splitting the absolute path made of some components gives the components back |
| TempNaming.TempNameGen.EnterInputs | pnacl/driver/driver_tools.py:469-475 | every input that is no option starts with its base name |
| TempNaming.TempNameGen.FindConflicts | pnacl/driver/driver_tools.py:481-490 | whatever the order of entries, exactly the files that share a name with another are found |
| TempNaming.TempNameGen.LengthenNames | pnacl/driver/driver_tools.py:495-500 | fails if and only if a name cannot be lengthened; otherwise exactly the given files use one component more |
| TempNaming.SlackFalls | pnacl/driver/driver_tools.py:480-500 | the unused components shrink with every round, so the loop ends |
| TempNaming.TempNameGen.ResolveConflicts | pnacl/driver/driver_tools.py:469-500 | the loop computes the repeated lengthening of all names in conflict, whatever the order of entries |
| TempNaming.ResolvedNames | pnacl/driver/driver_tools.py:480-500 | when the loop ends without failure no two names are the same, and names have only been lengthened |
| TempNaming.TempNamesDiffer | pnacl/driver/driver_tools.py:502-523 | different inputs then have different temporary names of every type |
| TempNaming.EntangledFails | pnacl/driver/driver_tools.py:495-500 | the loop fails if one input's path is the end of another's |
| TempNaming.ResolvesIff | pnacl/driver/driver_tools.py:469-500 | for inputs of whose paths no two different ends are joined to the same name, it succeeds if and only if no path is the end of another |
| TempNaming.PlainResolvesIff | pnacl/driver/driver_tools.py:469-500 | for paths without underscores it succeeds if and only if no path is the end of another |
| TempNaming.UnderscoreExample | pnacl/driver/driver_tools.py:469-500 | three inputs, `/a/b`, `/c/b` and `/a_b`, of which none is the end of another, and which fail because of an underscore |
| TempNamingLaws.NamesAreLeast | pnacl/driver/driver_tools.py:455-500 | every input's name takes the least number of path components, at least one, that no other input's path ends in |
| TempNamingLaws.BaseNameAlone | pnacl/driver/driver_tools.py:455-523 | an input whose last component no other input has is named `BASE/OUTPUT---COMPONENT---.TYPE` |
| TempNamingLaws.NameOfMore | pnacl/driver/driver_tools.py:477-478 | one component more stands before the others with an underscore between |
| TempNamingLaws.NamesUnderBase | pnacl/driver/driver_tools.py:512-523 | a name under the base gets a dot and the type; it differs from its input, per type and per input |
| TempNamingLaws.NameOfName | pnacl/driver/driver_tools.py:512-523 | the temporary name of a temporary name has just one more extension |
| TempNamingLaws.OutputsDiffer | pnacl/driver/driver_tools.py:507-523 | no input's temporary name is that of the output of the same type, `BASE/OUTPUT---linked.TYPE` |
| DirTreeMerging.FileSystem.Rename | pynacl/file_tools.py:180-199 | the tree has moved and nothing else; fails where the new name would not be in a directory |
| DirTreeMerging.FileSystem.RemoveDirectory | pynacl/file_tools.py:202 | fails if and only if the directory is not empty |
| DirTreeMerging.FileSystem.MakeDirectoryIfAbsent | pynacl/file_tools.py:97-113 | the missing directories are made; fails if and only if a file is on the way |
| DirTreeMerging.MergeItem | pynacl/file_tools.py:184-199 | one item is merged if and only if nothing in both places differs in kind |
| DirTreeMerging.OneMoreMerged | pynacl/file_tools.py:183-199 | after each item the files are the overlay for the items done so far |
| DirTreeMerging.AllDone | pynacl/file_tools.py:201-202 | after all items the source is empty, and removing it completes the overlay |
| DirTreeMerging.MergeItems | pynacl/file_tools.py:183-199 | in any order of items, all are merged if and only if nothing in both trees differs in kind |
| DirTreeMerging.MoveAndMergeDirTree | pynacl/file_tools.py:163-202 | succeeds exactly under CanMerge and then leaves exactly the overlay; after a failure everything is in place or has been moved to its place |
| DirTreeMerging.SucceedsIff | pynacl/file_tools.py:181-202 | onto something that exists it succeeds if and only if no common path differs in kind, or an empty directory meets a file |
| DirTreeMerging.EmptyOntoFile | pynacl/file_tools.py:183-202 | a concrete mismatch that succeeds |
| DirTreeMerging.NothingLost | pynacl/file_tools.py:163-202 | however it ends, every source file is still there or at its place in the destination, what only the destination had is kept, and everything outside both is as it was |
| SelfRelocation.FindDtEntry | pnacl/support/relocate.c:23-32 | the value of the first entry with the tag before the null tag, or none |
| SelfRelocation.Entry | pnacl/support/relocate.c:23-32 | there is a value if and only if some entry has the tag, and it is the first such entry's |
| SelfRelocation.TrapsIff | pnacl/support/relocate.c:57-69 | it traps if and only if some entry is of another type |
| SelfRelocation.ApplyTable | pnacl/support/relocate.c:51-70 | walking the table in the memory it changes applies the entries the table held at the start |
| SelfRelocation.ApplyRelocations | pnacl/support/relocate.c:43-71 | there is nothing to do, and nothing changes, if and only if tag 17 or 18 is missing; otherwise memory is the result of applying the table's entries up to the first of another type: in numbers, where what they name is in memory and does not wrap, the 8-byte entries at the image's start plus the value of tag 17, as many as the value of tag 18 takes, make the number at the image's start plus their first number grow by that start, and all other bytes stay |
| SelfRelocation.WordAfter | pnacl/support/relocate.c:54-66 | each word grows by the base once per entry naming it, modulo 2^32 |
| SelfRelocation.ByteStays | pnacl/support/relocate.c:54-66 | a byte in no word that an entry names stays as it is |
| SelfRelocation.OrderDoesNotMatter | pnacl/support/relocate.c:54-70 | with disjoint words, any order of the entries gives the same memory |
| SelfRelocation.EndsAtZero | pnacl/support/relocate.c:23-32 | the dynamic section ends at the first of its eight-byte entries whose first number is 0 |
| SelfRelocation.CountNaming | pnacl/support/relocate.c:54-66 | entries name the word at the image's start plus their first number |
| SelfRelocation.TableGrows | pnacl/support/relocate.c:54-66 | the number at each word named grows by the image's start times the number of entries naming it, modulo 2^32, and every byte in no such word stays |
| SelfRelocation.TableGrowsUpTo | pnacl/support/relocate.c:57-69 | the same up to the first entry whose second number has another low byte, at which the program stops |

The relocation type, 8 or 23 on ARM, is R_386_RELATIVE, whose calculation is B + A in chapter 4, section "Relocation",
of the System V ABI i386 supplement, or its ARM counterpart; DT_REL and DT_RELSZ are as in chapter 5, section "Dynamic
Section", of the System V gABI (values in `src/include/elf_constants.h:132-142`, entry layouts in
`src/include/elf32.h:87-100`).

## Left out

- Evaluator.Eval: bounds the nesting of evaluations; DepthMonotone and TerminationIffRanked say that nothing is lost by it. Python's own recursion limit is not modelled.
- EvaluatorRoundTrip.EvalTextPrint: literals hold no `${` and none of the enclosing terminators, and names hold no operator characters; the text would not read as that expression. Where percent parts hold question marks or closing delimiters that the look-ahead meets first, VariableWorksIff and TernarySeenIff say what happens instead.
- EvaluatorLaws.ChosenByFlag: names, literals and arms are plain text, as in the laws beside it; everything else that can be written is covered by EvalTextPrint, through its meaning.
- EvaluatorDepth.TerminationIffRanked: registered functions are functions of their arguments. Real ones such as FindBasePNaCl and FindBaseHost (`pnacl/driver/driver_tools.py:214-236`) also read the environment themselves, and the evaluations they start are not counted.
- EnvironmentReading.GetHeld: where an earlier part of a variable is not read without error, what the whole text gives is not stated; an open bracket or quote in it would take in what follows.
- EnvironmentReading.GetOneAfterSet: the term holds no `${`, because `$` is not escaped and stored text is evaluated when read.
- LinkerInputs.ExpandLinkerScripts: asks for a finite nesting of scripts, without which the loop does not end (TerminatesIff). The disk does not change meanwhile, and existence means being a regular file.
- LinkerScriptText.ParseLayout: comments stand between blanks; one glued to a word or to a slash is only covered by ParsesIff, through its tokens.
- SplitLine.SplitAgain: nested groups and a stray end marker are only covered by SplitLinkLine itself.
- OnceCache.SameSignatureIff: asks that different materials have different signatures; a collision of digests, or of the byte streams that are hashed, would be a hit of another computation.
- OnceCache.PublishedStaysBacked: asks that no other package has published under the signature, which is what the digest is for; collisions of digests are not modelled. The signature is a function of package, summary, command texts and input hashes, without the byte stream that is hashed.
- OnceCache.Once.Run: the second pass that writes a readable signature, printing of addresses and the substitution of paths into commands are not modelled; a command is a function from files and signature to files. The temporary directory for a stored copy is outside the modelled disk.
- PackageBuilds.PackageBuilder.BuildAll: only packages that are built, not those checked out, whose own checkout is an input that their commands change; package names are single path components, and copying to an install directory is left out. Explicit inputs lie outside all outputs. That a later build can be blocked by a file where a directory is wanted is not excluded.
- HillClimbing.Compress: names of intermediate files are free and differ from the output; the compressor always succeeds and depends on content alone.
- TempNaming.ResolvesIff: where different ends of two paths are joined to the same name only one direction holds in general (EntangledFails, UnderscoreExample). Inputs are given as the absolute paths that `abspath` returns, names are compared without the working directory that `abspath` puts in front of them, and the random base directory is a parameter.
- TempNamingLaws.NamesAreLeast: also only where no two different ends of two paths are joined to the same name; with underscores a name may be lengthened because of another's different components.
- TempNaming.TempNamesDiffer: neither input is under the base; NamesUnderBase is about those that are.
- DirTreeMerging.MoveAndMergeDirTree: neither directory lies in the other; permissions, symbolic links and renaming across devices are not modelled.
- SelfRelocation.ApplyRelocations: the table and the words it names lie in memory, and no such word overlaps the table; elsewhere the behaviour of the C code is undefined.
- SelfRelocation.TableGrows: a word that an entry names only in part is not stated in plain numbers; applying the entries one after another, as ApplyRelocations does, covers it.
- BotMon.Graph.ExecutionOrder: what processors do when run, and the data they exchange.
- `setmany`, `setbool`, `getbool` and `reset` of the environment, which add no reading or writing of their own.
- Archive and file-type sniffing, stable hashing and archiving: parameters, with the assumptions named above.
- Command-line parsing, recipes, subprocesses, storage over the network, logging and output of package descriptions.
