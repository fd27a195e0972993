# makedepend, the WIN32 condition variable and imake's text filters

This project models three parts of the X Window System sources and proves what they promise.

**makedepend** reads C source for the dependencies between files. `LineSpec`, `LineResults` and `LineReader`
model how `getline` turns a buffer into lines; `Directives`, `DirectiveText`, `Nesting`, `NestingCheck`, `Selection` and
`Scanner` the two scanners `find_includes` and `gobble` and the files they read; `IfParser`, `IfGrammar`, `IfSoundness`,
`IfCompleteness`, `IfTheorems`, `IfAssociation`, `IfLaws` and `IfErrors` the parser of `#if` expressions; `AliasChain` and
`Cppsetup` macro values; `ConditionLaws` and `Guards` what conditions and conditionals mean, as laws of their texts and lines.
`LineLaws` has such laws of comments and spliced lines.
`SymbolTable`, `LookupSpec`, `Visibility` and `IncludeGraph` model the sorted symbol tables and their lookup through the
cyclic graph of includes, `Hiding`, `Settling`, `Misses`, `Lasting` and `Trails` what the merges of that lookup hide, `Answers`
and `Flips` which of several definitions counts and when a merge changes that, `Including` and `Defining` new edges and
definitions, `Runs` and `HeapRuns` every sequence of all these, on values and on objects. `OneTable` is a preprocessor with one
table of definitions and `TablesAsOne` when the real tables act as it; `GraphOps`, `NestedOps`, `NestedRuns` and `Preprocessor`
put scanners, parser and tables together, for headers nested in any way, and `FlatGraph`, `FlatOps`, `FlatRuns`, `Supply`,
`FlatCalm` and `SmallProgram` for headers that include nothing; `Redefined` shows where that goes wrong. `Printing` is the
output; `DotDot`, `PathText` and `Paths` the path normaliser. **Xthreads.h** builds a condition variable from semaphores (`CondVar`, `CondVarProofs`, `CondVarProgress`).
**imake** hides make comments from cpp and cleans up after it (`ImakeText`, `ImakeLaws`, `ImakeProofs`, `ImakeScan`).
`CStrings`, `CText` and `CNumbers` hold what C's characters, strings, `strtol` and `long` contribute, and `Sequences` what is
true of any sequence.

Code that changes things step by step is modelled by classes and methods over arrays, each proved equal to a
function on values; the theorems are about those functions. Recursive code and grammars are functions and
datatypes. The condition variable is a state machine with one step for each critical-section, semaphore and
memory operation, interleaved freely among any number of threads.

Where the code does not do what it says, the model follows the code:

- `ifparser.c:55` promises C's order of precedence, but operators of one level associate to the right:
  `IfAssociation.AgreeIffChains` says for which pairs of operators that can matter, `IfAssociation.ParsesLikeC` that
  without such a pair it does not, and `IfTheorems.MinusAssociatesRight` what becomes of `x-y-z`.
- `fdefined` marks a finished child as merged even when the search below it stopped early, which can hide names
  (`Misses.HitCanHide`).  Visibility is therefore stated over edges not yet merged; `Hiding.MergeHidesIff` says exactly
  which merges hide names, `Trails.LookHidesIff` exactly which lookups, and `Misses.MissKeepsVisible` and
  `Settling.ClosedSettles` after what no lookup does.
- A merge puts the header's definition in the place of the includer's, so that looking up one name can give another a
  different value and turn a condition over (`Redefined.LookupFlips`). `Answers.MergeChangesIff` and `Flips.LookChangesIff` say
  exactly when; `Preprocessor.NestedProgram` shows that the tables act as one as long as lookups hide nothing and no macro is
  defined again otherwise than it is, which section 6.10.3 of ISO/IEC 9899:1999 demands anyway. Where headers include nothing
  the second condition is enough (`Preprocessor.FlatProgram`).
- `getline` advances twice over a line of just `#` and blanks and so loses the next character
  (`LineResults.BareLineHidesTheNext`; `LineResults.ReturnsAllHashLines` says exactly when all lines come out, and
  `LineResults.CountsRightIff` exactly when the line counter is right).
- `remove_dotdot` makes `/` of an absolute path that cancels entirely, and a path that ends in a slash is one
  that its own slicing loop would overrun (`PathText.EndsWell`, `Paths.OverrunsIff`).
- In skipped text every `#elif` condition is evaluated, except the first one after a group that was taken.
- A stray `#else`, `#elif` or `#endif` outside any conditional is handed to `define`; the theorems about meaning
  are for well-nested input, those about termination and about reading files once for all input.
- Macro aliases that form a cycle make the lookup of a value run for ever (`AliasChain.EndsIffAcyclic`).
- A make comment that holds an unprotected `@@`, or XCOMM as a word of its own, does not come back from imake's filters as it
  was (`ImakeProofs.ComesBackIff`).

## Model

| member | source | states |
|---|---|---|
| CStrings.LessAtDifference | xc-old/config/makedepend/parse.c:333-351 | Two strings that agree up to a place where they differ are ordered by the characters there, which is what the inlined comparison relies on |
| CStrings.InlineCompare | xc-old/config/makedepend/parse.c:333-351 | The inlined comparison tells equality, less and greater as strcmp orders 7-bit names |
| SymbolTable.LookupAt | xc-old/config/makedepend/parse.c:408-446 | In a sorted table every entry is the one found under its own name |
| SymbolTable.SortedUnique | xc-old/config/makedepend/parse.c:327-384 | A sorted table is determined by what a linear scan finds in it for every name |
| SymbolTable.MergeMeaning | xc-old/config/makedepend/parse.c:448-504 | A merge is strictly sorted and means the first table overridden by the second |
| SymbolTable.MergeLength | xc-old/config/makedepend/parse.c:448-504 | A merge has no more entries than both tables together, so that the array allocated for it is big enough |
| SymbolTable.LookupInsert | xc-old/config/makedepend/parse.c:362-384 | Putting a cell where its name belongs is a map update |
| SymbolTable.SortedRemove | xc-old/config/makedepend/parse.c:515-517 | Taking out an entry leaves the table sorted |
| SymbolTable.Inclist.Slookup | xc-old/config/makedepend/parse.c:408-446 | Binary search finds a slot with the name exactly when some entry has it |
| SymbolTable.Inclist.FindPlace | xc-old/config/makedepend/parse.c:327-360 | The search bookkeeping yields the slot of the name or the one place where it belongs |
| SymbolTable.Inclist.Reserve | xc-old/config/makedepend/parse.c:312-326 | There is room for one more entry, in the old array or in a bigger copy of it with the same cells |
| SymbolTable.Inclist.InsertAt | xc-old/config/makedepend/parse.c:362-384 | The new cell stands at its place and all others keep their order; the table stays sorted |
| SymbolTable.Inclist.Define2 | xc-old/config/makedepend/parse.c:303-385 | Afterwards the name has the value, every other name means what it meant, an old cell is reused so that tables sharing it see the new value, and the table stays sorted with room for it |
| SymbolTable.Inclist.Merge2Defines | xc-old/config/makedepend/parse.c:448-504 | The file gets a new array with the merge of both tables, the included file keeps its own, and both stay sorted |
| SymbolTable.Inclist.RemoveAt | xc-old/config/makedepend/parse.c:515-517 | Exactly the entry in the slot goes |
| SymbolTable.MergeInto | xc-old/config/makedepend/parse.c:471-492 | The three merge loops fill the new array with exactly the merge of the two tables |
| LookupSpec.MissExplores | xc-old/config/makedepend/parse.c:235-268 | After a miss everything reachable over edges open at entry was searched, down to the files on the search path, and none of it holds the symbol |
| LookupSpec.MissMeansUnreachable | xc-old/config/makedepend/parse.c:235-286 | A miss means that no file reachable over edges not yet merged holds the symbol |
| LookupSpec.HitReaches | xc-old/config/makedepend/parse.c:235-268 | A hit is in a file off the search path that held the symbol at entry, at the end of a path of edges open at entry, and whose table the search left alone |
| Visibility.IsDefinedIffVisible | xc-old/config/makedepend/parse.c:235-286 | isdefined finds a symbol if and only if the command-line file, or a file reachable over edges unmerged at entry, holds it, whatever is merged on the way |
| Visibility.PathUntouched | xc-old/config/makedepend/parse.c:241-265 | The tables and merge marks of files on the search path do not change while their children are searched |
| Visibility.LookupAddsNothing | xc-old/config/makedepend/parse.c:235-268 | No lookup makes any name visible from any file that was not visible before |
| Visibility.LookupKeeps | xc-old/config/makedepend/parse.c:253-260 | A merge mark is only set on a FINISHED child all of whose names the file then has |
| Hiding.ClosedFileSeesItself | xc-old/config/makedepend/parse.c:248-268 | A file whose edges are all merged sees exactly the command line and its own table |
| Hiding.MergeHidesIff | xc-old/config/makedepend/parse.c:253-260 | Merging a FINISHED child leaves what the file sees alone if and only if every name that the child sees is in its own table, or seen from the file without that edge |
| Hiding.HitInChildHidesIff | xc-old/config/makedepend/parse.c:248-260 | The same for the lookup whose hit is in the first child still open, which merges it and stops |
| Hiding.HitBelowHidesIff | xc-old/config/makedepend/parse.c:248-260 | Wherever the hit is below the first child still open: names stay seen if and only if the search below the child leaves them seen and the child then shows only what its own table holds or the file sees without it |
| Settling.MergeKeeps | xc-old/config/makedepend/parse.c:253-260 | Where what each FINISHED file behind an open edge shows is in its own table or carried without FINISHED files, a merge anywhere hides nothing from the root |
| Settling.MergeSettles | xc-old/config/makedepend/parse.c:253-260 | A merge leaves such a state such a state |
| Settling.SettledLookup | xc-old/config/makedepend/parse.c:235-268 | In such a state any lookup from any file leaves the names visible from the root and the condition as they are |
| Settling.ClosedSettles | xc-old/config/makedepend/parse.c:248-268 | When every FINISHED file has all its edges merged the state is such a state |
| Misses.MissGathers | xc-old/config/makedepend/parse.c:248-268 | After a miss each name of a file searched has come up to the file where the search began, or is in a searched file that is not FINISHED |
| Misses.MissKeepsVisible | xc-old/config/makedepend/parse.c:235-286 | Looking up an invisible name, while all that is reachable and not FINISHED is still being read, leaves exactly the same names visible, and nothing that is looked up afterwards hides any |
| Misses.SettledKeepsVisible | xc-old/config/makedepend/parse.c:270-286 | In a settled state isdefined hides nothing from the root, whether it finds its name or not |
| Trails.MarksAre | xc-old/config/makedepend/parse.c:248-268 | The edges that any search marks, found or not, are exactly those to FINISHED files that a search which changes nothing goes over |
| Trails.PassedGathers | xc-old/config/makedepend/parse.c:248-268 | A name that a file passed by any search holds comes up to the file where the search began, or stays in a passed file that is not FINISHED |
| Trails.LookSees | xc-old/config/makedepend/parse.c:235-286 | Told from the state before any lookup, while all that is open is being read: the names seen from the command-line file afterwards are those of the command line, of the files passed, and of the files it comes to without the edges gone over |
| Trails.LookHidesIff | xc-old/config/makedepend/parse.c:235-286 | So any lookup, a hit anywhere or a miss, hides nothing if and only if all names seen before are among these |
| Misses.HitCanHide | xc-old/config/makedepend/parse.c:253-260 | A concrete graph, with the headers FINISHED and the command line and the file itself not, on which a hit makes another name invisible: a child whose search stopped early is merged nevertheless |
| Lasting.LookLasts | xc-old/config/makedepend/parse.c:270-286 | A settled state stays settled under any lookup |
| Lasting.DefineLasts | xc-old/config/makedepend/parse.c:303-385 | Also under a definition on the command line, in a file that is being read, or in one out of reach |
| Lasting.UndefineLasts | xc-old/config/makedepend/parse.c:506-519 | Also under any #undef from the command-line file |
| Lasting.IncludeLasts | xc-old/config/makedepend/include.c:179-228 | Also when a file being read includes a header that is about to be read |
| Lasting.FinishLasts | xc-old/config/makedepend/parse.c:645 | A file whose edges are all merged can end in a settled state when no other FINISHED file is left to merge, as after any lookup in vain |
| Misses.MissDrainsAll | xc-old/config/makedepend/parse.c:248-268 | After a lookup in vain no open edge that its file can come to leads to a FINISHED file |
| Answers.OwnerIsFirst | xc-old/config/makedepend/parse.c:235-268 | On any graph the search finds the holder that a search which merges nothing would find first |
| Answers.AnswersFirst | xc-old/config/makedepend/parse.c:270-286 | isdefined answers with the entry of the command line, or else with that of the first holder |
| Answers.MergeChangesIff | xc-old/config/makedepend/parse.c:448-504 | A merge into a file that holds a name changes the answer for it if and only if the child holds it in another cell, unless the command line has it |
| Flips.CellAfter | xc-old/config/makedepend/parse.c:235-286 | While headers include nothing: after any lookup the answer for a name is the entry of the last FINISHED header holding it that the lookup passed, or what it was |
| Flips.LookChangesIff | xc-old/config/makedepend/parse.c:235-286 | So a lookup of one name changes the answer for another if and only if that last header has another cell than the one that counted |
| Flips.MissChangesIff | xc-old/config/makedepend/parse.c:235-286 | For a lookup in vain: if and only if the last FINISHED header still to be merged that holds the name has another cell than its first holder |
| Redefined.LookupFlips | xc-old/config/makedepend/parse.c:482-486 | A file defines X as 1 and includes a header that defines it as 0: "#if X" holds, and no longer holds once some other name, defined nowhere, has been looked up |
| Visibility.UndefineProgress | xc-old/config/makedepend/parse.c:506-519 | Each round of undefine merges an edge, or merges none and leaves one table fewer with the symbol |
| Visibility.UndefineHides | xc-old/config/makedepend/parse.c:506-519 | After undefine the symbol is not visible from the file |
| Visibility.UndefineKeepsOthers | xc-old/config/makedepend/parse.c:506-519 | undefine takes no entry for another name out of any table |
| Visibility.UndefineAddsNothing | xc-old/config/makedepend/parse.c:506-519 | undefine makes no name visible anywhere |
| Defining.DefineShows | xc-old/config/makedepend/parse.c:303-385 | A definition makes exactly its name visible, from exactly the files that reach the defining file over edges not yet merged, or from all when it is the command line |
| Defining.Define | xc-old/config/makedepend/parse.c:303-385 | On the objects: afterwards they hold the tables with that one definition, all other files keep theirs although cells are shared, no two files share an array, and no other cell gets another value |
| Runs.HiddenStaysHidden | xc-old/config/makedepend/parse.c:235-519 | Through every sequence of lookups, definitions, undefines, new includes and finished files, a symbol that a file does not see stays unfound from it until an operation defines it or adds an edge to a file that sees it |
| Runs.FinishShowsNothing | xc-old/config/makedepend/parse.c:645 | Marking a file FINISHED changes nothing about what is visible |
| HeapRuns.DoCall | xc-old/config/makedepend/parse.c:235-519 | Each call of isdefined, undefine, define, included_by or the end of a file leaves the objects holding what the operation on values gives: all tables sorted with room, no array shared, every cell with its value |
| HeapRuns.DoCalls | xc-old/config/makedepend/parse.c:235-519 | So does every sequence of such calls, with the run on values made of exactly those operations |
| Including.IncludeShows | xc-old/config/makedepend/include.c:179-228 | A new include edge shows, from every file that reaches the including file, exactly what the included file sees, and hides nothing |
| Including.IncludedBy | xc-old/config/makedepend/include.c:179-228 | The file is appended to the list, with an open edge, exactly when it is not there yet |
| IncludeGraph.FDefined | xc-old/config/makedepend/parse.c:235-268 | On the objects: the result and all tables and marks are what the functions on values say, DEFCHECKED marks are restored, and a returned slot lies in the array that its file has now, in use, under the requested name |
| IncludeGraph.SearchChildren | xc-old/config/makedepend/parse.c:248-266 | The loop over the included files does the same from any search path |
| IncludeGraph.MergeBehind | xc-old/config/makedepend/parse.c:253-260 | A merge while the search unwinds replaces the array of a file on the path, and the slot found stays valid because it lies in another file |
| IncludeGraph.ChildLookup | xc-old/config/makedepend/parse.c:248-260 | A hit below a child is in a file that is not on the search path; after a miss the path is still free of the symbol |
| IncludeGraph.IsDefined | xc-old/config/makedepend/parse.c:270-286 | A slot is returned exactly when the symbol is visible, and it is live |
| IncludeGraph.RemoveFrom | xc-old/config/makedepend/parse.c:515-517 | Removing through the returned slot takes out the entry for the symbol and nothing else |
| IncludeGraph.UndefineRound | xc-old/config/makedepend/parse.c:506-519 | One round leads to a state from which the same final state is reached, and is smaller in open edges or in tables that hold the symbol |
| IncludeGraph.Undefine | xc-old/config/makedepend/parse.c:506-519 | The loop ends in the state that the function on values defines |
| IfParser.ScanVariable | xc-old/config/makedepend/ifparser.c:76-91 | The pointer loop delimits exactly the name that the function on suffixes reads |
| CText.SkipSpaceScan | xc-old/config/makedepend/ifparser.c:72 | The pointer loop stops where white space ends |
| CText.ClassesAre | xc-old/config/makedepend/ifparser.c:72-73 | The classes of characters that the scanners ask for are those of ASCII |
| IfParser.ParseLevel | xc-old/config/makedepend/ifparser.c:242-544 | Parsing never moves the cursor back, on any text and at every level |
| IfTheorems.AcceptsExactlyTheLanguage | xc-old/config/makedepend/ifparser.c:30-55 | A text is read to its end with a value if and only if some tree of the right-recursive grammar spells it and has that value |
| IfTheorems.AcceptsOnlyTheLanguage | xc-old/config/makedepend/ifparser.c:148-544 | Whatever prefix is read is spelled by a tree of the grammar that has the returned value |
| IfTheorems.OneValue | xc-old/config/makedepend/ifparser.c:30-55 | All trees that spell one text have the same value |
| IfTheorems.ParenthesizeOk | xc-old/config/makedepend/ifparser.c:33-53 | Parenthesized as the right-recursive levels need it, any tree becomes well formed and keeps its value |
| IfTheorems.RoundTrip | xc-old/config/makedepend/ifparser.c:33-53 | The text of any tree so parenthesized is parsed to its end with the value of the tree |
| IfLaws.NotLaw | xc-old/config/makedepend/ifparser.c:174-177 | !v is read as 1 when the operand v is read as 0, and as 0 when it is not |
| IfLaws.MinusLaw | xc-old/config/makedepend/ifparser.c:178-181 | -v added to v gives 0; the least long has no negative |
| IfLaws.ComplementLaw | xc-old/config/makedepend/ifparser.c:182-185 | Every bit of ~v is the opposite of that of v |
| IfLaws.SumLaws | xc-old/config/makedepend/ifparser.c:243-298 | Sums, differences and products of two operands are those of their numbers, or have no value outside the range of long |
| IfLaws.QuotientLaws | xc-old/config/makedepend/ifparser.c:243-272 | Quotients and remainders are those of C, which truncate toward 0, and have no value by 0 |
| IfLaws.ShiftLaws | xc-old/config/makedepend/ifparser.c:300-328 | Shifts move every bit by as many places; those by less than 0 or by 64 or more have no value, nor do left shifts of negative numbers |
| IfLaws.ComparisonLaws | xc-old/config/makedepend/ifparser.c:330-394 | Each comparison is 1 when it holds of the numbers and 0 when it does not; = is == |
| IfLaws.BitLaws | xc-old/config/makedepend/ifparser.c:396-461 | &, ^ and | work on every bit |
| IfLaws.LogicLaws | xc-old/config/makedepend/ifparser.c:463-507 | && is 1 when both operands are not 0, || when one is not |
| IfLaws.ChoiceLaw | xc-old/config/makedepend/ifparser.c:509-536 | ?: gives its second operand when the first is not 0 and its third when it is |
| IfLaws.DeMorgan | xc-old/config/makedepend/ifparser.c:174-177 | !(v&&w) is read as !v||!w, and !(v||w) as !v&&!w |
| IfLaws.DefinedLaw | xc-old/config/makedepend/ifparser.c:199-222 | "defined X" and "defined(X)" are 1 when X is defined and 0 when it is not |
| IfLaws.NumberLaws | xc-old/config/makedepend/ifparser.c:95-114 | Numbers in base 10, 8 and 16, with any of the suffixes u, U, l and L, are read as their value, or as the greatest long |
| IfLaws.LongHas64Bits | xc-old/config/makedepend/cppsetup.c:224 | The long of the model has 64 bits, one of them the sign |
| IfLaws.CharacterLaws | xc-old/config/makedepend/ifparser.c:117-146 | A character constant is the code of its character, as a char of 8 bits with a sign |
| IfLaws.EscapeLaws | xc-old/config/makedepend/ifparser.c:117-146 | The escapes have their codes |
| IfLaws.CodeLaws | xc-old/config/makedepend/ifparser.c:117-146 | Codes in base 8 and 16 are read back, cut down to such a char |
| IfErrors.JunkIsZero | xc-old/config/makedepend/ifparser.c:228-236 | A text that no operand begins like is an error and leaves 0 |
| IfErrors.LeftIsKept | xc-old/config/makedepend/ifparser.c:243-507 | When nothing can be read behind an operator that is an error and leaves the value of the operand in front of it |
| IfErrors.TestIsKept | xc-old/config/makedepend/ifparser.c:509-520 | So it does in front of a ? with nothing readable behind it |
| IfErrors.OpenParenIsKept | xc-old/config/makedepend/ifparser.c:163-169 | An operand whose parenthesis is not closed is an error and leaves its value |
| IfErrors.TestIsKeptOn | xc-old/config/makedepend/ifparser.c:509-531 | "v?w" with no colon, or with nothing readable behind it, is an error and leaves the value of v |
| IfErrors.NotDefinedIsZero | xc-old/config/makedepend/ifparser.c:206-224 | "defined" without a name, or with a parenthesis that is not closed, is an error and leaves 0 |
| IfErrors.NoAssertionIsZero | xc-old/config/makedepend/ifparser.c:186-198 | So is a # with anything but a name and arguments behind it |
| IfErrors.OpenQuoteOverruns | xc-old/config/makedepend/ifparser.c:143 | The search for the end of a character constant that is not closed goes on behind the text |
| IfTheorems.MinusAssociatesRight | xc-old/config/makedepend/ifparser.c:273-296 | x-y-z is parsed as x-(y-z), which is what C computes if and only if z is 0 |
| IfTheorems.MinusDiffers | xc-old/config/makedepend/ifparser.c:273-296 | The arithmetic of that: both ways agree just for 0 |
| IfAssociation.AgreeIffChains | xc-old/config/makedepend/ifparser.c:55 | For two operators of one level the two groupings agree on all numbers for which both are defined, if and only if the operators are +,+ or +,- or *,* or twice the same of &, ^, |, &&, || |
| IfAssociation.ReadsAlike | xc-old/config/makedepend/ifparser.c:242-530 | An expression in which all operators of one level that follow each other are such pairs has, grouped to the left as in C, the value that the parser gives it, when neither is undefined |
| IfAssociation.ParsesLikeC | xc-old/config/makedepend/ifparser.c:55 | So the parser returns the value of C for the text of every such expression |
| IfTheorems.LevelStaysInside | xc-old/config/makedepend/ifparser.c:116-146 | The terminator is never passed on text without a quote |
| IfSoundness.SoundLevel | xc-old/config/makedepend/ifparser.c:242-530 | At every level a result delimits a prefix that derives from the grammar of that level and has the value returned |
| IfSoundness.SoundValue | xc-old/config/makedepend/ifparser.c:148-238 | A value read is one of the forms of the grammar, with its value |
| IfSoundness.SoundCharacter | xc-old/config/makedepend/ifparser.c:116-146 | A character constant read is delimited by its quotes and has the value that its own characters give |
| IfCompleteness.CompleteLevel | xc-old/config/makedepend/ifparser.c:242-530 | Every tree of a level, with anything behind it that cannot continue it, is read back with its value and exactly up to there |
| IfCompleteness.CompleteValue | xc-old/config/makedepend/ifparser.c:148-238 | Every value form is read back, including the empty one and parenthesized expressions |
| CNumbers.MagnitudeStops | xc-old/config/makedepend/ifparser.c:94-114 | strtol reads a complete number the same whatever follows that cannot extend it |
| CNumbers.DecimalRoundTrip | xc-old/config/makedepend/ifparser.c:94-114 | Every number in decimal is read back by strtol with base 0, up to the nearest long |
| CNumbers.SignedRoundTrip | xc-old/config/makedepend/cppsetup.c:215 | White space and a sign in front of a number belong to it |
| CNumbers.NoNumber | xc-old/config/makedepend/cppsetup.c:215 | Where no number stands strtol gives 0 and reads nothing |
| CNumbers.QuotientTruncates | xc-old/config/makedepend/ifparser.c:242-270 | / and % are those of C: the quotient truncates toward zero and the remainder has the sign of the dividend |
| CNumbers.BitwiseBits | xc-old/config/makedepend/ifparser.c:395-459 | The bitwise operators work on each bit of the two's complement |
| CNumbers.BitwiseAssociates | xc-old/config/makedepend/ifparser.c:395-459 | A bitwise operator made of an associative one on bits is associative on all numbers |
| CNumbers.StrtolStopsAtQuote | xc-old/config/makedepend/ifparser.c:116-146 | strtol in an escape sequence sees nothing behind the closing quote |
| AliasChain.EndsIffAcyclic | xc-old/config/makedepend/cppsetup.c:196-216 | A chain of names ends if and only if no name on it comes up twice, and then within as many links as there are names |
| AliasChain.CycleGoesOn | xc-old/config/makedepend/cppsetup.c:208-213 | On a cycle no number of rounds ends the loop |
| AliasChain.OneEnd | xc-old/config/makedepend/cppsetup.c:208-213 | Where a chain ends is determined |
| AliasChain.ChainEnds | xc-old/config/makedepend/cppsetup.c:208-214 | Texts that lead from one to the next end with the one that leads nowhere |
| Cppsetup.EvalVariable | xc-old/config/makedepend/cppsetup.c:190-216 | A name that is not defined, or has more than 256 characters, has value 0; any other whose chain of aliases ends has the number at the front of the last text of the chain, which is given |
| Cppsetup.AliasHasValue | xc-old/config/makedepend/cppsetup.c:190-216 | A macro that stands for a macro has the value of that |
| Cppsetup.NumberHasValue | xc-old/config/makedepend/cppsetup.c:190-216 | A macro that stands for a number in decimal has it as its value, or the nearest long |
| Cppsetup.ExpandInclude | xc-old/config/makedepend/parse.c:180-192 | The loop for an #include that names a macro ends at the end of the chain |
| Cppsetup.TrueIffNonZero | xc-old/config/makedepend/cppsetup.c:219-241 | The condition of a line that spells an expression holds if and only if the expression is not 0, when the chains of all its names end |
| ConditionLaws.NotHolds | xc-old/config/makedepend/cppsetup.c:218-245 | The condition !v holds exactly when v does not, for every operand v with a value |
| ConditionLaws.AndOrHold | xc-old/config/makedepend/cppsetup.c:218-245 | v&&w holds when both do, v||w when one does |
| ConditionLaws.ChoiceHolds | xc-old/config/makedepend/cppsetup.c:218-245 | v?w:u holds when the operand that v chooses does |
| ConditionLaws.DefinedHolds | xc-old/config/makedepend/cppsetup.c:179-188 | defined(X) holds exactly when X is defined and has at most 256 characters, !defined(X) exactly otherwise |
| ConditionLaws.UndefinedIsZero | xc-old/config/makedepend/cppsetup.c:201-206 | A name that is not defined is as good as 0 |
| ConditionLaws.NumberHolds | xc-old/config/makedepend/cppsetup.c:201-216 | A macro that stands for a number holds unless that is 0 |
| ConditionLaws.ErrorLeavesLeft | xc-old/config/makedepend/cppsetup.c:236-243 | After an error the condition holds when the operand read so far does, and does not hold when there is none |
| ConditionLaws.OpenQuoteFails | xc-old/config/makedepend/cppsetup.c:236-243 | With a character constant that is not closed a condition is taken not to hold |
| ConditionLaws.IfDefinedIsIfDef | xc-old/config/makedepend/parse.c:562-590 | #if !defined(X) means what #ifndef X means, and #if defined(X) what #ifdef X means |
| ConditionLaws.LinesOfDefined | xc-old/config/makedepend/parse.c:521-647 | So it is for the scanners, over their lines |
| ConditionLaws.IfUndefinedIsIfZero | xc-old/config/makedepend/parse.c:521-647 | #if X with X not defined means what #if 0 means |
| DirectiveText.WordIsFound | xc-old/config/makedepend/parse.c:103-153 | However blanks are set, the directive word behind the # and the text it applies to are found |
| DirectiveText.SymbolIsFound | xc-old/config/makedepend/parse.c:163-174 | The symbol of #ifdef, #ifndef and #undef is read whole, and nothing behind it |
| DirectiveText.QuotedIsFound | xc-old/config/makedepend/parse.c:196-210 | The name of an #include in quotes is found behind anything without a quote or bracket |
| DirectiveText.BracketedIsFound | xc-old/config/makedepend/parse.c:196-210 | A name in angle brackets is found in the same way, up to the closing one |
| DirectiveText.DefinitionIsFound | xc-old/config/makedepend/parse.c:387-406 | Name and value of a definition are read back, whatever single character and blanks stand between; without a value it is 1 |
| Directives.FindIncludes | xc-old/config/makedepend/parse.c:521-647 | find_includes consumes lines only, every result other than the end of the file consumes at least one, and SEARCHED marks are never taken back; it terminates together with add_include because each new file is marked first |
| Nesting.GobbleBlock | xc-old/config/makedepend/parse.c:35-85 | gobble passes over a well-nested block, looking only at the #elif conditions in it |
| Nesting.GobbleTail | xc-old/config/makedepend/parse.c:35-85 | gobble and its loop over the remaining groups end exactly behind the #endif of the conditional |
| Nesting.AfterTaken | xc-old/config/makedepend/parse.c:531-541 | After a group that was taken the remaining groups are skipped up to the #endif |
| Nesting.FindBlock | xc-old/config/makedepend/parse.c:521-647 | find_includes on the lines of a well-nested block executes its tree and goes on behind it |
| Nesting.FindGroups | xc-old/config/makedepend/parse.c:531-590 | A conditional executes one group and ends behind its #endif, whichever conditions hold and whatever evaluating them changes |
| Nesting.FindFile | xc-old/config/makedepend/parse.c:521-647 | On a well-nested file find_includes executes its tree and reads to the end, and so for every file that add_include reads on the way |
| NestingCheck.NestsExactly | xc-old/config/makedepend/parse.c:521-647 | A check on the lines finds the tree they are if they are well nested, there is only one, and fails if they are not |
| Selection.BlockTogether | xc-old/config/makedepend/parse.c:521-647 | Executing a tree, with every lookup changing the state, stays together with the structured meaning of an ideal program, the first group whose condition holds in its definitions or else the #else group, for any relation of states that the operations of the two keep |
| Selection.FindIncludesMeansSelection | xc-old/config/makedepend/parse.c:35-647 | The two scanners with their gotos give every conditional of every file reached that meaning in the ideal program, in order, to the end of the stream, though lookups change the tables |
| Guards.NameLines | xc-old/config/makedepend/parse.c:163-172 | The lines "#ifdef X", "#ifndef X" and "#undef X" are what they say, about X |
| Guards.OtherLines | xc-old/config/makedepend/parse.c:87-113 | So are those of #if, #elif, #define, #include, #else and #endif |
| DirectiveText.LettersOfWords | xc-old/config/makedepend/parse.c:107-109 | The word of a directive is made of small letters |
| Guards.NameChooses | xc-old/config/makedepend/parse.c:562-590 | #ifdef chooses its first group when its name is defined and the other one when it is not, #ifndef the other way round, with #else and without |
| Guards.NotDefinedIsElse | xc-old/config/makedepend/parse.c:562-590 | #ifndef with its groups exchanged means what #ifdef means |
| Guards.ElifIsElseIf | xc-old/config/makedepend/parse.c:546-561 | #elif means an #else with an #if in it |
| Guards.LinesOfNotDefined | xc-old/config/makedepend/parse.c:521-647 | The scanners, too, leave after #ifndef X A #else B #endif what they leave after #ifdef X B #else A #endif |
| Guards.StrayEndIf | xc-old/config/makedepend/parse.c:592-603 | Outside any conditional #endif is handed to define with its whole line, and reading goes on |
| Guards.StrayElse | xc-old/config/makedepend/parse.c:592-603 | So is #else, and what stands before the next #endif is skipped |
| Guards.GuardLetsInOnce | xc-old/config/makedepend/parse.c:521-647 | A file with an include guard runs its body, with the guard defined, while the guard is not defined, and changes nothing later |
| Guards.DefinesAndUndefines | xc-old/config/makedepend/parse.c:384-406 | #define gives its name the value, or "1" without one, and #undef takes the name away |
| Selection.QuietMeansSelection | xc-old/config/makedepend/parse.c:35-647 | Where lookups change nothing at all the result is that meaning itself |
| Selection.FindReadsOnce | xc-old/config/makedepend/pr.c:68-77 | add_include never reads a file twice, on any input, well nested or not |
| Selection.RunReadsOnce | xc-old/config/makedepend/main.c:458-467 | The same over all command-line files |
| Selection.ReadsCounted | xc-old/config/makedepend/main.c:458-467 | All reads of a run are the command-line files, as often as they are named, and the files newly scanned, counted together |
| Selection.ReadsAtMostTwice | xc-old/config/makedepend/main.c:458-467 | So a file named once on the command line is read at most twice in all, and any other at most once |
| Scanner.Makedepend.Gobble | xc-old/config/makedepend/parse.c:35-85 | The loop leaves the cursor and the program where the function says |
| Scanner.Makedepend.GobbleRest | xc-old/config/makedepend/parse.c:534-539 | So does the loop over the remaining groups |
| Scanner.Makedepend.FindIncludes | xc-old/config/makedepend/parse.c:521-647 | The loop with its calls in both directions leaves the cursor and the whole program state where the function says |
| Scanner.Makedepend.Conditional | xc-old/config/makedepend/parse.c:531-590 | The jumps between doif and doiffalse do what the recursive function does |
| Scanner.Makedepend.AddInclude | xc-old/config/makedepend/pr.c:40-77 | A file not yet SEARCHED is marked and then read, others are not |
| FlatOps.VisiblesAre | xc-old/config/makedepend/parse.c:270-286 | While the tables stand for one table of definitions, the names and values that lookups from the command-line file give are that table |
| FlatOps.LookStands | xc-old/config/makedepend/parse.c:235-286 | They go on doing so through any lookup, whatever it merges |
| FlatOps.DefineStands | xc-old/config/makedepend/parse.c:303-406 | Through a definition that the standard allows, in the file being read, which is then in the one table, as long as memory lasts |
| FlatOps.UndefineStands | xc-old/config/makedepend/parse.c:506-519 | Through #undef, which takes the name out of the one table |
| FlatOps.IncludeStands | xc-old/config/makedepend/include.c:179-228 | Through an #include, which brings what a header read before had left, if it defines nothing otherwise |
| FlatOps.FlatAgrees | xc-old/config/makedepend/parse.c:235-519 | So all operations over the real tables agree with those over one table |
| Preprocessor.TextsAreTrees | xc-old/config/makedepend/parse.c:521-647 | Texts that pass the check are the lines of well-nested trees, and of no others |
| Preprocessor.ExecutesTrees | xc-old/config/makedepend/parse.c:521-647 | From raw texts: getline, find_includes and gobble execute each file as its tree and read it to the end, whatever the operations change |
| FlatRuns.AgreeingRun | xc-old/config/makedepend/parse.c:521-647 | Conditionals have the standard's meaning in any ideal program whose operations agree, and the command-line file is read to its end |
| Preprocessor.FlatProgram | xc-old/config/makedepend/parse.c:35-647 | Over the real tables with their merges, with the real conditions and macro values, for headers that include nothing and programs that keep the constraint of the standard on defining a macro again: the lines executed, the files read and their order, the headers included and the names and values visible at the end are those that one table of definitions gives |
| Preprocessor.AllRootsRun | xc-old/config/makedepend/main.c:458-467 | The same for each command-line file in turn, on the tables, marks and headers that those before it have left |
| Supply.MeaningMakes | xc-old/config/makedepend/pr.c:68-77 | Over one table of definitions no more #defines are executed than the file and the headers not yet read have lines, since no header is read twice |
| FlatRuns.WithSupply | xc-old/config/makedepend/parse.c:362-384 | For every such program enough cells can be allocated, one for each #define line: then it runs as over one table |
| SmallProgram.RunSmall | xc-old/config/makedepend/parse.c:35-647 | A program that includes a header and defines a macro again as the header has it, whatever the texts: three cells, and all that is asked holds |
| TablesAsOne.StandsAnswers | xc-old/config/makedepend/parse.c:270-286 | On any include graph: when every entry that counts has the value that one table of definitions gives, and all its names are seen, the names and values that isdefined answers with are that table |
| TablesAsOne.LookStands | xc-old/config/makedepend/parse.c:235-286 | Any lookup that hides nothing, found or not, whatever it merges, leaves it so |
| TablesAsOne.MissIsHarmless | xc-old/config/makedepend/parse.c:235-286 | Such is every lookup in vain while all that is open is being read |
| TablesAsOne.UndefineStands | xc-old/config/makedepend/parse.c:506-519 | #undef takes its name out of the one table and leaves the others |
| TablesAsOne.RunAnswers | xc-old/config/makedepend/parse.c:235-519 | Over every run of lookups, #undef, #define, #include and ends of files, on any graph, isdefined answers as one table does, as long as lookups hide nothing and no macro is defined again otherwise than it is |
| NestedRuns.WatchFollows | xc-old/config/makedepend/parse.c:521-647 | As long as the watch is calm, watching a run changes nothing in it |
| Preprocessor.NestedProgram | xc-old/config/makedepend/parse.c:35-647 | From raw texts, with headers nested in any way, the real conditions and the real tables with their merges: as long as no lookup hides a name and no macro is defined again otherwise than it is, the lines executed, the files read and the names and values visible at the end are those that one table of definitions gives |
| FlatCalm.FlatStaysCalm | xc-old/config/makedepend/parse.c:35-647 | Programs whose headers include nothing and that keep the constraint of the standard always meet this condition |
| FlatRuns.OneTableRun | xc-old/config/makedepend/parse.c:521-647 | The scanners over that one table give the standard's meaning itself, for any nesting of includes |
| Preprocessor.ReadsBlankedText | xc-old/config/makedepend/main.c:551-615 | The lines so processed are those of the blanked text that begin with # |
| LineSpec.TakeLineIsFirst | xc-old/config/makedepend/main.c:565-608 | A line that getline assembles is the first line of the text with comments and splices blanked |
| LineSpec.BlankComment | xc-old/config/makedepend/main.c:566-578 | A comment becomes as many blanks, up to its end or the end of the text |
| LineLaws.PlainStays | xc-old/config/makedepend/main.c:560-600 | Text without slashes and backslashes stays as it is |
| LineLaws.CommentIsBlanked | xc-old/config/makedepend/main.c:566-585 | A comment, up to the first end of one in it, becomes as many blanks |
| LineLaws.SpliceIsBlanked | xc-old/config/makedepend/main.c:586-591 | A backslash with a newline behind it becomes two blanks |
| LineLaws.LoneStays | xc-old/config/makedepend/main.c:566-591 | A slash or backslash that begins neither stays as it is |
| LineLaws.NewlinesAreCounted | xc-old/config/makedepend/main.c:551-615 | The newlines counted are the places in the text where one stands |
| LineLaws.BareLines | xc-old/config/makedepend/main.c:600-606 | A line is bare exactly when it is a # with nothing but blanks behind it |
| LineResults.ReturnsAllHashLines | xc-old/config/makedepend/main.c:551-615 | Repeated calls return all lines of the blanked text that begin with #, in order and with their places, if and only if none of those ended by a newline is just # and blanks |
| LineResults.BareIsLost | xc-old/config/makedepend/main.c:601-607 | A line of just # and blanks is not returned, and everything returned later starts behind it |
| LineResults.CountsLines | xc-old/config/makedepend/main.c:551-615 | On any text, the counter rises with each call by the newlines between the cursor before and after, less the newlines among the characters skipped after bare lines |
| LineResults.CountsRightIff | xc-old/config/makedepend/main.c:601-607 | It is right if and only if no such newline is skipped |
| LineResults.TidyLosesNone | xc-old/config/makedepend/main.c:551-615 | Without bare lines none is, and the rest has none either |
| LineResults.BareLineHidesTheNext | xc-old/config/makedepend/main.c:597-607 | The input "#", newline, "#if", newline returns nothing: the cursor moves twice and the second # is lost |
| LineReader.FilePointer.BlankComment | xc-old/config/makedepend/main.c:566-578 | The in-place loop blanks exactly the comment and counts its newlines |
| LineReader.FilePointer.Consume | xc-old/config/makedepend/main.c:566-596 | One turn blanks a comment or a splice, or leaves a character, and leaves all behind it as it was |
| LineReader.FilePointer.GetLine | xc-old/config/makedepend/main.c:551-615 | On the buffer: the pointer returned leads to the blanked line, ended by a NUL, and cursor and counter are left where the function on texts says |
| DotDot.ReduceNormalizes | xc-old/config/makedepend/include.c:113-131 | One pass with a stack leaves no name followed by ".." that could be taken out |
| DotDot.DropPair | xc-old/config/makedepend/include.c:113-131 | Taking out one such pair does not change what the pass gives |
| DotDot.RemovePairs | xc-old/config/makedepend/include.c:113-131 | The in-place loop, which goes back one component after each pair, leaves what the one pass gives |
| DotDot.MeaningKept | xc-old/config/makedepend/include.c:80-84 | In a file tree all paths keep their meaning if and only if ".." leads back from every component that is taken out |
| PathText.PiecesOfJoin | xc-old/config/makedepend/include.c:94-111 | Slicing undoes joining |
| PathText.SamePlace | xc-old/config/makedepend/include.c:80-153 | In a tree where ".." leads back the path names the same place before and after |
| PathText.LeadsToTheSame | xc-old/config/makedepend/include.c:85-153 | In any tree in which "." and nothing stay where they are and ".." leads back from every name that is not a symbolic link, the path leads where it did, from the top if it begins with a slash |
| PathText.NothingToGoBackFrom | xc-old/config/makedepend/include.c:111-133 | In the result only ".", ".." and symbolic links stand in front of ".." |
| PathText.AbsoluteKept | xc-old/config/makedepend/include.c:97-100 | A path is absolute afterwards if and only if it was |
| PathText.NeverLonger | xc-old/config/makedepend/include.c:149-152 | The result fits where the path was |
| PathText.NothingLeft | xc-old/config/makedepend/include.c:113-131 | The result, sliced again, has no pair to take out |
| PathText.Idempotent | xc-old/config/makedepend/include.c:85-153 | Cleaning twice is cleaning once |
| PathText.EndsWell | xc-old/config/makedepend/include.c:102-111 | The result ends in a slash if and only if the path is absolute and its components are nests of pairs to take out and nothing else |
| DotDot.NothingLeftIff | xc-old/config/makedepend/include.c:113-131 | The one pass leaves nothing exactly of such nests |
| Paths.OverrunsIff | xc-old/config/makedepend/include.c:102-111 | The slicing loop steps over the terminator if and only if the path ends in a slash |
| Paths.CleanedOverruns | xc-old/config/makedepend/include.c:85-153 | So the result is one that the loop would overrun exactly for such nests in an absolute path |
| Paths.Slice | xc-old/config/makedepend/include.c:94-111 | The slicing loop, which overwrites slashes, stores exactly the non-empty pieces, and the last |
| Paths.Concatenate | xc-old/config/makedepend/include.c:133-148 | The concatenating loop writes the components with single slashes between |
| Paths.RemoveDotDot | xc-old/config/makedepend/include.c:85-153 | The buffer holds the cleaned path afterwards |
| Printing.MarksExactlyReachable | xc-old/config/makedepend/pr.c:116-130 | The search marks exactly the files reachable from the root, on cyclic graphs too |
| Printing.VisitComplete | xc-old/config/makedepend/pr.c:116-130 | Whatever is marked before, a visit leaves no unmarked file next to one it has marked |
| Printing.PrintsReachableOnce | xc-old/config/makedepend/pr.c:116-130 | pr is called exactly once for each file reachable from the root other than the root |
| Printing.Output.RecursivePrInclude | xc-old/config/makedepend/pr.c:116-130 | The recursion on the objects prints and marks what the function says |
| Printing.IncClean | xc-old/config/makedepend/include.c:230-238 | All marks are gone afterwards |
| Printing.PrintOne | xc-old/config/makedepend/main.c:458-467 | Each turn of the loop, with the files as they are then, prints the complete list of the command-line file and leaves no marks for the next |
| Printing.PrintAll | xc-old/config/makedepend/main.c:458-467 | Over all command-line files, each reading more before its turn: each gets the complete list of what it comes to by then, and no mark is left |
| CondVarProofs.StepRefines | xc/include/Xthreads.h:137-162 | Every atomic step of every thread keeps the invariant, with the list acyclic, free of duplicates, and holding exactly the threads that are enqueued and not released, and is an operation of an abstract condition variable |
| CondVarProofs.EveryRun | xc/include/Xthreads.h:104-162 | So every run of any number of threads refines a run of the abstract condition variable, in which a signal releases one sleeper, a broadcast all, and only a released thread wakes, with the mutex |
| CondVarProofs.SigReleaseStep | xc/include/Xthreads.h:147-154 | A signal on a list that is not empty posts the semaphore of its first thread, which was 0, and so never overflows |
| CondVarProofs.BcReleaseStep | xc/include/Xthreads.h:155-162 | The loop of a broadcast posts the next thread not yet released, whose semaphore was 0, while others may already run |
| CondVarProofs.PerformKeepsOk | xc/include/Xthreads.h:104-162 | In the abstract condition variable no thread sleeps twice, or sleeps and is released |
| CondVarProofs.SleepsMatchWakes | xc/include/Xthreads.h:137-162 | Over every run a thread wakes as often as it slept, but for the sleep it is in |
| CondVarProofs.WakesAreOwed | xc/lib/X11/locking.c:69-84 | Every wake-up follows its own sleep, and a semaphore never exceeds 1 |
| CondVarProgress.SignalReturns | xc/include/Xthreads.h:147-154 | In every reachable state, whoever holds the mutex, a thread that calls signal or has called it gets back by its own steps once the critical section is free, and the last thread that came to wait, if any, then has its semaphore at 1 |
| CondVarProgress.BroadcastReturns | xc/include/Xthreads.h:155-162 | The same for broadcast, after which every thread that sleeps or is about to has its semaphore at 1 and the list is empty |
| CondVarProgress.WaitSleeps | xc/include/Xthreads.h:137-146 | The holder of the mutex that calls wait comes by its own steps to sleep, first on the list, with the mutex free |
| CondVarProgress.WakesUp | xc/include/Xthreads.h:144-146 | A released thread comes back from wait with the mutex, by its own steps, once that is free |
| CondVarProgress.ComesBack | xc/include/Xthreads.h:146 | So does a thread that was already on its way to the mutex |
| CondVarProgress.MutexIsTaken | xc/include/Xthreads.h:129 | An idle thread can take the mutex when it is free |
| CondVarProgress.MutexIsGiven | xc/include/Xthreads.h:130 | An idle thread that holds the mutex can let it go |
| CondVarProgress.AnyNumber | xc/include/Xthreads.h:131-134 | There is a state to begin with for any number of threads |
| CondVarProgress.SectionIsLeft | xc/include/Xthreads.h:137-162 | The holder of the critical section can leave it by its own steps, in every reachable state |
| CondVarProgress.SomeoneGoes | xc/include/Xthreads.h:137-162 | As long as one thread is not asleep, or has been released, some thread can make a step |
| CondVarProgress.StuckMeansAllAsleep | xc/include/Xthreads.h:137-162 | So nothing can happen any more if and only if all threads are asleep and none of them has been released |
| CondVarProgress.SleeperIsSaved | xc/include/Xthreads.h:137-162 | An idle thread that holds the mutex, or finds it free, can bring any sleeping thread back from wait with the mutex |
| ImakeProofs.NothingLost | xc-old/config/imake/imake.c:1462-1487 | The results of ReadLine with their separators are the whole buffer, one behind the other |
| ImakeProofs.CutWhereItShould | xc-old/config/imake/imake.c:1462-1487 | No line has a newline or an unprotected @@ in it, and only the last may lack a separator |
| ImakeProofs.BlankLinesOnce | xc-old/config/imake/imake.c:1306-1326 | No two blank lines in a row are written, and the other lines are those that are not empty once cleaned, in order |
| ImakeProofs.OutputIsLines | xc-old/config/imake/imake.c:1342-1413 | What is written as a line contains no newline and no trailing blanks |
| ImakeProofs.CommentRoundTrip | xc-old/config/imake/imake.c:1239-1413 | A make comment hidden from cpp comes back whole as itself, with a space behind the # if no blank was there and without trailing blanks, unless it holds a soft end of line or a standalone XCOMM |
| ImakeProofs.ComesBackIff | xc-old/config/imake/imake.c:1239-1487 | Exactly then: cut at its first end of line and cleaned, it is the comment if and only if it holds neither |
| ImakeLaws.CommentIff | xc-old/config/imake/imake.c:1239-1264 | A # is a make comment exactly at the start of a line that is not continued from the last, unless one of the twelve words of cpp stands behind it |
| ImakeLaws.CommentIsHidden | xc-old/config/imake/imake.c:1283-1292 | It becomes XCOMM, with a blank if none follows, and nothing else changes |
| ImakeLaws.SoftEndEndsRow | xc-old/config/imake/imake.c:1462-1470 | "@@" ends a line unless something other than a blank stands in front of it and a slash behind |
| ImakeLaws.SoftEolIff | xc-old/config/imake/imake.c:1462-1466 | "@@" is no end exactly inside a line, behind something that is no white space and in front of a slash |
| ImakeLaws.NewlineEndsRow | xc-old/config/imake/imake.c:1471-1478 | A line without @ goes to its newline |
| ImakeLaws.MarkerIff | xc-old/config/imake/imake.c:1354-1371 | A # with a number behind it, and perhaps the word line between, is a line marker exactly when the number ends the line or a quoted name follows |
| ImakeLaws.OnlyMarkers | xc-old/config/imake/imake.c:1354-1371 | Nothing else is one |
| ImakeLaws.MarkerIsDropped | xc-old/config/imake/imake.c:1354-1371 | A line marker becomes an empty line |
| ImakeLaws.TokenIff | xc-old/config/imake/imake.c:1373-1380 | XCOMM stands alone exactly with a blank or an end of the line on each side |
| ImakeLaws.HashLineStays | xc-old/config/imake/imake.c:1354-1395 | A line that begins with # and is no line marker loses its trailing blanks only |
| ImakeLaws.TokenComesBack | xc-old/config/imake/imake.c:1373-1412 | In any other line an XCOMM that stands alone is a # again |
| ImakeLaws.TextIsLines | xc-old/config/imake/imake.c:1306-1326 | What is written can be cut at its newlines into the lines again |
| ImakeProofs.CleanLines | xc-old/config/imake/imake.c:1238-1299 | In every file, line by line, exactly the comments that no backslash continues are hidden, also in a last line without a newline |
| ImakeProofs.ReadsFile | xc-old/config/imake/imake.c:1462-1487 | ReadLine cuts each line of a text on its own, into one row or, at @@, into more |
| ImakeProofs.EveryText | xc-old/config/imake/imake.c:1228-1236 | Every text is lines that end in a newline and a last one without |
| ImakeProofs.PipelineKeepsComments | xc-old/config/imake/imake.c:1208-1487 | Through CleanCppInput, ReadLine, isempty and CleanCppOutput every file comes out line by line in order: each comment that can come back does so in its place, every other line gives its own cleaned rows, and blank lines are squeezed |
| ImakeScan.CleanCppInput | xc-old/config/imake/imake.c:1238-1303 | The pointer loop writes the text with its comments hidden, and nothing when there are none |
| ImakeScan.CppOutput.ReadLine | xc-old/config/imake/imake.c:1462-1487 | The cursor kept between calls goes through the lines of the buffer, each ended by a NUL in place |
| ImakeScan.CppOutput.HasMarker | xc-old/config/imake/imake.c:1354-1371 | The comparisons recognize exactly the line markers |
| ImakeScan.CppOutput.CloseUp | xc-old/config/imake/imake.c:1379-1380 | The rest of the line moves up over the token and nothing outside the line changes |
| ImakeScan.CppOutput.Restore | xc-old/config/imake/imake.c:1373-1381 | The in-place loop turns every XCOMM that stands alone into a # |
| ImakeScan.CppOutput.IsEmpty | xc-old/config/imake/imake.c:1342-1413 | The answer and the line left in the buffer are those of the function on lines, and the rest of the buffer is as before |
| ImakeScan.CleanCppOutput | xc-old/config/imake/imake.c:1306-1326 | The file gets the header and then the cleaned lines, with blank lines squeezed |

## Left out

- SymbolTable.Inclist.Define2: the memory of replaced values, and failing `malloc` and `realloc`, are not modelled.
- IncludeGraph.IsDefined: names are 7-bit and free of NUL; the list of included files does not grow during a lookup.
- Directives.FindIncludes: `IFGUESSFALSE` and `ELIFGUESSFALSE` are not modelled, since `zero_value` never returns them; nor are warnings, debug output and `failOK`, which only affects warnings.
- Selection.FindIncludesMeansSelection: speaks of definitions and includes for which the ideal program speaks; where lookups hide names or change values there is none, and `Nesting.FindFile`, which assumes nothing, says what is executed then.
- Preprocessor.NestedProgram: under the condition that the run is calm, which is checked beside it, step by step: lookups hide nothing, a macro defined again is defined as it is, a header brings what it is said to have left. A macro defined again in one file with another value, which the code handles, is not covered. Within one condition the definitions are those at its start, which is exact here since lookups change no answer; a macro on an alias cycle, for which the code does not return, has some value; identifiers are 7-bit.
- Preprocessor.FlatProgram: for headers that include nothing themselves, and with memory for a new cell for every #define line of the texts.
- HeapRuns.DoCalls: the files exist before the calls; `newinclude` adds none in between.
- Cppsetup.EvalVariable: the visible definitions stay fixed while a chain is followed, although each lookup may merge tables.
- Cppsetup.TrueIffNonZero: for names whose alias chains end; a text that runs over the terminator in search of a quote, or that computes something undefined, is taken as false; after a syntax error the value reached so far counts, as in the code.
- IfParser.ParseLevel: the eleven level parsers, which differ in their operators only, are one function with the level as a parameter; `long` has 64 bits, and division by 0, overflow and shifts out of range give the mark `Undef`, as do left shifts of negative numbers; the callbacks are functions, and calls of them do not change tables.
- IfTheorems.RoundTrip: for trees without the empty value, which is read only where a text ends; `IfTheorems.AcceptsExactlyTheLanguage` covers that one too.
- IfTheorems.LevelStaysInside: one way only, since a text with a quote may be parsed inside too; a character constant that is not closed is scanned past the terminator in the code; the parser's result is then `Overrun`.
- Scanner.Makedepend.FindIncludes: `define`, `undefine`, the search for the file and the marks on it are operations of a parameter, so that the theorems hold for all of them.
- LineReader.FilePointer.GetLine: the WIN32 and EMX branches are left out; after a comment that is not closed the source leaves the cursor one place further, where it is at the end just the same; when the text ends with a bare line and its newline the code reads behind the buffer, which the result `Overrun` marks.
- Paths.RemoveDotDot: the path must not end in a slash, which the code would overrun; `issymbolic` is a parameter that depends on the component alone, because the code calls it with "" for the directory, or "/" for an absolute path, whatever stands before the component; the bounds MAXFILES and BUFSIZ are not modelled; components are taken as strings when they are cut off.
- PathText.SamePlace: an empty component, which only an empty path has, is taken to stay in place.
- Printing.PrintAll: the files exist before the first turn; what each includes after a command-line file has been read is an input.
- Trails.LookHidesIff: while every file that can be come to and is not FINISHED is being read; that the scanners keep it so is not shown.
- Printing.Output.Pr: the line width, the object prefix and the verbose listing of `pr` are left out.
- CondVarProofs.EveryRun: one condition variable and one mutex without nesting; the per-thread waiter cannot be on two lists.
- ImakeProofs.PipelineKeepsComments: cpp is taken as the identity.
- IfAssociation.ReadsAlike: the value grouped to the left is undefined where an operand is, although C leaves some operands of `&&`, `||` and `?:` out; the converse for a whole expression, in which values may happen to agree, is stated for pairs of operators only.
- ImakeScan.CleanCppInput: the NUL written behind a token and taken back again is not modelled, nor is the temporary file.
- ImakeScan.CleanCppOutput: FIXUP_CPP_WHITESPACE and MAGIC_MAKE_VARS are off, as in the OpenBSD configuration; the file is a string.
- File access, `inc_path` and its search with `stat`, `newinclude`, option parsing, Makefile rewriting and signal handling: input and output around the modelled core.
- imake's running of cpp and make: process handling.
- The other programs and libraries of the repository.
