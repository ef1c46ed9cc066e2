# Verified models of cogterm

A Dafny project that models the parts of this repository with the most state, branching or arithmetic, and proves what
they promise over all inputs and runs. `dafny verify dfyconfig.toml` checks everything.

| part | files | main results |
|---|---|---|
| rectangle packing | `Skyline*.dfy` | packed rectangles never overlap; node lists are conserved; when nodes suffice |
| interval queries | `IntervalTree.dfy` | the tree answers like a scan of all intervals |
| command lines | `ArgCommand.dfy`, `ArgMatcher.dfy`, `ArgWords.dfy`, `ArgValues.dfy`, `ArgAccounts.dfy`, `ArgRuns.dfy`, `ArgUnique.dfy`, `ArgPositionals.dfy` | the matcher ends with the one account of the line that the declarations allow; the Rust and the generated Bash code deal out positionals alike |
| parameter declarations | `TagGrammar.dfy`, `TagParams.dfy`, `TagQuotes.dfy`, `TagSyntax.dfy`, `TagRoundTrip.dfy`, `TagReading.dfy` | the documented forms mean what they say; rendering and parsing are inverse, and exactly when |
| terminal output | `VtWriter.dfy`, `CrlfTranslation.dfy`, `VtText.dfy` | one frame a session; newline translation preserves meaning; bytes act on a terminal as meant |
| start-up and shutdown | `PtyLifecycle.dfy` | safety over every interleaving of threads |
| cells of the screen | `CellRows.dfy`, `CellOutput.dfy`, `CellTerminal.dfy`, `CellBlocks.dfy`, `FillConsole.dfy` | every column shows its cell; fills are contiguous and never split a glyph |
| history | `CommandHistory.dfy`, `HistoryPool.dfy` | bounds and cursor over every run; when duplicates are suppressed; allocation order |
| double-byte text | `DbcsStream.dfy` | the division into calls does not matter, and exactly when |

Objects that the program changes in place are classes, its loops are loops with invariants, and each is proved against a
function on values; the theorems are about those functions. Machine integers are modelled as unbounded: overflow is not
part of the models. `Options.dfy` and `Numbers.dfy` hold what the parts share.

Where code and documentation disagree the model follows the code:

- the packer's comment says that rounding widths makes the nodes always suffice; `NodesSufficeExactlyWhenWide` shows that
  they never run out in a target without rows, in a single row exactly when nodes and quantum together are at most the
  width, and in a higher one exactly when there are fewer than columns;
- adding a command with duplicates suppressed can store a duplicate after the displayed command was removed, because the
  search then starts off the list; `SuppressionWorksExactlyWhen` gives the exact condition;
- rendering an option whose name ends in `:-` adds a colon, a one-letter option described by text that looks like an
  option is read as another, and so would be one whose name begins with a dash of the prefix, which no text gives;
  `OptionRoundTripExactly` and `OptionReadAgain` give the exact conditions.

## Model

| member | source | states |
|---|---|---|
| `SkylineProfile.RestIsMax` | oss/stb/stb_rect_pack.h:287-335 | the y a rectangle comes to rest at is the maximum skyline height over its columns, attained and never exceeded |
| `SkylineProfile.RestWasteExact` | oss/stb/stb_rect_pack.h:287-335 | the waste is exactly the area trapped under the rectangle, when it starts at a corner or over a corner above the floor |
| `SkylinePlacement.ChosenFitsIfAnyDoes` | oss/stb/stb_rect_pack.h:343-443 | the position chosen fits exactly when some position the search tries fits |
| `SkylinePlacement.PlaceOrdered` | oss/stb/stb_rect_pack.h:461-517 | splicing a rectangle in keeps the corners strictly increasing from 0 to the sentinel at the width |
| `SkylinePlacement.PlaceHeight` | oss/stb/stb_rect_pack.h:461-517 | after placing, every raised column is as high as the rectangle's top and every other column as before |
| `SkylinePlacement.OverhangIsFlat` | oss/stb/stb_rect_pack.h:461-517 | columns raised beyond the rectangle's right edge were level with its left corner |
| `SkylinePlacement.PlaceRaises` | oss/stb/stb_rect_pack.h:461-517 | no column of the skyline ever sinks |
| `SkylinePlacement.AfterSafe` | oss/stb/stb_rect_pack.h:445-522 | one step keeps the invariant: packed rectangles inside, pairwise disjoint and below the skyline |
| `SkylinePlacement.RunKeepsSafe` | oss/stb/stb_rect_pack.h:445-522 | every run of steps keeps that invariant and records exactly its rectangles |
| `SkylinePlacement.PackedRectanglesNeverOverlap` | oss/stb/stb_rect_pack.h:445-522 | for every run from an empty target, all rectangles lie inside it and are pairwise disjoint |
| `SkylinePlacement.AfterOutline` | oss/stb/stb_rect_pack.h:445-522 | the exact condition, step by step: the skyline stays the upper outline of the placed rectangles exactly when the step raises no column beyond the rectangle |
| `SkylinePlacement.NoOverhang` | oss/stb/stb_rect_pack.h:343-443 | the bottom-left rule, or unaligned widths, never raises a column beyond the rectangle |
| `SkylinePlacement.RunKeepsOutline` | oss/stb/stb_rect_pack.h:445-522 | so with either every run of the packer, with any number of nodes, keeps the skyline that outline |
| `SkylinePlacement.SkylineIsTheOutline` | oss/stb/stb_rect_pack.h:445-522 | for every run from an empty target the height at every column is the top of the highest rectangle over it |
| `SkylinePlacement.OverhangHappens` | oss/stb/stb_rect_pack.h:445-522 | with best fit and rounded widths it can be lost: on 11 columns with three nodes, a run of three rectangles with a node free for each, after which a column is higher than any rectangle over it |
| `SkylinePlacement.ChosenIsLegal` | oss/stb/stb_rect_pack.h:343-443 | a fitting position the search tried is a legal step, also for widths rounded up to the alignment |
| `SkylineNodes.ShapeMeansPartition` | oss/stb/stb_rect_pack.h:261-284 | active and free list are acyclic, disjoint and together exactly all nodes of the buffer |
| `SkylineSearch.LeftStep` | oss/stb/stb_rect_pack.h:361-385 | one candidate of the left-aligned pass keeps the best so far |
| `SkylineSearch.RightStep` | oss/stb/stb_rect_pack.h:406-437 | one candidate of the right-aligned pass keeps the best so far |
| `SkylineSearch.SearchOutcome` | oss/stb/stb_rect_pack.h:343-443 | the best of both passes is no worse than any candidate, leftmost among equals, and there is one if any fits |
| `SkylinePacker.FindMinY` | oss/stb/stb_rect_pack.h:287-335 | the loop over linked nodes computes the scan of the profile |
| `SkylinePacker.SearchLeft` | oss/stb/stb_rect_pack.h:361-385 | after the pass the best of all left-aligned candidates is held with the link to its node |
| `SkylinePacker.SeekCorner` | oss/stb/stb_rect_pack.h:417-421 | walks to the corner over a column and the node before it |
| `SkylinePacker.SearchRight` | oss/stb/stb_rect_pack.h:406-437 | after the pass the best of both kinds of candidates is held with the link to its node |
| `SkylinePacker.InsertNode` | oss/stb/stb_rect_pack.h:461-479 | takes the first free node, links it in behind the kept nodes and conserves the buffer |
| `SkylinePacker.FreeCovered` | oss/stb/stb_rect_pack.h:481-489 | moves exactly the covered nodes to the free list |
| `SkylinePacker.CloseGap` | oss/stb/stb_rect_pack.h:491-495 | links the new node to the rest and cuts the rest's first corner at the right edge |
| `SkylinePacker.SpliceIn` | oss/stb/stb_rect_pack.h:461-495 | the lists keep their shape and their corners become the placed skyline |
| `SkylinePacker.Packer.constructor` | oss/stb/stb_rect_pack.h:261-284 | an empty packer: floor and sentinel active, all n nodes free, alignment (w+n-1)/n |
| `SkylinePacker.Packer.SetupAllowOutOfMem` | oss/stb/stb_rect_pack.h:241-259 | alignment 1 or (w+n-1)/n, nothing else changes |
| `SkylinePacker.Packer.SetupHeuristic` | oss/stb/stb_rect_pack.h:229-239 | only the heuristic changes |
| `SkylinePacker.Packer.FindBestPos` | oss/stb/stb_rect_pack.h:343-443 | the position is the best tried and the link leads to its node; there is one if any fits |
| `SkylinePacker.Packer.PackRectangle` | oss/stb/stb_rect_pack.h:445-522 | succeeds exactly when a node is free and some tried position fits; then the rectangle is placed there; otherwise nothing changes; all invariants are kept |
| `SkylinePacker.Packer.Commit` | oss/stb/stb_rect_pack.h:461-495 | placing keeps the lists, the skyline and the safety of all rectangles packed so far |
| `SkylineBatch.SortInPlace` | oss/stb/stb_rect_pack.h:524-552 | the array becomes a sorted permutation of itself |
| `SkylineBatch.SortedBackInPlace` | oss/stb/stb_rect_pack.h:568-569 | sorting by the numbers given first restores the caller's order |
| `SkylineBatch.SettledIsSafe` | oss/stb/stb_rect_pack.h:554-566 | a settled rectangle lies inside the target and apart from all packed before the batch |
| `SkylineBatch.FreeWhenFewer` | oss/stb/stb_rect_pack.h:445-459 | a node is free exactly when the skyline has fewer corners than the buffer has nodes |
| `SkylineBatch.PackItem` | oss/stb/stb_rect_pack.h:554-566 | an empty rectangle goes to the origin; another goes to the position the search chooses exactly when a node is free and a position fits, and else is marked and changes nothing |
| `SkylineBatch.Number` | oss/stb/stb_rect_pack.h:546-549 | every rectangle is numbered by its place |
| `SkylineBatch.NumberAndSort` | oss/stb/stb_rect_pack.h:546-552 | the numbered rectangles stand in the order in which they are tried, by height and then width |
| `SkylineBatch.PackInOrder` | oss/stb/stb_rect_pack.h:554-566 | each rectangle in turn is packed where the packer would pack it on the skyline the ones before left, or fails exactly when it has no node or no room; the packer gains exactly those packed, in order |
| `SkylineBatch.SetFlags` | oss/stb/stb_rect_pack.h:571-579 | flags say which rectangles were packed, and the result whether all were |
| `SkylineBatch.Restore` | oss/stb/stb_rect_pack.h:568-580 | every rectangle returns to its place with the position it got, its flag says whether it was packed and the result whether all were |
| `SkylineBatch.PackRects` | oss/stb/stb_rect_pack.h:542-580 | the batch is one run of the packer over the rectangles, none before a taller one nor before a wider one as tall: the caller gets back, in the given order, exactly what that run gave each; flags and result are exact; packed rectangles are inside and apart |
| `SkylineCapacity.CornersBounded` | oss/stb/stb_rect_pack.h:141-149 | a skyline has at most one corner a column and the sentinel |
| `SkylineCapacity.WideEnough` | oss/stb/stb_rect_pack.h:141-149 | with as many nodes as columns the packer never runs out of nodes |
| `SkylineCapacity.OneRowSuffices` | oss/stb/stb_rect_pack.h:141-149 | in a target of one row nodes never run out when nodes and quantum together exceed the width |
| `SkylineCapacity.NoRowsSuffice` | oss/stb/stb_rect_pack.h:141-149 | in a target without rows nothing has room |
| `SkylineCapacity.RowRunsOut` | oss/stb/stb_rect_pack.h:141-149 | a row of unit squares uses every node up while one more still has room, with either heuristic |
| `SkylineCapacity.NodesSufficeExactlyWhenWide` | oss/stb/stb_rect_pack.h:141-149 | the documented promise that rounding widths suffices is false; for both heuristics and both settings of the quantum nodes run out never without rows, in a single row exactly when there are no more than columns outside the quantum, and otherwise exactly when there are fewer than columns |
| `IntervalTree.MakeInterval` | oss/interval_tree/IntervalTree.h:22-25 | the two ends in order |
| `IntervalTree.Partition` | oss/interval_tree/IntervalTree.h:166-188 | the loop deals intervals into those before, across and after the centre, each in order |
| `IntervalTree.PartsConserve` | oss/interval_tree/IntervalTree.h:166-188 | no interval is lost or doubled by the partition |
| `IntervalTree.SortByStart` | oss/interval_tree/IntervalTree.h:118-164 | a permutation sorted by start |
| `IntervalTree.Extent` | oss/interval_tree/IntervalTree.h:118-164 | the least start and the greatest stop |
| `IntervalTree.Build` | oss/interval_tree/IntervalTree.h:118-210 | the tree holds exactly the given intervals, at every node left stops < centre < right starts, and is at most as deep as asked |
| `IntervalTree.NearMissesNothing` | oss/interval_tree/IntervalTree.h:213-231 | visiting near a range finds every interval in the tree that passes a query about the range |
| `IntervalTree.QueriesMatchScan` | oss/interval_tree/IntervalTree.h:267-283 | both queries return, as multisets, what a scan of all intervals returns |
| `IntervalTree.BuildAndQuery` | oss/interval_tree/IntervalTree.h:118-283 | building and querying agrees with the scan for all lists, depths and bucket sizes: found are, as often as they were given, exactly the intervals that share a point with the range, and exactly those all of whose points lie in it |
| `IntervalTree.QueriesMean` | oss/interval_tree/IntervalTree.h:240-266 | an interval passes the two tests exactly when some point lies both in it and in the range, and when every point of it lies in the range |
| `ArgCommand.FindFlagOption` | argc/src/command/mod.rs:440-442 | the first flag or option declared that the name matches; none exactly when none matches |
| `ArgCommand.FindSubcommand` | argc/src/command/mod.rs:429-433 | the first subcommand declared with that name; none exactly when none has it |
| `ArgCommand.SplitOnce` | argc/src/matcher.rs:1500-1519 | the text around the first equals sign, none exactly when there is no equals sign |
| `ArgMatcher.TakesLongestRun` | argc/src/matcher.rs:1180-1201 | the values taken reach up to the first argument that ends them |
| `ArgMatcher.LongestRun` | argc/src/matcher.rs:1180-1201 | only that run is taken: a run bounded by the end, the limit or an ending argument is it |
| `ArgMatcher.TakeValueArgs` | argc/src/matcher.rs:1180-1201 | the loop takes the values of the specification |
| `ArgValues.SplitParts` | argc/src/matcher.rs:1236-1297 | a text divided at a delimiter is parts that do not hold it, and joined by it they are the text |
| `ArgValues.PartsOnce` | argc/src/matcher.rs:1236-1297 | and there is one such division |
| `ArgValues.OptionValuesOk` | argc/src/matcher.rs:1236-1297 | an occurrence takes the rest of the line if its parameter is terminated, nothing if its value is assigned, one argument or the value 1 after a prefix, and otherwise as many as it may have up to the next flag or the end; its values are those arguments divided at the delimiter |
| `ArgValues.ValuesOnce` | argc/src/matcher.rs:1236-1297 | no other values and no other number of arguments fit that description |
| `ArgWords.MatchedExactly` | argc/src/param.rs:451-482 | a name is a parameter's exactly when it is its id, or a declared name, with more after it only for a prefixed parameter |
| `ArgWords.FlagLikeExactly` | argc/src/matcher.rs:1500-1520 | an argument is taken for a flag exactly when it has one or two dashes, or one plus where a plus is declared, something after the sign and no space before its equals sign |
| `ArgWords.UsesPlusExactly` | argc/src/command/mod.rs:359-368 | a plus is in use exactly when some short name or long prefix begins with it |
| `ArgWords.ValuesEndExactly` | argc/src/matcher.rs:1180-1201 | values end exactly at what is taken for a flag, and at a bare sign being completed |
| `ArgWords.LetterExactly` | argc/src/matcher.rs:1203-1234 | a letter stands for the first parameter that has it, written with a dash, as a name |
| `ArgWords.ClusterExactly` | argc/src/matcher.rs:1203-1234 | combined letters are read exactly when combining is on, the argument does not begin with two dashes, and all letters are known: to the first subcommand that the first letter names, from the second letter on, or else to the command |
| `ArgWords.SymbolExactly` | argc/src/matcher.rs:1156-1163 | a symbol is one of the declared signs with anything after it |
| `ArgWords.BareExactly` | argc/src/matcher.rs:129-133 | an argument is positional without further ado exactly when the command declares nothing but positionals and it asks for neither help nor version |
| `ArgWords.DelegatedExactly` | argc/src/command/mod.rs:469-474 | a command is delegated exactly when a single positional that takes the rest is all it declares |
| `ArgWords.TakesRestExactly` | argc/src/matcher.rs:1165-1178 | the rest of the line is claimed when the last positional is terminated and at most it is left |
| `ArgMatcher.Cluster` | argc/src/matcher.rs:1203-1234 | read exactly when every letter stands for a flag or option of the command; then one entry a letter, in order, for what it stands for |
| `ArgMatcher.MatchCombineShorts` | argc/src/matcher.rs:1203-1234 | read exactly when combining is on and all letters are known, in the command or, after it, in the subcommand that the first letter names |
| `ArgMatcher.StepProgresses` | argc/src/matcher.rs:108-328 | every pass of the loop uses up an argument with one token, or descends to a child without using any |
| `ArgAccounts.MeantOnce` | argc/src/matcher.rs:108-328 | an argument looked at in a command is of one kind: an option before a subcommand's name, before combined letters, before a symbol, before the default subcommand; unknown only when none of these is there |
| `ArgAccounts.MeantSomething` | argc/src/matcher.rs:108-328 | and of some kind, or handed on to the default subcommand |
| `ArgRuns.FlagKeeps` | argc/src/matcher.rs:108-328 | a step on a dashed argument keeps the accounting |
| `ArgRuns.WordKeeps` | argc/src/matcher.rs:108-328 | a step on a plain word keeps the accounting |
| `ArgRuns.StepKeeps` | argc/src/matcher.rs:108-328 | every step keeps the accounting: its token is the one thing its argument means in the command it was looked at in |
| `ArgRuns.FinishHolds` | argc/src/matcher.rs:330-384 | the path ends where the tokens led, or at the default subcommand of a command given nothing |
| `ArgRuns.IterateEnds` | argc/src/matcher.rs:108-328 | the loop ends with every argument used, for every command tree and argument list |
| `ArgRuns.MatchedAccounts` | argc/src/matcher.rs:77-384 | the whole run accounts for the line |
| `ArgRuns.Match` | argc/src/matcher.rs:77-384 | the loop computes a result that accounts for the line: tokens cover every argument in order; each is the one thing its argument means in the command reached, with exactly the values it takes; positionals, symbols and the flags and options of each level are those of the tokens; the path goes on exactly where a token enters a subcommand or an argument is handed on; the rest of the line is positional exactly after a separator, in a delegated command or after the last positional but one of a command whose last takes the rest |
| `ArgUnique.OnlyAccount` | argc/src/matcher.rs:77-384 | a line has one account: commands, entries, positionals, symbols and tokens are determined |
| `ArgUnique.AccountedExactlyWhenMatched` | argc/src/matcher.rs:77-384 | a result accounts for a line exactly when it is the one the matcher returns |
| `ArgUnique.PathExplained` | argc/src/matcher.rs:77-384 | every command on the path was named by a token or is the default of the one before |
| `ArgUnique.OnlyPositionalsFollow` | argc/src/matcher.rs:108-328 | after a separator with arguments behind it, or a positional that takes over, every argument is positional |
| `ArgUnique.NothingNamedAfter` | argc/src/matcher.rs:108-328 | no subcommand is named after a positional |
| `ArgUnique.CoveredOnce` | argc/src/matcher.rs:77-384 | every argument after the program name belongs to one token and no other |
| `ArgUnique.NamedOnce` | argc/src/matcher.rs:77-384 | no command on the path is named twice |
| `ArgPositionals.MatchPositionals` | argc/src/matcher.rs:934-970 | the groups are the slices of the spans, never out of range |
| `ArgPositionals.BashMatchPositionals` | argc/src/build.rs:57-98 | the generated matcher computes the same spans, and reports the first argument too many |
| `ArgPositionals.DealtOutExactly` | argc/src/matcher.rs:934-970 | groups are non-empty and together are the arguments in order |
| `ArgPositionals.FirstVariadicTakesSurplus` | argc/src/matcher.rs:934-970 | with enough arguments the first variadic parameter takes all that the others do not need |
| `ArgPositionals.PlainTakeOneEach` | argc/src/matcher.rs:934-970 | without variadic parameters each takes one and the surplus is one more group |
| `ArgPositionals.ScarceTakeOneEach` | argc/src/matcher.rs:934-970 | with too few arguments the first parameters take one each |
| `ArgPositionals.DashDivides` | argc/src/matcher.rs:934-970 | two variadic parameters are divided at the `--` |
| `ArgPositionals.MatchAndDeal` | argc/src/matcher.rs:934-970 | the groups dealt out are non-empty and together exactly the positional arguments the matcher accounts for, in order |
| `TagRoundTrip.ChoicesRead` | argc/src/parser.rs:565-571 | rendered choices, quoted where needed, are read back |
| `TagRoundTrip.ChoicesDefaultRead` | argc/src/parser.rs:573-588 | rendered choices with a default are read back |
| `TagRoundTrip.DefaultReads` | argc/src/parser.rs:645-647 | a rendered default value is read back |
| `TagRoundTrip.QuoteReads` | argc/src/parser.rs:660-672 | text between double quotes that holds neither a double quote nor a backslash is read back as it stands |
| `TagQuotes.QuotedExactly` | argc/src/parser.rs:660-672 | text is read as quoted exactly when it stands between two quotes of one kind, single or double, and each backslash in it comes before such a quote and each such quote after a backslash |
| `TagQuotes.QuotedMisses` | argc/src/parser.rs:660-672 | and is not read as quoted exactly when it cannot be divided so |
| `TagQuotes.DefaultExactly` | argc/src/parser.rs:645-647 | a default is the quoted text, and without one everything up to the first white space |
| `TagQuotes.ChoiceExactly` | argc/src/parser.rs:652-657 | a choice is the quoted text, and without one everything up to the first bar or closing bracket; not after an equals sign or backquote |
| `TagQuotes.QuotedDefaultRead` | argc/src/parser.rs:645-672 | an option declared with a default in quotes of either kind has the text between them as its default and what follows as its description |
| `TagRoundTrip.ModifiedReads` | argc/src/parser.rs:429-464 | a name and its modifier are read back |
| `TagRoundTrip.NameValueReads` | argc/src/param.rs:832-855 | name, modifier, choices and default are read back by the first grammar rule that fits |
| `TagRoundTrip.EnvReads` | argc/src/parser.rs:714-730 | a rendered environment binding is read back |
| `TagRoundTrip.NotationsRead` | argc/src/parser.rs:542-559 | rendered notations with balanced brackets are read back |
| `TagRoundTrip.TailReads` | argc/src/parser.rs:590-596 | a trimmed description is read back |
| `TagRoundTrip.PositionalRoundTrip` | argc/src/param.rs:545-561 | the source of every well-formed positional parameter parses to it again |
| `TagRoundTrip.MarksKept` | argc/src/param.rs:127-144 | the marks rendered after an option's name are those it had, except that a name ending in `:-` gains a colon |
| `TagRoundTrip.OptionRoundTripExactly` | argc/src/param.rs:127-214 | the source of a well-formed option parses to it again exactly when its name does not end in `:-`, its one-character name is not followed by a description that reads as a long option, and its name does not begin with a dash that is taken for the prefix |
| `TagRoundTrip.MarkCanBeLost` | argc/src/param.rs:127-144 | an option named `a:-` is not read back |
| `TagRoundTrip.NameCanBeMistaken` | argc/src/parser.rs:229-290 | an option `-f` described as `--x` is read as something else |
| `TagRoundTrip.DashedReads` | argc/src/parser.rs:404-426 | a name that begins with a dash is read back after a plus, or alone after one dash when it is one dash or begins with two, and else with another prefix or short name |
| `TagRoundTrip.DashCanBeTaken` | argc/src/parser.rs:404-426 | an option named `-x` after one dash is read as `x` after two |
| `TagRoundTrip.ReadsSolo` | argc/src/parser.rs:260-290 | a one-character name is read by the rule without a long name unless its description misleads |
| `TagReading.PositionalWellRead` | argc/src/parser.rs:311-334 | whatever positional is read from a text is well-formed but for the texts of its values |
| `TagReading.PositionalReadAgain` | argc/src/param.rs:545-561 | so it is read again from its own source where those texts and the description are plain |
| `TagReading.OptionWellRead` | argc/src/parser.rs:229-290 | whatever option is read from a text is well-formed but for those texts, and no dash its name begins with could be the prefix's |
| `TagReading.OptionReadAgain` | argc/src/param.rs:127-214 | so it is read again from its own source where texts and description are plain, exactly when its name does not end in `:-` and is not mistaken for a short name |
| `TagSyntax.NameExactly` | argc/src/parser.rs:775-777 | a name is the longest run of ASCII letters and digits and the marks `_-.:@` |
| `TagSyntax.FnExactly` | argc/src/parser.rs:612-650 | a function is read exactly when a name without the listed marks stands between backquotes |
| `TagSyntax.EnvExactly` | argc/src/parser.rs:714-730 | a binding is a space and two dollar signs, or one and the longest run of capitals and underscores |
| `TagSyntax.MarkExactly` | argc/src/parser.rs:429-464 | the modifier is the longest mark that stands there: none, `!`, `~`, `*`, `+`, or one of the last two with a delimiter |
| `TagSyntax.PrefixExactly` | argc/src/parser.rs:404-426 | a prefix is `--`, `-` or `+`, with no further such sign after it |
| `TagSyntax.NotationExactly` | argc/src/parser.rs:542-559 | a notation is read exactly when text with properly nested angle brackets stands between two |
| `TagSyntax.TailExactly` | argc/src/parser.rs:590-596 | the description is what is left without white space around it, and must be set off by a space or tab |
| `TagSyntax.WrittenPositional` | argc/docs/specification.md:65-96 | every positional written in the documented form, with any modifier, default, choices, function, binding, notation and description, is read as the parameter described |
| `TagSyntax.WrittenOption` | argc/docs/specification.md:98-134 | so is every option with its short name, prefix and marks, exactly unless a description or a dash misleads |
| `VtWriter.RunsAreSessions` | src/host/VtIo.cpp:395-433 | every well-bracketed run of writers is a row of outermost sessions and one unfinished |
| `VtWriter.NothingSentWhileOpen` | src/host/VtIo.cpp:395-433 | while a writer is open the text is collected in order with one cursor save, and nothing is sent |
| `VtWriter.SessionSendsOneFrame` | src/host/VtIo.cpp:435-520 | a finished session hands its text to an open pipe as one frame, the restore last; nothing if a writer was not submitted or nothing was written |
| `VtWriter.SessionFate` | src/host/VtIo.cpp:435-520 | after a session the pipe is lost exactly when a pending write failed or this one broke it, which is told once; a write is pending exactly when the frame was handed over and not yet taken, and its text is then what the front buffer holds |
| `VtWriter.SessionsSendTheirFrames` | src/host/VtIo.cpp:435-520 | the frames sent are the first of the sessions' frames in order, all of them while the pipe is open |
| `VtWriter.RunsSendWholeFrames` | src/host/VtIo.cpp:395-529 | for every well-bracketed run exactly the finished sessions' frames have been handed over, on a pipe that no write breaks |
| `VtWriter.CloseRaisedOnce` | src/host/VtIo.cpp:446-520 | losing the pipe raises one close event however long the run |
| `VtWriter.VtIo.AwaitPending` | src/host/VtIo.cpp:446-457 | a pending write is over afterwards, well or with the pipe closed |
| `VtWriter.VtIo.SwapBuffers` | src/host/VtIo.cpp:459-460 | the front buffer changes only when no write is pending |
| `VtWriter.VtIo.Transmit` | src/host/VtIo.cpp:490-520 | the frame handed over stays the front buffer while its write is pending |
| `VtWriter.VtIo.FlushNow` | src/host/VtIo.cpp:435-520 | one flush, in the order of the program |
| `VtWriter.VtIo.Uncork` | src/host/VtIo.cpp:426-433 | flushes exactly when the last writer closes |
| `VtWriter.Writer.constructor` | src/host/VtIo.cpp:395-402 | one more writer is open |
| `VtWriter.Writer.Submit` | src/host/VtIo.cpp:420-424 | the writer lets go and closes as submitted |
| `VtWriter.Writer.Destroy` | src/host/VtIo.cpp:404-413 | a writer still holding its terminal spoils the session; another does nothing |
| `VtWriter.Writer.BackupCursor` | src/host/VtIo.cpp:522-529 | the cursor is saved once |
| `PtyLifecycle.ClosedAtMostOnce` | src/host/VtIo.cpp:262-284 | over every interleaving clients are told to close at most once, and never by a start-up or during one |
| `PtyLifecycle.ToldExactlyWhen` | src/host/VtIo.cpp:262-284 | over every interleaving clients are told exactly when a close event comes outside start-up |
| `PtyLifecycle.PhaseIsKnown` | src/host/VtIo.cpp:141-227 | the phase after any interleaving is told from its events |
| `PtyLifecycle.RunningExactlyWhenUndisturbed` | src/host/VtIo.cpp:141-227 | running is reached exactly when start-up needed no answer or resumed without a close event in its window |
| `PtyLifecycle.ConnectedExactlyWhen` | src/host/VtIo.cpp:204-213 | the signal thread is connected exactly when there is one and start-up got past its wait, or needed none |
| `PtyLifecycle.AskedExactly` | src/host/PtySignalInputThread.cpp:67-233 | what is asked for is exactly what was received, in order, but that of the signals before connecting only the last size and the last visibility are |
| `PtyLifecycle.SignalsAreKnown` | src/host/PtySignalInputThread.cpp:171-233 | before connecting only the last size and visibility are kept, afterwards all from the last before |
| `PtyLifecycle.LastResizeWins` | src/host/PtySignalInputThread.cpp:67-187 | once start-up is over, and a signal thread there, the size last asked for is the size last received, before or after connecting, or there is none of either; likewise visibility |
| `PtyLifecycle.SignalInput.DoResizeWindow` | src/host/PtySignalInputThread.cpp:171-187 | stashed before connecting, asked for after |
| `PtyLifecycle.SignalInput.DoShowHide` | src/host/PtySignalInputThread.cpp:212-233 | stashed before connecting, applied after |
| `PtyLifecycle.SignalInput.ConnectConsole` | src/host/PtySignalInputThread.cpp:67-78 | connects and applies what was stashed |
| `PtyLifecycle.VtIo.SendCloseEvent` | src/host/VtIo.cpp:262-284 | during start-up it fails, otherwise clients are told once |
| `PtyLifecycle.VtIo.StartIfNeeded` | src/host/VtIo.cpp:141-202 | start-up up to its wait |
| `PtyLifecycle.VtIo.FinishStart` | src/host/VtIo.cpp:204-227 | start-up after its wait: connects the signal thread, and runs unless closed meanwhile; ConnectedExactlyWhen and AskedExactly say what that means over every run |
| `CrlfTranslation.WriteTranslated` | src/host/VtIo.cpp:575-610 | the loop writes the translation |
| `CrlfTranslation.OriginalsKept` | src/host/VtIo.cpp:575-610 | deleting the added carriage returns gives back the input |
| `CrlfTranslation.TranslationPreservesMeaning` | src/host/VtIo.cpp:575-610 | on every terminal whose line feed only moves down the output acts as the input does where line feeds also return |
| `CrlfTranslation.PrefixByPrefix` | src/host/VtIo.cpp:575-610 | the same after every character of the input |
| `CrlfTranslation.CursorAgrees` | src/host/VtIo.cpp:575-610 | for a cursor on a page of any width |
| `CrlfTranslation.LineEndsAtStart` | src/host/VtIo.cpp:575-610 | the output for a line that fits and its line feed leaves the cursor at the start of the next row |
| `VtText.Sanitize` | src/host/VtIo.cpp:361-393 | never a control or surrogate, and printable characters are left as they are |
| `VtText.EncodeDecodes` | src/host/VtIo.cpp:634-661 | what is encoded decodes again by section 3 of RFC 3629, whatever follows |
| `VtText.DecodesOnlyEncodings` | src/host/VtIo.cpp:634-661 | and nothing but the encoding of a character decodes to it |
| `VtText.ReadsBack` | src/host/VtIo.cpp:634-667 | a terminal that reads the bytes by the numbers in the control sequences goes to exactly the row and column, takes exactly the colours and inversion, and shows exactly the characters, that were asked for |
| `VtText.PositionActs` | src/host/VtIo.cpp:664-667 | the sequence for column x and row y, both from 0, is read as row y + 1 and column x + 1 |
| `VtText.LookActs` | src/host/VtIo.cpp:299-338 | the sequence for a look is read as that look, whatever the one before |
| `CellRows.ConvertedIsPaired` | src/host/directio.cpp:343-412 | in every converted row leading and trailing flags stand only in adjacent pairs |
| `CellRows.ConvertedExactly` | src/host/directio.cpp:343-412 | the converted row is the one whose cells keep their attributes and hold the character of their byte, or of the pair they are half of, lead byte first; a lead byte cut off by the row's end is a blank |
| `CellRows.ConvertRow` | src/host/directio.cpp:343-412 | the inner loop converts one row in place and touches nothing else |
| `CellRows.ConvertCells` | src/host/directio.cpp:343-412 | all rows are converted in place, each paired, the cells after them untouched |
| `CellOutput.SliceOfPaired` | src/host/directio.cpp:543-557 | any horizontal slice of a paired row breaks pairs only at its ends |
| `CellOutput.WriteGlyphs` | src/host/VtIo.cpp:770-782 | a wide cell with a narrow replacement gets it twice |
| `CellOutput.WriteInfos` | src/host/VtIo.cpp:720-783 | a terminal that reads the bytes does exactly what the cells' pieces ask for, whatever the cells and its look before |
| `CellOutput.PiecesShowCells` | src/host/VtIo.cpp:720-783 | every character sent is printable; a slice of a paired row shows exactly one column a cell, each what its cell says in its attributes |
| `CellTerminal.TerminalShowsCells` | src/host/VtIo.cpp:720-783 | reading the bytes of a slice a terminal goes once, to the slice's place counted from 1, and shows exactly the glyphs of its columns, each in the look of its attributes |
| `CellBlocks.SliceOfRow` | src/host/directio.cpp:523-557 | each clipped row lies inside one row of the caller |
| `CellBlocks.SizeTestSufficesExactlyWhen` | src/host/directio.cpp:533-538 | every buffer that passes the size test holds the last row read exactly when no row is clipped at the top and the stride spans the area from the request's left edge |
| `CellBlocks.SizeTestCanPassTooFew` | src/host/directio.cpp:533-538 | one cell for a request of two rows of which the first is above the screen passes the test and is too few; from clients src/server/ApiDispatchers.cpp:929 rejects such a buffer before |
| `CellBlocks.WriteRows` | src/host/directio.cpp:503-573 | the clipped rows are sent top to bottom at their places; the error cases send nothing |
| `CellBlocks.WriteOutputA` | src/host/directio.cpp:575-605 | byte cells are converted and the part inside the buffer is drawn: for each of its rows, top to bottom, the terminal goes to the row's place and shows the cells that stand there in the request, also where clipping cuts a glyph, and does nothing else |
| `FillConsole.CharsPaired` | src/host/_output.cpp:134-198 | characters written in a row never split a wide glyph |
| `FillConsole.PaddingIsBlank` | src/host/_output.cpp:139-147 | padding is one blank in the last column, left for the wide glyph that comes next |
| `FillConsole.CharsSpell` | src/host/_output.cpp:134-198 | a row spells the input it took, then the padding |
| `FillConsole.RepaintsTheRest` | src/host/_output.cpp:112-133 | repainting keeps the character and the two flags, bits 8 and 9, and takes every other bit from the word |
| `FillConsole.RowFillMeans` | src/host/_output.cpp:101-206 | attributes leave the glyphs and recolour one cell a word; characters leave the colours and spell the input, each beyond ASCII and full width in two cells and every other in one |
| `FillConsole.FilledIsContiguous` | src/host/_output.cpp:101-208 | one contiguous run of cells from the start is replaced, and filling ends early only at the end of the buffer |
| `FillConsole.RunIsLines` | src/host/_output.cpp:101-208 | the run is the rows' cells one after another, none beginning or ending inside a glyph |
| `FillConsole.LinesSpellTheInput` | src/host/_output.cpp:101-208 | without padding the rows spell exactly the part of the input reported as read |
| `FillConsole.FilledPaints` | src/host/_output.cpp:112-133 | attributes are replaced cell by cell, characters and halves stay |
| `FillConsole.WriteChars` | src/host/_output.cpp:134-164 | the loop over characters fills one row |
| `FillConsole.FillChars` | src/host/_output.cpp:165-198 | filling with one character is writing it over and over |
| `FillConsole.WriteColours` | src/host/_output.cpp:112-133 | the loops over attributes fill one row |
| `FillConsole.Screen.FillRow` | src/host/_output.cpp:101-206 | one row is read, filled and written back |
| `FillConsole.Screen.FillConsole` | src/host/_output.cpp:66-208 | rows, count read and cells modified are those of the filling; outside the buffer nothing happens |
| `CommandHistory.SearchBack` | src/host/history.cpp:432-477 | the search finds the first match going back cyclically, and fails only if nothing matches |
| `CommandHistory.SearchIsComplete` | src/host/history.cpp:432-477 | from any index of the list the whole list is searched |
| `CommandHistory.FindFinds` | src/host/history.cpp:432-477 | the command found is the nearest that fits going back from where the search starts, which is the given command or the one before it |
| `CommandHistory.AddStores` | src/host/history.cpp:89-154 | adding keeps the invariant; a stored command is last and under the cursor |
| `CommandHistory.AddContents` | src/host/history.cpp:89-154 | the list loses its duplicate or, when full, its oldest command, and gains the new one at the end |
| `CommandHistory.AddMakesNewest` | src/host/history.cpp:89-154 | a stored command is the newest and under the cursor; with duplicates suppressed an equal one moves there and the others keep their order; otherwise a full list loses its oldest; nothing is stored for size zero, an empty command or a repeat |
| `CommandHistory.AddMovesCursor` | src/host/history.cpp:120-147 | the cursor stays with an equal command that is still there, moving up with it when the oldest goes, and else goes to the newest |
| `CommandHistory.FindForAdd` | src/host/history.cpp:111-118 | the search in Add finds a duplicate exactly when there is one and the cursor is on the list or the reset flag clear |
| `CommandHistory.SuppressionWorksExactlyWhen` | src/host/history.cpp:89-154 | a duplicate-free history stays so exactly unless a command that is stored, so neither empty nor a repeat of the newest, is in the list while the cursor is off it with the reset flag set |
| `CommandHistory.SuppressionCanFail` | src/host/history.cpp:408-428 | five calls after which a duplicate is stored although suppressed |
| `CommandHistory.ApplySound` | src/host/history.cpp:89-251 | every call keeps size, cursor and fullness in order |
| `CommandHistory.RunsStaySound` | src/host/history.cpp:89-500 | so does every run of calls |
| `CommandHistory.CommandHistory.FindMatchingCommand` | src/host/history.cpp:432-477 | the loop is the search; an index off the list ends it without a match |
| `CommandHistory.CommandHistory.Remove` | src/host/history.cpp:408-428 | the command is taken out and the cursor follows |
| `CommandHistory.RemoveKeepsOthers` | src/host/history.cpp:408-428 | the others keep their order, and the cursor stays on its command or leaves the list with it |
| `CommandHistory.CommandHistory.Store` | src/host/history.cpp:120-147 | the reads at the cursor are in range |
| `CommandHistory.CommandHistory.Add` | src/host/history.cpp:89-154 | fails exactly for size zero; otherwise the specified new history |
| `CommandHistory.CommandHistory.RetrieveNth` | src/host/history.cpp:194-204 | the cursor is clamped to the list and its command returned |
| `CommandHistory.CommandHistory.Retrieve` | src/host/history.cpp:170-192 | the new history is the one that RetrieveShows, GoingBackShows and StoredThenBack describe, and the command under its cursor is returned |
| `CommandHistory.RetrieveShows` | src/host/history.cpp:170-192 | going back shows the next older command, or the one under the cursor the first time after a reset, going forward the next newer; at either end the same again |
| `CommandHistory.RetrieveNthShows` | src/host/history.cpp:194-204 | asking by number shows that command, or the first or last for a number beyond |
| `CommandHistory.GoingBackShows` | src/host/history.cpp:170-192 | going back k times from the newest shows the commands in turn, and then the oldest again and again |
| `CommandHistory.StoredThenBack` | src/host/history.cpp:89-192 | after a command is stored with the cursor on it, going back shows it first and then the older ones in turn |
| `CommandHistory.CommandHistory.Realloc` | src/host/history.cpp:239-251 | the oldest commands are kept |
| `CommandHistory.ReallocKeepsOldest` | src/host/history.cpp:239-251 | as many as fit of the oldest, in order, with the cursor on the last of them |
| `CommandHistory.CommandHistory.Empty` | src/host/history.cpp:211-216 | nothing is left |
| `CommandHistory.EmptyForgets` | src/host/history.cpp:211-216 | no command is left, the cursor is off the list and the size stays |
| `CommandHistory.CommandHistory.Swap` | src/host/history.cpp:491-500 | two commands change places |
| `CommandHistory.SwapExchanges` | src/host/history.cpp:491-500 | exactly the two commands change places; an index off the list changes nothing |
| `HistoryPool.Pool.Find` | src/host/history.cpp:35-47 | the process's entry, always one in use, so the guarded failure is unreachable |
| `HistoryPool.Pool.Free` | src/host/history.cpp:53-61 | the process owns nothing afterwards, commands stay, nothing else changes |
| `HistoryPool.Pool.ResizeAll` | src/host/history.cpp:63-74 | every history takes the size in place |
| `HistoryPool.Pool.ReallocExeToFront` | src/host/history.cpp:253-266 | the first in use for the application takes the size and moves to the front |
| `HistoryPool.Pool.FindSameApp` | src/host/history.cpp:301-313 | the first free entry of the application |
| `HistoryPool.Pool.FindLeastRecent` | src/host/history.cpp:332-344 | the last free empty entry, else the last free one |
| `HistoryPool.Pool.Claim` | src/host/history.cpp:346-357 | a suitable entry as it is, any other emptied and renamed |
| `HistoryPool.Pool.AddNew` | src/host/history.cpp:317-327 | a new entry at the front |
| `HistoryPool.Pool.Allocate` | src/host/history.cpp:291-365 | the order of preference, the rest permuted unchanged, never more than the limit, none exactly when full and all in use |
| `DbcsStream.IsLeadByte` | src/host/dbcs.cpp:56-75 | a byte leads a pair exactly when some pair of the table before the first that begins with zero holds it between its two bytes |
| `DbcsStream.CheckBisect` | src/host/dbcs.cpp:23-47 | whether the text ends inside a pair |
| `DbcsStream.Output.WriteConsoleA` | src/host/_stream.cpp:479-611 | one call's wide text, kept lead byte and count |
| `DbcsStream.ReportsOwnBytes` | src/host/_stream.cpp:583-611 | each call reports exactly its own bytes |
| `DbcsStream.WriteDecodes` | src/host/_stream.cpp:479-553 | a call decodes the kept byte and its text and keeps a new half |
| `DbcsStream.ChunksDoNotMatter` | src/host/_stream.cpp:479-553 | over any division into calls the wide text is that of the whole |
| `DbcsStream.WholeTextComesOut` | src/host/_stream.cpp:479-553 | for well-formed text all of it, with nothing kept |
| `DbcsStream.DivisionShows` | src/host/_stream.cpp:494-523 | a trail byte below the space, cut off from its lead, comes out differently |
| `DbcsStream.IndependentExactlyWhenPrintable` | src/host/_stream.cpp:479-553 | the division does not matter exactly when all trail bytes are printable |

## Left out

- Operating system calls, pipes, threads and locks are parameters or steps: outcomes of writes, close events and signals come in any order.
- Code page conversion, glyph widths and the mapping of attribute words to colours are abstract functions.
- Text buffer, cell iterator and view port internals: the screen is a grid of cells and rectangles.
- SkylinePacker.Packer.constructor: heights of 2^30 and more are left out, the bound the search starts from; nodes are indexes into the caller's buffer.
- IntervalTree.Build: an empty list is excluded where the code would look for the middle of it; moving and copying trees and user-given extents beyond their sorting condition are not modelled.
- IntervalTree.BuildAndQuery: depth 0 is left out, where the code's unsigned counter wraps.
- ArgRuns.Match: completion hints, validation, choices from functions and symbols' functions are left out; they do not change what is matched.
- ArgPositionals.BashMatchPositionals: only the spans are compared; the two programs differ in splitting keys and delimiters.
- TagRoundTrip.PositionalRoundTrip: values that need quotes may not hold quotes or backslashes, since rendering does not escape them, and the description may not read as a binding or notation.
- TagRoundTrip.OptionRoundTripExactly: the same; the identifier and the notations shown to users are computed from the fields kept and not modelled.
- TagSyntax.WrittenPositional: values are written without quotes, quoted ones are those of `TagQuotes`; a description does not begin with a dollar sign or angle bracket.
- TagSyntax.WrittenOption: the same; the name before its marks does not end in a dash or colon.
- Flags, environment parameters, and the line structure of scripts around declarations.
- VtWriter.RunsSendWholeFrames: shrinking of large buffers is not modelled; bytes are characters.
- PtyLifecycle.RunningExactlyWhenUndisturbed: the pseudo window and device attributes are left out.
- CellBlocks.WriteRows: asks that the caller's cells reach the last clipped row; the code's size test alone does not ensure it, SizeTestSufficesExactlyWhen says when it does, and clients' buffers are checked before.
- CellOutput.PiecesShowCells: for cells whose flags are not paired the columns are not described.
- FillConsole.Screen.FillConsole: the output to the terminal of each row is that of `CellOutput`; the branch for screens without a terminal is left out.
- HistoryPool.Pool.Allocate: handles are fresh and not null, and the number of buffers does not change.
- DbcsStream.Output.WriteConsoleA: the UTF-8 path and failures of conversion are left out.
- Quoting of command line arguments, console aliases, shell completion and formatting, and the language-model clients: easier, or input and output.
