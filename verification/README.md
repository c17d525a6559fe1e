# A verified model of the C shell's core

This project models the parts of `bin/csh` that carry its logic and proves what they are for. Every
loop or in-place update of the shell is a method here, proved equal to a function of its inputs; the
laws are lemmas about those functions, for all inputs. `dafny verify dfyconfig.toml` covers all files.

- **Control flow by re-seeking** (`Script*.dfy`, from `func.c`). csh never parses a loop or an
  if-block. It runs one line, keeps a stack of active loops, and moves the input position with
  `search`, `toend`, `doagain` and `wfree`. A script is a sequence of classified lines; position `2*i`
  is the start of line `i`, `2*i+1` the rest of an `else` line. Commands, tests, word lists and pattern
  matches are arbitrary functions on a store. The main result is an if-and-only-if: the line machine
  stops past the script with a store exactly when the structured meaning ends with it. Beside it stand
  where `search` stops, where every line of any well-nested script goes on and when it cannot, said by the
  nesting alone, and the exact runs in which the loop stack is the loops open at the position.
- **Parser and tree walk** (`Command*.dfy`, from `parse.c` and `sem.c`). Recursive descent over word
  ranges, splitting at the first operator at paren depth 0. The words it accepts are exactly those of
  the grammar's trees, and it returns the tree they print, in the code's normal form; malformed commands
  give the error of their first fault. Walking the tree of a line starts exactly the commands of the line's
  meaning, in order, with their plumbing and the final status. `syn3`'s argument vector never overflows, the
  alias pass keeps a group's end from getting lost and lets through an exactly known set of lines, and
  leaving out forks (`F_NOFORK`) never shows in what runs.
- **Braces and patterns** (`Glob*.dfy`, from `glob.c`). `expbrace` is a worklist on a growing vector
  that looks again at its own output. Its result is the ordered cross product of the groups, with the
  exact exception, and unclosed words fail as their text says. `pmatch` and `Gmatch` have an exact law on
  every string and pattern, with the patterns on which they decide the documented language; a pattern written
  out piece by piece matches what its pieces stand for.
- **Directories** (`Dir*.dfy`, from `dir.c`). `dcanon` rewrites a path in its buffer; `pushd`, `popd`
  and `cd` relink a ring with a sentinel. The path becomes the stack normal form of its components, and
  the ring is a plain list under every session.
- **Buffered input** (`InputBuffer.dfy`, from `lex.c`). Two buffering modes, seeks and trims, against a
  plain reader of the bytes, however `read` splits its chunks, and where a `goto` then starts to search.
- **Expressions** (`Expr*.dfy`, from `exp.c` and `set.c`). One cursor, ten levels that group to the
  right, and a mode that only parses. Printing any tree of words, file tests, commands in braces and
  operators, and evaluating the words, gives the tree's value or its error. Operators are said by what they
  compute: residues, truncated quotients, bits.
- **Command hash** (`ExecHash.dfy`, from `exec.c`). A bit table that must not change a path search.

What the code does that its shape or its comments would not suggest, each with a lemma:

- A `foreach` and a `while` on its first body line start at the same position, so active loops are
  strictly nested by their ends only (`ScriptGoto.SameStart`, `ScriptGoto.EndsNest`).
- A `goto` into a loop does not make the loop active (`ScriptGoto.GotoEntersLoop`).
- `breaksw` out of loops pops one loop for each `end` on its way that stands at its own loop depth. So it
  may leave a loop active, pop all it leaves, or pop a loop it stays in (`ScriptBreaksw.BreakswJumps`,
  `BreakswLeavesLoop`, `BreakswPopsBoth`, `BreakswPopsOuter`).
- `a ; b &` puts both commands in the background, because `&` binds looser than `;`
  (`CommandRoundTrip.PrintThenParse`).
- `a ; && b` is `a ; b`: after a separator, words that start like one are skipped
  (`CommandSound.SkippedAnd`).
- The comment above `syn3` lists `test` among the words whose parentheses are arguments; the code does
  not treat it so (`CommandSound.TestIsNoKeyword`).
- A redirection may swallow a closing parenthesis and leave a call of `syn3` with an open group. The
  alias pass stops such words before the parser sees them (`CommandTotal.StrayCloseSticks`,
  `CommandAlias.StrayCloseStopped`, `CommandAlias.PassedNeverStuck`), and balanced groups in a row with
  them (`CommandAlias.TwoGroupsStopped`).
- `{}` is left alone wherever the rewriting meets it as a whole word, so `{{}}` and `{}{}` give `{}`
  (`GlobProduct.BareGroupsStay`).
- Two stars at the end of a pattern need a character, `*^x` negates `x`, and a negated class takes the
  end of the string for a character (`GlobLanguage.TwoStarsFail`, `StarCaretNegates`,
  `NegatedClassOverruns`).
- `dcanon` leaves `/.` as it is (`DirCanon.DotStays`), so at the root the name `.` resolved first and
  `.` appended lead to different names (`DirNormalize.DotAtRootDiffers`). On a path such as `/usr/` it
  looks at the cell after the terminator (`DirBuffer.DCanon`, `DirCanon.UsrReaches`).
- In block mode a `goto` searches from the first block that is kept, which after a trim need not be the
  start of the script (`InputBuffer.GotoAfterTrim`).
- A directory that can be searched but not read hides its commands behind the hash
  (`ExecHash.UnreadableLoses`).

## Model

| member | source | states |
|---|---|---|
| ScriptSearch.SearchFindsPartner | bin/csh/func.c:593-690 | from any point inside a block of a well-nested script, search stops exactly at the first partner of that block at its own level, and at nothing more deeply nested before it |
| ScriptSearch.ScanKeepsLevel | bin/csh/func.c:593-690 | while scanning, search's level and wlevel count exactly the blocks opened and not yet closed since the start |
| ScriptSearch.PartnerIsTarget | bin/csh/func.c:593-690 | a partner stands directly in its own block: nothing opened later is still open there |
| ScriptSearch.ClosedOnce | bin/csh/func.c:593-690 | two lines that close the same loop are the same line |
| ScriptMachine.SearchKeepsLoops | bin/csh/func.c:593-690 | only a breaksw search changes the loop stack, and every search moves forward |
| ScriptMachine.Interpreter.SearchFor | bin/csh/func.c:593-690 | the whole loop finds the specified position and leaves the specified loop stack |
| ScriptMachine.Interpreter.FreeLoops | bin/csh/func.c:824-854 | wfree pops loops from the top until one contains the position |
| ScriptMachine.Interpreter.GoToEnd | bin/csh/func.c:811-821 | toend goes just past the end of the top loop, searching for it only if unknown, and pops what it left |
| ScriptMachine.Interpreter.GoToLabel | bin/csh/func.c:323-342 | gotolab fills in all loop ends, finds the label from the start and frees the loops it left |
| ScriptSimulation.SkipBlock | bin/csh/func.c:593-690 | a search passes over a complete block with the same counters and loop stack |
| ScriptSimulation.ToEndExits | bin/csh/func.c:811-854 | leaving a loop ends just past its end line with the outer loops only |
| ScriptSimulation.AgainTurns | bin/csh/func.c:514-532 | a further turn goes back to the loop's start with the same stack, one word shorter for a foreach |
| ScriptTheorem.SimWhile | bin/csh/func.c:435-532 | the line machine simulates a structured while, with break and continue in its body |
| ScriptTheorem.SimForeach | bin/csh/func.c:394-532 | the line machine simulates a structured foreach over any word list |
| ScriptTheorem.SimIf | bin/csh/func.c:255-310 | the line machine simulates if, else-if and else chains |
| ScriptTheorem.SimSwitch | bin/csh/func.c:346-360 | the line machine simulates switch with fall-through and breaksw |
| ScriptTheorem.ScriptRuns | bin/csh/func.c:255-532 | for every legal structured script: a terminating meaning is reached past the last line with an empty loop stack, and a longer one keeps the machine running at least as long |
| ScriptTheorem.ScriptMeansWhatItRuns | bin/csh/func.c:255-854 | the machine stops past the script with a store if and only if the structured meaning ends with that store |
| ScriptRunner.RunScript | bin/csh/csh.c:1006-1125 | the command loop over the text of a structured script whose meaning ends: no line fails, no loop stays active, and the store is the meaning's |
| ScriptGoto.EndsFound | bin/csh/func.c:323-342 | the first part of gotolab finds the true end of every active loop |
| ScriptGoto.EndsNest | bin/csh/func.c:323-342 | active loops with known ends lie inside one another, each end strictly before the next |
| ScriptGoto.GotoKeepsContaining | bin/csh/func.c:323-342 | after a goto the loop stack is exactly the suffix of the old one whose intervals contain the target |
| ScriptGoto.GotoInv | bin/csh/func.c:323-342 | a goto leaves the active loops equal to the open loops if and only if it jumps into no loop that is not active |
| ScriptGoto.SameStart | bin/csh/func.c:394-474 | in a script with a while on the first body line of a foreach, once both are active they start at the same position |
| ScriptGoto.GotoEntersLoop | bin/csh/func.c:323-342 | a goto into a loop: the loop is not active there, and its end fails |
| ScriptStep.GotoFinds | bin/csh/func.c:323-342 | on a well-nested script a goto succeeds if and only if its label is in the text, before or behind, and goes to the line after the first one |
| ScriptStep.GotoDoes | bin/csh/func.c:323-342 | the loops still active then are those open at the target, or the while on that line, with their true ends |
| ScriptStep.StepGoes | bin/csh/func.c:255-854 | one step of any well-nested script, from a state whose loops are the open ones: it fails if and only if the input is used up or a break, continue, breaksw or goto has nowhere to go, and otherwise its position, loops and store are those the nesting gives |
| ScriptStep.RunsToTheEnd | bin/csh/func.c:255-854 | if every such command of the text has somewhere to go and keeps the invariant, a run stops only past the last line, with no loop active |
| ScriptLoops.ToEndPops | bin/csh/func.c:364-370 | break: from any line of a well-nested script, leaving the innermost active loop goes to the line after that loop's own end and pops that loop and no other |
| ScriptLoops.AgainKeeps | bin/csh/func.c:506-532 | continue and the next turn of a loop succeed and leave the active loops equal to the open ones, with words left or without |
| ScriptInvariant.EndKeeps | bin/csh/func.c:496-502 | so does end, on the line where the loop really ends |
| ScriptInvariant.ForeachKeeps | bin/csh/func.c:394-431 | so does foreach, also over no words |
| ScriptInvariant.WhileKeeps | bin/csh/func.c:435-474 | so does while, met for the first time or again, with a true or a false test |
| ScriptInvariant.BranchKeeps | bin/csh/func.c:255-360 | if, else and switch always find where to go on and leave the active loops equal to the open ones |
| ScriptBreaksw.BreakswJumps | bin/csh/func.c:560-690 | breaksw goes past the endsw of the innermost switch, and pops one loop for each end on the way that stands at its own loop depth |
| ScriptBreaksw.BreakswFails | bin/csh/func.c:560-690 | outside every switch breaksw finds nothing |
| ScriptBreaksw.BreakswInv | bin/csh/func.c:560-690 | it leaves the active loops equal to the open loops if and only if those ends are as many as the loops it leaves |
| ScriptBreaksw.SwitchFirstPopsRight | bin/csh/func.c:560-690 | this is so whenever no loop is left |
| ScriptBreaksw.BreakswPopsBoth | bin/csh/func.c:560-690 | with a complete loop between the ends of two loops it pops both, and the invariant holds |
| ScriptBreaksw.BreakswPopsOuter | bin/csh/func.c:560-690 | with a complete loop behind the loop it leaves it also pops the loop around the switch, whose end then fails |
| ScriptInvariant.SimpleInv | bin/csh/func.c:314-370 | a simple command keeps the active loops equal to the open ones if and only if it is no breaksw that pops too few or too many and no goto into a loop that is not active |
| ScriptInvariant.StepInv | bin/csh/func.c:255-854 | on any well-nested script, a step keeps them equal if and only if it carries out no such command |
| ScriptInvariant.RunInv | bin/csh/func.c:255-854 | they are equal in every state of a run if and only if every command the run carries out is of the first kind |
| ScriptInvariant.RunKeepsInv | bin/csh/func.c:255-854 | if all commands in the text are, this holds for every run |
| ScriptBreaksw.BreakswLeavesLoop | bin/csh/func.c:560-690 | with nothing between the ends of two loops one of them stays active |
| ScriptNesting.StructuredRunsKeepInv | bin/csh/func.c:811-854 | in every state a structured script reaches, the active loops are the loops open at the position |
| CommandParser.CountNotNegative | bin/csh/parse.c:476-513 | syn3's word count is never negative over any range |
| CommandParser.KeptFits | bin/csh/parse.c:476-597 | the words the second pass stores never exceed the count of the first, whatever redirections and errors occur |
| CommandParser.CountWords | bin/csh/parse.c:476-513 | the counting loop returns the specified count |
| CommandCount.CountIs | bin/csh/parse.c:476-513 | the count of a command made of words, arguments in parentheses and redirections: its words, and one for each & and ! of an output redirection |
| CommandParser.Builder.Turn | bin/csh/parse.c:514-597 | one turn of the gathering loop, writing into the fixed argument array, is the specified step and stays in bounds |
| CommandParser.Builder.RedirectOut | bin/csh/parse.c:536-563 | output redirections, with their flags and errors, as specified |
| CommandParser.Builder.RedirectIn | bin/csh/parse.c:564-584 | input redirections likewise |
| CommandParser.GatherWords | bin/csh/parse.c:514-597 | the whole second loop fills the array with exactly the specified words, with room for the terminator |
| CommandParser.FindAmp | bin/csh/parse.c:231-284 | syn0's loop finds the first background operator outside parentheses, or the final depth |
| CommandParser.FindOp | bin/csh/parse.c:292-434 | the loops of syn1, syn1a, syn1b and syn2 find the first operator at depth 0 |
| CommandParser.ParseSyntax | bin/csh/parse.c:215-223 | syntax on a range of the word list gives the specified tree and error |
| CommandParser.ParseSyn3 | bin/csh/parse.c:447-610 | syn3 on a range of the word list gives the specified node and error |
| CommandRoundTrip.Parse3 | bin/csh/parse.c:447-610 | a printed simple command or group parses to its node without error |
| CommandRoundTrip.Parse2 | bin/csh/parse.c:401-434 | a printed pipeline parses to its tree, with piped error output marked |
| CommandRoundTrip.Parse1a | bin/csh/parse.c:328-392 | printed chains of conditional commands parse to their trees |
| CommandRoundTrip.PrintThenParse | bin/csh/parse.c:215-610 | the words of any well-formed tree, after any separators and with the final newline, parse without error to the tree in the code's normal form |
| CommandRoundTrip.AmpMarks | bin/csh/parse.c:254-268 | what an & sends to the background is its own marked node if it is one command, group or pipeline, and a marked group around it otherwise |
| CommandRoundTrip.LeadsIsSpecial | bin/csh/parse.c:447-474 | parentheses are arguments exactly behind the seven keywords, with any number of else before them |
| CommandSound.ParsesExactly | bin/csh/parse.c:215-610 | words as lex.c:256-330 makes them parse without error if and only if they are separators, followed by nothing or by the words of a well-formed tree, and the result is then that tree's |
| CommandSound.Find3 | bin/csh/parse.c:447-610 | whatever syn3 accepts is a list of words and redirections that keeps its rules, or one parenthesised list among redirections |
| CommandSound.Find0 | bin/csh/parse.c:231-284 | whatever syn0 accepts is printed by some well-formed tree |
| CommandSound.Kept0 | bin/csh/parse.c:231-610 | an error once set is the one reported, unless a group loses its end |
| CommandErrors.FaultReported | bin/csh/parse.c:536-584 | the first faulty redirection of a command gives its error, one for each kind of fault, whatever follows it |
| CommandErrors.NothingToRun | bin/csh/parse.c:602-607 | redirections alone, or nothing, are a null command |
| CommandErrors.WordsByGroup | bin/csh/parse.c:595-601 | words next to a parenthesised list are misplaced |
| CommandErrors.SecondGroup | bin/csh/parse.c:519-530 | so is a second list |
| CommandErrors.ParensReported | bin/csh/parse.c:231-284 | a line without & that leaves parentheses open has too many ( and no tree; one that closes too many has too many ) |
| CommandSound.SkippedAnd | bin/csh/parse.c:215-223 | `a ; && b` parses to the tree of `a ; b` |
| CommandSound.TestIsNoKeyword | bin/csh/parse.c:447-474 | parentheses after test are a misplaced list |
| CommandTotal.NeverStuck | bin/csh/parse.c:231-610 | on words whose parentheses never close more than they opened, syn3 always has both ends of the group it descends into |
| CommandTotal.StrayCloseSticks | bin/csh/parse.c:514-605 | a call of syn3 on other words can leave a group without its end; no command line leads to this call |
| CommandAlias.AliasList | bin/csh/parse.c:103-136 | asyn0's loop, its cuts and its recursion through asyn3 and asyntax end as specified |
| CommandAlias.FindLastClose | bin/csh/parse.c:147-152 | the backward loop finds the last closing parenthesis |
| CommandAlias.PassWalks | bin/csh/parse.c:91-160 | words that get through the alias pass never close more parentheses than they opened |
| CommandAlias.PassedNeverStuck | bin/csh/parse.c:91-610 | so on every word list that gets through it, syn3 always has both ends of the group it descends into |
| CommandAlias.StrayCloseStopped | bin/csh/parse.c:103-136 | the alias pass stops the words of StrayCloseSticks |
| CommandAlias.TwoGroupsStopped | bin/csh/parse.c:139-160 | it also stops two balanced groups in a row |
| CommandPieces.PassesExactly | bin/csh/parse.c:91-160 | a line of paired words passes if and only if no command in it, at any depth the pass looks into, starts with a group and has another one |
| CommandPieces.OpenPasses | bin/csh/parse.c:103-136 | a last command whose parenthesis stays open passes unseen |
| CommandAccepted.WellFormedPasses | bin/csh/parse.c:91-160 | the words of every well-formed line, after any separators and with the final newline, pass |
| CommandExec.NoForkIsInvisible | bin/csh/sem.c:62-437 | if NoFork stands only where nothing runs afterwards, the commands run, their plumbing and the status are those of the tree in which everything is forked |
| CommandExec.GoodSyntax | bin/csh/parse.c:515-603 | in every tree syntax returns, NoFork marks only last commands of parenthesised lists, and no last command is in the background |
| CommandExec.ParsedTreesRun | bin/csh/sem.c:395-437 | for every word list: running the parsed tree loses no command, with or without NoFork on the root, and without it the shell survives |
| CommandMeaning.LineMeans | bin/csh/sem.c:62-437 | for every well-formed line: walking its tree starts exactly the commands of its meaning, in order and with their plumbing, and ends with its status; && runs its right side if and only if the left one succeeds, the double bar if and only if it fails, a pipe and a list run both sides |
| CommandMeaning.MeansBody | bin/csh/sem.c:191-393 | likewise for the list of a group, whose last command, unless it is a builtin or followed by a separator, uses up the group's process |
| CommandMeaning.MeansAmp | bin/csh/sem.c:191-393 | what stands before an & runs with the plumbing of the background, and its status is 0 |
| CommandMeaning.RunLine | bin/csh/sem.c:62-437 | the shell's own walk does this |
| GlobBraces.PiecesInside | bin/csh/glob.c:141-208 | globbrace's two loops walk in step: the second finds at least one alternative and all lie inside the group |
| GlobBraces.GlobBraceShrinks | bin/csh/glob.c:127-212 | every word globbrace makes is shorter and has fewer open braces |
| GlobBraces.ExpandFinal | bin/csh/glob.c:215-275 | every word of the final list has no open brace or is exactly { or {} |
| GlobBraces.StepsDown | bin/csh/glob.c:215-275 | the worklist's measure over the pending words falls with every replacement |
| GlobBraces.ExpandAllAppend | bin/csh/glob.c:215-275 | words expand independently and in order, and the first error wins |
| GlobWorklist.FindClose | bin/csh/glob.c:141-163 | the first loop finds the matching brace, or what is missing |
| GlobWorklist.Alternatives | bin/csh/glob.c:165-208 | the second loop collects the specified words |
| GlobWorklist.SplitGroup | bin/csh/glob.c:127-212 | globbrace returns the specified words or error |
| GlobWorklist.Shift | bin/csh/glob.c:262-263 | the tail of the vector, terminator included, moves up in place |
| GlobWorklist.Splice | bin/csh/glob.c:259-268 | a word gives way to its alternatives and the rest of the vector is kept |
| GlobWorklist.ExpBrace | bin/csh/glob.c:215-275 | from any vector and capacity, all accesses stay in bounds and the vector ends up holding exactly the expansion, or the first missing character is reported |
| GlobProduct.SplitAlts | bin/csh/glob.c:141-208 | a printed group falls apart into exactly its alternatives, whatever is nested in them |
| GlobProduct.CrossFirstGroup | bin/csh/glob.c:127-212 | choosing an alternative of the first group first keeps the cross product and its order |
| GlobProduct.ExpandPrinted | bin/csh/glob.c:215-275 | expanding a printed word never fails; it gives the cross product, or keeps {} where the rewriting meets it |
| GlobProduct.ExpansionIsCrossProduct | bin/csh/glob.c:126-275 | the expansion is the ordered cross product if and only if the word does not end in a bare {} behind parts that can vanish |
| GlobProduct.NestedGroupsExpand | bin/csh/glob.c:126-275 | for every nesting of groups none of which is {}, the expansion is the ordered cross product |
| GlobProduct.BareGroupsStay | bin/csh/glob.c:126-275 | {{}} and {}{} both expand to {} |
| GlobErrors.UnclosedReported | bin/csh/glob.c:141-163 | a word with any number of braces left open fails for a missing brace, or for a missing bracket if one stands open behind them |
| GlobErrors.BareWords | bin/csh/glob.c:215-275 | { and {} are left as they are |
| GlobErrors.FirstFails | bin/csh/glob.c:215-275 | of several words the first that fails gives the error |
| GlobMatch.ScanClass | bin/csh/glob.c:843-862 | the class loop finds the closing bracket and decides membership |
| GlobMatch.MatchWord | bin/csh/glob.c:821-872 | pmatch's loop over both pointers gives the specified answer |
| GlobMatch.Match | bin/csh/glob.c:793-818 | Gmatch, expanding into a vector and trying every word, gives the specified answer |
| GlobReading.PMatchLaw | bin/csh/glob.c:821-872 | pmatch on every string and every expanded word: the exact strings on which it fails and how, and the answer on all others |
| GlobReading.StarFreeOverruns | bin/csh/glob.c:843-862 | without stars and open classes, pmatch reads past the end if and only if what stands before some negated class uses the string up |
| GlobReading.SuffixFails | bin/csh/glob.c:836-842 | after a star, exactly when some non-empty suffix does so before a longer one gave the wanted answer |
| GlobReading.GuardedAnswers | bin/csh/glob.c:836-862 | it never does when a star stands directly before every negated class |
| GlobReading.GMatchLaw | bin/csh/glob.c:793-872 | Gmatch on every string and every pattern: what its braces lack, the first failure among its expansions, or whether some expansion accepts, inverted by a leading caret |
| GlobLanguage.AcceptsStrict | bin/csh/glob.c:821-872 | without star-carets the accepted strings are the pattern's language, two stars at the end taking one character at least |
| GlobLanguage.AnswersAgree | bin/csh/glob.c:793-872 | for every pattern, the answers are those of its language if and only if no star is directly followed by a caret and no two stars end it, or, when some class takes no character at all, if and only if the code accepts nothing |
| GlobLanguage.AlwaysAnswers | bin/csh/glob.c:836-862 | for every pattern, pmatch answers on every string if and only if no open class, and no negated one without a star directly before it, stands behind a prefix that some string matches |
| GlobLanguage.MatchesLanguage | bin/csh/glob.c:821-872 | for every pattern, pmatch decides the language on every string if and only if it always answers and agrees as in AnswersAgree; when every class takes some character, if and only if the pattern has no star-caret, no two stars at its end and a star directly before every negated class |
| GlobLanguage.GMatchIsLanguage | bin/csh/glob.c:793-872 | without star-carets, on every string on which no expansion fails, Gmatch is true exactly when the string is in the language of some expansion, inverted by a leading caret |
| GlobReading.GMatchGroups | bin/csh/glob.c:793-872 | with groups written out: the first failure among the choices of alternatives, or whether some choice accepts |
| GlobLanguage.GMatchAnswers | bin/csh/glob.c:793-872 | for every pattern, Gmatch answers on every string if and only if its braces are closed and every expansion always answers |
| GlobLanguage.GMatchDecides | bin/csh/glob.c:793-872 | without star-carets Gmatch gives the answers of the languages, two stars at an end taking one character at least, on every string if and only if every expansion always answers |
| GlobLanguage.GMatchesLanguage | bin/csh/glob.c:793-872 | and those of the documented languages if and only if, besides, whatever an expansion with two stars at its end matches without them is accepted by some expansion |
| GlobLanguage.StarsAtEnd | bin/csh/glob.c:836-842 | without star-carets the code accepts the language if and only if no two stars end the pattern or nothing is in the language |
| GlobMatch.QuotedMatchesItself | bin/csh/glob.c:793-872 | a fully quoted pattern matches its own text and nothing else |
| GlobMatch.ClassMeaning | bin/csh/glob.c:843-862 | a class accepts exactly its listed characters and ranges |
| GlobPattern.PatternMeans | bin/csh/glob.c:793-872 | a pattern of letters, question marks, asterisks and classes matches exactly the strings its pieces stand for, inverted by a caret in front; it always answers when asterisks stand before its negated classes |
| GlobPattern.QuotedText | bin/csh/glob.c:821-872 | quoted text matches a plain string if and only if they are equal |
| GlobPattern.LiteralText | bin/csh/glob.c:821-872 | so does a pattern without special characters |
| GlobPattern.RangeText | bin/csh/glob.c:843-862 | a class of one range takes exactly the characters from its first to its last, or, negated, all others |
| GlobLanguage.TwoStarsFail | bin/csh/glob.c:836-842 | a** does not match a |
| GlobLanguage.StarCaretNegates | bin/csh/glob.c:802-842 | *^a matches b |
| GlobLanguage.NegatedClassOverruns | bin/csh/glob.c:843-862 | a negated class at the end of the string reads on past it; behind a star it always answers |
| DirCanon.CanonIsNormal | bin/csh/dir.c:639-836 | from any canonical front, dcanon's path is the join of the normalised components, or /. for a last dot at the root |
| DirCanon.CanonLaw | bin/csh/dir.c:639-836 | for every absolute path the result is the normal form if and only if the path does not end in a dot with nothing kept before it |
| DirCanon.CanonIsCanonical | bin/csh/dir.c:639-836 | the result has no empty, . or .. component, and canonicalising again changes nothing |
| DirCanon.DotStays | bin/csh/dir.c:639-836 | dcanon leaves /. as it is |
| DirCanon.ReachesLaw | bin/csh/dir.c:639-656 | the loop looks at the cell after the terminator if and only if the path is made of proper names, one slash before each, and a last slash |
| DirCanon.UsrReaches | bin/csh/dir.c:639-656 | on /usr/ it does |
| DirBuffer.CopyDown | bin/csh/dir.c:644-645 | the overlapping copy moves the text and its terminator down and nothing else |
| DirBuffer.Flush | bin/csh/dir.c:640-645 | extra slashes are closed up in place |
| DirBuffer.FindEnd | bin/csh/dir.c:646-653 | the scan for the end of a component stays inside the buffer, also behind an empty one, and goes past the original terminator exactly when the component starts there |
| DirBuffer.DotDotComponent | bin/csh/dir.c:669-757 | .. takes the previous name out of the buffer, or nothing at the root |
| DirBuffer.DCanon | bin/csh/dir.c:610-836 | the in-place loop terminates, stays in the buffer and leaves exactly the canonical path; it looks at the one cell after the terminator if and only if the path ends as in ReachesLaw |
| DirNormalize.DNormalize | bin/csh/dir.c:268-327 | dnormalize's loops return the resolved name |
| DirNormalize.ResolvedNormal | bin/csh/dir.c:268-327 | the resolved name and the plain concatenation have the same normal form, for any number of leading . and .. |
| DirNormalize.DotsRead | bin/csh/dir.c:285-306 | leading . and .. components are taken off and the latter counted, and nothing else is |
| DirNormalize.ResolvedIs | bin/csh/dir.c:268-327 | the resolved name as a string: what is left of the directory after as many names as there are .., and the rest of the name |
| DirNormalize.ResolveThenCanon | bin/csh/dir.c:268-327 | canonicalising both gives the same path, unless the name is only dots, ends in . and leads to the root |
| DirNormalize.DotAtRootDiffers | bin/csh/dir.c:268-327 | at the root the name . resolves to /, and the concatenation canonicalises to /. |
| DirNormalize.DGoto | bin/csh/dir.c:376-408 | the new directory name is the canonical path of directory, slash and name, and dcanon looks past what dgoto allocates if and only if the name's part of the path is proper names and a last slash |
| DirRing.Ring.Unlink | bin/csh/dir.c:492-493 | taking an entry out leaves a well-formed ring without it |
| DirRing.Ring.Link | bin/csh/dir.c:494-497 | putting an entry in leaves a well-formed ring with it in that place |
| DirRing.Ring.DFind | bin/csh/dir.c:526-548 | +n is entry n of the list, or the stack is not that deep |
| DirRing.Ring.DoPushd | bin/csh/dir.c:477-520 | pushd swaps, rotates or prepends on the list, and changes nothing when it complains |
| DirRing.Ring.DoPopd | bin/csh/dir.c:556-586 | popd drops the head or entry n of the list, and changes nothing when it complains |
| DirRing.Ring.DoCd | bin/csh/dir.c:334-373 | cd replaces the head, or drops it and rotates |
| DirRing.Ring.Run | bin/csh/dir.c:334-586 | every session leaves a well-formed ring holding exactly the list its commands describe |
| DirRing.StackInverses | bin/csh/dir.c:477-586 | popd undoes pushd, swapping twice and turning full circle change nothing |
| DirRing.CdMeans | bin/csh/dir.c:334-373 | cd keeps the depth and all but the current entry; cd +n leaves the current entry and turns the others; when it complains nothing changes |
| DirRing.PushdMeans | bin/csh/dir.c:477-520 | pushd entry by entry, with its complaints |
| DirRing.PopdMeans | bin/csh/dir.c:556-586 | popd entry by entry, with its complaints |
| InputBuffer.Input.constructor | bin/csh/lex.c:1619-1631 | fresh input stands at the file's offset in either mode |
| InputBuffer.Input.GetTell | bin/csh/lex.c:1428-1449 | in tell mode bgetc returns the byte at the position, wherever it was moved |
| InputBuffer.Input.GetBlock | bin/csh/lex.c:1450-1539 | in block mode likewise, adding blocks as needed |
| InputBuffer.Input.BFree | bin/csh/lex.c:1542-1559 | trimming loses no unread byte, moves offset 0 to the block of the last byte read, and does nothing while a loop is active |
| InputBuffer.Input.BSeek | bin/csh/lex.c:1562-1580 | seeking goes back to exactly the saved place |
| InputBuffer.Input.Remember | bin/csh/lex.c:1583-1602 | telling saves exactly the current place |
| InputBuffer.Input.Run | bin/csh/lex.c:1414-1602 | every interleaving of reads, saves, seeks, rewinds and trims returns what a plain reader returns, for any chunks |
| InputBuffer.ReadsInOrder | bin/csh/lex.c:1414-1539 | reading on returns the data in order |
| InputBuffer.ReadsAgain | bin/csh/lex.c:1562-1602 | after any operations that do not drop a saved place, going back to it reads the same bytes again |
| InputBuffer.ReadsEnd | bin/csh/lex.c:1414-1539 | at the end every read returns -1 and nothing moves |
| InputBuffer.TrimMeans | bin/csh/lex.c:1542-1559 | a trim moves offset 0 by whole blocks, as far as the last byte read allows, and not while a loop is active or positions are offsets |
| InputBuffer.TrimsUnseen | bin/csh/lex.c:1542-1559 | where buffers are trimmed makes no difference to what is read, unless offset 0 is sought in block mode |
| InputBuffer.Input.SeekStart | bin/csh/func.c:603-608 | the seek of a goto's search goes to the byte that offset 0 stands for |
| InputBuffer.RewindReaches | bin/csh/func.c:603-608 | after any operations this is where it was before them if and only if no trim among them gave up a block; otherwise it lies further on |
| InputBuffer.GotoAfterTrim | bin/csh/func.c:603-608 | reading n bytes of a pipe and trimming, a goto's search begins at the block of the last byte, so at the start if and only if that is the first block |
| ExprNumber.NumberRoundTrip | bin/csh/set.c:366-412 | every int survives putn and getn |
| ExprNumber.WriteNumber | bin/csh/set.c:366-390 | putn writes the decimal, also for the most negative int |
| ExprNumber.ReadNumber | bin/csh/set.c:393-412 | getn's loop, wrapping at every digit, reads the wrapped value or reports a bad number |
| ExprEval.SkippedNeverDivides | bin/csh/exp.c:98-394 | whatever the words say, a skipped operand never raises the division or mod error |
| ExprEval.CursorIndependent | bin/csh/exp.c:98-557 | for all words and any two modes, evaluations that return end at the same word |
| ExprRoundTrip.OpFound | bin/csh/exp.c:590-634 | every operator is recognised at its own level and at no tighter one |
| ExprMeaning.ArithMeans | bin/csh/exp.c:250-394 | comparisons, shifts, sums, products, quotients and remainders are the mathematical ones, reduced to an int where they leave it |
| ExprMeaning.DivisionMeans | bin/csh/exp.c:353-394 | quotient and remainder are the pair that truncates toward zero |
| ExprMeaning.DividesOnce | bin/csh/exp.c:353-394 | there is no other such pair: the dividend is quotient times divisor and remainder, which is smaller than the divisor and has the dividend's sign |
| ExprMeaning.BitsMean | bin/csh/exp.c:142-205 | the bitwise operators bit by bit in two's complement |
| ExprMeaning.LogicMeans | bin/csh/exp.c:98-205 | the operators on ints likewise |
| ExprMeaning.ReadsPlaces | bin/csh/set.c:393-412 | getn reads signed digits as their place value, reduced to an int |
| ExprMeaning.ReadsOnlyPlaces | bin/csh/set.c:393-412 | it reads such words and no others; egetn (exp.c:637-643) refuses a plus besides |
| ExprMeaning.WritesPlaces | bin/csh/set.c:366-390 | putn writes the shortest digits of the number's size, after a minus if it is negative |
| ExprRoundTrip.Reads | bin/csh/exp.c:98-557 | a printed tree is read whole at its level, evaluating or skipping, expanding or not, to the value or error of the tree |
| ExprRoundTrip.PrintThenEvaluate | bin/csh/exp.c:92-557 | evaluating the printed words of any tree of words, file tests, commands, left-out operands and operators gives its value, or exactly the error its evaluation meets, with the cursor at the end |
| ExprRoundTrip.WordsMean | bin/csh/exp.c:250-394 | the left operand is read first, but a divisor before what it divides; skipped operators, shifts aside, are not computed |
| ExprIntegers.IntegersEvaluate | bin/csh/exp.c:92-435 | the words of an integer expression evaluate to its arithmetic value, or to the error its evaluation meets |
| ExprIntegers.ChainGroupsRight | bin/csh/exp.c:98-394 | two operators of one level, equalities aside, group to the right |
| ExprErrors.EndsEarly | bin/csh/exp.c:397-405 | an expression that ends with an operator is a bad one |
| ExprErrors.NotClosed | bin/csh/exp.c:422-436 | so is a parenthesis not closed behind its expression |
| ExprErrors.NoBrace | bin/csh/exp.c:437-455 | a brace not closed is reported |
| ExprErrors.NoName | bin/csh/exp.c:470-490 | a file test without a name, and one with more than a letter |
| ExecHash.MaskIsRemainder | bin/csh/exec.c:87-94 | bitwise and with k ones is the remainder by the k-th power of two |
| ExecHash.Hash | bin/csh/exec.c:87-92 | the masked sum of the hash macro is that remainder |
| ExecHash.BisSetsOne | bin/csh/exec.c:92-94 | bis sets its own bit and no other |
| ExecHash.CommandHash.NameHash | bin/csh/exec.c:495-502 | hashname's loop is the specified hash |
| ExecHash.CommandHash.DoHash | bin/csh/exec.c:437-473 | exactly the bits of the entries of readable absolute directories are set |
| ExecHash.CommandHash.IsCommand | bin/csh/exec.c:505-548 | iscommand returns the specified lookup |
| ExecHash.LookupFirst | bin/csh/exec.c:505-548 | without a table the answer is the first directory that has the command |
| ExecHash.SearchMeans | bin/csh/exec.c:505-548 | a plain name is looked for in the path itself, directory by directory; one with a slash, or any when there is no path, as it stands |
| ExecHash.HashGrows | bin/csh/exec.c:495-502 | one more character of a name: the hash times 243, and the character, modulo 8192 |
| ExecHash.OnlyFilesCount | bin/csh/exec.c:437-473 | a directory sets a bit only if it is absolute and readable, for a file that is there and is not . or .. |
| ExecHash.HashKeepsAnswers | bin/csh/exec.c:437-548 | if every absolute directory could be read, the table changes no answer |
| ExecHash.HashLosesExactly | bin/csh/exec.c:437-548 | in general it changes the answer if and only if the command's first directory is absolute, was unreadable, and no entry shares its bit |
| ExecHash.UnreadableLoses | bin/csh/exec.c:437-548 | such a loss |

## Left out

- Input from a terminal, aliases and `eval` strings: a script is a non-interactive file, so the preread of loops and the alias and eval seek types do not occur.
- Words that merely begin with `if`, `while` or `switch`: `getword` (func.c:703-790) stops early on them; a line is classified by its command word.
- `goto` and `onintr` inside the structured scripts of the simulation theorem: a goto has no structured meaning; it is covered by the loop-stack lemmas.
- `breaksw` from inside a loop in structured scripts: what it pops depends on the text behind it, so it has no structured meaning; its effect on the loop stack is stated exactly.
- Processes, signals, pipes, descriptors and here documents: `execute` is the tree walk only; `time`, `nice`, `nohup`, `repeat` and the forced fork of `eval` are not modelled.
- Flags or-ed into the nodes: they are passed down as arguments, so running the same tree twice is not modelled.
- History, `$` and quote processing, backquotes, tildes and libc globbing: words are taken as they reach the parser, the expander and the evaluator.
- Replacing aliases: the alias pass is modelled on words none of which is aliased, which the last of its repetitions sees.
- Reading past the end of an unterminated class such as `[a-`, and a bare quote bit as a character: undefined or unused.
- DirNormalize.DGoto: its buffer has one cell more than dgoto allocates (dir.c:390), so that the look past the terminator is defined; on which names it happens is stated, what the code then reads is not.
- `readlink`, `chase_symlinks`, the home fix-up at the end of `dcanon`, its prefixing of a relative argument, and `cdpath`.
- Reference counts of directory entries and the check for extra arguments to `cd`, `pushd` and `popd`.
- `btoeof`, which seeks to the end before the shell gives up, and retries of interrupted reads.
- The answers of file tests, the status of commands in braces, pattern matches and the expansion of a word inside expressions are given from outside; shift counts outside 0 to 31 are taken modulo 32.
- ExecHash.HashKeepsAnswers: assumes that a file that can be executed in a readable directory is listed there; hits and misses are not counted.
- Fixed buffer sizes (BUFSIZE lines, MAXPATHLEN) and running out of memory.
