# Verified models of the `cli` shell

This project models six parts of the `cli` shell (a derivative of bash 4.3) and proves what
they are for. `dafny verify dfyconfig.toml` checks everything.

- **Arithmetic evaluator** (`cli/expr.c`). `Int64`: 64-bit integers with wrap-around,
  truncating division, bitwise operators, `ipow`. `ExprMachine`: the recursive descent as
  functions over an explicit token state. `ExprTree`: expression trees and their left-to-right
  meaning. `ExprParse`: the evaluator gives every printed tree its meaning. `Precedence`: the
  table of operators written out, the text of a tree by that table, and which of two operators
  is applied first. `OperatorValues`: what each operator computes, from text to value.
  `Rejections`: texts that are not expressions. `References`: variables that name variables.
  `ExprSteps`, `ExprEval`: the evaluator as a class that updates global token state, a context
  stack and a `noeval` counter in place, proved equal to the functions. `Arithmetic`: the class
  against the trees. `Numerals`: `strlong` and numerals in bases 2 to 64.
- **Braces** (`cli/braces.c`, `cli/bracecomp.c`, `cli/lib/sh/shquote.c`). `Braces`: scanning
  and expansion, as methods and as the functions they compute. `BraceWords`: words with
  quotes, parameters, substitutions, sequences and nested alternations, and the strings they
  stand for. `Quoting`: backslash quoting and quote
  removal. `BraceMunge`: brace completion, whose result expands, quotes removed, to the names
  it was made from. `MkSeq`: the arithmetic of `{x..y..z}`.
- **Command interpreter** (`cli/execute_cmd.c`, `cli/copy_cmd.c`, `cli/builtins/break.def`).
  `Commands`: command trees whose nodes have addresses, and the flags written into them.
  `Structured`: a meaning with explicit outcomes. `Laws`: what each kind of command does, on
  statuses, signals and histories. `CopiedTrees`: the flags of a copy.
  `Execute`: a class with the counters `breaking`, `continuing`, `loop_level` and the set of
  flags. `PendingSignals`, `QuietTests`, `ErrExit`, `MoreFuel`, `Shapes`: theorems about the
  meaning. `Scripts`: the interpreter against them.
- **Job table** (`cli/jobs.c`, `cli/list.c`). `JobSpec`, `JobTable`: the slots, their counters
  and bounds, the current and the previous job, what each status report leaves behind, and
  every run of events. `JobChain`:
  the circular chain of processes on the heap, reversed in place.
- **Sparse arrays** (`cli/array.c`). `Pairs`: sorted pairs and the maps they stand for.
  `SparseArray`: circular doubly linked lists on the heap, with the one global `lastref`.
  `ArrayRuns`: every interleaving of operations on any number of arrays against finite maps.
- **Buffered input** (`cli/input.c`). `BufferedInput`: a buffer and the kernel's file offset,
  against a reader without a buffer.

Three promises turned out to hold only under a condition. Each has a member with an input that
breaks it, and a theorem that says exactly when it holds.

- A skipped operand of `&&`, `||` or `?:` can still end the evaluation: `exppower` raises
  "exponent less than 0" without looking at `noeval` (`SkippedExponentStillFails`:
  `0 && 2 ** -1`). Call an operand explosive if it has a `**` whose exponent is negative when
  every name reads 0 and zero divisors read 1. The evaluator follows the meaning of the tree up
  to the first explosive operand it skips and stops there, with the variables of that moment.
  So it agrees with the meaning if and only if it skips no such operand, or the tree itself
  means that same error with those same variables (`RunIsEvalIff`, `TableDecides`).
- A `continue` in the test of a loop that the test ends is not consumed by that loop
  (`PendingContinue`: `until continue; ...`). A script that ends running leaves a signal
  pending if and only if some test ends its loop while a `continue` for every loop around it is
  on its way (`RunScript`, `SemExact`). Scripts without `continue` in tests are a special case.
- Syncing a stream after its end has been met moves the file offset past the end, because the
  buffer's index is left standing (`SyncPastEnd`: offset 2 in a file of one character). A run
  is right if and only if it has no such sync (`Run`, `SyncAfterEnd`).

Facts under the always-true predicate `Show` are folded up: a proof that needs them says
`assert Show(0)`. Loops and calls of commands are bounded by a number `fuel`, the same in the
interpreter and in the meaning; every statement is for every bound, and `MoreFuel` shows that
a run that ends within a bound is the same under any larger one.

## Model

| member | source | states |
|---|---|---|
| Int64.WrapUnique | cli/expr.c:805-826 | two's complement wrap-around: the only word congruent to the exact result modulo 2^64 |
| Int64.TruncDivLaw | cli/expr.c:850-880 | C division: quotient and remainder with the dividend's sign and below the divisor |
| Int64.TruncDivInRange | cli/expr.c:850-872 | only INTMAX_MIN / -1 leaves the 64-bit range, for the quotient and for the remainder |
| Int64.BitsDigit | cli/expr.c:672-726 | each bit of bitwise and, or and exclusive or on words, negative ones included, is the and, or and difference of the operands' bits |
| Int64.ComplementFlips | cli/expr.c:936-941 | `~` flips every bit of the two's complement form |
| Int64.ShlDigit | cli/expr.c:780-803 | a left shift moves every bit up and lets zeros in |
| Int64.ShrDigit | cli/expr.c:780-803 | a right shift moves every bit down and repeats the sign |
| Int64.IPow | cli/expr.c:888-903 | the squaring loop returns the wrapped power, for every base and exponent |
| Int64.SquaringIsPower | cli/expr.c:888-903 | repeated squaring in 64 bits equals iterated multiplication wrapped once at the end |
| ExprMachine.ReadTok | cli/expr.c:1227-1404 | lookahead keeps `noeval`, the depth and the text; with evaluation off it keeps the variables and raises no division by zero; it consumes a token |
| ExprMachine.SubExpr | cli/expr.c:404-439 | the same for a whole subexpression, with the context restored; defined for every store, self-referential ones included, by the measure of depth left and tokens left |
| ExprMachine.Parse | cli/expr.c:441-1056 | every level returns with `noeval` as it found it; with evaluation off no variable changes and division by zero is not raised |
| ExprMachine.TailCond | cli/expr.c:571-613 | the same for `?:`, whose branches are read before `noeval` is raised |
| ExprMachine.TailLoop | cli/expr.c:616-669 | the same for logical and and or, which raise `noeval` around the operand they skip |
| ExprTree.SkipIsInert | cli/expr.c:548-557 | running a tree with evaluation off keeps the variables and gives a value that does not depend on them, or, exactly when the tree is explosive, the negative-exponent error |
| ExprTree.RunIsEval | cli/expr.c:571-669 | the evaluator's semantics with a skip flag is the left-to-right meaning up to the first explosive operand skipped, and there the negative-exponent error with the variables of that moment |
| ExprTree.RunIsEvalIff | cli/expr.c:571-669 | the two agree if and only if no explosive operand is skipped, or the tree means that same error with the same variables |
| ExprTree.SkippedExponentStillFails | cli/expr.c:906-923 | `0 && 2 ** -1` is an error although its right side is skipped |
| ExprParse.ParsePrint | cli/expr.c:441-1056 | parsing the print of a tree at any level, in any context, computes that tree and stops right after it |
| ExprParse.EvalPrint | cli/expr.c:364-439 | the same for a whole expression |
| ExprParse.EvaluatorIsCorrect | cli/expr.c:364-439 | every printed tree over integer variables evaluates to its left-to-right meaning and final store, or to the error and store of the first explosive operand skipped; the former if and only if nothing explosive is skipped or the two are the same |
| Precedence.WrittenIsPrint | cli/expr.c:25-56 | the levels and groupings of the evaluator are those of the table written out as a list of sets of operators |
| Precedence.AssignmentLine | cli/expr.c:25-56 | the assignment operators are exactly those of the table |
| Precedence.TableDecides | cli/expr.c:25-56 | every tree, with any parentheses added, written by the table evaluates to its meaning, with the exact condition above |
| Precedence.TwoOperators | cli/expr.c:25-56 | in `a op b op c` with any two operators and operands the one that the table puts higher is applied first, of equals the left one, of two `**` the right one |
| Precedence.SignsFirst | cli/expr.c:925-958 | signs, `!` and `~` come before every operator on either side |
| Precedence.ConditionTakes | cli/expr.c:571-613 | the condition of `?:` takes in every operator but the comma |
| Precedence.BetweenTakes | cli/expr.c:571-613 | between `?` and `:` every operator is taken in |
| Precedence.AlternativeTakes | cli/expr.c:571-613 | after the colon every operator but the comma is taken in |
| Precedence.AssignmentTakes | cli/expr.c:456-569 | an assignment takes in every operator but the comma |
| Precedence.AssignmentsNest | cli/expr.c:456-569 | assignments group to the right and take in a whole conditional |
| Precedence.ConditionalsNest | cli/expr.c:571-613 | conditionals group to the right and may hold an assignment between `?` and `:` |
| OperatorValues.Equalities | cli/expr.c:728-750 | `==` and `!=` give 1 or 0 |
| OperatorValues.Comparisons | cli/expr.c:750-778 | the four comparisons give 1 or 0 |
| OperatorValues.Sums | cli/expr.c:805-826 | sum and difference wrap around |
| OperatorValues.Products | cli/expr.c:828-886 | so does the product |
| OperatorValues.Powers | cli/expr.c:888-923 | the power wraps around; a negative exponent is an error |
| OperatorValues.Quotients | cli/expr.c:828-886 | quotient and remainder truncate; INTMAX_MIN / -1 wraps, with remainder 0; a zero divisor is an error |
| OperatorValues.BitOperators | cli/expr.c:672-726 | every bit of the values of the texts `a & b`, `a ^ b` and of bitwise or |
| OperatorValues.Shifts | cli/expr.c:780-803 | every bit of the values of `a << n` and `a >> n` |
| OperatorValues.Signs | cli/expr.c:925-958 | `!`, `~` and the two signs |
| OperatorValues.Steps | cli/expr.c:969-1040 | `++` and `--`, around the ends of the range too: the new value before the name, the old one after it, and the variable stepped |
| Rejections.StrayClose | cli/expr.c:425-432 | a close parenthesis or a colon after any expression is a syntax error, with the variables the expression leaves |
| Rejections.MissingClose | cli/expr.c:997-1009 | an open parenthesis that is not closed |
| Rejections.MissingOperand | cli/expr.c:1050-1053 | an operator with nothing after it |
| Rejections.MissingBranch | cli/expr.c:580-584 | a question mark with nothing or a colon after it |
| Rejections.MissingColon | cli/expr.c:590-596 | a conditional without a colon, its branch skipped if the condition is 0 |
| References.ChainLimit | cli/expr.c:253-273 | a chain of up to 1023 variables, each the name of the next, has the value at its end, and a longer one is the recursion error |
| References.CircleFails | cli/expr.c:253-273 | variables that only name one another always end in the recursion error |
| ExprParse.ReadsBack | cli/expr.c:548-556 | every 64-bit value, INTMAX_MIN included, stored as decimal text and read again is itself |
| ExprEval.Evaluator.EvalExp | cli/expr.c:364-400 | a call, at the top or from inside an evaluation, returns what the functions say at that depth; the context is restored on success, with `noeval` 0; after an error the stack is empty and `noeval` is 0 |
| ExprEval.Evaluator.SubExp | cli/expr.c:402-439 | pushes and pops one context; an error leaves the pushed contexts, never more than 1024 |
| ExprEval.Evaluator.PushExp | cli/expr.c:253-273 | the stack never grows past 1024 contexts; past that, the recursion error |
| ExprEval.Evaluator.Unwind | cli/expr.c:293-309 | drops every context and resets `noeval` |
| ExprEval.Evaluator.ReadToken | cli/expr.c:1227-1404 | reads one token, evaluating a name's text unless `=` follows it |
| ExprEval.Evaluator.ExpAssign | cli/expr.c:456-569 | assignment and `op=`, bound only when evaluation is on |
| ExprEval.Evaluator.ExpCond | cli/expr.c:571-613 | `?:` with one branch skipped by raising and lowering `noeval` |
| ExprEval.Evaluator.ExpLor | cli/expr.c:616-641 | the loop for logical or, skipping right operands |
| ExprEval.Evaluator.ExpLand | cli/expr.c:644-669 | the loop for logical and, skipping right operands |
| ExprEval.Evaluator.ExpBinary | cli/expr.c:672-886 | the loops of the eight left-associative levels, with division by zero patched while skipping |
| ExprEval.Evaluator.ExpPower | cli/expr.c:905-923 | `**`, associating to the right |
| ExprEval.Evaluator.Exp0 | cli/expr.c:960-1056 | primaries: numbers, names, parentheses, pre- and post-increment with lookahead |
| Arithmetic.EvaluateTree | cli/expr.c:364-439 | the running evaluator on the text of any tree gives the meaning of the tree and its final variables, or the error and the variables of the first explosive operand skipped |
| Numerals.StrLong | cli/expr.c:1433-1503 | the loop over the characters of a numeral computes its value, base and errors |
| Numerals.BaseRoundTrip | cli/expr.c:1422-1503 | every value below 2^63 written as `base#digits` in any base 2 to 64 reads back as itself |
| Numerals.DecimalRoundTrip | cli/expr.c:1433-1503 | every value below 2^63 in decimal reads back as itself |
| Numerals.PrefixedRoundTrips | cli/expr.c:1448-1470 | the same for octal and hexadecimal with their prefixes |
| Numerals.CaseDoesNotMatter | cli/expr.c:1422-1503 | in numerals without a base, and with one up to 36, letters mean the same in either case |
| Numerals.HexInCapitals | cli/expr.c:1422-1503 | `0xFF` is 255 |
| Numerals.NumeralErrors | cli/expr.c:1470-1500 | a base out of range, a second base and a digit the base does not have are the three errors |
| Numerals.ItosIsText | cli/expr.c:548-556 | the stored text of a value is its decimal digits with a sign |
| Braces.BraceGobbler | cli/braces.c:594-713 | the scan stops where the step-by-step scan says, through quotes, escapes, nesting, substitutions and separators |
| Braces.ArrayConcat | cli/braces.c:734-782 | every string of one vector followed by every string of the other, in order, shortcuts included |
| Braces.ProductAt | cli/braces.c:734-782 | where each pair stands in that product: the first factor varies slowest |
| Braces.Expand | cli/braces.c:99-274 | brace_expand by loops and recursion on shorter text is the function BraceExpand, wherever substitutions end and whatever sequences mean |
| Braces.ExpandParts | cli/braces.c:280-340 | expand_amble is the concatenation of the expansions of the parts |
| BraceWords.ExpandsToProduct | cli/braces.c:99-274 | for every word of plain characters, characters behind backslashes, quoted stretches, parameters, substitutions, sequences and nested alternations, the ordered Cartesian product of its parts |
| BraceWords.SequenceExpands | cli/braces.c:215-274 | a sequence between plain text and any text at all gives each of its strings in turn with all that the rest expands to; if the term is no sequence the braces stay |
| BraceWords.SeparatorIsComma | cli/braces.c:200-230 | the separators that make an alternation are the commas not behind a backslash |
| BraceWords.FindsExpandable | cli/braces.c:120-150 | in text without quotes and substitutions a brace is expanded if and only if one has, at its own level, a separator and then a close brace |
| BraceWords.LeftAlone | cli/braces.c:120-165 | text without such a brace is returned unchanged |
| Quoting.BackslashQuote | cli/lib/sh/shquote.c:224-250 | the loop over the characters gives the quoted string: a backslash before each character of the table and before a leading comment sign |
| Quoting.UnquoteFrom | cli/lib/sh/shquote.c:215-250 | quote removal undoes quoting, whatever follows |
| Quoting.QuoteSafe | cli/lib/sh/shquote.c:36-80 | a string with no character of the table and no comment sign is not changed |
| Quoting.NothingExposed | cli/lib/sh/shquote.c:36-80 | no character special to the shell is left bare by quoting, whatever follows, and no comment sign at the start |
| BraceMunge.StringGcd | cli/bracecomp.c:47-63 | the length of the common prefix |
| BraceMunge.GcdIsGreatest | cli/bracecomp.c:47-63 | prefixes of two strings agree exactly up to that length |
| BraceMunge.GroupsDenote | cli/bracecomp.c:65-150 | the groups of a sorted range stand, quotes removed, for its names, in order, without the common prefix; quotes or not if none is needed |
| BraceMunge.ReallyMungeBraces | cli/bracecomp.c:65-150 | the text built by appending quoted pieces and overwriting the last comma is the text of those groups |
| BraceMunge.WholeRoundTrip | cli/bracecomp.c:65-150 | the word for a sorted list of ASCII names, duplicates and prefixes included, expands, quotes removed, to the list |
| BraceMunge.HackBracesCompletion | cli/bracecomp.c:165-185 | the completion word expands, quotes removed, to exactly the matches, whatever sequence terms mean; without quote removal if no match needs quoting |
| BraceMunge.CompleteAndExpand | cli/bracecomp.c:165-185 | completion, expansion and quote removal, as they run, give the matches back |
| MkSeq.MkSeq | cli/braces.c:351-470 | emits exactly the terms from start toward end, by steps of the size of the increment, or 1 for 0; gives up only outside the bounds; the slots allocated are those filled if and only if the count fits an int |
| MkSeq.CountReaches | cli/braces.c:402-420 | the last term counted lies between the ends and the next one does not |
| MkSeq.AddGuardExact | cli/braces.c:351-360 | between 64-bit integers the addition guard holds exactly when the sum overflows |
| MkSeq.SlotsExact | cli/braces.c:395-425 | which counts survive being stored in an int |
| PendingSignals.SemExact | cli/execute_cmd.c:3341-3398 | in every context and at every loop level, a command that ends leaves a signal for more loops than there are if and only if a test ends its loop with a `continue` for all of them pending |
| QuietTests.TameSem | cli/execute_cmd.c:3341-3398 | with no `continue` in loop tests, signals name loops that are there, and tests need no rule of their own |
| QuietTests.PendingContinue | cli/execute_cmd.c:3355-3377 | `until continue` outside any other loop leaves a `continue` pending |
| ErrExit.CutSem | cli/execute_cmd.c:840-850 | in every context, a run under `set -e` is the run without it, cut after the first failing simple command that is not exempt |
| ErrExit.EndsAtFirstFailure | cli/execute_cmd.c:840-850 | the same for scripts: exit if and only if there is such a command, with its status, and nothing after it |
| MoreFuel.SemSettled | cli/execute_cmd.c:3355-3394 | a run that ends within a bound on rounds and calls is the same under larger bounds |
| Shapes.ShapeDecides | cli/copy_cmd.c:356-450 | what a command does does not depend on the addresses of its nodes |
| Laws.ListLaw | cli/execute_cmd.c:2431-2573 | after status 0 the second operand of an and-list runs and that of an or-list does not, after any other status the reverse, of a plain list always; a signal passes both; only the first operand of the former two is exempt |
| Laws.ListsAssociate | cli/execute_cmd.c:2431-2573 | lists of one kind can be grouped either way, also under `set -e` |
| Laws.IfLaw | cli/execute_cmd.c:3404-3432 | status 0 of the exempt test takes the first branch, any other the second |
| Laws.NotLaw | cli/execute_cmd.c:1040-1072 | `!` turns the status round, and under `set -e` exempts all of the command |
| Laws.SimpleLaw | cli/execute_cmd.c:840-850 | a simple command is recorded with its status and whether it is exempt; under `set -e` a failure that is not ends the shell |
| Laws.CallLaw | cli/execute_cmd.c:4371-4540 | a function runs its body in the context of the call, with statuses above 256 made 2 or 1 |
| Laws.BreakLaw | cli/builtins/break.def:64-128 | break and continue: nothing outside loops, all loops for a count too large, failure and all loops for one below 1 |
| Laws.LoopEnding | cli/execute_cmd.c:3336-3399 | after any number of rounds, a test that fails (succeeds, for until) ends the loop with the status of the last round, or 0 |
| Laws.LoopLeaving | cli/execute_cmd.c:3336-3399 | a signal for n loops from the body ends the loop and takes it off |
| Laws.TestLeaving | cli/execute_cmd.c:3355-3377 | a signal from the test does the same if the status would go on; otherwise a break is taken off, a continue is not |
| Laws.ForLaw | cli/execute_cmd.c:2585-2723 | the body runs once for each word, each time after the time before, until a signal ends the loop |
| Laws.CaseLaw | cli/execute_cmd.c:3214-3308 | clauses that do not match are as if they were not there; with none, status 0 |
| Laws.MatchLaw | cli/execute_cmd.c:3214-3308 | what follows a clause that matches, for each of the three endings |
| Execute.Shell.ExecuteCommand | cli/execute_cmd.c:532-1072 | with a signal pending nothing happens and the last status is returned; otherwise the counters, flags and history end as the structured meaning says, and flags are only set where the context is exempt |
| Execute.Shell.ExecuteConnection | cli/execute_cmd.c:2431-2573 | lists, and-lists and or-lists, with all operands of the latter two but the last exempt |
| Execute.Shell.ExecuteFor | cli/execute_cmd.c:2585-2723 | the for loop counts `breaking` and `continuing` down |
| Execute.Shell.ExecuteWhileOrUntil | cli/execute_cmd.c:3336-3399 | while and until, their tests exempt |
| Execute.Shell.ExecuteIf | cli/execute_cmd.c:3404-3432 | if, its test exempt |
| Execute.Shell.ExecuteCase | cli/execute_cmd.c:3214-3308 | case with fall-through and test-next clauses |
| Execute.Shell.BreakBuiltin | cli/builtins/break.def:64-88 | break clamps to `loop_level`; a count below 1 breaks all loops and fails |
| Execute.Shell.ContinueBuiltin | cli/builtins/break.def:104-128 | continue clamps to `loop_level`; a count below 1 breaks all loops and fails |
| Execute.Shell.ExecuteFunction | cli/execute_cmd.c:4371-4540 | a call runs a fresh copy, so flags set by earlier calls do not matter; `loop_level` is restored |
| Execute.Shell.CopyCommand | cli/copy_cmd.c:356-450 | the copy has the same shape at new addresses, with the flags of the original at those addresses |
| CopiedTrees.SameFlags | cli/copy_cmd.c:356-450 | the flags of a copy depend on the flags of the original only |
| CopiedTrees.NoFlags | cli/copy_cmd.c:356-450 | a tree without flags is copied without flags |
| CopiedTrees.CopyMovesFlags | cli/copy_cmd.c:356-450 | copying moves each flag by the distance between the trees, and adds no other |
| Scripts.RunScript | cli/execute_cmd.c:532-1072 | a script does what it means; a script that ends running leaves a signal pending if and only if a test ends its loop while continuing all loops, never with quiet tests; under `set -e` it ends exactly at the first failure that is not ignored |
| Pairs.AtLeast | cli/array.c:240-262 | the k-th index of an array with non-negative indices is at least k |
| Pairs.ShiftKeeps | cli/array.c:207-262 | shifting by n drops min(n, size) elements and keeps the indices non-negative and increasing |
| Pairs.RShiftKeeps | cli/array.c:270-301 | a right shift keeps the indices increasing if and only if the new element 0 comes before all shifted ones, as it always does with non-negative indices |
| Pairs.PushPop | cli/array.h:106-109 | a push followed by a pop restores the array |
| Pairs.InsertIsMap | cli/array.c:611-661 | insertion is the update of a finite map |
| Pairs.RemoveIsMap | cli/array.c:667-700 | removal deletes the key |
| Pairs.LookupIsMap | cli/array.c:705-724 | reference is lookup |
| Pairs.ShiftIsMap | cli/array.c:207-262 | a left shift drops the n lowest keys and renumbers the rest |
| Pairs.RShiftIsMap | cli/array.c:270-301 | a right shift renumbers all keys and adds key 0 |
| SparseArray.AddBefore | cli/array.c:48-54 | four pointer assignments link a new element in, keeping the circle |
| SparseArray.Arrays.Insert | cli/array.c:611-661 | from wherever lastref points, the element goes to its place; -1 is returned if and only if the index is negative and the array empty |
| SparseArray.Arrays.Remove | cli/array.c:667-700 | the element is unlinked, max_index kept exact, lastref left at a neighbour or nowhere |
| SparseArray.Arrays.Reference | cli/array.c:705-724 | the value at the index, or nothing; lastref stays live |
| SparseArray.Arrays.Flush | cli/array.c:103-120 | the array is empty; lastref no longer points into it |
| SparseArray.Arrays.Shift | cli/array.c:207-262 | the first n elements are sliced out and the rest renumbered in place |
| SparseArray.Arrays.RShift | cli/array.c:270-301 | all elements renumbered in place, a new element 0 linked in; returns the size |
| SparseArray.Arrays.Copy | cli/array.c:134-152 | a new array with the same contents that shares no element with any other |
| SparseArray.Arrays.Create | cli/array.c:87-101 | a new empty array |
| ArrayRuns.Run | cli/array.c:58-85 | any interleaving of operations on any number of arrays, sharing one lastref, negative indices included, answers as finite maps do, if each right shift puts its new element first |
| ArrayRuns.NonNegativeIsOrderly | cli/array.c:270-301 | runs that insert at non-negative indices only are such runs |
| JobTable.Table.SetCurrentJob | cli/jobs.c:2858-2906 | the job becomes the current one; the previous one is the old current job if stopped, else by turns the newest stopped one before it, the newest running one, or the job itself |
| JobTable.Table.ResetCurrent | cli/jobs.c:2916-2943 | both name jobs or neither does, the latter only if all jobs are dead; if any job is stopped the current one is |
| JobTable.Table.MostRecentJobInState | cli/jobs.c:2808-2831 | the newest job in the state before an index if there is one, and otherwise none |
| JobTable.Table.DeleteJob | cli/jobs.c:1000-1061 | only that slot is emptied; counters, bounds, current and previous stay right |
| JobTable.Table.ResetJobIndices | cli/jobs.c:784-821 | the bounds close in on the outermost jobs; the wrap-around is never needed |
| JobTable.Table.CleanupDeadJobs | cli/jobs.c:825-854 | exactly the dead jobs that were notified go |
| JobTable.Table.ReallocJobsList | cli/jobs.c:904-973 | all jobs move to the front in order, with a slot to spare |
| JobTable.Table.CompactJobsList | cli/jobs.c:981-996 | every job not reaped is kept in order and a free slot follows the last |
| JobTable.Table.StopPipeline | cli/jobs.c:480-654 | the new job comes after all others in a slot that was free |
| JobTable.Table.ChildStatus | cli/jobs.c:3302-3316 | a report goes to the first job with a running or stopped process of its pid, there to the first process of that pid, which then has exactly that status and runs if and only if it was continued; all else stays, and the job's state follows |
| JobTable.Table.WaitChild | cli/jobs.c:3196-3345 | the slots change report by report; the current job stays unless a report stops a job or sends one on; a job stopped by the last report becomes current; if jobs only went on, a stopped job is current if there is one |
| JobSpec.LastReportRemains | cli/jobs.c:3302-3316 | of several reports on a pid in a batch the last is the one that remains |
| JobSpec.Untold | cli/jobs.c:3302-3316 | a process of which no report speaks stays as it is |
| JobSpec.TrailKeeps | cli/jobs.c:3302-3316 | a batch adds and removes no job and no process |
| JobTable.Table.SetJobStatus | cli/jobs.c:3377-3458 | the job is dead if no process runs or is stopped, stopped if one is and it was or none runs, and else running; it calls for a new current job if it is stopped or was and runs again |
| JobTable.Run | cli/jobs.c:480-654 | after every run of events the counters are the numbers of taken slots and of dead jobs, all jobs lie within the bounds, a job is dead exactly when no process of it runs or is stopped, current and previous name jobs |
| JobSpec.HeardGood | cli/jobs.c:3377-3458 | a job that hears of a living process was not dead, and is dead afterwards exactly when nothing in it lives |
| JobSpec.CleanLive | cli/jobs.c:825-854 | emptying slots is filtering the list of jobs |
| JobSpec.KeepFilters | cli/jobs.c:825-854 | of the list exactly the dead jobs that were notified go, the others stay in order |
| JobSpec.PackedLive | cli/jobs.c:904-973 | moving jobs together keeps the list of jobs |
| JobChain.AddProcess | cli/jobs.c:1103-1142 | the new process goes in front of the circle |
| JobChain.ListReverse | cli/list.c:62-76 | the chain is reversed in place |
| JobChain.MakePipe | cli/jobs.c:564-570 | the circle is cut, reversed and closed: creation order |
| JobChain.RawJobExitStatus | cli/jobs.c:2332-2358 | the last status; with pipefail the rightmost one that is not success, and success only if all are |
| JobChain.PipeStatuses | cli/jobs.c:3549-3577 | one exit status for each process, in chain order |
| JobChain.RunPipeline | cli/jobs.c:1103-1142 | from the first fork to the exit status, in creation order: an exit gives its code, a signal 128 plus its number, for the process that decides and for each in PIPESTATUS |
| BufferedInput.Stream.FillBuffer | cli/input.c:479-519 | the next chunk and its first character, or the end |
| BufferedInput.Stream.Getc | cli/input.c:521-525 | the character of the file at the reader's position, or the end |
| BufferedInput.Stream.Ungetc | cli/input.c:527-538 | the position goes back by one if the buffer has room |
| BufferedInput.Stream.SyncStream | cli/input.c:540-557 | the kernel's offset becomes the reader's position if and only if the end was not met with characters in the buffer |
| BufferedInput.Run | cli/input.c:479-557 | over any run with any short reads, what is read and where children would start is as without a buffer, if and only if no sync comes after the end was met |
| BufferedInput.SafeBeforeEnd | cli/input.c:479-557 | before the end of the file every run is of that kind |
| BufferedInput.SyncAfterEnd | cli/input.c:500-509 | a run that is not |
| BufferedInput.SyncPastEnd | cli/input.c:500-557 | that run ends with the offset at 2 in a file of one character |

## Left out

- cli/expr.c: characters and white space (the model starts at tokens), array subscripts, `set -u`, readonly variables and error text.
- Int64: shift counts outside 0 to 63 are taken modulo 64; C leaves them undefined.
- ExprEval.Evaluator.ReadToken: reads tokens, not characters, and no array subscripts.
- ExprEval.Evaluator.ExpAssign: array elements and readonly variables are not modelled.
- ExprEval.Evaluator.Exp0: increments of array elements are not modelled.
- Rejections.MissingOperand: other texts that are not expressions, such as two operands in a row, are not classified.
- ExprEval.Evaluator.ExpBinary: one method for the eight functions `expbor` to `exp2`, which differ in their operators only.
- ExprEval.Evaluator.PopExp: requires a saved context; the "recursion stack underflow" error is never reached.
- Braces.BraceGobbler: multibyte characters are not modelled; where a substitution ends (`extract_command_subst`) is a parameter of the model.
- Braces.Expand: the same, and the strings of a sequence (`expand_seqterm`) are a parameter.
- BraceWords.ExpandsToProduct: quoted stretches are without backslashes and dollar signs, but for single quotes, and sequences are plain between their braces.
- BraceWords.FindsExpandable: texts with quotes or substitutions are excluded.
- BraceMunge.HackBracesCompletion: requires the matches sorted, as the source leaves them after sorting, and in ASCII: the quoting table is indexed by a plain char, which may be negative for other bytes.
- MkSeq.MkSeq: the terms are integers; their rendering as decimal, zero-padded or character text and the failure of memory allocation are not modelled.
- cli/execute_cmd.c: pipelines, asynchronous commands, subshells, coprocesses, redirections, traps, `select`, arithmetic `for`, `return`, function definitions while running, readonly loop variables. What a simple command that is no function returns, the number of words of a list and the matching of patterns are parameters that may depend on everything run so far.
- Execute.Shell.ExecuteCommand: the kinds of commands, redirections and traps just named are not modelled.
- Execute.Shell.ExecuteConnection: the connectors `&` and the pipe are not modelled.
- Execute.Shell.ExecuteFor: loop variables that are readonly or no identifiers are not modelled.
- Execute.Shell.ExecuteFunction: `return`, traps and the limit on nesting are not modelled.
- Execute.Shell.ExecuteCase: recursion over the clauses where the source has nested loops.
- Execute.Shell: tree nodes are addresses with a set of flags, not heap objects; the flags of the second operand of `;` are set when it is about to run, not before the first one runs.
- cli/jobs.c: signals, terminals, process groups, notification texts, `lastpipe`, recovery from ECHILD, continuing a job by `fg` or `bg`, the counters `c_reaped` and `c_injobs`, and the list of saved background statuses.
- JobTable.Table.ReapDeadJobs: which dead jobs count as notified (`mark_dead_jobs_as_notified`, which depends on CHILD_MAX) is a parameter.
- JobTable.Table.ReallocJobsList: builds a new list also where the source overwrites the old one in place.
- SparseArray.Arrays.Shift: the chain of dropped elements is not returned.
- SparseArray.Arrays.RShift: requires that the new element 0 comes first, without which the list loses its order; overflow of indices is not modelled.
- ArrayRuns.Run: requires this of every right shift, at the moment it happens.
- cli/array.c: slices, quoting and pattern substitution; disposing of memory.
- BufferedInput.Stream.Ungetc: requires the character pushed back to be the one just read.
- BufferedInput.Stream.FillBuffer: text mode and read errors are not modelled.
- cli/input.c: duplication of streams.
- Other files of the repository, among them the hash tables, aliases, history and the configuration daemon.
