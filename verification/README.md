# A verified model of bash2py's hardest parts

bash2py translates shell scripts to Python inside the sources of the shell itself. This
project models the parts of those sources whose stateful C code has a simple meaning, and
proves that the code has it.

- **Arithmetic** (`BinaryDigits`, `Int64`, `Numerals`, `ExprState`, `ExprEval`, `ExprSteps`,
  `ExprMachine`, `ExprTree`, `ExprLex`, `ExprParse`, `ExprDead`, `ExprArith`, `ExprLaws`,
  `ExprTexts`, `ExprWords`). `ExprMachine.Evaluator` is the evaluator of expr.c over
  its global token state, with its context stack. Each of its methods is proved equal to a
  function of `ExprEval`, whose termination measure is (recursion levels left, input left,
  grammar level). `ExprTree` is an independent semantics on trees, and the main result says
  that lexing and evaluating the print of a tree gives the tree's value, error and store.
  `ExprDead` says, for any text, what operands that are not evaluated may still store.
  `ExprArith` has what each operator is for, in terms of integers and their binary digits, and
  `ExprLaws`, `ExprTexts` and `ExprWords` say of texts, and of evaluation alone, that this is what
  comes out, which operands are evaluated in which order, and what is a word.
- **Braces** (`BraceText`, `BraceTree`, `BraceMachine`, `BraceLaws`, `BraceStray`, `BraceMunge`,
  `BraceFactored`, `MungeMachine`, `MkSeq`). `brace_expand` on the print of any brace tree is the tree's expansion, and it
  undoes `really_munge_braces` on every sorted list of words, with the quoting of
  `sh_backslash_quote` in place. `BraceLaws` says the same without trees, and `BraceStray` which
  braces mean nothing.
- **Control flow** (`ShellSemantics`, `ShellMachine`, `ShellLaws`, `ShellFuel`, `ShellBranches`,
  `ShellLoops`).
  `ShellMachine.Shell` has the counters `breaking`, `continuing` and `loop_level` and sets
  `CMD_IGNORE_RETURN` in the command tree as it runs. It is proved to do what a semantics with
  `Break(n)`, `Continue(n)` and `Exit` outcomes says. `ShellBranches` and `ShellLoops` say of the
  runs of each kind of command which of its parts run, in which order and how often. The rest of the shell, what simple
  commands return, word lists, arithmetic and pattern matches, is a parameter that may depend
  on all that has happened.
- **Arrays** (`ArrayModel`, `ArrayStore`, `ArrayRuns`, `CompoundAssign`). `SparseArray` is the
  circular doubly linked list, `Store` the two statics that all arrays share. Any interleaving
  of operations on several arrays behaves as maps do.
- **Hash tables** (`HashCode`, `HashTables`, `AssocArrays`). Chained buckets changed in place.
- **Text transformations** (`BurpText`, `BurpBuffer`, `QuoteRewrite`, `QuoteContexts`,
  `QuoteSteps`, `QuoteReading`, `QuoteMeaning`, `QuoteChance`, `QuoteInputs`, `GlobText`, `RegexText`, `GlobConvert`, `GlobReading`, `GlobMeaning`, `GlobLazy`, `GlobNewlines`,
  `GlobNested`, `GlobClosed`, `GlobActive`, `GlobInputs`). The growing buffer with its escaping
  in place, the rewriting of single quotes, and the conversion of shell patterns to Python
  regular expressions, each with the meaning it has to keep. `QuoteContexts` has what quotes mean
  to the shell, with a stack of contexts for substitutions in quotes and quotes in
  substitutions, and how the rewritten text is read; the code has one flag. `GlobText` and `RegexText` have
  what patterns and regular expressions match, defined apart; `GlobReading` says how Python
  reads what the code puts out.

`Options` has the option type that the others share.

Where the code does not have the property one would expect, the code is modelled as it is. A
lemma gives an input, and the exact condition is proved for all inputs:

- a dead arm of `?:` stores (`ExprDead.DeadArmStores`), exactly if reading its first token does
  (`DeadArm`), which it never does while the variables hold integers (`DeadArmIsPure`);
- a continue in a loop's test gets out of reach (`ShellLaws.ContinueInTest`), exactly if such a
  test ends the outermost loop (`CountersInReach`); a bad first expression of an arithmetic for
  leaves `loop_level` raised (`BreakAfterBadInit`, `LoopLevelExact`, `OutsideLoops`);
- a variable that stands for itself ends evaluation at the limit (`ExprWords.SelfReference`), and
  names that lead to an integer do exactly from 1024 of them on (`ChainEvaluates`);
- a sequence of more than 2147483647 terms overruns its vector (`MkSeq.TruncatedCount`), as
  `MkSeq.Make` states exactly;
- a malformed word of `a+=( ... )` is added to element 0 (`CompoundAssign.MalformedExample`);
  the words add up exactly if that holds the same as their own (`AppendToElements`);
- keys inserted without a search stay unique exactly if they are new (`HashTables.NoSearch`),
  and `ArrayModel.InsertIsUpdate`, `RshiftKeeps` and `PushPop` are exact in the same way;
- quotes behind a shortened text are counted (`BurpBuffer.QuoteBehind`), and `EscQuote` is
  right exactly if there is none;
- escaped double quotes and quotes in substitutions make the code lose track of quotes
  (`QuoteInputs.BackslashMisleads`, `NestedQuotes`, `NestedInWord`); one scan of the text says
  whether its meaning is kept, by `QuoteMeaning.RewriteKeepsMeaning`, exactly for texts without
  backslashes, and for all others but those in which single quotes go astray (`StrayQuote`):
  with backslashes these may come out right by chance (`QuoteInputs.StrayByChance`);
- the conversion of patterns loses newlines, exactly with a wildcard
  (`GlobNewlines.NewlinesExact`); takes `.`, `^`, `+` and `{m,n}` for operators, and then
  matches something else exactly if one stands there unprotected (`GlobInputs.DotMatchesAnything`,
  `PlusBecomesQuantifier`, `GlobActive.ActiveExact`), unless that is in a group or in braces behind
  one, where it can come to the same (`GlobInputs.BracesHelp`); and forgets the kind of a group with a
  wildcard in it (`GlobInputs.NestedStarLosesKind`, `NestedCharLosesKind`), which matters among
  literals exactly as `GlobNested.NestedExact` and `GlobClosed.NestedTested` say.

The comment at expr.c:54-57 says that operators of one precedence group are evaluated from left
to right, except for assignment; in the code powers are right-associative too, and so they are
here. `strlong` wraps around without a check, and the lemmas about it say so.

## Model

| member | source | states |
|---|---|---|
| ExprParse.EvaluatesPrintedTree | expr.c:355-430 | for every tree over numbers, scalars, all operators, assignments and increments, and every store of integers, evaluating the tree's minimally parenthesised, space-separated print gives the tree's value or its error, and the tree's final store |
| ExprParse.ParseTree | expr.c:432-962 | the grammar function of any level reads exactly the print of a tree for that level, and stops before the token behind it |
| ExprLaws.BinaryLaw | expr.c:640-815 | if the left operand of a binary operator evaluates to a, and then the right one to b, evaluating the text of the two with the operator between gives a v as `ExprArith.Makes` says, in range, or an error as `ExprArith.Refuses` says: sum, difference, product and left shift up to a multiple of 2 to the 64; quotient and remainder with a = q*b + r, r smaller than b and signed like a; right shift the floor; comparisons 0 or 1; bit operators bit by bit; division by 0 refused |
| ExprLaws.PowerLaw | expr.c:817-839 | powers are the mathematical ones up to a multiple of 2 to the 64; a negative exponent is refused |
| ExprLaws.LeftStops | expr.c:640-815 | an error of the left operand is that of the whole |
| ExprLaws.RightStops | expr.c:640-815 | so is one of the right operand, the left one evaluated before |
| ExprLaws.LogicLaw | expr.c:582-638 | `&&` and the logical or: an operand that decides gives 0 or 1 and the other one stores nothing, or its error is that of the whole; otherwise the other one is evaluated, and its truth is the value |
| ExprLaws.CondLaw | expr.c:536-580 | `?:` gives what the arm taken gives and leaves its store, the other arm storing nothing; its error is that of the whole |
| ExprLaws.UnaryLaw | expr.c:841-869 | minus up to a multiple of 2 to the 64, plus, `!` as 0 or 1, and `~` bit by bit |
| ExprLaws.AssignLaw | expr.c:448-533 | an assignment has the value assigned and changes that variable alone |
| ExprLaws.UpdateLaw | expr.c:448-533 | an assigning operator combines the old value, read before the right-hand side is evaluated, with that of the right-hand side, as the operator does |
| ExprLaws.StepLaw | expr.c:871-962 | `++` and `--` store the neighbour, up to a multiple of 2 to the 64; in front the new value comes out, behind the old one |
| ExprLaws.LeafLaw | expr.c:871-962 | a number is itself up to a multiple of 2 to the 64, a variable its value, 0 if it is unset |
| ExprArith.BinaryMakes | expr.c:640-815 | the operators of the code have these properties for all 64-bit operands, and are undefined or refused only where stated |
| ExprTexts.TwoNumbers | expr.c:432-839 | so for the text of two numbers with any of the operators, spelled out, between them |
| ExprTexts.ThreeNumbers | expr.c:432-839 | of two operators in a row the tighter one goes first, of equals the left one, but of powers the right one, for every pair |
| ExprTexts.LiteralText | expr.c:1206-1219 | a word that `strlong` reads, letters, `#`, `@` and `_` in it, evaluates to its number |
| ExprTexts.HexText | expr.c:1206-1219 | `0x` and hexadecimal digits evaluate to the number they spell, in 64 bits |
| ExprTexts.OctalText | expr.c:1206-1219 | so do 0 and octal digits |
| ExprTexts.BaseText | expr.c:1206-1219 | and `b#digits`, for every base from 2 to 64 |
| ExprTexts.UnaryText | expr.c:841-869 | a unary operator, spelled out, and a number |
| ExprTexts.CondText | expr.c:536-580 | `a ? b : c` is b unless a is 0 |
| ExprTexts.AssignText | expr.c:448-533 | `x = n` sets x |
| ExprTexts.UpdateText | expr.c:448-533 | `x op= n` for the ten operators, spelled out |
| ExprTexts.StepTexts | expr.c:871-962 | `++ x`, `-- x`, `x ++` and `x --` |
| ExprWords.NameText | expr.c:1146-1206 | a word of letters, digits and underscores that does not begin with a digit is a variable |
| ExprWords.NumberWord | expr.c:1206-1219 | a word that begins with a digit has a value exactly if it is a good number, and ends evaluation otherwise |
| ExprWords.BlankSkipped | expr.c:1130-1136 | a space, tab or newline before a word is passed over |
| ExprWords.NoWord | expr.c:1278-1287 | any character but blanks, letters, digits, underscores and those of the operators is an error |
| ExprWords.EmptyText | expr.c:395-405 | nothing but blanks evaluates to 0 |
| ExprWords.ChainEvaluates | expr.c:250-256 | n variables that stand for each other in a row, the last one holding an integer, evaluate to it if n is less than 1024, and to the error of too deep a recursion if not |
| ExprWords.SelfReference | expr.c:250-256 | so does a variable that stands for itself |
| ExprWords.NumberAssigned | expr.c:448-476 | nothing is assigned to a number, whatever follows |
| ExprWords.SteppedAssigned | expr.c:1186-1196 | `++x=` and `--x=` step the variable, whose value is read although `=` follows, and then fail, whatever comes behind |
| ExprWords.NothingThen | expr.c:536-556 | nothing between `?` and `:` is an error, whatever follows |
| ExprTree.DeadOperandIsPure | expr.c:536-640 | in the semantics of trees an operand that is not live, however deeply it assigns and increments, leaves the variables alone; together with `EvaluatesPrintedTree` so does the code on its print |
| ExprDead.ReadTokPure | expr.c:1122-1297 | reading any token of any text stores nothing while every variable is empty or holds an integer, at any depth |
| ExprDead.ParseIntegers | expr.c:432-962 | and every evaluation, of any text, also one that fails, leaves only integers and empty variables in such a store |
| ExprDead.DeadRight | expr.c:582-638 | the right operand of `&&` and of the logical or that is superfluous stores nothing, on any text and any store, its first token included |
| ExprDead.DeadArm | expr.c:536-580 | an arm of `?:` that is not taken leaves the store alone exactly if reading its first token does, on any text and any store |
| ExprDead.DeadArmIsPure | expr.c:536-580 | for any text that `?:` accepts, on a store of integers, the store afterwards is what the condition and the arm taken leave |
| ExprDead.DeadArmStores | expr.c:536-580 | `0?y:1` with `z=5` in y sets z |
| ExprLex.VariableInteger | expr.c:990-1058 | the value of a variable that holds the print of an integer is that integer, through the nested evaluation |
| ExprEval.ReadTok | expr.c:1122-1297 | the lexer ends, consumes input before the end, keeps text, depth and `noeval`, and stores nothing while `noeval` is set |
| ExprEval.VariableValue | expr.c:990-1058 | reading a variable changes nothing of the token state, and no store while `noeval` is set, whatever text it holds |
| ExprEval.SubExpr | expr.c:395-430 | a successful nested evaluation restores the saved token state; it ends for self-referential variables too |
| ExprEval.Parse | expr.c:432-962 | every level function ends, puts `noeval`, text and depth back, and stores nothing while `noeval` is set, also on errors |
| ExprEval.CondTail | expr.c:536-580 | the same for `?:`, whose dead arm is read with `noeval` raised |
| ExprEval.AssignTail | expr.c:448-533 | the same for assignment and the eight assigning operators |
| ExprEval.LeftLoop | expr.c:582-815 | the same for the loops of the left-associative levels, with the short cuts of the logical operators |
| ExprMachine.Evaluator.EvalExp | expr.c:355-394 | the value, validity and store are those of `ExprEval`; the context stack is empty afterwards on success and, by the count-down of the unwinding, on error |
| ExprMachine.Evaluator.Unwind | expr.c:291-306 | the count-down frees every context once and ends at depth 0, provided that the stack is not empty |
| ExprMachine.Evaluator.SubExpr | expr.c:395-430 | the method over the global state does what `ExprEval.SubExpr` says, leaves the stack as it was on success, and not empty on failure |
| ExprMachine.Evaluator.PushExp | expr.c:250-272 | the token state goes on the context stack |
| ExprMachine.Evaluator.PopExp | expr.c:274-289 | and comes back |
| ExprMachine.Evaluator.ReadTok | expr.c:1122-1297 | the lexer, with its look-ahead behind names, against `ExprEval.ReadTok` |
| ExprMachine.Evaluator.ExprStreval | expr.c:990-1058 | for scalars, against `ExprEval.VariableValue` |
| ExprMachine.Evaluator.ExpComma | expr.c:432-446 | the comma loop against `ExprEval.Parse` |
| ExprMachine.Evaluator.ExpAssign | expr.c:448-533 | assignment against `ExprEval.Parse` |
| ExprMachine.Evaluator.ExpCond | expr.c:536-580 | `?:` against `ExprEval.Parse` |
| ExprMachine.Evaluator.ExpLor | expr.c:582-609 | the loop of the logical or, which raises `noeval` for a dead operand |
| ExprMachine.Evaluator.ExpLand | expr.c:611-638 | the same for the logical and |
| ExprMachine.Evaluator.Binary | expr.c:640-815 | the loops of the other binary levels, errors of division strict in skipped operands |
| ExprMachine.Evaluator.ExpPower | expr.c:817-839 | right-associative powers |
| ExprMachine.Evaluator.Repeat | expr.c:828-836 | the multiplying loop is the wrapped power |
| ExprMachine.Evaluator.Exp1 | expr.c:841-869 | the unary operators |
| ExprMachine.Evaluator.Exp0 | expr.c:871-962 | primaries, and increments before and after names |
| Int64.PowLoopMeaning | expr.c:817-839 | multiplying with wrap-around n times gives the mathematical power, wrapped once |
| Numerals.ReadNumber | expr.c:1325-1395 | the scanning loop of `strlong` against its recursive specification |
| Numerals.StrlongDecimal | expr.c:1314-1395 | `strlong` undoes decimal printing, modulo 2 to the 64 |
| Numerals.StrlongHex | expr.c:1314-1395 | the same for `0x`, with letters of either case |
| Numerals.StrlongOctal | expr.c:1314-1395 | the same for a leading 0 |
| Numerals.StrlongBase | expr.c:1314-1395 | the same for `b#digits` in every base from 2 to 64, case-insensitive up to 36 |
| Numerals.StrlongGood | expr.c:1314-1395 | a literal is accepted exactly if it is decimal digits, `0x` and hexadecimal ones, 0 and octal ones, or a base from 2 to 64, a hash sign and digits of that base |
| BraceTree.ExpandsPrintedTree | braces.c:99-280 | for every tree of literals, `${ }`, groups of two or more alternatives and sequence terms, `brace_expand` of its print is the product over the concatenation and the union over alternatives, left to right; a sequence gives its terms, or stays in its braces if it has none, and the rest is expanded all the same |
| BraceTree.ExpandsBehind | braces.c:99-280 | the same behind any text in which no brace expression opens |
| BraceLaws.AlternativesLaw | braces.c:99-340 | `f{w1,...,wn}p` gives every w between f and p, in order |
| BraceLaws.TwoGroups | braces.c:732-782 | two groups give every pair, the second varying fastest |
| BraceLaws.SequenceLaw | braces.c:225-262 | `f{s}p` without a comma gives every term of s between f and p; if s has none the whole text stays |
| BraceStray.Unclosed | braces.c:594-713 | an open brace that nothing closes is a character, and what follows is expanded |
| BraceStray.Unopened | braces.c:594-713 | so is a closing brace that nothing opens |
| BraceStray.NoAlternatives | braces.c:594-713 | so are braces around text without a comma and without two dots that something follows |
| BraceStray.BlankAtStart | braces.c:677-690 | an open brace at the beginning is a character if a blank or a closing brace follows |
| BraceStray.NextToBlanks | braces.c:677-690 | so is one behind a blank |
| BraceStray.BlankWithin | braces.c:594-713 | behind anything else it opens a group, of which the blank or brace is part |
| BraceStray.QuotedIsInert | braces.c:622-664 | nothing between single, double or back quotes matters to brace expansion |
| BraceStray.CommaMatters | braces.c:205-224 | a comma makes alternatives unless a backslash is before it |
| BraceTree.ExpandsAlts | braces.c:280-340 | `expand_amble` of the print of alternatives is their expansions one after the other |
| BraceTree.GobbleTree | braces.c:594-713 | the gobbler passes over the print of a tree, nested groups, quoted segments and escapes included, with its counters unchanged |
| BraceTree.ProductNeutral | braces.c:732-782 | the shortcuts of `array_concat` for a lone empty string agree with the general product |
| BraceTree.ProductAssociative | braces.c:732-782 | so the order of concatenation does not matter |
| BraceText.Find | braces.c:594-713 | the gobbler ends at the character looked for or at the end of the text, behind its start |
| BraceMachine.BraceGobbler | braces.c:594-713 | the loop with level, quote and comma counters against its specification |
| BraceMachine.ArrayConcat | braces.c:732-782 | the loops give the product, in order |
| BraceMachine.Expand | braces.c:99-280 | `brace_expand` against the specification, on ever shorter text |
| BraceMachine.Amble | braces.c:280-340 | `expand_amble` against the specification |
| BraceMunge.RoundTrip | bracecomp.c:46-150 | for every non-empty sorted list of words without NUL, expanding what `really_munge_braces` makes of it, and taking the backslashes away, gives the list in order |
| BraceFactored.MungeIsFactored | bracecomp.c:64-150 | the result is the print of a tree in which no two alternatives of any group stand for words that begin alike, so that every common beginning stands in front, and which expands to the words |
| BraceMunge.GcdBetween | bracecomp.c:46-62 | the common prefix of the first and last of sorted words is common to all between |
| BraceMunge.Splits | bracecomp.c:64-150 | a group of two or more words splits strictly at the prefix that its first and last word share, which is why the recursion ends |
| BraceMunge.QuoteInert | lib/sh/shquote.c:224-260 | quoted text contains nothing that brace expansion looks at |
| BraceMunge.ProtectsMeaningful | lib/sh/shquote.c:36-63 | exactly blanks, operators, quotes, expansions, patterns, braces and history characters get a backslash, each one, and a hash sign at the beginning; all others are left alone |
| MungeMachine.StringGcd | bracecomp.c:46-62 | the loop finds the length of the common prefix |
| MungeMachine.BackslashQuote | lib/sh/shquote.c:224-260 | the loop quotes the characters of the table |
| MungeMachine.ReallyMungeBraces | bracecomp.c:64-150 | the loops that grow the result and overwrite its last character, against `BraceMunge.Munge` |
| MkSeq.Make | braces.c:356-470 | the terms are exactly start + k*incr, sign corrected, 0 taken as 1, for k up to the quotient, or none in exactly the stated cases of overflow; they fit their vector exactly if their number is at most the largest int |
| MkSeq.Fill | braces.c:356-470 | the loop ends after the quotient plus one terms, before any sum overflows |
| MkSeq.FitsIff | braces.c:356-470 | the conversion to int behind that: a count survives it exactly if it is at most the largest int |
| MkSeq.TruncatedCount | braces.c:356-470 | bounds that are not refused although their 2 to the 32 plus one terms get a vector for one |
| MkSeq.LastIsNearest | braces.c:356-470 | the last term is not past the end, and one more would be |
| MkSeq.StepLeads | braces.c:373-385 | the increment is the one asked for up to its sign, or 1, and leads toward the end |
| MkSeq.OverflowTests | braces.c:354-364 | the test of a sum is exact, that of a difference has two to spare |
| MkSeq.RefusedNear | braces.c:387-411 | bounds near enough are refused exactly if there are more than 2147483645 terms |
| MkSeq.Padded | braces.c:427-433 | a padded number is as wide as asked for, or wider without zeros, the zeros behind the sign |
| ShellMachine.Shell.Execute | execute_cmd.c:529-566 | a command run with the counters and flags ends with the trace, status, counters and `loop_level` of the structured semantics; flags grow only below the command and never beyond the static exempt context |
| ShellMachine.Shell.RunPart | execute_cmd.c:2484-2561 | setting the flag of a part before running it has the same meaning as an exempt context |
| ShellMachine.Shell.SimpleCommand | execute_cmd.c:763-950 | a simple command ends the shell if it fails, set -e is on, and it is neither flagged nor inverted |
| ShellMachine.Shell.BreakCommand | builtins/break.def:64-87 | break clips its count to `loop_level`; a count that is not positive fails and leaves all loops |
| ShellMachine.Shell.ContinueCommand | builtins/break.def:104-127 | the same for continue |
| ShellMachine.Shell.Connection | execute_cmd.c:2431-2573 | `;`, `&&` and the or-list |
| ShellMachine.Shell.ForCommand | execute_cmd.c:2585-2723 | for loops |
| ShellMachine.Shell.ArithForCommand | execute_cmd.c:2791-2873 | arithmetic for loops, including the `loop_level` left raised by a bad first expression |
| ShellMachine.Shell.WhileOrUntil | execute_cmd.c:3341-3400 | while and until, including the counters that the test leaves behind |
| ShellMachine.Shell.IfCommand | execute_cmd.c:3403-3432 | if, else and their flags |
| ShellMachine.Shell.CaseCommand | execute_cmd.c:3214-3313 | case with `;;`, `;&` and `;;&` |
| ShellMachine.FlagsFrame | execute_cmd.c:2484-2561 | flags on other nodes do not exempt a command |
| ShellLaws.ErrexitExact | execute_cmd.c:842-850 | with set -e the shell ends exactly at the first failing simple command outside the static exempt positions, with its status; never otherwise |
| ShellBranches.IfRuns | execute_cmd.c:3403-3432 | if: the test runs first; if it came out normally with status 0, the then part runs, with its status that of the whole, and no event behind has to do with the else part; with any other status the other way round; if it did not, neither part leaves an event |
| ShellBranches.IfNoElse | execute_cmd.c:3414-3432 | without an else part a failing test is all, with status 0 |
| ShellBranches.ConnectionRuns | execute_cmd.c:2431-2573 | `;`, `&&` and the or-list: the second part runs exactly if the first came out normally and, for the two others, with status 0 or with another one; if not, it leaves no event |
| ShellBranches.SimpleRuns | execute_cmd.c:763-950 | a simple command happens once, with the status it has then, turned over by a `!`; it ends the shell exactly if it fails, set -e is on, and it is in no exempt context and without a `!` |
| ShellBranches.BreakRuns | builtins/break.def:64-127 | break n and continue n leave n of the loops around, all of them if there are fewer, and do nothing outside; counts that are not positive fail and leave all |
| ShellBranches.GroupRuns | execute_cmd.c:900-950 | a group does what its body does, its status turned over by a `!` |
| ShellBranches.CaseRuns | execute_cmd.c:3266-3308 | every run of case is a path: clauses are tested in order, the action of one that matches is run, and then it ends for `;;`, runs the next action for `;&`, or tests on for `;;&`; after a break or continue no action is run |
| ShellBranches.FirstMatch | execute_cmd.c:3266-3308 | if no clause matches nothing is run and the status is 0; if the first that does ends in `;;`, the command comes out as its action does |
| ShellBranches.CaseLeavesOut | execute_cmd.c:3266-3308 | the action of a clause leaves no event unless the clause matched or the one before falls through |
| ShellLoops.ForRuns | execute_cmd.c:2585-2723 | for: the words are expanded once, and the body is run for each of them in order as long as it comes out normally or with continue 1; then the loop ends, with the status of the last body and one loop less to break or continue |
| ShellLoops.ArithForRuns | execute_cmd.c:2791-2873 | arithmetic for: rounds of test, body and update, ending at a test that is 0 or bad, a body that does not go on, or a bad update; a bad expression fails; a bad first one ends it at once, one loop deeper |
| ShellLoops.LoopRuns | execute_cmd.c:3341-3400 | while and until: rounds of test and body; the body is run exactly if the test comes out with status 0, for until with another one, and says neither break nor continue; the loop ends with the status of the last body, or 0 |
| ShellLoops.NoRound | execute_cmd.c:3341-3400 | a loop whose first test ends it leaves no event of its body |
| ShellLaws.LoopLevelExact | execute_cmd.c:2809-2820 | `loop_level` comes back to what it was, plus one for each arithmetic for loop with a bad first expression |
| ShellLaws.CountersInReach | execute_cmd.c:3355-3395 | at the end of any run of any command the counters are at most `loop_level` exactly if no test that ended its loop did so with a continue to the outermost loop |
| ShellLaws.TameInReach | execute_cmd.c:3355-3395 | which cannot happen in a program without continue in loop tests |
| ShellLaws.OutsideLoops | execute_cmd.c:547-548 | a run from outside all loops comes back there exactly without bad first expressions, and then nothing is under way exactly without such tests |
| ShellLaws.TestInReach | execute_cmd.c:3365-3376 | a test that ends its loop leaves the counters in reach exactly unless it continues the outermost loop |
| ShellLaws.ContinueInTest | execute_cmd.c:3371-3376 | `until continue` leaves a continue under way outside all loops |
| ShellLaws.BreakAfterBadInit | execute_cmd.c:2816-2820 | a break after a bad arithmetic for stays under way outside all loops |
| ShellLaws.RunScript | execute_cmd.c:377-400 | the three laws for a whole run of a fresh shell |
| ShellFuel.FuelIrrelevant | execute_cmd.c:2631-2865 | the bound on loop rounds is no part of the meaning: a run that ends is the same under every larger bound |
| ArrayRuns.RunsAsMaps | array.c:58-120 | in any run of inserts (index not negative), removals, references, shifts, right shifts and flushes over several arrays, each operation does to its array and answers what the map operation does, and leaves the others alone |
| ArrayRuns.Run | array.c:58-120 | the operations on the linked lists with the shared cache give exactly that run |
| ArrayRuns.EffectIsMapEffect | array.c:207-301 | each list operation is its map operation; shifting out takes the smallest keys, in order |
| ArrayModel.SameContents | array.h:30-42 | a sorted list of elements is determined by the map it holds |
| ArrayModel.InsertIsUpdate | array.c:611-664 | `array_insert` is map update and keeps the order; the "problem" exit is taken exactly for a negative index and an empty array |
| ArrayModel.RemoveIsRemoval | array.c:670-699 | `array_remove` is map removal |
| ArrayModel.ReferenceIsLookup | array.c:705-724 | `array_reference` is map lookup |
| ArrayModel.RankBelowIndex | array.c:207-258 | the element of rank k has an index of at least k |
| ArrayModel.ShiftKeeps | array.c:207-258 | so shifting keeps every retained index from being negative, and the order |
| ArrayModel.ShiftedContents | array.c:207-258 | the retained elements are those of rank n and up, n lower |
| ArrayModel.RshiftKeeps | array.c:267-301 | a right shift keeps the order exactly if the new element 0 comes before the rest |
| ArrayModel.PushPop | array.h:106-109 | `array_pop` undoes `array_push` of a value on every array, and of a null pointer only on an empty one |
| ArrayRuns.PushThenPop | execute_cmd.c:4491-4577 | pushing a value at the start of a call and popping it at the end restores the array, whatever the cache held |
| ArrayStore.Store.Create | array.c:87-101 | a new array is empty, has a head of its own, and leaves all others as they are |
| ArrayStore.Store.Insert | array.c:611-664 | on the list, from the cached element if it is not behind the index: links, order, counters and cache stay right, other arrays are untouched |
| ArrayStore.Store.Remove | array.c:670-699 | the same; the element comes out of the list with its index and value |
| ArrayStore.Store.Reference | array.c:705-724 | the same; the answer does not depend on the cache |
| ArrayStore.Store.Shift | array.c:207-258 | the same; the elements shifted out come back as a null-terminated chain unless disposed of |
| ArrayStore.Store.Rshift | array.c:267-301 | the same, and the number of elements is returned |
| ArrayStore.Store.Flush | array.c:103-120 | the same, leaving the head alone |
| ArrayStore.Store.Copy | array.c:133-151 | a copy has the same elements in a list of its own |
| ArrayStore.Store.LastrefStart | array.c:60-64 | the search starts at an element that is not behind the place looked for |
| CompoundAssign.AssignWords | arrayfunc.c:467-616 | the loop over the words leaves the map that folding the words gives, from the empty map or from the array for `+=` |
| CompoundAssign.AssignWord | arrayfunc.c:500-615 | one word: plain, `[k]=v`, `[k]+=v`, negative subscripts, refused and malformed ones |
| CompoundAssign.PlainWords | arrayfunc.c:573-608 | plain words take consecutive indices from 0, or from behind the last element |
| CompoundAssign.PlainRun | arrayfunc.c:573-608 | and from the running index on, wherever it stands, leaving all other elements alone |
| CompoundAssign.IndexedThenPlain | arrayfunc.c:546-608 | `[k]=v` resets the running index: any number of plain words behind it take k+1, k+2 and so on, for `=` and `+=`, and nothing else changes |
| CompoundAssign.NegativeSubscript | arrayfunc.c:548-556 | behind any words, a negative subscript counts back from one behind the last element they leave; before the first place the word is skipped and the running index stays |
| CompoundAssign.AppendToElements | arrayfunc.c:514-608 | all along the words of a `+=` every element holds what it held and what the words brought it, exactly if each malformed word finds the same text in element 0 as where it goes |
| CompoundAssign.MalformedTakesFirst | arrayfunc.c:514-530 | a word that only begins like a subscript is added to the value of element 0, wherever it goes, and so to its own exactly if the two are the same |
| CompoundAssign.MalformedExample | arrayfunc.c:514-530 | `b=(x y)` and `b+=([z)` make element 2 `x[z` |
| CompoundAssign.SubscriptWord | arrayfunc.c:546-590 | a flagged word `[sub]=value` leaves exactly value at the place that sub evaluates to, and `[sub]+=value` adds it to what is there; all other places stay, and the running index goes behind |
| CompoundAssign.RefusedWord | arrayfunc.c:532-546 | such a word with an empty subscript, `@` or `*` changes nothing |
| CompoundAssign.BareWord | arrayfunc.c:591-597 | a word that is not flagged, or does not begin with `[`, leaves its whole text at the running index |
| CompoundAssign.BrokenWord | arrayfunc.c:514-530 | a flagged word that begins with `[`, but whose subscript is not closed or has neither `=` nor `+=` behind it, leaves its whole text at the running index, behind the value of element 0 when appending |
| HashCode.HashFits | hashlib.c:128-148 | a hash is a 32-bit number |
| HashCode.HashBits | hashlib.c:128-148 | a character multiplies the hash of the text before it by 16777619 in 32 bits, and then turns over exactly the bits that the character, sign-extended, has |
| HashCode.FactorUndone | hashlib.c:128-148 | the multiplication loses nothing |
| HashCode.DifferOnce | hashlib.c:128-148 | texts of one length that differ in one character have different hashes |
| HashCode.BucketIsRemainder | hashlib.c:39-41 | with a power of two of buckets the mask takes the remainder |
| HashCode.HashString | hashlib.c:128-148 | the hashing loop |
| HashTables.HashTable.Search | hashlib.c:164-204 | finds the node of a key, or makes one for a new key if asked; every key stays once, in the bucket of its hash, hash cached, `nentries` the number of keys |
| HashTables.HashTable.Insert | hashlib.c:243-277 | the same for `hash_insert` |
| HashTables.NoSearch | hashlib.c:256-274 | without a search each key stays there once exactly if the key is new |
| HashTables.HashTable.Remove | hashlib.c:206-239 | removal from the middle or the front of a chain is map removal; the node comes back with its data |
| HashTables.HashTable.Flush | hashlib.c:279-313 | no key is left |
| HashTables.HashTable.Copy | hashlib.c:74-126 | a copy holds the same map in nodes of its own |
| HashTables.CopyBucket | hashlib.c:74-106 | the loop that copies a chain at its tail |
| AssocArrays.Insert | assoc.c:68-87 | `assoc_insert` is map update |
| AssocArrays.Replace | assoc.c:89-111 | and `assoc_replace` gives the old value back |
| AssocArrays.Remove | assoc.c:113-127 | `assoc_remove` is map removal |
| AssocArrays.Reference | assoc.c:129-141 | `assoc_reference` is map lookup |
| AssocArrays.WordList | assoc.c:482-502 | the list turned round holds the words of all nodes, bucket by bucket |
| AssocArrays.ListsPairUp | assoc.c:482-517 | each key is listed once, and its value is at the same place in the list of values |
| BurpBuffer.Burp.Insert | burp.c:116-133 | inserting is splicing, for any text and offset, and the growing ends |
| BurpBuffer.Burp.Extend | burp.c:111-114 | inserting at the end is appending |
| BurpBuffer.Burp.Rtrim | burp.c:247-255 | the blanks at the end go, all of them and nothing else |
| BurpBuffer.Burp.Increase | burp.c:84-109 | the capacity goes from 1016 to its double less eight, the text stays |
| BurpBuffer.Burp.Put | burp.c:135-165 | a character goes behind the indentation of its line |
| BurpBuffer.Burp.PutText | burp.c:196-212 | so does a text, character by character |
| BurpText.AddedLine | burp.c:149-212 | the spaces of a line come once, before its first character |
| BurpText.AddedPlain | burp.c:149-212 | within a line nothing is added |
| BurpText.SpacesAre | burp.c:149-165 | the indentation is blanks, as many as asked for |
| BurpBuffer.Burp.EscQuote | burp.c:214-245 | the text grows by the number of quotes up to the NUL, and from the offset on becomes its escaped form exactly if none of them is behind the text |
| BurpBuffer.Burp.Spread | burp.c:228-241 | in place, the write cursor ahead by the number of quotes still unread and of those behind the text |
| BurpBuffer.QuoteBehind | burp.c:170-245 | a text `a`, shortened in front of a quote, comes out two characters long |
| BurpText.EscapeRoundTrip | burp.c:214-245 | unescaping gives the text back, for every quote character |
| BurpText.NoMore | burp.c:219-223 | counting up to the NUL behind a shortened text is right exactly if no quote is left there |
| BurpText.ShiftedRight | burp.c:214-245 | the moved buffer begins with the escaped text exactly then |
| QuoteMeaning.RewriteKeepsMeaning | fix_string.c:289-479 | for every text in scope, with quotes and substitutions nested in each other to any depth, one scan with the stack of contexts of the shell (parse.y:3745-4010) and the flag of the code next to each other has one of three verdicts: Kept, and the rewritten text says the same, every character, whether it is quoted, whether it may start an expansion, and where substitutions begin and end; Lost, and it does not; or Stray, and it does not either if the text has no backslash |
| QuoteMeaning.KeptIsKept | fix_string.c:289-479 | the same for the rest of a text, in whatever contexts the shell is and whatever the flag is |
| QuoteMeaning.LostIsLost | fix_string.c:289-479 | and what the scan calls lost is lost there, however the text goes on |
| QuoteMeaning.Ahead | fix_string.c:289-479 | once the code says less than the shell reads it never catches up |
| QuoteMeaning.Behind | fix_string.c:300-352 | nor does the shell after a dollar sign that the code has copied although it stands before double quotes |
| QuoteMeaning.Overtaken | fix_string.c:300-352 | nor, without backslashes, after single quotes that the code has left and then closed with a double quote |
| QuoteReading.PatternKept | parse.y:3872-3902 | the operator that decides whether single quotes are quotes in `${ }` between double quotes is found again in the rewritten text |
| QuoteSteps.EscapeDecodes | fix_string.c:363-466 | the escape of a byte that needs one is read back as that byte, in quotes and outside |
| QuoteSteps.EscapeIsLiteral | fix_string.c:363-466 | and each byte between single quotes comes out as itself, quoted |
| QuoteRewrite.EscapeForms | fix_string.c:363-466 | what a byte between single quotes comes out as: printable ones as they are, `$`, backquote, double quote and backslash behind a backslash, the others as C writes them or as `\x` and two hexadecimal digits |
| QuoteRewrite.QuotedText | fix_string.c:289-479 | a text in single quotes comes out in double quotes, every byte escaped so, and the rest is rewritten as if it stood alone |
| QuoteRewrite.NothingToRewrite | fix_string.c:289-479 | a text without single quotes in which no dollar sign stands before a double quote comes out unchanged |
| QuoteInputs.BackslashMisleads | fix_string.c:300-325 | `"\"'"` is rewritten wrongly: the code takes the escaped quote for a closing one |
| QuoteInputs.EscapedQuote | fix_string.c:300-309 | without the single quote, `"\""`, it is right |
| QuoteInputs.BackslashMisleadsOutside | fix_string.c:300-325 | `\"'a'` is rewritten wrongly |
| QuoteInputs.LetterBecomesNewline | fix_string.c:345-352 | `\n` outside quotes, which is the letter n to the shell, is copied, and read as a newline |
| QuoteInputs.NestedQuotes | fix_string.c:300-325 | `"$("'")"` is rewritten wrongly: the code takes the inner double quote for a closing one |
| QuoteInputs.NestedInWord | fix_string.c:300-325 | so is `"${x-"'"}"` |
| QuoteInputs.NestedLetter | fix_string.c:300-325 | `"$("i")"` is right |
| QuoteInputs.LeftToTheShell | fix_string.c:310-325 | so is `"$('i')"`, whose single quotes are left as they are for the shell that runs the substitution |
| QuoteInputs.StrayQuote | fix_string.c:300-325 | `"$('"')"` is wrong: the double quote changes the flag, and the second single quote is taken for an opening one |
| QuoteInputs.StrayByChance | fix_string.c:289-479 | a text of 45 characters with backslashes in which the same happens, and which means the same all the same |
| QuoteRewrite.ReplaceSingleQuotes | fix_string.c:289-479 | the loop with its quote state against the specification |
| GlobNested.ConversionKeepsLanguage | fix_string.c:1656-1758 | every pattern without unprotected `.`, `^`, `+` and brace quantifiers, whose groups with wildcards survive losing their kind, is converted to a regular expression that matches the same newline-free texts in full, in greedy and ungreedy mode |
| GlobConvert.ConvertsTo | fix_string.c:1656-1758 | the text put out for any pattern of literals, escapes, `*`, `?` and unnested groups: each element in its Python form, a group without its kind exactly if a wildcard in it has reset the glob type |
| GlobReading.ConversionReads | fix_string.c:1656-1758 | how Python reads that text, for any such pattern: element by element, an unprotected plus sign or brace quantifier with the atom before it, or not at all where that is an error |
| GlobLazy.ConversionIsLazy | fix_string.c:1744-1757 | each quantifier that Python reads in the converted text of any such pattern, and whether it is lazy: those of `*`, and of `*( )` and `+( )` that keep their kind, exactly in ungreedy mode, those of `?( )` and those among the characters of the pattern never |
| GlobLazy.MarksAreRead | fix_string.c:1744-1757 | the reader of quantifiers sees those of the pieces that the reader of regular expressions sees |
| GlobConvert.GroupOpens | fix_string.c:1661-1713 | what is put out where a group opens, and the type in force in it, whatever is in the group; `!(` begins a negative look-ahead |
| GlobNested.ConvertsPattern | fix_string.c:1656-1758 | so without such characters it is read as the pieces of the pattern |
| GlobMeaning.SameLanguage | fix_string.c:1656-1758 | and those match what the pattern does |
| GlobMeaning.GroupIsPiece | fix_string.c:1661-1713 | a group matches the words it allows, as often as its kind says, exactly if the repeated choice does |
| GlobNewlines.NewlinesExact | fix_string.c:1692-1702 | for every such pattern: all texts, those with newlines included, are matched alike exactly if all newline-free ones are and the pattern has no wildcard |
| GlobActive.ActiveExact | fix_string.c:1661-1759 | a pattern whose groups survive, have no unprotected `.`, `^`, `+` or brace quantifier in them, and no brace quantifier behind them, keeps what it matches exactly if it has none of these elsewhere |
| GlobActive.FlatExact | fix_string.c:1663-1759 | so for every pattern without groups |
| GlobActive.TooShort | fix_string.c:1661-1759 | such a pattern, with one of them, does not match the shortest text that its regular expression matches |
| GlobActive.ShortestFits | fix_string.c:1661-1713 | the shortest text of a group is one for the shell and for Python |
| GlobInputs.BracesHelp | fix_string.c:1661-1759 | `@(\{2\}){2}` keeps what it matches although its braces have become a quantifier |
| GlobNested.GroupSurvives | fix_string.c:1684-1713 | a group matches what one of its alternatives does exactly if one is empty or only stars, where its kind allows none, and they are closed under following each other, where it allows two |
| GlobNested.NestedExact | fix_string.c:1684-1713 | for a group with any wildcards among literals, none of them active: the conversion keeps the language exactly if the group survives |
| GlobNested.OneAlternativeSurvives | fix_string.c:1684-1713 | which can be read off a group of one alternative: its kind is `@`, or `+` and it has a star, or it is nothing but stars |
| GlobClosed.ClosedTested | fix_string.c:1684-1713 | and for several can be found out by trying finitely many texts: a foreign character for each `?`, and up to n of them for each `*` |
| GlobClosed.NestedTested | fix_string.c:1684-1713 | the condition of `NestedExact` in those terms |
| GlobInputs.DotMatchesAnything | fix_string.c:1656-1758 | `*.c` does not match `xc`, its conversion does |
| GlobInputs.PlusBecomesQuantifier | fix_string.c:1663-1668 | `a+` does not match `a`, its conversion does |
| GlobInputs.NestedStarLosesKind | fix_string.c:1684-1702 | `*(a*)` matches the empty text, its conversion does not |
| GlobInputs.NestedCharLosesKind | fix_string.c:1684-1713 | `+(?)` matches `ab`, its conversion does not |
| GlobInputs.ContextHelps | fix_string.c:1684-1713 | `+(?)*` keeps its language although its group does not survive |
| GlobConvert.ConvertPattern | fix_string.c:1606-1759 | the loop with its glob type against the specification |

## Left out

- Array subscripts in arithmetic, and variables that are unset under set -u: they end an evaluation as a separate error outcome; the code behind them is not part of this model.
- Shift counts outside 0 to 63 and the quotient of the least integer by -1: undefined in C, a separate error outcome here.
- A variable that holds an expression instead of an integer is evaluated as the code does, also before the arm of `?:` it starts is known to be dead; the theorem about trees is for stores of integers.
- Error message text, the position an error is reported at, and long jumps of the evaluator, which are error results.
- BraceMachine.BraceGobbler: text in which a dollar sign or an angle bracket opens a parenthesis is excluded, because the function that skips a command substitution is not part of this model.
- BraceMachine.Expand: the same.
- BraceMachine.Amble: the same.
- BraceText.Find: `$(` and the like, as for the gobbler; multibyte characters are single characters.
- BraceTree.ExpandsPrintedTree: which texts in braces are sequences, and their terms, are a parameter, so `expand_seqterm`'s reading of numbers is not modelled; `MkSeq` has the terms. Unquoted blanks, and dollar signs before an open parenthesis, do not occur in trees; `BraceStray` has the braces next to blanks.
- MkSeq.Make: increments and bounds whose absolute value C cannot represent are excluded.
- ShellMachine.Shell.Execute: functions, subshells, pipes, asynchronous commands, redirections, select, traps, `((` and `[[` are not commands of the model; set -e does not change during a run.
- ShellMachine.Shell.SimpleCommand: the exit after a failed special builtin in posix mode, the ERR trap, and what the command itself does.
- ShellMachine.Shell.ForCommand: a loop variable that is read-only or not an identifier ends the loop in code that is not part of this model.
- ShellMachine.Shell.CaseCommand: the patterns of one clause are one test.
- ShellMachine.Shell.Connection: for `;` both parts are flagged before either runs; here the second is flagged when its turn comes, which no command can tell.
- Overflow of array indices beyond 64 bits, `array_slice`, the conversions of arrays to strings, and associative compound assignment.
- CompoundAssign.AssignWord: where a subscript ends in the text and what it evaluates to are parameters; integer, upper- and lower-case attributes and dynamic arrays are not modelled.
- ArrayStore.Store.Rshift: requires that the new element 0 comes before the rest, which `ArrayModel.RshiftKeeps` shows to be exactly what keeps the order; with negative indices left behind the list is no longer sorted.
- HashTables.HashTable.Insert: with HASH_NOSRCH requires a new key; `HashTables.NoSearch` shows that exactly then keys stay unique.
- Freeing of memory, failure of allocation, and null tables or arrays.
- BurpBuffer.Burp.Insert: text that lies inside the buffer itself, and sizes beyond an int.
- Formatted output into a buffer and logging.
- QuoteMeaning.RewriteKeepsMeaning: outside its scope are the ANSI-C quotes `$'...'`, for the code (`Covered`) or for the shell (`Readable`), and backslashes between backquotes. Verdict Stray decides nothing for a text with backslashes. What may hide quotes or parentheses from the shell in a substitution is not read as such: comments, here-documents, and case patterns without an opening parenthesis; `$(( ))` is read as a substitution with parentheses in it, and an operator of `${ }` is not looked for behind quotes or expansions in the name's subscript. Single quotes in `${x-word}` between double quotes are characters, as in posix mode (parse.y:3902). Indentation of the output buffer is taken as 0.
- The rewritten text is read as the shell reads it, with the escapes that the code itself writes, in quotes and outside, as `substitute` (fix_string.c:1739-1743) puts both into Python text. Other escapes of Python are not read, `\v` and octal numbers, nor is it modelled that Python keeps a backslash before other characters, or that `emitString` takes backslashes away once more within substitutions.
- QuoteRewrite.ReplaceSingleQuotes: text in which an ANSI-C quote opens.
- GlobConvert.ConvertPattern: `glob_type` is taken as 0 at first; the markers and the quoting around the converted text are not modelled.
- GlobNested.ConversionKeepsLanguage: one way only, because what is beside a group can make up for it (`GlobInputs.ContextHelps`); `GlobActive.ActiveExact` is exact where all groups survive, and `GlobNested.NestedExact` for one group among literals.
- GlobActive.ActiveExact: active characters in groups, and braces behind them (`GlobInputs.BracesHelp`).
- Patterns with nested groups, brackets, `!( )`, or a backslash before a letter or digit, all of which the code converts, the last three also to regular expressions that mean something else (`\d`, `[!a]`, a look-ahead).
- GlobReading.ConversionReads: Python's limit on the numbers in a brace quantifier, and the possessive quantifiers of Python 3.11.
- The emit functions, translate.c, translate_expr.c and dynamo.c, whose target semantics is Python's.
