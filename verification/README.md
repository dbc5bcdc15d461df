# Fuzzball MUCK in Dafny

A model of the parts of the Fuzzball MUCK server where the most can go wrong, with proofs of what they
promise.

**MUF back end and interpreter** (`src/compile.c`, `src/interp.c`). `Machine` is the interpreter as a step
function: integers with 32-bit wrap-around, truncating division, strings, scoped variables, the argument
stack, calls, TRY records and error unwinding; `Words` says in plain numbers what each word leaves. `Source`
gives structured words a meaning of their own, with
fuel so that divergence can be spoken of; `Layout` says what code they should become; `OnePass` is the
compiler that emits it word by word and patches addresses later. The claim that joins them is
`Backend.TranslationFaithful`: compiled in one pass, optimized in up to five passes and with its addresses
fixed, a program computes what its words mean, both ways. On the way `Correct` proves the layout right,
`Backpatch` the one pass, `Discipline` and `Typing` the TRY stack over whole runs, `Rules`, `Replacement`
and `Optimize` the rewriting of the list, `FetchClear` and `ClearPass` the analysis that clears variables
after their last use; `Runs` says what holds of the TRY stack over the runs of compiled and of optimized
code. `Interp`, `Compiler`, `Optimizer` and `Backend` are the same code as objects whose fields loops update
in place, each method proved to compute what the specification says. `Failures` takes three programs from
their words to the ends they come to.

**Arrays** (`src/array.c`). `Compare` is the comparator through nested arrays; `Sorted` is a dictionary as
an ordered sequence of entries; `Avl`, `Heights`, `Walk` and `Dictionary` are the tree, its height, its
traversal and its ranges; `Keys` says what they are for ints and strings; `AvlNodes` is the same tree as nodes relinked in memory; `Packed` is the packed
array, and `SharedDict` the dictionary, with its reference count, copy on write and pinning.

**Trees and graphs.** `Macros`, `MacroNodes`, `FoldTree` and `MacroFile` are the macro table, as a value
and as nodes, and its way to the file and back; `Parent` is the search for an object's parent; `Exits` is
the exit graph and the commands that change it.

**Connections** (`src/interface.c`). `Output` is the bounded output queue, `Quota` the command bucket.

**Locks** (`src/boolexp.c`, `src/unparse.c`). `Lock` is the parser, the printer, copying and evaluation;
`LockFile` is the format of the database file.

`CInts` is C's division, `Handles` the counting of handles, `Options` a datatype.

Where a property one would expect of the code is false, the project says so with a counterexample or with
the exact condition: `Correct.WhileMatchesIff` and `Failures.WhileInTryDies`, `Discipline.ScopeKeptIff` and
`Failures.HeaderLosesScope`, `Failures.BumpSeesClear`, `Packed.OwnEndsIff`, `Packed.RepeatedIff`,
`Macros.KillIsRemovalIff`, `FoldTree.LowestIff`, `MacroFile.LoadDepthIff`, `Parent.OtherOnCycle`,
`Lock.PrintParseIff` and `Lock.TimesParsed`.

`foldtree` (`src/db.c:391-413`) folds the left half of its chain but never hangs the folded right half under
the centre, so that half stays a chain; the model follows the code.

Every function that only computes is a specification: the table names the lemmas and methods about it.
`dafny verify dfyconfig.toml` checks everything.

## Model

| member | source | states |
|---|---|---|
| `Backend.TranslationFaithful` | src/compile.c:1335-1393 | for every well-formed program: on every suitable run the code that the one-pass compiler, up to five optimizer passes and address resolution produce yields a result exactly when the structured program means that result |
| `Backend.Translate` | src/compile.c:1335-1393 | the main line as a method over the two objects: its output code is the flat code of the optimized list of the tokens it was given |
| `Backend.CopyOut` | src/compile.c:1391-1393 | addresses are fixed and the program copied out: the code is the resolved list |
| `Correct.Sim` | src/compile.c:2484-2872 | laid-out code of any command, run from its first instruction, ends the way the structured meaning ends (falls through, breaks, continues, returns, fails), with the same stack and scope, or still runs when the meaning ran out of fuel |
| `Correct.SimIfElse` | src/compile.c:2484-2550 | the same for IF/ELSE/THEN: only the chosen branch runs, and both ends meet |
| `Correct.SimRepeat` | src/compile.c:2740-2784 | the same for BEGIN..REPEAT, each turn of the loop paying for one unit of fuel |
| `Correct.SimUntil` | src/compile.c:2600-2643 | the same for BEGIN..UNTIL |
| `Correct.SimTried` | src/interp.c:1375-1397 | the same for TRY/CATCH/ENDCATCH: a failing body is unwound and the handler runs on the protected stack and the message; BREAK, CONTINUE and EXIT leave the TRY |
| `Correct.SimCall` | src/interp.c:1321-1367 | the same for a call: two steps into the callee, its own scope, and the return to the caller with the scope it had |
| `Correct.ProgramAgrees` | src/interp.c:1058-1748 | running a loaded program does what its structured meaning says, for every program, stack and fuel |
| `Correct.MachineAgrees` | src/interp.c:1058-1748 | conversely, every machine run that ends is one the structured meaning accounts for, with the same result; so the two diverge together |
| `Correct.NoStrays` | src/compile.c:2644-2739 | a well-formed command ends by BREAK or CONTINUE only inside a loop, and the one fault the claims exclude (a header that fails inside a TRY) needs a procedure that takes arguments |
| `Correct.WhileLeavesTrys` | src/compile.c:2650-2673 | WHILE with n TRYs between it and its loop goes on, when its condition is true, with those n TRY records gone |
| `Correct.WhileMatchesIff` | src/compile.c:2650-2673 | the code of a WHILE does what the program says if and only if no TRY stands between it and its loop, or the test is false |
| `Failures.WhileInTryDies` | src/compile.c:2650-2673 | BEGIN 0 TRY 1 WHILE CATCH POP ENDCATCH REPEAT: its words are compiled, it means an endless loop, and the machine dies of a TRY stack underflow |
| `Backpatch.CompileCmd` | src/compile.c:2484-2872 | compiling the words of a command with back-patching emits exactly its layout, with the pending loop exits and the TRY nesting it should have, from every compiler state that fits |
| `Backpatch.CompileLoop` | src/compile.c:2600-2784 | closing a loop patches every exit recorded for it and no other |
| `Backpatch.CompileTry` | src/compile.c:2785-2872 | the back-patched TRY, CATCH and ENDCATCH |
| `Backpatch.CompileProg` | src/compile.c:2386-2483 | the same over all procedures, each at the address recorded for it |
| `Backpatch.OnePassIsLayout` | src/compile.c:313-344 | the one-pass compiler accepts every well-formed program and its resolved code holds the layout of every procedure |
| `Backpatch.NestedIsLayout` | src/compile.c:313-344 | the same for every well nested program, WHILE, BREAK and CONTINUE inside a TRY included, each procedure at the address recorded for it |
| `OnePass.Lookup` | src/compile.c:292-294 | the first entry of the address table that is the wanted pair, if there is one |
| `OnePass.WithAddr` | src/compile.c:279-310 | asking for an address keeps the entries there are and leaves one that is the wanted pair |
| `Compiler.CompState.GetAddress` | src/compile.c:279-310 | the table search as a loop: result and new table are those of the specification |
| `Compiler.CompState.PreallocInst` | src/compile.c:3796-3820 | the instruction set aside carries whether it lies inside a TRY |
| `Compiler.CompState.NewInst` | src/compile.c:3822-3838 | an instruction set aside earlier is used before a new one is made |
| `Compiler.CompState.CountTrysInsideLoop` | src/compile.c:3273-3292 | the TRYs above the innermost loop, counted on the control stack |
| `Compiler.CompState.AddLoopExit` | src/compile.c:3222-3244 | the exit is recorded with the innermost loop and nowhere else |
| `Compiler.CompState.PopLoopExit` | src/compile.c:3348-3370 | exits come back newest first |
| `Compiler.CompState.ResolveLoopAddrs` | src/compile.c:3373-3384 | all exits of the innermost loop, and only they, are patched |
| `Compiler.CompState.ProcessToken` | src/compile.c:2380-2988 | one token does to the compiler state what the specification says, and fails where it says, leaving the state alone |
| `Compiler.CompState.CompileAll` | src/compile.c:1337-1364 | the token loop computes the specified compilation |
| `Compiler.CompState.CopyProgram` | src/compile.c:3689-3766 | the resolved code of the state |
| `CInts.DivisionLaw` | src/p_math.c:176-211 | C quotient and remainder make up the dividend, the remainder smaller than the divisor and with the sign of the dividend |
| `Machine.WrapIs` | src/p_math.c:54-151 | a result is kept when it fits 32 bits and otherwise differs by whole turns |
| `Machine.StepsAdd` | src/interp.c:1058-1060 | runs compose: m + n steps are n steps after m |
| `Words.MathLeaves` | src/p_math.c:54-235 | m n and an operator leave the sum, difference or product up to whole turns of 32 bits, the quotient or remainder of C, and 0 for a divisor of 0, and touch nothing else |
| `Words.DivideLeaves` | src/p_math.c:153-235 | for the one q and x with m == n * q + x, x smaller than n and never of the other sign than m, / leaves q and % leaves x when they fit |
| `Words.FoldLeaves` | src/compile.c:1010-1098 | the optimizer puts such a result in the place of m n and an operator, and leaves them alone exactly when a division is by 0 |
| `Words.StackLeaves` | src/p_stack.c:26-258 | what pop, dup, swap and rot make of the items they find |
| `Words.TestLeaves` | src/p_math.c:323-430 | not, = and IF: false is 0 and the empty string and nothing else |
| `Words.CountLeaves` | src/p_math.c:578-668 | ++ and -- on an int, and on a variable that holds one |
| `Words.VariableLeaves` | src/p_stack.c:115-198 | fetching, storing and fetch-and-clear change and read just the one variable |
| `Words.StrcmpLeaves` | src/p_strings.c:1239-1255 | strcmp is negative exactly when the first string comes first: it ends after a common part, or has the smaller character there |
| `Words.ScopeIs` | src/interp.c:1332-1344 | the scope of a call holds its arguments in the order they were pushed, and zeros behind them |
| `Words.TestMeans` | src/compile.c:2484-2673 | IF takes its first branch, UNTIL ends and WHILE goes on exactly on what is not false |
| `Words.TryStartsIff` | src/interp.c:1375-1397 | TRY enters its block exactly when its count is an int from 0 up to the number of items left unprotected; it then protects all but that many |
| `Typing.CompiledTyped` | src/compile.c:2785-2872 | code for a well-formed program nests its TRYs statically, every jump names an entry of the table, and every instruction inside a TRY carries the flag that says so |
| `Discipline.StepKeeps` | src/interp.c:1207-1748 | every step of statically nested code keeps the invariant of the TRY stack, scopes and return stack |
| `Discipline.RunDiscipline` | src/interp.c:1375-1397 | over every run the TRY stack is as high as the nesting of the active calls, recorded levels and depths never decrease upward, and the argument stack reaches up to the innermost depth |
| `Discipline.PrefixKept` | src/interp.c:1375-1397 | over every run, as long as the record a TRY has pushed is there, the items below its depth are those that were there when it was pushed |
| `Runs.CompiledRuns` | src/interp.c:1058-1748 | both for the code the compiler makes of any well-formed program, whatever procedure is run on whatever stack, up to the first function header that fails inside a TRY |
| `Runs.OptimizedRuns` | src/interp.c:1058-1748 | both for the code the optimizer makes of it |
| `Discipline.HeightIs` | src/interp.c:673-700 | the TRY stack height equals the total static nesting of the places where the active calls resume |
| `Discipline.LevelsSorted` | src/interp.c:1388-1393 | an inner TRY record has at least the call level of an outer one |
| `Discipline.RaiseKeeps` | src/interp.c:1718-1738 | error unwinding keeps the invariant, and inside a TRY the program goes on |
| `Discipline.CaughtError` | src/interp.c:1551-1611 | an error raised any number of steps after a TRY, while its record is innermost, resumes after its CATCH with exactly the protected arguments and the message, the return stack and TRY stack from before the TRY, and the scopes of the calls that were active then |
| `Discipline.ScopeKeptIff` | src/interp.c:1321-1331 | after an error is caught every active call has its scope if and only if the error was not raised by a function header |
| `Failures.HeaderLosesScope` | src/interp.c:1321-1331 | a procedure with a variable calls another with too few arguments inside a TRY: its words are compiled, the run reaches the code after the CATCH with the scope gone, and fetching its own variable is an error |
| `Interp.Frame.Unwind` | src/interp.c:1718-1738 | the unwinding loop drops the calls made since the TRY with one scope each, or ends the program |
| `Interp.Frame.TakeArguments` | src/interp.c:1332-1344 | arguments popped from last to first fill the new scope in order, zeros after them |
| `Interp.Frame.ScopedvarPoplevel` | src/interp.c:203-219 | the innermost scope goes; an empty list stays empty |
| `Interp.Frame.StartTry` | src/interp.c:1375-1397 | the five checks of TRY in their order, and the record it pushes |
| `Interp.Frame.Catch` | src/interp.c:1551-1611 | the stack is cleared down to the recorded depth by a loop, and the message pushed |
| `Interp.Frame.TryPop` | src/p_stack.c:939-950 | TRYPOP removes the innermost record |
| `Interp.Frame.Turn` | src/interp.c:1207-1611 | one turn of the loop over the fields of the frame is one step of the machine |
| `Interp.Frame.InterpLoop` | src/interp.c:1058-1748 | the loop, given a number of turns, reaches exactly the state of that many steps |
| `Blocks.BlockSteps` | src/interp.c:1207-1345 | straight-line code that runs well is as many machine steps as it has instructions |
| `Blocks.RefinesTrans` | src/compile.c:1378-1382 | refinement composes, so passes may be chained |
| `Replacement.ShiftStep` | src/compile.c:770-829 | a step outside a replaced window is one step of the new code, with all addresses moved |
| `Replacement.WindowRun` | src/compile.c:938-1175 | the new code keeps up with the old over any number of steps |
| `Replacement.ReplaceRefines` | src/compile.c:938-1175 | replacing a block by one with the same effect, no jump leading inside, refines the whole program: it ends exactly when the old one does, with the same result |
| `Replacement.ReplaceTyped` | src/compile.c:938-1175 | and keeps the static TRY nesting |
| `Rules.FetchRule` | src/compile.c:964-985 | svar @ becomes svar@ |
| `Rules.StoreRule` | src/compile.c:964-985 | svar ! becomes svar! |
| `Rules.StrcmpRule` | src/compile.c:987-1008 | "" strcmp 0 = becomes not |
| `Rules.FoldRule` | src/compile.c:1010-1098 | folded constants are what the interpreter would compute, for the five operators, division by zero excluded |
| `Rules.EqualRule` | src/compile.c:1101-1111 | 0 = becomes not |
| `Rules.OneRule` | src/compile.c:1114-1137 | 1 + becomes ++ and 1 - becomes -- |
| `Rules.RotRule` | src/compile.c:1142-1154 | rot rot swap becomes swap rot |
| `Rules.NotRule` | src/compile.c:1156-1169 | not not if becomes if |
| `Rules.PickSound` | src/compile.c:938-1175 | whatever rule the optimizer picks at its cursor, the block it replaces has the effect of the shorter one |
| `Rules.PickTakes` | src/compile.c:938-1175 | wherever one of the eight patterns begins and enough of what follows is free, the optimizer takes it |
| `Optimize.RemovedTarget` | src/compile.c:770-789 | after RemoveNextIntermediate every address that does not lead into the removed node resolves, with its offset of 0 or 1, to the same surviving instruction |
| `Optimize.RemovedTargets` | src/compile.c:770-789 | the same for any number of removals at one place |
| `Optimize.HereTarget` | src/compile.c:792-829 | the same for RemoveIntermediate |
| `Optimize.AppliedReplaces` | src/compile.c:938-1175 | rewriting the list and fixing the addresses is a window replacement of the flat code |
| `Optimize.MarksFlag` | src/compile.c:922-936 | the flags of a pass mark every instruction a jump leads to |
| `Optimize.ScanSound` | src/compile.c:938-1175 | the scan over the whole list, flags computed once before it, refines the program |
| `Optimize.RewriteSound` | src/compile.c:914-1175 | renumber, mark and scan refine the program and leave a list ready for another pass |
| `Optimize.RewriteKeepsTargets` | src/compile.c:770-844 | over a whole pass every address a surviving instruction uses names the node it named before |
| `ClearPass.SeekFinds` | src/compile.c:645-767 | a successful path search ends at a store beyond every jump seen, with nothing in between that reads the variable |
| `ClearPass.SeekIff` | src/compile.c:645-767 | the path search succeeds if and only if there is a store of the variable, beyond every jump seen, with nothing in between that reads the variable or leads away |
| `ClearPass.ClearsExactly` | src/compile.c:645-767 | a pass clears exactly the fetches that are followed so in the list it was given, and changes nothing else |
| `ClearPass.SeekRegion` | src/compile.c:645-767 | so the fetch and the store enclose a region that reads the variable nowhere, jumps only within itself and lies in no TRY |
| `FetchClear.StepSame` | src/interp.c:1276-1300 | one step of the program with the clearing fetch and one of the program without keep the states equal up to the cleared variable inside the region |
| `FetchClear.ClearRefines` | src/compile.c:645-767 | a fetch followed by such a region can be made fetch-and-clear: no later fetch sees the cleared value |
| `Failures.BumpSeesClear` | src/p_math.c:578-668 | "a" v ! v @ v ++ v !: the passes make its fetch a fetch-and-clear, as compiled ++ fails on a string, and optimized it succeeds on the zero left there |
| `ClearPass.ClearSound` | src/compile.c:645-767 | whatever the search decides, the list it leaves refines the program |
| `ClearPass.PassSound` | src/compile.c:886-1185 | a whole pass, rewriting and clearing, refines the program |
| `ClearPass.PassesSound` | src/compile.c:1372-1382 | any number of passes, stopped when one removes nothing, refines the program |
| `ClearPass.PassDone` | src/compile.c:1372-1382 | a pass that removes nothing has found no place where a rule applies |
| `Optimize.NothingLeft` | src/compile.c:938-1175 | the same for the scan |
| `Optimizer.Program.RemoveNextIntermediate` | src/compile.c:770-789 | the loop over the address table and the unlinking, in place |
| `Optimizer.Program.RemoveIntermediate` | src/compile.c:792-829 | the node takes over the next one, in place |
| `Optimizer.Program.ContiguousIntermediates` | src/compile.c:831-844 | true exactly when the instructions exist and none is flagged |
| `Optimizer.Program.MarkReferences` | src/compile.c:922-936 | the flag array equals the set of jump targets |
| `Optimizer.Program.RewriteAt` | src/compile.c:938-1175 | one turn of the switch applies the rule of the specification and advances exactly when none applies |
| `Optimizer.Program.MaybeOptimizeVarsAt` | src/compile.c:645-767 | the search loop clears exactly where the specification does |
| `Optimizer.Program.OptimizeIntermediate` | src/compile.c:886-1185 | one pass terminates, computes the specified list and returns exactly the number of instructions removed |
| `Optimizer.Program.OptimizeAll` | src/compile.c:1372-1382 | at most five passes, stopped after one that removes nothing |
| `Optimizer.Program.FixAddresses` | src/compile.c:313-344 | renumbering and replacing each jump by the number its entry names gives the flat code |
| `Pipeline.ListedFlat` | src/compile.c:313-344 | with nothing optimized the list resolves to the code the compiler meant |
| `Pipeline.CompileSmall` | src/compile.c:2380-2988 | the compiler makes only addresses with offset 0 or 1 |
| `Pipeline.OptimizedRefines` | src/compile.c:1372-1393 | the optimized program and the compiled one have the same results on suitable runs |
| `Pipeline.OptimizedAgrees` | src/compile.c:1372-1393 | the optimized program computes what the structured program means |
| `Pipeline.OptimizedReflects` | src/compile.c:1372-1393 | and nothing else |
| `Compare.CmpOpposite` | src/array.c:104-175 | comparing the other way round gives the opposite sign; every item equals itself |
| `Compare.CmpChains` | src/array.c:47-175 | the comparison is transitive, strictly when either side is strict, through keys, values and arbitrarily nested arrays |
| `Compare.Lexicographic` | src/array.c:47-93 | the loop over two arrays decides the lexicographic order of their (key, value) sequences |
| `Compare.NumbersBySize` | src/array.c:104-175 | items of different types come in the order of the types, numbers of one type by size |
| `Compare.StringsByCharacter` | src/array.c:138-149 | strings come in the order of their first different character, folded or not, the end before any character |
| `Compare.FoldsIff` | src/array.c:138-149 | folding comparison finds two strings equal if and only if they differ in nothing but the case of letters |
| `Keys.AscendingInts` | src/array.c:47-175 | the keys of a dictionary over ints ascend as numbers |
| `Keys.WalkInts` | src/array.c:487-569 | the walk over such a dictionary goes from the least number to the next greater one and so to the greatest, and back |
| `Keys.NextInt` | src/array.c:543-569 | from any number, in the dictionary or not, next is the least greater one |
| `Keys.IntRange` | src/array.c:1287-1318 | a range from lo to hi of such a dictionary holds exactly the entries from lo to hi, in ascending order, and deleting it leaves exactly the others |
| `Keys.SameKeys` | src/array.c:178-198 | two ints are one key when they are the same number, two strings when they differ only in case, values of different types never |
| `Sorted.GetPut` | src/array.c:1114-1133 | the dictionary as a map: after setting a key an equal key has the new value and every other key what it had |
| `Sorted.GetDel` | src/array.c:461-473 | after deleting a key an equal key is absent and every other key as it was |
| `Sorted.PutAscending` | src/array.c:373-405 | setting keeps the keys strictly ascending |
| `Sorted.DelAscending` | src/array.c:416-459 | deleting keeps them ascending and adds nothing |
| `Avl.LeftRotations` | src/array.c:235-271 | single and double left rotation restore balance and exact heights |
| `Avl.RightRotations` | src/array.c:274-311 | the mirror image |
| `Avl.BalanceOk` | src/array.c:313-336 | balancing two balanced trees whose heights differ by at most two gives a balanced tree, as high as before or one lower |
| `Avl.BalanceContents` | src/array.c:313-336 | rotations keep the entries in order |
| `Avl.Insert` | src/array.c:373-405 | the result is balanced with exact heights, as high as before or one higher, and no higher when the key was there |
| `Avl.Remove` | src/array.c:416-459 | the result is balanced with exact heights, as high as before or one lower, also when the largest node on the left is spliced in |
| `Avl.FindRefines` | src/array.c:178-198 | lookup is lookup in the entry sequence |
| `Avl.InsertRefines` | src/array.c:373-405 | insertion acts as setting the key and keeps a valid dictionary |
| `Avl.RemoveRefines` | src/array.c:407-459 | removal acts as deleting the key, keeps a valid dictionary and takes out the entry that held the key |
| `Heights.SizeAtLeast` | src/array.c:199-232 | a balanced tree of height h has at least Fib(h + 2) - 1 nodes |
| `Heights.HeightBound` | src/array.c:226-232 | for any int item count the height is at most 44, so the short that holds it never overflows |
| `Heights.LookupBound` | src/array.c:178-198 | a lookup makes at most 44 comparisons |
| `Walk.NextOfIs` | src/array.c:543-569 | what next means: the entry with the least greater key, or none when there is none |
| `Walk.PrevOfIs` | src/array.c:513-541 | what prev means |
| `Walk.NextRefines` | src/array.c:543-569 | the next node is that entry, whether or not the key is present |
| `Walk.PrevRefines` | src/array.c:513-541 | and the previous node likewise |
| `Walk.FirstIsFirst` | src/array.c:487-498 | the first node holds the first entry |
| `Walk.LastIsLast` | src/array.c:500-511 | the last node holds the last |
| `Walk.Neighbours` | src/array.c:487-569 | starting from the first node, next visits every key once in ascending order |
| `Dictionary.RangeIs` | src/array.c:1287-1318 | between two ends, whatever finds them, the stretch is the keys in [start, end], or there are none when the ends have crossed |
| `Dictionary.RangeEnds` | src/array.c:1287-1305 | lookup, next and prev find those ends in a tree |
| `Dictionary.Dict.SetItem` | src/array.c:1114-1133 | the dictionary acts as a map and items is the tree size |
| `Dictionary.Dict.GetRange` | src/array.c:1287-1318 | a new dictionary with exactly the keys in the range; the old one is unchanged |
| `Dictionary.Dict.DelRange` | src/array.c:1549-1583 | exactly the keys in the range go, and items stays the tree size |
| `Dictionary.Dict.DelFrom` | src/array.c:1573-1580 | the deleting loop, from the first key to the last, takes out exactly the stretch between them |
| `Dictionary.Dict.Delete` | src/array.c:461-473 | the key goes |
| `SharedDict.DictHolders.Decouple` | src/array.c:681-694 | a fresh dictionary with the same entries and one holder, entry after entry |
| `SharedDict.DictHolders.Prepare` | src/array.c:1114-1119 | before a change a shared dictionary that is not pinned is copied, and who sees changes through the handle stays the same |
| `SharedDict.DictHolders.SetItem` | src/array.c:1114-1133 | acts as setting the key through this handle and leaves every other holder of an unpinned dictionary unchanged; a pinned one shows the change to all its holders |
| `SharedDict.DictHolders.DelRange` | src/array.c:1549-1583 | the same for deleting a range; with no key in it nothing is copied |
| `AvlNodes.BalanceNode` | src/array.c:313-336 | rotations on nodes in memory compute the rotations on trees, with the same set of nodes |
| `AvlNodes.InsertNode` | src/array.c:373-405 | insertion relinks nodes to the tree the specification says, and allocates nothing else |
| `AvlNodes.RemoveNode` | src/array.c:416-459 | removal relinks nodes likewise and cuts the removed node off from what remains |
| `Packed.RoundTrips` | src/array.c:1412-1454 | deleting what was inserted gives the array back; reading what was written gives what was written |
| `Packed.InsertIs` | src/array.c:1156-1180 | an inserted item stands at its index, those before it stay, those from there on move up by one, deleting it gives the array back; exactly the int indices from 0 to the length are accepted |
| `Packed.SetIs` | src/array.c:1082-1111 | an item that is set stands at its index, the one behind the last included, and nothing else changes; the same indices are accepted |
| `Packed.RangesAre` | src/array.c:1328-1454 | the same for a range inserted or written, item by item |
| `Packed.RangeRead` | src/array.c:1240-1286 | exactly the items whose index lies between the bounds are read; refused exactly when there is none |
| `Packed.RangeDeleted` | src/array.c:1496-1547 | exactly those are deleted, the others closing up |
| `Packed.GetAndDelete` | src/array.c:1496-1547 | a range can be read exactly when it can be deleted, and the two results are the array taken apart |
| `Packed.StkArray.OpenWide` | src/array.c:1426-1451 | the tail moves up from the end and the items are copied into the gap |
| `Packed.StkArray.CloseGap` | src/array.c:1527-1545 | the tail moves down over the range |
| `Packed.Holders.Decouple` | src/array.c:652-701 | a fresh array with the same items and one holder |
| `Packed.Holders.Prepare` | src/array.c:1086-1090 | before a change a shared array that is not pinned is copied, and who sees changes through the handle stays the same |
| `Packed.Holders.SetItem` | src/array.c:1082-1111 | acts as replacing or appending an item through this handle and leaves every other holder of an unpinned array unchanged; a pinned array shows the change to all its holders |
| `Packed.Holders.InsertItem` | src/array.c:1156-1180 | the same for inserting an item |
| `Packed.Holders.SetItems` | src/array.c:1346-1368 | the same for overwriting a range; an array is overwritten by itself only from its first item |
| `Packed.OwnEndsIff` | src/array.c:1360-1366 | writing a pinned array into itself, the loop reads to the end of an array that grows with it: it ends if and only if it starts at the first item, and then nothing changes |
| `Packed.StkArray.PutOwn` | src/array.c:1360-1366 | that loop from the first item leaves the array as it was |
| `Packed.Holders.InsertItems` | src/array.c:1412-1454 | the same for inserting a range, whose items repeat with the period of the start index when the array is inserted into itself |
| `Packed.RepeatedIff` | src/array.c:1426-1451 | inserting an array into itself inserts what stands in it if and only if its items repeat with that period already |
| `Packed.StkArray.OpenOwn` | src/array.c:1426-1451 | the two loops of an insertion into itself, over the one array |
| `Packed.Holders.DeleteItems` | src/array.c:1496-1547 | the same for deleting a range, with its clamped bounds |
| `Macros.ExpandRefines` | src/edit.c:61-75 | looking a name up, in any case, finds what the table maps it to |
| `Macros.GrowRefines` | src/edit.c:95-115 | growing the table by a whole subtree that fits between two neighbours puts it exactly there |
| `Macros.GrowTaken` | src/edit.c:98-101 | a name that is taken is refused and nothing changes |
| `Macros.InsertRefines` | src/edit.c:116-128 | a new name is entered in lower case, a known one refused, and the table stays a search tree |
| `Macros.EnteredFound` | src/edit.c:61-128 | after a macro has been entered its definition is found, under its name in any case |
| `Macros.ExpandFolds` | src/edit.c:61-75 | a name in another case finds the same |
| `Macros.EraseRefines` | src/edit.c:193-226 | below the root the erased node makes way, one of its subtrees in its place, and the orphan is known to fit where it was |
| `Macros.KillRefines` | src/edit.c:229-252 | killing a name in lower case, or the root in any case, removes exactly that name, re-grafted orphan included |
| `Macros.CapitalNotFound` | src/edit.c:199-203 | erase_node compares exactly and so never finds a name with a capital letter |
| `Macros.KillIsRemovalIff` | src/edit.c:229-252 | killing a name removes what looking it up finds if and only if the name is in lower case, or is the name of the root, or is not there |
| `MacroNodes.MacroExpansion` | src/edit.c:61-75 | the lookup on nodes in memory is the lookup of the specification |
| `MacroNodes.GrowMacroTree` | src/edit.c:95-115 | linking a subtree in, in place, computes the specified table out of the same nodes |
| `MacroNodes.InsertMacroNode` | src/edit.c:116-128 | insertion in place computes the specified table |
| `MacroNodes.EraseNode` | src/edit.c:193-226 | erasing in place leaves the specified table and orphan, sharing nothing |
| `MacroNodes.KillMacroNode` | src/edit.c:229-252 | killing in place, with the re-grafting from the root, computes the specified table |
| `FoldTree.Chain.Fold` | src/db.c:391-413 | folding rewires the chain in place to the specified tree and touches no other node |
| `FoldTree.FoldedOrder` | src/db.c:391-413 | the folded tree has the nodes of the chain in their order |
| `FoldTree.LoadedFolds` | src/db.c:440-449 | the tree a load leaves, unfolded: the chain folded around its middle node |
| `MacroFile.Loader.MacroChain` | src/db.c:416-438 | the recursion over the file links one new node after another into a chain of the macros in their order, and returns their number |
| `MacroFile.Loader.MacroLoad` | src/db.c:440-449 | reading the chain, walking to its middle and folding it, in place, leaves nodes that hold the loaded tree |
| `FoldTree.HeightIsHalf` | src/db.c:391-413 | from seven nodes on the loaded tree has height (n + 1) / 2: the right half stays one long branch |
| `FoldTree.LowestIff` | src/db.c:391-449 | the loaded tree is as low as the number of binary digits of n, the height folding aims at, if and only if n is at most 6 or n is 8 |
| `MacroFile.LoadContents` | src/db.c:416-449 | loading keeps the macros of the file in their order |
| `MacroFile.LoadDump` | src/db.c:361-371 | a table dumped and loaded again is a valid table with the same macros, and every lookup gives the same definition |
| `MacroFile.LoadDepthIff` | src/db.c:416-449 | the depth of the loaded table is logarithmic in the same two cases |
| `Parent.StopsSoon` | src/db.c:69-88 | on every finite parent graph the two-speed walk stops within db_top + 1 rounds |
| `Parent.GetParent` | src/db.c:69-88 | the loop stops in the first round it can, and returns the ancestor the walk found; what an object lives in, when that is no THING and not inside itself, is its parent |
| `Parent.FirstParent` | src/db.c:54-66 | a vehicle lives at its home or at the home of the player it lives with, anything else at its location; that is the parent when it is nothing or no THING, or #0 when it lives inside itself |
| `Parent.FirstOther` | src/db.c:69-88 | the first ancestor that is no THING is returned when it is not on a cycle |
| `Parent.OtherOnCycle` | src/db.c:69-88 | when the first ancestor that is no THING lies on a cycle, #0 is returned if and only if in some round up to it the number of the round, or the next, is a whole number of laps, on the way round; otherwise that ancestor is |
| `Parent.SomeRound` | src/db.c:69-88 | an ancestor on a cycle has such a way round: where it begins and how long a lap is |
| `Parent.RunsOut` | src/db.c:69-88 | a THING chain that runs out yields NOTHING |
| `Parent.Loops` | src/db.c:69-88 | a THING chain that loops yields the global environment #0 |
| `Exits.ExitLoopCheck` | src/create.c:73-94 | on every acyclic exit graph the check terminates and answers whether source is reachable from dest |
| `Exits.LinkExit` | src/create.c:189-297 | the loop over the named destinations keeps every one that is not NOTHING, garbage, an exit that leads back, a second room, player or program, or named after MAX_LINKS were kept, and no other, in order |
| `Exits.KeptSome` | src/create.c:189-297 | something is kept if and only if one of the names may be linked to |
| `Exits.OneName` | src/create.c:217-233 | one name is kept if and only if it may be linked to; a room, and HOME, always is |
| `Exits.KeptGood` | src/create.c:189-297 | what is kept has at most MAX_LINKS destinations, at most one room, player or program, and none that leads back |
| `Exits.LinkKeepsAcyclic` | src/create.c:225-283 | linking an exit to destinations that do not lead back to it makes no cycle anywhere |
| `Exits.Database.LinkCommand` | src/create.c:355-405 | linking keeps the database valid; it answers yes exactly when the exit was unlinked and one of the names may be linked to, and then stores exactly the destinations that may be kept |
| `Exits.Database.OpenCommand` | src/create.c:140-173 | opening a new exit keeps the database valid, and linking it stores exactly the destinations that may be kept |
| `Exits.Database.UnlinkCommand` | src/set.c:618-632 | unlinking keeps the database valid |
| `Output.Bounded` | src/interface.c:2183-2233 | after a write of n characters no more wait than the larger of tp_max_output and the marker plus n |
| `Output.WriteDrops` | src/interface.c:2197-2233 | a write drops nothing when the text fits; otherwise the marker comes in the place of the oldest blocks, all others stay in order, and with one block more it would not have fitted |
| `Output.DropFaithful` | src/interface.c:2197-2219 | putting the marker in place of a dropped run keeps every remaining character in order, one missing only where a marker stands |
| `Output.WriteFaithful` | src/interface.c:2182-2195 | what is written goes to the end |
| `Output.Queue.AddToQueue` | src/interface.c:2182-2195 | text goes to the end of the queue and the counters stay right |
| `Output.Queue.FlushQueue` | src/interface.c:2197-2219 | the oldest blocks go until enough characters are gone, the marker comes to the head, and the number flushed is the difference in size |
| `Output.Queue.QueueWrite` | src/interface.c:2222-2233 | a write keeps the queue valid, drops nothing when the text fits and no more than it must otherwise |
| `Output.Queue.ProcessOutput` | src/interface.c:2283-2335 | over any series of partial sends what has left followed by what waits does not change, and as many characters leave as the socket takes, block by block until it takes less than a block |
| `Output.SendsAll` | src/interface.c:2304-2333 | a socket that takes every block whole empties the queue |
| `Quota.AddExact` | src/interface.c:982-992 | adding milliseconds to a time is exact |
| `Quota.DiffClose` | src/interface.c:976-980 | the millisecond difference is off by less than one, on either side |
| `Quota.SlicesNat` | src/interface.c:994-1004 | at the times the server reaches the number of slices is never negative, and as many are counted as fit into the time that has passed, for every slice length |
| `Quota.AddClose` | src/interface.c:982-1017 | adding no more than the difference keeps the bookkeeping time less than a millisecond ahead of the clock and in no later second |
| `Quota.RefillIs` | src/interface.c:1001-1015 | n slices raise the quota by exactly n times the rate, eight times that in an editor only, up to the burst |
| `Quota.IdleFills` | src/interface.c:994-1017 | while nothing but time passes a connection is given every whole slice of it, less than one slice being left over |
| `Quota.RunKeeps` | src/interface.c:994-1017 | over any run the bookkeeping time is exactly a whole number of slices after the start and so close to the clock, and every command executed was paid for from the start or by a slice |
| `Quota.Throttled` | src/interface.c:2630-2681 | over any run in which a slice never adds more than rate, a connection executes at most burst + rate * ((elapsed ms + 1) / slice) commands and its quota stays within [0, burst] |
| `Quota.ThrottledAlways` | src/interface.c:1005-1010 | over any run whatever, in an editor or not, the same with eight times the rate |
| `Quota.OnceProgress` | src/interface.c:2638-2679 | a look at a connection takes its first line exactly when there is quota and the line is executed, or is blank and no program that holds the player wants it; otherwise nothing changes |
| `Quota.DrainKeeps` | src/interface.c:2630-2681 | serving a connection turns quota into executed commands one for one, never below zero, and ends where a look changes nothing |
| `Quota.DrainTakes` | src/interface.c:2630-2681 | what is drained is the first lines, those behind them are left in order |
| `Quota.DrainFree` | src/interface.c:2630-2681 | a player no program holds has as many lines executed as there is quota for |
| `Quota.Server.UpdateQuotas` | src/interface.c:994-1017 | every connection is filled as the specification says, eight times as fast in an editor |
| `Quota.Server.Round` | src/interface.c:2638-2679 | one round is one look at every connection, and what it returns is the number of lines that went |
| `Quota.Server.ProcessCommands` | src/interface.c:2630-2681 | the rounds terminate with every connection drained |
| `Lock.ParsesText` | src/boolexp.c:184-339 | every text of the grammar, with arbitrary spacing, is parsed to the lock it stands for: & binds tighter than \|, both associate to the right |
| `Lock.RoundTrip` | src/boolexp.c:184-346 | every lock over objects has a text that is parsed back to exactly that lock |
| `Lock.TextMeans` | src/boolexp.c:101-346 | a lock parsed from a text lets in exactly those of whom the text says so: ! is not, & is and, \| is or, brackets go first |
| `Lock.SampleTexts` | src/boolexp.c:184-346 | one text for every connective, character by character, and its lock |
| `Lock.NamesParse` | src/boolexp.c:222-278 | a name with a colon is a property test, one with # the object of that number if there is one, and any other is refused |
| `Lock.PropParses` | src/unparse.c:160-166 | a property test that fits is printed as name, colon and value, and read as what that text stands for |
| `Lock.PrintedMeansSame` | src/unparse.c:116-173 | what the printer prints is parsed if and only if the last leaf of the whole text begins no later than the middle of the buffer, and then to a lock with the same meaning |
| `Lock.PrintParseIff` | src/unparse.c:116-173 | what the printer prints is parsed to exactly the printed lock if and only if it so fits and no operator stands directly to the left below itself; when it fits the result is the lock nested to the right, and otherwise there is none |
| `Lock.TimesParsed` | src/unparse.c:119-120 | a lock #1&#1&... of n operators comes back for n up to 1365, and from there on is lost: its printed text is refused |
| `Lock.PrintedText` | src/unparse.c:119-120 | a lock that fits is printed whole, as a text of the grammar; the text of one that does not fit is refused |
| `Lock.RefusesTorn` | src/boolexp.c:184-339 | a text of the grammar with a hole where a factor should be, good up to there, is refused |
| `Lock.Buffer.Unparse1` | src/unparse.c:116-173 | the printer appends to its buffer what the specification prints at that position |
| `Lock.Buffer.UnparseBoolexp` | src/unparse.c:174-182 | the buffer holds the printed lock |
| `Lock.Cursor.Factor` | src/boolexp.c:186-281 | the parser on its shared cursor computes the specified parse and the specified rest, on every input |
| `Lock.Cursor.Term` | src/boolexp.c:283-310 | the same for terms |
| `Lock.Cursor.Expression` | src/boolexp.c:312-338 | the same for expressions |
| `Lock.CopyBool` | src/boolexp.c:50-98 | a copy consists of fresh nodes and is the same lock |
| `Lock.EvalRec` | src/boolexp.c:101-156 | evaluation of nodes in memory is evaluation of the lock; a lock that is not there is open |
| `Lock.EvalBoolexp` | src/boolexp.c:160-169 | evaluating a copy gives what the lock itself would |
| `LockFile.Read` | src/boolexp.c:444-551 | TRUE_BOOLEXP is read only at the end of a line, so no operator is ever given one, and reading never goes back |
| `LockFile.TextReads` | src/boolexp.c:444-551 | every lock written in the file format, followed by anything but a digit, is read back exactly and nothing more is consumed |
| `LockFile.LineReads` | src/boolexp.c:553-563 | a line with a written lock, or an empty line, is read back as that lock or as none |
| `LockFile.SampleLines` | src/boolexp.c:444-563 | one line for every form of the file, character by character, and its lock |
| `LockFile.MinusReads` | src/boolexp.c:490-498 | a line that begins with a minus is no lock, whatever else it holds |
| `LockFile.File.GetBoolexp1` | src/boolexp.c:444-551 | the reader with its character-by-character loops computes the specified result and leaves the specified rest, on every input |
| `LockFile.File.GetBoolexp` | src/boolexp.c:553-563 | the same for a whole line |

## Left out

The MUF machine:

- Backend.TranslationFaithful: claims nothing about runs that are not suitable, that is in which an instruction of a kind the optimizer rewrites fails (a push, `@`, `!`, `=`, `+`, `-`, `*`, `/`, `%`, `++`, `--`, `not`, `rot`, `swap`, `strcmp` or IF, anywhere in the program and not only where it is rewritten), or a function header fails inside a TRY. Rewriting changes the error, or the instruction at which it is raised; a failing `++` can even succeed (`Failures.BumpSeesClear`), and after a failing header a scope is lost (`Failures.HeaderLosesScope`). Runs in which these instructions succeed are all covered, `++` and `--` on variable references included. Every other instruction may raise an error.
- Correct.ProgramAgrees: covers WHILE only with no TRY between it and its loop, because with one the code leaves that TRY first (`Correct.WhileMatchesIff`); and programs in which a header fails inside a TRY only up to that moment.
- FetchClear.ClearRefines: covers scoped variables only; a local variable's cleared value can be seen by a caller that catches an error.
- Signed overflow, undefined in C, is taken as two's complement wrap-around; INT_MIN divided by -1 wraps as well.
- The sign of `strcmp` is -1, 0 or 1; C leaves its size open. Arithmetic sets no error flags.
- Floats, objects, locks, marks, arrays and addresses on the MUF stack; EXECUTE, JMP, CALL, PROG_ADD, FOR and FOREACH, CATCH_DETAILED, local and global variables; primitives beyond those of `Machine.Prim`.
- Running off the end of the code, undefined in C, is an uncaught error; so is a return without a caller's scope.
- Function headers always have room for their arguments; a header with more arguments than variables, which the interpreter answers with an internal error, is not modelled.
- Tokens arrive with names already resolved: comments, directives, macro text, VAR declarations, publics and the permission to use primitives are not part of this model.
- Instruction-count limits, time slices that hand control to the scheduler, the debugger and profiling.
- Compiler.CompState.CompileAll: that only well nested token streams are accepted is not stated; for the well nested ones it is proved that they are accepted.
- Line numbers, the divide-by-zero warnings and the flags that suppress them.
- The linked list of the compiler and optimizer is a sequence field that methods update, a node's identity the number under which it was emitted; freeing nodes is not modelled. Addresses stand for instruction numbers.

Arrays:

- Floats (their epsilon comparison is not transitive), locks and addresses as keys; the difference of two ints is the mathematical one.
- `assert` is compiled out, as it is without DEBUG (`include/config.h:238-247`), and has no effect in the model.
- Reference counts of the items of arrays; conversion between packed arrays and dictionaries (`array_promote`, `array_demote_only`).
- Packed.Holders.SetItems: a pinned or unshared array is written into itself only from its first item, because from any other the source never ends (`Packed.OwnEndsIff`).
- Packed.Holders.InsertItems: does not cover a pinned or unshared array inserted into itself before its first item: the source then copies cells it has just cleared, and what they hold depends on the layout of a cell.
- Dictionary.Dict.SetItem: the class holds its tree as a value; the same tree as nodes in memory is `AvlNodes`, whose methods compute the operations on that value. The same holds for the range operations of the class and of `SharedDict`; where `array_delrange` looks at the key of the last node after that node has been deleted, the model compares with the key that was there.
- Setting a range of a dictionary from another array, which sets item after item.
- `array_contains_value` on dictionaries, which advances by value instead of by key.

Macros, parents and exits:

- Macro implementors, listing, purging, and the reading of lines; a load takes the lines it is given.
- `getparent` with `tp_thing_movement` on, which only fetches a location.
- What a player may link, the costs, and how a name becomes an object: `Exits.LinkExit` gets the objects. Property and drop-to links of other types than exits; recycled object numbers when an exit is opened.

Connections:

- Sockets: what a send takes is a parameter of `Output.Queue.ProcessOutput`. Descriptors being freed and idle flags.
- Quota.Server.Round: lines of the client protocol, which are executed without being charged, are not modelled; whether a program wants a line, and what mode a command leaves its player in, are parameters of the line; connections that share a player do not see each other's change of mode within a round. A slice of 0 milliseconds, by which the server would divide, is excluded.
- Telnet negotiation and the conversion of text before it is queued.

Locks:

- What holds of a leaf is a parameter of the evaluation; how a name in a lock becomes an object, outside database loading, and how a property test is parsed are an oracle.
- Reading one character before the start of an empty name (`src/boolexp.c:228-231`) is taken as finding no space there.
- Lock.ParseF: when a bracket is not closed the source moves its cursor one past the end of the text (`src/boolexp.c:201`), and an enclosing bracket skips blanks from there; the rest of the model is then the empty text. The lock is refused either way. The same holds for Lock.Cursor.Factor.
- Lock.PrintParseIff: speaks of locks over objects, printed by number. Printing full names, and *UNLOCKED*, is not modelled, nor is a printed text longer than the buffer.
- LockFile.Read: gives up where the source leaves behaviour undefined, that is at a property value without its closing bracket, or one longer than the buffer, and a name exactly as long as the buffer. NUL characters in a file are not special.
