# The core of Lua 5.1.4, modelled and proved in Dafny

The repository embeds the C sources of Lua 5.1.4 (`lua/src`). This project models the parts of that core whose
correctness is hardest to see, operation by operation, and proves what they are for. Objects are references,
numbers are integers or abstract, and everything that can fail in C by leaving a function (`longjmp`) is a result.

| part | files | what is proved |
|---|---|---|
| boolean code generation | `Machine`, `JumpLists`, `CodeGenSpec`, `CodeGenProof`, `CodeGenTheorems`, `CodeGenLimits`, `CodeGenChecked`, `CodeGen` | running the emitted code gives the short-circuit value of the expression; every expression within the limits compiles; its code passes the checker, also when it was dumped and undumped |
| garbage collection | `CollectorSpec`, `CollectorLists`, `Mutator`, `Collector` | a program runs, interleaved with the collector in any way, as it would without it: the roots are the same, and all that it can reach is there with the same contents; a full collection ends with exactly the reachable objects |
| tables | `TableSpec`, `TableSize`, `LuaTable` | a table with its rehashes is a finite map; sizes are optimal; traversal visits every entry once |
| pattern matching | `PatternSpec`, `Matcher`, `PatternText` | the backtracking matcher returns the first result of a declarative semantics, and undoes its captures on failure; patterns written as the manual says are read so |
| bytecode checker | `Checker`, `Bytecode` | exactly which code is accepted, in terms of what its instructions do; accepted code keeps control inside, and exactly when |
| upvalues | `Cells`, `Upvalues` | through captures, assignments, block ends and moves of the stack, closures share variables as cells are shared |
| precompiled chunks | `Chunks`, `Dump`, `Undump` | undump reads back exactly what dump wrote, or refuses it for a reason that is known in advance; a chunk that is cut off is always refused |
| strings | `Strings` | one object per content, through growth, resurrection and sweep |
| sorting, `%q`, operator precedence | `Sort`, `Quoting`, `Precedence` | a sorted permutation with logarithmic depth; reading undoes quoting; the parser finds exactly the trees of the manual |

`Limits` and `Wrappers` hold shared constants and result types. In the classes, ghost fields and ghost parameters
carry what the C code leaves implicit (the members of a linked list, the state before an expression); every method is
proved against a function or a relation on values, and the lemmas are about those.

`dafny verify dfyconfig.toml` checks the whole project.

## Findings

| where | what the code does | exact condition |
|---|---|---|
| `lua/src/lcode.c:539-591` | `luaK_goiftrue` and `luaK_goiffalse` emit an unconditional jump for a literal operand, and `luaK_jump` makes it the head of the jumps that are on hold. If one of those carries a value (a TESTSET), the value gets lost or is taken for that of the literal: `((1 or false) and true) or false` gives 1 instead of true (`CodeGenTheorems.MixedLiteralsFail`). | `CodeGenTheorems.LiteralJumpExact`: a jump on hold is treated right if and only if it carries no value, or its value is that of the literal; for all values if and only if it carries none (`CodeGenTheorems.LiteralJumpsExact`). The code of any expression is right in each run that takes no such jump with another value (`CodeGenTheorems.ReturnCorrect`), and in all runs if no `and`/`or` has a left operand that ends in such a literal (`CodeGenTheorems.PlainReturnCorrect`). |
| `lua/src/ldebug.c:375` | The checker looks at the target of a LOADBOOL only if C is 1, while `lua/src/lvm.c:413` skips for every C but 0: code with C == 2 is accepted and leaves the code array (`Checker.SkipLeavesCode`). | `Checker.AcceptedIsClosed`: control of accepted code is closed if and only if every LOADBOOL with another value of C would pass the check for C == 1. |

## Model

| member | source | states |
|---|---|---|
| Machine.ExecuteLoop | lua/src/lvm.c:373-581 | the interpreter loop, on the instructions of boolean expressions, computes the run that the theorems speak of |
| Machine.RunContinues | lua/src/lvm.c:537-581 | code that differs only in where pending jumps lead runs the same up to them, and then continues where they now lead |
| Machine.Unwatched | lua/src/lvm.c:537-581 | a run that does not stop at a watched jump is the run of the interpreter |
| JumpLists.LinkedThreaded | lua/src/lcode.c:185-196 | linking the last jump of one list to the first of another denotes the concatenation of two disjoint lists |
| JumpLists.PatchedKeeps | lua/src/lcode.c:150-160 | patching a list leaves every disjoint list as it was |
| JumpLists.ValuesRemovedKeeps | lua/src/lcode.c:144-147 | so does taking the values from its jumps |
| CodeGen.FuncState.FixJump | lua/src/lcode.c:80-87 | retargets one jump; an offset that does not fit is an error |
| CodeGen.FuncState.Concat | lua/src/lcode.c:185-196 | walks to the last jump and links: the code denotes the concatenation of the two lists |
| CodeGen.FuncState.PatchTestReg | lua/src/lcode.c:131-141 | a TESTSET in front of the jump gets its register, or becomes a TEST |
| CodeGen.FuncState.PatchListAux | lua/src/lcode.c:150-160 | the walk retargets exactly the members of the list: those with a value to one target, the others to the other |
| CodeGen.FuncState.ListNeedsValue | lua/src/lcode.c:122-128 | the walk finds a member without a value if and only if there is one |
| CodeGen.FuncState.RemoveValues | lua/src/lcode.c:144-147 | no TESTSET is left in front of a member of the list |
| CodeGen.FuncState.DischargeJpc | lua/src/lcode.c:163-166 | the jumps on hold lead to the next instruction, and none is on hold |
| CodeGen.FuncState.Code | lua/src/lcode.c:797-809 | the jumps on hold are discharged, and the instruction is appended; too much code is an error |
| CodeGen.FuncState.Jump | lua/src/lcode.c:59-66 | a new jump, followed in its list by all jumps that were on hold |
| CodeGen.FuncState.CondJump | lua/src/lcode.c:74-77 | a test and its jump |
| CodeGen.FuncState.PatchToHere | lua/src/lcode.c:179-182 | the list joins the jumps on hold |
| CodeGen.FuncState.CheckStack | lua/src/lcode.c:199-206 | the stack size grows with the registers in use, up to its limit |
| CodeGen.FuncState.ReserveRegs | lua/src/lcode.c:209-212 | n more registers are in use |
| CodeGen.FuncState.FreeExp | lua/src/lcode.c:215-226 | the register of a temporary is free again |
| CodeGen.FuncState.AddK | lua/src/lcode.c:229-247 | every constant is in the table once; too many constants are an error |
| CodeGen.FuncState.DischargeVars | lua/src/lcode.c:304-334 | a variable becomes a place or an instruction without a target |
| CodeGen.FuncState.Discharge2Reg | lua/src/lcode.c:343-379 | the value, but for its jumps, goes to the register |
| CodeGen.FuncState.Discharge2AnyReg | lua/src/lcode.c:382-387 | or to a new one |
| CodeGen.FuncState.PatchValues | lua/src/lcode.c:390-411 | the loads for jumps without a value, if any, and both lists patched |
| CodeGen.FuncState.Exp2Reg | lua/src/lcode.c:390-411 | the whole value goes to the register, with all jumps of the expression closed |
| CodeGen.FuncState.Exp2NextReg | lua/src/lcode.c:414-419 | or to the next free register |
| CodeGen.FuncState.Exp2AnyReg | lua/src/lcode.c:422-433 | or stays where it is |
| CodeGen.FuncState.Exp2Val | lua/src/lcode.c:436-441 | without jumps nothing is emitted but for a variable |
| CodeGen.FuncState.Exp2RK | lua/src/lcode.c:444-469 | an operand: a constant of the table if its index fits, else a register |
| CodeGen.FuncState.InvertJump | lua/src/lcode.c:516-521 | the comparison tests for the opposite |
| CodeGen.FuncState.JumpOnCond | lua/src/lcode.c:524-536 | a NOT at the end of the code is taken back and its operand tested; else the value is tested where it is |
| CodeGen.FuncState.GoIfTrue | lua/src/lcode.c:539-564 | falls through if the value is true, else leaves through the false list |
| CodeGen.FuncState.GoIfFalse | lua/src/lcode.c:567-591 | falls through if the value is false, else leaves through the true list |
| CodeGen.FuncState.CodeNot | lua/src/lcode.c:594-626 | the value is negated, the lists change places, and their jumps lose their values |
| CodeGen.FuncState.CodeComp | lua/src/lcode.c:681-694 | a comparison and its jump; `>` and `>=` by exchanged operands |
| CodeGen.FuncState.Infix | lua/src/lcode.c:718-742 | after the left operand of `and` and `or` |
| CodeGen.FuncState.Posfix | lua/src/lcode.c:745-789 | the lists of both operands are joined |
| CodeGen.FuncState.Expression | lua/src/lparser.c:828-853 | the calls of the parser for a whole expression compute its compilation |
| CodeGen.FuncState.CompileReturn | lua/src/lparser.c:1238-1265 | the emitted code of `return E` returns the short-circuit value of E, for all registers and constants, in each run that is not spoilt by a jump on hold at a literal; with room for what E needs there is no error |
| CodeGen.FuncState.AssignLocal | lua/src/lcode.c:472-477 | after the emitted code of `x = E` the variable has the value of E and every other register in use is as before, in each such run; with room for what E needs there is no error |
| CodeGenProof.CompileCorrect | lua/src/lcode.c:718-789 | by induction over all expressions: however the code is entered, at its start or by a jump that was on hold, it falls through or leaves through the right list, with the right value, or takes a value jump at a literal with another value; pending jumps stay in exactly one list; code below is untouched |
| CodeGenProof.GoIfLemma | lua/src/lcode.c:539-591 | the branch is taken if and only if the value decides it |
| CodeGenProof.CodeNotLemma | lua/src/lcode.c:594-626 | the code of `not E` has the negated value |
| CodeGenProof.Exp2RegLemma | lua/src/lcode.c:343-411 | the register gets the value, and no other register in use changes |
| CodeGenProof.Exp2RKLemma | lua/src/lcode.c:444-469 | the operand has the value, also after the other operand was evaluated |
| CodeGenTheorems.ReturnCorrect | lua/src/lcode.c:718-789 | the compiled `return E` returns Eval(E), as section 2.5.3 of the reference manual defines it, for every expression and every run that takes no value jump on hold at a literal with another value |
| CodeGenTheorems.NothingSpoilt | lua/src/lcode.c:539-591 | which is every run if the generator never put a value jump behind the jump of a literal |
| CodeGenTheorems.ReturnFunctionCorrect | lua/src/lcode.c:718-789 | the same for a whole function |
| CodeGenTheorems.AssignRuns | lua/src/lcode.c:343-411 | what follows `x = E` is reached with Eval(E) in x, and all other registers in use unchanged |
| CodeGenTheorems.PlainReturnCorrect | lua/src/lcode.c:539-591 | a syntactic condition on literals under which compilation is right |
| CodeGenTheorems.PlainAssignRuns | lua/src/lcode.c:539-591 | the same condition for assignments |
| CodeGenTheorems.MixedLiteralsFail | lua/src/lcode.c:539-591 | an expression that is compiled wrongly |
| CodeGenTheorems.LiteralJumpExact | lua/src/lcode.c:539-591 | exactly when the jump of a literal treats a jump on hold right |
| CodeGenTheorems.LiteralJumpsExact | lua/src/lcode.c:539-591 | all jumps on hold are treated right, whatever the registers hold, if and only if none carries a value |
| CodeGenLimits.NeedsAreSmall | lua/src/lcode.c:199-247 | an expression needs one register, and one more for each comparison that is open while its right operand is evaluated; fewer than eight instructions and at most one constant for each operand and operator |
| CodeGenLimits.CompileWithin | lua/src/lcode.c:718-789 | compiling uses no more registers, instructions and constants than the expression needs, by recursion on the expression, and raises no error if there is room for them |
| CodeGenLimits.ReturnCompiles | lua/src/lcode.c:199-206 | `return E` in a function of n parameters compiles without an error if n and its registers are below 250, and its instructions and constants within their limits |
| CodeGenLimits.AssignSucceeds | lua/src/lcode.c:472-477 | so does an assignment, in any function with room for it |
| CodeGenLimits.ReturnWorks | lua/src/lcode.c:718-789 | such a function returns the value of E, if no operand ends in a literal that may be mixed with pending values |
| CodeGenLimits.AssignWorks | lua/src/lcode.c:472-477 | the same for an assignment, with every other register in use as before |
| CodeGenChecked.CompileSound | lua/src/lcode.c:718-789 | by induction over all expressions: every operand of the emitted code exists, each jump that is not pending lands in the code, and only a TESTSET in front of a pending jump has no register |
| CodeGenChecked.EncodeInjective | lua/src/lopcodes.h:104-111 | no two instructions have the same word |
| CodeGenChecked.EncodedWords | lua/src/lopcodes.h:104-111 | the words of some instructions, field by field |
| CodeGenChecked.CompiledAccepted | lua/src/lparser.c:356-380 | the words of `return E`, with the final return, pass the bytecode checker, whatever E is, unless a limit was exceeded |
| CodeGenChecked.CompiledWithinLimits | lua/src/lparser.c:356-380 | within the limits the function compiles, and passes |
| CodeGenChecked.CompiledLoads | lua/src/lundump.c:178 | compiled, dumped and undumped, the function is the same |
| TableSpec.Overwrite | lua/src/ltable.c:399-432 | a key in a free main position keeps the chain invariant and all values |
| TableSpec.Insert | lua/src/ltable.c:399-432 | so does a key behind a node that is in its main position |
| TableSpec.Move | lua/src/ltable.c:399-432 | so does a key whose main position is taken by a node of another chain, which moves |
| TableSpec.StoreValue | lua/src/ltable.c:494-505 | a store changes one value only |
| TableSize.ComputeSizes | lua/src/ltable.c:189-208 | the largest power of two n such that more than half of 1..n are in use, and how many are |
| TableSize.CountMore | lua/src/ltable.c:211-219 | one more integer key is counted in its slice |
| TableSize.FreeNodeExists | lua/src/ltable.c:382-387 | fewer keys than nodes: there is a free node |
| LuaTable.Table.constructor | lua/src/ltable.c:358-371 | an empty table of the sizes asked for |
| LuaTable.Table.FindNode | lua/src/ltable.c:469-488 | the walk from the main position finds the key if it is in the hash part |
| LuaTable.Table.GetNum | lua/src/ltable.c:435-452 | the slot of an integer key |
| LuaTable.Table.Get | lua/src/ltable.c:469-488 | the slot of any key |
| LuaTable.Table.GetFreePos | lua/src/ltable.c:382-387 | the last free node, if there is one |
| LuaTable.Table.NewKey | lua/src/ltable.c:399-432 | a slot for a new key, without any other change to what the table holds; it ends, because the rehash makes room |
| LuaTable.Table.MoveColliding | lua/src/ltable.c:404-418 | the colliding node moves to the free place and its chain goes on through it |
| LuaTable.Table.Set | lua/src/ltable.c:494-505 | a slot for the key; nil is an error; for an existing field nothing moves |
| LuaTable.Table.SetNum | lua/src/ltable.c:508-517 | the same for an integer |
| LuaTable.Table.SetNodeVector | lua/src/ltable.c:272-294 | an empty hash part of the next power of two |
| LuaTable.Table.RefillSlice | lua/src/ltable.c:303-314 | what the array part loses is stored again, without another rehash |
| LuaTable.Table.RefillNodes | lua/src/ltable.c:315-321 | so is what was in the hash part |
| LuaTable.Table.Resize | lua/src/ltable.c:297-324 | the same contents in parts of the new sizes |
| LuaTable.Table.CountInt | lua/src/ltable.c:211-219 | counts integer keys by slices |
| LuaTable.Table.NumUseArray | lua/src/ltable.c:222-244 | counts the array part by slices |
| LuaTable.Table.NumUseHash | lua/src/ltable.c:247-260 | counts the hash part |
| LuaTable.Table.NewSizes | lua/src/ltable.c:333-349 | the array size is optimal for all integer keys and the extra key, and the hash part has room for the rest |
| LuaTable.Table.Rehash | lua/src/ltable.c:333-349 | the same contents, and room for the extra key |
| LuaTable.Table.GetValue | lua/src/ltable.c:469-488 | agrees with the finite map of the contents |
| LuaTable.Table.GetNumValue | lua/src/ltable.c:435-452 | agrees with the finite map of the contents |
| LuaTable.Table.SetValue | lua/src/ltable.c:494-505 | updates the finite map; a store of nil removes the key; a store to an existing field cannot fail, and changes only its value |
| LuaTable.Table.SetNumValue | lua/src/ltable.c:508-517 | the same for an integer |
| LuaTable.Table.StoreAll | lua/src/ltable.c:399-517 | after any sequence of stores with the rehashes that they cause the table holds what a finite map would; it fails only if the map has 2^26 entries, and never for existing fields |
| LuaTable.Table.CountIsSize | lua/src/ltable.c:229-260 | the entries that rehash counts are those of the map |
| LuaTable.Table.FindIndex | lua/src/ltable.c:137-159 | the index of a key, or an error for a key that is not there |
| LuaTable.Table.Next | lua/src/ltable.c:162-179 | the first entry behind the key, with its value |
| LuaTable.Table.Traverse | lua/src/ltable.c:162-179 | luaH_next from nil on, with any stores to existing fields between the calls: it ends, returns entries that are there, and visits each entry that stays there exactly once |
| LuaTable.TraversalEnds | lua/src/ltable.c:162-179 | at most one call for each element and node, while only values change |
| LuaTable.TraversalVisitsOnce | lua/src/ltable.c:162-179 | a complete traversal visits every field that stays non-nil exactly once |
| LuaTable.EntryVisitedOnce | lua/src/ltable.c:162-179 | the same for the entries of the finite map |
| LuaTable.Table.UnboundSearch | lua/src/ltable.c:532-553 | finds a boundary by doubling and bisection, or by a linear search |
| LuaTable.Table.GetN | lua/src/ltable.c:560-576 | a boundary: t[n] is not nil and t[n+1] is |
| PatternSpec.RunIsLongest | lua/src/lstrlib.c:301-313 | the run that greedy repetition starts from is the longest |
| PatternSpec.BalanceEndIsFirst | lua/src/lstrlib.c:281-298 | %b ends where the delimiters balance for the first time |
| PatternSpec.AlternativesAreMatches | lua/src/lstrlib.c:365-440 | the list of alternatives of an item holds exactly its matches, by a definition that knows no order |
| PatternSpec.DenSound | lua/src/lstrlib.c:365-440 | the list of successes of a pattern holds exactly its matches |
| Matcher.MatchState.ClassEnd | lua/src/lstrlib.c:202-223 | the end of a single-character class, or a malformed pattern |
| Matcher.BeforeZero | lua/src/lstrlib.c:406-408 | a pattern ends at its first zero |
| Matcher.MatchState.MatchBracketClass | lua/src/lstrlib.c:245-265 | membership in a set, complemented or not |
| Matcher.MatchState.SingleMatch | lua/src/lstrlib.c:268-278 | membership in a class |
| Matcher.MatchState.MatchBalance | lua/src/lstrlib.c:281-298 | the first balancing delimiter |
| Matcher.MatchState.CheckCapture | lua/src/lstrlib.c:186-191 | the index of a finished capture, or an error |
| Matcher.MatchState.CaptureToClose | lua/src/lstrlib.c:194-199 | the last open capture |
| Matcher.MatchState.MatchCapture | lua/src/lstrlib.c:354-362 | a back reference matches what was captured |
| Matcher.MatchState.StartCapture | lua/src/lstrlib.c:329-340 | opens a capture, which a failure takes back |
| Matcher.MatchState.EndCapture | lua/src/lstrlib.c:343-351 | closes a capture, which a failure opens again |
| Matcher.MatchState.MaxExpand | lua/src/lstrlib.c:301-313 | tries the longest repetition first |
| Matcher.MatchState.MinExpand | lua/src/lstrlib.c:316-326 | tries the shortest repetition first |
| Matcher.MatchState.Match | lua/src/lstrlib.c:365-440 | the first result of the list of successes, its captures, or the first error; null exactly if there is none, with level and captures as before; it ends for every pattern and subject |
| Matcher.MatchState.Find | lua/src/lstrlib.c:495-535 | the leftmost match; on an error there is no match further left |
| Matcher.FirstSound | lua/src/lstrlib.c:365-440 | what is found matches, and if nothing is found nothing matches |
| Matcher.GreedyTakesLongest | lua/src/lstrlib.c:301-313 | with `*` no longer repetition allows the rest to match |
| Matcher.LazyTakesShortest | lua/src/lstrlib.c:316-326 | with `-` no shorter repetition allows it |
| PatternText.TextParsed | lua/src/lstrlib.c:365-440 | the text of a list of items, written as section 5.4.1 of the reference manual writes it, with sets, ranges, classes, suffixes, captures, `%b`, `%f` and the anchor, is read as that list |
| PatternText.SamplePattern | lua/src/lstrlib.c:365-440 | what `[%a_]*=(.-)$` is read as |
| PatternText.MalformedTexts | lua/src/lstrlib.c:202-223 | texts that are no patterns |
| PatternText.Letters | lua/src/lstrlib.c:226-242 | %u, %l and %d are the letters and digits, one by one |
| PatternText.OtherClasses | lua/src/lstrlib.c:226-242 | %a is the union of %u and %l, %w that of %a and %d; %x, %s, %c and %z by their members |
| PatternText.Punctuation | lua/src/lstrlib.c:226-242 | %p is the punctuation of ASCII |
| PatternText.Complements | lua/src/lstrlib.c:226-242 | an upper-case letter stands for the complement of its class |
| PatternText.EscapedSelf | lua/src/lstrlib.c:239 | any other character behind an escape stands for itself |
| PatternText.SetUnion | lua/src/lstrlib.c:245-265 | a set is the union of its parts |
| PatternText.SetParts | lua/src/lstrlib.c:245-265 | a range is the characters from its first to its last one, and a class may be a part of a set |
| PatternText.LongestRun | lua/src/lstrlib.c:301-313 | on texts: `?`, `*` and `+` take the longest run that the suffix allows and behind which the rest of the text matches |
| PatternText.ShortestRun | lua/src/lstrlib.c:316-326 | on texts: `-` takes the shortest one |
| CollectorSpec.ReachableStays | lua/src/lgc.c:69-112 | what is reachable from the roots is in every closed set that holds them |
| CollectorSpec.FlipWhite | lua/src/lgc.c:525-553 | if marked objects refer to marked objects only, the live objects after the flip are the marked ones, and are closed |
| Collector.GlobalState.constructor | lua/src/lstate.c:143-188 | the first state satisfies the invariant |
| Collector.GlobalState.ReallyMarkObject | lua/src/lgc.c:69-112 | keeps the tri-colour invariant; only white objects change colour |
| Collector.GlobalState.PropagateMark | lua/src/lgc.c:277-320 | one gray object is traversed; threads go to the list that the atomic step visits again; something decreases |
| Collector.GlobalState.PropagateAll | lua/src/lgc.c:323-327 | until nothing is gray; it ends |
| Collector.GlobalState.MarkMt | lua/src/lgc.c:493-497 | the metatables of basic types are marked |
| Collector.GlobalState.MarkRoot | lua/src/lgc.c:501-512 | starts a cycle in a state that satisfies the tri-colour invariant |
| Collector.GlobalState.RemarkUpvals | lua/src/lgc.c:515-522 | the values of all gray open upvalues are marked |
| Collector.GlobalState.Atomic | lua/src/lgc.c:525-553 | afterwards exactly the marked objects are live, they refer to live objects only, and all roots are among them |
| Collector.GlobalState.SweepStrings | lua/src/lgc.c:407-428 | of one list of strings the dead are freed, the others white; no live object is lost or changed |
| Collector.GlobalState.FreeUpval | lua/src/lfunc.c:89-93 | a dead open upvalue leaves all its lists |
| Collector.GlobalState.SweepOpen | lua/src/lgc.c:407-428 | the open upvalues of a thread are swept |
| Collector.GlobalState.FreeObject | lua/src/lgc.c:378-401 | a dead object is freed; the open upvalues of a dead thread are closed first |
| Collector.GlobalState.SweepObjects | lua/src/lgc.c:407-428 | a part of all objects is swept; no live object is lost or changed |
| Collector.GlobalState.SingleStep | lua/src/lgc.c:556-607 | keeps the invariant, gets nearer to the end of the cycle, and keeps whatever can be reached, with its references |
| Collector.GlobalState.FullGC | lua/src/lgc.c:636-659 | from every state it ends, with exactly the reachable and the fixed objects, all of the current white; no object that stays is changed, and no fixed object is freed |
| Collector.GlobalState.BarrierF | lua/src/lgc.c:662-672 | the forward barrier restores the invariant |
| Collector.GlobalState.BarrierBack | lua/src/lgc.c:675-683 | the backward barrier restores it by a gray table |
| Collector.GlobalState.Link | lua/src/lgc.c:686-692 | a new object, in any phase |
| Collector.GlobalState.NewUdata | lua/src/lstring.c:96-110 | a new userdata, behind the main thread |
| Collector.GlobalState.LinkUpval | lua/src/lgc.c:695-710 | a closed upvalue becomes an object like others, in any phase |
| Collector.GlobalState.NewString | lua/src/lstring.c:50-72 | a new string, in any phase |
| Collector.GlobalState.ReuseString | lua/src/lstring.c:80-90 | a dead string that is asked for again comes back to life |
| Collector.GlobalState.SetTable | lua/src/lvm.c:134-155 | a store into a table with its barrier keeps the invariant |
| Collector.GlobalState.SetObject | lua/src/lgc.h:86-100 | so does a store into another object with its barrier |
| Collector.GlobalState.SetStack | lua/src/lgc.c:256-274 | so does a store into a stack, without a barrier |
| Collector.GlobalState.SetUpval | lua/src/lvm.c:447-452 | an assignment to an upvalue goes to the stack while it is open, to the upvalue afterwards |
| Collector.GlobalState.FindUpval | lua/src/lfunc.c:53-79 | the open upvalue of a slot if there is one, back to life if it was dead; else a new one in its place |
| Collector.GlobalState.OneUpvalPerSlot | lua/src/lfunc.c:53-79 | so closures that capture the same variable share it |
| Collector.GlobalState.Close | lua/src/lfunc.c:96-112 | exactly the upvalues at the level and above are closed, each with its current value |
| Collector.GlobalState.SetMetatable | lua/src/lapi.c:701-731 | no barrier is needed for the metatables of basic types |
| Collector.GlobalState.Resume | lua/src/lgc.c:525-553 | nor for the thread that runs |
| Collector.GlobalState.ReachableIsLive | lua/src/lgc.c:407-428 | whatever can be reached is allocated and not dead |
| Collector.GlobalState.PushString | lua/src/lapi.c:445-451 | a string goes to the stack: the one that is in the table, also if it was dead, or a new one |
| Collector.GlobalState.CaptureVariable | lua/src/lvm.c:727-734 | a slot of a new closure gets the open upvalue of the variable, also if it was dead, or a new one |
| Collector.GlobalState.Perform | lua/src/lgc.c:556-607 | every event keeps the invariant; the collector changes no object that stays, but that the upvalues of a freed thread get their values; each event of the mutator has exactly its effect on the heap, the metatables and the running thread, and leaves live what is live |
| Collector.GlobalState.Run | lua/src/lgc.c:556-607 | every run of a program, interleaved with steps and full cycles of the collector in any way, goes as on a heap that never loses an object: the roots are the same, and each object that the program can reach is there with the same kind and contents |
| Mutator.FollowsUntouched | lua/src/lgc.c:378-428 | what the collector frees, and the upvalues that it closes with their thread, change nothing that a program without a collector would see |
| Mutator.NextFollows | lua/src/lgc.c:556-607 | after each event the heap of the collector agrees with the heap that never loses an object, and the string or upvalue that was used is one that the program may get |
| Mutator.UsableIsLive | lua/src/lgc.c:407-428 | what a program can reach without a collector is live with it |
| Mutator.TableProgram | lua/src/lvm.c:134-155 | a table and a string that are made and stored are such a program |
| Mutator.CaptureProgram | lua/src/lvm.c:719-738 | so are the capture of a variable, an assignment through its upvalue and the end of its block |
| Strings.StringTable.Resize | lua/src/lstring.c:22-47 | the same strings, each in the list of its hash; nothing happens during a sweep of strings |
| Strings.StringTable.NewString | lua/src/lstring.c:50-72 | one more string, and a table of twice the size if it is crowded and no sweep is under way |
| Strings.StringTable.Intern | lua/src/lstring.c:75-93 | the only object with this content, not dead; a new one only if there is none |
| Strings.StringTable.SweepList | lua/src/lgc.c:407-428 | of one list exactly the dead strings are freed; the count stays right |
| Strings.StringTable.SweepRest | lua/src/lgc.c:572-580 | no string that is not dead is freed by the rest of the sweep |
| Strings.StringTable.Perform | lua/src/lgc.c:572-580 | each event has exactly its effect on the strings, their marks, the fixed ones, the size of the table and the sweep |
| Strings.StringTable.Run | lua/src/lgc.c:572-580 | in any interleaving of requests, resizing, marking and sweeping there is one string for a content; until the white flips again no string is freed that was not dead at first, nor one that a request returned |
| Sort.Set2 | lua/src/ltablib.c:173-176 | two elements change places |
| Sort.MedianOfThree | lua/src/ltablib.c:193-216 | the first, the middle and the last element in order |
| Sort.ScanUp | lua/src/ltablib.c:225-229 | stops within the range, so that the check for an invalid order function never fails |
| Sort.ScanDown | lua/src/ltablib.c:230-234 | the same downwards |
| Sort.Partition | lua/src/ltablib.c:217-244 | nothing before the pivot is greater, nothing behind it is less; only the range is permuted |
| Sort.AuxSort | lua/src/ltablib.c:193-254 | a sorted permutation for every strict weak order, with at most a logarithmic number of active calls |
| Sort.SortTable | lua/src/ltablib.c:256-267 | the whole array is sorted; fewer than 2^40 elements need fewer than 40 nested calls |
| Quoting.AddQuoted | lua/src/lstrlib.c:696-723 | writes the quoted form |
| Quoting.LexState.IncLineNumber | lua/src/llex.c:127-135 | two different line breaks in a row are one |
| Quoting.LexState.ReadDigits | lua/src/llex.c:304-313 | at most three digits; more than 255 is an error |
| Quoting.LexState.ReadString | lua/src/llex.c:276-329 | reads the literal that the input starts with, or finds its first error, for every input and delimiter |
| Quoting.ControlEscapes | lua/src/llex.c:291-297 | the control characters that the letters a, b, f, n, r, t and v stand for |
| Quoting.DecimalEscapes | lua/src/llex.c:304-313 | three digits are a byte in decimal |
| Quoting.RoundTrip | lua/src/lstrlib.c:696-723 | what `%q` writes reads back as the same bytes, up to just behind the closing quote, for every byte string; it fails exactly if the lines can no longer be counted |
| Precedence.LexState.SubExpression | lua/src/lparser.c:828-853 | the loop computes the parser function, and returns the first operator that does not bind tighter than the limit |
| Precedence.FitsConforms | lua/src/lparser.c:811-822 | the table of priorities says what section 2.5.6 of the reference manual says |
| Precedence.OperatorText | lua/src/lparser.c:779-807 | each operator is read from its own text |
| Precedence.Rebuilt | lua/src/lparser.c:828-853 | a tree is rebuilt from its tokens, whatever follows; or it is nested too deep |
| Precedence.Sound | lua/src/lparser.c:828-853 | what is accepted consists of the tokens of the tree that is returned |
| Precedence.ParserMeetsManual | lua/src/lparser.c:828-858 | a tree is returned if and only if the tokens are its own, its operators bind as the manual says, no operator follows, and it is not nested too deep |
| Precedence.Unambiguous | lua/src/lparser.c:828-853 | no text has two trees |
| Precedence.PrintedIsRead | lua/src/lparser.c:828-853 | printing with the needed parentheses and parsing gives the tree back |
| Checker.CountSetlists | lua/src/ldebug.c:346-359 | the run of words that look like a SETLIST with a count |
| Checker.CheckOperands | lua/src/ldebug.c:329-364 | the checks of operands and jump targets, by the mode of the instruction |
| Checker.CheckInstruction | lua/src/ldebug.c:323-470 | all checks of one instruction |
| Checker.CheckCode | lua/src/ldebug.c:484-486 | accepts if and only if the prototype passes the first checks and every instruction start passes its own |
| Bytecode.AcceptedIff | lua/src/ldebug.c:269-474 | the checker accepts a prototype if and only if its sizes fit, each register, constant and upvalue that an instruction uses exists, operands without a meaning are zero, tests are followed by jumps, open results are taken, captures are spelt out, a concatenation has two operands at least, and control is closed, but for LOADBOOL with C above 1 |
| Checker.EvenRun | lua/src/ldebug.c:346-359 | an instruction starts at a position if and only if the run of words before it is even |
| Checker.AcceptedIsClosed | lua/src/ldebug.c:317-474 | control of accepted code is closed if and only if no LOADBOOL with C above 1 skips past the code or into a count |
| Checker.RunsOfAcceptedCode | lua/src/ldebug.c:317-474 | with LOADBOOL operands of 0 and 1 no run of accepted code leaves it, or lands on the count word of a SETLIST |
| Checker.SkipLeavesCode | lua/src/ldebug.c:375-381 | accepted code that leaves the code array |
| Checker.OperandsInBounds | lua/src/ldebug.c:317-474 | the interpreter uses no register, constant or upvalue that is not there; OP_TFORLOOP only uses the extra slots of the stack |
| Checker.OpenResultsAreUsed | lua/src/ldebug.c:290-301 | an instruction with an open number of results is followed by one that takes an open number |
| Cells.NextWf | lua/src/lvm.c:423-452 | every step leaves each slot with a variable of its own |
| Cells.SharedUntilClosed | lua/src/lfunc.c:96-112 | in any run a closure and a slot share a variable if and only if its block was not left; afterwards no slot ever has it again |
| Cells.SameVariable | lua/src/lvm.c:719-738 | closures that capture a slot at different times share the variable if and only if its block was not left in between |
| Cells.AssignmentSeen | lua/src/lvm.c:447-452 | an assignment through a closure is seen exactly where the same variable is |
| Cells.LocalAssignmentSeen | lua/src/lvm.c:403-406 | an assignment to a local variable is seen in its slot and through the closures that have the variable |
| Cells.UpvalueRead | lua/src/lvm.c:423-427 | reading an upvalue puts the value of its variable into the slot |
| Upvalues.LuaState.Search | lua/src/lfunc.c:58-66 | the position of the slot in the list of open upvalues |
| Upvalues.LuaState.Insert | lua/src/lfunc.c:67-72 | the list stays decreasing, with one upvalue for a slot |
| Upvalues.LuaState.FindUpval | lua/src/lfunc.c:53-79 | the upvalue of the variable that is in the slot |
| Upvalues.LuaState.MakeClosure | lua/src/lvm.c:719-738 | the closure holds the upvalues of the variables that it captures |
| Upvalues.LuaState.GetUpval | lua/src/lvm.c:423-427 | reads the variable, in the stack or in the upvalue |
| Upvalues.LuaState.SetUpval | lua/src/lvm.c:447-452 | assigns to the variable, in the stack or in the upvalue |
| Upvalues.LuaState.Close | lua/src/lfunc.c:96-112 | exactly the upvalues at the level and above leave the stack, each with its current value |
| Upvalues.LuaState.CorrectStack | lua/src/ldo.c:126-138 | all open upvalues point to the same slots of the new stack |
| Upvalues.LuaState.ReallocStack | lua/src/ldo.c:141-149 | a move of the stack changes no variable |
| Upvalues.LuaState.Run | lua/src/lfunc.c:53-112 | in any run the stack and the upvalues hold what the cells hold |
| Upvalues.LuaState.ReadsCell | lua/src/lvm.c:423-427 | the value of an upvalue is that of its variable, and it is open if and only if a slot has the variable |
| Upvalues.LuaState.OneUpvalPerVariable | lua/src/lfunc.c:53-79 | two closures have an upvalue in common if and only if they have the variable in common |
| Chunks.NumberOfLittle | lua/src/ldump.c:45-48 | a number is the one that its bytes in memory stand for, lowest first |
| Chunks.StringRoundTrip | lua/src/lundump.c:76-88 | a string, or none, is read back, whatever follows |
| Chunks.ManyRoundTrip | lua/src/lundump.c:100-159 | if each element is read back, so is the vector |
| Chunks.ConstantInverse | lua/src/lundump.c:107-130 | a constant of any kind is read back |
| Chunks.ManyLocVars | lua/src/lundump.c:144-153 | local variables are read back, unless a position is negative; then the chunk is refused |
| Chunks.PlaceRoundTrip | lua/src/lundump.c:167-169 | a source equal to that of the enclosing function is not written, and comes back from it |
| Chunks.DebugRoundTrip | lua/src/lundump.c:137-159 | lines and names are read back |
| Chunks.FunctionRoundTrip | lua/src/lundump.c:161-181 | every function whose values fit their types, with its nested ones, is read back up to its last byte, or refused for the first reason there is: depth, negative numbers, the checker |
| Chunks.NestedRoundTrip | lua/src/lundump.c:131-135 | the same for the nested functions |
| Chunks.ChunkRoundTrip | lua/src/lundump.c:195-209 | the same for a whole chunk with its header |
| Chunks.SoundRefusal | lua/src/lundump.c:161-181 | a function that the checker accepts, and without negative numbers, is refused if and only if it is nested too deep, stripped or not |
| Chunks.DumpUndump | lua/src/ldump.c:129-164 | dump, then undump, is the identity |
| Chunks.StripUndump | lua/src/ldump.c:111-141 | with strip, only sources, lines and names are lost |
| Chunks.StripKeeps | lua/src/ldump.c:111-141 | what is left of a stripped function, field by field |
| Chunks.DecodeFields | lua/src/lopcodes.h:33-47 | a word is 6 bits of opcode, 8 of A, 9 of C and 9 of B, from the lowest on, with the opcodes numbered from 0 to 37 |
| Chunks.VarargBits | lua/src/lobject.h:257-259 | the three flags are the bits 1, 2 and 4 |
| Chunks.SmallestLoaded | lua/src/lundump.c:195-227 | byte by byte, the chunk of an empty main function is loaded |
| Chunks.OuterWritten | lua/src/ldump.c:40-164 | byte by byte, the chunk of a function with constants of all kinds, a nested function and debug information |
| Chunks.OuterLoaded | lua/src/lundump.c:100-209 | it is loaded as that function |
| Chunks.OnlyAccepted | lua/src/lundump.c:178 | whatever the bytes are, each function that undump returns, nested ones too, was accepted by the checker |
| Chunks.FunctionExtends | lua/src/lundump.c:161-181 | a result, or an error other than an unexpected end, does not depend on what follows |
| Chunks.TruncatedRefused | lua/src/lundump.c:48-52 | each proper prefix of a chunk that would be loaded is refused, as one that ends too early |
| Dump.DumpState.DumpBlock | lua/src/ldump.c:29-37 | the writer gets the block unless it failed before |
| Dump.DumpState.DumpString | lua/src/ldump.c:61-74 | the size with the zero at the end, the bytes, the zero; or size 0 |
| Dump.DumpState.DumpConstants | lua/src/ldump.c:80-109 | the constants, then the nested functions |
| Dump.DumpState.DumpDebug | lua/src/ldump.c:111-127 | lines, local variables and upvalues, or three empty vectors |
| Dump.DumpState.DumpFunction | lua/src/ldump.c:129-141 | the bytes of the function, of which the writer got all, or a prefix if it failed |
| Dump.DumpChunk | lua/src/ldump.c:153-164 | the whole chunk is written, or the failing writer's status is returned |
| Undump.ManyElements | lua/src/lundump.c:90-96 | reading an array as one block is reading its elements one by one |
| Undump.LoadState.LoadString | lua/src/lundump.c:76-88 | takes the bytes of the string and returns it, or the error |
| Undump.LoadState.LoadConstants | lua/src/lundump.c:100-135 | takes the constants and the nested functions, or gives the first error |
| Undump.LoadState.LoadDebug | lua/src/lundump.c:137-159 | takes lines and names, or gives the first error |
| Undump.LoadState.LoadFunction | lua/src/lundump.c:161-181 | takes the bytes of one function and returns it, with the depth of calls as before, or gives the first error |
| Undump.LoadChunk | lua/src/lundump.c:195-209 | the function of the chunk, or the first error |
| Undump.LoadSmallestChunk | lua/src/lundump.c:195-209 | the bytes of the smallest chunk are accepted |

## Left out

- Code generation: `nil`, arithmetic and constant folding, calls, varargs, tables, globals, and line information; comparisons are an abstract total function, so metamethods and errors in them are not modelled; instructions are records, which CodeGenChecked encodes as words.
- CodeGenTheorems.ReturnCorrect: promises nothing when a limit on registers, constants, code or jump offsets was exceeded (the C code raises a syntax error then; CodeGenLimits says when this cannot happen), or in a run that takes a value jump at a literal with another value: the value may still be right then, because only its truth is used later.
- CodeGen.FuncState.Code: line information.
- CodeGen.FuncState.DischargeVars: globals, indexed variables, calls and varargs.
- CodeGen.FuncState.Discharge2Reg: `nil`, like CodeGen.FuncState.Exp2RK.
- CodeGen.FuncState.Expression: other operators, like CodeGen.FuncState.Infix and CodeGen.FuncState.Posfix.
- CodeGen.FuncState.FreeExp: leaves out the test that the register is not a constant, which the place of an expression in a register never is.
- Garbage collection: finalizers, weak tables, pacing and debts, the resizing of the string table and of stacks by the collector; objects keep the number of fields that they were made with.
- Collector.GlobalState.Run: a program names only new objects and what it can reach, and the name of an object is never used again; which of several unreachable strings or upvalues would be found again is not determined, because no program can tell.
- CodeGenLimits.ReturnCompiles: the other direction; what an expression needs is an upper bound, and an expression that needs more may still compile.
- PatternText.TextParsed: texts that the code reads, but the manual does not describe, such as a set that starts with `]`.
- Collector.GlobalState.NewString: strings have no content here; `Strings` has, with any hash function, and without the rest of the heap.
- Tables: keys are integers or abstract objects, with any hash function; floating-point keys, metamethods, dead keys and memory errors are not modelled; nil as a key is an error as in the source, and NaN does not exist.
- LuaTable.Table.SetValue: promises nothing after a table overflow, which takes 2^26 entries.
- LuaTable.Table.constructor: array parts of more than 2^26 elements, of which rehash counts only the first ones, are not modelled.
- LuaTable.Table.Resize: neither are they here, where `luaH_resizearray` may ask for them.
- Pattern matching: the "C" locale only; `gmatch`, `gsub`, the plain search of `find` and the pushing of results are left out.
- Matcher.MatchState.MatchCapture: a back reference to a position capture always fails, as in the source, where its length is a huge unsigned number.
- Checker.OperandsInBounds: an open number of operands names no registers: the top of the stack is not modelled.
- Checker: the mode that searches for the instruction that loaded a register; the content of the prototype but for sizes and which constants are strings; Checker.Word has the raw fields of an instruction, because a count word may hold anything, while Machine.Instr has only the instructions that the generator emits.
- Strings: the hash loop itself, memory limits, and the shrinking of the table at the end of a sweep.
- Sort.AuxSort: promises nothing for a function that is not a strict weak order; elements are compared by a total function, so no error can come out of a comparison.
- Quoting: the limit on the size of a token; long strings; other escapes of `string.format`.
- Precedence.ParserMeetsManual: operands are names and parenthesised expressions; calls, fields and constructors are not, so a parenthesis behind a complete operand is not read as a call.
- Upvalues: dead upvalues, which `Collector` has; slots are counted from the bottom of the stack and not from the base of the running function; calls, and the list of frames that moves with the stack.
- Upvalues.LuaState.ReallocStack: the new stack has room for all captured slots, as the callers of the source see to.
- Undump.LoadState.LoadConstants: a string constant of size 0, which dump never writes and the source reads as a null pointer, is an empty string here.
- Chunks.FunctionRoundTrip: functions are values, filled in field by field, and not objects; memory errors are not modelled; a number is eight bytes, and chunks are of a machine with 32-bit integers, 64-bit sizes and the low byte first.
- Coroutines, the C API, the standard libraries but for what is listed above, and everything outside `lua/src`.
