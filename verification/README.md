# A verified model of the uFork toolchain

This project models the parts of the uFork JavaScript toolchain that are hard to get right, and proves
what they are for.

- **Humus compiler** (`Humus*.dfy`): the code generator predicts the positions of values on the run-time stack
  backwards while it generates code last instruction first. `HumusCodegen` is that generator, as a class; its
  methods are proved against a direct evaluator (`HumusEval`) over a stack machine (`HumusMachine`). `HumusPaths`
  treats the paths through pattern trees, `HumusCompact` the closure environments, `HumusSort` the order of
  definitions, `HumusAnalysis`, `HumusVisit` and `HumusBlock` the names that a block defines and uses, and what is
  accepted once it is sorted.
- **uCode** (`UCode*.dfy`): the one-pass Forth compiler that patches its own output (`UCodeCompiler`), the processor
  simulator (`UCodeCpu`), the documented meaning of every primitive word (`UCodeWords`) and of well-nested programs
  (`UCodeSource`). `UCodeLayout` proves what is compiled, `UCodeCorrect` that it runs as it means, `UCodeProgram`
  puts both together from tokens to a running machine. `UCodeMemory` says what the memory words amount to.
  `UCodeImage` prints and reads memory images, `UCodeDisasm` says what a printed line tells.
- **Parseq** (`Parseq*.dfy`): the requestor factories as a protocol with adversarial requestors, timers and callers.
  `ParseqSafety` is what holds in every run; `ParseqReplies`, `ParseqLimits`, `ParseqUnfinished` and `ParseqCancel` say
  what is recorded, why a run ends, who is told to cancel, and what happens after the end.
- **Editor** (`Editor*.dfy`): alterations, reversible patches, text nodes altered in place, and the undo history.
  `EditorOrder`, `EditorInverse` and `EditorTelling` treat alterations that are not listed in ascending order.
- **OED** (`Oed*.dfy`): the two implementations of Octet-Encoded Data, in both directions and against each
  other. `OedStrict` says what the decoders make of any octets.
- **WebSocket** (`WebSocket*.dfy`): frames and messages out of bytes that arrive in any pieces, as sections 5.2 to 5.4
  of RFC 6455 have them.
- **Dead code** (`Collapse.dfy`): the worklist that marks live statements.

Where the source changes variables, fields or buffers, the model does so too: classes with methods, loops with
invariants. Each such method is tied to a function of its inputs and the old state, and what the source promises is
proved about that function. Some proofs hide a definition behind a quantifier over a marker predicate (`Look`, `Open`,
`Unroll`, `Ask` and the like) that holds of everything: the definition is then unfolded only where a proof mentions
the marker.

Results that differ from what the source says of itself:

- OED texts and keys that begin with a byte order mark do not round-trip, because text decoders remove the mark:
  `lib/oed.js` then refuses its own output and `lib/oed_lite.js` gives another value. Everything else does.
- The inverse of a patch depends on the order of its hunks, although alterations are sorted before they are applied.
  It is the inverse of the sorted patch exactly if, for every alteration, those listed before it make the text as
  much longer as those sorted before it, and touching deletions are listed in order.
- Sorting the statements of a Humus block overlooks the use of a name in an equation or a pattern that binds the same
  name further left: `DEF c AS 1` and `DEF d AS IF c = $c TRUE ELSE FALSE` are taken to be independent, and the last
  independent statement is taken first, so that a block that would be accepted as it stands is refused. Sorting is
  sure to keep a block in scope exactly if every use is of what a statement depends on in its eyes.
- A Parseq requestor that throws when the run has ended while it was being called can cause a callback after the
  caller's cancel, or a call of a callback that has been forgotten, because the path for exceptions does not check
  whether the run is over.
- A WebSocket that a frame destroys still handles the rest of the chunk, so that cuts matter for bytes after it.
- A printed uCode word does not show the EXIT that a semicolon has joined to it if the dictionary has no name for it.
- A uCode fetch outside the program gives up its step without an error, and with it the return that a semicolon has joined to it.

To check the whole project, give `dfyconfig.toml` to `dafny verify`.

## Model

| member | source | states |
|---|---|---|
| HumusCompile.CompileExpression | lib/humus.js:1133-1139 | compiling succeeds exactly if every name is in scope and no pattern repeats a name; then, on any stack whose top mirrors the environment, the code goes on with exactly the evaluator's value pushed |
| HumusCompile.CompilePattern | lib/humus.js:1205-1251 | compiled pattern matching replaces any value by whether it matches, with everything below it untouched |
| HumusCompile.CompileBlock | lib/humus.js:1141-1192 | a compiled block runs as its sorted statements are executed one after the other, or aborts as they do; it is accepted exactly if in the order that sorting finds no name is defined twice and every use is in scope; if sorting sees every use, and so if no statement binds what another one defines, exactly if every use is known outside or defined elsewhere in the block; and where no defined pattern contains an expression that binds names, a name is defined twice or not whatever the order |
| HumusCodegen.Codegen.Generate | lib/humus.js:1133-1139 | generating one expression: errors exactly if it is not well scoped; otherwise the predicted depth is one less and the code yields the expression's value |
| HumusCodegen.Codegen.GenIdent | lib/humus.js:1427-1476 | an identifier's code picks the environment and walks to what the evaluator looks up, or pushes the module's own name |
| HumusCodegen.Codegen.GenPair | lib/humus.js:1529-1550 | a pair's code yields the pair of the values of its parts |
| HumusCodegen.Codegen.GenIf | lib/humus.js:1478-1518 | an IF yields its first branch in the extended environment exactly if the solved pattern matches, and its second branch in the old one otherwise |
| HumusCodegen.Codegen.GenCaseChoice | lib/humus.js:1389-1411 | a choice yields the first branch whose pattern matches, in the environment that the match extends |
| HumusCodegen.Codegen.GenPtrnMatch | lib/humus.js:1205-1251 | pattern code decides the match of the value on top of the stack, at the same predicted depth |
| HumusCodegen.Codegen.GenPairMatch | lib/humus.js:1225-1250 | a pair pattern matches both parts of a pair and nothing else, without leaving the parts behind |
| HumusCodegen.Codegen.GenStmt | lib/humus.js:1567-1680 | a statement's code leaves the environment that the statement extends in the place of the old one, or aborts |
| HumusCodegen.Codegen.GenDef | lib/humus.js:1567-1605 | a definition extends the environment by what its pattern binds, in place, and aborts if the pattern does not match |
| HumusCodegen.Codegen.GenSend | lib/humus.js:1656-1671 | SEND sends exactly the evaluated message to the evaluated actor |
| HumusCodegen.Codegen.GenBlockCode | lib/humus.js:1141-1192 | a block's code takes a continuation and an environment value and performs its statements in the order found by sorting, or as they are if there is a cycle |
| HumusCodegen.Codegen.EmitIf | lib/humus.js:1053-1084 | the depths of both branches agree, so that the exception for a mismatch is never reached |
| HumusCodegen.Codegen.EnvAt | lib/humus.js:931-938 | the exception for a bad depth is never reached |
| HumusCodegen.Codegen.EmitNths | lib/humus.js:1086-1090 | the instructions for a path replace a value by its component at the end of the path |
| HumusCodegen.Codegen.EmitCompact | lib/humus.js:1100-1119 | the instructions for a list of paths build the environment value rebuilt from those paths |
| HumusCodegen.Codegen.RedefinitionCheck | lib/humus.js:1121-1131 | an error is reported exactly if a visit of the pattern meets a name twice |
| HumusMachine.StackDeltaIsReal | lib/humus.js:727-777 | the predicted stack effect of every instruction is its real one on every stack that does not underflow |
| HumusMachine.PartUndoesPair | docs/vm.md:344-345 | taking apart what has been put together restores the stack |
| HumusMachine.RollUndoesRoll | docs/vm.md:319-320 | rolling back restores the stack |
| HumusMachine.BranchTaken | docs/vm.md:342-394 | the second branch is taken exactly on false, undefined, nil and zero |
| HumusPaths.ResolveFollows | lib/humus.js:495-509 | folding nth over any path takes exactly the head and tail steps that the path stands for |
| HumusPaths.SearchIsFirst | lib/humus.js:511-550 | search finds the first answering node in head-first preorder, as positive entries and at most one final negative entry, and nothing exactly if there is none |
| HumusPaths.PathContainsIsPrefix | lib/humus.js:583-620 | for all integer paths, containment is the prefix order on steps, the proper one if exclusive, and it terminates |
| HumusEnv.SearchBinds | lib/humus.js:1427-1476 | the path found for a name leads to the value the name is bound to, and unbound names have no path |
| HumusEnv.MatchedPathsWalkPairs | lib/humus.js:1205-1251 | after a match the path of every name walks only through pairs, to the component that it binds |
| HumusCompact.Compact | lib/humus.js:644-693 | the loops choose the outermost inherited closure environment and the paths outside it |
| HumusCompact.CompactKeepsLookup | lib/humus.js:644-693 | after closure conversion every free name is found exactly if it was, at the same node, and the rebuilt value holds at the new path what the old one held at the old path |
| HumusEval.ToExprIsTheValue | lib/humus.js:410-438 | a pattern becomes an expression exactly if it has no variable or wildcard, and then stands for that value alone |
| HumusEval.SolveIsSound | lib/humus.js:440-475 | a binding balances an equation exactly if the solved pattern stands for the solved expression's value under it |
| HumusEval.SolveIsComplete | lib/humus.js:440-475 | an equation has no solved form exactly if some aligned position has a variable or wildcard on both sides |
| HumusEval.MatchDenotes | lib/humus.js:1205-1251 | a pattern of distinct names denotes a value exactly under the bindings that extend its match |
| HumusEval.IfSolvesItsEquation | lib/humus.js:1478-1518 | an IF takes its first branch exactly if its equation can be balanced, with the bindings that balance it |
| HumusSort.SortStmts | lib/humus.js:338-382 | the order that is found by always taking the last independent statement is a permutation in which every statement follows what it depends on, and there is none exactly if the dependencies, without self-reference, have a cycle |
| HumusBlock.SortedExactly | lib/humus.js:338-382 | a block without a cycle is in scope in every order in which it can be sorted exactly if its statements are sound and every name they use is known outside or defined by a statement that they depend on, directly or through others |
| HumusBlock.SortedByPlace | lib/humus.js:355-381 | in the order that is found, the block is in scope exactly if every use is known outside or defined earlier in it |
| HumusBlock.SortedInScope | lib/humus.js:1141-1145 | if sorting sees every use of what other statements define, the sorted block is in scope exactly if each use is known outside or defined elsewhere in the block, in whatever order it was written |
| HumusBlock.ClearIsSeen | lib/humus.js:277-331 | if no statement binds, anywhere in it, what another statement defines, sorting sees every use of what other statements define |
| HumusBlock.SortedInTurn | lib/humus.js:338-382 | DEF a AS 1 and DEF b AS a are sorted in this order, in which they are in scope: an example |
| HumusBlock.SortingLosesNothing | lib/humus.js:334-338 | a block that is in scope in some order stays so in every order in which it can be sorted exactly if every name it uses is known outside or defined by a statement that the use depends on; it does if sorting sees every use |
| HumusBlock.HiddenUse | lib/humus.js:316-323 | a use that the analysis takes for bound by its own equation is not seen: a block that is in scope as it stands, and is sorted into one that is not |
| HumusBlock.HiddenUseByChance | lib/humus.js:316-323 | the same statements written the other way round are sorted into scope |
| HumusBlock.FreshInAnyOrder | lib/humus.js:1169-1175 | where no defined pattern contains an expression that binds names of its own, whether a block defines a name twice does not depend on the order of its statements |
| HumusBlock.DefinitionNames | lib/humus.js:1169-1175 | a definition names exactly what the visit of its pattern defines, and is plain if its pattern has no expressions |
| HumusAnalysis.ExprScoped | lib/humus.js:1427-1476 | an expression is in scope exactly if its equations can be solved without repeated names and every name it uses outside of what it binds is known |
| HumusAnalysis.SolveNames | lib/humus.js:410-475 | solving an equation keeps exactly its names |
| HumusVisit.AnalysisIsTheVisit | lib/humus.js:277-331 | a name is free in a statement exactly if the visit of its syntax tree meets it where no scope that is open then has defined it before, and defined exactly if it is defined outside of all scopes entered within the statement |
| HumusVisit.UnboundUseIsFree | lib/humus.js:277-331 | a name that a statement uses and binds nowhere is free in it, and what is free in it is used in it |
| HumusVisit.RepeatsAreTheVisit | lib/humus.js:1121-1131 | a pattern repeats a name exactly if the visit of it defines the name in two places, wherever they are |
| HumusSort.OrderedHasNoCycle | lib/humus.js:338-382 | a topological order excludes cycles |
| HumusSort.StuckHasCycle | lib/humus.js:355-381 | statements that all wait for each other form a cycle |
| Collapse.Mark | lib/collapse.js:379-407 | marking ends although statements are queued repeatedly, and roots exactly the statements reachable from an export or an effect |
| Collapse.QueueNeeds | lib/collapse.js:394-406 | one round queues exactly the other unrooted statements that define a free name of the marked one |
| Collapse.LiveIsLeast | lib/collapse.js:375-407 | reachability is the least set that holds the roots and is closed under need |
| UCodeProgram.ProgramFollows | fpga/ucode/ucode_sim.js:300-414 | from reset on, the processor with the compiled image does what the source program means: fails if it fails, returns with the same stack, cells and world, and runs on for as many steps as the meaning runs |
| UCodeProgram.ProgramEnds | fpga/ucode/ucode_sim.js:300-426 | a program that means failure halts the processor; one whose entry word returns brings it back to address 1 with that stack, world and those cells |
| UCodeProgram.ProgramRuns | fpga/ucode/ucode_sim.js:419-426 | a program that means to run n rounds longer runs n steps, and a processor that halts within n steps does not mean a longer run |
| UCodeProgram.RunLoop | fpga/ucode/ucode_sim.js:419-426 | stepping the simulator in a loop is running the step function as often |
| UCodeProgram.Build | fpga/ucode/ucode.js:67-394 | compiling the tokens of a well-nested program succeeds exactly if it is legal, with the program's image and dictionary as the outcome |
| UCodeProgram.BuildAndRun | fpga/ucode/ucode_sim.js:125-426 | compiling, loading and running: the machine is where so many steps from reset lead, goes on if the program means to run longer, comes to a halt if it fails, and comes back from the entry word with the stack, cells and devices that it means |
| UCodeProgram.CountedLoop | fpga/ucode/ucode.js:250-284 | n ?LOOP- runs the body n times with I from n-1 down to 0, n ?LOOP+ runs it (65536-n) mod 65536 times with I up to 0, and the counter is gone afterwards, for any body that leaves the return stack as it was |
| UCodeProgram.CountedTurns | fpga/ucode/ucode.js:250-284 | if so many turns of the body, each of which finds its index on the return stack and leaves it there, lead from state to state, the loop ends in the last of these states |
| UCodeProgram.CountIsIndex | fpga/ucode/ucode_sim.js:345-356 | counting once, down or up with wrap-around at 16 bits, is one round less |
| UCodeProgram.FetchReturns | fpga/ucode/ucode_sim.js:376-386 | a fetch that a semicolon has joined returns if and only if the cell exists; otherwise the processor runs on behind it |
| UCodeProgram.FetchFallsThrough | fpga/ucode/ucode_sim.js:239-298 | the smallest program in which a joined return does not happen |
| UCodeProgram.FreshCellsExist | fpga/ucode/ucode.js:207-220 | every program has data cells as loaded, so that the theorems about fresh cells speak of every program |
| UCodeProgram.CellLoaded | fpga/ucode/ucode.js:187-220 | a variable is loaded as zero and allocated data as its value |
| UCodeLayout.ProgramCompiles | fpga/ucode/ucode.js:373-394 | for every prefix of a program: the compiler refuses it exactly if it is not legal, and otherwise has its image so far |
| UCodeLayout.BodyCompiles | fpga/ucode/ucode.js:225-322 | any nesting of control words is compiled, with every placeholder patched, to code whose jumps go where the structure says; refused exactly if I or a semicolon stands where it must not, or a word is unknown |
| UCodeLayout.ItemCompiles | fpga/ucode/ucode.js:336-371 | one construct is compiled to its code with the control stack as before |
| UCodeLayout.JoinStep | fpga/ucode/ucode.js:305-321 | a semicolon after a call or an evaluation word patches that word instead of adding one |
| UCodeLayout.RepeatStep | fpga/ucode/ucode.js:243-249 | REPEAT jumps to the start that WHILE saved in its placeholder, and patches the placeholder to the end |
| UCodeLayout.CountStep | fpga/ucode/ucode.js:274-284 | AGAIN of a counted loop jumps from its start to its test, and from its test into its body |
| UCodeLayout.DictionaryAgrees | fpga/ucode/ucode.js:173-220 | in a legal program every name stands for a call of its definition |
| UCodeCompiler.Compiler.CompileWord | fpga/ucode/ucode.js:336-371 | one token does to the compiler's state what the transition function says, or is an error exactly if that is |
| UCodeCompiler.Compiler.CompileAll | fpga/ucode/ucode.js:374-383 | tokens are compiled one after the other up to the first error |
| UCodeCompiler.Compiler.Return | fpga/ucode/ucode.js:305-321 | the loop over the control stack finds an open counted loop exactly if there is one |
| UCodeCorrect.SimBody | fpga/ucode/ucode_sim.js:300-414 | from the code of any body, the machine goes where the meaning of the body says, with the state it says, fails if it fails, and keeps running if it does |
| UCodeCorrect.SimFused | fpga/ucode/ucode.js:305-321 | a word joined by a semicolon returns as the word followed by EXIT would |
| UCodeCorrect.SimTailCall | fpga/ucode/ucode.js:312-314 | a final call turned into a jump does what the call and EXIT would, for every callee |
| UCodeCorrect.SimCall | fpga/ucode/ucode_sim.js:329-336 | a call returns to the word after it with the caller's entries on the return stack as they were |
| UCodeCorrect.SimWhile | fpga/ucode/ucode.js:236-249 | a BEGIN WHILE REPEAT loop is simulated in both directions, iteration by iteration |
| UCodeCorrect.SimCount | fpga/ucode/ucode_sim.js:345-356 | a counted loop from its test on is simulated |
| UCodeCorrect.SimFrom | fpga/ucode/ucode_sim.js:300-414 | a definition that does not return runs on into the next, and the end of the program halts |
| UCodeCorrect.ImageLinked | fpga/ucode/ucode.js:75-77 | every definition's code is in the image where it starts, clear of the data cells |
| UCodeWords.StackWordSteps | fpga/ucode/ucode.js:106-172 | a step at a word that works on the data stack does what the word's stack comment documents, alone or with a joined EXIT |
| UCodeWords.UnaryComputes | fpga/ucode/ucode_sim.js:189-237 | the arithmetic unit computes what the unary words are documented to compute, on all 16-bit words |
| UCodeWords.ConstantComputes | fpga/ucode/ucode_sim.js:189-237 | the constant words are computed from their operand selectors |
| UCodeWords.MemoryWordSteps | fpga/ucode/ucode_sim.js:239-298 | fetching and storing words access the range they name and pop what they document |
| UCodeMemory.QuadReadsBack | fpga/ucode/ucode_sim.js:277-297 | fetching a field of a quad gives what was last stored in the same field of the same quad in the same bank, and is not changed by any other store |
| UCodeMemory.QuadUnwritten | fpga/ucode/ucode_sim.js:277-297 | fields that have not been written read as 0xDEAD, and addresses outside of both banks as zero |
| UCodeMemory.FieldsApart | fpga/ucode/ucode_sim.js:277-297 | T and X of the same quad are different cells: an example |
| UCodeMemory.ColourReadsBack | fpga/ucode/ucode_sim.js:253-259 | colour markers are kept by the lower twelve bits of their addresses, and fetched as they were last stored there |
| UCodeMemory.ProgramReadsBack | fpga/ucode/ucode_sim.js:243-249 | a word stored in program memory is fetched again by any address with the same lower twelve bits, and other words are as before |
| UCodeMemory.DeviceStored | fpga/ucode/ucode_sim.js:260-276 | what is stored in a register goes to its device with the register number, in order; without such a device the processor halts |
| UCodeMemory.DeviceFetched | fpga/ucode/ucode_sim.js:260-276 | what is fetched from a register is the next word that comes in; without such a device the processor halts |
| UCodeMemory.ResetSteps | fpga/ucode/ucode_sim.js:325-328 | RESET empties both stacks |
| UCodeWords.CountSteps | fpga/ucode/ucode_sim.js:345-356 | a counting jump tests, counts and jumps, or drops the counter |
| UCodeWords.ExitEncodes | fpga/ucode/ucode.js:308-311 | the bits of EXIT leave the other fields of an instruction alone |
| UCodeCpu.Machine.Step | fpga/ucode/ucode_sim.js:300-414 | one step of the simulator is the step function, with an error exactly if that halts |
| UCodeCpu.Stack.Do | fpga/ucode/ucode_sim.js:84-113 | every stack effect on twelve cells, in place |
| UCodeCpu.RunOn | fpga/ucode/ucode_sim.js:419-426 | running n and then k steps is running n + k steps |
| UCodeImage.ImageRoundTrip | fpga/ucode/ucode.js:472-591 | reading what has been printed gives the program back, for any words, any names without line breaks and any mark, through the header and the comments |
| UCodeImage.ParseMemh | fpga/ucode/ucode.js:510-591 | the loops over the character stream collect exactly the hexadecimal numbers outside comments |
| UCodeImage.ParseHex | fpga/ucode/ucode.js:541-580 | one number is found after any comments and white space |
| UCodeImage.PrintAndParse | fpga/ucode/ucode.js:472-591 | printing and parsing, as one method |
| UCodeImage.FourDigits | lib/hex.js:6-15 | a 16-bit number is printed in four digits, most significant first |
| UCodeImage.HexDigits | fpga/ucode/ucode.js:525-539 | the digits are exactly these 22 characters, with these values |
| UCodeImage.CaseDoesNotMatter | fpga/ucode/ucode.js:525-591 | any text means the same with its digits in upper case |
| UCodeImage.ShiftedWraps | fpga/ucode/ucode.js:541-580 | numbers are kept modulo 2 to the 32nd, with a sign |
| UCodeDisasm.DisassemblyTells | fpga/ucode/ucode.js:399-451 | without names, words that have no EXIT joined to them are told apart by what is shown of them |
| UCodeDisasm.NamedWord | fpga/ucode/ucode.js:440-443 | a word is shown by the first of its names, with the EXIT that has been joined to it |
| UCodeDisasm.ExitLost | fpga/ucode/ucode.js:408-449 | a word that has no name does not show the EXIT that has been joined to it; with a name it does |
| UCodeDisasm.LineTells | fpga/ucode/ucode.js:489-506 | a printed line is marked exactly if it should be, begins with the code, the address and the disassembled word, and ends with the names of the address |
| ParseqSafety.RunGood | lib/parseq.js:68-388 | the invariant of every run of every factory under adversarial scheduling |
| ParseqSafety.CalledOnce | lib/parseq.js:290-387 | the callback is called at most once, never after it is forgotten, and rightly: a success carries the values of all required requestors, a failure has a failed or late one |
| ParseqSafety.Throttled | lib/parseq.js:208-224 | at most as many requestors as the throttle allows are in flight |
| ParseqLimits.FullyUsed | lib/parseq.js:208-224 | while requestors are left to start, as many as the throttle allows are in flight or about to start; without a throttle, as many as there are |
| ParseqLimits.RunTimely | lib/parseq.js:92-103 | while a run goes on, its timer is on exactly until the limit is over, and from then on it is a parallel with the false option that waits for required requestors only |
| ParseqLimits.LimitEnds | lib/parseq.js:351-382 | when the limit is over, a race has ended, and so has a parallel unless its option is false; with that option it goes on only while some required requestor has not replied |
| ParseqLimits.LimitSpares | lib/parseq.js:351-382 | a parallel with the false option ends only when all required requestors have succeeded, one of them has failed, or the caller cancels, whatever the limit |
| ParseqLimits.LimitCallsBack | lib/parseq.js:351-382 | if all required requestors have succeeded when the limit is over, the results that there are then are called back |
| ParseqLimits.WhyEnded | lib/parseq.js:310-387 | a parallel calls back with results when it has all of them, or the limit is over, or it has no time option; the reason of a failure is the time limit's or that of the last reply, by which the last of a race or a required requestor has failed; a race is won by the last reply |
| ParseqSafety.Finishes | lib/parseq.js:119-191 | when nothing is scheduled or in flight, the callback has been called exactly once or the caller has cancelled |
| ParseqCancel.NeverAfterCancel | lib/parseq.js:92-117 | whatever happens after the caller has cancelled, the callback is not called any more |
| ParseqCancel.NeverAfterNestedCancel | lib/parseq.js:92-189 | nor when the caller cancels while a requestor is being called, before, between or after replies and after others that have thrown, if that requestor returns |
| ParseqSafety.ValuesFlow | lib/parseq.js:167-175 | a sequence hands every value to the next requestor; the other factories start every requestor with the initial value |
| ParseqSafety.FallbackInOrder | lib/parseq.js:554-560 | a fallback starts a requestor only after all before it have failed |
| ParseqUnfinished.UnfinishedStopped | lib/parseq.js:105-116 | however a run ends, and whatever requestors do, exactly those are told to cancel that have handed over a cancel function and have not called back since, and none is told before |
| ParseqReplies.RepliesRecorded | lib/parseq.js:150-165 | in every run the results are exactly the first replies of the requestors that have replied while the run went on |
| ParseqSafety.ParallelSettles | lib/parseq.js:310-350 | the action of a parallel records the value and decides the run exactly when it should |
| ParseqSafety.RaceSettles | lib/parseq.js:519-536 | the action of a race decides the run at the first success or the last failure |
| ParseqCancel.ThrowAfterEnd | lib/parseq.js:185-189 | a requestor that throws when the run has ended while it was being called, by whatever replies or cancel, whether it had replied or not: if nothing had been called back the callback is called after the caller's cancel, and otherwise there is an exception, exactly if the action, which has no number for a requestor that had replied, decides |
| ParseqCancel.ThrowAfterCancel | lib/parseq.js:185-189 | in particular when the caller has cancelled while it was being called, before, between or after replies |
| ParseqCancel.RunSteady | lib/parseq.js:92-191 | in every run, of whatever requestors: while it goes on nothing has been called back, and when it has ended no timer is left and the callback has been called or the caller has cancelled |
| ParseqCancel.NoCallbackAfterReply | lib/parseq.js:171-186 | a required requestor that replies, and throws after the caller's cancel, is no longer taken for a required one, and causes no callback |
| ParseqCancel.CallbackAfterCancel | lib/parseq.js:185-189 | the smallest run in which a callback follows the caller's cancel |
| ParseqSafety.Drive | lib/parseq.js:290-387 | the closures, driven through any run of well-behaved requestors, call back at most once |
| Parseq.FactoriesMake | lib/parseq.js:232-289 | what the four factories make: the numbers of requestors, the race and its exception, the throttle, the limit and its option as given; it meets the conditions of the results about runs, and sequence and fallback run one requestor at a time |
| Parseq.Requestor.StartRequestor | lib/parseq.js:119-191 | starting requestors, with those that throw, before or after they have replied, as the transition function says |
| Parseq.Requestor.Receive | lib/parseq.js:143-176 | a reply counts once and only while the run goes on |
| Parseq.Requestor.ParallelAct | lib/parseq.js:310-350 | the action of a parallel on the closure variables |
| Parseq.Requestor.TimeLimit | lib/parseq.js:351-382 | the time limit, with its three time options, and that of a race |
| Parseq.Requestor.Take | lib/parseq.js:68-229 | every event changes the closure variables as the transition function says |
| EditorText.SortingSorts | apps/playground/ed.js:275-279 | sorting gives an ascending permutation |
| EditorOrder.RankSorts | apps/playground/ed.js:275-279 | sorting puts the i-th alteration behind exactly those that precede it or are its equals listed before it |
| EditorInverse.HunksAgreeExactly | apps/playground/ed.js:478-492 | for disjoint alterations in range, in any order: every hunk of the inverse is where the inverse of the sorted patch has it, exactly if what is listed before each alteration makes the text as much longer as what is sorted before it |
| EditorInverse.InverseAgreesExactly | apps/playground/ed.js:478-492 | and the inverse is also applied in the right order exactly if no two deletions with nothing left between them are listed in the wrong order |
| EditorInverse.UndoableRestores | apps/playground/ed.js:478-508 | under that condition the inverse applies cleanly to the altered text and restores the original |
| EditorInverse.AscendingUndoable | apps/playground/ed.js:478-508 | alterations in ascending order meet it |
| EditorTelling.UndoneExactly | apps/playground/ed.js:478-492 | where kept, removed and inserted characters can be told apart and something is kept between any two alterations, the inverse restores the text, with no hunk at a negative position, exactly under that condition |
| EditorTelling.UndoneByCounting | apps/playground/ed.js:459-476 | a hunk at a negative position, which the source counts from the end, may be applied where it belongs after all: an example |
| EditorTelling.ScriptUnique | apps/playground/ed.js:478-492 | two texts determine the hunks that turn the one into the other, if there are no more of them than needed and their characters can be told apart |
| EditorTelling.InvertNeedsOrder | apps/playground/ed.js:478-492 | out of order, an edit is applied but its inverse does not restore the text: an example |
| EditorTelling.OutOfOrderUndone | apps/playground/ed.js:478-492 | an edit out of order that can be undone: an example |
| EditorTelling.UndoneByChance | apps/playground/ed.js:478-492 | where characters cannot be told apart, misplaced hunks may restore the text: an example |
| EditorTelling.TiesMatter | apps/playground/ed.js:478-492 | every hunk of the inverse in its place, yet the text is not restored: an example |
| EditorInverse.EditReverses | apps/playground/ed.js:449-492 | the patch of an edit goes both ways, without a conflict, exactly if the edit can be undone |
| EditorText.RudimentaryDiff | apps/playground/ed.js:510-539 | no difference exactly for equal texts; otherwise one alteration that turns the first text into the second and spares the longest common prefix and then suffix |
| EditorElement.Element.Alter | apps/playground/ed.js:337-407 | altering text nodes in place is altering their concatenation, whatever the nodes, and is refused exactly if an alteration is out of range |
| EditorElement.AlterNode | apps/playground/ed.js:356-385 | the part of the alterations that begins in a node is applied to the node, and the part that reaches further is left over |
| EditorHistory.HistoryReplays | apps/playground/ed.js:862-886 | every revision's text is that of the patches up to it applied to the base text, without a conflict |
| EditorHistory.HistoryRewinds | apps/playground/ed.js:917-936 | every revision can be rewound to every earlier one, without a conflict |
| EditorHistory.Editor.Commit | apps/playground/ed.js:862-886 | a revision is added if text or cursor has changed; a change of the text discards what could be redone, a change of the cursor keeps it |
| EditorHistory.Editor.Edit | apps/playground/ed.js:888-900 | an edit, its alterations listed in any order in which it can be undone, alters the element as it would the text, and becomes the last revision |
| EditorHistory.Editor.Input | apps/playground/ed.js:1066-1079 | what the user has typed becomes the last revision, whose patch turns the known text into the new one |
| EditorHistory.Editor.SelectionChange | apps/playground/ed.js:1116-1118 | moving the cursor keeps what could be redone |
| EditorHistory.Editor.Checkout | apps/playground/ed.js:917-958 | checking out any revision meets no conflict and lands on the target, or on the base text or the last revision if the target is beyond them, with the text that revision had |
| EditorHistory.Editor.EditUndoRedo | apps/playground/ed.js:979-998 | undoing an edit restores the text, and redoing brings it back |
| EditorHistory.Editor.TextIsReplayed | apps/playground/ed.js:862-958 | the text is always that of patches 0 to at applied to the base text |
| OedValue.RoundTripExactly | lib/oed.js:607-661 | what either implementation encodes, either decodes to the same value, consuming exactly the encoding, if and only if no text or key in it begins with a byte order mark |
| OedValue.MarkLost | lib/oed.js:948-955 | a text that is one byte order mark: refused by the one decoder, read as the empty text by the other |
| OedValue.ValueRoundTrip | lib/oed.js:1115-1163 | whichever encodes and whichever decodes, the decoder reads what it can see of the value and nothing after it |
| OedValue.SeeWeight | lib/oed.js:948-955 | a value with a marked text is refused by one decoder and loses characters in the other |
| OedValue.SeeClean | lib/oed_lite.js:325-329 | a value without marked texts, with distinct keys, is seen as it is |
| Oed.IntegerRoundTrip | lib/oed.js:432-450 | integers in the safe range round-trip in both forms of the size field, before any octets |
| Oed.SizeFits | lib/oed.js:374-430 | either size field announces exactly the octets that follow |
| Oed.SignificantExact | lib/oed.js:400-430 | the size in bits is exact: the magnitude is below that power of two, and not below the one before |
| Oed.Utf8RoundTrip | lib/oed.js:468-483 | the UTF-8 of any text decodes to it |
| Oed.Utf8Strict | lib/oed.js:948-952 | octets that are not the UTF-8 of a text, in shortest forms of scalar values, are malformed |
| OedStrict.ValueExtends | lib/oed.js:1115-1163 | a value that is complete stays what it is, whatever octets follow |
| OedStrict.SizeAnnounced | lib/oed.js:1038-1102 | the elements of an array and the entries of an object that is decoded have exactly the size and the number that are announced, and no key twice |
| OedStrict.TextAnnounced | lib/oed.js:935-956 | a text that is decoded has as many characters as announced, where that is checked, and its octets are its UTF-8, but for a mark |
| OedStrict.LastStays | lib/oed.js:1103-1112 | of several values of a property the last one stays |
| OedStrict.KeyCharacters | lib/oed.js:728-737 | the characters of a key that is not a text are the octets that it takes in the one decoder, and those of a blob in the other, which refuses other keys |
| OedStrict.ShortEncodings | lib/oed.js:224-241 | the octets of the values that have no parts and of the empty ones |
| OedStrict.ThousandEncoded | lib/oed.js:400-430 | the octets of 1000 and -1000, in both implementations: an example |
| OedStrict.ObjectEncoded | lib/oed.js:630-661 | the octets of an object with a key of one character in two octets: an example |
| OedFull.Decoder.ConsumeValue | lib/oed.js:1115-1163 | the decoder consumes exactly one value's octets, or fails exactly if there is none |
| OedFull.Decoder.ConsumeElements | lib/oed.js:1050-1055 | the loop over the elements of an array |
| OedFull.Decoder.ConsumeEntries | lib/oed.js:1081-1092 | the loop over the entries of an object, whose keys may be any value |
| OedFull.EncodeIntegerFields | lib/oed.js:400-430 | the digit loop gives the octets of the magnitude, least significant first, and the size in bits |
| OedFull.Decode | lib/oed.js:1165-1183 | one value and nothing else, or one value at a position to seek |
| OedFull.DecodeBack | lib/oed.js:755-1183 | what either has encoded is decoded, anywhere in some octets, exactly if it has no marked text |
| OedLite.WriteValue | lib/oed_lite.js:218-229 | the encoders fill their arrays with exactly the encoding |
| OedLite.WriteInteger | lib/oed_lite.js:72-94 | integers by the number of their octets, with shifts up to four and a loop beyond |
| OedLite.Assemble | lib/oed_lite.js:166-182 | a prefix, two fields and the parts are written one after the other and fill the array |
| OedLite.ReadValue | lib/oed_lite.js:472-498 | whatever the octets at an offset mean is found, with the offset after it |
| OedLite.ReadNumber | lib/oed_lite.js:248-305 | integers at an offset, with the digit loop |
| OedLite.ReadBack | lib/oed_lite.js:472-498 | what either has encoded is read, and is the same value exactly if it has no marked text |
| WebSocket.ChunksDoNotMatter | apps/peer_chat/websocketify.js:123-261 | however bytes are cut into chunks, they have the effects that they have at once and leave the same state |
| WebSocket.Delivered | apps/peer_chat/websocketify.js:204-251 | whatever a client sends, with whatever masks and cuts, every message is delivered once and intact though pings come between its parts, and every ping is answered in its place |
| WebSocket.ClientFrameFound | apps/peer_chat/websocketify.js:153-202 | a masked frame with any length field is parsed to its fin bit, opcode and payload, and what follows is left |
| WebSocket.Unmasked | apps/peer_chat/websocketify.js:190-202 | every byte of the payload of a frame is the exclusive or of the byte that has arrived and that of the mask whose turn it is |
| WebSocket.ClientMasks | apps/peer_chat/websocketify.js:190-202 | a client's frame ends with the mask and the payload, masked in the same way |
| WebSocket.HelloUnmasked | apps/peer_chat/websocketify.js:153-202 | the masked greeting of section 5.7 of RFC 6455 is found: an example |
| Bits.BitwiseBits | apps/peer_chat/websocketify.js:190-202 | every bit of a bitwise operation's result is the operation's on the bits of its operands |
| WebSocket.ServerFrameReads | apps/peer_chat/websocketify.js:8-40 | a server frame has the fin bit, the opcode, no mask and the payload, with the length in its shortest form of 7, 16 or 64 bits |
| WebSocket.LongLengths | apps/peer_chat/websocketify.js:8-40 | the length fields of 256 and 65536, with the most significant byte first: an example |
| WebSocket.ParseMonotone | apps/peer_chat/websocketify.js:177-183 | a complete frame stays what it is when more bytes arrive |
| WebSocketConnection.CutsDoNotMatter | apps/peer_chat/websocketify.js:246-261 | for a socket that emits nothing after it is destroyed, the cuts of any bytes do not matter if and only if no complete frame in them after a closing one ends a message, is a ping or closes, or a continuation of nothing comes before it |
| WebSocketConnection.ClientCutsDoNotMatter | apps/peer_chat/websocketify.js:246-261 | the same of the frames that a client sends, with any masks, and a part of another one |
| WebSocketConnection.FramesFound | apps/peer_chat/websocketify.js:153-202 | the frames that are sent are the frames that are found, whatever the masks and whatever follows |
| WebSocketConnection.PingAfterClose | apps/peer_chat/websocketify.js:246-261 | a ping after a close is answered if it comes in the same chunk and not if it comes in the next |
| WebSocketConnection.Connection.TakeFrame | apps/peer_chat/websocketify.js:153-202 | a frame is taken out of the buffer exactly if it is complete |
| WebSocketConnection.Connection.ConsumeBuffer | apps/peer_chat/websocketify.js:123-256 | all complete frames are consumed and dispatched, up to an exception |
| WebSocketConnection.Connection.OnData | apps/peer_chat/websocketify.js:258-261 | a chunk is appended and what is complete is consumed |

## Left out

Humus

- Closures, function calls, blocks as values, BECOME, CREATE, SELF and NEW: their code jumps into `lib/hum.asm`. What closure conversion needs of them, the compacted environments, is modelled.
- The procedure `$eq.proc` is taken by its stack effect as deep equality; list constants, debug records, error messages, lexing and parsing are not part of this model.
- HumusCodegen.Codegen.Generate: the environment holds no closure markers, so that an identifier never re-creates a closure.
- HumusCompact.CompactKeepsLookup: closure markers are on the spine of tails only, as the compiler puts them.
- Labels are numbers rather than hinted names, and an instruction that underflows the stack is stuck.

uCode

- UCodeCorrect.SimBody: nothing is said of a program that strays: stores into code, reads outside the program, takes the return address from the return stack, overfills it beyond twelve entries, runs into data, or resets the stacks.
- UCodeProgram.ProgramFollows: programs of fewer than 4096 words with at least one word, and stacks of twelve words; entries that were never written are undefined in the source and zero after RESET here.
- UCodeLayout.BodyCompiles: SKZ stands before one word, and that word is not one that a semicolon joins.
- UCodeSource: names are distinct from the built-in words; text is already cut into tokens, without comments; warnings about unused words, usage statistics, tracing and the instruction counter are omitted.
- Devices answer reads with given words and record writes; which devices there are is given. The deprecated drop flag only warns in the source.
- UCodeImage.ImageRoundTrip: characters are code points.

Parseq

- ParseqSafety.RunGood: requestors that throw have not called back and have had no part in ending the run; user callbacks do not throw, cancel functions do not call back synchronously, and a factory is called once, because its time option is shared between calls.
- `parallel_object`, which renames the results of a parallel, and the argument checks that throw.
- Values are integers, and reasons only tell a given one from a timeout; timers fire in any order and at any time.

Editor

- EditorInverse.UndoableRestores: the converse is claimed only where characters can be told apart, since elsewhere hunks in the wrong place may restore the text by chance (EditorTelling.UndoneByChance).
- EditorTelling.UndoneExactly: a hunk at a negative position, which the source counts from the end of the text, is taken not to apply.
- EditorHistory.Editor.Edit: an edit out of range, which throws half way, is not modelled, nor one that cannot be undone, nor edits during composition, when the element and the known text differ.
- The document tree, cursors across edits, the time-based skimming of revisions, restoring a saved state, the clipboard and highlighting; an element is the list of its text nodes.
- EditorHistory.Editor.Checkout: the patches are taken one by one rather than listed first.

OED

- Decimals, rationals, fractional numbers, extension blobs, memoized strings, and the functions pack and unpack; integers are exact.
- OedLite.ReadValue: what comes of octets that are cut off or malformed, which is not refused there but yields shortened strings, replacement characters or no number, is not modelled.
- Oed.IntegerRoundTrip: integers are in the safe range, and the number of significant bits is exact.
- Strings are sequences of Unicode scalar values. Keys that are array indices, which are enumerated first, and the key `__proto__` are not modelled.
- Error messages and the path they mention.

WebSocket

- The handshake, the close event, text decoding of messages, and sending; the mask bit of client frames is not checked by the source either.

Dead code

- Parsing, the analysis of definitions and free identifiers and of effects, and the commenting out of what is not live.

Everything else

- The uFork virtual machine, the loader, devices, transports, user interfaces, the Scheme compiler, the disassembler and the directory grammar.
