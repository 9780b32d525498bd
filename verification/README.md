# A verified model of the Sleep runtime

These modules model the core of SLP, an implementation of the Sleep language: the
single-pass compiler and the instructions of its stack machine, the expression parser and
the formatter, coroutines, continuations and exception handlers, the ordered hash with its
cache policies, the mark-sweep collector with the table of interned strings, array views,
`foreach` with `remove()`, the `hasmatch` states, scalar cells and the serialised form of
functions. `dafny verify dfyconfig.toml` checks everything.

Code that works step by step in the source is modelled by methods and classes over arrays,
sequences, maps or linked objects. Each such method is proved against a function of the old
state, and the properties are lemmas about those functions.

## How the parts fit together

* **Compiler and machine.** `Codegen` says which bytes and constants each construct
  compiles to; `SinglePass` is the compiler that emits bytes and patches jumps afterwards,
  and is proved to produce exactly those bytes. `Machine` decodes and executes bytes.
  `Evaluator` evaluates the syntax tree directly: ordinary operands from right to left,
  compound assignment and predicate bridges from left to right. `ExprSimulation` and
  `StmtSimulation` run compiled code against the evaluator, and `CompilerCorrect` joins
  them: the machine returns, fails or runs forever exactly when the evaluator finishes,
  stops on an error or never finishes. `StackHeights` shows that compiled code has one
  operand height per instruction on all paths. `Arithmetic` and `Meaning` say what the
  instructions compute in terms of integers, bits and names only, and in which order small
  programs do things. Floating point, number formatting, calls and
  generators are functions of the environment, and every theorem holds for all of them.
* **Parser and formatter.** `PrattParser` and `ParserMachine` are the parser, `Printer` and
  `FormatNode` the formatter. `Readings` are trees that keep their parentheses: the parser
  finds a reading of its input and there is only one (`Unambiguous`). `Grammar` says which
  operators bind tighter, without the precedence tables. `RoundTrip` says for
  every expression whether it comes back from printing and parsing. The source's two
  precedence tables disagree on `<=`, `>=`, `cmp` and the ordering words; the model has both
  tables as they are, and the theorem is an equivalence.
* **Control state.** `Control` has stack, frames and handlers as a slice that can be cut off
  and placed on another stack; `ControlSteps`, `Coroutines` and `ControlRuns` are the
  instructions and their runs. `Activations` shows that a run inside an activation does not
  depend on where it lies; `Calls`, `TryRegions` and `Continuations` say what a call, a try
  and an invoked continuation leave untouched and where control comes back.
  `ControlMachine` is the machine that changes its fields in place.
* **Hashes.** `HashSlots`, `HashOrder` and `Ranking` are the theory of the table,
  `HashTable.Hash` the table, `HashCache` the cache it becomes with a removal policy,
  `HashForeach` the loop over its entries.
* **Heap.** `Objects`, `Tracing`, `ObjectList` and `InternSlots` are the parts of
  `Collector.Heap`; `References` says, field by field, what it means to be in use.
* `ArrayViews` and `ArrayStore`, `Foreach`, `HasMatch`, `ScalarCells`, `Bytecode` and
  `BytecodeStream` stand on their own.

## Where the source falls short of the obvious property

Each of these has an exact condition, proved for all inputs, or a lemma with the input:

* `named_variable` takes a constant's index modulo 2^16 without an error: a variable keeps
  its name exactly when its constant has an index below 2^16 (`Codegen.NameOperandExact`,
  `Codegen.NameLost`).
* Longs compare as doubles, so two different longs that round to the same double are equal
  (`Arithmetic.LongComparisons`, `Arithmetic.LongsConfused`).
* Printing loses `($a <= $b) + $c`, `- -$a` and `++$a` (`RoundTrip.LessEqualLost`,
  `RoundTrip.SignsAndStepsLost`); `RoundTrip.PrintParse` is the exact condition.
* Changing a stale view makes it count as valid again: `ArrayViews.InsertSound`,
  `ArrayViews.RemoveSound` and `ArrayViews.SetSound` say exactly when the heap stays sound
  all the same, and `ArrayViews.StaleViewRevived` has a view for which it does not. Setting
  behind the end of a view needs null in the skipped slots of its store.
* A reloaded function keeps its constants' indices exactly when no two constants other than
  strings are equal, and its arity and upvalue count exactly when they fit a byte
  (`Bytecode.ConstantsKeepIndices`, `Bytecode.CountsKept`).
* `remove()` hides changes from a `foreach`: changes in front of it, and in the run for the
  first element also those behind it (`Foreach.ChangeNoticed`,
  `Foreach.RemoveThenChangeUnnoticed`).
* A `foreach` over a hash passes over null values but visits the last entry even when its
  value is null (`HashForeach.VisitsAre`).
* The activation a continuation resumes goes back to the invoker when it returns, but an
  inline return or a yield ignores the invoker (`Continuations.InvokerRegained`,
  `Continuations.InvokerLost`).

## Model
| member | source | states |
|---|---|---|
| Instructions.DecodeEncode | src/slp_chunk.c:79-86 | Decoding an instruction wherever its bytes stand gives back the instruction that was encoded, big-endian operands included. |
| Codegen.ConstantKept | src/slp_chunk.c:65-77 | Adding a literal to the pool puts it, bit for bit, at the index that is returned: the pool's equality merges no two different literals. |
| Codegen.DoubleEquality | src/slp_chunk.c:10-33 | Double constants are the same if they have the same bits or are the two zeros, and a pattern that is not a number is the same as nothing, itself included. |
| Codegen.NameOperandExact | src/slp_compiler.c:1456-1504 | The 16-bit operand named_variable emits leads back to the variable's name if and only if the constant's index is below 2^16. |
| Codegen.NameLost | src/slp_compiler.c:1456-1504 | Behind 2^16 integer literals the next variable is accessed through constant 0, the literal 0. |
| SinglePass.Chunk.Write | src/slp_chunk.c:53-63 | Appends one byte; nothing else in the chunk changes. |
| SinglePass.Chunk.AddConstant | src/slp_chunk.c:65-77 | The loop returns the first equal entry, or appends the constant. |
| SinglePass.Compiler.EmitByte | src/slp_compiler.c:10-12 | Appends one byte of code. |
| SinglePass.Compiler.EmitShort | src/slp_compiler.c:14-16 | Appends the high and then the low byte of a 16-bit operand. |
| SinglePass.Compiler.EmitJump | src/slp_compiler.c:18-23 | Appends the opcode and two bytes to be patched, and returns where they are. |
| SinglePass.Compiler.PatchJump | src/slp_compiler.c:27-36 | Writes the distance from behind the operand to the end of the code into the two bytes and changes no other; past 16 bits it reports an error and leaves the code as it is. |
| SinglePass.Compiler.EmitLoop | src/slp_compiler.c:38-49 | Appends LOOP with the distance back to the start; a distance past 15 bits is an error and only the opcode is there. |
| SinglePass.Compiler.MakeConstant | src/slp_compiler.c:51-58 | Returns the pool index of the constant, 0 and an error past 16 bits. |
| SinglePass.Compiler.EmitConstant | src/slp_compiler.c:60-63 | Appends PUSH_CONST with the checked index. |
| SinglePass.Compiler.NamedVariable | src/slp_compiler.c:1456-1504 | Emits the slot access for a name the function owns, otherwise the global access with the unchecked index. |
| SinglePass.Compiler.ReferenceVariable | src/slp_compiler.c:1506-1531 | Emits the by-reference access of an argument, with a checked index. |
| SinglePass.Compiler.CompileBinop | src/slp_compiler.c:511-584 | Emits the right operand, the left operand, SWAP and the operator. |
| SinglePass.Compiler.CompileLogical | src/slp_compiler.c:511-584 | Emits `&&` and `||` with a jump over the right operand patched to its end. |
| SinglePass.Compiler.CompileUnary | src/slp_compiler.c:585-629 | Emits the operand and NOT or NEGATE. |
| SinglePass.Compiler.CompileAssign | src/slp_compiler.c:630-681 | Emits the value and the store. |
| SinglePass.Compiler.CompileOpAssign | src/slp_compiler.c:630-681 | Emits load, value, operator and store: the left operand first. |
| SinglePass.Compiler.CompileBump | src/slp_compiler.c:585-629 | Emits load, INCREMENT or DECREMENT and store. |
| SinglePass.Compiler.CompileIff | src/slp_compiler.c:337-368 | Emits condition, both branches and their two patched jumps; an arithmetic condition is emitted as false. |
| SinglePass.Compiler.CompileCall | src/slp_compiler.c:1005-1058 | Emits target, arguments from the last to the first, REVERSE when there are two or more, and CALL_NAMED; more than 255 arguments are an error. |
| SinglePass.Compiler.CompileIfStmt | src/slp_compiler.c:809-821 | Emits condition, branches and both jumps of an if, patched to their targets. |
| SinglePass.Compiler.CompileWhile | src/slp_compiler.c:822-856 | Emits condition, exit jump, body, LOOP back to the condition, and patches the exit. |
| SinglePass.Compiler.CompileFor | src/slp_compiler.c:857-928 | Emits initialisers, condition, body, increments and LOOP of a for with a condition. |
| SinglePass.Compiler.CompileForever | src/slp_compiler.c:857-928 | Emits a for without a condition: no exit jump at all. |
| SinglePass.Compiler.CompileForeach | src/slp_compiler.c:929-1004 | Emits generator, position 0, FOREACH_NEXT with its patched exit, the bindings, the body, LOOP and two POPs. |
| SinglePass.CompileFunction | src/slp_compiler.c:1537-1565 | A whole function compiles if and only if the code function reports no error, and then to exactly its bytes and constants, ending in the implicit return. |
| Machine.RunCompose | src/slp_vm.c:4287-4296 | Running a + b instructions is running a and then b. |
| Machine.StepConfig | src/slp_vm.c:4296-4942 | One turn of the loop on a placed instruction is that instruction's effect on operands, slots and scopes, with the jump taken from behind the instruction. |
| Arithmetic.RingOperations | src/slp_vm.c:4402-4470 | `+`, `-` and `*` on whole operands push the int, or the long if one operand is long, congruent to the exact result modulo 2^32 or 2^64. |
| Arithmetic.Division | src/slp_vm.c:4471-4554 | `/` and `%` push q and r with i = j q + r, a remainder smaller than the divisor and of the dividend's sign, both wrapped; division by zero stops the machine. |
| Arithmetic.UnaryOperations | src/slp_vm.c:4570-4592 | Unary minus, increment and decrement push the wrapped exact result. |
| Arithmetic.DoubleOperations | src/slp_vm.c:4402-4470 | With a double among the operands the result is a double. |
| Arithmetic.Comparisons | src/slp_vm.c:4702-4761 | Ints, booleans and null compare as integers under all five ordering operators. |
| Arithmetic.Equality | src/slp_vm.c:4702-4717 | Two ints are equal by their number; a value that is not a number equals only itself. |
| Arithmetic.LongComparisons | src/slp_vm.c:4702-4761 | Longs compare as doubles: with conversions as IEEE 754 says, every comparison is that of the integers if and only if the two are equal or round to different doubles. |
| Arithmetic.LongsConfused | src/slp_vm.c:4702-4709 | 2^53 and 2^53 + 1 are equal. |
| Arithmetic.RoundedMonotone | src/slp_vm.c:139-154 | Rounding to the nearest double keeps the order of integers and is exact below 2^53. |
| Arithmetic.TextOperations | src/slp_vm.c:4593-4701 | Concatenation puts the texts one behind the other; repetition gives count copies, the empty text for a count below one, and an error from 2^32 characters on. |
| Arithmetic.Truth | src/slp_value.c:25-43 | `!`, JUMP_IF_FALSE, AND and OR all take exactly null, false, and the int, long and double zeros for false. |
| Arithmetic.Shifts | src/slp_vm.c:4826-4853 | Shifts multiply by the power of two, wrapped, or divide by it rounding down; the left operand alone decides the width the shift is taken modulo. |
| Arithmetic.BitOperations | src/slp_vm.c:4783-4815 | Each bit of `&`, `|` and `^` is the operation on the bits of the operands in two's complement. |
| Meaning.ScopedAccess | src/slp_vm.c:2209-2294 | Global access reads and writes the innermost scope that has the name, else the globals; an unknown scalar becomes a global null when it is read. |
| Meaning.ReadWritten | src/slp_vm.c:2270-2294 | A value written to a name is read back, and other names keep theirs. |
| Meaning.ParametersRead | src/slp_compiler.c:1456-1504 | In a function just called, the code for `$0` loads the message, for `$1` to `$9` the arguments or null, and for `@_` the array of all arguments. |
| Meaning.SlotsOfNames | src/slp_compiler.c:1506-1531 | Parameters are passed on by reference under the names of their slots. |
| Meaning.IffConditions | src/slp_compiler.c:258-283 | An `iff` evaluates a comparison as its condition and takes every other binary operator as false without evaluating it. |
| Meaning.IffDefaults | src/slp_compiler.c:337-368 | Null without a condition, 1 for a missing first and null for a missing second value. |
| Meaning.OperandOrder | src/slp_compiler.c:511-584 | `($x = v) op ($x = w)` leaves v in `$x`: the right operand comes first. |
| Meaning.PredicateOrder | src/slp_compiler.c:511-584 | A predicate bridge with the same operands finds w in `$x`: the left operand comes first. |
| Meaning.CompoundOrder | src/slp_compiler.c:630-681 | `$x op= ($x = w)` combines the old value of `$x` with w. |
| Meaning.ArgumentOrder | src/slp_compiler.c:1005-1058 | `f(($x = v), ($x = w))` is called with v and w in this order while `$x` is v. |
| Meaning.StepMeaning | src/slp_compiler.c:585-629 | `$x++` and `$x--` change the variable by one and give the new value. |
| Meaning.LogicMeaning | src/slp_compiler.c:511-584 | `&&` and `||` give the operand that decides and evaluate the right one only if the left one does not. |
| Meaning.ForeachMeaning | src/slp_vm.c:5815-5823 | FOREACH_NEXT leaves position, key and value, and the loop binds key and value to their variables. |
| Meaning.LoopMeaning | src/slp_compiler.c:822-928 | A loop ends when its condition is false, and otherwise runs body, increments and the loop again. |
| ExprSimulation.ExprRuns | src/slp_compiler.c:511-681 | Whenever the evaluator gives an expression a value and a store, its code runs from any operands to its own end, leaving the operands plus that value and that store; on an error the machine fails; without enough fuel it is still running after at least that many steps. |
| ExprSimulation.ShortCircuitRuns | src/slp_vm.c:4765-4782 | `&&` and `||` leave the deciding operand and skip the other one. |
| ExprSimulation.IffRuns | src/slp_compiler.c:337-368 | `iff` evaluates one branch only, 1 and null standing for missing branches. |
| ExprSimulation.CallRuns | src/slp_compiler.c:1005-1058 | A call passes its arguments in source order although they are evaluated from the last to the first. |
| StmtSimulation.StmtRuns | src/slp_compiler.c:809-1004 | A statement's code runs to its end with the evaluator's store and the operands it started with. |
| StmtSimulation.BlockRuns | src/slp_compiler.c:388-425 | The same for the statements of a block, one after the other. |
| StmtSimulation.LoopRuns | src/slp_compiler.c:822-856 | Condition, body and backward jump run exactly as often as the evaluator's loop. |
| StmtSimulation.EndlessRuns | src/slp_compiler.c:857-928 | A loop without a condition runs until its body fails, or for more steps than any given number. |
| StmtSimulation.ForeachRuns | src/slp_compiler.c:929-1004 | FOREACH_NEXT, bindings and body run once for each item the generator gives, and both operands of the loop are gone at its end. |
| CompilerCorrect.BodyFollows | src/slp_compiler.c:1537-1565 | For every amount of fuel the compiled body ends as the evaluator does, or is still running. |
| CompilerCorrect.CompiledCodeAgrees | src/slp_compiler.c:1537-1565 | The compiled body returns with a store if and only if the evaluator finishes with it, fails if and only if the evaluator stops on an error, and runs forever if and only if no amount of fuel is enough. |
| StackHeights.ExprHeights | src/slp_compiler.c:511-681 | Code of an expression has heights for its boundaries that rise by one from start to end; every instruction finds its operands and every jump lands on a boundary of the right height. |
| StackHeights.StmtHeights | src/slp_compiler.c:809-1004 | Code of a statement ends at the height it started with, on every path. |
| StackHeights.BranchSegment | src/slp_compiler.c:809-821 | Two branches of equal height join at one height. |
| StackHeights.LoopSegment | src/slp_compiler.c:822-856 | A loop's exit and its entry have the same height. |
| StackHeights.ForeachSegment | src/slp_compiler.c:929-1004 | The two operands of a foreach are on the stack on every path through it and gone behind it. |
| StackHeights.NeverReachesSlots | src/slp_vm.c:3048-3057 | In every state reachable in a compiled body the instruction pointer is on an instruction of that body, its operands lie above the frame's twelve fixed slots, and the stack below the frame is untouched. |
| StackHeights.StaticHeight | src/slp_compiler.c:809-1058 | Two runs of a compiled body that stand at the same instruction have equally many operands, whatever environments, stores and paths led there. |
| ParserMachine.Parser.ParsePrecedence | src/slp_parser.c:1148-1220 | The parser that advances an index returns the expression and leaves the tokens the parsing function does, restores its depth, and sets the error flag exactly when that function has no result. |
| ParserMachine.Parser.Grouping | src/slp_parser.c:634-690 | An expression up to the closing parenthesis; a scalar in front of an assignment becomes a tuple of one. |
| ParserMachine.Parser.InfixRule | src/slp_parser.c:159-215 | Binary and logical operators parse their right operand one level higher, assignment on its own level, steps nothing. |
| ParserMachine.ParseExpression | src/slp_parser.c:1222-1224 | A whole expression is accepted only up to the end of the input. |
| Readings.ParserFinds | src/slp_parser.c:1148-1220 | On the tokens of any well-levelled tree the parser goes on behind them with the tree's expression, given enough depth. |
| Readings.ParserReads | src/slp_parser.c:1148-1220 | Whatever the parser returns has such a tree: it accounts for exactly the tokens consumed, respects all precedences and the depth limit. |
| Grammar.TighterFirst | src/slp_parser.c:1057-1140 | Of two operators of different groups, from `||` to `**`, the tighter one takes the operand between them, on either side. |
| Grammar.LeftAssociative | src/slp_parser.c:159-215 | Operators of one group associate to the left, `**` included. |
| Grammar.AssignmentLast | src/slp_parser.c:159-215 | Assignment is looser than every operator, on both sides, and associates to the right. |
| Grammar.PrefixBinding | src/slp_parser.c:1057-1140 | A prefix binds tighter than every operator but `**`. |
| Grammar.StepBinding | src/slp_parser.c:1057-1140 | A step binds tighter than every prefix and every operator but `**`. |
| Grammar.ParenthesesDecide | src/slp_parser.c:634-690 | Parentheses decide against every pair of groups. |
| Grammar.ScalarInParentheses | src/slp_parser.c:634-690 | Around a scalar they mean nothing, except in front of an assignment, where they make a tuple. |
| Grammar.DepthLimit | src/slp_parser.c:1205-1220 | Ninety-nine nested operands are parsed, a hundred are an error. |
| Grammar.OperandParens | src/slp_ast.c:34-83 | The formatter writes an operand without parentheses if and only if its operator is in a tighter group or, on the left, in the same one. |
| Grammar.UnaryParens | src/slp_ast.c:1246-1331 | A prefix or step gets parentheses exactly beside `**` and beside operators the formatter does not know. |
| Grammar.UnaryOperandParens | src/slp_ast.c:1292-1331 | The operand of a prefix or step gets them exactly if it is an assignment or an operator looser than `**`. |
| Grammar.TablesAgree | src/slp_ast.c:34-83 | The two precedence tables agree on an operator unless it is `<=`, `>=`, `cmp` or an ordering word. |
| Unambiguous.OneReading | src/slp_parser.c:1148-1220 | Tokens and expression determine the parenthesised tree. |
| FormatNode.Buffer.FormatNode | src/slp_ast.c:1246-1331 | Appends to the buffer exactly the pieces of the expression, parentheses decided by the node precedences. |
| FormatNode.TextReadsAs | src/slp_ast.c:1246-1331 | Reading the written text from left to right gives the formatter's tokens: two equal signs without a blank become one step operator. |
| RoundTrip.PrintParse | src/slp_ast.c:1246-1331 | Printing and parsing gives an expression back if and only if every operand printed without parentheses binds tightly enough, no step is a prefix, no sign stands before the same sign, and the depth limit is kept. |
| RoundTrip.AgreeingPrintParse | src/slp_ast.c:34-83 | For scalars, numbers, assignments to scalars, `!`, signs that do not repeat and operators with the same precedence in both tables, the round trip only depends on the depth limit. |
| RoundTrip.Reformat | src/slp_ast.c:1246-1331 | The formatter, the lexer's reading and the parser run one after the other return the expression if and only if it is faithful. |
| RoundTrip.LessEqualLost | src/slp_ast.c:34-83 | `($a <= $b) + $c` is printed without its parentheses and not parsed back. |
| RoundTrip.SignsAndStepsLost | src/slp_ast.c:1292-1331 | `- -$a` and `++$a` are not parsed back. |
| HashTable.Hash.Grow | src/slp_value.c:456-475 | Doubling keeps every key, value and sequence number and drops the tombstones; every probe loop ends. |
| HashTable.Hash.Set | src/slp_value.c:493-535 | The map gets the key: a present key keeps its sequence number, a new one gets the next; the fallback for a full table is never reached. |
| HashTable.Hash.GetRaw | src/slp_value.c:537-559 | The value of the key or null; in access order a value other than null makes the key the youngest, and nothing else changes. |
| HashTable.Hash.Contains | src/slp_value.c:568-581 | True exactly when the map has the key. |
| HashTable.Hash.Delete | src/slp_value.c:583-605 | True exactly when the map had the key, which is gone; every other entry is as it was. |
| HashTable.Hash.OrderedIndex | src/slp_value.c:623-640 | The live slot with exactly `ordinal` live slots before it, or -1 exactly when the ordinal is out of range. |
| HashTable.Hash.VisibleCount | src/slp_value.c:642-651 | The number of keys whose value is not null. |
| HashTable.EndCopy | src/slp_value.c:456-475 | A table whose slots have all been copied is sound and means the same map. |
| HashSlots.StoreNew | src/slp_value.c:493-535 | Storing a new key in a free slot at the end of an unbroken probe path keeps keys unique and findable and adds exactly that key. |
| HashSlots.Bury | src/slp_value.c:583-605 | A tombstone keeps all other keys findable and removes exactly the buried one. |
| HashSlots.StopsAtUnused | src/slp_value.c:493-535 | A key not met before a slot that was never used is not in the table. |
| HashSlots.ItemCount | src/slp_value.c:493-535 | The number of live slots is the size of the map. |
| HashOrder.PrecedesOrders | src/slp_value.c:607-621 | With distinct sequence numbers, hash_entry_precedes is a strict total order on the live slots in every mode. |
| HashOrder.EnumerationExists | src/slp_value.c:623-640 | Every ordinal below the count is the rank of a live slot. |
| HashOrder.Enumeration | src/slp_value.c:623-640 | The slots by rank are sorted strictly and every live slot occurs under its rank: the ordered index is a bijection. |
| HashOrder.OrderOfKeys | src/slp_value.c:607-621 | An ordered hash lists its keys by rising sequence numbers; the unordered mode by home slots, the youngest of a home slot first. |
| HashCache.SetCanonical | src/slp_vm.c:729-760 | Setting with a removal policy does to the listed cache what the policy says: the eldest key goes when it answers true, and an empty hash then stays empty. |
| HashCache.Fetch | src/slp_vm.c:762-794 | A read returns the value, or the miss policy's answer, which is stored under the same rules. |
| HashCache.MissStored | src/slp_vm.c:762-794 | The miss policy's answer is stored, and a later read finds it without asking, unless the removal policy wants to remove something from an empty hash; no other key changes, but for the eldest one when the removal policy asks for it. |
| HashCache.ReadRefines | src/slp_value.c:537-559 | Reading moves a key to the young end in access order only, and not when its value is null. |
| HashCache.AddRefines | src/slp_value.c:493-535 | Overwriting keeps a key's age, a new key is the youngest. |
| HashCache.RemoveRefines | src/slp_value.c:583-605 | Deleting takes the key out and keeps the order of the others. |
| HashCache.LeastRecentlyUsed | src/slp_vm.c:729-760 | After any sequence of reads, writes and deletes the cache has at most N keys, listed by the time of their last use. |
| HashCache.EvictsLeastRecent | src/slp_vm.c:729-760 | A full cache that gets a new key gives up exactly one key, the one whose last use lies furthest back. |
| HashCache.Perform | src/slp_vm.c:729-794 | Each read, write or delete on the table keeps it the cache of all operations so far, so both statements hold of the table. |
| Collector.Heap.Mark | src/slp_gc.c:424-428 | Marks and pushes an unmarked object, and does nothing to a marked one. |
| Collector.Heap.MarkRoots | src/slp_gc.c:218-275 | All roots are marked and on the gray stack or done. |
| Collector.Heap.Blacken | src/slp_gc.c:24-216 | Every object some field of the blackened object refers to is marked. |
| References.KidsAre | src/slp_gc.c:24-216 | For every kind of object the collector follows exactly the objects its fields hold, a slot of a hash only if it has a key. |
| Collector.Heap.Trace | src/slp_gc.c:277-282 | The loop ends with an empty gray stack and exactly the reachable objects marked. |
| Collector.Heap.Sweep | src/slp_gc.c:350-365 | The object list keeps the marked objects, in order and unmarked, and no others. |
| Collector.Heap.Rebuild | src/slp_gc.c:398-412 | The table holds exactly the strings on the object list, each found by probing. |
| Collector.Heap.Collect | src/slp_gc.c:414-422 | An object stays if and only if a chain of fields leads to it from a root, and no object that stays refers to one that went; the order and all contents are kept, no mark is left, the gray stack is empty, every survivor was pushed exactly once, and the interned strings are the surviving strings. |
| References.ReachableInUse | src/slp_gc.c:277-282 | What the collector reaches is what a chain of fields from a root leads to. |
| Collector.Heap.Intern | src/slp_vm.c:433-477 | Returns the string object with these characters, a new one exactly when there was none; the table stays at most half full. |
| Collector.Heap.Lookup | src/slp_vm.c:433-477 | The probe loop finds the string or proves that the heap has none. |
| Collector.Heap.GrowTable | src/slp_vm.c:412-431 | The doubled table holds the same strings. |
| Collector.Heap.Track | src/slp_vm.c:491-495 | A new object is put at the head of the list. |
| Collector.CanonicalHeap | src/slp_vm.c:433-477 | In every state between operations two strings with the same characters are the same object. |
| Tracing.MarkedIsReachable | src/slp_gc.c:277-282 | When no gray object is left and the roots are marked, the marked objects are exactly the reachable ones. |
| Tracing.Pushed | src/slp_gc.c:424-428 | Marking one more reachable object keeps the tri-colour invariant. |
| Tracing.PushesBounded | src/slp_gc.c:277-282 | There are no more pushes than objects. |
| Control.CutAndPlace | src/slp_vm.c:5451-5505 | Cutting a machine at a frame and placing the upper part again gives back the same stack, frames and handlers. |
| Control.TrimIsPrefix | src/slp_vm.c:2823-2828 | Trimming removes exactly the handlers of frames that are gone. |
| Control.PlaceOk | src/slp_vm.c:2926-3008 | A suspended activation placed on any sound stack gives a sound machine. |
| Relocation.LocalCommutes | src/slp_vm.c:2926-3008 | An instruction inside a frame commutes with placing its activation elsewhere, and is refused in one place exactly when it is refused in the other. |
| Activations.StepWithin | src/slp_vm.c:2926-3008 | So does every instruction that does not leave the activation: calls, resumptions, yields, returns, inline returns, callcc, throws and aborts. |
| Activations.RunInside | src/slp_vm.c:2926-3008 | A whole run that stays inside an activation is the run of the activation alone, placed on the same machine: it never touches what lies below. |
| ControlRuns.ResumeRestores | src/slp_vm.c:2926-3008 | A closure that yields, and is called again after any run that does not resume, recapture or drop it, is back with the same activation, relocated above its new caller, with only the root's slots 1, 2 to 10 and 11 rebound; in its old place it would be the old machine. |
| ControlRuns.RunKeepsSaved | src/slp_vm.c:5451-5505 | What a suspended closure keeps stays unchanged through every such run. |
| ControlRuns.InlineReturnLeaves | src/slp_vm.c:5071-5102 | An inline return leaves the frames below the innermost frame that is not inline, with the result, and drops what that frame's closure kept. |
| ControlRuns.ReboundSlots | src/slp_vm.c:2988-3000 | The rebinding sets message, given positional arguments and argument array and leaves every other slot and operand. |
| ControlRuns.CallRefused | src/slp_vm.c:2855-3045 | A call is refused exactly at 512 frames, or when the new slots or what the closure kept go past 4096 values, 512 frames or 256 handlers. |
| Activations.ResumedRunsAlike | src/slp_vm.c:2926-3008 | The resumed activation runs as it would have run where it was suspended, through calls, other coroutines, captures and exceptions, and ends in the same activation. |
| ControlRuns.StepLive | src/slp_vm.c:4984-5102 | Call, return, inline return, throw, yield, resume, callcc, continuation invocation and abort keep the control state sound. |
| ControlRuns.LoopStarts | src/slp_vm.c:4267-4287 | Calling the program's closure on an empty machine gives the state the run loop starts in, and it is sound. |
| ControlRuns.HandlersOfRun | src/slp_vm.c:5378-5412 | In every state a run reaches from a sound state handlers are sorted by frame count, none outlives its frame, and none lies above the stack. |
| ControlRuns.InvokeActsAsCall | src/slp_vm.c:3354-3394 | Whatever runs after a continuation was invoked, when the frame entered through it returns, the invoker has its frames and handlers back and its stack with callee and arguments replaced by the result. |
| ControlRuns.InvokedAgain | src/slp_vm.c:3153-3175 | A continuation invoked again from any later state restores the same handlers, frames and operands. |
| Continuations.InvokerRegained | src/slp_vm.c:5015-5102 | Whatever runs inside the activation a continuation resumed, leaving it goes to the invoker by a return, and by an inline return or a yield to what the activation lay on when it was captured: the invoker gets control back if and only if it is left by a return or the two are the same. |
| Continuations.InvokeCarries | src/slp_vm.c:3354-3394 | The first argument or message given to a continuation is on top of the restored stack and in slot 2 of the resumed frame, the argument array in slot 11; all other slots, operands, frames and handlers are as captured, and the owner's suspended activation is dropped. |
| Continuations.CaptureHandsOver | src/slp_vm.c:6200-6336 | callcc keeps the whole context in a new continuation and the activation with its owner, and starts its receiver below it with the continuation as the only argument, or gives it as the result. |
| Continuations.CapturedResumes | src/slp_vm.c:2926-3008 | A closure suspended by callcc and called after any run that leaves it alone is back above its new caller, and its callcc gives the message, the first argument or null. |
| Continuations.InvokerLost | src/slp_vm.c:5071-5102 | A run from the start of a program that invokes a continuation at 4 and, by an inline return of what it resumed, goes on at 2. |
| TryRegions.ThrowRestoresTry | src/slp_vm.c:5378-5412 | An exception caught by the handler of a try, after any run of calls, coroutines, captures and inner handlers in it, leaves the frames and handlers of the try's entry and its stack height plus the exception, with only the frame's fixed slots possibly changed below. |
| Calls.CallRestoresCaller | src/slp_vm.c:4984-5052 | From entering or resuming a closure to its return, yield, inline return or abort, whatever is called, resumed, captured, pushed or caught in between, the caller's frames, handlers and operands are preserved and the result replaces callee and arguments. |
| Calls.EnteredSlots | src/slp_vm.c:3046-3057 | A closure starts with the callee, the message, nine arguments padded with null and the argument array, and nothing above. |
| ControlMachine.Vm.Yield | src/slp_vm.c:5451-5505 | The machine that copies frames, slice and handlers out and rebases them does what the yield function says. |
| ControlMachine.Vm.Resume | src/slp_vm.c:2926-3008 | The machine that copies them back and rebases them does what the resume function says, and refuses past the limits. |
| ControlMachine.Vm.Capture | src/slp_vm.c:6200-6297 | callcc captures the whole context and suspends the owner. |
| ControlMachine.Vm.Invoke | src/slp_vm.c:3354-3394 | Invoking restores the captured context, notes the invoker's in the resumed frame and pushes the value. |
| ControlMachine.Vm.Return | src/slp_vm.c:4984-5052 | A return delivers its result to the frame below or to the noted context. |
| ControlMachine.Vm.InlineReturn | src/slp_vm.c:5071-5102 | An inline return leaves all inline frames and the ordinary one below them. |
| ControlMachine.Vm.Throw | src/slp_vm.c:5394-5412 | A throw goes to the innermost handler, or reports that there is none. |
| ControlMachine.Vm.TrimHandlers | src/slp_vm.c:2823-2828 | The loop trims to the given frame count. |
| ControlMachine.FindFirst | src/slp_vm.c:2830-2853 | The scan finds the first handler above the root. |
| ArrayViews.InsertElements | src/slp_value.c:330-351 | The value is at the index, below 0 taken as the front and behind the end as the end; elements behind it move up by one and no other moves. |
| ArrayViews.RemoveElements | src/slp_value.c:362-380 | The elements behind the removed one move down by one. |
| ArrayViews.SetElements | src/slp_value.c:398-435 | The value is at the index, which becomes the last one if it was behind the end, and no other element changes. |
| ArrayViews.InsertSound | src/slp_value.c:330-351 | Inserting keeps every valid view in the heap equal to its window if and only if the array is a root, already spoilt, or equal to its own window; the array itself stays valid. |
| ArrayViews.RemoveSound | src/slp_value.c:362-380 | Removing keeps every valid view equal to its window if and only if the index is out of range, the array is a root or already spoilt, or it differs from its window at most in the element that goes. |
| ArrayViews.SetSound | src/slp_value.c:398-435 | Setting keeps them so if and only if the index is negative, the array is a root or already spoilt, or, inside, it differs from its source at most in that element, or, behind its end, it equals its window and the skipped slots of its store hold null. |
| ArrayViews.InsertReaches | src/slp_value.c:330-351 | An insertion gives every array up the chain of sources a new version and spoils the views among them; all other arrays are untouched. |
| ArrayViews.SetReaches | src/slp_value.c:398-435 | So does setting an element, inside or behind the end. |
| ArrayViews.RemoveReaches | src/slp_value.c:362-380 | So does a removal, up to the first source that is too short for the index. |
| ArrayViews.ReachesChain | src/slp_value.c:362-380 | When the views up the chain equal their windows, that is the whole chain. |
| ArrayViews.StaleViewRevived | src/slp_value.c:330-440 | A stale view, unequal to its window, that an insertion, a removal or a set turns into a valid one. |
| ArrayViews.OthersStale | src/slp_value.c:449-454 | Every other view of a changed array is no longer valid. |
| ArrayStore.Arrays.InsertInternal | src/slp_value.c:330-351 | The loop that moves elements up and the walk up the chain do what the insertion function says. |
| ArrayStore.Arrays.RemoveInternal | src/slp_value.c:362-380 | The same for removal, which returns the removed element. |
| ArrayStore.Arrays.SetInternal | src/slp_value.c:398-435 | The same for setting, growing and filling included. |
| ArrayStore.Arrays.Sublist | extensions/stdlib/stdlib.c:2441-2489 | A new view of the stretch the bounds describe, negative ones counted from the end, equals its window and is valid; impossible bounds give no view and change nothing. |
| ArrayStore.BoundsFromEnd | extensions/stdlib/stdlib.c:2441-2489 | Negative bounds count from the end, an end behind the last element is the end, and bounds in front of the array or in the wrong order give no view. |
| ArrayStore.Arrays.Push | src/slp_value.c:358-360 | Appending to a root or a valid view keeps the heap sound and the view valid. |
| Foreach.RemovingVisitsAll | src/slp_vm.c:5692-5803 | A foreach over an array whose body removes any subset with remove() visits every element once, in order, and leaves exactly the others. |
| Foreach.OneMoreRun | src/slp_vm.c:5730-5750 | A noticed change gives exactly one further run, with the previous element, and then the loop ends whatever that run does. |
| Foreach.ChangeNoticed | src/slp_vm.c:5725-5750 | For every body: without a remove() the loop notices any change; with one it notices if and only if a change stands behind the first remove() and the run is not the one for the first element. |
| Foreach.RemoveThenChangeUnnoticed | src/slp_vm.c:5725-5731 | Removing the first element and then replacing the array makes the loop go through the whole new array unnoticed. |
| HashForeach.DeleteKeepsOrder | src/slp_value.c:583-605 | Deleting an entry takes it out of the iteration order and keeps the order of the others, in every order mode. |
| HashForeach.RemovingVisitsAll | src/slp_vm.c:5769-5795 | A foreach over any sound hash, looking entries up by rank, whose body removes any subset with remove(), comes to its end, visits the listed entries in iteration order, and leaves the old map without the removed keys. |
| HashForeach.VisitsAre | src/slp_vm.c:5769-5795 | The visited entries are those with a value other than null, each once, and the last entry of the order once more if its value is null. |
| HashForeach.Iteration.Step | src/slp_vm.c:5769-5795 | The loop over ordinals with the table's ordered index does what the step function says. |
| HashForeach.Iteration.RemoveElement | src/slp_vm.c:2725-2762 | remove() deletes the entry from the table and steps the counter back. |
| Foreach.Iteration.Step | src/slp_vm.c:5692-5803 | The frame's fields change as the loop function says. |
| Foreach.Iteration.RemoveElement | src/slp_vm.c:2725-2762 | remove() takes the current element away, steps the counter back and notes the version. |
| HasMatch.CallSound | src/slp_vm.c:1203-1266 | Pairs and sequence numbers stay distinct and there are never more than sixteen. |
| HasMatch.EvictsOldest | src/slp_vm.c:1203-1266 | Only a seventeenth pair evicts, exactly one pair, the one used longest ago. |
| HasMatch.StampedByLastCall | src/slp_vm.c:1203-1266 | After any calls the sequence number of a pair is the time of its last call. |
| HasMatch.PairsIndependent | src/slp_vm.c:1203-1266 | In any interleaving of calls on up to sixteen pairs each pair finds the matches it would find alone. |
| HasMatch.CallsEnumerate | src/slp_vm.c:1203-1266 | The calls for one of the pairs answer with matches that do not overlap and whose offsets rise strictly, one of the first length + 2 of them misses, and of a matcher that finds the first match they leave out none: neither in front of the first, between two, nor behind the last. |
| HasMatch.MatchesRise | src/slp_vm.c:1203-1266 | For any matcher, searching again behind each match gives matches at strictly rising offsets that do not overlap. |
| HasMatch.MatchesEnd | src/slp_vm.c:1203-1266 | Such a search misses within length + 2 steps, whatever empty matches it meets. |
| HasMatch.RegexStates.HasMatch | src/slp_vm.c:1203-1266 | The search, the choice of a slot and the update in place do what the call function says. |
| ScalarCells.Store.Dereference | src/slp_vm.c:1287-1291 | Dereferencing ends after at most one step. |
| ScalarCells.Store.AssignValue | src/slp_vm.c:2191-2207 | A write is seen through the place and all its aliases and through no other place, and no alias is made or broken. |
| ScalarCells.Store.BindReference | src/slp_vm.c:2191-2207 | Binding a cell makes the place share it and changes no other place. |
| ScalarCells.Store.Reference | src/slp_vm.c:2296-2318 | Taking a reference gives the place a cell if it had none and changes no value. |
| ScalarCells.Store.PassByReference | src/slp_vm.c:2296-2318 | A parameter bound by reference becomes an alias of the variable, with its value, and nothing else changes. |
| ScalarCells.Store.AssignSlot | src/slp_vm.c:2320-2329 | A slot with a cell takes the value for all its aliases, a slot without one takes what it is given. |
| ScalarCells.Store.SetElement | src/slp_value.c:398-435 | Setting an element that holds a cell stores a plain value in it. |
| ScalarCells.Store.SetVariable | src/slp_vm.c:2290-2294 | The variable of the innermost scope that has the name is written. |
| ScalarCells.Store.GetVariable | src/slp_vm.c:2270-2288 | Reading gives the value last written through any alias of the variable in the innermost scope that has it, and nothing exactly when no scope has it. |
| Bytecode.ReadBack | src/slp_bytecode.c:263-307 | Reading a written function consumes exactly the bytes written and gives code, name, arity and upvalue count. |
| Bytecode.FileStart | src/slp_bytecode.c:241-251 | A written function starts with the four letters of the format, version 1, its name behind its length, its arity and its number of upvalues. |
| Bytecode.FourBytes | src/slp_bytecode.c:60-76 | Words are written from the most significant byte on. |
| Bytecode.ReadWritten | src/slp_bytecode.c:126-208 | Every kind of constant is read back from its own bytes, strings as new objects. |
| Bytecode.ReadsAll | src/slp_bytecode.c:210-239 | Reading the constants adds them to the pool one after the other. |
| Bytecode.ConstantsKeepIndices | src/slp_bytecode.c:221-239 | Every constant comes back under its index if and only if no two constants other than strings are equal. |
| Bytecode.CountsKept | src/slp_bytecode.c:241-251 | Arity and upvalue count survive if and only if they fit a byte, the name if and only if it is not empty. |
| Bytecode.AddedDistinct | src/slp_chunk.c:65-77 | A pool filled by adding constants has no two equal ones. |
| BytecodeStream.Writer.SerializeFunction | src/slp_bytecode.c:241-251 | The writer appends exactly the serialised form, and reports a constant it cannot write. |
| BytecodeStream.Writer.WriteU64 | src/slp_bytecode.c:71-76 | The shifting loop writes the big-endian bytes. |
| BytecodeStream.Reader.ReadNumber | src/slp_bytecode.c:95-110 | The folding loop reads a big-endian number, or nothing when bytes are missing, and then stays where it was. |
| BytecodeStream.Reader.DeserializeFunction | src/slp_bytecode.c:263-307 | The reader accepts exactly the inputs the reading function accepts and stops where it stops. |
| BytecodeStream.StoreAndLoad | src/slp_bytecode.c:241-307 | Writing and reading a function with a distinct pool gives code, constants at their indices, name, arity and upvalue count. |

## Left out
- Strings with interpolation, arrays and hashes as literals, indexing, tuples, object expressions, closures and their upvalues, try, break and continue in the compiler: the compiled fragment is literals, scalars, operators, `&&`, `||`, `!`, `iff`, predicate bridges, assignments, `++` and `--`, calls, and expression, if, while, for and foreach statements with braced bodies.
- SinglePass.Compiler.NamedVariable: upvalues, which the compiler never finds, are not modelled.
- SinglePass.Compiler.ReferenceVariable: the same.
- SinglePass.Compiler.CompileUnary: unary plus and unary predicates are not modelled.
- SinglePass.Compiler.CompileAssign: only assignments to a named variable.
- SinglePass.Compiler.CompileOpAssign: only compound assignments to a named variable.
- SinglePass.Compiler.CompileCall: only calls of a named target.
- SinglePass.Compiler.CompileWhile: the lists of break and continue jumps are not modelled, here and in the other loops.
- Machine.StepConfig: calls, references, bridges and generators are functions of the environment.
- Arithmetic.Division: the smallest integer modulo -1 is undefined in C; the model has 0.
- Arithmetic.Shifts: a long as the number of places is converted through a double, which the model leaves to the environment.
- Arithmetic.LongComparisons: for an environment that converts and compares as IEEE 754, section 4.3.1, says.
- Line numbers, warnings, tracing, profiling, taint and Java objects.
- Floating point, number parsing and number formatting: the environment's functions, the same in evaluator and machine.
- Calls inside the compiler theorem: a call is seen when it has returned, as a result and a store, so the body of the callee is not followed there; `Calls.CallRestoresCaller` covers what a call does to the control state.
- CompilerCorrect.CompiledCodeAgrees: assumes that the pool has at most 2^16 constants and that the operands fit the value stack; `Codegen.NameOperandExact` shows why the first is needed.
- StackHeights.StaticHeight: covers braced bodies only, since unbraced branch bodies, a bare block as a statement, the loop with an assignment as its condition and the catch path leave the stack unbalanced in the source.
- ParserMachine.Parser.ParsePrecedence: calls, indexing, tuples of several values, negated predicates, strings, arrays and hashes have no result in the model, and what the parser does after its first error is not followed; printed expressions contain none of them.
- FormatNode.Buffer.FormatNode: scalars, numbers, tuples of one scalar, assignments, unary and binary operators only, no negated predicates.
- RoundTrip.PrintParse: the operator `x` is not modelled, because the lexer takes it for a name in front of a sign; spelling of names and numbers is left to the lexer.
- HashTable.Hash.Set: keys are canonical strings, growth of counters past the integer width and failing allocations are not modelled; masking by a power of two is written as the remainder.
- HashCache.SetCanonical: the policy closure is a pure function of size, eldest key and eldest value.
- HashCache.Fetch: the miss policy is a pure function of the key.
- Collector.Heap.MarkRoots: the roots are one list in marking order, not the separate fields they come from; the gray stack's growth and the byte counter are left out.
- Collector.Heap.Intern: all strings are created by interning.
- Relocation.LocalCommutes: instructions on operands are given by what they pop, push and jump to, and captured upvalues are not modelled.
- Calls.EnteredSlots: named arguments are left out.
- ControlMachine.Vm.Resume: named arguments, traces and taint are left out, and arguments are not dereferenced.
- ControlRuns.StepLive: one run loop only; natives that start another loop, handlers past 256 at a push and the generator's pending flag are not modelled, and an instruction that would pop below its try's entry height fails, where the machine would read stale slots.
- ArrayViews.InsertSound: elements are plain values; cells in arrays are the subject of ScalarCells.
- Foreach.Iteration.RemoveElement: one frame; the search for the innermost frame with an active loop, and several loops in one frame, are not modelled.
- HashForeach.RemovingVisitsAll: bodies that call remove() or leave the hash alone; other changes of the hash in the body are not modelled.
- Activations.RunInside: runs in which no continuation is invoked or returned through inside the activation, since both replace the whole machine; `ControlRuns.InvokeActsAsCall` and `Continuations.InvokerRegained` are about those.
- ArrayStore.Arrays.SetInternal: elements that hold cells are left out, and ScalarCells.Store.SetElement is about those.
- ScalarCells.Store.SetElement: growth, versions and views are left out.
- ArrayStore.Arrays.Sublist: an argument that is not an array or a number gives a new empty array in the source.
- HasMatch.PairsIndependent: the regular-expression engine is any matcher that answers inside the text.
- ScalarCells.Store.AssignValue: the watch message is not modelled.
- Bytecode.ReadBack: a function constant cannot be written by the source either, and then the writer reports failure.
- Platform input and output, the standard library, the disassembler and the embedding interface.
