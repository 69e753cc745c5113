# A verified model of PikaPython

PikaPython is a small Python engine in C. It compiles source text line by line to bytecode without
jump addresses, runs the bytecode on a virtual machine that finds its jump targets by scanning, keeps
objects on a reference-counted heap with mark and sweep on top, and brings its own allocator, file
formats, interpreter lock, shell input filter and module builder. This project models those parts in
Dafny and proves what they are for. `dafny verify dfyconfig.toml` checks the whole project.

## What is proved

**From source text to a run.** `Syntax` holds the modelled language (expressions with calls, keyword
arguments, list, tuple and dict literals and slices; assignment, `del`, `return`, `if/elif/else`,
`while/else`, `for/else`, `break`, `continue`) and its big-step meaning over an arbitrary world of values,
in which every operation may change the outside state and may fail. `CodeGen` is the recursive compiler,
`Machine` the VM as a step function with its four scans. `Blocks.CompilerCorrect` says that the VM run on the
compiled units stops exactly when the program terminates, in the same state and with the same error flag.
Around it:

- `Iteration`: the engine ends a `for` loop at the first item that is bound as None; its loop is the loop over the
  iterator's items exactly when there is none.
- `Streaming` and `Compiler`: the compiler as it works, with its block stack, exit queue and mutable invoke
  depth, produces the same units; `ConstPool`, `UnitBits` and `Image` carry them through the interned
  constant pool, the bit fields and the three-pass `.pyo` file, so that what is loaded is the program
  the theorem speaks of (`Compiler.LoadedProgram`).
- `Frame`: the VM as an object with registers updated in place and with its scan loops refines `Machine`. `Engine` puts
  the stages together: a terminating program, compiled, written, loaded and run, stops as its meaning says
  (`Engine.CompileAndRun`).
- The search that `break` and `continue` make for their loop is not always right: a finished
  loop in the same body that is shallower than the `break` hides the loop around it. `Scans.JmpBackExact` gives
  the exact condition on units, `Exits.BreaksLandIff` the exact condition on programs, `Exits.BreakLost` a program
  that violates it.

**Memory.** `Heap`, `Sweep` and `Collector`: marking is exact; a sweep goes through reference-count cascades,
8-bit counters that may wrap while a cycle is taken apart, and victims freed earlier in the same pass. A collection
leaves only reachable objects. It keeps all of them if each is a root or owned by a reachable object, and with exact
counts only then: what stays is exactly the greatest part of the reachable objects in which each is a root or owned
(`Collector.GC.MarkSweep`); an object that hangs on a weak reference alone is lost (`Collector.LoseWeak`), and so
is one whose 8-bit counter has wrapped (`Collector.LoseWrapped`).
`Bitmap`, `Runs` and `Pool`: the allocator with its two hints and its byte skip fails only when no free run exists,
live allocations never overlap, and freeing undoes allocating.

**Formats.** `Archive`: what the linker writes the loader reads back; a name that fills its field is read back only
if the size behind it begins with a zero byte (`Archive.NameRead`, and `Archive.NameLost` for a family of names that are lost).
`Numbers`: decimal text of 32-bit numbers and back.

**Concurrency and streams.** `Mutex`: the recursive lock as interleaved loads, stores and platform calls of any
number of threads implements the sequential recursive lock, exactly when no thread has number 0, and produces every
history of it (`Mutex.HistoriesExact`). `Filter`, `Ring` and `Shell`: the input filter loses nothing and never
overflows its queue; with the default table it takes out exactly the two messages in their allowed spellings
(`Filter.DefaultMessagesExact`) and equals the plain left-to-right split of the input, and `Filter.TwoTablesIff` says
for which second tables it still does.
`Maker`: the dependency worklist compiles exactly what the root needs.

## Conventions

- Positions in a program are unit indices; every stored unit is four bytes long (`UnitBits.RawBytes`).
- A scan that the C code lets run out of the unit array ends at `PC_LOST` in the model. Admissible programs never
  get there.
- `Admissible` programs keep the engine's own limits: block depth below the ten registers of a frame
  (`REGIST_SIZE`) where a block is opened, invoke depth below 16, no variable named like a loop register, operators
  with as many operands as they have, and every `break` and `continue` under the exact condition above.
- Integers are unbounded except where the C width matters: depths (4 bits), reference counts (8), constant
  indices (16), sizes and block indices (32). Where a property needs a bound, a lemma says what happens beyond it
  (`Image.IndicesExact`, `ConstPool.IndexWraps`, `Pool.FastPathTest`, `Collector.LoseWrapped`).
- Words are stored least significant byte first.

## Model

| member | source | states |
|---|---|---|
| `Bytecode.AssembleConcat` | src/PikaParser.c:3740-3836 | Assembling the text of a program source line by source line, each time with a fresh assembler, gives the units of assembling the whole text at once. |
| `Bytecode.AssembleLine` | src/PikaParser.c:3740-3836 | `B<d>` followed by instruction lines becomes one source line: the new-line bit on its first unit only, both depths cut to four bits. |
| `ExprProof.ArityRecovered` | src/PikaVM.c:2551-2580 | The backward scan at any node of any compiled expression counts exactly its sub-expressions (keyword arguments and list literals once), and nothing of an earlier sibling or line. |
| `ExprProof.RunExpr` | src/PikaVM.c:3748-3865 | Running the postfix code of any expression tree leaves exactly its value on the unchanged stack (or in the list under construction one level up) and all list registers as before, or stops with its error in its state. |
| `ExprProof.RunList` | src/PikaVM.c:1761-1784 | A list literal built in place by LST..NLS is the list of the element values in order, at any nesting. |
| `Scans.SkipDeeper` | src/PikaVM.c:571-592 | A forward jump passes over everything in deeper blocks and in the rest of its own line. |
| `Scans.BackTo` | src/PikaVM.c:593-607 | `JMP -1` lands on the nearest line start of its own depth. |
| `Scans.SeekLineNth` | src/PikaVM.c:571-592 | A jump forward by `n` lands on the `n`-th line start that is not deeper, counted as a set, or at the end when there are fewer. |
| `Scans.SeekBackNth` | src/PikaVM.c:593-607 | A jump back by `n` lands on the `n`-th line start of equal depth, and fails exactly when there are fewer. |
| `Stepping.StepJmp` | src/PikaVM.c:2480-2486 | JMP jumps by its operand whatever it is, forward over line starts that are not deeper or back over those of equal depth. |
| `Stepping.StepNelBy` | src/PikaVM.c:3367-3377 | NEL jumps by its operand exactly when the condition register of its depth is not set. |
| `Stepping.StepOutEmpty` | src/PikaVM.c:2342-2345 | Without an operand on the stack an assignment does nothing. |
| `Stepping.StepJezEmpty` | src/PikaVM.c:2520-2533 | Without an operand on the stack a test counts as false. |
| `Stepping.TakesServed` | src/PikaVM.c:937-969 | An operator takes the counted operands if it serves that many and none otherwise. |
| `Machine.RegisterNames` | src/PikaVM.c:718-728 | The names of the ten loop registers are exactly `$l0` to `$l9` and what continues them. |
| `Scans.JmpBackExact` | src/PikaVM.c:517-562 | On the fields of the units: `break` and `continue` at `p` resolve to the back jump of the loop around `p` if and only if no `0 JEZ 2` between that loop's test and `p`, other than one directly behind a GER, is shallower than `p`. |
| `Scans.TryHidesNothing` | src/PikaVM.c:532-538 | The test that closes a `try` block, which stands directly behind a GER, never hides the loop around it. |
| `Scans.JmpBackMeans` | src/PikaVM.c:517-562 | From any place of any program the search ends at `j` if and only if `j` is the first `JMP -1` behind it of the depth of the nearest shallower loop test before it, all read off the fields of the units. |
| `Scans.GoodBlock` | src/PikaParser.c:3322-3620 | Shape of compiled code: it starts a line at its own depth, never comes up to a smaller depth, ends at invoke depth 0, and has no loop test shallower than the depth computed from the syntax. |
| `Exits.TestsBlock` | src/PikaParser.c:3322-3620 | The smallest depth of a loop computed from the syntax of a block is exactly the smallest depth of a loop test in its code. |
| `Exits.BreaksLandIff` | src/PikaVM.c:517-562 | For every program within the depth limits, the static condition on `break` and `continue` holds if and only if each of them, at its place in the compiled program, resolves to the loop it stands in. |
| `Exits.BreakLost` | src/PikaVM.c:517-562 | `while c: { while c: pass; if c: break }` fails that condition: the `break` does not find its loop. |
| `Simulation.SimLeave` | src/PikaVM.c:3808-3817 | Where no shallower loop test precedes it in the loop, one step of BRK goes behind the loop's back jump and one step of CTN goes to it. |
| `Blocks.SimBlock` | src/PikaVM.c:3748-3865 | For any statements at any place and depth of a program: the VM run from their first unit ends as the big-step semantics says (normally behind them, behind or at the back jump of the loop, or stopped), and keeps the registers of all enclosing blocks. |
| `Blocks.SimWhile` | src/PikaVM.c:564-609 | `while` loops with else part, through any number of rounds and any way of leaving them. |
| `Blocks.SimFor` | src/PikaParser.c:3423-3501 | `for` loops with their loop register, the missing-item test and the else part, through any number of rounds and any way of leaving them. |
| `Blocks.EvalIter` | src/PikaParser.c:2258-2259 | The first line of a `for` evaluates the expression and then calls `iter` on its value, which is what the meaning of `for` asks for; an error of either ends it in its state. |
| `CodeGen.ForHeadUnits` | src/PikaParser.c:3425-3476 | The units of both lines of a `for` head: the expression at invoke depth 1, `RUN iter`, `OUT $l<depth>`; then `RUN $l<depth>.__next__`, OUT, EST and `JEZ 2`. |
| `Iteration.ForAgrees` | src/PikaParser.c:3423-3501 | The engine's `for` is the loop over the items of the iterator when no item is bound as None. |
| `Iteration.RoundsExact` | src/PikaVM.c:3401-3413 | The engine enters the body for a first part of the items, and for all of them if and only if none is bound as None. |
| `Blocks.SimRest` | src/PikaVM.c:3367-3377 | `elif` and `else` parts run exactly when no earlier condition of the chain held, by the condition register of their depth. |
| `Blocks.SimProgram` | src/PikaVM.c:4528-4609 | Every outcome of a whole program, including a run-time error and a `return`, against the VM frame. |
| `Blocks.CompilerCorrect` | src/PikaVM.c:4528-4609 | Compiler correctness: on every admissible program and every world the VM stops if and only if the program terminates, then in the state and with the error flag of the semantics; otherwise both run for ever. |
| `Streaming.StreamingIsRecursive` | src/PikaParser.c:3355-3418 | Emitting line by line with the block stack and the exit queue, closing several blocks at once, gives the text of the recursive compilation of the block tree. |
| `Streaming.AssembleBlock` | src/PikaParser.c:3740-3836 | The assembled text of the recursive compilation is the unit sequence the theorems speak of. |
| `Streaming.StreamedUnits` | src/PikaParser.c:2175-2211 | The units produced from the source lines of a program are its compiled block. |
| `Compiler.Emitter.GenAsm` | src/PikaParser.c:3212-3284 | The recursive generator with its mutable depth appends the postfix code of the expression and leaves the depth one smaller. |
| `Compiler.LineCompiler.PopExits` | src/PikaParser.c:2193-2211 | Leaving blocks pops their kinds from the block stack into a queue, innermost first. |
| `Compiler.ExitText` | src/PikaParser.c:3355-3413 | The loop over the exit queue emits the closing code of each left block at its own depth. |
| `Compiler.HeadText` | src/PikaParser.c:3415-3620 | The text of one line is its `B` line and the instructions of its kind. |
| `Compiler.LineCompiler.CompileLine` | src/PikaParser.c:2155-2211 | One line: new block stack and text are those of the line emission that `StreamingIsRecursive` is about. |
| `Compiler.CompileProgram` | src/PikaParser.c:2155-2211 | The whole source text compiled line by line yields the units of the recursive compilation. |
| `Compiler.CompileFile` | src/PikaCompiler.c:107-182 | The `.pyo` file written for a program is the image of its compiled block. |
| `Compiler.LoadedProgram` | src/PikaVM.c:4234-4265 | What the VM reads unit by unit from the loaded file of a program is the program that `CompilerCorrect` speaks of. |
| `Engine.CompileAndLoad` | src/PikaVM.c:4234-4265 | Compiling source lines to a file and loading the file gives the compiled program. |
| `Engine.CompileAndRun` | src/PikaVM.c:4528-4609 | Every terminating admissible program, compiled line by line, written to a file, loaded and run in a frame, stops in the state and with the error flag its meaning gives. |
| `Frame.VMFrame.ScanForward` | src/PikaVM.c:571-592 | The scan loop over growing offsets finds the n-th line start that is not deeper, or the end. |
| `Frame.VMFrame.ScanBackward` | src/PikaVM.c:593-607 | The backward scan loop finds the n-th line start of equal depth. |
| `Frame.VMFrame.ScanLoopEnd` | src/PikaVM.c:517-562 | The two scan loops of `break` and `continue` find the depth of the nearest shallower loop test and then the next back jump of that depth. |
| `Frame.VMFrame.GetInputArgNum` | src/PikaVM.c:2551-2580 | The counting loop returns the number of units one invoke depth deeper back to the start of the line or to an equal depth, OUT and NLS passed over. |
| `Frame.VMFrame.RunInstructUnit` | src/PikaVM.c:3748-3865 | One executed unit changes the frame as one step of the functional machine. |
| `Frame.VMFrame.Run` | src/PikaVM.c:4528-4609 | The run loop, for any number of units, is that many steps. |
| `ConstPool.EntryAt` | src/PikaVM.c:4142-4163 | In a pool of constants the string at the offset of a constant is that constant. |
| `ConstPool.Constants.GetOffsetByData` | src/PikaVM.c:4165-4186 | The walk over the pool returns the offset of the first equal constant, in 16 bits, or 65535. |
| `ConstPool.Constants.Append` | src/PikaVM.c:4142-4154 | Appending adds one constant and leaves the others in place. |
| `ConstPool.PlaceStable` | src/PikaParser.c:3800-3814 | Constants appended later move none that is already there. |
| `ConstPool.IndexForIsPlace` | src/PikaParser.c:3800-3814 | Interning returns the operand's own offset while every constant starts within 64 KiB. |
| `ConstPool.IndexForOutOfReach` | src/PikaParser.c:3800-3814 | Interning an operand that puts a constant beyond 64 KiB returns a wrong index. |
| `ConstPool.PlaceInjective` | src/PikaParser.c:3800-3814 | Two operands share an offset exactly when they are equal. |
| `ConstPool.IndexWraps` | src/PikaParser.c:3748-3814 | In a pool of 64 KiB or more the index of a new constant is not its place; at a multiple of 64 KiB it decodes to the empty string. |
| `UnitBits.FieldsBack` | src/PikaVM.h:157-196 | The getters read back what the setters packed: depths modulo 16, new-line bit, instruction and index. |
| `UnitBits.RawBack` | src/PikaObj.h:43-48 | A stored unit of four bytes reads back as the same unit. |
| `UnitBits.NumberIsPosition` | src/__instruction_table.h:34-105 | The number of each instruction is the position of its name in the instruction table. |
| `UnitBits.StoredBytes` | src/PikaVM.h:157-196 | The four bytes of a stored unit: block depth plus 16 times invoke depth, table position with the new-line bit on top, and the index with its low byte first. |
| `Image.IndicesFinal` | src/PikaParser.c:3800-3829 | While every constant starts within 64 KiB, each unit of a program carries the place of its own operand in the final pool. |
| `Image.IndicesExact` | src/PikaParser.c:3800-3829 | All units of a program carry the place of their operand if and only if every constant starts within 64 KiB. |
| `Image.OperandsShared` | src/PikaParser.c:3800-3829 | Two units have the same index if and only if they have the same operand. |
| `Image.ImageRoundTrip` | src/PikaVM.c:4234-4265 | Loading the written file, or the same bytes without their head, gives sections from which every unit reads back with its own operand; the head states the size of the rest. |
| `Image.FileLayout` | src/PikaCompiler.c:107-182 | The bytes of a `.pyo` file in their places, from the magic code to the last constant. |
| `Image.ByteCodeFrame.Intern` | src/PikaParser.c:3800-3814 | Lookup, append or reuse of one operand, with the copy to the file in the third pass. |
| `Image.ByteCodeFrame.AppendFromAsm` | src/PikaParser.c:3740-3836 | The assembler loop over one text appends its units, with interned operands, in memory or to the file. |
| `Image.Pass` | src/PikaCompiler.c:124-176 | One pass over the program: sizes, and what it writes to the file. |
| `Image.Compile` | src/PikaCompiler.c:107-182 | The three passes together write exactly the image of the program. |
| `Archive.PikaLinker.WriteIndex` | src/PikaCompiler.c:369-388 | An information block is name, zeros and size word, even where the word overwrites the name's NUL. |
| `Archive.PikaLinker.LinkFile` | src/PikaCompiler.c:429-496 | The linked file is the archive of the modules, and the declared total is the number of bytes written. |
| `Archive.Header` | src/PikaCompiler.c:448-483 | The five words of the first block read back: magic code, total, version, number of modules, block size. |
| `Archive.HeadLayout` | src/PikaCompiler.c:448-483 | The first block of an archive in its place, with the literal magic code and version. |
| `Archive.BlockLayout` | src/PikaCompiler.c:369-388 | The bytes of an information block in their places: the name, zeros, and the size of the data in the last word. |
| `Archive.BlockSizeExact` | src/PikaCompiler.c:393-407 | The block size is 64 or just what the longest name needs, whichever is larger. |
| `Archive.GetModuleNum` | src/PikaCompiler.c:498-526 | Each of the three error answers is given exactly in its own case, in their order; otherwise the number of modules. |
| `Archive.NameRead` | src/PikaCompiler.c:362-391 | A name is read back exactly if and only if it is shorter than its field or the size word begins with a zero byte. |
| `Archive.NameLost` | src/PikaCompiler.c:393-407 | Every name of 60 or more characters that fills whole words, alone in an archive with data whose size is no multiple of 256, is read back wrong. |
| `Archive.LoadModuleData` | src/PikaCompiler.c:532-573 | Loading module `i` from an archive, whatever follows it, gives the data of module `i`, one byte less exactly when its last byte is its only NUL, and its name exactly under the condition of `NameRead`; an empty module is told with size 0 if a NUL follows. |
| `Archive.FindModule` | src/PikaCompiler.c:538-557 | The loop over the information blocks ends at the block, the data and the size of module `i`. |
| `Archive.FixSize` | src/PikaCompiler.c:558-571 | On the bytes alone: the size is one less if and only if the last byte is the only NUL, with the 32-bit bound of the search, for every size. |
| `Archive.CodeIsNoString` | src/PikaCompiler.c:558-571 | A compiled program has a NUL before its last byte, so it is never shortened as a string. |
| `Heap.MarkedIsReachable` | src/PikaObj.c:2326-2371 | A marked set that holds the roots, is closed under references and holds nothing unreached is the set of reachable objects. |
| `Heap.StrongExact` | src/dataArgs.c:617-635 | The references released with an object are its counted ones, each once and in order. |
| `Collector.GC.MarkObj` | src/PikaObj.c:2314-2360 | Marking from one object ends on cyclic graphs, marks only what it reaches, and closes what it newly marks. |
| `Collector.GC.Mark` | src/PikaObj.c:2362-2371 | After marking, the marked objects are exactly those reachable from the roots on the chain. |
| `Sweep.CountsSuffice` | src/dataArg.c:643-661 | Counts below 256 that are at least the counted references, plus one for a root, establish the sweep invariant for every set of objects each of which is a root or owned from the set. |
| `Sweep.InvIffSupported` | src/dataArg.c:643-661 | With exact counts the invariant holds for such sets and for no others. |
| `Sweep.LastingIsGreatest` | src/PikaObj.c:2285-2312 | The lasting objects of a set are its greatest part in which each object is a root or owned; they are the whole set exactly when it is such a set itself. |
| `Sweep.CountedAgain` | src/PikaObj.c:2418-2439 | After a collection right counts are right again and exact counts exact. |
| `Sweep.ExactSupported` | src/PikaObj.c:2418-2439 | In a heap with exact counts every object is a root or owned by a live object. |
| `Sweep.PopInv` | src/dataArgs.c:617-635 | Dropping a reference of an object being freed makes its release legal and keeps the invariant. |
| `Sweep.LowerInv` | src/PikaObj.c:180-194 | Lowering a count keeps the invariant; only an unreachable object that is not being freed can reach 0, also after its 8-bit counter wrapped. |
| `Sweep.RemoveInv` | src/PikaObj.c:161-178 | Taking a freed object off the chain keeps the invariant. |
| `Collector.GC.ObjGC` | src/PikaObj.c:180-194 | A release does nothing to an object off the chain or inside its `__del__`, otherwise lowers its count by one in eight bits and frees it exactly at 0; with its whole cascade it loses no protected object and lowers the count of each object that stays exactly by the references given up from outside. |
| `Collector.GC.ObjDeinit` | src/PikaObj.c:161-233 | Freeing an object, container or not, with all cascades below it and cycles back to it. |
| `Collector.GC.ReleaseAll` | src/dataArgs.c:617-635 | All counted references of an object being freed are released, while a container is flagged as inside `__del__`. |
| `Collector.GC.RemoveGcChain` | src/PikaObj.c:2485-2498 | Exactly one object leaves the chain, the others stay in order. |
| `Collector.GC.PickUnmarked` | src/PikaObj.c:2285-2299 | The first 16 unmarked objects in the order of the chain are picked, or all of them when there are fewer. |
| `Collector.PickedExact` | src/PikaObj.c:2285-2299 | What is picked is on the chain and unmarked, and nothing is picked exactly when all objects are marked. |
| `Collector.GC.FreeAll` | src/PikaObj.c:2307-2310 | Each picked object is released once, also when an earlier release of the pass has freed it: counts of all objects that stay account for it exactly. |
| `Collector.GC.MarkSweepOnce` | src/PikaObj.c:2285-2312 | One pass keeps every protected object and the invariant, releases each of the first 16 unmarked objects once, and tells how many there were; if it picked a victim the sum of all counts went down. |
| `Collector.GC.MarkSweep` | src/PikaObj.c:2418-2439 | A collection ends, leaves only reachable objects, and tells 0 exactly when there was nothing to free. If each reachable object is a root or owned by a reachable one, all of them stay and each count goes down by exactly the references garbage held. With exact counts exactly the lasting objects stay, so all reachable objects stay if and only if that condition holds. |
| `Collector.WeakAlone` | src/PikaObj.c:2314-2360 | A heap with exact counts in which a reachable object has only a weak reference from a root and a reference from garbage fails the condition. |
| `Collector.LoseWeak` | src/PikaObj.c:2418-2439 | Collecting that heap takes the reachable object away. |
| `Collector.Uncovered` | src/PikaObj.c:2418-2439 | A reachable object whose counter does not exceed what unprotected objects hold on it, and that no unprotected reachable object owns, does not survive. |
| `Collector.WrapCounts` | src/dataArg.c:643-661 | A family of heaps whose counters are right modulo 256 while an object has a multiple of 256 references from a root. |
| `Collector.LoseWrapped` | src/PikaObj.c:2418-2439 | Collecting any of them takes the reachable object with the wrapped counter away. |
| `Bitmap.Set` | src/dataMemory.c:258-270 | Exactly the addressed bit changes. |
| `Bitmap.Get` | src/dataMemory.c:279-286 | The addressed bit. |
| `Bitmap.BitPlace` | src/dataMemory.c:258-286 | Bit `i` is bit `i % 8` of byte `i / 8`, from the least significant one on. |
| `Pool.BlockOfOffset` | src/dataMemory.c:93-98 | The ceiling division gives back the block index from a block's byte offset. |
| `Pool.FastPathTest` | src/dataMemory.c:161-170 | The 32-bit test of the fast path accepts exactly the requests that fit behind the used blocks, and those whose index arithmetic overflows. |
| `Pool.Pool.constructor` | src/dataMemory.c:104-115 | A new pool is empty and has as many blocks as the size needs, unless the size wraps in 32 bits. |
| `Pool.Pool.Search` | src/dataMemory.c:171-197 | The search from the first hint with its 0xFF byte skip finds the first free run, or none exists; the hint moves up soundly. |
| `Pool.Pool.Take` | src/dataMemory.c:206-217 | Marks exactly the blocks found and returns the address that maps back to their first block. |
| `Pool.Pool.Malloc` | src/dataMemory.c:160-217 | Fails if and only if no run of the needed number of free blocks exists; otherwise takes the run behind the used blocks if it fits there and the first free run if not, and changes nothing else. |
| `Pool.Pool.WalkBack` | src/dataMemory.c:232-242 | Lowers the second hint to just behind the last used block. |
| `Pool.Pool.Free` | src/dataMemory.c:219-245 | Frees exactly the blocks of a live allocation and restores both hints' meaning. |
| `Pool.Pool.AddressBlock` | src/dataMemory.c:123-130 | Block to address and back is the identity on the arena. |
| `Pool.Pool.InsideArena` | src/dataMemory.c:123-130 | The bytes of every live allocation lie inside the arena. |
| `Pool.Pool.DisjointBytes` | src/dataMemory.c:160-245 | The bytes of two live allocations never overlap. |
| `Runs.ScanUsed` | src/dataMemory.c:174-192 | A used block, or a whole skipped byte, rules out every start up to it. |
| `Runs.ScanFailed` | src/dataMemory.c:172-205 | A scan that ends without success means that no run exists at all. |
| `Runs.ReleaseUndoesAcquire` | src/dataMemory.c:160-245 | Freeing an allocation restores bitmap, live set and second hint. |
| `Mutex.StepInv` | src/PikaPlatform.c:955-1010 | Every atomic step of every thread keeps the invariant. |
| `Mutex.MutexSafe` | src/PikaPlatform.c:955-1010 | In every state of every run, with any number of threads: the calls decided so far are a history of a recursive lock, at most one thread is inside, the owner holds the platform mutex, and outside the hand-over steps `lock_times` is the owner's depth. |
| `Mutex.OwnerTestExact` | src/PikaPlatform.c:955-962 | The unprotected owner test is exact for the thread that makes it, a thread that gave back all it took holds nothing, and no thread waits for itself. |
| `Mutex.SafeIffNonZero` | src/PikaPlatform.c:721-736 | All runs are safe if and only if no thread has number 0, which the default `pika_platform_thread_self` returns. |
| `Mutex.Locks` | src/PikaPlatform.c:955-992 | Whenever the platform mutex is free, or the thread is inside already, `lock` and `trylock` can succeed by steps of that thread alone. |
| `Mutex.Fails` | src/PikaPlatform.c:961-969 | The platform call of a thread that is not inside can fail, and nothing is changed by it. |
| `Mutex.Unlocks` | src/PikaPlatform.c:994-1010 | A thread inside can unlock by its own steps; giving back its last lock frees the platform mutex. |
| `Mutex.Refuses` | src/PikaPlatform.c:994-997 | `unlock` by a thread that is not inside is refused. |
| `Mutex.Realized` | src/PikaPlatform.c:955-1010 | Every history of a recursive lock among the threads is decided by some run in which all calls have returned. |
| `Mutex.HistoriesExact` | src/PikaPlatform.c:955-1010 | A sequence of call results is what some run decides if and only if it is a history of a recursive lock among its threads. |
| `Filter.JudgeMeans` | src/PikaObj.c:1419-1502 | The verdict over the table: the first message at the front of the queue, else whether one can still come, else none. |
| `Filter.FullExact` | src/PikaObj.c:1448-1481 | On the bytes alone: a message stands at the front, or may still come, exactly when its bytes agree; if it allows any case, when each is equal or the other form of the same ASCII letter. |
| `Filter.FedKeeps` | src/PikaObj.c:1856-1889 | For any default and user tables and any input, pieces and pending bytes in order are the input, and the pending ones are fewer than the longest message has. |
| `Filter.StreamingIsBatch` | src/PikaObj.c:1856-1889 | With one table in which no message begins or lies inside another, byte-by-byte filtering equals the left-to-right split of the whole input. |
| `Filter.DefaultTable` | src/__default_filter_msg_table.h:47-48 | The default table is such a table and its longest message has 11 bytes. |
| `Filter.DefaultMessagesExact` | src/__default_filter_msg_table.h:47-48 | With the default table an input is taken out as one message if and only if it is `###Hi Pika` as written or `###bye pika` in any spelling. |
| `Filter.VisiblePassed` | src/PikaObj.c:1491-1496 | Visible messages are passed on: with no others in the tables no byte of any input is taken out. |
| `Filter.DecideMeans` | src/PikaObj.c:1508-1551 | The verdict of the two tables together, all three cases exactly: the first message at the front, the first table before the second; waiting exactly when a message of the first table may still come and the second, if there is one, waits too; otherwise a byte is dropped. |
| `Filter.RecognizedIff` | src/PikaObj.c:1508-1551 | With a user table, a hidden default message typed byte by byte is removed if and only if the user table waits at each of its beginnings too. |
| `Filter.SecondTableSpoils` | src/PikaObj.c:1508-1551 | With any user table in which no message begins with `#`, the greeting typed byte by byte is passed on, although the whole-input split removes it. |
| `Filter.TwoTablesIff` | src/PikaObj.c:1508-1551 | For two tables of hidden messages that do not begin or contain each other, byte-by-byte filtering equals the left-to-right split on every input if and only if the tables always wait together. |
| `Ring.ByteQueue.WriteOne` | src/dataQueue.c:203-226 | Adds at the end exactly when there is room; the peek position stays. |
| `Ring.ByteQueue.ReadOne` | src/dataQueue.c:119-149 | Removes the oldest byte and resets the peek position. |
| `Ring.ByteQueue.PeekOne` | src/dataQueue.c:151-177 | Returns the next byte behind the peek position and changes nothing else. |
| `Ring.ByteQueue.DropAllPeeked` | src/dataQueue.c:195-201 | Removes exactly the peeked bytes. |
| `Shell.Shell.Compare` | src/PikaObj.c:1444-1481 | The two comparison loops, letters folded only for a message that allows any case: full match, partial match or difference. |
| `Shell.Shell.MessageFilter` | src/PikaObj.c:1419-1502 | The loop over the table computes the verdict and leaves the matched bytes peeked. |
| `Shell.Shell.StreamFilter` | src/PikaObj.c:1508-1551 | The verdicts on both tables in their order, with the count of bytes to pass on and the removal of a hidden message. |
| `Shell.Shell.RunChar` | src/PikaObj.c:1853-1889 | A byte is never refused by a queue as long as the longest message, and everything received stays split as specified. |
| `Maker.PikaMaker.GetDependencies` | src/PikaCompiler.c:1078-1163 | By the files of each import that was not in the table: with `.py.o` it is entered as compiled, with `.py` and no `.py.o` as waiting whatever `.pyi` there is, with `.pyi` alone as a C module, with no file not at all; what was in the table is unchanged. |
| `Maker.PikaMaker.CompileModuleWithDepends` | src/PikaCompiler.c:1213-1241 | Ends on cyclic imports; compiles only needed modules, each at most once, the root first; on success none waits. |
| `Maker.ClosedWhenDone` | src/PikaCompiler.c:1213-1241 | When none waits, a source module imported by a compiled one was compiled. |
| `Maker.CompiledIsNeeded` | src/PikaCompiler.c:1213-1241 | From an empty maker, success means that exactly the modules that the root needs, through imports with a `.py` and no `.py.o` file, were compiled. |
| `Numbers.FastAtoi` | src/PikaObj.c:86-117 | The table walk computes the decimal value and stays within the ten rows of the table. |
| `Numbers.FastItoa` | src/PikaObj.c:132-159 | The text stays inside the buffer and is the decimal notation of the number, without a leading zero. |
| `Numbers.DecimalUnique` | src/PikaObj.c:132-159 | A text of digits without a leading zero is the decimal notation of its value. |
| `Numbers.ReadsDecimal` | src/PikaObj.c:100-117 | Every number is read from its decimal notation, with or without a sign. |
| `Numbers.WriteAndRead` | src/PikaObj.c:86-159 | Writing a 32-bit number and reading the text gives the number. |

## Left out

- Lexer, operator precedence and the string surgery that turns text into syntax trees: the model starts from trees and from indented lines of trees.
- Assembler text: the lines of `byteCodeFrame_appendFromAsm` are modelled already split into depth, instruction and operand; an operand that ends in a carriage return would lose it.
- `try`, `except`, `raise`, `assert`, `global`: the handler state is one flag shared by nested handlers. An error ends the frame in the model, as it does outside a handler.
- Function and class definitions, argument binding, `super`, imports at run time: a call is one step of the abstract world.
- Several targets in one `for`, and comprehensions.
- Aliasing of list objects while a literal is built: a list register holds the sequence of values, which becomes an object at NLS.
- The byte layout of the operand stack, the argument cache, hashing of names, breakpoints, signals and the event queue.
- Compiler.ExitText: the closing code of `try`, `def` and `class` blocks is not modelled.
- Compiler.HeadText: `try`, `except`, `def` and `class` lines and `for` with several targets are not modelled.
- Frame.VMFrame.RunInstructUnit: the jump to an exception handler, breakpoints and the exit signal are not modelled.
- Frame.VMFrame.Run: hooks, yielding to other threads and the printing of errors are not modelled.
- Compiler.LineCompiler.CompileLine: docstring lines are not modelled, nor is a line indented less than the first line of the file; the program text of a block tree has none.
- Image.ByteCodeFrame.AppendFromAsm: operands of 65535 bytes or more, whose 16-bit size would be cut, are not modelled.
- Archive.LoadModuleData: an archive with what follows it has less than 4 GiB.
- Archive.PikaLinker.WriteIndex: the replacement of every `|` in a held name by `.` comes before the model; names are the replaced ones.
- Archive.PikaLinker.LinkFile: archives of 4 GiB and more and names of 64 KiB and more, which the 32-bit and 16-bit fields cannot describe, are not modelled.
- User-defined `__del__` methods; only the native ones of lists, tuples and dicts, which release the contents, are.
- Collector.GC.ObjDeinit: releasing a loop register also clears the root flag of its target in the C code; in the model an object stays a root.
- Collector.GC.RemoveGcChain: the linked chain is a sequence, without its pointers.
- Collector.GC.MarkSweep: once a reachable object is lost, the next marking of the C code follows a dangling pointer; the model goes on as if the freed object were still readable.
- Pool.Pool.Malloc: a request whose index arithmetic overflows 32 bits writes outside the bitmap and is not modelled; the second test of the fast path after the search cannot succeed and has no branch.
- Pool.Pool.Free: freeing something that is not a live allocation is not modelled.
- Mutex.MutexSafe: `lock_times` is unbounded, and a platform mutex that is unlocked by its holder is free afterwards.
- Shell.Shell.Compare: message bytes are compared as unsigned; where `char` is signed, bytes of 128 and more in a case-insensitive message never match in the C code. The default messages are ASCII.
- Shell.Shell.MessageFilter: ignore masks and handlers that refuse a message are not modelled.
- Shell.Shell.RunChar: a line editor that ends the shell in the middle of a delivery is not modelled.
- Maker.PikaMaker.GetDependencies: dotted module names, module names equal to the maker's own keys and a working directory other than the current one are not modelled; with another directory a `.py.o` module would be recorded under its path.
- Numbers.FastAtoi: an empty text, on which the C code reads in front of the string, and characters other than digits are not modelled.
- Floating point, formatted printing, file handling, terminal, REPL display, thread and timer wrappers.
