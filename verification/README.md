# AiLang native toolchain: verified model

This project models the core of the AiLang native toolchain and proves what it is there for:

- **Compiler and virtual machine.** The source compiler appends bytecode, patches forward jumps, keeps
  break and continue sites per loop, reuses slots per scope and walks a call-fixup list that grows while it
  is walked. The machine runs that bytecode with a value stack, call frames and frame-relative locals, and
  finds a callee's arity by counting STORE_LOCAL instructions. The main result is that a compiled and linked
  program computes what its source means, whatever the source does: a value, a fault, or no end.
- **Node heap.** Nodes, attributes and children live in three flat arrays; a mark-and-slide collector renames
  every handle. The main results are that collection is exact, that a run on the bounded collecting heap
  simulates the same run on an unbounded heap that never collects exactly as long as no instruction holds a
  handle whose name a collection changes, that what the node instructions build reads back as it was given,
  that a call gives its caller back its locals up to such names, whatever bytecode runs in between, and that
  compiled code never brings a stale local back into view.
- **AiBC1 files.** The writer and the checked loader undo each other.
- **Completed tasks, remote protocol, UTF-8 slicing, tree dump.** Invariants over all runs, round trips,
  independence of how a byte stream is cut, and unique decodability.

## How the proof is laid out

| part | modules |
|---|---|
| values, opcodes, one VM step as a function | `Values`, `Bytecode`, `Machine` |
| source trees, compile-time checks, big-step meaning with fuel | `Source` |
| code with every address known in advance | `Layout` |
| the compiler, appending and patching, proved to produce that code | `Emission`, `Linking`, `Compiler` |
| forward simulation of source by machine | `Steps`, `Entry`, `Simulation`, `Adequacy`, `Jumps`, `Repeated` |
| when a source run has a meaning at all | `Meaningful` |
| the VM over arrays, proved against `Machine` | `Vm` |
| frames and locals on arbitrary bytecode, collections included | `Renaming`, `Isolation`, `HeapMoves` |
| what the compiler makes can be stored; compile, store, load, run | `Build`, `EndToEnd` |
| heap as a graph: reachability, sliding, collection, allocation, instructions | `Graph`, `Heap`, `HeapOps` |
| refinement of the unbounded heap; handles held by an instruction; whole runs | `Refinement`, `Gathering`, `HeapRuns` |
| what the node instructions make and read | `NodeLaws` |
| start-up and the argv root; a run that loses a box | `Argv`, `Boxing` |
| slots of compiled code; the heap under a run of a linked program | `Levels`, `Gaps`, `Mirrors` |
| the collector over flat arrays, proved against `Heap` and `HeapOps` | `Flat`, `Marking`, `Collector` |
| AiBC1 format; the writer and loader loops | `Aibc1`, `ProgramFile` |
| task table | `Tasks` |
| messages, session, frames, stream | `RemoteCodec`, `FrameBuffer`, `RemoteSession`, `WebSocket`, `WsStream` |
| text | `Utf8`, `AstDump` |

An operation that changes state in the source is a class or array method proved equal to a specification
function; the properties are lemmas about the specification function. Every method contract below says
which function its new state is; every lemma says what that function is worth.

Conventions:

- A source run is `Done`, `Wrong` (an operand of the wrong type, or a sum outside 64 bits), `Timeout` (cut off by the
  fuel) or `Stuck` (a name read before it is bound, a function that ends without Return). Correctness is stated for the
  first three; `Meaningful.NeverStuck` says which programs are never stuck.
- An entry function with one parameter is called on the host's argument list, an uninterpreted value `argv`;
  one with more parameters fails at the boot call (`Adequacy.BootFails`).
- A machine run is allowed to stop early only for a full stack, a full frame array, a full locals array or a
  string arena without room (`StoppedByLimit`). The arena is a number `spare`: so many concatenations find room
  and the next one does not. The results hold for every `spare`.
- `Linkable` collects what the compiler needs to succeed, for the functions the entry reaches: they are well formed,
  their instructions fit the code table, and their literals and calls the constant pool and the fixup table.

## Findings

- The argument check at startup (`src/AiVM.Core/native/aivm_vm.c:2881-2884`) lets up to 512 arguments pass,
  but startup fails from 384 arguments on: the item that fills three quarters of the node table triggers a
  collection while the root still names items that do not exist yet (`Argv.InitExact`, `Argv.ArgvStuck`).
- A function with two parameters of the same name compiles, and every call to it fails in the VM's layout
  check (`Entry.LayoutExact`, `Repeated.CallExact`). `Repeated.ProgramFails` is a program of two functions that
  links and has a value, and whose machine always stops at the call. The check's other condition, at most 64
  parameters, never bites: a compiled call carries at most 32 arguments, and the boot call at most one.
- An entry with two or more parameters compiles, and the program always fails at its boot call, where only the
  argument list is on the stack (`Adequacy.BootFails`).
- The prologue of a function with two or more parameters stores the last argument first, so its first store opens
  slots that hold stale values until the next stores fill them. No other store of compiled code does that
  (`Gaps.NoGaps`).
- MAKE_MAP and MAKE_NODE box plain operands one after another and keep the handles in C locals, where a
  collection does not see them. The instruction agrees with the unbounded heap, or reports memory pressure,
  exactly if no collection on the way changes the name of a held handle and MAKE_NODE's template slot still
  reads the same (`HeapRuns.StepExact`); on node operands, which is all the Map compiler emits, that always
  holds (`HeapRuns.NodesSteady`). `Boxing.MapLost` is a run from start-up on which it fails: 382 dropped
  blocks, then MAKE_MAP on the integers 1 and 2 leaves a map whose second child names nothing.
- The server's WebSocket frames read back exactly up to 65535 bytes of payload; the encoder accepts 65536 and
  writes length 0 (`WebSocket.ServerRound`).

## Model

| member | source | states |
|---|---|---|
| EndToEnd.CompileAndRun | src/AiCLI/native/airun.c:6935-6952 | Compile, link and run for at most `budget` steps with `argv` as the host's argument list and any room in the string arena. What is shown is the status and the stack of the linked program's run from a fresh machine, cut off only by the budget. A halted machine holds exactly the source value; a source not finished with that fuel never shows a halted machine; a failed machine reports the very fault the source runs into, or has run into a limit, unless the source is stuck; whatever value or fault the source ends with, from some number of steps on the machine has halted with that value or failed with that fault, or run into a limit. An entry with two or more parameters fails. Linkable programs always compile. |
| EndToEnd.BuildLoadAndRun | src/AiCLI/native/airun.c:8437-8445 | The same, all of it, by way of a program file: neither writer nor loader refuses what the compiler made. |
| EndToEnd.SourceEnds | src/AiVM.Core/native/aivm_vm.c:4747-4763 | A source that ends in a value or a fault has a step bound from which on its linked program has halted with the value alone on the stack or failed with that fault, or has run into a limit. |
| EndToEnd.EnoughBudget | src/AiVM.Core/native/aivm_vm.c:4747-4763 | A result shown with a budget beyond that bound is the final one. |
| Build.LinkedPortable | src/AiCLI/native/airun.c:6852-6933 | Whatever links is within the limits of the file format: operands fit 64 bits, constants are text or null, tables and text fit the store. |
| Simulation.SimExpr | src/AiCLI/native/airun.c:6284-6521 | Forward simulation of expressions: from a state whose locals hold the environment, the VM reaches the end of the expression code with exactly the value pushed and nothing else of stack, frames or visible locals changed, or fails with the fault the expression has, or stops at a limit; an unfinished evaluation keeps the VM running at least as many steps as fuel. |
| Simulation.SimExprs | src/AiCLI/native/airun.c:6198-6208 | Arguments are evaluated left to right onto the stack, one value each. |
| Simulation.SimConcat | src/AiCLI/native/airun.c:6299-6314 | A StrConcat node folds its parts to the left, one STR_CONCAT behind each part but the first. |
| Simulation.SimIf | src/AiCLI/native/airun.c:6246-6282 | An If expression runs its condition and exactly one arm, and both arms end at the same address with one value. |
| Simulation.SimCall | src/AiCLI/native/airun.c:6145-6245 | A compiled call leaves exactly the callee's source value in place of its arguments. |
| Simulation.SimBody | src/AiVM.Core/native/aivm_vm.c:3468-3553 | CALL to RETURN, recursion included: the VM comes back to the instruction behind the CALL with the value at the frame base and the caller's frames and locals untouched; a callee that never returns keeps the VM in the call. |
| Simulation.SimStmt | src/AiCLI/native/airun.c:6632-6734 | Forward simulation of statements: net stack effect 0, locals hold the new environment; Break lands behind its own loop, Continue at its start, Return in the caller. |
| Simulation.SimList | src/AiCLI/native/airun.c:6736-6774 | A block runs its statements in order, leaving its scope with the outer names only; the code dropped behind a returning statement is never needed. |
| Simulation.SimLoop | src/AiCLI/native/airun.c:6577-6630 | A Loop repeats its body until Break or Return, through any number of rounds. |
| Simulation.SimIfStmt | src/AiCLI/native/airun.c:6523-6576 | An If statement runs exactly one branch in its own scope. |
| Steps.NoFallThrough | src/AiCLI/native/airun.c:6632-6734 | A statement the compiler marks as returning never ends normally in the source. |
| Steps.ListNoFallThrough | src/AiCLI/native/airun.c:6736-6774 | Nor does a block: dropping what follows it is sound. |
| Steps.KeysGrow | src/AiCLI/native/airun.c:6092-6124 | Let assigns a visible name or declares one in this scope; no statement forgets a visible name. |
| Steps.ReturnStep | src/AiVM.Core/native/aivm_vm.c:141-177 | The return-restore check passes on a compiled Return: one operand above the frame base, frame popped, locals count restored. |
| Entry.ArityAgreement | src/AiVM.Core/native/aivm_vm.c:3198-3288 | At every linked function the VM infers the declared parameter count and accepts the layout. |
| Entry.LayoutExact | src/AiVM.Core/native/aivm_vm.c:3219-3288 | The inferred count is the declared one for every compiled function, and the layout check accepts exactly if the names are distinct and at most 64. |
| Repeated.CallExact | src/AiVM.Core/native/aivm_vm.c:3468-3501 | A call of a compiled function with its operands on the stack enters the frame exactly if the parameter names are distinct and at most 64, and is an invalid program otherwise. |
| Repeated.ProgramLinks | src/AiCLI/native/airun.c:6814-6819 | A program whose main calls f(1, 2) with f's parameters both named x meets everything the compiler asks for. |
| Repeated.ProgramMeans | src/AiCLI/native/airun.c:6814-6819 | Its source has a value: the second binding of x counts. |
| Repeated.ProgramFails | src/AiVM.Core/native/aivm_vm.c:3252-3288 | However it was linked, the machine fails at that call. |
| Entry.FirstOfList | src/AiCLI/native/airun.c:6820-6838 | No compiled body begins with STORE_LOCAL. |
| Entry.BehindPrologue | src/AiCLI/native/airun.c:6820-6838 | The run of STORE_LOCALs at an entry ends with the prologue. |
| Entry.RunPrologue | src/AiCLI/native/airun.c:6820-6826 | The reversed prologue pops the arguments into the parameters' slots, first argument to first parameter. |
| Entry.EnterBody | src/AiCLI/native/airun.c:6814-6826 | Behind the prologue the locals hold exactly the parameters bound to the arguments. |
| Adequacy.ProgramRun | src/AiCLI/native/airun.c:6882-6906 | From a fresh machine the boot code runs the entry, on the argument list if it takes one parameter, and halts with its value alone on the stack, or fails with its fault, or a limit is reported, or the run is still going after more steps than the fuel. |
| Adequacy.BootRun | src/AiCLI/native/airun.c:6882-6901 | The boot code reaches the entry call with the argument list on the stack exactly if the entry has parameters. |
| Adequacy.BootFails | src/AiVM.Core/native/aivm_vm.c:3480-3484 | An entry with two or more parameters always fails at its boot call, on stack depth. |
| Adequacy.MachineToSource | src/AiCLI/native/airun.c:6935-6952 | Converse: if the machine halts within n steps, the source finishes with fuel n and its value is the one on the stack, unless it is stuck. |
| Adequacy.FailsAsSource | src/AiVM.Core/native/aivm_vm.c:4747-4763 | A machine that fails, the source not being stuck, has run into the stack, frame, locals or string arena limit, or reports the fault that the source runs into: TypeMismatch for an operand of the wrong type, UndefinedArithmetic for a sum outside 64 bits. |
| Adequacy.Diverges | src/AiVM.Core/native/aivm_vm.c:4747-4763 | A source that is never finished keeps the machine running for any number of steps unless a limit stops it. |
| Meaningful.NeverStuck | src/AiCLI/native/airun.c:6632-6665 | If every function the entry reaches always returns, and no Let reads the name it declares, the source is never stuck: it has a value, a fault, or no end. |
| Meaningful.RunMeans | src/AiVM.Core/native/aivm_vm.c:4747-4763 | Every run of such a program, at any moment, is still going, has run into a limit, has halted with the source's value, or has failed with the source's fault. |
| Adequacy.FuelMonotone | src/AiCLI/native/airun.c:6776-6850 | More fuel never changes an answer already found, so the value of a call is unique. |
| Adequacy.LinkedImage | src/AiCLI/native/airun.c:6852-6933 | What linking promises is what the simulation needs: every reached function placed at its entry, constants and call operands resolved, boot code in front. |
| Machine.RunCompose | src/AiVM.Core/native/aivm_vm.c:4747-4763 | Running m+n steps is running m and then n. |
| Machine.StoppedStays | src/AiVM.Core/native/aivm_vm.c:3290-3322 | A stopped machine does not move. |
| Machine.EqIntLaw | src/AiVM.Core/native/aivm_vm.c:3555-3588 | On integers EQ_INT is EQ; on anything else it is a type error. |
| Machine.CallExact | src/AiVM.Core/native/aivm_vm.c:3468-3501 | A call enters a frame exactly if its target, its operands, its layout and the top frame are in order and a frame is free; anything else is the error that applies and changes nothing. |
| Machine.ReturnExact | src/AiVM.Core/native/aivm_vm.c:3503-3553 | A return succeeds exactly if it goes back into the code, leaves at most one value above the frame's operands and finds both frames sound. |
| Machine.StoreExact | src/AiVM.Core/native/aivm_vm.c:3353-3370 | STORE_LOCAL in full, errors included. |
| Machine.LoadExact | src/AiVM.Core/native/aivm_vm.c:3372-3394 | LOAD_LOCAL in full, errors included. |
| Machine.SysExact | src/AiVM.Core/native/aivm_vm.c:1328-1365 | The system call that fetches the argument list, and the errors of CALL_SYS in front of the dispatch. |
| Machine.JumpExact | src/AiVM.Core/native/aivm_vm.c:3416-3458 | The jumps in full: a target just behind the code is allowed, and only truth values are tested. |
| Machine.Underflow | src/AiVM.Core/native/aivm_vm.c:3067-3081 | Too few operands are reported as such, and none is taken. |
| Machine.PlainOps | src/AiVM.Core/native/aivm_vm.c:3323-3333 | RET is RETURN, NOP does nothing, HALT halts, STUB is an invalid opcode. |
| Layout.PlacedSplit | src/AiCLI/native/airun.c:6852-6933 | Code is in place exactly if both halves are, each at its own address. |
| Jumps.FnJumps | src/AiCLI/native/airun.c:6776-6850 | Every jump of a compiled function, however nested its loops and ifs, lands inside the function or just behind it; slots are no larger than the code and literals fit their instruction. |
| Jumps.ListJumps | src/AiCLI/native/airun.c:6669-6704 | The same for any block, given where its loop's break and continue go. |
| Emission.EmittedAppend | src/AiCLI/native/airun.c:5203-5217 | Two stretches emitted one behind the other, with all jump sites still owed, make one stretch of the joined code. |
| Emission.BranchEmitted | src/AiCLI/native/airun.c:6523-6576 | Patching the two forward jumps of a branch gives the code that knew both addresses from the start. |
| Emission.LoopClosed | src/AiCLI/native/airun.c:6577-6630 | Patching a loop's break sites gives the code that knew the loop's end from the start, settles exactly that loop's sites and leaves outer loops' sites open. |
| Linking.FnCallSyms | src/AiCLI/native/airun.c:6225-6235 | The calls in a function's code are exactly the calls in its source that are compiled. |
| Linking.TiledAppend | src/AiCLI/native/airun.c:6776-6850 | Functions are compiled at most once, into disjoint stretches that tile the code behind the boot. |
| Linking.ReachesClosed | src/AiCLI/native/airun.c:6908-6923 | The functions reachable from the entry are the least set closed under compiled calls. |
| Linking.LinkageGrows | src/AiCLI/native/airun.c:6776-6850 | Compiling one more function keeps the link invariant: every CALL is either patched to its target's entry or on the fixup list, once. |
| Linking.LinkagePatch | src/AiCLI/native/airun.c:6908-6923 | Patching one fixup keeps it and resolves that call. |
| Linking.LinkageDone | src/AiCLI/native/airun.c:6908-6923 | Once the list is used up every CALL operand is its target's entry, and exactly the reachable functions are compiled. |
| Compiler.Compiler.Emit | src/AiCLI/native/airun.c:5203-5217 | Appends one instruction, or fails exactly when the table is full. |
| Compiler.Compiler.AddString | src/AiCLI/native/airun.c:5242-5275 | Finds or adds a pooled string: the first constant with that text. |
| Compiler.Compiler.Lookup | src/AiCLI/native/airun.c:6092-6124 | Finds a name's slot exactly if the name is visible. |
| Compiler.Compiler.LookupOrCreate | src/AiCLI/native/airun.c:6092-6124 | A missing name gets the next slot; fails only when the table is full. |
| Compiler.Compiler.CompileExpr | src/AiCLI/native/airun.c:6284-6521 | Succeeds on well-formed expressions with room, only on well-formed ones, and then has appended exactly the directly emitted code. |
| Compiler.Compiler.CompileConcat | src/AiCLI/native/airun.c:6299-6314 | The same for StrConcat, an empty one being refused. |
| Compiler.Compiler.CompileIf | src/AiCLI/native/airun.c:6246-6282 | The same for If: both placeholders patched. |
| Compiler.Compiler.CompileCall | src/AiCLI/native/airun.c:6145-6245 | The same for a call; the CALL is owed a fixup. |
| Compiler.Compiler.CompileArgs | src/AiCLI/native/airun.c:6198-6224 | Argument count is exact and at most 32. |
| Compiler.Compiler.EmitCall | src/AiCLI/native/airun.c:6225-6235 | One CALL and one fixup naming its target. |
| Compiler.Compiler.CompileStmt | src/AiCLI/native/airun.c:6632-6734 | The same for statements; `didReturn` is exactly the syntactic property the simulation uses, the locals table is that of the scope afterwards. |
| Compiler.Compiler.CompileBlock | src/AiCLI/native/airun.c:6736-6774 | The same for blocks; the locals table is restored, statements behind a returning one are neither checked nor compiled. |
| Compiler.Compiler.CompileIfStmt | src/AiCLI/native/airun.c:6523-6576 | The same for If statements. |
| Compiler.Compiler.CompileLoop | src/AiCLI/native/airun.c:6577-6630 | The same for loops: no placeholder of this loop survives. |
| Compiler.Compiler.CompileJump | src/AiCLI/native/airun.c:6669-6704 | Break and Continue are refused outside a loop and owed to the innermost one inside. |
| Compiler.Compiler.PatchSites | src/AiCLI/native/airun.c:6618-6623 | Sets the operand of every listed site and nothing else. |
| Compiler.Compiler.CompileFn | src/AiCLI/native/airun.c:6776-6850 | Compiles a function body once, at the end of the code, and records its entry. |
| Compiler.Compiler.AllocateParams | src/AiCLI/native/airun.c:6814-6819 | Parameters get slots in order, a repeated name the slot it already has. |
| Compiler.Compiler.EmitPrologue | src/AiCLI/native/airun.c:6820-6826 | Stores in reverse parameter order. |
| Compiler.Compiler.Link | src/AiCLI/native/airun.c:6852-6933 | Terminates; on success the code is the boot followed by every function reachable from the entry, each exactly once, all calls resolved; succeeds on every linkable program. |
| Compiler.Compiler.EmitBoot | src/AiCLI/native/airun.c:6882-6906 | CALL entry, HALT, in front of them the argv call if the entry has parameters. |
| Compiler.Compiler.ResolveFixups | src/AiCLI/native/airun.c:6908-6923 | Walks the fixup list while it grows; ends because a step either compiles a function or uses up a fixup. |
| Compiler.Compiler.ResolveFixup | src/AiCLI/native/airun.c:6908-6923 | One round: the number of uncompiled functions drops, or the list stays as long and one fixup is done. |
| Compiler.Compiler.CompileTarget | src/AiCLI/native/airun.c:6913-6917 | Compiles a target not compiled before. |
| Compiler.Compiler.PatchCall | src/AiCLI/native/airun.c:6921-6922 | Sets one CALL operand. |
| Isolation.StaysFramed | src/AiVM.Core/native/aivm_vm.c:3083-3196 | On every run of any bytecode, all opcodes, nested ASYNC_CALLs and collections included, that starts within the limits: every state stays within the stack, frame and locals limits, frame bases are non-decreasing and at most the locals count. |
| Isolation.StepFrames | src/AiVM.Core/native/aivm_vm.c:3290-3607 | A step of the control fragment keeps the frames, pushes one, or pops one, and writes locals only at or above the top frame's base. |
| Isolation.MoveFrames | src/AiVM.Core/native/aivm_vm.c:3290-4745 | So does every move of any opcode, except that an opcode that allocates may rename the node handles in all active locals by one injective map; and a move from within the limits ends within them. |
| Isolation.CallRestores | src/AiVM.Core/native/aivm_vm.c:3468-3553 | From a CALL or ASYNC_CALL to the RETURN that closes its frame, whatever bytecode runs in between, the caller's frames and locals count come back exactly and its locals up to one injective renaming of nodes, the composition of what the collections on the way did. |
| Isolation.AsyncFrames | src/AiVM.Core/native/aivm_vm.c:1984-2021 | ASYNC_CALL enters its callee as CALL does: one frame based at the locals count, or an error with frames and locals as they were. |
| Isolation.StepMoves | src/AiVM.Core/native/aivm_vm.c:3290-4745 | Every step the machine model gives a meaning to is such a move. |
| HeapMoves.HeapEffect | src/AiVM.Core/native/aivm_vm.c:4153-4733 | Every node instruction, boxing and collections included, on any heap, dangling handles or not, does to operands and active locals what a move allows: no push goes unchecked, the locals are renamed by one injective map, and the slots behind them are left alone. |
| HeapMoves.StepAlike | src/AiVM.Core/native/aivm_vm.c:2512-2559 | The locals before and after a node instruction are the same up to an injective renaming, wherever collections fall, on any heap. |
| HeapMoves.CollectAlike | src/AiVM.Core/native/aivm_vm.c:2518-2523 | On the handles in the locals the handle map of any collection that goes through is injective. |
| Levels.ListFlows | src/AiCLI/native/airun.c:6524-6798 | In a compiled block every instruction has a level, the number of locals sure to be active: no store goes beyond it, no jump or fall-through leads to a higher one, and code behind a return is dead. |
| Levels.FnFlows | src/AiCLI/native/airun.c:6814-6844 | The same for a function: its body starts on the level of its parameters, and nothing live leads into a prologue or past the end. |
| Gaps.RunTracked | src/AiVM.Core/native/aivm_vm.c:3083-3138 | On every run of a linked program each frame belongs to a compiled function and returns to a live place of the one below it, with the locals its level asks for. |
| Gaps.NoGaps | src/AiCLI/native/airun.c:6814-6826 | No stale local comes into view: on every run of a linked program a store skips a slot only as the first of a prologue of two or more parameters, with all arguments on the stack. |
| Mirrors.StepMirrors | src/AiVM.Core/native/aivm_vm.c:3290-3607 | Any step of the machine but a store that skips a slot is a short list of heap instructions, leading to exactly the new operands and active locals and touching no node. |
| Mirrors.PrologueEnters | src/AiCLI/native/airun.c:6821-6826 | A whole prologue is one such instruction, from the state behind the CALL to the start of the body. |
| Mirrors.ReturnLeaves | src/AiVM.Core/native/aivm_vm.c:3503-3553 | So is a return. |
| Mirrors.HeapFollows | src/AiVM.Core/native/aivm_vm.c:2499-2559 | On every run of a linked program, at every step that is not inside a prologue, the heap has followed the machine by such instructions: its roots are exactly the machine's operands and active locals, every node among them exists, and the argument list is at handle 1. |
| Vm.Vm.constructor | src/AiVM.Core/native/aivm_vm.c:2996-3008 | A fresh machine: empty stack, frames and locals. |
| Vm.Vm.EnsureStack | src/AiVM.Core/native/aivm_vm.c:450-459 | Grows the soft limit step by step; fails exactly beyond the capacity. |
| Vm.Vm.EnsureFrames | src/AiVM.Core/native/aivm_vm.c:461-470 | The same for frames. |
| Vm.Vm.EnsureLocals | src/AiVM.Core/native/aivm_vm.c:472-481 | The same for locals. |
| Vm.Vm.Push | src/AiVM.Core/native/aivm_vm.c:3049-3065 | Pushes, or overflows exactly at 4096 values. |
| Vm.Vm.Pop | src/AiVM.Core/native/aivm_vm.c:3067-3081 | Pops, or underflows exactly on an empty stack. |
| Vm.Vm.CheckState | src/AiVM.Core/native/aivm_vm.c:60-105 | Holds exactly if the top frame's bases are within the counts. |
| Vm.Vm.FramePush | src/AiVM.Core/native/aivm_vm.c:3083-3108 | Pushes a frame whose locals base is the locals count. |
| Vm.Vm.LocalSet | src/AiVM.Core/native/aivm_vm.c:3132-3162 | Writes one slot relative to the top frame, raising the locals count only if needed. |
| Vm.Vm.LocalGet | src/AiVM.Core/native/aivm_vm.c:3164-3196 | Reads a slot below the locals count, fails exactly otherwise. |
| Vm.Vm.InferArgCount | src/AiVM.Core/native/aivm_vm.c:3198-3216 | Length of the maximal run of STORE_LOCALs at the target. |
| Vm.Vm.CheckLayout | src/AiVM.Core/native/aivm_vm.c:3218-3288 | Accepts exactly non-negative, pairwise different slots, at most 64. |
| Vm.Vm.StepCallOp | src/AiVM.Core/native/aivm_vm.c:3468-3501 | CALL, with all of its failure branches. |
| Vm.Vm.StepReturnOp | src/AiVM.Core/native/aivm_vm.c:3503-3553 | RET and RETURN, with the restore check. |
| Vm.Vm.StepSys | src/AiVM.Core/native/aivm_vm.c:1328-1365 | CALL_SYS: arguments popped, then the target; every error of the pops, and the argument list for the boot call. |
| Vm.Vm.StepBinary | src/AiVM.Core/native/aivm_vm.c:3396-3414 | ADD_INT, EQ_INT, EQ and STR_CONCAT: two operands popped and the result pushed, or the operand, range, stack or arena error. |
| Vm.Vm.Step | src/AiVM.Core/native/aivm_vm.c:3290-3607 | One step over the arrays is one step of the abstract machine; of a failed machine only the error is compared. |
| Vm.Vm.RunFor | src/AiVM.Core/native/aivm_vm.c:4747-4763 | n steps; the arrays end as the abstract run does. |
| Vm.GrowLimit | src/AiVM.Core/native/aivm_vm.c:438-448 | The next soft limit is larger and within the capacity. |
| Graph.ReachableClosed | src/AiVM.Core/native/aivm_vm.c:2195-2294 | Anything closed under children that contains the starts contains every reachable node. |
| Graph.NewHandleOrder | src/AiVM.Core/native/aivm_vm.c:2410-2422 | The handle map is an order-preserving dense rank: live handles map into 1..survivors, distinct stay distinct, order is kept. |
| Graph.SlideAt | src/AiVM.Core/native/aivm_vm.c:2424-2499 | The node at map[h] has the kind, id and attributes of live node h and the renamed children in the same order. |
| Graph.SlideReaches | src/AiVM.Core/native/aivm_vm.c:2374-2564 | What was reachable is reachable under its new name. |
| Graph.SlideAllLive | src/AiVM.Core/native/aivm_vm.c:2374-2564 | Nothing but reachable nodes is left after sliding. |
| Graph.SlideIdentity | src/AiVM.Core/native/aivm_vm.c:2374-2564 | Sliding a heap without garbage changes nothing. |
| Graph.LiveChildren | src/AiVM.Core/native/aivm_vm.c:2269-2291 | Survivors only have surviving children. |
| Heap.CollectSound | src/AiVM.Core/native/aivm_vm.c:2374-2564 | On a sound heap compaction never errs, leaves a sound heap, and incoming children are still in range. |
| Heap.CollectExact | src/AiVM.Core/native/aivm_vm.c:2195-2294 | Survivors are exactly what the renamed roots and incoming children reach. |
| Heap.CollectTwice | src/AiVM.Core/native/aivm_vm.c:2374-2564 | A second compaction is the identity on nodes, roots and incoming children. |
| Heap.CreateExact | src/AiVM.Core/native/aivm_vm.c:2620-2757 | On a sound heap allocation fails if and only if the live nodes, attributes or children plus the new record exceed a capacity, the error is then memory pressure (AIVMM005), and otherwise the heap stays sound with the new node last. |
| Heap.PlaceExact | src/AiVM.Core/native/aivm_vm.c:2654-2756 | The same for the part behind the pressure check. |
| Heap.NoCollection | src/AiVM.Core/native/aivm_vm.c:2588-2618 | With room for the record, and fewer than 64 allocations since the last collection or all tables below three quarters, creation appends and no handle changes. |
| Heap.Collection | src/AiVM.Core/native/aivm_vm.c:2588-2757 | From 64 allocations and three quarters of a table on it collects first, even if the record would fit: everything left is reachable, and the count starts again. |
| Refinement.CollectRelated | src/AiVM.Core/native/aivm_vm.c:2374-2564 | Collecting keeps the simulation by the unbounded heap, under the injection restricted to the survivors. |
| Refinement.CreateRelated | src/AiVM.Core/native/aivm_vm.c:2620-2757 | Allocation, with zero, one or two collections, corresponds to appending on the unbounded heap. |
| Refinement.EqualRelated | src/AiVM.Core/native/aivm_vm.c:3575-3588 | EQ on nodes gives the same answer on both heaps. |
| Refinement.EvalRelated | src/AiVM.Core/native/aivm_vm.c:4153-4733 | Each instruction asks the same of both heaps, up to renaming, and fails with the same error; all roots and pinned handles are renamed alike. |
| Refinement.BoxRelated | src/AiVM.Core/native/aivm_vm.c:4643-4677 | MAKE_FIELD_STRING and APPEND_CHILD on a plain value: box and user of the box correspond. |
| Gathering.BoxAllHeld | src/AiVM.Core/native/aivm_vm.c:4700-4718 | Popping and boxing the operands: each held handle either still names its node, or never will again, and all of them do exactly if no collection on the way changed the name of one. |
| Gathering.JudgeKept | src/AiVM.Core/native/aivm_vm.c:2410-2422 | What one collection makes of a held handle: it stays good exactly if the handle map leaves it in place. |
| Gathering.OnlyGood | src/AiVM.Core/native/aivm_vm.c:4719-4726 | If any renaming makes the children of the finished node come out right, every held handle was good: stale handles never agree by accident. |
| Gathering.GatheredExact | src/AiVM.Core/native/aivm_vm.c:4552-4733 | MAKE_MAP and MAKE_NODE on any operands agree with the unbounded heap, or report memory pressure, if and only if no held handle changes its name on the way and the template slot still reads the same. |
| HeapRuns.StepRelated | src/AiVM.Core/native/aivm_vm.c:4153-4733 | One steady instruction on the collecting heap simulates the same instruction on the unbounded heap, or reports memory pressure; prologues, returns and the fetch of the argument list are instructions too. |
| HeapRuns.StepExact | src/AiVM.Core/native/aivm_vm.c:4153-4733 | And only a steady one does. |
| HeapRuns.NodesSteady | src/AiCLI/native/airun.c:6333-6352 | Instructions on node operands, all that compiled maps use, are steady. |
| HeapRuns.RoomySteady | src/AiVM.Core/native/aivm_vm.c:2607-2757 | An instruction is steady if there is room for the boxes of its plain operands without a collection, as read off the counts beforehand. |
| HeapRuns.RunRelated | src/AiVM.Core/native/aivm_vm.c:4153-4733 | Every steady run, calls and returns included, is the run of the unbounded heap, up to an injective handle renaming of stack, locals, tasks, parallel values and pinned handles, wherever collections fall. |
| NodeLaws.ReadRecord | src/AiVM.Core/native/aivm_vm.c:4153-4349 | NODE_KIND, NODE_ID, the counts, the five attribute readers at every index, in range or not, and CHILD_AT read exactly the record of the node. |
| NodeLaws.BlockLaw | src/AiVM.Core/native/aivm_vm.c:4351-4373 | On any sound heap, whatever is collected: MAKE_BLOCK on an id makes a node that reads as a Block of that id without attributes and children, leaves everything else what it was up to one injective renaming, or reports memory pressure. |
| NodeLaws.AppendLaw | src/AiVM.Core/native/aivm_vm.c:4375-4455 | APPEND_CHILD makes a node that reads as the base does, with the child behind the base's children. |
| NodeLaws.ErrLaw | src/AiVM.Core/native/aivm_vm.c:4457-4498 | MAKE_ERR: code, message and node id read back as identifier, text and identifier, in that order. |
| NodeLaws.StringLaw | src/AiVM.Core/native/aivm_vm.c:4500-4550 | MAKE_LIT_STRING: the text reads back under the key value. |
| NodeLaws.IntLaw | src/AiVM.Core/native/aivm_vm.c:4500-4550 | MAKE_LIT_INT: so does the integer. |
| NodeLaws.BoolLaw | src/AiVM.Core/native/aivm_vm.c:4500-4550 | MAKE_LIT_BOOL: so does the truth value. |
| NodeLaws.FieldLaw | src/AiVM.Core/native/aivm_vm.c:4643-4677 | MAKE_FIELD_STRING: the key reads back, and the child is the operand, or a new box that reads as the operand. |
| NodeLaws.MapLaw | src/AiVM.Core/native/aivm_vm.c:4679-4733 | A steady MAKE_MAP: its operands in order, plain ones boxed, are the children of the new Map node. |
| NodeLaws.NodeLaw | src/AiVM.Core/native/aivm_vm.c:4552-4641 | A steady MAKE_NODE: the same under the template's kind, id and attributes. |
| NodeLaws.EqualLaw | src/AiVM.Core/native/aivm_vm.c:3575-3588 | EQ on nodes compares names. |
| NodeLaws.TooFew | src/AiVM.Core/native/aivm_vm.c:4351-4733 | Too few operands are an underflow. |
| NodeLaws.WrongType1 | src/AiVM.Core/native/aivm_vm.c:4351-4373 | Operands of the wrong type are type errors: instructions on one operand. |
| NodeLaws.WrongType2 | src/AiVM.Core/native/aivm_vm.c:4323-4677 | The same for instructions on two. |
| Refinement.StartRelated | src/AiVM.Core/native/aivm_vm.c:2939-2994 | Every sound heap starts out related to itself. |
| Argv.NoCycle | src/AiVM.Core/native/aivm_vm.c:2620-2757 | The node graph is acyclic: no walk returns to its start. |
| Argv.CollectTidy | src/AiVM.Core/native/aivm_vm.c:2374-2564 | Compaction keeps soundness, acyclicity and the argv root at handle 1. |
| Argv.CreateTidy | src/AiVM.Core/native/aivm_vm.c:2620-2757 | So does creation. |
| Argv.RunTidy | src/AiVM.Core/native/aivm_vm.c:2869-2937 | So does every steady run, calls and returns included. |
| Argv.ArgvKept | src/AiVM.Core/native/aivm_vm.c:2536-2543 | After any such run, however often the heap was compacted, handle 1 still names the argument list, the same record over as many items, and fetching the list pushes that handle. |
| Argv.InitExact | src/AiVM.Core/native/aivm_vm.c:2869-2994 | Startup succeeds exactly with fewer than 384 arguments, and then leaves the root at handle 1 over the argument literals in order. |
| NodeLaws.ArgvReads | src/AiVM.Core/native/aivm_vm.c:2869-2937 | What a program reads at start-up: handle 1 is the Block argv0 over one text literal per argument, in order, each holding its argument. |
| Argv.ArgvStuck | src/AiVM.Core/native/aivm_vm.c:2910-2934 | The item that reaches the pressure mark fails. |
| Boxing.BoxKept | src/AiVM.Core/native/aivm_vm.c:4700-4718 | A box that only a C local knows keeps its name over the next allocation exactly if that allocation does not collect. |
| Boxing.MapLost | src/AiVM.Core/native/aivm_vm.c:4679-4733 | A run from startup, 382 blocks made and dropped and then MAKE_MAP on two integers, after which the map names a node that does not exist and no renaming relates the heap to the unbounded one. |
| Flat.ViewSnoc | src/AiVM.Core/native/aivm_vm.c:2687-2739 | Appending a record keeps records tiling the attribute and child arrays without gaps, and appends the node. |
| Flat.ViewTotals | src/AiVM.Core/native/aivm_vm.c:2620-2757 | The array counts are the attribute and child totals of the graph. |
| Flat.TilesInside | src/AiVM.Core/native/aivm_vm.c:2410-2510 | Every record of a tiling lies inside the arrays. |
| Flat.RoomToSlide | src/AiVM.Core/native/aivm_vm.c:2424-2499 | Sliding never runs out of target array. |
| Marking.MarkDone | src/AiVM.Core/native/aivm_vm.c:2269-2294 | When the queue is used up the marks are exactly the reachable nodes. |
| Marking.QueueBound | src/AiVM.Core/native/aivm_vm.c:2195-2294 | The queue never holds more handles than there are nodes. |
| Collector.Collector.constructor | src/AiVM.Core/native/aivm_vm.c:2939-2994 | An empty heap. |
| Collector.Collector.Enqueue | src/AiVM.Core/native/aivm_vm.c:2210-2230 | Marks and queues a handle in range the first time it is met. |
| Collector.Collector.EnqueueExtra | src/AiVM.Core/native/aivm_vm.c:2255-2267 | Incoming children beyond the table are an error. |
| Collector.Collector.ScanQueue | src/AiVM.Core/native/aivm_vm.c:2269-2290 | The breadth-first loop ends with exactly the reachable nodes marked. |
| Collector.Collector.Mark | src/AiVM.Core/native/aivm_vm.c:2195-2294 | Marks exactly the nodes reachable from stack, locals, tasks, parallel values, pinned handles and incoming children. |
| Collector.Collector.Rank | src/AiVM.Core/native/aivm_vm.c:2410-2422 | The handle map is the rank among the live. |
| Collector.Collector.SlideOne | src/AiVM.Core/native/aivm_vm.c:2430-2498 | Copies one survivor behind the others, children renamed; fails exactly on a child out of range. |
| Collector.Collector.SlideAll | src/AiVM.Core/native/aivm_vm.c:2424-2499 | All of them. |
| Collector.Collector.CopyBack | src/AiVM.Core/native/aivm_vm.c:2501-2506 | The target arrays become the heap. |
| Collector.Collector.RemapValues | src/AiVM.Core/native/aivm_vm.c:2175-2193 | Renames every handle of a value array; fails exactly on a handle without a new name. |
| Collector.Collector.RemapRoots | src/AiVM.Core/native/aivm_vm.c:2512-2559 | Renames all roots consistently. |
| Collector.Collector.Compact | src/AiVM.Core/native/aivm_vm.c:2374-2564 | Succeeds exactly on compactable heaps, and then the heap is the collected heap and the map its renaming. |
| Collector.Collector.CollectFor | src/AiVM.Core/native/aivm_vm.c:2641-2653 | Compaction and renaming of the incoming children. |
| Collector.Collector.ShouldCollect | src/AiVM.Core/native/aivm_vm.c:2591-2618 | The proactive trigger. |
| Collector.Collector.AppendNode | src/AiVM.Core/native/aivm_vm.c:2687-2756 | Appends one record with its attributes and children. |
| Collector.Collector.CreateNode | src/AiVM.Core/native/aivm_vm.c:2620-2757 | create_node_record, with both collection points. |
| Collector.Collector.PlaceNode | src/AiVM.Core/native/aivm_vm.c:2654-2756 | Its part behind the proactive collection. |
| Collector.Collector.MakeBlock | src/AiVM.Core/native/aivm_vm.c:4351-4373 | The instruction on the arrays is the instruction of the graph model, errors included. |
| Collector.Collector.AppendChild | src/AiVM.Core/native/aivm_vm.c:4375-4455 | APPEND_CHILD on the arrays is the instruction of the graph model, errors included. |
| Collector.Collector.MakeErr | src/AiVM.Core/native/aivm_vm.c:4457-4498 | MAKE_ERR on the arrays is the instruction of the graph model, errors included. |
| Collector.Collector.MakeLit | src/AiVM.Core/native/aivm_vm.c:4500-4550 | MAKE_LIT_STRING, MAKE_LIT_INT and MAKE_LIT_BOOL on the arrays is the instruction of the graph model, errors included. |
| Collector.Collector.MakeNode | src/AiVM.Core/native/aivm_vm.c:4552-4641 | The same, operands boxed one after another, the template's slot read again at the end. |
| Collector.Collector.MakeField | src/AiVM.Core/native/aivm_vm.c:4643-4677 | MAKE_FIELD_STRING on the arrays is the instruction of the graph model, errors included. |
| Collector.Collector.MakeMap | src/AiVM.Core/native/aivm_vm.c:4679-4733 | The same, operands boxed one after another. |
| Collector.Collector.BoxAll | src/AiVM.Core/native/aivm_vm.c:4700-4718 | The loop that pops and boxes operands is the boxing of the graph model. |
| Collector.Collector.Gather | src/AiVM.Core/native/aivm_vm.c:4694-4726 | Limit checks, boxing loop and the final record. |
| Collector.Collector.ReadShape | src/AiVM.Core/native/aivm_vm.c:4623-4631 | Kind, id and attribute count come from the template's slot as it is after boxing. |
| Collector.Collector.ChildAt | src/AiVM.Core/native/aivm_vm.c:4323-4349 | CHILD_AT on the arrays is the instruction of the graph model, errors included. |
| Collector.Collector.Ask | src/AiVM.Core/native/aivm_vm.c:4153-4211 | The same, for kind, id and counts. |
| Collector.Collector.AskAttr | src/AiVM.Core/native/aivm_vm.c:4213-4301 | The same, for attribute reads. |
| Collector.Collector.EqualOp | src/AiVM.Core/native/aivm_vm.c:3575-3588 | The same, for EQ. |
| Collector.Collector.Store | src/AiVM.Core/native/aivm_vm.c:3353-3370 | The same, for a STORE_LOCAL on its own, which skips no slot. |
| Collector.Collector.Enter | src/AiCLI/native/airun.c:6821-6826 | A function's prologue: one local per argument. |
| Collector.Collector.Leave | src/AiVM.Core/native/aivm_vm.c:3503-3553 | A return: the callee's locals go. |
| Collector.Collector.Execute | src/AiVM.Core/native/aivm_vm.c:4153-4733 | Any of them. |
| Collector.Collector.InitArgv | src/AiVM.Core/native/aivm_vm.c:2869-2937 | Startup on the arrays is startup of the graph model. |
| Collector.Collector.Startup | src/AiVM.Core/native/aivm_vm.c:2939-2994 | Startup with the allocation counter reset. |
| Aibc1.RoundTrip | src/AiCLI/native/airun.c:7007-7107 | Loading the written bytes of any non-empty program within the limits gives back its instructions and constants, two's-complement operands and size fields included. |
| Aibc1.FailureInside | src/AiVM.Core/native/aivm_program.c:145-427 | For any input at all, a failed load reports an offset within the input. |
| Aibc1.FailureMeans | src/AiVM.Core/native/aivm_program.c:145-427 | Status and offset of a failed load say what is wrong and where, for every status; and what loads has the magic number, version 2 and at most 32 sections. |
| Aibc1.CodeBack | src/AiVM.Core/native/aivm_program.c:249-266 | Loaded instructions, written again, are the very bytes they were loaded from. |
| Aibc1.ConstBack | src/AiVM.Core/native/aivm_program.c:296-409 | So are loaded constants, except that any byte but 0 means true and text ends at its first zero byte. |
| Aibc1.SampleFile | src/AiCLI/native/airun.c:7007-7107 | One program and its file, byte by byte, written and loaded. |
| Aibc1.LoadedPortable | src/AiVM.Core/native/aivm_program.c:145-427 | Whatever loads is within the limits the writer needs. |
| Aibc1.Stable | src/AiVM.Core/native/aivm_program.c:145-427 | Writing what was loaded and loading that again gives the same program. |
| Aibc1.LongRound | src/AiVM.Core/native/aivm_program.c:35-42 | Two's complement: reading the eight bytes of an int64 gives it back. |
| Aibc1.CodeSectionRound | src/AiVM.Core/native/aivm_program.c:222-273 | The instruction section reads back. |
| Aibc1.PoolSectionRound | src/AiVM.Core/native/aivm_program.c:274-418 | The constant section reads back, with its storage use. |
| ProgramFile.WriteProgram | src/AiCLI/native/airun.c:7007-7107 | The writer's loops produce exactly the file of the format, and fail exactly on constants it cannot write. |
| ProgramFile.PoolSizeField | src/AiCLI/native/airun.c:7019-7041 | The 32-bit size accumulated step by step is the section length modulo 2^32. |
| ProgramFile.ProgramStore.LoadFile | src/AiVM.Core/native/aivm_program.c:145-427 | The cursor loop over the bytes, filling the tables in place, is the loader of the format: same verdict, same offset, same tables. |
| ProgramFile.ProgramStore.LoadAll | src/AiVM.Core/native/aivm_program.c:194-422 | The section loop. |
| ProgramFile.ProgramStore.LoadInstructions | src/AiVM.Core/native/aivm_program.c:222-273 | The instruction loop. |
| ProgramFile.ProgramStore.LoadConstants | src/AiVM.Core/native/aivm_program.c:274-418 | The constant loop. |
| ProgramFile.ProgramStore.LoadConstant | src/AiVM.Core/native/aivm_program.c:308-408 | One constant. |
| ProgramFile.ProgramStore.ReadCString | src/AiVM.Core/native/aivm_program.c:43-70 | Text is copied to its first zero byte. |
| Tasks.RunOrderly | src/AiVM.Core/native/aivm_vm.c:1861-1982 | On every run handles strictly increase along the table, are never reissued, and handles issued = tasks held + tasks reclaimed. |
| Tasks.IssueOrderly | src/AiVM.Core/native/aivm_vm.c:1947-1982 | A new task awaits to its own result under the next handle. |
| Tasks.FullExact | src/AiVM.Core/native/aivm_vm.c:1912-1945 | Issuing fails for want of room exactly if the table is full and every task is pinned. |
| Tasks.IssueExact | src/AiVM.Core/native/aivm_vm.c:1912-1977 | An issue in full: below the capacity the task goes behind the others; at the capacity the first unpinned task goes and the rest keep their order; counters, pushed handle and refusals. |
| Tasks.LostOldest | src/AiVM.Core/native/aivm_vm.c:1912-1945 | The one task an issue loses is the oldest nobody refers to: no stack slot, local, parallel value or other task's result is its handle, and every older task's handle is one of those. |
| Tasks.PinnedStays | src/AiVM.Core/native/aivm_vm.c:1882-1945 | Reclaim never removes a pinned task. |
| Tasks.HeldAwaits | src/AiVM.Core/native/aivm_vm.c:2138-2156 | A handle held in the stack, the locals or a parallel block throughout a run still awaits to its original result. |
| Tasks.GoneForGood | src/AiVM.Core/native/aivm_vm.c:1947-1982 | A reclaimed handle never comes back. |
| Tasks.TaskTable.IsPinned | src/AiVM.Core/native/aivm_vm.c:1882-1910 | True exactly for pinned handles. |
| Tasks.TaskTable.ReclaimOldest | src/AiVM.Core/native/aivm_vm.c:1912-1945 | Removes exactly the oldest unpinned task, moving the later ones up. |
| Tasks.TaskTable.MoveUp | src/AiVM.Core/native/aivm_vm.c:1933-1941 | The shift keeps the order of the rest. |
| Tasks.TaskTable.IssueTask | src/AiVM.Core/native/aivm_vm.c:1947-1982 | Reclaims if full, appends, counts up and pushes the handle; same refusals. |
| Tasks.TaskTable.FindResult | src/AiVM.Core/native/aivm_vm.c:2138-2156 | The first task with the handle. |
| RemoteCodec.CodecRound | src/AiVM.Core/native/remote/aivm_remote_channel.c:61-596 | Decoding what was encoded gives the same id and message, for all six kinds. |
| RemoteCodec.EncodeExact | src/AiVM.Core/native/remote/aivm_remote_channel.c:180-596 | Encoding succeeds exactly if the texts and the count are in limit and the frame fits the buffer. |
| RemoteCodec.ReadTextRound | src/AiVM.Core/native/remote/aivm_remote_channel.c:61-126 | A string field reads back. |
| RemoteCodec.HeaderExact | src/AiVM.Core/native/remote/aivm_remote_channel.c:147-178 | The header check passes exactly whole frames of the expected type: type byte, id, payload size, that many bytes, and nothing behind them. |
| RemoteCodec.HeaderRefusal | src/AiVM.Core/native/remote/aivm_remote_channel.c:128-178 | What the header check says of anything else. |
| RemoteCodec.EncodeRefusal | src/AiVM.Core/native/remote/aivm_remote_channel.c:61-89 | An encoder's refusal says why: too many capabilities or too long a text, or a buffer too small for the frame. |
| RemoteCodec.DecodeBack | src/AiVM.Core/native/remote/aivm_remote_channel.c:220-596 | Whatever a decoder accepts is a whole frame of its type that holds the decoded fields in order and nothing else. |
| RemoteCodec.SampleFrames | src/AiVM.Core/native/remote/aivm_remote_channel.c:180-218 | A HELLO and a CALL, byte by byte, encoded and decoded. |
| FrameBuffer.FrameWriter.PutText | src/AiVM.Core/native/remote/aivm_remote_channel.c:61-89 | Length and text behind the index, or the error the limits and the room call for, overlong text first. |
| FrameBuffer.FrameWriter.Finish | src/AiVM.Core/native/remote/aivm_remote_channel.c:128-145 | The header in front of the payload completes the frame. |
| FrameBuffer.FrameWriter.EncodeHello | src/AiVM.Core/native/remote/aivm_remote_channel.c:180-218 | The buffer holds exactly the specified frame, or the status is the specified failure. |
| FrameBuffer.FrameWriter.EncodeWelcome | src/AiVM.Core/native/remote/aivm_remote_channel.c:268-303 | The same for its message: frame or specified failure. |
| FrameBuffer.FrameWriter.EncodeNotice | src/AiVM.Core/native/remote/aivm_remote_channel.c:349-376 | The same for DENY and ERROR. |
| FrameBuffer.FrameWriter.EncodeCall | src/AiVM.Core/native/remote/aivm_remote_channel.c:414-445 | The same for its message: frame or specified failure. |
| FrameBuffer.FrameWriter.EncodeResult | src/AiVM.Core/native/remote/aivm_remote_channel.c:483-504 | The same for its message: frame or specified failure. |
| FrameBuffer.FrameReader.ReadString | src/AiVM.Core/native/remote/aivm_remote_channel.c:91-126 | A text field up to its first zero byte, and the index behind it. |
| FrameBuffer.FrameReader.ReadHello | src/AiVM.Core/native/remote/aivm_remote_channel.c:220-266 | The message of the frame, or the specified failure. |
| FrameBuffer.FrameReader.ReadWelcome | src/AiVM.Core/native/remote/aivm_remote_channel.c:305-347 | The same for its message: frame or specified failure. |
| FrameBuffer.FrameReader.ReadNotice | src/AiVM.Core/native/remote/aivm_remote_channel.c:378-412 | The same for DENY and ERROR. |
| FrameBuffer.FrameReader.ReadCall | src/AiVM.Core/native/remote/aivm_remote_channel.c:447-481 | The same for its message: frame or specified failure. |
| FrameBuffer.FrameReader.ReadResult | src/AiVM.Core/native/remote/aivm_remote_channel.c:506-531 | The same for its message: frame or specified failure. |
| RemoteSession.AfterLatest | src/AiVM.Core/native/remote/aivm_remote_session.c:61-144 | The session after any frames is a function of the latest decodable HELLO alone. |
| RemoteSession.GrantExact | src/AiVM.Core/native/remote/aivm_remote_session.c:95-105 | Granted are exactly the requested capabilities that are allowed. |
| RemoteSession.GrantOrder | src/AiVM.Core/native/remote/aivm_remote_session.c:95-105 | Granted is the requested list with the disallowed entries dropped, in order. |
| RemoteSession.GrantedAllowed | src/AiVM.Core/native/remote/aivm_remote_session.c:61-144 | After any frames the granted capabilities are a subset of the allowed ones. |
| RemoteSession.ResultSafe | src/AiVM.Core/native/remote/aivm_remote_session.c:120-141 | A RESULT is sent only for a CALL whose capability the latest decodable HELLO asked for and the configuration allows; it decodes to that CALL's id and value. |
| RemoteSession.HelloAnswered | src/AiVM.Core/native/remote/aivm_remote_session.c:83-118 | With 1071 bytes of room every decodable HELLO gets a WELCOME that decodes to the granted list. |
| RemoteSession.CallAnswered | src/AiVM.Core/native/remote/aivm_remote_session.c:120-141 | And every decodable CALL a reply that decodes, under its own id, to RESULT with its value or to the error 401, 403 or 404 that applies, and leaves the session alone. |
| RemoteSession.OtherAnswered | src/AiVM.Core/native/remote/aivm_remote_session.c:120-141 | A frame of any other type gets ERROR 400 under id 0 and changes nothing. |
| RemoteSession.NotAnswered | src/AiVM.Core/native/remote/aivm_remote_session.c:120-141 | What cannot be decoded is not answered and changes nothing; nor is anything if more than 16 capabilities are allowed. |
| RemoteSession.ServerSession.ProcessFrame | src/AiVM.Core/native/remote/aivm_remote_session.c:61-144 | The method that updates the session in place is the transition function. |
| RemoteSession.ServerSession.SelectCaps | src/AiVM.Core/native/remote/aivm_remote_session.c:95-115 | The selection loop grants the specified list. |
| RemoteSession.ServerSession.Listed | src/AiVM.Core/native/remote/aivm_remote_session.c:6-32 | Membership by comparison. |
| WebSocket.DecodeStable | src/AiVM.Core/native/remote/aivm_remote_ws_frame.c:30-93 | More bytes never change a decided head: a decoded frame stays, an invalid head stays invalid. |
| WebSocket.DecodeDecided | src/AiVM.Core/native/remote/aivm_remote_ws_frame.c:30-93 | 65550 bytes always decide the head. |
| WebSocket.DecodeExact | src/AiVM.Core/native/remote/aivm_remote_ws_frame.c:30-93 | The decoder accepts exactly masked frames with a length of any of the three widths, up to 65536 bytes, and gives their final flag, opcode and unmasked payload. |
| WebSocket.InvalidExact | src/AiVM.Core/native/remote/aivm_remote_ws_frame.c:50-75 | It gives up for good exactly on unmasked and on longer frames. |
| WebSocket.XorByte | src/AiVM.Core/native/remote/aivm_remote_ws_frame.c:87-89 | A masked bit is set exactly where one of byte and key has it set. |
| WebSocket.MaskedHello | src/AiVM.Core/native/remote/aivm_remote_ws_frame.c:30-93 | The masked example of section 5.7 of RFC 6455. |
| WebSocket.PlainHello | src/AiVM.Core/native/remote/aivm_remote_ws_frame.c:108-150 | The unmasked one, byte by byte. |
| WebSocket.MaskTwice | src/AiVM.Core/native/remote/aivm_remote_ws_frame.c:87-89 | Unmasking inverts masking. |
| WebSocket.ClientRound | src/AiVM.Core/native/remote/aivm_remote_ws_frame.c:30-93 | Every masked client frame up to 65536 bytes of payload decodes to its opcode, final flag and payload, using exactly its own bytes. |
| WebSocket.ServerRound | src/AiVM.Core/native/remote/aivm_remote_ws_frame.c:95-150 | A server frame is well formed exactly below 65536 bytes of payload. |
| WsStream.DrainAppend | src/AiVM.Core/native/examples/remote_ws_bridge.c:342-387 | Draining a buffer and then more bytes is draining both at once. |
| WsStream.SplitIndependent | src/AiVM.Core/native/examples/remote_ws_bridge.c:314-393 | However recv cuts the stream, the frames dispatched, ignored ones included, the session, the replies and their order are those of the whole stream, up to the same failing write; only a full buffer behind an invalid head ends a conversation early. |
| WsStream.FullMeansInvalid | src/AiVM.Core/native/examples/remote_ws_bridge.c:389-391 | The buffer runs full only behind an invalid head. |
| WsStream.InvalidForGood | src/AiVM.Core/native/examples/remote_ws_bridge.c:349-351 | Behind an invalid head nothing is dispatched any more. |
| WsStream.PingLaw | src/AiVM.Core/native/examples/remote_ws_bridge.c:362-367 | A client's ping, in front of whatever follows, is answered by one pong that reads as its payload, if anything can be written; session and state stay, and the rest is handled as before. |
| WsStream.CloseLaw | src/AiVM.Core/native/examples/remote_ws_bridge.c:357-361 | A close is answered by an empty close and ends the conversation, with nothing behind it dispatched. |
| WsStream.BinaryLaw | src/AiVM.Core/native/examples/remote_ws_bridge.c:372-386 | A binary frame goes to the session; its reply goes out as one binary frame; an error or a failing write ends the conversation. |
| WsStream.OtherLaw | src/AiVM.Core/native/examples/remote_ws_bridge.c:368-370 | Any other frame is passed over. |
| WsStream.FullCloses | src/AiVM.Core/native/examples/remote_ws_bridge.c:389-391 | An open conversation always has room in its buffer; one full of bytes behind an invalid head is closed. |
| WsStream.Bridge.DecodeFront | src/AiVM.Core/native/remote/aivm_remote_ws_frame.c:30-93 | The index walk over the buffer is the decoder. |
| WsStream.Bridge.Unmask | src/AiVM.Core/native/remote/aivm_remote_ws_frame.c:87-89 | The unmask loop is the masking function. |
| WsStream.Bridge.Shift | src/AiVM.Core/native/examples/remote_ws_bridge.c:352-355 | The memmove drops the consumed bytes. |
| WsStream.Bridge.HandleFrame | src/AiVM.Core/native/examples/remote_ws_bridge.c:357-386 | Dispatch by opcode: ping, close, binary; a binary reply that cannot be built or written closes the connection, a failing pong does not. |
| WsStream.Bridge.DrainBuffer | src/AiVM.Core/native/examples/remote_ws_bridge.c:342-387 | The inner loop is Drain. |
| WsStream.Bridge.Accept | src/AiVM.Core/native/examples/remote_ws_bridge.c:328-392 | One recv and what follows is Receive. |
| Utf8.ValidExact | src/AiCLI/native/airun.c:3827-3929 | The validator's language is exactly the encodings of sequences of nonzero scalar values (section 4 of RFC 3629). |
| Utf8.EncodesValid | src/AiCLI/native/airun.c:3827-3929 | Each such text has one reading. |
| Utf8.CountScalars | src/AiVM.Core/native/aivm_vm.c:1195-1211 | On valid text the rune count is the number of scalars. |
| Utf8.OffsetSplits | src/AiVM.Core/native/aivm_vm.c:1213-1229 | The byte offset of rune k cuts valid text between scalar k-1 and scalar k. |
| Utf8.NextExact | src/AiVM.Core/native/aivm_vm.c:1166-1193 | The VM steps over two, three or four bytes exactly where a lead byte of that kind is followed by that many continuation bytes, and over one byte anywhere else. |
| Utf8.SliceScalars | src/AiVM.Core/native/aivm_vm.c:1242-1326 | On accepted text, for every start and every positive length: substring encodes exactly the scalars at positions start up to start + length, remove exactly the others, in order. |
| Utf8.SliceInside | src/AiVM.Core/native/aivm_vm.c:1242-1326 | Inside the text that is scalars start to start + length. |
| Utf8.SliceValid | src/AiVM.Core/native/aivm_vm.c:1242-1326 | Both are valid text again. |
| Utf8.Validate | src/AiCLI/native/airun.c:3827-3929 | The index loop accepts exactly the valid texts. |
| Utf8.CountRunes | src/AiVM.Core/native/aivm_vm.c:1195-1211 | The counting loop. |
| Utf8.NextIndex | src/AiVM.Core/native/aivm_vm.c:1166-1193 | One character, or one stray byte. |
| Utf8.RuneOffset | src/AiVM.Core/native/aivm_vm.c:1213-1229 | The offset loop. |
| Utf8.SubstringByRunes | src/AiVM.Core/native/aivm_vm.c:1242-1274 | The bytes between two rune offsets. |
| Utf8.RemoveByRunes | src/AiVM.Core/native/aivm_vm.c:1276-1326 | The bytes outside them. |
| AstDump.DumpUnique | tools/aos_frontend.c:529-559 | Two trees whose dumps start the same text are equal, attribute kinds, counts and nested children included, and so is what follows them. |
| AstDump.PrefixFree | tools/aos_frontend.c:529-559 | No dump is a proper prefix of another. |
| AstDump.ReadBack | tools/aos_frontend.c:529-559 | A reader of the format that knows nothing of the writer gives the tree back and stops right behind it. |
| AstDump.Emitter.EmitNode | tools/aos_frontend.c:535-559 | The recursive writer appends exactly the dump. |
| AstDump.Emitter.WritePrefixed | tools/aos_frontend.c:529-533 | Length, colon, text. |

## Left out

- String and bytes arenas: text and bytes are values, so nothing is claimed about the string-arena compaction or about
  text read after one. Read `spare` as the concatenations that precede the first compaction.
- Text scanning of source, imports, cache keys, files, the command line. The compiler starts from trees; the name
  length limit of 63 and the literal buffers beyond 255 characters belong to the scanner.
- Source nodes ToString, Field, Map, Make and the node accessors, calls to `sys.` and `io.` targets, and Block, Return,
  Break or Continue in expression position.
- Source runs that read a name before it is bound, or end a function without Return, are `Stuck`; what the machine does
  with them is not part of the correctness statement.
- Compiler.Compiler.CompileExpr: the node kinds above are no source trees here, so nothing is said of their code.
- Compiler.Compiler.CompileCall: a call whose target is a system call name is refused, where the source emits CALL_SYS.
- Machine.Step: opcodes outside the control fragment fail with `NotModelled`; ADD_INT outside int64, undefined in C,
  is a fault of its own, `UndefinedArithmetic`. CALL_SYS answers only the argument list the boot code asks for.
- Vm.Vm.StepBinary: STR_CONCAT runs out of string arena after `spare` concatenations; byte counts, reuse of room by
  compaction and its effect on text are not modelled.
- Isolation.Moves: a system call handler is taken not to touch frames or locals itself, and strings that arena
  compaction moves keep their text. Opcodes outside the machine's fragment may do anything else, so the moves include
  every step of the source and more.
- Vm.Vm.Step: the control fragment only; of a machine that has failed only the status and error are compared, not the
  leftovers of its arrays; error detail texts, recent-call history and high-water marks are not modelled.
- Vm.Vm.RunFor: the run loop has no step bound in the source; here it is the first n steps, for every n.
- Compiler.Compiler.Link: that linking succeeds is proved under `Linkable`, which counts a literal every time it occurs and
  lets text, constants and calls share one budget: 16 for a literal, 2 for a byte of its text, 8 for a call, 16384 in
  all. It asks for at most 1024 instructions in a function. A program beyond that may link all the same.
- Checks in the source that can never fire (fixup index out of range, mark queue overflow, compaction overflow) have no
  branch in the model; the bounds that make them unreachable are proved.
- Heap.Create: the value roots are sequences instead of arrays, one for each kind of root; counters of the collector are
  left out except the allocations since the last collection, which counts without saturating.
- HeapOps.Step: PAR_JOIN, which boxes the values of a parallel block in the same way, is not among the instructions; a
  prologue is one instruction; a STORE_LOCAL outside one that leaves a gap of stale slots ends in `NotModelled`, which
  only bytecode the compiler does not make can run into (`Gaps.NoGaps`), and so does a MAKE_NODE whose template slot
  holds no record any more, where the source reads indeterminate memory.
- HeapRuns.RunRelated: such stores of bytecode from elsewhere end the run on both heaps.
- Collector.Collector.Store: such stores again.
- Mirrors.HeapFollows: of linked programs as modelled, which run no node instruction; runs that allocate are those of
  `HeapRuns.RunRelated`, with `Enter` and `Leave` for their calls.
- Tasks.Issue: task results are not renamed by collections here; Refinement renames them. The skipped and exhausted
  counters are left out, and the reclaim counter does not saturate. Every task is completed when issued, as in the
  source.
- Tasks.Pinned: values are compared as integers, so an unrelated integer pins a task, as in the source.
- RemoteCodec.Encode: null-pointer errors are left out; texts are taken to end at their first zero byte.
- WsStream.Bridge.HandleFrame: once a write fails all later ones do, and a frame cut off by a failing write does not
  count as sent; the HTTP upgrade, sockets, SHA-1 and base64 are left out.
- WsStream.SplitIndependent: a buffer that runs full behind an invalid head closes the connection, where the whole
  stream read at once would keep waiting; replies and session agree even then.
- Utf8.Substring: start + length is required not to overflow int64, where C leaves the sum undefined.
- AstDump: the parser that builds the trees, and output errors.
- Syscalls and their contract table, user interface hosts, WebAssembly bridges, image decoding, build and publish.
