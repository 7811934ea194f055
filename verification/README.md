# Models of MVVM's checkpoint placement, frame restore and multi-thread snapshot logic

MVVM snapshots a running WebAssembly program and restores it on another machine. These modules
model the parts of it that decide *where* a program may be stopped, *what* is written down about it,
and *how* that is put back, and prove what each part promises.

* **Static analysis** (`WasmTree`, `Parser`, `Translator`, `Resolution`, `TextMeaning`, `SimpleFunc`,
  `ModifiedLocals`, `LoopCkpt`, `Analysis`): the line translator, the token parser and the three passes of
  `wasm_static_analysis.py`, as classes and loops that update their state as the script does, each
  proved against a specification function. `Semantics` gives programs a small-step meaning with
  labels, branches by depth and calls (section 4.4.5 of the WebAssembly Core Specification 1.0);
  conditions, branch-table selectors, stored values and indirect callees are free choices, so a
  statement about a run is a statement about every sequence of decisions. `Resolution` ties functions
  and calls of the parsed program to the lines of the file, `TextMeaning` the whole program to the words
  on them. `Provenance` ties what a run executes to the tree. `QuietRuns`, `QuietExact` and `Latency`
  say what leaving out checkpoints does to runs. `Analysis` joins everything: from the lines of a file
  to the three result lists, and from the lists to every run of the program.
* **Frame restore** (`CspReplay`, `Leb128`): rebuilding the interpreter's label stack from an address by
  a linear scan, against an interpreter that really executes; and the bounded LEB128 decoder, against
  the grammar of section 5.2.2 of the same specification.
* **Multi-thread snapshot** (`Quiescence`, `SyncLog`, `SyncReplay`, `SyncOutcome`,
  `FdLog`): counting threads to a safe
  point, the log of synchronisation operations with its compaction, its turn-taking replay, and the
  file-descriptor log with its restore. Threads are step systems; results hold for every
  interleaving.
* **Transport and gateway** (`Rdma`, `Cksum`): chunked sending and reassembly, and the Internet checksum
  after an address rewrite.

Where the code does less than one would hope, the model keeps the code as it is, and the exact
condition is proved together with an input that breaks it:

* A loop listed as skippable can run for ever without a checkpoint if a branch back to its start comes
  before the checkpoint in its body (`QuietExact.BranchFirstForever`). `QuietTurnExact` says exactly
  for which loops this happens, `Guarded` is a simple condition that rules it out.
* A call makes a function non-simple even when its callee is simple: the mark is overwritten on the next
  line (`SimpleFunc.Pass.VisitCall`).
* The label stack of an address inside an `if` without `else` is rebuilt wrongly: the scan jumps over the
  construct (`CspReplay.BareIfLosesItsLabel`); in every other case it is right, or the scan faults
  because it comes to a `return` (`CspReplay.Replay` says exactly when).
* Waking a reference while its mutex is held makes the log lose the holder (`SyncLog.WakeLosesHolder`).
  After the replay the mutex is then free, exactly as long as the thread that held it has not unlocked
  it since (`SyncOutcome.ReplayOfHistory`); the replay itself never blocks for it.
* A replay whose entries do not return when performed in order never ends: the thread that has claimed
  the blocking entry keeps the replay mutex (`SyncReplay.EndsIffReturns`).
* A payload that is a whole number of chunks makes the RDMA receiver wait for a chunk nobody sends
  (`Rdma.ReceivesWhatWasSent`); this includes the empty payload.
* Two folds of the checksum are not enough for every buffer (`Cksum.ThirdCarryIsLost`), but they are for
  every buffer of up to 131074 bytes; the gateway only passes headers and single packets, which are
  shorter.
* A well-nested file is rejected by the parser exactly when it has an `if` (`Translator.IfIsRejected`), a
  tail call is taken for a return (`Translator.TailCallBecomesReturn`), and call indices are right
  exactly when all imports come first (`Resolution.CallIndicesExact`).
* The branch of `lightweight_uncheckpoint` for a count that "someone has reset" is never taken: nothing
  resets a count (`Quiescence.NeverBlocked`).
* The thread-id map used by the replay need not be injective for the lock results to hold.

## Model

| member | source | states |
|---|---|---|
| Analysis.Analyse | wasm_static_analysis.py:4-470 | Results exist for exactly the files whose function names are there and unique, whose calls name what the file declares, whose branches and assignments have numbers, and whose functions close their constructs; the program is the one whose printing is the translation, function by function that of its line; with imports first each call goes where the name on its line says; it is numbered by position; the lists are those of the three passes, the simple one ascending. What the program means is said by the words of the lines: each function line has its function, and the lines behind it that begin with a word the translator knows correspond one to one, in order, to the nodes of the body and the places where its blocks and loops close, each with the word and the number, or the named function, of its line |
| Analysis.SkippedLoopsCarry | wasm_static_analysis.py:407-446 | Every key in the list names a loop that strictly contains, at some depth, a call of a non-simple function or a loop whose own key is not in the list |
| Analysis.ReportedLocalsAreEnough | wasm_static_analysis.py:357-398 | For every run from a call of a program function and every loop entered: a local that differs later inside the loop or right after it is in the set reported under that loop's (function, loop) key |
| Analysis.EveryLoopIsReported | wasm_static_analysis.py:374-375 | Every loop a run enters has a report under its key |
| Analysis.ReportedSetExact | wasm_static_analysis.py:366-376 | A report names a loop of the program, and a local is in its set if and only if some node inside that loop is a local.set or local.tee of it |
| Analysis.KeysListedOnce | wasm_static_analysis.py:437-446 | No key is listed twice |
| Analysis.UnlistedLoopsAreShort | wasm_static_analysis.py:412-446 | For every run: a pass through the body of a loop that the checkpoint pass visited and did not list ends within a bound computed from the sizes of the body and its simple callees: if no function has more than `max` tokens, within `max + 4` steps for each token of the body |
| Analysis.StretchesAreShort | wasm_static_analysis.py:400-470 | For every run of a program whose skipped loops have no quiet way back, a stretch without checkpoint event is no longer than the static cost of its first state |
| Analysis.GuardedLoopsKeepUp | wasm_static_analysis.py:412-446 | If no branch precedes the first checkpoint in a loop body (through nested skipped loops), a run that completes n iterations passes at least n checkpoint events |
| Provenance.RunIn | wasm_static_analysis.py:222-296 | All code and labels of every state of every run are nodes of the tree of the activation's function |
| Provenance.SameNumberSameLoop | wasm_static_analysis.py:55-72 | With distinct loop numbers, a number names one loop of its function |
| Translator.CollectNames | wasm_static_analysis.py:23-40 | The dictionary maps every declared name to its position; a missing or repeated name fails; imports are counted |
| Translator.IndexesUnique | wasm_static_analysis.py:23-40 | The declarations determine the dictionary |
| Resolution.CallIndexExact | wasm_static_analysis.py:41-47 | The token of a call naming the function on line i is a call of the number of function lines above i exactly when no import is below i |
| Resolution.CallIndicesExact | wasm_static_analysis.py:41-47 | All function names stand for the numbers of their own lines exactly when all imports come first |
| Resolution.ImportCallsNegative | wasm_static_analysis.py:41-47 | With imports first, exactly the imports get negative indices and functions the numbers of their lines |
| Resolution.FunctionsOfFile | wasm_static_analysis.py:49-104 | In an accepted file, function k of the parsed program is that of the k-th function line: it carries k, and its body is what the lines up to the next function line say |
| TextMeaning.KindsAreWords | wasm_static_analysis.py:10-21 | Which of the fourteen kinds a line has is settled by the word it begins with; br stands for lines with neither br_if nor br_table, call for those without call_indirect |
| TextMeaning.TokenSays | wasm_static_analysis.py:74-101 | Without kinds: the token of a line that begins with a known word is the node, or the close, that the word and the number or name on the line say |
| TextMeaning.ReadMeans | wasm_static_analysis.py:49-104 | Whatever program is read from the lines has one function for each function line, in order, numbered by position, whose nodes and closes are spelled one to one, in order, by the lines behind it |
| Resolution.CallsOfFile | wasm_static_analysis.py:92-99 | With imports first, every call in the tree comes from a call line of its function, and is negative if an import declares the name on that line, or else the number of the function line that does |
| Resolution.TranslatedIsReadFrom | wasm_static_analysis.py:4-296 | Both together for every translated and accepted file |
| Resolution.DeclaredExact | wasm_static_analysis.py:23-40 | The declarations are accepted exactly if every function and import line has a name and no name is repeated |
| Resolution.TranslationExact | wasm_static_analysis.py:4-104 | A file is translated exactly if, besides, every call names a declared function or import and every br, br_if, set and tee has its number |
| Translator.EmitTokens | wasm_static_analysis.py:49-104 | The loop with its function and loop counters produces the recursive translation of the lines, or fails where it fails |
| Translator.Translate | wasm_static_analysis.py:4-104 | Names first, then tokens; fails where either fails |
| Translator.AcceptedIffBalanced | wasm_static_analysis.py:229-296 | What the translator emits is accepted by the parser exactly when block, loop and end lines balance in every function |
| Translator.IfIsRejected | wasm_static_analysis.py:10-21 | A file whose blocks, loops and ifs are well nested in every function is accepted exactly when no line starts with "if" |
| Translator.BalancedWithoutIf | wasm_static_analysis.py:10-21 | Where no line starts with "if", lines that balance for the parser are well nested |
| Translator.IfFileIsRejected | wasm_static_analysis.py:10-21 | A concrete file, one function with an if and its end, that translates and is rejected |
| Translator.TranslatedIsNumbered | wasm_static_analysis.py:55-72 | Functions of the parsed program carry their position; the loops of each are numbered 0, 1, 2, ... in pre-order |
| Translator.KeysAreUnique | wasm_static_analysis.py:55-72 | No two loops of the program share a (function, loop) key |
| Translator.TailCallBecomesReturn | wasm_static_analysis.py:84-85 | Every line that starts with "return", tail calls among them, is taken for a return |
| Parser.InstStream.constructor | wasm_static_analysis.py:107-116 | The stream starts before its first token |
| Parser.InstStream.Next | wasm_static_analysis.py:125-129 | Returns the first token that is left and leaves the rest |
| Parser.InstStream.ReadInst | wasm_static_analysis.py:173-269 | One instruction with what is left, as the recursive grammar says, or failure |
| Parser.InstStream.ReadInsts | wasm_static_analysis.py:229-245 | The shared loop of blocks and loops reads up to the matching end_block |
| Parser.InstStream.ReadFunc | wasm_static_analysis.py:271-285 | One function with what is left, or failure |
| Parser.Read | wasm_static_analysis.py:287-296 | Parses the whole stream, or fails |
| Parser.ParsePrinted | wasm_static_analysis.py:222-296 | Parsing the printed tokens of any program consumes them all and returns the program |
| Parser.AcceptedIsPrinted | wasm_static_analysis.py:222-296 | Any accepted stream is the printing of its result |
| Parser.AcceptsNested | wasm_static_analysis.py:222-296 | Exactly the properly nested streams are accepted |
| SimpleFunc.Pass.constructor | wasm_static_analysis.py:298-301 | No node is annotated, no function is simple yet |
| SimpleFunc.Pass.Visit | wasm_static_analysis.py:322-334 | Annotates the node; every annotation ever made says whether the node's tree is free of calls and loops |
| SimpleFunc.Pass.VisitCall | wasm_static_analysis.py:305-308 | A call ends up non-simple whatever its callee |
| SimpleFunc.Pass.VisitBlock | wasm_static_analysis.py:311-317 | The early exit gives the same mark as looking at all children |
| SimpleFunc.Pass.VisitFunc | wasm_static_analysis.py:318-320 | Annotates the function |
| SimpleFunc.Pass.Iteration | wasm_static_analysis.py:336-340 | Every round, memoised or not, adds exactly the functions without call and loop |
| SimpleFunc.Run | wasm_static_analysis.py:341-355 | The ascending duplicate-free list of exactly the functions without call and loop; one extra round is enough |
| SimpleFunc.SimpleExact | wasm_static_analysis.py:303-317 | Simple exactly if no node anywhere in the tree is a call or a loop |
| SimpleFunc.SimpleCalleesAreDefined | wasm_static_analysis.py:305-308 | No import and no indirect call is ever a simple callee |
| ModifiedLocals.Pass.constructor | wasm_static_analysis.py:357-362 | Nothing is annotated or reported yet |
| ModifiedLocals.Pass.Visit | wasm_static_analysis.py:383-393 | A node that has been seen adds nothing; a new one is annotated with the locals its tree assigns and adds the reports of its loops |
| ModifiedLocals.Pass.VisitBlock | wasm_static_analysis.py:368-376 | The union over the children is the set of the tree; reports of inner loops come first |
| ModifiedLocals.Pass.VisitFunc | wasm_static_analysis.py:377-381 | Reports of one function, under its index, touching no other function |
| ModifiedLocals.Run | wasm_static_analysis.py:395-398 | The memoised pass reports exactly the loops of the program in post-order |
| ModifiedLocals.ReportsExact | wasm_static_analysis.py:368-375 | A report is made if and only if some loop of the function has that number and that set |
| ModifiedLocals.ModifiedExact | wasm_static_analysis.py:366-373 | A local is in the set of a node if and only if a path leads from the node to a local.set or local.tee of that local |
| ModifiedLocals.AssignmentExact | wasm_static_analysis.py:366-369 | Code starts with a local.set or local.tee of a local if and only if one step can put either of two values into that local and change no other |
| ModifiedLocals.ReportedOnce | wasm_static_analysis.py:374-375 | The keys of the reports are, as a multiset, the (function, loop) keys of the program: each loop is reported exactly once |
| ModifiedLocals.InnerWithinOuter | wasm_static_analysis.py:369-373 | An inner loop's set is contained in the set of every loop around it |
| ModifiedLocals.ConfinedStep | wasm_static_analysis.py:366-376 | A step inside a loop changes no local outside the set and can only go on to code that assigns locals of the set |
| ModifiedLocals.ModifiedLocalsSound | wasm_static_analysis.py:357-398 | Over any number of iterations, inner loops, branches and calls, only locals of the set differ from their values at the loop header, inside the loop and right after it |
| LoopCkpt.Pass.constructor | wasm_static_analysis.py:400-405 | Nothing is annotated or listed yet |
| LoopCkpt.Pass.Visit | wasm_static_analysis.py:453-465 | Every annotated node has noinf equal to not ckpt, both given by its tree; a new node adds the loops its scan lists |
| LoopCkpt.Pass.VisitCall | wasm_static_analysis.py:412-422 | Annotates exactly the call |
| LoopCkpt.Pass.VisitBlock | wasm_static_analysis.py:423-435 | The scan stops at the first child that may take unboundedly long; noinf and ckpt are opposite |
| LoopCkpt.Pass.VisitLoop | wasm_static_analysis.py:437-446 | The loop is listed after its inner loops, exactly if its body holds something unbounded |
| LoopCkpt.Pass.VisitFunc | wasm_static_analysis.py:448-451 | Lists of one function, under its index, touching no other function |
| LoopCkpt.Run | wasm_static_analysis.py:467-470 | The memoised pass lists the loops of the specification in its order |
| LoopCkpt.SkipsExact | wasm_static_analysis.py:423-446 | A key is listed if and only if it belongs to a loop that the scan reaches and whose body holds a loop or a non-simple call |
| LoopCkpt.NoinfExact | wasm_static_analysis.py:412-435 | An instruction is free of unbounded work if and only if no node below it is a loop or a call of a non-simple function |
| LoopCkpt.ScannedExact | wasm_static_analysis.py:423-435 | The scan gets to exactly the nodes that nothing unbounded comes before, at any level |
| LoopCkpt.ListedOnce | wasm_static_analysis.py:437-446 | No loop is listed more often than the program has it |
| LoopCkpt.SkippedLoopHoldsCarrier | wasm_static_analysis.py:407-446 | Every listed loop contains at some depth, where the scan gets to, a non-simple call or a loop with nothing unbounded in its body |
| LoopCkpt.UnlistedLoopIsBounded | wasm_static_analysis.py:437-446 | A visited loop that is not listed has no loop and no non-simple call in its body |
| QuietRuns.QuietStep | wasm_static_analysis.py:423-446 | A step without event keeps the static account of an open loop right, and goes back to its start only if the static condition allows it |
| QuietRuns.EventsCoverIterations | wasm_static_analysis.py:400-446 | Without a quiet way back, n iterations take at least n events |
| QuietExact.SimpleReturns | wasm_static_analysis.py:298-341 | A call of a simple function can always run to its return without event |
| QuietExact.Realise | wasm_static_analysis.py:423-446 | Every quiet way out that the static condition finds is taken by some run |
| QuietExact.QuietTurnExact | wasm_static_analysis.py:423-446 | A skipped loop can be repeated without a checkpoint exactly when the static condition finds a quiet way back |
| QuietExact.QuietForever | wasm_static_analysis.py:423-446 | With a quiet way back, there are runs of any length without a checkpoint |
| QuietExact.GuardedHasNoQuietWayOut | wasm_static_analysis.py:423-446 | No branch before the first checkpoint, at any level, means no quiet way out |
| QuietExact.NoBranchExact | wasm_static_analysis.py:423-446 | Code counts as free of branches if and only if no node of it, at any depth, is a branch or a return |
| QuietExact.GuardedExact | wasm_static_analysis.py:423-446 | Code is guarded if and only if some instruction of it carries a checkpoint first and no branch comes before that one |
| QuietExact.BranchBeforeCheckpoint | wasm_static_analysis.py:423-446 | A concrete loop that is listed and has a quiet way back |
| QuietExact.BranchFirstStarts | wasm_static_analysis.py:423-446 | Two steps take that program from its call to the start of the loop |
| QuietExact.BranchFirstForever | wasm_static_analysis.py:423-446 | From there it can run for any number of steps without a checkpoint |
| Latency.SafeRun | wasm_static_analysis.py:400-470 | Programs without quiet way back stay so in every state of every run |
| Latency.SafeExact | wasm_static_analysis.py:400-470 | A program has no quiet way back if and only if no node of any function is a skipped loop with one |
| Latency.SizeExact | wasm_static_analysis.py:49-104 | The static size of code that calls no defined function is the number of its tokens |
| Latency.SizeInTokens | wasm_static_analysis.py:49-104 | With functions of at most `max` tokens, the static size is at most `max + 4` for each token |
| Latency.QuietStepCost | wasm_static_analysis.py:400-470 | A step without event uses up static cost |
| Latency.QuietRunsAreShort | wasm_static_analysis.py:400-470 | A run without event is no longer than the static cost of its first state |
| Latency.UnlistedPassIsBounded | wasm_static_analysis.py:412-446 | A pass through an unlisted loop has at most as many steps as the static size of the body |
| CspReplay.OpenAtEnd | src/wamr_interp_frame.cpp:306-316 | At its END a construct is the innermost open one again |
| CspReplay.InterpStep | src/wamr_interp_frame.cpp:296-395 | Each interpreter step keeps the label stack equal to the static one of its address |
| CspReplay.InterpStackIsStatic | src/wamr_interp_frame.cpp:296-395 | In every run at every point, the label stack (begin, continuation, result cells, outermost first) is a function of the address alone. Its outermost label has begin 0, the last END and the result cells of the function; the label of an open construct begins behind its opcode and block type, and continues at its own beginning with no cells for a loop, and otherwise at the END that closes it with the cells of its block type |
| CspReplay.StaticStackHolds | src/wamr_interp_frame.cpp:306-347 | The static stack of any address holds those labels |
| CspReplay.ScanIf | src/wamr_interp_frame.cpp:323-347 | From an IF the scan enters the branch that holds the target, or passes over an IF without ELSE |
| CspReplay.ElseTarget | src/wamr_interp_frame.cpp:357-359 | An ELSE leads to the END of its IF with the same labels open |
| CspReplay.ScanPlain | src/wamr_interp_frame.cpp:306-395 | At any other instruction the labels stay equal to the static ones; it faults exactly at a RETURN or at the last END |
| CspReplay.ScanStep | src/wamr_interp_frame.cpp:296-395 | Each turn keeps the labels equal to the static ones and the scan on its way; a fault on the way to an instruction is a RETURN that the scan comes to |
| CspReplay.Replay | src/wamr_interp_frame.cpp:216-395 | For the address of any instruction: faults if and only if the scan comes to a RETURN before it (one with no IF without ELSE open, and no IF open whose ELSE is between it and the address), and otherwise gives its label stack (innermost first) if and only if no IF without ELSE is open there; the labels given hold what the row of StaticStackHolds says under the same condition |
| CspReplay.RestoreCsp | src/wamr_interp_frame.cpp:58-71 | The labels are stored from the bottom up in reverse order; cells above them are untouched |
| CspReplay.ReplayMatchesInterpreter | src/wamr_interp_frame.cpp:216-395 | For every run stopped at an address: replay and restore give back the interpreter's stack if and only if no IF without ELSE is open there, unless the scan faults, which it does if and only if it comes to a RETURN; both the interpreter's labels and the replayed ones hold what the row of StaticStackHolds says, the latter under the same condition |
| CspReplay.BareIfIsWellFormed | src/wamr_interp_frame.cpp:334-340 | The code of the next row is well-formed |
| CspReplay.BareIfLosesItsLabel | src/wamr_interp_frame.cpp:334-340 | A concrete code and address where the interpreter holds two labels and the replay does not give them back |
| Leb128.OrGroup | src/wamr_interp_frame.cpp:136 | OR of seven shifted bits, cut off at the word size, adds them above the bits read so far |
| Leb128.ExtendSign | src/wamr_interp_frame.cpp:148-153 | OR with ones from a shift on subtracts 2^shift modulo the word |
| Leb128.LastByteExact | src/wamr_interp_frame.cpp:144-174 | The checks on the top bits of the last byte accept exactly the last bytes of the grammar |
| Leb128.Finish | src/wamr_interp_frame.cpp:144-178 | The checks after the loop accept exactly the grammar, and the extended result has the encoded value as its cast |
| Leb128.ReadInWord | src/wamr_interp_frame.cpp:120-184 | The same for the whole decoder, with an accumulator of any width that holds the number |
| Leb128.ReadLeb | src/wamr_interp_frame.cpp:120-214 | For (32, unsigned), (32, signed), (64, signed): succeeds on exactly the encodings of the grammar, position advanced by the encoding, result cast to the width equal to the value; position and result unchanged on failure |
| Leb128.SkipLeb | src/wamr_interp_frame.cpp:188 | Stops right after the first byte below 128 |
| Leb128.SkipAgreesWithRead | src/wamr_interp_frame.cpp:188-191 | Skipping consumes the same bytes as reading |
| Quiescence.InvStep | src/wamr_export.cpp:384-426 | Every step of every thread keeps: mutex held by the thread in a critical section, counts 0 or 1, `ready` equal to the number of ready threads, not all threads parked while the mutex is free, the snapshot flag up only with all threads counted |
| Quiescence.InvRun | src/wamr_export.cpp:384-426 | The invariant holds in every state of every interleaving |
| Quiescence.ReadyIsSum | src/wamr_export.cpp:399-400 | With the mutex free, `ready` is the sum of `lwcp_list` |
| Quiescence.DumpsOnlyWhenQuiet | src/wamr.cpp:951-958 | During a snapshot every other thread is parked or in a native region |
| Quiescence.FrozenWhileDumping | src/wamr.cpp:951-968 | No thread takes a step then |
| Quiescence.SnapshotEndsRun | src/wamr.cpp:815-824 | A snapshot starts at most once in a run, with all threads counted and the flag for shared tables raised |
| Quiescence.FlagExact | src/wamr.cpp:815-817 | In every state of every run the flag for shared tables is up if and only if all threads are counted and a thread is past that test in its snapshot attempt |
| Quiescence.SnapshotIffQuiet | src/wamr.cpp:951-955 | A thread that asks for a snapshot takes it exactly when all others are parked or in native regions, and parks otherwise |
| Quiescence.NeverBlocked | src/wamr_export.cpp:417-423 | No thread ever finds its count reset |
| Quiescence.NeverStuck | src/wamr.cpp:951-955 | Until a snapshot starts, some thread can step |
| Quiescence.SnapshotReachable | src/wamr.cpp:806-824 | From every state that satisfies the invariant there is a schedule that reaches a snapshot |
| Quiescence.RunReachesSnapshot | src/wamr.cpp:806-824 | So from every state of every run |
| SyncLog.Recorder.constructor | src/wamr_export.cpp:322-329 | The log starts empty |
| SyncLog.Recorder.InsertSyncOp | src/wamr_export.cpp:322-329 | Appends one entry |
| SyncLog.Recorder.InsertAtomicWait | src/wamr_export.cpp:330-338 | Appends one entry with its expected value |
| SyncLog.Recorder.InsertAtomicNotify | src/wamr_export.cpp:350-357 | Appends one entry with its count |
| SyncLog.Recorder.InsertAtomicWake | src/wamr_export.cpp:339-349 | Removes every entry with the reference and keeps the rest in order |
| SyncLog.RecordAll | src/wamr_export.cpp:322-357 | Recording any history call by call leaves exactly the inserts that no later wake on their reference follows, in order |
| SyncLog.LogIsSurvivors | src/wamr_export.cpp:322-357 | Appending and filtering call by call is the same as looking ahead for later wakes |
| SyncLog.CompactionExact | src/wamr_export.cpp:339-349 | Read strictly, as a log of locks of free mutexes and unlocks by their holders, the compacted log says what a legal history says about a mutex if and only if the mutex was free at the last wake on its reference; otherwise it says free of a held mutex, or is illegal |
| SyncLog.WakeLosesHolder | src/wamr_export.cpp:339-349 | A lock followed by a wake on its reference: the thread holds the mutex, the log says it is free |
| SyncLog.LegalPrefix | src/wamr_export.cpp:322-329 | Prefixes of legal logs are legal |
| SyncReplay.InvStep | src/wamr.cpp:432-492 | Every step keeps: the replay mutex is held by one thread, renaming is over before anything is performed, what is performed is the log up to the iterator |
| SyncReplay.TargetIsMapped | src/wamr.cpp:437 | Each entry of the renamed log is the recorded one with the thread that `tid_map` holds for its thread, or zero if it holds none |
| SyncReplay.PerformedIsPrefix | src/wamr.cpp:449-491 | In every state with the invariant the performed operations are a prefix of the renamed log, each done once by the thread it names; a thread leaves only when the log is exhausted |
| SyncReplay.RunPerformsPrefix | src/wamr.cpp:432-492 | For every schedule from the start and any log: what has been performed is, entry by entry, a prefix of the renamed log, each by the thread the renamed entry names; a thread has left only if all of it has been performed |
| SyncReplay.RenamedMutex | src/wamr_export.cpp:363-366 | Renaming threads renames mutex owners, for any map |
| SyncReplay.PerformsInOrder | src/wamr.cpp:460-467 | The next entry of a legal log never blocks and has the effect the log says |
| SyncReplay.LegalReturns | src/wamr.cpp:460-467 | Renamed and performed in order, a legal log returns at every entry, and leaves every mutex with the image of its holder |
| SyncReplay.NeverBlocks | src/wamr.cpp:455-467 | If the renamed entries return when performed in order, no claimed entry ever asks for a lock that is held |
| SyncReplay.DoneOwners | src/wamr.cpp:449-491 | When a thread has left, the mutexes are as the whole renamed log leaves them, for any log |
| SyncReplay.FinalOwners | src/wamr.cpp:434-466 | After a legal log, every mutex is held by the image of its holder according to the log: the thread that `tid_map` holds for it |
| SyncReplay.SomeoneMoves | src/wamr.cpp:443-491 | If every entry names a participant and the permits suffice, some thread can get closer to the end, unless one has claimed an entry that blocks |
| SyncReplay.CanFinish | src/wamr.cpp:443-491 | If the renamed entries return when performed in order, there is from every reachable state a schedule in which all threads leave |
| SyncReplay.ClaimIsStuck | src/wamr.cpp:455-467 | A claimed entry blocks exactly if performing the log up to it does |
| SyncReplay.StuckForever | src/wamr.cpp:449-491 | A thread whose entry blocks keeps the replay mutex under every schedule, and nothing is performed any more |
| SyncReplay.NobodyLeaves | src/wamr.cpp:449-491 | If some entry blocks, no thread ever leaves |
| SyncReplay.EndsIffReturns | src/wamr.cpp:443-491 | From every reachable state the replay can end if and only if its entries return when performed in order, and a thread can get stuck if and only if they do not |
| SyncReplay.CanEndExact | src/wamr.cpp:432-492 | A replay can end from its start if and only if its entries return when performed in order, at most 101 threads take part, and every entry names one of them |
| SyncReplay.InitOk | src/wamr.cpp:432-447 | The start of a replay satisfies the invariant, whatever the log is |
| SyncReplay.ReachableOk | src/wamr.cpp:432-492 | So does every state of every run |
| SyncOutcome.AfterRedone | src/wamr.cpp:460-467 | Performing a log as a whole is performing it mutex by mutex |
| SyncOutcome.RedoneReturns | src/wamr.cpp:460-467 | A log that blocks at no single mutex can be performed as a whole |
| SyncOutcome.HistoryAgreed | src/wamr_export.cpp:339-349 | Replaying the compacted and renamed log of a legal history leaves each mutex with the image of its holder, or free if its holder has kept it since the last wake on its reference |
| SyncOutcome.CompactedReturns | src/wamr_export.cpp:339-349 | The compacted log of a legal history returns at every entry, whatever was woken and however threads are renamed |
| SyncOutcome.ReplayOfHistory | src/wamr.cpp:432-492 | From the calls of a legal history through compaction, renaming and replay under any schedule: a mutex ends with the image of the thread that really held it if and only if no thread has kept it since the last wake on its reference; a mutex that was so kept ends free. The image of a thread is what `tid_map` holds for it |
| SyncOutcome.HistoryFinishes | src/wamr.cpp:432-492 | And such a replay can be finished from every state it reaches |
| SyncOutcome.UnlockHeals | src/wamr_export.cpp:339-349 | Lock, wake, unlock: the compacted log is illegal when read strictly, and yet nothing is lost |
| FdLog.Recorder.constructor | src/wamr_export.cpp:166-174 | The log starts empty |
| FdLog.Recorder.InsertFd | src/wamr_export.cpp:166-199 | An open appends a record; a move of a descriptor that has records is kept as the second one, replacing the one before; standard descriptors are ignored |
| FdLog.Recorder.RenameFd | src/wamr_export.cpp:202-217 | The entry moves to the new descriptor, keeping its path unless none was given |
| FdLog.Recorder.RemoveFd | src/wamr_export.cpp:219-229 | The entry goes, all others stay |
| FdLog.AgreesStep | src/wamr_export.cpp:166-229 | Each recorded action keeps the log in agreement with the open files |
| FdLog.RecordAll | src/wamr_export.cpp:166-229 | After every history the log covers exactly the live descriptors, with one or two records each that give path and last recorded position |
| FdLog.ReopenAs | src/wamr_wasi_context.cpp:170-173 | Open then renumber gives the wanted descriptor, whichever unused one the open returns |
| FdLog.RestoreOne | src/wamr_wasi_context.cpp:150-179 | The records of one descriptor give it its path and last position |
| FdLog.Restore | src/wamr_wasi_context.cpp:150-181 | Exactly the recorded descriptors come back, others are untouched, and the log itself is rebuilt |
| FdLog.RecordAndRestore | src/wamr_wasi_context.cpp:150-181 | For every history and whatever descriptors the opens return, restoring the log in a fresh process gives exactly the live descriptors, with paths and last recorded positions |
| Rdma.Send | include/wamr_read_write.h:918-972 | The chunks concatenate to the payload; all are full but the last, which is empty only for an empty payload |
| Rdma.Receive | include/wamr_read_write.h:560-607 | Chunks are taken until the bytes received are not a multiple of the chunk size |
| Rdma.ReceivesWhatWasSent | include/wamr_read_write.h:578-607 | The receiver gets the payload with no chunk left over if its length is not a multiple of the chunk size, and otherwise waits for one more |
| Rdma.Transfer | include/wamr_read_write.h:560-607 | Sender and receiver together, for every payload and chunk size |
| Rdma.WriteStream.constructor | include/wamr_read_write.h:913-917 | The buffer starts empty |
| Rdma.WriteStream.Write | include/wamr_read_write.h:913-917 | Appends the data and advances the position |
| Rdma.ReadStream.constructor | include/wamr_read_write.h:607-608 | Reading starts at the front of the buffer |
| Rdma.ReadStream.Read | include/wamr_read_write.h:610-625 | Gives the next bytes, and fails without effect exactly if there are too few |
| Rdma.ReadStream.ReadBack | include/wamr_read_write.h:610-617 | Reading pieces of the written sizes gives the pieces back and ends at the end |
| Rdma.RoundTrip | include/wamr_read_write.h:913-972 | Pieces written on one side are read on the other, in order and complete, if and only if their total is not a multiple of the chunk size |
| Cksum.OnesSumIs | gateway/main.cpp:63-74 | The sum with end-around carry of section 1 of RFC 1071 is the plain sum modulo 65535, zero only for zero |
| Cksum.FinishExact | gateway/main.cpp:71-73 | Two folds give the complement of the ones'-complement sum if and only if no third carry is due |
| Cksum.SmallSumsSettle | gateway/main.cpp:71-73 | No third carry is due below 2^32 |
| Cksum.ThirdCarryIsLost | gateway/main.cpp:71-73 | A buffer of 131078 bytes whose checksum is off by one |
| Cksum.InCksum | gateway/main.cpp:63-74 | The loop over words and a trailing byte computes the checksum of the buffer |
| Cksum.PaddedWords | gateway/main.cpp:69-70 | A byte left over counts as if a zero byte followed it (section 1 of RFC 1071) |
| Cksum.ChecksumIsComplement | gateway/main.cpp:63-74 | The checksum is the complement of the ones'-complement sum whenever the word sum is below 2^32 |
| Cksum.ShortBuffers | gateway/main.cpp:63-74 | Every buffer of up to 131074 bytes is in that range |
| Cksum.ChecksumPermuted | gateway/main.cpp:63-74 | Permuting words does not change it (section 2(A) of RFC 1071) |
| Cksum.StoredIsZero | gateway/main.cpp:257-259 | Stored into its zeroed field, at any even offset, it makes the recomputed value zero (section 3.1 of RFC 791) |
| Cksum.Recalculate | gateway/main.cpp:257-259 | Only bytes 10 and 11 change, and four times the low half of the first byte many bytes then sum up to all ones, if that takes in the checksum field |
| Cksum.RewriteAddress | gateway/main.cpp:255-268 | The four bytes at 12 or 16 are replaced, nothing but them and the checksum changes, and the header sums up to all ones; in a version 4 packet, whose first byte is 64 + ihl, that is the first 4 * ihl bytes |
| Cksum.RewriteSource | gateway/main.cpp:255-259 | The source address, bytes 12 to 15, is replaced, everything before the checksum and behind the address stays, and the header of 4 * ihl bytes sums up to all ones |
| Cksum.RewriteDestination | gateway/main.cpp:264-268 | The same for the destination address, bytes 16 to 19; the source address stays |

## Left out

- Semantics.Next: values, the operand stack, memory and traps are not modelled, because the analysis does not look at them; a branch condition and every other value is a free choice.
- Translator.KindOf: lines are given by first word, name and number; splitting text into words, stripping parentheses and printing numbers in decimal are not modelled. Tokens are values, so a malformed token line is not either.
- CspReplay.Replay: `frame_sp` is not tracked, because it is approximate in the code; `br_table` operands, `return` past a fault, EXT, SIMD, atomic and debug opcodes are not modelled.
- CspReplay.WellFormed: states what validation guarantees about blocks, since the scan runs on validated code only; matching ELSE and END are found by a scan of the model, as the runtime's block-address search is not part of this model.
- Leb128.SkipLeb: demands that a byte below 128 comes before the end of the buffer, because the macro has no bound of its own.
- Leb128.ReadLeb: the combination (64, unsigned) is not covered, because nobody uses it.
- Quiescence.Next: the set of threads is fixed, there are no spurious wake-ups, and the early exits for a restoring thread or a missing frame are not modelled; the snapshot itself is one state that keeps the mutex.
- SyncReplay.Perform: operations that wait for another thread are taken to return, and mutexes behave as plain non-recursive locks whose unlock by another thread returns without effect; the runtime's wrappers are not part of this model.
- SyncReplay.CanFinish: fairness of the timed wait is not modelled; the result is that no state is a dead end, for at most 101 threads, because the main thread hands out 100 permits.
- SyncReplay.MainStart: the renaming loop's mutex initialisation is not modelled: its guard looks into a map that is empty, so it is never reached.
- In thread-enabled ahead-of-time builds `recover` exits before the main replay (src/wamr.cpp:540-547); the replay is modelled by itself.
- FdLog.Recorder.InsertFd: only the "compression" policy; under "replay" a read or write falls through into a second seek whose flags come from the runtime. A move of a descriptor above 2 without a record is excluded, because there the code takes the last element of an empty vector, which has no defined behaviour.
- FdLog.Allowed: a descriptor is closed before it is opened again and renumbered to a different one; other uses of the log are not covered.
- FdLog.RecordAll: the position is the one recorded, not the kernel's.
- Rdma.Send: verbs, connections, sleeps, error codes and the debug output of single bytes are not modelled; sizes do not overflow.
- Cksum.InCksum: words are read on a little-endian host; a negative length is not modelled.
- Sockets, their drain at checkpoint, the gateway's suspend and resume, and the CIDR tests.
- Frame dump and restore apart from the label stack, memory mapping, signals, patching of breakpoints.
- Spawning and sorting threads on restore, and the WASI-NN stubs.
- Measurements, plots, scripts and build files.
