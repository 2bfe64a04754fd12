# Verified model of the Windows runtime port's native shims and build tools

This project models five parts of the repository and proves what they promise:

* the **pthread facade** on Windows: the control block shared by thread creation, the child's
  trampoline, join and detach (`PthreadProtocol`, `PthreadSafety`, `PthreadTheorems`,
  `PthreadOutcomes`), and the reader/writer lock (`RwLock`);
* the **socket-descriptor registry**, against a descriptor table that other threads change
  without its lock (`SocketRegistry`);
* the **Blueprint front end and graph builder**: tokenizer and parser (`Blueprint*`), defaults
  and selects (`PropertyMaps`, `Defaults`, `Selects`, `ResolvedOrder`), the dependency closure
  (`Reachability`, `BuildGraph`, `Closure`, `ClosureMeaning`), and the emitter's walks
  (`PolicyEdits`, `Emitter`, `ExportedIncludes`, `ExportedOrder`);
* the **Windows OAT metadata validators and their corruption corpora** (`OatBytes`, `OatWords`,
  `OatEdits`, `OatUnwindInfo`, `OatUnwindForms`, `OatUnwind`, `OatUnwindTables`,
  `OatUnwindCorpus`, `OatUnwindGenerator`, `OatUnwindRejection`, `OatUnwindUsable`, `OatCfg`,
  `OatCfgTables`, `OatCorpusFields`, `SortedSets`);
* the **process and path encoders**: command lines (`CommandLine`, `CommandBuffer`,
  `CommandBuilder`), environment blocks (`EnvironmentBlock`, `EnvironmentConverter`) and path
  normalisation (`WinPath`, `WinPathNormalizer`), over the lists of code units in `UnitText`.

`Options` and `Widths` hold what several of them share.

Each imperative part is a method or class proved equal to a specification function, and the
promises are lemmas about that function. What a specification function means is said a second
time without it: the tokens character by character (`BlueprintLexicon`), the grammar from the
tree's side (`BlueprintSyntax`), the unwind operations, both tables and the edited fields as bytes
(`OatUnwindForms`, `OatUnwindTables`, `OatCfgTables`, `OatCorpusFields`), the walk's graph as what
a module wants and pulls (`ClosureMeaning`), and the order of every resolved or exported list
(`ResolvedOrder`, `ExportedOrder`). The two lock-free protocols are state machines: one
function gives the state after an atomic step, a run is a list of steps, and invariants are
proved over every run. `dafny verify dfyconfig.toml` checks everything.

Where a promise does not hold of the code as it is, the exact condition is proved:

* the deep merge is associative exactly when nowhere the middle map replaces a list or map that
  would have left a trace in what the last map has there
  (`PropertyMaps.AssociativeExactlyWhen`);
* the walk's and the emitter's dependency edits always agree as sets, and as lists exactly when
  a policy's new additions do not repeat themselves (`PolicyEdits.EditsAgree`): the emitter's
  generator looks at the list while it grows, the walk's comprehension does not;
* header edges make the memoised export query independent of earlier queries, whatever the
  libraries export, exactly when no two libraries reach each other
  (`ExportedIncludes.HistoryMattersExactlyWhen`): on a cycle, a memo made half-way stays;
* the modules that inlined libraries link are emitted, whatever the roots, exactly when the
  libraries that are inlined through another one only, or are host libraries, link nothing that
  is not reached anyway (`Emitter.InlinedLinksExactlyWhen`, with a failing graph in
  `Emitter.DeepLinkLost`): the walk looks one level down, the emitter absorbs transitively;
* a built command line splits back exactly when the program name has no quote and, if it needs
  quoting, no backslash at its end (`CommandLine.SplitBuilt`, with a failing name in
  `CommandLine.BackslashDoubled`);
* path normalisation is idempotent exactly unless an unrooted path climbs an even number of
  levels and the first name it leaves standing is a letter, a colon and something more
  (`WinPath.IdempotentExactlyWhen`), since that name then reads as a drive;
* it keeps the place that a path denotes for every path from a root, clamped there; for an
  unrooted path exactly when it climbs at most one level and brings no name that reads as a
  drive to the front, because a second `..` pops an earlier one; and never for a path relative
  to a drive's current directory, which comes out relative to the drive's root, or for one that
  begins with two separators, of which one is dropped (`WinPath.MeansExactlyWhen`, with failing
  paths in `SecondClimbLost`, `DriveBecomesRoot` and `NetworkBecomesRoot`);
* defaults resolve exactly when every chain of them fits the stack and ends in a known module
  (`Defaults.ResolvesExactlyWhen`), so a module that inherits from itself never does;
* the corpora can be built from an accepted table exactly when the edited words fit in 32 bits
  and, for unwind tables, some descriptor has an odd number of slots
  (`OatUnwindUsable.BuiltExactlyWhen`, `OatCfg.BuiltExactlyWhen`).

The branch of the path code for a leading double separator is proved dead
(`WinPathNormalizer.PrefixLength`).

## Assumptions

* `WaitForSingleObject` reports a thread's end only after its trampoline has returned; calls of
  join and detach may begin once the new thread runs and can hand out its own identity.
* Clients of the reader/writer lock unlock only what they hold; thread ids are not zero.
* `_close` and `_dup2` succeed or change nothing; `_dup` returns a descriptor that was not open;
  a socket is private to its opener until it is registered; no other thread closes or replaces
  a registered socket behind the registry's back.
* UTF-8 decoding is a parameter; it yields no NUL for NUL-free input. The library sort is used
  through its contract, an ordered permutation, which is unique
  (`EnvironmentBlock.SortedIsUnique`). Case folding in the environment order is a parameter.
* Which characters outside ASCII are letters or digits is a parameter of the tokenizer that
  agrees with ASCII; `isalpha` in path code is that of the C locale.
* A module name is the key it resolves under, and property expressions are evaluated already.

## Model

| member | source | states |
|---|---|---|
| PthreadTheorems.CountedAndFreedOnce | compat/src/windows_x64_posix_stubs.c:736-918 | in every run the reference count equals the references not yet given up, and the block is freed at most once, once the thread has started only at zero |
| PthreadTheorems.NobodyAstray | compat/src/windows_x64_posix_stubs.c:749-918 | no step of the creator, the child or a winning call ever touches a freed block |
| PthreadTheorems.OneWinner | compat/src/windows_x64_posix_stubs.c:884-918 | at most one join or detach ever wins, and none on a thread created detached |
| PthreadTheorems.JoinedValue | compat/src/windows_x64_posix_stubs.c:812-904 | a join that returns 0 returns after the thread's end with exactly the value its start routine returned |
| PthreadTheorems.SettledAccounts | compat/src/windows_x64_posix_stubs.c:822-918 | when all parties have ended, the handle of a created thread was opened once and closed exactly once, and the block freed exactly once, unless nobody joined or detached |
| PthreadTheorems.ClosedAtMostOnce | compat/src/windows_x64_posix_stubs.c:755-757 | at no time has the thread handle been closed more often than opened, nor opened twice |
| PthreadOutcomes.RefusedOnlyWhenClaimed | compat/src/windows_x64_posix_stubs.c:884-918 | in every run a join or detach that returns EINVAL without having won found a thread created detached, or another call has won |
| PthreadOutcomes.WinnerReturns | compat/src/windows_x64_posix_stubs.c:889-918 | a detach that wins returns 0; a join that wins returns 0 exactly when its wait succeeded, and EINVAL otherwise |
| PthreadOutcomes.DeadlockOnlyOnSelf | compat/src/windows_x64_posix_stubs.c:884-888 | EDEADLK is returned exactly by a join on the caller's own thread |
| PthreadOutcomes.AstrayOnlyWhenFreed | compat/src/windows_x64_posix_stubs.c:749-753 | a call touches the block in vain only after it was freed |
| PthreadOutcomes.StillJoinable | compat/src/windows_x64_posix_stubs.c:884-918 | when all parties have ended and a created thread is still joinable, all calls were self-joins |
| PthreadOutcomes.FirstCallSucceeds | compat/src/windows_x64_posix_stubs.c:889-918 | a join or detach that finds a finished thread joinable, and whose system calls succeed, returns 0, a join with the start routine's value, and the handle is closed |
| PthreadOutcomes.CreationSucceeds | compat/src/windows_x64_posix_stubs.c:841-882 | without a failing system call, creation never leaves its course, from every reachable state |
| PthreadOutcomes.WholeLife | compat/src/windows_x64_posix_stubs.c:812-904 | create, run and join, step by step: 0, the start routine's value, one close and one free |
| PthreadOutcomes.StepsAdvance | compat/src/windows_x64_posix_stubs.c:736-918 | every step brings its party nearer to its end; only a wait for the thread's end repeats |
| PthreadOutcomes.NothingLeft | compat/src/windows_x64_posix_stubs.c:736-918 | the ends a party can come to |
| PthreadSafety.RunKeeps | compat/src/windows_x64_posix_stubs.c:736-918 | the protocol invariant holds after every run of creator, child and any number of calls |
| PthreadSafety.CreatorKeeps | compat/src/windows_x64_posix_stubs.c:869-882 | every step of creation after the thread was resumed keeps the invariant |
| PthreadSafety.PrivateSteps | compat/src/windows_x64_posix_stubs.c:841-868 | every step before the thread runs, failures included, keeps the invariant or reaches a settled failure |
| PthreadSafety.ChildKeeps | compat/src/windows_x64_posix_stubs.c:812-820 | every step of the trampoline keeps the invariant |
| PthreadSafety.ClientKeeps | compat/src/windows_x64_posix_stubs.c:884-918 | every step of a join or detach keeps the invariant |
| PthreadSafety.HolderFindsLive | compat/src/windows_x64_posix_stubs.c:749-753 | whoever holds a reference finds the block allocated |
| RwLock.OwnerNamesWriter | compat/src/windows_x64_posix_stubs.c:337-369 | a non-zero owner field names the exclusive holder, and a writer excludes every other holder |
| RwLock.UnlockMatchesHold | compat/src/windows_x64_posix_stubs.c:360-369 | unlock takes the exclusive way exactly for the writer, and never releases a mode its caller does not hold |
| RwLock.WriterReturns | compat/src/windows_x64_posix_stubs.c:354-359 | a writer outside a call is alone with the lock and named by the field |
| RwLock.MoveKeeps | compat/src/windows_x64_posix_stubs.c:448-495 | each step of every operation, trying and timed forms included, keeps the invariant |
| RwLock.RunKeeps | compat/src/windows_x64_posix_stubs.c:337-495 | every interleaving keeps the invariant |
| RwLock.AttemptReturns | compat/src/windows_x64_posix_stubs.c:337-495 | from every reachable state: an attempt without conflict takes the lock, a trying one with a conflict returns EBUSY, an expired timed one ETIMEDOUT, and the others wait |
| RwLock.WriteReturns | compat/src/windows_x64_posix_stubs.c:354-359 | a writer that stores its identity returns 0, alone with the lock and named by it |
| RwLock.WriterUnlocks | compat/src/windows_x64_posix_stubs.c:360-369 | a writer's unlock returns 0 and leaves no writer, no owner and the readers as they were |
| RwLock.ReaderUnlocks | compat/src/windows_x64_posix_stubs.c:360-369 | a reader's unlock returns 0 and gives up exactly one hold of its caller |
| SocketRegistry.LastEventDecides | compat/src/windows_x64_socket_fd_registry.c:53-123 | after any sequence of operations a descriptor is a public socket exactly when some operation made it one and no later one closed, unregistered or overwrote it |
| SocketRegistry.Registry.EnsureCapacity | compat/src/windows_x64_socket_fd_registry.c:19-51 | growth keeps all flags and adds cleared ones; when it fails, and with which error |
| SocketRegistry.Registry.Register | compat/src/windows_x64_socket_fd_registry.c:53-59 | success flags exactly this descriptor, whatever it holds; a private socket becomes public, and the flags name the public sockets afterwards exactly unless something else than a socket was flagged |
| SocketRegistry.Registry.Unregister | compat/src/windows_x64_socket_fd_registry.c:61-66 | exactly this descriptor stops being public |
| SocketRegistry.Registry.IsSocket | compat/src/windows_x64_socket_fd_registry.c:68-74 | true exactly for public sockets, as decided by the last relevant operation |
| SocketRegistry.Registry.Close | compat/src/windows_x64_socket_fd_registry.c:76-87 | success retracts exactly this descriptor whatever recycles it meanwhile; failure changes nothing |
| SocketRegistry.Registry.Duplicate | compat/src/windows_x64_socket_fd_registry.c:89-106 | the copy is public exactly if the source was; without memory for its flag it is closed again |
| SocketRegistry.Registry.PublishCopy | compat/src/windows_x64_socket_fd_registry.c:94-103 | the copy's publication or closing, under interference |
| SocketRegistry.Registry.Duplicate2 | compat/src/windows_x64_socket_fd_registry.c:108-123 | the target becomes public exactly if the source was, and loses any stale flag otherwise |
| BlueprintLexer.Tokenize | tools/bp2cmake/bp2cmake/lexer.py:59-160 | the main loop computes the token specification: kinds, values, lines, columns and errors |
| BlueprintLexer.Turn | tools/bp2cmake/bp2cmake/lexer.py:76-157 | one turn of the main loop |
| BlueprintLexer.StringLiteral | tools/bp2cmake/bp2cmake/lexer.py:103-124 | the string loop decodes escapes and finds the closing quote |
| BlueprintLexicon.ScanExactlyWhen | tools/bp2cmake/bp2cmake/lexer.py:36-157 | what one turn reads, character by character and in both directions: white space, comments to the line's end or the first terminator, strings with each escape's meaning, signed numbers, names, the eleven marks and `+=`, the longest number or name there is, and the three errors exactly where they are due |
| BlueprintLexicon.NumberWorth | tools/bp2cmake/bp2cmake/parser.py:115-117 | a decimal number is worth the sum of its digits times their powers of ten, under its sign |
| BlueprintTokens.LineCountsNewlines | tools/bp2cmake/bp2cmake/lexer.py:66-74 | a position's line is one more than the newlines before it |
| BlueprintTokens.ColumnMeasuresFromNewline | tools/bp2cmake/bp2cmake/lexer.py:66-74 | a position's column counts from the last newline |
| BlueprintSpelling.LexReads | tools/bp2cmake/bp2cmake/lexer.py:76-160 | the lexemes of a text do not depend on where it starts |
| BlueprintSpelling.ReadLayout | tools/bp2cmake/bp2cmake/lexer.py:76-160 | any spelling of lexemes, under any layout of blanks and comments, is read back as those lexemes |
| BlueprintSpelling.ReadGivesSpellable | tools/bp2cmake/bp2cmake/lexer.py:103-157 | every token the tokenizer emits can be spelled |
| BlueprintParser.Parser.Advance | tools/bp2cmake/bp2cmake/parser.py:53-57 | moves on by one token and never past the final one |
| BlueprintParser.Parser.Expect | tools/bp2cmake/bp2cmake/parser.py:59-62 | consumes the token exactly if it has the kind |
| BlueprintParser.Parser.Accept | tools/bp2cmake/bp2cmake/parser.py:64-67 | consumes the token if it has the kind |
| BlueprintParser.Parser.ParseFile | tools/bp2cmake/bp2cmake/parser.py:71-75 | the statement loop agrees with the grammar, result and rest |
| BlueprintParser.Parser.ParseStatement | tools/bp2cmake/bp2cmake/parser.py:77-98 | agrees with the grammar |
| BlueprintParser.Parser.ParseExpr | tools/bp2cmake/bp2cmake/parser.py:102-108 | the `+` loop agrees with the left-nested grammar |
| BlueprintParser.Parser.ParseOperand | tools/bp2cmake/bp2cmake/parser.py:110-131 | agrees with the grammar, the look-ahead for `select` included |
| BlueprintParser.Parser.ParseSelect | tools/bp2cmake/bp2cmake/parser.py:135-154 | agrees with the grammar |
| BlueprintParser.Parser.ParseCondition | tools/bp2cmake/bp2cmake/parser.py:156-167 | agrees with the grammar |
| BlueprintParser.Parser.ParseCases | tools/bp2cmake/bp2cmake/parser.py:169-181 | agrees with the grammar |
| BlueprintParser.Parser.ParsePatterns | tools/bp2cmake/bp2cmake/parser.py:183-200 | agrees with the grammar; the last binding wins |
| BlueprintParser.Parser.ParsePattern | tools/bp2cmake/bp2cmake/parser.py:202-224 | agrees with the grammar |
| BlueprintParser.Parser.ParseList | tools/bp2cmake/bp2cmake/parser.py:226-235 | agrees with the grammar |
| BlueprintParser.Parser.ParseMap | tools/bp2cmake/bp2cmake/parser.py:237-248 | agrees with the grammar |
| BlueprintRoundTrip.ExprBack | tools/bp2cmake/bp2cmake/parser.py:102-108 | a printed expression parses back to itself, sums left-nested |
| BlueprintRoundTrip.OperandBack | tools/bp2cmake/bp2cmake/parser.py:110-131 | a printed operand parses back to itself |
| BlueprintRoundTrip.EntriesBack | tools/bp2cmake/bp2cmake/parser.py:237-248 | printed map entries parse back to themselves |
| BlueprintRoundTrip.SelectBack | tools/bp2cmake/bp2cmake/parser.py:135-154 | a printed select parses back to itself |
| BlueprintRoundTrip.PatternTupleBack | tools/bp2cmake/bp2cmake/parser.py:183-224 | printed pattern tuples and their binding parse back |
| BlueprintRoundTrip.FileBack | tools/bp2cmake/bp2cmake/parser.py:71-75 | the tokens of a printed file parse back to the file |
| BlueprintFrontEnd.Parse | tools/bp2cmake/bp2cmake/parser.py:251-252 | tokenizer and parser together compute the text-to-tree specification, on every text |
| BlueprintFrontEnd.PrintThenParse | tools/bp2cmake/bp2cmake/parser.py:37-252 | printing a well-formed file under any layout, then tokenizing and parsing, is the identity |
| BlueprintFrontEnd.ParsedIsValid | tools/bp2cmake/bp2cmake/parser.py:37-252 | whatever parses is well formed |
| BlueprintFrontEnd.ValidIffParsed | tools/bp2cmake/bp2cmake/parser.py:37-252 | a tree is well formed exactly when some text parses to it |
| BlueprintSyntax.ParsesExactlyWhen | tools/bp2cmake/bp2cmake/parser.py:3-252 | a token stream parses to a file exactly when it holds the file's tokens as the grammar writes them: commas between elements, at most one after the last, parentheses, bindings and keywords where the grammar has them, and nothing else |
| BlueprintSyntax.ExprParsed | tools/bp2cmake/bp2cmake/parser.py:102-131 | what an expression parses from is what it is written with |
| BlueprintSyntax.ExprWritten | tools/bp2cmake/bp2cmake/parser.py:102-131 | what an expression is written with parses to it, up to the next `+` |
| BlueprintSyntax.PatternTupleParsed | tools/bp2cmake/bp2cmake/parser.py:183-224 | a key's patterns are read one by one, and its binding is the last one written |
| BlueprintSyntax.OneTreePerStream | tools/bp2cmake/bp2cmake/parser.py:3-252 | two files never share their tokens |
| BlueprintFrontEnd.TextExactlyWhen | tools/bp2cmake/bp2cmake/parser.py:251-252 | a text parses to a file exactly when its tokens are the file's, so every other text is an error |
| PropertyMaps.DeepMerge | tools/bp2cmake/bp2cmake/evaluator.py:438-453 | the merge loop computes the merge, whatever the key order |
| PropertyMaps.MergedAlong | tools/bp2cmake/bp2cmake/evaluator.py:438-453 | what a merged map holds at the end of a path of keys, at any depth: what the two maps hold there, joined; the earlier map's entry survives where the later has none, unless the later replaced a map above it |
| PropertyMaps.ListsAppend | tools/bp2cmake/bp2cmake/evaluator.py:445-446 | where both maps hold lists, at any depth, the merged map holds the earlier list followed by the later one, element by element |
| PropertyMaps.LaterScalarWins | tools/bp2cmake/bp2cmake/evaluator.py:447-450 | where the later map holds a scalar, so does the merged map |
| PropertyMaps.AbsorbedExactlyWhen | tools/bp2cmake/bp2cmake/evaluator.py:438-453 | when merging onto a value leaves no trace of that value |
| PropertyMaps.EmptyIsIdentity | tools/bp2cmake/bp2cmake/evaluator.py:438-453 | the empty map is the identity on both sides |
| PropertyMaps.AssociativeExactlyWhen | tools/bp2cmake/bp2cmake/evaluator.py:438-453 | merging three values is associative exactly when nowhere the middle one replaces a list or map that would have left a trace in the last |
| PropertyMaps.MergeAssociative | tools/bp2cmake/bp2cmake/evaluator.py:438-453 | with one kind per key the merge is associative |
| PropertyMaps.MixedKindsDiffer | tools/bp2cmake/bp2cmake/evaluator.py:444-450 | a list, a scalar and a list under one key merge differently when grouped differently |
| Defaults.ResolvePropMap | tools/bp2cmake/bp2cmake/evaluator.py:312-323 | the defaults loop computes nested resolution, or fails on an unknown default or an exhausted stack |
| Defaults.ResolvesExactlyWhen | tools/bp2cmake/bp2cmake/evaluator.py:312-323 | resolution succeeds exactly when every chain of defaults fits the stack and ends in a known module |
| Defaults.AcyclicResolves | tools/bp2cmake/bp2cmake/evaluator.py:312-323 | with acyclic defaults a stack deeper than the ranking fails only on an unknown default |
| Defaults.CyclicFails | tools/bp2cmake/bp2cmake/evaluator.py:312-323 | a module that inherits from itself exhausts every stack |
| Defaults.DeeperSame | tools/bp2cmake/bp2cmake/evaluator.py:312-323 | the stack's depth does not change what is resolved |
| Defaults.ResolutionIsFold | tools/bp2cmake/bp2cmake/evaluator.py:246-254 | with one kind per key, nested resolution is one left fold of the merge over the flattened ordered list of raw maps, and fails exactly when flattening does |
| Defaults.FoldMerge | tools/bp2cmake/bp2cmake/evaluator.py:246-254 | merging onto a map commutes with folding |
| Defaults.NamesOneByOne | tools/bp2cmake/bp2cmake/evaluator.py:318-323 | the names of a defaults list are its strings, in their written order |
| Defaults.FlatInOrder | tools/bp2cmake/bp2cmake/evaluator.py:312-323 | the flattened list holds each default's maps in the written order, then the module's own map |
| Selects.CollapseLoop | tools/bp2cmake/bp2cmake/evaluator.py:325-342 | the select loop computes the collapse |
| Selects.BranchLoop | tools/bp2cmake/bp2cmake/evaluator.py:344-375 | one select block's active branches, collapsed and merged in order |
| Selects.CollapseConserves | tools/bp2cmake/bp2cmake/evaluator.py:325-375 | collapsing keeps the multiset of list entries of a map and its active branches |
| Selects.TotalJoin | tools/bp2cmake/bp2cmake/evaluator.py:438-453 | under one kind per key the entries of merged maps add up, at any nesting depth |
| Selects.Resolve | tools/bp2cmake/bp2cmake/evaluator.py:240-260 | defaults expansion, then collapse |
| Selects.EntriesConserved | tools/bp2cmake/bp2cmake/evaluator.py:240-375 | a resolved list property holds exactly the entries of the module, its transitive defaults and all their active branches |
| ResolvedOrder.ResolvedInOrder | tools/bp2cmake/bp2cmake/evaluator.py:240-375 | a resolved list is, as a sequence, what its places hold, place by place: the module's own place, then its active branches by select and branch; and at each place the defaults' entries in their written order before the module's own |
| ResolvedOrder.SelectsInOrder | tools/bp2cmake/bp2cmake/evaluator.py:325-342 | a collapsed list is the own list, then what the target, architecture, word-size, variable, code generator and AVX2 blocks contribute, in this order |
| ResolvedOrder.CollapseGathers | tools/bp2cmake/bp2cmake/evaluator.py:325-375 | a collapsed list is gathered place by place, at any nesting depth |
| ResolvedOrder.BranchContributes | tools/bp2cmake/bp2cmake/evaluator.py:344-375 | a branch contributes its list exactly when it is active |
| ResolvedOrder.Avx2Contributes | tools/bp2cmake/bp2cmake/evaluator.py:357-360 | the AVX2 block contributes exactly when AVX2 is enabled |
| ResolvedOrder.WindowsTargetsInOrder | tools/bp2cmake/bp2cmake/evaluator.py:347-351 | on Windows, host, Windows, not-Darwin and not-Fuchsia branches contribute in this order |
| ResolvedOrder.ActiveTargetsMean | tools/bp2cmake/bp2cmake/config.py:88-119 | which target branches are active on which system |
| ResolvedOrder.ActiveArchTargetsMean | tools/bp2cmake/bp2cmake/config.py:88-119 | target branches for one architecture are active for the build's own |
| ResolvedOrder.ActiveArchesMean | tools/bp2cmake/bp2cmake/evaluator.py:352-375 | which architecture, word-size, code generator and variable branches are active |
| Closure.DependencyClosure | tools/bp2cmake/bp2cmake/closure.py:60-101 | on any graph: no duplicates, exactly the emittable modules reachable from the roots, each dependency before its user or on a cycle with it |
| Closure.Walker.Visit | tools/bp2cmake/bp2cmake/closure.py:66-97 | a visit keeps the walk invariant and marks the module if it is emittable |
| Closure.Walker.VisitThrough | tools/bp2cmake/bp2cmake/closure.py:85-95 | absorbed libraries contribute their link dependencies without being emitted |
| Closure.WalkFinished | tools/bp2cmake/bp2cmake/closure.py:99-101 | a finished walk has emitted exactly what the roots reach |
| Closure.Leave | tools/bp2cmake/bp2cmake/closure.py:96-97 | emitting a module after its dependencies keeps the order property |
| Closure.AcyclicIsTopological | tools/bp2cmake/bp2cmake/closure.py:60-101 | without cycles the order is topological |
| ClosureMeaning.GraphMeans | tools/bp2cmake/bp2cmake/closure.py:26-97 | the walk goes through the modules that can be emitted, from each to what it pulls: shared and static libraries after the policy's edits, its whole-static libraries unless they are absorbed, and what absorbed ones link |
| ClosureMeaning.OrderMeans | tools/bp2cmake/bp2cmake/closure.py:60-101 | only modules that can be emitted are, with the roots and everything they pull |
| ClosureMeaning.OrderIsLeast | tools/bp2cmake/bp2cmake/closure.py:60-101 | nothing else is emitted |
| ClosureMeaning.PulledComeFirst | tools/bp2cmake/bp2cmake/closure.py:85-97 | what a module pulls is emitted before it, unless it leads back to the module |
| ClosureMeaning.CompilableIsEmitted | tools/bp2cmake/bp2cmake/closure.py:47-57 | a module that is no host library is emitted when reached if, after the edits, it has a source that is not excluded, or some library is inlined into it |
| ClosureMeaning.EmittedHasReason | tools/bp2cmake/bp2cmake/closure.py:47-57 | an emitted module has something to compile, or a source that only the policy takes away, or a policy-added one, or absorbs a listed library |
| PolicyEdits.Lists.ApplyPolicy | tools/bp2cmake/bp2cmake/overlay.py:195-215 | the in-place source and dependency edits |
| PolicyEdits.RemoveListed | tools/bp2cmake/bp2cmake/overlay.py:208-210 | removing occurrences one by one removes exactly the listed names, keeping the order |
| BuildGraph.WithoutConcat | tools/bp2cmake/bp2cmake/closure.py:32-35 | filtering a list works part by part, so what is left keeps its order and repetitions |
| PolicyEdits.ExtendWith | tools/bp2cmake/bp2cmake/overlay.py:211 | extending while looking at the growing list appends each new name once |
| PolicyEdits.EditsAgree | tools/bp2cmake/bp2cmake/closure.py:26-44 | the walk and the emitter agree on dependency sets always, and on lists exactly when new additions do not repeat |
| PolicyEdits.RepeatedAddition | tools/bp2cmake/bp2cmake/closure.py:32-35 | a library added twice is listed twice by the walk and once by the emitter |
| Emitter.AbsorbedModules | tools/bp2cmake/bp2cmake/emitter.py:106-123 | the worklist ends with exactly the resolvable modules reached through whole-static edges, each once |
| Emitter.LinkTargets | tools/bp2cmake/bp2cmake/emitter.py:268-278 | the link line names exactly the targets of the dependencies that are not absorbed, once each |
| BuildGraph.DedupedInOrder | tools/bp2cmake/bp2cmake/emitter.py:511-518 | what deduplication keeps stands in the order of first occurrences |
| Emitter.TargetNames | tools/bp2cmake/bp2cmake/overlay.py:186-192 | the mapped name; else the name without `lib` when the policy strips it and something is left; else the name itself |
| Emitter.LinkedIsProvided | tools/bp2cmake/bp2cmake/closure.py:60-101 | every library an emitted module links is a host library, no buildable module, or emitted |
| Emitter.InlinedLinksExactlyWhen | tools/bp2cmake/bp2cmake/closure.py:80-95 | what inlined libraries link is emitted, whatever the roots, exactly when the libraries the walk does not look at link nothing that is not reached anyway |
| Emitter.InlinedLinksProvided | tools/bp2cmake/bp2cmake/closure.py:60-101 | then everything an inlined library links is provided |
| Emitter.DeepLinkLost | tools/bp2cmake/bp2cmake/closure.py:87-95 | a module linked by a library that is absorbed two levels down is not emitted |
| Emitter.LinkLine | tools/bp2cmake/bp2cmake/emitter.py:341-372 | the link line of an emitted module names exactly the targets of its edited dependencies that are not absorbed, and each of those is provided |
| ExportedIncludes.Memo.Query | tools/bp2cmake/bp2cmake/emitter.py:84-104 | the memoised query computes its specification after any sequence of queries, on any header graph |
| ExportedIncludes.Memo.Visit | tools/bp2cmake/bp2cmake/emitter.py:84-104 | a visit computes directories, memo and visited set as specified |
| ExportedIncludes.MemoIsExported | tools/bp2cmake/bp2cmake/emitter.py:84-104 | where header edges fall along a ranking, the answer equals the plain recursion's, whatever queries came before |
| ExportedIncludes.AnswersAreSound | tools/bp2cmake/bp2cmake/emitter.py:84-104 | on any graph and after any queries, every directory of an answer is exported by a reachable library, and none is listed twice |
| ExportedIncludes.FirstQueryIsExact | tools/bp2cmake/bp2cmake/emitter.py:84-104 | on any graph a first query gives exactly the directories of the reachable libraries |
| ExportedIncludes.HistoryMattersExactlyWhen | tools/bp2cmake/bp2cmake/emitter.py:84-104 | answers are independent of earlier queries, whatever the libraries export, exactly when no two libraries reach each other |
| ExportedIncludes.IndependentSharesDirs | tools/bp2cmake/bp2cmake/emitter.py:84-104 | where answers are independent of earlier queries, a library that another one reaches and is reached by exports no directory of its own |
| ExportedIncludes.LaterForgets | tools/bp2cmake/bp2cmake/emitter.py:84-104 | of two libraries that reach each other, the one asked later has lost the other's own directory |
| ExportedIncludes.CycleForgets | tools/bp2cmake/bp2cmake/emitter.py:84-104 | two libraries that list each other: the second answer depends on the first query |
| ExportedOrder.AnswersInOrder | tools/bp2cmake/bp2cmake/emitter.py:84-104 | without cycles, an answer lists the own directories first, as written, then what each header library adds, in the order of the list |
| ExportedOrder.OwnDirsFirst | tools/bp2cmake/bp2cmake/emitter.py:84-104 | on any header graph and after any queries, all own directories are listed and come first |
| OatBytes.ReadPacked | tools/run_dex2oat_no_image.py:849-854 | a packed 32-bit little-endian word reads back |
| OatBytes.ChangeChangesAdler | tools/run_dex2oat_no_image.py:489-496 | changing one byte always changes the Adler-32 checksum |
| OatBytes.OneByteUnseals | tools/run_dex2oat_no_image.py:489-496 | changing one byte of a sealed table, its checksum field included, breaks its checksum |
| OatWords.AdlerMeans | tools/run_dex2oat_no_image.py:489-496 | the checksum is one plus the sum of the bytes, and the sum of those sums above it, each modulo 65521 |
| OatUnwindInfo.Validate | tools/run_dex2oat_no_image.py:566-660 | the validator accepts exactly what decodes |
| OatUnwindInfo.ScanSlots | tools/run_dex2oat_no_image.py:585-643 | the slot loop finds the operations, or rejects |
| OatUnwindInfo.OperationSlots | tools/run_dex2oat_no_image.py:599-638 | how many slots an operation occupies, 0 where it is rejected |
| OatUnwindInfo.Sound | tools/run_dex2oat_no_image.py:566-660 | what is accepted is the encoding of a well-formed record and zeros |
| OatUnwindInfo.Complete | tools/run_dex2oat_no_image.py:566-660 | every encoding followed by zeros is accepted and decodes to its record |
| OatUnwindInfo.AcceptsExactlyEncodings | tools/run_dex2oat_no_image.py:566-660 | acceptance is exactly the grammar, and encoding is injective up to zeros |
| OatUnwindForms.AcceptsExactlyDocumented | tools/run_dex2oat_no_image.py:566-660 | the bytes accepted are exactly those of the documented records, written out operation by operation with their literal codes, registers and operand widths, followed by zeros |
| OatUnwindForms.DecodesDocumented | tools/run_dex2oat_no_image.py:585-643 | each documented record decodes to its own operations |
| OatUnwind.Validate | tools/run_dex2oat_no_image.py:447-560 | the table validator's verdict and summary |
| OatUnwind.CollectEntries | tools/run_dex2oat_no_image.py:506-525 | the entry loop: ordered disjoint ranges, aligned descriptors inside the blob, and the set of descriptors |
| OatUnwind.CheckDescriptors | tools/run_dex2oat_no_image.py:527-535 | every descriptor slice is validated |
| OatUnwind.OneByteRejected | tools/run_dex2oat_no_image.py:489-496 | changing any single byte of an accepted unwind table is rejected |
| OatUnwindTables.AcceptsExactlyWritten | tools/run_dex2oat_no_image.py:447-560 | a payload is accepted exactly when it is the bytes of a well-formed table: its twelve header words, its entries, and a blob in which each descriptor, up to the next one, is a documented record and zeros |
| OatUnwindGenerator.Build | tools/run_dex2oat_no_image.py:835-995 | the generator, patching copies in place, builds the specified corpus or fails |
| OatUnwindGenerator.SearchDescriptors | tools/run_dex2oat_no_image.py:952-969 | the first descriptor with operations and the first with an odd slot count |
| OatUnwindCorpus.FirstIsChosen | tools/run_dex2oat_no_image.py:952-969 | the descriptor chosen is the first that will do |
| OatUnwindRejection.EveryMutantRejected | tools/run_dex2oat_no_image.py:805-995 | all 23 mutants of an accepted unwind table are rejected, though all but the one that spoils the checksum carry a right one |
| OatUnwindRejection.BadEntryStays | tools/run_dex2oat_no_image.py:893-938 | an entry edit that breaks the list still breaks it after resealing |
| OatUnwindRejection.Undecodable | tools/run_dex2oat_no_image.py:971-989 | a spoiled descriptor cannot be decoded, whatever its length |
| OatCorpusFields.UnwindCasesSpoilTheirFields | tools/run_dex2oat_no_image.py:858-995 | each case differs from the table in the field it is named after and nowhere else but in the checksum |
| OatUnwindUsable.BuiltExactlyWhen | tools/run_dex2oat_no_image.py:805-995 | when the corpus can be built from an accepted table |
| OatUnwindUsable.AcceptedLocals | tools/run_dex2oat_no_image.py:940-951 | descriptors of an accepted table pass the generator's own checks |
| OatCfg.Validate | tools/run_dex2oat_no_image.py:703-769 | the table validator's verdict and role counts |
| OatCfg.CountRoles | tools/run_dex2oat_no_image.py:747-769 | the target loop: bounds, alignment, order, kinds and role counters |
| OatCfg.RolesCounted | tools/run_dex2oat_no_image.py:764-769 | each of the four counters counts the targets with its bit |
| OatCfg.OneByteRejected | tools/run_dex2oat_no_image.py:731-738 | changing any single byte of an accepted CFG table is rejected |
| OatCfgTables.AcceptsExactlyWritten | tools/run_dex2oat_no_image.py:703-769 | a payload is accepted exactly when it is the bytes of a well-formed table: its header words, and targets inside the code, aligned, ascending and with a role |
| OatCfgTables.RolesMean | tools/run_dex2oat_no_image.py:764-769 | the four counters of an accepted table count its targets with each role |
| OatCfg.Build | tools/run_dex2oat_no_image.py:1020-1090 | the generator builds the specified corpus or fails |
| OatCfg.EveryMutantRejected | tools/run_dex2oat_no_image.py:998-1102 | all 18 mutants of an accepted CFG table are rejected, though all but the one that spoils the checksum carry a right one |
| OatCfg.BadTargetStays | tools/run_dex2oat_no_image.py:1070-1090 | a target edit that breaks the list still breaks it after resealing |
| OatCorpusFields.CfgCasesSpoilTheirFields | tools/run_dex2oat_no_image.py:1020-1090 | each case differs from the table in the field it is named after and nowhere else but in the checksum |
| OatCfg.BuiltExactlyWhen | tools/run_dex2oat_no_image.py:998-1102 | when the corpus can be built from an accepted table |
| OatEdits.RewriteChecksum | tools/run_dex2oat_no_image.py:849-854 | rewriting in place computes the resealed table |
| OatEdits.MutantSealed | tools/run_dex2oat_no_image.py:849-854 | a mutant whose checksum is rewritten has a right one |
| OatEdits.WriteCase | tools/run_dex2oat_no_image.py:865-871 | one case from a fresh copy |
| CommandLine.SplitBuilt | tools/windows_x64/jni_stubs/win_process_natives.c:203-283 | splitting a built line by the documented CommandLineToArgvW rules returns program and arguments exactly when the program name can be written |
| CommandLine.BackslashDoubled | tools/windows_x64/jni_stubs/win_process_natives.c:203-248 | a quoted program name that ends in a backslash comes back with two |
| CommandLine.ArgumentsBack | tools/windows_x64/jni_stubs/win_process_natives.c:203-248 | every argument list comes back unchanged, for both documented treatments of two quotes in a row |
| CommandLine.TightBound | tools/windows_x64/jni_stubs/win_process_natives.c:211 | a quoted argument takes at most 2n + 2 units, and some argument of each length takes exactly that |
| CommandLine.PlainExactlyWhen | tools/windows_x64/jni_stubs/win_process_natives.c:203-248 | an argument is written as it is exactly when it is not empty and has no blank, tab or quote |
| CommandBuffer.Buffer.Reserve | tools/windows_x64/jni_stubs/win_process_natives.c:183-201 | room for the units and terminator, contents kept; exactly when it fails |
| CommandBuffer.Buffer.AppendQuoted | tools/windows_x64/jni_stubs/win_process_natives.c:204-248 | appends exactly the quoted argument and a terminator, within the reservation |
| CommandBuffer.Buffer.EmitQuoted | tools/windows_x64/jni_stubs/win_process_natives.c:219-245 | the backslash-counting loop writes the quoted form within 2n + 2 units |
| CommandBuffer.Scan | tools/windows_x64/jni_stubs/win_process_natives.c:205-209 | the scan decides whether quotes are needed |
| CommandBuilder.Build | tools/windows_x64/jni_stubs/win_process_natives.c:250-283 | the built line, failure on malformed blocks, and success whenever the heap is large enough |
| CommandBuilder.WrittenArgumentsBack | tools/windows_x64/jni_stubs/win_process_natives.c:250-283 | a block written as terminated arguments is read as their decodings, in order |
| EnvironmentConverter.Convert | tools/windows_x64/jni_stubs/win_process_natives.c:65-159 | the block is the sorted entries each terminated plus one terminator, filling the computed size; every exit frees each allocation exactly once |
| EnvironmentConverter.Fill | tools/windows_x64/jni_stubs/win_process_natives.c:89-131 | the conversion loop: entries, sizes, ownership, and why it fails |
| EnvironmentConverter.CopyOut | tools/windows_x64/jni_stubs/win_process_natives.c:139-147 | copying fills the block and frees each entry once |
| EnvironmentConverter.FreeAll | tools/windows_x64/jni_stubs/win_process_natives.c:149-158 | the failure exit frees exactly what is held |
| EnvironmentConverter.BlockReadsBack | tools/windows_x64/jni_stubs/win_process_natives.c:65-159 | reading the block gives a sorted permutation of the decoded entries, the empty entry exactly at the end |
| EnvironmentConverter.WrittenEntriesBack | tools/windows_x64/jni_stubs/win_process_natives.c:89-131 | a block written as terminated entries is read as their decodings, in order |
| EnvironmentBlock.SortedIsUnique | tools/windows_x64/jni_stubs/win_process_natives.c:56-61 | the comparison orders totally, so the sorted block is unique |
| EnvironmentBlock.OrderedAtDifference | tools/windows_x64/jni_stubs/win_process_natives.c:56-61 | one entry comes before another exactly when it has the smaller case-folded unit, or none, at the first difference; or they fold alike and it has the smaller unit there |
| EnvironmentBlock.FlatBack | tools/windows_x64/jni_stubs/win_process_natives.c:139-147 | flattened non-empty entries are read back |
| WinPath.IdempotentExactlyWhen | tools/windows_x64/jni_stubs/win_path.c:10-137 | normalising again changes nothing, exactly unless the path brings a name that looks like a drive with more after it to the front |
| WinPath.Idempotent | tools/windows_x64/jni_stubs/win_path.c:10-137 | idempotence for inputs whose only colon is that of a leading drive letter |
| WinPath.ExtraColonBreaks | tools/windows_x64/jni_stubs/win_path.c:42-44 | a path with another colon that changes when normalised twice |
| WinPath.ResultShape | tools/windows_x64/jni_stubs/win_path.c:104-129 | no `/`, no empty segment, no `.` segment unless it is all, `..` only first in an unrooted path |
| WinPath.MeansExactlyWhen | tools/windows_x64/jni_stubs/win_path.c:42-129 | when the result denotes the same place as the path: same start, climbs and names |
| WinPath.SpelledExactlyWhen | tools/windows_x64/jni_stubs/win_path.c:60-129 | when the result spells the segment-stack meaning of the path |
| WinPath.FailsExactlyWhen | tools/windows_x64/jni_stubs/win_path.c:60-101 | a path has no normal form exactly when a proper name comes while 256 segments stand, an odd number of climbs counting as one |
| WinPath.ShortPathsFit | tools/windows_x64/jni_stubs/win_path.c:60-101 | a path of at most 256 names never fails |
| WinPath.DriveBecomesRoot | tools/windows_x64/jni_stubs/win_path.c:42-44 | a path relative to a drive's current directory comes out relative to the drive's root |
| WinPath.NetworkBecomesRoot | tools/windows_x64/jni_stubs/win_path.c:23-28 | a path that begins with two separators comes out with one |
| WinPath.SecondClimbLost | tools/windows_x64/jni_stubs/win_path.c:70-72 | a path that climbs two levels and whose result climbs none |
| WinPath.StepsMean | tools/windows_x64/jni_stubs/win_path.c:70-79 | the code keeps the names right and the climbs modulo two |
| WinPathNormalizer.Normalize | tools/windows_x64/jni_stubs/win_path.c:10-137 | the buffer holds the normal form and terminator exactly when it fits |
| WinPathNormalizer.Collapse | tools/windows_x64/jni_stubs/win_path.c:20-32 | the collapsing pass |
| WinPathNormalizer.Adjust | tools/windows_x64/jni_stubs/win_path.c:33-39 | trailing separators and bare drives keep root and names |
| WinPathNormalizer.PrefixLength | tools/windows_x64/jni_stubs/win_path.c:42-56 | the root's length; the double-separator branch is dead |
| WinPathNormalizer.StackSegments | tools/windows_x64/jni_stubs/win_path.c:58-101 | the segment loop stacks the names |
| WinPathNormalizer.WriteSegments | tools/windows_x64/jni_stubs/win_path.c:109-119 | the joined segments, or failure exactly when they do not fit |

## Left out

- Line numbers in syntax trees and the wording of error messages: tokens carry positions, trees do not, and a failing front-end call is one failure.
- Python's limit on the digits of an integer literal.
- Expression evaluation (`_eval`, `_eval_select`, `_concat`) and the mapping onto module fields (`_to_module`): property maps are taken as evaluated.
- Python's recursion limit, except in defaults resolution, where the remaining depth is a parameter: the parser, the merge, the collapse, the dependency closure and the export query recurse as deep as their input, and on very deep input the Python functions raise.
- PropertyMaps.DeepMerge: the insertion order of a merged map's keys is not modelled; it does not affect list contents. The order of a map given as `defaults` is a parameter.
- Source-file expansion, globs, generated sources, compile options and CMake text (`_module_files`, `_sources`, `emit_module` beyond the link line): string assembly.
- PolicyEdits.Lists.ApplyPolicy: flag and language-standard edits are left out; they do not touch dependencies.
- OatUnwind.Validate: the ELF envelope, load segments and dynamic symbols are not modelled; payload, code bounds and section offset are inputs.
- OatCfg.Validate: likewise, with the read-only data address as an input.
- The files a corpus generator writes besides the mutants (copies, links, case lists).
- Argument checks of thread creation that fail before the control block exists, and the null and external handles that join and detach reject at once.
- What follows a losing join or detach that touches a freed block: such a call is the client's error.
- PthreadProtocol's interleavings are sequentially consistent; weaker orderings of the plain fields are not modelled.
- Lock initialisation and destruction; the conversion of deadlines to waits: whether a deadline has passed is an input of each attempt.
- SocketRegistry.Registry.Close: `_close` reporting failure after having closed the descriptor is excluded by assumption, as is a `_dup2` that fails half-way.
- CommandBuilder.Build: freeing of the buffer and of decoded arguments is not tracked.
- WinPathNormalizer.Normalize: freeing of segments is not tracked; a null output buffer is one of length 0.
- Argument and environment arrays before they become byte blocks, pipes, handles and process creation.
