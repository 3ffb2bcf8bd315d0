# vmcell verification

A Dafny model of the parts of `vmcell` whose correctness spans several functions or whole
runs, with proofs. `dafny verify dfyconfig.toml` checks everything.

The project has six parts.

* **Durable state** (`FileNames`, `Records`, `RecordStore`, `RecordStoreTheorems`, `DirectoryViews`,
  `CrashSafety`, `AtomicFiles`, `DurableFiles`, `StateStore`, `Listings`, `Scans`, `Compatibility`). A disk
  with inodes and a directory journal is driven by the micro-steps of the atomic write, by errors, by process crashes and by power
  loss at any moment. `CrashSafety` shows that readers always see the finished writes in order plus none
  or all of an interrupted one; `DurableFiles` turns that into runs of record saves; `RecordStoreTheorems`
  proves what every root reached by such a run satisfies, and that nothing stored is ever refused.
* **Mutation lock** (`MutationLock`). Threads, processes, failures, abrupt exits and a replaced lock file,
  in every interleaving.
* **Run selection** (`SupportMatrix`, `RankedChoice`, `RunSelection`, `RunSelectionTheorems`). The matrix
  validator, the resolver's loops against a declarative answer, and the revalidator, with the theorems
  that connect the three.
* **Windows command lines** (`WindowsArguments`). The quoting loop against the argument rules of
  Microsoft's C runtime and `CommandLineToArgvW`.
* **Guest agent** (`Base64`, `AgentFraming`, `AgentReads`, `GuestFiles`, `CopyIn`, `GuestPaths`). Frames,
  base64 (section 4 of RFC 4648), chunked reads and writes, the commit of a copied file, and guest paths.
* **Processes and line readers** (`BoundedProcess`, `LineReaders`, `ShellSession`).

Code that only computes is a function here. Code that loops or changes state is a method, proved against a
specification function or predicate, and the theorems are about that specification.

## Findings

* `decode_output` with a limit of one byte refuses a one-byte output (`Base64.DecodeOutputExactly`).
* `read_password_line` refuses 4096 bytes followed by CR LF when a buffer ends right before the LF, and
  accepts the same bytes otherwise (`LineReaders.CutMatters`, `LineReaders.SameBytesTwoAnswers`).
* A replacing copy-in whose destination is a directory reports success and puts the file inside it under
  its temporary name, because `mv` runs without `-T`. After success the destination holds the content exactly
  when it was not such a directory (`CopyIn.AgentClient.CopyFileIn`, `CopyIn.CopyOntoDirectory`).
* Revalidation looks only at the variants of the plan's own provider. With the shipped matrix a revalidated
  plan is one the resolver would return exactly when every variant names a known provider and none twice
  (`RunSelectionTheorems.ProductionRevalidatedResolves`, `RunSelectionTheorems.UnknownVariantRevalidates`).
* The flag set at lines 325-327 of `src/core/run_selection.rs` and the second duplicate-key test of the
  matrix validator never decide anything.
* The copy-in list of a job compares destinations by spelling. On a guest that ignores letter case the files
  of an accepted list are distinct exactly when the folded spellings are, which the list check does not ask
  (`GuestPaths.AcceptedWindowsFilesDistinct`, `GuestPaths.AcceptCaseVariants`).

## Model

| member | source | states |
|---|---|---|
| `FileNames.TemporaryNameHidden` | src/state/mod.rs:1427-1457 | no scan ever takes a temporary file of an atomic write for a record |
| `FileNames.RetiredNameHidden` | src/state/mod.rs:633-639 | nor the retired name of an unregistered image record |
| `FileNames.KeptNameIsRecordName` | src/state/mod.rs:1427-1457 | a name that a scan keeps is the record name of exactly its stem |
| `Records.RedactionIdempotent` | src/state/mod.rs:1414-1425 | redaction yields a safe code, changes nothing else, and redacting again changes nothing |
| `RecordStore.LoadsReturnStored` | src/state/mod.rs:689-703 | on every root in order, loading a cell or operation returns what is stored or says it is not there, and never refuses |
| `RecordStore.ListsReturnAll` | src/state/mod.rs:785-797 | on every root in order, both listings succeed and return every stored record |
| `RecordStoreTheorems.ChangeKeepsInvariant` | src/state/mod.rs:665-683 | every admitted save or removal keeps the root in order: schema 2 exactly with a job, unique job ids, every operation bound to its cell, every correlated artifact bound to its operation |
| `RecordStoreTheorems.ReachableInvariant` | src/state/mod.rs:739-758 | every root reached from the empty one by any run of admitted changes is in order |
| `RecordStoreTheorems.SavedCellLoads` | src/state/mod.rs:665-703 | after any run, a cell just saved loads as its redacted self |
| `RecordStoreTheorems.SavedOperationLoads` | src/state/mod.rs:739-783 | after any run, an operation just saved loads unchanged |
| `RecordStoreTheorems.ResavedOperationStays` | src/state/mod.rs:2194-2208 | an admitted save of a stored operation with a job names the same cell, though no check compares the two |
| `RecordStoreTheorems.OperationNeverChangesCell` | src/state/mod.rs:745-755 | over any later run an operation with a job keeps its cell and its job |
| `RecordStoreTheorems.CellNeverChangesJob` | src/state/mod.rs:670-680 | over any later run a cell stays and keeps its job, or stays without one |
| `RecordStoreTheorems.CorrelatedArtifactLoads` | src/state/mod.rs:2241-2259 | so a correlated artifact that is still there loads, whatever was saved since |
| `RecordStoreTheorems.MoveAdmittedIffDirect` | src/state/mod.rs:739-758 | saving a stored operation under another existing cell is admitted if and only if it has no job |
| `RecordStoreTheorems.BatchFollowsListing` | src/state/mod.rs:2210-2239 | the batch binding check never rejects what the listing accepted |
| `RecordStoreTheorems.FormatMeansJob` | src/state/mod.rs:299-366 | for every accepted root the reported format is 2 exactly when some cell carries a job, otherwise 1 |
| `DirectoryViews.FilesUpdated` | src/state/mod.rs:1427-1457 | one written or removed file shows in its own directory under its own stem and nowhere else |
| `CrashSafety.EventKeeps` | src/state/mod.rs:1532-1594 | every micro-step, error, crash and power loss keeps the disk recoverable |
| `CrashSafety.CrashRefinement` | src/state/mod.rs:1532-1594 | in every state of every run readers see the effects of the log in order, each asked for by an event of its own in that order; whatever power loss follows leaves a prefix that holds every write reported as done |
| `CrashSafety.LogOrigins` | src/state/mod.rs:1532-1594 | every log entry comes from a distinct earlier event in order, and while a write is under way the log is the one at its start, plus the write once it is renamed |
| `CrashSafety.InterruptedIsNoneOrAll` | src/state/mod.rs:1532-1594 | an error or crash at any stage leaves readers with what they saw when the write began or, after the rename, with that and the whole write |
| `CrashSafety.DoneStaysDone` | src/state/mod.rs:1532-1594 | a write reported as done keeps its place in every later log, whatever fails afterwards |
| `AtomicFiles.AtomicFiles.WriteJsonAtomic` | src/state/mod.rs:1532-1594 | succeeds exactly when no step fails; takes effect exactly when its rename happened; success leaves nothing to lose |
| `DurableFiles.EffectIsApply` | src/state/mod.rs:1427-1457 | one effect on the files is exactly the change of the root that readers make of them |
| `DurableFiles.EveryStateReadable` | src/state/mod.rs:1427-1457 | in every state of every run, with failures anywhere, readers see the result of a lawful history, and that root is in order |
| `Listings.ReadJsonDirectory` | src/state/mod.rs:1427-1457 | the records in path order, or the error of the first bad file in that order; succeeds exactly if no file is bad |
| `Listings.SortedUnique` | src/state/mod.rs:1448-1448 | the files of a directory have exactly one listing in path order |
| `Scans.ReadCells` | src/state/mod.rs:1427-1457 | the same for the cells, tied to the stored cells |
| `Scans.ListCellsInOrder` | src/state/mod.rs:705-710 | the redacted cells in path order; refused exactly if the specification refuses, with the error of the first bad file or else the repeated job id |
| `Scans.ListOperationsInOrder` | src/state/mod.rs:785-797 | the operations in path order; refused exactly if the specification refuses, with the error of the first bad file or else of the first unbound operation |
| `Scans.ValidateUniqueCellJobIds` | src/state/mod.rs:2171-2192 | the hash-map loop accepts exactly the lists in which no two cells carry one job id |
| `Scans.UniqueJobIdCheck` | src/state/mod.rs:712-724 | scan, replace the own record and check agree with uniqueness over the stored cells with the record in its place |
| `Compatibility.ValidateJobOperationBindings` | src/state/mod.rs:2210-2239 | the look-up loop accepts exactly if every operation agrees with the listed cells |
| `Compatibility.CheckCompatibility` | src/state/mod.rs:299-366 | accepts exactly the compatible roots; reports their format, which is 2 exactly when some cell carries a job, how many records of each kind they hold, and whether that is nothing; two of its checks never refuse |
| `StateStoreModel.StateStore.Save` | src/state/mod.rs:665-683 | a refused save changes nothing; an admitted one makes the root the changed root or leaves it, as a whole, and a reported success is durable |
| `MutationLock.EventKeeps` | src/state/mod.rs:383-446 | every step of every thread, failure and exit keeps one key per live attempt and one owner per file lock |
| `MutationLock.AtMostOneGuard` | src/state/mod.rs:234-251 | over every interleaving a root has at most one guard that its own identity check accepts, and per process at most one guard at all, even if the lock file is replaced |
| `MutationLock.AtMostOneLiveGuard` | src/state/mod.rs:383-446 | while nobody replaces the lock file, a root has at most one live guard over all processes |
| `MutationLock.NothingLeftBehind` | src/state/mod.rs:1388-1397 | in every reachable state a key or lock is held only for a live attempt; with none alive both are empty |
| `MutationLock.LockHost.TryAcquire` | src/state/mod.rs:383-446 | a run of the lock machine: exactly when an attempt succeeds, exactly when it answers busy, and that every failure, also before the key is taken, leaves keys, locks and holders as they were |
| `MutationLock.LockHost.AcquireAndDrop` | src/state/mod.rs:234-241 | acquiring and dropping restores keys, locks and holders exactly, and so does failing to acquire |
| `MutationLock.AcquireWithin` | src/state/mod.rs:368-381 | at most one try more than the timeout has 25 ms intervals, never more than 1201; the answer is that of the last try, all before it were busy, and busy is answered only at the deadline |
| `SupportMatrix.RankFacts` | src/core/support.rs:483-519 | different keys have different ranks and any two are ordered |
| `SupportMatrix.ValidateSupportMatrix` | src/core/support.rs:332-369 | accepts exactly the non-empty lists of admissible rows in strictly ascending order over all pairs; a refusal is the error of the first bad row |
| `SupportMatrix.SelectableRowUnique` | src/core/support.rs:332-369 | in an accepted matrix a selectable row is determined by its key without the transport |
| `SupportMatrix.SupportForFinds` | src/core/support.rs:389-394 | in an accepted matrix lookup finds every row by its own key |
| `SupportMatrix.ProductionMatrixValid` | src/core/support.rs:175-306 | the shipped matrix is one its validator accepts |
| `RankedChoice.LeaderFirst` | src/core/run_selection.rs:332-343 | sorting puts a strict leader first, and counting the best rank tells whether there is one |
| `RunSelection.ValidateProbeSnapshots` | src/core/run_selection.rs:431-500 | accepts exactly the probe lists with known, distinct providers and consistent capabilities |
| `RunSelection.ScanRows` | src/core/run_selection.rs:283-327 | chooses exactly the usable rows, and its two flags say exactly whether some row was refused for each reason; the late flag is implied |
| `RunSelection.ResolveWithMatrix` | src/core/run_selection.rs:171-344 | loops, flags, sort and count compute the declarative answer: the plan of the unique least-ranked eligible pair, or the reason why there is none |
| `RunSelectionTheorems.AmbiguousOnlyForRepeatedProvider` | src/core/run_selection.rs:200-207 | for every accepted matrix the answer is ambiguous exactly when the first fault of the variant list is a repeated provider |
| `RunSelectionTheorems.PlanIndependentOfOrder` | src/core/run_selection.rs:274-343 | a successful answer is the same for every order of probes, variants and matrix rows |
| `RunSelectionTheorems.TcgOnlyByOptIn` | src/core/run_selection.rs:423-429 | a plan uses software emulation exactly when it was requested, and exactly when it was allowed |
| `RunSelectionTheorems.ResolvedPlanRevalidates` | src/core/run_selection.rs:346-421 | for every accepted matrix, every plan returned passes revalidation on the same host, image and provider probe |
| `RunSelectionTheorems.ProductionPlanRevalidates` | src/core/run_selection.rs:162-169 | in particular every plan returned for the shipped matrix |
| `RunSelectionTheorems.WindowsRequestResolves` | src/core/run_selection.rs:162-169 | with the shipped matrix there is a request that resolves, so the theorems about returned plans are not empty |
| `RunSelectionTheorems.RevalidatedPlanResolves` | src/core/run_selection.rs:346-421 | for every accepted matrix a revalidated plan is what the resolver answers for its own provider and accelerator, if and only if the architectures agree and the image's variants are known and distinct |
| `RunSelectionTheorems.ProductionArchitecturesAgree` | src/core/run_selection.rs:346-421 | with the shipped matrix revalidation implies that host and guest architecture agree |
| `RunSelectionTheorems.ProductionRevalidatedResolves` | src/core/run_selection.rs:360-366 | with the shipped matrix a revalidated plan is what the resolver answers if and only if the image's variants are known and distinct |
| `RunSelectionTheorems.UnknownVariantRevalidates` | src/core/run_selection.rs:360-366 | a plan whose image also lists an unknown provider is revalidated with the shipped matrix, and refused by the resolver |
| `WindowsArguments.QuoteWindowsArgument` | src/guest/powershell_direct/mod.rs:197-222 | the quoting loop computes the printed form that the parser theorems are about |
| `WindowsArguments.CommandLineRoundTrip` | src/guest/powershell_direct/mod.rs:188-222 | parsing the command line of any list of arguments gives back that list, under both readings of a doubled quote |
| `WindowsArguments.CommandLineInjective` | src/guest/powershell_direct/mod.rs:188-195 | different argument lists have different command lines |
| `Base64.DecodeEncode` | src/guest/qga/mod.rs:426-441 | decoding undoes encoding, for every byte string |
| `Base64.EncodeDecode` | src/guest/qga/mod.rs:443-462 | only canonical text decodes: encoding what was decoded gives back the text |
| `Base64.DecodeOutputExactly` | src/guest/qga/mod.rs:551-565 | output is accepted if and only if it is within the limit and the limit is not one with one byte; every refusal is the limit error |
| `Base64.CopyOutLimitCovers` | src/guest/powershell_direct/executor.rs:297-302 | for every admitted size the response limit does not overflow and covers the encoded file plus 64 KiB |
| `AgentFraming.Stream.ReceiveReply` | src/guest/qga/mod.rs:282-312 | the answer is the parsed frame that the whole stream determines, or the error; exactly that much is consumed |
| `AgentFraming.Stream.ReceiveFrame` | src/guest/qga/mod.rs:282-312 | the byte loop answers and consumes what the whole stream determines |
| `AgentFraming.FrameReceived` | src/guest/qga/mod.rs:282-312 | a frame is received and exactly its line consumed if and only if junk and frame are within the limits |
| `AgentFraming.ReceivedIsFrame` | src/guest/qga/mod.rs:282-312 | whatever is received starts with a brace, has no newline and was preceded by brace-free junk within the limit |
| `AgentFraming.FramesReceived` | src/guest/qga/mod.rs:282-312 | repeated receiving gives exactly the frames in order and leaves exactly what follows |
| `AgentReads.FileReadAll` | src/guest/qga/mod.rs:443-482 | for every guest it ends after at most the limit plus one reads; success is the concatenation of the chunks and within the limit; the answer is that of the first decisive reply |
| `AgentReads.HonestRead` | src/guest/qga/mod.rs:443-482 | however an honest guest splits its file, the answer is the whole file if it is within the limit and the limit error otherwise |
| `GuestFiles.MakeDirectoriesMakes` | src/guest/qga/mod.rs:92-96 | `mkdir -p` keeps every existing name, makes only directories on the way, and succeeds exactly if no file is in the way |
| `CopyIn.AgentClient.FileWriteAll` | src/guest/qga/mod.rs:426-441 | after success the temporary file holds the whole content; after any failure only that file is affected |
| `CopyIn.AgentClient.Commit` | src/guest/qga/mod.rs:379-397 | nothing but the temporary file changes, or the target holds the whole content; a denied destination is untouched; a refusal leaves no temporary file; without trouble the answer is determined for every destination |
| `CopyIn.AgentClient.CopyFileIn` | src/guest/qga/mod.rs:83-104 | whichever command fails or loses its reply the target holds the old or the whole new content and nothing else changes; with deny an existing destination is unchanged and never reported as copied; after success the destination holds the content if and only if a replacing copy did not find a directory; without trouble the answer is determined, whatever is at the destination or above it |
| `CopyIn.CopyOntoDirectory` | src/guest/qga/mod.rs:394-396 | a replacing copy onto a directory succeeds, leaves the directory and puts the content inside it |
| `CopyIn.AgentClient.CopyFileOut` | src/guest/qga/mod.rs:106-119 | success is at most the limit and is what the guest answered; from a guest that serves the file it has, it is that file, and without trouble exactly if that is within the limit |
| `CopyIn.AgentClient.CopyInThenOut` | src/guest/qga/mod.rs:83-119 | from every guest that serves its own files what was copied in is copied out, for every way to split it and every limit that admits it |
| `CopyIn.HonestGuestExists` | src/guest/qga/mod.rs:443-482 | every file can be served so |
| `CopyIn.StagingSafeIffUnshared` | src/guest/qga/mod.rs:97-98 | opening and writing the temporary name leaves all other names alone, whatever is written, if and only if no other name shares the file that is there |
| `GuestPaths.ParseNormalizes` | src/guest/mod.rs:88-110 | parsing yields normal forms and leaves exactly the normal forms alone |
| `GuestPaths.ParseRoundTrip` | src/guest/mod.rs:88-124 | parsing is idempotent and undoes the POSIX spelling |
| `GuestPaths.PosixInjective` | src/guest/mod.rs:121-124 | two accepted paths have one POSIX spelling if and only if they are the same |
| `GuestPaths.StaysBelowRoot` | src/guest/qga/mod.rs:90-91 | below any root, resolving an accepted path adds exactly its own segments, so it stays strictly below |
| `GuestPaths.DistinctFiles` | src/guest/qga/mod.rs:567-569 | below any root, two accepted paths name one file if and only if they are the same |
| `GuestPaths.CheckCopyIn` | src/core/job_spec.rs:364-397 | the loop accepts exactly the lists without a wrong input and without a repeated destination, and otherwise reports the first offence |
| `GuestPaths.AcceptedFilesDistinct` | src/core/job_spec.rs:369-397 | the destinations of an accepted list are pairwise distinct files strictly below the workspace root |
| `GuestPaths.WindowsFilesEqual` | src/core/job_spec.rs:369-397 | for every case fold, two paths are one file on a guest that ignores case if and only if their folded spellings are equal |
| `GuestPaths.AcceptedWindowsFilesDistinct` | src/core/job_spec.rs:369-397 | the files of an accepted list are pairwise distinct on such a guest if and only if the folded spellings are |
| `GuestPaths.AcceptCaseVariants` | src/core/job_spec.rs:385-389 | an accepted list with two destinations that are one file there |
| `BoundedProcess.ReadLimited` | src/process.rs:155-168 | the answer depends on the whole stream only, not on how it is cut |
| `BoundedProcess.EventLoop` | src/process.rs:74-144 | the answer is the verdict of the first decisive round; every error has terminated the tree; the error exits behind the loop are never taken; the rounds are bounded by the timeout |
| `BoundedProcess.RunBounded` | src/process.rs:26-144 | once the tree is assigned, every way out but success has terminated it and reaped the child; on success it was terminated exactly if the exit was seen in an earlier round |
| `BoundedProcess.OkMeansFinished` | src/process.rs:134-144 | success means the child exited with that status, all three transfers finished without error, and both outputs are whole and within the limit |
| `BoundedProcess.FinishedInTimeIsOk` | src/process.rs:80-129 | if by some round everything has arrived without error and the child has exited, with time left before, the answer is success |
| `BoundedProcess.DeadlineKept` | src/process.rs:123-128 | a timeout is reported only at or after the deadline, and every earlier round was before it |
| `LineReaders.ReadShellLine` | src/main.rs:1780-1822 | for every buffering the answer is that of the whole stream, and after a line exactly that line is consumed |
| `LineReaders.ReadPasswordLine` | src/main.rs:2862-2901 | for every buffering the answer is that of the whole stream, unless a buffer ends right before a newline that comes after 4097 bytes |
| `LineReaders.CutMatters` | src/main.rs:2876-2881 | such a buffering changes the answer if and only if those bytes are 4096 without a carriage return and then a carriage return |
| `LineReaders.SameBytesTwoAnswers` | src/main.rs:2862-2901 | every such password is accepted from one buffer and refused from two that end before the newline |
| `ShellSession.RunShellSession` | src/main.rs:1524-1657 | executes an in-order prefix of the commands, each once; all of them, to the natural end, if nothing interrupts and no command fails; the report counts the successes and gives the last exit code |
| `ShellSession.CommandsArePrefix` | src/main.rs:1524-1657 | those commands are a prefix of the readable, non-blank, non-directive lines of the whole stream |

## Left out

- Serialization: a record file holds a record of its kind or is unreadable; JSON, TOML and UTF-8 decoding are not modelled, and the UTF-8 decoder of the line readers is a parameter.
- Hashing, identifiers and clocks: digests are compared as text, identifiers are inputs taken to be fresh, and time is an input that does not run backwards. The verdict on the files of an artifact (names, sizes, digests) is an input.
- The disk keeps directory updates in order and loses a suffix of them; a file system that reorders them, and the Windows branch without a directory sync, are not modelled.
- File system identity, permissions, reparse points and symbolic links are one assumption: the path still names the opened object. For the lock file this assumption is not made; it may be replaced.
- Removing an artifact directory is one step that may be lost on power loss; its tree walk and its failures half-way are not modelled.
- The image-removal checks on variant files, the contents of the installation record (whether it is absent, valid or refused is an input), runtime directories and the ownership of cells.
- ListsReturnAll: speaks of listings as maps and of a refused directory without naming the file; the order and the reported error are those of `ListCellsInOrder` and `ListOperationsInOrder`.
- Save: covers saves only; the removal of an image record is an event of the disk machine, not a method.
- A poisoned mutex of the process-wide key set.
- Short names, alternate streams and the file system's own case table on Windows guests: the case fold is a parameter, character by character.
- The guest's file system changes only by the client's own commands while a copy is under way; the commands are those of GNU coreutils; a reported write count is true. The size check on a request frame never applies to a chunk and is left out.
- The deadline of the agent client appears as a command that is refused or whose reply is lost.
- Failures to write prompts and output of the shell session; they would end it early.
- The host path of a copied-in file is checked as on Unix; the other bounds of a job specification are single comparisons.
- The pipe reader and the length-prefixed frames of the PowerShell Direct executor: the reader is the loop of `ReadLimited` again, and a frame is one concatenation.
- The command-line interface, configuration, providers, engine, lifecycle, packaging and acceptance receipts: tables, plumbing, or field-by-field comparisons.
