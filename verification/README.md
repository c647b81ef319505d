# A verified model of CalcKernel's output, code-loading and measurement machinery

CalcKernel (`ckc`) compiles small numeric kernels to native code through LLVM. This project models the parts of it
whose correctness depends on order, failure and interleaving rather than on one line of code, and proves what they
promise. The model follows the program's own components:

| files | component |
|---|---|
| `LexicalPath`, `FileSystem`, `OutputProgress`, `OutputTransaction` | lexical identity of output paths; the multi-file output transaction over a file system whose every operation may fail |
| `SelectChain`, `DispatchProtocol`, `StackCapture` | multiversion dispatch: the select chain, the ranked scan, the lock-free publication of the resolved target, capability detection from the initial stack or the auxiliary vector file |
| `PageTable`, `MapperLedger`, `MemoryMapper`, `MapperLosses` | the JIT memory mapper over a page table whose calls may fail, with its audit report; when it loses an allocation |
| `LayoutPlan`, `LayoutParser`, `Sorting`, `LayoutSnapshot`, `LateLayout` | late block layout: rendering and parsing of plans, the splice of block lists, the two snapshots and what they determine |
| `CoffStubs`, `BranchWeights` | COFF x64 process-call stubs; scaling of branch counts |
| `Rotation`, `Medians`, `Schedule`, `Sampler`, `TraceChecker` | the rotating benchmark sampler and the independent checker of its log |
| `Basics`, `Sequences` | options and results; lists put together |
| `ContractText`, `ContractHeader` | contract comments in headers, and an independent reader of that text |
| `CommandLine`, `CommandLineRoundTrip`, `CommandLineItems`, `PgoWorkflow` | option parsing with an independent description of the accepted lines, and the two builds that `pgo build` asks for by synthesized argument lists |

Objects that the source updates in place are classes (`OutputTransaction`, `Disk`, `Mapper`, `Kernel`, `Runtime`,
`IrModule`, `LinkGraph`, `Bench`); what may fail is decided by an arbitrary function of the moment and the operation,
so every theorem holds for every pattern of failures. `dafny verify dfyconfig.toml` checks everything.

## Where the code does less than it could be read to promise

Eight properties that one might expect are false of the code. Each has a concrete case and an exact statement.

* A failed deletion of a backup after all replacements (`src/cli/output.rs:245-249`) returns an error and then lets
  the destructor put the *later* backups back. With at most one destination that existed before, the outputs are all
  new; otherwise they may be a mixture (`OutputProgress.SplitIsMixed` says exactly when,
  `OutputTransaction.OneUndeletableBackup` produces it for any list with two existing destinations).
* A rollback whose own removal of a new file fails leaves that file at a destination that had none
  (`src/cli/output.rs:256-265`): every file that existed is restored, but an absent one need not be absent again.
  `OutputTransaction.NewFileLeftBehind` is such a commit for any list with an absent output before a blocked one. After
  every rollback a new file is at a formerly absent destination if and only if the loop had replaced it and its removal
  failed when the rollback tried it (`NewKept` in the contract of `Commit`); once the destructor has done its work the
  outputs are all old if and only if those removals worked.
* A reservation over a base that is already a key (`native/bridge/ckc_llvm.cpp:245`) replaces the list of what is live
  there, because a release unmaps a block without looking at allocations filed under a base inside it. The actions of
  an allocation that no other list names then never run (`MapperLosses.ReplacedReservation`). A destruction after the
  reservation runs each record's actions exactly once if and only if another base's list names every live allocation
  (`MapperLosses.ReserveThenDestroy`).
* An initialization whose lowest address is that of a live allocation overwrites its record
  (`native/bridge/ckc_llvm.cpp:409`), whose actions then never run (`MapperLosses.ReplacedAllocation`). Exactly the
  initializations at an address that is not live lose nothing (`MapperLosses.InitializeMayLose`).
* The memory audit records successful initializations only. One that fails after its protections were set can leave a
  page writable and executable while the report says that code is read-execute, at once or after a later success
  (`MemoryMapper.FailedInitializationEscapesTheAudit`, `MemoryMapper.SuccessCanEndSoundness`). After an initialization
  whose last step fails, the report is sound about code if and only if it does not report read-execute code, or was
  sound and no segment asked for write and execute (`MemoryMapper.FailedInitialization`). After a successful one it is
  sound if and only if it does not report read-execute code, or no page had been writable and executable before
  (`MemoryMapper.SuccessfulInitialization`).
* An affine expression with only zero components is printed as nothing (`src/backend/header.rs:140-152`), so
  `x >= 0` becomes `x >= ` (`ContractHeader.PrintZeroBound`). A contract's lines can be read back exactly when no
  expression in them is all zero (`ContractHeader.LinesMeanTheContract`).
* The comments print the length of a slice `x` as `x_len` and do not keep it apart from a parameter called `x_len`
  (`src/backend/header.rs:133-137`). Names can stand for any two terms at once exactly when these are not such a pair
  (`ContractHeader.ReadersExist`).
* `pgo build` accepts the levels from 0 to 3 (with multiversioning only 3) but both its builds run at level 3: they
  are at the level asked for if and only if that is 3 (`PgoWorkflow.LevelIsKeptOnlyAtThree`,
  `PgoWorkflow.AcceptedLevels`, and `PgoWorkflow.RequestedLevelIsNotUsed` for level 0).

Rendering a layout plan also writes nothing for a directive without blocks, so parsing returns the plan itself exactly
when every directive names a block (`LayoutParser.EncodeThenParse`).

## Model

| member | source | states |
|---|---|---|
| OutputTransaction.OutputTransaction.Commit | src/cli/output.rs:199-316 | a whole commit under any failures: Ok means all destinations new, no stage, no backup, nothing else changed, and every backup deleted at its moment, in order; every replaced destination passed its identity check and, one moment later, its link check; a rollback starts exactly when not every entry was replaced, and then one of the operations that the next entry needs failed at its own moment; it is clean exactly when each undo worked at the moment it was tried, and then all destinations are as before; a rollback with failures still ends, once the destructor works, with every previously existing file restored, and the outputs are then all old exactly if no removal of a new file failed; after any rollback a new file is at a formerly absent destination exactly if it was replaced and its removal failed; a failed backup deletion ends in its exact split, and every state of the destructor on the way is described; at every step before the last replacement the old bytes of each destination are at the destination or at its recorded backup, from then to the end of the backup deletions (on Ok, of the whole run) all destinations are new, and at no step of any outcome does a path other than destinations, stages and assigned backups change |
| OutputTransaction.OneRefusedCheck | src/cli/output.rs:207-222 | on a disk that always refuses only the identity check, or only the link check, of output k, the loop gets exactly to k, and the commit is rolled back with every destination as before and no debris |
| OutputTransaction.OutputTransaction.CommitInner | src/cli/output.rs:203-251 | the outcome of the replacement loop, the clean-up loop and the rollback, for each injected failure as well: it ends replaced exactly when every entry was replaced and no injected failure was due; otherwise the injected failure, or an operation of the next entry that failed at its moment, is the cause |
| OutputTransaction.OutputTransaction.Rollback | src/cli/output.rs:253-286 | undoing in reverse leaves no entry committed; it is clean exactly when each removal and each renaming worked at its moment, and then each destination is restored and each backup gone; a new file is at a formerly absent destination exactly if it was replaced and its removal failed at the moment it was tried; every intermediate state keeps the old bytes reachable even when its own removes and renames fail |
| OutputTransaction.OutputTransaction.RollbackEntry | src/cli/output.rs:255-277 | undoing one entry restores its destination or keeps its old bytes in the recorded backup; a new file where there was none stays if and only if its removal fails |
| OutputTransaction.NewFileLeftBehind | src/cli/output.rs:203-316 | for any outputs of which one did not exist, a commit on a disk that only refuses to delete that one and to check a later one rolls back and ends neither all-old nor all-new, the first new and the later one as before |
| OutputTransaction.OutputTransaction.ReplaceAll | src/cli/output.rs:207-244 | how many entries were replaced, true exactly if all were and no injected failure is due; every replaced one passed both checks at recorded moments; a shortfall has a failing operation of the next entry, at its moment, as its cause; otherwise a state that rollback can undo; every intermediate state is recoverable |
| OutputTransaction.OutputTransaction.ReplaceEntry | src/cli/output.rs:208-238 | one entry: with unused serial numbers it is replaced exactly when identity check, link check, backup and swap each work at their own moment; if either check fails, nothing has changed; where its old bytes are on each exit, and that no path but its own three changes |
| OutputTransaction.OutputTransaction.CleanUp | src/cli/output.rs:245-249 | all backups deleted, each at its moment, or the exact state at the first deletion that failed |
| OutputTransaction.OutputTransaction.Drop | src/cli/output.rs:307-316 | each stage removed and each remaining backup renamed back, where these operations work |
| OutputTransaction.OutputTransaction.Stage | src/cli/output.rs:152-197 | a new entry with a fresh stage file holding the bytes, or no entry and no change outside fresh stage paths; with unused serial numbers it succeeds exactly when the path has a normal form with a name, no earlier output has the identity or is the same existing file, and making the directories, resolving them, the link check, the probe, the creation and the mode each work at their own moment; relative paths are taken from the working directory, and the identity is the canonical directory with the name |
| OutputTransaction.OneUndeletableBackup | src/cli/output.rs:245-249 | for any outputs of which two existed before, one undeletable backup makes the commit neither all-old nor all-new |
| OutputProgress.SplitIsMixed | src/cli/output.rs:245-249 | after a failed backup deletion the outputs are never all old, and all new exactly when no later destination existed; at most one existing destination suffices |
| OutputProgress.AfterCommitted | src/cli/output.rs:307-316 | the destructor after Ok changes no destination and leaves neither stages nor backups |
| OutputProgress.AfterUndone | src/cli/output.rs:253-316 | the destructor after a rollback keeps the old bytes recoverable; a clean rollback stays all-old; a finished destructor restores what a failing rollback left |
| OutputProgress.AfterStopped | src/cli/output.rs:245-316 | the destructor after a failed backup deletion: at every moment entries up to it are new and each later existing file is either still replaced with its backup or old again; once finished, all later ones are old and only the leaked backup is left |
| OutputProgress.RollingBackStep | src/cli/output.rs:255-276 | one turn of the rollback loop keeps its invariant, whatever of it fails |
| OutputProgress.ReplacingStep | src/cli/output.rs:208-243 | one turn of the replacement loop keeps its invariant, whatever of it fails |
| OutputProgress.StepIsSafe | src/cli/output.rs:207-286 | a step on one entry cannot make another entry's old bytes unreachable |
| FileSystem.Disk.UniqueSibling | src/cli/output.rs:392-412 | a sibling name that does not exist, with every serial number tried before it taken; none after 128 taken numbers or at the first probe that fails |
| FileSystem.Disk.SameIdentity | src/cli/output.rs:369-377 | two paths have one identity exactly when they name the same entry of the same canonical directory |
| LexicalPath.LexicalOutputIdentity | src/cli/output.rs:341-367 | the component loop fails exactly when the path climbs above its root, and otherwise yields its normal form |
| LexicalPath.NormalizeShape | src/cli/output.rs:341-367 | normalization fails exactly when some prefix has more parent steps than names; the result has neither parent nor current components |
| LexicalPath.NormalizeIsIdempotent | src/cli/output.rs:341-367 | normalizing twice is normalizing once |
| LexicalPath.NormalizeKeepsTheNode | src/cli/output.rs:341-367 | in a tree without links, a path that resolves names the same node after normalization |
| SelectChain.BuildSelectChain | native/bridge/ckc_llvm.cpp:3006-3021 | the chain built backwards picks the first requirement contained in the capabilities, else the baseline, for every capability word; refused exactly for a baseline or out-of-set requirement |
| SelectChain.FitsIsContainment | native/bridge/ckc_llvm.cpp:3014-3018 | a requirement fits a capability word exactly when each of its 32 bits is set there too |
| SelectChain.SelectRanked | native/dispatch_runtime/dispatch_runtime.c:208-220 | the scan returns the first index whose requirement is contained, or the no-selection value |
| SelectChain.ChainAgreesWithScan | native/bridge/ckc_llvm.cpp:3006-3021 | chain and scan over the same table with a zero baseline requirement appended choose the same target |
| DispatchProtocol.StepKeepsInv | native/bridge/ckc_llvm.cpp:2968-3088 | every step of any thread keeps the protocol's invariant, and never changes a published slot |
| DispatchProtocol.PublishedOnce | native/bridge/ckc_llvm.cpp:3022-3034 | in every run the slot leaves the sentinel at most once and never changes again |
| DispatchProtocol.PublishedIsTheWinnersSelection | native/bridge/ckc_llvm.cpp:3000-3036 | in every run the published target is the first variant whose requirement is contained in the word that the winner of the exchange detected, or the baseline; there is one winner, and it detected once, before it won |
| DispatchProtocol.EveryWordCanBePublished | native/bridge/ckc_llvm.cpp:3000-3036 | for every capability word there is a run that detects it, publishes its selection and calls it |
| DispatchProtocol.EveryCallRunsThePublishedTarget | native/bridge/ckc_llvm.cpp:2968-3088 | in every interleaving, with capability answers that may differ per call, each call passes the resolver at most once and every running call is in the one published function, which is the slot's target and never the sentinel |
| DispatchProtocol.CallsAreWaitFree | native/bridge/ckc_llvm.cpp:2968-3088 | each call's number of own steps is bounded, whatever other threads do |
| DispatchProtocol.CallsAreNeverStuck | native/bridge/ckc_llvm.cpp:2968-3088 | a call that does not run yet always has a next step, whatever the detection would answer |
| DispatchProtocol.WeakExchangeResolvesTwice | native/bridge/ckc_llvm.cpp:3022-3034 | with a compare-exchange that may fail spuriously there is a run that enters the resolver twice: the strong one is needed |
| StackCapture.Runtime.CaptureInitialStack | native/dispatch_runtime/dispatch_runtime.c:71-103 | over any well-formed stack image the walk stays inside and captures the last value of each key, valid exactly when both occur; a valid capture is never overwritten |
| StackCapture.ReadProcAuxv | native/dispatch_runtime/dispatch_runtime.c:33-68 | the record reader finds the same pair on the entries before the terminator |
| StackCapture.Runtime.DetectUncached | native/dispatch_runtime/dispatch_runtime.c:181-202 | the captured pair decides, else the file, else the baseline tier |
| StackCapture.TierIsDecidedBy | native/dispatch_runtime/dispatch_runtime.c:181-202 | a tier above the baseline needs the keys 16 and 26 and bit 22 in the last value of the first; the highest tier also needs bit 1 in the last value of the second |
| StackCapture.BothRoutesAgree | native/dispatch_runtime/dispatch_runtime.c:33-103 | stack image and auxiliary vector file of the same process give the same tier |
| PageTable.Kernel.Protect | native/bridge/ckc_llvm.cpp:361-369 | only pages of the range change, all of them to the protection asked for when the call succeeds; a history flag notes any page writable and executable at once |
| MemoryMapper.Mapper.Reserve | native/bridge/ckc_llvm.cpp:200-263 | a new read-write, non-executable block over any base; the reservation there, if any, is replaced and exactly the live records filed under it are orphaned; the mapper's invariant is kept |
| MemoryMapper.Mapper.ProtectSegments | native/bridge/ckc_llvm.cpp:289-387 | bounds and audit traits of all segments, the protection of every page of page-disjoint segments, and no other page touched |
| MemoryMapper.Mapper.Initialize | native/bridge/ckc_llvm.cpp:277-427 | success registers the allocation under its reservation and in the audit, overwriting a live one at the same address; failure registers nothing and only sets its pages aside; the invariant is kept either way: every page outside live allocations, failed ranges and overwritten ranges is read-write and non-executable; without failing calls, a page was ever writable and executable exactly if it was before or a segment asks for it |
| MemoryMapper.Mapper.Deinitialize | native/bridge/ckc_llvm.cpp:429-477 | the listed live allocations are retired from the last base to the first, stale bases are skipped, when no call failed every mapped page of the ranges that are gone is read-write, and no page outside those ranges changes |
| MemoryMapper.Mapper.Release | native/bridge/ckc_llvm.cpp:479-517 | the reservations are gone; without failing system calls every listed block is unmapped, whatever deinitialization reported, and the release succeeds when each listed allocation's range is still mapped at its turn; no page outside the listed blocks is unmapped; exactly the allocations that their lists name are retired, group by group, each group in reverse order of registration; nothing else changes |
| MemoryMapper.OwnBlocksSuffice | native/bridge/ckc_llvm.cpp:479-517 | the ranges are mapped at their turns when every allocation lies in its own reservation's mapped block and no two blocks share a page |
| MemoryMapper.Mapper.Destroy | native/bridge/ckc_llvm.cpp:519-539 | from every reachable state: no reservation is left; without failing system calls no page of any former reservation's block is mapped, and no other page is ever unmapped; an allocation stays exactly when no reservation's list named it, and each record's actions ran once, or never when it stays or was overwritten; so they all ran exactly once if and only if nothing was overwritten and every live allocation was named, which holds whenever nothing was orphaned or overwritten; every remaining page outside what stays and the stray pages is read-write |
| MemoryMapper.Mapper.ReportIsSound | native/bridge/ckc_llvm.cpp:5040-5067 | the report says that final code is read-execute exactly when code exists and all of it is; then no page was ever writable and executable, unless a failed initialization asked for it |
| MemoryMapper.Mapper.ReportReads | native/bridge/ckc_llvm.cpp:5040-5067 | the report in terms of the segments of all successful initializations: code with bytes was asked for and every such segment is read-execute; data was asked for; a reservation was made; how many there were |
| MemoryMapper.Mapper.ReportedCodePages | native/bridge/ckc_llvm.cpp:5040-5067 | while an allocation still has the protections its segments asked for, a read-execute report means that each mapped page of its code is read-execute now |
| MemoryMapper.ProtectionSurvivesRelease | native/bridge/ckc_llvm.cpp:429-517 | deinitializing and releasing leaves the protections of every allocation that shares no page with the freed ones |
| MemoryMapper.ProtectionSurvivesInitialize | native/bridge/ckc_llvm.cpp:277-387 | an initialization, successful or not, leaves the protections of every allocation whose segments share no page with it |
| MemoryMapper.FailedInitialization | native/bridge/ckc_llvm.cpp:401-406 | when the last finalize action fails, the report is unchanged, and it is sound about code if and only if it does not report read-execute code, or was sound before and no segment asked for write and execute |
| MemoryMapper.SuccessfulInitialization | native/bridge/ckc_llvm.cpp:407-426 | after a successful initialization the audit has noted exactly its segments, and the report is sound about code if and only if it does not report read-execute code, or no page had been writable and executable before |
| MemoryMapper.SuccessCanEndSoundness | native/bridge/ckc_llvm.cpp:5040-5067 | a run whose report is sound after a failed initialization, and unsound after a later successful one |
| MemoryMapper.FailedInitializationEscapesTheAudit | native/bridge/ckc_llvm.cpp:5040-5067 | a run, in a block at a nonzero page, whose report says that code is read-execute although a page was writable and executable |
| MemoryMapper.AuditStep | native/bridge/ckc_llvm.cpp:416-425 | noting one more initialization keeps the audit equal to the history of initializations |
| MapperLedger.AllRetiredOnce | native/bridge/ckc_llvm.cpp:519-539 | all records have been retired exactly once if and only if none is live and none was overwritten |
| MapperLedger.RetiredInReverse | native/bridge/ckc_llvm.cpp:429-517 | within one release a reservation's allocations go in reverse order of registration, stale entries in its list or not |
| MapperLedger.ForgetKeepsFindable | native/bridge/ckc_llvm.cpp:479-517 | removing a reservation leaves every other live, not orphaned allocation findable through its own |
| MapperLedger.ReserveLosesNothing | native/bridge/ckc_llvm.cpp:243-246 | a reservation over any base keeps every live allocation findable exactly when no findable record is live under that base |
| MapperLedger.RegisterOverwritesNothing | native/bridge/ckc_llvm.cpp:407-412 | a new record takes no other record's place exactly when its base is not live |
| MapperLosses.ReserveThenDestroy | native/bridge/ckc_llvm.cpp:243-246 | starting from a state that loses nothing, reserving and then destroying runs every record's actions exactly once if and only if the reservation failed or every live allocation is named by the list of another base |
| MapperLosses.InitializeMayLose | native/bridge/ckc_llvm.cpp:407-415 | starting from a state that loses nothing, an initialization leaves such a state if and only if it fails or its lowest address was not live |
| MapperLosses.InitializeThenDestroy | native/bridge/ckc_llvm.cpp:407-415 | on the same condition, destruction after it runs every record's actions exactly once |
| MapperLosses.ReplacedReservation | native/bridge/ckc_llvm.cpp:243-246 | a run without any failure in which an allocation stays after the destructor and its action never ran |
| MapperLosses.ReplacedAllocation | native/bridge/ckc_llvm.cpp:407-412 | a run without any failure in which one of two initializations is never deinitialized |
| LayoutPlan.Encode | src/backend/llvm/late_layout.rs:46-70 | a plan is rendered exactly when its functions are distinct and its names well formed and distinct within each function, and then to its lines |
| LayoutParser.ParseLateLayoutPlan | native/bridge/ckc_llvm.cpp:1413-1460 | exactly the texts with schema line, well-formed records and no repeated pair are accepted |
| LayoutParser.GroupIsByFirstAppearance | native/bridge/ckc_llvm.cpp:1440-1460 | interleaved records are grouped by first appearance of their function, each group with its blocks in order |
| LayoutParser.AcceptedPlansRepeatNothing | native/bridge/ckc_llvm.cpp:1413-1460 | an accepted plan has no function twice and no block twice in a function |
| LayoutParser.RoundTrip | native/bridge/ckc_llvm.cpp:1413-1460 | parsing inverts rendering, less directives without blocks |
| LayoutParser.EncodeThenParse | src/backend/llvm/late_layout.rs:46-70 | what is rendered is accepted and comes back, unchanged exactly when every directive names a block |
| LateLayout.SpliceFunction | native/bridge/ckc_llvm.cpp:2686-2692 | the move-after loop yields the entry, the planned blocks in order, then the others in their old order |
| LateLayout.OneMove | native/bridge/ckc_llvm.cpp:2686-2692 | each splice's anchor differs from the block it moves, and the splice extends the planned front by one block |
| LateLayout.ReorderedIsPermutation | native/bridge/ckc_llvm.cpp:2686-2692 | the new order is a permutation with the same entry |
| LateLayout.SnapshotShowsTheOrder | native/bridge/ckc_llvm.cpp:2686-2708 | for a laid-out module the plain snapshot differs exactly when some named function's block order does, and that is exactly when some directive names other blocks than those that follow the entry |
| LayoutSnapshot.StructureIgnoresOrder | native/bridge/ckc_llvm.cpp:1378-1411 | the sorted snapshot is equal for modules that differ in block order only |
| LayoutSnapshot.SnapshotReadsBack | native/bridge/ckc_llvm.cpp:1378-1411 | where names hold no newline and blocks are whole lines that do not look like headings, the plain snapshot can be read back: functions, blocks and instructions in order |
| LayoutSnapshot.PlainSnapshotDecides | native/bridge/ckc_llvm.cpp:1378-1411 | two such modules have one plain snapshot exactly when their defined functions have the same names and the same blocks by name and text, all in the same order |
| LayoutSnapshot.StructuralSnapshotDecides | native/bridge/ckc_llvm.cpp:1378-1411 | two such modules have one structural snapshot exactly when their defined functions are the same up to the order of functions and of blocks |
| LateLayout.IrModule.LateLayoutSnapshot | native/bridge/ckc_llvm.cpp:1378-1411 | the loops build the snapshot text whose plain form determines the order and whose structural form everything but the order |
| LateLayout.IrModule.ResolveDirective | native/bridge/ckc_llvm.cpp:2658-2684 | succeeds exactly when the function is defined and every block exists and is not the entry |
| LateLayout.IrModule.ApplyLateLayout | native/bridge/ckc_llvm.cpp:2612-2715 | accepted exactly for acceptable, resolvable plans; then every named function is laid out and no other changed, the structural snapshot is unchanged, and the report says changed exactly when some named function's block order is not what it was; on any error no function was reordered |
| CoffStubs.LinkGraph.AddProcessStubs | native/bridge/ckc_llvm.cpp:587-646 | refused, untouched, exactly for a process symbol used other than by a direct call, or a reserved section beside calls; otherwise each call reaches its old symbol through stub and pointer, two calls share a stub exactly when they named the same symbol, and every other edge is as it was |
| CoffStubs.LinkGraph.ProcessCalls | native/bridge/ckc_llvm.cpp:588-611 | the collected sites are exactly the uses of process symbols, all direct calls |
| CoffStubs.ProcessSymbols | native/bridge/ckc_llvm.cpp:577-585 | the process symbols are the three external names |
| CoffStubs.RewritingKeepsCalls | native/bridge/ckc_llvm.cpp:628-645 | any complete rewriting through reaching stubs keeps what each call reaches |
| BranchWeights.ScaleWeights | native/bridge/ckc_llvm.cpp:4242-4255 | at most 32 halvings, weights in 1 to 2^32-1 in the common unit 2^k, order kept, the larger weight at least 2^31 after any halving |
| BranchWeights.ScaledIsExact | native/bridge/ckc_llvm.cpp:4242-4255 | these conditions determine the unit and both weights |
| Rotation.RoundIsPermutation | benches/runtime_replay.rs:106-108 | in every round each channel has exactly one position |
| Rotation.WindowIsLatin | benches/runtime_replay.rs:106-108 | in any window of as many rounds as channels, each channel takes each position exactly once |
| Rotation.PositionsAreBalanced | benches/runtime_replay.rs:106-135 | over any number of rounds a channel's turns at two positions differ by at most one |
| Medians.UpperMedianIsTheMiddle | scripts/diagnose-checked-aarch64.py:94-95 | the upper median is the one value with at most half of the values below it and more than half at most it |
| Sampler.Bench.SampleRotatingChannels | benches/runtime_replay.rs:110-135 | the calls made are the plan's, and each channel has exactly one sample for each round, in round order; a failing call stops the run at its place in the plan |
| Sampler.Bench.SampleThreeChannelsUpperMedian | benches/runtime_replay.rs:56-91 | the calls made are the plan's, and each stored value is the upper median of the channel's calls in that round; a failing call stops the run at its place in the plan |
| Sampler.Bench.SampleUpperMedian | benches/runtime_replay.rs:94-104 | the middle order statistic of the calls made, or the first failure |
| Schedule.RoundCallsEachPerTurn | benches/runtime_replay.rs:76-90 | a round of several turns calls each channel once in each turn |
| Schedule.TurnIsRound | scripts/check-runtime-observations.py:34-39 | the sampler's and the checker's formula for the next channel agree |
| TraceChecker.MakeSchedule | scripts/check-runtime-observations.py:34-39 | the nested loops generate the same plan that the sampler follows |
| TraceChecker.RegroupingAgrees | scripts/check-runtime-observations.py:81-93 | regrouping the flat log by the schedule gives, for each channel and round, the sampler's own calls of that round |
| TraceChecker.Analyze | scripts/check-runtime-observations.py:66-111 | accepts exactly the logs that follow the schedule with positive durations and whose medians are the reported ones; an accepted log is that of some run which made the planned calls in order |
| TraceChecker.FittingIsLogged | scripts/check-runtime-observations.py:81-88 | the lines fit the schedule exactly when they are the log of a run that made the planned calls in order, each taking some time |
| TraceChecker.CheckerAgreesWithSampler | scripts/check-runtime-observations.py:81-111 | the log of any complete sampler run is accepted exactly with the sampler's own orders and stored medians and durations above zero |
| ContractHeader.FlattenKeepsOrder | src/backend/header.rs:92-99 | flattening lists the leaves in the order of a left-to-right walk, and nothing else does |
| ContractHeader.FlattenKeepsTruth | src/backend/header.rs:92-99 | flattening leaves no conjunction and keeps the truth value under every model |
| ContractHeader.PushSignedComponent | src/backend/header.rs:146-171 | appending a component adds its amount to what the text denotes, and leaves the text alone exactly for magnitude zero |
| ContractHeader.FormatAffine | src/backend/header.rs:131-144 | the text is empty exactly when all components are zero, and is otherwise read with the expression's value, whatever its parameters and slice lengths are worth, by every reader whose name `n` stands for parameter `n` and `n_len` for the length of slice `n` |
| ContractHeader.FormatPredicate | src/backend/header.rs:101-129 | the text of a predicate without an all-zero expression is read with its truth value by every reader whose names stand for what it speaks about; any other text cannot be read |
| ContractHeader.LinesMeanTheContract | src/backend/header.rs:53-59 | for such a reader the lines can be read and all hold exactly when the contract is true and no expression in it is all zero |
| ContractHeader.ReadersExist | src/backend/header.rs:133-137 | names can stand for two terms, whatever these are worth, exactly when they are not the length of a slice and a parameter named like it |
| ContractHeader.PrintZeroBound | src/backend/header.rs:140-152 | the printed form of `x >= 0` cannot be read |
| ContractText.ReadAffineAdds | src/backend/header.rs:154-170 | a reader of sums gets the old value plus or minus the component that was appended |
| CommandLine.ParseArguments | src/cli/args.rs:137-311 | the index loop with its final checks computes the parse of the list |
| CommandLine.CheckCombinations | src/cli/args.rs:283-310 | the checks of the options against each other, in the parser's order, compute the final result |
| CommandLineItems.AcceptedLines | src/cli/args.rs:137-456 | a command line is accepted exactly when it is a list of items that the command takes, four options given at most once, whose meaning (words in order, the last value of each option, the switches that occur) contains no contradiction |
| CommandLineItems.ReadExactly | src/cli/args.rs:137-282 | the arguments are read exactly when they are such a list of items, and the options are then what these mean |
| CommandLineItems.UnknownIsNeverAccepted | src/cli/args.rs:278 | a list with an unknown dashed word in option position, after any items, is refused |
| CommandLineItems.AcceptedUnlessContradicting | src/cli/args.rs:283-456 | the final checks pass exactly the options that do not contradict each other, level by level, and give a native consumer the baseline CPU |
| CommandLineRoundTrip.AcceptedIsFit | src/cli/args.rs:137-456 | accepted options are all allowed for the command, hold no value that looks like an option, and pass the final checks unchanged |
| CommandLineRoundTrip.OnceOnlyStays | src/cli/args.rs:412-418 | a once-only option keeps its first value through any accepted rest |
| CommandLineRoundTrip.RenderingParses | src/cli/args.rs:137-311 | fit options, written down in a fixed order, parse to what the final checks make of them |
| CommandLineRoundTrip.RoundTrip | src/cli/args.rs:137-456 | every accepted command line is equivalent to the rendering of its own result |
| PgoWorkflow.RunBuildWorkflow | src/cli/pgo.rs:124-208 | starts exactly for an accepted request with one input, an output and a separate profile; both synthesized lists then parse, and to an executable build of the same input at level 3 with the same overflow, bounds and CPU choices, the first with generate only, the second with use only, nothing else set |
| PgoWorkflow.RequestHasNoTarget | src/cli/args.rs:381-398 | an accepted request has no target and no sanitizer, and asks for multiversioning only at level 3 |
| PgoWorkflow.LevelIsKeptOnlyAtThree | src/cli/pgo.rs:151-208 | for every accepted request, both builds are at the requested level if and only if that is 3, which means no level or `3` was given |
| PgoWorkflow.AcceptedLevels | src/cli/args.rs:442-453 | a request with any level text is accepted if and only if it is a level from 0 to 3, and 3 with multiversioning |
| PgoWorkflow.RequestedLevelIsNotUsed | src/cli/pgo.rs:151-208 | a request at level 0 is accepted and both its builds are at level 3 |

## Left out

- File-system detail: permissions, fsync, directories, symbolic links and error wording; which paths are names of the same file, and which directory a path leads to, are arbitrary functions, and making directories, the identity check and the link check are calls that may fail, each at its own moment. The transaction is the only writer, and the existence probe at src/cli/output.rs:223 tells the truth (the source reads a metadata error as absent).
- Names of stages and backups: a sibling name is a value made of its destination, serial number and role, so it never equals an output path.
- LexicalPath.NormalizeKeepsTheNode: for paths that resolve; a path through a missing directory may resolve only after normalization. Windows prefixes are not modelled.
- Memory orders of the dispatch slot: it is one location, on which all threads see one order of changes; raw CPU detection and the numeric tier constants (their header is not part of this model) are abstract.
- StackCapture.Runtime.CaptureInitialStack: addresses are indexes into the image; pointer width is not modelled.
- The Darwin write-protection path, the RuntimeDyld mapper, instruction-cache counters and the interleaving of calls under the mapper's mutex.
- MemoryMapper.Mapper.Reserve: the kernel hands out a range of which no page is mapped.
- MemoryMapper.Mapper.Initialize: page protections of live allocations are stated for segments that share no page.
- MemoryMapper.FailedInitialization: its exact condition is for runs without failing system calls; after a protection call that failed, which pages changed is the kernel's choice, and only the bounds of `ReportIsSound` hold; the condition of `SuccessfulInitialization` needs no such assumption.
- MemoryMapper.Mapper.Destroy: the destructor releases in an order that the source leaves to a hash map; the result is proved for every order.
- LayoutSnapshot.PlainSnapshotDecides: for names without newlines and instruction lines that do not begin like a block's or a function's heading; where they do, two modules may share a snapshot.
- LLVM, LLD and JITLink internals, object parsing and instruction printing: a block's text is a fixed value, so the refusal of a changed structural snapshot (native/bridge/ckc_llvm.cpp:2697-2700), which the source keeps because printed text might depend on block order, cannot occur in the model; digests are the text itself, and the pointer and stub blocks have the form the library gives them.
- Null arguments of the bridge functions and text encodings: names are sequences of characters.
- Error texts, where only the kind of error decides: they are constructors or short messages.
- Sampler: wrap-around of the round counter, 128-bit durations, the twelve-channel wrapper and resource counters; the logged duration of a call is the one the sampler received. The checker's file identity and counter checks are left out, and its fixed counts are parameters.
- ContractHeader: the effects line and the comment frame are not modelled.
- PgoWorkflow.RunBuildWorkflow: running the builds and the training process, merging shards and publishing the results; temporary paths are assumed not to begin with two dashes, and joining with the current directory is an arbitrary function.
- src/cli/commands.rs, build scripts, report writing and diagnostics would add only easy claims.
