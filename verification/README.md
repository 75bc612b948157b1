# A verified model of a transactional-memory toolchain

This project models, in Dafny, the parts of a transactional-memory compiler plugin, its runtime and
its simulator that are hard to get right, and proves what they are for.

* **WBCTL transactions** (`LockWord`, `TmSpec`, `TmSerial`, `TmHistory`, `TmModel`): the write-back, commit-time
  locking algorithm of the simulator. `TmModel.Model` is the object with its clock, lock table,
  transaction table and committed values, and the loops of the source. `TmSpec` gives each call as a
  function of the state, and every method is proved to compute it. `TmSerial` takes any interleaving
  of calls by any threads and compares it with plain serial execution. `TmHistory` says what every call of
  every run answers, from the history alone.
* **The eventually consistent bank** (`EcBank`, `EcSystem`, `EcRun`, `EcLedger`, `EcReplica`): replicas that
  append operations, merge each other's published logs and compensate overdrafts, as interleaved steps; the same
  on plain sets of operations; and the replica object with the merge, repair and quiesce loops.
* **Hardware transactions with a lock fallback** (`TsxSgl`, `TsxProgress`, `TsxExact`): threads with FIFO store
  buffers, hardware transactions that a foreign store dooms, and the optional fence.
* **The instrumentation passes**: collection, cloning and redirection of functions (`CallGraph`,
  `Cloning`, `CloneClosure`), the lowering of memory intrinsics (`Bytes`, `MemLowering`), typed access
  (`TypedAccess`), the injected nesting and retry control flow (`Nesting`), and the two stack-pointer
  analyses (`StackPointers`).
* **Smaller cores**: the livelock detector (`Deadlock`), the batched begin (`BatchedBegin`), and
  speculative allocation with deferred frees (`SpecAlloc`).

`Options` is a shared helper. `dafny verify dfyconfig.toml` checks the whole project.

## Where the code does less than one would hope

Each of these is stated as an equivalence whose right-hand side can be checked beforehand.

* The memcpy/memmove lowering copies forward in chunks of eight. It is a memmove on every memory iff
  `dst <= src`, or the ranges are disjoint, or the length is exactly eight
  (`MemLowering.LoweredIsMemmoveIff`; `MemLowering.OverlapLoses` builds the memory that is copied wrongly).
* Vectors are split at a stride of the element's scalar size in whole bytes, which is 0 and then 1 for pointers
  and drops the odd bits of other widths, and integers without a hook of their own width go through the next wider
  one, of at most 64 bytes. Writing and reading back returns the vector iff it is empty, or its elements are integers
  of at most 512 bits whose width is a multiple of eight or below eight, or a single integer of at most 512 bits, or a
  single pointer, or of any other type (`TypedAccess.SplitRoundTripsIff`). A wider hook also writes past the last
  element. Pointers and other types never reach past the vector; of the integers of whole bytes exactly those of
  8, 16, 32, 64, 128 or 256 bits and those from 512 bits on do not (`TypedAccess.WholeWidthsConfinedIff`), and for
  the other widths it depends on the number of elements (`TypedAccess.SplitConfinedIff`).
  `TypedAccess.OddWidthLost` and `TypedAccess.OddWidthSpills` are examples.
  Reading through a wider hook likewise stores past the element's stack buffer; that overrun is not modelled.
* With a retry budget the block that gives up returns through the common cleanup, which decrements the
  counter once more. A thread ends with a balanced counter iff none of its top-level calls used up the
  budget (`Nesting.ThreadBalancedIff`); afterwards the counter never recovers (`Nesting.NeverRecovers`), a
  function that is called begins no transaction, and each transactional call that it makes itself becomes a
  transaction of its own (`Nesting.GiveUpSplits`; `Nesting.GiveUpDisables` for functions without such calls).
* A redirected module lets transactions reach only transactions, clones and functions left out on purpose
  iff no thread entry, main or runtime function that a transaction reaches calls a function that gets cloned
  (`CloneClosure.ClosedIff`, with the module of `CloneClosure.ThreadBetweenEscapes` as an example that is not).
* Both stack-pointer analyses look only at direct calls. Each is right for all values and executions iff it answers
  false for the parameters of entry functions (`StackPointers.TraceSoundIff`, `StackPointers.AnswerSoundIff`). On the
  call graph alone: iff from each such parameter the search has a chain of call sites, every one passing on a
  parameter of its caller, that ends at a call passing neither a stack slot nor a parameter or closes a cycle
  (`StackPointers.AnswerSoundIffChains`), and the trace has a path that gets stuck or passes the depth limit
  (`StackPointers.TraceSoundIffTrails`). The
  memoised search answers true for functions without call sites, so thread routines with parameters that nobody calls
  defeat it (`StackPointers.EntryParameterMisjudged`, `StackPointers.ParameterlessEntries`); the depth-bounded trace
  answers false there (`StackPointers.UncalledEntriesUntraced`). A thread routine that is also called directly with a
  stack slot defeats both (`StackPointers.CalledEntryMisjudged`).
* Without the fence an update is lost: for given `M`, threads and `N` the final count is exact in every run iff
  `M == 1`, or there is at most one thread, or `N == 0` (`TsxExact.ExactForIff`, with the losing runs of
  `TsxExact.UnfencedLoses`).
* The bench accepts a negative initial balance. Replicas still quiesce, agree and conserve the total, but no account
  ends in debt iff the initial balance is not negative, or there are no accounts or no replicas
  (`EcReplica.Quiesce`, `EcReplica.RestIsSolventIff`).
* Two written addresses that share a stripe always make a commit fail, since locking does not look at the
  owner. `tm_end` succeeds iff since none of its accesses somebody has committed to the stripe of that access, and
  the addresses written lie in different stripes (`TmHistory.EndAnswers`).
* A lock names its owner iff the thread id fits the owner field (`LockWord.LockNamesOwnerIffTidFits`).

## Model

| member | source | states |
|---|---|---|
| LockWord.FieldsDetermineWord | simulator/src/tm_model.rs:19-66 | version, owner, incarnation and owned bits together cover the 64-bit word: equal fields, equal words |
| LockWord.NewFields | simulator/src/tm_model.rs:20-22 | a new word has the given version and is free |
| LockWord.TryLockFields | simulator/src/tm_model.rs:45-53 | locking succeeds iff the word is unlocked, then changes only the owner and owned fields, and otherwise nothing |
| LockWord.UnlockOwnerFields | simulator/src/tm_model.rs:55-61 | unlocking by the owner clears owner and owned bits and keeps version and incarnation; by another thread it changes nothing |
| LockWord.WriteLockedField | simulator/src/tm_model.rs:28-30 | the write-lock test on the bits is the one on the fields |
| LockWord.SetVersionFields | simulator/src/tm_model.rs:40-43 | setting the version changes no other field |
| LockWord.LockUnlockRestores | simulator/src/tm_model.rs:45-61 | lock then unlock gives back the very same 64-bit word, for every free word and every thread id that fits |
| LockWord.LockPublishSetsVersion | simulator/src/tm_model.rs:45-66 | lock then unlock with a version is the same as setting the version on the free word |
| LockWord.LockNamesOwnerIffTidFits | simulator/src/tm_model.rs:32-53 | every successful lock names its owner iff the thread id fits 13 bits |
| LockWord.LockExcludes | simulator/src/tm_model.rs:24-53 | a word that has been taken is write-locked and cannot be taken again by anybody |
| TmSpec.InitialWords | simulator/src/tm_model.rs:168-168 | every lock of a new model is the 64-bit word of version 0 |
| TmSpec.SharedStripe | simulator/src/tm_model.rs:73-75 | two addresses share a lock iff their 8-byte words are a multiple of 16384 apart |
| TmSpec.ReadKeepsQuiet | simulator/src/tm_model.rs:244-320 | a read of any outcome leaves every lock word free |
| TmSpec.WriteKeepsQuiet | simulator/src/tm_model.rs:322-413 | a write of any outcome leaves every lock word free and the write set without duplicate addresses |
| TmSpec.CommitKeepsQuiet | simulator/src/tm_model.rs:415-514 | commit, successful or not, leaves every lock word free with a version at most the clock, and the clock does not go back |
| TmSerial.SnapshotValue | simulator/src/tm_model.rs:244-320 | a stripe version within the snapshot means that the snapshot and the present agree on the address |
| TmSerial.ValidatedIsCurrent | simulator/src/tm_model.rs:212-230 | a read set that validates makes the whole transaction legal against the present store |
| TmSerial.ExtendedOk | simulator/src/tm_model.rs:281-300 | snapshot extension keeps all earlier reads legal in the extended snapshot |
| TmSerial.ReadKeeps | simulator/src/tm_model.rs:244-320 | every read, of any outcome, keeps the global invariant |
| TmSerial.WriteKeeps | simulator/src/tm_model.rs:322-413 | every write, of any outcome, keeps the global invariant |
| TmSerial.PlaceLegal | simulator/src/tm_model.rs:415-426 | a read-only transaction can be placed at its snapshot without changing what any other transaction saw |
| TmSerial.CommitKeeps | simulator/src/tm_model.rs:415-514 | every commit attempt keeps the global invariant |
| TmSerial.NextKeeps | simulator/src/tm_model.rs:232-545 | any call by any thread keeps the global invariant |
| TmSerial.RunsKeepInv | simulator/src/tm_model.rs:164-545 | the invariant holds after every interleaving of calls |
| TmSerial.LocksFreeBetweenCalls | simulator/src/tm_model.rs:164-545 | between any two calls of any run every lock word is free and no version exceeds the clock, so every call of every thread can follow |
| TmSerial.Opacity | simulator/src/tm_model.rs:212-320 | after any run, all operations of every active transaction, even one that will abort, come from one snapshot that is not older than its begin, and no commit between an observed version and the snapshot touched that stripe |
| TmSerial.StrictSerializability | simulator/src/tm_model.rs:415-514 | after any run, the committed transactions in commit-version order form a legal serial execution that ends in the committed values and respects real time |
| TmHistory.RunsStamped | simulator/src/tm_model.rs:164-545 | in every run the version of every stripe is the place in the serial order of the last committed transaction that wrote it, or 0 |
| TmHistory.ValidatesIff | simulator/src/tm_model.rs:212-230 | a read set validates iff no committed transaction placed above the version an entry observed wrote the stripe of that entry |
| TmHistory.ConflictIff | simulator/src/tm_model.rs:212-230 | a read set validates iff since none of its accesses somebody has committed a write to the stripe of that access |
| TmHistory.RunsOpen | simulator/src/tm_model.rs:232-545 | in every run a transaction is active exactly from its begin to its commit, abort or end, whatever these answer |
| TmHistory.ReadAnswers | simulator/src/tm_model.rs:244-320 | in every run a read answers with the last own write to the address, else with the place of the last commit to the stripe; it fails iff that commit is past the horizon and an earlier access was overtaken by a commit, or outside a transaction |
| TmHistory.WriteAnswers | simulator/src/tm_model.rs:322-413 | in every run a write succeeds unless the stripe was committed to past the horizon and an earlier access was overtaken |
| TmHistory.EndAnswers | simulator/src/tm_model.rs:535-545 | in every run tm_end succeeds iff the transaction is active, no access was overtaken and the addresses written lie in different stripes, and names the failure otherwise |
| TmHistory.CommitAnswers | simulator/src/tm_model.rs:415-514 | the same for tm_commit alone, which lets a transaction that never called tm_write through without looking |
| TmHistory.UndisturbedSucceeds | simulator/src/tm_model.rs:232-545 | if nobody has committed since its begin, every access of a transaction succeeds, and its end does iff its stripes are apart |
| TmHistory.CountersCount | simulator/src/tm_model.rs:415-533 | in every run commits, aborts and the clock are the numbers of successful ends, of aborted ones, and of writers that reached their last validation |
| TmHistory.RetriesCount | simulator/src/tm_model.rs:516-533 | in every run the retry counter of a thread is the number of its aborts |
| TmModel.SortDedupSorted | simulator/src/tm_model.rs:433-436 | the lock order is strictly increasing and holds exactly the written addresses |
| TmModel.DistinctStripesSorted | simulator/src/tm_model.rs:433-470 | the sorted addresses hit each stripe once iff the write set has distinct stripes |
| TmModel.HeldKeepsValidation | simulator/src/tm_model.rs:440-492 | holding its own locks does not change whether a transaction validates |
| TmModel.ReleaseRestores | simulator/src/tm_model.rs:454-492 | releasing what was acquired gives back the lock table as it was |
| TmModel.Model.constructor | simulator/src/tm_model.rs:165-179 | a new model is the initial state of the state machine |
| TmModel.Model.ValidateReadSet | simulator/src/tm_model.rs:212-230 | the loop decides exactly whether every read entry still holds |
| TmModel.Model.TmBegin | simulator/src/tm_model.rs:232-242 | computes the begin step and keeps the lock table quiet |
| TmModel.Model.TmRead | simulator/src/tm_model.rs:244-320 | the spinning read computes the read step: value or failure and the whole new state |
| TmModel.Model.TmWrite | simulator/src/tm_model.rs:322-413 | the spinning write computes the write step |
| TmModel.Model.AcquireAll | simulator/src/tm_model.rs:433-470 | acquisition in address order holds exactly the written stripes, or fails and restores the table, as stripes are distinct or not |
| TmModel.Model.RollBack | simulator/src/tm_model.rs:486-492 | a failed validation under the locks restores the lock table and aborts |
| TmModel.Model.WriteBackAll | simulator/src/tm_model.rs:494-500 | the loop stores the write set in order, later entries over earlier ones |
| TmModel.Model.PublishAll | simulator/src/tm_model.rs:501-503 | unlocking with the commit version stamps exactly the held stripes |
| TmModel.Model.FinishUpdate | simulator/src/tm_model.rs:472-503 | under the locks: validates, then writes back and publishes, or aborts with the table restored |
| TmModel.Model.TmCommit | simulator/src/tm_model.rs:415-514 | lock, validate, write back and unlock together compute the atomic commit step |
| TmModel.Model.TmAbort | simulator/src/tm_model.rs:516-533 | abort releases the held locks and clears the transaction |
| TmModel.Model.TmEnd | simulator/src/tm_model.rs:433-545 | computes the end step, which on an active transaction succeeds iff the read set validates and the write addresses lie in distinct stripes; a failure changes no lock word and no committed value |
| EcBank.FoldSplit | research/ec-bank/ec_bank_bench.cpp:105-116 | the fold of a set of operations does not depend on the order in which they are taken |
| EcBank.DeliverKeepsView | research/ec-bank/ec_bank_bench.cpp:106-139 | delivering an operation keeps the balance equal to the fold of the applied set, and ignores a duplicate |
| EcBank.DeliverConserves | research/ec-bank/ec_bank_bench.cpp:106-116 | delivery conserves the total |
| EcBank.CompAppliedIffRepaired | research/ec-bank/ec_bank_bench.cpp:143-176 | a compensation is applied iff its parent is marked repaired, so no view compensates an operation twice |
| EcBank.RepairedIsNonNegative | research/ec-bank/ec_bank_bench.cpp:143-176 | in a set closed under parents whose debits of an account are all compensated, the account's fold is not negative |
| EcSystem.EqualIdsEqualOps | research/ec-bank/ec_bank_bench.cpp:45-54 | across the whole system, equal ids mean equal operations |
| EcSystem.EqualIdsEqualViews | research/ec-bank/ec_bank_bench.cpp:106-139 | replicas with equal id sets have equal operations, balances, repair marks and debit sets |
| EcSystem.CommitKeeps | research/ec-bank/ec_bank_bench.cpp:189-197 | a commit by any replica keeps the system invariant |
| EcSystem.MergeKeeps | research/ec-bank/ec_bank_bench.cpp:119-139 | merging one published record keeps the system invariant and adds exactly its id |
| EcSystem.RepairKeeps | research/ec-bank/ec_bank_bench.cpp:143-176 | a compensation keeps the system invariant, although it jumps the replica's own cursor |
| EcSystem.CursorJump | research/ec-bank/ec_bank_bench.cpp:171-171 | the jump of the own cursor skips no operation that is not applied |
| EcRun.RunsKeepInv | research/ec-bank/ec_bank_bench.cpp:106-203 | the invariant holds in every state of every interleaving of commits, merges and repairs |
| EcRun.ViewInEveryRun | research/ec-bank/ec_bank_bench.cpp:45-139 | in every run each balance is the initial value plus the fold of the applied set, the total is conserved, and compensations are exactly once |
| EcRun.AgreementInEveryRun | research/ec-bank/ec_bank_bench.cpp:45-139 | in every run equal ids mean equal operations, and equal id sets mean equal views |
| EcRun.CaughtUpAgree | research/ec-bank/ec_bank_bench.cpp:119-139 | replicas that have merged all logs agree on ids, operations and balances |
| EcRun.CaughtUpClosed | research/ec-bank/ec_bank_bench.cpp:119-139 | a replica that has merged all logs knows the parent of every compensation it has applied |
| EcRun.SettledNonNegative | research/ec-bank/ec_bank_bench.cpp:143-176 | a caught-up replica with nothing left to compensate on an account has no debt there |
| EcRun.RepairGoesOn | research/ec-bank/ec_bank_bench.cpp:147-173 | a worker in its repair pass can always go on: on a negative account it finds a greatest open debit to compensate, or there is none left |
| EcRun.WorkerGoesOn | research/ec-bank/ec_bank_bench.cpp:119-203 | in every state of every run every worker has a step of its own, so no worker is ever stuck |
| EcLedger.CommitMoves | research/ec-bank/ec_bank_bench.cpp:189-197 | a commit of (src, dst), once merged by a replica that had read everything, moves one unit from src to dst and changes no other account |
| EcLedger.CommitsAreLogged | research/ec-bank/ec_bank_bench.cpp:179-203 | in every run the commits in the logs add up, account by account, to the transfers that were made |
| EcLedger.SeqnoCounts | research/ec-bank/ec_bank_bench.cpp:102-102 | in every run the sequence number of a replica is the number of its commits |
| EcLedger.RepairsAreNeeded | research/ec-bank/ec_bank_bench.cpp:143-176 | in every run a compensation undoes the greatest open commit out of an account that is negative in the view of the worker, and adds nothing else |
| EcLedger.FixStep | research/ec-bank/ec_bank_bench.cpp:147-172 | compensating the greatest open debit of a negative account is one step of a repair pass over the set of operations |
| EcLedger.SolventUnchanged | research/ec-bank/ec_bank_bench.cpp:147-147 | a repair pass over a set that leaves no account negative changes nothing |
| EcLedger.FixAdds | research/ec-bank/ec_bank_bench.cpp:143-176 | a pass drops nothing, and all it adds undoes a commit of the set |
| EcLedger.SolventIsFinal | research/ec-bank/ec_bank_bench.cpp:206-218 | operations that leave no account negative are already final, so quiescing adds nothing to them |
| EcLedger.CaughtUpOps | research/ec-bank/ec_bank_bench.cpp:119-139 | a replica that has read every log has applied exactly what the logs hold |
| EcReplica.Replica.Insert | research/ec-bank/ec_bank_bench.cpp:129-134 | an operation is applied iff its id is new |
| EcReplica.Replica.FindCulprit | research/ec-bank/ec_bank_bench.cpp:148-158 | finds the greatest uncompensated debit of the account, iff there is one |
| EcReplica.Replica.Compensation | research/ec-bank/ec_bank_bench.cpp:159-172 | appends, publishes and applies the compensation derived from the culprit |
| EcReplica.MergeRound | research/ec-bank/ec_bank_bench.cpp:119-139 | keeps the system invariant, leaves the replica caught up with every log, and reports growth iff its ids grew |
| EcReplica.RepairOnce | research/ec-bank/ec_bank_bench.cpp:147-173 | each inner iteration takes exactly the culprit out of the uncompensated debits |
| EcReplica.RepairPass | research/ec-bank/ec_bank_bench.cpp:143-176 | terminates; what is applied afterwards is what one pass over accounts in order makes of the set applied before; if it repaired nothing, every account is solvent or has nothing left to compensate |
| EcReplica.MissingShrinks | research/ec-bank/ec_bank_bench.cpp:206-218 | the number of ids not yet applied, over all replicas, never grows, and falls whenever a replica learns an id |
| EcReplica.Round | research/ec-bank/ec_bank_bench.cpp:208-217 | one round turns the set of all operations into what one repair pass makes of it, and lowers the number of missing ids unless nothing changed |
| EcReplica.RestIsSettled | research/ec-bank/ec_bank_bench.cpp:206-218 | a system at rest has equal views and conserved totals, for any initial balance |
| EcReplica.RestIsSolventIff | research/ec-bank/ec_bank_bench.cpp:206-218 | a system at rest has no negative account iff the initial balance is not negative, or there are no accounts or no replicas |
| EcReplica.Quiesce | research/ec-bank/ec_bank_bench.cpp:206-218 | for any initial balance terminates; every replica has then applied exactly the final form of the set of operations that the logs held at the start, whatever each had read by then; all agree, the total is conserved, and no account is negative iff the initial balance is not (or there is nothing to owe) |
| TsxSgl.NextKeeps | benchmarks/tsx/tsx_sgl_ablation.c:24-35 | every step of the fenced program keeps the invariant over memory, store buffers and open transactions |
| TsxSgl.FencedLosesNothing | benchmarks/tsx/tsx_sgl_ablation.c:24-35 | in every state of every interleaving of any number of threads the counter in memory is the number of landed increments, so the final value is threads times iterations |
| TsxProgress.NextKeepsLive | benchmarks/tsx/tsx_sgl_ablation.c:24-35 | a taken mutex always has a holder that still has something to do |
| TsxProgress.CanMove | benchmarks/tsx/tsx_sgl_ablation.c:24-35 | in every unfinished state some thread has a step that lowers the work left, so the mutex and sgl_owner cannot deadlock |
| TsxProgress.FencedCanFinish | benchmarks/tsx/tsx_sgl_ablation.c:24-35 | from every reachable state, for any number of threads and iterations, there is a run to the end, with every increment counted |
| TsxProgress.FencedHasRun | benchmarks/tsx/tsx_sgl_ablation.c:24-35 | finished runs exist for every number of threads and iterations |
| TsxExact.ReachedAlone | benchmarks/tsx/tsx_sgl_ablation.c:24-35 | a single thread, fenced or not, sees its own increments through its store buffer in every state of every run |
| TsxExact.CalmFinishes | benchmarks/tsx/tsx_sgl_ablation.c:24-35 | from any reachable state in which nobody is inside an increment there is a run to the end that loses nothing more, in every mode |
| TsxExact.UnfencedLoses | benchmarks/tsx/tsx_sgl_ablation.c:24-35 | without the fence, for every two or more threads and every N of at least one, there is a finished run that counts one too few |
| TsxExact.FinishedExact | benchmarks/tsx/tsx_sgl_ablation.c:24-35 | with the fence, with at most one thread or with nothing to count, every finished run counts threads times N |
| TsxExact.ExactForIff | benchmarks/tsx/tsx_sgl_ablation.c:24-35 | for given M, threads and N the final count is exact in all runs iff M is 1, or there is at most one thread, or N is 0 |
| TsxExact.ExactIffFenced | benchmarks/tsx/tsx_sgl_ablation.c:24-35 | the final count is exact in all runs of all numbers of threads and iterations iff M is 1 |
| TsxExact.LateFence | benchmarks/tsx/tsx_sgl_ablation.c:24-35 | in mode 2 nobody unlocks with a store still in its buffer |
| CallGraph.Collector.Build | plugin/analysis/tm_call_graph.hpp:28-54 | adds exactly unvisited functions that the root reaches, and follows every direct call out of them |
| CallGraph.Collector.Collect | plugin/analysis/tm_call_graph.hpp:56-69 | adds exactly what the transaction reaches by direct calls of defined functions |
| CallGraph.CollectAll | plugin/analysis/tm_call_graph.hpp:28-69 | over all transactions the collected set is exactly direct-call reachability |
| Cloning.ComputeClonable | plugin/passes/tm_method_instrumentation.hpp:530-571 | selects exactly the reachable functions that are not left out on purpose and, when instrumenting, take no pointer or a traced one |
| Cloning.Pass.CloneAll | plugin/passes/tm_method_instrumentation.hpp:656-683 | every clonable function has one clone with its attributes and its body, and nothing else changes |
| Cloning.Pass.RedirectCalls | plugin/passes/tm_method_instrumentation.hpp:576-651 | one more redirection of a function adds the call sites traced this time to those of earlier rounds, and its body is the original with exactly those redirected; the trace may answer anything in any round |
| Cloning.Pass.RedirectTx | plugin/passes/tm_method_instrumentation.hpp:727-748 | after the transactions and three more rounds over the clones, exactly transactions and clones are redirected |
| Cloning.RedirectTwice | plugin/passes/tm_method_instrumentation.hpp:741-747 | two redirections with different trace results are one with their union, so a round that traces nothing new changes nothing |
| Cloning.CallsAfter | plugin/passes/tm_method_instrumentation.hpp:576-651 | the calls of a function afterwards are exactly its original calls, each to the clone iff the caller is redirected, the callee has a clone and, when instrumenting, the callee or the call site has a traced argument |
| Cloning.BodiesSimilar | plugin/passes/tm_method_instrumentation.hpp:576-748 | whatever call sites were redirected in whatever rounds, every body equals its original up to calling clones |
| Cloning.MeaningKept | plugin/passes/tm_method_instrumentation.hpp:576-748 | for any choice of redirected call sites, each function and each clone computes what the original function computes, for every amount of fuel, every state and every meaning of the operations |
| Cloning.Transform | plugin/passes/tm_method_instrumentation.hpp:530-748 | collect, clone and redirect together: a clone exists exactly for the reached functions with a body that are not tm_*, shared, thread entries or main and, when instrumenting, have no pointer argument or a traced one; exactly transactions and clones are redirected; a call site counts only if some round traced it and surely if every round does; every body is similar to its original |
| CloneClosure.EdgeAfter | plugin/passes/tm_method_instrumentation.hpp:576-651 | every call of the original is still there, to the clone where the caller is redirected and a clone exists |
| CloneClosure.EdgeBefore | plugin/passes/tm_method_instrumentation.hpp:576-651 | every call after redirection comes from a call of the original |
| CloneClosure.StaysSettled | plugin/passes/tm_method_instrumentation.hpp:530-748 | under that condition everything a transaction reaches is settled |
| CloneClosure.ImageReached | plugin/passes/tm_method_instrumentation.hpp:530-748 | what a transaction reached before it still reaches, by its clone if it has one |
| CloneClosure.TraceIrrelevant | plugin/passes/tm_method_instrumentation.hpp:607-630 | in the modes that look at no trace, the redirected body does not depend on what was traced |
| CloneClosure.TransformIsRedirected | plugin/passes/tm_method_instrumentation.hpp:656-748 | what the transformation promises in the modes that clone everything meets the premise of the closure theorem |
| CloneClosure.ClosedIff | plugin/passes/tm_method_instrumentation.hpp:530-748 | transactions reach only transactions, clones and deliberately uncloned functions iff no reached thread entry, main or runtime function calls a clonable function |
| CloneClosure.ThreadBetweenRedirected | plugin/passes/tm_method_instrumentation.hpp:656-748 | the redirected form of a transaction that calls a thread entry that calls a helper |
| CloneClosure.ThreadBetweenEscapes | plugin/passes/tm_method_instrumentation.hpp:536-541 | in that module the transaction still reaches the uncloned helper |
| Nesting.Thread.Enter | plugin/passes/tm_instrument_helpers.hpp:659-779 | the emitted entry, body and return path compute the call step, with nested calls incrementing the counter |
| Nesting.Thread.Body | plugin/passes/tm_instrument_helpers.hpp:624-829 | a body runs its transactional calls in order and stops at the first that jumps |
| Nesting.Thread.Outer | plugin/passes/tm_instrument_helpers.hpp:688-773 | the sigsetjmp loop with its optional budget computes the retry step |
| Nesting.NestedSilent | plugin/passes/tm_instrument_helpers.hpp:775-779 | inside a transaction, for every call tree with aborts at any depth, nothing is emitted, the outcome is whether the tree aborts, and the counter comes back |
| Nesting.TrySucceeds | plugin/passes/tm_instrument_helpers.hpp:688-829 | k aborts and then success emit k+1 begins and one end and leave the counter at 0 |
| Nesting.TryGivesUp | plugin/passes/tm_instrument_helpers.hpp:700-763 | when the budget is used up there are exactly that many begins, no end, and the counter is -1 |
| Nesting.TryUnfinished | plugin/passes/tm_instrument_helpers.hpp:688-829 | while every try aborts within the budget there is one begin per try and no end |
| Nesting.OutermostCall | plugin/passes/tm_instrument_helpers.hpp:688-829 | an outermost call returns iff a try gets through or the budget runs out, and its counter is 0 iff it aborted less often than the budget |
| Nesting.AttemptsBounded | plugin/passes/tm_instrument_helpers.hpp:700-763 | with a budget N the body of an outermost call runs at most N times |
| Nesting.ThreadTrace | plugin/passes/tm_instrument_helpers.hpp:624-829 | within its budget, if any, every thread's trace is one block of k+1 begins and an end per top-level call, and the counter ends at 0 |
| Nesting.GiveUpSplits | plugin/passes/tm_instrument_helpers.hpp:753-829 | once a call has given up, a called function begins no transaction and every transactional call that it makes within the budget is an outermost one: the trace of the thread is the blocks of those inner calls |
| Nesting.GiveUpDisables | plugin/passes/tm_instrument_helpers.hpp:753-829 | in particular, calls of leaf functions then begin no transaction |
| Nesting.NeverRecovers | plugin/passes/tm_instrument_helpers.hpp:753-829 | a counter that is not positive never rises again, whatever is called |
| Nesting.ThreadBalancedIff | plugin/passes/tm_instrument_helpers.hpp:624-829 | a thread ends with counter 0 iff no top-level call used up the budget |
| MemLowering.BroadcastBytes | plugin/passes/tm_method_instrumentation.hpp:144-148 | multiplying by 0x0101010101010101 puts the byte in all eight places |
| MemLowering.Memset | plugin/passes/tm_method_instrumentation.hpp:115-164 | the two loops write exactly the bytes from dst to dst+len with the value, for every length and address |
| MemLowering.CopyHooks | plugin/passes/tm_method_instrumentation.hpp:188-192 | reading an integer and writing it back moves the bytes |
| MemLowering.Memmove | plugin/passes/tm_method_instrumentation.hpp:165-210 | the two loops compute the chunk-then-byte copy |
| MemLowering.LoweredMoves | plugin/passes/tm_method_instrumentation.hpp:165-210 | that copy is memmove when dst is not above src, or the ranges are disjoint, or the length is eight |
| MemLowering.OverlapLoses | plugin/passes/tm_method_instrumentation.hpp:165-210 | for every other overlap there is a memory that is copied wrongly |
| MemLowering.LoweredIsMemmoveIff | plugin/passes/tm_method_instrumentation.hpp:165-210 | the lowering is memmove on every memory iff one of the three conditions holds |
| TypedAccess.WriteBytes | plugin/passes/tm_runtime_hooks.hpp:443-460 | shifting and truncating byte by byte leaves the little-endian image, and nothing else changes |
| TypedAccess.ReadBytes | plugin/passes/tm_runtime_hooks.hpp:333-351 | widening, shifting and joining byte by byte gives the little-endian value |
| TypedAccess.BytewiseRoundTrips | plugin/passes/tm_runtime_hooks.hpp:333-460 | for every width, byte-wise write then byte-wise read returns the value |
| TypedAccess.WriteVector | plugin/passes/tm_runtime_hooks.hpp:425-441 | the element loop computes the sequence of element writes at multiples of the stride, each of as many bytes as its hook moves |
| TypedAccess.ReadVector | plugin/passes/tm_runtime_hooks.hpp:313-331 | the element loop reads the elements at multiples of the stride through their hooks |
| TypedAccess.ImageKept | plugin/passes/tm_runtime_hooks.hpp:425-441 | the bytes of an element below the next stride stay as written while later elements are written |
| TypedAccess.OutsideKept | plugin/passes/tm_runtime_hooks.hpp:425-441 | nothing before the first or after the last byte that the hooks touch changes |
| TypedAccess.SplitRoundTrips | plugin/passes/tm_runtime_hooks.hpp:313-441 | values no larger than hook and stride, or a single one no larger than its hook, come back for any contents of the stack buffers |
| TypedAccess.OverlapLoses | plugin/passes/tm_runtime_hooks.hpp:425-441 | elements larger than the stride have a vector that does not come back |
| TypedAccess.ShortHookLoses | plugin/passes/tm_runtime_hooks.hpp:286-302 | a value larger than the widest hook depends on what the buffer held before |
| TypedAccess.LayoutRoundTripsIff | plugin/passes/tm_runtime_hooks.hpp:258-441 | a vector comes back for all values and buffers iff it is empty, or its elements fit their hook and, if there are two or more, their stride |
| TypedAccess.SplitRoundTripsIff | plugin/passes/tm_runtime_hooks.hpp:258-441 | the same for the types themselves: integers of at most 512 bits that fill whole bytes or less than one, or come singly; single pointers; all other types |
| TypedAccess.ConfinedIff | plugin/passes/tm_runtime_hooks.hpp:399-441 | writes change nothing beyond a given extent, for all values and buffers, iff the hook of the last element ends inside it |
| TypedAccess.SplitConfinedIff | plugin/passes/tm_runtime_hooks.hpp:356-441 | for the types themselves, in bits and bytes: pointers and other types always stay inside the vector, integers iff they have a hook of their width or the hook of 16, 32 or 64 bytes fits the end of the vector |
| TypedAccess.WholeWidthsConfinedIff | plugin/passes/tm_runtime_hooks.hpp:356-441 | integers of whole bytes stay inside, in any number, iff they have 8, 16, 32, 64, 128 or 256 bits or at least 512 |
| TypedAccess.LastElementAt | plugin/passes/tm_runtime_hooks.hpp:425-441 | the last element lies (n-1) times the scalar size behind the first, a size of 0 counting as one byte |
| TypedAccess.OddWidthLost | plugin/passes/tm_runtime_hooks.hpp:425-441 | two i12 do not come back |
| TypedAccess.OddWidthSpills | plugin/passes/tm_runtime_hooks.hpp:399-441 | two i24 come back, but the memory after them changes |
| StackPointers.TraceSound | plugin/analysis/tm_local_vars.hpp:485-542 | if the depth-bounded trace answers false for the parameters of entry functions, a true answer at any depth means a stack address in every execution |
| StackPointers.TraceShallower | plugin/analysis/tm_local_vars.hpp:485-488 | starting further from the depth limit never turns a true answer into a false one |
| StackPointers.TraceSoundIff | plugin/analysis/tm_local_vars.hpp:485-542 | the trace is right for every value and execution iff it answers false for the parameters of entry functions |
| StackPointers.TraceFalseIff | plugin/analysis/tm_local_vars.hpp:485-542 | the trace answers false iff some path over offsets and call sites gets stuck at another kind of value or at a parameter of a function without callers, or is longer than the depth limit allows |
| StackPointers.TraceSoundIffTrails | plugin/analysis/tm_local_vars.hpp:485-542 | the trace is right for every value and execution iff every parameter of an entry function has such a path |
| StackPointers.UncalledEntriesUntraced | plugin/analysis/tm_local_vars.hpp:526-530 | which is so when nobody calls entry functions, or when these have no parameters |
| StackPointers.TraceDerives | plugin/analysis/tm_local_vars.hpp:485-542 | what the trace accepts has a derivation from stack slots |
| StackPointers.TraceFinds | plugin/analysis/tm_local_vars.hpp:485-542 | what has a derivation is accepted by the trace, unless the depth limit is met or a function with parameters has no caller |
| StackPointers.GetBaseObjectNoLoad | plugin/analysis/tm_local_vars.hpp:63-78 | strips offsets and casts and stops at anything else |
| StackPointers.Analysis.ArgIsAllocaDest | plugin/passes/tm_method_instrumentation.hpp:317-347 | in any order of queries, the memoised search with its cycle cut answers true iff the argument has a finite derivation from stack slots, and its memo stays exact |
| StackPointers.PendingNotDerivable | plugin/passes/tm_method_instrumentation.hpp:323-323 | an argument met again while its own query is pending has no derivation, so cutting the cycle with false loses nothing |
| StackPointers.DerivedSound | plugin/passes/tm_method_instrumentation.hpp:317-347 | if the search answers false for the parameters of entry functions, a derived argument is a stack address in every execution |
| StackPointers.AnswerSoundIff | plugin/passes/tm_method_instrumentation.hpp:317-347 | the search is right for every argument and execution iff it answers false for the parameters of entry functions |
| StackPointers.DerivableIff | plugin/passes/tm_method_instrumentation.hpp:317-347 | an argument has no derivation iff a chain of call sites passing on parameters ends at a call that passes neither a stack slot nor a parameter, or comes back to an argument on it |
| StackPointers.AnswerSoundIffChains | plugin/passes/tm_method_instrumentation.hpp:317-347 | the search is right for every argument and execution iff every parameter of an entry function has such a chain |
| StackPointers.ParameterlessEntries | plugin/passes/tm_method_instrumentation.hpp:317-347 | entry functions without parameters are enough, and needed if nobody calls entry functions |
| StackPointers.EntryParameterMisjudged | plugin/passes/tm_method_instrumentation.hpp:323-345 | the search answers true for the parameter of a thread routine that nobody calls, and it is not a stack address |
| StackPointers.CalledEntryMisjudged | plugin/analysis/tm_local_vars.hpp:531-540 | both analyses answer true for the parameter of a thread routine that is also called directly with a stack slot, and are wrong when it is entered as a thread |
| Deadlock.CycleIsOnCycle | simulator/src/deadlock.rs:74-88 | a reported cycle is a real one: another reachable thread has a conflict edge back |
| Deadlock.ExploredHasNoCycle | simulator/src/deadlock.rs:124-154 | a closed explored set without an edge to the target rules out every cycle through it |
| Deadlock.MutualAbortsCycle | simulator/src/deadlock.rs:90-122 | two threads that aborted over a common address are both on a cycle |
| Deadlock.RememberedIs | simulator/src/deadlock.rs:37-47 | in every history the retries of a thread are its aborts since its last commit, and its remembered write sets those of the last such abort and of that commit |
| Deadlock.ConflictsAre | simulator/src/deadlock.rs:90-122 | in every history a thread waits for another iff that one wrote, in its last attempt or last commit, an address of its own last attempt |
| Deadlock.AddressesAre | simulator/src/deadlock.rs:156-173 | in every history the addresses of a cycle are all those its threads wrote in their last attempts and commits |
| Deadlock.Detector.RecordCommit | simulator/src/deadlock.rs:37-41 | forgets the thread's retries and aborted writes, after which it is on no cycle |
| Deadlock.Detector.ConflictSet | simulator/src/deadlock.rs:90-122 | exactly the other threads that wrote an address of the thread's last aborted attempt |
| Deadlock.Detector.Dfs | simulator/src/deadlock.rs:124-154 | for any iteration order: terminates; true leaves a simple cycle of real edges on the path; false restores stack and path and has followed every edge of what it visited |
| Deadlock.Detector.DetectCycle | simulator/src/deadlock.rs:74-88 | returns a simple closed walk of conflict edges through the thread iff some other thread it reaches has an edge back |
| Deadlock.Detector.Check | simulator/src/deadlock.rs:49-72 | exactly one report for each thread at the retry limit that is on a cycle, with the addresses of its cycle, and no other report |
| BatchedBegin.Engine.FlushPlain | simulator/src/sim_engine.rs:377-391 | other backends begin every buffered entry, duplicates included, at no cost |
| BatchedBegin.AttemptKeeps | simulator/src/sim_engine.rs:413-446 | a turn keeps that threads enter once, at the first success or the fifth failure |
| BatchedBegin.NobodyLeft | simulator/src/sim_engine.rs:451-467 | after five rounds nobody is pending, so the straggler loop does nothing |
| BatchedBegin.Engine.Stragglers | simulator/src/sim_engine.rs:451-467 | with nobody pending the straggler loop changes nothing |
| BatchedBegin.Engine.Round | simulator/src/sim_engine.rs:403-449 | a round gives everyone still outside one more try and keeps the account of tries, entries and cycles |
| BatchedBegin.TurnAfter | simulator/src/sim_engine.rs:413-446 | a turn charges one xbegin, one xabort if it failed and one sgl if it forced, and marks the thread begun or not accordingly |
| BatchedBegin.SweepOrder | simulator/src/sim_engine.rs:403-449 | a round over distinct threads tries everybody who is outside exactly once, in the order of the queue |
| BatchedBegin.Engine.FlushTsx | simulator/src/sim_engine.rs:373-468 | for every oracle and queue, the tries are those of at most five rounds over whoever is still outside; every distinct thread is begun exactly once with at most five tries, is forced iff all five fail, and the cycles are tries times xbegin plus failures times xabort plus forced times sgl |
| SpecAlloc.NextKeeps | plugin/runtime/tm_runtime.cpp:45-126 | every operation of a legal client keeps the tracking lists consistent with the heap |
| SpecAlloc.RunKeepsInv | plugin/runtime/tm_runtime.cpp:45-126 | in every run nothing is freed unless it is live, so no block is freed twice |
| SpecAlloc.AbortRestores | plugin/runtime/tm_runtime.cpp:100-112 | beginning again after an abort restores the live blocks of the begin |
| SpecAlloc.CommitApplies | plugin/runtime/tm_runtime.cpp:114-126 | ending gives the live blocks plus those allocated minus those freed |
| SpecAlloc.AbortsLeaveNothing | plugin/runtime/tm_runtime.cpp:100-126 | any number of aborted attempts leaves the live blocks of the first begin |
| SpecAlloc.TransactionEffect | plugin/runtime/tm_runtime.cpp:100-126 | however often it aborts, a transaction has the effect of its last attempt alone |
| SpecAlloc.OutsideAtOnce | plugin/runtime/tm_runtime.cpp:202-231 | outside a transaction an allocation is live and a free takes the block away at once |
| SpecAlloc.ProgramEffect | plugin/runtime/tm_runtime.cpp:45-231 | after any sequence of plain operations and transactions the live blocks are what the plain operations and the last attempts make of them, in order |
| SpecAlloc.Runtime.ClearSpecAllocs | plugin/runtime/tm_runtime.cpp:55-65 | frees each tracked allocation in list order and empties the list |
| SpecAlloc.Runtime.FlushDeferredFrees | plugin/runtime/tm_runtime.cpp:331-341 | frees each deferred pointer in list order and empties the list |
| SpecAlloc.Runtime.StubBegin | plugin/runtime/tm_runtime.cpp:100-112 | computes the begin step for any nesting counter |
| SpecAlloc.Runtime.StubEnd | plugin/runtime/tm_runtime.cpp:114-126 | computes the end step for any nesting counter |

## Left out

- TmModel.Model.TmRead: answers with the stripe version, as the source does; the values that reads stand for live in the history of TmSerial.
- TmModel works on records of the lock word's fields; the LockWord lemmas tie each record operation to the 64-bit one, for thread ids below 2^13 and versions below 2^46.
- TmModel keeps abort counters as one number and abort reasons as a datatype; reason strings, per-reason statistics and tracing are not modelled.
- EcReplica and EcRun take accounts of a transfer as parameters; the random generator, the ticket counter, timing and the printed statistics are not modelled.
- EcBank uses unbounded integers for balances and sequence numbers; at most 64 replicas and sequence numbers below 2^55 are premises, as in the bench.
- EcRun treats the loads and stores of published logs as atomic steps; weaker memory orders are not modelled.
- TsxSgl models the counter, the owner flag and the mutex; spurious aborts may happen at any step, and other cache effects are not modelled.
- Cloning: the argument trace at call sites is an arbitrary function of the module and the caller; instrumentation of loads and stores inside clones, annotations other than the listed attributes, invoke edges and indirect calls are not modelled; CloneOnly stands for AlwaysInline.
- Cloning.Pass: ClonedMap is the set of cloned names and a clone is named after its original; a name clash with an existing function is not modelled.
- StackPointers: pointer values are trees of casts, offsets, parameters and stack slots; phi and select nodes count as anything else, as in the source.
- Nesting: the nesting depth and the retry counter are unbounded integers; a run whose tries are used up is called unfinished instead of running on. An abort inside the end hook (validation at commit) is an Abort at the end of the body, so End stands for an end that returned.
- TypedAccess.ReadVector: the buffer has the bytes of the value only; the read hook of a wider integer also stores behind it (16 bytes for an i24), and that overrun of the stack buffer is not modelled.
- TypedAccess: joins bytes by addition instead of bitwise or; what the stack buffers of the wide hooks hold beyond the value is arbitrary; the trace hook is not modelled.
- MemLowering: the dead original call that stays behind the loops is not modelled.
- Deadlock.Detector.Check: reports hold the addresses as a set; sorting and the text of reports are not modelled.
- BatchedBegin: thread-id translation and the backend behind try_begin are an oracle; the cost of ending under the lock is not modelled.
- SpecAlloc: realloc frees at once and is left out; list nodes themselves are not blocks of the modelled heap.
- Not modelled: the discrete-event engine's accounting, the checker, the verifier, the backends, calibration and cost files, persistence, the queue pipeline and all drivers.
