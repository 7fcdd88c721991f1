# DynXX core: a verified model

Dafny models of the parts of DynXX that carry logic of their own, with proofs of what those parts
promise. `dafny verify dfyconfig.toml` checks everything.

- **Task engine** (`TaskEngine`, `TaskSafety`, `TaskLocks`, `TaskProgress`, `TaskStop`, `TaskExceptions`,
  `TaskWitness`, `ExecutorObjects`). A transition system over callers of the executor, worker threads, timeouts, exceptions and
  stops, one step per access to a shared variable or mutex. A running task keeps the daemon mutex, as in the
  code, so blocked callers are part of the state, and a task can itself be inside a call. Proved over all runs:
  executed ++ in flight ++ queued is what was dispatched, in order; dispatch is round robin and balanced;
  shutdown is final; swallowed exceptions leave no trace; threads deadlock exactly in the states called stuck;
  a fair infinite run, even one without any notification, executes everything submitted exactly as long as no
  call gets stuck; and a stop takes effect in it unless the worker's task is behind such a call. `ExecutorObjects` has the same pool as objects with mutable fields.
- **Promises** (`PromiseLedger`, `PromiseLocks`, `LaneRefinement`, `PromiseProgress`, `PromiseWitness`, `VmCall`). The handle
  cache, which other VMs share, the re-entrant VM lock and the tasks that settle promises, in every
  interleaving; then the composition with the task engine, whose workers refine the ledger's lanes, its safety
  and its progress. `VmCall` is the calling side: lock attempts, the script call, the polling await.
- **Compression pump** (`ZipPump`, `ZipCodecs`). The nested loops, the object with its two buffers and the
  byte-string entry point, over an abstract stream codec given by a contract for one call. The codec may end its
  stream before its input does, and may fail. `ZipCodecs` has three that meet the contract, one with a trailer
  and its decoder among them.
- **Byte scanners and codecs** (`JsonString`, `Utf8Repair`, `HexCodec`, `PemKey`). Each loop is proved against
  a grammar or reference that does not mention the loop.
- **Trace reports** (`TraceSpans`, `TracePairs`, `PathPrefix`). Span pairing against a recursive bracket matcher
  and, without any stack, against balanced pairs of begin and end events; and the common directory prefix with
  the exact inputs on which its loop ends.

## Where the code differs from its intent

The models follow the code. Each finding is a lemma, with the exact condition where there is one.

- The pump fails on every input whose length is a multiple of the buffer size, whatever the codec does, and
  also whenever the output due for a chunk is a multiple of it, zero included, because an empty round counts as
  a failure. A compressor that has nothing to say yet about a full first chunk therefore makes the whole call
  fail (`ZipPump.MultiplesFail`, `ZipPump.ProcessedIffNoExactFill`, `ZipCodecs.MarkingSucceedsIff`).
- Bytes behind the end of a compressed stream are dropped without notice when they come with its last chunk;
  when a chunk boundary lies between, the pump fails (`ZipPump.TrailingBytes`).
- A promise callback that throws leaves the VM lock held by the worker's thread and the handle in the cache,
  for ever (`PromiseLedger.FinishedTask`, `PromiseLedger.ThrowIsForever`, `PromiseLedger.ThrowHappens`). If the
  outside reference goes away meanwhile, that thread destroys the VM inside its own lock
  (`PromiseLedger.DestroyAfterThrow`).
- A promise whose task is still queued when its worker is stopped stays pending, with its handle in the cache
  (`PromiseLedger.DroppedForever`).
- Tasks that call their own executor can deadlock it: exactly when a call comes to a worker whose task is itself
  inside a call, its own or one that waits for the executor mutex (`TaskLocks.DeadlockIffStuck`,
  `TaskLocks.StuckForever`, `TaskLocks.CallReturnsIff`, `TaskWitness.SelfCallHappens`,
  `TaskWitness.CrossCallHappens`).
- On a machine that reports no cores an executor of default capacity refuses every task
  (`TaskSafety.NoCapacityAcceptsNothing`).
- The comment of `pairProfilingSpans` promises self times without children; the code overwrites the
  subtraction (`TraceSpans.SelfIsDuration`, `TraceSpans.CodeConservesIff`, `TraceSpans.NestedTimeCountsTwice`).
- `commonDirectoryPrefix` never ends exactly when the first usable path is absolute and some usable path is
  relative (`PathPrefix.HaltsIffSameKind`).
- `jAwait` on an object that is not a promise gives `undefined` and does not release the object
  (`VmCall.JSVM.JAwait`). `Base64::validate` accepts padding anywhere (`PemKey.Validate`). The UTF-8 repair
  keeps overlong forms (`Utf8Repair.OverlongIsKept`).

## Model

| member | source | states |
|---|---|---|
| TaskSafety.Conservation | src/core/concurrent/Executor.cxx:17-72 | in every reachable state of every interleaving, executed ++ in flight ++ queued equals what was dispatched to the worker, in order, and that is its round-robin share of all accepted tasks |
| TaskSafety.NoTaskRunsTwice | src/core/concurrent/Executor.cxx:17-50 | when accepted tasks differ, none is executed twice, on one worker or on two |
| TaskSafety.WorkerStepKeeps | src/core/concurrent/Daemon.cxx:43-78 | every step of a worker's loop keeps queue order, mutex ownership and stop state consistent |
| TaskSafety.SubmitStepKeeps | src/core/concurrent/Executor.cxx:63-72 | every step of a dispatching caller keeps them too |
| TaskSafety.StopStepKeeps | src/core/concurrent/Daemon.cxx:87-110 | so does every step of the winning stop call, with and without stop tokens |
| TaskSafety.StepKeepsInv | src/core/concurrent/Executor.cxx:89-111 | every step of the whole engine keeps pool, shares and workers consistent |
| TaskSafety.PoolIsRoundRobin | src/core/concurrent/Executor.cxx:98-108 | after n accepted tasks the pool has min(n, capacity) workers and the index is n mod capacity |
| TaskSafety.IndexIsInPool | src/core/concurrent/Executor.cxx:106 | whenever a worker is looked up, the index is inside the pool |
| TaskSafety.ShareLength | src/core/concurrent/Executor.cxx:106-108 | the length of a worker's round-robin share in closed form |
| TaskSafety.DispatchIsBalanced | src/core/concurrent/Executor.cxx:98-108 | dispatch counts of any two workers differ by at most one |
| TaskSafety.EmptyTaskIsIgnored | src/core/concurrent/Executor.cxx:91-96 | an empty task changes nothing |
| TaskSafety.NoCapacityAcceptsNothing | src/core/concurrent/Executor.cxx:80-87 | with capacity 0 and no reported core no task is ever accepted |
| TaskSafety.FewStartAfterStop | src/core/concurrent/Daemon.cxx:43-75 | at most one task starts after a stop request, none in the build without stop tokens |
| TaskSafety.Shutdown | src/core/concurrent/Daemon.cxx:87-110 | after the winning stop has returned, whatever happens, nothing is executed on that worker; executed plus abandoned is dispatched; a further call changes nothing |
| TaskStop.StopJoinsIff | src/core/concurrent/Daemon.cxx:87-110 | in every fair run, a requested stop takes effect (the flag is set, the thread exits, the call returns) exactly when the worker's task is never inside a call while a call is stuck, be it the stuck call or one behind it |
| TaskStop.EveryStopJoins | src/core/concurrent/Daemon.cxx:87-110 | in every fair run in which no call gets stuck, each requested stop comes to its end, with the flag set and the thread exited |
| TaskStop.StartedAfterStop | src/core/concurrent/Daemon.cxx:43-78 | whatever happens after the flag is set, the worker begins at most one more task, and that only with stop tokens and if its thread was past its last check |
| TaskStop.StopHappens | src/core/concurrent/Daemon.cxx:87-110 | in both builds a state in which a stop has joined is reachable |
| TaskStop.FairStopExists | src/core/concurrent/Daemon.cxx:87-110 | a fair run in which a worker with a queued task is stopped and joined, and the task stays queued |
| TaskStop.LateTaskHappens | src/core/concurrent/Daemon.cxx:67-78 | with stop tokens a task can start after the flag is set |
| TaskExceptions.ExceptionsLeaveNoTrace | src/core/concurrent/Executor.cxx:33-48 | throw and handler are steps under the daemon mutex; every run with throwing tasks is possible exactly when the run without throws, which rests while a handler is at work, is, and both end with the same queues, histories, mutexes and callers |
| TaskLocks.LockOrder | src/core/concurrent/Executor.cxx:63-111 | while no task is inside a call, each thread wants only mutexes above all it holds: executor, daemon, queue; a call made by a task is made by its worker's thread |
| TaskLocks.OwnerMovesIff | src/core/concurrent/Daemon.cxx:50-77 | whoever holds a daemon mutex can make a step, a worker exactly when its task is not inside a call |
| TaskLocks.DeadlockIffStuck | src/core/concurrent/Executor.cxx:63-111 | in every reachable state, some threads wait for each other exactly when the caller inside the executor wants the daemon mutex of a worker whose task is inside a call |
| TaskLocks.StuckForever | src/core/concurrent/Executor.cxx:89-111 | from then on that call never returns, no task is accepted and that worker never gets on |
| TaskLocks.CallReturnsIff | src/core/concurrent/Executor.cxx:89-111 | in every reachable state, the call inside the executor can still return exactly when it has its worker already, is empty, or the worker whose turn it is runs no task that is inside a call |
| TaskProgress.WorkerStepLowersRank | src/core/concurrent/Daemon.cxx:49-78 | each step of a worker with work left lowers a rank (tasks left, then loop phase), whether its wait ends by a wake-up or the timeout |
| TaskProgress.CallEnds | src/core/concurrent/Executor.cxx:89-111 | in every fair run in which no call gets stuck, the call inside the executor returns |
| TaskProgress.EveryTaskIsExecuted | src/core/concurrent/Daemon.cxx:49-78 | in every fair run in which no call gets stuck, each task dispatched to an unstopped worker is executed, as that task, in its turn, without relying on notifications, even if tasks call their executor |
| TaskProgress.EverySubmittedTaskIsExecuted | src/core/concurrent/Executor.cxx:63-111 | in every such run without stops, a task whose submission has come to the executor mutex is dispatched anew, and that dispatch is executed |
| TaskProgress.AllIsExecutedIff | src/core/concurrent/Executor.cxx:17-111 | a fair run without stops executes all that is dispatched exactly when no call in it gets stuck |
| TaskWitness.FairRunExists | src/core/concurrent/Daemon.cxx:49-78 | such a run exists, with a queued task and nothing but timeouts |
| TaskWitness.SelfCallHappens | src/core/concurrent/Executor.cxx:89-106 | a task that hands over a task waits for a mutex that it holds itself |
| TaskWitness.CrossCallHappens | src/core/concurrent/Executor.cxx:89-106 | an outside call and a call made by a task wait for each other |
| ExecutorObjects.Worker.Enqueue | src/core/concurrent/Executor.cxx:63-72 | the queue object takes a task at its end, keeping executed ++ queued == dispatched |
| ExecutorObjects.Worker.RunLoop | src/core/concurrent/Executor.cxx:18-49 | takes the oldest dispatched task that was not executed, or none |
| ExecutorObjects.Executor.constructor | src/core/concurrent/Executor.cxx:80-87 | capacity 0 stands for the number of cores |
| ExecutorObjects.Executor.Submit | src/core/concurrent/Executor.cxx:89-111 | accepts exactly the non-empty tasks of an executor with capacity, keeping one share per worker and growing the pool only below its capacity |
| PromiseLedger.StepKeepsInv | src/core/vm/JSVM.cxx:486-538 | every step of clients, lanes and destruction keeps cache, lock and lanes in agreement |
| PromiseLedger.EffectIsSound | src/core/vm/JSVM.cxx:504-535 | every path of the submitted body keeps lock depth and cache in step with its position |
| PromiseLedger.Ledger | src/core/vm/JSVM.cxx:493-535 | each handle that the VM put into the shared cache belongs to exactly one promise whose task is with its creator, queued on one lane, running on one lane, or has thrown |
| PromiseLedger.HandleLeavesWithItsBody | src/core/vm/JSVM.cxx:504-535 | nothing but the body of its own promise takes such a handle out of the cache |
| PromiseLedger.ReleasedOnce | src/core/vm/JSVM.cxx:504-535 | in every run each body takes its handle out of the cache at most once, and has done so exactly when its promise is not live any more |
| PromiseLedger.LiveHandleIsCached | src/core/vm/JSVM.cxx:495-530 | neither the creator nor the body can miss its own promise |
| PromiseLedger.FinishedTask | src/core/vm/JSVM.cxx:505-535 | in every run a finished task has balanced its lock and taken its handle out of the cache once, unless its callback threw, when it has done neither; the resolver was called once if it settled, else never |
| PromiseLedger.ResolverRunsOnceUnderLock | src/core/vm/JSVM.cxx:145-157 | a resolver is called at most once per promise and only by the holder of the VM lock |
| PromiseLedger.ThrowIsForever | src/core/vm/JSVM.cxx:524-534 | after a throw no client ever gets the lock again, only the leaking worker's thread can destroy the VM, and the handle stays |
| PromiseLedger.ThrowHappens | src/core/vm/JSVM.cxx:511-535 | one promise whose callback throws suffices |
| PromiseLedger.DestroyAfterThrow | src/core/vm/JSVM.cxx:504-535 | when the outside reference goes away while the callback runs and it then throws, the worker's thread destroys the VM while it holds the lock |
| PromiseLedger.DroppedForever | src/core/vm/JSVM.cxx:504-535 | a task still queued when its lane is closed never starts, and its handle stays in the cache |
| PromiseLocks.ClientGetsLockIff | src/core/vm/JSVM.cxx:486-538 | in every reachable state of a live VM, a client gets the lock exactly when no other client has it, no task is between getting and giving it back, and no callback has ever thrown |
| PromiseLocks.NewPromiseBalances | src/core/vm/JSVM.cxx:486-504 | making a promise adds its handle to the cache, leaves the lock as it was and hands the task over |
| PromiseLocks.TenthRefusalEnds | src/core/vm/JSVM.cxx:511-516 | a task that is refused the lock goes on for nine times and ends at the tenth, with its handle out of the cache and the lock untouched |
| PromiseLocks.ExpiresIff | src/core/vm/JSVM.cxx:504-510 | a task that starts gives up at once exactly when neither an outside reference nor another task keeps the VM |
| PromiseLocks.OtherVmComesAndGoes | src/core/vm/JSVM.cxx:175-178 | another VM can add an unused address to the shared cache and remove it again without a trace |
| LaneRefinement.EngineGoesOn | src/core/concurrent/Executor.cxx:17-111 | whatever a step of the engine means to the lanes (a new one, take in, start, close), the ledger is ready for it, and workers and lanes agree afterwards |
| LaneRefinement.BodyGoesOn | src/core/vm/JSVM.cxx:504-535 | whatever a running task does in the ledger, the engine is ready for it, and both end the task together |
| LaneRefinement.NeitherSideWaits | src/core/concurrent/Executor.cxx:17-72 | in every run of the composition neither side keeps the other from a step |
| LaneRefinement.PartsAreReachable | src/core/vm/JSVM.cxx:486-538 | every run of the composition is a run of the engine and a run of the ledger |
| LaneRefinement.LedgerOnEngine | src/core/vm/JSVM.cxx:493-535 | in every run of both components together, each handle of the VM belongs to exactly one promise whose task is with its creator, in a call of the executor, queued on exactly one worker, running on exactly one worker, or was executed and threw; or it was handed over to an executor of capacity 0, which loses it |
| PromiseProgress.EngineRunsFairly | src/core/concurrent/Executor.cxx:17-111 | the engine's part of a fair run of both is a fair run of the engine in which no call gets stuck |
| PromiseProgress.EveryPromiseIsFinished | src/core/vm/JSVM.cxx:504-535 | in every fair run of both without stops, the task of each promise handed over comes to its end, whatever attempts to lock fail and whether its callback throws |
| PromiseProgress.EveryPromiseIsSettledIff | src/core/vm/JSVM.cxx:504-535 | and its resolver is called exactly when the task finds the VM with a context, gets the lock in one of its attempts, and its callback returns |
| PromiseWitness.FairRunExists | src/core/vm/JSVM.cxx:486-538 | such a run exists, with a promise handed over |
| VmCall.JSVM.LockAutoRetry | src/core/concurrent/ConcurrentUtil.hxx:74-92 | locks exactly when one of the allowed attempts is granted, at least one being made |
| VmCall.JSVM.PollOnce | src/core/vm/JSVM.cxx:198-217 | one poll: a fulfilled promise gives its value, a rejected one an exception, and both are released; otherwise the wait goes on; the lock is given back |
| VmCall.JSVM.JAwait | src/core/vm/JSVM.cxx:185-230 | ends at the first poll that sees the promise settled or the deadline passed, with its value if fulfilled, an exception if rejected, `undefined` otherwise; keeps the lock depth; releases the object once if settled, never on timeout |
| VmCall.JSVM.RunFunction | src/core/vm/JSVM.cxx:447-472 | polls happen without the call's own acquisition of the lock |
| VmCall.JSVM.CallFunction | src/core/vm/JSVM.cxx:447-472 | the branch for a function that exists: its text, what is released, and the lock |
| VmCall.JSVM.CallFunc | src/core/vm/JSVM.cxx:428-484 | on every path the lock depth is kept; a result exists exactly when the lock was had and the function exists and did not throw; what is released |
| VmCall.WaitEnds | src/core/vm/JSVM.cxx:196-227 | with an advancing clock there is a last poll, not later than the deadline |
| VmCall.EndIsUnique | src/core/vm/JSVM.cxx:196-227 | and only one |
| VmCall.WaitReads | src/core/vm/JSVM.cxx:191-227 | the last poll sees the promise settled, or 15 seconds have passed; no poll before it does either; and the result in each of the cases |
| VmCall.CallReads | src/core/vm/JSVM.cxx:447-483 | the text of a call: that of the value returned, or of the value of an awaited promise fulfilled in time, or "" for a rejected one and "undefined" for one that never settles |
| VmCall.ReleasesRead | src/core/vm/JSVM.cxx:447-472 | the values released in each of the cases |
| VmCall.AttemptsRead | src/core/vm/JSVM.cxx:24 | the lock is had when one of ten attempts is granted |
| ZipPump.ChunkDelivers | src/core/zip/Zip.cxx:46-57 | after a successful inner loop the chunk is consumed, unless the stream is over, and everything due for it is written |
| ZipPump.PumpDelivers | src/core/zip/Zip.cxx:32-62 | on success the bytes written are the codec's output for the whole input |
| ZipPump.ChunksCoverInput | src/core/zip/Zip.cxx:36-58 | the chunks concatenate to a prefix of the input, to all of it on success; the finish flag is on the last one only; each finds the previous one used up, unless the stream was over, and then the pump fails |
| ZipPump.MultiplesFail | src/core/zip/Zip.cxx:32-62 | with any step function at all, an input whose length is a multiple of the buffer size never succeeds |
| ZipPump.PumpSucceedsAfterPasses | src/core/zip/Zip.cxx:32-62 | for a codec that meets the contract, success of the loops as a function is success after some number of passes |
| ZipPump.ChunkSucceedsIff | src/core/zip/Zip.cxx:46-57 | a chunk succeeds exactly when the codec makes no error in the calls made for it and the output due is no multiple of the buffer size |
| ZipPump.PumpSucceedsIff | src/core/zip/Zip.cxx:32-62 | for every codec that meets the contract and every input, the pump succeeds exactly when the codec makes no error on the input and neither its length nor the output due for any chunk is such a multiple |
| ZipPump.ProcessedIsTarget | src/core/zip/Zip.cxx:116-142 | a non-empty result is the codec's whole output, whatever the buffer size |
| ZipPump.RoundTrip | src/core/zip/Zip.cxx:116-142 | unzipping what was zipped gives the input back for any two buffer sizes, whenever neither call failed |
| ZipPump.ProcessedIffNoExactFill | src/core/zip/Zip.cxx:116-142 | exactly the inputs for which a byte string comes out, under the same condition |
| ZipPump.TrailingBytes | src/core/zip/Zip.cxx:116-142 | what follows the end of a stream is dropped, or makes the pump fail if a chunk boundary lies between |
| ZipCodecs.StoredSucceedsIffShort | src/core/zip/Zip.cxx:32-62 | with a copying codec only inputs shorter than the buffer succeed |
| ZipCodecs.MarkingSucceedsIff | src/core/zip/Zip.cxx:32-62 | with a compressor that adds a trailer of one byte, exactly the inputs shorter than the buffer by two or more succeed, and what comes out |
| ZipCodecs.MarkedRoundTrip | src/core/zip/Zip.cxx:116-142 | its decoder gives the text back from the stream, whatever follows it, or nothing |
| ZipPump.ZBase.constructor | src/core/zip/Zip.cxx:162-175 | a fresh object has the codec's initial state and no input |
| ZipPump.ZBase.Input | src/core/zip/Zip.cxx:177-193 | takes over at most one buffer, replacing the old contents; refuses empty data |
| ZipPump.ZBase.ProcessDo | src/core/zip/Zip.cxx:195-233 | one call of the codec on what the buffer still holds, with the finish flag only when compressing the last chunk |
| ZipPump.RoomMeansNothingOwed | src/core/zip/Zip.cxx:235-239 | room left in the output buffer means that the chunk is consumed or the stream over, and nothing is owed; no room means that one buffer less is owed than before |
| ZipPump.DrainChunk | src/core/zip/Zip.cxx:46-57 | the inner loop ends, and its outcome is that of the recursive definition |
| ZipPump.Process | src/core/zip/Zip.cxx:32-62 | so does the outer loop, with the calls of `input` it made |
| ZipPump.ProcessBytes | src/core/zip/Zip.cxx:116-142 | the loops on a byte string give the function the lemmas above are about |
| JsonString.HasInvalidEscapeOrControl | src/core/json/JsonCodec.cxx:71-130 | reports exactly the texts that are not made of bytes outside literals and complete literals of section 7 of RFC 8259 |
| JsonString.GrammarIsAccepted | src/core/json/JsonCodec.cxx:53-130 | every rendering of legal pieces is accepted |
| JsonString.AcceptedIsGrammar | src/core/json/JsonCodec.cxx:71-130 | every accepted text is such a rendering |
| JsonString.HexLettersAreDigits | src/core/json/JsonCodec.cxx:88-96 | the bytes accepted behind `\u` are the 22 hex digits, each listed by itself in the grammar |
| JsonString.EscapesStayInside | src/core/json/JsonCodec.cxx:79-111 | an escape is pending only inside a literal, and only one kind of it |
| Utf8Repair.BoxString | platforms/Android/DynXX-lib/src/main/cxx/JNIUtil.cxx:176-225 | the loop computes the repair; a text too long for a `jsize` becomes empty |
| Utf8Repair.RepairIsBytewise | platforms/Android/DynXX-lib/src/main/cxx/JNIUtil.cxx:188-225 | length is kept and every byte is kept or becomes a question mark |
| Utf8Repair.RepairIsShaped | platforms/Android/DynXX-lib/src/main/cxx/JNIUtil.cxx:188-225 | the result is a concatenation of groups of the shapes in section 3 of RFC 3629 |
| Utf8Repair.UnchangedIffShaped | platforms/Android/DynXX-lib/src/main/cxx/JNIUtil.cxx:188-225 | exactly the concatenations of groups come back unchanged |
| Utf8Repair.RepairIsIdempotent | platforms/Android/DynXX-lib/src/main/cxx/JNIUtil.cxx:188-225 | repairing twice is repairing once |
| Utf8Repair.ValidUtf8IsUnchanged | platforms/Android/DynXX-lib/src/main/cxx/JNIUtil.cxx:188-225 | every string of section 4 of RFC 3629 comes back unchanged |
| Utf8Repair.OverlongIsKept | platforms/Android/DynXX-lib/src/main/cxx/JNIUtil.cxx:193-199 | the converse fails: an overlong form is kept |
| HexCodec.PutByte | src/core/coding/Coding.cxx:49-60 | two digits per byte, with a leading zero where needed |
| HexCodec.DigitsWrite | src/core/coding/Coding.cxx:49-60 | the digit for each value, by its character code |
| HexCodec.DigitsRead | src/core/coding/Coding.cxx:101-134 | which characters are digits, and the value of each by its character code |
| HexCodec.Bytes2Str | src/core/coding/Coding.cxx:40-86 | the loop writes the two digits of each byte at its place |
| HexCodec.Str2Bytes | src/core/coding/Coding.cxx:88-136 | filter, padding and the loop by two compute the decoding |
| HexCodec.DecodeInvertsEncode | src/core/coding/Coding.cxx:40-136 | decoding inverts encoding on all byte strings |
| HexCodec.EncodeAfterDecode | src/core/coding/Coding.cxx:88-136 | encoding a decoded text gives its digits, lower-cased and left-padded to even length; fewer than two digits decode to nothing |
| HexCodec.DecodeKeepsValue | src/core/coding/Coding.cxx:101-134 | the decoded bytes denote the number that the digits denote |
| PemKey.TrimBySearch | src/core/coding/Coding.cxx:159-166 | the build with searches computes what the build with ranges defines |
| PemKey.TrimRemovesOuterSpaces | src/core/coding/Coding.cxx:148-168 | trimming removes spaces at both ends, nothing else, and leaves none there |
| PemKey.CreateValidTable | src/core/crypto/Crypto-OpenSSL.cxx:296-303 | the table of 256 entries marks exactly the Base64 alphabet and padding |
| PemKey.Validate | src/core/crypto/Crypto-OpenSSL.cxx:795-816 | accepts exactly the non-empty texts of that alphabet whose length is a multiple of four |
| PemKey.GenKey | src/core/crypto/Crypto-OpenSSL.cxx:732-779 | the wrapped key exactly when the trimmed text is valid, else nothing; it begins and ends with the lines for a public or a private key, written out |
| PemKey.HeaderReads | src/core/crypto/Crypto-OpenSSL.cxx:750-758 | the first line, written out for either kind |
| PemKey.FooterReads | src/core/crypto/Crypto-OpenSSL.cxx:750-758 | the last line, written out for either kind |
| PemKey.PemLines | src/core/crypto/Crypto-OpenSSL.cxx:767-776 | split into lines, a key is header, chunks of the text, footer, as in section 2 of RFC 7468 |
| PemKey.ChunkSizes | src/core/crypto/Crypto-OpenSSL.cxx:759-774 | all body lines but the last have 64 characters, the last a positive multiple of four up to 64 |
| PemKey.Unwrap | src/core/crypto/Crypto-OpenSSL.cxx:758-776 | without header, footer and newlines the text is back; the total length is the size reserved |
| TraceSpans.PairProfilingSpans | tools/trace/trace-utils.ts:165-197 | the loop emits what the per-thread stack machines emit, in order |
| TraceSpans.CloseTop | tools/trace/trace-utils.ts:182-193 | one end event: the closed span and the charged parent |
| TraceSpans.ThreadsAreIndependent | tools/trace/trace-utils.ts:166-171 | the spans of one pid:tid depend on its own events only |
| TraceSpans.ThreadIsMatched | tools/trace/trace-utils.ts:168-195 | the stack machine emits what the recursive bracket matcher finds |
| TraceSpans.PairingIsBracketMatching | tools/trace/trace-utils.ts:165-197 | both together, for every interleaving, in closing order; unmatched ends are ignored, unmatched begins dropped |
| TracePairs.SpansAreMatchingPairs | tools/trace/trace-utils.ts:165-197 | for every interleaving of threads, the spans emitted for a pid and tid are those of all begin and end events of that thread between which the brackets balance, in the order of the end events; each has name, category, time, location and arguments of its begin event and the time between the two as duration |
| TracePairs.ThreadsAreSpelled | tools/trace/trace-utils.ts:169 | events share a stack exactly when both pid and tid agree, 0 standing for a missing one |
| TraceSpans.SelfIsDuration | tools/trace/trace-utils.ts:187-192 | as written, self time is the whole duration of every span |
| TraceSpans.AccumulatedSelfIsTopLevel | tools/trace/trace-utils.ts:162-164 | with accumulation instead, self times of a fully closed trace add up to the top-level durations |
| TraceSpans.AccumulationConserves | tools/trace/trace-utils.ts:187-192 | the same for every trace, with what open spans still owe |
| TraceSpans.CodeConservesIff | tools/trace/trace-utils.ts:162-192 | on a chronological trace of a thread the code meets that law exactly when every end event of a nested span has the time of its begin event |
| TraceSpans.NestedTimeCountsTwice | tools/trace/trace-utils.ts:187-192 | one span inside another: the inner time counts twice |
| PathPrefix.CommonDirectoryPrefix | tools/trace/trace-utils.ts:69-84 | when the loops end, the result is the longest common directory of the paths with a slash, or empty when that has at most one character |
| PathPrefix.ShrinkToPath | tools/trace/trace-utils.ts:76-78 | the inner loop ends on such inputs, with measure the length of the prefix |
| PathPrefix.InvAlways | tools/trace/trace-utils.ts:74-83 | on every input, after any number of passes no common directory exceeds the prefix |
| PathPrefix.HaltsIffSameKind | tools/trace/trace-utils.ts:69-84 | the loops end exactly when the first usable path is relative or all are absolute |
| PathPrefix.MixedPathsNeverHalt | tools/trace/trace-utils.ts:76-78 | two paths on which they do not |
| PathPrefix.ShortenLosesNothing | tools/trace/trace-utils.ts:86-88 | the prefix followed by the shortened path is the path |
| PathPrefix.ShortenIsExact | tools/trace/trace-utils.ts:86-88 | a path under any prefix is the prefix and its shortened form; every other path comes back unchanged |

## Left out

Assumptions and limits of what is modelled:

- Notifications are not events of their own: a waiting worker may wake at any step, which allows every
  notified, spurious and missed wake-up.
- Fairness: a thread that is able to move again and again moves. For workers and the caller inside the executor
  this asks fairness of the daemon mutex, for blocked callers fairness of the executor mutex. That a task returns
  is the same assumption for the worker that runs it.
- The order in which blocked callers get the executor mutex is arbitrary.
- Only one thread is in view in `VmCall`; the others, the clock and the script appear as an environment that
  may answer in any way. Callbacks that lock the VM themselves are assumed to unlock as often.
- Handles are assumed unused when handed out, as heap addresses are. In the ledger promises are created by
  clients, not by callbacks of other promises.
- Destruction of a VM does not stop its workers in the model. In the code a VM destroyed on the thread of one of
  its own workers would join that thread with itself.
- A failed lock in `newPromise` has no state change and no step. Unlocking a free lock has no meaning in the
  source and no effect in the model.
- `callFunc` does not release the function value it looked up; `VmCall` records only values it does release.
- `VmCall.JSVM.JAwait` needs a clock that advances between readings; with a frozen clock and a promise that
  never settles the loop does not end.
- zlib, QuickJS and OpenSSL are not part of this model: the codec is abstract, and the states of promises are
  inputs.
- Buffer sizes of 2^32 and more, whose casts to 32-bit counters lose bits, and the constructor's exceptions
  for buffer size 0 or an unknown format or mode.
- Writing to C++ streams and C files, whose errors the pump ignores, and the empty reads it gets from them.
- Utf8Repair.BoxString: uses unbounded positions, so lengths above 2^31 - 4, where `i + 3` leaves the range
  of `jsize`, are not modelled faithfully.
- `std::isspace` and `std::isxdigit` in the C locale; the behaviour of `isspace` on negative characters is
  not modelled.
- `HexCodec` models the error branches of `to_chars` and `from_chars` as unreachable, which they are on
  single bytes and on pairs of hex digits.
- Times of a trace are reals, so rounding is not modelled; pid and tid are integers.

Parts not modelled, which carry little logic of their own or lie in libraries:

- `loadScript`, `loadFile`, `loadBinary` and the at-most-once script table; the timer and promise loops.
- `TimerTask`, `postDelay`, the Lua VM and its timers.
- The tree walking of the JSON decoder, Base64 coding itself, RSA, AES and hashes.
- Network, device, database, key-value store, log and file modules, bridges, bindings and HTML rendering.
