# ScriptX, verified

ScriptX puts one C++ API in front of several script engines.  The engines are somebody else's; what
ScriptX adds is glue that has to get locks, reference counts and a value stack exactly right.  This
project models that glue in Dafny and proves what it is for.

- **Engine scopes** (`EngineScopes`, `ScopeOwnership`, `ScopeDeadlocks`, `ScopeEffects`, `LuaDeadlocks`,
  `QjsTicks`, `QjsJobs`, `QjsTickQueue`).
  `EngineScope` and `ExitEngineScope` of the QuickJS, JavaScriptCore and Lua backends as one machine: any
  number of threads and engines, any nesting, each constructor and destructor a program of single lock
  operations that interleaves with the other threads.  Ownership of the locks, what each constructor and
  destructor does for its thread whatever the others do meanwhile, deadlock freedom of
  QuickJS and JavaScriptCore, exactly when Lua deadlocks, and on top of it the tick scheduling of
  QuickJS: at most one outstanding tick, no lost job, no tick without one, jobs executed one by one, and
  the room that ticks need in the queue.
- **Python scopes** (`PyRuntime`, `PyScopes`, `PyScopeObjects`).  The recursive mutex, the enter count, the
  interpreter lock and the thread states; the machine of all threads, and the code that moves the shared
  state step by step.
- **Lua's value stack** (`LuaVm`, `LuaCalls`, `LuaFrames`, `LuaTables`).  A Lua state with the calls of
  section 4.6 of the Lua 5.4 Reference Manual; the stack effect of `callFunction`, of frames nested in any
  way, and of the table walks for every traversal order.
- **Handles** (`LuaRegistry`, `LuaReferences`, `LuaHandles`, `QjsHandles`, `PyHandles`, `V8Natives`,
  `JscNatives`).  Ids and registries behind Lua's `Global` and `Weak`; reference counts behind QuickJS
  handles; Python's keeper of handles; clean-up of native objects, once each.
- **Small exact algorithms** (`LuaByteBuffer`, `IntegerBridge`, `Namespaces`, `SearchPaths`,
  `MessageQueue`).

Where the code falls short of what one would like, the exact condition is proved:

- Lua scopes can deadlock.  A waiting thread is stuck under every continuation if and only if its chain of
  holders closes in a cycle (`StuckIffCyclic`).  For any two engines a deadlock is reachable when two
  threads enter them in opposite order, and also when both enter them in the same order
  (`OppositeOrderDeadlocks`, `SameOrderDeadlocks`): one goes back to the outer engine while the other goes on
  to the inner one.  In runs that never open a scope right inside another engine's scope there is no
  deadlock (`LuaDeadlockFree`), and a thread holds one lock while it takes another if and only if it crosses
  like that (`LuaHoldAndWait`).
- A QuickJS run drops a tick of an engine if and only if the tick's message is removed, the queue is shut
  down while it has the tick, or the tick is posted to a queue that has been shut down (`DroppedByRun`); a run
  without a removal or a shutdown drops none (`NothingDropped`).  The flag then stays set: no tick of the
  engine ever comes again (`DroppedForGood`), and a job can be lost (`JobLostAfterShutdown`).  A living
  engine's account of ticks is exact if and only if the run dropped none (`AtMostOneTick`,
  `QuietEngineHasItsTick`).
- A QuickJS thread posts its tick with the engine's lock in hand, and the queue can be full.  No thread ever
  waits for room if and only if the queue has a slot for each engine besides those that other messages take
  (`RoomExact`); with less a jam is reachable in which the looper waits for that lock (`FullQueue`), and with
  as much there is no deadlock (`DeadlockFreeWithRoom`).
- `instanceOf` on Lua runs forever if and only if the type is a table of another class and the metatables
  come round before it is met (`InstanceOfEnds`).
- Resetting a `Global` or a `Weak` on Lua is right if and only if the current engine is the handle's own
  (`ResetInOwnEngine`).  Under another one the entry stays for good; a Weak takes an entry out of the wrong
  registry and off the wrong count, and a Global clears whatever is in the same slot of the other stack and
  leaves a value on its own (`ForeignResetPossible`, `LuaHandles.LuaEngine.Remove`).
- The ids of Lua's registries repeat after 2^64 - 1 references, not before (`IdsRepeatExactly`).
- Assigning a Python Weak releases its old reference first; if the target dies with that, the copy refers
  to None (`WeakCopy`, `TargetDiesInCopy`).
- A V8 instance that is between the two passes of the garbage collector when destroying ends is not cleaned
  up unless its second pass still comes (`CleanedExactlyOnce`).  It never comes on an isolate of the engine's
  own; on a shared one it uses a deleted engine.  After destroying none can do so if and only if the isolate
  is the engine's own or nothing is between the passes (`SafeIffNonePending`).
- A JavaScriptCore native object is left undeleted if and only if its finalizer was about to post when the
  messages were removed and the message has not been handled since (`DeletedExactlyOnce`,
  `LeftBehindRemoval`).
- JavaScriptCore native objects touch what is not there if and only if the constructor of some instance
  failed, a finalizer posts after the context was released, or a message is handled after that, whose
  object asks its deleted engine (`FaultIffFailed`, `FaultPossible`).  After the release nothing of the
  kind can follow if and only if no message is waiting or about to be posted (`SafeIffNothingWaits`).
- A 64-bit integer survives the way through a double if and only if, as an int64, it is a double
  (`WideRoundTrip`); 2^53 + 1 does not (`FirstLost`), and 2^63 - 1 has no result (`GreatestOutOfRange`).
- A search path is appended if and only if there is one already and the new one has no separator in
  it; added to none at all it gets an empty path in front of it (`AddAppends`, `AddToNone`).
- A namespace that ends in a dot is read as if it did not (`JoinComponents`, `ComponentsJoin`).  In Kotlin an
  earlier class keeps its path if and only if that begins with another name (`EarlierPathSurvives`), and the
  generated text is Kotlin if and only if every component is an identifier (`PrintableExactly`), which a dot
  at the beginning or after another dot prevents (`EmptyComponent`).
- A function called from the top of the Lua stack finds the error handler where an argument is the
  function's own slot (`LuaCalls.Seen`).

## Model

| member | source | states |
|---|---|---|
| ScopeOwnership.EnterProgram | src/Scope.cc:42-54 | a scope constructor leads from exactly the previous engine's lock to exactly the new one's, and outside Lua takes its lock with none in hand |
| ScopeOwnership.LeaveProgramOk | src/Scope.cc:56-61 | a scope destructor leads from exactly the engine's lock back to exactly the previous one's |
| ScopeOwnership.OneLock | backend/QuickJs/QjsScope.cc:40-44 | what ExitEngineScope unlocks and locks again needs and leaves exactly the current engine's lock |
| ScopeOwnership.BeginNullOk | src/Scope.cc:32-38 | the public constructor with a null engine is a complete scope whose destructor runs, and it changes no lock |
| ScopeOwnership.BeginEnterOk | src/Scope.cc:42-54 | entering either throws, exactly for a destroying engine that is not the current one, or starts a legal program from exactly the current engine's lock |
| ScopeOwnership.EnteringThrows | src/Scope.cc:45-51 | the state stays as it is exactly when entering throws |
| ScopeOwnership.BeginCloseOk | backend/QuickJs/QjsScope.cc:32-44 | destroying the innermost scope starts a legal program from exactly the current engine's lock |
| ScopeOwnership.ActionKeeps | src/Scope.cc:42-97 | every step of every thread keeps the correspondence between locks held and scopes open |
| ScopeOwnership.ReachableOk | src/Scope.cc:42-97 | the same in every reachable state |
| ScopeDeadlocks.ExactOwnership | backend/Lua/LuaScope.cc:50-68 | between scope operations a thread holds its current engine's lock once and no other lock, on all three backends |
| ScopeDeadlocks.OneThreadPerEngine | src/Scope.cc:71-77 | two threads never share a current engine |
| ScopeDeadlocks.NoMisuse | backend/Lua/LuaScope.cc:50-68 | no unowned mutex is unlocked, and no mutex, Lua's non-recursive one included, is locked by the thread that has it |
| ScopeDeadlocks.AcquiresEmptyHanded | backend/JavaScriptCore/JscScope.cc:24-48 | in QuickJS and JavaScriptCore a thread about to take a lock holds none |
| ScopeDeadlocks.HolderCanFree | backend/QuickJs/QjsScope.cc:23-44 | whoever holds a lock can free it by its own steps alone |
| ScopeDeadlocks.DeadlockFree | backend/QuickJs/QjsScope.cc:23-44 | whenever a thread waits it holds nothing, and the holder is another thread that can run until the lock is free |
| ScopeEffects.Entered | src/Scope.cc:42-54 | on every backend, whatever the other threads do meanwhile, a finished scope constructor leaves its engine current, the old scopes below, and exactly that engine's lock held, once |
| ScopeEffects.NullRefused | src/Scope.cc:32-38 | the constructor that throws for a null engine leaves scopes and locks as they were |
| ScopeEffects.Exited | src/Scope.cc:85-88 | a finished ExitEngineScope leaves no engine current and no lock held, and the old scopes below |
| ScopeEffects.Left | src/Scope.cc:56-61 | a finished destructor of either kind leaves the scopes below, with their engine current and exactly its lock held |
| ScopeEffects.Handled | backend/QuickJs/QjsEngine.cc:203-210 | the same for the scope that a tick handler opens |
| ScopeEffects.Drained | backend/QuickJs/QjsEngine.cc:203-210 | and when the handler leaves it |
| ScopeEffects.ExitCompletes | backend/QuickJs/QjsScope.cc:40-42 | stepping out is always possible and comes to its end by the thread's own steps, on every backend |
| ScopeEffects.EnterCompletes | backend/QuickJs/QjsScope.cc:23-30 | entering does so while no other thread has the engine's lock |
| ScopeEffects.LeaveCompletes | backend/QuickJs/QjsScope.cc:32-44 | leaving does so while no other thread has the lock of the engine that becomes current again |
| ScopeEffects.DestroyCloses | src/Scope.cc:47-51 | once an engine is being destroyed its ticks are gone and no thread outside it ever gets in |
| LuaDeadlocks.LuaHoldAndWait | backend/Lua/LuaScope.cc:50-62 | in Lua a thread about to take a lock holds another exactly if its scope sits right inside another engine's scope |
| LuaDeadlocks.LuaDeadlockNeedsCrossing | backend/Lua/LuaScope.cc:50-62 | a thread that waits for a waiting thread needs such a crossing scope |
| LuaDeadlocks.LuaDeadlockFree | backend/Lua/LuaScope.cc:50-68 | in runs that open no scope right inside another engine's, a waiting thread holds nothing and the holder can run until the lock is free |
| LuaDeadlocks.BoundStep | backend/Lua/LuaScope.cc:50-68 | threads that wait for each other stay so, whatever the other threads do |
| LuaDeadlocks.ReleaseAlone | backend/Lua/LuaScope.cc:64-68 | a thread that is not waiting can release any lock it holds by its own steps |
| LuaDeadlocks.StuckIffCyclic | backend/Lua/LuaScope.cc:50-68 | a thread waits under every continuation if and only if its chain of holders closes in a cycle |
| LuaDeadlocks.OppositeOrderDeadlocks | backend/Lua/LuaScope.cc:50-56 | wherever two threads are idle and two engines free, entering them in opposite order can leave both threads stuck |
| LuaDeadlocks.SameOrderDeadlocks | backend/Lua/LuaScope.cc:50-62 | and so can entering them in the same order |
| LuaDeadlocks.LuaDeadlockReachable | backend/Lua/LuaScope.cc:50-62 | both are reachable, for any two threads and any two engines |
| QjsTicks.OpMoves | backend/QuickJs/QjsEngine.cc:198-216 | responsibility for a tick is created with the flag, handed over by the post and given up when the handler clears the flag |
| QjsTicks.DroppedByRun | backend/QuickJs/QjsEngine.cc:198-216 | a run has dropped a tick of an engine if and only if it removed one, shut the queue down with one in it, or posted one to a queue that had been shut down |
| QjsTicks.NothingDropped | src/utils/MessageQueue.cc:234-239 | a run that neither removes an engine's message nor shuts the queue down drops no tick of it |
| QjsTicks.AtMostOneTick | backend/QuickJs/QjsEngine.cc:198-216 | after any run queued ticks, handlers that have not cleared the flag and posts in progress together are never more than one; for a living engine they are one while the flag is set and none otherwise if and only if the run dropped no tick |
| QjsTicks.DroppedForGood | backend/QuickJs/QjsEngine.cc:198-216 | once a tick has been dropped the flag stays set and there is never another tick |
| QjsTicks.ClearedIsChecked | backend/QuickJs/QjsEngine.cc:203-210 | after the handler clears the flag its scope's destructor still looks for jobs, or an outer scope will |
| QjsTicks.NoLostJobs | backend/QuickJs/QjsEngine.cc:198-216 | pending jobs of a living engine have a tick on its way or a thread with an entering scope that has yet to look for jobs, unless the run dropped a tick; also when a drain stops early |
| QjsTicks.QuietEngineHasItsTick | backend/QuickJs/QjsScope.cc:32-38 | when all threads have left an engine with pending jobs, exactly one tick is in the queue, if and only if the run dropped none |
| QjsJobs.JobsConserved | backend/QuickJs/QjsEngine.cc:203-210 | over every run the pending jobs of an engine are those from before and those added, less those executed one by one |
| QjsJobs.NoTickWithoutReason | backend/QuickJs/QjsEngine.cc:198-201 | no run schedules or posts a tick for an engine without a pending job, or for one that is being destroyed |
| QjsJobs.TriggerSchedules | backend/QuickJs/QjsEngine.cc:198-216 | undisturbed, triggerTick of a living engine with a job and no tick scheduled sets the flag and posts exactly one tick, and otherwise changes nothing |
| QjsTickQueue.JobLostAfterShutdown | src/utils/MessageQueue.cc:234-239 | after a shutdown of the queue of a living engine a job can be pending with no tick, now or ever |
| QjsTickQueue.RoomForTick | src/utils/MessageQueue.cc:210-219 | when a tick is about to be posted fewer ticks are queued than there are engines |
| QjsTickQueue.RoomExact | src/utils/MessageQueue.cc:210-219 | no thread ever has to wait for room for its tick if and only if the queue has a slot for each engine besides those that other messages take |
| QjsTickQueue.FullQueue | backend/QuickJs/QjsScope.cc:32-38 | with one slot less a state is reachable in which a thread holds an engine's lock while there is no room for its tick, and another waits for that lock |
| QjsTickQueue.DeadlockFreeWithRoom | backend/QuickJs/QjsEngine.cc:198-216 | with that much room whoever holds a lock that a thread waits for frees it by its own steps and never waits for room on the way |
| PyRuntime.Misuse | backend/Python/PyHelper.cc:80-124 | what is undefined: unlocking a mutex one does not own, resuming a thread state while the interpreter lock is taken, saving one without it |
| PyRuntime.SaveRestores | backend/Python/PyHelper.cc:95-119 | resuming what was saved loads the same thread state again |
| PyScopeObjects.Runtime.WaitToEnterEngine | backend/Python/PyHelper.cc:80-106 | locks, resumes the main thread state for the first scope and counts: the thread holds mutex and interpreter lock once more than before |
| PyScopeObjects.Runtime.FinishExitEngine | backend/Python/PyHelper.cc:112-124 | counts down, saves the thread state and frees the interpreter lock after the last scope, and unlocks: the thread holds them once less than before |
| PyScopeObjects.Runtime.ConstructScope | backend/Python/PyScope.cc:75-110 | the scope constructor finds the previous thread state and leaves the shared state fitting one scope more |
| PyScopeObjects.Runtime.DestroyScope | backend/Python/PyScope.cc:112-120 | the scope destructor leaves the shared state fitting the scopes without it |
| PyScopeObjects.Runtime.ConstructExit | backend/Python/PyScope.cc:122-130 | stepping out leaves the shared state fitting the exit scope as well |
| PyScopeObjects.Runtime.DestroyExit | backend/Python/PyScope.cc:132-137 | stepping in again leaves it fitting the scopes without the exit scope |
| PyScopeObjects.ThreadScopes.Open | src/Scope.cc:42-54 | entering the current engine again moves nothing; otherwise the engine's own thread state is loaded, and scopes and shared state fit |
| PyScopeObjects.ThreadScopes.OpenExit | src/Scope.cc:85-95 | stepping out leaves no current engine, and scopes and shared state fit |
| PyScopeObjects.ThreadScopes.Close | src/Scope.cc:56-61 | destroying the innermost scope leaves the scopes below it, and the shared state fits them |
| PyScopes.ActionKeeps | backend/Python/PyScope.cc:75-137 | every step of every thread keeps mutex depth, count, interpreter lock and loaded thread state in agreement with the open scopes |
| PyScopes.CountIsDepth | backend/Python/PyHelper.cc:80-124 | the mutex depth is the enter count, and the interpreter lock is held exactly while it is positive, by the owner of the mutex |
| PyScopes.Balance | backend/Python/PyHelper.cc:80-124 | what a thread holds and has loaded is determined by its open scopes alone |
| PyScopes.CurrentIsLoaded | backend/Python/PyScope.cc:88-109 | in an engine's scope the engine's thread state of this thread is loaded, and no other thread is in a scope of any engine |
| PyScopes.NeverBadPrevious | backend/Python/PyScope.cc:79-86 | the exception about a bad previous thread state is never thrown |
| PyScopes.WaitersHoldNothing | backend/Python/PyHelper.cc:80-81 | a thread that waits for the mutex has no share of it, and its owner is another thread |
| PyScopes.WaitersCanGo | backend/Python/PyHelper.cc:80-124 | whenever a thread waits for the mutex, its owner can free it by leaving its scopes, in steps that never wait, and then the waiting thread can go on |
| PyScopes.ActionsShape | src/Scope.cc:42-97 | a tree's actions construct its scope, run its blocks inside, and destroy the scope |
| PyScopes.TreeRestores | backend/Python/PyScope.cc:75-137 | every tree of nested scopes runs to its end and restores mutex, count, interpreter lock and loaded thread state |
| LuaCalls.PushLocals | backend/Lua/LuaHelper.hpp:77-101 | pushes the values of all Locals in order, nil for a null one |
| LuaCalls.CallFunction | backend/Lua/LuaHelper.cc:51-108 | on every path the slots below the base stay and nothing, the one result or one new array of the non-nil results is left, or the error is thrown with nothing left |
| LuaCalls.TakeResults | backend/Lua/LuaHelper.cc:80-107 | the handler goes, and what the call left becomes the outcome |
| LuaCalls.CollectResults | backend/Lua/LuaHelper.cc:90-102 | several results become one array at the base |
| LuaCalls.Seen | backend/Lua/LuaHelper.cc:56-78 | every Local is read as the value it was, except one at the slot of a function that was on top of the stack already, which is read as the error handler |
| LuaCalls.ArgumentsInOrder | backend/Lua/LuaHelper.cc:70-78 | the callee gets the receiver first, if there is one, and then each argument at its place |
| LuaCalls.ArgumentsArrive | backend/Lua/LuaHelper.cc:68-78 | so the receiver and the arguments arrive in that order and as they were if none of them is the function's own slot |
| LuaCalls.OneArrayReads | backend/Lua/LuaHelper.cc:90-102 | the array of several results is a new table that reads as the non-nil ones at 1, 2, 3 and so on, and no other table has changed |
| LuaCalls.Add | backend/Lua/LuaLocalReference.cc:427-440 | adding to a table without holes, whatever its traversal order and its other keys, appends a non-nil value, ignores nil and leaves every other key as it was |
| LuaCalls.ArrayBorder | backend/Lua/LuaLocalReference.cc:409-411 | the length of a table without holes is its number of values, whichever border is found |
| LuaCalls.ArrayReads | backend/Lua/LuaLocalReference.cc:416-425 | an array reads back its values at 1, 2, 3 and so on and has nothing anywhere else |
| LuaCalls.NonNilOrder | backend/Lua/LuaHelper.cc:93-95 | every non-nil result is in the array, after exactly the earlier ones |
| LuaCalls.NonNilSource | backend/Lua/LuaHelper.cc:93-95 | nothing else is in the array |
| LuaFrames.StackFrameScope.constructor | backend/Lua/LuaScope.cc:24-27 | a frame pushes its base slot |
| LuaFrames.StackFrameScope.ReturnRawValue | backend/Lua/LuaScope.cc:29-40 | the escaping value goes into the base slot and no other slot changes |
| LuaFrames.StackFrameScope.Destroy | backend/Lua/LuaScope.cc:42-48 | the stack is cut above or below the base slot |
| LuaFrames.RunFrame | backend/Lua/LuaScope.cc:24-48 | whatever happens inside, nested frames included, a frame leaves the older slots as they were and adds at most its escaped value |
| LuaFrames.EscapesIffReturned | backend/Lua/LuaScope.cc:42-48 | a frame hands out a value exactly if its own work returns one |
| LuaFrames.LastReturnEscapes | backend/Lua/LuaScope.cc:29-48 | the value handed out is the last one returned, whatever happens before and after |
| LuaFrames.TopEscapes | backend/Lua/LuaScope.cc:29-48 | a value that is pushed, or handed out by an inner frame, stands on top until it is popped, and returned from there it is what the frame hands out |
| LuaTables.GetKeys | backend/Lua/LuaLocalReference.cc:367-392 | the stack grows by exactly the string keys in traversal order, and each Local is the slot of its key |
| LuaTables.KeysComplete | backend/Lua/LuaLocalReference.cc:367-392 | the keys found are exactly the table's string keys, each once |
| LuaTables.JudgeIsArray | backend/Lua/LuaLocalReference.cc:46-65 | leaves the stack alone and says yes exactly if the keys read as 1, 2, 3, ... in traversal order |
| LuaTables.CountsUpStep | backend/Lua/LuaLocalReference.cc:46-65 | each further entry has to have a key that reads as the next number |
| LuaTables.CountsUpMeaning | backend/Lua/LuaLocalReference.cc:46-65 | then the numbers that the keys read as are exactly 1 to the number of entries |
| LuaTables.LuaCopyTable | backend/Lua/LuaHelper.cc:168-180 | leaves the stack alone, copies every entry and touches no other table, also from a table into itself |
| LuaTables.CopyIntoMeaning | backend/Lua/LuaHelper.cc:168-180 | after the copy a key of the source reads as in the source, any other key as before |
| LuaTables.CopyIntoSelf | backend/Lua/LuaHelper.cc:168-180 | copying a table into itself changes nothing |
| LuaTables.ClassDefines | backend/Lua/LuaEngine.cc:505-537 | two tables with the same non-null pointer under the token are of the same class; with none, a null one or another one they are not |
| LuaTables.IsInstanceOfClass | backend/Lua/LuaEngine.cc:505-520 | yes exactly if both tables hold the same non-null pointer under the token; the stack stays |
| LuaTables.IsInstanceOfDefine | backend/Lua/LuaEngine.cc:522-537 | yes exactly if the table holds this non-null pointer under the token; the stack stays |
| LuaTables.InstanceOf | backend/Lua/LuaLocalReference.cc:336-365 | yes exactly if the class defines agree or the type is among the metatables; the stack stays |
| LuaTables.OnChainStep | backend/Lua/LuaLocalReference.cc:348-358 | the type is among the metatables exactly if it is the first of them or among those of the first |
| LuaTables.WalksExactly | backend/Lua/LuaLocalReference.cc:336-346 | the loop is reached exactly for a type that is a table and does not carry the object's class define |
| LuaTables.InstanceOfEnds | backend/Lua/LuaLocalReference.cc:336-358 | it ends unless the type is a table of another class and the metatables come round before it, and then it never does |
| LuaTables.WalkMetatables | backend/Lua/LuaLocalReference.cc:348-364 | the loop up the metatables finds the type exactly if it is among them |
| LuaTables.StopsUnlessCyclic | backend/Lua/LuaLocalReference.cc:348-358 | the walk ends if and only if the metatables do not come round before the type is met |
| LuaTables.OwnMetatable | backend/Lua/LuaLocalReference.cc:348-358 | for a table that is its own metatable it never ends, unless the type is that table |
| LuaRegistry.IdsRepeatExactly | backend/Lua/LuaEngine.cc:203-207 | ids are never 0, and from any point the next 2^64 - 1 of them differ and the one after repeats |
| LuaRegistry.KeyOf | backend/Lua/LuaLocalReference.cc:416-438 | the key of an id is one more, modulo 2^64, as a signed integer |
| LuaRegistry.KeysDiffer | backend/Lua/LuaLocalReference.cc:416-438 | different ids have different table keys, although the index is incremented in 64 bits and taken as signed |
| LuaRegistry.OpKeeps | backend/Lua/LuaReference.hpp:52-166 | construction, copy, move, swap, reset and destruction of handles in their engine's scope and garbage collection keep the registries right |
| LuaReferences.OpNoLeaks | backend/Lua/LuaEngine.cc:143-187 | and leave no entry in a table that no live handle will take out |
| LuaReferences.OpReads | backend/Lua/LuaReference.hpp:48-288 | what a handle reads after each operation: nothing when new, reset or moved from, its Local's value, what its source or its partner in a swap read |
| LuaReferences.OthersRead | backend/Lua/LuaReference.hpp:48-288 | and every other handle reads what it did |
| LuaReferences.RegistrySafe | backend/Lua/LuaReference.hpp:52-288 | in every run before the id counter wraps live handles have distinct nonzero ids, a Global reads its value, a Weak its value or nil, the 64-bit counts are the numbers of live handles, every entry belongs to a live handle, and nothing stays on a stack |
| LuaReferences.AssignReads | backend/Lua/LuaReference.hpp:112-129 | after assigning a Global, to itself or to another, it reads as the source did, nothing if that was empty, and every other Global as before |
| LuaReferences.ResetInOwnEngine | backend/Lua/LuaReference.hpp:156-166 | resetting a Global or a Weak keeps the registries right if and only if the current engine is the handle's own |
| LuaReferences.ForeignResetPossible | backend/Lua/LuaReference.hpp:279-288 | a reachable reset of either kind under another engine leaves the entry behind; a Weak takes the other engine's count from 0 to 2^64 - 1, a Global leaves a value on its own engine's stack |
| LuaHandles.LuaEngine.constructor | backend/Lua/LuaEngine.cc:113-141 | two empty registries under different tokens, the second with a metatable for weak values; the stack stays |
| LuaHandles.LuaEngine.GlobalIdCounter | backend/Lua/LuaEngine.cc:203-207 | the next id, never 0 |
| LuaHandles.LuaEngine.Put | backend/Lua/LuaEngine.cc:143-168 | stores a value under a new id and counts, nothing for a null Local; stack and other tables stay |
| LuaHandles.LuaEngine.Remove | backend/Lua/LuaEngine.cc:170-187 | in the engine's own scope removes exactly the id's entry and counts, and stack and other tables stay; under another engine the entry stays, a value is left on the own stack, and the table in the same slot of the other stack loses an entry, if there is one |
| LuaHandles.LuaEngine.Get | backend/Lua/LuaEngine.cc:189-201 | leaves the id's value on top of the stack and nothing else, nothing for id 0 |
| LuaHandles.Ref.FromLocal | backend/Lua/LuaReference.hpp:52-59 | a handle from a Local owns a new id of the current engine |
| LuaHandles.Ref.FromRef | backend/Lua/LuaReference.hpp:61-97 | a handle from another handle owns a new id with the value that the other one reads; the stack stays |
| LuaHandles.Ref.Swap | backend/Lua/LuaReference.hpp:124-129 | exchanges engines and ids |
| LuaHandles.Ref.GetValue | backend/Lua/LuaReference.hpp:144-149 | pushes what the handle reads |
| LuaHandles.Ref.Reset | backend/Lua/LuaReference.hpp:156-166 | empties the handle; in its own engine's scope it gives the id back, a Weak removes from whatever engine is current, and a Global under another engine leaves its entry |
| LuaHandles.Ref.Destroy | backend/Lua/LuaReference.hpp:104-109 | the destructor gives the id back in its own engine whichever engine is current |
| QjsHandles.Context.Free | backend/QuickJs/QjsHelper.cc:59-63 | letting a slot go keeps every count right and frees exactly the objects that nothing left supports, and their properties: with the last reference the object goes, with any other one only its count goes down |
| QjsHandles.Survivors | backend/QuickJs/QjsHelper.cc:59-63 | the objects alive afterwards are exactly those held by a handle or by a property of an object alive |
| QjsHandles.CyclesStay | backend/QuickJs/QjsHelper.cc:59-63 | objects that hold each other stay, without a handle to any of them |
| QjsHandles.KeptExactly | backend/QuickJs/QjsHelper.cc:59-63 | all handles are left, and exactly the properties of objects alive |
| QjsHandles.Context.FreeOrphans | backend/QuickJs/QjsHelper.cc:59-63 | the cascade over dead objects ends with the greatest supported set of objects alive |
| QjsHandles.Context.Dup | backend/QuickJs/QjsHelper.cc:52-57 | one more owner, one more reference |
| QjsHandles.Context.Cast | backend/QuickJs/QjsLocalReference.cc:165-203 | a cast is a new owner of the same value or an exception with nothing changed |
| QjsHandles.Context.AssignLocal | backend/QuickJs/QjsLocalReference.cc:32-35 | copy assignment behaves like assignment of plain variables, to itself as well |
| QjsHandles.Context.MoveAssignLocal | backend/QuickJs/QjsLocalReference.cc:36-39 | move assignment empties the source, and into itself changes nothing |
| QjsHandles.Context.Destroy | backend/QuickJs/QjsLocalReference.cc:31-31 | the destructor frees what only this handle kept alive |
| QjsHandles.Context.AssignGlobal | backend/QuickJs/QjsReference.hpp:47-59 | assignment of a Global keeps the counts although it releases before it retains, because self-assignment is caught |
| QjsHandles.Context.MoveAssignGlobal | backend/QuickJs/QjsReference.hpp:60-73 | moving a Global takes over reference and engine and leaves the source empty |
| QjsHandles.Context.ResetGlobal | backend/QuickJs/QjsReference.hpp:76-84 | an empty Global, and everything that only it kept alive gone |
| QjsHandles.Context.SwapGlobals | backend/QuickJs/QjsReference.hpp:85-88 | references and engines exchanged, no count changed |
| QjsHandles.Context.GetGlobal | backend/QuickJs/QjsReference.hpp:163-167 | a new Local with the value, or the exception for an empty Global |
| QjsHandles.Context.SetProperty | backend/QuickJs/QjsLocalReference.cc:232-237 | storing a value in an object adds an owner and frees what was there |
| QjsHandles.CountSplits | backend/QuickJs/QjsReference.hpp:47-96 | the count of an object is its Locals plus its Globals plus the properties that hold it |
| QjsHandles.AliveSupported | backend/QuickJs/QjsHelper.cc:59-63 | with the counts right every object alive is held by a handle or by a property of an object alive |
| QjsHandles.OrphanStep | backend/QuickJs/QjsHelper.cc:59-63 | one step of the cascade keeps the counts right and takes nothing that has to stay |
| QjsHandles.FillSettled | backend/QuickJs/QjsReference.hpp:47-59 | freeing before copying the other handle's value frees what a direct assignment would free |
| PyHandles.UpdateKeeps | backend/Python/PyHelper.hpp:117-123 | a handle whose state is recorded under its engine keeps the keeper complete |
| PyHandles.KeeperComplete | backend/Python/PyHelper.hpp:109-149 | the entries under an engine are exactly the handles of that engine |
| PyHandles.EngineGone | backend/Python/PyHelper.hpp:133-148 | emptying an engine's handles and dropping its entries leaves a complete keeper |
| PyHandles.Interpreter.constructor | backend/Python/PyHelper.hpp:109-115 | no handles, nothing registered, nothing counted |
| PyHandles.Interpreter.DecRef | backend/Python/PyReference.cc:51-57 | a release drops one reference; with the last one the object dies, and of what may die with it exactly what has no reference left, and every weak reference to what died refers to None; otherwise nothing dies |
| PyHandles.Interpreter.GlobalCopy | backend/Python/PyReference.cc:38-57 | copying a Global: same object and engine, registered, counts conserved |
| PyHandles.Interpreter.Move | backend/Python/PyReference.cc:44-67 | moving: the source is left with None and its entry, counts conserved |
| PyHandles.Interpreter.Swap | backend/Python/PyReference.cc:69-74 | swapping exchanges the states and the entries |
| PyHandles.Interpreter.Reset | backend/Python/PyReference.cc:88-91 | reset leaves None and the engine, and kills an object whose last reference it releases |
| PyHandles.Interpreter.Destroy | backend/Python/PyReference.cc:93-101 | a destroyed handle drops its reference, which kills the object if it was the last one, and its entry |
| PyHandles.Interpreter.WeakFrom | backend/Python/PyReference.cc:117-136 | a Weak stands for its object, by a weak reference if the type allows it |
| PyHandles.Interpreter.WeakCopy | backend/Python/PyReference.cc:138-211 | a copied Weak stands for the same target, or for None if that is gone, be it only since the release that comes first |
| PyHandles.TargetDiesInCopy | backend/Python/PyReference.cc:179-189 | the release before the copy can kill the target, and then the copy refers to None |
| PyHandles.Interpreter.DestroyEngine | backend/Python/PyHelper.hpp:133-148 | destroying an engine empties exactly its handles, a Global loses its engine too, drops exactly their counts and forgets exactly their entries |
| V8Natives.StepKeeps | backend/V8/V8Engine.cc:301-333 | construction, both passes and the destroying loop, in any interleaving, keep one clean-up due for each object |
| V8Natives.CleanedAtMostOnce | backend/V8/V8Engine.cc:440-458 | no native object is cleaned twice, and until destroying the external memory is the size of those not cleaned |
| V8Natives.MemoryFrozen | backend/V8/V8Engine.cc:440-458 | from when destroying begins the external memory is left alone |
| V8Natives.CleanedExactlyOnce | backend/V8/V8Engine.cc:84-119 | after destroying exactly those objects are not cleaned that were between the passes when it ended and whose second pass has not come since |
| V8Natives.FaultIffSecondLate | backend/V8/V8Engine.cc:319-325 | a callback uses a deleted engine exactly if a second pass comes after destroying, which takes an isolate that is not the engine's own |
| V8Natives.SafeIffNonePending | backend/V8/V8Engine.cc:110-119 | after destroying no callback can use the deleted engine if and only if the isolate is its own or nothing is between the passes |
| V8Natives.LeftBetweenPasses | backend/V8/V8Engine.cc:313-326 | such an object is possible, and on a shared isolate its second pass can still come and use the deleted engine |
| V8Natives.DestroyFinishes | backend/V8/V8Engine.cc:94-102 | the destroying loop can always finish |
| JscNatives.DeletedAtMostOnce | backend/JavaScriptCore/JscEngine-Native.cc:59-71 | no native object is deleted twice, and one not deleted is alive, about to be posted or in the queue |
| JscNatives.DeletedExactlyOnce | backend/JavaScriptCore/JscEngine.cc:56-85 | once the context is released exactly those objects are not deleted whose finalizer was about to post when the messages were removed and whose message has not been handled since |
| JscNatives.LeftBehindRemoval | backend/JavaScriptCore/JscEngine-Native.cc:62-67 | such an object is possible, and when its message is handled it is deleted through the deleted engine |
| JscNatives.FaultIffFailed | backend/JavaScriptCore/JscWeakRef.cc:114-128 | once the engine is gone there has been undefined behaviour if and only if some constructor failed, a finalizer posted after the release or a message was handled after it |
| JscNatives.FaultBeforeRelease | backend/JavaScriptCore/JscEngine-Native.cc:59-71 | before the release there is undefined behaviour exactly if an instance whose constructor failed has been finalized, each of which can be, once |
| JscNatives.SafeIffNothingWaits | backend/JavaScriptCore/JscNative.cc:83-86 | after the release no undefined behaviour can follow if and only if no message is waiting or about to be posted |
| JscNatives.FaultPossible | backend/JavaScriptCore/JscEngine-Native.cc:109-109 | one failed constructor is enough |
| LuaByteBuffer.LuaByteBuffer.Write | backend/Lua/LuaByteBufferImpl.cc:64-87 | succeeds exactly for aligned positions inside the buffer and replaces exactly those bytes; a failure changes nothing |
| LuaByteBuffer.LuaByteBuffer.Read | backend/Lua/LuaByteBufferImpl.cc:70-99 | succeeds under the same condition and decodes exactly those bytes |
| LuaByteBuffer.LuaByteBuffer.WriteThenRead | backend/Lua/LuaByteBufferImpl.cc:64-99 | reading after writing gives the value or the same exception |
| LuaByteBuffer.AccessMeaning | backend/Lua/LuaByteBufferImpl.cc:89-99 | which positions are refused, and with which exception |
| LuaByteBuffer.CodecInverse | backend/Lua/LuaByteBufferImpl.cc:64-72 | bytes and value determine each other in either byte order |
| LuaByteBuffer.ByteAt | backend/Lua/LuaByteBufferImpl.cc:64-72 | the least significant byte comes first in little-endian order and last in big-endian order |
| LuaByteBuffer.DisjointOrNested | backend/Lua/LuaByteBufferImpl.cc:83-86 | two aligned accesses are disjoint or one is inside the other |
| LuaByteBuffer.ReadAfterWrite | backend/Lua/LuaByteBufferImpl.cc:64-99 | a write does not disturb a disjoint read, and a read inside it sees its bytes |
| LuaByteBuffer.WriteBack | backend/Lua/LuaByteBufferImpl.cc:64-72 | writing back what was read changes nothing |
| LuaByteBuffer.SignedReadAfterWrite | backend/Lua/LuaByteBufferImpl.cc:117-137 | a signed value that is written is the signed value that is read |
| LuaByteBuffer.SignedRoundTrip | backend/Lua/LuaByteBufferImpl.cc:117-137 | signed values and their bits determine each other |
| IntegerBridge.RoundsToNearest | backend/JavaScriptCore/JscValue.cc:90-92 | the number made from an integer is a double, none is nearer, and a tie goes to the even one |
| IntegerBridge.RoundExact | backend/JavaScriptCore/JscValue.cc:90-92 | the number is the integer exactly if that is a double, as all up to 2^53 are |
| IntegerBridge.CastCongruent | src/NativeConverter.hpp:123-129 | narrowing gives the one value of the type that differs by a multiple of 2^bits |
| IntegerBridge.FromScript | src/NativeConverter.hpp:116-129 | which numbers from script have a defined result, and that it is congruent to them |
| IntegerBridge.SmallRoundTrip | src/NativeConverter.hpp:116-129 | integers of 8, 16 and 32 bits come back as they were |
| IntegerBridge.WideRoundTrip | src/NativeConverter.hpp:123-129 | a 64-bit integer, signed or unsigned, comes back exactly if as an int64 it is a double |
| IntegerBridge.NearestRoundTrip | backend/JavaScriptCore/JscLocalReference.cc:420-432 | otherwise the nearest double comes back from an int64, except that 2^63 is out of range |
| IntegerBridge.NearestUnsigned | src/NativeConverter.hpp:123-129 | a uint64 below 2^63 comes back as the nearest double, from there on as 2^64 less the double nearest to its distance from 2^64 |
| IntegerBridge.FirstLost | src/NativeConverter.hpp:123-129 | 2^53 + 1 comes back as 2^53 |
| IntegerBridge.GreatestOutOfRange | backend/JavaScriptCore/JscLocalReference.cc:432-432 | 2^63 - 1 is rounded out of the range of int64 |
| Namespaces.Cut | backend/Python/PyEngine.h:134-139 | what comes before the first dot is the first component, and what comes after it gives the others |
| Namespaces.GetLine | backend/Kotlin/KotlinEngine.cc:206-208 | reads up to a dot or the end, and fails exactly at the end |
| Namespaces.ParsePython | backend/Python/PyEngine.h:132-168 | the find and substr loop gives the components |
| Namespaces.ParseKotlin | backend/Kotlin/KotlinEngine.cc:205-208 | the getline loop gives the same components for every string |
| Namespaces.JoinComponents | backend/Python/PyEngine.h:132-168 | joining the components gives the namespace back, without a dot at its end |
| Namespaces.NoDots | backend/Python/PyEngine.h:132-140 | no component has a dot in it |
| Namespaces.ComponentsJoin | backend/Kotlin/KotlinEngine.cc:205-208 | dot-free components survive joining and parsing exactly if the last is not empty |
| Namespaces.Generate | backend/Kotlin/KotlinEngine.cc:202-224 | the loop writes the declarations of the nested namespace classes |
| Namespaces.PathLeadsToClass | backend/Kotlin/KotlinEngine.cc:209-223 | the declarations never use an undeclared class, declare one name, and the full path leads to the native class |
| Namespaces.EarlierPathSurvives | backend/Kotlin/KotlinEngine.cc:209-223 | a class registered earlier keeps its path exactly if that begins with another name |
| Namespaces.PrintableExactly | backend/Kotlin/KotlinEngine.cc:209-223 | every name in the generated declarations is an identifier if and only if the class name and all components are |
| Namespaces.EmptyComponent | backend/Kotlin/KotlinEngine.cc:205-208 | a component is empty if and only if there is a dot at the beginning or after another dot |
| SearchPaths.SplitStrWithPattern | backend/Python/PyRuntimeSettings.cc:117-134 | the cutting loop ends and gives the pieces between separators |
| SearchPaths.JoinSplit | backend/Python/PyRuntimeSettings.cc:97-134 | joining what was split gives the string back, and no piece has a separator |
| SearchPaths.SplitJoin | backend/Python/PyRuntimeSettings.cc:97-134 | a list survives exactly if its elements have no separator and it is not one empty path |
| SearchPaths.AddAppends | backend/Python/PyRuntimeSettings.cc:110-115 | adding appends exactly the path if and only if there was one and it has no separator |
| SearchPaths.AddToNone | backend/Python/PyRuntimeSettings.cc:110-115 | added to none, the path has an empty path before it |
| SearchPaths.Settings.SetModuleSearchPaths | backend/Python/PyRuntimeSettings.cc:97-108 | the setting becomes the joined list |
| SearchPaths.Settings.AddModuleSearchPath | backend/Python/PyRuntimeSettings.cc:110-115 | the setting after adding, the empty path ignored, and when that appends |
| SearchPaths.Settings.SetThenGet | backend/Python/PyRuntimeSettings.cc:97-145 | what is set is what is read, under exactly the condition of SplitJoin |
| MessageQueue.MessageQueue.FindInsertPosition | src/utils/MessageQueue.cc:249-272 | the three loops find the place behind all messages that are not later and before all that are |
| MessageQueue.MessageQueue.NextMessageId | src/utils/MessageQueue.cc:225-229 | the next 32-bit id, never 0 |
| MessageQueue.IdsRepeatExactly | src/utils/MessageQueue.cc:224-229 | ids are never 0 and repeat exactly after 2^32 - 1 posts |
| MessageQueue.OrderMeaning | src/utils/MessageQueue.cc:249-272 | due times ascend, among equal ones priorities, and equal messages stand in the order of arrival |
| MessageQueue.MessageQueue.PostMessage | src/utils/MessageQueue.cc:224-247 | posting gives an id, keeps the order by due time, priority and arrival and, unless the poster is inside a loop of the queue, the capacity; after a shutdown the message is only cleaned up and there is no id |
| MessageQueue.MessageQueue.RemoveMessageIf | src/utils/MessageQueue.cc:274-297 | removal keeps the order and cleans up exactly the messages it takes |
| MessageQueue.SplitTakes | src/utils/MessageQueue.cc:274-297 | what a removal takes, and that without a plain remove it takes all that is wanted |
| MessageQueue.SplitConserves | src/utils/MessageQueue.cc:274-297 | a removal loses and invents no message |
| MessageQueue.MessageQueue.TakeDue | src/utils/MessageQueue.cc:299-299 | the looper takes the first message if it is due, and none that waits is before it |
| MessageQueue.MessageQueue.Finish | src/utils/MessageQueue.cc:416-425 | a handled message is cleaned up |
| MessageQueue.MessageQueue.ShutdownNow | src/utils/MessageQueue.cc:154-162 | a shutdown cleans up everything that waits |

## Left out

- The scope objects of QuickJS, JavaScriptCore and Lua are not classes here: their constructors and destructors run in several threads at once, so they are programs of a state machine, whose steps are the lock operations.
- Destroying an engine is one step of the scope machine: it sets the flag and removes the engine's messages.  What a thread still does with a deleted engine is not modelled.
- Waiting in `postMessage` for room is no step of the scope machine: a tick is posted in one step, and RoomExact and DeadlockFreeWithRoom say when it never waits.  A thread inside the queue's own loop does not wait in the code either.
- A message queue that several engines share is shut down for one engine after the other.
- `JscWeakRef::reset` and V8's `ThreadGlobalScope`, which work outside the scope protocol.
- Python engines are created and destroyed outside the machine of `PyScopes`: both swap thread states and bypass the count.  A Python scope's work under the mutex is one step.
- CPython's `PyThreadState` objects: the state saved at rest is an opaque one of the thread.
- LuaCalls.CallFunction: the limit of the Lua stack (`lua_checkstack`) is not modelled, and neither is the registry entry that the thrown `Exception` takes.
- LuaTables.GetKeys: `getKeys` reserves stack for the array part only; what happens to a table with more string keys than the stack has room for is not modelled.
- LuaTables.InstanceOf: `steps` is a ghost number of steps after which the walk ends, where there is a walk; InstanceOfEnds says exactly when there is one.
- Metamethods of Lua: `lua_next` and the raw calls have none; `luaL_len` is used on tables without `__len`.
- LuaReferences.RegistrySafe: copying or converting a Global demands an id or no engine, as the assertion in the code does; one that was built from a null Local has an engine and no id.  Scripts leave the registry tables alone.
- LuaRegistry.OpKeeps: handles with an id are copied and reset in their engine's scope; what a reset does elsewhere is in ResetInOwnEngine, what a copy does elsewhere is left out.
- LuaHandles.Ref.FromRef: in the scope of the source's engine, as `getGlobalOrWeakTable` and `putGlobalOrWeakTable` open their frames on the current engine.
- LuaHandles.Ref.GetValue: in the scope of the handle's engine, for the same reason.
- LuaHandles.Ref.Destroy: entering the engine is not repeated here; a destroying engine is refused by the scope (BeginEnterOk).
- LuaHandles.LuaEngine.Remove: with no table in the slot the call of the Lua API is undefined, and nothing is said; the two engines have different Lua states.
- Bookkeeping lists of Global and Weak handles (`GlobalWeakBookkeeping`), and emptying a Lua or QuickJS engine's handles by them.
- QuickJS: `extendLifeTimeToNextLoop`, cycles that only its garbage collector frees, finalizers that run code, `ByteBufferState`, and the weak reference objects behind `Weak`, which are objects with an owner like any other.
- QjsHandles.Context.Free: the freed slot holds nothing at once; between `freeValue` and the next assignment the real field still has the old value, which no step reads.
- PyHandles.Interpreter.DecRef: what an object refers to, and what may die with it, is any function of the object; destructors that run code are left out.
- PyHandles.Interpreter.GlobalCopy: assigning a Python handle to itself releases before it retains and is excluded, as is copying a Global that an engine's destruction has emptied.
- PyHandles.KeeperComplete: an emptied handle that was moved can leave an entry behind when it dies; the entry is under no engine or a destroyed one.
- V8 construction during the destroying loop, which may move the map under the loop.
- V8 and JavaScriptCore native objects are followed by state machines, not classes: the garbage collector's callbacks come between any two steps.
- LuaByteBuffer.LuaByteBuffer.Write: positions are above the least 32-bit integer, at which the decrement overflows; floats are their bits.
- JscNatives.FaultIffFailed: after a fault the machine goes on as if the deleted engine were still there.
- V8Natives.FaultIffSecondLate: after a fault the machine goes on as if the deleted engine were still there.
- IntegerBridge.NearestRoundTrip: only integer doubles are compared; those nearest to an integer above 2^53 are all integers.
- Namespaces.Generate: the declarations are syntax trees, not text, with no more of Kotlin's grammar than identifiers; the class bodies in front of them are left out, and a name declared again stands for its new value.
- Namespaces.ParsePython: claims the component list only; the Python loop also attaches the class to every intermediate level.
- SearchPaths.SplitStrWithPattern: the separator is one character, as on every platform supported.
- MessageQueue.MessageQueue.PostMessage: begins where its wait for room ends; that the wait ends is not shown.
- MessageQueue.MessageQueue.TakeDue: waiting, interrupts, workers and the counting of due messages are left out; each method is one step under the queue's mutex.
- `eval`, `loadFile`, JNI, the CPython type machinery, the V8 platform, inspector and task runner: foreign calls and I/O.
- Overload selection, value kinds, validation of class definitions, the Template and WebAssembly backends: they would add only easy members.
