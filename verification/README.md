# RedisAllocator: verified model

RedisAllocator hands out keys from a shared pool kept in Redis. The pool is a hash of strings
`prev||next||expiry`; the entries that are free form a doubly-linked list with separate head and tail
pointers, the others carry the mark `#ALLOCATED` in both fields. Locks with deadlines say who holds what, and
soft bindings let a named caller get its old key back. Every operation is one Lua script, so a run is any
interleaving of script calls from any number of clients with the clock moving in between.

The project models that state and its scripts statement by statement, proves what each script does to the free
sequence, the members, the locks and the bindings, and proves properties of whole runs. It then follows a live pool
through the diagnostics (snapshot script, flat reply, parser, corruption checker) to the checker's verdict, models
the updater that refreshes the pool, and compares the in-memory lock with the Redis lock it stands in for.

## Layout

| file | content |
|---|---|
| `Wrappers.dfy`, `Sequences.dfy`, `Modulo.dfy` | an option type, duplicate-free sequences, removal, first occurrences, maps, remainders |
| `PoolEncoding.dfy` | key validation, decimal numbers, the entry string, Lua's greedy split, the diagnostics parser |
| `FreeList.dfy` | what it means that head, tail, prev and next spell out a list, and the pointer rewrites that keep it |
| `PoolSpec.dfy` | the abstract state, one function per script, calls and runs |
| `Legibility.dfy` | when the strings of a list can be read back, by the scripts and by the diagnostics, over lists and over runs |
| `Allocator.dfy` | the class with the raw entry strings, head, tail, locks, bindings and clock; helpers and scripts as methods |
| `ScriptMeaning.dfy` | closed forms of the scripts, without loop or recursion |
| `RunProperties.dfy` | discipline, exclusive holding, affinity, self-healing, membership over runs |
| `CallLaws.dfy` | what every call leaves, field by field, and how deadlines and bindings run out, in milliseconds |
| `PoolCosts.dfy` | where list nodes come from and go to, the amortised bound, shared-mode rotation |
| `Diagnostics.dfy`, `Collector.dfy` | walks, checker, counters; snapshot, flat reply, the chain from a live pool to the verdict |
| `Updater.dfy` | the parameter updater and the policy's refresh |
| `Locks.dfy` | the in-memory lock, the Redis lock, their agreement, and epsilon drift |

## Reading the model

- `RedisAllocator` holds the hash as strings. Every read goes through the Lua split and every write through the
  join; the parsed entries, their expiries and the list are ghost fields. `Spelled` says that the strings spell out
  the list, `Valid` that the scripts can also read it back; a last ghost field counts pushes, skips, takes and unlinks.
- The abstract state knows nothing of strings, so the run properties hold for all valid keys. What pipes at the edges
  of keys do to the strings is a condition on the list, `LuaLegible`. Calls that only append, clear or leave the list
  alone do without it; popping and cutting nodes needs it, over runs `LegibleRun`.
- Time is in milliseconds and does not move inside a script. A lock is live while the clock is before its
  deadline; the pool expiry compares whole seconds, as the scripts do.
- What HKEYS, HSCAN, HGETALL and `pairs` return is an arbitrary enumeration passed in by the caller.
- A Lua `assert` is a Dafny `assert` where no call can fire it, and an `ok` result where one can (`push_to_tail`,
  and through it `free_keys`). An `EX` timeout the server refuses is the reply `ScriptError`.
- `Enabled` says what a call is given: enumerations that fit the pool, and no key of a freed batch locked and free at
  once. `Sound` replaces the latter by the discipline "a locked member is allocated".

## Where the code falls short of its documentation

- A key with a leading `|` passes validation. Behind another key of the list it is misread as a `next` field, and then
  no list fits what the scripts read (`LuaSeesList`, both ways; `TwoKeyBatch` is an instance). At the head it
  is harmless, until a shared-mode malloc moves it behind the others (`SharedTurnLegible`).
- A key with a trailing `|` in front of another one is misread by the diagnostics, which then raise a false alarm
  (`Diagnose` is exact; `FalseAlarm` is an instance).
- `malloc_key(timeout<=0)` is documented as a permanent lock. For a caller whose binding is honoured in exclusive mode
  the server refuses the `EX`, after the node has left the list: nobody holds the key, and only a caller bound to it can
  get it before gc comes by (`MallocOutcome` says exactly when, `RefusedMalloc` what is left, `RefusedMallocRun` is a run).
- A bound caller is given its key even when the key has expired in the pool, and nobody else ever is (`ExpiredGrant`,
  `ExpiredGrantRun`). The lock of a bound key is tested in shared mode too.
- `update` may lock a free key directly. `free_keys` on such a key then stops at an assert, or links the node to
  itself when it is the whole list; `FreeScript` is exact about when, and `DirectLockOnFreeKey` is a way there.
- In shared mode malloc moves the key to the tail; it does not remove it, as one docstring says.
- The checker accepts one broken shape (`DanglingPairIsAccepted`, `DanglingPairIsNoList`) and reports a good list whose
  free keys start with `<` (`NoteAlarm`).
- The in-memory lock gives a re-entrant holder a new deadline (`HolderIsRenewed`), counts leftover entries as unlocked
  (`LeftoverIsUnlocked`), raises on values it cannot read as numbers (`NameIsNoNumber`), keeps a number as a number, so
  that no holder name matches it and its text may differ from the server's (`NumberIsNoText`), and takes no timeout, or
  a conditional set without a positive one, for a finite one (`NoTimeoutRunsOut`, `ZeroExpirySet`); Redis does none of
  that. `Faithful` is the exact condition.

## Model

| member | source | states |
|---|---|---|
| `PoolEncoding.LuaSplitIsGreedy` | redis_allocator/allocator.py:657-664 | the split is the greedy match: longest first capture for which the rest still matches, then longest second |
| `PoolEncoding.LuaSplitMatches` | redis_allocator/allocator.py:657-664 | the split reads any text with two separators that do not overlap, the empty text as a free entry, and no other |
| `PoolEncoding.ValidKeyMeans` | redis_allocator/allocator.py:962-978 | a key is valid exactly when it is not empty, not the reserved word, has no two pipes in a row and no NUL |
| `PoolEncoding.ParseShowInt` | redis_allocator/allocator.py:663-669 | every integer expiry survives being written and read |
| `PoolEncoding.LuaRoundTrip` | redis_allocator/allocator.py:657-670 | for separator-free fields, split undoes join if and only if `next` has no leading pipe |
| `PoolEncoding.PyRoundTrip` | redis_allocator/diagnostics/invariants.py:43-51 | for separator-free fields, the diagnostics parser undoes join if and only if `prev` has no trailing pipe |
| `PoolEncoding.ReadersAgree` | redis_allocator/allocator.py:657-670 | the two readers give the same entry exactly when neither inner edge is a pipe |
| `PoolEncoding.RewriteHeals` | redis_allocator/allocator.py:924-927 | refreshing the expiry of a misread entry leaves the string that a correct reading would have left |
| `Legibility.LuaSeesList` | redis_allocator/allocator.py:657-664 | the scripts see the hash they wrote, or any list at all from its ends, exactly when no key behind another one has a leading pipe |
| `Legibility.PySeesList` | redis_allocator/diagnostics/invariants.py:43-51 | the diagnostics do exactly when no key in front of another one has a trailing pipe |
| `Legibility.PlainRunIsLegible` | redis_allocator/allocator.py:962-978 | a run into which no key with a leading pipe enters meets the legibility condition of `Execute` and ends with a legible list |
| `Allocator.ReadBackIsList` | redis_allocator/allocator.py:657-670 | the strings of a list read back as that list, entry by entry, and as any list at all, exactly when it is legible |
| `Allocator.TwoKeyBatch` | redis_allocator/allocator.py:962-996 | a concrete accepted batch of two keys, the second with a leading pipe, and the strings it leaves: they read back as no list, and the head leads to a key that is not in the pool |
| `FreeList.LinkedUnique` | redis_allocator/allocator.py:707-730 | hash and head determine the free list |
| `FreeList.AppendKeepsLinked` | redis_allocator/allocator.py:717-729 | the writes of push_to_tail turn a list into the same list with one more node at its end |
| `FreeList.UnlinkKeepsLinked` | redis_allocator/allocator.py:813-831 | the writes of set_item_allocated cut one node out of a list at any position, both ends included |
| `FreeList.HeadDeleted` | redis_allocator/allocator.py:765-784 | deleting an expired head and promoting its successor leaves the tail of the list |
| `FreeList.HeadMarked` | redis_allocator/allocator.py:765-788 | marking a locked head and promoting its successor leaves the tail of the list, the head as an allocated member |
| `FreeList.HeadTaken` | redis_allocator/allocator.py:789-801 | taking the head leaves the tail of the list |
| `Legibility.FreeToPush` | redis_allocator/allocator.py:711-716 | the entry test of push_to_tail, misread or not, lets a listed node through exactly when it is the whole list |
| `Allocator.ClaimIsCorrupt` | redis_allocator/allocator.py:711-729 | once the head claims a predecessor, as a node linked to itself does, no list fits what the scripts read |
| `Allocator.RedisAllocator.PushToTail` | redis_allocator/allocator.py:707-730 | appends any valid key that is off the list; on a listed key either stops at an assert with nothing written, or, for a list of one, links the node to itself; a broken list stays broken |
| `Allocator.RedisAllocator.PopFromHead` | redis_allocator/allocator.py:755-802 | keeps the list well formed, refines `Pop`, terminates by list length, and counts exactly the stale heads it skips |
| `Allocator.RedisAllocator.SetItemAllocated` | redis_allocator/allocator.py:804-840 | removes the key from any position of a legible list, leaves an allocated member of any pool alone, keeps everything else; none of its asserts can fire |
| `Allocator.RedisAllocator.CheckItemHealth` | redis_allocator/allocator.py:842-863 | refines the four-way reconciliation of one member |
| `Allocator.RedisAllocator.GetFreeList` | redis_allocator/allocator.py:868-894 | returns exactly the free sequence of a well-formed pool, and never more items than the pool has in any state |
| `Allocator.RedisAllocator.ExtendScript` | redis_allocator/allocator.py:918-934 | refines `ExtendAll` for all valid keys; the strings spell out the resulting list, readable exactly when it is legible |
| `Allocator.RedisAllocator.ShrinkScript` | redis_allocator/allocator.py:1010-1017 | refines `ShrinkAll`, unknown keys included |
| `Allocator.RedisAllocator.AssignScript` | redis_allocator/allocator.py:1043-1069 | refines `AssignAll` for all valid keys and any order HKEYS and pairs() may use |
| `Allocator.RedisAllocator.MallocScript` | redis_allocator/allocator.py:1182-1244 | refines `MallocKey`, bound or not, shared or not, with the skips, takes and pushes of `PoolCosts`; in exclusive mode the list stays readable; what `MallocKey` leaves is fixed by `MallocFromList` and `MallocByBinding` |
| `Allocator.RedisAllocator.FreeScript` | redis_allocator/allocator.py:1322-1333 | runs to its end and leaves the strings of a list exactly when no key of the batch is both locked and free; then refines `FreeAll`; otherwise it stops, or no list fits what it leaves |
| `Allocator.RedisAllocator.GcScript` | redis_allocator/allocator.py:1401-1411 | refines `GcAll` for any scan of members, with the pushes of `PoolCosts`; the list has to be legible only when a node is cut out of it |
| `Allocator.RedisAllocator.ValidateKeys` | redis_allocator/allocator.py:962-978 | accepts a batch exactly when no key is empty or the reserved word, has two pipes in a row, or holds a NUL |
| `Allocator.RedisAllocator.Extend` | redis_allocator/allocator.py:980-996 | one invalid key rejects the whole batch and changes nothing |
| `Allocator.RedisAllocator.Assign` | redis_allocator/allocator.py:1071-1089 | an empty batch clears, one invalid key rejects the call and leaves the pool alone |
| `Allocator.RedisAllocator.Apply` | redis_allocator/allocator.py:707-863 | every call that pops and cuts nodes from legible lists only follows its specification and fires no Lua assert; the strings spell out the specified list, which reads back as a list exactly when it is legible; the counted pushes, skips, takes and unlinks are those of `PoolCosts` |
| `Allocator.RedisAllocator.Execute` | redis_allocator/allocator.py:707-863 | over any run of such calls and clock ticks, from any number of clients, the list stays well formed and the state is the specified one; the skips counted on the way are at most the initial list length plus the keys handed in |
| `ScriptMeaning.PopMeaning` | redis_allocator/allocator.py:755-802 | pop drops the stale prefix, takes the first key neither expired nor locked, and finds nothing exactly when every listed key is stale |
| `ScriptMeaning.ExtendMeaning` | redis_allocator/allocator.py:922-934 | new names join once each in order of first occurrence, unlocked, at the tail; every named member gets the new expiry; nothing else moves |
| `ScriptMeaning.ShrinkMeaning` | redis_allocator/allocator.py:1010-1017 | exactly the named members leave; locks, bindings and the order of the rest stay |
| `Sequences.DropKeepsOrder` | redis_allocator/allocator.py:1052-1056 | what stays on the list after a removal stays in the order it had |
| `ScriptMeaning.AssignMeaning` | redis_allocator/allocator.py:1043-1069 | membership becomes exactly the given set; survivors keep expiry, lock and relative order, evicted keys keep their locks, new keys follow unlocked |
| `ScriptMeaning.FreeMeaning` | redis_allocator/allocator.py:1326-1332 | all named locks go; each member that held one returns once, at the tail, duplicates and evicted keys included |
| `ScriptMeaning.GcMeaning` | redis_allocator/allocator.py:1406-1410 | of the scanned keys the stale leave the list, the expired leave the pool, the idle return to the tail in scan order |
| `ScriptMeaning.ExpiryRounding` | redis_allocator/allocator.py:671-679 | an entry given a timeout is good until more than a second before it has passed and no longer once it has; without one it never expires |
| `RunProperties.SoundStep` | redis_allocator/allocator.py:842-863 | every script keeps "a locked member is allocated"; under it no freed batch can fail; a direct lock keeps it exactly when the key is not free |
| `RunProperties.SoundRunEnabled` | redis_allocator/allocator.py:711-726 | along any run without direct locks on free keys, no assert can fire and locked members stay allocated |
| `RunProperties.DirectLockOnFreeKey` | redis_allocator/allocator.py:160-169 | a concrete run that locks a free key, after which freeing it is no longer safe |
| `RunProperties.HeldStep` | redis_allocator/allocator.py:1200-1233 | the key of a live lock is handed to nobody, and the lock is changed only by a call that releases it or by a direct lock |
| `RunProperties.DeadlineStep` | redis_allocator/lock.py:333-334 | unless it is released, a lock entry carries the deadline that was set last, by a grant or by a direct lock the server accepts |
| `RunProperties.GrantLocks` | redis_allocator/allocator.py:1211-1232 | in exclusive mode a granted key is a member that nobody held, leaves the list, and gets the asked-for deadline |
| `RunProperties.SharedGrantsNoLock` | redis_allocator/allocator.py:1211-1236 | in shared mode no call of malloc sets or removes a lock |
| `RunProperties.ExclusiveHolding` | redis_allocator/allocator.py:1200-1233 | between two grants of one key it was freed, unlocked or re-added, or the deadline set last for it, prolongations included, has passed; with no grant or direct lock in between that is the first grant's own |
| `RunProperties.MallocOutcome` | redis_allocator/allocator.py:1200-1243 | which of the three outcomes a malloc has, told from the state before it: refused exactly for an honoured binding in exclusive mode with a timeout that is not positive, empty exactly when nothing usable is bound or listed, else which key; a binding that is not honoured makes no difference; `BindingRunsOut` says when a binding ends |
| `RunProperties.RefusedMalloc` | redis_allocator/allocator.py:1211-1217 | after a refused call the bound key is a member off the list with nobody holding it |
| `RunProperties.RefusedMallocRun` | README.md:43 | a run in which a caller asks for a permanent lock on its key, is refused, and the next caller finds the pool empty |
| `RunProperties.ExpiredGrant` | redis_allocator/allocator.py:1200-1219 | a granted key is expired exactly when it was granted through a binding to an expired key |
| `RunProperties.ExpiredGrantRun` | redis_allocator/allocator.py:1200-1219 | a run in which the bound caller gets an expired key that an unnamed one does not |
| `RunProperties.BoundKeyIsGranted` | redis_allocator/allocator.py:1200-1219 | an honoured binding gives the same key, mid-list or as an allocated member whose lock ran out, moving nothing else |
| `RunProperties.GrantBinds` | redis_allocator/allocator.py:1190-1199 | after a success the name is bound to the key it got, with the asked-for deadline, and no other binding changed |
| `RunProperties.Affinity` | redis_allocator/allocator.py:1200-1243 | a named caller returning before its binding runs out gets the same key again if it is an unheld member, whatever other names did in between; in exclusive mode it must ask for a positive timeout |
| `RunProperties.SweepHeals` | redis_allocator/allocator.py:842-863 | one full pass in any order, from any well-formed state, leaves exactly the unexpired members, free exactly when unlocked |
| `RunProperties.SweepOrderIrrelevant` | redis_allocator/allocator.py:1401-1411 | members and free set after a full pass do not depend on the scan order |
| `RunProperties.PassesAddUp` | redis_allocator/allocator.py:1401-1411 | passes over disjoint parts of the pool equal one pass over both |
| `RunProperties.HealthyIsStable` | redis_allocator/allocator.py:842-863 | a pass over any members of a healthy pool changes nothing |
| `RunProperties.SecondSweepIsIdle` | redis_allocator/allocator.py:1401-1411 | a second full pass at the same time changes nothing |
| `RunProperties.NoLeakAfterSweep` | redis_allocator/allocator.py:1224-1243 | after a full pass an unnamed malloc comes back empty exactly when every unexpired member is held |
| `RunProperties.MembersOfRun` | redis_allocator/allocator.py:1326-1332 | members come from extend and assign alone; no other call, freeing an evicted key included, brings one in |
| `CallLaws.MallocFromList` | redis_allocator/allocator.py:1224-1243 | malloc from the list, field by field: the reply, the run out heads that leave the pool, the granted key still a member with its expiry, the rest of the list, its one new lock and deadline, the bindings |
| `CallLaws.MallocByBinding` | redis_allocator/allocator.py:1200-1219 | malloc by a binding, field by field |
| `CallLaws.ExtendLeaves` | redis_allocator/allocator.py:980-996 | extend, field by field: who joins and in what order, all expiries, whose locks go |
| `CallLaws.ShrinkLeaves` | redis_allocator/allocator.py:1010-1017 | shrink, field by field |
| `CallLaws.AssignLeaves` | redis_allocator/allocator.py:1071-1089 | assign, field by field, with no keys, an invalid key, or valid keys |
| `CallLaws.FreeLeaves` | redis_allocator/allocator.py:1322-1333 | free, field by field: which members return, in what order and good until when |
| `CallLaws.GcLeaves` | redis_allocator/allocator.py:1401-1411 | one gc pass, field by field |
| `CallLaws.LocksRunOut` | redis_allocator/allocator.py:1211-1233 | a lock set by a grant or directly for t seconds and not set again is in force exactly until t seconds have passed or a call releases it |
| `CallLaws.ReleasedStaysFree` | redis_allocator/allocator.py:218-219 | after a release, an unlock included, the key stays unlocked until it is granted or locked directly |
| `CallLaws.GrantThenFree` | redis_allocator/allocator.py:1326-1332 | any exclusive grant, released before its time, ends with the key a member at the tail of the list, unlocked, with the new expiry |
| `CallLaws.BindingRunsOut` | redis_allocator/allocator.py:1190-1202 | once its seconds have passed a binding no longer counts: the named call is answered and leaves the pool like the unnamed one |
| `CallLaws.ClearedStaysEmpty` | redis_allocator/allocator.py:1088-1089 | after clear, or assign with no keys, no member is left and every caller comes back empty until keys join |
| `PoolCosts.StepBalance` | redis_allocator/allocator.py:707-840 | nodes on the list plus pushes equal nodes left plus skips, takes and unlinks, call by call; `Apply` ties each of the four to what the helpers count |
| `PoolCosts.PushesAreSupplied` | redis_allocator/allocator.py:707-730 | no call pushes more nodes than keys were handed to it |
| `PoolCosts.AmortisedSkips` | README.md:471-478 | over any run, stale heads skipped by malloc number at most the initial list length plus the keys ever handed in |
| `PoolCosts.SharedRotation` | redis_allocator/allocator.py:1224-1236 | with m usable keys, the i-th of n unnamed shared calls gets key i mod m, and the list ends rotated by n mod m with nothing else changed |
| `PoolCosts.FullTurn` | redis_allocator/allocator.py:1224-1236 | m calls hand out every key once in list order and restore the state |
| `PoolCosts.SharedTurnLegible` | redis_allocator/allocator.py:1224-1236 | a shared turn that puts the head behind the others keeps a legible list legible exactly when that key has no leading pipe |
| `Diagnostics.Walk` | redis_allocator/diagnostics/invariants.py:54-104 | the bounded loop finds what an unbounded walk with cycle detection finds; it never reaches its bound |
| `Diagnostics.ForwardOnList` | redis_allocator/diagnostics/invariants.py:54-75 | on a well-formed pool the forward walk is the free list |
| `Diagnostics.BackwardOnList` | redis_allocator/diagnostics/invariants.py:78-104 | on a well-formed pool the backward walk is the free list reversed |
| `Diagnostics.Decides` | redis_allocator/diagnostics/invariants.py:107-158 | for any snapshot, whatever its keys, the checks together hold exactly for a well-formed pool with no free key locked and none starting with `<`, and for the dangling pair |
| `Diagnostics.WalkLists` | redis_allocator/diagnostics/invariants.py:54-104 | a walk lists the keys along the pointers up to where they end, come back or leave the free entries, with a note in the last case |
| `Diagnostics.WalkComesBack` | redis_allocator/diagnostics/invariants.py:54-104 | a walk reports a cycle exactly at the first key the pointers reach twice |
| `Diagnostics.CheckInvariants` | redis_allocator/diagnostics/invariants.py:107-158 | each violation is reported exactly when the snapshot has the shape it stands for, with the key or the walked lists it names; nothing is reported exactly in the two cases of `Decides` |
| `Diagnostics.DanglingPairIsNoList` | redis_allocator/diagnostics/invariants.py:107-158 | no list at all fits a dangling pair |
| `Diagnostics.DanglingPairIsAccepted` | redis_allocator/diagnostics/invariants.py:107-158 | a concrete dangling pair of one key, which the checker passes |
| `Diagnostics.SummarizePool` | redis_allocator/diagnostics/invariants.py:161-192 | each counter is the size of the set it names; free and allocated partition the pool; locked and reclaimable partition the allocated members on every snapshot with an empty report |
| `Collector.TakeSnapshot` | redis_allocator/diagnostics/collector.py:21-40 | the flat reply has three fixed items and then four per key, in any order HGETALL uses |
| `Collector.CollectRawPool` | redis_allocator/diagnostics/collector.py:98-131 | reading the flat reply four at a time recovers every key with its parsed entry, lock and remaining time |
| `Collector.RemainingTime` | redis_allocator/diagnostics/collector.py:21-40 | the time reported for a lock: none, no deadline, or what remains to the nearest second |
| `Collector.Summarize` | redis_allocator/diagnostics/invariants.py:161-192 | the counters of a live pool are the numbers of its members, listed members, locks in force, locks without a deadline, idle members and run out entries |
| `Collector.ParsedAsWritten` | redis_allocator/diagnostics/collector.py:124-124 | the parser sees the entries the scripts wrote, and any list at all, exactly when no listed key but the last has a trailing pipe |
| `Collector.Diagnose` | redis_allocator/diagnostics/collector.py:98-131 | on a pool whose strings spell out a list the verdict is clean exactly when no free key is locked, none starts with `<`, and none but the last ends in a pipe |
| `Collector.FalseAlarm` | redis_allocator/diagnostics/collector.py:98-131 | a concrete accepted batch of two keys, the first with a trailing pipe: the scripts read the list it leaves, and the checker reports violations |
| `Collector.NoteAlarm` | redis_allocator/diagnostics/invariants.py:107-158 | a concrete accepted batch of one key that starts with `<`: the scripts read the list it leaves, and the checker reports violations |
| `Collector.RunAndDiagnose` | redis_allocator/diagnostics/invariants.py:107-158 | after any sound and legible run the diagnostics report nothing exactly when no listed key starts with `<` and none but the last ends in a pipe |
| `Collector.TidyRun` | redis_allocator/allocator.py:962-978 | with no such key, and none with a leading pipe, among the members and the keys joining, every sound run is of that kind |
| `Updater.Collect` | redis_allocator/allocator.py:516-518 | n calls gather, in order, what the parameters reached by going round from the current one give |
| `Updater.EachParamOnce` | redis_allocator/allocator.py:286-291 | as many calls as there are parameters use each exactly once, from any index, and return to it |
| `Updater.RefreshPool` | redis_allocator/allocator.py:509-533 | assigns or extends the fetched keys in any shuffled order; nothing fetched, or one invalid key, changes nothing |
| `Updater.RefreshPoolAll` | redis_allocator/allocator.py:449-451 | leaves the pool equal to the union of all fetched keys, all free, unlocked, listed once; one invalid key leaves it empty; the list is readable whenever no fetched key has a leading pipe |
| `Locks.CompareLaws` | redis_allocator/lock.py:622-636 | how the six comparisons fit together; at a distance of exactly eps neither `==` nor `!=` holds |
| `Locks.ConditionalInMemory` | redis_allocator/lock.py:640-665 | what each of the six conditional calls does in memory, by its argument, the number the key holds and eps: when it answers true, what it stores, that a false answer changes nothing, that an unreadable live value raises |
| `Locks.ConditionalOnServer` | redis_allocator/lock.py:406-427 | the same for the generated script, where an unreadable value counts as missing |
| `Locks.HeldForItsTime` | redis_allocator/lock.py:583-620 | a key taken for some seconds answers all calls as held for exactly that long in both locks, whatever happens to other keys; once unlocked it is free at once |
| `Locks.StepAgrees` | redis_allocator/lock.py:583-665 | the two locks stay in agreement on live keys, values and deadlines and give the same reply exactly on the faithful calls |
| `Locks.AgreeLater` | redis_allocator/lock.py:566-572 | the clock alone never breaks agreement |
| `Locks.RunAgrees` | redis_allocator/lock.py:583-665 | over any run of faithful calls the replies are the same, texts included, and the live locks agree at the end |
| `Locks.RunBoth` | redis_allocator/lock.py:330-427 | the two classes, driven through the same faithful calls at the same times, reply alike and end with the same live locks |
| `Locks.LeftoverIsUnlocked` | redis_allocator/lock.py:618-620 | unlocking a key whose lock ran out answers true in memory and false on the server |
| `Locks.HolderIsRenewed` | redis_allocator/lock.py:608-616 | a holder that locks again outlives its first deadline in memory and not on the server |
| `Locks.NoTimeoutRunsOut` | redis_allocator/lock.py:588-595 | a lock without a timeout runs out in memory and not on the server |
| `Locks.ZeroExpirySet` | redis_allocator/lock.py:657-663 | a conditional set with an expiry of zero is over at once in memory and permanent on the server |
| `Locks.NameIsNoNumber` | redis_allocator/lock.py:640-654 | a conditional call on a holder's name that is no number raises in memory and succeeds on the server |
| `Locks.NumberIsNoText` | redis_allocator/lock.py:601-616 | a number set by a conditional call is shown by Python in memory and by Lua on the server, and only there does the server's text count as the holder |
| `Locks.SetGtKeepsMax` | redis_allocator/lock.py:622-628 | setgt calls in any order leave the maximum of start value and arguments |
| `Locks.SetGeDrift` | redis_allocator/lock.py:629-630 | n setge calls fall short of the maximum by at most n times eps and never exceed it |
| `Locks.SetGeDriftIsTight` | redis_allocator/lock.py:629-630 | some n calls lower the value by exactly n times eps |
| `Locks.SetEqDrift` | redis_allocator/lock.py:632-633 | n seteq calls stay within n times eps of the value they started from |
| `Locks.SetLtAndSetLe` | redis_allocator/lock.py:624-631 | setlt calls leave the minimum, and n setle calls exceed it by at most n times eps |
| `Locks.SetsSettle` | redis_allocator/lock.py:640-665 | the values above are what the lock holds after the calls, as long as the key is live when each of them comes, renewed by the ones before or not |

## Left out

- Redis itself: client, script registration, transport, cluster mode, and cursors of HSCAN beyond "some members, each once".
- `Allocator.RedisAllocator.Apply`: what popping or cutting nodes does to a list that is not legible, beyond the instance in `TwoKeyBatch`; the scripts then follow pointers that are not there.
- `Allocator.RedisAllocator.Execute`: the same for a run that goes on that way.
- `Allocator.RedisAllocator.GcScript`: the same for a pass that goes on that way.
- `PoolEncoding.ParseShowInt`: number texts the scripts never write, such as `1.5` or `0x1f`, are not read; all digits are kept; Lua prints numbers from 10^14 on in exponent form, which is not modelled.
- `Updater.RefreshPoolAll`: fetching is a function of the parameter, and no other client writes in between.
- Soft-binding calls of the Python API (`update_soft_bind`, `unbind_soft_bind`): they write another Redis key than the scripts read.
- `allocator.lock` on a pool key (SET NX): on an unlocked key it is a direct lock, otherwise it does nothing.
- `set_item_head_nil`: defined in the scripts but never called.
- The rest of the policy: weak references, exit hooks, the five-second cache of refresh attempts, health-check threads, object hooks.
- `RedisTaskQueue`, `RedisLockPool`, `ThreadLockPool`, `key_status`: thin wrappers or queue plumbing.
- Dashboard, command line, JSON models, pressure metrics, recommendations and bounded advisory scans.
- Threads inside `ThreadLock`: each method is one step; floating point is modelled by real numbers, and `float` and `tonumber` by one function from texts to numbers, of which nothing is assumed.
- The very instant of a deadline: it counts as passed in both locks and in the allocator, while the server lets a key live through that millisecond.
- Wall-clock performance: the amortised bound counts steps.
