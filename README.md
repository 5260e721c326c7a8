# lua_leveldb: batches, the shared-handle registry and the toggleable lock

This project is a Dafny model of the core of the Lua binding for LevelDB. It covers three parts.

- **`Batch`** is a buffered write batch. It holds:
  - a `leveldb::WriteBatch` commit log (`m_batch`);
  - a delete-set (`m_dels`) and an update-map (`m_upds`), which give read-your-own-writes;
  - four integer and four string parameter slots;
  - a non-owning pointer to its database.

  `Write` replays the log into a database and then clears the batch. The raw batch is the same log without the overlay.
- **`MyMutex`** is a recursive mutex behind an on/off switch.
- **The registry `g_register_dbs`** maps a name to a resource and a reference count. Database paths and batch names share this one table. `l_get_db`, `l_ref_db`, `l_register_db` and `l_unregister_db` use it, and so do their callers:
  - `lvldb_open` and `lvldb_close`;
  - `lvldb_batch`;
  - the `Batch` constructor and destructor;
  - the batch handle's `close` and `__gc`.

Files:

- `common.dfy` holds bytes, `Option`/`Result`, the errors raised through `luaL_error`, and the C integer widths.
- `leveldb.dfy` holds the engine as a key-value map. A `WriteBatch` is a sequence of `Put`/`Del` records, and `DB::Write` replays it.
- `overlay.dfy` holds the invariant that ties the delete-set and update-map to the log, and the read-your-own-writes theorem.
- `locking.dfy` holds `MyMutex` as a switch plus a hold count, with the event-sequence theory behind it.
- `registry.dfy` has two parts:
  - the registry as a class, whose methods scan the table with loops;
  - the specification it is proved against, `Perform`/`RunCalls` over `(table, destroyed)`. `destroyed` is a ghost multiset that records every call of a destroy callback.
- `batches.dfy` holds `Batch`, its handle's close and `__gc`, and the raw batch.
- `lvldb.dfy` holds `lvldb_open`, `lvldb_close` and `lvldb_batch`.
- `scenarios.dfy` holds client methods that follow typical uses (last writer wins, delete hides a put, two handles alias one batch, closing a shared batch) through the contracts alone.

### The central invariant

`Overlay.Mirrors(log, dels, upds)` has two parts:
- a key is in `dels` exactly when the last log record on it is a delete;
- `upds[k]` is the value of the last put on `k`.

The second part holds even when a delete came after that put. `Batch::Delete` never removes the key from `m_upds`, so a key can be in both structures. `Batch.Valid()` keeps the invariant. From it, `Overlay.OverlayAgreesWithReplay` proves that `Batch::Get` returns what the database would hold after the log is replayed into it.

### Registry identity and "exactly once"

Resources are Dafny objects, compared by identity the way the C++ compares `void*`. `l_ref_db` and `l_unregister_db` act on the first entry whose resource matches. When a resource sits under one name only (`Injective`), that entry is unique, and the methods' results equal the specification function `Perform`. `lvldb_open` and `lvldb_batch` preserve `Injective`.

`SharedHandles.BalancedUseDestroysOnce` is the exactly-once theorem. Take any sequence of register, ref and unregister calls on one fresh name and resource whose count stays positive until the last call:
- while the count is positive, the entry holds it and nothing has been destroyed;
- when the count reaches zero, the entry is gone and the resource has been destroyed exactly once.

### Where the code departs from its evident intent

The model follows the code in each case.

- `Batch::Delete` (`src/batch.cc:48-56`) leaves `m_upds` alone, so a key can sit in both `m_dels` and `m_upds`. `Get` still answers correctly, because it checks `m_dels` first.
- `Batch::Write` ignores the status of `DB::Write` (`src/batch.cc:97`) and clears the batch anyway, so a failed write is not reported and its records are lost.
- `l_register_db` (`src/lua-leveldb.cc:39-47`) returns nothing and ignores the new pointer when the name is taken; a caller that built a new resource for a taken name would have to discard it itself.
- The guard of the parameter-slot writes in `src/batch.cc:122` and `src/batch.cc:129` is always true, where the getters' guard shows that an out-of-range index was meant to be ignored; see Findings.
- `SetIntParam` is declared in `batch.hpp` with an `int` value but defined in `batch.cc` with `int64_t`. The slot is an `int`, so the value is narrowed to 32 bits with wrap-around (`Common.ToInt32`).

## Model

| member | source | states |
|---|---|---|
| Common.ToInt32 | src/batch.cc:120-123 | the `int64_t` to `int` slot narrowing: the result is congruent to the value modulo 2^32, and it is the value itself when that fits in 32 bits |
| LevelDb.ReplayLookup | src/batch.cc:95-99 | after `DB::Write` replays a batch, each key holds what its last record says: the put value, nothing after a delete, or its old value if no record touches it |
| LevelDb.ReplayConcat | src/batch.cc:95-99 | writing two logs one after the other gives the same database as writing their concatenation |
| LevelDb.LastRecordDecides | src/batch.cc:26-55 | last writer wins: the last record on a key decides its value after replay, whatever came before it and whatever records on other keys come after |
| LevelDb.Db.Write | src/batch.cc:97 | `DB::Write` of a whole batch: all of the log, or nothing when the engine fails |
| Overlay.MirrorsEmpty | src/batch.cc:58-63 | an empty log, delete-set and update-map satisfy the overlay invariant |
| Overlay.MirrorsPut | src/batch.cc:26-45 | appending a put, removing the key from `m_dels` and overwriting `m_upds[k]` keeps the overlay invariant |
| Overlay.MirrorsDel | src/batch.cc:48-56 | appending a delete and adding the key to `m_dels`, without touching `m_upds`, keeps the overlay invariant |
| Overlay.OverlayAgreesWithReplay | src/batch.cc:65-93 | under the invariant, Get's resolution order (delete-set, then update-map, then database) gives the value the database would hold after the log is replayed |
| Overlay.DeleteHidesPendingValue | src/batch.cc:48-71 | after a delete the key reads as not found even though its earlier pending value stays in `m_upds`, and that value is still the last put on the key |
| Locking.DisabledRunChangesNothing | src/batch.hpp:19-31 | while the switch is off, any sequence of lock and unlock calls leaves the hold count unchanged |
| Locking.EnabledRunCounts | src/batch.hpp:19-33 | while the switch is on, each lock adds one hold and each unlock removes one; a sequence is defined exactly when it never releases more than it holds |
| Locking.BalancedUseRestores | src/batch.cc:95-99 | properly nested use, such as Write's guard around Clear's guard, returns the hold count to where it started, whether the switch is on or off |
| Locking.MyMutex.constructor | src/batch.hpp:16 | a new mutex is switched off and not held |
| Locking.MyMutex.Lock | src/batch.hpp:19-23 | the lock adds one hold when switched on and does nothing when switched off; re-acquiring while held is allowed |
| Locking.MyMutex.TryLock | src/batch.hpp:25 | always succeeds when switched off; when switched on, succeeds and adds a hold exactly when no other thread owns the mutex |
| Locking.MyMutex.Unlock | src/batch.hpp:27-31 | the unlock removes one hold when switched on and does nothing when switched off |
| Locking.MyMutex.SetNeedLock | src/batch.cc:185-192 | the switch takes the new value while the inner mutex is held around the change; the hold count ends where it began |
| SharedHandles.BalancedUseDestroysOnce | src/lua-leveldb.cc:29-63 | register, ref and unregister calls on a fresh name and resource keep the entry with their net count while it is positive; at zero the entry is erased and the destroy callback has run exactly once |
| SharedHandles.RegisterTwiceReleaseTwice | src/lua-leveldb.cc:39-63 | registering a name twice and releasing once leaves the entry with count 1 and nothing destroyed; a second release erases it and destroys the resource exactly once |
| SharedHandles.ExtraReleaseDestroysAgain | src/lua-leveldb.cc:49-63 | releasing a resource that no entry holds runs the destroy callback at once, a second time if it was already destroyed |
| SharedHandles.FreshEntryKeepsInjective | src/lua-leveldb.cc:43 | inserting an entry for a resource that no entry holds keeps one name per resource |
| SharedHandles.SameResourcesKeepHeld | src/lua-leveldb.cc:29-37 | changing only counts keeps one name per resource and keeps the set of registered resources |
| SharedHandles.ReleaseKeepsInjective | src/lua-leveldb.cc:49-63 | a release, which lowers a count or erases an entry, keeps one name per resource |
| SharedHandles.RegisteredKeepsInjective | src/lua-leveldb.cc:39-47 | registering keeps one name per resource, provided a new name brings a resource that is not yet registered |
| SharedHandles.Registry.constructor | src/lua-leveldb.cc:18 | the registry starts empty, with nothing destroyed |
| SharedHandles.Registry.Get | src/lua-leveldb.cc:20-27 | `l_get_db` returns the resource under the name exactly when the name is present, and changes no count |
| SharedHandles.Registry.Ref | src/lua-leveldb.cc:29-37 | `l_ref_db` adds one to the count of the entry holding the resource, or does nothing when no entry holds it; names and resources stay the same; with one name per resource it agrees with the specification |
| SharedHandles.Registry.Register | src/lua-leveldb.cc:39-47 | `l_register_db` inserts the pair with count 1 when the name is absent, and otherwise adds one to the existing count and ignores the new resource |
| SharedHandles.Registry.Unregister | src/lua-leveldb.cc:49-63 | `l_unregister_db` has three outcomes: a matching entry whose count drops to zero is erased and destroyed; a matching entry whose count stays positive is lowered and not destroyed; with no match the callback runs; the callback runs after the registry lock is released |
| Batches.PutThenGet | src/batch.cc:17-93 | put followed by get with the matching compression flag returns the value put, provided the codec round-trips it |
| Batches.SetGuardAsWrittenAdmitsOutOfRange | src/batch.cc:120-132 | the guard `idx >= 0 \|\| idx < MAX_PARAM_NUM` holds for every index, so index 4 and index -1 write outside the four slots |
| Batches.SetSlot | src/batch.cc:120-132 | the intended slot write: four slots stay four, the slot at an in-range index takes the value, and every other slot is unchanged |
| Batches.SetSlotAgreesWhereDefined | src/batch.cc:120-132 | the write as written stays in bounds exactly for in-range indices, and there it equals the intended write |
| Batches.GetSlot | src/batch.cc:101-118 | the getters return a result exactly when `0 <= idx < MAX_PARAM_NUM` |
| Batches.GetAfterSetSlot | src/batch.cc:101-132 | reading a slot after writing it gives the value written; other slots and out-of-range indices read as before |
| Batches.Batch.constructor | src/batch.cc:3-9 | a new batch has an empty log and overlay, zeroed int slots and a switched-off mutex, and takes one registry reference on its database |
| Batches.Batch.Finalize | src/batch.cc:11-15 | `~Batch` releases the batch's database once, which destroys the database only if that was its last reference |
| Batches.Batch.Put | src/batch.cc:17-46 | appends exactly one put of the stored bytes to the log, removes the key from `m_dels`, overwrites `m_upds[k]`, and returns the stored length; a failed compression raises an error before anything changes; the lock ends as it started |
| Batches.Batch.Delete | src/batch.cc:48-56 | appends exactly one delete to the log, adds the key to `m_dels` with set semantics, and leaves `m_upds` unchanged |
| Batches.Batch.Clear | src/batch.cc:58-63 | empties the log, `m_dels` and `m_upds`; the slots and the database are untouched |
| Batches.Batch.Get | src/batch.cc:65-93 | a key in `m_dels` is not found even when `m_upds` holds it; otherwise the pending value answers; otherwise the database answers; with a database, the answer equals a lookup in the database after the log is replayed |
| Batches.Batch.Write | src/batch.cc:95-99 | replays the log into the given database, which need not be `m_db`, or leaves it unchanged on failure; clears the batch either way; the nested lock inside Clear leaves the hold count unchanged |
| Batches.Batch.GetIntParam | src/batch.cc:101-108 | returns the int slot at an in-range index and no result otherwise |
| Batches.Batch.GetStringParam | src/batch.cc:110-118 | returns the string slot at an in-range index and no result otherwise |
| Batches.Batch.SetIntParam | src/batch.cc:120-125 | writes the value, narrowed to 32 bits, into the slot at an in-range index and leaves every other slot unchanged; uses the intended guard |
| Batches.Batch.SetStringParam | src/batch.cc:127-132 | writes the string into the slot at an in-range index and leaves every other slot unchanged; uses the intended guard |
| Batches.ReleaseBatchDestroysOnLastReference | src/batch.cc:239-241 | releasing a batch destroys it once exactly when the release was its last reference |
| Batches.ReleaseBatch | src/batch.cc:239-241 | releases the batch; when that destroys it, `~Batch` releases its database in turn; one name per resource is kept |
| Batches.BatchClose | src/batch.cc:236-245 | releases the handle's batch and nulls the handle, so a second close changes nothing |
| Batches.BatchGc | src/batch.cc:247-255 | releases the handle's batch like close, but keeps the handle |
| Batches.RawBatch.constructor | src/lua-leveldb.cc:128-134 | a new raw batch has an empty log |
| Batches.RawBatch.Put | src/batch.cc:257-280 | appends one put of the stored bytes and returns their length; a failed compression raises an error with the log unchanged |
| Batches.RawBatch.Delete | src/batch.cc:282-287 | appends one delete record |
| Batches.RawBatch.Clear | src/batch.cc:289-293 | empties the log |
| LuaLevelDb.Open | src/lua-leveldb.cc:65-85 | reuses the database registered under the path and adds a count; otherwise opens a new one and registers it with count 1; a failed open raises an error with the registry unchanged; one name per resource is kept |
| LuaLevelDb.Close | src/lua-leveldb.cc:87-96 | releases the handle's database and nulls the handle, so a second close changes nothing |
| LuaLevelDb.NewBatch | src/lua-leveldb.cc:106-126 | a name already in the registry shares that batch and adds a count when non-empty; otherwise a new batch takes a reference on the database (none when the database handle is already closed) and, when the name is non-empty, is registered with count 1; an unnamed batch, or one named "", is never registered |

## Left out

- LuaLevelDb.Open: when the path names a batch, the code reinterprets the batch pointer as a `DB*`, which is undefined behaviour. The model raises `NameHeldByBatch` and leaves the registry unchanged.
- LuaLevelDb.NewBatch: when the name is a database path, the code reinterprets the `DB*` as a `Batch*`. The model raises `NameHeldByDatabase`.
- LuaLevelDb.NewBatch does not promise `Valid()` for a batch shared by name. The registry records only object identity, not the state of the objects it holds.
- SharedHandles.Registry.Ref and SharedHandles.Registry.Unregister scan an unordered set of keys, not `std::map` order. Which entry they hit matters only when a resource sits under two names, which `Open` and `NewBatch` never create. Their link to the specification is therefore stated under that premise.
- Concurrency is not modelled: no `g_mutex` contention, no blocking in `MyMutex`, no interleaving. `TryLock` takes whether another thread owns the mutex as a parameter.
- Locking.MyMutex.Unlock requires a positive hold count when the switch is on, because releasing an unheld `std::recursive_mutex` is undefined.
- Changing the switch while a guard is held is not modelled. An unlock after a change from off to on would be such a release.
- `luaL_error` unwinds with `longjmp`. The model returns `Err` from `Put` after releasing the guard. With Lua built as C, the real guard's destructor is skipped on that path.
- The miniz codecs are function parameters (`Codec`), not modelled code. Their round trip is a premise of `Batches.PutThenGet`.
- Batches.Batch.Get requires a database whenever the key is not in the overlay. The code dereferences a null `m_db` there.
- `DB::Get` is modelled as a map lookup, so an I/O error that reads as not found is not modelled.
- `DB::Write` failure is a parameter (`fails`), and write options are not modelled.
- Lua marshalling is not modelled: argument checks, userdata, metatables, and the `(int)` cast of a Lua integer index (`src/batch.cc:196-216`). Indices arrive as 32-bit values.
- `lvldb_batch_lock` (`src/batch.cc:168-183`) is not modelled. It runs a Lua function under `lua_pcall` in the Lua VM. What it relies on is covered by `Locking.MyMutex.Lock` allowing re-acquisition and by `Locking.BalancedUseRestores`.
- Raw batch `__gc` is not modelled. It runs the `WriteBatch` destructor and touches no modelled state.
- Iterators, snapshots, options, repair and the clock helpers are not part of this model.
- Memory is not modelled. The destroy callbacks are recorded in the ghost multiset `destroyed`; storage is never freed.

## Findings

| source | as written | input that shows it | evidently intended | confidence | as-written member | corrected member |
|---|---|---|---|---|---|---|
| src/batch.cc:120-132 | `SetIntParam` and `SetStringParam` guard the slot write with `idx >= 0 \|\| idx < MAX_PARAM_NUM`, which is true for every index | `idx = 4` or `idx = -1`: the guard passes and the write lands outside the four-element slot arrays | `0 <= idx && idx < MAX_PARAM_NUM`, matching the getters at lines 103 and 112: an out-of-range write is ignored | not executed | Batches.SetGuardAsWrittenAdmitsOutOfRange | Batches.SetSlotAgreesWhereDefined |
