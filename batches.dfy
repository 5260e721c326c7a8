/**
 * Batch (batch.hpp, batch.cc): a leveldb::WriteBatch with a read-your-own-
 * writes overlay, a toggleable lock and four integer and four string
 * parameter slots; its Lua handle with close and __gc; and the raw batch,
 * the same log without an overlay.
 */
module Batches {
  import opened Common
  import opened LevelDb
  import opened Overlay
  import opened Locking
  import opened SharedHandles

  const MAX_PARAM_NUM: int := 4

  /** The bytes Put logs: the deflated value when `compress` is set, else the value; None when deflate fails. */
  function Stored(val: Bytes, compress: bool, deflate: Codec): Option<Bytes>
  {
    if compress then deflate(val) else Some(val)
  }

  /** What Get hands back for a found value: inflated when `uncompress` is set, a failed inflate giving nil. */
  function Decoded(found: Option<Bytes>, uncompress: bool, inflate: Codec): Option<Bytes>
  {
    match found
    case None => None
    case Some(v) => if uncompress then inflate(v) else Some(v)
  }

  /**
   * Put, then Get with the matching flag, returns the value put, provided the
   * codec round-trips it; with both flags off
   * no codec is involved.
   */
  lemma PutThenGet(d: Data, log: seq<Op>, k: Bytes, v: Bytes, compress: bool, deflate: Codec, inflate: Codec)
    requires compress ==> deflate(v).Some? && inflate(deflate(v).value) == Some(v)
    ensures Stored(v, compress, deflate).Some?
    ensures Decoded(Lookup(Replay(d, log + [Put(k, Stored(v, compress, deflate).value)]), k), compress, inflate) == Some(v)
  {
  }

  predicate SetGuardAsWritten(idx: int)
  {
    idx >= 0 || idx < MAX_PARAM_NUM
  }

  /**
   * The guard of Batch::SetIntParam and Batch::SetStringParam as written,
   * `idx >= 0 || idx < MAX_PARAM_NUM`, and the slot write it protects: None
   * when the write lands outside the slot array (undefined behaviour).
   */
  function SetSlotAsWritten<T>(slots: seq<T>, idx: int, v: T): Option<seq<T>>
  {
    if SetGuardAsWritten(idx) then
      (if 0 <= idx < |slots| then Some(slots[idx := v]) else None)
    else Some(slots)
  }

  /** The written guard lets every index through, so indices 4 and -1 write outside the four slots. */
  lemma SetGuardAsWrittenAdmitsOutOfRange<T>(slots: seq<T>, v: T)
    requires |slots| == MAX_PARAM_NUM
    ensures forall idx: int :: SetGuardAsWritten(idx)
    ensures SetSlotAsWritten(slots, MAX_PARAM_NUM, v) == None
    ensures SetSlotAsWritten(slots, -1, v) == None
  {
  }

  /**
   * The evidently intended slot write, guarded by `0 <= idx < MAX_PARAM_NUM`
   * as the getters are: an out-of-range index is ignored.
   */
  function SetSlot<T>(slots: seq<T>, idx: int, v: T): (r: seq<T>)
    requires |slots| == MAX_PARAM_NUM
    ensures |r| == MAX_PARAM_NUM
    ensures forall j :: 0 <= j < MAX_PARAM_NUM && j != idx ==> r[j] == slots[j]
    ensures 0 <= idx < MAX_PARAM_NUM ==> r[idx] == v
  {
    if 0 <= idx < MAX_PARAM_NUM then slots[idx := v] else slots
  }

  /** The intended write agrees with the written one on every index where the latter is defined. */
  lemma SetSlotAgreesWhereDefined<T>(slots: seq<T>, idx: int, v: T)
    requires |slots| == MAX_PARAM_NUM
    ensures SetSlotAsWritten(slots, idx, v).Some? <==> 0 <= idx < MAX_PARAM_NUM
    ensures SetSlotAsWritten(slots, idx, v).Some? ==> SetSlotAsWritten(slots, idx, v).value == SetSlot(slots, idx, v)
  {
  }

  /** The getters' answer: the slot when 0 <= idx < MAX_PARAM_NUM, no result otherwise. */
  function GetSlot<T>(slots: seq<T>, idx: int): (r: Option<T>)
    requires |slots| == MAX_PARAM_NUM
    ensures r.Some? <==> 0 <= idx < MAX_PARAM_NUM
  {
    if idx < 0 || idx >= MAX_PARAM_NUM then None else Some(slots[idx])
  }

  /** Reading a slot after writing it gives the value written; other slots are untouched. */
  lemma GetAfterSetSlot<T>(slots: seq<T>, idx: int, j: int, v: T)
    requires |slots| == MAX_PARAM_NUM
    ensures GetSlot(SetSlot(slots, idx, v), j) == if j == idx && 0 <= idx < MAX_PARAM_NUM then Some(v) else GetSlot(slots, j)
  {
  }

  class Batch {
    /** m_mutex */
    const mutex: MyMutex
    /** m_batch, the commit log, replayed verbatim by Write. */
    var log: seq<Op>
    /** m_dels */
    var dels: set<Bytes>
    /** m_upds */
    var upds: map<Bytes, Bytes>
    /** m_int_param */
    const intParams: array<int32>
    /** m_str_param */
    const strParams: array<Bytes>
    /** m_db: not owned; null when the batch was made from a closed database handle. */
    const db: Db?

    ghost predicate Valid()
      reads this
    {
      && Mirrors(log, dels, upds)
      && intParams.Length == MAX_PARAM_NUM
      && strParams.Length == MAX_PARAM_NUM
    }

    /** Batch::Batch: take one registry reference on the database and zero the integer slots. */
    constructor(db: Db?, reg: Registry)
      requires reg.Valid()
      modifies reg
      ensures Valid() && this.db == db
      ensures fresh(mutex) && fresh(intParams) && fresh(strParams)
      ensures log == [] && dels == {} && upds == map[]
      ensures !mutex.needMutex && mutex.holds == 0
      ensures intParams[..] == [0, 0, 0, 0] && strParams[..] == [[], [], [], []]
      ensures reg.Valid() && reg.destroyed == old(reg.destroyed)
      ensures db == null ==> reg.table == old(reg.table)
      ensures SameResources(old(reg.table), reg.table)
      ensures db != null && Injective(old(reg.table)) ==> reg.State() == Perform(old(reg.State()), Call.Ref(db))
    {
      this.db := db;
      mutex := new MyMutex();
      log, dels, upds := [], {}, map[];
      var ints := new int32[MAX_PARAM_NUM];
      for i := 0 to MAX_PARAM_NUM
        invariant forall j :: 0 <= j < i ==> ints[j] == 0
        modifies ints
      {
        ints[i] := 0;
      }
      assert ints[..] == [0, 0, 0, 0];
      var strs := new Bytes[MAX_PARAM_NUM](_ => []);
      assert strs[..] == [[], [], [], []];
      intParams, strParams := ints, strs;
      new;
      MirrorsEmpty();
      if db != null {
        ghost var hit := reg.Ref(db);
      }
    }

    /**
     * Batch::Put: log the stored bytes, un-delete the key and overwrite its
     * pending value; answer the stored length. A failed compression raises
     * before anything changes.
     */
    method Put(key: Bytes, val: Bytes, compress: bool, deflate: Codec) returns (r: Result<nat>)
      requires Valid()
      modifies this, mutex
      ensures Valid()
      ensures mutex.needMutex == old(mutex.needMutex) && mutex.holds == old(mutex.holds)
      ensures Stored(val, compress, deflate).None? ==>
                r == Err(CompressFailed) && log == old(log) && dels == old(dels) && upds == old(upds)
      ensures Stored(val, compress, deflate).Some? ==>
                var s := Stored(val, compress, deflate).value;
                && r == Ok(|s|)
                && log == old(log) + [Op.Put(key, s)]
                && dels == old(dels) - {key}
                && upds == old(upds)[key := s]
    {
      mutex.Lock();
      var stored := Stored(val, compress, deflate);
      if stored.None? {
        r := Err(CompressFailed);
        mutex.Unlock();
        return;
      }
      var s := stored.value;
      MirrorsPut(log, dels, upds, key, s);
      log := log + [Op.Put(key, s)];
      r := Ok(|s|);
      if key in dels {
        dels := dels - {key};
      }
      upds := upds[key := s];
      mutex.Unlock();
    }

    /** Batch::Delete: log a delete and mark the key deleted; the pending value stays in `upds`. */
    method Delete(key: Bytes)
      requires Valid()
      modifies this, mutex
      ensures Valid()
      ensures mutex.needMutex == old(mutex.needMutex) && mutex.holds == old(mutex.holds)
      ensures log == old(log) + [Op.Del(key)] && dels == old(dels) + {key} && upds == old(upds)
    {
      mutex.Lock();
      MirrorsDel(log, dels, upds, key);
      log := log + [Op.Del(key)];
      if key !in dels {
        dels := dels + {key};
      }
      mutex.Unlock();
    }

    /** Batch::Clear: empty the log and the overlay; slots and database stay. */
    method Clear()
      requires Valid()
      modifies this, mutex
      ensures Valid()
      ensures mutex.needMutex == old(mutex.needMutex) && mutex.holds == old(mutex.holds)
      ensures log == [] && dels == {} && upds == map[]
    {
      mutex.Lock();
      log := [];
      dels := {};
      upds := map[];
      MirrorsEmpty();
      mutex.Unlock();
    }

    /**
     * Batch::Get: not found for a deleted key, else the pending value, else
     * the database's; which is what the database would hold once the log is
     * replayed into it.
     */
    method Get(key: Bytes, uncompress: bool, inflate: Codec) returns (r: Option<Bytes>)
      requires Valid()
      requires db != null || key in dels || key in upds
      modifies mutex
      ensures mutex.needMutex == old(mutex.needMutex) && mutex.holds == old(mutex.holds)
      ensures key in dels ==> r == None
      ensures key !in dels && key in upds ==> r == Decoded(Some(upds[key]), uncompress, inflate)
      ensures db != null && key !in dels && key !in upds ==> r == Decoded(db.Get(key), uncompress, inflate)
      ensures db != null ==> r == Decoded(Lookup(Replay(db.data, log), key), uncompress, inflate)
    {
      mutex.Lock();
      var found: Option<Bytes>;
      if key in dels {
        found := None;
      } else if key in upds {
        found := Some(upds[key]);
      } else {
        found := db.Get(key);
      }
      r := Decoded(found, uncompress, inflate);
      mutex.Unlock();
      if db != null {
        OverlayAgreesWithReplay(db.data, log, dels, upds, key);
      }
    }

    /**
     * Batch::Write: replay the log into `target` (the database passed in, not
     * necessarily m_db) in one DB::Write, ignore its status, and clear, taking
     * the lock a second time inside Clear.
     */
    method Write(target: Db, fails: bool)
      requires Valid()
      modifies this, mutex, target
      ensures Valid()
      ensures mutex.needMutex == old(mutex.needMutex) && mutex.holds == old(mutex.holds)
      ensures target.data == if fails then old(target.data) else Replay(old(target.data), old(log))
      ensures log == [] && dels == {} && upds == map[]
    {
      mutex.Lock();
      var ok := target.Write(log, fails);
      Clear();
      mutex.Unlock();
    }

    method GetIntParam(idx: int32) returns (r: Option<int32>)
      requires Valid()
      modifies mutex
      ensures mutex.needMutex == old(mutex.needMutex) && mutex.holds == old(mutex.holds)
      ensures r == GetSlot(intParams[..], idx as int)
    {
      mutex.Lock();
      if idx < 0 || idx as int >= MAX_PARAM_NUM {
        r := None;
      } else {
        r := Some(intParams[idx]);
      }
      mutex.Unlock();
    }

    method GetStringParam(idx: int32) returns (r: Option<Bytes>)
      requires Valid()
      modifies mutex
      ensures mutex.needMutex == old(mutex.needMutex) && mutex.holds == old(mutex.holds)
      ensures r == GetSlot(strParams[..], idx as int)
    {
      mutex.Lock();
      if idx < 0 || idx as int >= MAX_PARAM_NUM {
        r := None;
      } else {
        r := Some(strParams[idx]);
      }
      mutex.Unlock();
    }

    /** Batch::SetIntParam with the intended guard; the 64-bit value is narrowed to the `int` slot. */
    method SetIntParam(idx: int32, value: int64)
      requires Valid()
      modifies intParams, mutex
      ensures mutex.needMutex == old(mutex.needMutex) && mutex.holds == old(mutex.holds)
      ensures intParams[..] == SetSlot(old(intParams[..]), idx as int, ToInt32(value))
    {
      mutex.Lock();
      if 0 <= idx && idx as int < MAX_PARAM_NUM {
        intParams[idx] := ToInt32(value);
      }
      mutex.Unlock();
    }

    /** Batch::SetStringParam with the intended guard. */
    method SetStringParam(idx: int32, value: Bytes)
      requires Valid()
      modifies strParams, mutex
      ensures mutex.needMutex == old(mutex.needMutex) && mutex.holds == old(mutex.holds)
      ensures strParams[..] == SetSlot(old(strParams[..]), idx as int, value)
    {
      mutex.Lock();
      if 0 <= idx && idx as int < MAX_PARAM_NUM {
        strParams[idx] := value;
      }
      mutex.Unlock();
    }

    /**
     * Batch::~Batch: drop the reference the constructor took; the database
     * is deleted when that was the last one (or when it was never registered).
     */
    method Finalize(reg: Registry)
      requires reg.Valid()
      modifies reg
      ensures reg.Valid()
      ensures db == null ==> reg.table == old(reg.table) && reg.destroyed == old(reg.destroyed)
      ensures db != null ==> reg.destroyed == old(reg.destroyed) || reg.destroyed == old(reg.destroyed) + multiset{db}
      ensures db != null && Injective(old(reg.table)) ==> reg.State() == Perform(old(reg.State()), Call.Unregister(db))
    {
      if db != null {
        var destroy, hit := reg.Unregister(db);
      }
    }
  }

  /** The Lua userdata of a batch: a Batch pointer that close sets to null. */
  class BatchHandle {
    var batch: Batch?

    constructor(b: Batch)
      ensures batch == b
    {
      batch := b;
    }
  }

  /**
   * The registry after releasing batch `b` with ~Batch as the destroy
   * callback: when the release destroys the batch, ~Batch releases the
   * batch's database in turn.
   */
  ghost function ReleaseBatchEffect(s: RegState, b: Batch): RegState
  {
    var s1 := Perform(s, Call.Unregister(b));
    if LastReference(s.table, b) && b.db != null then Perform(s1, Call.Unregister(b.db)) else s1
  }

  /** The batch is destroyed, once, exactly when the release was its last reference. */
  lemma ReleaseBatchDestroysOnLastReference(s: RegState, b: Batch)
    ensures ReleaseBatchEffect(s, b).destroyed[b] == s.destroyed[b] + (if LastReference(s.table, b) then 1 else 0)
  {
  }

  /**
   * l_unregister_db on a batch with ~Batch as the callback, shared by close
   * and __gc. The callback runs once the registry's lock is released, which
   * is what lets ~Batch call into the registry again.
   */
  method ReleaseBatch(b: Batch, reg: Registry)
    requires reg.Valid()
    modifies reg
    ensures reg.Valid()
    ensures Injective(old(reg.table)) ==> reg.State() == ReleaseBatchEffect(old(reg.State()), b)
    ensures Injective(old(reg.table)) ==> Injective(reg.table)
  {
    var destroy, hit := reg.Unregister(b);
    if hit.Some? && Injective(old(reg.table)) {
      NameOfUnique(old(reg.table), hit.value, b);
    }
    if Injective(old(reg.table)) {
      ReleaseKeepsInjective(old(reg.State()), b);
    }
    if destroy {
      ghost var mid := reg.State();
      b.Finalize(reg);
      if Injective(old(reg.table)) && b.db != null {
        ReleaseKeepsInjective(mid, b.db);
      }
    }
  }

  /**
   * lvldb_batch_close: release the handle's batch and null the handle, so
   * closing twice is a no-op.
   */
  method BatchClose(h: BatchHandle, reg: Registry)
    requires reg.Valid()
    modifies h, reg
    ensures reg.Valid() && h.batch == null
    ensures old(h.batch) == null ==> reg.table == old(reg.table) && reg.destroyed == old(reg.destroyed)
    ensures old(h.batch) != null && Injective(old(reg.table)) ==>
              reg.State() == ReleaseBatchEffect(old(reg.State()), old(h.batch))
    ensures Injective(old(reg.table)) ==> Injective(reg.table)
  {
    if h.batch != null {
      ReleaseBatch(h.batch, reg);
      h.batch := null;
    }
  }

  /** lvdb_batch_gc: as close, but the handle is not nulled. */
  method BatchGc(h: BatchHandle, reg: Registry)
    requires reg.Valid()
    modifies reg
    ensures reg.Valid()
    ensures h.batch == null ==> reg.table == old(reg.table) && reg.destroyed == old(reg.destroyed)
    ensures h.batch != null && Injective(old(reg.table)) ==>
              reg.State() == ReleaseBatchEffect(old(reg.State()), h.batch)
    ensures Injective(old(reg.table)) ==> Injective(reg.table)
  {
    if h.batch != null {
      ReleaseBatch(h.batch, reg);
    }
  }

  /** A raw batch: a leveldb::WriteBatch the caller fills and writes, with no overlay and no reads. */
  class RawBatch {
    var log: seq<Op>

    /** lvldb_raw_batch */
    constructor()
      ensures log == []
    {
      log := [];
    }

    /** lvldb_raw_batch_put */
    method Put(key: Bytes, val: Bytes, compress: bool, deflate: Codec) returns (r: Result<nat>)
      modifies this
      ensures Stored(val, compress, deflate).None? ==> r == Err(CompressFailed) && log == old(log)
      ensures Stored(val, compress, deflate).Some? ==>
                r == Ok(|Stored(val, compress, deflate).value|)
                && log == old(log) + [Op.Put(key, Stored(val, compress, deflate).value)]
    {
      var stored := Stored(val, compress, deflate);
      if stored.None? {
        r := Err(CompressFailed);
        return;
      }
      log := log + [Op.Put(key, stored.value)];
      r := Ok(|stored.value|);
    }

    /** lvldb_raw_batch_del */
    method Delete(key: Bytes)
      modifies this
      ensures log == old(log) + [Op.Del(key)]
    {
      log := log + [Op.Del(key)];
    }

    /** lvldb_raw_batch_clear */
    method Clear()
      modifies this
      ensures log == []
    {
      log := [];
    }
  }
}
