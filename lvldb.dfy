/**
 * The registry's callers in lua-leveldb.cc: opening and closing a database
 * handle, and making a batch, possibly shared by name. Database paths and
 * batch names are keys of the same table.
 */
module LuaLevelDb {
  import opened Common
  import opened LevelDb
  import opened SharedHandles
  import opened Batches

  /** The Lua userdata of a database: a DB pointer that close sets to null. */
  class DbHandle {
    var db: Db?

    constructor(d: Db)
      ensures db == d
    {
      db := d;
    }
  }

  /**
   * lvldb_open: reuse the database registered under `path` and add a count,
   * or open a new one (DB::Open succeeding exactly when `openOk`) and
   * register it with count 1.
   */
  method Open(reg: Registry, path: string, openOk: bool) returns (r: Result<DbHandle>)
    requires reg.Valid()
    modifies reg
    ensures reg.Valid() && reg.destroyed == old(reg.destroyed)
    ensures Injective(old(reg.table)) ==> Injective(reg.table)
    ensures path in old(reg.table) && old(reg.table)[path].db is Db ==>
              r.Ok? && r.value.db == old(reg.table)[path].db && reg.table == Bumped(old(reg.table), path)
    ensures path in old(reg.table) && !(old(reg.table)[path].db is Db) ==>
              r == Err(NameHeldByBatch) && reg.table == old(reg.table)
    ensures path !in old(reg.table) && !openOk ==> r == Err(OpenFailed) && reg.table == old(reg.table)
    ensures path !in old(reg.table) && openOk ==>
              r.Ok? && r.value.db != null && fresh(r.value.db)
              && reg.table == old(reg.table)[path := DbRef(r.value.db, 1)]
    ensures r.Ok? ==> fresh(r.value)
  {
    var found := reg.Get(path);
    var db: Db;
    if found.Some? {
      if !(found.value is Db) {
        return Err(NameHeldByBatch);
      }
      db := found.value as Db;
    } else {
      if !openOk {
        return Err(OpenFailed);
      }
      db := new Db();
      assert !Held(reg.table, db);
    }
    if Injective(reg.table) {
      RegisteredKeepsInjective(reg.table, path, db);
    }
    reg.Register(path, db);
    var h := new DbHandle(db);
    r := Ok(h);
  }

  /**
   * lvldb_close (also the database's __gc): release the handle's reference
   * and null it, so a second close does nothing.
   */
  method Close(reg: Registry, h: DbHandle)
    requires reg.Valid()
    modifies reg, h
    ensures reg.Valid() && h.db == null
    ensures old(h.db) == null ==> reg.table == old(reg.table) && reg.destroyed == old(reg.destroyed)
    ensures old(h.db) != null && Injective(old(reg.table)) ==>
              reg.State() == Perform(old(reg.State()), Call.Unregister(old(h.db)))
  {
    if h.db != null {
      var destroy, hit := reg.Unregister(h.db);
      h.db := null;
    }
  }

  /**
   * lvldb_batch: with a name, share the batch registered under it; otherwise
   * make a new batch on the handle's database (which takes a reference on
   * it). A non-empty name is then registered, adding a count; an unnamed
   * batch (or one named "") is never registered.
   */
  method NewBatch(reg: Registry, dbh: DbHandle, name: Option<string>) returns (r: Result<BatchHandle>)
    requires reg.Valid()
    modifies reg
    ensures reg.Valid() && reg.destroyed == old(reg.destroyed)
    ensures Injective(old(reg.table)) ==> Injective(reg.table)
    ensures name.Some? && name.value in old(reg.table) && old(reg.table)[name.value].db is Batch ==>
              r.Ok? && r.value.batch == old(reg.table)[name.value].db
              && reg.table == if name.value != "" then Bumped(old(reg.table), name.value) else old(reg.table)
    ensures name.Some? && name.value in old(reg.table) && !(old(reg.table)[name.value].db is Batch) ==>
              r == Err(NameHeldByDatabase) && reg.table == old(reg.table)
    ensures (name.None? || name.value !in old(reg.table)) ==>
              r.Ok? && r.value.batch != null && fresh(r.value.batch)
              && r.value.batch.db == dbh.db && r.value.batch.Valid()
              && fresh(r.value.batch.mutex) && !r.value.batch.mutex.needMutex && r.value.batch.mutex.holds == 0
              && r.value.batch.log == [] && r.value.batch.dels == {} && r.value.batch.upds == map[]
    ensures (name.None? || name.value !in old(reg.table)) && Injective(old(reg.table)) ==>
              var refd := if dbh.db == null then old(reg.table) else Perform(old(reg.State()), Call.Ref(dbh.db)).table;
              reg.table == if name.Some? && name.value != "" then refd[name.value := DbRef(r.value.batch, 1)] else refd
    ensures name.None? ==> !Held(reg.table, r.value.batch)
    ensures r.Ok? ==> fresh(r.value)
  {
    var found: Option<object> := None;
    if name.Some? {
      found := reg.Get(name.value);
    }
    var b: Batch;
    if found.Some? {
      if !(found.value is Batch) {
        return Err(NameHeldByDatabase);
      }
      b := found.value as Batch;
    } else {
      ghost var before := reg.table;
      b := new Batch(dbh.db, reg);
      assert !Held(before, b);
      SameResourcesKeepHeld(before, reg.table, b);
    }
    var h := new BatchHandle(b);
    if name.Some? && name.value != "" {
      if Injective(reg.table) {
        RegisteredKeepsInjective(reg.table, name.value, b);
      }
      reg.Register(name.value, b);
    }
    r := Ok(h);
  }
}
