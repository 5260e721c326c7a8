/**
 * Clients of the model: typical uses of batches and shared handles,
 * followed through the contracts alone.
 */
module Scenarios {
  import opened Common
  import opened LevelDb
  import opened SharedHandles
  import opened Batches
  import opened LuaLevelDb
  import opened Locking

  /** Put then get, and last writer wins. */
  method LastWriterWins(b: Batch, k: Bytes, v1: Bytes, v2: Bytes, inflate: Codec, deflate: Codec)
    requires b.Valid() && b.db != null
    modifies b, b.mutex
  {
    var before := b.db.data;
    var n := b.Put(k, v1, false, deflate);
    assert n == Ok(|v1|);
    var got := b.Get(k, false, inflate);
    assert got == Some(v1);
    n := b.Put(k, v2, false, deflate);
    got := b.Get(k, false, inflate);
    assert got == Some(v2);
  }

  /** A delete hides an earlier put, and a later put un-deletes the key. */
  method DeleteOverridesPut(b: Batch, k: Bytes, v1: Bytes, v3: Bytes, inflate: Codec, deflate: Codec)
    requires b.Valid() && b.db != null
    modifies b, b.mutex
  {
    var n := b.Put(k, v1, false, deflate);
    b.Delete(k);
    var got := b.Get(k, false, inflate);
    assert got == None;
    assert k in b.upds;
    n := b.Put(k, v3, false, deflate);
    got := b.Get(k, false, inflate);
    assert got == Some(v3) && k !in b.dels;
  }

  /** After a write the overlay is empty and reads fall through to the database. */
  method WriteThenRead(b: Batch, k: Bytes, v: Bytes, inflate: Codec, deflate: Codec)
    requires b.Valid() && b.db != null
    modifies b, b.mutex, b.db
  {
    var n := b.Put(k, v, false, deflate);
    b.Write(b.db, false);
    assert b.log == [] && b.dels == {} && b.upds == map[];
    var got := b.Get(k, false, inflate);
    assert got == Some(v);
  }

  /** Two handles on one batch name alias one batch: a put through one is read through the other. */
  method SharedByName(k: Bytes, v: Bytes, inflate: Codec, deflate: Codec)
  {
    var reg := new Registry();
    var o := Open(reg, "db", true);
    var dbh := o.value;
    var first := NewBatch(reg, dbh, Some("x"));
    var a := first.value;
    var second := NewBatch(reg, dbh, Some("x"));
    var b := second.value;
    assert a.batch == b.batch;
    var n := a.batch.Put(k, v, false, deflate);
    var got := b.batch.Get(k, false, inflate);
    assert got == Some(v);
  }

  /**
   * Two handles on a named batch hold two counts: closing one leaves the
   * batch alive and registered, closing the other destroys it once, and a
   * second close of a handle does nothing.
   */
  method CloseSharedBatch(reg: Registry, a: BatchHandle, b: BatchHandle, batch: Batch)
    requires reg.Valid() && Injective(reg.table)
    requires a.batch == batch && b.batch == batch && a != b
    requires "x" in reg.table && reg.table["x"] == DbRef(batch, 2) && reg.destroyed[batch] == 0
    modifies reg, a, b
  {
    NameOfUnique(reg.table, "x", batch);
    BatchClose(a, reg);
    assert Holds(reg.table, "x", batch) && reg.table["x"].refCount == 1;
    NameOfUnique(reg.table, "x", batch);
    assert reg.destroyed[batch] == 0;

    BatchClose(b, reg);
    assert reg.destroyed[batch] == 1;
    BatchClose(b, reg);
    assert reg.destroyed[batch] == 1;
  }

  /** Two handles made under one name hold the batch with count 2 (the setting of CloseSharedBatch). */
  method TwoHandlesCountTwo()
  {
    var reg := new Registry();
    var o := Open(reg, "db", true);
    var dbh := o.value;
    var first := NewBatch(reg, dbh, Some("x"));
    var a := first.value;
    var second := NewBatch(reg, dbh, Some("x"));
    var b := second.value;
    assert Injective(reg.table) && a.batch == b.batch;
    assert reg.table["x"] == DbRef(a.batch, 2);
  }

  /** An unnamed batch is never registered, so its first close destroys it. */
  method CloseUnnamedBatch()
  {
    var reg := new Registry();
    var o := Open(reg, "db", true);
    var dbh := o.value;
    var made := NewBatch(reg, dbh, None);
    var h := made.value;
    var batch: Batch := h.batch;
    BatchClose(h, reg);
    assert reg.destroyed[batch] == 1;
  }

  /** A batch made from a closed database handle holds no database but is still registered under its name. */
  method BatchOnClosedDatabase()
  {
    var reg := new Registry();
    var o := Open(reg, "db", true);
    var dbh := o.value;
    Close(reg, dbh);
    var made := NewBatch(reg, dbh, Some("x"));
    assert "x" in reg.table && reg.table["x"].refCount == 1;
    assert made.value.batch.db == null;
  }

  /** Opening a path that names a batch finds the batch: paths and batch names share one table. */
  method PathNamesBatch()
  {
    var reg := new Registry();
    var o := Open(reg, "db", true);
    var dbh := o.value;
    var made := NewBatch(reg, dbh, Some("data"));
    var again := Open(reg, "data", true);
    assert again == Err(NameHeldByBatch);
  }

  /** With the lock switched on, Write takes it again inside Clear and leaves it as it found it. */
  method NestedLockInWrite(k: Bytes, v: Bytes, deflate: Codec)
  {
    var reg := new Registry();
    var o := Open(reg, "db", true);
    var dbh := o.value;
    var made := NewBatch(reg, dbh, None);
    var b := made.value.batch;
    b.mutex.SetNeedLock(true);
    var n := b.Put(k, v, false, deflate);
    b.Write(dbh.db, false);
    assert b.mutex.needMutex && b.mutex.holds == 0;
    assert dbh.db.data[k] == v;
  }
}
