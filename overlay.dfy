/**
 * The read side of a Batch: its delete-set and update-map, how Batch::Get
 * resolves a key through them, and the invariant that ties them to the log.
 *
 * Batch::Delete never removes the key from the update-map, so a key can sit
 * in both; the delete-set wins.
 */
module Overlay {
  import opened Common
  import opened LevelDb

  /**
   * The invariant Batch keeps: a key is in `dels` exactly when its last
   * record is a delete, and `upds` holds, for every key that was ever put,
   * the value of its last put (even when a delete came after it).
   */
  ghost predicate Mirrors(log: seq<Op>, dels: set<Bytes>, upds: map<Bytes, Bytes>)
  {
    && (forall k :: k in dels <==> LastOn(log, k).Some? && LastOn(log, k).value.Del?)
    && (forall k :: Lookup(upds, k) == LastPut(log, k))
  }

  /** Batch::Get's resolution order: deleted keys, then pending values, then the database. */
  function OverlayGet(d: Data, dels: set<Bytes>, upds: map<Bytes, Bytes>, k: Bytes): Option<Bytes>
  {
    if k in dels then None
    else if k in upds then Some(upds[k])
    else Lookup(d, k)
  }

  lemma MirrorsEmpty()
    ensures Mirrors([], {}, map[])
  {
  }

  /** Batch::Put keeps the invariant: log one put, un-delete the key, overwrite its pending value. */
  lemma MirrorsPut(log: seq<Op>, dels: set<Bytes>, upds: map<Bytes, Bytes>, k: Bytes, v: Bytes)
    requires Mirrors(log, dels, upds)
    ensures Mirrors(log + [Put(k, v)], dels - {k}, upds[k := v])
  {
    var log' := log + [Put(k, v)];
    assert log'[..|log'| - 1] == log;
    forall j ensures Lookup(upds[k := v], j) == LastPut(log', j) {
      if j != k {
        assert Lookup(upds[k := v], j) == Lookup(upds, j);
      }
    }
  }

  /** Batch::Delete keeps the invariant: log one delete, mark the key, leave `upds` alone. */
  lemma MirrorsDel(log: seq<Op>, dels: set<Bytes>, upds: map<Bytes, Bytes>, k: Bytes)
    requires Mirrors(log, dels, upds)
    ensures Mirrors(log + [Del(k)], dels + {k}, upds)
  {
  }

  /** When the last record on a key is a put, it is also the last put on that key. */
  lemma {:induction false} LastOnPutIsLastPut(log: seq<Op>, k: Bytes)
    ensures LastOn(log, k).Some? && LastOn(log, k).value.Put? ==> LastPut(log, k) == Some(LastOn(log, k).value.val)
    ensures LastOn(log, k).None? ==> LastPut(log, k).None?
  {
    if log != [] && log[|log| - 1].key != k {
      LastOnPutIsLastPut(log[..|log| - 1], k);
    }
  }

  /**
   * Read-your-own-writes: resolving a key through the overlay gives what the
   * database would hold after the log is replayed into it.
   */
  lemma OverlayAgreesWithReplay(d: Data, log: seq<Op>, dels: set<Bytes>, upds: map<Bytes, Bytes>, k: Bytes)
    requires Mirrors(log, dels, upds)
    ensures OverlayGet(d, dels, upds, k) == Lookup(Replay(d, log), k)
  {
    ReplayLookup(d, log, k);
    LastOnPutIsLastPut(log, k);
  }

  /**
   * A delete hides the key even though its earlier pending value stays in
   * the update-map.
   */
  lemma DeleteHidesPendingValue(d: Data, log: seq<Op>, dels: set<Bytes>, upds: map<Bytes, Bytes>, k: Bytes)
    requires Mirrors(log, dels, upds)
    ensures Mirrors(log + [Del(k)], dels + {k}, upds)
    ensures OverlayGet(d, dels + {k}, upds, k) == None
    ensures Lookup(upds, k) == LastPut(log + [Del(k)], k)
  {
  }
}
