/**
 * The LevelDB engine as the batches see it: a map from keys to values, and
 * leveldb::WriteBatch as an ordered log of put and delete records that
 * DB::Write applies in order.
 */
module LevelDb {
  import opened Common

  /** One record of a leveldb::WriteBatch. */
  datatype Op = Put(key: Bytes, val: Bytes) | Del(key: Bytes)

  /** The contents of a database. */
  type Data = map<Bytes, Bytes>

  function Apply(d: Data, op: Op): Data
  {
    match op
    case Put(k, v) => d[k := v]
    case Del(k) => d - {k}
  }

  /** The database after DB::Write applies every record of `log`, first to last. */
  function Replay(d: Data, log: seq<Op>): Data
  {
    if log == [] then d else Apply(Replay(d, log[..|log| - 1]), log[|log| - 1])
  }

  /** The last record of `log` on key `k`, if there is one. */
  function LastOn(log: seq<Op>, k: Bytes): (r: Option<Op>)
    ensures r.Some? ==> r.value.key == k && r.value in log
    ensures r.None? ==> forall i :: 0 <= i < |log| ==> log[i].key != k
  {
    if log == [] then None
    else if log[|log| - 1].key == k then Some(log[|log| - 1])
    else LastOn(log[..|log| - 1], k)
  }

  /** The value of the last Put record on `k`, whether or not a Del came after it. */
  function LastPut(log: seq<Op>, k: Bytes): (r: Option<Bytes>)
    ensures r.Some? ==> Put(k, r.value) in log
    ensures r.None? ==> forall i :: 0 <= i < |log| ==> !(log[i].Put? && log[i].key == k)
  {
    if log == [] then None
    else if log[|log| - 1].Put? && log[|log| - 1].key == k then Some(log[|log| - 1].val)
    else LastPut(log[..|log| - 1], k)
  }

  /** What the last record on a key leaves there, over what the database held before. */
  function Outcome(before: Option<Bytes>, last: Option<Op>): Option<Bytes>
  {
    match last
    case None => before
    case Some(Put(_, v)) => Some(v)
    case Some(Del(_)) => None
  }

  /** Replaying a log leaves each key as its last record says; untouched keys keep their value. */
  lemma {:induction false} ReplayLookup(d: Data, log: seq<Op>, k: Bytes)
    ensures Lookup(Replay(d, log), k) == Outcome(Lookup(d, k), LastOn(log, k))
  {
    if log != [] {
      ReplayLookup(d, log[..|log| - 1], k);
    }
  }

  /** Replaying two logs one after the other is replaying their concatenation. */
  lemma {:induction false} ReplayConcat(d: Data, a: seq<Op>, b: seq<Op>)
    ensures Replay(d, a + b) == Replay(Replay(d, a), b)
  {
    if b == [] {
      assert a + b == a;
    } else {
      ReplayConcat(d, a, b[..|b| - 1]);
      assert (a + b)[..|a + b| - 1] == a + b[..|b| - 1];
    }
  }

  /** Records on other keys appended after `a` do not change the last record on `k`. */
  lemma {:induction false} LastOnIgnoresOtherKeys(a: seq<Op>, b: seq<Op>, k: Bytes)
    requires forall i :: 0 <= i < |b| ==> b[i].key != k
    ensures LastOn(a + b, k) == LastOn(a, k)
    ensures LastPut(a + b, k) == LastPut(a, k)
  {
    if b == [] {
      assert a + b == a;
    } else {
      LastOnIgnoresOtherKeys(a, b[..|b| - 1], k);
      assert (a + b)[..|a + b| - 1] == a + b[..|b| - 1];
    }
  }

  /**
   * Last writer wins: after a record on `k`, any records on other keys, the
   * replayed database holds at `k` what that record says, whatever came before.
   */
  lemma LastRecordDecides(d: Data, log: seq<Op>, op: Op, rest: seq<Op>)
    requires forall i :: 0 <= i < |rest| ==> rest[i].key != op.key
    ensures Lookup(Replay(d, log + [op] + rest), op.key) == Outcome(None, Some(op))
  {
    var k := op.key;
    LastOnIgnoresOtherKeys(log + [op], rest, k);
    assert (log + [op])[..|log + [op]| - 1] == log;
    ReplayLookup(d, log + [op] + rest, k);
  }

  /** The database, as far as the batches use it: DB::Get and DB::Write. */
  class Db {
    var data: Data

    constructor()
      ensures data == map[]
    {
      data := map[];
    }

    /** DB::Get with default ReadOptions; any non-ok status reads as not found. */
    function Get(k: Bytes): Option<Bytes>
      reads this
    {
      Lookup(data, k)
    }

    /**
     * DB::Write of a whole batch: all of `log` or, when the engine reports a
     * failure (`fails`, decided outside this model), nothing.
     */
    method Write(log: seq<Op>, fails: bool) returns (ok: bool)
      modifies this
      ensures ok == !fails
      ensures data == if fails then old(data) else Replay(old(data), log)
    {
      ok := !fails;
      if ok {
        data := Replay(data, log);
      }
    }
  }
}
