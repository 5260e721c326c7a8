/**
 * g_register_dbs: the process-wide table from a name (a database path or a
 * batch name, in one namespace) to a shared resource and its reference
 * count, with the four calls that maintain it.
 */
module SharedHandles {
  import opened Common

  /** DbRef: a registered resource (any object: a database or a batch) and its count. */
  datatype DbRef = DbRef(db: object, refCount: int)

  type Table = map<string, DbRef>

  ghost predicate Holds(t: Table, n: string, r: object)
  {
    n in t && t[n].db == r
  }

  ghost predicate Held(t: Table, r: object)
  {
    exists n :: Holds(t, n, r)
  }

  /** No resource is registered under two names. */
  ghost predicate Injective(t: Table)
  {
    forall n, m :: n in t && m in t && t[n].db == t[m].db ==> n == m
  }

  /** Every entry is held at least once. */
  ghost predicate Counted(t: Table)
  {
    forall n :: n in t ==> t[n].refCount >= 1
  }

  function Bumped(t: Table, n: string): Table
    requires n in t
  {
    t[n := DbRef(t[n].db, t[n].refCount + 1)]
  }

  /** Decrement the count of entry `n`, erasing the entry when it reaches zero. */
  function Dropped(t: Table, n: string): Table
    requires n in t
  {
    if t[n].refCount - 1 == 0 then t - {n} else t[n := DbRef(t[n].db, t[n].refCount - 1)]
  }

  /** l_register_db: a new name gets `r` with count 1; a known name keeps its resource and gains a count. */
  function Registered(t: Table, name: string, r: object): Table
  {
    if name in t then Bumped(t, name) else t[name := DbRef(r, 1)]
  }

  /** The name `r` is registered under, when there is one. */
  ghost function NameOf(t: Table, r: object): Option<string>
  {
    if Held(t, r) then Some(var n :| Holds(t, n, r); n) else None
  }

  /** Releasing `r` now destroys it: it holds its entry's last count, or no entry at all. */
  ghost predicate LastReference(t: Table, r: object)
  {
    match NameOf(t, r)
    case None => true
    case Some(n) => t[n].refCount == 1
  }

  /** The registry as the specification functions see it. */
  datatype RegState = RegState(table: Table, destroyed: multiset<object>)

  datatype Call = Register(name: string, res: object) | Ref(res: object) | Unregister(res: object)

  /**
   * One call on the registry: l_register_db, l_ref_db, or l_unregister_db
   * with a destroy callback, which runs (and is recorded in `destroyed`)
   * when the count reaches zero or when the resource was never registered.
   */
  ghost function Perform(s: RegState, c: Call): RegState
  {
    match c
    case Register(name, r) => RegState(Registered(s.table, name, r), s.destroyed)
    case Ref(r) =>
      (match NameOf(s.table, r)
       case None => s
       case Some(n) => RegState(Bumped(s.table, n), s.destroyed))
    case Unregister(r) =>
      (match NameOf(s.table, r)
       case None => RegState(s.table, s.destroyed + multiset{r})
       case Some(n) =>
         RegState(Dropped(s.table, n),
                  if s.table[n].refCount - 1 == 0 then s.destroyed + multiset{r} else s.destroyed))
  }

  ghost function RunCalls(s: RegState, calls: seq<Call>): RegState
  {
    if calls == [] then s else Perform(RunCalls(s, calls[..|calls| - 1]), calls[|calls| - 1])
  }

  /** References a call adds (+1) or drops (-1) for resource `r` under name `n`. */
  function Delta(c: Call): int
  {
    match c
    case Register(_, _) => 1
    case Ref(_) => 1
    case Unregister(_) => -1
  }

  function Net(calls: seq<Call>): int
  {
    if calls == [] then 0 else Net(calls[..|calls| - 1]) + Delta(calls[|calls| - 1])
  }

  /** Every call of `calls` is about name `n` and resource `r`. */
  ghost predicate OnlyAbout(calls: seq<Call>, n: string, r: object)
  {
    forall i :: 0 <= i < |calls| ==> calls[i] in {Register(n, r), Ref(r), Unregister(r)}
  }

  /** With one name per resource, the name found for `r` is the one it is registered under. */
  lemma NameOfUnique(t: Table, n: string, r: object)
    requires Injective(t) && Holds(t, n, r)
    ensures NameOf(t, r) == Some(n)
  {
  }

  /**
   * Exactly-once destruction. Register a fresh resource under a fresh name,
   * then register, reference and release it so that the count stays
   * positive until the last call: while the count is positive the entry
   * holds it and nothing is destroyed; when it reaches zero the entry is
   * gone and the resource has been destroyed exactly once.
   */
  lemma {:induction false} BalancedUseDestroysOnce(s: RegState, n: string, r: object, calls: seq<Call>)
    requires Injective(s.table) && n !in s.table && !Held(s.table, r)
    requires |calls| > 0 && calls[0] == Register(n, r) && OnlyAbout(calls, n, r)
    requires forall i :: 0 < i < |calls| ==> Net(calls[..i]) > 0
    ensures Net(calls) >= 0
    ensures Net(calls) > 0 ==> RunCalls(s, calls) == RegState(s.table[n := DbRef(r, Net(calls))], s.destroyed)
    ensures Net(calls) == 0 ==> RunCalls(s, calls) == RegState(s.table, s.destroyed + multiset{r})
  {
    var init := calls[..|calls| - 1];
    var last := calls[|calls| - 1];
    assert last in {Register(n, r), Ref(r), Unregister(r)};
    if |calls| == 1 {
      assert init == [];
    } else {
      assert calls[..|init|] == init;
      forall i | 0 < i < |init| ensures Net(init[..i]) > 0 {
        assert init[..i] == calls[..i];
      }
      BalancedUseDestroysOnce(s, n, r, init);
      var t := s.table[n := DbRef(r, Net(init))];
      FreshEntryKeepsInjective(s.table, n, r, Net(init));
      NameOfUnique(t, n, r);
      if Net(init) - 1 == 0 && last == Unregister(r) {
        assert t - {n} == s.table;
      }
    }
  }

  /**
   * Two handles on one name: register a name twice and release
   * once, and the resource is still reachable and alive; release again and
   * it is destroyed exactly once.
   */
  lemma RegisterTwiceReleaseTwice(s: RegState, n: string, r: object)
    requires Injective(s.table) && n !in s.table && !Held(s.table, r)
    ensures RunCalls(s, [Register(n, r), Register(n, r), Unregister(r)])
            == RegState(s.table[n := DbRef(r, 1)], s.destroyed)
    ensures RunCalls(s, [Register(n, r), Register(n, r), Unregister(r), Unregister(r)])
            == RegState(s.table, s.destroyed + multiset{r})
  {
    var calls := [Register(n, r), Register(n, r), Unregister(r), Unregister(r)];
    assert calls[..1] == [Register(n, r)];
    assert calls[..2] == [Register(n, r), Register(n, r)];
    assert calls[..3] == [Register(n, r), Register(n, r), Unregister(r)];
    assert calls[..3][..1] == calls[..1] && calls[..3][..2] == calls[..2];
    assert calls[..1][..0] == [] && calls[..2][..1] == calls[..1] && calls[..3][..2] == calls[..2];
    assert Net(calls[..1]) == 1 && Net(calls[..2]) == 2 && Net(calls[..3]) == 1;
    BalancedUseDestroysOnce(s, n, r, calls[..3]);
    BalancedUseDestroysOnce(s, n, r, calls);
  }

  /**
   * One release too many destroys the resource a second time: nothing in the
   * registry guards against it, which is why closing a handle nulls it.
   */
  lemma ExtraReleaseDestroysAgain(s: RegState, r: object)
    requires !Held(s.table, r)
    ensures Perform(s, Unregister(r)) == RegState(s.table, s.destroyed + multiset{r})
  {
  }

  /** A new entry for a resource no entry holds keeps one name per resource. */
  lemma FreshEntryKeepsInjective(t: Table, n: string, r: object, count: int)
    requires Injective(t) && !Held(t, r)
    ensures Injective(t[n := DbRef(r, count)])
  {
    forall a | a in t
      ensures t[a].db != r
    {
      assert !Holds(t, a, r);
    }
  }

  /** The same names, each still holding the same resource; only counts may differ. */
  ghost predicate SameResources(t: Table, t': Table)
  {
    t'.Keys == t.Keys && forall n :: n in t ==> t'[n].db == t[n].db
  }

  /** Changing counts only keeps one name per resource and keeps who is registered. */
  lemma SameResourcesKeepHeld(t: Table, t': Table, r: object)
    requires SameResources(t, t')
    ensures Injective(t) ==> Injective(t')
    ensures Held(t', r) <==> Held(t, r)
  {
    if Held(t', r) {
      var n :| Holds(t', n, r);
      assert Holds(t, n, r);
    }
    if Held(t, r) {
      var n :| Holds(t, n, r);
      assert Holds(t', n, r);
    }
  }

  /** Releasing keeps one name per resource: it only lowers a count or erases an entry. */
  lemma ReleaseKeepsInjective(s: RegState, r: object)
    requires Injective(s.table)
    ensures Injective(Perform(s, Unregister(r)).table)
  {
  }

  /** The registry preserves one name per resource as long as a new name brings an unregistered resource. */
  lemma RegisteredKeepsInjective(t: Table, name: string, r: object)
    requires Injective(t)
    requires name in t || !Held(t, r)
    ensures Injective(Registered(t, name, r))
  {
    if name !in t {
      FreshEntryKeepsInjective(t, name, r, 1);
    }
  }

  class Registry {
    /** g_register_dbs */
    var table: Table
    /** Whether g_mutex is held by the call in progress. */
    var guarded: bool
    /** Every resource handed to a destroy callback, with multiplicity. */
    ghost var destroyed: multiset<object>

    ghost predicate Valid()
      reads this
    {
      Counted(table) && !guarded
    }

    ghost function State(): RegState
      reads this
    {
      RegState(table, destroyed)
    }

    constructor()
      ensures Valid() && table == map[] && destroyed == multiset{}
    {
      table := map[];
      guarded := false;
      destroyed := multiset{};
    }

    /** l_get_db: the resource registered under `name`, or null; no count changes. */
    method Get(name: string) returns (r: Option<object>)
      requires Valid()
      modifies this
      ensures Valid() && table == old(table) && destroyed == old(destroyed)
      ensures r.Some? <==> name in table
      ensures r.Some? ==> Holds(table, name, r.value)
    {
      guarded := true;
      if name in table {
        r := Some(table[name].db);
      } else {
        r := None;
      }
      guarded := false;
    }

    /** l_ref_db: add a count to the entry that holds `r`, found by scanning; nothing when none does. */
    method Ref(r: object) returns (ghost hit: Option<string>)
      requires Valid()
      modifies this
      ensures Valid() && destroyed == old(destroyed)
      ensures hit.None? ==> !Held(old(table), r) && table == old(table)
      ensures hit.Some? ==> Holds(old(table), hit.value, r) && table == Bumped(old(table), hit.value)
      ensures SameResources(old(table), table)
      ensures Injective(old(table)) ==> State() == Perform(old(State()), Call.Ref(r))
    {
      guarded := true;
      hit := None;
      var names := table.Keys;
      while names != {}
        invariant table == old(table) && names <= table.Keys && guarded
        invariant forall n :: n in table && n !in names ==> table[n].db != r
        decreases names
      {
        var n :| n in names;
        if table[n].db == r {
          hit := Some(n);
          table := Bumped(table, n);
          break;
        }
        names := names - {n};
      }
      guarded := false;
      if hit.Some? && Injective(old(table)) {
        NameOfUnique(old(table), hit.value, r);
      }
    }

    /** l_register_db */
    method Register(name: string, r: object)
      requires Valid()
      modifies this
      ensures Valid() && destroyed == old(destroyed)
      ensures table == Registered(old(table), name, r)
      ensures State() == Perform(old(State()), Call.Register(name, r))
    {
      guarded := true;
      if name in table {
        table := Bumped(table, name);
      } else {
        table := table[name := DbRef(r, 1)];
      }
      guarded := false;
    }

    /**
     * l_unregister_db: drop a count from the entry that holds `r`, erasing
     * it at zero. `destroy` says whether the caller's destroy callback runs
     * on `r`: when the count reached zero, or when no entry held `r`. The
     * callback runs after g_mutex is released, so it may call back into the
     * registry.
     */
    method Unregister(r: object) returns (destroy: bool, ghost hit: Option<string>)
      requires Valid()
      modifies this
      ensures Valid()
      ensures hit.None? ==> !Held(old(table), r) && table == old(table) && destroy
      ensures hit.Some? ==> Holds(old(table), hit.value, r) && table == Dropped(old(table), hit.value)
                            && destroy == (old(table)[hit.value].refCount == 1)
      ensures destroyed == if destroy then old(destroyed) + multiset{r} else old(destroyed)
      ensures Injective(old(table)) ==> State() == Perform(old(State()), Call.Unregister(r))
    {
      guarded := true;
      hit := None;
      destroy := true;
      var names := table.Keys;
      while names != {}
        invariant table == old(table) && names <= table.Keys && guarded && destroy
        invariant forall n :: n in table && n !in names ==> table[n].db != r
        decreases names
      {
        var n :| n in names;
        if table[n].db == r {
          hit := Some(n);
          destroy := table[n].refCount - 1 == 0;
          table := Dropped(table, n);
          break;
        }
        names := names - {n};
      }
      guarded := false;
      if destroy {
        destroyed := destroyed + multiset{r};
      }
      if hit.Some? && Injective(old(table)) {
        NameOfUnique(old(table), hit.value, r);
      }
    }
  }
}
