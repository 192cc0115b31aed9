/** The pools of pinned memory and the table of buffers registered for remote reading. */
module MemoryPool {
  import opened DataTypes
  import opened GreedyCut
  import opened Layout
  import opened Naming
  import opened PinMemory
  import opened Sequences
  import opened Transfer

  /** A pinned buffer: its address and size. */
  datatype MemoryBuffer = MemoryBuffer(buffer: nat, size: nat)

  type Pools = map<string, seq<MemoryBuffer>>

  type Table = map<string, nat>

  const SHARED := "__shared_memory_pool__"

  // ----- which table belongs to which pools

  predicate IsBuffer(pools: Pools, pool: string, idx: int)
  {
    pool in pools && 0 <= idx < |pools[pool]|
  }

  /** Entry `name` of the table is buffer `idx` of that pool. */
  predicate IsEntry(pools: Pools, name: string, buffer: nat, pool: string, idx: nat)
  {
    name == PoolName(pool, idx) && IsBuffer(pools, pool, idx) && buffer == pools[pool][idx].buffer
  }

  /** The table is exactly { memory_pool_<pool>_<idx> -> that buffer }. */
  ghost predicate Agrees(table: Table, pools: Pools)
  {
    && (forall pool, idx: nat :: IsBuffer(pools, pool, idx) ==>
          PoolName(pool, idx) in table && table[PoolName(pool, idx)] == pools[pool][idx].buffer)
    && (forall name :: name in table ==> exists pool, idx :: IsEntry(pools, name, table[name], pool, idx))
  }

  /** The entries of one pool. */
  function EntriesOf(pool: string, buffers: seq<MemoryBuffer>): Table
  {
    if buffers == [] then map[]
    else
      var n := |buffers| - 1;
      EntriesOf(pool, buffers[..n])[PoolName(pool, n) := buffers[n].buffer]
  }

  lemma {:induction false} EntriesAreBuffers(pool: string, buffers: seq<MemoryBuffer>)
    ensures var entries := EntriesOf(pool, buffers);
            && (forall name :: name in entries <==> exists idx: nat :: idx < |buffers| && name == PoolName(pool, idx))
            && (forall idx: nat :: idx < |buffers| ==>
                  PoolName(pool, idx) in entries && entries[PoolName(pool, idx)] == buffers[idx].buffer)
  {
    if buffers != [] {
      var n := |buffers| - 1;
      EntriesAreBuffers(pool, buffers[..n]);
      NamesDiffer(pool, n);
    }
  }

  lemma {:induction false} EntriesNext(pool: string, buffers: seq<MemoryBuffer>, n: nat)
    requires n < |buffers|
    ensures EntriesOf(pool, buffers[..n + 1]) == EntriesOf(pool, buffers[..n])[PoolName(pool, n) := buffers[n].buffer]
  {
    assert buffers[..n + 1][..n] == buffers[..n];
  }

  lemma {:induction false} NamesDiffer(pool: string, n: nat)
    ensures forall idx: nat :: idx != n ==> PoolName(pool, idx) != PoolName(pool, n)
  {
    forall idx: nat | idx != n
      ensures PoolName(pool, idx) != PoolName(pool, n)
    {
      if PoolName(pool, idx) == PoolName(pool, n) {
        PoolNameIsInjective(pool, idx, pool, n);
      }
    }
  }

  /** Names of different pools, or of different buffers, differ. */
  lemma {:induction false} SameNameSameBuffer(pool: string, other: string)
    ensures forall i: nat, j: nat :: PoolName(pool, i) == PoolName(other, j) ==> pool == other && i == j
  {
    forall i: nat, j: nat | PoolName(pool, i) == PoolName(other, j)
      ensures pool == other && i == j
    {
      PoolNameIsInjective(pool, i, other, j);
    }
  }

  lemma {:induction false} BufferIsListed(table: Table, pools: Pools, pool: string, idx: nat)
    requires Agrees(table, pools) && IsBuffer(pools, pool, idx)
    ensures PoolName(pool, idx) in table && table[PoolName(pool, idx)] == pools[pool][idx].buffer
  {
  }

  lemma {:induction false} ListedIsBuffer(table: Table, pools: Pools, name: string) returns (pool: string, idx: nat)
    requires Agrees(table, pools) && name in table
    ensures IsEntry(pools, name, table[name], pool, idx)
  {
    pool, idx :| IsEntry(pools, name, table[name], pool, idx);
  }

  lemma {:induction false} PoolIsListed(table: Table, pools: Pools, pool: string)
    requires Agrees(table, pools) && pool in pools
    ensures forall i :: 0 <= i < |pools[pool]| ==> PoolName(pool, i) in table
  {
    forall i | 0 <= i < |pools[pool]|
      ensures PoolName(pool, i) in table
    {
      BufferIsListed(table, pools, pool, i);
    }
  }

  lemma {:induction false} NoEntries(pool: string)
    ensures EntriesOf(pool, []) == map[]
  {
  }

  /** Registering the buffers of a pool that had none. */
  lemma {:induction false} AddPool(table: Table, pools: Pools, pool: string, buffers: seq<MemoryBuffer>)
    requires Agrees(table, pools) && (pool in pools ==> pools[pool] == [])
    ensures Agrees(table + EntriesOf(pool, buffers), pools[pool := buffers])
  {
    var newTable, newPools := table + EntriesOf(pool, buffers), pools[pool := buffers];
    EntriesAreBuffers(pool, buffers);
    forall p, idx: nat | IsBuffer(newPools, p, idx)
      ensures PoolName(p, idx) in newTable && newTable[PoolName(p, idx)] == newPools[p][idx].buffer
    {
      if p != pool {
        SameNameSameBuffer(pool, p);
        BufferIsListed(table, pools, p, idx);
      }
    }
    forall name | name in newTable
      ensures exists p, idx :: IsEntry(newPools, name, newTable[name], p, idx)
    {
      if name in EntriesOf(pool, buffers) {
        var idx: nat :| idx < |buffers| && name == PoolName(pool, idx);
        assert IsEntry(newPools, name, newTable[name], pool, idx);
      } else {
        var p, idx := ListedIsBuffer(table, pools, name);
        assert IsEntry(newPools, name, newTable[name], p, idx);
      }
    }
  }

  /** Taking a pool's names out of the table leaves the table of the other pools. */
  lemma {:induction false} RemovePool(table: Table, pools: Pools, pool: string, rest: Pools)
    requires Agrees(table, pools) && pool in pools && (rest == pools - {pool} || rest == pools[pool := []])
    ensures Agrees(table - EntriesOf(pool, pools[pool]).Keys, rest)
  {
    var newTable := table - EntriesOf(pool, pools[pool]).Keys;
    EntriesAreBuffers(pool, pools[pool]);
    forall p, idx: nat | IsBuffer(rest, p, idx)
      ensures PoolName(p, idx) in newTable && newTable[PoolName(p, idx)] == rest[p][idx].buffer
    {
      SameNameSameBuffer(pool, p);
      BufferIsListed(table, pools, p, idx);
    }
    forall name | name in newTable
      ensures exists p, idx :: IsEntry(rest, name, newTable[name], p, idx)
    {
      var p, idx := ListedIsBuffer(table, pools, name);
      assert p != pool;
      assert IsEntry(rest, name, newTable[name], p, idx);
    }
  }

  /** Re-using a pool's first buffers keeps the table right exactly if all of them are used. */
  lemma {:induction false} ReusePool(table: Table, pools: Pools, pool: string, n: nat)
    requires Agrees(table, pools) && pool in pools && n <= |pools[pool]|
    ensures Agrees(table, pools[pool := pools[pool][..n]]) <==> n == |pools[pool]|
  {
    if n == |pools[pool]| {
      assert pools[pool][..n] == pools[pool];
      assert pools[pool := pools[pool]] == pools;
    } else {
      BufferIsListed(table, pools, pool, n);
      LastBufferIsStale(table, pools[pool := pools[pool][..n]], pool, n);
    }
  }

  /** A name that is listed without its buffer. */
  lemma {:induction false} LastBufferIsStale(table: Table, pools: Pools, pool: string, n: nat)
    requires PoolName(pool, n) in table && !IsBuffer(pools, pool, n)
    ensures !Agrees(table, pools)
  {
    if Agrees(table, pools) {
      var p, idx := ListedIsBuffer(table, pools, PoolName(pool, n));
      PoolNameIsInjective(pool, n, p, idx);
    }
  }

  // ----- the bookkeeping as a whole, and what the operations make of it

  /** The pools, the checkpoint that uses the shared one, if any, and the table of registered buffers. */
  datatype Books = Books(pools: Pools, user: string, table: Table)

  /** The result of an operation; `ok` is false when it raises an error. */
  datatype Outcome = Outcome(books: Books, ok: bool)

  function PoolOf(b: Books, name: string): string
  {
    if name == b.user then SHARED else name
  }

  /** Looking up the checkpoint's pool succeeds. */
  predicate HasPool(b: Books, name: string)
  {
    PoolOf(b, name) in b.pools && (name == b.user ==> b.pools[SHARED] != [])
  }

  predicate AllListed(table: Table, pool: string, n: nat)
  {
    forall i :: 0 <= i < n ==> PoolName(pool, i) in table
  }

  function Allocated(sizes: seq<nat>, alloc: seq<nat>): (buffers: seq<MemoryBuffer>)
    requires |alloc| == |sizes|
    ensures |buffers| == |sizes|
    ensures forall i :: 0 <= i < |sizes| ==> buffers[i] == MemoryBuffer(alloc[i], sizes[i])
  {
    seq(|sizes|, i requires 0 <= i < |sizes| => MemoryBuffer(alloc[i], sizes[i]))
  }

  /** The buffers of a shared pool can serve buckets of these sizes. */
  predicate Serves(shared: seq<MemoryBuffer>, sizes: seq<nat>)
  {
    |sizes| <= |shared| && forall i :: 0 <= i < |sizes| ==> shared[i].size == sizes[i]
  }

  /** The buffers for buckets of these sizes: the shared pool's if it has any, else newly allocated ones. */
  function Pinned(sizes: seq<nat>, shared: seq<MemoryBuffer>, alloc: seq<nat>): Option<seq<MemoryBuffer>>
    requires |alloc| == |sizes|
  {
    if shared == [] then Some(Allocated(sizes, alloc))
    else if Serves(shared, sizes) then Some(shared[..|sizes|])
    else None
  }

  function ParametersRegistered(b: Books, name: string): Option<Books>
  {
    if !HasPool(b, name) then None
    else Some(b.(table := b.table + EntriesOf(PoolOf(b, name), b.pools[PoolOf(b, name)])))
  }

  function ParametersUnregistered(b: Books, name: string): Option<Books>
  {
    if !HasPool(b, name) || !AllListed(b.table, PoolOf(b, name), |b.pools[PoolOf(b, name)]|) then None
    else Some(b.(table := b.table - EntriesOf(PoolOf(b, name), b.pools[PoolOf(b, name)]).Keys))
  }

  function AfterUnregister(b: Books, name: string, force: bool): Outcome
  {
    if name !in b.pools && name != b.user then Outcome(b, true)
    else if name == b.user && !force then Outcome(b.(user := ""), true)
    else
      var c := ParametersUnregistered(b, name);
      if c.None? then Outcome(b, false)
      else if name == b.user then Outcome(c.value.(user := "", pools := b.pools[SHARED := []]), true)
      else Outcome(c.value.(pools := b.pools - {name}), true)
  }

  /** The handler for a failed registration; it ends by raising the error again. */
  function CleanedUp(b: Books, name: string, useShared: bool): Outcome
  {
    var c := if useShared then Some(b) else ParametersUnregistered(b, name);
    if c.None? then Outcome(b, false) else Outcome(AfterUnregister(c.value, name, false).books, false)
  }

  /** The parameters of a newly filled pool are registered. */
  function Completed(c: Books, name: string, useShared: bool): Outcome
  {
    var d := ParametersRegistered(c, name);
    if d.None? then CleanedUp(c, name, useShared) else Outcome(d.value, true)
  }

  /** Registering a checkpoint whose tensors take buckets of `sizes`; `loads` is whether its files can be read. */
  function AfterRegister(b: Books, name: string, sizes: seq<nat>, alloc: seq<nat>, useShared: bool,
                         loads: bool): Outcome
    requires |alloc| == |sizes|
  {
    if useShared then
      if b.user != "" || SHARED !in b.pools || !loads then CleanedUp(b, name, useShared)
      else
        var r := Pinned(sizes, b.pools[SHARED], alloc);
        if r.None? then CleanedUp(b, name, useShared)
        else
          var c := b.(pools := b.pools[SHARED := r.value], user := name);
          if b.pools[SHARED] != [] then Outcome(c, true) else Completed(c, name, useShared)
    else if name in b.pools || !loads then CleanedUp(b, name, useShared)
    else
      Completed(b.(pools := b.pools[name := Allocated(sizes, alloc)]), name, useShared)
  }

  // ----- when the bookkeeping stays right

  /** The shared pool exists and is filled while it is used, and the table matches the pools. */
  ghost predicate Good(b: Books)
  {
    && SHARED in b.pools && (b.user != "" ==> b.pools[SHARED] != [])
    && Agrees(b.table, b.pools)
  }

  lemma {:induction false} UnlistedBuffer(table: Table, pools: Pools, pool: string, idx: nat)
    requires IsBuffer(pools, pool, idx) && PoolName(pool, idx) !in table
    ensures !Agrees(table, pools)
  {
  }

  lemma {:induction false} GoodFacts(b: Books, name: string)
    requires Good(b) && HasPool(b, name)
    ensures SHARED in b.pools && AllListed(b.table, PoolOf(b, name), |b.pools[PoolOf(b, name)]|)
  {
    PoolIsListed(b.table, b.pools, PoolOf(b, name));
  }

  /**
   Unregistering any name keeps the bookkeeping right, unless the name is the shared pool's own and
   does not happen to be the name of the checkpoint that uses it.
   */
  lemma {:induction false} UnregisterKeepsGood(b: Books, name: string, force: bool)
    requires Good(b)
    ensures Good(AfterUnregister(b, name, force).books) <==> (name != SHARED || b.user == SHARED)
    ensures AfterUnregister(b, name, force).ok <==> !(name == b.user && force && b.pools[SHARED] == [])
  {
    hide Agrees, EntriesOf, AllListed;
    if HasPool(b, name) {
      GoodFacts(b, name);
      var pool := PoolOf(b, name);
      RemovePool(b.table, b.pools, pool, if name == b.user then b.pools[SHARED := []] else b.pools - {name});
    }
  }

  /** A name without a buffer stays in the table whatever is unregistered. */
  lemma {:induction false} StaleNamesStay(b: Books, name: string, force: bool, stale: string)
    requires stale in b.table && forall pool, idx: nat :: IsBuffer(b.pools, pool, idx) ==> PoolName(pool, idx) != stale
    ensures var c := AfterUnregister(b, name, force).books;
            stale in c.table && forall pool, idx: nat :: IsBuffer(c.pools, pool, idx) ==> PoolName(pool, idx) != stale
  {
    var c := AfterUnregister(b, name, force).books;
    if HasPool(b, name) {
      var pool := PoolOf(b, name);
      EntriesAreBuffers(pool, b.pools[pool]);
      forall idx: nat | idx < |b.pools[pool]|
        ensures PoolName(pool, idx) != stale
      {
        assert IsBuffer(b.pools, pool, idx);
      }
    }
    forall pool, idx: nat | IsBuffer(c.pools, pool, idx)
      ensures PoolName(pool, idx) != stale
    {
      assert IsBuffer(b.pools, pool, idx);
    }
  }

  /** Exactly when registering keeps the bookkeeping right, whether it succeeds or fails. */
  predicate KeepsBooks(b: Books, name: string, sizes: seq<nat>, useShared: bool, loads: bool)
    requires SHARED in b.pools
  {
    var pool := b.pools[SHARED];
    if useShared then
      if b.user != "" || !loads || (pool != [] && !Serves(pool, sizes)) then name != SHARED || b.user == SHARED
      else pool == [] || |sizes| == |pool|
    else if name == b.user then
      if name in b.pools || !loads then pool == [] else sizes == []
    else
      name !in b.pools || (b.pools[name] == [] && name != SHARED)
  }

  lemma {:induction false} ListedAgain(table: Table, pools: Pools, pool: string)
    requires Agrees(table, pools) && pool in pools
    ensures table + EntriesOf(pool, pools[pool]) == table
  {
    var entries := EntriesOf(pool, pools[pool]);
    EntriesAreBuffers(pool, pools[pool]);
    forall name | name in entries
      ensures name in table && table[name] == entries[name]
    {
      var idx: nat :| idx < |pools[pool]| && name == PoolName(pool, idx);
      BufferIsListed(table, pools, pool, idx);
    }
  }

  lemma {:induction false} PoolUnlisted(table: Table, pools: Pools, pool: string)
    requires pool in pools && pools[pool] != []
    ensures !Agrees(table - EntriesOf(pool, pools[pool]).Keys, pools)
  {
    EntriesAreBuffers(pool, pools[pool]);
    assert PoolName(pool, 0) in EntriesOf(pool, pools[pool]);
    UnlistedBuffer(table - EntriesOf(pool, pools[pool]).Keys, pools, pool, 0);
  }

  lemma {:induction false} NothingUnlisted(table: Table, pool: string)
    ensures table - EntriesOf(pool, []).Keys == table && table + EntriesOf(pool, []) == table
  {
  }

  /** A registration under a name in use, and not for the shared pool, fails and cleans up too much. */
  lemma {:induction false} CleanUpOfNamesInUse(b: Books, name: string)
    requires Good(b) && name in b.pools
    ensures Good(CleanedUp(b, name, false).books)
            <==> if name == b.user then b.pools[SHARED] == [] else b.pools[name] == [] && name != SHARED
  {
    hide Agrees, EntriesOf, AllListed;
    var pool := PoolOf(b, name);
    if HasPool(b, name) {
      GoodFacts(b, name);
      var c := ParametersUnregistered(b, name).value;
      if b.pools[pool] != [] {
        PoolUnlisted(b.table, b.pools, pool);
        FirstNameGone(c.table, b.table, pool, b.pools[pool]);
      } else {
        NothingUnlisted(b.table, pool);
        UnregisterKeepsGood(b, name, false);
      }
    }
  }

  lemma {:induction false} FirstNameGone(after: Table, before: Table, pool: string, buffers: seq<MemoryBuffer>)
    requires after == before - EntriesOf(pool, buffers).Keys && buffers != []
    ensures !AllListed(after, pool, |buffers|)
  {
    EntriesAreBuffers(pool, buffers);
    assert PoolName(pool, 0) in EntriesOf(pool, buffers);
  }

  lemma {:induction false} CleanUpOfNewNames(b: Books, name: string)
    requires Good(b) && name !in b.pools
    ensures Good(CleanedUp(b, name, false).books) <==> name != b.user || b.pools[SHARED] == []
    ensures name != b.user ==> CleanedUp(b, name, false).books == b
  {
    hide Agrees, EntriesOf, AllListed;
    if HasPool(b, name) {
      GoodFacts(b, name);
      PoolUnlisted(b.table, b.pools, SHARED);
    }
  }

  lemma {:induction false} NewPool(b: Books, name: string, buffers: seq<MemoryBuffer>)
    requires Good(b) && name !in b.pools
    ensures Good(Completed(b.(pools := b.pools[name := buffers]), name, false).books) <==> name != b.user || buffers == []
  {
    hide Agrees, EntriesOf, AllListed;
    var c := b.(pools := b.pools[name := buffers]);
    if name != b.user {
      AddPool(b.table, b.pools, name, buffers);
    } else {
      NameNotListed(b, name, buffers);
      if b.pools[SHARED] != [] {
        ListedAgain(b.table, b.pools, SHARED);
        assert c.pools[SHARED] == b.pools[SHARED];
      }
    }
  }

  /** The buffers of a new pool that is not registered are missing from the table. */
  lemma {:induction false} NameNotListed(b: Books, name: string, buffers: seq<MemoryBuffer>)
    requires Good(b) && name !in b.pools
    ensures Agrees(b.table, b.pools[name := buffers]) <==> buffers == []
  {
    if buffers == [] {
      AddPool(b.table, b.pools, name, []);
      NothingUnlisted(b.table, name);
    } else {
      hide EntriesOf;
      if PoolName(name, 0) in b.table {
        var pool, idx := ListedIsBuffer(b.table, b.pools, PoolName(name, 0));
        PoolNameIsInjective(name, 0, pool, idx);
      } else {
        UnlistedBuffer(b.table, b.pools[name := buffers], name, 0);
      }
    }
  }

  lemma {:induction false} SharedPoolFilled(b: Books, name: string, buffers: seq<MemoryBuffer>)
    requires Good(b) && b.user == "" && b.pools[SHARED] == []
    ensures Good(Completed(b.(pools := b.pools[SHARED := buffers], user := name), name, true).books)
  {
    hide Agrees, EntriesOf, AllListed;
    AddPool(b.table, b.pools, SHARED, buffers);
    if buffers == [] {
      NothingUnlisted(b.table, SHARED);
    }
  }

  lemma {:induction false} SharedPoolReused(b: Books, name: string, n: nat)
    requires Good(b) && b.pools[SHARED] != [] && n <= |b.pools[SHARED]|
    ensures Good(b.(pools := b.pools[SHARED := b.pools[SHARED][..n]], user := name)) <==> n == |b.pools[SHARED]|
  {
    hide Agrees;
    ReusePool(b.table, b.pools, SHARED, n);
  }

  /**
   For every name, checkpoint and outcome: a registration keeps the bookkeeping right if and only
   if a reused shared pool is used completely, a failed one does not clean up a pool in use, and a
   new pool is not registered under the shared pool's name instead of its own.
   */
  lemma {:induction false} RegisterKeepsGood(b: Books, name: string, sizes: seq<nat>, alloc: seq<nat>,
                                             useShared: bool, loads: bool)
    requires Good(b) && |alloc| == |sizes|
    ensures Good(AfterRegister(b, name, sizes, alloc, useShared, loads).books) <==> KeepsBooks(b, name, sizes, useShared, loads)
  {
    hide Agrees, Completed, CleanedUp, Serves;
    if useShared {
      SharedCleanUp(b, name);
      if b.pools[SHARED] == [] {
        if b.user == "" {
          SharedPoolFilled(b, name, Allocated(sizes, alloc));
        }
      } else if |sizes| <= |b.pools[SHARED]| {
        SharedPoolReused(b, name, |sizes|);
      } else {
        TooMany(b.pools[SHARED], sizes);
      }
    } else if name in b.pools {
      CleanUpOfNamesInUse(b, name);
    } else {
      CleanUpOfNewNames(b, name);
      NewPool(b, name, Allocated(sizes, alloc));
    }
  }

  lemma {:induction false} TooMany(shared: seq<MemoryBuffer>, sizes: seq<nat>)
    requires |sizes| > |shared|
    ensures !Serves(shared, sizes)
  {
  }

  lemma {:induction false} SharedCleanUp(b: Books, name: string)
    requires Good(b)
    ensures Good(CleanedUp(b, name, true).books) <==> name != SHARED || b.user == SHARED
  {
    hide Good, AfterUnregister;
    UnregisterKeepsGood(b, name, false);
    GoodHasShared(b);
  }

  lemma {:induction false} GoodHasShared(b: Books)
    requires Good(b)
    ensures SHARED in b.pools
  {
  }

  /**
   Registrations of non-empty checkpoints under fresh, non-empty names: at most one of them uses the
   shared pool, which keeps its buffers; a failed one changes nothing; and only using a shared pool
   incompletely leaves a wrong table.
   */
  lemma {:induction false} FreshRegistration(b: Books, name: string, sizes: seq<nat>, alloc: seq<nat>,
                                             useShared: bool, loads: bool)
    requires Good(b) && |alloc| == |sizes| && sizes != []
    requires name != "" && name != b.user && name !in b.pools
    ensures var r, pool := AfterRegister(b, name, sizes, alloc, useShared, loads), b.pools[SHARED];
            var fits := pool == [] || (|sizes| <= |pool| && forall i :: 0 <= i < |sizes| ==> pool[i].size == sizes[i]);
            && (r.ok <==> loads && (useShared ==> b.user == "" && fits))
            && (!r.ok ==> r.books == b)
            && (r.ok && useShared ==> (
                  && r.books.user == name
                  && r.books.pools == b.pools[SHARED := if pool == [] then Allocated(sizes, alloc) else pool[..|sizes|]]))
            && (r.ok && !useShared ==> r.books.user == b.user && r.books.pools == b.pools[name := Allocated(sizes, alloc)])
            && (Good(r.books) <==> !r.ok || !useShared || pool == [] || |sizes| == |pool|)
  {
    hide Good, Agrees, EntriesOf, AllListed;
    GoodHasShared(b);
    RegisterKeepsGood(b, name, sizes, alloc, useShared, loads);
  }

  // ----- what registering and unregistering do, buffer by buffer

  /**
   A checkpoint that is registered for the shared pool finds one buffer per bucket there, of the
   bucket's size: the buffers of the first user, or new ones if there was none.
   */
  lemma {:induction false} SharedBuffersHaveTheSizes(b: Books, name: string, sizes: seq<nat>, alloc: seq<nat>,
                                                     loads: bool)
    requires |alloc| == |sizes| && AfterRegister(b, name, sizes, alloc, true, loads).ok
    ensures SHARED in b.pools && b.user == ""
    ensures var after, before := AfterRegister(b, name, sizes, alloc, true, loads).books, b.pools[SHARED];
            && after.user == name && SHARED in after.pools && |after.pools[SHARED]| == |sizes|
            && (forall i :: 0 <= i < |sizes| ==> after.pools[SHARED][i].size == sizes[i])
            && (forall i :: 0 <= i < |sizes| ==>
                  && (before == [] ==> after.pools[SHARED][i].buffer == alloc[i])
                  && (before != [] ==> i < |before| && after.pools[SHARED][i] == before[i]))
            && after.pools - {SHARED} == b.pools - {SHARED}
  {
    hide Serves, EntriesOf, AllListed, AfterUnregister, ParametersUnregistered;
    if SHARED in b.pools {
      PinnedBuffers(sizes, b.pools[SHARED], alloc);
    }
  }

  lemma {:induction false} PinnedBuffers(sizes: seq<nat>, shared: seq<MemoryBuffer>, alloc: seq<nat>)
    requires |alloc| == |sizes|
    ensures Pinned(sizes, shared, alloc).Some? <==> shared == [] || Serves(shared, sizes)
    ensures var r := Pinned(sizes, shared, alloc);
            r.Some? ==> |r.value| == |sizes| && forall i :: 0 <= i < |sizes| ==>
              && r.value[i].size == sizes[i]
              && (shared == [] ==> r.value[i].buffer == alloc[i])
              && (shared != [] ==> i < |shared| && r.value[i] == shared[i])
  {
  }

  /** A filled shared pool that lacks a buffer of the wanted size makes the registration fail. */
  lemma {:induction false} WrongSizesFail(b: Books, name: string, sizes: seq<nat>, alloc: seq<nat>, loads: bool, i: nat)
    requires |alloc| == |sizes| && SHARED in b.pools && b.pools[SHARED] != [] && i < |sizes|
    requires i >= |b.pools[SHARED]| || b.pools[SHARED][i].size != sizes[i]
    ensures !AfterRegister(b, name, sizes, alloc, true, loads).ok
  {
    hide AfterUnregister;
  }

  /** Exactly which registrations succeed. */
  lemma {:induction false} RegistrationSucceeds(b: Books, name: string, sizes: seq<nat>, alloc: seq<nat>,
                                                useShared: bool, loads: bool)
    requires Good(b) && |alloc| == |sizes|
    ensures SHARED in b.pools
    ensures AfterRegister(b, name, sizes, alloc, useShared, loads).ok <==>
            && loads
            && var pool := b.pools[SHARED];
               if !useShared then name !in b.pools && (name == b.user ==> pool != [])
               else if pool == [] then b.user == "" && sizes != []
               else b.user == "" && |sizes| <= |pool| && forall i :: 0 <= i < |sizes| ==> pool[i].size == sizes[i]
  {
    hide EntriesOf, AllListed, AfterUnregister, ParametersUnregistered, Agrees;
    var pool := b.pools[SHARED];
    if !useShared {
      if name !in b.pools && loads {
        CompletedWhen(b.(pools := b.pools[name := Allocated(sizes, alloc)]), name, useShared);
      }
    } else if pool == [] && b.user == "" && loads {
      CompletedWhen(b.(pools := b.pools[SHARED := Allocated(sizes, alloc)], user := name), name, useShared);
    }
  }

  lemma {:induction false} CompletedWhen(c: Books, name: string, useShared: bool)
    ensures Completed(c, name, useShared).ok <==> HasPool(c, name)
  {
  }

  /** A registration of its own fills the pool of that name with one new buffer per bucket. */
  lemma {:induction false} OwnBuffersHaveTheSizes(b: Books, name: string, sizes: seq<nat>, alloc: seq<nat>, loads: bool)
    requires |alloc| == |sizes| && AfterRegister(b, name, sizes, alloc, false, loads).ok
    ensures name !in b.pools
    ensures var after := AfterRegister(b, name, sizes, alloc, false, loads).books;
            && after.user == b.user && name in after.pools && |after.pools[name]| == |sizes|
            && (forall i :: 0 <= i < |sizes| ==> after.pools[name][i] == MemoryBuffer(alloc[i], sizes[i]))
            && after.pools - {name} == b.pools
  {
    hide EntriesOf, AllListed, AfterUnregister, ParametersUnregistered;
    assert (b.pools[name := Allocated(sizes, alloc)]) - {name} == b.pools - {name};
  }

  /**
   Releasing the shared pool and registering a checkpoint of the same shape for it hands over the
   same buffers, still registered under the same names.
   */
  lemma {:induction false} ReleasedPoolIsReused(b: Books, name: string, next: string, sizes: seq<nat>, alloc: seq<nat>)
    requires Good(b) && name == b.user != "" && |alloc| == |sizes| == |b.pools[SHARED]|
    requires forall i :: 0 <= i < |sizes| ==> b.pools[SHARED][i].size == sizes[i]
    ensures var released := AfterUnregister(b, name, false);
            && released.ok
            && AfterRegister(released.books, next, sizes, alloc, true, true) == Outcome(b.(user := next), true)
  {
    hide Agrees, EntriesOf, AllListed, ParametersUnregistered;
    var pool := b.pools[SHARED];
    assert pool[..|sizes|] == pool;
    assert b.pools[SHARED := pool] == b.pools;
  }

  /**
   Unregistering a checkpoint that has a pool of its own, or with force one that uses the shared pool,
   takes away exactly that pool's buffers and their names.
   */
  lemma {:induction false} UnregisterRemovesPool(b: Books, name: string, force: bool, other: string, i: nat)
    requires Good(b) && if name == b.user then force && name != "" else name in b.pools
    ensures var after, pool := AfterUnregister(b, name, force).books, if name == b.user then SHARED else name;
            && AfterUnregister(b, name, force).ok
            && after.user == (if name == b.user then "" else b.user)
            && !IsBuffer(after.pools, pool, i) && PoolName(pool, i) !in after.table
            && (other != pool && IsBuffer(b.pools, other, i) ==>
                  && IsBuffer(after.pools, other, i) && after.pools[other][i] == b.pools[other][i]
                  && PoolName(other, i) in after.table && after.table[PoolName(other, i)] == b.pools[other][i].buffer)
            && (other != pool && !IsBuffer(b.pools, other, i) ==> !IsBuffer(after.pools, other, i))
  {
    hide Agrees, EntriesOf, AllListed;
    var pool := PoolOf(b, name);
    GoodFacts(b, name);
    var rest := if name == b.user then b.pools[SHARED := []] else b.pools - {name};
    RemovePool(b.table, b.pools, pool, rest);
    var after := AfterUnregister(b, name, force).books;
    assert after.pools == rest;
    NotListed(after.table, rest, pool, i);
    if other != pool && IsBuffer(b.pools, other, i) {
      BufferIsListed(after.table, rest, other, i);
    }
  }

  lemma {:induction false} NotListed(table: Table, pools: Pools, pool: string, i: nat)
    requires Agrees(table, pools) && !IsBuffer(pools, pool, i)
    ensures PoolName(pool, i) !in table
  {
    if PoolName(pool, i) in table {
      LastBufferIsStale(table, pools, pool, i);
    }
  }

  // ----- the store of buffers that remote ranks may read

  class P2PStore {
    var namedTensors: Table

    constructor ()
      ensures namedTensors == map[]
    {
      namedTensors := map[];
    }

    method RegisterNamedTensors(named: Table)
      modifies this
      ensures namedTensors == old(namedTensors) + named
    {
      namedTensors := namedTensors + named;
    }

    /** Nothing is changed when a name is unknown. */
    method UnregisterNamedTensors(names: seq<string>) returns (ok: bool, unregistered: nat)
      requires AllDistinct(names)
      modifies this
      ensures ok <==> forall i :: 0 <= i < |names| ==> names[i] in old(namedTensors)
      ensures namedTensors == if ok then old(namedTensors) - (set name | name in names) else old(namedTensors)
      ensures ok ==> unregistered == |names|
    {
      unregistered := 0;
      for i := 0 to |names|
        invariant forall k :: 0 <= k < i ==> names[k] in namedTensors
        invariant namedTensors == old(namedTensors)
      {
        if names[i] !in namedTensors {
          return false, 0;
        }
      }
      for i := 0 to |names|
        invariant namedTensors == old(namedTensors) - (set name | name in names[..i])
        invariant unregistered == i
      {
        assert names[..i + 1] == names[..i] + [names[i]];
        namedTensors := namedTensors - {names[i]};
        unregistered := unregistered + 1;
      }
      assert names[..|names|] == names;
      ok := true;
    }
  }

  /** The names of the first `n` buffers of a pool. */
  function PoolNames(pool: string, n: nat): (names: seq<string>)
    ensures |names| == n && forall i :: 0 <= i < n ==> names[i] == PoolName(pool, i)
  {
    seq(n, i requires 0 <= i < n => PoolName(pool, i))
  }

  lemma {:induction false} PoolNamesAreKeys(pool: string, buffers: seq<MemoryBuffer>)
    ensures AllDistinct(PoolNames(pool, |buffers|))
    ensures (set name | name in PoolNames(pool, |buffers|)) == EntriesOf(pool, buffers).Keys
  {
    var names := PoolNames(pool, |buffers|);
    EntriesAreBuffers(pool, buffers);
    SameNameSameBuffer(pool, pool);
    forall name
      ensures name in names <==> name in EntriesOf(pool, buffers)
    {
      if name in EntriesOf(pool, buffers) {
        var idx: nat :| idx < |buffers| && name == PoolName(pool, idx);
        assert names[idx] == name;
      }
    }
  }

  /** The shared pool's buffers by index, with the code's two assertions, or new ones. */
  method RegisterPinMemory(sizes: seq<nat>, shared: seq<MemoryBuffer>, alloc: seq<nat>)
    returns (r: Option<seq<MemoryBuffer>>)
    requires |alloc| == |sizes|
    ensures r == Pinned(sizes, shared, alloc)
    ensures r.None? <==> shared != [] && exists i :: 0 <= i < |sizes| && !(i < |shared| && shared[i].size == sizes[i])
    ensures r.Some? ==> |r.value| == |sizes| && forall i :: 0 <= i < |sizes| ==>
              r.value[i] == if shared == [] then MemoryBuffer(alloc[i], sizes[i]) else shared[i]
  {
    var buffers: seq<MemoryBuffer> := [];
    for idx := 0 to |sizes|
      invariant |buffers| == idx
      invariant shared == [] ==> buffers == Allocated(sizes, alloc)[..idx]
      invariant shared != [] ==> idx <= |shared| && buffers == shared[..idx]
      invariant shared != [] ==> forall i :: 0 <= i < idx ==> shared[i].size == sizes[i]
    {
      if shared != [] {
        if idx >= |shared| || shared[idx].size != sizes[idx] {
          return None;
        }
        buffers := buffers + [shared[idx]];
      } else {
        buffers := buffers + [MemoryBuffer(alloc[idx], sizes[idx])];
      }
    }
    assert Allocated(sizes, alloc)[..|sizes|] == Allocated(sizes, alloc);
    r := Some(buffers);
  }

  // ----- the parameter server's methods

  class ParameterServer {
    const p2pStore: P2PStore
    var memoryPool: Pools
    var currentUser: string

    function Snapshot(): Books
      reads this, p2pStore
    {
      Books(memoryPool, currentUser, p2pStore.namedTensors)
    }

    constructor ()
      ensures fresh(p2pStore) && Snapshot() == Books(map[SHARED := []], "", map[]) && Good(Snapshot())
    {
      p2pStore := new P2PStore();
      memoryPool := map[SHARED := []];
      currentUser := "";
    }

    /** `_register_parameters_to_p2p_store`. */
    method RegisterParameters(name: string) returns (ok: bool)
      modifies p2pStore
      ensures var r := ParametersRegistered(old(Snapshot()), name);
              ok == r.Some? && Snapshot() == if ok then r.value else old(Snapshot())
    {
      hide EntriesOf;
      if !HasPool(Snapshot(), name) {
        return false;
      }
      var target := PoolOf(Snapshot(), name);
      var pool := memoryPool[target];
      ghost var before := p2pStore.namedTensors;
      NothingUnlisted(before, target);
      if |pool| == 0 {
        assert pool == [];
        return true;
      }
      var named: Table := map[];
      NoEntries(target);
      assert pool[..0] == [];
      for idx := 0 to |pool|
        invariant named == EntriesOf(target, pool[..idx])
        invariant p2pStore.namedTensors == before
      {
        EntriesNext(target, pool, idx);
        named := named[PoolName(target, idx) := pool[idx].buffer];
      }
      assert pool[..|pool|] == pool;
      p2pStore.RegisterNamedTensors(named);
      ok := true;
    }

    /** `_unregister_parameters_from_p2p_store`. */
    method UnregisterParameters(name: string) returns (ok: bool)
      modifies p2pStore
      ensures var r := ParametersUnregistered(old(Snapshot()), name);
              ok == r.Some? && Snapshot() == if ok then r.value else old(Snapshot())
    {
      hide EntriesOf;
      if !HasPool(Snapshot(), name) {
        return false;
      }
      var target := PoolOf(Snapshot(), name);
      var pool := memoryPool[target];
      NothingUnlisted(p2pStore.namedTensors, target);
      if |pool| == 0 {
        assert pool == [];
        return true;
      }
      PoolNamesAreKeys(target, pool);
      var count;
      ok, count := p2pStore.UnregisterNamedTensors(PoolNames(target, |pool|));
    }

    /** `unregister_checkpoint`. */
    method Unregister(name: string, force: bool) returns (ok: bool)
      modifies this`memoryPool, this`currentUser, p2pStore
      ensures Outcome(Snapshot(), ok) == AfterUnregister(old(Snapshot()), name, force)
    {
      hide EntriesOf, AllListed;
      if name !in memoryPool && name != currentUser {
        return true;
      }
      if name == currentUser && !force {
        currentUser := "";
        return true;
      }
      ok := UnregisterParameters(name);
      if !ok {
        return;
      }
      if name == currentUser {
        currentUser := "";
        memoryPool := memoryPool[SHARED := []];
      } else {
        memoryPool := memoryPool - {name};
      }
    }

    /** The exception handler of `register_checkpoint`. */
    method CleanUp(name: string, useShared: bool)
      modifies this`memoryPool, this`currentUser, p2pStore
      ensures Outcome(Snapshot(), false) == CleanedUp(old(Snapshot()), name, useShared)
    {
      hide AfterUnregister, ParametersUnregistered;
      if !useShared {
        var ok := UnregisterParameters(name);
        if !ok {
          return;
        }
      }
      var done := Unregister(name, false);
    }

    /** `register_checkpoint`; `loads` is whether the files can be read. */
    method Register(name: string, sizes: seq<nat>, alloc: seq<nat>, useShared: bool, loads: bool) returns (ok: bool)
      requires |alloc| == |sizes|
      modifies this`memoryPool, this`currentUser, p2pStore
      ensures Outcome(Snapshot(), ok) == AfterRegister(old(Snapshot()), name, sizes, alloc, useShared, loads)
    {
      hide CleanedUp, ParametersRegistered, Pinned;
      ok := false;
      if useShared {
        if currentUser == "" && SHARED in memoryPool && loads {
          var isFirstTime := memoryPool[SHARED] == [];
          var r := RegisterPinMemory(sizes, memoryPool[SHARED], alloc);
          if r.Some? {
            memoryPool := memoryPool[SHARED := r.value];
            currentUser := name;
            ok := true;
            if isFirstTime {
              ok := RegisterParameters(name);
            }
          }
        }
      } else if name !in memoryPool && loads {
        memoryPool := memoryPool[name := Allocated(sizes, alloc)];
        ok := RegisterParameters(name);
      }
      if !ok {
        CleanUp(name, useShared);
      }
    }
  }

  // ----- two ways to a wrong table

  /** The sizes of the buckets that the tensors are packed into. */
  function SizesOf(ts: seq<Tensor>): (sizes: seq<nat>)
    ensures |sizes| == |BufferTensors(ts)|
    ensures forall j :: 0 <= j < |sizes| ==> sizes[j] == Total(BufferTensors(ts)[j], TensorSlot)
  {
    seq(|BufferTensors(ts)|, j requires 0 <= j < |BufferTensors(ts)| => Total(BufferTensors(ts)[j], TensorSlot))
  }

  lemma {:induction false} TwoPieces(a: Tensor, b: Tensor)
    requires TensorSlot(a) == FOUR_GIB && TensorSlot(b) == ALIGN_SIZE
    ensures BufferTensors([a]) == [[a]] && BufferTensors([a, b]) == [[a], [b]]
  {
    hide TensorSlot, Add, Cut, BufferCap;
    LargestOfTwo(a, b);
    OneBuffer(a);
    assert [a] + [b] == [a, b];
    CutSnoc([a], b, TensorSlot, FOUR_GIB);
    FullBuffer(a, b);
  }

  lemma {:induction false} SizesOfOne(ts: seq<Tensor>, x: seq<Tensor>)
    requires BufferTensors(ts) == [x]
    ensures SizesOf(ts) == [Total(x, TensorSlot)]
  {
    hide BufferTensors, Total;
  }

  lemma {:induction false} SizesOfTwo(ts: seq<Tensor>, x: seq<Tensor>, y: seq<Tensor>)
    requires BufferTensors(ts) == [x, y]
    ensures SizesOf(ts) == [Total(x, TensorSlot), Total(y, TensorSlot)]
  {
    hide BufferTensors, Total;
  }

  /** A tensor that fills a buffer of 4 GiB and a small one take two buffers, the first alone takes one. */
  lemma {:induction false} TwoBuffers(a: Tensor, b: Tensor)
    requires TensorSlot(a) == FOUR_GIB && TensorSlot(b) == ALIGN_SIZE
    ensures SizesOf([a, b]) == [FOUR_GIB, ALIGN_SIZE] && SizesOf([a]) == [FOUR_GIB]
  {
    hide *;
    TwoPieces(a, b);
    OneBuffer(a);
    FullBuffer(a, b);
    SizesOfOne([a], [a]);
    SizesOfTwo([a, b], [a], [b]);
  }

  lemma {:induction false} LargestOfTwo(a: Tensor, b: Tensor)
    requires TensorSlot(a) == FOUR_GIB && TensorSlot(b) == ALIGN_SIZE
    ensures BufferCap([a]) == BufferCap([a, b]) == FOUR_GIB
  {
    hide TensorSlot;
    assert [a][..|[a]| - 1] == [];
    assert LargestSlot([a]) == FOUR_GIB;
    assert [a, b][..|[a, b]| - 1] == [a];
  }

  lemma {:induction false} OneBuffer(a: Tensor)
    requires TensorSlot(a) == FOUR_GIB
    ensures Cut([a], TensorSlot, FOUR_GIB) == [[a]] && Total([a], TensorSlot) == FOUR_GIB
  {
    hide TensorSlot;
    CutSnoc([], a, TensorSlot, FOUR_GIB);
    TotalSnoc([], a, TensorSlot);
    assert [] + [a] == [a];
  }

  lemma {:induction false} FullBuffer(a: Tensor, b: Tensor)
    requires TensorSlot(a) == FOUR_GIB && TensorSlot(b) == ALIGN_SIZE
    ensures Add([[a]], b, TensorSlot, FOUR_GIB) == [[a], [b]] && Total([b], TensorSlot) == ALIGN_SIZE
  {
    hide TensorSlot;
    OneBuffer(a);
    TotalSnoc([], b, TensorSlot);
    assert [] + [b] == [b];
  }

  /** There are such tensors. */
  lemma {:induction false} SuchTensorsExist(bytes: seq<Byte>, more: seq<Byte>)
    requires |bytes| == FOUR_GIB && |more| == 1
    ensures var a, b := Tensor("a", 1, [FOUR_GIB], bytes), Tensor("b", 1, [1], more);
            WellFormed(a) && WellFormed(b) && TensorSlot(a) == FOUR_GIB && TensorSlot(b) == ALIGN_SIZE
  {
    NumelOfOne(FOUR_GIB);
    NumelOfOne(1);
  }

  /**
   The shared pool is filled by a checkpoint of two buffers, released, and used again by one that
   needs the first buffer only: every call succeeds, and the table keeps a name without a buffer.
   */
  method ShrinkSharedPool(a: Tensor, b: Tensor, alloc: seq<nat>) returns (ps: ParameterServer)
    requires TensorSlot(a) == FOUR_GIB && TensorSlot(b) == ALIGN_SIZE && |alloc| == 2
    ensures ps.memoryPool == map[SHARED := [MemoryBuffer(alloc[0], FOUR_GIB)]] && ps.currentUser == "second"
    ensures PoolName(SHARED, 1) in ps.p2pStore.namedTensors && !Good(ps.Snapshot())
  {
    hide TensorSlot, BufferTensors, Agrees, EntriesOf, AllListed;
    TwoBuffers(a, b);
    ps := new ParameterServer();
    FreshRegistration(ps.Snapshot(), "first", SizesOf([a, b]), alloc, true, true);
    var ok := ps.Register("first", SizesOf([a, b]), alloc, true, true);
    ghost var used := ps.Snapshot();
    assert used.pools[SHARED] == [MemoryBuffer(alloc[0], FOUR_GIB), MemoryBuffer(alloc[1], ALIGN_SIZE)];
    assert used.pools == map[SHARED := used.pools[SHARED]];
    BufferIsListed(used.table, used.pools, SHARED, 1);
    UnregisterKeepsGood(used, "first", false);
    ok := ps.Unregister("first", false);
    assert used.pools[SHARED][..1] == [MemoryBuffer(alloc[0], FOUR_GIB)];
    FreshRegistration(ps.Snapshot(), "second", SizesOf([a]), alloc[..1], true, true);
    ok := ps.Register("second", SizesOf([a]), alloc[..1], true, true);
  }

  /** Unregistering the shared pool by its own name removes it, and no checkpoint can use it any more. */
  method RemoveSharedPool(name: string, sizes: seq<nat>, alloc: seq<nat>) returns (ps: ParameterServer, ok: bool)
    requires |alloc| == |sizes|
    ensures ps.memoryPool == map[] && !ok && !Good(ps.Snapshot())
  {
    hide EntriesOf, AllListed;
    ps := new ParameterServer();
    UnregisterKeepsGood(ps.Snapshot(), SHARED, false);
    ok := ps.Unregister(SHARED, false);
    ok := ps.Register(name, sizes, alloc, true, true);
  }
}
