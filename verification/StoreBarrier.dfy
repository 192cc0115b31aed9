/**
 The reusable barrier over a shared key-value store, with garbage collection of its keys: a
 protocol of all ranks in which every store operation is one atomic step.
 */
module StoreBarrier {
  /** The two keys of a barrier generation. */
  datatype Key = Counter(gen: nat) | LastWorker(gen: nat)

  type Store = map<Key, nat>

  /** What a rank does next. The two delete steps and the cleanup are rank 0's. */
  datatype Pc = Idle | Check | Announce | Wait | Cleanup | DeleteCounter(stale: nat) | DeleteLast(stale: nat)

  /** `gen` is the rank's barrier counter. */
  datatype Rank = Rank(gen: nat, pc: Pc)

  /** `trash` is rank 0's list; `deleted` and `absent` record which deletions happened and which found nothing. */
  datatype State = State(ranks: seq<Rank>, store: Store, trash: seq<nat>, deleted: set<Key>, absent: nat)

  // ----- the steps

  function Get(store: Store, k: Key): nat
  {
    if k in store then store[k] else 0
  }

  /** The store's `add`, which creates a missing key. */
  function Add(store: Store, k: Key, n: nat): Store
  {
    store[k := Get(store, k) + n]
  }

  function SetRank(st: State, r: nat, gen: nat, pc: Pc): State
    requires r < |st.ranks|
  {
    st.(ranks := st.ranks[r := Rank(gen, pc)])
  }

  function Delete(st: State, k: Key): State
  {
    st.(store := st.store - {k}, deleted := st.deleted + {k}, absent := st.absent + if k in st.store then 0 else 1)
  }

  /** Rank 0 keeps the two latest generations. */
  function CleanUp(st: State, gen: nat): State
    requires st.ranks != []
  {
    var trash := st.trash + [gen];
    if |trash| <= 2 then SetRank(st, 0, gen, Idle).(trash := trash)
    else SetRank(st, 0, gen, DeleteCounter(trash[0])).(trash := trash[1..])
  }

  /** A rank's next step; only waiting for the last worker can block. */
  predicate CanMove(st: State, r: nat)
  {
    r < |st.ranks| && (st.ranks[r].pc.Wait? ==> LastWorker(st.ranks[r].gen) in st.store)
  }

  function Move(st: State, r: nat): State
    requires CanMove(st, r)
  {
    var gen := st.ranks[r].gen;
    match st.ranks[r].pc
    case Idle => SetRank(st, r, gen + 1, Check).(store := Add(st.store, Counter(gen + 1), 1))
    case Check =>
      var store := Add(st.store, Counter(gen), 0);
      SetRank(st, r, gen, if store[Counter(gen)] == |st.ranks| then Announce else Wait).(store := store)
    case Announce => SetRank(st, r, gen, Wait).(store := st.store[LastWorker(gen) := 1])
    case Wait => SetRank(st, r, gen, if r == 0 then Cleanup else Idle)
    case Cleanup => CleanUp(st, gen)
    case DeleteCounter(stale) => SetRank(Delete(st, Counter(stale)), r, gen, DeleteLast(stale))
    case DeleteLast(stale) => SetRank(Delete(st, LastWorker(stale)), r, gen, Idle)
  }

  /** A waiting rank may look at the counter again. */
  predicate CanPoll(st: State, r: nat)
  {
    r < |st.ranks| && st.ranks[r].pc.Wait?
  }

  function Poll(st: State, r: nat): State
    requires CanPoll(st, r)
  {
    st.(store := Add(st.store, Counter(st.ranks[r].gen), 0))
  }

  datatype Step = MoveStep(r: nat) | PollStep(r: nat)

  predicate Possible(st: State, step: Step)
  {
    match step
    case MoveStep(r) => CanMove(st, r)
    case PollStep(r) => CanPoll(st, r)
  }

  /** A rank that is scheduled while it is blocked does nothing. */
  function Apply(st: State, step: Step): State
  {
    if !Possible(st, step) then st
    else
      match step
      case MoveStep(r) => Move(st, r)
      case PollStep(r) => Poll(st, r)
  }

  ghost predicate Initial(st: State)
  {
    && st.ranks != [] && (forall r :: 0 <= r < |st.ranks| ==> st.ranks[r] == Rank(0, Idle))
    && st.store == map[] && st.trash == [] && st.deleted == {} && st.absent == 0
  }

  /** The state after a run, whatever the interleaving. */
  function After(st: State, run: seq<Step>): State
  {
    if run == [] then st else Apply(After(st, run[..|run| - 1]), run[|run| - 1])
  }

  // ----- the invariant

  predicate Inside(pc: Pc)
  {
    pc.Check? || pc.Announce? || pc.Wait?
  }

  /** The last generation a rank has left. */
  function Left(k: Rank): int
  {
    if Inside(k.pc) then k.gen - 1 else k.gen
  }

  function Monus(a: nat, b: nat): nat
  {
    if a < b then 0 else a - b
  }

  /** Up to which generation rank 0 has deleted the counter keys. */
  function CountersGone(k: Rank): nat
  {
    if k.pc.Idle? || k.pc.DeleteLast? then Monus(k.gen, 2) else Monus(k.gen, 3)
  }

  /** Up to which generation rank 0 has deleted the `last_worker` keys. */
  function LastWorkersGone(k: Rank): nat
  {
    if k.pc.Idle? then Monus(k.gen, 2) else Monus(k.gen, 3)
  }

  /** How many ranks have entered generation `g`. */
  function Entered(ranks: seq<Rank>, g: nat): (n: nat)
    ensures n <= |ranks|
  {
    if ranks == [] then 0
    else Entered(ranks[..|ranks| - 1], g) + if ranks[|ranks| - 1].gen >= g then 1 else 0
  }

  predicate AllEntered(ranks: seq<Rank>, g: nat)
  {
    forall r :: 0 <= r < |ranks| ==> ranks[r].gen >= g
  }

  ghost predicate PcsOk(ranks: seq<Rank>)
  {
    && ranks != []
    && (forall r :: 0 <= r < |ranks| ==> Inside(ranks[r].pc) ==> ranks[r].gen >= 1)
    && (forall r :: 0 < r < |ranks| ==> Inside(ranks[r].pc) || ranks[r].pc.Idle?)
    && (ranks[0].pc.Cleanup? ==> ranks[0].gen >= 1)
    && (ranks[0].pc.DeleteCounter? || ranks[0].pc.DeleteLast? ==> ranks[0].gen >= 3 && ranks[0].pc.stale == ranks[0].gen - 2)
  }

  /** The latest two of the first `p` generations. */
  function Latest(p: nat): seq<nat>
  {
    if p == 0 then [] else if p == 1 then [1] else [p - 1, p]
  }

  /** The generations rank 0 has cleaned up after. */
  function CleanedUp(k: Rank): int
  {
    if k.pc.Cleanup? then k.gen - 1 else Left(k)
  }

  ghost predicate TrashOk(st: State)
    requires st.ranks != []
  {
    CleanedUp(st.ranks[0]) >= 0 && st.trash == Latest(CleanedUp(st.ranks[0]))
  }

  /** Nobody leaves a generation that somebody has not entered. */
  ghost predicate Safe(ranks: seq<Rank>)
  {
    forall r :: 0 <= r < |ranks| ==> (Left(ranks[r]) < 0 || AllEntered(ranks, Left(ranks[r])))
  }

  ghost predicate CountersOk(ranks: seq<Rank>, store: Store)
    requires ranks != []
  {
    forall g: nat ::
      && (Counter(g) in store <==> CountersGone(ranks[0]) < g && Entered(ranks, g) > 0)
      && (Counter(g) in store ==> store[Counter(g)] == Entered(ranks, g))
  }

  predicate Settled(k: Rank, g: nat)
  {
    Left(k) >= g
  }

  predicate Working(k: Rank, g: nat)
  {
    k.gen == g && (k.pc.Check? || k.pc.Announce?)
  }

  ghost predicate LastWorkersOk(ranks: seq<Rank>, store: Store)
    requires ranks != []
  {
    && (forall g: nat :: LastWorker(g) in store ==>
          store[LastWorker(g)] == 1 && LastWorkersGone(ranks[0]) < g && AllEntered(ranks, g))
    && (forall g: nat, r :: 0 <= r < |ranks| && LastWorkersGone(ranks[0]) < g && Settled(ranks[r], g) ==>
          LastWorker(g) in store)
    && (forall r :: 0 <= r < |ranks| && ranks[r].pc.Announce? ==> AllEntered(ranks, ranks[r].gen))
    && (forall g: nat :: LastWorkersGone(ranks[0]) < g && AllEntered(ranks, g) ==>
          LastWorker(g) in store || exists r :: 0 <= r < |ranks| && Working(ranks[r], g))
  }

  ghost predicate DeletedOk(st: State)
    requires st.ranks != []
  {
    && st.absent == 0
    && (forall g: nat :: Counter(g) in st.deleted ==> g <= CountersGone(st.ranks[0]))
    && (forall g: nat :: LastWorker(g) in st.deleted ==> g <= LastWorkersGone(st.ranks[0]))
  }

  ghost predicate Inv(st: State)
  {
    && PcsOk(st.ranks) && TrashOk(st) && Safe(st.ranks) && CountersOk(st.ranks, st.store)
    && LastWorkersOk(st.ranks, st.store) && DeletedOk(st)
  }

  // ----- counting

  lemma {:induction false} EnteredAll(ranks: seq<Rank>, g: nat)
    ensures Entered(ranks, g) == |ranks| <==> AllEntered(ranks, g)
  {
    if ranks != [] {
      var front := ranks[..|ranks| - 1];
      EnteredAll(front, g);
      assert AllEntered(ranks, g) <==> AllEntered(front, g) && ranks[|ranks| - 1].gen >= g;
    }
  }

  lemma {:induction false} EnteredSome(ranks: seq<Rank>, r: nat, g: nat)
    requires r < |ranks| && ranks[r].gen >= g
    ensures Entered(ranks, g) > 0
  {
    if r < |ranks| - 1 {
      EnteredSome(ranks[..|ranks| - 1], r, g);
    }
  }

  lemma {:induction false} EnteredUpdate(ranks: seq<Rank>, r: nat, k: Rank, g: nat)
    requires r < |ranks|
    ensures Entered(ranks[r := k], g) + (if ranks[r].gen >= g then 1 else 0)
         == Entered(ranks, g) + if k.gen >= g then 1 else 0
  {
    var last := |ranks| - 1;
    if r == last {
      assert ranks[r := k][..last] == ranks[..last];
    } else {
      assert ranks[r := k][..last] == ranks[..last][r := k];
      EnteredUpdate(ranks[..last], r, k, g);
    }
  }

  lemma {:induction false} SameCounters(ranks: seq<Rank>, r: nat, k: Rank, store: Store, more: Store)
    requires r < |ranks| && CountersOk(ranks, store) && k.gen == ranks[r].gen
    requires CountersGone(ranks[r := k][0]) == CountersGone(ranks[0])
    requires forall g: nat :: (Counter(g) in more <==> Counter(g) in store) && Get(more, Counter(g)) == Get(store, Counter(g))
    ensures CountersOk(ranks[r := k], more)
  {
    forall g: nat
      ensures Entered(ranks[r := k], g) == Entered(ranks, g)
    {
      EnteredUpdate(ranks, r, k, g);
    }
  }

  lemma {:induction false} SameAllEntered(ranks: seq<Rank>, r: nat, k: Rank)
    requires r < |ranks| && k.gen == ranks[r].gen
    ensures forall h: nat :: AllEntered(ranks[r := k], h) <==> AllEntered(ranks, h)
  {
    assert forall i :: 0 <= i < |ranks| ==> ranks[r := k][i].gen == ranks[i].gen;
  }

  lemma {:induction false} SameSafe(ranks: seq<Rank>, r: nat, k: Rank)
    requires Safe(ranks) && r < |ranks| && k.gen == ranks[r].gen
    requires Left(k) == Left(ranks[r]) || (Left(k) >= 0 && AllEntered(ranks, Left(k)))
    ensures Safe(ranks[r := k])
  {
    var out := ranks[r := k];
    SameAllEntered(ranks, r, k);
    forall s | 0 <= s < |ranks|
      ensures Left(out[s]) < 0 || AllEntered(out, Left(out[s]))
    {
      if s != r {
        assert out[s] == ranks[s];
      }
    }
  }

  lemma {:induction false} SameSettled(ranks: seq<Rank>, r: nat, k: Rank, store: Store, more: Store, g: nat, s: nat)
    requires r < |ranks| && LastWorkersOk(ranks, store) && k.gen == ranks[r].gen && s < |ranks|
    requires LastWorkersGone(ranks[0]) < g && Settled(ranks[r := k][s], g)
    requires LastWorker(g) in store ==> LastWorker(g) in more
    requires Left(k) == Left(ranks[r]) || LastWorker(k.gen) in more
    ensures LastWorker(g) in more
  {
    if s != r || Settled(ranks[r], g) {
      assert Settled(ranks[s], g);
    }
  }

  lemma {:induction false} SameWorking(ranks: seq<Rank>, r: nat, k: Rank, out: seq<Rank>, store: Store, more: Store,
                                       g: nat)
    requires r < |ranks| && out == ranks[r := k] && LastWorkersOk(ranks, store) && k.gen == ranks[r].gen
    requires LastWorkersGone(ranks[0]) < g && AllEntered(ranks, g) && LastWorker(g) !in more
    requires LastWorker(g) in store ==> LastWorker(g) in more
    requires Working(ranks[r], k.gen) && !Working(k, k.gen) ==> LastWorker(k.gen) in more || !AllEntered(ranks, k.gen)
    ensures exists s :: 0 <= s < |out| && Working(out[s], g)
  {
    var s :| 0 <= s < |ranks| && Working(ranks[s], g);
    assert Working(out[s], g);
  }

  /** A rank moves on inside its generation; `more` differs from `store` in the rank's own last-worker key at most. */
  lemma {:induction false} SameLastWorkers(ranks: seq<Rank>, r: nat, k: Rank, store: Store, more: Store)
    requires r < |ranks| && LastWorkersOk(ranks, store) && k.gen == ranks[r].gen
    requires LastWorkersGone(ranks[r := k][0]) == LastWorkersGone(ranks[0])
    requires forall g: nat :: (LastWorker(g) in store ==> LastWorker(g) in more && more[LastWorker(g)] == store[LastWorker(g)])
    requires forall g: nat :: LastWorker(g) in more && LastWorker(g) !in store ==>
               g == k.gen && more[LastWorker(g)] == 1 && LastWorkersGone(ranks[0]) < g && AllEntered(ranks, g)
    requires k.pc.Announce? ==> AllEntered(ranks, k.gen)
    requires Left(k) == Left(ranks[r]) || LastWorker(k.gen) in more
    requires Working(ranks[r], k.gen) && !Working(k, k.gen) ==> LastWorker(k.gen) in more || !AllEntered(ranks, k.gen)
    ensures LastWorkersOk(ranks[r := k], more)
  {
    hide Settled, Working, LastWorkersGone;
    var out := ranks[r := k];
    SameAllEntered(ranks, r, k);
    forall g: nat, s | 0 <= s < |ranks| && LastWorkersGone(out[0]) < g && Settled(out[s], g)
      ensures LastWorker(g) in more
    {
      SameSettled(ranks, r, k, store, more, g, s);
    }
    forall g: nat | LastWorkersGone(out[0]) < g && AllEntered(out, g) && LastWorker(g) !in more
      ensures exists s :: 0 <= s < |out| && Working(out[s], g)
    {
      SameWorking(ranks, r, k, out, store, more, g);
    }
  }

  // ----- every step keeps it

  lemma {:induction false} EnterKeepsCounters(ranks: seq<Rank>, store: Store, r: nat)
    requires PcsOk(ranks) && Safe(ranks) && CountersOk(ranks, store) && r < |ranks| && ranks[r].pc.Idle?
    ensures CountersOk(ranks[r := Rank(ranks[r].gen + 1, Check)], Add(store, Counter(ranks[r].gen + 1), 1))
  {
    var k := Rank(ranks[r].gen + 1, Check);
    assert AllEntered(ranks, Left(ranks[0]));
    forall g: nat
      ensures Entered(ranks[r := k], g) == Entered(ranks, g) + if g == k.gen then 1 else 0
    {
      EnteredUpdate(ranks, r, k, g);
    }
    assert CountersGone(ranks[r := k][0]) == CountersGone(ranks[0]) < k.gen;
  }

  lemma {:induction false} EnterKeepsSafe(ranks: seq<Rank>, r: nat)
    requires Safe(ranks) && r < |ranks| && ranks[r].pc.Idle?
    ensures Safe(ranks[r := Rank(ranks[r].gen + 1, Check)])
  {
    var out := ranks[r := Rank(ranks[r].gen + 1, Check)];
    forall s | 0 <= s < |ranks|
      ensures Left(out[s]) < 0 || AllEntered(out, Left(out[s]))
    {
      assert Left(out[s]) == Left(ranks[s]);
      if Left(ranks[s]) >= 0 {
        assert AllEntered(ranks, Left(ranks[s]));
      }
    }
  }

  lemma {:induction false} EnterOneMore(ranks: seq<Rank>, r: nat, g: nat)
    requires r < |ranks|
    ensures var k := Rank(ranks[r].gen + 1, Check);
            && (AllEntered(ranks, g) ==> AllEntered(ranks[r := k], g))
            && (AllEntered(ranks[r := k], g) ==> AllEntered(ranks, g) || Working(k, g))
  {
    var k := Rank(ranks[r].gen + 1, Check);
    var out := ranks[r := k];
    if AllEntered(out, g) && g != k.gen {
      forall i | 0 <= i < |ranks|
        ensures ranks[i].gen >= g
      {
        assert out[i].gen >= g;
      }
    }
  }

  lemma {:induction false} EnterKeepsLastWorkers(ranks: seq<Rank>, store: Store, r: nat, more: Store)
    requires PcsOk(ranks) && LastWorkersOk(ranks, store) && r < |ranks| && ranks[r].pc.Idle?
    requires more == Add(store, Counter(ranks[r].gen + 1), 1)
    ensures LastWorkersOk(ranks[r := Rank(ranks[r].gen + 1, Check)], more)
  {
    var k := Rank(ranks[r].gen + 1, Check);
    var out := ranks[r := k];
    assert LastWorkersGone(out[0]) == LastWorkersGone(ranks[0]);
    forall g: nat
      ensures AllEntered(ranks, g) ==> AllEntered(out, g)
      ensures AllEntered(out, g) ==> AllEntered(ranks, g) || Working(k, g)
    {
      EnterOneMore(ranks, r, g);
    }
    hide AllEntered;
    forall g: nat, s | 0 <= s < |ranks| && LastWorkersGone(out[0]) < g && Settled(out[s], g)
      ensures LastWorker(g) in more
    {
      assert Settled(ranks[s], g);
    }
    forall g: nat | LastWorkersGone(out[0]) < g && AllEntered(out, g)
      ensures LastWorker(g) in more || exists s :: 0 <= s < |out| && Working(out[s], g)
    {
      if AllEntered(ranks, g) {
        assert Settled(ranks[r], g);
      } else {
        assert Working(out[r], g);
      }
    }
  }

  lemma {:induction false} EnterKeepsInv(st: State, r: nat)
    requires Inv(st) && r < |st.ranks| && st.ranks[r].pc.Idle?
    ensures Inv(Move(st, r))
  {
    hide CountersOk, LastWorkersOk, Safe;
    EnterKeepsCounters(st.ranks, st.store, r);
    EnterKeepsSafe(st.ranks, r);
    EnterKeepsLastWorkers(st.ranks, st.store, r, Move(st, r).store);
  }

  lemma {:induction false} OwnCounter(st: State, r: nat)
    requires Inv(st) && r < |st.ranks| && Inside(st.ranks[r].pc)
    ensures var k := Counter(st.ranks[r].gen);
            k in st.store && st.store[k] == Entered(st.ranks, st.ranks[r].gen) && Add(st.store, k, 0) == st.store
    ensures CountersGone(st.ranks[0]) < st.ranks[r].gen && LastWorkersGone(st.ranks[0]) < st.ranks[r].gen
  {
    hide LastWorkersOk;
    assert Left(st.ranks[0]) < 0 || AllEntered(st.ranks, Left(st.ranks[0]));
    EnteredSome(st.ranks, r, st.ranks[r].gen);
  }

  lemma {:induction false} InsideKeepsInv(st: State, r: nat, k: Rank, more: Store)
    requires Inv(st) && r < |st.ranks| && Inside(st.ranks[r].pc) && Inside(k.pc) && k.gen == st.ranks[r].gen
    requires CountersOk(st.ranks[r := k], more) && LastWorkersOk(st.ranks[r := k], more)
    ensures Inv(st.(ranks := st.ranks[r := k], store := more))
  {
    hide CountersOk, LastWorkersOk;
    SameSafe(st.ranks, r, k);
    hide Safe;
  }

  lemma {:induction false} CheckKeepsInv(st: State, r: nat)
    requires Inv(st) && r < |st.ranks| && st.ranks[r].pc.Check?
    ensures Inv(Move(st, r))
  {
    var gen := st.ranks[r].gen;
    var k := Move(st, r).ranks[r];
    OwnCounter(st, r);
    EnteredAll(st.ranks, gen);
    SameCounters(st.ranks, r, k, st.store, st.store);
    SameLastWorkers(st.ranks, r, k, st.store, st.store);
    hide Inv, CountersOk, LastWorkersOk, Safe;
    InsideKeepsInv(st, r, k, st.store);
  }

  lemma {:induction false} AnnounceKeepsInv(st: State, r: nat)
    requires Inv(st) && r < |st.ranks| && st.ranks[r].pc.Announce?
    ensures Inv(Move(st, r))
  {
    var k, more := Rank(st.ranks[r].gen, Wait), st.store[LastWorker(st.ranks[r].gen) := 1];
    OwnCounter(st, r);
    SameCounters(st.ranks, r, k, st.store, more);
    SameLastWorkers(st.ranks, r, k, st.store, more);
    hide Inv, CountersOk, LastWorkersOk, Safe;
    InsideKeepsInv(st, r, k, more);
  }

  lemma {:induction false} WaitKeepsInv(st: State, r: nat)
    requires Inv(st) && CanMove(st, r) && st.ranks[r].pc.Wait?
    ensures Inv(Move(st, r))
  {
    var gen := st.ranks[r].gen;
    var k := Rank(gen, if r == 0 then Cleanup else Idle);
    SameCounters(st.ranks, r, k, st.store, st.store);
    SameLastWorkers(st.ranks, r, k, st.store, st.store);
    SameSafe(st.ranks, r, k);
    hide CountersOk, LastWorkersOk, Safe;
  }

  lemma {:induction false} PollKeepsInv(st: State, r: nat)
    requires Inv(st) && CanPoll(st, r)
    ensures Poll(st, r) == st
  {
    OwnCounter(st, r);
  }

  // ----- rank 0's clean-up

  lemma {:induction false} CleanupKeepsInv(st: State)
    requires Inv(st) && st.ranks[0].pc.Cleanup?
    ensures Inv(Move(st, 0))
  {
    var k := Move(st, 0).ranks[0];
    SameCounters(st.ranks, 0, k, st.store, st.store);
    SameLastWorkers(st.ranks, 0, k, st.store, st.store);
    SameSafe(st.ranks, 0, k);
    hide CountersOk, LastWorkersOk, Safe;
  }

  lemma {:induction false} DeleteCounterKeepsCounters(st: State)
    requires Inv(st) && st.ranks[0].pc.DeleteCounter?
    ensures Counter(st.ranks[0].pc.stale) in st.store
    ensures CountersOk(Move(st, 0).ranks, Move(st, 0).store)
  {
    hide LastWorkersOk;
    var gen := st.ranks[0].gen;
    var k := Rank(gen, DeleteLast(gen - 2));
    EnteredSome(st.ranks, 0, gen - 2);
    forall g: nat
      ensures Entered(st.ranks[0 := k], g) == Entered(st.ranks, g)
    {
      EnteredUpdate(st.ranks, 0, k, g);
    }
  }

  lemma {:induction false} DeleteCounterKeepsInv(st: State)
    requires Inv(st) && st.ranks[0].pc.DeleteCounter?
    ensures Inv(Move(st, 0))
  {
    var out := Move(st, 0);
    DeleteCounterKeepsCounters(st);
    SameLastWorkers(st.ranks, 0, out.ranks[0], st.store, out.store);
    SameSafe(st.ranks, 0, out.ranks[0]);
    hide CountersOk, LastWorkersOk, Safe;
  }

  lemma {:induction false} MonusIsDifference(gen: nat)
    requires gen >= 3
    ensures Monus(gen, 2) == gen - 2 && Monus(gen, 3) == gen - 3
  {
  }

  lemma {:induction false} DeleteLastKeepsLastWorkers(st: State)
    requires Inv(st) && st.ranks[0].pc.DeleteLast?
    ensures LastWorker(st.ranks[0].pc.stale) in st.store
    ensures LastWorkersOk(Move(st, 0).ranks, Move(st, 0).store)
  {
    hide CountersOk, Safe, TrashOk, DeletedOk, Monus;
    LastWorkersBetween(st);
    DeletedLastWorkers(st.ranks, st.store);
  }

  lemma {:induction false} LastWorkersBetween(st: State)
    requires Inv(st) && st.ranks[0].pc.DeleteLast?
    ensures st.ranks[0].gen >= 3 && st.ranks[0].pc.stale == st.ranks[0].gen - 2
    ensures Move(st, 0).ranks == st.ranks[0 := Rank(st.ranks[0].gen, Idle)]
    ensures Move(st, 0).store == st.store - {LastWorker(st.ranks[0].gen - 2)}
    ensures LastWorkersOk(st.ranks, st.store)
  {
    hide LastWorkersOk, CountersOk, Safe, TrashOk, DeletedOk;
  }

  lemma {:induction false} DeletedLastWorkers(ranks: seq<Rank>, store: Store)
    requires ranks != [] && LastWorkersOk(ranks, store)
    requires ranks[0].pc.DeleteLast? && ranks[0].gen >= 3 && ranks[0].pc.stale == ranks[0].gen - 2
    ensures LastWorker(ranks[0].gen - 2) in store
    ensures LastWorkersOk(ranks[0 := Rank(ranks[0].gen, Idle)], store - {LastWorker(ranks[0].gen - 2)})
  {
    hide Monus, AllEntered, Settled;
    var gen := ranks[0].gen;
    var k := Rank(gen, Idle);
    var out, less := ranks[0 := k], store - {LastWorker(gen - 2)};
    MonusIsDifference(gen);
    assert LastWorkersGone(k) == gen - 2 && LastWorkersGone(ranks[0]) == gen - 3;
    SameAllEntered(ranks, 0, k);
    SettledSoFar(ranks, gen - 2);
    forall g: nat, s | 0 <= s < |ranks| && gen - 2 < g && Settled(out[s], g)
      ensures LastWorker(g) in less
    {
      SettledThroughout(ranks, s, g);
    }
    forall g: nat | gen - 2 < g && AllEntered(out, g)
      ensures LastWorker(g) in less
    {
      EnteredByRankZero(out, g);
      SettledSoFar(ranks, g);
    }
  }

  lemma {:induction false} SettledSoFar(ranks: seq<Rank>, g: nat)
    requires ranks != [] && ranks[0].pc.DeleteLast? && g <= ranks[0].gen
    ensures Settled(ranks[0], g)
  {
  }

  lemma {:induction false} SettledThroughout(ranks: seq<Rank>, s: nat, g: nat)
    requires s < |ranks| && ranks[0].pc.DeleteLast? && Settled(ranks[0 := Rank(ranks[0].gen, Idle)][s], g)
    ensures Settled(ranks[s], g)
  {
  }

  lemma {:induction false} EnteredByRankZero(ranks: seq<Rank>, g: nat)
    requires ranks != [] && AllEntered(ranks, g)
    ensures g <= ranks[0].gen
  {
  }

  lemma {:induction false} DeleteLastKeepsInv(st: State)
    requires Inv(st) && st.ranks[0].pc.DeleteLast?
    ensures Inv(Move(st, 0))
  {
    var out := Move(st, 0);
    DeleteLastKeepsLastWorkers(st);
    SameCounters(st.ranks, 0, out.ranks[0], st.store, out.store);
    SameSafe(st.ranks, 0, out.ranks[0]);
    hide CountersOk, LastWorkersOk, Safe;
  }

  lemma {:induction false} StepKeepsInv(st: State, step: Step)
    requires Inv(st) && Possible(st, step)
    ensures Inv(Apply(st, step))
  {
    hide Move, Poll, TrashOk, Safe, CountersOk, LastWorkersOk, DeletedOk;
    match step
    case PollStep(r) => PollKeepsInv(st, r);
    case MoveStep(r) =>
      match st.ranks[r].pc
      case Idle => EnterKeepsInv(st, r);
      case Check => CheckKeepsInv(st, r);
      case Announce => AnnounceKeepsInv(st, r);
      case Wait => WaitKeepsInv(st, r);
      case Cleanup => CleanupKeepsInv(st);
      case DeleteCounter(_) => DeleteCounterKeepsInv(st);
      case DeleteLast(_) => DeleteLastKeepsInv(st);
  }

  lemma {:induction false} NobodyEntered(ranks: seq<Rank>, g: nat)
    requires g > 0 && forall r :: 0 <= r < |ranks| ==> ranks[r].gen == 0
    ensures Entered(ranks, g) == 0
  {
    if ranks != [] {
      NobodyEntered(ranks[..|ranks| - 1], g);
    }
  }

  lemma {:induction false} InitialInv(st: State)
    requires Initial(st)
    ensures Inv(st)
  {
    forall g: nat | g > 0
      ensures Entered(st.ranks, g) == 0 && !AllEntered(st.ranks, g)
    {
      NobodyEntered(st.ranks, g);
      assert st.ranks[0].gen < g;
    }
  }

  lemma {:induction false} RunsKeepInv(st: State, run: seq<Step>)
    requires Initial(st)
    ensures Inv(After(st, run))
  {
    hide Initial, Inv, Possible, Move, Poll;
    if run == [] {
      InitialInv(st);
    } else {
      var front, step := run[..|run| - 1], run[|run| - 1];
      RunsKeepInv(st, front);
      if Possible(After(st, front), step) {
        StepKeepsInv(After(st, front), step);
      }
    }
  }

  // ----- what the barrier guarantees

  /** No rank has left a generation that some rank has not entered. */
  lemma {:induction false} BarrierSafety(start: State, run: seq<Step>, r: nat, s: nat)
    requires Initial(start) && r < |After(start, run).ranks| && s < |After(start, run).ranks|
    ensures Left(After(start, run).ranks[r]) <= After(start, run).ranks[s].gen
  {
    RunsKeepInv(start, run);
    if Left(After(start, run).ranks[r]) >= 0 {
      assert AllEntered(After(start, run).ranks, Left(After(start, run).ranks[r]));
    }
  }

  /** The keys that a step adds to, reads, sets, waits for or deletes. */
  function Uses(st: State, step: Step): set<Key>
    requires Possible(st, step)
  {
    match step
    case PollStep(r) => {Counter(st.ranks[r].gen)}
    case MoveStep(r) =>
      var gen := st.ranks[r].gen;
      match st.ranks[r].pc
      case Idle => {Counter(gen + 1)}
      case Check => {Counter(gen)}
      case Announce => {LastWorker(gen)}
      case Wait => {LastWorker(gen)}
      case Cleanup => {}
      case DeleteCounter(stale) => {Counter(stale)}
      case DeleteLast(stale) => {LastWorker(stale)}
  }

  /** A deleted key is never used again: not added to, read, set, waited for or deleted. */
  lemma {:induction false} DeletedKeysAreUnused(start: State, run: seq<Step>, step: Step, k: Key)
    requires Initial(start) && Possible(After(start, run), step) && k in Uses(After(start, run), step)
    ensures k !in After(start, run).deleted
  {
    RunsKeepInv(start, run);
    var st := After(start, run);
    hide CountersOk, LastWorkersOk;
    assert Left(st.ranks[0]) < 0 || AllEntered(st.ranks, Left(st.ranks[0]));
  }

  /** Every deletion finds its key. */
  lemma {:induction false} DeletionsFindTheirKeys(start: State, run: seq<Step>)
    requires Initial(start)
    ensures After(start, run).absent == 0
  {
    RunsKeepInv(start, run);
  }

  /** All keys in the store are of the generations from two before to one after rank 0's. */
  lemma {:induction false} FewGenerations(start: State, run: seq<Step>, k: Key)
    requires Initial(start) && k in After(start, run).store
    ensures After(start, run).ranks != [] && After(start, run).ranks[0].gen - 2 <= k.gen <= After(start, run).ranks[0].gen + 1
  {
    RunsKeepInv(start, run);
    var st := After(start, run);
    match k
    case Counter(g) => SomebodyEntered(st.ranks, g);
    case LastWorker(g) => assert AllEntered(st.ranks, g);
  }

  /** A generation that somebody has entered is at most one ahead of every rank. */
  lemma {:induction false} SomebodyEntered(ranks: seq<Rank>, g: nat)
    requires ranks != [] && Safe(ranks) && Entered(ranks, g) > 0
    ensures g <= ranks[0].gen + 1
  {
    var r := Enterer(ranks, g);
    if Left(ranks[r]) >= 0 {
      assert AllEntered(ranks, Left(ranks[r]));
    }
  }

  ghost function Enterer(ranks: seq<Rank>, g: nat): (r: nat)
    requires Entered(ranks, g) > 0
    ensures r < |ranks| && ranks[r].gen >= g
  {
    if ranks[|ranks| - 1].gen >= g then |ranks| - 1 else Enterer(ranks[..|ranks| - 1], g)
  }

  lemma {:induction false} ReleasedOrAnnounced(st: State, r: nat)
    requires Inv(st) && r < |st.ranks| && st.ranks[r].pc.Wait? && AllEntered(st.ranks, st.ranks[r].gen)
    ensures LastWorker(st.ranks[r].gen) in st.store
            || exists s :: 0 <= s < |st.ranks| && Working(st.ranks[s], st.ranks[r].gen)
  {
    OwnCounter(st, r);
  }

  /** A rank that waits while all have entered can leave, or the last worker is still to announce it. */
  lemma {:induction false} WaitersAreReleased(start: State, run: seq<Step>, r: nat)
    requires Initial(start) && r < |After(start, run).ranks| && After(start, run).ranks[r].pc.Wait?
    requires AllEntered(After(start, run).ranks, After(start, run).ranks[r].gen)
    ensures CanMove(After(start, run), r)
            || exists s :: 0 <= s < |After(start, run).ranks| && Working(After(start, run).ranks[s], After(start, run).ranks[r].gen)
  {
    RunsKeepInv(start, run);
    ReleasedOrAnnounced(After(start, run), r);
  }

  /** When all ranks have left generation `n`, exactly the keys of the last two generations remain. */
  lemma {:induction false} QuietStore(start: State, run: seq<Step>, n: nat, k: Key)
    requires Initial(start)
    requires forall r :: 0 <= r < |After(start, run).ranks| ==> After(start, run).ranks[r] == Rank(n, Idle)
    ensures k in After(start, run).store <==> 1 <= k.gen <= n && k.gen + 2 > n
    ensures k in After(start, run).store ==> After(start, run).store[k] == if k.Counter? then |After(start, run).ranks| else 1
  {
    RunsKeepInv(start, run);
    var st := After(start, run);
    EnteredAll(st.ranks, k.gen);
    assert Settled(st.ranks[0], n);
    if k.gen <= n {
      EnteredSome(st.ranks, 0, k.gen);
      assert Settled(st.ranks[0], k.gen);
    } else if Entered(st.ranks, k.gen) > 0 {
      var r := Enterer(st.ranks, k.gen);
    }
  }

  /** Every rank has made its `calls` calls or is blocked. */
  ghost predicate Quiet(st: State, calls: nat)
  {
    forall r :: 0 <= r < |st.ranks| ==>
      st.ranks[r].gen <= calls && (CanMove(st, r) ==> st.ranks[r] == Rank(calls, Idle))
  }

  lemma {:induction false} NobodyIsBlocked(st: State, calls: nat, r: nat)
    requires Inv(st) && Quiet(st, calls) && r < |st.ranks|
    ensures !st.ranks[r].pc.Wait?
    decreases st.ranks[r].gen
  {
    hide TrashOk, Safe, CountersOk, DeletedOk;
    if st.ranks[r].pc.Wait? {
      var g := st.ranks[r].gen;
      if AllEntered(st.ranks, g) {
        ReleasedOrAnnounced(st, r);
      } else {
        var s :| 0 <= s < |st.ranks| && st.ranks[s].gen < g;
        NobodyIsBlocked(st, calls, s);
      }
    }
  }

  /** When all ranks call the barrier equally often, none is left behind. */
  lemma {:induction false} NoDeadlock(start: State, run: seq<Step>, calls: nat, r: nat)
    requires Initial(start) && Quiet(After(start, run), calls) && r < |After(start, run).ranks|
    ensures After(start, run).ranks[r] == Rank(calls, Idle)
  {
    RunsKeepInv(start, run);
    NobodyIsBlocked(After(start, run), calls, r);
  }
}
