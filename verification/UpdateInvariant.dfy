/** What every reachable state of the update protocol satisfies, whatever the interleaving. */
module UpdateInvariant {
  import opened Transfer
  import opened UpdateProtocol

  // ----- the shared buffer

  lemma {:induction false} PutReplacesHalf(c: Config, buffer: seq<Byte>, g: nat, bytes: seq<Byte>, h: nat)
    requires |buffer| == 2 * c.bucketSize && |bytes| <= c.bucketSize && |c.Content(h)| <= c.bucketSize
    ensures |Put(c, buffer, g, bytes)| == |buffer|
    ensures HoldsAt(Put(c, buffer, g, bytes), c.Start(g), bytes)
    ensures g % 2 != h % 2 && Holds(c, buffer, h) ==> Holds(c, Put(c, buffer, g, bytes), h)
  {
    hide Holds;
    var out, from := Put(c, buffer, g, bytes), c.Start(g);
    assert out == Written(buffer, from, bytes);
    assert out[from..from + |bytes|] == bytes;
    if g % 2 != h % 2 && Holds(c, buffer, h) {
      HalvesAreApart(c, buffer, g, bytes, h);
    }
  }

  lemma {:induction false} HalvesAreApart(c: Config, buffer: seq<Byte>, g: nat, bytes: seq<Byte>, h: nat)
    requires |buffer| == 2 * c.bucketSize && |bytes| <= c.bucketSize && |c.Content(h)| <= c.bucketSize
    requires g % 2 != h % 2 && Holds(c, buffer, h)
    ensures Holds(c, Put(c, buffer, g, bytes), h)
  {
    var from, at, len := c.Start(g), c.Start(h), |c.Content(h)|;
    var out := Written(buffer, from, bytes);
    assert at + len <= from || from + |bytes| <= at;
    assert forall i :: at <= i < at + len ==> out[i] == buffer[i];
    assert out[at..at + len] == buffer[at..at + len];
  }

  lemma {:induction false} ContentFits(c: Config, g: nat)
    requires c.Valid()
    ensures |c.Content(g)| <= c.bucketSize
  {
  }

  lemma {:induction false} PutHolds(c: Config, buffer: seq<Byte>, g: nat, bytes: seq<Byte>, k: nat)
    requires c.Valid() && |buffer| == 2 * c.bucketSize && |bytes| == |c.Content(g)|
    requires (k == g && bytes == c.Content(g)) || (k % 2 != g % 2 && Holds(c, buffer, k))
    ensures |Put(c, buffer, g, bytes)| == |buffer| && Holds(c, Put(c, buffer, g, bytes), k)
  {
    hide Put;
    ContentFits(c, g);
    ContentFits(c, k);
    PutReplacesHalf(c, buffer, g, bytes, k);
  }

  /** Overwriting a half is fine if every bucket that must stay is in the other one. */
  lemma {:induction false} PutKeepsBuffer(c: Config, r: nat, p: Pair, g: nat, bytes: seq<Byte>, q: Pair)
    requires c.Valid() && BufferOk(c, r, p) && q.buffer == Put(c, p.buffer, g, bytes) && |bytes| == |c.Content(g)|
    requires forall k: nat :: Live(c, r, q.rank, k) ==>
               (k == g && bytes == c.Content(g)) || (k % 2 != g % 2 && Live(c, r, p.rank, k))
    ensures BufferOk(c, r, q)
  {
    hide Put, Holds, Live;
    ContentFits(c, g);
    PutReplacesHalf(c, p.buffer, g, bytes, g);
    forall k | Live(c, r, q.rank, k)
      ensures Holds(c, q.buffer, k)
    {
      PutHolds(c, p.buffer, g, bytes, k);
    }
  }

  lemma {:induction false} StageKeepsBuffer(c: Config, r: nat, p: Pair, g: nat, bytes: seq<Byte>)
    requires c.Valid() && BufferOk(c, r, p) && p.rank == Stage(g)
    requires |bytes| == |c.Content(g)| && (r == c.Source(g) ==> bytes == c.Content(g))
    ensures BufferOk(c, r, p.(buffer := Put(c, p.buffer, g, bytes), rank := Receive(g)))
  {
    hide Put, Holds, BufferOk;
    PutKeepsBuffer(c, r, p, g, bytes, p.(buffer := Put(c, p.buffer, g, bytes), rank := Receive(g)));
  }

  lemma {:induction false} BranchKeepsBuffer(c: Config, r: nat, p: Pair, g: nat, from: seq<Byte>, q: Pair)
    requires c.Valid() && BufferOk(c, r, p) && p.rank.Branch? && p.rank.g == g && Holds(c, from, g)
    requires q.buffer == Put(c, p.buffer, g, Slice(c, from, g))
    requires Synced(c.Buckets(), q.rank) == Staged(c.Buckets(), q.rank) == g + 1
    ensures BufferOk(c, r, q)
  {
    hide Put, BufferOk;
    assert Slice(c, from, g) == c.Content(g);
    PutKeepsBuffer(c, r, p, g, c.Content(g), q);
  }

  lemma {:induction false} SameBufferOk(c: Config, r: nat, p: Pair, q: Pair)
    requires BufferOk(c, r, p) && q.buffer == p.buffer
    requires Staged(c.Buckets(), q.rank) == Staged(c.Buckets(), p.rank)
    requires Synced(c.Buckets(), q.rank) == Synced(c.Buckets(), p.rank)
    ensures BufferOk(c, r, q)
  {
    forall k | Live(c, r, q.rank, k)
      ensures Holds(c, q.buffer, k)
    {
      assert Live(c, r, p.rank, k);
    }
  }

  // ----- the staging buffer

  lemma {:induction false} FetchedFits(c: Config, r: nat, g: nat)
    requires c.Valid() && c.Fetches(r, g)
    ensures |c.Fetched(r, g)| <= c.bucketSize
  {
  }

  lemma {:induction false} FetchFillsStaging(c: Config, r: nat, p: Pair)
    requires c.Valid() && StagingOk(c, r, p) && p.rank.Fetch?
    ensures StagingOk(c, r, p.(h2d := AfterFetch(c, r, p.rank.g, p.h2d), rank := Stage(p.rank.g)))
  {
    var g := p.rank.g;
    if c.Fetches(r, g) {
      FetchedFits(c, r, g);
      assert Written(p.h2d, 0, c.Fetched(r, g))[0..|c.Fetched(r, g)|] == c.Fetched(r, g);
    }
  }

  /** Only a fetch writes the staging buffer, and every step of the loop begins with one. */
  lemma {:induction false} RankKeepsStaging(c: Config, r: nat, p: Pair, from: seq<Byte>, noise: seq<Byte>)
    requires c.Valid() && StagingOk(c, r, p) && RankMove(c, r, p, from, noise).Some?
    ensures StagingOk(c, r, RankMove(c, r, p, from, noise).value)
  {
    hide Put, Slice, StagedBytes, AfterFetch, HoldsAt;
    if p.rank.Fetch? {
      FetchFillsStaging(c, r, p);
    }
  }

  /** What the source copies into the shared buffer is the bucket whose turn it is. */
  lemma {:induction false} StagedIsContent(c: Config, r: nat, p: Pair)
    requires c.Valid() && StagingOk(c, r, p) && p.rank.Stage? && p.rank.g < c.Buckets() && r == c.Source(p.rank.g)
    ensures StagedBytes(c, p.rank.g, p.h2d) == c.Content(p.rank.g)
  {
    var g := p.rank.g;
    assert c.CopiesContent(g);
    if c.useH2D {
      FetchedFits(c, r, g);
      assert p.h2d[0..|c.Content(g)|] == p.h2d[..|c.Content(g)|];
    }
  }

  /** Receiving the broadcast needs the source's half to hold the bucket at that moment. */
  lemma {:induction false} RankKeepsBuffer(c: Config, r: nat, p: Pair, from: seq<Byte>, noise: seq<Byte>)
    requires c.Valid() && BufferOk(c, r, p) && StagingOk(c, r, p) && InRange(c.Buckets(), p.rank) && RankMove(c, r, p, from, noise).Some?
    requires p.rank.Branch? ==> Holds(c, from, p.rank.g)
    ensures BufferOk(c, r, RankMove(c, r, p, from, noise).value)
  {
    hide BufferOk, Put, Slice, Holds, StagedBytes, AfterFetch, StagingOk;
    var q := RankMove(c, r, p, from, noise).value;
    if p.rank.Stage? {
      var g := p.rank.g;
      if r == c.Source(g) {
        StagedIsContent(c, r, p);
      }
      StageKeepsBuffer(c, r, p, g, if r == c.Source(g) then StagedBytes(c, g, p.h2d) else noise);
    } else if p.rank.Branch? {
      BranchKeepsBuffer(c, r, p, p.rank.g, from, q);
    } else {
      SameBufferOk(c, r, p, q);
    }
  }

  // ----- what the worker reads

  /** While the worker runs on bucket `g`, the rank has synchronised it and not begun to overwrite it. */
  lemma {:induction false} RunningIsLive(c: Config, r: nat, p: Pair, g: nat)
    requires Talk(c, p) && p.worker == Running(g)
    ensures Live(c, r, p.rank, g)
    ensures p.rank == Fetch(g + 1) || p.rank == Stage(g + 1) || p.rank == Receive(g + 1) || (p.rank.DrainLast? && g == c.Buckets() - 1)
  {
    BusyWorker(c, p);
    assert p.Sent() == p.heard;
    assert p.heard[g + 1] == Expected(c.Buckets(), p.rank, g + 1);
  }

  lemma {:induction false} WorkerKeepsSeen(c: Config, r: nat, p: Pair, ok: bool)
    requires Talk(c, p) && BufferOk(c, r, p) && SeenOk(c, p) && WorkerMove(p, ok).Some?
    ensures SeenOk(c, WorkerMove(p, ok).value)
  {
    hide BufferOk, Holds, FollowsScript, Replies, Counts;
    var q := WorkerMove(p, ok).value;
    if p.worker.Running? {
      BusyWorker(c, p);
      RunningIsLive(c, r, p, p.worker.g);
      LiveHolds(c, r, p, p.worker.g);
      assert q.seen == p.seen + [p.buffer];
    } else if q.chan.Reply? {
      BusyOrReplied(c, p);
    } else {
      assert q.Acks() == p.Acks();
    }
  }

  lemma {:induction false} LiveHolds(c: Config, r: nat, p: Pair, g: nat)
    requires BufferOk(c, r, p) && Live(c, r, p.rank, g)
    ensures Holds(c, p.buffer, g)
  {
  }

  lemma {:induction false} BusyOrReplied(c: Config, p: Pair)
    requires Talk(c, p) && !p.worker.Running? && WorkerMove(p, true).Some? && WorkerMove(p, true).value.chan.Reply?
    ensures p.chan.Empty? && |p.Acks()| == |p.got|
    ensures |p.got| == 0 || |p.got| > c.Buckets()
  {
    BusyWorker(c, p);
  }

  lemma {:induction false} RankKeepsSeen(c: Config, r: nat, p: Pair, from: seq<Byte>, noise: seq<Byte>)
    requires Talk(c, p) && SeenOk(c, p) && RankMove(c, r, p, from, noise).Some?
    ensures SeenOk(c, RankMove(c, r, p, from, noise).value)
  {
    hide Put, Slice, Holds, StagedBytes, AfterFetch;
    var q := RankMove(c, r, p, from, noise).value;
    TalkFacts(c, p);
    assert q.Acks() == p.Acks();
  }

  /** Everything that holds of rank `r` and its worker. */
  ghost predicate PairOk(c: Config, r: nat, p: Pair)
  {
    Talk(c, p) && BufferOk(c, r, p) && StagingOk(c, r, p) && SeenOk(c, p)
  }

  lemma {:induction false} RankKeepsPair(c: Config, r: nat, p: Pair, from: seq<Byte>, noise: seq<Byte>)
    requires c.Valid() && PairOk(c, r, p) && RankMove(c, r, p, from, noise).Some?
    requires p.rank.Branch? ==> Holds(c, from, p.rank.g)
    ensures PairOk(c, r, RankMove(c, r, p, from, noise).value)
  {
    hide Talk, BufferOk, StagingOk, SeenOk, RankMove;
    TalkFacts(c, p);
    RankKeepsTalk(c, r, p, from, noise);
    RankKeepsBuffer(c, r, p, from, noise);
    RankKeepsStaging(c, r, p, from, noise);
    RankKeepsSeen(c, r, p, from, noise);
  }

  lemma {:induction false} SameStagingOk(c: Config, r: nat, p: Pair, q: Pair)
    requires StagingOk(c, r, p) && q.h2d == p.h2d
    requires q.rank == p.rank || (p.rank.Reduce? && q.rank.Branch? && q.rank.g == p.rank.g)
    ensures StagingOk(c, r, q)
  {
  }

  lemma {:induction false} WorkerKeepsPair(c: Config, r: nat, p: Pair, ok: bool)
    requires c.Valid() && PairOk(c, r, p) && WorkerMove(p, ok).Some?
    ensures PairOk(c, r, WorkerMove(p, ok).value)
    ensures WorkerMove(p, ok).value.rank == p.rank
  {
    hide Talk, BufferOk, SeenOk, StagingOk;
    WorkerKeepsTalk(c, p, ok);
    SameStagingOk(c, r, p, WorkerMove(p, ok).value);
    SameBufferOk(c, r, p, WorkerMove(p, ok).value);
    WorkerKeepsSeen(c, r, p, ok);
  }

  // ----- the ranks move in lockstep

  /** How many all-reduces a rank has passed. */
  function Phase(n: nat, pc: RankPc): nat
  {
    match pc
    case Branch(g, _) => g + 1
    case Raised(g) => g + 1
    case Receive(g) => g
    case Reduce(g, _) => g
    case _ => Staged(n, pc)
  }

  /** The rank acts on the outcome of the last all-reduce. */
  predicate Obeys(pc: RankPc, failed: bool)
  {
    if pc.Branch? then pc.failed == failed else pc.Raised? == failed
  }

  ghost predicate Lockstep(c: Config, st: State)
  {
    forall r :: 0 <= r < |st.pairs| ==>
      Phase(c.Buckets(), st.pairs[r].rank) == st.reduces && Obeys(st.pairs[r].rank, st.failed)
  }

  ghost predicate PairsOk(c: Config, st: State)
  {
    forall r :: 0 <= r < |st.pairs| ==> PairOk(c, r, st.pairs[r])
  }

  /** Reply `k` of this worker was an error. */
  predicate BadReply(p: Pair, k: int)
  {
    0 <= k < |p.got| && !p.got[k]
  }

  /** A failed all-reduce had a reason. */
  ghost predicate Blamed(st: State)
  {
    st.failed ==> exists r :: 0 <= r < |st.pairs| && BadReply(st.pairs[r], st.reduces - 1)
  }

  ghost predicate Inv(c: Config, st: State)
  {
    |st.pairs| == c.ranks && PairsOk(c, st) && Lockstep(c, st) && Blamed(st)
  }

  lemma {:induction false} RankKeepsPhase(c: Config, r: nat, p: Pair, from: seq<Byte>, noise: seq<Byte>, failed: bool)
    requires c.Valid() && InRange(c.Buckets(), p.rank) && RankMove(c, r, p, from, noise).Some? && Obeys(p.rank, failed)
    ensures var q := RankMove(c, r, p, from, noise).value;
            && Phase(c.Buckets(), q.rank) == Phase(c.Buckets(), p.rank) && Obeys(q.rank, failed)
            && p.got <= q.got
  {
    hide Put, Slice, StagedBytes, AfterFetch;
  }

  /** When a rank takes over the broadcast, the source's half still holds the bucket. */
  lemma {:induction false} SourceIsReady(c: Config, st: State, r: nat)
    requires c.Valid() && Inv(c, st) && r < |st.pairs| && st.pairs[r].rank.Branch?
    ensures Holds(c, SourceBuffer(c, st, r), st.pairs[r].rank.g)
  {
    var g := st.pairs[r].rank.g;
    assert InRange(c.Buckets(), st.pairs[r].rank) by {
      assert PairOk(c, r, st.pairs[r]);
      TalkFacts(c, st.pairs[r]);
    }
    var s := c.Source(g);
    assert PairOk(c, s, st.pairs[s]);
    hide Talk, BufferOk, StagingOk, SeenOk, Holds;
    TalkFacts(c, st.pairs[s]);
    LiveHolds(c, s, st.pairs[s], g);
  }

  lemma {:induction false} InvAt(c: Config, st: State, r: nat)
    requires Inv(c, st) && r < |st.pairs|
    ensures PairOk(c, r, st.pairs[r]) && Phase(c.Buckets(), st.pairs[r].rank) == st.reduces
    ensures Obeys(st.pairs[r].rank, st.failed)
  {
  }

  lemma {:induction false} ReplacingKeepsInv(c: Config, st: State, r: nat, q: Pair)
    requires Inv(c, st) && r < |st.pairs|
    requires PairOk(c, r, q) && st.pairs[r].got <= q.got
    requires Phase(c.Buckets(), q.rank) == st.reduces && Obeys(q.rank, st.failed)
    ensures Inv(c, st.(pairs := st.pairs[r := q]))
  {
    hide PairOk, Phase, Obeys;
    var out := st.(pairs := st.pairs[r := q]);
    if st.failed {
      var s :| 0 <= s < |st.pairs| && BadReply(st.pairs[s], st.reduces - 1);
      assert BadReply(out.pairs[s], st.reduces - 1);
    }
  }

  lemma {:induction false} RankStepKeepsInv(c: Config, st: State, r: nat, noise: seq<Byte>)
    requires c.Valid() && Inv(c, st) && Apply(c, st, RankStep(r, noise)).Some?
    ensures Inv(c, Apply(c, st, RankStep(r, noise)).value)
  {
    hide PairOk, Inv, RankMove, SourceBuffer;
    var p, from := st.pairs[r], SourceBuffer(c, st, r);
    InvAt(c, st, r);
    PairInRange(c, r, p);
    if p.rank.Branch? {
      SourceIsReady(c, st, r);
    }
    RankKeepsPair(c, r, p, from, noise);
    RankKeepsPhase(c, r, p, from, noise, st.failed);
    ReplacingKeepsInv(c, st, r, RankMove(c, r, p, from, noise).value);
  }

  lemma {:induction false} PairInRange(c: Config, r: nat, p: Pair)
    requires PairOk(c, r, p)
    ensures InRange(c.Buckets(), p.rank)
  {
    TalkFacts(c, p);
  }

  lemma {:induction false} WorkerStepKeepsInv(c: Config, st: State, r: nat, ok: bool)
    requires c.Valid() && Inv(c, st) && Apply(c, st, WorkerStep(r, ok)).Some?
    ensures Inv(c, Apply(c, st, WorkerStep(r, ok)).value)
  {
    hide PairOk, Inv, Phase, Obeys;
    InvAt(c, st, r);
    WorkerKeepsPair(c, r, st.pairs[r], ok);
    ReplacingKeepsInv(c, st, r, WorkerMove(st.pairs[r], ok).value);
  }

  // ----- the all-reduce

  lemma {:induction false} ReduceKeepsPair(c: Config, r: nat, p: Pair, failed: bool)
    requires PairOk(c, r, p) && p.rank.Reduce? && (p.rank.err ==> failed)
    ensures PairOk(c, r, p.(rank := Branch(p.rank.g, failed)))
    ensures p.rank.err ==> BadReply(p, p.rank.g)
  {
    hide BufferOk, SeenOk, StagingOk;
    var q := p.(rank := Branch(p.rank.g, failed));
    QuietKeepsTalk(c, p, q);
    SameStagingOk(c, r, p, q);
    SameBufferOk(c, r, p, q);
    SeenUnchanged(c, p, q);
  }

  lemma {:induction false} SeenUnchanged(c: Config, p: Pair, q: Pair)
    requires SeenOk(c, p) && q.seen == p.seen && q.chan == p.chan && q.got == p.got
    ensures SeenOk(c, q)
  {
  }

  lemma {:induction false} AllReduceKeepsInv(c: Config, st: State)
    requires c.Valid() && Inv(c, st) && Apply(c, st, AllReduce).Some?
    ensures Inv(c, Apply(c, st, AllReduce).value)
  {
    hide PairOk;
    var failed := AnyError(st.pairs);
    var out := Apply(c, st, AllReduce).value;
    forall r | 0 <= r < |st.pairs|
      ensures PairOk(c, r, out.pairs[r])
      ensures st.pairs[r].rank.err ==> BadReply(out.pairs[r], st.reduces)
    {
      ReduceKeepsPair(c, r, st.pairs[r], failed);
    }
    if failed {
      var r :| 0 <= r < |st.pairs| && st.pairs[r].rank.err;
      assert BadReply(out.pairs[r], out.reduces - 1);
    }
  }

  // ----- the invariant holds over every run

  lemma {:induction false} InitialInv(c: Config, st: State)
    requires c.Valid() && Initial(c, st)
    ensures Inv(c, st)
  {
    forall r | 0 <= r < |st.pairs|
      ensures PairOk(c, r, st.pairs[r])
    {
      InitialPairOk(c, r, st.pairs[r]);
    }
  }

  lemma {:induction false} InitialPairOk(c: Config, r: nat, p: Pair)
    requires p == Pair(Connect, Empty, p.buffer, p.h2d, AwaitHandle, [], [], [])
    requires |p.buffer| == 2 * c.bucketSize && |p.h2d| == c.bucketSize
    ensures PairOk(c, r, p)
  {
  }

  lemma {:induction false} StepKeepsInv(c: Config, st: State, step: Step)
    requires c.Valid() && Inv(c, st) && Apply(c, st, step).Some?
    ensures Inv(c, Apply(c, st, step).value)
  {
    hide Inv, Apply;
    match step
    case RankStep(r, noise) => RankStepKeepsInv(c, st, r, noise);
    case WorkerStep(r, ok) => WorkerStepKeepsInv(c, st, r, ok);
    case AllReduce => AllReduceKeepsInv(c, st);
  }

  /** The invariant holds after every run from an initial state. */
  lemma {:induction false} RunsKeepInv(c: Config, st: State, run: seq<Step>)
    requires c.Valid() && Initial(c, st) && After(c, st, run).Some?
    ensures Inv(c, After(c, st, run).value)
  {
    hide Inv, Initial, Apply;
    if run == [] {
      InitialInv(c, st);
    } else {
      var front := run[..|run| - 1];
      RunsKeepInv(c, st, front);
      StepKeepsInv(c, After(c, st, front).value, run[|run| - 1]);
    }
  }
}
