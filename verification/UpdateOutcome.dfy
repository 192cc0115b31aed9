/** What the update protocol guarantees over whole runs. */
module UpdateOutcome {
  import opened Transfer
  import opened UpdateInvariant
  import opened UpdateProtocol

  // ----- safety

  /** A broadcast into this half of the buffer has begun and is not yet synchronised. */
  predicate InFlight(pc: RankPc, half: nat)
  {
    (pc.Receive? || pc.Reduce? || pc.Branch?) && pc.g % 2 == half
  }

  /**
   Double-buffer safety: in every interleaving, while a worker reads bucket `g` no broadcast into
   that half is in flight, and the half holds exactly that bucket.
   */
  lemma {:induction false} DoubleBufferSafety(c: Config, st: State, run: seq<Step>, r: nat, g: nat)
    requires c.Valid() && Initial(c, st) && After(c, st, run).Some? && r < c.ranks
    ensures |After(c, st, run).value.pairs| == c.ranks
    ensures var p := After(c, st, run).value.pairs[r];
            p.worker == Running(g) ==> !InFlight(p.rank, g % 2) && Holds(c, p.buffer, g)
  {
    RunsKeepInv(c, st, run);
    var p := After(c, st, run).value.pairs[r];
    InvAt(c, After(c, st, run).value, r);
    if p.worker == Running(g) {
      RunningIsLive(c, r, p, g);
      LiveHolds(c, r, p, g);
    }
  }

  /**
   From the copy at the start of a step until the end of the source's turn in that step, the source's
   staging buffer holds exactly the bucket that it is to broadcast.
   */
  lemma {:induction false} StagingHoldsBucket(c: Config, st: State, run: seq<Step>, g: nat)
    requires c.Valid() && Initial(c, st) && After(c, st, run).Some? && g < c.Buckets() && c.useH2D
    ensures |After(c, st, run).value.pairs| == c.ranks > c.Source(g)
    ensures var p := After(c, st, run).value.pairs[c.Source(g)];
            InStep(p.rank) && c.Step(p.rank.g) == c.Step(g) ==> HoldsAt(p.h2d, 0, c.Content(g))
  {
    RunsKeepInv(c, st, run);
    InvAt(c, After(c, st, run).value, c.Source(g));
    assert c.CopiesContent(g);
  }

  predicate RankSends(pc: RankPc)
  {
    pc.Connect? || pc.Branch? || pc.SendRelease? || pc.SendHook?
  }

  predicate RankWaits(pc: RankPc)
  {
    pc.Receive? || pc.DrainLast? || pc.AwaitRelease? || pc.AwaitHook?
  }

  predicate WorkerReplies(pc: WorkerPc)
  {
    pc.Attaching? || pc.Running? || pc.Releasing? || pc.Hooking?
  }

  predicate WorkerWaits(pc: WorkerPc)
  {
    pc.AwaitHandle? || pc.AttachFailed? || pc.AwaitPayload? || pc.AwaitLast?
  }

  /** Both sides alternate strictly, and never wait for each other with nothing in transit. */
  lemma {:induction false} SocketDiscipline(c: Config, st: State, run: seq<Step>, r: nat)
    requires c.Valid() && Initial(c, st) && After(c, st, run).Some? && r < c.ranks
    ensures |After(c, st, run).value.pairs| == c.ranks
    ensures var p := After(c, st, run).value.pairs[r];
            && (RankSends(p.rank) ==> p.chan.Empty? && |p.heard| == |p.got|)
            && (WorkerReplies(p.worker) ==> p.chan.Empty? && |p.heard| == |p.got| + 1)
            && (RankWaits(p.rank) && WorkerWaits(p.worker) ==> !p.chan.Empty?)
  {
    RunsKeepInv(c, st, run);
    var p := After(c, st, run).value.pairs[r];
    InvAt(c, After(c, st, run).value, r);
    TalkFacts(c, p);
    if WorkerReplies(p.worker) {
      BusyWorker(c, p);
    }
    if RankWaits(p.rank) && WorkerWaits(p.worker) && p.chan.Empty? {
      SomebodyCanMove(c, p);
    }
  }

  /** A waiting rank's worker has something to do. */
  lemma {:induction false} SomebodyCanMove(c: Config, p: Pair)
    requires c.Valid() && Talk(c, p) && RankWaits(p.rank) && p.chan.Empty?
    ensures WorkerReplies(p.worker)
  {
    assert p.Sent() == p.heard && p.Acks() == p.got;
    if p.worker.Crashed? {
      CrashMeansRaised(c, p);
    }
  }

  /** A worker stops by raising only after its rank has raised. */
  lemma {:induction false} CrashMeansRaised(c: Config, p: Pair)
    requires Talk(c, p) && p.worker.Crashed?
    ensures p.rank.Raised? && |p.heard| == p.rank.g + 2 && |p.got| == p.rank.g + 1
  {
    var k := |p.Acks()|;
    assert p.Sent()[k] == p.heard[k] == Failure;
    assert Expected(c.Buckets(), p.rank, k) == Failure;
  }

  /** What worker and rank have exchanged is the script, up to a failure notice. */
  lemma {:induction false} ExchangesFollowScript(c: Config, st: State, run: seq<Step>, r: nat, k: nat)
    requires c.Valid() && Initial(c, st) && After(c, st, run).Some? && r < c.ranks
    ensures |After(c, st, run).value.pairs| == c.ranks
    ensures var p := After(c, st, run).value.pairs[r];
            && (k < |p.heard| ==> p.heard[k] == Script(c.Buckets(), k) || (p.heard[k] == Failure && k == |p.heard| - 1))
            && (k < |p.seen| ==> Holds(c, p.seen[k], k))
            && |p.seen| <= c.Buckets()
  {
    RunsKeepInv(c, st, run);
    var p := After(c, st, run).value.pairs[r];
    InvAt(c, After(c, st, run).value, r);
    if k < |p.heard| {
      assert p.Sent()[k] == p.heard[k];
    }
  }

  /**
   Once any worker has been told to release its handle, every worker has answered the handle and
   every payload but the last without error.
   */
  lemma {:induction false} ReleaseMeansAllWell(c: Config, st: State, run: seq<Step>, r: nat, s: nat, k: nat)
    requires c.Valid() && Initial(c, st) && After(c, st, run).Some? && r < c.ranks && s < c.ranks && k < c.Buckets()
    ensures |After(c, st, run).value.pairs| == c.ranks
    ensures var pairs := After(c, st, run).value.pairs;
            Nothing in pairs[r].heard ==> k < |pairs[s].got| && pairs[s].got[k]
  {
    RunsKeepInv(c, st, run);
    var out := After(c, st, run).value;
    InvAt(c, out, r);
    InvAt(c, out, s);
    if Nothing in out.pairs[r].heard {
      ToldToRelease(c, out.pairs[r]);
      PastAllReduces(c, out.pairs[s], k);
    }
  }

  lemma {:induction false} ToldToRelease(c: Config, p: Pair)
    requires Talk(c, p) && Nothing in p.heard
    ensures Phase(c.Buckets(), p.rank) == c.Buckets() && !p.rank.Branch? && !p.rank.Raised?
  {
    var k :| 0 <= k < |p.heard| && p.heard[k] == Nothing;
    assert p.Sent()[k] == Nothing;
  }

  lemma {:induction false} PastAllReduces(c: Config, p: Pair, k: nat)
    requires Talk(c, p) && Phase(c.Buckets(), p.rank) == c.Buckets() && Obeys(p.rank, false) && k < c.Buckets()
    ensures k < |p.got| && p.got[k]
  {
  }

  // ----- termination

  function RankProgress(n: nat, pc: RankPc): nat
  {
    match pc
    case Connect => 0
    case Fetch(g) => 1 + 5 * g
    case Stage(g) => 2 + 5 * g
    case Receive(g) => 3 + 5 * g
    case Reduce(g, _) => 4 + 5 * g
    case Branch(g, _) => 5 + 5 * g
    case Raised(g) => 6 + 5 * g
    case DrainLast => 1 + 5 * n
    case SendRelease => 2 + 5 * n
    case AwaitRelease => 3 + 5 * n
    case SendHook => 4 + 5 * n
    case AwaitHook => 5 + 5 * n
    case Finished => 6 + 5 * n
  }

  /** How far a rank and its worker have got. */
  function Progress(n: nat, p: Pair): nat
  {
    RankProgress(n, p.rank) + |p.heard| + |p.Acks()|
  }

  function TotalProgress(n: nat, pairs: seq<Pair>): nat
  {
    if pairs == [] then 0 else TotalProgress(n, pairs[..|pairs| - 1]) + Progress(n, pairs[|pairs| - 1])
  }

  lemma {:induction false} ProgressIsBounded(c: Config, p: Pair)
    requires Talk(c, p)
    ensures Progress(c.Buckets(), p) <= 7 * c.Buckets() + 12
  {
  }

  lemma {:induction false} TotalIsBounded(c: Config, pairs: seq<Pair>, bound: nat)
    requires forall r :: 0 <= r < |pairs| ==> Progress(c.Buckets(), pairs[r]) <= bound
    ensures TotalProgress(c.Buckets(), pairs) <= |pairs| * bound
  {
    hide Progress;
    if pairs != [] {
      TotalIsBounded(c, pairs[..|pairs| - 1], bound);
      OneMoreTime(|pairs| - 1, bound);
    }
  }

  lemma {:induction false} OneMoreTime(n: nat, bound: nat)
    ensures (n + 1) * bound == n * bound + bound
  {
  }

  lemma {:induction false} ReplacingChangesTotal(n: nat, pairs: seq<Pair>, r: nat, q: Pair)
    requires r < |pairs|
    ensures TotalProgress(n, pairs[r := q]) + Progress(n, pairs[r]) == TotalProgress(n, pairs) + Progress(n, q)
  {
    hide Progress;
    var last := |pairs| - 1;
    if r == last {
      assert pairs[r := q][..last] == pairs[..last];
    } else {
      assert pairs[r := q][..last] == pairs[..last][r := q];
      ReplacingChangesTotal(n, pairs[..last], r, q);
    }
  }

  lemma {:induction false} RankMakesProgress(c: Config, r: nat, p: Pair, from: seq<Byte>, noise: seq<Byte>)
    requires Talk(c, p) && RankMove(c, r, p, from, noise).Some?
    ensures Progress(c.Buckets(), RankMove(c, r, p, from, noise).value) > Progress(c.Buckets(), p)
  {
    hide Put, Slice, StagedBytes, AfterFetch;
    TalkFacts(c, p);
    var q := RankMove(c, r, p, from, noise).value;
    assert q.Acks() == p.Acks();
  }

  lemma {:induction false} WorkerMakesProgress(c: Config, p: Pair, ok: bool)
    requires Talk(c, p) && WorkerMove(p, ok).Some?
    ensures Progress(c.Buckets(), WorkerMove(p, ok).value) > Progress(c.Buckets(), p)
  {
    var q := WorkerMove(p, ok).value;
    if WorkerReplies(p.worker) {
      BusyWorker(c, p);
      assert |q.Acks()| == |p.got| + 1;
    } else {
      assert |q.Acks()| == |p.got|;
    }
  }

  lemma {:induction false} ReduceMakesProgress(n: nat, pairs: seq<Pair>, out: seq<Pair>, failed: bool)
    requires AtReduce(pairs) && |out| == |pairs|
    requires forall r :: 0 <= r < |pairs| ==> out[r] == pairs[r].(rank := Branch(pairs[r].rank.g, failed))
    ensures TotalProgress(n, out) == TotalProgress(n, pairs) + |pairs|
  {
    if pairs != [] {
      var last := |pairs| - 1;
      assert out[last].Acks() == pairs[last].Acks();
      ReduceMakesProgress(n, pairs[..last], out[..last], failed);
    }
  }

  /** Every step makes progress, so the protocol's messages are used up. */
  lemma {:induction false} StepsMakeProgress(c: Config, st: State, step: Step)
    requires c.Valid() && Inv(c, st) && Apply(c, st, step).Some?
    ensures TotalProgress(c.Buckets(), Apply(c, st, step).value.pairs) > TotalProgress(c.Buckets(), st.pairs)
  {
    hide Inv, RankMove, WorkerMove, TotalProgress, Progress, SourceBuffer, PairOk, Talk;
    match step
    case RankStep(r, noise) =>
      var q := RankMove(c, r, st.pairs[r], SourceBuffer(c, st, r), noise).value;
      PairTalks(c, st, r);
      RankMakesProgress(c, r, st.pairs[r], SourceBuffer(c, st, r), noise);
      ReplacingChangesTotal(c.Buckets(), st.pairs, r, q);
    case WorkerStep(r, ok) =>
      PairTalks(c, st, r);
      WorkerMakesProgress(c, st.pairs[r], ok);
      ReplacingChangesTotal(c.Buckets(), st.pairs, r, WorkerMove(st.pairs[r], ok).value);
    case AllReduce =>
      PairTalks(c, st, 0);
      ReduceMakesProgress(c.Buckets(), st.pairs, Apply(c, st, step).value.pairs, AnyError(st.pairs));
  }

  lemma {:induction false} PairTalks(c: Config, st: State, r: nat)
    requires c.Valid() && Inv(c, st)
    ensures |st.pairs| == c.ranks >= 1
    ensures r < |st.pairs| ==> Talk(c, st.pairs[r])
  {
    if r < |st.pairs| {
      InvAt(c, st, r);
    }
  }

  lemma {:induction false} RunMakesProgress(c: Config, st: State, run: seq<Step>)
    requires c.Valid() && Initial(c, st) && After(c, st, run).Some?
    ensures |run| <= TotalProgress(c.Buckets(), After(c, st, run).value.pairs)
  {
    hide Apply, Initial, Inv, TotalProgress;
    if run != [] {
      var front := run[..|run| - 1];
      RunMakesProgress(c, st, front);
      RunsKeepInv(c, st, front);
      StepsMakeProgress(c, After(c, st, front).value, run[|run| - 1]);
    }
  }

  /** No run is longer than this. */
  lemma {:induction false} RunsTerminate(c: Config, st: State, run: seq<Step>)
    requires c.Valid() && Initial(c, st) && After(c, st, run).Some?
    ensures |run| <= c.ranks * (7 * c.Buckets() + 12)
  {
    var out := After(c, st, run).value;
    RunMakesProgress(c, st, run);
    RunsKeepInv(c, st, run);
    forall r | 0 <= r < |out.pairs|
      ensures Progress(c.Buckets(), out.pairs[r]) <= 7 * c.Buckets() + 12
    {
      InvAt(c, out, r);
      ProgressIsBounded(c, out.pairs[r]);
    }
    TotalIsBounded(c, out.pairs, 7 * c.Buckets() + 12);
  }

  // ----- how runs end

  /** No step is possible. */
  ghost predicate Stuck(c: Config, st: State)
  {
    forall step :: Apply(c, st, step).None?
  }

  /** All buckets delivered: n + 3 exchanges following the script, `run` once per bucket, in order. */
  ghost predicate Delivered(c: Config, p: Pair)
  {
    var n := c.Buckets();
    && p.rank.Finished? && p.worker.Stopped? && p.chan.Empty?
    && |p.heard| == n + 3 && |p.got| == n + 3
    && (forall k :: 0 <= k < n + 3 ==> p.heard[k] == Script(n, k))
    && (forall k :: 0 <= k < n ==> p.got[k])
    && |p.seen| == n && (forall k :: 0 <= k < n ==> Holds(c, p.seen[k], k))
  }

  /** Given up after the replies to message `j`. */
  ghost predicate GivenUp(c: Config, p: Pair, j: nat)
  {
    && p.rank == Raised(j) && p.worker.Crashed? && p.chan.Empty?
    && |p.heard| == j + 2 && |p.got| == j + 1 && j < c.Buckets()
    && (forall k :: 0 <= k <= j ==> p.heard[k] == Script(c.Buckets(), k)) && p.heard[j + 1] == Failure
    && (forall k :: 0 <= k < j ==> p.got[k])
  }

  ghost predicate AllDelivered(c: Config, st: State)
  {
    forall r :: 0 <= r < |st.pairs| ==> Delivered(c, st.pairs[r])
  }

  /** Everybody gave up after the same message, which some worker had answered with an error. */
  ghost predicate AllGivenUp(c: Config, st: State, j: nat)
  {
    && (forall r :: 0 <= r < |st.pairs| ==> GivenUp(c, st.pairs[r], j))
    && exists r :: 0 <= r < |st.pairs| && BadReply(st.pairs[r], j)
  }

  lemma {:induction false} FinishedIsDelivered(c: Config, r: nat, p: Pair)
    requires PairOk(c, r, p) && p.rank.Finished? && p.worker.Stopped?
    ensures Delivered(c, p)
  {
    assert p.chan.Empty? && p.Sent() == p.heard && p.Acks() == p.got;
  }

  lemma {:induction false} RaisedIsGivenUp(c: Config, r: nat, p: Pair)
    requires PairOk(c, r, p) && p.rank.Raised? && p.worker.Crashed?
    ensures GivenUp(c, p, p.rank.g)
  {
    hide BufferOk, SeenOk;
    CrashMeansRaised(c, p);
    assert p.chan.Empty? && p.Sent() == p.heard;
  }

  lemma {:induction false} StagingIsPossible(c: Config, r: nat, p: Pair, from: seq<Byte>)
    requires p.rank.Stage? || p.rank.Fetch?
    ensures RankMove(c, r, p, from, c.Content(p.rank.g)).Some?
  {
  }

  lemma {:induction false} SendingIsPossible(c: Config, r: nat, p: Pair, from: seq<Byte>)
    requires RankSends(p.rank)
    ensures RankMove(c, r, p, from, []).Some?
  {
  }

  lemma {:induction false} ReduceIsPossible(c: Config, st: State)
    requires AtReduce(st.pairs)
    ensures Apply(c, st, AllReduce).Some?
  {
  }

  /** A pair that cannot move is finished, has given up, or waits for the other ranks. */
  lemma {:induction false} BlockedPair(c: Config, r: nat, p: Pair, from: seq<Byte>)
    requires c.Valid() && Talk(c, p) && WorkerMove(p, true).None?
    requires forall noise :: RankMove(c, r, p, from, noise).None?
    ensures p.rank.Reduce? || (p.rank.Finished? && p.worker.Stopped?) || (p.rank.Raised? && p.worker.Crashed?)
  {
    if p.rank.Stage? || p.rank.Fetch? {
      StagingIsPossible(c, r, p, from);
    } else if RankWaits(p.rank) {
      assert RankMove(c, r, p, from, []).None?;
      if p.chan.Empty? {
        SomebodyCanMove(c, p);
      } else {
        WaitingRequestIsHeard(c, p);
      }
    } else if p.rank.Finished? {
      FinishedWorker(c, p);
    } else if p.rank.Raised? {
      RaisedWorker(c, p);
    } else if RankSends(p.rank) {
      SendingIsPossible(c, r, p, from);
    }
  }

  lemma {:induction false} WaitingRequestIsHeard(c: Config, p: Pair)
    requires Talk(c, p) && p.chan.Request?
    ensures WorkerMove(p, true).Some?
  {
    NextHeard(c, p);
    if p.worker.Crashed? {
      CrashMeansRaised(c, p);
    }
  }

  lemma {:induction false} FinishedWorker(c: Config, p: Pair)
    requires Talk(c, p) && p.rank.Finished?
    ensures p.worker.Stopped?
  {
    if p.worker.Crashed? {
      CrashMeansRaised(c, p);
    }
  }

  lemma {:induction false} RaisedWorker(c: Config, p: Pair)
    requires c.Valid() && Talk(c, p) && p.rank.Raised? && WorkerMove(p, true).None?
    ensures p.worker.Crashed?
  {
    if p.chan.Request? {
      WaitingRequestIsHeard(c, p);
    } else {
      assert p.Sent() == p.heard;
      assert p.heard[p.rank.g + 1] == Failure;
    }
  }

  lemma {:induction false} BlockedInStuck(c: Config, st: State, r: nat)
    requires c.Valid() && Inv(c, st) && Stuck(c, st) && r < |st.pairs|
    ensures var p := st.pairs[r];
            p.rank.Reduce? || (p.rank.Finished? && p.worker.Stopped?) || (p.rank.Raised? && p.worker.Crashed?)
  {
    hide Inv, RankMove, WorkerMove, SourceBuffer;
    PairTalks(c, st, r);
    assert Apply(c, st, WorkerStep(r, true)).None?;
    forall noise
      ensures RankMove(c, r, st.pairs[r], SourceBuffer(c, st, r), noise).None?
    {
      assert Apply(c, st, RankStep(r, noise)).None?;
    }
    BlockedPair(c, r, st.pairs[r], SourceBuffer(c, st, r));
  }

  /** Two ranks in one reachable state are never at incompatible ends. */
  lemma {:induction false} SameFate(c: Config, st: State, r: nat, s: nat)
    requires c.Valid() && Inv(c, st) && r < |st.pairs| && s < |st.pairs|
    ensures st.pairs[r].rank.Reduce? ==> !st.pairs[s].rank.Finished? && !st.pairs[s].rank.Raised?
    ensures st.pairs[r].rank.Finished? ==> !st.pairs[s].rank.Raised?
    ensures st.pairs[r].rank.Raised? && st.pairs[s].rank.Raised? ==> st.pairs[r].rank.g == st.pairs[s].rank.g
  {
    InvAt(c, st, r);
    InvAt(c, st, s);
    PairInRange(c, r, st.pairs[r]);
    PairInRange(c, s, st.pairs[s]);
  }

  lemma {:induction false} NobodyReduces(c: Config, st: State, r: nat)
    requires c.Valid() && Inv(c, st) && Stuck(c, st) && r < |st.pairs|
    ensures !st.pairs[r].rank.Reduce?
  {
    hide Inv;
    if st.pairs[r].rank.Reduce? {
      forall s | 0 <= s < |st.pairs|
        ensures st.pairs[s].rank.Reduce?
      {
        BlockedInStuck(c, st, s);
        SameFate(c, st, r, s);
      }
      ReduceIsPossible(c, st);
    }
  }

  /**
   No deadlock, and agreement on failure: a run that cannot continue has delivered every bucket to
   every worker, or every rank raised after the same message and every worker stopped by raising.
   */
  lemma {:induction false} FinalStates(c: Config, st: State, run: seq<Step>)
    requires c.Valid() && Initial(c, st) && After(c, st, run).Some? && Stuck(c, After(c, st, run).value)
    ensures var out := After(c, st, run).value;
            AllDelivered(c, out) || (out.reduces > 0 && AllGivenUp(c, out, out.reduces - 1))
  {
    hide Inv, Apply, Initial, Stuck, Delivered, GivenUp, PairOk;
    RunsKeepInv(c, st, run);
    var out := After(c, st, run).value;
    PairTalks(c, out, 0);
    forall r | 0 <= r < |out.pairs|
      ensures out.failed ==> out.reduces > 0 && GivenUp(c, out.pairs[r], out.reduces - 1)
      ensures !out.failed ==> Delivered(c, out.pairs[r])
    {
      EndOfPair(c, out, r);
    }
    if out.failed {
      SomebodyFailed(c, out);
    }
  }

  lemma {:induction false} EndOfPair(c: Config, st: State, r: nat)
    requires c.Valid() && Inv(c, st) && Stuck(c, st) && r < |st.pairs|
    ensures st.failed ==> st.reduces > 0 && GivenUp(c, st.pairs[r], st.reduces - 1)
    ensures !st.failed ==> Delivered(c, st.pairs[r])
  {
    hide Inv, Stuck, Delivered, GivenUp, PairOk;
    BlockedInStuck(c, st, r);
    NobodyReduces(c, st, r);
    InvAt(c, st, r);
    if st.pairs[r].rank.Finished? {
      FinishedIsDelivered(c, r, st.pairs[r]);
    } else {
      RaisedIsGivenUp(c, r, st.pairs[r]);
    }
  }

  lemma {:induction false} SomebodyFailed(c: Config, st: State)
    requires Inv(c, st) && st.failed
    ensures exists r :: 0 <= r < |st.pairs| && BadReply(st.pairs[r], st.reduces - 1)
  {
  }

  /** The checked replies decide: those to the handle and to every payload but the last. */
  lemma {:induction false} CheckedRepliesDecide(c: Config, st: State, run: seq<Step>)
    requires c.Valid() && Initial(c, st) && After(c, st, run).Some? && Stuck(c, After(c, st, run).value)
    ensures var out := After(c, st, run).value;
            AllDelivered(c, out) <==> forall r, k :: 0 <= r < |out.pairs| && 0 <= k < c.Buckets() ==> !BadReply(out.pairs[r], k)
  {
    hide Apply, Initial, Stuck;
    FinalStates(c, st, run);
    var out := After(c, st, run).value;
    RunsKeepInv(c, st, run);
    PairTalks(c, out, 0);
    if !AllDelivered(c, out) {
      assert GivenUp(c, out.pairs[0], out.reduces - 1);
    }
  }

  /** No reply of this worker, taken or in transit, is an error. */
  predicate Clean(p: Pair)
  {
    (forall k :: 0 <= k < |p.got| ==> p.got[k]) && (p.chan.Reply? ==> p.chan.ok)
  }

  predicate Healthy(run: seq<Step>)
  {
    forall i :: 0 <= i < |run| && run[i].WorkerStep? ==> run[i].ok
  }

  lemma {:induction false} MovesKeepClean(c: Config, r: nat, p: Pair, from: seq<Byte>, noise: seq<Byte>)
    requires Clean(p)
    ensures RankMove(c, r, p, from, noise).Some? ==> Clean(RankMove(c, r, p, from, noise).value)
    ensures WorkerMove(p, true).Some? ==> Clean(WorkerMove(p, true).value)
  {
    hide Put, Slice, StagedBytes, AfterFetch;
  }

  lemma {:induction false} StepKeepsClean(c: Config, st: State, step: Step)
    requires Apply(c, st, step).Some? && (step.WorkerStep? ==> step.ok)
    requires forall r :: 0 <= r < |st.pairs| ==> Clean(st.pairs[r])
    ensures var out := Apply(c, st, step).value; forall r :: 0 <= r < |out.pairs| ==> Clean(out.pairs[r])
  {
    hide RankMove, WorkerMove, SourceBuffer;
    match step
    case RankStep(r, noise) => MovesKeepClean(c, r, st.pairs[r], SourceBuffer(c, st, r), noise);
    case WorkerStep(r, _) => MovesKeepClean(c, r, st.pairs[r], [], []);
    case AllReduce =>
  }

  lemma {:induction false} HealthyRunsAreClean(c: Config, st: State, run: seq<Step>)
    requires Initial(c, st) && After(c, st, run).Some? && Healthy(run)
    ensures var out := After(c, st, run).value; forall r :: 0 <= r < |out.pairs| ==> Clean(out.pairs[r])
  {
    hide Apply, Clean;
    if run == [] {
      InitiallyClean(c, st);
    } else {
      var front := run[..|run| - 1];
      HealthyRunsAreClean(c, st, front);
      StepKeepsClean(c, After(c, st, front).value, run[|run| - 1]);
    }
  }

  lemma {:induction false} InitiallyClean(c: Config, st: State)
    requires Initial(c, st)
    ensures forall r :: 0 <= r < |st.pairs| ==> Clean(st.pairs[r])
  {
  }

  /** If no worker ever fails, every run that cannot continue has delivered every bucket everywhere. */
  lemma {:induction false} HealthyRunsDeliver(c: Config, st: State, run: seq<Step>)
    requires c.Valid() && Initial(c, st) && Healthy(run) && After(c, st, run).Some? && Stuck(c, After(c, st, run).value)
    ensures AllDelivered(c, After(c, st, run).value)
  {
    hide Initial, Apply, Stuck;
    HealthyRunsAreClean(c, st, run);
    CheckedRepliesDecide(c, st, run);
  }

  // ----- no failure of a worker is lost

  lemma {:induction false} RankKeepsAcks(c: Config, r: nat, p: Pair, from: seq<Byte>, noise: seq<Byte>)
    requires Talk(c, p) && RankMove(c, r, p, from, noise).Some?
    ensures RankMove(c, r, p, from, noise).value.Acks() == p.Acks()
  {
    hide Put, Slice, StagedBytes, AfterFetch;
    TalkFacts(c, p);
  }

  lemma {:induction false} WorkerKeepsAcks(c: Config, p: Pair, ok: bool)
    requires Talk(c, p) && WorkerMove(p, ok).Some?
    ensures p.Acks() <= WorkerMove(p, ok).value.Acks()
    ensures p.worker.Attaching? || p.worker.Running? ==>
      WorkerMove(p, ok).value.Acks() == p.Acks() + [ok] && |p.Acks()| == if p.worker.Attaching? then 0 else p.worker.g + 1
  {
    if WorkerReplies(p.worker) {
      BusyWorker(c, p);
    }
  }

  lemma {:induction false} StepKeepsAcks(c: Config, st: State, step: Step, r: nat)
    requires c.Valid() && Inv(c, st) && Apply(c, st, step).Some? && r < |st.pairs|
    ensures |Apply(c, st, step).value.pairs| == |st.pairs|
    ensures st.pairs[r].Acks() <= Apply(c, st, step).value.pairs[r].Acks()
  {
    hide Inv, RankMove, WorkerMove, SourceBuffer, Talk;
    PairTalks(c, st, r);
    match step
    case RankStep(s, noise) =>
      if s == r {
        RankKeepsAcks(c, r, st.pairs[r], SourceBuffer(c, st, r), noise);
      }
    case WorkerStep(s, ok) =>
      if s == r {
        WorkerKeepsAcks(c, st.pairs[r], ok);
      }
    case AllReduce =>
  }

  /** Replies are never taken back. */
  lemma {:induction false} RunKeepsAcks(c: Config, st: State, run: seq<Step>, m: nat, r: nat)
    requires c.Valid() && Initial(c, st) && After(c, st, run).Some? && m <= |run| && r < c.ranks
    ensures After(c, st, run[..m]).Some?
    ensures |After(c, st, run[..m]).value.pairs| == c.ranks == |After(c, st, run).value.pairs|
    ensures After(c, st, run[..m]).value.pairs[r].Acks() <= After(c, st, run).value.pairs[r].Acks()
    decreases |run|
  {
    hide Initial, Inv, Apply, Talk;
    RunsKeepInv(c, st, run);
    PairTalks(c, After(c, st, run).value, 0);
    if m == |run| {
      assert run[..m] == run;
    } else {
      var front := run[..|run| - 1];
      assert front[..m] == run[..m];
      RunKeepsAcks(c, st, front, m, r);
      RunsKeepInv(c, st, front);
      StepKeepsAcks(c, After(c, st, front).value, run[|run| - 1], r);
    }
  }

  lemma {:induction false} ErrorIsSent(c: Config, st: State, run: seq<Step>, i: nat, r: nat)
    returns (k: nat)
    requires c.Valid() && Initial(c, st) && After(c, st, run).Some? && i < |run| && r < c.ranks
    requires After(c, st, run[..i]).Some? && |After(c, st, run[..i]).value.pairs| == c.ranks
    requires run[i] == WorkerStep(r, false)
    requires var pc := After(c, st, run[..i]).value.pairs[r].worker;
             pc == Attaching || (pc.Running? && pc.g + 1 < c.Buckets())
    ensures |After(c, st, run).value.pairs| == c.ranks
    ensures var p := After(c, st, run).value.pairs[r];
            k < c.Buckets() && k < |p.Acks()| && !p.Acks()[k]
  {
    hide Initial, Inv, WorkerMove, Talk;
    var before, upTo := run[..i], run[..i + 1];
    assert upTo[..i] == before && upTo[i] == run[i];
    RunKeepsAcks(c, st, run, i, r);
    RunsKeepInv(c, st, before);
    PairTalks(c, After(c, st, before).value, r);
    RunKeepsAcks(c, st, run, i + 1, r);
    assert After(c, st, upTo) == Apply(c, After(c, st, before).value, run[i]);
    WorkerKeepsAcks(c, After(c, st, before).value.pairs[r], false);
    k := |After(c, st, before).value.pairs[r].Acks()|;
  }

  /**
   If a worker fails to attach, or fails on any payload but the last, every run that cannot continue
   has everybody given up.
   */
  lemma {:induction false} FailuresAreNoticed(c: Config, st: State, run: seq<Step>, i: nat, r: nat)
    requires c.Valid() && Initial(c, st) && After(c, st, run).Some? && Stuck(c, After(c, st, run).value)
    requires i < |run| && r < c.ranks && run[i] == WorkerStep(r, false)
    requires After(c, st, run[..i]).Some? && |After(c, st, run[..i]).value.pairs| == c.ranks
    requires var pc := After(c, st, run[..i]).value.pairs[r].worker;
             pc == Attaching || (pc.Running? && pc.g + 1 < c.Buckets())
    ensures var out := After(c, st, run).value; out.reduces > 0 && AllGivenUp(c, out, out.reduces - 1)
  {
    hide Initial, Apply, Stuck, After, AllGivenUp;
    FinalStates(c, st, run);
    var k := ErrorIsSent(c, st, run, i, r);
    NotDelivered(c, After(c, st, run).value, r, k);
  }

  lemma {:induction false} NotDelivered(c: Config, st: State, r: nat, k: nat)
    requires r < |st.pairs| && k < c.Buckets() && k < |st.pairs[r].Acks()| && !st.pairs[r].Acks()[k]
    ensures !AllDelivered(c, st)
  {
  }
}
