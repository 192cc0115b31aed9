/**
 The update protocol: ranks that broadcast buckets through the two halves of a shared device
 buffer, each talking to its own worker over a request/reply socket.
 */
module UpdateProtocol {
  import opened DataTypes
  import opened Transfer

  /**
   Bucket `g` has the bytes `contents[g]` and is broadcast by rank `source[g]` in step `step[g]` of
   the update loop. With `useH2D`, a rank `r` first copies `fetched[r][i]` into its staging buffer
   at the start of step `i`; without, the source copies `direct[g]` into the shared buffer.
   */
  datatype Config = Config(ranks: nat, bucketSize: nat, contents: seq<seq<Byte>>, source: seq<nat>, step: seq<nat>,
                           useH2D: bool, fetched: seq<seq<seq<Byte>>>, direct: seq<seq<Byte>>)
  {
    function Buckets(): nat
    {
      |contents|
    }

    function Content(g: nat): seq<Byte>
    {
      if g < |contents| then contents[g] else []
    }

    function Source(g: nat): nat
    {
      if g < |source| then source[g] else 0
    }

    function Step(g: nat): nat
    {
      if g < |step| then step[g] else 0
    }

    function Direct(g: nat): seq<Byte>
    {
      if g < |direct| then direct[g] else []
    }

    /** Rank `r` has something to fetch for the step of bucket `g`. */
    predicate Fetches(r: nat, g: nat)
    {
      r < |fetched| && Step(g) < |fetched[r]|
    }

    function Fetched(r: nat, g: nat): seq<Byte>
      requires Fetches(r, g)
    {
      fetched[r][Step(g)]
    }

    predicate BeginsStep(g: nat)
    {
      g == 0 || Step(g) != Step(g - 1)
    }

    /** Where the half of the buffer that bucket `g` uses begins. */
    function Start(g: nat): (start: nat)
      ensures start == if g % 2 == 0 then 0 else bucketSize
    {
      g % 2 * bucketSize
    }

    /** The source of bucket `g` gets the bucket's bytes from where it copies them. */
    ghost predicate CopiesContent(g: nat)
    {
      if useH2D then Fetches(Source(g), g) && Fetched(Source(g), g) == Content(g) else Direct(g) == Content(g)
    }

    ghost predicate Valid()
    {
      && ranks >= 1 && |contents| >= 1 && |source| == |contents|
      && (forall g :: 0 <= g < |contents| ==> |contents[g]| <= bucketSize && source[g] < ranks)
      && (forall g :: 0 <= g < |contents| ==> CopiesContent(g))
      && (forall r, i :: 0 <= r < |fetched| && 0 <= i < |fetched[r]| ==> |fetched[r][i]| <= bucketSize)
    }
  }

  datatype Message = Handle | Weights(g: nat) | Nothing | Failure

  /** The socket between a rank and its worker: at most one message is in transit. */
  datatype Channel = Empty | Request(m: Message) | Reply(ok: bool)

  /** What a rank does next. */
  datatype RankPc =
    | Connect
    | Fetch(g: nat)
    | Stage(g: nat)
    | Receive(g: nat)
    | Reduce(g: nat, err: bool)
    | Branch(g: nat, failed: bool)
    | DrainLast
    | SendRelease
    | AwaitRelease
    | SendHook
    | AwaitHook
    | Finished
    | Raised(g: nat)

  /** What a worker does next. */
  datatype WorkerPc =
    | AwaitHandle
    | Attaching
    | AttachFailed
    | AwaitPayload
    | Running(g: nat)
    | Releasing
    | AwaitLast
    | Hooking
    | Stopped
    | Crashed

  /**
   A rank with its worker. `buffer` is the shared double buffer, `h2d` the staging buffer. `heard` and
   `got` are the requests and replies taken from the socket so far, `seen` is the shared buffer as each call of `run` found it.
   */
  datatype Pair = Pair(rank: RankPc, chan: Channel, buffer: seq<Byte>, h2d: seq<Byte>, worker: WorkerPc,
                       heard: seq<Message>, got: seq<bool>, seen: seq<seq<Byte>>)
  {
    /** All requests sent so far. */
    function Sent(): seq<Message>
    {
      heard + if chan.Request? then [chan.m] else []
    }

    /** All replies sent so far. */
    function Acks(): seq<bool>
    {
      got + if chan.Reply? then [chan.ok] else []
    }
  }

  /** Overwrite the bytes of bucket `g` in the buffer. */
  function Put(c: Config, buffer: seq<Byte>, g: nat, bytes: seq<Byte>): seq<Byte>
  {
    if c.Start(g) + |bytes| <= |buffer| then Written(buffer, c.Start(g), bytes) else buffer
  }

  /** The bytes of bucket `g` in the buffer. */
  function Slice(c: Config, buffer: seq<Byte>, g: nat): seq<Byte>
  {
    if c.Start(g) + |c.Content(g)| <= |buffer| then buffer[c.Start(g)..c.Start(g) + |c.Content(g)|] else []
  }

  // ----- the steps

  function Sending(p: Pair, m: Message, next: RankPc): Pair
  {
    p.(chan := Request(m), rank := next)
  }

  /** Take the reply from the socket, if there is one. */
  function Taking(p: Pair, next: RankPc): Option<Pair>
  {
    if p.chan.Reply? then Some(p.(chan := Empty, got := p.got + [p.chan.ok], rank := next)) else None
  }

  /** On to bucket `g`; a step of the loop begins with the copy into the staging buffer. */
  function NextBucket(c: Config, g: nat): RankPc
  {
    if g >= c.Buckets() then DrainLast else if c.useH2D && c.BeginsStep(g) then Fetch(g) else Stage(g)
  }

  /** The staging buffer after the copy of the rank's bucket for the step of `g`, if it has one. */
  function AfterFetch(c: Config, r: nat, g: nat, h2d: seq<Byte>): seq<Byte>
  {
    if c.Fetches(r, g) && |c.Fetched(r, g)| <= |h2d| then Written(h2d, 0, c.Fetched(r, g)) else h2d
  }

  /** What the source of bucket `g` copies into the shared buffer. */
  function StagedBytes(c: Config, g: nat, h2d: seq<Byte>): seq<Byte>
  {
    if !c.useH2D then c.Direct(g) else if |c.Content(g)| <= |h2d| then h2d[..|c.Content(g)|] else h2d
  }

  /**
   The next step of rank `r`, `None` while it is blocked. Staging bucket `g` starts the broadcast:
   the source holds its own copy, the other ranks' bytes are undefined (`noise`) until the
   synchronisation after the reduction, when they are what the source's buffer `from` holds.
   */
  function RankMove(c: Config, r: nat, p: Pair, from: seq<Byte>, noise: seq<Byte>): Option<Pair>
  {
    match p.rank
    case Connect => Some(Sending(p, Handle, NextBucket(c, 0)))
    case Fetch(g) => Some(p.(h2d := AfterFetch(c, r, g, p.h2d), rank := Stage(g)))
    case Stage(g) =>
      if r == c.Source(g) then Some(p.(buffer := Put(c, p.buffer, g, StagedBytes(c, g, p.h2d)), rank := Receive(g)))
      else if |noise| != |c.Content(g)| then None
      else Some(p.(buffer := Put(c, p.buffer, g, noise), rank := Receive(g)))
    case Receive(g) => Taking(p, Reduce(g, p.chan.Reply? && !p.chan.ok))
    case Reduce(g, err) => None
    case Branch(g, failed) =>
      var q := p.(buffer := Put(c, p.buffer, g, Slice(c, from, g)));
      Some(if failed then Sending(q, Failure, Raised(g)) else Sending(q, Weights(g), NextBucket(c, g + 1)))
    case DrainLast => Taking(p, SendRelease)
    case SendRelease => Some(Sending(p, Nothing, AwaitRelease))
    case AwaitRelease => Taking(p, SendHook)
    case SendHook => Some(Sending(p, Nothing, AwaitHook))
    case AwaitHook => Taking(p, Finished)
    case Finished => None
    case Raised(g) => None
  }

  function Hearing(p: Pair, next: WorkerPc): Pair
  {
    if p.chan.Request? then p.(chan := Empty, heard := p.heard + [p.chan.m], worker := next) else p
  }

  function Replying(p: Pair, ok: bool, next: WorkerPc): Pair
  {
    p.(chan := Reply(ok), worker := next)
  }

  /** What a worker that waits for a payload does with a message. */
  function OnPayload(m: Message): WorkerPc
  {
    match m
    case Weights(g) => Running(g)
    case Nothing => Releasing
    case Failure => Crashed
    case Handle => Crashed
  }

  /** The next step of a worker; `ok` is whether attaching or `run` succeeds, where it does that. */
  function WorkerMove(p: Pair, ok: bool): Option<Pair>
  {
    match p.worker
    case AwaitHandle => if p.chan.Request? then Some(Hearing(p, Attaching)) else None
    case Attaching => Some(Replying(p, ok, if ok then AwaitPayload else AttachFailed))
    case AttachFailed => if p.chan.Request? then Some(Hearing(p, Crashed)) else None
    case AwaitPayload => if p.chan.Request? then Some(Hearing(p, OnPayload(p.chan.m))) else None
    case Running(g) => Some(Replying(p.(seen := p.seen + [p.buffer]), ok, AwaitPayload))
    case Releasing => Some(Replying(p, true, AwaitLast))
    case AwaitLast =>
      if p.chan.Request? then Some(Hearing(p, if p.chan.m == Nothing then Hooking else Crashed)) else None
    case Hooking => Some(Replying(p, true, Stopped))
    case Stopped => None
    case Crashed => None
  }

  /** `reduces` counts the completed all-reduces, `failed` is the outcome of the last one. */
  datatype State = State(pairs: seq<Pair>, reduces: nat, failed: bool)

  datatype Step = RankStep(r: nat, noise: seq<Byte>) | WorkerStep(r: nat, ok: bool) | AllReduce

  predicate AtReduce(pairs: seq<Pair>)
  {
    forall r :: 0 <= r < |pairs| ==> pairs[r].rank.Reduce?
  }

  predicate AnyError(pairs: seq<Pair>)
    requires AtReduce(pairs)
  {
    exists r :: 0 <= r < |pairs| && pairs[r].rank.err
  }

  function AllBranch(pairs: seq<Pair>, failed: bool): (out: seq<Pair>)
    requires AtReduce(pairs)
    ensures |out| == |pairs|
    ensures forall r :: 0 <= r < |pairs| ==> out[r] == pairs[r].(rank := Branch(pairs[r].rank.g, failed))
  {
    seq(|pairs|, r requires 0 <= r < |pairs| => pairs[r].(rank := Branch(pairs[r].rank.g, failed)))
  }

  function Replace(st: State, r: nat, p: Option<Pair>): Option<State>
    requires r < |st.pairs|
  {
    if p.Some? then Some(st.(pairs := st.pairs[r := p.value])) else None
  }

  /** The buffer that rank `r` receives its current broadcast from. */
  function SourceBuffer(c: Config, st: State, r: nat): seq<Byte>
    requires r < |st.pairs|
  {
    var pc := st.pairs[r].rank;
    if pc.Branch? && c.Source(pc.g) < |st.pairs| then st.pairs[c.Source(pc.g)].buffer else []
  }

  /** One step of the system; `None` if it is not possible. */
  function Apply(c: Config, st: State, step: Step): Option<State>
  {
    match step
    case RankStep(r, noise) =>
      if r < |st.pairs| then Replace(st, r, RankMove(c, r, st.pairs[r], SourceBuffer(c, st, r), noise)) else None
    case WorkerStep(r, ok) => if r < |st.pairs| then Replace(st, r, WorkerMove(st.pairs[r], ok)) else None
    case AllReduce =>
      if AtReduce(st.pairs) then
        var failed := AnyError(st.pairs);
        Some(State(AllBranch(st.pairs, failed), st.reduces + 1, failed))
      else None
  }

  ghost predicate Initial(c: Config, st: State)
  {
    && |st.pairs| == c.ranks && st.reduces == 0 && !st.failed
    && forall r :: 0 <= r < |st.pairs| ==>
         var p := st.pairs[r];
         && p == Pair(Connect, Empty, p.buffer, p.h2d, AwaitHandle, [], [], [])
         && |p.buffer| == 2 * c.bucketSize && |p.h2d| == c.bucketSize
  }

  /** The state after a run; `None` if some step of it is not possible. */
  function After(c: Config, st: State, run: seq<Step>): Option<State>
  {
    if run == [] then Some(st)
    else
      var before := After(c, st, run[..|run| - 1]);
      if before.Some? then Apply(c, before.value, run[|run| - 1]) else None
  }

  // ----- what holds for every rank and its worker

  /** How many requests a rank has sent. */
  function SentCount(n: nat, pc: RankPc): nat
  {
    match pc
    case Connect => 0
    case Fetch(g) => g + 1
    case Stage(g) => g + 1
    case Receive(g) => g + 1
    case Reduce(g, _) => g + 1
    case Branch(g, _) => g + 1
    case DrainLast => n + 1
    case SendRelease => n + 1
    case AwaitRelease => n + 2
    case SendHook => n + 2
    case AwaitHook => n + 3
    case Finished => n + 3
    case Raised(g) => g + 2
  }

  /** How many replies a rank has taken. */
  function GotCount(n: nat, pc: RankPc): nat
  {
    match pc
    case Connect => 0
    case Fetch(g) => g
    case Stage(g) => g
    case Receive(g) => g
    case Reduce(g, _) => g + 1
    case Branch(g, _) => g + 1
    case DrainLast => n
    case SendRelease => n + 1
    case AwaitRelease => n + 1
    case SendHook => n + 2
    case AwaitHook => n + 2
    case Finished => n + 3
    case Raised(g) => g + 1
  }

  predicate InRange(n: nat, pc: RankPc)
  {
    (pc.Fetch? || pc.Stage? || pc.Receive? || pc.Reduce? || pc.Branch? || pc.Raised?) ==> pc.g < n
  }

  ghost predicate Counts(c: Config, p: Pair)
  {
    && InRange(c.Buckets(), p.rank)
    && |p.Sent()| == SentCount(c.Buckets(), p.rank)
    && |p.got| == GotCount(c.Buckets(), p.rank)
  }

  /** Requests and replies alternate: no message is ever overwritten. */
  ghost predicate Alternating(p: Pair)
  {
    && |p.Acks()| <= |p.heard| <= |p.Acks()| + 1
    && (!p.chan.Empty? ==> |p.heard| == |p.Acks()|)
  }

  /** Request `k` of an update of `n` buckets that succeeds. */
  function Script(n: nat, k: nat): Message
  {
    if k == 0 then Handle else if k <= n then Weights(k - 1) else Nothing
  }

  function Expected(n: nat, pc: RankPc, k: nat): Message
  {
    if pc.Raised? && k == pc.g + 1 then Failure else Script(n, k)
  }

  ghost predicate FollowsScript(c: Config, p: Pair)
  {
    forall k :: 0 <= k < |p.Sent()| ==> p.Sent()[k] == Expected(c.Buckets(), p.rank, k)
  }

  /** Where the worker is, by the numbers of requests heard and replies sent. */
  ghost predicate WorkerAt(n: nat, p: Pair)
  {
    var h, a := |p.heard|, |p.Acks()|;
    match p.worker
    case AwaitHandle => h == 0
    case Attaching => h == 1 && a == 0 && p.heard[0] == Handle
    case AttachFailed => h == 1 && a == 1 && !p.Acks()[0]
    case AwaitPayload => 1 <= h <= n + 1 && h == a && p.Acks()[0] && p.heard[h - 1] != Failure
    case Running(g) => g < n && h == g + 2 && a == g + 1 && p.Acks()[0] && p.heard[h - 1] == Weights(g)
    case Releasing => h == n + 2 && a == n + 1
    case AwaitLast => h == n + 2 && a == n + 2
    case Hooking => h == n + 3 && a == n + 2
    case Stopped => h == n + 3 && a == n + 3
    case Crashed => h == a + 1 && p.heard[a] == Failure
  }

  /** The replies a rank has taken: only the one that made it raise, or an unchecked one, may be an error. */
  ghost predicate Replies(n: nat, p: Pair)
  {
    && (forall k :: 0 <= k < |p.got| && k < n && !p.got[k] ==>
          k == |p.got| - 1 && (p.rank.Reduce? || (p.rank.Branch? && p.rank.failed) || p.rank.Raised?))
    && (p.rank.Reduce? ==> |p.got| > 0 && p.rank.err == !p.got[|p.got| - 1])
  }

  /** How many buckets the rank has begun to write, and how many it has synchronised. */
  function Staged(n: nat, pc: RankPc): nat
  {
    match pc
    case Connect => 0
    case Fetch(g) => g
    case Stage(g) => g
    case Receive(g) => g + 1
    case Reduce(g, _) => g + 1
    case Branch(g, _) => g + 1
    case Raised(g) => g + 1
    case DrainLast => n
    case SendRelease => n
    case AwaitRelease => n
    case SendHook => n
    case AwaitHook => n
    case Finished => n
  }

  function Synced(n: nat, pc: RankPc): nat
  {
    match pc
    case Receive(g) => g
    case Reduce(g, _) => g
    case Branch(g, _) => g
    case _ => Staged(n, pc)
  }

  /** The buffer holds bucket `g` in its half. */
  ghost predicate Holds(c: Config, buffer: seq<Byte>, g: nat)
  {
    HoldsAt(buffer, c.Start(g), c.Content(g))
  }

  /** Bucket `g` is complete in the rank's buffer and not yet overwritten. */
  predicate Live(c: Config, r: nat, pc: RankPc, g: nat)
  {
    && g + 2 >= Staged(c.Buckets(), pc)
    && (g < Synced(c.Buckets(), pc) || (r == c.Source(g) && g < Staged(c.Buckets(), pc)))
  }

  ghost predicate BufferOk(c: Config, r: nat, p: Pair)
  {
    && |p.buffer| == 2 * c.bucketSize
    && forall g :: Live(c, r, p.rank, g) ==> Holds(c, p.buffer, g)
  }

  /** The rank is on its way from the copy into the staging buffer to the end of this bucket's turn. */
  predicate InStep(pc: RankPc)
  {
    pc.Stage? || pc.Receive? || pc.Reduce? || pc.Branch?
  }

  /** During a step the staging buffer holds what was fetched at its start. */
  ghost predicate StagingOk(c: Config, r: nat, p: Pair)
  {
    && |p.h2d| == c.bucketSize
    && (c.useH2D && InStep(p.rank) && c.Fetches(r, p.rank.g) ==> HoldsAt(p.h2d, 0, c.Fetched(r, p.rank.g)))
  }

  /** Every call of `run` so far found its bucket in the buffer. */
  ghost predicate SeenOk(c: Config, p: Pair)
  {
    && |p.seen| == (if |p.Acks()| == 0 then 0 else if |p.Acks()| <= c.Buckets() then |p.Acks()| - 1 else c.Buckets())
    && forall k :: 0 <= k < |p.seen| ==> Holds(c, p.seen[k], k)
  }

  ghost predicate Talk(c: Config, p: Pair)
  {
    && Counts(c, p) && Alternating(p) && FollowsScript(c, p)
    && WorkerAt(c.Buckets(), p) && Replies(c.Buckets(), p)
  }

  // ----- the rank's steps keep it

  /** When it is the rank's turn to send, every earlier request was answered and nothing is in transit. */
  lemma {:induction false} SocketIsFree(c: Config, p: Pair)
    requires Talk(c, p)
    requires p.rank.Connect? || p.rank.Branch? || p.rank.SendRelease? || p.rank.SendHook?
    ensures p.chan.Empty? && |p.heard| == |p.got|
  {
  }

  lemma {:induction false} SendingKeepsCounts(c: Config, p: Pair, m: Message, next: RankPc)
    requires Talk(c, p) && p.chan.Empty? && |p.heard| == |p.got| && InRange(c.Buckets(), next)
    requires SentCount(c.Buckets(), next) == SentCount(c.Buckets(), p.rank) + 1
    requires GotCount(c.Buckets(), next) == GotCount(c.Buckets(), p.rank)
    ensures Counts(c, Sending(p, m, next)) && Alternating(Sending(p, m, next))
    ensures WorkerAt(c.Buckets(), Sending(p, m, next))
  {
  }

  lemma {:induction false} SendingFollowsScript(c: Config, p: Pair, m: Message, next: RankPc)
    requires Talk(c, p) && p.chan.Empty? && |p.heard| == |p.got| && !p.rank.Raised?
    requires m == Expected(c.Buckets(), next, |p.heard|) && (next.Raised? ==> next.g + 1 == |p.heard|)
    ensures FollowsScript(c, Sending(p, m, next))
  {
    var q := Sending(p, m, next);
    forall k | 0 <= k < |q.Sent()|
      ensures q.Sent()[k] == Expected(c.Buckets(), q.rank, k)
    {
      if k < |p.heard| {
        assert p.Sent()[k] == p.heard[k];
      }
    }
  }

  lemma {:induction false} TakingKeepsTalk(c: Config, p: Pair, next: RankPc)
    requires Talk(c, p) && p.chan.Reply? && InRange(c.Buckets(), next) && !next.Raised? && !p.rank.Raised?
    requires SentCount(c.Buckets(), next) == SentCount(c.Buckets(), p.rank)
    requires GotCount(c.Buckets(), next) == GotCount(c.Buckets(), p.rank) + 1
    requires !p.rank.Reduce? && !p.rank.Branch? && (|p.got| < c.Buckets() ==> next == Reduce(|p.got|, !p.chan.ok))
    requires |p.got| >= c.Buckets() ==> !next.Reduce?
    ensures Talk(c, Taking(p, next).value)
  {
    var q := Taking(p, next).value;
    assert q.Acks() == p.Acks();
    assert q.Sent() == p.Sent();
  }

  /** Moving on without using the socket. */
  lemma {:induction false} QuietKeepsTalk(c: Config, p: Pair, q: Pair)
    requires Talk(c, p) && InRange(c.Buckets(), q.rank)
    requires q == p.(rank := q.rank, buffer := q.buffer, h2d := q.h2d)
    requires SentCount(c.Buckets(), q.rank) == SentCount(c.Buckets(), p.rank)
    requires GotCount(c.Buckets(), q.rank) == GotCount(c.Buckets(), p.rank)
    requires !p.rank.Raised? && !q.rank.Raised? && Replies(c.Buckets(), q)
    ensures Talk(c, q)
  {
    assert q.Sent() == p.Sent() && q.Acks() == p.Acks();
  }

  lemma {:induction false} SendingKeepsTalk(c: Config, p: Pair, m: Message, next: RankPc)
    requires Talk(c, p) && (p.rank.Connect? || p.rank.Branch? || p.rank.SendRelease? || p.rank.SendHook?)
    requires InRange(c.Buckets(), next) && m == Expected(c.Buckets(), next, |p.heard|)
    requires next.Raised? ==> next.g + 1 == |p.heard| && p.rank.Branch?
    requires SentCount(c.Buckets(), next) == SentCount(c.Buckets(), p.rank) + 1
    requires GotCount(c.Buckets(), next) == GotCount(c.Buckets(), p.rank)
    requires !next.Reduce? && !next.Branch? && (p.rank.Branch? && p.rank.failed ==> next.Raised?)
    ensures Talk(c, Sending(p, m, next))
  {
    SocketIsFree(c, p);
    SendingKeepsCounts(c, p, m, next);
    SendingFollowsScript(c, p, m, next);
  }

  lemma {:induction false} BranchKeepsTalk(c: Config, p: Pair, buffer: seq<Byte>)
    requires Talk(c, p) && p.rank.Branch?
    ensures var q, g := p.(buffer := buffer), p.rank.g;
            && (p.rank.failed ==> Talk(c, Sending(q, Failure, Raised(g))))
            && (!p.rank.failed ==> Talk(c, Sending(q, Weights(g), NextBucket(c, g + 1))))
  {
    hide Talk, Replies;
    var q, g := p.(buffer := buffer), p.rank.g;
    TalkFacts(c, p);
    StagingKeepsReplies(c.Buckets(), p, q);
    QuietKeepsTalk(c, p, q);
    if p.rank.failed {
      SendingKeepsTalk(c, q, Failure, Raised(g));
    } else {
      SendingKeepsTalk(c, q, Weights(g), NextBucket(c, g + 1));
    }
  }

  lemma {:induction false} RankKeepsTalk(c: Config, r: nat, p: Pair, from: seq<Byte>, noise: seq<Byte>)
    requires c.Valid() && Talk(c, p) && RankMove(c, r, p, from, noise).Some?
    ensures Talk(c, RankMove(c, r, p, from, noise).value)
  {
    hide Talk, Put, Slice, Replies, AfterFetch, StagedBytes;
    var q := RankMove(c, r, p, from, noise).value;
    TalkFacts(c, p);
    match p.rank
    case Connect => SendingKeepsTalk(c, p, Handle, NextBucket(c, 0));
    case Fetch(g) => StagingKeepsReplies(c.Buckets(), p, q); QuietKeepsTalk(c, p, q);
    case Stage(g) => StagingKeepsReplies(c.Buckets(), p, q); QuietKeepsTalk(c, p, q);
    case Receive(g) => TakingKeepsTalk(c, p, q.rank);
    case Branch(g, failed) => BranchKeepsTalk(c, p, Put(c, p.buffer, g, Slice(c, from, g)));
    case DrainLast => TakingKeepsTalk(c, p, SendRelease);
    case SendRelease => SendingKeepsTalk(c, p, Nothing, AwaitRelease);
    case AwaitRelease => TakingKeepsTalk(c, p, SendHook);
    case SendHook => SendingKeepsTalk(c, p, Nothing, AwaitHook);
    case AwaitHook => TakingKeepsTalk(c, p, Finished);
  }

  lemma {:induction false} TalkFacts(c: Config, p: Pair)
    requires Talk(c, p)
    ensures InRange(c.Buckets(), p.rank) && |p.got| == GotCount(c.Buckets(), p.rank)
    ensures p.rank.Connect? || p.rank.Branch? || p.rank.SendRelease? || p.rank.SendHook? ==>
      p.chan.Empty? && |p.heard| == |p.got|
    ensures Replies(c.Buckets(), p)
  {
  }

  lemma {:induction false} StagingKeepsReplies(n: nat, p: Pair, q: Pair)
    requires Replies(n, p) && !p.rank.Reduce? && q == p.(rank := q.rank, buffer := q.buffer, h2d := q.h2d)
    requires p.rank == q.rank || (p.rank.Fetch? && q.rank.Stage?) || (p.rank.Stage? && q.rank.Receive?)
    ensures Replies(n, q)
  {
  }

  // ----- the worker's steps keep it

  /** The message in transit is the next one of the script. */
  lemma {:induction false} NextHeard(c: Config, p: Pair)
    requires Talk(c, p) && p.chan.Request?
    ensures p.chan.m == Expected(c.Buckets(), p.rank, |p.heard|) && |p.heard| == |p.got|
    ensures |p.heard| < SentCount(c.Buckets(), p.rank)
    ensures WorkerAt(c.Buckets(), p) && |p.Acks()| == |p.got|
  {
    assert p.Sent()[|p.heard|] == p.chan.m;
  }

  lemma {:induction false} HearingKeepsTalk(c: Config, p: Pair, next: WorkerPc)
    requires Talk(c, p) && p.chan.Request?
    requires WorkerAt(c.Buckets(), Hearing(p, next))
    ensures Talk(c, Hearing(p, next))
  {
    hide WorkerAt, Expected, SentCount, GotCount, InRange;
    var q := Hearing(p, next);
    assert q.Sent() == p.Sent();
    assert q.Acks() == p.Acks();
  }

  /** A failure notice follows an answered request, and the script never sends one. */
  lemma {:induction false} HearingPlacesWorker(c: Config, p: Pair)
    requires c.Valid() && Talk(c, p) && p.chan.Request? && WorkerMove(p, true).Some?
    ensures p.worker.AwaitHandle? || p.worker.AttachFailed? || p.worker.AwaitPayload? || p.worker.AwaitLast?
    ensures WorkerAt(c.Buckets(), WorkerMove(p, true).value)
  {
    hide Talk;
    NextHeard(c, p);
    var q := WorkerMove(p, true).value;
    assert q.Acks() == p.Acks() == p.got;
    if p.worker.AttachFailed? {
      FailedAttachIsNoticed(c, p);
    }
  }

  /** A worker that failed to attach is never sent weights, only the failure notice. */
  lemma {:induction false} FailedAttachIsNoticed(c: Config, p: Pair)
    requires c.Valid() && Talk(c, p) && p.chan.Request? && p.worker.AttachFailed?
    ensures p.chan.m == Failure
  {
    NextHeard(c, p);
    assert !p.got[0];
  }

  lemma {:induction false} ReplyingKeepsTalk(c: Config, p: Pair, ok: bool, next: WorkerPc, seen: seq<seq<Byte>>)
    requires Talk(c, p) && p.chan.Empty? && |p.heard| == |p.got| + 1
    requires WorkerAt(c.Buckets(), Replying(p, ok, next))
    ensures Talk(c, Replying(p.(seen := seen), ok, next))
  {
    hide Expected, SentCount, GotCount, InRange;
    var q := Replying(p.(seen := seen), ok, next);
    assert q.Sent() == p.Sent();
  }

  /** A busy worker owes exactly one reply. */
  lemma {:induction false} BusyWorker(c: Config, p: Pair)
    requires Talk(c, p) && (p.worker.Attaching? || p.worker.Running? || p.worker.Releasing? || p.worker.Hooking?)
    ensures p.chan.Empty? && |p.heard| == |p.got| + 1 && WorkerAt(c.Buckets(), p)
    ensures p.worker.Running? ==> p.got[0]
  {
  }

  lemma {:induction false} WorkerKeepsTalk(c: Config, p: Pair, ok: bool)
    requires c.Valid() && Talk(c, p) && WorkerMove(p, ok).Some?
    ensures Talk(c, WorkerMove(p, ok).value)
  {
    hide Talk;
    var q := WorkerMove(p, ok).value;
    if p.chan.Request? && !p.worker.Attaching? && !p.worker.Running? && !p.worker.Releasing? && !p.worker.Hooking? {
      HearingPlacesWorker(c, p);
      HearingKeepsTalk(c, p, q.worker);
    } else {
      BusyWorker(c, p);
      ReplyingKeepsTalk(c, p, q.chan.ok, q.worker, q.seen);
    }
  }
}
