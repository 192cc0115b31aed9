/** From registered checkpoints to the weights every worker loads. */
module EndToEnd {
  import opened BucketContents
  import opened BucketSize
  import opened DataTypes
  import opened GreedyCut
  import opened Layout
  import opened LayoutFacts
  import opened PinMemory
  import opened Planning
  import opened Registration
  import opened Scheduler
  import opened Sequences
  import opened Transfer
  import opened UpdateLoop
  import opened UpdateOutcome
  import opened UpdateProtocol

  // ----- the protocol of a planned update

  /** Where a rank sits in the group of ranks that take part in the update. */
  function IndexOf(group: seq<int>, rank: int): (i: nat)
    ensures rank in group ==> i < |group| && group[i] == rank
  {
    if group == [] || group[0] == rank then 0 else 1 + IndexOf(group[1..], rank)
  }

  /** The memory that `_copy_to_buffer` reads on `rank`: the owner's in a P2P update, else its own. */
  function SourceMemory(mem: int -> Memory, p2p: bool, rank: int, a: Assigned<H2DBucket>): Memory
  {
    if p2p then mem(a.owner) else mem(rank)
  }

  /** What the copy of bucket `a` on `rank` yields. */
  function CopiedBytes(mem: int -> Memory, p2p: bool, rank: int, a: Assigned<H2DBucket>): seq<Byte>
  {
    BucketBytes(SourceMemory(mem, p2p, rank, a), a.bucket)
  }

  function CopiedAll(mem: int -> Memory, p2p: bool, rank: int, mine: seq<Assigned<H2DBucket>>): (out: seq<seq<Byte>>)
    ensures |out| == |mine| && forall i :: 0 <= i < |mine| ==> out[i] == CopiedBytes(mem, p2p, rank, mine[i])
  {
    seq(|mine|, i requires 0 <= i < |mine| => CopiedBytes(mem, p2p, rank, mine[i]))
  }

  /** Rank by rank, what it copies into its staging buffer step by step. */
  function FetchedBy(group: seq<int>, plan: seq<Assigned<H2DBucket>>, mem: int -> Memory, p2p: bool)
    : (fetched: seq<seq<seq<Byte>>>)
    ensures |fetched| == |group|
    ensures forall r :: 0 <= r < |group| ==> fetched[r] == CopiedAll(mem, p2p, group[r], BucketsOf(plan, group[r]))
  {
    seq(|group|, r requires 0 <= r < |group| => CopiedAll(mem, p2p, group[r], BucketsOf(plan, group[r])))
  }

  /** The bytes of the buckets in visiting order, as their owners hold them. */
  function Contents(trace: seq<Assigned<H2DBucket>>, mem: int -> Memory): (contents: seq<seq<Byte>>)
    ensures |contents| == |trace|
    ensures forall g :: 0 <= g < |trace| ==> contents[g] == BucketBytes(mem(trace[g].owner), trace[g].bucket)
  {
    seq(|trace|, g requires 0 <= g < |trace| => BucketBytes(mem(trace[g].owner), trace[g].bucket))
  }

  /** What the receivers copy directly, without a staging buffer. */
  function Direct(trace: seq<Assigned<H2DBucket>>, mem: int -> Memory, p2p: bool): (direct: seq<seq<Byte>>)
    ensures |direct| == |trace|
    ensures forall g :: 0 <= g < |trace| ==> direct[g] == CopiedBytes(mem, p2p, trace[g].receiver, trace[g])
  {
    seq(|trace|, g requires 0 <= g < |trace| => CopiedBytes(mem, p2p, trace[g].receiver, trace[g]))
  }

  function Sources(group: seq<int>, trace: seq<Assigned<H2DBucket>>): (sources: seq<nat>)
    ensures |sources| == |trace|
    ensures forall g :: 0 <= g < |trace| ==> sources[g] == IndexOf(group, trace[g].receiver)
  {
    seq(|trace|, g requires 0 <= g < |trace| => IndexOf(group, trace[g].receiver))
  }

  /** The protocol run by `group` for a plan. */
  function ConfigOf(group: seq<int>, cap: nat, plan: seq<Assigned<H2DBucket>>, mem: int -> Memory, p2p: bool,
                    useH2D: bool)
    : Config
  {
    var trace := Visits(plan);
    Config(|group|, cap, Contents(trace, mem), Sources(group, trace), VisitSteps(plan), useH2D,
           FetchedBy(group, plan, mem, p2p), Direct(trace, mem, p2p))
  }

  // ----- the copies as the code makes them

  /** The ranges of a packed bucket can be read, and the copy's assertions hold. */
  lemma {:induction false} PackedIsReadable(mem: Memory, buffers: seq<seq<Meta>>, cap: nat, j: nat)
    requires Sized(mem, buffers) && j < |BucketsFor(buffers, cap)|
    ensures var b := BucketsFor(buffers, cap)[j]; Readable(mem, b.ranges) && RangeTotal(b.ranges) == b.size
  {
    hide BucketsFor, Cut, Carries;
    var b := BucketsFor(buffers, cap)[j];
    BucketsArePacked(buffers, cap);
    RangesFillBucket(b, Cut(OwnerSlots(buffers), SlotSize, cap)[j]);
    assert RangesOk(b, |buffers|, buffers);
    forall i | 0 <= i < |b.ranges|
      ensures b.ranges[i].idx < |mem| && b.ranges[i].offset + b.ranges[i].size <= |mem[b.ranges[i].idx]|
    {
      assert b.ranges[i] in b.ranges;
    }
  }

  /**
   `_copy_to_buffer` on `rank`, into the staging buffer or a half of the shared buffer: over RDMA
   from the owner in a P2P update, else from its own pinned memory.
   */
  method CopyBucket(a: Assigned<H2DBucket>, rank: int, p2p: bool, local: Memory, remote: AddressSpace, ptrs: seq<nat>,
                    buffer: array<Byte>, base: nat, start: nat, ghost mem: int -> Memory)
    returns (ok: bool)
    requires local == mem(rank) && Readable(SourceMemory(mem, p2p, rank, a), a.bucket.ranges)
    requires p2p ==> Mapped(remote, ptrs, mem(a.owner))
    requires start + a.bucket.size <= buffer.Length
    modifies buffer
    ensures ok <==> RangeTotal(a.bucket.ranges) == a.bucket.size
    ensures ok ==> |CopiedBytes(mem, p2p, rank, a)| == a.bucket.size
                   && buffer[..] == Written(old(buffer[..]), start, CopiedBytes(mem, p2p, rank, a))
  {
    hide Mapped, Readable, RangeTotal, BucketBytes, Written;
    if p2p {
      ok := CopyFromOwner(remote, ptrs, mem(a.owner), a.bucket, buffer, base, start);
    } else {
      ok := CopyToBuffer(local, a.bucket, buffer, start);
    }
  }

  /** The fetch step of the protocol is that copy, of the rank's bucket for the step. */
  lemma {:induction false} FetchIsCopy(group: seq<int>, cap: nat, plan: seq<Assigned<H2DBucket>>, mem: int -> Memory,
                                       p2p: bool, r: nat, g: nat, h2d: seq<Byte>)
    requires r < |group| && g < |Visits(plan)| && |h2d| == cap
    ensures var c, mine, i := ConfigOf(group, cap, plan, mem, p2p, true), BucketsOf(plan, group[r]), VisitSteps(plan)[g];
            && (c.Fetches(r, g) <==> i < |mine|)
            && (i < |mine| && |CopiedBytes(mem, p2p, group[r], mine[i])| <= cap ==>
                  AfterFetch(c, r, g, h2d) == Written(h2d, 0, CopiedBytes(mem, p2p, group[r], mine[i])))
            && (i >= |mine| ==> AfterFetch(c, r, g, h2d) == h2d)
  {
    hide Visits, VisitSteps, BucketsOf, CopiedBytes, Written;
  }

  /** Without a staging buffer the source copies the same way, straight into its half of the shared buffer. */
  lemma {:induction false} DirectStageIsCopy(group: seq<int>, cap: nat, plan: seq<Assigned<H2DBucket>>,
                                             mem: int -> Memory,
                                             p2p: bool, g: nat, buffer: seq<Byte>, h2d: seq<Byte>)
    requires g < |Visits(plan)| && |buffer| == 2 * cap
    ensures var c, a := ConfigOf(group, cap, plan, mem, p2p, false), Visits(plan)[g];
            var bytes := CopiedBytes(mem, p2p, a.receiver, a);
            |bytes| <= cap ==> Put(c, buffer, g, StagedBytes(c, g, h2d)) == Written(buffer, g % 2 * cap, bytes)
  {
    hide Visits, VisitSteps, BucketsOf, CopiedBytes, Written;
    var c := ConfigOf(group, cap, plan, mem, p2p, false);
    assert c.Start(g) == g % 2 * cap;
  }

  // ----- what the workers load

  /** What a worker extracts from payload `g` when it finds `buffer` in the shared memory. */
  ghost function Load(cap: nat, trace: seq<Assigned<H2DBucket>>, g: nat, buffer: seq<Byte>): seq<Weight>
    requires g < |trace|
  {
    var payload := NamedTensors(trace[g].bucket.items, g % 2 * cap);
    if PayloadFits(payload, |buffer|) then Extracted(payload, buffer) else []
  }

  /** All weights that a worker has loaded after the first `n` payloads. */
  ghost function Loaded(cap: nat, trace: seq<Assigned<H2DBucket>>, seen: seq<seq<Byte>>, n: nat): seq<Weight>
    requires n <= |trace| && n <= |seen|
  {
    if n == 0 then [] else Loaded(cap, trace, seen, n - 1) + Load(cap, trace, n - 1, seen[n - 1])
  }

  /** A bucket that carries readable slots of its owner's memory. */
  ghost predicate Sound(mem: int -> Memory, b: Owned<H2DBucket>)
  {
    exists slots :: Carries(b.bucket, slots) && SlotsHold(mem(b.owner), slots)
  }

  lemma {:induction false} PieceHolds(mem: Memory, pieces: seq<seq<Slot>>, j: nat)
    requires j < |pieces| && SlotsHold(mem, Concat(pieces))
    ensures SlotsHold(mem, pieces[j])
  {
    hide SlotHolds;
    var first, rest := pieces[0], Concat(pieces[1..]);
    assert Concat(pieces)[..|first|] == first && Concat(pieces)[|first|..] == rest;
    if j > 0 {
      PieceHolds(mem, pieces[1..], j - 1);
    }
  }

  lemma {:induction false} PartsAreSound(mem: int -> Memory, o: OwnerMetas, part: seq<H2DBucket>, cap: nat,
                                         weights: seq<Weight>, j: nat)
    requires Packed(part, o.buffers, cap) && HoldsWeights(mem(o.owner), o, weights) && j < |part|
    ensures Sound(mem, Owned(o.owner, part[j]))
  {
    hide Carries, Cut, SlotsHold, RangesOk;
    var pieces := Cut(OwnerSlots(o.buffers), SlotSize, cap);
    CutKeepsItems(OwnerSlots(o.buffers), SlotSize, cap);
    PieceHolds(mem(o.owner), pieces, j);
    assert Carries(part[j], pieces[j]);
  }

  lemma {:induction false} TaggedAreSound(mem: int -> Memory, owners: seq<OwnerMetas>, parts: seq<seq<H2DBucket>>,
                                          cap: nat, weights: seq<seq<Weight>>, b: Owned<H2DBucket>)
    requires PackedAll(parts, owners, cap) && AllHoldWeights(mem, owners, weights) && b in TagAll(owners, parts)
    ensures Sound(mem, b)
  {
    hide Packed, HoldsWeights, Sound;
    var n := |parts| - 1;
    if b in TagAll(owners, parts[..n]) {
      TaggedAreSound(mem, owners, parts[..n], cap, weights, b);
    } else {
      var j :| 0 <= j < |parts[n]| && Owned(owners[n].owner, parts[n][j]) == b;
      PartsAreSound(mem, owners[n], parts[n], cap, weights[n], j);
    }
  }

  lemma {:induction false} PlannedAreSound(mem: int -> Memory, owners: seq<OwnerMetas>, parts: seq<seq<H2DBucket>>,
                                           cap: nat,
                                           weights: seq<seq<Weight>>, trace: seq<Assigned<H2DBucket>>, g: nat)
    requires PackedAll(parts, owners, cap) && AllHoldWeights(mem, owners, weights) && Covers(trace, owners, parts)
    requires g < |trace|
    ensures Sound(mem, Owned(trace[g].owner, trace[g].bucket))
  {
    hide PackedAll, AllHoldWeights, Sound, TagAll;
    assert WithoutReceivers(trace)[g] in multiset(WithoutReceivers(trace));
    TaggedAreSound(mem, owners, parts, cap, weights, WithoutReceivers(trace)[g]);
  }

  /** A worker that finds bucket `g` in its half loads exactly the bucket's weights. */
  lemma {:induction false} LoadIsCarried(c: Config, trace: seq<Assigned<H2DBucket>>, mem: int -> Memory, g: nat,
                                         buffer: seq<Byte>)
    requires g < |trace| && c.contents == Contents(trace, mem) && Holds(c, buffer, g)
    requires Sound(mem, Owned(trace[g].owner, trace[g].bucket))
    ensures Load(c.bucketSize, trace, g, buffer) == BucketWeights(mem(trace[g].owner), trace[g].bucket)
  {
    var m, b := mem(trace[g].owner), trace[g].bucket;
    var slots :| Carries(b, slots) && SlotsHold(m, slots);
    hide Carries, SlotsHold, Extracted, StoredWeights, PayloadFits, NamedTensors, BucketWeights;
    WeightsOfBucket(m, b, slots);
    BucketIsExtracted(m, b, slots, buffer, c.Start(g));
    assert c.Start(g) == g % 2 * c.bucketSize;
  }

  lemma {:induction false} LoadedIsCarried(c: Config, trace: seq<Assigned<H2DBucket>>, mem: int -> Memory,
                                           seen: seq<seq<Byte>>, n: nat)
    requires n <= |trace| == |seen| && c.contents == Contents(trace, mem)
    requires forall g :: 0 <= g < |trace| ==> Holds(c, seen[g], g)
    requires forall g :: 0 <= g < |trace| ==> Sound(mem, Owned(trace[g].owner, trace[g].bucket))
    ensures Loaded(c.bucketSize, trace, seen, n) == WeightsIn(mem, WithoutReceivers(trace)[..n])
  {
    hide Holds, Sound, Load, BucketWeights;
    if n > 0 {
      LoadedIsCarried(c, trace, mem, seen, n - 1);
      LoadIsCarried(c, trace, mem, n - 1, seen[n - 1]);
      var items := WithoutReceivers(trace);
      assert items[..n] == items[..n - 1] + [items[n - 1]];
      WeightsInSnoc(mem, items[..n - 1], items[n - 1]);
    }
  }

  /**
   End to end: when the protocol has delivered every bucket of a plan, each worker has loaded
   exactly the registered parameters of all owners, every one once and with its registered bytes.
   */
  lemma {:induction false} EveryWorkerLoadsEverything(c: Config, p: Pair, trace: seq<Assigned<H2DBucket>>,
      mem: int -> Memory, owners: seq<OwnerMetas>, parts: seq<seq<H2DBucket>>, weights: seq<seq<Weight>>)
    requires c.contents == Contents(trace, mem) && Delivered(c, p)
    requires PackedAll(parts, owners, c.bucketSize) && Covers(trace, owners, parts) && AllHoldWeights(mem, owners, weights)
    ensures |p.seen| == |trace|
    ensures multiset(Loaded(c.bucketSize, trace, p.seen, |trace|)) == multiset(Concat(weights))
  {
    hide PackedAll, AllHoldWeights, Sound, Holds, Loaded, WeightsIn, Concat, TagAll;
    forall g | 0 <= g < |trace|
      ensures Sound(mem, Owned(trace[g].owner, trace[g].bucket))
    {
      PlannedAreSound(mem, owners, parts, c.bucketSize, weights, trace, g);
    }
    var items := WithoutReceivers(trace);
    LoadedIsCarried(c, trace, mem, p.seen, |trace|);
    assert items[..|trace|] == items;
    WeightsInPermute(mem, items, TagAll(owners, parts));
    WeightsOfOwners(mem, owners, parts, c.bucketSize, weights);
    AsManyWeights(mem, owners, weights);
    assert weights[..|parts|] == weights;
  }

  lemma {:induction false} AsManyWeights(mem: int -> Memory, owners: seq<OwnerMetas>, weights: seq<seq<Weight>>)
    requires AllHoldWeights(mem, owners, weights)
    ensures |weights| == |owners|
  {
  }

  // ----- a planned update is a valid configuration of the protocol

  lemma {:induction false} TaggedFit(owners: seq<OwnerMetas>, parts: seq<seq<H2DBucket>>, cap: nat,
                                     b: Owned<H2DBucket>, mem: Memory)
    requires PackedAll(parts, owners, cap) && b in TagAll(owners, parts)
    requires forall k :: 0 <= k < |owners| ==> MetasFit(owners[k], cap)
    ensures |BucketBytes(mem, b.bucket)| <= cap
  {
    hide Packed, MetasFit, BucketBytes;
    var n := |parts| - 1;
    if b in TagAll(owners, parts[..n]) {
      TaggedFit(owners, parts[..n], cap, b, mem);
    } else {
      var j :| 0 <= j < |parts[n]| && Owned(owners[n].owner, parts[n][j]) == b;
      PartFits(owners[n], parts[n], cap, j, mem);
    }
  }

  lemma {:induction false} PartFits(o: OwnerMetas, part: seq<H2DBucket>, cap: nat, j: nat, mem: Memory)
    requires Packed(part, o.buffers, cap) && MetasFit(o, cap) && j < |part|
    ensures |BucketBytes(mem, part[j])| <= cap
  {
    hide MetasFit, RangesOk;
    BucketsFit(part, o, cap);
    RangesFillBucket(part[j], Cut(OwnerSlots(o.buffers), SlotSize, cap)[j]);
  }

  lemma {:induction false} SomeBucketIsPlanned(owners: seq<OwnerMetas>, parts: seq<seq<H2DBucket>>, cap: nat)
    requires PackedAll(parts, owners, cap) && parts != []
    ensures TagAll(owners, parts) != []
  {
    hide Carries, RangesOk;
    assert Packed(parts[|parts| - 1], owners[|parts| - 1].buffers, cap);
  }

  lemma {:induction false} PlannedFit(owners: seq<OwnerMetas>, cap: nat, plan: seq<Assigned<H2DBucket>>,
                                      a: Assigned<H2DBucket>, m: Memory)
    requires Covers(plan, owners, PartsFor(owners, cap)) && Largest(owners) <= cap && a in plan
    ensures |BucketBytes(m, a.bucket)| <= cap
  {
    hide PartsFor, TagAll, PackedAll, BucketBytes, Largest, MetasFit;
    GeneratedArePacked(owners, cap);
    var i :| 0 <= i < |plan| && plan[i] == a;
    assert WithoutReceivers(plan)[i] in multiset(WithoutReceivers(plan));
    forall k | 0 <= k < |owners|
      ensures MetasFit(owners[k], cap)
    {
      LargestFits(owners, k, cap);
    }
    TaggedFit(owners, PartsFor(owners, cap), cap, Owned(a.owner, a.bucket), m);
  }

  /** Whichever way the source copies, it gets the bytes that the owner holds for the bucket. */
  lemma {:induction false} CopyIsContent(group: seq<int>, cap: nat, plan: seq<Assigned<H2DBucket>>, mem: int -> Memory,
                                         p2p: bool, useH2D: bool, g: nat)
    requires g < |Visits(plan)| && Visits(plan)[g].receiver in group
    requires p2p || Visits(plan)[g].receiver == Visits(plan)[g].owner
    ensures ConfigOf(group, cap, plan, mem, p2p, useH2D).CopiesContent(g)
  {
    hide Visits, VisitSteps, BucketsOf, BucketBytes;
    VisitedBucketIsFetched(plan, g);
  }

  lemma {:induction false} FetchesFit(group: seq<int>, cap: nat, plan: seq<Assigned<H2DBucket>>, mem: int -> Memory,
                                      p2p: bool, owners: seq<OwnerMetas>, r: nat, i: nat)
    requires Covers(plan, owners, PartsFor(owners, cap)) && Largest(owners) <= cap
    requires r < |group| && i < |BucketsOf(plan, group[r])|
    ensures |FetchedBy(group, plan, mem, p2p)[r][i]| <= cap
  {
    var a := BucketsOf(plan, group[r])[i];
    WhereOnlyKey(plan, ReceiverOf, group[r]);
    assert a in BucketsOf(plan, group[r]);
    hide Covers, Largest, BucketBytes, BucketsOf;
    PlannedFit(owners, cap, plan, a, SourceMemory(mem, p2p, group[r], a));
  }

  lemma {:induction false} SomethingPlanned(owners: seq<OwnerMetas>, cap: nat, plan: seq<Assigned<H2DBucket>>)
    requires Covers(plan, owners, PartsFor(owners, cap)) && owners != []
    ensures Visits(plan) != []
  {
    hide PackedAll, TagAll, Visits;
    GeneratedArePacked(owners, cap);
    SomeBucketIsPlanned(owners, PartsFor(owners, cap), cap);
    assert TagAll(owners, PartsFor(owners, cap))[0] in multiset(WithoutReceivers(plan));
    EveryBucketIsVisitedOnce(plan);
  }

  lemma {:induction false} PlanIsValid(group: seq<int>, cap: nat, plan: seq<Assigned<H2DBucket>>, mem: int -> Memory,
                                       p2p: bool, useH2D: bool, owners: seq<OwnerMetas>)
    requires Covers(plan, owners, PartsFor(owners, cap)) && owners != [] && Largest(owners) <= cap
    requires forall a :: a in plan ==> a.receiver in group && (p2p || a.receiver == a.owner)
    ensures ConfigOf(group, cap, plan, mem, p2p, useH2D).Valid()
  {
    hide Covers, Largest, Visits, VisitSteps, BucketsOf, BucketBytes, PartsFor;
    var c, trace := ConfigOf(group, cap, plan, mem, p2p, useH2D), Visits(plan);
    SomethingPlanned(owners, cap, plan);
    VisitsCover(plan, owners, PartsFor(owners, cap));
    forall g | 0 <= g < |trace|
      ensures |c.contents[g]| <= cap && c.source[g] < |group| && c.CopiesContent(g)
    {
      assert trace[g] in trace;
      PlannedFit(owners, cap, plan, trace[g], mem(trace[g].owner));
      CopyIsContent(group, cap, plan, mem, p2p, useH2D, g);
    }
    assert c.source[0] < |group|;
    forall r, i | 0 <= r < |c.fetched| && 0 <= i < |c.fetched[r]|
      ensures |c.fetched[r][i]| <= cap
    {
      FetchesFit(group, cap, plan, mem, p2p, owners, r, i);
    }
  }

  // ----- the whole update

  /** Worker `r` has loaded exactly the given parameters, each once. */
  ghost predicate HasLoaded(cap: nat, plan: seq<Assigned<H2DBucket>>, p: Pair, weights: seq<seq<Weight>>)
  {
    |p.seen| == |Visits(plan)| && multiset(Loaded(cap, Visits(plan), p.seen, |p.seen|)) == multiset(Concat(weights))
  }

  /**
   In either mode, with or without the staging buffer: a run of the protocol that cannot continue
   leaves each worker of the group with exactly what the owners hold, unless a worker reported an
   error and everybody gave up.
   */
  lemma {:induction false} UpdatePreservesWeights(owners: seq<OwnerMetas>, weights: seq<seq<Weight>>,
                                                  mem: int -> Memory,
      cap: nat, plan: seq<Assigned<H2DBucket>>, group: seq<int>, p2p: bool, useH2D: bool,
      c: Config, st: State, run: seq<UpdateProtocol.Step>, r: nat)
    requires owners != [] && Largest(owners) <= cap && Covers(plan, owners, PartsFor(owners, cap))
    requires AllHoldWeights(mem, owners, weights)
    requires forall a :: a in plan ==> a.receiver in group && (p2p || a.receiver == a.owner)
    requires c == ConfigOf(group, cap, plan, mem, p2p, useH2D)
    requires Initial(c, st) && After(c, st, run).Some? && Stuck(c, After(c, st, run).value)
    requires r < |After(c, st, run).value.pairs|
    ensures var out := After(c, st, run).value;
            || (out.reduces > 0 && AllGivenUp(c, out, out.reduces - 1))
            || HasLoaded(cap, plan, out.pairs[r], weights)
  {
    hide PackedAll, Covers, AllHoldWeights, Visits, Initial, After, Stuck, Loaded, Concat, Delivered, AllGivenUp, Largest, PartsFor;
    PlanIsValid(group, cap, plan, mem, p2p, useH2D, owners);
    FinalStates(c, st, run);
    var out := After(c, st, run).value;
    if AllDelivered(c, out) {
      var parts := PartsFor(owners, cap);
      VisitsCover(plan, owners, parts);
      GeneratedArePacked(owners, cap);
      EveryWorkerLoadsEverything(c, out.pairs[r], Visits(plan), mem, owners, parts, weights);
    }
  }

  /** If no worker fails, nobody gives up. */
  lemma {:induction false} HealthyUpdatesDeliver(c: Config, st: State, run: seq<UpdateProtocol.Step>, j: nat)
    requires c.Valid() && Initial(c, st) && After(c, st, run).Some? && Healthy(run)
    ensures !AllGivenUp(c, After(c, st, run).value, j)
  {
    HealthyRunsAreClean(c, st, run);
  }

  // ----- from the registered checkpoints

  /** The metas that the owners `ids` gather for their checkpoints. */
  function OwnersOf(ids: seq<int>, cks: seq<Checkpoint>): (owners: seq<OwnerMetas>)
    requires |ids| == |cks|
    ensures |owners| == |cks|
    ensures forall k :: 0 <= k < |cks| ==> owners[k] == OwnerMetas(ids[k], CheckpointMetas(cks[k]))
  {
    seq(|cks|, k requires 0 <= k < |cks| => OwnerMetas(ids[k], CheckpointMetas(cks[k])))
  }

  function WeightsOfAll(cks: seq<Checkpoint>): (weights: seq<seq<Weight>>)
    ensures |weights| == |cks| && forall k :: 0 <= k < |cks| ==> weights[k] == CheckpointWeights(cks[k])
  {
    seq(|cks|, k requires 0 <= k < |cks| => CheckpointWeights(cks[k]))
  }

  /** Every owner's memory is what registering its checkpoint left. */
  ghost predicate AllRegistered(mem: int -> Memory, ids: seq<int>, cks: seq<Checkpoint>)
  {
    |ids| == |cks| && forall k :: 0 <= k < |cks| ==> CheckpointStored(mem(ids[k]), cks[k])
  }

  lemma {:induction false} RegisteredHoldWeights(mem: int -> Memory, ids: seq<int>, cks: seq<Checkpoint>)
    requires AllRegistered(mem, ids, cks)
    ensures AllHoldWeights(mem, OwnersOf(ids, cks), WeightsOfAll(cks))
  {
    hide CheckpointStored, HoldsWeights, CheckpointMetas, CheckpointWeights;
    forall k | 0 <= k < |cks|
      ensures HoldsWeights(mem(ids[k]), OwnersOf(ids, cks)[k], WeightsOfAll(cks)[k])
    {
      RegistrationStoresWeights(ids[k], mem(ids[k]), cks[k]);
    }
  }

  /** Whom the update reaches: the given ranks, or all owners. */
  ghost predicate Reaches(group: seq<int>, ids: seq<int>, ranks: set<int>)
  {
    if ranks == {} then forall k :: 0 <= k < |ids| ==> ids[k] in group else forall r :: r in ranks ==> r in group
  }

  lemma {:induction false} ReceiversInGroup(ids: seq<int>, cks: seq<Checkpoint>, cap: nat,
                                            plan: seq<Assigned<H2DBucket>>,
                                            ranks: set<int>, group: seq<int>)
    requires |ids| == |cks| && Covers(plan, OwnersOf(ids, cks), PartsFor(OwnersOf(ids, cks), cap)) && Reaches(group, ids, ranks)
    requires forall a :: a in plan ==> if ranks == {} then a.receiver == a.owner else a.receiver in ranks
    ensures forall a :: a in plan ==> a.receiver in group && (ranks != {} || a.receiver == a.owner)
  {
    hide PartsFor, TagAll, CheckpointMetas;
    var owners := OwnersOf(ids, cks);
    forall a | a in plan
      ensures a.receiver in group
    {
      var i :| 0 <= i < |plan| && plan[i] == a;
      assert WithoutReceivers(plan)[i] in multiset(WithoutReceivers(plan));
      var k, j := TaggedOwners(owners, PartsFor(owners, cap), Owned(a.owner, a.bucket));
    }
  }

  /**
   From end to end: whatever the owners registered, and whichever plan the ranks agree on, every run
   of the update that cannot continue leaves each worker with exactly the registered parameters of
   all owners, each once and with its registered bytes, unless a worker reported an error and
   everybody gave up.
   */
  lemma {:induction false} RegisteredWeightsArriveEverywhere(ids: seq<int>, cks: seq<Checkpoint>, mem: int -> Memory,
      free: nat, disableH2D: bool, maxBytes: nat, localTopo: seq<Group>, remoteTopo: seq<Group>, ranks: set<int>,
      group: seq<int>, plan: UpdatePlan, c: Config, st: State, run: seq<UpdateProtocol.Step>, r: nat)
    requires AllRegistered(mem, ids, cks) && ids != [] && Reaches(group, ids, ranks)
    requires MayPlan(OwnersOf(ids, cks), localTopo, remoteTopo, ranks)
    requires AgreedPlan(free, OwnersOf(ids, cks), disableH2D, maxBytes, localTopo, remoteTopo, ranks) == Some(plan)
    requires c == ConfigOf(group, plan.size.bucketSize, plan.buckets, mem, ranks != {}, !plan.size.disableH2D)
    requires Initial(c, st) && After(c, st, run).Some? && Stuck(c, After(c, st, run).value)
    requires r < |After(c, st, run).value.pairs|
    ensures var out := After(c, st, run).value;
            || (out.reduces > 0 && AllGivenUp(c, out, out.reduces - 1))
            || HasLoaded(plan.size.bucketSize, plan.buckets, out.pairs[r], WeightsOfAll(cks))
  {
    hide AllHoldWeights, HasLoaded, Initial, After, Stuck, AllGivenUp, Largest, PartsFor, Covers, PlanOf, DetectedSize,
         MayPlan, Reaches, CheckpointMetas, CheckpointWeights, CheckpointStored, ConfigOf;
    var owners, cap := OwnersOf(ids, cks), plan.size.bucketSize;
    DetectedSizeFits(free, owners, disableH2D, maxBytes);
    PlanCovers(owners, cap, localTopo, remoteTopo, ranks);
    RegisteredHoldWeights(mem, ids, cks);
    ReceiversInGroup(ids, cks, cap, plan.buckets, ranks, group);
    UpdatePreservesWeights(owners, WeightsOfAll(cks), mem, cap, plan.buckets, group, ranks != {}, !plan.size.disableH2D,
                           c, st, run, r);
  }

  // ----- what holds of every bucket of such a plan

  /** A planned bucket is one of its owner's. */
  lemma {:induction false} PlannedBucket(owners: seq<OwnerMetas>, cap: nat, plan: seq<Assigned<H2DBucket>>,
                                         a: Assigned<H2DBucket>)
    returns (k: nat, j: nat)
    requires Covers(plan, owners, PartsFor(owners, cap)) && a in plan
    ensures k < |owners| && owners[k].owner == a.owner
    ensures j < |BucketsFor(owners[k].buffers, cap)| && BucketsFor(owners[k].buffers, cap)[j] == a.bucket
  {
    hide TagAll, BucketsFor;
    var i :| 0 <= i < |plan| && plan[i] == a;
    assert WithoutReceivers(plan)[i] in multiset(WithoutReceivers(plan));
    k, j := TaggedOwners(owners, PartsFor(owners, cap), Owned(a.owner, a.bucket));
    PartOf(owners, cap, k);
  }

  lemma {:induction false} PartOf(owners: seq<OwnerMetas>, cap: nat, k: nat)
    requires k < |owners|
    ensures PartsFor(owners, cap)[k] == BucketsFor(owners[k].buffers, cap)
  {
    hide BucketsFor;
    if k < |owners| - 1 {
      PartOf(owners[..|owners| - 1], cap, k);
    }
  }

  /** Copying a planned bucket reads registered memory only, and no assertion of the copy fires. */
  lemma {:induction false} PlannedCopiesSucceed(ids: seq<int>, cks: seq<Checkpoint>, mem: int -> Memory, cap: nat,
                                                plan: seq<Assigned<H2DBucket>>, a: Assigned<H2DBucket>)
    requires AllRegistered(mem, ids, cks) && Covers(plan, OwnersOf(ids, cks), PartsFor(OwnersOf(ids, cks), cap))
    requires Largest(OwnersOf(ids, cks)) <= cap && a in plan
    ensures Readable(mem(a.owner), a.bucket.ranges) && RangeTotal(a.bucket.ranges) == a.bucket.size <= cap
  {
    hide Covers, Largest, CheckpointStored, CheckpointMetas, BucketsFor, Readable, RangeTotal, PartsFor, MetasFit, Sized;
    var owners := OwnersOf(ids, cks);
    var k, j := PlannedBucket(owners, cap, plan, a);
    CheckpointSized(mem(ids[k]), cks[k]);
    PackedIsReadable(mem(ids[k]), CheckpointMetas(cks[k]), cap, j);
    LargestFits(owners, k, cap);
    BucketsArePacked(owners[k].buffers, cap);
    BucketsFit(BucketsFor(owners[k].buffers, cap), owners[k], cap);
  }

  /** All checkpoints are pinned normally. */
  ghost predicate NormallyPinned(cks: seq<Checkpoint>)
  {
    forall k :: 0 <= k < |cks| ==> cks[k].files == []
  }

  /** The items of every planned bucket of normally pinned owners are aligned and fill at most the bucket size. */
  lemma {:induction false} PlannedItemsAreAligned(ids: seq<int>, cks: seq<Checkpoint>, cap: nat,
                                                  plan: seq<Assigned<H2DBucket>>, a: Assigned<H2DBucket>)
    requires |ids| == |cks| && NormallyPinned(cks)
    requires Covers(plan, OwnersOf(ids, cks), PartsFor(OwnersOf(ids, cks), cap))
    requires Largest(OwnersOf(ids, cks)) <= cap && a in plan
    ensures AllAligned(a.bucket.items) && AllFit(a.bucket.items) && Total(a.bucket.items, AlignedSize) <= cap
  {
    hide Covers, Largest, CheckpointMetas, BucketsFor, PartsFor, MetasFit, AllAligned, AllFit, Cut, RangesOk, Carries;
    var owners := OwnersOf(ids, cks);
    var k, j := PlannedBucket(owners, cap, plan, a);
    var buffers := owners[k].buffers;
    var part := BucketsFor(buffers, cap);
    LargestFits(owners, k, cap);
    BucketsArePacked(buffers, cap);
    BucketsFit(part, owners[k], cap);
    ItemsFillBucket(part[j], Cut(OwnerSlots(buffers), SlotSize, cap)[j]);
    BucketsPartitionOwner(part, buffers, cap);
    var from, until := ItemsOfBucket(part, j);
    NormalMetas(cks[k]);
    SomeAligned(Concat(buffers), from, until);
  }

  /** Every view that a worker takes of normally pinned parameters is legal. */
  lemma {:induction false} PlannedViewsAreLegal(ids: seq<int>, cks: seq<Checkpoint>, cap: nat,
      plan: seq<Assigned<H2DBucket>>, a: Assigned<H2DBucket>, items: seq<Meta>, gidx: nat, k: nat)
    requires |ids| == |cks| && NormallyPinned(cks)
    requires Covers(plan, OwnersOf(ids, cks), PartsFor(OwnersOf(ids, cks), cap))
    requires Largest(OwnersOf(ids, cks)) <= cap && cap % ALIGN_SIZE == 0
    requires a in plan && items == a.bucket.items && k < |items|
    requires items[k].itemsize > 0 && ALIGN_SIZE % items[k].itemsize == 0
    ensures LegalView(items, cap, gidx, k)
  {
    hide Covers, Largest, CheckpointMetas, PartsFor, AllAligned, NBytes, Total, NamedTensors;
    PlannedItemsAreAligned(ids, cks, cap, plan, a);
    FitAt(items, k);
    ViewsAreLegal(items, cap, gidx, k);
  }

  lemma {:induction false} FitAt(items: seq<Meta>, k: nat)
    requires AllFit(items) && k < |items|
    ensures NBytes(items[k]) <= items[k].alignedSize
  {
  }

  /** For normally pinned checkpoints the bucket size is such a size, if the configured maximum is a whole number of GiB. */
  lemma {:induction false} SizeForPinnedIsAligned(ids: seq<int>, cks: seq<Checkpoint>, free: nat, disableH2D: bool,
                                                  maxBytes: nat, size: Detected)
    requires |ids| == |cks| && NormallyPinned(cks) && maxBytes % ALIGN_SIZE == 0
    requires DetectedSize(free, OwnersOf(ids, cks), disableH2D, maxBytes) == Some(size)
    ensures Largest(OwnersOf(ids, cks)) <= size.bucketSize && size.bucketSize % ALIGN_SIZE == 0
  {
    hide Largest, CheckpointMetas, DetectedSize;
    var owners := OwnersOf(ids, cks);
    DetectedSizeFits(free, owners, disableH2D, maxBytes);
    LargestIsAligned(ids, cks, |cks|);
    assert owners[..|cks|] == owners;
    DetectedSizeIsAligned(free, owners, disableH2D, maxBytes);
  }

  lemma {:induction false} LargestIsAligned(ids: seq<int>, cks: seq<Checkpoint>, n: nat)
    requires |ids| == |cks| && NormallyPinned(cks) && n <= |cks|
    ensures Largest(OwnersOf(ids, cks)[..n]) % ALIGN_SIZE == 0
  {
    hide CheckpointMetas, LargestInBuffers;
    var owners := OwnersOf(ids, cks);
    if n > 0 {
      LargestIsAligned(ids, cks, n - 1);
      LargestNext(owners, n - 1);
      NormalMetas(cks[n - 1]);
      AlignedLargest(CheckpointMetas(cks[n - 1]));
    }
  }
}
