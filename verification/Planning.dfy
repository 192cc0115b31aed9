/** Planning an update: bucket size, buckets and receivers, computed by every rank for itself. */
module Planning {
  import opened BucketSize
  import opened DataTypes
  import opened Layout
  import opened LayoutFacts
  import opened Scheduler
  import opened Sequences
  import opened UpdateLoop

  /** Without ranks, every owner broadcasts its own buckets. */
  function Broadcast<T>(buckets: seq<Owned<T>>): (plan: seq<Assigned<T>>)
    ensures |plan| == |buckets|
    ensures forall i :: 0 <= i < |plan| ==> plan[i] == Assigned(buckets[i].owner, buckets[i].owner, buckets[i].bucket)
  {
    seq(|buckets|, i requires 0 <= i < |buckets| => Assigned(buckets[i].owner, buckets[i].owner, buckets[i].bucket))
  }

  /** A P2P update needs a local group among `ranks` and a device for every owner. */
  ghost predicate MayPlan(owners: seq<OwnerMetas>, localTopo: seq<Group>, remoteTopo: seq<Group>, ranks: set<int>)
  {
    ranks != {} ==>
      && RestrictTopo(localTopo, ranks) != []
      && forall k :: 0 <= k < |owners| ==> owners[k].owner in RankToDevice(remoteTopo)
  }

  lemma {:induction false} TaggedOwners(owners: seq<OwnerMetas>, parts: seq<seq<H2DBucket>>, b: Owned<H2DBucket>)
    returns (k: nat, j: nat)
    requires |parts| <= |owners| && b in TagAll(owners, parts)
    ensures k < |parts| && j < |parts[k]| && b == Owned(owners[k].owner, parts[k][j])
  {
    var n := |parts| - 1;
    if b in TagAll(owners, parts[..n]) {
      k, j := TaggedOwners(owners, parts[..n], b);
    } else {
      k := n;
      j :| 0 <= j < |parts[n]| && b == Owned(owners[n].owner, parts[n][j]);
    }
  }

  lemma {:induction false} PlanIsSchedulable(owners: seq<OwnerMetas>, cap: nat, localTopo: seq<Group>,
                                             remoteTopo: seq<Group>, ranks: set<int>)
    requires MayPlan(owners, localTopo, remoteTopo, ranks) && ranks != {} && GeneratedBuckets(owners, cap).Some?
    ensures Schedulable(GeneratedBuckets(owners, cap).value, RestrictTopo(localTopo, ranks), RankToDevice(remoteTopo))
  {
    hide RestrictTopo, GeneratedBuckets, PackedAll, RankToDevice;
    GeneratedArePacked(owners, cap);
    var buckets := GeneratedBuckets(owners, cap).value;
    forall b | b in buckets
      ensures b.owner in RankToDevice(remoteTopo)
    {
      var k, j := TaggedOwners(owners, PartsFor(owners, cap), b);
    }
  }

  /** The plan: which rank broadcasts which bucket; an empty set of ranks means a broadcast update. */
  function PlanOf(owners: seq<OwnerMetas>, cap: nat, localTopo: seq<Group>, remoteTopo: seq<Group>, ranks: set<int>)
    : Option<seq<Assigned<H2DBucket>>>
    requires MayPlan(owners, localTopo, remoteTopo, ranks)
  {
    var r := GeneratedBuckets(owners, cap);
    if r.None? then None
    else if ranks == {} then Some(Broadcast(r.value))
    else
      PlanIsSchedulable(owners, cap, localTopo, remoteTopo, ranks);
      Some(Assignment(r.value, RestrictTopo(localTopo, ranks), RankToDevice(remoteTopo)))
  }

  /** `_gen_h2d_buckets`. */
  method PlanUpdate(owners: seq<OwnerMetas>, cap: nat, localTopo: seq<Group>, remoteTopo: seq<Group>, ranks: set<int>)
    returns (plan: Option<seq<Assigned<H2DBucket>>>)
    requires MayPlan(owners, localTopo, remoteTopo, ranks)
    ensures plan == PlanOf(owners, cap, localTopo, remoteTopo, ranks)
  {
    hide GeneratedBuckets, RestrictTopo, Assignment, RankToDevice, Schedulable;
    var r := GenH2DBuckets(owners, cap);
    if r.None? {
      return None;
    }
    if ranks == {} {
      return Some(Broadcast(r.value));
    }
    PlanIsSchedulable(owners, cap, localTopo, remoteTopo, ranks);
    var received := AssignReceiverRanks(r.value, RestrictTopo(localTopo, ranks), remoteTopo);
    plan := Some(received);
  }

  // ----- what a plan is

  /** The plan covers all buckets of all owners, each exactly once. */
  ghost predicate Covers(plan: seq<Assigned<H2DBucket>>, owners: seq<OwnerMetas>, parts: seq<seq<H2DBucket>>)
  {
    |parts| == |owners| && multiset(WithoutReceivers(plan)) == multiset(TagAll(owners, parts))
  }

  lemma {:induction false} BroadcastKeepsBuckets(buckets: seq<Owned<H2DBucket>>)
    ensures WithoutReceivers(Broadcast(buckets)) == buckets
  {
  }

  /** Both kinds of plan assign every bucket of every owner to exactly one rank, among those of the update. */
  lemma {:induction false} PlanCovers(owners: seq<OwnerMetas>, cap: nat, localTopo: seq<Group>, remoteTopo: seq<Group>,
                                      ranks: set<int>)
    requires MayPlan(owners, localTopo, remoteTopo, ranks) && PlanOf(owners, cap, localTopo, remoteTopo, ranks).Some?
    ensures var plan := PlanOf(owners, cap, localTopo, remoteTopo, ranks).value;
            && Covers(plan, owners, PartsFor(owners, cap))
            && (forall a :: a in plan ==> if ranks == {} then a.receiver == a.owner else a.receiver in ranks)
  {
    hide GeneratedBuckets, RestrictTopo, Assignment, RankToDevice, Schedulable, PackedAll, TagAll, MayPlan;
    var buckets := GeneratedBuckets(owners, cap).value;
    GeneratedArePacked(owners, cap);
    if ranks == {} {
      BroadcastKeepsBuckets(buckets);
    } else {
      PlanIsSchedulable(owners, cap, localTopo, remoteTopo, ranks);
      AssignmentIsPermutation(buckets, RestrictTopo(localTopo, ranks), RankToDevice(remoteTopo));
      ReceiversAreUpdated(buckets, localTopo, ranks, RankToDevice(remoteTopo));
    }
  }

  /** Planning fails exactly for an owner without bytes, when the bucket size reaches the largest parameter. */
  lemma {:induction false} PlanSucceeds(owners: seq<OwnerMetas>, cap: nat, localTopo: seq<Group>,
                                        remoteTopo: seq<Group>,
                                        ranks: set<int>)
    requires MayPlan(owners, localTopo, remoteTopo, ranks) && Largest(owners) <= cap
    ensures PlanOf(owners, cap, localTopo, remoteTopo, ranks).Some?
            <==> forall k :: 0 <= k < |owners| ==> HasBytes(owners[k])
  {
    hide GeneratedBuckets, RestrictTopo, Assignment, RankToDevice, Schedulable, MayPlan, LastBucketUsed, HasBytes, MetasFit;
    GeneratedSucceeds(owners, cap);
    forall k | 0 <= k < |owners|
      ensures LastBucketUsed(owners[k], cap) <==> HasBytes(owners[k])
    {
      LargestFits(owners, k, cap);
      UsedWhenBytes(owners[k], cap);
    }
  }

  ghost predicate HasBytes(o: OwnerMetas)
  {
    |OwnerCells(o.buffers)| > 0
  }

  lemma {:induction false} UsedWhenBytes(o: OwnerMetas, cap: nat)
    requires MetasFit(o, cap)
    ensures LastBucketUsed(o, cap) <==> HasBytes(o)
  {
    CheckFailsOnlyWithoutBytes(o, cap);
    OwnerSlotsAreContiguous(o.buffers);
    SlotCellsLength(OwnerSlots(o.buffers));
  }

  /** On the plan of a P2P update the update loop visits the buckets in the scheduler's order. */
  lemma {:induction false} LoopFollowsPlan(owners: seq<OwnerMetas>, cap: nat, localTopo: seq<Group>,
                                           remoteTopo: seq<Group>,
                                           ranks: set<int>)
    requires MayPlan(owners, localTopo, remoteTopo, ranks) && PlanOf(owners, cap, localTopo, remoteTopo, ranks).Some?
    requires DisjointGroups(localTopo) && ranks != {}
    ensures var plan := PlanOf(owners, cap, localTopo, remoteTopo, ranks).value; Visits(plan) == plan
  {
    hide GeneratedBuckets, RestrictTopo, Assignment, RankToDevice, Schedulable, MayPlan, DisjointGroups, Visits;
    PlanIsSchedulable(owners, cap, localTopo, remoteTopo, ranks);
    RestrictKeepsDisjoint(localTopo, ranks);
    LoopFollowsSchedule(GeneratedBuckets(owners, cap).value, RestrictTopo(localTopo, ranks), RankToDevice(remoteTopo));
  }

  lemma {:induction false} DifferentDevices(topo: seq<Group>, a: int, b: int, g: Group, h: Group)
    requires DisjointGroups(topo) && g in topo && h in topo && a in g.ranks && b in h.ranks
    requires a in RankToDevice(topo) && b in RankToDevice(topo) && RankToDevice(topo)[a] != RankToDevice(topo)[b]
    ensures g.device != h.device
  {
    RanksHaveTheirDevice(topo, a);
    RanksHaveTheirDevice(topo, b);
  }

  /**
   In every step of a P2P update the buckets fetched together come from different sender devices: the
   groups of the remote topology that their owners belong to have different ones.
   */
  lemma {:induction false} PlannedFetchesDoNotConflict(owners: seq<OwnerMetas>, cap: nat, localTopo: seq<Group>,
      remoteTopo: seq<Group>, ranks: set<int>, r: int, s: int, i: nat, g: Group, h: Group)
    requires MayPlan(owners, localTopo, remoteTopo, ranks) && PlanOf(owners, cap, localTopo, remoteTopo, ranks).Some?
    requires DisjointGroups(localTopo) && DisjointGroups(remoteTopo) && ranks != {} && r != s
    requires i < |BucketsOf(PlanOf(owners, cap, localTopo, remoteTopo, ranks).value, r)|
    requires i < |BucketsOf(PlanOf(owners, cap, localTopo, remoteTopo, ranks).value, s)|
    requires g in remoteTopo && BucketsOf(PlanOf(owners, cap, localTopo, remoteTopo, ranks).value, r)[i].owner in g.ranks
    requires h in remoteTopo && BucketsOf(PlanOf(owners, cap, localTopo, remoteTopo, ranks).value, s)[i].owner in h.ranks
    ensures g.device != h.device
  {
    hide GeneratedBuckets, RestrictTopo, Assignment, RankToDevice, Schedulable, MayPlan, DisjointGroups, BucketsOf;
    PlanIsSchedulable(owners, cap, localTopo, remoteTopo, ranks);
    RestrictKeepsDisjoint(localTopo, ranks);
    FetchesDoNotConflict(GeneratedBuckets(owners, cap).value, RestrictTopo(localTopo, ranks), RankToDevice(remoteTopo), r, s, i);
    var plan := PlanOf(owners, cap, localTopo, remoteTopo, ranks).value;
    DifferentDevices(remoteTopo, BucketsOf(plan, r)[i].owner, BucketsOf(plan, s)[i].owner, g, h);
  }

  /** Every owner in a P2P plan belongs to a group of the remote topology. */
  lemma {:induction false} PlannedOwnersHaveGroups(owners: seq<OwnerMetas>, cap: nat, localTopo: seq<Group>,
      remoteTopo: seq<Group>, ranks: set<int>, a: Assigned<H2DBucket>)
    requires MayPlan(owners, localTopo, remoteTopo, ranks) && PlanOf(owners, cap, localTopo, remoteTopo, ranks).Some?
    requires ranks != {} && a in PlanOf(owners, cap, localTopo, remoteTopo, ranks).value
    ensures exists g :: g in remoteTopo && a.owner in g.ranks
  {
    hide GeneratedBuckets, RestrictTopo, Assignment, RankToDevice, PlanOf, PartsFor, TagAll;
    var plan := PlanOf(owners, cap, localTopo, remoteTopo, ranks).value;
    PlanCovers(owners, cap, localTopo, remoteTopo, ranks);
    var i :| 0 <= i < |plan| && plan[i] == a;
    assert WithoutReceivers(plan)[i] in multiset(WithoutReceivers(plan));
    var k, j := TaggedOwners(owners, PartsFor(owners, cap), Owned(a.owner, a.bucket));
    var n := RankOfDevice(remoteTopo, owners[k].owner);
    assert remoteTopo[n] in remoteTopo;
  }

  /**
   The receivers of a P2P update: as many as there are local groups with a rank being updated, or sender
   devices if these are fewer, and each is the least such rank of its group.
   */
  lemma {:induction false} PlannedReceivers(owners: seq<OwnerMetas>, cap: nat, localTopo: seq<Group>,
      remoteTopo: seq<Group>, ranks: set<int>, i: nat)
    requires MayPlan(owners, localTopo, remoteTopo, ranks) && PlanOf(owners, cap, localTopo, remoteTopo, ranks).Some?
    requires DisjointGroups(localTopo) && ranks != {} && i < |localTopo| && localTopo[i].ranks * ranks != {}
    ensures var used := FirstSeen(PlanOf(owners, cap, localTopo, remoteTopo, ranks).value, ReceiverOf);
            var device := RankToDevice(remoteTopo);
            var senders := |set b | b in GeneratedBuckets(owners, cap).value && b.owner in device :: device[b.owner]|;
            var groups, k := Sharing(localTopo, ranks, |localTopo|), Sharing(localTopo, ranks, i);
            && |used| == (if groups < senders then groups else senders)
            && (k < |used| ==> IsLeast(used[k], localTopo[i].ranks * ranks))
  {
    hide GeneratedBuckets, RestrictTopo, Assignment, RankToDevice, Schedulable, MayPlan, DisjointGroups, IsLeast;
    PlanIsSchedulable(owners, cap, localTopo, remoteTopo, ranks);
    RestrictKeepsDisjoint(localTopo, ranks);
    RestrictedAt(localTopo, ranks, i);
    var buckets, device := GeneratedBuckets(owners, cap).value, RankToDevice(remoteTopo);
    ReceiversInUse(buckets, RestrictTopo(localTopo, ranks), device);
    OwnersAreKnown(buckets, RestrictTopo(localTopo, ranks), device);
    assert (set b | b in buckets && b.owner in device :: device[b.owner]) == (set b | b in buckets :: device[b.owner]);
  }

  lemma {:induction false} OwnersAreKnown<T>(buckets: seq<Owned<T>>, localTopo: seq<Group>, device: map<int, Device>)
    requires Schedulable(buckets, localTopo, device)
    ensures forall b :: b in buckets ==> b.owner in device
  {
  }

  // ----- the visits of a plan

  lemma {:induction false} VisitsCover(plan: seq<Assigned<H2DBucket>>, owners: seq<OwnerMetas>,
                                       parts: seq<seq<H2DBucket>>)
    requires Covers(plan, owners, parts)
    ensures Covers(Visits(plan), owners, parts) && forall a :: a in Visits(plan) <==> a in plan
  {
    hide Visits, TagAll;
    EveryBucketIsVisitedOnce(plan);
    DropReceivers(plan, Visits(plan));
    forall a
      ensures a in Visits(plan) <==> a in plan
    {
      assert a in multiset(plan) <==> a in multiset(Visits(plan));
    }
  }

  lemma {:induction false} DropReceivers(a: seq<Assigned<H2DBucket>>, b: seq<Assigned<H2DBucket>>)
    requires multiset(a) == multiset(b)
    ensures multiset(WithoutReceivers(a)) == multiset(WithoutReceivers(b))
  {
    if a == [] {
      PermutationOfNothing(a, b);
    } else {
      var front, x := a[..|a| - 1], a[|a| - 1];
      var i := FindLast(a, b);
      var rest := b[..i] + b[i + 1..];
      DropReceivers(front, rest);
      DropOne(b[..i], b[i], b[i + 1..]);
      DropOne(front, x, []);
      assert a == front + [x] + [] && front + [] == front;
    }
  }

  lemma {:induction false} DropOne(a: seq<Assigned<H2DBucket>>, x: Assigned<H2DBucket>, b: seq<Assigned<H2DBucket>>)
    ensures multiset(WithoutReceivers(a + [x] + b))
         == multiset(WithoutReceivers(a + b)) + multiset{Owned(x.owner, x.bucket)}
  {
    var y := Owned(x.owner, x.bucket);
    assert WithoutReceivers(a + [x] + b) == WithoutReceivers(a) + [y] + WithoutReceivers(b);
    assert WithoutReceivers(a + b) == WithoutReceivers(a) + WithoutReceivers(b);
  }

  // ----- all ranks come to the same plan

  /** What a rank goes into the update loop with. */
  datatype UpdatePlan = UpdatePlan(size: Detected, buckets: seq<Assigned<H2DBucket>>)

  /** What all ranks agree on, given the reduced free memory and the gathered metas and topologies. */
  function AgreedPlan(free: nat, owners: seq<OwnerMetas>, disableH2D: bool, maxBytes: nat, localTopo: seq<Group>,
                      remoteTopo: seq<Group>, ranks: set<int>): Option<UpdatePlan>
    requires MayPlan(owners, localTopo, remoteTopo, ranks)
  {
    var size := DetectedSize(free, owners, disableH2D, maxBytes);
    if size.None? then None
    else
      var plan := PlanOf(owners, size.value.bucketSize, localTopo, remoteTopo, ranks);
      if plan.None? then None else Some(UpdatePlan(size.value, plan.value))
  }

  /** One rank's computation, after the all-reduce. */
  method PlanOnRank(free: nat, owners: seq<OwnerMetas>, disableH2D: bool, maxBytes: nat, localTopo: seq<Group>,
                    remoteTopo: seq<Group>, ranks: set<int>)
    returns (p: Option<UpdatePlan>)
    requires MayPlan(owners, localTopo, remoteTopo, ranks)
    ensures p == AgreedPlan(free, owners, disableH2D, maxBytes, localTopo, remoteTopo, ranks)
  {
    hide DetectedSize, PlanOf, MayPlan;
    var size := DetectBucketSize(free, owners, disableH2D, maxBytes);
    if size.None? {
      return None;
    }
    var plan := PlanUpdate(owners, size.value.bucketSize, localTopo, remoteTopo, ranks);
    p := if plan.None? then None else Some(UpdatePlan(size.value, plan.value));
  }

  /** What a rank of the group takes part in: its plan and its way through the update loop. */
  datatype RankRun = RankRun(plan: Option<UpdatePlan>, trace: seq<Assigned<H2DBucket>>, steps: seq<nat>,
                             sent: seq<Assigned<H2DBucket>>)

  /** What the rank must come to. */
  function AgreedRun(plan: Option<UpdatePlan>, rank: int): RankRun
  {
    if plan.None? then RankRun(None, [], [], [])
    else
      var trace := Visits(plan.value.buckets);
      RankRun(plan, trace, VisitSteps(plan.value.buckets), BucketsOf(trace, rank))
  }

  /**
   All ranks of the group, with free memory `frees`, reduce it, plan and go through the update loop:
   they come to the same bucket size, bucket list and sequence of broadcasts, or all fail.
   */
  method PlanOnAllRanks(group: seq<int>, frees: seq<nat>, owners: seq<OwnerMetas>, disableH2D: bool, maxBytes: nat,
                        localTopo: seq<Group>, remoteTopo: seq<Group>, ranks: set<int>)
    returns (runs: seq<RankRun>)
    requires |frees| == |group| > 0 && MayPlan(owners, localTopo, remoteTopo, ranks)
    ensures |runs| == |group|
    ensures var plan := AgreedPlan(AllReduceMin(frees), owners, disableH2D, maxBytes, localTopo, remoteTopo, ranks);
            forall r :: 0 <= r < |group| ==> runs[r] == AgreedRun(plan, group[r])
  {
    hide AgreedPlan, MayPlan, Visits, VisitSteps, BucketsOf;
    runs := [];
    ghost var plan := AgreedPlan(AllReduceMin(frees), owners, disableH2D, maxBytes, localTopo, remoteTopo, ranks);
    for r := 0 to |group|
      invariant |runs| == r
      invariant forall q :: 0 <= q < r ==> runs[q] == AgreedRun(plan, group[q])
    {
      var p := PlanOnRank(AllReduceMin(frees), owners, disableH2D, maxBytes, localTopo, remoteTopo, ranks);
      var run := RankRun(p, [], [], []);
      if p.Some? {
        var trace, steps, sent := RunUpdateLoop(p.value.buckets, group[r], p.value.size.disableH2D);
        run := RankRun(p, trace, steps, sent);
      }
      runs := runs + [run];
    }
  }
}
