/** Which rank fetches which bucket: the P2P receiver assignment. */
module Scheduler {
  import opened DataTypes
  import opened Flattening
  import opened Rounds
  import opened Sequences

  /** An RDMA device, named together with its host. */
  datatype Device = Device(name: string)

  /** A topology dictionary is the list of its entries, in insertion order. */
  datatype Group = Group(device: Device, ranks: set<int>)

  function ReceiverOf<T>(a: Assigned<T>): int
  {
    a.receiver
  }

  /** The dictionary comprehension over the sender topology; a later entry wins. */
  function RankToDevice(topo: seq<Group>): map<int, Device>
  {
    if topo == [] then map[]
    else
      var last := topo[|topo| - 1];
      RankToDevice(topo[..|topo| - 1]) + map r | r in last.ranks :: last.device
  }

  /** A rank of several groups has the device of the last one. */
  lemma {:induction false} DeviceOfRank(topo: seq<Group>, i: nat, r: int)
    requires i < |topo| && r in topo[i].ranks && forall j :: i < j < |topo| ==> r !in topo[j].ranks
    ensures r in RankToDevice(topo) && RankToDevice(topo)[r] == topo[i].device
  {
    if i < |topo| - 1 {
      DeviceOfRank(topo[..|topo| - 1], i, r);
    }
  }

  /** Only ranks of some group have a device. */
  lemma {:induction false} RankOfDevice(topo: seq<Group>, r: int) returns (i: nat)
    requires r in RankToDevice(topo)
    ensures i < |topo| && r in topo[i].ranks
  {
    var n := |topo| - 1;
    if r in topo[n].ranks {
      i := n;
    } else {
      i := RankOfDevice(topo[..n], r);
    }
  }

  /** With disjoint groups the map holds every rank of every group with that group's device, and nothing else. */
  lemma {:induction false} RanksHaveTheirDevice(topo: seq<Group>, r: int)
    requires DisjointGroups(topo)
    ensures r in RankToDevice(topo) <==> exists g :: g in topo && r in g.ranks
    ensures forall g :: g in topo && r in g.ranks ==> r in RankToDevice(topo) && RankToDevice(topo)[r] == g.device
  {
    hide RankToDevice;
    forall g | g in topo && r in g.ranks
      ensures r in RankToDevice(topo) && RankToDevice(topo)[r] == g.device
    {
      var i :| 0 <= i < |topo| && topo[i] == g;
      DeviceOfRank(topo, i, r);
    }
    if r in RankToDevice(topo) {
      var i := RankOfDevice(topo, r);
      assert topo[i] in topo;
    }
  }

  /** The sender device of a bucket. */
  function DeviceOf<T>(device: map<int, Device>): Owned<T> -> Device
  {
    (b: Owned<T>) => if b.owner in device then device[b.owner] else Device("")
  }

  lemma {:induction false} HasMinimum(s: set<int>, e: int)
    requires e in s
    ensures exists m :: m in s && forall x :: x in s ==> m <= x
    decreases s
  {
    if y :| y in s && y < e {
      HasMinimum(s - {e}, y);
      var m :| m in s - {e} && forall x :: x in s - {e} ==> m <= x;
      assert forall x :: x in s ==> x == e || x in s - {e};
      assert m <= y && m in s;
    }
  }

  function MinOf(s: set<int>): (m: int)
    requires s != {}
    ensures m in s && forall x :: x in s ==> m <= x
  {
    assert (forall e: int :: e !in s) ==> s == {};
    var e :| e in s;
    HasMinimum(s, e);
    var m :| m in s && forall x :: x in s ==> m <= x;
    m
  }

  /** The receiver topology cut down to the ranks being updated; groups left empty are dropped. */
  function RestrictTopo(topo: seq<Group>, ranks: set<int>): (kept: seq<Group>)
    ensures forall g :: g in kept ==> g.ranks != {} && g.ranks <= ranks
  {
    if topo == [] then []
    else
      var common := topo[0].ranks * ranks;
      (if common != {} then [Group(topo[0].device, common)] else []) + RestrictTopo(topo[1..], ranks)
  }

  ghost predicate IsLeast(r: int, ranks: set<int>)
  {
    r in ranks && forall x :: x in ranks ==> r <= x
  }

  /** How many of the first `n` groups share a rank with `ranks`. */
  function Sharing(topo: seq<Group>, ranks: set<int>, n: nat): nat
    requires n <= |topo|
  {
    if n == 0 then 0 else Sharing(topo, ranks, n - 1) + if topo[n - 1].ranks * ranks != {} then 1 else 0
  }

  lemma {:induction false} SharingNext(topo: seq<Group>, ranks: set<int>, n: nat)
    requires 0 < |topo| && n <= |topo| - 1
    ensures Sharing(topo, ranks, n + 1)
         == (if topo[0].ranks * ranks != {} then 1 else 0) + Sharing(topo[1..], ranks, n)
  {
    if n > 0 {
      SharingNext(topo, ranks, n - 1);
      assert topo[1..][n - 1] == topo[n];
    }
  }

  /** The restricted topology keeps, in order, exactly the groups that share a rank, cut down to the shared ranks. */
  lemma {:induction false} RestrictedAt(topo: seq<Group>, ranks: set<int>, i: nat)
    requires i < |topo|
    ensures |RestrictTopo(topo, ranks)| == Sharing(topo, ranks, |topo|)
    ensures topo[i].ranks * ranks != {} ==>
      var k := Sharing(topo, ranks, i);
      k < |RestrictTopo(topo, ranks)| && RestrictTopo(topo, ranks)[k] == Group(topo[i].device, topo[i].ranks * ranks)
  {
    RestrictedCount(topo, ranks);
    if i > 0 {
      RestrictedAt(topo[1..], ranks, i - 1);
      SharingNext(topo, ranks, i - 1);
    }
  }

  lemma {:induction false} RestrictedCount(topo: seq<Group>, ranks: set<int>)
    ensures |RestrictTopo(topo, ranks)| == Sharing(topo, ranks, |topo|)
  {
    if topo != [] {
      RestrictedCount(topo[1..], ranks);
      SharingNext(topo, ranks, |topo| - 1);
    }
  }

  /** One receiver per local device: the smallest rank of each of the first `n` groups. */
  function ReceiverList(topo: seq<Group>, n: nat): (receivers: seq<int>)
    requires n <= |topo| && forall g :: g in topo ==> g.ranks != {}
    ensures |receivers| == n
    ensures forall k :: 0 <= k < n ==> IsLeast(receivers[k], topo[k].ranks)
  {
    seq(n, k requires 0 <= k < n => MinOf(topo[k].ranks))
  }

  ghost predicate DisjointGroups(topo: seq<Group>)
  {
    forall i, j :: 0 <= i < j < |topo| ==> topo[i].ranks !! topo[j].ranks
  }

  lemma {:induction false} ReceiversAreDistinct(topo: seq<Group>, n: nat)
    requires n <= |topo| && DisjointGroups(topo) && forall g :: g in topo ==> g.ranks != {}
    ensures AllDistinct(ReceiverList(topo, n))
  {
    var receivers := ReceiverList(topo, n);
    forall i, j | 0 <= i < j < n
      ensures receivers[i] != receivers[j]
    {
      assert IsLeast(receivers[i], topo[i].ranks) && IsLeast(receivers[j], topo[j].ranks);
    }
  }

  lemma {:induction false} RestrictKeepsDisjoint(topo: seq<Group>, ranks: set<int>)
    requires DisjointGroups(topo)
    ensures DisjointGroups(RestrictTopo(topo, ranks))
    ensures forall g :: g in RestrictTopo(topo, ranks) ==> exists h :: h in topo && g.ranks <= h.ranks
  {
    if topo != [] {
      var rest := RestrictTopo(topo[1..], ranks);
      RestrictKeepsDisjoint(topo[1..], ranks);
      forall g | g in rest
        ensures g.ranks !! topo[0].ranks && exists h :: h in topo && g.ranks <= h.ranks
      {
        var h :| h in topo[1..] && g.ranks <= h.ranks;
        var i :| 1 <= i < |topo| && topo[i] == h;
        assert topo[0].ranks !! topo[i].ranks;
      }
      var common := topo[0].ranks * ranks;
      assert topo[0] in topo && common <= topo[0].ranks;
    }
  }

  // ----- the assignment as a function

  /** The buckets filed by sender device, devices in order of first appearance. */
  function Matrix<T>(buckets: seq<Owned<T>>, device: map<int, Device>): seq<seq<Owned<T>>>
  {
    var order := FirstSeen(buckets, DeviceOf(device));
    seq(|order|, r requires 0 <= r < |order| => Where(buckets, DeviceOf(device), order[r]))
  }

  function SenderDevices<T>(items: seq<Owned<T>>, device: map<int, Device>): (devs: seq<Device>)
    ensures |devs| == |items|
  {
    seq(|items|, p requires 0 <= p < |items| => DeviceOf(device)(items[p]))
  }

  /** A round: `count` buckets from position `p` on, one to each of the first receivers. */
  function HandOut<T>(items: seq<Owned<T>>, receivers: seq<int>, p: nat, count: nat): (out: seq<Assigned<T>>)
    requires p + count <= |items| && count <= |receivers|
    ensures |out| == count
  {
    if count == 0 then []
    else
      HandOut(items, receivers, p, count - 1)
      + [Assigned(receivers[count - 1], items[p + count - 1].owner, items[p + count - 1].bucket)]
  }

  /** Entry `a` hands bucket `q` of `items` to `receiver`. */
  ghost predicate IsItem<T>(a: Assigned<T>, items: seq<Owned<T>>, receiver: int, q: nat)
  {
    q < |items| && a == Assigned(receiver, items[q].owner, items[q].bucket)
  }

  lemma {:induction false} HandOutNext<T>(items: seq<Owned<T>>, receivers: seq<int>, p: nat, k: nat)
    requires p + k < |items| && k < |receivers|
    ensures HandOut(items, receivers, p, k + 1)
         == HandOut(items, receivers, p, k) + [Assigned(receivers[k], items[p + k].owner, items[p + k].bucket)]
  {
  }

  lemma {:induction false} HandOutAt<T>(items: seq<Owned<T>>, receivers: seq<int>, p: nat, count: nat, k: nat)
    requires p + count <= |items| && k < count <= |receivers|
    ensures IsItem(HandOut(items, receivers, p, count)[k], items, receivers[k], p + k)
  {
    if k < count - 1 {
      HandOutAt(items, receivers, p, count - 1, k);
    }
  }

  function AssignFrom<T>(items: seq<Owned<T>>, devs: seq<Device>, receivers: seq<int>, p: nat): (out: seq<Assigned<T>>)
    requires p <= |items| == |devs| && receivers != []
    ensures |out| == |items| - p
    decreases |items| - p
  {
    if p == |items| then []
    else
      var len := RoundLength(devs, p, 1, |receivers|);
      HandOut(items, receivers, p, len) + AssignFrom(items, devs, receivers, p + len)
  }

  function ReceiversFor<T>(buckets: seq<Owned<T>>, localTopo: seq<Group>, device: map<int, Device>): seq<int>
    requires forall g :: g in localTopo ==> g.ranks != {}
  {
    var senders := |FirstSeen(buckets, DeviceOf(device))|;
    ReceiverList(localTopo, if |localTopo| < senders then |localTopo| else senders)
  }

  /** What the scheduler demands of its caller. */
  ghost predicate Schedulable<T>(buckets: seq<Owned<T>>, localTopo: seq<Group>, device: map<int, Device>)
  {
    && localTopo != []
    && (forall g :: g in localTopo ==> g.ranks != {})
    && (forall b :: b in buckets ==> b.owner in device)
  }

  lemma {:induction false} DistinctCount<K>(s: seq<K>)
    requires AllDistinct(s)
    ensures |set x | x in s| == |s|
  {
    if s != [] {
      var front, last := s[..|s| - 1], s[|s| - 1];
      DistinctCount(front);
      assert s == front + [last] && last !in front;
      assert (set x | x in s) == (set x | x in front) + {last};
    }
  }

  /** There are as many receivers as local groups and sender devices allow. */
  lemma {:induction false} ReceiverCount<T>(buckets: seq<Owned<T>>, localTopo: seq<Group>, device: map<int, Device>)
    requires Schedulable(buckets, localTopo, device)
    ensures var senders := |set b | b in buckets :: device[b.owner]|;
            |ReceiversFor(buckets, localTopo, device)| == if |localTopo| < senders then |localTopo| else senders
  {
    var order := FirstSeen(buckets, DeviceOf(device));
    FirstSeenKeys(buckets, DeviceOf(device));
    DistinctCount(order);
    forall d
      ensures d in order <==> d in (set b | b in buckets :: device[b.owner])
    {
      if d in order {
        var i :| 0 <= i < |buckets| && DeviceOf<T>(device)(buckets[i]) == d;
        assert buckets[i] in buckets;
      }
      if d in (set b | b in buckets :: device[b.owner]) {
        var b :| b in buckets && device[b.owner] == d;
        assert DeviceOf<T>(device)(b) == d;
      }
    }
    assert (set b | b in buckets :: device[b.owner]) == (set d | d in order);
  }

  lemma {:induction false} SomeReceiver<T>(buckets: seq<Owned<T>>, localTopo: seq<Group>, device: map<int, Device>)
    requires Schedulable(buckets, localTopo, device) && buckets != []
    ensures ReceiversFor(buckets, localTopo, device) != []
  {
    FirstSeenKeys(buckets, DeviceOf(device));
    assert DeviceOf(device)(buckets[0]) in FirstSeen(buckets, DeviceOf(device));
  }

  function Assignment<T>(buckets: seq<Owned<T>>, localTopo: seq<Group>, device: map<int, Device>): seq<Assigned<T>>
    requires Schedulable(buckets, localTopo, device)
  {
    if buckets == [] then []
    else
      SomeReceiver(buckets, localTopo, device);
      var items := Flatten(Matrix(buckets, device));
      AssignFrom(items, SenderDevices(items, device), ReceiversFor(buckets, localTopo, device), 0)
  }

  // ----- the assignment as the code computes it

  /** `defaultdict(list)` filled in bucket order. */
  method GroupByDevice<T>(buckets: seq<Owned<T>>, device: map<int, Device>)
    returns (order: seq<Device>, groups: map<Device, seq<Owned<T>>>)
    requires forall b :: b in buckets ==> b.owner in device
    ensures Filed(buckets, DeviceOf(device), order, groups)
  {
    order, groups := [], map[];
    for i := 0 to |buckets|
      invariant Filed(buckets[..i], DeviceOf(device), order, groups)
    {
      var b := buckets[i];
      assert b in buckets;
      var d := device[b.owner];
      FileOne(buckets[..i], b, DeviceOf(device), order, groups);
      assert buckets[..i + 1] == buckets[..i] + [b];
      if d in groups {
        groups := groups[d := groups[d] + [b]];
      } else {
        order := order + [d];
        groups := groups[d := [b]];
      }
    }
    assert buckets[..|buckets|] == buckets;
  }

  /** The devices of the first `k` buckets of the round at `start`. */
  function Occupied(devs: seq<Device>, start: nat, k: nat): set<Device>
    requires start + k <= |devs|
  {
    if k == 0 then {} else Occupied(devs, start, k - 1) + {devs[start + k - 1]}
  }

  lemma {:induction false} OccupiedDevices(devs: seq<Device>, start: nat, k: nat, d: Device)
    requires start + k <= |devs|
    ensures d in Occupied(devs, start, k) <==> d in devs[start..start + k]
  {
    if k > 0 {
      OccupiedDevices(devs, start, k - 1, d);
      assert devs[start..start + k] == devs[start..start + k - 1] + [devs[start + k - 1]];
    }
  }

  lemma {:induction false} TakeOne(devs: seq<Device>, start: nat, k: nat, width: nat)
    requires start + k < |devs| && k < width
    requires devs[start + k] !in Occupied(devs, start, k)
    ensures RoundLength(devs, start, k, width) == RoundLength(devs, start, k + 1, width)
  {
    OccupiedDevices(devs, start, k, devs[start + k]);
  }

  lemma {:induction false} RoundIsOver(devs: seq<Device>, start: nat, k: nat, width: nat)
    requires start + k <= |devs| && k <= width
    requires k == width || start + k == |devs| || devs[start + k] in Occupied(devs, start, k)
    ensures RoundLength(devs, start, k, width) == k
  {
    if start + k < |devs| {
      OccupiedDevices(devs, start, k, devs[start + k]);
    }
  }

  lemma {:induction false} FirstIsFree(devs: seq<Device>, start: nat, width: nat)
    requires start < |devs| && width > 0
    ensures RoundLength(devs, start, 0, width) == RoundLength(devs, start, 1, width)
  {
    assert devs[start..start] == [];
  }

  lemma {:induction false} NobodyYet<T>(items: seq<Owned<T>>, devs: seq<Device>, receivers: seq<int>, start: nat)
    requires start <= |items| == |devs|
    ensures Occupied(devs, start, 0) == {} && HandOut(items, receivers, start, 0) == []
  {
  }

  lemma {:induction false} OneMoreOccupied(devs: seq<Device>, start: nat, k: nat)
    requires start + k < |devs|
    ensures Occupied(devs, start, k + 1) == Occupied(devs, start, k) + {devs[start + k]}
  {
  }

  /** The inner loop: one bucket per receiver, until the buckets run out or a sender device repeats. */
  method FillRound<T>(items: seq<Owned<T>>, device: map<int, Device>, receivers: seq<int>, start: nat)
    returns (round: seq<Assigned<T>>)
    requires start < |items| && receivers != []
    ensures var len := RoundLength(SenderDevices(items, device), start, 1, |receivers|);
            round == HandOut(items, receivers, start, len)
  {
    hide RoundLength, Occupied, HandOut;
    ghost var devs := SenderDevices(items, device);
    ghost var len := RoundLength(devs, start, 1, |receivers|);
    NobodyYet(items, devs, receivers, start);
    FirstIsFree(devs, start, |receivers|);
    var occupied: set<Device> := {};
    round := [];
    var k := 0;
    while k < |receivers|
      invariant 0 <= k <= |receivers| && start + k <= |items|
      invariant occupied == Occupied(devs, start, k)
      invariant round == HandOut(items, receivers, start, k)
      invariant RoundLength(devs, start, k, |receivers|) == len
    {
      if start + k >= |items| {
        break;
      }
      var b := items[start + k];
      var rdma := DeviceOf(device)(b);
      if rdma in occupied {
        break;
      }
      TakeOne(devs, start, k, |receivers|);
      OneMoreOccupied(devs, start, k);
      HandOutNext(items, receivers, start, k);
      round := round + [Assigned(receivers[k], b.owner, b.bucket)];
      occupied := occupied + {rdma};
      k := k + 1;
    }
    RoundIsOver(devs, start, k, |receivers|);
  }

  lemma {:induction false} OneRound<T>(items: seq<Owned<T>>, devs: seq<Device>, receivers: seq<int>, p: nat,
                                       before: seq<Assigned<T>>)
    requires p < |items| == |devs| && receivers != []
    ensures before + AssignFrom(items, devs, receivers, p)
         == var len := RoundLength(devs, p, 1, |receivers|);
            before + HandOut(items, receivers, p, len) + AssignFrom(items, devs, receivers, p + len)
  {
    var len := RoundLength(devs, p, 1, |receivers|);
    AssignNext(items, devs, receivers, p);
    hide *;
    Associate(before, HandOut(items, receivers, p, len), AssignFrom(items, devs, receivers, p + len));
  }

  lemma {:induction false} AssignNext<T>(items: seq<Owned<T>>, devs: seq<Device>, receivers: seq<int>, p: nat)
    requires p < |items| == |devs| && receivers != []
    ensures var len := RoundLength(devs, p, 1, |receivers|);
            && AssignFrom(items, devs, receivers, p)
               == HandOut(items, receivers, p, len) + AssignFrom(items, devs, receivers, p + len)
            && RoundLengths(devs, p, |receivers|) == [len] + RoundLengths(devs, p + len, |receivers|)
  {
    hide HandOut, RoundLength;
  }

  /** The outer loop. */
  method AssignInRounds<T>(items: seq<Owned<T>>, device: map<int, Device>, receivers: seq<int>)
    returns (out: seq<Assigned<T>>)
    requires receivers != []
    ensures out == AssignFrom(items, SenderDevices(items, device), receivers, 0)
  {
    ghost var devs := SenderDevices(items, device);
    ghost var target := AssignFrom(items, devs, receivers, 0);
    out := [];
    var assignedCnt := 0;
    while assignedCnt < |items|
      invariant 0 <= assignedCnt <= |items|
      invariant out + AssignFrom(items, devs, receivers, assignedCnt) == target
    {
      var round := FillRound(items, device, receivers, assignedCnt);
      OneRound(items, devs, receivers, assignedCnt, out);
      out := out + round;
      assignedCnt := assignedCnt + |round|;
    }
  }

  method AssignReceiverRanks<T>(buckets: seq<Owned<T>>, localTopo: seq<Group>, remoteTopo: seq<Group>)
    returns (out: seq<Assigned<T>>)
    requires Schedulable(buckets, localTopo, RankToDevice(remoteTopo))
    ensures out == Assignment(buckets, localTopo, RankToDevice(remoteTopo))
  {
    if buckets == [] {
      return [];
    }
    var device := RankToDevice(remoteTopo);
    var order, groups := GroupByDevice(buckets, device);
    var matrix := seq(|order|, r requires 0 <= r < |order| && order[r] in groups => groups[order[r]]);
    assert matrix == Matrix(buckets, device);
    assert |order| == |FirstSeen(buckets, DeviceOf(device))|;
    var numReceivers := if |localTopo| < |order| then |localTopo| else |order|;
    var receivers := ReceiverList(localTopo, numReceivers);
    SomeReceiver(buckets, localTopo, device);
    out := AssignInRounds(Flatten(matrix), device, receivers);
  }

  // ----- what the assignment means

  function WithoutReceivers<T>(out: seq<Assigned<T>>): (items: seq<Owned<T>>)
    ensures |items| == |out|
    ensures forall p :: 0 <= p < |out| ==> items[p] == Owned(out[p].owner, out[p].bucket)
  {
    seq(|out|, p requires 0 <= p < |out| => Owned(out[p].owner, out[p].bucket))
  }

  lemma {:induction false} AssignFromKeepsItems<T>(items: seq<Owned<T>>, devs: seq<Device>, receivers: seq<int>, p: nat)
    requires p <= |items| == |devs| && receivers != []
    ensures WithoutReceivers(AssignFrom(items, devs, receivers, p)) == items[p..]
    decreases |items| - p
  {
    if p < |items| {
      hide RoundLength, HandOut;
      var len := RoundLength(devs, p, 1, |receivers|);
      AssignFromKeepsItems(items, devs, receivers, p + len);
      forall k | 0 <= k < len
        ensures IsItem(HandOut(items, receivers, p, len)[k], items, receivers[k], p + k)
      {
        HandOutAt(items, receivers, p, len, k);
      }
    }
  }

  lemma {:induction false} MatrixIsKeyed<T(!new)>(buckets: seq<Owned<T>>, device: map<int, Device>)
    ensures KeyedRows(Matrix(buckets, device), DeviceOf(device), FirstSeen(buckets, DeviceOf(device)))
  {
    var key := DeviceOf<T>(device);
    var order := FirstSeen(buckets, key);
    FirstSeenKeys(buckets, key);
    forall r | 0 <= r < |order|
      ensures forall x :: x in Matrix(buckets, device)[r] ==> key(x) == order[r]
    {
      WhereOnlyKey(buckets, key, order[r]);
    }
  }

  lemma {:induction false} FlatMatrixKeepsSenderOrder<T(!new)>(buckets: seq<Owned<T>>, device: map<int, Device>,
                                                        d: Device)
    ensures Where(Flatten(Matrix(buckets, device)), DeviceOf(device), d) == Where(buckets, DeviceOf(device), d)
  {
    var key := DeviceOf<T>(device);
    var order := FirstSeen(buckets, key);
    var matrix := Matrix(buckets, device);
    MatrixIsKeyed(buckets, device);
    if d in order {
      var r :| 0 <= r < |order| && order[r] == d;
      RowSurvives(matrix, key, order, r);
    } else {
      FirstSeenKeys(buckets, key);
      WhereOnlyKey(buckets, key, d);
      NoForeignKeys(matrix, key, order, d);
      EmptyGroup(buckets, key, d);
      EmptyGroup(Flatten(matrix), key, d);
    }
  }

  lemma {:induction false} FlatMatrixIsPermutation<T(!new)>(buckets: seq<Owned<T>>, device: map<int, Device>)
    ensures multiset(Flatten(Matrix(buckets, device))) == multiset(buckets)
  {
    forall d
      ensures Where(Flatten(Matrix(buckets, device)), DeviceOf(device), d) == Where(buckets, DeviceOf(device), d)
    {
      FlatMatrixKeepsSenderOrder(buckets, device, d);
    }
    SameGroupsSamePermutation(Flatten(Matrix(buckets, device)), buckets, DeviceOf(device));
  }

  /** Sender device by sender device, the schedule lists the buckets in their original order. */
  lemma {:induction false} AssignmentKeepsSenderOrder<T(!new)>(buckets: seq<Owned<T>>, localTopo: seq<Group>,
                                                        device: map<int, Device>, d: Device)
    requires Schedulable(buckets, localTopo, device)
    ensures Where(WithoutReceivers(Assignment(buckets, localTopo, device)), DeviceOf(device), d)
         == Where(buckets, DeviceOf(device), d)
  {
    if buckets != [] {
      var items := Flatten(Matrix(buckets, device));
      SomeReceiver(buckets, localTopo, device);
      AssignFromKeepsItems(items, SenderDevices(items, device), ReceiversFor(buckets, localTopo, device), 0);
      assert items[0..] == items;
      FlatMatrixKeepsSenderOrder(buckets, device, d);
    }
  }

  /** Every bucket is assigned to exactly one receiver. */
  lemma {:induction false} AssignmentIsPermutation<T(!new)>(buckets: seq<Owned<T>>, localTopo: seq<Group>,
                                                     device: map<int, Device>)
    requires Schedulable(buckets, localTopo, device)
    ensures multiset(WithoutReceivers(Assignment(buckets, localTopo, device))) == multiset(buckets)
  {
    forall d
      ensures Where(WithoutReceivers(Assignment(buckets, localTopo, device)), DeviceOf(device), d)
           == Where(buckets, DeviceOf(device), d)
    {
      AssignmentKeepsSenderOrder(buckets, localTopo, device, d);
    }
    SameGroupsSamePermutation(WithoutReceivers(Assignment(buckets, localTopo, device)), buckets, DeviceOf(device));
  }

  lemma {:induction false} AssignFromReceivers<T>(items: seq<Owned<T>>, devs: seq<Device>, receivers: seq<int>, p: nat)
    requires p <= |items| == |devs| && receivers != []
    ensures forall a :: a in AssignFrom(items, devs, receivers, p) ==> a.receiver in receivers
    decreases |items| - p
  {
    if p < |items| {
      var len := RoundLength(devs, p, 1, |receivers|);
      AssignFromReceivers(items, devs, receivers, p + len);
      forall k | 0 <= k < len
        ensures HandOut(items, receivers, p, len)[k].receiver in receivers
      {
        HandOutAt(items, receivers, p, len, k);
      }
    }
  }

  /** Only ranks being updated receive. */
  lemma {:induction false} ReceiversAreUpdated<T>(buckets: seq<Owned<T>>, topo: seq<Group>, ranks: set<int>,
                                                  device: map<int, Device>)
    requires Schedulable(buckets, RestrictTopo(topo, ranks), device)
    ensures forall a :: a in Assignment(buckets, RestrictTopo(topo, ranks), device) ==> a.receiver in ranks
  {
    if buckets != [] {
      var items := Flatten(Matrix(buckets, device));
      var receivers := ReceiversFor(buckets, RestrictTopo(topo, ranks), device);
      SomeReceiver(buckets, RestrictTopo(topo, ranks), device);
      AssignFromReceivers(items, SenderDevices(items, device), receivers, 0);
      forall r | r in receivers
        ensures r in ranks
      {
        var k :| 0 <= k < |receivers| && receivers[k] == r;
        assert RestrictTopo(topo, ranks)[k] in RestrictTopo(topo, ranks);
      }
    }
  }

  // ----- the update loop's view: "the i-th bucket of each receiver"

  lemma {:induction false} NothingHandedOut<T>(items: seq<Owned<T>>, receivers: seq<int>, p: nat, r: int)
    requires p <= |items|
    ensures Where(HandOut(items, receivers, p, 0), ReceiverOf, r) == []
  {
  }

  lemma {:induction false} SameReceiver(receivers: seq<int>, k: nat, l: nat)
    requires AllDistinct(receivers) && k < |receivers| && l < |receivers|
    ensures receivers[k] == receivers[l] <==> k == l
  {
  }

  lemma {:induction false} HandOutOfReceiver<T>(items: seq<Owned<T>>, receivers: seq<int>, p: nat, count: nat, k: nat)
    requires p + count <= |items| && count <= |receivers| && k < |receivers| && AllDistinct(receivers)
    ensures Where(HandOut(items, receivers, p, count), ReceiverOf, receivers[k])
         == if k < count then [Assigned(receivers[k], items[p + k].owner, items[p + k].bucket)] else []
  {
    hide HandOut, Where, AllDistinct;
    if count == 0 {
      NothingHandedOut(items, receivers, p, receivers[k]);
    } else {
      HandOutOfReceiver(items, receivers, p, count - 1, k);
      var last := Assigned(receivers[count - 1], items[p + count - 1].owner, items[p + count - 1].bucket);
      HandOutNext(items, receivers, p, count - 1);
      WhereSnoc(HandOut(items, receivers, p, count - 1), last, ReceiverOf, receivers[k]);
      SameReceiver(receivers, k, count - 1);
    }
  }

  /**
   Receiver `k` takes part in a prefix of the rounds, namely those longer than `k`, and its i-th
   bucket is the k-th bucket of round `i`.
   */
  ghost predicate InOneRound<T>(mine: seq<Assigned<T>>, lengths: seq<nat>, items: seq<Owned<T>>, receiver: int,
                                at: nat, k: nat)
  {
    && |mine| <= |lengths|
    && (forall i :: 0 <= i < |lengths| ==> (i < |mine| <==> k < lengths[i]))
    && (forall i :: 0 <= i < |mine| ==> IsItem(mine[i], items, receiver, at + RoundStart(lengths, i) + k))
  }

  lemma {:induction false} OneMoreRound<T>(mine: seq<Assigned<T>>, first: Assigned<T>, len: nat, lengths: seq<nat>,
                        items: seq<Owned<T>>, receiver: int, at: nat, k: nat)
    requires InOneRound(mine, lengths, items, receiver, at + len, k)
    requires k < len && IsItem(first, items, receiver, at + k)
    ensures InOneRound([first] + mine, [len] + lengths, items, receiver, at, k)
  {
    var all, lens := [first] + mine, [len] + lengths;
    assert lens[1..] == lengths;
    forall i | 0 <= i < |all|
      ensures IsItem(all[i], items, receiver, at + RoundStart(lens, i) + k)
    {
      if i > 0 {
        assert all[i] == mine[i - 1];
        assert RoundStart(lens, i) == len + RoundStart(lengths, i - 1);
      }
    }
    forall i | 0 <= i < |lens|
      ensures i < |all| <==> k < lens[i]
    {
      if i > 0 {
        assert lens[i] == lengths[i - 1];
      }
    }
  }

  lemma {:induction false} NoMoreRounds<T>(mine: seq<Assigned<T>>, len: nat, lengths: seq<nat>,
                        items: seq<Owned<T>>, receiver: int, at: nat, k: nat)
    requires InOneRound(mine, lengths, items, receiver, at + len, k)
    requires len <= k && AtMost(lengths, len)
    ensures mine == [] && InOneRound(mine, [len] + lengths, items, receiver, at, k)
  {
    assert forall i :: 0 <= i < |lengths| ==> lengths[i] in lengths;
    assert lengths == [] || lengths[0] <= len;
  }

  lemma {:induction false} NoRoundsLeft<T>(items: seq<Owned<T>>, devs: seq<Device>, receivers: seq<int>, k: nat)
    requires |items| == |devs| && k < |receivers|
    ensures InOneRound(Where(AssignFrom(items, devs, receivers, |items|), ReceiverOf, receivers[k]),
                       RoundLengths(devs, |items|, |receivers|), items, receivers[k], |items|, k)
  {
  }

  lemma {:induction false} RestIsNoLonger(devs: seq<Device>, p: nat, width: nat)
    requires RoundRobin(devs) && p < |devs| && width > 0
    ensures var len := RoundLength(devs, p, 1, width); AtMost(RoundLengths(devs, p + len, width), len)
  {
    hide RoundRobin, RoundLength;
    LaterRoundsAreNoLonger(devs, p, width);
    var len := RoundLength(devs, p, 1, width);
    var rest := RoundLengths(devs, p + len, width);
    assert RoundLengths(devs, p, width) == [len] + rest;
    assert forall l :: l in rest ==> l in RoundLengths(devs, p, width);
  }

  lemma {:induction false} BucketsOfReceiver<T>(items: seq<Owned<T>>, devs: seq<Device>, receivers: seq<int>, p: nat,
                                                k: nat)
    requires p <= |items| == |devs| && k < |receivers| && AllDistinct(receivers) && RoundRobin(devs)
    ensures InOneRound(Where(AssignFrom(items, devs, receivers, p), ReceiverOf, receivers[k]),
                       RoundLengths(devs, p, |receivers|), items, receivers[k], p, k)
    decreases |items| - p
  {
    if p == |items| {
      NoRoundsLeft(items, devs, receivers, k);
    } else {
      hide *;
      AssignNext(items, devs, receivers, p);
      SomeRound(devs, p, |receivers|);
      var len := RoundLength(devs, p, 1, |receivers|);
      BucketsOfReceiver(items, devs, receivers, p + len, k);
      RestIsNoLonger(devs, p, |receivers|);
      AddRound(items, receivers, p, len, AssignFrom(items, devs, receivers, p + len),
               RoundLengths(devs, p + len, |receivers|), k);
    }
  }

  lemma {:induction false} SomeRound(devs: seq<Device>, p: nat, width: nat)
    requires p < |devs| && width > 0
    ensures var len := RoundLength(devs, p, 1, width); 0 < len <= width && p + len <= |devs|
  {
    hide RoundLength;
  }

  /** A round in front of the later ones, which are no longer. */
  lemma {:induction false} AddRound<T>(items: seq<Owned<T>>, receivers: seq<int>, p: nat, len: nat,
                                       later: seq<Assigned<T>>, rest: seq<nat>, k: nat)
    requires p + len <= |items| && len <= |receivers| && k < |receivers| && AllDistinct(receivers) && AtMost(rest, len)
    requires InOneRound(Where(later, ReceiverOf, receivers[k]), rest, items, receivers[k], p + len, k)
    ensures InOneRound(Where(HandOut(items, receivers, p, len) + later, ReceiverOf, receivers[k]), [len] + rest,
                       items, receivers[k], p, k)
  {
    hide HandOut, InOneRound, AllDistinct, AtMost, Where;
    var mine := Where(later, ReceiverOf, receivers[k]);
    HandOutOfReceiver(items, receivers, p, len, k);
    WhereAppend(HandOut(items, receivers, p, len), later, ReceiverOf, receivers[k]);
    if k < len {
      OneMoreRound(mine, Assigned(receivers[k], items[p + k].owner, items[p + k].bucket), len, rest,
                   items, receivers[k], p, k);
    } else {
      NoMoreRounds(mine, len, rest, items, receivers[k], p, k);
      assert [] + mine == mine;
    }
  }
}
