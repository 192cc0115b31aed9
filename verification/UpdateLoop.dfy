/** The order in which the update loop visits the buckets, and what each rank contributes. */
module UpdateLoop {
  import opened DataTypes
  import opened Flattening
  import opened Rounds
  import opened Scheduler
  import opened Sequences

  /** The buckets of one receiver, in list order. */
  function BucketsOf<T>(buckets: seq<Assigned<T>>, receiver: int): seq<Assigned<T>>
  {
    Where(buckets, ReceiverOf, receiver)
  }

  /** Step `i` of the loop, up to the first `m` receivers: the i-th bucket of each that has one. */
  function StepUpTo<T>(buckets: seq<Assigned<T>>, receivers: seq<int>, m: nat, i: nat): seq<Assigned<T>>
    requires m <= |receivers|
  {
    if m == 0 then []
    else
      var mine := BucketsOf(buckets, receivers[m - 1]);
      StepUpTo(buckets, receivers, m - 1, i) + (if i < |mine| then [mine[i]] else [])
  }

  function Step<T>(buckets: seq<Assigned<T>>, receivers: seq<int>, i: nat): seq<Assigned<T>>
  {
    StepUpTo(buckets, receivers, |receivers|, i)
  }

  function Steps<T>(buckets: seq<Assigned<T>>, receivers: seq<int>, n: nat): seq<Assigned<T>>
  {
    if n == 0 then [] else Steps(buckets, receivers, n - 1) + Step(buckets, receivers, n - 1)
  }

  /** The length of the longest receiver list. */
  function MaxLen<T>(buckets: seq<Assigned<T>>, receivers: seq<int>): (n: nat)
    ensures forall r :: r in receivers ==> |BucketsOf(buckets, r)| <= n
    ensures n > 0 ==> exists r :: r in receivers && |BucketsOf(buckets, r)| == n
  {
    if receivers == [] then 0
    else
      var last := receivers[|receivers| - 1];
      var front := receivers[..|receivers| - 1];
      assert receivers == front + [last];
      var before := MaxLen(buckets, front);
      if before < |BucketsOf(buckets, last)| then |BucketsOf(buckets, last)| else before
  }

  /** All visits, in order; the position in this list is the loop's `gidx`. */
  function Visits<T>(buckets: seq<Assigned<T>>): seq<Assigned<T>>
  {
    var receivers := FirstSeen(buckets, ReceiverOf);
    Steps(buckets, receivers, MaxLen(buckets, receivers))
  }

  // ----- every bucket is visited exactly once

  lemma {:induction false} StepOfReceiver<T>(buckets: seq<Assigned<T>>, receivers: seq<int>, m: nat, i: nat, r: int)
    requires AllDistinct(receivers) && m <= |receivers|
    ensures BucketsOf(StepUpTo(buckets, receivers, m, i), r)
         == if r in receivers[..m] && i < |BucketsOf(buckets, r)| then [BucketsOf(buckets, r)[i]] else []
  {
    if m > 0 {
      var last := receivers[m - 1];
      var mine := BucketsOf(buckets, last);
      var before := StepUpTo(buckets, receivers, m - 1, i);
      StepOfReceiver(buckets, receivers, m - 1, i, r);
      assert receivers[..m] == receivers[..m - 1] + [last];
      assert last !in receivers[..m - 1];
      if i < |mine| {
        KeyOfGrouped(buckets, ReceiverOf, last, i);
        WhereSnoc(before, mine[i], ReceiverOf, r);
        assert StepUpTo(buckets, receivers, m, i) == before + [mine[i]];
      } else {
        assert StepUpTo(buckets, receivers, m, i) == before;
      }
    }
  }

  function FirstN<T>(s: seq<T>, n: nat): seq<T>
  {
    if n < |s| then s[..n] else s
  }

  lemma {:induction false} FirstNSnoc<T>(s: seq<T>, n: nat)
    ensures FirstN(s, n + 1) == FirstN(s, n) + (if n < |s| then [s[n]] else [])
  {
    if n < |s| {
      assert s[..n + 1] == s[..n] + [s[n]];
      assert s[..|s|] == s;
    } else {
      assert s + [] == s;
    }
  }

  lemma {:induction false} BucketsOfAppend<T>(a: seq<Assigned<T>>, b: seq<Assigned<T>>, r: int)
    ensures BucketsOf(a + b, r) == BucketsOf(a, r) + BucketsOf(b, r)
  {
    WhereAppend(a, b, ReceiverOf, r);
  }

  lemma {:induction false} NothingOf<T>(r: int)
    ensures BucketsOf<T>([], r) == []
  {
  }

  lemma {:induction false} StepsNext<T>(buckets: seq<Assigned<T>>, receivers: seq<int>, n: nat)
    ensures Steps(buckets, receivers, n)
         == if n == 0 then [] else Steps(buckets, receivers, n - 1) + Step(buckets, receivers, n - 1)
  {
  }

  lemma {:induction false} WholeStepOf<T>(buckets: seq<Assigned<T>>, receivers: seq<int>, i: nat, r: int)
    requires AllDistinct(receivers)
    ensures BucketsOf(Step(buckets, receivers, i), r)
         == if r in receivers && i < |BucketsOf(buckets, r)| then [BucketsOf(buckets, r)[i]] else []
  {
    hide BucketsOf, StepUpTo, AllDistinct;
    StepOfReceiver(buckets, receivers, |receivers|, i, r);
    assert receivers[..|receivers|] == receivers;
  }

  lemma {:induction false} StepsOfReceiver<T>(buckets: seq<Assigned<T>>, receivers: seq<int>, n: nat, r: int)
    requires AllDistinct(receivers) && r in receivers
    ensures BucketsOf(Steps(buckets, receivers, n), r) == FirstN(BucketsOf(buckets, r), n)
  {
    hide *;
    StepsNext(buckets, receivers, n);
    if n > 0 {
      StepsOfReceiver(buckets, receivers, n - 1, r);
      WholeStepOf(buckets, receivers, n - 1, r);
      BucketsOfAppend(Steps(buckets, receivers, n - 1), Step(buckets, receivers, n - 1), r);
      FirstNSnoc(BucketsOf(buckets, r), n - 1);
    } else {
      NothingOf<T>(r);
      NoneFirst(BucketsOf(buckets, r));
    }
  }

  lemma {:induction false} NoneFirst<T>(s: seq<T>)
    ensures FirstN(s, 0) == []
  {
  }

  lemma {:induction false} StrangersDoNotStep<T>(buckets: seq<Assigned<T>>, receivers: seq<int>, n: nat, r: int)
    requires AllDistinct(receivers) && r !in receivers
    ensures BucketsOf(Steps(buckets, receivers, n), r) == []
  {
    hide *;
    StepsNext(buckets, receivers, n);
    if n == 0 {
      NothingOf<T>(r);
    } else {
      StrangersDoNotStep(buckets, receivers, n - 1, r);
      WholeStepOf(buckets, receivers, n - 1, r);
      BucketsOfAppend(Steps(buckets, receivers, n - 1), Step(buckets, receivers, n - 1), r);
    }
  }

  /** Each receiver's buckets are visited completely and in their list order. */
  lemma {:induction false} VisitsKeepReceiverOrder<T>(buckets: seq<Assigned<T>>, r: int)
    ensures BucketsOf(Visits(buckets), r) == BucketsOf(buckets, r)
  {
    var receivers := FirstSeen(buckets, ReceiverOf);
    FirstSeenKeys(buckets, ReceiverOf);
    if r in receivers {
      StepsOfReceiver(buckets, receivers, MaxLen(buckets, receivers), r);
    } else {
      StrangersDoNotStep(buckets, receivers, MaxLen(buckets, receivers), r);
      UnseenGroup(buckets, ReceiverOf, r);
    }
  }

  /** The loop visits every bucket exactly once, whatever the receivers are. */
  lemma {:induction false} EveryBucketIsVisitedOnce<T>(buckets: seq<Assigned<T>>)
    ensures multiset(Visits(buckets)) == multiset(buckets)
    ensures |Visits(buckets)| == |buckets|
  {
    forall r
      ensures Where(Visits(buckets), ReceiverOf, r) == Where(buckets, ReceiverOf, r)
    {
      VisitsKeepReceiverOrder(buckets, r);
    }
    SameGroupsSamePermutation(Visits(buckets), buckets, ReceiverOf);
    assert |multiset(Visits(buckets))| == |multiset(buckets)|;
  }

  // ----- the loop as each rank runs it

  /** The lists kept per receiver, and the length of the longest. */
  method GroupByReceiver<T>(buckets: seq<Assigned<T>>)
    returns (order: seq<int>, groups: map<int, seq<Assigned<T>>>, maxLen: nat)
    ensures Filed(buckets, ReceiverOf, order, groups)
    ensures maxLen == MaxLen(buckets, order)
  {
    order, groups, maxLen := [], map[], 0;
    ghost var longest := 0;
    for i := 0 to |buckets|
      invariant Filed(buckets[..i], ReceiverOf, order, groups)
      invariant forall r :: r in groups ==> |groups[r]| <= maxLen
      invariant maxLen > 0 ==> longest in groups && |groups[longest]| == maxLen
    {
      var b := buckets[i];
      FileOne(buckets[..i], b, ReceiverOf, order, groups);
      assert buckets[..i + 1] == buckets[..i] + [b];
      if b.receiver in groups {
        groups := groups[b.receiver := groups[b.receiver] + [b]];
      } else {
        order := order + [b.receiver];
        groups := groups[b.receiver := [b]];
      }
      if |groups[b.receiver]| > maxLen {
        maxLen := |groups[b.receiver]|;
        longest := b.receiver;
      }
    }
    assert buckets[..|buckets|] == buckets;
  }

  /**
   The inner loop of step `i` on rank `rank`, which fetched its own buckets `mine`. `h2d` is the bucket
   in its staging buffer, unless that is disabled.
   */
  method RunStep<T(==)>(buckets: seq<Assigned<T>>, rank: int, mine: seq<Assigned<T>>, order: seq<int>,
                        groups: map<int, seq<Assigned<T>>>, i: nat, disableH2D: bool, h2d: Option<Assigned<T>>)
    returns (visited: seq<Assigned<T>>, sent: seq<Assigned<T>>)
    requires Filed(buckets, ReceiverOf, order, groups) && mine == BucketsOf(buckets, rank)
    requires !disableH2D && i < |mine| ==> h2d == Some(mine[i])
    ensures visited == Step(buckets, order, i)
    ensures sent == BucketsOf(visited, rank)
  {
    visited, sent := [], [];
    for k := 0 to |order|
      invariant visited == StepUpTo(buckets, order, k, i)
      invariant sent == BucketsOf(visited, rank)
    {
      var receiver := order[k];
      assert receiver in order;
      var list := groups[receiver];
      if i < |list| {
        var bucket := list[i];
        KeyOfGrouped(buckets, ReceiverOf, receiver, i);
        WhereSnoc(visited, bucket, ReceiverOf, rank);
        if receiver == rank {
          // what this rank staged for the step is the bucket whose turn it is
          assert mine[i] == bucket;
          sent := sent + [if disableH2D then bucket else h2d.value];
        }
        visited := visited + [bucket];
      }
    }
  }

  /**
   The update loop on rank `rank`. `trace` is the sequence of broadcasts the rank takes part in,
   `steps` the step that each belongs to, and `sent` the buckets that the rank broadcasts from its
   staging buffer or, with `disableH2D`, directly. Trace and steps do not depend on the rank.
   */
  method RunUpdateLoop<T(==)>(buckets: seq<Assigned<T>>, rank: int, disableH2D: bool)
    returns (trace: seq<Assigned<T>>, steps: seq<nat>, sent: seq<Assigned<T>>)
    ensures trace == Visits(buckets) && steps == VisitSteps(buckets)
    ensures sent == BucketsOf(trace, rank) == BucketsOf(buckets, rank)
  {
    var mine := [];
    for p := 0 to |buckets|
      invariant mine == BucketsOf(buckets[..p], rank)
    {
      assert buckets[..p + 1] == buckets[..p] + [buckets[p]];
      WhereSnoc(buckets[..p], buckets[p], ReceiverOf, rank);
      if buckets[p].receiver == rank {
        mine := mine + [buckets[p]];
      }
    }
    assert buckets[..|buckets|] == buckets;
    var order, groups, maxLen := GroupByReceiver(buckets);
    var h2d := None;
    trace, steps, sent := [], [], [];
    for i := 0 to maxLen
      invariant trace == Steps(buckets, order, i) && steps == StepNumbers(buckets, order, i)
      invariant sent == BucketsOf(trace, rank)
    {
      if i < |mine| && !disableH2D {
        h2d := Some(mine[i]);
      }
      var visited, added := RunStep(buckets, rank, mine, order, groups, i, disableH2D, h2d);
      WhereAppend(trace, visited, ReceiverOf, rank);
      trace, steps, sent := trace + visited, steps + Repeated(i, |visited|), sent + added;
    }
    VisitsKeepReceiverOrder(buckets, rank);
  }

  // ----- which step a visit belongs to

  function Repeated(i: nat, count: nat): (s: seq<nat>)
    ensures |s| == count && forall k :: 0 <= k < count ==> s[k] == i
  {
    seq(count, _ => i)
  }

  function StepNumbers<T>(buckets: seq<Assigned<T>>, receivers: seq<int>, n: nat): (steps: seq<nat>)
    ensures |steps| == |Steps(buckets, receivers, n)|
  {
    if n == 0 then []
    else StepNumbers(buckets, receivers, n - 1) + Repeated(n - 1, |Step(buckets, receivers, n - 1)|)
  }

  /** The step of each visit. */
  function VisitSteps<T>(buckets: seq<Assigned<T>>): (steps: seq<nat>)
    ensures |steps| == |Visits(buckets)|
  {
    var receivers := FirstSeen(buckets, ReceiverOf);
    StepNumbers(buckets, receivers, MaxLen(buckets, receivers))
  }

  /** Bucket `a` is the i-th of its receiver. */
  ghost predicate IsTurn<T>(buckets: seq<Assigned<T>>, a: Assigned<T>, i: nat)
  {
    i < |BucketsOf(buckets, a.receiver)| && BucketsOf(buckets, a.receiver)[i] == a
  }

  lemma {:induction false} TurnInStep<T>(buckets: seq<Assigned<T>>, receivers: seq<int>, m: nat, i: nat, k: nat)
    requires m <= |receivers| && k < |StepUpTo(buckets, receivers, m, i)|
    ensures IsTurn(buckets, StepUpTo(buckets, receivers, m, i)[k], i)
  {
    var r := receivers[m - 1];
    var before := StepUpTo(buckets, receivers, m - 1, i);
    if k < |before| {
      TurnInStep(buckets, receivers, m - 1, i, k);
    } else {
      KeyOfGrouped(buckets, ReceiverOf, r, i);
    }
  }

  lemma {:induction false} TurnInSteps<T>(buckets: seq<Assigned<T>>, receivers: seq<int>, n: nat, g: nat)
    requires g < |Steps(buckets, receivers, n)|
    ensures IsTurn(buckets, Steps(buckets, receivers, n)[g], StepNumbers(buckets, receivers, n)[g])
  {
    hide IsTurn;
    var before := Steps(buckets, receivers, n - 1);
    if g < |before| {
      TurnInSteps(buckets, receivers, n - 1, g);
    } else {
      TurnInStep(buckets, receivers, |receivers|, n - 1, g - |before|);
    }
  }

  lemma {:induction false} StepNumbersInOrder<T>(buckets: seq<Assigned<T>>, receivers: seq<int>, n: nat, g: nat, h: nat)
    requires g < h < |StepNumbers(buckets, receivers, n)|
    ensures StepNumbers(buckets, receivers, n)[g] <= StepNumbers(buckets, receivers, n)[h] < n
  {
    var before := StepNumbers(buckets, receivers, n - 1);
    if h < |before| {
      StepNumbersInOrder(buckets, receivers, n - 1, g, h);
    } else if g < |before| {
      StepNumberBelow(buckets, receivers, n - 1, g);
    }
  }

  lemma {:induction false} StepNumberBelow<T>(buckets: seq<Assigned<T>>, receivers: seq<int>, n: nat, g: nat)
    requires g < |StepNumbers(buckets, receivers, n)|
    ensures StepNumbers(buckets, receivers, n)[g] < n
  {
    if g < |StepNumbers(buckets, receivers, n - 1)| {
      StepNumberBelow(buckets, receivers, n - 1, g);
    }
  }

  /** The loop finishes a step before it begins the next. */
  lemma {:induction false} VisitsGoStepByStep<T>(buckets: seq<Assigned<T>>, g: nat, h: nat)
    requires g < h < |Visits(buckets)|
    ensures VisitSteps(buckets)[g] <= VisitSteps(buckets)[h]
  {
    var receivers := FirstSeen(buckets, ReceiverOf);
    StepNumbersInOrder(buckets, receivers, MaxLen(buckets, receivers), g, h);
  }

  /** A bucket visited in step `i` is the one its receiver fetched for step `i`. */
  lemma {:induction false} VisitedBucketIsFetched<T>(buckets: seq<Assigned<T>>, g: nat)
    requires g < |Visits(buckets)|
    ensures IsTurn(buckets, Visits(buckets)[g], VisitSteps(buckets)[g])
  {
    var receivers := FirstSeen(buckets, ReceiverOf);
    TurnInSteps(buckets, receivers, MaxLen(buckets, receivers), g);
  }

  // ----- the loop on a P2P schedule

  lemma {:induction false} RoundAt(devs: seq<Device>, p: nat, width: nat, i: nat)
    requires p <= |devs| && width > 0
    requires i <= |RoundLengths(devs, p, width)|
    ensures var lengths := RoundLengths(devs, p, width);
            && p + RoundStart(lengths, i) <= |devs|
            && RoundLengths(devs, p + RoundStart(lengths, i), width) == lengths[i..]
    decreases i
  {
    if i > 0 {
      RoundAt(devs, p + RoundLength(devs, p, 1, width), width, i - 1);
    }
  }

  lemma {:induction false} HandOutIsFirstSeen<T>(items: seq<Owned<T>>, receivers: seq<int>, p: nat, count: nat)
    requires p + count <= |items| && count <= |receivers| && AllDistinct(receivers)
    ensures FirstSeen(HandOut(items, receivers, p, count), ReceiverOf) == receivers[..count]
  {
    if count > 0 {
      HandOutIsFirstSeen(items, receivers, p, count - 1);
      var last := Assigned(receivers[count - 1], items[p + count - 1].owner, items[p + count - 1].bucket);
      FirstSeenSnoc(HandOut(items, receivers, p, count - 1), last, ReceiverOf);
      assert receivers[..count] == receivers[..count - 1] + [receivers[count - 1]];
    }
  }

  lemma {:induction false} LaterReceiversAreFewer<T>(items: seq<Owned<T>>, devs: seq<Device>, receivers: seq<int>,
                                                     p: nat, bound: nat)
    requires p <= |items| == |devs| && receivers != [] && bound <= |receivers|
    requires AtMost(RoundLengths(devs, p, |receivers|), bound)
    ensures forall a :: a in AssignFrom(items, devs, receivers, p) ==> a.receiver in receivers[..bound]
    decreases |items| - p
  {
    if p < |items| {
      var lengths := RoundLengths(devs, p, |receivers|);
      assert lengths[0] in lengths && forall l :: l in lengths[1..] ==> l in lengths;
      LaterReceiversAreFewer(items, devs, receivers, p + lengths[0], bound);
      forall k | 0 <= k < lengths[0]
        ensures HandOut(items, receivers, p, lengths[0])[k].receiver in receivers[..bound]
      {
        HandOutAt(items, receivers, p, lengths[0], k);
        assert receivers[..bound][k] == receivers[k];
      }
    }
  }

  /** The receivers, in dictionary order, are those of the first round. */
  lemma {:induction false} ScheduleReceivers<T>(items: seq<Owned<T>>, devs: seq<Device>, receivers: seq<int>)
    requires 0 < |items| == |devs| && receivers != [] && AllDistinct(receivers) && RoundRobin(devs)
    ensures FirstSeen(AssignFrom(items, devs, receivers, 0), ReceiverOf)
         == receivers[..RoundLength(devs, 0, 1, |receivers|)]
  {
    var len := RoundLength(devs, 0, 1, |receivers|);
    LaterRoundsAreNoLonger(devs, 0, |receivers|);
    var lengths := RoundLengths(devs, 0, |receivers|);
    assert forall l :: l in lengths[1..] ==> l in lengths;
    LaterReceiversAreFewer(items, devs, receivers, len, len);
    HandOutIsFirstSeen(items, receivers, 0, len);
    FirstSeenNothingNew(HandOut(items, receivers, 0, len), AssignFrom(items, devs, receivers, len), ReceiverOf);
  }

  /** Receiver `k` takes part in exactly the rounds longer than `k`, for every `k`. */
  ghost predicate Scheduled<T>(out: seq<Assigned<T>>, items: seq<Owned<T>>, receivers: seq<int>, lengths: seq<nat>)
  {
    forall k :: 0 <= k < |receivers| ==> InOneRound(BucketsOf(out, receivers[k]), lengths, items, receivers[k], 0, k)
  }

  lemma {:induction false} ScheduleIsScheduled<T>(items: seq<Owned<T>>, devs: seq<Device>, receivers: seq<int>)
    requires |items| == |devs| && receivers != [] && AllDistinct(receivers) && RoundRobin(devs)
    ensures Scheduled(AssignFrom(items, devs, receivers, 0), items, receivers, RoundLengths(devs, 0, |receivers|))
  {
    forall k | 0 <= k < |receivers|
      ensures InOneRound(BucketsOf(AssignFrom(items, devs, receivers, 0), receivers[k]),
                         RoundLengths(devs, 0, |receivers|), items, receivers[k], 0, k)
    {
      BucketsOfReceiver(items, devs, receivers, 0, k);
    }
  }

  lemma {:induction false} RoundMember<T>(out: seq<Assigned<T>>, items: seq<Owned<T>>, receivers: seq<int>,
                                          lengths: seq<nat>, k: nat, i: nat)
    requires Scheduled(out, items, receivers, lengths) && i < |lengths| && k < |receivers|
    ensures var mine := BucketsOf(out, receivers[k]);
            && (i < |mine| <==> k < lengths[i])
            && (i < |mine| ==> IsItem(mine[i], items, receivers[k], RoundStart(lengths, i) + k))
  {
    assert InOneRound(BucketsOf(out, receivers[k]), lengths, items, receivers[k], 0, k);
  }

  /** Step `i` over the first `m` receivers is round `i`, cut to `m`. */
  lemma {:induction false} StepIsRound<T>(out: seq<Assigned<T>>, items: seq<Owned<T>>, receivers: seq<int>,
                                          lengths: seq<nat>, order: seq<int>, m: nat, i: nat)
    requires Scheduled(out, items, receivers, lengths) && i < |lengths| && m <= |order| && order <= receivers
    requires RoundStart(lengths, i) + lengths[i] <= |items| && lengths[i] <= |receivers|
    ensures StepUpTo(out, order, m, i)
         == HandOut(items, receivers, RoundStart(lengths, i), if m < lengths[i] then m else lengths[i])
  {
    if m > 0 {
      StepIsRound(out, items, receivers, lengths, order, m - 1, i);
      RoundMember(out, items, receivers, lengths, m - 1, i);
      assert order[m - 1] == receivers[m - 1];
    }
  }

  lemma {:induction false} RoundFollows(devs: seq<Device>, width: nat, i: nat)
    requires width > 0 && i < |RoundLengths(devs, 0, width)|
    ensures var lengths := RoundLengths(devs, 0, width);
            var at := RoundStart(lengths, i);
            at < |devs| && lengths[i] == RoundLength(devs, at, 1, width) && RoundStart(lengths, i + 1) == at + lengths[i]
  {
    var lengths := RoundLengths(devs, 0, width);
    RoundAt(devs, 0, width, i);
    assert lengths[i..][0] == lengths[i];
    RoundStartNext(lengths, i);
  }

  lemma {:induction false} RestOfSchedule<T>(items: seq<Owned<T>>, devs: seq<Device>, receivers: seq<int>, p: nat,
                                             i: nat)
    requires p <= |items| == |devs| && receivers != []
    requires i <= |RoundLengths(devs, p, |receivers|)|
    ensures var start := RoundStart(RoundLengths(devs, p, |receivers|), i);
            p + start <= |items| && AssignFrom(items, devs, receivers, p)[start..] == AssignFrom(items, devs, receivers, p + start)
    decreases i
  {
    var out := AssignFrom(items, devs, receivers, p);
    if i == 0 {
      assert out[0..] == out;
    } else {
      hide RoundLength, HandOut;
      var len := RoundLength(devs, p, 1, |receivers|);
      var head, tail := HandOut(items, receivers, p, len), AssignFrom(items, devs, receivers, p + len);
      var start := RoundStart(RoundLengths(devs, p + len, |receivers|), i - 1);
      RestOfSchedule(items, devs, receivers, p + len, i - 1);
      assert out == head + tail;
      assert (head + tail)[len + start..] == tail[start..];
    }
  }

  lemma {:induction false} RoundInSchedule<T>(items: seq<Owned<T>>, devs: seq<Device>, receivers: seq<int>, i: nat)
    requires |items| == |devs| && receivers != []
    requires i < |RoundLengths(devs, 0, |receivers|)|
    ensures var lengths := RoundLengths(devs, 0, |receivers|);
            var at, end := RoundStart(lengths, i), RoundStart(lengths, i + 1);
            && end == at + lengths[i] <= |items|
            && lengths[i] <= |receivers|
            && AssignFrom(items, devs, receivers, 0)[at..end] == HandOut(items, receivers, at, lengths[i])
  {
    var lengths := RoundLengths(devs, 0, |receivers|);
    var at, len := RoundStart(lengths, i), lengths[i];
    var out := AssignFrom(items, devs, receivers, 0);
    RoundFollows(devs, |receivers|, i);
    RestOfSchedule(items, devs, receivers, 0, i);
    SliceOfSuffix(out, at, HandOut(items, receivers, at, len), AssignFrom(items, devs, receivers, at + len));
  }

  lemma {:induction false} FullStep<T>(items: seq<Owned<T>>, devs: seq<Device>, receivers: seq<int>, i: nat)
    requires |items| == |devs| && receivers != [] && AllDistinct(receivers) && RoundRobin(devs)
    requires i < |RoundLengths(devs, 0, |receivers|)|
    ensures var lengths := RoundLengths(devs, 0, |receivers|);
            && RoundStart(lengths, i) + lengths[i] <= |items|
            && lengths[i] <= lengths[0] <= |receivers|
            && Step(AssignFrom(items, devs, receivers, 0), receivers[..lengths[0]], i)
               == HandOut(items, receivers, RoundStart(lengths, i), lengths[i])
  {
    var lengths := RoundLengths(devs, 0, |receivers|);
    RoundsTile(devs, 0, |receivers|, i);
    RoundsTile(devs, 0, |receivers|, 0);
    RoundLengthsNeverIncrease(devs, 0, |receivers|);
    assert lengths[i] <= lengths[0];
    ScheduleIsScheduled(items, devs, receivers);
    StepIsRound(AssignFrom(items, devs, receivers, 0), items, receivers, lengths, receivers[..lengths[0]], lengths[0], i);
  }

  /** Step `i` of the loop fetches the buckets from `starts[i]` to `starts[i + 1]`. */
  ghost predicate StepIs<T>(buckets: seq<Assigned<T>>, order: seq<int>, i: nat, starts: seq<nat>)
  {
    && i + 1 < |starts|
    && starts[i] <= starts[i + 1] <= |buckets|
    && Step(buckets, order, i) == buckets[starts[i]..starts[i + 1]]
  }

  function Starts(lengths: seq<nat>): (starts: seq<nat>)
    ensures |starts| == |lengths| + 1
    ensures forall i :: 0 <= i <= |lengths| ==> starts[i] == RoundStart(lengths, i)
  {
    seq(|lengths| + 1, i requires 0 <= i <= |lengths| => RoundStart(lengths, i))
  }

  /** Step `i` of the loop fetches exactly round `i`. */
  lemma {:induction false} StepIsWholeRound<T>(items: seq<Owned<T>>, devs: seq<Device>, receivers: seq<int>, i: nat)
    requires 0 < |items| == |devs| && receivers != [] && AllDistinct(receivers) && RoundRobin(devs)
    requires i < |RoundLengths(devs, 0, |receivers|)|
    ensures var out := AssignFrom(items, devs, receivers, 0);
            StepIs(out, FirstSeen(out, ReceiverOf), i, Starts(RoundLengths(devs, 0, |receivers|)))
  {
    ScheduleReceivers(items, devs, receivers);
    RoundInSchedule(items, devs, receivers, i);
    FullStep(items, devs, receivers, i);
  }

  lemma {:induction false} StepsTile<T>(buckets: seq<Assigned<T>>, order: seq<int>, starts: seq<nat>, n: nat)
    requires n < |starts| && starts[0] == 0
    requires forall i :: 0 <= i < n ==> StepIs(buckets, order, i, starts)
    ensures starts[n] <= |buckets| && Steps(buckets, order, n) == buckets[..starts[n]]
  {
    if n > 0 {
      StepsTile(buckets, order, starts, n - 1);
      assert StepIs(buckets, order, n - 1, starts);
      assert buckets[..starts[n]] == buckets[..starts[n - 1]] + buckets[starts[n - 1]..starts[n]];
    }
  }

  lemma {:induction false} StepsAreRounds<T>(items: seq<Owned<T>>, devs: seq<Device>, receivers: seq<int>)
    requires 0 < |items| == |devs| && receivers != [] && AllDistinct(receivers) && RoundRobin(devs)
    ensures var out := AssignFrom(items, devs, receivers, 0);
            Steps(out, FirstSeen(out, ReceiverOf), |RoundLengths(devs, 0, |receivers|)|) == out
  {
    var out := AssignFrom(items, devs, receivers, 0);
    var order := FirstSeen(out, ReceiverOf);
    var lengths := RoundLengths(devs, 0, |receivers|);
    forall i | 0 <= i < |lengths|
      ensures StepIs(out, order, i, Starts(lengths))
    {
      StepIsWholeRound(items, devs, receivers, i);
    }
    StepsTile(out, order, Starts(lengths), |lengths|);
    RoundsReachTheEnd(devs, 0, |receivers|);
    assert out[..|out|] == out;
  }

  /** Receiver 0 is in every round, so the longest list has one bucket per round. */
  lemma {:induction false} LongestListCountsRounds<T>(items: seq<Owned<T>>, devs: seq<Device>, receivers: seq<int>)
    requires 0 < |items| == |devs| && receivers != [] && AllDistinct(receivers) && RoundRobin(devs)
    ensures var out := AssignFrom(items, devs, receivers, 0);
            MaxLen(out, FirstSeen(out, ReceiverOf)) == |RoundLengths(devs, 0, |receivers|)|
  {
    var out := AssignFrom(items, devs, receivers, 0);
    var lengths := RoundLengths(devs, 0, |receivers|);
    var order := FirstSeen(out, ReceiverOf);
    ScheduleReceivers(items, devs, receivers);
    BucketsOfReceiver(items, devs, receivers, 0, 0);
    RoundsTile(devs, 0, |receivers|, |lengths| - 1);
    assert order[0] == receivers[0] && order[0] in order;
    forall r | r in order
      ensures |BucketsOf(out, r)| <= |lengths|
    {
      var k :| 0 <= k < |order| && order[k] == r;
      BucketsOfReceiver(items, devs, receivers, 0, k);
    }
  }

  // ----- the theorems about a whole P2P update

  /** The device list the scheduler works on, for receivers of distinct groups. */
  lemma {:induction false} PlanFacts<T(!new)>(buckets: seq<Owned<T>>, localTopo: seq<Group>, device: map<int, Device>)
    returns (items: seq<Owned<T>>, devs: seq<Device>, receivers: seq<int>)
    requires Schedulable(buckets, localTopo, device) && DisjointGroups(localTopo) && buckets != []
    ensures receivers == ReceiversFor(buckets, localTopo, device) && receivers != [] && AllDistinct(receivers)
    ensures items == Flatten(Matrix(buckets, device)) && devs == SenderDevices(items, device)
    ensures RoundRobin(devs) && |items| == |buckets|
    ensures Assignment(buckets, localTopo, device) == AssignFrom(items, devs, receivers, 0)
    ensures NamesRows(devs, Coords(Lengths(Matrix(buckets, device))))
    ensures forall x :: x in items ==> x in buckets
  {
    items := Flatten(Matrix(buckets, device));
    devs := SenderDevices(items, device);
    receivers := ReceiversFor(buckets, localTopo, device);
    SomeReceiver(buckets, localTopo, device);
    ReceiversAreDistinct(localTopo, |receivers|);
    MatrixIsKeyed(buckets, device);
    KeysNameRows(Matrix(buckets, device), DeviceOf(device), FirstSeen(buckets, DeviceOf(device)), devs);
    FlattenedIsRoundRobin(Lengths(Matrix(buckets, device)), devs);
    FlatMatrixIsPermutation(buckets, device);
    assert |multiset(items)| == |multiset(buckets)|;
    assert forall x :: x in items ==> x in multiset(items);
  }

  lemma {:induction false} NoEmptyRows<T>(buckets: seq<Owned<T>>, device: map<int, Device>, r: nat)
    requires r < |Matrix(buckets, device)|
    ensures Matrix(buckets, device)[r] != []
  {
    var key := DeviceOf<T>(device);
    var order := FirstSeen(buckets, key);
    FirstSeenKeys(buckets, key);
    assert order[r] in order;
    var i :| 0 <= i < |buckets| && key(buckets[i]) == order[r];
    WhereOnlyKey(buckets, key, order[r]);
    assert buckets[i] in Where(buckets, key, order[r]);
  }

  /** The first round is as long as there are receivers. */
  lemma {:induction false} FirstRoundIsFull(lens: seq<nat>, devs: seq<Device>, width: nat)
    requires NamesRows(devs, Coords(lens)) && 0 < width <= |lens| && forall r :: 0 <= r < |lens| ==> lens[r] > 0
    ensures devs != [] && RoundLength(devs, 0, 1, width) == width
  {
    forall k | 0 <= k < |lens|
      ensures k < |devs| && Coords(lens)[k] == Coord(0, k)
    {
      FirstColumn(lens, k);
    }
    FirstColumn(lens, width - 1);
    forall i, j | 0 <= i < j < width
      ensures devs[i] != devs[j]
    {
      assert Coords(lens)[i].row != Coords(lens)[j].row;
    }
    LongestFit(devs, 0, width, width);
  }

  /**
   The receivers of a P2P schedule: as many as local groups and sender devices allow, and the k-th of
   them is the least rank of the k-th local group.
   */
  lemma {:induction false} ReceiversInUse<T(!new)>(buckets: seq<Owned<T>>, localTopo: seq<Group>,
                                            device: map<int, Device>)
    requires Schedulable(buckets, localTopo, device) && DisjointGroups(localTopo)
    ensures var used := FirstSeen(Assignment(buckets, localTopo, device), ReceiverOf);
            var senders := |set b | b in buckets :: device[b.owner]|;
            && |used| == (if |localTopo| < senders then |localTopo| else senders)
            && forall k :: 0 <= k < |used| ==> IsLeast(used[k], localTopo[k].ranks)
  {
    ReceiverCount(buckets, localTopo, device);
    if buckets != [] {
      hide DisjointGroups, Matrix, Flatten, ReceiversFor, AssignFrom, RoundLength, Assignment, Coords;
      var items, devs, receivers := PlanFacts(buckets, localTopo, device);
      AsManyRows(buckets, localTopo, device);
      FirstRoundIsFull(Lengths(Matrix(buckets, device)), devs, |receivers|);
      ScheduleReceivers(items, devs, receivers);
      assert receivers[..|receivers|] == receivers;
    }
  }

  lemma {:induction false} AsManyRows<T>(buckets: seq<Owned<T>>, localTopo: seq<Group>, device: map<int, Device>)
    requires Schedulable(buckets, localTopo, device)
    ensures |ReceiversFor(buckets, localTopo, device)| <= |Lengths(Matrix(buckets, device))|
    ensures |ReceiversFor(buckets, localTopo, device)| <= |localTopo|
    ensures var receivers := ReceiversFor(buckets, localTopo, device);
            forall k :: 0 <= k < |receivers| ==> IsLeast(receivers[k], localTopo[k].ranks)
    ensures forall r :: 0 <= r < |Matrix(buckets, device)| ==> Lengths(Matrix(buckets, device))[r] > 0
  {
    hide IsLeast;
    forall r | 0 <= r < |Matrix(buckets, device)|
      ensures Lengths(Matrix(buckets, device))[r] > 0
    {
      NoEmptyRows(buckets, device, r);
    }
  }

  /**
   The update loop runs a P2P schedule in exactly the order in which the scheduler listed it.
   */
  lemma {:induction false} LoopFollowsSchedule<T(!new)>(buckets: seq<Owned<T>>, localTopo: seq<Group>,
                                                 device: map<int, Device>)
    requires Schedulable(buckets, localTopo, device) && DisjointGroups(localTopo)
    ensures var out := Assignment(buckets, localTopo, device);
            Visits(out) == out
  {
    if buckets != [] {
      var items, devs, receivers := PlanFacts(buckets, localTopo, device);
      StepsAreRounds(items, devs, receivers);
      LongestListCountsRounds(items, devs, receivers);
    }
  }

  lemma {:induction false} NthBucketOfReceiver<T>(items: seq<Owned<T>>, devs: seq<Device>, receivers: seq<int>,
                                                  r: int, i: nat)
    returns (k: nat)
    requires |items| == |devs| && receivers != [] && AllDistinct(receivers) && RoundRobin(devs)
    requires i < |BucketsOf(AssignFrom(items, devs, receivers, 0), r)|
    ensures k < |receivers| && receivers[k] == r
    ensures var lengths := RoundLengths(devs, 0, |receivers|);
            && i < |lengths| && k < lengths[i]
            && IsItem(BucketsOf(AssignFrom(items, devs, receivers, 0), r)[i], items, r, RoundStart(lengths, i) + k)
  {
    var out := AssignFrom(items, devs, receivers, 0);
    AssignFromReceivers(items, devs, receivers, 0);
    WhereOnlyKey(out, ReceiverOf, r);
    var a := BucketsOf(out, r)[i];
    assert a in BucketsOf(out, r) && ReceiverOf(a) == r;
    assert a in out && a.receiver in receivers;
    k :| 0 <= k < |receivers| && receivers[k] == r;
    BucketsOfReceiver(items, devs, receivers, 0, k);
  }

  lemma {:induction false} FetchesInOneRound<T>(items: seq<Owned<T>>, devs: seq<Device>, receivers: seq<int>, r: int,
                                                s: int, i: nat)
    returns (p: nat, q: nat)
    requires |items| == |devs| && receivers != [] && AllDistinct(receivers) && RoundRobin(devs) && r != s
    requires i < |BucketsOf(AssignFrom(items, devs, receivers, 0), r)|
    requires i < |BucketsOf(AssignFrom(items, devs, receivers, 0), s)|
    ensures IsItem(BucketsOf(AssignFrom(items, devs, receivers, 0), r)[i], items, r, p)
    ensures IsItem(BucketsOf(AssignFrom(items, devs, receivers, 0), s)[i], items, s, q)
    ensures p < |devs| && q < |devs| && devs[p] != devs[q]
  {
    var j := NthBucketOfReceiver(items, devs, receivers, r, i);
    var k := NthBucketOfReceiver(items, devs, receivers, s, i);
    RoundsTile(devs, 0, |receivers|, i);
    var at := RoundStart(RoundLengths(devs, 0, |receivers|), i);
    p, q := at + j, at + k;
  }

  /**
   Conflict freedom of the update loop: the buckets that different receivers fetch in the same
   step come from different sender devices.
   */
  lemma {:induction false} FetchesDoNotConflict<T(!new)>(buckets: seq<Owned<T>>, localTopo: seq<Group>,
                                                  device: map<int, Device>,
                                      r: int, s: int, i: nat)
    requires Schedulable(buckets, localTopo, device) && DisjointGroups(localTopo) && r != s
    requires i < |BucketsOf(Assignment(buckets, localTopo, device), r)|
    requires i < |BucketsOf(Assignment(buckets, localTopo, device), s)|
    ensures var a := BucketsOf(Assignment(buckets, localTopo, device), r)[i];
            var b := BucketsOf(Assignment(buckets, localTopo, device), s)[i];
            a.owner in device && b.owner in device && device[a.owner] != device[b.owner]
  {
    var items, devs, receivers := PlanFacts(buckets, localTopo, device);
    var p, q := FetchesInOneRound(items, devs, receivers, r, s, i);
    assert items[p] in items && items[q] in items;
  }
}
