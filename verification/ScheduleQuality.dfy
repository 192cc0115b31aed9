/** How good the greedy P2P schedule is, counted in steps of the update loop. */
module ScheduleQuality {
  import opened Arithmetic
  import opened DataTypes
  import opened Flattening
  import opened Rounds
  import opened Scheduler
  import opened Sequences
  import opened UpdateLoop

  /** The update loop's `max_len` on the P2P schedule. */
  function StepsTaken<T>(buckets: seq<Owned<T>>, localTopo: seq<Group>, device: map<int, Device>): nat
    requires Schedulable(buckets, localTopo, device)
  {
    var out := Assignment(buckets, localTopo, device);
    MaxLen(out, FirstSeen(out, ReceiverOf))
  }

  /** How many buckets the busiest sender device has to send. */
  function BusiestSender<T>(buckets: seq<Owned<T>>, device: map<int, Device>): nat
  {
    LongestRow(Lengths(Matrix(buckets, device)))
  }

  function SenderSequence<T>(buckets: seq<Owned<T>>, device: map<int, Device>): seq<Device>
  {
    SenderDevices(Flatten(Matrix(buckets, device)), device)
  }

  lemma {:induction false} StepsAreGreedyRounds<T(!new)>(buckets: seq<Owned<T>>, localTopo: seq<Group>,
                                                  device: map<int, Device>)
    requires Schedulable(buckets, localTopo, device) && DisjointGroups(localTopo) && buckets != []
    ensures var width := |ReceiversFor(buckets, localTopo, device)|;
            && width > 0
            && StepsTaken(buckets, localTopo, device) == |RoundLengths(SenderSequence(buckets, device), 0, width)|
  {
    var items, devs, receivers := PlanFacts(buckets, localTopo, device);
    LongestListCountsRounds(items, devs, receivers);
  }

  /**
   No other way to cut the flattened list into consecutive rounds with distinct sender devices
   needs fewer steps, and the greedy rounds are such a cut.
   */
  lemma {:induction false} StepsAreMinimal<T(!new)>(buckets: seq<Owned<T>>, localTopo: seq<Group>,
                                             device: map<int, Device>, r: nat, cut: seq<nat>)
    requires Schedulable(buckets, localTopo, device) && DisjointGroups(localTopo) && buckets != []
    requires r == var senders := |set b | b in buckets :: device[b.owner]|;
                  if |localTopo| < senders then |localTopo| else senders
    requires IsCut(SenderSequence(buckets, device), 0, cut, r)
    ensures StepsTaken(buckets, localTopo, device) <= |cut|
    ensures exists greedy :: |greedy| == StepsTaken(buckets, localTopo, device)
              && IsCut(SenderSequence(buckets, device), 0, greedy, r)
  {
    var devs := SenderSequence(buckets, device);
    ReceiverCount(buckets, localTopo, device);
    StepsAreGreedyRounds(buckets, localTopo, device);
    GreedyStaysAhead(devs, 0, 0, r, cut);
    GreedyIsACut(devs, 0, r);
    assert IsCut(devs, 0, RoundLengths(devs, 0, r), r);
  }

  /** The steps wasted are at most one partly filled round for each bucket of the busiest sender. */
  lemma {:induction false} StepsBound<T(!new)>(buckets: seq<Owned<T>>, localTopo: seq<Group>, device: map<int, Device>,
                                        r: nat)
    requires Schedulable(buckets, localTopo, device) && DisjointGroups(localTopo) && buckets != []
    requires r == var senders := |set b | b in buckets :: device[b.owner]|;
                  if |localTopo| < senders then |localTopo| else senders
    ensures r > 0
    ensures var steps := StepsTaken(buckets, localTopo, device);
            |buckets| <= r * steps <= |buckets| + BusiestSender(buckets, device) * (r - 1)
  {
    var items, devs, receivers := PlanFacts(buckets, localTopo, device);
    ReceiverCount(buckets, localTopo, device);
    StepsAreGreedyRounds(buckets, localTopo, device);
    var col := FlattenedColumns(Lengths(Matrix(buckets, device)), devs);
    AllRoundsBound(devs, col, BusiestSender(buckets, device), r);
    RoundsCover(devs, 0, r);
  }

  /** When all sender devices have equally many buckets, every step but the last is full. */
  lemma {:induction false} EvenSendersFillSteps<T(!new)>(buckets: seq<Owned<T>>, localTopo: seq<Group>,
                                                  device: map<int, Device>, r: nat)
    requires Schedulable(buckets, localTopo, device) && DisjointGroups(localTopo) && buckets != []
    requires forall b, c :: b in buckets && c in buckets ==>
               |SentBy(buckets, device, b)| == |SentBy(buckets, device, c)|
    requires r == var senders := |set b | b in buckets :: device[b.owner]|;
                  if |localTopo| < senders then |localTopo| else senders
    ensures r > 0 && StepsTaken(buckets, localTopo, device) == (|buckets| + r - 1) / r
  {
    hide Matrix, Flatten, ReceiversFor, Schedulable, Rectangle, NamesRows, StepsTaken, SenderSequence;
    var items, devs, receivers := PlanFacts(buckets, localTopo, device);
    ReceiverCount(buckets, localTopo, device);
    AsManyRows(buckets, localTopo, device);
    EvenSendersAreRectangle(buckets, device);
    StepsAreGreedyRounds(buckets, localTopo, device);
    SequenceOf(buckets, device);
    RectangleRounds(Lengths(Matrix(buckets, device)), devs, r);
  }

  lemma {:induction false} SequenceOf<T>(buckets: seq<Owned<T>>, device: map<int, Device>)
    ensures SenderSequence(buckets, device) == SenderDevices(Flatten(Matrix(buckets, device)), device)
  {
  }

  /** The buckets from the sender device of `b`. */
  function SentBy<T>(buckets: seq<Owned<T>>, device: map<int, Device>, b: Owned<T>): seq<Owned<T>>
  {
    Where(buckets, DeviceOf(device), DeviceOf(device)(b))
  }

  lemma {:induction false} EvenSendersAreRectangle<T>(buckets: seq<Owned<T>>, device: map<int, Device>)
    requires forall b, c :: b in buckets && c in buckets ==>
               |SentBy(buckets, device, b)| == |SentBy(buckets, device, c)|
    ensures Rectangle(Lengths(Matrix(buckets, device)))
  {
    var key := DeviceOf<T>(device);
    var order := FirstSeen(buckets, key);
    FirstSeenKeys(buckets, key);
    forall r, s | 0 <= r < |order| && 0 <= s < |order|
      ensures |Where(buckets, key, order[r])| == |Where(buckets, key, order[s])|
    {
      assert order[r] in order && order[s] in order;
      var i :| 0 <= i < |buckets| && key(buckets[i]) == order[r];
      var j :| 0 <= j < |buckets| && key(buckets[j]) == order[s];
      assert |SentBy(buckets, device, buckets[i])| == |SentBy(buckets, device, buckets[j])|;
    }
  }

  /** No sender device has to send more than the busiest one. */
  lemma {:induction false} NoneIsBusier<T>(buckets: seq<Owned<T>>, device: map<int, Device>, d: Device)
    ensures |Where(buckets, DeviceOf(device), d)| <= BusiestSender(buckets, device)
  {
    var key := DeviceOf<T>(device);
    var order := FirstSeen(buckets, key);
    if d in order {
      var r :| 0 <= r < |order| && order[r] == d;
      assert Lengths(Matrix(buckets, device))[r] in Lengths(Matrix(buckets, device));
    } else {
      UnseenGroup(buckets, key, d);
    }
  }

  lemma {:induction false} RectangleRounds(lens: seq<nat>, devs: seq<Device>, width: nat)
    requires NamesRows(devs, Coords(lens)) && Rectangle(lens) && 0 < width <= |lens|
    ensures |RoundLengths(devs, 0, width)| == (|devs| + width - 1) / width
  {
    forall i, j | 0 <= i < j < |devs| && devs[i] == devs[j]
      ensures width <= j - i
    {
      RectangleRepeats(lens, devs, i, j);
    }
    FullRounds(devs, 0, width);
  }

  // ----- comparison with arbitrary schedules

  /** A schedule in which no round uses a sender device twice or more receivers than there are. */
  ghost predicate ConflictFree<T>(rounds: seq<seq<Owned<T>>>, device: map<int, Device>, width: nat)
  {
    forall i :: 0 <= i < |rounds| ==> |rounds[i]| <= width && AllDistinct(SenderDevices(rounds[i], device))
  }

  lemma {:induction false} RoundsHoldAtMost<T>(rounds: seq<seq<Owned<T>>>, device: map<int, Device>, width: nat)
    requires ConflictFree(rounds, device, width)
    ensures |Concat(rounds)| <= width * |rounds|
  {
    if rounds != [] {
      RoundsHoldAtMost(rounds[1..], device, width);
      assert width * (1 + |rounds[1..]|) == width + width * |rounds[1..]|;
    }
  }

  lemma {:induction false} OncePerRound<T>(round: seq<Owned<T>>, device: map<int, Device>, d: Device)
    requires AllDistinct(SenderDevices(round, device))
    ensures |Where(round, DeviceOf(device), d)| <= 1
  {
    if round != [] {
      var devs := SenderDevices(round, device);
      assert SenderDevices(round[1..], device) == devs[1..];
      OncePerRound(round[1..], device, d);
      if DeviceOf(device)(round[0]) == d {
        forall x | x in round[1..]
          ensures DeviceOf(device)(x) != d
        {
          var j :| 0 <= j < |round[1..]| && round[1..][j] == x;
          assert devs[0] != devs[j + 1];
        }
        EmptyGroup(round[1..], DeviceOf(device), d);
      }
    }
  }

  lemma {:induction false} SenderNeedsRounds<T>(rounds: seq<seq<Owned<T>>>, device: map<int, Device>, width: nat,
                                                d: Device)
    requires ConflictFree(rounds, device, width)
    ensures |Where(Concat(rounds), DeviceOf(device), d)| <= |rounds|
  {
    if rounds != [] {
      OncePerRound(rounds[0], device, d);
      SenderNeedsRounds(rounds[1..], device, width, d);
      WhereAppend(rounds[0], Concat(rounds[1..]), DeviceOf(device), d);
    }
  }

  lemma {:induction false} SamePermutationSameGroupSize<T, K>(a: seq<T>, b: seq<T>, key: T -> K, k: K)
    requires multiset(a) == multiset(b)
    ensures |Where(a, key, k)| == |Where(b, key, k)|
  {
    if a == [] {
      PermutationOfNothing(a, b);
    } else {
      var front, x := a[..|a| - 1], a[|a| - 1];
      var j := FindLast(a, b);
      SamePermutationSameGroupSize(front, b[..j] + b[j + 1..], key, k);
      WhereAppend(b[..j], b[j + 1..], key, k);
      WhereAppend(b[..j] + [x], b[j + 1..], key, k);
      WhereSnoc(b[..j], x, key, k);
      WhereSnoc(front, x, key, k);
      assert a == front + [x];
    }
  }

  lemma {:induction false} BusiestSenderIsASender<T(!new)>(buckets: seq<Owned<T>>,
                                                    device: map<int, Device>) returns (d: Device)
    requires buckets != []
    ensures |Where(buckets, DeviceOf(device), d)| == BusiestSender(buckets, device)
  {
    var key := DeviceOf<T>(device);
    var order := FirstSeen(buckets, key);
    var lens := Lengths(Matrix(buckets, device));
    FirstSeenKeys(buckets, key);
    assert key(buckets[0]) in order;
    var r :| 0 <= r < |lens| && lens[r] == LongestRow(lens);
    d := order[r];
  }

  /** What every conflict-free schedule costs at least. */
  lemma {:induction false} AnyScheduleIsLong<T(!new)>(buckets: seq<Owned<T>>, device: map<int, Device>,
                                               rounds: seq<seq<Owned<T>>>, width: nat)
    requires buckets != [] && multiset(Concat(rounds)) == multiset(buckets) && ConflictFree(rounds, device, width)
    ensures |buckets| <= width * |rounds| && BusiestSender(buckets, device) <= |rounds|
  {
    RoundsHoldAtMost(rounds, device, width);
    assert |buckets| == |multiset(buckets)| == |multiset(Concat(rounds))| == |Concat(rounds)|;
    var d := BusiestSenderIsASender(buckets, device);
    SenderNeedsRounds(rounds, device, width, d);
    SamePermutationSameGroupSize(Concat(rounds), buckets, DeviceOf(device), d);
  }

  lemma {:induction false} TwiceAsMany(buckets: nat, steps: nat, width: nat, most: nat, n: nat)
    requires width > 0 && width * steps <= buckets + most * (width - 1) && buckets <= width * n && most <= n
    ensures width * steps <= (2 * width - 1) * n
  {
    MulMonotone(most, n, width - 1);
    assert width * n + n * (width - 1) == (2 * width - 1) * n;
  }

  lemma {:induction false} NearAnyLowerBound<T(!new)>(buckets: seq<Owned<T>>, localTopo: seq<Group>,
                                               device: map<int, Device>, r: nat, n: nat)
    requires Schedulable(buckets, localTopo, device) && DisjointGroups(localTopo) && buckets != []
    requires r == var senders := |set b | b in buckets :: device[b.owner]|;
                  if |localTopo| < senders then |localTopo| else senders
    requires |buckets| <= r * n && BusiestSender(buckets, device) <= n
    ensures r * StepsTaken(buckets, localTopo, device) <= (2 * r - 1) * n
  {
    hide StepsTaken, BusiestSender, DisjointGroups;
    StepsBound(buckets, localTopo, device, r);
    TwiceAsMany(|buckets|, StepsTaken(buckets, localTopo, device), r, BusiestSender(buckets, device), n);
  }

  /**
   The greedy schedule takes at most 2 - 1/R times the steps of any conflict-free schedule of
   the same buckets on R receivers.
   */
  lemma {:induction false} GreedyIsNearOptimal<T(!new)>(buckets: seq<Owned<T>>, localTopo: seq<Group>,
                                                 device: map<int, Device>, r: nat, rounds: seq<seq<Owned<T>>>)
    requires Schedulable(buckets, localTopo, device) && DisjointGroups(localTopo) && buckets != []
    requires r == var senders := |set b | b in buckets :: device[b.owner]|;
                  if |localTopo| < senders then |localTopo| else senders
    requires multiset(Concat(rounds)) == multiset(buckets) && ConflictFree(rounds, device, r)
    ensures r * StepsTaken(buckets, localTopo, device) <= (2 * r - 1) * |rounds|
  {
    AnyScheduleIsLong(buckets, device, rounds, r);
    NearAnyLowerBound(buckets, localTopo, device, r, |rounds|);
  }
}
