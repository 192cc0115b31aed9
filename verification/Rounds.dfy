/**
 How the flattened bucket list is cut into rounds.

 `devs[p]` is the sender device of the p-th flattened bucket. A round starting at `p` takes
 buckets until it holds `width` of them, the list ends, or the next device was used in the round.
 */
module Rounds {
  import opened Arithmetic

  /** Whether positions `p..q` can form one round. */
  ghost predicate Fits<D(!new)>(devs: seq<D>, p: nat, q: nat, width: nat)
  {
    && p <= q <= |devs|
    && q - p <= width
    && forall i, j :: p <= i < j < q ==> devs[i] != devs[j]
  }

  /** The length of the round at `p`, given that its first `k` buckets were taken. */
  function RoundLength<D(==)>(devs: seq<D>, p: nat, k: nat, width: nat): (len: nat)
    requires p + k <= |devs| && k <= width
    ensures k <= len <= width && p + len <= |devs|
    decreases width - k
  {
    if k == width || p + k == |devs| || devs[p + k] in devs[p..p + k] then k
    else RoundLength(devs, p, k + 1, width)
  }

  /** The lengths of all rounds from position `p` on. */
  function RoundLengths<D(==)>(devs: seq<D>, p: nat, width: nat): seq<nat>
    requires p <= |devs| && width > 0
    decreases |devs| - p
  {
    if p == |devs| then []
    else
      var len := RoundLength(devs, p, 1, width);
      [len] + RoundLengths(devs, p + len, width)
  }

  /** Where round `i` starts, if the rounds at `p` have these lengths. */
  function RoundStart(lengths: seq<nat>, i: nat): nat
    requires i <= |lengths|
  {
    if i == 0 then 0 else lengths[0] + RoundStart(lengths[1..], i - 1)
  }

  lemma {:induction false} RoundStartNext(lengths: seq<nat>, i: nat)
    requires i < |lengths|
    ensures RoundStart(lengths, i + 1) == RoundStart(lengths, i) + lengths[i]
  {
    if i > 0 {
      RoundStartNext(lengths[1..], i - 1);
    }
  }

  /** A round is the longest stretch that fits. */
  lemma {:induction false} RoundLengthIsMaximal<D(!new)>(devs: seq<D>, p: nat, k: nat, width: nat)
    requires Fits(devs, p, p + k, width)
    ensures var len := RoundLength(devs, p, k, width);
            && Fits(devs, p, p + len, width)
            && (len == width || p + len == |devs| || devs[p + len] in devs[p..p + len])
    decreases width - k
  {
    if k == width || p + k == |devs| || devs[p + k] in devs[p..p + k] {
    } else {
      forall i | p <= i < p + k
        ensures devs[i] != devs[p + k]
      {
        assert devs[i] == devs[p..p + k][i - p];
      }
      RoundLengthIsMaximal(devs, p, k + 1, width);
    }
  }

  lemma {:induction false} LongestFit<D(!new)>(devs: seq<D>, p: nat, q: nat, width: nat)
    requires p < |devs| && width > 0 && Fits(devs, p, q, width)
    ensures q - p <= RoundLength(devs, p, 1, width)
  {
    RoundLengthIsMaximal(devs, p, 1, width);
    var e := p + RoundLength(devs, p, 1, width);
  }

  /** The device of position `q` was already used at `p`. */
  ghost predicate Repeats<D>(devs: seq<D>, p: nat, q: nat)
  {
    p < q < |devs| && devs[p] == devs[q]
  }

  /** The device of position `q` was already used, later than at `p`. */
  ghost predicate RepeatsAfter<D>(devs: seq<D>, p: nat, q: nat)
  {
    exists r :: p < r < q < |devs| && devs[r] == devs[q]
  }

  /**
   The shape of a column-by-column reading of ragged rows: once a device repeats, the next
   bucket's device repeats too, and its previous use lies strictly later.
   */
  ghost predicate RoundRobin<D>(devs: seq<D>)
  {
    forall p: nat, q: nat :: Repeats(devs, p, q) ==> q + 1 == |devs| || RepeatsAfter(devs, p, q + 1)
  }

  lemma {:induction false} NextRoundIsNoLonger<D(!new)>(devs: seq<D>, p: nat, width: nat)
    requires RoundRobin(devs) && p + 1 < |devs| && width > 0
    ensures RoundLength(devs, p + 1, 1, width) <= RoundLength(devs, p, 1, width)
  {
    var q := p + RoundLength(devs, p, 1, width);
    var e := p + 1 + RoundLength(devs, p + 1, 1, width);
    RoundLengthIsMaximal(devs, p, 1, width);
    RoundLengthIsMaximal(devs, p + 1, 1, width);
    if q - p < width && q < |devs| && q + 1 < e {
      var j :| p <= j < q && devs[j] == devs[q];
      assert Repeats(devs, j, q);
    }
  }

  /** Round lengths never increase along a round-robin list. */
  lemma {:induction false} LaterRoundIsNoLonger<D(!new)>(devs: seq<D>, p: nat, q: nat, width: nat)
    requires RoundRobin(devs) && p <= q < |devs| && width > 0
    ensures RoundLength(devs, q, 1, width) <= RoundLength(devs, p, 1, width)
    decreases q - p
  {
    if p < q {
      LaterRoundIsNoLonger(devs, p, q - 1, width);
      NextRoundIsNoLonger(devs, q - 1, width);
    }
  }

  ghost predicate AtMost(lengths: seq<nat>, bound: nat)
  {
    forall l :: l in lengths ==> l <= bound
  }

  lemma {:induction false} LaterRoundsAreNoLonger<D(!new)>(devs: seq<D>, p: nat, width: nat)
    requires RoundRobin(devs) && p < |devs| && width > 0
    ensures AtMost(RoundLengths(devs, p, width), RoundLength(devs, p, 1, width))
    decreases |devs| - p
  {
    var len := RoundLength(devs, p, 1, width);
    if p + len < |devs| {
      LaterRoundIsNoLonger(devs, p, p + len, width);
      LaterRoundsAreNoLonger(devs, p + len, width);
    }
  }

  ghost predicate NonIncreasing(lengths: seq<nat>)
  {
    forall i, j :: 0 <= i < j < |lengths| ==> lengths[j] <= lengths[i]
  }

  lemma {:induction false} RoundLengthsNeverIncrease<D(!new)>(devs: seq<D>, p: nat, width: nat)
    requires RoundRobin(devs) && p <= |devs| && width > 0
    ensures NonIncreasing(RoundLengths(devs, p, width))
    decreases |devs| - p
  {
    if p < |devs| {
      var lengths := RoundLengths(devs, p, width);
      RoundLengthsNeverIncrease(devs, p + lengths[0], width);
      LaterRoundsAreNoLonger(devs, p, width);
      forall i, j | 0 <= i < j < |lengths|
        ensures lengths[j] <= lengths[i]
      {
        assert lengths[j] in lengths;
        if i > 0 {
          assert lengths[1..][j - 1] <= lengths[1..][i - 1];
        }
      }
    }
  }

  /** The rounds tile the list: each lies where the previous one ended and fits. */
  lemma {:induction false} RoundsTile<D(!new)>(devs: seq<D>, p: nat, width: nat, i: nat)
    requires p <= |devs| && width > 0
    requires i < |RoundLengths(devs, p, width)|
    ensures var lengths := RoundLengths(devs, p, width);
            && 0 < lengths[i]
            && Fits(devs, p + RoundStart(lengths, i), p + RoundStart(lengths, i) + lengths[i], width)
    decreases i
  {
    var len := RoundLength(devs, p, 1, width);
    if i == 0 {
      RoundLengthIsMaximal(devs, p, 1, width);
    } else {
      RoundsTile(devs, p + len, width, i - 1);
    }
  }

  lemma {:induction false} RoundsReachTheEnd<D>(devs: seq<D>, p: nat, width: nat)
    requires p <= |devs| && width > 0
    ensures var lengths := RoundLengths(devs, p, width);
            p + RoundStart(lengths, |lengths|) == |devs|
    decreases |devs| - p
  {
    if p < |devs| {
      RoundsReachTheEnd(devs, p + RoundLength(devs, p, 1, width), width);
    }
  }

  // ----- quality of the greedy cut

  /** Whether `cut` splits `devs[q..]` into consecutive stretches that each fit in a round. */
  ghost predicate IsCut<D(!new)>(devs: seq<D>, q: nat, cut: seq<nat>, width: nat)
    requires q <= |devs|
    decreases |cut|
  {
    if cut == [] then q == |devs|
    else Fits(devs, q, q + cut[0], width) && IsCut(devs, q + cut[0], cut[1..], width)
  }

  /** The greedy cut, started no earlier than another cut, needs no more rounds. */
  lemma {:induction false} GreedyStaysAhead<D(!new)>(devs: seq<D>, p: nat, q: nat, width: nat, cut: seq<nat>)
    requires width > 0 && q <= p <= |devs| && IsCut(devs, q, cut, width)
    ensures |RoundLengths(devs, p, width)| <= |cut|
    decreases |cut|
  {
    if p < |devs| {
      var len := RoundLength(devs, p, 1, width);
      var q' := q + cut[0];
      if p < q' {
        LongestFit(devs, p, q', width);
      }
      GreedyStaysAhead(devs, p + len, q', width, cut[1..]);
    }
  }

  lemma {:induction false} GreedyIsACut<D(!new)>(devs: seq<D>, p: nat, width: nat)
    requires width > 0 && p <= |devs|
    ensures IsCut(devs, p, RoundLengths(devs, p, width), width)
    decreases |devs| - p
  {
    if p < |devs| {
      RoundLengthIsMaximal(devs, p, 1, width);
      GreedyIsACut(devs, p + RoundLength(devs, p, 1, width), width);
    }
  }

  /**
   `col[p]` says how often the device of position `p` was used before: it never falls along the
   list, and a repeated device lies one column further.
   */
  ghost predicate Columns<D>(devs: seq<D>, col: seq<nat>)
  {
    && |col| == |devs|
    && (forall p, q :: 0 <= p < q < |devs| ==> col[p] <= col[q])
    && (forall p, q :: 0 <= p < q < |devs| && devs[p] == devs[q] ==> col[p] < col[q])
  }

  lemma {:induction false} ShortRoundEndsColumn<D(!new)>(devs: seq<D>, col: seq<nat>, p: nat, width: nat)
    requires width > 0 && p < |devs| && Columns(devs, col)
    ensures var q := p + RoundLength(devs, p, 1, width);
            q < |devs| ==> col[p] <= col[q] && (q - p < width ==> col[p] < col[q])
  {
    RoundLengthIsMaximal(devs, p, 1, width);
    var q := p + RoundLength(devs, p, 1, width);
    if q < |devs| && q - p < width {
      var j :| p <= j < q && devs[j] == devs[q];
      assert col[p] <= col[j] < col[q];
    }
  }

  lemma {:induction false} OneMoreRound(width: nat, rest: nat, left: nat, room: nat, n: nat, len: nat)
    requires 0 < len <= width && width * rest <= n + left * (width - 1)
    requires if len == width then left <= room else left + 1 <= room
    ensures width * (1 + rest) <= len + n + room * (width - 1)
  {
    assert width * (1 + rest) == width + width * rest;
    if len == width {
      MulMonotone(left, room, width - 1);
    } else {
      MulMonotone(left + 1, room, width - 1);
      assert (left + 1) * (width - 1) == left * (width - 1) + width - 1;
    }
  }

  /** How many columns, of `depth`, are still to come at position `p`. */
  ghost function ColumnsLeft(col: seq<nat>, depth: nat, p: nat): int
  {
    if p < |col| then depth - col[p] else 0
  }

  lemma {:induction false} RoundLengthsNext<D>(devs: seq<D>, p: nat, width: nat)
    requires p < |devs| && width > 0
    ensures var len := RoundLength(devs, p, 1, width);
            0 < len <= width && p + len <= |devs| && |RoundLengths(devs, p, width)| == 1 + |RoundLengths(devs, p + len, width)|
  {
    hide RoundLength;
  }

  lemma {:induction false} RoundCostsColumn<D(!new)>(devs: seq<D>, col: seq<nat>, depth: nat, p: nat, width: nat)
    requires width > 0 && p < |devs| && Columns(devs, col) && forall c :: c in col ==> c < depth
    ensures var len := RoundLength(devs, p, 1, width);
            var left, room := ColumnsLeft(col, depth, p + len), ColumnsLeft(col, depth, p);
            && left >= 0 && room >= 0
            && if len == width then left <= room else left + 1 <= room
  {
    hide RoundLength;
    var q := p + RoundLength(devs, p, 1, width);
    ShortRoundEndsColumn(devs, col, p, width);
    assert col[p] in col && (q < |devs| ==> col[q] in col);
  }

  /** A round that is not full costs a whole column, so there are at most `depth` of them. */
  lemma {:induction false} RoundsBound<D(!new)>(devs: seq<D>, col: seq<nat>, depth: nat, p: nat, width: nat)
    requires width > 0 && p <= |devs| && Columns(devs, col)
    requires forall c :: c in col ==> c < depth
    ensures width * |RoundLengths(devs, p, width)| <= |devs| - p + ColumnsLeft(col, depth, p) * (width - 1)
    decreases |devs| - p
  {
    if p < |devs| {
      hide Columns, ColumnsLeft, RoundLength, RoundLengths;
      RoundLengthsNext(devs, p, width);
      var len := RoundLength(devs, p, 1, width);
      var q := p + len;
      RoundsBound(devs, col, depth, q, width);
      RoundCostsColumn(devs, col, depth, p, width);
      OneMoreRound(width, |RoundLengths(devs, q, width)|, ColumnsLeft(col, depth, q),
                   ColumnsLeft(col, depth, p), |devs| - q, len);
    }
  }

  lemma {:induction false} AllRoundsBound<D(!new)>(devs: seq<D>, col: seq<nat>, depth: nat, width: nat)
    requires width > 0 && Columns(devs, col) && forall c :: c in col ==> c < depth
    ensures width * |RoundLengths(devs, 0, width)| <= |devs| + depth * (width - 1)
  {
    RoundsBound(devs, col, depth, 0, width);
    assert 0 < |col| ==> col[0] in col;
    MulMonotone(ColumnsLeft(col, depth, 0), depth, width - 1);
  }

  lemma {:induction false} CoverOneMore(width: nat, rest: nat, n: nat, len: nat)
    requires len <= width && n <= len + width * rest
    ensures n <= width * (1 + rest)
  {
    assert width * (1 + rest) == width + width * rest;
  }

  /** No cut into rounds of at most `width` can do with fewer than `|devs| / width` of them. */
  lemma {:induction false} RoundsCover<D(!new)>(devs: seq<D>, p: nat, width: nat)
    requires width > 0 && p <= |devs|
    ensures |devs| - p <= width * |RoundLengths(devs, p, width)|
    decreases |devs| - p
  {
    hide RoundLength, RoundLengths;
    var count := |RoundLengths(devs, p, width)|;
    if p < |devs| {
      RoundLengthsNext(devs, p, width);
      var len := RoundLength(devs, p, 1, width);
      var rest := |RoundLengths(devs, p + len, width)|;
      RoundsCover(devs, p + len, width);
      CoverOneMore(width, rest, |devs| - p, len);
      assert count == 1 + rest;
    }
  }

  lemma {:induction false} CeilingStep(n: nat, width: nat)
    requires width > 0
    ensures (n + width + width - 1) / width == 1 + (n + width - 1) / width
    ensures 0 < n <= width ==> (n + width - 1) / width == 1
    ensures (width - 1) / width == 0
  {
    QuotientOfSum(n + width - 1, width);
    QuotientIsUnique(width - 1, width, 0, width - 1);
    if 0 < n <= width {
      QuotientIsUnique(n + width - 1, width, 1, n - 1);
    }
  }

  /** When a device recurs only after `width` others, all rounds but the last are full. */
  lemma {:induction false} FullRounds<D(!new)>(devs: seq<D>, p: nat, width: nat)
    requires width > 0 && p <= |devs|
    requires forall i, j :: 0 <= i < j < |devs| && devs[i] == devs[j] ==> width <= j - i
    ensures |RoundLengths(devs, p, width)| == (|devs| - p + width - 1) / width
    decreases |devs| - p
  {
    if p == |devs| {
      CeilingStep(0, width);
    } else if p + width <= |devs| {
      LongestFit(devs, p, p + width, width);
      FullRounds(devs, p + width, width);
      CeilingStep(|devs| - p - width, width);
    } else {
      LongestFit(devs, p, |devs|, width);
      CeilingStep(|devs| - p, width);
    }
  }
}
