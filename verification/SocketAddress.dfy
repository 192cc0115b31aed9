/** The counters behind the socket addresses: agreement in an update, freshness across updates. */
module SocketAddress {
  import opened Naming
  import opened Sequences

  /** Rank `rank` has bound its address with number `counter`. */
  datatype Binding = Binding(rank: nat, counter: nat)

  function MaxCounter(counters: seq<nat>, group: seq<nat>): (c: nat)
    requires forall i :: 0 <= i < |group| ==> group[i] < |counters|
    ensures forall i :: 0 <= i < |group| ==> counters[group[i]] <= c
  {
    if group == [] then 0
    else
      var before := MaxCounter(counters, group[..|group| - 1]);
      var last := counters[group[|group| - 1]];
      if before < last then last else before
  }

  /** Some rank of the group has that counter. */
  lemma {:induction false} MaxIsAttained(counters: seq<nat>, group: seq<nat>) returns (i: nat)
    requires group != [] && forall i :: 0 <= i < |group| ==> group[i] < |counters|
    ensures i < |group| && counters[group[i]] == MaxCounter(counters, group)
  {
    var n := |group| - 1;
    if n > 0 && MaxCounter(counters, group[..n]) == MaxCounter(counters, group) {
      i := MaxIsAttained(counters, group[..n]);
    } else {
      i := n;
    }
  }

  /** The bindings of one update. */
  function Bindings(group: seq<nat>, c: nat): (out: seq<Binding>)
    ensures |out| == |group| && forall i :: 0 <= i < |group| ==> out[i] == Binding(group[i], c)
  {
    seq(|group|, i requires 0 <= i < |group| => Binding(group[i], c))
  }

  /** All parameter servers' address counters, and every address bound so far. */
  class Addressing {
    const uuids: seq<string>
    var counters: array<nat>
    ghost var bound: seq<Binding>

    ghost predicate Valid()
      reads this, counters
    {
      && AllDistinct(uuids) && counters.Length == |uuids| && AllDistinct(bound)
      && forall i :: 0 <= i < |bound| ==> bound[i].rank < |uuids| && bound[i].counter < counters[bound[i].rank]
    }

    constructor (uuids: seq<string>)
      requires AllDistinct(uuids)
      ensures Valid() && fresh(counters) && this.uuids == uuids && bound == []
      ensures forall r :: 0 <= r < counters.Length ==> counters[r] == 0
    {
      this.uuids := uuids;
      counters := new nat[|uuids|](_ => 0);
      bound := [];
    }

    /** The path that a participant whose counter is `c` computes for rank `r`. */
    function PathFor(r: nat, c: nat): string
      requires r < |uuids|
    {
      SocketPath(uuids[r], c)
    }

    ghost predicate IsGroup(group: seq<nat>)
    {
      AllDistinct(group) && group != [] && forall i :: 0 <= i < |group| ==> group[i] < |uuids|
    }

    /**
     One update by the ranks in `group`: reduce the counters to their maximum, bind, count up.
     `computed[i][r]` is the path that participant `group[i]` hands out for rank `r`.
     */
    method Update(group: seq<nat>) returns (computed: seq<seq<string>>)
      requires Valid() && IsGroup(group)
      modifies this`bound, counters
      ensures Valid() && counters == old(counters)
      ensures bound == old(bound) + Bindings(group, MaxCounter(old(counters[..]), group))
      ensures forall r :: 0 <= r < counters.Length ==>
        counters[r] == if r in group then MaxCounter(old(counters[..]), group) + 1 else old(counters[r])
      ensures |computed| == |group| && forall i :: 0 <= i < |group| ==> |computed[i]| == |uuids|
      ensures forall i, r :: 0 <= i < |group| && 0 <= r < |uuids| ==>
        computed[i][r] == PathFor(r, MaxCounter(old(counters[..]), group))
    {
      ghost var before := counters[..];
      var c := Reduce(group);
      computed := [];
      ghost var olds := bound;
      for i := 0 to |group|
        invariant |computed| == i && forall j :: 0 <= j < i ==> computed[j] == Paths(c)
        invariant forall r :: 0 <= r < counters.Length ==> counters[r] == if r in group[..i] then c + 1 else before[r]
        invariant bound == olds + Bindings(group[..i], c)
      {
        assert group[..i + 1] == group[..i] + [group[i]];
        computed := computed + [Paths(c)];
        counters[group[i]] := c + 1;
        assert Bindings(group[..i + 1], c) == Bindings(group[..i], c) + [Binding(group[i], c)];
        bound := bound + [Binding(group[i], c)];
      }
      assert group[..|group|] == group;
      NewBindingsAreFresh(olds, before, group, c);
    }

    /** The paths of all ranks as a participant computes them. */
    function Paths(c: nat): (paths: seq<string>)
      ensures |paths| == |uuids| && forall r :: 0 <= r < |uuids| ==> paths[r] == PathFor(r, c)
    {
      seq(|uuids|, r requires 0 <= r < |uuids| => PathFor(r, c))
    }

    /** The all-reduce over the group, MIN over the negated counters. */
    method Reduce(group: seq<nat>) returns (c: nat)
      requires counters.Length == |uuids| && IsGroup(group)
      ensures c == MaxCounter(counters[..], group)
    {
      var least: int := 0;
      for i := 0 to |group|
        invariant -least == MaxCounter(counters[..], group[..i])
      {
        assert group[..i + 1][..i] == group[..i];
        least := if -counters[group[i]] < least then -counters[group[i]] else least;
      }
      assert group[..|group|] == group;
      c := -least;
    }

    /** No two bindings, of whatever updates and ranks, have the same path. */
    lemma {:induction false} NeverBoundTwice(i: nat, j: nat)
      requires Valid() && i < j < |bound|
      ensures PathFor(bound[i].rank, bound[i].counter) != PathFor(bound[j].rank, bound[j].counter)
    {
      var a, b := bound[i], bound[j];
      if PathFor(a.rank, a.counter) == PathFor(b.rank, b.counter) {
        SocketPathIsInjective(uuids[a.rank], a.counter, uuids[b.rank], b.counter);
      }
    }
  }

  lemma {:induction false} NewBindingsAreFresh(olds: seq<Binding>, counters: seq<nat>, group: seq<nat>, c: nat)
    requires AllDistinct(olds) && AllDistinct(group)
    requires forall i :: 0 <= i < |olds| ==> olds[i].rank < |counters| && olds[i].counter < counters[olds[i].rank]
    requires forall i :: 0 <= i < |group| ==> group[i] < |counters|
    requires c == MaxCounter(counters, group)
    ensures AllDistinct(olds + Bindings(group, c))
  {
    var all := olds + Bindings(group, c);
    forall i, j | 0 <= i < j < |all|
      ensures all[i] != all[j]
    {
      if i < |olds| <= j {
        assert all[j] == Binding(group[j - |olds|], c);
        assert counters[group[j - |olds|]] <= c;
      } else if |olds| <= i {
        assert group[i - |olds|] != group[j - |olds|];
      }
    }
  }
}
