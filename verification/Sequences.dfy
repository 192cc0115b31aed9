/** Facts about finite sequences that several models share. */
module Sequences {
  /** The concatenation of a list of lists. */
  function Concat<T>(ss: seq<seq<T>>): seq<T>
  {
    if ss == [] then [] else ss[0] + Concat(ss[1..])
  }

  lemma {:induction false} ConcatAppend<T>(a: seq<seq<T>>, b: seq<seq<T>>)
    ensures Concat(a + b) == Concat(a) + Concat(b)
  {
    if a == [] {
      assert a + b == b;
    } else {
      assert (a + b)[1..] == a[1..] + b;
      ConcatAppend(a[1..], b);
    }
  }

  lemma {:induction false} ConcatSnoc<T>(a: seq<seq<T>>, x: seq<T>)
    ensures Concat(a + [x]) == Concat(a) + x
  {
    ConcatAppend(a, [x]);
    assert [x][1..] == [];
  }

  lemma {:induction false} Associate<T>(a: seq<T>, b: seq<T>, c: seq<T>)
    ensures (a + b) + c == a + (b + c)
  {
  }

  lemma {:induction false} SliceOfSuffix<T>(s: seq<T>, at: nat, a: seq<T>, b: seq<T>)
    requires at <= |s| && s[at..] == a + b
    ensures at + |a| <= |s| && s[at..at + |a|] == a
  {
    assert s[at..at + |a|] == s[at..][..|a|];
  }

  /** The entries of `s` filed under key `k`, in order: what a Python dictionary of lists holds at `k`. */
  function Where<T, K(==)>(s: seq<T>, key: T -> K, k: K): seq<T>
  {
    if s == [] then []
    else (if key(s[0]) == k then [s[0]] else []) + Where(s[1..], key, k)
  }

  lemma {:induction false} WhereAppend<T, K>(a: seq<T>, b: seq<T>, key: T -> K, k: K)
    ensures Where(a + b, key, k) == Where(a, key, k) + Where(b, key, k)
  {
    if a == [] {
      assert a + b == b;
    } else {
      var head := if key(a[0]) == k then [a[0]] else [];
      var tail, other := Where(a[1..], key, k), Where(b, key, k);
      WhereAppend(a[1..], b, key, k);
      assert (a + b)[0] == a[0] && (a + b)[1..] == a[1..] + b;
      assert head + (tail + other) == (head + tail) + other;
    }
  }

  lemma {:induction false} WhereSnoc<T, K>(a: seq<T>, x: T, key: T -> K, k: K)
    ensures Where(a + [x], key, k) == Where(a, key, k) + (if key(x) == k then [x] else [])
  {
    WhereAppend(a, [x], key, k);
    assert [x][1..] == [];
  }

  lemma {:induction false} WhereOnlyKey<T, K>(s: seq<T>, key: T -> K, k: K)
    ensures forall x :: x in Where(s, key, k) <==> x in s && key(x) == k
  {
    if s != [] {
      WhereOnlyKey(s[1..], key, k);
    }
  }

  lemma {:induction false} KeyOfGrouped<T, K>(s: seq<T>, key: T -> K, k: K, i: nat)
    requires i < |Where(s, key, k)|
    ensures key(Where(s, key, k)[i]) == k
  {
    if key(s[0]) != k {
      KeyOfGrouped(s[1..], key, k, i);
    } else if i > 0 {
      KeyOfGrouped(s[1..], key, k, i - 1);
    }
  }

  lemma {:induction false} EmptyGroup<T, K>(s: seq<T>, key: T -> K, k: K)
    requires forall x :: x in s ==> key(x) != k
    ensures Where(s, key, k) == []
  {
    if s != [] {
      EmptyGroup(s[1..], key, k);
    }
  }

  lemma {:induction false} CountInGroup<T, K>(s: seq<T>, key: T -> K, x: T)
    ensures multiset(s)[x] == multiset(Where(s, key, key(x)))[x]
  {
    if s != [] {
      CountInGroup(s[1..], key, x);
      assert s == [s[0]] + s[1..];
      var rest := Where(s[1..], key, key(x));
      assert multiset([s[0]] + rest) == multiset([s[0]]) + multiset(rest);
    }
  }

  /** Two lists that agree group by group are permutations of each other. */
  lemma {:induction false} SameGroupsSamePermutation<T, K(!new)>(a: seq<T>, b: seq<T>, key: T -> K)
    requires forall k :: Where(a, key, k) == Where(b, key, k)
    ensures multiset(a) == multiset(b)
  {
    forall x
      ensures multiset(a)[x] == multiset(b)[x]
    {
      CountInGroup(a, key, x);
      CountInGroup(b, key, x);
    }
  }

  /** The keys of `s` in the order of their first appearance: the iteration order of a Python dictionary. */
  function FirstSeen<T, K(==)>(s: seq<T>, key: T -> K): seq<K>
  {
    if s == [] then []
    else
      var before := FirstSeen(s[..|s| - 1], key);
      var k := key(s[|s| - 1]);
      if k in before then before else before + [k]
  }

  lemma {:induction false} FirstSeenSnoc<T, K>(s: seq<T>, x: T, key: T -> K)
    ensures FirstSeen(s + [x], key)
         == var before := FirstSeen(s, key); if key(x) in before then before else before + [key(x)]
  {
    assert (s + [x])[..|s|] == s;
  }

  ghost predicate AllDistinct<T>(s: seq<T>)
  {
    forall i, j :: 0 <= i < j < |s| ==> s[i] != s[j]
  }

  lemma {:induction false} FirstSeenKeys<T, K>(s: seq<T>, key: T -> K)
    ensures AllDistinct(FirstSeen(s, key))
    ensures forall i :: 0 <= i < |s| ==> key(s[i]) in FirstSeen(s, key)
    ensures forall k :: k in FirstSeen(s, key) ==> exists i :: 0 <= i < |s| && key(s[i]) == k
  {
    if s != [] {
      var n := |s| - 1;
      FirstSeenKeys(s[..n], key);
      forall i | 0 <= i < |s|
        ensures key(s[i]) in FirstSeen(s, key)
      {
        if i < n {
          assert s[i] == s[..n][i];
        }
      }
      forall k | k in FirstSeen(s, key)
        ensures exists i :: 0 <= i < |s| && key(s[i]) == k
      {
        if k in FirstSeen(s[..n], key) {
          var i :| 0 <= i < |s[..n]| && key(s[..n][i]) == k;
          assert key(s[i]) == k;
        } else {
          assert key(s[n]) == k;
        }
      }
    }
  }

  /** Keys are listed in the order of their first appearance: `p` comes before every entry with a later key. */
  lemma {:induction false} FirstSeenInOrder<T, K>(s: seq<T>, key: T -> K, i: nat, j: nat) returns (p: nat)
    requires i < j < |FirstSeen(s, key)|
    ensures p < |s| && key(s[p]) == FirstSeen(s, key)[i]
    ensures forall q :: 0 <= q <= p ==> key(s[q]) != FirstSeen(s, key)[j]
  {
    var front, x := s[..|s| - 1], s[|s| - 1];
    var before := FirstSeen(front, key);
    if j < |before| {
      p := FirstSeenInOrder(front, key, i, j);
      assert forall q :: 0 <= q <= p ==> front[q] == s[q];
    } else {
      FirstSeenKeys(front, key);
      assert before[i] in before;
      p :| 0 <= p < |front| && key(front[p]) == before[i];
      assert forall q :: 0 <= q <= p ==> key(front[q]) in before && front[q] == s[q];
    }
  }

  /** A dictionary of lists after filing the entries of `done`, with its keys in insertion order. */
  ghost predicate Filed<T, K(!new)>(done: seq<T>, key: T -> K, order: seq<K>, groups: map<K, seq<T>>)
  {
    && order == FirstSeen(done, key)
    && (forall k :: k in groups <==> k in order)
    && (forall k :: k in groups ==> groups[k] == Where(done, key, k))
  }

  lemma {:induction false} FileOne<T, K(!new)>(done: seq<T>, x: T, key: T -> K, order: seq<K>, groups: map<K, seq<T>>)
    requires Filed(done, key, order, groups)
    ensures key(x) in groups ==> Filed(done + [x], key, order, groups[key(x) := groups[key(x)] + [x]])
    ensures key(x) !in groups ==> Filed(done + [x], key, order + [key(x)], groups[key(x) := [x]])
  {
    FirstSeenSnoc(done, x, key);
    forall k
      ensures Where(done + [x], key, k) == Where(done, key, k) + (if key(x) == k then [x] else [])
      ensures k !in order ==> Where(done, key, k) == []
    {
      WhereSnoc(done, x, key, k);
      if k !in order {
        UnseenGroup(done, key, k);
      }
    }
  }

  lemma {:induction false} UnseenGroup<T, K>(s: seq<T>, key: T -> K, k: K)
    requires k !in FirstSeen(s, key)
    ensures Where(s, key, k) == []
  {
    FirstSeenKeys(s, key);
    EmptyGroup(s, key, k);
  }

  lemma {:induction false} FirstSeenNothingNew<T, K>(a: seq<T>, b: seq<T>, key: T -> K)
    requires forall x :: x in b ==> key(x) in FirstSeen(a, key)
    ensures FirstSeen(a + b, key) == FirstSeen(a, key)
    decreases |b|
  {
    if b == [] {
      assert a + b == a;
    } else {
      var front, last := b[..|b| - 1], b[|b| - 1];
      FirstSeenNothingNew(a, front, key);
      assert last in b && a + b == (a + front) + [last];
      FirstSeenSnoc(a + front, last, key);
    }
  }

  /** A permutation of a list has the list's last entry somewhere, and without it is one of the rest. */
  lemma {:induction false} FindLast<T>(a: seq<T>, b: seq<T>) returns (i: nat)
    requires a != [] && multiset(a) == multiset(b)
    ensures i < |b| && b[i] == a[|a| - 1] && b == b[..i] + [b[i]] + b[i + 1..]
    ensures multiset(a[..|a| - 1]) == multiset(b[..i] + b[i + 1..])
  {
    var x := a[|a| - 1];
    assert a == a[..|a| - 1] + [x];
    assert x in multiset(a);
    i :| 0 <= i < |b| && b[i] == x;
    assert b == b[..i] + [x] + b[i + 1..];
    var rest := b[..i] + b[i + 1..];
    assert multiset(rest) == multiset(b[..i]) + multiset(b[i + 1..]) == multiset(b) - multiset{x};
    assert multiset(a[..|a| - 1]) == multiset(a) - multiset{x};
  }

  lemma {:induction false} PermutationOfNothing<T>(a: seq<T>, b: seq<T>)
    requires a == [] && multiset(a) == multiset(b)
    ensures b == []
  {
    assert |b| == |multiset(b)| == |multiset(a)|;
  }
}
