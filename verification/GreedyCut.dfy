/**
 The packing rule shared by pinned buffers and transfer buckets: put an item into the last
 piece, unless that would exceed the capacity; then start a new piece with it.
 */
module GreedyCut {
  import opened Sequences

  function Total<T>(s: seq<T>, size: T -> nat): nat
  {
    if s == [] then 0 else Total(s[..|s| - 1], size) + size(s[|s| - 1])
  }

  lemma {:induction false} TotalSnoc<T>(s: seq<T>, x: T, size: T -> nat)
    ensures Total(s + [x], size) == Total(s, size) + size(x)
  {
    assert (s + [x])[..|s|] == s;
  }

  lemma {:induction false} TotalAppend<T>(a: seq<T>, b: seq<T>, size: T -> nat)
    ensures Total(a + b, size) == Total(a, size) + Total(b, size)
    decreases |b|
  {
    if b == [] {
      assert a + b == a;
    } else {
      var front, last := b[..|b| - 1], b[|b| - 1];
      TotalAppend(a, front, size);
      TotalSnoc(a + front, last, size);
      assert a + b == (a + front) + [last];
    }
  }

  function Last<T>(s: seq<T>): T
    requires s != []
  {
    s[|s| - 1]
  }

  /** One step of the packing loop. */
  function Add<T>(pieces: seq<seq<T>>, x: T, size: T -> nat, cap: nat): (more: seq<seq<T>>)
    requires pieces != []
    ensures |pieces| <= |more|
  {
    if Total(Last(pieces), size) + size(x) > cap then pieces + [[x]]
    else pieces[..|pieces| - 1] + [Last(pieces) + [x]]
  }

  function Cut<T>(items: seq<T>, size: T -> nat, cap: nat): (pieces: seq<seq<T>>)
    ensures pieces != []
  {
    if items == [] then [[]]
    else Add(Cut(items[..|items| - 1], size, cap), items[|items| - 1], size, cap)
  }

  lemma {:induction false} CutSnoc<T>(items: seq<T>, x: T, size: T -> nat, cap: nat)
    ensures Cut(items + [x], size, cap) == Add(Cut(items, size, cap), x, size, cap)
  {
    assert (items + [x])[..|items|] == items;
  }

  lemma {:induction false} AddFacts<T>(pieces: seq<seq<T>>, x: T, size: T -> nat, cap: nat)
    requires pieces != []
    ensures var more, last := Add(pieces, x, size, cap), Total(Last(pieces), size);
            if last + size(x) > cap
            then |more| == |pieces| + 1 && Total(Last(more), size) == size(x) && more[0] == pieces[0]
            else |more| == |pieces| && Total(Last(more), size) == last + size(x)
                 && (|pieces| > 1 ==> more[0] == pieces[0])
  {
    TotalSnoc([], x, size);
    TotalSnoc(Last(pieces), x, size);
    assert [] + [x] == [x];
  }

  // ----- what the rule guarantees

  lemma {:induction false} AddKeepsItems<T>(pieces: seq<seq<T>>, x: T, size: T -> nat, cap: nat)
    requires pieces != []
    ensures Concat(Add(pieces, x, size, cap)) == Concat(pieces) + [x]
  {
    var front, last := pieces[..|pieces| - 1], Last(pieces);
    assert pieces == front + [last];
    ConcatSnoc(front, last);
    ConcatSnoc(front, last + [x]);
    ConcatSnoc(pieces, [x]);
    assert Concat(front) + (last + [x]) == (Concat(front) + last) + [x];
  }

  lemma {:induction false} NothingCut<T>(size: T -> nat, cap: nat)
    ensures Concat(Cut<T>([], size, cap)) == []
  {
    assert Cut<T>([], size, cap)[1..] == [];
  }

  /** Nothing is lost, duplicated or reordered. */
  lemma {:induction false} CutKeepsItems<T>(items: seq<T>, size: T -> nat, cap: nat)
    ensures Concat(Cut(items, size, cap)) == items
  {
    hide *;
    if items == [] {
      NothingCut(size, cap);
    } else {
      var front, x := items[..|items| - 1], items[|items| - 1];
      assert items == front + [x];
      CutKeepsItems(front, size, cap);
      AddKeepsItems(Cut(front, size, cap), x, size, cap);
      CutSnoc(front, x, size, cap);
    }
  }

  ghost predicate SizesFit<T>(items: seq<T>, size: T -> nat, cap: nat)
  {
    forall i :: 0 <= i < |items| ==> size(items[i]) <= cap
  }

  ghost predicate PiecesFit<T>(pieces: seq<seq<T>>, size: T -> nat, cap: nat)
  {
    forall j :: 0 <= j < |pieces| ==> Total(pieces[j], size) <= cap
  }

  lemma {:induction false} AddFits<T>(pieces: seq<seq<T>>, x: T, size: T -> nat, cap: nat)
    requires pieces != [] && PiecesFit(pieces, size, cap) && size(x) <= cap
    ensures PiecesFit(Add(pieces, x, size, cap), size, cap)
  {
    TotalSnoc([], x, size);
    TotalSnoc(Last(pieces), x, size);
    assert [] + [x] == [x];
  }

  lemma {:induction false} CutFits<T>(items: seq<T>, size: T -> nat, cap: nat)
    requires SizesFit(items, size, cap)
    ensures PiecesFit(Cut(items, size, cap), size, cap)
  {
    if items != [] {
      CutFits(items[..|items| - 1], size, cap);
      AddFits(Cut(items[..|items| - 1], size, cap), items[|items| - 1], size, cap);
    }
  }

  /** The last piece is empty exactly when there is nothing to pack. */
  lemma {:induction false} LastPieceIsUsed<T>(items: seq<T>, size: T -> nat, cap: nat)
    requires SizesFit(items, size, cap)
    ensures Total(Last(Cut(items, size, cap)), size) > 0 <==> Total(items, size) > 0
  {
    if items != [] {
      var front, x := items[..|items| - 1], items[|items| - 1];
      LastPieceIsUsed(front, size, cap);
      CutFits(front, size, cap);
      AddFacts(Cut(front, size, cap), x, size, cap);
    }
  }

  lemma {:induction false} OneMorePiece(cap: nat, n: nat, first: nat, last: nat, x: nat, total: nat)
    requires n > 0 && cap * (n - 1) + first + last <= 2 * total && last + x > cap
    ensures cap * n + first + x <= 2 * (total + x)
  {
    assert cap * n == cap * (n - 1) + cap;
  }

  /** Two neighbouring pieces exceed the capacity, so there are at most 2 * total / cap + 1. */
  lemma {:induction false} CutBound<T>(items: seq<T>, size: T -> nat, cap: nat)
    ensures var pieces := Cut(items, size, cap);
            cap * (|pieces| - 1) + Total(pieces[0], size) + Total(Last(pieces), size) <= 2 * Total(items, size)
  {
    if items != [] {
      var front, x := items[..|items| - 1], items[|items| - 1];
      var pieces := Cut(front, size, cap);
      CutBound(front, size, cap);
      AddFacts(pieces, x, size, cap);
      if Total(Last(pieces), size) + size(x) > cap {
        OneMorePiece(cap, |pieces|, Total(pieces[0], size), Total(Last(pieces), size), size(x), Total(front, size));
      }
    }
  }

  /** Adding the same item keeps the greedy split no worse than another one. */
  lemma {:induction false} AddStaysAhead<T>(pieces: seq<seq<T>>, x: T, size: T -> nat, cap: nat, n: nat, last: nat)
    requires pieces != [] && |pieces| <= n && (|pieces| == n ==> Total(Last(pieces), size) <= last)
    requires last + size(x) <= cap
    ensures var more := Add(pieces, x, size, cap);
            |more| <= n && (|more| == n ==> Total(Last(more), size) <= last + size(x))
  {
    AddFacts(pieces, x, size, cap);
  }

  /** No order-preserving split into pieces within the capacity has fewer pieces. */
  lemma {:induction false} CutIsMinimal<T>(items: seq<T>, size: T -> nat, cap: nat, pieces: seq<seq<T>>)
    requires pieces != [] && Concat(pieces) == items && PiecesFit(pieces, size, cap)
    ensures |Cut(items, size, cap)| <= |pieces|
    ensures |Cut(items, size, cap)| == |pieces| ==> Total(Last(Cut(items, size, cap)), size) <= Total(Last(pieces), size)
    decreases |items|, |pieces|
  {
    var front, last := pieces[..|pieces| - 1], Last(pieces);
    assert pieces == front + [last];
    ConcatSnoc(front, last);
    if items == [] {
    } else if last == [] {
      assert Concat(front) == items;
      CutIsMinimal(items, size, cap, front);
    } else {
      var x, rest := Last(last), last[..|last| - 1];
      var shorter := front + [rest];
      assert last == rest + [x];
      ConcatSnoc(front, rest);
      assert items == Concat(shorter) + [x];
      TotalSnoc(rest, x, size);
      CutIsMinimal(Concat(shorter), size, cap, shorter);
      CutSnoc(Concat(shorter), x, size, cap);
      AddStaysAhead(Cut(Concat(shorter), size, cap), x, size, cap, |pieces|, Total(rest, size));
    }
  }

  // ----- the rule said without its loop

  /** Piece `j` begins with an item that did not fit into the piece before it. */
  ghost predicate BeginsWhenFull<T>(pieces: seq<seq<T>>, size: T -> nat, cap: nat, j: nat)
    requires 0 < j < |pieces|
  {
    pieces[j] != [] && Total(pieces[j - 1], size) + size(pieces[j][0]) > cap
  }

  /** Item `k` of the piece fitted on top of the earlier ones. */
  ghost predicate Fitted<T>(piece: seq<T>, size: T -> nat, cap: nat, k: nat)
    requires k < |piece|
  {
    Total(piece[..k], size) + size(piece[k]) <= cap
  }

  /** A new piece is begun exactly when the next item does not fit. */
  ghost predicate Greedy<T>(pieces: seq<seq<T>>, size: T -> nat, cap: nat)
  {
    && pieces != []
    && (forall j :: 0 < j < |pieces| ==> BeginsWhenFull(pieces, size, cap, j))
    && (forall j, k :: 0 <= j < |pieces| && 0 <= k < |pieces[j]| && (j == 0 || k > 0) ==>
          Fitted(pieces[j], size, cap, k))
  }

  lemma {:induction false} AddIsGreedy<T>(pieces: seq<seq<T>>, x: T, size: T -> nat, cap: nat)
    requires Greedy(pieces, size, cap)
    ensures Greedy(Add(pieces, x, size, cap), size, cap)
  {
    var more, last := Add(pieces, x, size, cap), Last(pieces);
    forall j | 0 < j < |more|
      ensures BeginsWhenFull(more, size, cap, j)
    {
      if j < |pieces| {
        assert BeginsWhenFull(pieces, size, cap, j);
      }
    }
    forall j, k | 0 <= j < |more| && 0 <= k < |more[j]| && (j == 0 || k > 0)
      ensures Fitted(more[j], size, cap, k)
    {
      if j < |pieces| && k < |pieces[j]| {
        assert Fitted(pieces[j], size, cap, k);
        assert more[j][..k] == pieces[j][..k];
      } else {
        assert (last + [x])[..|last|] == last;
      }
    }
  }

  lemma {:induction false} CutIsGreedy<T>(items: seq<T>, size: T -> nat, cap: nat)
    ensures Greedy(Cut(items, size, cap), size, cap)
  {
    hide Greedy, Add;
    if items == [] {
      NothingIsGreedy(size, cap);
    } else {
      CutIsGreedy(items[..|items| - 1], size, cap);
      AddIsGreedy(Cut(items[..|items| - 1], size, cap), items[|items| - 1], size, cap);
    }
  }

  lemma {:induction false} NothingIsGreedy<T>(size: T -> nat, cap: nat)
    ensures Greedy<T>([[]], size, cap)
  {
  }

  /** Taking the last item out of a greedy split leaves one, and putting it back is a step of the rule. */
  lemma {:induction false} TakeLast<T>(pieces: seq<seq<T>>, size: T -> nat, cap: nat)
    returns (fewer: seq<seq<T>>, x: T)
    requires Greedy(pieces, size, cap) && pieces != [[]]
    ensures Greedy(fewer, size, cap) && Add(fewer, x, size, cap) == pieces
  {
    var n := |pieces| - 1;
    var last := pieces[n];
    assert n > 0 ==> BeginsWhenFull(pieces, size, cap, n);
    x := Last(last);
    var rest := last[..|last| - 1];
    assert last == rest + [x];
    if n > 0 && |last| == 1 {
      fewer := pieces[..n];
      assert last == [x];
    } else {
      fewer := pieces[..n] + [rest];
      assert Fitted(last, size, cap, |rest|);
    }
    forall j | 0 < j < |fewer|
      ensures BeginsWhenFull(fewer, size, cap, j)
    {
      assert BeginsWhenFull(pieces, size, cap, j);
    }
    forall j, k | 0 <= j < |fewer| && 0 <= k < |fewer[j]| && (j == 0 || k > 0)
      ensures Fitted(fewer[j], size, cap, k)
    {
      assert Fitted(pieces[j], size, cap, k);
      assert fewer[j][..k] == pieces[j][..k];
    }
  }

  lemma {:induction false} GreedyIsCut<T>(pieces: seq<seq<T>>, size: T -> nat, cap: nat)
    requires Greedy(pieces, size, cap)
    ensures pieces == Cut(Concat(pieces), size, cap)
    decreases |Concat(pieces)|
  {
    hide Greedy, Add, Cut;
    if pieces == [[]] {
      NothingToCut<T>(size, cap);
    } else {
      var fewer, x := TakeLast(pieces, size, cap);
      GreedyIsSome(fewer, size, cap);
      AddKeepsItems(fewer, x, size, cap);
      GreedyIsCut(fewer, size, cap);
      CutSnoc(Concat(fewer), x, size, cap);
    }
  }

  lemma {:induction false} GreedyIsSome<T>(pieces: seq<seq<T>>, size: T -> nat, cap: nat)
    requires Greedy(pieces, size, cap)
    ensures pieces != []
  {
  }

  lemma {:induction false} NothingToCut<T>(size: T -> nat, cap: nat)
    ensures Concat<T>([[]]) == [] && Cut<T>([], size, cap) == [[]]
  {
    assert Concat<T>([[]]) == [] + Concat<T>([]);
  }

  /** The rule yields the one split that begins a new piece exactly when the next item does not fit. */
  lemma {:induction false} CutIsTheGreedySplit<T>(items: seq<T>, size: T -> nat, cap: nat, pieces: seq<seq<T>>)
    ensures pieces == Cut(items, size, cap) <==> Greedy(pieces, size, cap) && Concat(pieces) == items
  {
    hide Greedy, Cut;
    CutIsGreedy(items, size, cap);
    CutKeepsItems(items, size, cap);
    if Greedy(pieces, size, cap) && Concat(pieces) == items {
      GreedyIsCut(pieces, size, cap);
    }
  }

  lemma {:induction false} FirstWithinTotal<T>(s: seq<T>, size: T -> nat)
    requires s != []
    ensures size(s[0]) <= Total(s, size)
  {
    if |s| == 1 {
      assert s[..0] == [];
    } else {
      FirstWithinTotal(s[..|s| - 1], size);
    }
  }

  /** Two neighbouring pieces do not fit into one. */
  lemma {:induction false} NeighboursExceed<T>(items: seq<T>, size: T -> nat, cap: nat, j: nat)
    requires j + 1 < |Cut(items, size, cap)|
    ensures Total(Cut(items, size, cap)[j], size) + Total(Cut(items, size, cap)[j + 1], size) > cap
  {
    hide Cut;
    CutIsGreedy(items, size, cap);
    assert BeginsWhenFull(Cut(items, size, cap), size, cap, j + 1);
    FirstWithinTotal(Cut(items, size, cap)[j + 1], size);
  }
}
