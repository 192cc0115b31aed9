/** The weights that buckets carry, however they are ordered. */
module BucketContents {
  import opened DataTypes
  import opened GreedyCut
  import opened Layout
  import opened Registration
  import opened Sequences
  import opened Transfer

  // ----- the weights in a bucket

  /** What a worker extracts from a bucket of an owner with memory `mem`. */
  ghost function BucketWeights(mem: Memory, b: H2DBucket): seq<Weight>
  {
    var payload, bytes := NamedTensors(b.items, 0), BucketBytes(mem, b);
    if PayloadFits(payload, |bytes|) then Extracted(payload, bytes) else []
  }

  /** Wherever the bucket's bytes are placed, the worker extracts the parameters stored in its slots. */
  lemma {:induction false} BucketIsExtracted(mem: Memory, b: H2DBucket, slots: seq<Slot>, buffer: seq<Byte>, start: nat)
    requires Carries(b, slots) && SlotsHold(mem, slots) && HoldsAt(buffer, start, BucketBytes(mem, b))
    ensures PayloadFits(NamedTensors(b.items, start), |buffer|)
    ensures Extracted(NamedTensors(b.items, start), buffer) == StoredWeights(mem, slots)
  {
    ExtractedIsStored(mem, slots, buffer, start);
  }

  lemma {:induction false} WeightsOfBucket(mem: Memory, b: H2DBucket, slots: seq<Slot>)
    requires Carries(b, slots) && SlotsHold(mem, slots)
    ensures BucketWeights(mem, b) == StoredWeights(mem, slots)
  {
    var bytes := BucketBytes(mem, b);
    assert bytes[0..|bytes|] == bytes;
    BucketIsExtracted(mem, b, slots, bytes, 0);
  }

  /** The weights in a list of buckets. */
  ghost function WeightsIn(mem: int -> Memory, list: seq<Owned<H2DBucket>>): seq<Weight>
  {
    if list == [] then []
    else
      var last := list[|list| - 1];
      WeightsIn(mem, list[..|list| - 1]) + BucketWeights(mem(last.owner), last.bucket)
  }

  lemma {:induction false} WeightsInSnoc(mem: int -> Memory, list: seq<Owned<H2DBucket>>, b: Owned<H2DBucket>)
    ensures WeightsIn(mem, list + [b]) == WeightsIn(mem, list) + BucketWeights(mem(b.owner), b.bucket)
  {
    assert (list + [b])[..|list|] == list;
  }

  lemma {:induction false} NoWeightsIn(mem: int -> Memory)
    ensures WeightsIn(mem, []) == []
  {
  }

  lemma {:induction false} WeightsInAppend(mem: int -> Memory, a: seq<Owned<H2DBucket>>, b: seq<Owned<H2DBucket>>)
    ensures WeightsIn(mem, a + b) == WeightsIn(mem, a) + WeightsIn(mem, b)
    decreases |b|
  {
    hide *;
    if b == [] {
      NoWeightsIn(mem);
      assert a + b == a;
    } else {
      var front, last := b[..|b| - 1], b[|b| - 1];
      WeightsInAppend(mem, a, front);
      WeightsInSnoc(mem, a + front, last);
      WeightsInSnoc(mem, front, last);
      assert b == front + [last];
      assert a + b == (a + front) + [last];
      Associate(WeightsIn(mem, a), WeightsIn(mem, front), BucketWeights(mem(last.owner), last.bucket));
    }
  }

  /** The weights do not depend on the order of the buckets. */
  lemma {:induction false} WeightsInPermute(mem: int -> Memory, a: seq<Owned<H2DBucket>>, b: seq<Owned<H2DBucket>>)
    requires multiset(a) == multiset(b)
    ensures multiset(WeightsIn(mem, a)) == multiset(WeightsIn(mem, b))
  {
    hide BucketWeights;
    if a == [] {
      PermutationOfNothing(a, b);
    } else {
      var front, x := a[..|a| - 1], a[|a| - 1];
      var i := FindLast(a, b);
      var rest := b[..i] + b[i + 1..];
      WeightsInPermute(mem, front, rest);
      TakeOut(mem, b[..i], x, b[i + 1..]);
    }
  }

  lemma {:induction false} TakeOut(mem: int -> Memory, a: seq<Owned<H2DBucket>>, x: Owned<H2DBucket>,
                                   b: seq<Owned<H2DBucket>>)
    ensures multiset(WeightsIn(mem, a + [x] + b))
         == multiset(WeightsIn(mem, a + b)) + multiset(BucketWeights(mem(x.owner), x.bucket))
  {
    hide WeightsIn, BucketWeights;
    WeightsInAppend(mem, a + [x], b);
    WeightsInSnoc(mem, a, x);
    WeightsInAppend(mem, a, b);
  }

  // ----- the weights of all owners

  lemma {:induction false} SlotsOfPieces(mem: Memory, front: seq<seq<Slot>>, last: seq<Slot>)
    requires SlotsHold(mem, Concat(front + [last]))
    ensures SlotsHold(mem, Concat(front)) && SlotsHold(mem, last)
    ensures StoredWeights(mem, Concat(front + [last])) == StoredWeights(mem, Concat(front)) + StoredWeights(mem, last)
  {
    hide SlotHolds, Concat;
    ConcatSnoc(front, last);
    var all := Concat(front + [last]);
    assert all[..|Concat(front)|] == Concat(front) && all[|Concat(front)|..] == last;
    StoredWeightsAppend(mem, Concat(front), last);
  }

  lemma {:induction false} WeightsOfPieces(mem: int -> Memory, owner: int, part: seq<H2DBucket>, pieces: seq<seq<Slot>>)
    requires |part| == |pieces| && forall j :: 0 <= j < |part| ==> Carries(part[j], pieces[j])
    requires SlotsHold(mem(owner), Concat(pieces))
    ensures WeightsIn(mem, Tag(owner, part)) == StoredWeights(mem(owner), Concat(pieces))
  {
    hide Carries, BucketWeights, StoredWeights, WeightsIn;
    if part == [] {
      NoWeights(mem, owner);
    } else {
      var n := |part| - 1;
      assert pieces == pieces[..n] + [pieces[n]];
      SlotsOfPieces(mem(owner), pieces[..n], pieces[n]);
      WeightsOfPieces(mem, owner, part[..n], pieces[..n]);
      WeightsOfBucket(mem(owner), part[n], pieces[n]);
      assert Tag(owner, part) == Tag(owner, part[..n]) + [Owned(owner, part[n])];
      WeightsInSnoc(mem, Tag(owner, part[..n]), Owned(owner, part[n]));
    }
  }

  lemma {:induction false} NoWeights(mem: int -> Memory, owner: int)
    ensures Tag(owner, []) == [] && WeightsIn(mem, []) == [] && StoredWeights(mem(owner), Concat([])) == []
  {
  }

  lemma {:induction false} WeightsOfOwner(mem: int -> Memory, o: OwnerMetas, part: seq<H2DBucket>, cap: nat,
                                          weights: seq<Weight>)
    requires Packed(part, o.buffers, cap) && HoldsWeights(mem(o.owner), o, weights)
    ensures WeightsIn(mem, Tag(o.owner, part)) == weights
  {
    hide Carries, Cut, SlotsHold;
    CutKeepsItems(OwnerSlots(o.buffers), SlotSize, cap);
    WeightsOfPieces(mem, o.owner, part, Cut(OwnerSlots(o.buffers), SlotSize, cap));
  }

  /** Every owner's pinned memory holds its registered parameters. */
  ghost predicate AllHoldWeights(mem: int -> Memory, owners: seq<OwnerMetas>, weights: seq<seq<Weight>>)
  {
    && |weights| == |owners|
    && forall k :: 0 <= k < |owners| ==> HoldsWeights(mem(owners[k].owner), owners[k], weights[k])
  }

  lemma {:induction false} WeightsOfOwners(mem: int -> Memory, owners: seq<OwnerMetas>, parts: seq<seq<H2DBucket>>,
                                           cap: nat, weights: seq<seq<Weight>>)
    requires PackedAll(parts, owners, cap) && AllHoldWeights(mem, owners, weights)
    ensures WeightsIn(mem, TagAll(owners, parts)) == Concat(weights[..|parts|])
  {
    hide Packed, HoldsWeights, WeightsIn, Concat;
    if parts == [] {
      NoOwners(mem, owners, weights);
    } else {
      var n := |parts| - 1;
      WeightsOfOwners(mem, owners, parts[..n], cap, weights);
      WeightsOfOwner(mem, owners[n], parts[n], cap, weights[n]);
      WeightsInAppend(mem, TagAll(owners, parts[..n]), Tag(owners[n].owner, parts[n]));
      assert weights[..n + 1] == weights[..n] + [weights[n]];
      ConcatSnoc(weights[..n], weights[n]);
    }
  }

  lemma {:induction false} NoOwners(mem: int -> Memory, owners: seq<OwnerMetas>, weights: seq<seq<Weight>>)
    ensures WeightsIn(mem, TagAll(owners, [])) == Concat(weights[..0])
  {
  }
}
