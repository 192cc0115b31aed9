/** What a packed owner guarantees: nothing lost, nothing doubled, as few buckets as possible. */
module LayoutFacts {
  import opened DataTypes
  import opened GreedyCut
  import opened Layout
  import opened Sequences

  // ----- the ranges tile the memory buffers

  lemma {:induction false} SlotCellsAppend(a: seq<Slot>, b: seq<Slot>)
    ensures SlotCells(a + b) == SlotCells(a) + SlotCells(b)
    decreases |b|
  {
    if b == [] {
      assert a + b == a;
    } else {
      var front, last := b[..|b| - 1], Last(b);
      SlotCellsAppend(a, front);
      SlotCellsSnoc(a + front, last);
      SlotCellsSnoc(front, last);
      Associate(a, front, [last]);
      Associate(SlotCells(a), SlotCells(front), Cells(last.idx, last.offset, SlotSize(last)));
      assert b == front + [last];
    }
  }

  lemma {:induction false} MetasOfAppend(a: seq<Slot>, b: seq<Slot>)
    ensures MetasOf(a + b) == MetasOf(a) + MetasOf(b)
  {
  }

  lemma {:induction false} NoSlotCells(idx: nat)
    ensures SlotCells(BufferSlots(idx, [])) == Cells(idx, 0, Total([], AlignedSize))
  {
  }

  lemma {:induction false} SlotOfBuffer(idx: nat, front: seq<Meta>, m: Meta)
    ensures SlotCells(BufferSlots(idx, front + [m]))
         == SlotCells(BufferSlots(idx, front)) + Cells(idx, Total(front, AlignedSize), m.alignedSize)
    ensures Total(front + [m], AlignedSize) == Total(front, AlignedSize) + m.alignedSize
  {
    hide BufferSlots, SlotCells, Cells, Total;
    BufferSlotsSnoc(idx, front, m);
    SlotCellsSnoc(BufferSlots(idx, front), Slot(idx, Total(front, AlignedSize), m));
    TotalSnoc(front, m, AlignedSize);
  }

  lemma {:induction false} BufferSlotsAreContiguous(idx: nat, metas: seq<Meta>)
    ensures SlotCells(BufferSlots(idx, metas)) == Cells(idx, 0, Total(metas, AlignedSize))
  {
    hide *;
    if metas == [] {
      NoSlotCells(idx);
    } else {
      var front, m := metas[..|metas| - 1], metas[|metas| - 1];
      assert metas == front + [m];
      BufferSlotsAreContiguous(idx, front);
      SlotOfBuffer(idx, front, m);
      CellsJoin(idx, 0, Total(front, AlignedSize), m.alignedSize);
    }
  }

  lemma {:induction false} NoSlotMetas(idx: nat)
    ensures MetasOf(BufferSlots(idx, [])) == []
  {
  }

  lemma {:induction false} BufferSlotsKeepMetas(idx: nat, metas: seq<Meta>)
    ensures MetasOf(BufferSlots(idx, metas)) == metas
  {
    hide *;
    if metas == [] {
      NoSlotMetas(idx);
    } else {
      var front, m := metas[..|metas| - 1], metas[|metas| - 1];
      BufferSlotsKeepMetas(idx, front);
      BufferSlotsSnoc(idx, front, m);
      MetasOfSnoc(BufferSlots(idx, front), Slot(idx, Total(front, AlignedSize), m));
      assert metas == front + [m];
    }
  }

  /** Every byte of every memory buffer once, in address order. */
  function OwnerCells(buffers: seq<seq<Meta>>): seq<Cell>
  {
    if buffers == [] then []
    else
      var n := |buffers| - 1;
      OwnerCells(buffers[..n]) + Cells(n, 0, Total(buffers[n], AlignedSize))
  }

  lemma {:induction false} OwnerSlotsAreContiguous(buffers: seq<seq<Meta>>)
    ensures SlotCells(OwnerSlots(buffers)) == OwnerCells(buffers)
  {
    if buffers != [] {
      var n := |buffers| - 1;
      OwnerSlotsAreContiguous(buffers[..n]);
      BufferSlotsAreContiguous(n, buffers[n]);
      SlotCellsAppend(OwnerSlots(buffers[..n]), BufferSlots(n, buffers[n]));
    }
  }

  lemma {:induction false} OwnerSlotsKeepMetas(buffers: seq<seq<Meta>>)
    ensures MetasOf(OwnerSlots(buffers)) == Concat(buffers)
  {
    if buffers != [] {
      var n := |buffers| - 1;
      OwnerSlotsKeepMetas(buffers[..n]);
      BufferSlotsKeepMetas(n, buffers[n]);
      MetasOfAppend(OwnerSlots(buffers[..n]), BufferSlots(n, buffers[n]));
      ConcatSnoc(buffers[..n], buffers[n]);
      assert buffers == buffers[..n] + [buffers[n]];
    }
  }

  /** The bytes the buckets move, bucket by bucket. */
  function BucketCells(part: seq<H2DBucket>): seq<Cell>
  {
    if part == [] then [] else BucketCells(part[..|part| - 1]) + RangeCells(Last(part).ranges)
  }

  function BucketItems(part: seq<H2DBucket>): seq<Meta>
  {
    if part == [] then [] else BucketItems(part[..|part| - 1]) + Last(part).items
  }

  lemma {:induction false} CarriedPieces(part: seq<H2DBucket>, pieces: seq<seq<Slot>>)
    requires |part| == |pieces| && forall j :: 0 <= j < |part| ==> Carries(part[j], pieces[j])
    ensures BucketCells(part) == SlotCells(Concat(pieces))
    ensures BucketItems(part) == MetasOf(Concat(pieces))
  {
    hide *;
    if part == [] {
      NothingCarried();
    } else {
      var n := |part| - 1;
      var front, last := pieces[..n], pieces[n];
      assert part == part[..n] + [part[n]];
      assert pieces == front + [last];
      CarriedPieces(part[..n], front);
      CarriedFacts(part[n], last);
      BucketsSnoc(part[..n], part[n]);
      ConcatSnoc(front, last);
      SlotCellsAppend(Concat(front), last);
      MetasOfAppend(Concat(front), last);
    }
  }

  lemma {:induction false} NothingCarried()
    ensures BucketCells([]) == SlotCells(Concat([])) && BucketItems([]) == MetasOf(Concat([]))
  {
  }

  lemma {:induction false} CarriedFacts(b: H2DBucket, slots: seq<Slot>)
    requires Carries(b, slots)
    ensures RangeCells(b.ranges) == SlotCells(slots) && b.items == MetasOf(slots)
  {
  }

  lemma {:induction false} BucketsSnoc(part: seq<H2DBucket>, b: H2DBucket)
    ensures BucketCells(part + [b]) == BucketCells(part) + RangeCells(b.ranges)
    ensures BucketItems(part + [b]) == BucketItems(part) + b.items
  {
    assert (part + [b])[..|part|] == part;
  }

  /**
   Bucket partition: the items of the buckets are the owner's metas in order, and their ranges
   name every byte of every memory buffer exactly once, in order.
   */
  lemma {:induction false} BucketsPartitionOwner(part: seq<H2DBucket>, buffers: seq<seq<Meta>>, cap: nat)
    requires Packed(part, buffers, cap)
    ensures BucketItems(part) == Concat(buffers)
    ensures BucketCells(part) == OwnerCells(buffers)
  {
    CarriedPieces(part, Cut(OwnerSlots(buffers), SlotSize, cap));
    CutKeepsItems(OwnerSlots(buffers), SlotSize, cap);
    OwnerSlotsAreContiguous(buffers);
    OwnerSlotsKeepMetas(buffers);
  }

  /** Where the items of bucket `j` are among all items. */
  lemma {:induction false} ItemsOfBucket(part: seq<H2DBucket>, j: nat) returns (from: nat, until: nat)
    requires j < |part|
    ensures from <= until <= |BucketItems(part)| && part[j].items == BucketItems(part)[from..until]
    decreases |part|
  {
    var n := |part| - 1;
    if j == n {
      from, until := |BucketItems(part[..n])|, |BucketItems(part)|;
    } else {
      from, until := ItemsOfBucket(part[..n], j);
      assert BucketItems(part)[..|BucketItems(part[..n])|] == BucketItems(part[..n]);
    }
  }

  lemma {:induction false} SlotCellsLength(slots: seq<Slot>)
    ensures |SlotCells(slots)| == Total(slots, SlotSize)
  {
    if slots != [] {
      SlotCellsLength(slots[..|slots| - 1]);
    }
  }

  function RangeTotal(ranges: seq<Range>): nat
  {
    if ranges == [] then 0 else RangeTotal(ranges[..|ranges| - 1]) + ranges[|ranges| - 1].size
  }

  lemma {:induction false} RangeCellsLength(ranges: seq<Range>)
    ensures |RangeCells(ranges)| == RangeTotal(ranges)
  {
    if ranges != [] {
      RangeCellsLength(ranges[..|ranges| - 1]);
    }
  }

  /** The range sizes of a bucket add up to its size, so the copy loop's assertions hold. */
  lemma {:induction false} RangesFillBucket(b: H2DBucket, slots: seq<Slot>)
    requires Carries(b, slots)
    ensures RangeTotal(b.ranges) == b.size == |RangeCells(b.ranges)|
  {
    SlotCellsLength(slots);
    RangeCellsLength(b.ranges);
  }

  /** When the metas fit, so does every bucket. */
  lemma {:induction false} BucketsFit(part: seq<H2DBucket>, o: OwnerMetas, cap: nat)
    requires Packed(part, o.buffers, cap) && MetasFit(o, cap)
    ensures forall b :: b in part ==> b.size <= cap
  {
    CutFits(OwnerSlots(o.buffers), SlotSize, cap);
    forall b | b in part
      ensures b.size <= cap
    {
      var j :| 0 <= j < |part| && part[j] == b;
    }
  }

  // ----- how many buckets

  /** No order-preserving split of the owner's slots into pieces within the bucket size is shorter. */
  lemma {:induction false} FewestBuckets(part: seq<H2DBucket>, buffers: seq<seq<Meta>>, cap: nat,
                                         pieces: seq<seq<Slot>>)
    requires Packed(part, buffers, cap)
    requires Concat(pieces) == OwnerSlots(buffers) && PiecesFit(pieces, SlotSize, cap) && pieces != []
    ensures |part| <= |pieces|
  {
    CutIsMinimal(OwnerSlots(buffers), SlotSize, cap, pieces);
  }

  /** At most 2 * total / cap + 1 buckets, whatever the sizes. */
  lemma {:induction false} BucketBound(part: seq<H2DBucket>, buffers: seq<seq<Meta>>, cap: nat)
    requires Packed(part, buffers, cap)
    ensures cap * (|part| - 1) <= 2 * |OwnerCells(buffers)|
  {
    CutBound(OwnerSlots(buffers), SlotSize, cap);
    OwnerSlotsAreContiguous(buffers);
    SlotCellsLength(OwnerSlots(buffers));
  }

  // ----- where an item sits in its bucket

  /** The k-th item's bytes start at the prefix sum of the earlier aligned sizes. */
  lemma {:induction false} ItemPosition(slots: seq<Slot>, k: nat)
    requires k < |slots|
    ensures var at := Total(slots[..k], SlotSize);
            && at + SlotSize(slots[k]) <= |SlotCells(slots)|
            && SlotCells(slots)[at..at + SlotSize(slots[k])] == Cells(slots[k].idx, slots[k].offset, SlotSize(slots[k]))
  {
    hide SlotCells, Cells;
    var before, s, after := slots[..k], slots[k], slots[k + 1..];
    SlotCellsLength(before);
    SlotCellsSnoc(before, s);
    SlotCellsAppend(before + [s], after);
    assert slots == (before + [s]) + after;
    var mine := Cells(s.idx, s.offset, SlotSize(s));
    assert SlotCells(slots)[|SlotCells(before)|..] == mine + SlotCells(after);
    SliceOfSuffix(SlotCells(slots), |SlotCells(before)|, mine, SlotCells(after));
  }

  lemma {:induction false} TotalOfMetas(slots: seq<Slot>)
    ensures Total(MetasOf(slots), AlignedSize) == Total(slots, SlotSize)
  {
    if slots != [] {
      var front, last := slots[..|slots| - 1], slots[|slots| - 1];
      TotalOfMetas(front);
      assert MetasOf(slots)[..|front|] == MetasOf(front);
    }
  }

  /** The aligned sizes of a bucket's items add up to its size. */
  lemma {:induction false} ItemsFillBucket(b: H2DBucket, slots: seq<Slot>)
    requires Carries(b, slots)
    ensures Total(b.items, AlignedSize) == b.size
  {
    TotalOfMetas(slots);
  }
}
