/** Cutting an owner's pinned buffers into transfer buckets. */
module Layout {
  import opened DataTypes
  import opened GreedyCut
  import opened Sequences

  function Numel(shape: seq<nat>): nat
  {
    if shape == [] then 1 else shape[0] * Numel(shape[1..])
  }

  /** The number of elements is the product of the dimensions. */
  lemma {:induction false} NumelOfProduct(a: seq<nat>, b: seq<nat>)
    ensures Numel(a + b) == Numel(a) * Numel(b)
  {
    if a == [] {
      assert a + b == b;
    } else {
      NumelOfProduct(a[1..], b);
      assert (a + b)[1..] == a[1..] + b;
      assert a[0] * (Numel(a[1..]) * Numel(b)) == (a[0] * Numel(a[1..])) * Numel(b);
    }
  }

  lemma {:induction false} NumelOfOne(n: nat)
    ensures Numel([n]) == n
  {
    assert [n][1..] == [];
  }

  function NBytes(m: Meta): nat
  {
    m.itemsize * Numel(m.shape)
  }

  function AlignedSize(m: Meta): nat
  {
    m.alignedSize
  }

  // ----- where each parameter lives

  /** The place of a parameter: memory buffer and byte offset. */
  datatype Slot = Slot(idx: nat, offset: nat, meta: Meta)

  function SlotSize(s: Slot): nat
  {
    s.meta.alignedSize
  }

  /** The slots of memory buffer `idx`: each starts where the previous ones end. */
  function BufferSlots(idx: nat, metas: seq<Meta>): (slots: seq<Slot>)
    ensures |slots| == |metas|
  {
    if metas == [] then []
    else
      var front := metas[..|metas| - 1];
      BufferSlots(idx, front) + [Slot(idx, Total(front, AlignedSize), metas[|metas| - 1])]
  }

  /** All slots of an owner, buffer by buffer. */
  function OwnerSlots(buffers: seq<seq<Meta>>): seq<Slot>
  {
    if buffers == [] then []
    else
      OwnerSlots(buffers[..|buffers| - 1]) + BufferSlots(|buffers| - 1, buffers[|buffers| - 1])
  }

  /** The metas of the given slots. */
  function MetasOf(slots: seq<Slot>): (metas: seq<Meta>)
    ensures |metas| == |slots|
    ensures forall i :: 0 <= i < |slots| ==> metas[i] == slots[i].meta
  {
    if slots == [] then [] else MetasOf(slots[..|slots| - 1]) + [slots[|slots| - 1].meta]
  }

  // ----- the bytes that ranges and slots denote

  /** The address of one byte of pinned memory. */
  datatype Cell = Cell(idx: nat, at: nat)

  function Cells(idx: nat, offset: nat, size: nat): (cells: seq<Cell>)
    ensures |cells| == size
    ensures forall j :: 0 <= j < size ==> cells[j] == Cell(idx, offset + j)
  {
    if size == 0 then [] else Cells(idx, offset, size - 1) + [Cell(idx, offset + size - 1)]
  }

  lemma {:induction false} CellsJoin(idx: nat, offset: nat, a: nat, b: nat)
    ensures Cells(idx, offset, a) + Cells(idx, offset + a, b) == Cells(idx, offset, a + b)
  {
  }

  /** The bytes of a list of ranges, in order. */
  function RangeCells(ranges: seq<Range>): seq<Cell>
  {
    if ranges == [] then []
    else
      var last := ranges[|ranges| - 1];
      RangeCells(ranges[..|ranges| - 1]) + Cells(last.idx, last.offset, last.size)
  }

  lemma {:induction false} RangeCellsSnoc(ranges: seq<Range>, r: Range)
    ensures RangeCells(ranges + [r]) == RangeCells(ranges) + Cells(r.idx, r.offset, r.size)
  {
    assert (ranges + [r])[..|ranges|] == ranges;
  }

  /** The bytes of a list of slots, padding included, in order. */
  function SlotCells(slots: seq<Slot>): seq<Cell>
  {
    if slots == [] then []
    else
      var last := slots[|slots| - 1];
      SlotCells(slots[..|slots| - 1]) + Cells(last.idx, last.offset, SlotSize(last))
  }

  lemma {:induction false} SlotCellsSnoc(slots: seq<Slot>, s: Slot)
    ensures SlotCells(slots + [s]) == SlotCells(slots) + Cells(s.idx, s.offset, SlotSize(s))
  {
    assert (slots + [s])[..|slots|] == slots;
  }

  // ----- when buckets describe a list of slots correctly

  /** Ranges are coalesced: at most one per memory buffer, in buffer order, all before buffer `end`. */
  ghost predicate Coalesced(ranges: seq<Range>, end: nat)
  {
    && (forall i :: 0 <= i < |ranges| ==> ranges[i].idx < end)
    && (forall i, j :: 0 <= i < j < |ranges| ==> ranges[i].idx < ranges[j].idx)
  }

  ghost predicate InBounds(ranges: seq<Range>, buffers: seq<seq<Meta>>)
  {
    forall r :: r in ranges ==> r.idx < |buffers| && r.offset + r.size <= Total(buffers[r.idx], AlignedSize)
  }

  /** Both descriptions of a bucket, ranges and items, agree with the slots it should carry. */
  ghost predicate Carries(b: H2DBucket, slots: seq<Slot>)
  {
    && b.size == Total(slots, SlotSize)
    && b.items == MetasOf(slots)
    && RangeCells(b.ranges) == SlotCells(slots)
  }

  /** The buckets carry the greedy cut of the slots, piece by piece. */
  ghost predicate CarryAll(buckets: seq<H2DBucket>, slots: seq<Slot>, cap: nat)
  {
    var pieces := Cut(slots, SlotSize, cap);
    && |buckets| == |pieces|
    && forall j :: 0 <= j < |buckets| ==> Carries(buckets[j], pieces[j])
  }

  ghost predicate RangesOk(b: H2DBucket, end: nat, buffers: seq<seq<Meta>>)
  {
    Coalesced(b.ranges, end) && InBounds(b.ranges, buffers)
  }

  /** What the packing loops promise for one owner. */
  ghost predicate Packed(buckets: seq<H2DBucket>, buffers: seq<seq<Meta>>, cap: nat)
  {
    && CarryAll(buckets, OwnerSlots(buffers), cap)
    && forall b :: b in buckets ==> RangesOk(b, |buffers|, buffers)
  }

  /** The bucket with a range added. */
  function WithRange(b: H2DBucket, r: Range): H2DBucket
  {
    b.(ranges := b.ranges + [r])
  }

  function WithItem(b: H2DBucket, m: Meta): H2DBucket
  {
    b.(size := b.size + m.alignedSize, items := b.items + [m])
  }

  /** In the middle of buffer `idx`: the last bucket still lacks its range of that buffer. */
  ghost predicate Pending(buckets: seq<H2DBucket>, slots: seq<Slot>, cap: nat, r: Range)
  {
    var pieces := Cut(slots, SlotSize, cap);
    && |buckets| == |pieces|
    && (forall j :: 0 <= j < |buckets| - 1 ==> Carries(buckets[j], pieces[j]))
    && Carries(WithRange(Last(buckets), r), Last(pieces))
  }

  lemma {:induction false} MetasOfSnoc(slots: seq<Slot>, s: Slot)
    ensures MetasOf(slots + [s]) == MetasOf(slots) + [s.meta]
  {
    assert (slots + [s])[..|slots|] == slots;
  }

  /** Growing the last range appends the bytes that follow it. */
  lemma {:induction false} GrowRange(ranges: seq<Range>, r: Range, more: nat)
    ensures RangeCells(ranges + [r.(size := r.size + more)])
         == RangeCells(ranges + [r]) + Cells(r.idx, r.offset + r.size, more)
  {
    var head, mid := RangeCells(ranges), Cells(r.idx, r.offset, r.size);
    RangeCellsSnoc(ranges, r);
    RangeCellsSnoc(ranges, r.(size := r.size + more));
    CellsJoin(r.idx, r.offset, r.size, more);
    assert (head + mid) + Cells(r.idx, r.offset + r.size, more) == head + (mid + Cells(r.idx, r.offset + r.size, more));
  }

  lemma {:induction false} CarryOneMore(b: H2DBucket, slots: seq<Slot>, s: Slot, r: Range)
    requires Carries(WithRange(b, r), slots) && s.idx == r.idx && s.offset == r.offset + r.size
    ensures Carries(WithRange(WithItem(b, s.meta), r.(size := r.size + SlotSize(s))), slots + [s])
  {
    GrowRange(b.ranges, r, SlotSize(s));
    TotalSnoc(slots, s, SlotSize);
    SlotCellsSnoc(slots, s);
    MetasOfSnoc(slots, s);
  }

  lemma {:induction false} CarryFirst(s: Slot)
    ensures Carries(WithRange(WithItem(EMPTY_BUCKET, s.meta), Range(s.idx, s.offset, SlotSize(s))), [s])
  {
    CarryNothing(s.idx, s.offset);
    CarryOneMore(EMPTY_BUCKET, [], s, Range(s.idx, s.offset, 0));
    assert [] + [s] == [s];
  }

  lemma {:induction false} CarryNothing(idx: nat, offset: nat)
    ensures Carries(WithRange(EMPTY_BUCKET, Range(idx, offset, 0)), [])
  {
    RangeCellsSnoc([], Range(idx, offset, 0));
  }

  lemma {:induction false} EmptyRangeIsIgnored(b: H2DBucket, r: Range, slots: seq<Slot>)
    requires r.size == 0
    ensures Carries(WithRange(b, r), slots) <==> Carries(b, slots)
  {
    RangeCellsSnoc(b.ranges, r);
  }

  // ----- the packing loops

  lemma {:induction false} BufferSlotsSnoc(idx: nat, metas: seq<Meta>, m: Meta)
    ensures BufferSlots(idx, metas + [m]) == BufferSlots(idx, metas) + [Slot(idx, Total(metas, AlignedSize), m)]
  {
    assert (metas + [m])[..|metas|] == metas;
  }

  const EMPTY_BUCKET := H2DBucket(0, [], [])

  function SetLast(buckets: seq<H2DBucket>, b: H2DBucket): seq<H2DBucket>
    requires buckets != []
  {
    buckets[..|buckets| - 1] + [b]
  }

  /** The bucket with its open range appended, unless that is empty. */
  function Close(b: H2DBucket, r: Range): H2DBucket
  {
    if r.size > 0 then WithRange(b, r) else b
  }

  lemma {:induction false} CloseCarries(b: H2DBucket, r: Range, slots: seq<Slot>)
    requires Carries(WithRange(b, r), slots)
    ensures Carries(Close(b, r), slots)
  {
    if r.size == 0 {
      EmptyRangeIsIgnored(b, r, slots);
    }
  }

  lemma {:induction false} PieceTotal(buckets: seq<H2DBucket>, slots: seq<Slot>, cap: nat, r: Range)
    requires buckets != [] && Pending(buckets, slots, cap, r)
    ensures Last(buckets).size == Total(Last(Cut(slots, SlotSize, cap)), SlotSize)
  {
    hide Cut;
  }

  /** The step of the loop when the next meta does not fit: close the range, open a bucket. */
  lemma {:induction false} NextBucket(buckets: seq<H2DBucket>, slots: seq<Slot>, cap: nat, r: Range, s: Slot)
    requires buckets != [] && Pending(buckets, slots, cap, r)
    requires s.idx == r.idx && s.offset == r.offset + r.size && Last(buckets).size + SlotSize(s) > cap
    ensures Pending(SetLast(buckets, Close(Last(buckets), r)) + [WithItem(EMPTY_BUCKET, s.meta)],
                    slots + [s], cap, Range(s.idx, s.offset, SlotSize(s)))
  {
    hide Carries, Close, WithItem, WithRange, Cut;
    CloseCarries(Last(buckets), r, Last(Cut(slots, SlotSize, cap)));
    PieceTotal(buckets, slots, cap, r);
    CutSnoc(slots, s, SlotSize, cap);
    CarryFirst(s);
  }

  /** The step of the loop when the next meta fits. */
  lemma {:induction false} SameBucket(buckets: seq<H2DBucket>, slots: seq<Slot>, cap: nat, r: Range, s: Slot)
    requires buckets != [] && Pending(buckets, slots, cap, r)
    requires s.idx == r.idx && s.offset == r.offset + r.size && Last(buckets).size + SlotSize(s) <= cap
    ensures Pending(SetLast(buckets, WithItem(Last(buckets), s.meta)), slots + [s], cap, r.(size := r.size + SlotSize(s)))
  {
    CutSnoc(slots, s, SlotSize, cap);
    CarryOneMore(Last(buckets), Last(Cut(slots, SlotSize, cap)), s, r);
  }

  lemma {:induction false} NothingPending(buckets: seq<H2DBucket>, slots: seq<Slot>, cap: nat, idx: nat, offset: nat)
    requires buckets != []
    ensures Pending(buckets, slots, cap, Range(idx, offset, 0)) <==> CarryAll(buckets, slots, cap)
  {
    if |buckets| == |Cut(slots, SlotSize, cap)| {
      EmptyRangeIsIgnored(Last(buckets), Range(idx, offset, 0), Last(Cut(slots, SlotSize, cap)));
    }
  }

  /** While buffer `idx` is being packed only the last bucket may still get a range of it. */
  ghost predicate Shaped(buckets: seq<H2DBucket>, idx: nat, buffers: seq<seq<Meta>>)
  {
    && buckets != []
    && (forall j :: 0 <= j < |buckets| ==> RangesOk(buckets[j], idx + 1, buffers))
    && RangesOk(Last(buckets), idx, buffers)
  }

  lemma {:induction false} RangeKeepsShape(b: H2DBucket, idx: nat, buffers: seq<seq<Meta>>, r: Range)
    requires RangesOk(b, idx, buffers) && idx < |buffers|
    requires r.idx == idx && r.offset + r.size <= Total(buffers[idx], AlignedSize)
    ensures RangesOk(WithRange(b, r), idx + 1, buffers)
  {
  }

  lemma {:induction false} PrefixTotal(metas: seq<Meta>, i: nat)
    requires i <= |metas|
    ensures Total(metas[..i], AlignedSize) <= Total(metas, AlignedSize)
  {
    TotalAppend(metas[..i], metas[i..], AlignedSize);
    assert metas == metas[..i] + metas[i..];
  }

  lemma {:induction false} NextBucketShape(buckets: seq<H2DBucket>, idx: nat, buffers: seq<seq<Meta>>, r: Range,
                                           m: Meta)
    requires Shaped(buckets, idx, buffers) && idx < |buffers|
    requires r.idx == idx && r.offset + r.size <= Total(buffers[idx], AlignedSize)
    ensures Shaped(SetLast(buckets, Close(Last(buckets), r)) + [WithItem(EMPTY_BUCKET, m)], idx, buffers)
  {
    RangeKeepsShape(Last(buckets), idx, buffers, r);
  }

  lemma {:induction false} SameBucketShape(buckets: seq<H2DBucket>, idx: nat, buffers: seq<seq<Meta>>, m: Meta)
    requires Shaped(buckets, idx, buffers)
    ensures Shaped(SetLast(buckets, WithItem(Last(buckets), m)), idx, buffers)
  {
  }

  // ----- the packing loops as functions

  /** Inside the loop over one memory buffer: the buckets, where the open range starts, and the offset. */
  datatype Packing = Packing(buckets: seq<H2DBucket>, start: nat, offset: nat)

  /** Place `m`, in a new bucket if the last one would exceed the bucket size. */
  function Placed(p: Packing, idx: nat, m: Meta, cap: nat): (q: Packing)
    requires p.buckets != [] && p.start <= p.offset
    ensures q.buckets != [] && q.start <= q.offset == p.offset + m.alignedSize
  {
    var last := Last(p.buckets);
    if last.size + m.alignedSize > cap then
      var closed := Close(last, Range(idx, p.start, p.offset - p.start));
      Packing(SetLast(p.buckets, closed) + [WithItem(EMPTY_BUCKET, m)], p.offset, p.offset + m.alignedSize)
    else
      Packing(SetLast(p.buckets, WithItem(last, m)), p.start, p.offset + m.alignedSize)
  }

  function PlacedAll(buckets: seq<H2DBucket>, idx: nat, metas: seq<Meta>, cap: nat): (p: Packing)
    requires buckets != []
    ensures p.buckets != [] && p.start <= p.offset
  {
    if metas == [] then Packing(buckets, 0, 0)
    else Placed(PlacedAll(buckets, idx, metas[..|metas| - 1], cap), idx, metas[|metas| - 1], cap)
  }

  /** All metas of a buffer placed and its last range closed. */
  function BufferPacked(buckets: seq<H2DBucket>, idx: nat, metas: seq<Meta>, cap: nat): (out: seq<H2DBucket>)
    requires buckets != []
    ensures out != []
  {
    var p := PlacedAll(buckets, idx, metas, cap);
    SetLast(p.buckets, WithRange(Last(p.buckets), Range(idx, p.start, p.offset - p.start)))
  }

  /** The buckets of one owner. */
  function BucketsFor(buffers: seq<seq<Meta>>, cap: nat): (part: seq<H2DBucket>)
    ensures part != []
  {
    if buffers == [] then [EMPTY_BUCKET]
    else
      var n := |buffers| - 1;
      BufferPacked(BucketsFor(buffers[..n], cap), n, buffers[n], cap)
  }

  /** The buckets are well-shaped and carry `slots`, but for the open range of buffer `idx`. */
  ghost predicate Open(p: Packing, idx: nat, slots: seq<Slot>, cap: nat, buffers: seq<seq<Meta>>)
  {
    && p.start <= p.offset
    && Shaped(p.buckets, idx, buffers)
    && Pending(p.buckets, slots, cap, Range(idx, p.start, p.offset - p.start))
  }

  lemma {:induction false} OpenFacts(p: Packing, idx: nat, slots: seq<Slot>, cap: nat, buffers: seq<seq<Meta>>)
    requires Open(p, idx, slots, cap, buffers)
    ensures p.start <= p.offset && p.buckets != [] && Shaped(p.buckets, idx, buffers)
    ensures Pending(p.buckets, slots, cap, Range(idx, p.start, p.offset - p.start))
  {
  }

  lemma {:induction false} PlacedStaysOpen(p: Packing, idx: nat, m: Meta, slots: seq<Slot>, cap: nat,
                                           buffers: seq<seq<Meta>>)
    requires p.buckets != [] && Open(p, idx, slots, cap, buffers)
    requires idx < |buffers| && p.offset <= Total(buffers[idx], AlignedSize)
    ensures Open(Placed(p, idx, m, cap), idx, slots + [Slot(idx, p.offset, m)], cap, buffers)
  {
    hide Pending, Shaped;
    OpenFacts(p, idx, slots, cap, buffers);
    var open, s := Range(idx, p.start, p.offset - p.start), Slot(idx, p.offset, m);
    if Last(p.buckets).size + m.alignedSize > cap {
      NextBucket(p.buckets, slots, cap, open, s);
      NextBucketShape(p.buckets, idx, buffers, open, m);
    } else {
      SameBucket(p.buckets, slots, cap, open, s);
      SameBucketShape(p.buckets, idx, buffers, m);
    }
  }

  lemma {:induction false} NothingPlaced(buckets: seq<H2DBucket>, idx: nat, slots: seq<Slot>, cap: nat,
                                         buffers: seq<seq<Meta>>)
    requires buckets != [] && Shaped(buckets, idx, buffers) && CarryAll(buckets, slots, cap)
    ensures Open(Packing(buckets, 0, 0), idx, slots, cap, buffers)
  {
    hide Pending, Shaped, CarryAll;
    NothingPending(buckets, slots, cap, idx, 0);
  }

  lemma {:induction false} PlacedOffset(buckets: seq<H2DBucket>, idx: nat, metas: seq<Meta>, cap: nat)
    requires buckets != []
    ensures PlacedAll(buckets, idx, metas, cap).offset == Total(metas, AlignedSize)
  {
    hide Placed;
    if metas != [] {
      PlacedOffset(buckets, idx, metas[..|metas| - 1], cap);
    }
  }

  lemma {:induction false} PlacedAllSnoc(buckets: seq<H2DBucket>, idx: nat, metas: seq<Meta>, m: Meta, cap: nat)
    requires buckets != []
    ensures PlacedAll(buckets, idx, metas + [m], cap) == Placed(PlacedAll(buckets, idx, metas, cap), idx, m, cap)
  {
    assert (metas + [m])[..|metas|] == metas;
  }

  lemma {:induction false} NoMetas(buckets: seq<H2DBucket>, idx: nat, slots: seq<Slot>, cap: nat)
    requires buckets != []
    ensures PlacedAll(buckets, idx, [], cap) == Packing(buckets, 0, 0) && slots + BufferSlots(idx, []) == slots
  {
  }

  lemma {:induction false} PlacedAllStaysOpen(buckets: seq<H2DBucket>, idx: nat, metas: seq<Meta>, slots: seq<Slot>,
                                              cap: nat, buffers: seq<seq<Meta>>)
    requires buckets != [] && Shaped(buckets, idx, buffers) && CarryAll(buckets, slots, cap)
    requires idx < |buffers| && metas <= buffers[idx]
    ensures Open(PlacedAll(buckets, idx, metas, cap), idx, slots + BufferSlots(idx, metas), cap, buffers)
  {
    hide *;
    if metas == [] {
      NoMetas(buckets, idx, slots, cap);
      NothingPlaced(buckets, idx, slots, cap, buffers);
    } else {
      var front, m := metas[..|metas| - 1], metas[|metas| - 1];
      assert metas == front + [m];
      PlacedAllStaysOpen(buckets, idx, front, slots, cap, buffers);
      PlacedOffset(buckets, idx, front, cap);
      PrefixTotal(buffers[idx], |front|);
      assert buffers[idx][..|front|] == front;
      PlacedStaysOpen(PlacedAll(buckets, idx, front, cap), idx, m, slots + BufferSlots(idx, front), cap, buffers);
      PlacedAllSnoc(buckets, idx, front, m, cap);
      BufferSlotsSnoc(idx, front, m);
      Associate(slots, BufferSlots(idx, front), [Slot(idx, Total(front, AlignedSize), m)]);
    }
  }

  lemma {:induction false} LastRange(buckets: seq<H2DBucket>, idx: nat, buffers: seq<seq<Meta>>, r: Range,
                                     slots: seq<Slot>, cap: nat)
    requires Shaped(buckets, idx, buffers) && idx < |buffers| && Pending(buckets, slots, cap, r)
    requires r.idx == idx && r.offset + r.size <= Total(buffers[idx], AlignedSize)
    ensures var out := SetLast(buckets, WithRange(Last(buckets), r));
            Shaped(out, idx + 1, buffers) && CarryAll(out, slots, cap)
  {
    RangeKeepsShape(Last(buckets), idx, buffers, r);
  }

  lemma {:induction false} BufferPackedCarries(buckets: seq<H2DBucket>, idx: nat, slots: seq<Slot>, cap: nat,
                                               buffers: seq<seq<Meta>>)
    requires buckets != [] && Shaped(buckets, idx, buffers) && CarryAll(buckets, slots, cap) && idx < |buffers|
    ensures var out := BufferPacked(buckets, idx, buffers[idx], cap);
            Shaped(out, idx + 1, buffers) && CarryAll(out, slots + BufferSlots(idx, buffers[idx]), cap)
  {
    hide Pending, Shaped, CarryAll, Open, PlacedAll, BufferSlots, SetLast, WithRange;
    var metas := buffers[idx];
    var p := PlacedAll(buckets, idx, metas, cap);
    PlacedAllStaysOpen(buckets, idx, metas, slots, cap, buffers);
    OpenFacts(p, idx, slots + BufferSlots(idx, metas), cap, buffers);
    PlacedOffset(buckets, idx, metas, cap);
    LastRange(p.buckets, idx, buffers, Range(idx, p.start, p.offset - p.start), slots + BufferSlots(idx, metas), cap);
  }

  lemma {:induction false} OwnerSlotsSnoc(buffers: seq<seq<Meta>>, metas: seq<Meta>)
    ensures OwnerSlots(buffers + [metas]) == OwnerSlots(buffers) + BufferSlots(|buffers|, metas)
  {
    assert (buffers + [metas])[..|buffers|] == buffers;
  }

  lemma {:induction false} FreshBucket(buffers: seq<seq<Meta>>, cap: nat)
    ensures Shaped([EMPTY_BUCKET], 0, buffers) && CarryAll([EMPTY_BUCKET], [], cap)
  {
  }

  lemma {:induction false} FinishedShape(buckets: seq<H2DBucket>, buffers: seq<seq<Meta>>, cap: nat)
    requires Shaped(buckets, |buffers|, buffers) && CarryAll(buckets, OwnerSlots(buffers), cap)
    ensures Packed(buckets, buffers, cap)
  {
    forall b | b in buckets
      ensures RangesOk(b, |buffers|, buffers)
    {
      assert forall i :: 0 <= i < |b.ranges| ==> b.ranges[i] in b.ranges;
    }
  }

  lemma {:induction false} BucketsForSnoc(buffers: seq<seq<Meta>>, metas: seq<Meta>, cap: nat)
    ensures BucketsFor(buffers + [metas], cap) == BufferPacked(BucketsFor(buffers, cap), |buffers|, metas, cap)
  {
    assert (buffers + [metas])[..|buffers|] == buffers;
  }

  lemma {:induction false} NoBuffers(buffers: seq<seq<Meta>>, cap: nat)
    ensures Shaped(BucketsFor([], cap), 0, buffers) && CarryAll(BucketsFor([], cap), OwnerSlots([]), cap)
  {
    FreshBucket(buffers, cap);
  }

  lemma {:induction false} BucketsCarry(buffers: seq<seq<Meta>>, n: nat, cap: nat)
    requires n <= |buffers|
    ensures Shaped(BucketsFor(buffers[..n], cap), n, buffers)
    ensures CarryAll(BucketsFor(buffers[..n], cap), OwnerSlots(buffers[..n]), cap)
  {
    hide *;
    if n == 0 {
      assert buffers[..n] == [];
      NoBuffers(buffers, cap);
    } else {
      BucketsCarry(buffers, n - 1, cap);
      assert buffers[..n] == buffers[..n - 1] + [buffers[n - 1]];
      BufferPackedCarries(BucketsFor(buffers[..n - 1], cap), n - 1, OwnerSlots(buffers[..n - 1]), cap, buffers);
      BucketsForSnoc(buffers[..n - 1], buffers[n - 1], cap);
      OwnerSlotsSnoc(buffers[..n - 1], buffers[n - 1]);
    }
  }

  /** What the buckets of an owner describe, in both ways: the greedy cut of its slots. */
  lemma {:induction false} BucketsArePacked(buffers: seq<seq<Meta>>, cap: nat)
    ensures Packed(BucketsFor(buffers, cap), buffers, cap)
  {
    hide *;
    BucketsCarry(buffers, |buffers|, cap);
    assert buffers[..|buffers|] == buffers;
    FinishedShape(BucketsFor(buffers, cap), buffers, cap);
  }

  // ----- which ranges are empty

  /** The range has bytes, or stands at the end of its memory buffer. */
  predicate Tidy(r: Range, buffers: seq<seq<Meta>>)
  {
    r.size > 0 || (r.idx < |buffers| && r.offset == Total(buffers[r.idx], AlignedSize))
  }

  ghost predicate AllTidy(buckets: seq<H2DBucket>, buffers: seq<seq<Meta>>)
  {
    forall j, i :: 0 <= j < |buckets| && 0 <= i < |buckets[j].ranges| ==> Tidy(buckets[j].ranges[i], buffers)
  }

  /** Some bucket has the range that ends where memory buffer `idx` ends. */
  ghost predicate HasEnd(buckets: seq<H2DBucket>, idx: nat, end: nat)
  {
    exists j, i :: 0 <= j < |buckets| && 0 <= i < |buckets[j].ranges| && EndsAt(buckets[j].ranges[i], idx, end)
  }

  predicate EndsAt(r: Range, idx: nat, end: nat)
  {
    r.idx == idx && r.offset + r.size == end
  }

  lemma {:induction false} PlacedStaysTidy(p: Packing, idx: nat, m: Meta, cap: nat, buffers: seq<seq<Meta>>)
    requires p.buckets != [] && p.start <= p.offset && AllTidy(p.buckets, buffers)
    ensures AllTidy(Placed(p, idx, m, cap).buckets, buffers)
  {
    hide Tidy;
    var last, closing := Last(p.buckets), Range(idx, p.start, p.offset - p.start);
    forall i | 0 <= i < |last.ranges|
      ensures Tidy(last.ranges[i], buffers)
    {
      assert Tidy(p.buckets[|p.buckets| - 1].ranges[i], buffers);
    }
    if closing.size > 0 {
      SomeBytesAreTidy(closing, buffers);
    }
  }

  lemma {:induction false} SomeBytesAreTidy(r: Range, buffers: seq<seq<Meta>>)
    requires r.size > 0
    ensures Tidy(r, buffers)
  {
  }

  lemma {:induction false} PlacedKeepsEnd(p: Packing, idx: nat, m: Meta, cap: nat, k: nat, end: nat)
    requires p.buckets != [] && p.start <= p.offset && HasEnd(p.buckets, k, end)
    ensures HasEnd(Placed(p, idx, m, cap).buckets, k, end)
  {
    hide EndsAt;
    var j, i :| 0 <= j < |p.buckets| && 0 <= i < |p.buckets[j].ranges| && EndsAt(p.buckets[j].ranges[i], k, end);
    var out := Placed(p, idx, m, cap).buckets;
    assert out[j].ranges[i] == p.buckets[j].ranges[i];
  }

  lemma {:induction false} PlacedAllKeeps(buckets: seq<H2DBucket>, idx: nat, metas: seq<Meta>, cap: nat,
                                          buffers: seq<seq<Meta>>, k: nat, end: nat)
    requires buckets != [] && AllTidy(buckets, buffers)
    ensures AllTidy(PlacedAll(buckets, idx, metas, cap).buckets, buffers)
    ensures HasEnd(buckets, k, end) ==> HasEnd(PlacedAll(buckets, idx, metas, cap).buckets, k, end)
  {
    hide Placed, AllTidy, HasEnd;
    if metas != [] {
      var p := PlacedAll(buckets, idx, metas[..|metas| - 1], cap);
      PlacedAllKeeps(buckets, idx, metas[..|metas| - 1], cap, buffers, k, end);
      PlacedStaysTidy(p, idx, metas[|metas| - 1], cap, buffers);
      if HasEnd(buckets, k, end) {
        PlacedKeepsEnd(p, idx, metas[|metas| - 1], cap, k, end);
      }
    }
  }

  lemma {:induction false} LastRangeKeeps(buckets: seq<H2DBucket>, r: Range, buffers: seq<seq<Meta>>, k: nat, end: nat)
    requires buckets != [] && AllTidy(buckets, buffers) && Tidy(r, buffers)
    ensures var out := SetLast(buckets, WithRange(Last(buckets), r));
            && AllTidy(out, buffers)
            && HasEnd(out, r.idx, r.offset + r.size)
            && (HasEnd(buckets, k, end) ==> HasEnd(out, k, end))
  {
    hide Tidy, EndsAt;
    var out, n := SetLast(buckets, WithRange(Last(buckets), r)), |buckets| - 1;
    forall i | 0 <= i < |Last(buckets).ranges|
      ensures Tidy(Last(buckets).ranges[i], buffers)
    {
      assert Tidy(buckets[n].ranges[i], buffers);
    }
    assert EndsAt(out[n].ranges[|out[n].ranges| - 1], r.idx, r.offset + r.size) by {
      assert out[n].ranges[|out[n].ranges| - 1] == r;
      ItsOwnEnd(r);
    }
    if HasEnd(buckets, k, end) {
      var j, i :| 0 <= j < |buckets| && 0 <= i < |buckets[j].ranges| && EndsAt(buckets[j].ranges[i], k, end);
      assert out[j].ranges[i] == buckets[j].ranges[i];
    }
  }

  lemma {:induction false} ItsOwnEnd(r: Range)
    ensures EndsAt(r, r.idx, r.offset + r.size)
  {
  }

  lemma {:induction false} BufferPackedKeeps(buckets: seq<H2DBucket>, idx: nat, cap: nat, buffers: seq<seq<Meta>>,
                                             k: nat, end: nat)
    requires buckets != [] && AllTidy(buckets, buffers) && idx < |buffers|
    ensures var out := BufferPacked(buckets, idx, buffers[idx], cap);
            && AllTidy(out, buffers)
            && HasEnd(out, idx, Total(buffers[idx], AlignedSize))
            && (HasEnd(buckets, k, end) ==> HasEnd(out, k, end))
  {
    hide AllTidy, HasEnd, PlacedAll, SetLast, WithRange;
    var p := PlacedAll(buckets, idx, buffers[idx], cap);
    PlacedAllKeeps(buckets, idx, buffers[idx], cap, buffers, k, end);
    PlacedOffset(buckets, idx, buffers[idx], cap);
    LastRangeKeeps(p.buckets, Range(idx, p.start, p.offset - p.start), buffers, k, end);
  }

  lemma {:induction false} FirstBuffersTidy(buffers: seq<seq<Meta>>, n: nat, cap: nat, k: nat)
    requires n <= |buffers|
    ensures AllTidy(BucketsFor(buffers[..n], cap), buffers)
    ensures k < n ==> HasEnd(BucketsFor(buffers[..n], cap), k, Total(buffers[k], AlignedSize))
  {
    hide AllTidy, HasEnd, BucketsFor, BufferPacked;
    if n == 0 {
      assert buffers[..n] == [];
      NoRangesYet(buffers, cap);
    } else {
      FirstBuffersTidy(buffers, n - 1, cap, k);
      assert buffers[..n] == buffers[..n - 1] + [buffers[n - 1]];
      BucketsForSnoc(buffers[..n - 1], buffers[n - 1], cap);
      BufferPackedKeeps(BucketsFor(buffers[..n - 1], cap), n - 1, cap, buffers, k,
                        if k < |buffers| then Total(buffers[k], AlignedSize) else 0);
    }
  }

  lemma {:induction false} NoRangesYet(buffers: seq<seq<Meta>>, cap: nat)
    ensures AllTidy(BucketsFor([], cap), buffers)
  {
  }

  /**
   Each memory buffer has the range that reaches its end, even if that range is empty, and no other
   range is empty.
   */
  lemma {:induction false} EmptyRangesEndBuffers(buffers: seq<seq<Meta>>, cap: nat, k: nat)
    ensures AllTidy(BucketsFor(buffers, cap), buffers)
    ensures k < |buffers| ==> HasEnd(BucketsFor(buffers, cap), k, Total(buffers[k], AlignedSize))
  {
    hide AllTidy, HasEnd, BucketsFor;
    FirstBuffersTidy(buffers, |buffers|, cap, k);
    assert buffers[..|buffers|] == buffers;
  }

  // ----- the packing loops as the code runs them

  /** The innermost step: place `m` at `offset` of buffer `idx`, whose open range begins at `start`. */
  method PlaceMeta(buckets: seq<H2DBucket>, idx: nat, m: Meta, start: nat, offset: nat, cap: nat)
    returns (out: seq<H2DBucket>, newStart: nat)
    requires buckets != [] && start <= offset
    ensures Packing(out, newStart, offset + m.alignedSize) == Placed(Packing(buckets, start, offset), idx, m, cap)
  {
    out, newStart := buckets, start;
    if Last(buckets).size + m.alignedSize > cap {
      if offset - start > 0 {
        out := SetLast(buckets, WithRange(Last(buckets), Range(idx, start, offset - start)));
      }
      newStart := offset;
      out := out + [WithItem(EMPTY_BUCKET, m)];
    } else {
      out := SetLast(buckets, WithItem(Last(buckets), m));
    }
  }

  /** The loop over the metas of memory buffer `idx`. */
  method PackBuffer(buckets: seq<H2DBucket>, idx: nat, metas: seq<Meta>, cap: nat) returns (out: seq<H2DBucket>)
    requires buckets != []
    ensures out == BufferPacked(buckets, idx, metas, cap)
  {
    hide Placed, PlacedAll;
    out := buckets;
    var start: nat, offset: nat := 0, 0;
    NoMetas(buckets, idx, [], cap);
    assert metas[..0] == [];
    for i := 0 to |metas|
      invariant Packing(out, start, offset) == PlacedAll(buckets, idx, metas[..i], cap)
    {
      assert metas[..i + 1] == metas[..i] + [metas[i]];
      PlacedAllSnoc(buckets, idx, metas[..i], metas[i], cap);
      out, start := PlaceMeta(out, idx, metas[i], start, offset, cap);
      offset := offset + metas[i].alignedSize;
    }
    assert metas[..|metas|] == metas;
    out := SetLast(out, WithRange(Last(out), Range(idx, start, offset - start)));
  }

  /** The loop over one owner's memory buffers. */
  method PackOwner(buffers: seq<seq<Meta>>, cap: nat) returns (out: seq<H2DBucket>)
    ensures out == BucketsFor(buffers, cap)
  {
    hide BufferPacked;
    out := [EMPTY_BUCKET];
    assert buffers[..0] == [];
    for idx := 0 to |buffers|
      invariant out == BucketsFor(buffers[..idx], cap)
    {
      assert buffers[..idx + 1] == buffers[..idx] + [buffers[idx]];
      BucketsForSnoc(buffers[..idx], buffers[idx], cap);
      out := PackBuffer(out, idx, buffers[idx], cap);
    }
    assert buffers[..|buffers|] == buffers;
  }

  // ----- all owners

  /** The buckets of one owner, labelled with it. */
  function Tag(owner: int, part: seq<H2DBucket>): (tagged: seq<Owned<H2DBucket>>)
    ensures |tagged| == |part|
    ensures forall j :: 0 <= j < |part| ==> tagged[j] == Owned(owner, part[j])
  {
    seq(|part|, j requires 0 <= j < |part| => Owned(owner, part[j]))
  }

  function TagAll(owners: seq<OwnerMetas>, parts: seq<seq<H2DBucket>>): seq<Owned<H2DBucket>>
    requires |parts| <= |owners|
  {
    if parts == [] then []
    else
      var n := |parts| - 1;
      TagAll(owners, parts[..n]) + Tag(owners[n].owner, parts[n])
  }

  /** Whether the code's check that an owner's last bucket is used succeeds. */
  ghost predicate LastBucketUsed(o: OwnerMetas, cap: nat)
  {
    Total(Last(Cut(OwnerSlots(o.buffers), SlotSize, cap)), SlotSize) > 0
  }

  ghost predicate PackedAll(parts: seq<seq<H2DBucket>>, owners: seq<OwnerMetas>, cap: nat)
  {
    && |parts| <= |owners|
    && forall k :: 0 <= k < |parts| ==> Packed(parts[k], owners[k].buffers, cap)
  }

  /** The buckets of every owner. */
  function PartsFor(owners: seq<OwnerMetas>, cap: nat): (parts: seq<seq<H2DBucket>>)
    ensures |parts| == |owners|
  {
    if owners == [] then []
    else PartsFor(owners[..|owners| - 1], cap) + [BucketsFor(owners[|owners| - 1].buffers, cap)]
  }

  lemma {:induction false} PartsForSnoc(owners: seq<OwnerMetas>, o: OwnerMetas, cap: nat)
    ensures PartsFor(owners + [o], cap) == PartsFor(owners, cap) + [BucketsFor(o.buffers, cap)]
  {
    assert (owners + [o])[..|owners|] == owners;
  }

  /** `None` stands for the assertion error on an owner whose last bucket stays empty. */
  function GeneratedBuckets(owners: seq<OwnerMetas>, cap: nat): Option<seq<Owned<H2DBucket>>>
  {
    if owners == [] then Some([])
    else
      var o := owners[|owners| - 1];
      var before, part := GeneratedBuckets(owners[..|owners| - 1], cap), BucketsFor(o.buffers, cap);
      if before.None? || Last(part).size == 0 then None else Some(before.value + Tag(o.owner, part))
  }

  lemma {:induction false} GeneratedSnoc(owners: seq<OwnerMetas>, o: OwnerMetas, cap: nat)
    ensures var before, part := GeneratedBuckets(owners, cap), BucketsFor(o.buffers, cap);
            GeneratedBuckets(owners + [o], cap)
            == if before.None? || Last(part).size == 0 then None else Some(before.value + Tag(o.owner, part))
  {
    assert (owners + [o])[..|owners|] == owners;
  }

  /** The loop over the owners of `_gen_h2d_buckets`. */
  method GenH2DBuckets(owners: seq<OwnerMetas>, cap: nat) returns (r: Option<seq<Owned<H2DBucket>>>)
    ensures r == GeneratedBuckets(owners, cap)
  {
    hide BucketsFor, Tag;
    var buckets := [];
    assert owners[..0] == [];
    for k := 0 to |owners|
      invariant GeneratedBuckets(owners[..k], cap) == Some(buckets)
    {
      assert owners[..k + 1] == owners[..k] + [owners[k]];
      GeneratedSnoc(owners[..k], owners[k], cap);
      var part := PackOwner(owners[k].buffers, cap);
      if Last(part).size == 0 {
        FailureStays(owners, k + 1, cap);
        return None;
      }
      buckets := buckets + Tag(owners[k].owner, part);
    }
    assert owners[..|owners|] == owners;
    r := Some(buckets);
  }

  lemma {:induction false} FailureStays(owners: seq<OwnerMetas>, k: nat, cap: nat)
    requires k <= |owners| && GeneratedBuckets(owners[..k], cap).None?
    ensures GeneratedBuckets(owners, cap).None?
    decreases |owners| - k
  {
    hide BucketsFor, Tag, GeneratedBuckets;
    if k == |owners| {
      assert owners[..k] == owners;
    } else {
      assert owners[..k + 1] == owners[..k] + [owners[k]];
      GeneratedSnoc(owners[..k], owners[k], cap);
      FailureStays(owners, k + 1, cap);
    }
  }

  // ----- what the buckets of all owners are

  lemma {:induction false} UsedIsNonEmpty(o: OwnerMetas, cap: nat)
    ensures Last(BucketsFor(o.buffers, cap)).size > 0 <==> LastBucketUsed(o, cap)
  {
    hide BucketsFor, Cut, RangesOk;
    BucketsArePacked(o.buffers, cap);
  }

  lemma {:induction false} NoParts(cap: nat)
    ensures GeneratedBuckets([], cap) == Some(TagAll([], PartsFor([], cap))) && PackedAll(PartsFor([], cap), [], cap)
  {
  }

  lemma {:induction false} TagAllSnoc(owners: seq<OwnerMetas>, parts: seq<seq<H2DBucket>>, o: OwnerMetas,
                                      part: seq<H2DBucket>)
    requires |parts| == |owners|
    ensures TagAll(owners + [o], parts + [part]) == TagAll(owners, parts) + Tag(o.owner, part)
  {
    hide Tag;
    assert (parts + [part])[..|parts|] == parts;
    TagFewer(owners, [o], parts);
  }

  lemma {:induction false} TagFewer(owners: seq<OwnerMetas>, more: seq<OwnerMetas>, parts: seq<seq<H2DBucket>>)
    requires |parts| <= |owners|
    ensures TagAll(owners + more, parts) == TagAll(owners, parts)
  {
    if parts != [] {
      TagFewer(owners, more, parts[..|parts| - 1]);
    }
  }

  /** All parts are packed, and on success the buckets are the parts, labelled with their owners. */
  lemma {:induction false} GeneratedArePacked(owners: seq<OwnerMetas>, cap: nat)
    ensures PackedAll(PartsFor(owners, cap), owners, cap)
    ensures var r := GeneratedBuckets(owners, cap); r.Some? ==> r.value == TagAll(owners, PartsFor(owners, cap))
  {
    hide *;
    if owners == [] {
      NoParts(cap);
    } else {
      var front, o := owners[..|owners| - 1], owners[|owners| - 1];
      assert owners == front + [o];
      GeneratedArePacked(front, cap);
      GeneratedSnoc(front, o, cap);
      PartsForSnoc(front, o, cap);
      TagAllSnoc(front, PartsFor(front, cap), o, BucketsFor(o.buffers, cap));
      BucketsArePacked(o.buffers, cap);
      OnePartMore(front, PartsFor(front, cap), o, BucketsFor(o.buffers, cap), cap);
    }
  }

  lemma {:induction false} OnePartMore(owners: seq<OwnerMetas>, parts: seq<seq<H2DBucket>>, o: OwnerMetas,
                                       part: seq<H2DBucket>, cap: nat)
    requires |parts| == |owners| && PackedAll(parts, owners, cap) && Packed(part, o.buffers, cap)
    ensures PackedAll(parts + [part], owners + [o], cap)
  {
    hide Packed;
  }

  /** Bucket `j` of owner `k` comes after all buckets of earlier owners. */
  lemma {:induction false} OwnersInOrder(owners: seq<OwnerMetas>, parts: seq<seq<H2DBucket>>, k: nat, j: nat)
    requires |parts| <= |owners| && k < |parts| && j < |parts[k]|
    ensures |TagAll(owners, parts)| == |Concat(parts)|
    ensures var at := |Concat(parts[..k])| + j;
            at < |TagAll(owners, parts)| && TagAll(owners, parts)[at] == Owned(owners[k].owner, parts[k][j])
  {
    var n := |parts| - 1;
    var front := parts[..n];
    TaggedCount(owners, parts);
    TaggedCount(owners, front);
    ConcatSnoc(front, parts[n]);
    assert parts == front + [parts[n]];
    if k < n {
      OwnersInOrder(owners, front, k, j);
      assert front[..k] == parts[..k];
    }
  }

  lemma {:induction false} TaggedCount(owners: seq<OwnerMetas>, parts: seq<seq<H2DBucket>>)
    requires |parts| <= |owners|
    ensures |TagAll(owners, parts)| == |Concat(parts)|
  {
    if parts != [] {
      var n := |parts| - 1;
      TaggedCount(owners, parts[..n]);
      ConcatSnoc(parts[..n], parts[n]);
      assert parts == parts[..n] + [parts[n]];
    }
  }

  /** The assertion fires exactly if some owner's last bucket stays empty. */
  lemma {:induction false} GeneratedSucceeds(owners: seq<OwnerMetas>, cap: nat)
    ensures GeneratedBuckets(owners, cap).Some? <==> forall k :: 0 <= k < |owners| ==> LastBucketUsed(owners[k], cap)
  {
    hide BucketsFor, LastBucketUsed, Tag, GeneratedBuckets;
    if owners == [] {
      NoParts(cap);
    } else {
      var front, o := owners[..|owners| - 1], owners[|owners| - 1];
      assert owners == front + [o];
      GeneratedSucceeds(front, cap);
      GeneratedSnoc(front, o, cap);
      UsedIsNonEmpty(o, cap);
    }
  }

  /** No meta is larger than a bucket. */
  ghost predicate MetasFit(o: OwnerMetas, cap: nat)
  {
    SizesFit(OwnerSlots(o.buffers), SlotSize, cap)
  }

  /** When the metas fit, the check fails only for an owner without any bytes. */
  lemma {:induction false} CheckFailsOnlyWithoutBytes(o: OwnerMetas, cap: nat)
    requires MetasFit(o, cap)
    ensures LastBucketUsed(o, cap) <==> Total(OwnerSlots(o.buffers), SlotSize) > 0
  {
    LastPieceIsUsed(OwnerSlots(o.buffers), SlotSize, cap);
  }
}
