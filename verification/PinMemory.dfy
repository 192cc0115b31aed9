/** Packing registered tensors into pinned memory buffers. */
module PinMemory {
  import opened DataTypes
  import opened GreedyCut
  import opened Layout
  import opened Sequences
  import opened Transfer

  const ALIGN_SIZE := 256

  const FOUR_GIB := 0x1_0000_0000

  /** A tensor to register. */
  datatype Tensor = Tensor(name: string, itemsize: nat, shape: seq<nat>, bytes: seq<Byte>)

  ghost predicate WellFormed(t: Tensor)
  {
    |t.bytes| == t.itemsize * Numel(t.shape)
  }

  ghost predicate AllWellFormed(ts: seq<Tensor>)
  {
    forall i :: 0 <= i < |ts| ==> WellFormed(ts[i])
  }

  /** `_align_size` of a tensor of `n` bytes. */
  function AlignUp(n: nat): nat
  {
    (n + ALIGN_SIZE - 1) / ALIGN_SIZE * ALIGN_SIZE
  }

  /** The aligned size is the least multiple of 256 that the tensor fits in. */
  lemma {:induction false} AlignUpIsLeastMultiple(n: nat, m: nat)
    ensures AlignUp(n) % ALIGN_SIZE == 0 && n <= AlignUp(n)
    ensures m % ALIGN_SIZE == 0 && n <= m ==> AlignUp(n) <= m
  {
  }

  function MetaOf(t: Tensor): Meta
  {
    Meta(t.name, t.itemsize, t.shape, AlignUp(t.itemsize * Numel(t.shape)))
  }

  function TensorSlot(t: Tensor): nat
  {
    MetaOf(t).alignedSize
  }

  function MetasFor(ts: seq<Tensor>): (metas: seq<Meta>)
    ensures |metas| == |ts|
  {
    if ts == [] then [] else MetasFor(ts[..|ts| - 1]) + [MetaOf(ts[|ts| - 1])]
  }

  lemma {:induction false} MetasForSnoc(ts: seq<Tensor>, t: Tensor)
    ensures MetasFor(ts + [t]) == MetasFor(ts) + [MetaOf(t)]
  {
    assert (ts + [t])[..|ts|] == ts;
  }

  lemma {:induction false} MetasForTotal(ts: seq<Tensor>)
    ensures Total(MetasFor(ts), AlignedSize) == Total(ts, TensorSlot)
  {
    if ts != [] {
      var front, t := ts[..|ts| - 1], ts[|ts| - 1];
      MetasForTotal(front);
      TotalSnoc(MetasFor(front), MetaOf(t), AlignedSize);
    }
  }

  // ----- which buffer each tensor goes to

  datatype MemoryBucket = MemoryBucket(size: nat, metas: seq<Meta>)

  function LargestSlot(ts: seq<Tensor>): (n: nat)
    ensures forall i :: 0 <= i < |ts| ==> TensorSlot(ts[i]) <= n
    ensures n > 0 ==> exists i :: 0 <= i < |ts| && TensorSlot(ts[i]) == n
  {
    if ts == [] then 0
    else
      var front := LargestSlot(ts[..|ts| - 1]);
      var last := TensorSlot(ts[|ts| - 1]);
      if front < last then last else front
  }

  /** The largest buffer that may be allocated: 4 GiB, or one tensor if that is larger. */
  function BufferCap(ts: seq<Tensor>): nat
  {
    var largest := LargestSlot(ts);
    if FOUR_GIB < largest then largest else FOUR_GIB
  }

  /** The tensors of each buffer. */
  function BufferTensors(ts: seq<Tensor>): seq<seq<Tensor>>
  {
    Cut(ts, TensorSlot, BufferCap(ts))
  }

  ghost predicate DescribesPieces(buckets: seq<MemoryBucket>, pieces: seq<seq<Tensor>>)
  {
    && |buckets| == |pieces|
    && forall j :: 0 <= j < |buckets| ==> buckets[j] == MemoryBucket(Total(pieces[j], TensorSlot), MetasFor(pieces[j]))
  }

  lemma {:induction false} DescribeOneMore(buckets: seq<MemoryBucket>, pieces: seq<seq<Tensor>>, t: Tensor, cap: nat)
    requires pieces != [] && DescribesPieces(buckets, pieces)
    ensures var last := buckets[|buckets| - 1];
            var started := MemoryBucket(TensorSlot(t), [MetaOf(t)]);
            var grown := MemoryBucket(last.size + TensorSlot(t), last.metas + [MetaOf(t)]);
            && last.size == Total(Last(pieces), TensorSlot)
            && DescribesPieces(if last.size + TensorSlot(t) > cap then buckets + [started]
                               else buckets[..|buckets| - 1] + [grown],
                               Add(pieces, t, TensorSlot, cap))
  {
    hide TensorSlot, MetasFor, Total;
    var last := Last(pieces);
    assert buckets[|buckets| - 1] == MemoryBucket(Total(last, TensorSlot), MetasFor(last));
    OneTensor(t);
    TotalSnoc(last, t, TensorSlot);
    MetasForSnoc(last, t);
  }

  lemma {:induction false} OneTensor(t: Tensor)
    ensures Total([t], TensorSlot) == TensorSlot(t) && MetasFor([t]) == [MetaOf(t)]
  {
    TotalSnoc([], t, TensorSlot);
    MetasForSnoc([], t);
    assert [] + [t] == [t];
  }

  /** The packing loop of `_normal_pin_memory` over the parameters in name order. */
  method PackTensors(ts: seq<Tensor>) returns (buckets: seq<MemoryBucket>)
    ensures DescribesPieces(buckets, BufferTensors(ts))
  {
    hide DescribesPieces, Cut, Add;
    var cap := BufferCap(ts);
    buckets := [MemoryBucket(0, [])];
    EmptyPacking(cap);
    assert ts[..0] == [];
    for i := 0 to |ts|
      invariant buckets != []
      invariant DescribesPieces(buckets, Cut(ts[..i], TensorSlot, cap))
    {
      var t := ts[i];
      var last := buckets[|buckets| - 1];
      assert ts[..i + 1] == ts[..i] + [t];
      CutSnoc(ts[..i], t, TensorSlot, cap);
      DescribeOneMore(buckets, Cut(ts[..i], TensorSlot, cap), t, cap);
      if last.size + TensorSlot(t) > cap {
        buckets := buckets + [MemoryBucket(TensorSlot(t), [MetaOf(t)])];
      } else {
        buckets := buckets[..|buckets| - 1] + [MemoryBucket(last.size + TensorSlot(t), last.metas + [MetaOf(t)])];
      }
    }
    assert ts[..|ts|] == ts;
  }

  lemma {:induction false} EmptyPacking(cap: nat)
    ensures DescribesPieces([MemoryBucket(0, [])], Cut<Tensor>([], TensorSlot, cap))
  {
  }

  /** Every tensor goes to exactly one buffer, in order, and no buffer exceeds the cap. */
  lemma {:induction false} EachTensorInOneBuffer(ts: seq<Tensor>)
    ensures Concat(BufferTensors(ts)) == ts
    ensures forall j :: 0 <= j < |BufferTensors(ts)| ==> Total(BufferTensors(ts)[j], TensorSlot) <= BufferCap(ts)
  {
    CutKeepsItems(ts, TensorSlot, BufferCap(ts));
    CutFits(ts, TensorSlot, BufferCap(ts));
  }

  /** `cap` is 4 GiB or, if that is larger, the largest aligned size of a tensor. */
  ghost predicate IsLargestBuffer(ts: seq<Tensor>, cap: nat)
  {
    && 4 * 1024 * 1024 * 1024 <= cap
    && (forall i :: 0 <= i < |ts| ==> TensorSlot(ts[i]) <= cap)
    && (cap == 4 * 1024 * 1024 * 1024 || exists i :: 0 <= i < |ts| && TensorSlot(ts[i]) == cap)
  }

  lemma {:induction false} CapIsLargestBuffer(ts: seq<Tensor>, cap: nat)
    ensures IsLargestBuffer(ts, cap) <==> cap == BufferCap(ts)
  {
    hide TensorSlot;
  }

  /**
   The packing said without its loop: the parameters in order, a new buffer begun exactly when the
   next one would exceed max(4 GiB, largest parameter). No buffer exceeds that, and no two
   neighbouring buffers fit into one.
   */
  lemma {:induction false} PackingIsGreedy(ts: seq<Tensor>, cap: nat, pieces: seq<seq<Tensor>>, j: nat)
    requires IsLargestBuffer(ts, cap)
    ensures pieces == BufferTensors(ts) <==> Greedy(pieces, TensorSlot, cap) && Concat(pieces) == ts
    ensures j < |BufferTensors(ts)| ==> Total(BufferTensors(ts)[j], TensorSlot) <= cap
    ensures j + 1 < |BufferTensors(ts)|
            ==> Total(BufferTensors(ts)[j], TensorSlot) + Total(BufferTensors(ts)[j + 1], TensorSlot) > cap
  {
    hide Greedy, TensorSlot, Cut, IsLargestBuffer;
    CapIsLargestBuffer(ts, cap);
    CutIsTheGreedySplit(ts, TensorSlot, cap, pieces);
    EachTensorInOneBuffer(ts);
    if j + 1 < |BufferTensors(ts)| {
      NeighboursExceed(ts, TensorSlot, cap, j);
    }
  }

  /** No order-preserving split of the parameters into buffers of at most that size has fewer. */
  lemma {:induction false} FewestBuffers(ts: seq<Tensor>, cap: nat, split: seq<seq<Tensor>>)
    requires IsLargestBuffer(ts, cap)
    requires split != [] && Concat(split) == ts && PiecesFit(split, TensorSlot, cap)
    ensures |BufferTensors(ts)| <= |split|
  {
    hide TensorSlot, Cut, IsLargestBuffer;
    CapIsLargestBuffer(ts, cap);
    CutIsMinimal(ts, TensorSlot, cap, split);
  }

  /** A tensor's slot is the least multiple of 256 bytes that holds it. */
  lemma {:induction false} SlotIsLeastMultiple(t: Tensor, m: nat)
    requires WellFormed(t)
    ensures TensorSlot(t) % 256 == 0 && |t.bytes| <= TensorSlot(t)
    ensures m % 256 == 0 && |t.bytes| <= m ==> TensorSlot(t) <= m
  {
    AlignUpIsLeastMultiple(|t.bytes|, m);
  }

  // ----- copying the tensors concurrently

  /** Where tensor `k` starts in its buffer. */
  function StartOf(ts: seq<Tensor>, k: nat): nat
    requires k <= |ts|
  {
    Total(ts[..k], TensorSlot)
  }

  lemma {:induction false} StartsAreDisjoint(ts: seq<Tensor>, k: nat, l: nat)
    requires AllWellFormed(ts) && k < l <= |ts|
    ensures StartOf(ts, k) + |ts[k].bytes| <= StartOf(ts, l)
    decreases l
  {
    assert ts[..l] == ts[..l - 1] + [ts[l - 1]];
    TotalSnoc(ts[..l - 1], ts[l - 1], TensorSlot);
    if k < l - 1 {
      StartsAreDisjoint(ts, k, l - 1);
    } else {
      AlignUpIsLeastMultiple(|ts[k].bytes|, 0);
    }
  }

  /** The smallest step of a concurrent copy: byte `at` of tensor `k`. */
  datatype ByteCopy = ByteCopy(k: nat, at: nat)

  ghost predicate IsStep(ts: seq<Tensor>, c: ByteCopy)
  {
    c.k < |ts| && c.at < |ts[c.k].bytes|
  }

  /** An execution of all copies, in whatever order and however interleaved. */
  ghost predicate Interleaving(ts: seq<Tensor>, order: seq<ByteCopy>)
  {
    && (forall p :: 0 <= p < |order| ==> IsStep(ts, order[p]))
    && (forall c :: IsStep(ts, c) ==> c in order)
  }

  function Target(ts: seq<Tensor>, c: ByteCopy): nat
    requires IsStep(ts, c)
  {
    StartOf(ts, c.k) + c.at
  }

  lemma {:induction false} TargetsAreDistinct(ts: seq<Tensor>, c: ByteCopy, d: ByteCopy)
    requires AllWellFormed(ts) && IsStep(ts, c) && IsStep(ts, d) && Target(ts, c) == Target(ts, d)
    ensures c == d
  {
    if c.k < d.k {
      StartsAreDisjoint(ts, c.k, d.k);
    } else if d.k < c.k {
      StartsAreDisjoint(ts, d.k, c.k);
    }
  }

  lemma {:induction false} TargetInBuffer(ts: seq<Tensor>, c: ByteCopy)
    requires AllWellFormed(ts) && IsStep(ts, c)
    ensures Target(ts, c) < Total(ts, TensorSlot)
  {
    StartsAreDisjoint(ts, c.k, |ts|);
    assert ts[..|ts|] == ts;
  }

  /** Tensor `k` is completely stored in the buffer. */
  ghost predicate StoredAt(contents: seq<Byte>, ts: seq<Tensor>, k: nat)
    requires k < |ts|
  {
    HoldsAt(contents, StartOf(ts, k), ts[k].bytes)
  }

  ghost predicate Stored(contents: seq<Byte>, ts: seq<Tensor>)
  {
    && |contents| == Total(ts, TensorSlot)
    && forall k :: 0 <= k < |ts| ==> StoredAt(contents, ts, k)
  }

  /** Step `p` of the execution has taken effect. */
  ghost predicate Done(contents: seq<Byte>, ts: seq<Tensor>, c: ByteCopy)
  {
    IsStep(ts, c) && Target(ts, c) < |contents| && contents[Target(ts, c)] == ts[c.k].bytes[c.at]
  }

  lemma {:induction false} StepIsDone(contents: seq<Byte>, ts: seq<Tensor>, order: seq<ByteCopy>, c: ByteCopy)
    requires Interleaving(ts, order) && IsStep(ts, c)
    requires forall p :: 0 <= p < |order| ==> Done(contents, ts, order[p])
    ensures Done(contents, ts, c)
  {
    hide Done, IsStep;
    var p :| 0 <= p < |order| && order[p] == c;
    assert Done(contents, ts, order[p]);
  }

  lemma {:induction false} AllDoneIsStored(contents: seq<Byte>, ts: seq<Tensor>, order: seq<ByteCopy>)
    requires AllWellFormed(ts) && Interleaving(ts, order) && |contents| == Total(ts, TensorSlot)
    requires forall p :: 0 <= p < |order| ==> Done(contents, ts, order[p])
    ensures Stored(contents, ts)
  {
    forall k | 0 <= k < |ts|
      ensures StoredAt(contents, ts, k)
    {
      StartsAreDisjoint(ts, k, |ts|);
      assert ts[..|ts|] == ts;
      var start, bytes := StartOf(ts, k), ts[k].bytes;
      forall j | 0 <= j < |bytes|
        ensures contents[start + j] == bytes[j]
      {
        StepIsDone(contents, ts, order, ByteCopy(k, j));
      }
      assert contents[start..start + |bytes|] == bytes;
    }
  }

  /**
   The concurrent copy futures of one buffer: for every interleaving of their byte writes, each
   tensor ends up at the prefix sum of the aligned sizes before it.
   */
  method RunCopies(buffer: array<Byte>, ts: seq<Tensor>, order: seq<ByteCopy>)
    requires AllWellFormed(ts) && Interleaving(ts, order) && buffer.Length == Total(ts, TensorSlot)
    modifies buffer
    ensures Stored(buffer[..], ts)
  {
    for i := 0 to |order|
      invariant forall p :: 0 <= p < i ==> Done(buffer[..], ts, order[p])
    {
      var c := order[i];
      TargetInBuffer(ts, c);
      ghost var before := buffer[..];
      buffer[Total(ts[..c.k], TensorSlot) + c.at] := ts[c.k].bytes[c.at];
      forall p | 0 <= p < i + 1
        ensures Done(buffer[..], ts, order[p])
      {
        if p < i {
          assert Done(before, ts, order[p]);
          if Target(ts, order[p]) == Target(ts, c) {
            TargetsAreDistinct(ts, order[p], c);
          }
        }
      }
    }
    AllDoneIsStored(buffer[..], ts, order);
  }

  // ----- what registration leaves behind

  /** The registered parameters, as a worker should receive them. */
  function WeightsOf(ts: seq<Tensor>): (weights: seq<Weight>)
    ensures |weights| == |ts|
    ensures forall i :: 0 <= i < |ts| ==> weights[i] == Weight(ts[i].name, ts[i].itemsize, ts[i].shape, ts[i].bytes)
  {
    if ts == [] then []
    else
      var t := ts[|ts| - 1];
      WeightsOf(ts[..|ts| - 1]) + [Weight(t.name, t.itemsize, t.shape, t.bytes)]
  }

  lemma {:induction false} WeightsOfAppend(a: seq<Tensor>, b: seq<Tensor>)
    ensures WeightsOf(a + b) == WeightsOf(a) + WeightsOf(b)
  {
  }

  lemma {:induction false} WeightsOfSnoc(ts: seq<Tensor>, t: Tensor)
    ensures WeightsOf(ts + [t]) == WeightsOf(ts) + [Weight(t.name, t.itemsize, t.shape, t.bytes)]
  {
    assert (ts + [t])[..|ts|] == ts;
  }

  /** A stored buffer holds its tensors in the slots that the metas describe. */
  lemma {:induction false} BufferHoldsTensors(mem: Memory, idx: nat, ts: seq<Tensor>, n: nat)
    requires AllWellFormed(ts) && idx < |mem| && Stored(mem[idx], ts) && n <= |ts|
    ensures SlotsHold(mem, BufferSlots(idx, MetasFor(ts[..n])))
    ensures StoredWeights(mem, BufferSlots(idx, MetasFor(ts[..n]))) == WeightsOf(ts[..n])
  {
    hide *;
    if n == 0 {
      assert ts[..n] == [];
      NothingToHold(mem, idx);
    } else {
      var front, t := ts[..n - 1], ts[n - 1];
      BufferHoldsTensors(mem, idx, ts, n - 1);
      assert ts[..n] == front + [t];
      MetasForSnoc(front, t);
      MetasForTotal(front);
      BufferSlotsSnoc(idx, MetasFor(front), MetaOf(t));
      TensorInSlot(mem, idx, ts, n - 1);
      OneSlotMore(mem, BufferSlots(idx, MetasFor(front)), Slot(idx, Total(front, TensorSlot), MetaOf(t)));
      WeightsOfSnoc(front, t);
    }
  }

  lemma {:induction false} NothingToHold(mem: Memory, idx: nat)
    ensures SlotsHold(mem, BufferSlots(idx, MetasFor([])))
    ensures StoredWeights(mem, BufferSlots(idx, MetasFor([]))) == WeightsOf([])
  {
  }

  lemma {:induction false} TensorInSlot(mem: Memory, idx: nat, ts: seq<Tensor>, k: nat)
    requires AllWellFormed(ts) && idx < |mem| && Stored(mem[idx], ts) && k < |ts|
    ensures var s := Slot(idx, Total(ts[..k], TensorSlot), MetaOf(ts[k]));
            SlotHolds(mem, s)
            && StoredWeight(mem, s) == Weight(ts[k].name, ts[k].itemsize, ts[k].shape, ts[k].bytes)
  {
    assert StoredAt(mem[idx], ts, k);
    AlignUpIsLeastMultiple(|ts[k].bytes|, 0);
    assert ts[..k + 1] == ts[..k] + [ts[k]];
    TotalSnoc(ts[..k], ts[k], TensorSlot);
    TotalAppend(ts[..k + 1], ts[k + 1..], TensorSlot);
    assert ts == ts[..k + 1] + ts[k + 1..];
  }

  // ----- the whole of `_normal_pin_memory`

  /** The metas of all buffers. */
  function BufferMetas(pieces: seq<seq<Tensor>>): (buffers: seq<seq<Meta>>)
    ensures |buffers| == |pieces|
  {
    if pieces == [] then [] else BufferMetas(pieces[..|pieces| - 1]) + [MetasFor(pieces[|pieces| - 1])]
  }

  lemma {:induction false} BufferMetasNext(pieces: seq<seq<Tensor>>, j: nat)
    requires j < |pieces|
    ensures BufferMetas(pieces[..j + 1]) == BufferMetas(pieces[..j]) + [MetasFor(pieces[j])]
  {
    assert pieces[..j + 1][..j] == pieces[..j];
  }

  /** Buffer `j` holds its tensors. */
  ghost predicate PieceStored(mem: Memory, pieces: seq<seq<Tensor>>, j: nat)
    requires j < |mem| && j < |pieces|
  {
    AllWellFormed(pieces[j]) && Stored(mem[j], pieces[j])
  }

  ghost predicate StoredAll(mem: Memory, pieces: seq<seq<Tensor>>)
  {
    |pieces| <= |mem| && forall j :: 0 <= j < |pieces| ==> PieceStored(mem, pieces, j)
  }

  lemma {:induction false} WellFormedParts(pieces: seq<seq<Tensor>>, j: nat)
    requires j < |pieces| && AllWellFormed(Concat(pieces))
    ensures AllWellFormed(pieces[j])
  {
    hide WellFormed;
    var first, rest := pieces[0], Concat(pieces[1..]);
    assert Concat(pieces)[..|first|] == first && Concat(pieces)[|first|..] == rest;
    if j > 0 {
      WellFormedParts(pieces[1..], j - 1);
    }
  }

  lemma {:induction false} OnePieceMore(mem: Memory, pieces: seq<seq<Tensor>>, contents: seq<Byte>)
    requires |mem| < |pieces| && StoredAll(mem, pieces[..|mem|])
    requires AllWellFormed(pieces[|mem|]) && Stored(contents, pieces[|mem|])
    ensures StoredAll(mem + [contents], pieces[..|mem| + 1])
  {
    hide AllWellFormed, Stored;
    var more := mem + [contents];
    forall j | 0 <= j < |more|
      ensures PieceStored(more, pieces[..|more|], j)
    {
      if j < |mem| {
        assert PieceStored(mem, pieces[..|mem|], j);
      }
    }
  }

  /** For every buffer, some order of the byte writes of its copy futures. */
  ghost predicate Interleavings(pieces: seq<seq<Tensor>>, orders: seq<seq<ByteCopy>>)
  {
    |orders| == |pieces| && forall j :: 0 <= j < |pieces| ==> Interleaving(pieces[j], orders[j])
  }

  /**
   `_normal_pin_memory`: pack, allocate the buffers and copy. Copies into different buffers do not
   touch each other, so an execution of all futures is one order of writes per buffer.
   */
  method NormalPinMemory(ts: seq<Tensor>, orders: seq<seq<ByteCopy>>) returns (buckets: seq<MemoryBucket>, mem: Memory)
    requires AllWellFormed(ts) && Interleavings(BufferTensors(ts), orders)
    ensures DescribesPieces(buckets, BufferTensors(ts))
    ensures |mem| == |BufferTensors(ts)| && StoredAll(mem, BufferTensors(ts))
  {
    hide AllWellFormed, Stored, Interleaving, StoredAll, BufferTensors, DescribesPieces, LargestSlot;
    buckets := PackTensors(ts);
    var pieces := BufferTensors(ts);
    EachTensorInOneBuffer(ts);
    mem := [];
    NoPieces(pieces);
    for j := 0 to |pieces|
      invariant |mem| == j && StoredAll(mem, pieces[..j])
    {
      WellFormedParts(pieces, j);
      var buffer := new Byte[Total(pieces[j], TensorSlot)];
      RunCopies(buffer, pieces[j], orders[j]);
      OnePieceMore(mem, pieces, buffer[..]);
      mem := mem + [buffer[..]];
    }
    assert pieces[..|pieces|] == pieces;
  }

  lemma {:induction false} NoPieces(pieces: seq<seq<Tensor>>)
    ensures StoredAll([], pieces[..0])
  {
  }
}
