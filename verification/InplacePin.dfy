/** Pinning a safetensors file in place: the walk over its header entries. */
module InplacePin {
  import opened Arithmetic
  import opened BucketSize
  import opened DataTypes
  import opened GreedyCut
  import opened Layout
  import opened LayoutFacts
  import opened PinMemory
  import opened Sequences
  import opened Transfer

  /** A header entry: the tensor is in the bytes from `start` to `start + size` of the file's data. */
  datatype HeaderEntry = HeaderEntry(name: string, itemsize: nat, shape: seq<nat>, start: nat, size: nat)

  function End(entries: seq<HeaderEntry>): nat
  {
    if entries == [] then 0 else entries[|entries| - 1].start + entries[|entries| - 1].size
  }

  /** Every entry starts where the one before it ends, the first at 0. */
  ghost predicate Contiguous(entries: seq<HeaderEntry>)
  {
    forall i :: 0 <= i < |entries| ==> StartsAtEnd(entries, i)
  }

  predicate StartsAtEnd(entries: seq<HeaderEntry>, i: nat)
    requires i < |entries|
  {
    entries[i].start == End(entries[..i])
  }

  lemma {:induction false} ContiguousNext(entries: seq<HeaderEntry>, k: nat)
    requires k < |entries|
    ensures Contiguous(entries[..k + 1]) <==> Contiguous(entries[..k]) && entries[k].start == End(entries[..k])
  {
    var more, less := entries[..k + 1], entries[..k];
    assert more[..k] == less;
    forall i | 0 <= i < k
      ensures StartsAtEnd(more, i) <==> StartsAtEnd(less, i)
    {
      assert more[..i] == less[..i];
    }
    assert StartsAtEnd(more, k) <==> entries[k].start == End(less);
  }

  function InplaceMeta(e: HeaderEntry): Meta
  {
    Meta(e.name, e.itemsize, e.shape, e.size)
  }

  function InplaceMetas(entries: seq<HeaderEntry>): (metas: seq<Meta>)
    ensures |metas| == |entries|
  {
    if entries == [] then []
    else InplaceMetas(entries[..|entries| - 1]) + [InplaceMeta(entries[|entries| - 1])]
  }

  lemma {:induction false} InplaceMetasNext(entries: seq<HeaderEntry>, k: nat)
    requires k < |entries|
    ensures InplaceMetas(entries[..k + 1]) == InplaceMetas(entries[..k]) + [InplaceMeta(entries[k])]
  {
    assert entries[..k + 1][..k] == entries[..k];
  }

  lemma {:induction false} ContiguousPrefix(entries: seq<HeaderEntry>, k: nat)
    requires k <= |entries| && Contiguous(entries)
    ensures Contiguous(entries[..k])
    decreases |entries| - k
  {
    if k == |entries| {
      assert entries[..k] == entries;
    } else {
      ContiguousPrefix(entries, k + 1);
      ContiguousNext(entries, k);
    }
  }

  lemma {:induction false} EmptyWalk(entries: seq<HeaderEntry>)
    ensures Contiguous(entries[..0]) && End(entries[..0]) == 0 && InplaceMetas(entries[..0]) == []
  {
  }

  /**
   The walk over the header entries in offset order. `None` when one of its two assertions fails:
   an entry does not start where the previous one ends, or the last does not end where the data does.
   */
  method WalkHeader(entries: seq<HeaderEntry>, dataSize: nat) returns (r: Option<seq<Meta>>)
    ensures r.Some? <==> Contiguous(entries) && End(entries) == dataSize
    ensures r.Some? ==> r.value == InplaceMetas(entries)
  {
    hide Contiguous, InplaceMetas;
    EmptyWalk(entries);
    var metas: seq<Meta>, offset := [], 0;
    for k := 0 to |entries|
      invariant Contiguous(entries[..k]) && offset == End(entries[..k])
      invariant metas == InplaceMetas(entries[..k])
    {
      ContiguousNext(entries, k);
      InplaceMetasNext(entries, k);
      var e := entries[k];
      if offset != e.start {
        NotContiguous(entries, k);
        return None;
      }
      metas := metas + [Meta(e.name, e.itemsize, e.shape, e.size)];
      offset := e.start + e.size;
    }
    assert entries[..|entries|] == entries;
    r := if offset == dataSize then Some(metas) else None;
  }

  lemma {:induction false} NotContiguous(entries: seq<HeaderEntry>, k: nat)
    requires k < |entries| && entries[k].start != End(entries[..k])
    ensures !Contiguous(entries)
  {
    assert !StartsAtEnd(entries, k);
  }

  /** After a successful walk the prefix sums of the sizes are the offsets in the file. */
  lemma {:induction false} WalkedOffsets(entries: seq<HeaderEntry>)
    requires Contiguous(entries)
    ensures Total(InplaceMetas(entries), AlignedSize) == End(entries)
  {
    if entries != [] {
      var n := |entries| - 1;
      ContiguousPrefix(entries, n);
      WalkedOffsets(entries[..n]);
      assert StartsAtEnd(entries, n);
      TotalSnoc(InplaceMetas(entries[..n]), InplaceMeta(entries[n]), AlignedSize);
    }
  }

  /** Where the tensors are in the file. */
  function Places(idx: nat, entries: seq<HeaderEntry>): seq<Slot>
  {
    if entries == [] then []
    else
      var e := entries[|entries| - 1];
      Places(idx, entries[..|entries| - 1]) + [Slot(idx, e.start, InplaceMeta(e))]
  }

  lemma {:induction false} PlacesNext(idx: nat, front: seq<HeaderEntry>, e: HeaderEntry)
    ensures Places(idx, front + [e]) == Places(idx, front) + [Slot(idx, e.start, InplaceMeta(e))]
    ensures InplaceMetas(front + [e]) == InplaceMetas(front) + [InplaceMeta(e)]
  {
    assert (front + [e])[..|front|] == front;
  }

  lemma {:induction false} FrontIsContiguous(front: seq<HeaderEntry>, e: HeaderEntry)
    requires Contiguous(front + [e])
    ensures Contiguous(front) && e.start == End(front)
  {
    ContiguousPrefix(front + [e], |front|);
    assert (front + [e])[..|front|] == front;
    assert StartsAtEnd(front + [e], |front|);
  }

  /** So the slots that the buckets are cut from are the tensors' places in the file. */
  lemma {:induction false} InplaceSlots(idx: nat, entries: seq<HeaderEntry>)
    requires Contiguous(entries)
    ensures BufferSlots(idx, InplaceMetas(entries)) == Places(idx, entries)
  {
    if entries != [] {
      hide *;
      var front, e := entries[..|entries| - 1], entries[|entries| - 1];
      assert entries == front + [e];
      FrontIsContiguous(front, e);
      InplaceSlots(idx, front);
      PlacesNext(idx, front, e);
      WalkedOffsets(front);
      BufferSlotsSnoc(idx, InplaceMetas(front), InplaceMeta(e));
    }
  }

  // ----- what a pinned file holds

  /** A file pinned in place: its header entries in offset order, and its data. */
  datatype PinnedFile = PinnedFile(entries: seq<HeaderEntry>, data: seq<Byte>)

  predicate EntryFits(e: HeaderEntry)
  {
    e.itemsize * Numel(e.shape) <= e.size
  }

  ghost predicate EntriesFit(entries: seq<HeaderEntry>)
  {
    forall i :: 0 <= i < |entries| ==> EntryFits(entries[i])
  }

  /** The walk over the file succeeds, and no tensor is larger than its place. */
  ghost predicate FileOk(f: PinnedFile)
  {
    Contiguous(f.entries) && End(f.entries) == |f.data| && EntriesFit(f.entries)
  }

  function Bytes(data: seq<Byte>, start: nat, size: nat): seq<Byte>
  {
    if start + size <= |data| then data[start..start + size] else []
  }

  function EntryWeight(e: HeaderEntry, data: seq<Byte>): Weight
  {
    Weight(e.name, e.itemsize, e.shape, Bytes(data, e.start, e.itemsize * Numel(e.shape)))
  }

  /** The parameters in the file. */
  function FileWeights(entries: seq<HeaderEntry>, data: seq<Byte>): (weights: seq<Weight>)
    ensures |weights| == |entries|
  {
    if entries == [] then []
    else FileWeights(entries[..|entries| - 1], data) + [EntryWeight(entries[|entries| - 1], data)]
  }

  lemma {:induction false} FileWeightsNext(front: seq<HeaderEntry>, e: HeaderEntry, data: seq<Byte>)
    ensures FileWeights(front + [e], data) == FileWeights(front, data) + [EntryWeight(e, data)]
  {
    assert (front + [e])[..|front|] == front;
  }

  /** Entry `i` is a parameter of the file, with the bytes at its offsets. */
  lemma {:induction false} FileWeightAt(entries: seq<HeaderEntry>, data: seq<Byte>, i: nat)
    requires i < |entries| && entries[i].start + entries[i].itemsize * Numel(entries[i].shape) <= |data|
    ensures var e := entries[i];
            FileWeights(entries, data)[i]
            == Weight(e.name, e.itemsize, e.shape, data[e.start..e.start + e.itemsize * Numel(e.shape)])
  {
    if i < |entries| - 1 {
      FileWeightAt(entries[..|entries| - 1], data, i);
    }
  }

  lemma {:induction false} EntryIsStored(mem: Memory, idx: nat, front: seq<HeaderEntry>, e: HeaderEntry)
    requires Contiguous(front + [e]) && idx < |mem| && End(front + [e]) <= |mem[idx]| && EntryFits(e)
    ensures e.start == End(front) <= |mem[idx]|
    ensures SlotHolds(mem, Slot(idx, e.start, InplaceMeta(e)))
    ensures StoredWeight(mem, Slot(idx, e.start, InplaceMeta(e))) == EntryWeight(e, mem[idx])
  {
    FrontIsContiguous(front, e);
  }

  lemma {:induction false} EntriesFitFront(front: seq<HeaderEntry>, e: HeaderEntry)
    requires EntriesFit(front + [e])
    ensures EntriesFit(front) && EntryFits(e)
  {
    hide EntryFits;
    assert (front + [e])[|front|] == e;
    assert forall i :: 0 <= i < |front| ==> (front + [e])[i] == front[i];
  }

  lemma {:induction false} NoEntriesHold(mem: Memory, idx: nat, data: seq<Byte>)
    ensures SlotsHold(mem, Places(idx, [])) && StoredWeights(mem, Places(idx, [])) == FileWeights([], data)
  {
  }

  /** A file that is pinned in place holds its parameters in the slots that the walk describes. */
  lemma {:induction false} FileHoldsTensors(mem: Memory, idx: nat, entries: seq<HeaderEntry>)
    requires Contiguous(entries) && idx < |mem| && End(entries) <= |mem[idx]| && EntriesFit(entries)
    ensures SlotsHold(mem, Places(idx, entries)) && StoredWeights(mem, Places(idx, entries)) == FileWeights(entries, mem[idx])
  {
    hide *;
    if entries == [] {
      NoEntriesHold(mem, idx, mem[idx]);
    } else {
      var front, e := entries[..|entries| - 1], entries[|entries| - 1];
      assert entries == front + [e];
      EntriesFitFront(front, e);
      EntryIsStored(mem, idx, front, e);
      FrontIsContiguous(front, e);
      FileHoldsTensors(mem, idx, front);
      PlacesNext(idx, front, e);
      FileWeightsNext(front, e, mem[idx]);
      OneSlotMore(mem, Places(idx, front), Slot(idx, e.start, InplaceMeta(e)));
    }
  }

  // ----- views of the file's tensors

  lemma {:induction false} MetasOfRun(entries: seq<HeaderEntry>, from: nat, until: nat)
    requires from <= until <= |entries|
    ensures InplaceMetas(entries[..until]) == InplaceMetas(entries[..from]) + InplaceMetas(entries[from..until])
    decreases until - from
  {
    hide InplaceMetas;
    if from == until {
      assert entries[from..until] == [] && InplaceMetas([]) == [];
      assert InplaceMetas(entries[..until]) + [] == InplaceMetas(entries[..until]);
    } else {
      MetasOfRun(entries, from, until - 1);
      InplaceMetasNext(entries, until - 1);
      assert entries[from..until] == entries[from..until - 1] + [entries[until - 1]];
      PlacesNext(0, entries[from..until - 1], entries[until - 1]);
      Associate(InplaceMetas(entries[..from]), InplaceMetas(entries[from..until - 1]), [InplaceMeta(entries[until - 1])]);
    }
  }

  lemma {:induction false} RunTotal(entries: seq<HeaderEntry>, from: nat, k: nat)
    requires Contiguous(entries) && from <= k < |entries|
    ensures entries[from].start + Total(InplaceMetas(entries[from..k]), AlignedSize) == entries[k].start
  {
    hide Contiguous, InplaceMetas, Total;
    ContiguousPrefix(entries, from);
    ContiguousPrefix(entries, k);
    WalkedOffsets(entries[..from]);
    WalkedOffsets(entries[..k]);
    StartsInOrder(entries, from);
    StartsInOrder(entries, k);
    MetasOfRun(entries, from, k);
    TotalAppend(InplaceMetas(entries[..from]), InplaceMetas(entries[from..k]), AlignedSize);
  }

  lemma {:induction false} StartsInOrder(entries: seq<HeaderEntry>, i: nat)
    requires Contiguous(entries) && i < |entries|
    ensures entries[i].start == End(entries[..i])
  {
    assert StartsAtEnd(entries, i);
  }

  /**
   A bucket with the entries `from..until` of a file gives the worker a view of entry `k` that is aligned
   to its item size if and only if the file offsets of the two entries differ by a multiple of it.
   */
  lemma {:induction false} ViewIsAlignedWhen(entries: seq<HeaderEntry>, from: nat, until: nat, k: nat, start: nat)
    requires Contiguous(entries) && from <= k < until <= |entries| && start % ALIGN_SIZE == 0
    requires entries[k].itemsize > 0 && ALIGN_SIZE % entries[k].itemsize == 0
    ensures entries[from].start <= entries[k].start
    ensures NamedTensors(InplaceMetas(entries[from..until]), start)[k - from].offset % entries[k].itemsize == 0
            <==> (entries[k].start - entries[from].start) % entries[k].itemsize == 0
  {
    hide *;
    var n := entries[k].itemsize;
    ViewOffset(entries, from, until, k, start);
    MultipleOfDivisor(start, n);
    RemainderOfSum(start, entries[k].start - entries[from].start, n);
  }

  lemma {:induction false} ViewOffset(entries: seq<HeaderEntry>, from: nat, until: nat, k: nat, start: nat)
    requires Contiguous(entries) && from <= k < until <= |entries|
    ensures entries[from].start <= entries[k].start
    ensures NamedTensors(InplaceMetas(entries[from..until]), start)[k - from].offset
         == start + (entries[k].start - entries[from].start)
  {
    hide Contiguous, Total, NamedTensors, InplaceMetas;
    var run := entries[from..until];
    RunTotal(entries, from, k);
    InplaceMetaAt(run, k - from);
    assert run[..k - from] == entries[from..k];
    NamedAt(InplaceMetas(run), start, k - from);
  }

  lemma {:induction false} InplaceMetaAt(entries: seq<HeaderEntry>, i: nat)
    requires i < |entries|
    ensures InplaceMetas(entries)[i] == InplaceMeta(entries[i]) && InplaceMetas(entries)[..i] == InplaceMetas(entries[..i])
  {
    if i < |entries| - 1 {
      InplaceMetaAt(entries[..|entries| - 1], i);
      assert entries[..|entries| - 1][..i] == entries[..i];
    }
  }

  /** Each bucket of an owner that pinned one file has the metas of a run of the file's entries. */
  lemma {:induction false} FileBucketIsRun(entries: seq<HeaderEntry>, cap: nat, j: nat)
    returns (from: nat, until: nat)
    requires j < |BucketsFor([InplaceMetas(entries)], cap)|
    ensures from <= until <= |entries|
    ensures BucketsFor([InplaceMetas(entries)], cap)[j].items == InplaceMetas(entries[from..until])
  {
    hide BucketsFor, Packed;
    var metas := InplaceMetas(entries);
    var part := BucketsFor([metas], cap);
    BucketsArePacked([metas], cap);
    BucketsPartitionOwner(part, [metas], cap);
    assert Concat([metas]) == metas by {
      ConcatSnoc([], metas);
      assert [] + [metas] == [metas];
    }
    from, until := ItemsOfBucket(part, j);
    MetasOfRun(entries, from, until);
    InplaceMetaAtAll(entries, until);
    InplaceMetaAtAll(entries, from);
  }

  lemma {:induction false} InplaceMetaAtAll(entries: seq<HeaderEntry>, n: nat)
    requires n <= |entries|
    ensures InplaceMetas(entries)[..n] == InplaceMetas(entries[..n])
  {
    if n < |entries| {
      InplaceMetaAt(entries, n);
    } else {
      assert entries[..n] == entries;
    }
  }

  /** A file with a one-byte tensor before an eight-byte one: the walk succeeds, the second view is not aligned. */
  lemma {:induction false} MisalignedInplaceView()
    ensures var entries := [HeaderEntry("a", 1, [1], 0, 1), HeaderEntry("b", 8, [1], 1, 8)];
            var part := BucketsFor([InplaceMetas(entries)], 256);
            && Contiguous(entries) && End(entries) == 9 && EntriesFit(entries)
            && |part| == 1 && part[0].items == InplaceMetas(entries)
            && NamedTensors(part[0].items, 0)[1].offset % 8 != 0
  {
    var entries := [HeaderEntry("a", 1, [1], 0, 1), HeaderEntry("b", 8, [1], 1, 8)];
    assert entries[..2] == entries;
    SmallFile(entries);
    OneBucket(entries, 256);
    ViewIsAlignedWhen(entries, 0, 2, 1, 0);
    assert entries[0..2] == entries;
  }

  lemma {:induction false} SmallFile(entries: seq<HeaderEntry>)
    requires entries == [HeaderEntry("a", 1, [1], 0, 1), HeaderEntry("b", 8, [1], 1, 8)]
    ensures Contiguous(entries) && End(entries) == 9 && EntriesFit(entries)
  {
    assert Numel([1]) == 1 * Numel([]);
    assert entries[..0] == [] && entries[..1] == [entries[0]];
  }

  /** A file of less than half the bucket size goes into one bucket. */
  lemma {:induction false} OneBucket(entries: seq<HeaderEntry>, cap: nat)
    requires Contiguous(entries) && 2 * End(entries) < cap
    ensures var part := BucketsFor([InplaceMetas(entries)], cap); |part| == 1 && part[0].items == InplaceMetas(entries)
  {
    hide BucketsFor, Packed, Contiguous, InplaceMetas;
    var metas := InplaceMetas(entries);
    var part := BucketsFor([metas], cap);
    BucketsArePacked([metas], cap);
    BucketsPartitionOwner(part, [metas], cap);
    BucketBound(part, [metas], cap);
    WalkedOffsets(entries);
    OneBufferCells(metas);
    if |part| > 1 {
      MulMonotone(1, |part| - 1, cap);
    }
    assert Concat([metas]) == metas by {
      ConcatSnoc([], metas);
      assert [] + [metas] == [metas];
    }
    assert part[..0] == [] && BucketItems([]) == [];
  }

  lemma {:induction false} OneBufferCells(metas: seq<Meta>)
    ensures |OwnerCells([metas])| == Total(metas, AlignedSize)
  {
    assert [metas][..0] == [];
  }
}
