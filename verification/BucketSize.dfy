/** Choosing the bucket size: it fits every parameter and the memory of every rank. */
module BucketSize {
  import opened Arithmetic
  import opened DataTypes
  import opened GreedyCut
  import opened Layout
  import opened PinMemory
  import opened Sequences
  import opened Transfer

  datatype Detected = Detected(bucketSize: nat, disableH2D: bool)

  /** The all-reduce with operation MIN. */
  function AllReduceMin(values: seq<nat>): (least: nat)
    requires values != []
    ensures least in values && forall i :: 0 <= i < |values| ==> least <= values[i]
  {
    if |values| == 1 then values[0]
    else
      var before := AllReduceMin(values[..|values| - 1]);
      var last := values[|values| - 1];
      if last < before then last else before
  }

  function Max(a: nat, b: nat): nat
  {
    if a < b then b else a
  }

  function LargestMeta(metas: seq<Meta>): nat
  {
    if metas == [] then 0 else Max(LargestMeta(metas[..|metas| - 1]), metas[|metas| - 1].alignedSize)
  }

  function LargestInBuffers(buffers: seq<seq<Meta>>): nat
  {
    if buffers == [] then 0 else Max(LargestInBuffers(buffers[..|buffers| - 1]), LargestMeta(buffers[|buffers| - 1]))
  }

  /** The largest aligned size of all registered parameters. */
  function Largest(owners: seq<OwnerMetas>): nat
  {
    if owners == [] then 0 else Max(Largest(owners[..|owners| - 1]), LargestInBuffers(owners[|owners| - 1].buffers))
  }

  lemma {:induction false} LargestMetaNext(metas: seq<Meta>, i: nat)
    requires i < |metas|
    ensures LargestMeta(metas[..i + 1]) == Max(LargestMeta(metas[..i]), metas[i].alignedSize)
  {
    assert metas[..i + 1][..i] == metas[..i];
  }

  lemma {:induction false} LargestInBuffersNext(buffers: seq<seq<Meta>>, i: nat)
    requires i < |buffers|
    ensures LargestInBuffers(buffers[..i + 1]) == Max(LargestInBuffers(buffers[..i]), LargestMeta(buffers[i]))
  {
    assert buffers[..i + 1][..i] == buffers[..i];
  }

  lemma {:induction false} LargestNext(owners: seq<OwnerMetas>, i: nat)
    requires i < |owners|
    ensures Largest(owners[..i + 1]) == Max(Largest(owners[..i]), LargestInBuffers(owners[i].buffers))
  {
    assert owners[..i + 1][..i] == owners[..i];
  }

  // ----- the largest size is one that every bucket size must reach

  lemma {:induction false} MetaWithinLargest(metas: seq<Meta>, m: Meta)
    requires m in metas
    ensures m.alignedSize <= LargestMeta(metas)
  {
    if m != metas[|metas| - 1] {
      MetaWithinLargest(metas[..|metas| - 1], m);
    }
  }

  lemma {:induction false} OwnerWithinLargest(owners: seq<OwnerMetas>, o: OwnerMetas)
    requires o in owners
    ensures LargestInBuffers(o.buffers) <= Largest(owners)
  {
    if o != owners[|owners| - 1] {
      OwnerWithinLargest(owners[..|owners| - 1], o);
    }
  }

  /** No registered parameter is larger. */
  lemma {:induction false} NoneIsLarger(owners: seq<OwnerMetas>, k: nat, j: nat, i: nat)
    requires k < |owners| && j < |owners[k].buffers| && i < |owners[k].buffers[j]|
    ensures owners[k].buffers[j][i].alignedSize <= Largest(owners)
  {
    OwnerWithinLargest(owners, owners[k]);
    BufferWithinOwner(owners[k].buffers, j);
    MetaWithinLargest(owners[k].buffers[j], owners[k].buffers[j][i]);
  }

  lemma {:induction false} BufferWithinOwner(buffers: seq<seq<Meta>>, j: nat)
    requires j < |buffers|
    ensures LargestMeta(buffers[j]) <= LargestInBuffers(buffers)
  {
    if j < |buffers| - 1 {
      BufferWithinOwner(buffers[..|buffers| - 1], j);
    }
  }

  /** Some registered parameter is as large. */
  lemma {:induction false} SomeIsLargest(owners: seq<OwnerMetas>) returns (k: nat, j: nat, i: nat)
    requires Largest(owners) > 0
    ensures k < |owners| && j < |owners[k].buffers| && i < |owners[k].buffers[j]|
    ensures owners[k].buffers[j][i].alignedSize == Largest(owners)
  {
    var n := |owners| - 1;
    if Largest(owners) == Largest(owners[..n]) {
      k, j, i := SomeIsLargest(owners[..n]);
    } else {
      k := n;
      j, i := SomeInBuffers(owners[n].buffers);
    }
  }

  lemma {:induction false} SomeInBuffers(buffers: seq<seq<Meta>>) returns (j: nat, i: nat)
    requires LargestInBuffers(buffers) > 0
    ensures j < |buffers| && i < |buffers[j]| && buffers[j][i].alignedSize == LargestInBuffers(buffers)
  {
    var n := |buffers| - 1;
    if LargestInBuffers(buffers) == LargestInBuffers(buffers[..n]) {
      j, i := SomeInBuffers(buffers[..n]);
    } else {
      j := n;
      i := SomeMeta(buffers[n]);
    }
  }

  lemma {:induction false} SomeMeta(metas: seq<Meta>) returns (i: nat)
    requires LargestMeta(metas) > 0
    ensures i < |metas| && metas[i].alignedSize == LargestMeta(metas)
  {
    var n := |metas| - 1;
    if LargestMeta(metas) == LargestMeta(metas[..n]) {
      i := SomeMeta(metas[..n]);
    } else {
      i := n;
    }
  }

  lemma {:induction false} SlotOfMeta(idx: nat, metas: seq<Meta>, i: nat)
    requires i < |metas|
    ensures BufferSlots(idx, metas)[i].meta == metas[i]
  {
    if i < |metas| - 1 {
      SlotOfMeta(idx, metas[..|metas| - 1], i);
    }
  }

  lemma {:induction false} BufferFits(idx: nat, metas: seq<Meta>, cap: nat)
    requires LargestMeta(metas) <= cap
    ensures SizesFit(BufferSlots(idx, metas), SlotSize, cap)
  {
    forall i | 0 <= i < |metas|
      ensures SlotSize(BufferSlots(idx, metas)[i]) <= cap
    {
      SlotOfMeta(idx, metas, i);
      MetaWithinLargest(metas, metas[i]);
    }
  }

  lemma {:induction false} OwnerFits(buffers: seq<seq<Meta>>, cap: nat)
    requires LargestInBuffers(buffers) <= cap
    ensures SizesFit(OwnerSlots(buffers), SlotSize, cap)
  {
    if buffers != [] {
      var n := |buffers| - 1;
      OwnerFits(buffers[..n], cap);
      BufferFits(n, buffers[n], cap);
    }
  }

  /** A bucket size of at least the largest aligned size lets every owner's metas fit. */
  lemma {:induction false} LargestFits(owners: seq<OwnerMetas>, k: nat, cap: nat)
    requires k < |owners| && Largest(owners) <= cap
    ensures MetasFit(owners[k], cap)
  {
    OwnerWithinLargest(owners, owners[k]);
    OwnerFits(owners[k].buffers, cap);
  }

  // ----- the budget

  /** The budget for one of `parts` equal device buffers. */
  function Budget(free: nat, parts: nat): nat
    requires parts > 0
  {
    free / (parts * ALIGN_SIZE) * ALIGN_SIZE
  }

  /** With the h2d buffer three buffers of the bucket size are allocated, without it two. */
  function Buffers(disableH2D: bool): nat
  {
    if disableH2D then 2 else 3
  }

  /** The budget is the greatest multiple of 256 that fits. */
  lemma {:induction false} BudgetIsGreatest(free: nat, disableH2D: bool, x: nat)
    ensures var parts, b := Buffers(disableH2D), Budget(free, Buffers(disableH2D));
            && b % ALIGN_SIZE == 0 && parts * b <= free
            && (x % ALIGN_SIZE == 0 && parts * x <= free ==> x <= b)
  {
    if disableH2D {
      var q := free / 512;
      assert Budget(free, 2) == q * 256;
    } else {
      var q := free / 768;
      assert Budget(free, 3) == q * 256;
    }
  }

  /** The largest parameter, by the three nested loops over the gathered metas. */
  method MaxTensorBytes(owners: seq<OwnerMetas>) returns (largest: nat)
    ensures largest == Largest(owners)
  {
    largest := 0;
    for i := 0 to |owners|
      invariant largest == Largest(owners[..i])
    {
      var buffers := owners[i].buffers;
      for j := 0 to |buffers|
        invariant largest == Max(Largest(owners[..i]), LargestInBuffers(buffers[..j]))
      {
        var metas := buffers[j];
        for k := 0 to |metas|
          invariant largest == Max(Max(Largest(owners[..i]), LargestInBuffers(buffers[..j])), LargestMeta(metas[..k]))
        {
          LargestMetaNext(metas, k);
          largest := Max(largest, metas[k].alignedSize);
        }
        LargestInBuffersNext(buffers, j);
        assert metas[..|metas|] == metas;
      }
      LargestNext(owners, i);
      assert buffers[..|buffers|] == buffers;
    }
    assert owners[..|owners|] == owners;
  }

  /**
   The bucket size, and whether the h2d buffer is given up, for `free` reduced bytes and a configured
   maximum. `None` stands for the assertion error.
   */
  function DetectedSize(free: nat, owners: seq<OwnerMetas>, disableH2D: bool, maxBytes: nat): Option<Detected>
  {
    var disable := disableH2D || Largest(owners) > Budget(free, 3);
    if disable && Largest(owners) > Budget(free, 2) then None
    else
      Some(Detected(Min(Max(maxBytes, Largest(owners)), Budget(free, Buffers(disable))), disable))
  }

  function Min(a: nat, b: nat): nat
  {
    if a < b then a else b
  }

  /** `_detect_bucket_size` after the all-reduce, with `maxBytes` from the environment. */
  method DetectBucketSize(free: nat, owners: seq<OwnerMetas>, disableH2D: bool, maxBytes: nat)
    returns (r: Option<Detected>)
    ensures r == DetectedSize(free, owners, disableH2D, maxBytes)
  {
    var largest := MaxTensorBytes(owners);
    var third := free / (3 * ALIGN_SIZE) * ALIGN_SIZE;
    var budget, disable := third, disableH2D;
    if largest > third || disableH2D {
      budget := free / (2 * ALIGN_SIZE) * ALIGN_SIZE;
      if largest > budget {
        return None;
      }
      disable := true;
    }
    var wanted := Max(maxBytes, largest);
    r := Some(Detected(if wanted < budget then wanted else budget, disable));
  }

  /**
   The size is found unless even two buffers of the largest parameter do not fit. It reaches the
   largest parameter, and as many buffers of it as are allocated fit into the free memory.
   */
  lemma {:induction false} DetectedSizeFits(free: nat, owners: seq<OwnerMetas>, disableH2D: bool, maxBytes: nat)
    ensures var r := DetectedSize(free, owners, disableH2D, maxBytes);
            && (r.None? <==> Largest(owners) > Budget(free, 2))
            && (r.Some? ==> Largest(owners) <= r.value.bucketSize
                            && Buffers(r.value.disableH2D) * r.value.bucketSize <= free
                            && (disableH2D ==> r.value.disableH2D))
  {
    BudgetIsGreatest(free, false, 0);
    BudgetIsGreatest(free, true, Budget(free, 3));
  }

  /** It is as large as the configuration and the memory allow. */
  lemma {:induction false} DetectedSizeIsGreatest(free: nat, owners: seq<OwnerMetas>, disableH2D: bool, maxBytes: nat,
                                                  x: nat)
    requires DetectedSize(free, owners, disableH2D, maxBytes).Some?
    requires x % ALIGN_SIZE == 0 && Largest(owners) <= x <= maxBytes
    requires Buffers(disableH2D) * x <= free
    ensures x <= DetectedSize(free, owners, disableH2D, maxBytes).value.bucketSize
    ensures !disableH2D ==> !DetectedSize(free, owners, disableH2D, maxBytes).value.disableH2D
  {
    BudgetIsGreatest(free, disableH2D, x);
  }

  /**
   Exactly which size: `wanted` is the configured maximum or, if that is larger, the largest
   parameter. It is taken if the two or three buffers fit, else the greatest multiple of 256 that fits. The
   h2d buffer is given up only if that is configured or three buffers of the largest parameter do not fit.
   */
  lemma {:induction false} DetectedSizeIsExact(free: nat, owners: seq<OwnerMetas>, disableH2D: bool, maxBytes: nat,
                                               wanted: nat)
    requires maxBytes <= wanted && Largest(owners) <= wanted && (wanted == maxBytes || wanted == Largest(owners))
    ensures var r := DetectedSize(free, owners, disableH2D, maxBytes);
            && (r.None? <==> 2 * AlignUp(Largest(owners)) > free)
            && (r.Some? ==>
                  var size, parts := r.value.bucketSize, if r.value.disableH2D then 2 else 3;
                  && (r.value.disableH2D <==> disableH2D || 3 * AlignUp(Largest(owners)) > free)
                  && size <= wanted && parts * size <= free
                  && (size < wanted ==> size % 256 == 0 && parts * (size + 256) > free))
  {
    hide Largest, Budget, AlignUp;
    var largest := Largest(owners);
    AlignUpIsLeastMultiple(largest, Budget(free, 2));
    AlignUpIsLeastMultiple(largest, Budget(free, 3));
    BudgetIsGreatest(free, true, AlignUp(largest));
    BudgetIsGreatest(free, false, AlignUp(largest));
    BudgetIsGreatest(free, true, Budget(free, 2) + 256);
    BudgetIsGreatest(free, false, Budget(free, 3) + 256);
  }

  /** For an integral number of GiB and aligned parameters it is a multiple of 256. */
  lemma {:induction false} DetectedSizeIsAligned(free: nat, owners: seq<OwnerMetas>, disableH2D: bool, maxBytes: nat)
    requires DetectedSize(free, owners, disableH2D, maxBytes).Some?
    requires maxBytes % ALIGN_SIZE == 0 && Largest(owners) % ALIGN_SIZE == 0
    ensures DetectedSize(free, owners, disableH2D, maxBytes).value.bucketSize % ALIGN_SIZE == 0
  {
    BudgetIsGreatest(free, true, 0);
    BudgetIsGreatest(free, false, 0);
  }

  /** What a rank allocates stays within what every rank of the group has free. */
  lemma {:induction false} AllocationFitsEveryRank(frees: seq<nat>, d: Detected, r: nat)
    requires frees != [] && r < |frees| && Buffers(d.disableH2D) * d.bucketSize <= AllReduceMin(frees)
    ensures if d.disableH2D then d.bucketSize * 2 <= frees[r] else d.bucketSize + d.bucketSize * 2 <= frees[r]
  {
  }

  // ----- alignment of what the worker reads

  ghost predicate AllAligned(metas: seq<Meta>)
  {
    forall i :: 0 <= i < |metas| ==> metas[i].alignedSize % ALIGN_SIZE == 0
  }

  /** Every tensor fits in its slot. */
  ghost predicate AllFit(metas: seq<Meta>)
  {
    forall i :: 0 <= i < |metas| ==> NBytes(metas[i]) <= metas[i].alignedSize
  }

  lemma {:induction false} SomeAligned(metas: seq<Meta>, from: nat, until: nat)
    requires AllAligned(metas) && AllFit(metas) && from <= until <= |metas|
    ensures AllAligned(metas[from..until]) && AllFit(metas[from..until])
  {
    hide NBytes;
    assert forall i :: 0 <= i < until - from ==> metas[from..until][i] == metas[from + i];
  }

  lemma {:induction false} AlignedLargestMeta(metas: seq<Meta>)
    requires AllAligned(metas)
    ensures LargestMeta(metas) % ALIGN_SIZE == 0
  {
    if metas != [] {
      AlignedLargestMeta(metas[..|metas| - 1]);
    }
  }

  /** The largest of aligned sizes is aligned. */
  lemma {:induction false} AlignedLargest(buffers: seq<seq<Meta>>)
    requires AllAligned(Concat(buffers))
    ensures LargestInBuffers(buffers) % ALIGN_SIZE == 0
  {
    hide LargestMeta;
    if buffers != [] {
      var front, last := buffers[..|buffers| - 1], buffers[|buffers| - 1];
      assert buffers == front + [last];
      ConcatSnoc(front, last);
      AlignedParts(Concat(front), last);
      AlignedLargest(front);
      AlignedLargestMeta(last);
    }
  }

  lemma {:induction false} AlignedParts(a: seq<Meta>, b: seq<Meta>)
    requires AllAligned(a + b)
    ensures AllAligned(a) && AllAligned(b)
  {
    assert forall i :: 0 <= i < |a| ==> (a + b)[i] == a[i];
    assert forall i :: 0 <= i < |b| ==> (a + b)[|a| + i] == b[i];
  }

  lemma {:induction false} AlignedTotal(metas: seq<Meta>)
    requires AllAligned(metas)
    ensures Total(metas, AlignedSize) % ALIGN_SIZE == 0
  {
    if metas != [] {
      AlignedTotal(metas[..|metas| - 1]);
    }
  }

  /** Normally pinned parameters have aligned slots. */
  lemma {:induction false} PinnedMetasAreAligned(ts: seq<Tensor>)
    ensures AllAligned(MetasFor(ts)) && AllFit(MetasFor(ts))
  {
    if ts != [] {
      PinnedMetasAreAligned(ts[..|ts| - 1]);
      AlignUpIsLeastMultiple(ts[|ts| - 1].itemsize * Numel(ts[|ts| - 1].shape), 0);
    }
  }

  lemma {:induction false} NamedAt(metas: seq<Meta>, start: nat, k: nat)
    requires k < |metas|
    ensures NamedTensors(metas, start)[k]
         == Named(metas[k].name, metas[k].itemsize, metas[k].shape, start + Total(metas[..k], AlignedSize))
  {
    if k < |metas| - 1 {
      NamedAt(metas[..|metas| - 1], start, k);
      assert metas[..|metas| - 1][..k] == metas[..k];
    }
  }

  lemma {:induction false} MultipleOfDivisor(offset: nat, itemsize: nat)
    requires itemsize > 0 && offset % ALIGN_SIZE == 0 && ALIGN_SIZE % itemsize == 0
    ensures offset % itemsize == 0
  {
    var a, b := offset / ALIGN_SIZE, ALIGN_SIZE / itemsize;
    ProductOfQuotients(offset, a, b, itemsize);
    QuotientIsUnique(offset, itemsize, a * b, 0);
  }

  lemma {:induction false} ProductOfQuotients(x: nat, a: nat, b: nat, n: nat)
    requires x == a * ALIGN_SIZE && b * n == ALIGN_SIZE
    ensures x == (a * b) * n
  {
    assert a * (b * n) == (a * b) * n;
  }

  /**
   The worker's view of item `k` of the bucket at `gidx` is aligned to 256 bytes and to its item size,
   and ends inside its slot and inside the double buffer.
   */
  ghost predicate LegalView(metas: seq<Meta>, bucketSize: nat, gidx: nat, k: nat)
    requires k < |metas| && metas[k].itemsize > 0
  {
    var n, start := NamedTensors(metas, gidx % 2 * bucketSize)[k], gidx % 2 * bucketSize;
    && n.offset % ALIGN_SIZE == 0 && n.offset % metas[k].itemsize == 0
    && n.offset + NamedBytes(n) <= start + Total(metas[..k + 1], AlignedSize) <= 2 * bucketSize
  }

  /**
   Typed views are legal: with aligned slots and an aligned bucket size, every payload offset, in
   either half, is a multiple of 256 and so of the item size, and the slice ends inside its slot
   and inside the double buffer.
   */
  lemma {:induction false} ViewsAreLegal(metas: seq<Meta>, bucketSize: nat, gidx: nat, k: nat)
    requires AllAligned(metas) && bucketSize % ALIGN_SIZE == 0 && Total(metas, AlignedSize) <= bucketSize
    requires k < |metas| && NBytes(metas[k]) <= metas[k].alignedSize
    requires metas[k].itemsize > 0 && ALIGN_SIZE % metas[k].itemsize == 0
    ensures LegalView(metas, bucketSize, gidx, k)
  {
    var start := gidx % 2 * bucketSize;
    HalfStart(gidx, bucketSize);
    ViewAt(metas, start, k);
    PrefixTotal(metas, k + 1);
  }

  lemma {:induction false} HalfStart(gidx: nat, bucketSize: nat)
    ensures gidx % 2 * bucketSize == if gidx % 2 == 0 then 0 else bucketSize
  {
  }

  lemma {:induction false} ViewAt(metas: seq<Meta>, start: nat, k: nat)
    requires AllAligned(metas) && start % ALIGN_SIZE == 0
    requires k < |metas| && NBytes(metas[k]) <= metas[k].alignedSize
    requires metas[k].itemsize > 0 && ALIGN_SIZE % metas[k].itemsize == 0
    ensures var n := NamedTensors(metas, start)[k];
            && n.offset % ALIGN_SIZE == 0 && n.offset % metas[k].itemsize == 0
            && n.offset + NamedBytes(n) <= start + Total(metas[..k + 1], AlignedSize)
  {
    NamedAt(metas, start, k);
    AlignedTotal(metas[..k]);
    assert metas[..k + 1] == metas[..k] + [metas[k]];
    TotalSnoc(metas[..k], metas[k], AlignedSize);
    MultipleOfDivisor(start + Total(metas[..k], AlignedSize), metas[k].itemsize);
  }

  lemma {:induction false} RemainderOfSum(a: nat, b: nat, n: nat)
    requires n > 0 && a % n == 0
    ensures (a + b) % n == b % n
  {
    var p, q := a / n, b / n;
    assert a + b == p * n + q * n + b % n;
    assert p * n + q * n == (p + q) * n;
    QuotientIsUnique(a + b, n, p + q, b % n);
  }
}
