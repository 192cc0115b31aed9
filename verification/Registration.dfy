/** What registering a checkpoint leaves in an owner's pinned memory, whichever way its tensors were pinned. */
module Registration {
  import opened BucketSize
  import opened DataTypes
  import opened GreedyCut
  import opened InplacePin
  import opened Layout
  import opened PinMemory
  import opened Sequences
  import opened Transfer

  /** A checkpoint: tensors to pin normally, in name order, and files to pin in place. */
  datatype Checkpoint = Checkpoint(tensors: seq<Tensor>, files: seq<PinnedFile>)

  /** The buffers of the tensors that are pinned normally, if there are any. */
  function NormalPieces(tensors: seq<Tensor>): seq<seq<Tensor>>
  {
    if tensors == [] then [] else BufferTensors(tensors)
  }

  function FileMetas(files: seq<PinnedFile>): (buffers: seq<seq<Meta>>)
    ensures |buffers| == |files|
  {
    if files == [] then [] else FileMetas(files[..|files| - 1]) + [InplaceMetas(files[|files| - 1].entries)]
  }

  /** The metas that the owner gathers for the checkpoint: first the normal buffers, then the files. */
  function CheckpointMetas(ck: Checkpoint): seq<seq<Meta>>
  {
    BufferMetas(NormalPieces(ck.tensors)) + FileMetas(ck.files)
  }

  function WeightsInFiles(files: seq<PinnedFile>): seq<Weight>
  {
    if files == [] then []
    else
      var f := files[|files| - 1];
      WeightsInFiles(files[..|files| - 1]) + FileWeights(f.entries, f.data)
  }

  /** The parameters of the checkpoint. */
  function CheckpointWeights(ck: Checkpoint): seq<Weight>
  {
    WeightsOf(ck.tensors) + WeightsInFiles(ck.files)
  }

  /** The entries of the first `n` files come first, `EntriesBefore` of them. */
  function EntriesBefore(files: seq<PinnedFile>, n: nat): nat
    requires n <= |files|
  {
    if n == 0 then 0 else EntriesBefore(files, n - 1) + |files[n - 1].entries|
  }

  lemma {:induction false} EntriesBeforePrefix(files: seq<PinnedFile>, m: nat, n: nat)
    requires n <= m <= |files|
    ensures EntriesBefore(files[..m], n) == EntriesBefore(files, n)
  {
    if n > 0 {
      EntriesBeforePrefix(files, m, n - 1);
    }
  }

  lemma {:induction false} WeightInFiles(files: seq<PinnedFile>, j: nat, i: nat)
    requires j < |files| && i < |files[j].entries|
    ensures |WeightsInFiles(files)| == EntriesBefore(files, |files|)
    ensures var at := EntriesBefore(files, j) + i;
            && at < |WeightsInFiles(files)|
            && WeightsInFiles(files)[at] == FileWeights(files[j].entries, files[j].data)[i]
  {
    hide FileWeights, EntriesBefore;
    var n := |files| - 1;
    WeightsInFilesCount(files);
    WeightsInFilesCount(files[..n]);
    EntriesBeforePrefix(files, n, n);
    if j < n {
      WeightInFiles(files[..n], j, i);
      EntriesBeforePrefix(files, n, j);
    }
  }

  lemma {:induction false} WeightsInFilesCount(files: seq<PinnedFile>)
    ensures |WeightsInFiles(files)| == EntriesBefore(files, |files|)
  {
    if files != [] {
      var n := |files| - 1;
      WeightsInFilesCount(files[..n]);
      EntriesBeforePrefix(files, n, n);
    }
  }

  /** The parameters are all tensors, then all entries of all files in order, and nothing else. */
  lemma {:induction false} CheckpointWeightsAreAll(ck: Checkpoint, k: nat, j: nat, i: nat)
    ensures |CheckpointWeights(ck)| == |ck.tensors| + EntriesBefore(ck.files, |ck.files|)
    ensures k < |ck.tensors| ==>
      var t := ck.tensors[k]; CheckpointWeights(ck)[k] == Weight(t.name, t.itemsize, t.shape, t.bytes)
    ensures j < |ck.files| && i < |ck.files[j].entries| && EntryInData(ck.files[j], i) ==>
      var e, at := ck.files[j].entries[i], |ck.tensors| + EntriesBefore(ck.files, j) + i;
      && at < |CheckpointWeights(ck)|
      && CheckpointWeights(ck)[at]
         == Weight(e.name, e.itemsize, e.shape, ck.files[j].data[e.start..e.start + e.itemsize * Numel(e.shape)])
  {
    WeightsInFilesCount(ck.files);
    if j < |ck.files| && i < |ck.files[j].entries| && EntryInData(ck.files[j], i) {
      WeightInFiles(ck.files, j, i);
      FileWeightAt(ck.files[j].entries, ck.files[j].data, i);
    }
  }

  predicate EntryInData(f: PinnedFile, i: nat)
    requires i < |f.entries|
  {
    f.entries[i].start + f.entries[i].itemsize * Numel(f.entries[i].shape) <= |f.data|
  }

  /** Buffer `n + j` of the memory is file `j`. */
  ghost predicate FilePinned(mem: Memory, n: nat, files: seq<PinnedFile>, j: nat)
    requires j < |files|
  {
    n + j < |mem| && mem[n + j] == files[j].data && FileOk(files[j])
  }

  ghost predicate FilesPinned(mem: Memory, n: nat, files: seq<PinnedFile>)
  {
    forall j :: 0 <= j < |files| ==> FilePinned(mem, n, files, j)
  }

  /** The memory is what registering the checkpoint leaves. */
  ghost predicate CheckpointStored(mem: Memory, ck: Checkpoint)
  {
    && StoredAll(mem, NormalPieces(ck.tensors))
    && FilesPinned(mem, |NormalPieces(ck.tensors)|, ck.files)
  }

  // ----- registration as the code does it

  ghost predicate TensorsFit(files: seq<PinnedFile>)
  {
    forall j :: 0 <= j < |files| ==> EntriesFit(files[j].entries)
  }

  lemma {:induction false} FileMetasNext(files: seq<PinnedFile>, j: nat)
    requires j < |files|
    ensures FileMetas(files[..j + 1]) == FileMetas(files[..j]) + [InplaceMetas(files[j].entries)]
  {
    assert files[..j + 1][..j] == files[..j];
  }

  function MetasOfBuckets(buckets: seq<MemoryBucket>): (buffers: seq<seq<Meta>>)
    ensures |buffers| == |buckets| && forall j :: 0 <= j < |buckets| ==> buffers[j] == buckets[j].metas
  {
    seq(|buckets|, j requires 0 <= j < |buckets| => buckets[j].metas)
  }

  lemma {:induction false} MetasOfPieces(buckets: seq<MemoryBucket>, pieces: seq<seq<Tensor>>)
    requires DescribesPieces(buckets, pieces)
    ensures MetasOfBuckets(buckets) == BufferMetas(pieces)
  {
    if buckets != [] {
      var n := |buckets| - 1;
      MetasOfPieces(buckets[..n], pieces[..n]);
      assert MetasOfBuckets(buckets) == MetasOfBuckets(buckets[..n]) + [buckets[n].metas];
    }
  }

  /**
   `_register_checkpoint` without shared memory: pin the tensors normally and walk the files. It
   fails if and only if the walk over some file fails.
   */
  method RegisterCheckpoint(ck: Checkpoint, orders: seq<seq<ByteCopy>>)
    returns (ok: bool, buffers: seq<seq<Meta>>, mem: Memory)
    requires AllWellFormed(ck.tensors) && Interleavings(NormalPieces(ck.tensors), orders) && TensorsFit(ck.files)
    ensures ok <==> forall j :: 0 <= j < |ck.files| ==> FileOk(ck.files[j])
    ensures ok ==> buffers == CheckpointMetas(ck) && CheckpointStored(mem, ck)
  {
    hide AllWellFormed, Interleavings, StoredAll, FileOk, BufferTensors, DescribesPieces, Contiguous, EntriesFit,
         InplaceMetas, FilesPinned, FileMetas, BufferMetas;
    buffers, mem := [], [];
    NothingPinned();
    if ck.tensors != [] {
      var buckets;
      buckets, mem := NormalPinMemory(ck.tensors, orders);
      MetasOfPieces(buckets, BufferTensors(ck.tensors));
      buffers := MetasOfBuckets(buckets);
    }
    var n := |mem|;
    ghost var normal := buffers;
    NoFilesYet(mem, n, ck.files, normal);
    for j := 0 to |ck.files|
      invariant |mem| == n + j && StoredAll(mem, NormalPieces(ck.tensors)) && n == |NormalPieces(ck.tensors)|
      invariant FilesPinned(mem, n, ck.files[..j])
      invariant buffers == normal + FileMetas(ck.files[..j])
      invariant forall i :: 0 <= i < j ==> FileOk(ck.files[i])
    {
      var file := ck.files[j];
      FileWalked(file);
      var r := WalkHeader(file.entries, |file.data|);
      if r.None? {
        return false, [], [];
      }
      FileMetasNext(ck.files, j);
      MoreMemory(mem, NormalPieces(ck.tensors), file.data);
      OneFileMore(mem, n, ck.files, j);
      buffers, mem := buffers + [r.value], mem + [file.data];
    }
    assert ck.files[..|ck.files|] == ck.files;
    ok := true;
  }

  lemma {:induction false} NoFilesYet(mem: Memory, n: nat, files: seq<PinnedFile>, buffers: seq<seq<Meta>>)
    ensures FilesPinned(mem, n, files[..0]) && buffers + FileMetas(files[..0]) == buffers
  {
  }

  lemma {:induction false} NothingPinned()
    ensures StoredAll([], []) && BufferMetas([]) == []
  {
  }

  lemma {:induction false} FileWalked(f: PinnedFile)
    requires EntriesFit(f.entries)
    ensures FileOk(f) <==> Contiguous(f.entries) && End(f.entries) == |f.data|
  {
  }

  lemma {:induction false} MoreMemory(mem: Memory, pieces: seq<seq<Tensor>>, data: seq<Byte>)
    requires StoredAll(mem, pieces)
    ensures StoredAll(mem + [data], pieces)
  {
    hide AllWellFormed, Stored;
    forall j | 0 <= j < |pieces|
      ensures PieceStored(mem + [data], pieces, j)
    {
      assert PieceStored(mem, pieces, j);
    }
  }

  lemma {:induction false} OneFileMore(mem: Memory, n: nat, files: seq<PinnedFile>, j: nat)
    requires j < |files| && |mem| == n + j && FilesPinned(mem, n, files[..j]) && FileOk(files[j])
    ensures FilesPinned(mem + [files[j].data], n, files[..j + 1])
  {
    hide FileOk;
    var more, some := mem + [files[j].data], files[..j + 1];
    forall i | 0 <= i < |some|
      ensures FilePinned(more, n, some, i)
    {
      if i < j {
        assert FilePinned(mem, n, files[..j], i);
      }
    }
  }

  // ----- what the owner's slots hold

  /** Buffer `idx` of the memory, cut into the slots of `metas`, holds the parameters `weights`. */
  ghost predicate BufferHolds(mem: Memory, idx: nat, metas: seq<Meta>, weights: seq<Weight>)
  {
    SlotsHold(mem, BufferSlots(idx, metas)) && StoredWeights(mem, BufferSlots(idx, metas)) == weights
  }

  /** All buffers together hold the parameters `weights`. */
  ghost predicate BuffersHold(mem: Memory, buffers: seq<seq<Meta>>, weights: seq<Weight>)
  {
    SlotsHold(mem, OwnerSlots(buffers)) && StoredWeights(mem, OwnerSlots(buffers)) == weights
  }

  /** Owner `o`'s pinned memory holds the parameters `weights`. */
  ghost predicate HoldsWeights(mem: Memory, o: OwnerMetas, weights: seq<Weight>)
  {
    BuffersHold(mem, o.buffers, weights)
  }

  lemma {:induction false} OneBufferMore(mem: Memory, buffers: seq<seq<Meta>>, weights: seq<Weight>,
                                         metas: seq<Meta>, more: seq<Weight>)
    requires BuffersHold(mem, buffers, weights) && BufferHolds(mem, |buffers|, metas, more)
    ensures BuffersHold(mem, buffers + [metas], weights + more)
  {
    hide SlotsHold, StoredWeights, OwnerSlots, BufferSlots;
    OwnerSlotsSnoc(buffers, metas);
    StoredWeightsAppend(mem, OwnerSlots(buffers), BufferSlots(|buffers|, metas));
  }

  lemma {:induction false} NothingHeld(mem: Memory)
    ensures BuffersHold(mem, BufferMetas([]), WeightsOf(Concat([])))
  {
  }

  lemma {:induction false} PieceHolds(mem: Memory, pieces: seq<seq<Tensor>>, j: nat)
    requires StoredAll(mem, pieces) && j < |pieces|
    ensures BufferHolds(mem, j, MetasFor(pieces[j]), WeightsOf(pieces[j]))
  {
    hide AllWellFormed, Stored, SlotsHold, StoredWeights, BufferSlots, MetasFor, WeightsOf;
    assert PieceStored(mem, pieces, j);
    BufferHoldsTensors(mem, j, pieces[j], |pieces[j]|);
    assert pieces[j][..|pieces[j]|] == pieces[j];
  }

  lemma {:induction false} PiecesHold(mem: Memory, pieces: seq<seq<Tensor>>, n: nat)
    requires StoredAll(mem, pieces) && n <= |pieces|
    ensures BuffersHold(mem, BufferMetas(pieces[..n]), WeightsOf(Concat(pieces[..n])))
  {
    hide *;
    if n == 0 {
      assert pieces[..n] == [];
      NothingHeld(mem);
    } else {
      PiecesHold(mem, pieces, n - 1);
      PieceHolds(mem, pieces, n - 1);
      BufferMetasNext(pieces, n - 1);
      assert pieces[..n] == pieces[..n - 1] + [pieces[n - 1]];
      ConcatSnoc(pieces[..n - 1], pieces[n - 1]);
      WeightsOfAppend(Concat(pieces[..n - 1]), pieces[n - 1]);
      OneBufferMore(mem, BufferMetas(pieces[..n - 1]), WeightsOf(Concat(pieces[..n - 1])),
                    MetasFor(pieces[n - 1]), WeightsOf(pieces[n - 1]));
    }
  }

  lemma {:induction false} TensorsHold(mem: Memory, tensors: seq<Tensor>)
    requires StoredAll(mem, NormalPieces(tensors))
    ensures BuffersHold(mem, BufferMetas(NormalPieces(tensors)), WeightsOf(tensors))
  {
    hide StoredAll, BuffersHold, BufferTensors, BufferMetas, WeightsOf;
    var pieces := NormalPieces(tensors);
    PiecesHold(mem, pieces, |pieces|);
    assert pieces[..|pieces|] == pieces;
    if tensors != [] {
      EachTensorInOneBuffer(tensors);
    }
  }

  lemma {:induction false} FileHolds(mem: Memory, n: nat, files: seq<PinnedFile>, j: nat)
    requires FilesPinned(mem, n, files) && j < |files|
    ensures BufferHolds(mem, n + j, InplaceMetas(files[j].entries), FileWeights(files[j].entries, files[j].data))
  {
    hide Contiguous, EntriesFit, SlotsHold, StoredWeights, BufferSlots, InplaceMetas;
    var f := files[j];
    assert FilePinned(mem, n, files, j);
    InplaceSlots(n + j, f.entries);
    FileHoldsTensors(mem, n + j, f.entries);
  }

  lemma {:induction false} WeightsInFilesNext(files: seq<PinnedFile>, j: nat)
    requires j < |files|
    ensures WeightsInFiles(files[..j + 1]) == WeightsInFiles(files[..j]) + FileWeights(files[j].entries, files[j].data)
  {
    assert files[..j + 1][..j] == files[..j];
  }

  lemma {:induction false} NoFiles(buffers: seq<seq<Meta>>, weights: seq<Weight>)
    ensures buffers + FileMetas([]) == buffers && weights + WeightsInFiles([]) == weights
  {
  }

  lemma {:induction false} FilesHold(mem: Memory, buffers: seq<seq<Meta>>, weights: seq<Weight>,
                                     files: seq<PinnedFile>, j: nat)
    requires BuffersHold(mem, buffers, weights) && FilesPinned(mem, |buffers|, files) && j <= |files|
    ensures BuffersHold(mem, buffers + FileMetas(files[..j]), weights + WeightsInFiles(files[..j]))
  {
    hide *;
    if j == 0 {
      assert files[..0] == [];
      NoFiles(buffers, weights);
    } else {
      var f := files[j - 1];
      FilesHold(mem, buffers, weights, files, j - 1);
      FileHolds(mem, |buffers|, files, j - 1);
      FileMetasNext(files, j - 1);
      WeightsInFilesNext(files, j - 1);
      OneBufferMore(mem, buffers + FileMetas(files[..j - 1]), weights + WeightsInFiles(files[..j - 1]),
                    InplaceMetas(f.entries), FileWeights(f.entries, f.data));
      Associate(buffers, FileMetas(files[..j - 1]), [InplaceMetas(f.entries)]);
      Associate(weights, WeightsInFiles(files[..j - 1]), FileWeights(f.entries, f.data));
    }
  }

  /** After registration the slots that buckets are cut from hold exactly the checkpoint's parameters, in order. */
  lemma {:induction false} RegistrationStoresWeights(owner: int, mem: Memory, ck: Checkpoint)
    requires CheckpointStored(mem, ck)
    ensures HoldsWeights(mem, OwnerMetas(owner, CheckpointMetas(ck)), CheckpointWeights(ck))
  {
    hide StoredAll, BuffersHold, NormalPieces, BufferMetas, WeightsOf, FilesPinned;
    TensorsHold(mem, ck.tensors);
    FilesHold(mem, BufferMetas(NormalPieces(ck.tensors)), WeightsOf(ck.tensors), ck.files, |ck.files|);
    assert ck.files[..|ck.files|] == ck.files;
  }

  // ----- sizes and alignment

  /** The memory has the sizes that the metas describe. */
  ghost predicate Sized(mem: Memory, buffers: seq<seq<Meta>>)
  {
    |buffers| <= |mem| && forall j :: 0 <= j < |buffers| ==> Total(buffers[j], AlignedSize) <= |mem[j]|
  }

  lemma {:induction false} OneBufferSized(mem: Memory, buffers: seq<seq<Meta>>, metas: seq<Meta>)
    requires Sized(mem, buffers) && |buffers| < |mem| && Total(metas, AlignedSize) <= |mem[|buffers|]|
    ensures Sized(mem, buffers + [metas])
  {
    hide Total;
  }

  lemma {:induction false} PieceSized(mem: Memory, pieces: seq<seq<Tensor>>, j: nat)
    requires StoredAll(mem, pieces) && j < |pieces|
    ensures |mem[j]| == Total(MetasFor(pieces[j]), AlignedSize)
  {
    hide AllWellFormed, MetasFor, Total;
    assert PieceStored(mem, pieces, j);
    MetasForTotal(pieces[j]);
  }

  lemma {:induction false} PiecesSized(mem: Memory, pieces: seq<seq<Tensor>>, n: nat)
    requires StoredAll(mem, pieces) && n <= |pieces|
    ensures Sized(mem, BufferMetas(pieces[..n]))
  {
    hide PieceStored, MetasFor, Total;
    if n > 0 {
      PiecesSized(mem, pieces, n - 1);
      PieceSized(mem, pieces, n - 1);
      BufferMetasNext(pieces, n - 1);
      OneBufferSized(mem, BufferMetas(pieces[..n - 1]), MetasFor(pieces[n - 1]));
    }
  }

  lemma {:induction false} FilesSized(mem: Memory, buffers: seq<seq<Meta>>, files: seq<PinnedFile>, j: nat)
    requires Sized(mem, buffers) && FilesPinned(mem, |buffers|, files) && j <= |files|
    ensures Sized(mem, buffers + FileMetas(files[..j]))
  {
    hide Sized, Contiguous, EntriesFit, InplaceMetas, Total;
    if j == 0 {
      assert files[..0] == [] && buffers + [] == buffers;
    } else {
      var f := files[j - 1];
      FilesSized(mem, buffers, files, j - 1);
      FileMetasNext(files, j - 1);
      assert FilePinned(mem, |buffers|, files, j - 1);
      WalkedOffsets(f.entries);
      OneBufferSized(mem, buffers + FileMetas(files[..j - 1]), InplaceMetas(f.entries));
      Associate(buffers, FileMetas(files[..j - 1]), [InplaceMetas(f.entries)]);
    }
  }

  /** The owner's buffers have the sizes that its metas describe. */
  lemma {:induction false} CheckpointSized(mem: Memory, ck: Checkpoint)
    requires CheckpointStored(mem, ck)
    ensures Sized(mem, CheckpointMetas(ck))
  {
    hide Sized, StoredAll, FilesPinned, NormalPieces, BufferMetas, FileMetas;
    var pieces := NormalPieces(ck.tensors);
    PiecesSized(mem, pieces, |pieces|);
    assert pieces[..|pieces|] == pieces;
    FilesSized(mem, BufferMetas(pieces), ck.files, |ck.files|);
    assert ck.files[..|ck.files|] == ck.files;
  }

  lemma {:induction false} MetasForAppend(a: seq<Tensor>, b: seq<Tensor>)
    ensures MetasFor(a + b) == MetasFor(a) + MetasFor(b)
    decreases |b|
  {
    hide MetasFor;
    if b == [] {
      assert a + b == a && MetasFor(b) == [];
    } else {
      var front, t := b[..|b| - 1], b[|b| - 1];
      MetasForAppend(a, front);
      MetasForSnoc(a + front, t);
      MetasForSnoc(front, t);
      assert b == front + [t];
      assert a + b == (a + front) + [t];
      Associate(MetasFor(a), MetasFor(front), [MetaOf(t)]);
    }
  }

  lemma {:induction false} MetasOfAllPieces(pieces: seq<seq<Tensor>>)
    ensures Concat(BufferMetas(pieces)) == MetasFor(Concat(pieces))
  {
    hide MetasFor;
    if pieces == [] {
      assert MetasFor([]) == [];
    } else {
      var front, last := pieces[..|pieces| - 1], pieces[|pieces| - 1];
      assert pieces == front + [last];
      MetasOfAllPieces(front);
      ConcatSnoc(front, last);
      ConcatSnoc(BufferMetas(front), MetasFor(last));
      MetasForAppend(Concat(front), last);
    }
  }

  /** Without in-place files all metas are aligned. */
  lemma {:induction false} NormalMetas(ck: Checkpoint)
    requires ck.files == []
    ensures AllAligned(Concat(CheckpointMetas(ck))) && AllFit(Concat(CheckpointMetas(ck)))
  {
    hide AllAligned, AllFit, MetasFor, BufferTensors, BufferMetas;
    var pieces := NormalPieces(ck.tensors);
    MetasOfAllPieces(pieces);
    assert CheckpointMetas(ck) == BufferMetas(pieces);
    if ck.tensors == [] {
      assert Concat<Tensor>([]) == [];
    } else {
      EachTensorInOneBuffer(ck.tensors);
    }
    PinnedMetasAreAligned(ck.tensors);
  }
}
