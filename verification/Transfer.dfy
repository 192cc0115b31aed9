/** Moving a bucket's bytes into a device buffer and reading the parameters back out of it. */
module Transfer {
  import opened DataTypes
  import opened GreedyCut
  import opened Layout
  import opened LayoutFacts

  newtype Byte = x: int | 0 <= x < 256

  /** The contents of an owner's pinned memory buffers. */
  type Memory = seq<seq<Byte>>

  function ByteAt(mem: Memory, c: Cell): Byte
  {
    if c.idx < |mem| && c.at < |mem[c.idx]| then mem[c.idx][c.at] else 0
  }

  function ReadCells(mem: Memory, cells: seq<Cell>): (bytes: seq<Byte>)
    ensures |bytes| == |cells|
    ensures forall p :: 0 <= p < |cells| ==> bytes[p] == ByteAt(mem, cells[p])
  {
    seq(|cells|, p requires 0 <= p < |cells| => ByteAt(mem, cells[p]))
  }

  lemma {:induction false} ReadCellsAppend(mem: Memory, a: seq<Cell>, b: seq<Cell>)
    ensures ReadCells(mem, a + b) == ReadCells(mem, a) + ReadCells(mem, b)
  {
  }

  lemma {:induction false} ReadRange(mem: Memory, idx: nat, offset: nat, size: nat)
    requires idx < |mem| && offset + size <= |mem[idx]|
    ensures ReadCells(mem, Cells(idx, offset, size)) == mem[idx][offset..offset + size]
  {
  }

  /** What a bucket carries, given the owner's memory. */
  function BucketBytes(mem: Memory, b: H2DBucket): seq<Byte>
  {
    ReadCells(mem, RangeCells(b.ranges))
  }

  ghost predicate Readable(mem: Memory, ranges: seq<Range>)
  {
    forall i :: 0 <= i < |ranges| ==> ranges[i].idx < |mem| && ranges[i].offset + ranges[i].size <= |mem[ranges[i].idx]|
  }

  // ----- copying a bucket from local pinned memory

  /** `buffer[at..]` receives `source`, everything else stays. */
  method CopyBytes(source: seq<Byte>, buffer: array<Byte>, at: nat)
    requires at + |source| <= buffer.Length
    modifies buffer
    ensures buffer[..] == old(buffer[..at]) + source + old(buffer[at + |source|..])
  {
    for j := 0 to |source|
      invariant buffer[..] == old(buffer[..at]) + source[..j] + old(buffer[at + j..])
    {
      buffer[at + j] := source[j];
      assert source[..j + 1] == source[..j] + [source[j]];
    }
    assert source[..|source|] == source;
  }

  lemma {:induction false} PrefixRangeTotal(ranges: seq<Range>, i: nat)
    requires i <= |ranges|
    ensures RangeTotal(ranges[..i]) <= RangeTotal(ranges)
    decreases |ranges| - i
  {
    if i < |ranges| {
      assert ranges[..i + 1][..i] == ranges[..i];
      PrefixRangeTotal(ranges, i + 1);
    } else {
      assert ranges[..i] == ranges;
    }
  }

  /** The buffer with `bytes` written at `start`. */
  function Written(before: seq<Byte>, start: nat, bytes: seq<Byte>): seq<Byte>
    requires start + |bytes| <= |before|
  {
    before[..start] + bytes + before[start + |bytes|..]
  }

  lemma {:induction false} WrittenNothing(before: seq<Byte>, start: nat)
    requires start <= |before|
    ensures Written(before, start, []) == before
  {
  }

  lemma {:induction false} WriteMore(before: seq<Byte>, start: nat, a: seq<Byte>, b: seq<Byte>)
    requires start + |a| + |b| <= |before|
    ensures Written(Written(before, start, a), start + |a|, b) == Written(before, start, a + b)
  {
  }

  lemma {:induction false} RangesSnoc(mem: Memory, ranges: seq<Range>, i: nat)
    requires i < |ranges| && Readable(mem, ranges)
    ensures var r := ranges[i];
            && ReadCells(mem, RangeCells(ranges[..i + 1]))
               == ReadCells(mem, RangeCells(ranges[..i])) + mem[r.idx][r.offset..r.offset + r.size]
            && RangeTotal(ranges[..i + 1]) == RangeTotal(ranges[..i]) + r.size
            && |RangeCells(ranges[..i])| == RangeTotal(ranges[..i])
  {
    var r := ranges[i];
    assert ranges[..i + 1] == ranges[..i] + [r];
    assert ranges[..i + 1][..i] == ranges[..i];
    RangeCellsSnoc(ranges[..i], r);
    ReadCellsAppend(mem, RangeCells(ranges[..i]), Cells(r.idx, r.offset, r.size));
    ReadRange(mem, r.idx, r.offset, r.size);
    RangeCellsLength(ranges[..i]);
  }

  /**
   `_copy_to_buffer` without an owner: copy the ranges one after another to `start`. The result
   is false when one of the two size assertions fires.
   */
  method CopyToBuffer(mem: Memory, b: H2DBucket, buffer: array<Byte>, start: nat) returns (ok: bool)
    requires start + b.size <= buffer.Length && Readable(mem, b.ranges)
    modifies buffer
    ensures ok <==> RangeTotal(b.ranges) == b.size
    ensures ok ==> |BucketBytes(mem, b)| == b.size
                   && buffer[..] == Written(old(buffer[..]), start, BucketBytes(mem, b))
  {
    hide RangeCells, RangeTotal, ReadCells, Readable;
    var offset := 0;
    ghost var before := buffer[..];
    ghost var done: seq<Byte> := [];
    NoRanges(mem, b.ranges);
    assert Written(before, start, []) == before;
    for i := 0 to |b.ranges|
      invariant offset == RangeTotal(b.ranges[..i]) == |done| <= b.size
      invariant done == ReadCells(mem, RangeCells(b.ranges[..i]))
      invariant buffer[..] == Written(before, start, done)
    {
      var r := b.ranges[i];
      PrefixRangeTotal(b.ranges, i + 1);
      RangeIsReadable(mem, b.ranges, i);
      RangesSnoc(mem, b.ranges, i);
      if offset + r.size > b.size {
        return false;
      }
      var bytes := mem[r.idx][r.offset..r.offset + r.size];
      WriteMore(before, start, done, bytes);
      CopyBytes(bytes, buffer, start + offset);
      done := done + bytes;
      offset := offset + r.size;
    }
    assert b.ranges[..|b.ranges|] == b.ranges;
    ok := offset == b.size;
  }

  lemma {:induction false} NoRanges(mem: Memory, ranges: seq<Range>)
    ensures RangeTotal(ranges[..0]) == 0 && ReadCells(mem, RangeCells(ranges[..0])) == []
  {
  }

  lemma {:induction false} RangeIsReadable(mem: Memory, ranges: seq<Range>, i: nat)
    requires Readable(mem, ranges) && i < |ranges|
    ensures ranges[i].idx < |mem| && ranges[i].offset + ranges[i].size <= |mem[ranges[i].idx]|
  {
  }

  // ----- reading a bucket from an owner's memory over RDMA

  /** Remote memory by address, as far as it is registered. */
  type AddressSpace = map<nat, Byte>

  /** The owner's buffers lie in the address space at the advertised pointers. */
  ghost predicate Mapped(remote: AddressSpace, ptrs: seq<nat>, mem: Memory)
  {
    && |ptrs| == |mem|
    && forall i, a :: 0 <= i < |mem| && ptrs[i] <= a < ptrs[i] + |mem[i]| ==>
         a in remote && remote[a] == mem[i][a - ptrs[i]]
  }

  /** One entry of the batch: `len` bytes from `from` to `to`. */
  datatype Read = Read(to: nat, from: nat, len: nat)

  /** The reads that the copy loop collects for the first `n` ranges. */
  function ReadsFor(ranges: seq<Range>, ptrs: seq<nat>, base: nat, n: nat): (batch: seq<Read>)
    requires n <= |ranges| && forall i :: 0 <= i < |ranges| ==> ranges[i].idx < |ptrs|
    ensures |batch| == n
  {
    if n == 0 then []
    else
      var r := ranges[n - 1];
      ReadsFor(ranges, ptrs, base, n - 1) + [Read(base + RangeTotal(ranges[..n - 1]), ptrs[r.idx] + r.offset, r.size)]
  }

  /** `_copy_to_buffer` with an owner: the loop only collects addresses; false if an assertion fires. */
  method CollectReads(b: H2DBucket, ptrs: seq<nat>, base: nat) returns (ok: bool, batch: seq<Read>)
    requires forall i :: 0 <= i < |b.ranges| ==> b.ranges[i].idx < |ptrs|
    ensures ok <==> RangeTotal(b.ranges) == b.size
    ensures ok ==> batch == ReadsFor(b.ranges, ptrs, base, |b.ranges|)
  {
    hide RangeTotal;
    var offset := 0;
    batch := [];
    NoRanges([], b.ranges);
    for i := 0 to |b.ranges|
      invariant offset == RangeTotal(b.ranges[..i]) <= b.size
      invariant batch == ReadsFor(b.ranges, ptrs, base, i)
    {
      var r := b.ranges[i];
      PrefixRangeTotal(b.ranges, i + 1);
      RangeTotalNext(b.ranges, i);
      if offset + r.size > b.size {
        return false, [];
      }
      batch := batch + [Read(base + offset, ptrs[r.idx] + r.offset, r.size)];
      offset := offset + r.size;
    }
    assert b.ranges[..|b.ranges|] == b.ranges;
    ok := offset == b.size;
  }

  lemma {:induction false} RangeTotalNext(ranges: seq<Range>, i: nat)
    requires i < |ranges|
    ensures RangeTotal(ranges[..i + 1]) == RangeTotal(ranges[..i]) + ranges[i].size
  {
    assert ranges[..i + 1][..i] == ranges[..i];
  }

  ghost predicate Registered(remote: AddressSpace, from: nat, len: nat)
  {
    forall a :: from <= a < from + len ==> a in remote
  }

  function RemoteBytes(remote: AddressSpace, from: nat, len: nat): (bytes: seq<Byte>)
    requires Registered(remote, from, len)
    ensures |bytes| == len
    ensures forall j :: 0 <= j < len ==> bytes[j] == remote[from + j]
  {
    if len == 0 then [] else RemoteBytes(remote, from, len - 1) + [remote[from + len - 1]]
  }

  /** The transfer engine's contract: a read stays in registered memory and in the local buffer. */
  ghost predicate MayRead(remote: AddressSpace, r: Read, base: nat, length: nat)
  {
    && base <= r.to && r.to - base + r.len <= length
    && Registered(remote, r.from, r.len)
  }

  ghost predicate Permitted(remote: AddressSpace, batch: seq<Read>, base: nat, length: nat)
  {
    forall i :: 0 <= i < |batch| ==> MayRead(remote, batch[i], base, length)
  }

  /** The local buffer, at address `base`, after the first `n` reads. */
  function AfterReads(remote: AddressSpace, batch: seq<Read>, base: nat, before: seq<Byte>, n: nat): (after: seq<Byte>)
    requires n <= |batch| && Permitted(remote, batch, base, |before|)
    ensures |after| == |before|
  {
    if n == 0 then before
    else
      var r := batch[n - 1];
      Written(AfterReads(remote, batch, base, before, n - 1), r.to - base, RemoteBytes(remote, r.from, r.len))
  }

  /** `batch_transfer_sync_read`, as the loop that its contract amounts to. */
  method BatchRead(remote: AddressSpace, batch: seq<Read>, base: nat, buffer: array<Byte>)
    requires Permitted(remote, batch, base, buffer.Length)
    modifies buffer
    ensures buffer[..] == AfterReads(remote, batch, base, old(buffer[..]), |batch|)
  {
    hide RemoteBytes, Registered, Permitted, AfterReads;
    ghost var before := buffer[..];
    NoReads(remote, batch, base, before);
    for i := 0 to |batch|
      invariant buffer[..] == AfterReads(remote, batch, base, before, i)
    {
      AfterReadsNext(remote, batch, base, before, i);
      CopyBytes(RemoteBytes(remote, batch[i].from, batch[i].len), buffer, batch[i].to - base);
    }
  }

  lemma {:induction false} NoReads(remote: AddressSpace, batch: seq<Read>, base: nat, before: seq<Byte>)
    requires Permitted(remote, batch, base, |before|)
    ensures AfterReads(remote, batch, base, before, 0) == before
  {
  }

  lemma {:induction false} AfterReadsNext(remote: AddressSpace, batch: seq<Read>, base: nat, before: seq<Byte>, n: nat)
    requires n < |batch| && Permitted(remote, batch, base, |before|)
    ensures var r := batch[n];
            && Registered(remote, r.from, r.len) && base <= r.to && r.to - base + r.len <= |before|
            && AfterReads(remote, batch, base, before, n + 1)
               == Written(AfterReads(remote, batch, base, before, n), r.to - base, RemoteBytes(remote, r.from, r.len))
  {
    hide RemoteBytes, Registered, Written;
    assert MayRead(remote, batch[n], base, |before|);
  }

  lemma {:induction false} RemoteRange(remote: AddressSpace, ptrs: seq<nat>, mem: Memory, r: Range)
    requires Mapped(remote, ptrs, mem) && r.idx < |mem| && r.offset + r.size <= |mem[r.idx]|
    ensures Registered(remote, ptrs[r.idx] + r.offset, r.size)
    ensures RemoteBytes(remote, ptrs[r.idx] + r.offset, r.size) == mem[r.idx][r.offset..r.offset + r.size]
  {
    var from := ptrs[r.idx] + r.offset;
    forall j | 0 <= j < r.size
      ensures RemoteBytes(remote, from, r.size)[j] == mem[r.idx][r.offset + j]
    {
      var a := from + j;
      assert a in remote && remote[a] == mem[r.idx][a - ptrs[r.idx]];
    }
  }

  lemma {:induction false} ReadsAt(ranges: seq<Range>, ptrs: seq<nat>, base: nat, n: nat, i: nat)
    requires i < n <= |ranges| && forall k :: 0 <= k < |ranges| ==> ranges[k].idx < |ptrs|
    ensures ReadsFor(ranges, ptrs, base, n)[i]
         == Read(base + RangeTotal(ranges[..i]), ptrs[ranges[i].idx] + ranges[i].offset, ranges[i].size)
  {
    if i < n - 1 {
      ReadsAt(ranges, ptrs, base, n - 1, i);
    }
  }

  /** The collected reads stay inside the owner's registered buffers and inside the view. */
  lemma {:induction false} ReadsArePermitted(remote: AddressSpace, ptrs: seq<nat>, mem: Memory, ranges: seq<Range>,
                                             base: nat, start: nat, length: nat)
    requires Mapped(remote, ptrs, mem) && Readable(mem, ranges) && start + RangeTotal(ranges) <= length
    ensures forall i :: 0 <= i < |ranges| ==> ranges[i].idx < |ptrs|
    ensures Permitted(remote, ReadsFor(ranges, ptrs, base + start, |ranges|), base, length)
  {
    var batch := ReadsFor(ranges, ptrs, base + start, |ranges|);
    forall i | 0 <= i < |batch|
      ensures MayRead(remote, batch[i], base, length)
    {
      ReadsAt(ranges, ptrs, base + start, |ranges|, i);
      RangeTotalNext(ranges, i);
      PrefixRangeTotal(ranges, i + 1);
      RemoteRange(remote, ptrs, mem, ranges[i]);
    }
  }

  /** Reading the collected addresses leaves the same bytes as copying the ranges locally. */
  lemma {:induction false} ReadsCopyRanges(remote: AddressSpace, ptrs: seq<nat>, mem: Memory, ranges: seq<Range>,
                                           base: nat, start: nat, before: seq<Byte>, n: nat)
    requires Mapped(remote, ptrs, mem) && Readable(mem, ranges) && start + RangeTotal(ranges) <= |before|
    requires n <= |ranges| && forall i :: 0 <= i < |ranges| ==> ranges[i].idx < |ptrs|
    requires Permitted(remote, ReadsFor(ranges, ptrs, base + start, |ranges|), base, |before|)
    ensures start + |RangeCells(ranges[..n])| <= |before|
    ensures AfterReads(remote, ReadsFor(ranges, ptrs, base + start, |ranges|), base, before, n)
         == Written(before, start, ReadCells(mem, RangeCells(ranges[..n])))
  {
    hide RangeCells, ReadCells, RangeTotal, Mapped, Readable, Permitted, Registered, RemoteBytes, ReadsFor, Written, AfterReads;
    var batch := ReadsFor(ranges, ptrs, base + start, |ranges|);
    PrefixRangeTotal(ranges, n);
    RangeCellsLength(ranges[..n]);
    if n == 0 {
      NoRanges(mem, ranges);
      NoReads(remote, batch, base, before);
      WrittenNothing(before, start);
    } else {
      AfterReadsNext(remote, batch, base, before, n - 1);
      var r := ranges[n - 1];
      var done := ReadCells(mem, RangeCells(ranges[..n - 1]));
      ReadsCopyRanges(remote, ptrs, mem, ranges, base, start, before, n - 1);
      ReadsAt(ranges, ptrs, base + start, |ranges|, n - 1);
      RangeIsReadable(mem, ranges, n - 1);
      RemoteRange(remote, ptrs, mem, r);
      RangesSnoc(mem, ranges, n - 1);
      RangeCellsLength(ranges[..n - 1]);
      WriteMore(before, start, done, mem[r.idx][r.offset..r.offset + r.size]);
    }
  }

  /**
   `_copy_to_buffer` with an owner, complete: after the batch read the view of the buffer, which
   lies at address `base`, holds the same bytes as a local copy would leave.
   */
  method CopyFromOwner(remote: AddressSpace, ptrs: seq<nat>, ghost mem: Memory, b: H2DBucket,
                       buffer: array<Byte>, base: nat, start: nat)
    returns (ok: bool)
    requires Mapped(remote, ptrs, mem) && Readable(mem, b.ranges) && start + b.size <= buffer.Length
    modifies buffer
    ensures ok <==> RangeTotal(b.ranges) == b.size
    ensures ok ==> |BucketBytes(mem, b)| == b.size
                   && buffer[..] == Written(old(buffer[..]), start, BucketBytes(mem, b))
  {
    var batch;
    ok, batch := CollectReads(b, ptrs, base + start);
    if ok {
      ReadsArePermitted(remote, ptrs, mem, b.ranges, base, start, buffer.Length);
      ReadsCopyRanges(remote, ptrs, mem, b.ranges, base, start, buffer[..], |b.ranges|);
      RangeCellsLength(b.ranges);
      assert b.ranges[..|b.ranges|] == b.ranges;
      BatchRead(remote, batch, base, buffer);
    }
  }

  // ----- the worker's view

  /** What the payload says about one parameter. */
  datatype Named = Named(name: string, itemsize: nat, shape: seq<nat>, offset: nat)

  /** A parameter as the worker receives it. */
  datatype Weight = Weight(name: string, itemsize: nat, shape: seq<nat>, bytes: seq<Byte>)

  /** The payload for a bucket placed at `offset`: every item starts where the previous ones end. */
  function NamedTensors(metas: seq<Meta>, offset: nat): (named: seq<Named>)
    ensures |named| == |metas|
  {
    if metas == [] then []
    else
      var front, m := metas[..|metas| - 1], metas[|metas| - 1];
      NamedTensors(front, offset) + [Named(m.name, m.itemsize, m.shape, offset + Total(front, AlignedSize))]
  }

  /** `_to_named_tensor`. */
  method ToNamedTensor(metas: seq<Meta>, offset: nat) returns (named: seq<Named>)
    ensures named == NamedTensors(metas, offset)
  {
    named := [];
    var at := offset;
    for i := 0 to |metas|
      invariant named == NamedTensors(metas[..i], offset)
      invariant at == offset + Total(metas[..i], AlignedSize)
    {
      assert metas[..i + 1][..i] == metas[..i];
      var m := metas[i];
      named := named + [Named(m.name, m.itemsize, m.shape, at)];
      at := at + m.alignedSize;
    }
    assert metas[..|metas|] == metas;
  }

  function NamedBytes(n: Named): nat
  {
    n.itemsize * Numel(n.shape)
  }

  /** Every slice the worker takes lies inside the buffer. */
  ghost predicate PayloadFits(payload: seq<Named>, length: nat)
  {
    forall i :: 0 <= i < |payload| ==> payload[i].offset + NamedBytes(payload[i]) <= length
  }

  function ExtractOne(n: Named, buffer: seq<Byte>): Weight
    requires n.offset + NamedBytes(n) <= |buffer|
  {
    Weight(n.name, n.itemsize, n.shape, buffer[n.offset..n.offset + NamedBytes(n)])
  }

  function Extracted(payload: seq<Named>, buffer: seq<Byte>): (weights: seq<Weight>)
    requires PayloadFits(payload, |buffer|)
    ensures |weights| == |payload|
  {
    if payload == [] then []
    else Extracted(payload[..|payload| - 1], buffer) + [ExtractOne(payload[|payload| - 1], buffer)]
  }

  /** `_extract_weights`. */
  method ExtractWeights(payload: seq<Named>, buffer: array<Byte>) returns (weights: seq<Weight>)
    requires PayloadFits(payload, buffer.Length)
    ensures weights == Extracted(payload, buffer[..])
  {
    weights := [];
    for i := 0 to |payload|
      invariant weights == Extracted(payload[..i], buffer[..])
    {
      assert payload[..i + 1][..i] == payload[..i];
      var n := payload[i];
      var bytes := buffer[n.offset..n.offset + NamedBytes(n)];
      assert bytes == buffer[..][n.offset..n.offset + NamedBytes(n)];
      weights := weights + [Weight(n.name, n.itemsize, n.shape, bytes)];
    }
    assert payload[..|payload|] == payload;
  }

  /** A slot can be read from the memory, and its tensor fits in it. */
  ghost predicate SlotHolds(mem: Memory, s: Slot)
  {
    && s.idx < |mem| && s.offset + SlotSize(s) <= |mem[s.idx]|
    && NBytes(s.meta) <= s.meta.alignedSize
  }

  /** The parameter stored in a slot of pinned memory. */
  function StoredWeight(mem: Memory, s: Slot): Weight
    requires SlotHolds(mem, s)
  {
    Weight(s.meta.name, s.meta.itemsize, s.meta.shape, mem[s.idx][s.offset..s.offset + NBytes(s.meta)])
  }

  ghost predicate SlotsHold(mem: Memory, slots: seq<Slot>)
  {
    forall i :: 0 <= i < |slots| ==> SlotHolds(mem, slots[i])
  }

  function StoredWeights(mem: Memory, slots: seq<Slot>): (weights: seq<Weight>)
    requires SlotsHold(mem, slots)
    ensures |weights| == |slots|
  {
    if slots == [] then []
    else StoredWeights(mem, slots[..|slots| - 1]) + [StoredWeight(mem, slots[|slots| - 1])]
  }

  lemma {:induction false} StoredWeightsAppend(mem: Memory, a: seq<Slot>, b: seq<Slot>)
    requires SlotsHold(mem, a) && SlotsHold(mem, b)
    ensures SlotsHold(mem, a + b)
    ensures StoredWeights(mem, a + b) == StoredWeights(mem, a) + StoredWeights(mem, b)
    decreases |b|
  {
    if b == [] {
      assert a + b == a;
    } else {
      var front, last := b[..|b| - 1], b[|b| - 1];
      StoredWeightsAppend(mem, a, front);
      assert (a + b)[..|a + b| - 1] == a + front;
    }
  }

  /** The bytes of slots, as the bucket carries them. */
  function SlotBytes(mem: Memory, slots: seq<Slot>): seq<Byte>
  {
    ReadCells(mem, SlotCells(slots))
  }

  /** The device buffer holds `bytes` at `start`. */
  ghost predicate HoldsAt(buffer: seq<Byte>, start: nat, bytes: seq<Byte>)
  {
    start + |bytes| <= |buffer| && buffer[start..start + |bytes|] == bytes
  }

  lemma {:induction false} HoldsPrefix(buffer: seq<Byte>, start: nat, a: seq<Byte>, b: seq<Byte>)
    requires HoldsAt(buffer, start, a + b)
    ensures HoldsAt(buffer, start, a) && HoldsAt(buffer, start + |a|, b)
  {
    assert buffer[start..start + |a|] == (a + b)[..|a|];
    assert buffer[start + |a|..start + |a + b|] == (a + b)[|a|..];
  }

  lemma {:induction false} ExtractSlot(mem: Memory, s: Slot, buffer: seq<Byte>, at: nat)
    requires SlotHolds(mem, s) && HoldsAt(buffer, at, mem[s.idx][s.offset..s.offset + SlotSize(s)])
    ensures var n := Named(s.meta.name, s.meta.itemsize, s.meta.shape, at);
            n.offset + NamedBytes(n) <= |buffer| && ExtractOne(n, buffer) == StoredWeight(mem, s)
  {
    var size := NBytes(s.meta);
    var slot := mem[s.idx][s.offset..s.offset + SlotSize(s)];
    assert buffer[at..at + size] == buffer[at..at + |slot|][..size];
    assert mem[s.idx][s.offset..s.offset + size] == slot[..size];
  }

  lemma {:induction false} OneSlotMore(mem: Memory, slots: seq<Slot>, s: Slot)
    requires SlotsHold(mem, slots) && SlotHolds(mem, s)
    ensures SlotsHold(mem, slots + [s])
    ensures StoredWeights(mem, slots + [s]) == StoredWeights(mem, slots) + [StoredWeight(mem, s)]
  {
    hide SlotHolds;
    assert (slots + [s])[..|slots|] == slots;
  }

  lemma {:induction false} NamedTensorsSnoc(metas: seq<Meta>, m: Meta, start: nat)
    ensures NamedTensors(metas + [m], start)
         == NamedTensors(metas, start) + [Named(m.name, m.itemsize, m.shape, start + Total(metas, AlignedSize))]
  {
    assert (metas + [m])[..|metas|] == metas;
  }

  lemma {:induction false} ExtractedSnoc(payload: seq<Named>, n: Named, buffer: seq<Byte>)
    requires PayloadFits(payload, |buffer|) && n.offset + NamedBytes(n) <= |buffer|
    ensures PayloadFits(payload + [n], |buffer|)
    ensures Extracted(payload + [n], buffer) == Extracted(payload, buffer) + [ExtractOne(n, buffer)]
  {
    hide NamedBytes, ExtractOne;
    assert (payload + [n])[..|payload|] == payload;
  }

  lemma {:induction false} SlotBytesSnoc(mem: Memory, front: seq<Slot>, s: Slot)
    requires SlotHolds(mem, s)
    ensures SlotBytes(mem, front + [s]) == SlotBytes(mem, front) + mem[s.idx][s.offset..s.offset + SlotSize(s)]
    ensures |SlotBytes(mem, front)| == Total(front, SlotSize)
  {
    hide SlotCells, Cells;
    SlotCellsSnoc(front, s);
    ReadCellsAppend(mem, SlotCells(front), Cells(s.idx, s.offset, SlotSize(s)));
    SlotCellsLength(front);
    ReadRange(mem, s.idx, s.offset, SlotSize(s));
  }

  lemma {:induction false} SlotsHoldFront(mem: Memory, front: seq<Slot>, s: Slot)
    requires SlotsHold(mem, front + [s])
    ensures SlotsHold(mem, front) && SlotHolds(mem, s)
  {
    hide SlotHolds;
    assert (front + [s])[|front|] == s;
    assert forall i :: 0 <= i < |front| ==> (front + [s])[i] == front[i];
  }

  lemma {:induction false} NothingExtracted(mem: Memory, buffer: seq<Byte>, start: nat)
    ensures PayloadFits(NamedTensors(MetasOf([]), start), |buffer|)
    ensures Extracted(NamedTensors(MetasOf([]), start), buffer) == StoredWeights(mem, [])
  {
  }

  /**
   The two descriptions of a bucket agree end to end: if the device buffer holds the slots' bytes
   at `start`, the worker extracts exactly the stored parameters, in order.
   */
  lemma {:induction false} ExtractedIsStored(mem: Memory, slots: seq<Slot>, buffer: seq<Byte>, start: nat)
    requires SlotsHold(mem, slots) && HoldsAt(buffer, start, SlotBytes(mem, slots))
    ensures PayloadFits(NamedTensors(MetasOf(slots), start), |buffer|)
    ensures Extracted(NamedTensors(MetasOf(slots), start), buffer) == StoredWeights(mem, slots)
  {
    hide *;
    if slots == [] {
      NothingExtracted(mem, buffer, start);
    } else {
      var front, s := slots[..|slots| - 1], slots[|slots| - 1];
      assert slots == front + [s];
      SlotsHoldFront(mem, front, s);
      ExtractNext(mem, front, s, buffer, start);
      ExtractedIsStored(mem, front, buffer, start);
      var at := start + Total(front, SlotSize);
      MetasOfSnoc(front, s);
      TotalOfMetas(front);
      NamedTensorsSnoc(MetasOf(front), s.meta, start);
      ExtractedSnoc(NamedTensors(MetasOf(front), start), Named(s.meta.name, s.meta.itemsize, s.meta.shape, at), buffer);
      OneSlotMore(mem, front, s);
    }
  }

  lemma {:induction false} ExtractNext(mem: Memory, front: seq<Slot>, s: Slot, buffer: seq<Byte>, start: nat)
    requires SlotHolds(mem, s) && HoldsAt(buffer, start, SlotBytes(mem, front + [s]))
    ensures HoldsAt(buffer, start, SlotBytes(mem, front))
    ensures var n := Named(s.meta.name, s.meta.itemsize, s.meta.shape, start + Total(front, SlotSize));
            n.offset + NamedBytes(n) <= |buffer| && ExtractOne(n, buffer) == StoredWeight(mem, s)
  {
    hide SlotBytes, HoldsAt, ExtractOne, StoredWeight, NamedBytes, Total, NBytes;
    SlotBytesSnoc(mem, front, s);
    HoldsPrefix(buffer, start, SlotBytes(mem, front), mem[s.idx][s.offset..s.offset + SlotSize(s)]);
    ExtractSlot(mem, s, buffer, start + Total(front, SlotSize));
  }
}
