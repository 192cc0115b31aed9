/** The records that the parts of the system exchange. */
module DataTypes {
  datatype Option<+T> = None | Some(value: T)

  /** A registered parameter: its tensor takes itemsize * numel bytes of a slot of `alignedSize`. */
  datatype Meta = Meta(name: string, itemsize: nat, shape: seq<nat>, alignedSize: nat)

  /** A contiguous piece of memory buffer `idx`. */
  datatype Range = Range(idx: nat, offset: nat, size: nat)

  datatype H2DBucket = H2DBucket(size: nat, ranges: seq<Range>, items: seq<Meta>)

  /** The metas of one owner rank, one list per memory buffer. */
  datatype OwnerMetas = OwnerMetas(owner: int, buffers: seq<seq<Meta>>)

  /** A bucket with its owner rank. */
  datatype Owned<T> = Owned(owner: int, bucket: T)

  /** A bucket with its owner rank and the rank that fetches and broadcasts it. */
  datatype Assigned<T> = Assigned(receiver: int, owner: int, bucket: T)
}
