/** Reading a ragged matrix of buckets column by column. */
module Flattening {
  import opened Arithmetic
  import opened Rounds
  import opened Sequences

  datatype Coord = Coord(col: nat, row: nat)

  function LongestRow(lens: seq<nat>): (longest: nat)
    ensures forall l :: l in lens ==> l <= longest
    ensures lens != [] ==> longest in lens
  {
    if lens == [] then 0
    else
      var rest := LongestRow(lens[1..]);
      assert forall l :: l in lens ==> l == lens[0] || l in lens[1..];
      if lens[0] < rest then rest else lens[0]
  }

  /** The entries of column `col` from `row` down. */
  function ColumnFrom(lens: seq<nat>, col: nat, row: nat): seq<Coord>
    requires row <= |lens|
    decreases |lens| - row
  {
    if row == |lens| then []
    else (if col < lens[row] then [Coord(col, row)] else []) + ColumnFrom(lens, col, row + 1)
  }

  /** The entries of columns `col..columns` of a matrix with rows of these lengths. */
  function CoordsFrom(lens: seq<nat>, col: nat, columns: nat): seq<Coord>
    decreases columns - col
  {
    if columns <= col then []
    else ColumnFrom(lens, col, 0) + CoordsFrom(lens, col + 1, columns)
  }

  /** The order in which a matrix with rows of these lengths is read. */
  function Coords(lens: seq<nat>): seq<Coord>
  {
    CoordsFrom(lens, 0, LongestRow(lens))
  }

  ghost predicate Inside(lens: seq<nat>, c: Coord)
  {
    c.row < |lens| && c.col < lens[c.row]
  }

  ghost predicate Before(a: Coord, b: Coord)
  {
    a.col < b.col || (a.col == b.col && a.row < b.row)
  }

  ghost predicate Sorted(cs: seq<Coord>)
  {
    forall p, q :: 0 <= p < q < |cs| ==> Before(cs[p], cs[q])
  }

  lemma {:induction false} EarlierCoord(cs: seq<Coord>, p: nat, q: nat)
    requires Sorted(cs) && p < |cs| && q < |cs| && Before(cs[p], cs[q])
    ensures p < q
  {
  }

  lemma {:induction false} ColumnMembers(lens: seq<nat>, col: nat, row: nat, c: Coord)
    requires row <= |lens|
    ensures c in ColumnFrom(lens, col, row) <==> Inside(lens, c) && c.col == col && row <= c.row
    decreases |lens| - row
  {
    if row < |lens| {
      var head := if col < lens[row] then [Coord(col, row)] else [];
      var tail := ColumnFrom(lens, col, row + 1);
      ColumnMembers(lens, col, row + 1, c);
      assert ColumnFrom(lens, col, row) == head + tail;
      assert c in head + tail <==> c in head || c in tail;
    }
  }

  lemma {:induction false} ColumnIsSorted(lens: seq<nat>, col: nat, row: nat)
    requires row <= |lens|
    ensures Sorted(ColumnFrom(lens, col, row))
    decreases |lens| - row
  {
    if row < |lens| {
      var tail := ColumnFrom(lens, col, row + 1);
      ColumnIsSorted(lens, col, row + 1);
      forall p | 0 <= p < |tail|
        ensures Before(Coord(col, row), tail[p])
      {
        ColumnMembers(lens, col, row + 1, tail[p]);
      }
    }
  }

  lemma {:induction false} ColumnFacts(lens: seq<nat>, col: nat)
    ensures Sorted(ColumnFrom(lens, col, 0))
    ensures forall c :: c in ColumnFrom(lens, col, 0) <==> Inside(lens, c) && c.col == col
  {
    ColumnIsSorted(lens, col, 0);
    forall c
      ensures c in ColumnFrom(lens, col, 0) <==> Inside(lens, c) && c.col == col
    {
      ColumnMembers(lens, col, 0, c);
    }
  }

  lemma {:induction false} CoordsFromFacts(lens: seq<nat>, col: nat, columns: nat)
    ensures Sorted(CoordsFrom(lens, col, columns))
    ensures forall c :: c in CoordsFrom(lens, col, columns) <==> Inside(lens, c) && col <= c.col < columns
    decreases columns - col
  {
    if col < columns {
      ColumnFacts(lens, col);
      CoordsFromFacts(lens, col + 1, columns);
      var head, tail := ColumnFrom(lens, col, 0), CoordsFrom(lens, col + 1, columns);
      forall p, q | 0 <= p < q < |head + tail|
        ensures Before((head + tail)[p], (head + tail)[q])
      {
        if p < |head| <= q {
          assert head[p] in head && tail[q - |head|] in tail;
        }
      }
      forall c
        ensures c in head + tail <==> Inside(lens, c) && col <= c.col < columns
      {
      }
    }
  }

  /** Every entry is read exactly once, in column-then-row order. */
  lemma {:induction false} CoordsFacts(lens: seq<nat>)
    ensures Sorted(Coords(lens))
    ensures forall c :: c in Coords(lens) <==> Inside(lens, c)
  {
    CoordsFromFacts(lens, 0, LongestRow(lens));
    forall c | Inside(lens, c)
      ensures c.col < LongestRow(lens)
    {
      assert lens[c.row] in lens;
    }
  }

  lemma {:induction false} WholeColumn(lens: seq<nat>, col: nat, row: nat, k: nat)
    requires row + k < |lens| && forall r :: 0 <= r < |lens| ==> col < lens[r]
    ensures k < |ColumnFrom(lens, col, row)| && ColumnFrom(lens, col, row)[k] == Coord(col, row + k)
    decreases k
  {
    if k > 0 {
      WholeColumn(lens, col, row + 1, k - 1);
    }
  }

  /** Without empty rows, every row is read once before any is read again. */
  lemma {:induction false} FirstColumn(lens: seq<nat>, k: nat)
    requires k < |lens| && forall r :: 0 <= r < |lens| ==> lens[r] > 0
    ensures k < |Coords(lens)| && Coords(lens)[k] == Coord(0, k)
  {
    WholeColumn(lens, 0, 0, k);
    assert lens[k] in lens;
    assert CoordsFrom(lens, 0, LongestRow(lens)) == ColumnFrom(lens, 0, 0) + CoordsFrom(lens, 1, LongestRow(lens));
  }

  // ----- the device sequence of a flattened matrix

  /** `devs` names the row of each entry of `cs`; distinct rows have distinct names. */
  ghost predicate NamesRows<D(!new)>(devs: seq<D>, cs: seq<Coord>)
  {
    && |devs| == |cs|
    && forall p, q :: 0 <= p < |cs| && 0 <= q < |cs| ==> (devs[p] == devs[q] <==> cs[p].row == cs[q].row)
  }

  lemma {:induction false} PreviousColumn(lens: seq<nat>, cs: seq<Coord>, q: nat) returns (r: nat)
    requires cs == Coords(lens)
    requires q < |cs| && cs[q].col > 0
    ensures r < q && cs[r] == Coord(cs[q].col - 1, cs[q].row)
  {
    CoordsFacts(lens);
    assert cs[q] in cs;
    var above := Coord(cs[q].col - 1, cs[q].row);
    assert above in cs;
    r :| 0 <= r < |cs| && cs[r] == above;
    EarlierCoord(cs, r, q);
  }

  lemma {:induction false} FlattenedIsRoundRobin<D(!new)>(lens: seq<nat>, devs: seq<D>)
    requires NamesRows(devs, Coords(lens))
    ensures RoundRobin(devs)
  {
    var cs := Coords(lens);
    CoordsFacts(lens);
    forall p: nat, q: nat | Repeats(devs, p, q) && q + 1 < |devs|
      ensures RepeatsAfter(devs, p, q + 1)
    {
      assert Before(cs[p], cs[q]) && Before(cs[q], cs[q + 1]);
      var r := PreviousColumn(lens, cs, q + 1);
      EarlierCoord(cs, p, r);
      assert devs[r] == devs[q + 1];
    }
  }

  lemma {:induction false} FlattenedColumns<D(!new)>(lens: seq<nat>, devs: seq<D>) returns (col: seq<nat>)
    requires NamesRows(devs, Coords(lens))
    ensures Columns(devs, col) && forall c :: c in col ==> c < LongestRow(lens)
  {
    var cs := Coords(lens);
    CoordsFacts(lens);
    col := seq(|cs|, p requires 0 <= p < |cs| => cs[p].col);
    forall p, q | 0 <= p < q < |devs|
      ensures col[p] <= col[q] && (devs[p] == devs[q] ==> col[p] < col[q])
    {
      assert Before(cs[p], cs[q]);
    }
    forall c | c in col
      ensures c < LongestRow(lens)
    {
      var p :| 0 <= p < |col| && col[p] == c;
      assert cs[p] in cs && lens[cs[p].row] in lens;
    }
  }

  ghost predicate Rectangle(lens: seq<nat>)
  {
    forall r, s :: 0 <= r < |lens| && 0 <= s < |lens| ==> lens[r] == lens[s]
  }

  lemma {:induction false} RectangleStart(lens: seq<nat>)
    requires Rectangle(lens) && Coords(lens) != []
    ensures Coords(lens)[0] == Coord(0, 0)
  {
    var cs := Coords(lens);
    CoordsFacts(lens);
    assert cs[0] in cs && Inside(lens, Coord(0, 0));
    var r :| 0 <= r < |cs| && cs[r] == Coord(0, 0);
  }

  lemma {:induction false} RectangleNext(lens: seq<nat>, p: nat)
    requires Rectangle(lens) && p + 1 < |Coords(lens)|
    ensures var b := Coords(lens)[p];
            && b.row < |lens|
            && Coords(lens)[p + 1] == if b.row + 1 < |lens| then Coord(b.col, b.row + 1) else Coord(b.col + 1, 0)
  {
    var cs := Coords(lens);
    CoordsFacts(lens);
    var b, c := cs[p], cs[p + 1];
    assert b in cs && c in cs && Before(b, c);
    var next := if b.row + 1 < |lens| then Coord(b.col, b.row + 1) else Coord(b.col + 1, 0);
    assert Inside(lens, next);
    var r :| 0 <= r < |cs| && cs[r] == next;
    EarlierCoord(cs, p, r);
  }

  /** In a matrix whose rows are equally long, entry (col, row) is read at position col * rows + row. */
  lemma {:induction false} RectanglePosition(lens: seq<nat>, p: nat)
    requires Rectangle(lens) && p < |Coords(lens)|
    ensures var c := Coords(lens)[p]; p == c.col * |lens| + c.row
  {
    if p == 0 {
      RectangleStart(lens);
    } else {
      RectanglePosition(lens, p - 1);
      RectangleNext(lens, p - 1);
      var b := Coords(lens)[p - 1];
      assert (b.col + 1) * |lens| == b.col * |lens| + |lens|;
    }
  }

  lemma {:induction false} WholeColumnsApart(c: nat, d: nat, row: nat, n: nat)
    requires c < d
    ensures n <= (d * n + row) - (c * n + row)
  {
    MulMonotone(c + 1, d, n);
    assert (c + 1) * n == c * n + n;
  }

  /** A device recurs only after a whole column. */
  lemma {:induction false} RectangleRepeats<D(!new)>(lens: seq<nat>, devs: seq<D>, p: nat, q: nat)
    requires NamesRows(devs, Coords(lens))
    requires Rectangle(lens)
    requires p < q < |devs| && devs[p] == devs[q]
    ensures |lens| <= q - p
  {
    var cs := Coords(lens);
    CoordsFacts(lens);
    RectanglePosition(lens, p);
    RectanglePosition(lens, q);
    assert Before(cs[p], cs[q]);
    WholeColumnsApart(cs[p].col, cs[q].col, cs[p].row, |lens|);
  }

  // ----- the entries themselves

  function Lengths<T>(matrix: seq<seq<T>>): (lens: seq<nat>)
    ensures |lens| == |matrix| && forall r :: 0 <= r < |lens| ==> lens[r] == |matrix[r]|
  {
    seq(|matrix|, r requires 0 <= r < |matrix| => |matrix[r]|)
  }

  /** The entries of column `col` from `row` down. */
  function ColumnEntries<T>(matrix: seq<seq<T>>, col: nat, row: nat): seq<T>
    requires row <= |matrix|
    decreases |matrix| - row
  {
    if row == |matrix| then []
    else (if col < |matrix[row]| then [matrix[row][col]] else []) + ColumnEntries(matrix, col, row + 1)
  }

  function FlattenFrom<T>(matrix: seq<seq<T>>, col: nat, columns: nat): seq<T>
    decreases columns - col
  {
    if columns <= col then []
    else ColumnEntries(matrix, col, 0) + FlattenFrom(matrix, col + 1, columns)
  }

  /** The list comprehension that reads the matrix column by column. */
  function Flatten<T>(matrix: seq<seq<T>>): seq<T>
  {
    FlattenFrom(matrix, 0, LongestRow(Lengths(matrix)))
  }

  /** `entries` holds what the matrix has at the places `cs`. */
  ghost predicate ReadAt<T>(matrix: seq<seq<T>>, cs: seq<Coord>, entries: seq<T>)
  {
    && |entries| == |cs|
    && forall p :: 0 <= p < |cs| ==>
         && cs[p].row < |matrix|
         && cs[p].col < |matrix[cs[p].row]|
         && entries[p] == matrix[cs[p].row][cs[p].col]
  }

  lemma {:induction false} ColumnReadAt<T>(matrix: seq<seq<T>>, col: nat, row: nat)
    requires row <= |matrix|
    ensures ReadAt(matrix, ColumnFrom(Lengths(matrix), col, row), ColumnEntries(matrix, col, row))
    decreases |matrix| - row
  {
    if row < |matrix| {
      ColumnReadAt(matrix, col, row + 1);
      if col < |matrix[row]| {
        ReadAtAppend(matrix, [Coord(col, row)], [matrix[row][col]],
                     ColumnFrom(Lengths(matrix), col, row + 1), ColumnEntries(matrix, col, row + 1));
      } else {
        ReadAtAppend(matrix, [], [], ColumnFrom(Lengths(matrix), col, row + 1), ColumnEntries(matrix, col, row + 1));
      }
    }
  }

  lemma {:induction false} ReadAtAppend<T>(matrix: seq<seq<T>>, cs: seq<Coord>, entries: seq<T>, ds: seq<Coord>,
                                           more: seq<T>)
    requires ReadAt(matrix, cs, entries) && ReadAt(matrix, ds, more)
    ensures ReadAt(matrix, cs + ds, entries + more)
  {
  }

  lemma {:induction false} FlattenFromReadAt<T>(matrix: seq<seq<T>>, col: nat, columns: nat)
    ensures ReadAt(matrix, CoordsFrom(Lengths(matrix), col, columns), FlattenFrom(matrix, col, columns))
    decreases columns - col
  {
    if col < columns {
      ColumnReadAt(matrix, col, 0);
      FlattenFromReadAt(matrix, col + 1, columns);
      ReadAtAppend(matrix, ColumnFrom(Lengths(matrix), col, 0), ColumnEntries(matrix, col, 0),
                   CoordsFrom(Lengths(matrix), col + 1, columns), FlattenFrom(matrix, col + 1, columns));
    }
  }

  lemma {:induction false} FlattenReadAt<T>(matrix: seq<seq<T>>)
    ensures ReadAt(matrix, Coords(Lengths(matrix)), Flatten(matrix))
  {
    FlattenFromReadAt(matrix, 0, LongestRow(Lengths(matrix)));
  }

  /** Entry keys tell the rows apart. */
  ghost predicate KeyedRows<T(!new), K(!new)>(matrix: seq<seq<T>>, key: T -> K, keys: seq<K>)
  {
    && |keys| == |matrix|
    && AllDistinct(keys)
    && forall r, c :: 0 <= r < |matrix| && 0 <= c < |matrix[r]| ==> key(matrix[r][c]) == keys[r]
  }

  lemma {:induction false} ColumnOfRow<T(!new), K(!new)>(matrix: seq<seq<T>>, key: T -> K, keys: seq<K>, col: nat,
                                         row: nat, r: nat)
    requires KeyedRows(matrix, key, keys) && row <= |matrix| && r < |matrix|
    ensures Where(ColumnEntries(matrix, col, row), key, keys[r])
         == if row <= r && col < |matrix[r]| then [matrix[r][col]] else []
    decreases |matrix| - row
  {
    assert |keys| == |matrix|;
    hide *;
    ColumnNext(matrix, col, row);
    if row == |matrix| {
      EmptyGroup(ColumnEntries(matrix, col, row), key, keys[r]);
    } else {
      ColumnOfRow(matrix, key, keys, col, row + 1, r);
      if col < |matrix[row]| {
        KeyTellsRow(matrix, key, keys, row, col, r);
        WhereFirst(matrix[row][col], ColumnEntries(matrix, col, row + 1), key, keys[r]);
      }
    }
  }

  lemma {:induction false} ColumnNext<T>(matrix: seq<seq<T>>, col: nat, row: nat)
    requires row <= |matrix|
    ensures row == |matrix| ==> ColumnEntries(matrix, col, row) == []
    ensures row < |matrix| && col < |matrix[row]| ==>
      ColumnEntries(matrix, col, row) == [matrix[row][col]] + ColumnEntries(matrix, col, row + 1)
    ensures row < |matrix| && col >= |matrix[row]| ==>
      ColumnEntries(matrix, col, row) == ColumnEntries(matrix, col, row + 1)
  {
    if row < |matrix| && col >= |matrix[row]| {
      assert [] + ColumnEntries(matrix, col, row + 1) == ColumnEntries(matrix, col, row + 1);
    }
  }

  lemma {:induction false} KeyTellsRow<T(!new), K(!new)>(matrix: seq<seq<T>>, key: T -> K, keys: seq<K>, row: nat,
                                                         col: nat, r: nat)
    requires KeyedRows(matrix, key, keys) && row < |matrix| && col < |matrix[row]| && r < |matrix|
    ensures |keys| == |matrix| && (key(matrix[row][col]) == keys[r] <==> row == r)
  {
  }

  lemma {:induction false} WhereFirst<T, K>(x: T, rest: seq<T>, key: T -> K, k: K)
    ensures Where([x] + rest, key, k) == (if key(x) == k then [x] else []) + Where(rest, key, k)
  {
    assert ([x] + rest)[1..] == rest;
  }

  lemma {:induction false} RowSurvivesFrom<T(!new), K(!new)>(matrix: seq<seq<T>>, key: T -> K, keys: seq<K>,
                                                             col: nat, columns: nat, r: nat)
    requires KeyedRows(matrix, key, keys) && r < |matrix| && |matrix[r]| <= columns
    ensures Where(FlattenFrom(matrix, col, columns), key, keys[r])
         == if col <= |matrix[r]| then matrix[r][col..] else []
    decreases columns - col
  {
    assert |keys| == |matrix|;
    hide *;
    FlattenNext(matrix, col, columns);
    if columns <= col {
      EmptyGroup(FlattenFrom(matrix, col, columns), key, keys[r]);
    } else {
      ColumnOfRow(matrix, key, keys, col, 0, r);
      RowSurvivesFrom(matrix, key, keys, col + 1, columns, r);
      WhereAppend(ColumnEntries(matrix, col, 0), FlattenFrom(matrix, col + 1, columns), key, keys[r]);
      RestOfRow(matrix[r], col);
    }
  }

  lemma {:induction false} RestOfRow<T>(row: seq<T>, col: nat)
    ensures (if col < |row| then [row[col]] else []) + (if col + 1 <= |row| then row[col + 1..] else [])
         == if col <= |row| then row[col..] else []
  {
  }

  lemma {:induction false} FlattenNext<T>(matrix: seq<seq<T>>, col: nat, columns: nat)
    ensures FlattenFrom(matrix, col, columns)
         == if columns <= col then [] else ColumnEntries(matrix, col, 0) + FlattenFrom(matrix, col + 1, columns)
  {
  }

  /** Picking one row's entries out of the flattened list gives back that row. */
  lemma {:induction false} RowSurvives<T(!new), K(!new)>(matrix: seq<seq<T>>, key: T -> K, keys: seq<K>, r: nat)
    requires KeyedRows(matrix, key, keys) && r < |matrix|
    ensures Where(Flatten(matrix), key, keys[r]) == matrix[r]
  {
    assert Lengths(matrix)[r] in Lengths(matrix);
    RowSurvivesFrom(matrix, key, keys, 0, LongestRow(Lengths(matrix)), r);
    assert matrix[r][0..] == matrix[r];
  }

  lemma {:induction false} NoForeignKeys<T(!new), K(!new)>(matrix: seq<seq<T>>, key: T -> K, keys: seq<K>, k: K)
    requires KeyedRows(matrix, key, keys) && k !in keys
    ensures forall x :: x in Flatten(matrix) ==> key(x) != k
  {
    FlattenReadAt(matrix);
    forall x | x in Flatten(matrix)
      ensures key(x) != k
    {
      var p :| 0 <= p < |Flatten(matrix)| && Flatten(matrix)[p] == x;
      var c := Coords(Lengths(matrix))[p];
      assert key(matrix[c.row][c.col]) == keys[c.row];
    }
  }

  /** The keys along the flattened list name the rows. */
  lemma {:induction false} KeysNameRows<T(!new), K(!new)>(matrix: seq<seq<T>>, key: T -> K, keys: seq<K>, devs: seq<K>)
    requires KeyedRows(matrix, key, keys) && |devs| == |Flatten(matrix)|
    requires forall p :: 0 <= p < |devs| ==> devs[p] == key(Flatten(matrix)[p])
    ensures NamesRows(devs, Coords(Lengths(matrix)))
  {
    var cs := Coords(Lengths(matrix));
    FlattenReadAt(matrix);
    forall p | 0 <= p < |cs|
      ensures cs[p].row < |keys| && devs[p] == keys[cs[p].row]
    {
      assert Flatten(matrix)[p] == matrix[cs[p].row][cs[p].col];
    }
  }
}
