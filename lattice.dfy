/** Integer lattice points and the row-major layout that every buffer of both
    terrain builders follows: a grid of `columns` x `rows` cells is emitted
    row by row, each cell contributing a block of `size` elements, so element
    k of cell (i, j) is stored at size * (j * columns + i) + k. */
module Lattice {

  datatype Point = Point(x: int, y: int)

  /** Twice the signed area of the triangle (a, b, c) in the lattice plane:
      positive when a, b, c turn counter-clockwise, negative when clockwise. */
  function SignedArea2(a: Point, b: Point, c: Point): int
  {
    (b.x - a.x) * (c.y - a.y) - (b.y - a.y) * (c.x - a.x)
  }

  // ---------------------------------------------------------------------
  // Arithmetic
  // ---------------------------------------------------------------------

  lemma {:induction false} MulMonotone(a: nat, b: nat, c: nat)
    requires a <= b
    ensures a * c <= b * c
  {
    if c > 0 {
      MulMonotone(a, b, c - 1);
      assert a * c == a * (c - 1) + a;
      assert b * c == b * (c - 1) + b;
    }
  }

  lemma MulSucc(a: nat, b: nat)
    ensures (a + 1) * b == a * b + b
  {
  }

  lemma MulRegroup(a: nat, b: nat, c: nat)
    ensures a * (b * c) == c * (a * b)
  {
  }

  /** A row-major position inside a width x height grid lies before its end. */
  lemma RowMajorBound(i: nat, j: nat, width: nat, height: nat)
    requires i < width && j < height
    ensures j * width + i < height * width
  {
    MulMonotone(j + 1, height, width);
    assert (j + 1) * width == j * width + width;
  }

  /** A row-major position before the end of a width x height grid lies in one of its rows. */
  lemma RowMajorRow(i: nat, j: nat, width: nat, height: nat)
    requires i < width && j * width + i < height * width
    ensures j < height
  {
    if j >= height {
      MulMonotone(height, j, width);
    }
  }

  /** Regrouping a row-major offset: j rows of `columns` blocks of `size`, then i blocks. */
  lemma RowMajorOffset(size: nat, columns: nat, i: nat, j: nat)
    ensures j * (columns * size) + i * size == size * (j * columns + i)
    ensures 0 <= j * (columns * size)
  {
    assert j * (columns * size) == size * (j * columns);
    MulMonotone(0, j, columns * size);
  }

  // ---------------------------------------------------------------------
  // Concatenation of blocks
  // ---------------------------------------------------------------------

  /** Concatenation is associative. */
  lemma AppendAssoc<T>(a: seq<T>, b: seq<T>, c: seq<T>)
    ensures (a + b) + c == a + (b + c)
  {
  }

  /** block(0) + block(1) + ... + block(count - 1). */
  function Concat<T>(block: nat -> seq<T>, count: nat): seq<T>
  {
    if count == 0 then [] else Concat(block, count - 1) + block(count - 1)
  }

  /** Blocks of one common size concatenate to count * size elements. */
  lemma {:induction false} ConcatLength<T>(block: nat -> seq<T>, size: nat, count: nat)
    requires forall m :: 0 <= m < count ==> |block(m)| == size
    ensures |Concat(block, count)| == count * size
  {
    if count > 0 {
      ConcatLength(block, size, count - 1);
      MulSucc(count - 1, size);
    }
  }

  /** Later blocks only append: an element present after m blocks stays in place. */
  lemma {:induction false} ConcatExtend<T>(block: nat -> seq<T>, m: nat, count: nat, n: nat)
    requires m <= count
    requires n < |Concat(block, m)|
    ensures n < |Concat(block, count)|
    ensures Concat(block, count)[n] == Concat(block, m)[n]
  {
    if m < count {
      ConcatExtend(block, m, count - 1, n);
    }
  }

  /** With blocks of one common size, element k of block b is stored at b * size + k. */
  lemma ConcatAt<T>(block: nat -> seq<T>, size: nat, count: nat, b: nat, k: nat)
    requires forall m :: 0 <= m < count ==> |block(m)| == size
    requires b < count && k < size
    ensures |Concat(block, count)| == count * size
    ensures var n := b * size + k;
            && 0 <= n < |Concat(block, count)|
            && Concat(block, count)[n] == block(b)[k]
  {
    ConcatLength(block, size, count);
    ConcatLength(block, size, b);
    MulMonotone(0, b, size);
    var prefix := Concat(block, b);
    var n := b * size + k;
    assert Concat(block, b + 1) == prefix + block(b);
    assert (prefix + block(b))[n] == block(b)[k];
    ConcatExtend(block, b + 1, count, n);
  }

  /** A property of every element of every block holds of every element of the concatenation. */
  lemma {:induction false} ConcatAll<T>(block: nat -> seq<T>, ok: T -> bool, count: nat)
    requires forall m, k :: 0 <= m < count && 0 <= k < |block(m)| ==> ok(block(m)[k])
    ensures forall n :: 0 <= n < |Concat(block, count)| ==> ok(Concat(block, count)[n])
  {
    if count > 0 {
      ConcatAll(block, ok, count - 1);
      var prefix, last := Concat(block, count - 1), block(count - 1);
      assert Concat(block, count) == prefix + last;
      forall n | 0 <= n < |prefix + last|
        ensures ok((prefix + last)[n])
      {
        if n >= |prefix| {
          assert (prefix + last)[n] == last[n - |prefix|];
        }
      }
    }
  }

  // ---------------------------------------------------------------------
  // Grids of blocks
  // ---------------------------------------------------------------------

  /** The cells of row j as blocks indexed by column. */
  function RowCells<T>(cell: (nat, nat) -> seq<T>, j: nat): nat -> seq<T>
  {
    (i: nat) => cell(i, j)
  }

  /** The first `count` cells of row j, left to right. */
  function RowBlocks<T>(cell: (nat, nat) -> seq<T>, j: nat, count: nat): seq<T>
  {
    Concat(RowCells(cell, j), count)
  }

  /** The full rows of a grid `columns` cells wide as blocks indexed by row. */
  function GridRows<T>(cell: (nat, nat) -> seq<T>, columns: nat): nat -> seq<T>
  {
    (j: nat) => RowBlocks(cell, j, columns)
  }

  /** The first `rows` rows of a grid `columns` cells wide, bottom to top. */
  function GridBlocks<T>(cell: (nat, nat) -> seq<T>, columns: nat, rows: nat): seq<T>
  {
    Concat(GridRows(cell, columns), rows)
  }

  /** Every full row of a grid of cells of one common size has columns * size elements. */
  lemma GridRowsLength<T>(cell: (nat, nat) -> seq<T>, size: nat, columns: nat, rows: nat)
    requires forall a, b :: 0 <= a < columns && 0 <= b < rows ==> |cell(a, b)| == size
    ensures forall b :: 0 <= b < rows ==> |GridRows(cell, columns)(b)| == columns * size
  {
    forall b | 0 <= b < rows
      ensures |GridRows(cell, columns)(b)| == columns * size
    {
      ConcatLength(RowCells(cell, b), size, columns);
    }
  }

  /** The length of a grid of cells of one common size. */
  lemma GridBlocksLength<T>(cell: (nat, nat) -> seq<T>, size: nat, columns: nat, rows: nat)
    requires forall a, b :: 0 <= a < columns && 0 <= b < rows ==> |cell(a, b)| == size
    ensures |GridBlocks(cell, columns, rows)| == size * (rows * columns)
  {
    GridRowsLength(cell, size, columns, rows);
    ConcatLength(GridRows(cell, columns), columns * size, rows);
    MulRegroup(rows, columns, size);
  }

  /** One more cell extends a row by that cell. */
  lemma RowBlocksStep<T>(cell: (nat, nat) -> seq<T>, j: nat, count: nat)
    ensures RowBlocks(cell, j, count + 1) == RowBlocks(cell, j, count) + cell(count, j)
  {
  }

  /** Appending cell (count, j) after a partial row j. */
  lemma RowBlocksAppend<T>(prefix: seq<T>, cell: (nat, nat) -> seq<T>, j: nat, count: nat)
    ensures prefix + RowBlocks(cell, j, count) + cell(count, j) == prefix + RowBlocks(cell, j, count + 1)
  {
    RowBlocksStep(cell, j, count);
    AppendAssoc(prefix, RowBlocks(cell, j, count), cell(count, j));
  }

  /** One more row extends a grid by that full row. */
  lemma GridBlocksStep<T>(cell: (nat, nat) -> seq<T>, columns: nat, rows: nat)
    ensures GridBlocks(cell, columns, rows + 1) == GridBlocks(cell, columns, rows) + RowBlocks(cell, rows, columns)
  {
  }

  /** A grid of cells of one common size is row-major: element k of cell (i, j)
      is stored at size * (j * columns + i) + k, and there are size * (rows * columns) elements. */
  lemma GridBlocksAt<T>(cell: (nat, nat) -> seq<T>, size: nat, columns: nat, rows: nat, i: nat, j: nat, k: nat)
    requires forall a, b :: 0 <= a < columns && 0 <= b < rows ==> |cell(a, b)| == size
    requires i < columns && j < rows && k < size
    ensures |GridBlocks(cell, columns, rows)| == size * (rows * columns)
    ensures var n := size * (j * columns + i) + k;
            && 0 <= n < |GridBlocks(cell, columns, rows)|
            && GridBlocks(cell, columns, rows)[n] == cell(i, j)[k]
  {
    GridBlocksLength(cell, size, columns, rows);
    GridRowsLength(cell, size, columns, rows);
    ConcatAt(RowCells(cell, j), size, columns, i, k);
    var m := i * size + k;
    assert RowBlocks(cell, j, columns)[m] == cell(i, j)[k];
    ConcatAt(GridRows(cell, columns), columns * size, rows, j, m);
    RowMajorOffset(size, columns, i, j);
  }

  /** A property of every element of every cell holds of every element of the grid. */
  lemma GridBlocksAll<T>(cell: (nat, nat) -> seq<T>, ok: T -> bool, columns: nat, rows: nat)
    requires forall a, b, k :: 0 <= a < columns && 0 <= b < rows && 0 <= k < |cell(a, b)| ==> ok(cell(a, b)[k])
    ensures forall n :: 0 <= n < |GridBlocks(cell, columns, rows)| ==> ok(GridBlocks(cell, columns, rows)[n])
  {
    var row := GridRows(cell, columns);
    forall b | 0 <= b < rows
      ensures forall n :: 0 <= n < |row(b)| ==> ok(row(b)[n])
    {
      ConcatAll(RowCells(cell, b), ok, columns);
    }
    ConcatAll(row, ok, rows);
  }
}
