/** The first terrain demo: a grid of gridX x gridY cells in which every cell
    pushes its own four corner vertices and its own two triangles, so vertices
    on shared edges are duplicated. Each vertex is coloured by elevation.

    Corners are kept as lattice coordinates (column, row); the source places
    corner (column, row) at (column / gridX - 0.5, row / gridY - 0.5) and lifts
    it by the fractal noise sampled there. The noise is a parameter. */
module Terrain {
  import opened Lattice

  // ---------------------------------------------------------------------
  // Elevation colours
  // ---------------------------------------------------------------------

  datatype Color = Color(r: int, g: int, b: int)

  const Blue := Color(0, 0, 1)
  const Green := Color(0, 1, 0)
  const White := Color(1, 1, 1)

  /** Below this elevation a vertex is blue. */
  const LowerThreshold: real := -0.025
  /** From this elevation on a vertex is white. */
  const UpperThreshold: real := 0.05

  /** GetColor: a three-bucket classifier on elevation. */
  function GetColor(z: real): (c: Color)
    ensures c == Blue || c == Green || c == White
  {
    if z < LowerThreshold then Blue
    else if z < UpperThreshold then Green
    else White
  }

  /** The rank of a colour's bucket, lowest elevations first. */
  function Band(c: Color): nat
  {
    if c == Blue then 0 else if c == Green then 1 else 2
  }

  /** Exactly one bucket applies, and each bucket is the elevation interval it stands for. */
  lemma GetColorBands(z: real)
    ensures GetColor(z) == Blue <==> z < LowerThreshold
    ensures GetColor(z) == Green <==> LowerThreshold <= z < UpperThreshold
    ensures GetColor(z) == White <==> UpperThreshold <= z
  {
  }

  /** The buckets are ordered by elevation: a higher vertex never gets a lower bucket. */
  lemma GetColorMonotone(z1: real, z2: real)
    requires z1 <= z2
    ensures Band(GetColor(z1)) <= Band(GetColor(z2))
  {
  }

  // ---------------------------------------------------------------------
  // Vertices
  // ---------------------------------------------------------------------

  /** The noise amplitude applied to every elevation. */
  const ZInfluence: real := 0.15

  /** The coordinate of lattice line k of n, centred on the origin: k / n - 0.5. */
  function GridCoordinate(k: nat, n: nat): real
    requires n > 0
  {
    k as real / n as real - 0.5
  }

  /** One entry of the vertex buffer: its lattice corner, its elevation
      (the third position component), its texture coordinate and its colour. */
  datatype CellVertex = CellVertex(corner: Point, elevation: real, texCoord: Point, color: Color)

  /** The vertex for lattice corner (column, row): lifted by the noise there
      and coloured by that elevation. */
  function CornerVertex(gridX: nat, gridY: nat, noise: (real, real) -> real, column: nat, row: nat, texCoord: Point): CellVertex
    requires gridX > 0 && gridY > 0
  {
    var z := noise(GridCoordinate(column, gridX), GridCoordinate(row, gridY)) * ZInfluence;
    CellVertex(Point(column, row), z, texCoord, GetColor(z))
  }

  /** The four vertices a cell pushes, counter-clockwise from its (column, row)
      corner, with texture coordinates (0,0), (1,0), (1,1), (0,1). */
  function CellVertices(gridX: nat, gridY: nat, noise: (real, real) -> real, column: nat, row: nat): seq<CellVertex>
    requires gridX > 0 && gridY > 0
  {
    [ CornerVertex(gridX, gridY, noise, column, row, Point(0, 0)),
      CornerVertex(gridX, gridY, noise, column + 1, row, Point(1, 0)),
      CornerVertex(gridX, gridY, noise, column + 1, row + 1, Point(1, 1)),
      CornerVertex(gridX, gridY, noise, column, row + 1, Point(0, 1)) ]
  }

  /** The cell function of the vertex buffer: cell (column, row) pushes its four corners. */
  function VertexCells(gridX: nat, gridY: nat, noise: (real, real) -> real): (nat, nat) -> seq<CellVertex>
  {
    (column: nat, row: nat) => if gridX > 0 && gridY > 0 then CellVertices(gridX, gridY, noise, column, row) else []
  }

  /** The vertices pushed for the first `rows` rows of cells, row by row. */
  function CellGridVertices(gridX: nat, gridY: nat, noise: (real, real) -> real, rows: nat): seq<CellVertex>
  {
    GridBlocks(VertexCells(gridX, gridY, noise), gridX, rows)
  }

  /** The vertex count the demo hands to the renderer. */
  function VertexCount(gridX: nat, gridY: nat): nat
  {
    gridX * gridY * 4
  }

  /** Four vertices per cell. */
  lemma CellGridVerticesLength(gridX: nat, gridY: nat, noise: (real, real) -> real)
    ensures |CellGridVertices(gridX, gridY, noise, gridY)| == VertexCount(gridX, gridY)
  {
    GridBlocksLength(VertexCells(gridX, gridY, noise), 4, gridX, gridY);
    assert 4 * (gridY * gridX) == gridX * gridY * 4;
  }

  /** Cell (column, row) owns the four vertex slots starting at (row * gridX + column) * 4. */
  lemma CellGridVerticesAt(gridX: nat, gridY: nat, noise: (real, real) -> real, column: nat, row: nat, k: nat)
    requires column < gridX && row < gridY && k < 4
    ensures |CellGridVertices(gridX, gridY, noise, gridY)| == 4 * (gridY * gridX)
    ensures var n := 4 * (row * gridX + column) + k;
            && 0 <= n < |CellGridVertices(gridX, gridY, noise, gridY)|
            && CellGridVertices(gridX, gridY, noise, gridY)[n] == CellVertices(gridX, gridY, noise, column, row)[k]
  {
    GridBlocksAt(VertexCells(gridX, gridY, noise), 4, gridX, gridY, column, row, k);
  }

  /** Neighbouring cells push identical copies of the corners they share
      (same lattice point, elevation and colour; only the texture coordinate
      differs), so the duplicated-vertex surface has no cracks. */
  lemma NeighbourCellsAgree(gridX: nat, gridY: nat, noise: (real, real) -> real, column: nat, row: nat)
    requires gridX > 0 && gridY > 0
    ensures var here, right, above :=
              CellVertices(gridX, gridY, noise, column, row),
              CellVertices(gridX, gridY, noise, column + 1, row),
              CellVertices(gridX, gridY, noise, column, row + 1);
            && here[1].corner == right[0].corner && here[1].elevation == right[0].elevation && here[1].color == right[0].color
            && here[2].corner == right[3].corner && here[2].elevation == right[3].elevation && here[2].color == right[3].color
            && here[3].corner == above[0].corner && here[3].elevation == above[0].elevation && here[3].color == above[0].color
            && here[2].corner == above[1].corner && here[2].elevation == above[1].elevation && here[2].color == above[1].color
  {
  }

  // ---------------------------------------------------------------------
  // Indices
  // ---------------------------------------------------------------------

  /** Which of a cell's four vertices the six indices name: triangles (0, 1, 3) and (1, 2, 3). */
  const TriangleCorners: seq<nat> := [0, 1, 3, 1, 2, 3]

  /** The six indices a cell pushes for its two triangles, relative to `base`. */
  function CellIndices(base: nat): seq<nat>
  {
    [base, base + 1, base + 3, base + 1, base + 2, base + 3]
  }

  /** The index base the loop computes for cell (row, column): row * stride * 4 + column * 4.
      The demo uses the row count gridY as the stride. */
  function IndexBase(stride: nat, row: nat, column: nat): nat
  {
    row * stride * 4 + column * 4
  }

  /** The cell function of the index buffer for a given stride. */
  function IndexCells(stride: nat): (nat, nat) -> seq<nat>
  {
    (column: nat, row: nat) => CellIndices(IndexBase(stride, row, column))
  }

  /** The indices pushed for the first `rows` rows of a grid `columns` cells wide. */
  function CellGridIndices(stride: nat, columns: nat, rows: nat): seq<nat>
  {
    GridBlocks(IndexCells(stride), columns, rows)
  }

  /** The element count of the demo's draw call: two triangles of three indices per cell. */
  function DrawCount(gridX: nat, gridY: nat): nat
  {
    2 * 3 * gridX * gridY
  }

  /** Six indices per cell, the element count of the draw call. */
  lemma CellGridIndicesLength(stride: nat, gridX: nat, gridY: nat)
    ensures |CellGridIndices(stride, gridX, gridY)| == DrawCount(gridX, gridY)
  {
    GridBlocksLength(IndexCells(stride), 6, gridX, gridY);
    assert 6 * (gridY * gridX) == 2 * 3 * gridX * gridY;
  }

  /** Cell (column, row) owns the six index slots starting at (row * columns + column) * 6,
      and they hold base + 0, 1, 3 and base + 1, 2, 3 with base = row * stride * 4 + column * 4. */
  lemma CellGridIndicesAt(stride: nat, columns: nat, rows: nat, column: nat, row: nat, k: nat)
    requires column < columns && row < rows && k < 6
    ensures |CellGridIndices(stride, columns, rows)| == 6 * (rows * columns)
    ensures var n := 6 * (row * columns + column) + k;
            && 0 <= n < |CellGridIndices(stride, columns, rows)|
            && CellGridIndices(stride, columns, rows)[n] == IndexBase(stride, row, column) + TriangleCorners[k]
  {
    GridBlocksAt(IndexCells(stride), 6, columns, rows, column, row, k);
  }

  /** With the column count as the stride, every index addresses one of the
      4 * gridX * gridY pushed vertices. */
  lemma IntendedIndicesInBounds(gridX: nat, gridY: nat)
    ensures forall n :: 0 <= n < |CellGridIndices(gridX, gridX, gridY)| ==> CellGridIndices(gridX, gridX, gridY)[n] < 4 * (gridY * gridX)
  {
    var bound := 4 * (gridY * gridX);
    forall column, row, k | 0 <= column < gridX && 0 <= row < gridY && 0 <= k < |IndexCells(gridX)(column, row)|
      ensures IndexCells(gridX)(column, row)[k] < bound
    {
      RowMajorBound(column, row, gridX, gridY);
    }
    GridBlocksAll(IndexCells(gridX), (x: nat) => x < bound, gridX, gridY);
  }

  /** With the column count as the stride, the six indices of cell (column, row)
      name that cell's own four vertices, as triangles (0, 1, 3) and (1, 2, 3). */
  lemma IntendedTrianglesOwnCell(gridX: nat, gridY: nat, noise: (real, real) -> real, column: nat, row: nat, k: nat)
    requires column < gridX && row < gridY && k < 6
    ensures var v, x, n := CellGridVertices(gridX, gridY, noise, gridY), CellGridIndices(gridX, gridX, gridY), 6 * (row * gridX + column) + k;
            && 0 <= n < |x| && x[n] < |v|
            && v[x[n]] == CellVertices(gridX, gridY, noise, column, row)[TriangleCorners[k]]
  {
    CellGridIndicesAt(gridX, gridX, gridY, column, row, k);
    CellGridVerticesAt(gridX, gridY, noise, column, row, TriangleCorners[k]);
  }

  /** The two triangles (0, 1, 3) and (1, 2, 3) of a unit lattice cell, listed
      counter-clockwise from its lower corner, turn counter-clockwise. */
  lemma CellTrianglesTurnLeft(a: Point, b: Point, c: Point, d: Point)
    requires b == Point(a.x + 1, a.y) && c == Point(a.x + 1, a.y + 1) && d == Point(a.x, a.y + 1)
    ensures SignedArea2(a, b, d) == 1 && SignedArea2(b, c, d) == 1
  {
    assert SignedArea2(a, b, d) == 1 * 1 - 0 * 0;
    assert SignedArea2(b, c, d) == 0 * 1 - 1 * (-1);
  }

  /** With the column count as the stride, both triangles of every cell turn
      counter-clockwise in the lattice plane. */
  lemma IntendedWinding(gridX: nat, gridY: nat, noise: (real, real) -> real, column: nat, row: nat)
    requires column < gridX && row < gridY
    ensures var v, x, n := CellGridVertices(gridX, gridY, noise, gridY), CellGridIndices(gridX, gridX, gridY), 6 * (row * gridX + column);
            && 0 <= n && n + 6 <= |x|
            && x[n] < |v| && x[n + 1] < |v| && x[n + 2] < |v|
            && x[n + 3] < |v| && x[n + 4] < |v| && x[n + 5] < |v|
            && SignedArea2(v[x[n]].corner, v[x[n + 1]].corner, v[x[n + 2]].corner) == 1
            && SignedArea2(v[x[n + 3]].corner, v[x[n + 4]].corner, v[x[n + 5]].corner) == 1
  {
    var v, x, n := CellGridVertices(gridX, gridY, noise, gridY), CellGridIndices(gridX, gridX, gridY), 6 * (row * gridX + column);
    var a, b, c, d := Point(column, row), Point(column + 1, row), Point(column + 1, row + 1), Point(column, row + 1);
    CellTrianglesTurnLeft(a, b, c, d);
    IntendedTrianglesOwnCell(gridX, gridY, noise, column, row, 0);
    assert v[x[n]].corner == a;
    IntendedTrianglesOwnCell(gridX, gridY, noise, column, row, 1);
    assert v[x[n + 1]].corner == b;
    IntendedTrianglesOwnCell(gridX, gridY, noise, column, row, 2);
    assert v[x[n + 2]].corner == d;
    IntendedTrianglesOwnCell(gridX, gridY, noise, column, row, 3);
    assert v[x[n + 3]].corner == b;
    IntendedTrianglesOwnCell(gridX, gridY, noise, column, row, 4);
    assert v[x[n + 4]].corner == c;
    IntendedTrianglesOwnCell(gridX, gridY, noise, column, row, 5);
    assert v[x[n + 5]].corner == d;
  }

  /** For the square grids the demo builds (16 x 16 by default) the stride the
      loop uses coincides with the column count, so every index is in bounds
      and every cell's triangles name its own vertices. */
  lemma SquareGridOwnCells(grid: nat, noise: (real, real) -> real, column: nat, row: nat, k: nat)
    requires column < grid && row < grid && k < 6
    ensures var v, x, n := CellGridVertices(grid, grid, noise, grid), CellGridIndices(grid, grid, grid), 6 * (row * grid + column) + k;
            && 0 <= n < |x| && x[n] < |v|
            && x[n] == 4 * (row * grid + column) + TriangleCorners[k]
            && v[x[n]] == CellVertices(grid, grid, noise, column, row)[TriangleCorners[k]]
  {
    IntendedTrianglesOwnCell(grid, grid, noise, column, row, k);
    CellGridIndicesAt(grid, grid, grid, column, row, k);
  }

  /** As written, the stride is gridY. When gridX != gridY the first index of
      cell (column 0, row 1) is 4 * gridY, but that cell's first vertex was
      pushed at 4 * gridX. */
  lemma AsWrittenMisaddressesSecondRow(gridX: nat, gridY: nat, noise: (real, real) -> real)
    requires 1 <= gridX && 2 <= gridY && gridX != gridY
    ensures var v, x := CellGridVertices(gridX, gridY, noise, gridY), CellGridIndices(gridY, gridX, gridY);
            && 6 * gridX < |x| && 4 * gridX < |v|
            && v[4 * gridX] == CellVertices(gridX, gridY, noise, 0, 1)[0]
            && x[6 * gridX] == 4 * gridY != 4 * gridX
  {
    CellGridIndicesAt(gridY, gridX, gridY, 0, 1, 0);
    CellGridVerticesAt(gridX, gridY, noise, 0, 1, 0);
  }

  /** As written, a grid with more rows than columns indexes past the end of
      its vertex buffer: the last index of the last cell is at least 4 * gridX * gridY. */
  lemma AsWrittenIndexOutOfBounds(gridX: nat, gridY: nat, noise: (real, real) -> real)
    requires 1 <= gridX < gridY
    ensures var v, x, n := CellGridVertices(gridX, gridY, noise, gridY), CellGridIndices(gridY, gridX, gridY), 6 * ((gridY - 1) * gridX + (gridX - 1)) + 5;
            && 0 <= n < |x| && x[n] >= |v|
  {
    CellGridIndicesAt(gridY, gridX, gridY, gridX - 1, gridY - 1, 5);
    CellGridVerticesLength(gridX, gridY, noise);
    MulMonotone(gridX, gridY - 1, gridY);
    assert IndexBase(gridY, gridY - 1, gridX - 1) == (gridY - 1) * gridY * 4 + (gridX - 1) * 4;
  }

  // ---------------------------------------------------------------------
  // The grid-building loop of Initialize
  // ---------------------------------------------------------------------

  /** The loop of Initialize: for every cell, row by row, push its four
      corner vertices and the six indices of its two triangles. */
  method BuildCellGrid(gridX: nat, gridY: nat, noise: (real, real) -> real)
    returns (vertexAttributes: seq<CellVertex>, indices: seq<nat>)
    ensures vertexAttributes == CellGridVertices(gridX, gridY, noise, gridY)
    ensures indices == CellGridIndices(gridY, gridX, gridY)
    ensures |vertexAttributes| == VertexCount(gridX, gridY)
    ensures |indices| == DrawCount(gridX, gridY)
  {
    vertexAttributes, indices := [], [];
    var row := 0;
    while row < gridY
      invariant row <= gridY
      invariant vertexAttributes == CellGridVertices(gridX, gridY, noise, row)
      invariant indices == CellGridIndices(gridY, gridX, row)
    {
      vertexAttributes, indices := BuildCellRow(gridX, gridY, noise, row, vertexAttributes, indices);
      GridBlocksStep(VertexCells(gridX, gridY, noise), gridX, row);
      GridBlocksStep(IndexCells(gridY), gridX, row);
      row := row + 1;
    }
    CellGridVerticesLength(gridX, gridY, noise);
    CellGridIndicesLength(gridY, gridX, gridY);
  }

  /** The inner loop of Initialize for one row of cells: each cell pushes its
      corners (column, row), (column + 1, row), (column + 1, row + 1),
      (column, row + 1), lifted by the noise, and the indices of its two
      triangles, based at row * gridY * 4 + column * 4. */
  method BuildCellRow(gridX: nat, gridY: nat, noise: (real, real) -> real, row: nat,
                      vertexAttributes0: seq<CellVertex>, indices0: seq<nat>)
    returns (vertexAttributes: seq<CellVertex>, indices: seq<nat>)
    requires row < gridY
    ensures vertexAttributes == vertexAttributes0 + RowBlocks(VertexCells(gridX, gridY, noise), row, gridX)
    ensures indices == indices0 + RowBlocks(IndexCells(gridY), row, gridX)
  {
    vertexAttributes, indices := vertexAttributes0, indices0;
    var column := 0;
    while column < gridX
      invariant column <= gridX
      invariant vertexAttributes == vertexAttributes0 + RowBlocks(VertexCells(gridX, gridY, noise), row, column)
      invariant indices == indices0 + RowBlocks(IndexCells(gridY), row, column)
    {
      RowBlocksAppend(vertexAttributes0, VertexCells(gridX, gridY, noise), row, column);
      RowBlocksAppend(indices0, IndexCells(gridY), row, column);

      var xLeft, xRight := GridCoordinate(column, gridX), GridCoordinate(column + 1, gridX);
      var yUp, yDown := GridCoordinate(row, gridY), GridCoordinate(row + 1, gridY);

      var z01 := noise(xLeft, yUp) * ZInfluence;
      var z02 := noise(xRight, yUp) * ZInfluence;
      var z03 := noise(xRight, yDown) * ZInfluence;
      var z04 := noise(xLeft, yDown) * ZInfluence;

      var vertex01 := CellVertex(Point(column, row), z01, Point(0, 0), GetColor(z01));
      var vertex02 := CellVertex(Point(column + 1, row), z02, Point(1, 0), GetColor(z02));
      var vertex03 := CellVertex(Point(column + 1, row + 1), z03, Point(1, 1), GetColor(z03));
      var vertex04 := CellVertex(Point(column, row + 1), z04, Point(0, 1), GetColor(z04));
      assert [vertex01, vertex02, vertex03, vertex04] == VertexCells(gridX, gridY, noise)(column, row);
      vertexAttributes := vertexAttributes + [vertex01, vertex02, vertex03, vertex04];

      var base := row * gridY * 4 + column * 4;
      assert [base, base + 1, base + 3, base + 1, base + 2, base + 3] == IndexCells(gridY)(column, row);
      indices := indices + [base, base + 1, base + 3, base + 1, base + 2, base + 3];

      column := column + 1;
    }
  }
}
