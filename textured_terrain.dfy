/** The buffer builders of the textured-terrain demo: the shared-vertex grid
    mesh (CreateTerrainMesh), the 4x4 magenta fallback texture
    (CreateDefaultTexture) and the noise height map (CreateHeightMap).

    Vertex positions are kept as their lattice coordinates (i, j); the source
    places lattice point (i, j) at (i / (gridX - 1), 0, j / (gridY - 1)).
    Index arithmetic is done on C++ `unsigned int`, so it is modelled modulo
    2^32 with `Wrap`. */
module TexturedTerrain {
  import opened Lattice

  const U32_LIMIT: int := 0x1_0000_0000

  /** The values of a C++ `unsigned int`. */
  type u32 = x: int | 0 <= x < U32_LIMIT

  /** The result of an `unsigned int` addition or multiplication: the exact value reduced modulo 2^32. */
  function Wrap(x: int): u32
  {
    x % U32_LIMIT
  }

  /** `unsigned int` subtraction: a - b, wrapping past zero when b > a (an underflow). */
  function Sub32(a: u32, b: u32): u32
  {
    if b <= a then a - b else a - b + U32_LIMIT
  }

  // ---------------------------------------------------------------------
  // Vertices of the shared-vertex mesh
  // ---------------------------------------------------------------------

  datatype Normal = Normal(x: int, y: int, z: int)

  const Up := Normal(0, 1, 0)

  /** One entry of the vertex buffer: lattice position, normal, texture coordinate. */
  datatype MeshVertex = MeshVertex(position: Point, normal: Normal, texCoord: Point)

  /** The vertex the mesh builder emits for lattice point (i, j): pointing up,
      with the unnormalised texture coordinate (i, j). */
  function LatticeVertex(i: nat, j: nat): MeshVertex
  {
    MeshVertex(Point(i, j), Up, Point(i, j))
  }

  /** The block emitted for lattice point (i, j): its one vertex. */
  function VertexCell(i: nat, j: nat): seq<MeshVertex>
  {
    [LatticeVertex(i, j)]
  }

  /** The vertices emitted for the first `rows` rows of a grid `columnCount` points wide. */
  function GridVertices(columnCount: nat, rows: nat): seq<MeshVertex>
  {
    GridBlocks(VertexCell, columnCount, rows)
  }

  /** The vertex buffer holds one vertex per lattice point. */
  lemma GridVerticesLength(columnCount: nat, rows: nat)
    ensures |GridVertices(columnCount, rows)| == columnCount * rows
  {
    GridBlocksLength(VertexCell, 1, columnCount, rows);
  }

  /** The vertex buffer is row-major:
      lattice point (i, j) sits at j * columnCount + i. */
  lemma GridVerticesAt(columnCount: nat, rows: nat, i: nat, j: nat)
    requires i < columnCount && j < rows
    ensures |GridVertices(columnCount, rows)| == columnCount * rows
    ensures var n := j * columnCount + i;
            && 0 <= n < |GridVertices(columnCount, rows)|
            && GridVertices(columnCount, rows)[n] == LatticeVertex(i, j)
  {
    GridBlocksAt(VertexCell, 1, columnCount, rows, i, j, 0);
  }

  // ---------------------------------------------------------------------
  // Indices of the shared-vertex mesh
  // ---------------------------------------------------------------------

  /** The four corner indices of the quad whose top-right corner is lattice point (i, j). */
  datatype Quad = Quad(bottomLeft: u32, bottomRight: u32, topLeft: u32, topRight: u32)

  /** The corners as the source computes them, in `unsigned int` arithmetic. */
  function QuadCorners(columnCount: u32, i: nat, j: nat): Quad
  {
    var topRight := Wrap(j * columnCount + i);
    var topLeft := Sub32(topRight, 1);
    var bottomRight := Sub32(topRight, columnCount);
    var bottomLeft := Sub32(bottomRight, 1);
    Quad(bottomLeft, bottomRight, topLeft, topRight)
  }

  /** The two triangles of a quad, (bl, br, tl) and (br, tl, tr), in emission order. */
  function QuadIndices(q: Quad): seq<u32>
  {
    [q.bottomLeft, q.bottomRight, q.topLeft, q.bottomRight, q.topLeft, q.topRight]
  }

  /** The quad emitted for cell (c, r): the cell whose top-right corner is lattice point (c + 1, r + 1). */
  function QuadCells(columnCount: u32): (nat, nat) -> seq<u32>
  {
    (c: nat, r: nat) => QuadIndices(QuadCorners(columnCount, c + 1, r + 1))
  }

  /** The number of cells along a side of n lattice points. */
  function Cells(n: nat): nat
  {
    if n == 0 then 0 else n - 1
  }

  /** The indices emitted while visiting the first `rows` rows of a grid
      `columnCount` points wide: visiting vertex (i, j) with i > 0 and j > 0
      emits the quad of cell (i - 1, j - 1), so the quads come in row-major
      order of the cells. */
  function GridIndices(columnCount: u32, rows: nat): seq<u32>
  {
    GridBlocks(QuadCells(columnCount), Cells(columnCount), Cells(rows))
  }

  /** The indices emitted when the loop visits vertex (i, j): the quad whose
      top-right corner is (i, j), if there is a cell below and to the left. */
  function VisitIndices(columnCount: u32, i: nat, j: nat): seq<u32>
  {
    if i > 0 && j > 0 then QuadIndices(QuadCorners(columnCount, i, j)) else []
  }

  /** The indices emitted while visiting the first `count` vertices of row j:
      the quads of the first count - 1 cells of cell row j - 1. */
  function RowIndices(columnCount: u32, j: nat, count: nat): seq<u32>
  {
    if j == 0 || count == 0 then [] else RowBlocks(QuadCells(columnCount), j - 1, count - 1)
  }

  /** Visiting one more vertex of row j appends what that visit emits. */
  lemma RowIndicesStep(prefix: seq<u32>, columnCount: u32, j: nat, i: nat)
    ensures prefix + RowIndices(columnCount, j, i) + VisitIndices(columnCount, i, j) == prefix + RowIndices(columnCount, j, i + 1)
  {
    if j > 0 && i > 0 {
      RowBlocksAppend(prefix, QuadCells(columnCount), j - 1, i - 1);
    } else if j > 0 {
      RowBlocksStep(QuadCells(columnCount), j - 1, 0);
    }
  }

  /** Finishing row j of vertices finishes the index buffer of j + 1 rows. */
  lemma GridIndicesStep(columnCount: u32, j: nat)
    ensures GridIndices(columnCount, j + 1) == GridIndices(columnCount, j) + RowIndices(columnCount, j, columnCount)
  {
    if j > 0 {
      GridBlocksStep(QuadCells(columnCount), Cells(columnCount), j - 1);
      if columnCount == 0 {
        assert RowBlocks(QuadCells(columnCount), j - 1, 0) == [];
      }
    }
  }

  /** Six indices per interior cell: 6 * (gridX - 1) * (gridY - 1) for a non-empty grid. */
  lemma GridIndicesLength(columnCount: u32, rows: nat)
    ensures |GridIndices(columnCount, rows)| == 6 * (Cells(rows) * Cells(columnCount))
  {
    GridBlocksLength(QuadCells(columnCount), 6, Cells(columnCount), Cells(rows));
  }

  /** Cell (c, r), whose top-right corner is lattice point (c + 1, r + 1), owns
      exactly the six slots that start at 6 * (r * (gridX - 1) + c). */
  lemma GridIndicesAt(columnCount: u32, rows: nat, c: nat, r: nat, k: nat)
    requires c + 1 < columnCount && r + 1 < rows && k < 6
    ensures |GridIndices(columnCount, rows)| == 6 * (Cells(rows) * Cells(columnCount))
    ensures var n := 6 * (r * Cells(columnCount) + c) + k;
            && 0 <= n < |GridIndices(columnCount, rows)|
            && GridIndices(columnCount, rows)[n] == QuadIndices(QuadCorners(columnCount, c + 1, r + 1))[k]
  {
    GridBlocksAt(QuadCells(columnCount), 6, Cells(columnCount), Cells(rows), c, r, k);
  }

  /** For a grid whose vertices all have a 32-bit index, the corner arithmetic
      is exact: top_right = j * gridX + i does not wrap, none of the three
      subtractions underflows, and the four corners are the row-major
      indices of (i-1, j-1), (i, j-1), (i-1, j) and (i, j). */
  lemma QuadCornersExact(gridX: u32, gridY: u32, i: u32, j: u32)
    requires gridX * gridY <= U32_LIMIT
    requires 1 <= i < gridX && 1 <= j < gridY
    ensures j * gridX + i < gridX * gridY
    ensures QuadCorners(gridX, i, j).topRight >= 1
    ensures QuadCorners(gridX, i, j).topRight >= gridX
    ensures QuadCorners(gridX, i, j).bottomRight >= 1
    ensures QuadCorners(gridX, i, j).topRight == j * gridX + i
    ensures QuadCorners(gridX, i, j).topLeft == j * gridX + (i - 1)
    ensures QuadCorners(gridX, i, j).bottomRight == (j - 1) * gridX + i
    ensures QuadCorners(gridX, i, j).bottomLeft == (j - 1) * gridX + (i - 1)
  {
    RowMajorBound(i, j, gridX, gridY);
    var topRight := j * gridX + i;
    assert Wrap(topRight) == topRight;
    MulMonotone(1, j, gridX);
    assert (j - 1) * gridX + i == topRight - gridX;
  }

  /** Every index of the mesh addresses one of its gridX * gridY vertices. For
      a grid of more than 2^32 vertices this holds because every index is an
      `unsigned int`, even where a wrapped index names the wrong vertex. */
  lemma GridIndicesInBounds(gridX: u32, gridY: u32)
    ensures forall n :: 0 <= n < |GridIndices(gridX, gridY)| ==> GridIndices(gridX, gridY)[n] < gridX * gridY
  {
    var bound := gridX * gridY;
    forall a, b, k | 0 <= a < Cells(gridX) && 0 <= b < Cells(gridY) && 0 <= k < |QuadCells(gridX)(a, b)|
      ensures QuadCells(gridX)(a, b)[k] < bound
    {
      if bound <= U32_LIMIT {
        QuadCornersExact(gridX, gridY, a + 1, b + 1);
      }
    }
    GridBlocksAll(QuadCells(gridX), (x: u32) => x < bound, Cells(gridX), Cells(gridY));
  }

  /** The quad ending at (i, j) references exactly the four corners of the
      cell spanning columns i-1..i and rows j-1..j. */
  lemma QuadCoversCell(gridX: u32, gridY: u32, i: u32, j: u32)
    requires gridX * gridY <= U32_LIMIT
    requires 1 <= i < gridX && 1 <= j < gridY
    ensures var v, q := GridVertices(gridX, gridY), QuadCorners(gridX, i, j);
            && q.bottomLeft < |v| && q.bottomRight < |v| && q.topLeft < |v| && q.topRight < |v|
            && v[q.bottomLeft] == LatticeVertex(i - 1, j - 1)
            && v[q.bottomRight] == LatticeVertex(i, j - 1)
            && v[q.topLeft] == LatticeVertex(i - 1, j)
            && v[q.topRight] == LatticeVertex(i, j)
  {
    QuadCornersExact(gridX, gridY, i, j);
    var v, q := GridVertices(gridX, gridY), QuadCorners(gridX, i, j);
    GridVerticesAt(gridX, gridY, i - 1, j - 1);
    assert v[q.bottomLeft] == LatticeVertex(i - 1, j - 1);
    GridVerticesAt(gridX, gridY, i, j - 1);
    assert v[q.bottomRight] == LatticeVertex(i, j - 1);
    GridVerticesAt(gridX, gridY, i - 1, j);
    assert v[q.topLeft] == LatticeVertex(i - 1, j);
    GridVerticesAt(gridX, gridY, i, j);
  }

  /** The two triangles of every quad turn in opposite directions in the
      (i, j) plane: (bl, br, tl) counter-clockwise, (br, tl, tr) clockwise. */
  lemma QuadWinding(gridX: u32, gridY: u32, i: u32, j: u32)
    requires gridX * gridY <= U32_LIMIT
    requires 1 <= i < gridX && 1 <= j < gridY
    ensures var v, q := GridVertices(gridX, gridY), QuadCorners(gridX, i, j);
            && q.bottomLeft < |v| && q.bottomRight < |v| && q.topLeft < |v| && q.topRight < |v|
            && SignedArea2(v[q.bottomLeft].position, v[q.bottomRight].position, v[q.topLeft].position) == 1
            && SignedArea2(v[q.bottomRight].position, v[q.topLeft].position, v[q.topRight].position) == -1
  {
    QuadCoversCell(gridX, gridY, i, j);
  }

  /** The quad's triangles with one winding: (bl, br, tl) as emitted, and the
      second triangle listed as (br, tr, tl) instead of (br, tl, tr). */
  function ConsistentQuadIndices(q: Quad): seq<u32>
  {
    [q.bottomLeft, q.bottomRight, q.topLeft, q.bottomRight, q.topRight, q.topLeft]
  }

  /** With the second triangle listed as (br, tr, tl), both triangles of every
      quad turn counter-clockwise in the (i, j) plane, and they still cover the
      quad's four corners. */
  lemma ConsistentQuadWinding(gridX: u32, gridY: u32, i: u32, j: u32)
    requires gridX * gridY <= U32_LIMIT
    requires 1 <= i < gridX && 1 <= j < gridY
    ensures var v, x := GridVertices(gridX, gridY), ConsistentQuadIndices(QuadCorners(gridX, i, j));
            && x[0] < |v| && x[1] < |v| && x[2] < |v| && x[3] < |v| && x[4] < |v| && x[5] < |v|
            && SignedArea2(v[x[0]].position, v[x[1]].position, v[x[2]].position) == 1
            && SignedArea2(v[x[3]].position, v[x[4]].position, v[x[5]].position) == 1
  {
    QuadCoversCell(gridX, gridY, i, j);
  }

  /** Past 2^32 the top-right index wraps: whenever j * gridX + i is at least
      2^32, top_right is smaller than it by a multiple of 2^32, so it is not
      the row-major index of (i, j). */
  lemma TopRightWrapsPastU32(gridX: u32, i: nat, j: nat)
    requires j * gridX + i >= U32_LIMIT
    ensures var t := QuadCorners(gridX, i, j).topRight;
            && t < j * gridX + i
            && (j * gridX + i - t) % U32_LIMIT == 0
            && (j * gridX + i < 2 * U32_LIMIT ==> t == j * gridX + i - U32_LIMIT)
  {
    var x := j * gridX + i;
    assert x == U32_LIMIT * (x / U32_LIMIT) + x % U32_LIMIT;
  }

  /** A wrapped quad names the wrong vertex: if the top-right corner (i, j) of
      a grid has row-major index 2^32 or more, the index the quad uses for it
      holds some other lattice point. */
  lemma WrappedQuadMisnamesCorner(gridX: u32, gridY: u32, i: nat, j: nat)
    requires 1 <= i < gridX && 1 <= j < gridY
    requires j * gridX + i >= U32_LIMIT
    ensures var v, t := GridVertices(gridX, gridY), QuadCorners(gridX, i, j).topRight;
            && t < |v| && v[t] != LatticeVertex(i, j)
  {
    TopRightWrapsPastU32(gridX, i, j);
    RowMajorBound(i, j, gridX, gridY);
    GridVerticesElsewhere(gridX, gridY, QuadCorners(gridX, i, j).topRight, i, j);
  }

  /** A vertex index before the row-major index of (i, j) holds another lattice point. */
  lemma GridVerticesElsewhere(columnCount: nat, rows: nat, t: nat, i: nat, j: nat)
    requires i < columnCount
    requires t < j * columnCount + i < rows * columnCount
    ensures t < |GridVertices(columnCount, rows)| && GridVertices(columnCount, rows)[t] != LatticeVertex(i, j)
  {
    var c, r := t % columnCount, t / columnCount;
    assert t == r * columnCount + c;
    RowMajorRow(c, r, columnCount, rows);
    GridVerticesAt(columnCount, rows, c, r);
  }

  /** One instance: in a 65536 x 65537 grid the quad ending at (1, 65536),
      whose top-right vertex is number 2^32 + 1, names vertex 1. */
  lemma TopRightWrapExample()
    ensures 65536 * 65536 + 1 >= U32_LIMIT
    ensures QuadCorners(65536, 1, 65536).topRight == 1
  {
  }

  /** CreateTerrainMesh: one vertex per lattice point in row-major order and,
      in the same pass, two triangles for every vertex with i > 0 and j > 0. */
  method CreateTerrainMesh(gridX: u32, gridY: u32) returns (vertices: seq<MeshVertex>, indices: seq<u32>)
    ensures vertices == GridVertices(gridX, gridY)
    ensures indices == GridIndices(gridX, gridY)
    ensures |vertices| == gridX * gridY
    ensures |indices| == 6 * (Cells(gridY) * Cells(gridX))
  {
    vertices, indices := [], [];
    var columnCount, rowCount := gridX, gridY;
    var j: u32 := 0;
    while j < rowCount
      invariant j <= rowCount
      invariant vertices == GridVertices(columnCount, j)
      invariant indices == GridIndices(columnCount, j)
    {
      vertices, indices := EmitMeshRow(columnCount, j, vertices, indices);
      GridBlocksStep(VertexCell, columnCount, j);
      GridIndicesStep(columnCount, j);
      j := j + 1;
    }
    GridVerticesLength(gridX, gridY);
    GridIndicesLength(gridX, gridY);
  }

  /** The inner loop of CreateTerrainMesh for row j: push the row's vertices
      left to right and, at every vertex with i > 0 and j > 0, the two
      triangles of the quad whose top-right corner it is. */
  method EmitMeshRow(columnCount: u32, j: u32, vertices0: seq<MeshVertex>, indices0: seq<u32>)
    returns (vertices: seq<MeshVertex>, indices: seq<u32>)
    ensures vertices == vertices0 + RowBlocks(VertexCell, j, columnCount)
    ensures indices == indices0 + RowIndices(columnCount, j, columnCount)
  {
    vertices, indices := vertices0, indices0;
    var i: u32 := 0;
    while i < columnCount
      invariant i <= columnCount
      invariant vertices == vertices0 + RowBlocks(VertexCell, j, i)
      invariant indices == indices0 + RowIndices(columnCount, j, i)
    {
      RowBlocksAppend(vertices0, VertexCell, j, i);
      RowIndicesStep(indices0, columnCount, j, i);
      vertices := vertices + [LatticeVertex(i, j)];
      if i > 0 && j > 0 {
        var topRight := Wrap(j * columnCount + i);
        var topLeft := Sub32(topRight, 1);
        var bottomRight := Sub32(topRight, columnCount);
        var bottomLeft := Sub32(bottomRight, 1);
        indices := indices + [bottomLeft, bottomRight, topLeft, bottomRight, topLeft, topRight];
      }
      i := i + 1;
    }
  }

  // ---------------------------------------------------------------------
  // Default texture
  // ---------------------------------------------------------------------

  /** Opaque magenta as an RGBA float pixel. */
  const Magenta: seq<real> := [1.0, 0.0, 1.0, 1.0]

  /** CreateDefaultTexture: a 4x4 RGBA image whose every pixel is magenta. */
  method CreateDefaultTexture() returns (width: nat, height: nat, pixels: seq<real>)
    ensures width == 4 && height == 4
    ensures |pixels| == width * height * 4
    ensures forall k :: 0 <= k < |pixels| ==> pixels[k] == Magenta[k % 4]
  {
    width, height := 4, 4;
    pixels := [];
    var j := 0;
    while j < height
      invariant j <= height
      invariant |pixels| == 16 * j
      invariant forall k :: 0 <= k < |pixels| ==> pixels[k] == Magenta[k % 4]
    {
      var i := 0;
      while i < width
        invariant i <= width
        invariant |pixels| == 16 * j + 4 * i
        invariant forall k :: 0 <= k < |pixels| ==> pixels[k] == Magenta[k % 4]
      {
        ghost var start := |pixels|;
        pixels := pixels + [1.0, 0.0, 1.0, 1.0];
        assert start % 4 == 0;
        i := i + 1;
      }
      j := j + 1;
    }
  }

  // ---------------------------------------------------------------------
  // Height map
  // ---------------------------------------------------------------------

  /** A single-precision noise coordinate: a finite value, or the NaN or
      infinity that a division by zero produces. */
  datatype Coordinate = Finite(value: real) | NonFinite

  /** The noise coordinate of sample k along an axis of n samples:
      k / (n - 1) + offset, with n - 1 computed in `unsigned int`; the n samples
      then span [offset, offset + 1]. With a single sample the divisor is 0. */
  function SampleCoordinate(k: nat, n: u32, offset: int): Coordinate
  {
    var divisor := Sub32(n, 1);
    if divisor == 0 then NonFinite else Finite(k as real / divisor as real + offset as real)
  }

  /** The height stored for sample (i, j): half the fractal noise at its coordinate.
      `noise` stands for the fixed-parameter fractal Perlin noise of the source. */
  function HeightSample(width: u32, height: u32, coords: Point, noise: (Coordinate, Coordinate) -> real, i: nat, j: nat): real
  {
    noise(SampleCoordinate(i, width, coords.x), SampleCoordinate(j, height, coords.y)) * 0.5
  }

  /** The block pushed for sample (i, j): its one height. */
  function HeightCells(width: u32, height: u32, coords: Point, noise: (Coordinate, Coordinate) -> real): (nat, nat) -> seq<real>
  {
    (i: nat, j: nat) => [HeightSample(width, height, coords, noise, i, j)]
  }

  /** The samples pushed for the first `rows` rows of a map `width` samples wide. */
  function HeightMap(width: u32, height: u32, coords: Point, noise: (Coordinate, Coordinate) -> real, rows: nat): seq<real>
  {
    GridBlocks(HeightCells(width, height, coords, noise), width, rows)
  }

  /** The first `rows` rows of the height map hold width * rows samples. */
  lemma HeightMapLength(width: u32, height: u32, coords: Point, noise: (Coordinate, Coordinate) -> real, rows: nat)
    ensures |HeightMap(width, height, coords, noise, rows)| == width * rows
  {
    GridBlocksLength(HeightCells(width, height, coords, noise), 1, width, rows);
  }

  /** The height map is row-major: sample (i, j) is stored at j * width + i. */
  lemma HeightMapAt(width: u32, height: u32, coords: Point, noise: (Coordinate, Coordinate) -> real, rows: nat, i: nat, j: nat)
    requires i < width && j < rows
    ensures |HeightMap(width, height, coords, noise, rows)| == width * rows
    ensures var n := j * width + i;
            && 0 <= n < |HeightMap(width, height, coords, noise, rows)|
            && HeightMap(width, height, coords, noise, rows)[n] == HeightSample(width, height, coords, noise, i, j)
  {
    GridBlocksAt(HeightCells(width, height, coords, noise), 1, width, rows, i, j, 0);
  }

  /** Patches whose coordinates differ by one along x sample the same noise on
      their shared edge: the last column of patch (x, y) equals the first column
      of patch (x + 1, y). This is what lets the demo's four patches tile. */
  lemma HeightMapsShareColumnEdge(width: u32, height: u32, coords: Point, noise: (Coordinate, Coordinate) -> real, j: nat)
    requires width >= 2
    ensures HeightSample(width, height, coords, noise, width - 1, j)
            == HeightSample(width, height, Point(coords.x + 1, coords.y), noise, 0, j)
  {
    assert (width - 1) as real / (width - 1) as real == 1.0;
  }

  /** The same along y: the last row of patch (x, y) equals the first row of patch (x, y + 1). */
  lemma HeightMapsShareRowEdge(width: u32, height: u32, coords: Point, noise: (Coordinate, Coordinate) -> real, i: nat)
    requires height >= 2
    ensures HeightSample(width, height, coords, noise, i, height - 1)
            == HeightSample(width, height, Point(coords.x, coords.y + 1), noise, i, 0)
  {
    assert (height - 1) as real / (height - 1) as real == 1.0;
  }

  /** CreateHeightMap: width * height samples of the noise, row by row. */
  method CreateHeightMap(width: u32, height: u32, coords: Point, noise: (Coordinate, Coordinate) -> real) returns (pixels: seq<real>)
    ensures pixels == HeightMap(width, height, coords, noise, height)
    ensures |pixels| == width * height
  {
    pixels := [];
    var j: u32 := 0;
    while j < height
      invariant j <= height
      invariant pixels == HeightMap(width, height, coords, noise, j)
    {
      var i: u32 := 0;
      while i < width
        invariant i <= width
        invariant pixels == HeightMap(width, height, coords, noise, j) + RowBlocks(HeightCells(width, height, coords, noise), j, i)
      {
        var x := SampleCoordinate(i, width, coords.x);
        var y := SampleCoordinate(j, height, coords.y);
        var sample := noise(x, y) * 0.5;
        pixels := pixels + [sample];
        assert RowBlocks(HeightCells(width, height, coords, noise), j, i + 1)
               == RowBlocks(HeightCells(width, height, coords, noise), j, i) + [sample];
        i := i + 1;
      }
      assert HeightMap(width, height, coords, noise, j + 1)
             == HeightMap(width, height, coords, noise, j) + RowBlocks(HeightCells(width, height, coords, noise), j, width);
      j := j + 1;
    }
    HeightMapLength(width, height, coords, noise, height);
  }
}
