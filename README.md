# Terrain grid tessellation, verified in Dafny

This project models how two terrain demos of an OpenGL teaching repository
build their vertex and index buffers, and proves the layout facts that
rendering depends on. Vertex positions are integer lattice coordinates, not
floats.

- `textured_terrain.dfy` (module `TexturedTerrain`) models the textured-terrain demo:
  - `CreateTerrainMesh` builds a shared-vertex grid. It emits one vertex per lattice point, row by row. In the same pass it emits two triangles for every vertex with `i > 0 && j > 0`. The index arithmetic is on `unsigned int`, modelled modulo 2^32.
  - `CreateDefaultTexture` fills a 4x4 magenta RGBA buffer.
  - `CreateHeightMap` fills a row-major buffer of noise samples.
- `terrain.dfy` (module `Terrain`) models the first terrain demo:
  - the grid loop of `Initialize`, where every cell pushes its own four corner vertices and six indices;
  - the elevation colour classifier `GetColor`.
- `lattice.dfy` (module `Lattice`) holds what both share:
  - lattice points;
  - the signed area used for winding;
  - the generic row-major layout of a grid of equal-sized blocks. Element k of cell (i, j) sits at `size * (j * columns + i) + k`.

Each loop is an imperative method over local `seq` buffers, as the source
fills local `std::vector`s. Each method ensures that its buffers equal a
specification function of its inputs. The lemmas prove lengths, element
positions, bounds and the per-cell triangle pattern of those functions.

Two facts about the code shape the model:

- The code checks no grid size. Its index buffers are modelled for every size; a grid with fewer than two points along an axis emits no triangles.
- The two triangles of an exercise04 quad, (bl, br, tl) and (br, tl, tr), are wound in opposite directions (`TexturedTerrain.QuadWinding`).

## Model

| member | source | states |
|---|---|---|
| TexturedTerrain.CreateTerrainMesh | exercises/exercise04/TexturedTerrainApplication.cpp:262-328 | the vertex and index buffers are exactly the row-major lattice vertices and the row-major quads of the interior cells, with gridX * gridY vertices and 6 * (gridY - 1) * (gridX - 1) indices |
| TexturedTerrain.EmitMeshRow | exercises/exercise04/TexturedTerrainApplication.cpp:297-323 | one pass over row j appends that row's vertices left to right and, when j > 0, the quads of cell row j - 1 in column order |
| TexturedTerrain.GridVerticesLength | exercises/exercise04/TexturedTerrainApplication.cpp:295-303 | the vertex buffer holds one vertex per lattice point, gridX * gridY in all |
| TexturedTerrain.GridVerticesAt | exercises/exercise04/TexturedTerrainApplication.cpp:295-303 | the vertex at j * gridX + i has lattice position (i, j), normal (0, 1, 0) and texture coordinate (i, j) |
| TexturedTerrain.GridIndicesLength | exercises/exercise04/TexturedTerrainApplication.cpp:306-322 | six indices per interior cell: 6 * (gridY - 1) * (gridX - 1), and none for a grid narrower than two points |
| TexturedTerrain.GridIndicesAt | exercises/exercise04/TexturedTerrainApplication.cpp:295-322 | each interior cell (c, r) gets exactly one quad, in row-major cell order: the six slots from 6 * (r * (gridX - 1) + c) hold bl, br, tl, br, tl, tr of the quad ending at (c + 1, r + 1) |
| TexturedTerrain.QuadCornersExact | exercises/exercise04/TexturedTerrainApplication.cpp:306-311 | for 1 <= i < gridX and 1 <= j < gridY with gridX * gridY <= 2^32, top_right does not wrap, no subtraction underflows, and the corners are the row-major indices of (i-1, j-1), (i, j-1), (i-1, j), (i, j) |
| TexturedTerrain.GridIndicesInBounds | exercises/exercise04/TexturedTerrainApplication.cpp:306-321 | every emitted index is below gridX * gridY, the vertex count, at every grid size (past 2^32 vertices because every index is an `unsigned int`) |
| TexturedTerrain.QuadCoversCell | exercises/exercise04/TexturedTerrainApplication.cpp:308-321 | the quad ending at (i, j) names exactly the four corner vertices of the cell spanning columns i-1..i and rows j-1..j |
| TexturedTerrain.QuadWinding | exercises/exercise04/TexturedTerrainApplication.cpp:313-321 | triangle (bl, br, tl) turns counter-clockwise and triangle (br, tl, tr) clockwise in the (i, j) plane |
| TexturedTerrain.TopRightWrapsPastU32 | exercises/exercise04/TexturedTerrainApplication.cpp:308 | whenever j * gridX + i >= 2^32 the unsigned top_right is smaller than it by a multiple of 2^32, and exactly 2^32 smaller below 2^33 |
| TexturedTerrain.WrappedQuadMisnamesCorner | exercises/exercise04/TexturedTerrainApplication.cpp:308-321 | in a grid where the corner (i, j) has row-major index 2^32 or more, the wrapped top_right is a valid vertex index but holds a different lattice point |
| TexturedTerrain.GridVerticesElsewhere | exercises/exercise04/TexturedTerrainApplication.cpp:295-303 | every vertex slot before j * gridX + i holds a lattice point other than (i, j) |
| TexturedTerrain.TopRightWrapExample | exercises/exercise04/TexturedTerrainApplication.cpp:308 | one instance: for a 65536-wide grid the quad ending at (1, 65536), vertex 2^32 + 1, names vertex 1 |
| TexturedTerrain.ConsistentQuadWinding | exercises/exercise04/TexturedTerrainApplication.cpp:313-321 | with the second triangle listed as (br, tr, tl), both triangles of every quad turn counter-clockwise in the (i, j) plane |
| TexturedTerrain.CreateDefaultTexture | exercises/exercise04/TexturedTerrainApplication.cpp:174-197 | a 4 x 4 image of 64 floats in which every pixel is (1, 0, 1, 1) |
| TexturedTerrain.CreateHeightMap | exercises/exercise04/TexturedTerrainApplication.cpp:225-247 | the buffer is the row-major height map of width * height samples |
| TexturedTerrain.HeightMapLength | exercises/exercise04/TexturedTerrainApplication.cpp:229-240 | `rows` rows of the map hold width * rows samples |
| TexturedTerrain.HeightMapAt | exercises/exercise04/TexturedTerrainApplication.cpp:229-240 | the sample at j * width + i is half the noise at (i / (width - 1) + coords.x, j / (height - 1) + coords.y) |
| TexturedTerrain.HeightMapsShareColumnEdge | exercises/exercise04/TexturedTerrainApplication.cpp:235-238 | the last column of the patch at coords (x, y) equals the first column of the patch at (x + 1, y), so adjacent patches agree on their shared edge |
| TexturedTerrain.HeightMapsShareRowEdge | exercises/exercise04/TexturedTerrainApplication.cpp:235-238 | the last row of the patch at (x, y) equals the first row of the patch at (x, y + 1) |
| Terrain.GetColor | exercises/exercise01/TerrainApplication.cpp:47-57 | every elevation gets one of the three colours blue, green, white |
| Terrain.GetColorBands | exercises/exercise01/TerrainApplication.cpp:47-57 | blue exactly when z < -0.025, green exactly when -0.025 <= z < 0.05, white exactly when z >= 0.05 |
| Terrain.GetColorMonotone | exercises/exercise01/TerrainApplication.cpp:47-57 | a higher elevation never gets a lower colour band |
| Terrain.BuildCellGrid | exercises/exercise01/TerrainApplication.cpp:83-130 | the buffers are exactly the per-cell vertex grid and the per-cell index grid with stride gridY, of VertexCount = gridX * gridY * 4 and DrawCount = 2 * 3 * gridX * gridY entries |
| Terrain.BuildCellRow | exercises/exercise01/TerrainApplication.cpp:84-129 | one row of cells appends, per cell in column order, its four corner vertices and its six indices |
| Terrain.CellGridVerticesLength | exercises/exercise01/TerrainApplication.cpp:117-135 | four vertices per cell, matching vertexCount = gridX * gridY * 4 |
| Terrain.CellGridVerticesAt | exercises/exercise01/TerrainApplication.cpp:86-120 | cell (column, row) owns the four vertex slots from 4 * (row * gridX + column): corners (column, row), (column+1, row), (column+1, row+1), (column, row+1) with texture coordinates (0,0), (1,0), (1,1), (0,1), each lifted by the noise there and coloured by GetColor |
| Terrain.NeighbourCellsAgree | exercises/exercise01/TerrainApplication.cpp:86-115 | duplicated corners of neighbouring cells carry the same lattice point, elevation and colour |
| Terrain.CellGridIndicesLength | exercises/exercise01/TerrainApplication.cpp:122-128 | six indices per cell, equal to the draw count 2 * 3 * gridX * gridY |
| Terrain.CellGridIndicesAt | exercises/exercise01/TerrainApplication.cpp:122-128 | the six indices of cell (column, row) sit at 6 * (row * gridX + column) and are base + 0, 1, 3, 1, 2, 3 with base = row * stride * 4 + column * 4 |
| Terrain.IntendedIndicesInBounds | exercises/exercise01/TerrainApplication.cpp:122-128 | with the column count as stride, every index is below 4 * gridX * gridY |
| Terrain.IntendedTrianglesOwnCell | exercises/exercise01/TerrainApplication.cpp:117-128 | with the column count as stride, the six indices of every cell name that cell's own vertices 0, 1, 3 and 1, 2, 3 |
| Terrain.IntendedWinding | exercises/exercise01/TerrainApplication.cpp:122-128 | with the column count as stride, both triangles of every cell turn counter-clockwise |
| Terrain.SquareGridOwnCells | exercises/exercise01/TerrainApplication.cpp:117-128 | for a square grid such as the default 16 x 16, the loop as written puts base at the cell's first vertex (row * gridX + column) * 4, and each index is in bounds and names the cell's own vertex |
| Terrain.AsWrittenMisaddressesSecondRow | exercises/exercise01/TerrainApplication.cpp:122 | as written, when gridX != gridY, the first index of cell (0, 1) is 4 * gridY, but that cell's first vertex is at 4 * gridX |
| Terrain.AsWrittenIndexOutOfBounds | exercises/exercise01/TerrainApplication.cpp:122-128 | as written, with more rows than columns the last index is at least the vertex count |

## Left out

- GPU and device work is not modelled because it is foreign calls: `AddSubmesh`, the VAO/VBO/EBO calls, `SetImage`, `GenerateMipmap`, shaders, materials and draw calls. Only the buffers handed to them are modelled.
- `stb_perlin_fbm_noise3` is a parameter of the model (`noise`), not an implementation, because it is a foreign library call with fixed octave parameters. `stbi_load` and `LoadTexture` are left out because they are file I/O.
- Floating point is not modelled. Exercise04 positions are lattice coordinates, so its grid scale (line 288) does not arise. In exercise01 the corner coordinates `column / gridX - 0.5` used for the noise are exact `real` divisions (`Terrain.GridCoordinate`); the corners themselves are kept as lattice points. Heights, noise coordinates and texture channels are `real`, and the three vertex colours of exercise01 are integer 0/1 triples, exactly the source's 0.0f and 1.0f components; the demos' `float` rounding is not modelled.
- TexturedTerrain.GridVerticesAt: the lattice position (i, j) stands for the float position (i / (gridX - 1), 0, j / (gridY - 1)). For gridX == 1 (or gridY == 1) the source's scale is 1 / 0 = infinity and each x (or z) coordinate is 0 * infinity = NaN; the model keeps the lattice position there and does not capture the NaN.
- TexturedTerrain.CreateHeightMap: the division by `width - 1` is modelled on `unsigned int`. When it divides by zero the coordinate is the single value `NonFinite`; which NaN or infinity results is not modelled.
- TexturedTerrain.QuadCornersExact: proved only when gridX * gridY <= 2^32. The grid's vertices then all have 32-bit indices. Beyond that the index wraps and names another vertex (`TopRightWrapsPastU32`, `WrappedQuadMisnamesCorner`).
- TexturedTerrain.QuadCoversCell: proved only when gridX * gridY <= 2^32, for the same reason.
- TexturedTerrain.QuadWinding: proved only when gridX * gridY <= 2^32, for the same reason.
- TexturedTerrain.ConsistentQuadWinding: proved only when gridX * gridY <= 2^32, for the same reason.
- Terrain.BuildCellGrid: grid sizes and indices are unbounded naturals. The buffer is a `std::vector<unsigned int>` (line 71), so each pushed index is reduced modulo 2^32; the model does not reduce them, so it holds only while every index is below 2^32. The declared type of `m_gridX` and `m_gridY` is in a header that is not part of this model.
- Terrain.BuildCellRow: each cell's four vertex pushes are one append, and so are its six index pushes. The resulting buffers are the same.
- TexturedTerrain.EmitMeshRow: the inner loop of `CreateTerrainMesh` is a method of its own. `Terrain.BuildCellRow` does the same for `Initialize`. The loops and their order are unchanged.
- `Vector3::Normalize`, the camera, window and mouse handling, `UpdateOutputMode`, and the rendering lifecycle are left out because they are presentation and I/O.
- The black-hole and ray-marching demos only set shader uniforms, so they are left out. The headers only declare.

## Findings

| source | as written | input that shows it | evidently intended | confidence | as-written member | corrected member |
|---|---|---|---|---|---|---|
| exercises/exercise04/TexturedTerrainApplication.cpp:319-321 | the second triangle of every quad is (bottom_right, top_left, top_right) | any quad, e.g. the one ending at (1, 1) of a 2 x 2 grid: triangle (bl, br, tl) has signed area +1 in the (i, j) plane, triangle (br, tl, tr) has -1 | both triangles wound the same way, e.g. the second as (bottom_right, top_right, top_left) | not executed; face culling is not enabled in the visible source, so the difference does not show on screen there | TexturedTerrain.QuadWinding | TexturedTerrain.ConsistentQuadWinding |
| exercises/exercise01/TerrainApplication.cpp:122 | the index base of cell (row, column) is `row * m_gridY * 4 + column * 4` | gridX = 1, gridY = 2: cell (0, 1) gets indices 8 to 11, but its vertices are at 4 to 7 and the buffer holds only 8 vertices | the stride is the row length `m_gridX`: base = `row * m_gridX * 4 + column * 4`, the cell's first pushed vertex | not executed | Terrain.AsWrittenMisaddressesSecondRow | Terrain.IntendedTrianglesOwnCell |

`Terrain.BuildCellGrid` models the loop as written, using the index grid with stride gridY. `Terrain.AsWrittenIndexOutOfBounds` shows that indexing runs out of bounds whenever gridY > gridX. The corrected index grid uses stride gridX. `Terrain.IntendedIndicesInBounds`, `Terrain.IntendedTrianglesOwnCell` and `Terrain.IntendedWinding` prove the intended properties about it. The default 16 x 16 grid fares the same either way (`Terrain.SquareGridOwnCells`).

`TexturedTerrain.CreateTerrainMesh` emits the triangles as written (`QuadIndices`). `TexturedTerrain.ConsistentQuadIndices` lists the second triangle the other way round, and `TexturedTerrain.ConsistentQuadWinding` proves that both of its triangles then turn the same way.
