# novaterra voxel meshing, modelled in Dafny

This project models the voxel-meshing core of novaterra, a Go voxel-terrain
experiment, as pure Dafny functions over immutable sequences, and proves
what the Go code promises about them. It covers:

- **Transvoxel regular-cell extractor** (`Transvoxel`, transvoxel.go):
  - the eight corner samples of a cell and the 8-bit sign case code;
  - the early exit for case 0;
  - the vertex and index emission with an index offset and reversed winding;
  - the sweep over an inflated grid;
  - the case viewer that shows one table entry per step.
- **Marching Cubes** (`MarchingCubes`, marching_cubes.go):
  - the case index and the edge-flag filter;
  - the sentinel-terminated triangle lists;
  - the padded `[-1, size]³` sweep and the voxel sampler.
- **Block meshers** of chunk.go (`Blocks`): one unit cube per non-empty
  block, with and without interior culling.
- **Greedy mask scan** of chunk.go (`Greedy`): the face mask of one slice
  and its decomposition into disjoint rectangles.
- **Material octree** of octree.go (`Octree`): `NewTree`, lazy `At` descent,
  the closed-box `contains` test, pre-order `DFS` and `merge`.
- **Level-of-detail tree** of transvoxel_terrain.go (`Lod`): `Expand`, the
  node choice of `Render`, and the node's click handler.
- **Dual-contouring experiment** of world_scene.go (`DualContour`):
  - the density `f`;
  - the crossing enumeration of `findBestVertex` and `adapt`;
  - the clamp of the least-squares vertex;
  - the two loops of `Generate`.
- **Shared pieces:**
  - `Helpers` (helpers.go): `flatten`/`unflatten`, `indices`,
    `reverseWinding`, `computeNormals`/`fromVertices`, `voxelsAtStep`;
  - `Voxels`: `inflate` and the brush edit shared by every
    `HandleVoxelClick`;
  - `Geometry`: the `GeometryBuilder` of geometry.go, meshes and Go's float
    truncation;
  - `Bits`: packed flag sequences;
  - `Sweep`: the integer ranges and lexicographic order of nested `for` loops.

Floats are modelled as `real` and `int8` as a bounded integer. Calls the
model cannot see are function parameters:

- `sqrt` (`math32.Sqrt`);
- the triangle face normal (`math32.Triangle.Normal`);
- the LAPACK least-squares solve (`Dgels`);
- the finite-difference normal `fNormal`.

The lookup tables are parameters too, each with a well-formedness predicate:

- `RegularCellData`, `RegularCellClass`, `RegularVertexData`;
- `MarchingCubesEdges`, `MarchingCubesEdgeConnections`, `MarchingCubesTriangles`,
  `MarchingCubesNeighborOffsets`;
- `NeighborOffsets`.

## Model

| member | source | states |
|---|---|---|
| Geometry.Trunc | world_scene.go:45 | Go's `int(f)` truncates toward zero: for a non-negative float the result is the floor, for a negative one the ceiling |
| Geometry.TruncOfInt | world_scene.go:45 | converting an integer-valued float back gives the integer itself |
| Geometry.CurrentTriangleIndex | geometry.go:16-18 | the result is below 2^32, and while the buffer is shorter than 3·2^32 floats it is the number of whole vertices in the position buffer |
| Geometry.AddVertex | geometry.go:20-24 | exactly the three coordinates are appended, the indices are untouched, and the current triangle index advances by one (mod 2^32) |
| Geometry.AddTriangle | geometry.go:26-30 | the three indices are appended in order without any check, and the positions and current index are unchanged |
| Geometry.RunKeepsTriples | geometry.go:20-30 | any sequence of AddVertex/AddTriangle calls keeps both buffers whole triples and grows the positions by three floats per AddVertex |
| Geometry.AppendCount | transvoxel.go:123-125 | appending one mesh to another adds their vertex counts and keeps positions and normals in lockstep |
| Geometry.AppendWellFormed | transvoxel.go:122-125 | appending a block whose indices are offset by the current vertex count keeps every index naming a vertex |
| Geometry.AppendAtWrappedCount | transvoxel.go:122 | the same holds when the offset is the count wrapped to uint32, as long as the total stays below 2^32 |
| Helpers.Flatten | helpers.go:18-26 | three floats per vertex, and float 3i+c is coordinate c of vertex i |
| Helpers.Unflatten | helpers.go:28-38 | a buffer of 3k floats gives k vertices |
| Helpers.UnflattenFlatten | helpers.go:18-38 | unflatten undoes flatten for every vertex list |
| Helpers.FlattenUnflatten | helpers.go:18-38 | flatten undoes unflatten for every buffer whose length is a multiple of 3 |
| Helpers.Indices | helpers.go:40-46 | `count` entries, each a uint32 |
| Helpers.IndicesIdentity | helpers.go:40-46 | below 2^32 entry i is i, so the entries are distinct |
| Helpers.ReverseWinding | helpers.go:66-74 | the result has the input's length |
| Helpers.ReverseWindingTriples | helpers.go:66-74 | each full triple (a, b, c) becomes (c, b, a), and the slots of a trailing partial triple become 0 |
| Helpers.ReverseWindingInvolution | helpers.go:66-74 | on whole-triple buffers reversing twice gives the original back |
| Helpers.ReverseWindingBounded | helpers.go:66-74 | reversing keeps every index inside any range the input respected |
| Helpers.ComputeNormals | helpers.go:48-60 | three normal floats per vertex |
| Helpers.FlatShading | helpers.go:50-57 | all three vertices of triangle t get the negated face normal of that triangle |
| Helpers.FromVertices | helpers.go:62-64 | k vertices give 3k positions, 3k normals and k indices, and below 2^32 vertices every index names a vertex |
| Helpers.AllSolid | helpers.go:213-216 | the start grid is 2×2×2 |
| Helpers.StartUnmarked | helpers.go:213-216 | before any test every corner is 127 |
| Helpers.Mark | helpers.go:217-239 | one bit test sets its corner to -127 exactly when the bit is set and leaves the other corners alone |
| Helpers.StepCornerBit | helpers.go:217-239 | the eight tests address eight distinct corners, test k addressing the corner whose bit number is k |
| Helpers.AllMarked | helpers.go:217-241 | after the eight tests corner (x, y, z) is -127 exactly when bit x + 2z + 4y of i is set, and 127 otherwise |
| Helpers.VoxelsAtStep | helpers.go:212-242 | the result is the 2×2×2 grid whose corners encode the bits of i |
| Voxels.Inflate | helpers.go:76-94 | the inflated grid is (n+3)×(m+3)×(l+3) |
| Voxels.InflateContents | helpers.go:85-92 | cell (x+1, y+1, z+1) holds a[x][y][z], and every cell outside that shifted block is 0 |
| Voxels.InflateAt | helpers.go:89 | one sample of the original is read back from the inflated grid one step along each axis |
| Voxels.Crop | helpers.go:76-94 | cropping the inner block of an (n+3)×(m+3)×(l+3) grid gives an n×m×l grid |
| Voxels.CropInflate | helpers.go:76-94 | cropping an inflated grid gives the original back, so inflate loses nothing |
| Voxels.Set3 | transvoxel.go:215-217 | one cell is replaced and every other cell and every length is unchanged |
| Voxels.EditSampleBounds | transvoxel.go:214-218 | with shift only a negative value is incremented and stays ≤ 0; without shift only a value above -127 is decremented and stays ≥ -127; anything else is unchanged |
| Voxels.ApplyBrush | transvoxel.go:207-222 | the edited grid keeps its shape, and every cell equals the brushed sample: changed only inside the 3×3×3 neighbourhood and the edit box |
| Voxels.BrushBounds | marching_cubes.go:155-170 | a brushed cell differs by at most 1, changes only in the neighbourhood, rises exactly when it was negative (shift) and falls exactly when it was above -127 (no shift) |
| Transvoxel.CornerOffsetsCount | transvoxel.go:16-25 | corner k of cornerVertices is the corner whose bit in the step number is k |
| Transvoxel.Corners | transvoxel.go:27-38 | eight samples, sample k read at the cell origin plus corner offset k |
| Transvoxel.LowByte | transvoxel.go:41-48 | the `uint8` conversion gives a byte |
| Transvoxel.SignTerm | transvoxel.go:41-47 | the arithmetic shift of an int8 right by 7-k sets bit k exactly for a negative value |
| Transvoxel.ShiftedBitIsSign | transvoxel.go:41-47 | term k (k < 7) is 2^k for a negative corner and 0 otherwise |
| Transvoxel.TopBitIsSign | transvoxel.go:48 | the masked byte of c[7] is 128 exactly when c[7] is negative |
| Transvoxel.CaseTermsArePack | transvoxel.go:41-48 | the OR of the eight terms is the sum of the weights of the negative corners, a byte |
| Transvoxel.CaseCode | transvoxel.go:40-49 | the case code is the packed sign flags and is below 256 |
| Transvoxel.CaseCodeBits | transvoxel.go:40-49 | bit k of the case code is set exactly when corner k is negative |
| Transvoxel.EarlyExitIffCaseZero | transvoxel.go:54-56 | the early exit fires exactly for case 0, that is exactly when no corner is negative; case 255 is not short-circuited |
| Transvoxel.CaseZeroIffNonNegative | transvoxel.go:40-49 | the case code is 0 exactly when no corner is negative |
| Transvoxel.NoFlagsIffNonNegative | transvoxel.go:40-49 | the packed flags are 0 exactly when no corner is negative |
| Transvoxel.CellOf | transvoxel.go:61-64 | the cell found through the class table has at most 15 vertices, enough vertex data, and triangle indices below 15 |
| Transvoxel.EdgeParamRoot | transvoxel.go:81-83 | for corners of opposite sign d1 - d0 ≠ 0, t = d1/(d1-d0) lies in [0, 1], and the interpolated density d0·t + d1·(1-t) is 0 |
| Transvoxel.NormalizeFacts | transvoxel.go:97-103 | a zero norm divides by 1 (the normal is unchanged), otherwise the result times the norm is the raw normal, and it has unit length when the norm is the true length |
| Transvoxel.UnitAfterDivision | transvoxel.go:97-103 | dividing a vector by its length gives a unit vector |
| Transvoxel.EdgeVertexOnEdge | transvoxel.go:79-96 | the emitted vertex is the corner interpolation at the zero crossing, moved by (x, y, z), and its raw normal interpolates the corner gradients with the same t |
| Transvoxel.EdgeVertexNormal | transvoxel.go:96-103 | the emitted normal is the raw normal divided by its norm, or the raw normal itself when the norm is 0 |
| Transvoxel.CaseCrossings | transvoxel.go:61-83 | with well-formed tables every vertex code of the cell's case names an edge whose corners differ in sign |
| Transvoxel.CellMesh | transvoxel.go:93-103 | the buffers hold three floats per vertex and unflatten to exactly the vertex positions and normals |
| Transvoxel.EmittedIndices | transvoxel.go:105-109 | the emitted indices are the table indices with each triangle's corners reversed |
| Transvoxel.CaseMesh | transvoxel.go:57-110 | a cell that does not exit early gets one vertex per vertex code of its case: vertex v lies on the v-th code's edge, whose corners differ in sign, at the interpolated crossing, with the normalised gradient as its normal; the indices are the table indices reversed |
| Transvoxel.MeshVertices | transvoxel.go:65-103 | buffers built from the cell's vertices hold, as vertex v, the position and normal interpolated on the v-th code's edge |
| Transvoxel.GenerateTransvoxelMesh | transvoxel.go:51-111 | an early-exit cell gives the empty mesh; otherwise vertex v is the crossing vertex of the case's v-th vertex code, with its normalised gradient, and the indices are the case's table indices reversed |
| Transvoxel.TableIndicesInRange | transvoxel.go:92-107 | every table index lies in [maxIndex, maxIndex + vertexCount) |
| Transvoxel.CaseIndicesInRange | transvoxel.go:105-109 | reversing the winding keeps every index in [maxIndex, maxIndex + vertexCount) |
| Transvoxel.CellIndicesInRange | transvoxel.go:51-111 | every index one cell emits names one of that cell's own new vertices |
| Transvoxel.AppendCell | transvoxel.go:122-125 | appending a cell meshed at offset len(positions)/3 keeps the whole mesh's indices in range |
| Transvoxel.MarchCells | transvoxel.go:119-128 | the accumulated mesh keeps positions and normals in lockstep and never loses vertices |
| Transvoxel.MarchCellsWellFormed | transvoxel.go:119-128 | below 2^32 vertices every index of the accumulated mesh names a vertex |
| Transvoxel.SweepInBounds | transvoxel.go:117-122 | every corner and central-difference read of every swept cell lies inside the inflated grid |
| Transvoxel.MarchTransvoxels | transvoxel.go:113-130 | the sweep's mesh keeps the buffers in lockstep, and with bounded tables and below 2^32 vertices every index names a vertex |
| Transvoxel.ChunkMesh | transvoxel.go:269-270 | the chunk's mesh, meshed from a twice-inflated grid, has the same guarantees |
| Transvoxel.HandleVoxelClick | transvoxel.go:207-231 | the grid keeps its shape and each cell is the brushed sample; the rebuilt mesh is the chunk mesh of the edited grid, well formed under the same conditions |
| Transvoxel.InflatedCorner | transvoxel.go:177 | corner k of cell (1, 1, 1) of an inflated 2×2×2 grid is the sample at corner offset k |
| Transvoxel.StepCornerSign | helpers.go:212-242 | in the grid of step i, corner k of that cell is negative exactly when bit k of i is set |
| Transvoxel.StepCornerSigns | helpers.go:212-242 | the sign flags of that cell are the low eight bits of i |
| Transvoxel.StepGridCase | transvoxel.go:177-195 | round trip: the case code of the step-i grid's cell is i, for all 256 values |
| Transvoxel.StepGridReadable | transvoxel.go:177 | the inflated step grid holds every gradient read of cell (1, 1, 1) |
| Transvoxel.StepGridMesh | transvoxel.go:177 | step 0 gives the empty mesh, and any other step gives table entry i with reversed winding |
| Transvoxel.CaseViewerMesh | transvoxel.go:177-195 | the case viewer shows table entry i for step i (empty for 0), so stepping through the cases shows every entry |
| MarchingCubes.CaseIndex | marching_cubes.go:42-47 | the case index packs the at-or-above flags and is below 256 |
| MarchingCubes.CaseIndexBits | marching_cubes.go:42-47 | bit i is set exactly when v[i] ≥ isolevel, and no bit above 7 is set |
| MarchingCubes.EdgePoint | marching_cubes.go:17-23 | a point is interpolated exactly for the edges flagged in the edge table entry |
| MarchingCubes.CrossingFraction | marching_cubes.go:21 | when the endpoints straddle the isolevel, (isolevel - v0)/(v1 - v0) lies in [0, 1] and interpolates to the isolevel |
| MarchingCubes.EdgePointOnEdge | marching_cubes.go:18-22 | a flagged edge's point lies on the segment between its corners where the density reaches the isolevel |
| MarchingCubes.TriangleVertices | marching_cubes.go:24-32 | the list is read in triples up to the -1 sentinel, so its length is a multiple of 3 |
| MarchingCubes.TriangleVerticesAt | marching_cubes.go:26-30 | vertex j is the point of the edge the table names at position j, and no triple starts at the sentinel |
| MarchingCubes.TriangleVerticesPresent | marching_cubes.go:24-32 | when the list names only flagged edges, every vertex has a point |
| MarchingCubes.GenerateTriangles | marching_cubes.go:15-33 | whole triangles only |
| MarchingCubes.GeneratedPresent | marching_cubes.go:15-33 | with consistent tables no vertex is nil |
| MarchingCubes.CaseClassifies | marching_cubes.go:35-47 | the case index classifies every corner of the cell |
| MarchingCubes.MarchCube | marching_cubes.go:35-52 | whole triangles, and nothing when the edge table entry of the case is 0 |
| MarchingCubes.UniformCellEmpty | marching_cubes.go:42-50 | a cell entirely above or entirely below the isolevel gives no triangles |
| MarchingCubes.GeneratedOnEdge | marching_cubes.go:15-33 | every generated vertex is a crossing point of a cell edge |
| MarchingCubes.MarchCubeOnSurface | marching_cubes.go:35-52 | every vertex marchCube returns lies on a cell edge where the density equals the isolevel |
| MarchingCubes.MarchCubePresent | marching_cubes.go:35-52 | with consistent tables no vertex is nil |
| MarchingCubes.MarchOrigins | marching_cubes.go:56-63 | whole triangles after any sequence of cells |
| MarchingCubes.MarchOriginsAppend | marching_cubes.go:56-63 | the result for two runs of cells is the concatenation of their results |
| MarchingCubes.MarchOriginsPresent | marching_cubes.go:56-63 | no vertex of the sweep is nil |
| MarchingCubes.SweepCellsFacts | marching_cubes.go:56-58 | the sweep visits each integer origin of [-1, size]³ exactly once, (size+2)³ cells in i, j, k order |
| MarchingCubes.MarchCubes | marching_cubes.go:54-65 | whole triangles |
| MarchingCubes.VoxelSampleAt | marching_cubes.go:68-74 | the sampler reads the voxel at an in-range integer point and 0 outside |
| MarchingCubes.MarchVoxels | marching_cubes.go:67-75 | whole triangles |
| MarchingCubes.HandleVoxelClick | marching_cubes.go:155-181 | the grid is brushed, and the mesh holds three floats per marched vertex at that vertex's position, one index each, all naming vertices below 2^32 |
| Blocks.CubeCornersAreTheUnitCube | chunk.go:64-95 | the eight appended corners are the eight corners of the unit cube, each once |
| Blocks.CubePositionsAt | chunk.go:64-95 | vertex k of the block at (x, y, z) is (x + dx, y + dy, z + dz) for corner offset k |
| Blocks.CubeFacesArePlanar | chunk.go:97-143 | the 36 indices form six faces, each face's corners lying in one face plane of the cube |
| Blocks.CubeIndicesInBlock | chunk.go:63-143 | every index of a block lies in [i, i + 8) |
| Blocks.AddCubeKeepsIndices | chunk.go:63-143 | a cube adds 8 vertices, and its indices are the vertex count before it plus the pattern, so all indices stay below the vertex count |
| Blocks.InteriorIff | chunk.go:158-165 | a block is interior exactly when it is off the chunk boundary and its six face neighbours are non-empty, so a boundary block is never interior |
| Blocks.DrawCellsFacts | chunk.go:55-147 | each drawn block adds exactly 24 floats and 36 indices, and all indices stay below the vertex count |
| Blocks.ChunkCells | chunk.go:55-57 | the loops visit all 32768 cells of the chunk, each once, in x, y, z order |
| Blocks.BlockGeomFacts | chunk.go:51-156 | SimpleGeom and CulledGeom emit 24 floats and 36 indices per drawn block, and every index names a vertex |
| Blocks.DrawnCellsMembers | chunk.go:55-62 | the drawn cells are exactly the swept cells that are non-empty (and, with culling, not interior) |
| Blocks.CubesPositionsAt | chunk.go:64-95 | floats 24m to 24m + 24 of the appended cubes are the corners of the m-th cube |
| Blocks.CubesIndicesAt | chunk.go:97-143 | indices 36m to 36m + 36 of the appended cubes are the pattern from vertex first + 8m |
| Blocks.DrawCellsPositions | chunk.go:55-147 | the loop appends the cube positions of the drawn cells, in sweep order |
| Blocks.DrawCellsIndices | chunk.go:55-147 | the loop appends each drawn cube's indices numbered on from the vertices already there |
| Blocks.AddCubeIndices | chunk.go:63-143 | below 2^32 vertices, one appended cube adds the first block of a run of cube indices numbered from the current vertex count |
| Blocks.DrawnCellAt | chunk.go:55-62 | the m-th drawn cell is a swept, drawn cell |
| Blocks.DrawCellsBlockPositions | chunk.go:55-147 | from empty buffers, floats 24m to 24m + 24 are the cube of the m-th drawn cell |
| Blocks.DrawCellsBlockIndices | chunk.go:55-147 | from empty buffers, indices 36m to 36m + 36 are the cube pattern from vertex 8m |
| Blocks.BlockGeomContents | chunk.go:51-156 | block m of either mesher's buffers is the cube of the m-th drawn block in sweep order: its eight corners, and the pattern from vertex 8m |
| Blocks.CullingDrawsFewer | chunk.go:167-263 | CulledGeom draws a subset of SimpleGeom's blocks |
| Greedy.UpdateCell | chunk.go:357-361 | writing one row-major position changes exactly that cell of the mask |
| Greedy.Offset | chunk.go:313-361 | the Go offset n + k + h·S from n = j·S + i is cell (i + k, j + h) |
| Greedy.CellIndex | chunk.go:303-371 | row-major positions of the S×S mask lie inside it |
| Greedy.CellInjective | chunk.go:303-371 | different cells have different row-major positions |
| Greedy.ComputeMask | chunk.go:288-299 | mask cell (i, j) is set exactly when the material ids on the two sides of the face differ |
| Greedy.Width | chunk.go:313-314 | the width is the maximal run of set cells starting at (i, j) |
| Greedy.Height | chunk.go:321-335 | every row of the rectangle is set over [i, i+w), and growth stops at the edge or at the first row with a hole in that range |
| Greedy.Clear | chunk.go:357-361 | exactly the rectangle's cells are cleared |
| Greedy.CoveredSnoc | chunk.go:303-371 | a cell is covered by one more rectangle exactly when it is covered by the earlier ones or the new one |
| Greedy.AddQuad | chunk.go:303-371 | taking an all-set rectangle and clearing it keeps the rectangles disjoint, inside the initial set cells, and covering exactly the cells no longer set |
| Greedy.Scan | chunk.go:303-371 | the mask ends all clear, and the rectangles are disjoint and cover exactly the initially set cells |
| Greedy.GreedySlice | chunk.go:274-374 | for one slice, the rectangles are disjoint, lie in the chunk face, and cover exactly the faces whose two sides differ |
| Octree.NewTree | octree.go:22-24 | the node has the given position and size, no children and material 0 |
| Octree.FirstOctant | octree.go:32-43 | the first octant in table order whose closed box holds the point, or none |
| Octree.OctantsCover | octree.go:30-49 | every point of a node's closed box lies in one of its octants |
| Octree.OctantInside | octree.go:30-43 | an octant's box lies inside its parent's |
| Octree.AtReaches | octree.go:26-51 | the leaf At answers hangs in the tree it returns, some number of levels below the root |
| Octree.At | octree.go:26-51 | a leaf answers itself; otherwise the result is a leaf containing the point, found for every point inside the node; only the chosen octant's child is created or replaced, and existing children keep their material |
| Octree.Visits | octree.go:72-81 | the first call is on the start node at its depth, a false fn prunes it, and every call is on a node reachable at depth difference d |
| Octree.VisitChildren | octree.go:76-80 | every call made through the children is on a descendant, one level deeper or more |
| Octree.Dfs | octree.go:68-73 | a nil start gives no calls, and each call's depth is the distance from the start |
| Octree.VisitsComplete | octree.go:72-81 | when fn always returns true, every reachable node is visited at its own depth |
| Octree.VisitChildrenComplete | octree.go:76-80 | the same holds through every non-nil child |
| Octree.Merge | octree.go:83-104 | position and size are kept, and the material changes only from 0, in which case all children become nil |
| Octree.MergeFromLast | octree.go:85-97 | when the loop finishes, mat is the post-merge material of the last child, or 0 if it is nil |
| Octree.CollapseRule | octree.go:98-103 | a node collapses exactly when its material is 0, the loop found no mismatch, and child 7 exists with a nonzero post-merge material; it then takes that material and loses all children |
| Octree.UniformRunsThrough | octree.go:85-97 | when the remaining children all exist and merge to one nonzero material, the loop finishes with that material |
| Octree.UniformCollapses | octree.go:83-104 | a material-0 node whose eight children all merge to one nonzero material collapses to that material |
| Octree.MergeFromEmpty | octree.go:94-96 | nil children leave the slots alone and reset mat to 0 |
| Octree.MergeIdempotent | octree.go:83-104 | merge is idempotent: a second pass changes nothing |
| Octree.MergeFromAgain | octree.go:85-97 | re-running the child loop on its own output gives the same output |
| Bits.Pow2Add | transvoxel_terrain.go:57-58 | `1 << (a + b)` is `(1 << a) · (1 << b)`, so a node of level l + 1 spans twice the side of a node of level l |
| Lod.ChildOriginExact | transvoxel_terrain.go:61-68 | the size is even, so the truncating division is exact: a child sits offset · 8 · 2^level from its parent on each axis |
| Lod.Expand | transvoxel_terrain.go:56-74 | the node keeps its level and origin and gets eight children |
| Lod.ExpandChildrenAt | transvoxel_terrain.go:60-72 | child i is one level down at the offset origin, and it has children exactly when its level is above 0 |
| Lod.ExpandFull | transvoxel_terrain.go:56-74 | from level L ≥ 1 Expand builds a full 8-ary tree whose leaves are exactly its level-0 nodes |
| Lod.FullTreeLeaves | transvoxel_terrain.go:56-74 | a full tree of level L has 8^L leaves |
| Lod.LeavesFromFull | transvoxel_terrain.go:60-72 | children i..7 of a full tree hold (8 - i) · 8^(L-1) leaves |
| Lod.Rendered | transvoxel_terrain.go:76-80 | a node without children meshes itself alone |
| Lod.RenderedFull | transvoxel_terrain.go:76-88 | on a full tree of level L, Render meshes 7·L + 1 nodes, all below the tree's level unless it is a single leaf |
| Lod.RenderChildrenFull | transvoxel_terrain.go:81-87 | child 0 contributes its own rendering and children 1-7 one node each, all below the parent's level |
| Lod.HandleVoxelClick | transvoxel_terrain.go:33-54 | the brush changes only cells inside [0, 16)³ and the neighbourhood; the new mesh is the transvoxel mesh of the edited node grid, well formed under the table and size conditions |
| Lod.ClickKeepsBorder | transvoxel_terrain.go:38 | cells 16..18 of the node's 19³ grid are never touched |
| DualContour.F | world_scene.go:41-45 | f is 0 outside [0,16)×[0,256)×[0,16) |
| DualContour.FInside | world_scene.go:45 | inside the chunk f reads the block whose unit cube holds the point |
| DualContour.SampleIsF | world_scene.go:41-45 | the lattice sample is f at the lattice point |
| DualContour.Adapt | world_scene.go:64-70 | defined exactly when the two values differ in `> 0`; the fraction lies in [0, 1] and interpolates to 0 |
| DualContour.ZeroFraction | world_scene.go:69 | for values of opposite sign the divisor is nonzero and (0 - v0)/(v1 - v0) lies in [0, 1] |
| DualContour.CellEdgesAreTheCubeEdges | world_scene.go:116-136 | the three loops examine the 12 edges of the unit cube, each exactly once |
| DualContour.EdgeCrossing | world_scene.go:116-136 | an edge records a crossing exactly when its endpoints differ in `> 0` |
| DualContour.CrossingOnEdge | world_scene.go:116-136 | each crossing lies on its edge, at the fraction where the interpolated density is 0 |
| DualContour.Crossings | world_scene.go:115-136 | the list is no longer than the edges scanned and holds only crossings of the cell's edges |
| DualContour.CrossingsComplete | world_scene.go:115-136 | every crossing edge of the cell has its crossing in the list |
| DualContour.QefRowsAreTangentPlanes | world_scene.go:73-82 | a point meets row i exactly when it lies on the tangent plane at crossing i: its offset from the crossing is perpendicular to the crossing's normal |
| DualContour.Clamp | world_scene.go:100-102 | the result lies in [lo, hi] and is the value itself when that already does |
| DualContour.SolveQef | world_scene.go:90-103 | the vertex always lies in the cell: the centre on solver failure, the solution itself when it is inside the cell |
| DualContour.FindBestVertex | world_scene.go:106-147 | no vertex exactly when at most one edge crosses, and any vertex lies in the cell |
| DualContour.UniformCellHasNoVertex | world_scene.go:106-139 | a cell whose edges all keep their sign has no vertex |
| DualContour.SecondCrossing | world_scene.go:115-136 | a cell with one edge whose ends differ in `> 0` has a second one, because each face is a cycle of four edges |
| DualContour.TwoCrossings | world_scene.go:115-136 | two different crossing edges give at least two crossings in the list |
| DualContour.VertexPass | world_scene.go:156-179 | over cells without repeats, exactly the cells with a vertex get an index; the indices are distinct and as many as the vertices; each names its cell's vertex and the normal at the cell's lattice corner |
| DualContour.AppendIndex | world_scene.go:169 | giving a cell without an index the current vertex count adds exactly that cell to the map and keeps the indices distinct and below the new count |
| DualContour.AppendEntries | world_scene.go:169-176 | after the append, the new cell's index names its vertex and its normal, and every earlier cell's index still names its own |
| DualContour.Lookup | world_scene.go:189-235 | a present cell gives its index, and a missing one gives 0, as a Go nil-map read does |
| DualContour.OppositeWindings | world_scene.go:187-237 | the two quad windings are reverses of each other, triangle by triangle |
| DualContour.QuadCellsAroundEdge | world_scene.go:187-237 | the four cells each block reads are exactly the cells sharing the lattice edge from (x, y, z) along its axis |
| DualContour.FaceCellsGeometry | world_scene.go:187-237 | a quad's six corners are exactly the cells sharing its lattice edge, and both triangles face away from the solid end of the edge |
| DualContour.FaceX | world_scene.go:187-203 | the six indices are the map entries of the +x edge's quad cells, wound by which end is solid |
| DualContour.FaceY | world_scene.go:204-220 | the six indices are the map entries of the +y edge's quad cells, wound by which end is solid |
| DualContour.FaceZ | world_scene.go:221-237 | the six indices are the map entries of the +z edge's quad cells, wound by which end is solid |
| DualContour.CellFlips | world_scene.go:183-237 | exactly the lattice edges leaving the point whose far end differs in `> 0`, in x, y, z order |
| DualContour.Flips | world_scene.go:180-240 | exactly the flipped lattice edges leaving a visited point |
| DualContour.Face | world_scene.go:187-237 | the quad across a flipped edge: entry i is the map entry of its i-th corner cell, or 0 |
| DualContour.QuadIndices | world_scene.go:180-240 | six indices per flipped edge, in order: entry 6m + i is the map entry of corner i of quad m, or 0 |
| DualContour.SingleQuad | world_scene.go:187-237 | one flipped edge gives just its quad, and none gives nothing |
| DualContour.QuadIndicesAppend | world_scene.go:180-240 | the quads of two runs of flipped edges are the quads of each, laid end to end |
| DualContour.AxisIndices | world_scene.go:187-203 | one `if solid != solidX` block appends the quad of the edge along its axis exactly when that edge is flipped |
| DualContour.CellIndices | world_scene.go:183-237 | one cell appends the quads of the flipped edges leaving its lattice point, x then y then z |
| DualContour.IndexPass | world_scene.go:180-240 | the second loop appends the quads of all flipped edges it meets, in order |
| DualContour.Assemble | world_scene.go:169-262 | the buffers hold three floats per vertex, vertex k unflattens to the k-th position and normal, and every index is 0 or names a vertex |
| DualContour.DualCells | world_scene.go:156-158 | the loops visit exactly the cells of [-1,16]×[-1,256]×[-1,16], each once |
| DualContour.DualVertices | world_scene.go:156-179 | exactly the cells of that range with a vertex are in the map, with distinct indices as many as the vertices; each index names the cell's findBestVertex point and its lattice normal |
| DualContour.Generate | world_scene.go:149-265 | one vertex per map entry, positions and normals in lockstep; the map holds exactly the cells with a vertex, each naming its findBestVertex point and lattice normal; the indices are the quads of all flipped edges, in loop order |
| DualContour.FlipTouchesChunk | world_scene.go:41-45 | a flipped lattice edge has an end inside the chunk, since f is 0 outside it |
| DualContour.EdgeOfCell | world_scene.go:116-136 | a lattice edge is one of the twelve edges of each cell sharing it |
| DualContour.FlipCellInRange | world_scene.go:156-158 | the cells sharing a flipped edge lie in the range the first loop covers |
| DualContour.FlipCellHasVertex | world_scene.go:106-147 | every cell sharing a flipped edge has a vertex |
| DualContour.QuadCorner | world_scene.go:187-237 | corner i of the quad across a flipped edge shares the edge, lies in range and has a vertex |
| DualContour.IndexedCorner | world_scene.go:189-235 | a quad corner whose cell is in the map reads that cell's entry |
| DualContour.MeshCorner | world_scene.go:180-240 | for any mesh and map with Generate's contract, each quad corner is a cell sharing the flipped edge whose index names its vertex |
| DualContour.QuadCornersHaveVertices | world_scene.go:187-237 | every corner of every quad Generate emits is a cell sharing the flipped edge that has a vertex, so the nil-map read never misses, and the index names that cell's vertex |
| DualContour.GeneratedIndicesInRange | world_scene.go:180-262 | every index of the mesh names a vertex |

## Left out

- Rendering, the scene graph, GPU buffers, lights, the GUI and input handlers are not modelled. These are calls into the g3n engine.
- Noise, randomness and the terrain fills are not modelled. This covers `NewChunk`, `simplexTerrain`, `octaveNoise` and `TransvoxelNode.render`.
- The step controls (`Step`) of the case and chunk viewers, `TransvoxelNode.Cast` (ray casting), and octree's `String` are not modelled. These are presentation or foreign calls. `CaseViewerMesh` covers what `Step` shows.
- Floats are modelled as exact reals. float32 rounding, NaN and infinities are not modelled.
- `sqrt`, the triangle face normal, `fNormal`, the LAPACK `Dgels` solve and `geometry.CalculateNormals` are parameters or left out. The model keeps only the sizes and the clamping they feed.
- The lookup tables are not part of this model. They are parameters; the properties that need their contents require well-formedness predicates on them. Those predicates are `WellFormedTables`, `IndexTableBounded`, `WellFormedMcTables`, `EdgesMatchCorners` and `ConsistentTables`.
- Helpers.Unflatten: a buffer whose length is not a multiple of 3 is excluded, because the Go loop then indexes past the end.
- Helpers.ComputeNormals: the vertex count must be a multiple of 3, for the same reason.
- uint32 wrap-around is modelled where it matters for `CurrentTriangleIndex`, for the maxIndex of `marchTransvoxels`, and for `indices`. The index-range results assume fewer than 2^32 vertices.
- Transvoxel.MarchTransvoxels: the loop reads `len(voxels[0])` as the bound of z and `len(voxels[0][0])` as the bound of y. Grids where the two differ by more than one are excluded, because they read outside the grid.
- MarchingCubes.MarchVoxels: uses `len(voxels)` as the size of all three axes, as the Go code does. The sampler returns 0 outside the grid, so ragged sizes are safe.
- Lod.HandleVoxelClick: the Go code passes the node's `*[19][19][19]int8` where `marchTransvoxels` expects `[][][]int8`, so the file does not compile. The model passes the 19³ grid as a slice.
- Lod.Expand: the level is a natural number, because Go's `1 << level` panics for a negative level. The NeighborOffsets table is a parameter. 64-bit overflow of the origins is not modelled.
- Lod.HandleVoxelClick: the mesh of the other LOD nodes and the scene-graph update are left out.
- Octree: the Parent back-pointer is dropped, because the tree's structure already gives it.
- Octree.At: requires the node's children to sit at their octant centres with half its size, the shape `NewTree` and `At` themselves build.
- Octree: `merge` on a node with other than eight child slots is not modelled.
- octree_test.go: its node counts are not encoded. The test sets a `Density` field that `Node` lacks, and under the shown `merge` the root collapses.
- Greedy.GreedySlice: GreedyGeom reads `data[-1]` and `data[32]` for the outermost slices. The model covers slices s with 0 ≤ s and s + 1 < 32. GreedyGeom also lacks a return statement, and its quad emission is commented out, so only the mask and the rectangle decomposition are modelled.
- DualContour.SolveQef: the first `Dgels` workspace query that aborts with `log.Fatal` is not modelled. The solver returns a solution or reports failure.
- DualContour.Generate: the debug line geometry (world_scene.go:242-257) is left out. A read of a missing map entry gives 0, as in Go, and `QuadCornersHaveVertices` shows that no quad corner reads one.
- DualContour.Sample: reads the lattice only, as every caller does. `FInside` and `SampleIsF` relate it to `f` at real coordinates.
- The Go files come from different stages of the program and do not compile together: `Chunk` is defined twice, and `transvoxelCase` is called with one argument in voxels.go. Each file's logic is modelled on its own terms.
- voxels.go is not part of this model beyond the shared brush and `inflate`. It is a demo loop and scene bookkeeping.
