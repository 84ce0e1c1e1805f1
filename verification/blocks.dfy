/** The block meshers of chunk.go: a 32×32×32 chunk of material ids, drawn
    as one unit cube (8 corners, 12 triangles) per non-empty block, either for
    every such block (SimpleGeom) or only for those not buried on all six
    sides (CulledGeom). Normals, texture coordinates and the GPU buffers are
    not part of this model. */
module Blocks {
  import opened Geometry
  import opened Voxels
  import opened Sweep
  import opened Helpers

  /** ChunkSize (chunk.go:21). */
  const ChunkSize: nat := 32

  /** The `[ChunkSize][ChunkSize][ChunkSize]int` array of a Chunk. */
  predicate ChunkShaped(data: seq<seq<seq<int>>>)
  {
    IsBox(data, ChunkSize, ChunkSize, ChunkSize)
  }

  /** The eight corners of a block in the order they are appended
      (chunk.go:64-95): z is the fastest-varying offset, then x, then y. */
  const CubeCornerOffsets: seq<(nat, nat, nat)> :=
    [(0, 0, 0), (0, 0, 1), (1, 0, 0), (1, 0, 1), (0, 1, 0), (0, 1, 1), (1, 1, 0), (1, 1, 1)]

  /** The corner table lists each corner of the unit cube exactly once:
      corner (dx, dy, dz) is entry 4·dy + 2·dx + dz. */
  lemma CubeCornersAreTheUnitCube()
    ensures forall dx, dy, dz :: 0 <= dx < 2 && 0 <= dy < 2 && 0 <= dz < 2 ==>
      CubeCornerOffsets[4 * dy + 2 * dx + dz] == (dx, dy, dz)
    ensures forall j, k :: 0 <= j < k < 8 ==> CubeCornerOffsets[j] != CubeCornerOffsets[k]
  {
  }

  /** The 24 position floats of the block at (x, y, z). */
  function CubePositions(x: int, y: int, z: int): (ps: seq<real>)
    ensures |ps| == 24
  {
    Flatten(seq(8, k requires 0 <= k < 8 =>
      Vec3((x + CubeCornerOffsets[k].0) as real, (y + CubeCornerOffsets[k].1) as real, (z + CubeCornerOffsets[k].2) as real)))
  }

  /** Corner k of the block at (x, y, z) is position triple k. */
  lemma CubePositionsAt(x: int, y: int, z: int, k: nat)
    requires k < 8
    ensures var (dx, dy, dz) := CubeCornerOffsets[k];
      && CubePositions(x, y, z)[3 * k] == (x + dx) as real
      && CubePositions(x, y, z)[3 * k + 1] == (y + dy) as real
      && CubePositions(x, y, z)[3 * k + 2] == (z + dz) as real
  {
  }

  /** The 36 corner numbers of a block's twelve triangles, two per face, in
      the order bottom, top, front, back, left, right (chunk.go:97-143). */
  const CubePattern: seq<nat> :=
    [0, 2, 1, 1, 2, 3,
     4, 5, 6, 6, 5, 7,
     5, 1, 7, 7, 1, 3,
     4, 6, 0, 0, 6, 2,
     0, 1, 4, 4, 1, 5,
     3, 2, 7, 7, 2, 6]

  /** The axis (0 = x, 1 = y, 2 = z) and side of face f in the pattern. */
  const FacePlanes: seq<(nat, nat)> := [(1, 0), (1, 1), (2, 1), (2, 0), (0, 0), (0, 1)]

  function Coordinate(c: (nat, nat, nat), axis: nat): nat
  {
    if axis == 0 then c.0 else if axis == 1 then c.1 else c.2
  }

  /** Both triangles of each face use corners of that face only: all six
      corner numbers of face f lie in its plane. */
  lemma CubeFacesArePlanar()
    ensures |CubePattern| == 36
    ensures forall k :: 0 <= k < 36 ==> CubePattern[k] < 8
    ensures forall k :: 0 <= k < 36 ==>
      Coordinate(CubeCornerOffsets[CubePattern[k]], FacePlanes[k / 6].0) == FacePlanes[k / 6].1
  {
    forall k | 0 <= k < 36
      ensures CubePattern[k] < 8
      ensures Coordinate(CubeCornerOffsets[CubePattern[k]], FacePlanes[k / 6].0) == FacePlanes[k / 6].1
    {
      if k < 12 {
        if k < 6 { assert k / 6 == 0; } else { assert k / 6 == 1; }
      } else if k < 24 {
        if k < 18 { assert k / 6 == 2; } else { assert k / 6 == 3; }
      } else {
        if k < 30 { assert k / 6 == 4; } else { assert k / 6 == 5; }
      }
    }
  }

  /** The indices of a block whose first corner gets vertex number `i`:
      `i + pattern` in uint32 arithmetic. */
  function CubeIndices(i: nat): (ix: seq<nat>)
    ensures |ix| == 36
  {
    seq(36, k requires 0 <= k < 36 => (i + CubePattern[k]) % U32Range)
  }

  /** The index buffer names only vertices of the block itself:
      below 2^32 vertices, every index is in [i, i + 8). */
  lemma CubeIndicesInBlock(i: nat)
    requires i + 8 <= U32Range
    ensures forall k :: 0 <= k < 36 ==> i <= CubeIndices(i)[k] < i + 8
  {
    CubeFacesArePlanar();
  }

  /** One block appended (chunk.go:63-143). */
  function AddCube(b: GeometryBuilder, x: int, y: int, z: int): (r: GeometryBuilder)
    ensures |r.positions| == |b.positions| + 24 && |r.indices| == |b.indices| + 36
  {
    GeometryBuilder(b.positions + CubePositions(x, y, z), b.indices + CubeIndices(CurrentTriangleIndex(b)))
  }

  /** Every index in the buffer names an appended vertex. */
  predicate IndicesBelow(b: GeometryBuilder)
  {
    forall k :: 0 <= k < |b.indices| ==> b.indices[k] < |b.positions| / 3
  }

  /** Appending a block keeps whole vertex triples and every index naming an
      existing vertex, as long as the vertex count stays below 2^32. */
  lemma AddCubeKeepsIndices(b: GeometryBuilder, x: int, y: int, z: int)
    requires |b.positions| % 3 == 0 && IndicesBelow(b)
    requires |b.positions| / 3 + 8 <= U32Range
    ensures |AddCube(b, x, y, z).positions| % 3 == 0
    ensures |AddCube(b, x, y, z).positions| / 3 == |b.positions| / 3 + 8
    ensures IndicesBelow(AddCube(b, x, y, z))
    ensures forall k :: 0 <= k < 36 ==>
      AddCube(b, x, y, z).indices[|b.indices| + k] == |b.positions| / 3 + CubePattern[k]
  {
    var i := CurrentTriangleIndex(b);
    SmallMod(|b.positions| / 3, U32Range);
    assert i == |b.positions| / 3;
    CubeIndicesInBlock(i);
    CubeFacesArePlanar();
    var r := AddCube(b, x, y, z);
    forall k | 0 <= k < |r.indices|
      ensures r.indices[k] < |r.positions| / 3
    {
      if k >= |b.indices| {
        assert r.indices[k] == CubeIndices(i)[k - |b.indices|];
      }
    }
  }

  /** interior (chunk.go:158-165): the six face neighbours exist and are
      non-empty. Each guard is checked before the read it protects, as Go's
      `&&` does, so no read leaves the chunk. */
  predicate Interior(data: seq<seq<seq<int>>>, x: int, y: int, z: int)
    requires ChunkShaped(data) && InBox(x, y, z, ChunkSize, ChunkSize, ChunkSize)
  {
    z < 31 && data[x][y][z + 1] != 0 &&
    z > 0 && data[x][y][z - 1] != 0 &&
    y < 31 && data[x][y + 1][z] != 0 &&
    y > 0 && data[x][y - 1][z] != 0 &&
    x < 31 && data[x + 1][y][z] != 0 &&
    x > 0 && data[x - 1][y][z] != 0
  }

  /** A block is interior exactly when it is off the chunk's boundary and
      all six face neighbours are non-empty; in particular a boundary block
      is never interior. */
  lemma InteriorIff(data: seq<seq<seq<int>>>, x: int, y: int, z: int)
    requires ChunkShaped(data) && InBox(x, y, z, ChunkSize, ChunkSize, ChunkSize)
    ensures Interior(data, x, y, z) <==>
      && 0 < x < 31 && 0 < y < 31 && 0 < z < 31
      && data[x - 1][y][z] != 0 && data[x + 1][y][z] != 0
      && data[x][y - 1][z] != 0 && data[x][y + 1][z] != 0
      && data[x][y][z - 1] != 0 && data[x][y][z + 1] != 0
    ensures (x == 0 || x == 31 || y == 0 || y == 31 || z == 0 || z == 31) ==> !Interior(data, x, y, z)
  {
  }

  /** Whether a block gets a cube: non-empty, and with culling also not interior. */
  predicate Drawn(data: seq<seq<seq<int>>>, c: (int, int, int), culled: bool)
    requires ChunkShaped(data) && InBox(c.0, c.1, c.2, ChunkSize, ChunkSize, ChunkSize)
  {
    data[c.0][c.1][c.2] != 0 && (!culled || !Interior(data, c.0, c.1, c.2))
  }

  predicate InChunk(cells: seq<(int, int, int)>)
  {
    forall k :: 0 <= k < |cells| ==> InBox(cells[k].0, cells[k].1, cells[k].2, ChunkSize, ChunkSize, ChunkSize)
  }

  lemma InChunkTail(cells: seq<(int, int, int)>)
    requires |cells| > 0 && InChunk(cells)
    ensures InBox(cells[0].0, cells[0].1, cells[0].2, ChunkSize, ChunkSize, ChunkSize)
    ensures InChunk(cells[1..])
  {
    assert forall k :: 0 <= k < |cells| - 1 ==> cells[1..][k] == cells[k + 1];
  }

  /** How many of the cells are drawn. */
  function DrawnCount(data: seq<seq<seq<int>>>, cells: seq<(int, int, int)>, culled: bool): (n: nat)
    requires ChunkShaped(data) && InChunk(cells)
    ensures n <= |cells|
    decreases |cells|
  {
    if |cells| == 0 then 0
    else
      InChunkTail(cells);
      (if Drawn(data, cells[0], culled) then 1 else 0) + DrawnCount(data, cells[1..], culled)
  }

  /** The loop body of both meshers over the cells in order. */
  function DrawCells(data: seq<seq<seq<int>>>, cells: seq<(int, int, int)>, culled: bool, b: GeometryBuilder): (r: GeometryBuilder)
    requires ChunkShaped(data) && InChunk(cells)
    decreases |cells|
  {
    if |cells| == 0 then b
    else
      InChunkTail(cells);
      var (x, y, z) := cells[0];
      DrawCells(data, cells[1..], culled, if Drawn(data, cells[0], culled) then AddCube(b, x, y, z) else b)
  }

  /** Each drawn block adds exactly 24 position floats and 36 indices, and
      with fewer than 2^32 vertices every index names an appended vertex. */
  lemma {:induction false} DrawCellsFacts(data: seq<seq<seq<int>>>, cells: seq<(int, int, int)>, culled: bool, b: GeometryBuilder)
    requires ChunkShaped(data) && InChunk(cells)
    requires |b.positions| % 3 == 0 && IndicesBelow(b)
    requires |b.positions| / 3 + 8 * |cells| <= U32Range
    ensures |DrawCells(data, cells, culled, b).positions| == |b.positions| + 24 * DrawnCount(data, cells, culled)
    ensures |DrawCells(data, cells, culled, b).indices| == |b.indices| + 36 * DrawnCount(data, cells, culled)
    ensures IndicesBelow(DrawCells(data, cells, culled, b))
    decreases |cells|
  {
    if |cells| > 0 {
      InChunkTail(cells);
      var (x, y, z) := cells[0];
      if Drawn(data, cells[0], culled) {
        AddCubeKeepsIndices(b, x, y, z);
        DrawCellsFacts(data, cells[1..], culled, AddCube(b, x, y, z));
      } else {
        DrawCellsFacts(data, cells[1..], culled, b);
      }
    }
  }

  /** The three nested loops of both meshers: x, y, z over [0, ChunkSize),
      the length of every axis of the chunk. */
  function ChunkCells(data: seq<seq<seq<int>>>): (cells: seq<(int, int, int)>)
    requires ChunkShaped(data)
    ensures |cells| == 32768
    ensures InChunk(cells)
    ensures forall c :: c in cells <==> InBox(c.0, c.1, c.2, ChunkSize, ChunkSize, ChunkSize)
    ensures LexIncreasing(cells)
  {
    var n := |data|;
    var s := Span(0, n);
    assert |s| == 32;
    var cells := Nest(s, s, s);
    NestLength(s, s, s);
    assert |cells| == 32 * (32 * 32);
    Cube(0, n, 0, n, 0, n);
    assert forall k :: 0 <= k < |cells| ==> cells[k] in cells;
    cells
  }

  /** SimpleGeom (chunk.go:51-156) and CulledGeom (chunk.go:167-272): the
      position and index buffers. */
  function BlockGeom(data: seq<seq<seq<int>>>, culled: bool): (r: GeometryBuilder)
    requires ChunkShaped(data)
  {
    DrawCells(data, ChunkCells(data), culled, GeometryBuilder([], []))
  }

  /** Both meshers give every drawn block 8 vertices and 36 indices, and
      every index names one of the vertices. */
  lemma BlockGeomFacts(data: seq<seq<seq<int>>>, culled: bool)
    requires ChunkShaped(data)
    ensures var r := BlockGeom(data, culled);
      && |r.positions| == 24 * DrawnCount(data, ChunkCells(data), culled)
      && |r.indices| == 36 * DrawnCount(data, ChunkCells(data), culled)
      && IndicesBelow(r)
  {
    DrawCellsFacts(data, ChunkCells(data), culled, GeometryBuilder([], []));
  }

  /** The drawn cells, in sweep order. */
  function DrawnCells(data: seq<seq<seq<int>>>, cells: seq<(int, int, int)>, culled: bool): (ds: seq<(int, int, int)>)
    requires ChunkShaped(data) && InChunk(cells)
    ensures |ds| == DrawnCount(data, cells, culled)
    decreases |cells|
  {
    if |cells| == 0 then []
    else
      InChunkTail(cells);
      (if Drawn(data, cells[0], culled) then [cells[0]] else []) + DrawnCells(data, cells[1..], culled)
  }

  /** The drawn cells are exactly the cells the mesher draws: each is one of
      the swept cells and drawn, and each drawn swept cell is among them. */
  lemma {:induction false} DrawnCellsMembers(data: seq<seq<seq<int>>>, cells: seq<(int, int, int)>, culled: bool)
    requires ChunkShaped(data) && InChunk(cells)
    ensures forall c :: c in DrawnCells(data, cells, culled) ==>
      c in cells && InBox(c.0, c.1, c.2, ChunkSize, ChunkSize, ChunkSize) && Drawn(data, c, culled)
    ensures forall k :: 0 <= k < |cells| && Drawn(data, cells[k], culled) ==> cells[k] in DrawnCells(data, cells, culled)
    decreases |cells|
  {
    if |cells| > 0 {
      InChunkTail(cells);
      DrawnCellsMembers(data, cells[1..], culled);
      forall k | 0 <= k < |cells| && Drawn(data, cells[k], culled)
        ensures cells[k] in DrawnCells(data, cells, culled)
      {
        if k > 0 {
          assert cells[k] == cells[1..][k - 1];
        }
      }
    }
  }

  /** The position floats of a cube per cell, one after another. */
  function CubesPositions(ds: seq<(int, int, int)>): (ps: seq<real>)
    ensures |ps| == 24 * |ds|
    decreases |ds|
  {
    if |ds| == 0 then [] else CubePositions(ds[0].0, ds[0].1, ds[0].2) + CubesPositions(ds[1..])
  }

  /** The indices of n cubes whose vertices are numbered from `first` on. */
  function CubesIndices(first: nat, n: nat): (ix: seq<nat>)
    ensures |ix| == 36 * n
    decreases n
  {
    if n == 0 then [] else CubeIndices(first) + CubesIndices(first + 8, n - 1)
  }

  /** A slice of the second part of a concatenation. */
  lemma SliceOfTail<T>(whole: seq<T>, a: seq<T>, b: seq<T>, k: nat, len: nat, lo: nat, part: seq<T>)
    requires whole == a + b && k + len <= |b| && lo == |a| + k && b[k .. k + len] == part
    ensures whole[lo .. lo + len] == part
  {
    assert whole[lo .. lo + len] == b[k .. k + len];
  }

  /** The first part of a concatenation, sliced back out. */
  lemma SliceOfHead<T>(whole: seq<T>, a: seq<T>, b: seq<T>, lo: nat, hi: nat)
    requires whole == a + b && lo == 0 && hi == |a|
    ensures whole[lo .. hi] == a
  {
  }

  /** Floats 24m to 24m + 24 are the cube of the m-th cell. */
  lemma {:induction false} CubesPositionsAt(ds: seq<(int, int, int)>, m: nat)
    requires m < |ds|
    ensures CubesPositions(ds)[24 * m .. 24 * m + 24] == CubePositions(ds[m].0, ds[m].1, ds[m].2)
    decreases m
  {
    var head := CubePositions(ds[0].0, ds[0].1, ds[0].2);
    assert CubesPositions(ds) == head + CubesPositions(ds[1..]);
    if m > 0 {
      CubesPositionsAt(ds[1..], m - 1);
      assert ds[1..][m - 1] == ds[m];
      SliceOfTail(CubesPositions(ds), head, CubesPositions(ds[1..]), 24 * (m - 1), 24, 24 * m, CubePositions(ds[m].0, ds[m].1, ds[m].2));
    } else {
      SliceOfHead(CubesPositions(ds), head, CubesPositions(ds[1..]), 24 * m, 24 * m + 24);
    }
  }

  /** Indices 36m to 36m + 36 (from lo = 36m) are those of the m-th cube,
      whose first vertex is number start = first + 8m. */
  lemma {:induction false} CubesIndicesAt(first: nat, n: nat, m: nat, start: nat, lo: nat)
    requires m < n && start == first + 8 * m && lo == 36 * m
    ensures CubesIndices(first, n)[lo .. lo + 36] == CubeIndices(start)
    decreases m
  {
    var head, rest := CubeIndices(first), CubesIndices(first + 8, n - 1);
    assert CubesIndices(first, n) == head + rest;
    if m > 0 {
      CubesIndicesAt(first + 8, n - 1, m - 1, start, lo - 36);
      SliceOfTail(CubesIndices(first, n), head, rest, lo - 36, 36, lo, rest[lo - 36 .. lo - 36 + 36]);
    } else {
      assert start == first;
      SliceOfHead(CubesIndices(first, n), head, rest, lo, lo + 36);
    }
  }

  /** The loop appends, for each drawn cell in order, its cube's positions. */
  lemma {:induction false} DrawCellsPositions(data: seq<seq<seq<int>>>, cells: seq<(int, int, int)>, culled: bool, b: GeometryBuilder)
    requires ChunkShaped(data) && InChunk(cells)
    ensures DrawCells(data, cells, culled, b).positions == b.positions + CubesPositions(DrawnCells(data, cells, culled))
    decreases |cells|
  {
    if |cells| > 0 {
      DrawCellsStep(data, cells, culled, b);
      if Drawn(data, cells[0], culled) {
        var b' := AddCube(b, cells[0].0, cells[0].1, cells[0].2);
        DrawCellsPositions(data, cells[1..], culled, b');
        DrawnFirstPositions(data, cells, culled, b, b', DrawnCells(data, cells[1..], culled));
      } else {
        DrawCellsPositions(data, cells[1..], culled, b);
      }
    }
  }

  /** A drawn first cell contributes the first block's positions and the
      rest follow from the tail. */
  lemma DrawnFirstPositions(data: seq<seq<seq<int>>>, cells: seq<(int, int, int)>, culled: bool,
                            b: GeometryBuilder, b': GeometryBuilder, rest: seq<(int, int, int)>)
    requires ChunkShaped(data) && InChunk(cells) && |cells| > 0 && Drawn(data, cells[0], culled)
    requires b' == AddCube(b, cells[0].0, cells[0].1, cells[0].2)
    requires InChunk(cells[1..]) && rest == DrawnCells(data, cells[1..], culled)
    requires DrawCells(data, cells[1..], culled, b').positions == b'.positions + CubesPositions(rest)
    ensures DrawCells(data, cells, culled, b).positions == b.positions + CubesPositions(DrawnCells(data, cells, culled))
  {
    DrawCellsStep(data, cells, culled, b);
    var head := CubePositions(cells[0].0, cells[0].1, cells[0].2);
    assert ([cells[0]] + rest)[1..] == rest;
    assert CubesPositions([cells[0]] + rest) == head + CubesPositions(rest);
    assert b'.positions + CubesPositions(rest) == b.positions + (head + CubesPositions(rest));
  }

  /** Appending one block below 2^32 vertices adds the indices of the
      first block of the run that starts at its first vertex. */
  lemma AddCubeIndices(b: GeometryBuilder, x: int, y: int, z: int, first: nat, n: nat)
    requires |b.positions| % 3 == 0 && first == |b.positions| / 3 && first + 8 <= U32Range
    ensures |AddCube(b, x, y, z).positions| % 3 == 0
    ensures |AddCube(b, x, y, z).positions| / 3 == first + 8
    ensures AddCube(b, x, y, z).indices + CubesIndices(first + 8, n) == b.indices + CubesIndices(first, n + 1)
  {
    SmallMod(first, U32Range);
    var b' := AddCube(b, x, y, z);
    assert b'.indices == b.indices + CubeIndices(first);
    assert CubesIndices(first, n + 1) == CubeIndices(first) + CubesIndices(first + 8, n);
  }

  /** One step of the loop: the first cell is drawn or skipped, and the
      rest of the cells follow. */
  lemma DrawCellsStep(data: seq<seq<seq<int>>>, cells: seq<(int, int, int)>, culled: bool, b: GeometryBuilder)
    requires ChunkShaped(data) && InChunk(cells) && |cells| > 0
    ensures InBox(cells[0].0, cells[0].1, cells[0].2, ChunkSize, ChunkSize, ChunkSize) && InChunk(cells[1..])
    ensures Drawn(data, cells[0], culled) ==>
      && DrawCells(data, cells, culled, b) == DrawCells(data, cells[1..], culled, AddCube(b, cells[0].0, cells[0].1, cells[0].2))
      && DrawnCount(data, cells, culled) == DrawnCount(data, cells[1..], culled) + 1
      && DrawnCells(data, cells, culled) == [cells[0]] + DrawnCells(data, cells[1..], culled)
    ensures !Drawn(data, cells[0], culled) ==>
      && DrawCells(data, cells, culled, b) == DrawCells(data, cells[1..], culled, b)
      && DrawnCount(data, cells, culled) == DrawnCount(data, cells[1..], culled)
      && DrawnCells(data, cells, culled) == DrawnCells(data, cells[1..], culled)
  {
    InChunkTail(cells);
  }

  /** A drawn first cell contributes the first block of the run and the
      rest of the run follows from the tail. */
  lemma DrawnFirstIndices(data: seq<seq<seq<int>>>, cells: seq<(int, int, int)>, culled: bool,
                           b: GeometryBuilder, b': GeometryBuilder, first: nat, n: nat)
    requires ChunkShaped(data) && InChunk(cells) && |cells| > 0 && Drawn(data, cells[0], culled)
    requires b' == AddCube(b, cells[0].0, cells[0].1, cells[0].2)
    requires |b.positions| % 3 == 0 && first == |b.positions| / 3 && first + 8 <= U32Range
    requires InChunk(cells[1..]) && n == DrawnCount(data, cells[1..], culled)
    requires DrawCells(data, cells[1..], culled, b').indices == b'.indices + CubesIndices(first + 8, n)
    ensures DrawCells(data, cells, culled, b).indices == b.indices + CubesIndices(first, DrawnCount(data, cells, culled))
  {
    AddCubeIndices(b, cells[0].0, cells[0].1, cells[0].2, first, n);
    DrawCellsStep(data, cells, culled, b);
  }

  /** The loop appends, for each drawn cell in order, the cube's indices
      numbered on from the vertices already there, as long as the vertex
      count stays below 2^32. */
  lemma {:induction false} DrawCellsIndices(data: seq<seq<seq<int>>>, cells: seq<(int, int, int)>, culled: bool, b: GeometryBuilder)
    requires ChunkShaped(data) && InChunk(cells)
    requires |b.positions| % 3 == 0
    requires |b.positions| / 3 + 8 * |cells| <= U32Range
    ensures DrawCells(data, cells, culled, b).indices == b.indices + CubesIndices(|b.positions| / 3, DrawnCount(data, cells, culled))
    decreases |cells|
  {
    if |cells| > 0 {
      InChunkTail(cells);
      var (x, y, z) := cells[0];
      if Drawn(data, cells[0], culled) {
        var b', first := AddCube(b, x, y, z), |b.positions| / 3;
        AddCubeIndices(b, x, y, z, first, 0);
        DrawCellsIndices(data, cells[1..], culled, b');
        DrawnFirstIndices(data, cells, culled, b, b', first, DrawnCount(data, cells[1..], culled));
      } else {
        DrawCellsIndices(data, cells[1..], culled, b);
        DrawCellsStep(data, cells, culled, b);
      }
    }
  }

  /** The m-th drawn cell is a swept cell that is drawn. */
  lemma DrawnCellAt(data: seq<seq<seq<int>>>, cells: seq<(int, int, int)>, culled: bool, m: nat)
    requires ChunkShaped(data) && InChunk(cells) && m < DrawnCount(data, cells, culled)
    ensures var ds := DrawnCells(data, cells, culled);
      && ds[m] in cells
      && InBox(ds[m].0, ds[m].1, ds[m].2, ChunkSize, ChunkSize, ChunkSize)
      && Drawn(data, ds[m], culled)
  {
    var ds := DrawnCells(data, cells, culled);
    DrawnCellsMembers(data, cells, culled);
    assert ds[m] in ds;
  }

  /** Floats 24m to 24m + 24 of the buffers the loop builds from empty ones
      are the cube of the m-th drawn cell. */
  lemma DrawCellsBlockPositions(data: seq<seq<seq<int>>>, cells: seq<(int, int, int)>, culled: bool, m: nat)
    requires ChunkShaped(data) && InChunk(cells) && m < DrawnCount(data, cells, culled)
    ensures var r, ds := DrawCells(data, cells, culled, GeometryBuilder([], [])), DrawnCells(data, cells, culled);
      && |r.positions| == 24 * |ds|
      && r.positions[24 * m .. 24 * m + 24] == CubePositions(ds[m].0, ds[m].1, ds[m].2)
  {
    var ds := DrawnCells(data, cells, culled);
    var b0 := GeometryBuilder([], []);
    DrawCellsPositions(data, cells, culled, b0);
    var r := DrawCells(data, cells, culled, b0);
    assert r.positions == CubesPositions(ds);
    CubesPositionsAt(ds, m);
  }

  /** Indices 36m to 36m + 36 of the buffers the loop builds from empty ones
      are the cube pattern from vertex 8m. */
  lemma DrawCellsBlockIndices(data: seq<seq<seq<int>>>, cells: seq<(int, int, int)>, culled: bool, m: nat)
    requires ChunkShaped(data) && InChunk(cells) && 8 * |cells| <= U32Range
    requires m < DrawnCount(data, cells, culled)
    ensures var r := DrawCells(data, cells, culled, GeometryBuilder([], []));
      && |r.indices| == 36 * DrawnCount(data, cells, culled)
      && r.indices[36 * m .. 36 * m + 36] == CubeIndices(8 * m)
  {
    var n := DrawnCount(data, cells, culled);
    var b0 := GeometryBuilder([], []);
    assert |b0.positions| / 3 == 0;
    DrawCellsIndices(data, cells, culled, b0);
    var r := DrawCells(data, cells, culled, b0);
    assert r.indices == CubesIndices(0, n);
    CubesIndicesAt(0, n, m, 8 * m, 36 * m);
  }

  /** Block m of either mesher's buffers is the cube of the m-th drawn block
      in sweep order: floats 24m to 24m + 24 are its eight corners and
      indices 36m to 36m + 36 are the cube pattern from vertex 8m. */
  lemma BlockGeomContents(data: seq<seq<seq<int>>>, culled: bool, m: nat)
    requires ChunkShaped(data) && m < DrawnCount(data, ChunkCells(data), culled)
    ensures var r, ds := BlockGeom(data, culled), DrawnCells(data, ChunkCells(data), culled);
      && |r.positions| == 24 * |ds| && |r.indices| == 36 * |ds|
      && InBox(ds[m].0, ds[m].1, ds[m].2, ChunkSize, ChunkSize, ChunkSize)
      && Drawn(data, ds[m], culled)
      && r.positions[24 * m .. 24 * m + 24] == CubePositions(ds[m].0, ds[m].1, ds[m].2)
      && r.indices[36 * m .. 36 * m + 36] == CubeIndices(8 * m)
  {
    var cells := ChunkCells(data);
    DrawnCellAt(data, cells, culled, m);
    DrawCellsBlockPositions(data, cells, culled, m);
    DrawCellsBlockIndices(data, cells, culled, m);
  }

  /** Culling only removes cubes: a block drawn by CulledGeom is drawn by
      SimpleGeom, so the culled mesh has at most as many cubes. */
  lemma {:induction false} CullingDrawsFewer(data: seq<seq<seq<int>>>, cells: seq<(int, int, int)>)
    requires ChunkShaped(data) && InChunk(cells)
    ensures DrawnCount(data, cells, true) <= DrawnCount(data, cells, false)
    decreases |cells|
  {
    if |cells| > 0 {
      InChunkTail(cells);
      CullingDrawsFewer(data, cells[1..]);
    }
  }
}
