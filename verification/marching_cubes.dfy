/** Classic Marching Cubes as marching_cubes.go implements it: the 8-bit case
    index of a cell, edge-flag filtering, interpolation along the flagged
    edges, triangle lists read in triples up to a -1 sentinel, and the padded
    sweep of a voxel grid with a sampler that reads 0 outside the grid. The
    lookup tables are not part of this model; they are a parameter. */
module MarchingCubes {
  import opened Options
  import opened Bits
  import opened Geometry
  import opened Voxels
  import opened Sweep
  import opened Helpers

  /** The four Marching Cubes tables: the 12-bit edge flags of every case,
      the two corners each edge joins, the triangle list of every case (edge
      numbers in triples, closed by -1) and the offsets of the eight corners. */
  datatype McTables = McTables(edges: seq<nat>, connections: seq<(nat, nat)>,
                               triangles: seq<seq<int>>, offsets: seq<Vec3>)

  /** Reading row `row` from position `i` the way generateTriangles does:
      a -1 at a triple boundary ends the list, anything else starts a triple
      of edge numbers, each a valid index into the 12 edge points. */
  predicate Terminated(row: seq<int>, i: nat)
    decreases |row| - i
  {
    && i < |row|
    && (row[i] == -1 ||
        (&& i + 2 < |row|
         && 0 <= row[i] < 12 && 0 <= row[i + 1] < 12 && 0 <= row[i + 2] < 12
         && Terminated(row, i + 3)))
  }

  /** The table shape the code indexes: 256 cases of 12-bit edge flags, 12
      edges between corners, 256 sentinel-terminated triangle lists and
      eight corner offsets. */
  predicate WellFormedMcTables(T: McTables)
  {
    && |T.edges| == 256
    && (forall i :: 0 <= i < 256 ==> T.edges[i] < Pow2(12))
    && |T.connections| == 12
    && (forall e :: 0 <= e < 12 ==> T.connections[e].0 < 8 && T.connections[e].1 < 8)
    && |T.triangles| == 256
    && (forall i :: 0 <= i < 256 ==> Terminated(T.triangles[i], 0))
    && |T.offsets| == 8
  }

  /** The defining property of a Marching Cubes edge table: in case `i`,
      edge `e` is flagged exactly when its two corners lie on different
      sides of the isolevel. */
  predicate EdgesMatchCorners(T: McTables)
    requires WellFormedMcTables(T)
  {
    forall i, e :: 0 <= i < 256 && 0 <= e < 12 ==>
      (Bit(T.edges[i], e) <==> Bit(i, T.connections[e].0) != Bit(i, T.connections[e].1))
  }

  /** From position `i` on, every edge a triangle list names is flagged in `flags`. */
  predicate UsesFlaggedEdges(row: seq<int>, i: nat, flags: nat)
    requires Terminated(row, i)
    decreases |row| - i
  {
    row[i] == -1 ||
      (Bit(flags, row[i]) && Bit(flags, row[i + 1]) && Bit(flags, row[i + 2])
       && UsesFlaggedEdges(row, i + 3, flags))
  }

  /** Tables that agree with each other: flagged edges are the crossing
      edges, and triangles are only built from flagged edges. */
  predicate ConsistentTables(T: McTables)
  {
    && WellFormedMcTables(T)
    && EdgesMatchCorners(T)
    && forall i :: 0 <= i < 256 ==> UsesFlaggedEdges(T.triangles[i], 0, T.edges[i])
  }

  /** Which corner values are at or above the isolevel. */
  function Above(v: seq<real>, level: real): (bs: seq<bool>)
    requires |v| == 8
    ensures |bs| == 8
  {
    seq(8, k requires 0 <= k < 8 => v[k] >= level)
  }

  /** The terms `1 << i` OR-ed into the index by marchCube's second loop. */
  function IndexTerms(v: seq<real>, level: real): (ts: seq<nat>)
    requires |v| == 8
    ensures |ts| == 8
  {
    seq(8, k requires 0 <= k < 8 => Flag(v[k] >= level, Pow2(k)))
  }

  /** The case index (marching_cubes.go:42-47): the OR of `1 << i` over the
      corners at or above the isolevel. The terms occupy distinct bits, so
      the OR is their sum, which is packing the flags. */
  function CaseIndex(v: seq<real>, level: real): (r: nat)
    requires |v| == 8
    ensures r == Pack(Above(v, level))
    ensures r < 256
  {
    SumOfWeights(IndexTerms(v, level), Above(v, level));
    Pow2Table();
    Sum(IndexTerms(v, level))
  }

  /** Bit i of the case index is set exactly when corner i is at or above
      the isolevel, and there are no bits above bit 7. */
  lemma CaseIndexBits(v: seq<real>, level: real)
    requires |v| == 8
    ensures forall k :: 0 <= k < 8 ==> (Bit(CaseIndex(v, level), k) <==> v[k] >= level)
    ensures forall k :: k >= 8 ==> !Bit(CaseIndex(v, level), k)
  {
    forall k | 0 <= k < 8
      ensures Bit(CaseIndex(v, level), k) <==> v[k] >= level
    {
      BitOfPack(Above(v, level), k);
    }
    forall k: nat | k >= 8
      ensures !Bit(CaseIndex(v, level), k)
    {
      BitAbovePack(Above(v, level), k);
    }
  }

  /** The corner positions of the cell at `origin` (marching_cubes.go:38-39). */
  function CornerPoints(origin: Vec3, T: McTables): (n: seq<Vec3>)
    requires WellFormedMcTables(T)
    ensures |n| == 8
  {
    seq(8, k requires 0 <= k < 8 => Plus(origin, T.offsets[k]))
  }

  /** The density at each corner (marching_cubes.go:40). */
  function CornerValues(n: seq<Vec3>, iso: Vec3 -> real): (v: seq<real>)
    requires |n| == 8
    ensures |v| == 8
  {
    seq(8, k requires 0 <= k < 8 => iso(n[k]))
  }

  /** math32's Vector3.Lerp: `a + (b - a) * t` on each axis. */
  function Lerp(a: Vec3, b: Vec3, t: real): Vec3
  {
    Plus(a, Scale(Plus(b, Negate(a)), t))
  }

  /** `index` is the case of the corners `n`: bit k says corner k is at or
      above the isolevel. */
  ghost predicate Classifies(index: nat, n: seq<Vec3>, iso: Vec3 -> real, level: real)
    requires |n| == 8
  {
    forall k :: 0 <= k < 8 ==> (Bit(index, k) <==> iso(n[k]) >= level)
  }

  /** The interpolated point of edge `e` (marching_cubes.go:17-23): nil
      unless the edge is flagged for this case, otherwise the point at the
      fraction `(level - v0) / (v1 - v0)` from the first corner. A flagged
      edge of a consistent table joins corners on different sides of the
      isolevel, so the divisor is non-zero. */
  function EdgePoint(index: nat, n: seq<Vec3>, iso: Vec3 -> real, level: real, T: McTables, e: nat): (p: Option<Vec3>)
    requires WellFormedMcTables(T) && EdgesMatchCorners(T)
    requires index < 256 && |n| == 8 && Classifies(index, n, iso, level) && e < 12
    ensures p.Some? <==> Bit(T.edges[index], e)
  {
    if Bit(T.edges[index], e) then
      var (i0, i1) := T.connections[e];
      var v0, v1 := iso(n[i0]), iso(n[i1]);
      Some(Lerp(n[i0], n[i1], (level - v0) / (v1 - v0)))
    else None
  }

  /** The array `l` of generateTriangles: one slot per edge. */
  function EdgePoints(index: nat, n: seq<Vec3>, iso: Vec3 -> real, level: real, T: McTables): (l: seq<Option<Vec3>>)
    requires WellFormedMcTables(T) && EdgesMatchCorners(T)
    requires index < 256 && |n| == 8 && Classifies(index, n, iso, level)
    ensures |l| == 12
  {
    seq(12, e requires 0 <= e < 12 => EdgePoint(index, n, iso, level, T, e))
  }

  /** Where the isolevel crosses between two values on different sides of
      it: a fraction in [0, 1] at which linear interpolation hits the level. */
  lemma CrossingFraction(v0: real, v1: real, level: real)
    requires (v0 >= level) != (v1 >= level)
    ensures v1 - v0 != 0.0
    ensures 0.0 <= (level - v0) / (v1 - v0) <= 1.0
    ensures v0 + (v1 - v0) * ((level - v0) / (v1 - v0)) == level
  {
    var d, q := v1 - v0, level - v0;
    var t := q / d;
    assert t * d == q;
    if d > 0.0 {
      assert 0.0 < q <= d;
      assert (t - 1.0) * d <= 0.0;
    } else {
      assert d <= q <= 0.0;
      assert (t - 1.0) * d >= 0.0;
    }
  }

  /** A flagged edge's point lies on the segment between its two corners,
      at a fraction `t` in [0, 1] where the linearly interpolated density
      equals the isolevel. */
  lemma EdgePointOnEdge(index: nat, n: seq<Vec3>, iso: Vec3 -> real, level: real, T: McTables, e: nat)
    returns (t: real)
    requires WellFormedMcTables(T) && EdgesMatchCorners(T)
    requires index < 256 && |n| == 8 && Classifies(index, n, iso, level) && e < 12
    requires Bit(T.edges[index], e)
    ensures 0.0 <= t <= 1.0
    ensures EdgePoint(index, n, iso, level, T, e) == Some(Lerp(n[T.connections[e].0], n[T.connections[e].1], t))
    ensures iso(n[T.connections[e].0]) + (iso(n[T.connections[e].1]) - iso(n[T.connections[e].0])) * t == level
  {
    var (i0, i1) := T.connections[e];
    CrossingFraction(iso(n[i0]), iso(n[i1]), level);
    t := (level - iso(n[i0])) / (iso(n[i1]) - iso(n[i0]));
  }

  /** The triangle loop of generateTriangles (marching_cubes.go:24-32) from
      position `i`: the edge points of each triple in table order, up to
      the first -1 at a triple boundary. */
  function TriangleVertices(row: seq<int>, i: nat, l: seq<Option<Vec3>>): (r: seq<Option<Vec3>>)
    requires |l| == 12 && Terminated(row, i)
    ensures |r| % 3 == 0 && i + |r| < |row|
    ensures row[i + |r|] == -1
    decreases |row| - i
  {
    if row[i] == -1 then []
    else [l[row[i]], l[row[i + 1]], l[row[i + 2]]] + TriangleVertices(row, i + 3, l)
  }

  /** The list is read exactly up to its first sentinel at a triple
      boundary, and the vertex at list position j is the point of the edge
      named there: the triangles come out in table order. */
  lemma {:induction false} TriangleVerticesAt(row: seq<int>, i: nat, l: seq<Option<Vec3>>)
    requires |l| == 12 && Terminated(row, i)
    ensures forall j :: i <= j < i + |TriangleVertices(row, i, l)| && (j - i) % 3 == 0 ==> row[j] != -1
    ensures forall j :: i <= j < i + |TriangleVertices(row, i, l)| ==>
      0 <= row[j] < 12 && TriangleVertices(row, i, l)[j - i] == l[row[j]]
    decreases |row| - i
  {
    if row[i] != -1 {
      var rest := TriangleVertices(row, i + 3, l);
      var r := TriangleVertices(row, i, l);
      TriangleVerticesAt(row, i + 3, l);
      assert r == [l[row[i]], l[row[i + 1]], l[row[i + 2]]] + rest;
      forall j | i <= j < i + |r|
        ensures 0 <= row[j] < 12 && r[j - i] == l[row[j]]
      {
        if j >= i + 3 {
          assert r[j - i] == rest[j - (i + 3)];
        } else {
          assert j == i || j == i + 1 || j == i + 2;
        }
      }
    }
  }

  /** When every edge the list names has a point, so does every vertex. */
  lemma {:induction false} TriangleVerticesPresent(row: seq<int>, i: nat, l: seq<Option<Vec3>>, flags: nat)
    requires |l| == 12 && Terminated(row, i)
    requires UsesFlaggedEdges(row, i, flags)
    requires forall e :: 0 <= e < 12 && Bit(flags, e) ==> l[e].Some?
    ensures forall k :: 0 <= k < |TriangleVertices(row, i, l)| ==> TriangleVertices(row, i, l)[k].Some?
    decreases |row| - i
  {
    if row[i] != -1 {
      TriangleVerticesPresent(row, i + 3, l, flags);
    }
  }

  /** generateTriangles (marching_cubes.go:15-33). */
  function GenerateTriangles(index: nat, n: seq<Vec3>, iso: Vec3 -> real, level: real, T: McTables): (r: seq<Option<Vec3>>)
    requires WellFormedMcTables(T) && EdgesMatchCorners(T)
    requires index < 256 && |n| == 8 && Classifies(index, n, iso, level)
    ensures |r| % 3 == 0
  {
    TriangleVertices(T.triangles[index], 0, EdgePoints(index, n, iso, level, T))
  }

  /** With consistent tables generateTriangles never appends nil: every
      vertex is the point of a flagged, hence crossing, edge. */
  lemma GeneratedPresent(index: nat, n: seq<Vec3>, iso: Vec3 -> real, level: real, T: McTables)
    requires ConsistentTables(T)
    requires index < 256 && |n| == 8 && Classifies(index, n, iso, level)
    ensures forall k :: 0 <= k < |GenerateTriangles(index, n, iso, level, T)| ==>
      GenerateTriangles(index, n, iso, level, T)[k].Some?
  {
    TriangleVerticesPresent(T.triangles[index], 0, EdgePoints(index, n, iso, level, T), T.edges[index]);
  }

  /** The case index of a cell classifies its corners. */
  lemma CaseClassifies(origin: Vec3, iso: Vec3 -> real, level: real, T: McTables)
    requires WellFormedMcTables(T)
    ensures Classifies(CaseIndex(CornerValues(CornerPoints(origin, T), iso), level), CornerPoints(origin, T), iso, level)
  {
    CaseIndexBits(CornerValues(CornerPoints(origin, T), iso), level);
  }

  /** marchCube (marching_cubes.go:35-52): nothing for a case whose edge
      flags are all clear, otherwise the triangles of the case. */
  function MarchCube(origin: Vec3, iso: Vec3 -> real, level: real, T: McTables): (r: seq<Option<Vec3>>)
    requires WellFormedMcTables(T) && EdgesMatchCorners(T)
    ensures |r| % 3 == 0
    ensures T.edges[CaseIndex(CornerValues(CornerPoints(origin, T), iso), level)] == 0 ==> r == []
  {
    var n := CornerPoints(origin, T);
    var index := CaseIndex(CornerValues(n, iso), level);
    CaseClassifies(origin, iso, level, T);
    if T.edges[index] == 0 then [] else GenerateTriangles(index, n, iso, level, T)
  }

  /** A value below 2^12 with none of its low 12 bits set is zero. */
  lemma NoEdgeFlags(f: nat)
    requires f < Pow2(12)
    requires forall e :: 0 <= e < 12 ==> !Bit(f, e)
    ensures f == 0
  {
    PackOfBits(f, 12);
    PackZero(LowBits(f, 12));
  }

  /** A cell whose corners all lie on the same side of the isolevel crosses
      no edge, so marchCube returns nothing for it. */
  lemma UniformCellEmpty(origin: Vec3, iso: Vec3 -> real, level: real, T: McTables)
    requires WellFormedMcTables(T) && EdgesMatchCorners(T)
    requires var v := CornerValues(CornerPoints(origin, T), iso);
      (forall k :: 0 <= k < 8 ==> v[k] >= level) || (forall k :: 0 <= k < 8 ==> v[k] < level)
    ensures MarchCube(origin, iso, level, T) == []
  {
    var v := CornerValues(CornerPoints(origin, T), iso);
    var index := CaseIndex(v, level);
    CaseIndexBits(v, level);
    forall e | 0 <= e < 12
      ensures !Bit(T.edges[index], e)
    {
      assert Bit(index, T.connections[e].0) == Bit(index, T.connections[e].1);
    }
    NoEdgeFlags(T.edges[index]);
  }

  /** `p` is the point at fraction `t` in [0, 1] along edge `e` of the cell
      with corners `n`, where the linearly interpolated density equals the
      isolevel. */
  ghost predicate CrossingPoint(p: Vec3, n: seq<Vec3>, iso: Vec3 -> real, level: real, T: McTables, e: nat, t: real)
    requires WellFormedMcTables(T) && |n| == 8
  {
    && e < 12 && 0.0 <= t <= 1.0
    && var (i0, i1) := T.connections[e];
       && p == Lerp(n[i0], n[i1], t)
       && iso(n[i0]) + (iso(n[i1]) - iso(n[i0])) * t == level
  }

  /** With consistent tables, every vertex generateTriangles returns is
      present and lies on a crossing edge of the cell. */
  lemma GeneratedOnEdge(index: nat, n: seq<Vec3>, iso: Vec3 -> real, level: real, T: McTables, k: nat)
    returns (e: nat, t: real)
    requires ConsistentTables(T)
    requires index < 256 && |n| == 8 && Classifies(index, n, iso, level)
    requires k < |GenerateTriangles(index, n, iso, level, T)|
    ensures GenerateTriangles(index, n, iso, level, T)[k].Some?
    ensures CrossingPoint(GenerateTriangles(index, n, iso, level, T)[k].value, n, iso, level, T, e, t)
  {
    var l := EdgePoints(index, n, iso, level, T);
    var row := T.triangles[index];
    var r := TriangleVertices(row, 0, l);
    GeneratedPresent(index, n, iso, level, T);
    TriangleVerticesAt(row, 0, l);
    assert 0 <= row[k] < 12 && r[k - 0] == l[row[k]];
    e := row[k] as nat;
    assert r[k] == l[e] && r[k].Some?;
    assert l[e] == EdgePoint(index, n, iso, level, T, e);
    t := EdgePointOnEdge(index, n, iso, level, T, e);
  }

  /** The same for marchCube: every vertex lies on a crossing edge of the
      cell at `origin`. */
  lemma MarchCubeOnSurface(origin: Vec3, iso: Vec3 -> real, level: real, T: McTables, k: nat)
    returns (e: nat, t: real)
    requires ConsistentTables(T)
    requires k < |MarchCube(origin, iso, level, T)|
    ensures MarchCube(origin, iso, level, T)[k].Some?
    ensures CrossingPoint(MarchCube(origin, iso, level, T)[k].value, CornerPoints(origin, T), iso, level, T, e, t)
  {
    var n := CornerPoints(origin, T);
    var index := CaseIndex(CornerValues(n, iso), level);
    CaseClassifies(origin, iso, level, T);
    var r := MarchCube(origin, iso, level, T);
    assert T.edges[index] != 0;
    assert r == GenerateTriangles(index, n, iso, level, T);
    e, t := GeneratedOnEdge(index, n, iso, level, T, k);
  }

  /** With consistent tables no vertex of marchCube is nil. */
  lemma MarchCubePresent(origin: Vec3, iso: Vec3 -> real, level: real, T: McTables)
    requires ConsistentTables(T)
    ensures forall k :: 0 <= k < |MarchCube(origin, iso, level, T)| ==> MarchCube(origin, iso, level, T)[k].Some?
  {
    var n := CornerPoints(origin, T);
    CaseClassifies(origin, iso, level, T);
    GeneratedPresent(CaseIndex(CornerValues(n, iso), level), n, iso, level, T);
  }

  /** The cell at integer origin (i, j, k): `Vector3{float32(i), float32(j), float32(k)}`. */
  function Origin(c: (int, int, int)): Vec3
  {
    Vec3(c.0 as real, c.1 as real, c.2 as real)
  }

  /** The vertices of a sequence of cells, each cell's marchCube appended in turn. */
  function MarchOrigins(cells: seq<(int, int, int)>, iso: Vec3 -> real, level: real, T: McTables): (r: seq<Option<Vec3>>)
    requires WellFormedMcTables(T) && EdgesMatchCorners(T)
    ensures |r| % 3 == 0
    decreases |cells|
  {
    if |cells| == 0 then []
    else
      var head, rest := MarchCube(Origin(cells[0]), iso, level, T), MarchOrigins(cells[1..], iso, level, T);
      WholeTriples(head, rest);
      head + rest
  }

  lemma WholeTriples<X>(a: seq<X>, b: seq<X>)
    requires |a| % 3 == 0 && |b| % 3 == 0
    ensures |a + b| % 3 == 0
  {
  }

  /** Marching two runs of cells one after the other concatenates their
      vertices: the output is the cells' triangles in visiting order. */
  lemma {:induction false} MarchOriginsAppend(c1: seq<(int, int, int)>, c2: seq<(int, int, int)>, iso: Vec3 -> real, level: real, T: McTables)
    requires WellFormedMcTables(T) && EdgesMatchCorners(T)
    ensures MarchOrigins(c1 + c2, iso, level, T) == MarchOrigins(c1, iso, level, T) + MarchOrigins(c2, iso, level, T)
    decreases |c1|
  {
    if |c1| > 0 {
      assert (c1 + c2)[1..] == c1[1..] + c2;
      MarchOriginsAppend(c1[1..], c2, iso, level, T);
    } else {
      assert c1 + c2 == c2;
    }
  }

  /** With consistent tables no vertex of the sweep is nil. */
  lemma {:induction false} MarchOriginsPresent(cells: seq<(int, int, int)>, iso: Vec3 -> real, level: real, T: McTables)
    requires ConsistentTables(T)
    ensures forall k :: 0 <= k < |MarchOrigins(cells, iso, level, T)| ==> MarchOrigins(cells, iso, level, T)[k].Some?
    decreases |cells|
  {
    if |cells| > 0 {
      MarchCubePresent(Origin(cells[0]), iso, level, T);
      MarchOriginsPresent(cells[1..], iso, level, T);
    }
  }

  /** The origins marchCubes visits: i, j, k each over [-1, size], i outermost. */
  function SweepCells(size: int): seq<(int, int, int)>
  {
    Nest(Span(-1, size + 1), Span(-1, size + 1), Span(-1, size + 1))
  }

  /** marchCubes visits every integer origin of [-1, size]³ exactly once,
      (size + 2)³ of them, in increasing (i, j, k) order. */
  lemma SweepCellsFacts(size: int)
    ensures |SweepCells(size)| == if size >= -2 then (size + 2) * ((size + 2) * (size + 2)) else 0
    ensures forall c :: c in SweepCells(size) <==> -1 <= c.0 <= size && -1 <= c.1 <= size && -1 <= c.2 <= size
    ensures LexIncreasing(SweepCells(size))
  {
    if size >= -2 {
      Cube(-1, size + 1, -1, size + 1, -1, size + 1);
    } else {
      NestLength(Span(-1, size + 1), Span(-1, size + 1), Span(-1, size + 1));
    }
  }

  /** marchCubes (marching_cubes.go:54-65). */
  function MarchCubes(size: int, iso: Vec3 -> real, level: real, T: McTables): (r: seq<Option<Vec3>>)
    requires WellFormedMcTables(T) && EdgesMatchCorners(T)
    ensures |r| % 3 == 0
  {
    MarchOrigins(SweepCells(size), iso, level, T)
  }

  /** The sampler of marchVoxels (marching_cubes.go:68-74): the sample at
      the truncated coordinates when they index the (possibly ragged) grid,
      0 otherwise. */
  function VoxelSample(voxels: Grid, p: Vec3): real
  {
    var x, y, z := Trunc(p.x), Trunc(p.y), Trunc(p.z);
    if 0 <= x < |voxels| && 0 <= y < |voxels[x]| && 0 <= z < |voxels[x][y]| then voxels[x][y][z] as real
    else 0.0
  }

  /** At integer points the sampler reads the grid inside it and 0 outside. */
  lemma VoxelSampleAt(voxels: Grid, x: int, y: int, z: int)
    ensures var s := VoxelSample(voxels, Vec3(x as real, y as real, z as real));
      && (0 <= x < |voxels| && 0 <= y < |voxels[x]| && 0 <= z < |voxels[x][y]| ==> s == voxels[x][y][z] as real)
      && (!(0 <= x < |voxels| && 0 <= y < |voxels[x]| && 0 <= z < |voxels[x][y]|) ==> s == 0.0)
  {
    TruncOfInt(x);
    TruncOfInt(y);
    TruncOfInt(z);
  }

  /** marchVoxels (marching_cubes.go:67-75): isolevel 0 and `len(voxels)` as
      the size on every axis, whatever the other two sizes are. */
  function MarchVoxels(voxels: Grid, T: McTables): (r: seq<Option<Vec3>>)
    requires WellFormedMcTables(T) && EdgesMatchCorners(T)
    ensures |r| % 3 == 0
  {
    MarchCubes(|voxels|, Sampler(voxels), 0.0, T)
  }

  /** The closure marchVoxels hands to marchCubes. */
  function Sampler(voxels: Grid): Vec3 -> real
  {
    p => VoxelSample(voxels, p)
  }

  /** The vertices behind non-nil pointers; flatten dereferences every one. */
  function Unwrap(vs: seq<Option<Vec3>>): (r: seq<Vec3>)
    requires forall k :: 0 <= k < |vs| ==> vs[k].Some?
    ensures |r| == |vs|
    ensures forall k :: 0 <= k < |vs| ==> vs[k] == Some(r[k])
  {
    seq(|vs|, k requires 0 <= k < |vs| => vs[k].value)
  }

  /** MarchingCubesChunk.HandleVoxelClick (marching_cubes.go:155-181): the
      brush on the whole grid, then the vertex soup of marchVoxels as
      position, normal and index buffers. `faceNormal` stands for the
      triangle normal of the vector library. */
  method HandleVoxelClick(voxels: Grid, x: int, y: int, z: int, shift: bool, T: McTables,
                          faceNormal: (Vec3, Vec3, Vec3) -> Vec3)
    returns (edited: Grid, mesh: Mesh)
    requires ConsistentTables(T) && Cuboid(voxels)
    ensures IsBox(edited, |voxels|, DimY(voxels), DimZ(voxels))
    ensures forall a, b, c :: InBox(a, b, c, |voxels|, DimY(voxels), DimZ(voxels)) ==>
      edited[a][b][c] == BrushedSample(voxels, a, b, c, x, y, z, |voxels|, DimY(voxels), DimZ(voxels), shift)
    ensures var vs := MarchVoxels(edited, T);
      && |mesh.positions| == 3 * |vs| && |mesh.normals| == 3 * |vs| && |mesh.indices| == |vs|
      && (forall k :: 0 <= k < |vs| ==> vs[k] == Some(Vec3(mesh.positions[3 * k], mesh.positions[3 * k + 1], mesh.positions[3 * k + 2])))
      && (|vs| <= U32Range ==> WellFormedMesh(mesh))
  {
    var n, m, l := |voxels|, DimY(voxels), DimZ(voxels);
    edited := ApplyBrush(voxels, n, m, l, x, y, z, n, m, l, shift);
    var vs := MarchVoxels(edited, T);
    MarchOriginsPresent(SweepCells(|edited|), Sampler(edited), 0.0, T);
    mesh := FromVertices(Unwrap(vs), faceNormal);
  }
}
