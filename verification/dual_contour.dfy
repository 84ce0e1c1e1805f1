/** The dual-contouring experiment of world_scene.go: a 16×256×16 chunk of
    real densities, one vertex per cell whose edges the surface crosses
    (placed by a least-squares solve and clamped into the cell), and a quad
    of two triangles for every cell face the surface passes through. The
    solver (LAPACK's Dgels) and the normal estimate (finite differences of
    the field, normalised) are parameters. */
module DualContour {
  import opened Options
  import opened Bits
  import opened Geometry
  import opened Voxels
  import opened Sweep
  import opened Helpers

  type Field = seq<seq<seq<real>>>

  /** The chunk's `blocks [16][256][16]float32`. */
  predicate ChunkField(b: Field)
  {
    IsBox(b, 16, 256, 16)
  }

  /** Chunk.f (world_scene.go:41-45): 0 outside the chunk, otherwise the
      block under the point. */
  function F(b: Field, x: real, y: real, z: real): (r: real)
    requires ChunkField(b)
    ensures !(0.0 <= x < 16.0 && 0.0 <= y < 256.0 && 0.0 <= z < 16.0) ==> r == 0.0
  {
    if x < 0.0 || x >= 16.0 || y < 0.0 || y >= 256.0 || z < 0.0 || z >= 16.0 then 0.0
    else b[Trunc(x)][Trunc(y)][Trunc(z)]
  }

  /** Inside the chunk f reads the block whose unit cube holds the point. */
  lemma FInside(b: Field, x: real, y: real, z: real)
    requires ChunkField(b) && 0.0 <= x < 16.0 && 0.0 <= y < 256.0 && 0.0 <= z < 16.0
    ensures F(b, x, y, z) == b[x.Floor][y.Floor][z.Floor]
    ensures x.Floor as real <= x < x.Floor as real + 1.0
  {
  }

  /** f at a lattice point, as every caller in world_scene.go uses it. */
  function Sample(b: Field, p: (int, int, int)): real
    requires ChunkField(b)
  {
    if InBox(p.0, p.1, p.2, 16, 256, 16) then b[p.0][p.1][p.2] else 0.0
  }

  /** Sample is f at the lattice point. */
  lemma SampleIsF(b: Field, p: (int, int, int))
    requires ChunkField(b)
    ensures Sample(b, p) == F(b, p.0 as real, p.1 as real, p.2 as real)
  {
    if InBox(p.0, p.1, p.2, 16, 256, 16) {
      FInside(b, p.0 as real, p.1 as real, p.2 as real);
    }
  }

  predicate Solid(b: Field, p: (int, int, int))
    requires ChunkField(b)
  {
    Sample(b, p) > 0.0
  }

  /** adapt (world_scene.go:64-70): None where the Go code aborts with
      log.Fatalf, otherwise the fraction of the way from v0 to v1 at which
      the linear interpolation is 0. */
  function Adapt(v0: real, v1: real): (r: Option<real>)
    ensures r.Some? <==> (v0 > 0.0) != (v1 > 0.0)
    ensures r.Some? ==> 0.0 <= r.value <= 1.0 && v0 + r.value * (v1 - v0) == 0.0
  {
    if (v0 > 0.0) == (v1 > 0.0) then None
    else
      ZeroFraction(v0, v1);
      Some((0.0 - v0) / (v1 - v0))
  }

  lemma ZeroFraction(v0: real, v1: real)
    requires (v0 > 0.0) != (v1 > 0.0)
    ensures v1 - v0 != 0.0
    ensures 0.0 <= (0.0 - v0) / (v1 - v0) <= 1.0
    ensures v0 + (0.0 - v0) / (v1 - v0) * (v1 - v0) == 0.0
  {
    var d := v1 - v0;
    var t := (0.0 - v0) / d;
    assert t * d == -v0;
    if d > 0.0 {
      assert (t - 1.0) * d <= 0.0;
    } else {
      assert (t - 1.0) * d >= 0.0;
    }
  }

  /** A cell edge: the corner it starts from and the axis it runs along
      (0 = x, 1 = y, 2 = z). */
  datatype CellEdge = CellEdge(dx: int, dy: int, dz: int, axis: nat)

  /** The twelve edges in the order of the three loops of
      world_scene.go:116-136: z edges, then y edges, then x edges. */
  const CellEdges: seq<CellEdge> := [
    CellEdge(0, 0, 0, 2), CellEdge(0, 1, 0, 2), CellEdge(1, 0, 0, 2), CellEdge(1, 1, 0, 2),
    CellEdge(0, 0, 0, 1), CellEdge(0, 0, 1, 1), CellEdge(1, 0, 0, 1), CellEdge(1, 0, 1, 1),
    CellEdge(0, 0, 0, 0), CellEdge(0, 0, 1, 0), CellEdge(0, 1, 0, 0), CellEdge(0, 1, 1, 0)]

  /** An edge of the unit cube: it starts at a corner and leaves it in the
      positive direction of its axis. */
  predicate CubeEdge(e: CellEdge)
  {
    && 0 <= e.dx <= 1 && 0 <= e.dy <= 1 && 0 <= e.dz <= 1 && e.axis < 3
    && (if e.axis == 0 then e.dx else if e.axis == 1 then e.dy else e.dz) == 0
  }

  /** The loops examine each of the unit cube's 12 edges exactly once: the
      table holds 12 distinct cube edges, and the cube has no others. */
  lemma CellEdgesAreTheCubeEdges()
    ensures |CellEdges| == 12
    ensures forall j :: 0 <= j < 12 ==> CubeEdge(CellEdges[j])
    ensures forall i, j :: 0 <= i < j < 12 ==> CellEdges[i] != CellEdges[j]
    ensures forall e :: CubeEdge(e) ==> e in CellEdges
  {
  }

  function Start(c: (int, int, int), e: CellEdge): (int, int, int)
  {
    (c.0 + e.dx, c.1 + e.dy, c.2 + e.dz)
  }

  function End(c: (int, int, int), e: CellEdge): (int, int, int)
  {
    (c.0 + e.dx + (if e.axis == 0 then 1 else 0),
     c.1 + e.dy + (if e.axis == 1 then 1 else 0),
     c.2 + e.dz + (if e.axis == 2 then 1 else 0))
  }

  /** The point a fraction t along edge e of cell c. */
  function Along(c: (int, int, int), e: CellEdge, t: real): Vec3
  {
    var s := Start(c, e);
    Vec3(s.0 as real + (if e.axis == 0 then t else 0.0),
         s.1 as real + (if e.axis == 1 then t else 0.0),
         s.2 as real + (if e.axis == 2 then t else 0.0))
  }

  /** One crossing test of findBestVertex (world_scene.go:118-119, 125-126,
      132-133): present exactly when the edge's two corners differ in
      `> 0`, and then on the edge where the interpolated density is 0. */
  function EdgeCrossing(b: Field, c: (int, int, int), e: CellEdge): (r: Option<Vec3>)
    requires ChunkField(b)
    ensures r.Some? <==> Solid(b, Start(c, e)) != Solid(b, End(c, e))
  {
    match Adapt(Sample(b, Start(c, e)), Sample(b, End(c, e)))
    case None => None
    case Some(t) => Some(Along(c, e, t))
  }

  /** A crossing lies on its edge, where the interpolated density is 0. */
  lemma CrossingOnEdge(b: Field, c: (int, int, int), e: CellEdge)
    requires ChunkField(b) && EdgeCrossing(b, c, e).Some?
    ensures exists t :: (0.0 <= t <= 1.0 && EdgeCrossing(b, c, e).value == Along(c, e, t)
      && Sample(b, Start(c, e)) + t * (Sample(b, End(c, e)) - Sample(b, Start(c, e))) == 0.0)
  {
    var t := Adapt(Sample(b, Start(c, e)), Sample(b, End(c, e))).value;
    assert EdgeCrossing(b, c, e).value == Along(c, e, t);
  }

  /** v is the crossing of one of the table's edges from k on. */
  predicate CrossingFrom(b: Field, c: (int, int, int), k: nat, v: Vec3)
    requires ChunkField(b)
  {
    exists j :: k <= j < 12 && EdgeCrossing(b, c, CellEdges[j]) == Some(v)
  }

  /** The `changes` list of findBestVertex, from edge k of the table on. */
  function Crossings(b: Field, c: (int, int, int), k: nat): (r: seq<Vec3>)
    requires ChunkField(b) && k <= 12
    decreases 12 - k
    ensures |r| <= 12 - k
    ensures forall i :: 0 <= i < |r| ==> CrossingFrom(b, c, k, r[i])
  {
    if k == 12 then []
    else
      var here := EdgeCrossing(b, c, CellEdges[k]);
      var rest := Crossings(b, c, k + 1);
      assert forall v :: CrossingFrom(b, c, k + 1, v) ==> CrossingFrom(b, c, k, v);
      if here.Some? then
        assert CrossingFrom(b, c, k, here.value) by {
          assert k <= k < 12 && EdgeCrossing(b, c, CellEdges[k]) == Some(here.value);
        }
        [here.value] + rest
      else rest
  }

  /** Every crossing edge from k on has its crossing in the list. */
  lemma {:induction false} CrossingsComplete(b: Field, c: (int, int, int), k: nat, j: nat)
    requires ChunkField(b) && k <= j < 12 && EdgeCrossing(b, c, CellEdges[j]).Some?
    ensures EdgeCrossing(b, c, CellEdges[j]).value in Crossings(b, c, k)
    decreases 12 - k
  {
    if k < j {
      CrossingsComplete(b, c, k + 1, j);
    }
  }

  function Dot(a: Vec3, b: Vec3): real
  {
    a.x * b.x + a.y * b.y + a.z * b.z
  }

  /** The least-squares system of solveQuadraticErrorFunction
      (world_scene.go:73-82): one row per crossing, the normal as its
      coefficients and the normal's dot product with the crossing as its
      right-hand side. */
  function QefSystem(ps: seq<Vec3>, ns: seq<Vec3>): (r: (seq<real>, seq<real>))
    requires |ps| == |ns|
    ensures |r.0| == 3 * |ps| && |r.1| == |ps|
    ensures forall i :: 0 <= i < |ps| ==>
      && r.0[3 * i] == ns[i].x && r.0[3 * i + 1] == ns[i].y && r.0[3 * i + 2] == ns[i].z
      && r.1[i] == Dot(ps[i], ns[i])
  {
    (Flatten(ns), seq(|ps|, i requires 0 <= i < |ps| => Dot(ps[i], ns[i])))
  }

  /** Point p meets row i of the system with coefficients `a` and
      right-hand side `rhs` exactly. */
  predicate SolvesRow(a: seq<real>, rhs: seq<real>, p: Vec3, i: nat)
    requires 3 * i + 2 < |a| && i < |rhs|
  {
    a[3 * i] * p.x + a[3 * i + 1] * p.y + a[3 * i + 2] * p.z == rhs[i]
  }

  /** Row i of the system is the tangent plane at crossing i: a point meets
      the row exactly when its offset from the crossing is perpendicular to
      the crossing's normal. */
  lemma QefRowsAreTangentPlanes(ps: seq<Vec3>, ns: seq<Vec3>, p: Vec3, i: nat)
    requires |ps| == |ns| && i < |ps|
    ensures SolvesRow(QefSystem(ps, ns).0, QefSystem(ps, ns).1, p, i)
      <==> Dot(Plus(p, Negate(ps[i])), ns[i]) == 0.0
  {
    var n, q := ns[i], ps[i];
    assert Dot(Plus(p, Negate(q)), n) == Dot(p, n) - Dot(q, n);
  }

  /** math32.Clamp. */
  function Clamp(v: real, lo: real, hi: real): (r: real)
    ensures lo <= hi ==> lo <= r <= hi
    ensures lo <= v <= hi ==> r == v
  {
    if v < lo then lo else if v > hi then hi else v
  }

  predicate InCell(p: Vec3, c: (int, int, int))
  {
    && c.0 as real <= p.x <= c.0 as real + 1.0
    && c.1 as real <= p.y <= c.1 as real + 1.0
    && c.2 as real <= p.z <= c.2 as real + 1.0
  }

  function Centre(c: (int, int, int)): Vec3
  {
    Vec3(c.0 as real + 0.5, c.1 as real + 0.5, c.2 as real + 0.5)
  }

  /** world_scene.go:90-103: a failed solve gives the cell centre, any
      solution is clamped into the cell, so the vertex is always inside it.
      `solve` returns the solution of the least-squares system, or None
      where Dgels reports failure. */
  function SolveQef(c: (int, int, int), ps: seq<Vec3>, ns: seq<Vec3>,
                    solve: (seq<real>, seq<real>) -> Option<Vec3>): (r: Vec3)
    requires |ps| == |ns|
    ensures InCell(r, c)
    ensures solve(QefSystem(ps, ns).0, QefSystem(ps, ns).1).None? ==> r == Centre(c)
    ensures solve(QefSystem(ps, ns).0, QefSystem(ps, ns).1).Some? && InCell(solve(QefSystem(ps, ns).0, QefSystem(ps, ns).1).value, c)
      ==> r == solve(QefSystem(ps, ns).0, QefSystem(ps, ns).1).value
  {
    var (x, y, z) := (c.0 as real, c.1 as real, c.2 as real);
    var sys := QefSystem(ps, ns);
    match solve(sys.0, sys.1)
    case None => Vec3(x + 0.5, y + 0.5, z + 0.5)
    case Some(s) => Vec3(Clamp(s.x, x, x + 1.0), Clamp(s.y, y, y + 1.0), Clamp(s.z, z, z + 1.0))
  }

  function Normals(ps: seq<Vec3>, normal: Vec3 -> Vec3): (r: seq<Vec3>)
    ensures |r| == |ps|
  {
    seq(|ps|, i requires 0 <= i < |ps| => normal(ps[i]))
  }

  /** findBestVertex (world_scene.go:106-147): no vertex for a cell with at
      most one crossing edge, otherwise the solved point, inside the cell. */
  function FindBestVertex(b: Field, c: (int, int, int), normal: Vec3 -> Vec3,
                          solve: (seq<real>, seq<real>) -> Option<Vec3>): (r: Option<Vec3>)
    requires ChunkField(b)
    ensures r.None? <==> |Crossings(b, c, 0)| <= 1
    ensures r.Some? ==> InCell(r.value, c)
  {
    var changes := Crossings(b, c, 0);
    if |changes| <= 1 then None
    else Some(SolveQef(c, changes, Normals(changes, normal), solve))
  }

  /** A cell with no crossing edge has no vertex. */
  lemma UniformCellHasNoVertex(b: Field, c: (int, int, int), normal: Vec3 -> Vec3,
                               solve: (seq<real>, seq<real>) -> Option<Vec3>)
    requires ChunkField(b)
    requires forall j :: 0 <= j < 12 ==> Solid(b, Start(c, CellEdges[j])) == Solid(b, End(c, CellEdges[j]))
    ensures FindBestVertex(b, c, normal, solve).None?
  {
  }

  /** The vertices of Generate, one per vertex, before they are flattened
      into the float buffers, and the vertIndices map. */
  datatype DcVertices = DcVertices(positions: seq<Vec3>, normals: seq<Vec3>, index: map<(int, int, int), nat>)

  function Vec3At(s: seq<real>, i: nat): Vec3
    requires 3 * i + 2 < |s|
  {
    Vec3(s[3 * i], s[3 * i + 1], s[3 * i + 2])
  }

  function Lattice(c: (int, int, int)): Vec3
  {
    Vec3(c.0 as real, c.1 as real, c.2 as real)
  }

  /** The first loop of Generate (world_scene.go:156-179) over `cells` in
      order, with `vertex` standing for findBestVertex on the chunk: a cell
      with a vertex gets the next index, its vertex is appended to the
      positions and the normal at its lattice corner to the normals. */
  function VertexPass(cells: seq<(int, int, int)>, vertex: ((int, int, int)) -> Option<Vec3>,
                      normal: Vec3 -> Vec3): (r: DcVertices)
    requires forall i, j :: 0 <= i < j < |cells| ==> cells[i] != cells[j]
    decreases |cells|
    ensures |r.positions| == |r.normals| == |r.index|
    ensures forall c :: c in r.index <==> c in cells && vertex(c).Some?
    ensures forall c :: c in r.index ==> r.index[c] < |r.positions|
    ensures forall c, d :: c in r.index && d in r.index && c != d ==> r.index[c] != r.index[d]
    ensures forall c :: c in r.index ==>
      r.positions[r.index[c]] == vertex(c).value && r.normals[r.index[c]] == normal(Lattice(c))
  {
    if cells == [] then DcVertices([], [], map[])
    else
      var prefix := cells[..|cells| - 1];
      var c := cells[|cells| - 1];
      assert cells == prefix + [c];
      LastNotInPrefix(cells);
      var prev := VertexPass(prefix, vertex, normal);
      match vertex(c)
      case None => prev
      case Some(v) =>
        var n := |prev.positions|;
        var next := DcVertices(prev.positions + [v], prev.normals + [normal(Lattice(c))], prev.index[c := n]);
        AppendIndex(prev.index, next.index, n, c);
        AppendEntries(prev, next, c, vertex, normal);
        next
  }

  /** Giving a cell without an index the next index keeps the indices
      distinct and below the vertex count. */
  lemma AppendIndex(index: map<(int, int, int), nat>, next: map<(int, int, int), nat>,
                    count: nat, c: (int, int, int))
    requires c !in index && |index| == count && next == index[c := count]
    requires forall d :: d in index ==> index[d] < count
    requires forall d, e :: d in index && e in index && d != e ==> index[d] != index[e]
    ensures |next| == count + 1
    ensures forall d :: d in next <==> d in index || d == c
    ensures forall d :: d in next ==> next[d] < count + 1
    ensures forall d, e :: d in next && e in next && d != e ==> next[d] != next[e]
  {
    assert index.Keys + {c} == next.Keys;
  }

  /** Appending a cell's vertex and normal at the next index gives every
      cell in the map, old or new, its own vertex and normal. */
  lemma AppendEntries(prev: DcVertices, next: DcVertices, c: (int, int, int),
                      vertex: ((int, int, int)) -> Option<Vec3>, normal: Vec3 -> Vec3)
    requires |prev.positions| == |prev.normals| && c !in prev.index && vertex(c).Some?
    requires forall d :: d in prev.index ==> prev.index[d] < |prev.positions| && vertex(d).Some?
    requires forall d :: d in prev.index ==>
      prev.positions[prev.index[d]] == vertex(d).value && prev.normals[prev.index[d]] == normal(Lattice(d))
    requires next == DcVertices(prev.positions + [vertex(c).value], prev.normals + [normal(Lattice(c))],
                                prev.index[c := |prev.positions|])
    ensures forall d :: d in next.index ==>
      next.positions[next.index[d]] == vertex(d).value && next.normals[next.index[d]] == normal(Lattice(d))
  {
    forall d | d in next.index
      ensures next.positions[next.index[d]] == vertex(d).value
      ensures next.normals[next.index[d]] == normal(Lattice(d))
    {
      if d != c {
        assert d in prev.index;
      }
    }
  }

  /** With no repeats, the last cell is not among the earlier ones. */
  lemma LastNotInPrefix(cells: seq<(int, int, int)>)
    requires |cells| > 0 && forall i, j :: 0 <= i < j < |cells| ==> cells[i] != cells[j]
    ensures cells[|cells| - 1] !in cells[..|cells| - 1]
  {
  }

  /** A Go map read that finds nothing yields 0 (world_scene.go:189-235 read
      vertIndices of cells that may have no vertex, through nil inner maps). */
  function Lookup(index: map<(int, int, int), nat>, p: (int, int, int)): (r: nat)
    ensures p in index ==> r == index[p]
    ensures p !in index ==> r == 0
    ensures r == 0 || r in index.Values
  {
    if p in index then index[p] else 0
  }

  /** The two triangles (q0, q1, q2), (q0, q2, q3) of a quad. */
  function Fan<T>(q0: T, q1: T, q2: T, q3: T): seq<T>
  {
    [q0, q1, q2, q0, q2, q3]
  }

  /** The same quad wound the other way: (q0, q2, q1), (q0, q3, q2). */
  function FanReversed<T>(q0: T, q1: T, q2: T, q3: T): seq<T>
  {
    [q0, q2, q1, q0, q3, q2]
  }

  /** The two windings are opposite: each triangle of one is a triangle of
      the other with its corners reversed (then rotated to start at q0). */
  lemma OppositeWindings(q0: nat, q1: nat, q2: nat, q3: nat)
    ensures var f, g := ReverseWinding(Fan(q0, q1, q2, q3)), FanReversed(q0, q1, q2, q3);
      forall t :: 0 <= t < 2 ==> g[3 * t] == f[3 * t + 2] && g[3 * t + 1] == f[3 * t] && g[3 * t + 2] == f[3 * t + 1]
  {
    ReverseWindingTriples(Fan(q0, q1, q2, q3));
  }

  /** The lattice point one step from p along the axis (0 = x, 1 = y, 2 = z). */
  function Next(p: (int, int, int), axis: nat): (int, int, int)
  {
    if axis == 0 then (p.0 + 1, p.1, p.2) else if axis == 1 then (p.0, p.1 + 1, p.2) else (p.0, p.1, p.2 + 1)
  }

  /** The midpoint of the lattice edge from p to Next(p, axis). */
  function EdgeMid(p: (int, int, int), axis: nat): Vec3
  {
    Vec3(p.0 as real + (if axis == 0 then 0.5 else 0.0),
         p.1 as real + (if axis == 1 then 0.5 else 0.0),
         p.2 as real + (if axis == 2 then 0.5 else 0.0))
  }

  /** The four cells around the lattice edge from p along the axis, in the
      order world_scene.go:187-237 reads them for that axis. */
  function QuadCells(p: (int, int, int), axis: nat): seq<(int, int, int)>
  {
    var (x, y, z) := p;
    if axis == 0 then [(x, y - 1, z - 1), (x, y, z - 1), (x, y, z), (x, y - 1, z)]
    else if axis == 1 then [(x - 1, y, z - 1), (x, y, z - 1), (x, y, z), (x - 1, y, z)]
    else [(x - 1, y - 1, z), (x - 1, y, z), (x, y, z), (x, y - 1, z)]
  }

  function Minus(a: (int, int, int), b: (int, int, int)): (int, int, int)
  {
    (a.0 - b.0, a.1 - b.1, a.2 - b.2)
  }

  function Cross(u: (int, int, int), v: (int, int, int)): (int, int, int)
  {
    (u.1 * v.2 - u.2 * v.1, u.2 * v.0 - u.0 * v.2, u.0 * v.1 - u.1 * v.0)
  }

  /** The right-hand-rule normal of the triangle through the centres of
      cells a, b, c (the centres differ exactly as the cell coordinates do):
      the side from which the triangle is seen counter-clockwise. */
  function Orient(a: (int, int, int), b: (int, int, int), c: (int, int, int)): (int, int, int)
  {
    Cross(Minus(b, a), Minus(c, a))
  }

  /** s times the unit vector of the axis. */
  function Unit(axis: nat, s: int): (int, int, int)
  {
    if axis == 0 then (s, 0, 0) else if axis == 1 then (0, s, 0) else (0, 0, s)
  }

  /** Exactly the cells whose closed unit cube holds the midpoint of the
      lattice edge from p along the axis, that is the four cells sharing
      that edge, are the QuadCells. */
  lemma QuadCellsAroundEdge(p: (int, int, int), axis: nat)
    requires axis < 3
    ensures forall i :: 0 <= i < 4 ==> InCell(EdgeMid(p, axis), QuadCells(p, axis)[i])
    ensures forall d :: InCell(EdgeMid(p, axis), d) ==> d in QuadCells(p, axis)
  {
    var q := QuadCells(p, axis);
    forall d | InCell(EdgeMid(p, axis), d)
      ensures d in q
    {
      var (x, y, z) := p;
      if axis == 0 {
        assert d.0 == x && y - 1 <= d.1 <= y && z - 1 <= d.2 <= z;
        if d.1 == y - 1 { if d.2 == z - 1 { assert d == q[0]; } else { assert d == q[3]; } }
        else { if d.2 == z - 1 { assert d == q[1]; } else { assert d == q[2]; } }
      } else if axis == 1 {
        assert d.1 == y && x - 1 <= d.0 <= x && z - 1 <= d.2 <= z;
        if d.0 == x - 1 { if d.2 == z - 1 { assert d == q[0]; } else { assert d == q[3]; } }
        else { if d.2 == z - 1 { assert d == q[1]; } else { assert d == q[2]; } }
      } else {
        assert d.2 == z && x - 1 <= d.0 <= x && y - 1 <= d.1 <= y;
        if d.0 == x - 1 { if d.1 == y - 1 { assert d == q[0]; } else { assert d == q[1]; } }
        else { if d.1 == y - 1 { assert d == q[3]; } else { assert d == q[2]; } }
      }
    }
  }

  /** The quad across the lattice edge from p along the axis, as the six
      cells of its two triangles, wound as world_scene.go:187-237 winds it;
      `solidNext` tells whether Next(p, axis) is solid. */
  function FaceCells(p: (int, int, int), axis: nat, solidNext: bool): (r: seq<(int, int, int)>)
    requires axis < 3
    ensures |r| == 6
  {
    var q := QuadCells(p, axis);
    var reversed := if axis == 0 then solidNext else !solidNext;
    if reversed then FanReversed(q[0], q[1], q[2], q[3]) else Fan(q[0], q[1], q[2], q[3])
  }

  /** The corners of the quad are exactly the four cells sharing the edge,
      and both triangles face away from the solid end of the edge: along
      +axis when p is the solid end, along -axis when Next(p, axis) is. */
  lemma FaceCellsGeometry(p: (int, int, int), axis: nat, solidNext: bool)
    requires axis < 3
    ensures var r := FaceCells(p, axis, solidNext);
      && (forall i :: 0 <= i < 6 ==> InCell(EdgeMid(p, axis), r[i]))
      && (forall d :: InCell(EdgeMid(p, axis), d) ==> d in r)
      && Orient(r[0], r[1], r[2]) == Unit(axis, if solidNext then -1 else 1)
      && Orient(r[3], r[4], r[5]) == Unit(axis, if solidNext then -1 else 1)
  {
    FaceCellsAroundEdge(p, axis, solidNext);
    FaceCellsFacing(p, axis, solidNext);
  }

  /** The six corners of the quad are the four cells sharing the edge. */
  lemma FaceCellsAroundEdge(p: (int, int, int), axis: nat, solidNext: bool)
    requires axis < 3
    ensures var r := FaceCells(p, axis, solidNext);
      && (forall i :: 0 <= i < 6 ==> InCell(EdgeMid(p, axis), r[i]))
      && (forall d :: InCell(EdgeMid(p, axis), d) ==> d in r)
  {
    QuadCellsAroundEdge(p, axis);
    var q := QuadCells(p, axis);
    var r := FaceCells(p, axis, solidNext);
    assert forall i :: 0 <= i < 6 ==> r[i] in q;
    assert forall i :: 0 <= i < 4 ==> q[i] in r;
  }

  function Shift(p: (int, int, int), o: (int, int, int)): (int, int, int)
  {
    (p.0 + o.0, p.1 + o.1, p.2 + o.2)
  }

  /** The QuadCells of the edge from the origin: those of any edge are
      these shifted by its start. */
  lemma QuadCellsShift(p: (int, int, int), axis: nat)
    ensures forall i :: 0 <= i < 4 ==> QuadCells(p, axis)[i] == Shift(p, QuadCells((0, 0, 0), axis)[i])
  {
  }

  /** Moving a triangle does not turn it. */
  lemma OrientShift(p: (int, int, int), a: (int, int, int), b: (int, int, int), c: (int, int, int))
    ensures Orient(Shift(p, a), Shift(p, b), Shift(p, c)) == Orient(a, b, c)
  {
    assert Minus(Shift(p, b), Shift(p, a)) == Minus(b, a);
    assert Minus(Shift(p, c), Shift(p, a)) == Minus(c, a);
  }

  /** The quads of the edges from the origin, computed. */
  lemma FacingXSolid()
    ensures var o := FaceCells((0, 0, 0), 0, true);
      o == [(0, -1, -1), (0, 0, 0), (0, 0, -1), (0, -1, -1), (0, -1, 0), (0, 0, 0)] && Orient(o[0], o[1], o[2]) == (-1, 0, 0) && Orient(o[3], o[4], o[5]) == (-1, 0, 0)
  {
  }

  lemma FacingXEmpty()
    ensures var o := FaceCells((0, 0, 0), 0, false);
      o == [(0, -1, -1), (0, 0, -1), (0, 0, 0), (0, -1, -1), (0, 0, 0), (0, -1, 0)] && Orient(o[0], o[1], o[2]) == (1, 0, 0) && Orient(o[3], o[4], o[5]) == (1, 0, 0)
  {
  }

  lemma FacingYSolid()
    ensures var o := FaceCells((0, 0, 0), 1, true);
      o == [(-1, 0, -1), (0, 0, -1), (0, 0, 0), (-1, 0, -1), (0, 0, 0), (-1, 0, 0)] && Orient(o[0], o[1], o[2]) == (0, -1, 0) && Orient(o[3], o[4], o[5]) == (0, -1, 0)
  {
  }

  lemma FacingYEmpty()
    ensures var o := FaceCells((0, 0, 0), 1, false);
      o == [(-1, 0, -1), (0, 0, 0), (0, 0, -1), (-1, 0, -1), (-1, 0, 0), (0, 0, 0)] && Orient(o[0], o[1], o[2]) == (0, 1, 0) && Orient(o[3], o[4], o[5]) == (0, 1, 0)
  {
  }

  lemma FacingZSolid()
    ensures var o := FaceCells((0, 0, 0), 2, true);
      o == [(-1, -1, 0), (-1, 0, 0), (0, 0, 0), (-1, -1, 0), (0, 0, 0), (0, -1, 0)] && Orient(o[0], o[1], o[2]) == (0, 0, -1) && Orient(o[3], o[4], o[5]) == (0, 0, -1)
  {
  }

  lemma FacingZEmpty()
    ensures var o := FaceCells((0, 0, 0), 2, false);
      o == [(-1, -1, 0), (0, 0, 0), (-1, 0, 0), (-1, -1, 0), (0, -1, 0), (0, 0, 0)] && Orient(o[0], o[1], o[2]) == (0, 0, 1) && Orient(o[3], o[4], o[5]) == (0, 0, 1)
  {
  }

  /** FaceCellsFacing for the edges from the origin. */
  lemma FacingAtOrigin(axis: nat, solidNext: bool)
    requires axis < 3
    ensures var o := FaceCells((0, 0, 0), axis, solidNext);
      && Orient(o[0], o[1], o[2]) == Unit(axis, if solidNext then -1 else 1)
      && Orient(o[3], o[4], o[5]) == Unit(axis, if solidNext then -1 else 1)
  {
    if axis == 0 && solidNext {
      FacingXSolid();
    } else if axis == 0 && !solidNext {
      FacingXEmpty();
    } else if axis == 1 && solidNext {
      FacingYSolid();
    } else if axis == 1 && !solidNext {
      FacingYEmpty();
    } else if axis == 2 && solidNext {
      FacingZSolid();
    } else if axis == 2 && !solidNext {
      FacingZEmpty();
    }
  }

  /** Both triangles of the quad face away from the solid end of the edge. */
  lemma FaceCellsFacing(p: (int, int, int), axis: nat, solidNext: bool)
    requires axis < 3
    ensures var r := FaceCells(p, axis, solidNext);
      && Orient(r[0], r[1], r[2]) == Unit(axis, if solidNext then -1 else 1)
      && Orient(r[3], r[4], r[5]) == Unit(axis, if solidNext then -1 else 1)
  {
    var o := FaceCells((0, 0, 0), axis, solidNext);
    var r := FaceCells(p, axis, solidNext);
    FacingAtOrigin(axis, solidNext);
    QuadCellsShift(p, axis);
    assert forall i :: 0 <= i < 6 ==> r[i] == Shift(p, o[i]);
    OrientShift(p, o[0], o[1], o[2]);
    OrientShift(p, o[3], o[4], o[5]);
  }

  /** The quad across the face between cell c and its +x neighbour
      (world_scene.go:187-203): the indices of the cells of FaceCells. */
  function FaceX(index: map<(int, int, int), nat>, c: (int, int, int), solidX: bool): (r: seq<nat>)
    ensures |r| == 6 && forall i :: 0 <= i < 6 ==> r[i] == Lookup(index, FaceCells(c, 0, solidX)[i])
  {
    var (x, y, z) := c;
    var q0, q1, q2, q3 := Lookup(index, (x, y - 1, z - 1)), Lookup(index, (x, y, z - 1)), Lookup(index, (x, y, z)), Lookup(index, (x, y - 1, z));
    if solidX then FanReversed(q0, q1, q2, q3) else Fan(q0, q1, q2, q3)
  }

  /** The +y face (world_scene.go:204-220). */
  function FaceY(index: map<(int, int, int), nat>, c: (int, int, int), solidY: bool): (r: seq<nat>)
    ensures |r| == 6 && forall i :: 0 <= i < 6 ==> r[i] == Lookup(index, FaceCells(c, 1, solidY)[i])
  {
    var (x, y, z) := c;
    var q0, q1, q2, q3 := Lookup(index, (x - 1, y, z - 1)), Lookup(index, (x, y, z - 1)), Lookup(index, (x, y, z)), Lookup(index, (x - 1, y, z));
    if solidY then Fan(q0, q1, q2, q3) else FanReversed(q0, q1, q2, q3)
  }

  /** The +z face (world_scene.go:221-237). */
  function FaceZ(index: map<(int, int, int), nat>, c: (int, int, int), solidZ: bool): (r: seq<nat>)
    ensures |r| == 6 && forall i :: 0 <= i < 6 ==> r[i] == Lookup(index, FaceCells(c, 2, solidZ)[i])
  {
    var (x, y, z) := c;
    var q0, q1, q2, q3 := Lookup(index, (x - 1, y - 1, z)), Lookup(index, (x - 1, y, z)), Lookup(index, (x, y, z)), Lookup(index, (x, y - 1, z));
    if solidZ then Fan(q0, q1, q2, q3) else FanReversed(q0, q1, q2, q3)
  }

  /** A lattice edge from `at` along `axis` whose two ends differ in `> 0`:
      the surface crosses it, and Generate puts a quad across it. */
  datatype Flip = Flip(at: (int, int, int), axis: nat)

  predicate Flipped(b: Field, f: Flip)
    requires ChunkField(b)
  {
    f.axis < 3 && Solid(b, f.at) != Solid(b, Next(f.at, f.axis))
  }

  /** The cells of the quad across a flipped edge. */
  function FlipFace(b: Field, f: Flip): seq<(int, int, int)>
    requires ChunkField(b) && f.axis < 3
  {
    FaceCells(f.at, f.axis, Solid(b, Next(f.at, f.axis)))
  }

  /** The flipped edges leaving lattice point c along +x, +y, +z, in that
      order. */
  function CellFlips(b: Field, c: (int, int, int)): (r: seq<Flip>)
    requires ChunkField(b)
    ensures forall f :: f in r <==> f.at == c && Flipped(b, f)
    ensures forall k :: 0 <= k < |r| ==> r[k].axis < 3
    ensures forall i, j :: 0 <= i < j < |r| ==> r[i].axis < r[j].axis
  {
    var s := Solid(b, c);
    (if s != Solid(b, Next(c, 0)) then [Flip(c, 0)] else [])
      + (if s != Solid(b, Next(c, 1)) then [Flip(c, 1)] else [])
      + (if s != Solid(b, Next(c, 2)) then [Flip(c, 2)] else [])
  }

  /** The flipped edges the second loop of Generate meets, in order. */
  function Flips(b: Field, cells: seq<(int, int, int)>): (r: seq<Flip>)
    requires ChunkField(b)
    ensures forall f :: f in r <==> f.at in cells && Flipped(b, f)
    ensures forall k :: 0 <= k < |r| ==> r[k].axis < 3
  {
    if cells == [] then []
    else
      var here := CellFlips(b, cells[0]);
      var rest := Flips(b, cells[1..]);
      assert forall p :: p in cells <==> p == cells[0] || p in cells[1..];
      here + rest
  }

  /** Every entry is a vertex index of the map, or the 0 of a missing one. */
  predicate FromIndex(s: seq<nat>, index: map<(int, int, int), nat>)
  {
    forall i :: 0 <= i < |s| ==> s[i] == 0 || s[i] in index.Values
  }

  /** The index blocks laid end to end. */
  function Concat(s: seq<seq<nat>>): seq<nat>
  {
    if s == [] then [] else s[0] + Concat(s[1..])
  }

  lemma {:induction false} ConcatAppend(s: seq<seq<nat>>, t: seq<seq<nat>>)
    ensures Concat(s + t) == Concat(s) + Concat(t)
  {
    if s != [] {
      assert (s + t)[1..] == s[1..] + t;
      ConcatAppend(s[1..], t);
      calc {
        Concat(s + t);
        s[0] + Concat(s[1..] + t);
        s[0] + (Concat(s[1..]) + Concat(t));
        (s[0] + Concat(s[1..])) + Concat(t);
      }
    } else {
      assert s + t == t;
    }
  }

  /** Blocks of six: entry i of block m sits at 6m + i. */
  lemma {:induction false} ConcatSixes(s: seq<seq<nat>>)
    requires forall k :: 0 <= k < |s| ==> |s[k]| == 6
    ensures |Concat(s)| == 6 * |s|
    ensures forall m, i :: 0 <= m < |s| && 0 <= i < 6 ==> Concat(s)[6 * m + i] == s[m][i]
  {
    if s != [] {
      ConcatSixes(s[1..]);
      forall m, i | 1 <= m < |s| && 0 <= i < 6
        ensures Concat(s)[6 * m + i] == s[m][i]
      {
        assert Concat(s)[6 * m + i] == Concat(s[1..])[6 * (m - 1) + i];
        assert s[1..][m - 1] == s[m];
      }
    }
  }

  lemma {:induction false} ConcatFromIndex(s: seq<seq<nat>>, index: map<(int, int, int), nat>)
    requires forall k :: 0 <= k < |s| ==> FromIndex(s[k], index)
    ensures FromIndex(Concat(s), index)
  {
    if s != [] {
      ConcatFromIndex(s[1..], index);
      var c := Concat(s);
      forall n | 0 <= n < |c|
        ensures c[n] == 0 || c[n] in index.Values
      {
        if n < |s[0]| { assert c[n] == s[0][n]; }
        else { assert c[n] == Concat(s[1..])[n - |s[0]|]; }
      }
    }
  }

  /** The six indices of the quad across one flipped edge, by the axis's
      block of world_scene.go:187-237. */
  function Face(b: Field, index: map<(int, int, int), nat>, f: Flip): (r: seq<nat>)
    requires ChunkField(b) && f.axis < 3
    ensures |r| == 6 && FromIndex(r, index)
    ensures forall i :: 0 <= i < 6 ==> r[i] == Lookup(index, FlipFace(b, f)[i])
  {
    var s := Solid(b, Next(f.at, f.axis));
    if f.axis == 0 then FaceX(index, f.at, s) else if f.axis == 1 then FaceY(index, f.at, s) else FaceZ(index, f.at, s)
  }

  function Quads(b: Field, index: map<(int, int, int), nat>, fs: seq<Flip>): (r: seq<seq<nat>>)
    requires ChunkField(b) && forall k :: 0 <= k < |fs| ==> fs[k].axis < 3
    ensures |r| == |fs| && forall k :: 0 <= k < |fs| ==> r[k] == Face(b, index, fs[k])
  {
    seq(|fs|, k requires 0 <= k < |fs| => Face(b, index, fs[k]))
  }

  /** The six indices of the quad across each flipped edge, in turn: entry
      i of quad m is the index of the i-th cell of that quad, or 0 for a
      cell without one. */
  function QuadIndices(b: Field, index: map<(int, int, int), nat>, fs: seq<Flip>): (r: seq<nat>)
    requires ChunkField(b) && forall k :: 0 <= k < |fs| ==> fs[k].axis < 3
    ensures |r| == 6 * |fs| && FromIndex(r, index)
    ensures forall m, i :: 0 <= m < |fs| && 0 <= i < 6 ==> r[6 * m + i] == Lookup(index, FlipFace(b, fs[m])[i])
  {
    var q := Quads(b, index, fs);
    ConcatSixes(q);
    ConcatFromIndex(q, index);
    Concat(q)
  }

  /** One flipped edge gives the six indices of its quad. */
  lemma SingleQuad(b: Field, index: map<(int, int, int), nat>, f: Flip)
    requires ChunkField(b) && f.axis < 3
    ensures QuadIndices(b, index, [f]) == Face(b, index, f)
    ensures QuadIndices(b, index, []) == []
  {
    var q := Quads(b, index, [f]);
    assert q == [Face(b, index, f)];
    assert Concat(q) == Face(b, index, f) + Concat([]);
  }

  lemma QuadIndicesAppend(b: Field, index: map<(int, int, int), nat>, fs: seq<Flip>, gs: seq<Flip>)
    requires ChunkField(b)
    requires forall k :: 0 <= k < |fs| ==> fs[k].axis < 3
    requires forall k :: 0 <= k < |gs| ==> gs[k].axis < 3
    ensures QuadIndices(b, index, fs + gs) == QuadIndices(b, index, fs) + QuadIndices(b, index, gs)
  {
    assert Quads(b, index, fs + gs) == Quads(b, index, fs) + Quads(b, index, gs);
    ConcatAppend(Quads(b, index, fs), Quads(b, index, gs));
  }

  /** The indices the second loop of Generate appends for one cell
      (world_scene.go:183-237): a quad for each flipped edge leaving the
      cell's lattice corner, x then y then z. */
  function CellIndices(b: Field, index: map<(int, int, int), nat>, c: (int, int, int)): (r: seq<nat>)
    requires ChunkField(b)
    ensures r == QuadIndices(b, index, CellFlips(b, c))
  {
    var ix, iy, iz := AxisIndices(b, index, c, 0), AxisIndices(b, index, c, 1), AxisIndices(b, index, c, 2);
    QuadIndicesAppend(b, index, AxisFlips(b, c, 0), AxisFlips(b, c, 1));
    QuadIndicesAppend(b, index, AxisFlips(b, c, 0) + AxisFlips(b, c, 1), AxisFlips(b, c, 2));
    assert CellFlips(b, c) == AxisFlips(b, c, 0) + AxisFlips(b, c, 1) + AxisFlips(b, c, 2);
    ix + iy + iz
  }

  /** The flipped edge leaving c along the axis, if that edge is flipped. */
  function AxisFlips(b: Field, c: (int, int, int), axis: nat): seq<Flip>
    requires ChunkField(b)
  {
    if Solid(b, c) != Solid(b, Next(c, axis)) then [Flip(c, axis)] else []
  }

  /** One `if solid != solidX { ... }` block of world_scene.go:187-237. */
  function AxisIndices(b: Field, index: map<(int, int, int), nat>, c: (int, int, int), axis: nat): (r: seq<nat>)
    requires ChunkField(b) && axis < 3
    ensures r == QuadIndices(b, index, AxisFlips(b, c, axis))
  {
    var s := Solid(b, Next(c, axis));
    SingleQuad(b, index, Flip(c, axis));
    if Solid(b, c) == s then []
    else if axis == 0 then FaceX(index, c, s)
    else if axis == 1 then FaceY(index, c, s)
    else FaceZ(index, c, s)
  }

  /** The second loop of Generate (world_scene.go:180-240) over `cells`:
      the quads of all flipped edges, in the order the loop meets them. */
  function IndexPass(b: Field, index: map<(int, int, int), nat>, cells: seq<(int, int, int)>): (r: seq<nat>)
    requires ChunkField(b)
    ensures r == QuadIndices(b, index, Flips(b, cells))
  {
    if cells == [] then []
    else
      var here := CellIndices(b, index, cells[0]);
      var rest := IndexPass(b, index, cells[1..]);
      QuadIndicesAppend(b, index, CellFlips(b, cells[0]), Flips(b, cells[1..]));
      here + rest
  }

  lemma Multiples(n: nat)
    ensures (3 * n) % 3 == 0 && (3 * n) / 3 == n
  {
  }

  /** The mesh buffers of Generate: both vertex lists flattened, the
      indices as they are. Every index stays in range because the map
      holds only indices of appended vertices. */
  function Assemble(v: DcVertices, ix: seq<nat>): (m: Mesh)
    requires |v.positions| == |v.normals|
    requires forall c :: c in v.index ==> v.index[c] < |v.positions|
    requires FromIndex(ix, v.index)
    ensures |m.positions| == |m.normals| && |m.positions| % 3 == 0 && VertexCount(m) == |v.positions|
    ensures m.indices == ix
    ensures forall i :: 0 <= i < |m.indices| ==> m.indices[i] == 0 || m.indices[i] < VertexCount(m)
    ensures forall k :: 0 <= k < |v.positions| ==>
      Vec3At(m.positions, k) == v.positions[k] && Vec3At(m.normals, k) == v.normals[k]
  {
    Multiples(|v.positions|);
    assert forall i :: 0 <= i < |ix| && ix[i] != 0 ==> ix[i] < |v.positions| by {
      forall i | 0 <= i < |ix| && ix[i] != 0
        ensures ix[i] < |v.positions|
      {
        var c :| c in v.index && v.index[c] == ix[i];
      }
    }
    Mesh(Flatten(v.positions), Flatten(v.normals), ix)
  }

  /** The cells both loops of Generate visit: [-1,16] × [-1,256] × [-1,16],
      the chunk's extent widened by one cell on each side, each once. */
  function DualCells(b: Field): (cells: seq<(int, int, int)>)
    requires ChunkField(b)
    ensures forall c :: c in cells <==> -1 <= c.0 <= 16 && -1 <= c.1 <= 256 && -1 <= c.2 <= 16
    ensures forall i, j :: 0 <= i < j < |cells| ==> cells[i] != cells[j]
  {
    Cube(-1, |b| + 1, -1, |b[0]| + 1, -1, |b[0][0]| + 1);
    Nest(Span(-1, |b| + 1), Span(-1, |b[0]| + 1), Span(-1, |b[0][0]| + 1))
  }

  /** The first loop of Generate over all its cells: exactly the cells
      with a vertex are in the map, their indices are distinct and as many
      as the vertices, and each cell's vertex is its findBestVertex point. */
  function DualVertices(b: Field, normal: Vec3 -> Vec3, solve: (seq<real>, seq<real>) -> Option<Vec3>): (v: DcVertices)
    requires ChunkField(b)
    ensures |v.positions| == |v.normals| == |v.index|
    ensures forall c :: c in v.index ==> v.index[c] < |v.positions|
    ensures forall c, d :: c in v.index && d in v.index && c != d ==> v.index[c] != v.index[d]
    ensures forall c :: c in v.index <==>
      -1 <= c.0 <= 16 && -1 <= c.1 <= 256 && -1 <= c.2 <= 16 && FindBestVertex(b, c, normal, solve).Some?
    ensures forall c :: c in v.index ==>
      v.positions[v.index[c]] == FindBestVertex(b, c, normal, solve).value && v.normals[v.index[c]] == normal(Lattice(c))
  {
    var cells := DualCells(b);
    var vertex := c => FindBestVertex(b, c, normal, solve);
    var v := VertexPass(cells, vertex, normal);
    assert forall c :: vertex(c) == FindBestVertex(b, c, normal, solve);
    v
  }

  /** Generate (world_scene.go:149-265) without the debug lines and the
      scene graph: the mesh and the vertIndices map behind it. */
  function Generate(b: Field, normal: Vec3 -> Vec3, solve: (seq<real>, seq<real>) -> Option<Vec3>)
    : (r: (Mesh, map<(int, int, int), nat>))
    requires ChunkField(b)
    ensures |r.0.positions| == |r.0.normals| && |r.0.positions| % 3 == 0 && VertexCount(r.0) == |r.1|
    ensures r.0.indices == QuadIndices(b, r.1, Flips(b, DualCells(b)))
    ensures forall c :: c in r.1 <==>
      -1 <= c.0 <= 16 && -1 <= c.1 <= 256 && -1 <= c.2 <= 16 && FindBestVertex(b, c, normal, solve).Some?
    ensures forall c :: c in r.1 ==>
      && r.1[c] < VertexCount(r.0)
      && Vec3At(r.0.positions, r.1[c]) == FindBestVertex(b, c, normal, solve).value
      && Vec3At(r.0.normals, r.1[c]) == normal(Lattice(c))
  {
    var v := DualVertices(b, normal, solve);
    var cells := DualCells(b);
    var m := Assemble(v, IndexPass(b, v.index, cells));
    (m, v.index)
  }

  /** Edge j of cell c's table joins corners of different kinds under the
      corner classification `solid`. */
  predicate CrossesBy(solid: ((int, int, int)) -> bool, c: (int, int, int), j: int)
  {
    0 <= j < 12 && solid(Start(c, CellEdges[j])) != solid(End(c, CellEdges[j]))
  }

  /** Each face of a cell is a cycle of four edges, and going round a cycle
      changes kind an even number of times; so a cell with one edge that
      changes kind has another. */
  lemma SecondCrossing(solid: ((int, int, int)) -> bool, c: (int, int, int), j: int)
    requires CrossesBy(solid, c, j)
    ensures exists k :: k != j && CrossesBy(solid, c, k)
  {
    if j in {0, 1, 4, 5} {
      assert (j != 0 && CrossesBy(solid, c, 0)) || (j != 5 && CrossesBy(solid, c, 5))
        || (j != 1 && CrossesBy(solid, c, 1)) || (j != 4 && CrossesBy(solid, c, 4));
    } else if j in {2, 3, 6, 7} {
      assert (j != 2 && CrossesBy(solid, c, 2)) || (j != 7 && CrossesBy(solid, c, 7))
        || (j != 3 && CrossesBy(solid, c, 3)) || (j != 6 && CrossesBy(solid, c, 6));
    } else if j in {8, 9} {
      assert (j != 8 && CrossesBy(solid, c, 8)) || CrossesBy(solid, c, 2)
        || (j != 9 && CrossesBy(solid, c, 9)) || CrossesBy(solid, c, 0);
    } else {
      assert (j != 10 && CrossesBy(solid, c, 10)) || CrossesBy(solid, c, 3)
        || (j != 11 && CrossesBy(solid, c, 11)) || CrossesBy(solid, c, 1);
    }
  }

  /** One step of the crossing list: edge k adds one entry exactly when it
      has a crossing. */
  lemma CrossingsStep(b: Field, c: (int, int, int), k: nat)
    requires ChunkField(b) && k < 12
    ensures |Crossings(b, c, k)| == |Crossings(b, c, k + 1)| + (if EdgeCrossing(b, c, CellEdges[k]).Some? then 1 else 0)
  {
  }

  /** Two different edges with a crossing, from edge k on, both reach the
      list. */
  lemma {:induction false} TwoCrossings(b: Field, c: (int, int, int), j1: nat, j2: nat, k: nat)
    requires ChunkField(b) && j1 < 12 && j2 < 12 && j1 != j2 && k <= 12
    requires EdgeCrossing(b, c, CellEdges[j1]).Some? && EdgeCrossing(b, c, CellEdges[j2]).Some?
    ensures |Crossings(b, c, k)| >= (if j1 >= k then 1 else 0) + (if j2 >= k then 1 else 0)
    decreases 12 - k
  {
    if k < 12 {
      TwoCrossings(b, c, j1, j2, k + 1);
      CrossingsStep(b, c, k);
      var here := if EdgeCrossing(b, c, CellEdges[k]).Some? then 1 else 0;
      assert k == j1 || k == j2 ==> here == 1;
    }
  }

  /** A lattice edge whose ends differ has an end inside the chunk: outside
      it f is 0 and so never solid. */
  lemma FlipTouchesChunk(b: Field, f: Flip)
    requires ChunkField(b) && Flipped(b, f)
    ensures InBox(f.at.0, f.at.1, f.at.2, 16, 256, 16) || InBox(Next(f.at, f.axis).0, Next(f.at, f.axis).1, Next(f.at, f.axis).2, 16, 256, 16)
  {
  }

  /** A lattice edge is an edge of every cell sharing it: one of the
      twelve of the cell's table. */
  lemma EdgeOfCell(p: (int, int, int), axis: nat, d: (int, int, int)) returns (j: nat)
    requires axis < 3 && InCell(EdgeMid(p, axis), d)
    ensures j < 12 && Start(d, CellEdges[j]) == p && End(d, CellEdges[j]) == Next(p, axis)
  {
    QuadCellsAroundEdge(p, axis);
    assert d in QuadCells(p, axis);
    var e := CellEdge(p.0 - d.0, p.1 - d.1, p.2 - d.2, axis);
    assert CubeEdge(e);
    CellEdgesAreTheCubeEdges();
    j :| 0 <= j < 12 && CellEdges[j] == e;
  }

  /** The cells sharing a flipped lattice edge lie in the range the first
      loop of Generate covers. */
  lemma FlipCellInRange(b: Field, f: Flip, d: (int, int, int))
    requires ChunkField(b) && Flipped(b, f) && InCell(EdgeMid(f.at, f.axis), d)
    ensures -1 <= d.0 <= 16 && -1 <= d.1 <= 256 && -1 <= d.2 <= 16
  {
    QuadCellsAroundEdge(f.at, f.axis);
    assert d in QuadCells(f.at, f.axis);
    FlipTouchesChunk(b, f);
  }

  /** A flipped lattice edge is an edge of each cell sharing it, so each of
      those cells has two crossing edges and therefore a vertex. */
  lemma FlipCellHasVertex(b: Field, f: Flip, d: (int, int, int), normal: Vec3 -> Vec3,
                          solve: (seq<real>, seq<real>) -> Option<Vec3>)
    requires ChunkField(b) && Flipped(b, f) && InCell(EdgeMid(f.at, f.axis), d)
    ensures FindBestVertex(b, d, normal, solve).Some?
  {
    var j := EdgeOfCell(f.at, f.axis, d);
    var solid := q => Solid(b, q);
    assert CrossesBy(solid, d, j);
    SecondCrossing(solid, d, j);
    var j2 :| j2 != j && CrossesBy(solid, d, j2);
    assert EdgeCrossing(b, d, CellEdges[j]).Some? && EdgeCrossing(b, d, CellEdges[j2]).Some?;
    TwoCrossings(b, d, j, j2, 0);
  }

  /** Corner i of the quad across a flipped edge shares the edge, lies in
      the covered range and has a vertex. */
  lemma QuadCorner(b: Field, f: Flip, i: nat, normal: Vec3 -> Vec3, solve: (seq<real>, seq<real>) -> Option<Vec3>)
    requires ChunkField(b) && Flipped(b, f) && i < 6
    ensures var d := FlipFace(b, f)[i];
      && InCell(EdgeMid(f.at, f.axis), d)
      && -1 <= d.0 <= 16 && -1 <= d.1 <= 256 && -1 <= d.2 <= 16
      && FindBestVertex(b, d, normal, solve).Some?
  {
    var d := FlipFace(b, f)[i];
    FaceCellsGeometry(f.at, f.axis, Solid(b, Next(f.at, f.axis)));
    FlipCellInRange(b, f, d);
    FlipCellHasVertex(b, f, d, normal, solve);
  }

  /** Every corner of every quad Generate emits is a cell sharing the
      flipped lattice edge, that cell has a vertex, and the index names it:
      the Go map reads of the index loop never miss. */
  lemma QuadCornersHaveVertices(b: Field, normal: Vec3 -> Vec3, solve: (seq<real>, seq<real>) -> Option<Vec3>, m: nat, i: nat)
    requires ChunkField(b) && m < |Flips(b, DualCells(b))| && i < 6
    ensures var r := Generate(b, normal, solve);
      var f := Flips(b, DualCells(b))[m];
      var d := FlipFace(b, f)[i];
      && InCell(EdgeMid(f.at, f.axis), d)
      && d in r.1
      && r.0.indices[6 * m + i] == r.1[d] < VertexCount(r.0)
      && Vec3At(r.0.positions, r.1[d]) == FindBestVertex(b, d, normal, solve).value
  {
    var r := Generate(b, normal, solve);
    MeshCorner(b, normal, solve, r.0, r.1, m, i);
  }

  /** QuadCornersHaveVertices for any mesh and index with Generate's
      contract. */
  lemma MeshCorner(b: Field, normal: Vec3 -> Vec3, solve: (seq<real>, seq<real>) -> Option<Vec3>,
                   mesh: Mesh, index: map<(int, int, int), nat>, m: nat, i: nat)
    requires ChunkField(b) && m < |Flips(b, DualCells(b))| && i < 6
    requires mesh.indices == QuadIndices(b, index, Flips(b, DualCells(b)))
    requires forall c :: c in index <==>
      -1 <= c.0 <= 16 && -1 <= c.1 <= 256 && -1 <= c.2 <= 16 && FindBestVertex(b, c, normal, solve).Some?
    requires forall c :: c in index ==>
      index[c] < VertexCount(mesh) && Vec3At(mesh.positions, index[c]) == FindBestVertex(b, c, normal, solve).value
    ensures var f := Flips(b, DualCells(b))[m];
      var d := FlipFace(b, f)[i];
      && InCell(EdgeMid(f.at, f.axis), d)
      && d in index
      && mesh.indices[6 * m + i] == index[d] < VertexCount(mesh)
      && Vec3At(mesh.positions, index[d]) == FindBestVertex(b, d, normal, solve).value
  {
    var fs := Flips(b, DualCells(b));
    var f := fs[m];
    assert f in fs;
    QuadCorner(b, f, i, normal, solve);
    var d := FlipFace(b, f)[i];
    assert d in index;
    IndexedCorner(b, index, fs, m, i);
  }

  /** A quad corner whose cell is in the index reads that cell's entry. */
  lemma IndexedCorner(b: Field, index: map<(int, int, int), nat>, fs: seq<Flip>, m: nat, i: nat)
    requires ChunkField(b) && forall k :: 0 <= k < |fs| ==> fs[k].axis < 3
    requires m < |fs| && i < 6 && FlipFace(b, fs[m])[i] in index
    ensures QuadIndices(b, index, fs)[6 * m + i] == index[FlipFace(b, fs[m])[i]]
  {
  }

  /** Every index of the mesh names a vertex. */
  lemma GeneratedIndicesInRange(b: Field, normal: Vec3 -> Vec3, solve: (seq<real>, seq<real>) -> Option<Vec3>)
    requires ChunkField(b)
    ensures var r := Generate(b, normal, solve);
      forall n :: 0 <= n < |r.0.indices| ==> r.0.indices[n] < VertexCount(r.0)
  {
    var r := Generate(b, normal, solve);
    forall n | 0 <= n < |r.0.indices|
      ensures r.0.indices[n] < VertexCount(r.0)
    {
      var m, i := n / 6, n % 6;
      assert n == 6 * m + i;
      QuadCornersHaveVertices(b, normal, solve, m, i);
    }
  }
}
