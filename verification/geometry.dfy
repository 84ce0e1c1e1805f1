/** Shared geometric vocabulary and the mesh builder of geometry.go.
    Coordinates are `real`: float32 rounding is not modelled. */
module Geometry {

  datatype Vec3 = Vec3(x: real, y: real, z: real)

  function Plus(a: Vec3, b: Vec3): Vec3
  {
    Vec3(a.x + b.x, a.y + b.y, a.z + b.z)
  }

  function Scale(a: Vec3, s: real): Vec3
  {
    Vec3(a.x * s, a.y * s, a.z * s)
  }

  function Negate(a: Vec3): Vec3
  {
    Vec3(-a.x, -a.y, -a.z)
  }

  /** The point `p0*t + (1-t)*p1` that divides the segment from p1 to p0. */
  function Mix(p0: Vec3, p1: Vec3, t: real): Vec3
  {
    Plus(Scale(p0, t), Scale(p1, 1.0 - t))
  }

  /** A renderer-agnostic mesh buffer: positions and normals are flat float
      triples, indices refer to vertices (one vertex = three position floats). */
  datatype Mesh = Mesh(positions: seq<real>, normals: seq<real>, indices: seq<nat>)

  const EmptyMesh := Mesh([], [], [])

  function VertexCount(m: Mesh): nat
  {
    |m.positions| / 3
  }

  /** The buffer invariant: positions and normals in lockstep, whole triples,
      and every index names an existing vertex. */
  predicate WellFormedMesh(m: Mesh)
  {
    && |m.positions| == |m.normals|
    && |m.positions| % 3 == 0
    && forall k :: 0 <= k < |m.indices| ==> m.indices[k] < VertexCount(m)
  }

  /** Appending one mesh after another; the caller has already offset the
      second mesh's indices by the first one's vertex count. */
  function Append(a: Mesh, b: Mesh): (r: Mesh)
  {
    Mesh(a.positions + b.positions, a.normals + b.normals, a.indices + b.indices)
  }

  /** Appending adds the vertex counts of whole-triple buffers. */
  lemma AppendCount(a: Mesh, b: Mesh)
    requires |a.positions| == |a.normals| && |a.positions| % 3 == 0
    requires |b.positions| == |b.normals| && |b.positions| % 3 == 0
    ensures |Append(a, b).positions| == |Append(a, b).normals| && |Append(a, b).positions| % 3 == 0
    ensures VertexCount(Append(a, b)) == VertexCount(a) + VertexCount(b)
  {
  }

  /** Appending a mesh whose indices all name its own vertices, shifted past
      the first mesh's, keeps the buffer invariant and adds the vertex counts. */
  lemma AppendWellFormed(a: Mesh, b: Mesh)
    requires WellFormedMesh(a)
    requires |b.positions| == |b.normals| && |b.positions| % 3 == 0
    requires forall k :: 0 <= k < |b.indices| ==> VertexCount(a) <= b.indices[k] < VertexCount(a) + VertexCount(b)
    ensures VertexCount(Append(a, b)) == VertexCount(a) + VertexCount(b)
    ensures WellFormedMesh(Append(a, b))
  {
    var r := Append(a, b);
    forall k | 0 <= k < |r.indices|
      ensures r.indices[k] < VertexCount(r)
    {
      if k >= |a.indices| {
        assert r.indices[k] == b.indices[k - |a.indices|];
      }
    }
  }

  /** The same, for a mesh whose indices were offset by the uint32 vertex
      count `VertexCount(a) % 2^32`: below 2^32 vertices in all, that is the
      vertex count itself. */
  lemma AppendAtWrappedCount(a: Mesh, b: Mesh)
    requires WellFormedMesh(a)
    requires |b.positions| == |b.normals| && |b.positions| % 3 == 0
    requires VertexCount(a) + VertexCount(b) <= U32Range
    requires forall k :: 0 <= k < |b.indices| ==>
      VertexCount(a) % U32Range <= b.indices[k] < VertexCount(a) % U32Range + VertexCount(b)
    ensures WellFormedMesh(Append(a, b))
  {
    forall k | 0 <= k < |b.indices|
      ensures VertexCount(a) <= b.indices[k] < VertexCount(a) + VertexCount(b)
    {
      assert VertexCount(a) % U32Range <= b.indices[k] < VertexCount(a) % U32Range + VertexCount(b);
      assert VertexCount(a) < U32Range;
      SmallMod(VertexCount(a), U32Range);
    }
    AppendWellFormed(a, b);
  }

  lemma ModAtMost(n: nat, m: nat)
    requires m > 0
    ensures n % m <= n
  {
  }

  lemma SmallMod(n: nat, m: nat)
    requires n < m
    ensures n % m == n
  {
  }

  /** Go's `int(f)` conversion of a float: truncation toward zero. */
  function Trunc(r: real): (t: int)
    ensures r >= 0.0 ==> t as real <= r < t as real + 1.0
    ensures r < 0.0 ==> t as real - 1.0 < r <= t as real
  {
    if r >= 0.0 then r.Floor else -((-r).Floor)
  }

  lemma TruncOfInt(i: int)
    ensures Trunc(i as real) == i
  {
  }

  const U32Range: nat := 0x1_0000_0000

  /** GeometryBuilder (geometry.go:11-14): growing position and index buffers. */
  datatype GeometryBuilder = GeometryBuilder(positions: seq<real>, indices: seq<nat>)

  /** `uint32(len(positions) / 3)`: the index the next added vertex will get,
      wrapped to 32 bits as the conversion does. */
  function CurrentTriangleIndex(g: GeometryBuilder): (r: nat)
    ensures r < U32Range
    ensures |g.positions| < 3 * U32Range ==> 3 * r <= |g.positions| < 3 * r + 3
  {
    (|g.positions| / 3) % U32Range
  }

  function AddVertex(g: GeometryBuilder, x: real, y: real, z: real): (r: GeometryBuilder)
    ensures r.positions == g.positions + [x, y, z]
    ensures r.indices == g.indices
    ensures CurrentTriangleIndex(r) == (CurrentTriangleIndex(g) + 1) % U32Range
  {
    GeometryBuilder(g.positions + [x, y, z], g.indices)
  }

  /** Appends the three indices in order; nothing checks that they name vertices. */
  function AddTriangle(g: GeometryBuilder, i: nat, j: nat, k: nat): (r: GeometryBuilder)
    ensures r.indices == g.indices + [i, j, k]
    ensures r.positions == g.positions
    ensures CurrentTriangleIndex(r) == CurrentTriangleIndex(g)
  {
    GeometryBuilder(g.positions, g.indices + [i, j, k])
  }

  datatype BuildOp = AddV(x: real, y: real, z: real) | AddT(i: nat, j: nat, k: nat)

  /** A builder after a series of AddVertex / AddTriangle calls. */
  function Run(g: GeometryBuilder, ops: seq<BuildOp>): GeometryBuilder
    decreases |ops|
  {
    if |ops| == 0 then g
    else
      var g' := match ops[0]
        case AddV(x, y, z) => AddVertex(g, x, y, z)
        case AddT(i, j, k) => AddTriangle(g, i, j, k);
      Run(g', ops[1..])
  }

  /** Using only the two adding methods, both buffers stay whole triples, and
      the vertex count grows by exactly the number of AddVertex calls. */
  lemma {:induction false} RunKeepsTriples(g: GeometryBuilder, ops: seq<BuildOp>)
    requires |g.positions| % 3 == 0 && |g.indices| % 3 == 0
    ensures |Run(g, ops).positions| % 3 == 0
    ensures |Run(g, ops).indices| % 3 == 0
    ensures |Run(g, ops).positions| == |g.positions| + 3 * CountVertexOps(ops)
    decreases |ops|
  {
    if |ops| > 0 {
      var g' := match ops[0]
        case AddV(x, y, z) => AddVertex(g, x, y, z)
        case AddT(i, j, k) => AddTriangle(g, i, j, k);
      RunKeepsTriples(g', ops[1..]);
    }
  }

  function CountVertexOps(ops: seq<BuildOp>): nat
  {
    if |ops| == 0 then 0 else (if ops[0].AddV? then 1 else 0) + CountVertexOps(ops[1..])
  }
}
