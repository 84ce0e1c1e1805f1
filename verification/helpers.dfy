/** The buffer helpers of helpers.go: flattening vertex lists into float
    buffers and back, sequential index buffers, winding reversal, flat-shaded
    normals, and the 2×2×2 demonstration grids of the case viewer. */
module Helpers {
  import opened Geometry
  import opened Voxels
  import opened Bits

  /** flatten (helpers.go:18-26): three floats per vertex, in order. */
  function Flatten(l: seq<Vec3>): (a: seq<real>)
    ensures |a| == 3 * |l|
    ensures forall i :: 0 <= i < |l| ==> a[3 * i] == l[i].x && a[3 * i + 1] == l[i].y && a[3 * i + 2] == l[i].z
  {
    if |l| == 0 then [] else [l[0].x, l[0].y, l[0].z] + Flatten(l[1..])
  }

  /** unflatten (helpers.go:28-38). A buffer whose length is not a multiple
      of three makes the Go loop index past its end, so it is excluded. */
  function Unflatten(a: seq<real>): (l: seq<Vec3>)
    requires |a| % 3 == 0
    ensures |l| == |a| / 3
  {
    seq(|a| / 3, i requires 0 <= i < |a| / 3 => Vec3(a[3 * i], a[3 * i + 1], a[3 * i + 2]))
  }

  /** Round trip: a vertex list survives flattening and unflattening. */
  lemma UnflattenFlatten(l: seq<Vec3>)
    ensures Unflatten(Flatten(l)) == l
  {
    var a := Flatten(l);
    assert |Unflatten(a)| == |l|;
    forall i | 0 <= i < |l|
      ensures Unflatten(a)[i] == l[i]
    {
    }
  }

  /** Round trip the other way: a whole-triple buffer survives unflattening
      and flattening. */
  lemma FlattenUnflatten(a: seq<real>)
    requires |a| % 3 == 0
    ensures Flatten(Unflatten(a)) == a
  {
    var l := Unflatten(a);
    var b := Flatten(l);
    forall k | 0 <= k < |a|
      ensures b[k] == a[k]
    {
      var i := k / 3;
      assert k == 3 * i + k % 3;
      assert l[i] == Vec3(a[3 * i], a[3 * i + 1], a[3 * i + 2]);
    }
  }

  /** indices (helpers.go:40-46): 0, 1, ..., count-1, each converted to uint32. */
  function Indices(count: nat): (r: seq<nat>)
    ensures |r| == count
    ensures forall i :: 0 <= i < count ==> r[i] < U32Range
  {
    seq(count, i requires 0 <= i < count => i % U32Range)
  }

  /** Below 2^32 vertices the index buffer is the identity, so every index
      names its own vertex and no two coincide. */
  lemma IndicesIdentity(count: nat)
    requires count <= U32Range
    ensures forall i :: 0 <= i < count ==> Indices(count)[i] == i
    ensures forall i, j :: 0 <= i < j < count ==> Indices(count)[i] != Indices(count)[j]
  {
  }

  /** reverseWinding (helpers.go:66-74): a new buffer of the same length in
      which each whole triple (a, b, c) becomes (c, b, a); slots past the last
      whole triple keep the zero they were allocated with. */
  function ReverseWinding(ix: seq<nat>): (r: seq<nat>)
    ensures |r| == |ix|
  {
    seq(|ix|, k requires 0 <= k < |ix| =>
      if k < |ix| / 3 * 3 then ix[3 * (k / 3) + 2 - k % 3] else 0)
  }

  /** The triple-level effect of ReverseWinding. */
  lemma ReverseWindingTriples(ix: seq<nat>)
    ensures forall t :: 0 <= t < |ix| / 3 ==>
      && ReverseWinding(ix)[3 * t] == ix[3 * t + 2]
      && ReverseWinding(ix)[3 * t + 1] == ix[3 * t + 1]
      && ReverseWinding(ix)[3 * t + 2] == ix[3 * t]
    ensures forall k :: |ix| / 3 * 3 <= k < |ix| ==> ReverseWinding(ix)[k] == 0
  {
    var r := ReverseWinding(ix);
    forall t | 0 <= t < |ix| / 3
      ensures r[3 * t] == ix[3 * t + 2] && r[3 * t + 1] == ix[3 * t + 1] && r[3 * t + 2] == ix[3 * t]
    {
      assert (3 * t) / 3 == t && (3 * t + 1) / 3 == t && (3 * t + 2) / 3 == t;
    }
  }

  /** On whole-triple buffers reversing twice restores the original. */
  lemma ReverseWindingInvolution(ix: seq<nat>)
    requires |ix| % 3 == 0
    ensures ReverseWinding(ReverseWinding(ix)) == ix
  {
    var r := ReverseWinding(ix);
    var rr := ReverseWinding(r);
    forall k | 0 <= k < |ix|
      ensures rr[k] == ix[k]
    {
      var t, j := k / 3, k % 3;
      assert k == 3 * t + j;
      assert rr[k] == r[3 * t + 2 - j];
      assert (3 * t + 2 - j) / 3 == t && (3 * t + 2 - j) % 3 == 2 - j;
    }
  }

  /** Reversal only moves indices within their triple: a range that bounds
      every index of a whole-triple buffer bounds the reversed buffer too. */
  lemma ReverseWindingBounded(ix: seq<nat>, lo: nat, hi: nat)
    requires |ix| % 3 == 0
    requires forall k :: 0 <= k < |ix| ==> lo <= ix[k] < hi
    ensures forall k :: 0 <= k < |ix| ==> lo <= ReverseWinding(ix)[k] < hi
  {
    forall k | 0 <= k < |ix|
      ensures lo <= ReverseWinding(ix)[k] < hi
    {
      assert 0 <= 3 * (k / 3) + 2 - k % 3 < |ix|;
    }
  }

  /** The face normal of vertex `v`: that of the triangle it belongs to,
      negated (helpers.go:51-52). `faceNormal` stands for the triangle
      normal of the vector library. */
  function VertexNormal(vs: seq<Vec3>, v: nat, faceNormal: (Vec3, Vec3, Vec3) -> Vec3): Vec3
    requires |vs| % 3 == 0 && v < |vs|
  {
    var t := v / 3;
    Negate(faceNormal(vs[3 * t], vs[3 * t + 1], vs[3 * t + 2]))
  }

  /** computeNormals (helpers.go:48-60): the vertex list read as a triangle
      soup, every vertex given its triangle's negated normal. */
  function ComputeNormals(vs: seq<Vec3>, faceNormal: (Vec3, Vec3, Vec3) -> Vec3): (r: seq<real>)
    requires |vs| % 3 == 0
    ensures |r| == 3 * |vs|
  {
    Flatten(seq(|vs|, v requires 0 <= v < |vs| => VertexNormal(vs, v, faceNormal)))
  }

  /** All three vertices of a triangle carry the same normal, the negated
      face normal of that triangle. */
  lemma FlatShading(vs: seq<Vec3>, faceNormal: (Vec3, Vec3, Vec3) -> Vec3, t: nat, j: nat)
    requires |vs| % 3 == 0 && t < |vs| / 3 && j < 3
    ensures var r := ComputeNormals(vs, faceNormal);
      var n := Negate(faceNormal(vs[3 * t], vs[3 * t + 1], vs[3 * t + 2]));
      && r[3 * (3 * t + j)] == n.x
      && r[3 * (3 * t + j) + 1] == n.y
      && r[3 * (3 * t + j) + 2] == n.z
  {
    assert (3 * t + j) / 3 == t;
  }

  /** fromVertices (helpers.go:62-64): a triangle soup as a mesh. */
  function FromVertices(vs: seq<Vec3>, faceNormal: (Vec3, Vec3, Vec3) -> Vec3): (m: Mesh)
    requires |vs| % 3 == 0
    ensures |m.positions| == 3 * |vs| && |m.normals| == 3 * |vs| && |m.indices| == |vs|
    ensures |vs| <= U32Range ==> WellFormedMesh(m)
  {
    Mesh(Flatten(vs), ComputeNormals(vs, faceNormal), Indices(|vs|))
  }

  /** The corner of the 2×2×2 demonstration grid that bit `k` of the step
      number controls: bit x + 2z + 4y (helpers.go:217-239). */
  function StepBit(x: nat, y: nat, z: nat): nat
  {
    x + 2 * z + 4 * y
  }

  /** The starting grid: every corner 127. */
  function AllSolid(): (g: Grid)
    ensures IsBox(g, 2, 2, 2)
  {
    seq(2, x => seq(2, y => seq(2, z => 127)))
  }

  /** The corners whose bit is below `k` are marked according to the bit
      flags `bits`, the others still hold 127. */
  ghost predicate MarkedBelow(g: Grid, bits: seq<bool>, k: nat)
    requires |bits| == 8
  {
    && IsBox(g, 2, 2, 2)
    && forall x, y, z :: InBox(x, y, z, 2, 2, 2) ==>
         g[x][y][z] == if StepBit(x, y, z) < k && bits[StepBit(x, y, z)] then -127 else 127
  }

  lemma StartUnmarked(bits: seq<bool>)
    requires |bits| == 8
    ensures MarkedBelow(AllSolid(), bits, 0)
  {
  }

  lemma AllMarked(i: nat, g: Grid)
    requires MarkedBelow(g, LowBits(i, 8), 8)
    ensures forall x, y, z :: InBox(x, y, z, 2, 2, 2) ==>
      g[x][y][z] == if Bit(i, StepBit(x, y, z)) then -127 else 127
  {
  }

  /** One `if (i>>k)&1 != 0 { voxels[x][y][z] = -127 }` test, k = StepBit(x, y, z). */
  function Mark(g: Grid, bits: seq<bool>, x: nat, y: nat, z: nat): (r: Grid)
    requires |bits| == 8
    requires IsBox(g, 2, 2, 2) && x < 2 && y < 2 && z < 2
    ensures IsBox(r, 2, 2, 2)
    ensures MarkedBelow(g, bits, StepBit(x, y, z)) ==> MarkedBelow(r, bits, StepBit(x, y, z) + 1)
  {
    if bits[StepBit(x, y, z)] then Set3(g, x, y, z, -127) else g
  }

  /** The corner that bit `k` controls, in the order of the eight tests. */
  function StepCorner(k: nat): (nat, nat, nat)
  {
    (k % 2, k / 4, (k / 2) % 2)
  }

  lemma StepCornerBit(k: nat)
    requires k < 8
    ensures StepCorner(k).0 < 2 && StepCorner(k).1 < 2 && StepCorner(k).2 < 2
    ensures StepBit(StepCorner(k).0, StepCorner(k).1, StepCorner(k).2) == k
  {
    assert k == 0 || k == 1 || k == 2 || k == 3 || k == 4 || k == 5 || k == 6 || k == 7;
  }

  /** The demonstration grid of step `i`: a 2×2×2 grid holding -127 at the
      corners whose bit is set in `i` and 127 elsewhere. */
  ghost predicate StepGrid(g: Grid, i: nat)
  {
    && IsBox(g, 2, 2, 2)
    && forall x, y, z :: InBox(x, y, z, 2, 2, 2) ==>
         g[x][y][z] == if Bit(i, StepBit(x, y, z)) then -127 else 127
  }

  /** voxelsAtStep (helpers.go:212-242): a 2×2×2 grid of 127s in which the
      corners whose bit is set in `i` hold -127. The source's eight tests are
      bits 0..7 in the order of StepCorner, one loop iteration each here. */
  method VoxelsAtStep(i: nat) returns (g: Grid)
    requires i < 256
    ensures StepGrid(g, i)
  {
    var bits := LowBits(i, 8);
    g := AllSolid();
    StartUnmarked(bits);
    var k := 0;
    while k < 8
      invariant k <= 8 && IsBox(g, 2, 2, 2)
      invariant MarkedBelow(g, bits, k)
    {
      StepCornerBit(k);
      var (x, y, z) := StepCorner(k);
      g := Mark(g, bits, x, y, z);
      k := k + 1;
    }
    AllMarked(i, g);
  }
}
