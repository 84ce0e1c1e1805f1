/** The regular-cell part of Eric Lengyel's Transvoxel algorithm as
    transvoxel.go implements it: corner sampling, the 8-bit case code, the
    early exit, table-driven vertex and triangle emission, and the sweep over
    an inflated grid. The lookup tables are not part of this model; they are
    a parameter with the shape the code relies on. */
module Transvoxel {
  import opened Bits
  import opened Geometry
  import opened Voxels
  import opened Sweep
  import opened Helpers

  /** cornerVertices (transvoxel.go:16-25): corner k of a cell sits at this
      offset from the cell's origin. */
  const CornerOffsets: seq<(nat, nat, nat)> :=
    [(0, 0, 0), (1, 0, 0), (0, 0, 1), (1, 0, 1), (0, 1, 0), (1, 1, 0), (0, 1, 1), (1, 1, 1)]

  function CornerVertex(k: nat): Vec3
    requires k < 8
  {
    var (dx, dy, dz) := CornerOffsets[k];
    Vec3(dx as real, dy as real, dz as real)
  }

  /** The corner table is binary counting with x as bit 0, z as bit 1 and y
      as bit 2 — the same bit assignment as the demonstration grids. */
  lemma CornerOffsetsCount(k: nat)
    requires k < 8
    ensures CornerOffsets[k] == StepCorner(k)
    ensures StepBit(CornerOffsets[k].0, CornerOffsets[k].1, CornerOffsets[k].2) == k
  {
  }

  /** The 2×2×2 block of samples with origin (x, y, z) lies inside the grid. */
  predicate HasCell(g: Grid, x: int, y: int, z: int)
  {
    Cuboid(g) && 0 <= x && x + 1 < |g| && 0 <= y && y + 1 < DimY(g) && 0 <= z && z + 1 < DimZ(g)
  }

  /** Every central difference at every corner reads inside the grid:
      indices x-1 .. x+2 on each axis. */
  predicate HasGradients(g: Grid, x: int, y: int, z: int)
  {
    Cuboid(g) && 1 <= x && x + 2 < |g| && 1 <= y && y + 2 < DimY(g) && 1 <= z && z + 2 < DimZ(g)
  }

  /** corners (transvoxel.go:27-38): the eight samples of a cell, in the
      order of the corner table. */
  function Corners(x: int, y: int, z: int, g: Grid): (c: seq<Int8>)
    requires HasCell(g, x, y, z)
    ensures |c| == 8
    ensures forall k :: 0 <= k < 8 ==>
      c[k] == g[x + CornerOffsets[k].0][y + CornerOffsets[k].1][z + CornerOffsets[k].2]
  {
    [g[x][y][z], g[x + 1][y][z], g[x][y][z + 1], g[x + 1][y][z + 1],
     g[x][y + 1][z], g[x + 1][y + 1][z], g[x][y + 1][z + 1], g[x + 1][y + 1][z + 1]]
  }

  /** Go's `>>` on a signed value: an arithmetic shift, i.e. division by
      2^s rounded toward negative infinity (Dafny's `/` by a positive
      divisor rounds the same way). */
  function Shr(v: int, s: nat): int
  {
    v / Pow2(s)
  }

  /** The two's-complement byte of a signed value: Go's `byte(v)` and the
      operand of `&` on an int8. */
  function LowByte(v: int): (b: nat)
    ensures b < 256
  {
    v % 256
  }

  /** `(c[k] >> (7-k)) & (1 << k)` for k < 7. */
  function ShiftedBit(v: Int8, k: nat): nat
    requires k < 7
  {
    Flag(Bit(LowByte(Shr(v, 7 - k)), k), Pow2(k))
  }

  /** The eight terms OR-ed together by transvoxelCase (transvoxel.go:41-48). */
  function CaseTerms(c: seq<Int8>): (ts: seq<nat>)
    requires |c| == 8
    ensures |ts| == 8
  {
    [ShiftedBit(c[0], 0), ShiftedBit(c[1], 1), ShiftedBit(c[2], 2), ShiftedBit(c[3], 3),
     ShiftedBit(c[4], 4), ShiftedBit(c[5], 5), ShiftedBit(c[6], 6), Flag(Bit(LowByte(c[7]), 7), 128)]
  }

  /** transvoxelCase (transvoxel.go:40-49). The terms occupy distinct bits,
      so their OR is their sum. The cell coordinates the Go function takes
      are never read. */
  function CaseCode(c: seq<Int8>): (r: nat)
    requires |c| == 8
    ensures r == Pack(SignFlags(c))
    ensures r < 256
  {
    CaseTermsArePack(c);
    Sum(CaseTerms(c))
  }

  /** The reference reading of the case code: bit k says "corner k is negative". */
  function SignFlags(c: seq<Int8>): (bs: seq<bool>)
    requires |c| == 8
    ensures |bs| == 8
  {
    seq(8, k requires 0 <= k < 8 => c[k] < 0)
  }

  /** Shifting a negative int8 right by 7-k fills bit k with its sign. */
  lemma SignTerm(v: Int8, k: nat)
    requires k < 8
    ensures Bit(LowByte(Shr(v, 7 - k)), k) <==> v < 0
  {
    Pow2Table();
    var u := LowByte(Shr(v, 7 - k));
    if v < 0 {
      assert 256 - Pow2(k) <= u < 256 by {
        assert 0 <= Shr(v, 7 - k) + Pow2(k) && Shr(v, 7 - k) < 0 by {
          if k == 0 {} else if k == 1 {} else if k == 2 {} else if k == 3 {}
          else if k == 4 {} else if k == 5 {} else if k == 6 {} else {}
        }
      }
      BitOfTop(u, k, 8);
    } else {
      assert u < Pow2(k) by {
        if k == 0 {} else if k == 1 {} else if k == 2 {} else if k == 3 {}
        else if k == 4 {} else if k == 5 {} else if k == 6 {} else {}
      }
      BitOfSmall(u, k);
    }
  }

  /** Term k of the case code is 2^k for a negative corner and 0 otherwise. */
  lemma ShiftedBitIsSign(v: Int8, k: nat)
    requires k < 7
    ensures ShiftedBit(v, k) == Flag(v < 0, Pow2(k))
  {
    SignTerm(v, k);
  }

  lemma TopBitIsSign(v: Int8)
    ensures Flag(Bit(LowByte(v), 7), 128) == Flag(v < 0, 128)
  {
    SignTerm(v, 7);
    assert Shr(v, 0) == v;
  }

  /** Each of the eight terms is the weight 2^k of "corner k is negative". */
  lemma CaseTermsArePack(c: seq<Int8>)
    requires |c| == 8
    ensures Sum(CaseTerms(c)) == Pack(SignFlags(c))
    ensures Sum(CaseTerms(c)) < 256
  {
    Pow2Table();
    var bs := SignFlags(c);
    var ts := CaseTerms(c);
    forall k | 0 <= k < 8
      ensures ts[k] == if bs[k] then Pow2(k) else 0
    {
      if k < 7 {
        ShiftedBitIsSign(c[k], k);
      } else {
        TopBitIsSign(c[7]);
      }
    }
    SumOfWeights(ts, bs);
  }

  /** Bit k of the case code is set exactly when corner k is negative. */
  lemma CaseCodeBits(c: seq<Int8>)
    requires |c| == 8
    ensures forall k :: 0 <= k < 8 ==> (Bit(CaseCode(c), k) <==> c[k] < 0)
  {
    forall k | 0 <= k < 8
      ensures Bit(CaseCode(c), k) <==> c[k] < 0
    {
      BitOfPack(SignFlags(c), k);
    }
  }

  /** The test of transvoxel.go:54: the case code XOR the sign bit of the
      last corner, `(byte(c[7]) >> 7) & 0xFF`, is zero. */
  predicate EarlyExit(c: seq<Int8>)
    requires |c| == 8
  {
    Xor8(CaseCode(c), LowByte(c[7]) / 128) == 0
  }

  /** Since bit 7 of the case code already is the sign of the last corner,
      the early exit fires exactly for case 0, the cell with no negative
      corner; case 255 (all corners negative) is not skipped. */
  lemma EarlyExitIffCaseZero(c: seq<Int8>)
    requires |c| == 8
    ensures EarlyExit(c) <==> CaseCode(c) == 0
    ensures EarlyExit(c) <==> forall k :: 0 <= k < 8 ==> c[k] >= 0
  {
    var a, b := CaseCode(c), LowByte(c[7]) / 128;
    Xor8Zero(a, b);
    if c[7] < 0 {
      assert b == 1;
      CaseCodeBits(c);
      assert Bit(a, 7);
      Pow2Table();
      BitOfSmall(1, 7);
      BitOfSmall(0, 7);
    } else {
      assert b == 0;
    }
    CaseZeroIffNonNegative(c);
  }

  /** Case 0 is the cell with no negative corner. */
  lemma CaseZeroIffNonNegative(c: seq<Int8>)
    requires |c| == 8
    ensures CaseCode(c) == 0 <==> forall k :: 0 <= k < 8 ==> c[k] >= 0
  {
    NoFlagsIffNonNegative(c, SignFlags(c));
  }

  lemma NoFlagsIffNonNegative(c: seq<Int8>, bs: seq<bool>)
    requires |c| == 8 && bs == SignFlags(c)
    ensures Pack(bs) == 0 <==> forall k :: 0 <= k < 8 ==> c[k] >= 0
  {
    PackZero(bs);
    assert forall k :: 0 <= k < 8 ==> (bs[k] <==> c[k] < 0);
  }

  /** One entry of RegularCellData: the vertex and triangle counts and, for
      each triangle, three indices into the cell's vertex list. */
  datatype RegularCell = RegularCell(vertexCount: nat, triangleCount: nat, vertexIndex: seq<nat>)

  /** RegularCellClass, RegularCellData and RegularVertexData. */
  datatype Tables = Tables(cellClass: seq<nat>, cellData: seq<RegularCell>, vertexData: seq<seq<nat>>)

  /** `(code >> 4) & 0x0F` and `code & 0x0F`: the two corners of a vertex's edge. */
  function Corner0(code: nat): nat
  {
    (code / 16) % 16
  }

  function Corner1(code: nat): nat
  {
    code % 16
  }

  /** The shape of the table entry for case `i` that the code relies on: the
      vertex count fits the 15-slot index map, every vertex code has an edge
      of two real corners whose signs differ in case `i`, and every
      triangle index addresses a slot of the index map. */
  predicate CaseShaped(T: Tables, i: nat)
    requires |T.cellClass| == 256 && |T.vertexData| == 256 && i < 256
    requires forall j :: 0 <= j < 256 ==> T.cellClass[j] < |T.cellData|
  {
    var cell := T.cellData[T.cellClass[i]];
    var codes := T.vertexData[i];
    && cell.vertexCount <= 15
    && cell.vertexCount <= |codes|
    && 3 * cell.triangleCount <= |cell.vertexIndex|
    && (forall j :: 0 <= j < 3 * cell.triangleCount ==> cell.vertexIndex[j] < 15)
    && (forall v :: 0 <= v < cell.vertexCount ==>
          Corner0(codes[v]) < 8 && Corner1(codes[v]) < 8
          && Bit(i, Corner0(codes[v])) != Bit(i, Corner1(codes[v])))
  }

  predicate WellFormedTables(T: Tables)
  {
    && |T.cellClass| == 256
    && |T.vertexData| == 256
    && (forall j :: 0 <= j < 256 ==> T.cellClass[j] < |T.cellData|)
    && (forall i :: 0 <= i < 256 ==> CaseShaped(T, i))
  }

  /** Every triangle index of a cell entry refers to one of its vertices. */
  predicate TrianglesBounded(cell: RegularCell)
  {
    forall j :: 0 <= j < 3 * cell.triangleCount && j < |cell.vertexIndex| ==>
      cell.vertexIndex[j] < cell.vertexCount
  }

  /** The real tables' property that every triangle of every case refers to
      one of that case's vertices. */
  predicate IndexTableBounded(T: Tables)
    requires WellFormedTables(T)
  {
    forall i :: 0 <= i < 256 ==> TrianglesBounded(CellOf(T, i))
  }

  /** The cell entry of case `index`, found through its equivalence class. */
  function CellOf(T: Tables, index: nat): (cell: RegularCell)
    requires WellFormedTables(T) && index < 256
    ensures cell.vertexCount <= 15 && cell.vertexCount <= |T.vertexData[index]|
    ensures 3 * cell.triangleCount <= |cell.vertexIndex|
    ensures forall j :: 0 <= j < 3 * cell.triangleCount ==> cell.vertexIndex[j] < 15
  {
    assert CaseShaped(T, index);
    T.cellData[T.cellClass[index]]
  }

  /** The edge parameter `d1 / (d1 - d0)` of transvoxel.go:83. */
  function EdgeParam(d0: real, d1: real): real
    requires d0 != d1
  {
    d1 / (d1 - d0)
  }

  /** Across a sign change the parameter lies in [0, 1] and is the zero of
      the density interpolated the same way as the position. */
  lemma EdgeParamRoot(d0: real, d1: real)
    requires (d0 < 0.0) != (d1 < 0.0)
    ensures d0 != d1
    ensures 0.0 <= EdgeParam(d0, d1) <= 1.0
    ensures d0 * EdgeParam(d0, d1) + d1 * (1.0 - EdgeParam(d0, d1)) == 0.0
  {
    var t := EdgeParam(d0, d1);
    assert t * (d1 - d0) == d1;
  }

  /** The central-difference gradient at corner k of the cell (transvoxel.go:66-77). */
  function CornerGradient(g: Grid, x: int, y: int, z: int, k: nat): Vec3
    requires HasGradients(g, x, y, z) && k < 8
  {
    var cx, cy, cz := x + CornerOffsets[k].0, y + CornerOffsets[k].1, z + CornerOffsets[k].2;
    Vec3((g[cx + 1][cy][cz] as real - g[cx - 1][cy][cz] as real) * 0.5,
         (g[cx][cy + 1][cz] as real - g[cx][cy - 1][cz] as real) * 0.5,
         (g[cx][cy][cz + 1] as real - g[cx][cy][cz - 1] as real) * 0.5)
  }

  function Dot(a: Vec3, b: Vec3): real
  {
    a.x * b.x + a.y * b.y + a.z * b.z
  }

  datatype CellVertex = CellVertex(position: Vec3, normal: Vec3)

  /** The requirement on a vertex code of a cell with corner samples `c`. */
  predicate EdgeCrossing(c: seq<Int8>, code: nat)
  {
    |c| == 8 && Corner0(code) < 8 && Corner1(code) < 8 && (c[Corner0(code)] < 0) != (c[Corner1(code)] < 0)
  }

  /** The normal divided by its length `len`, or left as it is when the
      length is zero (transvoxel.go:96-103). */
  function Normalize(n: Vec3, len: real): Vec3
  {
    var norm := if len == 0.0 then 1.0 else len;
    Vec3(n.x / norm, n.y / norm, n.z / norm)
  }

  /** The interpolated gradient of an emitted vertex before normalisation. */
  function RawNormal(x: int, y: int, z: int, g: Grid, c: seq<Int8>, code: nat): Vec3
    requires HasGradients(g, x, y, z) && EdgeCrossing(c, code)
  {
    EdgeParamRoot(c[Corner0(code)] as real, c[Corner1(code)] as real);
    var t := EdgeParam(c[Corner0(code)] as real, c[Corner1(code)] as real);
    Mix(CornerGradient(g, x, y, z, Corner0(code)), CornerGradient(g, x, y, z, Corner1(code)), t)
  }

  /** The position and normal of one emitted vertex (transvoxel.go:79-103).
      `sqrt` stands for math32.Sqrt. */
  function EdgeVertex(x: int, y: int, z: int, g: Grid, c: seq<Int8>, code: nat, sqrt: real -> real): CellVertex
    requires HasGradients(g, x, y, z) && EdgeCrossing(c, code)
  {
    var v0, v1 := Corner0(code), Corner1(code);
    var t := EdgeParam(c[v0] as real, c[v1] as real);
    var n := RawNormal(x, y, z, g, c, code);
    CellVertex(Plus(Mix(CornerVertex(v0), CornerVertex(v1), t), Vec3(x as real, y as real, z as real)),
               Normalize(n, sqrt(Dot(n, n))))
  }

  lemma QuotientTimesDivisor(a: real, l: real)
    requires l != 0.0
    ensures (a / l) * l == a
  {
  }

  lemma MulZero(u: real, v: real)
    requires v != 0.0 && u * v == 0.0
    ensures u == 0.0
  {
  }

  lemma Associate(u: real, l: real)
    ensures u * (l * l) == (u * l) * l
  {
  }

  /** If `u * l²` and `l²` are the same number `d`, with `l` non-zero, then
      `u` is one. */
  lemma CancelFactor(u: real, l: real, d: real)
    requires l != 0.0 && u * (l * l) == d && l * l == d
    ensures u == 1.0
  {
    Associate(u, l);
    assert (u * l - l) * l == 0.0;
    MulZero(u * l - l, l);
    assert (u - 1.0) * l == 0.0;
    MulZero(u - 1.0, l);
  }

  /** Components `q` with `q * l == a`, where `l² == a·a`, form a unit vector. */
  lemma UnitComponents(qa: real, qb: real, qc: real, a: real, b: real, c: real, l: real)
    requires l != 0.0 && qa * l == a && qb * l == b && qc * l == c
    requires l * l == a * a + b * b + c * c
    ensures qa * qa + qb * qb + qc * qc == 1.0
  {
    assert (qa * qa) * (l * l) == a * a;
    assert (qb * qb) * (l * l) == b * b;
    assert (qc * qc) * (l * l) == c * c;
    assert (qa * qa + qb * qb + qc * qc) * (l * l) == a * a + b * b + c * c;
    CancelFactor(qa * qa + qb * qb + qc * qc, l, a * a + b * b + c * c);
  }

  /** Dividing a vector by its length, when a true square root gave that
      length, yields a unit vector. */
  lemma UnitAfterDivision(n: Vec3, len: real)
    requires len != 0.0 && len * len == Dot(n, n)
    ensures Dot(Vec3(n.x / len, n.y / len, n.z / len), Vec3(n.x / len, n.y / len, n.z / len)) == 1.0
  {
    UnitComponents(n.x / len, n.y / len, n.z / len, n.x, n.y, n.z, len);
  }

  /** Normalisation leaves a zero-length vector alone, gives back the vector
      when scaled by a non-zero length, and yields a unit vector when that
      length is a true square root of the squared length. */
  lemma NormalizeFacts(n: Vec3, len: real)
    ensures len == 0.0 ==> Normalize(n, len) == n
    ensures len != 0.0 ==> Scale(Normalize(n, len), len) == n
    ensures len != 0.0 && len * len == Dot(n, n) ==> Dot(Normalize(n, len), Normalize(n, len)) == 1.0
  {
    if len != 0.0 {
      QuotientTimesDivisor(n.x, len);
      QuotientTimesDivisor(n.y, len);
      QuotientTimesDivisor(n.z, len);
      if len * len == Dot(n, n) {
        UnitAfterDivision(n, len);
      }
    }
  }

  /** The vertex lies on its edge, offset by the cell origin, at the
      parameter `t` in [0, 1] where the linearly interpolated density is zero. */
  lemma EdgeVertexOnEdge(x: int, y: int, z: int, g: Grid, c: seq<Int8>, code: nat, sqrt: real -> real)
    returns (t: real)
    requires HasGradients(g, x, y, z) && EdgeCrossing(c, code)
    ensures 0.0 <= t <= 1.0
    ensures (c[Corner0(code)] as real) * t + (c[Corner1(code)] as real) * (1.0 - t) == 0.0
    ensures EdgeVertex(x, y, z, g, c, code, sqrt).position
      == Plus(Mix(CornerVertex(Corner0(code)), CornerVertex(Corner1(code)), t), Vec3(x as real, y as real, z as real))
    ensures RawNormal(x, y, z, g, c, code)
      == Mix(CornerGradient(g, x, y, z, Corner0(code)), CornerGradient(g, x, y, z, Corner1(code)), t)
  {
    EdgeParamRoot(c[Corner0(code)] as real, c[Corner1(code)] as real);
    t := EdgeParam(c[Corner0(code)] as real, c[Corner1(code)] as real);
  }

  /** The normal of an emitted vertex is the interpolated gradient: left as
      it is when `sqrt` reports length zero, of unit length otherwise when
      `sqrt` is a true square root. */
  lemma EdgeVertexNormal(x: int, y: int, z: int, g: Grid, c: seq<Int8>, code: nat, sqrt: real -> real)
    requires HasGradients(g, x, y, z) && EdgeCrossing(c, code)
    ensures var n := RawNormal(x, y, z, g, c, code);
      var len := sqrt(Dot(n, n));
      var v := EdgeVertex(x, y, z, g, c, code, sqrt);
      && (len == 0.0 ==> v.normal == n)
      && (len != 0.0 ==> Scale(v.normal, len) == n)
      && (len != 0.0 && len * len == Dot(n, n) ==> Dot(v.normal, v.normal) == 1.0)
  {
    var n := RawNormal(x, y, z, g, c, code);
    NormalizeFacts(n, sqrt(Dot(n, n)));
  }

  /** Slot e of the 15-entry index map after the vertex loop: the mesh index
      of vertex e, `maxIndex + e` in uint32 arithmetic, or the zero the array
      was declared with when the loop did not reach slot e. */
  function IndexMapEntry(maxIndex: nat, vertexCount: nat, e: nat): nat
  {
    if e < vertexCount then (maxIndex + e) % U32Range else 0
  }

  /** The index list the table gives, mapped to mesh indices, in table order. */
  function TableIndices(cell: RegularCell, maxIndex: nat): (r: seq<nat>)
    requires 3 * cell.triangleCount <= |cell.vertexIndex|
    ensures |r| == 3 * cell.triangleCount
  {
    seq(3 * cell.triangleCount, j requires 0 <= j < 3 * cell.triangleCount =>
      IndexMapEntry(maxIndex, cell.vertexCount, cell.vertexIndex[j]))
  }

  /** What the cell mesher needs of the grid around cell (x, y, z): the
      corners must exist, and unless the cell is skipped or emits no vertex,
      the gradients must too. */
  predicate CellReadable(g: Grid, x: int, y: int, z: int, T: Tables)
    requires WellFormedTables(T)
  {
    && HasCell(g, x, y, z)
    && var c := Corners(x, y, z, g);
       (!EarlyExit(c) && CellOf(T, CaseCode(c)).vertexCount > 0 ==> HasGradients(g, x, y, z))
  }

  /** Every vertex code of the cell's case crosses a sign change of `c`. */
  lemma CaseCrossings(T: Tables, c: seq<Int8>)
    requires WellFormedTables(T) && |c| == 8
    ensures CaseCode(c) < 256
    ensures CellOf(T, CaseCode(c)).vertexCount <= |T.vertexData[CaseCode(c)]|
    ensures forall v :: 0 <= v < CellOf(T, CaseCode(c)).vertexCount ==>
      EdgeCrossing(c, T.vertexData[CaseCode(c)][v])
  {
    CaseCodeBits(c);
    var i := CaseCode(c);
    assert CaseShaped(T, i);
    var codes, cell := T.vertexData[i], CellOf(T, i);
    forall v | 0 <= v < cell.vertexCount
      ensures EdgeCrossing(c, codes[v])
    {
      var a, b := Corner0(codes[v]), Corner1(codes[v]);
      assert a < 8 && b < 8 && Bit(i, a) != Bit(i, b);
    }
  }

  /** The vertex loop of transvoxel.go:65-104: one vertex per vertex code.
      The gradients are read only when there is a vertex to emit. */
  function CellVertices(x: int, y: int, z: int, g: Grid, c: seq<Int8>, codes: seq<nat>, count: nat, sqrt: real -> real)
    : (vs: seq<CellVertex>)
    requires count == 0 || HasGradients(g, x, y, z)
    requires count <= |codes|
    requires forall v :: 0 <= v < count ==> EdgeCrossing(c, codes[v])
    ensures |vs| == count
    ensures forall v :: 0 <= v < count ==> vs[v] == EdgeVertex(x, y, z, g, c, codes[v], sqrt)
  {
    seq(count, i requires 0 <= i < count => EdgeVertex(x, y, z, g, c, codes[i], sqrt))
  }

  /** The positions of a vertex list, flattened. */
  function PositionsOf(vs: seq<CellVertex>): (r: seq<Vec3>)
    ensures |r| == |vs| && forall i :: 0 <= i < |vs| ==> r[i] == vs[i].position
  {
    seq(|vs|, i requires 0 <= i < |vs| => vs[i].position)
  }

  function NormalsOf(vs: seq<CellVertex>): (r: seq<Vec3>)
    ensures |r| == |vs| && forall i :: 0 <= i < |vs| ==> r[i] == vs[i].normal
  {
    seq(|vs|, i requires 0 <= i < |vs| => vs[i].normal)
  }

  /** The buffers of one cell: each vertex contributes one position triple
      and one normal triple, in emission order, which unflattening recovers. */
  function CellMesh(vs: seq<CellVertex>, indices: seq<nat>): (m: Mesh)
    ensures |m.positions| == 3 * |vs| && |m.normals| == 3 * |vs| && m.indices == indices
    ensures |m.positions| % 3 == 0 && |m.normals| % 3 == 0
    ensures Unflatten(m.positions) == PositionsOf(vs) && Unflatten(m.normals) == NormalsOf(vs)
  {
    UnflattenFlatten(PositionsOf(vs));
    UnflattenFlatten(NormalsOf(vs));
    Mesh(Flatten(PositionsOf(vs)), Flatten(NormalsOf(vs)), indices)
  }

  /** The index loop of transvoxel.go:105-109: triangle t's slot i takes
      table entry 3t + (2 - i), looked up in the index map. */
  function EmittedIndices(cell: RegularCell, maxIndex: nat): (r: seq<nat>)
    requires 3 * cell.triangleCount <= |cell.vertexIndex|
    ensures r == ReverseWinding(TableIndices(cell, maxIndex))
  {
    var n := 3 * cell.triangleCount;
    seq(n, j requires 0 <= j < n => IndexMapEntry(maxIndex, cell.vertexCount, cell.vertexIndex[3 * (j / 3) + (2 - j % 3)]))
  }

  /** Every vertex code of the case of corner values `c` names an edge
      whose ends have different signs. */
  predicate CaseVerticesCross(T: Tables, c: seq<Int8>)
    requires WellFormedTables(T) && |c| == 8
  {
    forall v :: 0 <= v < CellOf(T, CaseCode(c)).vertexCount ==> EdgeCrossing(c, T.vertexData[CaseCode(c)][v])
  }

  /** The mesh of a cell that did not exit early: vertex v of its case is
      interpolated on the v-th edge of the case's vertex codes, with its
      normalised gradient; then come its case's triangles with their
      winding reversed. */
  function CaseMesh(x: int, y: int, z: int, g: Grid, c: seq<Int8>, maxIndex: nat, T: Tables, sqrt: real -> real): (m: Mesh)
    requires WellFormedTables(T) && |c| == 8
    requires CellOf(T, CaseCode(c)).vertexCount == 0 || HasGradients(g, x, y, z)
    ensures var cell := CellOf(T, CaseCode(c));
      && |m.positions| == 3 * cell.vertexCount
      && |m.normals| == 3 * cell.vertexCount
      && m.indices == ReverseWinding(TableIndices(cell, maxIndex))
    ensures var cell, codes := CellOf(T, CaseCode(c)), T.vertexData[CaseCode(c)];
      && CaseVerticesCross(T, c)
      && |m.positions| % 3 == 0 && |m.normals| % 3 == 0
      && |Unflatten(m.positions)| == |Unflatten(m.normals)| == cell.vertexCount
      && forall v :: 0 <= v < cell.vertexCount ==>
           && Unflatten(m.positions)[v] == EdgeVertex(x, y, z, g, c, codes[v], sqrt).position
           && Unflatten(m.normals)[v] == EdgeVertex(x, y, z, g, c, codes[v], sqrt).normal
  {
    CaseCrossings(T, c);
    var cell, codes := CellOf(T, CaseCode(c)), T.vertexData[CaseCode(c)];
    var vs := CellVertices(x, y, z, g, c, codes, cell.vertexCount, sqrt);
    var m := CellMesh(vs, EmittedIndices(cell, maxIndex));
    MeshVertices(x, y, z, g, c, codes, cell.vertexCount, sqrt, m);
    m
  }

  /** A mesh whose buffers unflatten to the cell's vertices holds, as
      vertex v, the edge vertex of the v-th code. */
  lemma MeshVertices(x: int, y: int, z: int, g: Grid, c: seq<Int8>, codes: seq<nat>, count: nat, sqrt: real -> real, m: Mesh)
    requires count == 0 || HasGradients(g, x, y, z)
    requires count <= |codes|
    requires forall v :: 0 <= v < count ==> EdgeCrossing(c, codes[v])
    requires |m.positions| % 3 == 0 && |m.normals| % 3 == 0
    requires Unflatten(m.positions) == PositionsOf(CellVertices(x, y, z, g, c, codes, count, sqrt))
    requires Unflatten(m.normals) == NormalsOf(CellVertices(x, y, z, g, c, codes, count, sqrt))
    ensures |Unflatten(m.positions)| == |Unflatten(m.normals)| == count
    ensures forall v :: 0 <= v < count ==>
      && Unflatten(m.positions)[v] == EdgeVertex(x, y, z, g, c, codes[v], sqrt).position
      && Unflatten(m.normals)[v] == EdgeVertex(x, y, z, g, c, codes[v], sqrt).normal
  {
  }

  /** generateTransvoxelMesh (transvoxel.go:51-111): the mesh of one cell,
      whose indices start at `maxIndex`. */
  function GenerateTransvoxelMesh(x: int, y: int, z: int, g: Grid, maxIndex: nat, T: Tables, sqrt: real -> real): (m: Mesh)
    requires WellFormedTables(T) && CellReadable(g, x, y, z, T)
    ensures |m.positions| == |m.normals| && |m.positions| % 3 == 0
    ensures var c := Corners(x, y, z, g);
      && (EarlyExit(c) ==> m == EmptyMesh)
      && (!EarlyExit(c) ==>
            var cell := CellOf(T, CaseCode(c));
            && |m.positions| == 3 * cell.vertexCount
            && |m.normals| == 3 * cell.vertexCount
            && m.indices == ReverseWinding(TableIndices(cell, maxIndex)))
    ensures var c := Corners(x, y, z, g);
      !EarlyExit(c) ==>
        var cell, codes := CellOf(T, CaseCode(c)), T.vertexData[CaseCode(c)];
        && CaseVerticesCross(T, c)
        && |Unflatten(m.positions)| == cell.vertexCount
        && forall v :: 0 <= v < cell.vertexCount ==>
             && Unflatten(m.positions)[v] == EdgeVertex(x, y, z, g, c, codes[v], sqrt).position
             && Unflatten(m.normals)[v] == EdgeVertex(x, y, z, g, c, codes[v], sqrt).normal
  {
    var c := Corners(x, y, z, g);
    if EarlyExit(c) then EmptyMesh else CaseMesh(x, y, z, g, c, maxIndex, T, sqrt)
  }

  /** The mapped table indices of a bounded cell entry lie in
      [maxIndex, maxIndex + vertexCount) when that range fits in 32 bits. */
  lemma TableIndicesInRange(cell: RegularCell, maxIndex: nat)
    requires 3 * cell.triangleCount <= |cell.vertexIndex| && TrianglesBounded(cell)
    requires maxIndex + cell.vertexCount <= U32Range
    ensures forall k :: 0 <= k < 3 * cell.triangleCount ==>
      maxIndex <= TableIndices(cell, maxIndex)[k] < maxIndex + cell.vertexCount
  {
  }

  /** The reversed mapped indices of a bounded cell entry lie in
      [maxIndex, maxIndex + vertexCount) when that range fits in 32 bits. */
  lemma CaseIndicesInRange(cell: RegularCell, maxIndex: nat)
    requires 3 * cell.triangleCount <= |cell.vertexIndex| && TrianglesBounded(cell)
    requires maxIndex + cell.vertexCount <= U32Range
    ensures forall k :: 0 <= k < 3 * cell.triangleCount ==>
      maxIndex <= ReverseWinding(TableIndices(cell, maxIndex))[k] < maxIndex + cell.vertexCount
  {
    TableIndicesInRange(cell, maxIndex);
    ReverseWindingBounded(TableIndices(cell, maxIndex), maxIndex, maxIndex + cell.vertexCount);
  }

  /** With a bounded index table and no 32-bit wrap-around, every index of a
      cell's mesh lies in [maxIndex, maxIndex + vertexCount): it names one of
      the vertices this cell just appended after the `maxIndex` earlier ones. */
  lemma CellIndicesInRange(x: int, y: int, z: int, g: Grid, maxIndex: nat, T: Tables, sqrt: real -> real)
    requires WellFormedTables(T) && CellReadable(g, x, y, z, T)
    requires IndexTableBounded(T)
    requires maxIndex + VertexCount(GenerateTransvoxelMesh(x, y, z, g, maxIndex, T, sqrt)) <= U32Range
    ensures var m := GenerateTransvoxelMesh(x, y, z, g, maxIndex, T, sqrt);
      forall k :: 0 <= k < |m.indices| ==> maxIndex <= m.indices[k] < maxIndex + VertexCount(m)
  {
    var c := Corners(x, y, z, g);
    if !EarlyExit(c) {
      var cell := CellOf(T, CaseCode(c));
      assert TrianglesBounded(cell);
      assert VertexCount(GenerateTransvoxelMesh(x, y, z, g, maxIndex, T, sqrt)) == cell.vertexCount;
      CaseIndicesInRange(cell, maxIndex);
    }
  }

  /** One step of the sweep: appending a cell's mesh at the running vertex
      count keeps the accumulated buffers well formed while no 32-bit
      wrap-around occurs. */
  lemma AppendCell(acc: Mesh, x: int, y: int, z: int, g: Grid, T: Tables, sqrt: real -> real)
    requires WellFormedTables(T) && IndexTableBounded(T) && CellReadable(g, x, y, z, T)
    requires WellFormedMesh(acc)
    requires VertexCount(acc) + VertexCount(GenerateTransvoxelMesh(x, y, z, g, VertexCount(acc) % U32Range, T, sqrt)) <= U32Range
    ensures WellFormedMesh(Append(acc, GenerateTransvoxelMesh(x, y, z, g, VertexCount(acc) % U32Range, T, sqrt)))
  {
    var maxIndex := VertexCount(acc) % U32Range;
    var cellMesh := GenerateTransvoxelMesh(x, y, z, g, maxIndex, T, sqrt);
    ModAtMost(VertexCount(acc), U32Range);
    CellIndicesInRange(x, y, z, g, maxIndex, T, sqrt);
    AppendAtWrappedCount(acc, cellMesh);
  }

  /** Every cell (x, z, y) of a sweep can be meshed at (x, y, z) with all its reads inside `g`. */
  predicate SweepReadable(cells: seq<(int, int, int)>, g: Grid)
  {
    forall i :: 0 <= i < |cells| ==> HasGradients(g, cells[i].0, cells[i].2, cells[i].1)
  }

  lemma SweepReadableTail(cells: seq<(int, int, int)>, g: Grid)
    requires |cells| > 0 && SweepReadable(cells, g)
    ensures HasGradients(g, cells[0].0, cells[0].2, cells[0].1)
    ensures SweepReadable(cells[1..], g)
  {
    assert forall i :: 0 <= i < |cells| - 1 ==> cells[1..][i] == cells[i + 1];
  }

  lemma ReadableFromGradients(g: Grid, x: int, y: int, z: int, T: Tables)
    requires WellFormedTables(T) && HasGradients(g, x, y, z)
    ensures CellReadable(g, x, y, z, T)
  {
  }

  /** The cells (x, z, y) of marchTransvoxels' loops, each meshed at
      (x, y, z) with the vertex count so far, in uint32, as `maxIndex`. */
  function MarchCells(cells: seq<(int, int, int)>, g: Grid, T: Tables, sqrt: real -> real, acc: Mesh): (r: Mesh)
    requires WellFormedTables(T)
    requires SweepReadable(cells, g)
    requires |acc.positions| == |acc.normals| && |acc.positions| % 3 == 0
    ensures |r.positions| == |r.normals| && |r.positions| % 3 == 0
    ensures VertexCount(acc) <= VertexCount(r)
    decreases |cells|, 1
  {
    if |cells| == 0 then acc else MarchFirstCell(cells, g, T, sqrt, acc)
  }

  /** One step of the sweep: the first cell's mesh is appended to `acc`,
      then the rest of the sweep is meshed. */
  function MarchFirstCell(cells: seq<(int, int, int)>, g: Grid, T: Tables, sqrt: real -> real, acc: Mesh): (r: Mesh)
    requires WellFormedTables(T)
    requires |cells| > 0 && SweepReadable(cells, g)
    requires |acc.positions| == |acc.normals| && |acc.positions| % 3 == 0
    ensures |r.positions| == |r.normals| && |r.positions| % 3 == 0
    ensures VertexCount(acc) <= VertexCount(r)
    decreases |cells|, 0
  {
    var x, y, z := cells[0].0, cells[0].2, cells[0].1;
    SweepReadableTail(cells, g);
    ReadableFromGradients(g, x, y, z, T);
    var cellMesh := GenerateTransvoxelMesh(x, y, z, g, VertexCount(acc) % U32Range, T, sqrt);
    AppendCount(acc, cellMesh);
    MarchCells(cells[1..], g, T, sqrt, Append(acc, cellMesh))
  }

  /** With a bounded index table, a sweep that stays below 2^32 vertices
      extends a well-formed mesh to a well-formed mesh: every index it
      appends names a vertex. */
  lemma {:induction false} MarchCellsWellFormed(cells: seq<(int, int, int)>, g: Grid, T: Tables, sqrt: real -> real, acc: Mesh)
    requires WellFormedTables(T) && IndexTableBounded(T)
    requires SweepReadable(cells, g)
    requires WellFormedMesh(acc)
    requires VertexCount(MarchCells(cells, g, T, sqrt, acc)) <= U32Range
    ensures WellFormedMesh(MarchCells(cells, g, T, sqrt, acc))
    decreases |cells|
  {
    if |cells| > 0 {
      var x, y, z := cells[0].0, cells[0].2, cells[0].1;
      SweepReadableTail(cells, g);
      ReadableFromGradients(g, x, y, z, T);
      var cellMesh := GenerateTransvoxelMesh(x, y, z, g, VertexCount(acc) % U32Range, T, sqrt);
      var next := Append(acc, cellMesh);
      AppendCount(acc, cellMesh);
      assert MarchCells(cells, g, T, sqrt, acc) == MarchCells(cells[1..], g, T, sqrt, next);
      AppendCell(acc, x, y, z, g, T, sqrt);
      MarchCellsWellFormed(cells[1..], g, T, sqrt, next);
    }
  }

  /** The dimension rule for marchTransvoxels: the loops run z over [1, m) and
      y over [1, l) but read index y+2 on an axis of size m+3 and z+2 on one
      of size l+3, so the last two sizes may differ by at most one (or a loop
      must be empty). */
  predicate MarchableDims(a: Grid)
  {
    Cuboid(a) && (|a| <= 1 || DimY(a) <= 1 || DimZ(a) <= 1 || (DimY(a) <= DimZ(a) + 1 && DimZ(a) <= DimY(a) + 1))
  }

  /** Every cell of the sweep reads inside the inflated grid. */
  lemma SweepInBounds(a: Grid)
    requires MarchableDims(a)
    ensures SweepReadable(Nest(Span(1, |a|), Span(1, DimY(a)), Span(1, DimZ(a))), Inflate(a))
  {
    var n, m, l := |a|, DimY(a), DimZ(a);
    var cells := Nest(Span(1, n), Span(1, m), Span(1, l));
    if n <= 1 || m <= 1 || l <= 1 {
      NestFacts(Span(1, n), Span(1, m), Span(1, l));
      assert |cells| == 0;
    } else {
      Cube(1, n, 1, m, 1, l);
      forall i | 0 <= i < |cells|
        ensures HasGradients(Inflate(a), cells[i].0, cells[i].2, cells[i].1)
      {
        assert cells[i] in cells;
      }
    }
  }

  /** marchTransvoxels (transvoxel.go:113-130): inflate, then mesh the cells
      x in [1, n), z in [1, m), y in [1, l) in that loop order. */
  function MarchTransvoxels(a: Grid, T: Tables, sqrt: real -> real): (r: Mesh)
    requires WellFormedTables(T) && MarchableDims(a)
    ensures |r.positions| == |r.normals| && |r.positions| % 3 == 0
    ensures IndexTableBounded(T) && VertexCount(r) <= U32Range ==> WellFormedMesh(r)
  {
    SweepInBounds(a);
    var cells := Nest(Span(1, |a|), Span(1, DimY(a)), Span(1, DimZ(a)));
    var r := MarchCells(cells, Inflate(a), T, sqrt, EmptyMesh);
    if IndexTableBounded(T) && VertexCount(r) <= U32Range then
      MarchCellsWellFormed(cells, Inflate(a), T, sqrt, EmptyMesh);
      r
    else r
  }

  /** The mesh a TransvoxelChunk shows for its voxels: NewTransvoxelChunk
      (transvoxel.go:269-270) and HandleVoxelClick (transvoxel.go:223) both
      pass an already inflated grid to marchTransvoxels, which inflates again. */
  function ChunkMesh(voxels: Grid, T: Tables, sqrt: real -> real): (r: Mesh)
    requires WellFormedTables(T) && Cuboid(voxels)
    requires DimY(voxels) <= DimZ(voxels) + 1 && DimZ(voxels) <= DimY(voxels) + 1
    ensures |r.positions| == |r.normals| && |r.positions| % 3 == 0
    ensures IndexTableBounded(T) && VertexCount(r) <= U32Range ==> WellFormedMesh(r)
  {
    MarchTransvoxels(Inflate(voxels), T, sqrt)
  }

  /** TransvoxelChunk.HandleVoxelClick (transvoxel.go:207-231): the brush on
      the whole grid, then the chunk mesh rebuilt. */
  method HandleVoxelClick(voxels: Grid, x: int, y: int, z: int, shift: bool, T: Tables, sqrt: real -> real)
    returns (edited: Grid, mesh: Mesh)
    requires WellFormedTables(T) && Cuboid(voxels)
    requires DimY(voxels) <= DimZ(voxels) + 1 && DimZ(voxels) <= DimY(voxels) + 1
    ensures IsBox(edited, |voxels|, DimY(voxels), DimZ(voxels))
    ensures forall a, b, c :: InBox(a, b, c, |voxels|, DimY(voxels), DimZ(voxels)) ==>
      edited[a][b][c] == BrushedSample(voxels, a, b, c, x, y, z, |voxels|, DimY(voxels), DimZ(voxels), shift)
    ensures |mesh.positions| == |mesh.normals| && |mesh.positions| % 3 == 0
    ensures IndexTableBounded(T) && VertexCount(mesh) <= U32Range ==> WellFormedMesh(mesh)
    ensures && Cuboid(edited) && DimY(edited) <= DimZ(edited) + 1 && DimZ(edited) <= DimY(edited) + 1
            && mesh == ChunkMesh(edited, T, sqrt)
  {
    var n, m, l := |voxels|, DimY(voxels), DimZ(voxels);
    edited := ApplyBrush(voxels, n, m, l, x, y, z, n, m, l, shift);
    assert Cuboid(edited);
    mesh := ChunkMesh(edited, T, sqrt);
  }

  /** Corner k of cell (1, 1, 1) of an inflated 2×2×2 grid is the sample at
      the corner's offset. */
  lemma InflatedCorner(a: Grid, k: nat)
    requires IsBox(a, 2, 2, 2) && k < 8
    ensures HasCell(Inflate(a), 1, 1, 1)
    ensures Corners(1, 1, 1, Inflate(a))[k] == a[CornerOffsets[k].0][CornerOffsets[k].1][CornerOffsets[k].2]
  {
    InflateAt(a, CornerOffsets[k].0, CornerOffsets[k].1, CornerOffsets[k].2);
  }

  /** Corner k of cell (1, 1, 1) of an inflated demonstration grid is
      negative exactly when bit k of the step number is set. */
  lemma StepCornerSign(a: Grid, i: nat, k: nat)
    requires StepGrid(a, i) && k < 8
    ensures HasCell(Inflate(a), 1, 1, 1)
    ensures (Corners(1, 1, 1, Inflate(a))[k] < 0) == Bit(i, k)
  {
    InflatedCorner(a, k);
    CornerOffsetsCount(k);
    var (dx, dy, dz) := CornerOffsets[k];
    assert InBox(dx, dy, dz, 2, 2, 2);
  }

  lemma SameFlags(a: seq<bool>, b: seq<bool>)
    requires |a| == 8 && |b| == 8 && forall k :: 0 <= k < 8 ==> a[k] == b[k]
    ensures a == b
  {
  }

  /** The sign flags of that cell are the low eight bits of the step number. */
  lemma StepCornerSigns(a: Grid, i: nat)
    requires StepGrid(a, i)
    ensures HasCell(Inflate(a), 1, 1, 1)
    ensures SignFlags(Corners(1, 1, 1, Inflate(a))) == LowBits(i, 8)
  {
    StepCornerSign(a, i, 0);
    var flags, bits := SignFlags(Corners(1, 1, 1, Inflate(a))), LowBits(i, 8);
    forall k | 0 <= k < 8
      ensures flags[k] == bits[k]
    {
      StepCornerSign(a, i, k);
    }
    SameFlags(flags, bits);
  }

  /** Cell (1, 1, 1) of the inflated demonstration grid of step i has case code i. */
  lemma StepGridCase(a: Grid, i: nat)
    requires StepGrid(a, i) && i < 256
    ensures HasCell(Inflate(a), 1, 1, 1)
    ensures CaseCode(Corners(1, 1, 1, Inflate(a))) == i
  {
    StepCornerSigns(a, i);
    Pow2Table();
    PackOfBits(i, 8);
  }

  /** The inflated demonstration grid of step i has the gradients of cell (1, 1, 1). */
  lemma StepGridReadable(a: Grid, i: nat)
    requires StepGrid(a, i)
    ensures HasGradients(Inflate(a), 1, 1, 1)
  {
  }

  /** The mesh of cell (1, 1, 1) of an inflated step grid is table entry i:
      nothing for case 0, and otherwise that entry's vertices and its
      triangles with their winding reversed. */
  lemma StepGridMesh(a: Grid, i: nat, T: Tables, sqrt: real -> real)
    requires StepGrid(a, i) && i < 256 && WellFormedTables(T)
    ensures CellReadable(Inflate(a), 1, 1, 1, T)
    ensures var m := GenerateTransvoxelMesh(1, 1, 1, Inflate(a), 0, T, sqrt);
      && (i == 0 ==> m == EmptyMesh)
      && (i != 0 ==>
            && |m.positions| == 3 * CellOf(T, i).vertexCount
            && m.indices == ReverseWinding(TableIndices(CellOf(T, i), 0)))
  {
    StepGridReadable(a, i);
    ReadableFromGradients(Inflate(a), 1, 1, 1, T);
    StepGridCase(a, i);
    EarlyExitIffCaseZero(Corners(1, 1, 1, Inflate(a)));
  }

  /** TransvoxelCase.setVoxels for voxelsAtStep(i) (transvoxel.go:177, 193):
      the viewer's mesh is table entry i, so stepping through the cases shows
      every table entry in turn. */
  method CaseViewerMesh(i: nat, T: Tables, sqrt: real -> real) returns (voxels: Grid, m: Mesh)
    requires i < 256 && WellFormedTables(T)
    ensures StepGrid(voxels, i)
    ensures i == 0 ==> m == EmptyMesh
    ensures i != 0 ==>
      && |m.positions| == 3 * CellOf(T, i).vertexCount
      && m.indices == ReverseWinding(TableIndices(CellOf(T, i), 0))
  {
    voxels := VoxelsAtStep(i);
    StepGridMesh(voxels, i, T, sqrt);
    m := GenerateTransvoxelMesh(1, 1, 1, Inflate(voxels), 0, T, sqrt);
  }
}
