/** The density field: a rectangular grid of signed 8-bit samples indexed
    `[x][y][z]`, its one-cell zero border ("inflation"), and the 3×3×3 brush
    edit that the voxel-click handlers apply to it. */
module Voxels {

  type Int8 = v: int | -128 <= v < 128

  type Grid = seq<seq<seq<Int8>>>

  /** `g` is an `n × m × l` box (every row and column has the same length). */
  predicate IsBox<T>(g: seq<seq<seq<T>>>, n: nat, m: nat, l: nat)
  {
    && |g| == n
    && (forall x :: 0 <= x < n ==> |g[x]| == m)
    && (forall x, y :: 0 <= x < n && 0 <= y < m ==> |g[x][y]| == l)
  }

  /** The Go code reads the sizes as `len(a)`, `len(a[0])`, `len(a[0][0])`. */
  function DimY<T>(g: seq<seq<seq<T>>>): nat
  {
    if |g| == 0 then 0 else |g[0]|
  }

  function DimZ<T>(g: seq<seq<seq<T>>>): nat
  {
    if |g| == 0 || |g[0]| == 0 then 0 else |g[0][0]|
  }

  /** A rectangular grid whose three sizes can be read off (`a[0][0]` exists). */
  predicate Cuboid<T>(g: seq<seq<seq<T>>>)
  {
    |g| > 0 && |g[0]| > 0 && IsBox(g, |g|, |g[0]|, |g[0][0]|)
  }

  predicate InBox(x: int, y: int, z: int, n: int, m: int, l: int)
  {
    0 <= x < n && 0 <= y < m && 0 <= z < l
  }

  /** inflate (helpers.go:76-94): copy into a zero grid three cells larger on
      every axis, shifted by one. */
  function Inflate(a: Grid): (e: Grid)
    requires Cuboid(a)
    ensures IsBox(e, |a| + 3, DimY(a) + 3, DimZ(a) + 3)
    ensures Cuboid(e) && DimY(e) == DimY(a) + 3 && DimZ(e) == DimZ(a) + 3
  {
    var n, m, l := |a|, |a[0]|, |a[0][0]|;
    seq(n + 3, x requires 0 <= x < n + 3 =>
      seq(m + 3, y requires 0 <= y < m + 3 =>
        seq(l + 3, z requires 0 <= z < l + 3 =>
          if 1 <= x <= n && 1 <= y <= m && 1 <= z <= l then a[x - 1][y - 1][z - 1] else 0)))
  }

  /** Every sample of `a` sits one cell further along each axis, and every
      other cell of the inflated grid is zero. */
  lemma InflateContents(a: Grid)
    requires Cuboid(a)
    ensures forall x, y, z :: InBox(x, y, z, |a|, DimY(a), DimZ(a)) ==>
      Inflate(a)[x + 1][y + 1][z + 1] == a[x][y][z]
    ensures forall x, y, z ::
      (InBox(x, y, z, |a| + 3, DimY(a) + 3, DimZ(a) + 3) && !InBox(x - 1, y - 1, z - 1, |a|, DimY(a), DimZ(a)))
      ==> Inflate(a)[x][y][z] == 0
  {
  }

  /** One sample of `a`, read from the inflated grid. */
  lemma InflateAt(a: Grid, x: nat, y: nat, z: nat)
    requires Cuboid(a) && InBox(x, y, z, |a|, DimY(a), DimZ(a))
    ensures Inflate(a)[x + 1][y + 1][z + 1] == a[x][y][z]
  {
  }

  /** The inner block of an inflated grid: the inverse of `Inflate`. */
  function Crop(e: Grid, n: nat, m: nat, l: nat): (a: Grid)
    requires IsBox(e, n + 3, m + 3, l + 3)
    ensures IsBox(a, n, m, l)
  {
    seq(n, x requires 0 <= x < n =>
      seq(m, y requires 0 <= y < m =>
        seq(l, z requires 0 <= z < l => e[x + 1][y + 1][z + 1])))
  }

  /** Round trip: cropping the inflated grid gives the original back. */
  lemma CropInflate(a: Grid)
    requires Cuboid(a)
    ensures Crop(Inflate(a), |a|, DimY(a), DimZ(a)) == a
  {
    var c := Crop(Inflate(a), |a|, DimY(a), DimZ(a));
    forall x | 0 <= x < |a|
      ensures c[x] == a[x]
    {
      forall y | 0 <= y < DimY(a)
        ensures c[x][y] == a[x][y]
      {
      }
    }
  }

  /** One grid cell replaced. */
  function Set3(g: Grid, x: int, y: int, z: int, v: Int8): (r: Grid)
    requires 0 <= x < |g| && 0 <= y < |g[x]| && 0 <= z < |g[x][y]|
    ensures |r| == |g|
    ensures forall a :: 0 <= a < |g| ==> |r[a]| == |g[a]|
    ensures forall a, b :: 0 <= a < |g| && 0 <= b < |g[a]| ==> |r[a][b]| == |g[a][b]|
    ensures forall a, b, c :: 0 <= a < |g| && 0 <= b < |g[a]| && 0 <= c < |g[a][b]| ==>
      r[a][b][c] == if a == x && b == y && c == z then v else g[a][b][c]
  {
    g[x := g[x][y := g[x][y][z := v]]]
  }

  /** The effect of a click on one sample (transvoxel.go:214-218): with shift a
      negative sample rises by one, without shift a sample above -127 drops by one. */
  function EditSample(v: Int8, shift: bool): Int8
  {
    if shift && v < 0 then v + 1
    else if !shift && v > -127 then v - 1
    else v
  }

  /** One click changes a sample by at most one, in the direction of the key,
      never past 0 upward nor below -127 downward (no int8 overflow). */
  lemma EditSampleBounds(v: Int8, shift: bool)
    ensures shift ==> (v < 0 ==> EditSample(v, shift) == v + 1 <= 0)
    ensures shift ==> (v >= 0 ==> EditSample(v, shift) == v)
    ensures !shift ==> (v > -127 ==> EditSample(v, shift) == v - 1 >= -127)
    ensures !shift ==> (v <= -127 ==> EditSample(v, shift) == v)
  {
  }

  /** Cell (a, b, c) is within the 3×3×3 neighbourhood of the click at (x, y, z). */
  predicate Near(a: int, b: int, c: int, x: int, y: int, z: int)
  {
    -1 <= a - x <= 1 && -1 <= b - y <= 1 && -1 <= c - z <= 1
  }

  /** The brush as a whole: samples near the click and inside the editable
      box `[0,ex) × [0,ey) × [0,ez)` are edited, everything else is kept. */
  function BrushedSample(g: Grid, a: int, b: int, c: int, x: int, y: int, z: int,
                         ex: int, ey: int, ez: int, shift: bool): Int8
    requires 0 <= a < |g| && 0 <= b < |g[a]| && 0 <= c < |g[a][b]|
  {
    if Near(a, b, c, x, y, z) && InBox(a, b, c, ex, ey, ez) then EditSample(g[a][b][c], shift)
    else g[a][b][c]
  }

  /** Lexicographic order of brush offsets (ox, oy, oz), the order of the three nested loops. */
  predicate OffsetBefore(da: int, db: int, dc: int, ox: int, oy: int, oz: int)
  {
    da < ox || (da == ox && (db < oy || (db == oy && dc < oz)))
  }

  /** Cell (a, b, c) has been handled once the loops have reached offset (ox, oy, oz). */
  predicate Visited(a: int, b: int, c: int, x: int, y: int, z: int,
                    ex: int, ey: int, ez: int, ox: int, oy: int, oz: int)
  {
    Near(a, b, c, x, y, z) && InBox(a, b, c, ex, ey, ez) && OffsetBefore(a - x, b - y, c - z, ox, oy, oz)
  }

  ghost predicate PartlyBrushed(g: Grid, r: Grid, n: nat, m: nat, l: nat, x: int, y: int, z: int,
                          ex: int, ey: int, ez: int, shift: bool, ox: int, oy: int, oz: int)
    requires IsBox(g, n, m, l)
  {
    && IsBox(r, n, m, l)
    && forall a, b, c :: InBox(a, b, c, n, m, l) ==>
         r[a][b][c] == if Visited(a, b, c, x, y, z, ex, ey, ez, ox, oy, oz)
                       then EditSample(g[a][b][c], shift) else g[a][b][c]
  }

  /** The HandleVoxelClick loop shared by transvoxel.go:207-222,
      marching_cubes.go:155-170 and transvoxel_terrain.go:33-47, on an `n × m × l`
      grid whose editable box is `[0,ex) × [0,ey) × [0,ez)`. */
  method ApplyBrush(g: Grid, n: nat, m: nat, l: nat, x: int, y: int, z: int,
                    ex: nat, ey: nat, ez: nat, shift: bool) returns (r: Grid)
    requires IsBox(g, n, m, l)
    requires ex <= n && ey <= m && ez <= l
    ensures IsBox(r, n, m, l)
    ensures forall a, b, c :: InBox(a, b, c, n, m, l) ==>
      r[a][b][c] == BrushedSample(g, a, b, c, x, y, z, ex, ey, ez, shift)
  {
    r := g;
    var ox := -1;
    while ox <= 1
      invariant -1 <= ox <= 2
      invariant PartlyBrushed(g, r, n, m, l, x, y, z, ex, ey, ez, shift, ox, -1, -1)
    {
      var oy := -1;
      while oy <= 1
        invariant -1 <= oy <= 2
        invariant PartlyBrushed(g, r, n, m, l, x, y, z, ex, ey, ez, shift, ox, oy, -1)
      {
        var oz := -1;
        while oz <= 1
          invariant -1 <= oz <= 2
          invariant PartlyBrushed(g, r, n, m, l, x, y, z, ex, ey, ez, shift, ox, oy, oz)
        {
          var cx, cy, cz := x + ox, y + oy, z + oz;
          if cx >= 0 && cx < ex && cy >= 0 && cy < ey && cz >= 0 && cz < ez {
            r := Set3(r, cx, cy, cz, EditSample(r[cx][cy][cz], shift));
          }
          oz := oz + 1;
        }
        oy := oy + 1;
      }
      ox := ox + 1;
    }
  }

  /** What a click promises about the whole grid: only cells near the click and
      inside the editable box change, each by at most one step in the key's
      direction, and the int8 range is never left. */
  lemma BrushBounds(g: Grid, a: int, b: int, c: int, x: int, y: int, z: int,
                    ex: int, ey: int, ez: int, shift: bool)
    requires 0 <= a < |g| && 0 <= b < |g[a]| && 0 <= c < |g[a][b]|
    ensures var v: int, w: int := g[a][b][c], BrushedSample(g, a, b, c, x, y, z, ex, ey, ez, shift);
      && (!(Near(a, b, c, x, y, z) && InBox(a, b, c, ex, ey, ez)) ==> w == v)
      && -1 <= w - v <= 1
      && (shift ==> (w == v + 1 <==> (Near(a, b, c, x, y, z) && InBox(a, b, c, ex, ey, ez) && v < 0)))
      && (shift ==> (w == v || w <= 0))
      && (!shift ==> (w == v - 1 <==> (Near(a, b, c, x, y, z) && InBox(a, b, c, ex, ey, ez) && v > -127)))
      && (!shift ==> w >= -127 || w == v)
  {
  }
}
