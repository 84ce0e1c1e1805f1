/** The mask and rectangle logic of GreedyGeom (chunk.go:274-374): for one
    slice of the chunk along axis d, a flat S×S mask of visible faces, then a
    row-major scan that grows each set cell into the widest run of its row and
    as many full rows below it as possible, clearing the rectangle so no face
    is emitted twice. The quad emission itself is commented out in the
    source, so the model stops at the rectangles. */
module Greedy {
  import opened Voxels
  import opened Blocks

  /** A rectangle of the mask: columns [i, i + w), rows [j, j + h). */
  datatype Quad = Quad(i: nat, j: nat, w: nat, h: nat)

  predicate InQuad(q: Quad, a: int, b: int)
  {
    q.i <= a < q.i + q.w && q.j <= b < q.j + q.h
  }

  lemma MulMono(a: nat, b: nat, s: nat)
    requires a <= b
    ensures a * s <= b * s
  {
  }

  lemma Distribute(j: int, h: int, s: int)
    ensures (j + h) * s == j * s + h * s
  {
  }

  /** Row-major positions of an S×S mask lie inside it. */
  lemma CellIndex(s: nat, a: int, b: int)
    requires 0 <= a < s && 0 <= b < s
    ensures 0 <= b * s + a < s * s
  {
    MulMono(b + 1, s, s);
    Distribute(b, 1, s);
  }

  /** Different cells have different row-major positions. */
  lemma CellInjective(s: nat, a: int, b: int, a': int, b': int)
    requires 0 <= a < s && 0 <= b < s && 0 <= a' < s && 0 <= b' < s
    requires b * s + a == b' * s + a'
    ensures a == a' && b == b'
  {
    if b < b' {
      MulMono(b + 1, b', s);
      Distribute(b, 1, s);
    } else if b' < b {
      MulMono(b' + 1, b, s);
      Distribute(b', 1, s);
    }
  }

  /** Cell (a, b) of a flat mask: column a of row b, at position `b*S + a`. */
  function Cell(mask: seq<bool>, s: nat, a: int, b: int): bool
    requires |mask| == s * s && 0 <= a < s && 0 <= b < s
  {
    CellIndex(s, a, b);
    mask[b * s + a]
  }

  /** Writing one position of the mask changes exactly one cell. */
  lemma UpdateCell(mask: seq<bool>, s: nat, a0: int, b0: int, v: bool)
    requires |mask| == s * s && 0 <= a0 < s && 0 <= b0 < s
    ensures 0 <= b0 * s + a0 < |mask|
    ensures forall a, b :: 0 <= a < s && 0 <= b < s ==>
      Cell(mask[b0 * s + a0 := v], s, a, b) == if a == a0 && b == b0 then v else Cell(mask, s, a, b)
  {
    CellIndex(s, a0, b0);
    forall a, b | 0 <= a < s && 0 <= b < s
      ensures Cell(mask[b0 * s + a0 := v], s, a, b) == if a == a0 && b == b0 then v else Cell(mask, s, a, b)
    {
      CellIndex(s, a, b);
      if b * s + a == b0 * s + a0 {
        CellInjective(s, a, b, a0, b0);
      }
    }
  }

  /** The Go offset `n + k + h*S` from position n = j*S + i is cell (i + k, j + h). */
  lemma Offset(s: nat, n: int, i: int, j: int, k: int, h: int)
    requires n == j * s + i
    ensures n + k + h * s == (j + h) * s + (i + k)
  {
    Distribute(j, h, s);
  }

  /** The corner of slice s along axis d at in-slice coordinates (i, j):
      `x[d] = s`, `x[(d+1)%3] = i`, `x[(d+2)%3] = j`. */
  function SlicePoint(d: nat, s: int, i: int, j: int): (int, int, int)
    requires d < 3
  {
    if d == 0 then (s, i, j) else if d == 1 then (j, s, i) else (i, j, s)
  }

  function Block(data: seq<seq<seq<int>>>, p: (int, int, int)): int
    requires ChunkShaped(data) && InBox(p.0, p.1, p.2, ChunkSize, ChunkSize, ChunkSize)
  {
    data[p.0][p.1][p.2]
  }

  /** The mask entry of chunk.go:292-296: a face between the block at (i, j)
      of slice s and its neighbour one step along axis d is visible when the
      two material ids differ, so a face between two different solid
      materials counts as well. */
  function MaskCell(data: seq<seq<seq<int>>>, d: nat, s: int, i: int, j: int): bool
    requires ChunkShaped(data) && d < 3 && 0 <= s && s + 1 < ChunkSize
    requires 0 <= i < ChunkSize && 0 <= j < ChunkSize
  {
    Block(data, SlicePoint(d, s, i, j)) != Block(data, SlicePoint(d, s + 1, i, j))
  }

  /** The mask loops of chunk.go:288-299 for slice s: row j = x[v], column
      i = x[u], entry n counting up in row-major order. Only slices whose
      neighbour exists are modelled. */
  method ComputeMask(data: seq<seq<seq<int>>>, d: nat, s: int) returns (mask: seq<bool>)
    requires ChunkShaped(data) && d < 3 && 0 <= s && s + 1 < ChunkSize
    ensures |mask| == ChunkSize * ChunkSize
    ensures forall i, j :: 0 <= i < ChunkSize && 0 <= j < ChunkSize ==>
      Cell(mask, ChunkSize, i, j) == MaskCell(data, d, s, i, j)
  {
    var S := ChunkSize;
    mask := [];
    var n := 0;
    var j := 0;
    while j < S
      invariant 0 <= j <= S && n == j * S && |mask| == n
      invariant forall b, a :: 0 <= b < j && 0 <= a < S ==> 0 <= b * S + a < n && mask[b * S + a] == MaskCell(data, d, s, a, b)
    {
      var i := 0;
      while i < S
        invariant 0 <= i <= S && n == j * S + i && |mask| == n
        invariant forall b, a :: 0 <= b < j && 0 <= a < S ==> 0 <= b * S + a < j * S && mask[b * S + a] == MaskCell(data, d, s, a, b)
        invariant forall a :: 0 <= a < i ==> mask[j * S + a] == MaskCell(data, d, s, a, j)
      {
        mask := mask + [MaskCell(data, d, s, i, j)];
        n := n + 1;
        i := i + 1;
      }
      Distribute(j, 1, S);
      j := j + 1;
    }
    forall i, j | 0 <= i < S && 0 <= j < S
      ensures Cell(mask, S, i, j) == MaskCell(data, d, s, i, j)
    {
    }
  }

  /** The width loop (chunk.go:313-314): the run of set cells starting at
      (i, j), as long as it goes in row j. */
  method Width(mask: seq<bool>, s: nat, n: int, i: int, j: int) returns (w: nat)
    requires |mask| == s * s && 0 <= i < s && 0 <= j < s && n == j * s + i
    requires Cell(mask, s, i, j)
    ensures 1 <= w && i + w <= s
    ensures forall a :: i <= a < i + w ==> Cell(mask, s, a, j)
    ensures i + w == s || !Cell(mask, s, i + w, j)
  {
    w := 1;
    if i + w < s {
      CellIndex(s, i + w, j);
    }
    while i + w < s && mask[n + w]
      invariant 1 <= w && i + w <= s
      invariant forall a :: i <= a < i + w ==> Cell(mask, s, a, j)
      invariant i + w < s ==> n + w < |mask| && mask[n + w] == Cell(mask, s, i + w, j)
    {
      w := w + 1;
      if i + w < s {
        CellIndex(s, i + w, j);
      }
    }
  }

  /** Row b has a clear cell among columns [i, i + w). */
  predicate HasHole(mask: seq<bool>, s: nat, i: int, w: int, b: int)
    requires |mask| == s * s && 0 <= i && i + w <= s && 0 <= b < s
  {
    exists a :: i <= a < i + w && !Cell(mask, s, a, b)
  }

  /** The height loop (chunk.go:321-335): rows below row j are added while
      all w cells under the run are set. */
  method Height(mask: seq<bool>, s: nat, n: int, i: int, j: int, w: nat) returns (h: nat)
    requires |mask| == s * s && 0 <= i && i + w <= s && 1 <= w && 0 <= j < s && n == j * s + i
    requires forall a :: i <= a < i + w ==> Cell(mask, s, a, j)
    ensures 1 <= h && j + h <= s
    ensures forall a, b :: i <= a < i + w && j <= b < j + h ==> Cell(mask, s, a, b)
    ensures j + h == s || HasHole(mask, s, i, w, j + h)
  {
    h := 1;
    var done := false;
    while j + h < s
      invariant 1 <= h && j + h <= s && !done
      invariant forall a, b :: i <= a < i + w && j <= b < j + h ==> Cell(mask, s, a, b)
    {
      var row := j + h;
      var k := 0;
      while k < w
        invariant 0 <= k <= w && !done
        invariant forall a :: i <= a < i + k ==> Cell(mask, s, a, row)
      {
        Offset(s, n, i, j, k, h);
        CellIndex(s, i + k, row);
        if !mask[n + k + h * s] {
          assert !Cell(mask, s, i + k, row);
          done := true;
          break;
        }
        k := k + 1;
      }
      if done {
        break;
      }
      h := h + 1;
    }
  }

  /** The clearing loops (chunk.go:357-361): the rectangle's cells become
      false, every other cell keeps its value. */
  method Clear(mask: seq<bool>, s: nat, n: int, q: Quad) returns (m: seq<bool>)
    requires |mask| == s * s && q.i + q.w <= s && q.j + q.h <= s && n == q.j * s + q.i
    ensures |m| == s * s
    ensures forall a, b :: 0 <= a < s && 0 <= b < s ==>
      Cell(m, s, a, b) == (Cell(mask, s, a, b) && !InQuad(q, a, b))
  {
    m := mask;
    var l := 0;
    while l < q.h
      invariant 0 <= l <= q.h && |m| == s * s
      invariant forall a, b :: 0 <= a < s && 0 <= b < s ==>
        Cell(m, s, a, b) == (Cell(mask, s, a, b) && !(InQuad(q, a, b) && b < q.j + l))
    {
      var k := 0;
      while k < q.w
        invariant 0 <= k <= q.w && |m| == s * s
        invariant forall a, b :: 0 <= a < s && 0 <= b < s ==>
          Cell(m, s, a, b) == (Cell(mask, s, a, b) && !(InQuad(q, a, b) && (b < q.j + l || (b == q.j + l && a < q.i + k))))
      {
        Offset(s, n, q.i, q.j, k, l);
        UpdateCell(m, s, q.i + k, q.j + l, false);
        m := m[n + k + l * s := false];
        k := k + 1;
      }
      l := l + 1;
    }
  }

  /** Cell (a, b) belongs to one of the rectangles. */
  ghost predicate Covered(quads: seq<Quad>, a: int, b: int)
  {
    exists p :: 0 <= p < |quads| && InQuad(quads[p], a, b)
  }

  /** No cell belongs to two rectangles. */
  ghost predicate Disjoint(quads: seq<Quad>)
  {
    forall p, p', a, b :: 0 <= p < p' < |quads| && InQuad(quads[p], a, b) ==> !InQuad(quads[p'], a, b)
  }

  /** Every rectangle lies inside the S×S mask and covers only cells set in `mask0`. */
  ghost predicate WithinSet(quads: seq<Quad>, mask0: seq<bool>, s: nat)
    requires |mask0| == s * s
  {
    forall p :: 0 <= p < |quads| ==>
      && quads[p].i + quads[p].w <= s && quads[p].j + quads[p].h <= s
      && 1 <= quads[p].w && 1 <= quads[p].h
      && forall a, b :: InQuad(quads[p], a, b) ==> Cell(mask0, s, a, b)
  }

  /** The current mask is the initial one minus the rectangles so far. */
  ghost predicate Remaining(mask: seq<bool>, mask0: seq<bool>, s: nat, quads: seq<Quad>)
    requires |mask| == s * s && |mask0| == s * s
  {
    forall a, b :: 0 <= a < s && 0 <= b < s ==>
      Cell(mask, s, a, b) == (Cell(mask0, s, a, b) && !Covered(quads, a, b))
  }

  lemma CoveredSnoc(quads: seq<Quad>, q: Quad, a: int, b: int)
    ensures Covered(quads + [q], a, b) <==> Covered(quads, a, b) || InQuad(q, a, b)
  {
    var qs := quads + [q];
    if Covered(quads, a, b) {
      var p :| 0 <= p < |quads| && InQuad(quads[p], a, b);
      assert qs[p] == quads[p];
    }
    if InQuad(q, a, b) {
      assert qs[|quads|] == q;
    }
    if Covered(qs, a, b) {
      var p :| 0 <= p < |qs| && InQuad(qs[p], a, b);
      if p < |quads| {
        assert qs[p] == quads[p];
      }
    }
  }

  /** Adding a rectangle whose cells are all still set keeps the scan's
      bookkeeping: the rectangles stay disjoint and inside the initial set
      cells, and the cleared mask is the initial one minus all of them. */
  lemma AddQuad(mask: seq<bool>, m: seq<bool>, mask0: seq<bool>, s: nat, quads: seq<Quad>, q: Quad)
    requires |mask| == s * s && |m| == s * s && |mask0| == s * s
    requires q.i + q.w <= s && q.j + q.h <= s && 1 <= q.w && 1 <= q.h
    requires forall a, b :: InQuad(q, a, b) ==> Cell(mask, s, a, b)
    requires forall a, b :: 0 <= a < s && 0 <= b < s ==> Cell(m, s, a, b) == (Cell(mask, s, a, b) && !InQuad(q, a, b))
    requires Remaining(mask, mask0, s, quads) && WithinSet(quads, mask0, s) && Disjoint(quads)
    ensures Remaining(m, mask0, s, quads + [q]) && WithinSet(quads + [q], mask0, s) && Disjoint(quads + [q])
  {
    var qs := quads + [q];
    forall a, b | 0 <= a < s && 0 <= b < s
      ensures Cell(m, s, a, b) == (Cell(mask0, s, a, b) && !Covered(qs, a, b))
    {
      CoveredSnoc(quads, q, a, b);
    }
    forall p, p', a, b | 0 <= p < p' < |qs| && InQuad(qs[p], a, b)
      ensures !InQuad(qs[p'], a, b)
    {
      if p' == |quads| {
        assert qs[p] == quads[p];
        assert Covered(quads, a, b);
      } else {
        assert qs[p] == quads[p] && qs[p'] == quads[p'];
      }
    }
    forall p | 0 <= p < |qs|
      ensures && qs[p].i + qs[p].w <= s && qs[p].j + qs[p].h <= s
              && 1 <= qs[p].w && 1 <= qs[p].h
              && forall a, b :: InQuad(qs[p], a, b) ==> Cell(mask0, s, a, b)
    {
      if p == |quads| {
        forall a, b | InQuad(q, a, b)
          ensures Cell(mask0, s, a, b)
        {
        }
      } else {
        assert qs[p] == quads[p];
      }
    }
  }

  /** The scan of chunk.go:303-371 over an S×S mask: the rectangles it
      finds, in scan order, and the mask it leaves behind. */
  method Scan(mask0: seq<bool>, s: nat) returns (quads: seq<Quad>, mask: seq<bool>)
    requires |mask0| == s * s
    ensures |mask| == s * s
    ensures forall a, b :: 0 <= a < s && 0 <= b < s ==> !Cell(mask, s, a, b)
    ensures WithinSet(quads, mask0, s) && Disjoint(quads)
    ensures forall a, b :: 0 <= a < s && 0 <= b < s ==> (Cell(mask0, s, a, b) <==> Covered(quads, a, b))
  {
    quads := [];
    mask := mask0;
    var n := 0;
    var j := 0;
    while j < s
      invariant 0 <= j <= s && n == j * s && |mask| == s * s
      invariant Remaining(mask, mask0, s, quads) && WithinSet(quads, mask0, s) && Disjoint(quads)
      invariant forall a, b :: 0 <= a < s && 0 <= b < j ==> !Cell(mask, s, a, b)
    {
      var i := 0;
      while i < s
        invariant 0 <= i <= s && n == j * s + i && |mask| == s * s
        invariant Remaining(mask, mask0, s, quads) && WithinSet(quads, mask0, s) && Disjoint(quads)
        invariant forall a, b :: 0 <= a < s && 0 <= b < j ==> !Cell(mask, s, a, b)
        invariant forall a :: 0 <= a < i ==> !Cell(mask, s, a, j)
      {
        CellIndex(s, i, j);
        if mask[n] {
          var w := Width(mask, s, n, i, j);
          var h := Height(mask, s, n, i, j, w);
          var q := Quad(i, j, w, h);
          var m := Clear(mask, s, n, q);
          AddQuad(mask, m, mask0, s, quads, q);
          quads := quads + [q];
          mask := m;
          i := i + w;
          n := n + w;
        } else {
          i := i + 1;
          n := n + 1;
        }
      }
      Distribute(j, 1, s);
      j := j + 1;
    }
  }

  /** One slice of GreedyGeom: the mask of slice s along axis d, and its
      decomposition into disjoint rectangles that cover exactly the visible
      faces. */
  method GreedySlice(data: seq<seq<seq<int>>>, d: nat, s: int) returns (quads: seq<Quad>)
    requires ChunkShaped(data) && d < 3 && 0 <= s && s + 1 < ChunkSize
    ensures Disjoint(quads)
    ensures forall p :: 0 <= p < |quads| ==>
      && quads[p].i + quads[p].w <= ChunkSize && quads[p].j + quads[p].h <= ChunkSize
      && 1 <= quads[p].w && 1 <= quads[p].h
    ensures forall a, b :: 0 <= a < ChunkSize && 0 <= b < ChunkSize ==>
      (MaskCell(data, d, s, a, b) <==> Covered(quads, a, b))
  {
    var mask0 := ComputeMask(data, d, s);
    var rest;
    quads, rest := Scan(mask0, ChunkSize);
  }
}
