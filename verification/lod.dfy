/** The level-of-detail terrain of transvoxel_terrain.go: a tree of cubic
    nodes, each `16 · 2^level` units on a side, built by `Expand`; the
    choice of nodes `Render` meshes; and the brush edit of a node's 19³
    sample grid. Meshes, scene groups and noise are not modelled: a node is
    its level, its origin and its children. */
module Lod {
  import opened Bits
  import opened Geometry
  import opened Voxels
  import opened Transvoxel

  /** `children` is empty for a node whose children pointer is nil, and
      holds the eight children otherwise. */
  datatype LodNode = LodNode(level: int, x: int, y: int, z: int, children: seq<LodNode>)

  /** Go's integer `/`, which truncates toward zero. */
  function Quot(a: int, b: int): int
    requires b > 0
  {
    if a >= 0 then a / b else -((-a) / b)
  }

  /** Edge length of a node of the given level (transvoxel_terrain.go:57-58). */
  function NodeSize(level: nat): nat
  {
    Pow2(level) * 16
  }

  /** Child i of a node at (x, y, z) of the given level: one level down, its
      origin moved by `offset · size / 2` on each axis
      (transvoxel_terrain.go:61-68). */
  function ChildOrigin(level: nat, x: int, y: int, z: int, o: (int, int, int)): (int, int, int)
  {
    var size := NodeSize(level);
    (x + Quot(o.0 * size, 2), y + Quot(o.1 * size, 2), z + Quot(o.2 * size, 2))
  }

  /** The size is even, so the truncating division is exact: a child sits
      `offset · 8 · 2^level` away from its parent on each axis. */
  lemma ChildOriginExact(level: nat, x: int, y: int, z: int, o: (int, int, int))
    ensures ChildOrigin(level, x, y, z, o) ==
      (x + o.0 * 8 * Pow2(level), y + o.1 * 8 * Pow2(level), z + o.2 * 8 * Pow2(level))
  {
    var p := Pow2(level);
    HalfOfEven(o.0, p);
    HalfOfEven(o.1, p);
    HalfOfEven(o.2, p);
  }

  lemma HalfOfEven(a: int, p: nat)
    ensures Quot(a * (p * 16), 2) == a * 8 * p
  {
    assert a * (p * 16) == 2 * (a * 8 * p);
    if a * 8 * p < 0 {
      assert -(a * (p * 16)) == 2 * -(a * 8 * p);
    }
  }

  /** Expand (transvoxel_terrain.go:56-74) on a node at (x, y, z) with the
      given level; `offsets` stands for the NeighborOffsets table. Go's
      `1 << level` panics for a negative level, so the level is a nat here. */
  function Expand(level: nat, x: int, y: int, z: int, offsets: seq<(int, int, int)>): (r: LodNode)
    requires |offsets| == 8
    decreases level, 1
    ensures r.level == level && r.x == x && r.y == y && r.z == z
    ensures |r.children| == 8
  {
    LodNode(level, x, y, z, ExpandChildren(level, x, y, z, offsets, 0))
  }

  /** Children i, i+1, ..., 7 of an expanding node: each is created one
      level down and expanded in turn while its level is above 0. */
  function ExpandChildren(level: nat, x: int, y: int, z: int, offsets: seq<(int, int, int)>, i: nat): (r: seq<LodNode>)
    requires |offsets| == 8 && i <= 8
    decreases level, 0, 8 - i
    ensures |r| == 8 - i
  {
    if i == 8 then []
    else
      var (cx, cy, cz) := ChildOrigin(level, x, y, z, offsets[i]);
      var child := if level - 1 > 0 then Expand(level - 1, cx, cy, cz, offsets)
                   else LodNode(level - 1, cx, cy, cz, []);
      [child] + ExpandChildren(level, x, y, z, offsets, i + 1)
  }

  /** A complete 8-ary tree whose leaves are exactly its level-0 nodes and
      whose children sit one level below their parent. */
  ghost predicate FullTree(n: LodNode)
    decreases n
  {
    && n.level >= 0
    && (n.children == [] <==> n.level == 0)
    && (n.children != [] ==>
         && |n.children| == 8
         && forall i :: 0 <= i < 8 ==> n.children[i].level == n.level - 1 && FullTree(n.children[i]))
  }

  /** The children of an expanded node, with the origins they get. */
  lemma {:induction false} ExpandChildrenAt(level: nat, x: int, y: int, z: int, offsets: seq<(int, int, int)>, i: nat, j: nat)
    requires |offsets| == 8 && i <= j < 8
    ensures var c := ExpandChildren(level, x, y, z, offsets, i)[j - i];
      && c.level == level - 1
      && (c.x, c.y, c.z) == ChildOrigin(level, x, y, z, offsets[j])
      && (c.children != [] <==> level - 1 > 0)
      && (level >= 1 ==> FullTree(c))
    decreases level, 8 - i
  {
    var r := ExpandChildren(level, x, y, z, offsets, i);
    if j > i {
      ExpandChildrenAt(level, x, y, z, offsets, i + 1, j);
      assert r[j - i] == ExpandChildren(level, x, y, z, offsets, i + 1)[j - (i + 1)];
    } else {
      var o := ChildOrigin(level, x, y, z, offsets[i]);
      if level - 1 > 0 {
        ExpandFull(level - 1, o.0, o.1, o.2, offsets);
        assert r[0] == Expand(level - 1, o.0, o.1, o.2, offsets);
      } else {
        assert r[0] == LodNode(level - 1, o.0, o.1, o.2, []);
      }
    }
  }

  /** From any level of at least 1, Expand builds a full 8-ary tree whose
      leaves are all at level 0. */
  lemma {:induction false} ExpandFull(level: nat, x: int, y: int, z: int, offsets: seq<(int, int, int)>)
    requires |offsets| == 8 && level >= 1
    ensures FullTree(Expand(level, x, y, z, offsets))
    decreases level, 9
  {
    var r := Expand(level, x, y, z, offsets);
    forall i | 0 <= i < 8
      ensures r.children[i].level == level - 1 && FullTree(r.children[i])
    {
      ExpandChildrenAt(level, x, y, z, offsets, 0, i);
    }
  }

  /** Node count by level: 8^level leaves under a full tree. */
  function Pow8(k: nat): nat
  {
    if k == 0 then 1 else 8 * Pow8(k - 1)
  }

  function Leaves(n: LodNode): nat
    decreases n, 1
  {
    if n.children == [] then 1 else LeavesFrom(n, 0)
  }

  function LeavesFrom(n: LodNode, i: nat): nat
    requires i <= |n.children|
    decreases n, 0, |n.children| - i
  {
    if i == |n.children| then 0 else Leaves(n.children[i]) + LeavesFrom(n, i + 1)
  }

  /** A full tree of level L has 8^L leaves. */
  lemma {:induction false} FullTreeLeaves(n: LodNode)
    requires FullTree(n)
    ensures Leaves(n) == Pow8(n.level)
    decreases n, 1
  {
    if n.children != [] {
      LeavesFromFull(n, 0);
    }
  }

  lemma {:induction false} LeavesFromFull(n: LodNode, i: nat)
    requires FullTree(n) && n.children != [] && i <= 8
    ensures LeavesFrom(n, i) == (8 - i) * Pow8(n.level - 1)
    decreases n, 0, 8 - i
  {
    if i < 8 {
      FullTreeLeaves(n.children[i]);
      LeavesFromFull(n, i + 1);
    }
  }

  /** The nodes Render (transvoxel_terrain.go:76-88) meshes, in order: a
      node without children meshes itself; otherwise child 0 is rendered
      recursively and children 1..7 mesh themselves at their own level,
      whatever children they have. */
  function Rendered(n: LodNode): (r: seq<LodNode>)
    decreases n, 1
    ensures n.children == [] ==> r == [n]
  {
    if n.children == [] then [n] else RenderChildren(n, 0)
  }

  function RenderChildren(n: LodNode, i: nat): seq<LodNode>
    requires i <= |n.children|
    decreases n, 0, |n.children| - i
  {
    if i == |n.children| then []
    else (if i == 0 then Rendered(n.children[0]) else [n.children[i]]) + RenderChildren(n, i + 1)
  }

  /** On a full tree of level L, Render meshes 7·L + 1 nodes (seven at
      each level from L-1 down to 1, eight at level 0), all strictly below
      the tree's own level unless the tree is a single leaf. */
  lemma {:induction false} RenderedFull(n: LodNode)
    requires FullTree(n)
    ensures |Rendered(n)| == 7 * n.level + 1
    ensures forall i :: 0 <= i < |Rendered(n)| ==>
      0 <= Rendered(n)[i].level && (n.level == 0 || Rendered(n)[i].level < n.level)
    decreases n, 1
  {
    if n.children != [] {
      RenderChildrenFull(n, 0);
    }
  }

  lemma {:induction false} RenderChildrenFull(n: LodNode, i: nat)
    requires FullTree(n) && n.children != [] && i <= 8
    ensures |RenderChildren(n, i)| == (if i == 0 then 7 * (n.level - 1) + 1 + 7 else 8 - i)
    ensures forall k :: 0 <= k < |RenderChildren(n, i)| ==> 0 <= RenderChildren(n, i)[k].level < n.level
    decreases n, 0, 8 - i
  {
    if i < 8 {
      if i == 0 {
        RenderedFull(n.children[0]);
      }
      RenderChildrenFull(n, i + 1);
    }
  }


  /** TransvoxelNode.HandleVoxelClick (transvoxel_terrain.go:33-54) on the
      node's 19³ grid: the brush edits only cells inside the hard-coded
      [0,16)³ block, then the grid is remeshed as it is, without inflation. */
  method HandleVoxelClick(voxels: Grid, x: int, y: int, z: int, shift: bool, T: Tables, sqrt: real -> real)
    returns (edited: Grid, mesh: Mesh)
    requires WellFormedTables(T) && IsBox(voxels, 19, 19, 19)
    ensures IsBox(edited, 19, 19, 19)
    ensures forall a, b, c :: InBox(a, b, c, 19, 19, 19) ==>
      edited[a][b][c] == BrushedSample(voxels, a, b, c, x, y, z, 16, 16, 16, shift)
    ensures |mesh.positions| == |mesh.normals| && |mesh.positions| % 3 == 0
    ensures IndexTableBounded(T) && VertexCount(mesh) <= U32Range ==> WellFormedMesh(mesh)
    ensures MarchableDims(edited) && mesh == MarchTransvoxels(edited, T, sqrt)
  {
    edited := ApplyBrush(voxels, 19, 19, 19, x, y, z, 16, 16, 16, shift);
    assert |edited[0]| == 19 && |edited[0][0]| == 19;
    mesh := MarchTransvoxels(edited, T, sqrt);
  }

  /** A click never touches the border cells 16..18 of the node's grid. */
  lemma ClickKeepsBorder(voxels: Grid, a: int, b: int, c: int, x: int, y: int, z: int, shift: bool)
    requires IsBox(voxels, 19, 19, 19) && InBox(a, b, c, 19, 19, 19)
    requires a >= 16 || b >= 16 || c >= 16
    ensures BrushedSample(voxels, a, b, c, x, y, z, 16, 16, 16, shift) == voxels[a][b][c]
  {
  }
}
