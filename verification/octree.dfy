/** The material octree of octree.go: nodes are cubes given by a centre and
    an edge length; `At` descends (creating octants lazily) to the leaf
    holding a point, `Visits` is the pre-order walk behind DFS, and `Merge`
    collapses uniform subtrees into their parent. The tree is an immutable
    value: `At` and `Merge` return the updated tree, and the Parent back
    pointer is not kept (a node's parent is the node it hangs under). */
module Octree {
  import opened Options
  import opened Geometry

  datatype Node = Node(position: Vec3, size: real, children: seq<Option<Node>>, material: int)

  /** octree.go:53-55: nodes of edge length at most 1 are not subdivided. */
  predicate Leaf(n: Node)
  {
    n.size <= 1.0
  }

  /** The closed box of octree.go:61-66: the cube of edge s centred at c. */
  predicate InCube(p: Vec3, c: Vec3, s: real)
  {
    var o := s / 2.0;
    && c.x - o <= p.x <= c.x + o
    && c.y - o <= p.y <= c.y + o
    && c.z - o <= p.z <= c.z + o
  }

  predicate Contains(n: Node, p: Vec3)
  {
    InCube(p, n.position, n.size)
  }

  /** The eight octant directions in the table order of octree.go:32-41. */
  const OctantSigns: seq<(int, int, int)> :=
    [(-1, -1, -1), (-1, -1, 1), (-1, 1, -1), (-1, 1, 1),
     (1, -1, -1), (1, -1, 1), (1, 1, -1), (1, 1, 1)]

  /** The centre of octant k of the cube (c, s): c offset by ±s/4 on each axis. */
  function OctantCentre(c: Vec3, s: real, k: nat): Vec3
    requires k < 8
  {
    var o := s / 4.0;
    Vec3(c.x + OctantSigns[k].0 as real * o, c.y + OctantSigns[k].1 as real * o, c.z + OctantSigns[k].2 as real * o)
  }

  /** NewTree (octree.go:22-24): no children and material 0. */
  function NewTree(pos: Vec3, size: real): (r: Node)
    ensures r.position == pos && r.size == size && r.material == 0
    ensures |r.children| == 8 && forall k :: 0 <= k < 8 ==> r.children[k].None?
    ensures Octree(r)
  {
    Node(pos, size, seq(8, _ => None), 0)
  }

  /** The shape every tree built by NewTree and At has: eight child slots,
      each child an octant of its parent, with half its edge length. */
  ghost predicate Octree(n: Node)
    decreases n
  {
    && |n.children| == 8
    && forall k :: 0 <= k < 8 && n.children[k].Some? ==>
      && n.children[k].value.size == n.size / 2.0
      && n.children[k].value.position == OctantCentre(n.position, n.size, k)
      && Octree(n.children[k].value)
  }

  /** The first octant, from k on in table order, whose closed box holds p. */
  function FirstOctant(c: Vec3, s: real, p: Vec3, k: nat): (r: Option<nat>)
    requires k <= 8
    decreases 8 - k
    ensures r.Some? ==> k <= r.value < 8 && InCube(p, OctantCentre(c, s, r.value), s / 2.0)
    ensures r.Some? ==> forall j :: k <= j < r.value ==> !InCube(p, OctantCentre(c, s, j), s / 2.0)
    ensures r.None? ==> forall j :: k <= j < 8 ==> !InCube(p, OctantCentre(c, s, j), s / 2.0)
  {
    if k == 8 then None
    else if InCube(p, OctantCentre(c, s, k), s / 2.0) then Some(k)
    else FirstOctant(c, s, p, k + 1)
  }

  /** The eight octants cover the cube: a point of the cube lies in one. */
  lemma OctantsCover(c: Vec3, s: real, p: Vec3)
    ensures s >= 0.0 && InCube(p, c, s) ==> FirstOctant(c, s, p, 0).Some?
  {
    if s >= 0.0 && InCube(p, c, s) {
      var k := (if p.x >= c.x then 4 else 0) + (if p.y >= c.y then 2 else 0) + (if p.z >= c.z then 1 else 0);
      assert InCube(p, OctantCentre(c, s, k), s / 2.0);
    }
  }

  /** An octant lies inside its cube. */
  lemma OctantInside(c: Vec3, s: real, p: Vec3, k: nat)
    requires k < 8
    ensures s >= 0.0 && InCube(p, OctantCentre(c, s, k), s / 2.0) ==> InCube(p, c, s)
  {
  }

  /** Halving an edge longer than 1 lowers its floor, so descent ends. */
  lemma HalfFloor(s: real)
    requires s > 1.0
    ensures 0 <= (s / 2.0).Floor < s.Floor
  {
  }

  /** At (octree.go:26-51): a leaf answers itself; otherwise the first
      octant holding p is created if missing and searched, and no octant
      holding p gives None (nil). The result pairs the updated tree with
      the node found. */
  function At(n: Node, p: Vec3): (r: (Node, Option<Node>))
    requires Octree(n)
    decreases n.size.Floor
    ensures Octree(r.0) && r.0.position == n.position && r.0.size == n.size && r.0.material == n.material
    ensures Leaf(n) ==> r == (n, Some(n))
    ensures r.1.Some? ==> Leaf(r.1.value)
    ensures !Leaf(n) && r.1.Some? ==> Contains(r.1.value, p) && Contains(n, p)
    ensures Contains(n, p) ==> r.1.Some?
    ensures forall k :: 0 <= k < 8 && r.0.children[k] != n.children[k] ==>
      && FirstOctant(n.position, n.size, p, 0) == Some(k)
      && r.0.children[k].Some?
      && r.0.children[k].value.material == (if n.children[k].Some? then n.children[k].value.material else 0)
  {
    if Leaf(n) then (n, Some(n))
    else
      match FirstOctant(n.position, n.size, p, 0)
      case None =>
        OctantsCover(n.position, n.size, p);
        (n, None)
      case Some(k) =>
        var child := if n.children[k].Some? then n.children[k].value
                     else NewTree(OctantCentre(n.position, n.size, k), n.size / 2.0);
        HalfFloor(n.size);
        var sub := At(child, p);
        OctantInside(n.position, n.size, p, k);
        (n.(children := n.children[k := Some(sub.0)]), sub.1)
  }

  /** Node m hangs d levels below n. */
  ghost predicate Reach(m: Node, n: Node, d: nat)
    decreases n
  {
    if d == 0 then m == n
    else exists k :: 0 <= k < |n.children| && n.children[k].Some? && Reach(m, n.children[k].value, d - 1)
  }

  /** The leaf At answers hangs in the tree At returns: descending from the
      root through the octants the walk chose reaches it. */
  lemma {:induction false} AtReaches(n: Node, p: Vec3)
    requires Octree(n)
    decreases n.size.Floor
    ensures At(n, p).1.Some? ==> exists d :: Reach(At(n, p).1.value, At(n, p).0, d)
  {
    if Leaf(n) {
      assert Reach(n, n, 0);
    } else {
      match FirstOctant(n.position, n.size, p, 0)
      case None =>
      case Some(k) =>
        var child := if n.children[k].Some? then n.children[k].value
                     else NewTree(OctantCentre(n.position, n.size, k), n.size / 2.0);
        HalfFloor(n.size);
        var sub := At(child, p);
        AtReaches(child, p);
        if sub.1.Some? {
          var d :| Reach(sub.1.value, sub.0, d);
          var r := At(n, p);
          assert r == (n.(children := n.children[k := Some(sub.0)]), sub.1);
          ReachChild(sub.1.value, r.0, k, d);
        }
    }
  }

  /** A node d levels below child k hangs d + 1 levels below its parent. */
  lemma ReachChild(m: Node, n: Node, k: nat, d: nat)
    requires k < |n.children| && n.children[k].Some? && Reach(m, n.children[k].value, d)
    ensures Reach(m, n, d + 1)
  {
  }

  /** The calls dfs (octree.go:72-81) makes on n at the given depth, in
      order: fn sees n first; if it answers false the children are skipped,
      otherwise the non-nil children are walked in index order one level
      deeper. */
  function Visits(n: Node, fn: (Node, int) -> bool, depth: int): (r: seq<(Node, int)>)
    decreases n, 1
    ensures |r| >= 1 && r[0] == (n, depth)
    ensures !fn(n, depth) ==> r == [(n, depth)]
    ensures forall i :: 0 <= i < |r| ==> r[i].1 >= depth && Reach(r[i].0, n, r[i].1 - depth)
  {
    [(n, depth)] + if fn(n, depth) then VisitChildren(n, fn, depth, 0) else []
  }

  function VisitChildren(n: Node, fn: (Node, int) -> bool, depth: int, k: nat): (r: seq<(Node, int)>)
    decreases n, 0, |n.children| - k
    ensures forall i :: 0 <= i < |r| ==> r[i].1 > depth && Reach(r[i].0, n, r[i].1 - depth)
  {
    if k >= |n.children| then []
    else
      var here := if n.children[k].Some? then Visits(n.children[k].value, fn, depth + 1) else [];
      var rest := VisitChildren(n, fn, depth, k + 1);
      assert forall i :: 0 <= i < |here| ==> Reach(here[i].0, n, here[i].1 - depth) by {
        forall i | 0 <= i < |here|
          ensures Reach(here[i].0, n, here[i].1 - depth)
        {
          var d: nat := here[i].1 - depth;
          assert n.children[k].Some? && Reach(here[i].0, n.children[k].value, d - 1);
        }
      }
      here + rest
  }

  /** DFS (octree.go:68-70) from a possibly nil node. */
  function Dfs(n: Option<Node>, fn: (Node, int) -> bool): (r: seq<(Node, int)>)
    ensures n.None? <==> r == []
    ensures forall i :: 0 <= i < |r| ==> r[i].1 >= 0 && Reach(r[i].0, n.value, r[i].1)
  {
    if n.None? then [] else Visits(n.value, fn, 0)
  }

  /** With a callback that never prunes, the walk reaches every node, at its
      distance from the start. Together with the postcondition of Visits,
      the walk lists exactly the nodes of the tree. */
  lemma {:induction false} VisitsComplete(n: Node, fn: (Node, int) -> bool, depth: int, m: Node, d: nat)
    requires forall x, e :: fn(x, e)
    requires Reach(m, n, d)
    ensures (m, depth + d) in Visits(n, fn, depth)
    decreases n, 1
  {
    if d > 0 {
      var k :| 0 <= k < |n.children| && n.children[k].Some? && Reach(m, n.children[k].value, d - 1);
      VisitChildrenComplete(n, fn, depth, 0, k, m, d);
    }
  }

  lemma {:induction false} VisitChildrenComplete(n: Node, fn: (Node, int) -> bool, depth: int, j: nat, k: nat, m: Node, d: nat)
    requires forall x, e :: fn(x, e)
    requires j <= k < |n.children| && n.children[k].Some? && d >= 1 && Reach(m, n.children[k].value, d - 1)
    ensures (m, depth + d) in VisitChildren(n, fn, depth, j)
    decreases n, 0, |n.children| - j
  {
    var here := if n.children[j].Some? then Visits(n.children[j].value, fn, depth + 1) else [];
    assert VisitChildren(n, fn, depth, j) == here + VisitChildren(n, fn, depth, j + 1);
    if j == k {
      VisitsComplete(n.children[k].value, fn, depth + 1, m, d - 1);
      assert (m, depth + d) in here;
    } else {
      VisitChildrenComplete(n, fn, depth, j + 1, k, m, d);
    }
  }

  /** merge (octree.go:83-104). */
  function Merge(n: Node): (r: Node)
    decreases n, 1
    ensures r.position == n.position && r.size == n.size && |r.children| == |n.children|
    ensures r.material != n.material ==> n.material == 0 && forall k :: 0 <= k < |r.children| ==> r.children[k].None?
  {
    var loop := MergeFrom(n, 0, 0);
    if loop.1 && n.material == 0 && loop.2 != 0 then
      n.(children := seq(|n.children|, _ => None), material := loop.2)
    else
      n.(children := loop.0)
  }

  /** The child loop of merge from slot k with running material mat: each
      non-nil child is merged first; mat takes the first material seen
      since the last nil slot, and a nil slot resets it to 0. The result is
      the slots from k on as the loop leaves them, whether the loop ran to
      the end (false when a child's material differs from mat, which returns
      early and leaves the later children unmerged), and the final mat. */
  function MergeFrom(n: Node, k: nat, mat: int): (r: (seq<Option<Node>>, bool, int))
    requires k <= |n.children|
    decreases n, 0, |n.children| - k
    ensures |r.0| == |n.children| - k
  {
    if k == |n.children| then ([], true, mat)
    else match n.children[k]
      case None =>
        var rest := MergeFrom(n, k + 1, 0);
        ([None] + rest.0, rest.1, rest.2)
      case Some(c) =>
        var c' := Merge(c);
        var mat' := if mat == 0 then c'.material else mat;
        if c'.material != mat' then ([Some(c')] + n.children[k + 1..], false, mat')
        else
          var rest := MergeFrom(n, k + 1, mat');
          ([Some(c')] + rest.0, rest.1, rest.2)
  }

  /** The material the last child slot ends with: 0 for a nil slot. */
  function LastMaterial(n: Node): int
    requires |n.children| > 0
  {
    var last := n.children[|n.children| - 1];
    if last.None? then 0 else Merge(last.value).material
  }

  /** When the loop runs to the end, mat is the last child's merged material. */
  lemma {:induction false} MergeFromLast(n: Node, k: nat, mat: int)
    requires k < |n.children| && MergeFrom(n, k, mat).1
    ensures MergeFrom(n, k, mat).2 == LastMaterial(n)
    decreases |n.children| - k
  {
    if k + 1 < |n.children| {
      match n.children[k]
      case None =>
        MergeFromLast(n, k + 1, 0);
      case Some(c) =>
        MergeFromLast(n, k + 1, if mat == 0 then Merge(c).material else mat);
    }
  }

  /** The collapse rule of octree.go:98-103: merge changes a node's material
      exactly when the material was 0, the child loop ran to the end, and
      the last child is non-nil with a nonzero merged material; the node
      then takes that material and loses all its children. */
  lemma CollapseRule(n: Node)
    requires |n.children| == 8
    ensures Merge(n).material != n.material <==>
      n.material == 0 && MergeFrom(n, 0, 0).1 && n.children[7].Some? && Merge(n.children[7].value).material != 0
    ensures Merge(n).material != n.material ==>
      Merge(n).material == Merge(n.children[7].value).material && forall k :: 0 <= k < 8 ==> Merge(n).children[k].None?
  {
    if MergeFrom(n, 0, 0).1 {
      MergeFromLast(n, 0, 0);
    }
  }

  /** Children that are all present and merge to one material m. */
  ghost predicate Uniform(n: Node, k: nat, m: int)
    requires k <= |n.children|
  {
    forall j :: k <= j < |n.children| ==> n.children[j].Some? && Merge(n.children[j].value).material == m
  }

  lemma {:induction false} UniformRunsThrough(n: Node, k: nat, mat: int, m: int)
    requires k <= |n.children| && m != 0 && (mat == 0 || mat == m) && Uniform(n, k, m)
    requires k < |n.children| || mat == m
    ensures MergeFrom(n, k, mat).1 && MergeFrom(n, k, mat).2 == m
    decreases |n.children| - k
  {
    if k < |n.children| {
      UniformRunsThrough(n, k + 1, m, m);
    }
  }

  /** octree.go:83-104: a material-0 node whose eight children are present
      and all merge to one nonzero material becomes a childless node of
      that material. */
  lemma UniformCollapses(n: Node, m: int)
    requires |n.children| == 8 && n.material == 0 && m != 0 && Uniform(n, 0, m)
    ensures Merge(n) == n.(children := seq(8, _ => None), material := m)
  {
    UniformRunsThrough(n, 0, 0, m);
  }

  /** A node whose slots from k on are all nil runs the loop to the end
      without touching them. */
  lemma {:induction false} MergeFromEmpty(n: Node, k: nat, mat: int)
    requires k <= |n.children| && forall j :: k <= j < |n.children| ==> n.children[j].None?
    ensures MergeFrom(n, k, mat).0 == n.children[k..] && MergeFrom(n, k, mat).1
    ensures k < |n.children| ==> MergeFrom(n, k, mat).2 == 0
    decreases |n.children| - k
  {
    if k < |n.children| {
      MergeFromEmpty(n, k + 1, 0);
    }
  }

  /** merge is idempotent: a second pass changes nothing. */
  lemma {:induction false} MergeIdempotent(n: Node)
    ensures Merge(Merge(n)) == Merge(n)
    decreases n, 1
  {
    var loop := MergeFrom(n, 0, 0);
    var n1 := Merge(n);
    if loop.1 && n.material == 0 && loop.2 != 0 {
      MergeFromEmpty(n1, 0, 0);
      assert n1.children[0..] == n1.children;
    } else {
      assert n1 == n.(children := loop.0);
      MergeFromAgain(n, n1, 0, 0);
    }
  }

  /** Re-running the loop over the slots it produced gives the same slots,
      the same early exit and the same final material. */
  lemma {:induction false} MergeFromAgain(n: Node, n1: Node, k: nat, mat: int)
    requires k <= |n.children| && |n1.children| == |n.children|
    requires n1.children[k..] == MergeFrom(n, k, mat).0
    ensures MergeFrom(n1, k, mat) == MergeFrom(n, k, mat)
    decreases n, 0, |n.children| - k
  {
    if k < |n.children| {
      var r := MergeFrom(n, k, mat);
      assert n1.children[k] == r.0[0];
      assert n1.children[k + 1..] == r.0[1..];
      match n.children[k]
      case None =>
        MergeFromAgain(n, n1, k + 1, 0);
      case Some(c) =>
        MergeIdempotent(c);
        var mat' := if mat == 0 then Merge(c).material else mat;
        if Merge(c).material == mat' {
          MergeFromAgain(n, n1, k + 1, mat');
        }
    }
  }
}
