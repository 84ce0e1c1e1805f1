/** The visiting order of three nested `for` loops over integer ranges, shared
    by every whole-grid sweep (Marching Cubes, Transvoxel, the block meshers and
    the dual-contour experiment). */
module Sweep {

  /** The integers lo, lo+1, ..., hi-1: one `for v := lo; v < hi; v++` loop. */
  function Span(lo: int, hi: int): (r: seq<int>)
    ensures |r| == if lo <= hi then hi - lo else 0
    ensures forall k :: 0 <= k < |r| ==> r[k] == lo + k
  {
    seq(if lo <= hi then hi - lo else 0, k requires 0 <= k => lo + k)
  }

  /** The innermost loop: (a, b, c) for each c of `cs`. */
  function Row(a: int, b: int, cs: seq<int>): (r: seq<(int, int, int)>)
    ensures |r| == |cs|
    ensures forall k :: 0 <= k < |r| ==> r[k] == (a, b, cs[k])
  {
    seq(|cs|, k requires 0 <= k < |cs| => (a, b, cs[k]))
  }

  /** The two inner loops for one value of the outer variable. */
  function Slab(a: int, bs: seq<int>, cs: seq<int>): seq<(int, int, int)>
    decreases |bs|
  {
    if |bs| == 0 then [] else Row(a, bs[0], cs) + Slab(a, bs[1..], cs)
  }

  /** All three loops: (a, b, c) with a outermost and c innermost. */
  function Nest(as_: seq<int>, bs: seq<int>, cs: seq<int>): seq<(int, int, int)>
    decreases |as_|
  {
    if |as_| == 0 then [] else Slab(as_[0], bs, cs) + Nest(as_[1..], bs, cs)
  }

  predicate LexLess(p: (int, int, int), q: (int, int, int))
  {
    p.0 < q.0 || (p.0 == q.0 && (p.1 < q.1 || (p.1 == q.1 && p.2 < q.2)))
  }

  predicate Increasing(s: seq<int>)
  {
    forall i, j :: 0 <= i < j < |s| ==> s[i] < s[j]
  }

  /** Strictly increasing in lexicographic order; in particular no repeats. */
  predicate LexIncreasing(s: seq<(int, int, int)>)
  {
    forall i, j :: 0 <= i < j < |s| ==> LexLess(s[i], s[j])
  }

  lemma SpanIncreasing(lo: int, hi: int)
    ensures Increasing(Span(lo, hi))
  {
  }

  lemma {:induction false} SlabLength(a: int, bs: seq<int>, cs: seq<int>)
    ensures |Slab(a, bs, cs)| == |bs| * |cs|
    decreases |bs|
  {
    if |bs| > 0 {
      SlabLength(a, bs[1..], cs);
      assert |Slab(a, bs, cs)| == |cs| + (|bs| - 1) * |cs|;
    }
  }

  lemma {:induction false} SlabMembers(a: int, bs: seq<int>, cs: seq<int>)
    ensures forall p :: p in Slab(a, bs, cs) <==> p.0 == a && p.1 in bs && p.2 in cs
    decreases |bs|
  {
    if |bs| > 0 {
      SlabMembers(a, bs[1..], cs);
      assert bs == [bs[0]] + bs[1..];
      forall p
        ensures p in Row(a, bs[0], cs) <==> p.0 == a && p.1 == bs[0] && p.2 in cs
      {
        if p.0 == a && p.1 == bs[0] && p.2 in cs {
          var k :| 0 <= k < |cs| && cs[k] == p.2;
          assert Row(a, bs[0], cs)[k] == p;
        }
      }
    }
  }

  lemma {:induction false} NestLength(as_: seq<int>, bs: seq<int>, cs: seq<int>)
    ensures |Nest(as_, bs, cs)| == |as_| * (|bs| * |cs|)
    decreases |as_|
  {
    if |as_| > 0 {
      NestLength(as_[1..], bs, cs);
      SlabLength(as_[0], bs, cs);
      assert |Nest(as_, bs, cs)| == |bs| * |cs| + (|as_| - 1) * (|bs| * |cs|);
    }
  }

  lemma {:induction false} NestMembers(as_: seq<int>, bs: seq<int>, cs: seq<int>)
    ensures forall p :: p in Nest(as_, bs, cs) <==> p.0 in as_ && p.1 in bs && p.2 in cs
    decreases |as_|
  {
    if |as_| > 0 {
      NestMembers(as_[1..], bs, cs);
      SlabMembers(as_[0], bs, cs);
      assert as_ == [as_[0]] + as_[1..];
    }
  }

  /** The sweep has one entry per combination of loop values, and exactly
      the combinations of the three ranges appear. */
  lemma NestFacts(as_: seq<int>, bs: seq<int>, cs: seq<int>)
    ensures |Nest(as_, bs, cs)| == |as_| * (|bs| * |cs|)
    ensures forall p :: p in Nest(as_, bs, cs) <==> p.0 in as_ && p.1 in bs && p.2 in cs
  {
    NestLength(as_, bs, cs);
    NestMembers(as_, bs, cs);
  }

  lemma {:induction false} SortedConcat(s: seq<(int, int, int)>, t: seq<(int, int, int)>)
    requires LexIncreasing(s) && LexIncreasing(t)
    requires forall p, q :: p in s && q in t ==> LexLess(p, q)
    ensures LexIncreasing(s + t)
  {
    var u := s + t;
    forall i, j | 0 <= i < j < |u|
      ensures LexLess(u[i], u[j])
    {
      if j < |s| {
        assert u[i] == s[i] && u[j] == s[j];
      } else if i >= |s| {
        assert u[i] == t[i - |s|] && u[j] == t[j - |s|];
      } else {
        assert u[i] in s && u[j] in t;
      }
    }
  }

  lemma {:induction false} SlabSorted(a: int, bs: seq<int>, cs: seq<int>)
    requires Increasing(bs) && Increasing(cs)
    ensures LexIncreasing(Slab(a, bs, cs))
    decreases |bs|
  {
    if |bs| > 0 {
      SlabSorted(a, bs[1..], cs);
      SlabMembers(a, bs[1..], cs);
      forall p, q | p in Row(a, bs[0], cs) && q in Slab(a, bs[1..], cs)
        ensures LexLess(p, q)
      {
        var k :| 0 <= k < |bs[1..]| && bs[1..][k] == q.1;
        assert bs[k + 1] == q.1;
      }
      SortedConcat(Row(a, bs[0], cs), Slab(a, bs[1..], cs));
    }
  }

  lemma {:induction false} NestSorted(as_: seq<int>, bs: seq<int>, cs: seq<int>)
    requires Increasing(as_) && Increasing(bs) && Increasing(cs)
    ensures LexIncreasing(Nest(as_, bs, cs))
    decreases |as_|
  {
    if |as_| > 0 {
      NestSorted(as_[1..], bs, cs);
      SlabSorted(as_[0], bs, cs);
      SlabMembers(as_[0], bs, cs);
      NestMembers(as_[1..], bs, cs);
      forall p, q | p in Slab(as_[0], bs, cs) && q in Nest(as_[1..], bs, cs)
        ensures LexLess(p, q)
      {
        var k :| 0 <= k < |as_[1..]| && as_[1..][k] == q.0;
        assert as_[k + 1] == q.0;
      }
      SortedConcat(Slab(as_[0], bs, cs), Nest(as_[1..], bs, cs));
    }
  }

  /** The cells of three nested loops `lo <= v < hi` (for each axis): their
      number, their membership, and their strictly increasing order. */
  lemma Cube(loA: int, hiA: int, loB: int, hiB: int, loC: int, hiC: int)
    requires loA <= hiA && loB <= hiB && loC <= hiC
    ensures |Nest(Span(loA, hiA), Span(loB, hiB), Span(loC, hiC))| == (hiA - loA) * ((hiB - loB) * (hiC - loC))
    ensures forall p :: p in Nest(Span(loA, hiA), Span(loB, hiB), Span(loC, hiC)) <==>
      loA <= p.0 < hiA && loB <= p.1 < hiB && loC <= p.2 < hiC
    ensures LexIncreasing(Nest(Span(loA, hiA), Span(loB, hiB), Span(loC, hiC)))
  {
    var A, B, C := Span(loA, hiA), Span(loB, hiB), Span(loC, hiC);
    NestFacts(A, B, C);
    NestSorted(A, B, C);
    forall p
      ensures p in Nest(A, B, C) <==> loA <= p.0 < hiA && loB <= p.1 < hiB && loC <= p.2 < hiC
    {
      if loA <= p.0 < hiA && loB <= p.1 < hiB && loC <= p.2 < hiC {
        assert A[p.0 - loA] == p.0 && B[p.1 - loB] == p.1 && C[p.2 - loC] == p.2;
      }
    }
  }
}
