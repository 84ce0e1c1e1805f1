/** Bit-level vocabulary shared by the case-code computations: powers of two,
    bit tests on unsigned values, and packing a sequence of flags into an integer
    (the OR of `1 << k` over the set flags). */
module Bits {

  /** `1 << k` on unbounded integers. */
  function Pow2(k: nat): (r: nat)
    ensures r >= 1
  {
    if k == 0 then 1 else 2 * Pow2(k - 1)
  }

  /** Shifting by a then by b is shifting by a + b. */
  lemma {:induction false} Pow2Add(a: nat, b: nat)
    ensures Pow2(a + b) == Pow2(a) * Pow2(b)
    decreases a
  {
    if a > 0 {
      Pow2Add(a - 1, b);
      assert Pow2(a + b) == 2 * Pow2(a - 1 + b);
    }
  }

  /** Bit `k` of an unsigned value: `(i >> k) & 1 != 0`, where an unsigned `>>`
      halves the value `k` times. */
  predicate Bit(i: nat, k: nat)
  {
    if k == 0 then i % 2 == 1 else Bit(i / 2, k - 1)
  }

  /** The integer whose bit `k` is `bs[k]`. Because the flags occupy distinct bits,
      OR-ing `1 << k` over the set flags and adding them give the same value. */
  function Pack(bs: seq<bool>): (r: nat)
    ensures r < Pow2(|bs|)
  {
    if |bs| == 0 then 0 else (if bs[0] then 1 else 0) + 2 * Pack(bs[1..])
  }

  /** Reading bit `k` back out of a packed value gives the `k`-th flag. */
  lemma {:induction false} BitOfPack(bs: seq<bool>, k: nat)
    requires k < |bs|
    ensures Bit(Pack(bs), k) == bs[k]
  {
    if k > 0 {
      assert Pack(bs) / 2 == Pack(bs[1..]);
      BitOfPack(bs[1..], k - 1);
    }
  }

  /** Bits above the packed width are clear. */
  lemma {:induction false} BitAbovePack(bs: seq<bool>, k: nat)
    requires k >= |bs|
    ensures !Bit(Pack(bs), k)
  {
    if |bs| == 0 {
      ZeroHasNoBits(k);
    } else {
      assert Pack(bs) / 2 == Pack(bs[1..]);
      BitAbovePack(bs[1..], k - 1);
    }
  }

  lemma {:induction false} ZeroHasNoBits(k: nat)
    ensures !Bit(0, k)
  {
    if k > 0 {
      ZeroHasNoBits(k - 1);
    }
  }

  /** The lowest `n` bits of `i`, least significant first. */
  function LowBits(i: nat, n: nat): (bs: seq<bool>)
    ensures |bs| == n
  {
    seq(n, k requires 0 <= k < n => Bit(i, k))
  }

  /** Packing the lowest `n` bits of a value below `2^n` gives the value back. */
  lemma {:induction false} PackOfBits(i: nat, n: nat)
    requires i < Pow2(n)
    ensures Pack(LowBits(i, n)) == i
  {
    var bs := LowBits(i, n);
    if n > 0 {
      var rest := LowBits(i / 2, n - 1);
      assert bs[1..] == rest by {
        forall k | 0 <= k < n - 1
          ensures bs[1..][k] == rest[k]
        {
          assert bs[1..][k] == Bit(i, k + 1);
        }
      }
      PackOfBits(i / 2, n - 1);
    }
  }

  /** Two packed flag sequences of the same width are equal exactly when the flags are. */
  lemma PackInjective(xs: seq<bool>, bs: seq<bool>)
    requires |xs| == |bs|
    requires Pack(xs) == Pack(bs)
    ensures xs == bs
  {
    forall k | 0 <= k < |xs|
      ensures xs[k] == bs[k]
    {
      BitOfPack(xs, k);
      BitOfPack(bs, k);
    }
  }

  lemma Pow2Table()
    ensures Pow2(0) == 1 && Pow2(1) == 2 && Pow2(2) == 4 && Pow2(3) == 8
    ensures Pow2(4) == 16 && Pow2(5) == 32 && Pow2(6) == 64 && Pow2(7) == 128 && Pow2(8) == 256
  {
  }

  /** A value below `2^k` has bit `k` clear. */
  lemma {:induction false} BitOfSmall(u: nat, k: nat)
    requires u < Pow2(k)
    ensures !Bit(u, k)
  {
    if k > 0 {
      BitOfSmall(u / 2, k - 1);
    }
  }

  /** A value in the top `2^k` of the range below `2^n` (k < n) has bit `k`
      set: bits k..n-1 of such a value are all ones. */
  lemma {:induction false} BitOfTop(u: nat, k: nat, n: nat)
    requires k < n && Pow2(n) - Pow2(k) <= u < Pow2(n)
    ensures Bit(u, k)
  {
    if k > 0 {
      BitOfTop(u / 2, k - 1, n - 1);
    }
  }

  /** Packing flags that are all clear gives zero, and only then. */
  lemma {:induction false} PackZero(bs: seq<bool>)
    ensures Pack(bs) == 0 <==> forall k :: 0 <= k < |bs| ==> !bs[k]
  {
    if |bs| > 0 {
      PackZero(bs[1..]);
      assert forall k :: 1 <= k < |bs| ==> bs[k] == bs[1..][k - 1];
    }
  }

  /** The XOR of two bytes: bit k is set where the operands' bits differ. */
  function Xor8(a: nat, b: nat): (r: nat)
    ensures r < 256
  {
    Pow2Table();
    Pack(seq(8, k requires 0 <= k < 8 => Bit(a, k) != Bit(b, k)))
  }

  /** The XOR of two bytes is zero exactly when they are equal. */
  lemma Xor8Zero(a: nat, b: nat)
    requires a < 256 && b < 256
    ensures Xor8(a, b) == 0 <==> a == b
  {
    Pow2Table();
    var d := seq(8, k requires 0 <= k < 8 => Bit(a, k) != Bit(b, k));
    PackZero(d);
    if Xor8(a, b) == 0 {
      assert forall k :: 0 <= k < 8 ==> !d[k];
      assert LowBits(a, 8) == LowBits(b, 8) by {
        forall k | 0 <= k < 8
          ensures LowBits(a, 8)[k] == LowBits(b, 8)[k]
        {
          assert !d[k];
        }
      }
      PackOfBits(a, 8);
      PackOfBits(b, 8);
    }
  }

  /** `w` when the flag is set, else 0: one `if b { r |= w }` step. */
  function Flag(b: bool, w: nat): nat
  {
    if b then w else 0
  }

  /** The sum of a sequence of naturals, last element outermost. */
  function Sum(ts: seq<nat>): nat
  {
    if |ts| == 0 then 0 else Sum(ts[..|ts| - 1]) + ts[|ts| - 1]
  }

  /** Appending a flag to a packed sequence adds its weight, 2^position. */
  lemma {:induction false} PackSnoc(bs: seq<bool>, b: bool)
    ensures Pack(bs + [b]) == Pack(bs) + (if b then Pow2(|bs|) else 0)
    decreases |bs|
  {
    if |bs| > 0 {
      assert (bs + [b])[1..] == bs[1..] + [b];
      PackSnoc(bs[1..], b);
    }
  }

  /** Summing the weights `2^k` of the set flags is packing them. */
  lemma {:induction false} SumOfWeights(ts: seq<nat>, bs: seq<bool>)
    requires |ts| == |bs|
    requires forall k :: 0 <= k < |ts| ==> ts[k] == if bs[k] then Pow2(k) else 0
    ensures Sum(ts) == Pack(bs)
    decreases |ts|
  {
    if |ts| > 0 {
      var n := |ts| - 1;
      SumOfWeights(ts[..n], bs[..n]);
      PackSnoc(bs[..n], bs[n]);
      assert bs[..n] + [bs[n]] == bs;
    }
  }
}
