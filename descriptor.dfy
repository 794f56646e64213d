/** Binary descriptor distance: the population count of the bitwise XOR of two
    descriptors, normalised to the 32-byte reference width so that channels of
    different descriptor widths share one threshold scale. */
module Descriptors {

  /** A descriptor row: one byte per column. */
  type Descriptor = seq<bv8>

  /** Number of one bits of a natural number. */
  function PopcountNat(n: nat): nat
    decreases n
  {
    if n == 0 then 0 else n % 2 + PopcountNat(n / 2)
  }

  /** `__builtin_popcount` of one byte. */
  function Popcount(b: bv8): nat
  {
    PopcountNat(b as nat)
  }

  function Pow2(k: nat): nat
  {
    if k == 0 then 1 else 2 * Pow2(k - 1)
  }

  /** A number below 2^k has at most k one bits. */
  lemma {:induction false} PopcountAtMostBits(n: nat, k: nat)
    requires n < Pow2(k)
    ensures PopcountNat(n) <= k
  {
    if n != 0 {
      assert k != 0;
      PopcountAtMostBits(n / 2, k - 1);
    }
  }

  /** A byte has at most eight one bits. */
  lemma PopcountByte(b: bv8)
    ensures Popcount(b) <= 8
  {
    assert Pow2(8) == 256;
    PopcountAtMostBits(b as nat, 8);
  }

  /** The raw Hamming distance: sum of the popcounts of the XOR of each column. */
  function RawHamming(a: Descriptor, b: Descriptor): nat
    requires |a| == |b|
    decreases |a|
  {
    if |a| == 0 then 0
    else RawHamming(a[..|a| - 1], b[..|b| - 1]) + Popcount(a[|a| - 1] ^ b[|b| - 1])
  }

  /** `int(raw * 32.0f / cols + 0.5f)` of Associater.cc, computed exactly on
      integers. */
  function Normalise(raw: nat, cols: nat): nat
    requires cols > 0
  {
    (64 * raw + cols) / (2 * cols)
  }

  /** The normalised distance used by every matcher. */
  function Distance(a: Descriptor, b: Descriptor): nat
    requires 0 < |a| == |b|
  {
    Normalise(RawHamming(a, b), |a|)
  }

  /** The accumulator loop of `DescriptorDistance`. */
  method DescriptorDistance(a: Descriptor, b: Descriptor) returns (dist: nat)
    requires 0 < |a| == |b|
    ensures dist == Distance(a, b)
  {
    var raw: nat := 0;
    var i := 0;
    while i < |a|
      invariant 0 <= i <= |a|
      invariant raw == RawHamming(a[..i], b[..i])
    {
      assert a[..i + 1][..i] == a[..i];
      assert b[..i + 1][..i] == b[..i];
      raw := raw + Popcount(a[i] ^ b[i]);
      i := i + 1;
    }
    assert a[..i] == a && b[..i] == b;
    dist := Normalise(raw, |a|);
  }

  /** A descriptor is at distance zero from itself. */
  lemma {:induction false} RawHammingSelf(a: Descriptor)
    ensures RawHamming(a, a) == 0
  {
    if |a| != 0 {
      RawHammingSelf(a[..|a| - 1]);
      assert a[|a| - 1] ^ a[|a| - 1] == 0;
    }
  }

  lemma {:induction false} RawHammingSymmetric(a: Descriptor, b: Descriptor)
    requires |a| == |b|
    ensures RawHamming(a, b) == RawHamming(b, a)
  {
    if |a| != 0 {
      RawHammingSymmetric(a[..|a| - 1], b[..|b| - 1]);
      assert a[|a| - 1] ^ b[|b| - 1] == b[|b| - 1] ^ a[|a| - 1];
    }
  }

  lemma {:induction false} RawHammingBound(a: Descriptor, b: Descriptor)
    requires |a| == |b|
    ensures RawHamming(a, b) <= 8 * |a|
  {
    if |a| != 0 {
      RawHammingBound(a[..|a| - 1], b[..|b| - 1]);
      PopcountByte(a[|a| - 1] ^ b[|b| - 1]);
    }
  }

  lemma DistanceSelf(a: Descriptor)
    requires 0 < |a|
    ensures Distance(a, a) == 0
  {
    RawHammingSelf(a);
    var n := |a|;
    assert n < 2 * n;
  }

  lemma DistanceSymmetric(a: Descriptor, b: Descriptor)
    requires 0 < |a| == |b|
    ensures Distance(a, b) == Distance(b, a)
  {
    RawHammingSymmetric(a, b);
  }

  /** Euclidean division facts for `Normalise`: it is the round-half-up of
      `raw * 32 / cols`, i.e. `d <= raw * 32 / cols + 1/2 < d + 1`. */
  lemma NormaliseRounds(raw: nat, cols: nat)
    requires cols > 0
    ensures 2 * cols * Normalise(raw, cols) <= 64 * raw + cols < 2 * cols * (Normalise(raw, cols) + 1)
  {
    var x, m := 64 * raw + cols, 2 * cols;
    var q := x / m;
    assert x == q * m + x % m;
    assert 2 * cols * (q + 1) == q * m + m;
  }

  lemma NormaliseBound(raw: nat, cols: nat)
    requires cols > 0 && raw <= 8 * cols
    ensures Normalise(raw, cols) <= 256
  {
    var q := Normalise(raw, cols);
    NormaliseRounds(raw, cols);
    if q >= 257 {
      assert 2 * cols * q >= 2 * cols * 257 by { MulMono(q, 257, 2 * cols); }
      assert false;
    }
  }

  lemma MulMono(a: int, b: int, c: nat)
    requires a >= b
    ensures c * a >= c * b
  {
  }

  /** Whatever the width, the normalised distance lies in [0, 256]. */
  lemma DistanceBound(a: Descriptor, b: Descriptor)
    requires 0 < |a| == |b|
    ensures 0 <= Distance(a, b) <= 256
  {
    RawHammingBound(a, b);
    NormaliseBound(RawHamming(a, b), |a|);
  }

  /** For 32-byte descriptors the normalisation is the identity. */
  lemma Distance32(a: Descriptor, b: Descriptor)
    requires |a| == |b| == 32
    ensures Distance(a, b) == RawHamming(a, b)
  {
    var r := RawHamming(a, b);
    assert (64 * r + 32) / 64 == r;
  }

  /** The normalised distance is the round-half-up of the real ratio
      `raw * 32 / cols`. */
  lemma DistanceIsRounded(a: Descriptor, b: Descriptor)
    requires 0 < |a| == |b|
    ensures Distance(a, b) == ((RawHamming(a, b) as real) * 32.0 / (|a| as real) + 0.5).Floor
  {
    var r, n := RawHamming(a, b), |a|;
    var q := Distance(a, b);
    NormaliseRounds(r, n);
    RealRounding(r, n, q);
  }

  lemma RealRounding(r: nat, n: nat, q: int)
    requires n > 0
    requires 2 * n * q <= 64 * r + n < 2 * n * (q + 1)
    ensures ((r as real) * 32.0 / (n as real) + 0.5).Floor == q
  {
    var rn := n as real;
    var x := (r as real) * 32.0 / rn + 0.5;
    assert x * (2.0 * rn) == (64 * r + n) as real;
    assert (2.0 * rn) * (q as real) <= x * (2.0 * rn);
    assert x * (2.0 * rn) < (2.0 * rn) * ((q + 1) as real);
    RealDivide(q as real, x, 2.0 * rn);
    RealDivide(x, (q + 1) as real, 2.0 * rn);
  }

  lemma RealDivide(u: real, v: real, c: real)
    requires c > 0.0
    ensures c * u <= v * c ==> u <= v
    ensures v * c < c * u ==> v < u
  {
  }
}
