/** Value semantics of the bit-decomposition primitive `num_to_bits`: an
    exponent becomes `max_bits` boolean values, least-significant bit first,
    whose binary place-value sum reconstructs it. */
module Bits {
  import Field

  function Pow2(n: nat): (r: nat)
    ensures r >= 1
  {
    if n == 0 then 1 else 2 * Pow2(n - 1)
  }

  /** Powers of two multiply by adding exponents. */
  lemma {:induction false} Pow2Add(m: nat, n: nat)
    ensures Pow2(m + n) == Pow2(m) * Pow2(n)
    decreases m
  {
    if m > 0 {
      Pow2Add(m - 1, n);
      assert Pow2(m + n) == 2 * Pow2(m - 1 + n);
    }
  }

  /** Every entry is 0 or 1. */
  predicate AllBits(bits: seq<nat>) {
    forall i :: 0 <= i < |bits| ==> bits[i] <= 1
  }

  /** Place-value sum with bits[0] the least-significant bit. */
  function BitsValue(bits: seq<nat>): nat
    decreases |bits|
  {
    if bits == [] then 0 else bits[0] + 2 * BitsValue(bits[1..])
  }

  /** Unfolds BitsValue at an interior position: the value of bits[i..] is its
      lowest bit plus twice the value of the bits above it. */
  lemma BitsValueAt(bits: seq<nat>, i: nat)
    requires i < |bits|
    ensures BitsValue(bits[i..]) == bits[i] + 2 * BitsValue(bits[i + 1..])
  {
    assert bits[i..][1..] == bits[i + 1..];
  }

  /** n booleans never encode a value of n + 1 bits or more. */
  lemma {:induction false} BitsValueBound(bits: seq<nat>)
    requires AllBits(bits)
    ensures BitsValue(bits) < Pow2(|bits|)
    decreases |bits|
  {
    if bits != [] {
      assert AllBits(bits[1..]);
      BitsValueBound(bits[1..]);
    }
  }

  /** x mod 2m splits into its parity and twice (x div 2) mod m. */
  lemma ModDoubled(x: nat, m: nat)
    requires m > 0
    ensures x % (2 * m) == x % 2 + 2 * ((x / 2) % m)
  {
    var h := x / 2;
    assert x == 2 * h + x % 2;
    assert h == (h / m) * m + h % m;
    assert x == (h / m) * (2 * m) + (x % 2 + 2 * (h % m));
    Field.ModUnique(x, h / m, x % 2 + 2 * (h % m), 2 * m);
  }

  /** The witness the decomposition primitive assigns: the low n bits of x,
      least-significant first. They reconstruct x reduced modulo 2^n. */
  function NumToBits(x: nat, n: nat): (bits: seq<nat>)
    ensures |bits| == n && AllBits(bits)
    ensures BitsValue(bits) == x % Pow2(n)
    decreases n
  {
    if n == 0 then []
    else
      var rest := NumToBits(x / 2, n - 1);
      var bits := [x % 2] + rest;
      assert bits[1..] == rest;
      ModDoubled(x, Pow2(n - 1));
      bits
  }

  /** The decomposition reconstructs x exactly when x fits in n bits. */
  lemma NumToBitsExact(x: nat, n: nat)
    ensures BitsValue(NumToBits(x, n)) == x <==> x < Pow2(n)
  {
    if x < Pow2(n) {
      Field.ModUnique(x, 0, x, Pow2(n));
    }
  }

  /** The field form of the decomposition constraint: for x a field element
      (x < p), the honest bits satisfy `sum of bits * 2^i == x` modulo p
      exactly when x fits in n bits. */
  lemma NumToBitsInField(p: nat, x: nat, n: nat)
    requires x < p
    ensures BitsValue(NumToBits(x, n)) % p == x <==> x < Pow2(n)
  {
    var v := BitsValue(NumToBits(x, n));
    NumToBitsExact(x, n);
    if x < Pow2(n) {
      Field.ModUnique(x, 0, x, p);
    } else {
      assert v < Pow2(n) by { BitsValueBound(NumToBits(x, n)); }
      Field.ModUnique(v, 0, v, p);
    }
  }

  /** Two boolean sequences of one length with the same value are equal: the
      binary decomposition is unique. */
  lemma {:induction false} DecompositionUnique(a: seq<nat>, b: seq<nat>)
    requires |a| == |b| && AllBits(a) && AllBits(b)
    requires BitsValue(a) == BitsValue(b)
    ensures a == b
    decreases |a|
  {
    if a != [] {
      assert a[0] == b[0];
      assert AllBits(a[1..]) && AllBits(b[1..]);
      DecompositionUnique(a[1..], b[1..]);
      assert a == [a[0]] + a[1..] && b == [b[0]] + b[1..];
    }
  }

  /** In a field with 2^n <= p, the decomposition constraint (which only holds
      modulo p) still pins the bits down uniquely. */
  lemma FieldDecompositionUnique(p: nat, a: seq<nat>, b: seq<nat>)
    requires |a| == |b| && AllBits(a) && AllBits(b)
    requires Pow2(|a|) <= p
    requires BitsValue(a) % p == BitsValue(b) % p
    ensures a == b
  {
    BitsValueBound(a);
    BitsValueBound(b);
    Field.ModUnique(BitsValue(a), 0, BitsValue(a), p);
    Field.ModUnique(BitsValue(b), 0, BitsValue(b), p);
    DecompositionUnique(a, b);
  }

  /** Sum of zeros: an all-zero decomposition has value 0, and 0 decomposes
      into zeros only. */
  lemma {:induction false} ZeroBits(bits: seq<nat>)
    requires AllBits(bits)
    ensures BitsValue(bits) == 0 <==> forall i :: 0 <= i < |bits| ==> bits[i] == 0
    decreases |bits|
  {
    if bits != [] {
      assert AllBits(bits[1..]);
      ZeroBits(bits[1..]);
      assert forall i :: 1 <= i < |bits| ==> bits[i] == bits[1..][i - 1];
    }
  }
}
