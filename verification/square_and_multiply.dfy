/** The value semantics of the circuit's left-to-right square-and-multiply
    schedule. The bits are given least-significant first, as the
    decomposition returns them; the schedule walks them from the top, and
    after k steps it has consumed bits[|bits| - k..], the top k bits. */
module SquareAndMultiply {
  import opened Field
  import opened Bits

  /** One iteration of the loop at position `index` of the reversed bit
      order: square the prior accumulator (except at index 0), form the
      candidate product with the base, and select it when the bit is 1. */
  function Step(p: nat, prior: nat, base: nat, bit: nat, index: nat): (r: nat)
    requires p > 1 && prior < p && base < p && bit <= 1
    ensures var sq := if index != 0 then Mul(p, prior, prior) else prior;
            r == if bit == 1 then Mul(p, sq, base) else sq
  {
    var sq := if index != 0 then Mul(p, prior, prior) else prior;
    var product := Mul(p, sq, base);
    Select(p, product, sq, bit)
  }

  /** The accumulator after the top k bits, starting from the constant 1. */
  function Accumulate(p: nat, base: nat, bits: seq<nat>, k: nat): (r: nat)
    requires p > 1 && base < p && AllBits(bits) && k <= |bits|
    ensures r < p
    decreases k
  {
    if k == 0 then 1
    else Step(p, Accumulate(p, base, bits, k - 1), base, bits[|bits| - k], k - 1)
  }

  /** The textbook schedule, which squares on every bit including the first. */
  function TextbookAccumulate(p: nat, base: nat, bits: seq<nat>, k: nat): (r: nat)
    requires p > 1 && base < p && AllBits(bits) && k <= |bits|
    ensures r < p
    decreases k
  {
    if k == 0 then 1
    else
      var prior := TextbookAccumulate(p, base, bits, k - 1);
      var sq := Mul(p, prior, prior);
      Select(p, Mul(p, sq, base), sq, bits[|bits| - k])
  }

  /** Loop invariant of the circuit: after the top k bits the accumulator is
      base raised to the value of those bits. */
  lemma {:induction false} AccumulateIsPow(p: nat, base: nat, bits: seq<nat>, k: nat)
    requires p > 1 && base < p && AllBits(bits) && k <= |bits|
    ensures Accumulate(p, base, bits, k) == ModPow(p, base, BitsValue(bits[|bits| - k..]))
    decreases k
  {
    var n := |bits|;
    if k == 0 {
      assert bits[n..] == [];
    } else {
      var i := n - k;
      var v := BitsValue(bits[i + 1..]);
      AccumulateIsPow(p, base, bits, k - 1);
      BitsValueAt(bits, i);
      var prior := Accumulate(p, base, bits, k - 1);
      assert prior == ModPow(p, base, v);
      var sq := if k - 1 != 0 then Mul(p, prior, prior) else prior;
      if k - 1 == 0 {
        assert bits[i + 1..] == [];
        assert sq == ModPow(p, base, 2 * v);
      } else {
        ModPowDouble(p, base, v);
      }
      ModPowSucc(p, base, 2 * v);
    }
  }

  /** After every bit, the accumulator is base^(value of the bits). */
  lemma Correct(p: nat, base: nat, bits: seq<nat>)
    requires p > 1 && base < p && AllBits(bits)
    ensures Accumulate(p, base, bits, |bits|) == ModPow(p, base, BitsValue(bits))
  {
    AccumulateIsPow(p, base, bits, |bits|);
    assert bits[0..] == bits;
  }

  /** Skipping the square at index 0 changes nothing: the accumulator is 1
      there and 1 * 1 == 1. */
  lemma {:induction false} SkipFirstSquareAgrees(p: nat, base: nat, bits: seq<nat>, k: nat)
    requires p > 1 && base < p && AllBits(bits) && k <= |bits|
    ensures Accumulate(p, base, bits, k) == TextbookAccumulate(p, base, bits, k)
    decreases k
  {
    if k > 0 {
      SkipFirstSquareAgrees(p, base, bits, k - 1);
      var prior := Accumulate(p, base, bits, k - 1);
      var bit := bits[|bits| - k];
      var sq := Mul(p, prior, prior);
      if k == 1 {
        assert prior == 1;
        ModOfSmall(p, 1);
        assert sq == prior;
      }
      assert TextbookAccumulate(p, base, bits, k) == Select(p, Mul(p, sq, base), sq, bit);
    }
  }

  /** An all-zero exponent yields the field identity for every base, 0 included. */
  lemma ZeroExponentGivesOne(p: nat, base: nat, bits: seq<nat>)
    requires p > 1 && base < p && AllBits(bits)
    requires forall i :: 0 <= i < |bits| ==> bits[i] == 0
    ensures Accumulate(p, base, bits, |bits|) == 1
  {
    Correct(p, base, bits);
    ZeroBits(bits);
    assert BitsValue(bits) == 0;
    ModPowZero(p, base);
  }

  /** When exp + p still fits in the bits (exp + p < 2^n), the decomposition
      constraint, which only holds modulo p, also accepts bits whose value is
      exp + p; the schedule then computes base^(exp + p) instead of
      base^exp. */
  lemma OversizedDecompositionIsAmbiguous(p: nat, base: nat, exp: nat, forged: seq<nat>)
    requires p > 1 && base < p && exp < p
    requires AllBits(forged) && BitsValue(forged) == exp + p
    ensures BitsValue(forged) % p == exp
    ensures Accumulate(p, base, forged, |forged|) == ModPow(p, base, exp + p)
  {
    Correct(p, base, forged);
    ModUnique(exp + p, 1, exp, p);
  }

  /** An instance over p = 3 with two bits: [1, 1] decomposes exp = 0 modulo
      3, and base 2 then yields 2 where 2^0 is 1. */
  lemma OversizedDecompositionExample()
    ensures AllBits([1, 1]) && BitsValue([1, 1]) == 0 + 3
    ensures ModPow(3, 2, 0 + 3) == 2 != ModPow(3, 2, 0)
  {
    assert [1, 1][1..] == [1] && [1][1..] == [];
  }
}
