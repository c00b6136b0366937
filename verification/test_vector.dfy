/** The repository's test of the gadget: it samples base and exp below
    2^253, computes res = base^exp modulo a hard-coded modulus, converts the
    three numbers into the BN254 scalar field, and expects the circuit built
    with max_bits = 253 to be satisfied. The sampling is replaced by
    parameters. The hard-coded modulus is not the BN254 scalar-field modulus:
    its hexadecimal literal carries one digit too many. */
module TestVector {
  import opened Field
  import opened Bits
  import opened Exponentiation
  import Session

  /** The modulus the test passes to modpow, digit for digit. */
  const TEST_MODULUS: nat := 0x30644e72e131a029b85045b68181585d28333e84879b9709143e1f593f0000001

  /** The same literal with the duplicated digit removed. */
  const INTENDED_MODULUS: nat := 0x30644e72e131a029b85045b68181585d2833e84879b9709143e1f593f0000001

  /** The width the test asks the decomposition for, and the width it samples. */
  const TEST_MAX_BITS: nat := 253

  /** The literal as written is not BN254's r; with the extra digit removed it is. */
  lemma TestModulusIsNotR()
    ensures TEST_MODULUS != BN254_R && TEST_MODULUS > BN254_R
    ensures INTENDED_MODULUS == BN254_R
  {
  }

  /** 2^253 is below r, so every sampled value is already a field element. */
  lemma SampledValuesFit()
    ensures Pow2(TEST_MAX_BITS) == 0x2000000000000000000000000000000000000000000000000000000000000000
    ensures Pow2(TEST_MAX_BITS) < BN254_R
  {
    assert Pow2(5) == 32 && Pow2(8) == 256;
    Pow2Add(8, 5);
    assert Pow2(13) == 8192;
    Pow2Add(8, 8);
    assert Pow2(16) == 65536;
    Pow2Add(16, 13);
    assert Pow2(29) == 536870912;
    Pow2Add(16, 16);
    assert Pow2(32) == 4294967296;
    Pow2Add(32, 29);
    assert Pow2(61) == 2305843009213693952;
    Pow2Add(32, 32);
    assert Pow2(64) == 18446744073709551616;
    Pow2Add(64, 61);
    assert Pow2(125) == 42535295865117307932921825928971026432;
    Pow2Add(64, 64);
    assert Pow2(128) == 340282366920938463463374607431768211456;
    Pow2Add(128, 125);
  }

  /** The test body: a fresh session over BN254's scalar field, the gadget on
      the converted inputs, and the satisfaction check. It passes exactly when
      the test's modpow agrees with exponentiation in the field. */
  method RunTest(base: nat, exp: nat, modulus: nat) returns (satisfied: bool)
    requires base < Pow2(TEST_MAX_BITS) && exp < Pow2(TEST_MAX_BITS) && modulus > 0
    requires ModPow(modulus, base, exp) < BN254_R
    ensures satisfied <==> ModPow(modulus, base, exp) == ModPow(BN254_R, base, exp)
  {
    SampledValuesFit();
    var ctx := new Session.Context(BN254_R);
    var input := CircuitInput(base, exp, ModPow(modulus, base, exp), TEST_MAX_BITS);
    Circuit(ctx, input);
    satisfied := ctx.Satisfied();
  }

  /** As written: base = 591787027527157276022922768683985038439 (the integer
      just above the square root of the literal) with exp = 2 makes modpow
      return base^2 minus the literal, a value below r, which is not base^2
      modulo r. The test's circuit is then unsatisfied. */
  lemma AsWrittenTestFails()
    ensures var base := 591787027527157276022922768683985038439;
            && base < Pow2(TEST_MAX_BITS)
            && ModPow(TEST_MODULUS, base, 2) == 55092026338654362401860468395676016
            && ModPow(TEST_MODULUS, base, 2) < BN254_R
            && ModPow(TEST_MODULUS, base, 2) != ModPow(BN254_R, base, 2)
  {
    SampledValuesFit();
    var base := 591787027527157276022922768683985038439;
    assert Pow(base, 2) == base * base;
    var square := 350211885949428403555942491924116401416773830406656549499052091112400307556721;
    assert base * base == square;
    ModUnique(square, 1, 55092026338654362401860468395676016, TEST_MODULUS);
    ModUnique(square, 15, 21888242871839275222246405745257275088548364400416034343579028313763180122466, BN254_R);
  }

  /** The test as written, on the input above: its circuit is unsatisfied. */
  method AsWrittenTestRun() returns (satisfied: bool)
    ensures !satisfied
  {
    AsWrittenTestFails();
    satisfied := RunTest(591787027527157276022922768683985038439, 2, TEST_MODULUS);
  }

  /** The test with r as the modulus: its circuit is satisfied for every
      sampled pair. */
  method CorrectedTestRun(base: nat, exp: nat) returns (satisfied: bool)
    requires base < Pow2(TEST_MAX_BITS) && exp < Pow2(TEST_MAX_BITS)
    ensures satisfied
  {
    CorrectedTestPasses(base, exp);
    satisfied := RunTest(base, exp, INTENDED_MODULUS);
  }

  /** Corrected: with r as the modulus, every sampled pair passes, since the
      test's res is then the claimed power and exp fits in 253 bits. */
  lemma CorrectedTestPasses(base: nat, exp: nat)
    requires base < Pow2(TEST_MAX_BITS) && exp < Pow2(TEST_MAX_BITS)
    ensures base < BN254_R && exp < BN254_R && ModPow(INTENDED_MODULUS, base, exp) < BN254_R
    ensures Accepts(BN254_R, CircuitInput(base, exp, ModPow(INTENDED_MODULUS, base, exp), TEST_MAX_BITS))
  {
    SampledValuesFit();
    TestModulusIsNotR();
  }
}
