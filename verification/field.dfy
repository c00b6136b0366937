/** Arithmetic of the native field: residues modulo a modulus p > 1, with the
    value semantics of the two gates the exponentiation circuit uses (field
    multiplication and boolean selection). Primality of p is never needed by
    the theorems of this model, so only p > 1 is assumed. */
module Field {

  /** The scalar-field modulus r of BN254, the field the repository's test
      instantiates the circuit over. */
  const BN254_R: nat := 21888242871839275222246405745257275088548364400416034343698204186575808495617

  /** Integer power b^e. */
  function Pow(b: nat, e: nat): nat
    decreases e
  {
    if e == 0 then 1 else b * Pow(b, e - 1)
  }

  /** b^e reduced modulo p, the value the test computes with BigUint::modpow. */
  function ModPow(p: nat, b: nat, e: nat): (r: nat)
    requires p > 0
    ensures r < p
  {
    Pow(b, e) % p
  }

  /** Value semantics of the multiplication gate. */
  function Mul(p: nat, a: nat, b: nat): (r: nat)
    requires p > 0
    ensures r < p
  {
    (a * b) % p
  }

  /** Value semantics of the selection gate: the field element
      s * a + (1 - s) * b. For a boolean selector it is one of the two inputs. */
  function Select(p: nat, a: nat, b: nat, s: nat): (r: nat)
    requires p > 0
    ensures r < p
    ensures s <= 1 && a < p && b < p ==> r == if s == 1 then a else b
  {
    ModOfSmall(p, a);
    ModOfSmall(p, b);
    (s * a + (1 - s) * b) % p
  }

  /** A field element is its own residue. */
  lemma ModOfSmall(p: nat, x: nat)
    requires p > 0
    ensures x < p ==> x % p == x
  {
    if x < p {
      ModUnique(x, 0, x, p);
    }
  }

  /** Euclidean division is unique: a remainder in [0, p) is the remainder. */
  lemma ModUnique(a: int, q: int, r: int, p: int)
    requires p > 0 && 0 <= r < p && a == q * p + r
    ensures a % p == r && a / p == q
  {
    var q', r' := a / p, a % p;
    assert a == q' * p + r';
    var d := q - q';
    assert d * p == r' - r by {
      assert d * p == q * p - q' * p;
    }
    if d > 0 {
      MulAtLeast(d, p);
    } else if d < 0 {
      MulAtLeast(-d, p);
    }
  }

  lemma MulAtLeast(d: int, p: int)
    requires d > 0 && p > 0
    ensures d * p >= p
  {
  }

  /** Reducing a factor before multiplying does not change the product mod p. */
  lemma MulModLeft(p: nat, x: nat, y: nat)
    requires p > 0
    ensures ((x % p) * y) % p == (x * y) % p
  {
    var q, r := x / p, x % p;
    assert x * y == (q * y) * p + r * y;
    var q2, r2 := (r * y) / p, (r * y) % p;
    assert x * y == (q * y + q2) * p + r2;
    ModUnique(x * y, q * y + q2, r2, p);
  }

  lemma MulModBoth(p: nat, x: nat, y: nat)
    requires p > 0
    ensures ((x % p) * (y % p)) % p == (x * y) % p
  {
    MulModLeft(p, x, y % p);
    MulModLeft(p, y, x);
    assert x * (y % p) == (y % p) * x;
    assert y * x == x * y;
  }

  lemma {:induction false} PowAdd(b: nat, m: nat, n: nat)
    ensures Pow(b, m + n) == Pow(b, m) * Pow(b, n)
    decreases m
  {
    if m > 0 {
      PowAdd(b, m - 1, n);
      assert Pow(b, m + n) == b * Pow(b, m - 1 + n);
    }
  }

  /** Squaring b^v in the field gives b^(2v). */
  lemma ModPowDouble(p: nat, b: nat, v: nat)
    requires p > 0
    ensures Mul(p, ModPow(p, b, v), ModPow(p, b, v)) == ModPow(p, b, 2 * v)
  {
    MulModBoth(p, Pow(b, v), Pow(b, v));
    PowAdd(b, v, v);
  }

  /** Multiplying b^e by a field element b gives b^(e+1). */
  lemma ModPowSucc(p: nat, b: nat, e: nat)
    requires p > 0 && b < p
    ensures Mul(p, ModPow(p, b, e), b) == ModPow(p, b, e + 1)
  {
    MulModLeft(p, Pow(b, e), b);
    assert Pow(b, e + 1) == b * Pow(b, e);
  }

  /** b^0 is the field identity, whatever b is (0^0 included). */
  lemma ModPowZero(p: nat, b: nat)
    requires p > 1
    ensures ModPow(p, b, 0) == 1
  {
  }
}
