/** The constraint-system session the circuit writes into. A witness handle
    is the index of a cell; the session holds the value the witness
    generator assigns to every cell, in allocation order, and the list of
    constraints added so far. Every gate both appends its output cell and
    records the constraint that ties that cell to its inputs. The session is
    satisfied when every recorded constraint holds of the assigned values. */
module Session {
  import Field
  import Bits

  /** A constraint over witness handles. */
  datatype Constraint =
    | MulGate(lhs: nat, rhs: nat, out: nat)
    | SelectGate(onTrue: nat, onFalse: nat, sel: nat, out: nat)
      /** `num_to_bits`: every bit is boolean and the place-value sum of the
          bits equals x in the field. */
    | Decompose(x: nat, bits: seq<nat>)
    | Fixed(cell: nat, value: nat)
    | Equal(a: nat, b: nat)

  /** Every handle the constraint mentions is one of the first n cells. */
  predicate InRange(c: Constraint, n: nat) {
    match c
    case MulGate(a, b, o) => a < n && b < n && o < n
    case SelectGate(a, b, s, o) => a < n && b < n && s < n && o < n
    case Decompose(x, hs) => x < n && forall i :: 0 <= i < |hs| ==> hs[i] < n
    case Fixed(h, _) => h < n
    case Equal(a, b) => a < n && b < n
  }

  predicate AllInRange(cs: seq<Constraint>, n: nat) {
    forall j :: 0 <= j < |cs| ==> InRange(cs[j], n)
  }

  /** The values of the cells a list of handles names. */
  function ValuesAt(vals: seq<nat>, hs: seq<nat>): (r: seq<nat>)
    requires forall i :: 0 <= i < |hs| ==> hs[i] < |vals|
    ensures |r| == |hs| && forall i :: 0 <= i < |hs| ==> r[i] == vals[hs[i]]
  {
    seq(|hs|, i requires 0 <= i < |hs| => vals[hs[i]])
  }

  /** Whether one constraint holds of an assignment of cell values. */
  predicate Holds(p: nat, vals: seq<nat>, c: Constraint)
    requires p > 0
  {
    InRange(c, |vals|) &&
    match c
    case MulGate(a, b, o) => vals[o] == Field.Mul(p, vals[a], vals[b])
    case SelectGate(a, b, s, o) => vals[o] == Field.Select(p, vals[a], vals[b], vals[s])
    case Decompose(x, hs) =>
      Bits.AllBits(ValuesAt(vals, hs)) && Bits.BitsValue(ValuesAt(vals, hs)) % p == vals[x]
    case Fixed(h, v) => vals[h] == v
    case Equal(a, b) => vals[a] == vals[b]
  }

  predicate AllHold(p: nat, vals: seq<nat>, cs: seq<Constraint>)
    requires p > 0
  {
    forall j :: 0 <= j < |cs| ==> Holds(p, vals, cs[j])
  }

  /** Allocating more cells does not change whether an earlier constraint holds. */
  lemma HoldsGrow(p: nat, vals: seq<nat>, more: seq<nat>, c: Constraint)
    requires p > 0 && InRange(c, |vals|)
    ensures Holds(p, vals + more, c) == Holds(p, vals, c)
  {
    if c.Decompose? {
      assert ValuesAt(vals + more, c.bits) == ValuesAt(vals, c.bits);
    }
  }

  lemma AllHoldGrow(p: nat, vals: seq<nat>, more: seq<nat>, cs: seq<Constraint>)
    requires p > 0 && AllInRange(cs, |vals|)
    ensures AllHold(p, vals + more, cs) == AllHold(p, vals, cs)
  {
    forall j | 0 <= j < |cs|
      ensures Holds(p, vals + more, cs[j]) == Holds(p, vals, cs[j])
    {
      HoldsGrow(p, vals, more, cs[j]);
    }
  }

  lemma AllHoldConcat(p: nat, vals: seq<nat>, a: seq<Constraint>, b: seq<Constraint>)
    requires p > 0
    ensures AllHold(p, vals, a + b) == (AllHold(p, vals, a) && AllHold(p, vals, b))
  {
    if AllHold(p, vals, a) && AllHold(p, vals, b) {
      forall j | 0 <= j < |a + b| ensures Holds(p, vals, (a + b)[j]) {
        if j >= |a| {
          assert (a + b)[j] == b[j - |a|];
        }
      }
    }
    if AllHold(p, vals, a + b) {
      forall j | 0 <= j < |a| ensures Holds(p, vals, a[j]) {
        assert (a + b)[j] == a[j];
      }
      forall j | 0 <= j < |b| ensures Holds(p, vals, b[j]) {
        assert (a + b)[|a| + j] == b[j];
      }
    }
  }

  class Context {
    /** The field modulus. */
    const p: nat
    /** The value of every allocated witness, indexed by handle. */
    var cells: seq<nat>
    var constraints: seq<Constraint>

    ghost predicate Valid()
      reads this
    {
      && p > 1
      && (forall i :: 0 <= i < |cells| ==> cells[i] < p)
      && AllInRange(constraints, |cells|)
    }

    /** Every constraint recorded so far holds of the assigned values. */
    predicate Satisfied()
      reads this
      requires p > 0
    {
      AllHold(p, cells, constraints)
    }

    constructor (p: nat)
      requires p > 1
      ensures Valid() && this.p == p && cells == [] && constraints == []
    {
      this.p := p;
      cells := [];
      constraints := [];
    }

    /** `load_witness`: a free cell holding v, with no constraint on it. */
    method LoadWitness(v: nat) returns (h: nat)
      requires Valid() && v < p
      modifies this
      ensures Valid()
      ensures h == old(|cells|) && cells == old(cells) + [v]
      ensures constraints == old(constraints)
    {
      h := |cells|;
      cells := cells + [v];
    }

    /** `load_constant`: a cell fixed to the constant v. */
    method LoadConstant(v: nat) returns (h: nat)
      requires Valid() && v < p
      modifies this
      ensures Valid()
      ensures h == old(|cells|) && cells == old(cells) + [v]
      ensures constraints == old(constraints) + [Fixed(h, v)]
    {
      h := |cells|;
      cells := cells + [v];
      constraints := constraints + [Fixed(h, v)];
    }

    /** `mul`: a new cell holding the field product of a and b. */
    method Mul(a: nat, b: nat) returns (h: nat)
      requires Valid() && a < |cells| && b < |cells|
      modifies this
      ensures Valid()
      ensures h == old(|cells|) && cells == old(cells) + [Field.Mul(p, old(cells)[a], old(cells)[b])]
      ensures constraints == old(constraints) + [MulGate(a, b, h)]
    {
      h := |cells|;
      cells := cells + [Field.Mul(p, cells[a], cells[b])];
      constraints := constraints + [MulGate(a, b, h)];
    }

    /** `select`: a new cell holding sel * a + (1 - sel) * b in the field. */
    method Select(a: nat, b: nat, sel: nat) returns (h: nat)
      requires Valid() && a < |cells| && b < |cells| && sel < |cells|
      modifies this
      ensures Valid()
      ensures h == old(|cells|)
      ensures cells == old(cells) + [Field.Select(p, old(cells)[a], old(cells)[b], old(cells)[sel])]
      ensures constraints == old(constraints) + [SelectGate(a, b, sel, h)]
    {
      h := |cells|;
      cells := cells + [Field.Select(p, cells[a], cells[b], cells[sel])];
      constraints := constraints + [SelectGate(a, b, sel, h)];
    }

    /** `num_to_bits`: n new cells holding the low n bits of the value of x,
        least-significant first, and the decomposition constraint over them. */
    method NumToBits(x: nat, n: nat) returns (hs: seq<nat>)
      requires Valid() && x < |cells|
      modifies this
      ensures Valid()
      ensures cells == old(cells) + Bits.NumToBits(old(cells)[x], n)
      ensures |hs| == n && forall i :: 0 <= i < n ==> hs[i] == old(|cells|) + i
      ensures constraints == old(constraints) + [Decompose(x, hs)]
    {
      var bits := Bits.NumToBits(cells[x], n);
      var first := |cells|;
      hs := seq(n, i => first + i);
      cells := cells + bits;
      assert InRange(Decompose(x, hs), |cells|);
      constraints := constraints + [Decompose(x, hs)];
    }

    /** `constrain_equal`: a copy constraint between two cells. */
    method ConstrainEqual(a: nat, b: nat)
      requires Valid() && a < |cells| && b < |cells|
      modifies this
      ensures Valid()
      ensures cells == old(cells)
      ensures constraints == old(constraints) + [Equal(a, b)]
    {
      constraints := constraints + [Equal(a, b)];
    }
  }
}
