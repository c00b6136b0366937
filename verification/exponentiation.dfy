/** The exponentiation gadget `circuit` of src/lib.rs: it loads base, exp and
    res as witnesses, decomposes exp into max_bits bits, runs left-to-right
    square-and-multiply over them with a select gate per bit, and constrains
    the final accumulator equal to res. */
module Exponentiation {
  import opened Field
  import opened Bits
  import opened SquareAndMultiply
  import opened Session

  /** The gadget's input record: three field elements and a bit-width bound. */
  datatype CircuitInput = CircuitInput(base: nat, exp: nat, res: nat, maxBits: nat)

  /** The arithmetic claim the circuit proves: exp fits in maxBits bits and
      res is base^exp in the field. */
  predicate Accepts(p: nat, input: CircuitInput)
    requires p > 0
  {
    input.exp < Pow2(input.maxBits) && input.res == ModPow(p, input.base, input.exp)
  }

  /** The kind of a constraint, with its handles erased: the shape of the circuit. */
  datatype GateKind = MulKind | SelectKind | DecomposeKind | FixedKind | EqualKind

  function KindOf(c: Constraint): GateKind {
    match c
    case MulGate(_, _, _) => MulKind
    case SelectGate(_, _, _, _) => SelectKind
    case Decompose(_, _) => DecomposeKind
    case Fixed(_, _) => FixedKind
    case Equal(_, _) => EqualKind
  }

  function KindsOf(cs: seq<Constraint>): (ks: seq<GateKind>)
    ensures |ks| == |cs|
  {
    seq(|cs|, i requires 0 <= i < |cs| => KindOf(cs[i]))
  }

  /** The gates of one iteration: a product and a select for the first
      bit, a square, a product and a select for each later one. */
  function StepSchedule(index: nat): seq<GateKind> {
    if index == 0 then [MulKind, SelectKind] else [MulKind, MulKind, SelectKind]
  }

  /** The gates the loop adds for the top k bits. */
  function LoopSchedule(k: nat): seq<GateKind>
    decreases k
  {
    if k == 0 then [] else LoopSchedule(k - 1) + StepSchedule(k - 1)
  }

  /** Every constraint the circuit adds, in order, for maxBits = n. */
  function CircuitSchedule(n: nat): seq<GateKind> {
    [DecomposeKind, FixedKind] + LoopSchedule(n) + [EqualKind]
  }

  function Count(ks: seq<GateKind>, kind: GateKind): nat
    decreases |ks|
  {
    if ks == [] then 0 else (if ks[0] == kind then 1 else 0) + Count(ks[1..], kind)
  }

  lemma {:induction false} CountConcat(a: seq<GateKind>, b: seq<GateKind>, kind: GateKind)
    ensures Count(a + b, kind) == Count(a, kind) + Count(b, kind)
    decreases |a|
  {
    if a != [] {
      assert (a + b)[0] == a[0] && (a + b)[1..] == a[1..] + b;
      CountConcat(a[1..], b, kind);
    } else {
      assert a + b == b;
    }
  }

  /** The circuit's size depends on maxBits only: maxBits selects and
      2 * maxBits - 1 multiplications (none for maxBits = 0), one
      decomposition, one constant and one closing equality. */
  lemma {:induction false} ScheduleCounts(n: nat)
    ensures Count(CircuitSchedule(n), MulKind) == if n == 0 then 0 else 2 * n - 1
    ensures Count(CircuitSchedule(n), SelectKind) == n
    ensures Count(CircuitSchedule(n), DecomposeKind) == 1
    ensures Count(CircuitSchedule(n), FixedKind) == 1
    ensures Count(CircuitSchedule(n), EqualKind) == 1
  {
    LoopCounts(n);
    var head := [DecomposeKind, FixedKind];
    assert head[1..] == [FixedKind];
    forall kind: GateKind
      ensures Count(CircuitSchedule(n), kind)
        == Count(head, kind) + Count(LoopSchedule(n), kind) + Count([EqualKind], kind)
    {
      CountConcat(head, LoopSchedule(n), kind);
      CountConcat(head + LoopSchedule(n), [EqualKind], kind);
    }
  }

  lemma {:induction false} LoopCounts(k: nat)
    ensures Count(LoopSchedule(k), MulKind) == if k == 0 then 0 else 2 * k - 1
    ensures Count(LoopSchedule(k), SelectKind) == k
    ensures Count(LoopSchedule(k), DecomposeKind) == 0
    ensures Count(LoopSchedule(k), FixedKind) == 0
    ensures Count(LoopSchedule(k), EqualKind) == 0
    decreases k
  {
    if k > 0 {
      LoopCounts(k - 1);
      var tail := StepSchedule(k - 1);
      forall kind: GateKind
        ensures Count(LoopSchedule(k), kind) == Count(LoopSchedule(k - 1), kind) + Count(tail, kind)
      {
        CountConcat(LoopSchedule(k - 1), tail, kind);
      }
      assert [MulKind, SelectKind][1..] == [SelectKind];
      assert [MulKind, MulKind, SelectKind][1..] == [MulKind, SelectKind];
    }
  }

  /** The gadget. The session is satisfied afterwards exactly when it was
      before and the claim holds; the constraints it adds follow
      CircuitSchedule(maxBits) whatever the witness values. */
  method Circuit(ctx: Context, input: CircuitInput)
    requires ctx.Valid()
    requires input.base < ctx.p && input.exp < ctx.p && input.res < ctx.p
    modifies ctx
    ensures ctx.Valid()
    ensures old(|ctx.cells|) <= |ctx.cells| && ctx.cells[..old(|ctx.cells|)] == old(ctx.cells)
    ensures old(|ctx.constraints|) <= |ctx.constraints|
    ensures ctx.constraints[..old(|ctx.constraints|)] == old(ctx.constraints)
    ensures KindsOf(ctx.constraints[old(|ctx.constraints|)..]) == CircuitSchedule(input.maxBits)
    ensures ctx.Satisfied() <==> old(ctx.Satisfied()) && Accepts(ctx.p, input)
  {
    ghost var cells0, cs0 := ctx.cells, ctx.constraints;
    var base := ctx.LoadWitness(input.base);
    var exp := ctx.LoadWitness(input.exp);
    var res := ctx.LoadWitness(input.res);

    var bitsOfExponent := ctx.NumToBits(exp, input.maxBits);
    ghost var bitVals := Bits.NumToBits(input.exp, input.maxBits);
    ghost var cellsM, csM := ctx.cells, ctx.constraints;
    BitHandles(cells0 + [input.base] + [input.exp] + [input.res], bitVals, bitsOfExponent);

    var acc := RunSchedule(ctx, base, bitsOfExponent, bitVals);

    ghost var csL := ctx.constraints;
    ctx.ConstrainEqual(res, acc);
    CircuitOutcome(ctx.p, input, cells0, cs0, cellsM, csM, bitsOfExponent, ctx.cells, csL, acc, ctx.constraints);
  }

  /** The handles the decomposition returns name cells holding the bits. */
  lemma BitHandles(pre: seq<nat>, bitVals: seq<nat>, hs: seq<nat>)
    requires |hs| == |bitVals| && forall i :: 0 <= i < |hs| ==> hs[i] == |pre| + i
    ensures forall i :: 0 <= i < |hs| ==> hs[i] < |pre + bitVals| && (pre + bitVals)[hs[i]] == bitVals[i]
  {
  }

  lemma KindsOfConcat(a: seq<Constraint>, b: seq<Constraint>)
    ensures KindsOf(a + b) == KindsOf(a) + KindsOf(b)
  {
  }

  /** What the gadget leaves behind, over plain values: the loads, the
      decomposition, the loop state and the closing equality together give
      the circuit's shape and its satisfaction condition. */
  lemma CircuitOutcome(p: nat, input: CircuitInput, cells0: seq<nat>, cs0: seq<Constraint>,
                       cellsM: seq<nat>, csM: seq<Constraint>, hs: seq<nat>,
                       cells: seq<nat>, csL: seq<Constraint>, acc: nat, cs: seq<Constraint>)
    requires p > 1 && input.base < p && input.exp < p && input.res < p && AllInRange(cs0, |cells0|)
    requires cellsM == cells0 + [input.base] + [input.exp] + [input.res] + Bits.NumToBits(input.exp, input.maxBits)
    requires |hs| == input.maxBits && forall i :: 0 <= i < |hs| ==> hs[i] == |cells0| + 3 + i
    requires csM == cs0 + [Decompose(|cells0| + 1, hs)]
    requires LoopState(p, cells, csL, cellsM, csM, acc, (cells0 + [input.base])[|cells0|],
                       Bits.NumToBits(input.exp, input.maxBits), |hs|)
    requires cs == csL + [Equal(|cells0| + 2, acc)]
    ensures |cells0| <= |cells| && cells[..|cells0|] == cells0
    ensures |cs0| <= |cs| && cs[..|cs0|] == cs0
    ensures KindsOf(cs[|cs0|..]) == CircuitSchedule(input.maxBits)
    ensures AllHold(p, cells, cs) <==> AllHold(p, cells0, cs0) && Accepts(p, input)
  {
    var n, k0 := input.maxBits, |cs0|;
    var exp, res := |cells0| + 1, |cells0| + 2;
    assert (cells0 + [input.base])[|cells0|] == input.base;
    ClosingShape(cs0, csM, exp, hs, csL, res, acc, cs, n);
    assert cells[..|cells0|] == cells0 by {
      assert cells[..|cells0|] == cells[..|cellsM|][..|cells0|];
    }
    BitHandles(cells0 + [input.base] + [input.exp] + [input.res], Bits.NumToBits(input.exp, n), hs);
    Closing(p, input, cells0, cs0, cells, cs, cellsM, exp, res, acc, hs);
  }

  /** Lines 17-28 of the gadget: the accumulator starts at the constant 1 and
      is threaded through one square-and-multiply step per bit, from the most
      significant bit down. */
  method RunSchedule(ctx: Context, base: nat, bits: seq<nat>, ghost bitVals: seq<nat>) returns (acc: nat)
    requires ctx.Valid() && base < |ctx.cells| && |bits| == |bitVals| && AllBits(bitVals)
    requires forall i :: 0 <= i < |bits| ==> bits[i] < |ctx.cells| && ctx.cells[bits[i]] == bitVals[i]
    modifies ctx
    ensures ctx.Valid()
    ensures LoopState(ctx.p, ctx.cells, ctx.constraints, old(ctx.cells), old(ctx.constraints),
                      acc, old(ctx.cells[base]), bitVals, |bits|)
  {
    ghost var cells0, cs0 := ctx.cells, ctx.constraints;
    ghost var baseVal := ctx.cells[base];
    acc := ctx.LoadConstant(1);
    LoopStart(ctx.p, cells0, cs0, ctx.cells, ctx.constraints, acc, baseVal, bitVals);

    var index := 0;
    while index < |bits|
      invariant ctx.Valid() && index <= |bits|
      invariant LoopState(ctx.p, ctx.cells, ctx.constraints, cells0, cs0, acc, baseVal, bitVals, index)
    {
      var eachBit := bits[|bits| - 1 - index];
      acc := LoopIteration(ctx, acc, base, eachBit, index, cells0, cs0, baseVal, bitVals);
      index := index + 1;
    }
  }

  /** One pass of the loop body, which keeps the loop invariant one bit further. */
  method LoopIteration(ctx: Context, acc: nat, base: nat, eachBit: nat, index: nat,
                       ghost cells0: seq<nat>, ghost cs0: seq<Constraint>, ghost baseVal: nat, ghost bitVals: seq<nat>)
    returns (next: nat)
    requires ctx.Valid() && index < |bitVals|
    requires LoopState(ctx.p, ctx.cells, ctx.constraints, cells0, cs0, acc, baseVal, bitVals, index)
    requires base < |cells0| && cells0[base] == baseVal
    requires eachBit < |cells0| && cells0[eachBit] == bitVals[|bitVals| - 1 - index]
    modifies ctx
    ensures ctx.Valid()
    ensures LoopState(ctx.p, ctx.cells, ctx.constraints, cells0, cs0, next, baseVal, bitVals, index + 1)
  {
    ghost var vals, cs := ctx.cells, ctx.constraints;
    PrefixAt(cells0, vals, eachBit);
    next := SquareAndMultiplyStep(ctx, acc, base, eachBit, index);
    LoopStep(ctx.p, cells0, cs0, vals, cs, ctx.cells, ctx.constraints, acc, next, base, eachBit, baseVal, bitVals, index);
  }

  /** The invariant of the square-and-multiply loop, over plain values: the
      session has grown from (cells0, cs0), the accumulator handle holds the
      value after the top `index` bits, and the constraints added since have
      the loop's shape and all hold. */
  ghost predicate LoopState(p: nat, cells: seq<nat>, cs: seq<Constraint>, cells0: seq<nat>, cs0: seq<Constraint>,
                            acc: nat, baseVal: nat, bitVals: seq<nat>, index: nat)
  {
    && p > 1 && baseVal < p && AllBits(bitVals) && index <= |bitVals|
    && |cells0| <= |cells| && cells[..|cells0|] == cells0
    && acc < |cells| && cells[acc] == Accumulate(p, baseVal, bitVals, index)
    && |cs0| <= |cs| && cs[..|cs0|] == cs0
    && KindsOf(cs[|cs0|..]) == [FixedKind] + LoopSchedule(index)
    && AllHold(p, cells, cs[|cs0|..])
  }

  lemma PrefixAt(a: seq<nat>, b: seq<nat>, i: nat)
    requires |a| <= |b| && b[..|a|] == a && i < |a|
    ensures b[i] == a[i]
  {
    assert b[..|a|][i] == b[i];
  }

  /** The constant 1 loaded for the accumulator establishes the invariant. */
  lemma LoopStart(p: nat, cells0: seq<nat>, cs0: seq<Constraint>, cells: seq<nat>, cs: seq<Constraint>,
                  acc: nat, baseVal: nat, bitVals: seq<nat>)
    requires p > 1 && baseVal < p && AllBits(bitVals)
    requires acc == |cells0| && cells == cells0 + [1] && cs == cs0 + [Fixed(acc, 1)]
    ensures LoopState(p, cells, cs, cells0, cs0, acc, baseVal, bitVals, 0)
  {
    assert cells[..|cells0|] == cells0;
    assert cs[..|cs0|] == cs0;
    assert cs[|cs0|..] == [Fixed(acc, 1)];
  }

  /** One square-and-multiply step keeps the invariant, one bit further. */
  lemma LoopStep(p: nat, cells0: seq<nat>, cs0: seq<Constraint>, vals: seq<nat>, cs: seq<Constraint>,
                 vals': seq<nat>, cs': seq<Constraint>, acc: nat, acc': nat, base: nat, bit: nat,
                 baseVal: nat, bitVals: seq<nat>, index: nat)
    requires index < |bitVals| && AllInRange(cs, |vals|)
    requires LoopState(p, vals, cs, cells0, cs0, acc, baseVal, bitVals, index)
    requires base < |cells0| && cells0[base] == baseVal
    requires bit < |cells0| && cells0[bit] == bitVals[|bitVals| - 1 - index]
    requires forall i :: 0 <= i < |vals| ==> vals[i] < p
    requires acc' < |vals'| && vals'[acc'] == Step(p, vals[acc], vals[base], vals[bit], index)
    requires |vals| <= |vals'| && vals'[..|vals|] == vals
    requires |cs| <= |cs'| && cs'[..|cs|] == cs
    requires KindsOf(cs'[|cs|..]) == StepSchedule(index) && AllHold(p, vals', cs'[|cs|..])
    ensures LoopState(p, vals', cs', cells0, cs0, acc', baseVal, bitVals, index + 1)
  {
    PrefixAt(cells0, vals, base);
    PrefixAt(cells0, vals, bit);
    GatesAdded(p, vals, vals', cs, cs', |cs0|);
    assert vals'[..|cells0|] == cells0 by {
      assert vals'[..|cells0|] == vals'[..|vals|][..|cells0|];
    }
    assert cs'[..|cs0|] == cs0 by {
      assert cs'[..|cs0|] == cs'[..|cs|][..|cs0|];
    }
  }

  /** One iteration of the loop: square the accumulator (except at index 0),
      multiply it by the base, and select the product when the bit is 1. */
  method SquareAndMultiplyStep(ctx: Context, acc: nat, base: nat, bit: nat, index: nat) returns (next: nat)
    requires ctx.Valid() && acc < |ctx.cells| && base < |ctx.cells| && bit < |ctx.cells|
    requires ctx.cells[bit] <= 1
    modifies ctx
    ensures ctx.Valid()
    ensures |ctx.cells| > old(|ctx.cells|) && ctx.cells[..old(|ctx.cells|)] == old(ctx.cells)
    ensures next < |ctx.cells|
    ensures ctx.cells[next] == Step(ctx.p, old(ctx.cells[acc]), old(ctx.cells[base]), old(ctx.cells[bit]), index)
    ensures |ctx.constraints| >= old(|ctx.constraints|)
    ensures ctx.constraints[..old(|ctx.constraints|)] == old(ctx.constraints)
    ensures KindsOf(ctx.constraints[old(|ctx.constraints|)..]) == StepSchedule(index)
    ensures AllHold(ctx.p, ctx.cells, ctx.constraints[old(|ctx.constraints|)..])
  {
    ghost var cells0, cs0 := ctx.cells, ctx.constraints;
    next := acc;
    if index != 0 {
      next := ctx.Mul(next, next);
    }
    ghost var cells1 := ctx.cells;
    var product := ctx.Mul(next, base);
    next := ctx.Select(product, next, bit);
    ghost var added := ctx.constraints[|cs0|..];
    forall j | 0 <= j < |added| ensures Holds(ctx.p, ctx.cells, added[j]) {
      assert ctx.cells[..|cells1|] == cells1;
    }
  }

  /** Bookkeeping for one loop iteration: the constraints from position k
      on still all hold, the prefix before k is untouched, and the shape grows
      by the kinds of the new gates. */
  lemma GatesAdded(p: nat, vals: seq<nat>, vals': seq<nat>, cs: seq<Constraint>, cs': seq<Constraint>, k: nat)
    requires p > 0 && k <= |cs| && AllInRange(cs, |vals|)
    requires |vals| <= |vals'| && vals'[..|vals|] == vals
    requires |cs| <= |cs'| && cs'[..|cs|] == cs && AllHold(p, vals', cs'[|cs|..])
    requires AllHold(p, vals, cs[k..])
    ensures AllHold(p, vals', cs'[k..])
    ensures cs'[..k] == cs[..k]
    ensures KindsOf(cs'[k..]) == KindsOf(cs[k..]) + KindsOf(cs'[|cs|..])
  {
    assert cs'[k..] == cs[k..] + cs'[|cs|..];
    assert vals' == vals + vals'[|vals|..];
    assert AllInRange(cs[k..], |vals|) by {
      var tail := cs[k..];
      forall j | 0 <= j < |tail| ensures InRange(tail[j], |vals|) {
        assert tail[j] == cs[k + j];
      }
    }
    AllHoldGrow(p, vals, vals'[|vals|..], cs[k..]);
    AllHoldConcat(p, vals', cs[k..], cs'[|cs|..]);
  }

  /** The constraint list the gadget leaves: the earlier constraints, the
      decomposition, the loop's gates and the closing equality, in that order. */
  lemma ClosingShape(cs0: seq<Constraint>, csM: seq<Constraint>, exp: nat, hs: seq<nat>,
                     csL: seq<Constraint>, res: nat, acc: nat, cs: seq<Constraint>, n: nat)
    requires csM == cs0 + [Decompose(exp, hs)]
    requires |csM| <= |csL| && csL[..|csM|] == csM
    requires KindsOf(csL[|csM|..]) == [FixedKind] + LoopSchedule(n)
    requires cs == csL + [Equal(res, acc)]
    ensures |cs0| <= |cs| && cs[..|cs0|] == cs0
    ensures KindsOf(cs[|cs0|..]) == CircuitSchedule(n)
    ensures |cs| >= |cs0| + 2 && cs[..|cs0| + 1] == cs0 + [Decompose(exp, hs)]
    ensures cs[|cs| - 1] == Equal(res, acc) && cs[|cs0| + 1..|cs| - 1] == csL[|csM|..]
  {
    var k0, mid := |cs0|, csL[|csM|..];
    assert csL == csM + mid;
    assert cs == cs0 + [Decompose(exp, hs)] + mid + [Equal(res, acc)];
    assert cs[k0..] == [Decompose(exp, hs)] + mid + [Equal(res, acc)];
    KindsOfConcat([Decompose(exp, hs)] + mid, [Equal(res, acc)]);
    KindsOfConcat([Decompose(exp, hs)], mid);
  }

  /** The closing argument: with the square-and-multiply gates all holding,
      the session is satisfied exactly when it was before, the decomposition
      holds (exp fits in maxBits bits) and the closing equality holds (res is
      base^exp). */
  lemma Closing(p: nat, input: CircuitInput, cells0: seq<nat>, cs0: seq<Constraint>,
                cells: seq<nat>, cs: seq<Constraint>, cellsM: seq<nat>,
                exp: nat, res: nat, acc: nat, bits: seq<nat>)
    requires p > 1 && input.base < p && input.exp < p && input.res < p
    requires AllInRange(cs0, |cells0|)
    requires |cells0| <= |cellsM| <= |cells| && cells[..|cellsM|] == cellsM && cellsM[..|cells0|] == cells0
    requires exp < |cellsM| && cellsM[exp] == input.exp
    requires res < |cellsM| && cellsM[res] == input.res
    requires |bits| == input.maxBits
    requires forall i :: 0 <= i < |bits| ==>
      bits[i] < |cellsM| && cellsM[bits[i]] == Bits.NumToBits(input.exp, input.maxBits)[i]
    requires acc < |cells|
    requires cells[acc] == Accumulate(p, input.base, Bits.NumToBits(input.exp, input.maxBits), input.maxBits)
    requires |cs| >= |cs0| + 2 && cs[..|cs0| + 1] == cs0 + [Decompose(exp, bits)]
    requires cs[|cs| - 1] == Equal(res, acc)
    requires AllHold(p, cells, cs[|cs0| + 1..|cs| - 1])
    ensures AllHold(p, cells, cs) <==> AllHold(p, cells0, cs0) && Accepts(p, input)
  {
    var k0, n := |cs0|, input.maxBits;
    var bitVals := Bits.NumToBits(input.exp, n);
    var decompose, closing := Decompose(exp, bits), Equal(res, acc);
    SplitAtEnds(p, cells, cs0, decompose, cs, closing);

    // The decomposition constraint holds exactly when exp fits in n bits.
    var fits := input.exp < Pow2(n);
    assert Holds(p, cells, decompose) == fits by {
      assert cells[exp] == input.exp by { PrefixAt(cellsM, cells, exp); }
      forall i | 0 <= i < |bits| ensures cells[bits[i]] == bitVals[i] {
        PrefixAt(cellsM, cells, bits[i]);
      }
      assert ValuesAt(cells, bits) == bitVals;
      NumToBitsInField(p, input.exp, n);
    }

    // The closing equality holds exactly when res is base^(exp mod 2^n).
    assert Holds(p, cells, closing) == (input.res == ModPow(p, input.base, input.exp % Pow2(n))) by {
      PrefixAt(cellsM, cells, res);
      Correct(p, input.base, bitVals);
    }
    ModOfSmall(Pow2(n), input.exp);

    // The constraints that were there before see the same cells.
    assert cells == cells0 + cells[|cells0|..] by {
      assert cells[..|cells0|] == cells[..|cellsM|][..|cells0|];
    }
    AllHoldGrow(p, cells0, cells[|cells0|..], cs0);
  }

  /** A constraint list made of earlier constraints, one constraint, a middle
      part that holds, and a last constraint holds exactly when the earlier
      ones and the two single constraints hold. */
  lemma SplitAtEnds(p: nat, cells: seq<nat>, cs0: seq<Constraint>, first: Constraint, cs: seq<Constraint>, last: Constraint)
    requires p > 0
    requires |cs| >= |cs0| + 2 && cs[..|cs0| + 1] == cs0 + [first] && cs[|cs| - 1] == last
    requires AllHold(p, cells, cs[|cs0| + 1..|cs| - 1])
    ensures AllHold(p, cells, cs) == (AllHold(p, cells, cs0) && Holds(p, cells, first) && Holds(p, cells, last))
  {
    var mid := cs[|cs0| + 1..|cs| - 1];
    assert cs == cs0 + ([first] + (mid + [last])) by {
      assert cs == cs[..|cs0| + 1] + mid + [cs[|cs| - 1]];
    }
    AllHoldConcat(p, cells, cs0, [first] + (mid + [last]));
    AllHoldConcat(p, cells, [first], mid + [last]);
    AllHoldConcat(p, cells, mid, [last]);
    assert AllHold(p, cells, [first]) == Holds(p, cells, first) by {
      assert [first][0] == first;
    }
    assert AllHold(p, cells, [last]) == Holds(p, cells, last) by {
      assert [last][0] == last;
    }
  }
}
