# halo2-exp: a verified model of the field-exponentiation gadget

The repository defines one halo2-base gadget, `circuit`. It takes a
`CircuitInput` record (`base`, `exp`, `res` field elements and a bit width
`max_bits`) and works in three steps:

1. It loads the three field elements as witnesses.
2. It decomposes `exp` into `max_bits` bits, least-significant first.
3. It runs left-to-right square-and-multiply from the most significant bit down:
   - the accumulator starts at the constant 1;
   - squaring is skipped on the first iteration;
   - every bit forms the candidate `acc * base`;
   - a `select` gate keeps the candidate when the bit is 1.

Finally it constrains the accumulator equal to `res`. A test samples `base` and
`exp` below 2^253, computes `res` with `BigUint::modpow`, and expects the
circuit to be satisfied.

The model has six modules:

- `Field`: residues modulo `p > 1`, with `Mul` and `Select` as the two gates'
  value semantics, `Pow` and `ModPow`. Primality is never used.
- `Bits`: the LSB-first place value `BitsValue` and the honest decomposition
  witness `NumToBits`.
- `SquareAndMultiply`: the loop's value semantics.
  - `Step` is one iteration.
  - `Accumulate` is the accumulator after the top `k` bits.
  - `TextbookAccumulate` is the always-square variant.
- `Session`: the `Context` the gadget writes into, as a class. Its fields are
  the value of every allocated cell (the honest witness assignment, indexed by
  handle) and the list of recorded constraints. Each gate method both appends
  its output cell and records the constraint tying it to its inputs.
  `Satisfied()` holds when every recorded constraint holds of the cell values.
- `Exponentiation`: `CircuitInput`, the gadget `Circuit` as a method with its
  loop (`RunSchedule`, one `LoopIteration` and so one `SquareAndMultiplyStep` per bit), and the gate
  schedule it emits.
- `TestVector`: the repository's test, with the sampled numbers as parameters.

The headline result is `Exponentiation.Circuit`. Afterwards the session is
satisfied exactly when it was before and `Accepts(p, input)` holds, that is
`exp < 2^max_bits` and `res == base^exp mod p`. The kinds of the constraints it
adds are `CircuitSchedule(max_bits)` whatever the witness values are.

The decomposition constraint is a field equation: the bits are boolean and
their place-value sum equals `exp` modulo `p`.
The honest bits are the low `max_bits` bits of `exp`. Two consequences follow:

- With the honest bits, the constraint holds exactly when `exp < 2^max_bits`.
- When `exp + p < 2^max_bits`, other bits also satisfy it (see
  `OversizedDecompositionIsAmbiguous`).

## Model

| member | source | states |
|---|---|---|
| Exponentiation.CircuitInput | src/lib.rs:3-8 | the gadget's input record: base, exp and res as field values and the bit width max_bits |
| Field.Mul | src/lib.rs:21-24 | the mul gate's value a * b mod p, always a field element |
| Field.ModPow | src/lib.rs:58 | b^e reduced modulo p, always a field element (BigUint::modpow for a modulus > 0) |
| Field.Select | src/lib.rs:27 | the select gate's field value is a field element, and for a boolean selector it is the first input when the bit is 1 and the second when it is 0 |
| Bits.NumToBits | src/lib.rs:15 | the decomposition witness has exactly max_bits entries, all boolean, and their LSB-first value is exp reduced modulo 2^max_bits |
| Bits.NumToBitsExact | src/lib.rs:15 | the honest bits reconstruct exp exactly if and only if exp fits in max_bits bits |
| Bits.NumToBitsInField | src/lib.rs:15 | for a field element exp, the decomposition constraint (place-value sum equal to exp modulo p) holds of the honest bits if and only if exp < 2^max_bits |
| Bits.BitsValueBound | src/lib.rs:15 | n boolean bits never encode a value of 2^n or more |
| Bits.DecompositionUnique | src/lib.rs:15 | two boolean sequences of one length with equal value are equal |
| Bits.FieldDecompositionUnique | src/lib.rs:15 | when 2^max_bits <= p, bits satisfying the decomposition constraint modulo p are unique, so the circuit's bits are the honest ones |
| Bits.ZeroBits | src/lib.rs:15 | an all-zero decomposition has value 0, and value 0 has only the all-zero decomposition |
| SquareAndMultiply.Step | src/lib.rs:19-27 | one iteration: square the accumulator unless index is 0, then a 1 bit yields square times base and a 0 bit yields the square unchanged |
| SquareAndMultiply.Accumulate | src/lib.rs:17-28 | the accumulator after the top k bits, starting from the constant 1 and applying Step per bit; always a field element (its meaning is proved by AccumulateIsPow) |
| SquareAndMultiply.AccumulateIsPow | src/lib.rs:17-28 | after the top k bits, MSB first, the accumulator is base raised to the value of those k bits, modulo p |
| SquareAndMultiply.Correct | src/lib.rs:15-28 | after all max_bits bits the accumulator is base^(value of the bits) mod p |
| SquareAndMultiply.SkipFirstSquareAgrees | src/lib.rs:17-22 | skipping the square at index 0 gives, after every prefix, the same accumulator as squaring there |
| SquareAndMultiply.ZeroExponentGivesOne | src/lib.rs:17-27 | all-zero bits leave the accumulator at 1 for every base, 0 included |
| SquareAndMultiply.OversizedDecompositionIsAmbiguous | src/lib.rs:15-28 | bits whose value is exp + p also satisfy the decomposition constraint for exp, and drive the loop to base^(exp + p) instead of base^exp |
| SquareAndMultiply.OversizedDecompositionExample | src/lib.rs:15-28 | an instance with p = 3 and two bits where the forged bits give 2 in place of 2^0 = 1 |
| Session.Context.Satisfied | src/lib.rs:60-62 | the session is satisfied when every recorded constraint holds of the assigned cell values, which is what the test runner's expect_satisfied(true) checks |
| Session.Context.LoadWitness | src/lib.rs:11-13 | a new cell holding the value, at the next handle, with no constraint added |
| Session.Context.LoadConstant | src/lib.rs:17 | a new cell holding the constant, and a constraint fixing it |
| Session.Context.NumToBits | src/lib.rs:15 | max_bits new consecutive cells holding the honest bits of the value of exp, and one decomposition constraint over them |
| Session.Context.Mul | src/lib.rs:21-24 | a new cell holding the field product of the two inputs, and a multiplication constraint |
| Session.Context.Select | src/lib.rs:27 | a new cell holding the select value, and a select constraint |
| Session.Context.ConstrainEqual | src/lib.rs:30 | no new cell, and one equality constraint between the two handles |
| Exponentiation.SquareAndMultiplyStep | src/lib.rs:19-27 | the loop body adds a square (except at index 0), a product and a select, whose output cell holds Step of the old values; the gates it adds hold and the earlier cells and constraints are kept |
| Exponentiation.LoopStart | src/lib.rs:17 | the constant-1 accumulator establishes the loop invariant for zero bits |
| Exponentiation.LoopStep | src/lib.rs:18-28 | one step preserves the loop invariant and advances it by one bit |
| Exponentiation.LoopIteration | src/lib.rs:18-28 | one pass of the loop body on the session: the loop invariant at index holds again at index + 1, with the new accumulator handle |
| Exponentiation.RunSchedule | src/lib.rs:17-28 | after the loop, the accumulator cell holds Accumulate over all bits, the added constraints have kinds [Fixed] + LoopSchedule(max_bits) and all hold, and earlier cells and constraints are kept |
| Exponentiation.ClosingShape | src/lib.rs:15-30 | the gadget's constraints are the earlier ones, then the decomposition, the loop's gates and the closing equality, and their kinds are CircuitSchedule(max_bits) |
| Exponentiation.Closing | src/lib.rs:30 | with the loop's gates holding, the session is satisfied if and only if it was before, exp fits in max_bits bits and res == base^exp mod p |
| Exponentiation.CircuitOutcome | src/lib.rs:10-31 | the state the gadget's calls leave gives its shape, its frame and its satisfaction condition |
| Exponentiation.Circuit | src/lib.rs:10-31 | satisfied afterwards if and only if satisfied before and Accepts(p, input); earlier cells and constraints are kept; the kinds of the added constraints are CircuitSchedule(max_bits) whatever the values |
| Exponentiation.ScheduleCounts | src/lib.rs:18-28 | the circuit has max_bits selects and 2 * max_bits - 1 multiplications (none for max_bits = 0), one decomposition, one constant and one equality |
| Exponentiation.LoopCounts | src/lib.rs:18-28 | the loop alone has max_bits selects and 2 * max_bits - 1 multiplications, and no other gates |
| TestVector.TestModulusIsNotR | src/lib.rs:51-54 | the modulus literal differs from (and exceeds) the BN254 scalar-field modulus r; with the duplicated digit removed it is r |
| TestVector.SampledValuesFit | src/lib.rs:56-57 | 2^253 is below r, so every sampled base and exp is already a field element |
| TestVector.RunTest | src/lib.rs:47-72 | the test's circuit over BN254's scalar field is satisfied if and only if the test's modpow equals base^exp mod r |
| TestVector.AsWrittenTestFails | src/lib.rs:51-58 | as written, base = 591787027527157276022922768683985038439 and exp = 2 give a res below r that is not base^2 mod r, so the test's circuit is unsatisfied |
| TestVector.AsWrittenTestRun | src/lib.rs:47-72 | the test as written, run on base = 591787027527157276022922768683985038439 and exp = 2, leaves its circuit unsatisfied |
| TestVector.CorrectedTestRun | src/lib.rs:47-72 | the test with r as the modulus leaves its circuit satisfied for every base and exp below 2^253 |
| TestVector.CorrectedTestPasses | src/lib.rs:56-71 | with r as the modulus, every base and exp below 2^253 give an input the circuit accepts |

## Left out

- Halo2's constraint-system internals (gate layout, advice columns, copy-constraint permutation, proof generation and verification) are not modelled. `Context` keeps only cell values and the list of constraints.
- `GateChip` is stateless. Its `mul`, `select` and `num_to_bits` are modelled as methods of `Context`, the object they write into.
- How halo2-base's `num_to_bits` enforces booleanity and the place-value sum with its own gates is not modelled. It is one `Decompose` constraint with exactly that meaning.
- The model follows the honest witness generator only: `cells` are the values halo2-base assigns. `FieldDecompositionUnique` and `OversizedDecompositionIsAmbiguous` cover when other bit assignments could satisfy the decomposition. Other malicious assignments are not modelled.
- `BigPrimeField` and the concrete `Fr` representation (Montgomery form, 256-bit limbs) are not modelled. The field is the integers modulo `p`; primality is not needed and not assumed.
- `max_bits` is a `usize` in the source and a `nat` here. The circuit-size bound of the test runner (`k(15)`) is not modelled.
- TestVector.RunTest: requires the test's `res` to be below r, because how `Fr::from_bytes_le` treats a larger value is not part of this model. For values below r the model takes the conversion to be the identity, which is how it reads every sampled `base` and `exp`.
- The test's random sampling (`thread_rng`, `RandomBits`) becomes parameters. The `base_test` runner becomes `RunTest`, which builds a fresh session over BN254's r and runs the gadget.
- Field.Mul and Field.ModPow: their contracts state only that the result is a field element. Their meaning is their definition, `a * b mod p` and `b^e mod p`, and the lemmas about them (`ModPowDouble`, `ModPowSucc`, `ModPowZero`) carry the properties the loop needs.

## Findings

| source | as written | input that shows it | evidently intended | confidence | as-written member | corrected member |
|---|---|---|---|---|---|---|
| src/lib.rs:51-54 | the "BN254 modulus" literal has 65 hexadecimal digits ("…28333e84…"); it is a 258-bit number, not r | base = 591787027527157276022922768683985038439, exp = 2: modpow returns 55092026338654362401860468395676016, which is below r but is not base^2 mod r, so the circuit is unsatisfied where the test expects it satisfied | the BN254 scalar-field modulus r = 0x30644e72…2833e84…0000001, so that res is base^exp in Fr for every sampled pair | not executed | TestVector.AsWrittenTestRun | TestVector.CorrectedTestRun |
