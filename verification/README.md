# A Dafny model of the MindQuantum front end

This project models the exact, sequential parts of MindQuantum that surround
its native simulator. It does not model the simulator itself.

- **Qubit-operator terms.** The term policy of the C++ `QubitOperator`:
  - the local-operator letters and the `term`/`terms` grammar;
  - `to_string` and `hermitian`;
  - `parse_terms_string`, which returns the empty list on failure.
- **The C++ operator table.** `count_gates` with its 64-bit accumulator
  narrowed to 32 bits, and the guards and Kronecker structure of
  `QubitOperator::matrix`.
- **The Python `QubitOperator`.** Its `__str__` and `count_gates`, and the
  Pauli algebra the operator tests fix:
  - the single-qubit product table, with phases as powers of i;
  - the qubit-by-qubit product of Pauli strings;
  - merging of equal strings regardless of written order;
  - scaling, `subs`, and summing the iterated terms.
- **Gates (`mindquantum/gate/basic.py`).**
  - Qubit-id checks, `on`, descriptions and coefficient normalisation.
  - Equality and `linearcombination`.
  - The hermitian of a one-parameter gate.
  - Angle and `about_what` resolution in `matrix`/`diff_matrix`.
- **`Hamiltonian`.**
  - Constructor validation and the ORIGIN/BACKEND/FRONTEND modes.
  - The one-way `sparse` switch.
  - The two lazily built simulator objects of `get_cpp_obj`, including
    the fact that `sparse` does not clear an object already built.
- **The ProjectQ simulator front end.**
  - The guards of `apply_gate`, `apply_circuit`, `set_qs` and `sampling`.
  - How `get_expectation_with_grad` configures a gradient request:
    parameter-name merging, the encoder/ansatz conflict check, mode
    selection, `grad_ops` arity and slicing of the result rows.
- **`StronglyEntangling`.** Constructor checks and the gate layout of
  `_implement`.

Conventions:

- Numbers are exact.
  - Coefficients are complex numbers over `real`.
  - A ParameterResolver is a constant plus an insertion-ordered map from
    names to weights.
  - A Python dict is an association list (module `AssocList`).
- Matrix entries of Pauli products are kept symbolic: zero, or a power of i.
- Functions that return a `Result` give the Python exception kind as the
  error.
- Printing of ParameterResolvers (`expression()`) and of rounded floats
  (`round(x, 3)`) is not shown in the source, so the model takes it as a
  function parameter.

Modules, in dependency order:

- Shared helpers: `Wrappers`, `Text`, `AssocList`, `ComplexNum`, `Bits`.
- Qubit operators: `TermPolicy`, `PauliAlgebra`, `QubitOperators`,
  `OperatorMatrix`, `QubitOperatorExamples`, `OperatorString`.
- The rest: `Gates`, `HamiltonianWrapper`, `ProjectqSim`,
  `StronglyEntangling`.

## Model

| member | source | states |
|---|---|---|
| TermPolicy.OpFromChar | ccsrc/lib/experimental/ops/gates/details/qubit_operator_term_policy.cpp:43-47 | a character is a local operator exactly when it is one of X x Y y Z z; I is never produced |
| TermPolicy.UpperCharPreserves | ccsrc/lib/experimental/ops/gates/details/qubit_operator_term_policy.cpp:45-46 | the letter table is case-insensitive: upper-casing a character does not change which operator it denotes, nor whether it is a digit or a blank |
| TermPolicy.OpToString | ccsrc/lib/experimental/ops/gates/details/qubit_operator_term_policy.cpp:98-100 | an operator prints as a single letter |
| TermPolicy.TermToString | ccsrc/lib/experimental/ops/gates/details/qubit_operator_term_policy.cpp:98-100 | a local operator prints as its letter followed by its decimal qubit index |
| TermPolicy.Hermitian | ccsrc/lib/experimental/ops/gates/details/qubit_operator_term_policy.cpp:90-92 | the conjugate of a local Pauli operator is itself |
| TermPolicy.HermitianTerms | ccsrc/lib/experimental/ops/gates/details/qubit_operator_term_policy.cpp:94-96 | the conjugate of a Pauli product is returned unchanged |
| TermPolicy.SkipSpaces | ccsrc/lib/experimental/ops/gates/details/qubit_operator_term_policy.cpp:104-105 | the skipper leaves a suffix that does not start with a blank |
| TermPolicy.SkipSpacesIdempotent | ccsrc/lib/experimental/ops/gates/details/qubit_operator_term_policy.cpp:104-105 | skipping blanks twice is skipping them once |
| TermPolicy.ParseTerm | ccsrc/lib/experimental/ops/gates/details/qubit_operator_term_policy.cpp:57-60 | a term consumes input, yields a Pauli on a 32-bit index, and its operator is the one the first letter denotes |
| TermPolicy.ParseTermsRest | ccsrc/lib/experimental/ops/gates/details/qubit_operator_term_policy.cpp:64-67 | an accepted terms string yields a non-empty list of Pauli terms |
| TermPolicy.ParseTermsLast | ccsrc/lib/experimental/ops/gates/details/qubit_operator_term_policy.cpp:67 | a term followed only by blanks ends the list |
| TermPolicy.ParseTermsStep | ccsrc/lib/experimental/ops/gates/details/qubit_operator_term_policy.cpp:67 | a term followed by more input is prepended to the terms parsed from the rest, in input order |
| TermPolicy.ParseTermsString | ccsrc/lib/experimental/ops/gates/details/qubit_operator_term_policy.cpp:102-110 | the result is the empty list exactly when the parse fails, and otherwise the parsed list |
| TermPolicy.TermStrings | ccsrc/lib/experimental/ops/gates/details/qubit_operator_term_policy.cpp:98-100 | each term prints as its letter followed by its index, position by position |
| TermPolicy.ParseTermPrinted | ccsrc/lib/experimental/ops/gates/details/qubit_operator_term_policy.cpp:57-60 | the term rule applied to a printed term stops right after its digits and gives the term back |
| TermPolicy.ParseTermsSkip | ccsrc/lib/experimental/ops/gates/details/qubit_operator_term_policy.cpp:104-105 | leading blanks do not change the parse |
| TermPolicy.ParsePrintedTerms | ccsrc/lib/experimental/ops/gates/details/qubit_operator_term_policy.cpp:98-110 | parsing the space-joined printed terms gives back the same list, in the same order |
| TermPolicy.PrintedStartsWithLetter | ccsrc/lib/experimental/ops/gates/details/qubit_operator_term_policy.cpp:98-100 | a printed term list starts with an operator letter, not a blank |
| TermPolicy.ParseSingleTerm | ccsrc/lib/experimental/ops/gates/details/qubit_operator_term_policy.cpp:98-110 | `parse_terms_string(to_string(t))` is `[t]` for every Pauli term |
| TermPolicy.ParseTermUpper | ccsrc/lib/experimental/ops/gates/details/qubit_operator_term_policy.cpp:57-60 | the term rule reads an upper-cased input as the original, with the rest upper-cased |
| TermPolicy.ParseCaseInsensitive | ccsrc/lib/experimental/ops/gates/details/qubit_operator_term_policy.cpp:43-47 | every input parses exactly as its upper-cased form |
| TermPolicy.RejectedStrings | ccsrc/lib/experimental/ops/gates/details/qubit_operator_term_policy.cpp:64-67 | `X1 YY`, `X 1`, `I0`, the empty string and blanks are rejected, and a rejected string gives the same empty list as the empty string |
| TermPolicy.IndexOverflowRejected | ccsrc/lib/experimental/ops/gates/details/qubit_operator_term_policy.cpp:58 | an index of 2^32 fails the unsigned parser and with it the whole string; 2^32-1 is accepted |
| TermPolicy.AcceptedAdjacentTerms | ccsrc/lib/experimental/ops/gates/details/qubit_operator_term_policy.cpp:67 | `X1Y2` is two terms in input order: no blank is needed between terms |
| TermPolicy.AcceptedDuplicateTerms | ccsrc/lib/experimental/ops/gates/details/qubit_operator_term_policy.cpp:67 | the parser neither merges nor sorts: `X3 x3` gives two equal terms |
| TermPolicy.AcceptedLowerCase | tests/st/test_core/test_operators/test_qubit_ops.py:41-43 | `Z1 z2` parses as `Z1 Z2` |
| TermPolicy.AcceptedLeadingZeros | ccsrc/lib/experimental/ops/gates/details/qubit_operator_term_policy.cpp:58 | `X007` is X on qubit 7 |
| PauliAlgebra.OpMul | tests/st/test_core/test_operators/test_qubit_ops.py:34-39 | the product of two local operators: I is neutral, a Pauli squares to I, and two different Paulis give the third one with a phase below 4 |
| PauliAlgebra.OpMulMatchesMatrices | tests/st/test_core/test_operators/test_qubit_ops.py:34-39 | the product table agrees with the 2×2 Pauli matrices entry by entry: the matrix of a·b is i^phase times the matrix of the resulting operator |
| PauliAlgebra.PauliMatrices | ccsrc/lib/experimental/ops/gates/qubit_operator.cpp:78-83 | the four exact 2×2 matrices I, X, Y, Z |
| PauliAlgebra.TermMul | tests/st/test_core/test_operators/test_qubit_ops.py:45-48 | the product of two canonical Pauli strings is canonical, has a phase below 4, and only touches qubits of its factors |
| PauliAlgebra.TermMulQubitwise | tests/st/test_core/test_operators/test_qubit_ops.py:45-48 | on every qubit the product carries the single-qubit product of the two factors' operators there |
| PauliAlgebra.TermMulPhase | tests/st/test_core/test_operators/test_qubit_ops.py:45-48 | the phase of a product of two canonical strings is, modulo 4, the sum over the qubits below any bound of both supports of the phase the single-qubit table gives for the two operators on that qubit (so Z1 Z2 times X1 X2 has phase 1 + 1 = 2) |
| PauliAlgebra.CanonicalExtensional | tests/st/test_core/test_operators/test_qubit_ops.py:95-99 | two canonical strings that agree on every qubit are equal |
| PauliAlgebra.TermMulSelf | tests/st/test_core/test_operators/test_qubit_ops.py:59-61 | a Pauli string times itself is the identity with phase 0 |
| PauliAlgebra.HermitianIsInverse | ccsrc/lib/experimental/ops/gates/details/qubit_operator_term_policy.cpp:90-96 | the policy's hermitian, which returns its argument, is the inverse of every Pauli string |
| PauliAlgebra.TermMulDisjoint | tests/st/test_core/test_operators/test_qubit_ops.py:32-33 | strings on disjoint qubits multiply without a phase |
| PauliAlgebra.Normalize | tests/st/test_core/test_operators/test_qubit_ops.py:98-99 | a written list of local operators reduces to a canonical string with a phase below 4 |
| PauliAlgebra.NormalizeQubitwise | tests/st/test_core/test_operators/test_qubit_ops.py:98-99 | on every qubit the normal form carries the product, in written order, of the operators written on that qubit |
| PauliAlgebra.NormalizePhase | tests/st/test_core/test_operators/test_qubit_ops.py:32-37 | the phase of a normal form is, modulo 4, the sum over the qubits of the phases collected when the operators written on that qubit are multiplied out in written order (so X1 Y1 gives i·Z1) |
| PauliAlgebra.NormalizeSupport | tests/st/test_core/test_operators/test_qubit_ops.py:98-99 | every qubit of the normal form is written in the list |
| PauliAlgebra.NormalizeDistinctPhase | tests/st/test_core/test_operators/test_qubit_ops.py:98-99 | a list that names each qubit at most once normalises without a phase |
| PauliAlgebra.NormalizeOrderIndependent | tests/st/test_core/test_operators/test_qubit_ops.py:95-99 | two lists with the same operator on each of their distinct qubits normalise to the same string: written order does not matter |
| PauliAlgebra.NormalizeCanonical | tests/st/test_core/test_operators/test_qubit_ops.py:32-33 | a canonical string is its own normal form |
| PauliAlgebra.NormalizeToCanonical | tests/st/test_core/test_operators/test_qubit_ops.py:95-99 | a list naming each qubit at most once, holding the same local operators as a canonical string, normalises to that string with phase 0 |
| PauliAlgebra.SingleQubitProducts | tests/st/test_core/test_operators/test_qubit_ops.py:34-39 | X·Y = iZ, Y·Z = iX, Z·X = iY |
| PauliAlgebra.TwoQubitProduct | tests/st/test_core/test_operators/test_qubit_ops.py:45-48 | (Z1 Z2)·(X1 X2) = −Y1 Y2 |
| PauliAlgebra.WrittenOrderIgnored | tests/st/test_core/test_operators/test_qubit_ops.py:98-99 | `Z2 Z1` is stored as `Z1 Z2` |
| QubitOperators.CoeffAdd | tests/st/test_core/test_operators/test_qubit_ops.py:98-99 | the sum of two ParameterResolvers is well formed |
| QubitOperators.CoeffAddWeights | tests/st/test_core/test_operators/test_qubit_ops.py:98-99 | in a sum, each parameter's weight is the sum of its weights in the two operands |
| QubitOperators.CoeffScale | tests/st/test_core/test_operators/test_qubit_ops.py:50-57 | scaling a resolver keeps its parameter names |
| QubitOperators.ScaleVarsAt | tests/st/test_core/test_operators/test_qubit_ops.py:101-103 | scaling multiplies each weight by the factor, position by position |
| QubitOperators.CoeffRotate | tests/st/test_core/test_operators/test_qubit_ops.py:34-39 | multiplying by i^p rotates the constant and every weight by p quarter turns, keeping the names in order and well-formedness |
| QubitOperators.CoeffRotateIsScale | tests/st/test_core/test_operators/test_qubit_ops.py:34-39 | rotating by p is the same as scaling the resolver by the number i^p |
| QubitOperators.CoeffMul | tests/st/test_core/test_operators/test_qubit_ops.py:105-108 | two resolvers multiply exactly when one of them is constant, and the product scales the other by that constant |
| QubitOperators.CoeffSubs | tests/st/test_core/test_operators/test_qubit_ops.py:142-144 | after `subs` the constant is the old constant plus the sum of weight times value over the parameters given a value, and the parameters left are exactly those without a value, in order |
| QubitOperators.CoeffSubsComplete | tests/st/test_core/test_operators/test_qubit_ops.py:142-144 | a resolver whose parameters all get values becomes the number: constant plus the sum of weight times value |
| QubitOperators.CoeffSubsNothing | tests/st/test_core/test_operators/test_qubit_ops.py:142-144 | substituting nothing changes nothing |
| QubitOperators.FromString | tests/st/test_core/test_operators/test_qubit_ops.py:41-43 | the constructor makes a single term with a canonical string |
| QubitOperators.FromPrinted | tests/st/test_core/test_operators/test_qubit_ops.py:98-99 | constructing from a printed list stores its normal form, with the coefficient rotated by the normal form's phase |
| QubitOperators.Plus | tests/st/test_core/test_operators/test_qubit_ops.py:95-99 | addition keeps the keys unique |
| QubitOperators.PlusGet | tests/st/test_core/test_operators/test_qubit_ops.py:95-99 | in a sum, each string carries the sum of its coefficients in the two operands |
| QubitOperators.PlusWf | tests/st/test_core/test_operators/test_qubit_ops.py:32-33 | sums of well-formed operators are well formed |
| QubitOperators.Scaled | tests/st/test_core/test_operators/test_qubit_ops.py:50-57 | scaling keeps the set of strings |
| QubitOperators.ScaledGet | tests/st/test_core/test_operators/test_qubit_ops.py:50-57 | scaling multiplies each coefficient by the factor |
| QubitOperators.DividedBy | tests/st/test_core/test_operators/test_qubit_ops.py:56-57 | division by a non-zero real x is scaling by 1/x |
| QubitOperators.Negated | tests/st/test_core/test_operators/test_qubit_ops.py:83-84 | unary minus is scaling by -1 |
| QubitOperators.Minus | tests/st/test_core/test_operators/test_qubit_ops.py:152-154 | subtraction adds the negated right operand |
| QubitOperators.TermTimes | tests/st/test_core/test_operators/test_qubit_ops.py:45-48 | one term times an operator is defined exactly when each coefficient pair has a plain number on one side, and then has unique keys |
| QubitOperators.Times | tests/st/test_core/test_operators/test_qubit_ops.py:66-74 | the product is defined exactly when every coefficient pair has a plain number on one side, and then has unique keys |
| QubitOperators.TermTimesGet | tests/st/test_core/test_operators/test_qubit_ops.py:66-74 | the coefficient of one term times an operator at each string sums the contributions of the pairs whose Pauli product is that string |
| QubitOperators.TimesGet | tests/st/test_core/test_operators/test_qubit_ops.py:66-74 | the coefficient of a product at each string is the sum, over the pairs of terms whose Pauli product is that string, of the coefficient product times the phase of the Pauli product |
| QubitOperators.TimesSingle | tests/st/test_core/test_operators/test_qubit_ops.py:45-48 | a single term times a single term is the Pauli product's string, with the coefficient product rotated by its phase |
| QubitOperators.TimesSelf | tests/st/test_core/test_operators/test_qubit_ops.py:59-61 | a Pauli string with coefficient 1 squares to the identity with coefficient 1 |
| QubitOperators.ScaledBy | tests/st/test_core/test_operators/test_qubit_ops.py:101-103 | multiplying by a resolver is the product with the identity term carrying that resolver |
| QubitOperators.Subs | tests/st/test_core/test_operators/test_qubit_ops.py:142-144 | `subs` keeps the strings |
| QubitOperators.SubsGet | tests/st/test_core/test_operators/test_qubit_ops.py:142-144 | `subs` substitutes into each string's coefficient |
| QubitOperators.Singles | tests/st/test_core/test_operators/test_qubit_ops.py:162-163 | iteration gives one single-term operator per term, in stored order |
| QubitOperators.SumOfSingles | tests/st/test_core/test_operators/test_qubit_ops.py:162-163 | summing the iterated terms gives the operator back |
| QubitOperators.SumOfSinglesPrefix | tests/st/test_core/test_operators/test_qubit_ops.py:162-163 | summing the first n iterated terms gives the first n terms |
| QubitOperators.SumOps | tests/st/test_core/test_operators/test_qubit_ops.py:162-163 | `sum` adds the operators one by one, starting from the operator with no terms |
| QubitOperators.OpEq | tests/st/test_core/test_operators/test_qubit_ops.py:134 | two operators are equal when they have the same strings with equal coefficients, in any order |
| QubitOperators.OpEqRefl | tests/st/test_core/test_operators/test_qubit_ops.py:134 | operator equality is reflexive on well-formed operators |
| OperatorMatrix.CountGates | ccsrc/lib/experimental/ops/gates/qubit_operator.cpp:59-64 | the count is the total number of local operators over all terms, taken modulo 2^32 after a 64-bit accumulation, and exactly the total when that is below 2^32 |
| OperatorMatrix.GateTotalConcat | ccsrc/lib/experimental/ops/gates/qubit_operator.cpp:60-63 | the gate counts of two term tables add up |
| OperatorMatrix.WrapAdd | ccsrc/lib/experimental/ops/gates/qubit_operator.cpp:60-63 | wrapping a 64-bit counter after every step equals wrapping once at the end |
| OperatorMatrix.Truncate | ccsrc/lib/experimental/ops/gates/qubit_operator.cpp:59 | narrowing the 64-bit counter to 32 bits keeps the low 32 bits |
| OperatorMatrix.TermTargets | ccsrc/lib/experimental/ops/gates/qubit_operator.cpp:89-90 | a term's qubit count is one past its largest index (0 for the identity) |
| OperatorMatrix.NumTargets | ccsrc/lib/experimental/ops/gates/qubit_operator.cpp:89-90 | an operator's qubit count is the largest qubit count of its terms |
| OperatorMatrix.Factors | ccsrc/lib/experimental/ops/gates/qubit_operator.cpp:115-119 | the factor list has length n and holds the listed operator at each listed index and I elsewhere |
| OperatorMatrix.FactorsCanonical | ccsrc/lib/experimental/ops/gates/qubit_operator.cpp:115-119 | for a canonical string, slot q of the factor list is the string's operator on qubit q |
| OperatorMatrix.KronIsBitwise | ccsrc/lib/experimental/ops/gates/qubit_operator.cpp:121-125 | entry (r, c) of the Kronecker fold is the product over q of the factor-q entry at bit q of r and bit q of c: qubit 0 is the least significant bit |
| OperatorMatrix.KronEntry | ccsrc/lib/experimental/ops/gates/qubit_operator.cpp:121-125 | entry (r, c) of `init = kron(matrix, init)` folded over the factors, the factor folded last choosing the top bit |
| OperatorMatrix.BitwiseLowBits | ccsrc/lib/experimental/ops/gates/qubit_operator.cpp:121-125 | the bitwise product over the first k qubits depends only on the first k factors and on the low k bits of the indices |
| OperatorMatrix.KronIdentity | ccsrc/lib/experimental/ops/gates/qubit_operator.cpp:106-112 | a fold of n identity factors is the 2^n identity matrix |
| OperatorMatrix.ProcessTerm | ccsrc/lib/experimental/ops/gates/qubit_operator.cpp:106-126 | each term gives a well-formed matrix over n qubits |
| OperatorMatrix.ToMatrix | ccsrc/lib/experimental/ops/gates/qubit_operator.cpp:85-135 | no matrix exactly for an empty operator, for an identity-only operator without `n_qubits`, or for an `n_qubits` below the operator's own count; otherwise 2^n square with n as given or the operator's own count, one part per term carrying its coefficient, and a scaled identity exactly for an empty term |
| OperatorMatrix.IdentityShortcut | ccsrc/lib/experimental/ops/gates/qubit_operator.cpp:106-112 | the scaled identity returned for an empty term equals folding n identity factors |
| OperatorMatrix.TermEntry | ccsrc/lib/experimental/ops/gates/qubit_operator.cpp:115-125 | an entry of a term's matrix is its coefficient times the bitwise product of the string's operators |
| OperatorMatrix.MatrixEntryConcat | ccsrc/lib/experimental/ops/gates/qubit_operator.cpp:128-135 | the matrix of a term table is the entrywise sum of the matrices of its parts |
| OperatorMatrix.MatrixEntry | ccsrc/lib/experimental/ops/gates/qubit_operator.cpp:128-135 | an entry of the operator matrix is the sum of the entries of the term matrices |
| OperatorMatrix.MatrixGuardExamples | ccsrc/lib/experimental/ops/gates/qubit_operator.cpp:85-104 | an empty operator gives no matrix; the identity needs an explicit qubit count; `Z3` refuses 3 qubits and defaults to 4 |
| OperatorMatrix.CountGatesExample | mindquantum/experimental/ops/qubit_operator.py:113-116 | `X0 Y1 + X2 Z3` has four local operators |
| QubitOperatorExamples.XTimesY | tests/st/test_core/test_operators/test_qubit_ops.py:34-35 | `X1 * Y1` is `(1j) [Z1]` |
| QubitOperatorExamples.YTimesZ | tests/st/test_core/test_operators/test_qubit_ops.py:36-37 | `Y1 * Z1` is `(1j) [X1]` |
| QubitOperatorExamples.ZTimesX | tests/st/test_core/test_operators/test_qubit_ops.py:38-39 | `Z1 * X1` is `(1j) [Y1]` |
| QubitOperatorExamples.UnitProduct | tests/st/test_core/test_operators/test_qubit_ops.py:34-39 | two different Paulis on one qubit multiply to the third one with coefficient i^phase |
| QubitOperatorExamples.FromZ1z2 | tests/st/test_core/test_operators/test_qubit_ops.py:41-43 | `QubitOperator('Z1 z2')` is `1 [Z1 Z2]` |
| QubitOperatorExamples.TwoQubitTimes | tests/st/test_core/test_operators/test_qubit_ops.py:45-48 | `Z1 z2 * X1 X2` is `-1 [Y1 Y2]` |
| QubitOperatorExamples.ScaleChain | tests/st/test_core/test_operators/test_qubit_ops.py:50-57 | scaling goes −1 → −2 → −4 → −2 under `* 2`, `2 *` and `/ 2.0` |
| QubitOperatorExamples.SquareIsIdentity | tests/st/test_core/test_operators/test_qubit_ops.py:59-61 | `Z1 z2` squared is `1 []` |
| QubitOperatorExamples.FromZ2Z1 | tests/st/test_core/test_operators/test_qubit_ops.py:98-99 | `QubitOperator('Z2 Z1')` is stored under `Z1 Z2` with the same coefficient |
| QubitOperatorExamples.ScaledByVar | tests/st/test_core/test_operators/test_qubit_ops.py:101-103 | multiplying a string by the resolver `a` gives `a [string]` |
| QubitOperatorExamples.PlusSameTerm | tests/st/test_core/test_operators/test_qubit_ops.py:95-99 | two single-term operators on the same string merge into one term with the summed coefficient |
| QubitOperatorExamples.MergeRegardlessOfOrder | tests/st/test_core/test_operators/test_qubit_ops.py:98-99 | `QubitOperator('Z1 Z2', 'a') + a * QubitOperator('Z2 Z1')` is `2*a [Z1 Z2]` |
| QubitOperatorExamples.SubsThenMerge | tests/st/test_core/test_operators/test_qubit_ops.py:142-143 | `(b [X0] + a [X0]).subs({'a': 1, 'b': 2})` is 3 on X0 |
| OperatorString.Lines | mindquantum/experimental/ops/qubit_operator.py:98-100 | one line per term, in stored order, each `"<coeff> [<ops>] "` |
| OperatorString.TermLine | mindquantum/experimental/ops/qubit_operator.py:99-100 | a term prints as its coefficient, a blank, the bracketed local operators and a trailing blank |
| OperatorString.Str | mindquantum/experimental/ops/qubit_operator.py:101-103 | "0" for no terms, otherwise the term lines joined with "+\n" |
| OperatorString.StrZero | mindquantum/experimental/ops/qubit_operator.py:101-102 | the output is exactly "0" when, and only when, there are no terms |
| OperatorString.StrCons | mindquantum/experimental/ops/qubit_operator.py:103 | lines are joined with "+\n" in stored order |
| OperatorString.StrSingle | mindquantum/experimental/ops/qubit_operator.py:98-103 | a single-term operator prints as its one line |
| OperatorString.LastIndexOf | mindquantum/experimental/ops/qubit_operator.py:100 | the last position of a character, or none exactly when it does not occur |
| OperatorString.BracketedLine | mindquantum/experimental/ops/qubit_operator.py:99-100 | the brackets of a printed line hold exactly the printed local operators, whatever the coefficient prints as |
| OperatorString.LineRoundTrip | mindquantum/experimental/ops/qubit_operator.py:99-100 | the bracketed text of a printed line parses back to its Pauli string, and is empty for the identity |
| OperatorString.PrintX0MinusY0 | tests/st/test_core/test_operators/test_qubit_ops.py:152-154 | `str(QubitOperator('X0') - QubitOperator('Y0'))` is `1 [X0] +\n-1 [Y0] ` |
| OperatorString.PlusX0Y1X2Z3 | mindquantum/experimental/ops/qubit_operator.py:114 | `X0 Y1 + X2 Z3` keeps both terms |
| OperatorString.CountGatesX0Y1X2Z3 | mindquantum/experimental/ops/qubit_operator.py:113-116 | `(QubitOperator("X0 Y1") + QubitOperator("X2 Z3")).count_gates()` is 4 |
| OperatorString.PrintSubsThenMerge | tests/st/test_core/test_operators/test_qubit_ops.py:142-144 | `(b [X0] + a [X0]).subs({'a': 1, 'b': 2})` prints as `3 [X0] ` |
| Gates.CheckQubitId | mindquantum/gate/basic.py:421-428 | accepted exactly for a non-negative int; a non-int raises TypeError and a negative int ValueError |
| Gates.CheckAll | mindquantum/gate/basic.py:91-93 | a list is accepted exactly when every element is, and gives the ints in order |
| Gates.CheckAllFirstError | mindquantum/gate/basic.py:91-92 | the error raised is the one of the first element that fails |
| Gates.QubitList | mindquantum/gate/basic.py:87-96 | an int becomes a one-element list after its check; an iterable is checked element by element; anything else raises TypeError |
| Gates.NewPlainGate | mindquantum/gate/basic.py:27-33 | a gate is made exactly when the name is a string, otherwise TypeError; it is unplaced and not parameterised |
| Gates.NormalizeCoeff | mindquantum/gate/basic.py:189-205 | None gives `{'c1': 1}`, a string s gives `{s: 1}`, a dict or resolver is kept, and an int, float or other value raises TypeError |
| Gates.NamesWithUnitWeight | mindquantum/gate/basic.py:205 | a list of names gives each name weight 1, without duplicate keys |
| Gates.NewParameterGate | mindquantum/gate/basic.py:183-206 | the name must be a string; a number gives a non-parameterised gate with that number; anything else is normalised, and the gate is parameterised exactly when the coefficient is not a number |
| Gates.On | mindquantum/gate/basic.py:85-111 | placement succeeds exactly when both qubit arguments check out; targets are checked before controls; `ctrl=None` gives no controls; only the placement changes, and targets and controls may overlap |
| Gates.OnTwice | mindquantum/gate/basic.py:85 | placing a placed gate again is placing the original: `on` works on a copy |
| Gates.OnExamples | mindquantum/gate/basic.py:75-83 | `X.on(1)` is on [1] with no controls, `X.on(2, [0, 1])` is controlled by [0, 1], `on(0, 0)` is accepted, and −1, 1.0 and `[1, 'a']` are refused |
| Gates.ParameterDescription | mindquantum/gate/basic.py:216-223 | a placed parameter gate describes itself as the basic description with the coefficient text and a vertical bar spliced in right after `name(`, before the qubits |
| Gates.QubitsString | mindquantum/gate/basic.py:51-56 | qubit indices print in decimal, separated by blanks |
| Gates.BasicDescription | mindquantum/gate/basic.py:48-56 | `name(o1 o2 <-: c1 c2)` with controls, `name(o1 o2)` without, the bare name when unplaced |
| Gates.CoeffString | mindquantum/gate/basic.py:216-223 | a number prints rounded, a resolver as its expression |
| Gates.Description | mindquantum/gate/basic.py:208-223 | a plain gate prints its basic description; a parameter gate splices its coefficient and a vertical bar in after `name(`, or prints `name(coeff)` when unplaced |
| Gates.DescriptionExamples | mindquantum/gate/basic.py:48-56 | `X.on(2, [0, 1])` prints as `X(2 <-: 0 1)`, and `RX('a').on(0)` as `RX(`, then `a`, a vertical bar and `0)` |
| Gates.CheckGateType | mindquantum/gate/basic.py:415-418 | a gate is accepted and anything else raises TypeError |
| Gates.Eq | mindquantum/gate/basic.py:125-132 | a non-gate raises TypeError; a different name or `isparameter` gives False; otherwise an unplaced side raises AttributeError; True exactly when the qubit lists agree and, for a parameter gate (`ParameterGate.__eq__`), the coefficients are equal |
| Gates.EqReflexiveSymmetric | mindquantum/gate/basic.py:258-262 | a placed gate equals itself, and equality between placed gates of the same kind is symmetric |
| Gates.LinearCombination | mindquantum/gate/basic.py:245-256 | both arguments must be mappings (TypeError); a name of the coefficient missing from the values raises KeyError; otherwise the result is Σ weight · value over the coefficient's names |
| Gates.WeightedSum | mindquantum/gate/basic.py:245-256 | the reference sum over the coefficient's names of weight times looked-up value |
| Gates.WeightedSumSnoc | mindquantum/gate/basic.py:251-255 | one more loop step adds the next weight times its value |
| Gates.WeightedSumIgnoresExtra | mindquantum/gate/basic.py:251-255 | values for names the coefficient does not use make no difference |
| Gates.NegateCoeff | mindquantum/gate/basic.py:331-335 | negation negates a number and keeps a resolver's names |
| Gates.Hermitian | mindquantum/gate/basic.py:330-337 | the hermitian keeps the name, the kind, the placement and parameterisation, and negates the coefficient |
| Gates.HermitianInvolution | mindquantum/gate/basic.py:330-337 | taking the hermitian twice gives the gate back |
| Gates.HermitianDescription | mindquantum/gate/basic.py:336 | the hermitian's description shows the negated coefficient in front of the same qubits |
| Gates.Angle | mindquantum/gate/basic.py:368-378 | a numeric gate uses its number; with no argument there is an IndexError; a scalar needs exactly one parameter and is multiplied by its weight; a dict gives the linear combination |
| Gates.ScalarMatchesMap | mindquantum/gate/basic.py:370-376 | with one parameter, a scalar gives the same angle as the one-entry dict naming that parameter |
| Gates.DiffTarget | mindquantum/gate/basic.py:397-412 | a numeric gate raises; angle errors propagate; `about_what` defaults to the sole parameter and otherwise raises; an unknown name raises KeyError; the result is that parameter's weight with the angle |
| HamiltonianWrapper.BuildTermList | mindquantum/core/operators/hamiltonian.py:78-82 | the term list exists exactly when every coefficient is constant (else ValueError) and keeps each term with the real part of its coefficient |
| HamiltonianWrapper.NewHamiltonian | mindquantum/core/operators/hamiltonian.py:59-85 | another type raises TypeError; a CSR matrix must be 2-D, square and of power-of-two size, and becomes FRONTEND with log2 of the size as qubit count and the identity term list; an operator becomes ORIGIN with its qubit count; nothing is cached yet |
| HamiltonianWrapper.CsrQubits | mindquantum/core/operators/hamiltonian.py:67-72 | a 2^k square matrix is a k-qubit Hamiltonian, and a size that is no power of two is refused |
| HamiltonianWrapper.Sparse | mindquantum/core/operators/hamiltonian.py:107-113 | `sparse(n)` succeeds exactly from ORIGIN with n at least the qubit count, and then only the mode and the qubit count change; the cache is kept |
| HamiltonianWrapper.SparseOnce | mindquantum/core/operators/hamiltonian.py:107-108 | a second `sparse`, or one on a FRONTEND Hamiltonian, raises ValueError |
| HamiltonianWrapper.Build | mindquantum/core/operators/hamiltonian.py:124-134 | ORIGIN builds from the term list, BACKEND from the term list and the qubit count, FRONTEND from the sparse matrix |
| HamiltonianWrapper.GetCppObj | mindquantum/core/operators/hamiltonian.py:115-145 | the object is built on first use and cached; for ORIGIN and BACKEND the hermitian object is the ordinary one; for FRONTEND it is the conjugate transpose, cached separately |
| HamiltonianWrapper.GetCppObjCached | mindquantum/core/operators/hamiltonian.py:122-136 | asking again returns the same object and changes nothing |
| HamiltonianWrapper.HermitianSharesObject | mindquantum/core/operators/hamiltonian.py:137-138 | for an operator, `get_cpp_obj(True)` equals `get_cpp_obj(False)` |
| HamiltonianWrapper.FreshObject | mindquantum/core/operators/hamiltonian.py:122-145 | a fresh wrapper builds the object of its mode, and a sparse matrix's hermitian object is its conjugate transpose |
| HamiltonianWrapper.SparseThenObject | mindquantum/core/operators/hamiltonian.py:126-127 | when nothing was built before `sparse(n)`, the object gets the term list with qubit count n |
| HamiltonianWrapper.StaleObjectAfterSparse | mindquantum/core/operators/hamiltonian.py:123-136 | an object built before `sparse(n)` survives it: the BACKEND wrapper keeps returning the ORIGIN object without the qubit count |
| ProjectqSim.ApplyCircuitCall | mindquantum/simulator/projectq_sim.py:75-101 | U3/FSim, too many qubits, and parameters without a resolver raise ValueError; otherwise measured circuits go to the measuring call and the rest to a call with or without a resolver |
| ProjectqSim.MaxList | mindquantum/simulator/projectq_sim.py:114 | Python's `max` of two lists returns one of them; an empty list loses |
| ProjectqSim.MaxOf | mindquantum/simulator/projectq_sim.py:114 | the maximum of a non-empty list is an element at least every element |
| ProjectqSim.GateRangeAsWritten | mindquantum/simulator/projectq_sim.py:114-116 | the check as written: the maximum of the lexicographically larger list must not exceed n; two empty lists raise |
| ProjectqSim.GateRange | mindquantum/simulator/projectq_sim.py:114-116 | the corrected check: accepted exactly when some qubit is given and every target and control is below n |
| ProjectqSim.GateRangeCounterexamples | mindquantum/simulator/projectq_sim.py:114-116 | on 2 qubits the check as written accepts targets [0, 9] with control [1], and target [2]; the corrected check refuses both |
| ProjectqSim.AsWrittenRefusesLess | mindquantum/simulator/projectq_sim.py:114-116 | whatever the check as written refuses, the corrected one refuses too |
| ProjectqSim.AfterRange | mindquantum/simulator/projectq_sim.py:117-125 | after the range check, only a parameterised non-measurement gate without a resolver raises ValueError |
| ProjectqSim.ApplyGateCallAsWritten | mindquantum/simulator/projectq_sim.py:110-126 | `apply_gate` as written: barriers do nothing, U3/FSim raise, then the range check as written, then the resolver checks |
| ProjectqSim.ApplyGateCall | mindquantum/simulator/projectq_sim.py:110-126 | `apply_gate` with the corrected range check: a native call happens only for gates inside the simulator |
| ProjectqSim.ApplyGateAgreesInRange | mindquantum/simulator/projectq_sim.py:114-116 | the two agree on every gate that lies inside the simulator |
| ProjectqSim.SetQsCall | mindquantum/simulator/projectq_sim.py:358-370 | a non-array raises TypeError; any other refusal is ValueError; an accepted state is 1-D of length 2^n |
| ProjectqSim.SetQsAccepts | mindquantum/simulator/projectq_sim.py:362-369 | an array of length 2^n is accepted |
| ProjectqSim.SamplingPlan | mindquantum/simulator/projectq_sim.py:325-356 | no measurement and too many qubits raise ValueError, a non-int shot count TypeError; sampling proceeds exactly when shots ≥ 1 and a parameterised circuit has a dict or resolver; measure-at-end noiseless circuits run on a copy |
| ProjectqSim.MergeNames | mindquantum/simulator/projectq_sim.py:213-219 | the right circuit's names come first and unchanged; appended names are new; the result is the union of both lists; no duplicates are introduced |
| ProjectqSim.MergeNamesPresent | mindquantum/simulator/projectq_sim.py:214-219 | merging in names already present changes nothing |
| ProjectqSim.ModeOf | mindquantum/simulator/projectq_sim.py:222-226 | "both" exactly when both roles have names; "encoder" exactly when only encoder names exist; "ansatz" exactly when there are no encoder names, including when both are empty |
| ProjectqSim.CheckHams | mindquantum/simulator/projectq_sim.py:174-179 | one Hamiltonian or a list of Hamiltonians is accepted, with the count; anything else raises TypeError |
| ProjectqSim.GradConfigure | mindquantum/simulator/projectq_sim.py:174-236 | accepted exactly when the Hamiltonians, noise, left simulator, measurement and worker checks pass, the roles are disjoint, the simulator has enough qubits and no gate is U3 or FSim; TypeError only for bad Hamiltonians, a non-ProjectQ left simulator or a non-int worker count; ValueError only for noise, a size mismatch, measurements, too few qubits or unsupported gates; RuntimeError exactly when a name is in both roles after the earlier checks pass; non-hermitian mode, defaults and merged names as in the source |
| ProjectqSim.RoleConflict | mindquantum/simulator/projectq_sim.py:220-221 | a name in both roles raises RuntimeError |
| ProjectqSim.CrossRoleConflict | mindquantum/simulator/projectq_sim.py:213-221 | an encoder name of the right circuit that is an ansatz name of the left one raises RuntimeError |
| ProjectqSim.CheckArity | mindquantum/simulator/projectq_sim.py:239-242 | `grad_ops` takes exactly two inputs in "both" mode and one otherwise, else ValueError |
| ProjectqSim.SplitRow | mindquantum/simulator/projectq_sim.py:287-294 | a non-empty row splits exactly into `[f] + g_enc + g_ans` with clamped slicing, or into `[f] + g` in single-role mode; an empty row raises IndexError |
| ProjectqSim.SplitPackedRow | mindquantum/simulator/projectq_sim.py:288-294 | a row packed from the value and the gradients splits back into them |
| StronglyEntangling.NewAnsatz | mindquantum/algorithm/nisq/qnn/strongly_entangling.py:48-61 | non-int counts raise TypeError; fewer than 2 qubits, depth below 1, a parameterised or non-gate argument, or a matrix that is not 2- or 4-dimensional raise ValueError; dimension 2 gives a one-qubit gate |
| StronglyEntangling.GateAtLayer | mindquantum/algorithm/nisq/qnn/strongly_entangling.py:68-74 | position j of layer l is gate 2nl + j |
| StronglyEntangling.LayerGate | mindquantum/algorithm/nisq/qnn/strongly_entangling.py:66-74 | gate j of layer l: the rotation on qubit j for j < n, else the entangling gate idx = j - n on target (idx + l + 1) mod n |
| StronglyEntangling.GateAt | mindquantum/algorithm/nisq/qnn/strongly_entangling.py:64-75 | gate k of the circuit is gate k mod 2n of layer k div 2n |
| StronglyEntangling.Implement | mindquantum/algorithm/nisq/qnn/strongly_entangling.py:64-75 | the circuit has 2·n·depth gates, gate k being gate k mod 2n of layer k div 2n |
| StronglyEntangling.QubitsInRange | mindquantum/algorithm/nisq/qnn/strongly_entangling.py:66-74 | every qubit index of the layout is below n |
| StronglyEntangling.RotationBlock | mindquantum/algorithm/nisq/qnn/strongly_entangling.py:66-69 | layer l starts with one rotation per qubit, in order, all with the prefix `l{l}` |
| StronglyEntangling.EntanglingGate | mindquantum/algorithm/nisq/qnn/strongly_entangling.py:70-74 | entangling gate idx of layer l targets (idx+l+1) mod n, controlled by idx for a one-qubit gate or acting on both for a two-qubit gate; target and control coincide exactly when (l+1) mod n is 0 |

## Left out

- Gate matrices, trigonometry, `set_qs` renormalisation and `compress` thresholds are numeric. They are not modelled.
- Coefficient printing is a parameter of the printers: `ParameterResolver.expression()` and `round(x, 3)`.
- The native simulator is opaque. This covers state evolution, measurement, expectations and gradients. Each front-end operation yields the native call it would make.
- Thread balancing, the sampling seed (`_check_seed`, `np.random.randint`) and the per-shot results are left out. So are `get_expectation`, `apply_hamiltonian` and `get_qs`.
- Helper checks whose source is not shown are outcomes of the model:
  - `_check_input_type`, `_check_int_type` and `_check_value_should_not_less` are assumed to raise TypeError, TypeError and ValueError respectively.
  - `_check_and_generate_pr_type` is not modelled.
  - `_check_hamiltonian_qubits_number` is not modelled.
  - Only the int check on `parallel_worker` is modelled. Its use in thread balancing is not.
- The ParameterResolver internals are not shown. A resolver is modelled as a constant plus weighted names.
  - Products of two symbolic resolvers are refused (`CoeffMul` returns none).
  - `requires_grad` flags are left out.
- OpenFermion and ProjectQ operator types, `dumps`/`loads`, `__or__`, and `__str__`/`__repr__` of the Hamiltonian and the simulator are left out.
- Canonical ordering of Pauli strings inside `QubitOperator` lives in a templated header that is not part of this model. It is modelled as the normal form of the written product.
- `count_qubits` is taken to be one past the largest qubit index.
- `QubitOperator('')` is taken to be the identity term with coefficient 1.
- `OperatorMatrix.ToMatrix`: matrix entries are exact complex numbers. The model assumes `num_targets_` is up to date, as the source comment does. It does not model `1U << n` overflowing for n ≥ 32.
- `Gates.NamesWithUnitWeight`: a non-string list element is refused with a generic exception. The real error comes from the resolver constructor, which is not shown.
- `Gates.EqReflexiveSymmetric`: symmetry is stated only for two gates of the same kind. Comparing a parameter gate with a plain gate of the same name and qubits depends on which side's `__eq__` Python calls.
- `Gates.Hermitian`: models `IntrinsicOneParaGate.hermitian` only. The matrix-conjugating hermitian of other gates is numeric.
- `TermPolicy.ParseTermsString`: `parse_object_skipper` is not part of this model. It is taken to accept only a parse that consumes the whole input, trailing blanks aside, and to return false otherwise. Every rejected string, such as `X1 YY`, relies on that.
  - The term rule `term_op > uint_` (qubit_operator_term_policy.cpp line 58) uses the expectation operator. A letter without digits, or an index that does not fit in 32 bits, therefore throws `x3::expectation_failure` rather than backtracking.
  - The rule's `error_handler` base is not part of this model. It is taken to turn that exception into a failed parse, so the result is the empty list. `TermPolicy.RejectedStrings` and `TermPolicy.IndexOverflowRejected` rely on that.
- `Gates.Angle`: the angle is returned, not the matrix `_matrix` builds from it. A complex number coefficient is not modelled.
- `ProjectqSim.SamplingPlan`: the resolver conversion and the seed are left out.
- `StronglyEntangling.Implement`: the U3 parameter names are carried as the layer prefix. `add_prefix` is not part of this model.
- Boolean values passed as ints (Python's `bool` subclasses `int`) are not modelled.
- `std_complex_coeff_policy.cpp` is not part of this model. It forwards to a complex-number parser that is not shown.

## Findings

| source | as written | input that shows it | evidently intended | confidence | as-written member | corrected member |
|---|---|---|---|---|---|---|
| mindquantum/simulator/projectq_sim.py:114-116 | `max(max(obj, ctrl))` picks the lexicographically larger list and takes its maximum; the check then uses a strict `<` | 2 qubits with targets [0, 9] and control [1] passes, since [1] > [0, 9] lexicographically; target [2] passes, since 2 < 2 is false | every target and control qubit is below the simulator's qubit count | high, not executed | ProjectqSim.GateRangeCounterexamples | ProjectqSim.ApplyGateCall |
