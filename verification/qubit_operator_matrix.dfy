/** The C++ `QubitOperator` members that work on the whole term table:
    `count_gates`, and `matrix`, which checks the requested qubit count and
    builds each term's 2^n × 2^n matrix as a Kronecker fold of 2×2 Pauli
    matrices before summing them. Matrix entries are kept exact: a product
    of Pauli entries is zero or a power of i (`Entry`), and a term entry is
    its coefficient rotated by that power. */
module OperatorMatrix {
  import opened Wrappers
  import C = ComplexNum
  import opened TermPolicy
  import opened PauliAlgebra
  import opened Bits

  /** `terms_`: each term's local operators with its complex coefficient. */
  type NativeTerms = seq<(Terms, C.Complex)>

  // ---------------------------------------------------------------------------
  // count_gates

  const Uint32Modulus: nat := 0x1_0000_0000
  const Uint64Modulus: nat := 0x1_0000_0000_0000_0000

  /** The number of local operators over all terms, as an unbounded count. */
  function GateTotal<V>(ops: seq<(Terms, V)>): nat {
    if |ops| == 0 then 0 else GateTotal(ops[..|ops| - 1]) + |ops[|ops| - 1].0|
  }

  /** Counts of two term tables add up. */
  lemma {:induction false} GateTotalConcat<V>(a: seq<(Terms, V)>, b: seq<(Terms, V)>)
    ensures GateTotal(a + b) == GateTotal(a) + GateTotal(b)
    decreases |b|
  {
    if |b| == 0 {
      assert a + b == a;
    } else {
      var b' := b[..|b| - 1];
      assert (a + b)[..|a + b| - 1] == a + b';
      GateTotalConcat(a, b');
    }
  }

  /** `count_gates`: a `std::accumulate` into an unsigned 64-bit counter,
      returned as `uint32_t`, so the count is taken modulo 2^32. */
  method CountGates<V>(ops: seq<(Terms, V)>) returns (count: nat)
    ensures count < Uint32Modulus
    ensures count == GateTotal(ops) % Uint32Modulus
    ensures GateTotal(ops) < Uint32Modulus ==> count == GateTotal(ops)
  {
    var acc: nat := 0;
    var i := 0;
    while i < |ops|
      invariant 0 <= i <= |ops|
      invariant acc == GateTotal(ops[..i]) % Uint64Modulus
    {
      assert ops[..i + 1][..i] == ops[..i];
      WrapAdd(GateTotal(ops[..i]), |ops[i].0|);
      acc := (acc + |ops[i].0|) % Uint64Modulus;
      i := i + 1;
    }
    assert ops[..|ops|] == ops;
    Truncate(GateTotal(ops));
    count := acc % Uint32Modulus;
  }

  /** Wrapping the counter after every step equals wrapping once at the end. */
  lemma WrapAdd(x: nat, y: nat)
    ensures (x % Uint64Modulus + y) % Uint64Modulus == (x + y) % Uint64Modulus
  {
    var q := x / Uint64Modulus;
    assert x == Uint64Modulus * q + x % Uint64Modulus;
    DivModUnique(x + y, Uint64Modulus, q + (x % Uint64Modulus + y) / Uint64Modulus,
                 (x % Uint64Modulus + y) % Uint64Modulus);
  }

  /** Narrowing the 64-bit counter to 32 bits keeps the low 32 bits. */
  lemma Truncate(x: nat)
    ensures (x % Uint64Modulus) % Uint32Modulus == x % Uint32Modulus
  {
    var q := x / Uint64Modulus;
    var r := x % Uint64Modulus;
    assert x == Uint64Modulus * q + r;
    assert Uint64Modulus == Uint32Modulus * Uint32Modulus;
    DivModUnique(x, Uint32Modulus, Uint32Modulus * q + r / Uint32Modulus, r % Uint32Modulus);
  }

  // ---------------------------------------------------------------------------
  // The qubit count.

  /** One past the largest qubit index a term touches (0 for the identity). */
  function TermTargets(t: Terms): (n: nat)
    ensures forall k :: 0 <= k < |t| ==> t[k].qubit < n
    ensures n == 0 || exists k :: 0 <= k < |t| && t[k].qubit + 1 == n
  {
    if |t| == 0 then 0
    else
      var rest := TermTargets(t[1..]);
      assert forall k :: 1 <= k < |t| ==> t[k] == t[1..][k - 1];
      if t[0].qubit + 1 >= rest then t[0].qubit + 1 else rest
  }

  /** `num_targets_`: one past the largest qubit index of any term. */
  function NumTargets<V>(ops: seq<(Terms, V)>): (n: nat)
    ensures forall i :: 0 <= i < |ops| ==> TermTargets(ops[i].0) <= n
    ensures n == 0 || exists i :: 0 <= i < |ops| && TermTargets(ops[i].0) == n
  {
    if |ops| == 0 then 0
    else
      var rest := NumTargets(ops[1..]);
      assert forall i :: 1 <= i < |ops| ==> ops[i] == ops[1..][i - 1];
      if TermTargets(ops[0].0) >= rest then TermTargets(ops[0].0) else rest
  }

  // ---------------------------------------------------------------------------
  // The factor list of a term.

  /** The list `total` of `process_term`: identities, then each local
      operator written over its qubit's slot in term order. */
  function Factors(n: nat, t: Terms): (fs: seq<TermValue>)
    requires forall k :: 0 <= k < |t| ==> t[k].qubit < n
    ensures |fs| == n
    ensures forall q :: 0 <= q < n ==>
              || (fs[q] == I && forall k :: 0 <= k < |t| ==> t[k].qubit != q)
              || (exists k :: 0 <= k < |t| && t[k].qubit == q && fs[q] == t[k].op
                              && forall j :: k < j < |t| ==> t[j].qubit != q)
    decreases |t|
  {
    if |t| == 0 then seq(n, q => I)
    else
      var last := t[|t| - 1];
      var fs := Factors(n, t[..|t| - 1]);
      fs[last.qubit := last.op]
  }

  /** On a canonical string, slot q of the factor list holds the string's
      operator on qubit q. */
  lemma FactorsCanonical(n: nat, t: Terms, q: nat)
    requires Canonical(t)
    requires forall k :: 0 <= k < |t| ==> t[k].qubit < n
    requires q < n
    ensures Factors(n, t)[q] == OpAt(t, q)
  {
    var fs := Factors(n, t);
    if fs[q] == I && forall k :: 0 <= k < |t| ==> t[k].qubit != q {
      assert !InSupport(t, q);
    } else {
      var k :| 0 <= k < |t| && t[k].qubit == q && fs[q] == t[k].op;
      OpAtIndex(t, k);
    }
  }

  // ---------------------------------------------------------------------------
  // The Kronecker fold.

  /** Entry (r, c) of the fold `init = kron(matrix, init)` over the factor
      list, starting from the 1×1 matrix [1]: the factor folded last is the
      left (outer) operand, so it picks the top bit of r and c. */
  function KronEntry(fs: seq<TermValue>, r: nat, c: nat): (e: Entry)
    requires r < Pow2(|fs|) && c < Pow2(|fs|)
    ensures ValidEntry(e)
    decreases |fs|
  {
    if |fs| == 0 then Unit(0)
    else
      var n := |fs|;
      EntryMul(PauliEntry(fs[n - 1], Bit(r, n - 1), Bit(c, n - 1)), KronEntry(fs[..n - 1], Low(r, n - 1), Low(c, n - 1)))
  }

  /** The product over qubits q < k of entry (bit q of r, bit q of c) of the
      q-th factor. */
  function BitwiseEntry(fs: seq<TermValue>, r: nat, c: nat, k: nat): (e: Entry)
    requires k <= |fs|
    ensures ValidEntry(e)
  {
    if k == 0 then Unit(0)
    else EntryMul(PauliEntry(fs[k - 1], Bit(r, k - 1), Bit(c, k - 1)), BitwiseEntry(fs, r, c, k - 1))
  }

  /** The bitwise product only looks at the first k factors and the bits
      below k. */
  lemma {:induction false} BitwiseLowBits(fs: seq<TermValue>, gs: seq<TermValue>, r: nat, c: nat, r': nat, c': nat, k: nat)
    requires k <= |fs| && k <= |gs|
    requires forall q :: 0 <= q < k ==> fs[q] == gs[q] && Bit(r, q) == Bit(r', q) && Bit(c, q) == Bit(c', q)
    ensures BitwiseEntry(fs, r, c, k) == BitwiseEntry(gs, r', c', k)
  {
    if k > 0 {
      BitwiseLowBits(fs, gs, r, c, r', c', k - 1);
    }
  }

  /** The Kronecker fold puts qubit q on bit q of the row and column index:
      qubit 0 is the least significant bit. */
  lemma {:induction false} KronIsBitwise(fs: seq<TermValue>, r: nat, c: nat)
    requires r < Pow2(|fs|) && c < Pow2(|fs|)
    ensures KronEntry(fs, r, c) == BitwiseEntry(fs, r, c, |fs|)
    decreases |fs|
  {
    if |fs| > 0 {
      var n := |fs|;
      var init := fs[..n - 1];
      var r', c' := Low(r, n - 1), Low(c, n - 1);
      KronIsBitwise(init, r', c');
      forall q | 0 <= q < n - 1
        ensures init[q] == fs[q] && Bit(r', q) == Bit(r, q) && Bit(c', q) == Bit(c, q)
      {
        BitOfLow(r, n - 1, q);
        BitOfLow(c, n - 1, q);
      }
      BitwiseLowBits(init, fs, r', c', r, c, n - 1);
    }
  }

  /** An all-identity fold is the identity matrix. */
  lemma {:induction false} KronIdentity(n: nat, r: nat, c: nat)
    requires r < Pow2(n) && c < Pow2(n)
    ensures KronEntry(seq(n, q => I), r, c) == if r == c then Unit(0) else Nil
  {
    if n > 0 {
      var fs := seq(n, q => I);
      assert fs[..n - 1] == seq(n - 1, q => I);
      var r', c' := Low(r, n - 1), Low(c, n - 1);
      KronIdentity(n - 1, r', c');
      SameIndex(r, c, n - 1);
    }
  }

  /** Two indices below 2^(m+1) are equal exactly when bit m and the m low
      bits agree. */
  lemma SameIndex(r: nat, c: nat, m: nat)
    requires r < Pow2(m + 1) && c < Pow2(m + 1)
    ensures r == c <==> Bit(r, m) == Bit(c, m) && Low(r, m) == Low(c, m)
  {
    SplitTopBit(r, m);
    SplitTopBit(c, m);
  }

  // ---------------------------------------------------------------------------
  // matrix

  /** The matrix `process_term` returns for one term: `coeff · I` for the
      identity term, otherwise the Kronecker fold of its factor list
      started from the 1×1 matrix [coeff]. */
  datatype TermMatrix = ScaledIdentity(coeff: C.Complex) | Kron(coeff: C.Complex, factors: seq<TermValue>)

  /** The result of `matrix`: 2^qubits square, the sum of the term matrices. */
  datatype Matrix = Matrix(qubits: nat, parts: seq<TermMatrix>)

  predicate WfPart(n: nat, m: TermMatrix) {
    m.Kron? ==> |m.factors| == n
  }

  predicate WfMatrix(m: Matrix) {
    forall i :: 0 <= i < |m.parts| ==> WfPart(m.qubits, m.parts[i])
  }

  function ProcessTerm(n: nat, t: Terms, coeff: C.Complex): (m: TermMatrix)
    requires forall k :: 0 <= k < |t| ==> t[k].qubit < n
    ensures WfPart(n, m)
  {
    if |t| == 0 then ScaledIdentity(coeff) else Kron(coeff, Factors(n, t))
  }

  /** `matrix(n_qubits)`: no matrix for an empty operator, for one that
      touches no qubit when no count is given, or when the given count is
      below the operator's own; otherwise the given count or the operator's
      own, and one term matrix per term. */
  function ToMatrix(ops: NativeTerms, nQubits: Option<nat>): (r: Option<Matrix>)
    ensures r.None? <==> || |ops| == 0
                         || (NumTargets(ops) == 0 && nQubits.None?)
                         || (nQubits.Some? && nQubits.value < NumTargets(ops))
    ensures r.Some? ==> r.value.qubits == (if nQubits.Some? then nQubits.value else NumTargets(ops))
    ensures r.Some? ==> WfMatrix(r.value) && |r.value.parts| == |ops|
    ensures r.Some? ==> forall i :: 0 <= i < |ops| ==> r.value.parts[i].coeff == ops[i].1
    ensures r.Some? ==> forall i :: 0 <= i < |ops| ==> (r.value.parts[i].ScaledIdentity? <==> |ops[i].0| == 0)
  {
    if |ops| == 0 then None
    else if NumTargets(ops) == 0 && nQubits.None? then None
    else if nQubits.Some? && nQubits.value < NumTargets(ops) then None
    else
      var n := if nQubits.Some? then nQubits.value else NumTargets(ops);
      TargetsBelow(ops, n);
      Some(Matrix(n, Parts(n, ops)))
  }

  /** Every qubit of every term is below any count at least `num_targets_`. */
  lemma TargetsBelow(ops: NativeTerms, n: nat)
    requires NumTargets(ops) <= n
    ensures forall i, k :: 0 <= i < |ops| && 0 <= k < |ops[i].0| ==> ops[i].0[k].qubit < n
  {
    forall i, k | 0 <= i < |ops| && 0 <= k < |ops[i].0|
      ensures ops[i].0[k].qubit < n
    {
      assert TermTargets(ops[i].0) <= n;
    }
  }

  /** One term matrix per term, in order. */
  function Parts(n: nat, ops: NativeTerms): (ps: seq<TermMatrix>)
    requires forall i, k :: 0 <= i < |ops| && 0 <= k < |ops[i].0| ==> ops[i].0[k].qubit < n
    ensures |ps| == |ops| && WfMatrix(Matrix(n, ps))
    ensures forall i :: 0 <= i < |ops| ==> ps[i] == ProcessTerm(n, ops[i].0, ops[i].1)
  {
    seq(|ops|, i requires 0 <= i < |ops| => ProcessTerm(n, ops[i].0, ops[i].1))
  }

  /** `coeff` times a product of Pauli entries. */
  function Scale(coeff: C.Complex, e: Entry): C.Complex
    requires ValidEntry(e)
  {
    if e.Nil? then C.Zero else C.Rotate(e.phase, coeff)
  }

  function PartEntry(n: nat, m: TermMatrix, r: nat, c: nat): C.Complex
    requires WfPart(n, m) && r < Pow2(n) && c < Pow2(n)
  {
    match m
    case ScaledIdentity(z) => if r == c then z else C.Zero
    case Kron(z, fs) => Scale(z, KronEntry(fs, r, c))
  }

  /** Entry (r, c) of the sum of the term matrices. */
  function MatrixEntry(m: Matrix, r: nat, c: nat): C.Complex
    requires WfMatrix(m) && r < Pow2(m.qubits) && c < Pow2(m.qubits)
    decreases |m.parts|
  {
    if |m.parts| == 0 then C.Zero
    else C.Add(MatrixEntry(Matrix(m.qubits, m.parts[..|m.parts| - 1]), r, c),
               PartEntry(m.qubits, m.parts[|m.parts| - 1], r, c))
  }

  /** The identity shortcut agrees with folding n identity factors. */
  lemma IdentityShortcut(n: nat, z: C.Complex, r: nat, c: nat)
    requires r < Pow2(n) && c < Pow2(n)
    ensures PartEntry(n, ScaledIdentity(z), r, c) == PartEntry(n, Kron(z, seq(n, q => I)), r, c)
  {
    KronIdentity(n, r, c);
  }

  /** The operator a string applies to each of qubits 0..n-1. */
  function Slots(t: Terms, n: nat): (fs: seq<TermValue>)
    ensures |fs| == n
    ensures forall q :: 0 <= q < n ==> fs[q] == OpAt(t, q)
  {
    seq(n, q requires 0 <= q < n => OpAt(t, q))
  }

  /** A non-identity canonical term's matrix entry is its coefficient times
      the product over qubits q of the Pauli entry its operator on q has at
      (bit q of r, bit q of c); qubits it does not touch carry I. */
  lemma TermEntry(n: nat, t: Terms, z: C.Complex, r: nat, c: nat)
    requires Canonical(t) && |t| > 0
    requires forall k :: 0 <= k < |t| ==> t[k].qubit < n
    requires r < Pow2(n) && c < Pow2(n)
    ensures PartEntry(n, ProcessTerm(n, t, z), r, c) == Scale(z, BitwiseEntry(Slots(t, n), r, c, n))
  {
    var fs := Factors(n, t);
    KronIsBitwise(fs, r, c);
    forall q | 0 <= q < n
      ensures fs[q] == Slots(t, n)[q]
    {
      FactorsCanonical(n, t, q);
    }
    BitwiseLowBits(fs, Slots(t, n), r, c, r, c, n);
  }

  /** The matrix of a table is the sum of the matrices of its parts: adding
      more terms adds their entries. */
  lemma {:induction false} MatrixEntryConcat(n: nat, a: seq<TermMatrix>, b: seq<TermMatrix>, r: nat, c: nat)
    requires WfMatrix(Matrix(n, a)) && WfMatrix(Matrix(n, b))
    requires r < Pow2(n) && c < Pow2(n)
    ensures WfMatrix(Matrix(n, a + b))
    ensures MatrixEntry(Matrix(n, a + b), r, c)
         == C.Add(MatrixEntry(Matrix(n, a), r, c), MatrixEntry(Matrix(n, b), r, c))
    decreases |b|
  {
    WfConcat(n, a, b);
    if |b| == 0 {
      assert a + b == a;
    } else {
      var b', last := b[..|b| - 1], b[|b| - 1];
      SplitLast(a, b);
      WfConcat(n, a, b');
      MatrixEntryConcat(n, a, b', r, c);
      EntrySnoc(n, a + b, r, c);
      EntrySnoc(n, b, r, c);
      C.AddAssoc(MatrixEntry(Matrix(n, a), r, c), MatrixEntry(Matrix(n, b'), r, c), PartEntry(n, last, r, c));
    }
  }

  lemma WfConcat(n: nat, a: seq<TermMatrix>, b: seq<TermMatrix>)
    requires WfMatrix(Matrix(n, a)) && WfMatrix(Matrix(n, b))
    ensures WfMatrix(Matrix(n, a + b))
    ensures |b| > 0 ==> WfMatrix(Matrix(n, b[..|b| - 1]))
  {
  }

  /** Dropping the last part of a concatenation drops the last part of its
      second half. */
  lemma SplitLast<T>(a: seq<T>, b: seq<T>)
    requires |b| > 0
    ensures (a + b)[..|a + b| - 1] == a + b[..|b| - 1]
    ensures (a + b)[|a + b| - 1] == b[|b| - 1]
  {
  }

  /** One step of the sum: everything but the last part, plus the last part. */
  lemma EntrySnoc(n: nat, ps: seq<TermMatrix>, r: nat, c: nat)
    requires WfMatrix(Matrix(n, ps)) && |ps| > 0
    requires r < Pow2(n) && c < Pow2(n)
    ensures WfMatrix(Matrix(n, ps[..|ps| - 1]))
    ensures MatrixEntry(Matrix(n, ps), r, c)
         == C.Add(MatrixEntry(Matrix(n, ps[..|ps| - 1]), r, c), PartEntry(n, ps[|ps| - 1], r, c))
  {
  }

  // ---------------------------------------------------------------------------
  // Examples.

  /** `X0 Y1 + X2 Z3` has four local operators. */
  lemma CountGatesExample()
    ensures GateTotal([([LocalOp(0, X), LocalOp(1, Y)], C.One), ([LocalOp(2, X), LocalOp(3, Z)], C.One)]) == 4
  {
    var a: NativeTerms := [([LocalOp(0, X), LocalOp(1, Y)], C.One)];
    var b: NativeTerms := [([LocalOp(2, X), LocalOp(3, Z)], C.One)];
    GateTotalConcat(a, b);
    assert a + b == [([LocalOp(0, X), LocalOp(1, Y)], C.One), ([LocalOp(2, X), LocalOp(3, Z)], C.One)];
  }

  /** The identity operator needs an explicit qubit count; `Z3` needs at
      least 4 qubits. */
  lemma MatrixGuardExamples()
    ensures ToMatrix([], Some(2)).None?
    ensures ToMatrix([([], C.One)], None).None?
    ensures ToMatrix([([], C.One)], Some(2)) == Some(Matrix(2, [ScaledIdentity(C.One)]))
    ensures ToMatrix([([LocalOp(3, Z)], C.One)], Some(3)).None?
    ensures ToMatrix([([LocalOp(3, Z)], C.One)], None).Some?
    ensures ToMatrix([([LocalOp(3, Z)], C.One)], None).value.qubits == 4
  {
    var id: NativeTerms := [([], C.One)];
    assert NumTargets(id) == 0;
    var m := ToMatrix(id, Some(2)).value;
    assert m.parts[0].ScaledIdentity? && m.parts[0].coeff == C.One;
    assert m.parts == [ScaledIdentity(C.One)];
    var z3: NativeTerms := [([LocalOp(3, Z)], C.One)];
    assert TermTargets(z3[0].0) == 4;
    assert NumTargets(z3) == 4;
  }
}
