/** The Pauli algebra the operator tests pin down: the single-qubit product
    table (with its phase as a power of i), canonical Pauli strings (sorted by
    qubit, no identities), their qubit-by-qubit product, and the
    normalisation of a written list of local operators. */
module PauliAlgebra {
  import opened TermPolicy
  import opened ComplexNum

  // ---------------------------------------------------------------------------
  // One qubit.

  /** i^phase times a local operator; `phase` is kept in 0..3. */
  datatype PhasedOp = PhasedOp(phase: nat, op: TermValue)

  /** The product a·b of two single-qubit Paulis. */
  function OpMul(a: TermValue, b: TermValue): (r: PhasedOp)
    ensures r.phase < 4
    ensures a == I ==> r == PhasedOp(0, b)
    ensures b == I ==> r == PhasedOp(0, a)
    ensures a == b ==> r == PhasedOp(0, I)
    ensures a != I && b != I && a != b ==> r.op != I && r.op != a && r.op != b
    ensures r.op == I <==> a == b
  {
    match (a, b)
    case (I, _) => PhasedOp(0, b)
    case (_, I) => PhasedOp(0, a)
    case (X, X) => PhasedOp(0, I)
    case (Y, Y) => PhasedOp(0, I)
    case (Z, Z) => PhasedOp(0, I)
    case (X, Y) => PhasedOp(1, Z)
    case (Y, X) => PhasedOp(3, Z)
    case (Y, Z) => PhasedOp(1, X)
    case (Z, Y) => PhasedOp(3, X)
    case (Z, X) => PhasedOp(1, Y)
    case (X, Z) => PhasedOp(3, Y)
  }

  /** An entry of a Pauli matrix, or of a product of two: zero or a power
      of i. Entries multiply exactly, by adding exponents. */
  datatype Entry = Nil | Unit(phase: nat)

  predicate ValidEntry(e: Entry) { e.Unit? ==> e.phase < 4 }

  function EntryValue(e: Entry): Complex
    requires ValidEntry(e)
  {
    if e.Nil? then Zero else PhaseFactor(e.phase)
  }

  function EntryMul(e: Entry, f: Entry): (r: Entry)
    requires ValidEntry(e) && ValidEntry(f)
    ensures ValidEntry(r)
    ensures r.Nil? <==> e.Nil? || f.Nil?
  {
    if e.Nil? || f.Nil? then Nil else Unit((e.phase + f.phase) % 4)
  }

  /** The exact product is the complex product. */
  lemma EntryMulValue(e: Entry, f: Entry)
    requires ValidEntry(e) && ValidEntry(f)
    ensures EntryValue(EntryMul(e, f)) == Mul(EntryValue(e), EntryValue(f))
  {
    if e.Nil? {
      MulZeroLeft(EntryValue(f));
    } else if f.Nil? {
      MulZeroRight(EntryValue(e));
    } else {
      UnitMulValue(e.phase, f.phase);
    }
  }

  lemma UnitMulValue(j: nat, k: nat)
    requires j < 4 && k < 4
    ensures EntryValue(EntryMul(Unit(j), Unit(k))) == Mul(EntryValue(Unit(j)), EntryValue(Unit(k)))
  {
    assert EntryValue(EntryMul(Unit(j), Unit(k))) == PhaseFactor((j + k) % 4);
    assert EntryValue(Unit(j)) == PhaseFactor(j) && EntryValue(Unit(k)) == PhaseFactor(k);
    PhaseFactorMul(j, k);
  }

  lemma MulZeroLeft(x: Complex)
    ensures Mul(Zero, x) == Zero
  {
  }

  lemma MulZeroRight(x: Complex)
    ensures Mul(x, Zero) == Zero
  {
  }

  /** The sum of two entries at least one of which is zero. */
  function EntrySum(e: Entry, f: Entry): (r: Entry)
    requires ValidEntry(e) && ValidEntry(f)
    requires e.Nil? || f.Nil?
    ensures ValidEntry(r)
    ensures r.Nil? <==> e.Nil? && f.Nil?
  {
    if e.Nil? then f else e
  }

  /** The exact sum is the complex sum. */
  lemma EntrySumValue(e: Entry, f: Entry)
    requires ValidEntry(e) && ValidEntry(f)
    requires e.Nil? || f.Nil?
    ensures EntryValue(EntrySum(e, f)) == Add(EntryValue(e), EntryValue(f))
  {
  }

  /** Every Pauli matrix has exactly one non-zero entry per row, a power of
      i: row `r` holds i^RowPhase(op, r) in column RowColumn(op, r). */
  function RowColumn(op: TermValue, r: nat): (c: nat)
    requires r < 2
    ensures c < 2
  {
    match op
    case I => r
    case X => 1 - r
    case Y => 1 - r
    case Z => r
  }

  function RowPhase(op: TermValue, r: nat): (p: nat)
    requires r < 2
    ensures p < 4
  {
    match op
    case I => 0
    case X => 0
    case Y => if r == 0 then 3 else 1
    case Z => if r == 0 then 0 else 2
  }

  /** Entry (r, c) of the 2×2 matrix of a local operator. */
  function PauliEntry(op: TermValue, r: nat, c: nat): (e: Entry)
    requires r < 2 && c < 2
    ensures ValidEntry(e)
  {
    if c == RowColumn(op, r) then Unit(RowPhase(op, r)) else Nil
  }

  /** The four matrices written out: I = [[1,0],[0,1]], X = [[0,1],[1,0]],
      Y = [[0,−i],[i,0]], Z = [[1,0],[0,−1]]. */
  lemma PauliMatrices()
    ensures EntryValue(PauliEntry(I, 0, 0)) == One && EntryValue(PauliEntry(I, 0, 1)) == Zero
         && EntryValue(PauliEntry(I, 1, 0)) == Zero && EntryValue(PauliEntry(I, 1, 1)) == One
    ensures EntryValue(PauliEntry(X, 0, 0)) == Zero && EntryValue(PauliEntry(X, 0, 1)) == One
         && EntryValue(PauliEntry(X, 1, 0)) == One && EntryValue(PauliEntry(X, 1, 1)) == Zero
    ensures EntryValue(PauliEntry(Y, 0, 0)) == Zero && EntryValue(PauliEntry(Y, 0, 1)) == Neg(ImagUnit)
         && EntryValue(PauliEntry(Y, 1, 0)) == ImagUnit && EntryValue(PauliEntry(Y, 1, 1)) == Zero
    ensures EntryValue(PauliEntry(Z, 0, 0)) == One && EntryValue(PauliEntry(Z, 0, 1)) == Zero
         && EntryValue(PauliEntry(Z, 1, 0)) == Zero && EntryValue(PauliEntry(Z, 1, 1)) == Neg(One)
  {
  }

  /** Entry (r, c) of the matrix product of two local operators: the sum over
      the middle index, of which only one term is non-zero. Its value is the
      complex sum of products of the factors' entries. */
  function MatMulEntry(a: TermValue, b: TermValue, r: nat, c: nat): (e: Entry)
    requires r < 2 && c < 2
    ensures ValidEntry(e)
  {
    EntrySum(EntryMul(PauliEntry(a, r, 0), PauliEntry(b, 0, c)), EntryMul(PauliEntry(a, r, 1), PauliEntry(b, 1, c)))
  }

  lemma MatMulEntryValue(a: TermValue, b: TermValue, r: nat, c: nat)
    requires r < 2 && c < 2
    ensures EntryValue(MatMulEntry(a, b, r, c))
         == Add(Mul(EntryValue(PauliEntry(a, r, 0)), EntryValue(PauliEntry(b, 0, c))),
                Mul(EntryValue(PauliEntry(a, r, 1)), EntryValue(PauliEntry(b, 1, c))))
  {
    SumOfProducts(PauliEntry(a, r, 0), PauliEntry(b, 0, c), PauliEntry(a, r, 1), PauliEntry(b, 1, c));
  }

  /** A sum of two entry products, one of them zero, is the complex sum of
      the complex products. */
  lemma SumOfProducts(e0: Entry, f0: Entry, e1: Entry, f1: Entry)
    requires ValidEntry(e0) && ValidEntry(f0) && ValidEntry(e1) && ValidEntry(f1)
    requires EntryMul(e0, f0).Nil? || EntryMul(e1, f1).Nil?
    ensures EntryValue(EntrySum(EntryMul(e0, f0), EntryMul(e1, f1)))
         == Add(Mul(EntryValue(e0), EntryValue(f0)), Mul(EntryValue(e1), EntryValue(f1)))
  {
    var p0, p1 := EntryMul(e0, f0), EntryMul(e1, f1);
    EntryMulValue(e0, f0);
    EntryMulValue(e1, f1);
    EntrySumValue(p0, p1);
  }

  /** The product table agrees with the Pauli matrices: the matrix of a·b is
      i^phase times the matrix of the table's operator, entry by entry. */
  lemma OpMulMatchesMatrices(a: TermValue, b: TermValue, r: nat, c: nat)
    requires r < 2 && c < 2
    ensures MatMulEntry(a, b, r, c) == EntryMul(Unit(OpMul(a, b).phase), PauliEntry(OpMul(a, b).op, r, c))
  {
  }

  // ---------------------------------------------------------------------------
  // Pauli strings.

  /** A Pauli string in canonical form: no identity factors and strictly
      increasing qubit indices, so each qubit carries at most one operator. */
  predicate Canonical(t: Terms) {
    && (forall k :: 0 <= k < |t| ==> t[k].op != I)
    && (forall i, j :: 0 <= i < j < |t| ==> t[i].qubit < t[j].qubit)
  }

  predicate InSupport(t: Terms, q: nat) {
    exists k :: 0 <= k < |t| && t[k].qubit == q
  }

  /** The operator a Pauli string applies to qubit `q` (identity if none). */
  function OpAt(t: Terms, q: nat): (r: TermValue)
    ensures r != I ==> InSupport(t, q)
    ensures Canonical(t) && InSupport(t, q) ==> r != I
  {
    if |t| == 0 then I
    else if t[0].qubit == q then t[0].op
    else OpAt(t[1..], q)
  }

  /** The exponent of i^p · i^q, kept in 0..3. */
  function AddPhase(p: nat, q: nat): (r: nat)
    ensures r < 4
  {
    (p + q) % 4
  }

  /** i^phase times a Pauli string. */
  datatype PhasedTerm = PhasedTerm(phase: nat, term: Terms)

  /** The product of two canonical Pauli strings, merged qubit by qubit: on a
      shared qubit the single-qubit table applies and an identity result
      drops out; phases add modulo 4. */
  function TermMul(a: Terms, b: Terms): (r: PhasedTerm)
    requires Canonical(a) && Canonical(b)
    ensures r.phase < 4
    ensures Canonical(r.term)
    ensures forall k :: 0 <= k < |r.term| ==> InSupport(a, r.term[k].qubit) || InSupport(b, r.term[k].qubit)
    decreases |a| + |b|
  {
    if |a| == 0 then PhasedTerm(0, b)
    else if |b| == 0 then PhasedTerm(0, a)
    else if a[0].qubit < b[0].qubit then
      var rest := TermMul(a[1..], b);
      SupportAbove(a[1..], b, rest.term, a[0].qubit);
      Extend(a[0], rest.term, a, b, a[1..], b);
      PhasedTerm(rest.phase, [a[0]] + rest.term)
    else if b[0].qubit < a[0].qubit then
      var rest := TermMul(a, b[1..]);
      SupportAbove(a, b[1..], rest.term, b[0].qubit);
      Extend(b[0], rest.term, a, b, a, b[1..]);
      PhasedTerm(rest.phase, [b[0]] + rest.term)
    else
      var p := OpMul(a[0].op, b[0].op);
      var rest := TermMul(a[1..], b[1..]);
      SupportAbove(a[1..], b[1..], rest.term, a[0].qubit);
      if p.op == I then
        Widen(rest.term, a, b, a[1..], b[1..]);
        PhasedTerm(AddPhase(p.phase, rest.phase), rest.term)
      else
        Extend(LocalOp(a[0].qubit, p.op), rest.term, a, b, a[1..], b[1..]);
        PhasedTerm(AddPhase(p.phase, rest.phase), [LocalOp(a[0].qubit, p.op)] + rest.term)
  }

  /** Qubits in the support of `a'` or `b'` are in that of `a` or `b`, for
      `a'`, `b'` each the string itself or its tail. */
  lemma Widen(r: Terms, a: Terms, b: Terms, a': Terms, b': Terms)
    requires |a| > 0 && |b| > 0
    requires (a' == a[1..] || a' == a) && (b' == b[1..] || b' == b)
    requires forall k :: 0 <= k < |r| ==> InSupport(a', r[k].qubit) || InSupport(b', r[k].qubit)
    ensures forall k :: 0 <= k < |r| ==> InSupport(a, r[k].qubit) || InSupport(b, r[k].qubit)
  {
    forall k | 0 <= k < |r|
      ensures InSupport(a, r[k].qubit) || InSupport(b, r[k].qubit)
    {
      if InSupport(a', r[k].qubit) {
        var j :| 0 <= j < |a'| && a'[j].qubit == r[k].qubit;
        if a' != a {
          assert a[j + 1] == a'[j];
        }
      } else {
        var j :| 0 <= j < |b'| && b'[j].qubit == r[k].qubit;
        if b' != b {
          assert b[j + 1] == b'[j];
        }
      }
    }
  }

  /** Putting a non-identity operator on a qubit of `a` or `b` in front of
      a product that lies above it keeps the result canonical and within
      the support. */
  lemma Extend(x: LocalOp, r: Terms, a: Terms, b: Terms, a': Terms, b': Terms)
    requires |a| > 0 && |b| > 0
    requires (a' == a[1..] || a' == a) && (b' == b[1..] || b' == b)
    requires x.op != I && Canonical(r)
    requires x.qubit == a[0].qubit || x.qubit == b[0].qubit
    requires forall k :: 0 <= k < |r| ==> r[k].qubit > x.qubit
    requires forall k :: 0 <= k < |r| ==> InSupport(a', r[k].qubit) || InSupport(b', r[k].qubit)
    ensures Canonical([x] + r)
    ensures forall k :: 0 <= k < |[x] + r| ==> InSupport(a, ([x] + r)[k].qubit) || InSupport(b, ([x] + r)[k].qubit)
  {
    Widen(r, a, b, a', b');
    var t := [x] + r;
    forall k | 0 <= k < |t|
      ensures InSupport(a, t[k].qubit) || InSupport(b, t[k].qubit)
    {
      if k > 0 {
        assert t[k] == r[k - 1];
      } else if x.qubit == a[0].qubit {
        assert InSupport(a, a[0].qubit);
      } else {
        assert InSupport(b, b[0].qubit);
      }
    }
  }

  /** A string whose qubits all come from `a` and `b` lies above any bound
      both of them lie above. */
  lemma SupportAbove(a: Terms, b: Terms, r: Terms, q: nat)
    requires forall k :: 0 <= k < |a| ==> a[k].qubit > q
    requires forall k :: 0 <= k < |b| ==> b[k].qubit > q
    requires forall k :: 0 <= k < |r| ==> InSupport(a, r[k].qubit) || InSupport(b, r[k].qubit)
    ensures forall k :: 0 <= k < |r| ==> r[k].qubit > q
  {
  }

  lemma OpAtAbove(t: Terms, q: nat)
    requires forall k :: 0 <= k < |t| ==> t[k].qubit > q
    ensures OpAt(t, q) == I
  {
  }

  /** The product acts qubit by qubit: on every qubit the result carries the
      single-qubit product of the two factors' operators there. */
  lemma {:induction false} TermMulQubitwise(a: Terms, b: Terms, q: nat)
    requires Canonical(a) && Canonical(b)
    ensures OpAt(TermMul(a, b).term, q) == OpMul(OpAt(a, q), OpAt(b, q)).op
    decreases |a| + |b|, 1
  {
    if |a| == 0 || |b| == 0 {
    } else if a[0].qubit < b[0].qubit {
      QubitwiseFromA(a, b, q);
    } else if b[0].qubit < a[0].qubit {
      QubitwiseFromB(a, b, q);
    } else {
      QubitwiseShared(a, b, q);
    }
  }

  /** The three steps of that induction, by which string holds the lowest
      qubit. */
  lemma {:induction false} QubitwiseFromA(a: Terms, b: Terms, q: nat)
    requires Canonical(a) && Canonical(b) && |a| > 0 && |b| > 0 && a[0].qubit < b[0].qubit
    ensures OpAt(TermMul(a, b).term, q) == OpMul(OpAt(a, q), OpAt(b, q)).op
    decreases |a| + |b|, 0
  {
    TermMulQubitwise(a[1..], b, q);
    if q == a[0].qubit {
      OpAtAbove(b, q);
    }
  }

  lemma {:induction false} QubitwiseFromB(a: Terms, b: Terms, q: nat)
    requires Canonical(a) && Canonical(b) && |a| > 0 && |b| > 0 && b[0].qubit < a[0].qubit
    ensures OpAt(TermMul(a, b).term, q) == OpMul(OpAt(a, q), OpAt(b, q)).op
    decreases |a| + |b|, 0
  {
    TermMulQubitwise(a, b[1..], q);
    if q == b[0].qubit {
      OpAtAbove(a, q);
    }
  }

  lemma {:induction false} QubitwiseShared(a: Terms, b: Terms, q: nat)
    requires Canonical(a) && Canonical(b) && |a| > 0 && |b| > 0 && a[0].qubit == b[0].qubit
    ensures OpAt(TermMul(a, b).term, q) == OpMul(OpAt(a, q), OpAt(b, q)).op
    decreases |a| + |b|, 0
  {
    var rest := TermMul(a[1..], b[1..]);
    TermMulQubitwise(a[1..], b[1..], q);
    if q == a[0].qubit {
      SupportAbove(a[1..], b[1..], rest.term, q);
      OpAtAbove(rest.term, q);
    }
  }

  /** Two canonical strings that agree on every qubit are equal. */
  lemma {:induction false} CanonicalExtensional(s: Terms, t: Terms)
    requires Canonical(s) && Canonical(t)
    requires forall q :: OpAt(s, q) == OpAt(t, q)
    ensures s == t
    decreases |s| + |t|
  {
    if |s| > 0 {
      OpAtIndex(s, 0);
    }
    if |t| > 0 {
      OpAtIndex(t, 0);
    }
    if |s| == 0 && |t| == 0 {
    } else if |s| == 0 || |t| == 0 {
      assert false;
    } else {
      var qs, qt := s[0].qubit, t[0].qubit;
      if qs < qt {
        OpAtAbove(t, qs);
        assert false;
      } else if qt < qs {
        OpAtAbove(s, qt);
        assert false;
      } else {
        forall q
          ensures OpAt(s[1..], q) == OpAt(t[1..], q)
        {
          if q == qs {
            OpAtAbove(s[1..], q);
            OpAtAbove(t[1..], q);
          } else {
            assert OpAt(s, q) == OpAt(s[1..], q);
            assert OpAt(t, q) == OpAt(t[1..], q);
          }
        }
        CanonicalExtensional(s[1..], t[1..]);
        assert s == [s[0]] + s[1..] && t == [t[0]] + t[1..];
      }
    }
  }

  /** A Pauli string times itself is the identity with phase 0. */
  lemma {:induction false} TermMulSelf(t: Terms)
    requires Canonical(t)
    ensures TermMul(t, t) == PhasedTerm(0, [])
    decreases |t|
  {
    if |t| > 0 {
      TermMulSelf(t[1..]);
    }
  }

  /** The policy's hermitian conjugate is the inverse of a Pauli string. */
  lemma HermitianIsInverse(t: Terms)
    requires Canonical(t)
    ensures TermMul(t, HermitianTerms(t)) == PhasedTerm(0, [])
  {
    TermMulSelf(t);
  }

  /** Strings on disjoint qubits multiply without phase. */
  lemma {:induction false} TermMulDisjoint(a: Terms, b: Terms)
    requires Canonical(a) && Canonical(b)
    requires forall q :: !(InSupport(a, q) && InSupport(b, q))
    ensures TermMul(a, b).phase == 0
    decreases |a| + |b|
  {
    if |a| == 0 || |b| == 0 {
    } else if a[0].qubit < b[0].qubit {
      TermMulDisjoint(a[1..], b);
    } else if b[0].qubit < a[0].qubit {
      TermMulDisjoint(a, b[1..]);
    } else {
      assert InSupport(a, a[0].qubit) && InSupport(b, a[0].qubit);
    }
  }

  /** The exponent of i the single-qubit table contributes on qubit `q`
      when `a` is multiplied by `b`. */
  function QubitPhase(a: Terms, b: Terms, q: nat): (p: nat)
    ensures p < 4
  {
    OpMul(OpAt(a, q), OpAt(b, q)).phase
  }

  /** The exponents of i contributed by the qubits `lo` to `m` − 1, added
      up without reduction. */
  function PhaseSum(a: Terms, b: Terms, lo: nat, m: nat): nat
    decreases m - lo
  {
    if lo >= m then 0 else QubitPhase(a, b, lo) + PhaseSum(a, b, lo + 1, m)
  }

  /** The phase of a product of Pauli strings is the sum, modulo 4, of the
      phases of the single-qubit products on the qubits below any bound of
      both supports. */
  lemma TermMulPhase(a: Terms, b: Terms, m: nat)
    requires Canonical(a) && Canonical(b)
    requires forall k :: 0 <= k < |a| ==> a[k].qubit < m
    requires forall k :: 0 <= k < |b| ==> b[k].qubit < m
    ensures TermMul(a, b).phase == PhaseSum(a, b, 0, m) % 4
  {
    TermMulPhaseFrom(a, b, 0, m);
  }

  /** Every qubit of `t` lies in `lo` to `m` − 1. */
  predicate Within(t: Terms, lo: nat, m: nat) {
    forall k :: 0 <= k < |t| ==> lo <= t[k].qubit < m
  }

  lemma {:induction false} TermMulPhaseFrom(a: Terms, b: Terms, lo: nat, m: nat)
    requires Canonical(a) && Canonical(b)
    requires Within(a, lo, m) && Within(b, lo, m)
    ensures TermMul(a, b).phase == PhaseSum(a, b, lo, m) % 4
    decreases |a| + |b|, 1
  {
    if |a| == 0 || |b| == 0 {
      PhaseSumIdentity(a, b, lo, m);
    } else if a[0].qubit < b[0].qubit {
      PhaseFromA(a, b, lo, m);
    } else if b[0].qubit < a[0].qubit {
      PhaseFromB(a, b, lo, m);
    } else {
      PhaseFromShared(a, b, lo, m);
    }
  }

  lemma WithinTail(t: Terms, lo: nat, m: nat)
    requires Canonical(t) && |t| > 0 && Within(t, lo, m)
    ensures Canonical(t[1..]) && Within(t[1..], t[0].qubit + 1, m)
    ensures lo <= t[0].qubit < m
  {
  }

  lemma WithinAbove(t: Terms, lo: nat, q0: nat, m: nat)
    requires Canonical(t) && |t| > 0 && Within(t, lo, m) && q0 < t[0].qubit
    ensures Within(t, q0 + 1, m)
  {
  }

  /** The three steps of the induction, by which string holds the lowest
      qubit `q0`: the phase of the rest of the product, summed from
      `q0` + 1, extends to the whole. */
  lemma {:induction false} PhaseFromA(a: Terms, b: Terms, lo: nat, m: nat)
    requires Canonical(a) && Canonical(b) && |a| > 0 && |b| > 0
    requires Within(a, lo, m) && Within(b, lo, m) && a[0].qubit < b[0].qubit
    ensures TermMul(a, b).phase == PhaseSum(a, b, lo, m) % 4
    decreases |a| + |b|, 0
  {
    StepA(a, b, lo, m);
    TermMulPhaseFrom(a[1..], b, a[0].qubit + 1, m);
    EqualChain(TermMul(a, b).phase, TermMul(a[1..], b).phase,
               PhaseSum(a[1..], b, a[0].qubit + 1, m), PhaseSum(a, b, lo, m));
  }

  lemma {:induction false} PhaseFromB(a: Terms, b: Terms, lo: nat, m: nat)
    requires Canonical(a) && Canonical(b) && |a| > 0 && |b| > 0
    requires Within(a, lo, m) && Within(b, lo, m) && b[0].qubit < a[0].qubit
    ensures TermMul(a, b).phase == PhaseSum(a, b, lo, m) % 4
    decreases |a| + |b|, 0
  {
    StepB(a, b, lo, m);
    TermMulPhaseFrom(a, b[1..], b[0].qubit + 1, m);
    EqualChain(TermMul(a, b).phase, TermMul(a, b[1..]).phase,
               PhaseSum(a, b[1..], b[0].qubit + 1, m), PhaseSum(a, b, lo, m));
  }

  lemma {:induction false} PhaseFromShared(a: Terms, b: Terms, lo: nat, m: nat)
    requires Canonical(a) && Canonical(b) && |a| > 0 && |b| > 0
    requires Within(a, lo, m) && Within(b, lo, m) && a[0].qubit == b[0].qubit
    ensures TermMul(a, b).phase == PhaseSum(a, b, lo, m) % 4
    decreases |a| + |b|, 0
  {
    StepShared(a, b, lo, m);
    TermMulPhaseFrom(a[1..], b[1..], a[0].qubit + 1, m);
    ModChain(TermMul(a, b).phase, QubitPhase(a, b, a[0].qubit), TermMul(a[1..], b[1..]).phase,
             PhaseSum(a[1..], b[1..], a[0].qubit + 1, m), PhaseSum(a, b, lo, m));
  }

  /** What each step needs besides the induction hypothesis: the remaining
      strings meet the hypothesis' preconditions from `q0` + 1 on, and both
      the product's phase and the phase sum split at `q0` alike. */
  lemma StepA(a: Terms, b: Terms, lo: nat, m: nat)
    requires Canonical(a) && Canonical(b) && |a| > 0 && |b| > 0
    requires Within(a, lo, m) && Within(b, lo, m) && a[0].qubit < b[0].qubit
    ensures Canonical(a[1..]) && Within(a[1..], a[0].qubit + 1, m) && Within(b, a[0].qubit + 1, m)
    ensures TermMul(a, b).phase == TermMul(a[1..], b).phase
    ensures PhaseSum(a, b, lo, m) % 4 == PhaseSum(a[1..], b, a[0].qubit + 1, m) % 4
  {
    WithinTail(a, lo, m);
    WithinAbove(b, lo, a[0].qubit, m);
    TermMulFirstFromA(a, b);
    PhaseSumHeadA(a, b, lo, m);
    ModOfEqual(PhaseSum(a, b, lo, m), PhaseSum(a[1..], b, a[0].qubit + 1, m));
  }

  lemma StepB(a: Terms, b: Terms, lo: nat, m: nat)
    requires Canonical(a) && Canonical(b) && |a| > 0 && |b| > 0
    requires Within(a, lo, m) && Within(b, lo, m) && b[0].qubit < a[0].qubit
    ensures Canonical(b[1..]) && Within(a, b[0].qubit + 1, m) && Within(b[1..], b[0].qubit + 1, m)
    ensures TermMul(a, b).phase == TermMul(a, b[1..]).phase
    ensures PhaseSum(a, b, lo, m) % 4 == PhaseSum(a, b[1..], b[0].qubit + 1, m) % 4
  {
    WithinAbove(a, lo, b[0].qubit, m);
    WithinTail(b, lo, m);
    TermMulFirstFromB(a, b);
    PhaseSumHeadB(a, b, lo, m);
    ModOfEqual(PhaseSum(a, b, lo, m), PhaseSum(a, b[1..], b[0].qubit + 1, m));
  }

  lemma StepShared(a: Terms, b: Terms, lo: nat, m: nat)
    requires Canonical(a) && Canonical(b) && |a| > 0 && |b| > 0
    requires Within(a, lo, m) && Within(b, lo, m) && a[0].qubit == b[0].qubit
    ensures Canonical(a[1..]) && Canonical(b[1..])
    ensures Within(a[1..], a[0].qubit + 1, m) && Within(b[1..], a[0].qubit + 1, m)
    ensures TermMul(a, b).phase == AddPhase(QubitPhase(a, b, a[0].qubit), TermMul(a[1..], b[1..]).phase)
    ensures PhaseSum(a, b, lo, m) == QubitPhase(a, b, a[0].qubit) + PhaseSum(a[1..], b[1..], a[0].qubit + 1, m)
  {
    WithinTail(a, lo, m);
    WithinTail(b, lo, m);
    TermMulFirstShared(a, b);
    PhaseSumHeadShared(a, b, lo, m);
  }

  /** The phase of a product, by which string holds the lowest qubit. */
  lemma TermMulFirstFromA(a: Terms, b: Terms)
    requires Canonical(a) && Canonical(b) && |a| > 0 && |b| > 0
    requires a[0].qubit < b[0].qubit
    ensures TermMul(a, b).phase == TermMul(a[1..], b).phase
  {
  }

  lemma TermMulFirstFromB(a: Terms, b: Terms)
    requires Canonical(a) && Canonical(b) && |a| > 0 && |b| > 0
    requires b[0].qubit < a[0].qubit
    ensures TermMul(a, b).phase == TermMul(a, b[1..]).phase
  {
  }

  lemma TermMulFirstShared(a: Terms, b: Terms)
    requires Canonical(a) && Canonical(b) && |a| > 0 && |b| > 0
    requires a[0].qubit == b[0].qubit
    ensures TermMul(a, b).phase == AddPhase(QubitPhase(a, b, a[0].qubit), TermMul(a[1..], b[1..]).phase)
  {
    assert OpAt(a, a[0].qubit) == a[0].op && OpAt(b, a[0].qubit) == b[0].op;
  }

  /** With an empty factor no qubit contributes a phase. */
  lemma PhaseSumIdentity(a: Terms, b: Terms, lo: nat, m: nat)
    requires |a| == 0 || |b| == 0
    ensures PhaseSum(a, b, lo, m) == 0
  {
    if lo <= m {
      forall q | lo <= q < m
        ensures QubitPhase(a, b, q) == 0
      {
      }
      PhaseSumSkip(a, b, lo, m, m);
    }
  }

  /** The phase sum of the three induction steps, split at the lowest qubit
      `q0`: only `q0` and the qubits above it contribute, and above `q0` the
      strings with their factors on `q0` removed give the same sum. */
  lemma PhaseSumHeadA(a: Terms, b: Terms, lo: nat, m: nat)
    requires Canonical(a) && Canonical(b) && |a| > 0 && |b| > 0
    requires lo <= a[0].qubit < b[0].qubit && a[0].qubit < m
    ensures PhaseSum(a, b, lo, m) == PhaseSum(a[1..], b, a[0].qubit + 1, m)
  {
    var q0 := a[0].qubit;
    PhaseSumBelowHead(a, b, lo, q0, m);
    PhaseSumDropHead(a, b, q0, m);
    OpAtBelowHead(b, q0);
    assert QubitPhase(a, b, q0) == 0;
    DropHead(a, q0);
    DropKeep(b, q0);
  }

  lemma PhaseSumHeadB(a: Terms, b: Terms, lo: nat, m: nat)
    requires Canonical(a) && Canonical(b) && |a| > 0 && |b| > 0
    requires lo <= b[0].qubit < a[0].qubit && b[0].qubit < m
    ensures PhaseSum(a, b, lo, m) == PhaseSum(a, b[1..], b[0].qubit + 1, m)
  {
    var q0 := b[0].qubit;
    PhaseSumBelowHead(a, b, lo, q0, m);
    PhaseSumDropHead(a, b, q0, m);
    OpAtBelowHead(a, q0);
    assert QubitPhase(a, b, q0) == 0;
    DropKeep(a, q0);
    DropHead(b, q0);
  }

  lemma PhaseSumHeadShared(a: Terms, b: Terms, lo: nat, m: nat)
    requires Canonical(a) && Canonical(b) && |a| > 0 && |b| > 0
    requires lo <= a[0].qubit == b[0].qubit < m
    ensures PhaseSum(a, b, lo, m) == QubitPhase(a, b, a[0].qubit) + PhaseSum(a[1..], b[1..], a[0].qubit + 1, m)
  {
    var q0 := a[0].qubit;
    PhaseSumBelowHead(a, b, lo, q0, m);
    PhaseSumUnfold(a, b, q0, m);
    PhaseSumDropHead(a, b, q0, m);
    DropHead(a, q0);
    DropHead(b, q0);
  }

  /** A string with its factor on `q0` removed, if that factor heads it. */
  function Drop(t: Terms, q0: nat): (r: Terms)
    ensures |r| <= |t|
  {
    if |t| > 0 && t[0].qubit == q0 then t[1..] else t
  }

  lemma PhaseSumUnfold(a: Terms, b: Terms, q0: nat, m: nat)
    requires q0 < m
    ensures PhaseSum(a, b, q0, m) == QubitPhase(a, b, q0) + PhaseSum(a, b, q0 + 1, m)
  {
  }

  lemma DropHead(t: Terms, q0: nat)
    requires |t| > 0 && t[0].qubit == q0
    ensures Drop(t, q0) == t[1..]
  {
  }

  lemma DropKeep(t: Terms, q0: nat)
    requires |t| > 0 && t[0].qubit != q0
    ensures Drop(t, q0) == t
  {
  }

  lemma PhaseSumBelowHead(a: Terms, b: Terms, lo: nat, q0: nat, m: nat)
    requires Canonical(a) && Canonical(b) && |a| > 0 && |b| > 0
    requires lo <= q0 && q0 <= a[0].qubit && q0 <= b[0].qubit
    ensures PhaseSum(a, b, lo, m) == PhaseSum(a, b, q0, m)
  {
    forall q | lo <= q < q0
      ensures QubitPhase(a, b, q) == 0
    {
      OpAtBelowHead(a, q);
      OpAtBelowHead(b, q);
    }
    PhaseSumSkip(a, b, lo, q0, m);
  }

  lemma PhaseSumDropHead(a: Terms, b: Terms, q0: nat, m: nat)
    ensures PhaseSum(a, b, q0 + 1, m) == PhaseSum(Drop(a, q0), Drop(b, q0), q0 + 1, m)
  {
    forall q | q0 + 1 <= q < m
      ensures QubitPhase(a, b, q) == QubitPhase(Drop(a, q0), Drop(b, q0), q)
    {
      OpAtDrop(a, q0, q);
      OpAtDrop(b, q0, q);
    }
    PhaseSumAgree(a, b, Drop(a, q0), Drop(b, q0), q0 + 1, m);
  }

  lemma OpAtBelowHead(t: Terms, q: nat)
    requires Canonical(t) && |t| > 0 && q < t[0].qubit
    ensures OpAt(t, q) == I
  {
    OpAtAbove(t, q);
  }

  /** Removing the factor on `q0` does not change the operator on any other
      qubit. */
  lemma OpAtDrop(t: Terms, q0: nat, q: nat)
    requires q != q0
    ensures OpAt(t, q) == OpAt(Drop(t, q0), q)
  {
  }

  /** Qubits contributing nothing can be skipped. */
  lemma {:induction false} PhaseSumSkip(a: Terms, b: Terms, lo: nat, q0: nat, m: nat)
    requires lo <= q0
    requires forall q :: lo <= q < q0 ==> QubitPhase(a, b, q) == 0
    ensures PhaseSum(a, b, lo, m) == PhaseSum(a, b, q0, m)
    decreases q0 - lo
  {
    if lo < q0 && lo < m {
      PhaseSumSkip(a, b, lo + 1, q0, m);
    }
  }

  /** Pairs of strings with the same per-qubit phases on a range have the
      same sum there. */
  lemma {:induction false} PhaseSumAgree(a: Terms, b: Terms, a': Terms, b': Terms, lo: nat, m: nat)
    requires forall q :: lo <= q < m ==> QubitPhase(a, b, q) == QubitPhase(a', b', q)
    ensures PhaseSum(a, b, lo, m) == PhaseSum(a', b', lo, m)
    decreases m - lo
  {
    if lo < m {
      PhaseSumAgree(a, b, a', b', lo + 1, m);
    }
  }

  /** x = t with t = y mod 4 and s mod 4 = y mod 4 is s mod 4. */
  lemma EqualChain(x: nat, t: nat, y: nat, s: nat)
    requires x == t && t == y % 4 && s % 4 == y % 4
    ensures x == s % 4
  {
  }

  lemma ModOfEqual(s: nat, t: nat)
    requires s == t
    ensures s % 4 == t % 4
  {
  }

  /** i^p · i^t with t = y mod 4 has exponent (p + y) mod 4. */
  lemma ModChain(x: nat, p: nat, t: nat, y: nat, s: nat)
    requires x == AddPhase(p, t) && t == y % 4 && s == p + y
    ensures x == s % 4
  {
  }


  // ---------------------------------------------------------------------------
  // Normalising a written list of local operators.

  /** A local operator as a one-factor string (the identity drops out). */
  function Single(l: LocalOp): (t: Terms)
    ensures Canonical(t)
  {
    if l.op == I then [] else [l]
  }

  /** The product, in written order, of the local operators of a list:
      `Z2 Z1` and `Z1 Z2` both become the sorted string `Z1 Z2`, and `X1 Y1`
      becomes i·`Z1`. */
  function Normalize(ts: Terms): (r: PhasedTerm)
    ensures r.phase < 4
    ensures Canonical(r.term)
  {
    if |ts| == 0 then PhasedTerm(0, [])
    else
      var prefix := Normalize(ts[..|ts| - 1]);
      var p := TermMul(prefix.term, Single(ts[|ts| - 1]));
      PhasedTerm(AddPhase(prefix.phase, p.phase), p.term)
  }

  /** The operator a written list applies to qubit `q`: the product, in
      order, of the entries on `q`. */
  function ProductAt(ts: Terms, q: nat): TermValue {
    if |ts| == 0 then I
    else
      var last := ts[|ts| - 1];
      OpMul(ProductAt(ts[..|ts| - 1], q), if last.qubit == q then last.op else I).op
  }

  lemma OpAtSingle(l: LocalOp, q: nat)
    ensures OpAt(Single(l), q) == if l.qubit == q then l.op else I
  {
  }

  /** Normalisation works qubit by qubit. */
  lemma {:induction false} NormalizeQubitwise(ts: Terms, q: nat)
    ensures OpAt(Normalize(ts).term, q) == ProductAt(ts, q)
  {
    if |ts| > 0 {
      var prefix := Normalize(ts[..|ts| - 1]);
      NormalizeQubitwise(ts[..|ts| - 1], q);
      TermMulQubitwise(prefix.term, Single(ts[|ts| - 1]), q);
      OpAtSingle(ts[|ts| - 1], q);
    }
  }

  /** Every qubit of a list's normal form is written somewhere in the list. */
  lemma {:induction false} NormalizeSupport(ts: Terms, q: nat)
    requires InSupport(Normalize(ts).term, q)
    ensures exists k :: 0 <= k < |ts| && ts[k].qubit == q
  {
    var n := Normalize(ts).term;
    var k :| 0 <= k < |n| && n[k].qubit == q;
    var prefix := Normalize(ts[..|ts| - 1]);
    var s := Single(ts[|ts| - 1]);
    assert InSupport(prefix.term, q) || InSupport(s, q);
    if InSupport(prefix.term, q) {
      NormalizeSupport(ts[..|ts| - 1], q);
      var j :| 0 <= j < |ts| - 1 && ts[..|ts| - 1][j].qubit == q;
      assert ts[j].qubit == q;
    } else {
      assert ts[|ts| - 1].qubit == q;
    }
  }

  /** A list that writes each qubit at most once (identities aside)
      normalises with phase 0. */
  predicate DistinctQubits(ts: Terms) {
    forall i, j :: 0 <= i < j < |ts| ==> ts[i].qubit != ts[j].qubit
  }

  lemma {:induction false} NormalizeDistinctPhase(ts: Terms)
    requires DistinctQubits(ts)
    ensures Normalize(ts).phase == 0
  {
    if |ts| > 0 {
      var init := ts[..|ts| - 1];
      var last := ts[|ts| - 1];
      assert DistinctQubits(init);
      NormalizeDistinctPhase(init);
      NormalizeDisjointFromLast(init, last);
      TermMulDisjoint(Normalize(init).term, Single(last));
    }
  }

  lemma NormalizeDisjointFromLast(init: Terms, last: LocalOp)
    requires forall k :: 0 <= k < |init| ==> init[k].qubit != last.qubit
    ensures forall q :: !(InSupport(Normalize(init).term, q) && InSupport(Single(last), q))
  {
    forall q | InSupport(Normalize(init).term, q)
      ensures !InSupport(Single(last), q)
    {
      NormalizeSupport(init, q);
    }
  }

  /** On a list with distinct qubits, the product at a qubit is the operator
      written for it (or the identity). */
  lemma {:induction false} ProductAtDistinct(ts: Terms, q: nat, k: nat)
    requires DistinctQubits(ts)
    requires k < |ts| && ts[k].qubit == q
    ensures ProductAt(ts, q) == ts[k].op
  {
    var init := ts[..|ts| - 1];
    if k == |ts| - 1 {
      ProductAtAbsent(init, q);
    } else {
      ProductAtDistinct(init, q, k);
    }
  }

  lemma {:induction false} ProductAtAbsent(ts: Terms, q: nat)
    requires forall k :: 0 <= k < |ts| ==> ts[k].qubit != q
    ensures ProductAt(ts, q) == I
  {
    if |ts| > 0 {
      ProductAtAbsent(ts[..|ts| - 1], q);
    }
  }

  /** Merging ignores the written order: two lists holding the same local
      operators, each qubit at most once, normalise to the same string with
      phase 0. */
  lemma NormalizeOrderIndependent(s: Terms, t: Terms)
    requires DistinctQubits(s) && DistinctQubits(t)
    requires forall l :: l in s <==> l in t
    ensures Normalize(s) == Normalize(t)
    ensures Normalize(s).phase == 0
  {
    NormalizeDistinctPhase(s);
    NormalizeDistinctPhase(t);
    forall q
      ensures OpAt(Normalize(s).term, q) == OpAt(Normalize(t).term, q)
    {
      NormalizeQubitwise(s, q);
      NormalizeQubitwise(t, q);
      SameOpsSameProduct(s, t, q);
    }
    CanonicalExtensional(Normalize(s).term, Normalize(t).term);
  }

  lemma SameOpsSameProduct(s: Terms, t: Terms, q: nat)
    requires DistinctQubits(s) && DistinctQubits(t)
    requires forall l :: l in s <==> l in t
    ensures ProductAt(s, q) == ProductAt(t, q)
  {
    if k :| 0 <= k < |s| && s[k].qubit == q {
      assert s[k] in t;
      var m :| 0 <= m < |t| && t[m] == s[k];
      ProductAtDistinct(s, q, k);
      ProductAtDistinct(t, q, m);
    } else {
      ProductAtAbsent(s, q);
      forall j | 0 <= j < |t|
        ensures t[j].qubit != q
      {
        assert t[j] in s;
      }
      ProductAtAbsent(t, q);
    }
  }

  /** A canonical string is already normal. */
  lemma {:induction false} NormalizeCanonical(t: Terms)
    requires Canonical(t)
    ensures Normalize(t) == PhasedTerm(0, t)
  {
    assert DistinctQubits(t);
    NormalizeDistinctPhase(t);
    forall q
      ensures OpAt(Normalize(t).term, q) == OpAt(t, q)
    {
      NormalizeQubitwise(t, q);
      if k :| 0 <= k < |t| && t[k].qubit == q {
        ProductAtDistinct(t, q, k);
        OpAtIndex(t, k);
      } else {
        ProductAtAbsent(t, q);
      }
    }
    CanonicalExtensional(Normalize(t).term, t);
  }

  lemma {:induction false} OpAtIndex(t: Terms, k: nat)
    requires Canonical(t) && k < |t|
    ensures OpAt(t, t[k].qubit) == t[k].op
  {
    if k > 0 {
      OpAtIndex(t[1..], k - 1);
    }
  }

  /** The exponent of i collected by multiplying out, in written order, the
      operators a list writes on qubit `q`, added up step by step without
      reduction. */
  function WrittenPhaseAt(ts: Terms, q: nat): nat {
    if |ts| == 0 then 0
    else
      var last := ts[|ts| - 1];
      WrittenPhaseAt(ts[..|ts| - 1], q)
        + OpMul(ProductAt(ts[..|ts| - 1], q), if last.qubit == q then last.op else I).phase
  }

  /** Those exponents added up over the qubits `lo` to `m` − 1. */
  function WrittenPhaseSum(ts: Terms, lo: nat, m: nat): nat
    decreases m - lo
  {
    if lo >= m then 0 else WrittenPhaseAt(ts, lo) + WrittenPhaseSum(ts, lo + 1, m)
  }

  /** The phase of a normal form is the sum, modulo 4, over the qubits of
      the phases met while multiplying out each qubit's operators in written
      order, for any bound above every written qubit. */
  lemma {:induction false} NormalizePhase(ts: Terms, m: nat)
    requires Within(ts, 0, m)
    ensures Normalize(ts).phase == WrittenPhaseSum(ts, 0, m) % 4
  {
    if |ts| == 0 {
      WrittenPhaseSumEmpty(ts, 0, m);
    } else {
      var init, last := ts[..|ts| - 1], ts[|ts| - 1];
      NormalizeStep(ts, m);
      NormalizePhase(init, m);
      ModSumChain(Normalize(ts).phase, Normalize(init).phase, TermMul(Normalize(init).term, Single(last)).phase,
                  WrittenPhaseSum(init, 0, m), PhaseSum(Normalize(init).term, Single(last), 0, m),
                  WrittenPhaseSum(ts, 0, m));
    }
  }

  /** One more written operator: the normal form's phase gains that of the
      product with it, and so does the written-order sum, qubit by qubit. */
  lemma NormalizeStep(ts: Terms, m: nat)
    requires |ts| > 0 && Within(ts, 0, m)
    ensures Within(ts[..|ts| - 1], 0, m)
    ensures Normalize(ts).phase
         == AddPhase(Normalize(ts[..|ts| - 1]).phase, TermMul(Normalize(ts[..|ts| - 1]).term, Single(ts[|ts| - 1])).phase)
    ensures TermMul(Normalize(ts[..|ts| - 1]).term, Single(ts[|ts| - 1])).phase
         == PhaseSum(Normalize(ts[..|ts| - 1]).term, Single(ts[|ts| - 1]), 0, m) % 4
    ensures WrittenPhaseSum(ts, 0, m)
         == WrittenPhaseSum(ts[..|ts| - 1], 0, m) + PhaseSum(Normalize(ts[..|ts| - 1]).term, Single(ts[|ts| - 1]), 0, m)
  {
    var init, last := ts[..|ts| - 1], ts[|ts| - 1];
    NormalizeWithin(init, m);
    TermMulPhase(Normalize(init).term, Single(last), m);
    WrittenPhaseSumStep(ts, 0, m);
  }

  /** The normal form of a list stays below any bound of its qubits. */
  lemma NormalizeWithin(ts: Terms, m: nat)
    requires Within(ts, 0, m)
    ensures Within(Normalize(ts).term, 0, m)
  {
    var n := Normalize(ts).term;
    forall k | 0 <= k < |n|
      ensures n[k].qubit < m
    {
      assert InSupport(n, n[k].qubit);
      NormalizeSupport(ts, n[k].qubit);
    }
  }

  lemma {:induction false} WrittenPhaseSumEmpty(ts: Terms, lo: nat, m: nat)
    requires |ts| == 0
    ensures WrittenPhaseSum(ts, lo, m) == 0
    decreases m - lo
  {
    if lo < m {
      WrittenPhaseSumEmpty(ts, lo + 1, m);
    }
  }

  /** The exponent of i^a · i^t with a = w mod 4 and t = p mod 4 is
      (w + p) mod 4. */
  lemma ModSumChain(x: nat, a: nat, t: nat, w: nat, p: nat, s: nat)
    requires x == AddPhase(a, t) && a == w % 4 && t == p % 4 && s == w + p
    ensures x == s % 4
  {
  }

  /** Writing one more operator adds, qubit by qubit, the phase of
      multiplying the normal form so far by it. */
  lemma {:induction false} WrittenPhaseSumStep(ts: Terms, lo: nat, m: nat)
    requires |ts| > 0
    ensures WrittenPhaseSum(ts, lo, m)
         == WrittenPhaseSum(ts[..|ts| - 1], lo, m) + PhaseSum(Normalize(ts[..|ts| - 1]).term, Single(ts[|ts| - 1]), lo, m)
    decreases m - lo
  {
    if lo < m {
      WrittenPhaseSumStep(ts, lo + 1, m);
      NormalizeQubitwise(ts[..|ts| - 1], lo);
      OpAtSingle(ts[|ts| - 1], lo);
    }
  }

  // ---------------------------------------------------------------------------
  // The products the operator tests check.

  lemma SingleQubitProducts()
    ensures OpMul(X, Y) == PhasedOp(1, Z)   // X·Y = iZ
    ensures OpMul(Y, Z) == PhasedOp(1, X)   // Y·Z = iX
    ensures OpMul(Z, X) == PhasedOp(1, Y)   // Z·X = iY
  {
  }

  /** (Z1 Z2)·(X1 X2) = i·i·(Y1 Y2) = −Y1 Y2. */
  lemma TwoQubitProduct()
    ensures TermMul([LocalOp(1, Z), LocalOp(2, Z)], [LocalOp(1, X), LocalOp(2, X)])
         == PhasedTerm(2, [LocalOp(1, Y), LocalOp(2, Y)])
    ensures PhaseFactor(2) == Neg(One)
  {
    var a := [LocalOp(1, Z), LocalOp(2, Z)];
    var b := [LocalOp(1, X), LocalOp(2, X)];
    assert a[1..] == [LocalOp(2, Z)] && b[1..] == [LocalOp(2, X)];
    assert TermMul(a[1..], b[1..]) == PhasedTerm(1, [LocalOp(2, Y)]);
  }

  /** `Z2 Z1` is stored as `Z1 Z2`. */
  lemma WrittenOrderIgnored()
    ensures Normalize([LocalOp(2, Z), LocalOp(1, Z)]) == PhasedTerm(0, [LocalOp(1, Z), LocalOp(2, Z)])
  {
    var s, t := [LocalOp(2, Z), LocalOp(1, Z)], [LocalOp(1, Z), LocalOp(2, Z)];
    assert forall l :: l in s <==> l in t;
    NormalizeToCanonical(s, t);
  }

  lemma NormalizeToCanonical(s: Terms, t: Terms)
    requires DistinctQubits(s) && Canonical(t)
    requires forall l :: l in s <==> l in t
    ensures Normalize(s) == PhasedTerm(0, t)
  {
    NormalizeOrderIndependent(s, t);
    NormalizeCanonical(t);
  }
}
