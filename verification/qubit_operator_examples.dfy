/** The worked examples the operator tests fix, derived from the general
    constructor, product, sum and substitution rules. */
module QubitOperatorExamples {
  import opened Wrappers
  import C = ComplexNum
  import opened AssocList
  import opened Text
  import opened TermPolicy
  import opened PauliAlgebra
  import opened QubitOperators

  const One := Num(C.One)

  /** A single-term operator with the given coefficient. */
  function Term(t: Terms, c: Coeff): QubitOperator {
    QubitOperator([(t, c)])
  }

  lemma CoeffRotateZero(c: Coeff)
    ensures CoeffRotate(0, c) == c
  {
    assert MapValues(c.vars, w => C.Rotate(0, w)) == c.vars;
  }

  /** `QubitOperator(s)` for the printed form of a canonical string. */
  lemma FromCanonical(t: Terms, s: string, a: CoeffArg)
    requires Canonical(t) && |t| > 0
    requires forall k :: 0 <= k < |t| ==> Printable(t[k])
    requires JoinTerms(t) == s
    ensures FromString(s, a) == Term(t, CoeffOf(a))
  {
    FromPrinted(t, a);
    NormalizeCanonical(t);
    CoeffRotateZero(CoeffOf(a));
  }

  lemma PrintOne(op: TermValue, q: nat)
    requires q < 10 && op != I
    ensures JoinTerms([LocalOp(q, op)]) == OpToString(op) + [DigitChar(q)]
  {
  }

  /** `QubitOperator('<P><q>')` for a one-digit qubit index. */
  lemma FromSingle(op: TermValue, q: nat, s: string)
    requires q < 10 && op != I
    requires s == OpToString(op) + [DigitChar(q)]
    ensures FromString(s, NumArg(C.One)) == Term([LocalOp(q, op)], One)
  {
    PrintOne(op, q);
    FromCanonical([LocalOp(q, op)], s, NumArg(C.One));
  }

  lemma OneTimesOne()
    ensures CoeffMul(One, One) == Some(One)
  {
    ScaleOneUnfold();
    MulOneOne();
  }

  lemma ScaleOneUnfold()
    ensures CoeffScale(One, C.One) == Num(C.Mul(C.One, C.One))
  {
  }

  lemma MulOneOne()
    ensures Num(C.Mul(C.One, C.One)) == One
  {
    C.MulOneLeft(C.One);
  }

  lemma RotateOne(p: nat)
    requires p < 4
    ensures CoeffRotate(p, One) == Num(C.PhaseFactor(p))
  {
    C.RotatePhase(p, 0);
    var none: Dict<string, C.Complex> := [];
    assert MapValues(none, w => C.Rotate(p, w)) == [];
  }

  /** The Pauli product of two local operators on qubit 1. */
  lemma LocalProduct(a: TermValue, b: TermValue)
    requires a != I && b != I && a != b
    ensures TermMul([LocalOp(1, a)], [LocalOp(1, b)]) == PhasedTerm(OpMul(a, b).phase, [LocalOp(1, OpMul(a, b).op)])
  {
    assert [LocalOp(1, a)][1..] == [] && [LocalOp(1, b)][1..] == [];
  }

  lemma UnitTimes(s: Terms, t: Terms)
    requires Canonical(s) && Canonical(t)
    ensures Times(Term(s, One), Term(t, One))
         == Some(Term(TermMul(s, t).term, CoeffRotate(TermMul(s, t).phase, One)))
  {
    TimesSingle(s, One, t, One);
    OneTimesOne();
  }

  /** Two different Paulis on qubit 1: the product is the single term of the
      table's operator with the table's phase as coefficient. */
  lemma UnitProduct(a: TermValue, b: TermValue)
    requires a != I && b != I && a != b
    ensures Times(Term([LocalOp(1, a)], One), Term([LocalOp(1, b)], One))
         == Some(Term([LocalOp(1, OpMul(a, b).op)], Num(C.PhaseFactor(OpMul(a, b).phase))))
  {
    UnitTimes([LocalOp(1, a)], [LocalOp(1, b)]);
    LocalProduct(a, b);
    RotateOne(OpMul(a, b).phase);
  }

  /** `X1 * Y1` is `(1j) [Z1]`. */
  lemma XTimesY()
    ensures Times(FromString("X1", NumArg(C.One)), FromString("Y1", NumArg(C.One)))
         == Some(Term([LocalOp(1, Z)], Num(C.ImagUnit)))
  {
    FromSingle(X, 1, "X1");
    FromSingle(Y, 1, "Y1");
    UnitProduct(X, Y);
  }

  /** `Y1 * Z1` is `(1j) [X1]`. */
  lemma YTimesZ()
    ensures Times(FromString("Y1", NumArg(C.One)), FromString("Z1", NumArg(C.One)))
         == Some(Term([LocalOp(1, X)], Num(C.ImagUnit)))
  {
    FromSingle(Y, 1, "Y1");
    FromSingle(Z, 1, "Z1");
    UnitProduct(Y, Z);
  }

  /** `Z1 * X1` is `(1j) [Y1]`. */
  lemma ZTimesX()
    ensures Times(FromString("Z1", NumArg(C.One)), FromString("X1", NumArg(C.One)))
         == Some(Term([LocalOp(1, Y)], Num(C.ImagUnit)))
  {
    FromSingle(Z, 1, "Z1");
    FromSingle(X, 1, "X1");
    UnitProduct(Z, X);
  }

  // ---------------------------------------------------------------------------
  // Two qubits, scaling and division.

  const Z1Z2: Terms := [LocalOp(1, Z), LocalOp(2, Z)]
  const X1X2: Terms := [LocalOp(1, X), LocalOp(2, X)]
  const Y1Y2: Terms := [LocalOp(1, Y), LocalOp(2, Y)]

  lemma PrintX1X2()
    ensures JoinTerms(X1X2) == "X1 X2"
  {
    assert TermToString(LocalOp(1, X)) == "X1";
    assert TermToString(LocalOp(2, X)) == "X2";
    assert TermStrings(X1X2) == ["X1", "X2"];
    JoinCons(" ", "X1", ["X2"]);
  }

  /** `QubitOperator('Z1 z2')` is `1 [Z1 Z2]`. */
  lemma FromZ1z2()
    ensures FromString("Z1 z2", NumArg(C.One)) == Term(Z1Z2, One)
  {
    AcceptedLowerCase();
    NormalizeCanonical(Z1Z2);
    CoeffRotateZero(One);
  }

  /** `Z1 z2 * X1 X2` is `-1 [Y1 Y2]`. */
  lemma TwoQubitTimes()
    ensures Times(FromString("Z1 z2", NumArg(C.One)), FromString("X1 X2", NumArg(C.One)))
         == Some(Term(Y1Y2, Num(C.FromReal(-1.0))))
  {
    FromZ1z2();
    FromX1X2();
    StoredTwoQubitTimes();
  }

  lemma FromX1X2()
    ensures FromString("X1 X2", NumArg(C.One)) == Term(X1X2, One)
  {
    PrintX1X2();
    FromCanonical(X1X2, "X1 X2", NumArg(C.One));
  }

  /** The product on the stored operators. */
  lemma StoredTwoQubitTimes()
    ensures Times(Term(Z1Z2, One), Term(X1X2, One)) == Some(Term(Y1Y2, Num(C.FromReal(-1.0))))
  {
    TimesSingle(Z1Z2, One, X1X2, One);
    TwoQubitProduct();
    OneTimesOne();
    RotateOneByTwo();
  }

  /** A phase of i^2 turns the coefficient 1 into -1. */
  lemma RotateOneByTwo()
    ensures CoeffRotate(2, One) == Num(C.FromReal(-1.0))
  {
    var none: Dict<string, C.Complex> := [];
    assert MapValues(none, w => C.Rotate(2, w)) == [];
  }

  /** Then `* 2` gives `-2`, `2 *` gives `-4` and `/ 2.0` gives `-2` again. */
  lemma ScaleChain()
    ensures ScaledBy(Term(Y1Y2, Num(C.FromReal(-1.0))), Num(C.FromReal(2.0)))
         == Some(Term(Y1Y2, Num(C.FromReal(-2.0))))
    ensures Scaled(Term(Y1Y2, Num(C.FromReal(-2.0))), C.FromReal(2.0)) == Term(Y1Y2, Num(C.FromReal(-4.0)))
    ensures DividedBy(Term(Y1Y2, Num(C.FromReal(-4.0))), 2.0) == Term(Y1Y2, Num(C.FromReal(-2.0)))
  {
    TimesTwoRight();
    TimesTwoLeft();
    HalvedBack();
  }

  /** `2 * op` on `-2 [Y1 Y2]`. */
  lemma TimesTwoLeft()
    ensures Scaled(Term(Y1Y2, Num(C.FromReal(-2.0))), C.FromReal(2.0)) == Term(Y1Y2, Num(C.FromReal(-4.0)))
  {
    ScaledNum(Y1Y2, C.FromReal(2.0), C.FromReal(-2.0));
    TwoTimesMinusTwo();
  }

  /** `op / 2.0` on `-4 [Y1 Y2]`. */
  lemma HalvedBack()
    ensures DividedBy(Term(Y1Y2, Num(C.FromReal(-4.0))), 2.0) == Term(Y1Y2, Num(C.FromReal(-2.0)))
  {
    ScaledNum(Y1Y2, C.FromReal(1.0 / 2.0), C.FromReal(-4.0));
    HalfOfMinusFour();
  }

  lemma TwoTimesMinusTwo()
    ensures C.Mul(C.FromReal(2.0), C.FromReal(-2.0)) == C.FromReal(-4.0)
  {
  }

  lemma HalfOfMinusFour()
    ensures C.Mul(C.FromReal(1.0 / 2.0), C.FromReal(-4.0)) == C.FromReal(-2.0)
  {
  }

  /** `op * 2` on `-1 [Y1 Y2]`. */
  lemma TimesTwoRight()
    ensures ScaledBy(Term(Y1Y2, Num(C.FromReal(-1.0))), Num(C.FromReal(2.0)))
         == Some(Term(Y1Y2, Num(C.FromReal(-2.0))))
  {
    assert Canonical(Y1Y2);
    TimesSingle(Y1Y2, Num(C.FromReal(-1.0)), [], Num(C.FromReal(2.0)));
    assert TermMul(Y1Y2, []) == PhasedTerm(0, Y1Y2);
    assert C.Mul(C.FromReal(-1.0), C.FromReal(2.0)) == C.FromReal(-2.0);
    CoeffRotateZero(Num(C.FromReal(-2.0)));
  }

  /** Scaling a single numeric term multiplies its coefficient. */
  lemma ScaledNum(t: Terms, z: C.Complex, w: C.Complex)
    ensures Scaled(Term(t, Num(w)), z) == Term(t, Num(C.Mul(z, w)))
  {
    MapValuesSingle(t, Num(w), c => CoeffScale(c, z));
    assert ScaleVars([], z) == [];
  }

  /** `Z1 z2` squared is `1 []`. */
  lemma SquareIsIdentity()
    ensures Times(FromString("Z1 z2", NumArg(C.One)), FromString("Z1 z2", NumArg(C.One)))
         == Some(Term([], One))
  {
    FromZ1z2();
    TimesSelf(Z1Z2);
  }

  // ---------------------------------------------------------------------------
  // Merging and substitution.

  lemma PrintZ2Z1()
    ensures JoinTerms([LocalOp(2, Z), LocalOp(1, Z)]) == "Z2 Z1"
  {
    assert TermToString(LocalOp(2, Z)) == "Z2";
    assert TermToString(LocalOp(1, Z)) == "Z1";
    assert TermStrings([LocalOp(2, Z), LocalOp(1, Z)]) == ["Z2", "Z1"];
    JoinCons(" ", "Z2", ["Z1"]);
  }

  /** `QubitOperator('Z2 Z1')` is stored under `Z1 Z2`. */
  lemma FromZ2Z1(a: CoeffArg)
    ensures FromString("Z2 Z1", a) == Term(Z1Z2, CoeffOf(a))
  {
    PrintZ2Z1();
    FromPrinted([LocalOp(2, Z), LocalOp(1, Z)], a);
    WrittenOrderIgnored();
    CoeffRotateZero(CoeffOf(a));
  }

  lemma FromNamed(t: Terms, s: string, name: string)
    requires Canonical(t) && |t| > 0
    requires forall k :: 0 <= k < |t| ==> Printable(t[k])
    requires JoinTerms(t) == s
    ensures FromString(s, NameArg(name)) == Term(t, Var(name))
  {
    FromCanonical(t, s, NameArg(name));
  }

  lemma ScaleVarOne(name: string)
    ensures CoeffScale(Var(name), C.One) == Coeff(C.Mul(C.One, C.Zero), [(name, C.Mul(C.One, C.One))])
  {
    ScaleVarsSingle(name, C.One, C.One);
  }

  lemma ScaleVarsSingle(k: string, v: C.Complex, z: C.Complex)
    ensures ScaleVars([(k, v)], z) == [(k, C.Mul(z, v))]
  {
    assert [(k, v)][1..] == [];
  }

  lemma MulOneZero()
    ensures C.Mul(C.One, C.Zero) == C.Zero
  {
    C.MulOneLeft(C.Zero);
  }

  lemma VarTimesOne(name: string)
    ensures CoeffMul(One, Var(name)) == Some(Var(name))
  {
    ScaleVarOne(name);
    MulOneZero();
    C.MulOneLeft(C.One);
  }

  /** Multiplying a canonical string by the resolver `name` puts the
      parameter in its coefficient. */
  lemma ScaledByVar(t: Terms, name: string)
    requires Canonical(t)
    ensures ScaledBy(Term(t, One), Var(name)) == Some(Term(t, Var(name)))
  {
    TimesSingle(t, One, [], Var(name));
    assert TermMul(t, []) == PhasedTerm(0, t);
    VarTimesOne(name);
    CoeffRotateZero(Var(name));
  }

  /** Two single-term operators on the same string merge into one term. */
  lemma PlusSameTerm(t: Terms, c: Coeff, d: Coeff)
    ensures Plus(Term(t, c), Term(t, d)) == Term(t, CoeffAdd(c, d))
  {
    MergeSameKey(t, c, d, CoeffAdd);
  }

  lemma DoubleVar(name: string)
    ensures CoeffAdd(Var(name), Var(name)) == Coeff(C.Add(C.Zero, C.Zero), [(name, C.Add(C.One, C.One))])
  {
    MergeSameKey(name, C.One, C.One, C.Add);
  }

  lemma TwoWeights()
    ensures Coeff(C.Add(C.Zero, C.Zero), [("a", C.Add(C.One, C.One))]) == Coeff(C.Zero, [("a", C.FromReal(2.0))])
  {
  }

  /** `QubitOperator('Z1 Z2', 'a') + ParameterResolver('a') * QubitOperator('Z2 Z1')`
      is `2*a [Z1 Z2]`. */
  lemma MergeRegardlessOfOrder()
    ensures var z2z1 := FromString("Z2 Z1", NumArg(C.One));
            && HasCanonicalKeys(z2z1.terms)
            && ScaledBy(z2z1, Var("a")).Some?
            && Plus(FromString("Z1 Z2", NameArg("a")), ScaledBy(z2z1, Var("a")).value)
               == Term(Z1Z2, Coeff(C.Zero, [("a", C.FromReal(2.0))]))
  {
    var lhs, rhs := FromString("Z1 Z2", NameArg("a")), FromString("Z2 Z1", NumArg(C.One));
    StoredZ1Z2Forms();
    MergeSteps(lhs, rhs);
  }

  /** Both spellings are stored under `Z1 Z2`. */
  lemma StoredZ1Z2Forms()
    ensures FromString("Z1 Z2", NameArg("a")) == Term(Z1Z2, Var("a"))
    ensures FromString("Z2 Z1", NumArg(C.One)) == Term(Z1Z2, CoeffOf(NumArg(C.One)))
  {
    PrintZ1Z2();
    FromNamed(Z1Z2, "Z1 Z2", "a");
    FromZ2Z1(NumArg(C.One));
  }

  /** The steps of the example on the stored operators: scaling `1 [Z1 Z2]`
      by `a`, then merging with `a [Z1 Z2]`. */
  lemma MergeSteps(lhs: QubitOperator, rhs: QubitOperator)
    requires lhs == Term(Z1Z2, Var("a")) && rhs == Term(Z1Z2, CoeffOf(NumArg(C.One)))
    ensures HasCanonicalKeys(rhs.terms)
    ensures ScaledBy(rhs, Var("a")) == Some(Term(Z1Z2, Var("a")))
    ensures Plus(lhs, ScaledBy(rhs, Var("a")).value) == Term(Z1Z2, Coeff(C.Zero, [("a", C.FromReal(2.0))]))
  {
    assert Canonical(Z1Z2);
    ScaledByVar(Z1Z2, "a");
    PlusSameTerm(Z1Z2, Var("a"), Var("a"));
    DoubleVar("a");
    TwoWeights();
  }

  lemma SumOfTwoVars(b: string, a: string)
    requires a != b
    ensures CoeffAdd(Var(b), Var(a)) == Coeff(C.Add(C.Zero, C.Zero), [(b, C.One), (a, C.One)])
  {
    MergeNewKey(b, C.One, a, C.One, C.Add);
  }

  lemma SubsSingle(t: Terms, c: Coeff, values: Dict<string, C.Complex>)
    ensures Subs(Term(t, c), values) == Term(t, CoeffSubs(c, values))
  {
    MapValuesSingle(t, c, c' => CoeffSubs(c', values));
  }

  const Values: Dict<string, C.Complex> := [("a", C.One), ("b", C.FromReal(2.0))]

  lemma ValuesLookup()
    ensures Get(Values, "a") == Some(C.One)
    ensures Get(Values, "b") == Some(C.FromReal(2.0))
  {
    assert "a"[0] != "b"[0];
    assert NoDupKeys(Values);
    assert Values[1] == ("b", C.FromReal(2.0));
  }

  lemma SubsLastVar(z: C.Complex)
    ensures CoeffSubs(Coeff(z, [("a", C.One)]), Values) == Num(C.Add(C.Mul(C.One, C.One), z))
  {
    ValuesLookup();
    assert [("a", C.One)][1..] == [];
  }

  lemma SubsFirstVar(z: C.Complex)
    ensures CoeffSubs(Coeff(z, [("b", C.One), ("a", C.One)]), Values)
         == Num(C.Add(C.Mul(C.One, C.FromReal(2.0)), C.Add(C.Mul(C.One, C.One), z)))
  {
    ValuesLookup();
    assert [("b", C.One), ("a", C.One)][1..] == [("a", C.One)];
    SubsLastVar(z);
  }

  lemma ThreeOnes()
    ensures C.Add(C.Mul(C.One, C.FromReal(2.0)), C.Add(C.Mul(C.One, C.One), C.Add(C.Zero, C.Zero))) == C.FromReal(3.0)
  {
    MulOneTwo();
    MulOneOneValue();
    TwoPlusOne();
  }

  lemma MulOneTwo()
    ensures C.Mul(C.One, C.FromReal(2.0)) == C.FromReal(2.0)
  {
    C.MulOneLeft(C.FromReal(2.0));
  }

  lemma MulOneOneValue()
    ensures C.Mul(C.One, C.One) == C.One
  {
    C.MulOneLeft(C.One);
  }

  lemma TwoPlusOne()
    ensures C.Add(C.FromReal(2.0), C.Add(C.One, C.Add(C.Zero, C.Zero))) == C.FromReal(3.0)
  {
    assert C.Add(C.Zero, C.Zero) == C.Complex(0.0, 0.0);
    assert C.Add(C.One, C.Complex(0.0, 0.0)) == C.Complex(1.0, 0.0);
    assert C.Add(C.FromReal(2.0), C.Complex(1.0, 0.0)) == C.Complex(3.0, 0.0);
  }

  /** `(b [X0] + a [X0]).subs({'a': 1, 'b': 2})` is `3 [X0]`. */
  lemma SubsThenMerge()
    ensures var q := Plus(FromString("X0", NameArg("b")), FromString("X0", NameArg("a")));
            Subs(q, Values) == Term([LocalOp(0, X)], Num(C.FromReal(3.0)))
  {
    var x0 := [LocalOp(0, X)];
    PrintOne(X, 0);
    FromNamed(x0, "X0", "b");
    FromNamed(x0, "X0", "a");
    PlusSameTerm(x0, Var("b"), Var("a"));
    SumOfTwoVars("b", "a");
    SubsSingle(x0, CoeffAdd(Var("b"), Var("a")), Values);
    SubsFirstVar(C.Add(C.Zero, C.Zero));
    ThreeOnes();
  }
}
