/** The Python-level `QubitOperator` algebra: a dictionary from canonical
    Pauli strings to ParameterResolver coefficients, with construction from a
    term string, addition that merges equal strings, scaling, products,
    `subs`, and iteration over single-term operators. */
module QubitOperators {
  import opened Wrappers
  import C = ComplexNum
  import opened AssocList
  import opened TermPolicy
  import opened PauliAlgebra

  // ---------------------------------------------------------------------------
  // Coefficients.

  /** A linear ParameterResolver with complex weights: const + Σ weight·name. */
  datatype Coeff = Coeff(constant: C.Complex, vars: Dict<string, C.Complex>)

  predicate WfCoeff(c: Coeff) { NoDupKeys(c.vars) }

  predicate IsConst(c: Coeff) { |c.vars| == 0 }

  function Num(z: C.Complex): Coeff { Coeff(z, []) }

  /** `ParameterResolver(name)`: the parameter with weight 1. */
  function Var(name: string): Coeff { Coeff(C.Zero, [(name, C.One)]) }

  /** Sum of two resolvers: constants add, weights of a shared name add, a
      name only one side has keeps its weight. */
  function CoeffAdd(c: Coeff, d: Coeff): (r: Coeff)
    ensures WfCoeff(c) ==> WfCoeff(r)
  {
    Coeff(C.Add(c.constant, d.constant), Merge(c.vars, d.vars, C.Add))
  }

  lemma CoeffAddWeights(c: Coeff, d: Coeff, v: string)
    requires WfCoeff(d)
    ensures Get(CoeffAdd(c, d).vars, v) == Combined(Get(c.vars, v), Get(d.vars, v), C.Add)
  {
    MergeGet(c.vars, d.vars, C.Add, v);
  }

  /** A resolver times a number: every part scales. */
  function CoeffScale(c: Coeff, z: C.Complex): (r: Coeff)
    ensures Keys(r.vars) == Keys(c.vars)
    ensures WfCoeff(c) ==> WfCoeff(r)
  {
    Coeff(C.Mul(z, c.constant), ScaleVars(c.vars, z))
  }

  /** Every parameter weight times `z`; written out rather than through
      `MapValues` so that the products stay out of a quantified axiom. */
  function ScaleVars(d: Dict<string, C.Complex>, z: C.Complex): (r: Dict<string, C.Complex>)
    ensures |r| == |d|
    ensures forall i :: 0 <= i < |d| ==> r[i].0 == d[i].0
    ensures Keys(r) == Keys(d)
  {
    if |d| == 0 then [] else [(d[0].0, C.Mul(z, d[0].1))] + ScaleVars(d[1..], z)
  }

  /** Each weight is multiplied, position by position. */
  lemma {:induction false} ScaleVarsAt(d: Dict<string, C.Complex>, z: C.Complex, i: nat)
    requires i < |d|
    ensures ScaleVars(d, z)[i].1 == C.Mul(z, d[i].1)
  {
    if i > 0 {
      ScaleVarsAt(d[1..], z, i - 1);
    }
  }

  /** A resolver times i^p: the constant and every weight rotated by p
      quarter turns, names kept in order. */
  function CoeffRotate(p: nat, c: Coeff): (r: Coeff)
    requires p < 4
    ensures Keys(r.vars) == Keys(c.vars)
    ensures WfCoeff(c) ==> WfCoeff(r)
    ensures r.constant == C.Rotate(p, c.constant)
    ensures |r.vars| == |c.vars|
    ensures forall i :: 0 <= i < |c.vars| ==> r.vars[i] == (c.vars[i].0, C.Rotate(p, c.vars[i].1))
  {
    MapValuesKeys(c.vars, w => C.Rotate(p, w));
    Coeff(C.Rotate(p, c.constant), MapValues(c.vars, w => C.Rotate(p, w)))
  }

  /** Rotating by p is scaling by the number i^p. */
  lemma CoeffRotateIsScale(p: nat, c: Coeff)
    requires p < 4
    ensures CoeffRotate(p, c) == CoeffScale(c, C.PhaseFactor(p))
  {
    var r, s := CoeffRotate(p, c), CoeffScale(c, C.PhaseFactor(p));
    C.RotateIsMul(p, c.constant);
    forall i | 0 <= i < |c.vars|
      ensures r.vars[i] == s.vars[i]
    {
      ScaleVarsAt(c.vars, C.PhaseFactor(p), i);
      C.RotateIsMul(p, c.vars[i].1);
    }
  }

  /** Product of two resolvers; linear resolvers stay linear only when one
      side is a plain number, and the product of two parameterised ones is
      outside the model. */
  function CoeffMul(c: Coeff, d: Coeff): (r: Option<Coeff>)
    ensures r.Some? <==> IsConst(c) || IsConst(d)
    ensures IsConst(c) ==> r == Some(CoeffScale(d, c.constant))
    ensures !IsConst(c) && IsConst(d) ==> r == Some(CoeffScale(c, d.constant))
  {
    if IsConst(c) then Some(CoeffScale(d, c.constant))
    else if IsConst(d) then Some(CoeffScale(c, d.constant))
    else None
  }

  /** Σ weight·value over the parameters that `values` gives a value. */
  function GivenSum(vars: Dict<string, C.Complex>, values: Dict<string, C.Complex>): C.Complex {
    if |vars| == 0 then C.Zero
    else
      var rest := GivenSum(vars[1..], values);
      match Get(values, vars[0].0)
      case Some(x) => C.Add(C.Mul(vars[0].1, x), rest)
      case None => rest
  }

  /** The parameters that `values` leaves without a value, in order. */
  function Unset(vars: Dict<string, C.Complex>, values: Dict<string, C.Complex>): Dict<string, C.Complex> {
    if |vars| == 0 then []
    else (if HasKey(values, vars[0].0) then [] else [vars[0]]) + Unset(vars[1..], values)
  }

  /** `subs`: every parameter given a value is replaced by weight·value and
      folded into the constant; parameters not given stay symbolic. */
  function CoeffSubs(c: Coeff, values: Dict<string, C.Complex>): (r: Coeff)
    ensures forall i :: 0 <= i < |r.vars| ==> !HasKey(values, r.vars[i].0)
    ensures forall i :: 0 <= i < |r.vars| ==> r.vars[i] in c.vars
    ensures r.constant == C.Add(c.constant, GivenSum(c.vars, values))
    ensures r.vars == Unset(c.vars, values)
    decreases |c.vars|
  {
    if |c.vars| == 0 then c
    else
      var (v, w) := c.vars[0];
      var rest := CoeffSubs(Coeff(c.constant, c.vars[1..]), values);
      match Get(values, v)
      case Some(x) => Coeff(C.Add(C.Mul(w, x), rest.constant), rest.vars)
      case None => Coeff(rest.constant, [(v, w)] + rest.vars)
  }

  /** A resolver all of whose parameters are given becomes the number
      const + Σ weight·value. */
  lemma {:induction false} CoeffSubsComplete(c: Coeff, values: Dict<string, C.Complex>)
    requires forall i :: 0 <= i < |c.vars| ==> HasKey(values, c.vars[i].0)
    ensures IsConst(CoeffSubs(c, values))
    ensures CoeffSubs(c, values) == Num(C.Add(c.constant, GivenSum(c.vars, values)))
    decreases |c.vars|
  {
    if |c.vars| > 0 {
      var rest := Coeff(c.constant, c.vars[1..]);
      forall i | 0 <= i < |rest.vars|
        ensures HasKey(values, rest.vars[i].0)
      {
        assert rest.vars[i] == c.vars[i + 1];
      }
      CoeffSubsComplete(rest, values);
      assert HasKey(values, c.vars[0].0);
    }
  }

  /** Substituting nothing changes nothing. */
  lemma {:induction false} CoeffSubsNothing(c: Coeff)
    ensures CoeffSubs(c, []) == c
    decreases |c.vars|
  {
    GivenSumNothing(c.vars);
    UnsetNothing(c.vars);
  }

  lemma {:induction false} GivenSumNothing(vars: Dict<string, C.Complex>)
    ensures GivenSum(vars, []) == C.Zero
  {
    if |vars| > 0 {
      GivenSumNothing(vars[1..]);
      var none: Dict<string, C.Complex> := [];
      assert Get(none, vars[0].0) == None;
    }
  }

  lemma {:induction false} UnsetNothing(vars: Dict<string, C.Complex>)
    ensures Unset(vars, []) == vars
  {
    if |vars| > 0 {
      UnsetNothing(vars[1..]);
      var none: Dict<string, C.Complex> := [];
      assert !HasKey(none, vars[0].0);
      assert [vars[0]] + vars[1..] == vars;
    }
  }

  /** Equality of resolvers: same constant and the same weights, in any
      order. */
  predicate CoeffEq(c: Coeff, d: Coeff) {
    c.constant == d.constant && SameMapping(c.vars, d.vars)
  }

  // ---------------------------------------------------------------------------
  // Operators.

  /** `terms`: canonical Pauli string ↦ coefficient, in insertion order; the
      empty string is the identity term. */
  datatype QubitOperator = QubitOperator(terms: Dict<Terms, Coeff>)

  predicate HasCanonicalKeys(d: Dict<Terms, Coeff>) {
    forall i :: 0 <= i < |d| ==> Canonical(d[i].0)
  }

  predicate Wf(a: QubitOperator) {
    && NoDupKeys(a.terms)
    && HasCanonicalKeys(a.terms)
    && (forall i :: 0 <= i < |a.terms| ==> WfCoeff(a.terms[i].1))
  }

  /** `QubitOperator()`: no terms. */
  const ZeroOp := QubitOperator([])

  /** The coefficient argument of the constructor. */
  datatype CoeffArg = NumArg(z: C.Complex) | NameArg(name: string) | ResolverArg(pr: Coeff)

  function CoeffOf(a: CoeffArg): Coeff {
    match a
    case NumArg(z) => Num(z)
    case NameArg(name) => Var(name)
    case ResolverArg(pr) => pr
  }

  /** `QubitOperator(term, coefficient)`: the term string is parsed (a
      failed parse gives the empty list, the identity), multiplied out into
      a canonical string, and its phase moves into the coefficient. */
  function FromString(s: string, a: CoeffArg): (r: QubitOperator)
    ensures |r.terms| == 1 && Canonical(r.terms[0].0)
    ensures WfCoeff(CoeffOf(a)) ==> Wf(r)
  {
    var n := Normalize(ParseTermsString(s));
    QubitOperator([(n.term, CoeffRotate(n.phase, CoeffOf(a)))])
  }

  /** The constructor on a printed list of local operators. */
  lemma FromPrinted(ts: Terms, a: CoeffArg)
    requires |ts| > 0
    requires forall k :: 0 <= k < |ts| ==> Printable(ts[k])
    ensures FromString(JoinTerms(ts), a).terms
         == [(Normalize(ts).term, CoeffRotate(Normalize(ts).phase, CoeffOf(a)))]
  {
    ParsePrintedTerms(ts);
  }

  /** `+`: the right operand's terms are merged into the left one's. */
  function Plus(a: QubitOperator, b: QubitOperator): (r: QubitOperator)
    ensures NoDupKeys(a.terms) ==> NoDupKeys(r.terms)
  {
    QubitOperator(Merge(a.terms, b.terms, CoeffAdd))
  }

  /** Every string of a sum carries the sum of its coefficients on the two
      sides, or the one side's coefficient. */
  lemma PlusGet(a: QubitOperator, b: QubitOperator, t: Terms)
    requires Wf(b)
    ensures Get(Plus(a, b).terms, t) == Combined(Get(a.terms, t), Get(b.terms, t), CoeffAdd)
  {
    MergeGet(a.terms, b.terms, CoeffAdd, t);
  }

  /** Sums of well-formed operators are well formed. */
  lemma PlusWf(a: QubitOperator, b: QubitOperator)
    requires Wf(a) && Wf(b)
    ensures Wf(Plus(a, b))
  {
    var r := Plus(a, b).terms;
    forall i | 0 <= i < |r|
      ensures Canonical(r[i].0) && WfCoeff(r[i].1)
    {
      var t := r[i].0;
      PlusGet(a, b, t);
      assert Get(r, t) == Some(r[i].1);
      if HasKey(a.terms, t) {
        var j :| 0 <= j < |a.terms| && a.terms[j].0 == t;
        assert Get(a.terms, t) == Some(a.terms[j].1);
      }
      if HasKey(b.terms, t) {
        var j :| 0 <= j < |b.terms| && b.terms[j].0 == t;
        assert Get(b.terms, t) == Some(b.terms[j].1);
      }
    }
  }

  /** Multiplication by a number scales every coefficient. */
  function Scaled(a: QubitOperator, z: C.Complex): (r: QubitOperator)
    ensures Keys(r.terms) == Keys(a.terms)
  {
    MapValuesKeys(a.terms, c => CoeffScale(c, z));
    QubitOperator(MapValues(a.terms, c => CoeffScale(c, z)))
  }

  lemma ScaledGet(a: QubitOperator, z: C.Complex, t: Terms)
    ensures Get(Scaled(a, z).terms, t)
         == match Get(a.terms, t) case None => None case Some(c) => Some(CoeffScale(c, z))
  {
    MapValuesGet(a.terms, c => CoeffScale(c, z), t);
  }

  /** `/ x` for a non-zero real x. */
  function DividedBy(a: QubitOperator, x: real): QubitOperator
    requires x != 0.0
  {
    Scaled(a, C.FromReal(1.0 / x))
  }

  /** Unary minus and `-`. */
  function Negated(a: QubitOperator): QubitOperator {
    Scaled(a, C.FromReal(-1.0))
  }

  function Minus(a: QubitOperator, b: QubitOperator): QubitOperator {
    Plus(a, Negated(b))
  }

  /** One term times every term of `b`, products summed in order. */
  function TermTimes(t: Terms, c: Coeff, b: Dict<Terms, Coeff>): (r: Option<QubitOperator>)
    requires Canonical(t) && HasCanonicalKeys(b)
    ensures r.Some? <==> RowMultipliable(c, b)
    ensures r.Some? ==> NoDupKeys(r.value.terms)
    decreases |b|
  {
    if |b| == 0 then Some(ZeroOp)
    else
      RowSplit(c, b);
      var p := TermMul(t, b[0].0);
      var k :- CoeffMul(c, b[0].1);
      var rest :- TermTimes(t, c, b[1..]);
      Some(Plus(QubitOperator([(p.term, CoeffRotate(p.phase, k))]), rest))
  }

  /** `*`: every pair of terms multiplied, the phase of the Pauli product
      moved into the coefficient, and all products summed. */
  function Times(a: QubitOperator, b: QubitOperator): (r: Option<QubitOperator>)
    requires HasCanonicalKeys(a.terms) && HasCanonicalKeys(b.terms)
    ensures r.Some? <==> Multipliable(a.terms, b.terms)
    ensures r.Some? ==> NoDupKeys(r.value.terms)
    decreases |a.terms|
  {
    if |a.terms| == 0 then Some(ZeroOp)
    else
      MultipliableSplit(a.terms, b.terms);
      var first :- TermTimes(a.terms[0].0, a.terms[0].1, b.terms);
      var rest :- Times(QubitOperator(a.terms[1..]), b);
      Some(Plus(first, rest))
  }

  /** Every pair of coefficients can be multiplied: in each pair one side
      is a plain number. */
  predicate Multipliable(a: Dict<Terms, Coeff>, b: Dict<Terms, Coeff>) {
    forall i, j :: 0 <= i < |a| && 0 <= j < |b| ==> IsConst(a[i].1) || IsConst(b[j].1)
  }

  /** `c` can be multiplied by every coefficient of `b`. */
  predicate RowMultipliable(c: Coeff, b: Dict<Terms, Coeff>) {
    forall j :: 0 <= j < |b| ==> IsConst(c) || IsConst(b[j].1)
  }

  lemma RowSplit(c: Coeff, b: Dict<Terms, Coeff>)
    requires |b| > 0
    ensures RowMultipliable(c, b) <==> (IsConst(c) || IsConst(b[0].1)) && RowMultipliable(c, b[1..])
  {
    assert forall j :: 0 <= j < |b| - 1 ==> b[1..][j] == b[j + 1];
  }

  lemma MultipliableSplit(a: Dict<Terms, Coeff>, b: Dict<Terms, Coeff>)
    requires |a| > 0
    ensures Multipliable(a, b) <==> RowMultipliable(a[0].1, b) && Multipliable(a[1..], b)
  {
    assert forall i :: 0 <= i < |a| - 1 ==> a[1..][i] == a[i + 1];
  }

  /** The contribution of term i of one operator and term j of the other to
      the string `s`: the coefficient product times the phase of the Pauli
      product, when that product is `s`. */
  function PairTerm(s: Terms, t: Terms, c: Coeff, u: Terms, d: Coeff): Option<Coeff>
    requires Canonical(t) && Canonical(u) && (IsConst(c) || IsConst(d))
  {
    var p := TermMul(t, u);
    if p.term == s then Some(CoeffRotate(p.phase, CoeffMul(c, d).value)) else None
  }

  /** Σ over j of the contributions of the pairs (t, b_j) to `s`. */
  function RowSum(s: Terms, t: Terms, c: Coeff, b: Dict<Terms, Coeff>): Option<Coeff>
    requires Canonical(t) && HasCanonicalKeys(b) && RowMultipliable(c, b)
  {
    if |b| == 0 then None
    else
      RowSplit(c, b);
      Combined(PairTerm(s, t, c, b[0].0, b[0].1), RowSum(s, t, c, b[1..]), CoeffAdd)
  }

  /** Σ over all pairs (i, j), row by row, of the contributions to `s`;
      None when no pair contributes. */
  function ProductSum(s: Terms, a: Dict<Terms, Coeff>, b: Dict<Terms, Coeff>): Option<Coeff>
    requires HasCanonicalKeys(a) && HasCanonicalKeys(b) && Multipliable(a, b)
  {
    if |a| == 0 then None
    else
      MultipliableSplit(a, b);
      Combined(RowSum(s, a[0].0, a[0].1, b), ProductSum(s, a[1..], b), CoeffAdd)
  }

  /** The coefficient of one term times `b` at string `s` sums the
      contributions of the pairs that multiply to `s`. */
  lemma {:induction false} TermTimesGet(t: Terms, c: Coeff, b: Dict<Terms, Coeff>, s: Terms)
    requires Canonical(t) && HasCanonicalKeys(b) && RowMultipliable(c, b)
    ensures TermTimes(t, c, b).Some?
    ensures Get(TermTimes(t, c, b).value.terms, s) == RowSum(s, t, c, b)
    decreases |b|
  {
    if |b| > 0 {
      var p := TermMul(t, b[0].0);
      var k := CoeffRotate(p.phase, CoeffMul(c, b[0].1).value);
      TermTimesCons(t, c, b);
      var rest := TermTimes(t, c, b[1..]).value;
      TermTimesGet(t, c, b[1..], s);
      MergeGet([(p.term, k)], rest.terms, CoeffAdd, s);
      GetSingle(p.term, k, s);
      RowSumCons(s, t, c, b);
    }
  }

  /** One term times a non-empty dictionary: the product with its first
      term, plus the product with the others. */
  lemma TermTimesCons(t: Terms, c: Coeff, b: Dict<Terms, Coeff>)
    requires Canonical(t) && HasCanonicalKeys(b) && RowMultipliable(c, b) && |b| > 0
    ensures RowMultipliable(c, b[1..]) && TermTimes(t, c, b[1..]).Some?
    ensures TermTimes(t, c, b)
         == Some(Plus(QubitOperator([(TermMul(t, b[0].0).term,
                                      CoeffRotate(TermMul(t, b[0].0).phase, CoeffMul(c, b[0].1).value))]),
                      TermTimes(t, c, b[1..]).value))
  {
    RowSplit(c, b);
  }

  lemma RowSumCons(s: Terms, t: Terms, c: Coeff, b: Dict<Terms, Coeff>)
    requires Canonical(t) && HasCanonicalKeys(b) && RowMultipliable(c, b) && |b| > 0
    ensures RowMultipliable(c, b[1..])
    ensures RowSum(s, t, c, b) == Combined(PairTerm(s, t, c, b[0].0, b[0].1), RowSum(s, t, c, b[1..]), CoeffAdd)
  {
    RowSplit(c, b);
  }

  /** Looking up a one-entry dictionary. */
  lemma GetSingle<K, V>(k: K, v: V, s: K)
    ensures Get([(k, v)], s) == if k == s then Some(v) else None
  {
  }

  /** Multi-term products: the coefficient of every string of a * b is the
      sum, over the pairs of terms whose Pauli product is that string, of the
      coefficient product times the phase. */
  lemma {:induction false} TimesGet(a: QubitOperator, b: QubitOperator, s: Terms)
    requires HasCanonicalKeys(a.terms) && HasCanonicalKeys(b.terms) && Multipliable(a.terms, b.terms)
    ensures Times(a, b).Some?
    ensures Get(Times(a, b).value.terms, s) == ProductSum(s, a.terms, b.terms)
    decreases |a.terms|
  {
    if |a.terms| > 0 {
      var rest := QubitOperator(a.terms[1..]);
      MultipliableSplit(a.terms, b.terms);
      TermTimesGet(a.terms[0].0, a.terms[0].1, b.terms, s);
      TimesGet(rest, b, s);
      MergeGet(TermTimes(a.terms[0].0, a.terms[0].1, b.terms).value.terms, Times(rest, b).value.terms, CoeffAdd, s);
    }
  }

  /** A single term times a single term is the single term of the Pauli
      product, with the phase times the product of the coefficients. */
  lemma TimesSingle(s: Terms, c: Coeff, t: Terms, d: Coeff)
    requires Canonical(s) && Canonical(t)
    requires IsConst(c) || IsConst(d)
    ensures Times(QubitOperator([(s, c)]), QubitOperator([(t, d)]))
         == Some(QubitOperator([(TermMul(s, t).term, CoeffRotate(TermMul(s, t).phase, CoeffMul(c, d).value))]))
  {
    TimesOneTerm(s, c, QubitOperator([(t, d)]));
    TermTimesOneTerm(s, c, t, d);
  }

  /** Adding the operator with no terms changes nothing. */
  lemma PlusZero(a: QubitOperator)
    ensures Plus(a, ZeroOp) == a
  {
  }

  /** A single-term operator times `b` is that term times every term of `b`. */
  lemma TimesOneTerm(s: Terms, c: Coeff, b: QubitOperator)
    requires Canonical(s) && HasCanonicalKeys(b.terms)
    ensures Times(QubitOperator([(s, c)]), b) == TermTimes(s, c, b.terms)
  {
    assert [(s, c)][1..] == [];
    assert Times(QubitOperator([]), b) == Some(ZeroOp);
    if TermTimes(s, c, b.terms).Some? {
      PlusZero(TermTimes(s, c, b.terms).value);
    }
  }

  lemma TermTimesOneTerm(s: Terms, c: Coeff, t: Terms, d: Coeff)
    requires Canonical(s) && Canonical(t)
    requires IsConst(c) || IsConst(d)
    ensures TermTimes(s, c, [(t, d)])
         == Some(QubitOperator([(TermMul(s, t).term, CoeffRotate(TermMul(s, t).phase, CoeffMul(c, d).value))]))
  {
    RowSplit(c, [(t, d)]);
    TermTimesCons(s, c, [(t, d)]);
    assert [(t, d)][1..] == [];
    PlusZero(QubitOperator([(TermMul(s, t).term, CoeffRotate(TermMul(s, t).phase, CoeffMul(c, d).value))]));
  }

  /** A Pauli string with coefficient 1 squares to the identity with
      coefficient 1. */
  lemma TimesSelf(t: Terms)
    requires Canonical(t)
    ensures Times(QubitOperator([(t, Num(C.One))]), QubitOperator([(t, Num(C.One))]))
         == Some(QubitOperator([([], Num(C.One))]))
  {
    TimesSingle(t, Num(C.One), t, Num(C.One));
    TermMulSelf(t);
    C.MulOneLeft(C.One);
  }

  /** Multiplication by a resolver (`op *= ParameterResolver(...)`, `2 * op`):
      the product with the constant operator. */
  function ScaledBy(a: QubitOperator, k: Coeff): (r: Option<QubitOperator>)
    requires HasCanonicalKeys(a.terms)
  {
    Times(a, QubitOperator([([], k)]))
  }

  /** `subs`: every coefficient evaluated on the given values. */
  function Subs(a: QubitOperator, values: Dict<string, C.Complex>): (r: QubitOperator)
    ensures Keys(r.terms) == Keys(a.terms)
  {
    MapValuesKeys(a.terms, c => CoeffSubs(c, values));
    QubitOperator(MapValues(a.terms, c => CoeffSubs(c, values)))
  }

  lemma SubsGet(a: QubitOperator, values: Dict<string, C.Complex>, t: Terms)
    ensures Get(Subs(a, values).terms, t)
         == match Get(a.terms, t) case None => None case Some(c) => Some(CoeffSubs(c, values))
  {
    MapValuesGet(a.terms, c => CoeffSubs(c, values), t);
  }

  /** Iteration: one single-term operator per term, in stored order. */
  function Singles(a: QubitOperator): (r: seq<QubitOperator>)
    ensures |r| == |a.terms|
    ensures forall i :: 0 <= i < |r| ==> r[i] == QubitOperator([a.terms[i]])
  {
    seq(|a.terms|, i requires 0 <= i < |a.terms| => QubitOperator([a.terms[i]]))
  }

  /** `sum(ops)`, starting from the operator with no terms. */
  function SumOps(ops: seq<QubitOperator>): QubitOperator {
    if |ops| == 0 then ZeroOp else Plus(SumOps(ops[..|ops| - 1]), ops[|ops| - 1])
  }

  /** Summing the iterated single-term operators gives the operator back. */
  lemma SumOfSingles(a: QubitOperator)
    requires NoDupKeys(a.terms)
    ensures SumOps(Singles(a)) == a
  {
    SumOfSinglesPrefix(a, |a.terms|);
    FullPrefix(Singles(a));
    FullPrefix(a.terms);
  }

  lemma {:induction false} SumOfSinglesPrefix(a: QubitOperator, n: nat)
    requires NoDupKeys(a.terms) && n <= |a.terms|
    ensures SumOps(Singles(a)[..n]) == QubitOperator(a.terms[..n])
  {
    if n > 0 {
      var ops := Singles(a);
      SumOfSinglesPrefix(a, n - 1);
      SumOpsStep(ops[..n]);
      PrefixOfPrefix(ops, n);
      PlusNextSingle(a, n);
    }
  }

  /** The sum of a non-empty list adds its last operator to the sum of the
      others. */
  lemma SumOpsStep(ops: seq<QubitOperator>)
    requires |ops| > 0
    ensures SumOps(ops) == Plus(SumOps(ops[..|ops| - 1]), ops[|ops| - 1])
  {
  }

  lemma FullPrefix<T>(s: seq<T>)
    ensures s[..|s|] == s
  {
  }

  lemma PrefixOfPrefix<T>(s: seq<T>, n: nat)
    requires 0 < n <= |s|
    ensures s[..n][..n - 1] == s[..n - 1]
  {
  }

  /** Adding term n-1 as a single-term operator to the first n-1 terms
      appends it. */
  lemma PlusNextSingle(a: QubitOperator, n: nat)
    requires NoDupKeys(a.terms) && 0 < n <= |a.terms|
    ensures Plus(QubitOperator(a.terms[..n - 1]), Singles(a)[..n][n - 1]) == QubitOperator(a.terms[..n])
  {
    assert Singles(a)[..n][n - 1] == QubitOperator([a.terms[n - 1]]);
    PrefixLacksKey(a.terms, n - 1);
    MergeFreshOne(a.terms[..n - 1], a.terms[n - 1], CoeffAdd);
    assert a.terms[..n - 1] + [a.terms[n - 1]] == a.terms[..n];
  }

  /** `==`: the same strings with equal coefficients, in any order. */
  predicate OpEq(a: QubitOperator, b: QubitOperator) {
    && (forall i :: 0 <= i < |a.terms| ==>
          HasKey(b.terms, a.terms[i].0) && CoeffEq(a.terms[i].1, Get(b.terms, a.terms[i].0).value))
    && (forall j :: 0 <= j < |b.terms| ==> HasKey(a.terms, b.terms[j].0))
  }

  /** `OpEq` is reflexive on well-formed operators. */
  lemma OpEqRefl(a: QubitOperator)
    requires Wf(a)
    ensures OpEq(a, a)
  {
    forall i | 0 <= i < |a.terms|
      ensures CoeffEq(a.terms[i].1, Get(a.terms, a.terms[i].0).value)
    {
      assert Get(a.terms, a.terms[i].0) == Some(a.terms[i].1);
      SameMappingMeansSameGet(a.terms[i].1.vars, a.terms[i].1.vars);
    }
  }
}
