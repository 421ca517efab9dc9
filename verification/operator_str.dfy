/** `QubitOperator.__str__` of the Python layer: one line per term, the
    coefficient's `expression()` followed by the bracketed local operators,
    lines joined with "+\n", and "0" for an operator with no terms. The
    coefficient printer belongs to ParameterResolver and is a parameter. */
module OperatorString {
  import opened Wrappers
  import C = ComplexNum
  import opened AssocList
  import opened Text
  import opened TermPolicy
  import opened PauliAlgebra
  import opened QubitOperators
  import opened OperatorMatrix
  import Ex = QubitOperatorExamples

  /** One printed term: `f"{coeff.expression()} [{terms_str}] "`. */
  function TermLine(t: Terms, c: Coeff, expr: Coeff -> string): string {
    expr(c) + " [" + JoinTerms(t) + "] "
  }

  function Lines(terms: Dict<Terms, Coeff>, expr: Coeff -> string): (r: seq<string>)
    ensures |r| == |terms|
    ensures forall k :: 0 <= k < |terms| ==> r[k] == TermLine(terms[k].0, terms[k].1, expr)
  {
    if |terms| == 0 then [] else [TermLine(terms[0].0, terms[0].1, expr)] + Lines(terms[1..], expr)
  }

  /** `__str__`. */
  function Str(a: QubitOperator, expr: Coeff -> string): string {
    if |a.terms| == 0 then "0" else Join("+\n", Lines(a.terms, expr))
  }

  /** The output is exactly "0" when, and only when, there are no terms: a
      term line is never that short. */
  lemma StrZero(a: QubitOperator, expr: Coeff -> string)
    ensures Str(a, expr) == "0" <==> |a.terms| == 0
  {
    if |a.terms| > 0 {
      JoinPrefix("+\n", Lines(a.terms, expr));
      assert |Lines(a.terms, expr)[0]| >= 4;
    }
  }

  /** Lines come in stored order, separated by "+\n". */
  lemma StrCons(a: QubitOperator, expr: Coeff -> string)
    requires |a.terms| >= 2
    ensures Str(a, expr)
         == TermLine(a.terms[0].0, a.terms[0].1, expr) + "+\n" + Str(QubitOperator(a.terms[1..]), expr)
  {
    var ls := Lines(a.terms, expr);
    assert ls == [ls[0]] + Lines(a.terms[1..], expr);
    JoinCons("+\n", ls[0], Lines(a.terms[1..], expr));
  }

  lemma StrSingle(t: Terms, c: Coeff, expr: Coeff -> string)
    ensures Str(QubitOperator([(t, c)]), expr) == TermLine(t, c, expr)
  {
  }

  // ---------------------------------------------------------------------------
  // Reading the brackets back.

  /** Position of the last occurrence of `ch`. */
  function LastIndexOf(s: string, ch: char): (r: Option<nat>)
    ensures r.Some? ==> r.value < |s| && s[r.value] == ch
    ensures r.Some? ==> forall j :: r.value < j < |s| ==> s[j] != ch
    ensures r.None? <==> ch !in s
  {
    if |s| == 0 then None
    else if s[|s| - 1] == ch then Some(|s| - 1)
    else
      LastIndexOf(s[..|s| - 1], ch)
  }

  /** The text inside the brackets of a term line: between its last '[' and
      the closing "] ". */
  function Bracketed(line: string): Option<string> {
    if |line| < 2 || line[|line| - 2..] != "] " then None
    else
      match LastIndexOf(line[..|line| - 2], '[')
      case None => None
      case Some(j) => Some(line[j + 1..|line| - 2])
  }

  /** A printed term list has no brackets in it. */
  lemma JoinTermsNoBracket(t: Terms)
    ensures '[' !in JoinTerms(t)
  {
    forall k | 0 <= k < |t|
      ensures '[' !in TermStrings(t)[k]
    {
      var s := TermToString(t[k]);
      assert s == OpToString(t[k].op) + NatToString(t[k].qubit);
      assert forall i :: 0 <= i < |s| ==> s[i] != '[' by {
        forall i | 0 <= i < |s|
          ensures s[i] != '['
        {
          if i > 0 {
            assert IsDigit(NatToString(t[k].qubit)[i - 1]);
          }
        }
      }
    }
    JoinAvoids(" ", TermStrings(t), '[');
  }

  /** The brackets of a term line hold exactly the printed local operators,
      whatever the coefficient printed as. */
  lemma BracketedLine(t: Terms, c: Coeff, expr: Coeff -> string)
    ensures Bracketed(TermLine(t, c, expr)) == Some(JoinTerms(t))
  {
    var line := TermLine(t, c, expr);
    var body := JoinTerms(t);
    var head := expr(c) + " [";
    JoinTermsNoBracket(t);
    assert line[..|line| - 2] == head + body;
    assert line[|line| - 2..] == "] ";
    var r := LastIndexOf(head + body, '[');
    assert (head + body)[|head| - 1] == '[';
    forall j | |head| <= j < |head + body|
      ensures (head + body)[j] != '['
    {
      assert (head + body)[j] == body[j - |head|];
    }
    assert r.value == |head| - 1;
    assert line[|head|..|line| - 2] == body;
  }

  /** Every line of a printed operator gives its Pauli string back through
      the term parser; the identity term's brackets are empty. */
  lemma LineRoundTrip(t: Terms, c: Coeff, expr: Coeff -> string)
    requires forall k :: 0 <= k < |t| ==> Printable(t[k])
    ensures Bracketed(TermLine(t, c, expr)).Some?
    ensures |t| == 0 ==> Bracketed(TermLine(t, c, expr)).value == ""
    ensures |t| > 0 ==> TryParseTerms(Bracketed(TermLine(t, c, expr)).value) == Some(t)
  {
    BracketedLine(t, c, expr);
    if |t| > 0 {
      ParsePrintedTerms(t);
    }
  }

  // ---------------------------------------------------------------------------
  // Examples.

  /** `QubitOperator('X0') - QubitOperator('Y0')` is stored as `1 [X0]`
      then `-1 [Y0]`. */
  lemma MinusX0Y0()
    ensures Minus(FromString("X0", NumArg(C.One)), FromString("Y0", NumArg(C.One)))
         == QubitOperator([([LocalOp(0, X)], Num(C.One)), ([LocalOp(0, Y)], Num(C.FromReal(-1.0)))])
  {
    var x0, y0 := [LocalOp(0, X)], [LocalOp(0, Y)];
    FromX0();
    FromY0();
    assert x0[0] != y0[0];
    MinusUnits(x0, y0);
  }

  lemma FromX0()
    ensures FromString("X0", NumArg(C.One)) == QubitOperator([([LocalOp(0, X)], Num(C.One))])
  {
    FromUnit([LocalOp(0, X)], "X0");
  }

  lemma FromY0()
    ensures FromString("Y0", NumArg(C.One)) == QubitOperator([([LocalOp(0, Y)], Num(C.One))])
  {
    FromUnit([LocalOp(0, Y)], "Y0");
  }

  /** One string minus another, both with coefficient 1. */
  lemma MinusUnits(s: Terms, t: Terms)
    requires s != t
    ensures Minus(QubitOperator([(s, Num(C.One))]), QubitOperator([(t, Num(C.One))]))
         == QubitOperator([(s, Num(C.One)), (t, Num(C.FromReal(-1.0)))])
  {
    NegatedUnit(t);
    MergeNewKey(s, Num(C.One), t, Num(C.FromReal(-1.0)), CoeffAdd);
  }

  lemma FromUnit(t: Terms, s: string)
    requires t == [LocalOp(0, X)] || t == [LocalOp(0, Y)]
    requires s == JoinTerms(t)
    ensures FromString(s, NumArg(C.One)) == QubitOperator([(t, Num(C.One))])
  {
    FromPrinted(t, NumArg(C.One));
    NormalizeCanonical(t);
    RotateZeroNum(C.One);
  }

  lemma RotateZeroNum(z: C.Complex)
    ensures CoeffRotate(0, Num(z)) == Num(z)
  {
    var none: Dict<string, C.Complex> := [];
    assert MapValues(none, w => C.Rotate(0, w)) == [];
  }

  lemma NegatedUnit(t: Terms)
    ensures Negated(QubitOperator([(t, Num(C.One))])) == QubitOperator([(t, Num(C.FromReal(-1.0)))])
  {
    MapValuesSingle(t, Num(C.One), c => CoeffScale(c, C.FromReal(-1.0)));
    NegOneScale();
  }

  lemma NegOneScale()
    ensures CoeffScale(Num(C.One), C.FromReal(-1.0)) == Num(C.FromReal(-1.0))
  {
    NegOneScaleUnfold();
    NegOneTimesOne();
  }

  lemma NegOneScaleUnfold()
    ensures CoeffScale(Num(C.One), C.FromReal(-1.0)) == Num(C.Mul(C.FromReal(-1.0), C.One))
  {
  }

  lemma NegOneTimesOne()
    ensures C.Mul(C.FromReal(-1.0), C.One) == C.FromReal(-1.0)
  {
  }

  lemma LineX0(expr: Coeff -> string)
    requires expr(Num(C.One)) == "1"
    ensures TermLine([LocalOp(0, X)], Num(C.One), expr) == "1 [X0] "
  {
    assert JoinTerms([LocalOp(0, X)]) == "X0";
  }

  lemma LineY0(expr: Coeff -> string)
    requires expr(Num(C.FromReal(-1.0))) == "-1"
    ensures TermLine([LocalOp(0, Y)], Num(C.FromReal(-1.0)), expr) == "-1 [Y0] "
  {
    assert JoinTerms([LocalOp(0, Y)]) == "Y0";
  }

  /** `str(QubitOperator('X0') - QubitOperator('Y0'))` is
      `'1 [X0] +\n-1 [Y0] '` when the coefficients print as `1` and `-1`. */
  lemma PrintX0MinusY0(expr: Coeff -> string)
    requires expr(Num(C.One)) == "1" && expr(Num(C.FromReal(-1.0))) == "-1"
    ensures Str(Minus(FromString("X0", NumArg(C.One)), FromString("Y0", NumArg(C.One))), expr)
         == "1 [X0] +\n-1 [Y0] "
  {
    MinusX0Y0();
    PrintTwoLines(expr);
  }

  lemma PrintTwoLines(expr: Coeff -> string)
    requires expr(Num(C.One)) == "1" && expr(Num(C.FromReal(-1.0))) == "-1"
    ensures Str(QubitOperator([([LocalOp(0, X)], Num(C.One)), ([LocalOp(0, Y)], Num(C.FromReal(-1.0)))]), expr)
         == "1 [X0] +\n-1 [Y0] "
  {
    var y := ([LocalOp(0, Y)], Num(C.FromReal(-1.0)));
    var a := QubitOperator([([LocalOp(0, X)], Num(C.One)), y]);
    StrCons(a, expr);
    assert a.terms[1..] == [y];
    StrSingle(y.0, y.1, expr);
    LineX0(expr);
    LineY0(expr);
  }

  lemma PrintX0Y1()
    ensures JoinTerms([LocalOp(0, X), LocalOp(1, Y)]) == "X0 Y1"
  {
    PrintPair([LocalOp(0, X), LocalOp(1, Y)], "X0 Y1");
  }

  lemma PrintX2Z3()
    ensures JoinTerms([LocalOp(2, X), LocalOp(3, Z)]) == "X2 Z3"
  {
    PrintPair([LocalOp(2, X), LocalOp(3, Z)], "X2 Z3");
  }

  /** `QubitOperator('X0 Y1') + QubitOperator('X2 Z3')` keeps both terms. */
  lemma PlusX0Y1X2Z3()
    ensures Plus(FromString("X0 Y1", NumArg(C.One)), FromString("X2 Z3", NumArg(C.One))).terms
         == [([LocalOp(0, X), LocalOp(1, Y)], Num(C.One)), ([LocalOp(2, X), LocalOp(3, Z)], Num(C.One))]
  {
    FromX0Y1();
    FromX2Z3();
    assert [LocalOp(0, X), LocalOp(1, Y)][0] != [LocalOp(2, X), LocalOp(3, Z)][0];
    PlusDistinct(FromString("X0 Y1", NumArg(C.One)), FromString("X2 Z3", NumArg(C.One)),
                 [LocalOp(0, X), LocalOp(1, Y)], [LocalOp(2, X), LocalOp(3, Z)]);
  }

  lemma FromX0Y1()
    ensures FromString("X0 Y1", NumArg(C.One)) == QubitOperator([([LocalOp(0, X), LocalOp(1, Y)], Num(C.One))])
  {
    PrintX0Y1();
    FromPair([LocalOp(0, X), LocalOp(1, Y)], "X0 Y1");
  }

  lemma FromX2Z3()
    ensures FromString("X2 Z3", NumArg(C.One)) == QubitOperator([([LocalOp(2, X), LocalOp(3, Z)], Num(C.One))])
  {
    PrintX2Z3();
    FromPair([LocalOp(2, X), LocalOp(3, Z)], "X2 Z3");
  }

  /** Two single-term operators on different strings sum to both terms. */
  lemma PlusDistinct(a: QubitOperator, b: QubitOperator, s: Terms, t: Terms)
    requires a == QubitOperator([(s, Num(C.One))]) && b == QubitOperator([(t, Num(C.One))]) && s != t
    ensures Plus(a, b).terms == [(s, Num(C.One)), (t, Num(C.One))]
  {
    MergeNewKey(s, Num(C.One), t, Num(C.One), CoeffAdd);
  }

  /** `(QubitOperator('X0 Y1') + QubitOperator('X2 Z3')).count_gates()` is 4. */
  lemma CountGatesX0Y1X2Z3()
    ensures GateTotal(Plus(FromString("X0 Y1", NumArg(C.One)), FromString("X2 Z3", NumArg(C.One))).terms) == 4
  {
    PlusX0Y1X2Z3();
    TwoPairsCount();
  }

  lemma TwoPairsCount()
    ensures GateTotal([([LocalOp(0, X), LocalOp(1, Y)], Num(C.One)), ([LocalOp(2, X), LocalOp(3, Z)], Num(C.One))]) == 4
  {
    var a := [([LocalOp(0, X), LocalOp(1, Y)], Num(C.One))];
    var b := [([LocalOp(2, X), LocalOp(3, Z)], Num(C.One))];
    GateTotalConcat(a, b);
    assert a[..0] == [] && b[..0] == [];
    assert a + b == [([LocalOp(0, X), LocalOp(1, Y)], Num(C.One)), ([LocalOp(2, X), LocalOp(3, Z)], Num(C.One))];
  }

  lemma PrintPair(t: Terms, s: string)
    requires |t| == 2 && t[0].qubit < 10 && t[1].qubit < 10 && t[0].op != I && t[1].op != I
    requires s == OpToString(t[0].op) + [DigitChar(t[0].qubit)] + " " + OpToString(t[1].op) + [DigitChar(t[1].qubit)]
    ensures JoinTerms(t) == s
  {
    assert TermStrings(t) == [TermToString(t[0]), TermToString(t[1])];
    JoinCons(" ", TermToString(t[0]), [TermToString(t[1])]);
  }

  lemma FromPair(t: Terms, s: string)
    requires Canonical(t) && |t| == 2
    requires forall k :: 0 <= k < |t| ==> Printable(t[k])
    requires JoinTerms(t) == s
    ensures FromString(s, NumArg(C.One)) == QubitOperator([(t, Num(C.One))])
  {
    FromPrinted(t, NumArg(C.One));
    NormalizeCanonical(t);
    RotateZeroNum(C.One);
  }

  /** `(b [X0] + a [X0]).subs({'a': 1, 'b': 2})` prints as `3 [X0] `. */
  lemma PrintSubsThenMerge(expr: Coeff -> string)
    requires expr(Num(C.FromReal(3.0))) == "3"
    ensures var q := Plus(FromString("X0", NameArg("b")), FromString("X0", NameArg("a")));
            Str(Subs(q, Ex.Values), expr) == "3 [X0] "
  {
    Ex.SubsThenMerge();
    PrintThreeX0(expr);
  }

  lemma PrintThreeX0(expr: Coeff -> string)
    requires expr(Num(C.FromReal(3.0))) == "3"
    ensures Str(Ex.Term([LocalOp(0, X)], Num(C.FromReal(3.0))), expr) == "3 [X0] "
  {
    Ex.PrintOne(X, 0);
    StrSingle([LocalOp(0, X)], Num(C.FromReal(3.0)), expr);
  }
}
