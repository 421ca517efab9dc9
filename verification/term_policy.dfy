/** The term policy of the C++ `QubitOperator`: the local-operator symbols,
    the Boost.Spirit X3 grammar for a terms string ("X0 Y3 z5"), its printer
    and the (trivial) hermitian conjugate of a Pauli term. */
module TermPolicy {
  import opened Wrappers
  import opened Text

  /** `TermValue`: the identity and the three Pauli operators. */
  datatype TermValue = I | X | Y | Z

  /** `term_t`: a pair (qubit index, local operator) — index first. */
  datatype LocalOp = LocalOp(qubit: nat, op: TermValue)

  /** `terms_t`: the local operators of one product term, in stored order. */
  type Terms = seq<LocalOp>

  /** Largest value `x3::uint_` (an `unsigned int` parser) accepts before
      reporting overflow. */
  const MaxIndex: nat := 0xFFFF_FFFF

  /** A local operator the grammar can produce: a Pauli letter on a qubit
      index that fits the 32-bit index type. */
  predicate Printable(t: LocalOp) {
    t.op != I && t.qubit <= MaxIndex
  }

  /** The `TermOp` symbol table: X, x, Y, y, Z, z and nothing else. */
  function OpFromChar(c: char): (r: Option<TermValue>)
    ensures r.Some? <==> c in {'X', 'x', 'Y', 'y', 'Z', 'z'}
    ensures r != Some(I)
  {
    match c
    case 'X' => Some(X)
    case 'x' => Some(X)
    case 'Y' => Some(Y)
    case 'y' => Some(Y)
    case 'Z' => Some(Z)
    case 'z' => Some(Z)
    case _ => None
  }

  /** The upper-case spelling of a symbol-table letter; every other character
      is left alone. */
  function UpperChar(c: char): char {
    match c
    case 'x' => 'X'
    case 'y' => 'Y'
    case 'z' => 'Z'
    case _ => c
  }

  /** The symbol table is case-insensitive, and upper-casing never turns a
      non-letter into a letter, a digit or a blank. */
  lemma UpperCharPreserves(c: char)
    ensures OpFromChar(UpperChar(c)) == OpFromChar(c)
    ensures IsDigit(UpperChar(c)) == IsDigit(c)
    ensures IsSpace(UpperChar(c)) == IsSpace(c)
  {
  }

  /** `to_string(TermValue)`: the operator's letter. */
  function OpToString(op: TermValue): (s: string)
    ensures |s| == 1
  {
    match op
    case I => "I"
    case X => "X"
    case Y => "Y"
    case Z => "Z"
  }

  /** `to_string(term)`: the operator letter followed by the decimal index. */
  function TermToString(t: LocalOp): string {
    OpToString(t.op) + NatToString(t.qubit)
  }

  /** `hermitian(term)` and `hermitian(terms)`: a Pauli product is its own
      conjugate, so the policy returns its argument. The algebra module
      proves the product of a term with its conjugate is the identity. */
  function Hermitian(t: LocalOp): LocalOp { t }

  function HermitianTerms(ts: Terms): Terms { ts }

  // ---------------------------------------------------------------------------
  // The grammar. Parsing works on the remaining suffix of the input.

  /** The skipper: drops leading blanks. */
  function SkipSpaces(s: string): (r: string)
    ensures |r| <= |s|
    ensures |r| == 0 || !IsSpace(r[0])
  {
    if |s| > 0 && IsSpace(s[0]) then SkipSpaces(s[1..]) else s
  }

  lemma SkipSpacesIdempotent(s: string)
    ensures SkipSpaces(SkipSpaces(s)) == SkipSpaces(s)
  {
  }

  /** The `term` rule, `lexeme[term_op > uint_]`, at the very start of `s`:
      a symbol letter immediately followed by at least one digit (the `>`
      expectation makes a letter without digits a hard failure), the whole
      digit run read as the index. Yields the local operator and the rest. */
  function ParseTerm(s: string): (r: Option<(LocalOp, string)>)
    ensures r.Some? ==> |r.value.1| < |s|
    ensures r.Some? ==> Printable(r.value.0)
    ensures r.Some? ==> OpFromChar(s[0]) == Some(r.value.0.op)
  {
    if |s| > 0 && OpFromChar(s[0]).Some? then
      var j := DigitRunEnd(s, 1);
      if j == 1 then None
      else
        var v := DigitsValue(s[1..j]);
        if v > MaxIndex then None
        else Some((LocalOp(v, OpFromChar(s[0]).value), s[j..]))
    else None
  }

  /** The `terms` rule, `+(&term >> term)`, followed by the end of input
      (after a final skip): one or more terms, blanks allowed (not required)
      between them, and nothing else left over. */
  function ParseTermsRest(s: string): (r: Option<Terms>)
    ensures r.Some? ==> |r.value| > 0
    ensures r.Some? ==> forall k :: 0 <= k < |r.value| ==> Printable(r.value[k])
    decreases |s|
  {
    match ParseTerm(SkipSpaces(s))
    case None => None
    case Some((t, rest)) =>
      if SkipSpaces(rest) == "" then Some([t])
      else match ParseTermsRest(rest)
        case None => None
        case Some(ts) => Some([t] + ts)
  }

  lemma ParseTermsLast(s: string, t: LocalOp, rest: string)
    requires ParseTerm(SkipSpaces(s)) == Some((t, rest))
    requires SkipSpaces(rest) == ""
    ensures ParseTermsRest(s) == Some([t])
  {
  }

  lemma ParseTermsStep(s: string, t: LocalOp, rest: string, ts: Terms)
    requires ParseTerm(SkipSpaces(s)) == Some((t, rest))
    requires SkipSpaces(rest) != ""
    requires ParseTermsRest(rest) == Some(ts)
    ensures ParseTermsRest(s) == Some([t] + ts)
  {
  }

  /** Whether `parse_object_skipper` succeeds, and with which list. */
  function TryParseTerms(s: string): Option<Terms> {
    ParseTermsRest(s)
  }

  /** `parse_terms_string`: the parsed list, or the empty list on failure —
      the same value the identity term has. */
  function ParseTermsString(s: string): (r: Terms)
    ensures r == [] <==> TryParseTerms(s).None?
    ensures TryParseTerms(s).Some? ==> r == TryParseTerms(s).value
  {
    TryParseTerms(s).GetOr([])
  }

  // ---------------------------------------------------------------------------
  // Printer / parser round trip.

  function TermStrings(ts: Terms): (r: seq<string>)
    ensures |r| == |ts|
    ensures forall k :: 0 <= k < |ts| ==> r[k] == TermToString(ts[k])
  {
    if |ts| == 0 then [] else [TermToString(ts[0])] + TermStrings(ts[1..])
  }

  /** The local operators of a term written as `to_string` prints them and
      separated by single blanks. */
  function JoinTerms(ts: Terms): string {
    Join(" ", TermStrings(ts))
  }

  lemma {:induction false} DigitRunEndExact(s: string, i: nat, k: nat)
    requires i <= k <= |s|
    requires forall m :: i <= m < k ==> IsDigit(s[m])
    requires k == |s| || !IsDigit(s[k])
    ensures DigitRunEnd(s, i) == k
    decreases k - i
  {
    if i < k {
      DigitRunEndExact(s, i + 1, k);
    }
  }

  /** Parsing one printed term stops right after its digits. */
  lemma ParseTermPrinted(t: LocalOp, rest: string)
    requires Printable(t)
    requires rest == "" || IsSpace(rest[0])
    ensures ParseTerm(TermToString(t) + rest) == Some((t, rest))
  {
    var d := NatToString(t.qubit);
    var s := TermToString(t) + rest;
    assert s == OpToString(t.op) + d + rest;
    assert s[0] == OpToString(t.op)[0];
    assert OpFromChar(s[0]) == Some(t.op) by {
      match t.op
      case X =>
      case Y =>
      case Z =>
    }
    assert forall m :: 1 <= m < 1 + |d| ==> s[m] == d[m - 1];
    DigitRunEndExact(s, 1, 1 + |d|);
    assert s[1..1 + |d|] == d;
    NatToStringRoundTrip(t.qubit);
    assert s[1 + |d|..] == rest;
  }

  lemma ParseTermsSkip(s: string)
    ensures ParseTermsRest(s) == ParseTermsRest(SkipSpaces(s))
  {
    SkipSpacesIdempotent(s);
  }

  /** Parsing what the printer wrote gives back the same list: same order,
      duplicates kept. */
  lemma {:induction false} ParsePrintedTerms(ts: Terms)
    requires |ts| > 0
    requires forall k :: 0 <= k < |ts| ==> Printable(ts[k])
    ensures TryParseTerms(JoinTerms(ts)) == Some(ts)
  {
    if |ts| == 1 {
      ParsePrintedSingle(ts);
    } else {
      ParsePrintedTerms(ts[1..]);
      ParsePrintedCons(ts);
    }
  }

  lemma ParsePrintedSingle(ts: Terms)
    requires |ts| == 1 && Printable(ts[0])
    ensures TryParseTerms(JoinTerms(ts)) == Some(ts)
  {
    var t := ts[0];
    assert TermStrings(ts) == [TermToString(t)];
    ParseTermPrinted(t, "");
    assert TermToString(t) + "" == TermToString(t);
    PrintedStartsWithLetter(ts);
    assert SkipSpaces(TermToString(t)) == TermToString(t);
    assert ParseTerm(SkipSpaces(JoinTerms(ts))) == Some((t, ""));
    assert SkipSpaces("") == "";
    assert ts == [t];
  }

  /** The printed list is the first term, a space, and the rest printed. */
  lemma JoinFirst(ts: Terms)
    requires |ts| > 1
    ensures JoinTerms(ts) == TermToString(ts[0]) + (" " + JoinTerms(ts[1..]))
  {
    assert TermStrings(ts) == [TermToString(ts[0])] + TermStrings(ts[1..]);
    JoinCons(" ", TermToString(ts[0]), TermStrings(ts[1..]));
  }

  lemma ParsePrintedCons(ts: Terms)
    requires |ts| > 1
    requires forall k :: 0 <= k < |ts| ==> Printable(ts[k])
    requires TryParseTerms(JoinTerms(ts[1..])) == Some(ts[1..])
    ensures TryParseTerms(JoinTerms(ts)) == Some(ts)
  {
    var t := ts[0];
    var restStr := JoinTerms(ts[1..]);
    JoinFirst(ts);
    var s := TermToString(t) + (" " + restStr);
    assert s[0] == OpToString(t.op)[0];
    assert SkipSpaces(s) == s by {
      assert !IsSpace(s[0]) by {
        match t.op
        case X =>
        case Y =>
        case Z =>
      }
    }
    ParseTermPrinted(t, " " + restStr);
    assert SkipSpaces(" " + restStr) == SkipSpaces(restStr);
    PrintedStartsWithLetter(ts[1..]);
    assert SkipSpaces(restStr) == restStr;
    ParseTermsSkip(" " + restStr);
    assert ts == [t] + ts[1..];
  }

  lemma PrintedStartsWithLetter(ts: Terms)
    requires |ts| > 0
    requires Printable(ts[0])
    ensures |JoinTerms(ts)| > 0 && OpFromChar(JoinTerms(ts)[0]).Some?
    ensures !IsSpace(JoinTerms(ts)[0])
  {
    var strs := TermStrings(ts);
    if |ts| > 1 {
      JoinCons(" ", strs[0], strs[1..]);
      assert strs == [strs[0]] + strs[1..];
    }
    assert JoinTerms(ts)[0] == TermToString(ts[0])[0] == OpToString(ts[0].op)[0];
    match ts[0].op
    case X =>
    case Y =>
    case Z =>
  }

  /** `parse_terms_string(to_string(t)) == {t}` for every Pauli letter. */
  lemma ParseSingleTerm(t: LocalOp)
    requires Printable(t)
    ensures ParseTermsString(TermToString(t)) == [t]
  {
    ParsePrintedTerms([t]);
    assert TermStrings([t]) == [TermToString(t)];
  }

  // ---------------------------------------------------------------------------
  // Case-insensitivity of the whole grammar.

  function UpperString(s: string): (u: string)
    ensures |u| == |s|
    ensures forall i :: 0 <= i < |s| ==> u[i] == UpperChar(s[i])
  {
    seq(|s|, i requires 0 <= i < |s| => UpperChar(s[i]))
  }

  lemma UpperSuffix(s: string, k: nat)
    requires k <= |s|
    ensures UpperString(s)[k..] == UpperString(s[k..])
  {
  }

  lemma {:induction false} SkipSpacesUpper(s: string)
    ensures SkipSpaces(UpperString(s)) == UpperString(SkipSpaces(s))
    decreases |s|
  {
    if |s| > 0 {
      UpperCharPreserves(s[0]);
      if IsSpace(s[0]) {
        UpperSuffix(s, 1);
        SkipSpacesUpper(s[1..]);
      }
    }
  }

  lemma {:induction false} DigitRunEndUpper(s: string, i: nat)
    requires i <= |s|
    ensures DigitRunEnd(UpperString(s), i) == DigitRunEnd(s, i)
    decreases |s| - i
  {
    if i < |s| {
      UpperCharPreserves(s[i]);
      if IsDigit(s[i]) {
        DigitRunEndUpper(s, i + 1);
      }
    }
  }

  lemma ParseTermUpper(s: string)
    ensures ParseTerm(UpperString(s)) ==
      match ParseTerm(s)
      case None => None
      case Some((t, rest)) => Some((t, UpperString(rest)))
  {
    var u := UpperString(s);
    if |s| > 0 {
      UpperCharPreserves(s[0]);
      if OpFromChar(s[0]).Some? {
        DigitRunEndUpper(s, 1);
        var j := DigitRunEnd(s, 1);
        assert forall m :: 1 <= m < j ==> u[m] == s[m] by {
          forall m | 1 <= m < j
            ensures u[m] == s[m]
          {
            assert IsDigit(s[m]);
          }
        }
        assert u[1..j] == s[1..j];
        UpperSuffix(s, j);
      }
    }
  }

  /** Lower-case letters parse exactly as their upper-case forms: `z2` is
      `Z2`, whatever the rest of the string holds. */
  lemma {:induction false} ParseCaseInsensitive(s: string)
    ensures TryParseTerms(UpperString(s)) == TryParseTerms(s)
    decreases |s|
  {
    var k := SkipSpaces(s);
    SkipSpacesUpper(s);
    ParseTermUpper(k);
    var p := ParseTerm(k);
    if p.Some? {
      var t, rest := p.value.0, p.value.1;
      SkipSpacesUpper(rest);
      assert UpperString(SkipSpaces(rest)) == "" <==> SkipSpaces(rest) == "";
      if SkipSpaces(rest) != "" {
        ParseCaseInsensitive(rest);
      }
    }
  }

  // ---------------------------------------------------------------------------
  // Concrete behaviour of the grammar.

  /** Trailing garbage is rejected, not partially accepted; a letter must be
      followed directly by digits; `I` is not a symbol; an empty string is a
      failure too, and every failure reads as the identity's empty list. */
  lemma RejectedStrings()
    ensures TryParseTerms("X1 YY").None?
    ensures TryParseTerms("X 1").None?
    ensures TryParseTerms("I0").None?
    ensures TryParseTerms("").None?
    ensures TryParseTerms("  ").None?
    ensures ParseTermsString("X1 YY") == ParseTermsString("") == []
  {
    assert DigitRunEnd("X1 YY", 1) == 2;
    assert ParseTerm("X1 YY") == Some((LocalOp(1, X), " YY"));
    assert SkipSpaces(" YY") == "YY";
    assert ParseTerm("YY").None?;
    assert SkipSpaces("X 1") == "X 1";
    assert DigitRunEnd("X 1", 1) == 1;
    assert SkipSpaces("  ") == "";
  }

  /** An index beyond the 32-bit range makes `uint_` fail, so the whole
      string is rejected. */
  lemma IndexOverflowRejected()
    ensures TryParseTerms("X4294967296").None?
    ensures TryParseTerms("X4294967295") == Some([LocalOp(MaxIndex, X)])
  {
    var big := "X4294967296";
    DigitRunEndExact(big, 1, 11);
    assert big[1..11] == "4294967296";
    DigitsTen("429496729", '6');
    assert big[1..11] == "429496729" + ['6'];
    assert ParseTerm(big).None?;
    var max := "X4294967295";
    DigitRunEndExact(max, 1, 11);
    assert max[1..11] == "4294967295";
    DigitsTen("429496729", '5');
    assert max[1..11] == "429496729" + ['5'];
    assert ParseTerm(max) == Some((LocalOp(MaxIndex, X), ""));
    assert SkipSpaces(max) == max;
    assert SkipSpaces("") == "";
  }

  lemma DigitsTen(p: string, c: char)
    requires p == "429496729" && IsDigit(c)
    ensures DigitsValue(p + [c]) == 4294967290 + DigitValue(c)
  {
    assert (p + [c])[..9] == p;
    assert p[..8] == "42949672";
    assert "42949672"[..7] == "4294967";
    assert "4294967"[..6] == "429496";
    assert "429496"[..5] == "42949";
    assert "42949"[..4] == "4294";
    assert "4294"[..3] == "429";
    assert "429"[..2] == "42";
    assert "42"[..1] == "4";
    assert "4"[..0] == "";
    assert DigitsValue("4") == 4;
    assert DigitsValue("42") == 42;
    assert DigitsValue("429") == 429;
    assert DigitsValue("4294") == 4294;
    assert DigitsValue("42949") == 42949;
    assert DigitsValue("429496") == 429496;
    assert DigitsValue("4294967") == 4294967;
    assert DigitsValue("42949672") == 42949672;
    assert DigitsValue(p) == 429496729;
  }

  /** Terms are collected in input order and blanks between them are
      optional. */
  lemma AcceptedAdjacentTerms()
    ensures TryParseTerms("X1Y2") == Some([LocalOp(1, X), LocalOp(2, Y)])
  {
    assert DigitRunEnd("X1Y2", 1) == 2;
    assert ParseTerm("X1Y2") == Some((LocalOp(1, X), "Y2"));
    assert DigitRunEnd("Y2", 1) == 2;
    assert ParseTerm("Y2") == Some((LocalOp(2, Y), ""));
    assert SkipSpaces("Y2") == "Y2";
    assert SkipSpaces("") == "";
    ParseTermsLast("Y2", LocalOp(2, Y), "");
    assert SkipSpaces("X1Y2") == "X1Y2";
    ParseTermsStep("X1Y2", LocalOp(1, X), "Y2", [LocalOp(2, Y)]);
    assert [LocalOp(1, X)] + [LocalOp(2, Y)] == [LocalOp(1, X), LocalOp(2, Y)];
    assert TryParseTerms("X1Y2") == ParseTermsRest("X1Y2");
  }

  /** Duplicates are neither merged nor sorted. */
  lemma AcceptedDuplicateTerms()
    ensures TryParseTerms("X3 x3") == Some([LocalOp(3, X), LocalOp(3, X)])
  {
    assert SkipSpaces("X3 x3") == "X3 x3";
    assert DigitRunEnd("X3 x3", 1) == 2;
    assert ParseTerm("X3 x3") == Some((LocalOp(3, X), " x3"));
    assert SkipSpaces(" x3") == "x3";
    assert DigitRunEnd("x3", 1) == 2;
    assert ParseTerm("x3") == Some((LocalOp(3, X), ""));
    ParseTermsLast(" x3", LocalOp(3, X), "");
    ParseTermsStep("X3 x3", LocalOp(3, X), " x3", [LocalOp(3, X)]);
    assert [LocalOp(3, X)] + [LocalOp(3, X)] == [LocalOp(3, X), LocalOp(3, X)];
  }

  lemma PrintZ1Z2()
    ensures JoinTerms([LocalOp(1, Z), LocalOp(2, Z)]) == "Z1 Z2"
  {
    assert TermToString(LocalOp(1, Z)) == "Z1";
    assert TermToString(LocalOp(2, Z)) == "Z2";
    assert TermStrings([LocalOp(1, Z), LocalOp(2, Z)]) == ["Z1", "Z2"];
    JoinCons(" ", "Z1", ["Z2"]);
  }

  lemma UpperZ1z2()
    ensures UpperString("Z1 z2") == "Z1 Z2"
  {
  }

  /** `z2` reads as `Z2`. */
  lemma AcceptedLowerCase()
    ensures ParseTermsString("Z1 z2") == ParseTermsString("Z1 Z2") == [LocalOp(1, Z), LocalOp(2, Z)]
  {
    ParsePrintedTerms([LocalOp(1, Z), LocalOp(2, Z)]);
    PrintZ1Z2();
    UpperZ1z2();
    ParseCaseInsensitive("Z1 z2");
  }

  /** Leading zeros are accepted; the index is the digit run's value. */
  lemma AcceptedLeadingZeros()
    ensures TryParseTerms("X007") == Some([LocalOp(7, X)])
  {
    DigitRunEndExact("X007", 1, 4);
    assert "X007"[1..4] == "007";
    assert "007"[..2] == "00" && "00"[..1] == "0";
    assert DigitsValue("007") == 7;
  }
}
