/** The gate object model of `mindquantum.gate.basic`: gate construction
    and coefficient normalisation, placement on qubits with `on`, the
    description string, equality, `linearcombination`, the hermitian of a
    one-parameter gate, and the resolution of the rotation angle and of the
    differentiation parameter. Gate matrices are numeric and not modelled;
    number and ParameterResolver printing are parameters. */
module Gates {
  import opened Wrappers
  import opened AssocList
  import opened Text

  // ---------------------------------------------------------------------------
  // Python values handed to the gate API.

  /** The Python values the modelled code distinguishes with `isinstance`.
      Numbers are real; a dict or ParameterResolver maps names to reals. */
  datatype PyValue =
    | PyInt(i: int)
    | PyFloat(x: real)
    | PyStr(s: string)
    | PyList(items: seq<PyValue>)
    | PyTuple(items: seq<PyValue>)
    | PyDict(d: Dict<string, real>)
    | PyResolver(pr: Dict<string, real>)
    | PyNone
    | PyOther

  predicate IsNumber(v: PyValue) { v.PyInt? || v.PyFloat? }

  function NumberValue(v: PyValue): real
    requires IsNumber(v)
  {
    if v.PyInt? then v.i as real else v.x
  }

  /** `isinstance(v, Iterable)` among the modelled values. */
  predicate IsIterable(v: PyValue) {
    v.PyList? || v.PyTuple? || v.PyStr? || v.PyDict?
  }

  /** The elements a `for` loop over an iterable visits: a string yields its
      characters and a dict its keys, both as strings. */
  function Elements(v: PyValue): seq<PyValue>
    requires IsIterable(v)
  {
    match v
    case PyList(items) => items
    case PyTuple(items) => items
    case PyStr(s) => seq(|s|, k requires 0 <= k < |s| => PyStr([s[k]]))
    case PyDict(d) => seq(|d|, k requires 0 <= k < |d| => PyStr(d[k].0))
  }

  // ---------------------------------------------------------------------------
  // Qubit validation.

  /** `_check_qubit_id`: an int that is not negative. */
  function CheckQubitId(v: PyValue): (r: Result<nat>)
    ensures r.Ok? <==> v.PyInt? && v.i >= 0
    ensures r.Ok? ==> r.value == v.i
    ensures !v.PyInt? ==> r == Err(TypeError)
    ensures v.PyInt? && v.i < 0 ==> r == Err(ValueError)
  {
    if !v.PyInt? then Err(TypeError)
    else if v.i < 0 then Err(ValueError)
    else Ok(v.i)
  }

  /** Every element checked in order; the first bad one raises. */
  function CheckAll(items: seq<PyValue>): (r: Result<seq<nat>>)
    ensures r.Ok? <==> forall k :: 0 <= k < |items| ==> CheckQubitId(items[k]).Ok?
    ensures r.Ok? ==> |r.value| == |items| && forall k :: 0 <= k < |items| ==> r.value[k] == items[k].i
  {
    if |items| == 0 then Ok([])
    else
      var first := CheckQubitId(items[0]);
      if first.Err? then Err(first.error)
      else
        var rest := CheckAll(items[1..]);
        assert forall k :: 1 <= k < |items| ==> items[k] == items[1..][k - 1];
        if rest.Err? then Err(rest.error)
        else Ok([first.value] + rest.value)
  }

  /** The error raised is the one of the first element that fails. */
  lemma {:induction false} CheckAllFirstError(items: seq<PyValue>, k: nat)
    requires k < |items| && CheckQubitId(items[k]).Err?
    requires forall j :: 0 <= j < k ==> CheckQubitId(items[j]).Ok?
    ensures CheckAll(items) == Err(CheckQubitId(items[k]).error)
  {
    if k > 0 {
      assert forall j :: 0 <= j < k - 1 ==> items[1..][j] == items[j + 1];
      CheckAllFirstError(items[1..], k - 1);
    }
  }

  /** The qubit argument of `on`: an int becomes a one-element list, an
      iterable is checked element by element and copied, anything else is a
      TypeError. */
  function QubitList(v: PyValue): (r: Result<seq<nat>>)
    ensures v.PyInt? ==> r == (if v.i >= 0 then Ok([v.i as nat]) else Err(ValueError))
    ensures IsIterable(v) ==> r == CheckAll(Elements(v))
    ensures !v.PyInt? && !IsIterable(v) ==> r == Err(TypeError)
  {
    if v.PyInt? then
      var q :- CheckQubitId(v);
      Ok([q])
    else if IsIterable(v) then CheckAll(Elements(v))
    else Err(TypeError)
  }

  // ---------------------------------------------------------------------------
  // Gates.

  /** `NoneParameterGate` (no coefficient) or `ParameterGate` (a number or
      a ParameterResolver). */
  datatype GateKind = Plain | Parameterised

  datatype Coefficient = NoCoeff | Number(x: real) | Resolver(pr: Dict<string, real>)

  datatype Placement = Placement(obj: seq<nat>, ctrl: seq<nat>)

  /** A gate; `placement` is absent until `on` gives it qubits. */
  datatype Gate = Gate(kind: GateKind, name: string, coeff: Coefficient, placement: Option<Placement>)

  /** `isparameter`. */
  predicate IsParameter(g: Gate) { g.coeff.Resolver? }

  predicate WfGate(g: Gate) {
    (g.kind == Plain) <==> g.coeff.NoCoeff?
  }

  /** `NoneParameterGate(name)`; the name must be a string. */
  function NewPlainGate(name: PyValue): (r: Result<Gate>)
    ensures r.Ok? <==> name.PyStr?
    ensures r.Err? ==> r.error == TypeError
    ensures r.Ok? ==> WfGate(r.value) && !IsParameter(r.value) && r.value.placement.None?
  {
    if !name.PyStr? then Err(TypeError) else Ok(Gate(Plain, name.s, NoCoeff, None))
  }

  /** The resolver an accepted non-numeric coefficient stands for. */
  function NormalizeCoeff(coeff: PyValue): (r: Result<Dict<string, real>>)
    requires !IsNumber(coeff)
    ensures r.Ok? ==> NoDupKeys(r.value) || coeff.PyDict? || coeff.PyResolver?
    ensures coeff.PyNone? ==> r == Ok([("c1", 1.0)])
    ensures coeff.PyStr? ==> r == Ok([(coeff.s, 1.0)])
    ensures coeff.PyDict? ==> r == Ok(coeff.d)
    ensures coeff.PyResolver? ==> r == Ok(coeff.pr)
    ensures coeff.PyInt? || coeff.PyFloat? || coeff.PyOther? ==> r == Err(TypeError)
  {
    match coeff
    case PyNone => Ok([("c1", 1.0)])
    case PyStr(s) => Ok([(s, 1.0)])
    case PyResolver(pr) => Ok(pr)
    case PyDict(d) => Ok(d)
    case PyList(items) => NamesWithUnitWeight(items)
    case PyTuple(items) => NamesWithUnitWeight(items)
    case _ => Err(TypeError)
  }

  /** `dict(zip(names, [1 for i in names]))`: every name with weight 1, a
      repeated name kept once at its first position. */
  function NamesWithUnitWeight(items: seq<PyValue>): (r: Result<Dict<string, real>>)
    ensures r.Ok? <==> forall k :: 0 <= k < |items| ==> items[k].PyStr?
    ensures r.Ok? ==> NoDupKeys(r.value)
    ensures r.Ok? ==> forall k :: 0 <= k < |items| ==> Get(r.value, items[k].s) == Some(1.0)
    ensures r.Ok? ==> forall i :: 0 <= i < |r.value| ==> r.value[i].1 == 1.0
    decreases |items|
  {
    if |items| == 0 then Ok([])
    else if !items[|items| - 1].PyStr? then Err(GenericException)
    else
      var init :- NamesWithUnitWeight(items[..|items| - 1]);
      assert forall k :: 0 <= k < |items| - 1 ==> items[k] == items[..|items| - 1][k];
      AddUnitName(init, items);
      Ok(Put(init, items[|items| - 1].s, 1.0))
  }

  /** Storing the last name with weight 1 keeps every earlier name at
      weight 1 and every weight 1. */
  lemma AddUnitName(init: Dict<string, real>, items: seq<PyValue>)
    requires |items| > 0 && items[|items| - 1].PyStr?
    requires NoDupKeys(init)
    requires forall k :: 0 <= k < |items| - 1 ==> items[k].PyStr? && Get(init, items[k].s) == Some(1.0)
    requires forall i :: 0 <= i < |init| ==> init[i].1 == 1.0
    ensures var r := Put(init, items[|items| - 1].s, 1.0);
            && NoDupKeys(r)
            && (forall k :: 0 <= k < |items| ==> Get(r, items[k].s) == Some(1.0))
            && (forall i :: 0 <= i < |r| ==> r[i].1 == 1.0)
  {
    var name := items[|items| - 1].s;
    var r := Put(init, name, 1.0);
    forall i | 0 <= i < |r|
      ensures r[i].1 == 1.0
    {
      assert Get(r, r[i].0) == Some(r[i].1);
      if r[i].0 != name {
        var j := IndexOf(init, r[i].0).value;
        assert Get(init, r[i].0) == Some(init[j].1);
      }
    }
  }

  /** `ParameterGate(name, coeff)`: a number makes a non-parameterised gate
      holding it; otherwise the coefficient is normalised to a resolver. The
      name is checked first. */
  function NewParameterGate(name: PyValue, coeff: PyValue): (r: Result<Gate>)
    ensures !name.PyStr? ==> r == Err(TypeError)
    ensures name.PyStr? && IsNumber(coeff) ==> r == Ok(Gate(Parameterised, name.s, Number(NumberValue(coeff)), None))
    ensures name.PyStr? && !IsNumber(coeff) ==>
              (r.Ok? <==> NormalizeCoeff(coeff).Ok?)
              && (r.Ok? ==> r.value == Gate(Parameterised, name.s, Resolver(NormalizeCoeff(coeff).value), None))
    ensures r.Ok? ==> WfGate(r.value) && (IsParameter(r.value) <==> !IsNumber(coeff))
  {
    if !name.PyStr? then Err(TypeError)
    else if IsNumber(coeff) then Ok(Gate(Parameterised, name.s, Number(NumberValue(coeff)), None))
    else
      var pr :- NormalizeCoeff(coeff);
      Ok(Gate(Parameterised, name.s, Resolver(pr), None))
  }

  /** `on(obj_qubits, ctrl_qubits)`: a copy of the gate placed on the given
      qubits; target errors are reported before control errors. Nothing
      checks that targets and controls are disjoint. */
  function On(g: Gate, obj: PyValue, ctrl: PyValue): (r: Result<Gate>)
    ensures r.Ok? <==> QubitList(obj).Ok? && (ctrl.PyNone? || QubitList(ctrl).Ok?)
    ensures QubitList(obj).Err? ==> r == Err(QubitList(obj).error)
    ensures r.Ok? ==> r.value == g.(placement := Some(Placement(QubitList(obj).value,
                                         if ctrl.PyNone? then [] else QubitList(ctrl).value)))
  {
    var objs :- QubitList(obj);
    var ctrls :- if ctrl.PyNone? then Ok([]) else QubitList(ctrl);
    Ok(g.(placement := Some(Placement(objs, ctrls))))
  }

  /** Placing a gate again replaces the earlier placement and nothing else. */
  lemma OnTwice(g: Gate, obj: PyValue, ctrl: PyValue, obj': PyValue, ctrl': PyValue)
    requires On(g, obj, ctrl).Ok?
    ensures On(On(g, obj, ctrl).value, obj', ctrl') == On(g, obj', ctrl')
  {
  }

  /** `X.on(1)` targets [1] with no controls; `X.on(2, [0, 1])` is controlled
      by [0, 1]; `X.on(0, 0)` is accepted with the same qubit in both roles. */
  lemma OnExamples(g: Gate)
    ensures On(g, PyInt(1), PyNone) == Ok(g.(placement := Some(Placement([1], []))))
    ensures On(g, PyInt(2), PyList([PyInt(0), PyInt(1)])) == Ok(g.(placement := Some(Placement([2], [0, 1]))))
    ensures On(g, PyInt(0), PyInt(0)) == Ok(g.(placement := Some(Placement([0], [0]))))
    ensures On(g, PyInt(-1), PyNone) == Err(ValueError)
    ensures On(g, PyFloat(1.0), PyNone) == Err(TypeError)
    ensures On(g, PyInt(0), PyList([PyInt(1), PyStr("a")])) == Err(TypeError)
  {
    var one := [PyInt(1)];
    assert one[1..] == [];
    assert CheckAll(one).Ok? && CheckAll(one).value == [1];
    var two := [PyInt(0), PyInt(1)];
    assert two[1..] == one;
    assert CheckAll(two).Ok? && CheckAll(two).value == [0, 1];
    CheckAllFirstError([PyInt(1), PyStr("a")], 1);
  }

  // ---------------------------------------------------------------------------
  // Descriptions.

  function QubitsString(qs: seq<nat>): string {
    Join(" ", seq(|qs|, k requires 0 <= k < |qs| => NatToString(qs[k])))
  }

  /** `BasicGate.generate_description`: `name(o1 o2 <-: c1 c2)` with
      controls, `name(o1 o2)` without, the bare name when unplaced. */
  function BasicDescription(g: Gate): string {
    match g.placement
    case None => g.name
    case Some(p) =>
      if |p.ctrl| > 0 then g.name + "(" + QubitsString(p.obj) + " <-: " + QubitsString(p.ctrl) + ")"
      else g.name + "(" + QubitsString(p.obj) + ")"
  }

  /** How the coefficient prints: `round(coeff, 3)` for a number,
      `coeff.expression()` for a resolver. */
  function CoeffString(c: Coefficient, fmt: real -> string, expr: Dict<string, real> -> string): string {
    match c
    case NoCoeff => ""
    case Number(x) => fmt(x)
    case Resolver(pr) => expr(pr)
  }

  /** The gate's `str`. A parameter gate splices `"<coeff>|"` into the
      basic description right after `name(` by slicing at len(name) + 1. */
  function Description(g: Gate, fmt: real -> string, expr: Dict<string, real> -> string): string {
    var base := BasicDescription(g);
    if g.kind == Plain then base
    else if g.placement.None? then g.name + "(" + CoeffString(g.coeff, fmt, expr) + ")"
    else
      var cut := |g.name| + 1;
      base[..cut] + CoeffString(g.coeff, fmt, expr) + "|" + base[cut..]
  }

  /** The spliced description has the intended shape
      `name(<coeff>|o1 o2 <-: c1 c2)`. */
  lemma ParameterDescription(g: Gate, fmt: real -> string, expr: Dict<string, real> -> string)
    requires g.kind == Parameterised && g.placement.Some?
    ensures var p := g.placement.value;
            var c := CoeffString(g.coeff, fmt, expr);
            Description(g, fmt, expr)
            == if |p.ctrl| > 0 then g.name + "(" + c + "|" + QubitsString(p.obj) + " <-: " + QubitsString(p.ctrl) + ")"
               else g.name + "(" + c + "|" + QubitsString(p.obj) + ")"
  {
    var p := g.placement.value;
    if |p.ctrl| > 0 {
      var rest := QubitsString(p.obj) + " <-: " + QubitsString(p.ctrl) + ")";
      assert BasicDescription(g) == g.name + "(" + rest;
      CutAfterParen(g.name, rest);
    } else {
      var rest := QubitsString(p.obj) + ")";
      assert BasicDescription(g) == g.name + "(" + rest;
      CutAfterParen(g.name, rest);
    }
  }

  /** Slicing `name(rest` at len(name) + 1 separates `name(` from `rest`. */
  lemma CutAfterParen(name: string, rest: string)
    ensures (name + "(" + rest)[..|name| + 1] == name + "("
    ensures (name + "(" + rest)[|name| + 1..] == rest
  {
  }

  /** `X.on(2, [0, 1])` prints as `X(2 <-: 0 1)`; `RX('a').on(0)` as
      `RX(a|0)` when the resolver prints as `a`. */
  lemma DescriptionExamples(fmt: real -> string, expr: Dict<string, real> -> string)
    requires expr([("a", 1.0)]) == "a"
    ensures Description(Gate(Plain, "X", NoCoeff, Some(Placement([2], [0, 1]))), fmt, expr) == "X(2 <-: 0 1)"
    ensures Description(Gate(Parameterised, "RX", Resolver([("a", 1.0)]), Some(Placement([0], []))), fmt, expr) == "RX(a|0)"
  {
    ControlledXDescription(fmt, expr);
    ParameterDescription(Gate(Parameterised, "RX", Resolver([("a", 1.0)]), Some(Placement([0], []))), fmt, expr);
    assert QubitsString([0]) == "0";
  }

  lemma ControlledXDescription(fmt: real -> string, expr: Dict<string, real> -> string)
    ensures Description(Gate(Plain, "X", NoCoeff, Some(Placement([2], [0, 1]))), fmt, expr) == "X(2 <-: 0 1)"
  {
    QubitsTwo();
    QubitsZeroOne();
    assert BasicDescription(Gate(Plain, "X", NoCoeff, Some(Placement([2], [0, 1])))) == "X" + "(" + "2" + " <-: " + "0 1" + ")";
  }

  lemma QubitsTwo()
    ensures QubitsString([2]) == "2"
  {
  }

  lemma QubitsZeroOne()
    ensures QubitsString([0, 1]) == "0 1"
  {
    var ctrl := seq(2, k requires 0 <= k < 2 => NatToString([0, 1][k]));
    assert ctrl == ["0", "1"];
    JoinCons(" ", "0", ["1"]);
  }

  // ---------------------------------------------------------------------------
  // Equality.

  /** The right operand of `==`: a gate, or any other value. */
  datatype Operand = GateOperand(gate: Gate) | OtherOperand

  /** `_check_gate_type`. */
  function CheckGateType(other: Operand): (r: Result<Gate>)
    ensures r.Ok? <==> other.GateOperand?
    ensures r.Err? ==> r.error == TypeError
  {
    if other.GateOperand? then Ok(other.gate) else Err(TypeError)
  }

  /** Coefficient equality of parameter gates; resolvers compare as
      mappings. */
  predicate SameCoeff(a: Coefficient, b: Coefficient) {
    match (a, b)
    case (Resolver(p), Resolver(q)) => SameMapping(p, q)
    case _ => a == b
  }

  /** `g == other` through `g.__eq__`: the names, `isparameter`, then the
      target and control lists are compared, stopping at the first
      difference (an unplaced gate has no qubit lists, an AttributeError);
      a parameter gate also compares coefficients. */
  function Eq(g: Gate, other: Operand): (r: Result<bool>)
    ensures other.OtherOperand? ==> r == Err(TypeError)
    ensures other.GateOperand? && (other.gate.name != g.name || IsParameter(other.gate) != IsParameter(g))
            ==> r == Ok(false)
    ensures other.GateOperand? && other.gate.name == g.name && IsParameter(other.gate) == IsParameter(g)
            && (g.placement.None? || other.gate.placement.None?)
            ==> r == Err(AttributeError)
    ensures r == Ok(true) ==> other.GateOperand? && other.gate.name == g.name
                              && IsParameter(other.gate) == IsParameter(g)
                              && g.placement.Some? && other.gate.placement == g.placement
                              && (g.kind == Parameterised ==> SameCoeff(g.coeff, other.gate.coeff))
    ensures other.GateOperand? && other.gate.name == g.name && IsParameter(other.gate) == IsParameter(g)
            && g.placement.Some? && other.gate.placement == g.placement
            && (g.kind == Parameterised ==> SameCoeff(g.coeff, other.gate.coeff))
            ==> r == Ok(true)
  {
    var h :- CheckGateType(other);
    if g.name != h.name || IsParameter(g) != IsParameter(h) then Ok(false)
    else if g.placement.None? || h.placement.None? then Err(AttributeError)
    else if g.placement.value.obj != h.placement.value.obj then Ok(false)
    else if g.placement.value.ctrl != h.placement.value.ctrl then Ok(false)
    else if g.kind == Parameterised then Ok(SameCoeff(g.coeff, h.coeff))
    else Ok(true)
  }

  /** A placed gate equals itself, and equality between two placed gates of
      the same kind is symmetric. */
  lemma EqReflexiveSymmetric(g: Gate, h: Gate)
    requires g.placement.Some? && h.placement.Some? && g.kind == h.kind
    ensures Eq(g, GateOperand(g)) == Ok(true)
    ensures Eq(g, GateOperand(h)) == Eq(h, GateOperand(g))
  {
    if g.kind == Parameterised && g.coeff.Resolver? {
      SameMappingMeansSameGet(g.coeff.pr, g.coeff.pr);
    }
    if g.kind == Parameterised && g.coeff.Resolver? && h.coeff.Resolver? {
      SameMappingMeansSameGet(g.coeff.pr, h.coeff.pr);
      SameMappingMeansSameGet(h.coeff.pr, g.coeff.pr);
    }
  }

  // ---------------------------------------------------------------------------
  // linearcombination

  /** Σ over the names of `coeff` of weight · value, looking each name up
      in `params`; every name must be there. */
  function WeightedSum(coeff: Dict<string, real>, params: Dict<string, real>): real
    requires forall k :: 0 <= k < |coeff| ==> HasKey(params, coeff[k].0)
  {
    if |coeff| == 0 then 0.0
    else
      WeightedSum(coeff[..|coeff| - 1], params) + Contribution(coeff[|coeff| - 1], params)
  }

  /** One name's share, `coeff_in[k] * paras_out[k]`. */
  function Contribution(e: (string, real), params: Dict<string, real>): real
    requires HasKey(params, e.0)
  {
    e.1 * Get(params, e.0).value
  }

  predicate AllPresent(coeff: Dict<string, real>, params: Dict<string, real>) {
    forall k :: 0 <= k < |coeff| ==> HasKey(params, coeff[k].0)
  }

  /** The mapping part of a dict or ParameterResolver argument. */
  function AsMapping(v: PyValue): Option<Dict<string, real>> {
    match v
    case PyDict(d) => Some(d)
    case PyResolver(pr) => Some(pr)
    case _ => None
  }

  /** `linearcombination(coeff_in, paras_out)` as the loop writes it: both
      arguments must be dicts or resolvers; each name of `coeff_in` in turn
      must be in `paras_out` and adds weight · value. */
  method LinearCombination(coeffIn: PyValue, parasOut: PyValue) returns (r: Result<real>)
    ensures AsMapping(coeffIn).None? || AsMapping(parasOut).None? ==> r == Err(TypeError)
    ensures AsMapping(coeffIn).Some? && AsMapping(parasOut).Some? ==>
              var c, p := AsMapping(coeffIn).value, AsMapping(parasOut).value;
              && (r.Ok? <==> AllPresent(c, p))
              && (r.Err? ==> r.error == KeyError)
              && (r.Ok? ==> r.value == WeightedSum(c, p))
  {
    if AsMapping(coeffIn).None? || AsMapping(parasOut).None? {
      return Err(TypeError);
    }
    var c, p := AsMapping(coeffIn).value, AsMapping(parasOut).value;
    var params := 0.0;
    var i := 0;
    while i < |c|
      invariant 0 <= i <= |c|
      invariant AllPresent(c[..i], p)
      invariant params == WeightedSum(c[..i], p)
    {
      if !HasKey(p, c[i].0) {
        return Err(KeyError);
      }
      WeightedSumSnoc(c, p, i);
      params := params + Contribution(c[i], p);
      i := i + 1;
    }
    assert c[..i] == c;
    return Ok(params);
  }

  /** One more name of `coeff` adds its weight times its value. */
  lemma WeightedSumSnoc(c: Dict<string, real>, p: Dict<string, real>, i: nat)
    requires i < |c| && AllPresent(c[..i], p) && HasKey(p, c[i].0)
    ensures AllPresent(c[..i + 1], p)
    ensures WeightedSum(c[..i + 1], p) == WeightedSum(c[..i], p) + Contribution(c[i], p)
  {
    TakeOneMore(c, i);
    PresentOneMore(c, p, i);
    WeightedSumLast(c[..i + 1], p);
  }

  lemma TakeOneMore<T>(c: seq<T>, i: nat)
    requires i < |c|
    ensures |c[..i + 1]| == i + 1 && c[..i + 1][..i] == c[..i] && c[..i + 1][i] == c[i]
  {
  }

  lemma PresentOneMore(c: Dict<string, real>, p: Dict<string, real>, i: nat)
    requires i < |c| && AllPresent(c[..i], p) && HasKey(p, c[i].0)
    ensures AllPresent(c[..i + 1], p)
  {
    var s := c[..i + 1];
    forall k | 0 <= k < |s|
      ensures HasKey(p, s[k].0)
    {
      if k < i {
        assert s[k] == c[..i][k];
      }
    }
  }

  /** The sum of a non-empty list is the sum without its last name plus
      that name's term. */
  lemma WeightedSumLast(c: Dict<string, real>, p: Dict<string, real>)
    requires |c| > 0 && AllPresent(c, p)
    ensures AllPresent(c[..|c| - 1], p)
    ensures WeightedSum(c, p) == WeightedSum(c[..|c| - 1], p) + Contribution(c[|c| - 1], p)
  {
  }

  /** Names `params` has that `coeff` does not use make no difference. */
  lemma {:induction false} WeightedSumIgnoresExtra(coeff: Dict<string, real>, params: Dict<string, real>, more: Dict<string, real>)
    requires AllPresent(coeff, params)
    requires forall k :: 0 <= k < |coeff| ==> Get(more, coeff[k].0) == Get(params, coeff[k].0)
    ensures AllPresent(coeff, more)
    ensures WeightedSum(coeff, more) == WeightedSum(coeff, params)
    decreases |coeff|
  {
    PresentElsewhere(coeff, params, more);
    if |coeff| > 0 {
      var init := coeff[..|coeff| - 1];
      assert forall k :: 0 <= k < |init| ==> init[k] == coeff[k];
      WeightedSumIgnoresExtra(init, params, more);
    }
  }

  /** A name found in `params` is found in `more` when the two agree on it. */
  lemma PresentElsewhere(coeff: Dict<string, real>, params: Dict<string, real>, more: Dict<string, real>)
    requires AllPresent(coeff, params)
    requires forall k :: 0 <= k < |coeff| ==> Get(more, coeff[k].0) == Get(params, coeff[k].0)
    ensures AllPresent(coeff, more)
  {
    forall k | 0 <= k < |coeff|
      ensures HasKey(more, coeff[k].0)
    {
      assert Get(params, coeff[k].0).Some?;
    }
  }

  /** `linearcombination({'a': 0.5}, {'a': 3})` is 1.5; a name missing from
      the values raises KeyError. */
  method LinearCombinationExamples()
  {
    var r := LinearCombination(PyDict([("a", 0.5)]), PyDict([("a", 3.0)]));
    assert [("a", 3.0)][0].0 == "a";
    assert HasKey([("a", 3.0)], "a");
    assert AllPresent([("a", 0.5)], [("a", 3.0)]);
    assert IndexOf([("a", 3.0)], "a") == Some(0);
    assert Get([("a", 3.0)], "a") == Some(3.0);
    assert [("a", 0.5)][..0] == [];
    assert r == Ok(1.5);
    var missing := LinearCombination(PyDict([("a", 0.5)]), PyDict([("b", 3.0)]));
    assert !HasKey([("b", 3.0)], "a") by {
      assert "a"[0] != "b"[0];
    }
    assert missing == Err(KeyError);
  }

  // ---------------------------------------------------------------------------
  // hermitian of a one-parameter gate.

  function NegateCoeff(c: Coefficient): (r: Coefficient)
    ensures r.NoCoeff? <==> c.NoCoeff?
    ensures c.Number? ==> r == Number(-c.x)
    ensures c.Resolver? ==> r.Resolver? && Keys(r.pr) == Keys(c.pr)
                            && forall i :: 0 <= i < |c.pr| ==> r.pr[i].1 == -c.pr[i].1
  {
    match c
    case NoCoeff => NoCoeff
    case Number(x) => Number(-x)
    case Resolver(pr) =>
      MapValuesKeys(pr, (w: real) => -w);
      Resolver(MapValues(pr, (w: real) => -w))
  }

  /** `IntrinsicOneParaGate.hermitian`: the same gate with the coefficient
      negated (its description regenerated from the new coefficient). */
  function Hermitian(g: Gate): (r: Gate)
    requires g.kind == Parameterised
    ensures r.name == g.name && r.kind == g.kind && r.placement == g.placement
    ensures IsParameter(r) == IsParameter(g)
    ensures r.coeff == NegateCoeff(g.coeff)
    ensures g.coeff.Number? ==> r.coeff == Number(-g.coeff.x)
  {
    g.(coeff := NegateCoeff(g.coeff))
  }

  /** Taking the hermitian twice gives the gate back. */
  lemma HermitianInvolution(g: Gate)
    requires g.kind == Parameterised
    ensures Hermitian(Hermitian(g)) == g
  {
    if g.coeff.Resolver? {
      var twice := NegateCoeff(NegateCoeff(g.coeff)).pr;
      assert |twice| == |g.coeff.pr|;
      forall i | 0 <= i < |twice|
        ensures twice[i] == g.coeff.pr[i]
      {
        assert Keys(twice)[i] == Keys(g.coeff.pr)[i];
      }
    }
  }

  /** The description of the hermitian shows the negated coefficient in
      place of the original one. */
  lemma HermitianDescription(g: Gate, fmt: real -> string, expr: Dict<string, real> -> string)
    requires g.kind == Parameterised && g.placement.Some?
    ensures var p := g.placement.value;
            var c := CoeffString(NegateCoeff(g.coeff), fmt, expr);
            Description(Hermitian(g), fmt, expr)
            == if |p.ctrl| > 0 then g.name + "(" + c + "|" + QubitsString(p.obj) + " <-: " + QubitsString(p.ctrl) + ")"
               else g.name + "(" + c + "|" + QubitsString(p.obj) + ")"
  {
    ParameterDescription(Hermitian(g), fmt, expr);
  }

  // ---------------------------------------------------------------------------
  // Angle and differentiation parameter.

  /** The first argument of `matrix(*paras_out)`: absent, a dict, or a
      scalar. */
  datatype AngleArg = NoArg | MapArg(values: Dict<string, real>) | ScalarArg(x: real)

  /** The angle `matrix`/`diff_matrix` pass to `_matrix`: the linear
      combination for a dict, scalar · sole weight for a scalar (only with
      exactly one parameter), and the gate's own number when it is not
      parameterised. */
  function Angle(g: Gate, arg: AngleArg): (r: Result<real>)
    requires WfGate(g) && g.kind == Parameterised
    ensures !IsParameter(g) ==> r == Ok(g.coeff.x)
    ensures IsParameter(g) && arg.NoArg? ==> r == Err(IndexError)
    ensures IsParameter(g) && arg.ScalarArg? ==> (r.Ok? <==> |g.coeff.pr| == 1)
    ensures IsParameter(g) && arg.ScalarArg? && |g.coeff.pr| == 1 ==> r == Ok(ScalarAngle(arg.x, g.coeff.pr[0].1))
    ensures IsParameter(g) && arg.MapArg? ==>
              (r.Ok? <==> AllPresent(g.coeff.pr, arg.values))
              && (r.Ok? ==> r.value == WeightedSum(g.coeff.pr, arg.values))
  {
    if !IsParameter(g) then Ok(g.coeff.x)
    else
      match arg
      case NoArg => Err(IndexError)
      case MapArg(values) =>
        if AllPresent(g.coeff.pr, values) then Ok(WeightedSum(g.coeff.pr, values)) else Err(KeyError)
      case ScalarArg(x) =>
        if |g.coeff.pr| != 1 then Err(GenericException) else Ok(ScalarAngle(x, g.coeff.pr[0].1))
  }

  /** A scalar argument times the sole weight. */
  function ScalarAngle(x: real, w: real): real { x * w }

  /** With a single parameter, a scalar and the one-entry dict naming that
      parameter give the same angle. */
  lemma ScalarMatchesMap(g: Gate, x: real)
    requires WfGate(g) && g.kind == Parameterised && IsParameter(g) && |g.coeff.pr| == 1
    ensures Angle(g, ScalarArg(x)) == Angle(g, MapArg([(g.coeff.pr[0].0, x)]))
  {
    var pr := g.coeff.pr;
    var values := [(pr[0].0, x)];
    assert values[0].0 == pr[0].0;
    assert IndexOf(values, pr[0].0) == Some(0);
    assert HasKey(values, pr[0].0);
    assert pr[..0] == [];
    assert Get(values, pr[0].0) == Some(x);
    assert WeightedSum(pr, [(pr[0].0, x)]) == 0.0 + pr[0].1 * x;
    assert ScalarAngle(x, pr[0].1) == pr[0].1 * x;
  }

  /** `diff_matrix`: the angle as above, then the parameter to
      differentiate by, defaulting to the sole one; the result is that
      parameter's weight and the angle. */
  function DiffTarget(g: Gate, arg: AngleArg, aboutWhat: Option<string>): (r: Result<(real, real)>)
    requires WfGate(g) && g.kind == Parameterised
    ensures !IsParameter(g) ==> r == Err(GenericException)
    ensures IsParameter(g) && Angle(g, arg).Err? ==> r == Err(Angle(g, arg).error)
    ensures IsParameter(g) && Angle(g, arg).Ok? && aboutWhat.None? ==>
              (r.Ok? <==> |g.coeff.pr| == 1)
              && (r.Ok? ==> r.value == (g.coeff.pr[0].1, Angle(g, arg).value))
    ensures IsParameter(g) && Angle(g, arg).Ok? && aboutWhat.Some? ==>
              (r.Ok? <==> HasKey(g.coeff.pr, aboutWhat.value))
              && (r.Ok? ==> r.value == (Get(g.coeff.pr, aboutWhat.value).value, Angle(g, arg).value))
  {
    if !IsParameter(g) then Err(GenericException)
    else
      var theta :- Angle(g, arg);
      var name :- match aboutWhat
        case Some(n) => Ok(n)
        case None => if |g.coeff.pr| != 1 then Err(GenericException) else Ok(g.coeff.pr[0].0);
      match Get(g.coeff.pr, name)
      case None => Err(KeyError)
      case Some(w) => Ok((w, theta))
  }
}
