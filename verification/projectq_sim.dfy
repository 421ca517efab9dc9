/** The checks the ProjectQ simulator front end (`mindquantum.simulator.
    projectq_sim`) makes before it calls the native simulator: the guards of
    `apply_gate`, `apply_circuit`, `set_qs` and `sampling`, and the way
    `get_expectation_with_grad` configures a gradient request (parameter
    names, roles, mode, the arity of the returned function and the slicing
    of its result rows). The simulator's state is not modelled: each
    operation yields the native call it would make. */
module ProjectqSim {
  import opened Wrappers
  import Bits
  import Gates

  /** What the front end knows about a circuit. */
  datatype CircuitInfo = CircuitInfo(
    nQubits: nat,
    unsupported: bool,           // holds a U3 or FSim gate
    measureKeys: seq<string>,    // `all_measures.keys()`
    paramsName: seq<string>,
    encoder: seq<string>,        // `all_encoder.keys()`
    ansatz: seq<string>,         // `all_ansatz.keys()`
    isNoise: bool,
    isMeasureEnd: bool)

  predicate HasMeasure(c: CircuitInfo) { |c.measureKeys| > 0 }

  /** The native call an operation ends in. */
  datatype NativeCall =
    | NoCall
    | ApplyMeasure
    | ApplyGate
    | ApplyGateWithParams
    | ApplyCircuit
    | ApplyCircuitWithParams
    | ApplyCircuitWithMeasure
    | SetState

  // ---------------------------------------------------------------------------
  // apply_circuit

  /** `apply_circuit(circuit, pr)`: U3 and FSim are refused, the circuit
      must fit the simulator, and a parameterised circuit needs a
      resolver. */
  function ApplyCircuitCall(n: nat, c: CircuitInfo, pr: Gates.PyValue): (r: Result<NativeCall>)
    ensures r.Ok? <==> !c.unsupported && c.nQubits <= n && (|c.paramsName| == 0 || !pr.PyNone?)
    ensures r.Err? ==> r.error == ValueError
    ensures r.Ok? && HasMeasure(c) ==> r.value == ApplyCircuitWithMeasure
    ensures r.Ok? && !HasMeasure(c) ==>
              r.value == (if |c.paramsName| > 0 then ApplyCircuitWithParams else ApplyCircuit)
  {
    if c.unsupported then Err(ValueError)
    else if n < c.nQubits then Err(ValueError)
    else if |c.paramsName| > 0 && pr.PyNone? then Err(ValueError)
    else if HasMeasure(c) then Ok(ApplyCircuitWithMeasure)
    else if |c.paramsName| > 0 then Ok(ApplyCircuitWithParams)
    else Ok(ApplyCircuit)
  }

  // ---------------------------------------------------------------------------
  // apply_gate and its range check

  /** Python's ordering of two lists of ints: the first differing element
      decides, and a proper prefix is smaller. */
  predicate LexLess(a: seq<nat>, b: seq<nat>)
    decreases |a|
  {
    if |b| == 0 then false
    else if |a| == 0 then true
    else if a[0] != b[0] then a[0] < b[0]
    else LexLess(a[1..], b[1..])
  }

  /** `max(a, b)` of two lists: the second only when it is larger. */
  function MaxList(a: seq<nat>, b: seq<nat>): (r: seq<nat>)
    ensures r == a || r == b
    ensures |a| == 0 ==> r == b
    ensures |b| == 0 ==> r == a
  {
    if LexLess(a, b) then b else a
  }

  /** `max(s)` of a non-empty list of ints. */
  function MaxOf(s: seq<nat>): (m: nat)
    requires |s| > 0
    ensures m in s
    ensures forall i :: 0 <= i < |s| ==> s[i] <= m
  {
    if |s| == 1 then s[0]
    else
      var rest := MaxOf(s[1..]);
      assert forall i :: 1 <= i < |s| ==> s[i] == s[1..][i - 1];
      if s[0] >= rest then s[0] else rest
  }

  /** The range check of `apply_gate` as written: the largest element of
      the lexicographically larger of the two lists must not exceed the
      qubit count. With both lists empty `max` raises ValueError. */
  function GateRangeAsWritten(n: nat, obj: seq<nat>, ctrl: seq<nat>): (r: Result<nat>)
    ensures r.Err? ==> r.error == ValueError
    ensures |obj| == 0 && |ctrl| == 0 ==> r.Err?
    ensures r.Ok? ==> r.value == MaxOf(MaxList(obj, ctrl)) && r.value <= n
  {
    var larger := MaxList(obj, ctrl);
    if |larger| == 0 then Err(ValueError)
    else if n < MaxOf(larger) then Err(ValueError)
    else Ok(MaxOf(larger))
  }

  /** The range check a simulator of n qubits needs: every target and
      control qubit is below n. */
  function GateRange(n: nat, obj: seq<nat>, ctrl: seq<nat>): (r: Result<nat>)
    ensures r.Err? ==> r.error == ValueError
    ensures r.Ok? <==> |obj + ctrl| > 0 && forall q :: q in obj + ctrl ==> q < n
    ensures r.Ok? ==> r.value in obj + ctrl
  {
    var all := obj + ctrl;
    if |all| == 0 then Err(ValueError)
    else if n <= MaxOf(all) then Err(ValueError)
    else Ok(MaxOf(all))
  }

  /** The check as written lets a gate through on qubit 9 of a two-qubit
      simulator (the control list [1] is lexicographically larger than the
      target list [0, 9]) and on qubit 2, which is one past the last. The
      corrected check refuses both. */
  lemma GateRangeCounterexamples()
    ensures GateRangeAsWritten(2, [0, 9], [1]) == Ok(1)
    ensures GateRange(2, [0, 9], [1]) == Err(ValueError)
    ensures GateRangeAsWritten(2, [2], []) == Ok(2)
    ensures GateRange(2, [2], []) == Err(ValueError)
  {
    assert LexLess([0, 9], [1]);
    assert MaxOf([1]) == 1;
    assert 9 in [0, 9] + [1];
    assert MaxOf([2]) == 2;
  }

  /** Whatever the check as written refuses, the corrected one refuses
      too. */
  lemma AsWrittenRefusesLess(n: nat, obj: seq<nat>, ctrl: seq<nat>)
    requires GateRangeAsWritten(n, obj, ctrl).Err?
    ensures GateRange(n, obj, ctrl).Err?
  {
    var larger := MaxList(obj, ctrl);
    if |larger| > 0 {
      var m := MaxOf(larger);
      assert m in obj + ctrl;
    }
  }

  /** What `apply_gate` is handed. */
  datatype GateClass = Barrier | UnsupportedGate | MeasureGate | OrdinaryGate

  datatype GateInfo = GateInfo(cls: GateClass, obj: seq<nat>, ctrl: seq<nat>, parameterized: bool)

  /** What follows the range check: a measurement is applied as such, and
      a parameterised gate needs a resolver. */
  function AfterRange(g: GateInfo, hasPr: bool): (r: Result<NativeCall>)
    ensures r.Err? <==> g.cls != MeasureGate && !hasPr && g.parameterized
    ensures r.Err? ==> r.error == ValueError
  {
    if g.cls == MeasureGate then Ok(ApplyMeasure)
    else if !hasPr then (if g.parameterized then Err(ValueError) else Ok(ApplyGate))
    else Ok(ApplyGateWithParams)
  }

  /** `apply_gate(gate, pr)` as written. */
  function ApplyGateCallAsWritten(n: nat, g: GateInfo, hasPr: bool): (r: Result<NativeCall>)
    ensures g.cls == Barrier ==> r == Ok(NoCall)
    ensures g.cls == UnsupportedGate ==> r == Err(ValueError)
    ensures g.cls != Barrier && g.cls != UnsupportedGate ==>
              r == if GateRangeAsWritten(n, g.obj, g.ctrl).Err? then Err(ValueError) else AfterRange(g, hasPr)
  {
    if g.cls == Barrier then Ok(NoCall)
    else if g.cls == UnsupportedGate then Err(ValueError)
    else
      var _ :- GateRangeAsWritten(n, g.obj, g.ctrl);
      AfterRange(g, hasPr)
  }

  /** `apply_gate(gate, pr)` with the corrected range check: a gate that
      reaches the simulator lies entirely inside it. */
  function ApplyGateCall(n: nat, g: GateInfo, hasPr: bool): (r: Result<NativeCall>)
    ensures g.cls == Barrier ==> r == Ok(NoCall)
    ensures g.cls == UnsupportedGate ==> r == Err(ValueError)
    ensures r.Ok? && g.cls != Barrier ==> forall q :: q in g.obj + g.ctrl ==> q < n
    ensures g.cls != Barrier && g.cls != UnsupportedGate ==>
              r == if GateRange(n, g.obj, g.ctrl).Err? then Err(ValueError) else AfterRange(g, hasPr)
  {
    if g.cls == Barrier then Ok(NoCall)
    else if g.cls == UnsupportedGate then Err(ValueError)
    else
      var _ :- GateRange(n, g.obj, g.ctrl);
      AfterRange(g, hasPr)
  }

  /** The two agree on every gate that lies inside the simulator. */
  lemma ApplyGateAgreesInRange(n: nat, g: GateInfo, hasPr: bool)
    requires |g.obj + g.ctrl| > 0 && forall q :: q in g.obj + g.ctrl ==> q < n
    ensures ApplyGateCallAsWritten(n, g, hasPr) == ApplyGateCall(n, g, hasPr)
  {
    var larger := MaxList(g.obj, g.ctrl);
    if |larger| > 0 {
      assert MaxOf(larger) in g.obj + g.ctrl;
    }
  }

  // ---------------------------------------------------------------------------
  // set_qs

  /** The argument of `set_qs`: a numpy array of the given shape, or
      something else. */
  datatype StateArg = NdArray(shape: seq<nat>) | NotAnArray

  /** `set_qs(quantum_state)`: a one-dimensional array whose length is 2 to
      the simulator's qubit count. */
  function SetQsCall(n: nat, v: StateArg): (r: Result<NativeCall>)
    ensures v.NotAnArray? ==> r == Err(TypeError)
    ensures v.NdArray? && r.Err? ==> r.error == ValueError
    ensures r.Ok? ==> r.value == SetState && v == NdArray([Bits.Pow2(n)])
  {
    match v
    case NotAnArray => Err(TypeError)
    case NdArray(shape) =>
      if |shape| != 1 then Err(ValueError)
      else match Bits.Log2(shape[0])
        case None => Err(ValueError)
        case Some(k) => if n != k then Err(ValueError) else Ok(SetState)
  }

  /** The array of length 2^n is accepted. */
  lemma SetQsAccepts(n: nat)
    ensures SetQsCall(n, NdArray([Bits.Pow2(n)])) == Ok(SetState)
  {
    Bits.Log2Complete(Bits.Pow2(n), n);
  }

  // ---------------------------------------------------------------------------
  // sampling

  /** How `sampling` goes on after its checks: on a copy of the simulator
      with the measurement-free circuit applied first when the circuit ends
      in measurements and is noiseless, on the simulator itself otherwise. */
  datatype SamplePlan = SamplePlan(onCopy: bool, shots: nat, keys: seq<string>)

  /** `sampling(circuit, pr, shots, seed)`; the seed is drawn or checked
      outside this model. */
  function SamplingPlan(n: nat, c: CircuitInfo, pr: Gates.PyValue, shots: Gates.PyValue): (r: Result<SamplePlan>)
    ensures !HasMeasure(c) ==> r == Err(ValueError)
    ensures HasMeasure(c) && c.nQubits > n ==> r == Err(ValueError)
    ensures HasMeasure(c) && c.nQubits <= n && !shots.PyInt? ==> r == Err(TypeError)
    ensures r.Ok? <==> HasMeasure(c) && c.nQubits <= n && shots.PyInt? && shots.i >= 1
                       && (|c.paramsName| > 0 ==> pr.PyDict? || pr.PyResolver?)
    ensures r.Ok? ==> r.value == SamplePlan(c.isMeasureEnd && !c.isNoise, shots.i, c.measureKeys)
  {
    if !HasMeasure(c) then Err(ValueError)
    else if n < c.nQubits then Err(ValueError)
    else if !shots.PyInt? then Err(TypeError)
    else if shots.i < 1 then Err(ValueError)
    else if |c.paramsName| > 0 && pr.PyNone? then Err(ValueError)
    else if |c.paramsName| > 0 && !(pr.PyDict? || pr.PyResolver?) then Err(TypeError)
    else Ok(SamplePlan(c.isMeasureEnd && !c.isNoise, shots.i, c.measureKeys))
  }

  // ---------------------------------------------------------------------------
  // get_expectation_with_grad

  /** `ansatz_params_name.append(i)` for each name of `more` not yet
      present: the first list keeps its order and the new names follow in
      the order they first appear. */
  function MergeNames(names: seq<string>, more: seq<string>): (r: seq<string>)
    ensures |r| >= |names| && r[..|names|] == names
    ensures forall x :: x in r <==> x in names || x in more
    ensures forall i :: |names| <= i < |r| ==> r[i] !in names
    ensures NoDup(names) ==> NoDup(r)
    decreases |more|
  {
    if |more| == 0 then names
    else
      var acc := MergeNames(names, more[..|more| - 1]);
      var x := more[|more| - 1];
      assert forall y :: y in more <==> y in more[..|more| - 1] || y == x;
      if x in acc then acc
      else
        assert (acc + [x])[..|names|] == acc[..|names|];
        acc + [x]
  }

  predicate NoDup(s: seq<string>) {
    forall i, j :: 0 <= i < j < |s| ==> s[i] != s[j]
  }

  /** Merging in names already present changes nothing. */
  lemma {:induction false} MergeNamesPresent(names: seq<string>, more: seq<string>)
    requires forall x :: x in more ==> x in names
    ensures MergeNames(names, more) == names
    decreases |more|
  {
    if |more| > 0 {
      MergeNamesPresent(names, more[..|more| - 1]);
    }
  }

  /** Which inputs `grad_ops` takes. */
  datatype Version = Both | EncoderOnly | AnsatzOnly

  /** The mode: both roles by default, encoder only without ansatz names,
      ansatz only without encoder names, which is also the answer when
      neither has names. */
  function ModeOf(ansatz: seq<string>, encoder: seq<string>): (v: Version)
    ensures v == Both <==> |ansatz| > 0 && |encoder| > 0
    ensures v == EncoderOnly <==> |ansatz| == 0 && |encoder| > 0
    ensures v == AnsatzOnly <==> |encoder| == 0
  {
    var v := Both;
    var v := if |ansatz| == 0 then EncoderOnly else v;
    if |encoder| == 0 then AnsatzOnly else v
  }

  /** The left-hand simulator argument. */
  datatype SimArg = ProjectqArg(nQubits: nat) | OtherSimulator

  /** The simulator that evolves the left state. */
  datatype LeftSim = SelfSim | GivenSim(nQubits: nat)

  datatype GradConfig = GradConfig(
    nonHermitian: bool,
    leftSim: Option<LeftSim>,
    leftCircuit: CircuitInfo,
    encoderNames: seq<string>,
    ansatzNames: seq<string>,
    version: Version)

  /** The `hams` argument: one Hamiltonian, a list whose elements are or
      are not Hamiltonians, or something else. */
  datatype HamsArg = OneHam | HamList(isHam: seq<bool>) | NotHams

  /** The checks of `hams`; the qubit-number check of each Hamiltonian is
      not part of this model. */
  function CheckHams(hams: HamsArg): (r: Result<nat>)
    ensures r.Ok? <==> hams.OneHam? || (hams.HamList? && forall i :: 0 <= i < |hams.isHam| ==> hams.isHam[i])
    ensures r.Err? ==> r.error == TypeError
    ensures r.Ok? ==> r.value == if hams.OneHam? then 1 else |hams.isHam|
  {
    match hams
    case OneHam => Ok(1)
    case NotHams => Err(TypeError)
    case HamList(isHam) =>
      if forall i :: 0 <= i < |isHam| ==> isHam[i] then Ok(|isHam|) else Err(TypeError)
  }

  /** The circuit on the left: the one given, else the right one. */
  function LeftCircuit(right: CircuitInfo, left: Option<CircuitInfo>): CircuitInfo {
    if left.Some? then left.value else right
  }

  /** Non-hermitian mode: a left circuit or a left simulator is given. */
  predicate NonHermitian(left: Option<CircuitInfo>, simLeft: Option<SimArg>) {
    left.Some? || simLeft.Some?
  }

  /** The encoder names: the right circuit's, with the left circuit's new
      ones appended in non-hermitian mode. */
  function EncoderNames(right: CircuitInfo, left: Option<CircuitInfo>, simLeft: Option<SimArg>): seq<string> {
    if NonHermitian(left, simLeft) then MergeNames(right.encoder, LeftCircuit(right, left).encoder)
    else right.encoder
  }

  /** The ansatz names, merged in the same way. */
  function AnsatzNames(right: CircuitInfo, left: Option<CircuitInfo>, simLeft: Option<SimArg>): seq<string> {
    if NonHermitian(left, simLeft) then MergeNames(right.ansatz, LeftCircuit(right, left).ansatz)
    else right.ansatz
  }

  /** No name is both an encoder and an ansatz name. */
  predicate RolesDisjoint(encoder: seq<string>, ansatz: seq<string>) {
    forall x :: x in encoder ==> x !in ansatz
  }

  /** The checks that come before the role check: the Hamiltonians, no
      noise, a ProjectQ left simulator of the same size, no measurement,
      an int worker count. */
  predicate ChecksBeforeRoles(n: nat, hams: HamsArg, right: CircuitInfo, left: Option<CircuitInfo>,
                              simLeft: Option<SimArg>, parallelWorker: Option<Gates.PyValue>) {
    && CheckHams(hams).Ok?
    && !right.isNoise && (left.None? || !left.value.isNoise)
    && (simLeft.None? || simLeft.value == ProjectqArg(n))
    && !HasMeasure(right) && !HasMeasure(LeftCircuit(right, left))
    && (parallelWorker.None? || parallelWorker.value.PyInt?)
  }

  /** `get_expectation_with_grad` up to the building of `grad_ops`, in the
      order of its checks. */
  function GradConfigure(n: nat, hams: HamsArg, right: CircuitInfo, left: Option<CircuitInfo>,
                         simLeft: Option<SimArg>, parallelWorker: Option<Gates.PyValue>): (r: Result<GradConfig>)
    // Which calls are accepted.
    ensures r.Ok? <==>
              && ChecksBeforeRoles(n, hams, right, left, simLeft, parallelWorker)
              && RolesDisjoint(EncoderNames(right, left, simLeft), AnsatzNames(right, left, simLeft))
              && n >= right.nQubits && n >= LeftCircuit(right, left).nQubits
              && !right.unsupported && !LeftCircuit(right, left).unsupported
    // Which error each refusal raises.
    ensures r.Err? ==> r.error == TypeError || r.error == ValueError || r.error == RuntimeError
    ensures CheckHams(hams).Err? ==> r == Err(TypeError)
    ensures r == Err(TypeError) ==>
              CheckHams(hams).Err? || (simLeft.Some? && simLeft.value.OtherSimulator?)
              || (parallelWorker.Some? && !parallelWorker.value.PyInt?)
    ensures r == Err(ValueError) ==>
              right.isNoise || (left.Some? && left.value.isNoise)
              || (simLeft.Some? && simLeft.value.ProjectqArg? && simLeft.value.nQubits != n)
              || HasMeasure(right) || HasMeasure(LeftCircuit(right, left))
              || n < right.nQubits || n < LeftCircuit(right, left).nQubits
              || right.unsupported || LeftCircuit(right, left).unsupported
    ensures r == Err(RuntimeError) <==>
              ChecksBeforeRoles(n, hams, right, left, simLeft, parallelWorker)
              && !RolesDisjoint(EncoderNames(right, left, simLeft), AnsatzNames(right, left, simLeft))
    // What an accepted call configures.
    ensures r.Ok? ==> (r.value.nonHermitian <==> left.Some? || simLeft.Some?)
    ensures r.Ok? ==> r.value.leftCircuit == LeftCircuit(right, left)
    ensures r.Ok? && simLeft.None? ==> r.value.leftSim == (if left.Some? then Some(SelfSim) else None)
    ensures r.Ok? && simLeft.Some? ==> r.value.leftSim == Some(GivenSim(n))
    ensures r.Ok? ==> r.value.version == ModeOf(r.value.ansatzNames, r.value.encoderNames)
    ensures r.Ok? ==> RolesDisjoint(r.value.encoderNames, r.value.ansatzNames)
    ensures r.Ok? ==> !r.value.nonHermitian ==> r.value.encoderNames == right.encoder && r.value.ansatzNames == right.ansatz
    ensures r.Ok? ==> r.value.nonHermitian ==>
              r.value.encoderNames == MergeNames(right.encoder, r.value.leftCircuit.encoder)
              && r.value.ansatzNames == MergeNames(right.ansatz, r.value.leftCircuit.ansatz)
  {
    var _ :- CheckHams(hams);
    :- Need(!right.isNoise, ValueError);
    :- Need(left.None? || !left.value.isNoise, ValueError);
    :- Need(simLeft.None? || simLeft.value.ProjectqArg?, TypeError);
    :- Need(simLeft.None? || simLeft.value.nQubits == n, ValueError);
    var nonHermitian := NonHermitian(left, simLeft);
    var leftSim := if simLeft.Some? then Some(GivenSim(simLeft.value.nQubits))
                   else if nonHermitian then Some(SelfSim) else None;
    var leftCircuit := LeftCircuit(right, left);
    :- Need(!HasMeasure(leftCircuit) && !HasMeasure(right), ValueError);
    :- Need(parallelWorker.None? || parallelWorker.value.PyInt?, TypeError);
    var ansatz := AnsatzNames(right, left, simLeft);
    var encoder := EncoderNames(right, left, simLeft);
    :- Need(RolesDisjoint(encoder, ansatz), RuntimeError);
    :- Need(n >= right.nQubits && n >= leftCircuit.nQubits, ValueError);
    :- Need(!right.unsupported && !leftCircuit.unsupported, ValueError);
    Ok(GradConfig(nonHermitian, leftSim, leftCircuit, encoder, ansatz, ModeOf(ansatz, encoder)))
  }

  /** A name in both roles is refused with RuntimeError once the earlier
      checks pass, before anything about qubit counts is checked. */
  lemma RoleConflict(n: nat, right: CircuitInfo, x: string)
    requires !right.isNoise && !HasMeasure(right)
    requires x in right.encoder && x in right.ansatz
    ensures GradConfigure(n, OneHam, right, None, None, None) == Err(RuntimeError)
  {
  }

  /** With a left circuit, a name that is an encoder on one side and an
      ansatz on the other is a conflict too. */
  lemma CrossRoleConflict(n: nat, right: CircuitInfo, left: CircuitInfo, x: string)
    requires !right.isNoise && !left.isNoise && !HasMeasure(right) && !HasMeasure(left)
    requires x in right.encoder && x in left.ansatz
    ensures GradConfigure(n, OneHam, right, Some(left), None, None) == Err(RuntimeError)
  {
    assert x in MergeNames(right.ansatz, left.ansatz);
  }

  /** `grad_ops(*inputs)`: two inputs in both-roles mode, one otherwise. */
  function CheckArity(v: Version, count: nat): (r: Result<nat>)
    ensures r.Ok? <==> count == (if v == Both then 2 else 1)
    ensures r.Err? ==> r.error == ValueError
  {
    if v == Both && count != 2 then Err(ValueError)
    else if v != Both && count != 1 then Err(ValueError)
    else Ok(count)
  }

  /** The pieces a row of the native result is cut into: the value, then
      the encoder and ansatz gradients, or the value and one gradient. */
  datatype RowParts = Three(f: real, enc: seq<real>, ans: seq<real>) | Two(f: real, g: seq<real>)

  /** Python slicing of a row: `[0]`, `[1 : 1 + k]` and `[1 + k :]` in
      both-roles mode, `[0]` and `[1:]` otherwise; slices clamp at the end
      and an empty row has no `[0]`. */
  function SplitRow(v: Version, row: seq<real>, k: nat): (r: Result<RowParts>)
    ensures r.Ok? <==> |row| > 0
    ensures r.Err? ==> r.error == IndexError
    ensures r.Ok? && v == Both ==> r.value.Three? && [r.value.f] + r.value.enc + r.value.ans == row
                                   && (|row| >= 1 + k ==> |r.value.enc| == k)
    ensures r.Ok? && v != Both ==> r.value.Two? && [r.value.f] + r.value.g == row
  {
    if |row| == 0 then Err(IndexError)
    else if v == Both then
      var cut := if 1 + k <= |row| then 1 + k else |row|;
      assert row == [row[0]] + row[1..cut] + row[cut..];
      Ok(Three(row[0], row[1..cut], row[cut..]))
    else
      assert row == [row[0]] + row[1..];
      Ok(Two(row[0], row[1..]))
  }

  /** A row packed from the value and the two gradients splits back into
      them when the encoder gradient has one entry per encoder name. */
  lemma SplitPackedRow(f: real, enc: seq<real>, ans: seq<real>)
    ensures SplitRow(Both, [f] + enc + ans, |enc|) == Ok(Three(f, enc, ans))
    ensures SplitRow(EncoderOnly, [f] + enc, 0) == Ok(Two(f, enc))
  {
    var row := [f] + enc + ans;
    assert row[1..1 + |enc|] == enc;
    assert row[1 + |enc|..] == ans;
    assert ([f] + enc)[1..] == enc;
  }
}
