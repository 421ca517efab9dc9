/** The `StronglyEntangling` ansatz of `mindquantum.algorithm.nisq.qnn`:
    the checks of its constructor and the layout `_implement` produces —
    `depth` layers, each a block of U3 rotations on qubits 0..n-1 followed
    by n entangling gates whose target is shifted by the layer number. */
module StronglyEntangling {
  import opened Wrappers
  import opened Text
  import Bits
  import Gates

  /** The entangling gate argument: whether it is a `BasicGate`, whether it
      is parameterised, and the dimension of its matrix. */
  datatype GateArg = GateArg(isBasicGate: bool, parameterized: bool, matrixDim: nat)

  /** An accepted ansatz: qubit count, depth, and the entangling gate's
      qubit count (1 or 2). */
  datatype Ansatz = Ansatz(nQubits: nat, depth: nat, gateQubits: nat)

  predicate WfAnsatz(a: Ansatz) {
    a.nQubits >= 2 && a.depth >= 1 && (a.gateQubits == 1 || a.gateQubits == 2)
  }

  /** `StronglyEntangling(n_qubits, depth, entangle_gate)`: both counts are
      ints (TypeError), at least 2 qubits and at least one layer
      (ValueError), and a non-parameterised gate on one or two qubits
      (ValueError). */
  function NewAnsatz(nQubits: Gates.PyValue, depth: Gates.PyValue, gate: GateArg): (r: Result<Ansatz>)
    ensures !nQubits.PyInt? || !depth.PyInt? ==> r == Err(TypeError)
    ensures nQubits.PyInt? && depth.PyInt? && r.Err? ==> r.error == ValueError
    ensures r.Ok? <==> nQubits.PyInt? && depth.PyInt? && nQubits.i >= 2 && depth.i >= 1
                       && gate.isBasicGate && !gate.parameterized && (gate.matrixDim == 2 || gate.matrixDim == 4)
    ensures r.Ok? ==> WfAnsatz(r.value) && r.value.nQubits == nQubits.i && r.value.depth == depth.i
                      && (r.value.gateQubits == 1 <==> gate.matrixDim == 2)
  {
    if !nQubits.PyInt? || !depth.PyInt? then Err(TypeError)
    else if nQubits.i < 2 || depth.i < 1 then Err(ValueError)
    else if !gate.isBasicGate || gate.parameterized then Err(ValueError)
    else if gate.matrixDim == 2 then Ok(Ansatz(nQubits.i, depth.i, 1))
    else if gate.matrixDim == 4 then Ok(Ansatz(nQubits.i, depth.i, 2))
    else Err(ValueError)
  }

  // ---------------------------------------------------------------------------
  // The layout.

  /** A gate of the circuit: a U3 rotation on one qubit, its parameters
      carrying the layer prefix, or the entangling gate on targets and
      controls. */
  datatype Placed =
    | Rotation(qubit: nat, prefix: string)
    | Entangle(obj: seq<nat>, ctrl: seq<nat>)

  /** The names of the three angles of the rotation on qubit i, before the
      layer prefix is added. */
  function RotationParams(i: nat): seq<string> {
    ["a" + NatToString(i), "b" + NatToString(i), "c" + NatToString(i)]
  }

  /** The prefix of layer l. */
  function LayerPrefix(l: nat): string { "l" + NatToString(l) }

  /** Gate j of layer l: rotations first, then entangling gate j - n. */
  function LayerGate(n: nat, gateQubits: nat, l: nat, j: nat): Placed
    requires n > 0 && j < 2 * n
  {
    if j < n then Rotation(j, LayerPrefix(l))
    else
      var idx := j - n;
      var target := (idx + l + 1) % n;
      if gateQubits == 1 then Entangle([target], [idx]) else Entangle([target, idx], [])
  }

  /** Gate k of the whole circuit. */
  function GateAt(n: nat, gateQubits: nat, k: nat): Placed
    requires n > 0
  {
    LayerGate(n, gateQubits, k / (2 * n), k % (2 * n))
  }

  /** Position j of layer l is gate 2nl + j. */
  lemma GateAtLayer(n: nat, gateQubits: nat, l: nat, j: nat)
    requires n > 0 && j < 2 * n
    ensures GateAt(n, gateQubits, 2 * n * l + j) == LayerGate(n, gateQubits, l, j)
  {
    Bits.DivModUnique(2 * n * l + j, 2 * n, l, j);
  }

  /** `_implement(depth, entangle_gate)`: for each layer, the rotation
      block and then the n entangling gates. */
  method Implement(a: Ansatz) returns (circ: seq<Placed>)
    requires WfAnsatz(a)
    ensures |circ| == 2 * a.nQubits * a.depth
    ensures forall k :: 0 <= k < |circ| ==> circ[k] == GateAt(a.nQubits, a.gateQubits, k)
  {
    var n := a.nQubits;
    circ := [];
    var l := 0;
    while l < a.depth
      invariant 0 <= l <= a.depth
      invariant |circ| == 2 * n * l
      invariant forall k :: 0 <= k < |circ| ==> circ[k] == GateAt(n, a.gateQubits, k)
    {
      var j := 0;
      while j < 2 * n
        invariant 0 <= j <= 2 * n
        invariant |circ| == 2 * n * l + j
        invariant forall k :: 0 <= k < |circ| ==> circ[k] == GateAt(n, a.gateQubits, k)
      {
        var g;
        if j < n {
          g := Rotation(j, LayerPrefix(l));
        } else {
          var idx := j - n;
          if a.gateQubits == 1 {
            g := Entangle([(idx + l + 1) % n], [idx]);
          } else {
            g := Entangle([(idx + l + 1) % n, idx], []);
          }
        }
        GateAtLayer(n, a.gateQubits, l, j);
        circ := circ + [g];
        j := j + 1;
      }
      assert 2 * n * l + 2 * n == 2 * n * (l + 1);
      l := l + 1;
    }
  }

  /** Every qubit index of the layout is below n. */
  lemma QubitsInRange(n: nat, gateQubits: nat, k: nat)
    requires n > 0
    ensures GateAt(n, gateQubits, k).Rotation? ==> GateAt(n, gateQubits, k).qubit < n
    ensures GateAt(n, gateQubits, k).Entangle? ==>
              forall q :: q in GateAt(n, gateQubits, k).obj + GateAt(n, gateQubits, k).ctrl ==> q < n
  {
  }

  /** In layer l the rotations come first, one per qubit in order, all with
      the prefix of that layer. */
  lemma RotationBlock(n: nat, gateQubits: nat, l: nat, i: nat)
    requires n > 0 && i < n
    ensures GateAt(n, gateQubits, 2 * n * l + i) == Rotation(i, LayerPrefix(l))
  {
    GateAtLayer(n, gateQubits, l, i);
  }

  /** Entangling gate idx of layer l targets (idx + l + 1) mod n; a
      one-qubit gate is controlled by idx, a two-qubit gate acts on the
      target and idx. Target and control coincide exactly when
      (l + 1) mod n is 0. */
  lemma EntanglingGate(n: nat, gateQubits: nat, l: nat, idx: nat)
    requires n > 0 && idx < n
    ensures var g := GateAt(n, gateQubits, 2 * n * l + n + idx);
            var t := (idx + l + 1) % n;
            && g == (if gateQubits == 1 then Entangle([t], [idx]) else Entangle([t, idx], []))
            && (t == idx <==> (l + 1) % n == 0)
  {
    GateAtLayer(n, gateQubits, l, n + idx);
    ShiftFixed(n, l, idx);
  }

  /** (idx + s) mod n is idx exactly when s mod n is 0, for idx < n. */
  lemma ShiftFixed(n: nat, l: nat, idx: nat)
    requires n > 0 && idx < n
    ensures (idx + l + 1) % n == idx <==> (l + 1) % n == 0
  {
    var s := l + 1;
    var q, r := s / n, s % n;
    assert s == n * q + r;
    if idx + r < n {
      Bits.DivModUnique(idx + s, n, q, idx + r);
    } else {
      Bits.DivModUnique(idx + s, n, q + 1, idx + r - n);
    }
  }

  /** The example `StronglyEntangling(3, 2, X)`: twelve gates; in the
      second layer the first CNOT-style gate targets qubit 2 under
      control of qubit 0, and in the third layer of a depth-3 ansatz the
      targets coincide with the controls. */
  method LayoutExample()
  {
    var a := Ansatz(3, 2, 1);
    var circ := Implement(a);
    assert |circ| == 12;
    EntanglingGate(3, 1, 1, 0);
    assert 2 * 3 * 1 + 3 + 0 == 9;
    assert circ[9] == Entangle([2], [0]);
    EntanglingGate(3, 1, 2, 1);
    assert GateAt(3, 1, 2 * 3 * 2 + 3 + 1) == Entangle([1], [1]);
  }
}
