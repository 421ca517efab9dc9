/** The `Hamiltonian` wrapper of `mindquantum.core.operators.hamiltonian`:
    how an operator or a sparse matrix is accepted, the term list handed to
    the simulator, switching an operator to backend-sparse mode with
    `sparse`, and the caching of the simulator-side object in
    `get_cpp_obj`. Matrix entries are not modelled; a sparse matrix is
    known by its shape. */
module HamiltonianWrapper {
  import opened Wrappers
  import opened AssocList
  import opened TermPolicy
  import opened QubitOperators
  import OperatorMatrix
  import Bits
  import C = ComplexNum

  /** `HowTo`: an operator used as is, an operator the simulator turns into
      a sparse matrix, or a sparse matrix given directly. */
  datatype HowTo = Origin | Backend | Frontend

  /** What the constructor is handed: a qubit operator, a `csr_matrix` of
      the given shape, or anything else. */
  datatype Source = OperatorSource(op: QubitOperator) | CsrSource(shape: seq<nat>) | OtherSource

  /** `ham_termlist`: each term with the real part of its constant
      coefficient. */
  type TermList = seq<(Terms, real)>

  /** The simulator object `get_cpp_obj` builds: from the term list
      (with the qubit count in backend mode), or from a sparse matrix of
      the given dimension, possibly its conjugate transpose. */
  datatype CppHam =
    | TermsHam(terms: TermList, qubits: Option<nat>)
    | SparseHam(dim: nat, width: nat, conjugated: bool)

  datatype Hamiltonian = Hamiltonian(
    howTo: HowTo,
    nQubits: nat,
    termList: TermList,
    sparseDim: nat,
    hamCpp: Option<CppHam>,
    hermCpp: Option<CppHam>)

  // ---------------------------------------------------------------------------
  // Construction.

  /** The loop over `hamiltonian.terms`: every coefficient must be a
      constant, and only its real part is kept. */
  function BuildTermList(terms: Dict<Terms, Coeff>): (r: Result<TermList>)
    ensures r.Ok? <==> forall i :: 0 <= i < |terms| ==> IsConst(terms[i].1)
    ensures r.Err? ==> r.error == ValueError
    ensures r.Ok? ==> |r.value| == |terms|
                      && forall i :: 0 <= i < |terms| ==> r.value[i] == (terms[i].0, terms[i].1.constant.re)
  {
    if |terms| == 0 then Ok([])
    else if !IsConst(terms[0].1) then Err(ValueError)
    else
      var rest := BuildTermList(terms[1..]);
      assert forall i :: 1 <= i < |terms| ==> terms[i] == terms[1..][i - 1];
      if rest.Err? then Err(ValueError)
      else Ok([(terms[0].0, terms[0].1.constant.re)] + rest.value)
  }

  /** `QubitOperator('')`: the identity with coefficient 1. */
  const IdentityOperator := QubitOperator([([], Num(C.One))])

  /** `Hamiltonian(hamiltonian)`. */
  function NewHamiltonian(src: Source): (r: Result<Hamiltonian>)
    ensures src.OtherSource? ==> r == Err(TypeError)
    ensures src.CsrSource? ==>
              (r.Ok? <==> |src.shape| == 2 && src.shape[0] == src.shape[1] && Bits.Log2(src.shape[0]).Some?)
              && (r.Err? ==> r.error == ValueError)
              && (r.Ok? ==> r.value == Hamiltonian(Frontend, Bits.Log2(src.shape[0]).value, [([], 1.0)],
                                                    src.shape[0], None, None))
    ensures src.OperatorSource? ==>
              (r.Ok? <==> BuildTermList(src.op.terms).Ok?)
              && (r.Err? ==> r.error == ValueError)
              && (r.Ok? ==> r.value == Hamiltonian(Origin, OperatorMatrix.NumTargets(src.op.terms),
                                                    BuildTermList(src.op.terms).value, 2, None, None))
  {
    match src
    case OtherSource => Err(TypeError)
    case CsrSource(shape) =>
      if |shape| != 2 || shape[0] != shape[1] then Err(ValueError)
      else if Bits.Log2(shape[0]).None? then Err(ValueError)
      else
        var list :- BuildTermList(IdentityOperator.terms);
        Ok(Hamiltonian(Frontend, Bits.Log2(shape[0]).value, list, shape[0], None, None))
    case OperatorSource(op) =>
      var list :- BuildTermList(op.terms);
      Ok(Hamiltonian(Origin, OperatorMatrix.NumTargets(op.terms), list, 2, None, None))
  }

  /** A 2^k × 2^k matrix is accepted as a k-qubit Hamiltonian; any other
      square size is refused. */
  lemma CsrQubits(k: nat, d: nat)
    ensures NewHamiltonian(CsrSource([Bits.Pow2(k), Bits.Pow2(k)])).Ok?
    ensures NewHamiltonian(CsrSource([Bits.Pow2(k), Bits.Pow2(k)])).value.nQubits == k
    ensures (forall j :: 0 <= j <= d ==> Bits.Pow2(j) != d) ==> NewHamiltonian(CsrSource([d, d])) == Err(ValueError)
  {
    Bits.Log2Complete(Bits.Pow2(k), k);
    if Bits.Log2(d).Some? {
      assert Bits.Pow2(Bits.Log2(d).value) == d;
      Bits.PowerBelow(Bits.Log2(d).value);
    }
  }

  // ---------------------------------------------------------------------------
  // sparse

  /** `sparse(n_qubits)`: only an operator in origin mode switches, to at
      least its own qubit count. The cached simulator object is kept. */
  function Sparse(h: Hamiltonian, n: nat): (r: Result<Hamiltonian>)
    ensures r.Ok? <==> h.howTo == Origin && n >= h.nQubits
    ensures r.Err? ==> r.error == ValueError
    ensures r.Ok? ==> r.value == h.(howTo := Backend, nQubits := n)
  {
    if h.howTo != Origin then Err(ValueError)
    else if n < h.nQubits then Err(ValueError)
    else Ok(h.(howTo := Backend, nQubits := n))
  }

  /** A Hamiltonian is switched at most once, and a sparse matrix never. */
  lemma SparseOnce(h: Hamiltonian, n: nat, m: nat)
    requires Sparse(h, n).Ok?
    ensures Sparse(Sparse(h, n).value, m) == Err(ValueError)
    ensures Sparse(h.(howTo := Frontend), n) == Err(ValueError)
  {
  }

  // ---------------------------------------------------------------------------
  // get_cpp_obj

  /** The object built for the current mode. */
  function Build(h: Hamiltonian): (o: CppHam)
    ensures h.howTo == Origin ==> o == TermsHam(h.termList, None)
    ensures h.howTo == Backend ==> o == TermsHam(h.termList, Some(h.nQubits))
    ensures h.howTo == Frontend ==> o == SparseHam(h.sparseDim, h.nQubits, false)
  {
    match h.howTo
    case Origin => TermsHam(h.termList, None)
    case Backend => TermsHam(h.termList, Some(h.nQubits))
    case Frontend => SparseHam(h.sparseDim, h.nQubits, false)
  }

  /** `get_cpp_obj(hermitian)`: the updated wrapper and the object
      returned. The object is built on first use and cached; for an
      operator the hermitian one is the same object, for a sparse matrix
      it is built from the conjugate transpose and cached separately. */
  function GetCppObj(h: Hamiltonian, hermitian: bool): (r: (Hamiltonian, CppHam))
    ensures !hermitian || h.howTo != Frontend ==>
              r.1 == (if h.hamCpp.Some? then h.hamCpp.value else Build(h))
              && r.0 == h.(hamCpp := Some(r.1))
    ensures hermitian && h.howTo == Frontend ==>
              r.1 == (if h.hermCpp.Some? then h.hermCpp.value else SparseHam(h.sparseDim, h.nQubits, true))
              && r.0 == h.(hermCpp := Some(r.1))
  {
    if !hermitian || h.howTo != Frontend then
      var o := if h.hamCpp.Some? then h.hamCpp.value else Build(h);
      (h.(hamCpp := Some(o)), o)
    else
      var o := if h.hermCpp.Some? then h.hermCpp.value else SparseHam(h.sparseDim, h.nQubits, true);
      (h.(hermCpp := Some(o)), o)
  }

  /** Asking again returns the same object and changes nothing. */
  lemma GetCppObjCached(h: Hamiltonian, hermitian: bool)
    ensures var (h1, o1) := GetCppObj(h, hermitian);
            GetCppObj(h1, hermitian) == (h1, o1)
  {
  }

  /** For an operator, the hermitian object is the ordinary one. */
  lemma HermitianSharesObject(h: Hamiltonian)
    requires h.howTo != Frontend
    ensures GetCppObj(h, true) == GetCppObj(h, false)
  {
  }

  /** For a fresh wrapper the object matches its mode, and a sparse
      matrix's hermitian object is its conjugate transpose. */
  lemma FreshObject(src: Source)
    requires NewHamiltonian(src).Ok?
    ensures var h := NewHamiltonian(src).value;
            && GetCppObj(h, false).1 == Build(h)
            && (h.howTo == Frontend ==> GetCppObj(h, true).1 == SparseHam(h.sparseDim, h.nQubits, true))
            && (h.howTo == Origin ==> GetCppObj(h, true).1 == TermsHam(h.termList, None))
  {
  }

  /** When no object was built before `sparse(n)`, the simulator gets the
      term list together with the qubit count n. */
  lemma SparseThenObject(h: Hamiltonian, n: nat)
    requires Sparse(h, n).Ok? && h.hamCpp.None?
    ensures GetCppObj(Sparse(h, n).value, false).1 == TermsHam(h.termList, Some(n))
  {
  }

  /** An object built before `sparse(n)` survives it: the simulator keeps
      getting the origin-mode object, without the qubit count. */
  lemma StaleObjectAfterSparse(op: QubitOperator, n: nat)
    requires NewHamiltonian(OperatorSource(op)).Ok?
    requires n >= NewHamiltonian(OperatorSource(op)).value.nQubits
    ensures var h := NewHamiltonian(OperatorSource(op)).value;
            var built := GetCppObj(h, false).0;
            var switched := Sparse(built, n).value;
            && switched.howTo == Backend
            && GetCppObj(switched, false).1 == TermsHam(h.termList, None)
            && GetCppObj(switched, false).1 != TermsHam(h.termList, Some(n))
  {
  }
}
