/**
 * The vocabulary of NumPy-style index expressions accepted by `__getitem__` of a
 * tensor variable (aesara/tensor/var.py), and the per-entry helpers it uses: the
 * nested `includes_bool` and `is_empty_array`, and the stand-in for
 * `aet.subtensor.as_index_constant`.
 *
 * Python is dynamically typed, so one datatype serves for the raw entries a caller
 * passes and for the entries left after normalisation.
 */
module Indices {
  import opened Wrappers

  datatype Index =
    | PyNone                                        // Python None, i.e. numpy.newaxis; also an absent slice member
    | Int(value: int)                               // a Python or NumPy integer (not a bool)
    | PyBool(truth: bool)                           // a Python bool or a NumPy bool_ scalar
    | Slice(start: Index, stop: Index, step: Index) // slice(start, stop, step)
    | Ellipsis
    | Array(boolDtype: bool, ndim: nat, size: nat)  // a numpy.ndarray of numeric or bool dtype: its dtype and shape
    | Symbolic(id: nat, boolDtype: bool, ndim: nat) // a graph Variable
    | Constant(literal: Index)                      // the graph constant as_index_constant makes of a literal
    | PyList(elems: seq<Index>)
    | PyTuple(elems: seq<Index>)

  /** `slice(None)`, equal to `slice(None, None, None)`. */
  const FullSlice: Index := Slice(PyNone, PyNone, PyNone)

  /** `isinstance(e, Variable)`: graph constants are variables too. */
  predicate IsVariable(e: Index) {
    e.Symbolic? || e.Constant?
  }

  /**
   * `hasattr(e, "dtype") and e.dtype == "bool"`. A constant keeps the dtype NumPy
   * gives its literal: bool only for a bool array (`as_index_constant` turns a
   * Python bool, which is an int, into an int64 scalar). PyBool answers true for the
   * NumPy bool_ scalar; every test below checks `isinstance(e, bool)` beside it.
   */
  predicate HasBoolDtype(e: Index) {
    match e
    case PyBool(_) => true
    case Array(b, _, _) => b
    case Symbolic(_, b, _) => b
    case Constant(lit) => lit.Array? && lit.boolDtype
    case _ => false
  }

  /** `e.ndim` for an array or a variable. */
  function NDim(e: Index): nat {
    match e
    case Array(_, n, _) => n
    case Symbolic(_, _, n) => n
    case Constant(lit) => if lit.Array? then lit.ndim else 0
    case _ => 0
  }

  /** An ndarray or a variable of dtype bool: a boolean mask (aesara/tensor/var.py:472-477). */
  predicate IsBoolMask(e: Index) {
    (e.Array? || IsVariable(e)) && HasBoolDtype(e)
  }

  /**
   * The nested `includes_bool` (aesara/tensor/var.py:445-454). `None` stands for the
   * TypeError Python raises when the loop iterates a 0-d array: an ndarray is an
   * `Iterable` whatever its rank, but iterating one of rank 0 fails. Iterating a
   * numeric ndarray of any other rank yields sub-arrays and NumPy scalars of its
   * own non-bool dtype, so it finds no bool. Slices and `None` are not iterable,
   * and variables are not descended into.
   */
  function IncludesBool(e: Index): Option<bool>
    decreases e, 1
  {
    if e.PyBool? || HasBoolDtype(e) then Some(true)
    else match e
      case PyList(es) => AnyIncludesBool(es)
      case PyTuple(es) => AnyIncludesBool(es)
      case Array(_, n, _) => if n == 0 then None else Some(false)
      case _ => Some(false)
  }

  /** The `for el in args_el` loop of `includes_bool`, with its early `return True`. */
  function AnyIncludesBool(es: seq<Index>): Option<bool>
    decreases es, 0
  {
    if es == [] then Some(false)
    else match IncludesBool(es[0])
      case None => None
      case Some(true) => Some(true)
      case Some(false) => AnyIncludesBool(es[1..])
  }

  // ---------------------------------------------------------------------------
  // A reference reading of includes_bool: the leaves it reaches, in order.

  /** The entries `includes_bool` ends up testing: it descends into lists and tuples only. */
  function Leaves(e: Index): seq<Index>
    decreases e, 1
  {
    match e
    case PyList(es) => LeavesOf(es)
    case PyTuple(es) => LeavesOf(es)
    case _ => [e]
  }

  function LeavesOf(es: seq<Index>): seq<Index>
    decreases es, 0
  {
    if es == [] then [] else Leaves(es[0]) + LeavesOf(es[1..])
  }

  /** A leaf that is a bool: a Python or NumPy bool, or anything of dtype bool. */
  predicate IsBoolLeaf(l: Index) {
    l.PyBool? || HasBoolDtype(l)
  }

  /** A leaf whose iteration raises: a 0-d ndarray of a non-bool dtype. */
  predicate IsZeroDimLeaf(l: Index) {
    l.Array? && !l.boolDtype && l.ndim == 0
  }

  /** The first leaf that is a bool or raises decides; without one the answer is false. */
  function FirstVerdict(ls: seq<Index>): Option<bool> {
    if ls == [] then Some(false)
    else if IsBoolLeaf(ls[0]) then Some(true)
    else if IsZeroDimLeaf(ls[0]) then None
    else FirstVerdict(ls[1..])
  }

  lemma {:induction false} FirstVerdictConcat(a: seq<Index>, b: seq<Index>)
    ensures FirstVerdict(a + b) == if FirstVerdict(a) == Some(false) then FirstVerdict(b) else FirstVerdict(a)
  {
    if a == [] {
      assert a + b == b;
    } else {
      assert (a + b)[0] == a[0];
      assert (a + b)[1..] == a[1..] + b;
      FirstVerdictConcat(a[1..], b);
    }
  }

  /** `includes_bool` answers what the first deciding leaf says. */
  lemma {:induction false} IncludesBoolIsFirstVerdict(e: Index)
    ensures IncludesBool(e) == FirstVerdict(Leaves(e))
    decreases e, 1
  {
    match e
    case PyList(es) => AnyIncludesBoolIsFirstVerdict(es);
    case PyTuple(es) => AnyIncludesBoolIsFirstVerdict(es);
    case _ =>
      assert Leaves(e) == [e];
      assert FirstVerdict([e][1..]) == Some(false);
  }

  lemma {:induction false} AnyIncludesBoolIsFirstVerdict(es: seq<Index>)
    ensures AnyIncludesBool(es) == FirstVerdict(LeavesOf(es))
    decreases es, 0
  {
    if es != [] {
      IncludesBoolIsFirstVerdict(es[0]);
      AnyIncludesBoolIsFirstVerdict(es[1..]);
      FirstVerdictConcat(Leaves(es[0]), LeavesOf(es[1..]));
    }
  }

  /** The first verdict is true exactly when a bool leaf comes before any 0-d array. */
  lemma {:induction false} FirstVerdictTrue(ls: seq<Index>)
    ensures FirstVerdict(ls) == Some(true) <==>
      exists i :: 0 <= i < |ls| && IsBoolLeaf(ls[i]) && forall j :: 0 <= j < i ==> !IsZeroDimLeaf(ls[j])
  {
    if ls != [] {
      FirstVerdictTrue(ls[1..]);
      if !IsBoolLeaf(ls[0]) && !IsZeroDimLeaf(ls[0]) {
        if FirstVerdict(ls) == Some(true) {
          var i :| 0 <= i < |ls[1..]| && IsBoolLeaf(ls[1..][i]) && forall j :: 0 <= j < i ==> !IsZeroDimLeaf(ls[1..][j]);
          assert IsBoolLeaf(ls[i + 1]) && forall j :: 0 <= j < i + 1 ==> !IsZeroDimLeaf(ls[j]);
        }
        if exists i :: 0 <= i < |ls| && IsBoolLeaf(ls[i]) && forall j :: 0 <= j < i ==> !IsZeroDimLeaf(ls[j]) {
          var i :| 0 <= i < |ls| && IsBoolLeaf(ls[i]) && forall j :: 0 <= j < i ==> !IsZeroDimLeaf(ls[j]);
          assert i > 0;
          assert IsBoolLeaf(ls[1..][i - 1]) && forall j :: 0 <= j < i - 1 ==> !IsZeroDimLeaf(ls[1..][j]);
        }
      }
    }
  }

  /** The first verdict is "raises" exactly when a 0-d array comes before any bool leaf. */
  lemma {:induction false} FirstVerdictRaises(ls: seq<Index>)
    ensures FirstVerdict(ls).None? <==>
      exists i :: 0 <= i < |ls| && IsZeroDimLeaf(ls[i]) && forall j :: 0 <= j < i ==> !IsBoolLeaf(ls[j])
  {
    if ls != [] {
      FirstVerdictRaises(ls[1..]);
      if !IsBoolLeaf(ls[0]) && !IsZeroDimLeaf(ls[0]) {
        if FirstVerdict(ls).None? {
          var i :| 0 <= i < |ls[1..]| && IsZeroDimLeaf(ls[1..][i]) && forall j :: 0 <= j < i ==> !IsBoolLeaf(ls[1..][j]);
          assert IsZeroDimLeaf(ls[i + 1]) && forall j :: 0 <= j < i + 1 ==> !IsBoolLeaf(ls[j]);
        }
        if exists i :: 0 <= i < |ls| && IsZeroDimLeaf(ls[i]) && forall j :: 0 <= j < i ==> !IsBoolLeaf(ls[j]) {
          var i :| 0 <= i < |ls| && IsZeroDimLeaf(ls[i]) && forall j :: 0 <= j < i ==> !IsBoolLeaf(ls[j]);
          assert i > 0;
          assert IsZeroDimLeaf(ls[1..][i - 1]) && forall j :: 0 <= j < i - 1 ==> !IsBoolLeaf(ls[1..][j]);
        }
      }
    }
  }

  /**
   * A bool at any depth of nested lists and tuples is found, unless a 0-d array
   * comes first, which makes `includes_bool` raise instead; and nothing but a bool
   * makes it answer true.
   */
  lemma BoolFoundAtAnyDepth(e: Index)
    ensures IncludesBool(e) == Some(true) <==>
      exists i :: 0 <= i < |Leaves(e)| && IsBoolLeaf(Leaves(e)[i]) &&
        forall j :: 0 <= j < i ==> !IsZeroDimLeaf(Leaves(e)[j])
    ensures IncludesBool(e).None? <==>
      exists i :: 0 <= i < |Leaves(e)| && IsZeroDimLeaf(Leaves(e)[i]) &&
        forall j :: 0 <= j < i ==> !IsBoolLeaf(Leaves(e)[j])
  {
    IncludesBoolIsFirstVerdict(e);
    FirstVerdictTrue(Leaves(e));
    FirstVerdictRaises(Leaves(e));
  }

  // ---------------------------------------------------------------------------
  // Normalisation of one entry (aesara/tensor/var.py:509-524).

  /** The nested `is_empty_array`: an empty list or tuple, or a zero-size ndarray. */
  predicate IsEmptyArray(e: Index) {
    ((e.PyList? || e.PyTuple?) && |e.elems| == 0) || (e.Array? && e.size == 0)
  }

  /** The entries left after normalisation: None, slices of such entries, and variables. */
  predicate IsNormal(e: Index) {
    match e
    case PyNone => true
    case Slice(a, b, c) => IsNormal(a) && IsNormal(b) && IsNormal(c)
    case Symbolic(_, _, _) => true
    case Constant(_) => true
    case _ => false
  }

  /**
   * Stand-in for `aet.subtensor.as_index_constant`, which is not part of this
   * model: None stays None, a slice is converted member by member, a variable is
   * left untouched and any other literal becomes a graph constant.
   */
  function AsIndexConstant(e: Index): (r: Index)
    ensures IsNormal(r)
    ensures r == PyNone <==> e == PyNone
    ensures IsNormal(e) ==> r == e
  {
    match e
    case PyNone => PyNone
    case Slice(a, b, c) => Slice(AsIndexConstant(a), AsIndexConstant(b), AsIndexConstant(c))
    case Symbolic(_, _, _) => e
    case Constant(_) => e
    case _ => Constant(e)
  }

  /**
   * One element of the list comprehension at aesara/tensor/var.py:516-524: an
   * empty sequence or zero-size array is rebuilt as an int64 array of that shape
   * (`np.array((), dtype=np.int64)` has rank 1), and the result goes through
   * `as_index_constant`.
   */
  function Normalize(e: Index): (r: Index)
    ensures IsNormal(r)
    ensures r == PyNone <==> e == PyNone
    ensures IsEmptyArray(e) ==> r == Constant(Array(false, if e.Array? then e.ndim else 1, 0))
    ensures IsNormal(e) ==> r == e
  {
    AsIndexConstant(if IsEmptyArray(e) then Array(false, if e.Array? then e.ndim else 1, 0) else e)
  }

  /** After normalisation `includes_bool` never raises: it tests the dtype alone. */
  lemma NormalIncludesBool(e: Index)
    requires IsNormal(e)
    ensures IncludesBool(e) == Some(HasBoolDtype(e))
  {
  }
}
