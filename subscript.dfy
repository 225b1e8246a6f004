/**
 * `_tensor_py_operators.__getitem__` (aesara/tensor/var.py:444-590): the pass that
 * turns a NumPy-style index into an advanced-indexing node, a basic `Subtensor`
 * node, or a `DimShuffle` view (returned directly or re-indexed once).
 *
 * The graph operations it builds are not part of this model; they appear as the
 * constructors of `Node`. `Subtensor.convert` is the parameter `convertible`: true
 * where it succeeds, false where it raises AdvancedIndexingError.
 */
module Subscript {
  import opened Wrappers
  import opened Indices

  /** An entry of a DimShuffle pattern: `'x'` (a new broadcastable axis) or an input axis. */
  datatype Axis = Broadcast | Keep(axis: nat)

  datatype Node =
    | Var(name: string)                                        // the variable being indexed
    | AdvancedSubtensor(base: Node, indices: seq<Index>)       // aet.subtensor.advanced_subtensor(self, *args)
    | Subtensor(idxList: seq<Index>, base: Node, inputs: seq<Index>) // Subtensor(args)(self, *collapse(...))
    | DimShuffle(base: Node, pattern: seq<Axis>)               // self.dimshuffle(pattern)

  datatype Error =
    | PythonBoolIndex   // TypeError: "TensorType does not support Python bools for indexing"
    | ZeroDimIteration  // TypeError raised inside includes_bool: iteration over a 0-d array
    | TooManyIndices    // IndexError: "too many indices for array"
    | MultipleEllipsis  // IndexError: "an index can only have a single Ellipsis"

  datatype Result<T> = Ok(value: T) | Fail(error: Error)

  // ---------------------------------------------------------------------------
  // Wrapping and counting (aesara/tensor/var.py:456-496)

  /** A list holding a slice is already the entry sequence; any other non-tuple is one entry. */
  function Wrap(args: Index): seq<Index> {
    if args.PyList? && exists k :: 0 <= k < |args.elems| && args.elems[k].Slice? then args.elems
    else if args.PyTuple? then args.elems
    else [args]
  }

  /** Dimensions one entry consumes: none for newaxis and Ellipsis, the rank of a bool mask, else one. */
  function Consumes(e: Index): nat {
    if e == PyNone || e == Ellipsis then 0
    else if IsBoolMask(e) then NDim(e)
    else 1
  }

  /** `index_dim_count` after the counting loop has seen all of `s`. */
  function TotalDims(s: seq<Index>): nat {
    if s == [] then 0 else TotalDims(s[..|s| - 1]) + Consumes(s[|s| - 1])
  }

  /** The `ellipses` list: the positions of `Ellipsis`, in increasing order. */
  function EllipsisPositions(s: seq<Index>): (r: seq<nat>)
    ensures forall k :: 0 <= k < |r| ==> r[k] < |s| && s[r[k]] == Ellipsis
  {
    if s == [] then []
    else EllipsisPositions(s[..|s| - 1]) + (if s[|s| - 1] == Ellipsis then [|s| - 1] else [])
  }

  lemma {:induction false} NoEllipsisNoPositions(s: seq<Index>)
    requires forall i :: 0 <= i < |s| ==> s[i] != Ellipsis
    ensures EllipsisPositions(s) == []
  {
    if s != [] {
      var t := s[..|s| - 1];
      assert forall i :: 0 <= i < |t| ==> t[i] == s[i];
      NoEllipsisNoPositions(t);
    }
  }

  /** Every Ellipsis is recorded, and the positions increase. */
  lemma {:induction false} EllipsisPositionsComplete(s: seq<Index>)
    ensures forall i :: 0 <= i < |s| && s[i] == Ellipsis ==> i in EllipsisPositions(s)
    ensures forall k, l :: 0 <= k < l < |EllipsisPositions(s)| ==>
      EllipsisPositions(s)[k] < EllipsisPositions(s)[l]
  {
    if s != [] {
      var t := s[..|s| - 1];
      EllipsisPositionsComplete(t);
      forall i | 0 <= i < |s| && s[i] == Ellipsis
        ensures i in EllipsisPositions(s)
      {
        if i < |t| {
          assert t[i] == s[i];
        }
      }
    }
  }

  /** The TypeError the counting loop raises at one entry, if any (aesara/tensor/var.py:479-492). */
  function EntryError(e: Index): Option<Error> {
    if e == PyNone || e == Ellipsis || IsBoolMask(e) then None
    else match IncludesBool(e)
      case Some(true) => Some(PythonBoolIndex)
      case None => Some(ZeroDimIteration)
      case Some(false) => None
  }

  /** The error of the first entry that raises one. */
  function CountError(s: seq<Index>): Option<Error> {
    if s == [] then None
    else if EntryError(s[0]).Some? then EntryError(s[0])
    else CountError(s[1..])
  }

  /** The counting loop (aesara/tensor/var.py:462-492). */
  method CountDims(args: seq<Index>) returns (ellipses: seq<nat>, indexDimCount: nat, err: Option<Error>)
    ensures err == CountError(args)
    ensures err.None? ==> ellipses == EllipsisPositions(args) && indexDimCount == TotalDims(args)
  {
    ellipses, indexDimCount, err := [], 0, None;
    var i := 0;
    while i < |args|
      invariant 0 <= i <= |args|
      invariant CountError(args) == CountError(args[i..])
      invariant ellipses == EllipsisPositions(args[..i])
      invariant indexDimCount == TotalDims(args[..i])
    {
      var arg := args[i];
      assert args[..i + 1][..i] == args[..i];
      assert args[i..][1..] == args[i + 1..];
      if arg == PyNone {
        // no increase in the count
      } else if arg == Ellipsis {
        ellipses := ellipses + [i];
      } else if IsBoolMask(arg) {
        indexDimCount := indexDimCount + NDim(arg);
      } else {
        var found := IncludesBool(arg);
        if found == Some(true) {
          err := Some(PythonBoolIndex);
          return;
        } else if found.None? {
          err := Some(ZeroDimIteration);
          return;
        }
        indexDimCount := indexDimCount + 1;
      }
      i := i + 1;
    }
    assert args[..i] == args;
  }

  /** The counting loop raises exactly when some entry does, and then the first one's error. */
  lemma {:induction false} CountErrorIsFirst(s: seq<Index>)
    ensures CountError(s).None? <==> forall i :: 0 <= i < |s| ==> EntryError(s[i]).None?
    ensures CountError(s).Some? ==>
      exists i :: 0 <= i < |s| && CountError(s) == EntryError(s[i]) &&
        forall j :: 0 <= j < i ==> EntryError(s[j]).None?
  {
    if s != [] {
      CountErrorIsFirst(s[1..]);
      if EntryError(s[0]).None? {
        if CountError(s).Some? {
          var i :| 0 <= i < |s[1..]| && CountError(s[1..]) == EntryError(s[1..][i]) &&
            forall j :: 0 <= j < i ==> EntryError(s[1..][j]).None?;
          assert CountError(s) == EntryError(s[i + 1]);
          assert forall j :: 0 <= j < i + 1 ==> EntryError(s[j]).None? by {
            forall j | 0 <= j < i + 1 ensures EntryError(s[j]).None? {
              if j > 0 { assert s[j] == s[1..][j - 1]; }
            }
          }
        }
        if forall i :: 0 <= i < |s| ==> EntryError(s[i]).None? {
          assert forall i :: 0 <= i < |s[1..]| ==> EntryError(s[1..][i]).None? by {
            forall i | 0 <= i < |s[1..]| ensures EntryError(s[1..][i]).None? {
              assert s[1..][i] == s[i + 1];
            }
          }
        }
      }
    }
  }

  /**
   * A Python or NumPy bool inside an entry that is not a bool mask, at any depth of
   * nested lists and tuples, is rejected with a TypeError; an entry that is a bool
   * mask never is.
   */
  lemma PythonBoolsRejected(e: Index)
    ensures IsBoolMask(e) ==> EntryError(e).None?
    ensures e != PyNone && e != Ellipsis && !IsBoolMask(e) ==>
      (EntryError(e) == Some(PythonBoolIndex) <==>
        exists i :: 0 <= i < |Leaves(e)| && IsBoolLeaf(Leaves(e)[i]) &&
          forall j :: 0 <= j < i ==> !IsZeroDimLeaf(Leaves(e)[j]))
  {
    BoolFoundAtAnyDepth(e);
  }

  lemma {:induction false} TotalDimsConcat(a: seq<Index>, b: seq<Index>)
    ensures TotalDims(a + b) == TotalDims(a) + TotalDims(b)
    decreases |b|
  {
    if b == [] {
      assert a + b == a;
    } else {
      assert (a + b)[..|a + b| - 1] == a + b[..|b| - 1];
      TotalDimsConcat(a, b[..|b| - 1]);
    }
  }

  lemma {:induction false} TotalDimsOfSingles(s: seq<Index>)
    requires forall i :: 0 <= i < |s| ==> Consumes(s[i]) == 1
    ensures TotalDims(s) == |s|
  {
    if s != [] {
      TotalDimsOfSingles(s[..|s| - 1]);
    }
  }

  // ---------------------------------------------------------------------------
  // Ellipsis expansion (aesara/tensor/var.py:500-507)

  /** `[slice(None)] * k` */
  function FullSlices(k: nat): (r: seq<Index>)
    ensures |r| == k && forall i :: 0 <= i < k ==> r[i] == FullSlice
  {
    seq(k, _ => FullSlice)
  }

  /** `args[at : at + 1] = [slice(None)] * k` */
  function Splice(s: seq<Index>, at: nat, k: nat): seq<Index>
    requires at < |s|
  {
    s[..at] + FullSlices(k) + s[at + 1..]
  }

  /**
   * A single Ellipsis is replaced by as many full slices as the index leaves
   * unconsumed: afterwards the entries consume exactly `ndim` dimensions, no
   * Ellipsis is left, and the entries before and after it keep their order.
   */
  lemma EllipsisExpansion(s: seq<Index>, ndim: nat)
    requires |EllipsisPositions(s)| == 1 && TotalDims(s) <= ndim
    ensures var at := EllipsisPositions(s)[0];
      var k := ndim - TotalDims(s);
      var e := Splice(s, at, k);
      && |e| == |s| - 1 + k
      && TotalDims(e) == ndim
      && Ellipsis !in e
      && e[..at] == s[..at]
      && (forall i :: at <= i < at + k ==> e[i] == FullSlice)
      && e[at + k..] == s[at + 1..]
  {
    var at := EllipsisPositions(s)[0];
    var k := ndim - TotalDims(s);
    SpliceTotalDims(s, at, k);
    SingleEllipsis(s);
    SpliceRemovesEllipsis(s, at, k);
    SpliceParts(s, at, k);
  }

  /** With one recorded position, no other entry is an Ellipsis. */
  lemma SingleEllipsis(s: seq<Index>)
    requires |EllipsisPositions(s)| == 1
    ensures forall i :: 0 <= i < |s| && i != EllipsisPositions(s)[0] ==> s[i] != Ellipsis
  {
    EllipsisPositionsComplete(s);
  }

  lemma SpliceRemovesEllipsis(s: seq<Index>, at: nat, k: nat)
    requires at < |s| && forall i :: 0 <= i < |s| && i != at ==> s[i] != Ellipsis
    ensures Ellipsis !in Splice(s, at, k)
  {
    var e := Splice(s, at, k);
    forall i | 0 <= i < |e|
      ensures e[i] != Ellipsis
    {
      SpliceAt(s, at, k, i);
    }
  }

  lemma SpliceParts(s: seq<Index>, at: nat, k: nat)
    requires at < |s|
    ensures var e := Splice(s, at, k);
      && |e| == |s| - 1 + k
      && e[..at] == s[..at]
      && (forall i :: at <= i < at + k ==> e[i] == FullSlice)
      && e[at + k..] == s[at + 1..]
  {
  }

  /** Replacing an entry that consumes nothing by `k` full slices adds `k` dimensions. */
  lemma SpliceTotalDims(s: seq<Index>, at: nat, k: nat)
    requires at < |s| && Consumes(s[at]) == 0
    ensures TotalDims(Splice(s, at, k)) == TotalDims(s) + k
  {
    assert s == s[..at] + [s[at]] + s[at + 1..];
    TotalDimsConcat(s[..at] + [s[at]], s[at + 1..]);
    TotalDimsConcat(s[..at], [s[at]]);
    assert TotalDims([s[at]]) == 0 by { assert [s[at]][..0] == []; }
    TotalDimsConcat(s[..at] + FullSlices(k), s[at + 1..]);
    TotalDimsConcat(s[..at], FullSlices(k));
    TotalDimsOfSingles(FullSlices(k));
  }


  /** The entries after normalisation (aesara/tensor/var.py:516-524). */
  function NormalizeAll(s: seq<Index>): (r: seq<Index>)
    ensures |r| == |s| && forall i :: 0 <= i < |r| ==> IsNormal(r[i])
  {
    seq(|s|, i requires 0 <= i < |s| => Normalize(s[i]))
  }

  // ---------------------------------------------------------------------------
  // Classification (aesara/tensor/var.py:530-543)

  /** An entry that forces advanced indexing: it includes a bool, or is not None and fails `convert`. */
  predicate ForcesAdvanced(e: Index, convertible: Index -> bool) {
    IncludesBool(e) == Some(true) || (e != PyNone && !convertible(e))
  }

  predicate NeedsAdvanced(s: seq<Index>, convertible: Index -> bool) {
    exists i :: 0 <= i < |s| && ForcesAdvanced(s[i], convertible)
  }

  /**
   * The classification scan with its asymmetric `break`s: a bool stops it at once,
   * a first `convert` failure sets the flag and continues, a second one stops it.
   * The `break`s only shorten the scan: the verdict is the plain existence test.
   */
  method Classify(args: seq<Index>, convertible: Index -> bool) returns (advanced: bool)
    requires forall i :: 0 <= i < |args| ==> IsNormal(args[i])
    ensures advanced == NeedsAdvanced(args, convertible)
  {
    advanced := false;
    var i := 0;
    while i < |args|
      invariant 0 <= i <= |args|
      invariant advanced <==> exists j :: 0 <= j < i && ForcesAdvanced(args[j], convertible)
    {
      var arg := args[i];
      if IncludesBool(arg) == Some(true) {
        advanced := true;
        break;
      }
      if arg != PyNone {
        if !convertible(arg) {
          if advanced {
            break;
          } else {
            advanced := true;
          }
        }
      }
      i := i + 1;
    }
  }

  // ---------------------------------------------------------------------------
  // The new-axis branch (aesara/tensor/var.py:548-583)

  /** How many entries of `s` are not None: the final `counter`. */
  function KeptCount(s: seq<Index>): nat {
    if s == [] then 0 else KeptCount(s[..|s| - 1]) + (if s[|s| - 1] == PyNone then 0 else 1)
  }

  /** The `pattern` entry for position `i`: `'x'` at a None, otherwise the running counter. */
  function AxisAt(s: seq<Index>, i: nat): Axis
    requires i < |s|
  {
    if s[i] == PyNone then Broadcast else Keep(KeptCount(s[..i]))
  }

  /** `pattern` */
  function AxisPattern(s: seq<Index>): seq<Axis> {
    seq(|s|, i requires 0 <= i < |s| => AxisAt(s, i))
  }

  /** The `new_args` entry for position `i`: a None becomes `slice(None, None, None)`. */
  function NewArgAt(s: seq<Index>, i: nat): Index
    requires i < |s|
  {
    if s[i] == PyNone then FullSlice else s[i]
  }

  /** `new_args` */
  function WithoutNewAxes(s: seq<Index>): seq<Index> {
    seq(|s|, i requires 0 <= i < |s| => NewArgAt(s, i))
  }

  predicate AllFullSlices(s: seq<Index>) {
    forall i :: 0 <= i < |s| ==> s[i] == FullSlice
  }

  /** The loops building `pattern` and `new_args`, then the `full_slices` test. */
  method InsertAxes(args: seq<Index>) returns (pattern: seq<Axis>, newArgs: seq<Index>, fullSlices: bool)
    ensures pattern == AxisPattern(args)
    ensures newArgs == WithoutNewAxes(args)
    ensures fullSlices <==> AllFullSlices(newArgs)
  {
    var counter := 0;
    pattern, newArgs := [], [];
    var i := 0;
    while i < |args|
      invariant 0 <= i <= |args|
      invariant counter == KeptCount(args[..i])
      invariant |pattern| == i && |newArgs| == i
      invariant forall j :: 0 <= j < i ==> pattern[j] == AxisAt(args, j)
      invariant forall j :: 0 <= j < i ==> newArgs[j] == NewArgAt(args, j)
    {
      assert args[..i + 1][..i] == args[..i];
      var arg := args[i];
      if arg == PyNone {
        pattern := pattern + [Broadcast];
        newArgs := newArgs + [FullSlice];
      } else {
        pattern := pattern + [Keep(counter)];
        counter := counter + 1;
        newArgs := newArgs + [arg];
      }
      i := i + 1;
    }
    assert pattern == AxisPattern(args);
    assert newArgs == WithoutNewAxes(args);
    fullSlices := true;
    var j := 0;
    while j < |newArgs|
      invariant 0 <= j <= |newArgs|
      invariant fullSlices <==> forall k :: 0 <= k < j ==> newArgs[k] == FullSlice
    {
      var arg := newArgs[j];
      if !(arg.Slice? && arg.start == PyNone && arg.stop == PyNone && arg.step == PyNone) {
        fullSlices := false;
      }
      j := j + 1;
    }
  }

  lemma {:induction false} KeptCountPrefix(s: seq<Index>, i: nat, j: nat)
    requires i <= j <= |s|
    ensures KeptCount(s[..i]) <= KeptCount(s[..j])
    ensures j < |s| && s[j] != PyNone ==> KeptCount(s[..i]) < KeptCount(s[..j + 1])
    decreases j - i
  {
    if j < |s| {
      assert s[..j + 1][..j] == s[..j];
    }
    if i < j {
      KeptCountPrefix(s, i, j - 1);
      assert s[..j][..j - 1] == s[..j - 1];
    }
  }

  /** Every counter below the final one is taken by some entry. */
  lemma {:induction false} KeptCountReached(s: seq<Index>, k: nat)
    requires k < KeptCount(s)
    ensures exists i :: 0 <= i < |s| && s[i] != PyNone && KeptCount(s[..i]) == k
  {
    var t := s[..|s| - 1];
    assert s[..|s| - 1] == t;
    if k < KeptCount(t) {
      KeptCountReached(t, k);
      var i :| 0 <= i < |t| && t[i] != PyNone && KeptCount(t[..i]) == k;
      assert s[i] == t[i] && s[..i] == t[..i];
    } else {
      assert s[|s| - 1] != PyNone && KeptCount(s[..|s| - 1]) == k;
    }
  }

  /**
   * The shape of the new-axis pass: `pattern` and `new_args` are as long as the
   * entries; each None becomes `'x'` and a full slice; the other entries keep their
   * place; no None is left.
   */
  lemma NewAxisPass(s: seq<Index>)
    ensures |AxisPattern(s)| == |s| && |WithoutNewAxes(s)| == |s|
    ensures forall i :: 0 <= i < |s| && s[i] == PyNone ==>
      AxisPattern(s)[i] == Broadcast && WithoutNewAxes(s)[i] == FullSlice
    ensures forall i :: 0 <= i < |s| && s[i] != PyNone ==>
      AxisPattern(s)[i].Keep? && WithoutNewAxes(s)[i] == s[i]
    ensures PyNone !in WithoutNewAxes(s)
  {
    var w := WithoutNewAxes(s);
    forall i | 0 <= i < |w|
      ensures w[i] != PyNone
    {
      assert w[i] == NewArgAt(s, i);
    }
  }

  /**
   * The counters of the kept entries are 0, 1, ... in order: increasing along the
   * entries, below the final counter, and each one taken.
   */
  lemma KeptAxesConsecutive(s: seq<Index>)
    ensures forall i :: 0 <= i < |s| && s[i] != PyNone ==> AxisPattern(s)[i].axis < KeptCount(s)
    ensures forall i, j :: 0 <= i < j < |s| && s[i] != PyNone && s[j] != PyNone ==>
      AxisPattern(s)[i].axis < AxisPattern(s)[j].axis
    ensures forall k :: 0 <= k < KeptCount(s) ==> Keep(k) in AxisPattern(s)
  {
    var p := AxisPattern(s);
    forall i | 0 <= i < |s| && s[i] != PyNone
      ensures p[i].axis < KeptCount(s)
    {
      assert p[i] == AxisAt(s, i);
      KeptCountPrefix(s, i, i);
      KeptCountPrefix(s, i + 1, |s|);
      assert s[..|s|] == s;
    }
    forall i, j | 0 <= i < j < |s| && s[i] != PyNone && s[j] != PyNone
      ensures p[i].axis < p[j].axis
    {
      assert p[i] == AxisAt(s, i) && p[j] == AxisAt(s, j);
      KeptCountPrefix(s, i, i);
      KeptCountPrefix(s, i + 1, j);
    }
    forall k | 0 <= k < KeptCount(s)
      ensures Keep(k) in p
    {
      KeptCountReached(s, k);
      var i :| 0 <= i < |s| && s[i] != PyNone && KeptCount(s[..i]) == k;
      assert p[i] == AxisAt(s, i) == Keep(k);
    }
  }

  // ---------------------------------------------------------------------------
  // Static and dynamic operands of a basic Subtensor (aesara/tensor/var.py:585-590)

  /**
   * What `Subtensor.collapse(args, lambda entry: isinstance(entry, Variable))`
   * yields for one entry: a variable itself; the members of a slice, flattened; for
   * anything else, nothing (it is static and stays in the node's index list).
   */
  function DynamicOf(e: Index): seq<Index> {
    if IsVariable(e) then [e]
    else match e
      case Slice(a, b, c) => DynamicOf(a) + DynamicOf(b) + DynamicOf(c)
      case _ => []
  }

  function DynamicOperands(s: seq<Index>): (r: seq<Index>)
    ensures forall i :: 0 <= i < |r| ==> IsVariable(r[i])
  {
    if s == [] then []
    else
      var head := DynamicOf(s[0]);
      DynamicOfVariables(s[0]);
      head + DynamicOperands(s[1..])
  }

  lemma {:induction false} DynamicOfVariables(e: Index)
    ensures forall i :: 0 <= i < |DynamicOf(e)| ==> IsVariable(DynamicOf(e)[i])
  {
    if !IsVariable(e) && e.Slice? {
      DynamicOfVariables(e.start);
      DynamicOfVariables(e.stop);
      DynamicOfVariables(e.step);
    }
  }

  /** An entry with no variable in it (nor in its slice members). */
  predicate IsStatic(e: Index) {
    !IsVariable(e) && (e.Slice? ==> IsStatic(e.start) && IsStatic(e.stop) && IsStatic(e.step))
  }

  lemma {:induction false} DynamicOfEmpty(e: Index)
    ensures DynamicOf(e) == [] <==> IsStatic(e)
  {
    if !IsVariable(e) && e.Slice? {
      DynamicOfEmpty(e.start);
      DynamicOfEmpty(e.stop);
      DynamicOfEmpty(e.step);
    }
  }

  /** A node gets no runtime operands exactly when its whole index is static. */
  lemma {:induction false} AllStaticIffNoOperands(s: seq<Index>)
    ensures DynamicOperands(s) == [] <==> forall i :: 0 <= i < |s| ==> IsStatic(s[i])
  {
    if s != [] {
      DynamicOfEmpty(s[0]);
      AllStaticIffNoOperands(s[1..]);
      assert forall i :: 1 <= i < |s| ==> s[i] == s[1..][i - 1];
    }
  }

  // ---------------------------------------------------------------------------
  // The whole pass

  /** Normalisation up to the call of `as_index_constant`: errors first, in the order the code raises them. */
  function Prepare(ndim: nat, args: Index): Result<seq<Index>> {
    var a := Wrap(args);
    var ellipses := EllipsisPositions(a);
    if CountError(a).Some? then Fail(CountError(a).value)
    else if ndim < TotalDims(a) then Fail(TooManyIndices)
    else if |ellipses| > 1 then Fail(MultipleEllipsis)
    else if |ellipses| == 1 then Ok(NormalizeAll(Splice(a, ellipses[0], ndim - TotalDims(a))))
    else Ok(NormalizeAll(a))
  }

  /**
   * The node built from normalised entries, with the single re-indexing of the
   * new-axis branch written out: the view's entries hold no None, so re-indexing
   * them gives an advanced node or a basic Subtensor on the view.
   */
  function Dispatch(x: Node, n: seq<Index>, convertible: Index -> bool): Node {
    if NeedsAdvanced(n, convertible) then AdvancedSubtensor(x, n)
    else if PyNone !in n then Subtensor(n, x, DynamicOperands(n))
    else
      var view := DimShuffle(x, AxisPattern(n));
      var rest := WithoutNewAxes(n);
      if AllFullSlices(rest) then view
      else if NeedsAdvanced(rest, convertible) then AdvancedSubtensor(view, rest)
      else Subtensor(rest, view, DynamicOperands(rest))
  }

  /** What indexing `x` of rank `ndim` with `args` yields. */
  function Indexed(x: Node, ndim: nat, args: Index, convertible: Index -> bool): Result<Node> {
    match Prepare(ndim, args)
    case Fail(err) => Fail(err)
    case Ok(n) => Ok(Dispatch(x, n, convertible))
  }

  /**
   * An Ellipsis stands for the full slices it expands to: indexing with it gives
   * what indexing with those slices written out gives.
   */
  lemma EllipsisMeansFullSlices(x: Node, ndim: nat, s: seq<Index>, convertible: Index -> bool)
    requires |EllipsisPositions(s)| == 1 && CountError(s).None? && TotalDims(s) <= ndim
    ensures var e := Splice(s, EllipsisPositions(s)[0], ndim - TotalDims(s));
      Indexed(x, ndim, PyTuple(s), convertible) == Indexed(x, ndim, PyTuple(e), convertible)
  {
    var at, k := EllipsisPositions(s)[0], ndim - TotalDims(s);
    var e := Splice(s, at, k);
    assert Prepare(ndim, PyTuple(s)) == Ok(NormalizeAll(e));
    assert CountError(e).None? && TotalDims(e) == ndim && EllipsisPositions(e) == [] by {
      EllipsisExpansion(s, ndim);
      NoEllipsisNoPositions(e);
      SpliceKeepsNoErrors(s, at, k);
    }
    assert Wrap(PyTuple(e)) == e;
  }

  lemma SpliceKeepsNoErrors(s: seq<Index>, at: nat, k: nat)
    requires at < |s| && CountError(s).None?
    ensures CountError(Splice(s, at, k)).None?
  {
    var e := Splice(s, at, k);
    CountErrorIsFirst(s);
    forall i | 0 <= i < |e|
      ensures EntryError(e[i]).None?
    {
      SpliceAt(s, at, k, i);
      NormalIncludesBool(FullSlice);
    }
    CountErrorIsFirst(e);
  }

  /** `x[..., ...]` on a matrix */
  lemma TwoEllipsesRejected(x: Node, convertible: Index -> bool)
    ensures Indexed(x, 2, PyTuple([Ellipsis, Ellipsis]), convertible) == Fail(MultipleEllipsis)
  {
    var s := [Ellipsis, Ellipsis];
    assert s[..1] == [Ellipsis] && [Ellipsis][..0] == [];
  }

  /**
   * Any index with two Ellipsis entries, once counting has raised nothing and the
   * rank check has passed, raises the single-Ellipsis error.
   */
  lemma MultipleEllipsesRejected(x: Node, ndim: nat, s: seq<Index>, convertible: Index -> bool, i: nat, j: nat)
    requires i < j < |s| && s[i] == Ellipsis && s[j] == Ellipsis
    requires CountError(s).None? && TotalDims(s) <= ndim
    ensures Indexed(x, ndim, PyTuple(s), convertible) == Fail(MultipleEllipsis)
  {
    assert Wrap(PyTuple(s)) == s;
    TwoEllipsesRecorded(s, i, j);
  }

  lemma TwoEllipsesRecorded(s: seq<Index>, i: nat, j: nat)
    requires i < j < |s| && s[i] == Ellipsis && s[j] == Ellipsis
    ensures |EllipsisPositions(s)| > 1
  {
    EllipsisPositionsComplete(s);
    var r := EllipsisPositions(s);
    var k :| 0 <= k < |r| && r[k] == i;
    var l :| 0 <= l < |r| && r[l] == j;
    assert k != l;
  }

  /** `x[0, 0, 0]` on a matrix, and any index of more integers than the tensor has dimensions. */
  lemma TooManyIntegers(x: Node, ndim: nat, s: seq<Index>, convertible: Index -> bool)
    requires forall i :: 0 <= i < |s| ==> s[i].Int?
    requires ndim < |s|
    ensures Indexed(x, ndim, PyTuple(s), convertible) == Fail(TooManyIndices)
  {
    assert Wrap(PyTuple(s)) == s;
    assert forall i :: 0 <= i < |s| ==> EntryError(s[i]).None? && Consumes(s[i]) == 1;
    CountErrorIsFirst(s);
    TotalDimsOfSingles(s);
  }

  /** `x[[True, False]]`: a Python list of bools, with no slice in it, is one entry and is rejected. */
  lemma PythonBoolListRejected(x: Node, convertible: Index -> bool)
    ensures Indexed(x, 1, PyList([PyBool(true), PyBool(false)]), convertible) == Fail(PythonBoolIndex)
  {
    var e := PyList([PyBool(true), PyBool(false)]);
    assert Wrap(e) == [e];
    assert IncludesBool(e) == Some(true);
  }

  /**
   * `x[None, :, :]` on a matrix, and every index made only of None and one full
   * slice per dimension with at least one None: the fast path returns the
   * DimShuffle view itself.
   */
  lemma NewAxesOverFullSlices(x: Node, ndim: nat, s: seq<Index>, convertible: Index -> bool)
    requires forall i :: 0 <= i < |s| ==> s[i] == PyNone || s[i] == FullSlice
    requires PyNone in s && KeptCount(s) == ndim && convertible(FullSlice)
    ensures Indexed(x, ndim, PyTuple(s), convertible) == Ok(DimShuffle(x, AxisPattern(s)))
  {
    NoneOrFullPrepared(ndim, s);
    NoneOrFullDispatch(x, s, convertible);
  }

  lemma NoneOrFullDispatch(x: Node, s: seq<Index>, convertible: Index -> bool)
    requires forall i :: 0 <= i < |s| ==> s[i] == PyNone || s[i] == FullSlice
    requires PyNone in s && convertible(FullSlice)
    ensures Dispatch(x, s, convertible) == DimShuffle(x, AxisPattern(s))
  {
    assert !NeedsAdvanced(s, convertible) by {
      NormalIncludesBool(FullSlice);
    }
    assert AllFullSlices(WithoutNewAxes(s)) by {
      assert forall i :: 0 <= i < |s| ==> NewArgAt(s, i) == FullSlice;
    }
  }

  lemma NoneOrFullPrepared(ndim: nat, s: seq<Index>)
    requires forall i :: 0 <= i < |s| ==> s[i] == PyNone || s[i] == FullSlice
    requires KeptCount(s) == ndim
    ensures Prepare(ndim, PyTuple(s)) == Ok(s)
  {
    assert Wrap(PyTuple(s)) == s;
    assert CountError(s).None? by {
      NormalIncludesBool(FullSlice);
      CountErrorIsFirst(s);
    }
    TotalDimsNoneOrFull(s);
    NoEllipsisNoPositions(s);
    assert NormalizeAll(s) == s;
  }

  lemma {:induction false} TotalDimsNoneOrFull(s: seq<Index>)
    requires forall i :: 0 <= i < |s| ==> s[i] == PyNone || s[i] == FullSlice
    ensures TotalDims(s) == KeptCount(s)
  {
    if s != [] {
      TotalDimsNoneOrFull(s[..|s| - 1]);
    }
  }



  /**
   * Re-indexing the DimShuffle view with `new_args` raises nothing and adds no
   * further axes: the view's rank is the number of entries, every entry consumes one
   * dimension, and none is None or an Ellipsis.
   */
  lemma ReindexView(view: Node, n: seq<Index>, convertible: Index -> bool)
    requires forall i :: 0 <= i < |n| ==> IsNormal(n[i])
    requires !NeedsAdvanced(n, convertible)
    ensures var rest := WithoutNewAxes(n);
      Indexed(view, |n|, PyTuple(rest), convertible) ==
        Ok(if NeedsAdvanced(rest, convertible) then AdvancedSubtensor(view, rest)
           else Subtensor(rest, view, DynamicOperands(rest)))
  {
    var rest := WithoutNewAxes(n);
    NewAxisPass(n);
    forall i | 0 <= i < |rest|
      ensures EntryError(rest[i]).None? && Consumes(rest[i]) == 1 && IsNormal(rest[i]) && rest[i] != Ellipsis
    {
      if n[i] != PyNone {
        assert !ForcesAdvanced(n[i], convertible);
        NormalIncludesBool(n[i]);
      }
    }
    assert Wrap(PyTuple(rest)) == rest;
    CountErrorIsFirst(rest);
    TotalDimsOfSingles(rest);
    NoEllipsisNoPositions(rest);
    assert NormalizeAll(rest) == rest;
  }

  /** The result of the re-indexing in the new-axis branch is what `Dispatch` says. */
  lemma ReindexNewAxisView(x: Node, n: seq<Index>, convertible: Index -> bool)
    requires forall i :: 0 <= i < |n| ==> IsNormal(n[i])
    requires !NeedsAdvanced(n, convertible) && PyNone in n
    requires !AllFullSlices(WithoutNewAxes(n))
    ensures Indexed(DimShuffle(x, AxisPattern(n)), |AxisPattern(n)|, PyTuple(WithoutNewAxes(n)), convertible)
      == Ok(Dispatch(x, n, convertible))
    ensures PyNone !in Wrap(PyTuple(WithoutNewAxes(n)))
  {
    NewAxisPass(n);
    ReindexView(DimShuffle(x, AxisPattern(n)), n, convertible);
  }

  /** A None left after normalisation was a None of the caller's index. */
  lemma NewAxisComesFromInput(args: Index, ndim: nat)
    requires Prepare(ndim, args).Ok?
    requires PyNone in Prepare(ndim, args).value
    ensures PyNone in Wrap(args)
  {
    var a := Wrap(args);
    var ellipses := EllipsisPositions(a);
    if |ellipses| == 1 {
      var e := Splice(a, ellipses[0], ndim - TotalDims(a));
      assert Prepare(ndim, args).value == NormalizeAll(e);
      NormalizeKeepsNone(e);
      SpliceKeepsNone(a, ellipses[0], ndim - TotalDims(a));
    } else {
      assert Prepare(ndim, args).value == NormalizeAll(a);
      NormalizeKeepsNone(a);
    }
  }

  lemma NormalizeKeepsNone(s: seq<Index>)
    ensures PyNone in NormalizeAll(s) ==> PyNone in s
  {
    if PyNone !in s {
      forall i | 0 <= i < |s|
        ensures NormalizeAll(s)[i] != PyNone
      {
        assert s[i] != PyNone;
      }
    }
  }

  /** Entry `i` after the splice. */
  lemma SpliceAt(s: seq<Index>, at: nat, k: nat, i: nat)
    requires at < |s| && i < |Splice(s, at, k)|
    ensures Splice(s, at, k)[i] == if i < at then s[i] else if i < at + k then FullSlice else s[i - k + 1]
  {
  }

  lemma SpliceKeepsNone(s: seq<Index>, at: nat, k: nat)
    requires at < |s|
    ensures PyNone in Splice(s, at, k) ==> PyNone in s
  {
    var e := Splice(s, at, k);
    if PyNone !in s {
      forall i | 0 <= i < |e|
        ensures e[i] != PyNone
      {
        SpliceAt(s, at, k, i);
      }
    }
  }

  /**
   * `__getitem__` (aesara/tensor/var.py:444-590): the entries are counted and
   * normalised by `CountAndExpand`, then classified and dispatched by
   * `GetItemNormalized`.
   */
  method GetItem(x: Node, ndim: nat, args: Index, convertible: Index -> bool) returns (r: Result<Node>)
    ensures r == Indexed(x, ndim, args, convertible)
    decreases if PyNone in Wrap(args) then 1 else 0, 1
  {
    var prepared := CountAndExpand(ndim, args);
    if prepared.Fail? {
      return Fail(prepared.error);
    }
    var n := prepared.value;
    if PyNone in n {
      NewAxisComesFromInput(args, ndim);
    }
    var node := GetItemNormalized(x, n, convertible);
    r := Ok(node);
  }

  /**
   * The first half of `__getitem__` (aesara/tensor/var.py:444-524): the entries
   * are counted, the errors raised, a single Ellipsis expanded into full slices and
   * every entry normalised.
   */
  method CountAndExpand(ndim: nat, args: Index) returns (r: Result<seq<Index>>)
    ensures r == Prepare(ndim, args)
  {
    var a := Wrap(args);
    var ellipses, indexDimCount, err := CountDims(a);
    if err.Some? {
      return Fail(err.value);
    }
    if ndim < indexDimCount {
      return Fail(TooManyIndices);
    }
    if |ellipses| > 1 {
      return Fail(MultipleEllipsis);
    } else if |ellipses| == 1 {
      a := Splice(a, ellipses[0], ndim - indexDimCount);
    }
    r := Ok(NormalizeAll(a));
  }

  /**
   * The rest of `__getitem__` (aesara/tensor/var.py:526-590): classification, then
   * an advanced node, a basic Subtensor, or the new-axis view, re-indexed once
   * unless only full slices are left.
   */
  method GetItemNormalized(x: Node, n: seq<Index>, convertible: Index -> bool) returns (node: Node)
    requires forall i :: 0 <= i < |n| ==> IsNormal(n[i])
    ensures node == Dispatch(x, n, convertible)
    decreases if PyNone in n then 1 else 0, 0
  {
    var advanced := Classify(n, convertible);
    if advanced {
      return AdvancedSubtensor(x, n);
    }
    if PyNone in n {
      var pattern, newArgs, fullSlices := InsertAxes(n);
      var view := DimShuffle(x, pattern);
      if fullSlices {
        return view;
      }
      ReindexNewAxisView(x, n, convertible);
      var r := GetItem(view, |pattern|, PyTuple(newArgs), convertible);
      node := r.value;
    } else {
      node := Subtensor(n, x, DynamicOperands(n));
    }
  }
}
