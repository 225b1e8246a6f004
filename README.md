# Aesara tensor indexing and constant signatures, modelled in Dafny

This project models two parts of `aesara/tensor/var.py`:

* **`_tensor_py_operators.__getitem__`**, the pass that turns a NumPy-style index
  (integers, slices, `Ellipsis`, `None`/`np.newaxis`, bool masks, integer arrays,
  nested lists and tuples, graph variables) into a graph node. It wraps the index
  into a tuple of entries, counts the dimensions they consume while rejecting
  Python bools, checks the rank, expands a single `Ellipsis` into full slices,
  converts empty sequences to `int64` arrays and literals to graph constants,
  decides between advanced indexing and a basic `Subtensor`, and handles new axes
  through a `DimShuffle` view that is returned directly or re-indexed once.
* **`TensorConstantSignature`** and **`TensorConstant`**: the (type, data) pair by
  which constants are compared and hashed, with NaN-aware equality, the cached sum
  of the finite values and the cached NaN-masked view; the constant's
  `unique_value` tag, its `signature()`, `equals` and `__copy__`.

Files: `wrappers.dfy` (`Option`), `index.dfy` (module `Indices`: index entries,
`includes_bool`, per-entry normalisation), `subscript.dfy` (module `Subscript`: the
`__getitem__` pass), `elements.dfy` (module `Elements`: NaN, infinities, finite
values, NumPy sums and masks), `signature.dfy` (module `Signatures`),
`constant.dfy` (module `Constants`).

`__getitem__` is the method `Subscript.GetItem`, which follows the code step by
step in two halves, `CountAndExpand` and `GetItemNormalized` (its counting loop is
`CountDims`, its classification loop `Classify`, its new-axis loops `InsertAxes`,
and it re-enters itself on the view as the code does)
and is proved equal to the function `Subscript.Indexed`, a non-recursive
statement of the result. The signature caches are fields of the class
`Signatures.Signature` that its methods fill in, with an invariant saying that a
filled cache holds what it caches.

Modelling choices:

* One datatype `Indices.Index` serves for the raw entries and for the entries left
  after normalisation. `PyNone` is Python's `None`, which is also `np.newaxis` and
  an absent slice member; `slice(None)` is `Slice(PyNone, PyNone, PyNone)`.
* `Subtensor.convert` is a parameter `convertible: Index -> bool`, false where it
  raises `AdvancedIndexingError`. `as_index_constant` is modelled by the behaviour
  this code relies on: `None` stays, slices are converted member by member,
  variables stay, other literals become graph constants.
* `includes_bool` descends into every non-variable `Iterable`. A NumPy array of
  rank 0 is an `Iterable` but iterating it raises `TypeError`; the model keeps that
  error (`Subscript.Error.ZeroDimIteration`). `Index.Array` stands for an ndarray
  of a numeric or bool dtype only: iterating one of rank 1 or more yields
  sub-arrays and scalars of its own dtype, so a non-bool one holds no bool at any
  depth. Object- and string-dtype arrays are outside the model (see below).
* A top-level list holding a slice is used as the sequence of entries, exactly as
  a tuple would be: the code at `aesara/tensor/var.py:456-459` leaves such a list
  unwrapped and then iterates it, so such a list is not one single element.
* An ndarray used as an index entry is `Index.Array(boolDtype, ndim, size)`. The
  datatype also admits a rank-0 value whose size is not 1, which no ndarray has;
  such values stand for nothing in the code and the statements about them carry
  no meaning.
* Array elements are `NaN`, `PosInf`, `NegInf` or `Fin(r)` with `r` an exact real;
  an ndarray is its shape plus its elements in C order.

## Model

| member | source | states |
|---|---|---|
| `Indices.IncludesBool` | aesara/tensor/var.py:445-454 | `includes_bool` one entry at a time: true for a bool or a value of bool dtype; for a list or tuple, the verdict of the loop over its elements; raising for a 0-d ndarray, which cannot be iterated; false otherwise |
| `Indices.AnyIncludesBool` | aesara/tensor/var.py:450-453 | the loop over the elements: false for none, stopping at the first element that raises or answers true |
| `Indices.IncludesBoolIsFirstVerdict` | aesara/tensor/var.py:445-454 | `includes_bool` gives the verdict of the first leaf (bool, or 0-d array) it reaches in a left-to-right walk of nested lists and tuples |
| `Indices.AnyIncludesBoolIsFirstVerdict` | aesara/tensor/var.py:450-453 | the inner loop with its early `return True` gives the first verdict over the leaves of all the elements |
| `Indices.BoolFoundAtAnyDepth` | aesara/tensor/var.py:445-454 | true exactly when a bool leaf occurs at some depth before any 0-d array; it raises exactly when a 0-d array comes first |
| `Indices.IsEmptyArray` | aesara/tensor/var.py:509-512 | `is_empty_array`: an empty list or tuple, or an ndarray of size zero |
| `Indices.AsIndexConstant` | aesara/tensor/var.py:514-524 | the result is a normal entry (None, slice of normal entries, variable); it is None exactly when the input is; normal entries are left as they are |
| `Indices.Normalize` | aesara/tensor/var.py:509-524 | an empty list, tuple or ndarray becomes an int64 (non-bool) constant array of size zero; None is kept; the result is normal |
| `Indices.NormalIncludesBool` | aesara/tensor/var.py:445-454 | on normal entries `includes_bool` never raises and answers by the dtype alone |
| `Subscript.Wrap` | aesara/tensor/var.py:456-459 | a list holding a slice is itself the sequence of entries, a tuple's elements are the entries, anything else is a single entry |
| `Subscript.EntryError` | aesara/tensor/var.py:464-492 | None, Ellipsis and bool masks raise nothing; any other entry raises the Python-bool TypeError when `includes_bool` answers true, and the iteration error when it raises |
| `Subscript.CountError` | aesara/tensor/var.py:464-492 | the error of the first entry that raises one, and none when no entry does |
| `Subscript.CountDims` | aesara/tensor/var.py:462-492 | the counting loop returns the error of the first offending entry, or the positions of the Ellipses and the number of dimensions the entries consume |
| `Subscript.CountErrorIsFirst` | aesara/tensor/var.py:479-492 | the loop raises exactly when some entry raises, and then with that of the first such entry |
| `Subscript.PythonBoolsRejected` | aesara/tensor/var.py:471-492 | a bool mask is never rejected; any other entry is rejected with the bool error exactly when a bool leaf occurs at some depth before any 0-d array |
| `Subscript.EllipsisPositions` | aesara/tensor/var.py:462-470 | each recorded position holds an Ellipsis |
| `Subscript.EllipsisPositionsComplete` | aesara/tensor/var.py:462-470 | every Ellipsis is recorded, in increasing order |
| `Subscript.Splice` | aesara/tensor/var.py:502-507 | the slice assignment that puts `k` copies of `slice(None)` in place of the entry at the Ellipsis |
| `Subscript.EllipsisExpansion` | aesara/tensor/var.py:500-507 | after replacing the single Ellipsis the entries consume exactly `ndim` dimensions, contain no Ellipsis, and keep the entries before and after it in place |
| `Subscript.EllipsisMeansFullSlices` | aesara/tensor/var.py:500-507 | indexing with an Ellipsis gives the same result as indexing with the full slices it expands to |
| `Subscript.NormalizeAll` | aesara/tensor/var.py:516-524 | normalisation keeps the number of entries and makes every entry normal |
| `Subscript.Classify` | aesara/tensor/var.py:526-543 | despite its asymmetric `break`s the scan answers whether some entry includes a bool or fails `convert` |
| `Subscript.InsertAxes` | aesara/tensor/var.py:556-580 | the loops build the pattern and the new arguments, and `full_slices` holds exactly when every new argument is `slice(None)` |
| `Subscript.NewAxisPass` | aesara/tensor/var.py:556-566 | pattern and new arguments are as long as the entries; each None becomes `'x'` and a full slice, other entries pass through; no None is left |
| `Subscript.KeptAxesConsecutive` | aesara/tensor/var.py:556-566 | the kept entries get axes 0, 1, ... in increasing order, each below the final counter and each taken |
| `Subscript.DynamicOf` | aesara/tensor/var.py:587-589 | `Subtensor.collapse` on one entry: the entry itself when it is a graph variable, the variables among its members when it is a slice, nothing otherwise |
| `Subscript.DynamicOperands` | aesara/tensor/var.py:584-590 | the operands collapsed out of the index are all graph variables |
| `Subscript.DynamicOfEmpty` | aesara/tensor/var.py:584-590 | an entry contributes no operand exactly when neither it nor its slice members are variables |
| `Subscript.AllStaticIffNoOperands` | aesara/tensor/var.py:584-590 | the Subtensor node gets no operands exactly when every entry is static |
| `Subscript.ReindexView` | aesara/tensor/var.py:580-583 | re-indexing the view with the new arguments raises nothing and yields an advanced or a basic node on the view |
| `Subscript.ReindexNewAxisView` | aesara/tensor/var.py:548-583 | in the new-axis branch the re-indexing gives what `Dispatch` states, and its index contains no None |
| `Subscript.NewAxisComesFromInput` | aesara/tensor/var.py:500-524 | a None after normalisation was a None in the caller's index, so the single re-entry stops |
| `Subscript.Prepare` | aesara/tensor/var.py:456-524 | in the code's raising order: the first counting error, too many indices, more than one Ellipsis; otherwise the normalised entries, a single Ellipsis expanded into full slices |
| `Subscript.Dispatch` | aesara/tensor/var.py:526-590 | an advanced node when some entry needs one; a Subtensor with the collapsed operands when there is no None; otherwise the DimShuffle view, itself when only full slices are left, else re-indexed once |
| `Subscript.Indexed` | aesara/tensor/var.py:444-590 | the error `Prepare` raises, or the node `Dispatch` builds from the prepared entries |
| `Subscript.GetItem` | aesara/tensor/var.py:444-590 | `__getitem__` yields exactly the error or node `Indexed` states, re-entering itself at most once |
| `Subscript.CountAndExpand` | aesara/tensor/var.py:456-524 | wrapping, counting, the rank and Ellipsis checks, the expansion and the normalisation yield exactly the error or entries `Prepare` states |
| `Subscript.GetItemNormalized` | aesara/tensor/var.py:526-590 | classification and dispatch on normalised entries yield the node `Dispatch` states: advanced, basic, the view, or the view re-indexed |
| `Subscript.TwoEllipsesRejected` | aesara/tensor/var.py:500-501 | `x[..., ...]` on a matrix raises the single-Ellipsis error |
| `Subscript.MultipleEllipsesRejected` | aesara/tensor/var.py:468-501 | any index holding two Ellipsis entries that passes the counting loop and the rank check raises the single-Ellipsis error |
| `Subscript.TooManyIntegers` | aesara/tensor/var.py:495-496 | more integer entries than the tensor has dimensions (`x[0, 0, 0]` on a matrix) raise the too-many-indices error |
| `Subscript.PythonBoolListRejected` | aesara/tensor/var.py:456-491 | `x[[True, False]]` is one entry and is rejected for its Python bools |
| `Subscript.NewAxesOverFullSlices` | aesara/tensor/var.py:548-581 | an index of Nones and one full slice per dimension (`x[None, :, :]` on a matrix) yields the DimShuffle view itself, not re-indexed |
| `Elements.IeeeSumCases` | aesara/tensor/var.py:914-926 | an array sum is NaN when a NaN or both infinities are summed, an infinity when only that one is present, else finite and equal to the sum of the values |
| `Elements.FiniteSumCompress` | aesara/tensor/var.py:914-933 | masking only NaNs and infinities leaves the sum of the finite values unchanged |
| `Elements.MaskedSumFinite` | aesara/tensor/var.py:927-935 | once NaNs and infinities are masked and something is left, the masked sum is finite (the code's closing assertion) |
| `Elements.FiniteSumAllMasked` | aesara/tensor/var.py:917-931 | when every element is masked as NaN or infinite, the sum of the finite values is zero |
| `Signatures.NoNanOf` | aesara/tensor/var.py:939-950 | the view is masked exactly when the array holds a NaN, and then its mask marks exactly the NaNs |
| `Signatures.SignaturesEqual` | aesara/tensor/var.py:863-895 | `__eq__` branch for branch: type and shape; then with a NaN in the first array, a NaN in the second, equal sums, equal NaN masks and equal unmasked values (skipped when all are NaN); without one, equal sums and `np.all(d0 == d1)` |
| `Signatures.SignaturesEqualIffSame` | aesara/tensor/var.py:863-895 | two signatures are equal exactly when the types are equal and the arrays have the same shape and elements, NaN matching NaN |
| `Signatures.SignaturesEqualReflexive` | aesara/tensor/var.py:863-895 | a signature equals itself, NaNs included |
| `Signatures.SignaturesEqualSymmetric` | aesara/tensor/var.py:863-895 | equality does not depend on which side holds the NaNs |
| `Signatures.SignaturesEqualTransitive` | aesara/tensor/var.py:863-895 | equality is transitive |
| `Signatures.KeyOf` | aesara/tensor/var.py:900-902 | the tuple `__hash__` hashes: type, shape and the sum of the finite elements |
| `Signatures.HashConsistent` | aesara/tensor/var.py:900-902 | equal signatures have the same hash key (type, shape, sum) |
| `Signatures.SumOfNonFinite` | aesara/tensor/var.py:917-931 | the sum of an array holding only NaNs and infinities is zero |
| `Signatures.Signature.constructor` | aesara/tensor/var.py:981-982 | a new signature holds the type and data and no cache |
| `Signatures.Signature.NoNan` | aesara/tensor/var.py:939-950 | `no_nan` fills `_no_nan` and `has_nan` with the NaN-masked view and whether there is a NaN, once, leaving `_sum` alone |
| `Signatures.Signature.Sum` | aesara/tensor/var.py:908-935 | `sum` returns, and caches, the sum of the finite elements for every array, all-NaN and mixed-infinity arrays included |
| `Signatures.Signature.Equals` | aesara/tensor/var.py:863-895 | `__eq__` answers the branchwise comparison, a non-signature never being equal; once type and shape match it has filled this side's `no_nan`, the other side's when this one has a NaN, and both sums in the branches that read them; no cache on either side is emptied or changed, and no other cache is filled (a foreign object or a type or shape mismatch leaves both sides as they were; a NaN here and none there leaves both sums as they were) |
| `Signatures.Signature.NotEquals` | aesara/tensor/var.py:897-898 | `__ne__` is the negation of `__eq__`, fills and keeps the caches `__eq__` does, and no other cache is filled |
| `Signatures.Signature.Hash` | aesara/tensor/var.py:900-902 | `__hash__` hashes the type, the shape and the sum, which is cached afterwards; no filled cache is emptied or changed |
| `Constants.UniqueValue` | aesara/tensor/var.py:964-969 | `tag.unique_value`: the first element of an ndarray of rank at least one with at least one element, when every element compares equal to it; none otherwise |
| `Constants.UniqueValueIff` | aesara/tensor/var.py:962-969 | the tag is `v` exactly when the array has an axis and an element and every element is the non-NaN value `v` |
| `Constants.NoUniqueValue` | aesara/tensor/var.py:962-969 | a 0-d array, or one holding a NaN, gets no tag |
| `Constants.TensorConstant.constructor` | aesara/tensor/var.py:962-969 | `__init__` stores type, data and name and sets the tag |
| `Constants.TensorConstant.Signature` | aesara/tensor/var.py:981-982 | `signature()` returns a new signature of the constant's type and data with no cache |
| `Constants.TensorConstant.Equals` | aesara/tensor/var.py:984-992 | `equals` holds exactly for a constant, or a wrapped ndarray or number, of the same type with the same array |
| `Constants.TensorConstant.Copy` | aesara/tensor/var.py:994-996 | `__copy__` is a new constant of the same type, data and name with its tag recomputed, and it equals the original |

## Left out

- The arithmetic, comparison and reduction operators, the accessors and method
  wrappers of `_tensor_py_operators`, and `TensorVariable`: outside this model.
- `warn_float64`, `__str__` of `TensorConstant`, `__deepcopy__`, `aesara_hash` and
  `hash_from_ndarray`: not modelled (string formatting and hashing of bytes).
- The graph operations `advanced_subtensor`, `Subtensor`, `DimShuffle` and their
  own checks are not part of this model; they appear as node constructors. In
  particular `DimShuffle`'s own validation is not modelled: when fewer entries than
  `ndim` are given together with a None (`x[None, 0]` on a matrix) the pattern
  leaves out the trailing input axes, which `DimShuffle` only accepts for
  broadcastable axes.
- `Subtensor.convert`: only whether it raises `AdvancedIndexingError` is modelled;
  any other exception it raises is not.
- `as_index_constant` and `aet.basic.constant`: their internals are not modelled;
  literals they cannot convert, and the dtype `aet.basic.constant` chooses for a
  Python number (the model keeps the values as given and takes the chosen type as
  the parameter `typeOf`), are outside the model.
- ndarrays of object or string dtype, and Python strings, as index entries:
  `includes_bool` iterates their elements, so an object array holding a Python
  bool is rejected with the bool `TypeError`, and a string recurses (a
  one-character string iterates to itself) until `RecursionError`. `Index.Array`
  stands only for numeric and bool dtypes, and the vocabulary has no string.
- Integer ndarrays used as indices are described by dtype, rank and size only;
  the values of integer arrays and lists play no part in this pass.
- Floating point: sums are exact over the reals; rounding, overflow to infinity,
  the order of NumPy's pairwise summation and the sign of zero are not modelled.
- The `np.memmap` unwrapping of the sum (aesara/tensor/var.py:916-917): a
  representation detail with no effect on the value.
- Non-ndarray constant data in `TensorConstant.__init__`, and the failure of the
  tuple unpacking in `__eq__` (a signature is always a pair here): not modelled.
- Python's hash function itself: `Signatures.Signature.Hash` returns the tuple that
  is hashed, so equal tuples stand for equal hashes.
- Concurrency: the caches are filled without synchronisation in the code; the
  model is sequential.
