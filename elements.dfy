/**
 * Array elements as the signature code sees them: a NaN, an infinity, or a finite
 * value, together with the NumPy operations it applies to whole arrays
 * (`np.isnan`, `np.isinf`, `ndarray.sum()`, masked-array sums).
 *
 * Finite values are exact reals: rounding and overflow are not modelled, and the
 * two zeros are one value. What the model keeps is IEEE 754's behaviour for the
 * special values, which is what decides each branch of the signature code.
 */
module Elements {
  import opened Wrappers

  datatype Elem = NaN | PosInf | NegInf | Fin(value: real)

  /** NumPy's elementwise `==`: a NaN equals nothing, not even itself. */
  predicate IeeeEq(a: Elem, b: Elem) {
    a == b && !a.NaN?
  }

  predicate IsInf(x: Elem) {
    x == PosInf || x == NegInf
  }

  /** IEEE addition on the special values; the finite part is exact. */
  function Add(a: Elem, b: Elem): Elem {
    if a.NaN? || b.NaN? then NaN
    else if a.Fin? && b.Fin? then Fin(a.value + b.value)
    else if a.Fin? then b
    else if b.Fin? then a
    else if a == b then a
    else NaN  // inf + (-inf)
  }

  /** `ndarray.sum()` as a left-to-right accumulation from zero. */
  function IeeeSum(xs: seq<Elem>): Elem {
    if xs == [] then Fin(0.0) else Add(IeeeSum(xs[..|xs| - 1]), xs[|xs| - 1])
  }

  /** The exact sum of the finite elements, the infinities and NaNs left out. */
  function FiniteSum(xs: seq<Elem>): real {
    if xs == [] then 0.0
    else FiniteSum(xs[..|xs| - 1]) + (if xs[|xs| - 1].Fin? then xs[|xs| - 1].value else 0.0)
  }

  /**
   * What decides the outcome of a sum: NaN when a NaN is summed or both infinities
   * are; an infinity when only that one is among the non-NaN values; and otherwise
   * the finite sum of the values.
   */
  lemma IeeeSumCases(xs: seq<Elem>)
    ensures IeeeSum(xs).NaN? <==> NaN in xs || (PosInf in xs && NegInf in xs)
    ensures IeeeSum(xs) == PosInf <==> NaN !in xs && PosInf in xs && NegInf !in xs
    ensures IeeeSum(xs) == NegInf <==> NaN !in xs && NegInf in xs && PosInf !in xs
    ensures IeeeSum(xs).Fin? <==> forall i :: 0 <= i < |xs| ==> xs[i].Fin?
    ensures IeeeSum(xs).Fin? ==> IeeeSum(xs) == Fin(FiniteSum(xs))
  {
    IeeeSumSpecial(xs);
    IeeeSumFinite(xs);
  }

  lemma {:induction false} IeeeSumSpecial(xs: seq<Elem>)
    ensures IeeeSum(xs).NaN? <==> NaN in xs || (PosInf in xs && NegInf in xs)
    ensures IeeeSum(xs) == PosInf <==> NaN !in xs && PosInf in xs && NegInf !in xs
    ensures IeeeSum(xs) == NegInf <==> NaN !in xs && NegInf in xs && PosInf !in xs
  {
    if xs != [] {
      var init, last := xs[..|xs| - 1], xs[|xs| - 1];
      IeeeSumSpecial(init);
      assert xs == init + [last];
      assert forall x :: x in xs <==> x in init || x == last;
    }
  }

  lemma {:induction false} IeeeSumFinite(xs: seq<Elem>)
    ensures IeeeSum(xs).Fin? <==> forall i :: 0 <= i < |xs| ==> xs[i].Fin?
    ensures IeeeSum(xs).Fin? ==> IeeeSum(xs) == Fin(FiniteSum(xs))
  {
    if xs != [] {
      var init, last := xs[..|xs| - 1], xs[|xs| - 1];
      IeeeSumFinite(init);
      if forall i :: 0 <= i < |init| ==> init[i].Fin? {
        assert forall i :: 0 <= i < |xs| - 1 ==> xs[i] == init[i];
      } else {
        var i :| 0 <= i < |init| && !init[i].Fin?;
        assert !xs[i].Fin?;
      }
    }
  }

  /** `np.isnan(a)` */
  function NanMask(xs: seq<Elem>): (m: seq<bool>)
    ensures |m| == |xs| && forall i :: 0 <= i < |xs| ==> (m[i] <==> xs[i].NaN?)
  {
    seq(|xs|, i requires 0 <= i < |xs| => xs[i].NaN?)
  }

  /** `np.isinf(a)` */
  function InfMask(xs: seq<Elem>): (m: seq<bool>)
    ensures |m| == |xs| && forall i :: 0 <= i < |xs| ==> (m[i] <==> IsInf(xs[i]))
  {
    seq(|xs|, i requires 0 <= i < |xs| => IsInf(xs[i]))
  }

  /** `m0 + m1` on two boolean arrays of one shape: the elementwise `or`. */
  function Union(m0: seq<bool>, m1: seq<bool>): (m: seq<bool>)
    requires |m0| == |m1|
    ensures |m| == |m0| && forall i :: 0 <= i < |m0| ==> (m[i] <==> m0[i] || m1[i])
  {
    seq(|m0|, i requires 0 <= i < |m0| => m0[i] || m1[i])
  }

  /** `m.all()` */
  predicate AllTrue(m: seq<bool>) {
    forall i :: 0 <= i < |m| ==> m[i]
  }

  /** The elements a masked array leaves visible, in order. */
  function Compress(xs: seq<Elem>, mask: seq<bool>): seq<Elem>
    requires |mask| == |xs|
  {
    if xs == [] then []
    else Compress(xs[..|xs| - 1], mask[..|xs| - 1]) + (if mask[|xs| - 1] then [] else [xs[|xs| - 1]])
  }

  /**
   * `np.ma.masked_array(a, mask).sum()`: the sum of the visible elements, or NumPy's
   * `masked` constant (here `None`) when every element is masked.
   */
  function MaskedSum(xs: seq<Elem>, mask: seq<bool>): Option<Elem>
    requires |mask| == |xs|
  {
    if AllTrue(mask) then None else Some(IeeeSum(Compress(xs, mask)))
  }

  /** Masking only non-finite elements does not change the finite sum. */
  lemma {:induction false} FiniteSumCompress(xs: seq<Elem>, mask: seq<bool>)
    requires |mask| == |xs|
    requires forall i :: 0 <= i < |xs| && mask[i] ==> !xs[i].Fin?
    ensures FiniteSum(Compress(xs, mask)) == FiniteSum(xs)
  {
    if xs != [] {
      var init, mInit := xs[..|xs| - 1], mask[..|xs| - 1];
      FiniteSumCompress(init, mInit);
      var c := Compress(init, mInit);
      var x := xs[|xs| - 1];
      var tail := if x.Fin? then x.value else 0.0;
      assert FiniteSum(xs) == FiniteSum(init) + tail;
      if mask[|xs| - 1] {
        assert Compress(xs, mask) == c + [];
        assert c + [] == c;
      } else {
        assert Compress(xs, mask) == c + [x];
        assert (c + [x])[..|c|] == c;
        assert FiniteSum(c + [x]) == FiniteSum(c) + tail;
      }
    }
  }

  /** When every unmasked element is finite, so is every visible one. */
  lemma {:induction false} CompressFinite(xs: seq<Elem>, mask: seq<bool>)
    requires |mask| == |xs|
    requires forall i :: 0 <= i < |xs| && !mask[i] ==> xs[i].Fin?
    ensures forall j :: 0 <= j < |Compress(xs, mask)| ==> Compress(xs, mask)[j].Fin?
  {
    if xs != [] {
      var init, mInit := xs[..|xs| - 1], mask[..|xs| - 1];
      CompressFinite(init, mInit);
      var c := Compress(init, mInit);
      var tail := if mask[|xs| - 1] then [] else [xs[|xs| - 1]];
      assert Compress(xs, mask) == c + tail;
      assert forall j :: 0 <= j < |tail| ==> tail[j].Fin?;
    }
  }

  /** A masked array whose mask covers every infinity and NaN sums to a finite value. */
  lemma MaskedSumFinite(xs: seq<Elem>, mask: seq<bool>)
    requires |mask| == |xs| && !AllTrue(mask)
    requires forall i :: 0 <= i < |xs| && !mask[i] ==> xs[i].Fin?
    ensures MaskedSum(xs, mask).Some? && MaskedSum(xs, mask).value.Fin?
  {
    CompressFinite(xs, mask);
    IeeeSumCases(Compress(xs, mask));
  }

  /** When every element is masked and masks only non-finite ones, the finite sum is zero. */
  lemma {:induction false} FiniteSumAllMasked(xs: seq<Elem>, mask: seq<bool>)
    requires |mask| == |xs| && AllTrue(mask)
    requires forall i :: 0 <= i < |xs| && mask[i] ==> !xs[i].Fin?
    ensures FiniteSum(xs) == 0.0
  {
    FiniteSumCompress(xs, mask);
    if xs != [] {
      assert Compress(xs, mask) == [] by {
        FiniteSumAllMaskedEmpty(xs, mask);
      }
    }
  }

  lemma {:induction false} FiniteSumAllMaskedEmpty(xs: seq<Elem>, mask: seq<bool>)
    requires |mask| == |xs| && AllTrue(mask)
    ensures Compress(xs, mask) == []
  {
    if xs != [] {
      FiniteSumAllMaskedEmpty(xs[..|xs| - 1], mask[..|xs| - 1]);
      assert mask[|xs| - 1];
      assert Compress(xs, mask) == [] + [];
    }
  }

  // ---------------------------------------------------------------------------
  // Arrays and tensor types

  /** An ndarray: its shape and its elements in C order (`ravel()`). */
  datatype NdArray = NdArray(shape: seq<nat>, flat: seq<Elem>)

  function Product(shape: seq<nat>): nat {
    if shape == [] then 1 else shape[0] * Product(shape[1..])
  }

  /** An ndarray holds exactly as many elements as its shape says. */
  type Array = a: NdArray | |a.flat| == Product(a.shape) witness NdArray([], [Fin(0.0)])

  /** A `TensorType`, compared by value as its `__eq__` does. */
  datatype TensorType = TensorType(dtype: string, broadcastable: seq<bool>)
}
