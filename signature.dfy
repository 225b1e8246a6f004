/**
 * `TensorConstantSignature` (aesara/tensor/var.py:855-950): the pair (type, data)
 * by which two tensor constants are compared and hashed. Equality treats NaNs in
 * the same places as equal; the sum of the finite values serves the hash and an
 * early out, and it and the NaN-masked view are computed once and cached on the
 * signature object.
 */
module Signatures {
  import opened Wrappers
  import opened Elements

  /** The `no_nan` view: the array itself, or a masked array hiding its NaNs. */
  datatype NoNanView = Unmasked | Masked(mask: seq<bool>)

  predicate HasNan(xs: seq<Elem>) {
    NaN in xs
  }

  /** What `_get_no_nan` computes (aesara/tensor/var.py:939-950). */
  function NoNanOf(xs: seq<Elem>): (v: NoNanView)
    ensures v.Masked? <==> HasNan(xs)
    ensures v.Masked? ==> |v.mask| == |xs| && forall i :: 0 <= i < |xs| ==> (v.mask[i] <==> xs[i].NaN?)
  {
    var nanMask := NanMask(xs);
    if exists i :: 0 <= i < |nanMask| && nanMask[i] then Masked(nanMask) else Unmasked
  }

  /** `np.all(d0 == d1)` on two arrays of one shape. */
  predicate ElementsEqual(a: seq<Elem>, b: seq<Elem>) {
    |a| == |b| && forall i :: 0 <= i < |a| ==> IeeeEq(a[i], b[i])
  }

  /** `(masked(a, mask) == masked(b, mask)).all()`: the masked places count as equal. */
  predicate UnmaskedEqual(a: seq<Elem>, b: seq<Elem>, mask: seq<bool>) {
    |a| == |b| == |mask| && forall i :: 0 <= i < |a| && !mask[i] ==> IeeeEq(a[i], b[i])
  }

  /**
   * `__eq__` between the signatures of (t0, d0) and (t1, d1), branch for branch:
   * type and shape first, then, when d0 has a NaN, NaNs on the other side in the
   * same places and equal values elsewhere; otherwise plain elementwise equality.
   * The sums compared are those `_get_sum` caches.
   */
  predicate SignaturesEqual(t0: TensorType, d0: Array, t1: TensorType, d1: Array) {
    if t0 != t1 || d0.shape != d1.shape then false
    else if HasNan(d0.flat) then
      && HasNan(d1.flat)
      && FiniteSum(d0.flat) == FiniteSum(d1.flat)
      && NanMask(d0.flat) == NanMask(d1.flat)
      && (AllTrue(NanMask(d0.flat)) || UnmaskedEqual(d0.flat, d1.flat, NanMask(d0.flat)))
    else
      FiniteSum(d0.flat) == FiniteSum(d1.flat) && ElementsEqual(d0.flat, d1.flat)
  }

  /**
   * Two signatures are equal exactly when their types are equal and their arrays
   * have the same shape and the same elements, a NaN counting as equal to a NaN.
   */
  lemma SignaturesEqualIffSame(t0: TensorType, d0: Array, t1: TensorType, d1: Array)
    ensures SignaturesEqual(t0, d0, t1, d1) <==> t0 == t1 && d0 == d1
  {
    if t0 == t1 && d0.shape == d1.shape {
      var a, b := d0.flat, d1.flat;
      assert |a| == |b|;
      if SignaturesEqual(t0, d0, t1, d1) {
        forall i | 0 <= i < |a|
          ensures a[i] == b[i]
        {
          if HasNan(a) {
            assert NanMask(a)[i] == NanMask(b)[i];
          }
        }
        assert a == b;
      }
      if a == b && HasNan(a) {
        assert UnmaskedEqual(a, b, NanMask(a));
      }
    }
  }

  lemma SignaturesEqualReflexive(t: TensorType, d: Array)
    ensures SignaturesEqual(t, d, t, d)
  {
    SignaturesEqualIffSame(t, d, t, d);
  }

  lemma SignaturesEqualSymmetric(t0: TensorType, d0: Array, t1: TensorType, d1: Array)
    ensures SignaturesEqual(t0, d0, t1, d1) == SignaturesEqual(t1, d1, t0, d0)
  {
    SignaturesEqualIffSame(t0, d0, t1, d1);
    SignaturesEqualIffSame(t1, d1, t0, d0);
  }

  lemma SignaturesEqualTransitive(t0: TensorType, d0: Array, t1: TensorType, d1: Array, t2: TensorType, d2: Array)
    requires SignaturesEqual(t0, d0, t1, d1) && SignaturesEqual(t1, d1, t2, d2)
    ensures SignaturesEqual(t0, d0, t2, d2)
  {
    SignaturesEqualIffSame(t0, d0, t1, d1);
    SignaturesEqualIffSame(t1, d1, t2, d2);
    SignaturesEqualIffSame(t0, d0, t2, d2);
  }

  /** The tuple `__hash__` hashes, less the class, which is the same for every signature. */
  datatype HashKey = HashKey(ty: TensorType, shape: seq<nat>, sum: real)

  function KeyOf(t: TensorType, d: Array): HashKey {
    HashKey(t, d.shape, FiniteSum(d.flat))
  }

  /** Equal signatures hash alike: both branches of `__eq__` compare what the hash is made of. */
  lemma HashConsistent(t0: TensorType, d0: Array, t1: TensorType, d1: Array)
    requires SignaturesEqual(t0, d0, t1, d1)
    ensures KeyOf(t0, d0) == KeyOf(t1, d1)
  {
  }

  /** The cached sum: NaNs and infinities contribute nothing, so it is zero when there are only those. */
  lemma SumOfNonFinite(xs: seq<Elem>)
    requires forall i :: 0 <= i < |xs| ==> !xs[i].Fin?
    ensures FiniteSum(xs) == 0.0
  {
    var all := seq(|xs|, _ => true);
    FiniteSumAllMasked(xs, all);
  }

  /** What `__eq__` is handed: another signature, or an object of some other class. */
  datatype Comparand = Sig(s: Signature) | Foreign

  class Signature {
    const ty: TensorType
    const data: Array
    var noNanCache: Option<NoNanView>  // `_no_nan`
    var hasNan: Option<bool>           // `has_nan`, set together with `_no_nan`
    var sumCache: Option<real>         // `_sum`

    /** Each cache, once filled, holds what it caches. */
    ghost predicate Valid()
      reads this
    {
      && (noNanCache.Some? <==> hasNan.Some?)
      && (noNanCache.Some? ==> noNanCache.value == NoNanOf(data.flat) && hasNan.value == HasNan(data.flat))
      && (sumCache.Some? ==> noNanCache.Some? && sumCache.value == FiniteSum(data.flat))
    }

    /** Every cache that held a value in the given earlier state holds it still. */
    ghost predicate CachesKept(n: Option<NoNanView>, h: Option<bool>, s: Option<real>)
      reads this
    {
      && (n.Some? ==> noNanCache == n)
      && (h.Some? ==> hasNan == h)
      && (s.Some? ==> sumCache == s)
    }

    /** Every cache is as in the given earlier state: none was filled. */
    ghost predicate CachesUnchanged(n: Option<NoNanView>, h: Option<bool>, s: Option<real>)
      reads this
    {
      noNanCache == n && hasNan == h && sumCache == s
    }

    /** `TensorConstantSignature((type, data))`: no cached attribute yet. */
    constructor (ty: TensorType, data: Array)
      ensures this.ty == ty && this.data == data
      ensures noNanCache.None? && hasNan.None? && sumCache.None?
      ensures Valid()
    {
      this.ty, this.data := ty, data;
      noNanCache, hasNan, sumCache := None, None, None;
    }

    /** The `no_nan` property (aesara/tensor/var.py:939-950). */
    method NoNan() returns (v: NoNanView)
      requires Valid()
      modifies this
      ensures Valid()
      ensures v == NoNanOf(data.flat) && noNanCache == Some(v) && hasNan == Some(HasNan(data.flat))
      ensures sumCache == old(sumCache)
    {
      if noNanCache.Some? {
        return noNanCache.value;
      }
      var nanMask := NanMask(data.flat);
      if exists i :: 0 <= i < |nanMask| && nanMask[i] {
        v := Masked(nanMask);
        hasNan := Some(true);
      } else {
        v := Unmasked;
        hasNan := Some(false);
      }
      noNanCache := Some(v);
    }

    /**
     * The `sum` property (aesara/tensor/var.py:908-935): the sum of the `no_nan`
     * view; zero when every element is NaN; and when that sum is infinite or NaN
     * (infinities of both signs), the sum again with the infinities masked too.
     * The result is the sum of the finite elements whatever the array holds.
     */
    method Sum() returns (s: real)
      requires Valid()
      modifies this
      ensures Valid()
      ensures s == FiniteSum(data.flat) && sumCache == Some(s)
      ensures noNanCache.Some? && (old(noNanCache).Some? ==> noNanCache == old(noNanCache))
    {
      if sumCache.Some? {
        return sumCache.value;
      }
      var noNan := NoNan();
      var xs := data.flat;
      var total: Elem;
      if noNan.Masked? && AllTrue(noNan.mask) {
        // `no_nan.sum()` is NumPy's `masked` constant; the code replaces it by zero
        total := Fin(0.0);
        assert total.value == FiniteSum(xs) by {
          SumOfNonFinite(xs);
        }
      } else if noNan.Masked? {
        total := MaskedSum(xs, noNan.mask).value;
        assert total.Fin? ==> total.value == FiniteSum(xs) by {
          IeeeSumCases(Compress(xs, noNan.mask));
          FiniteSumCompress(xs, noNan.mask);
        }
      } else {
        total := IeeeSum(xs);
        assert total.Fin? ==> total.value == FiniteSum(xs) by {
          IeeeSumCases(xs);
        }
      }
      if IsInf(total) || total.NaN? {
        var mask := if hasNan.value then Union(noNan.mask, InfMask(xs)) else InfMask(xs);
        assert forall i :: 0 <= i < |xs| ==> (mask[i] <==> !xs[i].Fin?);
        if AllTrue(mask) {
          total := Fin(0.0);
          assert total.value == FiniteSum(xs) by {
            FiniteSumAllMasked(xs, mask);
          }
        } else {
          MaskedSumFinite(xs, mask);
          total := MaskedSum(xs, mask).value;
          assert total.value == FiniteSum(xs) by {
            IeeeSumCases(Compress(xs, mask));
            FiniteSumCompress(xs, mask);
          }
        }
        // no NaN is left at this point
        assert total.Fin?;
      }
      s := total.value;
      sumCache := Some(s);
    }

    /**
     * `__eq__` (aesara/tensor/var.py:863-895), forcing the caches in the code's
     * order: once type and shape match, this side's `no_nan`; then, with a NaN
     * here, the other side's `no_nan`, and both sums only if it has a NaN too;
     * without a NaN here, both sums. No cache is emptied on either side, and no
     * other cache is filled: a foreign object, a type or shape mismatch, or a NaN
     * here and none there leaves the caches the code does not read as they were.
     */
    method Equals(other: Comparand) returns (b: bool)
      requires Valid() && (other.Sig? ==> other.s.Valid())
      modifies this, if other.Sig? then {other.s} else {}
      ensures Valid() && (other.Sig? ==> other.s.Valid())
      ensures b == (other.Sig? && SignaturesEqual(ty, data, other.s.ty, other.s.data))
      ensures CachesKept(old(noNanCache), old(hasNan), old(sumCache))
      ensures other.Sig? ==> other.s.CachesKept(old(other.s.noNanCache), old(other.s.hasNan), old(other.s.sumCache))
      ensures other.Sig? && ty == other.s.ty && data.shape == other.s.data.shape ==>
        && noNanCache.Some?
        && (HasNan(data.flat) ==> other.s.noNanCache.Some?)
        && (!HasNan(data.flat) || HasNan(other.s.data.flat) ==> sumCache.Some? && other.s.sumCache.Some?)
      ensures !(other.Sig? && ty == other.s.ty && data.shape == other.s.data.shape) ==>
        CachesUnchanged(old(noNanCache), old(hasNan), old(sumCache))
      ensures other.Sig? && !(ty == other.s.ty && data.shape == other.s.data.shape) ==>
        other.s.CachesUnchanged(old(other.s.noNanCache), old(other.s.hasNan), old(other.s.sumCache))
      ensures other.Sig? && other.s != this && HasNan(data.flat) && !HasNan(other.s.data.flat) ==>
        sumCache == old(sumCache) && other.s.sumCache == old(other.s.sumCache)
    {
      if other.Foreign? {
        return false;
      }
      var o := other.s;
      if ty != o.ty || data.shape != o.data.shape {
        return false;
      }
      var mine := NoNan();
      if hasNan.value {
        var theirs := o.NoNan();
        if !o.hasNan.value {
          return false;
        }
        var s0 := Sum();
        var s1 := o.Sum();
        if s0 != s1 {
          return false;
        }
        if mine.mask != theirs.mask {
          return false;
        }
        b := AllTrue(mine.mask) || UnmaskedEqual(data.flat, o.data.flat, mine.mask);
      } else {
        var s0 := Sum();
        var s1 := o.Sum();
        b := s0 == s1 && ElementsEqual(data.flat, o.data.flat);
      }
    }

    /** `__ne__` (aesara/tensor/var.py:897-898) */
    method NotEquals(other: Comparand) returns (b: bool)
      requires Valid() && (other.Sig? ==> other.s.Valid())
      modifies this, if other.Sig? then {other.s} else {}
      ensures Valid() && (other.Sig? ==> other.s.Valid())
      ensures b == !(other.Sig? && SignaturesEqual(ty, data, other.s.ty, other.s.data))
      ensures CachesKept(old(noNanCache), old(hasNan), old(sumCache))
      ensures other.Sig? ==> other.s.CachesKept(old(other.s.noNanCache), old(other.s.hasNan), old(other.s.sumCache))
      ensures other.Sig? && ty == other.s.ty && data.shape == other.s.data.shape ==>
        && noNanCache.Some?
        && (HasNan(data.flat) ==> other.s.noNanCache.Some?)
        && (!HasNan(data.flat) || HasNan(other.s.data.flat) ==> sumCache.Some? && other.s.sumCache.Some?)
      ensures !(other.Sig? && ty == other.s.ty && data.shape == other.s.data.shape) ==>
        CachesUnchanged(old(noNanCache), old(hasNan), old(sumCache))
      ensures other.Sig? && !(ty == other.s.ty && data.shape == other.s.data.shape) ==>
        other.s.CachesUnchanged(old(other.s.noNanCache), old(other.s.hasNan), old(other.s.sumCache))
      ensures other.Sig? && other.s != this && HasNan(data.flat) && !HasNan(other.s.data.flat) ==>
        sumCache == old(sumCache) && other.s.sumCache == old(other.s.sumCache)
    {
      b := Equals(other);
      b := !b;
    }

    /** `__hash__` (aesara/tensor/var.py:900-902): computes, and so caches, the sum. */
    method Hash() returns (h: HashKey)
      requires Valid()
      modifies this
      ensures Valid()
      ensures h == KeyOf(ty, data)
      ensures sumCache == Some(h.sum) && noNanCache.Some?
      ensures CachesKept(old(noNanCache), old(hasNan), old(sumCache))
    {
      var s := Sum();
      h := HashKey(ty, data.shape, s);
    }
  }
}
