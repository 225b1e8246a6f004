/**
 * `TensorConstant` (aesara/tensor/var.py:955-996): a graph constant holding an
 * ndarray, its `unique_value` tag, its signature, `equals` and `__copy__`.
 *
 * `aet.basic.constant`, which `equals` uses to wrap a bare ndarray or Python
 * number, is the parameter `typeOf`: the tensor type it gives the value. The data
 * is kept as given.
 */
module Constants {
  import opened Wrappers
  import opened Elements
  import opened Signatures

  /**
   * `tag.unique_value`: the first element when the array has at least one axis and
   * one element and every element compares equal to it; otherwise none.
   */
  function UniqueValue(d: Array): Option<Elem> {
    if |d.shape| > 0 && |d.flat| > 0 && forall i :: 0 <= i < |d.flat| ==> IeeeEq(d.flat[i], d.flat[0])
    then Some(d.flat[0])
    else None
  }

  /**
   * The tag is `v` exactly when the array has an axis, is not empty, and every
   * element is `v`, a value other than NaN (a NaN never compares equal, so an array
   * holding one gets no tag).
   */
  lemma UniqueValueIff(d: Array, v: Elem)
    ensures UniqueValue(d) == Some(v) <==>
      |d.shape| > 0 && |d.flat| > 0 && !v.NaN? && forall i :: 0 <= i < |d.flat| ==> d.flat[i] == v
  {
    if |d.shape| > 0 && |d.flat| > 0 && !v.NaN? && forall i :: 0 <= i < |d.flat| ==> d.flat[i] == v {
      assert d.flat[0] == v;
    }
  }

  /** A 0-d array, and an array holding a NaN, get no tag. */
  lemma NoUniqueValue(d: Array)
    ensures |d.shape| == 0 ==> UniqueValue(d).None?
    ensures NaN in d.flat ==> UniqueValue(d).None?
  {
    if NaN in d.flat && |d.shape| > 0 && |d.flat| > 0 {
      var i :| 0 <= i < |d.flat| && d.flat[i] == NaN;
      assert !IeeeEq(d.flat[i], d.flat[0]);
    }
  }

  /** What `equals` is handed: a constant, a bare ndarray or number, or another object. */
  datatype Operand = Node(c: TensorConstant) | Literal(value: Array) | OtherObject

  class TensorConstant {
    const ty: TensorType
    const data: Array
    const name: Option<string>
    var uniqueValue: Option<Elem>  // `tag.unique_value`

    /** `__init__` (aesara/tensor/var.py:962-969) */
    constructor (ty: TensorType, data: Array, name: Option<string>)
      ensures this.ty == ty && this.data == data && this.name == name
      ensures uniqueValue == UniqueValue(data)
    {
      this.ty, this.data, this.name := ty, data, name;
      uniqueValue := UniqueValue(data);
    }

    /** `signature()`: a new signature, so no cache is shared between calls. */
    method Signature() returns (s: Signatures.Signature)
      ensures fresh(s) && s.Valid()
      ensures s.ty == ty && s.data == data
      ensures s.noNanCache.None? && s.hasNan.None? && s.sumCache.None?
    {
      s := new Signatures.Signature(ty, data);
    }

    /**
     * `equals` (aesara/tensor/var.py:984-992): true exactly for a constant, or a
     * wrapped value, of the same type holding the same array.
     */
    method Equals(other: Operand, typeOf: Array -> TensorType) returns (b: bool)
      ensures b <==>
        || (other.Node? && ty == other.c.ty && data == other.c.data)
        || (other.Literal? && ty == typeOf(other.value) && data == other.value)
    {
      var o: TensorConstant;
      match other {
        case OtherObject =>
          return false;
        case Literal(v) =>
          o := new TensorConstant(typeOf(v), v, None);
        case Node(c) =>
          o := c;
      }
      var s0 := Signature();
      var s1 := o.Signature();
      b := s0.Equals(Sig(s1));
      SignaturesEqualIffSame(ty, data, o.ty, o.data);
    }

    /**
     * `__copy__` (aesara/tensor/var.py:994-996): a new constant of the same type,
     * data and name, its tag computed afresh; it equals the original.
     */
    method Copy() returns (c: TensorConstant)
      ensures fresh(c)
      ensures c.ty == ty && c.data == data && c.name == name
      ensures c.uniqueValue == UniqueValue(data)
      ensures SignaturesEqual(c.ty, c.data, ty, data)
    {
      c := new TensorConstant(ty, data, name);
      SignaturesEqualReflexive(ty, data);
    }
  }
}
