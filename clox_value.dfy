/**
 * clox values (value.c): the tagged value, equality between values and the
 * growable constant array.
 */
module CloxValue {
  import opened CloxGrow

  /** The address of a heap object; two object values are the same object when their addresses agree. */
  type ObjRef = nat

  /** No address occurs twice in a list of objects. */
  predicate NoDuplicates(s: seq<ObjRef>) {
    forall i, j :: 0 <= i < j < |s| ==> s[i] != s[j]
  }

  /** A C double, as its IEEE 754 binary64 bit pattern. */
  type Number = bv64

  datatype Value = BoolVal(boolean: bool) | NilVal | NumberVal(number: Number) | ObjVal(obj: ObjRef)

  /** A string object: its address, its length, its character buffer and its cached hash. */
  datatype ObjString = ObjString(addr: ObjRef, length: nat, chars: seq<bv8>, hash: bv32)

  predicate IsNaN(x: Number) {
    (x >> 52) & 0x7FF == 0x7FF && x & 0xF_FFFF_FFFF_FFFF != 0
  }

  predicate IsZero(x: Number) {
    x & 0x7FFF_FFFF_FFFF_FFFF == 0
  }

  /** C's == on two doubles: a NaN equals nothing, and the two zeros are equal. */
  predicate NumbersEqual(a: Number, b: Number) {
    !IsNaN(a) && !IsNaN(b) && (a == b || (IsZero(a) && IsZero(b)))
  }

  /**
   * valuesEqual: values of different types are never equal; away from
   * numbers the comparison is plain equality of the payload (an object by
   * its address), and numbers compare as doubles.
   */
  function ValuesEqual(a: Value, b: Value): (r: bool)
    ensures r ==> (a.BoolVal? <==> b.BoolVal?) && (a.NilVal? <==> b.NilVal?)
                  && (a.NumberVal? <==> b.NumberVal?) && (a.ObjVal? <==> b.ObjVal?)
    ensures !a.NumberVal? ==> (r <==> a == b)
    ensures a.ObjVal? && b.ObjVal? ==> (r <==> a.obj == b.obj)
  {
    match a
    case BoolVal(x) => b.BoolVal? && x == b.boolean
    case NilVal => b.NilVal?
    case NumberVal(x) => b.NumberVal? && NumbersEqual(x, b.number)
    case ObjVal(o) => b.ObjVal? && o == b.obj
  }

  /** Equality is symmetric. */
  lemma ValuesEqualSymmetric(a: Value, b: Value)
    ensures ValuesEqual(a, b) == ValuesEqual(b, a)
  {
  }

  /** Every value equals itself, except a number that is NaN. */
  lemma ValuesEqualReflexive(v: Value)
    ensures ValuesEqual(v, v) <==> !(v.NumberVal? && IsNaN(v.number))
  {
  }

  /** The bit patterns of +0.0 and -0.0 differ, yet the two values are equal. */
  lemma SignedZerosEqual()
    ensures NumberVal(0x8000_0000_0000_0000) != NumberVal(0)
    ensures ValuesEqual(NumberVal(0x8000_0000_0000_0000), NumberVal(0))
  {
  }

  /**
   * ValueArray: the constants of a chunk. `values` is the live prefix of the
   * buffer; `capacity` is the size of the buffer behind it.
   */
  class ValueArray {
    var capacity: nat
    var count: nat
    var values: seq<Value>

    ghost predicate Valid()
      reads this
    {
      count == |values| <= capacity && IsBufferCapacity(capacity)
    }

    /** initValueArray on fresh storage. */
    constructor ()
      ensures Valid() && values == [] && capacity == 0
    {
      capacity, count, values := 0, 0, [];
    }

    /** writeValueArray: grow a full buffer by GROW_CAPACITY, then append. */
    method Write(value: Value)
      requires Valid()
      modifies this
      ensures Valid()
      ensures values == old(values) + [value]
      ensures capacity == if old(capacity) < old(count) + 1 then GrowCapacity(old(capacity)) else old(capacity)
    {
      if capacity < count + 1 {
        capacity := GrowCapacity(capacity);
      }
      values := values + [value];
      count := count + 1;
    }

    /** freeValueArray: release the buffer and start over empty. */
    method Free()
      modifies this
      ensures Valid() && values == [] && capacity == 0
    {
      capacity, count, values := 0, 0, [];
    }
  }
}
