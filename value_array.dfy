/**
 * Growth of heap arrays (lib/memory.h, which is not part of this model: its
 * GROW_CAPACITY and GROW_ARRAY macros are given here the definitions the rest
 * of the code relies on).
 */
module Growth {

  /** GROW_CAPACITY: start at 8 slots, then double. */
  function GrowCapacity(capacity: nat): (r: nat)
    ensures r > capacity && r >= 8
    ensures capacity >= 8 ==> r == 2 * capacity
  {
    if capacity < 8 then 8 else capacity * 2
  }

  /**
   * GROW_ARRAY / realloc: a fresh array of the new length whose first
   * elements are those of the old one.
   */
  method Reallocate<T(0)>(a: array<T>, newLength: nat) returns (b: array<T>)
    requires a.Length <= newLength
    ensures fresh(b) && b.Length == newLength
    ensures b[..a.Length] == a[..]
  {
    b := new T[newLength];
    var i := 0;
    while i < a.Length
      invariant 0 <= i <= a.Length
      invariant b[..i] == a[..i]
    {
      b[i] := a[i];
      i := i + 1;
    }
  }
}

/**
 * The growable value array of value.c (value_array_t): `count` values stored
 * in a buffer of `capacity` slots, grown on demand.
 */
module ValueArrays {
  import opened Values
  import opened Growth

  class ValueArray {
    var values: array<Value>
    var capacity: nat
    var count: nat

    /** The buffer holds `capacity` slots and the first `count` are in use. */
    ghost predicate Valid()
      reads this
    {
      values.Length == capacity && count <= capacity
    }

    /** The values stored so far, in append order. */
    ghost function Contents(): seq<Value>
      reads this, values
      requires Valid()
    {
      values[..count]
    }

    /** l_init_value_array: no buffer, nothing stored. */
    constructor ()
      ensures Valid() && fresh(values)
      ensures capacity == 0 && count == 0 && Contents() == []
    {
      values := new Value[0];
      capacity := 0;
      count := 0;
    }

    /**
     * l_write_value_array: grow the buffer when it is full, then store the
     * value at the old count. Earlier values are left as they were.
     */
    method Write(value: Value)
      requires Valid()
      modifies this, values
      ensures Valid()
      ensures values == old(values) || fresh(values)
      ensures count == old(count) + 1
      ensures Contents() == old(Contents()) + [value]
      ensures capacity == if old(capacity) < old(count) + 1 then GrowCapacity(old(capacity)) else old(capacity)
    {
      if capacity < count + 1 {
        var oldCapacity := capacity;
        capacity := GrowCapacity(oldCapacity);
        values := Reallocate(values, capacity);
      }
      values[count] := value;
      count := count + 1;
    }

    /** l_free_value_array: release the buffer and return to the initial state. */
    method Free()
      requires Valid()
      modifies this
      ensures Valid() && fresh(values)
      ensures capacity == 0 && count == 0 && Contents() == []
    {
      values := new Value[0];
      capacity := 0;
      count := 0;
    }
  }
}
