/**
 * `StackVector<T, N>`: a vector of at most N elements kept in a fixed array,
 * whose operations throw once the bound or the size is crossed.
 */
module StackVector {
  import opened Wrappers

  /** The exceptions the source throws: `invalid_argument`, `overflow_error`, `underflow_error`. */
  datatype Exception = InvalidArgument | OverflowError | UnderflowError

  class StackVector<T(0)> {
    /** The template parameter N. */
    const capacity: nat
    /** The fixed array `array_`; only its first `size` cells are elements. */
    const data: array<T>
    var size: nat

    ghost predicate Valid()
      reads this
    {
      data.Length == capacity && size <= capacity
    }

    /** The elements, in order. */
    ghost function Contents(): (s: seq<T>)
      reads this, data
      requires Valid()
      ensures |s| == size
    {
      data[..size]
    }

    constructor Empty(n: nat)
      ensures Valid() && fresh(data) && capacity == n && size == 0
    {
      capacity := n;
      data := new T[n];
      size := 0;
    }

    /** `StackVector(a_size)`: throws `invalid_argument` when a_size exceeds N. */
    static method New(n: nat, aSize: nat) returns (r: Result<StackVector<T>, Exception>)
      ensures r.Err? <==> aSize > n
      ensures r.Err? ==> r.error == InvalidArgument
      ensures r.Ok? ==> fresh(r.value) && fresh(r.value.data) && r.value.Valid()
      ensures r.Ok? ==> r.value.capacity == n && r.value.size == aSize
    {
      var v := new StackVector<T>.Empty(n);
      if aSize > n {
        return Err(InvalidArgument);
      }
      v.size := aSize;
      return Ok(v);
    }

    function Size(): (n: nat)
      reads this
      requires Valid()
      ensures n <= capacity
    {
      size
    }

    function Capacity(): (n: nat)
      reads this
      requires Valid()
      ensures n == data.Length && n >= size
    {
      capacity
    }

    /** Reading `operator[]`: the element at `index`, or `invalid_argument` when index >= size. */
    method Get(index: nat) returns (r: Result<T, Exception>)
      requires Valid()
      ensures r.Ok? <==> index < size
      ensures r.Ok? ==> r.value == Contents()[index]
      ensures r.Err? ==> r.error == InvalidArgument
    {
      if index >= size {
        return Err(InvalidArgument);
      }
      return Ok(data[index]);
    }

    /** Writing through `operator[]`: replaces one element, or throws `invalid_argument`. */
    method Set(index: nat, value: T) returns (r: Result<(), Exception>)
      requires Valid()
      modifies data
      ensures Valid()
      ensures r.Ok? <==> index < size
      ensures r.Err? ==> r.error == InvalidArgument && Contents() == old(Contents())
      ensures r.Ok? ==> Contents() == old(Contents())[index := value]
    {
      if index >= size {
        return Err(InvalidArgument);
      }
      data[index] := value;
      return Ok(());
    }

    /** Appends `value`, or throws `overflow_error` when the vector already holds N elements. */
    method PushBack(value: T) returns (r: Result<(), Exception>)
      requires Valid()
      modifies this, data
      ensures Valid()
      ensures r.Err? <==> old(size) >= capacity
      ensures r.Err? ==> r.error == OverflowError && size == old(size) && Contents() == old(Contents())
      ensures r.Ok? ==> size == old(size) + 1 && Contents() == old(Contents()) + [value]
    {
      if size >= capacity {
        return Err(OverflowError);
      }
      data[size] := value;
      size := size + 1;
      return Ok(());
    }

    /** Removes and returns the last element, or throws `underflow_error` when empty. */
    method PopBack() returns (r: Result<T, Exception>)
      requires Valid()
      modifies this
      ensures Valid()
      ensures r.Err? <==> old(size) == 0
      ensures r.Err? ==> r.error == UnderflowError && size == 0
      ensures r.Ok? ==> size == old(size) - 1 && r.value == old(Contents())[size]
      ensures r.Ok? ==> Contents() == old(Contents())[..size]
    {
      if size == 0 {
        return Err(UnderflowError);
      }
      size := size - 1;
      return Ok(data[size]);
    }

    /** `PushBack(v)` then `PopBack()` on a vector with room gives back v and the old contents. */
    method PushThenPop(value: T) returns (r: Result<T, Exception>)
      requires Valid() && size < capacity
      modifies this, data
      ensures Valid()
      ensures r == Ok(value) && size == old(size) && Contents() == old(Contents())
    {
      var pushed := PushBack(value);
      r := PopBack();
    }
  }
}
