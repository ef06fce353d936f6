/**
 * `SimpleVector<T>`: a growable array that doubles its capacity when a
 * `PushBack` finds it full.
 */
module SimpleVector {
  class SimpleVector<T(0)> {
    var data: array<T>
    var size: nat
    var capacity: nat

    ghost predicate Valid()
      reads this
    {
      data.Length == capacity && size <= capacity
    }

    /** The elements in `[begin(), end())`. */
    ghost function Contents(): (s: seq<T>)
      reads this, data
      requires Valid()
      ensures |s| == size
    {
      data[..size]
    }

    /** `SimpleVector()`: no storage at all. */
    constructor ()
      ensures Valid() && size == 0 && capacity == 0
    {
      data := new T[0];
      size := 0;
      capacity := 0;
    }

    /** `SimpleVector(n)`: n default values, with no spare room. */
    constructor Sized(n: nat)
      ensures Valid() && size == n && capacity == n && fresh(data)
    {
      data := new T[n];
      size := n;
      capacity := n;
    }

    function Size(): (n: nat)
      reads this
      requires Valid()
      ensures n <= capacity && n == |Contents()|
    {
      size
    }

    function Capacity(): (n: nat)
      reads this
      requires Valid()
      ensures n >= size && n == data.Length
    {
      capacity
    }

    /** Reading `operator[]`, which does not check its index. */
    method Get(index: nat) returns (v: T)
      requires Valid() && index < size
      ensures v == Contents()[index]
    {
      v := data[index];
    }

    /** Writing through `operator[]`, which does not check its index. */
    method Set(index: nat, v: T)
      requires Valid() && index < size
      modifies data
      ensures Valid() && Contents() == old(Contents())[index := v]
    {
      data[index] := v;
    }

    /** The capacity a full vector of capacity c grows to. */
    static function GrownCapacity(c: nat): (n: nat)
      ensures n > c
      ensures c == 0 ==> n == 1
      ensures c > 0 ==> n == 2 * c
    {
      if c == 0 then 1 else 2 * c
    }

    method PushBack(value: T)
      requires Valid()
      modifies this, data
      ensures Valid()
      ensures Contents() == old(Contents()) + [value]
      ensures capacity == if old(size) == old(capacity) then GrownCapacity(old(capacity)) else old(capacity)
      ensures old(size) < old(capacity) ==> data == old(data)
      ensures old(size) == old(capacity) ==> fresh(data)
    {
      if size == capacity {
        var newCapacity := GrownCapacity(capacity);
        var newData := new T[newCapacity];
        var i := 0;
        while i < size
          modifies newData
          invariant 0 <= i <= size
          invariant newData[..i] == data[..i]
        {
          newData[i] := data[i];
          i := i + 1;
        }
        data := newData;
        capacity := newCapacity;
      }
      data[size] := value;
      size := size + 1;
    }
  }
}
