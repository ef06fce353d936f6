/**
 * `ObjectPool<T>`: hands out objects, reusing deallocated ones in the order
 * they were returned. Objects are modelled by their identities (the addresses
 * of the objects); a fresh identity stands for `new T()`.
 */
module ObjectPool {
  import opened Wrappers

  /** The exception `Deallocate` throws: `invalid_argument`. */
  datatype Exception = InvalidArgument

  type Object = nat

  /** No identity occurs twice in `q`. */
  predicate NoDuplicates(q: seq<Object>)
  {
    forall i, j :: 0 <= i < j < |q| ==> q[i] != q[j]
  }

  class ObjectPool {
    /** `objects_`: the objects handed out and not yet returned. */
    var inUse: set<Object>
    /** `pool_`: the returned objects, oldest first. */
    var free: seq<Object>
    /** Every identity below `created` has been created by `new T()`. */
    var created: Object

    ghost predicate Valid()
      reads this
    {
      NoDuplicates(free) &&
      (forall i :: 0 <= i < |free| ==> free[i] !in inUse && free[i] < created) &&
      (forall o :: o in inUse ==> o < created)
    }

    constructor ()
      ensures Valid() && inUse == {} && free == []
    {
      inUse, free, created := {}, [], 0;
    }

    /** Reuses the earliest returned object, or creates one when none is free. */
    method Allocate() returns (obj: Object)
      requires Valid()
      modifies this
      ensures Valid()
      ensures old(free) != [] ==> obj == old(free)[0] && free == old(free)[1..]
      ensures old(free) == [] ==> obj !in old(inUse) && free == []
      ensures inUse == old(inUse) + {obj}
      ensures obj !in old(inUse)
    {
      if free == [] {
        obj := created;
        created := created + 1;
      } else {
        obj := free[0];
        free := free[1..];
      }
      inUse := inUse + {obj};
    }

    /** Like `Allocate`, but returns null (`None`) and changes nothing when no object is free. */
    method TryAllocate() returns (obj: Option<Object>)
      requires Valid()
      modifies this
      ensures Valid()
      ensures obj.None? <==> old(free) == []
      ensures obj.None? ==> inUse == old(inUse) && free == old(free)
      ensures obj.Some? ==> obj.value == old(free)[0] && free == old(free)[1..]
      ensures obj.Some? ==> inUse == old(inUse) + {obj.value} && obj.value !in old(inUse)
    {
      if free == [] {
        return None;
      }
      var o := free[0];
      free := free[1..];
      inUse := inUse + {o};
      obj := Some(o);
    }

    /** Returns `obj` to the back of the free queue; throws when it is not inUse. */
    method Deallocate(obj: Object) returns (r: Result<(), Exception>)
      requires Valid()
      modifies this
      ensures Valid()
      ensures r.Err? <==> obj !in old(inUse)
      ensures r.Err? ==> inUse == old(inUse) && free == old(free)
      ensures r.Ok? ==> inUse == old(inUse) - {obj} && free == old(free) + [obj]
    {
      if obj !in inUse {
        return Err(InvalidArgument);
      }
      inUse := inUse - {obj};
      free := free + [obj];
      return Ok(());
    }
  }

  /** `TestObjectPool`: returned objects come back in the order they were returned. */
  method TestObjectPool() returns (second: Object, third: Object, first: Object, p1: Object, p2: Object, p3: Object)
    ensures second == p2 && third == p3 && first == p1
    ensures p1 != p2 && p2 != p3 && p1 != p3
  {
    var pool := new ObjectPool();
    p1 := pool.Allocate();
    p2 := pool.Allocate();
    p3 := pool.Allocate();
    var r := pool.Deallocate(p2);
    second := pool.Allocate();
    r := pool.Deallocate(p3);
    r := pool.Deallocate(p1);
    third := pool.Allocate();
    first := pool.Allocate();
    r := pool.Deallocate(p1);
    assert r.Ok?;
  }
}
