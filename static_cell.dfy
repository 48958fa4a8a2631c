/**
 * `StaticCell<T>`: a value written at most once. An atomic `state`
 * (0 unset, 1 set) guards the single write; `get` sees the value only once
 * the state is set.
 */
module StaticCell {
  import opened Common

  class StaticCell<T> {
    /** The `AtomicU8` state: 0 before the first `set`, 1 after it. */
    var state: nat
    /** The `MaybeUninit` slot: `None` while uninitialised. */
    var value: Option<T>

    /** The slot is initialised exactly when the state is 1. */
    ghost predicate Valid()
      reads this
    {
      (state == 0 && value.None?) || (state == 1 && value.Some?)
    }

    /** `StaticCell::new`: unset. */
    constructor ()
      ensures Valid() && state == 0 && value.None?
    {
      state := 0;
      value := None;
    }

    /**
     * `set`: the first call moves the state from 0 to 1, stores `v` and
     * returns it; every later call is `InstanceDuplicate` and changes
     * nothing.
     */
    method Set(v: T) returns (r: Result<T>)
      requires Valid()
      modifies this
      ensures Valid()
      ensures old(state) == 0 ==> r == Ok(v) && value == Some(v)
      ensures old(state) != 0 ==> r == Err(InstanceDuplicate) && state == old(state) && value == old(value)
    {
      if state != 0 {
        return Err(InstanceDuplicate);
      }
      state := 1;
      value := Some(v);
      return Ok(v);
    }

    /** `get`: the stored value once set, `None` before. */
    method Get() returns (r: Option<T>)
      requires Valid()
      ensures r.None? <==> state == 0
      ensures r.Some? ==> value == Some(r.value)
    {
      if state != 0 {
        return Some(value.value);
      }
      return None;
    }
  }

  /** Two `set`s on a fresh cell: the second fails and `get` still sees the first value. */
  method SetTwice<T>(a: T, b: T) returns (first: Result<T>, second: Result<T>, seen: Option<T>)
    ensures first == Ok(a) && second == Err(InstanceDuplicate) && seen == Some(a)
  {
    var c := new StaticCell<T>();
    first := c.Set(a);
    second := c.Set(b);
    seen := c.Get();
  }
}
