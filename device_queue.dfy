/**
 * `DeviceQueue<T, U, N>` of scems (`mcu::vendors::stm::common::device_queue`):
 * an array of `N` optional pointers to peripheral devices. A device is found
 * from the HAL handle pointer it wraps (`handle_ptr()`, the constant
 * `handleOf` of the device address); it is removed by its own address.
 * Unlike `SampleQueue`, scans cover every slot and removal leaves a hole.
 */
module DeviceQueue {
  import opened Common

  /** The first index `j >= i` of `s` whose element passes `f`. */
  function FirstFrom<X>(s: seq<X>, f: X -> bool, i: nat): (r: Option<nat>)
    requires i <= |s|
    ensures r.Some? ==> i <= r.value < |s| && f(s[r.value])
    ensures r.Some? ==> forall j :: i <= j < r.value ==> !f(s[j])
    ensures r.None? ==> forall j :: i <= j < |s| ==> !f(s[j])
    decreases |s| - i
  {
    if i == |s| then None
    else if f(s[i]) then Some(i)
    else FirstFrom(s, f, i + 1)
  }

  /** What `alloc` returns together with the slots it leaves behind. */
  datatype Outcome = Outcome(result: Result<()>, slots: seq<Option<Ptr>>)

  class DeviceQueue {
    const handleOf: Ptr -> Ptr
    const samples: array<Option<Ptr>>

    /** Slot `o` holds a non-null device whose handle is `h`. */
    predicate HoldsHandle(o: Option<Ptr>, h: Ptr)
    {
      o.Some? && o.value != NULL && handleOf(o.value) == h
    }

    /** No null device is stored and no two stored devices share a handle. */
    ghost predicate Distinct(s: seq<Option<Ptr>>)
    {
      (forall i :: 0 <= i < |s| && s[i].Some? ==> s[i].value != NULL) &&
      (forall i, j :: 0 <= i < j < |s| && s[i].Some? && s[j].Some? ==>
         handleOf(s[i].value) != handleOf(s[j].value))
    }

    ghost predicate Valid()
      reads samples
    {
      Distinct(samples[..])
    }

    /** `DeviceQueue::new`: all `n` slots empty. */
    constructor (n: nat, handleOf: Ptr -> Ptr)
      ensures this.handleOf == handleOf && fresh(samples) && samples.Length == n
      ensures forall i :: 0 <= i < n ==> samples[i] == None
      ensures Valid()
    {
      this.handleOf := handleOf;
      samples := new Option<Ptr>[n](_ => None);
    }

    /** The first slot holding a device with handle `h`. */
    function Lookup(s: seq<Option<Ptr>>, h: Ptr): Option<nat>
    {
      FirstFrom(s, o => HoldsHandle(o, h), 0)
    }

    /** The first empty slot. */
    function FreeSlot(s: seq<Option<Ptr>>): Option<nat>
    {
      FirstFrom(s, (o: Option<Ptr>) => o.None?, 0)
    }

    /** The first slot holding exactly device `v`. */
    function SlotOf(s: seq<Option<Ptr>>, v: Ptr): Option<nat>
    {
      FirstFrom(s, o => o == Some(v), 0)
    }

    /** The outcome of `alloc(v)` on slots `s`. */
    function AllocSpec(s: seq<Option<Ptr>>, v: Ptr): (a: Outcome)
      ensures |a.slots| == |s|
      ensures a.result.Err? ==> a.slots == s && a.result.error in {Param, StackOverflow}
    {
      if v == NULL then Outcome(Err(Param), s)
      else if Lookup(s, handleOf(v)).Some? then Outcome(Ok(()), s)
      else match FreeSlot(s)
        case Some(i) => Outcome(Ok(()), s[i := Some(v)])
        case None => Outcome(Err(StackOverflow), s)
    }

    /** The slots after `clean(v)`: the first slot holding exactly `v` is emptied. */
    function CleanSpec(s: seq<Option<Ptr>>, v: Ptr): (r: seq<Option<Ptr>>)
      ensures |r| == |s|
    {
      if v == NULL then s
      else match SlotOf(s, v)
        case Some(i) => s[i := None]
        case None => s
    }

    /** The result of `find(h)` on slots `s`. */
    function FindSpec(s: seq<Option<Ptr>>, h: Ptr): (r: Result<Ptr>)
      ensures r.Ok? ==> r.value != NULL && handleOf(r.value) == h && Some(r.value) in s
      ensures r.Err? ==> r.error in {Param, NotFound}
    {
      if h == NULL then Err(Param)
      else match Lookup(s, h)
        case Some(i) => Ok(s[i].value)
        case None => Err(NotFound)
    }

    /**
     * `alloc`: `Param` for a null device; nothing changes when a device with
     * the same handle is already stored; otherwise the first empty slot
     * takes it, or `StackOverflow` when there is none.
     */
    method Alloc(v: Ptr) returns (r: Result<()>)
      requires Valid()
      modifies samples
      ensures r == AllocSpec(old(samples[..]), v).result
      ensures samples[..] == AllocSpec(old(samples[..]), v).slots
      ensures Valid()
    {
      if v == NULL {
        return Err(Param);
      }
      var i := 0;
      while i < samples.Length
        invariant i <= samples.Length
        invariant forall j :: 0 <= j < i ==> !HoldsHandle(samples[j], handleOf(v))
      {
        if HoldsHandle(samples[i], handleOf(v)) {
          assert Lookup(samples[..], handleOf(v)).Some?;
          return Ok(());
        }
        i := i + 1;
      }
      assert Lookup(samples[..], handleOf(v)).None?;
      ghost var s := samples[..];
      i := 0;
      while i < samples.Length
        invariant i <= samples.Length
        invariant forall j :: 0 <= j < i ==> samples[j].Some?
      {
        if samples[i] == None {
          assert FreeSlot(s) == Some(i);
          samples[i] := Some(v);
          return Ok(());
        }
        i := i + 1;
      }
      assert FreeSlot(s).None?;
      return Err(StackOverflow);
    }

    /** `clean`: a null pointer is ignored; otherwise the first slot holding `v` is emptied. */
    method Clean(v: Ptr)
      requires Valid()
      modifies samples
      ensures samples[..] == CleanSpec(old(samples[..]), v)
      ensures Valid()
    {
      if v == NULL {
        return;
      }
      var i := 0;
      while i < samples.Length
        invariant i <= samples.Length
        invariant forall j :: 0 <= j < i ==> samples[j] != Some(v)
      {
        if samples[i] == Some(v) {
          assert SlotOf(samples[..], v) == Some(i);
          samples[i] := None;
          return;
        }
        i := i + 1;
      }
      assert SlotOf(samples[..], v).None?;
    }

    /** `find`: `Param` for a null handle, else the first device with handle `h`, else `NotFound`. */
    method Find(h: Ptr) returns (r: Result<Ptr>)
      ensures r == FindSpec(samples[..], h)
    {
      if h == NULL {
        return Err(Param);
      }
      var i := 0;
      while i < samples.Length
        invariant i <= samples.Length
        invariant forall j :: 0 <= j < i ==> !HoldsHandle(samples[j], h)
      {
        if HoldsHandle(samples[i], h) {
          assert Lookup(samples[..], h) == Some(i);
          return Ok(samples[i].value);
        }
        i := i + 1;
      }
      assert Lookup(samples[..], h).None?;
      return Err(NotFound);
    }

    // ---------------------------------------------------------------------
    // Properties
    // ---------------------------------------------------------------------

    /** Allocation keeps stored devices non-null with pairwise distinct handles. */
    lemma AllocDistinct(s: seq<Option<Ptr>>, v: Ptr)
      requires Distinct(s)
      ensures Distinct(AllocSpec(s, v).slots)
    {
      if v != NULL && Lookup(s, handleOf(v)).None? {
        var f := FreeSlot(s);
        if f.Some? {
          var r := s[f.value := Some(v)];
          assert forall i :: 0 <= i < |s| && i != f.value && s[i].Some? ==> handleOf(s[i].value) != handleOf(v) by {
            forall i | 0 <= i < |s| && i != f.value && s[i].Some?
              ensures handleOf(s[i].value) != handleOf(v)
            {
              assert !HoldsHandle(s[i], handleOf(v));
            }
          }
        }
      }
    }

    /** Removal keeps stored devices non-null with pairwise distinct handles. */
    lemma CleanDistinct(s: seq<Option<Ptr>>, v: Ptr)
      requires Distinct(s)
      ensures Distinct(CleanSpec(s, v))
    {
    }

    /**
     * After a successful allocation of a device with a non-null handle, the
     * handle finds a device with that handle: the new device itself unless
     * one with that handle was already stored.
     */
    lemma AllocThenFind(s: seq<Option<Ptr>>, v: Ptr)
      requires v != NULL && handleOf(v) != NULL && AllocSpec(s, v).result.Ok?
      ensures var r := FindSpec(AllocSpec(s, v).slots, handleOf(v));
              r.Ok? && handleOf(r.value) == handleOf(v) &&
              (Lookup(s, handleOf(v)).None? ==> r.value == v)
    {
      var h := handleOf(v);
      if Lookup(s, h).None? {
        var i := FreeSlot(s).value;
        var t := s[i := Some(v)];
        assert HoldsHandle(t[i], h);
        var k := Lookup(t, h);
        assert k.Some?;
        assert forall j :: 0 <= j < i ==> !HoldsHandle(t[j], h);
      }
    }

    /** After a stored device is removed, its handle finds nothing. */
    lemma CleanThenNotFound(s: seq<Option<Ptr>>, v: Ptr)
      requires Distinct(s) && v != NULL && handleOf(v) != NULL && Some(v) in s
      ensures FindSpec(CleanSpec(s, v), handleOf(v)) == Err(NotFound)
    {
      var f := SlotOf(s, v);
      var i := f.value;
      var t := s[i := None];
      forall j | 0 <= j < |t|
        ensures !HoldsHandle(t[j], handleOf(v))
      {
        if j != i && t[j].Some? {
          assert s[j].Some? && s[i].Some?;
        }
      }
    }

    /** `alloc` runs out of room exactly when the device is new and no slot is empty. */
    lemma AllocOverflowIff(s: seq<Option<Ptr>>, v: Ptr)
      ensures AllocSpec(s, v).result == Err(StackOverflow) <==>
              v != NULL && Lookup(s, handleOf(v)).None? && forall i :: 0 <= i < |s| ==> s[i].Some?
    {
      if v != NULL && Lookup(s, handleOf(v)).None? {
        var f := FreeSlot(s);
        if f.Some? {
          assert s[f.value].None?;
        }
      }
    }

    /** Removing a device that is not stored changes nothing. */
    lemma CleanAbsentUnchanged(s: seq<Option<Ptr>>, v: Ptr)
      requires Some(v) !in s
      ensures CleanSpec(s, v) == s
    {
      if v != NULL {
        assert forall j :: 0 <= j < |s| ==> s[j] != Some(v);
      }
    }
  }
}
