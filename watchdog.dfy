/**
 * `WatchDogQueue` of `scems-mcu-stm32`: a `SampleQueue<WatchDog, _, N>`
 * keyed by the raw IWDG handle on channel 0. Unlike the other kinds,
 * `WatchDog::new` and `alloc` do not check for null.
 */
module WatchDog {
  import opened Common
  import SQ = SampleQueue

  class WatchDogRegistry {
    /** A `WatchDog` is its handle alone. */
    const queue: SQ.SampleQueue<Ptr>

    ghost predicate Valid()
      reads queue.samples
    {
      queue.Valid() && (forall h: Ptr :: queue.handleOf(h) == h) && (forall h: Ptr :: queue.channelOf(h) == 0)
    }

    constructor (n: nat)
      ensures fresh(queue) && fresh(queue.samples) && queue.samples.Length == n
      ensures forall i :: 0 <= i < n ==> queue.samples[i] == None
      ensures Valid()
    {
      queue := new SQ.SampleQueue(n, (h: Ptr) => h, (h: Ptr) => 0);
    }

    /** `alloc`: the registry's `allocate` on the handle, null included. */
    method Alloc(handle: Ptr) returns (r: Result<nat>)
      requires Valid()
      modifies queue.samples
      ensures r == queue.AllocateSpec(old(queue.samples[..]), handle, 0).result
      ensures queue.samples[..] == queue.AllocateSpec(old(queue.samples[..]), handle, 0).slots
      ensures Valid()
    {
      r := queue.Allocate(handle);
    }

    /** `clean`: a null handle is ignored; otherwise the queue's `clean` as written. An empty queue panics. */
    method Clean(handle: Ptr)
      requires Valid() && queue.samples.Length >= 1
      modifies queue.samples
      ensures queue.samples[..] == if handle == NULL then old(queue.samples[..]) else queue.CleanedAsWritten(old(queue.samples[..]), handle, 0)
      ensures Valid()
    {
      if handle != NULL {
        queue.Clean(handle);
      }
    }

    /** `search`: `Param` for a null handle, otherwise the slot of the registered watchdog. */
    method Search(handle: Ptr) returns (r: Result<nat>)
      requires Valid()
      ensures r.Ok? ==> handle != NULL && r.value < queue.samples.Length && queue.samples[r.value] == Some(handle)
      ensures r.Err? <==> handle == NULL || queue.Find(queue.samples[..], handle, 0).None?
      ensures r.Err? ==> r.error == if handle == NULL then Param else InstanceNotFound
    {
      if handle == NULL {
        return Err(Param);
      }
      r := queue.Search(handle);
    }

    /**
     * A null handle is stored but never matched again: every `alloc(null)`
     * takes a fresh slot while one is free, and `search(null)` never finds it.
     */
    lemma NullAllocTakesFreshSlot(s: seq<Option<Ptr>>)
      requires Valid() && Packed(s) && PrefixLen(s) < |s|
      ensures queue.AllocateSpec(s, NULL, 0).result == Ok(PrefixLen(s))
      ensures PrefixLen(queue.AllocateSpec(s, NULL, 0).slots) == PrefixLen(s) + 1
      ensures queue.Find(queue.AllocateSpec(s, NULL, 0).slots, NULL, 0).None?
    {
      queue.UnmatchableTakesFreshSlot(s, NULL, 0);
      var t := queue.AllocateSpec(s, NULL, 0).slots;
      assert forall j :: 0 <= j < PrefixLen(t) ==> !queue.Matches(t[j].value, NULL, 0);
      queue.FindFromExact(t, NULL, 0, 0, PrefixLen(t), None);
    }
  }
}
