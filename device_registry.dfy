/**
 * The per-kind registries of `scems-mcu-stm32` that hold a peripheral
 * object by value: `UartQueue`, `SpiQueue` and `AdcQueue` over a
 * `SampleQueue<Uart | Spi | Adc, _, N>` with channel 0. Every such object is
 * a non-null HAL handle plus the agent its `set_event_agent` stored; the
 * `&'static mut` a registry hands out is the index of its slot, and the
 * agent is set and cleared through it. Each HAL callback shim looks the
 * handle up and calls one method of the stored agent, if any.
 */
module DeviceRegistry {
  import opened Common
  import SQ = SampleQueue

  /**
   * A `Uart`, `Spi`, `Adc` or `Can` value: its handle, its `event_handle`,
   * and whatever else the kind keeps (`()` for most; the FIFO and the
   * asynchronous destination for CAN).
   */
  datatype Device<X> = Device(handle: Ptr, agent: Option<AgentId>, extra: X)

  /** `Uart::new` / `Spi::new` / `Adc::new` / `Can::new`: a null handle is refused with `Param`; a new object has no agent. */
  function NewDevice<X>(handle: Ptr, extra: X): (r: Result<Device<X>>)
    ensures r.Err? <==> handle == NULL
    ensures r.Err? ==> r.error == Param
    ensures r.Ok? ==> r.value.handle == handle && r.value.agent.None? && r.value.extra == extra
  {
    if handle == NULL then Err(Param) else Ok(Device(handle, None, extra))
  }

  class Registry<X> {
    const queue: SQ.SampleQueue<Device<X>>

    /** The queue is packed, keyed by the device's handle, with every device on channel 0. */
    ghost predicate Valid()
      reads queue.samples
    {
      queue.Valid() &&
      queue.handleOf == ((d: Device<X>) => d.handle) &&
      queue.channelOf == ((d: Device<X>) => 0)
    }

    /** The `static mut` queue of `n` (`UART_COUNT`, `SPI_COUNT`, `ADC_COUNT`, `CAN_COUNT`) empty slots. */
    constructor (n: nat)
      ensures fresh(queue) && fresh(queue.samples) && queue.samples.Length == n
      ensures forall i :: 0 <= i < n ==> queue.samples[i] == None
      ensures Valid()
    {
      queue := new SQ.SampleQueue(n, (d: Device<X>) => d.handle, (d: Device<X>) => 0);
    }

    /** No two stored devices share a handle. */
    ghost predicate UniqueHandles(s: seq<Option<Device<X>>>)
    {
      forall i, j :: 0 <= i < j < |s| && s[i].Some? && s[j].Some? ==> s[i].value.handle != s[j].value.handle
    }

    /** The outcome of `allocate(handle)`: `new` first, then `allocate` on channel 0. */
    function AllocateSpec(s: seq<Option<Device<X>>>, handle: Ptr, extra: X): (a: SQ.Alloc<Device<X>>)
      ensures |a.slots| == |s|
      ensures a.result.Err? ==> a.slots == s && a.result.error in {Param, StackOverflow}
      ensures handle == NULL <==> a.result == Err(Param)
    {
      match NewDevice(handle, extra)
      case Err(e) => SQ.Alloc(Err(e), s)
      case Ok(d) => queue.AllocateSpec(s, d, 0)
    }

    /** The slot the shims use for `handle`: none for a null handle. */
    function Slot(s: seq<Option<Device<X>>>, handle: Ptr): (r: Option<nat>)
      ensures r.Some? ==> r.value < PrefixLen(s) && s[r.value].Some? && queue.Matches(s[r.value].value, handle, 0)
      ensures handle == NULL ==> r.None?
    {
      if handle == NULL then None else queue.Find(s, handle, 0)
    }

    /**
     * The calls a shim makes for `handle` with agent method `e`: one call to
     * the agent of the registered device, none when the handle is null, not
     * registered, or registered without an agent.
     */
    function Notified(s: seq<Option<Device<X>>>, handle: Ptr, e: Event): (calls: seq<Call>)
      ensures |calls| <= 1
      ensures forall c :: c in calls ==> c.event == e
      ensures |calls| == 1 <==> Slot(s, handle).Some? && s[Slot(s, handle).value].value.agent.Some?
    {
      match Slot(s, handle)
      case None => []
      case Some(i) => Deliver(s[i].value.agent, e)
    }

    /** `allocate`: `Param` for a null handle, otherwise the registry's `allocate`. */
    method Allocate(handle: Ptr, extra: X) returns (r: Result<nat>)
      requires Valid()
      modifies queue.samples
      ensures r == AllocateSpec(old(queue.samples[..]), handle, extra).result
      ensures queue.samples[..] == AllocateSpec(old(queue.samples[..]), handle, extra).slots
      ensures Valid()
    {
      var d := NewDevice(handle, extra);
      match d {
        case Err(e) =>
          return Err(e);
        case Ok(dev) =>
          r := queue.Allocate(dev);
      }
    }

    /**
     * `clean`: a null handle is ignored; otherwise the queue's `clean` as
     * written, which stops before the last slot. An empty queue panics.
     */
    method Clean(handle: Ptr)
      requires Valid() && queue.samples.Length >= 1
      modifies queue.samples
      ensures queue.samples[..] == if handle == NULL then old(queue.samples[..]) else queue.CleanedAsWritten(old(queue.samples[..]), handle, 0)
      ensures Valid()
    {
      if handle != NULL {
        queue.Clean(handle);
      }
    }

    /** `search`: `Param` for a null handle, otherwise the slot of the registered device. */
    method Search(handle: Ptr) returns (r: Result<nat>)
      ensures r.Ok? <==> Slot(queue.samples[..], handle).Some?
      ensures r.Ok? ==> r.value == Slot(queue.samples[..], handle).value
      ensures r.Err? ==> r.error == if handle == NULL then Param else InstanceNotFound
    {
      if handle == NULL {
        return Err(Param);
      }
      r := queue.Search(handle);
    }

    /** `set_event_agent` through the `&mut` of slot `i`: only that device's agent changes. */
    method SetEventAgent(i: nat, a: AgentId)
      requires Valid() && i < queue.samples.Length && queue.samples[i].Some?
      modifies queue.samples
      ensures queue.samples[..] == old(queue.samples[..])[i := Some(old(queue.samples[i].value).(agent := Some(a)))]
      ensures Valid()
    {
      queue.Update(i, queue.samples[i].value.(agent := Some(a)));
    }

    /** `clean_event_agent` through the `&mut` of slot `i`: the device stays registered without an agent. */
    method CleanEventAgent(i: nat)
      requires Valid() && i < queue.samples.Length && queue.samples[i].Some?
      modifies queue.samples
      ensures queue.samples[..] == old(queue.samples[..])[i := Some(old(queue.samples[i].value).(agent := None))]
      ensures Valid()
    {
      queue.Update(i, queue.samples[i].value.(agent := None));
    }

    /** The body shared by every shim: `search(handle)`, then the agent's method `e`. */
    method Notify(handle: Ptr, e: Event) returns (calls: seq<Call>)
      requires Valid()
      ensures calls == Notified(queue.samples[..], handle, e)
    {
      var r := Search(handle);
      match r {
        case Err(_) =>
          calls := [];
        case Ok(i) =>
          calls := Deliver(queue.samples[i].value.agent, e);
      }
    }

    // ---------------------------------------------------------------------
    // Properties
    // ---------------------------------------------------------------------

    /** Changing only the agent of a device leaves every lookup where it was. */
    lemma AgentChangeKeepsSlots(s: seq<Option<Device<X>>>, i: nat, o: Option<AgentId>, handle: Ptr)
      requires Valid() && i < |s| && s[i].Some?
      ensures Slot(s[i := Some(s[i].value.(agent := o))], handle) == Slot(s, handle)
    {
      var s' := s[i := Some(s[i].value.(agent := o))];
      PrefixLenSameShape(s, s');
      if handle != NULL {
        var r := queue.Find(s, handle, 0);
        assert forall j :: 0 <= j < PrefixLen(s) ==> (queue.Matches(s'[j].value, handle, 0) <==> queue.Matches(s[j].value, handle, 0));
        queue.FindFromExact(s', handle, 0, 0, PrefixLen(s'), r);
      }
    }

    /**
     * After `allocate(handle)` succeeds and the agent is set through the slot
     * it returned, every shim for that handle calls exactly that agent once.
     */
    lemma AllocateSetThenNotify(s: seq<Option<Device<X>>>, handle: Ptr, extra: X, a: AgentId, e: Event)
      requires Valid() && Packed(s) && AllocateSpec(s, handle, extra).result.Ok?
      ensures var al := AllocateSpec(s, handle, extra);
              var i := al.result.value;
              Notified(al.slots[i := Some(al.slots[i].value.(agent := Some(a)))], handle, e) == [Call(a, e)]
    {
      var d := Device(handle, None, extra);
      var al := AllocateSpec(s, handle, extra);
      var i := al.result.value;
      queue.AllocateThenFind(s, d, 0);
      AgentChangeKeepsSlots(al.slots, i, Some(a), handle);
    }

    /** Clearing the agent silences the shims for that handle while the device stays registered. */
    lemma CleanAgentThenSilent(s: seq<Option<Device<X>>>, i: nat, handle: Ptr, e: Event)
      requires Valid() && Slot(s, handle) == Some(i)
      ensures Slot(s[i := Some(s[i].value.(agent := None))], handle) == Some(i)
      ensures Notified(s[i := Some(s[i].value.(agent := None))], handle, e) == []
    {
      AgentChangeKeepsSlots(s, i, None, handle);
    }

    /** Allocation never registers a second device with a handle already present. */
    lemma AllocateKeepsHandlesUnique(s: seq<Option<Device<X>>>, handle: Ptr, extra: X)
      requires Valid() && Packed(s) && UniqueHandles(s)
      ensures UniqueHandles(AllocateSpec(s, handle, extra).slots)
    {
      var p := PrefixLen(s);
      if handle != NULL && queue.Find(s, handle, 0).None? && p < |s| {
        PackedTail(s);
        forall k | 0 <= k < |s| && s[k].Some?
          ensures s[k].value.handle != handle
        {
          assert k < p;
          assert !queue.Matches(s[k].value, handle, 0);
        }
      }
    }

    /**
     * While a slot is free, after `clean(handle)` on a registry with unique
     * handles the handle is no longer found and every shim for it is silent.
     */
    lemma CleanThenSilent(s: seq<Option<Device<X>>>, handle: Ptr, e: Event)
      requires Valid() && Packed(s) && UniqueHandles(s) && handle != NULL && PrefixLen(s) < |s|
      ensures Slot(queue.CleanedAsWritten(s, handle, 0), handle).None?
      ensures Notified(queue.CleanedAsWritten(s, handle, 0), handle, e) == []
    {
      queue.CleanAgreesWhenNotFull(s, handle, 0);
      CorrectedCleanThenSilent(s, handle, e);
    }

    /**
     * Finding: on a full registry, `clean` of the device in the last slot
     * removes nothing, and its shims still call its agent.
     */
    lemma FullCleanKeepsLastCalling(s: seq<Option<Device<X>>>, handle: Ptr, e: Event)
      requires Valid() && |s| >= 1 && PrefixLen(s) == |s| && handle != NULL
      requires Slot(s, handle) == Some(|s| - 1) && s[|s| - 1].value.agent.Some?
      ensures queue.CleanedAsWritten(s, handle, 0) == s
      ensures Notified(queue.CleanedAsWritten(s, handle, 0), handle, e) == [Call(s[|s| - 1].value.agent.value, e)]
    {
      queue.CleanMissesLastSlot(s, handle, 0);
    }

    /**
     * Finding: on a full registry, `clean` of a device before the last slot
     * stores the last device twice, so handles are no longer unique.
     */
    lemma FullCleanDuplicatesHandle(s: seq<Option<Device<X>>>, handle: Ptr)
      requires Valid() && |s| >= 2 && PrefixLen(s) == |s| && handle != NULL
      requires Slot(s, handle).Some? && Slot(s, handle).value < |s| - 1
      ensures !UniqueHandles(queue.CleanedAsWritten(s, handle, 0))
    {
      queue.CleanDuplicatesLastEntry(s, handle, 0);
      var r := queue.CleanedAsWritten(s, handle, 0);
      assert r[|s| - 2].Some? && r[|s| - 1].Some? && r[|s| - 2].value.handle == r[|s| - 1].value.handle;
    }

    /** With the intended removal, after `clean(handle)` on a registry with unique handles, every shim for that handle is silent. */
    lemma CorrectedCleanThenSilent(s: seq<Option<Device<X>>>, handle: Ptr, e: Event)
      requires Valid() && Packed(s) && UniqueHandles(s) && handle != NULL
      ensures Slot(queue.Cleaned(s, handle, 0), handle).None?
      ensures Notified(queue.Cleaned(s, handle, 0), handle, e) == []
    {
      var r := queue.Cleaned(s, handle, 0);
      match queue.Find(s, handle, 0) {
        case None =>
          queue.CleanedAbsentUnchanged(s, handle, 0);
        case Some(k) =>
          queue.CleanedRemovesFirstMatch(s, handle, 0);
          var p := PrefixLen(s);
          forall j | 0 <= j < PrefixLen(r)
            ensures !queue.Matches(r[j].value, handle, 0)
          {
            if j < k {
              assert r[j] == s[j];
            } else {
              assert r[j] == s[j + 1];
              assert s[j + 1].value.handle != s[k].value.handle;
            }
          }
          queue.FindFromExact(r, handle, 0, 0, PrefixLen(r), None);
      }
    }

    /** Once allocation has failed for a full queue, a handle that was not registered stays silent. */
    lemma OverflowThenSilent(s: seq<Option<Device<X>>>, handle: Ptr, extra: X, e: Event)
      requires Valid() && AllocateSpec(s, handle, extra).result.Err?
      ensures Notified(AllocateSpec(s, handle, extra).slots, handle, e) == []
    {
      if handle != NULL {
        assert queue.Find(s, handle, 0).None?;
      }
    }
  }
}
