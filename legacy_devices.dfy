/**
 * The wrapper layers of the `scems` crate (`UartDevice`, `Spi` /
 * `SpiDevice`, `AdcDevice`, `CanDevice`): each device object owns its HAL
 * handle and its `event_handle`, and registers its own address in a
 * `static mut` `DeviceQueue` (`UARTS`, `SPIS`, `ADCS`, `CANS`) when an
 * agent is set. A shim finds the device from the HAL handle and calls the
 * device's agent. Device objects are identified by address; `agents` holds
 * the `event_handle` field of the device at each address (absent means
 * the `None` a new device starts with). `Drop` calls `clean_event_agent`.
 */
module LegacyDevices {
  import opened Common
  import DQ = DeviceQueue

  class DeviceTable {
    const queue: DQ.DeviceQueue
    var agents: map<Ptr, Option<AgentId>>

    ghost predicate Valid()
      reads queue.samples
    {
      queue.Valid()
    }

    /** The `static mut` table of `n` empty slots; no device has an agent yet. */
    constructor (n: nat, handleOf: Ptr -> Ptr)
      ensures fresh(queue) && fresh(queue.samples) && queue.samples.Length == n
      ensures queue.handleOf == handleOf
      ensures forall i :: 0 <= i < n ==> queue.samples[i] == None
      ensures agents == map[]
      ensures Valid()
    {
      queue := new DQ.DeviceQueue(n, handleOf);
      agents := map[];
    }

    /** The `event_handle` of the device at address `dev`. */
    function AgentOf(m: map<Ptr, Option<AgentId>>, dev: Ptr): Option<AgentId>
    {
      if dev in m then m[dev] else None
    }

    /**
     * The calls a shim makes for HAL handle `h` with agent method `e`: one
     * call to the agent of the first registered device with that handle;
     * none for a null or unregistered handle or a device without an agent.
     */
    function Notified(s: seq<Option<Ptr>>, m: map<Ptr, Option<AgentId>>, h: Ptr, e: Event): (calls: seq<Call>)
      ensures |calls| <= 1
      ensures forall c :: c in calls ==> c.event == e
      ensures |calls| == 1 <==> queue.FindSpec(s, h).Ok? && AgentOf(m, queue.FindSpec(s, h).value).Some?
    {
      match queue.FindSpec(s, h)
      case Err(_) => []
      case Ok(dev) => Deliver(AgentOf(m, dev), e)
    }

    /** `set_event_agent`: the device's agent is stored, then its address is registered; the result is `alloc`'s. */
    method SetEventAgent(dev: Ptr, a: AgentId) returns (r: Result<()>)
      requires Valid()
      modifies this, queue.samples
      ensures agents == old(agents)[dev := Some(a)]
      ensures r == queue.AllocSpec(old(queue.samples[..]), dev).result
      ensures queue.samples[..] == queue.AllocSpec(old(queue.samples[..]), dev).slots
      ensures Valid()
    {
      agents := agents[dev := Some(a)];
      r := queue.Alloc(dev);
    }

    /** `clean_event_agent` of the UART, SPI and CAN wrappers (and their `Drop`): the agent is cleared and the address unregistered. */
    method CleanEventAgent(dev: Ptr)
      requires Valid()
      modifies this, queue.samples
      ensures agents == old(agents)[dev := None]
      ensures queue.samples[..] == queue.CleanSpec(old(queue.samples[..]), dev)
      ensures Valid()
    {
      agents := agents[dev := None];
      queue.Clean(dev);
    }

    /** `clean_event_agent` of the ADC wrappers: only a device that has an agent is unregistered and cleared. */
    method CleanEventAgentIfSet(dev: Ptr)
      requires Valid()
      modifies this, queue.samples
      ensures AgentOf(old(agents), dev).None? ==> agents == old(agents) && queue.samples[..] == old(queue.samples[..])
      ensures AgentOf(old(agents), dev).Some? ==>
                agents == old(agents)[dev := None] &&
                queue.samples[..] == queue.CleanSpec(old(queue.samples[..]), dev)
      ensures Valid()
    {
      if AgentOf(agents, dev).Some? {
        queue.Clean(dev);
        agents := agents[dev := None];
      }
    }

    /** The body shared by every shim: `find(handle)`, then the device's agent method `e`. */
    method Notify(h: Ptr, e: Event) returns (calls: seq<Call>)
      requires Valid()
      ensures calls == Notified(queue.samples[..], agents, h, e)
    {
      var r := queue.Find(h);
      match r {
        case Err(_) =>
          calls := [];
        case Ok(dev) =>
          calls := Deliver(AgentOf(agents, dev), e);
      }
    }

    // ---------------------------------------------------------------------
    // Properties
    // ---------------------------------------------------------------------

    /**
     * After `set_event_agent` on a device whose handle no registered device
     * uses, and with room in the table, every shim for that handle calls
     * the new agent exactly once.
     */
    lemma SetThenNotify(s: seq<Option<Ptr>>, m: map<Ptr, Option<AgentId>>, dev: Ptr, a: AgentId, e: Event)
      requires dev != NULL && queue.handleOf(dev) != NULL
      requires queue.Lookup(s, queue.handleOf(dev)).None? && queue.FreeSlot(s).Some?
      ensures queue.AllocSpec(s, dev).result == Ok(())
      ensures Notified(queue.AllocSpec(s, dev).slots, m[dev := Some(a)], queue.handleOf(dev), e) == [Call(a, e)]
    {
      queue.AllocThenFind(s, dev);
    }

    /**
     * A second device with the handle of a registered one is not stored,
     * yet `set_event_agent` reports `Ok`: the shims keep calling the agent of
     * the device registered first.
     */
    lemma ShadowedDeviceNotCalled(s: seq<Option<Ptr>>, m: map<Ptr, Option<AgentId>>, dev: Ptr, a: AgentId, e: Event)
      requires dev != NULL && queue.handleOf(dev) != NULL
      requires queue.Lookup(s, queue.handleOf(dev)).Some?
      requires s[queue.Lookup(s, queue.handleOf(dev)).value] != Some(dev)
      ensures queue.AllocSpec(s, dev) == DQ.Outcome(Ok(()), s)
      ensures Notified(s, m[dev := Some(a)], queue.handleOf(dev), e) ==
              Deliver(AgentOf(m, s[queue.Lookup(s, queue.handleOf(dev)).value].value), e)
    {
    }

    /** After `clean_event_agent` on a registered device, every shim for its handle is silent. */
    lemma CleanThenSilent(s: seq<Option<Ptr>>, m: map<Ptr, Option<AgentId>>, dev: Ptr, e: Event)
      requires queue.Distinct(s) && dev != NULL && queue.handleOf(dev) != NULL && Some(dev) in s
      ensures Notified(queue.CleanSpec(s, dev), m[dev := None], queue.handleOf(dev), e) == []
    {
      queue.CleanThenNotFound(s, dev);
    }

    /** Every registered device has an agent: the agent is set before registering and cleared after unregistering. */
    ghost predicate RegisteredHaveAgents(s: seq<Option<Ptr>>, m: map<Ptr, Option<AgentId>>)
    {
      forall i :: 0 <= i < |s| && s[i].Some? ==> AgentOf(m, s[i].value).Some?
    }

    /** `set_event_agent` keeps every registered device with an agent. */
    lemma SetKeepsAgents(s: seq<Option<Ptr>>, m: map<Ptr, Option<AgentId>>, dev: Ptr, a: AgentId)
      requires RegisteredHaveAgents(s, m)
      ensures RegisteredHaveAgents(queue.AllocSpec(s, dev).slots, m[dev := Some(a)])
    {
    }

    /** `clean_event_agent` keeps every registered device with an agent. */
    lemma CleanKeepsAgents(s: seq<Option<Ptr>>, m: map<Ptr, Option<AgentId>>, dev: Ptr)
      requires RegisteredHaveAgents(s, m) && queue.Distinct(s)
      ensures RegisteredHaveAgents(queue.CleanSpec(s, dev), m[dev := None])
    {
      var t := queue.CleanSpec(s, dev);
      if dev != NULL && queue.SlotOf(s, dev).Some? {
        var k := queue.SlotOf(s, dev).value;
        forall i | 0 <= i < |t| && t[i].Some?
          ensures t[i].value != dev
        {
          assert s[i].Some? && s[k].Some?;
        }
      }
    }

    /**
     * While every registered device has an agent, the ADC wrappers'
     * conditional clean does what the unconditional one does: a device
     * without an agent is not registered, so there is nothing to remove.
     */
    lemma ConditionalCleanAgrees(s: seq<Option<Ptr>>, m: map<Ptr, Option<AgentId>>, dev: Ptr)
      requires RegisteredHaveAgents(s, m) && AgentOf(m, dev).None?
      ensures queue.CleanSpec(s, dev) == s
    {
      assert forall i :: 0 <= i < |s| ==> s[i] != Some(dev);
      queue.CleanAbsentUnchanged(s, dev);
    }
  }
}
