/**
 * The pin-indexed agent tables of the older GPIO layers: `IO_EVENT_QUEUE`
 * of `mcu::vendor::stm::device::io` and `EVENT_AGENTS` / `EVENT_HANDLES` of
 * the two `wrapper::io` snapshots. Sixteen slots, one per pin bit, each
 * holding the agent registered for that pin whatever its port. The EXTI
 * callbacks (plain, rising and falling edge behave the same) call the agent
 * of slot `trailing_zeros(pin)`. The device layer does nothing for an empty
 * slot; the wrapper layers call a static default agent instead, whose
 * `on_io_state_change` is the trait's empty default.
 */
module PinTable {
  import opened Common
  import opened GpioPins

  /** `Io::new` / `IoDevice::new` / `IoQueue::allocate`: a port and a pin, with no null check. */
  datatype IoDevice = IoDevice(port: Ptr, pin: Pin)

  class PinAgentTable {
    const agents: array<Option<AgentId>>
    /** The agent an empty slot falls back to: `None` in the device layer, the default agent in the wrappers. */
    const fallback: Option<AgentId>

    /** The table is `GPIO_Pin::count()` long: every pin variant has a slot. */
    predicate Valid()
    {
      agents.Length == PIN_COUNT
    }

    /** The `static mut` table starts with every slot empty. */
    constructor (fallback: Option<AgentId>)
      ensures this.fallback == fallback && fresh(agents)
      ensures agents[..] == seq(PIN_COUNT, _ => None)
      ensures Valid()
    {
      this.fallback := fallback;
      agents := new Option<AgentId>[PIN_COUNT](_ => None);
    }

    /** The calls an EXTI callback for the `u16` pin mask `pin` makes on table `t`. */
    function Route(t: seq<Option<AgentId>>, pin: nat): (calls: seq<Call>)
      requires pin < U16_LIMIT && TrailingZeros(pin) < |t|
      ensures |calls| <= 1
      ensures forall c :: c in calls ==> c.event == IoStateChange
    {
      match t[TrailingZeros(pin)]
      case Some(a) => [Call(a, IoStateChange)]
      case None => Deliver(fallback, IoStateChange)
    }

    /**
     * `set_event_agent` / `set_event_handle`: the pin's slot gets the agent,
     * replacing whatever any device of any port put there; always `Ok`.
     */
    method SetEventAgent(dev: IoDevice, a: AgentId) returns (r: Result<()>)
      requires Valid()
      modifies agents
      ensures r == Ok(())
      ensures agents[..] == old(agents[..])[dev.pin := Some(a)]
    {
      MaskIndex(dev.pin);
      agents[TrailingZeros(Mask(dev.pin))] := Some(a);
      return Ok(());
    }

    /** `clean_event_agent` / `clean_event_handle` (and the wrapper's `Drop`): the pin's slot is emptied. */
    method CleanEventAgent(dev: IoDevice)
      requires Valid()
      modifies agents
      ensures agents[..] == old(agents[..])[dev.pin := None]
    {
      MaskIndex(dev.pin);
      agents[TrailingZeros(Mask(dev.pin))] := None;
    }

    /**
     * `HAL_GPIO_EXTI_Callback` and its rising/falling variants. A mask with
     * no bit set indexes slot 16 and panics, so a set bit is required.
     */
    method ExtiCallback(pin: nat) returns (calls: seq<Call>)
      requires Valid() && pin < U16_LIMIT && TrailingZeros(pin) < PIN_COUNT
      ensures calls == Route(agents[..], pin)
    {
      var k := TrailingZeros(pin);
      match agents[k] {
        case Some(a) =>
          calls := [Call(a, IoStateChange)];
        case None =>
          calls := Deliver(fallback, IoStateChange);
      }
    }

    // ---------------------------------------------------------------------
    // Properties
    // ---------------------------------------------------------------------

    /** After a pin's agent is set, its interrupt calls exactly that agent once. */
    lemma SetThenRoute(t: seq<Option<AgentId>>, p: Pin, a: AgentId)
      requires |t| == PIN_COUNT
      ensures Mask(p) < U16_LIMIT && TrailingZeros(Mask(p)) < PIN_COUNT
      ensures Route(t[p := Some(a)], Mask(p)) == [Call(a, IoStateChange)]
    {
      MaskIndex(p);
    }

    /** After a pin's agent is cleaned, its interrupt reaches only the fallback, if any. */
    lemma CleanThenRoute(t: seq<Option<AgentId>>, p: Pin)
      requires |t| == PIN_COUNT
      ensures Mask(p) < U16_LIMIT && TrailingZeros(Mask(p)) < PIN_COUNT
      ensures Route(t[p := None], Mask(p)) == Deliver(fallback, IoStateChange)
    {
      MaskIndex(p);
    }

    /** Changing one pin's slot leaves every other pin's routing as it was. */
    lemma OtherPinUnaffected(t: seq<Option<AgentId>>, p: Pin, q: Pin, o: Option<AgentId>)
      requires |t| == PIN_COUNT && p != q
      ensures Mask(q) < U16_LIMIT && TrailingZeros(Mask(q)) < PIN_COUNT
      ensures Route(t[p := o], Mask(q)) == Route(t, Mask(q))
    {
      MaskIndex(q);
    }

    /**
     * Two devices on different ports but the same pin share one slot: the
     * agent set last is the one called.
     */
    lemma LastSetterWins(t: seq<Option<AgentId>>, d1: IoDevice, d2: IoDevice, a1: AgentId, a2: AgentId)
      requires |t| == PIN_COUNT && d1.pin == d2.pin
      ensures Mask(d1.pin) < U16_LIMIT && TrailingZeros(Mask(d1.pin)) < PIN_COUNT
      ensures Route(t[d1.pin := Some(a1)][d2.pin := Some(a2)], Mask(d1.pin)) == [Call(a2, IoStateChange)]
    {
      SetThenRoute(t[d1.pin := Some(a1)], d2.pin, a2);
    }

    /** With a fallback agent every interrupt makes exactly one call; without one, an empty slot makes none. */
    lemma CallCount(t: seq<Option<AgentId>>, pin: nat)
      requires pin < U16_LIMIT && TrailingZeros(pin) < |t|
      ensures |Route(t, pin)| == (if t[TrailingZeros(pin)].Some? || fallback.Some? then 1 else 0)
    {
    }
  }
}
