/**
 * GPIO of scems-mcu-stm32: every `Io` (port, pin, optional agent) lives in
 * the channel registry `IO_QUEUE`, and `IO_EVENT_QUEUE` maps a pin bit to a
 * reference into that registry, here a slot index. `IoQueue` passes the
 * pin's value as the channel, but `Io` keeps the default `channel_value` of
 * 0 and `set_event_agent` searches with channel 0.
 *
 * `pinChannels` selects the channel an `Io` reports: `false` is the code as
 * written (always 0), `true` is the evident intent (the pin's value), under
 * which `set_event_agent` also looks its own entry up by pin.
 */
module IoRegistry {
  import opened Common
  import opened GpioPins
  import SQ = SampleQueue

  /** A GPIO line: its port (`GPIO_TypeDef*`), pin and optional agent. */
  datatype Io = Io(port: Ptr, agent: Option<AgentId>, pin: Pin)

  /** `Io::new`: a null port is `Param`; otherwise an `Io` with no agent. */
  function NewIo(port: Ptr, pin: Pin): (r: Result<Io>)
    ensures r.Err? <==> port == NULL
    ensures r.Err? ==> r.error == Param
    ensures r.Ok? ==> r.value.port == port && r.value.pin == pin && r.value.agent == None
  {
    if port == NULL then Err(Param) else Ok(Io(port, None, pin))
  }

  /** The registry slots and the pin table together. */
  datatype State = State(slots: seq<Option<Io>>, table: seq<Option<nat>>)

  class IoRegistry {
    const pinChannels: bool
    const queue: SQ.SampleQueue<Io>
    const table: array<Option<nat>>

    /** The channel an `Io` reports to the registry. */
    function Channel(io: Io): nat
    {
      if pinChannels then Mask(io.pin) else 0
    }

    ghost predicate Valid()
      reads queue.samples
    {
      queue.Valid() && table.Length == PIN_COUNT &&
      (forall io :: queue.handleOf(io) == io.port) &&
      (forall io :: queue.channelOf(io) == Channel(io))
    }

    /** `IO_QUEUE` with `n` (`IO_COUNT`) empty slots and `IO_EVENT_QUEUE` with 16 empty slots. */
    constructor (n: nat, pinChannels: bool)
      ensures this.pinChannels == pinChannels
      ensures fresh(queue.samples) && fresh(table) && queue.samples.Length == n
      ensures forall i :: 0 <= i < n ==> queue.samples[i] == None
      ensures table[..] == seq(PIN_COUNT, _ => None)
      ensures Valid()
    {
      this.pinChannels := pinChannels;
      queue := new SQ.SampleQueue<Io>(n, (io: Io) => io.port, (io: Io) => if pinChannels then Mask(io.pin) else 0);
      table := new Option<nat>[PIN_COUNT](_ => None);
    }

    /** The state `set_event_agent` leaves when called on the `Io` in slot `i`. */
    function AfterSetAgent(st: State, i: nat, a: AgentId): (r: State)
      requires i < |st.slots| && st.slots[i].Some? && |st.table| == PIN_COUNT
      ensures |r.slots| == |st.slots| && |r.table| == PIN_COUNT
      ensures r.slots == st.slots[i := Some(st.slots[i].value.(agent := Some(a)))]
    {
      var io := st.slots[i].value.(agent := Some(a));
      var s := st.slots[i := Some(io)];
      match queue.Find(s, io.port, Channel(io))
      case Some(j) => State(s, st.table[io.pin := Some(j)])
      case None => State(s, st.table)
    }

    /**
     * The calls an EXTI callback for the `u16` mask `pin` makes in state `st`.
     * The pin table stores a raw pointer into the registry; a slot that no
     * longer holds an `Io` (emptied by `clean`) is read as making no call,
     * where the source dereferences a dangling pointer.
     */
    function Route(st: State, pin: nat): (calls: seq<Call>)
      requires pin < U16_LIMIT && TrailingZeros(pin) < |st.table|
      ensures |calls| <= 1
      ensures forall c :: c in calls ==> c.event == IoStateChange
    {
      match st.table[TrailingZeros(pin)]
      case None => []
      case Some(j) =>
        if j < |st.slots| && st.slots[j].Some? then Deliver(st.slots[j].value.agent, IoStateChange) else []
    }

    /** `IoQueue::allocate`: `Io::new`, then `allocate_channel` with the pin's value as channel. */
    method Allocate(port: Ptr, pin: Pin) returns (r: Result<nat>)
      requires Valid()
      modifies queue.samples
      ensures port == NULL ==> r == Err(Param) && queue.samples[..] == old(queue.samples[..])
      ensures port != NULL ==>
                var a := queue.AllocateSpec(old(queue.samples[..]), Io(port, None, pin), Mask(pin));
                r == a.result && queue.samples[..] == a.slots
      ensures Valid()
    {
      var io := NewIo(port, pin);
      if io.Err? {
        return Err(io.error);
      }
      r := queue.AllocateChannel(io.value, Mask(pin));
    }

    /**
     * `IoQueue::clean`: ignored for a null port, else `clean_channel` as
     * written with the pin's value. An empty queue panics.
     */
    method Clean(port: Ptr, pin: Pin)
      requires Valid() && queue.samples.Length >= 1
      modifies queue.samples
      ensures queue.samples[..] == queue.CleanedAsWritten(old(queue.samples[..]), port, Mask(pin))
      ensures Valid()
    {
      if port == NULL {
        queue.FindFromExact(queue.samples[..], port, Mask(pin), 0, PrefixLen(queue.samples[..]), None);
        queue.CleanedAbsentUnchanged(queue.samples[..], port, Mask(pin));
        return;
      }
      queue.CleanChannel(port, Mask(pin));
    }

    /** `IoQueue::search`: `Param` for a null port, else `search_channel` with the pin's value. */
    method Search(port: Ptr, pin: Pin) returns (r: Result<nat>)
      requires Valid()
      ensures port == NULL ==> r == Err(Param)
      ensures port != NULL ==> (r.Ok? <==> queue.Find(queue.samples[..], port, Mask(pin)).Some?)
      ensures port != NULL && r.Ok? ==> r.value == queue.Find(queue.samples[..], port, Mask(pin)).value
      ensures port != NULL && r.Err? ==> r.error == InstanceNotFound
    {
      if port == NULL {
        return Err(Param);
      }
      r := queue.SearchChannel(port, Mask(pin));
    }

    /**
     * `set_event_agent` on the `&mut Io` in slot `i`: the agent is stored in
     * the entry, then the registry is searched for the entry's port (with
     * the entry's channel) and the pin's table slot refers to what is found.
     */
    method SetEventAgent(i: nat, a: AgentId)
      requires Valid() && i < queue.samples.Length && queue.samples[i].Some?
      modifies queue.samples, table
      ensures State(queue.samples[..], table[..]) ==
              AfterSetAgent(State(old(queue.samples[..]), old(table[..])), i, a)
      ensures Valid()
    {
      var io := queue.samples[i].value.(agent := Some(a));
      queue.Update(i, io);
      var found := queue.SearchChannel(io.port, Channel(io));
      if found.Ok? {
        MaskIndex(io.pin);
        table[TrailingZeros(Mask(io.pin))] := Some(found.value);
      }
    }

    /** `clean_event_agent`: only the pin's table slot is emptied; the entry keeps its agent. */
    method CleanEventAgent(io: Io)
      requires Valid()
      modifies table
      ensures table[..] == old(table[..])[io.pin := None]
    {
      MaskIndex(io.pin);
      table[TrailingZeros(Mask(io.pin))] := None;
    }

    /** `HAL_GPIO_EXTI_Callback` and its rising/falling variants; a zero mask would index past the table. */
    method ExtiCallback(pin: nat) returns (calls: seq<Call>)
      requires Valid() && pin < U16_LIMIT && TrailingZeros(pin) < PIN_COUNT
      ensures calls == Route(State(queue.samples[..], table[..]), pin)
    {
      match table[TrailingZeros(pin)] {
        case None =>
          calls := [];
        case Some(j) =>
          if j < queue.samples.Length && queue.samples[j].Some? {
            calls := Deliver(queue.samples[j].value.agent, IoStateChange);
          } else {
            calls := [];
          }
      }
    }

    // ---------------------------------------------------------------------
    // Properties
    // ---------------------------------------------------------------------

    /** No two stored lines share port and pin, and no stored port is null. */
    ghost predicate UniqueLines(s: seq<Option<Io>>)
    {
      (forall k :: 0 <= k < |s| && s[k].Some? ==> s[k].value.port != NULL) &&
      (forall k, l :: 0 <= k < l < |s| && s[k].Some? && s[l].Some? ==>
         (s[k].value.port, s[k].value.pin) != (s[l].value.port, s[l].value.pin))
    }

    /** As written, no stored entry ever matches a pin channel: searching by pin never finds anything. */
    lemma AsWrittenPinSearchFails(s: seq<Option<Io>>, port: Ptr, pin: Pin)
      requires !pinChannels && forall io :: queue.channelOf(io) == Channel(io)
      ensures queue.Find(s, port, Mask(pin)).None?
    {
      assert Mask(pin) >= 1;
      queue.FindFromExact(s, port, Mask(pin), 0, PrefixLen(s), None);
    }

    /**
     * As written, `IoQueue::allocate` never recognises a line it already
     * holds: every call takes a fresh slot, even for the same port and pin.
     */
    lemma AsWrittenAllocateAlwaysFresh(s: seq<Option<Io>>, port: Ptr, pin: Pin)
      requires !pinChannels && forall io :: queue.channelOf(io) == Channel(io)
      requires Packed(s) && PrefixLen(s) < |s|
      ensures var a := queue.AllocateSpec(s, Io(port, None, pin), Mask(pin));
              a.result == Ok(PrefixLen(s)) && PrefixLen(a.slots) == PrefixLen(s) + 1
    {
      assert Mask(pin) >= 1;
      queue.UnmatchableTakesFreshSlot(s, Io(port, None, pin), Mask(pin));
    }

    /**
     * Finding, as written: `set_event_agent` on a line whose port already
     * has an earlier entry points the pin's table slot at that earlier
     * entry, so the pin's interrupt calls the earlier entry's agent (or
     * nothing) instead of the agent just set.
     */
    lemma AsWrittenRoutesToFirstOfPort(st: State, i: nat, a: AgentId)
      requires !pinChannels && forall io :: queue.channelOf(io) == Channel(io)
      requires forall io :: queue.handleOf(io) == io.port
      requires |st.table| == PIN_COUNT && i < PrefixLen(st.slots)
      requires queue.Find(st.slots, st.slots[i].value.port, 0).Some?
      requires queue.Find(st.slots, st.slots[i].value.port, 0).value < i
      ensures var j := queue.Find(st.slots, st.slots[i].value.port, 0).value;
              var pin := Mask(st.slots[i].value.pin);
              pin < U16_LIMIT && TrailingZeros(pin) < PIN_COUNT &&
              Route(AfterSetAgent(st, i, a), pin) == Deliver(st.slots[j].value.agent, IoStateChange)
    {
      var s := st.slots;
      var io := s[i].value.(agent := Some(a));
      var s' := s[i := Some(io)];
      var j := queue.Find(s, io.port, 0).value;
      PrefixLenSameShape(s, s');
      queue.FindFromExact(s', io.port, 0, 0, PrefixLen(s'), Some(j));
      MaskIndex(io.pin);
    }

    /**
     * Corrected: with pin channels and lines kept unique, `set_event_agent`
     * routes the pin's interrupt to exactly the agent just set.
     */
    lemma CorrectedRoutesToOwnAgent(st: State, i: nat, a: AgentId)
      requires pinChannels && forall io :: queue.channelOf(io) == Channel(io)
      requires forall io :: queue.handleOf(io) == io.port
      requires |st.table| == PIN_COUNT && i < PrefixLen(st.slots) && UniqueLines(st.slots)
      ensures var pin := Mask(st.slots[i].value.pin);
              pin < U16_LIMIT && TrailingZeros(pin) < PIN_COUNT &&
              Route(AfterSetAgent(st, i, a), pin) == [Call(a, IoStateChange)]
    {
      var s := st.slots;
      var io := s[i].value.(agent := Some(a));
      var s' := s[i := Some(io)];
      PrefixLenSameShape(s, s');
      forall k | 0 <= k < i
        ensures !queue.Matches(s'[k].value, io.port, Mask(io.pin))
      {
        MaskInjective(s[k].value.pin, io.pin);
      }
      queue.FindFromExact(s', io.port, Mask(io.pin), 0, PrefixLen(s'), Some(i));
      MaskIndex(io.pin);
    }

    /** Corrected allocation keeps lines unique, so the routing above stays exact. */
    lemma CorrectedAllocateKeepsLinesUnique(s: seq<Option<Io>>, port: Ptr, pin: Pin)
      requires pinChannels && forall io :: queue.channelOf(io) == Channel(io)
      requires forall io :: queue.handleOf(io) == io.port
      requires Packed(s) && UniqueLines(s) && port != NULL
      ensures UniqueLines(queue.AllocateSpec(s, Io(port, None, pin), Mask(pin)).slots)
    {
      var x := Io(port, None, pin);
      var p := PrefixLen(s);
      if queue.Find(s, port, Mask(pin)).None? && p < |s| {
        PackedTail(s);
        forall k | 0 <= k < |s| && s[k].Some?
          ensures (s[k].value.port, s[k].value.pin) != (port, pin)
        {
          assert k < p;
          MaskInjective(s[k].value.pin, pin);
        }
      }
    }
  }
}
