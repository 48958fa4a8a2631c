/**
 * The CAN layer in its four snapshots: `Can` over a `SampleQueue` in
 * `sces-mcu-stm32` (`CanQueue`), `Can` over the channel-less `SampleQueue` in
 * `scems::mcu::vendor::stm::device`, and `CanDevice` over a `DeviceQueue`
 * in the two `scems` wrappers. Blocking transmit and receive poll the HAL
 * until it succeeds or more than `timeout` ticks have passed; each poll is
 * an oracle reporting the HAL status and the ticks elapsed since the loop
 * started. The FIFO-pending shims read a message into the destination that
 * `async_receive` recorded, and notify the agent only when that read
 * succeeds.
 */
module Can {
  import opened Common
  import DR = DeviceRegistry
  import LSQ = LegacySampleQueue
  import LD = LegacyDevices

  // -----------------------------------------------------------------------
  // Messages
  // -----------------------------------------------------------------------

  /** `CanMessageHead`. */
  datatype Head = Head(stdId: nat, extId: nat, ide: nat, rtr: nat, dlc: nat)

  /** `CAN_RxHeaderTypeDef`, as the HAL fills it. */
  datatype RxHeader = RxHeader(stdId: nat, extId: nat, ide: nat, rtr: nat, dlc: nat, timestamp: nat, filterMatchIndex: nat)

  /** A `CanMessage` somewhere in memory: a head and eight data bytes. */
  class Message {
    var head: Head
    var data: seq<nat>

    constructor (head: Head, data: seq<nat>)
      ensures this.head == head && this.data == data
    {
      this.head := head;
      this.data := data;
    }
  }

  /** How a snapshot copies a received header: all of it (`rx_head.into()`), or `STD_ID` alone. */
  datatype HeadCopy = WholeHead | StdIdOnly

  /** The snapshot-specific parts of transmit and receive. */
  datatype Variant = Variant(copy: HeadCopy, timeoutError: ErrValue)

  /** `sces-mcu-stm32`: the whole header, `Busy` on timeout. */
  const SCES_CAN := Variant(WholeHead, Busy)
  /** `scems::mcu::vendor::stm` (device and wrapper): `STD_ID` only, `Busy` on timeout. */
  const SCEMS_VENDOR_CAN := Variant(StdIdOnly, Busy)
  /** `scems::mcu::vendors::stm::wrapper`: `STD_ID` only, `BusBusy` on timeout. */
  const SCEMS_VENDORS_CAN := Variant(StdIdOnly, BusBusy)

  /** The head a successful receive leaves in the message whose head was `prev`. */
  function ReceivedHead(copy: HeadCopy, prev: Head, rx: RxHeader): (h: Head)
    ensures h.stdId == rx.stdId
    ensures copy == StdIdOnly ==> h.(stdId := prev.stdId) == prev
    ensures copy == WholeHead ==> (h.extId, h.ide, h.rtr, h.dlc) == (rx.extId, rx.ide, rx.rtr, rx.dlc)
  {
    match copy
    case WholeHead => Head(rx.stdId, rx.extId, rx.ide, rx.rtr, rx.dlc)
    case StdIdOnly => prev.(stdId := rx.stdId)
  }

  // -----------------------------------------------------------------------
  // Polling with a timeout
  // -----------------------------------------------------------------------

  /** One pass of a polling loop: whether the HAL call succeeded, and `HAL_GetTick() - tick` after it. */
  datatype Poll = Poll(ok: bool, elapsed: nat)

  /** A pass ends the loop when its call succeeded or more than `timeout` ticks have passed. */
  predicate Stops(p: Poll, timeout: nat)
  {
    p.ok || p.elapsed > timeout
  }

  /** The first pass at or after `i` that ends the loop. */
  function FirstStop(polls: seq<Poll>, timeout: nat, i: nat): (r: Option<nat>)
    requires i <= |polls|
    ensures r.Some? ==> i <= r.value < |polls| && Stops(polls[r.value], timeout)
    ensures r.Some? ==> forall j :: i <= j < r.value ==> !Stops(polls[j], timeout)
    ensures r.None? ==> forall j :: i <= j < |polls| ==> !Stops(polls[j], timeout)
    decreases |polls| - i
  {
    if i == |polls| then None
    else if Stops(polls[i], timeout) then Some(i)
    else FirstStop(polls, timeout, i + 1)
  }

  /** The loop ends within the passes the oracle describes. */
  predicate Ends(polls: seq<Poll>, timeout: nat)
  {
    FirstStop(polls, timeout, 0).Some?
  }

  /** The loop ends on a successful call. */
  predicate Succeeds(polls: seq<Poll>, timeout: nat)
    requires Ends(polls, timeout)
  {
    polls[FirstStop(polls, timeout, 0).value].ok
  }

  /** The `loop { call; if ok break; if elapsed > timeout break; }` of transmit and receive. */
  method Retry(polls: seq<Poll>, timeout: nat) returns (ok: bool, passes: nat)
    requires Ends(polls, timeout)
    ensures passes == FirstStop(polls, timeout, 0).value + 1
    ensures ok == Succeeds(polls, timeout)
  {
    var i := 0;
    while true
      invariant i <= FirstStop(polls, timeout, 0).value
      invariant forall j :: 0 <= j < i ==> !Stops(polls[j], timeout)
      decreases FirstStop(polls, timeout, 0).value - i
    {
      if polls[i].ok {
        return true, i + 1;
      }
      if polls[i].elapsed > timeout {
        return false, i + 1;
      }
      i := i + 1;
    }
  }

  /**
   * A polling loop succeeds exactly when some call succeeds while every
   * earlier call failed within the timeout; a success is taken even on a
   * pass that ends after the timeout.
   */
  lemma {:induction false} SucceedsIff(polls: seq<Poll>, timeout: nat, k: nat)
    requires Ends(polls, timeout) && k < |polls|
    requires polls[k].ok && forall j :: 0 <= j < k ==> !polls[j].ok && polls[j].elapsed <= timeout
    ensures Succeeds(polls, timeout) && FirstStop(polls, timeout, 0) == Some(k)
  {
    var f := FirstStop(polls, timeout, 0).value;
    var first, target := polls[f], polls[k];
    assert f < k ==> !Stops(first, timeout);
    assert f > k ==> !Stops(target, timeout);
  }

  /** A failed loop ends on a failed call made after the timeout had passed, and every earlier call failed too. */
  lemma FailureMeansTimeout(polls: seq<Poll>, timeout: nat)
    requires Ends(polls, timeout) && !Succeeds(polls, timeout)
    ensures var f := FirstStop(polls, timeout, 0).value;
            polls[f].elapsed > timeout && forall j :: 0 <= j <= f ==> !polls[j].ok
  {
  }

  /** What `transmit` returns and whether it aborted the mailbox. */
  datatype TxOutcome = TxOutcome(result: Result<()>, aborted: bool)

  /**
   * `transmit`: wait for a mailbox to accept the message (`adds`); on
   * timeout fail. Then wait for it to leave the mailbox (`pendings`, whose
   * `ok` is "no longer pending"); on timeout abort the mailbox and fail.
   */
  function TransmitSpec(adds: seq<Poll>, pendings: seq<Poll>, timeout: nat, busy: ErrValue): (o: TxOutcome)
    requires Ends(adds, timeout) && (Succeeds(adds, timeout) ==> Ends(pendings, timeout))
    ensures o.result.Ok? <==> Succeeds(adds, timeout) && Succeeds(pendings, timeout)
    ensures o.result.Err? ==> o.result.error == busy
    ensures o.aborted <==> Succeeds(adds, timeout) && !Succeeds(pendings, timeout)
  {
    if !Succeeds(adds, timeout) then TxOutcome(Err(busy), false)
    else if !Succeeds(pendings, timeout) then TxOutcome(Err(busy), true)
    else TxOutcome(Ok(()), false)
  }

  method Transmit(adds: seq<Poll>, pendings: seq<Poll>, timeout: nat, v: Variant) returns (o: TxOutcome)
    requires Ends(adds, timeout) && (Succeeds(adds, timeout) ==> Ends(pendings, timeout))
    ensures o == TransmitSpec(adds, pendings, timeout, v.timeoutError)
  {
    var added, _ := Retry(adds, timeout);
    if !added {
      return TxOutcome(Err(v.timeoutError), false);
    }
    var sent, _ := Retry(pendings, timeout);
    if !sent {
      return TxOutcome(Err(v.timeoutError), true);
    }
    return TxOutcome(Ok(()), false);
  }

  /**
   * `receive` into `msg`: poll the FIFO; on timeout fail and leave the
   * message alone; on success the HAL has written `rx` and `data`, and the
   * head is copied from `rx` as the snapshot does.
   */
  method Receive(msg: Message, polls: seq<Poll>, timeout: nat, rx: RxHeader, data: seq<nat>, v: Variant) returns (r: Result<()>)
    requires Ends(polls, timeout)
    modifies msg
    ensures r.Ok? <==> Succeeds(polls, timeout)
    ensures r.Err? ==> r.error == v.timeoutError && msg.head == old(msg.head) && msg.data == old(msg.data)
    ensures r.Ok? ==> msg.head == ReceivedHead(v.copy, old(msg.head), rx) && msg.data == data
  {
    var ok, _ := Retry(polls, timeout);
    if !ok {
      return Err(v.timeoutError);
    }
    msg.data := data;
    msg.head := ReceivedHead(v.copy, msg.head, rx);
    return Ok(());
  }

  // -----------------------------------------------------------------------
  // The FIFO-pending rule
  // -----------------------------------------------------------------------

  /** What a shim finds for a handle: the device's agent and its asynchronous destination. */
  datatype Found = Found(agent: Option<AgentId>, cache: Option<Message>)

  /** The message the shim would read into. */
  function Target(f: Option<Found>): set<Message>
  {
    if f.Some? && f.value.cache.Some? then {f.value.cache.value} else {}
  }

  /**
   * The calls of `HAL_CAN_RxFifo0MsgPendingCallback` (and of the FIFO 1
   * shim, which calls it): one `on_can_message_receive` exactly when the
   * handle is registered, a destination is set, the zero-timeout receive
   * into it succeeded, and an agent is set.
   */
  function RxCalls(f: Option<Found>, received: bool): (calls: seq<Call>)
    ensures |calls| <= 1
    ensures |calls| == 1 <==> f.Some? && f.value.cache.Some? && received && f.value.agent.Some?
    ensures calls != [] ==> calls[0] == Call(f.value.agent.value, CanMessageReceive)
  {
    match f
    case None => []
    case Some(d) => if d.cache.Some? && received then Deliver(d.agent, CanMessageReceive) else []
  }

  /** The body common to the FIFO-pending shims once the device is found. */
  method OnRxPending(f: Option<Found>, polls: seq<Poll>, rx: RxHeader, data: seq<nat>, v: Variant) returns (calls: seq<Call>)
    requires Ends(polls, 0)
    modifies Target(f)
    ensures calls == RxCalls(f, Succeeds(polls, 0))
    ensures Target(f) != {} && Succeeds(polls, 0) ==>
              f.value.cache.value.head == ReceivedHead(v.copy, old(f.value.cache.value.head), rx) &&
              f.value.cache.value.data == data
  {
    match f {
      case None =>
        calls := [];
      case Some(d) =>
        match d.cache {
          case None =>
            calls := [];
          case Some(msg) =>
            var r := Receive(msg, polls, 0, rx, data, v);
            calls := if r.Ok? then Deliver(d.agent, CanMessageReceive) else [];
        }
    }
  }

  // -----------------------------------------------------------------------
  // `sces-mcu-stm32`: `CanQueue` over a `SampleQueue`
  // -----------------------------------------------------------------------

  /** The fields of `Can` besides the handle and the agent: the FIFO and the `async_cache`. */
  datatype CanExtra = CanExtra(fifo: nat, cache: Option<Message>)

  /** What the registry's shims find for `handle` in slots `s`. */
  function FoundIn(reg: DR.Registry<CanExtra>, s: seq<Option<DR.Device<CanExtra>>>, handle: Ptr): Option<Found>
  {
    match reg.Slot(s, handle)
    case None => None
    case Some(i) => Some(Found(s[i].value.agent, s[i].value.extra.cache))
  }

  /** `async_receive` through the `&mut Can` of slot `i`: only the destination is recorded, no HAL call is made. */
  method AsyncReceive(reg: DR.Registry<CanExtra>, i: nat, msg: Message)
    requires reg.Valid() && i < reg.queue.samples.Length && reg.queue.samples[i].Some?
    modifies reg.queue.samples
    ensures reg.queue.samples[..] == old(reg.queue.samples[..])[i := Some(old(reg.queue.samples[i].value).(extra := old(reg.queue.samples[i].value.extra).(cache := Some(msg))))]
    ensures reg.Valid()
  {
    var d := reg.queue.samples[i].value;
    reg.queue.Update(i, d.(extra := d.extra.(cache := Some(msg))));
  }

  /** `HAL_CAN_RxFifo0MsgPendingCallback` / `HAL_CAN_RxFifo1MsgPendingCallback` over `CanQueue`. */
  method RxFifoPending(reg: DR.Registry<CanExtra>, handle: Ptr, polls: seq<Poll>, rx: RxHeader, data: seq<nat>) returns (calls: seq<Call>)
    requires reg.Valid() && Ends(polls, 0)
    modifies Target(FoundIn(reg, reg.queue.samples[..], handle))
    ensures calls == RxCalls(FoundIn(reg, old(reg.queue.samples[..]), handle), Succeeds(polls, 0))
  {
    var r := reg.Search(handle);
    var f: Option<Found> := None;
    if r.Ok? {
      var d := reg.queue.samples[r.value].value;
      f := Some(Found(d.agent, d.extra.cache));
    }
    calls := OnRxPending(f, polls, rx, data, SCES_CAN);
  }

  /** `HAL_CAN_ErrorCallback` over `CanQueue`. */
  method ErrorCallback(reg: DR.Registry<CanExtra>, handle: Ptr) returns (calls: seq<Call>)
    requires reg.Valid()
    ensures calls == reg.Notified(reg.queue.samples[..], handle, CanError)
  {
    calls := reg.Notify(handle, CanError);
  }

  // -----------------------------------------------------------------------
  // `scems::mcu::vendor::stm::device`: `CanQueue` over the channel-less queue
  // -----------------------------------------------------------------------

  /**
   * The queue is keyed by the entry's handle and carries no channels: all
   * that allocation, search and the as-written clean need, on any slots.
   */
  ghost predicate LegacyKeyed(q: LSQ.LegacySampleQueue<DR.Device<CanExtra>>)
  {
    q.ChannelFree() && q.q.handleOf == ((d: DR.Device<CanExtra>) => d.handle)
  }

  /** Keyed, with packed slots: what the intended removal keeps. */
  ghost predicate LegacyValid(q: LSQ.LegacySampleQueue<DR.Device<CanExtra>>)
    reads q.q.samples
  {
    q.Valid() && LegacyKeyed(q)
  }

  /** `CanQueue::allocate(handle, fifo)`: `Param` for a null handle, otherwise the queue's `allocate` of a new `Can`. */
  method LegacyAllocate(q: LSQ.LegacySampleQueue<DR.Device<CanExtra>>, handle: Ptr, fifo: nat) returns (r: Result<nat>)
    requires LegacyKeyed(q)
    modifies q.q.samples
    ensures handle == NULL ==> r == Err(Param) && q.q.samples[..] == old(q.q.samples[..])
    ensures handle != NULL ==>
              var a := q.q.AllocateSpec(old(q.q.samples[..]), DR.Device(handle, None, CanExtra(fifo, None)), 0);
              r == a.result && q.q.samples[..] == a.slots
    ensures old(LegacyValid(q)) ==> LegacyValid(q)
  {
    var d := DR.NewDevice(handle, CanExtra(fifo, None));
    if d.Err? {
      return Err(d.error);
    }
    r := q.Allocate(d.value);
  }

  /** `CanQueue::clean`, with the queue's removal as intended. */
  method LegacyClean(q: LSQ.LegacySampleQueue<DR.Device<CanExtra>>, handle: Ptr)
    requires LegacyValid(q)
    modifies q.q.samples
    ensures q.q.samples[..] == q.q.Cleaned(old(q.q.samples[..]), handle, 0)
    ensures LegacyValid(q)
  {
    q.Clean(handle);
  }

  /**
   * `CanQueue::clean` as written: the legacy queue's own removal loop. `panicked` is the
   * index panic of a match in the last slot; otherwise the slots are what
   * that loop leaves, later entries cut off included.
   */
  method LegacyCleanAsWritten(q: LSQ.LegacySampleQueue<DR.Device<CanExtra>>, handle: Ptr) returns (panicked: bool)
    requires LegacyKeyed(q)
    modifies q.q.samples
    ensures var c := q.CleanedAsWritten(old(q.q.samples[..]), handle);
            (panicked <==> c.None?) &&
            (c.Some? ==> q.q.samples[..] == c.value) &&
            (c.None? ==> q.q.samples[..] == old(q.q.samples[..]))
  {
    panicked := q.CleanAsWritten(handle);
  }

  /** What this snapshot's shims find: `search` rejects null, then the first hit of the prefix. */
  function FoundInLegacy(q: LSQ.LegacySampleQueue<DR.Device<CanExtra>>, s: seq<Option<DR.Device<CanExtra>>>, handle: Ptr): Option<Found>
  {
    if handle == NULL then None
    else match q.q.Find(s, handle, 0)
      case None => None
      case Some(i) => Some(Found(s[i].value.agent, s[i].value.extra.cache))
  }

  /** The FIFO-pending shims of this snapshot: the same rule, `STD_ID` only. */
  method LegacyRxFifoPending(q: LSQ.LegacySampleQueue<DR.Device<CanExtra>>, handle: Ptr, polls: seq<Poll>, rx: RxHeader, data: seq<nat>) returns (calls: seq<Call>)
    requires q.ChannelFree() && Ends(polls, 0)
    modifies Target(FoundInLegacy(q, q.q.samples[..], handle))
    ensures calls == RxCalls(FoundInLegacy(q, old(q.q.samples[..]), handle), Succeeds(polls, 0))
  {
    var r := q.Search(handle);
    var f: Option<Found> := None;
    if r.Ok? {
      var d := q.q.samples[r.value].value;
      f := Some(Found(d.agent, d.extra.cache));
    }
    calls := OnRxPending(f, polls, rx, data, SCEMS_VENDOR_CAN);
  }

  /** The error shim of this snapshot. */
  method LegacyErrorCallback(q: LSQ.LegacySampleQueue<DR.Device<CanExtra>>, handle: Ptr) returns (calls: seq<Call>)
    requires q.ChannelFree()
    ensures var f := FoundInLegacy(q, q.q.samples[..], handle);
            calls == if f.Some? then Deliver(f.value.agent, CanError) else []
  {
    var r := q.Search(handle);
    calls := [];
    if r.Ok? {
      calls := Deliver(q.q.samples[r.value].value.agent, CanError);
    }
  }

  // -----------------------------------------------------------------------
  // The `scems` wrappers: `CanDevice` over a `DeviceQueue`
  // -----------------------------------------------------------------------

  /**
   * The `CANS` table with the `CanDevice` objects it points at: agents and
   * registration as for every wrapper, plus each device's `async_cache`.
   */
  class CanDevices {
    const table: LD.DeviceTable
    var caches: map<Ptr, Option<Message>>

    constructor (n: nat, handleOf: Ptr -> Ptr)
      ensures fresh(table) && fresh(table.queue) && fresh(table.queue.samples)
      ensures table.queue.samples.Length == n && table.queue.handleOf == handleOf
      ensures forall i :: 0 <= i < n ==> table.queue.samples[i] == None
      ensures table.agents == map[] && caches == map[]
      ensures table.Valid()
    {
      table := new LD.DeviceTable(n, handleOf);
      caches := map[];
    }

    /** The `async_cache` of the device at address `dev`. */
    function CacheOf(m: map<Ptr, Option<Message>>, dev: Ptr): Option<Message>
    {
      if dev in m then m[dev] else None
    }

    /** What the wrapper's shims find for `handle`. */
    function FoundAt(s: seq<Option<Ptr>>, agents: map<Ptr, Option<AgentId>>, m: map<Ptr, Option<Message>>, handle: Ptr): Option<Found>
    {
      match table.queue.FindSpec(s, handle)
      case Err(_) => None
      case Ok(dev) => Some(Found(table.AgentOf(agents, dev), CacheOf(m, dev)))
    }

    /** `async_receive` on the device at `dev`: only its destination changes. */
    method AsyncReceive(dev: Ptr, msg: Message)
      modifies this
      ensures caches == old(caches)[dev := Some(msg)]
    {
      caches := caches[dev := Some(msg)];
    }

    /** The FIFO-pending shims of the wrappers. */
    method RxFifoPending(handle: Ptr, polls: seq<Poll>, rx: RxHeader, data: seq<nat>, v: Variant) returns (calls: seq<Call>)
      requires table.Valid() && Ends(polls, 0)
      modifies Target(FoundAt(table.queue.samples[..], table.agents, caches, handle))
      ensures calls == RxCalls(FoundAt(old(table.queue.samples[..]), old(table.agents), old(caches), handle), Succeeds(polls, 0))
    {
      var r := table.queue.Find(handle);
      var f: Option<Found> := None;
      if r.Ok? {
        f := Some(Found(table.AgentOf(table.agents, r.value), CacheOf(caches, r.value)));
      }
      calls := OnRxPending(f, polls, rx, data, v);
    }

    /** The error shim of the wrappers. */
    method ErrorCallback(handle: Ptr) returns (calls: seq<Call>)
      requires table.Valid()
      ensures calls == table.Notified(table.queue.samples[..], table.agents, handle, CanError)
    {
      calls := table.Notify(handle, CanError);
    }
  }

  // -----------------------------------------------------------------------
  // Properties
  // -----------------------------------------------------------------------

  /**
   * Without a destination the FIFO-pending shim never notifies, whatever
   * the HAL would have delivered; with one and an agent, it notifies
   * exactly when the zero-timeout receive succeeds.
   */
  lemma RxNeedsDestination(f: Option<Found>, received: bool)
    ensures f.Some? && f.value.cache.None? ==> RxCalls(f, received) == []
    ensures f.Some? && f.value.cache.Some? && f.value.agent.Some? ==>
              (RxCalls(f, received) != [] <==> received)
  {
  }

  /**
   * With a zero timeout the receive is not a single attempt: it retries for
   * as long as the tick has not moved, and gives up at the first failure
   * after it has.
   */
  lemma ZeroTimeoutRetriesWithinTick(polls: seq<Poll>, k: nat)
    requires k < |polls| && polls[k].ok
    requires forall j :: 0 <= j < k ==> !polls[j].ok && polls[j].elapsed == 0
    ensures Ends(polls, 0) && Succeeds(polls, 0)
  {
    assert Stops(polls[k], 0);
    assert FirstStop(polls, 0, 0).Some?;
    SucceedsIff(polls, 0, k);
  }
}
