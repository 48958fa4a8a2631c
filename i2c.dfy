/**
 * The I2C layer: one peripheral can be driven in three roles (memory
 * access, master, slave), each with its own agent interface. In
 * `sces-mcu-stm32`, `scems-mcu-stm32` and `scems::mcu::vendor::stm::device`
 * the three roles share one `I2C_QUEUE` keyed by handle only: the stored
 * `I2c` enum value is the role, and `allocate_*` / `search_*` check it. In
 * the `scems::mcu::vendors::stm::wrapper` snapshot the table `I2CS` holds
 * the address of an `I2cDevice` union and the shims read the role view the
 * callback names, whatever role the device really has.
 */
module I2c {
  import opened Common
  import SQ = SampleQueue
  import DR = DeviceRegistry
  import LSQ = LegacySampleQueue
  import LD = LegacyDevices

  /** The variant of the `I2c` enum: `Mem`, `Master` or `Slave`. */
  datatype Role = MemRole | MasterRole | SlaveRole

  /** `HAL_I2C_ModeTypeDef`, the `Mode` field the error shim reads from the handle. */
  datatype Mode = ModeNone | ModeMaster | ModeSlave | ModeMem

  /** The HAL callbacks the layer defines. `Addr` carries the raw direction byte and the address-match code. */
  datatype Callback =
    | MasterTxCplt
    | MasterRxCplt
    | SlaveTxCplt
    | SlaveRxCplt
    | Addr(direction: nat, addrMatchCode: nat)
    | ListenCplt
    | MemTxCplt
    | MemRxCplt
    | ErrorCallback(mode: Mode)

  /** The role a shim searches for and the agent method it calls. */
  datatype Target = Target(role: Role, event: Event)

  /**
   * The routing table of the shims: master completions go to the master
   * agent, slave completions, address match and listen completion to the
   * slave agent, memory completions to the memory agent; the error shim
   * picks the role from the handle's mode and does nothing in mode `None`.
   */
  function Route(cb: Callback): (t: Option<Target>)
    ensures t.None? <==> cb == ErrorCallback(ModeNone)
  {
    match cb
    case MasterTxCplt => Some(Target(MasterRole, I2cMasterTxComplete))
    case MasterRxCplt => Some(Target(MasterRole, I2cMasterRxComplete))
    case SlaveTxCplt => Some(Target(SlaveRole, I2cSlaveTxComplete))
    case SlaveRxCplt => Some(Target(SlaveRole, I2cSlaveRxComplete))
    case Addr(d, c) => Some(Target(SlaveRole, I2cSlaveSelected(d, c)))
    case ListenCplt => Some(Target(SlaveRole, I2cSlaveListenComplete))
    case MemTxCplt => Some(Target(MemRole, I2cMemWriteComplete))
    case MemRxCplt => Some(Target(MemRole, I2cMemReadComplete))
    case ErrorCallback(m) =>
      match m
      case ModeNone => None
      case ModeMaster => Some(Target(MasterRole, I2cMasterError))
      case ModeSlave => Some(Target(SlaveRole, I2cSlaveError))
      case ModeMem => Some(Target(MemRole, I2cMemError))
  }

  /** The agent interface each I2C event belongs to: `I2cMasterCtrlEvent`, `I2cSlaveCtrlEvent` or `I2cMemCtrlEvent`. */
  function InterfaceOf(e: Event): Option<Role>
  {
    match e
    case I2cMasterTxComplete => Some(MasterRole)
    case I2cMasterRxComplete => Some(MasterRole)
    case I2cMasterError => Some(MasterRole)
    case I2cSlaveTxComplete => Some(SlaveRole)
    case I2cSlaveRxComplete => Some(SlaveRole)
    case I2cSlaveSelected(_, _) => Some(SlaveRole)
    case I2cSlaveListenComplete => Some(SlaveRole)
    case I2cSlaveError => Some(SlaveRole)
    case I2cMemWriteComplete => Some(MemRole)
    case I2cMemReadComplete => Some(MemRole)
    case I2cMemError => Some(MemRole)
    case _ => None
  }

  /** The role a mode selects. */
  function ModeRole(m: Mode): Option<Role>
  {
    match m
    case ModeNone => None
    case ModeMaster => Some(MasterRole)
    case ModeSlave => Some(SlaveRole)
    case ModeMem => Some(MemRole)
  }

  /**
   * Every routed callback calls a method of the interface of the role it
   * searches for, distinct callbacks call distinct methods, the error shim
   * follows the mode, and the address callback passes its arguments on.
   */
  lemma RouteIsWellTyped(cb: Callback, cb': Callback)
    ensures Route(cb).Some? ==> InterfaceOf(Route(cb).value.event) == Some(Route(cb).value.role)
    ensures Route(cb).Some? && Route(cb') == Route(cb) ==> cb' == cb
    ensures cb.ErrorCallback? ==> (Route(cb).Some? <==> ModeRole(cb.mode).Some?) &&
                                  (Route(cb).Some? ==> Route(cb).value.role == ModeRole(cb.mode).value)
    ensures cb.Addr? ==> Route(cb).value.event == I2cSlaveSelected(cb.direction, cb.addrMatchCode)
  {
  }

  /**
   * The calls of a shim for callback `cb` when the handle's entry is
   * `found`: one call to the entry's agent when the callback is routed,
   * the entry has the routed role and an agent; none otherwise.
   */
  function Routed(found: Option<DR.Device<Role>>, cb: Callback): (calls: seq<Call>)
    ensures |calls| <= 1
    ensures |calls| == 1 <==> Route(cb).Some? && found.Some? && found.value.extra == Route(cb).value.role && found.value.agent.Some?
    ensures calls != [] ==> calls[0] == Call(found.value.agent.value, Route(cb).value.event)
  {
    match Route(cb)
    case None => []
    case Some(t) =>
      if found.Some? && found.value.extra == t.role then Deliver(found.value.agent, t.event) else []
  }

  // -----------------------------------------------------------------------
  // `I2cQueue` over a `SampleQueue` (`sces-mcu-stm32`, `scems-mcu-stm32`)
  // -----------------------------------------------------------------------

  /** The entry the queue holds for `handle`, whatever its role. */
  function Registered(reg: DR.Registry<Role>, s: seq<Option<DR.Device<Role>>>, handle: Ptr): Option<DR.Device<Role>>
  {
    match reg.Slot(s, handle)
    case None => None
    case Some(i) => s[i]
  }

  /**
   * `allocate_mem` / `allocate_master` / `allocate_slave`: `Param` for a
   * null handle, the queue's `allocate` otherwise; when the handle already
   * holds an entry of another role, that entry is left as it is and the
   * result is `Unknown`.
   */
  function AllocateRoleSpec(reg: DR.Registry<Role>, s: seq<Option<DR.Device<Role>>>, handle: Ptr, role: Role): (a: SQ.Alloc<DR.Device<Role>>)
    ensures |a.slots| == |s|
    ensures handle == NULL ==> a == SQ.Alloc(Err(Param), s)
    ensures a.result.Ok? ==> a.result.value < |s| && a.slots[a.result.value].Some? && a.slots[a.result.value].value.extra == role
    ensures a.result.Err? ==> a.result.error in {Param, StackOverflow, Unknown}
  {
    var a := reg.AllocateSpec(s, handle, role);
    if a.result.Ok? && a.slots[a.result.value].value.extra != role then SQ.Alloc(Err(Unknown), a.slots) else a
  }

  method AllocateRole(reg: DR.Registry<Role>, handle: Ptr, role: Role) returns (r: Result<nat>)
    requires reg.Valid()
    modifies reg.queue.samples
    ensures r == AllocateRoleSpec(reg, old(reg.queue.samples[..]), handle, role).result
    ensures reg.queue.samples[..] == AllocateRoleSpec(reg, old(reg.queue.samples[..]), handle, role).slots
    ensures reg.Valid()
  {
    r := reg.Allocate(handle, role);
    if r.Ok? && reg.queue.samples[r.value].value.extra != role {
      r := Err(Unknown);
    }
  }

  /**
   * `search_mem` / `search_master` / `search_slave`: `nullError` for a null
   * handle (`Param` in `sces-mcu-stm32`; in `scems-mcu-stm32` the queue
   * matches no null handle, so `InstanceNotFound`), `InstanceNotFound` for a
   * handle that is not registered or registered in another role.
   */
  function SearchRoleSpec(reg: DR.Registry<Role>, s: seq<Option<DR.Device<Role>>>, handle: Ptr, role: Role, nullError: ErrValue): (r: Result<nat>)
    ensures r.Ok? <==> Registered(reg, s, handle).Some? && Registered(reg, s, handle).value.extra == role
    ensures r.Ok? ==> r.value < |s| && s[r.value] == Registered(reg, s, handle)
    ensures r.Err? ==> r.error == if handle == NULL then nullError else InstanceNotFound
  {
    if handle == NULL then Err(nullError)
    else match reg.Slot(s, handle)
      case None => Err(InstanceNotFound)
      case Some(i) => if s[i].value.extra == role then Ok(i) else Err(InstanceNotFound)
  }

  method SearchRole(reg: DR.Registry<Role>, handle: Ptr, role: Role, nullError: ErrValue) returns (r: Result<nat>)
    requires reg.Valid()
    ensures r == SearchRoleSpec(reg, reg.queue.samples[..], handle, role, nullError)
  {
    if handle == NULL {
      return Err(nullError);
    }
    r := reg.Search(handle);
    if r.Ok? && reg.queue.samples[r.value].value.extra != role {
      r := Err(InstanceNotFound);
    }
  }

  /** Every I2C shim: route the callback, search for the routed role, call the agent if one is set. */
  method Shim(reg: DR.Registry<Role>, handle: Ptr, cb: Callback, nullError: ErrValue) returns (calls: seq<Call>)
    requires reg.Valid()
    ensures calls == Routed(Registered(reg, reg.queue.samples[..], handle), cb)
  {
    match Route(cb) {
      case None =>
        calls := [];
      case Some(t) =>
        var r := SearchRole(reg, handle, t.role, nullError);
        calls := if r.Ok? then Deliver(reg.queue.samples[r.value].value.agent, t.event) else [];
    }
  }

  /**
   * After `allocate_*` for a role succeeds and the agent is set through the
   * returned entry, every callback routed to that role calls the agent
   * once, and every other callback for the handle calls nothing.
   */
  lemma AllocateSetThenRoute(reg: DR.Registry<Role>, s: seq<Option<DR.Device<Role>>>, handle: Ptr, role: Role, a: AgentId, cb: Callback)
    requires reg.Valid() && Packed(s) && AllocateRoleSpec(reg, s, handle, role).result.Ok?
    ensures var al := AllocateRoleSpec(reg, s, handle, role);
            var i := al.result.value;
            var s' := al.slots[i := Some(al.slots[i].value.(agent := Some(a)))];
            Routed(Registered(reg, s', handle), cb) ==
              if Route(cb).Some? && Route(cb).value.role == role then [Call(a, Route(cb).value.event)] else []
  {
    var al := AllocateRoleSpec(reg, s, handle, role);
    var i := al.result.value;
    reg.queue.AllocateThenFind(s, DR.Device(handle, None, role), 0);
    reg.AgentChangeKeepsSlots(al.slots, i, Some(a), handle);
  }

  /**
   * A handle bound to one role cannot be allocated in another: the result
   * is `Unknown`, the queue is unchanged, and the existing entry keeps
   * receiving its own role's callbacks.
   */
  lemma CrossRoleAllocateFails(reg: DR.Registry<Role>, s: seq<Option<DR.Device<Role>>>, handle: Ptr, role: Role)
    requires reg.Valid() && Registered(reg, s, handle).Some? && Registered(reg, s, handle).value.extra != role
    ensures AllocateRoleSpec(reg, s, handle, role) == SQ.Alloc(Err(Unknown), s)
  {
  }

  /** Allocating the same role again returns the same entry and changes nothing. */
  lemma SameRoleReallocate(reg: DR.Registry<Role>, s: seq<Option<DR.Device<Role>>>, handle: Ptr, role: Role)
    requires reg.Valid() && Packed(s) && AllocateRoleSpec(reg, s, handle, role).result.Ok?
    ensures var al := AllocateRoleSpec(reg, s, handle, role);
            AllocateRoleSpec(reg, al.slots, handle, role) == SQ.Alloc(al.result, al.slots)
  {
    reg.queue.AllocateIdempotent(s, DR.Device(handle, None, role), 0);
  }

  /** A search in the wrong role fails with `InstanceNotFound` although the handle is registered. */
  lemma WrongRoleNotFound(reg: DR.Registry<Role>, s: seq<Option<DR.Device<Role>>>, handle: Ptr, role: Role, nullError: ErrValue)
    requires Registered(reg, s, handle).Some? && Registered(reg, s, handle).value.extra != role
    ensures SearchRoleSpec(reg, s, handle, role, nullError) == Err(InstanceNotFound)
  {
  }

  // -----------------------------------------------------------------------
  // `I2cQueue` over the channel-less queue (`scems::mcu::vendor::stm::device`)
  // -----------------------------------------------------------------------

  /**
   * The queue is keyed by the entry's handle and carries no channels: all
   * that allocation, search and the as-written clean need, on any slots.
   */
  ghost predicate LegacyKeyed(q: LSQ.LegacySampleQueue<DR.Device<Role>>)
  {
    q.ChannelFree() && q.q.handleOf == ((d: DR.Device<Role>) => d.handle)
  }

  /** Keyed, with packed slots: what the intended removal keeps. */
  ghost predicate LegacyValid(q: LSQ.LegacySampleQueue<DR.Device<Role>>)
    reads q.q.samples
  {
    q.Valid() && LegacyKeyed(q)
  }

  /** The entry the queue's `search` finds for `handle`, whatever its role. */
  function LegacyRegistered(q: LSQ.LegacySampleQueue<DR.Device<Role>>, s: seq<Option<DR.Device<Role>>>, handle: Ptr): Option<DR.Device<Role>>
  {
    if handle == NULL then None
    else match q.q.Find(s, handle, 0)
      case None => None
      case Some(i) => s[i]
  }

  /** `allocate_*` of this snapshot: the same rule over the channel-less queue. */
  function LegacyAllocateRoleSpec(q: LSQ.LegacySampleQueue<DR.Device<Role>>, s: seq<Option<DR.Device<Role>>>, handle: Ptr, role: Role): (a: SQ.Alloc<DR.Device<Role>>)
    ensures |a.slots| == |s|
    ensures handle == NULL ==> a == SQ.Alloc(Err(Param), s)
    ensures a.result.Ok? ==> a.result.value < |s| && a.slots[a.result.value].Some? && a.slots[a.result.value].value.extra == role
  {
    if handle == NULL then SQ.Alloc(Err(Param), s)
    else
      var a := q.q.AllocateSpec(s, DR.Device(handle, None, role), 0);
      if a.result.Ok? && a.slots[a.result.value].value.extra != role then SQ.Alloc(Err(Unknown), a.slots) else a
  }

  method LegacyAllocateRole(q: LSQ.LegacySampleQueue<DR.Device<Role>>, handle: Ptr, role: Role) returns (r: Result<nat>)
    requires LegacyKeyed(q)
    modifies q.q.samples
    ensures r == LegacyAllocateRoleSpec(q, old(q.q.samples[..]), handle, role).result
    ensures q.q.samples[..] == LegacyAllocateRoleSpec(q, old(q.q.samples[..]), handle, role).slots
    ensures old(LegacyValid(q)) ==> LegacyValid(q)
  {
    var d := DR.NewDevice(handle, role);
    if d.Err? {
      return Err(d.error);
    }
    r := q.Allocate(d.value);
    if r.Ok? && q.q.samples[r.value].value.extra != role {
      r := Err(Unknown);
    }
  }

  /** `clean` of this snapshot, with the queue's removal as intended. */
  method LegacyClean(q: LSQ.LegacySampleQueue<DR.Device<Role>>, handle: Ptr)
    requires LegacyValid(q)
    modifies q.q.samples
    ensures q.q.samples[..] == q.q.Cleaned(old(q.q.samples[..]), handle, 0)
    ensures LegacyValid(q)
  {
    q.Clean(handle);
  }

  /**
   * `clean` of this snapshot as written: the legacy queue's own removal loop. `panicked` is the
   * index panic of a match in the last slot; otherwise the slots are what
   * that loop leaves, later entries cut off included.
   */
  method LegacyCleanAsWritten(q: LSQ.LegacySampleQueue<DR.Device<Role>>, handle: Ptr) returns (panicked: bool)
    requires LegacyKeyed(q)
    modifies q.q.samples
    ensures var c := q.CleanedAsWritten(old(q.q.samples[..]), handle);
            (panicked <==> c.None?) &&
            (c.Some? ==> q.q.samples[..] == c.value) &&
            (c.None? ==> q.q.samples[..] == old(q.q.samples[..]))
  {
    panicked := q.CleanAsWritten(handle);
  }

  /** `search_*` of this snapshot: `Param` for null (from the queue), `InstanceNotFound` for a missing handle or another role. */
  function LegacySearchRoleSpec(q: LSQ.LegacySampleQueue<DR.Device<Role>>, s: seq<Option<DR.Device<Role>>>, handle: Ptr, role: Role): (r: Result<nat>)
    ensures r.Ok? <==> LegacyRegistered(q, s, handle).Some? && LegacyRegistered(q, s, handle).value.extra == role
    ensures r.Ok? ==> r.value < |s| && s[r.value] == LegacyRegistered(q, s, handle)
    ensures r.Err? ==> r.error == if handle == NULL then Param else InstanceNotFound
  {
    if handle == NULL then Err(Param)
    else match q.q.Find(s, handle, 0)
      case None => Err(InstanceNotFound)
      case Some(i) => if s[i].value.extra == role then Ok(i) else Err(InstanceNotFound)
  }

  method LegacySearchRole(q: LSQ.LegacySampleQueue<DR.Device<Role>>, handle: Ptr, role: Role) returns (r: Result<nat>)
    requires LegacyKeyed(q)
    ensures r == LegacySearchRoleSpec(q, q.q.samples[..], handle, role)
  {
    r := q.Search(handle);
    if r.Ok? && q.q.samples[r.value].value.extra != role {
      r := Err(InstanceNotFound);
    }
  }

  /** The shims of this snapshot. */
  method LegacyShim(q: LSQ.LegacySampleQueue<DR.Device<Role>>, handle: Ptr, cb: Callback) returns (calls: seq<Call>)
    requires LegacyKeyed(q)
    ensures calls == Routed(LegacyRegistered(q, q.q.samples[..], handle), cb)
  {
    match Route(cb) {
      case None =>
        calls := [];
      case Some(t) =>
        var r := LegacySearchRole(q, handle, t.role);
        calls := if r.Ok? then Deliver(q.q.samples[r.value].value.agent, t.event) else [];
    }
  }

  /** In this snapshot too a handle bound to one role cannot be allocated in another. */
  lemma LegacyCrossRoleAllocateFails(q: LSQ.LegacySampleQueue<DR.Device<Role>>, s: seq<Option<DR.Device<Role>>>, handle: Ptr, role: Role)
    requires LegacyKeyed(q) && LegacyRegistered(q, s, handle).Some? && LegacyRegistered(q, s, handle).value.extra != role
    ensures LegacyAllocateRoleSpec(q, s, handle, role) == SQ.Alloc(Err(Unknown), s)
  {
  }

  // -----------------------------------------------------------------------
  // The `I2cDevice` union table (`scems::mcu::vendors::stm::wrapper`)
  // -----------------------------------------------------------------------

  /**
   * The wrapper shims: find the device by handle, then read the agent
   * through the role view the callback names. The three role structs share
   * one layout, so the view is the device's own agent whatever its role;
   * registration and `set/clean_event_agent` are those of every wrapper.
   */
  method WrapperShim(t: LD.DeviceTable, handle: Ptr, cb: Callback) returns (calls: seq<Call>)
    requires t.Valid()
    ensures calls == if Route(cb).None? then [] else t.Notified(t.queue.samples[..], t.agents, handle, Route(cb).value.event)
  {
    match Route(cb) {
      case None =>
        calls := [];
      case Some(target) =>
        calls := t.Notify(handle, target.event);
    }
  }

  /**
   * The union table does not check roles: a registered device with an
   * agent gets every routed callback for its handle, including those of
   * the other two roles, where the role-checked queues deliver only its
   * own role's.
   */
  lemma WrapperIgnoresRole(t: LD.DeviceTable, s: seq<Option<Ptr>>, m: map<Ptr, Option<AgentId>>, handle: Ptr, dev: Ptr, a: AgentId, cb: Callback)
    requires t.queue.FindSpec(s, handle) == Ok(dev) && t.AgentOf(m, dev) == Some(a) && Route(cb).Some?
    ensures t.Notified(s, m, handle, Route(cb).value.event) == [Call(a, Route(cb).value.event)]
    ensures forall r: Role :: r != Route(cb).value.role ==> Routed(Some(DR.Device(handle, Some(a), r)), cb) == []
  {
  }
}
