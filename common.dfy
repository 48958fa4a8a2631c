/**
 * Shared vocabulary of the model: raw handles, the error codes of the
 * `ErrValue` enums, `RetValue`-style results, fixed-width integers, the
 * agent calls that interrupt shims make, and facts about arrays of optional
 * slots that every registry uses.
 */
module Common {

  /** A raw C pointer (a HAL handle, a device, a buffer); 0 is null. */
  type Ptr = nat
  const NULL: Ptr := 0

  /** The identity of a `&'static dyn ...Event` agent object. */
  type AgentId = nat

  const U16_LIMIT: nat := 0x1_0000
  const U32_LIMIT: nat := 0x1_0000_0000
  const U32_MAX: nat := 0xFFFF_FFFF

  /** A `u8`. */
  type Byte = b: nat | b < 256

  predicate IsU16(x: int) { 0 <= x < U16_LIMIT }
  predicate IsU32(x: int) { 0 <= x < U32_LIMIT }

  datatype Option<T> = None | Some(value: T)

  /**
   * The union of the `ErrValue`/`IError` variants used by the snapshots of
   * the repository. `NoError` is the `ErrValue::None` variant.
   */
  datatype ErrValue =
    | NoError
    | Param
    | Busy
    | BusBusy
    | Overtime
    | Timeout
    | StackOverflow
    | Permission
    | NullReference
    | MemAlloc
    | MemAllocFailure
    | LowLevelFailure
    | InstanceCreate
    | InstanceCreateFailure
    | InstanceNotFound
    | NotFound
    | InstanceDuplicate
    | InstanceInUse
    | InstanceInvalid
    | NotInclude
    | NotSupport
    | NotAvailable
    | FormatFailure
    | Unknown

  /** `RetValue<T>`, Rust's `Result<T, ErrValue>`. */
  datatype Result<T> = Ok(value: T) | Err(error: ErrValue)

  /** The agent methods that interrupt shims call, with their arguments. */
  datatype Event =
    | IoStateChange
    | CanMessageReceive
    | CanError
    | I2cMasterTxComplete
    | I2cMasterRxComplete
    | I2cMasterError
    | I2cSlaveTxComplete
    | I2cSlaveRxComplete
    | I2cSlaveSelected(direction: nat, addrMatchCode: nat)
    | I2cSlaveListenComplete
    | I2cSlaveError
    | I2cMemWriteComplete
    | I2cMemReadComplete
    | I2cMemError
    | UartTxComplete
    | UartRxSizeComplete
    | UartError
    | UartAbortComplete
    | UartRxComplete(size: nat)
    | SpiTxComplete
    | SpiRxComplete
    | SpiTxRxComplete
    | SpiError
    | SpiAbortComplete
    | AdcConvertOnceComplete(value: nat)
    | AdcLevelOutOfWindow
    | AdcError

  /** One call of an agent method made by a shim. */
  datatype Call = Call(agent: AgentId, event: Event)

  /** `agent.map(|a| a.method())`: one call when an agent is set, none otherwise. */
  function Deliver(agent: Option<AgentId>, e: Event): (calls: seq<Call>)
    ensures |calls| <= 1
    ensures calls == [] <==> agent.None?
    ensures calls != [] ==> calls[0] == Call(agent.value, e)
  {
    match agent
    case None => []
    case Some(a) => [Call(a, e)]
  }

  /** The length of the run of occupied slots at the front of `s`. */
  function PrefixLen<T>(s: seq<Option<T>>): (p: nat)
    ensures p <= |s|
    ensures forall i :: 0 <= i < p ==> s[i].Some?
    ensures p < |s| ==> s[p].None?
  {
    PrefixFrom(s, 0)
  }

  /** The first empty slot at or after `i`, or the length. */
  function PrefixFrom<T>(s: seq<Option<T>>, i: nat): (p: nat)
    requires i <= |s|
    requires forall k :: 0 <= k < i ==> s[k].Some?
    ensures i <= p <= |s|
    ensures forall k :: 0 <= k < p ==> s[k].Some?
    ensures p < |s| ==> s[p].None?
    decreases |s| - i
  {
    if i == |s| || s[i].None? then i else PrefixFrom(s, i + 1)
  }

  /** Occupied slots form a contiguous prefix: nothing follows an empty slot. */
  ghost predicate Packed<T>(s: seq<Option<T>>)
  {
    forall i, j :: 0 <= i < j < |s| && s[i].None? ==> s[j].None?
  }

  lemma PackedTail<T>(s: seq<Option<T>>)
    requires Packed(s)
    ensures forall i :: PrefixLen(s) <= i < |s| ==> s[i].None?
  {
  }

  /** A prefix of occupied slots followed only by empty slots is packed. */
  lemma PackedByPrefix<T>(s: seq<Option<T>>, p: nat)
    requires p <= |s|
    requires forall i :: 0 <= i < p ==> s[i].Some?
    requires forall i :: p <= i < |s| ==> s[i].None?
    ensures Packed(s) && PrefixLen(s) == p
  {
    assert forall i :: 0 <= i < |s| ==> (s[i].Some? <==> i < p);
    assert p < |s| ==> s[p].None?;
  }

  /** Replacing occupied slots by occupied slots keeps the occupied prefix. */
  lemma PrefixLenSameShape<T>(s: seq<Option<T>>, s': seq<Option<T>>)
    requires |s| == |s'| && forall k :: 0 <= k < |s| ==> (s[k].Some? <==> s'[k].Some?)
    ensures PrefixLen(s') == PrefixLen(s)
  {
    var p := PrefixLen(s);
    assert forall k :: 0 <= k < p ==> s'[k].Some?;
    assert p < |s| ==> s'[p].None?;
  }
}
