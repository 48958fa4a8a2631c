/**
 * The return values of the SCES C middleware (`sces-cmw`): `ScesRetVal`,
 * its conversions to and from `ErrValue`, and `map`, which turns a C
 * return value into a `RetValue`. `ScesRetVal` is `#[repr(i32)]` and is
 * read straight from the C functions, whose values `sces.h` defines.
 */
module CmwStatus {
  import opened Common

  datatype ScesRetVal =
    | RetOk
    | ErrParam
    | ErrBusy
    | ErrTimeout
    | ErrStackOverflow
    | ErrPermission
    | ErrNullRef
    | ErrMemAllocFailure
    | ErrLowLevelFailure
    | ErrInstanceCreateFailure
    | ErrInstanceNotFound
    | ErrInstanceDuplicate
    | ErrInstanceInUse
    | ErrInstanceInvalid
    | ErrNotSupport
    | ErrNotAvailable
    | ErrFormatFailure
    | ErrUnknown

  /** The `ErrValue` variants the middleware's crate has. */
  predicate IsScesError(e: ErrValue)
  {
    e in {NoError, Param, Busy, Timeout, StackOverflow, Permission, NullReference, MemAllocFailure,
          LowLevelFailure, InstanceCreateFailure, InstanceNotFound, InstanceDuplicate, InstanceInUse,
          InstanceInvalid, NotSupport, NotAvailable, FormatFailure, Unknown}
  }

  /** `From<ScesRetVal> for ErrValue`: `Ok` is `ErrValue::None`, every error its namesake. */
  function ToErrValue(r: ScesRetVal): (e: ErrValue)
    ensures IsScesError(e)
    ensures e == NoError <==> r == RetOk
  {
    match r
    case RetOk => NoError
    case ErrParam => Param
    case ErrBusy => Busy
    case ErrTimeout => Timeout
    case ErrStackOverflow => StackOverflow
    case ErrPermission => Permission
    case ErrNullRef => NullReference
    case ErrMemAllocFailure => MemAllocFailure
    case ErrLowLevelFailure => LowLevelFailure
    case ErrInstanceCreateFailure => InstanceCreateFailure
    case ErrInstanceNotFound => InstanceNotFound
    case ErrInstanceDuplicate => InstanceDuplicate
    case ErrInstanceInUse => InstanceInUse
    case ErrInstanceInvalid => InstanceInvalid
    case ErrNotSupport => NotSupport
    case ErrNotAvailable => NotAvailable
    case ErrFormatFailure => FormatFailure
    case ErrUnknown => Unknown
  }

  /** `From<ErrValue> for ScesRetVal`. */
  function FromErrValue(e: ErrValue): (r: ScesRetVal)
    requires IsScesError(e)
    ensures r == RetOk <==> e == NoError
  {
    match e
    case NoError => RetOk
    case Param => ErrParam
    case Busy => ErrBusy
    case Timeout => ErrTimeout
    case StackOverflow => ErrStackOverflow
    case Permission => ErrPermission
    case NullReference => ErrNullRef
    case MemAllocFailure => ErrMemAllocFailure
    case LowLevelFailure => ErrLowLevelFailure
    case InstanceCreateFailure => ErrInstanceCreateFailure
    case InstanceNotFound => ErrInstanceNotFound
    case InstanceDuplicate => ErrInstanceDuplicate
    case InstanceInUse => ErrInstanceInUse
    case InstanceInvalid => ErrInstanceInvalid
    case NotSupport => ErrNotSupport
    case NotAvailable => ErrNotAvailable
    case FormatFailure => ErrFormatFailure
    case Unknown => ErrUnknown
  }

  /** The two conversions are inverse to each other, in both directions. */
  lemma RoundTrips(r: ScesRetVal, e: ErrValue)
    ensures FromErrValue(ToErrValue(r)) == r
    ensures IsScesError(e) ==> ToErrValue(FromErrValue(e)) == e
  {
  }

  /** `map(value)`: `Ok(value)` for `Ok`, otherwise `Err` of the converted error. */
  function Map<T>(r: ScesRetVal, value: T): (res: Result<T>)
    ensures res.Ok? <==> r == RetOk
    ensures res.Ok? ==> res.value == value
    ensures res.Err? ==> res.error == ToErrValue(r) && res.error != NoError && FromErrValue(res.error) == r
  {
    if r == RetOk then Ok(value) else Err(ToErrValue(r))
  }

  // -------------------------------------------------------------------------
  // Discriminants
  // -------------------------------------------------------------------------

  /** The discriminant the Rust enum declares. */
  function RustCode(r: ScesRetVal): (c: nat)
  {
    match r
    case RetOk => 0
    case ErrParam => 1
    case ErrBusy => 2
    case ErrTimeout => 3
    case ErrStackOverflow => 4
    case ErrPermission => 5
    case ErrNullRef => 6
    case ErrMemAllocFailure => 7
    case ErrLowLevelFailure => 8
    case ErrInstanceCreateFailure => 9
    case ErrInstanceNotFound => 10
    case ErrInstanceDuplicate => 11
    case ErrInstanceInUse => 12
    case ErrInstanceInvalid => 13
    case ErrNotSupport => 14
    case ErrNotAvailable => 15
    case ErrFormatFailure => 16
    case ErrUnknown => 255
  }

  /** The value `scesRetVal_t` in `sces.h` gives the same return value. */
  function HeaderCode(r: ScesRetVal): (c: nat)
  {
    match r
    case RetOk => 0
    case ErrParam => 1
    case ErrBusy => 2
    case ErrTimeout => 3
    case ErrStackOverflow => 4
    case ErrPermission => 5
    case ErrNullRef => 6
    case ErrMemAllocFailure => 16
    case ErrFormatFailure => 17
    case ErrLowLevelFailure => 18
    case ErrInstanceCreateFailure => 32
    case ErrInstanceNotFound => 33
    case ErrInstanceDuplicate => 34
    case ErrInstanceInUse => 35
    case ErrInstanceInvalid => 36
    case ErrNotSupport => 48
    case ErrNotAvailable => 49
    case ErrUnknown => 255
  }

  /** How Rust reads a C return value as written: by the Rust discriminants; `None` for a value no variant has. */
  function FromCodeAsWritten(c: int): (r: Option<ScesRetVal>)
    ensures r.Some? ==> RustCode(r.value) == c
  {
    if c == 0 then Some(RetOk)
    else if c == 1 then Some(ErrParam)
    else if c == 2 then Some(ErrBusy)
    else if c == 3 then Some(ErrTimeout)
    else if c == 4 then Some(ErrStackOverflow)
    else if c == 5 then Some(ErrPermission)
    else if c == 6 then Some(ErrNullRef)
    else if c == 7 then Some(ErrMemAllocFailure)
    else if c == 8 then Some(ErrLowLevelFailure)
    else if c == 9 then Some(ErrInstanceCreateFailure)
    else if c == 10 then Some(ErrInstanceNotFound)
    else if c == 11 then Some(ErrInstanceDuplicate)
    else if c == 12 then Some(ErrInstanceInUse)
    else if c == 13 then Some(ErrInstanceInvalid)
    else if c == 14 then Some(ErrNotSupport)
    else if c == 15 then Some(ErrNotAvailable)
    else if c == 16 then Some(ErrFormatFailure)
    else if c == 255 then Some(ErrUnknown)
    else None
  }

  /** How a C return value is meant to be read: by the values of `sces.h`. */
  function FromCode(c: int): (r: Option<ScesRetVal>)
    ensures r.Some? ==> HeaderCode(r.value) == c
  {
    if c == 0 then Some(RetOk)
    else if c == 1 then Some(ErrParam)
    else if c == 2 then Some(ErrBusy)
    else if c == 3 then Some(ErrTimeout)
    else if c == 4 then Some(ErrStackOverflow)
    else if c == 5 then Some(ErrPermission)
    else if c == 6 then Some(ErrNullRef)
    else if c == 16 then Some(ErrMemAllocFailure)
    else if c == 17 then Some(ErrFormatFailure)
    else if c == 18 then Some(ErrLowLevelFailure)
    else if c == 32 then Some(ErrInstanceCreateFailure)
    else if c == 33 then Some(ErrInstanceNotFound)
    else if c == 34 then Some(ErrInstanceDuplicate)
    else if c == 35 then Some(ErrInstanceInUse)
    else if c == 36 then Some(ErrInstanceInvalid)
    else if c == 48 then Some(ErrNotSupport)
    else if c == 49 then Some(ErrNotAvailable)
    else if c == 255 then Some(ErrUnknown)
    else None
  }

  /** Read by the header's values, every return value the C side sends is understood as itself. */
  lemma FromCodeInvertsHeader(r: ScesRetVal)
    ensures FromCode(HeaderCode(r)) == Some(r)
  {
  }

  /** The two tables agree exactly on `Ok`, the first six errors and `Unknown`. */
  lemma CodesAgreeOnlyUpToNullRef(r: ScesRetVal)
    ensures RustCode(r) == HeaderCode(r) <==> RustCode(r) <= 6 || r == ErrUnknown
  {
  }

  /**
   * As written, the C side's memory-allocation failure (16) arrives as
   * `ErrFormatFailure`, and its format failure (17) is no variant at all.
   */
  lemma AsWrittenMisreadsHeader()
    ensures FromCodeAsWritten(HeaderCode(ErrMemAllocFailure)) == Some(ErrFormatFailure)
    ensures FromCodeAsWritten(HeaderCode(ErrFormatFailure)).None?
    ensures FromCodeAsWritten(HeaderCode(ErrInstanceNotFound)).None?
  {
  }
}
