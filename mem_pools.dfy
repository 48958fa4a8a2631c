/**
 * The global allocators built from fixed-block memory pools. Each keeps
 * four pools and serves a request from the first pool, in order, whose
 * blocks are large enough; freeing picks the pool by the same rule. The
 * RTOS pool calls (`osMemoryPoolNew`, `osMemoryPoolAlloc`,
 * `osMemoryPoolFree`, `MemPool::new`, `alloc`, `free`) are foreign code:
 * what they return is a parameter, and the calls made are returned.
 *
 * - `CmsisMemSpace`: `scems-os-cmsis` `mem.rs`.
 * - `NativeMemSpace`: `sces-implements` `sces-os-cmsis` `mem.rs`.
 * - `MemorySpace`: `sces` `os/mem.rs`, four typed pool spaces.
 */
module MemPools {
  import opened Common

  const MEM_POOL_NUM: nat := 4

  /**
   * The first pool, in order, that is usable and whose blocks hold `size`
   * bytes; `None` when no pool fits.
   */
  function FirstFit(caps: seq<nat>, usable: seq<bool>, size: nat): (r: Option<nat>)
    requires |usable| == |caps|
    ensures r.Some? ==> r.value < |caps| && usable[r.value] && size <= caps[r.value]
    ensures r.Some? ==> forall j :: 0 <= j < r.value ==> !(usable[j] && size <= caps[j])
    ensures r.None? <==> forall j :: 0 <= j < |caps| ==> !(usable[j] && size <= caps[j])
  {
    if caps == [] then None
    else if usable[0] && size <= caps[0] then Some(0)
    else match FirstFit(caps[1..], usable[1..], size)
      case None => None
      case Some(k) => Some(k + 1)
  }

  /** With pools in increasing block size, the first fit is the smallest block that fits. */
  lemma FirstFitIsBestFitWhenSorted(caps: seq<nat>, usable: seq<bool>, size: nat, j: nat)
    requires |usable| == |caps|
    requires forall a, b :: 0 <= a < b < |caps| ==> caps[a] <= caps[b]
    requires j < |caps| && usable[j] && size <= caps[j]
    ensures FirstFit(caps, usable, size).Some?
    ensures caps[FirstFit(caps, usable, size).value] <= caps[j]
  {
  }

  /** `size as u32`: the request size truncated to 32 bits. */
  function Trunc32(size: nat): (t: nat)
    ensures IsU32(t) && (IsU32(size) ==> t == size)
  {
    size % U32_LIMIT
  }

  /** A pool slot: its pool handle (null until created), block count and block size. */
  datatype MemBlock = MemBlock(handle: Ptr, blockCount: nat, blockSize: nat)

  /** A zone handed to `initialize`: block count, block size and the buffer's address. */
  datatype MemZone = MemZone(blockCount: nat, blockSize: nat, address: Ptr)

  /** One `osMemoryPoolNew` call: count, size, buffer, and the buffer size asked for (`count * size` on `u32`). */
  datatype PoolRequest = PoolRequest(blockCount: nat, blockSize: nat, address: Ptr, bytes: nat)

  function Request(z: MemZone): (q: PoolRequest)
    ensures q.blockCount == z.blockCount && q.blockSize == z.blockSize && q.address == z.address
    ensures IsU32(q.bytes) && (IsU32(z.blockCount * z.blockSize) ==> q.bytes == z.blockCount * z.blockSize)
  {
    PoolRequest(z.blockCount, z.blockSize, z.address, (z.blockCount * z.blockSize) % U32_LIMIT)
  }

  function Sizes(s: seq<MemBlock>): (caps: seq<nat>)
    ensures |caps| == |s| && forall i :: 0 <= i < |s| ==> caps[i] == s[i].blockSize
  {
    seq(|s|, i requires 0 <= i < |s| => s[i].blockSize)
  }

  function AllUsable(n: nat): (u: seq<bool>)
    ensures |u| == n && forall i :: 0 <= i < n ==> u[i]
  {
    seq(n, _ => true)
  }

  function NonEmpty(s: seq<MemBlock>): (u: seq<bool>)
    ensures |u| == |s| && forall i :: 0 <= i < |s| ==> (u[i] <==> s[i].blockCount != 0)
  {
    seq(|s|, i requires 0 <= i < |s| => s[i].blockCount != 0)
  }

  /** The first position at or after `i` whose `created` handle is null and whose zone is `attempted`. */
  function FirstFailure(zones: seq<MemZone>, created: seq<Ptr>, skipEmpty: bool, i: nat): (r: Option<nat>)
    requires |created| == |zones| && i <= |zones|
    ensures r.Some? ==> i <= r.value < |zones| && Attempted(zones[r.value], skipEmpty) && created[r.value] == NULL
    ensures r.Some? ==> forall j :: i <= j < r.value && Attempted(zones[j], skipEmpty) ==> created[j] != NULL
    ensures r.None? ==> forall j :: i <= j < |zones| && Attempted(zones[j], skipEmpty) ==> created[j] != NULL
    decreases |zones| - i
  {
    if i == |zones| then None
    else if Attempted(zones[i], skipEmpty) && created[i] == NULL then Some(i)
    else FirstFailure(zones, created, skipEmpty, i + 1)
  }

  /** Whether `initialize` creates a pool for a zone: always in `scems`, only for a non-empty zone in `sces-implements`. */
  predicate Attempted(z: MemZone, skipEmpty: bool)
  {
    !skipEmpty || (z.blockCount != 0 && z.blockSize != 0)
  }

  /** Whether `initialize` reaches zone `i`: it stops after the first failure. */
  predicate Reached(zones: seq<MemZone>, created: seq<Ptr>, skipEmpty: bool, i: nat)
    requires |created| == |zones| && i <= |zones|
  {
    var f := FirstFailure(zones, created, skipEmpty, 0);
    f.None? || i <= f.value
  }

  /** Zones before `i` that succeeded do not change where the first failure is. */
  lemma {:induction false} FailureFrom(zones: seq<MemZone>, created: seq<Ptr>, skipEmpty: bool, i: nat)
    requires |created| == |zones| && i <= |zones|
    requires forall j :: 0 <= j < i && Attempted(zones[j], skipEmpty) ==> created[j] != NULL
    ensures FirstFailure(zones, created, skipEmpty, 0) == FirstFailure(zones, created, skipEmpty, i)
    decreases i
  {
    if i > 0 {
      FailureFrom(zones, created, skipEmpty, i - 1);
      assert FirstFailure(zones, created, skipEmpty, i - 1) == FirstFailure(zones, created, skipEmpty, i);
    }
  }

  /** A failure at `f` after successes only: exactly the zones up to `f` are reached. */
  lemma ReachedUpTo(zones: seq<MemZone>, created: seq<Ptr>, skipEmpty: bool, f: nat)
    requires |created| == |zones| && f < |zones| && Attempted(zones[f], skipEmpty) && created[f] == NULL
    requires forall j :: 0 <= j < f && Attempted(zones[j], skipEmpty) ==> created[j] != NULL
    ensures FirstFailure(zones, created, skipEmpty, 0) == Some(f)
    ensures forall i :: 0 <= i <= |zones| ==> (Reached(zones, created, skipEmpty, i) <==> i <= f)
  {
    FailureFrom(zones, created, skipEmpty, f);
  }

  /** Successes only: no failure, and every zone is reached. */
  lemma ReachedAll(zones: seq<MemZone>, created: seq<Ptr>, skipEmpty: bool)
    requires |created| == |zones|
    requires forall j :: 0 <= j < |zones| && Attempted(zones[j], skipEmpty) ==> created[j] != NULL
    ensures FirstFailure(zones, created, skipEmpty, 0).None?
    ensures forall i :: 0 <= i <= |zones| ==> Reached(zones, created, skipEmpty, i)
  {
    FailureFrom(zones, created, skipEmpty, |zones|);
  }

  /** The requests issued for the zones below `n` that are attempted when empty zones are skipped, in zone order. */
  function NonEmptyRequests(zones: seq<MemZone>, n: nat): (qs: seq<PoolRequest>)
    requires n <= |zones|
    ensures |qs| <= n
    ensures forall q :: q in qs ==> exists i :: 0 <= i < n && Attempted(zones[i], true) && q == Request(zones[i])
    decreases n
  {
    if n == 0 then []
    else NonEmptyRequests(zones, n - 1) + (if Attempted(zones[n - 1], true) then [Request(zones[n - 1])] else [])
  }

  /** When the zones below `n` are all reached, so is the zone of every request issued for them. */
  lemma RequestsReached(zones: seq<MemZone>, created: seq<Ptr>, n: nat)
    requires |created| == |zones| && n <= |zones|
    requires forall i :: 0 <= i < n ==> Reached(zones, created, true, i)
    ensures forall q :: q in NonEmptyRequests(zones, n) ==>
              exists i :: 0 <= i < |zones| && Reached(zones, created, true, i) && Attempted(zones[i], true) && q == Request(zones[i])
  {
  }

  /** The handles `finalize` deletes: the non-null ones, in order. */
  function LiveHandles(s: seq<MemBlock>): (hs: seq<Ptr>)
    ensures forall h :: h in hs ==> h != NULL
    ensures forall i :: 0 <= i < |s| && s[i].handle != NULL ==> s[i].handle in hs
    ensures |hs| <= |s|
  {
    if s == [] then []
    else
      var init := LiveHandles(s[..|s| - 1]);
      assert forall i :: 0 <= i < |s| - 1 ==> s[..|s| - 1][i] == s[i];
      if s[|s| - 1].handle != NULL then init + [s[|s| - 1].handle] else init
  }

  // -------------------------------------------------------------------------
  // `scems-os-cmsis`
  // -------------------------------------------------------------------------

  class CmsisMemSpace {
    const mem: array<MemBlock>

    ghost predicate Valid()
    {
      mem.Length == MEM_POOL_NUM
    }

    /** `MemSpace::new`: four blocks with null handles, count and size 0. */
    constructor ()
      ensures Valid() && fresh(mem) && forall i :: 0 <= i < MEM_POOL_NUM ==> mem[i] == MemBlock(NULL, 0, 0)
    {
      mem := new MemBlock[MEM_POOL_NUM](_ => MemBlock(NULL, 0, 0));
    }

    /**
     * `initialize`: zones 0..3 in order; each block records its zone and
     * the handle `osMemoryPoolNew` returned (`created[i]`). A null handle
     * stops with `InstanceCreate`, leaving later blocks untouched.
     */
    method Initialize(zones: seq<MemZone>, created: seq<Ptr>) returns (r: Result<()>, requests: seq<PoolRequest>)
      requires Valid() && |zones| == MEM_POOL_NUM && |created| == MEM_POOL_NUM
      modifies mem
      ensures Valid()
      ensures r.Ok? <==> FirstFailure(zones, created, false, 0).None?
      ensures r.Err? ==> r.error == InstanceCreate
      ensures forall i :: 0 <= i < MEM_POOL_NUM ==>
                mem[i] == if Reached(zones, created, false, i)
                          then MemBlock(created[i], zones[i].blockCount, zones[i].blockSize) else old(mem[i])
      ensures |requests| <= MEM_POOL_NUM
      ensures forall i :: 0 <= i < MEM_POOL_NUM ==> (i < |requests| <==> Reached(zones, created, false, i))
      ensures forall i :: 0 <= i < |requests| ==> requests[i] == Request(zones[i])
    {
      requests := [];
      for idx := 0 to MEM_POOL_NUM
        invariant |requests| == idx
        invariant forall j :: 0 <= j < idx ==> requests[j] == Request(zones[j])
        invariant forall j :: 0 <= j < idx ==> created[j] != NULL
        invariant forall j :: 0 <= j < idx ==> mem[j] == MemBlock(created[j], zones[j].blockCount, zones[j].blockSize)
        invariant forall j :: idx <= j < MEM_POOL_NUM ==> mem[j] == old(mem[j])
      {
        requests := requests + [Request(zones[idx])];
        mem[idx] := MemBlock(created[idx], zones[idx].blockCount, zones[idx].blockSize);
        if created[idx] == NULL {
          ReachedUpTo(zones, created, false, idx);
          return Err(InstanceCreate), requests;
        }
      }
      ReachedAll(zones, created, false);
      return Ok(()), requests;
    }

    /** `finalize`: delete every pool whose handle is not null, in order. */
    method Finalize() returns (deleted: seq<Ptr>)
      requires Valid()
      ensures deleted == LiveHandles(mem[..])
    {
      deleted := [];
      for i := 0 to mem.Length
        invariant deleted == LiveHandles(mem[..i])
      {
        assert mem[..i + 1][..i] == mem[..i];
        if mem[i].handle != NULL {
          deleted := deleted + [mem[i].handle];
        }
      }
      assert mem[..mem.Length] == mem[..];
    }

    /** `choose_block`: the handle of the first block whose size holds the request (truncated to `u32`), else `MemAlloc`. */
    method ChooseBlock(size: nat) returns (r: Result<Ptr>)
      requires Valid()
      ensures var f := FirstFit(Sizes(mem[..]), AllUsable(MEM_POOL_NUM), Trunc32(size));
              (r.Ok? <==> f.Some?) && (r.Ok? ==> r.value == mem[f.value].handle) && (r.Err? ==> r.error == MemAlloc)
    {
      ghost var caps, usable := Sizes(mem[..]), AllUsable(MEM_POOL_NUM);
      var want := Trunc32(size);
      for i := 0 to mem.Length
        invariant forall j :: 0 <= j < i ==> !(usable[j] && want <= caps[j])
      {
        if want <= mem[i].blockSize {
          return Ok(mem[i].handle);
        }
      }
      return Err(MemAlloc);
    }

    /** `alloc`: a block from the chosen pool (`got` is what `osMemoryPoolAlloc` returns), null when no pool fits. */
    method Alloc(size: nat, got: Ptr) returns (p: Ptr, pool: Option<Ptr>)
      requires Valid()
      ensures var f := FirstFit(Sizes(mem[..]), AllUsable(MEM_POOL_NUM), Trunc32(size));
              (f.None? ==> p == NULL && pool.None?) && (f.Some? ==> p == got && pool == Some(mem[f.value].handle))
    {
      var mp := ChooseBlock(size);
      if mp.Ok? {
        return got, Some(mp.value);
      }
      return NULL, None;
    }

    /** `dealloc`: `ptr` goes back to the pool `alloc` chooses for the same size; nothing when none fits. */
    method Dealloc(ptr: Ptr, size: nat) returns (pool: Option<Ptr>)
      requires Valid()
      ensures var f := FirstFit(Sizes(mem[..]), AllUsable(MEM_POOL_NUM), Trunc32(size));
              (f.None? ==> pool.None?) && (f.Some? ==> pool == Some(mem[f.value].handle))
    {
      var mp := ChooseBlock(size);
      if mp.Ok? {
        return Some(mp.value);
      }
      return None;
    }
  }

  // -------------------------------------------------------------------------
  // `sces-implements` `sces-os-cmsis`
  // -------------------------------------------------------------------------

  class NativeMemSpace {
    const mem: array<MemBlock>

    ghost predicate Valid()
    {
      mem.Length == MEM_POOL_NUM
    }

    /** `MemSpace::new`: four blocks with null handles, count and size 0. */
    constructor ()
      ensures Valid() && fresh(mem) && forall i :: 0 <= i < MEM_POOL_NUM ==> mem[i] == MemBlock(NULL, 0, 0)
    {
      mem := new MemBlock[MEM_POOL_NUM](_ => MemBlock(NULL, 0, 0));
    }

    /**
     * `initialize`: zones with a zero count or size are skipped; for the
     * others `create_pool` records the zone and the handle; the first
     * null handle aborts with `MemAllocFailure`.
     */
    method Initialize(zones: seq<MemZone>, created: seq<Ptr>) returns (r: Result<()>, requests: seq<PoolRequest>)
      requires Valid() && |zones| == MEM_POOL_NUM && |created| == MEM_POOL_NUM
      modifies mem
      ensures Valid()
      ensures r.Ok? <==> FirstFailure(zones, created, true, 0).None?
      ensures r.Err? ==> r.error == MemAllocFailure
      ensures forall i :: 0 <= i < MEM_POOL_NUM ==>
                mem[i] == if Reached(zones, created, true, i) && Attempted(zones[i], true)
                          then MemBlock(created[i], zones[i].blockCount, zones[i].blockSize) else old(mem[i])
      ensures forall q :: q in requests ==> exists i :: 0 <= i < MEM_POOL_NUM && Reached(zones, created, true, i) && Attempted(zones[i], true) && q == Request(zones[i])
      ensures requests == NonEmptyRequests(zones, match FirstFailure(zones, created, true, 0)
                                                  case None => MEM_POOL_NUM
                                                  case Some(f) => f + 1)
    {
      requests := [];
      for i := 0 to MEM_POOL_NUM
        invariant forall j :: 0 <= j < i && Attempted(zones[j], true) ==> created[j] != NULL
        invariant forall j :: 0 <= j < i ==>
                    mem[j] == if Attempted(zones[j], true) then MemBlock(created[j], zones[j].blockCount, zones[j].blockSize) else old(mem[j])
        invariant forall j :: i <= j < MEM_POOL_NUM ==> mem[j] == old(mem[j])
        invariant requests == NonEmptyRequests(zones, i)
      {
        var zone := zones[i];
        if zone.blockCount != 0 && zone.blockSize != 0 {
          requests := requests + [Request(zone)];
          mem[i] := MemBlock(created[i], zone.blockCount, zone.blockSize);
          if created[i] == NULL {
            ReachedUpTo(zones, created, true, i);
            RequestsReached(zones, created, i + 1);
            return Err(MemAllocFailure), requests;
          }
        }
      }
      ReachedAll(zones, created, true);
      RequestsReached(zones, created, MEM_POOL_NUM);
      return Ok(()), requests;
    }

    /** `alloc`: a block from the first pool with blocks that holds the request; null when none does. */
    method Alloc(size: nat, got: Ptr) returns (p: Ptr, pool: Option<Ptr>)
      requires Valid()
      ensures var f := FirstFit(Sizes(mem[..]), NonEmpty(mem[..]), size);
              (f.None? ==> p == NULL && pool.None?) && (f.Some? ==> p == got && pool == Some(mem[f.value].handle))
    {
      var f := Find(size);
      if f.Some? {
        return got, Some(mem[f.value].handle);
      }
      return NULL, None;
    }

    /** `dealloc`: the pool is found by the same predicate as in `alloc`. */
    method Dealloc(ptr: Ptr, size: nat) returns (pool: Option<Ptr>)
      requires Valid()
      ensures var f := FirstFit(Sizes(mem[..]), NonEmpty(mem[..]), size);
              (f.None? ==> pool.None?) && (f.Some? ==> pool == Some(mem[f.value].handle))
    {
      var f := Find(size);
      if f.Some? {
        return Some(mem[f.value].handle);
      }
      return None;
    }

    /** `iter().find(...)` shared by `alloc` and `dealloc`. */
    method Find(size: nat) returns (f: Option<nat>)
      requires Valid()
      ensures f == FirstFit(Sizes(mem[..]), NonEmpty(mem[..]), size)
    {
      ghost var caps, usable := Sizes(mem[..]), NonEmpty(mem[..]);
      for i := 0 to mem.Length
        invariant forall j :: 0 <= j < i ==> !(usable[j] && size <= caps[j])
      {
        if mem[i].blockCount != 0 && size <= mem[i].blockSize {
          return Some(i);
        }
      }
      return None;
    }
  }

  // -------------------------------------------------------------------------
  // `sces` `MemorySpace`
  // -------------------------------------------------------------------------

  class MemorySpace {
    /** `BK1SZ` .. `BK4SZ`. */
    const sizes: seq<nat>
    /** `BK1CT` .. `BK4CT`. */
    const counts: seq<nat>
    /** The `handle` of each `MemPoolSpce`: `None` until its pool is created. */
    var handles: seq<Option<Ptr>>

    ghost predicate Valid()
      reads this
    {
      |sizes| == MEM_POOL_NUM && |counts| == MEM_POOL_NUM && |handles| == MEM_POOL_NUM
    }

    /** `MemorySpace::new`: four spaces without pools. */
    constructor (sizes: seq<nat>, counts: seq<nat>)
      requires |sizes| == MEM_POOL_NUM && |counts| == MEM_POOL_NUM
      ensures Valid() && this.sizes == sizes && this.counts == counts
      ensures handles == seq(MEM_POOL_NUM, _ => None)
    {
      this.sizes := sizes;
      this.counts := counts;
      handles := seq(MEM_POOL_NUM, _ => None);
    }

    /** The buffer `MemPoolSpce::initialize` hands space `i`: `BKSZ * BKCT` bytes. */
    function BufferSize(i: nat): (n: nat)
      reads this
      requires Valid() && i < MEM_POOL_NUM
      ensures n == sizes[i] * counts[i]
    {
      sizes[i] * counts[i]
    }

    /**
     * `initialize`: spaces 1..4 in order, each asking `MemPool::new` for a
     * pool over its `BKSZ * BKCT`-byte buffer (`created[i]` is the result);
     * the first error is returned and the later spaces keep no pool.
     */
    method Initialize(created: seq<Result<Ptr>>) returns (r: Result<()>)
      requires Valid() && |created| == MEM_POOL_NUM
      modifies this
      ensures Valid()
      ensures r.Ok? <==> forall i :: 0 <= i < MEM_POOL_NUM ==> created[i].Ok?
      ensures r.Err? ==>
                exists k :: (0 <= k < MEM_POOL_NUM && created[k] == Err(r.error) &&
                             (forall j :: 0 <= j < k ==> created[j].Ok? && handles[j] == Some(created[j].value)) &&
                             (forall j :: k <= j < MEM_POOL_NUM ==> handles[j] == old(handles[j])))
      ensures r.Ok? ==> forall j :: 0 <= j < MEM_POOL_NUM ==> handles[j] == Some(created[j].value)
    {
      for i := 0 to MEM_POOL_NUM
        invariant |handles| == MEM_POOL_NUM
        invariant forall j :: 0 <= j < i ==> created[j].Ok? && handles[j] == Some(created[j].value)
        invariant forall j :: i <= j < MEM_POOL_NUM ==> handles[j] == old(handles[j])
      {
        match created[i] {
          case Err(e) =>
            return Err(e);
          case Ok(h) =>
            handles := handles[i := Some(h)];
        }
      }
      return Ok(());
    }

    /** The space a request of `size` bytes goes to: the first whose block size holds it. */
    function SpaceFor(size: nat): (s: Option<nat>)
      reads this
      requires Valid()
      ensures s == FirstFit(sizes, AllUsable(MEM_POOL_NUM), size)
    {
      if size <= sizes[0] then Some(0)
      else if size <= sizes[1] then Some(1)
      else if size <= sizes[2] then Some(2)
      else if size <= sizes[3] then Some(3)
      else None
    }

    /**
     * `alloc`: the cascade over `BK1SZ` .. `BK4SZ`; the chosen space's pool
     * gives `got`, a space without a pool gives null, and so does a
     * request larger than every block.
     */
    method Alloc(size: nat, got: Ptr) returns (p: Ptr, space: Option<nat>)
      requires Valid()
      ensures space == SpaceFor(size)
      ensures p == if space.Some? && handles[space.value].Some? then got else NULL
    {
      if size <= sizes[0] {
        space := Some(0);
      } else if size <= sizes[1] {
        space := Some(1);
      } else if size <= sizes[2] {
        space := Some(2);
      } else if size <= sizes[3] {
        space := Some(3);
      } else {
        return NULL, None;
      }
      p := if handles[space.value].Some? then got else NULL;
    }

    /** `dealloc`: the same cascade; `free` on a space without a pool does nothing. */
    method Dealloc(ptr: Ptr, size: nat) returns (freed: Option<Ptr>)
      requires Valid()
      ensures freed.Some? <==> SpaceFor(size).Some? && handles[SpaceFor(size).value].Some?
      ensures freed.Some? ==> freed.value == handles[SpaceFor(size).value].value
    {
      var space := SpaceFor(size);
      if space.Some? && handles[space.value].Some? {
        return handles[space.value];
      }
      return None;
    }
  }
}
