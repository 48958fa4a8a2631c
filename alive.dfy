/**
 * The alive-watch service: a list of named tasks, each with the tick of
 * its last sign of life and an enable flag. The watch task refreshes the
 * watchdog only while `check_alive_time` is `Ok`. Ticks are `u32`.
 */
module Alive {
  import opened Common

  /** `AliveStatus`: a watched task. */
  datatype AliveStatus = AliveStatus(name: string, enable: bool, aliveTick: nat)

  /** `AliveStatus::new`: enabled, alive at `tick`. */
  function NewStatus(name: string, tick: nat): (a: AliveStatus)
    ensures a.name == name && a.enable && a.aliveTick == tick
  {
    AliveStatus(name, true, tick)
  }

  /** `tick - alive_tick` on `u32`, wrapping when the tick counter has wrapped since. */
  function Elapsed(tick: nat, aliveTick: nat): (d: nat)
    requires IsU32(tick) && IsU32(aliveTick)
    ensures IsU32(d)
    ensures aliveTick <= tick ==> d == tick - aliveTick
    ensures tick < aliveTick ==> d == U32_LIMIT - (aliveTick - tick)
  {
    (tick - aliveTick) % U32_LIMIT
  }

  /** `is_alive` as written: true when MORE than `max` ticks have passed since the last sign of life. */
  predicate IsAliveAsWritten(a: AliveStatus, tick: nat, max: nat)
    requires IsU32(tick) && IsU32(a.aliveTick)
  {
    Elapsed(tick, a.aliveTick) > max
  }

  /** `is_alive` as intended: a sign of life within the last `max` ticks. */
  predicate IsAlive(a: AliveStatus, tick: nat, max: nat)
    requires IsU32(tick) && IsU32(a.aliveTick)
  {
    Elapsed(tick, a.aliveTick) <= max
  }

  /** Every tick of the list fits a `u32`. */
  ghost predicate Ticks32(s: seq<AliveStatus>)
  {
    forall i :: 0 <= i < |s| ==> IsU32(s[i].aliveTick)
  }

  /** No two entries share a name. */
  ghost predicate UniqueNames(s: seq<AliveStatus>)
  {
    forall i, j :: 0 <= i < j < |s| ==> s[i].name != s[j].name
  }

  /** `try_for_each` over per-entry results: `Ok` when all are, else the first failure. */
  function FirstFailure(rs: seq<Result<()>>): (r: Result<()>)
    ensures r.Ok? <==> forall i :: 0 <= i < |rs| ==> rs[i].Ok?
    ensures r.Err? ==> exists i :: 0 <= i < |rs| && rs[i] == r && forall j :: 0 <= j < i ==> rs[j].Ok?
  {
    if rs == [] then Ok(())
    else if rs[0].Err? then rs[0]
    else
      var r := FirstFailure(rs[1..]);
      assert forall i :: 1 <= i < |rs| ==> rs[i] == rs[1..][i - 1];
      r
  }

  /** The list after `update_all_ticks(tick)`: same tasks, every one alive at `tick`. */
  function WithTick(s: seq<AliveStatus>, tick: nat): (r: seq<AliveStatus>)
    ensures |r| == |s|
    ensures forall i :: 0 <= i < |s| ==> r[i] == s[i].(aliveTick := tick)
  {
    seq(|s|, i requires 0 <= i < |s| => s[i].(aliveTick := tick))
  }

  /** What `attempt_push` does: its result and the new list. */
  datatype Push = Push(result: Result<nat>, entries: seq<AliveStatus>)

  /** `attempt_push(name)` at tick `now`, where `reserve` is whether the `Vec` could grow. */
  function PushSpec(s: seq<AliveStatus>, name: string, now: nat, reserve: Result<()>): (p: Push)
    ensures p.result.Err? ==> p.entries == s
    ensures (exists i :: 0 <= i < |s| && s[i].name == name) ==> p.result == Err(InstanceDuplicate)
    ensures (forall i :: 0 <= i < |s| ==> s[i].name != name) ==>
              (reserve.Err? ==> p.result == Err(reserve.error)) &&
              (reserve.Ok? ==> p.result == Ok(|s|) && p.entries == s + [NewStatus(name, now)])
  {
    if exists i :: 0 <= i < |s| && s[i].name == name then Push(Err(InstanceDuplicate), s)
    else if reserve.Err? then Push(Err(reserve.error), s)
    else Push(Ok(|s|), s + [NewStatus(name, now)])
  }

  class AliveWatchQueue {
    var entries: seq<AliveStatus>

    /** Names are unique and ticks are `u32`. */
    ghost predicate Valid()
      reads this
    {
      UniqueNames(entries) && Ticks32(entries)
    }

    /** `AliveWatchQueue::new`: no task watched. */
    constructor ()
      ensures Valid() && entries == []
    {
      entries := [];
    }

    /** `attempt_push`: a duplicate name is refused, otherwise the task is appended and its index returned. */
    method AttemptPush(name: string, now: nat, reserve: Result<()>) returns (r: Result<nat>)
      requires Valid() && IsU32(now)
      modifies this
      ensures Valid()
      ensures r == PushSpec(old(entries), name, now, reserve).result
      ensures entries == PushSpec(old(entries), name, now, reserve).entries
    {
      var i := 0;
      while i < |entries|
        invariant i <= |entries|
        invariant forall j :: 0 <= j < i ==> entries[j].name != name
        decreases |entries| - i
      {
        if entries[i].name == name {
          return Err(InstanceDuplicate);
        }
        i := i + 1;
      }
      if reserve.Err? {
        return Err(reserve.error);
      }
      entries := entries + [NewStatus(name, now)];
      r := Ok(|entries| - 1);
    }

    /** `update_all_ticks`: every task is alive at `tick`. */
    method UpdateAllTicks(tick: nat)
      requires Valid() && IsU32(tick)
      modifies this
      ensures Valid() && entries == WithTick(old(entries), tick)
    {
      var i := 0;
      var s := entries;
      while i < |s|
        invariant i <= |s| && |s| == |entries|
        invariant forall j :: 0 <= j < i ==> s[j] == entries[j].(aliveTick := tick)
        invariant forall j :: i <= j < |s| ==> s[j] == entries[j]
        decreases |s| - i
      {
        s := s[i := s[i].(aliveTick := tick)];
        i := i + 1;
      }
      entries := s;
    }

    /** `set_enable` through the handle `h`; an index past the list panics. */
    method SetEnable(h: nat, enable: bool)
      requires Valid() && h < |entries|
      modifies this
      ensures Valid() && entries == old(entries)[h := old(entries)[h].(enable := enable)]
    {
      entries := entries[h := entries[h].(enable := enable)];
    }

    /** `update_tick` through the handle `h`; an index past the list panics. */
    method UpdateTick(h: nat, tick: nat)
      requires Valid() && h < |entries| && IsU32(tick)
      modifies this
      ensures Valid() && entries == old(entries)[h := old(entries)[h].(aliveTick := tick)]
    {
      entries := entries[h := entries[h].(aliveTick := tick)];
    }

    /**
     * `check_alive_time` of `scems-addons`, with `is_alive` corrected:
     * `Ok` when every task showed life within `max` ticks, else `Overtime`.
     */
    method CheckAliveTime(now: nat, max: nat) returns (r: Result<()>)
      requires Valid() && IsU32(now)
      ensures r.Ok? <==> forall i :: 0 <= i < |entries| ==> IsAlive(entries[i], now, max)
      ensures r.Err? ==> r.error == Overtime
    {
      var i := 0;
      while i < |entries|
        invariant i <= |entries|
        invariant forall j :: 0 <= j < i ==> IsAlive(entries[j], now, max)
        decreases |entries| - i
      {
        if !IsAlive(entries[i], now, max) {
          return Err(Overtime);
        }
        i := i + 1;
      }
      return Ok(());
    }

    /**
     * `check_alive_time` of `scems-addons` with `is_alive` as written: `Ok`
     * only when every task has been silent for more than `max` ticks.
     */
    method CheckAliveTimeAsWritten(now: nat, max: nat) returns (r: Result<()>)
      requires Valid() && IsU32(now)
      ensures r.Ok? <==> forall i :: 0 <= i < |entries| ==> IsAliveAsWritten(entries[i], now, max)
      ensures r.Err? ==> r.error == Overtime
    {
      var i := 0;
      while i < |entries|
        invariant i <= |entries|
        invariant forall j :: 0 <= j < i ==> IsAliveAsWritten(entries[j], now, max)
        decreases |entries| - i
      {
        if !IsAliveAsWritten(entries[i], now, max) {
          return Err(Overtime);
        }
        i := i + 1;
      }
      return Ok(());
    }

    /**
     * `check_alive_time` of `sces-addons`: the per-task `check_alive` is
     * not part of this model, so `verdicts[i]` is what it returns for task
     * `i`; the list is `Ok` when all are, else the first failure.
     */
    method CheckEach(verdicts: seq<Result<()>>) returns (r: Result<()>)
      requires |verdicts| == |entries|
      ensures r == FirstFailure(verdicts)
    {
      var i := 0;
      while i < |verdicts|
        invariant i <= |verdicts|
        invariant forall j :: 0 <= j < i ==> verdicts[j].Ok?
        invariant FirstFailure(verdicts) == FirstFailure(verdicts[i..])
        decreases |verdicts| - i
      {
        if verdicts[i].Err? {
          return verdicts[i];
        }
        assert verdicts[i..][1..] == verdicts[i + 1..];
        i := i + 1;
      }
      return Ok(());
    }
  }

  // -------------------------------------------------------------------------
  // Properties
  // -------------------------------------------------------------------------

  /** `attempt_push` keeps names unique, and a pushed task is at the index returned. */
  lemma PushKeepsNamesUnique(s: seq<AliveStatus>, name: string, now: nat, reserve: Result<()>)
    requires UniqueNames(s)
    ensures UniqueNames(PushSpec(s, name, now, reserve).entries)
    ensures var p := PushSpec(s, name, now, reserve);
            p.result.Ok? ==> p.result.value < |p.entries| && p.entries[p.result.value].name == name
  {
  }

  /** Right after `update_all_ticks(now)` every task passes the corrected check, whatever the period. */
  lemma UpdatedIsAlive(s: seq<AliveStatus>, now: nat, max: nat)
    requires IsU32(now)
    ensures forall i :: 0 <= i < |s| ==> IsAlive(WithTick(s, now)[i], now, max)
  {
  }

  /** A task silent for more than `max` ticks fails the corrected check. */
  lemma SilentIsDead(a: AliveStatus, now: nat, max: nat)
    requires IsU32(now) && IsU32(a.aliveTick) && a.aliveTick + max < now
    ensures !IsAlive(a, now, max)
  {
  }

  /**
   * As written, `is_alive` holds only for tasks silent for more than
   * `max` ticks: a task that has just shown life fails the check, so a
   * list of healthy tasks never lets the watchdog be refreshed.
   */
  lemma AsWrittenRejectsFreshTask(s: seq<AliveStatus>, now: nat, max: nat)
    requires IsU32(now) && |s| > 0
    ensures !IsAliveAsWritten(WithTick(s, now)[0], now, max)
    ensures IsAlive(WithTick(s, now)[0], now, max)
  {
  }
}
