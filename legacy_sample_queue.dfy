/**
 * The first handle registry of scems (`mcu::vendor::stm::sample_queue`): the
 * same array of optional wrapper copies as `SampleQueue`, without channels.
 * Allocation scans exactly like `allocate_channel` with channel 0, so it is
 * delegated to a `SampleQueue` whose `channelOf` is constantly 0; `search`
 * rejects a null handle and `clean` has its own loop.
 */
module LegacySampleQueue {
  import opened Common
  import SQ = SampleQueue

  class LegacySampleQueue<T> {
    const q: SQ.SampleQueue<T>

    /**
     * No wrapper carries a channel. This is all that `allocate`, `search` and
     * `clean` rely on: they run on whatever slots an earlier `clean` left.
     */
    ghost predicate ChannelFree()
    {
      q.channelOf == ((x: T) => 0)
    }

    /** The slots are packed and no wrapper carries a channel. */
    ghost predicate Valid()
      reads q.samples
    {
      q.Valid() && ChannelFree()
    }

    /** `SampleQueue::new`: all `n` slots empty. */
    constructor (n: nat, handleOf: T -> Ptr)
      ensures q.handleOf == handleOf && fresh(q.samples) && q.samples.Length == n
      ensures forall i :: 0 <= i < n ==> q.samples[i] == None
      ensures Valid()
    {
      q := new SQ.SampleQueue<T>(n, handleOf, (x: T) => 0);
    }

    /** The test of `clean` and `search`: a non-null handle equal to `h`. */
    predicate Hit(x: T, h: Ptr)
    {
      q.handleOf(x) != NULL && q.handleOf(x) == h
    }

    /**
     * `clean` as written, on slots `s`: `None` stands for the index panic.
     * The first hit `k` takes the value of slot `k + 1`, slot `k + 1` is
     * emptied and the next iteration stops at it; a hit in the last slot
     * reads past the array.
     */
    function CleanedAsWritten(s: seq<Option<T>>, h: Ptr): (r: Option<seq<Option<T>>>)
      requires ChannelFree()
      ensures r.Some? ==> |r.value| == |s|
      ensures r.None? <==> q.Find(s, h, 0) == Some(|s| - 1)
    {
      match q.Find(s, h, 0)
      case None => Some(s)
      case Some(k) =>
        if k + 1 < |s| then Some(s[k := s[k + 1]][k + 1 := None]) else None
    }

    /**
     * `allocate`: the first entry with the same non-null handle, else the first
     * empty slot, on any slots; packed slots stay packed.
     */
    method Allocate(sample: T) returns (r: Result<nat>)
      requires ChannelFree()
      modifies q.samples
      ensures r == q.AllocateSpec(old(q.samples[..]), sample, 0).result
      ensures q.samples[..] == q.AllocateSpec(old(q.samples[..]), sample, 0).slots
      ensures old(Valid()) ==> Valid()
    {
      r := q.Allocate(sample);
    }

    /**
     * `search`: `Param` for a null handle, else the first hit before the first
     * empty slot, else `InstanceNotFound`.
     */
    method Search(h: Ptr) returns (r: Result<nat>)
      requires ChannelFree()
      ensures h == NULL ==> r == Err(Param)
      ensures h != NULL ==> (r.Ok? <==> q.Find(q.samples[..], h, 0).Some?)
      ensures h != NULL && r.Ok? ==> r.value == q.Find(q.samples[..], h, 0).value
      ensures r.Ok? ==> r.value < q.samples.Length && q.samples[r.value].Some? &&
                        Hit(q.samples[r.value].value, h)
      ensures h != NULL && r.Err? ==> r.error == InstanceNotFound
    {
      if h == NULL {
        return Err(Param);
      }
      r := q.Search(h);
    }

    /**
     * `clean` as written. It returns whether the loop indexed past the end
     * (a panic; nothing has been written then).
     */
    method CleanAsWritten(h: Ptr) returns (panicked: bool)
      requires ChannelFree()
      modifies q.samples
      ensures var c := CleanedAsWritten(old(q.samples[..]), h);
              (panicked <==> c.None?) &&
              (c.Some? ==> q.samples[..] == c.value) &&
              (c.None? ==> q.samples[..] == old(q.samples[..]))
    {
      ghost var s := q.samples[..];
      var n := q.samples.Length;
      if h == NULL {
        assert q.Find(s, h, 0).None?;
        return false;
      }
      var idx := 0;
      var removed := false;
      while idx < n
        invariant idx <= n
        invariant !removed ==> q.samples[..] == s
        invariant !removed ==> forall j :: 0 <= j < idx ==> s[j].Some? && !q.Matches(s[j].value, h, 0)
        invariant removed ==> 1 <= idx < n && q.Find(s, h, 0) == Some(idx - 1)
        invariant removed ==> q.samples[..] == s[idx - 1 := s[idx]][idx := None]
      {
        match q.samples[idx] {
          case None =>
            if !removed {
              assert PrefixLen(s) == idx;
              q.FindFromExact(s, h, 0, 0, idx, None);
            }
            return false;
          case Some(data) =>
            if Hit(data, h) {
              assert PrefixLen(s) > idx;
              q.FindFromExact(s, h, 0, 0, PrefixLen(s), Some(idx));
              if idx + 1 >= n {
                return true;
              }
              q.samples[idx] := q.samples[idx + 1];
              q.samples[idx + 1] := None;
              removed := true;
            }
        }
        idx := idx + 1;
      }
      assert PrefixLen(s) == n;
      q.FindFromExact(s, h, 0, 0, n, None);
      panicked := false;
    }

    /** `clean` as intended: the entry leaves and the rest of the prefix moves up. */
    method Clean(h: Ptr)
      requires Valid()
      modifies q.samples
      ensures q.samples[..] == q.Cleaned(old(q.samples[..]), h, 0)
      ensures Valid()
    {
      if h == NULL {
        q.FindFromExact(q.samples[..], h, 0, 0, PrefixLen(q.samples[..]), None);
        return;
      }
      q.CleanChannelFixed(h, 0);
    }

    // ---------------------------------------------------------------------
    // Properties
    // ---------------------------------------------------------------------

    /**
     * Finding: removing an entry that has two or more successors in the
     * prefix empties the slot right after it, so every later entry is cut off
     * from `search` and the slots are no longer packed.
     */
    lemma CleanOrphansLaterEntries(s: seq<Option<T>>, h: Ptr)
      requires ChannelFree()
      requires q.Find(s, h, 0).Some? && q.Find(s, h, 0).value + 2 < PrefixLen(s)
      ensures var k, c := q.Find(s, h, 0).value, CleanedAsWritten(s, h);
              c.Some? && c.value[k + 1].None? && c.value[k + 2] == s[k + 2] &&
              PrefixLen(c.value) == k + 1 && !Packed(c.value)
    {
      var k := q.Find(s, h, 0).value;
      var r := s[k := s[k + 1]][k + 1 := None];
      assert forall i :: 0 <= i < k + 1 ==> r[i].Some?;
      assert r[k + 1].None? && r[k + 2].Some?;
    }

    /** Finding: an entry in the last slot of a full registry makes `clean` index past the array. */
    lemma CleanPanicsOnLastSlot(s: seq<Option<T>>, h: Ptr)
      requires ChannelFree()
      requires |s| >= 1 && PrefixLen(s) == |s| && s[|s| - 1].Some? && Hit(s[|s| - 1].value, h)
      requires forall i :: 0 <= i < |s| - 1 ==> !Hit(s[i].value, h)
      ensures CleanedAsWritten(s, h).None?
    {
      q.FindFromExact(s, h, 0, 0, |s|, Some(|s| - 1));
    }

    /**
     * The two removals agree when the entry is the last of the prefix and a
     * slot follows it, or when nothing is removed.
     */
    lemma CleanAgreesOnLastOfPrefix(s: seq<Option<T>>, h: Ptr)
      requires ChannelFree()
      requires q.Find(s, h, 0).None? || (q.Find(s, h, 0).value == PrefixLen(s) - 1 && PrefixLen(s) < |s|)
      ensures CleanedAsWritten(s, h) == Some(q.Cleaned(s, h, 0))
    {
      var p := PrefixLen(s);
      if q.Find(s, h, 0).Some? {
        var k := p - 1;
        var a := s[k := s[k + 1]][k + 1 := None];
        var b := SQ.ShiftDown(s, k, k)[k := None];
        assert b == q.Cleaned(s, h, 0);
        forall i | 0 <= i < |s|
          ensures a[i] == b[i]
        {
          if i == k {
            assert a[i] == s[p];
          }
        }
        assert a == b;
        assert CleanedAsWritten(s, h) == Some(a);
      }
    }

    /**
     * `clean(h)` as written cuts off `h2`: `h`'s entry has two or more
     * successors, and `h2` first occurs past the slot right after it.
     */
    ghost predicate CutsOff(s: seq<Option<T>>, h: Ptr, h2: Ptr)
    {
      q.Find(s, h, 0).Some? && q.Find(s, h, 0).value + 2 < PrefixLen(s) &&
      (forall j :: 0 <= j <= q.Find(s, h, 0).value + 1 ==> !Hit(s[j].value, h2)) &&
      (exists j :: q.Find(s, h, 0).value + 2 <= j < PrefixLen(s) && Hit(s[j].value, h2))
    }

    /**
     * Finding, seen through the scans: a handle that `clean` cuts off was
     * found before the removal and is found no more after it.
     */
    lemma OrphanedNotFound(s: seq<Option<T>>, h: Ptr, h2: Ptr)
      requires ChannelFree() && CutsOff(s, h, h2)
      ensures q.Find(s, h2, 0).Some? && q.Find(s, h2, 0).value >= q.Find(s, h, 0).value + 2
      ensures CleanedAsWritten(s, h).Some? && q.Find(CleanedAsWritten(s, h).value, h2, 0).None?
    {
      var k := q.Find(s, h, 0).value;
      CleanOrphansLaterEntries(s, h);
      var c := CleanedAsWritten(s, h).value;
      forall j | 0 <= j < k + 1
        ensures !q.Matches(c[j].value, h2, 0)
      {
        assert c[j] == if j == k then s[k + 1] else s[j];
      }
      q.FindFromExact(c, h2, 0, 0, k + 1, None);
      var w :| k + 2 <= w < PrefixLen(s) && Hit(s[w].value, h2);
      assert q.Matches(s[w].value, h2, 0);
    }

    /**
     * The same finding through the methods: `search` finds the cut-off
     * handle, `clean` runs without a panic, and `search` then answers
     * `InstanceNotFound`.
     */
    method CleanHidesOrphans(h: Ptr, h2: Ptr) returns (before: Result<nat>, panicked: bool, after: Result<nat>)
      requires ChannelFree() && CutsOff(q.samples[..], h, h2)
      modifies q.samples
      ensures before.Ok? && !panicked && after == Err(InstanceNotFound)
    {
      OrphanedNotFound(q.samples[..], h, h2);
      before := Search(h2);
      panicked := CleanAsWritten(h);
      after := Search(h2);
    }

    /**
     * Finding, continued: once `clean` has cut off an entry, `allocate` of a
     * wrapper with that entry's handle stores a second copy in the emptied
     * slot, so the handle is registered twice.
     */
    lemma CutOffHandleAllocatedTwice(s: seq<Option<T>>, h: Ptr, x: T)
      requires ChannelFree() && CutsOff(s, h, q.handleOf(x))
      ensures CleanedAsWritten(s, h).Some?
      ensures var k, c := q.Find(s, h, 0).value, CleanedAsWritten(s, h).value;
              var a := q.AllocateSpec(c, x, 0);
              a.result == Ok(k + 1) && a.slots[k + 1] == Some(x) &&
              exists j :: k + 2 <= j < |s| && a.slots[j].Some? && Hit(a.slots[j].value, q.handleOf(x))
    {
      var k := q.Find(s, h, 0).value;
      OrphanedNotFound(s, h, q.handleOf(x));
      CleanOrphansLaterEntries(s, h);
      var c := CleanedAsWritten(s, h).value;
      var w :| k + 2 <= w < PrefixLen(s) && Hit(s[w].value, q.handleOf(x));
      assert c[w] == s[w];
      var a := q.AllocateSpec(c, x, 0);
      assert a.slots[w] == c[w];
    }
  }
}
