/**
 * The handle registry of scems-mcu-stm32: `SampleQueue<T, U, N>`, an array of
 * `N` optional copies of a peripheral wrapper. A wrapper is found again from
 * the raw HAL handle (and a channel number) that an interrupt callback gets.
 * The wrapper's `handle_value()` and `channel_value()` are the constant
 * functions `handleOf` and `channelOf`.
 *
 * A `&mut T` into the array returned by `allocate`/`search_mut` is modelled as
 * the slot index; writes through it are `Update`.
 */
module SampleQueue {
  import opened Common

  /** What an allocation returns together with the slots it leaves behind. */
  datatype Alloc<T> = Alloc(result: Result<nat>, slots: seq<Option<T>>)

  /** Slots `k..m-1` each take their successor's value; all other slots keep theirs. */
  function ShiftDown<T>(s: seq<Option<T>>, k: nat, m: nat): (r: seq<Option<T>>)
    requires k <= m < |s|
    ensures |r| == |s|
    ensures forall i :: 0 <= i < |s| ==> r[i] == if k <= i < m then s[i + 1] else s[i]
  {
    seq(|s|, i requires 0 <= i < |s| => if k <= i < m then s[i + 1] else s[i])
  }

  class SampleQueue<T> {
    const handleOf: T -> Ptr
    const channelOf: T -> nat
    const samples: array<Option<T>>

    /** The registry invariant: occupied slots form a contiguous prefix. */
    ghost predicate Valid()
      reads samples
    {
      Packed(samples[..])
    }

    /** `SampleQueue::new`: all `n` slots empty. */
    constructor (n: nat, handleOf: T -> Ptr, channelOf: T -> nat)
      ensures this.handleOf == handleOf && this.channelOf == channelOf
      ensures fresh(samples) && samples.Length == n
      ensures forall i :: 0 <= i < n ==> samples[i] == None
      ensures Valid()
    {
      this.handleOf := handleOf;
      this.channelOf := channelOf;
      samples := new Option<T>[n](_ => None);
    }

    /** The test every scan applies to a stored entry. */
    predicate Matches(x: T, h: Ptr, ch: nat)
    {
      handleOf(x) != NULL && handleOf(x) == h && channelOf(x) == ch
    }

    /** The first matching slot in `[i, bound)` of the occupied prefix. */
    function FindFrom(s: seq<Option<T>>, h: Ptr, ch: nat, i: nat, bound: nat): (r: Option<nat>)
      requires i <= bound <= PrefixLen(s)
      ensures r.Some? ==> i <= r.value < bound && Matches(s[r.value].value, h, ch)
      ensures r.Some? ==> forall j :: i <= j < r.value ==> !Matches(s[j].value, h, ch)
      ensures r.None? ==> forall j :: i <= j < bound ==> !Matches(s[j].value, h, ch)
      decreases bound - i
    {
      if i == bound then None
      else if Matches(s[i].value, h, ch) then Some(i)
      else FindFrom(s, h, ch, i + 1, bound)
    }

    /** What the scans of the source find: the first match before the first empty slot. */
    function Find(s: seq<Option<T>>, h: Ptr, ch: nat): Option<nat>
    {
      FindFrom(s, h, ch, 0, PrefixLen(s))
    }

    /** `FindFrom` is the only result meeting its own description: the first match, or none. */
    lemma {:induction false} FindFromExact(s: seq<Option<T>>, h: Ptr, ch: nat, i: nat, bound: nat, r: Option<nat>)
      requires i <= bound <= PrefixLen(s)
      requires r.Some? ==> i <= r.value < bound && Matches(s[r.value].value, h, ch)
      requires r.Some? ==> forall j :: i <= j < r.value ==> !Matches(s[j].value, h, ch)
      requires r.None? ==> forall j :: i <= j < bound ==> !Matches(s[j].value, h, ch)
      ensures FindFrom(s, h, ch, i, bound) == r
      decreases bound - i
    {
      if i < bound && !Matches(s[i].value, h, ch) {
        FindFromExact(s, h, ch, i + 1, bound, r);
      }
    }

    /** The outcome of `allocate_channel(x, ch)` on slots `s`. */
    function AllocateSpec(s: seq<Option<T>>, x: T, ch: nat): (a: Alloc<T>)
      ensures |a.slots| == |s|
      ensures a.result.Ok? ==> a.result.value < |s| && a.slots[a.result.value].Some?
      ensures a.result.Err? ==> a.result.error == StackOverflow && a.slots == s
    {
      match Find(s, handleOf(x), ch)
      case Some(i) => Alloc(Ok(i), s)
      case None =>
        var p := PrefixLen(s);
        if p < |s| then Alloc(Ok(p), s[p := Some(x)]) else Alloc(Err(StackOverflow), s)
    }

    /** `clean_channel` as written: it only visits slots `0..N-1`, never slot `N-1`. */
    function CleanedAsWritten(s: seq<Option<T>>, h: Ptr, ch: nat): (r: seq<Option<T>>)
      requires |s| >= 1
      ensures |r| == |s|
    {
      var p := PrefixLen(s);
      var m := if p < |s| - 1 then p else |s| - 1;
      match FindFrom(s, h, ch, 0, m)
      case None => s
      case Some(k) => ShiftDown(s, k, m)
    }

    /** Removal as intended: the first match leaves and the rest of the prefix moves up one slot. */
    function Cleaned(s: seq<Option<T>>, h: Ptr, ch: nat): (r: seq<Option<T>>)
      ensures |r| == |s|
    {
      var p := PrefixLen(s);
      match FindFrom(s, h, ch, 0, p)
      case None => s
      case Some(k) => ShiftDown(s, k, p - 1)[p - 1 := None]
    }

    /** `allocate`: `allocate_channel` with channel 0. */
    method Allocate(sample: T) returns (r: Result<nat>)
      modifies samples
      ensures r == AllocateSpec(old(samples[..]), sample, 0).result
      ensures samples[..] == AllocateSpec(old(samples[..]), sample, 0).slots
      ensures old(Valid()) ==> Valid()
    {
      r := AllocateChannel(sample, 0);
    }

    /**
     * `allocate_channel`: the slot of an entry with the same non-null handle and
     * channel, else the first empty slot (now holding `sample`), else
     * `StackOverflow`.
     */
    method AllocateChannel(sample: T, channel: nat) returns (r: Result<nat>)
      modifies samples
      ensures r == AllocateSpec(old(samples[..]), sample, channel).result
      ensures samples[..] == AllocateSpec(old(samples[..]), sample, channel).slots
      ensures old(Valid()) ==> Valid()
    {
      ghost var s := samples[..];
      var h := handleOf(sample);
      var i := 0;
      while i < samples.Length
        invariant i <= samples.Length
        invariant samples[..] == s
        invariant forall j :: 0 <= j < i ==> s[j].Some? && !Matches(s[j].value, h, channel)
      {
        match samples[i] {
          case Some(data) =>
            if Matches(data, h, channel) {
              assert PrefixLen(s) > i;
              r := Ok(i);
              return;
            }
          case None =>
            assert PrefixLen(s) == i;
            samples[i] := Some(sample);
            assert Packed(s) ==> Packed(samples[..]) by {
              if Packed(s) {
                PackedTail(s);
                PackedByPrefix(samples[..], i + 1);
              }
            }
            r := Ok(i);
            return;
        }
        i := i + 1;
      }
      assert PrefixLen(s) == |s|;
      r := Err(StackOverflow);
    }

    /** A write through the `&mut T` that `allocate` or `search_mut` handed out. */
    method Update(i: nat, x: T)
      requires Valid() && i < samples.Length && samples[i].Some?
      modifies samples
      ensures samples[..] == old(samples[..])[i := Some(x)]
      ensures Valid()
    {
      samples[i] := Some(x);
    }

    /** `search` and `search_mut`: `search_channel` with channel 0. */
    method Search(h: Ptr) returns (r: Result<nat>)
      ensures r.Ok? <==> Find(samples[..], h, 0).Some?
      ensures r.Ok? ==> r.value == Find(samples[..], h, 0).value
      ensures r.Err? ==> r.error == InstanceNotFound
    {
      r := SearchChannel(h, 0);
    }

    /**
     * `search_channel` and `search_mut_channel` (same loop): the first entry
     * with the handle and channel before the first empty slot, else
     * `InstanceNotFound`.
     */
    method SearchChannel(h: Ptr, channel: nat) returns (r: Result<nat>)
      ensures r.Ok? <==> Find(samples[..], h, channel).Some?
      ensures r.Ok? ==> r.value == Find(samples[..], h, channel).value
      ensures r.Ok? ==> r.value < samples.Length && samples[r.value].Some?
      ensures r.Ok? ==> Matches(samples[r.value].value, h, channel)
      ensures r.Err? ==> r.error == InstanceNotFound
    {
      var i := 0;
      while i < samples.Length && samples[i].Some?
        invariant i <= samples.Length
        invariant forall j :: 0 <= j < i ==> samples[j].Some? && !Matches(samples[j].value, h, channel)
      {
        if Matches(samples[i].value, h, channel) {
          assert PrefixLen(samples[..]) > i;
          return Ok(i);
        }
        i := i + 1;
      }
      assert PrefixLen(samples[..]) == i;
      return Err(InstanceNotFound);
    }

    /** `clean`: `clean_channel` with channel 0. */
    method Clean(h: Ptr)
      requires Valid() && samples.Length >= 1
      modifies samples
      ensures samples[..] == CleanedAsWritten(old(samples[..]), h, 0)
      ensures Valid()
    {
      CleanChannel(h, 0);
    }

    /**
     * `clean_channel` as written: `for idx in 0..(len - 1)` stops at the first
     * empty slot; from the first match on, each visited slot takes its
     * successor's value. Slot `N - 1` is never visited.
     */
    method CleanChannel(h: Ptr, channel: nat)
      requires Valid() && samples.Length >= 1
      modifies samples
      ensures samples[..] == CleanedAsWritten(old(samples[..]), h, channel)
      ensures Valid()
    {
      ghost var s := samples[..];
      ghost var k := 0;
      var n := samples.Length;
      var found := false;
      var idx := 0;
      while idx < n - 1 && samples[idx].Some?
        invariant idx <= n - 1
        invariant forall j :: 0 <= j < idx ==> s[j].Some?
        invariant forall j :: idx <= j < n ==> samples[j] == s[j]
        invariant !found ==> forall j :: 0 <= j < idx ==> samples[j] == s[j] && !Matches(s[j].value, h, channel)
        invariant found ==> k < idx && Matches(s[k].value, h, channel)
        invariant found ==> forall j :: 0 <= j < k ==> samples[j] == s[j] && !Matches(s[j].value, h, channel)
        invariant found ==> forall j :: k <= j < idx ==> samples[j] == s[j + 1]
      {
        if !found && Matches(samples[idx].value, h, channel) {
          found := true;
          k := idx;
        }
        if found {
          samples[idx] := samples[idx + 1];
        }
        idx := idx + 1;
      }
      assert idx < n - 1 ==> PrefixLen(s) == idx;
      LoopCleansAsWritten(s, samples[..], h, channel, k, idx, found);
      CleanedAsWrittenPacked(s, h, channel);
    }

    /** What the loop of `CleanChannel` leaves, stopping at the first empty slot or the last slot, is `CleanedAsWritten`. */
    lemma LoopCleansAsWritten(s: seq<Option<T>>, r: seq<Option<T>>, h: Ptr, ch: nat, k: nat, idx: nat, found: bool)
      requires |r| == |s| >= 1 && idx <= |s| - 1
      requires forall j :: 0 <= j < idx ==> s[j].Some?
      requires idx < |s| - 1 ==> PrefixLen(s) == idx
      requires forall j :: idx <= j < |s| ==> r[j] == s[j]
      requires !found ==> forall j :: 0 <= j < idx ==> r[j] == s[j] && !Matches(s[j].value, h, ch)
      requires found ==> k < idx && Matches(s[k].value, h, ch)
      requires found ==> forall j :: 0 <= j < k ==> r[j] == s[j] && !Matches(s[j].value, h, ch)
      requires found ==> forall j :: k <= j < idx ==> r[j] == s[j + 1]
      ensures r == CleanedAsWritten(s, h, ch)
    {
      var p := PrefixLen(s);
      assert idx == (if p < |s| - 1 then p else |s| - 1);
      if found {
        FindFromExact(s, h, ch, 0, idx, Some(k));
        assert r == ShiftDown(s, k, idx);
      } else {
        FindFromExact(s, h, ch, 0, idx, None);
        assert r == s;
      }
    }

    /**
     * `clean_channel` as the dead `else` branch shows it was meant: the loop
     * runs over all `N` slots and the last visited slot becomes empty.
     */
    method CleanChannelFixed(h: Ptr, channel: nat)
      requires Valid()
      modifies samples
      ensures samples[..] == Cleaned(old(samples[..]), h, channel)
      ensures Valid()
    {
      ghost var s := samples[..];
      ghost var k := 0;
      var n := samples.Length;
      var found := false;
      var idx := 0;
      while idx < n && samples[idx].Some?
        invariant idx <= n
        invariant forall j :: 0 <= j < idx ==> s[j].Some?
        invariant forall j :: idx <= j < n ==> samples[j] == s[j]
        invariant !found ==> forall j :: 0 <= j < idx ==> samples[j] == s[j] && !Matches(s[j].value, h, channel)
        invariant found ==> k < idx && Matches(s[k].value, h, channel)
        invariant found ==> forall j :: 0 <= j < k ==> samples[j] == s[j] && !Matches(s[j].value, h, channel)
        invariant found ==> forall j :: k <= j < idx ==> samples[j] == if j + 1 < n then s[j + 1] else None
      {
        if !found && Matches(samples[idx].value, h, channel) {
          found := true;
          k := idx;
        }
        if found {
          if idx < n - 1 {
            samples[idx] := samples[idx + 1];
          } else {
            samples[idx] := None;
          }
        }
        idx := idx + 1;
      }
      assert PrefixLen(s) == idx;
      FixedLoopCleans(s, samples[..], h, channel, k, idx, found);
      CleanedPacked(s, h, channel);
    }

    /** What the loop of `CleanChannelFixed` leaves, once it has reached the end of the prefix, is `Cleaned`. */
    lemma FixedLoopCleans(s: seq<Option<T>>, r: seq<Option<T>>, h: Ptr, ch: nat, k: nat, idx: nat, found: bool)
      requires |r| == |s| && idx == PrefixLen(s)
      requires forall j :: idx <= j < |s| ==> r[j] == s[j]
      requires !found ==> forall j :: 0 <= j < idx ==> r[j] == s[j] && !Matches(s[j].value, h, ch)
      requires found ==> k < idx && Matches(s[k].value, h, ch)
      requires found ==> forall j :: 0 <= j < k ==> r[j] == s[j] && !Matches(s[j].value, h, ch)
      requires found ==> forall j :: k <= j < idx ==> r[j] == if j + 1 < |s| then s[j + 1] else None
      ensures r == Cleaned(s, h, ch)
    {
      if found {
        FindFromExact(s, h, ch, 0, idx, Some(k));
        ShiftedRemoval(s, r, k, idx);
      } else {
        FindFromExact(s, h, ch, 0, idx, None);
        assert r == s;
      }
    }

    /** Slots `[k, p)` moved up by one, with the slot after the prefix empty, are `ShiftDown` with the last of them emptied. */
    lemma ShiftedRemoval(s: seq<Option<T>>, r: seq<Option<T>>, k: nat, p: nat)
      requires |r| == |s| && k < p <= |s| && (p < |s| ==> s[p].None?)
      requires forall j :: 0 <= j < k ==> r[j] == s[j]
      requires forall j :: p <= j < |s| ==> r[j] == s[j]
      requires forall j :: k <= j < p ==> r[j] == if j + 1 < |s| then s[j + 1] else None
      ensures r == ShiftDown(s, k, p - 1)[p - 1 := None]
    {
      var e := ShiftDown(s, k, p - 1)[p - 1 := None];
      forall j | 0 <= j < |s|
        ensures r[j] == e[j]
      {
      }
    }

    // ---------------------------------------------------------------------
    // Properties of the registry specification
    // ---------------------------------------------------------------------

    /** Allocation keeps the occupied slots a contiguous prefix. */
    lemma AllocatePacked(s: seq<Option<T>>, x: T, ch: nat)
      requires Packed(s)
      ensures Packed(AllocateSpec(s, x, ch).slots)
    {
      if Find(s, handleOf(x), ch).None? && PrefixLen(s) < |s| {
        var p := PrefixLen(s);
        PackedTail(s);
        PackedByPrefix(s[p := Some(x)], p + 1);
      }
    }

    /**
     * An allocated entry is found again: after a successful allocation of a
     * sample with a non-null handle whose own channel is the requested one,
     * the search finds exactly the slot returned.
     */
    lemma {:induction false} AllocateThenFind(s: seq<Option<T>>, x: T, ch: nat)
      requires Packed(s) && Matches(x, handleOf(x), ch)
      requires AllocateSpec(s, x, ch).result.Ok?
      ensures Find(AllocateSpec(s, x, ch).slots, handleOf(x), ch) == Some(AllocateSpec(s, x, ch).result.value)
    {
      var h := handleOf(x);
      if Find(s, h, ch).None? {
        var p := PrefixLen(s);
        var s' := s[p := Some(x)];
        PackedTail(s);
        PackedByPrefix(s', p + 1);
        assert forall j :: 0 <= j < p ==> s'[j] == s[j];
        assert FindFrom(s', h, ch, 0, p + 1) == Some(p);
      }
    }

    /** Re-binding is idempotent: allocating the same sample again changes nothing. */
    lemma AllocateIdempotent(s: seq<Option<T>>, x: T, ch: nat)
      requires Packed(s) && Matches(x, handleOf(x), ch)
      requires AllocateSpec(s, x, ch).result.Ok?
      ensures AllocateSpec(AllocateSpec(s, x, ch).slots, x, ch) == AllocateSpec(s, x, ch)
    {
      AllocateThenFind(s, x, ch);
      var a := AllocateSpec(s, x, ch);
      if Find(s, handleOf(x), ch).Some? {
        assert a.slots == s;
      }
    }

    /** Capacity exhaustion: allocation fails exactly when no entry matches and every slot is taken. */
    lemma AllocateFailsWhenFull(s: seq<Option<T>>, x: T, ch: nat)
      ensures AllocateSpec(s, x, ch).result.Err? <==>
              (Find(s, handleOf(x), ch).None? && forall i :: 0 <= i < |s| ==> s[i].Some?)
    {
      var p := PrefixLen(s);
      assert p < |s| ==> s[p].None?;
    }

    /**
     * A sample that can never match (null handle, or a channel no stored
     * entry carries) takes a fresh slot on every allocation.
     */
    lemma UnmatchableTakesFreshSlot(s: seq<Option<T>>, x: T, ch: nat)
      requires Packed(s) && |s| > PrefixLen(s)
      requires handleOf(x) == NULL || forall i :: 0 <= i < |s| && s[i].Some? ==> channelOf(s[i].value) != ch
      ensures var a := AllocateSpec(s, x, ch);
              a.result == Ok(PrefixLen(s)) && PrefixLen(a.slots) == PrefixLen(s) + 1 &&
              a.slots[PrefixLen(s)] == Some(x)
    {
      var p := PrefixLen(s);
      assert Find(s, handleOf(x), ch).None?;
      PackedTail(s);
      PackedByPrefix(s[p := Some(x)], p + 1);
    }

    /** The intended removal keeps the prefix packed. */
    lemma CleanedPacked(s: seq<Option<T>>, h: Ptr, ch: nat)
      requires Packed(s)
      ensures Packed(Cleaned(s, h, ch))
    {
      var p := PrefixLen(s);
      if FindFrom(s, h, ch, 0, p).Some? {
        PackedTail(s);
        PackedByPrefix(Cleaned(s, h, ch), p - 1);
      }
    }

    /** `clean_channel` as written also keeps the prefix packed. */
    lemma CleanedAsWrittenPacked(s: seq<Option<T>>, h: Ptr, ch: nat)
      requires Packed(s) && |s| >= 1
      ensures Packed(CleanedAsWritten(s, h, ch))
    {
      var p := PrefixLen(s);
      var m := if p < |s| - 1 then p else |s| - 1;
      PackedTail(s);
      var f := FindFrom(s, h, ch, 0, m);
      if f.Some? {
        var r := ShiftDown(s, f.value, m);
        assert r == CleanedAsWritten(s, h, ch);
        if p < |s| {
          assert m == p;
          PackedByPrefix(r, p - 1);
        } else {
          PackedByPrefix(r, p);
        }
      }
    }

    /**
     * The intended removal takes out exactly the first matching entry: the
     * prefix shrinks by one, earlier entries stay, later ones move up by one.
     */
    lemma CleanedRemovesFirstMatch(s: seq<Option<T>>, h: Ptr, ch: nat)
      requires Packed(s) && Find(s, h, ch).Some?
      ensures var k, r := Find(s, h, ch).value, Cleaned(s, h, ch);
              PrefixLen(r) == PrefixLen(s) - 1 &&
              (forall i :: 0 <= i < k ==> r[i] == s[i]) &&
              (forall i :: k <= i < PrefixLen(s) - 1 ==> r[i] == s[i + 1])
    {
      var p := PrefixLen(s);
      PackedTail(s);
      PackedByPrefix(Cleaned(s, h, ch), p - 1);
    }

    /** Removing an entry that is not registered changes nothing. */
    lemma CleanedAbsentUnchanged(s: seq<Option<T>>, h: Ptr, ch: nat)
      requires Find(s, h, ch).None?
      ensures Cleaned(s, h, ch) == s
      ensures |s| >= 1 ==> CleanedAsWritten(s, h, ch) == s
    {
      var p := PrefixLen(s);
      if |s| >= 1 {
        var m := if p < |s| - 1 then p else |s| - 1;
        FindFromExact(s, h, ch, 0, m, None);
      }
    }

    /** While a slot is still free, `clean_channel` as written removes exactly as intended. */
    lemma CleanAgreesWhenNotFull(s: seq<Option<T>>, h: Ptr, ch: nat)
      requires |s| >= 1 && PrefixLen(s) < |s|
      ensures CleanedAsWritten(s, h, ch) == Cleaned(s, h, ch)
    {
      var p := PrefixLen(s);
      var f := FindFrom(s, h, ch, 0, p);
      if f.Some? {
        var a := ShiftDown(s, f.value, p);
        var b := ShiftDown(s, f.value, p - 1)[p - 1 := None];
        assert (if p < |s| - 1 then p else |s| - 1) == p;
        assert a == CleanedAsWritten(s, h, ch);
        assert b == Cleaned(s, h, ch);
        forall i | 0 <= i < |s|
          ensures a[i] == b[i]
        {
          if i == p - 1 {
            assert a[i] == s[p];
          }
        }
      }
    }

    /**
     * Finding, part 1: on a full registry an entry held in the last slot is
     * never removed by `clean_channel` as written and is still found.
     */
    lemma CleanMissesLastSlot(s: seq<Option<T>>, h: Ptr, ch: nat)
      requires |s| >= 1 && PrefixLen(s) == |s|
      requires Find(s, h, ch) == Some(|s| - 1)
      ensures CleanedAsWritten(s, h, ch) == s
      ensures Find(CleanedAsWritten(s, h, ch), h, ch) == Some(|s| - 1)
      ensures PrefixLen(Cleaned(s, h, ch)) == |s| - 1
    {
      FindFromExact(s, h, ch, 0, |s| - 1, None);
      PackedByPrefix(s, |s|);
      CleanedRemovesFirstMatch(s, h, ch);
    }

    /**
     * Finding, part 2: on a full registry a removal before the last slot
     * leaves the last entry twice, in slots `N - 2` and `N - 1`, and no slot
     * is freed.
     */
    lemma CleanDuplicatesLastEntry(s: seq<Option<T>>, h: Ptr, ch: nat)
      requires |s| >= 2 && PrefixLen(s) == |s|
      requires Find(s, h, ch).Some? && Find(s, h, ch).value < |s| - 1
      ensures var r := CleanedAsWritten(s, h, ch);
              r[|s| - 2] == s[|s| - 1] && r[|s| - 1] == s[|s| - 1] && PrefixLen(r) == |s|
    {
      var n := |s|;
      var k := Find(s, h, ch).value;
      FindFromExact(s, h, ch, 0, n - 1, Some(k));
      var r := ShiftDown(s, k, n - 1);
      assert r == CleanedAsWritten(s, h, ch);
      PackedByPrefix(r, n);
    }
  }
}
