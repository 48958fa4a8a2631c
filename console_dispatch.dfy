/**
 * Command dispatch of the consoles. `dispatch_and_execute` of the
 * `scems-addons` service splits a line into at most 16 arguments and runs
 * the first execution named by the first one; `ConsoleCommandsDispatchCore`
 * keeps 16 executor slots and runs every executor named by the first token;
 * `ConsoleDispatchCore` (the `sces-addons` and `scems-addons` native
 * consoles) keeps a growing executor list and runs the first match, handing
 * it the token iterator positioned after the name.
 *
 * What an executor does is foreign code: its result is a parameter.
 */
module ConsoleDispatch {
  import opened Common
  import opened ConsoleTokens
  import CB = ConsoleBuffers

  /** A `&'static dyn` executor: its identity and the bytes of its name. */
  datatype Executor = Executor(id: nat, name: seq<Byte>)

  /** The index of the first entry of `names` equal to `name`. */
  function FirstNamed(names: seq<seq<Byte>>, name: seq<Byte>): (r: Option<nat>)
    ensures r.Some? ==> r.value < |names| && names[r.value] == name
    ensures r.Some? ==> forall j :: 0 <= j < r.value ==> names[j] != name
    ensures r.None? <==> name !in names
  {
    if names == [] then None
    else if names[0] == name then Some(0)
    else match FirstNamed(names[1..], name)
      case None => None
      case Some(k) => Some(k + 1)
  }

  // -----------------------------------------------------------------------
  // `ConsoleServiceDispatches::dispatch_and_execute`
  // -----------------------------------------------------------------------

  /** What `dispatch_and_execute` decides for a command line. */
  datatype Plan =
    | NoCommand                                    // no token: `Err(Param)`
    | UnknownCommand                               // no execution of that name: `Err(NotFound)`
    | Execute(index: nat, params: seq<seq<Byte>>)  // run execution `index` with `params`

  /** The plan for `command` when the executions are named `names`, in queue order. */
  function PlanFor(command: seq<Byte>, names: seq<seq<Byte>>): (p: Plan)
    ensures p == NoCommand <==> Tokens(CommandSeparators, command) == []
    ensures p.Execute? ==>
              var args := Take(Tokens(CommandSeparators, command), MAX_ARGS);
              p.index < |names| && names[p.index] == args[0] && p.params == args[1..] &&
              forall j :: 0 <= j < p.index ==> names[j] != args[0]
    ensures p == UnknownCommand <==> Tokens(CommandSeparators, command) != [] && Tokens(CommandSeparators, command)[0] !in names
  {
    var args := Take(Tokens(CommandSeparators, command), MAX_ARGS);
    if args == [] then NoCommand
    else match FirstNamed(names, args[0])
      case None => UnknownCommand
      case Some(i) => Execute(i, args[1..])
  }

  /** The result of `dispatch_and_execute`: the execution's own result is passed on unchanged. */
  function Outcome(p: Plan, results: seq<Result<()>>): (r: Result<()>)
    requires p.Execute? ==> p.index < |results|
    ensures p == NoCommand ==> r == Err(Param)
    ensures p == UnknownCommand ==> r == Err(NotFound)
    ensures p.Execute? ==> r == results[p.index]
  {
    match p
    case NoCommand => Err(Param)
    case UnknownCommand => Err(NotFound)
    case Execute(i, _) => results[i]
  }

  /**
   * `dispatch_and_execute` over executions named `names`, where `results[i]`
   * is what execution `i` would return: split the line, then pick the first
   * execution whose name is the command.
   */
  method DispatchAndExecute(command: seq<Byte>, names: seq<seq<Byte>>, results: seq<Result<()>>)
      returns (plan: Plan, r: Result<()>)
    requires |results| == |names|
    ensures plan == PlanFor(command, names)
    ensures r == Outcome(plan, results)
  {
    var args := SplitArgs(command);
    if |args| == 0 {
      return NoCommand, Err(Param);
    }
    var cmd := args[0];
    var params := args[1..];
    var found: Option<nat> := None;
    var i := 0;
    while i < |names|
      invariant i <= |names|
      invariant found.None? ==> forall j :: 0 <= j < i ==> names[j] != cmd
      invariant found.Some? ==> found == FirstNamed(names, cmd)
      decreases |names| - i
    {
      if names[i] == cmd {
        found := Some(i);
        break;
      }
      i := i + 1;
    }
    match found {
      case None =>
        plan := UnknownCommand;
        r := Err(NotFound);
      case Some(k) =>
        plan := Execute(k, params);
        r := results[k];
    }
  }

  /** A line holding just a known name, between separators, runs the first execution of that name with no parameters. */
  lemma BareNameRuns(command: seq<Byte>, names: seq<seq<Byte>>, name: seq<Byte>, pre: seq<Byte>, post: seq<Byte>)
    requires IsToken(CommandSeparators, name) && command == pre + name + post
    requires forall m :: 0 <= m < |pre| ==> IsSep(CommandSeparators, pre[m])
    requires forall m :: 0 <= m < |post| ==> IsSep(CommandSeparators, post[m])
    requires name in names
    ensures PlanFor(command, names) == Execute(FirstNamed(names, name).value, [])
  {
    SingleToken(CommandSeparators, command, name, pre, post);
  }

  /** No execution ever sees more than 15 parameters, whatever the line holds. */
  lemma ParamsCapped(command: seq<Byte>, names: seq<seq<Byte>>)
    ensures PlanFor(command, names).Execute? ==> |PlanFor(command, names).params| < MAX_ARGS
  {
  }

  // -----------------------------------------------------------------------
  // `ConsoleCommandsDispatchCore` (scems-addons `console/dispatch.rs`)
  // -----------------------------------------------------------------------

  const QUEUE_SIZE: nat := 16

  /** The first empty executor slot. */
  function FirstFree(s: seq<Option<Executor>>): (r: Option<nat>)
    ensures r.Some? ==> r.value < |s| && s[r.value].None? && forall j :: 0 <= j < r.value ==> s[j].Some?
    ensures r.None? ==> forall j :: 0 <= j < |s| ==> s[j].Some?
  {
    if s == [] then None
    else if s[0].None? then Some(0)
    else match FirstFree(s[1..])
      case None => None
      case Some(k) => Some(k + 1)
  }

  predicate Named(slot: Option<Executor>, name: seq<Byte>)
  {
    slot.Some? && slot.value.name == name
  }

  /** The slots holding an executor named `name`, in increasing order: each of them, and only them. */
  function Matching(s: seq<Option<Executor>>, name: seq<Byte>): (r: seq<nat>)
    ensures forall k :: 0 <= k < |r| ==> r[k] < |s| && Named(s[r[k]], name)
    ensures forall i :: 0 <= i < |s| && Named(s[i], name) ==> i in r
    ensures forall k, l :: 0 <= k < l < |r| ==> r[k] < r[l]
  {
    MatchingBelow(s, name, |s|)
  }

  /** The slots below `n` holding an executor named `name`, in increasing order. */
  function MatchingBelow(s: seq<Option<Executor>>, name: seq<Byte>, n: nat): (r: seq<nat>)
    requires n <= |s|
    ensures forall k :: 0 <= k < |r| ==> r[k] < n && Named(s[r[k]], name)
    ensures forall i :: 0 <= i < n && Named(s[i], name) ==> i in r
    ensures forall k, l :: 0 <= k < l < |r| ==> r[k] < r[l]
  {
    if n == 0 then []
    else if Named(s[n - 1], name) then MatchingBelow(s, name, n - 1) + [n - 1]
    else MatchingBelow(s, name, n - 1)
  }

  class DispatchCore {
    const executors: array<Option<Executor>>
    const cache: CB.ConsoleCache
    /** The `EVT_CMD_RX` flag of `dispatch_event`. */
    var signalled: bool

    ghost predicate Valid()
      reads this, cache
    {
      executors.Length == QUEUE_SIZE && cache.Valid()
    }

    /** `new`: 16 empty slots, a fresh cache, no event. */
    constructor ()
      ensures Valid() && fresh(executors) && fresh(cache) && fresh(cache.data)
      ensures executors[..] == seq(QUEUE_SIZE, _ => None) && cache.length == 0 && !signalled
    {
      executors := new Option<Executor>[QUEUE_SIZE](_ => None);
      cache := new CB.ConsoleCache();
      signalled := false;
    }

    /** `submit_executor`: the first empty slot takes `exe`; all 16 full is `StackOverflow` with nothing changed. Duplicates are allowed. */
    method SubmitExecutor(exe: Executor) returns (r: Result<()>)
      requires Valid()
      modifies executors
      ensures Valid()
      ensures r.Ok? <==> FirstFree(old(executors[..])).Some?
      ensures r.Ok? ==> executors[..] == old(executors[..])[FirstFree(old(executors[..])).value := Some(exe)]
      ensures r.Err? ==> r.error == StackOverflow && executors[..] == old(executors[..])
    {
      for i := 0 to executors.Length
        invariant forall j :: 0 <= j < i ==> executors[j].Some?
        invariant executors[..] == old(executors[..])
      {
        if executors[i].None? {
          executors[i] := Some(exe);
          return Ok(());
        }
      }
      return Err(StackOverflow);
    }

    /**
     * `dispatch`: start the reception (`rx` is its HAL result), wait for
     * the line (`waitOk`), take its first token, then run every executor
     * of that name in slot order. `ran` lists the slots run. A line
     * without a token ends in `FormatFailure`; no match is still `Ok`.
     */
    method Dispatch(rx: Result<()>, waitOk: bool) returns (r: Result<()>, ran: seq<nat>)
      requires Valid() && cache.length <= CB.CACHE_SIZE
      modifies this
      ensures Valid() && signalled == (old(signalled) && (rx.Err? || !waitOk))
      ensures rx.Err? ==> r == rx && ran == []
      ensures rx.Ok? && !waitOk ==> r == Err(Overtime) && ran == []
      ensures rx.Ok? && waitOk ==>
                var ts := Tokens(AsciiWhitespace, cache.AsBytes());
                (ts == [] ==> r == Err(FormatFailure) && ran == []) &&
                (ts != [] ==> r == Ok(()) && ran == Matching(executors[..], ts[0]))
    {
      if rx.Err? {
        return rx, [];
      }
      if !waitOk {
        return Err(Overtime), [];
      }
      signalled := false;
      var commands := new ConsoleCommands(cache.AsBytes());
      var first := commands.Next();
      if first.None? {
        return Err(FormatFailure), [];
      }
      ran := RunMatching(first.value);
      return Ok(()), ran;
    }

    /** The executor loop of `dispatch`: the slots named `name`, in slot order. */
    method RunMatching(name: seq<Byte>) returns (ran: seq<nat>)
      ensures ran == Matching(executors[..], name)
    {
      ran := [];
      for i := 0 to executors.Length
        invariant ran == MatchingBelow(executors[..], name, i)
      {
        if executors[i].Some? && executors[i].value.name == name {
          ran := ran + [i];
        }
      }
    }

    /** `set_dispatch_signal`: a non-empty reception, when the cache is not borrowed (`cacheBusy`), sets its length and raises the event. */
    method SetDispatchSignal(len: nat, cacheBusy: bool)
      requires Valid()
      modifies this, cache
      ensures Valid()
      ensures len > 0 && !cacheBusy ==> cache.length == len && signalled
      ensures len == 0 || cacheBusy ==> cache.length == old(cache.length) && signalled == old(signalled)
    {
      if len > 0 && !cacheBusy {
        cache.SetLength(len);
        signalled := true;
      }
    }
  }

  /** A submitted executor is run by every later dispatch of its name, as long as it stays registered. */
  lemma SubmittedIsRun(s: seq<Option<Executor>>, exe: Executor)
    requires FirstFree(s).Some?
    ensures FirstFree(s).value in Matching(s[FirstFree(s).value := Some(exe)], exe.name)
  {
  }

  // -----------------------------------------------------------------------
  // `ConsoleDispatchCore` (sces-addons and scems-addons `native/dispatch.rs`)
  // -----------------------------------------------------------------------

  function NamesOf(q: seq<Executor>): (names: seq<seq<Byte>>)
    ensures |names| == |q| && forall i :: 0 <= i < |q| ==> names[i] == q[i].name
  {
    seq(|q|, i requires 0 <= i < |q| => q[i].name)
  }

  /** `search_exe`: the first executor of the list with that name, if any. */
  function SearchExe(q: seq<Executor>, name: seq<Byte>): (r: Option<Executor>)
    ensures r.None? <==> forall i :: 0 <= i < |q| ==> q[i].name != name
    ensures r.Some? ==> exists i :: 0 <= i < |q| && q[i] == r.value && r.value.name == name &&
                          forall j :: 0 <= j < i ==> q[j].name != name
  {
    var names := NamesOf(q);
    match FirstNamed(names, name)
    case None =>
      assert forall i :: 0 <= i < |q| ==> names[i] != name;
      None
    case Some(i) => Some(q[i])
  }

  /** Accepting an executor never changes which executor an already served name reaches. */
  lemma AcceptKeepsEarlierMatch(q: seq<Executor>, exe: Executor, name: seq<Byte>)
    requires SearchExe(q, name).Some?
    ensures SearchExe(q + [exe], name) == SearchExe(q, name)
  {
    var names, names' := NamesOf(q), NamesOf(q + [exe]);
    assert names' == names + [exe.name];
    var i := FirstNamed(names, name).value;
    assert names'[i] == name;
    var i' := FirstNamed(names', name).value;
    assert i' == i;
  }

  /** An accepted executor whose name nobody earlier has is what its name reaches. */
  lemma AcceptedIsFound(q: seq<Executor>, exe: Executor)
    requires SearchExe(q, exe.name).None?
    ensures SearchExe(q + [exe], exe.name) == Some(exe)
  {
    var q' := q + [exe];
    assert q'[|q|] == exe;
    var names' := NamesOf(q');
    var i := FirstNamed(names', exe.name).value;
    assert i == |q|;
  }

  class NativeDispatchCore {
    var queue: seq<Executor>
    const cache: CB.ConsoleCache
    /** `Timeout` in `sces-addons`, `Overtime` in `scems-addons`. */
    const waitError: ErrValue
    /** The `EVT_CMD_RX` flag of `dispatch_event`. */
    var signalled: bool

    ghost predicate Valid()
      reads this, cache
    {
      cache.Valid()
    }

    /** `new`: no executor, a fresh cache, no event. */
    constructor (waitError: ErrValue)
      ensures Valid() && fresh(cache) && queue == [] && cache.length == 0 && !signalled && this.waitError == waitError
    {
      queue := [];
      cache := new CB.ConsoleCache();
      this.waitError := waitError;
      signalled := false;
    }

    /** `accept_dispatch`: append `exe`, unless taking the lock or growing the list fails (`reserve`). */
    method AcceptDispatch(exe: Executor, reserve: Result<()>) returns (r: Result<()>)
      modifies this
      ensures r == reserve
      ensures r.Ok? ==> queue == old(queue) + [exe]
      ensures r.Err? ==> queue == old(queue)
      ensures signalled == old(signalled)
    {
      if reserve.Ok? {
        queue := queue + [exe];
      }
      return reserve;
    }

    /**
     * `wait_and_dispatch`: start the reception (`rx`), wait for the line
     * (`waitOk`), take the first whitespace token as the executor name and
     * hand the first executor of that name the iterator positioned after
     * it; `outcome` is what that executor returns.
     */
    method WaitAndDispatch(rx: Result<()>, waitOk: bool, outcome: Result<()>)
        returns (r: Result<()>, exe: Option<Executor>, commands: ConsoleCommands?)
      requires Valid() && cache.length <= CB.CACHE_SIZE
      modifies this
      ensures Valid() && queue == old(queue)
      ensures rx.Err? ==> r == rx && exe.None?
      ensures rx.Ok? && !waitOk ==> r == Err(waitError) && exe.None?
      ensures rx.Ok? && waitOk ==>
                var ts := Tokens(AsciiWhitespace, cache.AsBytes());
                (ts == [] ==> r == Err(FormatFailure) && exe.None?) &&
                (ts != [] && SearchExe(queue, ts[0]).None? ==> r == Err(InstanceNotFound) && exe.None?) &&
                (ts != [] && SearchExe(queue, ts[0]).Some? ==>
                   r == outcome && exe == SearchExe(queue, ts[0]) &&
                   commands != null && fresh(commands) && commands.Valid() && commands.Remaining() == ts[1..])
    {
      if rx.Err? {
        return rx, None, null;
      }
      if !waitOk {
        return Err(waitError), None, null;
      }
      signalled := false;
      commands := new ConsoleCommands(cache.AsBytes());
      var name := commands.Next();
      if name.None? {
        return Err(FormatFailure), None, commands;
      }
      exe := SearchExe(queue, name.value);
      if exe.None? {
        return Err(InstanceNotFound), None, commands;
      }
      r := outcome;
    }

    /** `set_dispatch_signal`: a non-empty reception, when the cache is not borrowed (`cacheBusy`), sets its length and puts the event. */
    method SetDispatchSignal(len: nat, cacheBusy: bool)
      requires Valid()
      modifies this, cache
      ensures Valid() && queue == old(queue)
      ensures len > 0 && !cacheBusy ==> cache.length == len && signalled
      ensures len == 0 || cacheBusy ==> cache.length == old(cache.length) && signalled == old(signalled)
    {
      if len > 0 && !cacheBusy {
        cache.SetLength(len);
        signalled := true;
      }
    }
  }
}
