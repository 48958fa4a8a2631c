/**
 * The console command-line tokenizers. `dispatch_and_execute` of the
 * `scems-addons` console splits a received line at ' ', '\r' and '\n' into
 * at most 16 arguments; the `ConsoleCommands` iterator of the console
 * services splits at ASCII whitespace, one token per `next`. Both are
 * specified by `Tokens`, the maximal runs of non-separator bytes from left
 * to right.
 */
module ConsoleTokens {
  import opened Common

  /** The separator set of a tokenizer. */
  datatype Separators =
    | CommandSeparators   // ' ', '\r', '\n'
    | AsciiWhitespace     // `u8::is_ascii_whitespace`: ' ', '\t', '\n', '\x0C', '\r'

  predicate IsSep(k: Separators, b: Byte)
  {
    match k
    case CommandSeparators => b == 32 || b == 13 || b == 10
    case AsciiWhitespace => b == 32 || b == 9 || b == 10 || b == 12 || b == 13
  }

  /** The first position at or after `i` that is not a separator, or the end. */
  function SkipSeps(k: Separators, s: seq<Byte>, i: nat): (j: nat)
    requires i <= |s|
    ensures i <= j <= |s|
    ensures forall m :: i <= m < j ==> IsSep(k, s[m])
    ensures j < |s| ==> !IsSep(k, s[j])
    decreases |s| - i
  {
    if i == |s| || !IsSep(k, s[i]) then i else SkipSeps(k, s, i + 1)
  }

  /** The first position at or after `i` that is a separator, or the end. */
  function RunEnd(k: Separators, s: seq<Byte>, i: nat): (j: nat)
    requires i <= |s|
    ensures i <= j <= |s|
    ensures forall m :: i <= m < j ==> !IsSep(k, s[m])
    ensures j < |s| ==> IsSep(k, s[j])
    decreases |s| - i
  {
    if i == |s| || IsSep(k, s[i]) then i else RunEnd(k, s, i + 1)
  }

  /** The tokens of `s[i..]`: maximal runs of non-separators, left to right. */
  function TokensFrom(k: Separators, s: seq<Byte>, i: nat): seq<seq<Byte>>
    requires i <= |s|
    decreases |s| - i
  {
    var a := SkipSeps(k, s, i);
    if a == |s| then []
    else
      var b := RunEnd(k, s, a);
      [s[a..b]] + TokensFrom(k, s, b)
  }

  function Tokens(k: Separators, s: seq<Byte>): seq<seq<Byte>>
  {
    TokensFrom(k, s, 0)
  }

  /** The first `n` elements of `ts`, or all of them. */
  function Take<T>(ts: seq<T>, n: nat): (r: seq<T>)
    ensures |r| == if |ts| <= n then |ts| else n
    ensures r <= ts
  {
    if |ts| <= n then ts else ts[..n]
  }

  /** A token is a non-empty run without separators. */
  ghost predicate IsToken(k: Separators, t: seq<Byte>)
  {
    |t| > 0 && forall m :: 0 <= m < |t| ==> !IsSep(k, t[m])
  }

  // -----------------------------------------------------------------------
  // Properties of the specification
  // -----------------------------------------------------------------------

  /** Every token is non-empty and free of separators. */
  lemma {:induction false} TokensAreTokens(k: Separators, s: seq<Byte>, i: nat)
    requires i <= |s|
    ensures forall t :: t in TokensFrom(k, s, i) ==> IsToken(k, t)
    decreases |s| - i
  {
    var a := SkipSeps(k, s, i);
    if a < |s| {
      var b := RunEnd(k, s, a);
      TokensAreTokens(k, s, b);
    }
  }

  /** Input made only of separators (or nothing) has no token. */
  lemma {:induction false} BlankHasNoTokens(k: Separators, s: seq<Byte>, i: nat)
    requires i <= |s| && forall m :: i <= m < |s| ==> IsSep(k, s[m])
    ensures TokensFrom(k, s, i) == []
  {
    assert SkipSeps(k, s, i) == |s|;
  }

  /** Input with a non-separator has at least one token. */
  lemma NonBlankHasTokens(k: Separators, s: seq<Byte>, m: nat)
    requires m < |s| && !IsSep(k, s[m])
    ensures Tokens(k, s) != []
  {
    assert SkipSeps(k, s, 0) <= m;
  }

  /** A token surrounded by separators is the only token. */
  lemma SingleToken(k: Separators, s: seq<Byte>, t: seq<Byte>, pre: seq<Byte>, post: seq<Byte>)
    requires IsToken(k, t) && s == pre + t + post
    requires forall m :: 0 <= m < |pre| ==> IsSep(k, pre[m])
    requires forall m :: 0 <= m < |post| ==> IsSep(k, post[m])
    ensures Tokens(k, s) == [t]
  {
    var a := |pre|;
    var b := |pre| + |t|;
    assert forall m :: 0 <= m < a ==> s[m] == pre[m];
    assert forall m :: a <= m < b ==> s[m] == t[m - a];
    assert forall m :: b <= m < |s| ==> s[m] == post[m - b];
    assert s[a] == t[0];
    assert SkipSeps(k, s, 0) == a;
    if b < |s| {
      assert s[b] == post[0];
    }
    assert RunEnd(k, s, a) == b;
    assert s[a..b] == t;
    BlankHasNoTokens(k, s, b);
  }

  // -----------------------------------------------------------------------
  // `dispatch_and_execute`: the bounded argument splitter
  // -----------------------------------------------------------------------

  const MAX_ARGS: nat := 16

  /**
   * The argument loop of `dispatch_and_execute`: skip separators, take a
   * run, until the command ends or 16 arguments are filled. The result is
   * the first 16 tokens of the command.
   */
  method SplitArgs(command: seq<Byte>) returns (args: seq<seq<Byte>>)
    ensures args == Take(Tokens(CommandSeparators, command), MAX_ARGS)
  {
    var k := CommandSeparators;
    args := [];
    var idx := 0;
    while idx < |command| && |args| < MAX_ARGS
      invariant idx <= |command| && |args| <= MAX_ARGS
      invariant Tokens(k, command) == args + TokensFrom(k, command, idx)
      decreases |command| - idx
    {
      var t, next := NextToken(k, command, idx);
      if t.Some? {
        args := args + [t.value];
      }
      idx := next;
    }
    if |args| < MAX_ARGS {
      NoTokensAtEnd(k, command, idx);
    } else {
      assert (args + TokensFrom(k, command, idx))[..MAX_ARGS] == args;
    }
  }

  /** The end of the input holds no token. */
  lemma NoTokensAtEnd(k: Separators, s: seq<Byte>, i: nat)
    requires i == |s|
    ensures TokensFrom(k, s, i) == []
  {
  }

  /**
   * One pass of the tokenizer loops: skip separators, then scan a run. The
   * run found is the first token of `s[i..]`, and `next` is past it; with
   * no run left, `next` is the end of the input.
   */
  method NextToken(k: Separators, s: seq<Byte>, i: nat) returns (t: Option<seq<Byte>>, next: nat)
    requires i <= |s|
    ensures i <= next <= |s|
    ensures t.Some? ==> i < next
    ensures t.None? ==> next == |s| && TokensFrom(k, s, i) == []
    ensures t.Some? ==> TokensFrom(k, s, i) == [t.value] + TokensFrom(k, s, next)
  {
    var start := SkipLoop(k, s, i);
    if start >= |s| {
      return None, start;
    }
    next := RunLoop(k, s, start);
    t := Some(s[start..next]);
  }

  /** The separator-skipping loop of the tokenizers. */
  method SkipLoop(k: Separators, s: seq<Byte>, i: nat) returns (j: nat)
    requires i <= |s|
    ensures j == SkipSeps(k, s, i)
  {
    j := i;
    while j < |s| && IsSep(k, s[j])
      invariant i <= j <= SkipSeps(k, s, i) && SkipSeps(k, s, j) == SkipSeps(k, s, i)
      decreases |s| - j
    {
      j := j + 1;
    }
  }

  /** The token-scanning loop of the tokenizers. */
  method RunLoop(k: Separators, s: seq<Byte>, i: nat) returns (j: nat)
    requires i <= |s|
    ensures j == RunEnd(k, s, i)
  {
    j := i;
    while j < |s| && !IsSep(k, s[j])
      invariant i <= j <= RunEnd(k, s, i) && RunEnd(k, s, j) == RunEnd(k, s, i)
      decreases |s| - j
    {
      j := j + 1;
    }
  }

  // -----------------------------------------------------------------------
  // `ConsoleCommands`: the whitespace token iterator
  // -----------------------------------------------------------------------

  class ConsoleCommands {
    const cmds: seq<Byte>
    var position: nat

    ghost predicate Valid()
      reads this
    {
      position <= |cmds|
    }

    /** The tokens `next` has still to return. */
    ghost function Remaining(): seq<seq<Byte>>
      reads this
      requires Valid()
    {
      TokensFrom(AsciiWhitespace, cmds, position)
    }

    /** `ConsoleCommands::new`: every token is still to come. */
    constructor (cmds: seq<Byte>)
      ensures this.cmds == cmds && position == 0
      ensures Valid() && Remaining() == Tokens(AsciiWhitespace, cmds)
    {
      this.cmds := cmds;
      position := 0;
    }

    /**
     * `next`: the next token, with the position just past it; `None`, with
     * the position unchanged, when only whitespace is left.
     */
    method Next() returns (t: Option<seq<Byte>>)
      requires Valid()
      modifies this
      ensures Valid()
      ensures t.None? <==> old(Remaining()) == []
      ensures t.None? ==> position == old(position)
      ensures t.Some? ==> old(Remaining()) == [t.value] + Remaining() && position > old(position)
    {
      var next;
      t, next := NextToken(AsciiWhitespace, cmds, position);
      if t.Some? {
        position := next;
      }
    }
  }

  /** When `next` finds no token, the rest of the input is whitespace, so every later call finds none either. */
  lemma NoneIsFinal(c: seq<Byte>, p: nat)
    requires p <= |c| && TokensFrom(AsciiWhitespace, c, p) == []
    ensures forall m :: p <= m < |c| ==> IsSep(AsciiWhitespace, c[m])
  {
    var a := SkipSeps(AsciiWhitespace, c, p);
    assert a == |c|;
  }
}
