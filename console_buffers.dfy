/**
 * The fixed-size text buffers of the consoles: `BufWriter`, the cursor the
 * `scems-addons` console formats a line into before terminating it with
 * CRLF, and `ConsoleCache`, the 256-byte receive and format buffer of the
 * console services, which truncates instead of failing. Also the terminal
 * slot of `ConsoleServiceNative`.
 */
module ConsoleBuffers {
  import opened Common

  const CR: Byte := 13
  const LF: Byte := 10

  // -----------------------------------------------------------------------
  // `BufWriter`
  // -----------------------------------------------------------------------

  /**
   * What `add_end` leaves in a buffer of `len` bytes whose content was
   * `c`: content that leaves no room for two more bytes is cut to
   * `len - 2` bytes, then CR LF follows.
   */
  function Terminated(c: seq<Byte>, len: nat): (r: seq<Byte>)
    requires 2 <= len && |c| <= len
    ensures |r| <= len && |r| >= 2
    ensures r[|r| - 2..] == [CR, LF]
    ensures r[..|r| - 2] <= c
    ensures |c| + 2 <= len ==> r == c + [CR, LF]
    ensures |c| + 2 > len ==> |r| == len
  {
    var keep := if |c| >= len - 1 then len - 2 else |c|;
    c[..keep] + [CR, LF]
  }

  class BufWriter {
    const buf: array<Byte>
    var pos: nat

    ghost predicate Valid()
      reads this
    {
      pos <= buf.Length
    }

    /** `BufWriter::new`: an empty cursor over `buf`. */
    constructor (buf: array<Byte>)
      ensures this.buf == buf && pos == 0 && Valid()
    {
      this.buf := buf;
      pos := 0;
    }

    /** `as_bytes`: what has been written, `buf[..pos]`. */
    function AsBytes(): seq<Byte>
      reads this, buf
      requires Valid()
    {
      buf[..pos]
    }

    /**
     * `write_str`: bytes that do not fit are refused as a whole and change
     * nothing; bytes that fit are copied at `pos`, which moves past them.
     */
    method WriteStr(s: seq<Byte>) returns (ok: bool)
      requires Valid()
      modifies this, buf
      ensures Valid()
      ensures ok <==> old(pos) + |s| <= buf.Length
      ensures !ok ==> pos == old(pos) && buf[..] == old(buf[..])
      ensures ok ==> pos == old(pos) + |s| && buf[..] == old(buf[..pos]) + s + old(buf[pos + |s|..])
      ensures ok ==> AsBytes() == old(AsBytes()) + s
    {
      if pos + |s| > buf.Length {
        return false;
      }
      forall i | 0 <= i < |s| {
        buf[pos + i] := s[i];
      }
      pos := pos + |s|;
      return true;
    }

    /** `add_end`: terminate the content with CR LF, cutting it if needed; a buffer shorter than 2 bytes panics. */
    method AddEnd()
      requires Valid() && buf.Length >= 2
      modifies this, buf
      ensures Valid()
      ensures AsBytes() == Terminated(old(AsBytes()), buf.Length)
    {
      if pos >= buf.Length - 1 {
        pos := buf.Length - 2;
      }
      buf[pos] := CR;
      pos := pos + 1;
      buf[pos] := LF;
      pos := pos + 1;
    }
  }

  // -----------------------------------------------------------------------
  // `ConsoleCache`
  // -----------------------------------------------------------------------

  const CACHE_SIZE: nat := 256

  /** How many bytes of an `n`-byte string `write_str` takes when `length` bytes are held: `min(n, 256 - length)`, saturating. */
  function Fit(n: nat, length: nat): (size: nat)
    ensures size <= n
    ensures length <= CACHE_SIZE ==> length + size <= CACHE_SIZE
    ensures length <= CACHE_SIZE && n <= CACHE_SIZE - length ==> size == n
    ensures length >= CACHE_SIZE ==> size == 0
  {
    var room := if length <= CACHE_SIZE then CACHE_SIZE - length else 0;
    if n < room then n else room
  }

  class ConsoleCache {
    const data: array<Byte>
    var length: nat

    ghost predicate Valid()
      reads this
    {
      data.Length == CACHE_SIZE
    }

    /** `ConsoleCache::new`: 256 zero bytes, none of them content. */
    constructor ()
      ensures Valid() && fresh(data) && data[..] == seq(CACHE_SIZE, _ => 0) && length == 0
    {
      data := new Byte[CACHE_SIZE](_ => 0);
      length := 0;
    }

    /** `as_bytes`: the content; a length past the buffer panics. */
    function AsBytes(): seq<Byte>
      reads this, data
      requires Valid() && length <= CACHE_SIZE
    {
      data[..length]
    }

    /** `clean`: zero every byte, no content. */
    method Clean()
      requires Valid()
      modifies this, data
      ensures Valid() && data[..] == seq(CACHE_SIZE, _ => 0) && length == 0
    {
      forall i | 0 <= i < data.Length {
        data[i] := 0;
      }
      length := 0;
    }

    /** `set_length`: the length is stored unchecked. */
    method SetLength(len: nat)
      modifies this
      ensures length == len
    {
      length := len;
    }

    /** `write_str`: append what fits, drop the rest, always `Ok`. */
    method WriteStr(s: seq<Byte>) returns (r: Result<()>)
      requires Valid()
      modifies this, data
      ensures Valid() && r == Ok(())
      ensures length == old(length) + Fit(|s|, old(length))
      ensures old(length) <= CACHE_SIZE ==>
                length <= CACHE_SIZE && data[..] == old(data[..length]) + s[..Fit(|s|, old(length))] + old(data[..])[length..]
      ensures old(length) > CACHE_SIZE ==> data[..] == old(data[..])
    {
      var size := Fit(|s|, length);
      if size > 0 {
        forall i | 0 <= i < size {
          data[length + i] := s[i];
        }
        length := length + size;
      }
      return Ok(());
    }
  }

  /**
   * `write_str` into the cache keeps what was there, appends a prefix of
   * the string, never goes past 256 bytes, and loses nothing when the
   * string fits.
   */
  lemma CacheAppend(c: seq<Byte>, s: seq<Byte>)
    requires |c| <= CACHE_SIZE
    ensures var r := c + s[..Fit(|s|, |c|)];
            |r| <= CACHE_SIZE && c <= r &&
            (|c| + |s| <= CACHE_SIZE ==> r == c + s) &&
            (|c| + |s| > CACHE_SIZE ==> |r| == CACHE_SIZE)
  {
    assert s[..|s|] == s;
  }

  // -----------------------------------------------------------------------
  // The terminal of `ConsoleServiceNative`
  // -----------------------------------------------------------------------

  /** `ConsoleServiceTerminal`: none, or a serial terminal on a UART device. */
  datatype Terminal = NoTerminal | Serial(port: Ptr)

  class TerminalSlot {
    var terminal: Terminal

    /** `ConsoleServiceNative::new`: no terminal. */
    constructor ()
      ensures terminal == NoTerminal
    {
      terminal := NoTerminal;
    }

    /** `assign_serial_terminal`: only an unassigned console takes a terminal; otherwise `StackOverflow`. */
    method AssignSerialTerminal(port: Ptr) returns (r: Result<()>)
      modifies this
      ensures old(terminal) == NoTerminal ==> r == Ok(()) && terminal == Serial(port)
      ensures old(terminal) != NoTerminal ==> r == Err(StackOverflow) && terminal == old(terminal)
    {
      match terminal {
        case NoTerminal =>
          terminal := Serial(port);
        case Serial(_) =>
          return Err(StackOverflow);
      }
      return Ok(());
    }

    /** `unassign_terminal`. */
    method UnassignTerminal()
      modifies this
      ensures terminal == NoTerminal
    {
      terminal := NoTerminal;
    }
  }
}
