/**
 * The global log writer of `scems`: a threshold level and an optional
 * stream. `format_write` hands a message to the stream when its level
 * passes the threshold. What the stream does with it is foreign code, so
 * the writer returns the deliveries it makes.
 */
module Log {
  import opened Common

  /** `LogLevel`, ordered by declaration: `Error < Warn < Info < Debug`. */
  datatype LogLevel = Error | Warn | Info | Debug

  /** The position of a level in the declaration order, which `PartialOrd` compares. */
  function Rank(l: LogLevel): (n: nat)
    ensures n < 4
    ensures l == Error <==> n == 0
    ensures l == Debug <==> n == 3
  {
    match l
    case Error => 0
    case Warn => 1
    case Info => 2
    case Debug => 3
  }

  /** `level < threshold` as written: strictly more severe than the threshold. */
  predicate PassesAsWritten(level: LogLevel, threshold: LogLevel)
  {
    Rank(level) < Rank(threshold)
  }

  /** The evident intent: the threshold level and everything more severe. */
  predicate Passes(level: LogLevel, threshold: LogLevel)
  {
    Rank(level) <= Rank(threshold)
  }

  /** A `&'static dyn LogStream`, by identity. */
  type StreamId = nat

  /** One `write_content` call: the stream, the level and the formatted message. */
  datatype Delivery = Delivery(stream: StreamId, level: LogLevel, message: string)

  class LogWriter {
    var level: LogLevel
    var stream: Option<StreamId>

    /** `LogWriter::new`: threshold `Warn`, no stream. */
    constructor ()
      ensures level == Warn && stream.None?
    {
      level := Warn;
      stream := None;
    }

    /** `assign_stream`: only the stream changes. */
    method AssignStream(s: StreamId)
      modifies this
      ensures stream == Some(s) && level == old(level)
    {
      stream := Some(s);
    }

    /** `set_level`: only the threshold changes. */
    method SetLevel(l: LogLevel)
      modifies this
      ensures level == l && stream == old(stream)
    {
      level := l;
    }

    /**
     * `format_write`, with the threshold comparison corrected to include
     * the threshold level: one delivery to the assigned stream when the
     * message passes, none otherwise.
     */
    method FormatWrite(l: LogLevel, message: string) returns (out: seq<Delivery>)
      ensures |out| <= 1
      ensures |out| == 1 <==> stream.Some? && Passes(l, level)
      ensures |out| == 1 ==> out[0] == Delivery(stream.value, l, message)
    {
      out := [];
      if Rank(l) <= Rank(level) {
        match stream {
          case Some(s) =>
            out := [Delivery(s, l, message)];
          case None =>
        }
      }
    }

    /**
     * `format_write` as written: `level < self.level` lets through only
     * messages strictly more severe than the threshold.
     */
    method FormatWriteAsWritten(l: LogLevel, message: string) returns (out: seq<Delivery>)
      ensures |out| <= 1
      ensures |out| == 1 <==> stream.Some? && PassesAsWritten(l, level)
      ensures |out| == 1 ==> out[0] == Delivery(stream.value, l, message)
    {
      out := [];
      if Rank(l) < Rank(level) {
        match stream {
          case Some(s) =>
            out := [Delivery(s, l, message)];
          case None =>
        }
      }
    }
  }

  /** `Error` passes every threshold, and raising the threshold never blocks what passed before. */
  lemma ThresholdMonotone(l: LogLevel, t: LogLevel, t': LogLevel)
    requires Passes(l, t) && Rank(t) <= Rank(t')
    ensures Passes(l, t') && Passes(Error, t)
  {
  }

  /** With the correction every threshold lets its own level through. */
  lemma ThresholdAdmitsItself(t: LogLevel)
    ensures Passes(t, t)
  {
  }

  /**
   * As written, no threshold lets `Debug` through, and the default
   * threshold `Warn` drops `warn!` messages, passing only `Error`.
   */
  lemma AsWrittenNeverWritesDebug(t: LogLevel)
    ensures !PassesAsWritten(Debug, t)
    ensures !PassesAsWritten(Warn, Warn) && PassesAsWritten(Error, Warn)
    ensures forall l :: PassesAsWritten(l, Warn) <==> l == Error
  {
  }
}
