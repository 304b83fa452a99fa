/**
 * The producer side of the asynchronous logger: a level filter in front of a
 * first-in first-out queue of formatted records, and the write step that
 * hands the oldest record to every sink. The write thread, the mutex and the
 * condition variable only serialise these steps, so they are modelled as
 * sequential calls.
 */
module Logging {
  /** Severity, ordered by declaration: INFO < WARN < ERROR. */
  datatype LogLevel = INFO | WARN | ERROR

  /** The enumerator's value. */
  function Rank(level: LogLevel): nat {
    match level
    case INFO => 0
    case WARN => 1
    case ERROR => 2
  }

  /** `a < b` on the enumeration. */
  predicate Below(a: LogLevel, b: LogLevel) {
    Rank(a) < Rank(b)
  }

  /** The severity order is a strict total order with INFO least and ERROR greatest. */
  lemma SeverityOrder()
    ensures Below(INFO, WARN) && Below(WARN, ERROR)
    ensures forall a: LogLevel :: !Below(a, a) && !Below(a, INFO) && !Below(ERROR, a)
    ensures forall a: LogLevel, b: LogLevel :: a != b ==> (Below(a, b) <==> !Below(b, a))
    ensures forall a: LogLevel, b: LogLevel, c: LogLevel :: Below(a, b) && Below(b, c) ==> Below(a, c)
  {
  }

  /** A message at `level` passes a logger configured at `configured` unless it is below it. */
  predicate Accepts(configured: LogLevel, level: LogLevel) {
    !Below(level, configured)
  }

  /** ANSI escape codes of the tags. */
  const GREEN: string := "\U{1B}[32m"
  const YELLOW: string := "\U{1B}[33m"
  const RED: string := "\U{1B}[31m"
  const RESET: string := "\U{1B}[0m"

  /** `{}{}{}` formatted with a colour, a word and the reset code. */
  function Colored(color: string, word: string): string {
    color + word + RESET
  }

  /** The tag each convenience method attaches: its level's name, coloured green, yellow or red. */
  function TagFor(level: LogLevel): string {
    match level
    case INFO => Colored(GREEN, "info")
    case WARN => Colored(YELLOW, "warn")
    case ERROR => Colored(RED, "error")
  }

  /** The record `"[{}] - [{}] - [{}] - {}\n"` formatted with the time, logger name, tag and message. */
  function Record(time: string, name: string, tag: string, msg: string): string {
    "[" + time + "] - [" + name + "] - [" + tag + "] - " + msg + "\n"
  }

  /** The queue after one `log` call: one more record at the tail when the level passes, else the same queue. */
  function Logged(queue: seq<string>, configured: LogLevel, name: string, time: string, msg: string, level: LogLevel, tag: string): seq<string> {
    if Below(level, configured) then queue else queue + [Record(time, name, tag, msg)]
  }

  /** The destinations a logger writes to (the writes themselves are output and not modelled). */
  datatype Sink = StdOutSink | FileSink(path: string)

  /** One record handed to one sink. */
  datatype Delivery = Delivery(sink: Sink, record: string)

  /** One record handed to each sink, in the order of the sinks. */
  function Broadcast(sinks: seq<Sink>, record: string): (r: seq<Delivery>)
    ensures |r| == |sinks|
    ensures forall k :: 0 <= k < |r| ==> r[k] == Delivery(sinks[k], record)
  {
    if sinks == [] then [] else [Delivery(sinks[0], record)] + Broadcast(sinks[1..], record)
  }

  /** Every record of `records`, oldest first, each handed to every sink. */
  function Deliveries(sinks: seq<Sink>, records: seq<string>): seq<Delivery> {
    if records == [] then [] else Broadcast(sinks, records[0]) + Deliveries(sinks, records[1..])
  }

  /** The queue and the output after `n` write steps, each popping the oldest record (a step on an empty queue does nothing). */
  function Drained(sinks: seq<Sink>, queue: seq<string>, delivered: seq<Delivery>, n: nat): (seq<string>, seq<Delivery>)
    decreases n
  {
    if n == 0 || queue == [] then (queue, delivered)
    else Drained(sinks, queue[1..], delivered + Broadcast(sinks, queue[0]), n - 1)
  }

  class Logger {
    var name: string
    var level: LogLevel
    var sinks: seq<Sink>
    /** The pending records, oldest first. */
    var queue: seq<string>
    /** What the sinks have been given so far, in order. */
    var delivered: seq<Delivery>

    constructor (name: string, level: LogLevel, sinks: seq<Sink>)
      ensures this.name == name && this.level == level && this.sinks == sinks
      ensures queue == [] && delivered == []
    {
      this.name, this.level, this.sinks := name, level, sinks;
      queue, delivered := [], [];
    }

    /** A logger built with the default arguments: no name, level INFO, one standard-output sink. */
    constructor Default()
      ensures name == "" && level == INFO && sinks == [StdOutSink]
      ensures queue == [] && delivered == []
    {
      name, level, sinks := "", INFO, [StdOutSink];
      queue, delivered := [], [];
    }

    method AddSink(sink: Sink)
      modifies this`sinks
      ensures sinks == old(sinks) + [sink]
    {
      sinks := sinks + [sink];
    }

    /**
     * Pushes the record for `msg` (already formatted with its arguments) at
     * `time`, unless `msgLevel` is below the logger's level.
     */
    method Log(msg: string, msgLevel: LogLevel, tag: string, time: string)
      modifies this`queue
      ensures queue == Logged(old(queue), level, name, time, msg, msgLevel, tag)
    {
      if Below(msgLevel, level) {
        return;
      }
      queue := queue + [Record(time, name, tag, msg)];
    }

    method Info(msg: string, time: string)
      modifies this`queue
      ensures queue == Logged(old(queue), level, name, time, msg, INFO, TagFor(INFO))
    {
      Log(msg, INFO, Colored(GREEN, "info"), time);
    }

    method Warn(msg: string, time: string)
      modifies this`queue
      ensures queue == Logged(old(queue), level, name, time, msg, WARN, TagFor(WARN))
    {
      Log(msg, WARN, Colored(YELLOW, "warn"), time);
    }

    method Error(msg: string, time: string)
      modifies this`queue
      ensures queue == Logged(old(queue), level, name, time, msg, ERROR, TagFor(ERROR))
    {
      Log(msg, ERROR, Colored(RED, "error"), time);
    }

    /** Pops the oldest record, if any, and hands it to every sink in order. */
    method Write()
      modifies this`queue, this`delivered
      ensures (queue, delivered) == Drained(sinks, old(queue), old(delivered), 1)
    {
      if queue == [] {
        return;
      }
      var record := queue[0];
      queue := queue[1..];
      var out := delivered;
      for k := 0 to |sinks|
        invariant out == old(delivered) + Broadcast(sinks[..k], record)
        modifies {}
      {
        BroadcastSnoc(sinks[..k + 1], record);
        assert sinks[..k + 1][..k] == sinks[..k];
        out := out + [Delivery(sinks[k], record)];
      }
      assert sinks[..|sinks|] == sinks;
      delivered := out;
      assert Drained(sinks, queue, delivered, 0) == (queue, delivered);
    }
  }

  /** Handing a record to one more sink appends one delivery. */
  lemma BroadcastSnoc(sinks: seq<Sink>, record: string)
    requires sinks != []
    ensures Broadcast(sinks, record) == Broadcast(sinks[..|sinks| - 1], record) + [Delivery(sinks[|sinks| - 1], record)]
  {
  }

  /** `info(...)` on the default logger. */
  method Info(defaultLogger: Logger, msg: string, time: string)
    modifies defaultLogger`queue
    ensures defaultLogger.queue == Logged(old(defaultLogger.queue), defaultLogger.level, defaultLogger.name, time, msg, INFO, TagFor(INFO))
  {
    defaultLogger.Info(msg, time);
  }

  /** `warn(...)` on the default logger. */
  method Warn(defaultLogger: Logger, msg: string, time: string)
    modifies defaultLogger`queue
    ensures defaultLogger.queue == Logged(old(defaultLogger.queue), defaultLogger.level, defaultLogger.name, time, msg, WARN, TagFor(WARN))
  {
    defaultLogger.Warn(msg, time);
  }

  /** `error(...)` on the default logger. */
  method Error(defaultLogger: Logger, msg: string, time: string)
    modifies defaultLogger`queue
    ensures defaultLogger.queue == Logged(old(defaultLogger.queue), defaultLogger.level, defaultLogger.name, time, msg, ERROR, TagFor(ERROR))
  {
    defaultLogger.Error(msg, time);
  }
}
