/**
 * What the logger's producer side guarantees: which calls enqueue a record,
 * what the record looks like (and that its fields can be read back), which
 * tag each convenience method uses, and that writing drains the queue in
 * first-in first-out order to every sink.
 */
module LoggingProperties {
  import opened Wrappers
  import opened StdText
  import opened Logging

  // ----- the level filter -----

  /** A message passes exactly when its level is at least the configured one; ERROR always passes. */
  lemma AcceptsIff(configured: LogLevel, level: LogLevel)
    ensures Accepts(configured, level) <==> Rank(level) >= Rank(configured)
    ensures Accepts(configured, ERROR)
    ensures configured == INFO ==> Accepts(configured, level)
  {
  }

  /**
   * One `log` call appends exactly one record at the tail when the level
   * passes and leaves the queue untouched otherwise; records already queued
   * are never changed.
   */
  lemma LoggedSpec(queue: seq<string>, configured: LogLevel, name: string, time: string, msg: string, level: LogLevel, tag: string)
    ensures var q := Logged(queue, configured, name, time, msg, level, tag);
      && |q| == |queue| + (if Accepts(configured, level) then 1 else 0)
      && q[..|queue|] == queue
      && (Accepts(configured, level) ==> q[|queue|] == Record(time, name, tag, msg))
  {
  }

  /** A logger with the default level keeps every message of every level. */
  lemma DefaultLevelKeepsAll(queue: seq<string>, name: string, time: string, msg: string, level: LogLevel, tag: string)
    ensures Logged(queue, INFO, name, time, msg, level, tag) == queue + [Record(time, name, tag, msg)]
  {
  }

  // ----- tags -----

  /** The lower-case name each convenience method shows. */
  function LevelName(level: LogLevel): string {
    match level
    case INFO => "info"
    case WARN => "warn"
    case ERROR => "error"
  }

  /**
   * Each tag is its level's name between a five-character colour code and
   * the four-character reset code; the three colour codes differ, so the
   * three tags do too.
   */
  lemma TagLayout(level: LogLevel)
    ensures |TagFor(level)| == |LevelName(level)| + 9
    ensures TagFor(level)[5..|TagFor(level)| - 4] == LevelName(level)
    ensures TagFor(level)[..5] == (match level case INFO => GREEN case WARN => YELLOW case ERROR => RED)
    ensures TagFor(level)[|TagFor(level)| - 4..] == RESET
    ensures ']' !in TagFor(level)
  {
    var color := match level case INFO => GREEN case WARN => YELLOW case ERROR => RED;
    assert TagFor(level) == color + LevelName(level) + RESET;
    assert (color + LevelName(level) + RESET)[..5] == color;
  }

  /** Different levels get different tags. */
  lemma TagsDistinct(a: LogLevel, b: LogLevel)
    requires a != b
    ensures TagFor(a) != TagFor(b)
  {
    TagLayout(a);
    TagLayout(b);
    assert TagFor(a)[3] != TagFor(b)[3];
  }

  // ----- the record format -----

  /**
   * Reads a record back: "[" time "] - [" name "] - [" tag "] - " message
   * "\n", where the first three fields end at the next ']'.
   */
  function ParseRecord(record: string): Option<(string, string, string, string)> {
    if |record| == 0 || record[0] != '[' then None
    else
      match SplitAt(record[1..], ']')
      case None => None
      case Some((time, rest)) =>
        if |rest| < 4 || rest[..4] != " - [" then None
        else
          match ParseNameOn(rest[4..])
          case None => None
          case Some((name, tag, msg)) => Some((time, name, tag, msg))
  }

  /** The rest of a record after the time field's "] - [": the name, then the tag and message. */
  function ParseNameOn(s: string): Option<(string, string, string)> {
    match SplitAt(s, ']')
    case None => None
    case Some((name, rest)) =>
      if |rest| < 4 || rest[..4] != " - [" then None
      else
        match ParseTagOn(rest[4..])
        case None => None
        case Some((tag, msg)) => Some((name, tag, msg))
  }

  /** The rest of a record after the name field's "] - [": the tag, then the message up to the final newline. */
  function ParseTagOn(s: string): Option<(string, string)> {
    match SplitAt(s, ']')
    case None => None
    case Some((tag, rest)) =>
      if |rest| < 4 || rest[..3] != " - " || rest[|rest| - 1] != '\n' then None
      else Some((tag, rest[3..|rest| - 1]))
  }

  /** A record's parts, grouped from the right. */
  function RecordFromRight(time: string, name: string, tag: string, msg: string): string {
    "[" + (time + "]" + (" - [" + (name + "]" + (" - [" + (tag + "]" + (" - " + (msg + "\n")))))))
  }

  /** The record as formatted is its parts grouped from the right. */
  lemma RecordRegrouped(time: string, name: string, tag: string, msg: string)
    ensures Record(time, name, tag, msg) == RecordFromRight(time, name, tag, msg)
  {
    var m := msg + "\n";
    var c := " - " + m;
    var b := tag + "] - " + m;
    var a := name + "] - [" + b;
    AppendAssoc("[" + time + "] - [" + name + "] - [" + tag + "] - ", msg, "\n");
    AppendAssoc("[" + time + "] - [" + name + "] - [" + tag, "] - ", m);
    AppendAssoc("[" + time + "] - [" + name + "] - [", tag, "] - " + m);
    AppendAssoc("[" + time + "] - [" + name, "] - [", b);
    AppendAssoc("[" + time + "] - [", name, "] - [" + b);
    AppendAssoc("[" + time, "] - [", a);
    AppendAssoc("[", time, "] - [" + a);
    assert "] - [" == "]" + " - [" && "] - " == "]" + " - ";
    AppendAssoc("]", " - [", a);
    AppendAssoc(time, "]", " - [" + a);
    AppendAssoc("]", " - [", b);
    AppendAssoc(name, "]", " - [" + b);
    AppendAssoc("]", " - ", m);
    AppendAssoc(tag, "]", c);
  }

  lemma ParseTagOnOf(tag: string, msg: string)
    requires ']' !in tag
    ensures ParseTagOn(tag + "]" + (" - " + (msg + "\n"))) == Some((tag, msg))
  {
    var c := " - " + (msg + "\n");
    SplitAtJoin(tag, ']', c);
    assert c[..3] == " - " && c[|c| - 1] == '\n' && c[3..|c| - 1] == msg;
  }

  lemma ParseNameOnOf(name: string, tag: string, msg: string)
    requires ']' !in name && ']' !in tag
    ensures ParseNameOn(name + "]" + (" - [" + (tag + "]" + (" - " + (msg + "\n"))))) == Some((name, tag, msg))
  {
    var b := " - [" + (tag + "]" + (" - " + (msg + "\n")));
    SplitAtJoin(name, ']', b);
    assert b[..4] == " - [" && b[4..] == tag + "]" + (" - " + (msg + "\n"));
    ParseTagOnOf(tag, msg);
  }

  /** Parts joined from the right split back into the same parts when the first three hold no ']'. */
  lemma ParseRecordFromRight(time: string, name: string, tag: string, msg: string)
    requires ']' !in time && ']' !in name && ']' !in tag
    ensures ParseRecord(RecordFromRight(time, name, tag, msg)) == Some((time, name, tag, msg))
  {
    var a := " - [" + (name + "]" + (" - [" + (tag + "]" + (" - " + (msg + "\n")))));
    var r := RecordFromRight(time, name, tag, msg);
    assert r[1..] == time + "]" + a;
    SplitAtJoin(time, ']', a);
    assert a[..4] == " - [" && a[4..] == name + "]" + (" - [" + (tag + "]" + (" - " + (msg + "\n"))));
    ParseNameOnOf(name, tag, msg);
  }

  /**
   * The record format loses nothing: time, logger name, tag and message can
   * be read back from a record as long as the first three hold no ']' (the
   * coloured tags never do).
   */
  lemma RecordRoundTrip(time: string, name: string, tag: string, msg: string)
    requires ']' !in time && ']' !in name && ']' !in tag
    ensures ParseRecord(Record(time, name, tag, msg)) == Some((time, name, tag, msg))
  {
    RecordRegrouped(time, name, tag, msg);
    ParseRecordFromRight(time, name, tag, msg);
  }

  // ----- writing -----

  /** Delivering two runs of records in turn is delivering them together. */
  lemma {:induction false} DeliveriesAppend(sinks: seq<Sink>, a: seq<string>, b: seq<string>)
    ensures Deliveries(sinks, a + b) == Deliveries(sinks, a) + Deliveries(sinks, b)
    decreases |a|
  {
    if a == [] {
      assert a + b == b;
    } else {
      assert (a + b)[0] == a[0] && (a + b)[1..] == a[1..] + b;
      DeliveriesAppend(sinks, a[1..], b);
    }
  }

  /**
   * `n` write steps on a queue of at least `n` records remove its `n` oldest
   * records and hand them, oldest first, to every sink in the sinks' order.
   */
  lemma {:induction false} DrainedFifo(sinks: seq<Sink>, queue: seq<string>, delivered: seq<Delivery>, n: nat)
    requires n <= |queue|
    ensures Drained(sinks, queue, delivered, n) == (queue[n..], delivered + Deliveries(sinks, queue[..n]))
    decreases n
  {
    if n == 0 {
      assert queue[..0] == [] && queue[0..] == queue;
      assert delivered + Deliveries(sinks, []) == delivered + [] == delivered;
    } else {
      DrainedFifo(sinks, queue[1..], delivered + Broadcast(sinks, queue[0]), n - 1);
      assert queue[1..][n - 1..] == queue[n..];
      assert queue[..n][0] == queue[0] && queue[..n][1..] == queue[1..][..n - 1];
      var b, rest := Broadcast(sinks, queue[0]), Deliveries(sinks, queue[1..][..n - 1]);
      assert Deliveries(sinks, queue[..n]) == b + rest;
      assert delivered + b + rest == delivered + (b + rest);
    }
  }

  /** The output grows by one delivery per sink and record. */
  lemma {:induction false} DeliveriesLength(sinks: seq<Sink>, records: seq<string>)
    ensures |Deliveries(sinks, records)| == |sinks| * |records|
    decreases |records|
  {
    if records != [] {
      DeliveriesLength(sinks, records[1..]);
    }
  }

  /** Every sink receives every record, and nothing else is delivered. */
  lemma {:induction false} DeliveriesComplete(sinks: seq<Sink>, records: seq<string>)
    ensures forall s, r :: s in sinks && r in records ==> Delivery(s, r) in Deliveries(sinks, records)
    ensures forall x :: x in Deliveries(sinks, records) ==> x.sink in sinks && x.record in records
    decreases |records|
  {
    if records != [] {
      var head, tail := records[0], records[1..];
      DeliveriesComplete(sinks, tail);
      var b := Broadcast(sinks, head);
      assert Deliveries(sinks, records) == b + Deliveries(sinks, tail);
      assert forall r :: r in records <==> r == head || r in tail by {
        assert records == [head] + tail;
      }
      forall s | s in sinks
        ensures Delivery(s, head) in b
      {
        var k :| 0 <= k < |sinks| && sinks[k] == s;
        assert b[k] == Delivery(s, head);
      }
      forall x | x in b
        ensures x.sink in sinks && x.record == head
      {
        var k :| 0 <= k < |b| && b[k] == x;
      }
    }
  }

  /**
   * Records are written in the order they were logged: after an accepted
   * `log` call, the write steps first deliver every record queued before it,
   * and the new record is then the only one left.
   */
  lemma NewRecordWaits(sinks: seq<Sink>, queue: seq<string>, delivered: seq<Delivery>, configured: LogLevel,
                       name: string, time: string, msg: string, level: LogLevel, tag: string)
    requires Accepts(configured, level)
    ensures Drained(sinks, Logged(queue, configured, name, time, msg, level, tag), delivered, |queue|)
            == ([Record(time, name, tag, msg)], delivered + Deliveries(sinks, queue))
  {
    var q := queue + [Record(time, name, tag, msg)];
    assert Logged(queue, configured, name, time, msg, level, tag) == q;
    DrainedFifo(sinks, q, delivered, |queue|);
    assert q[..|queue|] == queue && q[|queue|..] == [Record(time, name, tag, msg)];
  }
}
