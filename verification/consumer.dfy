/** The Kinesis record processor that follows the notification stream. It
    remembers the largest (sequence, sub-sequence) position it has seen,
    asks for a checkpoint at that position at most once a minute, retries a
    failing checkpoint a bounded number of times, and checkpoints once more
    when its shard is terminated. The clock readings and the checkpointer's
    replies are parameters; logging and sleeping leave no trace here
    beyond a count of the sleeps. */
module Consumer {
  import opened Base
  import opened Text

  const SleepSeconds: nat := 5
  const CheckpointRetries: nat := 5
  const CheckpointFreqSeconds: real := 60.0

  /** `_largest_seq`: the pair `(None, None)` until a record is tracked. */
  datatype Largest = Unset | At(number: int, sub: int)

  /** `should_update_sequence` as its docstring means it: nothing is recorded
      yet, or `(number, sub)` lies strictly beyond the recorded position in
      the lexicographic order. */
  function ShouldUpdateSequence(largest: Largest, number: int, sub: int): (r: bool)
    ensures largest.Unset? ==> r
  {
    match largest
    case Unset => true
    case At(n, s) => number > n || (number == n && sub > s)
  }

  /** Read between recorded positions, the test is a strict total order:
      no position lies beyond itself, of two different positions exactly
      one lies beyond the other, and lying beyond is transitive. */
  lemma SequenceOrder(a: int, b: int, c: int, d: int, e: int, f: int)
    ensures !ShouldUpdateSequence(At(a, b), a, b)
    ensures (a, b) != (c, d) ==>
      ShouldUpdateSequence(At(a, b), c, d) != ShouldUpdateSequence(At(c, d), a, b)
    ensures ShouldUpdateSequence(At(a, b), c, d) && ShouldUpdateSequence(At(c, d), e, f) ==>
      ShouldUpdateSequence(At(a, b), e, f)
  {
  }

  /** `should_update_sequence` as written: the list handed to `any` is built
      in full before `any` looks at it, so with nothing recorded the second
      element compares an int with `None`, which raises TypeError. Once a
      position is recorded it agrees with the intended test. */
  function ShouldUpdateAsWritten(largest: Largest, number: int, sub: int): (r: Result<bool>)
    ensures r.Err? <==> largest.Unset?
    ensures r.Err? ==> r.error == TypeError
    ensures r.Ok? ==> r.value == ShouldUpdateSequence(largest, number, sub)
  {
    match largest
    case Unset => Err(TypeError)
    case At(n, s) => Ok(number > n || (number == n && sub > s))
  }

  /** Where the two tests part: before the first record, the intended test
      says "update" and the written one raises. */
  lemma ShouldUpdateRaisesWhenUnset(number: int, sub: int)
    ensures ShouldUpdateSequence(Unset, number, sub)
    ensures ShouldUpdateAsWritten(Unset, number, sub) == Err(TypeError)
  {
  }

  /** Which of the two tests a processor runs. */
  datatype Guard = AsWritten | ShortCircuit

  function Guarded(g: Guard, largest: Largest, number: int, sub: int): Result<bool>
  {
    match g
    case AsWritten => ShouldUpdateAsWritten(largest, number, sub)
    case ShortCircuit => Ok(ShouldUpdateSequence(largest, number, sub))
  }

  /** One Kinesis record; the sequence number arrives as text. */
  datatype KinesisRecord = KinesisRecord(
    data: string, partitionKey: string, sequenceNumber: string, subSequenceNumber: int)

  /** Every record's sequence number is decimal text, so `int(...)` succeeds. */
  predicate Parses(records: seq<KinesisRecord>)
  {
    forall i :: 0 <= i < |records| ==> ParseInt(records[i].sequenceNumber).Some?
  }

  /** The state the record loop leaves behind, and the exception that cut it
      short, if any. Positions tracked before the exception stay tracked. */
  datatype Tracked = Tracked(largest: Largest, error: Option<Exception>)

  /** The loop of `process_records` over the records, in order. */
  function Track(g: Guard, largest: Largest, records: seq<KinesisRecord>): (r: Tracked)
    ensures |records| == 0 ==> r == Tracked(largest, None)
    decreases |records|
  {
    if |records| == 0 then Tracked(largest, None)
    else
      var rec := records[0];
      match ParseInt(rec.sequenceNumber)
      case None => Tracked(largest, Some(ValueError("invalid literal for int()")))
      case Some(n) =>
        match Guarded(g, largest, n, rec.subSequenceNumber)
        case Err(e) => Tracked(largest, Some(e))
        case Ok(up) => Track(g, if up then At(n, rec.subSequenceNumber) else largest, records[1..])
  }

  /** The position of a record whose sequence number parses. */
  function PositionOf(rec: KinesisRecord): Largest
    requires ParseInt(rec.sequenceNumber).Some?
  {
    At(ParseInt(rec.sequenceNumber).value, rec.subSequenceNumber)
  }

  /** `l` is at or beyond position `p`. */
  predicate Covers(l: Largest, p: Largest)
  {
    p.At? ==> l.At? && !ShouldUpdateSequence(l, p.number, p.sub)
  }

  /** A batch parses exactly when its first record does and the rest do. */
  lemma ParsesCons(records: seq<KinesisRecord>)
    requires |records| > 0
    ensures Parses(records) <==>
      ParseInt(records[0].sequenceNumber).Some? && Parses(records[1..])
  {
    var rest := records[1..];
    if ParseInt(records[0].sequenceNumber).Some? && Parses(rest) {
      forall i | 0 <= i < |records| ensures ParseInt(records[i].sequenceNumber).Some? {
        if i > 0 { assert records[i] == rest[i - 1]; }
      }
    }
    if Parses(records) {
      forall i | 0 <= i < |rest| ensures ParseInt(rest[i].sequenceNumber).Some? {
        assert rest[i] == records[i + 1];
      }
    }
  }

  /** With the intended test the loop finishes exactly when every sequence
      number parses. */
  lemma {:induction false} TrackFinishes(largest: Largest, records: seq<KinesisRecord>)
    ensures Track(ShortCircuit, largest, records).error.None? <==> Parses(records)
    decreases |records|
  {
    if |records| > 0 {
      ParsesCons(records);
      match ParseInt(records[0].sequenceNumber)
      case None =>
      case Some(n) =>
        var sub := records[0].subSequenceNumber;
        TrackFinishes(if ShouldUpdateSequence(largest, n, sub) then At(n, sub) else largest, records[1..]);
    }
  }

  /** The position after the first record of a batch that parses. */
  function Advance(largest: Largest, rec: KinesisRecord): Largest
    requires ParseInt(rec.sequenceNumber).Some?
  {
    var p := PositionOf(rec);
    if ShouldUpdateSequence(largest, p.number, p.sub) then p else largest
  }

  /** One turn of the loop under the intended test. */
  lemma TrackStep(largest: Largest, records: seq<KinesisRecord>)
    requires |records| > 0 && ParseInt(records[0].sequenceNumber).Some?
    ensures Track(ShortCircuit, largest, records)
         == Track(ShortCircuit, Advance(largest, records[0]), records[1..])
  {
  }

  /** Advancing keeps what was covered and covers the new record; the result
      is either the old position or the record's. */
  lemma AdvanceCovers(largest: Largest, rec: KinesisRecord, q: Largest)
    requires ParseInt(rec.sequenceNumber).Some?
    requires Covers(largest, q)
    ensures Covers(Advance(largest, rec), q)
    ensures Covers(Advance(largest, rec), PositionOf(rec))
    ensures Advance(largest, rec) == largest || Advance(largest, rec) == PositionOf(rec)
  {
  }

  /** With the intended test, a batch whose sequence numbers parse leaves
      the lexicographic maximum of the starting position and the records'
      positions: the result covers each of them and is one of them. */
  lemma {:induction false} TrackMaximum(largest: Largest, records: seq<KinesisRecord>)
    requires Parses(records)
    ensures var l := Track(ShortCircuit, largest, records).largest;
      Covers(l, largest)
      && (forall i :: 0 <= i < |records| ==> Covers(l, PositionOf(records[i])))
      && (l == largest || exists i :: 0 <= i < |records| && l == PositionOf(records[i]))
    decreases |records|
  {
    if |records| > 0 {
      var rest := records[1..];
      ParsesCons(records);
      var next := Advance(largest, records[0]);
      TrackStep(largest, records);
      TrackMaximum(next, rest);
      var l := Track(ShortCircuit, next, rest).largest;
      AdvanceCovers(largest, records[0], largest);
      forall i | 0 <= i < |records| ensures Covers(l, PositionOf(records[i])) {
        if i > 0 { assert records[i] == rest[i - 1]; }
      }
      if l != largest && l != next {
        var j :| 0 <= j < |rest| && l == PositionOf(rest[j]);
        assert rest[j] == records[j + 1];
      }
    }
  }

  /** With the written test and nothing recorded, the loop stops at the first
      record without tracking anything: its sequence number either fails to
      parse or reaches the comparison that raises. */
  lemma TrackAsWrittenStalls(records: seq<KinesisRecord>)
    requires |records| > 0
    ensures Track(AsWritten, Unset, records).largest == Unset
    ensures Track(AsWritten, Unset, records).error.Some?
  {
  }

  /** The processor's state: `_largest_seq` and `_last_checkpoint_time`. */
  datatype Processor = Processor(largest: Largest, lastCheckpoint: Option<real>)

  /** `__init__`: nothing recorded and no checkpoint time. */
  const Fresh := Processor(Unset, None)

  /** `initialize`: nothing recorded, the clock reading as the last
      checkpoint time. */
  function Initialize(now: real): (r: Processor)
    ensures r.largest == Unset && r.lastCheckpoint == Some(now)
  {
    Processor(Unset, Some(now))
  }

  /** The arguments of one `checkpointer.checkpoint` call. */
  datatype CheckpointAt = CheckpointAt(sequenceNumber: Option<string>, subSequenceNumber: Option<int>)

  /** `(str(self._largest_seq[0]), self._largest_seq[1])`. */
  function TimerPosition(largest: Largest): (r: CheckpointAt)
    ensures largest.Unset? ==> r == CheckpointAt(Some("None"), None)
  {
    match largest
    case Unset => CheckpointAt(Some("None"), None)
    case At(n, s) => CheckpointAt(Some(IntToString(n)), Some(s))
  }

  /** The timer's checkpoint names the tracked position: its sequence text
      parses back to the tracked number, and the sub-sequence is passed as
      is. */
  lemma TimerPositionRoundTrip(n: int, s: int)
    ensures TimerPosition(At(n, s)).sequenceNumber.Some?
    ensures ParseInt(TimerPosition(At(n, s)).sequenceNumber.value) == Some(n)
    ensures TimerPosition(At(n, s)).subSequenceNumber == Some(s)
  {
    IntToStringRoundTrip(n);
  }

  /** `process_records`, with `now` the clock reading after the loop and
      `after` the one after the checkpoint. It returns the new state and the
      checkpoint it asks for, if any. Any exception ends the call quietly:
      the positions already tracked stay, and neither the checkpoint nor the
      timer reset happens. A checkpoint is asked for exactly when the loop
      finished, a last checkpoint time is known (without one the subtraction
      raises), and more than a minute has passed; then the timer restarts. */
  function ProcessRecords(g: Guard, p: Processor, records: seq<KinesisRecord>, now: real, after: real)
    : (r: (Processor, Option<CheckpointAt>))
    ensures r.0.largest == Track(g, p.largest, records).largest
    ensures r.1.Some? <==>
      Track(g, p.largest, records).error.None? && p.lastCheckpoint.Some?
      && now - p.lastCheckpoint.value > CheckpointFreqSeconds
    ensures r.1.Some? ==> r.1.value == TimerPosition(r.0.largest) && r.0.lastCheckpoint == Some(after)
    ensures r.1.None? ==> r.0.lastCheckpoint == p.lastCheckpoint
  {
    var t := Track(g, p.largest, records);
    if t.error.Some? then (Processor(t.largest, p.lastCheckpoint), None)
    else
      match p.lastCheckpoint
      case None => (Processor(t.largest, None), None)
      case Some(last) =>
        if now - last > CheckpointFreqSeconds then
          (Processor(t.largest, Some(after)), Some(TimerPosition(t.largest)))
        else (Processor(t.largest, p.lastCheckpoint), None)
  }

  /** As written, a processor with nothing recorded ignores every non-empty
      batch: the state does not move and no checkpoint is asked for. Since
      `initialize` leaves nothing recorded, such a processor never makes
      progress. */
  lemma AsWrittenNeverAdvances(p: Processor, records: seq<KinesisRecord>, now: real, after: real)
    requires p.largest.Unset? && |records| > 0
    ensures ProcessRecords(AsWritten, p, records, now, after) == (p, None)
  {
    TrackAsWrittenStalls(records);
  }

  /** With the intended test, a first batch whose sequence numbers parse
      records its largest position, and the checkpoint, when due, names it. */
  lemma ShortCircuitAdvances(p: Processor, records: seq<KinesisRecord>, now: real, after: real)
    requires p.largest.Unset? && |records| > 0 && Parses(records)
    ensures ProcessRecords(ShortCircuit, p, records, now, after).0.largest.At?
    ensures forall i :: 0 <= i < |records| ==>
      Covers(ProcessRecords(ShortCircuit, p, records, now, after).0.largest, PositionOf(records[i]))
  {
    TrackMaximum(p.largest, records);
    assert Covers(Track(ShortCircuit, p.largest, records).largest, PositionOf(records[0]));
  }

  /** What the checkpointer's call does: return, or raise a
      `CheckpointError` whose `value` names the reason. */
  datatype Reply = Checkpointed | Raised(value: string)

  /** Attempt `n` ends the retry loop: it succeeded, the processor is being
      shut down, or it was throttled on the last attempt. */
  predicate Stops(reply: Reply, n: nat)
  {
    reply.Checkpointed? || reply == Raised("ShutdownException")
    || (reply == Raised("ThrottlingException") && n == CheckpointRetries - 1)
  }

  /** `checkpoint`: `reply(n)` is what the checkpointer does on attempt `n`.
      It returns the calls made and the number of five-second sleeps. Every
      attempt before the last one failed and asked for a retry (throttling,
      an invalid state or any other error); the last attempt either ended
      the loop or was the fifth. Each attempt that does not end the loop is
      followed by a sleep, the fifth included. */
  method Checkpoint(at: CheckpointAt, reply: nat -> Reply) returns (sent: seq<CheckpointAt>, sleeps: nat)
    ensures 1 <= |sent| <= CheckpointRetries
    ensures forall i :: 0 <= i < |sent| ==> sent[i] == at
    ensures forall n: nat :: n < |sent| - 1 ==> !Stops(reply(n), n)
    ensures Stops(reply(|sent| - 1), |sent| - 1) || |sent| == CheckpointRetries
    ensures reply(0) == Raised("ShutdownException") ==> |sent| == 1
    ensures sleeps == if Stops(reply(|sent| - 1), |sent| - 1) then |sent| - 1 else |sent|
  {
    sent := [];
    sleeps := 0;
    var n: nat := 0;
    while n < CheckpointRetries
      invariant n <= CheckpointRetries
      invariant |sent| == n && sleeps == n
      invariant forall i :: 0 <= i < n ==> sent[i] == at
      invariant forall k: nat :: k < n ==> !Stops(reply(k), k)
    {
      sent := sent + [at];
      var r := reply(n);
      if r.Checkpointed? {
        return;
      }
      if r.value == "ShutdownException" {
        return;
      } else if r.value == "ThrottlingException" {
        if CheckpointRetries - 1 == n {
          return;
        }
      }
      sleeps := sleeps + 1;
      n := n + 1;
    }
  }

  /** `process_records` followed by the checkpoint it asks for, if any. */
  method HandleRecords(g: Guard, p: Processor, records: seq<KinesisRecord>, now: real, after: real,
                       reply: nat -> Reply)
    returns (q: Processor, sent: seq<CheckpointAt>)
    ensures q == ProcessRecords(g, p, records, now, after).0
    ensures |sent| > 0 <==> ProcessRecords(g, p, records, now, after).1.Some?
    ensures |sent| <= CheckpointRetries
    ensures forall i :: 0 <= i < |sent| ==> sent[i] == TimerPosition(q.largest)
  {
    var step := ProcessRecords(g, p, records, now, after);
    q := step.0;
    sent := [];
    if step.1.Some? {
      var sleeps;
      sent, sleeps := Checkpoint(step.1.value, reply);
    }
  }

  /** `shutdown`: for `TERMINATE` the processor runs `checkpoint` once, with
      no position (the checkpointer then uses the largest it has seen); for
      any other reason it never checkpoints. It returns how many times
      `checkpoint` ran and the checkpointer calls made. */
  method Shutdown(reason: string, reply: nat -> Reply) returns (runs: nat, sent: seq<CheckpointAt>)
    ensures runs == if reason == "TERMINATE" then 1 else 0
    ensures reason == "TERMINATE" ==> 1 <= |sent| <= CheckpointRetries
    ensures reason != "TERMINATE" ==> sent == []
    ensures forall i :: 0 <= i < |sent| ==> sent[i] == CheckpointAt(None, None)
  {
    runs := 0;
    sent := [];
    if reason == "TERMINATE" {
      var sleeps;
      sent, sleeps := Checkpoint(CheckpointAt(None, None), reply);
      runs := 1;
    }
  }
}
