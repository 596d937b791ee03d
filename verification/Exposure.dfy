/**
 * The SDK's exposure buffer and the ingest writer, as state machines whose asynchronous calls are split at every
 * await.
 */
module ExposureModel {
  import opened Text

  /** What a caller records; the dedupe key is optional. */
  datatype Exposure = Exposure(
    flagKey: JsString,
    variationKey: JsString,
    contextKey: JsString,
    rulesetVersion: nat,
    dedupeKey: Option<JsString>)

  /** A queued event, with the sequence number it was recorded under. */
  datatype Event = Event(exposure: Exposure, sequence: nat, dedupeKey: JsString)

  function GeneratedKey(exposure: Exposure, sequence: nat): JsString {
    exposure.contextKey + [COLON] + exposure.flagKey + [COLON] + Decimal(exposure.rulesetVersion) + [COLON]
      + Decimal(sequence)
  }

  function Stamp(exposure: Exposure, sequence: nat): Event {
    Event(exposure, sequence, exposure.dedupeKey.GetOr(GeneratedKey(exposure, sequence)))
  }

  /** The last number in a generated key identifies the event. */
  lemma GeneratedKeysDistinct(a: Exposure, m: nat, b: Exposure, n: nat)
    requires GeneratedKey(a, m) == GeneratedKey(b, n)
    ensures m == n
  {
    var p := a.contextKey + [COLON] + a.flagKey + [COLON] + Decimal(a.rulesetVersion);
    var q := b.contextKey + [COLON] + b.flagKey + [COLON] + Decimal(b.rulesetVersion);
    SameSuffix(p, Decimal(m), q, Decimal(n));
    DecimalRoundTrip(m);
    DecimalRoundTrip(n);
  }

  lemma SameSuffix(p: JsString, digits1: seq<Byte>, q: JsString, digits2: seq<Byte>)
    requires (forall c <- digits1 :: IsDigit(c)) && (forall c <- digits2 :: IsDigit(c))
    requires p + [COLON] + digits1 == q + [COLON] + digits2
    ensures digits1 == digits2
  {
    var t := p + [COLON] + digits1;
    assert t == q + [COLON] + digits2;
    assert t[|p|] == COLON && t[|q|] == COLON;
    forall i | |p| < i < |t| ensures t[i] != COLON {
      assert t[i] == digits1[i - |p| - 1] && IsDigit(digits1[i - |p| - 1]);
    }
    forall i | |q| < i < |t| ensures t[i] != COLON {
      assert t[i] == digits2[i - |q| - 1] && IsDigit(digits2[i - |q| - 1]);
    }
    assert |p| == |q|;
    assert t[|p| + 1..] == digits1 && t[|q| + 1..] == digits2;
  }

  /** Whether a batch reached the transport's end. */
  datatype Settled = Settled(batch: seq<Event>, delivered: bool)

  function Flatten(batches: seq<Settled>): seq<Event> {
    if batches == [] then [] else Flatten(batches[..|batches| - 1]) + batches[|batches| - 1].batch
  }

  function CountEvents(batches: seq<Settled>, delivered: bool): nat {
    if batches == [] then 0
    else
      var last := batches[|batches| - 1];
      CountEvents(batches[..|batches| - 1], delivered) + if last.delivered == delivered then |last.batch| else 0
  }

  /** Every settled event is counted once. */
  lemma {:induction false} CountsAddUp(batches: seq<Settled>)
    ensures CountEvents(batches, true) + CountEvents(batches, false) == |Flatten(batches)|
  {
    if batches != [] {
      CountsAddUp(batches[..|batches| - 1]);
    }
  }

  /** Each event carries the position it was recorded at. */
  ghost predicate StampedInOrder(log: seq<Event>) {
    forall i :: 0 <= i < |log| ==> log[i] == Stamp(log[i].exposure, i + 1)
  }

  lemma StampedNext(log: seq<Event>, exposure: Exposure)
    requires StampedInOrder(log)
    ensures StampedInOrder(log + [Stamp(exposure, |log| + 1)])
  {
  }

  lemma QueueNext(settled: seq<Event>, flying: seq<Event>, queue: seq<Event>, event: Event)
    ensures settled + flying + queue + [event] == settled + flying + (queue + [event])
  {
  }

  lemma LandBatch(settled: seq<Event>, batch: seq<Event>, queue: seq<Event>)
    ensures settled + batch + queue == settled + batch + [] + queue
  {
  }

  /**
   * Where the one possible send stands: none, awaiting the transport, or counted as failed with its error being
   * reported.
   */
  datatype Flight = Idle | Sending(batch: seq<Event>) | Reporting

  /** The rate at an occupancy. */
  function RateAt(occupancy: real, threshold: real): (rate: real)
    ensures rate >= 0.0
    ensures 0.0 <= occupancy <= 1.0 ==> rate <= 1.0
    ensures rate == 1.0 <==> occupancy <= threshold
  {
    if occupancy <= threshold then 1.0
    else if threshold == 1.0 then 0.0
    else
      var overage := (occupancy - threshold) / (1.0 - threshold);
      OverageSign(occupancy - threshold, 1.0 - threshold);
      if 1.0 - overage > 0.0 then 1.0 - overage else 0.0
  }

  lemma OverageSign(above: real, room: real)
    requires above > 0.0 && room != 0.0
    ensures room > 0.0 ==> above / room > 0.0
    ensures room < 0.0 ==> above / room < 0.0
  {
    var overage := above / room;
    assert overage * room == above;
  }

  lemma PositiveProduct(x: real, c: real)
    requires c > 0.0 && x * c <= 0.0
    ensures x <= 0.0
  {
  }

  lemma DivideOrder(a: real, b: real, c: real)
    requires a <= b && c > 0.0
    ensures a / c <= b / c
  {
    var p, q := a / c, b / c;
    assert p * c == a && q * c == b;
    assert (p - q) * c == a - b;
    PositiveProduct(p - q, c);
  }

  /** Up to a full queue the rate never rises as the queue fills. */
  lemma RateFalls(a: real, b: real, threshold: real)
    requires 0.0 <= a <= b <= 1.0
    ensures RateAt(b, threshold) <= RateAt(a, threshold)
  {
    if a > threshold && threshold < 1.0 {
      DivideOrder(a - threshold, b - threshold, 1.0 - threshold);
    }
  }

  /** At a full queue nothing is kept, unless the threshold is never passed. */
  lemma RateAtFullQueue(threshold: real)
    ensures RateAt(1.0, threshold) == if threshold < 1.0 then 0.0 else 1.0
  {
    if threshold < 1.0 {
      var room := 1.0 - threshold;
      assert room / room == 1.0;
    }
  }

  lemma Fraction(part: nat, whole: nat)
    requires whole > 0
    ensures 0.0 <= part as real / whole as real
    ensures part <= whole ==> part as real / whole as real <= 1.0
  {
    var fraction := part as real / whole as real;
    assert fraction * whole as real == part as real;
  }

  class ExposureBuffer {
    const batchSize: nat
    const maxQueueSize: nat
    const samplingThreshold: real
    var queue: seq<Event>
    var closed: bool
    var flushInFlight: bool
    var sequence: nat
    var recorded: nat
    var dropped: nat
    var sampled: nat
    var sent: nat
    var failed: nat
    /** Where the pending call to the transport stands. */
    var flight: Flight
    /** Every event accepted so far, in order. */
    ghost var log: seq<Event>
    /** Every batch the transport has answered for, in order. */
    ghost var settled: seq<Settled>

    constructor (batchSize: nat, maxQueueSize: nat, samplingThreshold: real)
      ensures Valid() && log == [] && settled == [] && queue == [] && !closed && flight == Idle
      ensures this.batchSize == batchSize && this.maxQueueSize == maxQueueSize
              && this.samplingThreshold == samplingThreshold
      ensures recorded == dropped == sampled == sent == failed == 0
    {
      this.batchSize, this.maxQueueSize, this.samplingThreshold := batchSize, maxQueueSize, samplingThreshold;
      queue := [];
      closed, flushInFlight, sequence := false, false, 0;
      recorded, dropped, sampled, sent, failed := 0, 0, 0, 0, 0;
      flight := Idle;
      log, settled := [], [];
    }

    ghost function InFlight(): seq<Event>
      reads this
    {
      if flight.Sending? then flight.batch else []
    }

    /** Conservation: what was recorded is what was settled, then what is in flight, then what is queued. */
    ghost predicate Conserved()
      reads this
    {
      log == Flatten(settled) + InFlight() + queue
    }

    /** The counters agree with the events, and events are stamped once each in recording order. */
    ghost predicate Counted()
      reads this
    {
      && recorded == |log| == sequence
      && sent == CountEvents(settled, true)
      && failed == CountEvents(settled, false)
      && StampedInOrder(log)
    }

    ghost predicate Valid()
      reads this
    {
      && Conserved()
      && Counted()
      && |queue| <= maxQueueSize
      && (flushInFlight <==> flight != Idle)
      && (flight.Sending? ==> flight.batch != [])
    }

    /** The rate at which events are kept while the queue is as full as it is. */
    function SamplingRate(): (rate: real)
      requires maxQueueSize > 0
      reads this
      ensures |queue| <= maxQueueSize ==> 0.0 <= rate <= 1.0
      ensures rate == 1.0 <==> |queue| as real / maxQueueSize as real <= samplingThreshold
    {
      Fraction(|queue|, maxQueueSize);
      RateAt(|queue| as real / maxQueueSize as real, samplingThreshold)
    }

    /**
     * Records an exposure; draw stands for the random number that sampling compares with.
     * Exactly one of the outcomes happens, and a full batch starts a flush that nobody waits for.
     */
    method Record(exposure: Exposure, draw: real) returns (accepted: bool)
      requires Valid()
      modifies this
      ensures Valid()
      ensures closed == old(closed) && settled == old(settled) && sent == old(sent) && failed == old(failed)
      ensures accepted <==>
        !old(closed) && |old(queue)| < maxQueueSize
          && !(old(SamplingRateOr(1.0)) < 1.0 && draw >= old(SamplingRateOr(1.0)))
      ensures log == if accepted then old(log) + [Stamp(exposure, |old(log)| + 1)] else old(log)
      ensures recorded == old(recorded) + (if accepted then 1 else 0)
      ensures dropped == old(dropped) + (if !old(closed) && |old(queue)| >= maxQueueSize then 1 else 0)
      ensures sampled == old(sampled) + (if !old(closed) && |old(queue)| < maxQueueSize && !accepted then 1 else 0)
      ensures !accepted ==> queue == old(queue) && flight == old(flight)
      ensures accepted && (|old(queue)| + 1 < batchSize || old(flight) != Idle) ==>
              queue == old(queue) + [Stamp(exposure, |old(log)| + 1)]
      ensures accepted && |old(queue)| + 1 >= batchSize && old(flight) == Idle ==>
        queue == [] && flight == Sending(old(queue) + [Stamp(exposure, |old(log)| + 1)])
    {
      hide Flatten, CountEvents, Stamp, StampedInOrder;
      if closed {
        return false;
      }
      if |queue| >= maxQueueSize {
        dropped := dropped + 1;
        return false;
      }
      var rate := SamplingRate();
      if rate < 1.0 && draw >= rate {
        sampled := sampled + 1;
        return false;
      }
      StampedNext(log, exposure);
      sequence := sequence + 1;
      var event := Stamp(exposure, sequence);
      QueueNext(Flatten(settled), InFlight(), queue, event);
      queue := queue + [event];
      recorded := recorded + 1;
      log := log + [event];
      if |queue| >= batchSize {
        Flush();
      }
      return true;
    }

    function SamplingRateOr(default: real): real
      reads this
    {
      if maxQueueSize > 0 then SamplingRate() else default
    }

    /** Starts a send of everything queued, unless one is outstanding or there is nothing to send. */
    method Flush()
      requires Valid()
      modifies this`flushInFlight, this`queue, this`flight
      ensures Valid()
      ensures if old(flight) != Idle || old(queue) == [] then queue == old(queue) && flight == old(flight)
              else queue == [] && flight == Sending(old(queue))
    {
      if flushInFlight || |queue| == 0 {
        return;
      }
      flushInFlight := true;
      flight := Sending(queue);
      queue := [];
    }

    /** The transport accepted the batch. */
    method SendSucceeded()
      requires Valid() && flight.Sending?
      modifies this`sent, this`settled, this`flushInFlight, this`flight
      ensures Valid() && flight == Idle
      ensures settled == old(settled) + [Settled(old(flight).batch, true)] && sent == old(sent) + |old(flight).batch|
    {
      hide Flatten, CountEvents, StampedInOrder;
      sent := sent + |flight.batch|;
      SettleOne(settled, flight.batch, true);
      LandBatch(Flatten(settled), flight.batch, queue);
      settled := settled + [Settled(flight.batch, true)];
      flushInFlight := false;
      flight := Idle;
    }

    /** The transport failed: the batch is discarded and the error goes to a caller's handler, which may record more. */
    method SendFailed()
      requires Valid() && flight.Sending?
      modifies this`failed, this`settled, this`flight
      ensures Valid() && flight == Reporting
      ensures settled == old(settled) + [Settled(old(flight).batch, false)]
              && failed == old(failed) + |old(flight).batch|
    {
      hide Flatten, CountEvents, StampedInOrder;
      failed := failed + |flight.batch|;
      SettleOne(settled, flight.batch, false);
      LandBatch(Flatten(settled), flight.batch, queue);
      settled := settled + [Settled(flight.batch, false)];
      flight := Reporting;
    }

    /** The handler returned or threw; either way the next send may start. */
    method Reported()
      requires Valid() && flight.Reporting?
      modifies this`flushInFlight, this`flight
      ensures Valid() && flight == Idle
    {
      flushInFlight := false;
      flight := Idle;
    }

    /** Stops recording and flushes; with no send outstanding nothing stays queued. */
    method Close()
      requires Valid()
      modifies this`closed, this`flushInFlight, this`queue, this`flight
      ensures Valid() && closed
      ensures old(flight) == Idle ==> queue == [] && flight == if old(queue) == [] then Idle else Sending(old(queue))
      ensures old(flight) != Idle ==> queue == old(queue) && flight == old(flight)
    {
      closed := true;
      Flush();
    }

    /** Events that took a generated key never share it. */
    lemma LoggedKeysDistinct(i: nat, j: nat)
      requires Valid() && i < j < |log|
      requires log[i].exposure.dedupeKey.None? && log[j].exposure.dedupeKey.None?
      ensures log[i].dedupeKey != log[j].dedupeKey
    {
      if log[i].dedupeKey == log[j].dedupeKey {
        GeneratedKeysDistinct(log[i].exposure, i + 1, log[j].exposure, j + 1);
      }
    }
  }

  lemma SettleOne(settled: seq<Settled>, batch: seq<Event>, delivered: bool)
    ensures var more := settled + [Settled(batch, delivered)];
            && Flatten(more) == Flatten(settled) + batch
            && CountEvents(more, delivered) == CountEvents(settled, delivered) + |batch|
            && CountEvents(more, !delivered) == CountEvents(settled, !delivered)
  {
    var more := settled + [Settled(batch, delivered)];
    assert more[..|more| - 1] == settled;
  }

  datatype Step = Recording(exposure: Exposure, draw: real) | Flushing | Succeeding | Failing | Handled | Closing

  /**
   * Every interleaving of calls, timer ticks and answers from the transport: what was recorded is, in order, what was
   * settled, then what is in flight, then what is queued; every recorded event is counted as sent or failed, or is
   * still held; and the queue is bounded.
   */
  method Interleave(buffer: ExposureBuffer, steps: seq<Step>)
    requires buffer.Valid()
    modifies buffer
    ensures buffer.Valid()
    ensures buffer.log == Flatten(buffer.settled) + buffer.InFlight() + buffer.queue
    ensures buffer.recorded == buffer.sent + buffer.failed + |buffer.InFlight()| + |buffer.queue|
    ensures |buffer.queue| <= buffer.maxQueueSize
    ensures old(buffer.log) <= buffer.log && old(buffer.settled) <= buffer.settled
  {
    for i := 0 to |steps|
      invariant buffer.Valid() && old(buffer.log) <= buffer.log && old(buffer.settled) <= buffer.settled
    {
      match steps[i] {
        case Recording(exposure, draw) => var _ := buffer.Record(exposure, draw);
        case Flushing => buffer.Flush();
        case Succeeding =>
          if buffer.flight.Sending? {
            buffer.SendSucceeded();
          }
        case Failing =>
          if buffer.flight.Sending? {
            buffer.SendFailed();
          }
        case Handled =>
          if buffer.flight.Reporting? {
            buffer.Reported();
          }
        case Closing => buffer.Close();
      }
    }
    CountsAddUp(buffer.settled);
  }
}

/** The ingest writer: inserts in flight, settled by the sink, then finalised in a later step. */
module ExposureWriterModel {
  import opened Sums

  /** What can happen while a caller waits for the writer to drain. */
  datatype WriterEvent = Enqueuing(rows: nat) | Answered(write: nat, ok: bool) | Finished(write: nat)

  class ExposureWriter {
    const maxInFlightRows: nat
    var inFlightRows: nat
    var accepted: nat
    var refused: nat
    var written: nat
    var failed: nat
    var nextWrite: nat
    /** Rows of every write not yet finalised. */
    var inFlight: map<nat, nat>
    /** Rows of every write the sink has not answered: the promises still pending. */
    var unanswered: map<nat, nat>

    constructor (maxInFlightRows: nat)
      ensures Valid() && inFlight == map[] && accepted == refused == written == failed == 0
      ensures this.maxInFlightRows == maxInFlightRows
    {
      this.maxInFlightRows := maxInFlightRows;
      inFlightRows, accepted, refused, written, failed, nextWrite := 0, 0, 0, 0, 0, 0;
      inFlight, unanswered := map[], map[];
    }

    /** The bound counts writes until they are finalised; acceptance balances against answers. */
    ghost predicate Valid()
      reads this
    {
      && inFlightRows == Sum(inFlight) <= maxInFlightRows
      && accepted == written + failed + Sum(unanswered)
      && unanswered.Keys <= inFlight.Keys
      && (forall w <- unanswered :: unanswered[w] == inFlight[w])
      && forall w <- inFlight :: w < nextWrite
    }

    /** Takes a batch unless it would exceed the bound; an empty batch is taken without a write. */
    method Enqueue(rows: nat) returns (taken: bool)
      requires Valid()
      modifies this
      ensures Valid()
      ensures taken <==> rows == 0 || old(inFlightRows) + rows <= maxInFlightRows
      ensures accepted == old(accepted) + (if taken then rows else 0)
      ensures refused == old(refused) + (if taken then 0 else rows)
      ensures written == old(written) && failed == old(failed)
      ensures inFlight == if taken && rows > 0 then old(inFlight)[old(nextWrite) := rows] else old(inFlight)
    {
      if rows == 0 {
        return true;
      }
      if inFlightRows + rows > maxInFlightRows {
        refused := refused + rows;
        return false;
      }
      inFlightRows := inFlightRows + rows;
      accepted := accepted + rows;
      SumInsert(inFlight, nextWrite, rows);
      SumInsert(unanswered, nextWrite, rows);
      inFlight := inFlight[nextWrite := rows];
      unanswered := unanswered[nextWrite := rows];
      nextWrite := nextWrite + 1;
      return true;
    }

    /** The sink answers one write. */
    method Settle(write: nat, ok: bool)
      requires Valid() && write in unanswered
      modifies this`written, this`failed, this`unanswered
      ensures Valid()
      ensures written == old(written) + (if ok then inFlight[write] else 0)
      ensures failed == old(failed) + (if ok then 0 else inFlight[write])
      ensures unanswered == old(unanswered) - {write}
    {
      SumWithout(unanswered, write);
      if ok {
        written := written + inFlight[write];
      } else {
        failed := failed + inFlight[write];
      }
      unanswered := unanswered - {write};
    }

    /** The write leaves the bound, in a later step than its answer. */
    method Finalise(write: nat)
      requires Valid() && write in inFlight && write !in unanswered
      modifies this`inFlightRows, this`inFlight
      ensures Valid()
      ensures inFlight == old(inFlight) - {write} && inFlightRows == old(inFlightRows) - old(inFlight)[write]
    {
      SumWithout(inFlight, write);
      inFlightRows := inFlightRows - inFlight[write];
      inFlight := inFlight - {write};
    }

    /** Once no write is in flight, everything accepted was written or failed and nothing counts against the bound. */
    lemma DrainedMeansSettled()
      requires Valid() && inFlight == map[]
      ensures accepted == written + failed && inFlightRows == 0
    {
      assert unanswered == map[];
    }

    /** One event while draining: a caller enqueues, the sink answers, or a finished write leaves. */
    method Take(event: WriterEvent)
      requires Valid()
      modifies this
      ensures Valid()
      ensures !event.Enqueuing? ==> inFlight.Keys <= old(inFlight).Keys
    {
      match event {
        case Enqueuing(rows) => var _ := Enqueue(rows);
        case Answered(write, ok) =>
          if write in unanswered {
            Settle(write, ok);
          }
        case Finished(write) =>
          if write in inFlight && write !in unanswered {
            Finalise(write);
          }
      }
    }

    /**
     * Waits wave by wave: a wave is the set of writes in flight when it starts, and ends when all of them have left.
     * The events are what happens meanwhile; done is false if they run out first.
     */
    method Drain(events: seq<WriterEvent>) returns (done: bool, waves: nat, used: nat)
      requires Valid()
      modifies this
      ensures Valid() && used <= |events|
      ensures done ==> inFlight == map[] && accepted == written + failed && inFlightRows == 0
      ensures !done ==> inFlight != map[] && used == |events|
      ensures done && (forall i :: 0 <= i < used ==> !events[i].Enqueuing?) ==>
              waves == if old(inFlight) == map[] then 0 else 1
    {
      done, waves, used := false, 0, 0;
      ghost var nothingAdded := true;
      while inFlight != map[]
        invariant Valid() && used <= |events|
        invariant nothingAdded <==> forall i :: 0 <= i < used ==> !events[i].Enqueuing?
        invariant nothingAdded && waves > 0 ==> waves == 1 && inFlight == map[] && old(inFlight) != map[]
        invariant waves == 0 ==> inFlight == old(inFlight) && used == 0
        decreases |events| - used
      {
        waves := waves + 1;
        var wave := inFlight.Keys;
        ghost var start := used;
        assert wave == {} ==> inFlight == map[];
        assert wave * wave == wave;
        while wave * inFlight.Keys != {}
          invariant Valid() && used <= |events|
          invariant nothingAdded <==> forall i :: 0 <= i < used ==> !events[i].Enqueuing?
          invariant nothingAdded ==> inFlight.Keys <= wave
          invariant start <= used && (used == start ==> inFlight.Keys == wave)
          decreases |events| - used
        {
          if used == |events| {
            return;
          }
          Take(events[used]);
          nothingAdded := nothingAdded && !events[used].Enqueuing?;
          used := used + 1;
        }
        assert nothingAdded ==> inFlight.Keys == {};
      }
      done := true;
      DrainedMeansSettled();
    }
  }
}
