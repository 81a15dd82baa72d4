/**
  The two halves of the OTAP stream protocol step together.

  The consumer sees only wire ids, payload types and bytes, yet after every
  successful call its readers are exactly the mirrors of the producer's
  writers, so that each record arrives as it was written.
 */
module Lockstep {
  import opened Options
  import opened Decimal
  import opened ArrowIpc
  import opened OtapProducer
  import opened OtapConsumer

  /** One stream as both sides hold it. */
  ghost predicate Twin(sp: StreamProducer, c: Readers) {
    sp.wireId in c && c[sp.wireId].payloadType == sp.payloadType && sp.output == [] &&
    c[sp.wireId].reader.Some? && Mirrors(sp.writer, c[sp.wireId].reader.value)
  }

  /** Producer and consumer hold the same streams: one reader per writer, found
      under its wire id, with the same payload type and history. */
  ghost predicate Paired(streams: Streams, c: Readers) {
    (forall s :: s in streams ==> Twin(streams[s], c)) &&
    (forall w :: w in c ==> exists s :: s in streams && streams[s].wireId == w) &&
    (forall s, t :: s in streams && t in streams && s != t ==> streams[s].wireId != streams[t].wireId)
  }

  ghost predicate InLockstep(p: State, c: Readers) {
    Paired(p.streams, c) && WireIdsIssued(p)
  }

  lemma PairedOpened(streams: Streams, c: Readers)
    requires Paired(streams, c)
    ensures AllOpened(c)
  {
    forall w | w in c ensures c[w].reader.Some? {
      var s :| s in streams && streams[s].wireId == w;
      assert Twin(streams[s], c);
    }
  }

  /** Both sides retire the same streams. */
  lemma RetireTogether(streams: Streams, c: Readers, payloadType: int)
    requires Paired(streams, c)
    ensures Paired(Retire(streams, payloadType), Drop(c, payloadType))
  {
    var kept, d := Retire(streams, payloadType), Drop(c, payloadType);
    forall s | s in kept ensures Twin(kept[s], d) {
      assert Twin(streams[s], c);
    }
    forall w | w in d ensures exists s :: s in kept && kept[s].wireId == w {
      var s :| s in streams && streams[s].wireId == w;
      assert Twin(streams[s], c);
      assert s in kept;
    }
  }

  /** A stream and its reader change together. */
  lemma ReplaceTogether(streams: Streams, c: Readers, id: string, sp: StreamProducer, sc: StreamConsumer)
    requires Paired(streams, c)
    requires forall s :: s in streams && s != id ==> streams[s].wireId != sp.wireId
    requires sp.wireId in c ==> id in streams && streams[id].wireId == sp.wireId
    requires id in streams ==> streams[id].wireId == sp.wireId
    requires Twin(sp, c[sp.wireId := sc])
    ensures Paired(streams[id := sp], c[sp.wireId := sc])
  {
    var after, d := streams[id := sp], c[sp.wireId := sc];
    forall s | s in after ensures Twin(after[s], d) {
      if s != id { assert Twin(streams[s], c); }
    }
    forall w | w in d ensures exists s :: s in after && after[s].wireId == w {
      if w == sp.wireId {
        assert after[id].wireId == w;
      } else {
        var s :| s in streams && streams[s].wireId == w;
        assert after[s].wireId == w;
      }
    }
  }

  /** A record on a stream that both sides already have. */
  lemma KnownStream(p: State, c: Readers, rm: RecordMessage, fault: Fault)
    requires InLockstep(p, c) && rm.schemaId in p.streams
    requires ProduceRecord(p, rm, fault).1.Some?
    ensures var (q, payload) := ProduceRecord(p, rm, fault);
            var (d, outcome) := ConsumePayload(c, payload.value);
            outcome == Got(rm.record) && Paired(q.streams, d)
  {
    var sp := p.streams[rm.schemaId];
    assert Twin(sp, c);
    var reader := c[sp.wireId].reader.value;
    MirrorDecodes(sp.writer, reader, rm.record);
    var (writer, frames) := Write(sp.writer, rm.record).value;
    assert [] + frames == frames;
    var step := Next(reader, frames);
    ReplaceTogether(p.streams, c, rm.schemaId, sp.(writer := writer, output := []),
                    c[sp.wireId].(reader := Some(step.reader)));
  }

  /** What the producer does with a record whose schema id is new. */
  lemma ProducerOpens(p: State, rm: RecordMessage, fault: Fault)
    requires rm.schemaId !in p.streams && ProduceRecord(p, rm, fault).1.Some?
    ensures var (q, payload) := ProduceRecord(p, rm, fault);
            var first := Write(NewWriter(rm.record.schema), rm.record);
            first.Some? &&
            payload.value == Payload(WireId(p.issued), rm.payloadType, first.value.1) &&
            q.streams == Retire(p.streams, rm.payloadType)[rm.schemaId :=
              StreamProducer(WireId(p.issued), rm.payloadType, first.value.0, [])]
  {
    var first := Write(NewWriter(rm.record.schema), rm.record);
    if first.Some? {
      assert [] + first.value.1 == first.value.1;
    }
  }

  /** What the consumer does with a payload whose wire id is new. */
  lemma ConsumerOpens(c: Readers, payload: Payload)
    requires payload.wireId !in c && AllOpened(c)
    requires NewReader(payload.frames).Some?
    requires var start := NewReader(payload.frames).value; Next(start.reader, start.rest).record.Some?
    ensures var start := NewReader(payload.frames).value;
            var step := Next(start.reader, start.rest);
            ConsumePayload(c, payload) ==
              (Drop(c, payload.payloadType)[payload.wireId := StreamConsumer(payload.payloadType, Some(step.reader))],
               Got(step.record.value))
  {
    var sc := StreamConsumer(payload.payloadType, None);
    var start := NewReader(payload.frames).value;
    var step := Next(start.reader, start.rest);
    var d := Drop(c, payload.payloadType);
    assert d[payload.wireId := sc][payload.wireId := sc.(reader := Some(step.reader))] ==
           d[payload.wireId := sc.(reader := Some(step.reader))];
  }

  /** A record that opens a stream, on both sides. */
  lemma NewStream(p: State, c: Readers, rm: RecordMessage, fault: Fault)
    requires InLockstep(p, c) && rm.schemaId !in p.streams && p.issued < TWO_64
    requires ProduceRecord(p, rm, fault).1.Some?
    ensures var (q, payload) := ProduceRecord(p, rm, fault);
            var (d, outcome) := ConsumePayload(c, payload.value);
            outcome == Got(rm.record) && Paired(q.streams, d)
  {
    OpenStreamIssues(p, rm);
    PairedOpened(p.streams, c);
    RetireTogether(p.streams, c, rm.payloadType);
    ProducerOpens(p, rm, fault);
    FirstDecodes(NewWriter(rm.record.schema), rm.record);
    var payload := ProduceRecord(p, rm, fault).1.value;
    ConsumerOpens(c, payload);
    var start := NewReader(payload.frames).value;
    var step := Next(start.reader, start.rest);
    ReplaceTogether(Retire(p.streams, rm.payloadType), Drop(c, rm.payloadType), rm.schemaId,
                    StreamProducer(payload.wireId, rm.payloadType, Write(NewWriter(rm.record.schema), rm.record).value.0, []),
                    StreamConsumer(rm.payloadType, Some(step.reader)));
  }

  lemma StepTogether(p: State, c: Readers, rm: RecordMessage, fault: Fault)
    requires InLockstep(p, c) && ProduceRecord(p, rm, fault).1.Some?
    requires ProduceRecord(p, rm, fault).0.issued <= TWO_64
    ensures var (q, payload) := ProduceRecord(p, rm, fault);
            var (d, outcome) := ConsumePayload(c, payload.value);
            outcome == Got(rm.record) && InLockstep(q, d)
  {
    WireIdsKept(p, rm, fault);
    ProduceRecordShape(p, rm, fault);
    if rm.schemaId in p.streams {
      KnownStream(p, c, rm, fault);
    } else {
      NewStream(p, c, rm, fault);
    }
  }

  /** What the consumer is to deliver for a batch. */
  function Expected(batchId: int, rms: seq<RecordMessage>): (r: seq<Decoded>)
    ensures |r| == |rms|
  {
    if rms == [] then []
    else [Decoded(batchId, rms[0].payloadType, rms[0].record)] + Expected(batchId, rms[1..])
  }

  lemma {:induction false} ProduceFirst(p: State, rms: seq<RecordMessage>, faults: seq<Fault>)
    requires |faults| == |rms| && rms != [] && ProduceRecords(p, rms, faults).1.Some?
    ensures var (q, payload) := ProduceRecord(p, rms[0], faults[0]);
            payload.Some? && payload.value.payloadType == rms[0].payloadType &&
            ProduceRecords(q, rms[1..], faults[1..]).1.Some? &&
            ProduceRecords(p, rms, faults) == Prepend([payload.value], ProduceRecords(q, rms[1..], faults[1..]))
  {
  }

  lemma {:induction false} ConsumeFirst(c: Readers, batchId: int, payload: Payload, rest: seq<Payload>)
    requires ConsumePayload(c, payload).1.Got?
    ensures var (d, outcome) := ConsumePayload(c, payload);
            ConsumePayloads(c, batchId, [payload] + rest) ==
              Prefix([Decoded(batchId, payload.payloadType, outcome.record)], ConsumePayloads(d, batchId, rest))
  {
    assert ([payload] + rest)[1..] == rest;
  }

  lemma {:induction false} RecordsTogether(p: State, c: Readers, batchId: int, rms: seq<RecordMessage>, faults: seq<Fault>)
    requires |faults| == |rms| && InLockstep(p, c)
    requires ProduceRecords(p, rms, faults).1.Some? && ProduceRecords(p, rms, faults).0.issued <= TWO_64
    ensures var (q, payloads) := ProduceRecords(p, rms, faults);
            var (d, r) := ConsumePayloads(c, batchId, payloads.value);
            r == Delivered(Expected(batchId, rms)) && InLockstep(q, d) && |payloads.value| == |rms|
    decreases |rms|
  {
    if rms != [] {
      var (q, payload) := ProduceRecord(p, rms[0], faults[0]);
      ProduceFirst(p, rms, faults);
      IssuedByConsecutive(q, rms[1..], faults[1..]);
      StepTogether(p, c, rms[0], faults[0]);
      var d := ConsumePayload(c, payload.value).0;
      RecordsTogether(q, d, batchId, rms[1..], faults[1..]);
      ConsumeFirst(c, batchId, payload.value, ProduceRecords(q, rms[1..], faults[1..]).1.value);
    }
  }

  /** One successful call delivered to a consumer in lockstep: it accepts the
      batch, returns the very records with their types under the batch id the
      producer gave, and is in lockstep again. */
  lemma {:induction false} BatchTogether(p: State, c: Readers, rms: seq<RecordMessage>, faults: seq<Fault>)
    requires |faults| == |rms| && InLockstep(p, c)
    requires ProduceBatch(p, rms, faults).1.Some? && ProduceBatch(p, rms, faults).0.issued <= TWO_64
    ensures var (q, batch) := ProduceBatch(p, rms, faults);
            var (d, r) := ConsumeBatch(c, batch.value);
            r == Delivered(Expected(batch.value.batchId, rms)) && InLockstep(q, d)
  {
    RecordsTogether(p, c, ProduceBatch(p, rms, faults).1.value.batchId, rms, faults);
  }

  // ---------- whole runs ----------

  /** Every call of the run succeeds. */
  predicate AllSucceed(p: State, run: Run)
    decreases |run|
  {
    run == [] ||
    var (q, batch) := ProduceBatch(p, run[0].rms, run[0].faults);
    batch.Some? && AllSucceed(q, run[1..])
  }

  /** The batches of the calls that succeed. */
  function Batches(p: State, run: Run): (r: seq<Batch>)
    decreases |run|
  {
    if run == [] then []
    else
      var (q, batch) := ProduceBatch(p, run[0].rms, run[0].faults);
      (if batch == None then [] else [batch.value]) + Batches(q, run[1..])
  }

  /** What the consumer returns for batches that arrive in order. */
  function Deliveries(c: Readers, batches: seq<Batch>): (r: seq<Result>)
    decreases |batches|
  {
    if batches == [] then []
    else
      var (d, result) := ConsumeBatch(c, batches[0]);
      [result] + Deliveries(d, batches[1..])
  }

  /** What the consumer returns when it is given the batches of a run in order. */
  function Transmit(p: State, c: Readers, run: Run): seq<Result> { Deliveries(c, Batches(p, run)) }

  /** The records of each call, the batches numbered from `n` on. */
  function ExpectedRun(n: nat, run: Run): (r: seq<Result>)
    decreases |run|
  {
    if run == [] then []
    else [Delivered(Expected(Wrap64(n), run[0].rms))] + ExpectedRun(n + 1, run[1..])
  }

  function ConsumerAfter(c: Readers, batches: seq<Batch>): Readers
    decreases |batches|
  {
    if batches == [] then c else ConsumerAfter(ConsumeBatch(c, batches[0]).0, batches[1..])
  }

  lemma {:induction false} BatchesFirst(p: State, run: Run)
    requires run != [] && ProduceBatch(p, run[0].rms, run[0].faults).1.Some?
    ensures var (q, batch) := ProduceBatch(p, run[0].rms, run[0].faults);
            Batches(p, run) == [batch.value] + Batches(q, run[1..])
  {
  }

  lemma {:induction false} DeliveriesFirst(c: Readers, batch: Batch, rest: seq<Batch>)
    ensures var (d, result) := ConsumeBatch(c, batch);
            Deliveries(c, [batch] + rest) == [result] + Deliveries(d, rest) &&
            ConsumerAfter(c, [batch] + rest) == ConsumerAfter(d, rest)
  {
    assert ([batch] + rest)[0] == batch && ([batch] + rest)[1..] == rest;
  }

  /** Over every run of successful calls the consumer ends holding the same
      streams as the producer. */
  lemma {:induction false} RunKeepsLockstep(p: State, c: Readers, run: Run)
    requires InLockstep(p, c) && AllSucceed(p, run) && After(p, run).issued <= TWO_64
    ensures InLockstep(After(p, run), ConsumerAfter(c, Batches(p, run)))
    decreases |run|
  {
    if run != [] {
      var q, batch, d := FirstTogether(p, c, run);
      RunKeepsLockstep(q, d, run[1..]);
      DeliveriesFirst(c, batch, Batches(q, run[1..]));
    }
  }

  /** Over every run of successful calls, however payload types share or change
      schemas, the consumer delivers exactly the records of each call, under
      consecutive batch ids. */
  lemma {:induction false} RunDelivers(p: State, c: Readers, run: Run)
    requires InLockstep(p, c) && AllSucceed(p, run) && After(p, run).issued <= TWO_64
    ensures Transmit(p, c, run) == ExpectedRun(p.batches, run)
    decreases |run|
  {
    if run != [] {
      var q, batch, d := FirstTogether(p, c, run);
      RunDelivers(q, d, run[1..]);
      DeliveriesFirst(c, batch, Batches(q, run[1..]));
    }
  }

  lemma {:induction false} ExpectFirst(n: nat, run: Run)
    requires run != []
    ensures ExpectedRun(n, run) == [Delivered(Expected(Wrap64(n), run[0].rms))] + ExpectedRun(n + 1, run[1..])
  {
  }

  /** The first call of a run, its batch, and the two sides after it. */
  lemma {:induction false} FirstTogether(p: State, c: Readers, run: Run) returns (q: State, batch: Batch, d: Readers)
    requires run != [] && InLockstep(p, c) && AllSucceed(p, run) && After(p, run).issued <= TWO_64
    ensures InLockstep(q, d) && AllSucceed(q, run[1..]) && After(q, run[1..]) == After(p, run)
    ensures Batches(p, run) == [batch] + Batches(q, run[1..]) && ConsumeBatch(c, batch).0 == d
    ensures ExpectedRun(p.batches, run) == [ConsumeBatch(c, batch).1] + ExpectedRun(q.batches, run[1..])
  {
    CallTogether(p, c, run);
    BatchesFirst(p, run);
    ExpectFirst(p.batches, run);
    q := ProduceBatch(p, run[0].rms, run[0].faults).0;
    batch := ProduceBatch(p, run[0].rms, run[0].faults).1.value;
    d := ConsumeBatch(c, batch).0;
  }

  lemma {:induction false} CallTogether(p: State, c: Readers, run: Run)
    requires run != [] && InLockstep(p, c) && AllSucceed(p, run) && After(p, run).issued <= TWO_64
    ensures var (q, batch) := ProduceBatch(p, run[0].rms, run[0].faults);
            batch.Some? && q.batches == p.batches + 1 &&
            var (d, r) := ConsumeBatch(c, batch.value);
            r == Delivered(Expected(Wrap64(p.batches), run[0].rms)) && InLockstep(q, d)
  {
    var q := ProduceBatch(p, run[0].rms, run[0].faults).0;
    IssuedConsecutively(q, run[1..]);
    BatchesUnchanged(p, run[0].rms, run[0].faults);
    BatchTogether(p, c, run[0].rms, run[0].faults);
  }

  lemma {:induction false} BatchesUnchanged(p: State, rms: seq<RecordMessage>, faults: seq<Fault>)
    requires |faults| == |rms|
    ensures ProduceRecords(p, rms, faults).0.batches == p.batches
    decreases |rms|
  {
    if rms != [] {
      ProduceRecordShape(p, rms[0], faults[0]);
      BatchesUnchanged(ProduceRecord(p, rms[0], faults[0]).0, rms[1..], faults[1..]);
    }
  }

  /** A new producer and a new consumer: every run of successful calls arrives
      as it was sent, numbered from 0, and leaves both with the same streams. */
  lemma {:induction false} Transmission(run: Run)
    requires AllSucceed(INITIAL, run) && After(INITIAL, run).issued <= TWO_64
    ensures Transmit(INITIAL, map[], run) == ExpectedRun(0, run)
    ensures InLockstep(After(INITIAL, run), ConsumerAfter(map[], Batches(INITIAL, run)))
  {
    RunDelivers(INITIAL, map[], run);
    RunKeepsLockstep(INITIAL, map[], run);
  }

  /** The claim needs success.  When a call fails after its record was written,
      the bytes stay in the stream's buffer and go out in front of the next
      record; the consumer reads one record per payload, so it delivers the
      failed call's record in place of the new one. */
  lemma FailureShiftsStream(p: State, c: Readers, rm: RecordMessage, next: RecordMessage)
    requires InLockstep(p, c) && rm.schemaId in p.streams && next.schemaId == rm.schemaId
    requires rm.record.schema == next.record.schema == p.streams[rm.schemaId].writer.schema
    ensures ProduceRecord(p, rm, StatsFail).1 == None
    ensures var q := ProduceRecord(p, rm, StatsFail).0;
            var payload := ProduceRecord(q, next, NoFault).1;
            payload.Some? && ConsumePayload(c, payload.value).1 == Got(rm.record)
  {
    var sp := p.streams[rm.schemaId];
    assert Twin(sp, c);
    var reader := c[sp.wireId].reader.value;
    MirrorDecodes(sp.writer, reader, rm.record);
    var (writer, frames) := Write(sp.writer, rm.record).value;
    assert [] + frames == frames;
    var q := ProduceRecord(p, rm, StatsFail).0;
    assert q.streams[rm.schemaId] == sp.(writer := writer, output := frames);
    var more := Write(writer, next.record).value.1;
    NextStopsAtRecord(reader, frames, more);
    assert ProduceRecord(q, next, NoFault).1 == Some(Payload(sp.wireId, next.payloadType, frames + more));
  }
}
