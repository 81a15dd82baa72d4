/**
  The receiving half of the OTAP stream protocol
  (go/pkg/otel/arrow_record/consumer.go).

  `ConsumeBatch` on values is the specification.  Besides success and error it
  has a third outcome: retiring a stream whose reader was never created calls a
  method on a nil reader, which panics.
 */
module OtapConsumer {
  import opened Options
  import opened Decimal
  import opened ArrowIpc
  import opened OtapProducer

  datatype StreamConsumer = StreamConsumer(payloadType: int, reader: Option<Reader>)

  type Readers = map<string, StreamConsumer>

  datatype Decoded = Decoded(batchId: int, payloadType: int, record: Record)

  datatype Outcome = Got(record: Record) | Nothing | Error | Panic

  datatype Result = Delivered(records: seq<Decoded>) | Rejected | Panicked

  /** Retiring the streams of this type would call `Release` on a nil reader. */
  predicate ReleasesNil(c: Readers, payloadType: int) {
    exists w :: w in c && c[w].payloadType == payloadType && c[w].reader == None
  }

  function Drop(c: Readers, payloadType: int): Readers {
    map w | w in c && c[w].payloadType != payloadType :: c[w]
  }

  function Opening(c: Readers, payload: Payload): (d: Readers)
    ensures payload.wireId in d
  {
    if payload.wireId in c then c
    else Drop(c, payload.payloadType)[payload.wireId := StreamConsumer(payload.payloadType, None)]
  }

  /** Reads one record from the payload with the stream's reader. */
  function ReadRecord(c: Readers, wireId: string, reader: Reader, frames: seq<Frame>): (Readers, Outcome)
    requires wireId in c
  {
    var step := Next(reader, frames);
    var d := c[wireId := c[wireId].(reader := Some(step.reader))];
    (d, if step.record.Some? then Got(step.record.value)
        else if step.reader.status == Failed then Error
        else Nothing)
  }

  /** One turn of the loop in `Consume`. */
  function ConsumePayload(c: Readers, payload: Payload): (Readers, Outcome) {
    if payload.wireId !in c && ReleasesNil(c, payload.payloadType) then (c, Panic)
    else
      var d := Opening(c, payload);
      match d[payload.wireId].reader
      case Some(reader) => ReadRecord(d, payload.wireId, reader, payload.frames)
      case None =>
        match NewReader(payload.frames)
        case None => (d, Error)
        case Some(start) => ReadRecord(d, payload.wireId, start.reader, start.rest)
  }

  /** The whole loop: the records so far, unless an error or a panic ended it. */
  function ConsumePayloads(c: Readers, batchId: int, payloads: seq<Payload>): (Readers, Result)
    decreases |payloads|
  {
    if payloads == [] then (c, Delivered([]))
    else
      var (d, outcome) := ConsumePayload(c, payloads[0]);
      match outcome
      case Error => (d, Rejected)
      case Panic => (d, Panicked)
      case Nothing => ConsumePayloads(d, batchId, payloads[1..])
      case Got(record) =>
        Prefix([Decoded(batchId, payloads[0].payloadType, record)], ConsumePayloads(d, batchId, payloads[1..]))
  }

  function Prefix(done: seq<Decoded>, r: (Readers, Result)): (Readers, Result) {
    (r.0, if r.1.Delivered? then Delivered(done + r.1.records) else r.1)
  }

  /** A whole call, which also fails when some payload gave no record. */
  function ConsumeBatch(c: Readers, batch: Batch): (Readers, Result) {
    var (d, r) := ConsumePayloads(c, batch.batchId, batch.payloads);
    (d, if r.Delivered? && |r.records| < |batch.payloads| then Rejected else r)
  }

  /** On success there is one record per payload, in order, with the payload's
      type and the batch id. */
  lemma {:induction false} DeliveredInOrder(c: Readers, batch: Batch)
    ensures var r := ConsumeBatch(c, batch).1;
            r.Delivered? ==>
              |r.records| == |batch.payloads| &&
              forall i :: 0 <= i < |batch.payloads| ==>
                r.records[i].batchId == batch.batchId && r.records[i].payloadType == batch.payloads[i].payloadType
  {
    DeliveredAtMost(c, batch.batchId, batch.payloads);
  }

  lemma {:induction false} DeliveredAtMost(c: Readers, batchId: int, payloads: seq<Payload>)
    ensures var r := ConsumePayloads(c, batchId, payloads).1;
            r.Delivered? ==>
              |r.records| <= |payloads| &&
              (|r.records| == |payloads| ==> forall i :: 0 <= i < |payloads| ==>
                r.records[i].batchId == batchId && r.records[i].payloadType == payloads[i].payloadType)
    decreases |payloads|
  {
    if payloads != [] {
      DeliveredAtMost(ConsumePayload(c, payloads[0]).0, batchId, payloads[1..]);
    }
  }

  // ---------- what every step keeps ----------

  /** At most one stream per recorded payload type, whatever arrives. */
  ghost predicate OneReaderPerType(c: Readers) {
    forall v, w :: v in c && w in c && v != w ==> c[v].payloadType != c[w].payloadType
  }

  /** Every stream has a reader. */
  ghost predicate AllOpened(c: Readers) {
    forall w :: w in c ==> c[w].reader.Some?
  }

  lemma ConsumePayloadKeeps(c: Readers, payload: Payload)
    requires OneReaderPerType(c)
    ensures OneReaderPerType(ConsumePayload(c, payload).0)
  {
    var d, e := Opening(c, payload), ConsumePayload(c, payload).0;
    assert OneReaderPerType(d);
    assert e == c || (e.Keys == d.Keys && forall w :: w in e ==> e[w].payloadType == d[w].payloadType);
  }

  lemma {:induction false} ConsumeKeeps(c: Readers, batchId: int, payloads: seq<Payload>)
    requires OneReaderPerType(c)
    ensures OneReaderPerType(ConsumePayloads(c, batchId, payloads).0)
    decreases |payloads|
  {
    if payloads != [] {
      ConsumePayloadKeeps(c, payloads[0]);
      ConsumeKeeps(ConsumePayload(c, payloads[0]).0, batchId, payloads[1..]);
    }
  }

  // ---------- when a consumer panics ----------

  /** What the headers of the payloads tell of a stream: its type, and whether
      one of its payloads began with a schema. */
  datatype Track = Track(payloadType: int, begun: bool)

  type Tracks = map<string, Track>

  predicate HasSchema(payload: Payload) { payload.frames != [] && payload.frames[0].SchemaFrame? }

  /** A stream that never began with a schema is in the way of a new one of its type. */
  ghost predicate Blocked(t: Tracks, payload: Payload) {
    payload.wireId !in t && exists w :: w in t && t[w] == Track(payload.payloadType, false)
  }

  function Heard(t: Tracks, payload: Payload): Tracks {
    if payload.wireId in t then
      t[payload.wireId := t[payload.wireId].(begun := t[payload.wireId].begun || HasSchema(payload))]
    else
      (map w | w in t && t[w].payloadType != payload.payloadType :: t[w])[
        payload.wireId := Track(payload.payloadType, HasSchema(payload))]
  }

  function HeardAll(t: Tracks, payloads: seq<Payload>): Tracks
    decreases |payloads|
  {
    if payloads == [] then t else HeardAll(Heard(t, payloads[0]), payloads[1..])
  }

  ghost predicate BlockedSomewhere(t: Tracks, payloads: seq<Payload>)
    decreases |payloads|
  {
    payloads != [] && (Blocked(t, payloads[0]) || BlockedSomewhere(Heard(t, payloads[0]), payloads[1..]))
  }

  /** The payloads a call looks at: up to the first that fails. */
  function Attempted(c: Readers, payloads: seq<Payload>): seq<Payload>
    decreases |payloads|
  {
    if payloads == [] then []
    else
      var (d, outcome) := ConsumePayload(c, payloads[0]);
      [payloads[0]] + (if outcome.Got? || outcome.Nothing? then Attempted(d, payloads[1..]) else [])
  }

  /** The same over a history of calls, which ends when one panics. */
  function AttemptedInCalls(c: Readers, calls: seq<Batch>): seq<Payload>
    decreases |calls|
  {
    if calls == [] then []
    else
      var (d, r) := ConsumeBatch(c, calls[0]);
      Attempted(c, calls[0].payloads) + (if r.Panicked? then [] else AttemptedInCalls(d, calls[1..]))
  }

  predicate PanicsInCalls(c: Readers, calls: seq<Batch>)
    decreases |calls|
  {
    calls != [] &&
    var (d, r) := ConsumeBatch(c, calls[0]);
    r.Panicked? || PanicsInCalls(d, calls[1..])
  }

  function TracksOf(c: Readers): Tracks {
    map w | w in c :: Track(c[w].payloadType, c[w].reader.Some?)
  }

  lemma BlockedPanics(c: Readers, payload: Payload)
    ensures ConsumePayload(c, payload).1 == Panic <==> Blocked(TracksOf(c), payload)
  {
    var t := TracksOf(c);
    if ReleasesNil(c, payload.payloadType) {
      var w :| w in c && c[w].payloadType == payload.payloadType && c[w].reader == None;
      assert w in t && t[w] == Track(payload.payloadType, false);
    }
    if Blocked(t, payload) {
      var w :| w in t && t[w] == Track(payload.payloadType, false);
      assert w in c && c[w].payloadType == payload.payloadType && c[w].reader == None;
    }
  }

  lemma OpeningHeard(c: Readers, payload: Payload)
    requires payload.wireId !in c
    ensures TracksOf(Opening(c, payload)) ==
            (map w | w in TracksOf(c) && TracksOf(c)[w].payloadType != payload.payloadType :: TracksOf(c)[w])[
              payload.wireId := Track(payload.payloadType, false)]
  {
  }

  lemma ReaderHeard(d: Readers, w: string, reader: Reader)
    requires w in d
    ensures TracksOf(d[w := d[w].(reader := Some(reader))]) == TracksOf(d)[w := Track(d[w].payloadType, true)]
  {
  }

  lemma StepHeard(c: Readers, payload: Payload)
    requires ConsumePayload(c, payload).1 != Panic
    ensures TracksOf(ConsumePayload(c, payload).0) == Heard(TracksOf(c), payload)
  {
    var d := Opening(c, payload);
    if payload.wireId !in c {
      OpeningHeard(c, payload);
    }
    match d[payload.wireId].reader
    case Some(reader) => ReaderHeard(d, payload.wireId, Next(reader, payload.frames).reader);
    case None =>
      if HasSchema(payload) {
        var start := NewReader(payload.frames).value;
        ReaderHeard(d, payload.wireId, Next(start.reader, start.rest).reader);
      }
  }

  lemma {:induction false} PayloadsPanic(c: Readers, batchId: int, payloads: seq<Payload>)
    ensures var (d, r) := ConsumePayloads(c, batchId, payloads);
            var tried := Attempted(c, payloads);
            (r.Panicked? <==> BlockedSomewhere(TracksOf(c), tried)) &&
            (!r.Panicked? ==> TracksOf(d) == HeardAll(TracksOf(c), tried))
    decreases |payloads|
  {
    if payloads != [] {
      var (d, outcome) := ConsumePayload(c, payloads[0]);
      var tried := Attempted(c, payloads);
      BlockedPanics(c, payloads[0]);
      if outcome != Panic {
        StepHeard(c, payloads[0]);
        if outcome != Error {
          PayloadsPanic(d, batchId, payloads[1..]);
          assert tried[1..] == Attempted(d, payloads[1..]);
        } else {
          assert tried[1..] == [];
        }
      }
    }
  }

  lemma {:induction false} HeardInTurn(t: Tracks, a: seq<Payload>, b: seq<Payload>)
    ensures HeardAll(t, a + b) == HeardAll(HeardAll(t, a), b)
    ensures BlockedSomewhere(t, a + b) <==> BlockedSomewhere(t, a) || BlockedSomewhere(HeardAll(t, a), b)
    decreases |a|
  {
    if a == [] {
      assert a + b == b;
    } else {
      HeardInTurn(Heard(t, a[0]), a[1..], b);
      assert (a + b)[0] == a[0] && (a + b)[1..] == a[1..] + b;
    }
  }

  lemma {:induction false} CallsPanic(c: Readers, calls: seq<Batch>)
    ensures PanicsInCalls(c, calls) <==> BlockedSomewhere(TracksOf(c), AttemptedInCalls(c, calls))
    decreases |calls|
  {
    if calls != [] {
      var (d, r) := ConsumeBatch(c, calls[0]);
      var tried := Attempted(c, calls[0].payloads);
      PayloadsPanic(c, calls[0].batchId, calls[0].payloads);
      if r.Panicked? {
        assert tried + [] == tried;
      } else {
        CallsPanic(d, calls[1..]);
        HeardInTurn(TracksOf(c), tried, AttemptedInCalls(d, calls[1..]));
      }
    }
  }

  /** Over every history of calls on a new consumer: one of them panics exactly
      when a payload starts a stream while the stream of its type, as far as the
      headers of the payloads tell, never began with a schema. */
  lemma HistoryPanics(calls: seq<Batch>)
    ensures PanicsInCalls(map[], calls) <==> BlockedSomewhere(map[], AttemptedInCalls(map[], calls))
  {
    CallsPanic(map[], calls);
    assert TracksOf(map[]) == map[];
  }

  /** Two payloads are enough: the first has no schema and is rejected, the
      second starts another stream of the same type. */
  lemma OrphanPanics(a: Payload, b: Payload, i: int, j: int)
    requires !HasSchema(a) && a.payloadType == b.payloadType && a.wireId != b.wireId
    ensures ConsumeBatch(map[], Batch(i, [a])).1 == Rejected
    ensures ConsumeBatch(ConsumeBatch(map[], Batch(i, [a])).0, Batch(j, [b])).1 == Panicked
  {
    var orphan := StreamConsumer(a.payloadType, None);
    var none: Readers := map[];
    assert ConsumePayload(none, a) == (Opening(none, a), Error);
    assert Opening(none, a) == map[a.wireId := orphan];
    var c := ConsumeBatch(map[], Batch(i, [a])).0;
    assert a.wireId in c && c[a.wireId] == orphan;
  }

  /** A schema in the first payload of every wire id is not enough: `again`
      comes back to a stream that `b` has replaced. */
  lemma ReturningStreamPanics(a: Payload, b: Payload, again: Payload, next: Payload, ids: (int, int, int, int))
    requires HasSchema(a) && HasSchema(b) && !HasSchema(again) && again.wireId == a.wireId
    requires a.payloadType == b.payloadType == again.payloadType == next.payloadType
    requires a.wireId != b.wireId && next.wireId != a.wireId && next.wireId != b.wireId
    ensures PanicsInCalls(map[], [Batch(ids.0, [a]), Batch(ids.1, [b]), Batch(ids.2, [again]), Batch(ids.3, [next])])
  {
    var none: Readers := map[];
    var calls := [Batch(ids.0, [a]), Batch(ids.1, [b]), Batch(ids.2, [again]), Batch(ids.3, [next])];
    var c := ConsumePayload(none, a).0;
    OnePayloadCall(none, a, ids.0);
    OnePayloadCall(c, b, ids.1);
    var d := ConsumePayload(c, b).0;
    OnePayloadCall(d, again, ids.2);
    var e := ConsumePayload(d, again).0;
    OnePayloadCall(e, next, ids.3);
    assert e[again.wireId].reader == None;
    assert calls[1..][1..][1..] == [calls[3]] && calls[1..][1..][0] == calls[2] && calls[1..][0] == calls[1];
    assert PanicsInCalls(e, [calls[3]]);
  }

  /** A call with one payload. */
  lemma OnePayloadCall(c: Readers, payload: Payload, batchId: int)
    ensures var (d, r) := ConsumeBatch(c, Batch(batchId, [payload]));
            d == ConsumePayload(c, payload).0 && (r.Panicked? <==> ConsumePayload(c, payload).1.Panic?)
  {
    var d := ConsumePayload(c, payload).0;
    assert [payload][1..] == [];
    assert ConsumePayloads(d, batchId, []) == (d, Delivered([]));
  }

  /** A call is rejected, and all before it are delivered. */
  predicate RejectedBeforePanic(c: Readers, calls: seq<Batch>)
    decreases |calls|
  {
    calls != [] &&
    var (d, r) := ConsumeBatch(c, calls[0]);
    r.Rejected? || (r.Delivered? && RejectedBeforePanic(d, calls[1..]))
  }

  /** What a sender sees: as long as no call is rejected, none panics. */
  lemma {:induction false} PanicNeedsRejection(c: Readers, calls: seq<Batch>)
    requires AllOpened(c) && PanicsInCalls(c, calls)
    ensures RejectedBeforePanic(c, calls)
    decreases |calls|
  {
    var (d, r) := ConsumeBatch(c, calls[0]);
    StaysOpened(c, calls[0].batchId, calls[0].payloads);
    if r.Delivered? {
      PanicNeedsRejection(d, calls[1..]);
    }
  }

  lemma {:induction false} StaysOpened(c: Readers, batchId: int, payloads: seq<Payload>)
    requires AllOpened(c)
    ensures var (d, r) := ConsumePayloads(c, batchId, payloads);
            !r.Panicked? && (r.Delivered? ==> AllOpened(d))
    decreases |payloads|
  {
    if payloads != [] {
      var (d, outcome) := ConsumePayload(c, payloads[0]);
      if outcome.Got? || outcome.Nothing? {
        StaysOpened(d, batchId, payloads[1..]);
      }
    }
  }

  /** No payload without a schema, of `past` or these, is followed by one of its
      type under another wire id. */
  ghost predicate SafelySent(past: set<Payload>, payloads: seq<Payload>)
    decreases |payloads|
  {
    payloads == [] ||
    (!Replaces(past, payloads[0]) && SafelySent(past + {payloads[0]}, payloads[1..]))
  }

  ghost predicate Replaces(past: set<Payload>, payload: Payload) {
    exists p :: p in past && !HasSchema(p) && p.payloadType == payload.payloadType && p.wireId != payload.wireId
  }

  ghost predicate SafelySentCalls(past: set<Payload>, calls: seq<Batch>)
    decreases |calls|
  {
    calls == [] ||
    (SafelySent(past, calls[0].payloads) &&
     SafelySentCalls(past + (set p | p in calls[0].payloads), calls[1..]))
  }

  /** Every stream that has not begun is from a payload without a schema. */
  ghost predicate FromPast(t: Tracks, past: set<Payload>) {
    forall w :: w in t && !t[w].begun ==>
      exists p :: p in past && !HasSchema(p) && p.payloadType == t[w].payloadType && p.wireId == w
  }

  /** What a sender can check by itself, whatever becomes of its calls: a history
      so sent does not panic. */
  lemma {:induction false} SafelySentNeverPanics(c: Readers, past: set<Payload>, calls: seq<Batch>)
    requires FromPast(TracksOf(c), past) && SafelySentCalls(past, calls)
    ensures !PanicsInCalls(c, calls)
    decreases |calls|
  {
    if calls != [] {
      SafeCall(c, past, calls[0].batchId, calls[0].payloads);
      SafelySentNeverPanics(ConsumeBatch(c, calls[0]).0, past + (set p | p in calls[0].payloads), calls[1..]);
    }
  }

  lemma {:induction false} SafeCall(c: Readers, past: set<Payload>, batchId: int, payloads: seq<Payload>)
    requires FromPast(TracksOf(c), past) && SafelySent(past, payloads)
    ensures var (d, r) := ConsumePayloads(c, batchId, payloads);
            !r.Panicked? && FromPast(TracksOf(d), past + (set p | p in payloads))
    decreases |payloads|
  {
    var sent := set p | p in payloads;
    if payloads == [] {
      assert past + sent == past;
    } else {
      var (d, outcome) := ConsumePayload(c, payloads[0]);
      SafePayload(c, past, payloads[0]);
      var rest := set p | p in payloads[1..];
      assert past + sent == past + {payloads[0]} + rest by {
        assert payloads == [payloads[0]] + payloads[1..];
      }
      FromMore(TracksOf(d), past + {payloads[0]}, rest);
      if outcome.Got? || outcome.Nothing? {
        SafeCall(d, past + {payloads[0]}, batchId, payloads[1..]);
      }
    }
  }

  lemma SafePayload(c: Readers, past: set<Payload>, payload: Payload)
    requires FromPast(TracksOf(c), past) && !Replaces(past, payload)
    ensures ConsumePayload(c, payload).1 != Panic
    ensures FromPast(TracksOf(ConsumePayload(c, payload).0), past + {payload})
  {
    var t := TracksOf(c);
    BlockedPanics(c, payload);
    StepHeard(c, payload);
    HeardFromPast(t, past, payload);
  }

  lemma FromMore(t: Tracks, past: set<Payload>, more: set<Payload>)
    requires FromPast(t, past)
    ensures FromPast(t, past + more)
  {
    forall w | w in t && !t[w].begun
      ensures exists p :: p in past + more && !HasSchema(p) && p.payloadType == t[w].payloadType && p.wireId == w
    {
      var p :| p in past && !HasSchema(p) && p.payloadType == t[w].payloadType && p.wireId == w;
      assert p in past + more;
    }
  }

  lemma HeardFromPast(t: Tracks, past: set<Payload>, payload: Payload)
    requires FromPast(t, past)
    ensures FromPast(Heard(t, payload), past + {payload})
  {
    var h := Heard(t, payload);
    forall w | w in h && !h[w].begun
      ensures exists p :: p in past + {payload} && !HasSchema(p) && p.payloadType == h[w].payloadType && p.wireId == w
    {
      if w == payload.wireId && w !in t {
        assert payload in past + {payload};
      } else {
        var p :| p in past && !HasSchema(p) && p.payloadType == t[w].payloadType && p.wireId == w;
        assert p in past + {payload};
      }
    }
  }

  // ---------- the memory counter ----------

  /** The counter after one observation of the allocator's level, an unsigned
      64-bit number: it moves by the difference seen as an int64. */
  function Observe(last: int, total: int, inuse: int): (int, int) {
    (inuse, if inuse == last then total else total + Wrap64(inuse - last))
  }

  function ObserveAll(last: int, total: int, levels: seq<int>): (int, int)
    decreases |levels|
  {
    if levels == [] then (last, total)
    else ObserveAll(levels[0], Observe(last, total, levels[0]).1, levels[1..])
  }

  predicate Level(inuse: int) { 0 <= inuse < TWO_63 }

  /** However the level moves, the counter shows the level last observed. */
  lemma {:induction false} CounterTelescopes(last: int, total: int, levels: seq<int>)
    requires Level(last) && forall i :: 0 <= i < |levels| ==> Level(levels[i])
    ensures var (now, sum) := ObserveAll(last, total, levels);
            sum - total == now - last && now == if levels == [] then last else levels[|levels| - 1]
    decreases |levels|
  {
    if levels != [] {
      CounterTelescopes(levels[0], Observe(last, total, levels[0]).1, levels[1..]);
    }
  }

  // ---------- the class ----------

  /** The records a call has retained when its loop ends. */
  function Retained(c: Readers, batchId: int, payloads: seq<Payload>): seq<Decoded>
    decreases |payloads|
  {
    if payloads == [] then []
    else
      var (d, outcome) := ConsumePayload(c, payloads[0]);
      match outcome
      case Got(record) => [Decoded(batchId, payloads[0].payloadType, record)] + Retained(d, batchId, payloads[1..])
      case Nothing => Retained(d, batchId, payloads[1..])
      case _ => []
  }

  /** The streams that have a reader. */
  function Open(c: Readers): set<string> { set w | w in c && c[w].reader.Some? }

  function Records(decoded: seq<Decoded>): (r: seq<Record>)
    ensures |r| == |decoded|
    ensures forall i :: 0 <= i < |r| ==> r[i] == decoded[i].record
  {
    seq(|decoded|, i requires 0 <= i < |decoded| => decoded[i].record)
  }

  class Consumer {
    var streams: Readers
    var lastInuse: int
    var memoryCounter: int
    var recordsCounter: nat
    var schemaResets: nat

    /** The records retained by `Consume` and not released since. */
    var held: multiset<Record>

    /** How many readers were ever created and released. */
    var created: nat
    var released: nat

    /** One stream per type, and every reader created is released or in use. */
    ghost predicate Valid()
      reads this
    {
      OneReaderPerType(streams) && created == released + |Open(streams)|
    }

    /** The memory counter shows the level last observed. */
    ghost predicate Shows()
      reads this
    {
      Level(lastInuse) && memoryCounter == lastInuse
    }

    constructor ()
      ensures Valid() && Shows() && streams == map[] && lastInuse == 0 && memoryCounter == 0 && held == multiset{}
    {
      streams, lastInuse, memoryCounter, recordsCounter, schemaResets, held := map[], 0, 0, 0, 0, multiset{};
      created, released := 0, 0;
      new;
      assert Open(streams) == {};
    }

    /** Releases and forgets the readers of a payload type; stops, with nothing
        changed, at a stream that has none. */
    method ReleaseReaders(payloadType: int) returns (ok: bool)
      requires Valid()
      modifies this`streams, this`released
      ensures Valid()
      ensures ok <==> !ReleasesNil(old(streams), payloadType)
      ensures streams == if ok then Drop(old(streams), payloadType) else old(streams)
    {
      ghost var before := streams;
      var todo := streams.Keys;
      while todo != {}
        invariant Valid() && OneReaderPerType(before) && todo <= streams.Keys <= before.Keys
        invariant forall w :: w in streams ==> streams[w] == before[w]
        invariant forall w :: w in before && w !in streams ==> before[w].payloadType == payloadType && before[w].reader.Some?
        invariant forall w :: w in streams && w !in todo ==> before[w].payloadType != payloadType
        decreases todo
      {
        var id :| id in todo;
        if streams[id].payloadType == payloadType {
          if streams[id].reader == None {
            assert forall w :: w in before && before[w].payloadType == payloadType ==> w == id;
            assert streams == before;
            return false;
          }
          OpenWithout(streams, id);
          streams := streams - {id};
          released := released + 1;
        }
        todo := todo - {id};
      }
      assert streams == Drop(before, payloadType);
      ok := true;
    }

    static lemma OpenWithout(c: Readers, id: string)
      requires id in c && c[id].reader.Some?
      ensures |Open(c - {id})| == |Open(c)| - 1
    {
      assert Open(c - {id}) == Open(c) - {id};
    }

    static lemma OpenWith(c: Readers, id: string, sc: StreamConsumer)
      requires sc.reader.Some?
      ensures |Open(c[id := sc])| == |Open(c)| + (if id in c && c[id].reader.Some? then 0 else 1)
    {
      assert Open(c[id := sc]) == Open(c) + {id};
      if id in Open(c) {
        assert Open(c) + {id} == Open(c);
      } else {
        assert |Open(c) + {id}| == |Open(c)| + 1;
      }
    }

    /** A stream for the payload, without a reader if it is new. */
    method EnsureStream(payload: Payload) returns (ok: bool)
      requires Valid()
      modifies this`streams, this`released
      ensures Valid()
      ensures ok <==> !(payload.wireId !in old(streams) && ReleasesNil(old(streams), payload.payloadType))
      ensures streams == if ok then Opening(old(streams), payload) else old(streams)
    {
      ok := true;
      if payload.wireId !in streams {
        ok := ReleaseReaders(payload.payloadType);
        if ok {
          ghost var before := streams;
          streams := streams[payload.wireId := StreamConsumer(payload.payloadType, None)];
          assert Open(streams) == Open(before);
        }
      }
    }

    /** The body of the loop in `Consume`. */
    method ConsumeOne(payload: Payload) returns (outcome: Outcome)
      requires Valid()
      modifies this`streams, this`schemaResets, this`held, this`created, this`released
      ensures Valid()
      ensures (streams, outcome) == ConsumePayload(old(streams), payload)
      ensures held == if outcome.Got? then old(held) + multiset{outcome.record} else old(held)
    {
      var ok := EnsureStream(payload);
      if !ok {
        return Panic;
      }
      var frames := payload.frames;
      if streams[payload.wireId].reader == None {
        schemaResets := schemaResets + 1;
        var start := NewReader(frames);
        if start == None {
          return Error;
        }
        ReadWithNew(streams, payload.wireId, start.value.reader, start.value.rest);
        OpenReader(payload.wireId, start.value.reader);
        frames := start.value.rest;
      }
      outcome := ReadNext(payload.wireId, frames);
    }

    static lemma ReadWithNew(c: Readers, id: string, reader: Reader, frames: seq<Frame>)
      requires id in c
      ensures ReadRecord(c[id := c[id].(reader := Some(reader))], id, reader, frames) == ReadRecord(c, id, reader, frames)
    {
      var step := Next(reader, frames);
      assert c[id := c[id].(reader := Some(reader))][id := c[id].(reader := Some(step.reader))] ==
             c[id := c[id].(reader := Some(step.reader))];
    }

    /** Gives a stream its reader. */
    method OpenReader(id: string, reader: Reader)
      requires Valid() && id in streams && streams[id].reader == None
      modifies this`streams, this`created
      ensures Valid() && streams == old(streams)[id := old(streams)[id].(reader := Some(reader))]
    {
      OpenWith(streams, id, streams[id].(reader := Some(reader)));
      created := created + 1;
      streams := streams[id := streams[id].(reader := Some(reader))];
    }

    /** Reads one record, and retains it. */
    method ReadNext(id: string, frames: seq<Frame>) returns (outcome: Outcome)
      requires Valid() && id in streams && streams[id].reader.Some?
      modifies this`streams, this`held
      ensures Valid()
      ensures (streams, outcome) == ReadRecord(old(streams), id, old(streams)[id].reader.value, frames)
      ensures held == if outcome.Got? then old(held) + multiset{outcome.record} else old(held)
    {
      var step := Next(streams[id].reader.value, frames);
      OpenWith(streams, id, streams[id].(reader := Some(step.reader)));
      streams := streams[id := streams[id].(reader := Some(step.reader))];
      if step.record.Some? {
        held := held + multiset{step.record.value};
        outcome := Got(step.record.value);
      } else if step.reader.status == Failed {
        outcome := Error;
      } else {
        outcome := Nothing;
      }
    }

    method ReleaseRecords(records: seq<Decoded>)
      requires multiset(Records(records)) <= held
      modifies this`held
      ensures held == old(held) - multiset(Records(records))
    {
      ghost var all := Records(records);
      for i := 0 to |records|
        invariant held == old(held) - multiset(all[..i])
      {
        TakeOneMore(old(held), all, i);
        held := held - multiset{records[i].record};
      }
      assert all[..|records|] == all;
    }

    static lemma TakeOneMore(h: multiset<Record>, all: seq<Record>, i: nat)
      requires i < |all|
      ensures h - multiset(all[..i]) - multiset{all[i]} == h - multiset(all[..i + 1])
    {
      assert all[..i + 1] == all[..i] + [all[i]];
    }

    static lemma RecordsAppend(done: seq<Decoded>, d: Decoded)
      ensures multiset(Records(done + [d])) == multiset(Records(done)) + multiset{d.record}
    {
      assert Records(done + [d]) == Records(done) + [d.record];
    }

    /** The loop of `Consume`: the records retained when it ended, and whether
        an error or a panic ended it. */
    method ConsumeAll(batch: Batch) returns (kept: seq<Decoded>, failed: bool, panicked: bool)
      requires Valid()
      modifies this`streams, this`schemaResets, this`held, this`created, this`released
      ensures Valid()
      ensures kept == Retained(old(streams), batch.batchId, batch.payloads) && |kept| <= |batch.payloads|
      ensures held == old(held) + multiset(Records(kept))
      ensures (streams, Ending(kept, failed, panicked)) == ConsumePayloads(old(streams), batch.batchId, batch.payloads)
    {
      kept, failed, panicked := [], false, false;
      ghost var whole := ConsumePayloads(streams, batch.batchId, batch.payloads);
      ghost var retained := Retained(streams, batch.batchId, batch.payloads);
      assert batch.payloads[0..] == batch.payloads;
      PrefixJoins([], [], whole);
      for i := 0 to |batch.payloads|
        invariant Valid() && |kept| <= i && !failed && !panicked
        invariant held == old(held) + multiset(Records(kept))
        invariant whole == Prefix(kept, ConsumePayloads(streams, batch.batchId, batch.payloads[i..]))
        invariant retained == kept + Retained(streams, batch.batchId, batch.payloads[i..])
      {
        Unroll(streams, kept, batch, i);
        UnrollRetained(streams, kept, batch, i);
        var outcome := ConsumeOne(batch.payloads[i]);
        match outcome {
          case Panic => panicked := true; return;
          case Error => failed := true; return;
          case Nothing =>
          case Got(record) =>
            RecordsAppend(kept, Decoded(batch.batchId, batch.payloads[i].payloadType, record));
            kept := kept + [Decoded(batch.batchId, batch.payloads[i].payloadType, record)];
        }
      }
      assert kept + [] == kept;
    }

    static function Ending(kept: seq<Decoded>, failed: bool, panicked: bool): Result {
      if panicked then Panicked else if failed then Rejected else Delivered(kept)
    }

    /** Either one retained record per payload, or nothing retained at all.  A
        panic leaves the records retained so far. */
    method Consume(batch: Batch) returns (r: Result)
      requires Valid()
      modifies this`streams, this`schemaResets, this`held, this`recordsCounter, this`created, this`released
      ensures Valid()
      ensures (streams, r) == ConsumeBatch(old(streams), batch)
      ensures r.Delivered? ==> held == old(held) + multiset(Records(r.records))
      ensures r.Rejected? ==> held == old(held)
      ensures r.Panicked? ==>
                held == old(held) + multiset(Records(Retained(old(streams), batch.batchId, batch.payloads)))
      ensures recordsCounter == old(recordsCounter) + |Retained(old(streams), batch.batchId, batch.payloads)|
    {
      var kept, failed, panicked := ConsumeAll(batch);
      recordsCounter := recordsCounter + |kept|;
      if panicked {
        r := Panicked;
      } else if failed || |kept| < |batch.payloads| {
        ReleaseRecords(kept);
        r := Rejected;
      } else {
        r := Delivered(kept);
      }
    }

    static lemma PrefixJoins(a: seq<Decoded>, b: seq<Decoded>, r: (Readers, Result))
      ensures Prefix([], r) == r
      ensures Prefix(a, Prefix(b, r)) == Prefix(a + b, r)
    {
      if r.1.Delivered? {
        assert [] + r.1.records == r.1.records;
        assert a + (b + r.1.records) == a + b + r.1.records;
      }
    }

    static lemma Unroll(c: Readers, done: seq<Decoded>, batch: Batch, i: nat)
      requires i < |batch.payloads|
      ensures var (d, outcome) := ConsumePayload(c, batch.payloads[i]);
              Prefix(done, ConsumePayloads(c, batch.batchId, batch.payloads[i..])) ==
                match outcome
                case Error => (d, Rejected)
                case Panic => (d, Panicked)
                case Nothing => Prefix(done, ConsumePayloads(d, batch.batchId, batch.payloads[i + 1..]))
                case Got(record) =>
                  Prefix(done + [Decoded(batch.batchId, batch.payloads[i].payloadType, record)],
                         ConsumePayloads(d, batch.batchId, batch.payloads[i + 1..]))
    {
      var (d, outcome) := ConsumePayload(c, batch.payloads[i]);
      assert batch.payloads[i..][1..] == batch.payloads[i + 1..];
      if outcome.Got? {
        PrefixJoins(done, [Decoded(batch.batchId, batch.payloads[i].payloadType, outcome.record)],
                    ConsumePayloads(d, batch.batchId, batch.payloads[i + 1..]));
      }
    }

    static lemma UnrollRetained(c: Readers, done: seq<Decoded>, batch: Batch, i: nat)
      requires i < |batch.payloads|
      ensures var (d, outcome) := ConsumePayload(c, batch.payloads[i]);
              done + Retained(c, batch.batchId, batch.payloads[i..]) ==
                match outcome
                case Nothing => done + Retained(d, batch.batchId, batch.payloads[i + 1..])
                case Got(record) =>
                  done + [Decoded(batch.batchId, batch.payloads[i].payloadType, record)] +
                  Retained(d, batch.batchId, batch.payloads[i + 1..])
                case _ => done
    {
      assert batch.payloads[i..][1..] == batch.payloads[i + 1..];
    }

    /** `inuse` is the allocator's level at the time of the call. */
    method InuseChangeObserve(inuse: int)
      modifies this`lastInuse, this`memoryCounter
      ensures (lastInuse, memoryCounter) == Observe(old(lastInuse), old(memoryCounter), inuse)
      ensures old(Shows()) && Level(inuse) ==> Shows()
    {
      if inuse == lastInuse {
        return;
      }
      memoryCounter := memoryCounter + Wrap64(inuse - lastInuse);
      lastInuse := inuse;
    }

    /** Releases every reader that is open. */
    method ReleaseAll()
      requires Valid()
      modifies this`released
      ensures released == created
    {
      var todo := streams.Keys;
      assert Open(streams) * todo == Open(streams);
      while todo != {}
        invariant todo <= streams.Keys && created == released + |Open(streams) * todo|
        decreases todo
      {
        var id :| id in todo;
        OpenMinus(Open(streams), todo, id);
        if streams[id].reader != None {
          released := released + 1;
        }
        todo := todo - {id};
      }
    }

    static lemma OpenMinus(a: set<string>, todo: set<string>, id: string)
      requires id in todo
      ensures |a * todo| == |a * (todo - {id})| + (if id in a then 1 else 0)
    {
      assert a * (todo - {id}) == a * todo - {id};
    }

    /** Releases the readers, observes the level they leave and takes it back
        out of the counter: the consumer has contributed nothing in the end. */
    method Close(inuse: int)
      requires Valid()
      modifies this`lastInuse, this`memoryCounter, this`released
      ensures released == created && lastInuse == inuse
      ensures Level(inuse) && Level(old(lastInuse)) ==> memoryCounter == old(memoryCounter) - old(lastInuse)
      ensures Level(inuse) && old(Shows()) ==> memoryCounter == 0
    {
      ReleaseAll();
      InuseChangeObserve(inuse);
      if inuse != 0 {
        memoryCounter := memoryCounter + Wrap64(-Wrap64(inuse));
      }
    }
  }
}
