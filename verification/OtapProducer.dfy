/**
  The sending half of the OTAP stream protocol
  (go/pkg/otel/arrow_record/producer.go).

  `Produce` on values is the specification: it is total, and says what is left
  behind when a call fails part way.  The class holds the fields of the Go
  struct and is proved to step exactly like it.
 */
module OtapProducer {
  import opened Options
  import opened Decimal
  import opened Ordering
  import opened ArrowIpc

  datatype RecordMessage = RecordMessage(schemaId: string, payloadType: int, record: Record)

  datatype Payload = Payload(wireId: string, payloadType: int, frames: seq<Frame>)

  datatype Batch = Batch(batchId: int, payloads: seq<Payload>)

  datatype StreamProducer = StreamProducer(wireId: string, payloadType: int, writer: Writer, output: seq<Frame>)

  type Streams = map<string, StreamProducer>

  /** The live streams by schema id, how many streams were ever created and
      closed, and how many batches went out. */
  datatype State = State(streams: Streams, issued: nat, retired: nat, batches: nat)

  const INITIAL: State := State(map[], 0, 0, 0)

  /** What can go wrong while one record is processed: closing the writer of a
      stream to be retired or writing the record (either may leave anything in
      the writer and its buffer), or recording its size. */
  datatype Fault =
    | NoFault
    | CloseFails(after: Writer, left: seq<Frame>)
    | WriteFails(after: Writer, left: seq<Frame>)
    | StatsFail

  /** The text of the `k`-th wire id: the int64 counter printed in decimal. */
  function WireId(k: nat): string { FormatInt(Wrap64(k)) }

  /** Wire ids repeat exactly when the 64-bit counter has gone all the way round. */
  lemma WireIdsDistinct(j: nat, k: nat)
    ensures WireId(j) == WireId(k) <==> (j - k) % TWO_64 == 0
  {
    WrapCongruence(j, k);
    if WireId(j) == WireId(k) {
      FormatInjective(Wrap64(j), Wrap64(k));
    }
  }

  lemma WireIdsClose(j: nat, k: nat)
    requires j < k < j + TWO_64
    ensures WireId(j) != WireId(k)
  {
    WrapApart(j, k);
    if WireId(j) == WireId(k) {
      FormatInjective(Wrap64(j), Wrap64(k));
    }
  }

  lemma WireIdsWrap(j: nat)
    ensures WireId(j) == WireId(j + TWO_64)
  {
    WrapAround(j);
  }

  /** Drops the streams recorded under a payload type. */
  function Retire(streams: Streams, payloadType: int): Streams {
    map s | s in streams && streams[s].payloadType != payloadType :: streams[s]
  }

  lemma RetireShrinks(streams: Streams, payloadType: int)
    ensures |Retire(streams, payloadType)| <= |streams|
  {
    var r := Retire(streams, payloadType);
    assert streams.Keys == r.Keys + (streams.Keys - r.Keys);
    assert |streams.Keys| == |r.Keys| + |streams.Keys - r.Keys|;
  }

  /** The state in which `rm` has a stream: the one of its schema id, or a new
      one after the streams of its payload type are retired. */
  function OpenStream(p: State, rm: RecordMessage): (q: State)
    ensures rm.schemaId in q.streams
  {
    if rm.schemaId in p.streams then p
    else
      var kept := Retire(p.streams, rm.payloadType);
      RetireShrinks(p.streams, rm.payloadType);
      var opening := StreamProducer(WireId(p.issued), rm.payloadType, NewWriter(rm.record.schema), []);
      State(kept[rm.schemaId := opening], p.issued + 1, p.retired + |p.streams| - |kept|, p.batches)
  }

  /** The streams when closing the one of a payload type failed: it stays, with
      whatever the writer left. */
  function NotClosed(streams: Streams, payloadType: int, after: Writer, left: seq<Frame>): Streams {
    map s | s in streams ::
      if streams[s].payloadType == payloadType then streams[s].(writer := after, output := streams[s].output + left)
      else streams[s]
  }

  predicate MustRetire(p: State, rm: RecordMessage) {
    rm.schemaId !in p.streams && exists s :: s in p.streams && p.streams[s].payloadType == rm.payloadType
  }

  function Update(p: State, id: string, writer: Writer, output: seq<Frame>): State
    requires id in p.streams
  {
    p.(streams := p.streams[id := p.streams[id].(writer := writer, output := output)])
  }

  /** Writes a record to the stream it now has. */
  function WriteRecord(q: State, rm: RecordMessage, fault: Fault): (State, Option<Payload>)
    requires rm.schemaId in q.streams
  {
    var sp := q.streams[rm.schemaId];
    if fault.WriteFails? then (Update(q, rm.schemaId, fault.after, sp.output + fault.left), None)
    else
      match Write(sp.writer, rm.record)
      case None => (q, None)
      case Some((writer, frames)) =>
        if fault.StatsFail? then (Update(q, rm.schemaId, writer, sp.output + frames), None)
        else
          (Update(q, rm.schemaId, writer, []),
           Some(Payload(sp.wireId, rm.payloadType, sp.output + frames)))
  }

  /** One turn of the loop in `Produce`. */
  function ProduceRecord(p: State, rm: RecordMessage, fault: Fault): (State, Option<Payload>) {
    if fault.CloseFails? && MustRetire(p, rm) then
      (p.(streams := NotClosed(p.streams, rm.payloadType, fault.after, fault.left)), None)
    else WriteRecord(OpenStream(p, rm), rm, fault)
  }

  function ProduceRecords(p: State, rms: seq<RecordMessage>, faults: seq<Fault>): (State, Option<seq<Payload>>)
    requires |faults| == |rms|
    decreases |rms|
  {
    if rms == [] then (p, Some([]))
    else
      var (q, payload) := ProduceRecord(p, rms[0], faults[0]);
      if payload == None then (q, None)
      else Prepend([payload.value], ProduceRecords(q, rms[1..], faults[1..]))
  }

  function Prepend(done: seq<Payload>, r: (State, Option<seq<Payload>>)): (State, Option<seq<Payload>>) {
    (r.0, if r.1 == None then None else Some(done + r.1.value))
  }

  lemma PrependJoins(a: seq<Payload>, b: seq<Payload>, r: (State, Option<seq<Payload>>))
    ensures Prepend([], r) == r
    ensures Prepend(a, Prepend(b, r)) == Prepend(a + b, r)
  {
    if r.1.Some? {
      assert [] + r.1.value == r.1.value;
      assert a + (b + r.1.value) == a + b + r.1.value;
    }
  }

  /** A whole call: the batch counter advances only on success. */
  function ProduceBatch(p: State, rms: seq<RecordMessage>, faults: seq<Fault>): (State, Option<Batch>)
    requires |faults| == |rms|
  {
    var (q, payloads) := ProduceRecords(p, rms, faults);
    if payloads == None then (q, None)
    else (q.(batches := q.batches + 1), Some(Batch(Wrap64(q.batches), payloads.value)))
  }

  // ---------- what every step keeps ----------

  /** At most one live stream per recorded payload type. */
  ghost predicate OneStreamPerType(p: State) {
    forall s, t :: s in p.streams && t in p.streams && s != t ==> p.streams[s].payloadType != p.streams[t].payloadType
  }

  /** Every live stream was issued a wire id, and no two the same one. */
  ghost predicate WireIdsIssued(p: State) {
    (forall s :: s in p.streams ==> exists k: nat :: k < p.issued && p.streams[s].wireId == WireId(k)) &&
    (forall s, t :: s in p.streams && t in p.streams && s != t ==> p.streams[s].wireId != p.streams[t].wireId)
  }

  ghost predicate Balanced(p: State) {
    p.issued == p.retired + |p.streams|
  }

  lemma OpenStreamKeeps(p: State, rm: RecordMessage)
    requires OneStreamPerType(p) && Balanced(p)
    ensures OneStreamPerType(OpenStream(p, rm)) && Balanced(OpenStream(p, rm))
  {
    RetireShrinks(p.streams, rm.payloadType);
  }

  lemma NextIdUnused(p: State, s: string)
    requires WireIdsIssued(p) && p.issued < TWO_64 && s in p.streams
    ensures p.streams[s].wireId != WireId(p.issued)
  {
    var k: nat :| k < p.issued && p.streams[s].wireId == WireId(k);
    WireIdsClose(k, p.issued);
  }

  lemma StillIssued(p: State, s: string, n: nat)
    requires WireIdsIssued(p) && s in p.streams && p.issued <= n
    ensures exists k: nat :: k < n && p.streams[s].wireId == WireId(k)
  {
    var k: nat :| k < p.issued && p.streams[s].wireId == WireId(k);
  }

  lemma OpenStreamIssues(p: State, rm: RecordMessage)
    requires WireIdsIssued(p) && p.issued < TWO_64
    ensures WireIdsIssued(OpenStream(p, rm))
    ensures rm.schemaId !in p.streams ==> forall s :: s in p.streams ==> p.streams[s].wireId != WireId(p.issued)
  {
    forall s | s in p.streams ensures p.streams[s].wireId != WireId(p.issued) {
      NextIdUnused(p, s);
    }
    if rm.schemaId !in p.streams {
      var q := OpenStream(p, rm);
      forall s | s in q.streams ensures exists k: nat :: k < q.issued && q.streams[s].wireId == WireId(k) {
        OpenedIssued(p, rm, s);
      }
    }
  }

  lemma OpenedIssued(p: State, rm: RecordMessage, s: string)
    requires WireIdsIssued(p) && rm.schemaId !in p.streams && s in OpenStream(p, rm).streams
    ensures exists k: nat :: k < p.issued + 1 && OpenStream(p, rm).streams[s].wireId == WireId(k)
  {
    if s == rm.schemaId {
      assert p.issued < p.issued + 1 && OpenStream(p, rm).streams[s].wireId == WireId(p.issued);
    } else {
      StillIssued(p, s, p.issued + 1);
    }
  }

  /** Whatever fails, each type keeps one stream at most and no stream is
      counted wrongly; ids stay unique until the counter has wrapped. */
  lemma ProduceKeeps(p: State, rms: seq<RecordMessage>, faults: seq<Fault>)
    requires |faults| == |rms| && OneStreamPerType(p) && Balanced(p)
    ensures var q := ProduceBatch(p, rms, faults).0;
            OneStreamPerType(q) && Balanced(q) && p.issued <= q.issued &&
            (WireIdsIssued(p) && q.issued <= TWO_64 ==> WireIdsIssued(q))
  {
    RecordsKeep(p, rms, faults);
    var q, r := ProduceRecords(p, rms, faults).0, ProduceBatch(p, rms, faults).0;
    assert r.streams == q.streams && r.issued == q.issued && r.retired == q.retired;
  }

  /** `q` has what every step keeps, coming from `p`. */
  ghost predicate Keeps(p: State, q: State) {
    OneStreamPerType(q) && Balanced(q) && p.issued <= q.issued &&
    (WireIdsIssued(p) && q.issued <= TWO_64 ==> WireIdsIssued(q))
  }

  lemma {:induction false} RecordsKeep(p: State, rms: seq<RecordMessage>, faults: seq<Fault>)
    requires |faults| == |rms| && OneStreamPerType(p) && Balanced(p)
    ensures Keeps(p, ProduceRecords(p, rms, faults).0)
    decreases |rms|
  {
    if rms != [] {
      var (q, payload) := ProduceRecord(p, rms[0], faults[0]);
      UpdateKeeps(p, rms[0], faults[0]);
      if payload.Some? {
        RecordsKeep(q, rms[1..], faults[1..]);
        KeepsOn(p, q, ProduceRecords(q, rms[1..], faults[1..]).0);
      }
    }
  }

  lemma KeepsOn(p: State, q: State, r: State)
    requires Keeps(p, q) && Keeps(q, r)
    ensures Keeps(p, r)
  {
  }

  /** Same streams, types, wire ids and counters; writers and buffers may differ. */
  ghost predicate SameShape(p: State, q: State) {
    p.(streams := map[]) == q.(streams := map[]) && p.streams.Keys == q.streams.Keys &&
    forall s :: s in p.streams ==>
      p.streams[s].payloadType == q.streams[s].payloadType && p.streams[s].wireId == q.streams[s].wireId
  }

  lemma SameShapeKeeps(p: State, q: State)
    requires SameShape(p, q)
    ensures OneStreamPerType(p) ==> OneStreamPerType(q)
    ensures Balanced(p) ==> Balanced(q)
    ensures WireIdsIssued(p) ==> WireIdsIssued(q)
  {
    assert |p.streams| == |p.streams.Keys| && |q.streams| == |q.streams.Keys|;
  }

  /** The state in which the record is written, if closing did not fail. */
  function BeforeWriting(p: State, rm: RecordMessage, fault: Fault): State {
    if fault.CloseFails? && MustRetire(p, rm) then p else OpenStream(p, rm)
  }

  lemma ProduceRecordShape(p: State, rm: RecordMessage, fault: Fault)
    ensures SameShape(BeforeWriting(p, rm, fault), ProduceRecord(p, rm, fault).0)
  {
  }

  lemma WireIdsKept(p: State, rm: RecordMessage, fault: Fault)
    requires WireIdsIssued(p) && ProduceRecord(p, rm, fault).0.issued <= TWO_64
    ensures WireIdsIssued(ProduceRecord(p, rm, fault).0)
  {
    var q := ProduceRecord(p, rm, fault).0;
    ProduceRecordShape(p, rm, fault);
    if p.issued < TWO_64 {
      OpenStreamIssues(p, rm);
    }
    SameShapeKeeps(BeforeWriting(p, rm, fault), q);
  }

  lemma UpdateKeeps(p: State, rm: RecordMessage, fault: Fault)
    requires OneStreamPerType(p) && Balanced(p)
    ensures var q := ProduceRecord(p, rm, fault).0;
            Keeps(p, q) && q.issued <= p.issued + 1
  {
    var q := ProduceRecord(p, rm, fault).0;
    ProduceRecordShape(p, rm, fault);
    OpenStreamKeeps(p, rm);
    SameShapeKeeps(BeforeWriting(p, rm, fault), q);
    if WireIdsIssued(p) && q.issued <= TWO_64 {
      WireIdsKept(p, rm, fault);
    }
  }

  // ---------- wire ids over whole runs ----------

  /** One call of `Produce` and the faults it meets. */
  datatype Call = Call(rms: seq<RecordMessage>, faults: seq<Fault>)

  type Run = run: seq<Call> | forall i :: 0 <= i < |run| ==> |run[i].rms| == |run[i].faults|

  /** The state after a run, whether or not its calls succeed. */
  function After(p: State, run: Run): State
    decreases |run|
  {
    if run == [] then p else After(ProduceBatch(p, run[0].rms, run[0].faults).0, run[1..])
  }

  /** The wire ids handed out to new streams while records are processed. */
  function IssuedBy(p: State, rms: seq<RecordMessage>, faults: seq<Fault>): (ids: seq<string>)
    requires |faults| == |rms|
    decreases |rms|
  {
    if rms == [] then []
    else
      var (q, payload) := ProduceRecord(p, rms[0], faults[0]);
      IssuedNow(p, rms[0], faults[0]) + (if payload == None then [] else IssuedBy(q, rms[1..], faults[1..]))
  }

  function IssuedInRun(p: State, run: Run): (ids: seq<string>)
    decreases |run|
  {
    if run == [] then []
    else IssuedBy(p, run[0].rms, run[0].faults) +
         IssuedInRun(ProduceBatch(p, run[0].rms, run[0].faults).0, run[1..])
  }

  function WireIds(from: nat, to: nat): (ids: seq<string>)
    requires from <= to
    ensures |ids| == to - from
    ensures forall i :: 0 <= i < |ids| ==> ids[i] == WireId(from + i)
  {
    seq(to - from, i requires 0 <= i => WireId(from + i))
  }

  /** The wire id handed out for one record, if any. */
  function IssuedNow(p: State, rm: RecordMessage, fault: Fault): (ids: seq<string>) {
    if rm.schemaId in p.streams || (fault.CloseFails? && MustRetire(p, rm)) then []
    else [ProduceRecord(p, rm, fault).0.streams[rm.schemaId].wireId]
  }

  lemma IssuedNowIsNext(p: State, rm: RecordMessage, fault: Fault)
    ensures var q := ProduceRecord(p, rm, fault).0;
            p.issued <= q.issued && IssuedNow(p, rm, fault) == WireIds(p.issued, q.issued)
  {
    ProduceRecordShape(p, rm, fault);
    assert WireIds(p.issued, p.issued) == [];
    assert WireIds(p.issued, p.issued + 1) == [WireId(p.issued)];
  }

  lemma {:induction false} IssuedByConsecutive(p: State, rms: seq<RecordMessage>, faults: seq<Fault>)
    requires |faults| == |rms|
    ensures var q := ProduceRecords(p, rms, faults).0;
            p.issued <= q.issued && IssuedBy(p, rms, faults) == WireIds(p.issued, q.issued)
    decreases |rms|
  {
    if rms != [] {
      var (q, payload) := ProduceRecord(p, rms[0], faults[0]);
      IssuedNowIsNext(p, rms[0], faults[0]);
      if payload.Some? {
        IssuedByConsecutive(q, rms[1..], faults[1..]);
        WireIdsJoin(p.issued, q.issued, ProduceRecords(q, rms[1..], faults[1..]).0.issued);
      }
    }
  }

  lemma WireIdsJoin(a: nat, b: nat, c: nat)
    requires a <= b <= c
    ensures WireIds(a, c) == WireIds(a, b) + WireIds(b, c)
  {
  }

  lemma {:induction false} IssuedConsecutively(p: State, run: Run)
    ensures p.issued <= After(p, run).issued
    ensures IssuedInRun(p, run) == WireIds(p.issued, After(p, run).issued)
    decreases |run|
  {
    if run != [] {
      var q := ProduceBatch(p, run[0].rms, run[0].faults).0;
      IssuedByConsecutive(p, run[0].rms, run[0].faults);
      IssuedConsecutively(q, run[1..]);
      WireIdsJoin(p.issued, q.issued, After(q, run[1..]).issued);
    }
  }

  lemma WireIdsNoDuplicates(from: nat, to: nat)
    requires from <= to
    ensures NoDuplicates(WireIds(from, to)) <==> to - from <= TWO_64
  {
    var ids := WireIds(from, to);
    if to - from > TWO_64 {
      WireIdsWrap(from);
      assert ids[0] == ids[TWO_64];
    } else {
      forall i, j | 0 <= i < j < |ids| ensures ids[i] != ids[j] {
        WireIdsClose(from + i, from + j);
      }
    }
  }

  /** Over any run, with any failures and with schemas that come and go, no wire
      id is handed out twice, exactly as long as at most 2^64 streams are
      created. */
  lemma {:induction false} WireIdsNeverRepeat(p: State, run: Run)
    ensures NoDuplicates(IssuedInRun(p, run)) <==> |IssuedInRun(p, run)| <= TWO_64
  {
    IssuedConsecutively(p, run);
    WireIdsNoDuplicates(p.issued, After(p, run).issued);
  }

  /** In every state a producer can reach, by calls that succeed or fail at any
      point, each payload type has at most one live stream, and created minus
      closed is the number of live streams. */
  lemma {:induction false} ReachableStates(p: State, run: Run)
    requires OneStreamPerType(p) && Balanced(p) && (p.issued <= TWO_64 ==> WireIdsIssued(p))
    ensures var q := After(p, run);
            OneStreamPerType(q) && Balanced(q) && (q.issued <= TWO_64 ==> WireIdsIssued(q))
    decreases |run|
  {
    if run != [] {
      ProduceKeeps(p, run[0].rms, run[0].faults);
      ReachableStates(ProduceBatch(p, run[0].rms, run[0].faults).0, run[1..]);
    }
  }

  // ---------- the class ----------

  class Producer {
    var streams: Streams
    var nextSchemaId: int
    var batchId: int
    var created: nat
    var closed: nat

    // Totals behind the 64-bit ids, and the sums of the snapshots already taken.
    ghost var issued: nat
    ghost var retired: nat
    ghost var batches: nat
    ghost var snapshotCreated: nat
    ghost var snapshotClosed: nat
    ghost var shut: bool

    ghost function Abstract(): State
      reads this
    {
      State(streams, issued, retired, batches)
    }

    ghost predicate Counted()
      reads this
    {
      nextSchemaId == Wrap64(issued) && batchId == Wrap64(batches) &&
      snapshotCreated + created == issued && snapshotClosed + closed == retired
    }

    ghost predicate Valid()
      reads this
    {
      Counted() && (!shut ==> Balanced(Abstract()) && OneStreamPerType(Abstract()))
    }

    constructor ()
      ensures Valid() && Abstract() == INITIAL && !shut
      ensures snapshotCreated == snapshotClosed == 0
    {
      streams, nextSchemaId, batchId, created, closed := map[], 0, 0, 0, 0;
      issued, retired, batches := 0, 0, 0;
      snapshotCreated, snapshotClosed, shut := 0, 0, false;
    }

    /** Closes and forgets the streams of a payload type. */
    method RetireStreams(payloadType: int, fault: Fault) returns (ok: bool)
      requires issued == retired + |streams| && snapshotClosed + closed == retired && OneStreamPerType(Abstract())
      modifies this`streams, this`closed, this`retired
      ensures issued == retired + |streams| && snapshotClosed + closed == retired
      ensures ok <==> !(fault.CloseFails? && exists s :: s in old(streams) && old(streams)[s].payloadType == payloadType)
      ensures ok ==> streams == Retire(old(streams), payloadType)
      ensures !ok ==> streams == NotClosed(old(streams), payloadType, fault.after, fault.left) && retired == old(retired)
    {
      ghost var before := streams;
      var todo := streams.Keys;
      while todo != {}
        invariant todo <= before.Keys
        invariant streams == Remaining(before, todo, payloadType)
        invariant fault.CloseFails? ==> streams == before && retired == old(retired)
        invariant issued == retired + |streams| && snapshotClosed + closed == retired
        decreases todo
      {
        var id :| id in todo;
        RemainingStep(before, todo, id, payloadType);
        if streams[id].payloadType == payloadType {
          if fault.CloseFails? {
            OneNotClosed(before, id, fault.after, fault.left);
            streams := streams[id := streams[id].(writer := fault.after, output := streams[id].output + fault.left)];
            return false;
          }
          closed := closed + 1;
          retired := retired + 1;
          RemoveOne(streams, id);
          streams := streams - {id};
        }
        todo := todo - {id};
      }
      assert streams == Retire(before, payloadType);
      ok := true;
    }

    static lemma OneNotClosed(before: Streams, id: string, after: Writer, left: seq<Frame>)
      requires id in before
      requires forall s :: s in before && s != id ==> before[s].payloadType != before[id].payloadType
      ensures before[id := before[id].(writer := after, output := before[id].output + left)] ==
              NotClosed(before, before[id].payloadType, after, left)
      ensures |NotClosed(before, before[id].payloadType, after, left)| == |before|
    {
      var kept := NotClosed(before, before[id].payloadType, after, left);
      assert kept.Keys == before.Keys;
      assert |kept| == |kept.Keys| && |before| == |before.Keys|;
    }

    /** What is left of `before` when only the ids in `todo` are still to be looked at. */
    static ghost function Remaining(before: Streams, todo: set<string>, payloadType: int): Streams {
      map s | s in before && (s in todo || before[s].payloadType != payloadType) :: before[s]
    }

    static lemma RemainingStep(before: Streams, todo: set<string>, id: string, payloadType: int)
      requires id in todo && todo <= before.Keys
      ensures var now := Remaining(before, todo, payloadType);
              id in now && now[id] == before[id] &&
              Remaining(before, todo - {id}, payloadType) ==
                if before[id].payloadType == payloadType then now - {id} else now
    {
    }

    static lemma RemoveOne(m: Streams, id: string)
      requires id in m
      ensures |m - {id}| == |m| - 1
    {
      assert (m - {id}).Keys == m.Keys - {id};
      assert |m.Keys| == |m.Keys - {id}| + 1;
    }

    /** The stream of a record's schema id, retiring and creating as needed. */
    method EnsureStream(rm: RecordMessage, fault: Fault) returns (ok: bool)
      requires Valid() && !shut
      modifies this`streams, this`closed, this`retired, this`nextSchemaId, this`created, this`issued
      ensures Counted()
      ensures ok <==> !(fault.CloseFails? && MustRetire(old(Abstract()), rm))
      ensures ok ==> Abstract() == OpenStream(old(Abstract()), rm)
      ensures !ok ==> Abstract() == old(Abstract()).(streams :=
                NotClosed(old(streams), rm.payloadType, fault.after, fault.left))
    {
      ok := true;
      if rm.schemaId !in streams {
        ok := RetireStreams(rm.payloadType, fault);
        if ok {
          CreateStream(rm);
        }
      }
    }

    /** A new stream under the next wire id. */
    method CreateStream(rm: RecordMessage)
      requires Counted() && rm.schemaId !in streams
      modifies this`streams, this`nextSchemaId, this`created, this`issued
      ensures Counted() && issued == old(issued) + 1
      ensures streams == old(streams)[rm.schemaId :=
                StreamProducer(WireId(old(issued)), rm.payloadType, NewWriter(rm.record.schema), [])]
    {
      WrapStep(issued);
      streams := streams[rm.schemaId :=
        StreamProducer(FormatInt(nextSchemaId), rm.payloadType, NewWriter(rm.record.schema), [])];
      nextSchemaId := Wrap64(nextSchemaId + 1);
      created := created + 1;
      issued := issued + 1;
    }

    /** Writes one record; the buffer is emptied only when nothing failed. */
    method WriteOne(rm: RecordMessage, fault: Fault) returns (r: Option<Payload>)
      requires rm.schemaId in streams
      modifies this`streams
      ensures (Abstract(), r) == WriteRecord(old(Abstract()), rm, fault)
    {
      var sp := streams[rm.schemaId];
      if fault.WriteFails? {
        streams := streams[rm.schemaId := sp.(writer := fault.after, output := sp.output + fault.left)];
        return None;
      }
      var written := Write(sp.writer, rm.record);
      if written == None {
        return None;
      }
      var buffer := sp.output + written.value.1;
      if fault.StatsFail? {
        streams := streams[rm.schemaId := sp.(writer := written.value.0, output := buffer)];
        return None;
      }
      streams := streams[rm.schemaId := sp.(writer := written.value.0, output := [])];
      r := Some(Payload(sp.wireId, rm.payloadType, buffer));
    }

    /** The body of the loop in `Produce`. */
    method ProduceOne(rm: RecordMessage, fault: Fault) returns (r: Option<Payload>)
      requires Valid() && !shut
      modifies this`streams, this`closed, this`retired, this`nextSchemaId, this`created, this`issued
      ensures Valid()
      ensures (Abstract(), r) == ProduceRecord(old(Abstract()), rm, fault)
    {
      UpdateKeeps(Abstract(), rm, fault);
      var ok := EnsureStream(rm, fault);
      if ok {
        r := WriteOne(rm, fault);
      } else {
        r := None;
      }
    }

    /** The loop in `Produce`, which stops at the first record that fails. */
    method ProduceAll(rms: seq<RecordMessage>, faults: seq<Fault>) returns (r: Option<seq<Payload>>)
      requires Valid() && !shut && |faults| == |rms|
      modifies this`streams, this`closed, this`retired, this`nextSchemaId, this`created, this`issued
      ensures Valid()
      ensures (Abstract(), r) == ProduceRecords(old(Abstract()), rms, faults)
    {
      var payloads: seq<Payload> := [];
      ghost var whole := ProduceRecords(Abstract(), rms, faults);
      assert rms[0..] == rms && faults[0..] == faults;
      PrependJoins([], [], whole);
      for i := 0 to |rms|
        invariant Valid()
        invariant whole == Prepend(payloads, ProduceRecords(Abstract(), rms[i..], faults[i..]))
      {
        Unroll(Abstract(), payloads, rms, faults, i);
        var payload := ProduceOne(rms[i], faults[i]);
        if payload == None {
          return None;
        }
        payloads := payloads + [payload.value];
      }
      assert payloads + [] == payloads;
      r := Some(payloads);
    }

    static lemma Unroll(p: State, done: seq<Payload>, rms: seq<RecordMessage>, faults: seq<Fault>, i: nat)
      requires |faults| == |rms| && i < |rms|
      ensures var (q, payload) := ProduceRecord(p, rms[i], faults[i]);
              Prepend(done, ProduceRecords(p, rms[i..], faults[i..])) ==
                if payload == None then (q, None)
                else Prepend(done + [payload.value], ProduceRecords(q, rms[i + 1..], faults[i + 1..]))
    {
      var (q, payload) := ProduceRecord(p, rms[i], faults[i]);
      assert rms[i..][1..] == rms[i + 1..] && faults[i..][1..] == faults[i + 1..];
      if payload.Some? {
        PrependJoins(done, [payload.value], ProduceRecords(q, rms[i + 1..], faults[i + 1..]));
      }
    }

    method Produce(rms: seq<RecordMessage>, faults: seq<Fault>) returns (r: Option<Batch>)
      requires Valid() && !shut && |faults| == |rms|
      modifies this`streams, this`closed, this`retired, this`nextSchemaId, this`created, this`issued,
               this`batchId, this`batches
      ensures Valid()
      ensures (Abstract(), r) == ProduceBatch(old(Abstract()), rms, faults)
      ensures snapshotCreated + created == snapshotClosed + closed + |streams|
    {
      var payloads := ProduceAll(rms, faults);
      if payloads == None {
        return None;
      }
      var id := NextBatchId();
      r := Some(Batch(id, payloads.value));
    }

    /** The batch id of this call; the counter moves on. */
    method NextBatchId() returns (id: int)
      requires Valid()
      modifies this`batchId, this`batches
      ensures Valid() && id == Wrap64(old(batches)) && batches == old(batches) + 1
    {
      id := batchId;
      WrapStep(batches);
      batchId := Wrap64(batchId + 1);
      batches := batches + 1;
    }

    /** Hands out the counters and starts them again from zero. */
    method GetAndResetStats() returns (createdSoFar: nat, closedSoFar: nat)
      requires Valid()
      modifies this`created, this`closed, this`snapshotCreated, this`snapshotClosed
      ensures Valid() && created == 0 && closed == 0
      ensures createdSoFar == old(created) && closedSoFar == old(closed)
      ensures snapshotCreated == old(snapshotCreated) + createdSoFar
      ensures snapshotClosed == old(snapshotClosed) + closedSoFar
    {
      createdSoFar, closedSoFar := created, closed;
      created, closed := 0, 0;
      snapshotCreated, snapshotClosed := snapshotCreated + createdSoFar, snapshotClosed + closedSoFar;
    }

    /** Closes every writer; `failing` are the streams whose writer reports an
        error, at which the loop stops. */
    method Close(failing: set<string>) returns (ok: bool)
      requires Valid() && !shut
      modifies this`closed, this`retired, this`shut
      ensures Valid() && shut
      ensures ok <==> failing !! streams.Keys
      ensures ok ==> snapshotCreated + created == snapshotClosed + closed
      ensures old(retired) <= retired <= issued
    {
      shut := true;
      var todo := streams.Keys;
      while todo != {}
        invariant shut && todo <= streams.Keys && streams.Keys - todo !! failing
        invariant retired + |todo| == issued && old(retired) <= retired
        invariant snapshotClosed + closed == retired
        decreases todo
      {
        var id :| id in todo;
        if id in failing {
          return false;
        }
        closed := closed + 1;
        retired := retired + 1;
        todo := todo - {id};
      }
      ok := true;
    }
  }
}
