/**
  What a failed call of `Produce` does to the lockstep of producer and consumer.

  The batch of a failed call is never sent, but the streams may have moved: by
  the records before the one that failed, whose payloads are dropped, and by the
  failing record itself.  The two sides stay level exactly when no stream moved.
 */
module LockstepFailures {
  import opened Options
  import opened Decimal
  import opened ArrowIpc
  import opened OtapProducer
  import opened OtapConsumer
  import opened Lockstep

  // ---------- where the streams of a later state come from ----------

  ghost predicate Inherited(p: State, q: State, s: string)
    requires s in q.streams
  {
    s in p.streams && p.streams[s].wireId == q.streams[s].wireId && p.streams[s].payloadType == q.streams[s].payloadType
  }

  ghost predicate Created(p: State, q: State, s: string)
    requires s in q.streams
  {
    exists k: nat :: p.issued <= k < q.issued && q.streams[s].wireId == WireId(k)
  }

  ghost predicate Origins(p: State, q: State) {
    forall s :: s in q.streams ==> Inherited(p, q, s) || Created(p, q, s)
  }

  ghost predicate Newest(q: State) {
    q.issued > 0 && exists s :: s in q.streams && q.streams[s].wireId == WireId(q.issued - 1)
  }

  /** Every stream of `q` was there in `p` or has an id issued since, and the one
      created last is still there. */
  ghost predicate Descends(p: State, q: State) {
    p.issued <= q.issued && Origins(p, q) &&
    (p.issued < q.issued ==> Newest(q)) && (p.issued == q.issued ==> q.streams.Keys == p.streams.Keys)
  }

  lemma OpenOrigins(p: State, rm: RecordMessage)
    requires rm.schemaId !in p.streams
    ensures Origins(p, OpenStream(p, rm))
  {
    var q := OpenStream(p, rm);
    forall s | s in q.streams ensures Inherited(p, q, s) || Created(p, q, s) {
      if s == rm.schemaId {
        assert p.issued <= p.issued < q.issued && q.streams[s].wireId == WireId(p.issued);
      } else {
        assert Inherited(p, q, s);
      }
    }
  }

  lemma OpenDescends(p: State, rm: RecordMessage)
    ensures Descends(p, OpenStream(p, rm))
  {
    var q := OpenStream(p, rm);
    if rm.schemaId !in p.streams {
      OpenOrigins(p, rm);
      assert rm.schemaId in q.streams && q.streams[rm.schemaId].wireId == WireId(q.issued - 1);
    }
  }

  lemma SameShapeOrigins(p: State, q: State, r: State)
    requires Origins(p, q) && SameShape(q, r)
    ensures Origins(p, r)
  {
    forall s | s in r.streams ensures Inherited(p, r, s) || Created(p, r, s) {
      assert q.streams[s].wireId == r.streams[s].wireId && q.streams[s].payloadType == r.streams[s].payloadType;
      if !Inherited(p, q, s) {
        var k: nat :| p.issued <= k < q.issued && q.streams[s].wireId == WireId(k);
        assert p.issued <= k < r.issued && r.streams[s].wireId == WireId(k);
      }
    }
  }

  lemma SameShapeNewest(q: State, r: State)
    requires Newest(q) && SameShape(q, r)
    ensures Newest(r)
  {
    var s :| s in q.streams && q.streams[s].wireId == WireId(q.issued - 1);
    assert s in r.streams && r.streams[s].wireId == WireId(r.issued - 1);
  }

  lemma SameShapeDescends(p: State, q: State, r: State)
    requires Descends(p, q) && SameShape(q, r)
    ensures Descends(p, r)
  {
    SameShapeOrigins(p, q, r);
    if p.issued < q.issued {
      SameShapeNewest(q, r);
    }
  }

  lemma RecordDescends(p: State, rm: RecordMessage, fault: Fault)
    ensures Descends(p, ProduceRecord(p, rm, fault).0)
  {
    ProduceRecordShape(p, rm, fault);
    OpenDescends(p, rm);
    SameShapeDescends(p, BeforeWriting(p, rm, fault), ProduceRecord(p, rm, fault).0);
  }

  lemma OriginsOn(p: State, q: State, r: State)
    requires Origins(p, q) && Origins(q, r) && p.issued <= q.issued <= r.issued
    ensures Origins(p, r)
  {
    forall s | s in r.streams ensures Inherited(p, r, s) || Created(p, r, s) {
      if Inherited(q, r, s) {
        if !Inherited(p, q, s) {
          var k: nat :| p.issued <= k < q.issued && q.streams[s].wireId == WireId(k);
          assert p.issued <= k < r.issued && r.streams[s].wireId == WireId(k);
        }
      } else {
        var k: nat :| q.issued <= k < r.issued && r.streams[s].wireId == WireId(k);
        assert p.issued <= k < r.issued;
      }
    }
  }

  lemma NewestOn(q: State, r: State)
    requires Descends(q, r) && q.issued == r.issued && Newest(q)
    ensures Newest(r)
  {
    var s :| s in q.streams && q.streams[s].wireId == WireId(q.issued - 1);
    assert s in r.streams;
    assert Inherited(q, r, s);
  }

  lemma DescendsOn(p: State, q: State, r: State)
    requires Descends(p, q) && Descends(q, r)
    ensures Descends(p, r)
  {
    OriginsOn(p, q, r);
    if p.issued < r.issued && q.issued == r.issued {
      NewestOn(q, r);
    }
  }

  lemma {:induction false} RecordsDescend(p: State, rms: seq<RecordMessage>, faults: seq<Fault>)
    requires |faults| == |rms|
    ensures Descends(p, ProduceRecords(p, rms, faults).0)
    decreases |rms|
  {
    if rms != [] {
      var (q, payload) := ProduceRecord(p, rms[0], faults[0]);
      RecordDescends(p, rms[0], faults[0]);
      if payload.Some? {
        RecordsDescend(q, rms[1..], faults[1..]);
        DescendsOn(p, q, ProduceRecords(q, rms[1..], faults[1..]).0);
      }
    }
  }

  /** An id issued since belongs to no stream there was before. */
  lemma CreatedIsNew(p: State, q: State, s: string, t: string)
    requires WireIdsIssued(p) && q.issued <= TWO_64 && s in q.streams && Created(p, q, s) && t in p.streams
    ensures q.streams[s].wireId != p.streams[t].wireId
  {
    var k: nat :| p.issued <= k < q.issued && q.streams[s].wireId == WireId(k);
    var j: nat :| j < p.issued && p.streams[t].wireId == WireId(j);
    WireIdsClose(j, k);
  }

  // ---------- level exactly when no stream moved ----------

  /** A reader mirrors one writer at most. */
  lemma MirroredWriter(v: Writer, w: Writer, r: Reader)
    requires Mirrors(v, r) && Mirrors(w, r)
    ensures v == w
  {
  }

  lemma NotCreated(p: State, q: State, c: Readers, s: string)
    requires InLockstep(p, c) && InLockstep(q, c) && Descends(p, q) && q.issued <= TWO_64 && s in q.streams
    ensures Inherited(p, q, s) && q.streams[s] == p.streams[s]
  {
    assert Twin(q.streams[s], c);
    var t :| t in p.streams && p.streams[t].wireId == q.streams[s].wireId;
    if Created(p, q, s) {
      CreatedIsNew(p, q, s, t);
    }
    assert Twin(p.streams[s], c);
    MirroredWriter(p.streams[s].writer, q.streams[s].writer, c[q.streams[s].wireId].reader.value);
  }

  lemma NotRetired(p: State, q: State, c: Readers, s: string)
    requires InLockstep(p, c) && InLockstep(q, c) && Descends(p, q) && q.issued <= TWO_64 && s in p.streams
    ensures s in q.streams
  {
    assert Twin(p.streams[s], c);
    var t :| t in q.streams && q.streams[t].wireId == p.streams[s].wireId;
    NotCreated(p, q, c, t);
    assert t == s;
  }

  predicate Carried(a: Streams, b: Streams, s: string) { s in a && s in b && a[s] == b[s] }

  lemma EqualStreams(a: Streams, b: Streams)
    requires (forall s :: s in a ==> Carried(a, b, s)) && (forall s :: s in b ==> Carried(a, b, s))
    ensures a == b
  {
  }

  lemma LevelStreams(p: State, q: State, c: Readers)
    requires InLockstep(p, c) && InLockstep(q, c) && Descends(p, q) && q.issued <= TWO_64
    ensures p.streams == q.streams
  {
    forall s | s in q.streams ensures Carried(p.streams, q.streams, s) {
      NotCreated(p, q, c, s);
    }
    forall s | s in p.streams ensures Carried(p.streams, q.streams, s) {
      NotRetired(p, q, c, s);
      NotCreated(p, q, c, s);
    }
    EqualStreams(p.streams, q.streams);
  }

  /** From lockstep, a later state is level with the same consumer exactly when
      it has the same streams. */
  lemma LevelExactly(p: State, q: State, c: Readers)
    requires InLockstep(p, c) && Descends(p, q) && q.issued <= TWO_64
    ensures InLockstep(q, c) <==> q.streams == p.streams
  {
    if InLockstep(q, c) {
      LevelStreams(p, q, c);
    } else if q.streams == p.streams {
      StillIssuedAll(p, q);
    }
  }

  lemma StillIssuedAll(p: State, q: State)
    requires WireIdsIssued(p) && q.streams == p.streams && p.issued <= q.issued
    ensures WireIdsIssued(q)
  {
    forall s | s in q.streams ensures exists k: nat :: k < q.issued && q.streams[s].wireId == WireId(k) {
      StillIssued(p, s, q.issued);
    }
  }

  /** The batch of a failed call is not sent.  The consumer is level with the
      producer afterwards exactly when the call moved no stream. */
  lemma FailedCallExactly(p: State, c: Readers, rms: seq<RecordMessage>, faults: seq<Fault>)
    requires |faults| == |rms| && InLockstep(p, c) && ProduceBatch(p, rms, faults).1 == None
    requires ProduceBatch(p, rms, faults).0.issued <= TWO_64
    ensures var q := ProduceBatch(p, rms, faults).0;
            InLockstep(q, c) <==> q.streams == p.streams
  {
    RecordsDescend(p, rms, faults);
    LevelExactly(p, ProduceBatch(p, rms, faults).0, c);
  }

  // ---------- when no stream moves, in terms of the records ----------

  /** Every stream has sent its schema and has an empty buffer. */
  ghost predicate Flushed(streams: Streams) {
    forall s :: s in streams ==> streams[s].writer.started && streams[s].output == []
  }

  ghost predicate OnlyLive(streams: Streams, rms: seq<RecordMessage>) {
    forall i :: 0 <= i < |rms| ==> rms[i].schemaId in streams
  }

  /** The dictionary of column `j` that the records send last on the stream of
      schema id `s`. */
  function LastDictionary(rms: seq<RecordMessage>, s: string, j: nat): Option<seq<int>> {
    if rms == [] then None
    else
      var later := LastDictionary(rms[1..], s, j);
      if later.Some? then later
      else if rms[0].schemaId == s && j < |rms[0].record.columns| && rms[0].record.columns[j].Encoded? then
        Some(rms[0].record.columns[j].dictionary)
      else None
  }

  /** Each column's last dictionary is the one the stream had before. */
  ghost predicate Repeats(rms: seq<RecordMessage>, s: string, dicts: Dictionaries) {
    forall j: nat :: LastDictionary(rms, s, j).Some? ==> j in dicts && dicts[j] == LastDictionary(rms, s, j).value
  }

  predicate NotRetiring(p: State, rm: RecordMessage, fault: Fault) { fault.CloseFails? && MustRetire(p, rm) }

  /** The record that fails creates no stream and leaves the writer and the
      buffer it used or tried to close as they were. */
  ghost predicate Silent(p: State, rm: RecordMessage, fault: Fault) {
    (NotRetiring(p, rm, fault) && fault.left == [] &&
     forall s :: s in p.streams && p.streams[s].payloadType == rm.payloadType ==> p.streams[s].writer == fault.after) ||
    (rm.schemaId in p.streams &&
     if fault.WriteFails? then fault.left == [] && fault.after == p.streams[rm.schemaId].writer
     else Write(p.streams[rm.schemaId].writer, rm.record) == None)
  }

  /** The failed write or close decides what is left in the writer of this stream. */
  predicate Overwritten(p: State, rm: RecordMessage, fault: Fault, s: string)
    requires s in p.streams
  {
    (fault.WriteFails? && rm.schemaId == s) ||
    (NotRetiring(p, rm, fault) && p.streams[s].payloadType == rm.payloadType)
  }

  /** A call whose records `done` succeed and whose next record fails moves no
      stream: they all use live streams and dictionaries already sent, and the
      record that fails leaves nothing behind. */
  ghost predicate Unmoved(p: State, done: seq<RecordMessage>, rm: RecordMessage, fault: Fault) {
    OnlyLive(p.streams, done) && Silent(p, rm, fault) &&
    forall s :: s in p.streams ==> Overwritten(p, rm, fault, s) || Repeats(done, s, p.streams[s].writer.dicts)
  }

  // The dictionaries of a stream after some records.

  function DictsAfter(rms: seq<RecordMessage>, s: string, dicts: Dictionaries): Dictionaries
    decreases |rms|
  {
    if rms == [] then dicts
    else DictsAfter(rms[1..], s, if rms[0].schemaId == s then DictionariesAfter(rms[0].record.columns, 0, dicts) else dicts)
  }

  lemma {:induction false} DictionaryAt(columns: seq<Column>, i: nat, dicts: Dictionaries, j: nat)
    requires i <= |columns|
    ensures var after := DictionariesAfter(columns, i, dicts);
            var sent := i <= j < |columns| && columns[j].Encoded?;
            (j in after <==> sent || j in dicts) &&
            (j in after ==> after[j] == if sent then columns[j].dictionary else dicts[j])
    decreases |columns| - i
  {
    if i < |columns| {
      match columns[i]
      case Values(_) => DictionaryAt(columns, i + 1, dicts, j);
      case Encoded(d, _) => DictionaryAt(columns, i + 1, dicts[i := d], j);
    }
  }

  lemma {:induction false} DictAfterAt(rms: seq<RecordMessage>, s: string, dicts: Dictionaries, j: nat)
    ensures var after, last := DictsAfter(rms, s, dicts), LastDictionary(rms, s, j);
            (j in after <==> last.Some? || j in dicts) &&
            (j in after ==> after[j] == if last.Some? then last.value else dicts[j])
    decreases |rms|
  {
    if rms != [] {
      var next := if rms[0].schemaId == s then DictionariesAfter(rms[0].record.columns, 0, dicts) else dicts;
      DictAfterAt(rms[1..], s, next, j);
      DictionaryAt(rms[0].record.columns, 0, dicts, j);
    }
  }

  lemma RepeatsExactly(rms: seq<RecordMessage>, s: string, dicts: Dictionaries)
    ensures DictsAfter(rms, s, dicts) == dicts <==> Repeats(rms, s, dicts)
  {
    var after := DictsAfter(rms, s, dicts);
    if after == dicts {
      forall j: nat | LastDictionary(rms, s, j).Some?
        ensures j in dicts && dicts[j] == LastDictionary(rms, s, j).value
      {
        DictAfterAt(rms, s, dicts, j);
      }
    }
    if Repeats(rms, s, dicts) {
      forall j: nat ensures (j in after <==> j in dicts) && (j in after ==> after[j] == dicts[j]) {
        DictAfterAt(rms, s, dicts, j);
      }
    }
  }

  // The streams after records that are all on live streams.

  function Replay(sp: StreamProducer, s: string, rms: seq<RecordMessage>): StreamProducer {
    sp.(writer := sp.writer.(dicts := DictsAfter(rms, s, sp.writer.dicts)))
  }

  /** `q` is `p` after the records, stream by stream. */
  ghost predicate Replayed(p: State, q: State, rms: seq<RecordMessage>) {
    q.issued == p.issued && q.streams.Keys == p.streams.Keys &&
    forall s :: s in p.streams ==> q.streams[s] == Replay(p.streams[s], s, rms)
  }

  lemma LiveRecord(p: State, rm: RecordMessage, fault: Fault)
    requires Flushed(p.streams) && rm.schemaId in p.streams && ProduceRecord(p, rm, fault).1.Some?
    ensures Replayed(p, ProduceRecord(p, rm, fault).0, [rm]) && Flushed(ProduceRecord(p, rm, fault).0.streams)
  {
    var q := ProduceRecord(p, rm, fault).0;
    assert [rm][1..] == [];
    forall s | s in p.streams ensures q.streams[s] == Replay(p.streams[s], s, [rm]) {
      assert DictsAfter([rm], s, p.streams[s].writer.dicts) ==
             if rm.schemaId == s then DictionariesAfter(rm.record.columns, 0, p.streams[s].writer.dicts)
             else p.streams[s].writer.dicts;
    }
  }

  lemma ReplayedOn(p: State, q: State, r: State, rm: RecordMessage, rest: seq<RecordMessage>)
    requires Replayed(p, q, [rm]) && Replayed(q, r, rest)
    ensures Replayed(p, r, [rm] + rest)
  {
    forall s | s in p.streams ensures r.streams[s] == Replay(p.streams[s], s, [rm] + rest) {
      assert q.streams[s] == Replay(p.streams[s], s, [rm]);
      assert r.streams[s] == Replay(q.streams[s], s, rest);
      DictsAfterFirst(rm, rest, s, p.streams[s].writer.dicts);
    }
  }

  lemma DictsAfterFirst(rm: RecordMessage, rest: seq<RecordMessage>, s: string, dicts: Dictionaries)
    ensures DictsAfter([rm] + rest, s, dicts) == DictsAfter(rest, s, DictsAfter([rm], s, dicts))
  {
    assert [rm][1..] == [] && ([rm] + rest)[1..] == rest;
    var next := if rm.schemaId == s then DictionariesAfter(rm.record.columns, 0, dicts) else dicts;
    assert DictsAfter([rm], s, dicts) == DictsAfter([], s, next) == next;
  }

  lemma {:induction false} LiveRecords(p: State, rms: seq<RecordMessage>, faults: seq<Fault>)
    requires |faults| == |rms| && Flushed(p.streams) && OnlyLive(p.streams, rms) && ProduceRecords(p, rms, faults).1.Some?
    ensures Replayed(p, ProduceRecords(p, rms, faults).0, rms) && Flushed(ProduceRecords(p, rms, faults).0.streams)
    decreases |rms|
  {
    if rms != [] {
      var q := ProduceRecord(p, rms[0], faults[0]).0;
      ProduceFirst(p, rms, faults);
      LiveRecord(p, rms[0], faults[0]);
      LiveRecords(q, rms[1..], faults[1..]);
      ReplayedOn(p, q, ProduceRecords(p, rms, faults).0, rms[0], rms[1..]);
      assert [rms[0]] + rms[1..] == rms;
    }
  }

  lemma CreatesOne(p: State, rm: RecordMessage, fault: Fault)
    requires ProduceRecord(p, rm, fault).1.Some?
    ensures var q := ProduceRecord(p, rm, fault).0;
            if rm.schemaId in p.streams then q.issued == p.issued && q.streams.Keys == p.streams.Keys
            else q.issued == p.issued + 1
  {
  }

  lemma OnlyLiveFirst(streams: Streams, rms: seq<RecordMessage>)
    requires rms != []
    ensures OnlyLive(streams, rms) <==> rms[0].schemaId in streams && OnlyLive(streams, rms[1..])
  {
    assert rms == [rms[0]] + rms[1..];
  }

  /** Records that succeed create a stream exactly when one is not on a live stream. */
  lemma {:induction false} CreatesNone(p: State, rms: seq<RecordMessage>, faults: seq<Fault>)
    requires |faults| == |rms| && ProduceRecords(p, rms, faults).1.Some?
    ensures p.issued <= ProduceRecords(p, rms, faults).0.issued
    ensures p.issued == ProduceRecords(p, rms, faults).0.issued <==> OnlyLive(p.streams, rms)
    decreases |rms|
  {
    if rms != [] {
      var q := ProduceRecord(p, rms[0], faults[0]).0;
      ProduceFirst(p, rms, faults);
      CreatesOne(p, rms[0], faults[0]);
      CreatesNone(q, rms[1..], faults[1..]);
      OnlyLiveFirst(p.streams, rms);
    }
  }

  /** A state with a stream created since has other streams. */
  lemma CreatingMoves(p: State, q: State)
    requires WireIdsIssued(p) && Descends(p, q) && p.issued < q.issued <= TWO_64
    ensures q.streams != p.streams
  {
    var s :| s in q.streams && q.streams[s].wireId == WireId(q.issued - 1);
    if s in p.streams {
      assert p.issued <= q.issued - 1 < q.issued;
      CreatedIsNew(p, q, s, s);
    }
  }

  lemma ReplayedExactly(p: State, q: State, rms: seq<RecordMessage>, s: string)
    requires Replayed(p, q, rms) && s in p.streams
    ensures q.streams[s] == p.streams[s] <==> Repeats(rms, s, p.streams[s].writer.dicts)
  {
    RepeatsExactly(rms, s, p.streams[s].writer.dicts);
  }

  // The record that fails.

  /** After records on live streams, a failing record meets the state it would
      have met without them. */
  lemma SameToFailing(p: State, m: State, done: seq<RecordMessage>, rm: RecordMessage)
    requires Replayed(p, m, done)
    ensures MustRetire(m, rm) <==> MustRetire(p, rm)
    ensures rm.schemaId in p.streams ==>
            (Write(m.streams[rm.schemaId].writer, rm.record) == None <==> Write(p.streams[rm.schemaId].writer, rm.record) == None)
  {
    assert forall s :: s in p.streams ==> m.streams[s].payloadType == p.streams[s].payloadType;
  }

  /** A failure on a live stream that is not silent leaves another writer or
      something in the buffer. */
  lemma LoudFailure(p: State, m: State, done: seq<RecordMessage>, rm: RecordMessage, fault: Fault)
    requires Replayed(p, m, done) && Flushed(p.streams) && ProduceRecord(m, rm, fault).1 == None
    requires rm.schemaId in p.streams && !Silent(p, rm, fault)
    ensures ProduceRecord(m, rm, fault).0.streams != p.streams
  {
    var q := ProduceRecord(m, rm, fault).0;
    SameToFailing(p, m, done, rm);
    var sp := p.streams[rm.schemaId];
    assert m.streams[rm.schemaId] == Replay(sp, rm.schemaId, done);
    if fault.WriteFails? {
      assert [] + fault.left == fault.left;
      assert q.streams[rm.schemaId] == sp.(writer := fault.after, output := fault.left);
    } else {
      assert q.streams[rm.schemaId].output != [];
    }
  }

  lemma LoudClose(p: State, m: State, done: seq<RecordMessage>, rm: RecordMessage, fault: Fault)
    requires Replayed(p, m, done) && Flushed(p.streams) && NotRetiring(p, rm, fault) && !Silent(p, rm, fault)
    ensures ProduceRecord(m, rm, fault).0.streams != p.streams
  {
    SameToFailing(p, m, done, rm);
    var q := ProduceRecord(m, rm, fault).0;
    var s :| s in p.streams && p.streams[s].payloadType == rm.payloadType &&
             (fault.left == [] ==> p.streams[s].writer != fault.after);
    assert m.streams[s] == Replay(p.streams[s], s, done);
    assert q.streams[s] == m.streams[s].(writer := fault.after, output := [] + fault.left);
  }

  /** A record that fails and creates a stream, or leaves something in a buffer,
      has moved a stream. */
  lemma LoudFailureMoves(p: State, m: State, done: seq<RecordMessage>, rm: RecordMessage, fault: Fault)
    requires Replayed(p, m, done) && Flushed(p.streams) && WireIdsIssued(p) && ProduceRecord(m, rm, fault).1 == None
    requires ProduceRecord(m, rm, fault).0.issued <= TWO_64 && Descends(p, ProduceRecord(m, rm, fault).0)
    requires !Silent(p, rm, fault)
    ensures ProduceRecord(m, rm, fault).0.streams != p.streams
  {
    SameToFailing(p, m, done, rm);
    if NotRetiring(p, rm, fault) {
      LoudClose(p, m, done, rm, fault);
    } else if rm.schemaId in p.streams {
      LoudFailure(p, m, done, rm, fault);
    } else {
      FailureCreates(m, rm, fault);
      CreatingMoves(p, ProduceRecord(m, rm, fault).0);
    }
  }

  lemma FailureCreates(m: State, rm: RecordMessage, fault: Fault)
    requires rm.schemaId !in m.streams && !(fault.CloseFails? && MustRetire(m, rm))
    ensures ProduceRecord(m, rm, fault).0.issued == m.issued + 1
  {
  }

  /** A silent failure changes at most the writer it overwrites. */
  lemma SilentFailure(p: State, m: State, done: seq<RecordMessage>, rm: RecordMessage, fault: Fault, s: string)
    requires Replayed(p, m, done) && Flushed(p.streams) && ProduceRecord(m, rm, fault).1 == None
    requires Silent(p, rm, fault) && s in p.streams
    ensures var q := ProduceRecord(m, rm, fault).0;
            s in q.streams && q.streams[s] == if Overwritten(p, rm, fault, s) then p.streams[s] else m.streams[s]
  {
    SameToFailing(p, m, done, rm);
    if Overwritten(p, rm, fault, s) {
      assert m.streams[s] == Replay(p.streams[s], s, done);
      assert [] + fault.left == [];
    }
  }

  lemma SilentKeys(p: State, m: State, done: seq<RecordMessage>, rm: RecordMessage, fault: Fault)
    requires Replayed(p, m, done) && ProduceRecord(m, rm, fault).1 == None && Silent(p, rm, fault)
    ensures ProduceRecord(m, rm, fault).0.streams.Keys == p.streams.Keys
  {
    SameToFailing(p, m, done, rm);
  }

  lemma SilentFailureExactly(p: State, m: State, done: seq<RecordMessage>, rm: RecordMessage, fault: Fault)
    requires Replayed(p, m, done) && Flushed(p.streams) && ProduceRecord(m, rm, fault).1 == None && Silent(p, rm, fault)
    ensures var q := ProduceRecord(m, rm, fault).0;
            q.streams == p.streams <==>
            forall s :: s in p.streams ==> Overwritten(p, rm, fault, s) || Repeats(done, s, p.streams[s].writer.dicts)
  {
    var q := ProduceRecord(m, rm, fault).0;
    SilentKeys(p, m, done, rm, fault);
    forall s | s in p.streams
      ensures q.streams[s] == p.streams[s] <==>
              Overwritten(p, rm, fault, s) || Repeats(done, s, p.streams[s].writer.dicts)
    {
      SilentFailure(p, m, done, rm, fault, s);
      ReplayedExactly(p, m, done, s);
    }
  }

  lemma UnmovedExactly(p: State, done: seq<RecordMessage>, faults: seq<Fault>, rm: RecordMessage, fault: Fault)
    requires |faults| == |done| && Flushed(p.streams) && WireIdsIssued(p) && ProduceRecords(p, done, faults).1.Some?
    requires var m := ProduceRecords(p, done, faults).0;
             ProduceRecord(m, rm, fault).1 == None && ProduceRecord(m, rm, fault).0.issued <= TWO_64
    ensures var q := ProduceRecord(ProduceRecords(p, done, faults).0, rm, fault).0;
            q.streams == p.streams <==> Unmoved(p, done, rm, fault)
  {
    var m := ProduceRecords(p, done, faults).0;
    var q := ProduceRecord(m, rm, fault).0;
    RecordsDescend(p, done, faults);
    RecordDescends(m, rm, fault);
    DescendsOn(p, m, q);
    CreatesNone(p, done, faults);
    if !OnlyLive(p.streams, done) {
      CreatingMoves(p, q);
    } else {
      LiveRecords(p, done, faults);
      if Silent(p, rm, fault) {
        SilentFailureExactly(p, m, done, rm, fault);
      } else {
        LoudFailureMoves(p, m, done, rm, fault);
      }
    }
  }

  // ---------- the whole failed call ----------

  /** A call that fails does so at one record, and the records before succeed. */
  lemma {:induction false} FailsSomewhere(p: State, rms: seq<RecordMessage>, faults: seq<Fault>) returns (n: nat)
    requires |faults| == |rms| && ProduceRecords(p, rms, faults).1 == None
    ensures n < |rms| && ProduceRecords(p, rms[..n], faults[..n]).1.Some?
    ensures ProduceRecord(ProduceRecords(p, rms[..n], faults[..n]).0, rms[n], faults[n]) ==
            (ProduceRecords(p, rms, faults).0, None)
    decreases |rms|
  {
    var (q, payload) := ProduceRecord(p, rms[0], faults[0]);
    if payload == None {
      n := 0;
      assert rms[..0] == [] && faults[..0] == [];
    } else {
      var k := FailsSomewhere(q, rms[1..], faults[1..]);
      n := k + 1;
      assert rms[..n][1..] == rms[1..][..k] && faults[..n][1..] == faults[1..][..k];
      assert rms[..n][0] == rms[0] && faults[..n][0] == faults[0];
    }
  }

  lemma PairedFlushed(p: State, c: Readers)
    requires InLockstep(p, c)
    ensures Flushed(p.streams)
  {
    forall s | s in p.streams ensures p.streams[s].writer.started && p.streams[s].output == [] {
      assert Twin(p.streams[s], c);
    }
  }

  /** After a failed call the two sides are still level exactly when the records
      before the failing one used live streams and sent no dictionary but those
      their streams had, and the failing one left nothing behind. */
  lemma FailedCallInRecords(p: State, c: Readers, rms: seq<RecordMessage>, faults: seq<Fault>) returns (n: nat)
    requires |faults| == |rms| && InLockstep(p, c) && ProduceBatch(p, rms, faults).1 == None
    requires ProduceBatch(p, rms, faults).0.issued <= TWO_64
    ensures n < |rms| && ProduceRecords(p, rms[..n], faults[..n]).1.Some?
    ensures ProduceRecord(ProduceRecords(p, rms[..n], faults[..n]).0, rms[n], faults[n]).1 == None
    ensures InLockstep(ProduceBatch(p, rms, faults).0, c) <==> Unmoved(p, rms[..n], rms[n], faults[n])
  {
    n := FailsSomewhere(p, rms, faults);
    PairedFlushed(p, c);
    UnmovedExactly(p, rms[..n], faults[..n], rms[n], faults[n]);
    FailedCallExactly(p, c, rms, faults);
  }

  // ---------- whole runs ----------

  /** The records of each call that succeeds, the batches numbered from `n` on. */
  function ExpectedSent(n: nat, p: State, run: Run): seq<Result>
    decreases |run|
  {
    if run == [] then []
    else
      var (q, batch) := ProduceBatch(p, run[0].rms, run[0].faults);
      if batch == None then ExpectedSent(n, q, run[1..])
      else [Delivered(Expected(Wrap64(n), run[0].rms))] + ExpectedSent(n + 1, q, run[1..])
  }

  /** No failed call of the run moves a stream. */
  predicate Harmless(p: State, run: Run)
    decreases |run|
  {
    run == [] ||
    var (q, batch) := ProduceBatch(p, run[0].rms, run[0].faults);
    (batch == None ==> q.streams == p.streams) && Harmless(q, run[1..])
  }

  /** The two sides are level before and after every call, when the batches of
      the successful ones arrive. */
  ghost predicate AlwaysLevel(p: State, c: Readers, run: Run)
    decreases |run|
  {
    InLockstep(p, c) &&
    (run == [] ||
     var (q, batch) := ProduceBatch(p, run[0].rms, run[0].faults);
     AlwaysLevel(q, if batch == None then c else ConsumeBatch(c, batch.value).0, run[1..]))
  }

  /** The first call of a run, whether it succeeds or fails. */
  lemma {:induction false} FirstCall(p: State, c: Readers, run: Run)
    requires run != [] && InLockstep(p, c) && After(p, run).issued <= TWO_64
    ensures var (q, batch) := ProduceBatch(p, run[0].rms, run[0].faults);
            if batch == None then q.batches == p.batches && (InLockstep(q, c) <==> q.streams == p.streams)
            else
              q.batches == p.batches + 1 && batch.value.batchId == Wrap64(p.batches) &&
              var (d, r) := ConsumeBatch(c, batch.value);
              r == Delivered(Expected(batch.value.batchId, run[0].rms)) && InLockstep(q, d)
  {
    var (q, batch) := ProduceBatch(p, run[0].rms, run[0].faults);
    IssuedConsecutively(q, run[1..]);
    BatchesUnchanged(p, run[0].rms, run[0].faults);
    if batch == None {
      FailedCallExactly(p, c, run[0].rms, run[0].faults);
    } else {
      BatchTogether(p, c, run[0].rms, run[0].faults);
    }
  }

  /** Over any run the two sides stay level exactly when no failed call moves a
      stream. */
  lemma {:induction false} LevelExactlyWhenHarmless(p: State, c: Readers, run: Run)
    requires InLockstep(p, c) && After(p, run).issued <= TWO_64
    ensures AlwaysLevel(p, c, run) <==> Harmless(p, run)
    decreases |run|
  {
    if run != [] {
      var (q, batch) := ProduceBatch(p, run[0].rms, run[0].faults);
      var d := if batch == None then c else ConsumeBatch(c, batch.value).0;
      FirstCall(p, c, run);
      if InLockstep(q, d) {
        LevelExactlyWhenHarmless(q, d, run[1..]);
      }
    }
  }

  /** A failed call leaves only what comes after it. */
  lemma {:induction false} SkipFailed(p: State, c: Readers, run: Run) returns (q: State)
    requires run != [] && InLockstep(p, c) && After(p, run).issued <= TWO_64 && Harmless(p, run)
    requires ProduceBatch(p, run[0].rms, run[0].faults).1 == None
    ensures InLockstep(q, c) && Harmless(q, run[1..]) && q.batches == p.batches && After(q, run[1..]) == After(p, run)
    ensures Batches(p, run) == Batches(q, run[1..]) && ExpectedSent(p.batches, p, run) == ExpectedSent(q.batches, q, run[1..])
  {
    q := ProduceBatch(p, run[0].rms, run[0].faults).0;
    FirstCall(p, c, run);
  }

  /** A successful call, its batch, and the two sides after it. */
  lemma {:induction false} SendFirst(p: State, c: Readers, run: Run) returns (q: State, batch: Batch, d: Readers)
    requires run != [] && InLockstep(p, c) && After(p, run).issued <= TWO_64 && Harmless(p, run)
    requires ProduceBatch(p, run[0].rms, run[0].faults).1.Some?
    ensures InLockstep(q, d) && Harmless(q, run[1..]) && q.batches == p.batches + 1 && After(q, run[1..]) == After(p, run)
    ensures Batches(p, run) == [batch] + Batches(q, run[1..])
    ensures ExpectedSent(p.batches, p, run) == [ConsumeBatch(c, batch).1] + ExpectedSent(q.batches, q, run[1..])
    ensures ConsumeBatch(c, batch).0 == d
  {
    q := ProduceBatch(p, run[0].rms, run[0].faults).0;
    batch := ProduceBatch(p, run[0].rms, run[0].faults).1.value;
    d := ConsumeBatch(c, batch).0;
    FirstCall(p, c, run);
    BatchesFirst(p, run);
  }

  /** Over every such run, with its failures, each successful call's records
      arrive as they were sent, under consecutive batch ids, and the consumer
      ends holding the producer's streams. */
  lemma HarmlessRunDelivers(p: State, c: Readers, run: Run)
    requires InLockstep(p, c) && After(p, run).issued <= TWO_64 && Harmless(p, run)
    ensures Transmit(p, c, run) == ExpectedSent(p.batches, p, run)
    ensures InLockstep(After(p, run), ConsumerAfter(c, Batches(p, run)))
  {
    HarmlessArrives(p, c, run);
    HarmlessEndsLevel(p, c, run);
  }

  lemma {:induction false} HarmlessArrives(p: State, c: Readers, run: Run)
    requires InLockstep(p, c) && After(p, run).issued <= TWO_64 && Harmless(p, run)
    ensures Deliveries(c, Batches(p, run)) == ExpectedSent(p.batches, p, run)
    decreases |run|
  {
    if run == [] {
    } else if ProduceBatch(p, run[0].rms, run[0].faults).1 == None {
      var q := SkipFailed(p, c, run);
      HarmlessArrives(q, c, run[1..]);
    } else {
      var q, batch, d := SendFirst(p, c, run);
      HarmlessArrives(q, d, run[1..]);
      DeliveriesFirst(c, batch, Batches(q, run[1..]));
    }
  }

  lemma {:induction false} HarmlessEndsLevel(p: State, c: Readers, run: Run)
    requires InLockstep(p, c) && After(p, run).issued <= TWO_64 && Harmless(p, run)
    ensures InLockstep(After(p, run), ConsumerAfter(c, Batches(p, run)))
    decreases |run|
  {
    if run == [] {
    } else if ProduceBatch(p, run[0].rms, run[0].faults).1 == None {
      var q := SkipFailed(p, c, run);
      HarmlessEndsLevel(q, c, run[1..]);
    } else {
      var q, batch, d := SendFirst(p, c, run);
      HarmlessEndsLevel(q, d, run[1..]);
      DeliveriesFirst(c, batch, Batches(q, run[1..]));
    }
  }

  // ---------- what a lost payload does to the data ----------

  /** A dictionary grew from `d0` to `d1` in a record that is lost, and grows to
      `d2` in the next: the reader appends the second piece to the old
      dictionary and returns another record than was written. */
  lemma LostDelta(w: Writer, r: Reader, lost: Record, next: Record)
    requires Mirrors(w, r) && 0 in w.dicts && lost.schema == next.schema == w.schema
    requires |lost.columns| == |next.columns| == 1 && lost.columns[0].Encoded? && next.columns[0].Encoded?
    requires w.dicts[0] < lost.columns[0].dictionary < next.columns[0].dictionary
    ensures Write(w, lost).Some? && Write(Write(w, lost).value.0, next).Some?
    ensures var frames := Write(Write(w, lost).value.0, next).value.1;
            Next(r, frames).record == Some(Misread(w, lost, next)) && Misread(w, lost, next) != next
  {
    var d0, d1, d2 := w.dicts[0], lost.columns[0].dictionary, next.columns[0].dictionary;
    OneColumn(lost.columns, w.dicts);
    var v := Write(w, lost).value.0;
    OneColumn(next.columns, v.dicts);
    var delta, batch := DictionaryFrame(0, true, d2[|d1|..]), BatchFrame(Bodies(next.columns));
    assert v.dicts == w.dicts[0 := d1];
    assert Write(v, next).value.1 == [delta, batch];
    assert [delta, batch][1..] == [batch];
    var dicts := r.dicts[0 := d0 + d2[|d1|..]];
    assert Next(r, [delta, batch]) == Next(r.(dicts := dicts), [batch]);
    assert Resolvable(Bodies(next.columns), dicts);
    assert Resolve(Bodies(next.columns), dicts).value == Misread(w, lost, next).columns;
  }

  /** The next record with the lost piece missing from its dictionary. */
  function Misread(w: Writer, lost: Record, next: Record): (r: Record)
    requires |lost.columns| == |next.columns| == 1 && lost.columns[0].Encoded? && next.columns[0].Encoded? && 0 in w.dicts
    requires w.dicts[0] < lost.columns[0].dictionary < next.columns[0].dictionary
    ensures r != next
  {
    var d1, d2 := lost.columns[0].dictionary, next.columns[0].dictionary;
    assert |w.dicts[0] + d2[|d1|..]| < |d2|;
    next.(columns := [Encoded(w.dicts[0] + d2[|d1|..], next.columns[0].keys)])
  }

  lemma OneColumn(columns: seq<Column>, dicts: Dictionaries)
    requires |columns| == 1 && columns[0].Encoded?
    ensures DictionaryFrames(columns, 0, dicts) == DictionaryUpdate(0, columns[0].dictionary, dicts)
    ensures DictionariesAfter(columns, 0, dicts) == dicts[0 := columns[0].dictionary]
  {
    var d := columns[0].dictionary;
    assert DictionaryFrames(columns, 1, dicts[0 := d]) == [];
    assert DictionaryUpdate(0, d, dicts) + [] == DictionaryUpdate(0, d, dicts);
  }

  /** A call writes `lost` and then fails at a record of another stream; the next
      call sends `next`.  The consumer accepts it and delivers a record that was
      never written. */
  lemma LostPayloadCorrupts(p: State, c: Readers, lost: RecordMessage, bad: RecordMessage, after: Writer, left: seq<Frame>, next: RecordMessage)
    requires InLockstep(p, c) && lost.schemaId in p.streams && next.schemaId == lost.schemaId
    requires bad.schemaId in p.streams && bad.schemaId != lost.schemaId
    requires Grows(p.streams[lost.schemaId].writer, lost.record, next.record)
    ensures ProduceBatch(p, [lost, bad], [NoFault, WriteFails(after, left)]).1 == None
    ensures var q := ProduceBatch(p, [lost, bad], [NoFault, WriteFails(after, left)]).0;
            var batch := ProduceBatch(q, [next], [NoFault]).1;
            batch.Some? &&
            var wrong := Misread(p.streams[lost.schemaId].writer, lost.record, next.record);
            wrong != next.record &&
            ConsumeBatch(c, batch.value).1 == Delivered([Decoded(batch.value.batchId, next.payloadType, wrong)])
  {
    var sp := p.streams[lost.schemaId];
    assert Twin(sp, c);
    var reader := c[sp.wireId].reader.value;
    LostDelta(sp.writer, reader, lost.record, next.record);
    var v := Write(sp.writer, lost.record).value.0;
    var frames := Write(v, next.record).value.1;
    var q := ProduceBatch(p, [lost, bad], [NoFault, WriteFails(after, left)]).0;
    FailsAtSecond(p, lost, bad, after, left);
    assert q.streams[lost.schemaId] == sp.(writer := v, output := []);
    OneRecordCall(q, next);
    OnePayload(c, Payload(sp.wireId, next.payloadType, frames), Wrap64(q.batches));
  }

  /** One dictionary column, which grows in both records. */
  ghost predicate Grows(w: Writer, lost: Record, next: Record) {
    0 in w.dicts && lost.schema == next.schema == w.schema &&
    |lost.columns| == |next.columns| == 1 && lost.columns[0].Encoded? && next.columns[0].Encoded? &&
    w.dicts[0] < lost.columns[0].dictionary < next.columns[0].dictionary
  }

  lemma FailsAtSecond(p: State, first: RecordMessage, bad: RecordMessage, after: Writer, left: seq<Frame>)
    requires first.schemaId in p.streams && bad.schemaId in p.streams && bad.schemaId != first.schemaId
    requires Write(p.streams[first.schemaId].writer, first.record).Some?
    ensures var (q, r) := ProduceBatch(p, [first, bad], [NoFault, WriteFails(after, left)]);
            r == None && first.schemaId in q.streams &&
            q.streams[first.schemaId] ==
              p.streams[first.schemaId].(writer := Write(p.streams[first.schemaId].writer, first.record).value.0, output := [])
  {
    var m := ProduceRecord(p, first, NoFault).0;
    var rms, faults := [first, bad], [NoFault, WriteFails(after, left)];
    assert rms[1..] == [bad] && faults[1..] == [WriteFails(after, left)];
    assert ProduceRecords(m, [bad], [WriteFails(after, left)]) == (ProduceRecord(m, bad, WriteFails(after, left)).0, None);
  }

  /** A call with one record on a live stream whose buffer is empty. */
  lemma OneRecordCall(q: State, rm: RecordMessage)
    requires rm.schemaId in q.streams && q.streams[rm.schemaId].output == []
    requires Write(q.streams[rm.schemaId].writer, rm.record).Some?
    ensures ProduceBatch(q, [rm], [NoFault]).1 ==
            Some(Batch(Wrap64(q.batches),
                       [Payload(q.streams[rm.schemaId].wireId, rm.payloadType, Write(q.streams[rm.schemaId].writer, rm.record).value.1)]))
  {
    var (r, payload) := ProduceRecord(q, rm, NoFault);
    var frames := Write(q.streams[rm.schemaId].writer, rm.record).value.1;
    assert [] + frames == frames;
    assert [rm][1..] == [] && [NoFault][1..] == [];
    assert ProduceRecords(r, [], []) == (r, Some([]));
    assert [payload.value] + [] == [payload.value];
    assert r.batches == q.batches;
  }

  lemma OnePayload(c: Readers, payload: Payload, batchId: int)
    requires payload.wireId in c && c[payload.wireId].reader.Some?
    requires Next(c[payload.wireId].reader.value, payload.frames).record.Some?
    ensures ConsumeBatch(c, Batch(batchId, [payload])).1 ==
            Delivered([Decoded(batchId, payload.payloadType, Next(c[payload.wireId].reader.value, payload.frames).record.value)])
  {
    var record := Next(c[payload.wireId].reader.value, payload.frames).record.value;
    var d := ConsumePayload(c, payload).0;
    assert ConsumePayload(c, payload).1 == Got(record);
    assert [payload] + [] == [payload];
    ConsumeFirst(c, batchId, payload, []);
    assert ConsumePayloads(d, batchId, []) == (d, Delivered([]));
    assert [Decoded(batchId, payload.payloadType, record)] + [] == [Decoded(batchId, payload.payloadType, record)];
  }
}
