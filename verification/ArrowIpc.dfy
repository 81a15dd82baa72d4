/**
  A stateful Arrow IPC codec, standing for the `ipc.Writer` and `ipc.Reader`
  that the producer and the consumer drive with dictionary deltas enabled.

  A payload is a list of frames.  The first message of a stream carries the
  schema; a dictionary goes out whole once and afterwards only as the values
  appended to it.  What a frame means therefore depends on every earlier frame
  of its stream, which is why both ends must step together.
 */
module ArrowIpc {
  import opened Options
  import opened SchemaId

  datatype Column =
    | Values(values: seq<int>)
    | Encoded(dictionary: seq<int>, keys: seq<int>)

  datatype Record = Record(schema: Schema, columns: seq<Column>)

  datatype Body = ValuesBody(values: seq<int>) | KeysBody(keys: seq<int>)

  datatype Frame =
    | SchemaFrame(schema: Schema)
    | DictionaryFrame(id: nat, delta: bool, values: seq<int>)
    | BatchFrame(bodies: seq<Body>)
    | EndFrame
    | Garbage

  /** The last dictionary that went through a stream, by column. */
  type Dictionaries = map<nat, seq<int>>

  // ---------- writer ----------

  datatype Writer = Writer(schema: Schema, started: bool, closed: bool, dicts: Dictionaries)

  function NewWriter(schema: Schema): Writer { Writer(schema, false, false, map[]) }

  function DictionaryFrames(columns: seq<Column>, i: nat, dicts: Dictionaries): (frames: seq<Frame>)
    requires i <= |columns|
    decreases |columns| - i
  {
    if i == |columns| then []
    else
      match columns[i]
      case Values(_) => DictionaryFrames(columns, i + 1, dicts)
      case Encoded(d, _) => DictionaryUpdate(i, d, dicts) + DictionaryFrames(columns, i + 1, dicts[i := d])
  }

  /** Nothing, the appended values, or the whole dictionary. */
  function DictionaryUpdate(i: nat, d: seq<int>, dicts: Dictionaries): (frames: seq<Frame>) {
    if i in dicts && dicts[i] == d then []
    else if i in dicts && dicts[i] < d then [DictionaryFrame(i, true, d[|dicts[i]|..])]
    else [DictionaryFrame(i, false, d)]
  }

  function DictionariesAfter(columns: seq<Column>, i: nat, dicts: Dictionaries): Dictionaries
    requires i <= |columns|
    decreases |columns| - i
  {
    if i == |columns| then dicts
    else
      match columns[i]
      case Values(_) => DictionariesAfter(columns, i + 1, dicts)
      case Encoded(d, _) => DictionariesAfter(columns, i + 1, dicts[i := d])
  }

  function Bodies(columns: seq<Column>): (r: seq<Body>)
    ensures |r| == |columns|
    ensures forall i :: 0 <= i < |columns| ==>
      r[i] == match columns[i] case Values(v) => ValuesBody(v) case Encoded(_, k) => KeysBody(k)
  {
    seq(|columns|, i requires 0 <= i < |columns| =>
      match columns[i] case Values(v) => ValuesBody(v) case Encoded(_, k) => KeysBody(k))
  }

  /** `None` when the record does not have the writer's schema or the writer is closed. */
  function Write(w: Writer, record: Record): Option<(Writer, seq<Frame>)> {
    if w.closed || record.schema != w.schema then None
    else
      var header := if w.started then [] else [SchemaFrame(w.schema)];
      var frames := DictionaryFrames(record.columns, 0, w.dicts) + [BatchFrame(Bodies(record.columns))];
      var dicts := DictionariesAfter(record.columns, 0, w.dicts);
      Some((w.(started := true, dicts := dicts), header + frames))
  }

  // ---------- reader ----------

  datatype Status = Ready | Done | Failed

  datatype Reader = Reader(schema: Schema, status: Status, dicts: Dictionaries)

  datatype Opened = Opened(reader: Reader, rest: seq<Frame>)

  /** Opening a reader consumes the schema; without one it fails. */
  function NewReader(frames: seq<Frame>): Option<Opened> {
    if frames != [] && frames[0].SchemaFrame? then
      Some(Opened(Reader(frames[0].schema, Ready, map[]), frames[1..]))
    else None
  }

  datatype Step = Step(reader: Reader, record: Option<Record>)

  /** The next record among `frames`, after the dictionary updates before it. */
  function Next(r: Reader, frames: seq<Frame>): Step
    decreases |frames|
  {
    if r.status != Ready then Step(r, None)
    else if frames == [] then Step(r.(status := Done), None)
    else
      match frames[0]
      case DictionaryFrame(id, delta, values) =>
        if !delta then Next(r.(dicts := r.dicts[id := values]), frames[1..])
        else if id in r.dicts then Next(r.(dicts := r.dicts[id := r.dicts[id] + values]), frames[1..])
        else Step(r.(status := Failed), None)
      case BatchFrame(bodies) =>
        (match Resolve(bodies, r.dicts)
         case Some(columns) => Step(r, Some(Record(r.schema, columns)))
         case None => Step(r.(status := Failed), None))
      case EndFrame => Step(r.(status := Done), None)
      case SchemaFrame(_) => Step(r.(status := Failed), None)
      case Garbage => Step(r.(status := Failed), None)
  }

  predicate Resolvable(bodies: seq<Body>, dicts: Dictionaries) {
    forall i :: 0 <= i < |bodies| ==> bodies[i].KeysBody? ==> i in dicts
  }

  function Resolve(bodies: seq<Body>, dicts: Dictionaries): Option<seq<Column>> {
    if Resolvable(bodies, dicts) then
      Some(seq(|bodies|, i requires 0 <= i < |bodies| && Resolvable(bodies, dicts) =>
        match bodies[i] case ValuesBody(v) => Values(v) case KeysBody(k) => Encoded(dicts[i], k)))
    else None
  }

  // ---------- decoding law ----------

  /** The reader has seen exactly what the writer has written. */
  ghost predicate Mirrors(w: Writer, r: Reader) {
    w.started && !w.closed && r.status == Ready && r.schema == w.schema && r.dicts == w.dicts
  }

  lemma {:induction false} DictionariesTransfer(columns: seq<Column>, i: nat, r: Reader, rest: seq<Frame>)
    requires i <= |columns| && r.status == Ready
    ensures Next(r, DictionaryFrames(columns, i, r.dicts) + rest) ==
            Next(r.(dicts := DictionariesAfter(columns, i, r.dicts)), rest)
    decreases |columns| - i
  {
    if i == |columns| {
      assert DictionaryFrames(columns, i, r.dicts) + rest == rest;
    } else if columns[i].Values? {
      DictionariesTransfer(columns, i + 1, r, rest);
    } else {
      var d := columns[i].dictionary;
      var update := DictionaryUpdate(i, d, r.dicts);
      var later := DictionaryFrames(columns, i + 1, r.dicts[i := d]) + rest;
      assert DictionaryFrames(columns, i, r.dicts) + rest == update + later;
      UpdateTransfers(i, d, r, later);
      DictionariesTransfer(columns, i + 1, r.(dicts := r.dicts[i := d]), rest);
    }
  }

  lemma UpdateTransfers(i: nat, d: seq<int>, r: Reader, later: seq<Frame>)
    requires r.status == Ready
    ensures Next(r, DictionaryUpdate(i, d, r.dicts) + later) == Next(r.(dicts := r.dicts[i := d]), later)
  {
    var update := DictionaryUpdate(i, d, r.dicts);
    if update == [] {
      assert r.dicts == r.dicts[i := d] && update + later == later;
    } else {
      assert (update + later)[1..] == later;
      assert update[0].delta ==> r.dicts[i] + update[0].values == d;
    }
  }

  lemma {:induction false} DictionariesHold(columns: seq<Column>, i: nat, dicts: Dictionaries)
    requires i <= |columns|
    ensures var after := DictionariesAfter(columns, i, dicts);
            (forall j :: i <= j < |columns| && columns[j].Encoded? ==> j in after && after[j] == columns[j].dictionary) &&
            (forall j :: 0 <= j < i && j in dicts ==> j in after && after[j] == dicts[j])
    decreases |columns| - i
  {
    if i < |columns| {
      match columns[i]
      case Values(_) => DictionariesHold(columns, i + 1, dicts);
      case Encoded(d, _) =>
        DictionariesHold(columns, i + 1, dicts[i := d]);
        assert forall j :: 0 <= j < i && j in dicts ==> j in dicts[i := d];
    }
  }

  lemma {:induction false} BatchDecodes(w: Writer, r: Reader, record: Record)
    requires r.status == Ready && r.schema == w.schema && r.dicts == w.dicts
    requires !w.closed && record.schema == w.schema
    ensures var frames := DictionaryFrames(record.columns, 0, w.dicts) + [BatchFrame(Bodies(record.columns))];
            var dicts := DictionariesAfter(record.columns, 0, w.dicts);
            Next(r, frames) == Step(r.(dicts := dicts), Some(record))
  {
    var last := [BatchFrame(Bodies(record.columns))];
    var dicts := DictionariesAfter(record.columns, 0, w.dicts);
    DictionariesTransfer(record.columns, 0, r, last);
    DictionariesHold(record.columns, 0, w.dicts);
    assert Resolvable(Bodies(record.columns), dicts);
    assert Resolve(Bodies(record.columns), dicts).value == record.columns;
  }

  /** A reader that mirrors the writer decodes the next record exactly and
      mirrors the writer again. */
  lemma {:induction false} MirrorDecodes(w: Writer, r: Reader, record: Record)
    requires Mirrors(w, r) && Write(w, record).Some?
    ensures var (w', frames) := Write(w, record).value;
            var step := Next(r, frames);
            step.record == Some(record) && Mirrors(w', step.reader)
  {
    BatchDecodes(w, r, record);
    assert Write(w, record).value.1 ==
           DictionaryFrames(record.columns, 0, w.dicts) + [BatchFrame(Bodies(record.columns))];
  }

  /** The same for the first record of a stream, whose payload opens the reader. */
  lemma {:induction false} FirstDecodes(w: Writer, record: Record)
    requires w == NewWriter(record.schema)
    ensures Write(w, record).Some?
    ensures var (w', frames) := Write(w, record).value;
            var start := NewReader(frames);
            start.Some? &&
            var step := Next(start.value.reader, start.value.rest);
            step.record == Some(record) && Mirrors(w', step.reader)
  {
    var frames := Write(w, record).value.1;
    var r := Reader(w.schema, Ready, map[]);
    BatchDecodes(w, r, record);
    assert frames[1..] == DictionaryFrames(record.columns, 0, w.dicts) + [BatchFrame(Bodies(record.columns))];
  }

  /** A reader asked for one record does not look past it. */
  lemma {:induction false} NextStopsAtRecord(r: Reader, frames: seq<Frame>, more: seq<Frame>)
    requires Next(r, frames).record.Some?
    ensures Next(r, frames + more) == Next(r, frames)
    decreases |frames|
  {
    assert (frames + more)[0] == frames[0];
    if frames[0].DictionaryFrame? {
      var f := frames[0];
      var values := if f.delta then r.dicts[f.id] + f.values else f.values;
      NextStopsAtRecord(r.(dicts := r.dicts[f.id := values]), frames[1..], more);
      assert (frames + more)[1..] == frames[1..] + more;
    }
  }
}
