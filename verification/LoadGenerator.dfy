/**
  Load generation (tools/pipeline_perf_test/load_generator/loadgen.py): the
  pacing of the OTLP worker threads and the accounting of what they sent.

  Times and rates are real numbers.  The threads run as one state machine whose
  steps may come in any order; a flush publishes under the lock in one step and
  resets the thread's own counters one after the other.
 */
module LoadGenerator {
  import opened Options

  // ---------- counters ----------

  datatype Counter = Sent | Failed | BytesSent | LateBatches

  /** A value for each counter. */
  datatype Counters = Counters(sent: int, failed: int, bytes: int, late: int) {
    function At(c: Counter): int {
      match c case Sent => sent case Failed => failed case BytesSent => bytes case LateBatches => late
    }
  }

  const ZERO: Counters := Counters(0, 0, 0, 0)

  function Plus(a: Counters, b: Counters): (r: Counters)
    ensures forall c :: r.At(c) == a.At(c) + b.At(c)
  {
    Counters(a.sent + b.sent, a.failed + b.failed, a.bytes + b.bytes, a.late + b.late)
  }

  /** What a flush hands over: bytes only go along with messages. */
  function Updates(acc: Counters): Counters {
    Counters(acc.sent, acc.failed, if acc.sent != 0 then acc.bytes else 0, acc.late)
  }

  // ---------- the threads as a state machine ----------

  /** `stage` is 0 while sending, and 1 to 4 while a flush that has already
      published is about to reset that counter of the four. */
  datatype Thread = Thread(acc: Counters, stage: nat)

  /** The shared metrics, the threads, and all they ever recorded. */
  datatype System = System(metrics: Counters, threads: seq<Thread>, recorded: Counters)

  datatype Action =
    | Send(batch: int, size: int)
    | Fail(batch: int)
    | SendUnmeasured(batch: int)
    | FallBehind
    | Publish
    | Reset

  function Initial(n: nat): System {
    System(ZERO, seq(n, i => Thread(ZERO, 0)), ZERO)
  }

  /** What an action of the sending loop records.  When measuring a sent
      request fails, its messages count as sent and as failed. */
  function Recorded(a: Action): Counters {
    match a
    case Send(batch, size) => Counters(batch, 0, size, 0)
    case Fail(batch) => Counters(0, batch, 0, 0)
    case SendUnmeasured(batch) => Counters(batch, batch, 0, 0)
    case FallBehind => Counters(0, 0, 0, 1)
    case Publish => ZERO
    case Reset => ZERO
  }

  /** The resets of a flush, in program order. */
  function ResetOne(acc: Counters, stage: nat): Counters {
    if stage == 1 then acc.(sent := 0)
    else if stage == 2 then acc.(failed := 0)
    else if stage == 3 then acc.(bytes := 0)
    else acc.(late := 0)
  }

  /** The step of thread `i`; a thread sends only between flushes. */
  function Step(s: System, i: nat, a: Action): (r: System)
    requires i < |s.threads|
    ensures |r.threads| == |s.threads|
  {
    var t := s.threads[i];
    if a.Reset? then
      if t.stage == 0 then s
      else
        var next := Thread(ResetOne(t.acc, t.stage), if t.stage >= 4 then 0 else t.stage + 1);
        s.(threads := s.threads[i := next])
    else if t.stage != 0 then s
    else if a.Publish? then
      if t.acc == ZERO then s
      else s.(metrics := Plus(s.metrics, Updates(t.acc)), threads := s.threads[i := t.(stage := 1)])
    else
      s.(threads := s.threads[i := t.(acc := Plus(t.acc, Recorded(a)))], recorded := Plus(s.recorded, Recorded(a)))
  }

  /** What a thread has recorded and not yet published. */
  function Unflushed(t: Thread, c: Counter): int { if t.stage == 0 then t.acc.At(c) else 0 }

  function Total(threads: seq<Thread>, c: Counter): int {
    if threads == [] then 0 else Unflushed(threads[0], c) + Total(threads[1..], c)
  }

  /** Counters are counts, bytes come with messages, and a flush under way has
      reset the counters it is past. */
  predicate ThreadInvariant(t: Thread) {
    t.stage <= 4 && t.acc.sent >= 0 && t.acc.failed >= 0 && t.acc.bytes >= 0 && t.acc.late >= 0 &&
    (t.stage == 0 && t.acc.sent == 0 ==> t.acc.bytes == 0) &&
    (t.stage >= 2 ==> t.acc.sent == 0) && (t.stage >= 3 ==> t.acc.failed == 0) && (t.stage >= 4 ==> t.acc.bytes == 0)
  }

  /** Nothing is lost and nothing counted twice. */
  ghost predicate Conserved(s: System) {
    (forall c :: s.metrics.At(c) + Total(s.threads, c) == s.recorded.At(c)) &&
    forall i :: 0 <= i < |s.threads| ==> ThreadInvariant(s.threads[i])
  }

  /** Batches are not empty, as the configuration demands. */
  predicate Admissible(a: Action) {
    match a
    case Send(batch, size) => batch > 0 && size >= 0
    case Fail(batch) => batch > 0
    case SendUnmeasured(batch) => batch > 0
    case _ => true
  }

  lemma {:induction false} TotalUpdate(threads: seq<Thread>, i: nat, t: Thread, c: Counter)
    requires i < |threads|
    ensures Total(threads[i := t], c) == Total(threads, c) - Unflushed(threads[i], c) + Unflushed(t, c)
    decreases |threads|
  {
    if i == 0 {
      assert threads[i := t][1..] == threads[1..];
    } else {
      TotalUpdate(threads[1..], i - 1, t, c);
      assert threads[i := t][1..] == threads[1..][i - 1 := t];
    }
  }

  lemma StepConserves(s: System, i: nat, a: Action)
    requires Conserved(s) && i < |s.threads| && Admissible(a)
    ensures Conserved(Step(s, i, a))
  {
    var r := Step(s, i, a);
    assert ThreadInvariant(s.threads[i]);
    assert r.threads == s.threads[i := r.threads[i]];
    forall c ensures r.metrics.At(c) + Total(r.threads, c) == r.recorded.At(c) {
      TotalUpdate(s.threads, i, r.threads[i], c);
      assert s.metrics.At(c) + Total(s.threads, c) == s.recorded.At(c);
    }
  }

  datatype Move = Move(thread: nat, action: Action)

  function Play(s: System, moves: seq<Move>): System
    requires forall i :: 0 <= i < |moves| ==> moves[i].thread < |s.threads|
    decreases |moves|
  {
    if moves == [] then s else Play(Step(s, moves[0].thread, moves[0].action), moves[1..])
  }

  /** Under every interleaving of the threads' steps, published metrics plus
      what is still unflushed are exactly what was recorded. */
  lemma {:induction false} InterleavingsConserve(s: System, moves: seq<Move>)
    requires Conserved(s)
    requires forall i :: 0 <= i < |moves| ==> moves[i].thread < |s.threads| && Admissible(moves[i].action)
    ensures Conserved(Play(s, moves)) && |Play(s, moves).threads| == |s.threads|
    decreases |moves|
  {
    if moves != [] {
      StepConserves(s, moves[0].thread, moves[0].action);
      InterleavingsConserve(Step(s, moves[0].thread, moves[0].action), moves[1..]);
    }
  }

  lemma {:induction false} IdleTotal(threads: seq<Thread>, c: Counter)
    requires forall i :: 0 <= i < |threads| ==> Unflushed(threads[i], c) == 0
    ensures Total(threads, c) == 0
    decreases |threads|
  {
    if threads != [] {
      IdleTotal(threads[1..], c);
    }
  }

  /** From the start, in every interleaving: a counter that no thread still
      holds back is complete in the shared metrics. */
  lemma PublishedInTheEnd(n: nat, moves: seq<Move>, c: Counter)
    requires forall i :: 0 <= i < |moves| ==> moves[i].thread < n && Admissible(moves[i].action)
    ensures var s := Play(Initial(n), moves);
            (forall i :: 0 <= i < |s.threads| ==> Unflushed(s.threads[i], c) == 0) ==> s.metrics.At(c) == s.recorded.At(c)
  {
    forall d ensures Total(Initial(n).threads, d) == 0 {
      IdleTotal(Initial(n).threads, d);
    }
    InterleavingsConserve(Initial(n), moves);
    var s := Play(Initial(n), moves);
    if forall i :: 0 <= i < |s.threads| ==> Unflushed(s.threads[i], c) == 0 {
      IdleTotal(s.threads, c);
      assert s.metrics.At(c) + Total(s.threads, c) == s.recorded.At(c);
    }
  }

  // ---------- the counters' code ----------

  /** The shared metrics; each call holds the lock. */
  class Metrics {
    var totals: Counters

    constructor ()
      ensures totals == ZERO
    {
      totals := ZERO;
    }

    method UpdateMetrics(updates: Counters)
      modifies this
      ensures totals == Plus(old(totals), updates)
    {
      totals := Plus(totals, updates);
    }
  }

  class BatchMetricsAccumulator {
    var acc: Counters

    constructor ()
      ensures acc == ZERO
    {
      acc := ZERO;
    }

    method Flush(metrics: Metrics)
      modifies this, metrics
      ensures acc == ZERO
      ensures metrics.totals == if old(acc) == ZERO then old(metrics.totals) else Plus(old(metrics.totals), Updates(old(acc)))
    {
      if acc.sent == 0 && acc.failed == 0 && acc.bytes == 0 && acc.late == 0 {
        return;
      }
      var updates := ZERO;
      if acc.sent != 0 {
        updates := updates.(sent := acc.sent, bytes := acc.bytes);
      }
      if acc.failed != 0 {
        updates := updates.(failed := acc.failed);
      }
      if acc.late != 0 {
        updates := updates.(late := acc.late);
      }
      metrics.UpdateMetrics(updates);
      acc := acc.(sent := 0);
      acc := acc.(failed := 0);
      acc := acc.(bytes := 0);
      acc := acc.(late := 0);
    }
  }

  /** In the state machine, a flush that nothing interrupts does what `Flush` does. */
  lemma FlushSteps(s: System, i: nat)
    requires i < |s.threads| && s.threads[i].stage == 0 && s.threads[i].acc != ZERO
    ensures var r := Step(Step(Step(Step(Step(s, i, Publish), i, Reset), i, Reset), i, Reset), i, Reset);
            r.metrics == Plus(s.metrics, Updates(s.threads[i].acc)) && r.threads == s.threads[i := Thread(ZERO, 0)] &&
            r.recorded == s.recorded
  {
    var p := Step(s, i, Publish);
    var a := Step(p, i, Reset);
    var b := Step(a, i, Reset);
    var c := Step(b, i, Reset);
    var d := Step(c, i, Reset);
    assert p.threads[i].stage == 1 && a.threads[i].stage == 2 && b.threads[i].stage == 3 && c.threads[i].stage == 4;
    assert d.threads == s.threads[i := d.threads[i]];
  }

  // ---------- pacing ----------

  /** What became of a request: delivered, with its size; failed; or delivered
      with the size unknown because measuring it failed. */
  datatype Outcome = Delivered(size: nat) | Refused | Unmeasured

  /** One turn of the worker loop: how long the request took, what became of
      it, and by how much the sleep after it overran. */
  datatype Turn = Turn(request: real, outcome: Outcome, oversleep: real)

  /** A thread's run: when it begins, the time between its batches if its rate
      is limited, the size of a batch, and what happens in each turn. */
  datatype Session = Session(begin: real, interval: Option<real>, batch: nat, turns: seq<Turn>) {
    /** Time does not run backwards and a sleep is not cut short. */
    ghost predicate Possible() {
      batch > 0 && (interval.Some? ==> interval.value > 0.0) &&
      forall i :: 0 <= i < |turns| ==> turns[i].request >= 0.0 && turns[i].oversleep >= 0.0
    }

    /** When batch `k` is due. */
    function Due(k: nat): real
      requires interval.Some?
    {
      begin + k as real * interval.value
    }

    /** When turn `k` starts. */
    function Start(k: nat): real
      requires k <= |turns|
      decreases k, 0
    {
      if k == 0 then begin
      else if interval.Some? && Due(k - 1) > Done(k - 1) then Due(k - 1) + turns[k - 1].oversleep
      else Done(k - 1)
    }

    /** When the request of turn `k` is answered. */
    function Done(k: nat): real
      requires k < |turns|
      decreases k, 1
    {
      Start(k) + turns[k].request
    }

    predicate Late(k: nat)
      requires k < |turns|
    {
      interval.Some? && Done(k) - Due(k) > interval.value
    }

    function Attempt(k: nat): Action
      requires k < |turns|
    {
      match turns[k].outcome
      case Delivered(size) => Send(batch, size)
      case Refused => Fail(batch)
      case Unmeasured => SendUnmeasured(batch)
    }

    /** What the first `k` turns record. */
    function Tally(k: nat, c: Counter): int
      requires k <= |turns|
    {
      if k == 0 then 0
      else Tally(k - 1, c) + Recorded(Attempt(k - 1)).At(c) + (if Late(k - 1) then Recorded(FallBehind).At(c) else 0)
    }
  }

  lemma {:induction false} StartPaced(w: Session, k: nat)
    requires w.Possible() && k <= |w.turns|
    ensures w.Start(k) >= w.begin
    ensures w.interval.Some? ==> Paced(w.Start(k), w.begin, w.interval.value, k)
  {
    if k > 0 {
      StartPaced(w, k - 1);
      assert w.turns[k - 1].request >= 0.0 && w.turns[k - 1].oversleep >= 0.0;
    }
  }

  /** A batch counts as late when it is answered after the next one was due. */
  lemma LateExactly(w: Session, k: nat)
    requires k < |w.turns|
    ensures w.Late(k) <==> w.interval.Some? && w.Done(k) > w.Due(k + 1)
  {
    if w.interval.Some? {
      OneMore(k, w.interval.value);
    }
  }

  /** The other side of pacing: when every request takes an interval at most and
      no sleep overruns, every batch starts when it is due at the latest, and none
      is late. */
  lemma {:induction false} KeepsUp(w: Session, k: nat)
    requires w.Possible() && w.interval.Some? && k <= |w.turns|
    requires forall i :: 0 <= i < |w.turns| ==> w.turns[i].request <= w.interval.value && w.turns[i].oversleep == 0.0
    ensures w.Start(k) <= w.Due(k) && (k < |w.turns| ==> !w.Late(k))
  {
    if k == 0 {
      assert 0 as real * w.interval.value == 0.0;
    } else {
      KeepsUp(w, k - 1);
      OneMore(k - 1, w.interval.value);
    }
  }

  /** How many of the first `k` turns are chosen. */
  function Chosen(chosen: nat -> bool, k: nat): nat { |set i: nat | i < k && chosen(i)| }

  lemma OneMoreChosen(chosen: nat -> bool, k: nat)
    ensures Chosen(chosen, 0) == 0
    ensures Chosen(chosen, k + 1) == Chosen(chosen, k) + if chosen(k) then 1 else 0
  {
    var before, after := set i: nat | i < k && chosen(i), set i: nat | i < k + 1 && chosen(i);
    if chosen(k) {
      assert after == before + {k};
    } else {
      assert after == before;
    }
  }

  function WasSent(w: Session): nat -> bool { (i: nat) => i < |w.turns| && !w.turns[i].outcome.Refused? }

  function HasFailed(w: Session): nat -> bool { (i: nat) => i < |w.turns| && !w.turns[i].outcome.Delivered? }

  function WasLate(w: Session): nat -> bool { (i: nat) => i < |w.turns| && w.Late(i) }

  function Sizes(turns: seq<Turn>): nat {
    if turns == [] then 0
    else
      var last := turns[|turns| - 1].outcome;
      Sizes(turns[..|turns| - 1]) + if last.Delivered? then last.size else 0
  }

  /** What a thread records: a batch as sent for every request that was not
      refused, one as failed for every request that was not delivered and
      measured, the sizes of those that were, and the late turns. */
  lemma TallyCounts(w: Session, k: nat)
    requires k <= |w.turns|
    ensures w.Tally(k, Sent) == w.batch * Chosen(WasSent(w), k)
    ensures w.Tally(k, Failed) == w.batch * Chosen(HasFailed(w), k)
    ensures w.Tally(k, BytesSent) == Sizes(w.turns[..k]) && w.Tally(k, LateBatches) == Chosen(WasLate(w), k)
  {
    SentCounts(w, k);
    FailedCounts(w, k);
    LateCounts(w, k);
    SizesCount(w, k);
  }

  lemma {:induction false} SentCounts(w: Session, k: nat)
    requires k <= |w.turns|
    ensures w.Tally(k, Sent) == w.batch * Chosen(WasSent(w), k)
  {
    OneMoreChosen(WasSent(w), if k == 0 then 0 else k - 1);
    if k > 0 {
      SentCounts(w, k - 1);
      OneMoreBatch(w.batch, Chosen(WasSent(w), k - 1));
    }
  }

  lemma {:induction false} FailedCounts(w: Session, k: nat)
    requires k <= |w.turns|
    ensures w.Tally(k, Failed) == w.batch * Chosen(HasFailed(w), k)
  {
    OneMoreChosen(HasFailed(w), if k == 0 then 0 else k - 1);
    if k > 0 {
      FailedCounts(w, k - 1);
      OneMoreBatch(w.batch, Chosen(HasFailed(w), k - 1));
    }
  }

  lemma {:induction false} LateCounts(w: Session, k: nat)
    requires k <= |w.turns|
    ensures w.Tally(k, LateBatches) == Chosen(WasLate(w), k)
  {
    OneMoreChosen(WasLate(w), if k == 0 then 0 else k - 1);
    if k > 0 {
      LateCounts(w, k - 1);
    }
  }

  lemma {:induction false} SizesCount(w: Session, k: nat)
    requires k <= |w.turns|
    ensures w.Tally(k, BytesSent) == Sizes(w.turns[..k])
  {
    if k > 0 {
      SizesCount(w, k - 1);
      assert w.turns[..k][..k - 1] == w.turns[..k - 1];
    }
  }

  lemma OneMoreBatch(batch: nat, n: nat)
    ensures batch * (n + 1) == batch * n + batch && batch * (n + 0) == batch * n
  {
  }

  /** The worker loop. */
  method WorkerThread(metrics: Metrics, w: Session) returns (starts: seq<real>)
    requires w.Possible()
    modifies metrics
    ensures |starts| == |w.turns|
    ensures forall k :: 0 <= k < |starts| ==> starts[k] == w.Start(k)
    ensures w.interval.Some? ==> PacedThread(starts, w.begin, w.interval.value)
    ensures forall c :: metrics.totals.At(c) == old(metrics.totals.At(c)) + w.Tally(|w.turns|, c)
  {
    var acc := new BatchMetricsAccumulator();
    starts := [];
    var now := w.begin;
    var nextSend := w.begin;
    for i := 0 to |w.turns|
      invariant |starts| == i && now == w.Start(i)
      invariant w.interval.Some? ==> nextSend == w.Due(i)
      invariant forall k :: 0 <= k < i ==> starts[k] == w.Start(k)
      invariant fresh(acc) && acc.acc == ZERO
      invariant forall c :: metrics.totals.At(c) == old(metrics.totals.At(c)) + w.Tally(i, c)
    {
      ghost var before := metrics.totals;
      starts := starts + [now];
      now := now + w.turns[i].request;
      match w.turns[i].outcome {
        case Delivered(size) =>
          acc.acc := acc.acc.(sent := acc.acc.sent + w.batch);
          acc.acc := acc.acc.(bytes := acc.acc.bytes + size);
        case Refused =>
          acc.acc := acc.acc.(failed := acc.acc.failed + w.batch);
        case Unmeasured =>
          acc.acc := acc.acc.(sent := acc.acc.sent + w.batch);
          acc.acc := acc.acc.(failed := acc.acc.failed + w.batch);
      }
      if w.interval.Some? {
        var sleep := nextSend - now;
        if sleep > 0.0 {
          now := now + sleep + w.turns[i].oversleep;
        } else if now - nextSend > w.interval.value {
          acc.acc := acc.acc.(late := acc.acc.late + 1);
        }
        nextSend := nextSend + w.interval.value;
      }
      acc.Flush(metrics);
      assert forall c :: metrics.totals.At(c) == before.At(c) + (w.Tally(i + 1, c) - w.Tally(i, c));
    }
    acc.Flush(metrics);
    forall k | 0 <= k < |starts|
      ensures w.interval.Some? ==> Paced(starts[k], w.begin, w.interval.value, k)
    {
      StartPaced(w, k);
    }
  }

  /** Batch `k`, counted from 0, starts no earlier than `k - 1` intervals after the beginning. */
  predicate Paced(start: real, begin: real, interval: real, k: nat) {
    start >= begin + (k as real - 1.0) * interval
  }

  /** How many batches have started by time `t`. */
  function StartedBy(starts: seq<real>, t: real): nat {
    if starts == [] then 0 else StartedBy(starts[..|starts| - 1], t) + (if starts[|starts| - 1] <= t then 1 else 0)
  }

  lemma {:induction false} StartedAtMost(starts: seq<real>, t: real)
    ensures StartedBy(starts, t) <= |starts|
    ensures starts != [] && starts[|starts| - 1] > t ==> StartedBy(starts, t) < |starts|
  {
    if starts != [] {
      StartedAtMost(starts[..|starts| - 1], t);
    }
  }

  ghost predicate PacedThread(starts: seq<real>, begin: real, interval: real) {
    forall k :: 0 <= k < |starts| ==> Paced(starts[k], begin, interval, k)
  }

  predicate AtPace(count: nat, interval: real, elapsed: real) {
    count as real * interval <= elapsed + 2.0 * interval
  }

  lemma StartAtPace(k: nat, interval: real, elapsed: real, count: nat)
    requires interval > 0.0 && (k as real - 1.0) * interval <= elapsed && count <= k + 1
    ensures AtPace(count, interval, elapsed)
  {
    Scale(count as real, k as real + 1.0, interval);
    assert (k as real + 1.0) * interval == (k as real - 1.0) * interval + 2.0 * interval;
  }

  /** A thread that began at `begin` keeps to its rate, two batches ahead at most. */
  lemma {:induction false} ThreadPace(starts: seq<real>, begin: real, interval: real, t: real)
    requires interval > 0.0 && begin <= t
    requires PacedThread(starts, begin, interval)
    ensures AtPace(StartedBy(starts, t), interval, t - begin)
    decreases |starts|
  {
    if starts == [] {
      assert StartedBy(starts, t) as real * interval == 0.0;
    } else {
      var k := |starts| - 1;
      ThreadPace(starts[..k], begin, interval, t);
      if starts[k] <= t {
        StartedAtMost(starts, t);
        assert Paced(starts[k], begin, interval, k);
        StartAtPace(k, interval, t - begin, StartedBy(starts, t));
      } else {
        assert StartedBy(starts, t) == StartedBy(starts[..k], t);
      }
    }
  }

  lemma Scale(a: real, b: real, x: real)
    requires a <= b && x >= 0.0
    ensures a * x <= b * x
  {
  }

  /** The messages a thread has started to send by time `t`. */
  function ThreadMessages(starts: seq<real>, batch: nat, t: real): nat { batch * StartedBy(starts, t) }

  function Sum(counts: seq<nat>): nat {
    if counts == [] then 0 else Sum(counts[..|counts| - 1]) + counts[|counts| - 1]
  }

  /** When the batches of a run start. */
  function Starts(w: Session): (r: seq<real>)
    ensures |r| == |w.turns| && forall k :: 0 <= k < |r| ==> r[k] == w.Start(k)
  {
    seq(|w.turns|, k requires 0 <= k < |w.turns| => w.Start(k))
  }

  /** The same, over the runs of all threads. */
  function MessagesBy(threads: seq<Session>, t: real): nat { Sum(Counts(threads, t)) }

  function Counts(threads: seq<Session>, t: real): (r: seq<nat>)
    ensures |r| == |threads|
    ensures forall i :: 0 <= i < |r| ==> r[i] == ThreadMessages(Starts(threads[i]), threads[i].batch, t)
  {
    seq(|threads|, i requires 0 <= i < |threads| => ThreadMessages(Starts(threads[i]), threads[i].batch, t))
  }

  /** The rate of one of `n` threads. */
  function Share(rate: real, n: nat): (r: real)
    requires n > 0 && rate > 0.0
    ensures r > 0.0
  {
    rate / n as real
  }

  /** The time between two batches of a thread that sends `share` messages a second. */
  function Interval(batch: nat, share: real): real
    requires share > 0.0
  {
    batch as real / share
  }

  lemma IntervalPositive(batch: nat, share: real)
    requires batch > 0 && share > 0.0
    ensures Interval(batch, share) > 0.0 && Interval(batch, share) * share == batch as real
  {
  }

  lemma OneThread(count: nat, share: real, batch: nat, elapsed: real)
    requires batch > 0 && share > 0.0
    requires AtPace(count, Interval(batch, share), elapsed)
    ensures (batch * count) as real <= share * elapsed + 2.0 * batch as real
  {
    var interval := Interval(batch, share);
    IntervalPositive(batch, share);
    Scale(count as real * interval, elapsed + 2.0 * interval, share);
    assert count as real * interval * share == count as real * (interval * share);
    assert (elapsed + 2.0 * interval) * share == elapsed * share + 2.0 * (interval * share);
    assert (batch * count) as real == count as real * batch as real;
  }

  lemma OneMore(m: nat, most: real)
    ensures (m + 1) as real * most == m as real * most + most
  {
    assert (m + 1) as real == m as real + 1.0;
  }

  lemma {:induction false} SumAtMost(counts: seq<nat>, most: real)
    requires forall i :: 0 <= i < |counts| ==> counts[i] as real <= most
    ensures Sum(counts) as real <= |counts| as real * most
    decreases |counts|
  {
    if counts == [] {
      assert |counts| as real * most == 0.0;
    } else {
      var m := |counts| - 1;
      SumAtMost(counts[..m], most);
      OneMore(m, most);
    }
  }

  lemma ThreadShare(starts: seq<real>, start: real, share: real, batch: nat, begin: real, t: real)
    requires share > 0.0 && batch > 0 && begin <= t && begin <= start
    requires PacedThread(starts, start, Interval(batch, share))
    ensures ThreadMessages(starts, batch, t) as real <= share * (t - begin) + 2.0 * batch as real
  {
    IntervalPositive(batch, share);
    var interval := Interval(batch, share);
    forall k | 0 <= k < |starts|
      ensures Paced(starts[k], begin, interval, k)
    {
      assert Paced(starts[k], start, interval, k);
    }
    ThreadPace(starts, begin, interval, t);
    OneThread(StartedBy(starts, t), share, batch, t - begin);
  }

  /** The threads of one load: possible runs that begin at `begin` or later and
      share a target rate. */
  ghost predicate ShareRate(threads: seq<Session>, share: real, batch: nat, begin: real)
    requires share > 0.0
  {
    forall i :: 0 <= i < |threads| ==>
      threads[i].Possible() && threads[i].batch == batch && begin <= threads[i].begin &&
      threads[i].interval == Some(Interval(batch, share))
  }

  /** The most messages a thread has started after some time at its share. */
  function Most(share: real, elapsed: real, batch: nat): real { share * elapsed + 2.0 * batch as real }

  predicate AtMost(w: Session, t: real, most: real) { ThreadMessages(Starts(w), w.batch, t) as real <= most }

  lemma SessionShare(w: Session, share: real, batch: nat, begin: real, t: real)
    requires share > 0.0 && begin <= t && begin <= w.begin && w.Possible()
    requires w.batch == batch && w.interval == Some(Interval(batch, share))
    ensures AtMost(w, t, Most(share, t - begin, batch))
  {
    forall k | 0 <= k < |Starts(w)| ensures Paced(Starts(w)[k], w.begin, w.interval.value, k) {
      StartPaced(w, k);
    }
    ThreadShare(Starts(w), w.begin, share, batch, begin, t);
  }

  lemma AllThreads(threads: seq<Session>, t: real, most: real)
    requires forall i :: 0 <= i < |threads| ==> AtMost(threads[i], t, most)
    ensures MessagesBy(threads, t) as real <= |threads| as real * most
  {
    var counts := Counts(threads, t);
    forall i | 0 <= i < |counts| ensures counts[i] as real <= most {
      assert AtMost(threads[i], t, most);
    }
    SumAtMost(counts, most);
  }

  /** However long requests and sleeps take, the threads that share a target
      rate and begin at `begin` or later have by any time `t` started at most
      that rate times the elapsed time, and two batches per thread. */
  lemma TargetRateKept(threads: seq<Session>, rate: real, batch: nat, begin: real, t: real)
    requires threads != [] && rate > 0.0 && begin <= t
    requires ShareRate(threads, Share(rate, |threads|), batch, begin)
    ensures MessagesBy(threads, t) as real <= rate * (t - begin) + 2.0 * |threads| as real * batch as real
  {
    var share := Share(rate, |threads|);
    forall i | 0 <= i < |threads| ensures AtMost(threads[i], t, Most(share, t - begin, batch)) {
      SessionShare(threads[i], share, batch, begin, t);
    }
    AllThreads(threads, t, Most(share, t - begin, batch));
    Shares(|threads|, rate, t - begin, batch);
  }

  lemma Shares(n: nat, rate: real, elapsed: real, batch: nat)
    requires n > 0 && rate > 0.0
    ensures n as real * Most(Share(rate, n), elapsed, batch) == rate * elapsed + 2.0 * n as real * batch as real
  {
    assert n as real * Share(rate, n) == rate;
    assert n as real * (Share(rate, n) * elapsed) == rate * elapsed;
  }
}
