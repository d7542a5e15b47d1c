/**
  The buffer between the audit consumer and ClickHouse. Functions on writer values say what one atomic
  step does; the class runs the steps of a call one after the other. Runs in which other goroutines step
  in between are in BatchRuns.
*/
module BatchWriter {
  import opened Options

  datatype CloudEvent = CloudEvent(id: string, eventType: string, source: string, time: int)

  /** The handle of the Kafka record is optional. */
  datatype Pending = Pending(event: CloudEvent, record: Option<nat>)

  /** A call to CommitRecords: by the writer for a batch, or by the consumer for a record it refuses. */
  datatype Commit = OfBatch(records: seq<nat>) | OfRefused(record: nat)

  /** table is what ClickHouse holds and commits what was passed to Kafka; wake is the channel of capacity one. */
  datatype Writer = Writer(buffer: seq<Pending>, wake: bool, done: bool, table: seq<Pending>, commits: seq<Commit>)

  /** What ClickHouse will answer during one flush; appends says which positions of the batch it takes. */
  datatype Backend = Disabled | Enabled(prepares: bool, appends: nat -> bool, sends: bool)

  datatype Fate = Stored | Dropped | Skipped

  const DEFAULT_BATCH := 100

  function BatchSize(configured: int): (size: nat)
    ensures size > 0 && (configured > 0 ==> size == configured) && (configured <= 0 ==> size == 100)
  {
    if configured > 0 then configured else DEFAULT_BATCH
  }

  // The atomic steps.

  function Append(w: Writer, p: Pending): Writer {
    w.(buffer := w.buffer + [p])
  }

  /** A non-blocking send: a full channel stays full. */
  function Signal(w: Writer, full: bool): Writer {
    w.(wake := w.wake || full)
  }

  function Take(w: Writer): Writer {
    w.(buffer := [])
  }

  ghost function FateOf(backend: Backend, size: nat): Fate {
    match backend
    case Disabled => Skipped
    case Enabled(prepares, appends, sends) =>
      if prepares && (forall k | 0 <= k < size :: appends(k)) && sends then Stored else Dropped
  }

  function Insert(w: Writer, batch: seq<Pending>, fate: Fate): Writer {
    if fate.Stored? then w.(table := w.table + batch) else w
  }

  /** The record handles of a batch, in order. */
  function Records(batch: seq<Pending>): seq<nat> {
    if batch == [] then []
    else
      var n := |batch| - 1;
      Records(batch[..n]) + if batch[n].record.Some? then [batch[n].record.value] else []
  }

  /** Of a batch that came from Kafka, each record once and in order. */
  lemma {:induction false} RecordsInOrder(batch: seq<Pending>)
    requires forall k | 0 <= k < |batch| :: batch[k].record.Some?
    ensures |Records(batch)| == |batch| && forall k | 0 <= k < |batch| :: Records(batch)[k] == batch[k].record.value
  {
    if batch != [] {
      RecordsInOrder(batch[..|batch| - 1]);
    }
  }

  function CommitBatch(w: Writer, batch: seq<Pending>, committer: bool): Writer {
    if !committer || Records(batch) == [] then w
    else w.(commits := w.commits + [OfBatch(Records(batch))])
  }

  // The calls.

  /** A flush of a non-empty buffer when nothing else steps in between. */
  ghost function Flushed(w: Writer, backend: Backend, committer: bool): Writer {
    var fate := FateOf(backend, |w.buffer|);
    var inserted := Insert(Take(w), w.buffer, fate);
    if fate.Dropped? then inserted else CommitBatch(inserted, w.buffer, committer)
  }

  class Buffer {
    const batchSize: nat
    const committer: bool
    var buffer: seq<Pending>
    var flushCh: bool
    var done: bool
    var table: seq<Pending>
    var commits: seq<Commit>

    function Value(): Writer
      reads this
    {
      Writer(buffer, flushCh, done, table, commits)
    }

    constructor (configured: int, hasCommitter: bool)
      ensures batchSize == BatchSize(configured) && committer == hasCommitter
      ensures Value() == Writer([], false, false, [], [])
    {
      batchSize, committer := BatchSize(configured), hasCommitter;
      buffer, flushCh, done, table, commits := [], false, false, [], [];
    }

    /** The event joins the end of the buffer, and a buffer of batchSize or more leaves a wake-up behind. */
    method Add(p: Pending)
      modifies this
      ensures Value() == Signal(Append(old(Value()), p), |old(buffer)| + 1 >= batchSize)
      ensures buffer == old(buffer) + [p] && (flushCh <==> old(flushCh) || |buffer| >= batchSize)
    {
      buffer := buffer + [p];
      var shouldFlush := |buffer| >= batchSize;
      if shouldFlush {
        if !flushCh {
          flushCh := true;
        }
      }
    }

    /** A batch is stored whole or not at all, and its records are committed unless it was dropped. */
    method Flush(backend: Backend)
      modifies this
      ensures Value() == if old(buffer) == [] then old(Value()) else Flushed(old(Value()), backend, committer)
      ensures buffer == [] && flushCh == old(flushCh) && done == old(done)
      ensures table == old(table) || table == old(table) + old(buffer)
      ensures backend.Disabled? ==> table == old(table)
      ensures backend.Enabled? && old(buffer) != [] ==>
        (table == old(table) + old(buffer) <==>
           backend.prepares && backend.sends && forall k | 0 <= k < |old(buffer)| :: backend.appends(k))
      ensures backend.Enabled? && commits != old(commits) ==> old(buffer) != [] && table == old(table) + old(buffer)
      ensures commits == old(commits) || commits == old(commits) + [OfBatch(Records(old(buffer)))]
      ensures committer && Records(old(buffer)) != [] && (backend.Disabled? || table == old(table) + old(buffer)) ==>
        commits == old(commits) + [OfBatch(Records(old(buffer)))]
    {
      if |buffer| == 0 {
        return;
      }
      var batch := buffer;
      buffer := [];
      if backend.Disabled? {
        CommitAll(batch);
        return;
      }
      if !backend.prepares {
        return;
      }
      var chBatch: seq<Pending> := [];
      for i := 0 to |batch|
        invariant chBatch == batch[..i] && forall k | 0 <= k < i :: backend.appends(k)
        invariant Value() == Take(old(Value()))
      {
        if !backend.appends(i) {
          return;
        }
        chBatch := chBatch + [batch[i]];
      }
      if !backend.sends {
        return;
      }
      table := table + chBatch;
      CommitAll(batch);
    }

    method CommitAll(batch: seq<Pending>)
      modifies this
      ensures Value() == CommitBatch(old(Value()), batch, committer)
    {
      if !committer {
        return;
      }
      var records: seq<nat> := [];
      for i := 0 to |batch|
        invariant records == Records(batch[..i])
        invariant Value() == old(Value())
      {
        assert batch[..i + 1][..i] == batch[..i];
        if batch[i].record.Some? {
          records := records + [batch[i].record.value];
        }
      }
      assert batch[..|batch|] == batch;
      if |records| == 0 {
        return;
      }
      commits := commits + [OfBatch(records)];
    }

    /** Closing the channel once or again leaves it closed. */
    method Stop()
      modifies this
      ensures Value() == old(Value()).(done := true)
    {
      if !done {
        done := true;
      }
    }
  }
}
