/**
  The goroutines around the batch writer: one polls Kafka and adds events, one flushes, and one stops
  the consumer. Any of them may take its next atomic step at any time.
*/
module BatchRuns {
  import opened Options
  import opened BatchWriter

  /** A Kafka record; None when it does not decode. */
  datatype Record = Record(handle: nat, decoded: Option<CloudEvent>)

  predicate ValidEvent(e: CloudEvent) {
    e.id != "" && e.eventType != "" && e.source != "" && e.time != 0
  }

  predicate Accepts(r: Record) {
    r.decoded.Some? && ValidEvent(r.decoded.value)
  }

  /** Signalling: between the unlock in Add and the send on the channel. */
  datatype Poller = Polling | Handling(rest: seq<Record>) | Signalling(rest: seq<Record>, full: bool) | Exited

  datatype Stopper = Running | Cancelled | Closed | Waited

  /** last marks the flush that the closed channel asked for. */
  datatype Flusher =
    | Selecting
    | Starting(last: bool)
    | Holding(batch: seq<Pending>, last: bool)
    | Committing(batch: seq<Pending>, last: bool)
    | Finished

  datatype Flushed = Flushed(batch: seq<Pending>, fate: Fate)

  /** handled and history record what was done, in order; nothing reads them. */
  datatype System = System(
    writer: Writer, poller: Poller, stopper: Stopper, flusher: Flusher,
    handled: seq<Record>, history: seq<Flushed>)

  datatype Setup = Setup(batchSize: nat, committer: bool, client: bool)

  ghost predicate Configured(c: Setup) {
    c.batchSize > 0
  }

  /** After Start. Without a Kafka client nothing polls. */
  function Initial(c: Setup): System {
    System(Writer([], false, false, [], []), if c.client then Polling else Exited, Running, Selecting, [], [])
  }

  datatype Event =
    | Fetched(records: seq<Record>, cancelError: bool)
    | Handle
    | Send
    | Cancel
    | Close
    | Await
    | CloseDone
    | Tick
    | Wake
    | Done
    | TakeBatch
    | Deliver(backend: Backend)
    | CommitTaken

  /** A step that is not enabled leaves the system as it is. */
  ghost function Step(c: Setup, s: System, e: Event): System {
    match e
    case Fetched(records, cancelError) =>
      if !s.poller.Polling? then s
      else if cancelError || !s.stopper.Running? then s.(poller := Exited)
      else s.(poller := Handling(records))
    case Handle => if s.poller.Handling? then HandleStep(c, s) else s
    case Send =>
      if s.poller.Signalling? then s.(writer := Signal(s.writer, s.poller.full), poller := Handling(s.poller.rest)) else s
    case Cancel => if s.stopper.Running? then s.(stopper := Cancelled) else s
    case Close => if s.stopper.Cancelled? then s.(stopper := Closed) else s
    case Await => if s.stopper.Closed? && (c.client ==> s.poller.Exited?) then s.(stopper := Waited) else s
    case CloseDone => if s.stopper.Waited? then s.(writer := s.writer.(done := true)) else s
    case Tick => if s.flusher.Selecting? then s.(flusher := Starting(false)) else s
    case Wake =>
      if s.flusher.Selecting? && s.writer.wake
      then s.(flusher := Starting(false), writer := s.writer.(wake := false)) else s
    case Done => if s.flusher.Selecting? && s.writer.done then s.(flusher := Starting(true)) else s
    case TakeBatch =>
      if !s.flusher.Starting? then s
      else if s.writer.buffer == [] then s.(flusher := Next(s.flusher.last))
      else s.(flusher := Holding(s.writer.buffer, s.flusher.last), writer := Take(s.writer))
    case Deliver(backend) => if s.flusher.Holding? then DeliverStep(s, backend) else s
    case CommitTaken =>
      if s.flusher.Committing?
      then s.(writer := CommitBatch(s.writer, s.flusher.batch, c.committer), flusher := Next(s.flusher.last)) else s
  }

  function Next(last: bool): Flusher {
    if last then Finished else Selecting
  }

  function HandleStep(c: Setup, s: System): System
    requires s.poller.Handling?
  {
    var rest := s.poller.rest;
    if rest == [] then s.(poller := Polling)
    else if Accepts(rest[0]) then
      var w := Append(s.writer, Pending(rest[0].decoded.value, Some(rest[0].handle)));
      s.(writer := w, poller := Signalling(rest[1..], |w.buffer| >= c.batchSize), handled := s.handled + [rest[0]])
    else
      s.(writer := s.writer.(commits := s.writer.commits + [OfRefused(rest[0].handle)]),
         poller := Handling(rest[1..]), handled := s.handled + [rest[0]])
  }

  ghost function DeliverStep(s: System, backend: Backend): System
    requires s.flusher.Holding?
  {
    var batch, last := s.flusher.batch, s.flusher.last;
    var fate := FateOf(backend, |batch|);
    s.(writer := Insert(s.writer, batch, fate), history := s.history + [Flushed(batch, fate)],
       flusher := if fate.Dropped? then Next(last) else Committing(batch, last))
  }

  ghost function Run(c: Setup, evs: seq<Event>): System {
    if evs == [] then Initial(c) else Step(c, Run(c, evs[..|evs| - 1]), evs[|evs| - 1])
  }

  // What the steps have added, taken, stored and committed.

  function Added(handled: seq<Record>): seq<Pending> {
    if handled == [] then []
    else
      var r := handled[|handled| - 1];
      Added(handled[..|handled| - 1]) + if Accepts(r) then [Pending(r.decoded.value, Some(r.handle))] else []
  }

  function Refused(handled: seq<Record>): seq<nat> {
    if handled == [] then []
    else
      var r := handled[|handled| - 1];
      Refused(handled[..|handled| - 1]) + if Accepts(r) then [] else [r.handle]
  }

  /** The flushed batches with one of the fates, joined in order. */
  ghost function Joined(history: seq<Flushed>, fates: set<Fate>): seq<Pending> {
    if history == [] then []
    else
      var h := history[|history| - 1];
      Joined(history[..|history| - 1], fates) + if h.fate in fates then h.batch else []
  }

  function BatchCommits(commits: seq<Commit>): seq<nat> {
    if commits == [] then []
    else
      var c := commits[|commits| - 1];
      BatchCommits(commits[..|commits| - 1]) + if c.OfBatch? then c.records else []
  }

  function RefusedCommits(commits: seq<Commit>): seq<nat> {
    if commits == [] then []
    else
      var c := commits[|commits| - 1];
      RefusedCommits(commits[..|commits| - 1]) + if c.OfBatch? then [] else [c.record]
  }

  function Held(f: Flusher): seq<Pending> {
    if f.Holding? then f.batch else []
  }

  function Uncommitted(f: Flusher): seq<Pending> {
    if f.Committing? then f.batch else []
  }

  lemma {:induction false} RecordsJoin(a: seq<Pending>, b: seq<Pending>)
    ensures Records(a + b) == Records(a) + Records(b)
  {
    if b == [] {
      assert a + b == a;
    } else {
      var n := |b| - 1;
      RecordsJoin(a, b[..n]);
      assert (a + b)[..|a + b| - 1] == a + b[..n];
    }
  }

  // The invariant, one predicate for each concern.

  /** Every accepted event is in a flushed batch, in the held batch or in the buffer, in the order they came. */
  ghost predicate Accounted(s: System) {
    Joined(s.history, {Stored, Dropped, Skipped}) + Held(s.flusher) + s.writer.buffer == Added(s.handled)
  }

  /** The table holds the stored batches, whole and in order, and nothing else. */
  ghost predicate TableWhole(s: System) {
    s.writer.table == Joined(s.history, {Stored})
  }

  /** The writer commits the records of stored and skipped batches, after that fate was decided. */
  ghost predicate CommitsFollow(c: Setup, s: System) {
    && (c.committer ==> BatchCommits(s.writer.commits) + Records(Uncommitted(s.flusher)) == Records(Joined(s.history, {Stored, Skipped})))
    && (!c.committer ==> BatchCommits(s.writer.commits) == [])
    && RefusedCommits(s.writer.commits) == Refused(s.handled)
  }

  /** A buffer that reached its size has a wake-up on the channel, one being sent, or a flush about to take it. */
  ghost predicate NoWakeUpLost(c: Setup, s: System) {
    |s.writer.buffer| >= c.batchSize ==>
      s.writer.wake || (s.poller.Signalling? && s.poller.full) || s.flusher.Starting?
  }

  /** The channel is closed only after polling ended, so nothing is added after the last flush took the buffer. */
  ghost predicate StopOrder(c: Setup, s: System) {
    && (!c.client ==> s.poller.Exited?)
    && (s.stopper.Waited? ==> s.poller.Exited?)
    && (s.writer.done ==> s.stopper.Waited?)
    && (s.flusher.Finished? || (!s.flusher.Selecting? && s.flusher.last) ==> s.writer.done)
    && (s.flusher.Finished? || (!s.flusher.Selecting? && !s.flusher.Starting? && s.flusher.last) ==> s.writer.buffer == [])
  }

  lemma JoinedNext(history: seq<Flushed>, h: Flushed, fates: set<Fate>)
    ensures Joined(history + [h], fates) == Joined(history, fates) + if h.fate in fates then h.batch else []
  {
    assert (history + [h])[..|history|] == history;
  }

  lemma HandledNext(handled: seq<Record>, r: Record)
    ensures Accepts(r) ==> Added(handled + [r]) == Added(handled) + [Pending(r.decoded.value, Some(r.handle))]
    ensures Accepts(r) ==> Refused(handled + [r]) == Refused(handled)
    ensures !Accepts(r) ==> Added(handled + [r]) == Added(handled)
    ensures !Accepts(r) ==> Refused(handled + [r]) == Refused(handled) + [r.handle]
  {
    assert (handled + [r])[..|handled|] == handled;
  }

  lemma CommitsNext(commits: seq<Commit>, c: Commit)
    ensures BatchCommits(commits + [c]) == BatchCommits(commits) + if c.OfBatch? then c.records else []
    ensures RefusedCommits(commits + [c]) == RefusedCommits(commits) + if c.OfBatch? then [] else [c.record]
  {
    assert (commits + [c])[..|commits|] == commits;
  }

  /** What a step leaves alone: all but four kinds of step keep the ledger. */
  lemma StepKinds(c: Setup, s: System, e: Event)
    ensures var t := Step(c, s, e);
      && (!e.Handle? ==> t.handled == s.handled)
      && (!e.Deliver? ==> t.history == s.history && t.writer.table == s.writer.table)
      && (!e.Handle? && !e.CommitTaken? ==> t.writer.commits == s.writer.commits)
      && (!e.Handle? && !e.TakeBatch? ==> t.writer.buffer == s.writer.buffer)
      && (!e.TakeBatch? && !e.Deliver? ==> Held(t.flusher) == Held(s.flusher))
      && (!e.Deliver? && !e.CommitTaken? ==> Uncommitted(t.flusher) == Uncommitted(s.flusher))
  {
  }

  lemma StepAccounts(c: Setup, s: System, e: Event)
    requires Accounted(s)
    ensures Accounted(Step(c, s, e))
  {
    hide Joined, Added;
    StepKinds(c, s, e);
    if e.Handle? && s.poller.Handling? && s.poller.rest != [] {
      HandledNext(s.handled, s.poller.rest[0]);
    } else if e.Deliver? && s.flusher.Holding? {
      hide FateOf;
      JoinedNext(s.history, Step(c, s, e).history[|s.history|], {Stored, Dropped, Skipped});
    }
  }

  lemma StepKeepsTable(c: Setup, s: System, e: Event)
    requires TableWhole(s)
    ensures TableWhole(Step(c, s, e))
  {
    hide Joined, FateOf;
    StepKinds(c, s, e);
    if e.Deliver? && s.flusher.Holding? {
      JoinedNext(s.history, Step(c, s, e).history[|s.history|], {Stored});
    }
  }

  lemma StepCommits(c: Setup, s: System, e: Event)
    requires CommitsFollow(c, s)
    ensures CommitsFollow(c, Step(c, s, e))
  {
    hide Joined, FateOf, BatchCommits, RefusedCommits, Added, Refused;
    StepKinds(c, s, e);
    if e.Handle? && s.poller.Handling? && s.poller.rest != [] {
      HandledNext(s.handled, s.poller.rest[0]);
      CommitsNext(s.writer.commits, OfRefused(s.poller.rest[0].handle));
    } else if e.Deliver? && s.flusher.Holding? {
      var t, before := Step(c, s, e), Joined(s.history, {Stored, Skipped});
      var flushed := t.history[|s.history|];
      assert t.history == s.history + [flushed];
      JoinedNext(s.history, flushed, {Stored, Skipped});
      if flushed.fate.Dropped? {
        assert Uncommitted(t.flusher) == Uncommitted(s.flusher) == [];
        assert Joined(t.history, {Stored, Skipped}) == before;
        return;
      }
      RecordsJoin(before, s.flusher.batch);
      assert Joined(t.history, {Stored, Skipped}) == before + s.flusher.batch;
      assert BatchCommits(s.writer.commits) + Records([]) == BatchCommits(s.writer.commits);
    } else if e.CommitTaken? && s.flusher.Committing? {
      CommitsNext(s.writer.commits, OfBatch(Records(s.flusher.batch)));
    }
  }

  lemma StepKeepsWakeUp(c: Setup, s: System, e: Event)
    requires Configured(c) && NoWakeUpLost(c, s)
    ensures NoWakeUpLost(c, Step(c, s, e))
  {
  }

  lemma StepKeepsStopOrder(c: Setup, s: System, e: Event)
    requires StopOrder(c, s)
    ensures StopOrder(c, Step(c, s, e))
  {
  }

  ghost predicate Inv(c: Setup, s: System) {
    Accounted(s) && TableWhole(s) && CommitsFollow(c, s) && NoWakeUpLost(c, s) && StopOrder(c, s)
  }

  lemma {:induction false} RunKeepsInv(c: Setup, evs: seq<Event>)
    requires Configured(c)
    ensures Inv(c, Run(c, evs))
  {
    if evs != [] {
      var s, e := Run(c, evs[..|evs| - 1]), evs[|evs| - 1];
      RunKeepsInv(c, evs[..|evs| - 1]);
      StepAccounts(c, s, e);
      StepKeepsTable(c, s, e);
      StepCommits(c, s, e);
      StepKeepsWakeUp(c, s, e);
      StepKeepsStopOrder(c, s, e);
    }
  }

  // The main results.

  lemma {:induction false} JoinedSplits(history: seq<Flushed>)
    ensures multiset(Joined(history, {Stored, Dropped, Skipped}))
         == multiset(Joined(history, {Stored})) + multiset(Joined(history, {Dropped})) + multiset(Joined(history, {Skipped}))
  {
    if history != [] {
      JoinedSplits(history[..|history| - 1]);
    }
  }

  /** Every accepted event is in exactly one place: the table, a dropped batch, a skipped batch, the flusher's hands or the buffer. */
  lemma EachEventInOnePlace(c: Setup, evs: seq<Event>)
    requires Configured(c)
    ensures var s := Run(c, evs);
      multiset(Added(s.handled)) ==
        multiset(s.writer.table) + multiset(Joined(s.history, {Dropped})) + multiset(Joined(s.history, {Skipped}))
        + multiset(Held(s.flusher)) + multiset(s.writer.buffer)
  {
    var s := Run(c, evs);
    RunKeepsInv(c, evs);
    JoinedSplits(s.history);
  }

  /** A full buffer is never left waiting for the ticker: the flusher at rest has a wake-up to take, or one is being sent. */
  lemma FullBufferWakesFlusher(c: Setup, evs: seq<Event>)
    requires Configured(c)
    ensures var s := Run(c, evs);
      |s.writer.buffer| >= c.batchSize && s.flusher.Selecting? && !s.poller.Signalling? ==>
        Step(c, s, Wake).flusher == Starting(false)
  {
    RunKeepsInv(c, evs);
  }

  /** When the flusher has ended, every accepted event was flushed and every record of a batch not dropped committed. */
  lemma NothingLeftBehind(c: Setup, evs: seq<Event>)
    requires Configured(c)
    ensures var s := Run(c, evs);
      s.flusher.Finished? ==>
        && s.poller.Exited? && s.writer.buffer == []
        && Joined(s.history, {Stored, Dropped, Skipped}) == Added(s.handled)
        && (c.committer ==> BatchCommits(s.writer.commits) == Records(Joined(s.history, {Stored, Skipped})))
  {
    RunKeepsInv(c, evs);
  }

  lemma {:induction false} RecordsFrom(batch: seq<Pending>, record: nat)
    ensures record in Records(batch) <==> exists p :: p in batch && p.record == Some(record)
  {
    if batch != [] {
      var n := |batch| - 1;
      RecordsFrom(batch[..n], record);
      assert batch == batch[..n] + [batch[n]];
    }
  }

  /** The records of a poll that the consumer takes. */
  function Taken(s: System, e: Event): seq<Record> {
    if e.Fetched? && s.poller.Polling? && !e.cancelError && s.stopper.Running? then e.records else []
  }

  ghost function FetchedRecords(c: Setup, evs: seq<Event>): seq<Record> {
    if evs == [] then []
    else FetchedRecords(c, evs[..|evs| - 1]) + Taken(Run(c, evs[..|evs| - 1]), evs[|evs| - 1])
  }

  function Unhandled(p: Poller): seq<Record> {
    match p
    case Handling(rest) => rest
    case Signalling(rest, _) => rest
    case _ => []
  }

  /** Every record that was fetched is handled, once and in order, or still to be. */
  lemma {:induction false} FetchedAreHandled(c: Setup, evs: seq<Event>)
    ensures FetchedRecords(c, evs) == Run(c, evs).handled + Unhandled(Run(c, evs).poller)
  {
    hide Step, Taken, Unhandled;
    if evs != [] {
      FetchedAreHandled(c, evs[..|evs| - 1]);
      StepHandles(c, Run(c, evs[..|evs| - 1]), evs[|evs| - 1]);
    } else {
      NothingFetched(c);
    }
  }

  lemma NothingFetched(c: Setup)
    ensures Initial(c).handled + Unhandled(Initial(c).poller) == []
  {
  }

  lemma StepHandles(c: Setup, s: System, e: Event)
    ensures var next := Step(c, s, e); next.handled + Unhandled(next.poller) == s.handled + Unhandled(s.poller) + Taken(s, e)
  {
    if e.Handle? && s.poller.Handling? && s.poller.rest != [] {
      assert s.poller.rest == [s.poller.rest[0]] + s.poller.rest[1..];
      HandleKeeps(c, s);
    }
    hide HandleStep, DeliverStep, CommitBatch, Signal, Take;
  }

  lemma HandleKeeps(c: Setup, s: System)
    requires s.poller.Handling? && s.poller.rest != []
    ensures var next := HandleStep(c, s);
      next.handled == s.handled + [s.poller.rest[0]] && Unhandled(next.poller) == s.poller.rest[1..]
  {
  }

  /** What is buffered are the handled records that decode and have an id, a type, a source and a time. */
  lemma {:induction false} AddedMeans(handled: seq<Record>, p: Pending)
    ensures p in Added(handled) <==> exists r | r in handled ::
      && r.decoded == Some(p.event) && p.record == Some(r.handle)
      && p.event.id != "" && p.event.eventType != "" && p.event.source != "" && p.event.time != 0
  {
    if handled != [] {
      var n := |handled| - 1;
      AddedMeans(handled[..n], p);
      assert handled == handled[..n] + [handled[n]];
    }
  }

  /** The others are committed at once. */
  lemma {:induction false} RefusedMeans(handled: seq<Record>, handle: nat)
    ensures handle in Refused(handled) <==> exists r | r in handled ::
      && r.handle == handle
      && (r.decoded.None? || r.decoded.value.id == "" || r.decoded.value.eventType == "" || r.decoded.value.source == ""
          || r.decoded.value.time == 0)
  {
    if handled != [] {
      var n := |handled| - 1;
      RefusedMeans(handled[..n], handle);
      assert handled == handled[..n] + [handled[n]];
    }
  }

  /** What ClickHouse answered at each delivery of the run. */
  ghost function Deliveries(c: Setup, evs: seq<Event>): seq<Backend> {
    if evs == [] then []
    else
      var n := |evs| - 1;
      Deliveries(c, evs[..n])
        + if evs[n].Deliver? && Run(c, evs[..n]).flusher.Holding? then [evs[n].backend] else []
  }

  /** Nothing is wrong with the batch for ClickHouse. */
  ghost predicate TakesAll(backend: Backend, size: nat) {
    backend.Enabled? && backend.prepares && backend.sends && forall k | 0 <= k < size :: backend.appends(k)
  }

  /** Each flushed batch was stored exactly when ClickHouse took all of it, and skipped exactly when there was none. */
  lemma {:induction false} FatesFollow(c: Setup, evs: seq<Event>)
    ensures var history, answers := Run(c, evs).history, Deliveries(c, evs);
      && |history| == |answers|
      && forall k | 0 <= k < |history| ::
           && (history[k].fate.Skipped? <==> answers[k].Disabled?)
           && (history[k].fate.Stored? <==> TakesAll(answers[k], |history[k].batch|))
  {
    if evs != [] {
      var n := |evs| - 1;
      FatesFollow(c, evs[..n]);
      StepKinds(c, Run(c, evs[..n]), evs[n]);
      if evs[n].Deliver? && Run(c, evs[..n]).flusher.Holding? {
        FateMeans(evs[n].backend, |Run(c, evs[..n]).flusher.batch|);
      }
      hide FateOf, TakesAll, Insert, CommitBatch;
    }
  }

  lemma FateMeans(backend: Backend, size: nat)
    ensures FateOf(backend, size).Skipped? <==> backend.Disabled?
    ensures FateOf(backend, size).Stored? <==> TakesAll(backend, size)
  {
  }

  lemma {:induction false} DeliveriesFrom(c: Setup, evs: seq<Event>)
    ensures forall b | b in Deliveries(c, evs) :: Deliver(b) in evs
  {
    if evs != [] {
      DeliveriesFrom(c, evs[..|evs| - 1]);
    }
  }

  /** With ClickHouse throughout, every record that the writer commits has its event in the table. */
  lemma CommittedIsInTable(c: Setup, evs: seq<Event>, record: nat)
    requires Configured(c) && Deliver(Disabled) !in evs && record in BatchCommits(Run(c, evs).writer.commits)
    ensures exists p :: p in Run(c, evs).writer.table && p.record == Some(record)
  {
    var history := Run(c, evs).history;
    FatesFollow(c, evs);
    DeliveriesFrom(c, evs);
    forall h | h in history
      ensures !h.fate.Skipped?
    {
      var k :| 0 <= k < |history| && history[k] == h;
      assert Deliveries(c, evs)[k] in Deliveries(c, evs);
    }
    CommittedWasStored(c, evs, record);
  }

  /** The writer never commits a record before its event was sent to ClickHouse, unless there is no ClickHouse. */
  lemma CommittedWasStored(c: Setup, evs: seq<Event>, record: nat)
    requires Configured(c) && record in BatchCommits(Run(c, evs).writer.commits)
    ensures exists p :: p in Joined(Run(c, evs).history, {Stored, Skipped}) && p.record == Some(record)
    ensures (forall h | h in Run(c, evs).history :: !h.fate.Skipped?) ==>
      exists p :: p in Run(c, evs).writer.table && p.record == Some(record)
  {
    var s := Run(c, evs);
    RunKeepsInv(c, evs);
    RecordsFrom(Joined(s.history, {Stored, Skipped}), record);
    if forall h | h in s.history :: !h.fate.Skipped? {
      NoneSkipped(s.history);
    }
  }

  lemma {:induction false} NoneSkipped(history: seq<Flushed>)
    requires forall h | h in history :: !h.fate.Skipped?
    ensures Joined(history, {Stored, Skipped}) == Joined(history, {Stored})
  {
    if history != [] {
      var n := |history| - 1;
      assert history == history[..n] + [history[n]];
      NoneSkipped(history[..n]);
    }
  }

  // Nothing gets stuck.

  lemma RunNext(c: Setup, evs: seq<Event>, e: Event)
    ensures Run(c, evs + [e]) == Step(c, Run(c, evs), e)
  {
    assert (evs + [e])[..|evs|] == evs;
  }

  /** From any state the poller can handle what it holds and be back at the next poll, if it has not ended. */
  lemma {:induction false} PollerDrains(c: Setup, evs: seq<Event>) returns (all: seq<Event>)
    ensures evs <= all && Run(c, all).poller in {Polling, Exited}
    ensures Run(c, all).stopper == Run(c, evs).stopper && Run(c, all).flusher == Run(c, evs).flusher
    decreases |Unhandled(Run(c, evs).poller)|, if Run(c, evs).poller.Handling? then 1 else 2
  {
    var s := Run(c, evs);
    if s.poller.Polling? || s.poller.Exited? {
      return evs;
    }
    var e := if s.poller.Signalling? then Send else Handle;
    RunNext(c, evs, e);
    PollerStep(c, s);
    hide Run, Step;
    if s.poller.Handling? && s.poller.rest == [] {
      all := evs + [e];
    } else {
      all := PollerDrains(c, evs + [e]);
    }
  }

  lemma PollerStep(c: Setup, s: System)
    requires s.poller.Signalling? || s.poller.Handling?
    ensures var next := Step(c, s, if s.poller.Signalling? then Send else Handle);
      && next.stopper == s.stopper && next.flusher == s.flusher
      && (s.poller.Signalling? ==> next.poller == Handling(s.poller.rest))
      && (s.poller.Handling? && s.poller.rest == [] ==> next.poller == Polling)
      && (s.poller.Handling? && s.poller.rest != [] ==>
            Unhandled(next.poller) == s.poller.rest[1..] && (next.poller.Handling? || next.poller.Signalling?))
  {
  }

  /** From any state the flusher can finish the batch in its hands. */
  lemma FlusherRests(c: Setup, evs: seq<Event>) returns (all: seq<Event>)
    ensures evs <= all && Run(c, all).flusher in {Selecting, Finished}
    ensures Run(c, evs).flusher == Starting(true) ==> Run(c, all).flusher == Finished
    ensures Run(c, all).poller == Run(c, evs).poller && Run(c, all).stopper == Run(c, evs).stopper
    ensures Run(c, all).writer.done == Run(c, evs).writer.done
  {
    all := evs;
    RunNext(c, all, TakeBatch);
    all := all + [TakeBatch];
    RunNext(c, all, Deliver(Disabled));
    all := all + [Deliver(Disabled)];
    RunNext(c, all, CommitTaken);
    all := all + [CommitTaken];
    hide Run;
  }

  /** From every state that a run reaches the service can stop, with the flusher ended and nothing left in the buffer. */
  lemma CanStop(c: Setup, evs: seq<Event>) returns (all: seq<Event>)
    requires Configured(c)
    ensures evs <= all && Run(c, all).flusher == Finished && Run(c, all).writer.buffer == []
  {
    all := PollerDrains(c, evs);
    all := FlusherRests(c, all);
    all := StopsIn(c, all);
    if !Run(c, all).flusher.Finished? {
      RunNext(c, all, Done);
      all := all + [Done];
      hide Run;
      all := FlusherRests(c, all);
    }
    NothingLeftBehind(c, all);
  }

  /** The stop order, once nothing is being handled. */
  lemma StopsIn(c: Setup, evs: seq<Event>) returns (all: seq<Event>)
    requires Configured(c) && Run(c, evs).poller in {Polling, Exited} && Run(c, evs).flusher in {Selecting, Finished}
    ensures evs <= all && Run(c, all).flusher == Run(c, evs).flusher && Run(c, all).writer.done
  {
    RunKeepsInv(c, evs);
    RunNext(c, evs, Cancel);
    all := evs + [Cancel];
    RunNext(c, all, Fetched([], true));
    all := all + [Fetched([], true)];
    RunNext(c, all, Close);
    all := all + [Close];
    RunNext(c, all, Await);
    all := all + [Await];
    RunNext(c, all, CloseDone);
    all := all + [CloseDone];
    hide Run, Accounted, TableWhole, CommitsFollow, NoWakeUpLost;
  }
}
