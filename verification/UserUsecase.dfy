/**
  Optimistic writes of the example service against arbitrary interference: before each repository
  statement of a call, other clients run any events of their own.
*/
module UserUsecase {
  import opened Options
  import opened UserTable

  const MAX_UNDELETE_ATTEMPTS := 3

  datatype Answer = Ok(row: Row) | NotFound | AlreadyExists | EtagMismatch | LifecycleChanged

  datatype Result = Hit(row: Row) | Absent

  function Others(evs: seq<Event>, me: Client): (r: seq<Event>)
    ensures forall k | 0 <= k < |r| :: r[k].client != me
  {
    if evs == [] then []
    else if evs[0].client == me then Others(evs[1..], me)
    else [evs[0]] + Others(evs[1..], me)
  }

  /** The row that a restore alone leaves: of a tombstone everything but the mark, under a new etag; of an active row the row. */
  function Restored(st: State, name: Name): Row
    requires name in st.table
  {
    var row := st.table[name];
    if row.deleted then Row(st.next, false, row.content) else row
  }

  /** The repository of one client. trace is everything that ran on the table since origin. */
  class Repo {
    const me: Client
    var st: State
    var schedule: seq<seq<Event>>
    ghost const origin: State
    ghost var trace: seq<Event>

    constructor (me: Client, st: State, schedule: seq<seq<Event>>)
      requires Sound(st)
      ensures Valid() && this.me == me && this.st == st && this.schedule == schedule && origin == st && trace == []
    {
      this.me, this.st, this.schedule := me, st, schedule;
      origin, trace := st, [];
    }

    ghost predicate Valid()
      reads this
    {
      Sound(origin) && Sound(st) && st == Run(origin, trace)
    }

    /** One event at the end of the trace. */
    method Execute(ev: Event)
      requires Valid()
      modifies this`st, this`trace
      ensures Valid() && st == Apply(old(st), ev) && trace == old(trace) + [ev]
    {
      hide Apply, Sound;
      ApplyKeepsSound(st, ev);
      st := Apply(st, ev);
      trace := trace + [ev];
      assert trace[..|trace| - 1] == old(trace);
    }

    /** The next batch of events by others. */
    method Interfere() returns (ghost batch: seq<Event>)
      requires Valid()
      modifies this
      ensures Valid() && trace == old(trace) + batch && st == Run(old(st), batch)
      ensures forall k | 0 <= k < |batch| :: batch[k].client != me
      ensures old(schedule) == [] ==> batch == [] && schedule == []
    {
      batch := [];
      if schedule == [] {
        assert trace + [] == trace;
        return;
      }
      var todo := Others(schedule[0], me);
      schedule := schedule[1..];
      batch := todo;
      for i := 0 to |todo|
        invariant Valid() && trace == old(trace) + todo[..i] && st == Run(old(st), todo[..i])
      {
        Execute(todo[i]);
        assert todo[..i + 1][..i] == todo[..i];
      }
      assert todo[..|todo|] == todo;
    }

    method NewEtag() returns (etag: Etag)
      requires Valid()
      modifies this`st, this`trace
      ensures Valid() && etag == old(st).next && Holds(st, me, etag)
      ensures st == Apply(old(st), Draw(me)) && trace == old(trace) + [Draw(me)]
    {
      etag := st.next;
      Execute(Draw(me));
    }

    method GetUser(name: Name, includeDeleted: bool) returns (r: Result, ghost batch: seq<Event>)
      requires Valid()
      modifies this
      ensures Valid() && trace == old(trace) + batch && st == Run(old(st), batch)
      ensures forall k | 0 <= k < |batch| :: batch[k].client != me
      ensures old(schedule) == [] ==> batch == [] && schedule == []
      ensures r == if name in st.table && (includeDeleted || !st.table[name].deleted) then Hit(st.table[name]) else Absent
    {
      batch := Interfere();
      r := if name in st.table && (includeDeleted || !st.table[name].deleted) then Hit(st.table[name]) else Absent;
    }

    /** A conditional write of this client, after others have run. */
    method Write(ev: Event) returns (landed: bool, ghost batch: seq<Event>)
      requires Valid() && ev.client == me
      modifies this
      ensures Valid() && trace == old(trace) + batch + [ev] && st == Apply(Run(old(st), batch), ev)
      ensures landed == Lands(Run(old(st), batch), ev)
      ensures forall k | 0 <= k < |batch| :: batch[k].client != me
      ensures old(schedule) == [] ==> batch == [] && schedule == []
    {
      batch := Interfere();
      landed := Lands(st, ev);
      Execute(ev);
    }
  }

  /** Others never touch the etags this client has drawn. */
  lemma {:induction false} PoolKept(st: State, evs: seq<Event>, me: Client, etag: Etag)
    requires Sound(st) && Holds(st, me, etag) && forall k | 0 <= k < |evs| :: evs[k].client != me
    ensures Holds(Run(st, evs), me, etag)
  {
    if evs != [] {
      PoolKept(st, evs[..|evs| - 1], me, etag);
      RunKeepsSound(st, evs[..|evs| - 1]);
    }
  }

  /** Event w of the trace is a write by me that landed, and nothing else wrote the row since position r. */
  ghost predicate CleanWrite(origin: State, trace: seq<Event>, name: Name, me: Client, r: nat, w: nat) {
    && r <= w < |trace|
    && Writes(trace[w], name) && trace[w].client == me && Lands(Run(origin, trace[..w]), trace[w])
    && forall k | r <= k < w :: !(Writes(trace[k], name) && Lands(Run(origin, trace[..k]), trace[k]))
  }

  /** A conditional write that expects the etag read at position r is clean. */
  lemma ExpectedIsClean(origin: State, trace: seq<Event>, name: Name, me: Client, r: nat, w: nat, e: Etag)
    requires Sound(origin) && r <= w < |trace|
    requires ActiveWith(Run(origin, trace[..r]), name, e)
    requires (trace[w].Update? || trace[w].Delete?) && trace[w].client == me && trace[w].name == name && trace[w].expected == e
    requires Lands(Run(origin, trace[..w]), trace[w])
    ensures CleanWrite(origin, trace, name, me, r, w)
  {
    EtagInterval(origin, trace, name, e, r, w);
  }

  /** What a conditional write that matched no row is answered with, after one more read. */
  function Explain(latest: Result, allowDeleted: bool): (answer: Answer)
    ensures answer.Ok? ==> allowDeleted && answer.row.deleted
    ensures latest.Hit? && !latest.row.deleted ==> answer == EtagMismatch
    ensures answer.Ok? || answer == NotFound || answer == EtagMismatch
  {
    if latest.Absent? then NotFound
    else if latest.row.deleted then (if allowDeleted then Ok(latest.row) else NotFound)
    else EtagMismatch
  }

  class Usecase {
    const repo: Repo

    constructor (repo: Repo)
      ensures this.repo == repo
    {
      this.repo := repo;
    }

    method CreateUser(name: Name, content: string) returns (answer: Answer)
      requires repo.Valid()
      modifies repo
      ensures repo.Valid() && old(repo.trace) <= repo.trace
      ensures answer.Ok? ==> !answer.row.deleted && answer.row.content == content
                             && name in repo.st.table && repo.st.table[name] == answer.row
      ensures answer.Ok? || (answer == AlreadyExists && name in repo.st.table)
      ensures old(repo.schedule) == [] ==> (answer.Ok? <==> name !in old(repo.st).table)
      ensures old(repo.schedule) == [] && answer.Ok? ==>
        answer.row == Row(old(repo.st).next, false, content) && repo.st.table == old(repo.st).table[name := answer.row]
    {
      var etag := repo.NewEtag();
      label drawn:
      var landed, batch := repo.Write(Create(repo.me, name, etag, content));
      PoolKept(old@drawn(repo.st), batch, repo.me, etag);
      answer := if landed then Ok(Row(etag, false, content)) else AlreadyExists;
    }

    /**
      readAt is the position of the initial read; writeAt the position of this call's landed write,
      if any. The answer is read again after the write, so it may be a later row or none.
     */
    method UpdateUser(name: Name, expected: Option<Etag>, allowMissing: bool, missingCreate: Option<string>, content: string)
      returns (answer: Answer, ghost readAt: nat, ghost writeAt: Option<nat>)
      requires repo.Valid()
      modifies repo
      ensures repo.Valid() && old(repo.trace) <= repo.trace && |old(repo.trace)| <= readAt <= |repo.trace|
      ensures writeAt.Some? ==> CleanWrite(repo.origin, repo.trace, name, repo.me, readAt, writeAt.value)
      ensures writeAt.Some? ==> repo.trace[writeAt.value].Update? && repo.trace[writeAt.value].content == content
      ensures var seen := Run(repo.origin, repo.trace[..readAt]);
        if !Active(seen, name) then
          writeAt.None?
          && if allowMissing && missingCreate.Some? then answer == AlreadyExists || (answer.Ok? && answer.row.content == missingCreate.value)
             else answer == NotFound
        else if expected.Some? && !ActiveWith(seen, name, expected.value) then
          writeAt.None? && answer == EtagMismatch
        else
          writeAt.Some? || (OthersWrote(repo.origin, repo.trace, name, repo.me, readAt, |repo.trace|)
                            && answer == if Active(repo.st, name) then EtagMismatch else NotFound)
      ensures answer.Ok? ==> writeAt.Some? || (allowMissing && missingCreate.Some?)
      ensures old(repo.schedule) == [] && writeAt.Some? ==>
        answer.Ok? && answer.row.content == content && repo.st.table == old(repo.st).table[name := answer.row]
    {
      EmptyRun();
      hide Run, CleanWrite, OthersWrote;
      ghost var start := repo.trace;
      writeAt := None;
      var read, batch := repo.GetUser(name, false);
      readAt := |repo.trace|;
      ghost var seen := repo.trace;
      assert seen[..readAt] == seen;
      if read.Absent? {
        if allowMissing && missingCreate.Some? {
          answer := CreateUser(name, missingCreate.value);
          assert repo.trace[..readAt] == seen;
          return;
        }
        return NotFound, readAt, None;
      }
      var current := read.row;
      if expected.Some? && expected.value != current.etag {
        return EtagMismatch, readAt, None;
      }
      answer, writeAt := UpdateRead(name, current, content);
      assert repo.trace[..readAt] == seen;
    }

    /** The write of an update after its read, which is the last thing in the trace. */
    method UpdateRead(name: Name, current: Row, content: string) returns (answer: Answer, ghost writeAt: Option<nat>)
      requires repo.Valid() && ActiveWith(repo.st, name, current.etag)
      modifies repo
      ensures repo.Valid() && old(repo.trace) <= repo.trace
      ensures writeAt.Some? ==> CleanWrite(repo.origin, repo.trace, name, repo.me, |old(repo.trace)|, writeAt.value)
      ensures writeAt.Some? ==> repo.trace[writeAt.value].Update? && repo.trace[writeAt.value].content == content
      ensures writeAt.None? ==>
        OthersWrote(repo.origin, repo.trace, name, repo.me, |old(repo.trace)|, |repo.trace|)
        && answer == if Active(repo.st, name) then EtagMismatch else NotFound
      ensures old(repo.schedule) == [] && writeAt.Some? ==>
        answer.Ok? && answer.row.content == content && repo.st.table == old(repo.st).table[name := answer.row]
    {
      EmptyRun();
      hide Run, CleanWrite, OthersWrote;
      ghost var seen, readAt := repo.trace, |repo.trace|;
      assert seen[..readAt] == seen;
      writeAt := None;
      var etag := repo.NewEtag();
      label drawn:
      var landed, batch2 := repo.Write(Update(repo.me, name, current.etag, etag, content));
      ghost var at := |repo.trace| - 1;
      ghost var wrote := repo.trace;
      assert wrote[..readAt] == seen && wrote[..at] == seen + [Draw(repo.me)] + batch2;
      RunAppend(repo.origin, seen, [Draw(repo.me)]);
      RunAppend(repo.origin, seen + [Draw(repo.me)], batch2);
      if !landed {
        PoolKept(old@drawn(repo.st), batch2, repo.me, etag);
        LostToOthers(repo.origin, wrote, name, repo.me, readAt, at, current.etag);
        var latest, batch3 := repo.GetUser(name, true);
        OthersExtend(repo.origin, wrote, batch3, name, repo.me, readAt, at);
        answer := Explain(latest, false);
        return;
      }
      ExpectedIsClean(repo.origin, wrote, name, repo.me, readAt, at, current.etag);
      var again, batch3 := repo.GetUser(name, false);
      writeAt := Some(at);
      CleanExtends(repo.origin, wrote, batch3, name, repo.me, readAt, at);
      answer := if again.Hit? then Ok(again.row) else NotFound;
    }

    method DeleteUser(name: Name, expected: Option<Etag>, allowMissing: bool)
      returns (answer: Answer, ghost readAt: nat, ghost writeAt: Option<nat>)
      requires repo.Valid()
      modifies repo
      ensures repo.Valid() && old(repo.trace) <= repo.trace && |old(repo.trace)| <= readAt <= |repo.trace|
      ensures writeAt.Some? ==> CleanWrite(repo.origin, repo.trace, name, repo.me, readAt, writeAt.value)
      ensures writeAt.Some? ==> repo.trace[writeAt.value].Delete? && answer.Ok?
      ensures var seen := Run(repo.origin, repo.trace[..readAt]);
        if name !in seen.table then writeAt.None? && answer == NotFound
        else if expected.Some? && seen.table[name].etag != expected.value then writeAt.None? && answer == EtagMismatch
        else if Deleted(seen, name) then
          writeAt.None? && answer == if allowMissing then Ok(seen.table[name]) else NotFound
        else
          writeAt.Some? || (OthersWrote(repo.origin, repo.trace, name, repo.me, readAt, |repo.trace|)
                            && answer == if Active(repo.st, name) then EtagMismatch
                                         else if allowMissing && name in repo.st.table then Ok(repo.st.table[name]) else NotFound)
      ensures answer.Ok? && writeAt.None? ==> allowMissing && answer.row.deleted
      ensures old(repo.schedule) == [] && writeAt.Some? ==>
        name in old(repo.st).table && answer.row == old(repo.st).table[name].(deleted := true) && repo.st.table == old(repo.st).table[name := answer.row]
    {
      EmptyRun();
      hide Run, CleanWrite, OthersWrote;
      ghost var start := repo.trace;
      writeAt := None;
      var read, batch := repo.GetUser(name, true);
      readAt := |repo.trace|;
      ghost var seen := repo.trace;
      assert seen[..readAt] == seen;
      if read.Absent? {
        return NotFound, readAt, None;
      }
      var current := read.row;
      if expected.Some? && expected.value != current.etag {
        return EtagMismatch, readAt, None;
      }
      if current.deleted {
        return if allowMissing then Ok(current) else NotFound, readAt, None;
      }
      answer, writeAt := DeleteRead(name, current, allowMissing);
      assert repo.trace[..readAt] == seen;
    }

    /** The write of a deletion after its read, which is the last thing in the trace. */
    method DeleteRead(name: Name, current: Row, allowMissing: bool) returns (answer: Answer, ghost writeAt: Option<nat>)
      requires repo.Valid() && ActiveWith(repo.st, name, current.etag)
      modifies repo
      ensures repo.Valid() && old(repo.trace) <= repo.trace
      ensures writeAt.Some? ==> CleanWrite(repo.origin, repo.trace, name, repo.me, |old(repo.trace)|, writeAt.value)
      ensures writeAt.Some? ==> repo.trace[writeAt.value].Delete? && answer.Ok?
      ensures writeAt.None? ==>
        OthersWrote(repo.origin, repo.trace, name, repo.me, |old(repo.trace)|, |repo.trace|)
        && answer == if Active(repo.st, name) then EtagMismatch
                     else if allowMissing && name in repo.st.table then Ok(repo.st.table[name]) else NotFound
      ensures answer.Ok? && writeAt.None? ==> allowMissing && answer.row.deleted
      ensures old(repo.schedule) == [] && writeAt.Some? ==>
        name in old(repo.st).table && answer.row == old(repo.st).table[name].(deleted := true) && repo.st.table == old(repo.st).table[name := answer.row]
    {
      EmptyRun();
      hide Run, CleanWrite, OthersWrote;
      ghost var seen, readAt := repo.trace, |repo.trace|;
      assert seen[..readAt] == seen;
      writeAt := None;
      var landed, batch2 := repo.Write(Delete(repo.me, name, current.etag));
      ghost var at := |repo.trace| - 1;
      ghost var wrote := repo.trace;
      assert wrote[..readAt] == seen && wrote[..at] == seen + batch2;
      RunAppend(repo.origin, seen, batch2);
      if !landed {
        LostToOthers(repo.origin, wrote, name, repo.me, readAt, at, current.etag);
        var latest, batch3 := repo.GetUser(name, true);
        OthersExtend(repo.origin, wrote, batch3, name, repo.me, readAt, at);
        answer := Explain(latest, allowMissing);
        return;
      }
      ExpectedIsClean(repo.origin, wrote, name, repo.me, readAt, at, current.etag);
      label written:
      var again, batch3 := repo.GetUser(name, true);
      RowsStay(old@written(repo.st), batch3, name);
      writeAt := Some(at);
      CleanExtends(repo.origin, wrote, batch3, name, repo.me, readAt, at);
      answer := Ok(again.row);
    }

    /**
      One turn of the restore loop. A turn that settles nothing leaves the row active, or leaves it
      deleted by others once more.
     */
    method TryRestore(name: Name) returns (answer: Option<Answer>, restored: bool, ghost batch: seq<Event>)
      requires repo.Valid()
      modifies repo
      ensures repo.Valid() && repo.trace == old(repo.trace) + batch && repo.st == Run(old(repo.st), batch)
      ensures name in old(repo.st).table ==> name in repo.st.table
      ensures answer.None? ==> name in repo.st.table
      ensures answer.None? ==> Balance(old(repo.st), batch, name, repo.me) >= (if Active(old(repo.st), name) then 1 else 0) + 1
      ensures answer.Some? ==> answer.value == if name in repo.st.table then Ok(repo.st.table[name]) else NotFound
      ensures answer.Some? && answer.value.Ok? ==> !answer.value.row.deleted
      ensures old(repo.schedule) == [] ==> repo.schedule == [] && answer.Some?
      ensures old(repo.schedule) == [] && name in old(repo.st).table ==> answer == Some(Ok(Restored(old(repo.st), name)))
      ensures old(repo.schedule) == [] ==>
        repo.st.table == if Deleted(old(repo.st), name) then old(repo.st).table[name := Restored(old(repo.st), name)] else old(repo.st).table
    {
      hide Run, DeletesByOthers, Sound;
      ghost var start := repo.st;
      restored := false;
      NothingRan(start, name, repo.me);
      var read, first := repo.GetUser(name, true);
      batch := first;
      OthersKeepBalance(start, [], first, name, repo.me);
      if read.Absent? {
        return Some(NotFound), false, first;
      }
      if !read.row.deleted {
        return Some(Ok(read.row)), false, first;
      }
      restored := true;
      var etag := repo.NewEtag();
      OwnKeepsDeletes(start, batch, Draw(repo.me), name, repo.me);
      batch := batch + [Draw(repo.me)];
      ghost var before := repo.st;
      var landed, second := repo.Write(Undelete(repo.me, name, etag));
      OthersKeepBalance(start, batch, second, name, repo.me);
      PoolKept(before, second, repo.me, etag);
      NothingRan(before, name, repo.me);
      batch := batch + second;
      OwnKeepsDeletes(start, batch, Undelete(repo.me, name, etag), name, repo.me);
      batch := batch + [Undelete(repo.me, name, etag)];
      if landed {
        NothingRan(repo.st, name, repo.me);
        var again, third := repo.GetUser(name, true);
        OthersKeepBalance(start, batch, third, name, repo.me);
        batch := batch + third;
        if !again.row.deleted {
          return Some(Ok(again.row)), true, batch;
        }
      }
      answer := None;
    }

    /**
      Restores a tombstone, at most three times over. A success is a row seen active; giving up
      means that others deleted the row at least three times during the call.
     */
    method UndeleteUser(name: Name) returns (answer: Answer, ghost attempts: nat)
      requires repo.Valid()
      modifies repo
      ensures repo.Valid() && old(repo.trace) <= repo.trace
      ensures attempts <= MAX_UNDELETE_ATTEMPTS
      ensures answer.Ok? ==> name in repo.st.table && answer.row == repo.st.table[name] && !answer.row.deleted
      ensures answer.LifecycleChanged? ==>
        DeletesByOthers(old(repo.st), repo.trace[|old(repo.trace)|..], name, repo.me) >= MAX_UNDELETE_ATTEMPTS
      ensures answer.Ok? || answer == NotFound || answer == LifecycleChanged
      ensures answer == NotFound ==> name !in repo.st.table
      ensures old(repo.schedule) == [] && name in old(repo.st).table ==> answer == Ok(Restored(old(repo.st), name)) && attempts <= 1
      ensures old(repo.schedule) == [] ==>
        repo.st.table == if Deleted(old(repo.st), name) then old(repo.st).table[name := Restored(old(repo.st), name)] else old(repo.st).table
    {
      hide Run, DeletesByOthers, Sound;
      ghost var start, since := repo.st, [];
      NothingRan(start, name, repo.me);
      attempts := 0;
      for i := 0 to MAX_UNDELETE_ATTEMPTS
        invariant repo.Valid() && repo.trace == old(repo.trace) + since && repo.st == Run(start, since)
        invariant attempts <= i
        invariant i > 0 ==> name in repo.st.table
        invariant Balance(start, since, name, repo.me) >= i
        invariant old(repo.schedule) == [] ==> repo.schedule == [] && repo.st == start && i == 0
      {
        var settled, restored, batch := TryRestore(name);
        if restored {
          attempts := attempts + 1;
        }
        BalanceAppend(start, since, batch, name, repo.me);
        since := since + batch;
        if settled.Some? {
          return settled.value, attempts;
        }
      }
      var latest, batch := repo.GetUser(name, true);
      OthersKeepBalance(start, since, batch, name, repo.me);
      since := since + batch;
      assert repo.trace[|old(repo.trace)|..] == since;
      if !latest.row.deleted {
        return Ok(latest.row), attempts;
      }
      answer := LifecycleChanged;
    }
  }

  lemma EmptyRun()
    ensures forall st :: Run(st, []) == st
  {
  }

  lemma OthersExtend(origin: State, trace: seq<Event>, more: seq<Event>, name: Name, me: Client, r: nat, w: nat)
    requires OthersWrote(origin, trace, name, me, r, w)
    ensures OthersWrote(origin, trace + more, name, me, r, |trace + more|)
  {
    var k :| r <= k < w <= |trace| && Writes(trace[k], name) && trace[k].client != me && Lands(Run(origin, trace[..k]), trace[k]);
    assert (trace + more)[..k] == trace[..k] && (trace + more)[k] == trace[k];
  }

  lemma CleanExtends(origin: State, trace: seq<Event>, more: seq<Event>, name: Name, me: Client, r: nat, w: nat)
    requires CleanWrite(origin, trace, name, me, r, w)
    ensures CleanWrite(origin, trace + more, name, me, r, w)
  {
    forall k | r <= k <= w
      ensures (trace + more)[..k] == trace[..k]
    {
    }
  }

  /** Deletions by others since the start, and one more while the row is active: it still takes a deletion to lose it. */
  ghost function Balance(start: State, since: seq<Event>, name: Name, me: Client): nat {
    DeletesByOthers(start, since, name, me) + if Active(Run(start, since), name) then 1 else 0
  }

  lemma NothingRan(st: State, name: Name, me: Client)
    ensures Run(st, []) == st && DeletesByOthers(st, [], name, me) == 0
  {
  }

  lemma BalanceAppend(start: State, since: seq<Event>, batch: seq<Event>, name: Name, me: Client)
    ensures Run(start, since + batch) == Run(Run(start, since), batch)
    ensures Balance(start, since + batch, name, me) + (if Active(Run(start, since), name) then 1 else 0)
            == Balance(start, since, name, me) + Balance(Run(start, since), batch, name, me)
  {
    DeletesAppend(start, since, batch, name, me);
    RunAppend(start, since, batch);
  }

  /** Others cannot lower the balance: to lose an active row they must delete it. */
  lemma OthersKeepBalance(start: State, since: seq<Event>, batch: seq<Event>, name: Name, me: Client)
    requires forall k | 0 <= k < |batch| :: batch[k].client != me
    ensures Run(start, since + batch) == Run(Run(start, since), batch)
    ensures Run(start, []) == start && DeletesByOthers(start, [], name, me) == 0
    ensures since == [] ==> since + batch == batch
    ensures name in Run(start, since).table ==> name in Run(start, since + batch).table
    ensures Balance(start, since + batch, name, me) >= Balance(start, since, name, me)
    ensures DeletesByOthers(start, since + batch, name, me) >= DeletesByOthers(start, since, name, me)
  {
    DeletesAppend(start, since, batch, name, me);
    RunAppend(start, since, batch);
    if name in Run(start, since).table {
      RowsStay(Run(start, since), batch, name);
      if Active(Run(start, since), name) && Deleted(Run(start, since + batch), name) {
        DeletionNeedsDelete(Run(start, since), batch, name, me);
      }
    }
  }

  lemma OwnKeepsDeletes(start: State, since: seq<Event>, ev: Event, name: Name, me: Client)
    requires ev.client == me
    ensures DeletesByOthers(start, since + [ev], name, me) == DeletesByOthers(start, since, name, me)
    ensures Run(start, since + [ev]) == Apply(Run(start, since), ev)
  {
    assert (since + [ev])[..|since|] == since;
  }
}
