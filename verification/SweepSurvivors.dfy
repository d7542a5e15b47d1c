/** Which sessions of a disabled user a sweep misses, and for how long their tokens work. */
module SweepSurvivors {
  import opened Options
  import opened TokenStore
  import opened TokenInvariant
  import TokenTheorems
  import opened SweepSteps
  import opened SweepRaces

  // What an event does to rows that are committed.

  /** Rows stay, what was consumed or revoked stays so, and keys stay taken. */
  ghost predicate Later(st: Store, st': Store) {
    && (forall c | c in st.codes :: c in st'.codes && st'.codes[c].expires == st.codes[c].expires
         && (st.codes[c].consumed.Some? ==> st'.codes[c].consumed == st.codes[c].consumed))
    && (forall i | i in st.sessions :: i in st'.sessions && st'.sessions[i].user == st.sessions[i].user
         && st'.sessions[i].family == st.sessions[i].family && (st.sessions[i].revoked.Some? ==> st'.sessions[i].revoked.Some?))
    && (forall a | a in st.access :: a in st'.access && st'.access[a].session == st.access[a].session
         && st'.access[a].expires == st.access[a].expires)
    && (forall t | t in st.refresh :: t in st'.refresh && st'.refresh[t].hash == st.refresh[t].hash)
  }

  lemma OpenIsLater(st: Store, g: Grant, withRefresh: bool, minted: NewIds, now: Time)
    requires OpeningAllowed(st, g, withRefresh, minted, now)
    ensures Later(st, Open(st, g, withRefresh, minted, now))
  {
  }

  lemma RotateIsLater(st: Store, g: Grant, minted: NewIds, now: Time)
    requires RotationAllowed(st, g, minted, now)
    ensures Later(st, Rotate(st, g, minted, now))
  {
  }

  lemma RevokeIsLater(st: Store, ids: set<Id>, now: Time)
    ensures Later(st, Revoke(st, ids, now))
  {
  }

  lemma SaveIsLater(st: Store, requestId: Id, id: Id, hash: string, now: Time)
    ensures Later(st, SaveCode(st, requestId, id, hash, now).0)
  {
  }

  lemma SameIsLater(st: Store, st': Store)
    requires st' == st.(activeUsers := st'.activeUsers)
    ensures Later(st, st')
  {
  }

  lemma CommitIsLater(st: Store, st': Store, tx: Tx)
    requires WholeCommit(st, st', tx)
    ensures Later(st, st')
  {
    SameIsLater(st, st);
    hide Later, Open, Rotate, Revoke, OpeningAllowed, RotationAllowed;
    match tx.work {
      case Opening(g, withRefresh, minted) => OpenIsLater(st, g, withRefresh, minted, tx.now);
      case Sweep(_) => RevokeIsLater(st, tx.ids, tx.now);
      case Rotation(g, minted) =>
        if st' != st {
          RotateIsLater(st, g, minted, tx.now);
        }
    }
  }

  lemma StepIsLater(s: State, e: Event)
    requires StepsInv(s)
    ensures Later(s.st, Next(s, e).st)
  {
    StepIsWhole(s, e);
    SameIsLater(s.st, s.st);
    hide StepsInv, Later, WholeCommit, Revoke, SaveCode;
    match e {
      case Go(n) =>
        hide Next;
        if n in s.txs && s.txs[n].stage.Commit? {
          CommitIsLater(s.st, Next(s, e).st, s.txs[n]);
        }
      case RevokeOne(i, now) =>
        hide Next;
        RevokeIsLater(s.st, {i}, now);
      case SaveRequestCode(requestId, id, hash, now) => SaveIsLater(s.st, requestId, id, hash, now);
      case SetActive(_, _) => SameIsLater(s.st, Next(s, e).st);
      case _ =>
    }
  }

  /** An opening that later tables allow was allowed before. */
  lemma AllowedBefore(st: Store, st': Store, g: Grant, withRefresh: bool, minted: NewIds, now: Time)
    requires Later(st, st') && g.codeId in st.codes && st.codes[g.codeId].subject == g.user && st.codes[g.codeId].client == g.client
    requires OpeningAllowed(st', g, withRefresh, minted, now)
    ensures OpeningAllowed(st, g, withRefresh, minted, now)
  {
    assert SessionInsertable(st, minted.session, NewSession(g, minted));
    assert AccessInsertable(st, minted.access);
    assert withRefresh ==> RefreshInsertable(st, minted.refresh, minted.hash);
  }

  // Stragglers.

  /** An open exchange that has found its user active, and that the committed tables still allow to open its session. */
  ghost predicate Straggler(st: Store, tx: Tx, user: Id) {
    && tx.work.Opening? && tx.work.g.user == user && tx.stage in {InsertSession, InsertAccess, InsertRefresh, Commit}
    && OpeningAllowed(st, tx.work.g, tx.work.withRefresh, tx.work.minted, tx.now)
  }

  ghost function Stragglers(s: State, user: Id): set<(Work, Time)> {
    set m | m in s.txs && Straggler(s.st, s.txs[m], user) :: (s.txs[m].work, s.txs[m].now)
  }

  /** One of the late exchanges opens session i. */
  ghost predicate OpenedLate(late: set<(Work, Time)>, i: Id) {
    exists l | l in late :: OpensAt(l, i)
  }

  predicate OpensAt(l: (Work, Time), i: Id) {
    l.0.Opening? && l.0.minted.session == i
  }

  /** The access token is the first of its session, which one of the late exchanges opens. */
  ghost predicate IssuedLate(late: set<(Work, Time)>, row: AccessRow) {
    exists l | l in late :: OpensAt(l, row.session) && row.expires == l.1 + ACCESS_TTL
  }

  /**
    While the user is disabled: a session that was not there at first is one of a late exchange, its only
    access token is the one issued with it, and no rotation of it is under way.
   */
  ghost predicate Contained(s: State, user: Id, known: set<Id>, late: set<(Work, Time)>) {
    && user !in s.st.activeUsers && Stragglers(s, user) <= late
    && (forall i | i in s.st.sessions && s.st.sessions[i].user == user && i !in known :: OpenedLate(late, i))
    && (forall a | a in s.st.access && s.st.access[a].subject == user && s.st.access[a].session !in known :: IssuedLate(late, s.st.access[a]))
    && (forall m | m in s.txs :: RotatesKnown(s.txs[m], user, known))
  }

  predicate RotatesKnown(tx: Tx, user: Id, known: set<Id>) {
    tx.work.Rotation? && tx.stage.Commit? && tx.work.g.user == user ==> tx.work.g.sessionId in known
  }

  lemma ContainedAtFirst(s: State, user: Id)
    requires StepsInv(s) && user !in s.st.activeUsers
    ensures Contained(s, user, s.st.sessions.Keys, Stragglers(s, user))
  {
    forall m | m in s.txs
      ensures RotatesKnown(s.txs[m], user, s.st.sessions.Keys)
    {
      assert Holds(s.st, s.txs[m]);
    }
    assert TokensTied(s.st);
    hide Holds, Stragglers, OpenedLate, IssuedLate;
  }

  /** Where a transaction that is open after an event comes from. */
  lemma StillOpen(s: State, e: Event, m: nat)
    requires m in Next(s, e).txs
    ensures var tx := Next(s, e).txs[m];
      || (m in s.txs && tx == s.txs[m])
      || (e.Begin? && tx.stage == FirstStage(tx.work))
      || (e == Go(m) && m in s.txs && !s.txs[m].stage.Commit? && Next(s, e).st == s.st && tx.work == s.txs[m].work && tx.now == s.txs[m].now
          && (s.txs[m].stage.ConsumeCode? ==> tx.stage.CheckUser?)
          && (s.txs[m].stage.CheckUser? ==> tx.work.g.user in s.st.activeUsers))
  {
    hide Free, RotationAllowed, RotationFree, Overlay, Rotate;
  }

  /** While the user is disabled, no exchange of the user becomes a straggler. */
  lemma StepStragglers(s: State, e: Event, user: Id)
    requires StepsInv(s) && user !in s.st.activeUsers
    ensures Stragglers(Next(s, e), user) <= Stragglers(s, user)
  {
    var next := Next(s, e);
    StepIsLater(s, e);
    forall m | m in next.txs && Straggler(next.st, next.txs[m], user)
      ensures m in s.txs && Straggler(s.st, s.txs[m], user) && next.txs[m].work == s.txs[m].work && next.txs[m].now == s.txs[m].now
    {
      StillOpen(s, e, m);
      var work := next.txs[m].work;
      assert m in s.txs && Holds(s.st, s.txs[m]) && work == s.txs[m].work;
      hide Next, Later, OpeningAllowed;
      AllowedBefore(s.st, next.st, work.g, work.withRefresh, work.minted, next.txs[m].now);
    }
    hide Next, StepsInv, Straggler;
  }

  /** A session or access token appears by a straggler's commit, or an access token by a rotation's. */
  lemma CommitAdds(st: Store, st': Store, tx: Tx)
    requires WholeCommit(st, st', tx)
    ensures forall i | i in st'.sessions && i !in st.sessions ::
      tx.work.Opening? && i == tx.work.minted.session && st'.sessions[i].user == tx.work.g.user
    ensures forall a | a in st'.access && a !in st.access ::
      || (tx.work.Opening? && st'.access[a] == NewAccess(tx.work.g, tx.work.minted.session, tx.now))
      || (tx.work.Rotation? && st'.access[a] == NewAccess(tx.work.g, tx.work.g.sessionId, tx.now))
  {
  }

  lemma StepAdds(s: State, e: Event)
    requires StepsInv(s)
    ensures var st := Next(s, e).st;
      (exists i :: i in st.sessions && i !in s.st.sessions) || (exists a :: a in st.access && a !in s.st.access) ==>
        e.Go? && e.n in s.txs && s.txs[e.n].stage.Commit? && WholeCommit(s.st, st, s.txs[e.n])
  {
    StepIsWhole(s, e);
    hide WholeCommit;
  }

  lemma StepSessions(s: State, e: Event, user: Id, known: set<Id>, late: set<(Work, Time)>)
    requires StepsInv(s) && Contained(s, user, known, late)
    ensures forall i | i in Next(s, e).st.sessions && Next(s, e).st.sessions[i].user == user && i !in known :: OpenedLate(late, i)
  {
    var st := Next(s, e).st;
    hide Next, StepsInv, WholeCommit, Stragglers, OpenedLate, IssuedLate, RotatesKnown;
    StepIsLater(s, e);
    StepAdds(s, e);
    forall i | i in st.sessions && st.sessions[i].user == user && i !in known
      ensures OpenedLate(late, i)
    {
      if i !in s.st.sessions {
        CommitAdds(s.st, st, s.txs[e.n]);
        CommitIsLate(s, e, st, user, late, i);
      }
    }
  }

  lemma CommitIsLate(s: State, e: Event, st': Store, user: Id, late: set<(Work, Time)>, i: Id)
    requires StepsInv(s) && Stragglers(s, user) <= late
    requires e.Go? && e.n in s.txs && s.txs[e.n].stage.Commit? && WholeCommit(s.st, st', s.txs[e.n])
    requires s.txs[e.n].work.Opening? && s.txs[e.n].work.g.user == user && s.txs[e.n].work.minted.session == i
    ensures OpenedLate(late, i) && (s.txs[e.n].work, s.txs[e.n].now) in late
  {
    var tx := s.txs[e.n];
    assert Straggler(s.st, tx, user);
    assert (tx.work, tx.now) in Stragglers(s, user);
    assert OpensAt((tx.work, tx.now), i);
    hide Straggler, StepsInv, WholeCommit;
  }

  lemma StepTokens(s: State, e: Event, user: Id, known: set<Id>, late: set<(Work, Time)>)
    requires StepsInv(s) && Contained(s, user, known, late)
    ensures var access := Next(s, e).st.access;
      forall a | a in access && access[a].subject == user && access[a].session !in known :: IssuedLate(late, access[a])
  {
    var st := Next(s, e).st;
    hide Next, StepsInv, Contained, WholeCommit, Later, IssuedLate;
    StepAdds(s, e);
    forall a | a in st.access && st.access[a].subject == user && st.access[a].session !in known
      ensures IssuedLate(late, st.access[a])
    {
      if a in s.st.access {
        OldToken(s, e, user, known, late, a);
      } else {
        NewToken(s, e, st, user, known, late, a);
      }
    }
  }

  lemma OldToken(s: State, e: Event, user: Id, known: set<Id>, late: set<(Work, Time)>, a: Id)
    requires StepsInv(s) && Contained(s, user, known, late) && a in s.st.access && a in Next(s, e).st.access
    requires Next(s, e).st.access[a].subject == user && Next(s, e).st.access[a].session !in known
    ensures IssuedLate(late, Next(s, e).st.access[a])
  {
    hide Next, Later, Stragglers, OpenedLate, RotatesKnown;
    StepIsLater(s, e);
    StatementKeepsInv(s, e);
    StoreOf(s);
    StoreOf(Next(s, e));
    hide StepsInv, TokensTied;
    SameSubject(s.st, Next(s, e).st, a);
    assert IssuedLate(late, s.st.access[a]);
    hide IssuedLate;
    SameIssued(late, s.st.access[a], Next(s, e).st.access[a]);
  }

  lemma StoreOf(s: State)
    requires StepsInv(s)
    ensures TokensTied(s.st)
  {
    hide TokensTied, UniqueHashes, FamiliesLinear, CodesTied, AllHold, AllApart;
  }

  lemma SameIssued(late: set<(Work, Time)>, row: AccessRow, row': AccessRow)
    requires IssuedLate(late, row) && row'.session == row.session && row'.expires == row.expires
    ensures IssuedLate(late, row')
  {
  }

  lemma NewToken(s: State, e: Event, st': Store, user: Id, known: set<Id>, late: set<(Work, Time)>, a: Id)
    requires StepsInv(s) && Contained(s, user, known, late)
    requires e.Go? && e.n in s.txs && s.txs[e.n].stage.Commit? && WholeCommit(s.st, st', s.txs[e.n])
    requires a in st'.access && a !in s.st.access && st'.access[a].subject == user && st'.access[a].session !in known
    ensures IssuedLate(late, st'.access[a])
  {
    var tx := s.txs[e.n];
    CommitAdds(s.st, st', tx);
    assert RotatesKnown(tx, user, known);
    hide WholeCommit, StepsInv, Stragglers, OpenedLate, RotatesKnown;
    if tx.work.Opening? {
      CommitIsLate(s, e, st', user, late, st'.access[a].session);
      assert OpensAt((tx.work, tx.now), st'.access[a].session);
    }
  }

  lemma SameSubject(st: Store, st': Store, a: Id)
    requires TokensTied(st) && TokensTied(st') && Later(st, st') && a in st.access
    ensures a in st'.access && st'.access[a].subject == st.access[a].subject
    ensures st'.access[a].session == st.access[a].session && st'.access[a].expires == st.access[a].expires
  {
    assert st'.access[a].session == st.access[a].session && st.access[a].session in st.sessions;
  }

  lemma StepRotates(s: State, e: Event, user: Id, known: set<Id>, late: set<(Work, Time)>)
    requires StepsInv(s) && Contained(s, user, known, late)
    ensures forall m | m in Next(s, e).txs :: RotatesKnown(Next(s, e).txs[m], user, known)
  {
    forall m | m in Next(s, e).txs
      ensures RotatesKnown(Next(s, e).txs[m], user, known)
    {
      StillOpen(s, e, m);
      hide Next, StepsInv, Stragglers, OpenedLate, IssuedLate;
    }
  }

  lemma StepContained(s: State, e: Event, user: Id, known: set<Id>, late: set<(Work, Time)>)
    requires StepsInv(s) && Contained(s, user, known, late) && e != SetActive(user, true)
    ensures Contained(Next(s, e), user, known, late)
  {
    StepStragglers(s, e, user);
    StepSessions(s, e, user, known, late);
    StepTokens(s, e, user, known, late);
    StepRotates(s, e, user, known, late);
    StepDisabled(s, e, user);
    hide Next, StepsInv, Stragglers, OpenedLate, IssuedLate, RotatesKnown;
  }

  lemma StepDisabled(s: State, e: Event, user: Id)
    requires StepsInv(s) && user !in s.st.activeUsers && e != SetActive(user, true)
    ensures user !in Next(s, e).st.activeUsers
  {
    hide StepsInv, WholeCommit, Revoke, SaveCode;
    if e.SetActive? || e.Begin? || e.Abort? {
      return;
    }
    StepIsWhole(s, e);
    hide Next;
    match e {
      case Go(n) =>
        if n in s.txs && s.txs[n].stage.Commit? {
          CommitActive(s.st, Next(s, e).st, s.txs[n]);
        }
      case RevokeOne(i, now) => RevokeNothing(s.st, {i}, now);
      case SaveRequestCode(requestId, id, hash, now) => SaveActive(s.st, requestId, id, hash, now);
    }
  }

  lemma CommitActive(st: Store, st': Store, tx: Tx)
    requires WholeCommit(st, st', tx)
    ensures st'.activeUsers == st.activeUsers
  {
    hide OpeningAllowed, RotationAllowed;
  }

  lemma SaveActive(st: Store, requestId: Id, id: Id, hash: string, now: Time)
    ensures SaveCode(st, requestId, id, hash, now).0.activeUsers == st.activeUsers
  {
  }

  lemma {:induction false} RunContained(s: State, evs: seq<Event>, user: Id, known: set<Id>, late: set<(Work, Time)>)
    requires StepsInv(s) && Contained(s, user, known, late) && SetActive(user, true) !in evs
    ensures Contained(Run(s, evs), user, known, late)
    decreases |evs|
  {
    hide Next, StepsInv, Contained;
    if evs != [] {
      assert evs[0] != SetActive(user, true);
      StepContained(s, evs[0], user, known, late);
      StatementKeepsInv(s, evs[0]);
      RunContained(Next(s, evs[0]), evs[1..], user, known, late);
    }
  }

  // The sweep itself.

  /** The sweep of transaction n has selected ids and is still open. */
  ghost predicate Sweeping(s: State, n: nat, ids: set<Id>) {
    n in s.txs && s.txs[n].work.Sweep? && s.txs[n].ids == ids && !s.txs[n].stage.SelectSessions?
  }

  /** The run commits transaction n before it ever aborts it. */
  ghost predicate Finishes(s: State, evs: seq<Event>, n: nat)
    decreases |evs|
  {
    && evs != [] && evs[0] != Abort(n)
    && ((evs[0] == Go(n) && n in s.txs && s.txs[n].stage.Commit?) || Finishes(Next(s, evs[0]), evs[1..], n))
  }

  lemma SweepGoesOn(s: State, e: Event, n: nat, ids: set<Id>)
    requires StepsInv(s) && Sweeping(s, n, ids) && e != Abort(n) && !(e == Go(n) && s.txs[n].stage.Commit?)
    ensures Sweeping(Next(s, e), n, ids)
  {
    assert Holds(s.st, s.txs[n]);
    hide StepsInv;
    if e == Go(n) {
      hide Free, SessionsMatched, AccessMatched, RefreshMatched;
    } else {
      OtherEvent(s, e, n);
      hide Next;
    }
  }

  lemma OtherEvent(s: State, e: Event, n: nat)
    requires n in s.txs && e != Go(n) && e != Abort(n)
    ensures n in Next(s, e).txs && Next(s, e).txs[n] == s.txs[n]
  {
    hide SessionInsertable, AccessInsertable, RefreshInsertable, NewSession, NewAccess, Free, RotationAllowed, RotationFree, Overlay, Rotate;
    hide SweepStatement, Looked, Revoke, SaveCode;
  }

  /** All of these sessions that exist are revoked. */
  ghost predicate AllRevoked(st: Store, ids: set<Id>) {
    forall i | i in ids :: i in st.sessions && st.sessions[i].revoked.Some?
  }

  lemma {:induction false} StayRevoked(s: State, evs: seq<Event>, ids: set<Id>)
    requires StepsInv(s) && AllRevoked(s.st, ids)
    ensures AllRevoked(Run(s, evs).st, ids)
    decreases |evs|
  {
    if evs != [] {
      StepIsLater(s, evs[0]);
      StatementKeepsInv(s, evs[0]);
      hide Next, StepsInv;
      StayRevoked(Next(s, evs[0]), evs[1..], ids);
    }
  }

  lemma SweepRevokes(s: State, n: nat, ids: set<Id>)
    requires StepsInv(s) && Sweeping(s, n, ids) && s.txs[n].stage.Commit?
    ensures AllRevoked(Next(s, Go(n)).st, ids)
  {
    StepIsWhole(s, Go(n));
    assert Holds(s.st, s.txs[n]);
    hide Next, StepsInv;
  }

  lemma {:induction false} FinishedSweepRevokes(s: State, evs: seq<Event>, n: nat, ids: set<Id>)
    requires StepsInv(s) && Sweeping(s, n, ids) && Finishes(s, evs, n)
    ensures AllRevoked(Run(s, evs).st, ids)
    decreases |evs|
  {
    StatementKeepsInv(s, evs[0]);
    hide Next, StepsInv, AllRevoked;
    if evs[0] == Go(n) && s.txs[n].stage.Commit? {
      SweepRevokes(s, n, ids);
      StayRevoked(Next(s, evs[0]), evs[1..], ids);
    } else {
      SweepGoesOn(s, evs[0], n, ids);
      FinishedSweepRevokes(Next(s, evs[0]), evs[1..], n, ids);
    }
  }

  /** A disabled user's sessions are about to be selected: the revocation after the disabling is one statement in. */
  ghost predicate AboutToSweep(s: State, n: nat, user: Id) {
    && StepsInv(s) && user != "" && user !in s.st.activeUsers
    && n in s.txs && s.txs[n].work == Sweep(OfUser(user)) && s.txs[n].stage.SelectSessions?
  }

  /** A run from the selection on in which the user stays disabled and the sweep commits. */
  ghost predicate SweptRun(s: State, n: nat, user: Id, evs: seq<Event>) {
    SetActive(user, true) !in evs && Finishes(Next(s, Go(n)), evs, n)
  }

  lemma SelectsAll(s: State, n: nat, user: Id)
    requires AboutToSweep(s, n, user)
    ensures Sweeping(Next(s, Go(n)), n, SessionsOfUser(s.st, user)) && Next(s, Go(n)).st == s.st
    ensures Next(s, Go(n)).txs.Keys == s.txs.Keys && forall m | m in s.txs && m != n :: Next(s, Go(n)).txs[m] == s.txs[m]
    ensures Next(s, Go(n)).txs[n].ws == s.txs[n].ws
  {
    forall m | m in s.txs && m != n
      ensures Apart(SweepStatement(s.st, s.txs[n]), s.txs[m])
    {
      assert Apart(s.txs[n], s.txs[m]);
    }
  }

  /**
    Whatever else happens while the user stays disabled, once the sweep has committed the sessions it misses are
    those of the stragglers at its selection, and their tokens work for the lifetime of one access token only.
   */
  lemma OnlyStragglersSurvive(s: State, n: nat, user: Id, evs: seq<Event>)
    requires AboutToSweep(s, n, user) && SweptRun(s, n, user, evs)
    ensures var st, late := Run(s, [Go(n)] + evs).st, Stragglers(s, user);
      && user !in st.activeUsers
      && (forall i | i in st.sessions && st.sessions[i].user == user && st.sessions[i].revoked.None? :: OpenedLate(late, i))
      && (forall a, now | Accepted(st, a, user, now) ::
            exists l | l in late :: OpensAt(l, st.access[a].session) && now < l.1 + ACCESS_TTL)
  {
    var selected, late := Next(s, Go(n)), Stragglers(s, user);
    var end := Run(s, [Go(n)] + evs);
    assert end == Run(selected, evs) by {
      assert ([Go(n)] + evs)[1..] == evs;
    }
    SelectsAll(s, n, user);
    StatementKeepsInv(s, Go(n));
    ContainedAtFirst(s, user);
    StepContained(s, Go(n), user, s.st.sessions.Keys, late);
    hide Next;
    RunContained(selected, evs, user, s.st.sessions.Keys, late);
    FinishedSweepRevokes(selected, evs, n, SessionsOfUser(s.st, user));
    RunKeepsInv(selected, evs);
    SweptSessions(s, selected, end.st, evs, user);
    hide Stragglers, OpenedLate, Sweeping, Finishes, Run;
    forall a, now | Accepted(end.st, a, user, now)
      ensures exists l | l in late :: OpensAt(l, end.st.access[a].session) && now < l.1 + ACCESS_TTL
    {
      assert end.st.access[a].session !in s.st.sessions.Keys;
      assert IssuedLate(late, end.st.access[a]);
    }
  }

  /** The sessions of the user that were there at the selection are revoked. */
  lemma SweptSessions(s: State, selected: State, st': Store, evs: seq<Event>, user: Id)
    requires StepsInv(s) && StepsInv(selected) && selected.st == s.st && st' == Run(selected, evs).st && StepsInv(Run(selected, evs))
    requires user != "" && AllRevoked(st', SessionsOfUser(s.st, user))
    ensures forall i | i in s.st.sessions && i in st'.sessions && st'.sessions[i].user == user :: st'.sessions[i].revoked.Some?
    ensures forall a, now | Accepted(st', a, user, now) :: st'.access[a].session !in s.st.sessions
  {
    RunIsLater(selected, evs);
    assert TokensTied(st');
    hide StepsInv, Run;
  }

  lemma {:induction false} RunIsLater(s: State, evs: seq<Event>)
    requires StepsInv(s)
    ensures Later(s.st, Run(s, evs).st)
    decreases |evs|
  {
    if evs == [] {
      SameIsLater(s.st, s.st);
    } else {
      StepIsLater(s, evs[0]);
      StatementKeepsInv(s, evs[0]);
      RunIsLater(Next(s, evs[0]), evs[1..]);
      hide Next, StepsInv;
    }
  }

  // A straggler can always get through.

  lemma {:induction false} RunAppend(s: State, a: seq<Event>, b: seq<Event>)
    ensures Run(s, a + b) == Run(Run(s, a), b)
    decreases |a|
  {
    if a == [] {
      assert a + b == b;
    } else {
      assert (a + b)[0] == a[0] && (a + b)[1..] == a[1..] + b;
      RunAppend(Next(s, a[0]), a[1..], b);
    }
  }

  lemma RunNext(s: State, e: Event, evs: seq<Event>)
    ensures Run(s, [e] + evs) == Run(Next(s, e), evs)
  {
    assert ([e] + evs)[1..] == evs;
  }

  lemma {:induction false} FinishesAppend(s: State, a: seq<Event>, b: seq<Event>, n: nat)
    requires Finishes(Run(s, a), b, n) && forall e | e in a :: e != Abort(n) && e != Go(n)
    ensures Finishes(s, a + b, n)
    decreases |a|
  {
    hide Next;
    if a == [] {
      assert a + b == b;
    } else {
      assert a[0] in a && (a + b)[0] == a[0] && (a + b)[1..] == a[1..] + b;
      assert forall e | e in a[1..] :: e in a;
      FinishesAppend(Next(s, a[0]), a[1..], b, n);
    }
  }

  /** Every transaction but two can fail. */
  lemma {:induction false} AbortRest(s: State, n: nat, m: nat) returns (evs: seq<Event>)
    requires n in s.txs && m in s.txs
    ensures var r := Run(s, evs); r.st == s.st && r.txs.Keys == {n, m} && r.txs[n] == s.txs[n] && r.txs[m] == s.txs[m]
    ensures forall e | e in evs :: e.Abort? && e.n != n
    decreases s.txs.Keys
  {
    if k :| k in s.txs && k != n && k != m {
      assert Next(s, Abort(k)).txs.Keys == s.txs.Keys - {k};
      var rest := AbortRest(Next(s, Abort(k)), n, m);
      evs := [Abort(k)] + rest;
      assert evs[1..] == rest;
    } else {
      evs := [];
    }
  }

  /** Statements that are left. */
  function Left(stage: Stage): nat {
    match stage
    case InsertSession => 3
    case InsertAccess => 2
    case InsertRefresh => 1
    case UpdateSessions => 3
    case UpdateAccess => 2
    case UpdateRefresh => 1
    case _ => 0
  }

  lemma GoStraggler(s: State, n: nat, m: nat, user: Id)
    requires s.txs.Keys == {n, m} && n != m && s.txs[n].ws == NO_WRITES && Straggler(s.st, s.txs[m], user) && !s.txs[m].stage.Commit?
    requires s.txs[m].stage.InsertRefresh? ==> s.txs[m].work.withRefresh
    ensures var r := Next(s, Go(m));
      && r.st == s.st && r.txs.Keys == {n, m} && r.txs[n] == s.txs[n] && Straggler(r.st, r.txs[m], user)
      && r.txs[m].work == s.txs[m].work && r.txs[m].now == s.txs[m].now && Left(r.txs[m].stage) < Left(s.txs[m].stage)
  {
    var tx := s.txs[m];
    assert Admits(s.st, tx);
    var next := OpeningStatement(s.st, tx);
    assert next.work == tx.work && next.now == tx.now && Left(next.stage) < Left(tx.stage);
    assert Apart(next, s.txs[n]);
    assert s.txs[m := next].Keys == s.txs.Keys + {m};
    hide OpeningAllowed, Admits, OpeningStatement, Apart;
  }

  lemma GoCommit(s: State, n: nat, m: nat)
    requires s.txs.Keys == {n, m} && n != m && s.txs[m].work.Opening? && OpeningHolds(s.st, s.txs[m]) && s.txs[m].stage.Commit?
    ensures var r, work := Next(s, Go(m)), s.txs[m].work;
      r.txs.Keys == {n} && r.txs[n] == s.txs[n] && r.st == Open(s.st, work.g, work.withRefresh, work.minted, s.txs[m].now)
  {
    OpeningCommits(s.st, s.txs[m]);
    hide Overlay, Open, OpeningHolds, OpeningAllowed;
  }

  lemma {:induction false} FinishOpening(s: State, n: nat, m: nat, user: Id) returns (evs: seq<Event>)
    requires StepsInv(s) && s.txs.Keys == {n, m} && n != m && s.txs[n].ws == NO_WRITES && Straggler(s.st, s.txs[m], user)
    ensures var r, work := Run(s, evs), s.txs[m].work;
      && r.txs.Keys == {n} && r.txs[n] == s.txs[n] && r.st == Open(s.st, work.g, work.withRefresh, work.minted, s.txs[m].now)
    ensures forall e | e in evs :: e == Go(m)
    decreases Left(s.txs[m].stage)
  {
    hide Next, Open, StoreInv, AllApart, Straggler;
    assert Holds(s.st, s.txs[m]);
    StatementKeepsInv(s, Go(m));
    IsOpening(s.st, s.txs[m], user);
    hide StepsInv, Holds;
    if s.txs[m].stage.Commit? {
      GoCommit(s, n, m);
      evs := [Go(m)];
      assert evs[1..] == [];
    } else {
      GoStraggler(s, n, m, user);
      var rest := FinishOpening(Next(s, Go(m)), n, m, user);
      evs := [Go(m)] + rest;
      assert evs[1..] == rest;
    }
  }

  lemma IsOpening(st: Store, tx: Tx, user: Id)
    requires Holds(st, tx) && Straggler(st, tx, user)
    ensures tx.work.Opening? && OpeningHolds(st, tx) && tx.work.g.codeId in st.codes && (tx.stage.InsertRefresh? ==> tx.work.withRefresh)
  {
  }

  lemma {:induction false} FinishSweep(s: State, n: nat, ids: set<Id>) returns (evs: seq<Event>)
    requires StepsInv(s) && s.txs.Keys == {n} && Sweeping(s, n, ids)
    ensures Finishes(s, evs, n) && Run(s, evs).st == Revoke(s.st, ids, s.txs[n].now)
    ensures forall e | e in evs :: e == Go(n)
    decreases Left(s.txs[n].stage)
  {
    assert Holds(s.st, s.txs[n]);
    if s.txs[n].stage.Commit? {
      evs := [Go(n)];
      SweepCommits(s.st, s.txs[n]);
      assert evs[1..] == [];
      hide StepsInv, Revoke, Overlay;
    } else {
      GoAlone(s, n, ids);
      StatementKeepsInv(s, Go(n));
      hide StepsInv, Next, Revoke;
      var rest := FinishSweep(Next(s, Go(n)), n, ids);
      evs := [Go(n)] + rest;
      assert evs[1..] == rest;
    }
  }

  lemma GoAlone(s: State, n: nat, ids: set<Id>)
    requires s.txs.Keys == {n} && Sweeping(s, n, ids) && SweepHolds(s.st, s.txs[n]) && !s.txs[n].stage.Commit?
    ensures var r := Next(s, Go(n));
      && r.st == s.st && r.txs.Keys == {n} && Sweeping(r, n, ids) && r.txs[n].now == s.txs[n].now
      && Left(r.txs[n].stage) < Left(s.txs[n].stage)
  {
    hide SessionsMatched, AccessMatched, RefreshMatched;
  }

  /** With nothing else open, the straggler commits and then the sweep. */
  lemma BothFinish(s: State, n: nat, m: nat, ids: set<Id>, user: Id) returns (evs: seq<Event>)
    requires StepsInv(s) && s.txs.Keys == {n, m} && n != m && Sweeping(s, n, ids) && s.txs[n].ws == NO_WRITES
    requires Straggler(s.st, s.txs[m], user)
    ensures Finishes(s, evs, n) && forall e | e in evs :: e.Go?
    ensures var tx, work := s.txs[m], s.txs[m].work;
      Run(s, evs).st == Revoke(Open(s.st, work.g, work.withRefresh, work.minted, tx.now), ids, s.txs[n].now)
  {
    hide Next, StepsInv, Straggler, Run, Finishes, Open, Revoke;
    var opens := FinishOpening(s, n, m, user);
    var one := Run(s, opens);
    RunKeepsInv(s, opens);
    var sweeps := FinishSweep(one, n, ids);
    evs := opens + sweeps;
    RunAppend(s, opens, sweeps);
    FinishesAppend(s, opens, sweeps, n);
  }

  lemma Continuation(s: State, n: nat, m: nat, ids: set<Id>, user: Id) returns (evs: seq<Event>)
    requires StepsInv(s) && Sweeping(s, n, ids) && s.txs[n].ws == NO_WRITES
    requires m in s.txs && m != n && Straggler(s.st, s.txs[m], user)
    ensures Finishes(s, evs, n) && SetActive(user, true) !in evs
    ensures var tx, work := s.txs[m], s.txs[m].work;
      Run(s, evs).st == Revoke(Open(s.st, work.g, work.withRefresh, work.minted, tx.now), ids, s.txs[n].now)
  {
    hide Next, StepsInv, Straggler, Run, Finishes, Open, Revoke;
    var aborts := AbortRest(s, n, m);
    var two := Run(s, aborts);
    RunKeepsInv(s, aborts);
    var rest := BothFinish(two, n, m, ids, user);
    evs := aborts + rest;
    RunAppend(s, aborts, rest);
    FinishesAppend(s, aborts, rest, n);
  }

  /** From any straggler at the selection there is a run in which its session outlives the sweep. */
  lemma StragglerSurvives(s: State, n: nat, m: nat, user: Id) returns (evs: seq<Event>)
    requires AboutToSweep(s, n, user) && m in s.txs && Straggler(s.st, s.txs[m], user)
    ensures SweptRun(s, n, user, evs)
    ensures var st, tx := Run(s, [Go(n)] + evs).st, s.txs[m];
      && tx.work.minted.session in st.sessions && st.sessions[tx.work.minted.session].user == user
      && st.sessions[tx.work.minted.session].revoked.None?
      && forall now | now < tx.now + ACCESS_TTL :: Accepted(st, tx.work.minted.access, user, now)
  {
    hide Next, StepsInv, Open, Revoke, Accepted, Finishes, Sweeping;
    SelectsAll(s, n, user);
    StatementKeepsInv(s, Go(n));
    NothingWritten(s, n);
    assert SessionsOfUser(s.st, user) <= s.st.sessions.Keys;
    hide SessionsOfUser, Run;
    assert m != n;
    hide Straggler;
    evs := Continuation(Next(s, Go(n)), n, m, SessionsOfUser(s.st, user), user);
    RunNext(s, Go(n), evs);
    OpenOutlives(s.st, s.txs[m], SessionsOfUser(s.st, user), Next(s, Go(n)).txs[n].now, user);
  }

  lemma NothingWritten(s: State, n: nat)
    requires StepsInv(s) && n in s.txs && s.txs[n].work.Sweep? && s.txs[n].stage.SelectSessions?
    ensures s.txs[n].ws == NO_WRITES
  {
    hide StoreInv, AllApart;
    assert Holds(s.st, s.txs[n]);
  }

  lemma OpenOutlives(st: Store, tx: Tx, ids: set<Id>, sweptAt: Time, user: Id)
    requires Straggler(st, tx, user) && ids <= st.sessions.Keys
    ensures var r, minted := Revoke(Open(st, tx.work.g, tx.work.withRefresh, tx.work.minted, tx.now), ids, sweptAt), tx.work.minted;
      && minted.session in r.sessions && r.sessions[minted.session].user == user && r.sessions[minted.session].revoked.None?
      && forall now | now < tx.now + ACCESS_TTL :: Accepted(r, minted.access, user, now)
  {
  }

  /**
    Disabling a user and then revoking every session shuts the user out, in every run in which the sweep commits
    and the user stays disabled, exactly when no straggler is open at the selection.
   */
  lemma ShutsExactlyWhen(s: State, n: nat, user: Id)
    requires AboutToSweep(s, n, user)
    ensures (forall evs | SweptRun(s, n, user, evs) :: TokenTheorems.Shut(Run(s, [Go(n)] + evs).st, user)) <==> Stragglers(s, user) == {}
  {
    if Stragglers(s, user) == {} {
      forall evs | SweptRun(s, n, user, evs)
        ensures TokenTheorems.Shut(Run(s, [Go(n)] + evs).st, user)
      {
        OnlyStragglersSurvive(s, n, user, evs);
        hide AboutToSweep, SweptRun, Stragglers, Run;
      }
    } else {
      var late :| late in Stragglers(s, user);
      var m :| m in s.txs && Straggler(s.st, s.txs[m], user);
      hide AboutToSweep, SweptRun, Run;
      var evs := StragglerSurvives(s, n, m, user);
      assert !TokenTheorems.Shut(Run(s, [Go(n)] + evs).st, user);
    }
  }

  /** Disabling between a straggler's check and its commit: the sweep commits, and the user's token still works. */
  lemma StragglerExample()
    ensures exists st: Store, before: seq<Event>, evs: seq<Event> ::
      && StoreInv(st) && AboutToSweep(Run(Quiet(st), before), 0, "u") && SweptRun(Run(Quiet(st), before), 0, "u", evs)
      && Accepted(Run(Run(Quiet(st), before), [Go(0)] + evs).st, "a", "u", MINUTE)
  {
    var code := CodeRow("r", "h", None, "client", "u", [], CODE_TTL, None);
    var st := Store(map[], map["c" := code], map[], map[], map[], {"u"});
    var tx := Tx(Opening(Grant("c", "", "", "u", "client", Some("login"), [], 0), true, NewIds("a", "t", "i", "f", "secret")), 0, ConsumeCode, {}, NO_WRITES);
    var before := [Begin(1, tx.work, 0), Go(1), Go(1), SetActive("u", false), Begin(0, Sweep(OfUser("u")), 0)];
    hide StoreInv, AboutToSweep, SweptRun, Accepted, Run, Next, OpeningAllowed;
    EmptyStore(st, tx.work.g, tx.work.minted);
    var evs := LoseTheRace(st, tx, before);
  }

  lemma LoseTheRace(st: Store, tx: Tx, before: seq<Event>) returns (evs: seq<Event>)
    requires StoreInv(st) && st.activeUsers == {"u"}
    requires tx.work.Opening? && tx.stage.ConsumeCode? && tx.ws == NO_WRITES && tx.ids == {} && tx.now == 0 && tx.work.g.user == "u"
    requires Looked(st, tx.work) && OpeningAllowed(st, tx.work.g, tx.work.withRefresh, tx.work.minted, 0)
    requires before == [Begin(1, tx.work, 0), Go(1), Go(1), SetActive("u", false), Begin(0, Sweep(OfUser("u")), 0)]
    ensures var s := Run(Quiet(st), before);
      AboutToSweep(s, 0, "u") && SweptRun(s, 0, "u", evs) && Accepted(Run(s, [Go(0)] + evs).st, tx.work.minted.access, "u", MINUTE)
  {
    QuietHolds(st);
    hide StepsInv, StoreInv, Accepted, Next, Run, Straggler, OpeningAllowed, Looked;
    RunKeepsInv(Quiet(st), before);
    ExampleState(st, tx, before);
    evs := StragglerSurvives(Run(Quiet(st), before), 0, 1, "u");
  }

  lemma ExampleState(st: Store, tx: Tx, before: seq<Event>)
    requires tx.work.Opening? && tx.stage.ConsumeCode? && tx.ws == NO_WRITES && tx.ids == {} && tx.now == 0 && tx.work.g.user == "u"
    requires Looked(st, tx.work) && OpeningAllowed(st, tx.work.g, tx.work.withRefresh, tx.work.minted, 0) && st.activeUsers == {"u"}
    requires before == [Begin(1, tx.work, 0), Go(1), Go(1), SetActive("u", false), Begin(0, Sweep(OfUser("u")), 0)]
    ensures var s := Run(Quiet(st), before);
      && s.txs.Keys == {0, 1} && Straggler(s.st, s.txs[1], "u") && "u" !in s.st.activeUsers && s.txs[1].work == tx.work && s.txs[1].now == 0
      && s.txs[0].work == Sweep(OfUser("u")) && s.txs[0].stage.SelectSessions?
  {
    RunFive(Quiet(st), before);
    var checked := StartsAndChecks(st, tx);
    var disabled := State(st.(activeUsers := {}), map[1 := checked]);
    assert Next(State(st, map[1 := checked]), before[3]) == disabled;
    assert SessionInsertable(disabled.st, tx.work.minted.session, NewSession(tx.work.g, tx.work.minted));
    assert Straggler(disabled.st, checked, "u");
    assert 0 !in disabled.txs;
    hide Straggler, OpeningAllowed, Run;
  }

  lemma RunFive(s: State, evs: seq<Event>)
    requires |evs| == 5
    ensures Run(s, evs) == Next(Next(Next(Next(Next(s, evs[0]), evs[1]), evs[2]), evs[3]), evs[4])
  {
    hide Next;
    var s1 := Next(s, evs[0]);
    var s2 := Next(s1, evs[1]);
    var s3 := Next(s2, evs[2]);
    RunNext(s, evs[0], evs[1..]);
    RunNext(s1, evs[1], evs[2..]);
    RunNext(s2, evs[2], evs[3..]);
    RunNext(s3, evs[3], evs[4..]);
    RunNext(Next(s3, evs[3]), evs[4], []);
    assert evs == [evs[0]] + evs[1..] && evs[1..] == [evs[1]] + evs[2..] && evs[2..] == [evs[2]] + evs[3..];
    assert evs[3..] == [evs[3]] + evs[4..] && evs[4..] == [evs[4]] + [];
  }

  lemma StartsAndChecks(st: Store, tx: Tx) returns (checked: Tx)
    requires tx.work.Opening? && tx.stage.ConsumeCode? && tx.ws == NO_WRITES && tx.ids == {} && Looked(st, tx.work)
    requires CodeConsumable(st, tx.work.g.codeId, tx.now) && tx.work.g.user in st.activeUsers
    ensures Next(Next(Next(Quiet(st), Begin(1, tx.work, tx.now)), Go(1)), Go(1)) == State(st, map[1 := checked])
    ensures checked.stage.InsertSession? && checked.work == tx.work && checked.now == tx.now
  {
    var s1 := Next(Quiet(st), Begin(1, tx.work, tx.now));
    assert s1 == State(st, map[1 := tx]);
    var consumed := tx.(stage := CheckUser, ws := tx.ws.(codes := map[tx.work.g.codeId := SpentCode(st, tx)]));
    assert Next(s1, Go(1)) == State(st, map[1 := consumed]);
    checked := consumed.(stage := InsertSession);
  }

  lemma QuietHolds(st: Store)
    requires StoreInv(st)
    ensures StepsInv(Quiet(st))
  {
    hide StoreInv;
  }

  lemma EmptyStore(st: Store, g: Grant, minted: NewIds)
    requires st.sessions == map[] && st.access == map[] && st.refresh == map[]
    requires st.codes.Keys == {g.codeId} && g.codeId != "" && st.codes[g.codeId].session.None? && CodeConsumable(st, g.codeId, 0)
    requires st.codes[g.codeId].subject == g.user && st.codes[g.codeId].client == g.client && g.login.Some?
    requires "" !in {g.user, g.client, g.login.value, minted.access, minted.refresh, minted.session, minted.family, minted.hash}
    ensures StoreInv(st) && OpeningAllowed(st, g, true, minted, 0)
  {
  }
}
