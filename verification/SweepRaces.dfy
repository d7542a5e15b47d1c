/** Why code exchanges and sweeps that interleave act as whole ones, and which sessions a sweep misses. */
module SweepRaces {
  import opened TokenStore
  import opened TokenInvariant
  import opened SweepSteps
  import TokenLocks

  // A commit has the effect of one whole transaction.

  lemma OpenRows(st: Store, tx: Tx)
    requires tx.work.Opening? && tx.work.g.codeId in st.codes
    ensures var g, minted, st' := tx.work.g, tx.work.minted, Open(st, tx.work.g, tx.work.withRefresh, tx.work.minted, tx.now);
      && st'.codes == st.codes + map[g.codeId := SpentCode(st, tx)]
      && st'.sessions == st.sessions + map[minted.session := NewSession(g, minted)]
      && st'.access == st.access + map[minted.access := NewAccess(g, minted.session, tx.now)]
      && st'.requests == st.requests && st'.activeUsers == st.activeUsers
  {
    hide NewSession, NewAccess;
  }

  lemma OpenRefresh(st: Store, tx: Tx)
    requires tx.work.Opening? && tx.work.g.codeId in st.codes
    ensures Open(st, tx.work.g, tx.work.withRefresh, tx.work.minted, tx.now).refresh ==
      st.refresh + (if tx.work.withRefresh then map[tx.work.minted.refresh := RootRefresh(tx)] else map[])
  {
    hide NewSession, NewAccess;
  }

  lemma OpeningCommits(st: Store, tx: Tx)
    requires tx.work.Opening? && OpeningHolds(st, tx) && tx.stage.Commit?
    ensures OpeningAllowed(st, tx.work.g, tx.work.withRefresh, tx.work.minted, tx.now)
    ensures Overlay(st, tx.ws) == Open(st, tx.work.g, tx.work.withRefresh, tx.work.minted, tx.now)
  {
    OpenRows(st, tx);
    OpenRefresh(st, tx);
    hide SessionInsertable, AccessInsertable, RefreshInsertable, NewSession, NewAccess, Open, SpentCode, RootRefresh;
  }

  /** A sweep updates unrevoked rows only; the others of its sessions are revoked already. */
  lemma SweepCommits(st: Store, tx: Tx)
    requires TokensTied(st) && SweepHolds(st, tx) && tx.stage.Commit?
    ensures Overlay(st, tx.ws) == Revoke(st, tx.ids, tx.now)
  {
    hide SessionsMatched, AccessMatched, RefreshMatched, Revoke, TokensTied;
    RevokeNothing(st, tx.ids, tx.now);
    if tx.ids == {} {
      OverlayNothing(st);
    } else {
      RevokeMatches(st, tx.ids, tx.now);
    }
  }

  lemma OverlayNothing(st: Store)
    ensures Overlay(st, NO_WRITES) == st
  {
  }

  lemma RevokeNothing(st: Store, ids: set<Id>, now: Time)
    ensures var r := Revoke(st, ids, now);
      && r.requests == st.requests && r.codes == st.codes && r.activeUsers == st.activeUsers
      && (ids == {} ==> r.sessions == st.sessions && r.access == st.access && r.refresh == st.refresh)
  {
  }

  lemma RevokeMatches(st: Store, ids: set<Id>, now: Time)
    requires TokensTied(st)
    ensures var r := Revoke(st, ids, now);
      && r.sessions == st.sessions + SessionsMatched(st, ids, now)
      && r.access == st.access + AccessMatched(st, ids, now)
      && r.refresh == st.refresh + RefreshMatched(st, ids, now)
  {
  }

  // What other transactions' commits leave alone.

  /** The sessions in ids and their tokens are the same rows in both stores. */
  ghost predicate SameWithin(st: Store, st': Store, ids: set<Id>) {
    SameSessions(st, st', ids) && SameAccess(st, st', ids) && SameRefresh(st, st', ids)
  }

  ghost predicate SameSessions(st: Store, st': Store, ids: set<Id>) {
    forall i | i in ids && i in st.sessions :: i in st'.sessions && st'.sessions[i] == st.sessions[i]
  }

  ghost predicate SameAccess(st: Store, st': Store, ids: set<Id>) {
    && (forall a | a in st.access && st.access[a].session in ids :: a in st'.access && st'.access[a] == st.access[a])
    && (forall a | a in st'.access && st'.access[a].session in ids :: a in st.access && st.access[a] == st'.access[a])
  }

  ghost predicate SameRefresh(st: Store, st': Store, ids: set<Id>) {
    && (forall t | t in st.refresh && st.refresh[t].session in ids :: t in st'.refresh && st'.refresh[t] == st.refresh[t])
    && (forall t | t in st'.refresh && st'.refresh[t].session in ids :: t in st.refresh && st.refresh[t] == st'.refresh[t])
  }

  lemma SameSessionsMatched(st: Store, st': Store, ids: set<Id>, now: Time)
    requires SameSessions(st, st', ids) && ids <= st.sessions.Keys
    ensures SessionsMatched(st', ids, now) == SessionsMatched(st, ids, now)
  {
  }

  lemma SameAccessMatched(st: Store, st': Store, ids: set<Id>, now: Time)
    requires SameAccess(st, st', ids)
    ensures AccessMatched(st', ids, now) == AccessMatched(st, ids, now)
  {
  }

  lemma SameRefreshMatched(st: Store, st': Store, ids: set<Id>, now: Time)
    requires SameRefresh(st, st', ids)
    ensures RefreshMatched(st', ids, now) == RefreshMatched(st, ids, now)
  {
  }

  lemma SweepStays(st: Store, st': Store, tx: Tx)
    requires SweepHolds(st, tx) && st.sessions.Keys <= st'.sessions.Keys
    requires tx.stage in {UpdateAccess, UpdateRefresh, Commit} ==> SameWithin(st, st', tx.ids)
    ensures SweepHolds(st', tx)
  {
    if tx.stage in {UpdateAccess, UpdateRefresh, Commit} {
      SameSessionsMatched(st, st', tx.ids, tx.now);
      SameAccessMatched(st, st', tx.ids, tx.now);
      SameRefreshMatched(st, st', tx.ids, tx.now);
    }
    hide SameSessions, SameAccess, SameRefresh, SessionsMatched, AccessMatched, RefreshMatched;
  }

  /** What an exchange relies on: the code it consumed is the same row, and the keys it inserted are still free. */
  ghost predicate KeysStay(st: Store, st': Store, tx: Tx)
    requires tx.work.Opening?
  {
    var g, minted := tx.work.g, tx.work.minted;
    && Looked(st', tx.work)
    && (!tx.stage.ConsumeCode? && g.codeId in st.codes ==> g.codeId in st'.codes && st'.codes[g.codeId] == st.codes[g.codeId])
    && (SessionInserted(tx) && SessionInsertable(st, minted.session, NewSession(g, minted)) ==>
          SessionInsertable(st', minted.session, NewSession(g, minted)))
    && (AccessInserted(tx) && AccessInsertable(st, minted.access) ==> AccessInsertable(st', minted.access))
    && (tx.stage.Commit? && tx.work.withRefresh && RefreshInsertable(st, minted.refresh, minted.hash) ==>
          RefreshInsertable(st', minted.refresh, minted.hash))
  }

  lemma OpeningStays(st: Store, st': Store, tx: Tx)
    requires tx.work.Opening? && OpeningHolds(st, tx) && KeysStay(st, st', tx)
    ensures OpeningHolds(st', tx)
  {
    hide SessionInsertable, AccessInsertable, RefreshInsertable, NewSession, NewAccess;
  }

  /** What two exchanges that are apart have written differs. */
  lemma WrittenDiffers(st: Store, tx: Tx, other: Tx)
    requires tx.work.Opening? && OpeningHolds(st, tx) && tx.stage.Commit? && Apart(tx, other)
    requires other.work.Opening? && OpeningHolds(st, other)
    ensures var minted, theirs := tx.work.minted, other.work.minted;
      && (!other.stage.ConsumeCode? ==> tx.work.g.codeId != other.work.g.codeId)
      && (SessionInserted(other) ==> minted.session != theirs.session && minted.family != theirs.family)
      && (AccessInserted(other) ==> minted.access != theirs.access)
      && (tx.work.withRefresh && other.work.withRefresh && other.stage.Commit? ==>
            minted.refresh != theirs.refresh && minted.hash != theirs.hash)
  {
    WrittenKeys(st, tx);
    WrittenKeys(st, other);
    hide OpeningHolds;
  }

  lemma WrittenKeys(st: Store, tx: Tx)
    requires tx.work.Opening? && OpeningHolds(st, tx)
    ensures !tx.stage.ConsumeCode? ==> tx.work.g.codeId in tx.ws.codes
    ensures SessionInserted(tx) ==> tx.work.minted.session in tx.ws.sessions
    ensures AccessInserted(tx) ==> tx.work.minted.access in tx.ws.access
    ensures tx.stage.Commit? && tx.work.withRefresh ==> tx.work.minted.refresh in tx.ws.refresh
  {
  }

  lemma OpenLeavesCode(st: Store, g: Grant, withRefresh: bool, minted: NewIds, now: Time, c: Id)
    requires g.codeId in st.codes && c in st.codes
    ensures var codes := Open(st, g, withRefresh, minted, now).codes;
      && c in codes && codes[c].subject == st.codes[c].subject && codes[c].client == st.codes[c].client
      && (c != g.codeId ==> codes[c] == st.codes[c])
  {
  }

  lemma OpenLeavesKeys(st: Store, g: Grant, withRefresh: bool, minted: NewIds, now: Time, theirs: NewIds, row: SessionRow)
    requires g.codeId in st.codes && row.family == theirs.family
    ensures var st' := Open(st, g, withRefresh, minted, now);
      && (SessionInsertable(st, theirs.session, row) && minted.session != theirs.session && minted.family != theirs.family ==>
            SessionInsertable(st', theirs.session, row))
      && (AccessInsertable(st, theirs.access) && minted.access != theirs.access ==> AccessInsertable(st', theirs.access))
      && (RefreshInsertable(st, theirs.refresh, theirs.hash) && (withRefresh ==> minted.refresh != theirs.refresh && minted.hash != theirs.hash) ==>
            RefreshInsertable(st', theirs.refresh, theirs.hash))
  {
  }

  lemma OpenLeavesOpening(st: Store, tx: Tx, other: Tx)
    requires tx.work.Opening? && OpeningHolds(st, tx) && tx.stage.Commit? && Apart(tx, other)
    requires other.work.Opening? && OpeningHolds(st, other)
    ensures OpeningHolds(Open(st, tx.work.g, tx.work.withRefresh, tx.work.minted, tx.now), other)
  {
    WrittenDiffers(st, tx, other);
    OpenLeavesCode(st, tx.work.g, tx.work.withRefresh, tx.work.minted, tx.now, other.work.g.codeId);
    OpenLeavesKeys(st, tx.work.g, tx.work.withRefresh, tx.work.minted, tx.now, other.work.minted, NewSession(other.work.g, other.work.minted));
    hide Open, Apart, SessionInsertable, AccessInsertable, RefreshInsertable, NewAccess;
    OpeningStays(st, Open(st, tx.work.g, tx.work.withRefresh, tx.work.minted, tx.now), other);
  }

  /** A new session is in no sweep's selection, and the keys of existing tokens are taken. */
  lemma OpenLeavesWithin(st: Store, g: Grant, withRefresh: bool, minted: NewIds, now: Time, ids: set<Id>)
    requires OpeningAllowed(st, g, withRefresh, minted, now) && ids <= st.sessions.Keys
    ensures SameWithin(st, Open(st, g, withRefresh, minted, now), ids)
  {
  }

  lemma OpenLeavesRotation(st: Store, g: Grant, withRefresh: bool, minted: NewIds, now: Time, other: Tx)
    requires OpeningAllowed(st, g, withRefresh, minted, now)
    requires other.work.Rotation? && RotationHolds(st, other)
    ensures RotationHolds(Open(st, g, withRefresh, minted, now), other)
  {
  }

  lemma OpenLeaves(st: Store, tx: Tx, other: Tx)
    requires tx.work.Opening? && OpeningHolds(st, tx) && tx.stage.Commit? && Apart(tx, other) && Holds(st, other)
    ensures Holds(Open(st, tx.work.g, tx.work.withRefresh, tx.work.minted, tx.now), other)
  {
    var st' := Open(st, tx.work.g, tx.work.withRefresh, tx.work.minted, tx.now);
    OpeningCommits(st, tx);
    if other.work.Opening? {
      OpenLeavesOpening(st, tx, other);
    } else if other.work.Sweep? {
      OpenLeavesWithin(st, tx.work.g, tx.work.withRefresh, tx.work.minted, tx.now, other.ids);
      assert st.sessions.Keys <= st'.sessions.Keys;
      SweepStays(st, st', other);
    } else {
      OpenLeavesRotation(st, tx.work.g, tx.work.withRefresh, tx.work.minted, tx.now, other);
    }
    hide OpeningHolds, SweepHolds, RotationHolds, Open;
  }

  /** Of the sessions that the other transaction has selected, only revoked ones are revoked again. */
  lemma RevokeLeavesWithin(st: Store, js: set<Id>, now: Time, ids: set<Id>)
    requires TokensTied(st) && forall i | i in js && i in ids && i in st.sessions :: st.sessions[i].revoked.Some?
    ensures SameWithin(st, Revoke(st, js, now), ids)
  {
  }

  lemma RevokeLeaves(st: Store, js: set<Id>, now: Time, other: Tx)
    requires TokensTied(st) && Holds(st, other)
    requires forall i | i in js && i in st.sessions && st.sessions[i].revoked.None? :: NotTouched(other, i)
    ensures Holds(Revoke(st, js, now), other)
  {
    var st' := Revoke(st, js, now);
    if other.work.Opening? {
      RevokeKeys(st, js, now, other);
      OpeningStays(st, st', other);
    } else if other.work.Sweep? {
      assert st'.sessions.Keys == st.sessions.Keys;
      if other.stage in {UpdateAccess, UpdateRefresh, Commit} {
        RevokeLeavesWithin(st, js, now, other.ids);
      }
      SweepStays(st, st', other);
    } else {
      RevokeLeavesGrant(st, js, now, other.work.g);
    }
    hide OpeningHolds, SweepHolds, Revoke;
  }

  lemma RevokeLeavesGrant(st: Store, js: set<Id>, now: Time, g: Grant)
    requires TokenLocks.GrantTied(st, g)
    ensures TokenLocks.GrantTied(Revoke(st, js, now), g)
  {
  }

  lemma RevokeKeys(st: Store, js: set<Id>, now: Time, other: Tx)
    requires other.work.Opening? && Looked(st, other.work)
    ensures KeysStay(st, Revoke(st, js, now), other)
  {
    var st' := Revoke(st, js, now);
    assert forall i | i in st'.sessions :: i in st.sessions && st'.sessions[i].family == st.sessions[i].family;
    assert forall t | t in st'.refresh :: t in st.refresh && st'.refresh[t].hash == st.refresh[t].hash;
  }

  lemma RotateKeys(st: Store, g: Grant, minted: NewIds, now: Time, other: Tx)
    requires RotationAllowed(st, g, minted, now) && KeysFree(other, minted) && other.work.Opening? && OpeningHolds(st, other)
    ensures KeysStay(st, Rotate(st, g, minted, now), other)
  {
    assert AccessInserted(other) ==> other.work.minted.access in other.ws.access;
    assert other.stage.Commit? && other.work.withRefresh ==> other.work.minted.refresh in other.ws.refresh;
  }

  /** The rotated session is unrevoked, so a sweep that had updated it would hold it. */
  lemma RotateLeavesWithin(st: Store, g: Grant, minted: NewIds, now: Time, ids: set<Id>)
    requires RotationAllowed(st, g, minted, now) && g.sessionId !in ids
    ensures SameWithin(st, Rotate(st, g, minted, now), ids)
  {
  }

  lemma RotateLeavesGrant(st: Store, g: Grant, minted: NewIds, now: Time, other: Grant)
    requires RotationAllowed(st, g, minted, now) && TokenLocks.GrantTied(st, other)
    ensures TokenLocks.GrantTied(Rotate(st, g, minted, now), other)
  {
  }

  lemma RotateLeaves(st: Store, g: Grant, minted: NewIds, now: Time, other: Tx)
    requires RotationAllowed(st, g, minted, now) && Holds(st, other) && NotTouched(other, g.sessionId) && KeysFree(other, minted)
    ensures Holds(Rotate(st, g, minted, now), other)
  {
    var st' := Rotate(st, g, minted, now);
    if other.work.Opening? {
      RotateKeys(st, g, minted, now, other);
      OpeningStays(st, st', other);
    } else if other.work.Sweep? {
      assert st'.sessions.Keys == st.sessions.Keys;
      if other.stage in {UpdateAccess, UpdateRefresh, Commit} {
        assert g.sessionId in other.ids ==> g.sessionId in SessionsMatched(st, other.ids, other.now);
        RotateLeavesWithin(st, g, minted, now, other.ids);
      }
      SweepStays(st, st', other);
    } else {
      RotateLeavesGrant(st, g, minted, now, other.work.g);
    }
    hide OpeningHolds, SweepHolds, Rotate;
  }

  /** New codes, and users set active or disabled, touch nothing that is open. */
  lemma CodesLeave(st: Store, st': Store, other: Tx)
    requires Holds(st, other) && st'.sessions == st.sessions && st'.access == st.access && st'.refresh == st.refresh
    requires forall c | c in st.codes :: c in st'.codes && st'.codes[c] == st.codes[c]
    ensures Holds(st', other)
  {
  }

  // Every statement keeps the invariant.

  lemma ApartEither(a: Tx, b: Tx)
    ensures Apart(a, b) <==> Apart(b, a)
  {
  }

  lemma PutKeepsInv(s: State, n: nat, tx: Tx)
    requires StepsInv(s) && Holds(s.st, tx)
    ensures StepsInv(Put(s, n, tx))
  {
    hide StoreInv, Holds, Apart;
    if Free(s, n, tx) {
      forall m | m in s.txs && m != n
        ensures Apart(s.txs[m], tx)
      {
        ApartEither(tx, s.txs[m]);
      }
    }
  }

  lemma EndKeepsInv(s: State, n: nat)
    requires StepsInv(s)
    ensures StepsInv(End(s, n))
  {
    hide StoreInv, Holds, Apart;
  }

  lemma OpeningStatementHolds(st: Store, tx: Tx)
    requires tx.work.Opening? && OpeningHolds(st, tx) && Admits(st, tx)
    ensures var next := OpeningStatement(st, tx); next.work == tx.work && next.now == tx.now && OpeningHolds(st, next)
  {
    hide SessionInsertable, AccessInsertable, RefreshInsertable, NewSession, NewAccess;
  }

  lemma SweepStatementHolds(st: Store, tx: Tx)
    requires tx.work.Sweep? && SweepHolds(st, tx)
    ensures SweepHolds(st, SweepStatement(st, tx))
  {
    hide SessionsMatched, AccessMatched, RefreshMatched;
  }

  ghost predicate WholeCommit(st: Store, st': Store, tx: Tx) {
    match tx.work
    case Opening(g, withRefresh, minted) =>
      OpeningAllowed(st, g, withRefresh, minted, tx.now) && st' == Open(st, g, withRefresh, minted, tx.now)
    case Sweep(_) => st' == Revoke(st, tx.ids, tx.now)
    case Rotation(g, minted) => st' == st || (RotationAllowed(st, g, minted, tx.now) && st' == Rotate(st, g, minted, tx.now))
  }

  /** What an event may do to the committed tables. */
  ghost predicate Whole(s: State, e: Event, st': Store) {
    match e
    case Begin(_, _, _) => st' == s.st
    case Abort(_) => st' == s.st
    case Go(n) => if n in s.txs && s.txs[n].stage.Commit? then WholeCommit(s.st, st', s.txs[n]) else st' == s.st
    case RevokeOne(i, now) => st' == s.st || st' == Revoke(s.st, {i}, now)
    case SaveRequestCode(requestId, id, hash, now) => st' == SaveCode(s.st, requestId, id, hash, now).0
    case SetActive(user, active) => st' == Next(s, e).st
  }

  lemma CommitIsWhole(s: State, n: nat)
    requires TokensTied(s.st) && n in s.txs && Holds(s.st, s.txs[n]) && s.txs[n].stage.Commit?
    ensures WholeCommit(s.st, Next(s, Go(n)).st, s.txs[n])
  {
    var tx := s.txs[n];
    if tx.work.Opening? {
      OpeningCommits(s.st, tx);
    } else if tx.work.Sweep? {
      SweepCommits(s.st, tx);
    }
    hide Holds, TokensTied, Overlay, Open, Revoke, Rotate, OpeningAllowed, RotationAllowed, RotationFree;
  }

  /** Before its commit a transaction changes its own state only. */
  lemma StatementIsOwn(s: State, n: nat)
    requires n in s.txs && Holds(s.st, s.txs[n]) && !s.txs[n].stage.Commit?
    ensures Next(s, Go(n)).st == s.st
  {
    hide SweepStatement, OpeningStatement, Admits, Free, OpeningHolds, SweepHolds;
  }

  lemma StepIsWhole(s: State, e: Event)
    requires StepsInv(s)
    ensures Whole(s, e, Next(s, e).st)
  {
    hide WholeCommit, Revoke, SaveCode;
    if e.Go? && e.n in s.txs {
      assert TokensTied(s.st) && Holds(s.st, s.txs[e.n]);
      hide StepsInv, Holds, TokensTied;
      if s.txs[e.n].stage.Commit? {
        CommitIsWhole(s, e.n);
      } else {
        StatementIsOwn(s, e.n);
      }
      hide Next;
    }
  }

  lemma WholeKeepsStore(s: State, e: Event, st': Store)
    requires StoreInv(s.st) && Whole(s, e, st')
    ensures StoreInv(st')
  {
    match e {
      case Go(n) =>
        if n in s.txs && s.txs[n].stage.Commit? {
          CommitKeepsStore(s.st, st', s.txs[n]);
        }
      case RevokeOne(i, now) => RevokeKeepsStore(s.st, {i}, now);
      case SaveRequestCode(requestId, id, hash, now) => SaveCodeKeepsStore(s.st, requestId, id, hash, now);
      case SetActive(_, _) => ActiveKeepsStore(s.st, st');
      case _ =>
    }
    hide StoreInv, WholeCommit, Revoke, SaveCode;
  }

  lemma CommitKeepsStore(st: Store, st': Store, tx: Tx)
    requires StoreInv(st) && WholeCommit(st, st', tx)
    ensures StoreInv(st')
  {
    hide StoreInv, OpeningAllowed, RotationAllowed, Open, Rotate, Revoke;
    match tx.work {
      case Opening(g, withRefresh, minted) => OpenKeepsStore(st, g, withRefresh, minted, tx.now);
      case Sweep(_) => RevokeKeepsStore(st, tx.ids, tx.now);
      case Rotation(g, minted) =>
        if st' != st {
          RotateKeepsStore(st, g, minted, tx.now);
        }
    }
  }

  lemma ActiveKeepsStore(st: Store, st': Store)
    requires StoreInv(st) && st' == st.(activeUsers := st'.activeUsers)
    ensures StoreInv(st')
  {
    OtherTablesKeep(st, st');
    assert forall c, i :: Opens(st', c, i) <==> Opens(st, c, i);
  }

  /** What is still open after an event holds of the new tables. */
  lemma ChangeKeepsInv(s: State, txs: map<nat, Tx>, st': Store)
    requires AllApart(s) && StoreInv(st') && txs.Keys <= s.txs.Keys
    requires forall m | m in txs :: txs[m] == s.txs[m] && Holds(st', txs[m])
    ensures StepsInv(State(st', txs))
  {
    hide StoreInv, Holds, Apart;
  }

  lemma CommitLeavesOthers(s: State, n: nat, m: nat)
    requires StepsInv(s) && n in s.txs && m in s.txs && m != n && s.txs[n].stage.Commit?
    requires s.txs[n].work.Rotation? ==> RotationFree(s, n, s.txs[n].work.g, s.txs[n].work.minted)
    ensures Holds(Next(s, Go(n)).st, s.txs[m])
  {
    var tx, other := s.txs[n], s.txs[m];
    assert Holds(s.st, tx) && Holds(s.st, other) && Apart(tx, other);
    if tx.work.Opening? {
      OpeningCommits(s.st, tx);
      OpenLeaves(s.st, tx, other);
    } else if tx.work.Sweep? {
      SweepCommits(s.st, tx);
      SweepApart(s.st, tx, other);
      RevokeLeaves(s.st, tx.ids, tx.now, other);
    } else if RotationAllowed(s.st, tx.work.g, tx.work.minted, tx.now) {
      RotateLeaves(s.st, tx.work.g, tx.work.minted, tx.now, other);
    }
    hide StoreInv, Holds, Apart, Overlay, Open, Revoke, Rotate, OpeningAllowed, RotationAllowed, AllHold, AllApart;
  }

  /** No other transaction has written a session that the sweep is about to revoke. */
  lemma SweepApart(st: Store, tx: Tx, other: Tx)
    requires tx.work.Sweep? && SweepHolds(st, tx) && tx.stage.Commit? && Apart(tx, other)
    ensures forall i | i in tx.ids && i in st.sessions && st.sessions[i].revoked.None? :: NotTouched(other, i)
  {
    forall i | i in tx.ids && i in st.sessions && st.sessions[i].revoked.None?
      ensures NotTouched(other, i)
    {
      assert i in SessionsMatched(st, tx.ids, tx.now);
      assert i in tx.ws.sessions.Keys;
    }
  }

  /** A commit waits, fails, or ends the transaction with its writes in the tables. */
  lemma CommitEnds(s: State, n: nat)
    requires n in s.txs && s.txs[n].stage.Commit?
    ensures var next, tx := Next(s, Go(n)), s.txs[n];
      || next == s || next == End(s, n)
      || (next == End(s, n).(st := next.st) && (tx.work.Rotation? ==> RotationFree(s, n, tx.work.g, tx.work.minted)))
  {
    hide RotationAllowed, RotationFree, End, Overlay, Rotate;
  }

  lemma CommitKeepsInv(s: State, n: nat)
    requires StepsInv(s) && n in s.txs && s.txs[n].stage.Commit?
    ensures StepsInv(Next(s, Go(n)))
  {
    var next := Next(s, Go(n));
    CommitEnds(s, n);
    EndKeepsInv(s, n);
    if next == s || next == End(s, n) {
      return;
    }
    StepIsWhole(s, Go(n));
    WholeKeepsStore(s, Go(n), next.st);
    hide Next, StoreInv, Holds, AllApart, AllHold, Whole, RotationFree;
    assert next.txs == s.txs - {n};
    forall m | m in next.txs
      ensures next.txs[m] == s.txs[m] && Holds(next.st, next.txs[m])
    {
      CommitLeavesOthers(s, n, m);
    }
    ChangeKeepsInv(s, next.txs, next.st);
    assert State(next.st, next.txs) == next;
  }

  lemma GoRotationKeepsInv(s: State, n: nat)
    requires StepsInv(s) && n in s.txs && s.txs[n].work.Rotation? && RotationHolds(s.st, s.txs[n]) && !s.txs[n].stage.Commit?
    ensures StepsInv(GoRotation(s, n))
  {
    hide StepsInv, End, Put;
    EndKeepsInv(s, n);
    PutKeepsInv(s, n, s.txs[n].(stage := Commit));
  }

  lemma GoKeepsInv(s: State, n: nat)
    requires StepsInv(s) && n in s.txs
    ensures StepsInv(Next(s, Go(n)))
  {
    if s.txs[n].stage.Commit? {
      CommitKeepsInv(s, n);
      return;
    }
    var tx := s.txs[n];
    assert Holds(s.st, tx);
    EndKeepsInv(s, n);
    hide StepsInv, GoRotation, OpeningHolds, SweepHolds, RotationHolds, Put, End, SweepStatement, OpeningStatement, Admits;
    if tx.work.Opening? {
      if Admits(s.st, tx) {
        OpeningStatementHolds(s.st, tx);
        PutKeepsInv(s, n, OpeningStatement(s.st, tx));
      }
    } else if tx.work.Sweep? {
      SweepStatementHolds(s.st, tx);
      SweepWork(s.st, tx);
      PutKeepsInv(s, n, SweepStatement(s.st, tx));
    } else {
      GoRotationKeepsInv(s, n);
    }
  }

  lemma SweepWork(st: Store, tx: Tx)
    requires tx.work.Sweep?
    ensures SweepStatement(st, tx).work == tx.work
  {
  }

  lemma BeginKeepsInv(s: State, e: Event)
    requires StepsInv(s) && e.Begin?
    ensures StepsInv(Next(s, e))
  {
    if e.n !in s.txs && Looked(s.st, e.work) {
      var tx := Tx(e.work, e.now, FirstStage(e.work), {}, NO_WRITES);
      assert Holds(s.st, tx);
      PutKeepsInv(s, e.n, tx);
      assert Free(s, e.n, tx);
    }
    hide StepsInv, Holds;
  }

  lemma StatementKeepsInv(s: State, e: Event)
    requires StepsInv(s)
    ensures StepsInv(Next(s, e))
  {
    if e.Begin? {
      BeginKeepsInv(s, e);
      return;
    }
    if e.Abort? {
      EndKeepsInv(s, e.n);
      return;
    }
    if e.Go? {
      if e.n in s.txs {
        GoKeepsInv(s, e.n);
      }
      return;
    }
    StepIsWhole(s, e);
    var next := Next(s, e);
    WholeKeepsStore(s, e, next.st);
    hide StoreInv;
    forall m | m in s.txs
      ensures Holds(next.st, s.txs[m])
    {
      assert Holds(s.st, s.txs[m]);
      SingleLeaves(s, e, m);
    }
    hide Holds, AllApart, AllHold, Whole;
    assert next.txs == s.txs;
    hide Next;
    ChangeKeepsInv(s, s.txs, next.st);
  }

  lemma SingleLeaves(s: State, e: Event, m: nat)
    requires StoreInv(s.st) && m in s.txs && Holds(s.st, s.txs[m]) && (e.RevokeOne? || e.SaveRequestCode? || e.SetActive?)
    ensures Holds(Next(s, e).st, s.txs[m])
  {
    hide FamiliesLinear, CodesTied, UniqueHashes, Holds;
    if e.RevokeOne? {
      if forall k | k in s.txs :: NotTouched(s.txs[k], e.session) {
        RevokeLeaves(s.st, {e.session}, e.now, s.txs[m]);
      }
    } else {
      CodesLeave(s.st, Next(s, e).st, s.txs[m]);
    }
  }

  // The main results. Whole transactions first.

  /** Before anything is open. */
  function Quiet(st: Store): State {
    State(st, map[])
  }

  lemma {:induction false} RunKeepsInv(s: State, evs: seq<Event>)
    requires StepsInv(s)
    ensures StepsInv(Run(s, evs))
    decreases |evs|
  {
    if evs != [] {
      StatementKeepsInv(s, evs[0]);
      RunKeepsInv(Next(s, evs[0]), evs[1..]);
    }
  }

  /**
    However statements interleave, a commit opens one session whole, revokes all selected sessions whole, or
    rotates whole; nothing else changes the tables but the single-step events, and the store's invariant stays.
   */
  lemma InterleavingsAreWhole(st: Store, evs: seq<Event>, e: Event)
    requires StoreInv(st)
    ensures var s := Run(Quiet(st), evs); StoreInv(s.st) && Whole(s, e, Next(s, e).st)
  {
    RunKeepsInv(Quiet(st), evs);
    StepIsWhole(Run(Quiet(st), evs), e);
  }
}
