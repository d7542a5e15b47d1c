/** Why transactions that interleave statement by statement still act as whole ones, and what a lost race commits. */
module TokenRaces {
  import opened Options
  import opened TokenStore
  import opened TokenInvariant
  import opened TokenTheorems
  import opened TokenLocks

  // A commit has the effect of one atomic rotation or revocation.

  ghost predicate IsRotation(st: Store, st': Store, tx: Tx) {
    && tx.work.Rotation? && RotationAllowed(st, tx.work.g, tx.work.minted, tx.now)
    && st' == Rotate(st, tx.work.g, tx.work.minted, tx.now)
  }

  function ScopedStore(st: Store, tx: Tx): Store
    requires SessionOf(tx) in st.sessions
  {
    st.(sessions := st.sessions[SessionOf(tx) := BaseRow(st, tx)])
  }

  /** The revocation of an unrevoked session, whose scopes a rotation that lost a race may have written first. */
  ghost predicate IsSessionRevocation(st: Store, st': Store, tx: Tx) {
    && SessionOf(tx) in st.sessions && st.sessions[SessionOf(tx)].revoked.None?
    && st' == Revoke(ScopedStore(st, tx), {SessionOf(tx)}, tx.now)
  }

  lemma RotationRows(st: Store, tx: Tx)
    requires tx.work.Rotation? && tx.scoped && tx.work.g.sessionId in st.sessions && tx.work.g.refreshId in st.refresh
    ensures var g, minted, now := tx.work.g, tx.work.minted, tx.now;
      var rotated := Rotate(st, g, minted, now);
      && rotated.sessions == st.sessions[g.sessionId := BaseRow(st, tx)]
      && rotated.access == st.access + map[minted.access := NewAccess(g, g.sessionId, now)]
      && rotated.refresh == st.refresh + map[g.refreshId := st.refresh[g.refreshId].(consumed := Some(now)), minted.refresh := ChildRow(st, g, minted, now)]
  {
    hide NewAccess;
  }

  lemma RotationCommits(st: Store, locks: map<Id, nat>, n: nat, tx: Tx)
    requires TxHolds(st, locks, n, tx) && tx.stage.CommitRotation?
    ensures IsRotation(st, Overlay(st, SessionOf(tx), tx.ws), tx)
  {
    assert RotationWrites(st, tx);
    RotationRows(st, tx);
    RotateFields(st, tx.work.g, tx.work.minted, tx.now);
    hide Rotate, NewAccess, ChildRow, BaseRow, RevocationWrites, AccessInsertable, RefreshInsertable;
  }

  lemma RotateFields(st: Store, g: Grant, minted: NewIds, now: Time)
    requires g.refreshId in st.refresh && g.sessionId in st.sessions
    ensures var r := Rotate(st, g, minted, now);
      r.requests == st.requests && r.codes == st.codes && r.activeUsers == st.activeUsers
  {
  }

  /** While a session is unrevoked so are its tokens, and the two updates match them all. */
  lemma AllMatched(st: Store, base: Store, i: Id, now: Time)
    requires TokensTied(st) && i in st.sessions && st.sessions[i].revoked.None?
    requires base.access == st.access && base.refresh == st.refresh
    ensures Revoke(base, {i}, now).access == st.access + AccessMatched(st, i, now)
    ensures Revoke(base, {i}, now).refresh == st.refresh + RefreshMatched(st, i, now)
  {
    assert forall a | a in st.access && st.access[a].session == i :: st.access[a].revoked.None?;
    assert forall t | t in st.refresh && st.refresh[t].session == i :: st.refresh[t].revoked.None?;
    hide TokensTied, Revoke, AccessMatched, RefreshMatched;
    AccessAllMatched(st, base, i, now);
    RefreshAllMatched(st, base, i, now);
  }

  lemma AccessAllMatched(st: Store, base: Store, i: Id, now: Time)
    requires base.access == st.access && forall a | a in st.access && st.access[a].session == i :: st.access[a].revoked.None?
    ensures Revoke(base, {i}, now).access == st.access + AccessMatched(st, i, now)
  {
  }

  lemma RefreshAllMatched(st: Store, base: Store, i: Id, now: Time)
    requires base.refresh == st.refresh && forall t | t in st.refresh && st.refresh[t].session == i :: st.refresh[t].revoked.None?
    ensures Revoke(base, {i}, now).refresh == st.refresh + RefreshMatched(st, i, now)
  {
  }

  lemma NoneMatched(st: Store, i: Id, now: Time)
    requires TokensTied(st) && (i in st.sessions ==> st.sessions[i].revoked.Some?)
    ensures st.access + AccessMatched(st, i, now) == st.access && st.refresh + RefreshMatched(st, i, now) == st.refresh
  {
  }

  lemma SessionRevoked(st: Store, tx: Tx)
    requires SessionOf(tx) in st.sessions && st.sessions[SessionOf(tx)].revoked.None?
    ensures Revoke(ScopedStore(st, tx), {SessionOf(tx)}, tx.now).sessions == st.sessions[SessionOf(tx) := BaseRow(st, tx).(revoked := Some(tx.now))]
  {
  }

  lemma RevocationCommits(st: Store, locks: map<Id, nat>, n: nat, tx: Tx)
    requires TokensTied(st) && TxHolds(st, locks, n, tx) && tx.stage.CommitRevocation?
    ensures tx.ws.session.Some? ==> IsSessionRevocation(st, Overlay(st, SessionOf(tx), tx.ws), tx)
    ensures tx.ws.session.None? ==> Overlay(st, SessionOf(tx), tx.ws) == st
  {
    assert RevocationWrites(st, tx);
    if tx.ws.session.Some? {
      AllMatched(st, ScopedStore(st, tx), SessionOf(tx), tx.now);
      SessionRevoked(st, tx);
    } else {
      NoneMatched(st, SessionOf(tx), tx.now);
    }
    hide Revoke, TokensTied, AccessMatched, RefreshMatched, BaseRow;
    hide RotationWrites, GrantTied;
    if tx.ws.session.Some? {
      RevokeFields(ScopedStore(st, tx), {SessionOf(tx)}, tx.now);
    }
  }

  lemma RevokeFields(st: Store, ids: set<Id>, now: Time)
    ensures var r := Revoke(st, ids, now);
      r.requests == st.requests && r.codes == st.codes && r.activeUsers == st.activeUsers
  {
  }

  // What a commit leaves alone.

  /** Only rows of session i change, no owner changes, and a revocation stays. */
  ghost predicate LocalSessions(st: Store, st': Store, i: Id) {
    && st'.sessions.Keys == st.sessions.Keys
    && forall j | j in st.sessions ::
         && (j != i ==> st'.sessions[j] == st.sessions[j])
         && st'.sessions[j].user == st.sessions[j].user && st'.sessions[j].client == st.sessions[j].client
         && st'.sessions[j].family == st.sessions[j].family
  }

  ghost predicate LocalAccess(st: Store, st': Store, i: Id) {
    && (forall a | a in st.access && st.access[a].session != i :: a in st'.access && st'.access[a] == st.access[a])
    && (forall a | a in st'.access && st'.access[a].session != i :: a in st.access && st.access[a].session != i)
  }

  ghost predicate LocalRefresh(st: Store, st': Store, i: Id) {
    && (forall t | t in st.refresh :: t in st'.refresh && st'.refresh[t].session == st.refresh[t].session)
    && (forall t | t in st.refresh && st.refresh[t].session != i :: st'.refresh[t] == st.refresh[t])
    && (forall t | t in st'.refresh && st'.refresh[t].session != i :: t in st.refresh && st.refresh[t].session != i)
  }

  ghost predicate Local(st: Store, st': Store, i: Id) {
    LocalSessions(st, st', i) && LocalAccess(st, st', i) && LocalRefresh(st, st', i)
  }

  lemma RotationIsLocal(st: Store, st': Store, tx: Tx)
    requires IsRotation(st, st', tx)
    ensures Local(st, st', SessionOf(tx))
  {
  }

  lemma RevocationIsLocal(st: Store, st': Store, tx: Tx)
    requires IsSessionRevocation(st, st', tx)
    ensures Local(st, st', SessionOf(tx))
  {
    assert forall a | a in st.access :: a in st'.access && st'.access[a].session == st.access[a].session;
    assert forall t | t in st.refresh :: t in st'.refresh && st'.refresh[t].session == st.refresh[t].session;
  }

  /** The keys another transaction has inserted stay free. */
  ghost predicate StayFree(st: Store, st': Store, tx: Tx) {
    && (InsertedAccess(tx).Some? && AccessInsertable(st, InsertedAccess(tx).value) ==> AccessInsertable(st', InsertedAccess(tx).value))
    && (InsertedRefresh(tx).Some? && RefreshInsertable(st, InsertedRefresh(tx).value.0, InsertedRefresh(tx).value.1) ==>
          RefreshInsertable(st', InsertedRefresh(tx).value.0, InsertedRefresh(tx).value.1))
  }

  lemma RotationStaysFree(st: Store, st': Store, tx: Tx, other: Tx)
    requires IsRotation(st, st', tx) && tx.stage.CommitRotation? && TxInsertsDiffer(tx, other)
    ensures StayFree(st, st', other)
  {
  }

  lemma RevocationStaysFree(st: Store, st': Store, tx: Tx, other: Tx)
    requires IsSessionRevocation(st, st', tx)
    ensures StayFree(st, st', other)
  {
    forall t | t in st'.refresh
      ensures t in st.refresh && st'.refresh[t].hash == st.refresh[t].hash
    {
    }
  }

  lemma MatchedLocal(st: Store, st': Store, i: Id, j: Id, now: Time)
    requires Local(st, st', i) && i != j
    ensures AccessMatched(st', j, now) == AccessMatched(st, j, now)
    ensures RefreshMatched(st', j, now) == RefreshMatched(st, j, now)
  {
    AccessMatchedLocal(st, st', i, j, now);
    RefreshMatchedLocal(st, st', i, j, now);
    hide AccessMatched, RefreshMatched, LocalAccess, LocalRefresh, LocalSessions;
  }

  lemma AccessMatchedLocal(st: Store, st': Store, i: Id, j: Id, now: Time)
    requires LocalAccess(st, st', i) && i != j
    ensures AccessMatched(st', j, now) == AccessMatched(st, j, now)
  {
  }

  lemma RefreshMatchedLocal(st: Store, st': Store, i: Id, j: Id, now: Time)
    requires LocalRefresh(st, st', i) && i != j
    ensures RefreshMatched(st', j, now) == RefreshMatched(st, j, now)
  {
  }

  /** A transaction of another session still holds after a local change. */
  lemma OtherSessionHolds(st: Store, st': Store, i: Id, locks: map<Id, nat>, locks': map<Id, nat>, m: nat, tx: Tx)
    requires TxHolds(st, locks, m, tx) && Local(st, st', i) && SessionOf(tx) != i && StayFree(st, st', tx)
    requires SessionOf(tx) in locks' && locks'[SessionOf(tx)] == m <==> SessionOf(tx) in locks && locks[SessionOf(tx)] == m
    ensures TxHolds(st', locks', m, tx)
  {
    hide LocalAccess, LocalRefresh, StayFree, AccessMatched, RefreshMatched;
    if tx.work.Rotation? {
      GrantStaysTied(st, st', i, tx.work.g);
      if InRotation(tx) {
        RotationWritesStay(st, st', i, tx);
      }
    }
    if !InRotation(tx) {
      RevocationWritesStay(st, st', i, tx);
    }
    hide RotationWrites, RevocationWrites, GrantTied;
  }

  lemma GrantStaysTied(st: Store, st': Store, i: Id, g: Grant)
    requires GrantTied(st, g) && Local(st, st', i)
    ensures GrantTied(st', g)
  {
    hide LocalAccess;
  }

  lemma RotationWritesStay(st: Store, st': Store, i: Id, tx: Tx)
    requires tx.work.Rotation? && GrantTied(st, tx.work.g) && RotationWrites(st, tx)
    requires Local(st, st', i) && SessionOf(tx) != i && StayFree(st, st', tx)
    ensures SessionOf(tx) in st'.sessions && RotationWrites(st', tx)
  {
    var t := tx.work.g.refreshId;
    assert t in st'.refresh && st'.refresh[t] == st.refresh[t];
    hide Local, AccessInsertable, RefreshInsertable, NewAccess;
    assert st'.sessions[SessionOf(tx)] == st.sessions[SessionOf(tx)] by {
      SessionRowStays(st, st', i, SessionOf(tx));
    }
  }

  lemma SessionRowStays(st: Store, st': Store, i: Id, j: Id)
    requires Local(st, st', i) && j in st.sessions && j != i
    ensures j in st'.sessions && st'.sessions[j] == st.sessions[j]
  {
  }

  lemma RevocationWritesStay(st: Store, st': Store, i: Id, tx: Tx)
    requires RevocationWrites(st, tx) && Local(st, st', i) && SessionOf(tx) != i
    ensures RevocationWrites(st', tx)
  {
    MatchedLocal(st, st', i, SessionOf(tx), tx.now);
    hide AccessMatched, RefreshMatched, LocalAccess, LocalRefresh;
  }

  /** A transaction of the same session has written nothing yet. */
  lemma SameSessionHolds(st: Store, st': Store, i: Id, locks: map<Id, nat>, locks': map<Id, nat>, m: nat, tx: Tx)
    requires TxHolds(st, locks, m, tx) && Local(st, st', i) && SessionOf(tx) == i && tx.ws.session.None?
    requires i in st.sessions && st.sessions[i].revoked.None?
    requires !(i in locks' && locks'[i] == m)
    ensures TxHolds(st', locks', m, tx)
  {
    hide AccessMatched, RefreshMatched;
    hide LocalAccess, AccessInsertable, RefreshInsertable, NewAccess;
  }

  // Every statement keeps the invariant.

  /** Statements before the commit change one transaction's own state, and take a lock only when it is free. */
  ghost predicate OwnStep(s: State, next: State, n: nat) {
    && n in s.txs && next.st == s.st
    && (forall m | m in s.txs && m != n :: m in next.txs && next.txs[m] == s.txs[m])
    && (forall m | m in next.txs && m != n :: m in s.txs)
    && (forall i | i in s.locks && s.locks[i] != n :: i in next.locks && next.locks[i] == s.locks[i])
    && (forall i | i in next.locks && next.locks[i] != n :: i in s.locks && s.locks[i] == next.locks[i])
  }

  lemma EndOwn(s: State, n: nat)
    requires n in s.txs
    ensures OwnStep(s, End(s, n), n) && n !in End(s, n).txs
  {
  }

  lemma PutOwn(s: State, n: nat, tx: Tx)
    requires n in s.txs
    ensures OwnStep(s, s.(txs := s.txs[n := tx]), n)
  {
  }

  lemma PutLocked(s: State, n: nat, tx: Tx, i: Id)
    requires n in s.txs && i !in s.locks
    ensures OwnStep(s, s.(txs := s.txs[n := tx], locks := s.locks[i := n]), n)
  {
  }

  /** The four things a statement of a rotation can do: wait, end, go on, or go on with the session's lock. */
  ghost predicate Shaped(s: State, next: State, n: nat)
    requires n in s.txs
  {
    || next == s || next == End(s, n)
    || (n in next.txs && next == s.(txs := s.txs[n := next.txs[n]]))
    || (n in next.txs && SessionOf(s.txs[n]) !in s.locks
        && next == s.(txs := s.txs[n := next.txs[n]], locks := s.locks[SessionOf(s.txs[n]) := n]))
  }

  lemma GoRotationShaped(s: State, n: nat)
    requires n in s.txs && s.txs[n].work.Rotation?
    ensures Shaped(s, GoRotation(s, n), n)
  {
    hide End, NewAccess, ChildRow, AccessInsertable, RefreshInsertable, AccessWaits, RefreshWaits, TokenConsumable;
  }

  lemma GoRotationOwn(s: State, n: nat)
    requires n in s.txs && s.txs[n].work.Rotation?
    ensures OwnStep(s, GoRotation(s, n), n)
  {
    GoRotationShaped(s, n);
    var next := GoRotation(s, n);
    hide GoRotation, End, OwnStep;
    EndOwn(s, n);
    PutOwn(s, n, s.txs[n]);
    assert s.txs[n := s.txs[n]] == s.txs;
    if n in next.txs {
      PutOwn(s, n, next.txs[n]);
      if SessionOf(s.txs[n]) !in s.locks {
        PutLocked(s, n, next.txs[n], SessionOf(s.txs[n]));
      }
    }
  }

  lemma GoRevocationOwn(s: State, n: nat)
    requires n in s.txs
    ensures OwnStep(s, GoRevocation(s, n), n) && n in GoRevocation(s, n).txs
  {
    PutOwn(s, n, s.txs[n]);
    assert s.txs[n := s.txs[n]] == s.txs;
    var next := GoRevocation(s, n);
    PutOwn(s, n, next.txs[n]);
    if SessionOf(s.txs[n]) !in s.locks {
      PutLocked(s, n, next.txs[n], SessionOf(s.txs[n]));
    }
    hide OwnStep, AccessMatched, RefreshMatched;
  }

  lemma GoReadHolds(s: State, n: nat)
    requires n in s.txs && s.txs[n].stage in {ReadToken, ReadSession, WriteSession} && TxHolds(s.st, s.locks, n, s.txs[n])
    ensures n in GoRotation(s, n).txs ==> TxHolds(s.st, GoRotation(s, n).locks, n, GoRotation(s, n).txs[n])
  {
    assert RotationWrites(s.st, s.txs[n]);
    hide TokenConsumable, AccessMatched, RefreshMatched;
  }

  lemma GoWriteHolds(s: State, n: nat)
    requires n in s.txs && s.txs[n].stage in {WriteToken, InsertAccess} && TxHolds(s.st, s.locks, n, s.txs[n])
    ensures n in GoRotation(s, n).txs ==> TxHolds(s.st, GoRotation(s, n).locks, n, GoRotation(s, n).txs[n])
  {
    assert RotationWrites(s.st, s.txs[n]);
    hide AccessMatched, RefreshMatched, NewAccess, ChildRow, RefreshInsertable, AccessWaits;
  }

  lemma GoInsertHolds(s: State, n: nat)
    requires n in s.txs && s.txs[n].stage.InsertRefresh? && TxHolds(s.st, s.locks, n, s.txs[n])
    ensures n in GoRotation(s, n).txs ==> TxHolds(s.st, GoRotation(s, n).locks, n, GoRotation(s, n).txs[n])
  {
    assert RotationWrites(s.st, s.txs[n]);
    hide AccessMatched, RefreshMatched, NewAccess, ChildRow, RefreshInsertable, AccessInsertable, RefreshWaits;
  }

  lemma GoRevokeSessionHolds(s: State, n: nat)
    requires n in s.txs && s.txs[n].stage.RevokeSession? && TxHolds(s.st, s.locks, n, s.txs[n])
    ensures TxHolds(s.st, GoRevocation(s, n).locks, n, GoRevocation(s, n).txs[n])
  {
    assert RevocationWrites(s.st, s.txs[n]);
    hide AccessMatched, RefreshMatched, GrantTied;
  }

  lemma GoRevokeTokensHolds(s: State, n: nat)
    requires n in s.txs && s.txs[n].stage in {RevokeAccess, RevokeRefresh} && TxHolds(s.st, s.locks, n, s.txs[n])
    ensures TxHolds(s.st, GoRevocation(s, n).locks, n, GoRevocation(s, n).txs[n])
  {
    assert RevocationWrites(s.st, s.txs[n]);
    hide AccessMatched, RefreshMatched, GrantTied;
  }

  /** A step of transaction n leaves what holds of the others. */
  lemma OthersHold(s: State, next: State, n: nat)
    requires AllHold(s) && OwnStep(s, next, n)
    ensures forall m | m in next.txs && m != n :: TxHolds(next.st, next.locks, m, next.txs[m])
  {
    forall m | m in next.txs && m != n
      ensures TxHolds(next.st, next.locks, m, next.txs[m])
    {
      assert TxHolds(s.st, s.locks, m, s.txs[m]);
      hide RotationWrites, RevocationWrites, GrantTied;
    }
  }

  /** Unless a transaction ends, locks stay with transactions of their session. */
  lemma LocksStay(s: State, next: State, n: nat)
    requires LocksHeld(s) && OwnStep(s, next, n)
    requires n in next.txs ==> SessionOf(next.txs[n]) == SessionOf(s.txs[n])
    requires forall i | i in next.locks && next.locks[i] == n :: n in next.txs && i == SessionOf(s.txs[n])
    ensures LocksHeld(next)
  {
  }

  lemma GoRotationLocks(s: State, n: nat)
    requires n in s.txs && s.txs[n].work.Rotation? && LocksHeld(s)
    ensures n in GoRotation(s, n).txs ==> GoRotation(s, n).txs[n].work == s.txs[n].work
    ensures forall i | i in GoRotation(s, n).locks && GoRotation(s, n).locks[i] == n :: n in GoRotation(s, n).txs && i == SessionOf(s.txs[n])
  {
    hide NewAccess, ChildRow, AccessInsertable, RefreshInsertable, AccessWaits, RefreshWaits, TokenConsumable;
  }

  lemma GoRevocationLocks(s: State, n: nat)
    requires n in s.txs && LocksHeld(s)
    ensures n in GoRevocation(s, n).txs && GoRevocation(s, n).txs[n].work == s.txs[n].work
    ensures forall i | i in GoRevocation(s, n).locks && GoRevocation(s, n).locks[i] == n :: i == SessionOf(s.txs[n])
  {
    hide AccessMatched, RefreshMatched;
  }

  // Inserted keys.

  /** A statement inserts nothing, or a key that nobody else has inserted. */
  lemma GoRotationInserted(s: State, n: nat)
    requires n in s.txs && s.txs[n].work.Rotation? && n in GoRotation(s, n).txs
    ensures var tx, next := s.txs[n], GoRotation(s, n).txs[n];
      && (InsertedAccess(next).Some? ==> InsertedAccess(next) == InsertedAccess(tx) || !AccessWaits(s, n, InsertedAccess(next).value))
      && (InsertedRefresh(next).Some? ==>
            InsertedRefresh(next) == InsertedRefresh(tx) || !RefreshWaits(s, n, InsertedRefresh(next).value.0, InsertedRefresh(next).value.1))
  {
    hide NewAccess, ChildRow, AccessInsertable, RefreshInsertable, TokenConsumable, AccessWaits, RefreshWaits, End;
    EndGone(s, n);
    match s.txs[n].stage {
      case InsertAccess => return;
      case InsertRefresh => return;
      case _ =>
    }
  }

  lemma EndGone(s: State, n: nat)
    requires n in s.txs
    ensures n !in End(s, n).txs
  {
  }

  lemma GoRotationInserts(s: State, n: nat)
    requires n in s.txs && s.txs[n].work.Rotation? && InsertsDiffer(s.txs) && n in GoRotation(s, n).txs
    ensures forall m | m in s.txs && m != n :: TxInsertsDiffer(GoRotation(s, n).txs[n], s.txs[m]) && TxInsertsDiffer(s.txs[m], GoRotation(s, n).txs[n])
  {
    GoRotationInserted(s, n);
    hide GoRotation, InsertedAccess, InsertedRefresh;
    forall m | m in s.txs && m != n
      ensures TxInsertsDiffer(GoRotation(s, n).txs[n], s.txs[m]) && TxInsertsDiffer(s.txs[m], GoRotation(s, n).txs[n])
    {
      assert TxInsertsDiffer(s.txs[n], s.txs[m]) && TxInsertsDiffer(s.txs[m], s.txs[n]);
    }
  }

  lemma GoRevocationInserts(s: State, n: nat, m: nat)
    requires n in s.txs && s.txs[n].stage in {RevokeSession, RevokeAccess, RevokeRefresh} && m in s.txs
    ensures n in GoRevocation(s, n).txs
    ensures TxInsertsDiffer(GoRevocation(s, n).txs[n], s.txs[m]) && TxInsertsDiffer(s.txs[m], GoRevocation(s, n).txs[n])
  {
    hide AccessMatched, RefreshMatched;
  }

  lemma InsertsStay(s: State, next: State, n: nat)
    requires InsertsDiffer(s.txs) && OwnStep(s, next, n)
    requires n in next.txs ==> forall m | m in s.txs && m != n :: TxInsertsDiffer(next.txs[n], s.txs[m]) && TxInsertsDiffer(s.txs[m], next.txs[n])
    ensures InsertsDiffer(next.txs)
  {
    hide TxInsertsDiffer;
  }

  // Commits.

  lemma ScopedKeepsTokens(st: Store, tx: Tx)
    requires TokensTied(st) && UniqueHashes(st) && SessionOf(tx) in st.sessions
    ensures TokensTied(ScopedStore(st, tx)) && UniqueHashes(ScopedStore(st, tx))
  {
  }

  lemma ScopedKeepsFamilies(st: Store, tx: Tx)
    requires FamiliesLinear(st) && SessionOf(tx) in st.sessions
    ensures FamiliesLinear(ScopedStore(st, tx))
  {
    var st' := ScopedStore(st, tx);
    forall i | i in st'.sessions
      ensures HasFamily(st', i)
    {
      assert HasFamily(st, i);
      var chain :| IsFamily(st, i, chain);
      FamilyUnchanged(st, st', i, chain);
    }
  }

  lemma ScopedKeepsStore(st: Store, tx: Tx)
    requires StoreInv(st) && SessionOf(tx) in st.sessions
    ensures StoreInv(ScopedStore(st, tx))
  {
    hide TokensTied, UniqueHashes, FamiliesLinear;
    CodesUnchanged(st, ScopedStore(st, tx));
    ScopedKeepsTokens(st, tx);
    ScopedKeepsFamilies(st, tx);
    hide CodesTied;
  }

  /** What a commit does to the committed tables. */
  ghost predicate Effect(st: Store, st': Store, tx: Tx) {
    if tx.stage.CommitRotation? then IsRotation(st, st', tx)
    else if tx.ws.session.Some? then IsSessionRevocation(st, st', tx)
    else st' == st
  }

  predicate Commits(s: State, e: Event) {
    e.Go? && e.n in s.txs && (s.txs[e.n].stage.CommitRotation? || s.txs[e.n].stage.CommitRevocation?)
  }

  /** Committed tables change at commits only, and there as by one atomic rotation or revocation. */
  lemma StepRefines(s: State, e: Event)
    requires LocksInv(s)
    ensures if Commits(s, e) then Effect(s.st, Next(s, e).st, s.txs[e.n]) else Next(s, e).st == s.st
  {
    if Commits(s, e) {
      var tx := s.txs[e.n];
      assert TxHolds(s.st, s.locks, e.n, tx);
      if tx.stage.CommitRotation? {
        RotationCommits(s.st, s.locks, e.n, tx);
      } else {
        RevocationCommits(s.st, s.locks, e.n, tx);
      }
      hide TxHolds, Overlay, IsRotation, IsSessionRevocation;
    } else if e.Go? && e.n in s.txs {
      if s.txs[e.n].work.Rotation? {
        GoRotationOwn(s, e.n);
      }
      GoRevocationOwn(s, e.n);
      hide GoRotation, GoRevocation;
    }
  }

  lemma EffectKeepsStore(st: Store, st': Store, tx: Tx)
    requires StoreInv(st) && Effect(st, st', tx)
    ensures StoreInv(st')
  {
    if tx.stage.CommitRotation? {
      RotateKeepsStore(st, tx.work.g, tx.work.minted, tx.now);
    } else if tx.ws.session.Some? {
      ScopedKeepsStore(st, tx);
      RevokeKeepsStore(ScopedStore(st, tx), {SessionOf(tx)}, tx.now);
    }
  }

  /** A commit that has written the session's row: it was unrevoked, and no other transaction has written it. */
  lemma HolderIsAlone(s: State, n: nat, m: nat)
    requires AllHold(s) && n in s.txs && m in s.txs && m != n && s.txs[n].ws.session.Some?
    ensures SessionOf(s.txs[n]) in s.st.sessions && s.st.sessions[SessionOf(s.txs[n])].revoked.None?
    ensures SessionOf(s.txs[m]) == SessionOf(s.txs[n]) ==> s.txs[m].ws.session.None?
  {
    assert TxHolds(s.st, s.locks, n, s.txs[n]) && TxHolds(s.st, s.locks, m, s.txs[m]);
    hide RotationWrites, RevocationWrites, GrantTied;
  }

  lemma RotationHasRow(s: State, n: nat)
    requires AllHold(s) && n in s.txs && s.txs[n].stage.CommitRotation?
    ensures s.txs[n].ws.session.Some?
  {
    assert TxHolds(s.st, s.locks, n, s.txs[n]);
  }

  lemma EffectIsLocal(st: Store, st': Store, tx: Tx, other: Tx)
    requires Effect(st, st', tx) && (tx.stage.CommitRotation? || tx.ws.session.Some?) && TxInsertsDiffer(tx, other)
    ensures Local(st, st', SessionOf(tx)) && StayFree(st, st', other)
  {
    if tx.stage.CommitRotation? {
      RotationIsLocal(st, st', tx);
      RotationStaysFree(st, st', tx, other);
    } else {
      RevocationIsLocal(st, st', tx);
      RevocationStaysFree(st, st', tx, other);
    }
    hide IsRotation, IsSessionRevocation, Local, StayFree, TxInsertsDiffer;
  }

  /** Ending another transaction leaves what holds of this one. */
  lemma EndOthersHold(s: State, n: nat, m: nat)
    requires n in s.txs && m in s.txs && m != n && TxHolds(s.st, s.locks, m, s.txs[m])
    ensures TxHolds(s.st, End(s, n).locks, m, s.txs[m])
  {
    EndKeepsLock(s, n, m);
    hide RotationWrites, RevocationWrites, GrantTied, End;
  }

  lemma CommitOthersHold(s: State, n: nat, st': Store, m: nat)
    requires LocksInv(s) && n in s.txs && m in s.txs && m != n && Effect(s.st, st', s.txs[n])
    requires s.txs[n].stage.CommitRotation? || s.txs[n].stage.CommitRevocation?
    ensures TxHolds(st', End(s, n).locks, m, s.txs[m])
  {
    var tx, other := s.txs[n], s.txs[m];
    assert TxHolds(s.st, s.locks, m, other);
    assert TxInsertsDiffer(tx, other);
    if tx.stage.CommitRotation? {
      RotationHasRow(s, n);
    }
    hide TxHolds, StoreInv, TxInsertsDiffer, IsRotation, IsSessionRevocation, End, Local, StayFree;
    if tx.ws.session.None? {
      EndOthersHold(s, n, m);
      return;
    }
    EndKeepsLock(s, n, m);
    EffectIsLocal(s.st, st', tx, other);
    HolderIsAlone(s, n, m);
    hide Effect;
    if SessionOf(other) == SessionOf(tx) {
      LockIsHolders(s, n);
      SameSessionHolds(s.st, st', SessionOf(tx), s.locks, End(s, n).locks, m, other);
    } else {
      OtherSessionHolds(s.st, st', SessionOf(tx), s.locks, End(s, n).locks, m, other);
    }
  }

  lemma LockIsHolders(s: State, n: nat)
    requires AllHold(s) && n in s.txs && s.txs[n].ws.session.Some?
    ensures SessionOf(s.txs[n]) in s.locks && s.locks[SessionOf(s.txs[n])] == n
  {
    assert TxHolds(s.st, s.locks, n, s.txs[n]);
    hide RotationWrites, RevocationWrites, GrantTied;
  }

  lemma EndKeepsLock(s: State, n: nat, m: nat)
    requires n in s.txs && m != n
    ensures forall i :: i in End(s, n).locks && End(s, n).locks[i] == m <==> i in s.locks && s.locks[i] == m
  {
  }

  lemma CommitEnds(s: State, e: Event)
    requires Commits(s, e)
    ensures Next(s, e).txs == End(s, e.n).txs && Next(s, e).locks == End(s, e.n).locks
    ensures e.n !in End(s, e.n).txs && forall i | i in End(s, e.n).locks :: End(s, e.n).locks[i] != e.n
  {
  }

  lemma CommitKeepsInv(s: State, e: Event)
    requires LocksInv(s) && Commits(s, e)
    ensures LocksInv(Next(s, e))
  {
    hide Next, End, StoreInv, TxHolds, Effect, TxInsertsDiffer;
    var next := Next(s, e);
    CommitEnds(s, e);
    StepRefines(s, e);
    EffectKeepsStore(s.st, next.st, s.txs[e.n]);
    EndOwn(s, e.n);
    LocksStay(s, End(s, e.n), e.n);
    InsertsStay(s, End(s, e.n), e.n);
    forall m | m in next.txs
      ensures TxHolds(next.st, next.locks, m, next.txs[m])
    {
      CommitOthersHold(s, e.n, next.st, m);
    }
  }

  lemma BeginHolds(s: State, n: nat, work: Work, now: Time)
    requires LocksHeld(s) && n !in s.txs && (work.Rotation? ==> GrantTied(s.st, work.g))
    ensures TxHolds(s.st, s.locks, n, Tx(work, now, if work.Rotation? then ReadToken else RevokeSession, false, NO_WRITES))
  {
    hide GrantTied;
  }

  lemma BeginKeepsInv(s: State, e: Event)
    requires LocksInv(s) && e.Begin?
    ensures LocksInv(Next(s, e))
  {
    hide StoreInv, TxHolds, TxInsertsDiffer, GrantTied;
    var next := Next(s, e);
    if next != s {
      BeginHolds(s, e.n, e.work, e.now);
      NothingInserted(next.txs[e.n]);
      assert next.txs == s.txs[e.n := next.txs[e.n]] && next.st == s.st && next.locks == s.locks;
      hide Next;
      assert forall m | m in s.txs :: next.txs[m] == s.txs[m];
    }
  }

  lemma NothingInserted(tx: Tx)
    requires tx.stage.ReadToken? || tx.stage.RevokeSession?
    ensures forall other :: TxInsertsDiffer(tx, other) && TxInsertsDiffer(other, tx)
  {
  }

  lemma AbortKeepsInv(s: State, n: nat)
    requires LocksInv(s) && n in s.txs
    ensures LocksInv(End(s, n))
  {
    EndOwn(s, n);
    OthersHold(s, End(s, n), n);
    EndFreesLocks(s, n);
    hide End, StoreInv, TxHolds, TxInsertsDiffer;
    LocksStay(s, End(s, n), n);
    InsertsStay(s, End(s, n), n);
  }

  lemma EndFreesLocks(s: State, n: nat)
    requires n in s.txs
    ensures forall i | i in End(s, n).locks :: End(s, n).locks[i] != n
  {
  }

  lemma RotationStepKeepsInv(s: State, n: nat)
    requires LocksInv(s) && n in s.txs && s.txs[n].work.Rotation?
    requires s.txs[n].stage in {ReadToken, ReadSession, WriteSession, WriteToken, InsertAccess, InsertRefresh}
    ensures LocksInv(GoRotation(s, n))
  {
    hide StoreInv, GoRotation, TxInsertsDiffer;
    var next := GoRotation(s, n);
    assert TxHolds(s.st, s.locks, n, s.txs[n]);
    hide TxHolds;
    GoRotationOwn(s, n);
    OthersHold(s, next, n);
    GoRotationLocks(s, n);
    LocksStay(s, next, n);
    if n in next.txs {
      GoRotationInserts(s, n);
    }
    InsertsStay(s, next, n);
    if s.txs[n].stage in {ReadToken, ReadSession, WriteSession} {
      GoReadHolds(s, n);
    } else if s.txs[n].stage in {WriteToken, InsertAccess} {
      GoWriteHolds(s, n);
    } else {
      GoInsertHolds(s, n);
    }
  }

  lemma RevocationStepKeepsInv(s: State, n: nat)
    requires LocksInv(s) && n in s.txs && s.txs[n].stage in {RevokeSession, RevokeAccess, RevokeRefresh}
    ensures LocksInv(GoRevocation(s, n))
  {
    hide StoreInv, GoRevocation, TxInsertsDiffer;
    var next := GoRevocation(s, n);
    assert TxHolds(s.st, s.locks, n, s.txs[n]);
    hide TxHolds;
    GoRevocationOwn(s, n);
    OthersHold(s, next, n);
    GoRevocationLocks(s, n);
    LocksStay(s, next, n);
    forall m | m in s.txs && m != n
      ensures TxInsertsDiffer(next.txs[n], s.txs[m]) && TxInsertsDiffer(s.txs[m], next.txs[n])
    {
      GoRevocationInserts(s, n, m);
    }
    InsertsStay(s, next, n);
    if s.txs[n].stage.RevokeSession? {
      GoRevokeSessionHolds(s, n);
    } else {
      GoRevokeTokensHolds(s, n);
    }
  }

  lemma StepKeepsInv(s: State, e: Event)
    requires LocksInv(s)
    ensures LocksInv(Next(s, e))
  {
    if Commits(s, e) {
      CommitKeepsInv(s, e);
      return;
    }
    if e.Begin? {
      BeginKeepsInv(s, e);
      return;
    }
    if e.n !in s.txs {
      return;
    }
    if e.Abort? {
      AbortKeepsInv(s, e.n);
      return;
    }
    assert TxHolds(s.st, s.locks, e.n, s.txs[e.n]);
    hide LocksInv, GoRotation, GoRevocation;
    if s.txs[e.n].stage in {RevokeSession, RevokeAccess, RevokeRefresh} {
      RevocationStepKeepsInv(s, e.n);
    } else {
      RotationStepKeepsInv(s, e.n);
    }
  }

  // The main results.

  /** Before anything is open. */
  function Quiet(st: Store): State {
    State(st, map[], map[])
  }

  lemma {:induction false} RunKeepsInv(s: State, evs: seq<Event>)
    requires LocksInv(s)
    ensures LocksInv(Run(s, evs))
    decreases |evs|
  {
    if evs != [] {
      StepKeepsInv(s, evs[0]);
      RunKeepsInv(Next(s, evs[0]), evs[1..]);
    }
  }

  /**
    However statements interleave, what is committed next is what one whole rotation or revocation makes
    of what was committed before, and stays within the store's invariant.
   */
  lemma InterleavingsAreAtomic(st: Store, evs: seq<Event>, e: Event)
    requires StoreInv(st)
    ensures var s := Run(Quiet(st), evs);
      && StoreInv(s.st)
      && if Commits(s, e) then Effect(s.st, Next(s, e).st, s.txs[e.n]) else Next(s, e).st == s.st
  {
    RunKeepsInv(Quiet(st), evs);
    StepRefines(Run(Quiet(st), evs), e);
  }

  lemma CommitWithoutRotation(st: Store, st': Store, locks: map<Id, nat>, n: nat, tx: Tx)
    requires TokensTied(st) && TxHolds(st, locks, n, tx) && tx.stage.CommitRevocation? && Effect(st, st', tx)
    requires SessionOf(tx) in st.sessions
    ensures WholeSessionRevoked(st', SessionOf(tx))
  {
    assert RevocationWrites(st, tx);
    hide RotationWrites, AccessMatched, RefreshMatched, GrantTied;
    if tx.ws.session.Some? {
      RevokeRevokes(ScopedStore(st, tx), SessionOf(tx), tx.now);
    }
  }

  lemma CommittedRotationWas(st: Store, locks: map<Id, nat>, n: nat, tx: Tx)
    requires TxHolds(st, locks, n, tx) && tx.work.Rotation?
    ensures tx.work.g.refreshId in st.refresh && tx.work.g.sessionId in st.sessions
    ensures tx.stage.CommitRotation? ==> st.refresh[tx.work.g.refreshId].consumed.None?
  {
  }

  /** A rotation whose token another has consumed commits, if at all, a revocation of the whole session instead. */
  lemma RaceLoserRevokes(st: Store, evs: seq<Event>, e: Event)
    requires StoreInv(st)
    requires var s := Run(Quiet(st), evs);
      Commits(s, e) && s.txs[e.n].work.Rotation? && ConsumedToken(s.st, s.txs[e.n].work.g.refreshId)
    ensures var s := Run(Quiet(st), evs); WholeSessionRevoked(Next(s, e).st, SessionOf(s.txs[e.n]))
  {
    var s := Run(Quiet(st), evs);
    RunKeepsInv(Quiet(st), evs);
    hide Run;
    StepRefines(s, e);
    assert TxHolds(s.st, s.locks, e.n, s.txs[e.n]);
    hide Next, TxHolds, Effect, WholeSessionRevoked;
    CommittedRotationWas(s.st, s.locks, e.n, s.txs[e.n]);
    CommitWithoutRotation(s.st, Next(s, e).st, s.locks, e.n, s.txs[e.n]);
  }

  /** How many rotations of token t commit in a run. */
  ghost function Rotations(s: State, evs: seq<Event>, t: Id): nat
    decreases |evs|
  {
    if evs == [] then 0
    else
      var one := Commits(s, evs[0]) && s.txs[evs[0].n].stage.CommitRotation? && s.txs[evs[0].n].work.Rotation? && s.txs[evs[0].n].work.g.refreshId == t;
      (if one then 1 else 0) + Rotations(Next(s, evs[0]), evs[1..], t)
  }

  lemma StepConsumes(s: State, e: Event, t: Id)
    requires LocksInv(s)
    ensures ConsumedToken(s.st, t) ==> ConsumedToken(Next(s, e).st, t)
    ensures Commits(s, e) && s.txs[e.n].stage.CommitRotation? && s.txs[e.n].work.Rotation? && s.txs[e.n].work.g.refreshId == t ==>
      !ConsumedToken(s.st, t) && ConsumedToken(Next(s, e).st, t)
  {
    StepRefines(s, e);
    hide Next, StoreInv, TxHolds, Effect;
    if Commits(s, e) {
      assert TxHolds(s.st, s.locks, e.n, s.txs[e.n]);
      EffectConsumes(s.st, Next(s, e).st, s.txs[e.n], t);
      if s.txs[e.n].work.Rotation? {
        CommittedRotationWas(s.st, s.locks, e.n, s.txs[e.n]);
      }
    }
  }

  lemma EffectConsumes(st: Store, st': Store, tx: Tx, t: Id)
    requires Effect(st, st', tx)
    ensures ConsumedToken(st, t) ==> ConsumedToken(st', t)
    ensures tx.stage.CommitRotation? && tx.work.Rotation? && tx.work.g.refreshId == t ==> ConsumedToken(st', t)
  {
  }

  /** Of any number of transactions racing for one token, at most one commits its rotation. */
  lemma {:induction false} OneRotationCommits(s: State, evs: seq<Event>, t: Id)
    requires LocksInv(s)
    ensures Rotations(s, evs, t) <= if ConsumedToken(s.st, t) then 0 else 1
    decreases |evs|
  {
    if evs != [] {
      StepKeepsInv(s, evs[0]);
      StepConsumes(s, evs[0], t);
      OneRotationCommits(Next(s, evs[0]), evs[1..], t);
    }
  }

  // The user's check.

  /** Every rotation past its read of the session has found its user active. */
  ghost predicate Checked(s: State) {
    forall n | n in s.txs :: PassedCheck(s.st, s.txs[n])
  }

  predicate PassedCheck(st: Store, tx: Tx) {
    tx.work.Rotation? && tx.stage in {WriteSession, WriteToken, InsertAccess, InsertRefresh, CommitRotation} ==> tx.work.g.user in st.activeUsers
  }

  lemma GoRotationChecks(s: State, n: nat)
    requires n in s.txs && s.txs[n].work.Rotation? && PassedCheck(s.st, s.txs[n]) && n in GoRotation(s, n).txs
    ensures PassedCheck(s.st, GoRotation(s, n).txs[n])
  {
    hide NewAccess, ChildRow, AccessInsertable, RefreshInsertable, AccessWaits, RefreshWaits, TokenConsumable;
  }

  lemma GoRevocationChecks(s: State, n: nat)
    requires n in s.txs && PassedCheck(s.st, s.txs[n]) && n in GoRevocation(s, n).txs
    ensures PassedCheck(s.st, GoRevocation(s, n).txs[n])
  {
    hide AccessMatched, RefreshMatched;
  }

  /** A transaction open after an event was open before it, or begins with it. */
  lemma OpenBefore(s: State, e: Event, n: nat)
    requires n in Next(s, e).txs && !(e == Go(n) && n in s.txs)
    ensures (n in s.txs && Next(s, e).txs[n] == s.txs[n]) || (n !in s.txs && Next(s, e).txs[n].stage in {ReadToken, RevokeSession})
  {
    if e.Go? && e.n in s.txs {
      EndOwn(s, e.n);
      GoRevocationOwn(s, e.n);
      if s.txs[e.n].work.Rotation? {
        GoRotationOwn(s, e.n);
      }
      hide GoRotation, GoRevocation, End, Overlay;
      return;
    }
    hide GoRotation, GoRevocation, GrantTied;
  }

  lemma StepKeepsChecked(s: State, e: Event)
    requires LocksInv(s) && Checked(s)
    ensures Checked(Next(s, e))
  {
    StepRefines(s, e);
    EffectKeepsActive(s, e);
    hide LocksInv, Effect;
    forall n | n in Next(s, e).txs
      ensures PassedCheck(Next(s, e).st, Next(s, e).txs[n])
    {
      if e == Go(n) && n in s.txs {
        assert PassedCheck(s.st, s.txs[n]);
        GoChecks(s, n);
      } else {
        OpenBefore(s, e, n);
      }
      hide Next;
    }
  }

  lemma GoChecks(s: State, n: nat)
    requires n in s.txs && PassedCheck(s.st, s.txs[n]) && n in Next(s, Go(n)).txs
    ensures PassedCheck(s.st, Next(s, Go(n)).txs[n])
  {
    hide PassedCheck, GoRotation, GoRevocation;
    if s.txs[n].stage.CommitRotation? || s.txs[n].stage.CommitRevocation? {
      EndOwn(s, n);
      return;
    }
    if s.txs[n].stage in {RevokeSession, RevokeAccess, RevokeRefresh} {
      GoRevocationOwn(s, n);
      GoRevocationChecks(s, n);
    } else if s.txs[n].work.Rotation? {
      GoRotationChecks(s, n);
    }
  }

  lemma EffectKeepsActive(s: State, e: Event)
    requires if Commits(s, e) then Effect(s.st, Next(s, e).st, s.txs[e.n]) else Next(s, e).st == s.st
    ensures Next(s, e).st.activeUsers == s.st.activeUsers
  {
    hide Next, RotationAllowed;
  }

  lemma {:induction false} RunKeepsChecked(s: State, evs: seq<Event>)
    requires LocksInv(s) && Checked(s)
    ensures Checked(Run(s, evs))
    decreases |evs|
  {
    hide LocksInv, Checked, Next;
    if evs != [] {
      StepKeepsChecked(s, evs[0]);
      StepKeepsInv(s, evs[0]);
      RunKeepsChecked(Next(s, evs[0]), evs[1..]);
    }
  }

  /** A rotation that commits belongs to an active user, and its token was still unconsumed and its session unrevoked. */
  lemma CommittedRotationWasAllowed(st: Store, evs: seq<Event>, e: Event)
    requires StoreInv(st)
    requires var s := Run(Quiet(st), evs); Commits(s, e) && s.txs[e.n].stage.CommitRotation?
    ensures var s := Run(Quiet(st), evs);
      var tx := s.txs[e.n];
      tx.work.Rotation? && RotationAllowed(s.st, tx.work.g, tx.work.minted, tx.now) && tx.work.g.user in s.st.activeUsers
  {
    var s := Run(Quiet(st), evs);
    RunKeepsInv(Quiet(st), evs);
    RunKeepsChecked(Quiet(st), evs);
    StepRefines(s, e);
    hide Run, Next, LocksInv;
    assert PassedCheck(s.st, s.txs[e.n]);
  }
}
