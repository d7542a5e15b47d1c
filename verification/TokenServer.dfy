/**
  The OIDC storage object: each method is one transaction, carried out statement by statement on a
  private copy of the tables, then committed or dropped. Every method is proved to do exactly what
  the matching function of TokenStore says.
*/
module TokenServer {
  import opened Options
  import opened TokenStore
  import opened TokenIssuance

  lemma LookupCodeUnique(st: Store, c: Id, hash: string, now: Time)
    requires UniqueHashes(st) && IsLiveCode(st, c, hash, now)
    ensures forall d :: IsLiveCode(st, d, hash, now) ==> d == c
  {
  }

  lemma LookupRefreshUnique(st: Store, t: Id, hash: string)
    requires UniqueHashes(st) && IsRefresh(st, t, hash)
    ensures forall u :: IsRefresh(st, u, hash) ==> u == t
  {
  }

  /** Consuming a token frees no identifier and no hash. */
  lemma ConsumeKeepsHashes(st: Store, tx: Store, t: Id, now: Time, id: Id, hash: string)
    requires t in st.refresh && tx.refresh == st.refresh[t := st.refresh[t].(consumed := Some(now))]
    ensures RefreshInsertable(tx, id, hash) <==> RefreshInsertable(st, id, hash)
  {
    assert forall u :: u in tx.refresh <==> u in st.refresh;
    assert forall u | u in st.refresh :: tx.refresh[u].hash == st.refresh[u].hash;
  }

  /** An open transaction: statements update its tables in place and report how many rows matched. */
  class Tx {
    var db: Store

    constructor (st: Store)
      ensures db == st
    {
      db := st;
    }

    method ConsumeCode(id: Id, session: Id, now: Time) returns (rows: nat)
      modifies this
      ensures rows == if CodeConsumable(old(db), id, now) then 1 else 0
      ensures db == if rows == 0 then old(db) else old(db).(codes :=
        old(db).codes[id := old(db).codes[id].(session := Some(session), consumed := Some(now))])
    {
      if !CodeConsumable(db, id, now) {
        return 0;
      }
      db := db.(codes := db.codes[id := db.codes[id].(session := Some(session), consumed := Some(now))]);
      rows := 1;
    }

    method InsertSession(id: Id, row: SessionRow) returns (ok: bool)
      modifies this
      ensures ok == SessionInsertable(old(db), id, row)
      ensures db == if ok then old(db).(sessions := old(db).sessions[id := row]) else old(db)
    {
      ok := SessionInsertable(db, id, row);
      if ok {
        db := db.(sessions := db.sessions[id := row]);
      }
    }

    method InsertAccess(id: Id, row: AccessRow) returns (ok: bool)
      modifies this
      ensures ok == AccessInsertable(old(db), id)
      ensures db == if ok then old(db).(access := old(db).access[id := row]) else old(db)
    {
      ok := AccessInsertable(db, id);
      if ok {
        db := db.(access := db.access[id := row]);
      }
    }

    method InsertRefresh(id: Id, row: RefreshRow) returns (ok: bool)
      modifies this
      ensures ok == RefreshInsertable(old(db), id, row.hash)
      ensures db == if ok then old(db).(refresh := old(db).refresh[id := row]) else old(db)
    {
      ok := RefreshInsertable(db, id, row.hash);
      if ok {
        db := db.(refresh := db.refresh[id := row]);
      }
    }

    method UpdateSessionScopes(id: Id, scopes: seq<string>) returns (rows: nat)
      modifies this
      ensures rows == if id in old(db).sessions && old(db).sessions[id].revoked.None? then 1 else 0
      ensures db == if rows == 0 then old(db)
                    else old(db).(sessions := old(db).sessions[id := old(db).sessions[id].(scopes := scopes)])
    {
      if id !in db.sessions || db.sessions[id].revoked.Some? {
        return 0;
      }
      db := db.(sessions := db.sessions[id := db.sessions[id].(scopes := scopes)]);
      rows := 1;
    }

    method ConsumeRefresh(id: Id, now: Time) returns (rows: nat)
      modifies this
      ensures rows == if id in old(db).refresh && old(db).refresh[id].consumed.None?
                         && old(db).refresh[id].revoked.None? && now < old(db).refresh[id].expires then 1 else 0
      ensures db == if rows == 0 then old(db)
                    else old(db).(refresh := old(db).refresh[id := old(db).refresh[id].(consumed := Some(now))])
    {
      if id !in db.refresh || db.refresh[id].consumed.Some? || db.refresh[id].revoked.Some? || db.refresh[id].expires <= now {
        return 0;
      }
      db := db.(refresh := db.refresh[id := db.refresh[id].(consumed := Some(now))]);
      rows := 1;
    }

    /** The three update statements that revoke a set of sessions. */
    method RevokeSessions(ids: set<Id>, now: Time)
      modifies this
      ensures db == Revoke(old(db), ids, now)
    {
      db := db.(sessions := map i | i in db.sessions :: if i in ids
                  then db.sessions[i].(revoked := SetRevoked(db.sessions[i].revoked, now)) else db.sessions[i]);
      db := db.(access := map a | a in db.access :: if db.access[a].session in ids
                  then db.access[a].(revoked := SetRevoked(db.access[a].revoked, now)) else db.access[a]);
      db := db.(refresh := map t | t in db.refresh :: if db.refresh[t].session in ids
                  then db.refresh[t].(revoked := SetRevoked(db.refresh[t].revoked, now)) else db.refresh[t]);
    }
  }

  class Server {
    var db: Store

    constructor (activeUsers: set<Id>)
      ensures db == Store(map[], map[], map[], map[], map[], activeUsers)
      ensures UniqueHashes(db)
    {
      db := Store(map[], map[], map[], map[], map[], activeUsers);
    }

    method CompleteAuthRequest(id: Id, user: Id, login: Id, authTime: Time, now: Time) returns (answer: Answer)
      modifies this
      ensures (db, answer) == Complete(old(db), id, user, login, authTime, now)
      ensures answer == Done <==> id in old(db).requests && !old(db).requests[id].done && now < old(db).requests[id].expires
      ensures answer == Done ==> id in db.requests && Ready(db.requests[id]) && db == old(db).(requests := old(db).requests[id := db.requests[id]])
      ensures answer == Done ==>
        var request := old(db).requests[id];
        db.requests[id] == RequestRow(request.client, request.scopes, Some(user), Some(login), Some(authTime), true, request.expires)
      ensures answer != Done ==> answer == Failed(NotFound)
      ensures answer != Done ==> db == old(db)
    {
      if !RequestLive(db, id, false, now) {
        return Failed(NotFound);
      }
      var row := db.requests[id].(subject := Some(user), login := Some(login), authTime := Some(authTime), done := true);
      db := db.(requests := db.requests[id := row]);
      answer := Done;
    }

    method SaveAuthCode(requestId: Id, id: Id, hash: string, now: Time) returns (answer: Answer)
      requires UniqueHashes(db)
      modifies this
      ensures (db, answer) == SaveCode(old(db), requestId, id, hash, now)
      ensures UniqueHashes(db)
      ensures answer == Done <==>
        && RequestLive(old(db), requestId, true, now) && old(db).requests[requestId].subject.Some?
        && id != "" && hash != "" && old(db).requests[requestId].client != "" && old(db).requests[requestId].subject.value != ""
        && id !in old(db).codes
        && (forall c | c in old(db).codes :: old(db).codes[c].hash != hash && old(db).codes[c].request != requestId)
      ensures answer == Done ==> id in db.codes && db == old(db).(codes := old(db).codes[id := db.codes[id]])
      ensures answer == Done ==>
        var request := old(db).requests[requestId];
        db.codes[id] == CodeRow(requestId, hash, None, request.client, request.subject.value, request.scopes, now + 300, None)
      ensures answer != Done ==> db == old(db)
      ensures answer == Failed(NotFound) <==> !RequestLive(old(db), requestId, true, now)
    {
      if !RequestLive(db, requestId, true, now) {
        return Failed(NotFound);
      }
      var request := db.requests[requestId];
      if request.subject.None? {
        return Failed(Internal);
      }
      var row := CodeRow(requestId, hash, None, request.client, request.subject.value, request.scopes, now + CODE_TTL, None);
      if !CodeInsertable(db, id, row) {
        return Failed(Internal);
      }
      db := db.(codes := db.codes[id := row]);
      answer := Done;
    }

    method AuthRequestByCode(hash: string, now: Time) returns (answer: Answer)
      requires UniqueHashes(db)
      ensures answer == LookupCode(db, hash, now)
      ensures answer.Found? <==> exists c | c in db.codes ::
        && db.codes[c].hash == hash && db.codes[c].consumed.None? && now < db.codes[c].expires && db.codes[c].request in db.requests
        && db.requests[db.codes[c].request].done && db.requests[db.codes[c].request].subject.Some?
        && db.requests[db.codes[c].request].authTime.Some?
      ensures answer.Found? ==>
        && answer.request.AuthorizationRequest? && answer.request.codeId in db.codes
        && db.codes[answer.request.codeId].hash == hash && db.codes[answer.request.codeId].request in db.requests
        && answer.request.entity == db.requests[db.codes[answer.request.codeId].request]
      ensures !answer.Found? ==> answer == Failed(NotFound)
    {
      if c :| c in db.codes && db.codes[c].hash == hash && db.codes[c].consumed.None? && now < db.codes[c].expires {
        assert IsLiveCode(db, c, hash, now);
        LookupCodeUnique(db, c, hash, now);
        assert forall d | d in db.codes :: db.codes[d].hash == hash && db.codes[d].consumed.None? && now < db.codes[d].expires ==> d == c;
        var requestId := db.codes[c].request;
        if requestId !in db.requests || !Ready(db.requests[requestId]) {
          return Failed(NotFound);
        }
        return Found(AuthorizationRequest(db.requests[requestId], c));
      }
      answer := Failed(NotFound);
    }

    /** The statements shared by both exchanges of an authorization code. */
    method OpenSession(tx: Tx, g: Grant, minted: NewIds, now: Time) returns (failure: Option<Failure>)
      modifies tx
      ensures failure.Some? ==> (failure.value ==
        if CodeConsumable(old(tx.db), g.codeId, now) && g.user in old(tx.db).activeUsers then Internal else InvalidGrant)
      ensures failure.None? <==> CodeConsumable(old(tx.db), g.codeId, now) && g.user in old(tx.db).activeUsers
                                 && SessionInsertable(old(tx.db), minted.session, NewSession(g, minted))
      ensures failure.None? ==> tx.db == old(tx.db).(
        codes := old(tx.db).codes[g.codeId := old(tx.db).codes[g.codeId].(session := Some(minted.session), consumed := Some(now))],
        sessions := old(tx.db).sessions[minted.session := NewSession(g, minted)])
    {
      var consumed := tx.ConsumeCode(g.codeId, minted.session, now);
      if consumed != 1 {
        return Some(InvalidGrant);
      }
      if g.user !in tx.db.activeUsers {
        return Some(InvalidGrant);
      }
      var ok := tx.InsertSession(minted.session, NewSession(g, minted));
      if !ok {
        return Some(Internal);
      }
      failure := None;
    }

    method CreateAccessToken(request: TokenRequest, minted: NewIds, now: Time) returns (answer: Answer)
      requires UniqueHashes(db)
      modifies this
      ensures (db, answer) == ExchangeAccessOnly(old(db), request, minted, now)
      ensures answer.Issued? && "" !in old(db).codes ==> answer == Issued(minted.access, now + 900) && Carries(db, request, minted, now)
      ensures UniqueHashes(db)
    {
      var grant := GrantFromRequest(request);
      if grant.None? {
        return Failed(Internal);
      }
      var g := grant.value;
      var tx := new Tx(db);
      var failure := OpenSession(tx, g, minted, now);
      if failure.Some? {
        return Failed(failure.value);
      }
      var ok := tx.InsertAccess(minted.access, NewAccess(g, minted.session, now));
      if !ok {
        return Failed(Internal);
      }
      db := tx.db;
      answer := Issued(minted.access, now + ACCESS_TTL);
    }

    /** The statements of a rotation up to the two inserts; replay means the session was revoked instead. */
    method ConsumeForRotation(tx: Tx, g: Grant, now: Time) returns (failure: Option<Failure>, replay: bool, family: Id)
      modifies tx
      ensures failure.Some? ==> !replay
      ensures replay <==> g.refreshId in old(tx.db).refresh && old(tx.db).refresh[g.refreshId].consumed.Some?
      ensures replay ==> tx.db == Revoke(old(tx.db), {g.sessionId}, now)
      ensures failure.Some? ==> (failure.value ==
        if g.refreshId !in old(tx.db).refresh then Internal
        else if old(tx.db).refresh[g.refreshId].revoked.Some? || old(tx.db).refresh[g.refreshId].expires <= now then InvalidGrant
        else if g.sessionId !in old(tx.db).sessions then Internal
        else InvalidGrant)
      ensures failure.None? && !replay <==>
        && g.refreshId in old(tx.db).refresh && old(tx.db).refresh[g.refreshId].consumed.None?
        && old(tx.db).refresh[g.refreshId].revoked.None? && now < old(tx.db).refresh[g.refreshId].expires
        && g.sessionId in old(tx.db).sessions && old(tx.db).sessions[g.sessionId].revoked.None?
        && g.user in old(tx.db).activeUsers
      ensures failure.None? && !replay ==>
        && family == old(tx.db).sessions[g.sessionId].family
        && tx.db == old(tx.db).(
             sessions := old(tx.db).sessions[g.sessionId := old(tx.db).sessions[g.sessionId].(scopes := g.scopes)],
             refresh := old(tx.db).refresh[g.refreshId := old(tx.db).refresh[g.refreshId].(consumed := Some(now))])
    {
      failure, replay, family := None, false, "";
      if g.refreshId !in tx.db.refresh {
        return Some(Internal), false, "";
      }
      var current := tx.db.refresh[g.refreshId];
      if current.consumed.Some? {
        tx.RevokeSessions({g.sessionId}, now);
        return None, true, "";
      }
      if current.revoked.Some? || current.expires <= now {
        return Some(InvalidGrant), false, "";
      }
      if g.sessionId !in tx.db.sessions {
        return Some(Internal), false, "";
      }
      family := tx.db.sessions[g.sessionId].family;
      if tx.db.sessions[g.sessionId].revoked.Some? {
        return Some(InvalidGrant), false, "";
      }
      if g.user !in tx.db.activeUsers {
        return Some(InvalidGrant), false, "";
      }
      var activeSessions := tx.UpdateSessionScopes(g.sessionId, g.scopes);
      if activeSessions != 1 {
        // Whole transactions: the row was read unrevoked above. TokenLocks has the races.
        assert false;
      }
      var consumed := tx.ConsumeRefresh(g.refreshId, now);
      if consumed != 1 {
        // Whole transactions: the row was read unconsumed above.
        assert false;
      }
    }

    method CreateAccessAndRefreshTokens(request: TokenRequest, minted: NewIds, now: Time) returns (answer: Answer)
      requires UniqueHashes(db)
      modifies this
      ensures (db, answer) == Exchange(old(db), request, minted, now)
      ensures answer.Issued? && "" !in old(db).codes ==> answer == Issued(minted.access, now + 900) && Carries(db, request, minted, now)
      ensures UniqueHashes(db)
    {
      var grant := GrantFromRequest(request);
      if grant.None? {
        return Failed(Internal);
      }
      var g := grant.value;
      var tx := new Tx(db);
      var tokenSessionId := g.sessionId;
      var refreshFamilyId := minted.family;
      var parent: Option<Id> := None;
      if tokenSessionId == "" {
        tokenSessionId := minted.session;
        var failure := OpenSession(tx, g, minted, now);
        if failure.Some? {
          return Failed(failure.value);
        }
      } else {
        var failure, replayDetected, family := ConsumeForRotation(tx, g, now);
        if failure.Some? {
          return Failed(failure.value);
        }
        if replayDetected {
          db := tx.db;
          return Failed(ReplayDetected);
        }
        refreshFamilyId := family;
        parent := Some(g.refreshId);
        ConsumeKeepsHashes(db, tx.db, g.refreshId, now, minted.refresh, minted.hash);
      }
      var ok := tx.InsertAccess(minted.access, NewAccess(g, tokenSessionId, now));
      if !ok {
        return Failed(Internal);
      }
      var child := RefreshRow(tokenSessionId, refreshFamilyId, minted.hash, parent, now, now + REFRESH_TTL, None, None);
      ok := tx.InsertRefresh(minted.refresh, child);
      if !ok {
        return Failed(Internal);
      }
      assert tx.db == if g.sessionId == "" then Open(db, g, true, minted, now) else Rotate(db, g, minted, now);
      db := tx.db;
      answer := Issued(minted.access, now + ACCESS_TTL);
    }

    method TokenRequestByRefreshToken(hash: string, now: Time) returns (answer: Answer)
      requires UniqueHashes(db)
      modifies this
      ensures (db, answer) == LookupRefresh(old(db), hash, now)
      ensures UniqueHashes(db)
    {
      if t :| t in db.refresh && db.refresh[t].hash == hash {
        assert IsRefresh(db, t, hash);
        LookupRefreshUnique(db, t, hash);
        var token := db.refresh[t];
        var tx := new Tx(db);
        if token.session !in tx.db.sessions {
          return Failed(Internal);
        }
        var session := tx.db.sessions[token.session];
        if token.consumed.Some? {
          tx.RevokeSessions({token.session}, now);
          db := tx.db;
          return Failed(NotFound);
        }
        if token.revoked.Some? || token.expires <= now || session.revoked.Some? {
          return Failed(NotFound);
        }
        if session.user !in tx.db.activeUsers {
          return Failed(NotFound);
        }
        return Found(RefreshRequest(t, token.session, session.client, session.user, session.scopes, session.authTime));
      }
      answer := Failed(NotFound);
    }

    /** Revokes the active sessions of one user and client one by one. */
    method TerminateSession(user: Id, client: Id, now: Time)
      modifies this
      ensures db == Revoke(old(db), SessionsOfClient(old(db), user, client), now)
    {
      var tx := new Tx(db);
      var sessions := SessionsOfClient(tx.db, user, client);
      var rest := sessions;
      assert tx.db == Revoke(db, {}, now);
      while rest != {}
        invariant db == old(db) && rest <= sessions
        invariant tx.db == Revoke(db, sessions - rest, now)
        decreases rest
      {
        var sessionId :| sessionId in rest;
        RevokeTwice(db, sessions - rest, {sessionId}, now);
        tx.RevokeSessions({sessionId}, now);
        assert (sessions - rest) + {sessionId} == sessions - (rest - {sessionId});
        rest := rest - {sessionId};
      }
      assert sessions - rest == sessions;
      db := tx.db;
    }

    method RevokeTokenById(tokenId: Id, user: Id, client: Id, now: Time)
      modifies this
      ensures db == RevokeToken(old(db), tokenId, user, client, now)
    {
      var session := SessionOfToken(db, tokenId, user, client);
      if session.None? {
        return;
      }
      var tx := new Tx(db);
      tx.RevokeSessions({session.value}, now);
      db := tx.db;
    }

    /** The repository behind logout and user disabling: one transaction over a set of sessions. */
    method RevokeForLoginSession(login: Id, now: Time)
      modifies this
      ensures db == Revoke(old(db), SessionsOfLogin(old(db), login), now)
    {
      RevokeMatching(SessionsOfLogin(db, login), now);
    }

    method RevokeAllForUser(user: Id, now: Time)
      modifies this
      ensures db == Revoke(old(db), SessionsOfUser(old(db), user), now)
    {
      RevokeMatching(SessionsOfUser(db, user), now);
    }

    /** Three updates of the rows whose session is among the ids and that are unrevoked. */
    method RevokeMatching(ids: set<Id>, now: Time)
      modifies this
      ensures db == Revoke(old(db), ids, now)
    {
      if ids == {} {
        assert db == Revoke(db, {}, now);
        return;
      }
      var tx := new Tx(db);
      tx.db := tx.db.(sessions := map i | i in tx.db.sessions ::
        if i in ids && tx.db.sessions[i].revoked.None? then tx.db.sessions[i].(revoked := Some(now)) else tx.db.sessions[i]);
      tx.db := tx.db.(access := map a | a in tx.db.access ::
        if tx.db.access[a].session in ids && tx.db.access[a].revoked.None? then tx.db.access[a].(revoked := Some(now)) else tx.db.access[a]);
      tx.db := tx.db.(refresh := map t | t in tx.db.refresh ::
        if tx.db.refresh[t].session in ids && tx.db.refresh[t].revoked.None? then tx.db.refresh[t].(revoked := Some(now)) else tx.db.refresh[t]);
      ghost var revoked := Revoke(db, ids, now);
      assert tx.db.sessions == revoked.sessions && tx.db.access == revoked.access && tx.db.refresh == revoked.refresh;
      db := tx.db;
    }
  }

  /** A saved code is found by its hash, with the request it was saved for, for exactly as long as it lives. */
  lemma SavedCodeIsFound(st: Store, requestId: Id, id: Id, hash: string, now: Time, later: Time)
    requires UniqueHashes(st) && SaveCode(st, requestId, id, hash, now).1 == Done && Ready(st.requests[requestId])
    ensures var saved := SaveCode(st, requestId, id, hash, now).0;
      LookupCode(saved, hash, later) ==
        if later < now + CODE_TTL then Found(AuthorizationRequest(st.requests[requestId], id)) else Failed(NotFound)
  {
    var saved := SaveCode(st, requestId, id, hash, now).0;
    assert saved.codes[id].expires == now + CODE_TTL && saved.requests == st.requests && saved.codes[id].request == requestId;
    forall d
      ensures IsLiveCode(saved, d, hash, later) <==> d == id && later < now + CODE_TTL
    {
      assert d in saved.codes && d != id ==> d in st.codes && saved.codes[d] == st.codes[d];
    }
    hide SaveCode, IsLiveCode;
    if later < now + CODE_TTL {
      assert IsLiveCode(saved, id, hash, later);
      assert exists c :: IsLiveCode(saved, c, hash, later);
    } else {
      assert !exists c :: IsLiveCode(saved, c, hash, later);
    }
  }

  /** Revoking two sets at one time is revoking their union, so the loop order does not matter. */
  lemma RevokeTwice(st: Store, a: set<Id>, b: set<Id>, now: Time)
    ensures Revoke(Revoke(st, a, now), b, now) == Revoke(st, a + b, now)
  {
  }
}
