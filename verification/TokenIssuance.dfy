/**
  What a client gets for what it holds: when an exchange issues tokens, what the new rows carry, and that a
  new token works for exactly as long as it should.
*/
module TokenIssuance {
  import opened Options
  import opened TokenStore

  function SubjectOf(h: TokenRequest): Id {
    match h
    case AuthorizationRequest(entity, _) => if entity.subject.Some? then entity.subject.value else ""
    case RefreshRequest(_, _, _, subject, _, _) => subject
  }

  function ClientOf(h: TokenRequest): Id {
    if h.AuthorizationRequest? then h.entity.client else h.client
  }

  function ScopesOf(h: TokenRequest): seq<string> {
    if h.AuthorizationRequest? then h.entity.scopes else h.scopes
  }

  function AuthTimeOf(h: TokenRequest): Time {
    if h.RefreshRequest? then h.authTime else if h.entity.authTime.Some? then h.entity.authTime.value else 0
  }

  /** The session that the tokens of an exchange belong to. */
  function SessionFor(h: TokenRequest, minted: NewIds): Id {
    if h.AuthorizationRequest? then minted.session else h.sessionId
  }

  /** The generated keys are new. */
  predicate NewKeys(st: Store, both: bool, minted: NewIds) {
    && minted.access != "" && minted.access !in st.access
    && (both ==> minted.refresh != "" && minted.hash != "" && minted.refresh !in st.refresh
                 && forall t | t in st.refresh :: st.refresh[t].hash != minted.hash)
  }

  predicate NewSessionKeys(st: Store, minted: NewIds) {
    && minted.session != "" && minted.family != "" && minted.session !in st.sessions
    && forall i | i in st.sessions :: st.sessions[i].family != minted.family
  }

  predicate CompleteRequest(entity: RequestRow) {
    && entity.done && entity.subject.Some? && entity.authTime.Some? && entity.login.Some?
    && entity.subject.value != "" && entity.client != "" && entity.login.value != ""
  }

  /** A code is exchanged when it is unconsumed and unexpired, its request complete and its user active. */
  lemma CodeIssuesExactlyWhen(st: Store, entity: RequestRow, c: Id, both: bool, minted: NewIds, now: Time)
    ensures Issue(st, AuthorizationRequest(entity, c), both, minted, now).1.Issued? <==>
      && c != "" && c in st.codes && st.codes[c].consumed.None? && now < st.codes[c].expires
      && CompleteRequest(entity) && entity.subject.value in st.activeUsers
      && NewSessionKeys(st, minted) && NewKeys(st, both, minted)
  {
  }

  /** The tables after the exchange of a code: one code consumed, one session, one access token and, if asked, one refresh token. */
  lemma CodeIssues(st: Store, entity: RequestRow, c: Id, both: bool, minted: NewIds, now: Time)
    requires Issue(st, AuthorizationRequest(entity, c), both, minted, now).1.Issued?
    ensures c in st.codes && CompleteRequest(entity)
    ensures var user, client, scopes := entity.subject.value, entity.client, entity.scopes;
      Issue(st, AuthorizationRequest(entity, c), both, minted, now) == (Store(
        st.requests,
        st.codes[c := st.codes[c].(session := Some(minted.session), consumed := Some(now))],
        st.sessions[minted.session :=
          SessionRow(user, client, entity.login.value, minted.family, scopes, entity.authTime.value, None)],
        st.access[minted.access := AccessRow(minted.session, user, client, scopes, now, now + 900, None)],
        if both then st.refresh[minted.refresh :=
          RefreshRow(minted.session, minted.family, minted.hash, None, now, now + 604800, None, None)] else st.refresh,
        st.activeUsers), Issued(minted.access, now + 900))
  {
  }

  /** A refresh token is exchanged when it is unconsumed, unrevoked and unexpired, in an unrevoked session of an active user. */
  lemma RefreshIssuesExactlyWhen(st: Store, h: TokenRequest, minted: NewIds, now: Time)
    requires h.RefreshRequest? && h.sessionId != ""
    ensures Issue(st, h, true, minted, now).1.Issued? <==>
      && h.tokenId in st.refresh && st.refresh[h.tokenId].consumed.None? && st.refresh[h.tokenId].revoked.None?
      && now < st.refresh[h.tokenId].expires
      && h.sessionId in st.sessions && st.sessions[h.sessionId].revoked.None? && h.subject in st.activeUsers
      && NewKeys(st, true, minted)
  {
  }

  /** The tables after a rotation: the token consumed, its child and an access token added, the session's scopes replaced. */
  lemma RefreshIssues(st: Store, h: TokenRequest, minted: NewIds, now: Time)
    requires h.RefreshRequest? && h.sessionId != "" && Issue(st, h, true, minted, now).1.Issued?
    ensures h.tokenId in st.refresh && h.sessionId in st.sessions
    ensures Issue(st, h, true, minted, now) == (st.(
        sessions := st.sessions[h.sessionId := st.sessions[h.sessionId].(scopes := h.scopes)],
        access := st.access[minted.access := AccessRow(h.sessionId, h.subject, h.client, h.scopes, now, now + 900, None)],
        refresh := st.refresh[h.tokenId := st.refresh[h.tokenId].(consumed := Some(now))][minted.refresh :=
          RefreshRow(h.sessionId, st.sessions[h.sessionId].family, minted.hash, Some(h.tokenId), now, now + 604800, None, None)]),
      Issued(minted.access, now + 900))
  {
  }

  /** In terms of the request alone: what the new access token and its session carry. */
  ghost predicate Carries(st: Store, h: TokenRequest, minted: NewIds, now: Time) {
    && minted.access in st.access && SessionFor(h, minted) in st.sessions
    && st.access[minted.access] ==
         AccessRow(SessionFor(h, minted), SubjectOf(h), ClientOf(h), ScopesOf(h), now, now + 900, None)
    && st.sessions[SessionFor(h, minted)].scopes == ScopesOf(h)
    && (h.AuthorizationRequest? ==> st.sessions[SessionFor(h, minted)].authTime == AuthTimeOf(h))
  }

  /** Without a code in it a refresh request opens no session. */
  lemma IssuedCarriesRequest(st: Store, h: TokenRequest, both: bool, minted: NewIds, now: Time)
    requires "" !in st.codes && Issue(st, h, both, minted, now).1.Issued?
    ensures Issue(st, h, both, minted, now).1 == Issued(minted.access, now + 900)
    ensures Carries(Issue(st, h, both, minted, now).0, h, minted, now)
  {
    if h.AuthorizationRequest? {
      CodeIssues(st, h.entity, h.codeId, both, minted, now);
    } else {
      assert both && h.sessionId != "";
      RefreshIssues(st, h, minted, now);
    }
    hide Issue;
  }

  /** The issued access token is accepted for its subject, and for nobody else, for exactly 15 minutes. */
  lemma IssuedIsAccepted(st: Store, h: TokenRequest, both: bool, minted: NewIds, now: Time, subject: Id, later: Time)
    requires "" !in st.codes && Issue(st, h, both, minted, now).1.Issued?
    ensures Accepted(Issue(st, h, both, minted, now).0, minted.access, subject, later) <==>
      subject == SubjectOf(h) && later < now + 900
  {
    if h.AuthorizationRequest? {
      CodeIssues(st, h.entity, h.codeId, both, minted, now);
    } else {
      assert both && h.sessionId != "";
      RefreshIssues(st, h, minted, now);
      RefreshIssuesExactlyWhen(st, h, minted, now);
    }
    hide Issue;
  }

  /** An access token of a session that is revoked or gone is refused, whatever its own row says. */
  lemma RevokedSessionRefuses(st: Store, a: Id, subject: Id, now: Time)
    requires a in st.access
    requires st.access[a].session !in st.sessions || st.sessions[st.access[a].session].revoked.Some? || st.access[a].revoked.Some?
    ensures !Accepted(st, a, subject, now)
  {
  }

  /**
    The new refresh token leads back to a request with the same client, subject, scopes and time of
    authentication, for exactly 7 days.
   */
  lemma IssuedIsFound(st: Store, h: TokenRequest, minted: NewIds, now: Time, later: Time)
    requires "" !in st.codes && Issue(st, h, true, minted, now).1.Issued?
    requires h.RefreshRequest? && h.sessionId in st.sessions ==> Names(st, h)
    ensures LookupRefresh(Issue(st, h, true, minted, now).0, minted.hash, later) == (Issue(st, h, true, minted, now).0,
      if later < now + 604800
      then Found(RefreshRequest(minted.refresh, SessionFor(h, minted), ClientOf(h), SubjectOf(h), ScopesOf(h), AuthTimeOf(h)))
      else Failed(NotFound))
  {
    var st' := Issue(st, h, true, minted, now).0;
    if h.AuthorizationRequest? {
      CodeIssuesExactlyWhen(st, h.entity, h.codeId, true, minted, now);
      CodeIssues(st, h.entity, h.codeId, true, minted, now);
    } else {
      RefreshIssuesExactlyWhen(st, h, minted, now);
      RefreshIssues(st, h, minted, now);
    }
    hide Issue;
    assert IsRefresh(st', minted.refresh, minted.hash);
    assert forall t | IsRefresh(st', t, minted.hash) :: t == minted.refresh;
    hide IsRefresh;
    assert LookupRefresh(st', minted.hash, later) == LookupRefreshRow(st', minted.refresh, later);
  }

  /** The request names its session's owner, client and time of authentication. */
  predicate Names(st: Store, h: TokenRequest)
    requires h.RefreshRequest? && h.sessionId in st.sessions
  {
    var row := st.sessions[h.sessionId];
    row.user == h.subject && row.client == h.client && row.authTime == h.authTime
  }

  /** A refresh token leads back to its session's request exactly while it is unconsumed, unrevoked and unexpired and its user active. */
  lemma RefreshFoundExactlyWhen(st: Store, hash: string, now: Time, t: Id)
    requires UniqueHashes(st) && t in st.refresh && st.refresh[t].hash == hash
    ensures var i := st.refresh[t].session;
      LookupRefresh(st, hash, now).1.Found? <==>
        && st.refresh[t].consumed.None? && st.refresh[t].revoked.None? && now < st.refresh[t].expires
        && i in st.sessions && st.sessions[i].revoked.None? && st.sessions[i].user in st.activeUsers
    ensures var i := st.refresh[t].session;
      LookupRefresh(st, hash, now).1.Found? ==>
        LookupRefresh(st, hash, now) == (st, Found(
          RefreshRequest(t, i, st.sessions[i].client, st.sessions[i].user, st.sessions[i].scopes, st.sessions[i].authTime)))
  {
    assert IsRefresh(st, t, hash);
    assert forall u | IsRefresh(st, u, hash) :: u == t;
    hide IsRefresh;
    assert LookupRefresh(st, hash, now) == LookupRefreshRow(st, t, now);
  }

  // What a revocation reaches.

  /** The sessions in ids and their tokens are revoked, keeping an earlier time, and nothing else changes. */
  ghost predicate RevokedJust(st: Store, st': Store, ids: set<Id>, now: Time) {
    && st' == st.(sessions := st'.sessions, access := st'.access, refresh := st'.refresh)
    && st'.sessions.Keys == st.sessions.Keys && st'.access.Keys == st.access.Keys && st'.refresh.Keys == st.refresh.Keys
    && (forall i | i in st.sessions :: st'.sessions[i] ==
          if i in ids && st.sessions[i].revoked.None? then st.sessions[i].(revoked := Some(now)) else st.sessions[i])
    && (forall a | a in st.access :: st'.access[a] ==
          if st.access[a].session in ids && st.access[a].revoked.None? then st.access[a].(revoked := Some(now)) else st.access[a])
    && (forall t | t in st.refresh :: st'.refresh[t] ==
          if st.refresh[t].session in ids && st.refresh[t].revoked.None? then st.refresh[t].(revoked := Some(now)) else st.refresh[t])
  }

  lemma RevokeJust(st: Store, ids: set<Id>, now: Time)
    ensures RevokedJust(st, Revoke(st, ids, now), ids, now)
  {
  }

  /** A token of another user or client revokes nothing; an own one revokes its session. */
  lemma RevokeTokenReaches(st: Store, tokenId: Id, user: Id, client: Id, now: Time)
    ensures var st' := RevokeToken(st, tokenId, user, client, now);
      if tokenId in st.access && st.access[tokenId].subject == user && st.access[tokenId].client == client
        then RevokedJust(st, st', {st.access[tokenId].session}, now)
      else if tokenId in st.refresh && st.refresh[tokenId].session in st.sessions
           && st.sessions[st.refresh[tokenId].session].user == user && st.sessions[st.refresh[tokenId].session].client == client
        then RevokedJust(st, st', {st.refresh[tokenId].session}, now)
      else st' == st
  {
    forall i
      ensures RevokedJust(st, Revoke(st, {i}, now), {i}, now)
    {
      RevokeJust(st, {i}, now);
    }
    hide Revoke, RevokedJust;
  }

  /** Revoking for a user, a login session or a user's client reaches the sessions of that one and no other. */
  lemma RevocationsReach(st: Store, user: Id, client: Id, login: Id, now: Time, i: Id)
    requires i in st.sessions
    ensures var row, revoked := st.sessions[i], st.sessions[i].(revoked := Some(now));
      && Revoke(st, SessionsOfUser(st, user), now).sessions[i] ==
           (if user != "" && row.user == user && row.revoked.None? then revoked else row)
      && Revoke(st, SessionsOfLogin(st, login), now).sessions[i] ==
           (if login != "" && row.login == login && row.revoked.None? then revoked else row)
      && Revoke(st, SessionsOfClient(st, user, client), now).sessions[i] ==
           (if row.user == user && row.client == client && row.revoked.None? then revoked else row)
  {
  }
}
