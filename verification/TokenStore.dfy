/**
  The OAuth tables of the IAM service and what one committed transaction does to them.

  Every function below maps the tables before a transaction to the tables after it, with the answer
  given to the caller. A transaction that fails leaves the tables as they were. Secrets are never
  stored, only their hashes, so a presented secret is identified with its hash.
*/
module TokenStore {
  import opened Options

  type Id = string
  type Time = int

  // Durations in seconds.
  const MINUTE := 60
  const DAY := 24 * 60 * MINUTE
  const REQUEST_TTL := 10 * MINUTE
  const CODE_TTL := 5 * MINUTE
  const ACCESS_TTL := 15 * MINUTE
  const REFRESH_TTL := 7 * DAY

  datatype RequestRow = RequestRow(
    client: Id, scopes: seq<string>, subject: Option<Id>, login: Option<Id>,
    authTime: Option<Time>, done: bool, expires: Time)

  datatype CodeRow = CodeRow(
    request: Id, hash: string, session: Option<Id>, client: Id, subject: Id,
    scopes: seq<string>, expires: Time, consumed: Option<Time>)

  datatype SessionRow = SessionRow(
    user: Id, client: Id, login: Id, family: Id, scopes: seq<string>, authTime: Time,
    revoked: Option<Time>)

  datatype AccessRow = AccessRow(
    session: Id, subject: Id, client: Id, scopes: seq<string>, issued: Time, expires: Time,
    revoked: Option<Time>)

  datatype RefreshRow = RefreshRow(
    session: Id, family: Id, hash: string, parent: Option<Id>, issued: Time, expires: Time,
    consumed: Option<Time>, revoked: Option<Time>)

  datatype Store = Store(
    requests: map<Id, RequestRow>,
    codes: map<Id, CodeRow>,
    sessions: map<Id, SessionRow>,
    access: map<Id, AccessRow>,
    refresh: map<Id, RefreshRow>,
    activeUsers: set<Id>)

  /** What a client holds between the lookup transaction and the exchange transaction. */
  datatype TokenRequest =
    | AuthorizationRequest(entity: RequestRow, codeId: Id)
    | RefreshRequest(tokenId: Id, sessionId: Id, client: Id, subject: Id, scopes: seq<string>, authTime: Time)

  datatype Grant = Grant(
    codeId: Id, refreshId: Id, sessionId: Id, user: Id, client: Id, login: Option<Id>,
    scopes: seq<string>, authTime: Time)

  /** The identifiers an exchange generates, and the hash of its new refresh secret. */
  datatype NewIds = NewIds(access: Id, refresh: Id, session: Id, family: Id, hash: string)

  datatype Failure = NotFound | InvalidGrant | ReplayDetected | Internal

  datatype Answer =
    | Done
    | Found(request: TokenRequest)
    | Issued(access: Id, expires: Time)
    | Failed(failure: Failure)

  predicate Ready(entity: RequestRow) {
    entity.done && entity.subject.Some? && entity.authTime.Some?
  }

  function GrantFromRequest(request: TokenRequest): Option<Grant> {
    match request
    case AuthorizationRequest(entity, codeId) =>
      if codeId == "" || !Ready(entity) || entity.login.None? then None
      else Some(Grant(codeId, "", "", entity.subject.value, entity.client, entity.login,
                      entity.scopes, entity.authTime.value))
    case RefreshRequest(tokenId, sessionId, client, subject, scopes, authTime) =>
      Some(Grant("", tokenId, sessionId, subject, client, None, scopes, authTime))
  }

  /** The indexes that make a secret hash name at most one row. */
  ghost predicate UniqueHashes(st: Store) {
    && (forall c, d | c in st.codes && d in st.codes && st.codes[c].hash == st.codes[d].hash :: c == d)
    && (forall t, u | t in st.refresh && u in st.refresh && st.refresh[t].hash == st.refresh[u].hash :: t == u)
  }

  // Authorization requests and codes.

  predicate RequestLive(st: Store, id: Id, done: bool, now: Time) {
    id in st.requests && st.requests[id].done == done && now < st.requests[id].expires
  }

  function Complete(st: Store, id: Id, user: Id, login: Id, authTime: Time, now: Time): (Store, Answer) {
    if !RequestLive(st, id, false, now) then (st, Failed(NotFound)) else
    var row := st.requests[id].(subject := Some(user), login := Some(login), authTime := Some(authTime), done := true);
    (st.(requests := st.requests[id := row]), Done)
  }

  /** A new code row must respect the primary key, both unique indexes and the non-empty columns. */
  predicate CodeInsertable(st: Store, id: Id, row: CodeRow) {
    && id != "" && id !in st.codes
    && row.hash != "" && row.client != "" && row.subject != ""
    && forall c | c in st.codes :: st.codes[c].hash != row.hash && st.codes[c].request != row.request
  }

  function SaveCode(st: Store, requestId: Id, id: Id, hash: string, now: Time): (Store, Answer) {
    if !RequestLive(st, requestId, true, now) then (st, Failed(NotFound)) else
    var request := st.requests[requestId];
    // The source dereferences the subject: every completed request has one.
    if request.subject.None? then (st, Failed(Internal)) else
    var row := CodeRow(requestId, hash, None, request.client, request.subject.value, request.scopes, now + CODE_TTL, None);
    if !CodeInsertable(st, id, row) then (st, Failed(Internal)) else
    (st.(codes := st.codes[id := row]), Done)
  }

  ghost predicate IsLiveCode(st: Store, c: Id, hash: string, now: Time) {
    c in st.codes && st.codes[c].hash == hash && st.codes[c].consumed.None? && now < st.codes[c].expires
  }

  ghost function LookupCode(st: Store, hash: string, now: Time): Answer {
    if !exists c :: IsLiveCode(st, c, hash, now) then Failed(NotFound) else
    var c :| IsLiveCode(st, c, hash, now);
    if st.codes[c].request !in st.requests then Failed(NotFound) else
    var entity := st.requests[st.codes[c].request];
    if !Ready(entity) then Failed(NotFound) else Found(AuthorizationRequest(entity, c))
  }

  predicate CodeConsumable(st: Store, id: Id, now: Time) {
    id in st.codes && st.codes[id].consumed.None? && now < st.codes[id].expires
  }

  // Sessions and tokens.

  function SetRevoked(column: Option<Time>, now: Time): Option<Time> {
    if column.None? then Some(now) else column
  }

  /** Revokes the sessions in ids with every access and refresh token of theirs. */
  function Revoke(st: Store, ids: set<Id>, now: Time): Store {
    st.(sessions := map i | i in st.sessions :: if i in ids
                      then st.sessions[i].(revoked := SetRevoked(st.sessions[i].revoked, now)) else st.sessions[i],
        access := map a | a in st.access :: if st.access[a].session in ids
                    then st.access[a].(revoked := SetRevoked(st.access[a].revoked, now)) else st.access[a],
        refresh := map t | t in st.refresh :: if st.refresh[t].session in ids
                     then st.refresh[t].(revoked := SetRevoked(st.refresh[t].revoked, now)) else st.refresh[t])
  }

  predicate SessionInsertable(st: Store, id: Id, row: SessionRow) {
    && id != "" && id !in st.sessions
    && row.user != "" && row.client != "" && row.login != "" && row.family != ""
    && forall i | i in st.sessions :: st.sessions[i].family != row.family
  }

  predicate RefreshInsertable(st: Store, id: Id, hash: string) {
    id != "" && hash != "" && id !in st.refresh && forall t | t in st.refresh :: st.refresh[t].hash != hash
  }

  predicate AccessInsertable(st: Store, id: Id) {
    id != "" && id !in st.access
  }

  function NewSession(g: Grant, minted: NewIds): SessionRow {
    SessionRow(g.user, g.client, if g.login.Some? then g.login.value else "", minted.family, g.scopes, g.authTime, None)
  }

  function NewAccess(g: Grant, session: Id, now: Time): AccessRow {
    AccessRow(session, g.user, g.client, g.scopes, now, now + ACCESS_TTL, None)
  }

  /** A session opened by an authorization code, with its first access token and, if asked, its root refresh token. */
  function Open(st: Store, g: Grant, withRefresh: bool, minted: NewIds, now: Time): Store
    requires g.codeId in st.codes
  {
    st.(codes := st.codes[g.codeId := st.codes[g.codeId].(session := Some(minted.session), consumed := Some(now))],
        sessions := st.sessions[minted.session := NewSession(g, minted)],
        access := st.access[minted.access := NewAccess(g, minted.session, now)],
        refresh := if withRefresh
          then st.refresh[minted.refresh := RefreshRow(minted.session, minted.family, minted.hash, None, now, now + REFRESH_TTL, None, None)]
          else st.refresh)
  }

  function ExchangeCode(st: Store, g: Grant, withRefresh: bool, minted: NewIds, now: Time): (Store, Answer) {
    if !CodeConsumable(st, g.codeId, now) || g.user !in st.activeUsers then (st, Failed(InvalidGrant))
    else if !SessionInsertable(st, minted.session, NewSession(g, minted))
         || !AccessInsertable(st, minted.access)
         || (withRefresh && !RefreshInsertable(st, minted.refresh, minted.hash)) then (st, Failed(Internal))
    else (Open(st, g, withRefresh, minted, now), Issued(minted.access, now + ACCESS_TTL))
  }

  /** One rotation: the presented token is consumed and its only child is added. */
  function Rotate(st: Store, g: Grant, minted: NewIds, now: Time): Store
    requires g.refreshId in st.refresh && g.sessionId in st.sessions
  {
    var session := st.sessions[g.sessionId].(scopes := g.scopes);
    var child := RefreshRow(g.sessionId, session.family, minted.hash, Some(g.refreshId), now, now + REFRESH_TTL, None, None);
    st.(sessions := st.sessions[g.sessionId := session],
        access := st.access[minted.access := NewAccess(g, g.sessionId, now)],
        refresh := st.refresh[g.refreshId := st.refresh[g.refreshId].(consumed := Some(now))][minted.refresh := child])
  }

  function ExchangeRefresh(st: Store, g: Grant, minted: NewIds, now: Time): (Store, Answer) {
    if g.refreshId !in st.refresh then (st, Failed(Internal)) else
    var token := st.refresh[g.refreshId];
    if token.consumed.Some? then (Revoke(st, {g.sessionId}, now), Failed(ReplayDetected))
    else if token.revoked.Some? || token.expires <= now then (st, Failed(InvalidGrant))
    else if g.sessionId !in st.sessions then (st, Failed(Internal))
    else if st.sessions[g.sessionId].revoked.Some? || g.user !in st.activeUsers then (st, Failed(InvalidGrant))
    else if !AccessInsertable(st, minted.access) || !RefreshInsertable(st, minted.refresh, minted.hash) then (st, Failed(Internal))
    else (Rotate(st, g, minted, now), Issued(minted.access, now + ACCESS_TTL))
  }

  /** The exchange of a held request for an access token and a refresh token. */
  function Exchange(st: Store, request: TokenRequest, minted: NewIds, now: Time): (Store, Answer) {
    match GrantFromRequest(request)
    case None => (st, Failed(Internal))
    case Some(g) => if g.sessionId == "" then ExchangeCode(st, g, true, minted, now) else ExchangeRefresh(st, g, minted, now)
  }

  /** The exchange of a held request for an access token alone. */
  function ExchangeAccessOnly(st: Store, request: TokenRequest, minted: NewIds, now: Time): (Store, Answer) {
    match GrantFromRequest(request)
    case None => (st, Failed(Internal))
    case Some(g) => ExchangeCode(st, g, false, minted, now)
  }

  /** Either exchange of a held request. */
  function Issue(st: Store, h: TokenRequest, both: bool, minted: NewIds, now: Time): (Store, Answer) {
    if both then Exchange(st, h, minted, now) else ExchangeAccessOnly(st, h, minted, now)
  }

  ghost predicate IsRefresh(st: Store, t: Id, hash: string) {
    t in st.refresh && st.refresh[t].hash == hash
  }

  ghost function LookupRefresh(st: Store, hash: string, now: Time): (Store, Answer) {
    if !exists t :: IsRefresh(st, t, hash) then (st, Failed(NotFound)) else
    var t :| IsRefresh(st, t, hash);
    LookupRefreshRow(st, t, now)
  }

  function LookupRefreshRow(st: Store, t: Id, now: Time): (Store, Answer)
    requires t in st.refresh
  {
    var token := st.refresh[t];
    if token.session !in st.sessions then (st, Failed(Internal)) else
    var session := st.sessions[token.session];
    if token.consumed.Some? then (Revoke(st, {token.session}, now), Failed(NotFound))
    else if token.revoked.Some? || token.expires <= now || session.revoked.Some? || session.user !in st.activeUsers
      then (st, Failed(NotFound))
    else (st, Found(RefreshRequest(t, token.session, session.client, session.user, session.scopes, session.authTime)))
  }

  /** The session that the revocation endpoint finds for a token of the given user and client. */
  function SessionOfToken(st: Store, tokenId: Id, user: Id, client: Id): Option<Id> {
    if tokenId in st.access && st.access[tokenId].subject == user && st.access[tokenId].client == client
      then Some(st.access[tokenId].session)
    else if tokenId !in st.refresh || st.refresh[tokenId].session !in st.sessions then None
    else
      var session := st.sessions[st.refresh[tokenId].session];
      if session.user == user && session.client == client then Some(st.refresh[tokenId].session) else None
  }

  function RevokeToken(st: Store, tokenId: Id, user: Id, client: Id, now: Time): Store {
    match SessionOfToken(st, tokenId, user, client)
    case None => st
    case Some(i) => Revoke(st, {i}, now)
  }

  function SessionsOfClient(st: Store, user: Id, client: Id): set<Id> {
    set i | i in st.sessions && st.sessions[i].user == user && st.sessions[i].client == client && st.sessions[i].revoked.None?
  }

  function SessionsOfLogin(st: Store, login: Id): set<Id> {
    if login == "" then {} else set i | i in st.sessions && st.sessions[i].login == login
  }

  function SessionsOfUser(st: Store, user: Id): set<Id> {
    if user == "" then {} else set i | i in st.sessions && st.sessions[i].user == user
  }

  /** What the resource endpoints accept: an unexpired, unrevoked access token of an unrevoked session. */
  predicate Accepted(st: Store, tokenId: Id, subject: Id, now: Time) {
    && tokenId in st.access
    && var token := st.access[tokenId];
       token.subject == subject && now < token.expires && token.revoked.None?
       && token.session in st.sessions && st.sessions[token.session].revoked.None?
  }
}
