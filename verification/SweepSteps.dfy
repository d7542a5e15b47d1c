/**
  Code exchanges, and sweeps that revoke all sessions of a user or of a login session, at the level of
  single statements. Statements of different transactions interleave: each reads what is committed at that
  moment together with its own writes, and waits while another open transaction has written the same row or
  inserted the same key. The single-session transactions of TokenLocks, whole by TokenRaces, write in one step.
*/
module SweepSteps {
  import opened Options
  import opened TokenStore
  import opened TokenInvariant
  import TokenLocks

  datatype Target = OfUser(user: Id) | OfLogin(login: Id)

  datatype Work =
    | Opening(g: Grant, withRefresh: bool, minted: NewIds)
    | Sweep(target: Target)
    | Rotation(g: Grant, minted: NewIds)

  /** The next statement of a transaction. */
  datatype Stage =
    | ConsumeCode | CheckUser | InsertSession | InsertAccess | InsertRefresh
    | SelectSessions | UpdateSessions | UpdateAccess | UpdateRefresh
    | Commit

  /** Uncommitted rows, updated or inserted. */
  datatype Writes = Writes(
    codes: map<Id, CodeRow>, sessions: map<Id, SessionRow>, access: map<Id, AccessRow>, refresh: map<Id, RefreshRow>)

  /** ids: the sessions that a sweep has selected. */
  datatype Tx = Tx(work: Work, now: Time, stage: Stage, ids: set<Id>, ws: Writes)

  datatype State = State(st: Store, txs: map<nat, Tx>)

  datatype Event =
    | Begin(n: nat, work: Work, now: Time)
    | Go(n: nat)
    | Abort(n: nat)
    | RevokeOne(session: Id, now: Time)
    | SaveRequestCode(requestId: Id, id: Id, hash: string, now: Time)
    | SetActive(user: Id, active: bool)

  const NO_WRITES := Writes(map[], map[], map[], map[])

  function Overlay(st: Store, ws: Writes): Store {
    st.(codes := st.codes + ws.codes, sessions := st.sessions + ws.sessions,
        access := st.access + ws.access, refresh := st.refresh + ws.refresh)
  }

  /** Two open transactions have written no row and inserted no key in common. */
  ghost predicate Apart(a: Tx, b: Tx) {
    && a.ws.codes.Keys !! b.ws.codes.Keys && a.ws.sessions.Keys !! b.ws.sessions.Keys
    && (a.work.Opening? && b.work.Opening? ==>
          && (a.ws.sessions != map[] && b.ws.sessions != map[] ==> a.work.minted.family != b.work.minted.family)
          && a.ws.access.Keys !! b.ws.access.Keys && a.ws.refresh.Keys !! b.ws.refresh.Keys
          && (a.ws.refresh != map[] && b.ws.refresh != map[] ==> a.work.minted.hash != b.work.minted.hash))
  }

  ghost predicate Free(s: State, n: nat, tx: Tx) {
    forall m | m in s.txs && m != n :: Apart(tx, s.txs[m])
  }

  /** A statement writes, or waits for the other transaction to end. */
  ghost function Put(s: State, n: nat, tx: Tx): State {
    if Free(s, n, tx) then s.(txs := s.txs[n := tx]) else s
  }

  function End(s: State, n: nat): State {
    s.(txs := s.txs - {n})
  }

  function SpentCode(st: Store, tx: Tx): CodeRow
    requires tx.work.Opening? && tx.work.g.codeId in st.codes
  {
    st.codes[tx.work.g.codeId].(session := Some(tx.work.minted.session), consumed := Some(tx.now))
  }

  function RootRefresh(tx: Tx): RefreshRow
    requires tx.work.Opening?
  {
    RefreshRow(tx.work.minted.session, tx.work.minted.family, tx.work.minted.hash, None, tx.now, tx.now + REFRESH_TTL, None, None)
  }

  /** What the next statement of an exchange asks of the committed tables. */
  predicate Admits(st: Store, tx: Tx)
    requires tx.work.Opening?
  {
    var g, minted := tx.work.g, tx.work.minted;
    match tx.stage
    case ConsumeCode => CodeConsumable(st, g.codeId, tx.now)
    case CheckUser => g.user in st.activeUsers
    case InsertSession => SessionInsertable(st, minted.session, NewSession(g, minted))
    case InsertAccess => AccessInsertable(st, minted.access)
    case InsertRefresh => RefreshInsertable(st, minted.refresh, minted.hash)
    case _ => true
  }

  /** An exchange after that statement. */
  function OpeningStatement(st: Store, tx: Tx): Tx
    requires tx.work.Opening? && Admits(st, tx)
  {
    var g, minted, ws := tx.work.g, tx.work.minted, tx.ws;
    match tx.stage
    case ConsumeCode => tx.(stage := CheckUser, ws := ws.(codes := map[g.codeId := SpentCode(st, tx)]))
    case CheckUser => tx.(stage := InsertSession)
    case InsertSession => tx.(stage := InsertAccess, ws := ws.(sessions := map[minted.session := NewSession(g, minted)]))
    case InsertAccess =>
      tx.(stage := if tx.work.withRefresh then InsertRefresh else Commit,
          ws := ws.(access := map[minted.access := NewAccess(g, minted.session, tx.now)]))
    case InsertRefresh => tx.(stage := Commit, ws := ws.(refresh := map[minted.refresh := RootRefresh(tx)]))
    case _ => tx
  }

  ghost function GoOpening(s: State, n: nat): State
    requires n in s.txs && s.txs[n].work.Opening?
  {
    if s.txs[n].stage.Commit? then End(s, n).(st := Overlay(s.st, s.txs[n].ws))
    else if !Admits(s.st, s.txs[n]) then End(s, n)
    else Put(s, n, OpeningStatement(s.st, s.txs[n]))
  }

  function Selected(st: Store, target: Target): set<Id> {
    match target
    case OfUser(user) => SessionsOfUser(st, user)
    case OfLogin(login) => SessionsOfLogin(st, login)
  }

  /** The rows that an update of unrevoked rows of the sessions matches. */
  function SessionsMatched(st: Store, ids: set<Id>, now: Time): map<Id, SessionRow> {
    map i | i in st.sessions && i in ids && st.sessions[i].revoked.None? :: st.sessions[i].(revoked := Some(now))
  }

  function AccessMatched(st: Store, ids: set<Id>, now: Time): map<Id, AccessRow> {
    map a | a in st.access && st.access[a].session in ids && st.access[a].revoked.None? :: st.access[a].(revoked := Some(now))
  }

  function RefreshMatched(st: Store, ids: set<Id>, now: Time): map<Id, RefreshRow> {
    map t | t in st.refresh && st.refresh[t].session in ids && st.refresh[t].revoked.None? :: st.refresh[t].(revoked := Some(now))
  }

  /** A sweep after its next statement. Without a session to revoke it commits at once. */
  function SweepStatement(st: Store, tx: Tx): Tx
    requires tx.work.Sweep?
  {
    match tx.stage
    case SelectSessions =>
      var ids := Selected(st, tx.work.target);
      tx.(stage := if ids == {} then Commit else UpdateSessions, ids := ids)
    case UpdateSessions => tx.(stage := UpdateAccess, ws := tx.ws.(sessions := SessionsMatched(st, tx.ids, tx.now)))
    case UpdateAccess => tx.(stage := UpdateRefresh, ws := tx.ws.(access := AccessMatched(st, tx.ids, tx.now)))
    case UpdateRefresh => tx.(stage := Commit, ws := tx.ws.(refresh := RefreshMatched(st, tx.ids, tx.now)))
    case _ => tx
  }

  ghost function GoSweep(s: State, n: nat): State
    requires n in s.txs && s.txs[n].work.Sweep?
  {
    if s.txs[n].stage.Commit? then End(s, n).(st := Overlay(s.st, s.txs[n].ws)) else Put(s, n, SweepStatement(s.st, s.txs[n]))
  }

  /** Nobody else has written the rotated session, or inserted what the rotation inserts. */
  ghost predicate RotationFree(s: State, n: nat, g: Grant, minted: NewIds) {
    forall m | m in s.txs && m != n :: NotTouched(s.txs[m], g.sessionId) && KeysFree(s.txs[m], minted)
  }

  predicate NotTouched(tx: Tx, i: Id) {
    i !in tx.ws.sessions
  }

  predicate KeysFree(tx: Tx, minted: NewIds) {
    tx.work.Opening? ==>
      minted.access !in tx.ws.access && (tx.ws.refresh != map[] ==> tx.work.minted.refresh != minted.refresh && tx.work.minted.hash != minted.hash)
  }

  /** A rotation checks session and user first, and commits if by then it is still allowed. */
  ghost function GoRotation(s: State, n: nat): State
    requires n in s.txs && s.txs[n].work.Rotation?
  {
    var tx := s.txs[n];
    var g, minted := tx.work.g, tx.work.minted;
    match tx.stage
    case CheckUser =>
      if g.sessionId !in s.st.sessions || s.st.sessions[g.sessionId].revoked.Some? || g.user !in s.st.activeUsers then End(s, n)
      else Put(s, n, tx.(stage := Commit))
    case _ =>
      if !RotationAllowed(s.st, g, minted, tx.now) then End(s, n)
      else if !RotationFree(s, n, g, minted) then s
      else End(s, n).(st := Rotate(s.st, g, minted, tx.now))
  }

  /** What the lookup before the transaction found: the code or the token, with its subject and client. */
  ghost predicate Looked(st: Store, work: Work) {
    match work
    case Opening(g, _, _) => g.codeId in st.codes && st.codes[g.codeId].subject == g.user && st.codes[g.codeId].client == g.client
    case Sweep(_) => true
    case Rotation(g, _) => TokenLocks.GrantTied(st, g)
  }

  function FirstStage(work: Work): Stage {
    match work
    case Opening(_, _, _) => ConsumeCode
    case Sweep(_) => SelectSessions
    case Rotation(_, _) => CheckUser
  }

  ghost function Next(s: State, e: Event): State {
    match e
    case Begin(n, work, now) =>
      if n in s.txs || !Looked(s.st, work) then s else s.(txs := s.txs[n := Tx(work, now, FirstStage(work), {}, NO_WRITES)])
    case Go(n) =>
      if n !in s.txs then s
      else if s.txs[n].work.Opening? then GoOpening(s, n)
      else if s.txs[n].work.Sweep? then GoSweep(s, n)
      else GoRotation(s, n)
    case Abort(n) => End(s, n)
    case RevokeOne(i, now) =>
      if forall m | m in s.txs :: NotTouched(s.txs[m], i) then s.(st := Revoke(s.st, {i}, now)) else s
    case SaveRequestCode(requestId, id, hash, now) => s.(st := SaveCode(s.st, requestId, id, hash, now).0)
    case SetActive(user, active) =>
      s.(st := s.st.(activeUsers := if active then s.st.activeUsers + {user} else s.st.activeUsers - {user}))
  }

  ghost function Run(s: State, evs: seq<Event>): State
    decreases |evs|
  {
    if evs == [] then s else Run(Next(s, evs[0]), evs[1..])
  }

  // What each transaction's writes are, given what is committed.

  predicate SessionInserted(tx: Tx) {
    tx.stage in {InsertAccess, InsertRefresh, Commit}
  }

  predicate AccessInserted(tx: Tx) {
    tx.stage in {InsertRefresh, Commit}
  }

  ghost predicate OpeningHolds(st: Store, tx: Tx)
    requires tx.work.Opening?
  {
    var g, minted, ws := tx.work.g, tx.work.minted, tx.ws;
    && Looked(st, tx.work)
    && tx.stage in {ConsumeCode, CheckUser, InsertSession, InsertAccess, InsertRefresh, Commit}
    && (tx.stage.InsertRefresh? ==> tx.work.withRefresh)
    && (!tx.stage.ConsumeCode? ==> CodeConsumable(st, g.codeId, tx.now))
    && (SessionInserted(tx) ==> SessionInsertable(st, minted.session, NewSession(g, minted)))
    && (AccessInserted(tx) ==> AccessInsertable(st, minted.access))
    && (tx.stage.Commit? && tx.work.withRefresh ==> RefreshInsertable(st, minted.refresh, minted.hash))
    && ws.codes == (if tx.stage.ConsumeCode? then map[] else map[g.codeId := SpentCode(st, tx)])
    && ws.sessions == (if SessionInserted(tx) then map[minted.session := NewSession(g, minted)] else map[])
    && ws.access == (if AccessInserted(tx) then map[minted.access := NewAccess(g, minted.session, tx.now)] else map[])
    && ws.refresh == (if tx.stage.Commit? && tx.work.withRefresh then map[minted.refresh := RootRefresh(tx)] else map[])
  }

  ghost predicate SweepHolds(st: Store, tx: Tx) {
    var ids, now, ws := tx.ids, tx.now, tx.ws;
    && ids <= st.sessions.Keys && ws.codes == map[]
    && match tx.stage
       case SelectSessions => ws == NO_WRITES
       case UpdateSessions => ids != {} && ws == NO_WRITES
       case UpdateAccess => ids != {} && ws.sessions == SessionsMatched(st, ids, now) && ws.access == map[] && ws.refresh == map[]
       case UpdateRefresh =>
         ids != {} && ws.sessions == SessionsMatched(st, ids, now) && ws.access == AccessMatched(st, ids, now) && ws.refresh == map[]
       case Commit =>
         if ids == {} then ws == NO_WRITES
         else ws == Writes(map[], SessionsMatched(st, ids, now), AccessMatched(st, ids, now), RefreshMatched(st, ids, now))
       case _ => false
  }

  ghost predicate RotationHolds(st: Store, tx: Tx) {
    Looked(st, tx.work) && tx.ws == NO_WRITES && tx.stage in {CheckUser, Commit}
  }

  ghost predicate Holds(st: Store, tx: Tx) {
    if tx.work.Opening? then OpeningHolds(st, tx) else if tx.work.Sweep? then SweepHolds(st, tx) else RotationHolds(st, tx)
  }

  ghost predicate AllHold(s: State) {
    forall n | n in s.txs :: Holds(s.st, s.txs[n])
  }

  ghost predicate AllApart(s: State) {
    forall n, m | n in s.txs && m in s.txs && n != m :: Apart(s.txs[n], s.txs[m])
  }

  ghost predicate StepsInv(s: State) {
    StoreInv(s.st) && AllHold(s) && AllApart(s)
  }
}
