/**
  Rotations and revocations at the level of single statements. Statements of different transactions
  interleave: each reads what is committed at that moment together with its own writes, a write holds
  its session's row until the transaction ends, and writes take effect for others at commit.
*/
module TokenLocks {
  import opened Options
  import opened TokenStore
  import opened TokenInvariant

  datatype Work = Rotation(g: Grant, minted: NewIds) | Revocation(session: Id)

  /** The next statement of a transaction. */
  datatype Stage =
    | ReadToken | ReadSession | WriteSession | WriteToken | InsertAccess | InsertRefresh | CommitRotation
    | RevokeSession | RevokeAccess | RevokeRefresh | CommitRevocation

  /** Uncommitted writes. */
  datatype Writes = Writes(session: Option<SessionRow>, access: map<Id, AccessRow>, refresh: map<Id, RefreshRow>)

  /** scoped: the session's scopes were written. */
  datatype Tx = Tx(work: Work, now: Time, stage: Stage, scoped: bool, ws: Writes)

  /** locks maps a session row to the transaction that wrote it. */
  datatype State = State(st: Store, txs: map<nat, Tx>, locks: map<Id, nat>)

  datatype Event = Begin(n: nat, work: Work, now: Time) | Go(n: nat) | Abort(n: nat)

  const NO_WRITES := Writes(None, map[], map[])

  function SessionOf(tx: Tx): Id {
    if tx.work.Rotation? then tx.work.g.sessionId else tx.work.session
  }

  function InsertedAccess(tx: Tx): Option<Id> {
    if tx.work.Rotation? && (tx.stage.InsertRefresh? || tx.stage.CommitRotation?) then Some(tx.work.minted.access) else None
  }

  /** A new refresh token occupies its identifier and its hash. */
  function InsertedRefresh(tx: Tx): Option<(Id, string)> {
    if tx.work.Rotation? && tx.stage.CommitRotation? then Some((tx.work.minted.refresh, tx.work.minted.hash)) else None
  }

  /** An insert waits while another transaction has inserted the same key. */
  ghost predicate AccessWaits(s: State, n: nat, id: Id) {
    exists m | m in s.txs :: m != n && InsertedAccess(s.txs[m]) == Some(id)
  }

  ghost predicate RefreshWaits(s: State, n: nat, id: Id, hash: string) {
    exists m | m in s.txs ::
      m != n && InsertedRefresh(s.txs[m]).Some? && (InsertedRefresh(s.txs[m]).value.0 == id || InsertedRefresh(s.txs[m]).value.1 == hash)
  }

  /** The rows of the session's tokens that an update of unrevoked rows matches. */
  function AccessMatched(st: Store, i: Id, now: Time): map<Id, AccessRow> {
    map a | a in st.access && st.access[a].session == i && st.access[a].revoked.None? :: st.access[a].(revoked := Some(now))
  }

  function RefreshMatched(st: Store, i: Id, now: Time): map<Id, RefreshRow> {
    map t | t in st.refresh && st.refresh[t].session == i && st.refresh[t].revoked.None? :: st.refresh[t].(revoked := Some(now))
  }

  function Overlay(st: Store, i: Id, ws: Writes): Store {
    st.(sessions := if ws.session.Some? then st.sessions[i := ws.session.value] else st.sessions,
        access := st.access + ws.access, refresh := st.refresh + ws.refresh)
  }

  predicate TokenConsumable(st: Store, t: Id, now: Time) {
    t in st.refresh && st.refresh[t].consumed.None? && st.refresh[t].revoked.None? && now < st.refresh[t].expires
  }

  function ChildRow(st: Store, g: Grant, minted: NewIds, now: Time): RefreshRow
    requires g.sessionId in st.sessions
  {
    RefreshRow(g.sessionId, st.sessions[g.sessionId].family, minted.hash, Some(g.refreshId), now, now + REFRESH_TTL, None, None)
  }

  // One statement.

  function End(s: State, n: nat): State
    requires n in s.txs
  {
    s.(txs := s.txs - {n}, locks := map i | i in s.locks && s.locks[i] != n :: s.locks[i])
  }

  function At(s: State, n: nat, stage: Stage): State
    requires n in s.txs
  {
    s.(txs := s.txs[n := s.txs[n].(stage := stage)])
  }

  /** The statements of a rotation before it may turn into a revocation. */
  ghost function GoRotation(s: State, n: nat): State
    requires n in s.txs && s.txs[n].work.Rotation?
  {
    var tx := s.txs[n];
    var g, minted, now, i, ws := tx.work.g, tx.work.minted, tx.now, tx.work.g.sessionId, tx.ws;
    match tx.stage
    case ReadToken =>
      if g.refreshId !in s.st.refresh then End(s, n)
      else if s.st.refresh[g.refreshId].consumed.Some? then At(s, n, RevokeSession)
      else if !TokenConsumable(s.st, g.refreshId, now) then End(s, n)
      else At(s, n, ReadSession)
    case ReadSession =>
      if i !in s.st.sessions || s.st.sessions[i].revoked.Some? || g.user !in s.st.activeUsers then End(s, n)
      else At(s, n, WriteSession)
    case WriteSession =>
      if i in s.locks then s
      else if i !in s.st.sessions || s.st.sessions[i].revoked.Some? then End(s, n)
      else
        var written := tx.(stage := WriteToken, scoped := true, ws := ws.(session := Some(s.st.sessions[i].(scopes := g.scopes))));
        s.(txs := s.txs[n := written], locks := s.locks[i := n])
    case WriteToken =>
      if !TokenConsumable(s.st, g.refreshId, now) then At(s, n, RevokeSession)
      else
        var row := s.st.refresh[g.refreshId].(consumed := Some(now));
        s.(txs := s.txs[n := tx.(stage := InsertAccess, ws := ws.(refresh := map[g.refreshId := row]))])
    case InsertAccess =>
      if AccessWaits(s, n, minted.access) then s
      else if !AccessInsertable(s.st, minted.access) then End(s, n)
      else s.(txs := s.txs[n := tx.(stage := InsertRefresh, ws := ws.(access := map[minted.access := NewAccess(g, i, now)]))])
    case InsertRefresh =>
      if RefreshWaits(s, n, minted.refresh, minted.hash) then s
      else if !RefreshInsertable(s.st, minted.refresh, minted.hash) || i !in s.st.sessions then End(s, n)
      else
        var rows := ws.refresh[minted.refresh := ChildRow(s.st, g, minted, now)];
        s.(txs := s.txs[n := tx.(stage := CommitRotation, ws := ws.(refresh := rows))])
    case _ => s
  }

  function GoRevocation(s: State, n: nat): State
    requires n in s.txs
  {
    var tx := s.txs[n];
    var now, i, ws := tx.now, SessionOf(tx), tx.ws;
    match tx.stage
    case RevokeSession =>
      if ws.session.Some? then
        s.(txs := s.txs[n := tx.(stage := RevokeAccess, ws := ws.(session := Some(ws.session.value.(revoked := Some(now)))))])
      else if i in s.locks then s
      else if i !in s.st.sessions || s.st.sessions[i].revoked.Some? then At(s, n, RevokeAccess)
      else
        var written := tx.(stage := RevokeAccess, ws := ws.(session := Some(s.st.sessions[i].(revoked := Some(now)))));
        s.(txs := s.txs[n := written], locks := s.locks[i := n])
    case RevokeAccess => s.(txs := s.txs[n := tx.(stage := RevokeRefresh, ws := ws.(access := AccessMatched(s.st, i, now)))])
    case RevokeRefresh => s.(txs := s.txs[n := tx.(stage := CommitRevocation, ws := ws.(refresh := RefreshMatched(s.st, i, now)))])
    case _ => s
  }

  /** A transaction begins with a grant whose token and session were read together at lookup. */
  ghost predicate GrantTied(st: Store, g: Grant) {
    && g.refreshId in st.refresh && st.refresh[g.refreshId].session == g.sessionId
    && g.sessionId in st.sessions && st.sessions[g.sessionId].user == g.user && st.sessions[g.sessionId].client == g.client
  }

  ghost function Next(s: State, e: Event): State {
    match e
    case Begin(n, work, now) =>
      if n in s.txs || (work.Rotation? && !GrantTied(s.st, work.g)) then s
      else s.(txs := s.txs[n := Tx(work, now, if work.Rotation? then ReadToken else RevokeSession, false, NO_WRITES)])
    case Abort(n) => if n in s.txs then End(s, n) else s
    case Go(n) =>
      if n !in s.txs then s
      else if s.txs[n].stage.CommitRotation? || s.txs[n].stage.CommitRevocation? then
        End(s, n).(st := Overlay(s.st, SessionOf(s.txs[n]), s.txs[n].ws))
      else if s.txs[n].stage in {RevokeSession, RevokeAccess, RevokeRefresh} then GoRevocation(s, n)
      else if s.txs[n].work.Rotation? then GoRotation(s, n)
      else s
  }

  ghost function Run(s: State, evs: seq<Event>): State
    decreases |evs|
  {
    if evs == [] then s else Run(Next(s, evs[0]), evs[1..])
  }

  // What each transaction's writes are, given what is committed.

  ghost predicate InRotation(tx: Tx) {
    tx.stage in {ReadToken, ReadSession, WriteSession, WriteToken, InsertAccess, InsertRefresh, CommitRotation}
  }

  /** The session row as the transaction has written it so far. */
  function BaseRow(st: Store, tx: Tx): SessionRow
    requires SessionOf(tx) in st.sessions
  {
    var row := st.sessions[SessionOf(tx)];
    if tx.scoped && tx.work.Rotation? then row.(scopes := tx.work.g.scopes) else row
  }

  ghost predicate RotationWrites(st: Store, tx: Tx)
    requires tx.work.Rotation? && SessionOf(tx) in st.sessions
  {
    var g, minted, now, ws := tx.work.g, tx.work.minted, tx.now, tx.ws;
    match tx.stage
    case ReadToken | ReadSession | WriteSession => ws == NO_WRITES
    case WriteToken => tx.scoped && ws == Writes(Some(BaseRow(st, tx)), map[], map[])
    case InsertAccess =>
      && tx.scoped && TokenConsumable(st, g.refreshId, now)
      && ws == Writes(Some(BaseRow(st, tx)), map[], map[g.refreshId := st.refresh[g.refreshId].(consumed := Some(now))])
    case InsertRefresh =>
      && tx.scoped && TokenConsumable(st, g.refreshId, now) && AccessInsertable(st, minted.access)
      && ws == Writes(Some(BaseRow(st, tx)), map[minted.access := NewAccess(g, g.sessionId, now)],
                      map[g.refreshId := st.refresh[g.refreshId].(consumed := Some(now))])
    case CommitRotation =>
      && tx.scoped && TokenConsumable(st, g.refreshId, now)
      && AccessInsertable(st, minted.access) && RefreshInsertable(st, minted.refresh, minted.hash)
      && ws == Writes(Some(BaseRow(st, tx)), map[minted.access := NewAccess(g, g.sessionId, now)],
                      map[g.refreshId := st.refresh[g.refreshId].(consumed := Some(now)), minted.refresh := ChildRow(st, g, minted, now)])
    case _ => true
  }

  ghost predicate RevocationWrites(st: Store, tx: Tx) {
    var i, now, ws := SessionOf(tx), tx.now, tx.ws;
    match tx.stage
    case RevokeSession =>
      ws.access == map[] && ws.refresh == map[] && (ws.session.Some? ==> i in st.sessions && ws.session.value == BaseRow(st, tx))
    case RevokeAccess | RevokeRefresh | CommitRevocation =>
      && (ws.session.Some? ==> i in st.sessions && ws.session.value == BaseRow(st, tx).(revoked := Some(now)))
      && (ws.session.None? ==> i in st.sessions ==> st.sessions[i].revoked.Some?)
      && ws.access == (if tx.stage.RevokeAccess? then map[] else AccessMatched(st, i, now))
      && ws.refresh == (if tx.stage.CommitRevocation? then RefreshMatched(st, i, now) else map[])
    case _ => true
  }

  /** A transaction that wrote its session's row holds its lock, and the row is committed unrevoked meanwhile. */
  ghost predicate TxHolds(st: Store, locks: map<Id, nat>, n: nat, tx: Tx) {
    && (tx.work.Rotation? ==> GrantTied(st, tx.work.g)) && (InRotation(tx) ==> tx.work.Rotation?)
    && (tx.ws.session.Some? <==> SessionOf(tx) in locks && locks[SessionOf(tx)] == n)
    && (tx.ws.session.Some? ==> SessionOf(tx) in st.sessions && st.sessions[SessionOf(tx)].revoked.None?)
    && (tx.scoped ==> tx.ws.session.Some?)
    && (tx.work.Rotation? && InRotation(tx) ==> RotationWrites(st, tx))
    && (!InRotation(tx) ==> RevocationWrites(st, tx))
  }

  ghost predicate AllHold(s: State) {
    forall n | n in s.txs :: TxHolds(s.st, s.locks, n, s.txs[n])
  }

  ghost predicate LocksHeld(s: State) {
    forall i | i in s.locks :: s.locks[i] in s.txs && SessionOf(s.txs[s.locks[i]]) == i
  }

  /** No two open transactions have inserted the same key. */
  ghost predicate InsertsDiffer(txs: map<nat, Tx>) {
    forall n, m | n in txs && m in txs && n != m :: TxInsertsDiffer(txs[n], txs[m])
  }

  predicate TxInsertsDiffer(a: Tx, b: Tx) {
    && (InsertedAccess(a).Some? ==> InsertedAccess(a) != InsertedAccess(b))
    && (InsertedRefresh(a).Some? && InsertedRefresh(b).Some? ==>
          InsertedRefresh(a).value.0 != InsertedRefresh(b).value.0 && InsertedRefresh(a).value.1 != InsertedRefresh(b).value.1)
  }

  ghost predicate LocksInv(s: State) {
    StoreInv(s.st) && AllHold(s) && LocksHeld(s) && InsertsDiffer(s.txs)
  }
}
