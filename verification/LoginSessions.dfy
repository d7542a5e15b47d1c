/**
  Login sessions of the IAM service: an idle and an absolute expiry, and revocation. One SQL statement is
  one write; other writes may land between the statements of a call.
*/
module LoginSessions {
  import opened Options
  import opened TokenStore
  import opened TokenServer

  const IDLE_TTL := 7 * DAY
  const ABSOLUTE_TTL := 30 * DAY

  datatype LoginRow = LoginRow(
    user: Id, hash: string, created: Time, lastSeen: Time, idle: Time, absolute: Time, revoked: Option<Time>)

  type Rows = map<Id, LoginRow>

  datatype Write =
    | Open(id: Id, user: Id, hash: string, now: Time)
    | Touch(id: Id, now: Time)
    | RevokeOne(id: Id, now: Time)
    | RevokeOthers(user: Id, keep: Id, now: Time)
    | RevokeUser(user: Id, now: Time)

  function Min(a: Time, b: Time): Time {
    if a < b then a else b
  }

  /** The primary key and the unique index on the secret hash. */
  predicate Insertable(rows: Rows, id: Id, hash: string) {
    id !in rows && forall i | i in rows :: rows[i].hash != hash
  }

  predicate Unexpired(row: LoginRow, now: Time) {
    now < row.idle && now < row.absolute
  }

  /** The condition in the touch statement itself. */
  predicate Touchable(rows: Rows, id: Id, now: Time) {
    id in rows && rows[id].revoked.None? && Unexpired(rows[id], now)
  }

  function RevokeRow(row: LoginRow, now: Time): LoginRow {
    row.(revoked := SetRevoked(row.revoked, now))
  }

  function Apply(rows: Rows, w: Write): Rows {
    match w
    case Open(id, user, hash, now) =>
      if !Insertable(rows, id, hash) then rows
      else rows[id := LoginRow(user, hash, now, now, now + IDLE_TTL, now + ABSOLUTE_TTL, None)]
    case Touch(id, now) =>
      if !Touchable(rows, id, now) then rows
      else rows[id := rows[id].(lastSeen := now, idle := Min(now + IDLE_TTL, rows[id].absolute))]
    case RevokeOne(id, now) =>
      if id in rows then rows[id := RevokeRow(rows[id], now)] else rows
    case RevokeOthers(user, keep, now) =>
      map i | i in rows :: if rows[i].user == user && i != keep then RevokeRow(rows[i], now) else rows[i]
    case RevokeUser(user, now) =>
      map i | i in rows :: if rows[i].user == user then RevokeRow(rows[i], now) else rows[i]
  }

  function RunWrites(rows: Rows, ws: seq<Write>): Rows
    decreases |ws|
  {
    if ws == [] then rows else RunWrites(Apply(rows, ws[0]), ws[1..])
  }

  // The invariant.

  predicate RowHolds(row: LoginRow) {
    && row.absolute == row.created + ABSOLUTE_TTL
    && row.idle == Min(row.lastSeen + IDLE_TTL, row.absolute)
  }

  ghost predicate RowsHold(rows: Rows) {
    (forall i | i in rows :: RowHolds(rows[i])) && UniqueSecrets(rows)
  }

  ghost predicate UniqueSecrets(rows: Rows) {
    forall i, j | i in rows && j in rows && rows[i].hash == rows[j].hash :: i == j
  }

  /** Every reachable session expires 30 days after it was made and, before that, 7 days after it was last seen. */
  lemma {:induction false} RunHolds(rows: Rows, ws: seq<Write>)
    requires RowsHold(rows)
    ensures RowsHold(RunWrites(rows, ws))
    decreases |ws|
  {
    hide RowsHold, Apply;
    if ws != [] {
      ApplyHolds(rows, ws[0]);
      RunHolds(Apply(rows, ws[0]), ws[1..]);
    }
  }

  lemma ApplyHolds(rows: Rows, w: Write)
    requires RowsHold(rows)
    ensures RowsHold(Apply(rows, w))
  {
    ApplyKeepsSecrets(rows, w);
    hide UniqueSecrets;
    var next := Apply(rows, w);
    forall i | i in next
      ensures RowHolds(next[i])
    {
      if w.Touch? && w.id == i {
        assert RowHolds(rows[i]);
      }
    }
  }

  lemma ApplyKeepsSecrets(rows: Rows, w: Write)
    requires UniqueSecrets(rows)
    ensures UniqueSecrets(Apply(rows, w))
  {
    var next := Apply(rows, w);
    if w.Open? && Insertable(rows, w.id, w.hash) {
      assert forall i | i in rows :: next[i] == rows[i];
    } else {
      SameSecrets(rows, w);
      hide Apply;
    }
  }

  lemma SameSecrets(rows: Rows, w: Write)
    requires w.Open? ==> !Insertable(rows, w.id, w.hash)
    ensures Apply(rows, w).Keys == rows.Keys
    ensures forall i | i in rows :: Apply(rows, w)[i].hash == rows[i].hash
  {
  }

  // What a session's touches need.

  predicate Revokes(row: LoginRow, id: Id, w: Write) {
    match w
    case Open(_, _, _, _) => false
    case Touch(_, _) => false
    case RevokeOne(i, _) => i == id
    case RevokeOthers(user, keep, _) => user == row.user && keep != id
    case RevokeUser(user, _) => user == row.user
  }

  /** The times a run touches one session at. */
  function TouchTimes(ws: seq<Write>, id: Id): seq<Time> {
    if ws == [] then []
    else (if ws[0].Touch? && ws[0].id == id then [ws[0].now] else []) + TouchTimes(ws[1..], id)
  }

  /** Every touch of the session in the run lands. */
  ghost predicate AllLand(rows: Rows, ws: seq<Write>, id: Id)
    decreases |ws|
  {
    ws != [] ==>
      && (ws[0].Touch? && ws[0].id == id ==> Touchable(rows, id, ws[0].now))
      && AllLand(Apply(rows, ws[0]), ws[1..], id)
  }

  ghost predicate NoneLands(rows: Rows, ws: seq<Write>, id: Id)
    decreases |ws|
  {
    ws != [] ==>
      && (ws[0].Touch? && ws[0].id == id ==> !Touchable(rows, id, ws[0].now))
      && NoneLands(Apply(rows, ws[0]), ws[1..], id)
  }

  /** Every gap is under 7 days and every time before the end of day 30. */
  predicate KeepsAlive(lastSeen: Time, created: Time, times: seq<Time>)
    decreases |times|
  {
    times != [] ==>
      times[0] - lastSeen < IDLE_TTL && times[0] < created + ABSOLUTE_TTL && KeepsAlive(times[0], created, times[1..])
  }

  /** As long as nothing revokes the session, all its touches land exactly when their times keep it alive, whatever else happens in between. */
  lemma {:induction false} AliveExactlyWhen(rows: Rows, ws: seq<Write>, id: Id)
    requires RowsHold(rows) && id in rows && rows[id].revoked.None?
    requires forall w | w in ws :: !Revokes(rows[id], id, w)
    ensures AllLand(rows, ws, id) <==> KeepsAlive(rows[id].lastSeen, rows[id].created, TouchTimes(ws, id))
    decreases |ws|
  {
    if ws != [] {
      var w, next := ws[0], Apply(rows, ws[0]);
      var times, rest := TouchTimes(ws, id), TouchTimes(ws[1..], id);
      ApplyHolds(rows, w);
      StepAlive(rows, w, id);
      hide RowsHold, Apply, Revokes;
      assert forall v | v in ws[1..] :: !Revokes(next[id], id, v);
      if w.Touch? && w.id == id {
        assert times[1..] == rest;
        if !Touchable(rows, id, w.now) {
          return;
        }
      } else {
        assert times == rest;
      }
      AliveExactlyWhen(next, ws[1..], id);
    }
  }

  lemma StepAlive(rows: Rows, w: Write, id: Id)
    requires RowsHold(rows) && id in rows && rows[id].revoked.None? && !Revokes(rows[id], id, w)
    ensures var next := Apply(rows, w);
      && id in next && next[id].revoked.None? && (forall v :: Revokes(next[id], id, v) <==> Revokes(rows[id], id, v))
      && next[id].user == rows[id].user && next[id].created == rows[id].created
      && next[id].lastSeen == (if w.Touch? && w.id == id && Touchable(rows, id, w.now) then w.now else rows[id].lastSeen)
  {
  }

  predicate Dead(rows: Rows, id: Id, now: Time) {
    id in rows && (rows[id].revoked.Some? || !Unexpired(rows[id], now))
  }

  ghost predicate Monotone(ws: seq<Write>, from: Time) {
    ws != [] ==> from <= ws[0].now && Monotone(ws[1..], ws[0].now)
  }

  /** Once revoked or expired, a session is never touched again: with a clock that does not go back, no later call succeeds. */
  lemma {:induction false} DeadForever(rows: Rows, ws: seq<Write>, id: Id, now: Time)
    requires Dead(rows, id, now) && Monotone(ws, now)
    ensures NoneLands(rows, ws, id)
    ensures id in RunWrites(rows, ws) && (rows[id].revoked.Some? ==> RunWrites(rows, ws)[id].revoked == rows[id].revoked)
    decreases |ws|
  {
    if ws != [] {
      StepDead(rows, ws[0], id, now);
      DeadForever(Apply(rows, ws[0]), ws[1..], id, ws[0].now);
    }
  }

  lemma StepDead(rows: Rows, w: Write, id: Id, now: Time)
    requires Dead(rows, id, now) && now <= w.now
    ensures Dead(Apply(rows, w), id, w.now)
    ensures rows[id].revoked.Some? ==> Apply(rows, w)[id].revoked == rows[id].revoked
  {
  }

  /** A revocation needs no clock at all. */
  lemma {:induction false} RevokedForever(rows: Rows, ws: seq<Write>, id: Id)
    requires id in rows && rows[id].revoked.Some?
    ensures NoneLands(rows, ws, id)
    ensures id in RunWrites(rows, ws) && RunWrites(rows, ws)[id].revoked == rows[id].revoked
    decreases |ws|
  {
    if ws != [] {
      StepRevoked(rows, ws[0], id);
      RevokedForever(Apply(rows, ws[0]), ws[1..], id);
    }
  }

  lemma StepRevoked(rows: Rows, w: Write, id: Id)
    requires id in rows && rows[id].revoked.Some?
    ensures id in Apply(rows, w) && Apply(rows, w)[id].revoked == rows[id].revoked
  {
  }

  /** Everything a write does to a session that is there: a touch in time moves it, a revocation of it stamps it once. */
  lemma RowMoves(rows: Rows, w: Write, i: Id)
    requires i in rows
    ensures var row, next := rows[i], Apply(rows, w);
      && i in next
      && next[i] ==
           if w.Touch? && w.id == i && row.revoked.None? && w.now < row.idle && w.now < row.absolute
             then row.(lastSeen := w.now, idle := if w.now + 604800 < row.absolute then w.now + 604800 else row.absolute)
           else if row.revoked.None?
                   && ((w.RevokeOne? && w.id == i) || (w.RevokeOthers? && w.user == row.user && w.keep != i) || (w.RevokeUser? && w.user == row.user))
             then row.(revoked := Some(w.now))
           else row
  {
  }

  /** A session appears only when one is opened, with 7 days until it is idle and 30 in all. */
  lemma RowAppears(rows: Rows, w: Write, i: Id)
    requires i !in rows && i in Apply(rows, w)
    ensures w.Open? && w.id == i && Apply(rows, w) == rows[i := LoginRow(w.user, w.hash, w.now, w.now, w.now + 604800, w.now + 2592000, None)]
    ensures forall j | j in rows :: rows[j].hash != w.hash
  {
  }

  // The use case.

  datatype Status = Pending | Active | Disabled

  datatype UserView = UserView(status: Status, verified: bool)

  datatype Outcome = Resolved(user: Id, session: LoginRow) | Unauthenticated | SessionRevoked | UserDisabled | UserNotActive

  ghost predicate HasHash(rows: Rows, i: Id, hash: string) {
    i in rows && rows[i].hash == hash
  }

  /** What a resolve call does with the row it found, when others write between its read and its touch, or its end. */
  function ResolveRow(rows: Rows, users: map<Id, UserView>, id: Id, now: Time, others: seq<Write>): (Rows, Outcome)
    requires id in rows
  {
    var row, mid := rows[id], RunWrites(rows, others);
    if id == "" || row.revoked.Some? || !Unexpired(row, now) || row.user !in users then (mid, SessionRevoked)
    else if users[row.user].status == Disabled then (mid, UserDisabled)
    else if users[row.user].status != Active || !users[row.user].verified then (mid, UserNotActive)
    else
      var after := Apply(mid, Touch(id, now));
      (after, if Touchable(mid, id, now) then Resolved(row.user, after[id]) else SessionRevoked)
  }

  ghost function ResolveEffect(rows: Rows, users: map<Id, UserView>, hash: string, now: Time, others: seq<Write>): (Rows, Outcome) {
    if !exists i :: HasHash(rows, i, hash) then (RunWrites(rows, others), SessionRevoked) else
    var i :| HasHash(rows, i, hash);
    ResolveRow(rows, users, i, now, others)
  }

  lemma ResolveFinds(rows: Rows, users: map<Id, UserView>, id: Id, hash: string, now: Time, others: seq<Write>)
    requires RowsHold(rows) && HasHash(rows, id, hash)
    ensures ResolveEffect(rows, users, hash, now, others) == ResolveRow(rows, users, id, now, others)
  {
    hide ResolveRow;
    assert forall i :: HasHash(rows, i, hash) ==> i == id;
  }

  /** Which parts of a revocation failed, if it was attempted. */
  datatype Revocation = NotAuthenticated | Attempted(sessionFailed: bool, tokenFailed: bool)

  class Sessions {
    var rows: Rows
    var users: map<Id, UserView>
    const tokens: Server

    constructor (tokenServer: Server)
      ensures rows == map[] && users == map[] && tokens == tokenServer
    {
      rows, users, tokens := map[], map[], tokenServer;
    }

    method Create(id: Id, user: Id, hash: string, now: Time) returns (ok: bool)
      modifies this`rows
      ensures ok <==> user != "" && Insertable(old(rows), id, hash)
      ensures rows == if user == "" then old(rows) else Apply(old(rows), Open(id, user, hash, now))
      ensures ok ==> rows == old(rows)[id := LoginRow(user, hash, now, now, now + 604800, now + 2592000, None)]
      ensures !ok ==> rows == old(rows)
    {
      if user == "" {
        return false;
      }
      ok := Insertable(rows, id, hash);
      if ok {
        rows := rows[id := LoginRow(user, hash, now, now, now + IDLE_TTL, now + ABSOLUTE_TTL, None)];
      }
    }

    method FindBySecretHash(hash: string) returns (id: Option<Id>)
      ensures id.None? ==> forall i :: !HasHash(rows, i, hash)
      ensures id.Some? ==> HasHash(rows, id.value, hash)
    {
      var found := set i | i in rows && rows[i].hash == hash;
      if found == {} {
        assert forall i :: HasHash(rows, i, hash) ==> i in found;
        return None;
      }
      var i :| i in found;
      id := Some(i);
    }

    /** The read of the absolute expiry, then the conditional update. */
    method TouchSession(id: Id, now: Time) returns (ok: bool)
      requires id in rows
      modifies this`rows
      ensures rows == Apply(old(rows), Touch(id, now)) && ok == Touchable(old(rows), id, now)
    {
      var idle := now + IDLE_TTL;
      if idle > rows[id].absolute {
        idle := rows[id].absolute;
      }
      ok := Touchable(rows, id, now);
      if ok {
        rows := rows[id := rows[id].(lastSeen := now, idle := idle)];
      }
    }

    /** secret is the cookie's value and hash its digest; others land after the row was read. */
    method Resolve(secret: string, hash: string, now: Time, others: seq<Write>) returns (out: Outcome)
      requires RowsHold(rows)
      modifies this`rows
      ensures secret == "" ==> out == Unauthenticated && rows == old(rows)
      ensures secret != "" ==> (rows, out) == ResolveEffect(old(rows), users, hash, now, others)
    {
      if secret == "" {
        return Unauthenticated;
      }
      var found := FindBySecretHash(hash);
      if found.None? {
        rows := RunWrites(rows, others);
        return SessionRevoked;
      }
      hide Apply, RunWrites, RowsHold, HasHash, ResolveEffect;
      var id := found.value;
      ResolveFinds(rows, users, id, hash, now, others);
      FoundIn(rows, id, hash);
      var row := rows[id];
      rows := RunWrites(rows, others);
      var active := id != "" && now < row.idle && now < row.absolute;
      if row.revoked.Some? || !active {
        return SessionRevoked;
      }
      if row.user !in users {
        return SessionRevoked;
      }
      var user := users[row.user];
      if user.status == Disabled {
        return UserDisabled;
      }
      if user.status != Active || !user.verified {
        return UserNotActive;
      }
      KeptRows(old(rows), others, id);
      var ok := TouchSession(id, now);
      KeptRow(RunWrites(old(rows), others), Touch(id, now), id);
      out := if ok then Resolved(row.user, rows[id]) else SessionRevoked;
    }

    /** Both revocations are attempted, whether or not the other fails, and the failures joined. */
    method Logout(id: Id, now: Time, sessionFails: bool, tokenFails: bool) returns (r: Revocation)
      modifies this`rows, tokens
      ensures r == if id == "" then NotAuthenticated else Attempted(sessionFails, tokenFails)
      ensures rows == if id == "" || sessionFails then old(rows) else Apply(old(rows), RevokeOne(id, now))
      ensures tokens.db == if id == "" || tokenFails then old(tokens.db) else Revoke(old(tokens.db), SessionsOfLogin(old(tokens.db), id), now)
    {
      if id == "" {
        return NotAuthenticated;
      }
      if !sessionFails {
        if id in rows && rows[id].revoked.None? {
          rows := rows[id := rows[id].(revoked := Some(now))];
        }
        assert rows == Apply(old(rows), RevokeOne(id, now));
      }
      if !tokenFails {
        tokens.RevokeForLoginSession(id, now);
      }
      r := Attempted(sessionFails, tokenFails);
    }

    method RevokeOthersForUser(user: Id, keep: Id, now: Time, sessionFails: bool, tokenFails: bool) returns (r: Revocation)
      modifies this`rows, tokens
      ensures r == if user == "" || keep == "" then NotAuthenticated else Attempted(sessionFails, tokenFails)
      ensures rows == if user == "" || keep == "" || sessionFails then old(rows) else Apply(old(rows), RevokeOthers(user, keep, now))
      ensures tokens.db ==
        if user == "" || keep == "" || tokenFails then old(tokens.db) else Revoke(old(tokens.db), SessionsOfUser(old(tokens.db), user), now)
    {
      if user == "" || keep == "" {
        return NotAuthenticated;
      }
      if !sessionFails {
        rows := map i | i in rows ::
          if rows[i].user == user && i != keep && rows[i].revoked.None? then rows[i].(revoked := Some(now)) else rows[i];
        assert rows == Apply(old(rows), RevokeOthers(user, keep, now));
      }
      if !tokenFails {
        tokens.RevokeAllForUser(user, now);
      }
      r := Attempted(sessionFails, tokenFails);
    }

    method RevokeAllForUser(user: Id, now: Time, sessionFails: bool, tokenFails: bool) returns (r: Revocation)
      modifies this`rows, tokens
      ensures r == if user == "" then NotAuthenticated else Attempted(sessionFails, tokenFails)
      ensures rows == if user == "" || sessionFails then old(rows) else Apply(old(rows), RevokeUser(user, now))
      ensures tokens.db == if user == "" || tokenFails then old(tokens.db) else Revoke(old(tokens.db), SessionsOfUser(old(tokens.db), user), now)
    {
      if user == "" {
        return NotAuthenticated;
      }
      if !sessionFails {
        rows := map i | i in rows ::
          if rows[i].user == user && rows[i].revoked.None? then rows[i].(revoked := Some(now)) else rows[i];
        assert rows == Apply(old(rows), RevokeUser(user, now));
      }
      if !tokenFails {
        tokens.RevokeAllForUser(user, now);
      }
      r := Attempted(sessionFails, tokenFails);
    }
  }

  lemma FoundIn(rows: Rows, id: Id, hash: string)
    requires HasHash(rows, id, hash)
    ensures id in rows
  {
  }

  lemma KeptRow(rows: Rows, w: Write, id: Id)
    requires id in rows
    ensures id in Apply(rows, w)
  {
  }

  lemma {:induction false} KeptRows(rows: Rows, ws: seq<Write>, id: Id)
    requires id in rows
    ensures id in RunWrites(rows, ws)
    decreases |ws|
  {
    if ws != [] {
      KeptRow(rows, ws[0], id);
      KeptRows(Apply(rows, ws[0]), ws[1..], id);
    }
  }

  /** A call that reads an unrevoked session still fails when a revocation lands before its touch. */
  lemma RevocationBeatsResolve(rows: Rows, users: map<Id, UserView>, hash: string, now: Time, others: seq<Write>, id: Id)
    requires RowsHold(rows) && HasHash(rows, id, hash)
    requires exists w :: w in others && Revokes(rows[id], id, w)
    ensures !ResolveEffect(rows, users, hash, now, others).1.Resolved?
    ensures id in RunWrites(rows, others) && RunWrites(rows, others)[id].revoked.Some?
  {
    RevokedInRun(rows, others, id);
    ResolveFinds(rows, users, id, hash, now, others);
    hide RunWrites, Apply;
  }

  lemma {:induction false} RevokedInRun(rows: Rows, ws: seq<Write>, id: Id)
    requires id in rows && exists w :: w in ws && Revokes(rows[id], id, w)
    ensures id in RunWrites(rows, ws) && RunWrites(rows, ws)[id].revoked.Some?
    decreases |ws|
  {
    var next := Apply(rows, ws[0]);
    if Revokes(rows[id], id, ws[0]) {
      RevokedForever(next, ws[1..], id);
    } else {
      var w :| w in ws && Revokes(rows[id], id, w);
      assert w in ws[1..] && Revokes(next[id], id, w);
      RevokedInRun(next, ws[1..], id);
    }
  }

  /** Left alone, a resolve succeeds exactly for an unrevoked, unexpired session of an active and verified user. */
  lemma ResolvesExactlyWhen(rows: Rows, users: map<Id, UserView>, hash: string, now: Time)
    requires RowsHold(rows)
    ensures ResolveEffect(rows, users, hash, now, []).1.Resolved? <==>
      exists i :: HasHash(rows, i, hash) && i != "" && Touchable(rows, i, now)
        && rows[i].user in users && users[rows[i].user] == UserView(Active, true)
  {
    hide Apply;
    if id :| HasHash(rows, id, hash) {
      ResolveFinds(rows, users, id, hash, now, []);
      assert forall i :: HasHash(rows, i, hash) ==> i == id;
    }
  }
}
