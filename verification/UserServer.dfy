/** The repositories and use cases that write the account tables, statement by statement. */
module UserServer {
  import opened Options
  import opened TokenStore
  import opened TokenServer
  import opened LoginSessions
  import opened UserAggregate

  datatype StatusOutcome = Updated | UserMissing | InvalidState | EtagMismatch | RevocationFailed

  datatype ResetOutcome = PasswordSet | InvalidToken | RevocationIncomplete

  /** What the calls write: the account tables, the login sessions and the token tables. */
  datatype World = World(sys: System, rows: Rows, tokens: Store)

  /** Both revocations are attempted; each part that does not fail takes effect. */
  function Revoking(w: World, user: Id, now: Time, sessionFails: bool, tokenFails: bool): (r: World)
    ensures r.sys == w.sys && (sessionFails ==> r.rows == w.rows) && (tokenFails ==> r.tokens == w.tokens)
  {
    w.(rows := if sessionFails then w.rows else Apply(w.rows, RevokeUser(user, now)),
       tokens := if tokenFails then w.tokens else Revoke(w.tokens, SessionsOfUser(w.tokens, user), now))
  }

  /** The call from its write on: a user that is disabled already is not written, but its sessions are revoked again. */
  ghost function StatusWrite(w: World, user: Id, seen: UserRow, disable: bool, etag: string, now: Time, mid: System,
                             sessionFails: bool, tokenFails: bool): (World, StatusOutcome)
  {
    var skipped := disable && seen.status == Disabled;
    if !skipped && !StatusLands(mid, user, seen, disable, etag) then (w.(sys := mid), EtagMismatch)
    else
      var written := w.(sys := if skipped then Next(w.sys, Look(user)) else Next(mid, SetStatus(user, seen, disable, etag, now)));
      if !disable then (written, Updated)
      else (Revoking(written, user, now, sessionFails, tokenFails), if sessionFails || tokenFails then RevocationFailed else Updated)
  }

  ghost function StatusCall(w: World, user: Id, expected: string, disable: bool, etag: string, now: Time, mid: System,
                            sessionFails: bool, tokenFails: bool): (World, StatusOutcome)
  {
    if user !in w.sys.t.users then (w, UserMissing) else
    var seen := w.sys.t.users[user];
    if !disable && seen.status != Disabled then (w, InvalidState)
    else if expected != "" && expected != seen.etag then (w, EtagMismatch)
    else StatusWrite(w, user, seen, disable, etag, now, mid, sessionFails, tokenFails)
  }

  ghost predicate ResetMatches(sys: System, hash: string, now: Time, i: Id) {
    i in sys.t.resets && sys.t.resets[i].hash == hash && ResetLands(sys.t, i, now)
  }

  ghost function ResetCall(w: World, token: string, hash: string, passwordHash: string, now: Time, sessionFails: bool, tokenFails: bool)
    : (World, ResetOutcome)
  {
    if token == "" || !exists i :: ResetMatches(w.sys, hash, now, i) then (w, InvalidToken) else
    var i :| ResetMatches(w.sys, hash, now, i);
    var user := w.sys.t.resets[i].user;
    var written := w.(sys := Next(w.sys, Reset(i, passwordHash, now)));
    if user == "" then (written, RevocationIncomplete)
    else (Revoking(written, user, now, sessionFails, tokenFails), if sessionFails || tokenFails then RevocationIncomplete else PasswordSet)
  }

  lemma ResetFinds(w: World, token: string, hash: string, passwordHash: string, now: Time, sessionFails: bool, tokenFails: bool, i: Id)
    requires UniqueTokens(w.sys.t.resets) && token != "" && ResetMatches(w.sys, hash, now, i)
    ensures ResetCall(w, token, hash, passwordHash, now, sessionFails, tokenFails) ==
      var user := w.sys.t.resets[i].user;
      var written := w.(sys := Next(w.sys, Reset(i, passwordHash, now)));
      if user == "" then (written, RevocationIncomplete)
      else (Revoking(written, user, now, sessionFails, tokenFails), if sessionFails || tokenFails then RevocationIncomplete else PasswordSet)
  {
    hide Next, Revoking, ResetLands;
    assert forall j :: ResetMatches(w.sys, hash, now, j) ==> j == i;
  }

  class Accounts {
    var sys: System
    const sessions: Sessions

    constructor (loginSessions: Sessions)
      ensures sys == EMPTY && sessions == loginSessions
    {
      sys, sessions := EMPTY, loginSessions;
    }

    /** One transaction: the conditional update of the user row, then every authenticator of the user. */
    method UpdateStatus(user: Id, seen: UserRow, disable: bool, etag: string, now: Time) returns (ok: bool)
      requires (user, seen) in sys.held && (disable || seen.status == Disabled) && etag !in sys.spent
      modifies this`sys
      ensures sys == Next(old(sys), SetStatus(user, seen, disable, etag, now))
      ensures ok <==> StatusLands(old(sys), user, seen, disable, etag)
      ensures !ok ==> sys == old(sys)
    {
      var tx := sys.t;
      if user !in tx.users || tx.users[user].etag != seen.etag {
        return false;
      }
      tx := tx.(users := tx.users[user := UserRow(if disable then Disabled else Active, etag)]);
      if disable {
        tx := tx.(auths := map a | a in tx.auths ::
          if tx.auths[a].user == user then tx.auths[a].(enabled := false, revoked := Some(now)) else tx.auths[a]);
      } else {
        tx := tx.(auths := map a | a in tx.auths ::
          if tx.auths[a].user == user then tx.auths[a].(enabled := true, revoked := None) else tx.auths[a]);
      }
      sys := sys.(t := tx, spent := sys.spent + {etag});
      ok := true;
    }

    /** The email row is found first; the transaction activates a pending user and verifies that email. */
    method ActivateEmail(user: Id, etag: string, now: Time) returns (ok: bool)
      requires OneEmailEach(sys.t) && etag !in sys.spent
      modifies this`sys
      ensures sys == Next(old(sys), Event.ActivateEmail(user, etag, now))
      ensures ok <==> ActivationLands(old(sys), user, etag)
    {
      var found := set e | e in sys.t.emails && sys.t.emails[e].user == user;
      assert forall e :: OwnsEmail(sys.t, user, e) <==> e in found;
      if found == {} {
        return false;
      }
      var email :| email in found;
      var tx := sys.t;
      if user !in tx.users || tx.users[user].status != Pending {
        return false;
      }
      tx := tx.(users := tx.users[user := UserRow(Active, etag)]);
      tx := tx.(emails := tx.emails[email := tx.emails[email].(verified := Some(now))]);
      assert OwnsEmail(sys.t, user, email);
      sys := sys.(t := tx, spent := sys.spent + {etag});
      ok := true;
    }

    method FindToken(tokens: map<Id, Token>, hash: string) returns (id: Option<Id>)
      ensures id.None? ==> forall i | i in tokens :: tokens[i].hash != hash
      ensures id.Some? ==> id.value in tokens && tokens[id.value].hash == hash
    {
      var found := set i | i in tokens && tokens[i].hash == hash;
      if found == {} {
        assert forall i | i in tokens && tokens[i].hash == hash :: i in found;
        return None;
      }
      var i :| i in found;
      id := Some(i);
    }

    /**
      The token is looked up first and then consumed by a conditional update; mid holds the tables when
      that update runs, after others' transactions.
     */
    method ConsumeVerification(hash: string, now: Time, mid: System, ghost others: seq<Event>)
      returns (user: Option<Id>, ghost id: Id)
      requires Inv(sys) && mid == UserAggregate.Run(sys, others)
      modifies this`sys
      ensures user.None? ==> sys == old(sys) || sys == mid
      ensures user.Some? ==>
        id in old(sys).t.verifications && old(sys).t.verifications[id].hash == hash && user.value == old(sys).t.verifications[id].user
      ensures user.Some? ==> Consumable(mid.t.verifications, id, now) && sys == Next(mid, Event.ConsumeVerification(id, now))
      ensures forall i | i in old(sys).t.verifications && old(sys).t.verifications[i].hash == hash && mid == old(sys) ::
        user.Some? <==> Consumable(mid.t.verifications, i, now)
    {
      user, id := None, "";
      var found := FindToken(sys.t.verifications, hash);
      if found.None? {
        return;
      }
      id := found.value;
      var entity := sys.t.verifications[found.value];
      assert forall i | i in sys.t.verifications && sys.t.verifications[i].hash == hash :: i == id;
      if entity.consumed.Some? || now >= entity.expires {
        return;
      }
      KeptVerification(sys, others, found.value);
      hide Inv, UserAggregate.Run;
      sys := mid;
      var current := mid.t.verifications[found.value];
      if current.consumed.Some? || now >= current.expires {
        return;
      }
      sys := sys.(t := sys.t.(verifications := sys.t.verifications[found.value := current.(consumed := Some(now))]));
      user := Some(current.user);
    }

    /**
      The token is looked up first; mid holds the tables when the transaction begins, after others' transactions.
      The password is written before the token is consumed, and rolled back when that misses.
     */
    method ConsumeAndReplacePassword(hash: string, passwordHash: string, now: Time, mid: System, ghost others: seq<Event>)
      returns (user: Option<Id>, ghost id: Id)
      requires Inv(sys) && mid == UserAggregate.Run(sys, others)
      modifies this`sys
      ensures user.None? ==> sys == old(sys) || sys == mid
      ensures user.Some? ==> id in old(sys).t.resets && old(sys).t.resets[id].hash == hash && user.value == old(sys).t.resets[id].user
      ensures user.Some? ==> ResetLands(mid.t, id, now) && sys == Next(mid, Reset(id, passwordHash, now))
      ensures forall i | i in old(sys).t.resets && old(sys).t.resets[i].hash == hash && mid == old(sys) :: user.Some? <==> ResetLands(mid.t, i, now)
    {
      user, id := None, "";
      var found := FindToken(sys.t.resets, hash);
      if found.None? {
        return;
      }
      id := found.value;
      var entity := sys.t.resets[found.value];
      assert forall i | i in sys.t.resets && sys.t.resets[i].hash == hash :: i == id;
      if entity.consumed.Some? || now >= entity.expires {
        return;
      }
      KeptToken(sys, others, found.value);
      RunKeepsInv(sys, others);
      hide Inv, Next, UserAggregate.Run, OneEmailEach, AuthFollowsStatus, PendingUnverified, HeldCurrent;
      sys := mid;
      var done;
      var tx := mid.t;
      tx, done := ResetInTx(tx, found.value, entity.user, passwordHash, now);
      if done {
        NextReset(mid, found.value, passwordHash, now);
        sys := mid.(t := tx);
        user := Some(entity.user);
      }
    }

    /** The statements of the transaction, on its own copy of the tables. */
    method ResetInTx(t: Tables, id: Id, user: Id, passwordHash: string, now: Time) returns (tx: Tables, ok: bool)
      requires id in t.resets && t.resets[id].user == user
      requires forall a, b | OwnsAuth(t, user, a) && OwnsAuth(t, user, b) :: a == b
      ensures ok <==> ResetLands(t, id, now)
      ensures ok ==> tx == ResetPassword(t, id, passwordHash, now)
    {
      tx, ok := t, false;
      var active := set a | a in tx.auths && ActivePassword(tx, user, a);
      assert forall a :: ActivePassword(t, user, a) <==> a in active;
      if active == {} {
        return;
      }
      var auth :| auth in active;
      assert ActivePassword(t, user, auth);
      tx := tx.(auths := tx.auths[auth := tx.auths[auth].(hash := passwordHash)]);
      if tx.resets[id].consumed.Some? || now >= tx.resets[id].expires {
        return;
      }
      tx := tx.(resets := tx.resets[id := tx.resets[id].(consumed := Some(now))]);
      ok := true;
    }

    method ReplacePassword(user: Id, auth: Id, passwordHash: string) returns (ok: bool)
      modifies this`sys
      ensures sys == Next(old(sys), Event.ReplacePassword(user, auth, passwordHash))
      ensures ok <==> ActivePassword(old(sys).t, user, auth)
    {
      if auth !in sys.t.auths {
        return false;
      }
      var row := sys.t.auths[auth];
      if row.user != user || !row.enabled || row.revoked.Some? {
        return false;
      }
      sys := sys.(t := sys.t.(auths := sys.t.auths[auth := row.(hash := passwordHash)]));
      ok := true;
    }

    /**
      Enabling or disabling by an administrator. mid holds the tables when the update's transaction begins.
      Disabling revokes all the user's sessions afterwards, also when the user was disabled already. Whether
      repeating a call that failed to revoke finishes it depends on the etag expected: UserRetries.RepeatedDisable.
     */
    method ChangeStatus(user: Id, expected: string, disable: bool, etag: string, now: Time, mid: System, ghost others: seq<Event>,
                        sessionFails: bool, tokenFails: bool)
      returns (out: StatusOutcome)
      requires Inv(sys) && etag !in mid.spent
      requires mid == UserAggregate.Run(Next(sys, Look(user)), others)
      modifies this`sys, sessions`rows, sessions.tokens
      ensures (World(sys, sessions.rows, sessions.tokens.db), out) ==
        StatusCall(old(World(sys, sessions.rows, sessions.tokens.db)), user, expected, disable, etag, now, mid, sessionFails, tokenFails)
      ensures user !in old(sys).t.users ==> out == UserMissing
      ensures user in old(sys).t.users ==>
        var seen := old(sys).t.users[user];
        if !disable && seen.status != Disabled then out == InvalidState
        else if expected != "" && expected != seen.etag then out == EtagMismatch
        else if disable && seen.status == Disabled then
          sys == Next(old(sys), Look(user)) && out == if sessionFails || tokenFails then RevocationFailed else Updated
        else if !StatusLands(mid, user, seen, disable, etag) then sys == mid && out == EtagMismatch
        else
          && sys == Next(mid, SetStatus(user, seen, disable, etag, now))
          && out == if disable && (sessionFails || tokenFails) then RevocationFailed else Updated
      ensures sessions.rows ==
        if disable && out in {Updated, RevocationFailed} && !sessionFails then Apply(old(sessions.rows), RevokeUser(user, now)) else old(sessions.rows)
      ensures sessions.tokens.db ==
        if disable && out in {Updated, RevocationFailed} && !tokenFails
        then Revoke(old(sessions.tokens.db), SessionsOfUser(old(sessions.tokens.db), user), now) else old(sessions.tokens.db)
    {
      assert "" !in sys.t.users by {
        assert OneAuthEach(sys.t);
      }
      ghost var before := World(sys, sessions.rows, sessions.tokens.db);
      hide Inv, Next, StatusLands, Apply, Revoke, SessionsOfUser;
      if user !in sys.t.users {
        return UserMissing;
      }
      var current := sys.t.users[user];
      if !disable && current.status != Disabled {
        return InvalidState;
      }
      if expected != "" && expected != current.etag {
        return EtagMismatch;
      }
      WriteCases(before, user, current, disable, etag, now, mid, sessionFails, tokenFails);
      hide StatusWrite;
      out := WriteStatus(user, current, disable, etag, now, mid, others, sessionFails, tokenFails);
    }

    method WriteStatus(user: Id, current: UserRow, disable: bool, etag: string, now: Time, mid: System, ghost others: seq<Event>,
                       sessionFails: bool, tokenFails: bool)
      returns (out: StatusOutcome)
      requires etag !in mid.spent && user != "" && user in sys.t.users && sys.t.users[user] == current && (disable || current.status == Disabled)
      requires mid == UserAggregate.Run(Next(sys, Look(user)), others)
      modifies this`sys, sessions`rows, sessions.tokens
      ensures (World(sys, sessions.rows, sessions.tokens.db), out) ==
        StatusWrite(old(World(sys, sessions.rows, sessions.tokens.db)), user, current, disable, etag, now, mid, sessionFails, tokenFails)
    {
      LookIs(sys, user);
      hide Next, StatusLands, UserAggregate.Run, Apply, Revoke, SessionsOfUser;
      ghost var looked := Next(sys, Look(user));
      sys := sys.(held := sys.held + {(user, current)});
      if !disable || current.status != Disabled {
        StillHeld(looked, others, (user, current));
        sys := mid;
        var ok := UpdateStatus(user, current, disable, etag, now);
        if !ok {
          return EtagMismatch;
        }
      }
      if !disable {
        return Updated;
      }
      var revoked := sessions.RevokeAllForUser(user, now, sessionFails, tokenFails);
      out := if revoked == Attempted(false, false) then Updated else RevocationFailed;
    }

    /**
      A reset that set the password but could not revoke the sessions reports an error, and cannot be
      repeated to revoke them, because its token is consumed: UserRetries.ResetNotRepeatable.
     */
    method ConfirmPasswordReset(token: string, hash: string, passwordHash: string, now: Time, sessionFails: bool, tokenFails: bool)
      returns (out: ResetOutcome, ghost id: Id)
      requires Inv(sys)
      modifies this`sys, sessions`rows, sessions.tokens
      ensures (World(sys, sessions.rows, sessions.tokens.db), out) ==
        ResetCall(old(World(sys, sessions.rows, sessions.tokens.db)), token, hash, passwordHash, now, sessionFails, tokenFails)
      ensures out == InvalidToken ==> sys == old(sys) && sessions.rows == old(sessions.rows) && sessions.tokens.db == old(sessions.tokens.db)
      ensures out != InvalidToken ==> ResetLands(old(sys).t, id, now) && old(sys).t.resets[id].hash == hash && sys == Next(old(sys), Reset(id, passwordHash, now))
      ensures token != "" ==> forall i | i in old(sys).t.resets && old(sys).t.resets[i].hash == hash :: out != InvalidToken <==> ResetLands(old(sys).t, i, now)
      ensures out != InvalidToken && old(sys).t.resets[id].user != "" ==>
        var user := old(sys).t.resets[id].user;
        && (out == PasswordSet <==> !sessionFails && !tokenFails)
        && sessions.rows == (if sessionFails then old(sessions.rows) else Apply(old(sessions.rows), RevokeUser(user, now)))
        && sessions.tokens.db == (if tokenFails then old(sessions.tokens.db)
             else Revoke(old(sessions.tokens.db), SessionsOfUser(old(sessions.tokens.db), user), now))
    {
      id := "";
      if token == "" {
        return InvalidToken, id;
      }
      ghost var before := World(sys, sessions.rows, sessions.tokens.db);
      var user;
      user, id := ConsumeAndReplacePassword(hash, passwordHash, now, sys, []);
      if user.None? {
        assert forall i :: !ResetMatches(before.sys, hash, now, i);
        return InvalidToken, id;
      }
      ResetFinds(before, token, hash, passwordHash, now, sessionFails, tokenFails, id);
      hide ResetCall, Next;
      var revoked := sessions.RevokeAllForUser(user.value, now, sessionFails, tokenFails);
      out := if revoked == Attempted(false, false) then PasswordSet else RevocationIncomplete;
    }
  }

  lemma {:induction false} KeptVerification(sys: System, evs: seq<Event>, id: Id)
    requires id in sys.t.verifications
    ensures id in UserAggregate.Run(sys, evs).t.verifications
    ensures UserAggregate.Run(sys, evs).t.verifications[id].user == sys.t.verifications[id].user
    decreases |evs|
  {
    if evs != [] {
      StepTokens(sys, evs[0]);
      KeptVerification(Next(sys, evs[0]), evs[1..], id);
    }
  }

  lemma {:induction false} KeptToken(sys: System, evs: seq<Event>, id: Id)
    requires id in sys.t.resets
    ensures id in UserAggregate.Run(sys, evs).t.resets
    ensures UserAggregate.Run(sys, evs).t.resets[id].user == sys.t.resets[id].user
    decreases |evs|
  {
    if evs != [] {
      StepTokens(sys, evs[0]);
      KeptToken(Next(sys, evs[0]), evs[1..], id);
    }
  }

  lemma WriteCases(w: World, user: Id, seen: UserRow, disable: bool, etag: string, now: Time, mid: System, sessionFails: bool, tokenFails: bool)
    ensures var (after, out) := StatusWrite(w, user, seen, disable, etag, now, mid, sessionFails, tokenFails);
      && (if disable && seen.status == Disabled then
            after.sys == Next(w.sys, Look(user)) && out == if sessionFails || tokenFails then RevocationFailed else Updated
          else if !StatusLands(mid, user, seen, disable, etag) then after.sys == mid && out == EtagMismatch
          else
            && after.sys == Next(mid, SetStatus(user, seen, disable, etag, now))
            && out == if disable && (sessionFails || tokenFails) then RevocationFailed else Updated)
      && after.rows == (if disable && out != EtagMismatch && !sessionFails then Apply(w.rows, RevokeUser(user, now)) else w.rows)
      && after.tokens == (if disable && out != EtagMismatch && !tokenFails then Revoke(w.tokens, SessionsOfUser(w.tokens, user), now) else w.tokens)
  {
    hide Next, StatusLands, Apply, Revoke, SessionsOfUser;
  }

  lemma LookIs(sys: System, user: Id)
    ensures Next(sys, Look(user)) == if user in sys.t.users then sys.(held := sys.held + {(user, sys.t.users[user])}) else sys
  {
  }

  lemma NextReset(sys: System, id: Id, passwordHash: string, now: Time)
    ensures Next(sys, Reset(id, passwordHash, now)) == sys.(t := ResetPassword(sys.t, id, passwordHash, now))
  {
  }

  lemma {:induction false} StillHeld(sys: System, evs: seq<Event>, row: (Id, UserRow))
    requires row in sys.held
    ensures row in UserAggregate.Run(sys, evs).held
    decreases |evs|
  {
    if evs != [] {
      StillHeldStep(sys, evs[0], row);
      StillHeld(Next(sys, evs[0]), evs[1..], row);
    }
  }

  lemma StillHeldStep(sys: System, ev: Event, row: (Id, UserRow))
    requires row in sys.held
    ensures row in Next(sys, ev).held
  {
  }
}
