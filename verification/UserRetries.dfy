/** Repeating a call whose session revocation failed: disabling a user, and resetting a password. */
module UserRetries {
  import opened Options
  import opened TokenStore
  import opened TokenTheorems
  import opened LoginSessions
  import opened UserAggregate
  import opened UserTheorems
  import opened UserServer

  /** No login session of the user is live, and no token session or token of the user is unrevoked. */
  ghost predicate AllRevoked(w: World, user: Id) {
    && (forall i | i in w.rows && w.rows[i].user == user :: w.rows[i].revoked.Some?)
    && (forall i | i in w.tokens.sessions && w.tokens.sessions[i].user == user :: WholeSessionRevoked(w.tokens, i))
  }

  lemma RevokingRevokesAll(w: World, user: Id, now: Time)
    requires user != ""
    ensures AllRevoked(Revoking(w, user, now, false, false), user)
  {
  }

  /** Disabling is answered as done only when everything of the user was revoked. */
  lemma DisabledMeansRevoked(w: World, user: Id, expected: string, etag: string, now: Time, mid: System, sessionFails: bool, tokenFails: bool)
    requires Inv(w.sys)
    requires StatusCall(w, user, expected, true, etag, now, mid, sessionFails, tokenFails).1 == Updated
    ensures AllRevoked(StatusCall(w, user, expected, true, etag, now, mid, sessionFails, tokenFails).0, user)
  {
    hide AllRevoked, Revoking, Next, StatusLands;
    var seen := w.sys.t.users[user];
    var written := w.(sys := if seen.status == Disabled then Next(w.sys, Look(user)) else Next(mid, SetStatus(user, seen, true, etag, now)));
    RevokingRevokesAll(written, user, now);
  }

  /** The state a disabling leaves that could not revoke: the user is disabled, under the etag the call wrote, or the one it had. */
  lemma AfterFailedRevocation(w: World, user: Id, expected: string, etag: string, now: Time, mid: System, sessionFails: bool, tokenFails: bool)
    requires Inv(w.sys) && StatusCall(w, user, expected, true, etag, now, mid, sessionFails, tokenFails).1 == RevocationFailed
    ensures var next := StatusCall(w, user, expected, true, etag, now, mid, sessionFails, tokenFails).0.sys;
      && user in w.sys.t.users && user in next.t.users
      && next.t.users[user] == UserRow(Disabled, if w.sys.t.users[user].status == Disabled then w.sys.t.users[user].etag else etag)
  {
    hide Revoking, Inv;
  }

  /**
    After a disabling that landed but could not revoke, disabling again, left alone and with nothing
    failing, revokes everything exactly when it expects no etag or the one the first call left; expecting
    any other, it is refused and changes nothing.
   */
  lemma RepeatedDisable(w: World, user: Id, expected: string, etag: string, now: Time, mid: System, sessionFails: bool, tokenFails: bool,
                        again: string, etag2: string, later: Time, mid2: System)
    requires Inv(w.sys) && StatusCall(w, user, expected, true, etag, now, mid, sessionFails, tokenFails).1 == RevocationFailed
    ensures user in w.sys.t.users
    ensures var first := StatusCall(w, user, expected, true, etag, now, mid, sessionFails, tokenFails).0;
      var (second, out) := StatusCall(first, user, again, true, etag2, later, mid2, false, false);
      var left := if w.sys.t.users[user].status == Disabled then w.sys.t.users[user].etag else etag;
      && (out == Updated <==> again == "" || again == left)
      && (out == Updated ==> AllRevoked(second, user))
      && (out != Updated ==> out == EtagMismatch && second == first)
  {
    AfterFailedRevocation(w, user, expected, etag, now, mid, sessionFails, tokenFails);
    var first := StatusCall(w, user, expected, true, etag, now, mid, sessionFails, tokenFails).0;
    assert user != "" by {
      assert OneAuthEach(w.sys.t);
    }
    RevokingRevokesAll(first.(sys := Next(first.sys, Look(user))), user, later);
    hide AllRevoked, Revoking, Next, Inv, StatusLands;
  }

  /**
    The same call again, word for word: it finishes the job exactly when it expects no etag, or when the
    user had been disabled before the first call. A caller that named the etag of an active user is
    refused, because the first call has replaced it.
   */
  lemma IdenticalDisable(w: World, user: Id, expected: string, etag: string, now: Time, mid: System, others: seq<Event>,
                         sessionFails: bool, tokenFails: bool, etag2: string, later: Time, mid2: System)
    requires Inv(w.sys) && mid == UserAggregate.Run(Next(w.sys, Look(user)), others)
    requires StatusCall(w, user, expected, true, etag, now, mid, sessionFails, tokenFails).1 == RevocationFailed
    ensures user in w.sys.t.users
    ensures var first := StatusCall(w, user, expected, true, etag, now, mid, sessionFails, tokenFails).0;
      var (second, out) := StatusCall(first, user, expected, true, etag2, later, mid2, false, false);
      && (out == Updated <==> expected == "" || w.sys.t.users[user].status == Disabled)
      && (out == Updated ==> AllRevoked(second, user))
      && (out != Updated ==> out == EtagMismatch && second == first)
  {
    RepeatedDisable(w, user, expected, etag, now, mid, sessionFails, tokenFails, expected, etag2, later, mid2);
    if w.sys.t.users[user].status != Disabled && expected != "" {
      UserAggregate.StepKeepsInv(w.sys, Look(user));
      UserAggregate.RunKeepsInv(Next(w.sys, Look(user)), others);
      assert StatusLands(mid, user, w.sys.t.users[user], true, etag);
      assert HeldCurrent(mid) && expected == w.sys.t.users[user].etag;
      hide StatusCall, Inv, UserAggregate.Run, Next;
      assert expected in mid.spent;
    }
  }

  /** An active user, one login session, and the same call twice: the second is refused and the session stays. */
  lemma IdenticalDisableExample()
    ensures exists w: World, user: Id, e: string, mid: System ::
      var first := StatusCall(w, user, e, true, "e1", 5, mid, true, true);
      var second := StatusCall(first.0, user, e, true, "e2", 6, mid, false, false);
      && Inv(w.sys) && mid == Next(w.sys, Look(user)) && first.1 == RevocationFailed && second.1 == EtagMismatch
      && exists i :: i in second.0.rows && second.0.rows[i].user == user && second.0.rows[i].revoked.None?
  {
    var sys := ExampleAdmin();
    var mid := Next(sys, Look("u"));
    var session := LoginRow("u", "s", 1, 1, 1 + IDLE_TTL, 1 + ABSOLUTE_TTL, None);
    var w := World(sys, map["l" := session], Store(map[], map[], map[], map[], map[], {"u"}));
    assert StatusLands(mid, "u", UserRow(Active, "e0"), true, "e1");
    assert UserAggregate.Run(mid, []) == mid;
    hide Inv, Next, StatusLands, UserAggregate.Run;
    var first := StatusCall(w, "u", "e0", true, "e1", 5, mid, true, true);
    assert first.1 == RevocationFailed && first.0.rows == w.rows;
    IdenticalDisable(w, "u", "e0", "e1", 5, mid, [], true, true, "e2", 6, mid);
    var second := StatusCall(first.0, "u", "e0", true, "e2", 6, mid, false, false);
    hide StatusCall;
    assert second == (first.0, EtagMismatch);
    assert "l" in second.0.rows && second.0.rows["l"].user == "u" && second.0.rows["l"].revoked.None?;
  }

  /** One active user "u" with etag "e0". */
  lemma ExampleAdmin() returns (sys: System)
    ensures Inv(sys) && "u" in sys.t.users && sys.t.users["u"] == UserRow(Active, "e0") && sys.spent == {"e0"}
  {
    var made := NewUser("u", "i", "a", "mail", "h", "e0");
    sys := Next(EMPTY, InitialAdmin(made, 1));
    EmptyHolds();
    UserAggregate.StepKeepsInv(EMPTY, InitialAdmin(made, 1));
  }

  lemma EmptyHolds()
    ensures Inv(EMPTY)
  {
  }

  // Resets.

  lemma {:induction false} SpentThrough(sys: System, evs: seq<Event>, id: Id)
    requires Inv(sys) && Spent(sys.t, id)
    ensures var later := UserAggregate.Run(sys, evs);
      Inv(later) && Spent(later.t, id) && later.t.resets[id].hash == sys.t.resets[id].hash
    decreases |evs|
  {
    if evs != [] {
      SpentStays(sys, evs[0], id);
      StepTokens(sys, evs[0]);
      UserAggregate.StepKeepsInv(sys, evs[0]);
      hide Inv, Next;
      SpentThrough(Next(sys, evs[0]), evs[1..], id);
    }
  }

  /**
    A reset that set the password but could not revoke cannot be repeated: at any later time the token is
    answered as invalid, and neither the tables nor any session changes.
   */
  lemma ResetNotRepeatable(w: World, token: string, hash: string, passwordHash: string, now: Time, sessionFails: bool, tokenFails: bool,
                           evs: seq<Event>, rows: Rows, tokens: Store, password2: string, later: Time, sessionFails2: bool, tokenFails2: bool)
    requires Inv(w.sys) && ResetCall(w, token, hash, passwordHash, now, sessionFails, tokenFails).1 == RevocationIncomplete
    ensures var first := ResetCall(w, token, hash, passwordHash, now, sessionFails, tokenFails).0;
      var afterwards := World(UserAggregate.Run(first.sys, evs), rows, tokens);
      ResetCall(afterwards, token, hash, password2, later, sessionFails2, tokenFails2) == (afterwards, InvalidToken)
  {
    hide ResetCall, ResetMatches, Next, Inv, UserAggregate.Run, Revoking;
    var i := ResetWasLive(w, token, hash, passwordHash, now, sessionFails, tokenFails);
    var written := Next(w.sys, Reset(i, passwordHash, now));
    SpentThrough(written, evs, i);
    SpentMatchesNone(UserAggregate.Run(written, evs), hash, later, i);
    NoMatchIsInvalid(World(UserAggregate.Run(written, evs), rows, tokens), token, hash, password2, later, sessionFails2, tokenFails2);
  }

  lemma ResetWasLive(w: World, token: string, hash: string, passwordHash: string, now: Time, sessionFails: bool, tokenFails: bool) returns (i: Id)
    requires Inv(w.sys) && ResetCall(w, token, hash, passwordHash, now, sessionFails, tokenFails).1 == RevocationIncomplete
    ensures var written := Next(w.sys, Reset(i, passwordHash, now));
      && ResetCall(w, token, hash, passwordHash, now, sessionFails, tokenFails).0.sys == written
      && Inv(written) && Spent(written.t, i) && written.t.resets[i].hash == hash
  {
    hide ResetLands;
    i :| ResetMatches(w.sys, hash, now, i);
    assert UniqueTokens(w.sys.t.resets);
    ResetFinds(w, token, hash, passwordHash, now, sessionFails, tokenFails, i);
    UserAggregate.StepKeepsInv(w.sys, Reset(i, passwordHash, now));
    LandedIsSpent(w.sys, i, passwordHash, now);
    hide Inv, ResetCall, Revoking, Next;
  }

  lemma LandedIsSpent(sys: System, i: Id, passwordHash: string, now: Time)
    requires ResetLands(sys.t, i, now)
    ensures var t := Next(sys, Reset(i, passwordHash, now)).t; Spent(t, i) && t.resets[i].hash == sys.t.resets[i].hash
  {
  }

  lemma SpentMatchesNone(sys: System, hash: string, now: Time, i: Id)
    requires Inv(sys) && Spent(sys.t, i) && sys.t.resets[i].hash == hash
    ensures forall j :: !ResetMatches(sys, hash, now, j)
  {
    assert UniqueTokens(sys.t.resets);
    hide Inv;
  }

  lemma NoMatchIsInvalid(w: World, token: string, hash: string, passwordHash: string, now: Time, sessionFails: bool, tokenFails: bool)
    requires forall j :: !ResetMatches(w.sys, hash, now, j)
    ensures ResetCall(w, token, hash, passwordHash, now, sessionFails, tokenFails) == (w, InvalidToken)
  {
  }
}
