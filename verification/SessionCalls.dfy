/**
  Runs of calls that resolve one login session. Before each call, and after its read, other writes may
  land: touches by other calls, revocations, writes to other sessions. What each call answers, and what
  it leaves, is computed from the times and writes alone.
*/
module SessionCalls {
  import opened Options
  import opened TokenStore
  import opened LoginSessions

  /** before: writes since the previous call; users: what the call sees of the users; others: writes after its read. */
  datatype Call = Call(before: seq<Write>, users: map<Id, UserView>, now: Time, others: seq<Write>)

  ghost function CallEffect(rows: Rows, hash: string, c: Call): (Rows, Outcome) {
    ResolveEffect(RunWrites(rows, c.before), c.users, hash, c.now, c.others)
  }

  // What a run does, and what it should do.

  /** Which calls of a run resolve. */
  ghost function Resolutions(rows: Rows, hash: string, calls: seq<Call>): seq<bool>
    decreases |calls|
  {
    if calls == [] then []
    else [CallEffect(rows, hash, calls[0]).1.Resolved?] + Resolutions(CallEffect(rows, hash, calls[0]).0, hash, calls[1..])
  }

  /** What matters of a session: when it was last seen, and whether it is revoked. */
  datatype Life = Life(lastSeen: Time, revoked: bool)

  predicate Alive(life: Life, created: Time, now: Time) {
    !life.revoked && now - life.lastSeen < IDLE_TTL && now < created + ABSOLUTE_TTL
  }

  /** The session after other writes: a touch in time moves it, a revocation ends it. row tells its owner and age. */
  function Lived(life: Life, row: LoginRow, id: Id, ws: seq<Write>): Life
    decreases |ws|
  {
    if ws == [] then life
    else if Revokes(row, id, ws[0]) then Lived(life.(revoked := true), row, id, ws[1..])
    else if ws[0].Touch? && ws[0].id == id && Alive(life, row.created, ws[0].now) then Lived(Life(ws[0].now, false), row, id, ws[1..])
    else Lived(life, row, id, ws[1..])
  }

  /** The session when a call reads it, and when the call touches it. */
  function AtRead(life: Life, row: LoginRow, id: Id, c: Call): Life {
    Lived(life, row, id, c.before)
  }

  function AtTouch(life: Life, row: LoginRow, id: Id, c: Call): Life {
    Lived(AtRead(life, row, id, c), row, id, c.others)
  }

  /** The session is alive at the call's time both as read and as touched. */
  predicate InTime(life: Life, row: LoginRow, id: Id, c: Call) {
    Alive(AtRead(life, row, id, c), row.created, c.now) && Alive(AtTouch(life, row, id, c), row.created, c.now)
  }

  predicate Welcome(row: LoginRow, c: Call) {
    row.user in c.users && c.users[row.user] == UserView(Active, true)
  }

  predicate ShouldResolve(life: Life, row: LoginRow, id: Id, c: Call) {
    Welcome(row, c) && InTime(life, row, id, c)
  }

  /** A call that resolves has seen the session at its time; one that misses leaves what the others left. */
  function After(life: Life, row: LoginRow, id: Id, c: Call): Life {
    if ShouldResolve(life, row, id, c) then Life(c.now, false) else AtTouch(life, row, id, c)
  }

  function Expected(life: Life, row: LoginRow, id: Id, calls: seq<Call>): seq<bool>
    decreases |calls|
  {
    if calls == [] then []
    else [ShouldResolve(life, row, id, calls[0])] + Expected(After(life, row, id, calls[0]), row, id, calls[1..])
  }

  // The two agree on every run.

  /** The rows hold the session of the given owner, age and secret, in the given state of life. */
  ghost predicate HoldsSession(rows: Rows, id: Id, row: LoginRow, life: Life) {
    && RowsHold(rows) && id in rows && rows[id].lastSeen == life.lastSeen && (rows[id].revoked.Some? <==> life.revoked)
    && rows[id].user == row.user && rows[id].created == row.created && rows[id].hash == row.hash
  }

  lemma WriteLives(rows: Rows, w: Write, id: Id, row: LoginRow, life: Life)
    requires HoldsSession(rows, id, row, life)
    ensures HoldsSession(Apply(rows, w), id, row, Lived(life, row, id, [w]))
  {
    ApplyHolds(rows, w);
    assert RowHolds(rows[id]);
    assert [w][1..] == [];
    WriteColumns(rows, w, id);
    hide Apply, RowsHold;
  }

  /** What a write does to one row. */
  lemma WriteColumns(rows: Rows, w: Write, id: Id)
    requires id in rows
    ensures var next := Apply(rows, w);
      && id in next && next[id].user == rows[id].user && next[id].created == rows[id].created && next[id].hash == rows[id].hash
      && (next[id].revoked.Some? <==> rows[id].revoked.Some? || Revokes(rows[id], id, w))
      && next[id].lastSeen == (if w.Touch? && w.id == id && Touchable(rows, id, w.now) then w.now else rows[id].lastSeen)
  {
  }

  lemma LivedNext(life: Life, row: LoginRow, id: Id, ws: seq<Write>)
    requires ws != []
    ensures Lived(life, row, id, ws) == Lived(Lived(life, row, id, [ws[0]]), row, id, ws[1..])
  {
    assert [ws[0]][1..] == [];
  }

  lemma {:induction false} WritesLive(rows: Rows, ws: seq<Write>, id: Id, row: LoginRow, life: Life)
    requires HoldsSession(rows, id, row, life)
    ensures HoldsSession(RunWrites(rows, ws), id, row, Lived(life, row, id, ws))
    decreases |ws|
  {
    if ws != [] {
      WriteLives(rows, ws[0], id, row, life);
      LivedNext(life, row, id, ws);
      hide Lived, HoldsSession, Apply;
      WritesLive(Apply(rows, ws[0]), ws[1..], id, row, Lived(life, row, id, [ws[0]]));
    }
  }

  lemma TouchLives(rows: Rows, id: Id, row: LoginRow, life: Life, now: Time)
    requires HoldsSession(rows, id, row, life)
    ensures Touchable(rows, id, now) <==> Alive(life, row.created, now)
    ensures rows[id].revoked.None? && Unexpired(rows[id], now) <==> Alive(life, row.created, now)
    ensures Alive(life, row.created, now) ==> HoldsSession(Apply(rows, Touch(id, now)), id, row, Life(now, false))
  {
    assert RowHolds(rows[id]);
    WriteLives(rows, Touch(id, now), id, row, life);
    assert [Touch(id, now)][1..] == [];
    hide Apply, RowsHold;
  }

  /** One call: it resolves exactly when it should, and resolved or missed it leaves the session as computed. */
  lemma CallExactly(rows: Rows, id: Id, row: LoginRow, life: Life, c: Call)
    requires HoldsSession(rows, id, row, life) && id != ""
    ensures CallEffect(rows, row.hash, c).1.Resolved? <==> ShouldResolve(life, row, id, c)
    ensures HoldsSession(CallEffect(rows, row.hash, c).0, id, row, After(life, row, id, c))
  {
    var found := RunWrites(rows, c.before);
    WritesLive(rows, c.before, id, row, life);
    var read := AtRead(life, row, id, c);
    WritesLive(found, c.others, id, row, read);
    var mid := RunWrites(found, c.others);
    assert HasHash(found, id, row.hash) && RowsHold(found);
    ResolveFinds(found, c.users, id, row.hash, c.now, c.others);
    TouchLives(found, id, row, read, c.now);
    TouchLives(mid, id, row, AtTouch(life, row, id, c), c.now);
    assert found[id].user == row.user;
    hide RunWrites, Lived, ResolveEffect, HoldsSession, Apply, Alive, Touchable, Unexpired, AtTouch, AtRead;
  }

  /**
    What one call answers: a session that is over as read, or whose user is unknown, counts as revoked, a disabled
    user and one not yet active or verified have their own answers, and a resolved call gives the session's owner
    and the session as it is after the touch.
   */
  lemma CallAnswers(rows: Rows, id: Id, row: LoginRow, life: Life, c: Call)
    requires HoldsSession(rows, id, row, life) && id != ""
    ensures var (after, out) := CallEffect(rows, row.hash, c);
      if !Alive(AtRead(life, row, id, c), row.created, c.now) || row.user !in c.users then out == SessionRevoked
      else if c.users[row.user].status == Disabled then out == UserDisabled
      else if c.users[row.user] != UserView(Active, true) then out == UserNotActive
      else if !Alive(AtTouch(life, row, id, c), row.created, c.now) then out == SessionRevoked
      else out.Resolved? && out.user == row.user && id in after && out.session == after[id] && after[id].lastSeen == c.now
           && after[id].user == row.user && after[id].revoked.None?
  {
    var found := RunWrites(rows, c.before);
    WritesLive(rows, c.before, id, row, life);
    var read := AtRead(life, row, id, c);
    WritesLive(found, c.others, id, row, read);
    var mid := RunWrites(found, c.others);
    assert HasHash(found, id, row.hash) && RowsHold(found);
    ResolveFinds(found, c.users, id, row.hash, c.now, c.others);
    TouchLives(found, id, row, read, c.now);
    TouchLives(mid, id, row, AtTouch(life, row, id, c), c.now);
    assert found[id].user == row.user;
    hide RunWrites, Lived, ResolveEffect, Apply, Alive, Touchable, Unexpired, AtTouch, AtRead, RowsHold;
  }

  /** Every run of calls: which of them resolve is decided by the times and the writes that others land. */
  lemma {:induction false} CallsExactly(rows: Rows, id: Id, row: LoginRow, life: Life, calls: seq<Call>)
    requires HoldsSession(rows, id, row, life) && id != ""
    ensures Resolutions(rows, row.hash, calls) == Expected(life, row, id, calls)
    decreases |calls|
  {
    hide CallEffect, HoldsSession, ShouldResolve, After;
    if calls != [] {
      CallExactly(rows, id, row, life, calls[0]);
      CallsExactly(CallEffect(rows, row.hash, calls[0]).0, id, row, After(life, row, id, calls[0]), calls[1..]);
    }
  }

  // Sequences of calls that all resolve.

  ghost predicate AllTrue(answers: seq<bool>) {
    forall k | 0 <= k < |answers| :: answers[k]
  }

  ghost predicate NoneTrue(answers: seq<bool>) {
    forall k | 0 <= k < |answers| :: !answers[k]
  }

  function Times(calls: seq<Call>): seq<Time> {
    if calls == [] then [] else [calls[0].now] + Times(calls[1..])
  }

  /** Nothing else touches the session, nothing revokes it, and its user is active and verified at every call. */
  ghost predicate Undisturbed(row: LoginRow, id: Id, calls: seq<Call>) {
    forall c | c in calls :: Welcome(row, c) && Untouched(row, id, c.before) && Untouched(row, id, c.others)
  }

  ghost predicate Untouched(row: LoginRow, id: Id, ws: seq<Write>) {
    forall w | w in ws :: !Revokes(row, id, w) && !(w.Touch? && w.id == id)
  }

  lemma {:induction false} UntouchedLives(life: Life, row: LoginRow, id: Id, ws: seq<Write>)
    requires Untouched(row, id, ws)
    ensures Lived(life, row, id, ws) == life
    decreases |ws|
  {
    if ws != [] {
      assert ws[0] in ws;
      UntouchedLives(life, row, id, ws[1..]);
    }
  }

  lemma {:induction false} UndisturbedExpected(lastSeen: Time, row: LoginRow, id: Id, calls: seq<Call>)
    requires Undisturbed(row, id, calls)
    ensures AllTrue(Expected(Life(lastSeen, false), row, id, calls)) <==> KeepsAlive(lastSeen, row.created, Times(calls))
    decreases |calls|
  {
    if calls != [] {
      var life, c := Life(lastSeen, false), calls[0];
      assert c in calls;
      UntouchedLives(life, row, id, c.before);
      UntouchedLives(life, row, id, c.others);
      var rest := Expected(After(life, row, id, c), row, id, calls[1..]);
      assert Expected(life, row, id, calls) == [ShouldResolve(life, row, id, c)] + rest;
      assert Times(calls)[1..] == Times(calls[1..]);
      AllTrueNext(ShouldResolve(life, row, id, c), rest);
      if ShouldResolve(life, row, id, c) {
        UndisturbedExpected(c.now, row, id, calls[1..]);
      }
    }
  }

  lemma AllTrueNext(first: bool, rest: seq<bool>)
    ensures AllTrue([first] + rest) <==> first && AllTrue(rest)
    ensures NoneTrue([first] + rest) <==> !first && NoneTrue(rest)
  {
    var all := [first] + rest;
    assert all[0] == first;
    assert forall k | 0 <= k < |rest| :: all[k + 1] == rest[k];
    assert forall k | 0 < k < |all| :: all[k] == rest[k - 1];
  }

  /** Calls that follow one another all resolve exactly when every gap is under 7 days and every time before day 30. */
  lemma SequenceResolvesExactlyWhen(rows: Rows, id: Id, calls: seq<Call>)
    requires RowsHold(rows) && id in rows && id != "" && rows[id].revoked.None? && Undisturbed(rows[id], id, calls)
    ensures AllTrue(Resolutions(rows, rows[id].hash, calls)) <==> KeepsAlive(rows[id].lastSeen, rows[id].created, Times(calls))
  {
    CallsExactly(rows, id, rows[id], Life(rows[id].lastSeen, false), calls);
    hide Undisturbed, AllTrue, Expected, KeepsAlive;
    UndisturbedExpected(rows[id].lastSeen, rows[id], id, calls);
  }

  /** All calls resolve exactly when each should, with whatever other calls touch the session in between. */
  lemma CallsResolveExactlyWhen(rows: Rows, id: Id, calls: seq<Call>)
    requires RowsHold(rows) && id in rows && id != ""
    ensures AllTrue(Resolutions(rows, rows[id].hash, calls)) <==>
      AllInTime(Life(rows[id].lastSeen, rows[id].revoked.Some?), rows[id], id, calls)
  {
    var life := Life(rows[id].lastSeen, rows[id].revoked.Some?);
    CallsExactly(rows, id, rows[id], life, calls);
    hide AllTrue, Expected;
    ExpectedAll(life, rows[id], id, calls);
  }

  /** Each call in its turn is welcome and in time, the one before it having touched the session at its own time. */
  predicate AllInTime(life: Life, row: LoginRow, id: Id, calls: seq<Call>)
    decreases |calls|
  {
    calls != [] ==> ShouldResolve(life, row, id, calls[0]) && AllInTime(Life(calls[0].now, false), row, id, calls[1..])
  }

  lemma {:induction false} ExpectedAll(life: Life, row: LoginRow, id: Id, calls: seq<Call>)
    ensures AllTrue(Expected(life, row, id, calls)) <==> AllInTime(life, row, id, calls)
    decreases |calls|
  {
    if calls != [] {
      var rest := Expected(After(life, row, id, calls[0]), row, id, calls[1..]);
      AllTrueNext(ShouldResolve(life, row, id, calls[0]), rest);
      hide AllTrue, InTime;
      if ShouldResolve(life, row, id, calls[0]) {
        ExpectedAll(Life(calls[0].now, false), row, id, calls[1..]);
      }
    }
  }

  // Calls after a missed one.

  /** After any call, missed or not, no later call resolves exactly when none should from the state the call leaves. */
  lemma NoLaterCallExactlyWhen(rows: Rows, id: Id, c: Call, rest: seq<Call>)
    requires RowsHold(rows) && id in rows && id != ""
    ensures var row, life := rows[id], Life(rows[id].lastSeen, rows[id].revoked.Some?);
      NoneTrue(Resolutions(CallEffect(rows, row.hash, c).0, row.hash, rest)) <==> NoneTrue(Expected(After(life, row, id, c), row, id, rest))
  {
    var row, life := rows[id], Life(rows[id].lastSeen, rows[id].revoked.Some?);
    CallExactly(rows, id, row, life, c);
    hide CallEffect, After, NoneTrue, Expected;
    CallsExactly(CallEffect(rows, row.hash, c).0, id, row, After(life, row, id, c), rest);
  }

  ghost predicate WritesFrom(ws: seq<Write>, from: Time) {
    forall w | w in ws :: from <= w.now
  }

  /** No clock of the calls, or of what others write meanwhile, reads earlier than the given time. */
  ghost predicate CallsFrom(calls: seq<Call>, from: Time) {
    forall c | c in calls :: WritesFrom(c.before, from) && from <= c.now && WritesFrom(c.others, from)
  }

  lemma {:induction false} StaysEnded(life: Life, row: LoginRow, id: Id, ws: seq<Write>, from: Time)
    requires !Alive(life, row.created, from) && (life.revoked || WritesFrom(ws, from))
    ensures !Alive(Lived(life, row, id, ws), row.created, from)
    ensures life.revoked ==> Lived(life, row, id, ws).revoked
    decreases |ws|
  {
    if ws != [] {
      assert ws[0] in ws;
      var next := Lived(life, row, id, [ws[0]]);
      assert [ws[0]][1..] == [];
      LivedNext(life, row, id, ws);
      StaysEnded(next, row, id, ws[1..], from);
    }
  }

  /** A session that is revoked, or that has expired by a time no later clock precedes, resolves no call. */
  lemma {:induction false} EndedExpected(life: Life, row: LoginRow, id: Id, calls: seq<Call>, from: Time)
    requires !Alive(life, row.created, from) && (life.revoked || CallsFrom(calls, from))
    ensures NoneTrue(Expected(life, row, id, calls))
    decreases |calls|
  {
    if calls != [] {
      var c := calls[0];
      assert c in calls;
      StaysEnded(life, row, id, c.before, from);
      StaysEnded(AtRead(life, row, id, c), row, id, c.others, from);
      assert !ShouldResolve(life, row, id, c);
      EndedExpected(After(life, row, id, c), row, id, calls[1..], from);
      hide Lived, Alive;
      AllTrueNext(false, Expected(After(life, row, id, c), row, id, calls[1..]));
    }
  }

  /** After a revocation or an expiry, with clocks that do not go back, no later call resolves, whatever else is written. */
  lemma NoLaterCallResolves(rows: Rows, id: Id, from: Time, calls: seq<Call>)
    requires RowsHold(rows) && id in rows && id != "" && Dead(rows, id, from) && CallsFrom(calls, from)
    ensures NoneTrue(Resolutions(rows, rows[id].hash, calls))
  {
    var row, life := rows[id], Life(rows[id].lastSeen, rows[id].revoked.Some?);
    assert HoldsSession(rows, id, row, life) && RowHolds(rows[id]);
    CallsExactly(rows, id, row, life, calls);
    EndedExpected(life, row, id, calls, from);
    hide NoneTrue, Expected;
  }

  /** A revoked session needs no clock: no later call resolves it. */
  lemma NoCallAfterRevocation(rows: Rows, id: Id, calls: seq<Call>)
    requires RowsHold(rows) && id in rows && id != "" && rows[id].revoked.Some?
    ensures NoneTrue(Resolutions(rows, rows[id].hash, calls))
  {
    var row, life := rows[id], Life(rows[id].lastSeen, true);
    CallsExactly(rows, id, row, life, calls);
    EndedExpected(life, row, id, calls, 0);
    hide NoneTrue, Expected;
  }

  /** A welcome call that misses, with no other call touching the session meanwhile, is the last chance: no later one resolves. */
  lemma MissedGapIsFinal(rows: Rows, id: Id, c: Call, rest: seq<Call>)
    requires RowsHold(rows) && id in rows && id != "" && Welcome(rows[id], c)
    requires TouchTimes(c.others, id) == []
    requires !CallEffect(rows, rows[id].hash, c).1.Resolved? && CallsFrom(rest, c.now)
    ensures NoneTrue(Resolutions(CallEffect(rows, rows[id].hash, c).0, rows[id].hash, rest))
  {
    var row, life := rows[id], Life(rows[id].lastSeen, rows[id].revoked.Some?);
    CallExactly(rows, id, row, life, c);
    var read := AtRead(life, row, id, c);
    TouchlessLives(read, row, id, c.others);
    NoLaterCallExactlyWhen(rows, id, c, rest);
    EndedExpected(After(life, row, id, c), row, id, rest, c.now);
    hide NoneTrue, Expected, CallEffect;
  }

  /** Without touches only a revocation can change the session. */
  lemma {:induction false} TouchlessLives(life: Life, row: LoginRow, id: Id, ws: seq<Write>)
    requires TouchTimes(ws, id) == []
    ensures Lived(life, row, id, ws).lastSeen == life.lastSeen
    ensures life.revoked ==> Lived(life, row, id, ws).revoked
    decreases |ws|
  {
    if ws != [] {
      TouchlessLives(if Revokes(row, id, ws[0]) then life.(revoked := true) else life, row, id, ws[1..]);
    }
  }

  /**
    The clocks matter: a touch with the clock of day 6 that lands after a call missed on day 8 lets the call
    of day 9 resolve.
   */
  lemma LateTouchRevives()
    ensures exists rows: Rows, c: Call, d: Call ::
      && RowsHold(rows) && !CallEffect(rows, "h", c).1.Resolved?
      && CallEffect(CallEffect(rows, "h", c).0, "h", d).1.Resolved?
  {
    var row := LoginRow("u", "h", 0, 0, IDLE_TTL, ABSOLUTE_TTL, None);
    var rows: Rows := map["s" := row];
    var users := map["u" := UserView(Active, true)];
    var c := Call([], users, 8 * DAY, []);
    var d := Call([Touch("s", 6 * DAY)], users, 9 * DAY, []);
    var life := Life(0, false);
    assert HoldsSession(rows, "s", row, life);
    CallExactly(rows, "s", row, life, c);
    assert After(life, row, "s", c) == life;
    assert d.before[1..] == [] && !Revokes(row, "s", d.before[0]) && Alive(life, 0, 6 * DAY);
    assert Lived(Life(6 * DAY, false), row, "s", []) == Life(6 * DAY, false);
    assert AtRead(life, row, "s", d) == Life(6 * DAY, false);
    CallExactly(CallEffect(rows, "h", c).0, "s", row, life, d);
  }
}
