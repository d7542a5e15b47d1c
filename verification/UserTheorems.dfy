/** What holds of a user over whole runs of account transactions. */
module UserTheorems {
  import opened Options
  import opened TokenStore
  import opened LoginSessions
  import opened UserAggregate

  lemma ActivationIsPending(sys: System, ev: Event)
    requires ev.ActivateEmail? && Lands(sys, ev)
    ensures ev.user in sys.t.users && sys.t.users[ev.user].status == Pending
  {
  }

  /** An enabling that lands changes a disabled user: what was read earlier still holds when the etag does. */
  lemma EnablesDisabledOnly(sys: System, ev: Event)
    requires Inv(sys) && ev.SetStatus? && Lands(sys, ev) && !ev.disable
    ensures sys.t.users[ev.user].status == Disabled
  {
    hide OneAuthEach, OneEmailEach, AuthFollowsStatus, PendingUnverified;
    assert (ev.user, ev.seen) in sys.held;
  }

  lemma VerifiedStays(sys: System, ev: Event, e: Id)
    requires OneEmailEach(sys.t) && PendingUnverified(sys.t) && e in sys.t.emails && sys.t.emails[e].verified.Some?
    ensures e in Next(sys, ev).t.emails && Next(sys, ev).t.emails[e].verified == sys.t.emails[e].verified
  {
    StepEmails(sys, ev);
    if ev.ActivateEmail? && Lands(sys, ev) {
      ActivationIsPending(sys, ev);
    }
    hide Next, Lands;
  }

  /** A verified email stays verified, at the time it was first verified. */
  lemma {:induction false} VerifiedForever(sys: System, evs: seq<Event>, e: Id)
    requires Inv(sys) && e in sys.t.emails && sys.t.emails[e].verified.Some?
    ensures e in Run(sys, evs).t.emails && Run(sys, evs).t.emails[e].verified == sys.t.emails[e].verified
    decreases |evs|
  {
    if evs != [] {
      VerifiedStays(sys, evs[0], e);
      StepKeepsInv(sys, evs[0]);
      VerifiedForever(Next(sys, evs[0]), evs[1..], e);
    }
  }

  // Users stuck without a verified email.

  ghost predicate Stuck(t: Tables, user: Id) {
    && user in t.users && t.users[user].status != Pending
    && (exists e :: OwnsEmail(t, user, e)) && forall e | OwnsEmail(t, user, e) :: t.emails[e].verified.None?
  }

  /** What a session lookup sees of a user. */
  ghost function View(t: Tables, user: Id): UserView
    requires user in t.users
  {
    UserView(t.users[user].status, exists e :: OwnsEmail(t, user, e) && t.emails[e].verified.Some?)
  }

  lemma StuckStep(sys: System, ev: Event, user: Id)
    requires OneEmailEach(sys.t) && Stuck(sys.t, user)
    ensures Stuck(Next(sys, ev).t, user)
  {
    StepStatus(sys, ev);
    StepEmails(sys, ev);
    if ev.ActivateEmail? && Lands(sys, ev) {
      ActivationIsPending(sys, ev);
    }
    if Creates(sys, ev) {
      StepCreates(sys, ev);
    } else {
      StepOwners(sys, ev);
    }
    hide Next, Creates, Lands;
    var e :| OwnsEmail(sys.t, user, e);
    assert OwnsEmail(Next(sys, ev).t, user, e);
  }

  /** A user that left the pending state unverified never resolves a session again, whatever is done. */
  lemma {:induction false} StuckForever(sys: System, evs: seq<Event>, user: Id)
    requires Inv(sys) && Stuck(sys.t, user)
    ensures Stuck(Run(sys, evs).t, user) && View(Run(sys, evs).t, user) != UserView(Active, true)
    decreases |evs|
  {
    if evs != [] {
      StuckStep(sys, evs[0], user);
      StepKeepsInv(sys, evs[0]);
      StuckForever(Next(sys, evs[0]), evs[1..], user);
    }
  }

  ghost predicate ActiveVerified(t: Tables) {
    forall e | e in t.emails && t.emails[e].user in t.users && t.users[t.emails[e].user].status == Active :: t.emails[e].verified.Some?
  }

  /** A disabled user whose email was never verified is enabled. */
  ghost predicate EnablesUnverified(sys: System, ev: Event) {
    && ev.SetStatus? && !ev.disable && Lands(sys, ev)
    && exists e :: OwnsEmail(sys.t, ev.user, e) && sys.t.emails[e].verified.None?
  }

  lemma StepActiveVerified(sys: System, ev: Event)
    requires Inv(sys) && ActiveVerified(sys.t)
    ensures ActiveVerified(Next(sys, ev).t) <==> !EnablesUnverified(sys, ev)
  {
    hide Next, Lands, OneAuthEach, AuthFollowsStatus, HeldCurrent, PendingUnverified;
    if EnablesUnverified(sys, ev) {
      StepStatus(sys, ev);
      StepEmails(sys, ev);
      LandsInUsers(sys, ev);
      var e :| OwnsEmail(sys.t, ev.user, e) && sys.t.emails[e].verified.None?;
      assert Next(sys, ev).t.emails[e].verified.None?;
    } else {
      KeepsActiveVerified(sys, ev);
    }
  }

  lemma KeepsActiveVerified(sys: System, ev: Event)
    requires OneEmailEach(sys.t) && ActiveVerified(sys.t) && !EnablesUnverified(sys, ev)
    ensures ActiveVerified(Next(sys, ev).t)
  {
    hide Next, Lands, Creatable;
    StepStatus(sys, ev);
    StepEmails(sys, ev);
    if Creates(sys, ev) {
      StepCreates(sys, ev);
      hide OneEmailEach;
      return;
    }
    StepOwners(sys, ev);
    if ev.ActivateEmail? && Lands(sys, ev) {
      ActivationVerifies(sys, ev);
    }
    var user := if ev.ActivateEmail? || ev.SetStatus? then ev.user else "";
    forall e | OwnsEmail(sys.t, user, e) && user in sys.t.users && Next(sys, ev).t.users[user].status == Active
      ensures Next(sys, ev).t.emails[e].verified.Some?
    {
    }
    hide StatusMoved, EmailsMoved, EnablesUnverified, ActiveVerified, OneEmailEach;
    OthersStayVerified(sys, ev, user);
    ActiveVerifiedKept(sys.t, Next(sys, ev).t, user);
  }

  lemma OthersStayVerified(sys: System, ev: Event, user: Id)
    requires SameOwners(sys.t, Next(sys, ev).t) && ((ev.ActivateEmail? || ev.SetStatus?) ==> user == ev.user)
    requires OneEmailEach(sys.t)
    ensures forall u | u in sys.t.users && u != user && Next(sys, ev).t.users[u].status == Active :: sys.t.users[u].status == Active
    ensures forall e | e in sys.t.emails && sys.t.emails[e].user != user :: Next(sys, ev).t.emails[e].verified == sys.t.emails[e].verified
  {
    StepStatus(sys, ev);
    StepEmails(sys, ev);
    hide Next, Lands, OneEmailEach;
  }

  lemma ActiveVerifiedKept(t: Tables, n: Tables, user: Id)
    requires OneEmailEach(t) && ActiveVerified(t) && SameOwners(t, n)
    requires forall u | u in t.users && u != user && n.users[u].status == Active :: t.users[u].status == Active
    requires forall e | e in t.emails && t.emails[e].user != user :: n.emails[e].verified == t.emails[e].verified
    requires forall e | OwnsEmail(t, user, e) && user in t.users && n.users[user].status == Active :: n.emails[e].verified.Some?
    ensures ActiveVerified(n)
  {
    forall e | e in n.emails && n.emails[e].user in n.users && n.users[n.emails[e].user].status == Active
      ensures n.emails[e].verified.Some?
    {
      if t.emails[e].user == user {
        assert OwnsEmail(t, user, e);
      }
    }
  }

  lemma LandsInUsers(sys: System, ev: Event)
    requires ev.SetStatus? && Lands(sys, ev)
    ensures ev.user in sys.t.users
  {
  }

  lemma ActivationVerifies(sys: System, ev: Event)
    requires OneEmailEach(sys.t) && ev.ActivateEmail? && Lands(sys, ev)
    ensures forall e | OwnsEmail(sys.t, ev.user, e) :: e in Next(sys, ev).t.emails && Next(sys, ev).t.emails[e].verified == Some(ev.now)
  {
  }

  ghost predicate AlwaysActiveVerified(sys: System, evs: seq<Event>)
    decreases |evs|
  {
    ActiveVerified(sys.t) && (evs != [] ==> AlwaysActiveVerified(Next(sys, evs[0]), evs[1..]))
  }

  ghost predicate NeverEnablesUnverified(sys: System, evs: seq<Event>)
    decreases |evs|
  {
    evs != [] ==> !EnablesUnverified(sys, evs[0]) && NeverEnablesUnverified(Next(sys, evs[0]), evs[1..])
  }

  /** Every active user is verified throughout a run exactly when the run never enables an unverified one. */
  lemma {:induction false} ActiveVerifiedExactlyWhen(sys: System, evs: seq<Event>)
    requires Inv(sys) && ActiveVerified(sys.t)
    ensures AlwaysActiveVerified(sys, evs) <==> NeverEnablesUnverified(sys, evs)
    decreases |evs|
  {
    if evs != [] {
      StepActiveVerified(sys, evs[0]);
      if !EnablesUnverified(sys, evs[0]) {
        StepKeepsInv(sys, evs[0]);
        ActiveVerifiedExactlyWhen(Next(sys, evs[0]), evs[1..]);
      }
    }
  }

  /** It does happen: register, disable while pending, enable. */
  lemma ActiveUnverifiedReachable()
    ensures exists evs, user :: Stuck(Run(EMPTY, evs).t, user) && user in Run(EMPTY, evs).t.users && Run(EMPTY, evs).t.users[user].status == Active
  {
    var made := NewUser("u", "i", "a", "mail", "h", "1");
    var e1, e2 := Register(made), Look("u");
    var e3 := SetStatus("u", UserRow(Pending, "1"), true, "2", 5);
    var e5 := SetStatus("u", UserRow(Disabled, "2"), false, "3", 6);
    var s1 := Next(EMPTY, e1);
    assert s1.t.users["u"] == UserRow(Pending, "1");
    var s2 := Next(s1, e2);
    assert StatusLands(s2, "u", e3.seen, true, "2");
    var s3 := Next(s2, e3);
    var s4 := Next(s3, e2);
    assert StatusLands(s4, "u", e5.seen, false, "3");
    var s5 := Next(s4, e5);
    assert OwnsEmail(s5.t, "u", "i");
    var evs := [e1, e2, e3, e2, e5];
    assert Run(EMPTY, evs) == s5 by {
      hide Next;
      assert evs[1..] == [e2, e3, e2, e5] && evs[1..][1..] == [e3, e2, e5] && evs[1..][1..][1..] == [e2, e5];
      assert evs[1..][1..][1..][1..] == [e5];
      assert Run(s4, [e5]) == Run(s5, [e5][1..]);
      assert Run(s3, [e2, e5]) == Run(s4, [e2, e5][1..]);
      assert Run(s2, [e3, e2, e5]) == Run(s3, [e3, e2, e5][1..]);
    }
  }

  // Passwords and reset tokens.

  /** A password changes by a signed-in replacement, or by a reset that consumes its token in the same commit. */
  lemma PasswordChanges(sys: System, ev: Event, a: Id)
    requires Inv(sys) && a in sys.t.auths
    ensures a in Next(sys, ev).t.auths
    ensures Next(sys, ev).t.auths[a].hash != sys.t.auths[a].hash ==>
      || (ev.ReplacePassword? && ev.auth == a)
      || (ev.Reset? && Lands(sys, ev) && sys.t.resets[ev.id].user == sys.t.auths[a].user)
  {
    hide Inv;
    if ev.Reset? {
      return;
    }
    hide ResetPassword, Lands;
    if ev.ActivateEmail? {
      return;
    }
    hide Activate;
  }

  /** A reset lands exactly when it consumes its token; it then sets the password of the token's user and no other, and otherwise does nothing. */
  lemma ResetExactly(sys: System, ev: Event)
    requires Inv(sys) && ev.Reset?
    ensures var t, n := sys.t, Next(sys, ev).t;
      && (Lands(sys, ev) <==> ev.id in t.resets && t.resets[ev.id].consumed.None? && ev.id in n.resets && n.resets[ev.id].consumed == Some(ev.now))
      && (Lands(sys, ev) ==> forall a | a in t.auths ::
            a in n.auths && n.auths[a] == if t.auths[a].user == t.resets[ev.id].user then t.auths[a].(hash := ev.passwordHash) else t.auths[a])
      && (!Lands(sys, ev) ==> n == t)
  {
  }

  ghost function Landings(sys: System, evs: seq<Event>, id: Id): nat
    decreases |evs|
  {
    if evs == [] then 0
    else (if evs[0].Reset? && evs[0].id == id && Lands(sys, evs[0]) then 1 else 0) + Landings(Next(sys, evs[0]), evs[1..], id)
  }

  predicate Spent(t: Tables, id: Id) {
    id in t.resets && t.resets[id].consumed.Some?
  }

  lemma SpentStays(sys: System, ev: Event, id: Id)
    requires Spent(sys.t, id)
    ensures Spent(Next(sys, ev).t, id)
  {
  }

  /** Over a whole run a reset token sets a password at most once, and never after it was consumed. */
  lemma {:induction false} ResetOnce(sys: System, evs: seq<Event>, id: Id)
    requires Inv(sys)
    ensures Landings(sys, evs, id) <= if Spent(sys.t, id) then 0 else 1
    decreases |evs|
  {
    if evs != [] {
      StepKeepsInv(sys, evs[0]);
      if Spent(sys.t, id) {
        SpentStays(sys, evs[0], id);
      } else if evs[0].Reset? {
        ResetExactly(sys, evs[0]);
      }
      ResetOnce(Next(sys, evs[0]), evs[1..], id);
    }
  }
}
