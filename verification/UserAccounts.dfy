/** What each account transaction does, in terms of the user's state: when it takes effect and what is then so. */
module UserAccounts {
  import opened Options
  import opened TokenStore
  import opened LoginSessions
  import opened UserAggregate

  // Registration.

  /** A registered user is pending with an unverified email, an initial administrator active with a verified one. */
  lemma CreatedRows(sys: System, ev: Event)
    requires Creates(sys, ev)
    ensures var n, t := ev.made, sys.t;
      Next(sys, ev).t == t.(
        users := t.users[n.user := UserRow(if ev.Register? then Pending else Active, n.etag)],
        emails := t.emails[n.email := Email(n.user, n.canonical, if ev.Register? then None else Some(ev.now))],
        auths := t.auths[n.auth := Auth(n.user, true, None, n.hash)])
  {
  }

  ghost predicate UniqueEmails(t: Tables) {
    forall e, f | e in t.emails && f in t.emails && t.emails[e].canonical == t.emails[f].canonical :: e == f
  }

  lemma StepKeepsEmails(sys: System, ev: Event)
    requires UniqueEmails(sys.t)
    ensures UniqueEmails(Next(sys, ev).t)
    ensures forall e | e in sys.t.emails :: e in Next(sys, ev).t.emails && Next(sys, ev).t.emails[e].canonical == sys.t.emails[e].canonical
  {
    StepEmails(sys, ev);
    if Creates(sys, ev) {
      CreatedRows(sys, ev);
    } else {
      StepOwners(sys, ev);
      hide Next, Lands;
    }
  }

  /** Over every run no two users have one email address, and an address never changes hands. */
  lemma {:induction false} EmailsStayUnique(sys: System, evs: seq<Event>)
    requires UniqueEmails(sys.t)
    ensures UniqueEmails(Run(sys, evs).t)
    ensures forall e | e in sys.t.emails ::
      e in Run(sys, evs).t.emails && Run(sys, evs).t.emails[e].canonical == sys.t.emails[e].canonical
      && Run(sys, evs).t.emails[e].user == sys.t.emails[e].user
    decreases |evs|
  {
    if evs != [] {
      StepKeepsEmails(sys, evs[0]);
      StepEmails(sys, evs[0]);
      hide Next, Lands, UniqueEmails;
      EmailsStayUnique(Next(sys, evs[0]), evs[1..]);
    }
  }

  // Activation and status.

  /** Activation takes effect exactly for a pending user, who is then active with the email verified at that time. */
  lemma ActivatesExactlyWhen(sys: System, ev: Event)
    requires Inv(sys) && ev.ActivateEmail? && ev.etag !in sys.spent
    ensures var t, n := sys.t, Next(sys, ev).t;
      if ev.user in t.users && t.users[ev.user].status == Pending
      then n.users == t.users[ev.user := UserRow(Active, ev.etag)]
           && forall e | e in t.emails ::
                e in n.emails && n.emails[e] == if t.emails[e].user == ev.user then t.emails[e].(verified := Some(ev.now)) else t.emails[e]
      else n == t
  {
    hide AuthFollowsStatus, HeldCurrent, UniqueTokens, OneAuthEach;
  }

  /**
    A change of status takes effect exactly when the row is still as it was read; it then sets the status and the
    etag of that user, and enables or disables the user's authenticator with it.
   */
  lemma ChangesStatusExactlyWhen(sys: System, ev: Event)
    requires Inv(sys) && ev.SetStatus? && ev.etag !in sys.spent && (ev.user, ev.seen) in sys.held
    requires ev.disable || ev.seen.status == Disabled
    ensures var t, n := sys.t, Next(sys, ev).t;
      if ev.user in t.users && t.users[ev.user] == ev.seen
      then n.users == t.users[ev.user := UserRow(if ev.disable then Disabled else Active, ev.etag)]
           && (forall a | a in t.auths :: a in n.auths && n.auths[a] ==
                if t.auths[a].user != ev.user then t.auths[a]
                else if ev.disable then t.auths[a].(enabled := false, revoked := Some(ev.now))
                else t.auths[a].(enabled := true, revoked := None))
           && n == t.(users := n.users, auths := n.auths)
      else n == t
  {
    assert HeldCurrent(sys);
    hide AuthFollowsStatus, UniqueTokens, OneAuthEach, OneEmailEach, PendingUnverified;
  }

  // Passwords.

  /** A password can be replaced through the user's own authenticator exactly while the user is not disabled. */
  lemma ReplacesExactlyWhen(sys: System, ev: Event)
    requires Inv(sys) && ev.ReplacePassword?
    ensures var t, n := sys.t, Next(sys, ev).t;
      if ev.auth in t.auths && t.auths[ev.auth].user == ev.user && t.users[ev.user].status != Disabled
      then n == t.(auths := t.auths[ev.auth := t.auths[ev.auth].(hash := ev.passwordHash)])
      else n == t
  {
    assert OneAuthEach(sys.t) && AuthFollowsStatus(sys.t);
    hide HeldCurrent, UniqueTokens, OneEmailEach, PendingUnverified;
  }

  /** A reset takes effect exactly for an unconsumed and unexpired token of a user that is not disabled. */
  lemma ResetsExactlyWhen(sys: System, ev: Event)
    requires Inv(sys) && ev.Reset?
    ensures Lands(sys, ev) <==>
      && ev.id in sys.t.resets && sys.t.resets[ev.id].consumed.None? && ev.now < sys.t.resets[ev.id].expires
      && sys.t.resets[ev.id].user in sys.t.users && sys.t.users[sys.t.resets[ev.id].user].status != Disabled
  {
    assert OneAuthEach(sys.t) && AuthFollowsStatus(sys.t);
    hide HeldCurrent, UniqueTokens, OneEmailEach, PendingUnverified;
    if ev.id in sys.t.resets {
      var user := sys.t.resets[ev.id].user;
      if user in sys.t.users {
        var a :| OwnsAuth(sys.t, user, a);
        assert ActivePassword(sys.t, user, a) <==> sys.t.users[user].status != Disabled;
      }
    }
  }

  // One-time tokens.

  /** A new token can be consumed until it expires. */
  lemma NewTokenLives(sys: System, ev: Event, now: Time)
    requires ev.NewVerification? || ev.NewReset?
    ensures var tokens := if ev.NewVerification? then sys.t.verifications else sys.t.resets;
      var next := if ev.NewVerification? then Next(sys, ev).t.verifications else Next(sys, ev).t.resets;
      if ev.user in sys.t.users && ev.id !in tokens && ev.hash != "" && (forall i | i in tokens :: tokens[i].hash != ev.hash)
      then next == tokens[ev.id := Token(ev.user, ev.hash, ev.expires, None)] && (Consumable(next, ev.id, now) <==> now < ev.expires)
      else next == tokens
  {
  }

  ghost predicate Verifies(sys: System, ev: Event, id: Id) {
    ev.ConsumeVerification? && ev.id == id && Consumable(sys.t.verifications, id, ev.now)
  }

  ghost function Verifications(sys: System, evs: seq<Event>, id: Id): nat
    decreases |evs|
  {
    if evs == [] then 0 else (if Verifies(sys, evs[0], id) then 1 else 0) + Verifications(Next(sys, evs[0]), evs[1..], id)
  }

  predicate UsedUp(t: Tables, id: Id) {
    id in t.verifications && t.verifications[id].consumed.Some?
  }

  lemma VerificationStep(sys: System, ev: Event, id: Id)
    ensures UsedUp(sys.t, id) ==> UsedUp(Next(sys, ev).t, id)
    ensures Verifies(sys, ev, id) ==>
      !UsedUp(sys.t, id) && UsedUp(Next(sys, ev).t, id) && ev.now < sys.t.verifications[id].expires
  {
  }

  /** Over a whole run a verification token verifies at most once. */
  lemma {:induction false} VerifiesOnce(sys: System, evs: seq<Event>, id: Id)
    ensures Verifications(sys, evs, id) <= if UsedUp(sys.t, id) then 0 else 1
    decreases |evs|
  {
    hide Next, Verifies, UsedUp;
    if evs != [] {
      VerificationStep(sys, evs[0], id);
      VerifiesOnce(Next(sys, evs[0]), evs[1..], id);
    }
  }
}
