/**
  A user of the IAM service is spread over several tables: the user row, the email identifier, the
  password authenticator and one-time tokens. Each event below is one committed transaction.
*/
module UserAggregate {
  import opened Options
  import opened TokenStore
  import opened LoginSessions

  datatype UserRow = UserRow(status: Status, etag: string)

  datatype Email = Email(user: Id, canonical: string, verified: Option<Time>)

  /** A password authenticator with the password row made beside it. */
  datatype Auth = Auth(user: Id, enabled: bool, revoked: Option<Time>, hash: string)

  datatype Token = Token(user: Id, hash: string, expires: Time, consumed: Option<Time>)

  datatype Tables = Tables(
    users: map<Id, UserRow>, emails: map<Id, Email>, auths: map<Id, Auth>,
    verifications: map<Id, Token>, resets: map<Id, Token>)

  datatype NewUser = NewUser(user: Id, email: Id, auth: Id, canonical: string, hash: string, etag: string)

  datatype Event =
    | Register(made: NewUser)
    | InitialAdmin(made: NewUser, now: Time)
    | Look(user: Id)
    | SetStatus(user: Id, seen: UserRow, disable: bool, etag: string, now: Time)
    | EditProfile(user: Id, expected: string, etag: string)
    | ActivateEmail(user: Id, etag: string, now: Time)
    | NewVerification(id: Id, user: Id, hash: string, expires: Time)
    | ConsumeVerification(id: Id, now: Time)
    | NewReset(id: Id, user: Id, hash: string, expires: Time)
    | Reset(id: Id, passwordHash: string, now: Time)
    | ReplacePassword(user: Id, auth: Id, passwordHash: string)

  /** The tables, the user rows administrators have read, and the etags generated so far. */
  datatype System = System(t: Tables, held: set<(Id, UserRow)>, spent: set<string>)

  const EMPTY := System(Tables(map[], map[], map[], map[], map[]), {}, {})

  // The transactions.

  predicate Creatable(sys: System, n: NewUser) {
    && n.user != "" && n.canonical != "" && n.hash != "" && n.etag !in sys.spent
    && n.user !in sys.t.users && n.email !in sys.t.emails && n.auth !in sys.t.auths
    && forall e | e in sys.t.emails :: sys.t.emails[e].canonical != n.canonical
  }

  function Create(sys: System, n: NewUser, status: Status, verified: Option<Time>): System {
    if !Creatable(sys, n) then sys else
    var t := sys.t.(users := sys.t.users[n.user := UserRow(status, n.etag)],
                    emails := sys.t.emails[n.email := Email(n.user, n.canonical, verified)],
                    auths := sys.t.auths[n.auth := Auth(n.user, true, None, n.hash)]);
    sys.(t := t, spent := sys.spent + {n.etag})
  }

  /** The use case enables only a user it has seen disabled, and both changes are conditional on the etag seen. */
  predicate StatusLands(sys: System, user: Id, seen: UserRow, disable: bool, etag: string) {
    && (user, seen) in sys.held && (disable || seen.status == Disabled) && etag !in sys.spent
    && user in sys.t.users && sys.t.users[user].etag == seen.etag
  }

  function ChangeStatus(sys: System, user: Id, seen: UserRow, disable: bool, etag: string, now: Time): System {
    if !StatusLands(sys, user, seen, disable, etag) then sys else
    var t := sys.t.(users := sys.t.users[user := UserRow(if disable then Disabled else Active, etag)],
                    auths := map a | a in sys.t.auths :: if sys.t.auths[a].user == user
                               then sys.t.auths[a].(enabled := !disable, revoked := if disable then Some(now) else None)
                               else sys.t.auths[a]);
    sys.(t := t, spent := sys.spent + {etag})
  }

  predicate OwnsEmail(t: Tables, user: Id, e: Id) {
    e in t.emails && t.emails[e].user == user
  }

  predicate OwnsAuth(t: Tables, user: Id, a: Id) {
    a in t.auths && t.auths[a].user == user
  }

  predicate ActivePassword(t: Tables, user: Id, a: Id) {
    OwnsAuth(t, user, a) && t.auths[a].enabled && t.auths[a].revoked.None?
  }

  ghost predicate ActivationLands(sys: System, user: Id, etag: string) {
    && etag !in sys.spent && user in sys.t.users && sys.t.users[user].status == Pending
    && exists e :: OwnsEmail(sys.t, user, e)
  }

  ghost function Activate(sys: System, user: Id, etag: string, now: Time): System {
    if !ActivationLands(sys, user, etag) then sys else
    var e :| OwnsEmail(sys.t, user, e);
    var t := sys.t.(users := sys.t.users[user := UserRow(Active, etag)],
                    emails := sys.t.emails[e := sys.t.emails[e].(verified := Some(now))]);
    sys.(t := t, spent := sys.spent + {etag})
  }

  predicate Consumable(tokens: map<Id, Token>, id: Id, now: Time) {
    id in tokens && tokens[id].consumed.None? && now < tokens[id].expires
  }

  function Consumed(tokens: map<Id, Token>, id: Id, now: Time): map<Id, Token>
    requires id in tokens
  {
    tokens[id := tokens[id].(consumed := Some(now))]
  }

  predicate TokenInsertable(t: Tables, tokens: map<Id, Token>, id: Id, user: Id, hash: string) {
    user in t.users && id !in tokens && hash != "" && forall i | i in tokens :: tokens[i].hash != hash
  }

  ghost predicate ResetLands(t: Tables, id: Id, now: Time) {
    Consumable(t.resets, id, now) && exists a :: ActivePassword(t, t.resets[id].user, a)
  }

  /** The new password and the consumed token are one commit. */
  ghost function ResetPassword(t: Tables, id: Id, passwordHash: string, now: Time): Tables {
    if !ResetLands(t, id, now) then t else
    var a :| ActivePassword(t, t.resets[id].user, a);
    t.(auths := t.auths[a := t.auths[a].(hash := passwordHash)], resets := Consumed(t.resets, id, now))
  }

  ghost function Next(sys: System, ev: Event): System {
    match ev
    case Register(made) => Create(sys, made, Pending, None)
    case InitialAdmin(made, now) => Create(sys, made, Active, Some(now))
    case Look(user) => if user in sys.t.users then sys.(held := sys.held + {(user, sys.t.users[user])}) else sys
    case SetStatus(user, seen, disable, etag, now) => ChangeStatus(sys, user, seen, disable, etag, now)
    case EditProfile(user, expected, etag) =>
      if etag in sys.spent || user !in sys.t.users || sys.t.users[user].etag != expected then sys
      else sys.(t := sys.t.(users := sys.t.users[user := sys.t.users[user].(etag := etag)]), spent := sys.spent + {etag})
    case ActivateEmail(user, etag, now) => Activate(sys, user, etag, now)
    case NewVerification(id, user, hash, expires) =>
      if !TokenInsertable(sys.t, sys.t.verifications, id, user, hash) then sys
      else sys.(t := sys.t.(verifications := sys.t.verifications[id := Token(user, hash, expires, None)]))
    case ConsumeVerification(id, now) =>
      if !Consumable(sys.t.verifications, id, now) then sys
      else sys.(t := sys.t.(verifications := Consumed(sys.t.verifications, id, now)))
    case NewReset(id, user, hash, expires) =>
      if !TokenInsertable(sys.t, sys.t.resets, id, user, hash) then sys
      else sys.(t := sys.t.(resets := sys.t.resets[id := Token(user, hash, expires, None)]))
    case Reset(id, passwordHash, now) => sys.(t := ResetPassword(sys.t, id, passwordHash, now))
    case ReplacePassword(user, auth, passwordHash) =>
      if !ActivePassword(sys.t, user, auth) then sys
      else sys.(t := sys.t.(auths := sys.t.auths[auth := sys.t.auths[auth].(hash := passwordHash)]))
  }

  ghost function Run(sys: System, evs: seq<Event>): System
    decreases |evs|
  {
    if evs == [] then sys else Run(Next(sys, evs[0]), evs[1..])
  }

  // The invariant.

  ghost predicate OneAuthEach(t: Tables) {
    && "" !in t.users
    && (forall a | a in t.auths :: t.auths[a].user in t.users)
    && (forall a, b | a in t.auths && b in t.auths && t.auths[a].user == t.auths[b].user :: a == b)
    && (forall u | u in t.users :: exists a :: OwnsAuth(t, u, a))
  }

  ghost predicate OneEmailEach(t: Tables) {
    && (forall e | e in t.emails :: t.emails[e].user in t.users)
    && (forall e, f | e in t.emails && f in t.emails && t.emails[e].user == t.emails[f].user :: e == f)
    && (forall u | u in t.users :: exists e :: OwnsEmail(t, u, e))
  }

  /** A user is disabled exactly when its authenticator is, and exactly then that one has a revoked time. */
  ghost predicate AuthFollowsStatus(t: Tables) {
    forall a | a in t.auths && t.auths[a].user in t.users ::
      && (t.users[t.auths[a].user].status == Disabled <==> !t.auths[a].enabled)
      && (t.auths[a].enabled <==> t.auths[a].revoked.None?)
  }

  ghost predicate PendingUnverified(t: Tables) {
    forall e | e in t.emails && t.emails[e].user in t.users && t.users[t.emails[e].user].status == Pending ::
      t.emails[e].verified.None?
  }

  /** Etags are never reused, so a row read earlier that still has its etag has not changed. */
  ghost predicate HeldCurrent(sys: System) {
    && (forall u | u in sys.t.users :: sys.t.users[u].etag in sys.spent)
    && forall h | h in sys.held ::
         h.0 in sys.t.users && h.1.etag in sys.spent && (sys.t.users[h.0].etag == h.1.etag ==> sys.t.users[h.0] == h.1)
  }

  /** A presented token names at most one row. */
  ghost predicate UniqueTokens(tokens: map<Id, Token>) {
    forall i, j | i in tokens && j in tokens && tokens[i].hash == tokens[j].hash :: i == j
  }

  ghost predicate Inv(sys: System) {
    && OneAuthEach(sys.t) && OneEmailEach(sys.t) && AuthFollowsStatus(sys.t) && PendingUnverified(sys.t) && HeldCurrent(sys)
    && UniqueTokens(sys.t.verifications) && UniqueTokens(sys.t.resets)
  }

  // What one step may do to each table.

  predicate Creates(sys: System, ev: Event) {
    (ev.Register? || ev.InitialAdmin?) && Creatable(sys, ev.made)
  }

  /** Rows are never removed and never change owner; only a creation adds users, emails and authenticators. */
  ghost predicate SameOwners(t: Tables, n: Tables) {
    && n.users.Keys == t.users.Keys && n.emails.Keys == t.emails.Keys && n.auths.Keys == t.auths.Keys
    && (forall e | e in t.emails :: n.emails[e].user == t.emails[e].user)
    && (forall a | a in t.auths :: n.auths[a].user == t.auths[a].user)
  }

  lemma StepOwners(sys: System, ev: Event)
    requires !Creates(sys, ev)
    ensures SameOwners(sys.t, Next(sys, ev).t)
  {
  }

  ghost predicate IsCreated(t: Tables, n: Tables, made: NewUser) {
    && made.user != "" && made.user !in t.users && made.email !in t.emails && made.auth !in t.auths
    && n.users.Keys == t.users.Keys + {made.user} && n.users == t.users[made.user := n.users[made.user]]
    && n.auths == t.auths[made.auth := Auth(made.user, true, None, made.hash)]
    && n.emails.Keys == t.emails.Keys + {made.email} && n.emails == t.emails[made.email := n.emails[made.email]]
    && n.emails[made.email].user == made.user
    && n.users[made.user].status != Disabled
    && (n.users[made.user].status == Pending <==> n.emails[made.email].verified.None?)
  }

  lemma StepCreates(sys: System, ev: Event)
    requires Creates(sys, ev)
    ensures IsCreated(sys.t, Next(sys, ev).t, ev.made)
  {
  }

  lemma OneAuthKept(t: Tables, n: Tables)
    requires OneAuthEach(t) && SameOwners(t, n)
    ensures OneAuthEach(n)
  {
    forall u | u in n.users
      ensures exists a :: OwnsAuth(n, u, a)
    {
      var a :| OwnsAuth(t, u, a);
      assert OwnsAuth(n, u, a);
    }
  }

  lemma OneEmailKept(t: Tables, n: Tables)
    requires OneEmailEach(t) && SameOwners(t, n)
    ensures OneEmailEach(n)
  {
    forall u | u in n.users
      ensures exists e :: OwnsEmail(n, u, e)
    {
      var e :| OwnsEmail(t, u, e);
      assert OwnsEmail(n, u, e);
    }
  }

  lemma OneAuthCreated(t: Tables, n: Tables, made: NewUser)
    requires OneAuthEach(t) && IsCreated(t, n, made)
    ensures OneAuthEach(n)
  {
    forall u | u in n.users
      ensures exists a :: OwnsAuth(n, u, a)
    {
      if u == made.user {
        assert OwnsAuth(n, u, made.auth);
      } else {
        var a :| OwnsAuth(t, u, a);
        assert OwnsAuth(n, u, a);
      }
    }
  }

  lemma OneEmailCreated(t: Tables, n: Tables, made: NewUser)
    requires OneEmailEach(t) && IsCreated(t, n, made)
    ensures OneEmailEach(n)
  {
    forall u | u in n.users
      ensures exists e :: OwnsEmail(n, u, e)
    {
      if u == made.user {
        assert OwnsEmail(n, u, made.email);
      } else {
        var e :| OwnsEmail(t, u, e);
        assert OwnsEmail(n, u, e);
      }
    }
  }

  lemma StepOneEach(sys: System, ev: Event)
    requires OneAuthEach(sys.t) && OneEmailEach(sys.t)
    ensures OneAuthEach(Next(sys, ev).t) && OneEmailEach(Next(sys, ev).t)
  {
    hide Next, Creatable, OneAuthEach, OneEmailEach, SameOwners, IsCreated;
    if Creates(sys, ev) {
      StepCreates(sys, ev);
      OneAuthCreated(sys.t, Next(sys, ev).t, ev.made);
      OneEmailCreated(sys.t, Next(sys, ev).t, ev.made);
    } else {
      StepOwners(sys, ev);
      OneAuthKept(sys.t, Next(sys, ev).t);
      OneEmailKept(sys.t, Next(sys, ev).t);
    }
  }

  /** A user row changes only together with its etag, which then is a new one. */
  lemma StepUsers(sys: System, ev: Event)
    ensures var next := Next(sys, ev);
      && sys.spent <= next.spent && sys.t.users.Keys <= next.t.users.Keys
      && forall u | u in next.t.users ::
           (u in sys.t.users && next.t.users[u] == sys.t.users[u])
           || (next.t.users[u].etag !in sys.spent && next.t.users[u].etag in next.spent)
  {
    if ev.Reset? {
      return;
    }
    hide ResetPassword;
  }

  lemma StepHeld(sys: System, ev: Event)
    requires HeldCurrent(sys)
    ensures HeldCurrent(Next(sys, ev))
  {
    StepUsers(sys, ev);
    HeldGrows(sys, ev);
    hide Next;
  }

  lemma HeldGrows(sys: System, ev: Event)
    ensures forall h | h in Next(sys, ev).held :: h in sys.held || (h.0 in sys.t.users && h.1 == sys.t.users[h.0])
  {
  }

  /** Which events move a user between states, and where to. */
  ghost predicate StatusMoved(sys: System, ev: Event, t: Tables, n: Tables) {
    forall u | u in t.users ::
      u in n.users && n.users[u].status == (
        if ev.SetStatus? && ev.user == u && Lands(sys, ev) then (if ev.disable then Disabled else Active)
        else if ev.ActivateEmail? && ev.user == u && Lands(sys, ev) then Active
        else t.users[u].status)
  }

  ghost predicate AuthsMoved(sys: System, ev: Event, t: Tables, n: Tables) {
    forall a | a in t.auths ::
      && a in n.auths && n.auths[a].user == t.auths[a].user
      && n.auths[a].enabled == (if ev.SetStatus? && ev.user == t.auths[a].user && Lands(sys, ev) then !ev.disable else t.auths[a].enabled)
      && n.auths[a].revoked == (
           if ev.SetStatus? && ev.user == t.auths[a].user && Lands(sys, ev) then (if ev.disable then Some(ev.now) else None)
           else t.auths[a].revoked)
  }

  ghost predicate Lands(sys: System, ev: Event) {
    match ev
    case SetStatus(user, seen, disable, etag, _) => StatusLands(sys, user, seen, disable, etag)
    case ActivateEmail(user, etag, _) => ActivationLands(sys, user, etag)
    case Reset(id, _, now) => ResetLands(sys.t, id, now)
    case _ => false
  }

  lemma StepStatus(sys: System, ev: Event)
    ensures StatusMoved(sys, ev, sys.t, Next(sys, ev).t)
  {
    if ev.SetStatus? || ev.ActivateEmail? || ev.Reset? {
      return;
    }
    hide ResetPassword, Activate, ChangeStatus, Lands;
  }

  lemma StepAuths(sys: System, ev: Event)
    ensures AuthsMoved(sys, ev, sys.t, Next(sys, ev).t)
  {
    if ev.SetStatus? || ev.ActivateEmail? || ev.Reset? {
      return;
    }
    hide ResetPassword, Activate, ChangeStatus, Lands;
  }

  lemma StepFollowsStatus(sys: System, ev: Event)
    requires OneAuthEach(sys.t) && AuthFollowsStatus(sys.t)
    ensures AuthFollowsStatus(Next(sys, ev).t)
  {
    StepStatus(sys, ev);
    StepAuths(sys, ev);
    if ev.ActivateEmail? && Lands(sys, ev) {
      assert sys.t.users[ev.user].status == Pending;
    }
    hide Next, Lands, Creatable;
    if Creates(sys, ev) {
      StepCreates(sys, ev);
      return;
    }
    StepOwners(sys, ev);
  }

  // Verification.

  /** A verified time appears only when a pending user is activated, and then stays as it is. */
  ghost predicate EmailsMoved(sys: System, ev: Event, t: Tables, n: Tables) {
    forall e | e in t.emails ::
      && e in n.emails
      && (n.emails[e] == t.emails[e]
          || (ev.ActivateEmail? && ev.user == t.emails[e].user && Lands(sys, ev)
              && n.emails[e] == t.emails[e].(verified := Some(ev.now))))
  }

  lemma StepEmails(sys: System, ev: Event)
    ensures EmailsMoved(sys, ev, sys.t, Next(sys, ev).t)
  {
    if ev.ActivateEmail? || ev.Reset? {
      return;
    }
    hide ResetPassword, Activate, Lands;
  }

  lemma StepPending(sys: System, ev: Event)
    requires OneEmailEach(sys.t) && PendingUnverified(sys.t)
    ensures PendingUnverified(Next(sys, ev).t)
  {
    StepStatus(sys, ev);
    StepEmails(sys, ev);
    if Creates(sys, ev) {
      StepCreates(sys, ev);
    } else {
      StepOwners(sys, ev);
    }
    hide Next, Creates, Lands;
  }

  /** Token rows are added and consumed, but never otherwise changed. */
  ghost predicate TokensKept(tokens: map<Id, Token>, next: map<Id, Token>) {
    forall i | i in tokens ::
      i in next && next[i].user == tokens[i].user && next[i].hash == tokens[i].hash && next[i].expires == tokens[i].expires
  }

  lemma StepTokens(sys: System, ev: Event)
    ensures TokensKept(sys.t.verifications, Next(sys, ev).t.verifications)
    ensures TokensKept(sys.t.resets, Next(sys, ev).t.resets)
    ensures UniqueTokens(sys.t.verifications) ==> UniqueTokens(Next(sys, ev).t.verifications)
    ensures UniqueTokens(sys.t.resets) ==> UniqueTokens(Next(sys, ev).t.resets)
  {
    if ev.NewVerification? || ev.NewReset? {
      return;
    }
    TokenKeys(sys, ev);
    hide Next;
  }

  lemma TokenKeys(sys: System, ev: Event)
    requires !ev.NewVerification? && !ev.NewReset?
    ensures var t, n := sys.t, Next(sys, ev).t;
      && n.verifications.Keys == t.verifications.Keys && n.resets.Keys == t.resets.Keys
      && TokensKept(t.verifications, n.verifications) && TokensKept(t.resets, n.resets)
  {
    if ev.Reset? || ev.ConsumeVerification? {
      return;
    }
    OtherTokens(sys, ev);
    hide Next;
  }

  lemma OtherTokens(sys: System, ev: Event)
    requires !ev.NewVerification? && !ev.NewReset? && !ev.Reset? && !ev.ConsumeVerification?
    ensures Next(sys, ev).t.verifications == sys.t.verifications && Next(sys, ev).t.resets == sys.t.resets
  {
    hide Creatable, StatusLands, ActivationLands, ActivePassword, ResetPassword;
  }

  lemma StepKeepsInv(sys: System, ev: Event)
    requires Inv(sys)
    ensures Inv(Next(sys, ev))
  {
    StepOneEach(sys, ev);
    StepFollowsStatus(sys, ev);
    StepPending(sys, ev);
    StepHeld(sys, ev);
    StepTokens(sys, ev);
    hide Next, OneAuthEach, OneEmailEach, AuthFollowsStatus, PendingUnverified, HeldCurrent, UniqueTokens;
  }

  /** The aggregate's invariant holds in every state a run reaches. */
  lemma {:induction false} RunKeepsInv(sys: System, evs: seq<Event>)
    requires Inv(sys)
    ensures Inv(Run(sys, evs))
    decreases |evs|
  {
    if evs != [] {
      StepKeepsInv(sys, evs[0]);
      RunKeepsInv(Next(sys, evs[0]), evs[1..]);
    }
  }
}
