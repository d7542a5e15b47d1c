/** The whole way of a client, from the authorization request to rotated tokens, as five and then two events of a run. */
module TokenFlow {
  import opened Options
  import opened TokenStore
  import opened TokenRuns
  import opened TokenInvariant
  import opened TokenTheorems
  import opened TokenIssuance

  /** What a lookup finds, the client holds. */
  lemma FoundIsHeld(sys: System, ev: Event)
    ensures (ev.FetchRequest? || ev.FetchByCode? || ev.FetchByRefresh?) && Step(sys, ev).1.Found? ==>
      Step(sys, ev).1.request in Next(sys, ev).held
    ensures sys.held <= Next(sys, ev).held
  {
    hide LookupRefresh, LookupCode, Exchange, ExchangeAccessOnly, Complete, SaveCode, Revoke, RevokeToken;
  }

  /** The generated identifiers and hashes of one authorization. */
  datatype Drawn = Drawn(request: Id, code: Id, codeHash: string, first: NewIds)

  ghost predicate Unused(sys: System, d: Drawn) {
    && d.request !in sys.spent && d.code != "" && d.code !in sys.st.codes && d.codeHash != ""
    && (forall c | c in sys.st.codes :: sys.st.codes[c].hash != d.codeHash && sys.st.codes[c].request != d.request)
    && NewSessionKeys(sys.st, d.first) && NewKeys(sys.st, true, d.first)
  }

  /** The state after the request was made, completed and its code saved, all at time now. */
  ghost function Authorized(sys: System, d: Drawn, client: Id, scopes: seq<string>, user: Id, login: Id, authTime: Time, now: Time): System {
    var made := Next(sys, CreateRequest(d.request, client, scopes, now));
    var completed := Next(made, CompleteRequest(d.request, user, login, authTime, now));
    Next(completed, SaveRequestCode(d.request, d.code, d.codeHash, now))
  }

  lemma AuthorizedIs(sys: System, d: Drawn, client: Id, scopes: seq<string>, user: Id, login: Id, authTime: Time, now: Time)
    requires Unused(sys, d) && client != "" && user != ""
    ensures var row := RequestRow(client, scopes, Some(user), Some(login), Some(authTime), true, now + 600);
      Authorized(sys, d, client, scopes, user, login, authTime, now) == sys.(
        spent := sys.spent + {d.request},
        st := sys.st.(requests := sys.st.requests[d.request := row],
                      codes := sys.st.codes[d.code := CodeRow(d.request, d.codeHash, None, client, user, scopes, now + 300, None)]))
  {
    CreatedCompletes(sys, d.request, client, scopes, now, user, login, authTime, now);
    var made := Next(sys, CreateRequest(d.request, client, scopes, now));
    var row := RequestRow(client, scopes, Some(user), Some(login), Some(authTime), true, now + 600);
    assert made.st.requests[d.request := row] == sys.st.requests[d.request := row];
  }

  /**
    From every reachable state and with new keys, the code of a completed request is found and exchanged for
    tokens exactly within 5 minutes of being saved and while the user is active.
   */
  lemma CodeFlow(users: set<Id>, evs: seq<Event>, d: Drawn, client: Id, scopes: seq<string>, user: Id, login: Id, authTime: Time, now: Time, later: Time)
    requires Unused(Run(Start(users), evs), d) && client != "" && user != "" && login != ""
    ensures var sys := Authorized(Run(Start(users), evs), d, client, scopes, user, login, authTime, now);
      var (holding, found) := Step(sys, FetchByCode(d.codeHash, later));
      if later < now + 300 then
        && found.Found? && found.request in holding.held
        && (Step(holding, ExchangeBoth(found.request, d.first, later)).1.Issued? <==> user in sys.st.activeUsers)
      else found == Failed(NotFound)
  {
    var start := Run(Start(users), evs);
    Reachable(users, evs);
    hide Run, Inv;
    var sys := Authorized(start, d, client, scopes, user, login, authTime, now);
    AuthorizedIs(start, d, client, scopes, user, login, authTime, now);
    hide Authorized;
    FetchSaved(sys, d, later);
    var (holding, found) := Step(sys, FetchByCode(d.codeHash, later));
    if later < now + 300 {
      CodeIssuesExactlyWhen(sys.st, sys.st.requests[d.request], d.code, true, d.first, later);
      ExchangeIs(holding, found.request, d.first, later);
    }
  }

  lemma FetchSaved(sys: System, d: Drawn, later: Time)
    requires d.code in sys.st.codes && sys.st.codes[d.code].hash == d.codeHash && sys.st.codes[d.code].request == d.request
    requires sys.st.codes[d.code].consumed.None? && d.request in sys.st.requests && Ready(sys.st.requests[d.request])
    requires forall c | c in sys.st.codes && sys.st.codes[c].hash == d.codeHash :: c == d.code
    ensures Step(sys, FetchByCode(d.codeHash, later)) ==
      if later < sys.st.codes[d.code].expires
      then var found := Found(AuthorizationRequest(sys.st.requests[d.request], d.code)); (sys.(held := sys.held + {found.request}), found)
      else (sys, Failed(NotFound))
  {
    assert forall c :: IsLiveCode(sys.st, c, d.codeHash, later) ==> c == d.code;
    assert IsLiveCode(sys.st, d.code, d.codeHash, later) <==> later < sys.st.codes[d.code].expires;
    hide IsLiveCode;
  }

  lemma ExchangeIs(sys: System, h: TokenRequest, minted: NewIds, now: Time)
    requires h in sys.held
    ensures Step(sys, ExchangeBoth(h, minted, now)) == (sys.(st := Issue(sys.st, h, true, minted, now).0), Issue(sys.st, h, true, minted, now).1)
  {
    hide Exchange;
  }

  /**
    And so on for ever: the refresh token of an exchange is found and exchanged again exactly within 7 days, with
    new keys, while the user is active.
   */
  lemma RefreshFlow(users: set<Id>, evs: seq<Event>, h: TokenRequest, minted: NewIds, now: Time, later: Time, next: NewIds)
    requires h in Run(Start(users), evs).held && Issue(Run(Start(users), evs).st, h, true, minted, now).1.Issued?
    requires NewKeys(Issue(Run(Start(users), evs).st, h, true, minted, now).0, true, next)
    ensures var issued := Next(Run(Start(users), evs), ExchangeBoth(h, minted, now));
      var (holding, found) := Step(issued, FetchByRefresh(minted.hash, later));
      if later < now + 604800 then
        && found.Found? && found.request in holding.held
        && Step(holding, ExchangeBoth(found.request, next, later)).1.Issued?
      else found == Failed(NotFound)
  {
    var sys := Run(Start(users), evs);
    IssuedWorks(users, evs, h, true, minted, now, "", later);
    Reachable(users, evs);
    assert HeldTied(sys.st, h) && "" !in sys.st.codes && "" !in sys.st.sessions;
    hide Run, Inv;
    ExchangeIs(sys, h, minted, now);
    var issued := Next(sys, ExchangeBoth(h, minted, now));
    FetchIs(issued, minted.hash, later);
    hide Step, Next;
    if later < now + 604800 {
      SessionNamed(sys.st, h, minted, now);
      var (holding, found) := Step(issued, FetchByRefresh(minted.hash, later));
      RefreshIssuesExactlyWhen(issued.st, found.request, next, later);
      ExchangeIs(holding, found.request, next, later);
    }
  }

  lemma FetchIs(sys: System, hash: string, now: Time)
    ensures Step(sys, FetchByRefresh(hash, now)) ==
      (Hold(sys.(st := LookupRefresh(sys.st, hash, now).0), LookupRefresh(sys.st, hash, now).1), LookupRefresh(sys.st, hash, now).1)
  {
    hide LookupRefresh;
  }

  /** What the rotation of the new token relies on. */
  lemma SessionNamed(st: Store, h: TokenRequest, minted: NewIds, now: Time)
    requires "" !in st.codes && "" !in st.sessions && Issue(st, h, true, minted, now).1.Issued?
    ensures var st', i := Issue(st, h, true, minted, now).0, SessionFor(h, minted);
      && i != "" && i in st'.sessions && st'.sessions[i].revoked.None? && SubjectOf(h) in st'.activeUsers
      && minted.refresh in st'.refresh && st'.refresh[minted.refresh].consumed.None? && st'.refresh[minted.refresh].revoked.None?
      && st'.refresh[minted.refresh].expires == now + 604800
  {
    if h.AuthorizationRequest? {
      CodeIssuesExactlyWhen(st, h.entity, h.codeId, true, minted, now);
      CodeIssues(st, h.entity, h.codeId, true, minted, now);
    } else {
      assert h.sessionId != "";
      RefreshIssuesExactlyWhen(st, h, minted, now);
      RefreshIssues(st, h, minted, now);
    }
    hide Issue;
  }
}
