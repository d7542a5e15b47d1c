/**
  The guarantees of the token service, over every run from the empty store.
*/
module TokenTheorems {
  import opened Options
  import opened TokenStore
  import opened TokenRuns
  import opened TokenInvariant
  import opened TokenIssuance

  lemma {:induction false} RunKeepsInv(sys: System, evs: seq<Event>)
    requires Inv(sys)
    ensures Inv(Run(sys, evs))
    decreases |evs|
  {
    if evs != [] {
      StepKeepsInv(sys, evs[0]);
      RunKeepsInv(Next(sys, evs[0]), evs[1..]);
    }
  }

  lemma {:induction false} RunGrows(sys: System, evs: seq<Event>)
    ensures Grows(sys.st, Run(sys, evs).st)
    decreases |evs|
  {
    if evs != [] {
      StepGrows(sys, evs[0]);
      RunGrows(Next(sys, evs[0]), evs[1..]);
    }
  }

  lemma Reachable(users: set<Id>, evs: seq<Event>)
    ensures Inv(Run(Start(users), evs))
  {
    RunKeepsInv(Start(users), evs);
  }

  // 1. The refresh tokens of a session form one line.

  ghost predicate Member(st: Store, t: Id, i: Id) {
    t in st.refresh && st.refresh[t].session == i
  }

  ghost predicate IsChild(st: Store, p: Id, c: Id) {
    c in st.refresh && st.refresh[c].parent == Some(p)
  }

  lemma FamilyIsLinear(users: set<Id>, evs: seq<Event>, i: Id)
    requires var st := Run(Start(users), evs).st; i in st.sessions
    ensures var st := Run(Start(users), evs).st; exists chain :: IsFamily(st, i, chain)
  {
    Reachable(users, evs);
    assert HasFamily(Run(Start(users), evs).st, i);
  }

  /** Where token t stands in the line from root to tip: it has one child exactly when it is consumed. */
  ghost predicate WellPlaced(st: Store, t: Id, root: Id, tip: Id)
    requires t in st.refresh
  {
    && (st.refresh[t].parent.None? <==> t == root)
    && (st.refresh[t].consumed.None? <==> t == tip)
    && (st.refresh[t].consumed.Some? <==> exists c :: IsChild(st, t, c))
    && (forall c, d | IsChild(st, t, c) && IsChild(st, t, d) :: c == d)
  }

  /** The same without the list: one root, one unconsumed tip, and one child for each consumed token. */
  lemma FamilyShape(users: set<Id>, evs: seq<Event>, i: Id, some: Id) returns (root: Id, tip: Id)
    requires Member(Run(Start(users), evs).st, some, i)
    ensures var st := Run(Start(users), evs).st;
      Member(st, root, i) && Member(st, tip, i) && forall t | Member(st, t, i) :: WellPlaced(st, t, root, tip)
  {
    var st := Run(Start(users), evs).st;
    Reachable(users, evs);
    assert HasFamily(st, i);
    var chain :| IsFamily(st, i, chain);
    assert some in chain;
    root, tip := chain[0], chain[|chain| - 1];
    assert root in chain && tip in chain;
    forall t | Member(st, t, i)
      ensures WellPlaced(st, t, root, tip)
    {
      MemberShape(st, i, chain, t);
    }
  }

  lemma MemberShape(st: Store, i: Id, chain: seq<Id>, t: Id)
    requires FamiliesLinear(st) && TokensTied(st) && IsFamily(st, i, chain) && Member(st, t, i)
    ensures |chain| > 0 && WellPlaced(st, t, chain[0], chain[|chain| - 1])
  {
    assert t in chain;
    var k :| 0 <= k < |chain| && chain[k] == t;
    assert Link(st, chain, k);
    if k + 1 < |chain| {
      assert Link(st, chain, k + 1);
      assert IsChild(st, t, chain[k + 1]);
    }
    forall c | IsChild(st, t, c)
      ensures k + 1 < |chain| && c == chain[k + 1]
    {
      ChildInChain(st, i, chain, k, c);
    }
  }

  /** A child belongs to its parent's session, right after it. */
  lemma ChildInChain(st: Store, i: Id, chain: seq<Id>, k: nat, c: Id)
    requires FamiliesLinear(st) && TokensTied(st) && IsFamily(st, i, chain) && k < |chain| && IsChild(st, chain[k], c)
    ensures k + 1 < |chain| && c == chain[k + 1]
  {
    var own := st.refresh[c].session;
    assert HasFamily(st, own);
    var other :| IsFamily(st, own, other);
    assert c in other;
    var m :| 0 <= m < |other| && other[m] == c;
    assert Link(st, other, m);
    assert other[m - 1] == chain[k] && other[m - 1] in other && chain[k] in chain;
    assert own == i && c in chain;
    var n :| 0 <= n < |chain| && chain[n] == c;
    assert Link(st, chain, n);
    assert chain[n - 1] == chain[k];
  }

  lemma ChildAgreesWithParent(users: set<Id>, evs: seq<Event>, p: Id, c: Id)
    requires IsChild(Run(Start(users), evs).st, p, c)
    ensures var st := Run(Start(users), evs).st;
      && p in st.refresh && st.refresh[p].session == st.refresh[c].session && st.refresh[p].family == st.refresh[c].family
      && st.refresh[p].consumed == Some(st.refresh[c].issued) && st.refresh[c].issued < st.refresh[p].expires
  {
    var st := Run(Start(users), evs).st;
    Reachable(users, evs);
    var i := st.refresh[c].session;
    assert HasFamily(st, i);
    var chain :| IsFamily(st, i, chain);
    assert c in chain;
    var k :| 0 <= k < |chain| && chain[k] == c;
    assert Link(st, chain, k);
    assert Link(st, chain, k - 1);
    assert chain[k - 1] in chain;
  }

  // 2. Revocation is final and covers every token.

  /** Session i and its tokens are the same rows in both stores, with no token more or less. */
  ghost predicate Frozen(st: Store, st': Store, i: Id) {
    && i in st.sessions && i in st'.sessions && st'.sessions[i] == st.sessions[i]
    && (forall a | a in st.access && st.access[a].session == i :: a in st'.access && st'.access[a] == st.access[a])
    && (forall t | t in st.refresh && st.refresh[t].session == i :: t in st'.refresh && st'.refresh[t] == st.refresh[t])
    && (forall a | a in st'.access && st'.access[a].session == i :: a in st.access && st.access[a].session == i)
    && (forall t | t in st'.refresh && st'.refresh[t].session == i :: t in st.refresh && st.refresh[t].session == i)
  }

  ghost predicate RevokedSession(st: Store, i: Id) {
    i in st.sessions && st.sessions[i].revoked.Some?
  }

  lemma StaysFrozen(st: Store, st': Store, i: Id)
    requires i in st.sessions && st'.sessions == st.sessions && st'.access == st.access && st'.refresh == st.refresh
    ensures Frozen(st, st', i)
  {
  }

  lemma RevokeFreezes(st: Store, ids: set<Id>, now: Time, i: Id)
    requires TokensTied(st) && RevokedSession(st, i)
    ensures Frozen(st, Revoke(st, ids, now), i)
  {
  }

  lemma OpenFreezes(st: Store, g: Grant, withRefresh: bool, minted: NewIds, now: Time, i: Id)
    requires RevokedSession(st, i) && g.codeId in st.codes && minted.session !in st.sessions && minted.access !in st.access
    requires withRefresh ==> minted.refresh !in st.refresh
    ensures Frozen(st, Open(st, g, withRefresh, minted, now), i)
  {
  }

  lemma RotateFreezes(st: Store, g: Grant, minted: NewIds, now: Time, i: Id)
    requires RevokedSession(st, i) && RotationAllowed(st, g, minted, now)
    ensures Frozen(st, Rotate(st, g, minted, now), i)
  {
  }

  lemma IssueFreezes(st: Store, h: TokenRequest, both: bool, minted: NewIds, now: Time, i: Id)
    requires StoreInv(st) && HeldTied(st, h) && RevokedSession(st, i)
    ensures Frozen(st, Issue(st, h, both, minted, now).0, i)
  {
    if Issue(st, h, both, minted, now).0 == st {
      StaysFrozen(st, st, i);
      return;
    }
    var g := GrantFromRequest(h).value;
    HeldGrant(st, h);
    if !both || g.sessionId == "" {
      OpenFreezes(st, g, both, minted, now, i);
      return;
    }
    if ExchangeRefresh(st, g, minted, now).1.Issued? {
      RotateFreezes(st, g, minted, now, i);
      return;
    }
    RevokeFreezes(st, {g.sessionId}, now, i);
  }

  lemma StepFreezes(sys: System, ev: Event, i: Id)
    requires Inv(sys) && RevokedSession(sys.st, i)
    ensures Frozen(sys.st, Next(sys, ev).st, i)
  {
    var st, st' := sys.st, Next(sys, ev).st;
    StepKinds(sys, ev);
    if IsExchange(ev) && ev.request in sys.held {
      IssueFreezes(st, ev.request, ev.ExchangeBoth?, ev.minted, ev.now, i);
    } else if IsRevocation(st, st') {
      var ids, now :| st' == Revoke(st, ids, now);
      RevokeFreezes(st, ids, now, i);
    } else {
      StaysFrozen(st, st', i);
    }
  }

  lemma {:induction false} RevocationIsFinal(sys: System, evs: seq<Event>, i: Id)
    requires Inv(sys) && RevokedSession(sys.st, i)
    ensures Frozen(sys.st, Run(sys, evs).st, i)
    decreases |evs|
  {
    if evs != [] {
      StepFreezes(sys, evs[0], i);
      StepKeepsInv(sys, evs[0]);
      RevocationIsFinal(Next(sys, evs[0]), evs[1..], i);
    }
  }

  /** In every state, each token is revoked exactly when, and since, its session is. */
  lemma TokensRevokedWithSession(users: set<Id>, evs: seq<Event>)
    ensures var st := Run(Start(users), evs).st;
      && (forall a | a in st.access :: st.access[a].session in st.sessions
           && st.access[a].revoked == st.sessions[st.access[a].session].revoked)
      && (forall t | t in st.refresh :: st.refresh[t].session in st.sessions
           && st.refresh[t].revoked == st.sessions[st.refresh[t].session].revoked)
  {
    Reachable(users, evs);
  }

  /** After a session is revoked, no access token of it is accepted and no refresh token of it is found. */
  lemma NothingOfRevokedSessionAccepted(users: set<Id>, before: seq<Event>, evs: seq<Event>, i: Id)
    requires RevokedSession(Run(Start(users), before).st, i)
    ensures var later := Run(Start(users), before + evs).st;
      && (forall a, subject, now | Accepted(later, a, subject, now) :: later.access[a].session != i)
      && (forall t, now | Member(later, t, i) :: LookupRefreshRow(later, t, now).1.Failed?)
  {
    Reachable(users, before);
    RunAppend(Start(users), before, evs);
    RevocationIsFinal(Run(Start(users), before), evs, i);
  }

  // 3. A refresh token is exchanged at most once, and presenting it again revokes its session.

  ghost predicate ExchangesToken(ev: Event, t: Id) {
    ev.ExchangeBoth? && ev.request.RefreshRequest? && ev.request.tokenId == t
  }

  ghost predicate ConsumedToken(st: Store, t: Id) {
    t in st.refresh && st.refresh[t].consumed.Some?
  }

  ghost predicate WholeSessionRevoked(st: Store, i: Id) {
    && RevokedSession(st, i)
    && (forall a | a in st.access && st.access[a].session == i :: st.access[a].revoked.Some?)
    && (forall t | t in st.refresh && st.refresh[t].session == i :: st.refresh[t].revoked.Some?)
  }

  lemma RevokeRevokes(st: Store, i: Id, now: Time)
    requires i in st.sessions
    ensures WholeSessionRevoked(Revoke(st, {i}, now), i)
  {
  }

  /** An exchange that succeeds consumes the token it was given. */
  lemma ExchangeConsumes(sys: System, ev: Event, t: Id)
    requires Inv(sys) && ExchangesToken(ev, t) && Step(sys, ev).1.Issued?
    ensures t in sys.st.refresh && !ConsumedToken(sys.st, t) && ConsumedToken(Next(sys, ev).st, t)
  {
    assert TokensTied(sys.st);
    hide StoreInv, RequestsTied, RefreshInsertable, Revoke;
    assert HeldTied(sys.st, ev.request);
  }

  /** The second use of a consumed token: an error to the caller, and the session with all its tokens revoked. */
  lemma ReplayRevokesSession(sys: System, ev: Event, t: Id)
    requires Inv(sys) && ExchangesToken(ev, t) && ev.request in sys.held && ConsumedToken(sys.st, t)
    ensures Step(sys, ev).1 == Failed(ReplayDetected)
    ensures WholeSessionRevoked(Next(sys, ev).st, sys.st.refresh[t].session)
  {
    RevokeRevokes(sys.st, ev.request.sessionId, ev.now);
  }

  lemma ReplayedLookupRevokesSession(sys: System, hash: string, now: Time, t: Id)
    requires Inv(sys) && IsRefresh(sys.st, t, hash) && ConsumedToken(sys.st, t)
    ensures Step(sys, FetchByRefresh(hash, now)).1 == Failed(NotFound)
    ensures WholeSessionRevoked(Next(sys, FetchByRefresh(hash, now)).st, sys.st.refresh[t].session)
  {
    var u := LookupEffect(sys.st, hash, now);
    assert sys.st.refresh[u].hash == sys.st.refresh[t].hash;
    RevokeRevokes(sys.st, sys.st.refresh[t].session, now);
  }

  /** Every other error of an exchange or a lookup leaves the store exactly as it was. */
  lemma OtherErrorsChangeNothing(sys: System, ev: Event)
    requires Inv(sys)
    requires ev.ExchangeBoth? || ev.ExchangeAccess? || ev.FetchByRefresh? || ev.FetchByCode?
    requires Step(sys, ev).1.Failed?
    requires !(ev.ExchangeBoth? && ev.request.RefreshRequest? && ConsumedToken(sys.st, ev.request.tokenId))
    requires !(ev.FetchByRefresh? && exists t :: IsRefresh(sys.st, t, ev.hash) && ConsumedToken(sys.st, t))
    ensures Next(sys, ev).st == sys.st
  {
    hide Inv;
    match ev {
      case FetchByRefresh(hash, now) => FailedLookup(sys.st, hash, now);
      case ExchangeBoth(request, minted, now) =>
        if request in sys.held {
          FailedExchange(sys.st, request, minted, now);
        }
      case ExchangeAccess(request, minted, now) =>
        if request in sys.held {
          FailedAccess(sys.st, request, minted, now);
        }
      case _ =>
    }
    hide LookupRefresh, Exchange, ExchangeAccessOnly, LookupCode;
  }

  lemma FailedLookup(st: Store, hash: string, now: Time)
    requires forall t :: !(IsRefresh(st, t, hash) && ConsumedToken(st, t))
    ensures LookupRefresh(st, hash, now).0 == st
  {
    if exists t :: IsRefresh(st, t, hash) {
      var t := LookupEffect(st, hash, now);
      assert !ConsumedToken(st, t);
    }
  }

  lemma FailedExchange(st: Store, request: TokenRequest, minted: NewIds, now: Time)
    requires Exchange(st, request, minted, now).1.Failed?
    requires !(request.RefreshRequest? && ConsumedToken(st, request.tokenId))
    ensures Exchange(st, request, minted, now).0 == st
  {
    hide Revoke, Rotate, Open, NewSession, SessionInsertable, RefreshInsertable;
  }

  lemma FailedAccess(st: Store, request: TokenRequest, minted: NewIds, now: Time)
    requires ExchangeAccessOnly(st, request, minted, now).1.Failed?
    ensures ExchangeAccessOnly(st, request, minted, now).0 == st
  {
    hide Open, NewSession, SessionInsertable;
  }

  lemma StillConsumed(users: set<Id>, evs: seq<Event>, j: nat, k: nat, t: Id)
    requires j < k <= |evs| && ExchangesToken(evs[j], t) && AnswerAt(Start(users), evs, j).Issued?
    ensures ConsumedToken(Run(Start(users), evs[..k]).st, t)
  {
    var sys := Run(Start(users), evs[..j]);
    Reachable(users, evs[..j]);
    ExchangeConsumes(sys, evs[j], t);
    var between := evs[j..k];
    assert evs[..k] == evs[..j] + between && between[0] == evs[j];
    RunAppend(Start(users), evs[..j], between);
    RunGrows(Next(sys, evs[j]), between[1..]);
  }

  /** Of all exchanges of one token in a run, whoever holds it, at most one succeeds. */
  lemma AtMostOneExchange(users: set<Id>, evs: seq<Event>, j: nat, k: nat, t: Id)
    requires j < k < |evs| && ExchangesToken(evs[j], t) && ExchangesToken(evs[k], t)
    requires AnswerAt(Start(users), evs, j).Issued?
    ensures !AnswerAt(Start(users), evs, k).Issued?
  {
    StillConsumed(users, evs, j, k, t);
    Reachable(users, evs[..k]);
    if AnswerAt(Start(users), evs, k).Issued? {
      ExchangeConsumes(Run(Start(users), evs[..k]), evs[k], t);
      assert false;
    }
  }

  /** Every later use of an exchanged token, at exchange or at lookup, fails and revokes its whole session. */
  lemma LaterUseRevokes(users: set<Id>, evs: seq<Event>, j: nat, k: nat, t: Id)
    requires j < k < |evs| && ExchangesToken(evs[j], t) && AnswerAt(Start(users), evs, j).Issued?
    requires var sys := Run(Start(users), evs[..k]);
      || (ExchangesToken(evs[k], t) && evs[k].request in sys.held)
      || (evs[k].FetchByRefresh? && IsRefresh(sys.st, t, evs[k].hash))
    ensures AnswerAt(Start(users), evs, k).Failed?
    ensures var sys := Run(Start(users), evs[..k]);
      t in sys.st.refresh && WholeSessionRevoked(Next(sys, evs[k]).st, sys.st.refresh[t].session)
  {
    var sys := Run(Start(users), evs[..k]);
    StillConsumed(users, evs, j, k, t);
    Reachable(users, evs[..k]);
    if evs[k].FetchByRefresh? {
      ReplayedLookupRevokesSession(sys, evs[k].hash, evs[k].now, t);
    } else {
      ReplayRevokesSession(sys, evs[k], t);
    }
  }

  // 4. Authorization codes and sessions correspond one to one.

  ghost predicate ExchangesCode(ev: Event, c: Id) {
    (ev.ExchangeBoth? || ev.ExchangeAccess?) && ev.request.AuthorizationRequest? && ev.request.codeId == c
  }

  ghost predicate ConsumedCode(st: Store, c: Id) {
    c in st.codes && st.codes[c].consumed.Some?
  }

  lemma CodesAndSessionsBijective(users: set<Id>, evs: seq<Event>)
    ensures var st := Run(Start(users), evs).st;
      && (forall c | ConsumedCode(st, c) :: st.codes[c].session.Some? && st.codes[c].session.value in st.sessions
           && st.codes[c].consumed.value < st.codes[c].expires
           && st.sessions[st.codes[c].session.value].user == st.codes[c].subject
           && st.sessions[st.codes[c].session.value].client == st.codes[c].client)
      && (forall i | i in st.sessions :: exists c :: ConsumedCode(st, c) && st.codes[c].session == Some(i))
      && (forall c, d | ConsumedCode(st, c) && ConsumedCode(st, d) && st.codes[c].session == st.codes[d].session :: c == d)
  {
    var st := Run(Start(users), evs).st;
    Reachable(users, evs);
    forall c | ConsumedCode(st, c)
      ensures st.codes[c].session.Some? && Opens(st, c, st.codes[c].session.value)
    {
    }
    forall i | i in st.sessions
      ensures exists c :: ConsumedCode(st, c) && st.codes[c].session == Some(i)
    {
      var c :| Opens(st, c, i);
      assert ConsumedCode(st, c);
    }
  }

  lemma CodeExchangeConsumes(sys: System, ev: Event, c: Id)
    requires Inv(sys) && ExchangesCode(ev, c) && Step(sys, ev).1.Issued?
    ensures c in sys.st.codes && !ConsumedCode(sys.st, c) && ConsumedCode(Next(sys, ev).st, c)
  {
  }

  /** A consumed code stays consumed, by the same session. */
  lemma StepKeepsConsumedCode(sys: System, ev: Event, c: Id)
    requires ConsumedCode(sys.st, c)
    ensures ConsumedCode(Next(sys, ev).st, c) && Next(sys, ev).st.codes[c] == sys.st.codes[c]
  {
  }

  lemma {:induction false} RunKeepsConsumedCode(sys: System, evs: seq<Event>, c: Id)
    requires ConsumedCode(sys.st, c)
    ensures ConsumedCode(Run(sys, evs).st, c) && Run(sys, evs).st.codes[c] == sys.st.codes[c]
    decreases |evs|
  {
    if evs != [] {
      StepKeepsConsumedCode(sys, evs[0], c);
      RunKeepsConsumedCode(Next(sys, evs[0]), evs[1..], c);
    }
  }

  lemma AtMostOneCodeExchange(users: set<Id>, evs: seq<Event>, j: nat, k: nat, c: Id)
    requires j < k < |evs| && ExchangesCode(evs[j], c) && ExchangesCode(evs[k], c)
    requires AnswerAt(Start(users), evs, j).Issued?
    ensures !AnswerAt(Start(users), evs, k).Issued?
  {
    var sys := Run(Start(users), evs[..j]);
    Reachable(users, evs[..j]);
    CodeExchangeConsumes(sys, evs[j], c);
    var between := evs[j..k];
    assert evs[..k] == evs[..j] + between && between[0] == evs[j];
    RunAppend(Start(users), evs[..j], between);
    RunKeepsConsumedCode(Next(sys, evs[j]), between[1..], c);
    Reachable(users, evs[..k]);
    if AnswerAt(Start(users), evs, k).Issued? {
      CodeExchangeConsumes(Run(Start(users), evs[..k]), evs[k], c);
      assert false;
    }
  }

  // 5. An authorization request is bound to its subject once.

  /** The request r is row while it exists, and its identifier is taken. */
  ghost predicate Bound(sys: System, r: Id, row: RequestRow) {
    r in sys.spent && row.done && (r in sys.st.requests ==> sys.st.requests[r] == row)
  }

  lemma StepKeepsBound(sys: System, ev: Event, r: Id, row: RequestRow)
    requires Bound(sys, r, row)
    ensures Bound(Next(sys, ev), r, row)
  {
    if WritesRequests(ev) {
      hide LookupCode, LookupRefresh, Exchange, ExchangeAccessOnly, Revoke, CodeInsertable;
      return;
    }
    RequestsStay(sys, ev);
    hide Next;
  }

  lemma {:induction false} RunKeepsBound(sys: System, evs: seq<Event>, r: Id, row: RequestRow)
    requires Bound(sys, r, row)
    ensures Bound(Run(sys, evs), r, row)
    decreases |evs|
  {
    hide Bound, Next;
    if evs != [] {
      StepKeepsBound(sys, evs[0], r, row);
      RunKeepsBound(Next(sys, evs[0]), evs[1..], r, row);
    }
  }

  /** Once a request is completed, its subject, login and time stay what they are for as long as it exists; its id never names another. */
  lemma RequestBoundOnce(users: set<Id>, before: seq<Event>, evs: seq<Event>, r: Id)
    requires var st := Run(Start(users), before).st; r in st.requests && st.requests[r].done
    ensures var st, later := Run(Start(users), before).st, Run(Start(users), before + evs).st;
      && st.requests[r].subject.Some? && st.requests[r].authTime.Some?
      && (r in later.requests ==> later.requests[r] == st.requests[r])
  {
    Reachable(users, before);
    RunAppend(Start(users), before, evs);
    var sys := Run(Start(users), before);
    RunKeepsBound(sys, evs, r, sys.st.requests[r]);
  }

  ghost predicate Completes(ev: Event, r: Id) {
    ev.CompleteRequest? && ev.id == r
  }

  lemma CompletionBinds(sys: System, ev: Event, r: Id)
    requires Inv(sys) && Completes(ev, r) && Step(sys, ev).1 == Done
    ensures r in Next(sys, ev).st.requests && Bound(Next(sys, ev), r, Next(sys, ev).st.requests[r])
    ensures Next(sys, ev).st.requests[r].subject == Some(ev.user) && Next(sys, ev).st.requests[r].login == Some(ev.login)
  {
  }

  lemma BoundRefuses(sys: System, ev: Event, r: Id, row: RequestRow)
    requires Bound(sys, r, row) && Completes(ev, r)
    ensures Step(sys, ev).1 == Failed(NotFound)
  {
  }

  /** Of all completions of one request in a run, by whichever users, at most one succeeds. */
  lemma AtMostOneCompletion(users: set<Id>, evs: seq<Event>, j: nat, k: nat, r: Id)
    requires j < k < |evs| && Completes(evs[j], r) && Completes(evs[k], r)
    requires AnswerAt(Start(users), evs, j) == Done
    ensures AnswerAt(Start(users), evs, k) == Failed(NotFound)
  {
    var sys := Run(Start(users), evs[..j]);
    Reachable(users, evs[..j]);
    CompletionBinds(sys, evs[j], r);
    var row := Next(sys, evs[j]).st.requests[r];
    var between := evs[j..k];
    assert evs[..k] == evs[..j] + between && between[0] == evs[j];
    RunAppend(Start(users), evs[..j], between);
    RunKeepsBound(Next(sys, evs[j]), between[1..], r, row);
    BoundRefuses(Run(Start(users), evs[..k]), evs[k], r, row);
  }

  // 6. Disabling a user and then revoking leaves nothing usable until the user is enabled again.

  ghost predicate Shut(st: Store, user: Id) {
    user !in st.activeUsers && forall i | i in st.sessions && st.sessions[i].user == user :: st.sessions[i].revoked.Some?
  }

  lemma DisableThenRevokeShuts(sys: System, user: Id, between: seq<Event>, now: Time)
    requires user != "" && EnableUser(user) !in between
    ensures Shut(Run(sys, [DisableUser(user)] + between + [RevokeByUser(user, now)]).st, user)
  {
    var disabled := Next(sys, DisableUser(user));
    StaysDisabled(disabled, between, user);
    var open := Run(disabled, between);
    RunAppend(sys, [DisableUser(user)], between);
    RunAppend(sys, [DisableUser(user)] + between, [RevokeByUser(user, now)]);
    assert Run(sys, [DisableUser(user)]) == disabled by {
      assert Run(disabled, []) == disabled;
    }
    var last := RevokeByUser(user, now);
    assert Run(open, [last]) == Next(open, last) by {
      assert Run(Next(open, last), []) == Next(open, last);
    }
  }

  lemma {:induction false} StaysDisabled(sys: System, evs: seq<Event>, user: Id)
    requires user !in sys.st.activeUsers && EnableUser(user) !in evs
    ensures user !in Run(sys, evs).st.activeUsers
    decreases |evs|
  {
    if evs != [] {
      assert evs[0] != EnableUser(user);
      StaysDisabled(Next(sys, evs[0]), evs[1..], user);
    }
  }

  /** A session opens for an active user only. */
  lemma IssueOpensForActive(st: Store, h: TokenRequest, both: bool, minted: NewIds, now: Time)
    ensures var st' := Issue(st, h, both, minted, now).0;
      forall i | i in st'.sessions && i !in st.sessions :: st'.sessions[i].user in st.activeUsers
  {
    if GrantFromRequest(h).Some? {
      var g := GrantFromRequest(h).value;
      if both && g.sessionId != "" {
        RefreshOpensNone(st, g, minted, now);
        hide ExchangeRefresh;
      } else {
        CodeOpensForActive(st, g, both, minted, now);
        hide ExchangeCode;
      }
    }
  }

  lemma RefreshOpensNone(st: Store, g: Grant, minted: NewIds, now: Time)
    ensures ExchangeRefresh(st, g, minted, now).0.sessions.Keys == st.sessions.Keys
  {
  }

  lemma CodeOpensForActive(st: Store, g: Grant, withRefresh: bool, minted: NewIds, now: Time)
    ensures var st' := ExchangeCode(st, g, withRefresh, minted, now).0;
      forall i | i in st'.sessions && i !in st.sessions :: st'.sessions[i].user in st.activeUsers
  {
  }

  lemma StepOpensForActive(sys: System, ev: Event)
    ensures var st, st' := sys.st, Next(sys, ev).st;
      forall i | i in st'.sessions && i !in st.sessions :: st'.sessions[i].user in st.activeUsers
  {
    var st, st' := sys.st, Next(sys, ev).st;
    StepKinds(sys, ev);
    hide Next, Issue;
    if IsExchange(ev) && ev.request in sys.held {
      IssueOpensForActive(st, ev.request, ev.ExchangeBoth?, ev.minted, ev.now);
    } else if IsRevocation(st, st') {
      var ids, now :| st' == Revoke(st, ids, now);
      RevokeGrows(st, ids, now);
      assert st'.sessions.Keys == st.sessions.Keys;
    }
  }

  /** Only an enabling event makes a user active. */
  lemma StepEnables(sys: System, ev: Event, user: Id)
    requires user !in sys.st.activeUsers && ev != EnableUser(user)
    ensures user !in Next(sys, ev).st.activeUsers
  {
    if ev.EnableUser? || ev.DisableUser? {
      return;
    }
    StepKeepsActive(sys, ev);
    hide Next;
  }

  lemma StepKeepsActive(sys: System, ev: Event)
    requires !ev.EnableUser? && !ev.DisableUser?
    ensures Next(sys, ev).st.activeUsers == sys.st.activeUsers
  {
    if IsExchange(ev) {
      return;
    }
    if ev.FetchByRefresh? {
      var t := LookupEffect(sys.st, ev.hash, ev.now);
      hide LookupRefresh;
      return;
    }
    hide LookupRefresh, Exchange, ExchangeAccessOnly;
  }

  lemma StepKeepsShut(sys: System, ev: Event, user: Id)
    requires Inv(sys) && Shut(sys.st, user) && ev != EnableUser(user)
    ensures Shut(Next(sys, ev).st, user)
  {
    var st, st' := sys.st, Next(sys, ev).st;
    StepEnables(sys, ev, user);
    StepOpensForActive(sys, ev);
    StepGrows(sys, ev);
    hide Next;
    forall i | i in st'.sessions && st'.sessions[i].user == user
      ensures st'.sessions[i].revoked.Some?
    {
      if i in st.sessions {
        StepFreezes(sys, ev, i);
      }
    }
  }

  /** No code, refresh token or access token works for the user, whatever clients still hold. */
  lemma {:induction false} ShutUserStaysOut(sys: System, evs: seq<Event>, user: Id)
    requires Inv(sys) && Shut(sys.st, user) && EnableUser(user) !in evs
    ensures var later := Run(sys, evs).st;
      Shut(later, user) && forall a, now :: !Accepted(later, a, user, now)
    decreases |evs|
  {
    if evs != [] {
      assert evs[0] != EnableUser(user);
      StepKeepsShut(sys, evs[0], user);
      StepKeepsInv(sys, evs[0]);
      ShutUserStaysOut(Next(sys, evs[0]), evs[1..], user);
    }
  }

  // 7. What was issued works for as long as it should.

  /**
    Whatever happened before, an exchange of a held request that issues tokens gives the access token the
    request's scopes, subject and client; it is accepted for that subject for 15 minutes, and the new refresh
    token leads back to the same client, subject, scopes and time of authentication for 7 days.
   */
  lemma IssuedWorks(users: set<Id>, evs: seq<Event>, h: TokenRequest, both: bool, minted: NewIds, now: Time, subject: Id, later: Time)
    requires h in Run(Start(users), evs).held && Issue(Run(Start(users), evs).st, h, both, minted, now).1.Issued?
    ensures var st := Issue(Run(Start(users), evs).st, h, both, minted, now).0;
      && Carries(st, h, minted, now)
      && (Accepted(st, minted.access, subject, later) <==> subject == SubjectOf(h) && later < now + 900)
      && (both ==> LookupRefresh(st, minted.hash, later) == (st,
            if later < now + 604800
            then Found(RefreshRequest(minted.refresh, SessionFor(h, minted), ClientOf(h), SubjectOf(h), ScopesOf(h), AuthTimeOf(h)))
            else Failed(NotFound)))
  {
    var sys := Run(Start(users), evs);
    Reachable(users, evs);
    assert "" !in sys.st.codes && HeldTied(sys.st, h);
    hide Run, Inv, Issue, Carries, Accepted;
    IssuedCarriesRequest(sys.st, h, both, minted, now);
    IssuedIsAccepted(sys.st, h, both, minted, now, subject, later);
    if both {
      IssuedIsFound(sys.st, h, minted, now, later);
    }
  }

  /** A request can be completed for 10 minutes after it was created, and then has the client and scopes it was created with. */
  lemma CreatedCompletes(sys: System, id: Id, client: Id, scopes: seq<string>, created: Time, user: Id, login: Id, authTime: Time, now: Time)
    requires id !in sys.spent
    ensures var made := Next(sys, CreateRequest(id, client, scopes, created));
      var (done, answer) := Step(made, CompleteRequest(id, user, login, authTime, now));
      if now < created + 600
      then answer == Done && done == made.(st := made.st.(requests := made.st.requests[id :=
             RequestRow(client, scopes, Some(user), Some(login), Some(authTime), true, created + 600)]))
      else answer == Failed(NotFound) && done == made
  {
  }
}
