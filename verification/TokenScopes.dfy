/**
  Scopes are read when a refresh token is looked up and written when it is exchanged, in two
  transactions. As long as clients only narrow what they looked up, they never widen: this rests on
  each token being exchanged at most once.
*/
module TokenScopes {
  import opened Options
  import opened TokenStore
  import opened TokenRuns
  import opened TokenInvariant

  ghost predicate Within(a: seq<string>, b: seq<string>) {
    forall x | x in a :: x in b
  }

  ghost predicate Narrows(ev: Event) {
    ev.SetCurrentScopes? && ev.request.RefreshRequest? ==> Within(ev.scopes, ev.request.scopes)
  }

  ghost predicate ScopesInCode(st: Store) {
    && (forall c, i | Opens(st, c, i) && i in st.sessions :: Within(st.sessions[i].scopes, st.codes[c].scopes))
    && (forall a, c | a in st.access && Opens(st, c, st.access[a].session) :: Within(st.access[a].scopes, st.codes[c].scopes))
  }

  /** A held request whose token is still unconsumed asks for no more than its session has now. */
  ghost predicate HeldWithin(st: Store, h: TokenRequest) {
    h.RefreshRequest? && h.tokenId in st.refresh && st.refresh[h.tokenId].consumed.None? && h.sessionId in st.sessions ==>
      Within(h.scopes, st.sessions[h.sessionId].scopes)
  }

  ghost predicate ScopesInv(sys: System) {
    Inv(sys) && ScopesInCode(sys.st) && forall h | h in sys.held :: HeldWithin(sys.st, h)
  }

  /** No session has gained a scope. */
  ghost predicate Shrinks(st: Store, st': Store) {
    forall i | i in st.sessions :: i in st'.sessions && Within(st'.sessions[i].scopes, st.sessions[i].scopes)
  }

  lemma UniqueTip(st: Store, i: Id, t: Id, u: Id)
    requires HasFamily(st, i)
    requires t in st.refresh && st.refresh[t].session == i && st.refresh[t].consumed.None?
    requires u in st.refresh && st.refresh[u].session == i && st.refresh[u].consumed.None?
    ensures t == u
  {
    var chain :| IsFamily(st, i, chain);
    assert t in chain && u in chain;
    var j :| 0 <= j < |chain| && chain[j] == t;
    var k :| 0 <= k < |chain| && chain[k] == u;
    assert Link(st, chain, j) && Link(st, chain, k);
  }

  lemma RevokeKeepsScopes(st: Store, ids: set<Id>, now: Time)
    ensures Shrinks(st, Revoke(st, ids, now))
    ensures ScopesInCode(st) ==> ScopesInCode(Revoke(st, ids, now))
    ensures forall h | HeldWithin(st, h) && HeldTied(st, h) :: HeldWithin(Revoke(st, ids, now), h)
  {
    var st' := Revoke(st, ids, now);
    assert forall c, i :: Opens(st', c, i) <==> Opens(st, c, i);
  }

  lemma RotateKeepsScopes(st: Store, g: Grant, minted: NewIds, now: Time)
    requires ScopesInCode(st) && CodesTied(st) && TokensTied(st) && RotationAllowed(st, g, minted, now)
    requires Within(g.scopes, st.sessions[g.sessionId].scopes)
    ensures Shrinks(st, Rotate(st, g, minted, now))
    ensures ScopesInCode(Rotate(st, g, minted, now))
  {
    var st' := Rotate(st, g, minted, now);
    forall c, i
      ensures Opens(st', c, i) <==> Opens(st, c, i)
    {
    }
  }

  /** After a rotation no held request of that session has an unconsumed token: its token was the only one. */
  lemma RotateKeepsHeldWithin(st: Store, g: Grant, minted: NewIds, now: Time, h: TokenRequest)
    requires FamiliesLinear(st) && RotationAllowed(st, g, minted, now)
    requires HeldTied(st, h) && HeldWithin(st, h)
    ensures HeldWithin(Rotate(st, g, minted, now), h)
  {
    if h.RefreshRequest? && h.sessionId == g.sessionId && st.refresh[h.tokenId].consumed.None? {
      assert HasFamily(st, g.sessionId);
      UniqueTip(st, g.sessionId, h.tokenId, g.refreshId);
    }
  }

  lemma OpenKeepsScopes(st: Store, g: Grant, withRefresh: bool, minted: NewIds, now: Time)
    requires ScopesInCode(st) && CodesTied(st) && TokensTied(st) && OpeningAllowed(st, g, withRefresh, minted, now)
    requires g.scopes == st.codes[g.codeId].scopes
    ensures Shrinks(st, Open(st, g, withRefresh, minted, now))
    ensures ScopesInCode(Open(st, g, withRefresh, minted, now))
  {
    var st' := Open(st, g, withRefresh, minted, now);
    forall c, i | Opens(st', c, i) && i in st'.sessions
      ensures Within(st'.sessions[i].scopes, st'.codes[c].scopes)
    {
      OpenOpens(st, g, withRefresh, minted, now, c, i);
    }
    forall a, c | a in st'.access && Opens(st', c, st'.access[a].session)
      ensures Within(st'.access[a].scopes, st'.codes[c].scopes)
    {
      OpenOpens(st, g, withRefresh, minted, now, c, st'.access[a].session);
    }
  }

  lemma SameScopes(st: Store, st': Store)
    requires st'.sessions == st.sessions && st'.access == st.access && st'.refresh == st.refresh
    requires forall c, i | Opens(st', c, i) :: Opens(st, c, i) && st'.codes[c].scopes == st.codes[c].scopes
    ensures Shrinks(st, st')
    ensures ScopesInCode(st) ==> ScopesInCode(st')
    ensures forall h | HeldWithin(st, h) :: HeldWithin(st', h)
  {
  }

  lemma IssueKeepsScopes(sys: System, h: TokenRequest, both: bool, minted: NewIds, now: Time)
    requires ScopesInv(sys) && h in sys.held
    ensures var st' := Issue(sys.st, h, both, minted, now).0;
      Shrinks(sys.st, st') && ScopesInCode(st') && forall k | k in sys.held :: HeldWithin(st', k)
  {
    hide ScopesInCode, Shrinks, TokensTied, CodesTied, UniqueHashes, FamiliesLinear, RequestsTied;
    var st := sys.st;
    if Issue(st, h, both, minted, now).0 == st {
      SameScopes(st, st);
      return;
    }
    var g := GrantFromRequest(h).value;
    HeldGrant(st, h);
    assert HeldTied(st, h) && HeldWithin(st, h);
    if !both || g.sessionId == "" {
      OpenKeepsScopes(st, g, both, minted, now);
      return;
    }
    if ExchangeRefresh(st, g, minted, now).1.Issued? {
      RotateKeepsScopes(st, g, minted, now);
      forall k | k in sys.held
        ensures HeldWithin(Rotate(st, g, minted, now), k)
      {
        RotateKeepsHeldWithin(st, g, minted, now, k);
      }
      return;
    }
    RevokeKeepsScopes(st, {g.sessionId}, now);
  }

  ghost predicate KeepsScopes(sys: System, st': Store) {
    && Shrinks(sys.st, st')
    && ScopesInCode(st')
    && forall h | h in sys.held :: HeldWithin(st', h)
  }

  ghost predicate ScopesNow(sys: System) {
    && ScopesInCode(sys.st)
    && forall h | h in sys.held :: HeldTied(sys.st, h) && HeldWithin(sys.st, h)
  }

  lemma RevokingKeeps(sys: System, ids: set<Id>, now: Time)
    requires ScopesNow(sys)
    ensures KeepsScopes(sys, Revoke(sys.st, ids, now))
  {
    RevokeKeepsScopes(sys.st, ids, now);
  }

  lemma OtherwiseKeeps(sys: System, st': Store)
    requires ScopesNow(sys)
    requires st'.sessions == sys.st.sessions && st'.access == sys.st.access && st'.refresh == sys.st.refresh
    requires Grows(sys.st, st') && forall c, i | Opens(st', c, i) :: Opens(sys.st, c, i)
    ensures KeepsScopes(sys, st')
  {
    SameScopes(sys.st, st');
  }

  lemma StepKeepsScopes(sys: System, ev: Event)
    requires ScopesInv(sys) && Narrows(ev)
    ensures KeepsScopes(sys, Next(sys, ev).st)
  {
    StepKinds(sys, ev);
    if IsExchange(ev) && ev.request in sys.held {
      IssueKeepsScopes(sys, ev.request, ev.ExchangeBoth?, ev.minted, ev.now);
    } else {
      OthersKeepScopes(sys, ev);
    }
  }

  /** Transactions other than exchanges either revoke or leave sessions and tokens alone. */
  lemma OthersKeepScopes(sys: System, ev: Event)
    requires ScopesNow(sys) && !(IsExchange(ev) && ev.request in sys.held)
    ensures KeepsScopes(sys, Next(sys, ev).st)
  {
    var st, st' := sys.st, Next(sys, ev).st;
    StepKinds(sys, ev);
    if IsRevocation(st, st') {
      var ids, now :| st' == Revoke(st, ids, now);
      RevokingKeeps(sys, ids, now);
    } else {
      StepGrows(sys, ev);
      OtherwiseKeeps(sys, st');
    }
  }

  /** A request newly held was just read from its session, or narrows one that was held. */
  lemma NewlyHeldWithin(sys: System, ev: Event, h: TokenRequest)
    requires forall k | k in sys.held :: HeldWithin(sys.st, k)
    requires Narrows(ev) && h in Next(sys, ev).held && h !in sys.held
    ensures HeldWithin(Next(sys, ev).st, h)
  {
    if ev.SetCurrentScopes? {
      assert HeldWithin(sys.st, ev.request);
    } else if ev.FetchByRefresh? {
      var t := LookupEffect(sys.st, ev.hash, ev.now);
    }
  }

  lemma StepKeepsHeldWithin(sys: System, ev: Event)
    requires ScopesInv(sys) && Narrows(ev)
    ensures forall h | h in Next(sys, ev).held :: HeldWithin(Next(sys, ev).st, h)
  {
    StepKeepsScopes(sys, ev);
    forall h | h in Next(sys, ev).held && h !in sys.held
      ensures HeldWithin(Next(sys, ev).st, h)
    {
      NewlyHeldWithin(sys, ev, h);
    }
  }

  lemma {:induction false} RunKeepsScopes(sys: System, evs: seq<Event>)
    requires ScopesInv(sys) && forall k | 0 <= k < |evs| :: Narrows(evs[k])
    ensures ScopesInv(Run(sys, evs)) && Shrinks(sys.st, Run(sys, evs).st)
    decreases |evs|
  {
    if evs != [] {
      StepKeepsInv(sys, evs[0]);
      StepKeepsScopes(sys, evs[0]);
      StepKeepsHeldWithin(sys, evs[0]);
      RunKeepsScopes(Next(sys, evs[0]), evs[1..]);
      ShrinksTransitive(sys.st, Next(sys, evs[0]).st, Run(sys, evs).st);
    }
  }

  lemma ShrinksTransitive(a: Store, b: Store, c: Store)
    requires Shrinks(a, b) && Shrinks(b, c)
    ensures Shrinks(a, c)
  {
  }

  /** On a narrowing run, session scopes only shrink and every access token stays within its code's scopes. */
  lemma ScopesNeverWiden(users: set<Id>, before: seq<Event>, evs: seq<Event>)
    requires forall k | 0 <= k < |before| :: Narrows(before[k])
    requires forall k | 0 <= k < |evs| :: Narrows(evs[k])
    ensures var st, later := Run(Start(users), before).st, Run(Start(users), before + evs).st;
      && (forall i | i in st.sessions :: i in later.sessions && Within(later.sessions[i].scopes, st.sessions[i].scopes))
      && (forall a | a in later.access :: exists c ::
            Opens(later, c, later.access[a].session) && Within(later.access[a].scopes, later.codes[c].scopes))
  {
    RunKeepsScopes(Start(users), before);
    RunKeepsScopes(Run(Start(users), before), evs);
    RunAppend(Start(users), before, evs);
    var later := Run(Start(users), before + evs).st;
    forall a | a in later.access
      ensures exists c :: Opens(later, c, later.access[a].session) && Within(later.access[a].scopes, later.codes[c].scopes)
    {
      var c :| Opens(later, c, later.access[a].session);
    }
  }
}
