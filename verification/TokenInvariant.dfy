/**
  What every reachable state of the token service satisfies, and its preservation by every
  transaction.
*/
module TokenInvariant {
  import opened Options
  import opened TokenStore
  import opened TokenRuns

  /** Tokens agree with their session: same owner, and revoked exactly when and since it is. */
  ghost predicate TokensTied(st: Store) {
    && "" !in st.sessions
    && (forall a | a in st.access :: st.access[a].session in st.sessions
         && st.access[a].revoked == st.sessions[st.access[a].session].revoked
         && st.access[a].subject == st.sessions[st.access[a].session].user
         && st.access[a].client == st.sessions[st.access[a].session].client)
    && (forall t | t in st.refresh :: st.refresh[t].session in st.sessions
         && st.refresh[t].revoked == st.sessions[st.refresh[t].session].revoked
         && st.refresh[t].family == st.sessions[st.refresh[t].session].family)
  }

  /** Position k of a family: its parent precedes it, and it is consumed when its child is issued. */
  ghost predicate Link(st: Store, chain: seq<Id>, k: nat)
    requires k < |chain|
  {
    && chain[k] in st.refresh
    && st.refresh[chain[k]].parent == (if k == 0 then None else Some(chain[k - 1]))
    && if k == |chain| - 1 then st.refresh[chain[k]].consumed.None?
       else chain[k + 1] in st.refresh
            && st.refresh[chain[k]].consumed == Some(st.refresh[chain[k + 1]].issued)
            && st.refresh[chain[k + 1]].issued < st.refresh[chain[k]].expires
  }

  /** The refresh tokens of session i, in order of rotation. */
  ghost predicate IsFamily(st: Store, i: Id, chain: seq<Id>) {
    && (forall t :: t in chain <==> t in st.refresh && st.refresh[t].session == i)
    && (forall j, k | 0 <= j < k < |chain| :: chain[j] != chain[k])
    && (forall k {:trigger Link(st, chain, k)} | 0 <= k < |chain| :: Link(st, chain, k))
  }

  ghost predicate HasFamily(st: Store, i: Id) {
    exists chain :: IsFamily(st, i, chain)
  }

  ghost predicate FamiliesLinear(st: Store) {
    forall i {:trigger HasFamily(st, i)} | i in st.sessions :: HasFamily(st, i)
  }

  ghost predicate Opens(st: Store, c: Id, i: Id) {
    c in st.codes && st.codes[c].session == Some(i)
  }

  /** Consumed codes and sessions correspond one to one, with equal subject and client. */
  ghost predicate CodesTied(st: Store) {
    && "" !in st.codes
    && (forall c | c in st.codes :: st.codes[c].session.Some? <==> st.codes[c].consumed.Some?)
    && (forall c | c in st.codes && st.codes[c].consumed.Some? :: st.codes[c].consumed.value < st.codes[c].expires)
    && (forall c, i | Opens(st, c, i) :: i in st.sessions
         && st.sessions[i].user == st.codes[c].subject && st.sessions[i].client == st.codes[c].client)
    && (forall i | i in st.sessions :: exists c :: Opens(st, c, i))
    && (forall c, d, i | Opens(st, c, i) && Opens(st, d, i) :: c == d)
  }

  ghost predicate StoreInv(st: Store) {
    UniqueHashes(st) && TokensTied(st) && FamiliesLinear(st) && CodesTied(st)
  }

  /** A code carries the subject that its request was completed with, while that request exists. */
  ghost predicate RequestsTied(sys: System) {
    && (forall r | r in sys.st.requests :: r in sys.spent && (sys.st.requests[r].done ==> Ready(sys.st.requests[r])))
    && (forall c | c in sys.st.codes :: sys.st.codes[c].request in sys.spent
         && (sys.st.codes[c].request in sys.st.requests ==> CodeMatches(sys.st, c, sys.st.requests[sys.st.codes[c].request])))
  }

  ghost predicate CodeMatches(st: Store, c: Id, entity: RequestRow) {
    && c in st.codes
    && Ready(entity) && entity.subject == Some(st.codes[c].subject)
    && entity.client == st.codes[c].client && entity.scopes == st.codes[c].scopes
  }

  ghost predicate HeldTied(st: Store, request: TokenRequest) {
    match request
    case AuthorizationRequest(entity, codeId) => codeId != "" ==> CodeMatches(st, codeId, entity)
    case RefreshRequest(t, i, client, subject, _, authTime) =>
      && t in st.refresh && st.refresh[t].session == i
      && i in st.sessions && st.sessions[i].client == client && st.sessions[i].user == subject && st.sessions[i].authTime == authTime
  }

  ghost predicate Inv(sys: System) {
    && StoreInv(sys.st)
    && RequestsTied(sys)
    && forall h | h in sys.held :: HeldTied(sys.st, h)
  }

  // Families under the three ways the refresh table changes.

  /** A family survives any change that keeps its members and their rotation columns. */
  lemma FamilyUnchanged(st: Store, st': Store, i: Id, chain: seq<Id>)
    requires IsFamily(st, i, chain)
    requires forall t :: t in st'.refresh && st'.refresh[t].session == i <==> t in st.refresh && st.refresh[t].session == i
    requires forall t | t in st.refresh && st.refresh[t].session == i ::
      st'.refresh[t].parent == st.refresh[t].parent && st'.refresh[t].consumed == st.refresh[t].consumed
      && st'.refresh[t].issued == st.refresh[t].issued && st'.refresh[t].expires == st.refresh[t].expires
    ensures IsFamily(st', i, chain)
  {
    forall k | 0 <= k < |chain|
      ensures Link(st', chain, k)
    {
      assert Link(st, chain, k) && chain[k] in chain;
      if k + 1 < |chain| {
        assert chain[k + 1] in chain;
      }
    }
  }

  lemma RevokeKeepsTokens(st: Store, ids: set<Id>, now: Time)
    requires TokensTied(st)
    ensures TokensTied(Revoke(st, ids, now))
  {
  }

  /** Of the sessions, codes depend on their owners only. */
  lemma CodesUnchanged(st: Store, st': Store)
    requires CodesTied(st) && st'.codes == st.codes && st'.sessions.Keys == st.sessions.Keys
    requires forall i | i in st.sessions :: st'.sessions[i].user == st.sessions[i].user && st'.sessions[i].client == st.sessions[i].client
    ensures CodesTied(st')
  {
    assert forall c, i :: Opens(st', c, i) <==> Opens(st, c, i);
  }

  lemma RevokeKeepsCodes(st: Store, ids: set<Id>, now: Time)
    requires CodesTied(st) && UniqueHashes(st)
    ensures CodesTied(Revoke(st, ids, now)) && UniqueHashes(Revoke(st, ids, now))
  {
    hide CodesTied;
    CodesUnchanged(st, Revoke(st, ids, now));
  }

  lemma RevokeKeepsFamilies(st: Store, ids: set<Id>, now: Time)
    requires FamiliesLinear(st)
    ensures FamiliesLinear(Revoke(st, ids, now))
  {
    var st' := Revoke(st, ids, now);
    forall i | i in st'.sessions
      ensures HasFamily(st', i)
    {
      assert HasFamily(st, i);
      var chain :| IsFamily(st, i, chain);
      FamilyUnchanged(st, st', i, chain);
    }
  }

  lemma RevokeKeepsStore(st: Store, ids: set<Id>, now: Time)
    requires StoreInv(st)
    ensures StoreInv(Revoke(st, ids, now))
  {
    RevokeKeepsTokens(st, ids, now);
    RevokeKeepsCodes(st, ids, now);
    RevokeKeepsFamilies(st, ids, now);
  }

  ghost predicate RotationAllowed(st: Store, g: Grant, minted: NewIds, now: Time) {
    && g.refreshId in st.refresh && st.refresh[g.refreshId].session == g.sessionId
    && st.refresh[g.refreshId].consumed.None? && now < st.refresh[g.refreshId].expires
    && g.sessionId in st.sessions && st.sessions[g.sessionId].revoked.None?
    && st.sessions[g.sessionId].user == g.user && st.sessions[g.sessionId].client == g.client
    && AccessInsertable(st, minted.access) && RefreshInsertable(st, minted.refresh, minted.hash)
  }

  /** A rotation extends the family by one: the consumed token was its tip. */
  lemma RotateExtendsFamily(st: Store, g: Grant, minted: NewIds, now: Time, chain: seq<Id>)
    requires RotationAllowed(st, g, minted, now) && IsFamily(st, g.sessionId, chain)
    ensures |chain| > 0 && chain[|chain| - 1] == g.refreshId
    ensures IsFamily(Rotate(st, g, minted, now), g.sessionId, chain + [minted.refresh])
  {
    var st' := Rotate(st, g, minted, now);
    assert g.refreshId in chain;
    var n :| 0 <= n < |chain| && chain[n] == g.refreshId;
    assert Link(st, chain, n);
    var longer := chain + [minted.refresh];
    assert minted.refresh !in chain;
    forall t
      ensures t in longer <==> t in st'.refresh && st'.refresh[t].session == g.sessionId
    {
      assert t in longer <==> t in chain || t == minted.refresh;
    }
    forall k | 0 <= k < |longer|
      ensures Link(st', longer, k)
    {
      if k < |chain| {
        assert Link(st, chain, k);
      }
    }
  }

  lemma RotateKeepsTokens(st: Store, g: Grant, minted: NewIds, now: Time)
    requires TokensTied(st) && RotationAllowed(st, g, minted, now)
    ensures TokensTied(Rotate(st, g, minted, now))
  {
  }

  lemma RotateKeepsCodes(st: Store, g: Grant, minted: NewIds, now: Time)
    requires CodesTied(st) && UniqueHashes(st) && RotationAllowed(st, g, minted, now)
    ensures CodesTied(Rotate(st, g, minted, now)) && UniqueHashes(Rotate(st, g, minted, now))
  {
    hide CodesTied, UniqueHashes;
    CodesUnchanged(st, Rotate(st, g, minted, now));
    RotateKeepsHashes(st, g, minted, now);
  }

  lemma RotateKeepsHashes(st: Store, g: Grant, minted: NewIds, now: Time)
    requires UniqueHashes(st) && RotationAllowed(st, g, minted, now)
    ensures UniqueHashes(Rotate(st, g, minted, now))
  {
    var st' := Rotate(st, g, minted, now);
    forall t | t in st.refresh
      ensures t in st'.refresh && st'.refresh[t].hash == st.refresh[t].hash && st.refresh[t].hash != minted.hash
    {
    }
    assert st'.refresh.Keys == st.refresh.Keys + {minted.refresh};
    assert st'.codes == st.codes && st'.refresh[minted.refresh].hash == minted.hash;
    hide Rotate, RotationAllowed;
  }

  lemma RotateKeepsFamilies(st: Store, g: Grant, minted: NewIds, now: Time)
    requires FamiliesLinear(st) && RotationAllowed(st, g, minted, now)
    ensures FamiliesLinear(Rotate(st, g, minted, now))
  {
    var st' := Rotate(st, g, minted, now);
    forall i | i in st'.sessions
      ensures HasFamily(st', i)
    {
      assert HasFamily(st, i);
      var chain :| IsFamily(st, i, chain);
      if i == g.sessionId {
        RotateExtendsFamily(st, g, minted, now, chain);
        assert IsFamily(st', i, chain + [minted.refresh]);
      } else {
        FamilyUnchanged(st, st', i, chain);
      }
    }
  }

  lemma RotateKeepsStore(st: Store, g: Grant, minted: NewIds, now: Time)
    requires StoreInv(st) && RotationAllowed(st, g, minted, now)
    ensures StoreInv(Rotate(st, g, minted, now))
  {
    RotateKeepsTokens(st, g, minted, now);
    RotateKeepsCodes(st, g, minted, now);
    RotateKeepsFamilies(st, g, minted, now);
  }

  ghost predicate OpeningAllowed(st: Store, g: Grant, withRefresh: bool, minted: NewIds, now: Time) {
    && CodeConsumable(st, g.codeId, now)
    && st.codes[g.codeId].subject == g.user && st.codes[g.codeId].client == g.client
    && SessionInsertable(st, minted.session, NewSession(g, minted))
    && AccessInsertable(st, minted.access)
    && (withRefresh ==> RefreshInsertable(st, minted.refresh, minted.hash))
  }

  lemma OpenKeepsTokens(st: Store, g: Grant, withRefresh: bool, minted: NewIds, now: Time)
    requires TokensTied(st) && OpeningAllowed(st, g, withRefresh, minted, now)
    ensures TokensTied(Open(st, g, withRefresh, minted, now))
  {
  }

  lemma OpenKeepsFamilies(st: Store, g: Grant, withRefresh: bool, minted: NewIds, now: Time)
    requires TokensTied(st) && FamiliesLinear(st) && OpeningAllowed(st, g, withRefresh, minted, now)
    ensures FamiliesLinear(Open(st, g, withRefresh, minted, now))
  {
    var st' := Open(st, g, withRefresh, minted, now);
    forall i | i in st'.sessions
      ensures HasFamily(st', i)
    {
      if i == minted.session {
        var chain := if withRefresh then [minted.refresh] else [];
        assert IsFamily(st', i, chain);
      } else {
        assert HasFamily(st, i);
        var chain :| IsFamily(st, i, chain);
        FamilyUnchanged(st, st', i, chain);
      }
    }
  }

  lemma OpenKeepsHashes(st: Store, g: Grant, withRefresh: bool, minted: NewIds, now: Time)
    requires UniqueHashes(st) && OpeningAllowed(st, g, withRefresh, minted, now)
    ensures UniqueHashes(Open(st, g, withRefresh, minted, now))
  {
  }

  lemma OpenOpens(st: Store, g: Grant, withRefresh: bool, minted: NewIds, now: Time, c: Id, i: Id)
    requires OpeningAllowed(st, g, withRefresh, minted, now)
    ensures Opens(Open(st, g, withRefresh, minted, now), c, i)
            <==> if c == g.codeId then i == minted.session else Opens(st, c, i)
  {
  }

  lemma OpenKeepsCodes(st: Store, g: Grant, withRefresh: bool, minted: NewIds, now: Time)
    requires CodesTied(st) && OpeningAllowed(st, g, withRefresh, minted, now)
    ensures CodesTied(Open(st, g, withRefresh, minted, now))
  {
    var st' := Open(st, g, withRefresh, minted, now);
    forall c, i | Opens(st', c, i)
      ensures i in st'.sessions && st'.sessions[i].user == st'.codes[c].subject && st'.sessions[i].client == st'.codes[c].client
    {
      OpenOpens(st, g, withRefresh, minted, now, c, i);
    }
    forall i | i in st'.sessions
      ensures exists c :: Opens(st', c, i)
    {
      if i == minted.session {
        assert Opens(st', g.codeId, i);
      } else {
        var c :| Opens(st, c, i);
        OpenOpens(st, g, withRefresh, minted, now, c, i);
      }
    }
    forall c, d, i | Opens(st', c, i) && Opens(st', d, i)
      ensures c == d
    {
      OpenOpens(st, g, withRefresh, minted, now, c, i);
      OpenOpens(st, g, withRefresh, minted, now, d, i);
    }
  }

  lemma OpenKeepsStore(st: Store, g: Grant, withRefresh: bool, minted: NewIds, now: Time)
    requires StoreInv(st) && OpeningAllowed(st, g, withRefresh, minted, now)
    ensures StoreInv(Open(st, g, withRefresh, minted, now))
  {
    OpenKeepsTokens(st, g, withRefresh, minted, now);
    OpenKeepsFamilies(st, g, withRefresh, minted, now);
    OpenKeepsCodes(st, g, withRefresh, minted, now);
    OpenKeepsHashes(st, g, withRefresh, minted, now);
  }

  // What a transaction may do to rows that already exist: nothing that a held request relies on.

  ghost predicate Grows(st: Store, st': Store) {
    && (forall c | c in st.codes :: c in st'.codes && st'.codes[c].request == st.codes[c].request
         && st'.codes[c].subject == st.codes[c].subject && st'.codes[c].client == st.codes[c].client
         && st'.codes[c].scopes == st.codes[c].scopes && st'.codes[c].expires == st.codes[c].expires)
    && (forall i | i in st.sessions :: i in st'.sessions && st'.sessions[i].user == st.sessions[i].user
         && st'.sessions[i].client == st.sessions[i].client && st'.sessions[i].login == st.sessions[i].login
         && st'.sessions[i].authTime == st.sessions[i].authTime)
    && (forall t | t in st.refresh :: t in st'.refresh && st'.refresh[t].session == st.refresh[t].session
         && (st.refresh[t].consumed.Some? ==> st'.refresh[t].consumed == st.refresh[t].consumed))
  }

  lemma RevokeGrows(st: Store, ids: set<Id>, now: Time)
    ensures Grows(st, Revoke(st, ids, now))
  {
  }

  lemma SameTablesGrow(st: Store, st': Store)
    requires st'.codes == st.codes && st'.sessions == st.sessions && st'.refresh == st.refresh
    ensures Grows(st, st')
  {
  }

  lemma RotateGrows(st: Store, g: Grant, minted: NewIds, now: Time)
    requires g.refreshId in st.refresh && st.refresh[g.refreshId].consumed.None? && g.sessionId in st.sessions
    requires minted.refresh !in st.refresh
    ensures Grows(st, Rotate(st, g, minted, now))
  {
  }

  lemma OpenGrows(st: Store, g: Grant, withRefresh: bool, minted: NewIds, now: Time)
    requires g.codeId in st.codes && minted.session !in st.sessions
    requires withRefresh ==> minted.refresh !in st.refresh
    ensures Grows(st, Open(st, g, withRefresh, minted, now))
  {
  }

  lemma IssueGrows(st: Store, h: TokenRequest, both: bool, minted: NewIds, now: Time)
    ensures Grows(st, Issue(st, h, both, minted, now).0)
  {
    SameTablesGrow(st, st);
    hide Grows;
    if GrantFromRequest(h).Some? {
      var g := GrantFromRequest(h).value;
      if both && g.sessionId != "" {
        if ExchangeRefresh(st, g, minted, now).1.Issued? {
          RotateGrows(st, g, minted, now);
        } else {
          RevokeGrows(st, {g.sessionId}, now);
        }
      } else if ExchangeCode(st, g, both, minted, now).1.Issued? {
        OpenGrows(st, g, both, minted, now);
      }
    }
  }

  lemma HeldSurvives(st: Store, st': Store, h: TokenRequest)
    requires Grows(st, st') && HeldTied(st, h)
    ensures HeldTied(st', h)
  {
  }

  /** The grant of a held request names rows that agree with it. */
  lemma HeldGrant(st: Store, h: TokenRequest)
    requires StoreInv(st) && HeldTied(st, h) && GrantFromRequest(h).Some?
    ensures var g := GrantFromRequest(h).value;
      && (g.codeId in st.codes ==> st.codes[g.codeId].subject == g.user && st.codes[g.codeId].client == g.client)
      && (g.sessionId != "" ==> (g.codeId == "" && h.RefreshRequest? && g.refreshId in st.refresh
            && st.refresh[g.refreshId].session == g.sessionId && g.sessionId in st.sessions
            && st.sessions[g.sessionId].user == g.user && st.sessions[g.sessionId].client == g.client))
      && (g.sessionId == "" <==> h.AuthorizationRequest?)
  {
  }

  lemma IssueKeepsStore(st: Store, h: TokenRequest, both: bool, minted: NewIds, now: Time)
    requires StoreInv(st) && HeldTied(st, h)
    ensures StoreInv(Issue(st, h, both, minted, now).0)
  {
    if GrantFromRequest(h).Some? {
      var g := GrantFromRequest(h).value;
      HeldGrant(st, h);
      hide GrantFromRequest, HeldTied, StoreInv, ExchangeCode, ExchangeRefresh;
      if both && g.sessionId != "" {
        RefreshKeepsStore(st, g, minted, now);
      } else {
        CodeKeepsStore(st, g, both, minted, now);
      }
    }
  }

  lemma RefreshKeepsStore(st: Store, g: Grant, minted: NewIds, now: Time)
    requires StoreInv(st) && (g.refreshId in st.refresh ==> st.refresh[g.refreshId].session == g.sessionId)
    requires g.sessionId in st.sessions ==> st.sessions[g.sessionId].user == g.user && st.sessions[g.sessionId].client == g.client
    ensures StoreInv(ExchangeRefresh(st, g, minted, now).0)
  {
    hide StoreInv, Rotate, Revoke;
    if ExchangeRefresh(st, g, minted, now).1.Issued? {
      RotateKeepsStore(st, g, minted, now);
    } else {
      RevokeKeepsStore(st, {g.sessionId}, now);
    }
  }

  lemma CodeKeepsStore(st: Store, g: Grant, withRefresh: bool, minted: NewIds, now: Time)
    requires StoreInv(st) && (g.codeId in st.codes ==> st.codes[g.codeId].subject == g.user && st.codes[g.codeId].client == g.client)
    ensures StoreInv(ExchangeCode(st, g, withRefresh, minted, now).0)
  {
    hide StoreInv, Open;
    if ExchangeCode(st, g, withRefresh, minted, now).1.Issued? {
      OpenKeepsStore(st, g, withRefresh, minted, now);
    }
  }

  lemma SaveCodeKeepsStore(st: Store, requestId: Id, id: Id, hash: string, now: Time)
    requires StoreInv(st)
    ensures StoreInv(SaveCode(st, requestId, id, hash, now).0)
  {
    hide SaveCode, CodesTied, UniqueHashes, TokensTied, FamiliesLinear;
    SaveCodeKeepsCodes(st, requestId, id, hash, now);
    SaveCodeKeepsHashes(st, requestId, id, hash, now);
    SaveCodeKeepsTokens(st, requestId, id, hash, now);
    OtherTablesKeep(st, SaveCode(st, requestId, id, hash, now).0);
  }

  lemma SaveCodeKeepsCodes(st: Store, requestId: Id, id: Id, hash: string, now: Time)
    requires CodesTied(st)
    ensures CodesTied(SaveCode(st, requestId, id, hash, now).0)
  {
    var st' := SaveCode(st, requestId, id, hash, now).0;
    SaveCodeKeepsTokens(st, requestId, id, hash, now);
    hide CodesTied;
    if st'.codes != st.codes {
      UnconsumedCodeTied(st, st', id);
    } else {
      CodesUnchanged(st, st');
    }
  }

  /** A code that opened no session leaves the correspondence as it was. */
  lemma UnconsumedCodeTied(st: Store, st': Store, id: Id)
    requires CodesTied(st) && SameTokens(st, st') && id != "" && id !in st.codes
    requires id in st'.codes && st'.codes[id].session.None? && st'.codes[id].consumed.None? && st'.codes == st.codes[id := st'.codes[id]]
    ensures CodesTied(st')
  {
    forall c, i
      ensures Opens(st', c, i) <==> Opens(st, c, i)
    {
    }
    forall i | i in st'.sessions
      ensures exists c :: Opens(st', c, i)
    {
      var c :| Opens(st, c, i);
      assert Opens(st', c, i);
    }
  }

  lemma SaveCodeKeepsTokens(st: Store, requestId: Id, id: Id, hash: string, now: Time)
    ensures SameTokens(st, SaveCode(st, requestId, id, hash, now).0)
  {
  }

  lemma SaveCodeKeepsHashes(st: Store, requestId: Id, id: Id, hash: string, now: Time)
    requires UniqueHashes(st)
    ensures UniqueHashes(SaveCode(st, requestId, id, hash, now).0)
  {
  }

  lemma SaveCodeGrows(st: Store, requestId: Id, id: Id, hash: string, now: Time)
    ensures Grows(st, SaveCode(st, requestId, id, hash, now).0)
  {
  }

  /** The token tables do not depend on requests, codes and users. */
  lemma OtherTablesKeep(st: Store, st': Store)
    requires TokensTied(st) && FamiliesLinear(st)
    requires st'.sessions == st.sessions && st'.access == st.access && st'.refresh == st.refresh
    ensures TokensTied(st') && FamiliesLinear(st')
  {
    forall i | i in st'.sessions
      ensures HasFamily(st', i)
    {
      assert HasFamily(st, i);
      var chain :| IsFamily(st, i, chain);
      FamilyUnchanged(st, st', i, chain);
    }
  }

  lemma RequestsChangeKeeps(st: Store, st': Store)
    requires StoreInv(st) && SameTokens(st, st') && st'.codes == st.codes
    ensures StoreInv(st')
  {
    OtherTablesKeep(st, st');
    assert forall c, i :: Opens(st', c, i) <==> Opens(st, c, i);
  }

  ghost predicate IsRevocation(st: Store, st': Store) {
    exists ids, now :: st' == Revoke(st, ids, now)
  }

  ghost predicate SameTokens(st: Store, st': Store) {
    st'.sessions == st.sessions && st'.access == st.access && st'.refresh == st.refresh
  }

  predicate IsExchange(ev: Event) {
    ev.ExchangeBoth? || ev.ExchangeAccess?
  }

  /** The four kinds of transaction: exchanges, revocations, saving a code, and those that touch no token. */
  lemma StepKinds(sys: System, ev: Event)
    ensures var st, st' := sys.st, Next(sys, ev).st;
      if IsExchange(ev) then st' == if ev.request in sys.held then Issue(st, ev.request, ev.ExchangeBoth?, ev.minted, ev.now).0 else st
      else IsRevocation(st, st') || (SameTokens(st, st') && (!ev.SaveRequestCode? ==> st'.codes == st.codes))
  {
    if IsExchange(ev) {
      return;
    }
    if ev.FetchByRefresh? {
      var t := LookupEffect(sys.st, ev.hash, ev.now);
      hide LookupRefresh, Revoke;
      return;
    }
    if ev.RevokeByToken? || ev.Terminate? || ev.RevokeByLogin? || ev.RevokeByUser? {
      StepRevokes(sys, ev);
      hide Next;
      return;
    }
    hide LookupRefresh, LookupCode, Exchange, ExchangeAccessOnly, Revoke, RevokeToken, IsRevocation;
  }

  lemma StepRevokes(sys: System, ev: Event)
    requires ev.RevokeByToken? || ev.Terminate? || ev.RevokeByLogin? || ev.RevokeByUser?
    ensures IsRevocation(sys.st, Next(sys, ev).st) || Next(sys, ev).st == sys.st
  {
    hide Revoke, SessionsOfClient, SessionsOfLogin, SessionsOfUser, SessionOfToken;
  }

  lemma StepKeepsStore(sys: System, ev: Event)
    requires StoreInv(sys.st) && forall h | h in sys.held :: HeldTied(sys.st, h)
    ensures StoreInv(Next(sys, ev).st)
  {
    var st, st' := sys.st, Next(sys, ev).st;
    StepKinds(sys, ev);
    if IsExchange(ev) {
      if ev.request in sys.held {
        IssueKeepsStore(st, ev.request, ev.ExchangeBoth?, ev.minted, ev.now);
      }
    } else if IsRevocation(st, st') {
      var ids, now :| st' == Revoke(st, ids, now);
      RevokeKeepsStore(st, ids, now);
    } else if ev.SaveRequestCode? {
      SaveCodeKeepsStore(st, ev.requestId, ev.id, ev.hash, ev.now);
    } else {
      RequestsChangeKeeps(st, st');
    }
  }

  /** A lookup either leaves the store alone or revokes the session of the consumed token it found. */
  lemma LookupEffect(st: Store, hash: string, now: Time) returns (t: Id)
    ensures (exists u :: IsRefresh(st, u, hash)) ==>
      IsRefresh(st, t, hash) && LookupRefresh(st, hash, now) == LookupRefreshRow(st, t, now)
    ensures LookupRefresh(st, hash, now).0 != st ==>
      t in st.refresh && LookupRefresh(st, hash, now).0 == Revoke(st, {st.refresh[t].session}, now)
  {
    t := "";
    if exists u :: IsRefresh(st, u, hash) {
      t :| IsRefresh(st, t, hash) && LookupRefresh(st, hash, now) == LookupRefreshRow(st, t, now);
    }
  }

  lemma StepGrows(sys: System, ev: Event)
    ensures Grows(sys.st, Next(sys, ev).st)
  {
    var st, st' := sys.st, Next(sys, ev).st;
    StepKinds(sys, ev);
    if IsExchange(ev) && ev.request in sys.held {
      IssueGrows(st, ev.request, ev.ExchangeBoth?, ev.minted, ev.now);
    } else if IsRevocation(st, st') {
      var ids, now :| st' == Revoke(st, ids, now);
      RevokeGrows(st, ids, now);
    } else if ev.SaveRequestCode? {
      SaveCodeGrows(st, ev.requestId, ev.id, ev.hash, ev.now);
    } else {
      SameTablesGrow(st, st');
    }
  }

  lemma StepKeepsRequests(sys: System, ev: Event)
    requires RequestsTied(sys)
    ensures RequestsTied(Next(sys, ev))
  {
    hide LookupRefresh, LookupCode, Exchange, ExchangeAccessOnly, Revoke;
    if WritesRequests(ev) {
      return;
    }
    RequestsStay(sys, ev);
    hide Next;
    assert forall c, entity :: CodeMatches(Next(sys, ev).st, c, entity) <==> CodeMatches(sys.st, c, entity);
  }

  predicate WritesRequests(ev: Event) {
    ev.CreateRequest? || ev.CompleteRequest? || ev.SaveRequestCode? || ev.DeleteRequest?
  }

  lemma RequestsStay(sys: System, ev: Event)
    requires !WritesRequests(ev)
    ensures var sys' := Next(sys, ev);
      && sys'.st.requests == sys.st.requests && sys'.spent == sys.spent && sys'.st.codes.Keys == sys.st.codes.Keys
      && forall c | c in sys.st.codes :: sys'.st.codes[c] == sys.st.codes[c].(session := sys'.st.codes[c].session, consumed := sys'.st.codes[c].consumed)
  {
    if IsExchange(ev) {
      if ev.request in sys.held {
        IssueLeavesRequests(sys.st, ev.request, ev.ExchangeBoth?, ev.minted, ev.now);
      }
      hide Exchange, ExchangeAccessOnly;
      return;
    }
    if ev.FetchByRefresh? {
      var t := LookupEffect(sys.st, ev.hash, ev.now);
      hide LookupRefresh;
      return;
    }
    hide LookupRefresh, LookupCode, Exchange, ExchangeAccessOnly;
  }

  lemma IssueLeavesRequests(st: Store, h: TokenRequest, both: bool, minted: NewIds, now: Time)
    ensures var st' := Issue(st, h, both, minted, now).0;
      && st'.requests == st.requests && st'.codes.Keys == st.codes.Keys
      && forall c | c in st.codes :: st'.codes[c] == st.codes[c].(session := st'.codes[c].session, consumed := st'.codes[c].consumed)
  {
    if GrantFromRequest(h).Some? {
      var g := GrantFromRequest(h).value;
      CodeLeavesRequests(st, g, both, minted, now);
      RefreshLeavesRequests(st, g, minted, now);
      hide ExchangeCode, ExchangeRefresh;
    }
  }

  lemma CodeLeavesRequests(st: Store, g: Grant, withRefresh: bool, minted: NewIds, now: Time)
    ensures var st' := ExchangeCode(st, g, withRefresh, minted, now).0;
      && st'.requests == st.requests && st'.codes.Keys == st.codes.Keys
      && forall c | c in st.codes :: st'.codes[c] == st.codes[c].(session := st'.codes[c].session, consumed := st'.codes[c].consumed)
  {
    hide SessionInsertable, RefreshInsertable, NewSession, NewAccess;
  }

  lemma RefreshLeavesRequests(st: Store, g: Grant, minted: NewIds, now: Time)
    ensures var st' := ExchangeRefresh(st, g, minted, now).0; st'.requests == st.requests && st'.codes == st.codes
  {
    hide RefreshInsertable, NewAccess;
  }

  lemma FoundByRefreshTied(st: Store, hash: string, now: Time)
    requires TokensTied(st)
    ensures LookupRefresh(st, hash, now).1.Found? ==> HeldTied(st, LookupRefresh(st, hash, now).1.request)
  {
    if exists t :: IsRefresh(st, t, hash) {
      var t := LookupEffect(st, hash, now);
      hide LookupRefresh, Revoke;
    }
  }

  lemma FoundByCodeTied(sys: System, hash: string, now: Time)
    requires RequestsTied(sys)
    ensures LookupCode(sys.st, hash, now).Found? ==> HeldTied(sys.st, LookupCode(sys.st, hash, now).request)
  {
  }

  /** A request newly held was found by a lookup just now, or differs from a held one in scopes only. */
  lemma NewlyHeldTied(sys: System, ev: Event, h: TokenRequest)
    requires TokensTied(sys.st) && RequestsTied(sys) && (forall k | k in sys.held :: HeldTied(sys.st, k))
    requires h in Next(sys, ev).held && h !in sys.held
    ensures HeldTied(sys.st, h)
  {
    hide LookupRefresh, LookupCode, Exchange, ExchangeAccessOnly, TokensTied, Complete, SaveCode, Revoke, RevokeToken;
    if ev.FetchByRefresh? {
      FoundByRefreshTied(sys.st, ev.hash, ev.now);
      hide RequestsTied, HeldTied;
      return;
    }
    if ev.FetchByCode? {
      FoundByCodeTied(sys, ev.hash, ev.now);
      hide RequestsTied, HeldTied;
      return;
    }
    hide RequestsTied, CodeMatches;
    if ev.SetCurrentScopes? {
      assert HeldTied(sys.st, ev.request);
    }
  }

  lemma StepKeepsHeld(sys: System, ev: Event)
    requires StoreInv(sys.st) && RequestsTied(sys) && forall h | h in sys.held :: HeldTied(sys.st, h)
    ensures forall h | h in Next(sys, ev).held :: HeldTied(Next(sys, ev).st, h)
  {
    StepGrows(sys, ev);
    var sys' := Next(sys, ev);
    assert TokensTied(sys.st);
    hide Next, Grows, HeldTied, StoreInv, TokensTied, RequestsTied;
    forall h | h in sys'.held
      ensures HeldTied(sys'.st, h)
    {
      if h !in sys.held {
        NewlyHeldTied(sys, ev, h);
      }
      HeldSurvives(sys.st, sys'.st, h);
    }
  }

  lemma StepKeepsInv(sys: System, ev: Event)
    requires Inv(sys)
    ensures Inv(Next(sys, ev))
  {
    StepKeepsStore(sys, ev);
    StepKeepsRequests(sys, ev);
    StepKeepsHeld(sys, ev);
  }
}
