/**
  Whole runs of the token service: any number of clients, administrators and revokers interleave
  their transactions in any order, and hold looked-up requests for as long as they like in between.
*/
module TokenRuns {
  import opened Options
  import opened TokenStore

  datatype Event =
    | CreateRequest(id: Id, client: Id, scopes: seq<string>, now: Time)
    | CompleteRequest(id: Id, user: Id, login: Id, authTime: Time, now: Time)
    | SaveRequestCode(requestId: Id, id: Id, hash: string, now: Time)
    | DeleteRequest(id: Id)
    | FetchRequest(id: Id, now: Time)
    | FetchByCode(hash: string, now: Time)
    | FetchByRefresh(hash: string, now: Time)
    | SetCurrentScopes(request: TokenRequest, scopes: seq<string>)
    | ExchangeBoth(request: TokenRequest, minted: NewIds, now: Time)
    | ExchangeAccess(request: TokenRequest, minted: NewIds, now: Time)
    | RevokeByToken(tokenId: Id, user: Id, client: Id, now: Time)
    | Terminate(user: Id, client: Id, now: Time)
    | RevokeByLogin(login: Id, now: Time)
    | RevokeByUser(user: Id, now: Time)
    | EnableUser(user: Id)
    | DisableUser(user: Id)

  /** The tables, the requests clients hold, and the request identifiers generated so far. */
  datatype System = System(st: Store, held: set<TokenRequest>, spent: set<Id>)

  function Start(activeUsers: set<Id>): System {
    System(Store(map[], map[], map[], map[], map[], activeUsers), {}, {})
  }

  function Hold(sys: System, answer: Answer): System {
    if answer.Found? then sys.(held := sys.held + {answer.request}) else sys
  }

  /** One transaction. Clients exchange only requests they hold; generated request ids never repeat. */
  ghost function Step(sys: System, ev: Event): (System, Answer) {
    match ev
    case CreateRequest(id, client, scopes, now) =>
      if id in sys.spent then (sys, Failed(Internal)) else
      var row := RequestRow(client, scopes, None, None, None, false, now + REQUEST_TTL);
      (sys.(st := sys.st.(requests := sys.st.requests[id := row]), spent := sys.spent + {id}), Done)
    case CompleteRequest(id, user, login, authTime, now) =>
      var (st, answer) := Complete(sys.st, id, user, login, authTime, now);
      (sys.(st := st), answer)
    case SaveRequestCode(requestId, id, hash, now) =>
      var (st, answer) := SaveCode(sys.st, requestId, id, hash, now);
      (sys.(st := st), answer)
    case DeleteRequest(id) =>
      (sys.(st := sys.st.(requests := sys.st.requests - {id})), Done)
    case FetchRequest(id, now) =>
      if id !in sys.st.requests || sys.st.requests[id].expires <= now then (sys, Failed(NotFound)) else
      var answer := Found(AuthorizationRequest(sys.st.requests[id], ""));
      (Hold(sys, answer), answer)
    case FetchByCode(hash, now) =>
      var answer := LookupCode(sys.st, hash, now);
      (Hold(sys, answer), answer)
    case FetchByRefresh(hash, now) =>
      var (st, answer) := LookupRefresh(sys.st, hash, now);
      (Hold(sys.(st := st), answer), answer)
    case SetCurrentScopes(request, scopes) =>
      if request !in sys.held || !request.RefreshRequest? then (sys, Failed(Internal)) else
      (sys.(held := sys.held + {request.(scopes := scopes)}), Done)
    case ExchangeBoth(request, minted, now) =>
      if request !in sys.held then (sys, Failed(Internal)) else
      var (st, answer) := Exchange(sys.st, request, minted, now);
      (sys.(st := st), answer)
    case ExchangeAccess(request, minted, now) =>
      if request !in sys.held then (sys, Failed(Internal)) else
      var (st, answer) := ExchangeAccessOnly(sys.st, request, minted, now);
      (sys.(st := st), answer)
    case RevokeByToken(tokenId, user, client, now) =>
      (sys.(st := RevokeToken(sys.st, tokenId, user, client, now)), Done)
    case Terminate(user, client, now) =>
      (sys.(st := Revoke(sys.st, SessionsOfClient(sys.st, user, client), now)), Done)
    case RevokeByLogin(login, now) =>
      (sys.(st := Revoke(sys.st, SessionsOfLogin(sys.st, login), now)), Done)
    case RevokeByUser(user, now) =>
      (sys.(st := Revoke(sys.st, SessionsOfUser(sys.st, user), now)), Done)
    case EnableUser(user) =>
      (sys.(st := sys.st.(activeUsers := sys.st.activeUsers + {user})), Done)
    case DisableUser(user) =>
      (sys.(st := sys.st.(activeUsers := sys.st.activeUsers - {user})), Done)
  }

  ghost function Next(sys: System, ev: Event): System {
    Step(sys, ev).0
  }

  ghost function Run(sys: System, evs: seq<Event>): System
    decreases |evs|
  {
    if evs == [] then sys else Run(Next(sys, evs[0]), evs[1..])
  }

  /** The answer to event k of a run. */
  ghost function AnswerAt(sys: System, evs: seq<Event>, k: nat): Answer
    requires k < |evs|
  {
    Step(Run(sys, evs[..k]), evs[k]).1
  }

  lemma {:induction false} RunAppend(sys: System, a: seq<Event>, b: seq<Event>)
    ensures Run(sys, a + b) == Run(Run(sys, a), b)
    decreases |a|
  {
    if a == [] {
      assert a + b == b;
    } else {
      assert (a + b)[0] == a[0] && (a + b)[1..] == a[1..] + b;
      RunAppend(Next(sys, a[0]), a[1..], b);
    }
  }
}
