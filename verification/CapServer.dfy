/**
  One-time use of signed challenges and verification tokens. Keys live in Redis and expire with time;
  the signing, decoding and digest functions are parameters.
*/
module CapServer {
  import opened Options
  import opened Sequences
  import opened Words
  import opened CapProof

  const DOT: Byte := 46
  const COLON: Byte := 58
  const ATTEMPTS := 3

  datatype Claims = Claims(
    nonce: Bytes, count: int, size: int, difficulty: int, expires: int, issuedAt: int, scope: Bytes)

  /** header is the encoded token header; tokenTtl is in milliseconds. */
  datatype Config = Config(
    header: Bytes,
    tokenTtl: int,
    mac: Bytes -> Bytes,
    sha: Bytes -> Digest,
    encode: Bytes -> Bytes,
    decode: Bytes -> Option<Bytes>,
    marshal: Claims -> Bytes,
    unmarshal: Bytes -> Option<Claims>)

  predicate IsLowerHex(value: Bytes, length: nat) {
    |value| == length && forall k | 0 <= k < |value| :: IsLowerHexDigit(value[k])
  }

  // Signed challenges.

  function SigningInput(header: Bytes, body: Bytes): Bytes {
    header + [DOT] + body
  }

  function Sign(cfg: Config, claims: Claims): Bytes {
    var input := SigningInput(cfg.header, cfg.encode(cfg.marshal(claims)));
    input + [DOT] + cfg.encode(cfg.mac(input))
  }

  predicate WellFormed(claims: Claims) {
    && IsLowerHex(claims.nonce, 50) && claims.issuedAt > 0 && claims.expires > claims.issuedAt
    && ValidParams(claims.count, claims.size, claims.difficulty)
  }

  /** The claims of a token and the bytes of its signature. */
  function Verify(cfg: Config, token: Bytes, now: int): Option<(Claims, Bytes)> {
    var parts := Split(token, DOT);
    if |parts| != 3 || parts[0] != cfg.header || parts[1] == [] || parts[2] == [] then None else
    var signature := cfg.decode(parts[2]);
    if signature.None? || signature.value != cfg.mac(SigningInput(parts[0], parts[1])) then None else
    var payload := cfg.decode(parts[1]);
    if payload.None? then None else
    var claims := cfg.unmarshal(payload.value);
    if claims.None? || !WellFormed(claims.value) || claims.value.expires < now then None
    else Some((claims.value, signature.value))
  }

  /** Two tokens for the same signed text, whatever the spelling of their signatures, are one challenge. */
  ghost predicate SameChallenge(a: Bytes, b: Bytes) {
    |Split(a, DOT)| == 3 && |Split(b, DOT)| == 3 && Split(a, DOT)[..2] == Split(b, DOT)[..2]
  }

  lemma SpellingsShareSignature(cfg: Config, a: Bytes, b: Bytes, now: int, later: int)
    requires SameChallenge(a, b) && Verify(cfg, a, now).Some? && Verify(cfg, b, later).Some?
    ensures Verify(cfg, a, now) == Verify(cfg, b, later)
  {
    var p, q := Split(a, DOT), Split(b, DOT);
    assert p[0] == p[..2][0] && p[1] == p[..2][1] && q[0] == q[..2][0] && q[1] == q[..2][1];
  }

  ghost predicate FaithfulCodec(cfg: Config) {
    && DOT !in cfg.header
    && (forall x :: cfg.encode(x) != [] && DOT !in cfg.encode(x) && cfg.decode(cfg.encode(x)) == Some(x))
    && (forall c :: cfg.unmarshal(cfg.marshal(c)) == Some(c))
  }

  /** A freshly signed challenge verifies exactly until it expires. */
  lemma SignedVerifies(cfg: Config, claims: Claims, now: int)
    requires FaithfulCodec(cfg)
    ensures Verify(cfg, Sign(cfg, claims), now) ==
      if WellFormed(claims) && now <= claims.expires
      then Some((claims, cfg.mac(SigningInput(cfg.header, cfg.encode(cfg.marshal(claims)))))) else None
  {
    var body := cfg.encode(cfg.marshal(claims));
    var input := SigningInput(cfg.header, body);
    var parts := [cfg.header, body, cfg.encode(cfg.mac(input))];
    assert parts[1..][1..] == [parts[2]];
    assert Join(parts[1..], DOT) == parts[1] + [DOT] + Join(parts[1..][1..], DOT);
    assert Join(parts, DOT) == parts[0] + [DOT] + Join(parts[1..], DOT);
    assert Sign(cfg, claims) == Join(parts, DOT);
    SplitJoin(parts, DOT);
  }

  // Redis.

  datatype Key = NonceKey(signature: Bytes) | TokenKey(id: Bytes, secretHash: Bytes)

  datatype Entry = Entry(value: Bytes, deadline: int)

  predicate Live(keys: map<Key, Entry>, clock: int, key: Key) {
    key in keys && clock < keys[key].deadline
  }

  datatype ScriptResult = AlreadyUsed | Collision | Stored | ScriptFailed

  function IssueKeys(
    keys: map<Key, Entry>, clock: int, nonceKey: Key, tokenKey: Key, nonceTtl: int, tokenTtl: int, scope: Bytes
  ): (map<Key, Entry>, ScriptResult)
  {
    if Live(keys, clock, nonceKey) then (keys, AlreadyUsed)
    else if Live(keys, clock, tokenKey) then (keys, Collision)
    else if nonceTtl <= 0 then (keys, ScriptFailed)
    else
      var marked := keys[nonceKey := Entry([49], clock + nonceTtl)];
      // A script is not rolled back: the nonce stays spent when the second command fails.
      if tokenTtl <= 0 then (marked, ScriptFailed)
      else (marked[tokenKey := Entry(scope, clock + tokenTtl)], Stored)
  }

  class Redis {
    var keys: map<Key, Entry>
    var clock: int

    constructor (clock: int)
      ensures keys == map[] && this.clock == clock
    {
      keys := map[];
      this.clock := clock;
    }

    method Exists(key: Key) returns (ok: bool)
      ensures ok == Live(keys, clock, key)
    {
      ok := key in keys && clock < keys[key].deadline;
    }

    method PSetEx(key: Key, ttl: int, value: Bytes) returns (ok: bool)
      modifies this`keys
      ensures ok == (ttl > 0)
      ensures keys == if ok then old(keys)[key := Entry(value, clock + ttl)] else old(keys)
    {
      ok := ttl > 0;
      if ok {
        keys := keys[key := Entry(value, clock + ttl)];
      }
    }

    method IssueVerification(nonceKey: Key, tokenKey: Key, nonceTtl: int, tokenTtl: int, scope: Bytes)
      returns (result: ScriptResult)
      modifies this`keys
      ensures (keys, result) == IssueKeys(old(keys), clock, nonceKey, tokenKey, nonceTtl, tokenTtl, scope)
    {
      var used := Exists(nonceKey);
      if used {
        return AlreadyUsed;
      }
      var collides := Exists(tokenKey);
      if collides {
        return Collision;
      }
      var ok := PSetEx(nonceKey, nonceTtl, [49]);
      if !ok {
        return ScriptFailed;
      }
      ok := PSetEx(tokenKey, tokenTtl, scope);
      if !ok {
        return ScriptFailed;
      }
      result := Stored;
    }

    method GetDel(key: Key) returns (found: bool)
      modifies this`keys
      ensures found == Live(old(keys), clock, key)
      ensures keys == if found then old(keys) - {key} else old(keys)
    {
      found := Exists(key);
      if found {
        keys := keys - {key};
      }
    }

    method ConsumeScoped(key: Key, scope: Bytes) returns (consumed: bool)
      modifies this`keys
      ensures consumed == (Live(old(keys), clock, key) && old(keys)[key].value == scope)
      ensures keys == if consumed then old(keys) - {key} else old(keys)
    {
      var found := Exists(key);
      if !found || keys[key].value != scope {
        return false;
      }
      keys := keys - {key};
      consumed := true;
    }
  }

  // Redeeming a challenge.

  datatype Try = Try(id: Bytes, secret: Bytes)

  datatype Refusal = InvalidBody | InvalidChallenge | InvalidSolution

  /** token is what the client gets; key is what Redis holds for it. */
  datatype Response =
    | Refused(reason: Refusal)
    | Redeemed(token: Bytes, key: Key, scope: Bytes, issuedAt: int, expires: int)
    | Error

  function TokenKeyOf(cfg: Config, t: Try): Key {
    TokenKey(t.id, cfg.sha(t.secret))
  }

  function TokenText(t: Try): Bytes {
    t.id + [COLON] + t.secret
  }

  /** The retry loop over freshly drawn tokens. */
  function IssueAny(
    cfg: Config, keys: map<Key, Entry>, clock: int, claims: Claims, signature: Bytes, ttl: int, answerAt: int, tries: seq<Try>
  ): (map<Key, Entry>, Response)
    decreases |tries|
  {
    if tries == [] then (keys, Error) else
    var (keys', result) := IssueKeys(keys, clock, NonceKey(signature), TokenKeyOf(cfg, tries[0]), ttl, cfg.tokenTtl, claims.scope);
    match result
    case AlreadyUsed => (keys', Refused(InvalidChallenge))
    case Collision => IssueAny(cfg, keys, clock, claims, signature, ttl, answerAt, tries[1..])
    case Stored =>
      (keys', Redeemed(TokenText(tries[0]), TokenKeyOf(cfg, tries[0]), claims.scope, claims.issuedAt, answerAt + cfg.tokenTtl))
    case ScriptFailed => (keys', Error)
  }

  /** The three times are when the server reads its clock: to verify, for the remaining time, and to answer. */
  datatype Submission = Submission(
    token: Bytes, solutions: Option<seq<int>>, scope: Bytes, verifyAt: int, ttlAt: int, answerAt: int, tries: seq<Try>)

  /** Why a submission is turned away before Redis is asked, if it is. */
  ghost function Screen(cfg: Config, s: Submission): Option<Refusal> {
    if s.token == [] || s.solutions.None? then Some(InvalidBody) else
    var verified := Verify(cfg, s.token, s.verifyAt);
    if verified.None? || (s.scope != [] && verified.value.0.scope != s.scope) then Some(InvalidChallenge) else
    var claims := verified.value.0;
    if |s.solutions.value| != claims.count
       || !AllSolve(cfg.sha, s.token, claims.size, claims.difficulty, s.solutions.value) then Some(InvalidSolution)
    else if claims.expires <= s.ttlAt then Some(InvalidChallenge)
    else None
  }

  ghost function Redeem(cfg: Config, keys: map<Key, Entry>, clock: int, s: Submission): (map<Key, Entry>, Response) {
    var refusal := Screen(cfg, s);
    if refusal.Some? then (keys, Refused(refusal.value)) else
    var (claims, signature) := Verify(cfg, s.token, s.verifyAt).value;
    IssueAny(cfg, keys, clock, claims, signature, claims.expires - s.ttlAt, s.answerAt, s.tries)
  }

  function VerificationKey(cfg: Config, token: Bytes): Option<Key> {
    var parts := Split(token, COLON);
    if |parts| != 2 || !IsLowerHex(parts[0], 16) || !IsLowerHex(parts[1], 30) then None
    else Some(TokenKey(parts[0], cfg.sha(parts[1])))
  }

  class Cap {
    const cfg: Config
    const rdb: Redis

    constructor (cfg: Config, rdb: Redis)
      ensures this.cfg == cfg && this.rdb == rdb
    {
      this.cfg := cfg;
      this.rdb := rdb;
    }

    /** The random draws are given. */
    method RedeemChallengeWithScope(s: Submission) returns (response: Response)
      requires |s.tries| == 3
      modifies rdb`keys
      ensures (rdb.keys, response) == Redeem(cfg, old(rdb.keys), rdb.clock, s)
    {
      if s.token == [] || s.solutions.None? {
        return Refused(InvalidBody);
      }
      var verified := Verify(cfg, s.token, s.verifyAt);
      if verified.None? {
        return Refused(InvalidChallenge);
      }
      var (claims, signature) := verified.value;
      if s.scope != [] && claims.scope != s.scope {
        return Refused(InvalidChallenge);
      }
      if |s.solutions.value| != claims.count {
        return Refused(InvalidSolution);
      }
      var ok := ValidSolutions(cfg.sha, s.token, claims.size, claims.difficulty, s.solutions.value);
      if !ok {
        return Refused(InvalidSolution);
      }
      var remainingTtl := claims.expires - s.ttlAt;
      if remainingTtl <= 0 {
        return Refused(InvalidChallenge);
      }
      for attempt := 0 to ATTEMPTS
        invariant rdb.keys == old(rdb.keys)
        invariant Redeem(cfg, old(rdb.keys), rdb.clock, s)
          == IssueAny(cfg, old(rdb.keys), rdb.clock, claims, signature, remainingTtl, s.answerAt, s.tries[attempt..])
      {
        var tokenKey := TokenKeyOf(cfg, s.tries[attempt]);
        assert s.tries[attempt..][0] == s.tries[attempt] && s.tries[attempt..][1..] == s.tries[attempt + 1..];
        var result := rdb.IssueVerification(NonceKey(signature), tokenKey, remainingTtl, cfg.tokenTtl, claims.scope);
        match result {
          case AlreadyUsed => return Refused(InvalidChallenge);
          case Collision =>
          case Stored =>
            return Redeemed(TokenText(s.tries[attempt]), tokenKey, claims.scope, claims.issuedAt, s.answerAt + cfg.tokenTtl);
          case ScriptFailed => return Error;
        }
      }
      response := Error;
    }

    method ValidateToken(token: Bytes) returns (ok: bool)
      modifies rdb`keys
      ensures var key := VerificationKey(cfg, token);
        && ok == (key.Some? && Live(old(rdb.keys), rdb.clock, key.value))
        && rdb.keys == if ok then old(rdb.keys) - {key.value} else old(rdb.keys)
    {
      var key := VerificationKey(cfg, token);
      if key.None? {
        return false;
      }
      ok := rdb.GetDel(key.value);
    }

    method ValidateTokenWithScope(token: Bytes, expectedScope: Bytes) returns (ok: bool)
      modifies rdb`keys
      ensures var key := VerificationKey(cfg, token);
        && ok == (key.Some? && Live(old(rdb.keys), rdb.clock, key.value) && old(rdb.keys)[key.value].value == expectedScope)
        && rdb.keys == if ok then old(rdb.keys) - {key.value} else old(rdb.keys)
    {
      var key := VerificationKey(cfg, token);
      if key.None? {
        return false;
      }
      ok := rdb.ConsumeScoped(key.value, expectedScope);
    }
  }

  /** The first draw that collides with no live token, among those made. */
  ghost predicate FirstFree(cfg: Config, keys: map<Key, Entry>, clock: int, tries: seq<Try>, n: nat) {
    && n < |tries| && !Live(keys, clock, TokenKeyOf(cfg, tries[n]))
    && forall k | 0 <= k < n :: Live(keys, clock, TokenKeyOf(cfg, tries[k]))
  }

  /** A success spends the challenge for ttl and stores one new token. */
  ghost predicate Marks(cfg: Config, keys: map<Key, Entry>, keys': map<Key, Entry>, clock: int, signature: Bytes, ttl: int, r: Response)
    requires r.Redeemed?
  {
    && r.key.TokenKey? && !Live(keys, clock, r.key)
    && keys' == keys[NonceKey(signature) := Entry([49], clock + ttl)][r.key := Entry(r.scope, clock + cfg.tokenTtl)]
  }

  /** What the retry loop does: it stores the first free draw, unless the challenge was spent. */
  lemma {:induction false} IssueAnyEffect(
    cfg: Config, keys: map<Key, Entry>, clock: int, claims: Claims, signature: Bytes, ttl: int, answerAt: int, tries: seq<Try>)
    requires ttl > 0
    ensures var (keys', r) := IssueAny(cfg, keys, clock, claims, signature, ttl, answerAt, tries);
      && (r.Redeemed? <==> !Live(keys, clock, NonceKey(signature)) && cfg.tokenTtl > 0
                           && exists n: nat :: FirstFree(cfg, keys, clock, tries, n))
      && (r.Redeemed? ==> Marks(cfg, keys, keys', clock, signature, ttl, r))
      && (r.Refused? ==> Live(keys, clock, NonceKey(signature)))
      && (!r.Redeemed? && cfg.tokenTtl > 0 ==> keys' == keys)
      && (Live(keys, clock, NonceKey(signature)) || (forall n: nat :: !FirstFree(cfg, keys, clock, tries, n)) ==> keys' == keys)
      && (cfg.tokenTtl <= 0 && !Live(keys, clock, NonceKey(signature)) && (exists n: nat :: FirstFree(cfg, keys, clock, tries, n)) ==>
            r == Error && keys' == keys[NonceKey(signature) := Entry([49], clock + ttl)])
      && (!r.Redeemed? ==> keys' == keys || keys' == keys[NonceKey(signature) := Entry([49], clock + ttl)])
    decreases |tries|
  {
    if tries != [] && !Live(keys, clock, NonceKey(signature)) {
      if Live(keys, clock, TokenKeyOf(cfg, tries[0])) {
        IssueAnyEffect(cfg, keys, clock, claims, signature, ttl, answerAt, tries[1..]);
        if n: nat :| FirstFree(cfg, keys, clock, tries[1..], n) {
          assert tries[1..][n] == tries[n + 1];
          assert FirstFree(cfg, keys, clock, tries, n + 1) by {
            forall k | 0 <= k < n + 1
              ensures Live(keys, clock, TokenKeyOf(cfg, tries[k]))
            {
              if k > 0 {
                assert tries[1..][k - 1] == tries[k];
              }
            }
          }
        }
        if n: nat :| FirstFree(cfg, keys, clock, tries, n) {
          assert FirstFree(cfg, keys, clock, tries[1..], n - 1);
        }
      } else {
        assert FirstFree(cfg, keys, clock, tries, 0);
      }
    }
  }
}
