/**
  What a CAP server accepts, in terms of texts: which tokens name a key, which challenges verify, what a
  redemption answers, and that an issued token is accepted once and in time.
*/
module CapTokens {
  import opened Options
  import opened Sequences
  import opened Words
  import opened CapProof
  import opened CapServer
  import opened CapRuns
  import opened CapVectors

  // Verification tokens.

  /** 16 lower-case digits, a colon and 30 more. */
  ghost predicate IsToken(token: Bytes, id: Bytes, secret: Bytes) {
    IsLowerHex(id, 16) && IsLowerHex(secret, 30) && token == id + [58] + secret
  }

  /** A token names the key of its identifier and of the digest of its secret. */
  lemma KeyOfToken(cfg: Config, token: Bytes, id: Bytes, secret: Bytes)
    requires IsToken(token, id, secret)
    ensures VerificationKey(cfg, token) == Some(TokenKey(id, cfg.sha(secret)))
  {
    var parts := [id, secret];
    assert Join(parts, COLON) == token by {
      assert parts[1..] == [secret];
    }
    assert COLON !in id && COLON !in secret;
    SplitJoin(parts, COLON);
  }

  /** A text of any other shape names no key. */
  lemma KeyExactlyWhen(cfg: Config, token: Bytes)
    ensures VerificationKey(cfg, token).Some? <==> exists id, secret :: IsToken(token, id, secret)
  {
    if VerificationKey(cfg, token).Some? {
      var parts := Split(token, COLON);
      JoinSplit(token, COLON);
      assert parts == [parts[0], parts[1]] && parts[1..] == [parts[1]];
      assert IsToken(token, parts[0], parts[1]);
    }
    if id, secret :| IsToken(token, id, secret) {
      KeyOfToken(cfg, token, id, secret);
    }
  }

  // Challenges.

  /** The text of a challenge: header, payload and a spelling of the signature of both. */
  ghost predicate Spells(cfg: Config, token: Bytes, body: Bytes, spelling: Bytes) {
    && token == cfg.header + [46] + body + [46] + spelling
    && 46 !in cfg.header && 46 !in body && 46 !in spelling && body != [] && spelling != []
  }

  ghost predicate Bounded(claims: Claims) {
    && |claims.nonce| == 50 && (forall k | 0 <= k < 50 :: claims.nonce[k] in LOWER_HEX)
    && 0 < claims.issuedAt < claims.expires
    && 1 <= claims.count <= 1000 && 1 <= claims.size <= 256 && 1 <= claims.difficulty <= 16
  }

  /** A text signed with the server's key, with these claims. */
  ghost predicate Genuine(cfg: Config, token: Bytes, claims: Claims, signature: Bytes) {
    exists body, spelling :: Spells(cfg, token, body, spelling) && GenuineParts(cfg, body, spelling, claims, signature)
  }

  ghost predicate GenuineParts(cfg: Config, body: Bytes, spelling: Bytes, claims: Claims, signature: Bytes) {
    && signature == cfg.mac(cfg.header + [46] + body) && cfg.decode(spelling) == Some(signature)
    && cfg.decode(body).Some? && cfg.unmarshal(cfg.decode(body).value) == Some(claims)
  }

  lemma SpellsSplit(cfg: Config, token: Bytes, body: Bytes, spelling: Bytes)
    requires Spells(cfg, token, body, spelling)
    ensures Split(token, DOT) == [cfg.header, body, spelling]
  {
    var parts := [cfg.header, body, spelling];
    assert parts[1..] == [body, spelling] && parts[1..][1..] == [spelling];
    assert Join(parts[1..], DOT) == body + [DOT] + spelling;
    assert Join(parts, DOT) == cfg.header + [DOT] + (body + [DOT] + spelling);
    assert Join(parts, DOT) == token;
    SplitJoin(parts, DOT);
  }

  lemma SplitSpells(cfg: Config, token: Bytes)
    requires var parts := Split(token, DOT); |parts| == 3 && parts[0] == cfg.header && parts[1] != [] && parts[2] != []
    ensures Spells(cfg, token, Split(token, DOT)[1], Split(token, DOT)[2])
  {
    var parts := Split(token, DOT);
    JoinSplit(token, DOT);
    assert parts[1..][1..] == [parts[2]];
    assert Join(parts[1..], DOT) == parts[1] + [DOT] + parts[2];
    assert token == parts[0] + [DOT] + (parts[1] + [DOT] + parts[2]);
  }

  lemma BoundedMeans(claims: Claims)
    ensures WellFormed(claims) <==> Bounded(claims)
  {
    assert forall c: Byte :: IsLowerHexDigit(c) <==> c in LOWER_HEX;
  }

  /** A challenge verifies exactly when it is genuine, within the bounds and not expired. */
  lemma VerifiesExactlyWhen(cfg: Config, token: Bytes, now: int, claims: Claims, signature: Bytes)
    ensures Verify(cfg, token, now) == Some((claims, signature)) <==>
      Genuine(cfg, token, claims, signature) && Bounded(claims) && now <= claims.expires
  {
    BoundedMeans(claims);
    hide WellFormed, Bounded;
    if Verify(cfg, token, now) == Some((claims, signature)) {
      SplitSpells(cfg, token);
      assert GenuineParts(cfg, Split(token, DOT)[1], Split(token, DOT)[2], claims, signature);
    }
    if Genuine(cfg, token, claims, signature) {
      var body, spelling :| Spells(cfg, token, body, spelling) && GenuineParts(cfg, body, spelling, claims, signature);
      SpellsSplit(cfg, token, body, spelling);
    }
  }

  // Creating a challenge.

  /** The configured parameters; the lifetime is in nanoseconds. */
  datatype Defaults = Defaults(count: int, size: int, difficulty: int, lifetime: int, scope: Bytes)

  datatype Override = Override(count: int, size: int, difficulty: int, expiresMs: int, scope: Bytes)

  const NANOS := 1_000_000

  /** Positive fields of an override, and a scope that is not empty, replace the defaults. */
  function Chosen(d: Defaults, o: Option<Override>): Defaults {
    if o.None? then d else
    Defaults(if o.value.count > 0 then o.value.count else d.count,
             if o.value.size > 0 then o.value.size else d.size,
             if o.value.difficulty > 0 then o.value.difficulty else d.difficulty,
             if o.value.expiresMs > 0 then o.value.expiresMs * NANOS else d.lifetime,
             if o.value.scope != [] then o.value.scope else d.scope)
  }

  function CreateChallenge(cfg: Config, d: Defaults, o: Option<Override>, nonce: Bytes, now: int): Option<(Bytes, int)> {
    var p := Chosen(d, o);
    if !ValidParams(p.count, p.size, p.difficulty) || p.lifetime <= 0 then None else
    var expires := now + p.lifetime / NANOS;
    Some((Sign(cfg, Claims(nonce, p.count, p.size, p.difficulty, expires, now, p.scope)), expires))
  }

  /**
    A created challenge verifies, with the parameters chosen for it, exactly until it expires; one with a
    lifetime under a millisecond never does.
   */
  lemma CreatedVerifies(cfg: Config, d: Defaults, o: Option<Override>, nonce: Bytes, now: int, later: int)
    requires FaithfulCodec(cfg) && IsLowerHex(nonce, 50) && now > 0
    ensures var p := Chosen(d, o);
      CreateChallenge(cfg, d, o, nonce, now).Some? <==>
        1 <= p.count <= 1000 && 1 <= p.size <= 256 && 1 <= p.difficulty <= 16 && p.lifetime > 0
    ensures var p, made := Chosen(d, o), CreateChallenge(cfg, d, o, nonce, now);
      made.Some? ==>
        && made.value.1 == now + p.lifetime / 1_000_000
        && (Verify(cfg, made.value.0, later).Some? <==> p.lifetime >= 1_000_000 && later <= made.value.1)
        && (Verify(cfg, made.value.0, later).Some? ==>
              Verify(cfg, made.value.0, later).value.0 == Claims(nonce, p.count, p.size, p.difficulty, made.value.1, now, p.scope))
  {
    var p, made := Chosen(d, o), CreateChallenge(cfg, d, o, nonce, now);
    if made.Some? {
      SignedVerifies(cfg, Claims(nonce, p.count, p.size, p.difficulty, made.value.1, now, p.scope), later);
    }
    hide Sign, Verify;
  }

  /** An override without a field takes the default, and a positive field is taken as it is. */
  lemma ChosenFields(d: Defaults, o: Override)
    ensures var p := Chosen(d, Some(o));
      && Chosen(d, None) == d
      && (o.count > 0 ==> p.count == o.count) && (o.count <= 0 ==> p.count == d.count)
      && (o.size > 0 ==> p.size == o.size) && (o.size <= 0 ==> p.size == d.size)
      && (o.difficulty > 0 ==> p.difficulty == o.difficulty) && (o.difficulty <= 0 ==> p.difficulty == d.difficulty)
      && (o.expiresMs > 0 ==> p.lifetime == o.expiresMs * 1_000_000) && (o.expiresMs <= 0 ==> p.lifetime == d.lifetime)
      && (o.scope != [] ==> p.scope == o.scope) && (o.scope == [] ==> p.scope == d.scope)
  {
  }

  // Redemptions.

  /** The answer for one draw: its text, and the key under which its digest is stored. */
  ghost predicate AnswersWith(cfg: Config, r: Response, t: Try, claims: Claims, answerAt: int) {
    r == Redeemed(t.id + [58] + t.secret, TokenKey(t.id, cfg.sha(t.secret)), claims.scope, claims.issuedAt, answerAt + cfg.tokenTtl)
  }

  lemma {:induction false} IssuedDraw(
    cfg: Config, keys: map<Key, Entry>, clock: int, claims: Claims, signature: Bytes, ttl: int, answerAt: int, tries: seq<Try>)
    ensures var r := IssueAny(cfg, keys, clock, claims, signature, ttl, answerAt, tries).1;
      r.Redeemed? ==> exists t | t in tries :: AnswersWith(cfg, r, t, claims, answerAt)
    decreases |tries|
  {
    if tries != [] {
      IssuedDraw(cfg, keys, clock, claims, signature, ttl, answerAt, tries[1..]);
      assert tries[0] in tries;
    }
  }

  /**
    What a redemption proves: the challenge is genuine and was in time for both readings of the clock, it is
    for the scope asked for, and every one of its solutions is right; what it answers: one of the draws.
   */
  lemma RedeemedMeans(cfg: Config, keys: map<Key, Entry>, clock: int, s: Submission)
    requires Redeem(cfg, keys, clock, s).1.Redeemed?
    ensures exists claims, signature, t ::
      && Genuine(cfg, s.token, claims, signature) && Bounded(claims)
      && s.verifyAt <= claims.expires && s.ttlAt < claims.expires && (s.scope != [] ==> s.scope == claims.scope)
      && s.solutions.Some? && |s.solutions.value| == claims.count
      && AllSolve(cfg.sha, s.token, claims.size, claims.difficulty, s.solutions.value)
      && t in s.tries && AnswersWith(cfg, Redeem(cfg, keys, clock, s).1, t, claims, s.answerAt)
  {
    var (claims, signature) := Verify(cfg, s.token, s.verifyAt).value;
    VerifiesExactlyWhen(cfg, s.token, s.verifyAt, claims, signature);
    IssuedDraw(cfg, keys, clock, claims, signature, claims.expires - s.ttlAt, s.answerAt, s.tries);
    hide Verify, AllSolve, Genuine, Bounded, AnswersWith, IssueAny;
    var t :| t in s.tries && AnswersWith(cfg, Redeem(cfg, keys, clock, s).1, t, claims, s.answerAt);
  }

  /** The challenge verifies and is for the scope asked for. */
  ghost predicate InScope(cfg: Config, s: Submission) {
    var verified := Verify(cfg, s.token, s.verifyAt);
    verified.Some? && (s.scope == [] || s.scope == verified.value.0.scope)
  }

  ghost predicate Solved(cfg: Config, s: Submission, claims: Claims)
    requires s.solutions.Some?
  {
    |s.solutions.value| == claims.count
    && (claims.size >= 0 && claims.difficulty >= 0 ==> AllSolve(cfg.sha, s.token, claims.size, claims.difficulty, s.solutions.value))
  }

  /** Which of the three refusals a submission meets. */
  lemma RefusedExactlyWhen(cfg: Config, keys: map<Key, Entry>, clock: int, s: Submission)
    requires s.tries != []
    ensures var r, incomplete := Redeem(cfg, keys, clock, s).1, s.token == [] || s.solutions.None?;
      && (r == Refused(InvalidBody) <==> incomplete)
      && (!incomplete && !InScope(cfg, s) ==> r == Refused(InvalidChallenge))
      && (!incomplete && InScope(cfg, s) ==>
            var (claims, signature) := Verify(cfg, s.token, s.verifyAt).value;
            && (r == Refused(InvalidSolution) <==> !Solved(cfg, s, claims))
            && (r == Refused(InvalidChallenge) <==>
                  Solved(cfg, s, claims) && (claims.expires <= s.ttlAt || Live(keys, clock, NonceKey(signature)))))
  {
    hide AllSolve, FirstFree;
    if Screen(cfg, s).None? {
      var (claims, signature) := Verify(cfg, s.token, s.verifyAt).value;
      hide Verify;
      IssueAnyEffect(cfg, keys, clock, claims, signature, claims.expires - s.ttlAt, s.answerAt, s.tries);
    }
  }

  // What a solution solves.

  /** The first solution is bound to the token followed by the digit 1, and its target to that followed by the letter d. */
  lemma FirstSolution(sha: Bytes -> Digest, token: Bytes, size: nat, difficulty: nat, solution: int)
    ensures Solves(sha, token, size, difficulty, 0, solution) <==>
      && solution >= 0
      && Prng(Fnv(2166136261, token + [49, 100]), difficulty) <= Hex(sha(Prng(Fnv(2166136261, token + [49]), size) + Decimal(solution)))
  {
    assert Decimal(1) == [49];
    assert token + [49] + [100] == token + [49, 100];
  }

  // An issued token over a run.

  /** The event is a validation that accepts a token of this key. */
  ghost predicate SpendsKey(cfg: Config, st: State, ev: Event, key: Key) {
    (ev.Validate? || ev.ValidateWithScope?) && VerificationKey(cfg, ev.token) == Some(key) && Step(cfg, st, ev).1 == Validated(true)
  }

  ghost predicate SpentIn(cfg: Config, st: State, evs: seq<Event>, key: Key)
    decreases |evs|
  {
    evs != [] && (SpendsKey(cfg, st, evs[0], key) || SpentIn(cfg, Step(cfg, st, evs[0]).0, evs[1..], key))
  }

  ghost predicate IssuesKey(cfg: Config, st: State, ev: Event, key: Key) {
    Succeeds(cfg, st, ev) && Step(cfg, st, ev).1.response.key == key
  }

  ghost predicate ReissuedIn(cfg: Config, st: State, evs: seq<Event>, key: Key)
    decreases |evs|
  {
    evs != [] && (IssuesKey(cfg, st, evs[0], key) || ReissuedIn(cfg, Step(cfg, st, evs[0]).0, evs[1..], key))
  }

  lemma StepOnKey(cfg: Config, st: State, ev: Event, key: Key)
    requires key.TokenKey? && !IssuesKey(cfg, st, ev, key)
    ensures var next := Step(cfg, st, ev).0;
      && (key in next.keys <==> key in st.keys && !SpendsKey(cfg, st, ev, key))
      && (key in next.keys ==> next.keys[key] == st.keys[key])
  {
    hide Redeem, VerificationKey;
    if ev.RedeemChallenge? {
      RedeemEffect(cfg, st.keys, st.clock, ev.submission);
    }
  }

  /** Without a new issue of it, a key stays as it is until it is spent, and once gone stays away. */
  lemma {:induction false} RunOnKey(cfg: Config, st: State, evs: seq<Event>, key: Key)
    requires key.TokenKey? && !ReissuedIn(cfg, st, evs, key)
    ensures var later := Run(cfg, st, evs);
      && (key in later.keys <==> key in st.keys && !SpentIn(cfg, st, evs, key))
      && (key in later.keys ==> later.keys[key] == st.keys[key])
    decreases |evs|
  {
    hide Step, SpendsKey, IssuesKey;
    if evs != [] {
      StepOnKey(cfg, st, evs[0], key);
      RunOnKey(cfg, Step(cfg, st, evs[0]).0, evs[1..], key);
      if key !in st.keys {
        AbsentUnspent(cfg, st, evs, key);
      }
    }
  }

  lemma AbsentUnspent(cfg: Config, st: State, evs: seq<Event>, key: Key)
    requires key !in st.keys && evs != []
    ensures !SpendsKey(cfg, st, evs[0], key)
  {
    hide VerificationKey;
  }

  /** While a token lives, a draw of the same key collides. */
  lemma {:induction false} NotReissuedInTime(cfg: Config, st: State, evs: seq<Event>, key: Key, entry: Entry)
    requires key.TokenKey? && key in st.keys && st.keys[key] == entry
    requires Run(cfg, st, evs).clock < entry.deadline && !SpentIn(cfg, st, evs, key)
    ensures !ReissuedIn(cfg, st, evs, key)
    decreases |evs|
  {
    hide Step, SpendsKey;
    if evs != [] {
      ClockForward(cfg, st, evs);
      LiveNotIssued(cfg, st, evs[0], key);
      hide IssuesKey;
      StepOnKey(cfg, st, evs[0], key);
      NotReissuedInTime(cfg, Step(cfg, st, evs[0]).0, evs[1..], key, entry);
    }
  }

  lemma LiveNotIssued(cfg: Config, st: State, ev: Event, key: Key)
    requires Live(st.keys, st.clock, key)
    ensures !IssuesKey(cfg, st, ev, key)
  {
    hide Redeem;
    if ev.RedeemChallenge? {
      RedeemEffect(cfg, st.keys, st.clock, ev.submission);
    }
  }

  /** The draws that the server makes. */
  predicate DrawnHex(tries: seq<Try>) {
    forall k | 0 <= k < |tries| :: IsLowerHex(tries[k].id, 16) && IsLowerHex(tries[k].secret, 30)
  }

  lemma RedeemedStores(cfg: Config, st: State, s: Submission)
    requires Succeeds(cfg, st, RedeemChallenge(s)) && DrawnHex(s.tries)
    ensures var (next, out) := Step(cfg, st, RedeemChallenge(s));
      var r := out.response;
      && r.key.TokenKey? && VerificationKey(cfg, r.token) == Some(r.key) && next.clock == st.clock
      && r.key in next.keys && next.keys[r.key] == Entry(r.scope, st.clock + cfg.tokenTtl)
  {
    var (claims, signature) := Verify(cfg, s.token, s.verifyAt).value;
    hide Verify, AllSolve, FirstFree, VerificationKey;
    IssueAnyEffect(cfg, st.keys, st.clock, claims, signature, claims.expires - s.ttlAt, s.answerAt, s.tries);
    IssuedDraw(cfg, st.keys, st.clock, claims, signature, claims.expires - s.ttlAt, s.answerAt, s.tries);
    hide IssueAny;
    var r := Redeem(cfg, st.keys, st.clock, s).1;
    var t :| t in s.tries && AnswersWith(cfg, r, t, claims, s.answerAt);
    KeyOfToken(cfg, r.token, t.id, t.secret);
  }

  /**
    A token from a redemption is accepted, alone or with its own scope, exactly while its lifetime lasts and
    nothing has spent it; later draws of the same key matter only once it is gone.
   */
  lemma IssuedTokenAccepted(cfg: Config, st: State, s: Submission, evs: seq<Event>, scope: Bytes)
    requires Succeeds(cfg, st, RedeemChallenge(s)) && DrawnHex(s.tries)
    ensures var (next, out) := Step(cfg, st, RedeemChallenge(s));
      var r, later := out.response, Run(cfg, next, evs);
      var works := later.clock < st.clock + cfg.tokenTtl && !SpentIn(cfg, next, evs, r.key);
      works || !ReissuedIn(cfg, next, evs, r.key) ==>
        && Step(cfg, later, Validate(r.token)).1 == Validated(works)
        && Step(cfg, later, ValidateWithScope(r.token, scope)).1 == Validated(works && scope == r.scope)
  {
    RedeemedStores(cfg, st, s);
    var (next, out) := Step(cfg, st, RedeemChallenge(s));
    var r, later := out.response, Run(cfg, next, evs);
    hide Redeem, VerificationKey, Run, ReissuedIn, SpentIn, Succeeds;
    if later.clock < st.clock + cfg.tokenTtl && !SpentIn(cfg, next, evs, r.key) {
      NotReissuedInTime(cfg, next, evs, r.key, next.keys[r.key]);
    }
    if !ReissuedIn(cfg, next, evs, r.key) {
      RunOnKey(cfg, next, evs, r.key);
    }
  }

  /** The next validation of an accepted token is refused. */
  lemma SecondValidationFails(cfg: Config, st: State, token: Bytes, evs: seq<Event>)
    requires Step(cfg, st, Validate(token)).1 == Validated(true)
    ensures var after := Step(cfg, st, Validate(token)).0;
      !ReissuedIn(cfg, after, evs, VerificationKey(cfg, token).value) ==>
        Step(cfg, Run(cfg, after, evs), Validate(token)).1 == Validated(false)
  {
    var after := Step(cfg, st, Validate(token)).0;
    var key := VerificationKey(cfg, token).value;
    VerificationKeyIsToken(cfg, token);
    hide VerificationKey, Run, ReissuedIn, SpentIn;
    if !ReissuedIn(cfg, after, evs, key) {
      RunOnKey(cfg, after, evs, key);
    }
  }
}
