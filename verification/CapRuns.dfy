/**
  Runs of the CAP server: clients redeem challenges and spend tokens in any order while time passes
  and keys expire.
*/
module CapRuns {
  import opened Options
  import opened Sequences
  import opened Words
  import opened CapProof
  import opened CapServer

  datatype Event =
    | RedeemChallenge(submission: Submission)
    | Validate(token: Bytes)
    | ValidateWithScope(token: Bytes, scope: Bytes)
    | Tick(milliseconds: nat)

  /** The Redis keys and clock, with every issued token and every accepted validation so far. */
  datatype State = State(keys: map<Key, Entry>, clock: int, issued: multiset<Key>, accepted: multiset<Key>)

  datatype Outcome = Answered(response: Response) | Validated(ok: bool) | Passed

  function Start(clock: int): State {
    State(map[], clock, multiset{}, multiset{})
  }

  function Accepts(st: State, key: Option<Key>, scope: Option<Bytes>): bool {
    key.Some? && Live(st.keys, st.clock, key.value) && (scope.Some? ==> st.keys[key.value].value == scope.value)
  }

  function Spend(st: State, key: Option<Key>, scope: Option<Bytes>): (State, Outcome) {
    if Accepts(st, key, scope)
      then (st.(keys := st.keys - {key.value}, accepted := st.accepted + multiset{key.value}), Validated(true))
      else (st, Validated(false))
  }

  ghost function Step(cfg: Config, st: State, ev: Event): (State, Outcome) {
    match ev
    case RedeemChallenge(s) =>
      var (keys, r) := Redeem(cfg, st.keys, st.clock, s);
      (st.(keys := keys, issued := if r.Redeemed? then st.issued + multiset{r.key} else st.issued), Answered(r))
    case Validate(token) => Spend(st, VerificationKey(cfg, token), None)
    case ValidateWithScope(token, scope) => Spend(st, VerificationKey(cfg, token), Some(scope))
    case Tick(d) => (st.(clock := st.clock + d), Passed)
  }

  ghost function Run(cfg: Config, st: State, evs: seq<Event>): State
    decreases |evs|
  {
    if evs == [] then st else Run(cfg, Step(cfg, st, evs[0]).0, evs[1..])
  }

  lemma {:induction false} RunAppend(cfg: Config, st: State, a: seq<Event>, b: seq<Event>)
    ensures Run(cfg, st, a + b) == Run(cfg, Run(cfg, st, a), b)
    decreases |a|
  {
    hide Step;
    if a == [] {
      assert a + b == b;
    } else {
      assert (a + b)[0] == a[0] && (a + b)[1..] == a[1..] + b;
      RunAppend(cfg, Step(cfg, st, a[0]).0, a[1..], b);
    }
  }

  // Validations never exceed issuances.

  /** Every acceptance, and every token still spendable, was paid for by an issuance of the same key. */
  ghost predicate Paid(st: State) {
    && (forall k | Live(st.keys, st.clock, k) && k.TokenKey? :: st.accepted[k] + 1 <= st.issued[k])
    && (forall k :: st.accepted[k] <= st.issued[k])
  }

  lemma RedeemEffect(cfg: Config, keys: map<Key, Entry>, clock: int, s: Submission)
    ensures var (keys', r) := Redeem(cfg, keys, clock, s);
      && (forall k: Key | k.TokenKey? && !(r.Redeemed? && k == r.key) :: k in keys' <==> k in keys)
      && (forall k: Key | k.TokenKey? && k in keys && !(r.Redeemed? && k == r.key) :: keys'[k] == keys[k])
      && (r.Redeemed? ==> r.key.TokenKey? && !Live(keys, clock, r.key))
  {
    hide AllSolve, Verify, FirstFree;
    if Screen(cfg, s).None? {
      var (claims, signature) := Verify(cfg, s.token, s.verifyAt).value;
      IssueAnyEffect(cfg, keys, clock, claims, signature, claims.expires - s.ttlAt, s.answerAt, s.tries);
    }
  }

  lemma StepKeepsPaid(cfg: Config, st: State, ev: Event)
    requires Paid(st)
    ensures Paid(Step(cfg, st, ev).0)
  {
    hide Redeem, VerificationKey;
    if ev.RedeemChallenge? {
      RedeemEffect(cfg, st.keys, st.clock, ev.submission);
    } else if ev.Validate? {
      VerificationKeyIsToken(cfg, ev.token);
    } else if ev.ValidateWithScope? {
      VerificationKeyIsToken(cfg, ev.token);
    }
  }

  lemma {:induction false} RunKeepsPaid(cfg: Config, st: State, evs: seq<Event>)
    requires Paid(st)
    ensures Paid(Run(cfg, st, evs))
    decreases |evs|
  {
    hide Step, Paid;
    if evs != [] {
      StepKeepsPaid(cfg, st, evs[0]);
      RunKeepsPaid(cfg, Step(cfg, st, evs[0]).0, evs[1..]);
    }
  }

  /** Over every run, per key, across both ways to validate. */
  lemma AcceptedNeverExceedsIssued(cfg: Config, clock: int, evs: seq<Event>, key: Key)
    ensures var st := Run(cfg, Start(clock), evs);
      st.accepted[key] + (if key.TokenKey? && Live(st.keys, st.clock, key) then 1 else 0) <= st.issued[key]
  {
    RunKeepsPaid(cfg, Start(clock), evs);
  }

  /** How many validations of a run accept a token of the key. */
  ghost function Acceptances(cfg: Config, st: State, evs: seq<Event>, key: Key): nat
    decreases |evs|
  {
    if evs == [] then 0
    else
      var (next, out) := Step(cfg, st, evs[0]);
      (if out == Validated(true) && VerificationKey(cfg, evs[0].token) == Some(key) then 1 else 0) + Acceptances(cfg, next, evs[1..], key)
  }

  /** How many redemptions of a run issue the key. */
  ghost function Issuances(cfg: Config, st: State, evs: seq<Event>, key: Key): nat
    decreases |evs|
  {
    if evs == [] then 0
    else
      var (next, out) := Step(cfg, st, evs[0]);
      (if out.Answered? && out.response.Redeemed? && out.response.key == key then 1 else 0) + Issuances(cfg, next, evs[1..], key)
  }

  lemma StepCounts(cfg: Config, st: State, ev: Event, key: Key)
    ensures var (next, out) := Step(cfg, st, ev);
      && (out == Validated(true) ==> ev.Validate? || ev.ValidateWithScope?)
      && next.accepted[key] == st.accepted[key] + (if out == Validated(true) && VerificationKey(cfg, ev.token) == Some(key) then 1 else 0)
      && next.issued[key] == st.issued[key] + (if out.Answered? && out.response.Redeemed? && out.response.key == key then 1 else 0)
  {
    hide Redeem, VerificationKey;
  }

  lemma {:induction false} RunCounts(cfg: Config, st: State, evs: seq<Event>, key: Key)
    ensures Run(cfg, st, evs).accepted[key] == st.accepted[key] + Acceptances(cfg, st, evs, key)
    ensures Run(cfg, st, evs).issued[key] == st.issued[key] + Issuances(cfg, st, evs, key)
    decreases |evs|
  {
    hide Step, VerificationKey;
    if evs != [] {
      StepCounts(cfg, st, evs[0], key);
      RunCounts(cfg, Step(cfg, st, evs[0]).0, evs[1..], key);
    }
  }

  /** Over every run from the start, no token is accepted more often than it was issued. */
  lemma AcceptancesPaidFor(cfg: Config, clock: int, evs: seq<Event>, key: Key)
    ensures Acceptances(cfg, Start(clock), evs, key) <= Issuances(cfg, Start(clock), evs, key)
  {
    RunCounts(cfg, Start(clock), evs, key);
    AcceptedNeverExceedsIssued(cfg, clock, evs, key);
  }

  /** A validation that fails, a mismatched scope among them, consumes nothing. */
  lemma FailedValidationConsumesNothing(cfg: Config, st: State, ev: Event)
    requires ev.Validate? || ev.ValidateWithScope?
    requires Step(cfg, st, ev).1 == Validated(false)
    ensures Step(cfg, st, ev).0 == st
  {
  }

  // One token for each challenge.

  ghost predicate Succeeds(cfg: Config, st: State, ev: Event) {
    ev.RedeemChallenge? && Step(cfg, st, ev).1.response.Redeemed?
  }

  /** When a submission is redeemed: it passes the screen, its challenge is unspent and some draw is free. */
  lemma RedeemedExactlyWhen(cfg: Config, keys: map<Key, Entry>, clock: int, s: Submission)
    ensures Redeem(cfg, keys, clock, s).1.Redeemed? <==>
      && Screen(cfg, s).None? && cfg.tokenTtl > 0
      && !Live(keys, clock, NonceKey(Verify(cfg, s.token, s.verifyAt).value.1))
      && exists n: nat :: FirstFree(cfg, keys, clock, s.tries, n)
  {
    hide AllSolve, Verify, FirstFree;
    if Screen(cfg, s).None? {
      var (claims, signature) := Verify(cfg, s.token, s.verifyAt).value;
      IssueAnyEffect(cfg, keys, clock, claims, signature, claims.expires - s.ttlAt, s.answerAt, s.tries);
    }
  }

  /** With a positive token lifetime, a refused or failed submission leaves Redis as it was. */
  lemma RefusalConsumesNothing(cfg: Config, keys: map<Key, Entry>, clock: int, s: Submission)
    requires cfg.tokenTtl > 0 && !Redeem(cfg, keys, clock, s).1.Redeemed?
    ensures Redeem(cfg, keys, clock, s).0 == keys
  {
    hide AllSolve, Verify, FirstFree;
    if Screen(cfg, s).None? {
      var (claims, signature) := Verify(cfg, s.token, s.verifyAt).value;
      IssueAnyEffect(cfg, keys, clock, claims, signature, claims.expires - s.ttlAt, s.answerAt, s.tries);
    }
  }

  /** A script that was not rolled back: with no token lifetime the challenge is spent without a token. */
  lemma ZeroLifetimeBurnsChallenge(cfg: Config, keys: map<Key, Entry>, clock: int, s: Submission)
    requires cfg.tokenTtl <= 0 && Screen(cfg, s).None?
    requires !Live(keys, clock, NonceKey(Verify(cfg, s.token, s.verifyAt).value.1))
    requires exists n: nat :: FirstFree(cfg, keys, clock, s.tries, n)
    ensures Redeem(cfg, keys, clock, s).1 == Error
    ensures Live(Redeem(cfg, keys, clock, s).0, clock, NonceKey(Verify(cfg, s.token, s.verifyAt).value.1))
  {
    hide AllSolve, Verify, FirstFree;
    var (claims, signature) := Verify(cfg, s.token, s.verifyAt).value;
    IssueAnyEffect(cfg, keys, clock, claims, signature, claims.expires - s.ttlAt, s.answerAt, s.tries);
  }

  /**
    A submission that is not redeemed leaves Redis as it was exactly when the token lifetime is positive,
    or it is turned away before Redis is asked, or its challenge is spent already, or no draw is free.
   */
  lemma ConsumesNothingExactlyWhen(cfg: Config, keys: map<Key, Entry>, clock: int, s: Submission)
    requires !Redeem(cfg, keys, clock, s).1.Redeemed?
    ensures Redeem(cfg, keys, clock, s).0 == keys <==>
      || cfg.tokenTtl > 0
      || Screen(cfg, s).Some?
      || Live(keys, clock, NonceKey(Verify(cfg, s.token, s.verifyAt).value.1))
      || forall n: nat :: !FirstFree(cfg, keys, clock, s.tries, n)
  {
    hide AllSolve, Verify, FirstFree;
    if Screen(cfg, s).None? {
      var (claims, signature) := Verify(cfg, s.token, s.verifyAt).value;
      IssueAnyEffect(cfg, keys, clock, claims, signature, claims.expires - s.ttlAt, s.answerAt, s.tries);
    }
  }

  /** Key spent until at least the given deadline. */
  ghost predicate SpentUntil(st: State, signature: Bytes, deadline: int) {
    NonceKey(signature) in st.keys && st.keys[NonceKey(signature)].deadline >= deadline
  }

  lemma SuccessSpends(cfg: Config, st: State, ev: Event)
    requires Succeeds(cfg, st, ev) && ev.submission.ttlAt <= st.clock
    ensures Verify(cfg, ev.submission.token, ev.submission.verifyAt).Some?
    ensures var (claims, signature) := Verify(cfg, ev.submission.token, ev.submission.verifyAt).value;
      SpentUntil(Step(cfg, st, ev).0, signature, claims.expires)
  {
    hide AllSolve, Verify, FirstFree;
    var s := ev.submission;
    var (claims, signature) := Verify(cfg, s.token, s.verifyAt).value;
    IssueAnyEffect(cfg, st.keys, st.clock, claims, signature, claims.expires - s.ttlAt, s.answerAt, s.tries);
  }

  /** While its key is live, a challenge cannot be redeemed again, and nothing but time unspends it. */
  lemma SpentStays(cfg: Config, st: State, ev: Event, signature: Bytes, deadline: int)
    requires SpentUntil(st, signature, deadline) && st.clock < deadline
    ensures SpentUntil(Step(cfg, st, ev).0, signature, deadline)
  {
    hide AllSolve, Verify, FirstFree, VerificationKey;
    if ev.RedeemChallenge? {
      var s := ev.submission;
      if Screen(cfg, s).None? {
        var (claims, own) := Verify(cfg, s.token, s.verifyAt).value;
        IssueAnyEffect(cfg, st.keys, st.clock, claims, own, claims.expires - s.ttlAt, s.answerAt, s.tries);
      }
    } else if ev.Validate? {
      VerificationKeyIsToken(cfg, ev.token);
    } else if ev.ValidateWithScope? {
      VerificationKeyIsToken(cfg, ev.token);
    }
  }

  lemma VerificationKeyIsToken(cfg: Config, token: Bytes)
    ensures VerificationKey(cfg, token).Some? ==> VerificationKey(cfg, token).value.TokenKey?
  {
  }

  lemma {:induction false} SpentThrough(cfg: Config, st: State, evs: seq<Event>, signature: Bytes, deadline: int)
    requires SpentUntil(st, signature, deadline) && Run(cfg, st, evs).clock < deadline
    ensures SpentUntil(Run(cfg, st, evs), signature, deadline)
    decreases |evs|
  {
    hide Step, SpentUntil;
    if evs != [] {
      ClockForward(cfg, st, evs);
      SpentStays(cfg, st, evs[0], signature, deadline);
      SpentThrough(cfg, Step(cfg, st, evs[0]).0, evs[1..], signature, deadline);
    }
  }

  lemma {:induction false} ClockForward(cfg: Config, st: State, evs: seq<Event>)
    ensures st.clock <= Run(cfg, st, evs).clock
    decreases |evs|
  {
    hide Redeem, Spend;
    if evs != [] {
      StepClock(cfg, st, evs[0]);
      ClockForward(cfg, Step(cfg, st, evs[0]).0, evs[1..]);
    }
  }

  lemma StepClock(cfg: Config, st: State, ev: Event)
    ensures st.clock <= Step(cfg, st, ev).0.clock
  {
  }

  /**
    Each challenge yields at most one token among the submissions whose script runs before the
    challenge expires, however its signature is spelled: the earlier one must not have read its
    clock from the future, the later one must reach Redis before the expiry it carries.
   */
  lemma OneTokenPerChallenge(cfg: Config, clock: int, evs: seq<Event>, j: nat, k: nat)
    requires j < k < |evs| && evs[j].RedeemChallenge? && evs[k].RedeemChallenge?
    requires SameChallenge(evs[j].submission.token, evs[k].submission.token)
    requires Succeeds(cfg, Run(cfg, Start(clock), evs[..j]), evs[j])
    requires evs[j].submission.ttlAt <= Run(cfg, Start(clock), evs[..j]).clock
    requires var verified := Verify(cfg, evs[k].submission.token, evs[k].submission.verifyAt);
      verified.Some? ==> Run(cfg, Start(clock), evs[..k]).clock < verified.value.0.expires
    ensures !Succeeds(cfg, Run(cfg, Start(clock), evs[..k]), evs[k])
  {
    hide Step, Verify, Screen, SpentUntil, SameChallenge;
    var first, second := evs[j].submission, evs[k].submission;
    var st := Run(cfg, Start(clock), evs[..j]);
    SuccessSpends(cfg, st, evs[j]);
    var (claims, signature) := Verify(cfg, first.token, first.verifyAt).value;
    if Verify(cfg, second.token, second.verifyAt).None? {
      UnverifiedFails(cfg, Run(cfg, Start(clock), evs[..k]), evs[k]);
      return;
    }
    SpellingsShareSignature(cfg, first.token, second.token, first.verifyAt, second.verifyAt);
    var after := Step(cfg, st, evs[j]).0;
    assert evs[..k] == evs[..j] + evs[j..k] && evs[j..k][0] == evs[j];
    RunAppend(cfg, Start(clock), evs[..j], evs[j..k]);
    SpentThrough(cfg, after, evs[j..k][1..], signature, claims.expires);
    SpentFails(cfg, Run(cfg, Start(clock), evs[..k]), evs[k], signature, claims.expires);
  }

  lemma UnverifiedFails(cfg: Config, st: State, ev: Event)
    requires ev.RedeemChallenge? && Verify(cfg, ev.submission.token, ev.submission.verifyAt).None?
    ensures !Succeeds(cfg, st, ev)
  {
    hide AllSolve, Verify;
  }

  lemma SpentFails(cfg: Config, st: State, ev: Event, signature: Bytes, deadline: int)
    requires ev.RedeemChallenge? && Verify(cfg, ev.submission.token, ev.submission.verifyAt).Some?
    requires Verify(cfg, ev.submission.token, ev.submission.verifyAt).value.1 == signature
    requires SpentUntil(st, signature, deadline) && st.clock < deadline
    ensures !Succeeds(cfg, st, ev)
  {
    hide AllSolve, Verify, Redeem;
    RedeemedExactlyWhen(cfg, st.keys, st.clock, ev.submission);
  }

  /** The signature of a submission that verifies. */
  function SignatureOf(cfg: Config, s: Submission): Option<Bytes> {
    var verified := Verify(cfg, s.token, s.verifyAt);
    if verified.None? then None else Some(verified.value.1)
  }

  ghost predicate Spends(cfg: Config, st: State, ev: Event, signature: Bytes) {
    Succeeds(cfg, st, ev) && SignatureOf(cfg, ev.submission) == Some(signature)
  }

  /** With a positive token lifetime only a redemption of the same signature changes its nonce. */
  lemma NonceStays(cfg: Config, st: State, ev: Event, signature: Bytes)
    requires cfg.tokenTtl > 0 && NonceKey(signature) in st.keys && !Spends(cfg, st, ev, signature)
    ensures NonceKey(signature) in Step(cfg, st, ev).0.keys && Step(cfg, st, ev).0.keys[NonceKey(signature)] == st.keys[NonceKey(signature)]
  {
    hide AllSolve, Verify, FirstFree, VerificationKey;
    if ev.RedeemChallenge? {
      var s := ev.submission;
      if Screen(cfg, s).None? {
        var (claims, own) := Verify(cfg, s.token, s.verifyAt).value;
        IssueAnyEffect(cfg, st.keys, st.clock, claims, own, claims.expires - s.ttlAt, s.answerAt, s.tries);
      }
    } else if ev.Validate? {
      VerificationKeyIsToken(cfg, ev.token);
    } else if ev.ValidateWithScope? {
      VerificationKeyIsToken(cfg, ev.token);
    }
  }

  lemma {:induction false} NonceThrough(cfg: Config, st: State, evs: seq<Event>, signature: Bytes)
    requires cfg.tokenTtl > 0 && NonceKey(signature) in st.keys
    requires forall m | 0 <= m < |evs| :: !Spends(cfg, Run(cfg, st, evs[..m]), evs[m], signature)
    ensures NonceKey(signature) in Run(cfg, st, evs).keys && Run(cfg, st, evs).keys[NonceKey(signature)] == st.keys[NonceKey(signature)]
    decreases |evs|
  {
    hide Step, Spends;
    if evs != [] {
      assert evs[..0] == [] && Run(cfg, st, []) == st;
      NonceStays(cfg, st, evs[0], signature);
      var next := Step(cfg, st, evs[0]).0;
      forall m | 0 <= m < |evs[1..]|
        ensures !Spends(cfg, Run(cfg, next, evs[1..][..m]), evs[1..][m], signature)
      {
        assert evs[..m + 1][0] == evs[0] && evs[..m + 1][1..] == evs[1..][..m];
        assert Run(cfg, st, evs[..m + 1]) == Run(cfg, next, evs[1..][..m]);
      }
      NonceThrough(cfg, next, evs[1..], signature);
    }
  }

  /** What a success stores under the nonce. */
  lemma SuccessMarks(cfg: Config, st: State, ev: Event)
    requires Succeeds(cfg, st, ev)
    ensures cfg.tokenTtl > 0 && Verify(cfg, ev.submission.token, ev.submission.verifyAt).Some?
    ensures var (claims, signature) := Verify(cfg, ev.submission.token, ev.submission.verifyAt).value;
      var next := Step(cfg, st, ev).0;
      NonceKey(signature) in next.keys && next.keys[NonceKey(signature)].deadline == st.clock + claims.expires - ev.submission.ttlAt
  {
    hide AllSolve, Verify, FirstFree;
    var s := ev.submission;
    var (claims, signature) := Verify(cfg, s.token, s.verifyAt).value;
    IssueAnyEffect(cfg, st.keys, st.clock, claims, signature, claims.expires - s.ttlAt, s.answerAt, s.tries);
  }

  /** Events j and k submit one challenge; j is redeemed, and nothing between them redeems that signature. */
  ghost predicate NextRedemption(cfg: Config, clock: int, evs: seq<Event>, j: nat, k: nat) {
    && j < k < |evs| && evs[j].RedeemChallenge? && evs[k].RedeemChallenge?
    && SameChallenge(evs[j].submission.token, evs[k].submission.token)
    && Succeeds(cfg, Run(cfg, Start(clock), evs[..j]), evs[j])
    && forall m | j < m < k ::
         !(Succeeds(cfg, Run(cfg, Start(clock), evs[..m]), evs[m])
           && SignatureOf(cfg, evs[m].submission) == SignatureOf(cfg, evs[j].submission))
  }

  /**
    When a challenge yields another token: exactly when the submission passes its screen, its script runs
    no earlier than the lifetime that the last redemption set after its own script, and some draw is free.
   */
  lemma RedeemedAgainExactlyWhen(cfg: Config, clock: int, evs: seq<Event>, j: nat, k: nat)
    requires NextRedemption(cfg, clock, evs, j, k)
    ensures Verify(cfg, evs[j].submission.token, evs[j].submission.verifyAt).Some?
    ensures var before, now := Run(cfg, Start(clock), evs[..j]), Run(cfg, Start(clock), evs[..k]);
      var lifetime := Verify(cfg, evs[j].submission.token, evs[j].submission.verifyAt).value.0.expires - evs[j].submission.ttlAt;
      Succeeds(cfg, now, evs[k]) <==>
        && Screen(cfg, evs[k].submission).None?
        && now.clock >= before.clock + lifetime
        && exists n: nat :: FirstFree(cfg, now.keys, now.clock, evs[k].submission.tries, n)
  {
    var before, now := Run(cfg, Start(clock), evs[..j]), Run(cfg, Start(clock), evs[..k]);
    SuccessMarks(cfg, before, evs[j]);
    var (claims, signature) := Verify(cfg, evs[j].submission.token, evs[j].submission.verifyAt).value;
    NonceKept(cfg, clock, evs, j, k, signature);
    hide AllSolve, Verify, FirstFree, Run, SameChallenge;
    RedeemedExactlyWhen(cfg, now.keys, now.clock, evs[k].submission);
    if Screen(cfg, evs[k].submission).None? {
      SpellingsShareSignature(cfg, evs[j].submission.token, evs[k].submission.token, evs[j].submission.verifyAt, evs[k].submission.verifyAt);
    }
  }

  lemma NonceKept(cfg: Config, clock: int, evs: seq<Event>, j: nat, k: nat, signature: Bytes)
    requires NextRedemption(cfg, clock, evs, j, k) && cfg.tokenTtl > 0 && SignatureOf(cfg, evs[j].submission) == Some(signature)
    requires NonceKey(signature) in Step(cfg, Run(cfg, Start(clock), evs[..j]), evs[j]).0.keys
    ensures var after, now := Step(cfg, Run(cfg, Start(clock), evs[..j]), evs[j]).0, Run(cfg, Start(clock), evs[..k]);
      NonceKey(signature) in now.keys && now.keys[NonceKey(signature)] == after.keys[NonceKey(signature)]
  {
    hide Step, Succeeds, SignatureOf, SameChallenge;
    var after := Step(cfg, Run(cfg, Start(clock), evs[..j]), evs[j]).0;
    var between := evs[j + 1..k];
    forall m | 0 <= m <= |between|
      ensures Run(cfg, after, between[..m]) == Run(cfg, Start(clock), evs[..j + 1 + m])
    {
      assert evs[..j + 1 + m] == evs[..j] + ([evs[j]] + between[..m]);
      RunAppend(cfg, Start(clock), evs[..j], [evs[j]] + between[..m]);
      assert ([evs[j]] + between[..m])[1..] == between[..m];
    }
    assert between[..|between|] == between;
    NonceThrough(cfg, after, between, signature);
  }

  /**
    The bound on the script's delay is needed: a submission that was screened in time but runs its
    script after the first one's key has expired gets a second token.
   */
  lemma LateScriptIssuesAgain(cfg: Config, st: State, ev: Event, wait: nat)
    requires Succeeds(cfg, st, ev)
    requires wait >= Verify(cfg, ev.submission.token, ev.submission.verifyAt).value.0.expires - ev.submission.ttlAt
    requires wait >= cfg.tokenTtl
    ensures Succeeds(cfg, Run(cfg, st, [ev, Tick(wait)]), ev)
  {
    hide AllSolve, Verify;
    var s := ev.submission;
    var after := Step(cfg, st, ev).0;
    var late := Step(cfg, after, Tick(wait)).0;
    assert [ev, Tick(wait)][1..] == [Tick(wait)] && [Tick(wait)][1..] == [];
    assert Run(cfg, late, []) == late;
    assert Run(cfg, after, [Tick(wait)]) == late;
    var (claims, signature) := Verify(cfg, s.token, s.verifyAt).value;
    IssueAnyEffect(cfg, st.keys, st.clock, claims, signature, claims.expires - s.ttlAt, s.answerAt, s.tries);
    RedeemedExactlyWhen(cfg, st.keys, st.clock, s);
    RedeemedExactlyWhen(cfg, late.keys, late.clock, s);
    var n: nat :| FirstFree(cfg, st.keys, st.clock, s.tries, n);
    var r := Redeem(cfg, st.keys, st.clock, s).1;
    assert late.keys == st.keys[NonceKey(signature) := Entry([49], st.clock + claims.expires - s.ttlAt)]
                               [r.key := Entry(r.scope, st.clock + cfg.tokenTtl)];
    SomeFree(cfg, st.keys, st.clock, late.keys, late.clock, s, n);
  }

  /** After every key has had time to expire, some draw is still free. */
  lemma SomeFree(cfg: Config, keys: map<Key, Entry>, clock: int, later: map<Key, Entry>, laterClock: int, s: Submission, n: nat)
    requires FirstFree(cfg, keys, clock, s.tries, n)
    requires !Live(later, laterClock, TokenKeyOf(cfg, s.tries[n]))
    ensures exists m: nat :: FirstFree(cfg, later, laterClock, s.tries, m)
    decreases n
  {
    var m: nat := 0;
    while m < n && Live(later, laterClock, TokenKeyOf(cfg, s.tries[m]))
      invariant m <= n && forall k | 0 <= k < m :: Live(later, laterClock, TokenKeyOf(cfg, s.tries[k]))
    {
      m := m + 1;
    }
    assert FirstFree(cfg, later, laterClock, s.tries, m);
  }

  // Concrete submissions.

  const EXAMPLE_TOKEN: Bytes := [1, DOT, 2, DOT, 3]

  function ExampleClaims(): Claims {
    Claims(seq(50, _ => 48), 1, 1, 1, 1000, 1, [])
  }

  /** The digit that a solution for the example token must begin with. */
  function ExampleNibble(): (n: nat)
    ensures n < 16
  {
    Nibble(Advance(Fnv(FNV_OFFSET, EXAMPLE_TOKEN + Decimal(1) + [LETTER_D]), 1), 0)
  }

  /** A server whose digest begins with that digit, and that signs the example claims. */
  function ExampleConfig(tokenTtl: int): Config {
    Config([1], tokenTtl, _ => [7], _ => seq(32, k => if k == 0 then 16 * ExampleNibble() else 0),
           x => x, x => if x == [3] then Some([7]) else Some(x), _ => [2], _ => Some(ExampleClaims()))
  }

  /** A submission read at one moment, drawing tokens of one id. */
  function ExampleSubmission(at: int, id: Byte): Submission {
    Submission(EXAMPLE_TOKEN, Some([0]), [], at, at, at, [Try([id], []), Try([id], []), Try([id], [])])
  }

  lemma ExamplePasses(tokenTtl: int, at: int, id: Byte)
    requires at < 1000
    ensures Verify(ExampleConfig(tokenTtl), EXAMPLE_TOKEN, at) == Some((ExampleClaims(), [7]))
    ensures Screen(ExampleConfig(tokenTtl), ExampleSubmission(at, id)).None?
  {
    var cfg := ExampleConfig(tokenTtl);
    hide Fnv, Decimal, Nibble, Advance;
    ExampleSplits();
    var digest := cfg.sha([]);
    var target := Seeded(EXAMPLE_TOKEN + Decimal(1) + [LETTER_D], 1);
    PrngDigit(Fnv(FNV_OFFSET, EXAMPLE_TOKEN + Decimal(1) + [LETTER_D]), 1, 0);
    HexAt(digest, 0);
    assert target[0] == HexDigit(ExampleNibble()) == Hex(digest)[0];
    assert target <= Hex(digest);
    assert Solves(cfg.sha, EXAMPLE_TOKEN, 1, 1, 0, 0);
    assert AllSolve(cfg.sha, EXAMPLE_TOKEN, 1, 1, [0]);
  }

  lemma ExampleSplits()
    ensures Split(EXAMPLE_TOKEN, DOT) == [[1], [2], [3]]
  {
    var parts: seq<Bytes> := [[1], [2], [3]];
    SplitJoin(parts, DOT);
    assert parts[1..][1..] == [parts[2]];
    assert Join(parts[1..], DOT) == parts[1] + [DOT] + Join(parts[1..][1..], DOT);
    assert Join(parts, DOT) == parts[0] + [DOT] + Join(parts[1..], DOT);
    assert Join(parts, DOT) == EXAMPLE_TOKEN;
  }

  /** The challenge of a valid submission is spent with nothing issued, under a token lifetime of zero. */
  lemma BurningExample()
    ensures var (keys, r) := Redeem(ExampleConfig(0), map[], 10, ExampleSubmission(10, 1));
      r == Error && keys != map[] && Live(keys, 10, NonceKey([7]))
  {
    hide Screen, Verify;
    ExamplePasses(0, 10, 1);
    assert FirstFree(ExampleConfig(0), map[], 10, ExampleSubmission(10, 1).tries, 0);
    ZeroLifetimeBurnsChallenge(ExampleConfig(0), map[], 10, ExampleSubmission(10, 1));
  }

  /**
    One challenge, two tokens: both submissions read the clock before the challenge expires at 1000, but the
    second one's script runs at 1000, when the first one's nonce has just gone.
   */
  lemma LateScriptExample()
    ensures var cfg := ExampleConfig(5000);
      var evs := [RedeemChallenge(ExampleSubmission(10, 1)), Tick(990), RedeemChallenge(ExampleSubmission(999, 2))];
      && Succeeds(cfg, Run(cfg, Start(10), evs[..0]), evs[0])
      && Succeeds(cfg, Run(cfg, Start(10), evs[..2]), evs[2])
  {
    var cfg := ExampleConfig(5000);
    var first, second := ExampleSubmission(10, 1), ExampleSubmission(999, 2);
    var evs := [RedeemChallenge(first), Tick(990), RedeemChallenge(second)];
    ExamplePasses(5000, 10, 1);
    ExamplePasses(5000, 999, 2);
    assert cfg.tokenTtl == 5000;
    hide ExampleConfig;
    FirstRedeemed(cfg, first);
    SecondRedeemed(cfg, first, second);
    hide Succeeds, Step;
    assert evs[..0] == [] && evs[..2] == [evs[0], evs[1]];
    TwoSteps(cfg, first);
  }

  /** The state at 1000 after a redemption at 10. */
  ghost function LateState(cfg: Config, first: Submission): State {
    Run(cfg, Start(10), [RedeemChallenge(first), Tick(990)])
  }

  lemma TwoSteps(cfg: Config, first: Submission)
    ensures Run(cfg, Start(10), []) == Start(10)
    ensures LateState(cfg, first) == Step(cfg, Step(cfg, Start(10), RedeemChallenge(first)).0, Tick(990)).0
  {
    hide Step;
    var evs := [RedeemChallenge(first), Tick(990)];
    assert evs[1..] == [Tick(990)] && [Tick(990)][1..] == [];
    var after := Step(cfg, Start(10), evs[0]).0;
    assert Run(cfg, after, [Tick(990)]) == Run(cfg, Step(cfg, after, Tick(990)).0, []);
  }

  ghost predicate ExamplePassed(cfg: Config, s: Submission) {
    && cfg.tokenTtl == 5000 && Screen(cfg, s).None? && s.tries != []
    && Verify(cfg, s.token, s.verifyAt) == Some((ExampleClaims(), [7]))
  }

  lemma FirstRedeemed(cfg: Config, first: Submission)
    requires ExamplePassed(cfg, first) && first.ttlAt == 10
    ensures Succeeds(cfg, Start(10), RedeemChallenge(first))
    ensures LateState(cfg, first).clock == 1000
    ensures LateState(cfg, first).keys == map[NonceKey([7]) := Entry([49], 1000)][TokenKeyOf(cfg, first.tries[0]) := Entry([], 5010)]
  {
    hide Screen, Verify;
    TwoSteps(cfg, first);
    assert FirstFree(cfg, map[], 10, first.tries, 0);
    RedeemedExactlyWhen(cfg, map[], 10, first);
    FirstStored(cfg, 10, first.answerAt, first.tries);
  }

  lemma SecondRedeemed(cfg: Config, first: Submission, second: Submission)
    requires ExamplePassed(cfg, first) && first.ttlAt == 10 && ExamplePassed(cfg, second)
    requires TokenKeyOf(cfg, first.tries[0]) != TokenKeyOf(cfg, second.tries[0])
    ensures Succeeds(cfg, LateState(cfg, first), RedeemChallenge(second))
  {
    FirstRedeemed(cfg, first);
    hide Screen, Verify, LateState;
    var late := LateState(cfg, first);
    assert FirstFree(cfg, late.keys, late.clock, second.tries, 0);
    RedeemedExactlyWhen(cfg, late.keys, late.clock, second);
  }

  lemma FirstStored(cfg: Config, clock: int, answerAt: int, tries: seq<Try>)
    requires cfg.tokenTtl > 0 && tries != []
    ensures IssueAny(cfg, map[], clock, ExampleClaims(), [7], 990, answerAt, tries).0
      == map[NonceKey([7]) := Entry([49], clock + 990)][TokenKeyOf(cfg, tries[0]) := Entry([], clock + cfg.tokenTtl)]
  {
  }
}
