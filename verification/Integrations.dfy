/** The integration executor with its cache of minted tokens (integrations.py), on top of the
    resolver's cache of secrets. Each call looks at the clock twice, the resolver first. */
module Integrations {
  import opened Common
  import opened Secrets

  /** Seconds before its expiry at which a token is no longer used. */
  const TOKEN_MARGIN := 60.0

  datatype Spec = Spec(requiresSecret: bool, tokenKey: Option<string>)

  /** The refresh request: a token and its lifetime (an empty token is a failure), a refusal
      by the guard or the transport, or an exception from the builder, the token parser or the
      transport (`_send` turns only a timeout or an OS error into a refusal). */
  datatype Minted = Reply(token: string, lifetime: int) | Refused(why: string) | MintRaises

  datatype Outside = Outside(
    spec: string -> Option<Spec>, vault: Option<Vault>, mint: (string, Creds, real) -> Minted,
    perform: (string, string, Option<Creds>) -> Option<string>)
  {
    function Spec(integration: string): Option<Spec> { spec(integration) }
    function Mint(integration: string, creds: Creds, t: real): Minted { mint(integration, creds, t) }
    /** Building and sending the main request: a result class, or None for an exception that
        `_send` lets through. */
    function Perform(integration: string, operation: string, creds: Option<Creds>): Option<string>
    {
      perform(integration, operation, creds)
    }
  }

  datatype Pair = Pair(tenant: string, integration: string)

  datatype Token = Token(text: string, expiry: real)

  datatype Caches = Caches(secrets: map<string, Cached>, tokens: map<Pair, Token>)

  /** `at`: the resolver's clock reading; `fetched`: when a fetch would be answered; `now`: the
      executor's clock reading. */
  datatype Call = Call(pair: Pair, operation: string, at: real, fetched: real, now: real)

  datatype Outcome =
    | UnknownIntegration
    | NoCredentials
    | RefreshFailed
    | RefreshAborted(why: string)
    | Raised
    | Performed(result: Option<string>, creds: Option<Creds>)

  /** Credentials to go on with, or how the call ends without them. */
  datatype Ensured = ToSend(creds: Creds) | Ends(outcome: Outcome)

  /** `_ensure_access_token` for an integration that declares a token: the credentials with a
      token put in, or the outcome that ends the call. */
  function EnsureToken(m: Outside, tokens: map<Pair, Token>, pair: Pair, key: string, creds: Creds, now: real)
    : (Ensured, map<Pair, Token>)
  {
    if pair in tokens && tokens[pair].expiry > now then (ToSend(creds[key := tokens[pair].text]), tokens)
    else
      match m.Mint(pair.integration, creds, now)
      case MintRaises => (Ends(Raised), tokens)
      case Refused(why) => (Ends(RefreshAborted(why)), tokens)
      case Reply(token, lifetime) =>
        if token == "" then (Ends(RefreshFailed), tokens)
        else
          var expiry := now + Upper(0.0, lifetime as real - TOKEN_MARGIN);
          (ToSend(creds[key := token]), tokens[pair := Token(token, expiry)])
  }

  function Perform(m: Outside, c: Call, creds: Option<Creds>): Outcome
  {
    Performed(m.Perform(c.pair.integration, c.operation, creds), creds)
  }

  /** `invoke`: the outcome and the caches it leaves. An empty credential counts as none. */
  function Invoke(m: Outside, s: Caches, c: Call): (Outcome, Caches)
  {
    var spec := m.Spec(c.pair.integration);
    if spec.None? then (UnknownIntegration, s)
    else if !spec.value.requiresSecret then (Perform(m, c, None), s)
    else if m.vault.None? then (NoCredentials, s)
    else
      var (r, secrets) := Resolve(m.vault.value, s.secrets, c.pair.tenant, c.pair.integration, c.at, c.fetched);
      if !r.Resolved? then (Raised, s.(secrets := secrets))
      else if r.value.None? || r.value.value == map[] then (NoCredentials, s.(secrets := secrets))
      else if spec.value.tokenKey.None? then (Perform(m, c, r.value), s.(secrets := secrets))
      else
        var (ensured, tokens) := EnsureToken(m, s.tokens, c.pair, spec.value.tokenKey.value, r.value.value, c.now);
        (if ensured.Ends? then ensured.outcome else Perform(m, c, Some(ensured.creds)), Caches(secrets, tokens))
  }

  // ---------- the executor ----------

  class IntegrationExecutor {
    const outside: Outside
    const resolver: SecretResolver?
    var tokenCache: map<Pair, Token>

    ghost predicate Valid()
      reads this
    {
      (resolver != null <==> outside.vault.Some?) && (resolver != null ==> resolver.vault == outside.vault.value)
    }

    ghost function State(): Caches
      reads this, resolver
    {
      Caches(if resolver == null then map[] else resolver.cache, tokenCache)
    }

    constructor (m: Outside, r: SecretResolver?)
      requires (r != null <==> m.vault.Some?) && (r != null ==> r.vault == m.vault.value)
      ensures Valid() && outside == m && resolver == r && tokenCache == map[]
    {
      outside, resolver, tokenCache := m, r, map[];
    }

    method EnsureAccessToken(pair: Pair, key: string, creds: Creds, now: real)
      returns (ensured: Ensured)
      modifies this`tokenCache
      ensures (ensured, tokenCache) == EnsureToken(outside, old(tokenCache), pair, key, creds, now)
    {
      if pair in tokenCache {
        var cached := tokenCache[pair];
        if cached.expiry > now {
          return ToSend(creds[key := cached.text]);
        }
      }
      match outside.Mint(pair.integration, creds, now)
      case MintRaises => return Ends(Raised);
      case Refused(why) => return Ends(RefreshAborted(why));
      case Reply(token, lifetime) =>
        if token == "" {
          return Ends(RefreshFailed);
        }
        tokenCache := tokenCache[pair := Token(token, now + Upper(0.0, lifetime as real - TOKEN_MARGIN))];
        return ToSend(creds[key := token]);
    }

    method InvokeIntegration(c: Call) returns (outcome: Outcome)
      requires Valid()
      modifies this`tokenCache, resolver
      ensures Valid() && (outcome, State()) == Invoke(outside, old(State()), c)
    {
      var spec := outside.Spec(c.pair.integration);
      if spec.None? {
        return UnknownIntegration;
      }
      var creds: Option<Creds> := None;
      if spec.value.requiresSecret {
        if resolver == null {
          return NoCredentials;
        }
        var r := resolver.Ask(c.pair.tenant, c.pair.integration, c.at, c.fetched);
        if !r.Resolved? {
          return Raised;
        }
        if r.value.None? || r.value.value == map[] {
          return NoCredentials;
        }
        creds := r.value;
        if spec.value.tokenKey.Some? {
          var ensured := EnsureAccessToken(c.pair, spec.value.tokenKey.value, r.value.value, c.now);
          if ensured.Ends? {
            return ensured.outcome;
          }
          creds := Some(ensured.creds);
        }
      }
      return Performed(outside.Perform(c.pair.integration, c.operation, creds), creds);
    }
  }

  // ---------- where a token comes from ----------

  /** How a token came about: the credentials it was minted from, when those were current, and
      the readings of the call that minted it. */
  datatype Origin = Origin(base: Creds, current: real, at: real, now: real, lifetime: int)

  /** `o` explains a token of the pair: minted at `o.now`, from that same pair's secret as it was
      at `o.current`, less than a cache lifetime before the minting call began, or since. */
  ghost predicate Explains(m: Outside, pair: Pair, text: string, o: Origin)
  {
    && m.vault.Some? && m.vault.value.Id(pair.tenant, pair.integration).Some?
    && m.Mint(pair.integration, o.base, o.now) == Reply(text, o.lifetime) && text != ""
    && WasCurrent(m.vault.value, m.vault.value.Id(pair.tenant, pair.integration).value, o.current, Some(o.base))
    && (o.current > o.at - m.vault.value.Ttl() || o.current >= o.at) && o.at <= o.now && o.current <= o.now
  }

  ghost predicate TokenOk(m: Outside, pair: Pair, token: Token, t: real)
  {
    exists o: Origin :: Explains(m, pair, token.text, o) && o.now <= t && token.expiry == Expiry(o)
  }

  function Expiry(o: Origin): real { o.now + Upper(0.0, o.lifetime as real - TOKEN_MARGIN) }

  ghost predicate Inv(m: Outside, s: Caches, t: real)
  {
    && (m.vault.Some? ==> CacheOk(m.vault.value, s.secrets, t))
    && forall p <- s.tokens :: TokenOk(m, p, s.tokens[p], t)
  }

  predicate Timely(c: Call, t: real) { t <= c.at <= c.fetched <= c.now }

  lemma TokenKept(m: Outside, pair: Pair, token: Token, t: real, t': real)
    requires TokenOk(m, pair, token, t) && t <= t'
    ensures TokenOk(m, pair, token, t')
  {
    var o: Origin :| Explains(m, pair, token.text, o) && o.now <= t && token.expiry == Expiry(o);
    assert Explains(m, pair, token.text, o) && o.now <= t' && token.expiry == Expiry(o);
  }

  /** The origin of a token that this very call mints. */
  lemma MintedNow(m: Outside, s: Caches, c: Call, t: real, base: Creds) returns (o: Origin)
    requires m.vault.Some? && CacheOk(m.vault.value, s.secrets, t) && Timely(c, t)
    requires Resolve(m.vault.value, s.secrets, c.pair.tenant, c.pair.integration, c.at, c.fetched).0
          == Resolved(Some(base))
    requires m.Mint(c.pair.integration, base, c.now).Reply? && m.Mint(c.pair.integration, base, c.now).token != ""
    ensures Explains(m, c.pair, m.Mint(c.pair.integration, base, c.now).token, o)
    ensures o.now == c.now && o.at == c.at && o.base == base
    ensures o.lifetime == m.Mint(c.pair.integration, base, c.now).lifetime
  {
    var f := AnswerIsRecent(m.vault.value, s.secrets, c.pair.tenant, c.pair.integration, c.at, c.fetched, t);
    o := Origin(base, f, c.at, c.now, m.Mint(c.pair.integration, base, c.now).lifetime);
  }

  lemma SecretsKept(m: Outside, s: Caches, c: Call, t: real)
    requires Inv(m, s, t) && Timely(c, t) && m.vault.Some?
    ensures CacheOk(m.vault.value, Invoke(m, s, c).1.secrets, c.now)
  {
    var v := m.vault.value;
    var next := Resolve(v, s.secrets, c.pair.tenant, c.pair.integration, c.at, c.fetched).1;
    ResolveKeeps(v, s.secrets, c.pair.tenant, c.pair.integration, c.at, c.fetched, t);
    CacheKept(v, s.secrets, t, c.now);
    CacheKept(v, next, c.fetched, c.now);
  }

  /** A token that was not there before was minted by this call, from what the resolver said. */
  lemma NewToken(m: Outside, s: Caches, c: Call, p: Pair) returns (base: Creds)
    requires p in Invoke(m, s, c).1.tokens && !(p in s.tokens && Invoke(m, s, c).1.tokens[p] == s.tokens[p])
    ensures p == c.pair && m.vault.Some?
    ensures Resolve(m.vault.value, s.secrets, p.tenant, p.integration, c.at, c.fetched).0 == Resolved(Some(base))
    ensures var minted := m.Mint(p.integration, base, c.now);
      && minted.Reply? && minted.token != ""
      && Invoke(m, s, c).1.tokens[p]
         == Token(minted.token, c.now + Upper(0.0, minted.lifetime as real - TOKEN_MARGIN))
  {
    base := Resolve(m.vault.value, s.secrets, c.pair.tenant, c.pair.integration, c.at, c.fetched).0.value.value;
  }

  lemma TokensKept(m: Outside, s: Caches, c: Call, t: real, p: Pair)
    requires Inv(m, s, t) && Timely(c, t) && p in Invoke(m, s, c).1.tokens
    ensures TokenOk(m, p, Invoke(m, s, c).1.tokens[p], c.now)
  {
    var token := Invoke(m, s, c).1.tokens[p];
    if p in s.tokens && token == s.tokens[p] {
      TokenKept(m, p, s.tokens[p], t, c.now);
    } else {
      var base := NewToken(m, s, c, p);
      var o := MintedNow(m, s, c, t, base);
      assert Explains(m, p, token.text, o) && o.now <= c.now && token.expiry == Expiry(o);
    }
  }

  lemma InvokeKeeps(m: Outside, s: Caches, c: Call, t: real)
    requires Inv(m, s, t) && Timely(c, t)
    ensures Inv(m, Invoke(m, s, c).1, c.now)
  {
    var after := Invoke(m, s, c).1;
    if m.vault.Some? {
      SecretsKept(m, s, c, t);
    }
    forall p | p in after.tokens ensures TokenOk(m, p, after.tokens[p], c.now) {
      TokensKept(m, s, c, t, p);
    }
  }

  // ---------- whole runs ----------

  function Before(c: seq<Call>, k: nat): real
    requires k <= |c|
  {
    if k == 0 then 0.0 else c[k - 1].now
  }

  /** Calls one after another on a clock that never steps back. */
  ghost predicate InTime(calls: seq<Call>)
  {
    forall k :: 0 <= k < |calls| ==> Timely(calls[k], Before(calls, k))
  }

  /** The caches after all the calls, starting empty. */
  function After(m: Outside, calls: seq<Call>): Caches
  {
    if calls == [] then Caches(map[], map[]) else Invoke(m, After(m, calls[..|calls| - 1]), calls[|calls| - 1]).1
  }

  /** How a call ends that comes after all the others. */
  function OutcomeOf(m: Outside, calls: seq<Call>, c: Call): Outcome { Invoke(m, After(m, calls), c).0 }

  lemma {:induction false} RunKeeps(m: Outside, calls: seq<Call>)
    requires InTime(calls)
    ensures Inv(m, After(m, calls), Before(calls, |calls|))
  {
    if calls != [] {
      var n := |calls| - 1;
      var earlier := calls[..n];
      forall k | 0 <= k < n ensures Timely(earlier[k], Before(earlier, k)) {
        assert Timely(calls[k], Before(calls, k));
      }
      RunKeeps(m, earlier);
      assert Timely(calls[n], Before(calls, n));
      InvokeKeeps(m, After(m, earlier), calls[n], Before(earlier, n));
    }
  }

  /** `text` is a fresh enough token for the call: it comes from the same tenant's and
      integration's secret, it is minted in this call or has more than the margin of its lifetime
      left, and the secret behind it was current later than a cache lifetime, plus the token's
      lifetime less the margin, plus the time the minting call took, before this call. */
  ghost predicate FreshFrom(m: Outside, c: Call, text: string, o: Origin)
  {
    && Explains(m, c.pair, text, o) && o.at <= o.now <= c.now
    && (o.now == c.now || o.now + o.lifetime as real - c.now > TOKEN_MARGIN)
    && (m.vault.value.ttl > 0 ==>
          o.current > c.now - m.vault.value.Ttl() - Upper(0.0, o.lifetime as real - TOKEN_MARGIN) - (o.now - o.at))
  }

  ghost predicate CarriesFreshToken(m: Outside, c: Call, key: string, creds: Option<Creds>)
  {
    creds.Some? && key in creds.value && exists o: Origin :: FreshFrom(m, c, creds.value[key], o)
  }

  /** In any run, every request of an integration that declares a token carries a fresh one. */
  lemma InjectedTokenIsFresh(m: Outside, calls: seq<Call>, c: Call, key: string)
    requires InTime(calls) && Timely(c, Before(calls, |calls|))
    requires m.Spec(c.pair.integration) == Some(Spec(true, Some(key)))
    requires OutcomeOf(m, calls, c).Performed?
    ensures CarriesFreshToken(m, c, key, OutcomeOf(m, calls, c).creds)
  {
    RunKeeps(m, calls);
    StateGivesFreshToken(m, After(m, calls), c, key, Before(calls, |calls|));
  }

  lemma StateGivesFreshToken(m: Outside, s: Caches, c: Call, key: string, t: real)
    requires Inv(m, s, t) && Timely(c, t)
    requires m.Spec(c.pair.integration) == Some(Spec(true, Some(key)))
    requires Invoke(m, s, c).0.Performed?
    ensures CarriesFreshToken(m, c, key, Invoke(m, s, c).0.creds)
  {
    var o: Origin, creds := TokenOrigin(m, s, c, key, t);
    assert FreshFrom(m, c, creds[key], o);
  }

  lemma TokenOrigin(m: Outside, s: Caches, c: Call, key: string, t: real) returns (o: Origin, creds: Creds)
    requires Inv(m, s, t) && Timely(c, t)
    requires m.Spec(c.pair.integration) == Some(Spec(true, Some(key)))
    requires Invoke(m, s, c).0.Performed?
    ensures Invoke(m, s, c).0.creds == Some(creds) && key in creds && FreshFrom(m, c, creds[key], o)
  {
    var base := Resolve(m.vault.value, s.secrets, c.pair.tenant, c.pair.integration, c.at, c.fetched).0.value.value;
    creds := Invoke(m, s, c).0.creds.value;
    if c.pair in s.tokens && s.tokens[c.pair].expiry > c.now {
      var token := s.tokens[c.pair];
      assert TokenOk(m, c.pair, token, t);
      o :| Explains(m, c.pair, token.text, o) && o.now <= t && token.expiry == Expiry(o);
    } else {
      o := MintedNow(m, s, c, t, base);
    }
  }

  /** Nothing but a refusal, or the store's own exception. */
  ghost predicate NoUse(m: Outside, c: Call, outcome: Outcome)
    requires m.vault.Some? && m.vault.value.Id(c.pair.tenant, c.pair.integration).Some?
  {
    outcome == NoCredentials ||
    (outcome == Raised &&
     m.vault.value.Current(m.vault.value.Id(c.pair.tenant, c.pair.integration).value, c.fetched).FetchRaises?)
  }

  /** Once a secret has been deleted for a cache lifetime, every call for its pair ends without
      credentials, whatever token is still cached. */
  lemma DeletedMeansNoCredentials(m: Outside, calls: seq<Call>, c: Call, deleted: real, key: Option<string>)
    requires InTime(calls) && Timely(c, Before(calls, |calls|))
    requires m.Spec(c.pair.integration) == Some(Spec(true, key))
    requires m.vault.Some? && m.vault.value.Id(c.pair.tenant, c.pair.integration).Some?
    requires GoneSince(m.vault.value, m.vault.value.Id(c.pair.tenant, c.pair.integration).value, deleted)
    requires c.at >= deleted && c.at >= deleted + m.vault.value.Ttl()
    ensures NoUse(m, c, OutcomeOf(m, calls, c))
  {
    RunKeeps(m, calls);
    DeletionTakesEffect(m.vault.value, After(m, calls).secrets, c.pair.tenant, c.pair.integration, c.at, c.fetched,
      Before(calls, |calls|), deleted);
  }

  /** Before `deleted` the store answers with the credentials, and from then on with nothing. */
  ghost predicate DeletedAt(v: Vault, id: string, creds: Creds, deleted: real)
  {
    GoneSince(v, id, deleted) && forall f: real :: f < deleted ==> v.Current(id, f) == Known(Some(creds))
  }

  /** The credentials, with a token under the key if there is one. */
  predicate Carries(sent: Option<Creds>, creds: Creds, key: Option<string>)
  {
    sent.Some? &&
    (if key.None? then sent.value == creds
     else key.value in sent.value && sent.value == creds[key.value := sent.value[key.value]])
  }

  /** A call that asks, fetches and mints at one instant. */
  function Instant(pair: Pair, operation: string, t: real): Call { Call(pair, operation, t, t, t) }

  /** The first call of a run leaves what it fetched in the cache, whatever comes of its token. */
  lemma FirstCallCaches(m: Outside, pair: Pair, operation: string, creds: Creds, key: Option<string>, f: real)
    requires m.Spec(pair.integration) == Some(Spec(true, key)) && m.vault.Some?
    requires m.vault.value.Id(pair.tenant, pair.integration).Some?
    requires WasCurrent(m.vault.value, m.vault.value.Id(pair.tenant, pair.integration).value, f, Some(creds))
    ensures After(m, [Instant(pair, operation, f)]).secrets
      == map[m.vault.value.Id(pair.tenant, pair.integration).value := Cached(f + m.vault.value.Ttl(), Some(creds))]
  {
    var calls := [Instant(pair, operation, f)];
    assert calls[..0] == [];
    assert After(m, calls[..0]) == Caches(map[], map[]);
  }

  /** The bound on deletion cannot be improved: at any instant from the deletion until a cache
      lifetime after it, a call can still send the deleted credentials. */
  lemma DeletionBoundAttained(
    m: Outside, pair: Pair, operation: string, creds: Creds, key: Option<string>, deleted: real, at: real)
    requires m.Spec(pair.integration) == Some(Spec(true, key)) && m.vault.Some? && creds != map[]
    requires m.vault.value.Id(pair.tenant, pair.integration).Some?
    requires DeletedAt(m.vault.value, m.vault.value.Id(pair.tenant, pair.integration).value, creds, deleted)
    requires 0.0 < deleted <= at < deleted + m.vault.value.Ttl()
    requires key.Some? ==> m.Mint(pair.integration, creds, at).Reply? && m.Mint(pair.integration, creds, at).token != ""
    ensures exists calls :: var c := Instant(pair, operation, at);
      && InTime(calls + [c]) && OutcomeOf(m, calls, c).Performed?
      && Carries(OutcomeOf(m, calls, c).creds, creds, key)
  {
    var ttl := m.vault.value.Ttl();
    var f := Upper(0.0, (at - ttl + deleted) / 2.0);
    var calls, c := [Instant(pair, operation, f)], Instant(pair, operation, at);
    assert 0.0 <= f < deleted && at < f + ttl;
    FirstCallCaches(m, pair, operation, creds, key, f);
    forall k | 0 <= k < 2 ensures Timely((calls + [c])[k], Before(calls + [c], k)) {
      assert (calls + [c])[k] == if k == 0 then calls[0] else c;
    }
    assert InTime(calls + [c]);
    assert Carries(OutcomeOf(m, calls, c).creds, creds, key);
  }

  // ---------- tenants do not see one another ----------

  /** What a call does to another pair's entries: nothing. */
  lemma OtherPairsUntouched(m: Outside, s: Caches, c: Call, other: Pair)
    requires other != c.pair && m.vault.Some?
    requires m.vault.value.Id(other.tenant, other.integration).Some?
    ensures var after := Invoke(m, s, c).1;
      var id := m.vault.value.Id(other.tenant, other.integration).value;
      && (id in after.secrets <==> id in s.secrets) && (id in s.secrets ==> after.secrets[id] == s.secrets[id])
      && (other in after.tokens <==> other in s.tokens)
      && (other in s.tokens ==> after.tokens[other] == s.tokens[other])
  {
    var v := m.vault.value;
    if v.Id(c.pair.tenant, c.pair.integration) == v.Id(other.tenant, other.integration) {
      SecretIdInjective(v.project, v.env, c.pair.tenant, c.pair.integration, None,
        v.project, v.env, other.tenant, other.integration, None);
      assert false;
    }
  }

  // ---------- what a call sends ----------

  /** What is sent is what the outside makes of this integration, this operation and these
      credentials; there are none exactly if the integration needs none. */
  lemma PerformedCall(m: Outside, s: Caches, c: Call)
    requires Invoke(m, s, c).0.Performed?
    ensures var o := Invoke(m, s, c).0;
      && m.Spec(c.pair.integration).Some?
      && o.result == m.perform(c.pair.integration, c.operation, o.creds)
      && (o.creds.Some? <==> m.Spec(c.pair.integration).value.requiresSecret)
  {
  }

  /** In every run, the credentials sent are the pair's own secret as it was within a cache lifetime,
      with nothing changed but the token. */
  lemma CredentialsAreOwn(m: Outside, calls: seq<Call>, c: Call) returns (base: Creds, f: real)
    requires InTime(calls) && Timely(c, Before(calls, |calls|))
    requires OutcomeOf(m, calls, c).Performed? && m.Spec(c.pair.integration).value.requiresSecret
    ensures m.vault.Some? && m.vault.value.Id(c.pair.tenant, c.pair.integration).Some? && base != map[]
    ensures WasCurrent(m.vault.value, m.vault.value.Id(c.pair.tenant, c.pair.integration).value, f, Some(base))
    ensures f <= c.fetched && (f > c.at - m.vault.value.Ttl() || f >= c.at)
    ensures Carries(OutcomeOf(m, calls, c).creds, base, m.Spec(c.pair.integration).value.tokenKey)
  {
    var s, v := After(m, calls), m.vault.value;
    RunKeeps(m, calls);
    base := Resolve(v, s.secrets, c.pair.tenant, c.pair.integration, c.at, c.fetched).0.value.value;
    f := AnswerIsRecent(v, s.secrets, c.pair.tenant, c.pair.integration, c.at, c.fetched, Before(calls, |calls|));
  }

  /** Why a call ends without being sent. */
  lemma UnsentCall(m: Outside, s: Caches, c: Call)
    requires !Invoke(m, s, c).0.Performed?
    ensures Invoke(m, s, c).0 == UnknownIntegration <==> m.Spec(c.pair.integration).None?
    ensures m.Spec(c.pair.integration).Some? ==> m.Spec(c.pair.integration).value.requiresSecret
    ensures var o := Invoke(m, s, c).0;
      o.RefreshFailed? || o.RefreshAborted? ==>
        !(c.pair in s.tokens && s.tokens[c.pair].expiry > c.now) &&
        exists creds: Creds ::
          var minted := m.Mint(c.pair.integration, creds, c.now);
          if o.RefreshFailed? then minted.Reply? && minted.token == "" else minted == Refused(o.why)
    ensures Invoke(m, s, c).0 == NoCredentials ==>
      m.vault.None? ||
      (var r := Resolve(m.vault.value, s.secrets, c.pair.tenant, c.pair.integration, c.at, c.fetched).0;
       r == Resolved(None) || r == Resolved(Some(map[])))
  {
  }

  /** A token in the cache is used until its expiry, without minting another. */
  lemma TokenIsReused(m: Outside, s: Caches, c: Call, key: string)
    requires m.Spec(c.pair.integration) == Some(Spec(true, Some(key))) && Invoke(m, s, c).0.Performed?
    requires c.pair in s.tokens && s.tokens[c.pair].expiry > c.now
    ensures Invoke(m, s, c).1.tokens == s.tokens
    ensures key in Invoke(m, s, c).0.creds.value && Invoke(m, s, c).0.creds.value[key] == s.tokens[c.pair].text
  {
  }

  /** A minted token is sent, and cached until a minute before the end of its life. */
  lemma TokenIsMinted(m: Outside, s: Caches, c: Call, key: string) returns (base: Creds)
    requires m.Spec(c.pair.integration) == Some(Spec(true, Some(key))) && Invoke(m, s, c).0.Performed?
    requires !(c.pair in s.tokens && s.tokens[c.pair].expiry > c.now)
    ensures var minted := m.Mint(c.pair.integration, base, c.now);
      && minted.Reply? && minted.token != ""
      && Invoke(m, s, c).0.creds == Some(base[key := minted.token])
      && Invoke(m, s, c).1.tokens == s.tokens[c.pair := Token(minted.token,
           if minted.lifetime >= 60 then c.now + minted.lifetime as real - 60.0 else c.now)]
  {
    base := Resolve(m.vault.value, s.secrets, c.pair.tenant, c.pair.integration, c.at, c.fetched).0.value.value;
  }
}
