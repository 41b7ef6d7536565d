/** Secret ids and the cached resolver over them (integration_secrets.py).

    The secret store is a function of the id and the instant; instants are real
    numbers. A call carries the resolver's clock reading and the later instant at
    which a fetch, if one is needed, is answered. */
module Secrets {
  import opened Common
  import Text

  type Creds = map<string, string>

  // ---------- ids ----------

  /** The component check: `$` also matches before a newline at the very end. */
  predicate IsSafe(s: string)
  {
    Text.IsSlug(s) || (Text.EndsInNewline(s) && Text.IsSlug(s[..|s| - 1]))
  }

  function Join(parts: seq<string>): string
  {
    if parts == [] then "" else if |parts| == 1 then parts[0] else parts[0] + "/" + Join(parts[1..])
  }

  function Parts(project: string, env: string, tenant: string, integration: string, user: Option<string>): seq<string>
  {
    [project, env, "integrations", tenant, integration] + if user.Some? then [user.value] else []
  }

  /** The id, or None where a component is unsafe. */
  function BuildSecretId(
    project: string, env: string, tenant: string, integration: string, user: Option<string>): Option<string>
  {
    if IsSafe(project) && IsSafe(env) && IsSafe(tenant) && IsSafe(integration) && (user.Some? ==> IsSafe(user.value))
    then Some(Join(Parts(project, env, tenant, integration, user)))
    else None
  }

  /** What a component may be: a slug, or a slug with a newline after it. */
  lemma SafeExactly(s: string)
    ensures IsSafe(s) <==> Text.IsSlug(s) || exists v :: Text.IsSlug(v) && s == v + "\n"
  {
    if Text.EndsInNewline(s) {
      assert s == s[..|s| - 1] + "\n";
    }
    if v :| Text.IsSlug(v) && s == v + "\n" {
      assert s[..|s| - 1] == v;
    }
  }

  /** A slash between components, and nothing else. */
  lemma JoinPuts(part: string, rest: seq<string>)
    ensures Join([part]) == part
    ensures rest != [] ==> Join([part] + rest) == part + "/" + Join(rest)
  {
    assert ([part] + rest)[1..] == rest;
  }

  /** An id there is exactly if every component is safe, and it is the components in this order. */
  lemma SecretIdIs(project: string, env: string, tenant: string, integration: string, user: Option<string>)
    ensures var id := BuildSecretId(project, env, tenant, integration, user);
      && (id.Some? <==> IsSafe(project) && IsSafe(env) && IsSafe(tenant) && IsSafe(integration)
                        && (user.None? || IsSafe(user.value)))
      && (id.Some? && user.None? ==> id.value == Join([project, env, "integrations", tenant, integration]))
      && (id.Some? && user.Some? ==>
            id.value == Join([project, env, "integrations", tenant, integration, user.value]))
  {
    assert user.None? ==> Parts(project, env, tenant, integration, user)
                          == [project, env, "integrations", tenant, integration];
    assert user.Some? ==> Parts(project, env, tenant, integration, user)
                          == [project, env, "integrations", tenant, integration, user.value];
  }

  ghost predicate NoSlash(s: string) { forall i :: 0 <= i < |s| ==> s[i] != '/' }

  lemma SlugHasNoSlash(s: string)
    requires Text.IsSlug(s)
    ensures NoSlash(s)
  {
    forall i | 0 <= i < |s| ensures s[i] != '/' {
      assert s[i] in s;
    }
  }

  lemma SafeHasNoSlash(s: string)
    requires IsSafe(s)
    ensures NoSlash(s)
  {
    if Text.IsSlug(s) {
      SlugHasNoSlash(s);
    } else {
      SlugHasNoSlash(s[..|s| - 1]);
      forall i | 0 <= i < |s| ensures s[i] != '/' {
        assert i < |s| - 1 ==> s[i] == s[..|s| - 1][i];
      }
    }
  }

  /** The text up to the first slash, and what follows, determine each other. */
  lemma FirstPart(a: string, x: string, b: string, y: string)
    requires NoSlash(a) && NoSlash(b)
    requires x == "" || x[0] == '/'
    requires y == "" || y[0] == '/'
    requires a + x == b + y
    ensures a == b && x == y
  {
    var s := a + x;
    assert x != "" ==> s[|a|] == '/';
    assert y != "" ==> s[|b|] == '/';
    assert forall i :: 0 <= i < |a| ==> s[i] == a[i];
    assert forall i :: 0 <= i < |b| ==> s[i] == b[i];
    assert |a| == |b|;
    assert a == s[..|a|] && b == s[..|b|] && x == s[|a|..] && y == s[|b|..];
  }

  lemma {:induction false} JoinInjective(ps: seq<string>, qs: seq<string>)
    requires ps != [] && qs != [] && (forall p <- ps :: NoSlash(p)) && (forall q <- qs :: NoSlash(q))
    requires Join(ps) == Join(qs)
    ensures ps == qs
  {
    var x := if |ps| == 1 then "" else "/" + Join(ps[1..]);
    var y := if |qs| == 1 then "" else "/" + Join(qs[1..]);
    assert Join(ps) == ps[0] + x && Join(qs) == qs[0] + y;
    FirstPart(ps[0], x, qs[0], y);
    if |ps| > 1 {
      assert x[1..] == Join(ps[1..]) && y[1..] == Join(qs[1..]);
      JoinInjective(ps[1..], qs[1..]);
    }
    assert ps == [ps[0]] + ps[1..] && qs == [qs[0]] + qs[1..];
  }

  /** Different owners of a credential have different ids, with and without a user. */
  lemma SecretIdInjective(
    project: string, env: string, tenant: string, integration: string, user: Option<string>,
    project': string, env': string, tenant': string, integration': string, user': Option<string>)
    requires BuildSecretId(project, env, tenant, integration, user).Some?
    requires BuildSecretId(project, env, tenant, integration, user)
          == BuildSecretId(project', env', tenant', integration', user')
    ensures project == project' && env == env' && tenant == tenant' && integration == integration' && user == user'
  {
    var ps, qs := Parts(project, env, tenant, integration, user), Parts(project', env', tenant', integration', user');
    PartsHaveNoSlash(project, env, tenant, integration, user);
    PartsHaveNoSlash(project', env', tenant', integration', user');
    JoinInjective(ps, qs);
    assert ps[0] == qs[0] && ps[1] == qs[1] && ps[3] == qs[3] && ps[4] == qs[4];
    assert user.Some? <==> |ps| == 6;
    assert user'.Some? <==> |qs| == 6;
    assert user.Some? ==> ps[5] == qs[5];
  }

  lemma PartsHaveNoSlash(project: string, env: string, tenant: string, integration: string, user: Option<string>)
    requires BuildSecretId(project, env, tenant, integration, user).Some?
    ensures forall p <- Parts(project, env, tenant, integration, user) :: NoSlash(p)
  {
    SafeHasNoSlash(project);
    SafeHasNoSlash(env);
    SafeHasNoSlash(tenant);
    SafeHasNoSlash(integration);
    if user.Some? {
      SafeHasNoSlash(user.value);
    }
    assert NoSlash("integrations");
  }

  // ---------- which characters ids have ----------

  predicate IsIdChar(c: char) { Text.IsSlugChar(c) || c == '/' }

  predicate Clean(s: string) { forall c <- s :: IsIdChar(c) }

  lemma CleanConcat(a: string, b: string)
    ensures Clean(a + b) <==> Clean(a) && Clean(b)
  {
    assert Clean(a + b) ==> Clean(a) && Clean(b) by {
      assert forall c <- a :: c in a + b;
      assert forall c <- b :: c in a + b;
    }
  }

  lemma {:induction false} CleanJoin(parts: seq<string>)
    ensures Clean(Join(parts)) <==> forall i :: 0 <= i < |parts| ==> Clean(parts[i])
  {
    if |parts| > 1 {
      CleanJoin(parts[1..]);
      CleanConcat(parts[0] + "/", Join(parts[1..]));
      CleanConcat(parts[0], "/");
      assert forall i :: 1 <= i < |parts| ==> parts[i] == parts[1..][i - 1];
      assert forall i :: 0 <= i < |parts[1..]| ==> parts[1..][i] == parts[i + 1];
    }
  }

  lemma SafeIsClean(s: string)
    requires IsSafe(s)
    ensures Clean(s) <==> !Text.EndsInNewline(s)
  {
    assert s[|s| - 1] in s;
  }

  /** A component that ends in a newline passes the check, so the id has it too; otherwise an id
      has only the listed characters and slashes. */
  lemma IdCharsExactly(project: string, env: string, tenant: string, integration: string, user: Option<string>)
    requires BuildSecretId(project, env, tenant, integration, user).Some?
    ensures Clean(BuildSecretId(project, env, tenant, integration, user).value) <==>
      forall p <- Parts(project, env, tenant, integration, user) :: !Text.EndsInNewline(p)
  {
    var parts := Parts(project, env, tenant, integration, user);
    assert Text.IsSlug("integrations");
    forall i | 0 <= i < |parts| ensures Clean(parts[i]) <==> !Text.EndsInNewline(parts[i]) {
      SafeIsClean(parts[i]);
    }
    CleanJoin(parts);
  }

  /** Every slug with a newline after it is taken as a tenant, and kept in the id. */
  lemma NewlineTenantHasId(project: string, env: string, tenant: string, integration: string)
    requires Text.IsSlug(project) && Text.IsSlug(env) && Text.IsSlug(tenant) && Text.IsSlug(integration)
    ensures var id := BuildSecretId(project, env, tenant + "\n", integration, None);
      id.Some? && !Clean(id.value)
  {
    var t := tenant + "\n";
    assert t[..|t| - 1] == tenant;
    IdCharsExactly(project, env, t, integration, None);
    var parts := Parts(project, env, t, integration, None);
    assert parts[3] == t && t in parts && Text.EndsInNewline(t);
  }

  // ---------- the resolver ----------

  /** What the secret store answers: a parsed credential, nothing, or an exception. */
  datatype Answer = Known(creds: Option<Creds>) | FetchRaises

  datatype Vault = Vault(project: string, env: string, ttl: int, current: (string, real) -> Answer)
  {
    function Current(id: string, t: real): Answer { current(id, t) }
    function Id(tenant: string, integration: string): Option<string>
    {
      BuildSecretId(project, env, tenant, integration, None)
    }
    function Ttl(): real { ttl as real }
  }

  datatype Cached = Cached(expiry: real, value: Option<Creds>)

  datatype Resolution = Resolved(value: Option<Creds>) | Unsafe | Raises

  /** The answer, and the cache it leaves. */
  function Resolve(v: Vault, cache: map<string, Cached>, tenant: string, integration: string, at: real, fetched: real)
    : (Resolution, map<string, Cached>)
  {
    match v.Id(tenant, integration)
    case None => (Unsafe, cache)
    case Some(id) =>
      if id in cache && cache[id].expiry > at then (Resolved(cache[id].value), cache)
      else
        match v.Current(id, fetched)
        case FetchRaises => (Raises, cache)
        case Known(value) => (Resolved(value), cache[id := Cached(at + v.Ttl(), value)])
  }

  class SecretResolver {
    const vault: Vault
    var cache: map<string, Cached>

    constructor (v: Vault)
      ensures vault == v && cache == map[]
    {
      vault, cache := v, map[];
    }

    method Ask(tenant: string, integration: string, at: real, fetched: real) returns (r: Resolution)
      modifies this
      ensures (r, cache) == Resolve(vault, old(cache), tenant, integration, at, fetched)
    {
      var id := vault.Id(tenant, integration);
      if id.None? {
        return Unsafe;
      }
      if id.value in cache {
        var cached := cache[id.value];
        if cached.expiry > at {
          return Resolved(cached.value);
        }
      }
      var answer := vault.Current(id.value, fetched);
      if answer.FetchRaises? {
        return Raises;
      }
      cache := cache[id.value := Cached(at + vault.Ttl(), answer.creds)];
      return Resolved(answer.creds);
    }
  }

  // ---------- staleness ----------

  /** `creds` was the stored credential at instant `f`. */
  predicate WasCurrent(v: Vault, id: string, f: real, creds: Option<Creds>)
  {
    v.Current(id, f) == Known(creds)
  }

  /** Every entry was current at an instant no earlier than its expiry less the lifetime of
      an entry, and no later than `t`. */
  ghost predicate CacheOk(v: Vault, cache: map<string, Cached>, t: real)
  {
    forall id <- cache :: EntryOk(v, id, cache[id], t)
  }

  ghost predicate EntryOk(v: Vault, id: string, c: Cached, t: real)
  {
    exists f: real :: c.expiry - v.Ttl() <= f <= t && WasCurrent(v, id, f, c.value)
  }

  lemma ResolveKeeps(
    v: Vault, cache: map<string, Cached>, tenant: string, integration: string, at: real, fetched: real, t: real)
    requires CacheOk(v, cache, t) && t <= at <= fetched
    ensures CacheOk(v, Resolve(v, cache, tenant, integration, at, fetched).1, fetched)
  {
    var after := Resolve(v, cache, tenant, integration, at, fetched).1;
    forall id | id in after ensures EntryOk(v, id, after[id], fetched) {
      if id in cache && after[id] == cache[id] {
        assert EntryOk(v, id, cache[id], t);
      } else {
        assert WasCurrent(v, id, fetched, after[id].value);
      }
    }
  }

  /** An answer was stored under this very tenant and integration, less than a cache lifetime
      before the resolver looked at the clock, or since. */
  lemma AnswerIsRecent(
    v: Vault, cache: map<string, Cached>, tenant: string, integration: string, at: real, fetched: real, t: real)
    returns (f: real)
    requires CacheOk(v, cache, t) && t <= at <= fetched
    requires Resolve(v, cache, tenant, integration, at, fetched).0.Resolved?
    ensures v.Id(tenant, integration).Some? && f <= fetched
    ensures f > at - v.Ttl() || f >= at
    ensures WasCurrent(v, v.Id(tenant, integration).value, f,
      Resolve(v, cache, tenant, integration, at, fetched).0.value)
  {
    var id := v.Id(tenant, integration).value;
    if id in cache && cache[id].expiry > at {
      assert EntryOk(v, id, cache[id], t);
      f :| cache[id].expiry - v.Ttl() <= f <= t && WasCurrent(v, id, f, cache[id].value);
    } else {
      f := fetched;
    }
  }

  lemma CacheKept(v: Vault, cache: map<string, Cached>, t: real, t': real)
    requires CacheOk(v, cache, t) && t <= t'
    ensures CacheOk(v, cache, t')
  {
    forall id | id in cache ensures EntryOk(v, id, cache[id], t') {
      assert EntryOk(v, id, cache[id], t);
      var f: real :| cache[id].expiry - v.Ttl() <= f <= t && WasCurrent(v, id, f, cache[id].value);
      assert f <= t';
    }
  }

  /** From `deleted` on the store holds no credential under the id. */
  ghost predicate GoneSince(v: Vault, id: string, deleted: real)
  {
    forall f: real :: f >= deleted ==> v.Current(id, f) == Known(None) || v.Current(id, f).FetchRaises?
  }

  /** A deleted secret stays deleted for the resolver once a cache lifetime has passed. */
  lemma DeletionTakesEffect(
    v: Vault, cache: map<string, Cached>, tenant: string, integration: string, at: real, fetched: real, t: real,
    deleted: real)
    requires CacheOk(v, cache, t) && t <= at <= fetched && v.Id(tenant, integration).Some?
    requires GoneSince(v, v.Id(tenant, integration).value, deleted)
    requires at >= deleted && at >= deleted + v.Ttl()
    ensures var r := Resolve(v, cache, tenant, integration, at, fetched).0;
      r == Resolved(None) || (r.Raises? && v.Current(v.Id(tenant, integration).value, fetched).FetchRaises?)
  {
    if Resolve(v, cache, tenant, integration, at, fetched).0.Resolved? {
      var f := AnswerIsRecent(v, cache, tenant, integration, at, fetched, t);
      assert v.Current(v.Id(tenant, integration).value, f) != FetchRaises;
    }
  }

  // ---------- what is cached ----------

  /** An answer that was fetched, be it a credential or nothing, is given again until a lifetime
      after the clock reading of the query that fetched it, whatever the store says then. */
  lemma AnswerIsKept(
    v: Vault, cache: map<string, Cached>, tenant: string, integration: string, at: real, fetched: real, value: Option<Creds>,
    at': real, fetched': real)
    requires v.Id(tenant, integration).Some? && v.Id(tenant, integration).value !in cache
    requires v.Current(v.Id(tenant, integration).value, fetched) == Known(value) && at' < at + v.Ttl()
    ensures var (r, after) := Resolve(v, cache, tenant, integration, at, fetched);
      r == Resolved(value) && Resolve(v, after, tenant, integration, at', fetched') == (Resolved(value), after)
  {
  }

  /** From then on the store is asked again. */
  lemma AnswerIsFetchedAgain(
    v: Vault, cache: map<string, Cached>, tenant: string, integration: string, at: real, fetched: real, value: Option<Creds>)
    requires v.Id(tenant, integration).Some? && v.Current(v.Id(tenant, integration).value, fetched) == Known(value)
    requires v.Id(tenant, integration).value in cache ==> cache[v.Id(tenant, integration).value].expiry <= at
    ensures Resolve(v, cache, tenant, integration, at, fetched).0 == Resolved(value)
  {
  }

  /** A query that fails caches nothing, and fails only for an unsafe name or the store's exception. */
  lemma FailuresCacheNothing(
    v: Vault, cache: map<string, Cached>, tenant: string, integration: string, at: real, fetched: real)
    requires !Resolve(v, cache, tenant, integration, at, fetched).0.Resolved?
    ensures Resolve(v, cache, tenant, integration, at, fetched).1 == cache
    ensures !(IsSafe(v.project) && IsSafe(v.env) && IsSafe(tenant) && IsSafe(integration)) ||
            v.Current(v.Id(tenant, integration).value, fetched) == FetchRaises
  {
  }

  // ---------- whole runs ----------

  datatype Query = Query(tenant: string, integration: string, at: real, fetched: real)

  /** The cache after these queries, starting empty. */
  function CacheAfter(v: Vault, qs: seq<Query>): map<string, Cached>
  {
    if qs == [] then map[]
    else
      var q := qs[|qs| - 1];
      Resolve(v, CacheAfter(v, qs[..|qs| - 1]), q.tenant, q.integration, q.at, q.fetched).1
  }

  /** How a query is answered that comes after all the others. */
  function AnswerTo(v: Vault, qs: seq<Query>, q: Query): Resolution
  {
    Resolve(v, CacheAfter(v, qs), q.tenant, q.integration, q.at, q.fetched).0
  }

  /** Queries one after another on a clock that never steps back, ending by `t`. */
  ghost predicate Successive(qs: seq<Query>, t: real)
  {
    && (forall k :: 0 <= k < |qs| ==> qs[k].at <= qs[k].fetched <= t)
    && (forall j, k :: 0 <= j < k < |qs| ==> qs[j].fetched <= qs[k].at)
  }

  lemma {:induction false} RunKeepsCache(v: Vault, qs: seq<Query>, t: real)
    requires Successive(qs, t)
    ensures CacheOk(v, CacheAfter(v, qs), t)
  {
    if qs != [] {
      var q, earlier := qs[|qs| - 1], qs[..|qs| - 1];
      RunKeepsCache(v, earlier, q.at);
      ResolveKeeps(v, CacheAfter(v, earlier), q.tenant, q.integration, q.at, q.fetched, q.at);
      CacheKept(v, CacheAfter(v, qs), q.fetched, t);
    }
  }

  /** In every run, an answer was stored under the very tenant and integration asked for, less
      than a cache lifetime before the resolver looked at the clock, or since. */
  lemma AnswersAreRecent(v: Vault, qs: seq<Query>, q: Query) returns (f: real)
    requires Successive(qs, q.at) && q.at <= q.fetched && AnswerTo(v, qs, q).Resolved?
    ensures v.Id(q.tenant, q.integration).Some? && f <= q.fetched && (f > q.at - v.Ttl() || f >= q.at)
    ensures WasCurrent(v, v.Id(q.tenant, q.integration).value, f, AnswerTo(v, qs, q).value)
  {
    RunKeepsCache(v, qs, q.at);
    f := AnswerIsRecent(v, CacheAfter(v, qs), q.tenant, q.integration, q.at, q.fetched, q.at);
  }

  /** In every run, a secret deleted for a cache lifetime resolves to nothing. */
  lemma DeletedStaysDeleted(v: Vault, qs: seq<Query>, q: Query, deleted: real)
    requires Successive(qs, q.at) && q.at <= q.fetched && v.Id(q.tenant, q.integration).Some?
    requires GoneSince(v, v.Id(q.tenant, q.integration).value, deleted)
    requires q.at >= deleted && q.at >= deleted + v.Ttl()
    ensures AnswerTo(v, qs, q) == Resolved(None) ||
      (AnswerTo(v, qs, q).Raises? && v.Current(v.Id(q.tenant, q.integration).value, q.fetched).FetchRaises?)
  {
    RunKeepsCache(v, qs, q.at);
    DeletionTakesEffect(v, CacheAfter(v, qs), q.tenant, q.integration, q.at, q.fetched, q.at, deleted);
  }
}
