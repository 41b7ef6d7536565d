/** Model install requests and their in-memory store (model_requests.py).

    The source keeps an insertion-ordered dict from id to request; here it is a
    sequence in that order with at most one request per id. */
module ModelRequests {
  import opened Common
  import opened RateLimits
  import Text

  datatype Status = Requested | Installing | Applied | Failed

  datatype Request = Request(
    id: nat, tenant: Tenant, user: string, repo: string, revision: string, status: Status, error: string, created: int)
  {
    predicate IsOpen() { status == Requested || status == Installing }
  }

  /** The limit with which the installer's endpoint asks. */
  const PENDING_LIMIT := 50

  // ---------- repo ids and the allow-list ----------

  predicate IsRepoName(s: string)
  {
    exists i :: 0 <= i < |s| && s[i] == '/' && Text.IsSlug(s[..i]) && Text.IsSlug(s[i + 1..])
  }

  /** `match` against a pattern that ends in `$`, which also accepts a final newline. */
  predicate MatchesRepo(s: string)
  {
    IsRepoName(s) || (Text.EndsInNewline(s) && IsRepoName(s[..|s| - 1]))
  }

  function Org(repo: string): string
  {
    if repo == [] || repo[0] == '/' then [] else [repo[0]] + Org(repo[1..])
  }

  /** Deny by default: the list names everything, the repo, or its organisation. */
  predicate IsRepoAllowed(allowlist: set<string>, repo: string)
  {
    "*" in allowlist || repo in allowlist || Org(repo) in allowlist
  }

  lemma {:induction false} OrgIs(o: string, rest: string)
    requires '/' !in o && (rest == "" || rest[0] == '/')
    ensures Org(o + rest) == o
  {
    if o == "" {
      assert o + rest == rest;
    } else {
      assert o[0] in o && (o + rest)[0] == o[0] && (o + rest)[1..] == o[1..] + rest;
      OrgIs(o[1..], rest);
    }
  }

  lemma {:induction false} OrgStands(r: string) returns (rest: string)
    ensures '/' !in Org(r) && r == Org(r) + rest && (rest == "" || rest[0] == '/')
  {
    if r == "" || r[0] == '/' {
      rest := r;
    } else {
      rest := OrgStands(r[1..]);
      assert r == [r[0]] + r[1..];
    }
  }

  /** What an allow-list admits: everything under "*", the repos it names, and every repo of the
      organisations it names. */
  lemma AllowedExactly(allowlist: set<string>, r: string)
    ensures IsRepoAllowed(allowlist, r) <==>
      "*" in allowlist || r in allowlist || exists o :: o in allowlist && '/' !in o && o + "/" <= r
  {
    var rest := OrgStands(r);
    if rest == "" {
      assert r == Org(r);
    } else {
      assert Org(r) + "/" <= r by { assert r[..|Org(r)| + 1] == Org(r) + "/"; }
    }
    if o :| o in allowlist && '/' !in o && o + "/" <= r {
      assert r == o + r[|o|..] && r[|o|] == '/';
      OrgIs(o, r[|o|..]);
    }
  }

  // ---------- the store as a value ----------

  type Items = seq<Request>

  /** The position of an id, or the length if it is not a key. */
  function IndexOf(items: Items, id: nat): (i: nat)
    ensures i <= |items|
    ensures i < |items| ==> items[i].id == id
    ensures forall j :: 0 <= j < i ==> items[j].id != id
  {
    if items == [] || items[0].id == id then 0 else 1 + IndexOf(items[1..], id)
  }

  /** Assigning to a key keeps its place; a new key goes last. */
  function Added(items: Items, r: Request): Items
  {
    var i := IndexOf(items, r.id);
    if i < |items| then items[i := r] else items + [r]
  }

  function SetStatus(items: Items, id: nat, status: Status, error: string): Items
  {
    var i := IndexOf(items, id);
    if i < |items| then items[i := items[i].(status := status, error := error)] else items
  }

  function CountOpen(items: Items, tenant: Tenant): nat
  {
    Count(items, (r: Request) => r.tenant == tenant && r.IsOpen())
  }

  function Waiting(items: Items): Items { Filter(items, (r: Request) => r.status == Requested) }

  function Age(r: Request): real { r.created as real }

  /** The oldest requests still waiting, oldest first; equal times keep insertion order. */
  function PendingUpTo(items: Items, limit: int): Items
  {
    Prefix(StableSort(Waiting(items), Age), limit)
  }

  function Pending(items: Items): Items { PendingUpTo(items, PENDING_LIMIT) }

  // ---------- the store as an object; each method is one section under the lock ----------

  class ModelRequestStore {
    var items: Items

    constructor ()
      ensures items == []
    {
      items := [];
    }

    method Create(item: Request)
      modifies this
      ensures items == Added(old(items), item)
    {
      var i := 0;
      while i < |items| && items[i].id != item.id
        invariant 0 <= i <= |items|
        invariant forall j :: 0 <= j < i ==> items[j].id != item.id
      {
        i := i + 1;
      }
      items := if i < |items| then items[i := item] else items + [item];
    }

    method UpdateStatus(id: nat, status: Status, error: string) returns (updated: Option<Request>)
      modifies this
      ensures items == SetStatus(old(items), id, status, error)
      ensures updated.None? <==> IndexOf(old(items), id) == |items|
      ensures updated.Some? ==> updated.value == items[IndexOf(old(items), id)]
    {
      var i := 0;
      while i < |items| && items[i].id != id
        invariant 0 <= i <= |items|
        invariant forall j :: 0 <= j < i ==> items[j].id != id
      {
        i := i + 1;
      }
      if i == |items| {
        return None;
      }
      items := items[i := items[i].(status := status, error := error)];
      return Some(items[i]);
    }

    method CountOpenForTenant(tenant: Tenant) returns (n: nat)
      ensures n == CountOpen(items, tenant)
    {
      n := 0;
      var p := (r: Request) => r.tenant == tenant && r.IsOpen();
      for i := 0 to |items|
        invariant n == Count(items[..i], p)
      {
        CountConcat(items[..i], [items[i]], p);
        assert items[..i + 1] == items[..i] + [items[i]];
        assert [items[i]][1..] == [];
        if items[i].tenant == tenant && items[i].IsOpen() {
          n := n + 1;
        }
      }
      assert items[..|items|] == items;
    }

    method ListPending(limit: int) returns (pending: Items)
      ensures pending == PendingUpTo(items, limit)
    {
      var waiting := [];
      var p := (r: Request) => r.status == Requested;
      for i := 0 to |items|
        invariant waiting == Filter(items[..i], p)
      {
        FilterConcat(items[..i], [items[i]], p);
        assert items[..i + 1] == items[..i] + [items[i]];
        assert [items[i]][1..] == [];
        if items[i].status == Requested {
          waiting := waiting + [items[i]];
        }
      }
      assert items[..|items|] == items;
      pending := Prefix(StableSort(waiting, Age), limit);
    }
  }

  // ---------- what the functions above mean ----------

  /** The places of the tenant's open requests. */
  function OpenAt(items: Items, tenant: Tenant): set<nat>
  {
    set i: nat | i < |items| && items[i].tenant == tenant
                 && (items[i].status == Requested || items[i].status == Installing)
  }

  lemma CountOpenExactly(items: Items, tenant: Tenant)
    ensures CountOpen(items, tenant) == |OpenAt(items, tenant)|
  {
    var p := (r: Request) => r.tenant == tenant && r.IsOpen();
    CountIsPlaces(items, p);
    assert Places(items, p) == OpenAt(items, tenant);
  }

  /** A status is set on the request with the id, and nothing else changes. */
  lemma SetStatusExactly(items: Items, id: nat, status: Status, error: string, i: nat)
    requires i < |items| && forall j, k :: 0 <= j < k < |items| ==> items[j].id != items[k].id
    ensures |SetStatus(items, id, status, error)| == |items|
    ensures var r, r' := items[i], SetStatus(items, id, status, error)[i];
      if r.id == id then
        r' == Request(r.id, r.tenant, r.user, r.repo, r.revision, status, error, r.created)
      else r' == r
  {
  }

  ghost predicate OldestFirst(listed: Items)
  {
    forall i, j :: 0 <= i < j < |listed| ==> listed[i].created <= listed[j].created
  }

  /** `all` is made of `listed` and `rest`, and nothing in `rest` is older than anything listed. */
  ghost predicate OldestOf(listed: Items, rest: Items, all: Items)
  {
    && multiset(listed) + multiset(rest) == multiset(all)
    && forall i, j :: 0 <= i < |listed| && 0 <= j < |rest| ==> listed[i].created <= rest[j].created
  }

  lemma PrefixIsOldest(sorted: Items, n: nat, all: Items)
    requires Sorted(sorted, Age) && n <= |sorted| && multiset(sorted) == multiset(all)
    ensures OldestOf(sorted[..n], sorted[n..], all) && OldestFirst(sorted[..n])
  {
    assert sorted == sorted[..n] + sorted[n..];
    forall i, j | 0 <= i < j < |sorted| ensures sorted[i].created <= sorted[j].created {
      assert Age(sorted[i]) <= Age(sorted[j]);
    }
  }

  /** The list is the oldest of those that wait, as many as the limit lets in, oldest first. */
  lemma ListedAreOldest(items: Items, limit: nat)
    ensures |PendingUpTo(items, limit)| == Min(limit, |Waiting(items)|)
    ensures OldestFirst(PendingUpTo(items, limit))
    ensures exists rest :: OldestOf(PendingUpTo(items, limit), rest, Waiting(items))
  {
    var w := Waiting(items);
    var sorted := StableSort(w, Age);
    StableSortSorts(w, Age);
    assert |sorted| == |multiset(sorted)| == |multiset(w)| == |w|;
    var n := Min(limit, |w|);
    PrefixIsOldest(sorted, n, w);
    assert PendingUpTo(items, limit) == sorted[..n];
  }

  /** Those that wait are the requested ones. */
  lemma WaitingExactly(items: Items, r: Request)
    ensures r in Waiting(items) <==> r in items && r.status == Requested
  {
    InFilter(items, (r: Request) => r.status == Requested, r);
  }

  // ---------- requests numbered in the order of creation ----------

  /** Fresh ids, renamed so that the n-th created request has id n. */
  ghost predicate Numbered(items: Items)
  {
    forall i :: 0 <= i < |items| ==> items[i].id == i
  }
}
