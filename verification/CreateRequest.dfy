/** The handler that records an install request (model_requests.py 325-409), and its place
    in the protocol: run without interruption, it is a run of the step system. */
module CreateRequests {
  import opened Common
  import opened RateLimits
  import opened ModelRequests
  import opened RequestBodies
  import opened InstallProtocol
  import opened InstallRuns
  import Text

  datatype Response =
    | Disabled | PermissionDenied | RateLimited | BadRequest | RepoNotAllowed | TooManyOpen | Accepted(request: Request)

  /** The checks and the insertion, with a slot held. */
  function Decide(control: Control, items: Items, intake: Intake, id: nat, created: int): (Response, Items)
  {
    if !GoodBody(intake.body) then (BadRequest, items)
    else if !IsRepoAllowed(control.allowlist, Repo(intake.body)) then (RepoNotAllowed, items)
    else if CountOpen(items, intake.tenant) >= control.cap then (TooManyOpen, items)
    else
      var r := NewRequest(id, intake, created);
      (Accepted(r), Added(items, r))
  }

  /** Behind a limiter a successful acquire is followed by one release. */
  function Limited(control: Control, l: Limiter, items: Items, intake: Intake, now: int, id: nat, created: int)
    : (Response, Limiter, Items)
  {
    var (l', ok) := Acquire(l, intake.tenant, now);
    if !ok then (RateLimited, l', items)
    else
      var (response, items') := Decide(control, items, intake, id, created);
      (response, Freed(l'), items')
  }

  /** The kill switch and the permission come before anything else. */
  function Handled(control: Control, l: Limiter, items: Items, intake: Intake, now: int, id: nat, created: int)
    : (Response, Limiter, Items)
  {
    if !control.enabled then (Disabled, l, items)
    else if !intake.granted then (PermissionDenied, l, items)
    else Limited(control, l, items, intake, now, id, created)
  }

  method CreateModelRequest(
    control: Control, limiter: RateLimiter?, store: ModelRequestStore, intake: Intake, now: int, id: nat, created: int)
    returns (response: Response)
    requires limiter != null ==> limiter.Valid()
    modifies limiter, store
    ensures limiter != null ==> limiter.Valid()
    ensures limiter != null ==>
      (response, limiter.State(), store.items)
        == Handled(control, old(limiter.State()), old(store.items), intake, now, id, created)
    ensures limiter == null && control.enabled && intake.granted ==>
      (response, store.items) == Decide(control, old(store.items), intake, id, created)
    ensures limiter == null && !(control.enabled && intake.granted) ==>
      response == (if control.enabled then PermissionDenied else Disabled) && store.items == old(store.items)
  {
    if !control.enabled {
      return Disabled;
    } else if !intake.granted {
      return PermissionDenied;
    }
    var acquired := false;
    if limiter != null {
      var ok := limiter.TryAcquire(intake.tenant, now);
      if !ok {
        return RateLimited;
      }
      acquired := true;
    }
    response := CheckAndCreate(control, store, intake, id, created);
    if acquired && limiter != null {
      limiter.Release();
    }
  }

  /** The `try` block; its `finally` is the release above. */
  method CheckAndCreate(control: Control, store: ModelRequestStore, intake: Intake, id: nat, created: int)
    returns (response: Response)
    modifies store
    ensures (response, store.items) == Decide(control, old(store.items), intake, id, created)
  {
    var body := intake.body;
    if !body.Fields? {
      return BadRequest;
    }
    if !body.repo.Chars? || |body.repo.s| > MAX_REPO_CHARS || !MatchesRepo(Text.Strip(body.repo.s)) {
      return BadRequest;
    }
    var repo := Text.Strip(body.repo.s);
    if !GoodRevision(body.revision) {
      return BadRequest;
    }
    if !IsRepoAllowed(control.allowlist, repo) {
      return RepoNotAllowed;
    }
    var open := store.CountOpenForTenant(intake.tenant);
    if open >= control.cap {
      return TooManyOpen;
    }
    var item := Request(id, intake.tenant, intake.user, repo, Revision(body), Requested, "", created);
    store.Create(item);
    return Accepted(item);
  }

  // ---------- the handler as a run of the protocol ----------

  /** The steps of one handler, whatever its body. */
  function HandlerSteps(h: nat, intake: Intake, now: int, created: int): seq<Step>
  {
    [Arrive(intake, now), TakeSlot(h), Check(h), Stamp(h, created), Insert(h), Quit(h)]
  }

  lemma LastUpdated(hs: seq<Handler>, x: Handler, y: Handler)
    ensures (hs + [x])[|hs|] == x && (hs + [x])[|hs| := y] == hs + [y]
  {
  }

  lemma ThreeSteps(cfg: Config, s: State, a: Step, b: Step, c: Step)
    ensures Exec(cfg, s, [a, b, c]) == Next(cfg, Next(cfg, Next(cfg, s, a), b), c)
  {
    var s1 := Next(cfg, s, a);
    assert [a, b, c][1..] == [b, c] && [b, c][1..] == [c];
    ExecOne(cfg, Next(cfg, s1, b), c);
    assert Exec(cfg, s1, [b, c]) == Exec(cfg, Next(cfg, s1, b), [c]);
  }

  /** Arrival and slot: the switch, the permission, the limiter; then the checks. */
  lemma FirstHalf(cfg: Config, s: State, intake: Intake, now: int)
    ensures var h := |s.handlers|;
      var goes := cfg.control.enabled && intake.granted;
      var (l, ok) := Acquire(s.limiter, intake.tenant, now);
      var good := Passes(cfg.control, intake.body) && CountOpen(s.store, intake.tenant) < cfg.control.cap;
      Next(cfg, Next(cfg, Next(cfg, s, Arrive(intake, now)), TakeSlot(h)), Check(h))
      == s.(limiter := if goes then l else s.limiter,
            handlers := s.handlers +
              [if !goes || !ok then Gone else if good then Cleared(intake) else Leaving(intake)])
  {
    var hs := s.handlers;
    LastUpdated(hs, Admitted(intake), Gone);
    LastUpdated(hs, Admitted(intake), Holding(intake));
    LastUpdated(hs, Holding(intake), Leaving(intake));
    LastUpdated(hs, Holding(intake), Cleared(intake));
  }

  /** From the checks to the end, for a handler with this standing. */
  lemma SecondHalf(cfg: Config, s: State, hs: seq<Handler>, x: Handler, intake: Intake, created: int)
    requires s.handlers == hs + [x] && (x == Gone || x == Cleared(intake) || x == Leaving(intake))
    ensures var h := |hs|;
      var r := NewRequest(|s.store|, intake, created);
      Next(cfg, Next(cfg, Next(cfg, s, Stamp(h, created)), Insert(h)), Quit(h))
      == s.(handlers := hs + [Gone],
            limiter := if x == Gone then s.limiter else Freed(s.limiter),
            store := if x.Cleared? then Added(s.store, r) else s.store,
            log := s.log + if x.Cleared? then [Recorded(|s.store|, Requested)] else [])
  {
    LastUpdated(hs, x, Stamped(intake, created));
    LastUpdated(hs, Stamped(intake, created), Leaving(intake));
    LastUpdated(hs, Leaving(intake), Gone);
    assert s.log + [] == s.log;
  }

  /** Taken alone, a handler does to the limiter and the store exactly what its steps in the
      protocol do, and nothing to the rest. */
  lemma HandlerIsRun(cfg: Config, s: State, intake: Intake, now: int, created: int)
    ensures var t := Exec(cfg, s, HandlerSteps(|s.handlers|, intake, now, created));
      var (response, l, items) := Handled(cfg.control, s.limiter, s.store, intake, now, |s.store|, created);
      t == s.(limiter := l, store := items, handlers := s.handlers + [Gone],
              log := s.log + if response.Accepted? then [Recorded(|s.store|, Requested)] else [])
  {
    var h, all := |s.handlers|, HandlerSteps(|s.handlers|, intake, now, created);
    assert all == all[..3] + all[3..] && all[..3] == [Arrive(intake, now), TakeSlot(h), Check(h)];
    ExecConcat(cfg, s, all[..3], all[3..]);
    ThreeSteps(cfg, s, Arrive(intake, now), TakeSlot(h), Check(h));
    FirstHalf(cfg, s, intake, now);
    var u := Exec(cfg, s, all[..3]);
    assert u.handlers == s.handlers + [u.handlers[h]];
    ThreeSteps(cfg, u, Stamp(h, created), Insert(h), Quit(h));
    SecondHalf(cfg, u, s.handlers, u.handlers[h], intake, created);
  }

  /** An intake that the control plane takes in, the cap permitting. */
  predicate Welcome(control: Control, q: Intake) { control.enabled && q.granted && Passes(control, q.body) }

  /** Alone from the start, a welcome handler that gets a slot records the first request, and it
      heads the queue. */
  lemma FirstRequest(cfg: Config, limiter: Limiter, served: string, q: Intake, now: int, created: int)
    requires Welcome(cfg.control, q) && cfg.control.cap >= 1 && Acquire(limiter, q.tenant, now).1
    ensures var s := Exec(cfg, Start(limiter, served), HandlerSteps(0, q, now, created));
      && s.store == [NewRequest(0, q, created)] && Pending(s.store) == s.store
      && s.log == [Recorded(0, Requested)] && s.rec.Idle? && s.served == served
  {
    var r := NewRequest(0, q, created);
    HandlerIsRun(cfg, Start(limiter, served), q, now, created);
    assert [r][1..] == [] && Waiting([r]) == [r];
    StableSortOfSorted([r], Age);
  }

  // ---------- what the handler lets through ----------

  /** A recorded request is the caller's own, names a repo that is exactly `org/name` and that the
      list admits, and was under the cap when counted. */
  lemma AcceptedIsClean(control: Control, items: Items, intake: Intake, id: nat, created: int)
    requires Decide(control, items, intake, id, created).0.Accepted?
    ensures var r := Decide(control, items, intake, id, created).0.request;
      && IsRepoName(r.repo) && |r.repo| <= 200 && r.status == Requested && r.id == id
      && r.tenant == intake.tenant && r.user == intake.user && |OpenAt(items, intake.tenant)| < control.cap
      && ("*" in control.allowlist || r.repo in control.allowlist ||
          exists o :: o in control.allowlist && '/' !in o && o + "/" <= r.repo)
  {
    GoodRepoIsClean(intake.body);
    AllowedExactly(control.allowlist, Repo(intake.body));
    CountOpenExactly(items, intake.tenant);
  }

  /** Each answer of the handler, from the request, the configuration and the stored requests. */
  lemma AnswersExactly(
    control: Control, l: Limiter, items: Items, intake: Intake, now: int, id: nat, created: int)
    requires forall i :: 0 <= i < |items| ==> items[i].id != id
    ensures var (response, _, items') := Handled(control, l, items, intake, now, id, created);
      var repo, list := Repo(intake.body), control.allowlist;
      var made := Request(id, intake.tenant, intake.user, repo, Revision(intake.body), Requested, "", created);
      var asked := control.enabled && intake.granted;
      var entered := asked && Acquire(l, intake.tenant, now).1;
      var good := entered && GoodBody(intake.body);
      var admitted := good &&
        ("*" in list || repo in list || exists o :: o in list && '/' !in o && o + "/" <= repo);
      && (response == Disabled <==> !control.enabled)
      && (response == PermissionDenied <==> control.enabled && !intake.granted)
      && (response == RateLimited <==> asked && !entered)
      && (response == BadRequest <==> entered && !good)
      && (response == RepoNotAllowed <==> good && !admitted)
      && (response == TooManyOpen <==> admitted && |OpenAt(items, intake.tenant)| >= control.cap)
      && (response.Accepted? <==> admitted && |OpenAt(items, intake.tenant)| < control.cap)
      && (response.Accepted? ==> response.request == made)
      && items' == if response.Accepted? then items + [made] else items
  {
    AllowedExactly(control.allowlist, Repo(intake.body));
    CountOpenExactly(items, intake.tenant);
  }

  /** A permit that the handler takes it gives back, whatever it answers. */
  lemma PermitsComeBack(
    control: Control, l: Limiter, items: Items, intake: Intake, now: int, id: nat, created: int)
    requires WellFormed(l)
    ensures Handled(control, l, items, intake, now, id, created).1.permits == l.permits
  {
  }

  /** The recorded revision is none or a plain reference exactly if it does not end in a newline. */
  lemma AcceptedRevisionExactly(control: Control, items: Items, intake: Intake, id: nat, created: int)
    requires Decide(control, items, intake, id, created).0.Accepted?
    ensures var r := Decide(control, items, intake, id, created).0.request;
      (r.revision == "" || IsRevision(r.revision)) <==> !Text.EndsInNewline(r.revision)
  {
    RevisionExactly(intake.body);
  }

  /** A good revision with a newline after it is recorded as it is. */
  lemma NewlineRevisionRecorded(
    control: Control, tenant: Tenant, user: string, repo: string, revision: string, id: nat, created: int)
    requires IsRepoName(repo) && |repo| <= MAX_REPO_CHARS && IsRepoAllowed(control.allowlist, repo) && control.cap >= 1
    requires IsRevision(revision) && |revision| < MAX_REVISION_CHARS && !HasDots(revision)
    ensures var intake := Intake(tenant, user, true, Fields(Chars(repo), Chars(revision + "\n")));
      var response := Decide(control, [], intake, id, created).0;
      response.Accepted? && response.request.revision == revision + "\n"
  {
    NewlineRevisionPasses(repo, revision);
  }
}
