/** The model-install protocol: any number of concurrent create handlers, one
    reconciler, one store and one served model (model_requests.py, reconciler.py).

    Every section under a lock and every client call is one step. A run is any list
    of steps; a step that is not enabled changes nothing, so the lists are all the
    interleavings. A client call takes effect and returns, raises without effect, or
    takes effect and raises. */
module InstallProtocol {
  import opened Common
  import opened RateLimits
  import opened ModelRequests
  import opened RequestBodies

  /** The installer's own switch and allow-list, apart from the control plane's. */
  datatype Installer = Installer(enabled: bool, allowlist: set<string>)

  datatype Config = Config(control: Control, installer: Installer)

  /** What reaches a create handler: who asks, whether they may, and for what. */
  datatype Intake = Intake(tenant: Tenant, user: string, granted: bool, body: Body)

  /** Where a create handler stands: past the rate window, holding a slot, past its checks,
      with the creation time read, about to give the slot back. */
  datatype Handler =
    | Admitted(intake: Intake) | Holding(intake: Intake) | Cleared(intake: Intake)
    | Stamped(intake: Intake, created: int) | Leaving(intake: Intake) | Gone
  {
    predicate HasSlot() { Holding? || Cleared? || Stamped? || Leaving? }
    predicate IsCleared(t: Tenant) { (Cleared? || Stamped?) && intake.tenant == t }
  }

  datatype Call = Done | FailedBefore | FailedAfter
  {
    predicate TookEffect() { !FailedBefore? }
    predicate Raised() { !Done? }
  }

  /** The result of one client call; `answer` is what wait_ready reports. */
  datatype Reply = Reply(call: Call, answer: bool)

  /** Where `run_once` stands: the next client call it makes. */
  datatype Rec =
    | Idle
    | Deny(id: nat, why: string)
    | Mark(id: nat, repo: string)
    | Scale(id: nat, repo: string)
    | Get(id: nat, repo: string)
    | Set(id: nat, repo: string, previous: string)
    | Wait(id: nat, repo: string, previous: string)
    | Roll(id: nat, repo: string, previous: string, why: string)
    | Fail(id: nat, why: string)
    | Apply(id: nat)

  datatype Event =
    | Recorded(id: nat, status: Status)    // the store now holds this status
    | Took(id: nat)                        // run_once picked this request
    | ForwardSet(id: nat, at: Status)      // set_model for the request, recorded as `at`
    | Ready(repo: string)                  // wait_ready returned true

  datatype State = State(
    store: Items, handlers: seq<Handler>, limiter: Limiter, rec: Rec, served: string, log: seq<Event>)

  function Start(limiter: Limiter, served: string): State
  {
    State([], [], limiter, Idle, served, [])
  }

  // ---------- create handlers ----------

  datatype Step =
    | Arrive(intake: Intake, now: int)
    | TakeSlot(h: nat)
    | Check(h: nat)
    | Stamp(h: nat, created: int)
    | Insert(h: nat)
    | Break(h: nat)      // the store raised
    | Quit(h: nat)
    | Reconcile(reply: Reply)

  /** The request that a handler records: a fresh id, and what its intake says. */
  function NewRequest(id: nat, intake: Intake, created: int): Request
  {
    Request(id, intake.tenant, intake.user, Repo(intake.body), Revision(intake.body), Requested, "", created)
  }

  function HandlerNext(control: Control, s: State, h: nat, step: Step): State
    requires h < |s.handlers| && !step.Arrive? && !step.Reconcile?
  {
    match (step, s.handlers[h])
    case (TakeSlot(_), Admitted(q)) =>
      var (l, ok) := AcquireSlot(s.limiter);
      s.(limiter := l, handlers := s.handlers[h := if ok then Holding(q) else Gone])
    case (Check(_), Holding(q)) =>
      var refused := !Passes(control, q.body) || CountOpen(s.store, q.tenant) >= control.cap;
      s.(handlers := s.handlers[h := if refused then Leaving(q) else Cleared(q)])
    case (Stamp(_, created), Cleared(q)) => s.(handlers := s.handlers[h := Stamped(q, created)])
    case (Insert(_), Stamped(q, created)) =>
      var r := NewRequest(|s.store|, q, created);
      s.(store := Added(s.store, r), log := s.log + [Recorded(r.id, Requested)],
         handlers := s.handlers[h := Leaving(q)])
    case (Break(_), Holding(q)) => s.(handlers := s.handlers[h := Leaving(q)])
    case (Break(_), Stamped(q, _)) => s.(handlers := s.handlers[h := Leaving(q)])
    case (Quit(_), Leaving(q)) => s.(limiter := Freed(s.limiter), handlers := s.handlers[h := Gone])
    case _ => s
  }

  function Next(cfg: Config, s: State, step: Step): State
  {
    match step
    case Arrive(q, now) =>
      if !cfg.control.enabled || !q.granted then s.(handlers := s.handlers + [Gone])
      else
        var (l, admitted) := Admit(s.limiter, q.tenant, now);
        s.(limiter := l, handlers := s.handlers + [if admitted then Admitted(q) else Gone])
    case Reconcile(reply) => RecNext(cfg, s, reply)
    case _ => if step.h < |s.handlers| then HandlerNext(cfg.control, s, step.h, step) else s
  }

  // ---------- the reconciler ----------

  function StatusOf(items: Items, id: nat): Status
  {
    var i := IndexOf(items, id);
    if i < |items| then items[i].status else Failed
  }

  function Record(s: State, id: nat, status: Status, why: string, call: Call): State
  {
    if call.TookEffect() then
      s.(store := SetStatus(s.store, id, status, why), log := s.log + [Recorded(id, status)])
    else s
  }

  function RecNext(cfg: Config, s: State, reply: Reply): State
  {
    var raised := reply.call.Raised();
    match s.rec
    case Idle =>
      if !cfg.installer.enabled || raised || !cfg.control.enabled || Pending(s.store) == [] then s
      else
        var q := Pending(s.store)[0];
        s.(log := s.log + [Took(q.id)],
           rec := if !MatchesRepo(q.repo) then Deny(q.id, "repo_invalid")
                  else if !IsRepoAllowed(cfg.installer.allowlist, q.repo) then Deny(q.id, "repo_not_allowed")
                  else Mark(q.id, q.repo))
    case Deny(id, why) => Record(s, id, Failed, why, reply.call).(rec := Idle)
    case Mark(id, repo) =>
      Record(s, id, Installing, "", reply.call).(rec := if raised then Idle else Scale(id, repo))
    case Scale(id, repo) =>
      s.(rec := if raised then Fail(id, "gpu_provision_failed") else Get(id, repo))
    case Get(id, repo) => s.(rec := Set(id, repo, if raised then "" else s.served))
    case Set(id, repo, previous) =>
      s.(log := s.log + [ForwardSet(id, StatusOf(s.store, id))],
         served := if reply.call.TookEffect() then repo else s.served,
         rec := if raised then Fail(id, "vllm_apply_failed") else Wait(id, repo, previous))
    case Wait(id, repo, previous) =>
      if raised then s.(rec := Roll(id, repo, previous, "install_failed"))
      else if reply.answer then s.(log := s.log + [Ready(repo)], rec := Apply(id))
      else s.(rec := Roll(id, repo, previous, "load_timeout"))
    case Roll(id, repo, previous, why) =>
      s.(served := if previous != "" && previous != repo && reply.call.TookEffect() then previous else s.served,
         rec := Fail(id, why))
    case Fail(id, why) => Record(s, id, Failed, why, reply.call).(rec := Idle)
    case Apply(id) => Record(s, id, Applied, "", reply.call).(rec := Idle)
  }

  function Exec(cfg: Config, s: State, steps: seq<Step>): State
    decreases |steps|
  {
    if steps == [] then s else Exec(cfg, Next(cfg, s, steps[0]), steps[1..])
  }

  // ---------- reading the log ----------

  function History(log: seq<Event>, id: nat): seq<Status>
  {
    if log == [] then []
    else
      var e, h := log[|log| - 1], History(log[..|log| - 1], id);
      if e.Recorded? && e.id == id then h + [e.status] else h
  }

  function Forwards(log: seq<Event>, id: nat): nat
  {
    if log == [] then 0
    else
      var e, n := log[|log| - 1], Forwards(log[..|log| - 1], id);
      if e.ForwardSet? && e.id == id then n + 1 else n
  }

  function Taken(log: seq<Event>): seq<nat>
  {
    if log == [] then []
    else
      var e, t := log[|log| - 1], Taken(log[..|log| - 1]);
      if e.Took? then t + [e.id] else t
  }

  function LastReady(log: seq<Event>, initial: string): string
  {
    if log == [] then initial
    else
      var e := log[|log| - 1];
      if e.Ready? then e.repo else LastReady(log[..|log| - 1], initial)
  }

  lemma LogGrows(log: seq<Event>, e: Event, id: nat, initial: string)
    ensures History(log + [e], id) == History(log, id) + (if e.Recorded? && e.id == id then [e.status] else [])
    ensures Forwards(log + [e], id) == Forwards(log, id) + (if e.ForwardSet? && e.id == id then 1 else 0)
    ensures Taken(log + [e]) == Taken(log) + (if e.Took? then [e.id] else [])
    ensures LastReady(log + [e], initial) == if e.Ready? then e.repo else LastReady(log, initial)
  {
    assert (log + [e])[..|log|] == log;
  }

  // ---------- each step keeps the requests and their histories in order ----------

  ghost predicate Lifecycle(h: seq<Status>, status: Status)
  {
    match status
    case Requested => h == [Requested]
    case Installing => h == [Requested, Installing]
    case Applied => h == [Requested, Installing, Applied]
    case Failed => h == [Requested, Installing, Failed] || h == [Requested, Failed]
  }

  /** The request in progress is recorded as its place in `run_once` says. */
  ghost predicate RecOk(s: State)
  {
    s.rec.Idle? ||
    (s.rec.id < |s.store| &&
     s.store[s.rec.id].status == (if s.rec.Deny? || s.rec.Mark? then Requested else Installing) &&
     (s.rec.Mark? || s.rec.Scale? || s.rec.Get? || s.rec.Set? || s.rec.Wait? || s.rec.Roll? ==> s.rec.repo != ""))
  }

  ghost predicate RequestOk(s: State, id: nat)
  {
    if id >= |s.store| then History(s.log, id) == [] && Forwards(s.log, id) == 0
    else
      && Lifecycle(History(s.log, id), s.store[id].status)
      && Forwards(s.log, id) <= 1
      && (s.store[id].status == Requested ==> Forwards(s.log, id) == 0)
      && ((s.rec.Scale? || s.rec.Get? || s.rec.Set?) && s.rec.id == id ==> Forwards(s.log, id) == 0)
  }

  ghost predicate ForwardsInstalling(log: seq<Event>)
  {
    forall i :: 0 <= i < |log| && log[i].ForwardSet? ==> log[i].at == Installing
  }

  ghost predicate Shaped(s: State) { Numbered(s.store) && RecOk(s) && ForwardsInstalling(s.log) }

  ghost predicate Inv(s: State)
  {
    Shaped(s) && forall id: nat :: RequestOk(s, id)
  }

  lemma NumberedIndex(items: Items, id: nat)
    requires Numbered(items)
    ensures IndexOf(items, id) == if id < |items| then id else |items|
  {
    assert id < |items| ==> items[id].id == id;
  }

  lemma PendingHead(items: Items)
    requires Pending(items) != []
    ensures Pending(items)[0] in items && Pending(items)[0].status == Requested
  {
    var w := Waiting(items);
    StableSortSorts(w, Age);
    var q := StableSort(w, Age)[0];
    assert q in multiset(StableSort(w, Age));
    InFilter(items, (r: Request) => r.status == Requested, q);
  }

  lemma PickKeepsShape(cfg: Config, s: State, reply: Reply)
    requires Shaped(s) && s.rec.Idle?
    ensures Shaped(RecNext(cfg, s, reply))
  {
    if Pending(s.store) != [] {
      PendingHead(s.store);
    }
  }

  lemma RecordKeepsShape(s: State, i: nat, status: Status, why: string, call: Call, next: Rec)
    requires Numbered(s.store) && i < |s.store| && ForwardsInstalling(s.log)
    requires next == Idle || (next.Scale? && next.id == i && next.repo != "" && status == Installing && call.Done?)
    ensures Shaped(Record(s, i, status, why, call).(rec := next))
  {
    NumberedIndex(s.store, i);
  }

  predicate WritesStatus(rec: Rec) { rec.Deny? || rec.Mark? || rec.Fail? || rec.Apply? }

  lemma WriteKeepsShape(cfg: Config, s: State, reply: Reply)
    requires Shaped(s) && WritesStatus(s.rec)
    ensures Shaped(RecNext(cfg, s, reply))
  {
    match s.rec
    case Deny(i, why) => RecordKeepsShape(s, i, Failed, why, reply.call, Idle);
    case Mark(i, repo) =>
      RecordKeepsShape(s, i, Installing, "", reply.call, if reply.call.Raised() then Idle else Scale(i, repo));
    case Fail(i, why) => RecordKeepsShape(s, i, Failed, why, reply.call, Idle);
    case Apply(i) => RecordKeepsShape(s, i, Applied, "", reply.call, Idle);
  }

  lemma ForwardKeepsShape(cfg: Config, s: State, reply: Reply)
    requires Shaped(s) && s.rec.Set?
    ensures Shaped(RecNext(cfg, s, reply))
  {
    NumberedIndex(s.store, s.rec.id);
  }

  lemma CallKeepsShape(cfg: Config, s: State, reply: Reply)
    requires Shaped(s) && !s.rec.Idle?
    ensures Shaped(RecNext(cfg, s, reply))
  {
    if WritesStatus(s.rec) {
      WriteKeepsShape(cfg, s, reply);
    } else if s.rec.Set? {
      ForwardKeepsShape(cfg, s, reply);
    }
  }

  /** A step of the reconciler leaves handlers and limiter alone and logs at most one event. */
  ghost predicate Framed(s: State, s': State)
  {
    && s'.handlers == s.handlers && s'.limiter == s.limiter
    && (s'.log == s.log || (|s'.log| == |s.log| + 1 && s'.log[..|s.log|] == s.log))
  }

  lemma WriteFramed(cfg: Config, s: State, reply: Reply)
    requires WritesStatus(s.rec)
    ensures Framed(s, RecNext(cfg, s, reply))
  {
  }

  lemma RecFrame(cfg: Config, s: State, reply: Reply)
    ensures Framed(s, RecNext(cfg, s, reply))
  {
    if WritesStatus(s.rec) {
      WriteFramed(cfg, s, reply);
    }
  }

  /** The step records a new request. */
  predicate Inserts(s: State, step: Step)
  {
    step.Insert? && step.h < |s.handlers| && s.handlers[step.h].Stamped?
  }

  lemma HandlerFrame(cfg: Config, s: State, step: Step)
    requires !step.Reconcile? && Numbered(s.store)
    ensures var s' := Next(cfg, s, step);
      && s'.rec == s.rec && s'.served == s.served
      && (if Inserts(s, step) then
            var r := NewRequest(|s.store|, s.handlers[step.h].intake, s.handlers[step.h].created);
            s'.store == s.store + [r] && s'.log == s.log + [Recorded(r.id, Requested)]
          else s'.store == s.store && s'.log == s.log)
  {
    NumberedIndex(s.store, |s.store|);
  }

  lemma HandlerKeepsRequest(cfg: Config, s: State, step: Step, id: nat)
    requires Numbered(s.store) && RequestOk(s, id) && !step.Reconcile?
    ensures RequestOk(Next(cfg, s, step), id)
  {
    HandlerFrame(cfg, s, step);
    LogGrows(s.log, Recorded(|s.store|, Requested), id, "");
  }

  lemma WriteKeepsRequest(cfg: Config, s: State, reply: Reply, id: nat)
    requires Numbered(s.store) && RecOk(s) && RequestOk(s, id) && WritesStatus(s.rec)
    ensures RequestOk(RecNext(cfg, s, reply), id)
  {
    NumberedIndex(s.store, s.rec.id);
    match s.rec
    case Deny(i, why) => RecordKeepsRequest(s, i, Failed, why, reply.call, Idle, id);
    case Mark(i, repo) =>
      RecordKeepsRequest(s, i, Installing, "", reply.call, if reply.call.Raised() then Idle else Scale(i, repo), id);
    case Fail(i, why) => RecordKeepsRequest(s, i, Failed, why, reply.call, Idle, id);
    case Apply(i) => RecordKeepsRequest(s, i, Applied, "", reply.call, Idle, id);
  }

  lemma RecordKeepsRequest(s: State, i: nat, status: Status, why: string, call: Call, next: Rec, id: nat)
    requires Numbered(s.store) && i < |s.store| && RequestOk(s, id)
    requires if s.store[i].status == Requested then status == Installing || status == Failed
             else s.store[i].status == Installing && (status == Applied || status == Failed)
    requires next == Idle || (next.Scale? && next.id == i && s.store[i].status == Requested)
    ensures RequestOk(Record(s, i, status, why, call).(rec := next), id)
  {
    NumberedIndex(s.store, i);
    LogGrows(s.log, Recorded(i, status), id, "");
  }

  lemma OtherCallKeepsRequest(cfg: Config, s: State, reply: Reply, id: nat)
    requires Numbered(s.store) && RecOk(s) && RequestOk(s, id) && !WritesStatus(s.rec)
    ensures RequestOk(RecNext(cfg, s, reply), id)
  {
    match s.rec
    case Idle => PickKeepsRequest(cfg, s, reply, id);
    case Set(i, repo, previous) => ForwardKeepsRequest(cfg, s, reply, id);
    case Wait(i, repo, previous) => LogGrows(s.log, Ready(repo), id, "");
    case _ =>
  }

  lemma PickKeepsRequest(cfg: Config, s: State, reply: Reply, id: nat)
    requires RequestOk(s, id) && s.rec.Idle?
    ensures RequestOk(RecNext(cfg, s, reply), id)
  {
    if Pending(s.store) != [] {
      LogGrows(s.log, Took(Pending(s.store)[0].id), id, "");
    }
  }

  lemma ForwardKeepsRequest(cfg: Config, s: State, reply: Reply, id: nat)
    requires Numbered(s.store) && RecOk(s) && RequestOk(s, id) && s.rec.Set?
    ensures RequestOk(RecNext(cfg, s, reply), id)
  {
    LogGrows(s.log, ForwardSet(s.rec.id, StatusOf(s.store, s.rec.id)), id, "");
  }

  lemma StepKeepsShape(cfg: Config, s: State, step: Step)
    requires Shaped(s)
    ensures Shaped(Next(cfg, s, step))
  {
    if !step.Reconcile? {
      HandlerFrame(cfg, s, step);
    } else if s.rec.Idle? {
      PickKeepsShape(cfg, s, step.reply);
    } else {
      CallKeepsShape(cfg, s, step.reply);
    }
  }

  lemma StepKeepsInv(cfg: Config, s: State, step: Step)
    requires Inv(s)
    ensures Inv(Next(cfg, s, step))
  {
    StepKeepsShape(cfg, s, step);
    if step.Reconcile? {
      forall id: nat ensures RequestOk(RecNext(cfg, s, step.reply), id) {
        if WritesStatus(s.rec) {
          WriteKeepsRequest(cfg, s, step.reply, id);
        } else {
          OtherCallKeepsRequest(cfg, s, step.reply, id);
        }
      }
    } else {
      forall id: nat ensures RequestOk(Next(cfg, s, step), id) {
        HandlerKeepsRequest(cfg, s, step, id);
      }
    }
  }
}
