/** Whole runs of the production scheduler: which workers get requests, what a tenant's books add up to, and what
    every admission is decided by. */
module SchedulerRuns {
  import opened SchedulerModel
  import opened Schedulers

  datatype Call =
    | RegisterTenant(id: nat, policy: Policy)
    | RegisterWorker(id: nat, totalVramBytes: nat, worker: Worker)
    | Admit(spec: Spec)
    | Complete(id: nat, generatedTokens: nat, gpuMicros: nat)
    | Cancel(id: nat)
    | OpenCircuit(id: nat)
    | RecoverCircuit(id: nat)
    | DrainWorker(id: nat)
    | ShutdownAudit

  datatype Reply = Flag(ok: bool) | Verdicted(answer: Answer)

  datatype Snapshot = Snapshot(config: Config, tenants: map<nat, Tenant>, workers: map<nat, Worker>,
                               requests: map<nat, Request>, usage: map<nat, nat>, stopped: bool)

  ghost predicate Sound(s: Snapshot) {
    Booked(s.tenants, s.requests) && Placed(s.requests, s.tenants, s.workers) && Capped(s.tenants, s.config)
  }

  ghost function Look(s: Scheduler): Snapshot
    reads s
  {
    Snapshot(s.config, s.tenants, s.workers, s.requests, s.usageRecords, s.shuttingDown)
  }

  // ---- one call -------------------------------------------------------------------------------------

  /** The request got in: a reply that says so. */
  predicate Entering(c: Call, r: Reply) {
    c.Admit? && r.Verdicted? && r.answer.Decided? && r.answer.decision.verdict in {AdmitNow, AdmitQueue}
  }

  predicate Succeeds(r: Reply) {
    r.Flag? && r.ok
  }

  predicate Answerable(s: Snapshot, spec: Spec) {
    && spec.requestId != 0 && spec.tenantId != 0 && spec.promptTokens != 0 && spec.maxCompletionTokens != 0
    && !s.stopped && spec.requestId !in s.requests && spec.tenantId in s.tenants
  }

  ghost predicate AdmitNext(a: Snapshot, spec: Spec, r: Reply, b: Snapshot) {
    && r.Verdicted? && (r.answer == Refused <==> !Answerable(a, spec))
    && (Answerable(a, spec) ==> r.answer.decision.verdict == VerdictFor(a.tenants, a.workers, a.config, spec))
    && (!Entering(Admit(spec), r) ==> b == a)
    && (Entering(Admit(spec), r) ==>
          var w, queued := r.answer.decision.workerId, r.answer.decision.verdict == AdmitQueue;
          && Best(a.workers, a.tenants[spec.tenantId], spec, w)
          && b == a.(requests := a.requests[spec.requestId := Request(spec, w, queued)],
                     tenants := a.tenants[spec.tenantId := Entered(a.tenants[spec.tenantId], spec, queued)]))
  }

  predicate CompleteNext(a: Snapshot, c: Call, r: Reply, b: Snapshot)
    requires c.Complete?
  {
    && r.Flag? && (r.ok <==> c.id != 0 && c.id in a.requests && c.id !in a.usage)
    && (!r.ok ==> b == a)
    && (r.ok ==>
          var t := a.requests[c.id].spec.tenantId;
          t in a.tenants && b == a.(
            requests := a.requests - {c.id}, usage := a.usage[c.id := c.gpuMicros],
            tenants := a.tenants[t :=
              Served(a.tenants[t], a.requests[c.id].queued, c.generatedTokens, c.gpuMicros)]))
  }

  predicate CancelNext(a: Snapshot, id: nat, r: Reply, b: Snapshot) {
    && r.Flag? && (r.ok <==> id != 0 && id in a.requests)
    && (!r.ok ==> b == a)
    && (r.ok ==>
          var t := a.requests[id].spec.tenantId;
          t in a.tenants && b == a.(requests := a.requests - {id},
                                    tenants := a.tenants[t := Fewer(a.tenants[t], a.requests[id].queued)]))
  }

  /** A call that may change the workers only. */
  predicate WorkersNext(a: Snapshot, c: Call, r: Reply, b: Snapshot)
    requires c.RegisterWorker? || c.OpenCircuit? || c.RecoverCircuit? || c.DrainWorker?
  {
    && r.Flag? && b == a.(workers := b.workers)
    && (r.ok ==> if c.RegisterWorker? then c.id !in a.workers else c.id in a.workers)
    && b.workers == if !r.ok then a.workers else a.workers[c.id :=
         match c
         case RegisterWorker(_, _, worker) => worker
         case OpenCircuit(id) => a.workers[id].(circuit := Open, state := Quarantined)
         case RecoverCircuit(id) => a.workers[id].(circuit := Closed, state := Healthy)
         case DrainWorker(id) => a.workers[id].(state := Draining)]
  }

  ghost predicate Next(a: Snapshot, c: Call, r: Reply, b: Snapshot) {
    && b.config == a.config && Sound(b)
    && match c
       case Admit(spec) => AdmitNext(a, spec, r, b)
       case Complete(_, _, _) => CompleteNext(a, c, r, b)
       case Cancel(id) => CancelNext(a, id, r, b)
       case RegisterTenant(id, policy) =>
         && r.Flag? && (r.ok ==> id !in a.tenants)
         && b == (if r.ok then a.(tenants := a.tenants[id := Tenant(policy, 0, 0, 0, 0, 0, 0)]) else a)
       case ShutdownAudit => r.Flag? && b == a.(stopped := true)
       case _ => WorkersNext(a, c, r, b)
  }

  lemma ValidIsSound(s: Scheduler)
    requires s.Valid()
    ensures Sound(Look(s))
  {
  }

  /** Makes the call. */
  method Perform(s: Scheduler, c: Call) returns (r: Reply)
    requires s.Valid()
    modifies s
    ensures s.Valid() && Next(old(Look(s)), c, r, Look(s))
  {
    hide Scheduler.Valid, Sound, AdmitNext, CompleteNext, CancelNext, WorkersNext;
    match c {
      case Admit(spec) =>
        var answer := PerformAdmit(s, spec);
        r := Verdicted(answer);
      case Complete(_, _, _) =>
        r := PerformComplete(s, c);
      case Cancel(_) =>
        r := PerformCancel(s, c);
      case RegisterTenant(id, policy) =>
        var ok := s.RegisterTenant(id, policy);
        r := Flag(ok);
      case ShutdownAudit =>
        var clean := s.ShutdownAudit();
        r := Flag(clean);
      case _ =>
        r := PerformOnWorkers(s, c);
    }
    ValidIsSound(s);
  }

  method PerformAdmit(s: Scheduler, spec: Spec) returns (answer: Answer)
    requires s.Valid()
    modifies s
    ensures s.Valid() && AdmitNext(old(Look(s)), spec, Verdicted(answer), Look(s))
  {
    hide Scheduler.Valid, VerdictFor, Best, Entered;
    answer := s.Admit(spec);
  }

  method PerformComplete(s: Scheduler, c: Call) returns (r: Reply)
    requires s.Valid() && c.Complete?
    modifies s
    ensures s.Valid() && CompleteNext(old(Look(s)), c, r, Look(s))
  {
    hide Scheduler.Valid, Served;
    var ok := s.Complete(c.id, c.generatedTokens, c.gpuMicros);
    r := Flag(ok);
  }

  method PerformCancel(s: Scheduler, c: Call) returns (r: Reply)
    requires s.Valid() && c.Cancel?
    modifies s
    ensures s.Valid() && CancelNext(old(Look(s)), c.id, r, Look(s))
  {
    hide Scheduler.Valid, Fewer;
    var ok := s.Cancel(c.id);
    r := Flag(ok);
  }

  method PerformOnWorkers(s: Scheduler, c: Call) returns (r: Reply)
    requires s.Valid() && (c.RegisterWorker? || c.OpenCircuit? || c.RecoverCircuit? || c.DrainWorker?)
    modifies s
    ensures s.Valid() && WorkersNext(old(Look(s)), c, r, Look(s))
  {
    hide Scheduler.Valid;
    var ok;
    match c {
      case RegisterWorker(id, vram, worker) => ok := s.RegisterWorker(id, vram, worker);
      case OpenCircuit(id) => ok := s.OpenCircuit(id);
      case RecoverCircuit(id) => ok := s.RecoverCircuit(id);
      case DrainWorker(id) => ok := s.DrainWorker(id);
    }
    r := Flag(ok);
  }

  // ---- runs -----------------------------------------------------------------------------------------

  datatype Run = Run(states: seq<Snapshot>, calls: seq<Call>, replies: seq<Reply>)
  {
    /** Every call does what the scheduler does. */
    ghost predicate Valid() {
      && |states| == |calls| + 1 && |replies| == |calls| && Sound(states[0])
      && forall i :: 0 <= i < |calls| ==> Next(states[i], calls[i], replies[i], states[i + 1])
    }
  }

  // ---- which workers get requests -----------------------------------------------------------------------

  /** Call i opened the circuit of the worker or drained it. */
  predicate SendsAway(run: Run, i: nat, w: nat)
    requires i < |run.calls| == |run.replies|
  {
    Succeeds(run.replies[i]) && (run.calls[i] == OpenCircuit(w) || run.calls[i] == DrainWorker(w))
  }

  predicate CallsBack(run: Run, i: nat, w: nat)
    requires i < |run.calls| == |run.replies|
  {
    Succeeds(run.replies[i]) && run.calls[i] == RecoverCircuit(w)
  }

  /** Call i registered the worker in working order, or healed it. */
  predicate PutsToWork(run: Run, i: nat, w: nat)
    requires i < |run.calls| == |run.replies|
  {
    CallsBack(run, i, w) || (
      && Succeeds(run.replies[i]) && run.calls[i].RegisterWorker? && run.calls[i].id == w
      && run.calls[i].worker.state in {Healthy, Degraded} && run.calls[i].worker.circuit != Open)
  }

  /** Before call j the worker was sent away, and it has not been called back since. */
  ghost predicate Away(run: Run, w: nat, j: nat)
    requires j <= |run.calls| == |run.replies|
  {
    exists i :: 0 <= i < j && SendsAway(run, i, w) && forall k :: i < k < j ==> !CallsBack(run, k, w)
  }

  /** Before call j the worker was put to work, and it has not been sent away since. */
  ghost predicate Working(run: Run, w: nat, j: nat)
    requires j <= |run.calls| == |run.replies|
  {
    exists i :: 0 <= i < j && PutsToWork(run, i, w) && forall k :: i < k < j ==> !SendsAway(run, k, w)
  }

  lemma StandingBefore(run: Run, w: nat, j: nat)
    requires j < |run.calls| == |run.replies|
    ensures Away(run, w, j + 1) ==> SendsAway(run, j, w) || (Away(run, w, j) && !CallsBack(run, j, w))
    ensures Working(run, w, j + 1) ==> PutsToWork(run, j, w) || (Working(run, w, j) && !SendsAway(run, j, w))
  {
    hide SendsAway, CallsBack, PutsToWork;
    if Away(run, w, j + 1) {
      var i :| 0 <= i < j + 1 && SendsAway(run, i, w) && forall k :: i < k < j + 1 ==> !CallsBack(run, k, w);
    }
    if Working(run, w, j + 1) {
      var i :| 0 <= i < j + 1 && PutsToWork(run, i, w) && forall k :: i < k < j + 1 ==> !SendsAway(run, k, w);
    }
  }

  /** What one call leaves of a worker. */
  lemma WorkerNext(a: Snapshot, c: Call, r: Reply, b: Snapshot, w: nat)
    requires Next(a, c, r, b)
    ensures w in a.workers ==> w in b.workers && b.workers[w].models == a.workers[w].models
    ensures Succeeds(r) && c in {OpenCircuit(w), DrainWorker(w)} ==>
      w in b.workers && b.workers[w].state in {Draining, Quarantined}
    ensures Succeeds(r) && c == RecoverCircuit(w) ==>
      w in b.workers && b.workers[w].state == Healthy && b.workers[w].circuit == Closed
    ensures Succeeds(r) && c.RegisterWorker? && c.id == w ==>
      w !in a.workers && w in b.workers && b.workers[w] == c.worker
    ensures w in a.workers && !(Succeeds(r) && c in {OpenCircuit(w), DrainWorker(w), RecoverCircuit(w)}) ==>
      b.workers[w] == a.workers[w]
  {
    hide Sound, AdmitNext, CompleteNext, CancelNext;
    if c.Admit? {
      AdmitKeepsWorkers(a, c.spec, r, b);
    } else if c.Complete? {
      CompleteKeepsWorkers(a, c, r, b);
    } else if c.Cancel? {
      CancelKeepsWorkers(a, c.id, r, b);
    }
  }

  lemma AdmitKeepsWorkers(a: Snapshot, spec: Spec, r: Reply, b: Snapshot)
    requires AdmitNext(a, spec, r, b)
    ensures b.workers == a.workers && r.Verdicted?
  {
    hide VerdictFor, Best;
  }

  lemma CompleteKeepsWorkers(a: Snapshot, c: Call, r: Reply, b: Snapshot)
    requires c.Complete? && CompleteNext(a, c, r, b)
    ensures b.workers == a.workers
  {
  }

  lemma CancelKeepsWorkers(a: Snapshot, id: nat, r: Reply, b: Snapshot)
    requires CancelNext(a, id, r, b)
    ensures b.workers == a.workers
  {
  }

  lemma {:induction false} AwayState(run: Run, w: nat, j: nat)
    requires run.Valid() && j <= |run.calls| && Away(run, w, j)
    ensures w in run.states[j].workers && run.states[j].workers[w].state in {Draining, Quarantined}
  {
    hide Next, Away, Sound;
    if j == 0 {
      NeverAway(run, w);
    } else {
      StandingBefore(run, w, j - 1);
      WorkerNext(run.states[j - 1], run.calls[j - 1], run.replies[j - 1], run.states[j], w);
      if !SendsAway(run, j - 1, w) {
        AwayState(run, w, j - 1);
      }
    }
  }

  lemma NeverAway(run: Run, w: nat)
    requires |run.calls| == |run.replies|
    ensures !Away(run, w, 0) && !Working(run, w, 0)
  {
  }

  lemma {:induction false} WorkingState(run: Run, w: nat, j: nat)
    requires run.Valid() && j <= |run.calls| && Working(run, w, j)
    ensures w in run.states[j].workers && run.states[j].workers[w].state in {Healthy, Degraded}
    ensures run.states[j].workers[w].circuit != Open
  {
    hide Next, Working, Sound;
    if j == 0 {
      NeverAway(run, w);
    } else {
      StandingBefore(run, w, j - 1);
      WorkerNext(run.states[j - 1], run.calls[j - 1], run.replies[j - 1], run.states[j], w);
      if !PutsToWork(run, j - 1, w) {
        WorkingState(run, w, j - 1);
      }
    }
  }

  /** One call puts a request only on a worker that is healthy or degraded, not cut off, and has the model. */
  lemma PlacedOn(a: Snapshot, c: Call, r: Reply, b: Snapshot, id: nat)
    requires Next(a, c, r, b) && id in b.requests
    requires id in a.requests ==> b.requests[id] != a.requests[id]
    ensures c.Admit? && id == c.spec.requestId && id !in a.requests && b.requests[id].workerId in a.workers
    ensures var worker := a.workers[b.requests[id].workerId];
            && worker.state in {Healthy, Degraded} && worker.circuit != Open
            && c.spec.modelId < 64 && c.spec.modelId in worker.models
  {
    hide Sound, VerdictFor, Score;
  }

  /** Main result: while a worker is away, no call puts a request on it. */
  lemma NothingPlaced(run: Run, w: nat, j: nat, id: nat)
    requires run.Valid() && j < |run.calls| && Away(run, w, j)
    requires id in run.states[j + 1].requests && run.states[j + 1].requests[id].workerId == w
    ensures id in run.states[j].requests && run.states[j].requests[id] == run.states[j + 1].requests[id]
  {
    hide Next, Away, Sound;
    AwayState(run, w, j);
    var a, b := run.states[j], run.states[j + 1];
    if id !in a.requests || b.requests[id] != a.requests[id] {
      PlacedOn(a, run.calls[j], run.replies[j], b, id);
    }
  }

  /** Main result: with every worker away, every request in quota is refused for its model; with one at work that has
      the model, none is. */
  lemma RefusedForModel(run: Run, j: nat)
    requires run.Valid() && j < |run.calls| && run.calls[j].Admit? && Answerable(run.states[j], run.calls[j].spec)
    ensures run.replies[j].Verdicted? && run.replies[j].answer.Decided?
    ensures var s, spec, verdict := run.states[j], run.calls[j].spec, run.replies[j].answer.decision.verdict;
            && ((forall w :: w in s.workers ==> Away(run, w, j)) && !OverQuota(s.tenants[spec.tenantId], spec) ==>
                  verdict == RejectModel)
            && (spec.modelId < 64 ==>
                  forall w :: w in s.workers && Working(run, w, j) && spec.modelId in s.workers[w].models ==>
                    verdict != RejectModel)
  {
    hide Sound, Away, Working, MustQueue, QueueFull, OverQuota, Best, Entered;
    var s := run.states[j];
    forall w | w in s.workers && Away(run, w, j)
      ensures s.workers[w].state in {Draining, Quarantined}
    {
      AwayState(run, w, j);
    }
    forall w | w in s.workers && Working(run, w, j)
      ensures s.workers[w].state in {Healthy, Degraded} && s.workers[w].circuit != Open
    {
      WorkingState(run, w, j);
    }
    assert AdmitNext(s, run.calls[j].spec, run.replies[j], run.states[j + 1]);
  }

  // ---- what the books add up to ---------------------------------------------------------------------------

  /** The entries of a tenant's books. */
  datatype Item = Prompts | Promised | Completions | GpuTime

  function Booking(tenant: Tenant, item: Item): nat {
    match item
    case Prompts => tenant.promptTokens
    case Promised => tenant.virtualRuntime
    case Completions => tenant.completionTokens
    case GpuTime => tenant.gpuMicros
  }

  /** What one call adds to the books of tenant t. */
  function Charge(a: Snapshot, c: Call, r: Reply, t: nat, item: Item): nat {
    if Entering(c, r) && c.spec.tenantId == t then
      match item
      case Prompts => c.spec.promptTokens
      case Promised => c.spec.promptTokens + c.spec.maxCompletionTokens
      case _ => 0
    else if c.Complete? && Succeeds(r) && c.id in a.requests && a.requests[c.id].spec.tenantId == t then
      match item
      case Completions => c.generatedTokens
      case GpuTime => c.gpuMicros
      case _ => 0
    else 0
  }

  /** What the first j calls of a run added. */
  function Spent(run: Run, t: nat, item: Item, j: nat): nat
    requires j <= |run.calls| == |run.replies| < |run.states|
  {
    if j == 0 then 0
    else Spent(run, t, item, j - 1) + Charge(run.states[j - 1], run.calls[j - 1], run.replies[j - 1], t, item)
  }

  lemma BookingNext(a: Snapshot, c: Call, r: Reply, b: Snapshot, t: nat, item: Item)
    requires Next(a, c, r, b) && Sound(a)
    ensures t in a.tenants ==> t in b.tenants && b.tenants[t].policy == a.tenants[t].policy
    ensures t in a.tenants ==> Booking(b.tenants[t], item) == Booking(a.tenants[t], item) + Charge(a, c, r, t, item)
    ensures t !in a.tenants ==> Charge(a, c, r, t, item) == 0
    ensures t !in a.tenants && t in b.tenants ==> Booking(b.tenants[t], item) == 0
  {
    hide VerdictFor, Best, Booked, Capped;
  }

  /** Main result: a tenant's books are the sums, over the whole run, of what its admitted requests asked for and its
      completed ones used. */
  lemma {:induction false} BooksAddUp(run: Run, t: nat, item: Item, j: nat)
    requires run.Valid() && run.states[0].tenants == map[] && j <= |run.calls|
    ensures t in run.states[j].tenants ==> Booking(run.states[j].tenants[t], item) == Spent(run, t, item, j)
    ensures t !in run.states[j].tenants ==> Spent(run, t, item, j) == 0
  {
    hide Next, Sound, Charge, Booking;
    if j > 0 {
      BooksAddUp(run, t, item, j - 1);
      SoundAt(run, j - 1);
      BookingNext(run.states[j - 1], run.calls[j - 1], run.replies[j - 1], run.states[j], t, item);
    }
  }

  lemma SoundAt(run: Run, j: nat)
    requires run.Valid() && j <= |run.calls|
    ensures Sound(run.states[j])
  {
    hide Sound;
    if j > 0 {
      assert Next(run.states[j - 1], run.calls[j - 1], run.replies[j - 1], run.states[j]);
    }
  }

  // ---- what decides an admission ----------------------------------------------------------------------------

  /** The live requests of one kind, of all tenants. */
  function Live(requests: map<nat, Request>, queued: bool): set<nat> {
    set r | r in requests && requests[r].queued == queued
  }

  function LiveAmong(requests: map<nat, Request>, tenants: set<nat>, queued: bool): set<nat> {
    set r | r in requests && requests[r].queued == queued && requests[r].spec.tenantId in tenants
  }

  /** Numbers of live requests per tenant. */
  function Counts(tenants: map<nat, Tenant>, queued: bool): map<nat, nat> {
    if queued then QueuedOf(tenants) else ActiveOf(tenants)
  }

  lemma {:induction false} TotalAmong(tenants: map<nat, Tenant>, requests: map<nat, Request>, queued: bool)
    requires Booked(tenants, requests)
    ensures Total(Counts(tenants, queued)) == |LiveAmong(requests, tenants.Keys, queued)|
    decreases |tenants|
  {
    hide Total, LiveAmong, LiveOf;
    if tenants == map[] {
      NothingInTotal();
      NoneAmong(requests, queued);
      assert Counts(tenants, queued) == map[];
    } else {
      SomeKey(tenants);
      var t :| t in tenants;
      OneLess(tenants, t);
      TotalAmong(tenants - {t}, requests, queued);
      TotalWithout(Counts(tenants, queued), t);
      assert Counts(tenants, queued) - {t} == Counts(tenants - {t}, queued);
      AmongWithout(requests, tenants.Keys, t, queued);
      assert (tenants - {t}).Keys == tenants.Keys - {t};
    }
  }

  lemma NoneAmong(requests: map<nat, Request>, queued: bool)
    ensures LiveAmong(requests, {}, queued) == {}
  {
  }

  lemma AmongWithout(requests: map<nat, Request>, tenants: set<nat>, t: nat, queued: bool)
    requires t in tenants
    ensures |LiveAmong(requests, tenants, queued)|
         == |LiveAmong(requests, tenants - {t}, queued)| + |LiveOf(requests, t, queued)|
  {
    assert LiveAmong(requests, tenants, queued)
        == LiveAmong(requests, tenants - {t}, queued) + LiveOf(requests, t, queued);
    assert LiveAmong(requests, tenants - {t}, queued) !! LiveOf(requests, t, queued);
  }

  /** The tenants' counts add up to the number of live requests. */
  lemma TotalLive(s: Snapshot, queued: bool)
    requires Sound(s)
    ensures Total(Counts(s.tenants, queued)) == |Live(s.requests, queued)|
  {
    hide Total, Capped;
    TotalAmong(s.tenants, s.requests, queued);
    assert LiveAmong(s.requests, s.tenants.Keys, queued) == Live(s.requests, queued);
  }

  /** There is room for one more live request of that kind, in all and for the tenant. */
  ghost predicate Room(s: Snapshot, t: nat, queued: bool)
    requires t in s.tenants
  {
    var policy := s.tenants[t].policy;
    if queued then |Live(s.requests, true)| < s.config.maxQueued && |LiveOf(s.requests, t, true)| < policy.maxQueued
    else |Live(s.requests, false)| < s.config.maxActive && |LiveOf(s.requests, t, false)| < policy.maxConcurrent
  }

  lemma RoomIs(s: Snapshot, t: nat)
    requires Sound(s) && t in s.tenants
    ensures Room(s, t, false) <==> !MustQueue(s.tenants, s.config, t)
    ensures Room(s, t, true) <==> !QueueFull(s.tenants, s.config, t)
  {
    hide Total, Live, LiveOf, Capped, Placed;
    TotalLive(s, false);
    TotalLive(s, true);
  }

  /** What the run has spent leaves no room for the request in the tenant's budgets. */
  predicate BeyondBudget(run: Run, j: nat, spec: Spec)
    requires j <= |run.calls| == |run.replies| < |run.states| && spec.tenantId in run.states[j].tenants
  {
    var t, policy := spec.tenantId, run.states[j].tenants[spec.tenantId].policy;
    || Spent(run, t, Prompts, j) + spec.promptTokens > policy.promptTokens
    || Spent(run, t, Completions, j) + spec.maxCompletionTokens > policy.completionTokens
    || Spent(run, t, GpuTime, j) >= policy.gpuBudget
  }

  /** Main result: over any run, a request is refused for quota exactly when what the tenant has spent in the run
      leaves no room in a budget; one that is neither that nor refused for its model is admitted, queued or turned away
      by the numbers of live requests. */
  lemma AdmittedBy(run: Run, j: nat)
    requires run.Valid() && run.states[0].tenants == map[] && j < |run.calls|
    requires run.calls[j].Admit? && Answerable(run.states[j], run.calls[j].spec)
    ensures run.replies[j].Verdicted? && run.replies[j].answer.Decided?
    ensures var s, spec, verdict := run.states[j], run.calls[j].spec, run.replies[j].answer.decision.verdict;
            && (verdict == RejectQuota <==> BeyondBudget(run, j, spec))
            && (verdict != RejectQuota && verdict != RejectModel ==>
                  verdict == if Room(s, spec.tenantId, false) then AdmitNow
                             else if Room(s, spec.tenantId, true) then AdmitQueue
                             else RejectOverload)
  {
    hide Sound, MustQueue, QueueFull, Best, Entered, Room, Spent, Eligible;
    var t := run.calls[j].spec.tenantId;
    SoundAt(run, j);
    BooksAddUp(run, t, Prompts, j);
    BooksAddUp(run, t, Completions, j);
    BooksAddUp(run, t, GpuTime, j);
    RoomIs(run.states[j], t);
    assert AdmitNext(run.states[j], run.calls[j].spec, run.replies[j], run.states[j + 1]);
  }
}
