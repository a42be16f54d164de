/** The production scheduler: admission, completion and cancellation, circuits, draining and accounting. */
module Schedulers {
  import opened SchedulerModel

  class Scheduler {
    const config: Config
    var tenants: map<nat, Tenant>
    var workers: map<nat, Worker>
    var requests: map<nat, Request>
    var usageRecords: map<nat, nat>
    var admissions: nat
    var queuings: nat
    var cancellations: nat
    var duplicateUsageRecords: nat
    var safeDrains: nat
    var circuitOpens: nat
    var circuitRecoveries: nat
    var shuttingDown: bool
    /** Which tenant paid for each usage record. */
    ghost var payer: map<nat, nat>

    /** The books: who is live where, within which caps, who paid for what, and where every admission went. */
    ghost predicate Valid()
      reads this
    {
      && Booked(tenants, requests) && Placed(requests, tenants, workers) && Capped(tenants, config)
      && Charged(tenants, usageRecords, payer)
      && |tenants| <= config.maxTenants && |workers| <= config.maxWorkers
      && admissions + queuings == |requests| + cancellations + |usageRecords|
    }

    constructor (limits: Config)
      ensures Valid() && config == limits
      ensures tenants == map[] && workers == map[] && requests == map[] && usageRecords == map[] && !shuttingDown
    {
      config := limits;
      tenants, workers, requests, usageRecords, payer := map[], map[], map[], map[], map[];
      admissions, queuings, cancellations, duplicateUsageRecords := 0, 0, 0, 0;
      safeDrains, circuitOpens, circuitRecoveries, shuttingDown := 0, 0, 0, false;
      new;
      NothingInTotal();
      assert ActiveOf(tenants) == map[] && QueuedOf(tenants) == map[];
    }

    method RegisterTenant(id: nat, policy: Policy) returns (ok: bool)
      requires Valid()
      modifies this`tenants
      ensures Valid()
      ensures ok <==> (
        && id != 0 && policy.weight != 0 && policy.maxConcurrent != 0 && policy.maxQueued != 0
        && !shuttingDown && |old(tenants)| < config.maxTenants && id !in old(tenants))
      ensures tenants == if ok then old(tenants)[id := Tenant(policy, 0, 0, 0, 0, 0, 0)] else old(tenants)
    {
      hide Booked, Placed, Capped, Charged;
      if id == 0 || policy.weight == 0 || policy.maxConcurrent == 0 || policy.maxQueued == 0 {
        return false;
      }
      if shuttingDown || |tenants| >= config.maxTenants || id in tenants {
        return false;
      }
      var tenant := Tenant(policy, 0, 0, 0, 0, 0, 0);
      NewTenant(tenants, requests, workers, config, id, tenant);
      NothingPaid(tenants, usageRecords, payer, id, tenant);
      tenants := tenants[id := tenant];
      ok := true;
    }

    method RegisterWorker(id: nat, totalVramBytes: nat, worker: Worker) returns (ok: bool)
      requires Valid()
      modifies this`workers
      ensures Valid()
      ensures ok <==> (
        && id != 0 && totalVramBytes != 0 && worker.prefillRate != 0 && worker.decodeRate != 0
        && !shuttingDown && |old(workers)| < config.maxWorkers && id !in old(workers))
      ensures workers == if ok then old(workers)[id := worker] else old(workers)
    {
      hide Booked, Capped, Charged;
      if id == 0 || totalVramBytes == 0 || worker.prefillRate == 0 || worker.decodeRate == 0 {
        return false;
      }
      if shuttingDown || |workers| >= config.maxWorkers || id in workers {
        return false;
      }
      workers := workers[id := worker];
      ok := true;
    }

    // ---- admission --------------------------------------------------------------------------------

    /** The call is answered at all. */
    predicate Admissible(spec: Spec)
      reads this`requests, this`tenants, this`shuttingDown
    {
      && spec.requestId != 0 && spec.tenantId != 0 && spec.promptTokens != 0 && spec.maxCompletionTokens != 0
      && !shuttingDown && spec.requestId !in requests && spec.tenantId in tenants
    }

    twostate predicate Unchanged()
      reads this
    {
      && tenants == old(tenants) && requests == old(requests)
      && usageRecords == old(usageRecords) && payer == old(payer)
      && admissions == old(admissions) && queuings == old(queuings) && cancellations == old(cancellations)
    }

    /** Records the admitted request against its tenant. */
    method Enter(spec: Spec, worker: nat, queued: bool)
      requires Valid() && Admissible(spec) && !OverQuota(tenants[spec.tenantId], spec)
      requires worker in workers && !workers[worker].state.Draining?
      requires if queued then !QueueFull(tenants, config, spec.tenantId) else !MustQueue(tenants, config, spec.tenantId)
      modifies this`tenants, this`requests, this`admissions, this`queuings
      ensures Valid()
      ensures requests == old(requests)[spec.requestId := Request(spec, worker, queued)]
      ensures tenants == old(tenants)[spec.tenantId := Entered(old(tenants)[spec.tenantId], spec, queued)]
      ensures queuings == old(queuings) + (if queued then 1 else 0)
      ensures admissions == old(admissions) + (if queued then 0 else 1)
    {
      hide Booked, Placed, Charged, Total, ActiveOf, QueuedOf;
      var tenant := tenants[spec.tenantId];
      if queued {
        tenant := tenant.(queued := tenant.queued + 1);
        queuings := queuings + 1;
      } else {
        tenant := tenant.(active := tenant.active + 1);
        admissions := admissions + 1;
      }
      tenant := tenant.(promptTokens := tenant.promptTokens + spec.promptTokens,
                        virtualRuntime := tenant.virtualRuntime + spec.promptTokens + spec.maxCompletionTokens);
      var request := Request(spec, worker, queued);
      BookedAdd(tenants, requests, spec.requestId, request, tenant);
      PlacedAdd(requests, tenants, workers, spec.requestId, request, tenant);
      CappedUpdate(tenants, config, spec.tenantId, tenant);
      ChargedSame(tenants, usageRecords, payer, spec.tenantId, tenant);
      requests := requests[spec.requestId := request];
      tenants := tenants[spec.tenantId := tenant];
    }

    /** Admits a request now, queues it, or says why not.  The worker is the least loaded eligible one. */
    method Admit(spec: Spec) returns (answer: Answer)
      requires Valid()
      modifies this`tenants, this`requests, this`admissions, this`queuings
      ensures Valid()
      ensures answer == Refused <==> !old(Admissible(spec))
      ensures old(Admissible(spec)) ==> answer.decision.verdict == VerdictFor(old(tenants), workers, config, spec)
      ensures answer.Refused? || answer.decision.verdict in {RejectQuota, RejectModel, RejectOverload} ==> Unchanged()
      ensures answer.Decided? && answer.decision.verdict in {AdmitNow, AdmitQueue} ==>
        var d, queued := answer.decision, answer.decision.verdict == AdmitQueue;
        && Best(workers, old(tenants)[spec.tenantId], spec, d.workerId)
        && requests == old(requests)[spec.requestId := Request(spec, d.workerId, queued)]
        && tenants == old(tenants)[spec.tenantId := Entered(old(tenants)[spec.tenantId], spec, queued)]
        && queuings == old(queuings) + (if queued then 1 else 0)
        && admissions == old(admissions) + (if queued then 0 else 1)
        && d.queuePosition == (if queued then Total(QueuedOf(tenants)) else 0)
        && d.fairness == Fairness(tenants[spec.tenantId], spec)
        && d.prefillMicros == EstimatePrefill(spec, workers[d.workerId])
        && d.decodeMicros == EstimateDecode(spec, workers[d.workerId])
        && d.kvBytes == spec.promptTokens * 1024
    {
      hide Booked, Charged, Capped, Placed, Total, ActiveOf, QueuedOf, Score, Fairness, EstimatePrefill, EstimateDecode;
      if spec.requestId == 0 || spec.tenantId == 0 || spec.promptTokens == 0 || spec.maxCompletionTokens == 0 {
        return Refused;
      }
      if shuttingDown || spec.requestId in requests || spec.tenantId !in tenants {
        return Refused;
      }
      var tenant := tenants[spec.tenantId];
      if OverQuota(tenant, spec) {
        return Rejected(RejectQuota);
      }
      var found, selected := SelectWorker(workers, tenant, spec);
      if !found {
        return Rejected(RejectModel);
      }
      var active, queued := SumLoads(tenants);
      var mustQueue := active >= config.maxActive || tenant.active >= tenant.policy.maxConcurrent;
      if mustQueue && (queued >= config.maxQueued || tenant.queued >= tenant.policy.maxQueued) {
        return Rejected(RejectOverload);
      }
      LoadUpdate(tenants, spec.tenantId, Plus(tenant, mustQueue));
      ghost var before := tenants;
      Enter(spec, selected, mustQueue);
      LoadUpdate(before, spec.tenantId, tenants[spec.tenantId]);
      answer := Decided(Decision(
        if mustQueue then AdmitQueue else AdmitNow, selected,
        EstimatePrefill(spec, workers[selected]), EstimateDecode(spec, workers[selected]),
        spec.promptTokens * 1024, if mustQueue then queued + 1 else 0, Fairness(tenants[spec.tenantId], spec)));
    }

    // ---- leaving ----------------------------------------------------------------------------------

    /** Charges a live request once, to its tenant.  An id that was charged before is refused. */
    method Complete(id: nat, generatedTokens: nat, gpuMicros: nat) returns (ok: bool)
      requires Valid()
      modifies this
      ensures Valid() && workers == old(workers) && shuttingDown == old(shuttingDown)
      ensures cancellations == old(cancellations)
      ensures ok <==> id != 0 && id in old(requests) && id !in old(usageRecords)
      ensures ok ==> requests == old(requests) - {id} && usageRecords == old(usageRecords)[id := gpuMicros]
      ensures ok ==> payer == old(payer)[id := old(requests)[id].spec.tenantId]
      ensures ok ==> var t := old(requests)[id].spec.tenantId;
                     t in old(tenants) && tenants == old(tenants)[t :=
                       Served(old(tenants)[t], old(requests)[id].queued, generatedTokens, gpuMicros)]
      ensures !ok ==> Unchanged()
      ensures duplicateUsageRecords == old(duplicateUsageRecords)
                                     + (if id != 0 && id in old(requests) && id in old(usageRecords) then 1 else 0)
    {
      hide Booked, Placed, Capped, Charged, Total, ActiveOf, QueuedOf;
      if id == 0 || id !in requests {
        return false;
      }
      if id in usageRecords {
        duplicateUsageRecords := duplicateUsageRecords + 1;
        return false;
      }
      var t := requests[id].spec.tenantId;
      PlacedTenant(requests, tenants, workers, id);
      if t !in tenants {
        assert false;
        return false;
      }
      var next := Fewer(tenants[t], requests[id].queued);
      next := next.(completionTokens := next.completionTokens + generatedTokens,
                    gpuMicros := next.gpuMicros + gpuMicros);
      Settle(tenants, requests, workers, config, id, next);
      assert next == Served(tenants[t], requests[id].queued, generatedTokens, gpuMicros);
      ChargedAdd(tenants, usageRecords, payer, id, t, gpuMicros, next);
      OneLess(requests, id);
      OneMore(usageRecords, id, gpuMicros);
      OneMore(tenants, t, next);
      tenants := tenants[t := next];
      payer := payer[id := t];
      usageRecords := usageRecords[id := gpuMicros];
      requests := requests - {id};
      ok := true;
    }

    /** Drops a live request without charging it. */
    method Cancel(id: nat) returns (ok: bool)
      requires Valid()
      modifies this`tenants, this`requests, this`cancellations
      ensures Valid()
      ensures ok <==> id != 0 && id in old(requests)
      ensures ok ==> requests == old(requests) - {id} && cancellations == old(cancellations) + 1
      ensures ok ==> var t := old(requests)[id].spec.tenantId;
                     t in old(tenants) && tenants == old(tenants)[t := Fewer(old(tenants)[t], old(requests)[id].queued)]
      ensures !ok ==> Unchanged()
    {
      hide Booked, Placed, Capped, Charged, Total, ActiveOf, QueuedOf;
      if id == 0 || id !in requests {
        return false;
      }
      var t := requests[id].spec.tenantId;
      PlacedTenant(requests, tenants, workers, id);
      if t !in tenants {
        assert false;
        return false;
      }
      var next := Fewer(tenants[t], requests[id].queued);
      Settle(tenants, requests, workers, config, id, next);
      ChargedSame(tenants, usageRecords, payer, t, next);
      tenants := tenants[t := next];
      requests := requests - {id};
      cancellations := cancellations + 1;
      ok := true;
    }

    // ---- workers ----------------------------------------------------------------------------------

    method OpenCircuit(id: nat) returns (ok: bool)
      requires Valid()
      modifies this`workers, this`circuitOpens
      ensures Valid()
      ensures ok <==> id != 0 && id in old(workers)
      ensures circuitOpens == old(circuitOpens) + (if ok then 1 else 0)
      ensures workers
           == if ok then old(workers)[id := old(workers)[id].(circuit := Open, state := Quarantined)] else old(workers)
    {
      hide Booked, Charged, Capped;
      if id == 0 || id !in workers {
        return false;
      }
      workers := workers[id := workers[id].(circuit := Open, state := Quarantined)];
      circuitOpens := circuitOpens + 1;
      ok := true;
    }

    method RecoverCircuit(id: nat) returns (ok: bool)
      requires Valid()
      modifies this`workers, this`circuitRecoveries
      ensures Valid()
      ensures ok <==> id != 0 && id in old(workers) && old(workers)[id].circuit == Open
      ensures circuitRecoveries == old(circuitRecoveries) + (if ok then 1 else 0)
      ensures workers
           == if ok then old(workers)[id := old(workers)[id].(circuit := Closed, state := Healthy)] else old(workers)
    {
      hide Booked, Charged, Capped;
      if id == 0 || id !in workers || workers[id].circuit != Open {
        return false;
      }
      workers := workers[id := workers[id].(circuit := Closed, state := Healthy)];
      circuitRecoveries := circuitRecoveries + 1;
      ok := true;
    }

    /** Drains a worker exactly when no live request sits on it. */
    method DrainWorker(id: nat) returns (ok: bool)
      requires Valid()
      modifies this`workers, this`safeDrains
      ensures Valid()
      ensures ok <==> id != 0 && id in old(workers) && forall r :: r in requests ==> requests[r].workerId != id
      ensures safeDrains == old(safeDrains) + (if ok then 1 else 0)
      ensures workers == if ok then old(workers)[id := old(workers)[id].(state := Draining)] else old(workers)
    {
      hide Booked, Charged, Capped;
      if id == 0 || id !in workers {
        return false;
      }
      var todo := requests.Keys;
      while todo != {}
        invariant todo <= requests.Keys && workers == old(workers) && safeDrains == old(safeDrains)
        invariant forall r :: r in requests && r !in todo ==> requests[r].workerId != id
      {
        var r :| r in todo;
        if requests[r].workerId == id {
          return false;
        }
        todo := todo - {r};
      }
      workers := workers[id := workers[id].(state := Draining)];
      safeDrains := safeDrains + 1;
      ok := true;
    }

    /** Stops taking work; clean when nothing is live, that is when everything admitted or queued was settled. */
    method ShutdownAudit() returns (clean: bool)
      requires Valid()
      modifies this`shuttingDown
      ensures Valid() && shuttingDown
      ensures clean <==> requests == map[]
      ensures clean <==> admissions + queuings == cancellations + |usageRecords|
    {
      hide Booked, Charged, Capped, Placed;
      shuttingDown := true;
      clean := |requests| == 0;
    }

    // ---- what the books say -----------------------------------------------------------------------

    /** In every reachable state the GPU time of the tenants is the GPU time of the usage records. */
    lemma GpuTimeBalances()
      requires Valid()
      ensures Total(GpuOf(tenants)) == Total(usageRecords)
    {
      GpuTimeConserved(tenants, usageRecords, payer);
    }
  }

  lemma OnlyTenant(tenant: Tenant)
    ensures Total(ActiveOf(map[1 := tenant])) == tenant.active
  {
    hide Total;
    NothingInTotal();
    TotalUpdate(map[], 1, tenant.active);
    assert ActiveOf(map[1 := tenant]) == map[][1 := tenant.active];
  }

  /** One prompt token, one completion token, model 0. */
  const SMALL: Spec := Spec(1, 1, 0, 0, 1, 1, 0, false)

  const ROOMY: Policy := Policy(1, 1, 1, 100, 100, 100)

  const PLAIN: Worker := Worker(Healthy, Closed, {0}, 1, 1, 0, 0)

  /** An idle tenant with room, alone with one plain worker, has its request admitted at once. */
  method AdmitAlone(scheduler: Scheduler, ghost tenant: Tenant) returns (answer: Answer)
    requires scheduler.Valid() && scheduler.config.maxActive > 0 && !scheduler.shuttingDown
    requires scheduler.tenants == map[1 := tenant] && scheduler.workers == map[1 := PLAIN] && 1 !in scheduler.requests
    requires tenant.policy == ROOMY && tenant.active == 0
    requires tenant.promptTokens < 100 && tenant.completionTokens < 100 && tenant.gpuMicros < 100
    modifies scheduler
    ensures scheduler.Valid() && answer.Decided? && answer.decision.verdict == AdmitNow
    ensures scheduler.requests.Keys == old(scheduler.requests).Keys + {1}
    ensures scheduler.requests[1] == Request(SMALL, 1, false)
    ensures scheduler.tenants == map[1 := Entered(tenant, SMALL, false)] && scheduler.workers == old(scheduler.workers)
    ensures scheduler.usageRecords == old(scheduler.usageRecords)
    ensures scheduler.shuttingDown == old(scheduler.shuttingDown)
  {
    hide Scheduler.Valid, Total, ActiveOf, QueuedOf, Score, Fairness, EstimatePrefill, EstimateDecode;
    OnlyTenant(tenant);
    assert Eligible(scheduler.workers[1], SMALL);
    assert VerdictFor(scheduler.tenants, scheduler.workers, scheduler.config, SMALL) == AdmitNow;
    answer := scheduler.Admit(SMALL);
  }

  /** A request id that was charged is admitted again, but its completion is refused. */
  method ReusedId() returns (first: Answer, charged: bool, second: Answer, again: bool)
    ensures first.Decided? && first.decision.verdict == AdmitNow && charged
    ensures second.Decided? && second.decision.verdict == AdmitNow && !again
  {
    hide Scheduler.Valid;
    var scheduler := new Scheduler(Config(1, 1, 1, 1));
    var known := scheduler.RegisterTenant(1, ROOMY);
    var ready := scheduler.RegisterWorker(1, 1, PLAIN);
    ghost var tenant := Tenant(ROOMY, 0, 0, 0, 0, 0, 0);
    first := AdmitAlone(scheduler, tenant);
    charged := scheduler.Complete(1, 1, 1);
    second := AdmitAlone(scheduler, Served(Entered(tenant, SMALL, false), false, 1, 1));
    again := scheduler.Complete(1, 1, 1);
  }
}
