/** The values a production scheduler keeps, and how its per-tenant books follow its live requests. */
module SchedulerModel {
  import opened Arithmetic
  import opened Common

  datatype WorkerState = Healthy | Degraded | Draining | Quarantined | Lost

  datatype Circuit = Closed | Open | HalfOpen

  datatype Policy = Policy(weight: nat, maxConcurrent: nat, maxQueued: nat, promptTokens: nat, completionTokens: nat,
                           gpuBudget: nat)

  datatype Tenant = Tenant(policy: Policy, active: nat, queued: nat, promptTokens: nat, completionTokens: nat,
                           gpuMicros: nat, virtualRuntime: nat)

  /** The model mask as the set of its bits. */
  datatype Worker = Worker(state: WorkerState, circuit: Circuit, models: set<nat>, prefillRate: nat, decodeRate: nat,
                           activeSequences: nat, queueDepth: nat)

  datatype Spec = Spec(requestId: nat, tenantId: nat, modelId: nat, priority: nat, promptTokens: nat,
                       maxCompletionTokens: nat, cachedPrefixTokens: nat, hasDeadline: bool)

  datatype Request = Request(spec: Spec, workerId: nat, queued: bool)

  datatype Config = Config(maxTenants: nat, maxWorkers: nat, maxQueued: nat, maxActive: nat)

  datatype Verdict = AdmitNow | AdmitQueue | RejectOverload | RejectQuota | RejectModel

  datatype Decision = Decision(verdict: Verdict, workerId: nat, prefillMicros: nat, decodeMicros: nat, kvBytes: nat,
                               queuePosition: nat, fairness: nat)

  datatype Answer = Refused | Decided(decision: Decision)

  function Rejected(verdict: Verdict): Answer {
    Decided(Decision(verdict, 0, 0, 0, 0, 0, 0))
  }

  // ---- totals -------------------------------------------------------------------------------------

  lemma SomeKey<V>(m: map<nat, V>)
    requires m != map[]
    ensures exists k :: k in m
  {
    assert (forall k :: k !in m) ==> m == map[];
  }

  ghost function Total(m: map<nat, nat>): nat
    decreases |m|
  {
    if m == map[] then 0
    else
      SomeKey(m);
      var k :| k in m;
      Total(m - {k}) + m[k]
  }

  lemma {:induction false} TotalWithout(m: map<nat, nat>, k: nat)
    requires k in m
    ensures Total(m) == Total(m - {k}) + m[k]
    decreases |m|
  {
    var first :| first in m && Total(m) == Total(m - {first}) + m[first];
    if first != k {
      TotalWithout(m - {first}, k);
      TotalWithout(m - {k}, first);
      assert m - {first} - {k} == m - {k} - {first};
    }
  }

  lemma TotalUpdate(m: map<nat, nat>, k: nat, v: nat)
    ensures Total(m[k := v]) == Total(m) - (if k in m then m[k] else 0) + v
  {
    TotalWithout(m[k := v], k);
    assert m[k := v] - {k} == m - {k};
    if k in m {
      TotalWithout(m, k);
    } else {
      assert m - {k} == m;
    }
  }

  function Restrict(m: map<nat, nat>, keys: set<nat>): map<nat, nat> {
    map k | k in m && k in keys :: m[k]
  }

  /** A total splits over any set of keys. */
  lemma {:induction false} TotalSplit(m: map<nat, nat>, keys: set<nat>)
    ensures Total(m) == Total(Restrict(m, keys)) + Total(m - keys)
    decreases |m|
  {
    hide Total, Restrict;
    if m == map[] {
      RestrictNone(keys);
      assert m - keys == map[] - keys;
    } else {
      SomeKey(m);
      var k :| k in m;
      TotalSplit(m - {k}, keys);
      TotalWithout(m, k);
      RestrictWithout(m, keys, k);
      if k in keys {
        TotalWithout(Restrict(m, keys), k);
      } else {
        TotalWithout(m - keys, k);
      }
    }
  }

  lemma RestrictNone(keys: set<nat>)
    ensures Restrict(map[], keys) == map[] && Total(map[] - keys) == 0 && Total(map[]) == 0
  {
  }

  lemma RestrictWithout(m: map<nat, nat>, keys: set<nat>, k: nat)
    requires k in m
    ensures k in keys ==> k in Restrict(m, keys) && Restrict(m, keys)[k] == m[k]
    ensures k in keys ==> Restrict(m, keys) - {k} == Restrict(m - {k}, keys) && m - {k} - keys == m - keys
    ensures k !in keys ==> Restrict(m - {k}, keys) == Restrict(m, keys) && m - {k} - keys == m - keys - {k}
  {
    assert k in keys ==> m - {k} - keys == m - keys;
    assert k !in keys ==> m - {k} - keys == m - keys - {k};
  }

  function ActiveOf(tenants: map<nat, Tenant>): map<nat, nat> {
    map t | t in tenants :: tenants[t].active
  }

  function QueuedOf(tenants: map<nat, Tenant>): map<nat, nat> {
    map t | t in tenants :: tenants[t].queued
  }

  function GpuOf(tenants: map<nat, Tenant>): map<nat, nat> {
    map t | t in tenants :: tenants[t].gpuMicros
  }

  lemma LoadUpdate(tenants: map<nat, Tenant>, t: nat, next: Tenant)
    ensures ActiveOf(tenants[t := next]) == ActiveOf(tenants)[t := next.active]
    ensures QueuedOf(tenants[t := next]) == QueuedOf(tenants)[t := next.queued]
    ensures Total(ActiveOf(tenants[t := next]))
         == Total(ActiveOf(tenants)) - (if t in tenants then tenants[t].active else 0) + next.active
    ensures Total(QueuedOf(tenants[t := next]))
         == Total(QueuedOf(tenants)) - (if t in tenants then tenants[t].queued else 0) + next.queued
  {
    hide Total;
    assert ActiveOf(tenants[t := next]) == ActiveOf(tenants)[t := next.active];
    assert QueuedOf(tenants[t := next]) == QueuedOf(tenants)[t := next.queued];
    TotalUpdate(ActiveOf(tenants), t, next.active);
    TotalUpdate(QueuedOf(tenants), t, next.queued);
  }

  // ---- live requests --------------------------------------------------------------------------------

  function LiveOf(requests: map<nat, Request>, t: nat, queued: bool): set<nat> {
    set r | r in requests && requests[r].spec.tenantId == t && requests[r].queued == queued
  }

  /** Each tenant's counts are the numbers of its live requests of each kind. */
  ghost predicate Booked(tenants: map<nat, Tenant>, requests: map<nat, Request>) {
    && (forall t :: t in tenants ==> tenants[t].active == |LiveOf(requests, t, false)|)
    && (forall t :: t in tenants ==> tenants[t].queued == |LiveOf(requests, t, true)|)
  }

  /** A tenant with one more, or one fewer, request of a kind. */
  function Plus(tenant: Tenant, queued: bool): Tenant {
    if queued then tenant.(queued := tenant.queued + 1) else tenant.(active := tenant.active + 1)
  }

  /** The tenant after one of its requests was admitted or queued. */
  function Entered(tenant: Tenant, spec: Spec, queued: bool): Tenant {
    Plus(tenant, queued).(promptTokens := tenant.promptTokens + spec.promptTokens,
                          virtualRuntime := tenant.virtualRuntime + spec.promptTokens + spec.maxCompletionTokens)
  }

  /** One fewer, as far as there is one. */
  function Fewer(tenant: Tenant, queued: bool): Tenant {
    if queued then (if tenant.queued > 0 then tenant.(queued := tenant.queued - 1) else tenant)
    else if tenant.active > 0 then tenant.(active := tenant.active - 1) else tenant
  }

  /** The tenant after one of its requests completed. */
  function Served(tenant: Tenant, queued: bool, generatedTokens: nat, gpuMicros: nat): Tenant {
    var left := Fewer(tenant, queued);
    left.(completionTokens := left.completionTokens + generatedTokens, gpuMicros := left.gpuMicros + gpuMicros)
  }

  lemma LiveMembers(requests: map<nat, Request>, id: nat, r: Request, t: nat, queued: bool)
    requires id !in requests
    ensures id !in LiveOf(requests, t, queued)
    ensures forall k :: k in LiveOf(requests[id := r], t, queued)
                   <==> k in LiveOf(requests, t, queued) || (k == id && t == r.spec.tenantId && queued == r.queued)
  {
  }

  lemma LiveAdd(requests: map<nat, Request>, id: nat, r: Request, t: nat, queued: bool)
    requires id !in requests
    ensures |LiveOf(requests[id := r], t, queued)|
         == |LiveOf(requests, t, queued)| + (if t == r.spec.tenantId && queued == r.queued then 1 else 0)
  {
    hide LiveOf;
    LiveMembers(requests, id, r, t, queued);
    if t == r.spec.tenantId && queued == r.queued {
      assert LiveOf(requests[id := r], t, queued) == LiveOf(requests, t, queued) + {id};
    } else {
      assert LiveOf(requests[id := r], t, queued) == LiveOf(requests, t, queued);
    }
  }

  lemma LiveRemove(requests: map<nat, Request>, id: nat, t: nat, queued: bool)
    requires id in requests
    ensures |LiveOf(requests, t, queued)| == |LiveOf(requests - {id}, t, queued)|
         + (if t == requests[id].spec.tenantId && queued == requests[id].queued then 1 else 0)
  {
    LiveAdd(requests - {id}, id, requests[id], t, queued);
    assert (requests - {id})[id := requests[id]] == requests;
  }

  lemma BookedAdd(tenants: map<nat, Tenant>, requests: map<nat, Request>, id: nat, r: Request, next: Tenant)
    requires Booked(tenants, requests) && id !in requests && r.spec.tenantId in tenants
    requires next.active == Plus(tenants[r.spec.tenantId], r.queued).active
    requires next.queued == Plus(tenants[r.spec.tenantId], r.queued).queued
    ensures Booked(tenants[r.spec.tenantId := next], requests[id := r])
  {
    hide LiveOf;
    forall t | t in tenants
      ensures |LiveOf(requests[id := r], t, false)|
           == |LiveOf(requests, t, false)| + (if t == r.spec.tenantId && !r.queued then 1 else 0)
      ensures |LiveOf(requests[id := r], t, true)|
           == |LiveOf(requests, t, true)| + (if t == r.spec.tenantId && r.queued then 1 else 0)
    {
      LiveAdd(requests, id, r, t, false);
      LiveAdd(requests, id, r, t, true);
    }
  }

  /** The counts are positive where there is a live request, and follow its removal. */
  lemma BookedRemove(tenants: map<nat, Tenant>, requests: map<nat, Request>, id: nat, next: Tenant)
    requires Booked(tenants, requests) && id in requests && requests[id].spec.tenantId in tenants
    requires next.active == Fewer(tenants[requests[id].spec.tenantId], requests[id].queued).active
    requires next.queued == Fewer(tenants[requests[id].spec.tenantId], requests[id].queued).queued
    ensures var tenant := tenants[requests[id].spec.tenantId];
            if requests[id].queued then tenant.queued > 0 else tenant.active > 0
    ensures Booked(tenants[requests[id].spec.tenantId := next], requests - {id})
  {
    hide LiveOf;
    forall t | t in tenants
      ensures |LiveOf(requests, t, false)| == |LiveOf(requests - {id}, t, false)|
           + (if t == requests[id].spec.tenantId && !requests[id].queued then 1 else 0)
      ensures |LiveOf(requests, t, true)| == |LiveOf(requests - {id}, t, true)|
           + (if t == requests[id].spec.tenantId && requests[id].queued then 1 else 0)
    {
      LiveRemove(requests, id, t, false);
      LiveRemove(requests, id, t, true);
    }
  }

  lemma NoLive(requests: map<nat, Request>, t: nat, queued: bool)
    requires forall r :: r in requests ==> requests[r].spec.tenantId != t
    ensures LiveOf(requests, t, queued) == {}
  {
  }

  /** Every live request is keyed by its id, belongs to a tenant and sits on a worker that is not draining. */
  ghost predicate Placed(requests: map<nat, Request>, tenants: map<nat, Tenant>, workers: map<nat, Worker>) {
    && (forall r :: r in requests ==> requests[r].spec.requestId == r && requests[r].spec.tenantId in tenants)
    && (forall r :: r in requests ==> requests[r].workerId in workers && !workers[requests[r].workerId].state.Draining?)
  }

  lemma PlacedAdd(requests: map<nat, Request>, tenants: map<nat, Tenant>, workers: map<nat, Worker>, id: nat,
                  r: Request, next: Tenant)
    requires Placed(requests, tenants, workers) && r.spec.requestId == id && r.spec.tenantId in tenants
    requires r.workerId in workers && !workers[r.workerId].state.Draining?
    ensures Placed(requests[id := r], tenants[r.spec.tenantId := next], workers)
  {
  }

  lemma PlacedTenant(requests: map<nat, Request>, tenants: map<nat, Tenant>, workers: map<nat, Worker>, id: nat)
    requires Placed(requests, tenants, workers) && id in requests
    ensures requests[id].spec.tenantId in tenants
  {
  }

  lemma PlacedRemove(requests: map<nat, Request>, tenants: map<nat, Tenant>, workers: map<nat, Worker>, id: nat,
                     next: Tenant)
    requires Placed(requests, tenants, workers) && id in requests
    ensures Placed(requests - {id}, tenants[requests[id].spec.tenantId := next], workers)
  {
  }

  /** A new tenant has no live request, no charge and no share of the caps. */
  lemma NewTenant(tenants: map<nat, Tenant>, requests: map<nat, Request>, workers: map<nat, Worker>, config: Config,
                  t: nat, next: Tenant)
    requires Booked(tenants, requests) && Placed(requests, tenants, workers) && Capped(tenants, config) && t !in tenants
    requires next.active == 0 && next.queued == 0 && next.promptTokens == 0
    ensures Booked(tenants[t := next], requests) && Placed(requests, tenants[t := next], workers)
    ensures Capped(tenants[t := next], config)
  {
    hide Total, ActiveOf, QueuedOf, LiveOf;
    NoLive(requests, t, false);
    NoLive(requests, t, true);
    LoadUpdate(tenants, t, next);
  }

  ghost predicate Capped(tenants: map<nat, Tenant>, config: Config) {
    && (forall t :: t in tenants ==> tenants[t].active <= tenants[t].policy.maxConcurrent)
    && (forall t :: t in tenants ==> tenants[t].queued <= tenants[t].policy.maxQueued)
    && (forall t :: t in tenants ==> tenants[t].promptTokens <= tenants[t].policy.promptTokens)
    && Total(ActiveOf(tenants)) <= config.maxActive && Total(QueuedOf(tenants)) <= config.maxQueued
  }

  lemma CappedTenant(tenants: map<nat, Tenant>, config: Config, t: nat)
    requires Capped(tenants, config) && t in tenants
    ensures tenants[t].active <= tenants[t].policy.maxConcurrent && tenants[t].queued <= tenants[t].policy.maxQueued
    ensures tenants[t].promptTokens <= tenants[t].policy.promptTokens
  {
  }

  lemma CappedUpdate(tenants: map<nat, Tenant>, config: Config, t: nat, next: Tenant)
    requires Capped(tenants, config) && t in tenants
    requires next.active <= next.policy.maxConcurrent && next.queued <= next.policy.maxQueued
    requires next.promptTokens <= next.policy.promptTokens
    requires next.active <= tenants[t].active
         || Total(ActiveOf(tenants)) - tenants[t].active + next.active <= config.maxActive
    requires next.queued <= tenants[t].queued
         || Total(QueuedOf(tenants)) - tenants[t].queued + next.queued <= config.maxQueued
    ensures Capped(tenants[t := next], config)
  {
    hide Total, ActiveOf, QueuedOf;
    LoadUpdate(tenants, t, next);
  }

  lemma OneLess<V>(m: map<nat, V>, k: nat)
    requires k in m
    ensures |m - {k}| == |m| - 1
  {
    assert (m - {k}).Keys == m.Keys - {k};
  }

  lemma OneMore<V>(m: map<nat, V>, k: nat, v: V)
    ensures |m[k := v]| == |m| + (if k in m then 0 else 1)
  {
    assert m[k := v].Keys == m.Keys + {k};
  }

  /** A live request that leaves takes one from its tenant's count, and nothing else moves. */
  lemma Settle(tenants: map<nat, Tenant>, requests: map<nat, Request>, workers: map<nat, Worker>, config: Config,
               id: nat, next: Tenant)
    requires Booked(tenants, requests) && Placed(requests, tenants, workers)
    requires Capped(tenants, config) && id in requests
    ensures requests[id].spec.tenantId in tenants
    ensures var t := requests[id].spec.tenantId;
            next == Fewer(tenants[t], requests[id].queued).(
              completionTokens := next.completionTokens, gpuMicros := next.gpuMicros)
            ==> Booked(tenants[t := next], requests - {id}) && Placed(requests - {id}, tenants[t := next], workers)
                && Capped(tenants[t := next], config)
  {
    hide Booked, Placed, Capped;
    PlacedTenant(requests, tenants, workers, id);
    var t := requests[id].spec.tenantId;
    if next == Fewer(tenants[t], requests[id].queued).(
                 completionTokens := next.completionTokens, gpuMicros := next.gpuMicros) {
      BookedRemove(tenants, requests, id, next);
      PlacedRemove(requests, tenants, workers, id, next);
      CappedTenant(tenants, config, t);
      CappedUpdate(tenants, config, t, next);
    }
  }

  // ---- charges ----------------------------------------------------------------------------------------

  /** The usage records one tenant paid for. */
  function PaidBy(usage: map<nat, nat>, payer: map<nat, nat>, t: nat): map<nat, nat> {
    map r | r in usage && r in payer && payer[r] == t :: usage[r]
  }

  /** Each tenant's GPU time is the sum of the records it paid for. */
  ghost predicate Charged(tenants: map<nat, Tenant>, usage: map<nat, nat>, payer: map<nat, nat>) {
    && usage.Keys == payer.Keys
    && (forall r :: r in payer ==> payer[r] in tenants)
    && (forall t :: t in tenants ==> tenants[t].gpuMicros == Total(PaidBy(usage, payer, t)))
  }

  lemma ChargedSame(tenants: map<nat, Tenant>, usage: map<nat, nat>, payer: map<nat, nat>, t: nat, next: Tenant)
    requires Charged(tenants, usage, payer) && t in tenants && next.gpuMicros == tenants[t].gpuMicros
    ensures Charged(tenants[t := next], usage, payer)
  {
    hide Total, PaidBy;
  }

  lemma PaidAdd(usage: map<nat, nat>, payer: map<nat, nat>, id: nat, t: nat, micros: nat, u: nat)
    requires usage.Keys == payer.Keys && id !in usage
    ensures Total(PaidBy(usage[id := micros], payer[id := t], u))
         == Total(PaidBy(usage, payer, u)) + (if u == t then micros else 0)
  {
    hide Total;
    if u == t {
      assert PaidBy(usage[id := micros], payer[id := t], u) == PaidBy(usage, payer, u)[id := micros];
      TotalUpdate(PaidBy(usage, payer, u), id, micros);
    } else {
      assert PaidBy(usage[id := micros], payer[id := t], u) == PaidBy(usage, payer, u);
    }
  }

  lemma ChargedAdd(tenants: map<nat, Tenant>, usage: map<nat, nat>, payer: map<nat, nat>, id: nat, t: nat, micros: nat,
                   next: Tenant)
    requires Charged(tenants, usage, payer) && id !in usage && t in tenants
    requires next.gpuMicros == tenants[t].gpuMicros + micros
    ensures Charged(tenants[t := next], usage[id := micros], payer[id := t])
  {
    hide Total, PaidBy;
    forall u | u in tenants {
      PaidAdd(usage, payer, id, t, micros, u);
    }
  }

  lemma NothingPaid(tenants: map<nat, Tenant>, usage: map<nat, nat>, payer: map<nat, nat>, t: nat, next: Tenant)
    requires Charged(tenants, usage, payer) && t !in tenants && next.gpuMicros == 0
    ensures Charged(tenants[t := next], usage, payer)
  {
    hide Total;
    assert PaidBy(usage, payer, t) == map[];
    NothingInTotal();
  }

  lemma NothingInTotal()
    ensures Total(map[]) == 0
  {
  }

  lemma {:induction false} ChargesAddUp(tenants: map<nat, Tenant>, usage: map<nat, nat>, payer: map<nat, nat>)
    requires usage.Keys == payer.Keys
    requires forall t :: t in tenants ==> tenants[t].gpuMicros == Total(PaidBy(usage, payer, t))
    requires forall r :: r in payer ==> payer[r] in tenants
    ensures Total(GpuOf(tenants)) == Total(usage)
    decreases |tenants|
  {
    hide Total, PaidBy, Restrict;
    NothingInTotal();
    if tenants == map[] {
      assert usage.Keys == {} && GpuOf(tenants) == map[];
      assert usage == map[];
    } else {
      SomeKey(tenants);
      var t :| t in tenants;
      var mine := PaidBy(usage, payer, t).Keys;
      TotalSplit(usage, mine);
      OthersPaid(tenants, usage, payer, t);
      ChargesAddUp(tenants - {t}, usage - mine, payer - mine);
      TotalWithout(GpuOf(tenants), t);
      assert GpuOf(tenants) - {t} == GpuOf(tenants - {t});
    }
  }

  lemma OthersPaid(tenants: map<nat, Tenant>, usage: map<nat, nat>, payer: map<nat, nat>, t: nat)
    requires usage.Keys == payer.Keys && t in tenants
    ensures var mine := PaidBy(usage, payer, t).Keys;
            && Restrict(usage, mine) == PaidBy(usage, payer, t)
            && (usage - mine).Keys == (payer - mine).Keys
            && (forall r :: r in payer - mine ==> payer[r] != t)
            && (forall u :: u in tenants && u != t ==> PaidBy(usage - mine, payer - mine, u) == PaidBy(usage, payer, u))
  {
  }

  /** Main result: all the GPU time tenants are charged is all the GPU time recorded, each record once. */
  lemma GpuTimeConserved(tenants: map<nat, Tenant>, usage: map<nat, nat>, payer: map<nat, nat>)
    requires Charged(tenants, usage, payer)
    ensures Total(GpuOf(tenants)) == Total(usage)
  {
    hide Total, PaidBy;
    ChargesAddUp(tenants, usage, payer);
  }

  // ---- choosing a worker --------------------------------------------------------------------------------

  function AtLeast1(x: nat): nat {
    if x > 1 then x else 1
  }

  function EstimatePrefill(spec: Spec, worker: Worker): nat {
    var uncached :=
      if spec.promptTokens > spec.cachedPrefixTokens then spec.promptTokens - spec.cachedPrefixTokens else 0;
    uncached * 1000000 / AtLeast1(worker.prefillRate)
  }

  function EstimateDecode(spec: Spec, worker: Worker): nat {
    spec.maxCompletionTokens * 1000000 / AtLeast1(worker.decodeRate)
  }

  function Fairness(tenant: Tenant, spec: Spec): nat {
    var share := tenant.virtualRuntime / AtLeast1(tenant.policy.weight);
    if share > spec.priority * 1000 then share - spec.priority * 1000 else 0
  }

  predicate Eligible(worker: Worker, spec: Spec) {
    && (worker.state.Healthy? || worker.state.Degraded?) && !worker.circuit.Open?
    && spec.modelId < 64 && spec.modelId in worker.models
  }

  /** The load is added in 32 bits, the whole score in 64. */
  function Score(tenant: Tenant, spec: Spec, worker: Worker): nat {
    var deadline := if spec.hasDeadline then EstimatePrefill(spec, worker) + EstimateDecode(spec, worker) else 0;
    (deadline + (worker.queueDepth + worker.activeSequences) % UINT32 * 1000 + Fairness(tenant, spec)) % UINT64
  }

  /** The worker with the least score, and among those the least id. */
  ghost predicate Best(workers: map<nat, Worker>, tenant: Tenant, spec: Spec, w: nat) {
    && w in workers && Eligible(workers[w], spec)
    && forall v :: v in workers && Eligible(workers[v], spec) ==>
      Score(tenant, spec, workers[w]) < Score(tenant, spec, workers[v])
      || (Score(tenant, spec, workers[w]) == Score(tenant, spec, workers[v]) && w <= v)
  }

  /** The choice does not depend on the order in which the workers are visited. */
  lemma BestUnique(workers: map<nat, Worker>, tenant: Tenant, spec: Spec, v: nat, w: nat)
    requires Best(workers, tenant, spec, v) && Best(workers, tenant, spec, w)
    ensures v == w
  {
  }

  /** What a request costs on a worker: a thousand for every sequence it has, and with a deadline the microseconds of
      prefilling the uncached tokens and decoding. */
  function Cost(spec: Spec, worker: Worker): nat {
    1000 * ((worker.queueDepth + worker.activeSequences) % UINT32)
    + (if !spec.hasDeadline then 0
       else Quotient(1000000 * Uncached(spec), worker.prefillRate)
            + Quotient(1000000 * spec.maxCompletionTokens, worker.decodeRate))
  }

  function Uncached(spec: Spec): nat {
    if spec.cachedPrefixTokens < spec.promptTokens then spec.promptTokens - spec.cachedPrefixTokens else 0
  }

  /** How often the rate, at least one, fits into x. */
  function Quotient(x: nat, rate: nat): nat {
    x / AtLeast1(rate)
  }

  lemma QuotientBound(x: nat, rate: nat)
    ensures Quotient(x, rate) <= x
    ensures Quotient(x, rate) * AtLeast1(rate) <= x < Quotient(x, rate) * AtLeast1(rate) + AtLeast1(rate)
  {
    var q, d := x / AtLeast1(rate), AtLeast1(rate);
    assert x == d * q + x % d;
    assert (d - 1) * q >= 0;
  }

  lemma EstimatesAre(spec: Spec, worker: Worker)
    ensures EstimatePrefill(spec, worker) == Quotient(1000000 * Uncached(spec), worker.prefillRate)
    ensures EstimatePrefill(spec, worker) <= 1000000 * spec.promptTokens
    ensures EstimateDecode(spec, worker) == Quotient(1000000 * spec.maxCompletionTokens, worker.decodeRate)
    ensures EstimateDecode(spec, worker) <= 1000000 * spec.maxCompletionTokens
  {
    QuotientBound(1000000 * Uncached(spec), worker.prefillRate);
    QuotientBound(1000000 * spec.maxCompletionTokens, worker.decodeRate);
  }

  lemma FairnessBound(tenant: Tenant, spec: Spec)
    ensures Fairness(tenant, spec) <= tenant.virtualRuntime
  {
    QuotientBound(tenant.virtualRuntime, tenant.policy.weight);
  }

  lemma ScoreIsCost(tenant: Tenant, spec: Spec, worker: Worker)
    requires tenant.virtualRuntime < UINT64 / 2 && spec.promptTokens < UINT32 && spec.maxCompletionTokens < UINT32
    ensures Score(tenant, spec, worker) == Cost(spec, worker) + Fairness(tenant, spec)
  {
    hide Quotient, EstimatePrefill, EstimateDecode, Fairness;
    EstimatesAre(spec, worker);
    FairnessBound(tenant, spec);
  }

  /** Main result: the worker chosen is the cheapest for the request, by least id among equals; what the tenant has
      used before plays no part in the choice. */
  lemma CheapestWorker(workers: map<nat, Worker>, tenant: Tenant, spec: Spec, w: nat)
    requires Best(workers, tenant, spec, w)
    requires tenant.virtualRuntime < UINT64 / 2 && spec.promptTokens < UINT32 && spec.maxCompletionTokens < UINT32
    ensures forall v :: v in workers && Eligible(workers[v], spec) ==>
      Cost(spec, workers[w]) < Cost(spec, workers[v]) || (Cost(spec, workers[w]) == Cost(spec, workers[v]) && w <= v)
  {
    hide Score, Cost, Eligible;
    forall v | v in workers
      ensures Score(tenant, spec, workers[v]) == Cost(spec, workers[v]) + Fairness(tenant, spec)
    {
      ScoreIsCost(tenant, spec, workers[v]);
    }
  }

  /** A tenant's fairness exceeds x exactly when it has used more than its weight in (1000 priority + x) shares. */
  lemma FairnessExactly(tenant: Tenant, spec: Spec, x: nat)
    ensures Fairness(tenant, spec) > x
       <==> tenant.virtualRuntime >= AtLeast1(tenant.policy.weight) * (1000 * spec.priority + x + 1)
  {
    QuotientAtLeast(tenant.virtualRuntime, AtLeast1(tenant.policy.weight), 1000 * spec.priority + x + 1);
  }

  method SelectWorker(workers: map<nat, Worker>, tenant: Tenant, spec: Spec) returns (found: bool, selected: nat)
    ensures found <==> exists w :: w in workers && Eligible(workers[w], spec)
    ensures found ==> Best(workers, tenant, spec, selected)
  {
    hide Score, Eligible;
    found, selected := false, 0;
    var todo := workers.Keys;
    while todo != {}
      invariant todo <= workers.Keys
      invariant found ==> selected in workers && Eligible(workers[selected], spec)
      invariant forall v :: v in workers && v !in todo && Eligible(workers[v], spec) ==>
        found && (Score(tenant, spec, workers[selected]) < Score(tenant, spec, workers[v])
                  || (Score(tenant, spec, workers[selected]) == Score(tenant, spec, workers[v]) && selected <= v))
      decreases |todo|
    {
      var w :| w in todo;
      todo := todo - {w};
      if Eligible(workers[w], spec) {
        var score := Score(tenant, spec, workers[w]);
        if !found || score < Score(tenant, spec, workers[selected])
           || (score == Score(tenant, spec, workers[selected]) && w < selected) {
          found, selected := true, w;
        }
      }
    }
  }

  /** The tenant's budgets leave no room for the request. */
  predicate OverQuota(tenant: Tenant, spec: Spec) {
    || tenant.promptTokens + spec.promptTokens > tenant.policy.promptTokens
    || tenant.completionTokens + spec.maxCompletionTokens > tenant.policy.completionTokens
    || tenant.gpuMicros >= tenant.policy.gpuBudget
  }

  ghost predicate MustQueue(tenants: map<nat, Tenant>, config: Config, t: nat)
    requires t in tenants
  {
    Total(ActiveOf(tenants)) >= config.maxActive || tenants[t].active >= tenants[t].policy.maxConcurrent
  }

  ghost predicate QueueFull(tenants: map<nat, Tenant>, config: Config, t: nat)
    requires t in tenants
  {
    Total(QueuedOf(tenants)) >= config.maxQueued || tenants[t].queued >= tenants[t].policy.maxQueued
  }

  /** The verdict the policy asks for. */
  ghost function VerdictFor(tenants: map<nat, Tenant>, workers: map<nat, Worker>, config: Config, spec: Spec): Verdict
    requires spec.tenantId in tenants
  {
    if OverQuota(tenants[spec.tenantId], spec) then RejectQuota
    else if forall w :: w in workers ==> !Eligible(workers[w], spec) then RejectModel
    else if !MustQueue(tenants, config, spec.tenantId) then AdmitNow
    else if QueueFull(tenants, config, spec.tenantId) then RejectOverload
    else AdmitQueue
  }

  method SumLoads(tenants: map<nat, Tenant>) returns (active: nat, queued: nat)
    ensures active == Total(ActiveOf(tenants)) && queued == Total(QueuedOf(tenants))
  {
    hide Total;
    active, queued := 0, 0;
    var todo := tenants;
    while todo != map[]
      invariant todo.Keys <= tenants.Keys && forall t :: t in todo ==> todo[t] == tenants[t]
      invariant active + Total(ActiveOf(todo)) == Total(ActiveOf(tenants))
      invariant queued + Total(QueuedOf(todo)) == Total(QueuedOf(tenants))
      decreases |todo|
    {
      SomeKey(todo);
      var t :| t in todo;
      TotalWithout(ActiveOf(todo), t);
      TotalWithout(QueuedOf(todo), t);
      assert ActiveOf(todo) - {t} == ActiveOf(todo - {t});
      assert QueuedOf(todo) - {t} == QueuedOf(todo - {t});
      active := active + todo[t].active;
      queued := queued + todo[t].queued;
      todo := todo - {t};
    }
    NothingInTotal();
    assert ActiveOf(map[]) == map[] && QueuedOf(map[]) == map[];
  }
}
