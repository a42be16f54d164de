/** Page leases: one writer per page at a time, fenced by generations, over every run of the cluster runtime. */
module Leases {

  datatype PageKey = PageKey(model: nat, tokenizer: nat, tokens: nat, rope: nat, profile: nat,
                             layer: nat, page: nat, pageSize: nat, codecVersion: nat)

  type Token = nat

  /** How a token is mixed from a page, an owner and a generation: nothing is assumed of it. */
  type Fill = (PageKey, nat, nat) -> Token

  datatype Lease = Lease(owner: nat, generation: nat, expires: nat, token: Token)

  datatype Manifest = Manifest(page: PageKey, lease: Lease, payloadBytes: nat, checksum: nat, replicaCount: nat)

  datatype State = State(leases: map<PageKey, Lease>, pages: map<PageKey, Manifest>)

  /** A call, with what it reads from the clock. */
  datatype Command =
    | Acquire(key: PageKey, worker: nat, now: nat, later: nat)
    | Renew(key: PageKey, presented: Lease, now: nat)
    | Transfer(key: PageKey, presented: Lease, worker: nat, now: nat)
    | Publish(manifest: Manifest)
  {
    function Page(): PageKey {
      if Publish? then manifest.page else key
    }
  }

  /** The presented lease is the current one, as far as the runtime looks. */
  predicate Current(s: State, key: PageKey, presented: Lease) {
    key in s.leases && s.leases[key].generation == presented.generation && s.leases[key].token == presented.token
  }

  predicate Accepts(s: State, c: Command) {
    match c
    case Acquire(key, worker, now, _) => worker != 0 && (key !in s.leases || s.leases[key].expires <= now)
    case Renew(key, presented, _) => Current(s, key, presented)
    case Transfer(key, presented, worker, _) => worker != 0 && Current(s, key, presented)
    case Publish(m) => m.payloadBytes != 0 && m.checksum != 0 && m.replicaCount != 0 && Current(s, m.page, m.lease)
  }

  function GenerationOf(s: State, key: PageKey): nat {
    if key in s.leases then s.leases[key].generation else 0
  }

  function Granted(key: PageKey, worker: nat, generation: nat, expires: nat, fill: Fill): Lease {
    Lease(worker, generation, expires, fill(key, worker, generation))
  }

  /** What an accepted call does to the leases and the manifests. */
  function Step(s: State, c: Command, duration: nat, fill: Fill): State {
    if !Accepts(s, c) then s
    else
      match c
      case Acquire(key, worker, _, later) =>
        s.(leases := s.leases[key := Granted(key, worker, GenerationOf(s, key) + 1, later + duration, fill)])
      case Renew(key, _, now) => s.(leases := s.leases[key := s.leases[key].(expires := now + duration)])
      case Transfer(key, _, worker, now) =>
        var lease := Granted(key, worker, GenerationOf(s, key) + 1, now + duration, fill);
        State(s.leases[key := lease], if key in s.pages then s.pages[key := s.pages[key].(lease := lease)] else s.pages)
      case Publish(m) => s.(pages := s.pages[m.page := m])
  }

  /** Every lease is as it was granted, and no manifest is ahead of its page's lease. */
  ghost predicate Sound(s: State, fill: Fill) {
    && (forall k :: k in s.leases ==> s.leases[k].generation > 0 && s.leases[k].owner != 0)
    && (forall k :: k in s.leases ==> s.leases[k].token == fill(k, s.leases[k].owner, s.leases[k].generation))
    && (forall k :: k in s.pages ==> k in s.leases && 0 < s.pages[k].lease.generation <= s.leases[k].generation)
    && (forall k :: k in s.pages ==> s.pages[k].page == k)
  }

  // ---- the runtime --------------------------------------------------------------------------------

  class Cluster {
    const duration: nat
    const fill: Fill
    var pages: map<PageKey, Manifest>
    var leases: map<PageKey, Lease>
    var acquires: nat
    var renews: nat
    var transfers: nat
    var published: nat
    var staleRejections: nat

    ghost predicate Valid()
      reads this
    {
      Sound(State(leases, pages), fill)
    }

    constructor (leaseMillis: nat, mix: Fill)
      ensures Valid() && leases == map[] && pages == map[] && duration == leaseMillis && fill == mix
    {
      duration, fill := leaseMillis, mix;
      pages, leases := map[], map[];
      acquires, renews, transfers, published, staleRejections := 0, 0, 0, 0, 0;
    }

    twostate predicate Follows(c: Command, ok: bool)
      reads this
    {
      && ok == Accepts(State(old(leases), old(pages)), c)
      && State(leases, pages) == Step(State(old(leases), old(pages)), c, duration, fill)
    }

    /** Granted when the page was never leased or its lease has run out. */
    method AcquireLease(key: PageKey, worker: nat, now: nat, later: nat) returns (ok: bool, lease: Lease)
      requires Valid()
      modifies this`leases, this`acquires
      ensures Valid() && Follows(Acquire(key, worker, now, later), ok)
      ensures ok ==> lease == leases[key]
      ensures acquires == old(acquires) + (if ok then 1 else 0)
    {
      hide Sound;
      StepSound(State(leases, pages), Acquire(key, worker, now, later), duration, fill);
      lease := Lease(0, 0, 0, 0);
      if worker == 0 {
        return false, lease;
      }
      if key in leases && leases[key].expires > now {
        return false, lease;
      }
      var generation := if key !in leases then 1 else leases[key].generation + 1;
      lease := Lease(worker, generation, later + duration, fill(key, worker, generation));
      leases := leases[key := lease];
      acquires := acquires + 1;
      ok := true;
    }

    /** Extends the current lease, even one that has run out but was not taken over. */
    method RenewLease(key: PageKey, current: Lease, now: nat) returns (ok: bool, lease: Lease)
      requires Valid()
      modifies this`leases, this`renews, this`staleRejections
      ensures Valid() && Follows(Renew(key, current, now), ok)
      ensures ok ==> lease == leases[key]
      ensures staleRejections == old(staleRejections) + (if ok then 0 else 1)
      ensures renews == old(renews) + (if ok then 1 else 0)
    {
      hide Sound;
      StepSound(State(leases, pages), Renew(key, current, now), duration, fill);
      lease := Lease(0, 0, 0, 0);
      if key !in leases || leases[key].generation != current.generation || leases[key].token != current.token {
        staleRejections := staleRejections + 1;
        return false, lease;
      }
      leases := leases[key := leases[key].(expires := now + duration)];
      lease := leases[key];
      renews := renews + 1;
      ok := true;
    }

    /** Hands the page to another worker under a new generation, and rewrites the lease in its manifest. */
    method TransferLease(key: PageKey, current: Lease, worker: nat, now: nat) returns (ok: bool, lease: Lease)
      requires Valid()
      modifies this`leases, this`pages, this`transfers, this`staleRejections
      ensures Valid() && Follows(Transfer(key, current, worker, now), ok)
      ensures ok ==> lease == leases[key] && (key in pages ==> pages[key].lease == lease)
      ensures transfers == old(transfers) + (if ok then 1 else 0)
      ensures staleRejections == old(staleRejections) + (if worker != 0 && !ok then 1 else 0)
    {
      hide Sound;
      StepSound(State(leases, pages), Transfer(key, current, worker, now), duration, fill);
      lease := Lease(0, 0, 0, 0);
      if worker == 0 {
        return false, lease;
      }
      if key !in leases || leases[key].generation != current.generation || leases[key].token != current.token {
        staleRejections := staleRejections + 1;
        return false, lease;
      }
      var generation := leases[key].generation + 1;
      lease := Lease(worker, generation, now + duration, fill(key, worker, generation));
      leases := leases[key := lease];
      if key in pages {
        pages := pages[key := pages[key].(lease := lease)];
      }
      transfers := transfers + 1;
      ok := true;
    }

    method PublishManifest(manifest: Manifest) returns (ok: bool)
      requires Valid()
      modifies this`pages, this`published, this`staleRejections
      ensures Valid() && Follows(Publish(manifest), ok)
      ensures published == old(published) + (if ok then 1 else 0)
      ensures staleRejections == old(staleRejections)
        + (if !ok && manifest.payloadBytes != 0 && manifest.checksum != 0 && manifest.replicaCount != 0 then 1 else 0)
    {
      hide Sound;
      StepSound(State(leases, pages), Publish(manifest), duration, fill);
      if manifest.payloadBytes == 0 || manifest.checksum == 0 || manifest.replicaCount == 0 {
        return false;
      }
      var key := manifest.page;
      if key !in leases || leases[key].generation != manifest.lease.generation
        || leases[key].token != manifest.lease.token {
        staleRejections := staleRejections + 1;
        return false;
      }
      pages := pages[key := manifest];
      published := published + 1;
      ok := true;
    }
  }

  // ---- runs ---------------------------------------------------------------------------------------

  function Run(s: State, commands: seq<Command>, duration: nat, fill: Fill): State {
    if commands == [] then s
    else Step(Run(s, commands[..|commands| - 1], duration, fill), commands[|commands| - 1], duration, fill)
  }

  lemma RunNext(s: State, commands: seq<Command>, i: nat, duration: nat, fill: Fill)
    requires i < |commands|
    ensures Run(s, commands[..i + 1], duration, fill)
         == Step(Run(s, commands[..i], duration, fill), commands[i], duration, fill)
  {
    assert commands[..i + 1][..i] == commands[..i];
  }

  lemma StepSound(s: State, c: Command, duration: nat, fill: Fill)
    requires Sound(s, fill)
    ensures Sound(Step(s, c, duration, fill), fill)
  {
  }

  /** In every reachable state the leases are sound; in particular no published manifest is ahead of its lease. */
  lemma {:induction false} RunSound(s: State, commands: seq<Command>, duration: nat, fill: Fill)
    requires Sound(s, fill)
    ensures Sound(Run(s, commands, duration, fill), fill)
  {
    hide Sound, Step;
    if commands != [] {
      RunSound(s, commands[..|commands| - 1], duration, fill);
      StepSound(Run(s, commands[..|commands| - 1], duration, fill), commands[|commands| - 1], duration, fill);
    }
  }

  /** A call gives a page a new generation exactly when it is an accepted acquire or transfer of that page. */
  predicate Supersedes(s: State, c: Command, key: PageKey) {
    Accepts(s, c) && c.Page() == key && (c.Acquire? || c.Transfer?)
  }

  lemma GenerationStep(s: State, c: Command, duration: nat, fill: Fill, key: PageKey)
    ensures GenerationOf(Step(s, c, duration, fill), key)
         == GenerationOf(s, key) + (if Supersedes(s, c, key) then 1 else 0)
    ensures !Supersedes(s, c, key) && key in s.leases ==>
      var before, after := s.leases[key], Step(s, c, duration, fill).leases[key];
      after.owner == before.owner && after.token == before.token
  {
  }

  /** Over any run a page's generation never decreases. */
  lemma {:induction false} GenerationMonotone(s: State, commands: seq<Command>, i: nat, j: nat, duration: nat,
                                              fill: Fill,
                                             key: PageKey)
    requires i <= j <= |commands|
    ensures GenerationOf(Run(s, commands[..i], duration, fill), key)
         <= GenerationOf(Run(s, commands[..j], duration, fill), key)
    decreases j - i
  {
    hide Step, Run;
    if i < j {
      GenerationMonotone(s, commands, i, j - 1, duration, fill, key);
      RunNext(s, commands, j - 1, duration, fill);
      GenerationStep(Run(s, commands[..j - 1], duration, fill), commands[j - 1], duration, fill, key);
    }
  }

  /** Main result: a generation of a page belongs to one owner, with one token, for ever. */
  lemma {:induction false} OneOwnerPerGeneration(s: State, commands: seq<Command>, i: nat, j: nat, duration: nat,
                                                 fill: Fill,
                                                key: PageKey)
    requires i <= j <= |commands| && Sound(s, fill)
    requires key in Run(s, commands[..i], duration, fill).leases
    requires GenerationOf(Run(s, commands[..i], duration, fill), key)
         == GenerationOf(Run(s, commands[..j], duration, fill), key)
    ensures key in Run(s, commands[..j], duration, fill).leases
    ensures var before := Run(s, commands[..i], duration, fill).leases[key];
            var after := Run(s, commands[..j], duration, fill).leases[key];
            before.owner == after.owner && before.token == after.token
    decreases j - i
  {
    hide Step, Run, Sound, Supersedes;
    RunSound(s, commands[..i], duration, fill);
    SoundGeneration(Run(s, commands[..i], duration, fill), fill, key);
    if i < j {
      GenerationMonotone(s, commands, i, j - 1, duration, fill, key);
      RunNext(s, commands, j - 1, duration, fill);
      GenerationStep(Run(s, commands[..j - 1], duration, fill), commands[j - 1], duration, fill, key);
      OneOwnerPerGeneration(s, commands, i, j - 1, duration, fill, key);
    }
  }

  lemma SoundGeneration(s: State, fill: Fill, key: PageKey)
    requires Sound(s, fill)
    ensures GenerationOf(s, key) > 0 <==> key in s.leases
  {
  }

  /** Main result: once a page has moved past a generation, a lease of that generation is never accepted again:
      not renewed, not transferred, and nothing is published under it. */
  lemma FencedForever(s: State, commands: seq<Command>, i: nat, j: nat, duration: nat, fill: Fill, key: PageKey,
                      stale: Lease)
    requires i <= j <= |commands| && stale.generation < GenerationOf(Run(s, commands[..i], duration, fill), key)
    ensures forall now :: !Accepts(Run(s, commands[..j], duration, fill), Renew(key, stale, now))
    ensures forall worker, now :: !Accepts(Run(s, commands[..j], duration, fill), Transfer(key, stale, worker, now))
    ensures forall m: Manifest :: m.page == key && m.lease == stale ==>
      !Accepts(Run(s, commands[..j], duration, fill), Publish(m))
  {
    hide Step, Run;
    GenerationMonotone(s, commands, i, j, duration, fill, key);
  }

  // ---- time ---------------------------------------------------------------------------------------

  /** The clock after a call that read it, given what it showed before. */
  function ClockAfter(c: Command, clock: nat): nat {
    match c
    case Acquire(_, _, _, later) => later
    case Renew(_, _, now) => now
    case Transfer(_, _, _, now) => now
    case Publish(_) => clock
  }

  predicate ReadsForward(c: Command, clock: nat) {
    match c
    case Acquire(_, _, now, later) => clock <= now <= later
    case Renew(_, _, now) => clock <= now
    case Transfer(_, _, _, now) => clock <= now
    case Publish(_) => true
  }

  function Clock(commands: seq<Command>, start: nat): nat {
    if commands == [] then start
    else ClockAfter(commands[|commands| - 1], Clock(commands[..|commands| - 1], start))
  }

  /** The clock never goes back during the run. */
  predicate Clocked(commands: seq<Command>, start: nat) {
    commands == [] || (
      && Clocked(commands[..|commands| - 1], start)
      && ReadsForward(commands[|commands| - 1], Clock(commands[..|commands| - 1], start)))
  }

  /** No lease runs longer than the lease duration from now. */
  ghost predicate Bounded(s: State, clock: nat, duration: nat) {
    forall k :: k in s.leases ==> s.leases[k].expires <= clock + duration
  }

  /** An accepted transfer of the page happens somewhere in the run. */
  ghost predicate Transferred(s: State, commands: seq<Command>, duration: nat, fill: Fill, key: PageKey) {
    exists i :: 0 <= i < |commands| && commands[i].Transfer? && commands[i].key == key
             && Accepts(Run(s, commands[..i], duration, fill), commands[i])
  }

  lemma BoundedStep(s: State, c: Command, clock: nat, duration: nat, fill: Fill)
    requires Bounded(s, clock, duration) && ReadsForward(c, clock)
    ensures Bounded(Step(s, c, duration, fill), ClockAfter(c, clock), duration) && clock <= ClockAfter(c, clock)
  {
  }

  lemma {:induction false} RunBounded(s: State, commands: seq<Command>, start: nat, duration: nat, fill: Fill)
    requires Bounded(s, start, duration) && Clocked(commands, start)
    ensures Bounded(Run(s, commands, duration, fill), Clock(commands, start), duration)
  {
    hide Bounded, Step;
    if commands != [] {
      RunBounded(s, commands[..|commands| - 1], start, duration, fill);
      BoundedStep(Run(s, commands[..|commands| - 1], duration, fill), commands[|commands| - 1],
                  Clock(commands[..|commands| - 1], start), duration, fill);
    }
  }

  /** One call cannot take an unexpired lease from its holder, or shorten it, unless it is a transfer. */
  lemma HoldStep(s: State, c: Command, clock: nat, duration: nat, fill: Fill, key: PageKey, until: nat)
    requires Bounded(s, clock, duration) && ReadsForward(c, clock) && ClockAfter(c, clock) < until
    requires key in s.leases && until <= s.leases[key].expires
    requires !(c.Transfer? && c.key == key && Accepts(s, c))
    ensures var r := Step(s, c, duration, fill);
            && key in r.leases && until <= r.leases[key].expires
            && r.leases[key] == s.leases[key].(expires := r.leases[key].expires)
  {
  }

  lemma TransferredLater(s: State, commands: seq<Command>, i: nat, duration: nat, fill: Fill, key: PageKey)
    requires i <= |commands| && Transferred(s, commands[..i], duration, fill, key)
    ensures Transferred(s, commands, duration, fill, key)
  {
    hide Accepts, Run;
    var j :| 0 <= j < i && commands[..i][j].Transfer? && commands[..i][j].key == key
          && Accepts(Run(s, commands[..i][..j], duration, fill), commands[..i][j]);
    assert commands[..i][..j] == commands[..j];
    assert commands[..i][j] == commands[j];
  }

  lemma TransferredEarlier(s: State, commands: seq<Command>, i: nat, duration: nat, fill: Fill, key: PageKey)
    requires i < |commands| && !Transferred(s, commands, duration, fill, key)
    ensures !Transferred(s, commands[..i], duration, fill, key)
    ensures !(commands[i].Transfer? && commands[i].key == key
              && Accepts(Run(s, commands[..i], duration, fill), commands[i]))
  {
    hide Accepts, Run;
    if Transferred(s, commands[..i], duration, fill, key) {
      TransferredLater(s, commands, i, duration, fill, key);
    }
  }

  /** Main result: until its lease runs out, the holder of a page keeps it, under the same generation, unless the
      lease itself is presented to a transfer. */
  lemma {:induction false} HolderKeepsPage(s: State, commands: seq<Command>, start: nat, duration: nat, fill: Fill,
                                           key: PageKey)
    requires Bounded(s, start, duration) && Clocked(commands, start)
    requires key in s.leases && Clock(commands, start) < s.leases[key].expires
    requires !Transferred(s, commands, duration, fill, key)
    ensures var r := Run(s, commands, duration, fill);
            && key in r.leases && s.leases[key].expires <= r.leases[key].expires
            && r.leases[key] == s.leases[key].(expires := r.leases[key].expires)
  {
    hide Step, Bounded, Transferred, Accepts;
    if commands != [] {
      var n := |commands| - 1;
      RunBounded(s, commands[..n], start, duration, fill);
      TransferredEarlier(s, commands, n, duration, fill, key);
      ClockForward(commands, start);
      HolderKeepsPage(s, commands[..n], start, duration, fill, key);
      HoldStep(Run(s, commands[..n], duration, fill), commands[n], Clock(commands[..n], start), duration, fill, key,
               s.leases[key].expires);
    }
  }

  lemma ClockForward(commands: seq<Command>, start: nat)
    requires Clocked(commands, start) && commands != []
    ensures Clock(commands[..|commands| - 1], start) <= Clock(commands, start)
  {
  }
}
