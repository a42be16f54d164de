/** How long a lease lasts and who may act on it, over every run of calls that read a clock going forward. */
module LeaseTimes {
  import opened Leases

  /** What can happen to a page: it is leased again, it gets a new generation, or its manifest changes. */
  datatype Event = Leased | MovedOn | Rewritten

  predicate Is(e: Event, s: State, c: Command, key: PageKey) {
    match e
    case Leased => Accepts(s, c) && c.Page() == key && !c.Publish?
    case MovedOn => Supersedes(s, c, key)
    case Rewritten => Accepts(s, c) && c.Page() == key && (c.Publish? || c.Transfer?)
  }

  /** Some call of the run does that to the page. */
  ghost predicate Happens(e: Event, s: State, commands: seq<Command>, duration: nat, fill: Fill, key: PageKey) {
    exists i :: 0 <= i < |commands| && Is(e, Run(s, commands[..i], duration, fill), commands[i], key)
  }

  lemma HappensNext(e: Event, s: State, commands: seq<Command>, duration: nat, fill: Fill, key: PageKey)
    requires commands != []
    ensures var n := |commands| - 1;
            Happens(e, s, commands, duration, fill, key) <==>
            Happens(e, s, commands[..n], duration, fill, key)
            || Is(e, Run(s, commands[..n], duration, fill), commands[n], key)
  {
    hide Run, Is;
    var n := |commands| - 1;
    forall i | 0 <= i < n
      ensures Is(e, Run(s, commands[..n][..i], duration, fill), commands[..n][i], key)
         <==> Is(e, Run(s, commands[..i], duration, fill), commands[i], key)
    {
      assert commands[..n][..i] == commands[..i];
    }
    if Happens(e, s, commands[..n], duration, fill, key) {
      var i :| 0 <= i < n && Is(e, Run(s, commands[..n][..i], duration, fill), commands[..n][i], key);
      assert Is(e, Run(s, commands[..i], duration, fill), commands[i], key);
    }
    if i :| 0 <= i < |commands| && Is(e, Run(s, commands[..i], duration, fill), commands[i], key) {
      if i < n {
        assert Is(e, Run(s, commands[..n][..i], duration, fill), commands[..n][i], key);
      }
    }
  }

  // ---- time -----------------------------------------------------------------------------------------

  lemma GrantExpires(s: State, c: Command, clock: nat, duration: nat, fill: Fill, key: PageKey)
    requires Is(Leased, s, c, key) && ReadsForward(c, clock)
    ensures var r := Step(s, c, duration, fill);
            key in r.leases && r.leases[key].expires == ClockAfter(c, clock) + duration
  {
  }

  /** No call moves the end of a lease before the given time, once it is a lease duration behind the clock at most. */
  lemma LastsStep(s: State, c: Command, clock: nat, duration: nat, fill: Fill, key: PageKey, until: nat)
    requires ReadsForward(c, clock) && until <= clock + duration
    requires key in s.leases && until <= s.leases[key].expires
    ensures var r := Step(s, c, duration, fill); key in r.leases && until <= r.leases[key].expires
    ensures clock <= ClockAfter(c, clock)
  {
  }

  lemma {:induction false} LastsRun(s: State, commands: seq<Command>, start: nat, duration: nat, fill: Fill,
                                    key: PageKey, until: nat)
    requires Clocked(commands, start) && until <= start + duration
    requires key in s.leases && until <= s.leases[key].expires
    ensures var r := Run(s, commands, duration, fill); key in r.leases && until <= r.leases[key].expires
    ensures start <= Clock(commands, start)
  {
    hide Step;
    if commands != [] {
      var init := commands[..|commands| - 1];
      LastsRun(s, init, start, duration, fill, key, until);
      LastsStep(Run(s, init, duration, fill), commands[|commands| - 1], Clock(init, start), duration, fill, key, until);
    }
  }

  /** Main result: for a lease duration after a call that was answered with a lease, no acquire of that page is
      accepted, whatever else is called in between. */
  lemma NotTakenEarly(s: State, c: Command, clock: nat, commands: seq<Command>, duration: nat, fill: Fill, key: PageKey,
                      worker: nat, now: nat, later: nat)
    requires Is(Leased, s, c, key) && ReadsForward(c, clock) && Clocked(commands, ClockAfter(c, clock))
    requires now < ClockAfter(c, clock) + duration
    ensures !Accepts(Run(Step(s, c, duration, fill), commands, duration, fill), Acquire(key, worker, now, later))
  {
    hide Step, Run;
    var until := ClockAfter(c, clock) + duration;
    GrantExpires(s, c, clock, duration, fill, key);
    LastsRun(Step(s, c, duration, fill), commands, ClockAfter(c, clock), duration, fill, key, until);
  }

  lemma SameLeaseStep(s: State, c: Command, duration: nat, fill: Fill, key: PageKey)
    requires !Is(Leased, s, c, key)
    ensures key in s.leases <==> key in Step(s, c, duration, fill).leases
    ensures key in s.leases ==> Step(s, c, duration, fill).leases[key] == s.leases[key]
  {
  }

  lemma {:induction false} SameLeaseRun(s: State, commands: seq<Command>, duration: nat, fill: Fill, key: PageKey)
    requires !Happens(Leased, s, commands, duration, fill, key)
    ensures key in s.leases <==> key in Run(s, commands, duration, fill).leases
    ensures key in s.leases ==> Run(s, commands, duration, fill).leases[key] == s.leases[key]
  {
    hide Step, Is, Happens;
    if commands != [] {
      var n := |commands| - 1;
      HappensNext(Leased, s, commands, duration, fill, key);
      SameLeaseRun(s, commands[..n], duration, fill, key);
      SameLeaseStep(Run(s, commands[..n], duration, fill), commands[n], duration, fill, key);
    }
  }

  /** Main result: left alone, a lease ends exactly a lease duration after the call that was answered with it: an
      acquire is accepted from then on and not before. */
  lemma FreeExactlyThen(s: State, c: Command, clock: nat, commands: seq<Command>, duration: nat, fill: Fill,
                        key: PageKey, worker: nat, now: nat, later: nat)
    requires Is(Leased, s, c, key) && ReadsForward(c, clock) && worker != 0
    requires !Happens(Leased, Step(s, c, duration, fill), commands, duration, fill, key)
    ensures Accepts(Run(Step(s, c, duration, fill), commands, duration, fill), Acquire(key, worker, now, later))
       <==> now >= ClockAfter(c, clock) + duration
  {
    hide Step, Run, Happens, Is;
    GrantExpires(s, c, clock, duration, fill, key);
    SameLeaseRun(Step(s, c, duration, fill), commands, duration, fill, key);
  }

  // ---- who may act on it ------------------------------------------------------------------------------

  /** The generation has moved on exactly if some call superseded it; otherwise the token is the same. */
  lemma {:induction false} GenerationOver(s: State, commands: seq<Command>, duration: nat, fill: Fill, key: PageKey)
    requires key in s.leases && GenerationOf(s, key) > 0
    ensures var r := Run(s, commands, duration, fill);
            && key in r.leases && GenerationOf(s, key) <= GenerationOf(r, key)
            && (GenerationOf(r, key) == GenerationOf(s, key) <==> !Happens(MovedOn, s, commands, duration, fill, key))
            && (!Happens(MovedOn, s, commands, duration, fill, key) ==> r.leases[key].token == s.leases[key].token)
  {
    hide Step, Supersedes, Happens;
    if commands == [] {
      NothingHappens(s, duration, fill, key);
    } else {
      var n := |commands| - 1;
      GenerationOver(s, commands[..n], duration, fill, key);
      HappensNext(MovedOn, s, commands, duration, fill, key);
      GenerationStep(Run(s, commands[..n], duration, fill), commands[n], duration, fill, key);
      StillLeased(Run(s, commands[..n], duration, fill), commands[n], duration, fill, key);
    }
  }

  lemma NothingHappens(s: State, duration: nat, fill: Fill, key: PageKey)
    ensures forall e :: !Happens(e, s, [], duration, fill, key)
  {
  }

  lemma StillLeased(s: State, c: Command, duration: nat, fill: Fill, key: PageKey)
    requires key in s.leases
    ensures key in Step(s, c, duration, fill).leases
  {
  }

  /** Main result: of all leases of a generation, exactly the one that was granted is honoured, by renew, by transfer
      and by publish, and exactly until the page moves on. */
  lemma HonouredExactly(s: State, c: Command, commands: seq<Command>, duration: nat, fill: Fill, key: PageKey,
                        shown: Lease, worker: nat, now: nat, m: Manifest)
    requires Is(MovedOn, s, c, key)
    requires shown.generation == Step(s, c, duration, fill).leases[key].generation
    requires m.page == key && m.lease == shown
    ensures var granted := Step(s, c, duration, fill);
            var r := Run(granted, commands, duration, fill);
            var honoured := shown.token == granted.leases[key].token
                         && !Happens(MovedOn, granted, commands, duration, fill, key);
            && (Accepts(r, Renew(key, shown, now)) <==> honoured)
            && (Accepts(r, Transfer(key, shown, worker, now)) <==> honoured && worker != 0)
            && (Accepts(r, Publish(m)) <==> honoured && m.payloadBytes > 0 && m.checksum > 0 && m.replicaCount > 0)
  {
    hide Step, Run, Happens;
    GrantNew(s, c, duration, fill, key);
    GenerationOver(Step(s, c, duration, fill), commands, duration, fill, key);
  }

  lemma GrantNew(s: State, c: Command, duration: nat, fill: Fill, key: PageKey)
    requires Is(MovedOn, s, c, key)
    ensures var r := Step(s, c, duration, fill);
            && key in r.leases && GenerationOf(r, key) == GenerationOf(s, key) + 1
            && r.leases[key].owner == c.worker && r.leases[key].token == fill(key, c.worker, GenerationOf(s, key) + 1)
  {
  }

  // ---- manifests --------------------------------------------------------------------------------------

  lemma ManifestStep(s: State, c: Command, duration: nat, fill: Fill, key: PageKey)
    requires !Is(Rewritten, s, c, key)
    ensures key in s.pages <==> key in Step(s, c, duration, fill).pages
    ensures key in s.pages ==> Step(s, c, duration, fill).pages[key] == s.pages[key]
  {
  }

  lemma {:induction false} ManifestRun(s: State, commands: seq<Command>, duration: nat, fill: Fill, key: PageKey)
    requires !Happens(Rewritten, s, commands, duration, fill, key)
    ensures key in s.pages <==> key in Run(s, commands, duration, fill).pages
    ensures key in s.pages ==> Run(s, commands, duration, fill).pages[key] == s.pages[key]
  {
    hide Step, Is, Happens;
    if commands != [] {
      var n := |commands| - 1;
      HappensNext(Rewritten, s, commands, duration, fill, key);
      ManifestRun(s, commands[..n], duration, fill, key);
      ManifestStep(Run(s, commands[..n], duration, fill), commands[n], duration, fill, key);
    }
  }

  /** A published manifest stays as it was published until the page is published or handed on again; handing on changes
      nothing but the lease in it. */
  lemma ManifestStays(s: State, m: Manifest, commands: seq<Command>, duration: nat, fill: Fill, presented: Lease,
                      worker: nat, now: nat)
    requires Accepts(s, Publish(m))
    requires !Happens(Rewritten, Step(s, Publish(m), duration, fill), commands, duration, fill, m.page)
    ensures var r := Run(Step(s, Publish(m), duration, fill), commands, duration, fill);
            var t := Transfer(m.page, presented, worker, now);
            && m.page in r.pages && r.pages[m.page] == m
            && (Accepts(r, t) ==> var after := Step(r, t, duration, fill);
                  m.page in after.pages && m.page in after.leases
                  && after.pages[m.page] == m.(lease := after.leases[m.page]))
  {
    hide Run, Happens;
    ManifestRun(Step(s, Publish(m), duration, fill), commands, duration, fill, m.page);
  }
}
