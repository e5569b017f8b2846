// The guarantees of the schema readiness cache, and the one it does not give.

module SchemaProbeResults {
  import opened Options
  import opened SchemaProbe
  import opened SchemaProbeProofs

  // In every interleaving at most one thread reflects, and it holds the lock.
  lemma SingleFlight(ttl: int, actions: seq<Action>, t: nat, u: nat)
    requires Run(ttl, actions).Some?
    requires PcOf(Run(ttl, actions).value, t).Reflecting? && PcOf(Run(ttl, actions).value, u).Reflecting?
    ensures t == u && Run(ttl, actions).value.lock == Some(t)
  {
    RunInv(ttl, actions);
    var s := Run(ttl, actions).value;
    assert Holds(PcOf(s, t)) && Holds(PcOf(s, u));
  }

  // With no invalidation in between, a reflection starts at least the TTL after
  // the stamp of every earlier one.
  lemma ReflectionsAreSpaced(ttl: int, actions: seq<Action>, i: nat, j: nat)
    requires Run(ttl, actions).Some?
    requires var log := Run(ttl, actions).value.log;
             i < j < |log| && log[i].Stamped? && log[j].Started? && !InvalidatedBetween(log, i, j)
    ensures var log := Run(ttl, actions).value.log; log[j].time - log[i].time >= ttl
  {
    RunInv(ttl, actions);
  }

  // Every list returned was computed by the call itself or was in the cache at
  // some instant of the call.
  lemma ResultsWereCached(ttl: int, actions: seq<Action>, r: Return)
    requires Run(ttl, actions).Some? && r in Run(ttl, actions).value.results
    ensures r.Computed? || WasCached(Run(ttl, actions).value, r.entry, r.since)
  {
    RunInv(ttl, actions);
  }

  // How old a cached result was when its call read the clock: the time since
  // its own stamp, once that store is stamped.
  ghost predicate Younger(s: Probe, r: Return, ttl: int)
    requires r.Cached?
  {
    r.entry.gen in s.stampTimes ==> r.now - s.stampTimes[r.entry.gen] < ttl
  }

  // A result is younger than the TTL unless a newer store was stamped between
  // the two unlocked reads.
  lemma UntornResultsAreFresh(ttl: int, actions: seq<Action>, r: Return)
    requires Run(ttl, actions).Some? && r in Run(ttl, actions).value.results && r.Cached?
    requires r.stamp.gen <= r.entry.gen
    ensures Younger(Run(ttl, actions).value, r, ttl)
  {
    hide Run, LockOk, CacheOk, LogOk, ThreadOk, WasCached;
    RunInv(ttl, actions);
    var s := Run(ttl, actions).value;
    assert ReturnOk(ttl, s, r);
  }

  // ------------------------------------------------------- calls that do not overlap

  // No thread but `t` is inside a call that holds the lock or is midway through
  // its reads with an outdated copy.
  ghost predicate Alone(s: Probe, t: nat, from: nat)
  {
    && (s.lock == None || s.lock == Some(t))
    && (PcOf(s, t).FastAt? ==> PcOf(s, t).seen == s.issues)
    && from <= |s.results|
    && forall i :: from <= i < |s.results| && s.results[i].Cached? ==> s.results[i].stamp.gen == s.results[i].entry.gen
  }

  predicate OnlyMoves(t: nat, actions: seq<Action>)
  {
    forall i :: 0 <= i < |actions| ==> actions[i].Tick? || actions[i].thread == t
  }

  lemma AloneStep(ttl: int, s: Probe, t: nat, from: nat, a: Action)
    requires Inv(ttl, s) && Alone(s, t, from) && Step(ttl, s, a).Some? && (a.Tick? || a.thread == t)
    ensures Alone(Step(ttl, s, a).value, t, from)
  {
    hide StampsOk, LogOk, ReturnOk;
    assert ThreadOk(ttl, s, PcOf(s, t));
    assert Holds(PcOf(s, t)) <==> s.lock == Some(t);
  }

  lemma {:induction false} AloneRun(ttl: int, before: seq<Action>, t: nat, alone: seq<Action>)
    requires Run(ttl, before + alone).Some? && OnlyMoves(t, alone)
    requires Run(ttl, before).Some? && Run(ttl, before).value.lock == None && PcOf(Run(ttl, before).value, t).Idle?
    ensures Alone(Run(ttl, before + alone).value, t, |Run(ttl, before).value.results|)
    decreases |alone|
  {
    if alone == [] {
      assert before + alone == before;
    } else {
      var init := alone[..|alone| - 1];
      assert (before + alone)[..|before + alone| - 1] == before + init;
      AloneRun(ttl, before, t, init);
      RunInv(ttl, before + init);
      hide Step, Inv;
      AloneStep(ttl, Run(ttl, before + init).value, t, |Run(ttl, before).value.results|, alone[|alone| - 1]);
    }
  }

  // Calls of one thread that no other thread's steps overlap return lists
  // younger than the TTL.
  lemma CallsAloneAreFresh(ttl: int, before: seq<Action>, t: nat, alone: seq<Action>, i: nat)
    requires Run(ttl, before + alone).Some? && OnlyMoves(t, alone)
    requires Run(ttl, before).Some? && Run(ttl, before).value.lock == None && PcOf(Run(ttl, before).value, t).Idle?
    requires |Run(ttl, before).value.results| <= i < |Run(ttl, before + alone).value.results|
    requires Run(ttl, before + alone).value.results[i].Cached?
    ensures Younger(Run(ttl, before + alone).value, Run(ttl, before + alone).value.results[i], ttl)
  {
    AloneRun(ttl, before, t, alone);
    UntornResultsAreFresh(ttl, before + alone, Run(ttl, before + alone).value.results[i]);
  }

  // -------------------------------------------------------------- torn reads

  // Only these threads call.
  predicate Within(threads: set<nat>, actions: seq<Action>)
  {
    forall i :: 0 <= i < |actions| ==> actions[i].Tick? || actions[i].thread in threads
  }

  lemma Go(ttl: int, threads: set<nat>, actions: seq<Action>, s: Probe, a: Action)
    requires Run(ttl, actions) == Some(s) && Within(threads, actions) && (a.Tick? || a.thread in threads)
    ensures Run(ttl, actions + [a]) == Step(ttl, s, a) && Within(threads, actions + [a])
  {
    assert (actions + [a])[..|actions|] == actions;
  }

  // Thread `t` takes its next step.
  lemma Move(ttl: int, threads: set<nat>, actions: seq<Action>, s: Probe, t: nat)
    returns (actions': seq<Action>, s': Probe)
    requires Run(ttl, actions) == Some(s) && Within(threads, actions) && t in threads && StepThread(ttl, s, t).Some?
    ensures Run(ttl, actions') == Some(s') && Within(threads, actions') && s' == StepThread(ttl, s, t).value
  {
    Go(ttl, threads, actions, s, Advance(t));
    actions', s' := actions + [Advance(t)], StepThread(ttl, s, t).value;
  }

  // A whole call of thread `t` that finds the cache stale and refills it.
  lemma Refresh(ttl: int, threads: set<nat>, actions: seq<Action>, s: Probe, t: nat, list: seq<string>)
    returns (actions': seq<Action>, s': Probe)
    requires Run(ttl, actions) == Some(s) && Within(threads, actions) && t in threads
    requires s.lock == None && PcOf(s, t).Idle? && !FreshEnough(ttl, s.clock, s.issues, s.at)
    ensures Run(ttl, actions') == Some(s') && Within(threads, actions')
    ensures s'.issues == Some(Entry(list, s.nextGen)) && s'.at == Some(Stamp(s.clock, s.nextGen))
    ensures s'.clock == s.clock && s'.lock == None && s'.nextGen == s.nextGen + 1
    ensures s'.stampTimes == s.stampTimes[s.nextGen := s.clock]
    ensures PcOf(s', t) == Idle && forall u: nat :: u != t ==> PcOf(s', u) == PcOf(s, u)
  {
    hide Run, Within;
    actions', s' := ToReflecting(ttl, threads, actions, s, t);
    Go(ttl, threads, actions', s', ReflectionEnds(t, list));
    actions', s' := actions' + [ReflectionEnds(t, list)], Step(ttl, s', ReflectionEnds(t, list)).value;
    actions', s' := Move(ttl, threads, actions', s', t);
    actions', s' := Move(ttl, threads, actions', s', t);
    actions', s' := Move(ttl, threads, actions', s', t);
    actions', s' := Move(ttl, threads, actions', s', t);
  }

  lemma ToReflecting(ttl: int, threads: set<nat>, actions: seq<Action>, s: Probe, t: nat)
    returns (actions': seq<Action>, s': Probe)
    requires Run(ttl, actions) == Some(s) && Within(threads, actions) && t in threads
    requires s.lock == None && PcOf(s, t).Idle? && !FreshEnough(ttl, s.clock, s.issues, s.at)
    ensures Run(ttl, actions') == Some(s') && Within(threads, actions') && PcOf(s', t).Reflecting?
    ensures s'.(threads := s.threads, log := s.log, lock := None) == s
    ensures forall u: nat :: u != t ==> PcOf(s', u) == PcOf(s, u)
  {
    hide Run, Within;
    Go(ttl, threads, actions, s, Call(t));
    actions', s' := actions + [Call(t)], Step(ttl, s, Call(t)).value;
    actions', s' := Move(ttl, threads, actions', s', t);
    actions', s' := Move(ttl, threads, actions', s', t);
    actions', s' := Move(ttl, threads, actions', s', t);
    actions', s' := Move(ttl, threads, actions', s', t);
    actions', s' := Move(ttl, threads, actions', s', t);
    actions', s' := Move(ttl, threads, actions', s', t);
  }

  // A run of these threads returns a cached list of at least this age.
  ghost predicate ReturnsAged(ttl: int, threads: set<nat>, age: int)
  {
    exists actions, r ::
      && Within(threads, actions) && Run(ttl, actions).Some? && r in Run(ttl, actions).value.results
      && r.Cached? && r.entry.gen in Run(ttl, actions).value.stampTimes
      && r.now - Run(ttl, actions).value.stampTimes[r.entry.gen] >= age
  }

  // When a refresh of another thread falls between the two unlocked reads, the
  // old list passes the check of the new stamp: under any TTL, any two threads
  // can make a list of any age be returned.
  lemma TornReadHasNoAgeBound(ttl: int, threads: set<nat>, x: nat, y: nat, age: nat)
    requires ttl > 0 && x in threads && y in threads && x != y
    ensures ReturnsAged(ttl, threads, age)
  {
    assert Run(ttl, []) == Some(START) && Within(threads, []);
    hide Run, Within;
    var actions, s := Refresh(ttl, threads, [], START, x, []);
    assert PcOf(s, y) == PcOf(START, y) == Idle;
    Go(ttl, threads, actions, s, Tick(ttl + age));
    actions, s := actions + [Tick(ttl + age)], Step(ttl, s, Tick(ttl + age)).value;
    Go(ttl, threads, actions, s, Call(y));
    actions, s := actions + [Call(y)], Step(ttl, s, Call(y)).value;
    actions, s := Move(ttl, threads, actions, s, y);
    var seen := s.issues.value;
    actions, s := Refresh(ttl, threads, actions, s, x, []);
    actions, s := Move(ttl, threads, actions, s, y);
    var r := s.results[|s.results| - 1];
    assert r in s.results && r.Cached? && r.entry == seen && seen.gen == 0;
    assert s.stampTimes[0] == 0;
  }

  // Every cached list that a run of these threads returns is younger than the TTL.
  ghost predicate AlwaysYounger(ttl: int, threads: set<nat>)
  {
    forall actions, r ::
      Within(threads, actions) && Run(ttl, actions).Some? && r in Run(ttl, actions).value.results && r.Cached? ==>
        Younger(Run(ttl, actions).value, r, ttl)
  }

  // The TTL bounds the age of what calls return exactly if at most one thread
  // calls; with two or more nothing bounds it.
  lemma FreshnessExactly(ttl: int, threads: set<nat>)
    requires ttl > 0
    ensures AlwaysYounger(ttl, threads) <==> |threads| <= 1
    ensures (forall age: nat :: ReturnsAged(ttl, threads, age)) <==> |threads| >= 2
  {
    if |threads| <= 1 {
      LoneThreadIsFresh(ttl, threads);
      assert !ReturnsAged(ttl, threads, ttl);
    } else {
      var x :| x in threads;
      assert |threads - {x}| == |threads| - 1;
      var y :| y in threads - {x};
      forall age: nat
        ensures ReturnsAged(ttl, threads, age)
      {
        TornReadHasNoAgeBound(ttl, threads, x, y, age);
      }
      assert ReturnsAged(ttl, threads, ttl);
    }
  }

  lemma LoneThreadIsFresh(ttl: int, threads: set<nat>)
    requires |threads| <= 1
    ensures AlwaysYounger(ttl, threads)
  {
    var t: nat := 0;
    if threads != {} {
      t :| t in threads;
      assert |threads - {t}| == 0 && threads == {t};
    }
    forall actions, r |
        Within(threads, actions) && Run(ttl, actions).Some? && r in Run(ttl, actions).value.results && r.Cached?
      ensures Younger(Run(ttl, actions).value, r, ttl)
    {
      var i :| 0 <= i < |Run(ttl, actions).value.results| && Run(ttl, actions).value.results[i] == r;
      assert [] + actions == actions && OnlyMoves(t, actions);
      CallsAloneAreFresh(ttl, [], t, actions, i);
    }
  }
}
