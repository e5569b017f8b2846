// What the lock of the schema readiness cache gives, in every interleaving.

module SchemaProbeProofs {
  import opened Options
  import opened SchemaProbe

  predicate Holds(pc: Pc)
  {
    !(pc.Idle? || pc.FastIssues? || pc.FastAt? || pc.Waiting? || pc.InvWaiting?)
  }

  // The list store is half done: the list is written, its stamp is not.
  predicate MidStore(pc: Pc)
  {
    pc.Stamping? || pc.StoringAt?
  }

  ghost predicate LockOk(s: Probe)
  {
    forall t: nat :: Holds(PcOf(s, t)) <==> s.lock == Some(t)
  }

  // The list was in the cache at some instant from `since` on.
  ghost predicate WasCached(s: Probe, e: Entry, since: nat)
  {
    exists k :: since <= k < |s.cacheLog| && s.cacheLog[k] == Some(e)
  }

  ghost predicate StampsOk(s: Probe)
  {
    && (forall g :: g in s.stampTimes ==> g < s.nextGen && s.stampTimes[g] <= s.clock)
    && (forall g, h :: g in s.stampTimes && h in s.stampTimes && g < h ==> s.stampTimes[g] <= s.stampTimes[h])
    && (s.issues.Some? ==> s.issues.value.gen < s.nextGen)
    && (s.at.Some? ==> s.at.value.gen in s.stampTimes && s.stampTimes[s.at.value.gen] == s.at.value.time)
  }

  ghost predicate Paired(s: Probe)
  {
    && (s.issues.Some? <==> s.at.Some?)
    && (s.issues.Some? ==> s.issues.value.gen == s.at.value.gen)
  }

  // What the two fields look like, by what the lock holder is doing.
  ghost predicate CacheOk(s: Probe)
  {
    match s.lock
    case None => Paired(s)
    case Some(t) =>
      var pc := PcOf(s, t);
      if MidStore(pc) then s.issues == Some(pc.entry) && pc.entry.gen == s.nextGen - 1 && pc.entry.gen !in s.stampTimes
      else if pc.InvAt? then s.issues == None
      else Paired(s)
  }

  // A cached return was in the cache during its call and passed the check.
  ghost predicate ReturnOk(ttl: int, s: Probe, r: Return)
  {
    match r
    case Computed(_) => true
    case Cached(entry, now, stamp, since) =>
      && WasCached(s, entry, since)
      && now - stamp.time < ttl && now <= s.clock
      && entry.gen < s.nextGen && stamp.gen in s.stampTimes && s.stampTimes[stamp.gen] == stamp.time
  }

  ghost predicate ThreadOk(ttl: int, s: Probe, pc: Pc)
  {
    match pc
    case FastIssues(now, since) => now <= s.clock && since < |s.cacheLog|
    case FastAt(now, seen, since) =>
      now <= s.clock && since < |s.cacheLog|
      && (seen.Some? ==> WasCached(s, seen.value, since) && seen.value.gen < s.nextGen)
    case Waiting(since) => since < |s.cacheLog|
    case SlowClock(since) => since < |s.cacheLog|
    case SlowIssues(now, since) => now <= s.clock && since < |s.cacheLog|
    case SlowAt(now, seen, since) => now <= s.clock && since < |s.cacheLog| && seen == s.issues
    case StoringAt(_, time, _) => time <= s.clock && forall g :: g in s.stampTimes ==> s.stampTimes[g] <= time
    case Releasing(result) => ReturnOk(ttl, s, result) && (result.Cached? ==> result.entry.gen == result.stamp.gen)
    case _ => true
  }

  // No two reflections lie within the TTL unless the cache was invalidated
  // between them.
  ghost predicate InvalidatedBetween(log: seq<Event>, i: int, j: int)
  {
    exists k :: 0 <= i < k < j <= |log| && log[k].Invalidated?
  }

  ghost predicate Spaced(ttl: int, log: seq<Event>)
  {
    forall i, j :: 0 <= i < j < |log| && log[i].Stamped? && log[j].Started? && !InvalidatedBetween(log, i, j)
      ==> log[j].time - log[i].time >= ttl
  }

  // The stamps that no invalidation has undone are no newer than `_cached_at`.
  ghost predicate LogOk(ttl: int, s: Probe)
  {
    && Spaced(ttl, s.log)
    && forall i :: 0 <= i < |s.log| && s.log[i].Stamped? && !InvalidatedBetween(s.log, i, |s.log|)
         ==> s.at.Some? && s.log[i].time <= s.at.value.time
  }

  ghost predicate Inv(ttl: int, s: Probe)
  {
    && LockOk(s) && StampsOk(s) && CacheOk(s) && LogOk(ttl, s)
    && |s.cacheLog| > 0 && s.cacheLog[|s.cacheLog| - 1] == s.issues
    && (forall t: nat :: ThreadOk(ttl, s, PcOf(s, t)))
    && (forall i :: 0 <= i < |s.results| ==> ReturnOk(ttl, s, s.results[i]))
  }

  // -------------------------------------------------------- the cache only grows

  // What every action keeps of the history.
  ghost predicate Grows(s: Probe, s': Probe)
  {
    && s.clock <= s'.clock && s.cacheLog <= s'.cacheLog && s.nextGen <= s'.nextGen && s.results <= s'.results
    && forall g :: g in s.stampTimes ==> g in s'.stampTimes && s'.stampTimes[g] == s.stampTimes[g]
  }

  lemma StepGrows(ttl: int, s: Probe, a: Action)
    requires Inv(ttl, s) && Step(ttl, s, a).Some?
    ensures Grows(s, Step(ttl, s, a).value)
  {
    if a.Advance? && PcOf(s, a.thread).StoringAt? {
      assert s.lock == Some(a.thread);
    }
  }

  lemma WasCachedKept(s: Probe, s': Probe, e: Entry, since: nat)
    requires WasCached(s, e, since) && s.cacheLog <= s'.cacheLog
    ensures WasCached(s', e, since)
  {
    var k :| since <= k < |s.cacheLog| && s.cacheLog[k] == Some(e);
    assert s'.cacheLog[k] == Some(e);
  }

  lemma ReturnKept(ttl: int, s: Probe, s': Probe, r: Return)
    requires ReturnOk(ttl, s, r) && Grows(s, s')
    ensures ReturnOk(ttl, s', r)
  {
    if r.Cached? {
      WasCachedKept(s, s', r.entry, r.since);
    }
  }

  // ------------------------------------------------------- every step keeps Inv

  lemma LockStep(ttl: int, s: Probe, a: Action)
    requires LockOk(s) && Step(ttl, s, a).Some?
    ensures LockOk(Step(ttl, s, a).value)
  {
    var s' := Step(ttl, s, a).value;
    if !a.Tick? {
      var t := a.thread;
      assert Holds(PcOf(s, t)) <==> s.lock == Some(t);
      forall u: nat
        ensures Holds(PcOf(s', u)) <==> s'.lock == Some(u)
      {
        assert Holds(PcOf(s, u)) <==> s.lock == Some(u);
        assert u != t ==> PcOf(s', u) == PcOf(s, u);
      }
    }
  }

  lemma StampsStep(ttl: int, s: Probe, a: Action)
    requires Inv(ttl, s) && Step(ttl, s, a).Some?
    ensures StampsOk(Step(ttl, s, a).value)
  {
    if a.Advance? {
      assert ThreadOk(ttl, s, PcOf(s, a.thread));
      assert Holds(PcOf(s, a.thread)) <==> s.lock == Some(a.thread);
    }
  }

  // A step that writes neither field, nor changes who holds the lock or where
  // the holder is, keeps the fields as they are.
  lemma CacheUnwritten(s: Probe, s': Probe)
    requires CacheOk(s) && s'.issues == s.issues && s'.at == s.at && s'.lock == s.lock
    requires s'.nextGen == s.nextGen && s'.stampTimes == s.stampTimes
    requires s.lock.Some? ==> PcOf(s', s.lock.value) == PcOf(s, s.lock.value)
    ensures CacheOk(s')
  {
  }

  // A thread without the lock writes nothing.
  lemma CacheOutside(ttl: int, s: Probe, t: nat)
    requires LockOk(s) && CacheOk(s) && StepThread(ttl, s, t).Some? && !Holds(PcOf(s, t))
    ensures CacheOk(StepThread(ttl, s, t).value)
  {
    var s' := StepThread(ttl, s, t).value;
    assert Holds(PcOf(s, t)) <==> s.lock == Some(t);
    if s.lock.Some? {
      CacheUnwritten(s, s');
    }
  }

  // The holder on its way to a store, and after it.
  lemma CacheHeld(ttl: int, s: Probe, t: nat)
    requires s.lock == Some(t) && StampsOk(s) && CacheOk(s) && StepThread(ttl, s, t).Some? && Holds(PcOf(s, t))
    ensures CacheOk(StepThread(ttl, s, t).value)
  {
  }

  lemma CacheStep(ttl: int, s: Probe, a: Action)
    requires LockOk(s) && StampsOk(s) && CacheOk(s) && Step(ttl, s, a).Some?
    ensures CacheOk(Step(ttl, s, a).value)
  {
    var s' := Step(ttl, s, a).value;
    if !a.Tick? {
      assert Holds(PcOf(s, a.thread)) <==> s.lock == Some(a.thread);
    }
    match a {
      case Advance(t) =>
        hide StepThread, CacheOk, StampsOk;
        if Holds(PcOf(s, t)) {
          CacheHeld(ttl, s, t);
        } else {
          CacheOutside(ttl, s, t);
        }
      case ReflectionEnds(_, _) =>
      case ReflectionFails(_) =>
      case _ => CacheUnwritten(s, s');
    }
  }

  lemma LogSnoc(ttl: int, log: seq<Event>, e: Event)
    requires Spaced(ttl, log)
    requires e.Started? ==>
               forall i :: 0 <= i < |log| && log[i].Stamped? && !InvalidatedBetween(log, i, |log|)
                 ==> e.time - log[i].time >= ttl
    ensures Spaced(ttl, log + [e])
    ensures forall i, j :: 0 <= i < j <= |log| ==>
              (InvalidatedBetween(log + [e], i, j) <==> InvalidatedBetween(log, i, j))
    ensures forall i :: 0 <= i < |log| && InvalidatedBetween(log, i, |log|) ==>
              InvalidatedBetween(log + [e], i, |log| + 1)
  {
    var longer := log + [e];
    forall i, j | 0 <= i < j <= |log|
      ensures InvalidatedBetween(longer, i, j) <==> InvalidatedBetween(log, i, j)
    {
      if InvalidatedBetween(log, i, j) {
        var k :| 0 <= i < k < j <= |log| && log[k].Invalidated?;
        assert longer[k].Invalidated?;
      }
      if InvalidatedBetween(longer, i, j) {
        var k :| 0 <= i < k < j <= |longer| && longer[k].Invalidated?;
        assert log[k].Invalidated?;
      }
    }
    forall i | 0 <= i < |log| && InvalidatedBetween(log, i, |log|)
      ensures InvalidatedBetween(longer, i, |log| + 1)
    {
      var k :| 0 <= i < k < |log| && log[k].Invalidated?;
      assert longer[k].Invalidated?;
    }
  }

  lemma LogStep(ttl: int, s: Probe, a: Action)
    requires Inv(ttl, s) && Step(ttl, s, a).Some?
    ensures LogOk(ttl, Step(ttl, s, a).value)
  {
    if a.Advance? {
      var t, pc := a.thread, PcOf(s, a.thread);
      assert ThreadOk(ttl, s, pc);
      assert Holds(pc) <==> s.lock == Some(t);
      if pc.SlowAt? && !FreshEnough(ttl, pc.now, pc.seen, s.at) {
        StartedLog(ttl, s);
      } else if pc.StoringAt? {
        StampedLog(ttl, s, Stamp(pc.time, pc.entry.gen), Step(ttl, s, a).value);
      } else if pc.InvAt? {
        InvalidatedLog(ttl, s);
      }
    }
  }

  // A reflection starts only when the stamp, if any, is too old.
  lemma StartedLog(ttl: int, s: Probe)
    requires LogOk(ttl, s) && (s.at.Some? ==> s.clock - s.at.value.time >= ttl)
    ensures LogOk(ttl, s.(log := s.log + [Started(s.clock)]))
  {
    LogSnoc(ttl, s.log, Started(s.clock));
  }

  lemma StampedLog(ttl: int, s: Probe, stamp: Stamp, s': Probe)
    requires LogOk(ttl, s) && (s.at.Some? ==> s.at.value.time <= stamp.time)
    requires s'.log == s.log + [Stamped(stamp.time)] && s'.at == Some(stamp)
    ensures LogOk(ttl, s')
  {
    LogSnoc(ttl, s.log, Stamped(stamp.time));
  }

  lemma InvalidatedLog(ttl: int, s: Probe)
    requires LogOk(ttl, s)
    ensures LogOk(ttl, s.(log := s.log + [Invalidated], at := None))
  {
    LogSnoc(ttl, s.log, Invalidated);
    var longer := s.log + [Invalidated];
    forall i | 0 <= i < |s.log|
      ensures InvalidatedBetween(longer, i, |longer|)
    {
      assert longer[|s.log|].Invalidated?;
    }
  }

  // Only the lock holder changes the cache.
  lemma HolderIsUndisturbed(ttl: int, s: Probe, a: Action, u: nat)
    requires LockOk(s) && Step(ttl, s, a).Some? && (a.Tick? || a.thread != u)
    ensures var s' := Step(ttl, s, a).value;
            && PcOf(s', u) == PcOf(s, u)
            && (Holds(PcOf(s, u)) ==> s'.issues == s.issues && s'.stampTimes == s.stampTimes)
  {
    assert Holds(PcOf(s, u)) <==> s.lock == Some(u);
    if !a.Tick? {
      assert Holds(PcOf(s, a.thread)) <==> s.lock == Some(a.thread);
    }
  }

  // A thread that does not move keeps what it knows.
  lemma OtherThread(ttl: int, s: Probe, a: Action, u: nat)
    requires Inv(ttl, s) && Step(ttl, s, a).Some? && (a.Tick? || a.thread != u)
    ensures PcOf(Step(ttl, s, a).value, u) == PcOf(s, u)
    ensures ThreadOk(ttl, Step(ttl, s, a).value, PcOf(s, u))
  {
    hide Step, CacheOk, LogOk, StampsOk;
    var s', pc := Step(ttl, s, a).value, PcOf(s, u);
    StepGrows(ttl, s, a);
    HolderIsUndisturbed(ttl, s, a, u);
    assert ThreadOk(ttl, s, pc);
    if pc.FastAt? && pc.seen.Some? {
      WasCachedKept(s, s', pc.seen.value, pc.since);
    } else if pc.Releasing? {
      ReturnKept(ttl, s, s', pc.result);
    }
  }

  // The thread that moves learns what its step shows it.
  lemma MovingThread(ttl: int, s: Probe, a: Action)
    requires Inv(ttl, s) && Step(ttl, s, a).Some? && !a.Tick?
    ensures ThreadOk(ttl, Step(ttl, s, a).value, PcOf(Step(ttl, s, a).value, a.thread))
  {
    var s', pc := Step(ttl, s, a).value, PcOf(s, a.thread);
    assert ThreadOk(ttl, s, pc);
    assert Holds(pc) <==> s.lock == Some(a.thread);
    if a.Advance? && s.issues.Some? && (pc.FastIssues? || pc.SlowAt?) {
      assert s.cacheLog[|s.cacheLog| - 1] == s.issues;
      assert WasCached(s, s.issues.value, pc.since);
      WasCachedKept(s, s', s.issues.value, pc.since);
    }
  }

  lemma ResultsStep(ttl: int, s: Probe, a: Action)
    requires Inv(ttl, s) && Step(ttl, s, a).Some?
    ensures var s' := Step(ttl, s, a).value;
            forall i :: 0 <= i < |s'.results| ==> ReturnOk(ttl, s', s'.results[i])
  {
    var s' := Step(ttl, s, a).value;
    StepGrows(ttl, s, a);
    forall i | 0 <= i < |s'.results|
      ensures ReturnOk(ttl, s', s'.results[i])
    {
      if i < |s.results| {
        ReturnKept(ttl, s, s', s.results[i]);
      } else {
        assert ThreadOk(ttl, s, PcOf(s, a.thread));
        assert ReturnOk(ttl, s, s'.results[i]);
        ReturnKept(ttl, s, s', s'.results[i]);
      }
    }
  }

  lemma LastLogged(ttl: int, s: Probe, a: Action)
    requires |s.cacheLog| > 0 && s.cacheLog[|s.cacheLog| - 1] == s.issues && Step(ttl, s, a).Some?
    ensures var s' := Step(ttl, s, a).value; |s'.cacheLog| > 0 && s'.cacheLog[|s'.cacheLog| - 1] == s'.issues
  {
  }

  lemma StepInv(ttl: int, s: Probe, a: Action)
    requires Inv(ttl, s) && Step(ttl, s, a).Some?
    ensures Inv(ttl, Step(ttl, s, a).value)
  {
    LastLogged(ttl, s, a);
    hide Step, LockOk, StampsOk, CacheOk, LogOk, ThreadOk, ReturnOk, PcOf;
    var s' := Step(ttl, s, a).value;
    LockStep(ttl, s, a);
    StampsStep(ttl, s, a);
    CacheStep(ttl, s, a);
    LogStep(ttl, s, a);
    ResultsStep(ttl, s, a);
    forall u: nat
      ensures ThreadOk(ttl, s', PcOf(s', u))
    {
      if a.Tick? || a.thread != u {
        OtherThread(ttl, s, a, u);
      } else {
        MovingThread(ttl, s, a);
      }
    }
  }

  lemma {:induction false} RunInv(ttl: int, actions: seq<Action>)
    requires Run(ttl, actions).Some?
    ensures Inv(ttl, Run(ttl, actions).value)
  {
    if actions != [] {
      RunInv(ttl, actions[..|actions| - 1]);
      hide Inv, Step;
      StepInv(ttl, Run(ttl, actions[..|actions| - 1]).value, actions[|actions| - 1]);
    }
  }
}
