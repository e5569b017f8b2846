// The schema readiness cache as one object, called by one thread at a time. Every
// call is proved to take actions of the interleaved system, so what is proved of
// that system's runs holds of it.

module SchemaReadinessProbe {
  import opened Options
  import opened SchemaProbe

  class SchemaReadinessProbe {
    const ttl: int
    var cachedIssues: Option<seq<string>>
    var cachedAt: Option<int>

    // The interleaved system, and the actions it has taken.
    ghost var probe: Probe
    ghost var taken: seq<Action>

    // The fields hold what the system's fields do, without the history tags.
    ghost predicate Mirrors()
      reads this
    {
      && cachedIssues == (if probe.issues.Some? then Some(probe.issues.value.list) else None)
      && cachedAt == (if probe.at.Some? then Some(probe.at.value.time) else None)
    }

    // No call is under way.
    ghost predicate Valid()
      reads this
    {
      && ttl > 0 && Mirrors() && (cachedIssues.Some? <==> cachedAt.Some?)
      && probe.lock == None && At(probe, Idle) && Run(ttl, taken) == Some(probe)
    }

    // A cached list of age below the TTL at time `now`.
    ghost predicate FreshAt(now: int)
      reads this
    {
      cachedIssues.Some? && cachedAt.Some? && now - cachedAt.value < ttl
    }

    // A TTL that is not positive is a ValueError.
    constructor (ttl: int)
      requires ttl > 0
      ensures Valid() && this.ttl == ttl && cachedIssues == None && cachedAt == None && probe == START
    {
      this.ttl := ttl;
      cachedIssues, cachedAt := None, None;
      probe, taken := START, [];
    }

    // The system takes an action of thread 0.
    ghost method Take(a: Action)
      requires Run(ttl, taken) == Some(probe) && Step(ttl, probe, a).Some? && (a.Tick? || a.thread == 0)
      requires OthersIdle(probe)
      modifies this`probe, this`taken
      ensures probe == Step(ttl, old(probe), a).value && OthersIdle(probe)
      ensures old(taken) <= taken && Run(ttl, taken) == Some(probe)
    {
      assert (taken + [a])[..|taken|] == taken;
      OthersStayIdle(ttl, probe, a);
      probe, taken := Step(ttl, probe, a).value, taken + [a];
    }

    // Time passes up to `time`.
    ghost method Wait(time: int)
      requires Run(ttl, taken) == Some(probe) && probe.clock <= time && OthersIdle(probe)
      modifies this`probe, this`taken
      ensures probe == old(probe).(clock := time) && OthersIdle(probe)
      ensures old(taken) <= taken && Run(ttl, taken) == Some(probe)
    {
      hide Run, OthersIdle;
      Take(Tick(time - probe.clock));
    }

    // The call begins and reads the list.
    ghost method ReadFast()
      requires Run(ttl, taken) == Some(probe) && At(probe, Idle)
      modifies this`probe, this`taken
      ensures old(taken) <= taken && Run(ttl, taken) == Some(probe)
      ensures At(probe, FastAt(old(probe).clock, old(probe).issues, LastIndex(old(probe))))
      ensures probe == old(probe).(threads := probe.threads)
    {
      hide Run, OthersIdle;
      Take(Call(0));
      Take(Advance(0));
    }

    // It reads the time, and the list is fresh.
    ghost method FastHit(now: int, seen: Option<Entry>, since: nat)
      requires Run(ttl, taken) == Some(probe) && At(probe, FastAt(now, seen, since))
      requires FreshEnough(ttl, now, seen, probe.at)
      modifies this`probe, this`taken
      ensures old(taken) <= taken && Run(ttl, taken) == Some(probe) && At(probe, Idle)
      ensures probe == old(probe).(threads := probe.threads, results := probe.results)
      ensures probe.results == old(probe).results + [Cached(seen.value, now, probe.at.value, since)]
    {
      hide Run, OthersIdle;
      Take(Advance(0));
    }

    // It is not, and the call takes the lock.
    ghost method FastMiss(now: int, seen: Option<Entry>, since: nat)
      requires Run(ttl, taken) == Some(probe) && At(probe, FastAt(now, seen, since)) && probe.lock == None
      requires !FreshEnough(ttl, now, seen, probe.at)
      modifies this`probe, this`taken
      ensures old(taken) <= taken && Run(ttl, taken) == Some(probe) && At(probe, SlowClock(since))
      ensures probe == old(probe).(threads := probe.threads, lock := Some(0))
    {
      hide Run, OthersIdle;
      Take(Advance(0));
      Take(Advance(0));
    }

    // It reads the clock and the list again.
    ghost method ReadSlow(since: nat)
      requires Run(ttl, taken) == Some(probe) && At(probe, SlowClock(since))
      modifies this`probe, this`taken
      ensures old(taken) <= taken && Run(ttl, taken) == Some(probe)
      ensures At(probe, SlowAt(old(probe).clock, old(probe).issues, since))
      ensures probe == old(probe).(threads := probe.threads)
    {
      hide Run, OthersIdle;
      Take(Advance(0));
      Take(Advance(0));
    }

    ghost method SlowMiss(now: int, seen: Option<Entry>, since: nat)
      requires Run(ttl, taken) == Some(probe) && At(probe, SlowAt(now, seen, since))
      requires !FreshEnough(ttl, now, seen, probe.at)
      modifies this`probe, this`taken
      ensures old(taken) <= taken && Run(ttl, taken) == Some(probe) && At(probe, Reflecting(since))
      ensures probe == old(probe).(threads := probe.threads, log := probe.log)
    {
      hide Run, OthersIdle;
      Take(Advance(0));
    }

    // The reflected list is stored.
    ghost method StoreList(found: seq<string>, since: nat)
      requires Run(ttl, taken) == Some(probe) && At(probe, Reflecting(since))
      modifies this`probe, this`taken
      ensures old(taken) <= taken && Run(ttl, taken) == Some(probe)
      ensures At(probe, Stamping(Entry(found, old(probe).nextGen), since))
      ensures probe.issues == Some(Entry(found, old(probe).nextGen)) && probe.at == old(probe).at
      ensures probe.results == old(probe).results && probe.clock == old(probe).clock
    {
      hide Run, OthersIdle;
      Take(ReflectionEnds(0, found));
      Take(Advance(0));
    }

    // The time is stored, and the lock let go.
    ghost method StoreTime(entry: Entry, since: nat)
      requires Run(ttl, taken) == Some(probe) && At(probe, Stamping(entry, since))
      modifies this`probe, this`taken
      ensures old(taken) <= taken && Run(ttl, taken) == Some(probe) && At(probe, Idle) && probe.lock == None
      ensures probe.issues == old(probe).issues && probe.at == Some(Stamp(old(probe).clock, entry.gen))
      ensures probe.results == old(probe).results + [Computed(entry.list)] && probe.clock == old(probe).clock
    {
      hide Run, OthersIdle;
      Take(Advance(0));
      Take(Advance(0));
      Take(Advance(0));
    }

    ghost method GiveUp(since: nat)
      requires Run(ttl, taken) == Some(probe) && At(probe, Reflecting(since))
      modifies this`probe, this`taken
      ensures old(taken) <= taken && Run(ttl, taken) == Some(probe) && At(probe, Idle)
      ensures probe == old(probe).(threads := probe.threads, lock := None)
    {
      hide Run, OthersIdle;
      Take(ReflectionFails(0));
    }

    // The lock is taken, both fields are cleared, the lock is let go.
    ghost method ClearIssues()
      requires Run(ttl, taken) == Some(probe) && At(probe, Idle) && probe.lock == None
      modifies this`probe, this`taken
      ensures old(taken) <= taken && Run(ttl, taken) == Some(probe) && At(probe, InvAt) && probe.issues == None
    {
      hide Run, OthersIdle;
      Take(SchemaProbe.Invalidate(0));
      Take(Advance(0));
      Take(Advance(0));
    }

    ghost method ClearTime()
      requires Run(ttl, taken) == Some(probe) && At(probe, InvAt) && probe.issues == None
      modifies this`probe, this`taken
      ensures old(taken) <= taken && Run(ttl, taken) == Some(probe) && At(probe, Idle)
      ensures probe.lock == None && probe.issues == None && probe.at == None
    {
      hide Run, OthersIdle;
      Take(Advance(0));
      Take(Advance(0));
    }

    // `t0`, `t1` and `t2` are what the clock shows at the call's three reads;
    // `reflection` is what a reflection yields, None if it raises. The result is
    // None exactly when the call raises.
    method SchemaIssues(t0: int, t1: int, t2: int, reflection: Option<seq<string>>)
      returns (issues: Option<seq<string>>, ghost reflected: bool)
      requires Valid() && probe.clock <= t0 <= t1 <= t2
      modifies this
      ensures Valid() && old(taken) <= taken && probe.clock <= t2
      ensures issues.Some? ==>
                && |probe.results| == |old(probe).results| + 1 && old(probe).results <= probe.results
                && issues.value == ListOf(probe.results[|old(probe).results|])
      ensures issues.None? ==> probe.results == old(probe).results
      ensures reflected <==> !old(FreshAt(t0)) && !old(FreshAt(t1))
      ensures !reflected ==>
                && issues == old(cachedIssues) && cachedIssues == old(cachedIssues) && cachedAt == old(cachedAt)
                && old(cachedAt).Some? && t0 - old(cachedAt).value < ttl
      ensures reflected ==>
                && issues == reflection
                && (old(cachedAt).Some? ==> t1 - old(cachedAt).value >= ttl)
                && (reflection.Some? ==> cachedIssues == reflection && cachedAt == Some(t2))
                && (reflection.None? ==> cachedIssues == old(cachedIssues) && cachedAt == old(cachedAt))
    {
      hide Run, OthersIdle, Step;
      reflected := false;
      Wait(t0);
      ghost var since, seen := LastIndex(probe), probe.issues;
      ReadFast();
      if cachedIssues.Some? && cachedAt.Some? && t0 - cachedAt.value < ttl {
        FastHit(t0, seen, since);
        return cachedIssues, false;
      }
      FastMiss(t0, seen, since);
      Wait(t1);
      ReadSlow(since);
      if cachedIssues.Some? && cachedAt.Some? && t1 - cachedAt.value < ttl {
        // Only another call's refresh in between could lead here.
        return cachedIssues, false;
      }
      SlowMiss(t1, seen, since);
      reflected := true;
      issues := Reflect(t2, reflection, since);
    }

    // Under the lock: reflect, store the list and then its time.
    method Reflect(t2: int, reflection: Option<seq<string>>, ghost since: nat) returns (issues: Option<seq<string>>)
      requires ttl > 0 && Mirrors() && (cachedIssues.Some? <==> cachedAt.Some?) && probe.clock <= t2
      requires Run(ttl, taken) == Some(probe) && At(probe, Reflecting(since))
      modifies this
      ensures Valid() && old(taken) <= taken && probe.clock <= t2 && issues == reflection
      ensures reflection.None? ==>
                probe.results == old(probe).results && cachedIssues == old(cachedIssues) && cachedAt == old(cachedAt)
      ensures reflection.Some? ==>
                && cachedIssues == reflection && cachedAt == Some(t2)
                && probe.results == old(probe).results + [Computed(reflection.value)]
    {
      hide Run, OthersIdle, Step;
      issues := reflection;
      if reflection.Some? {
        cachedIssues := reflection;
        StoreList(reflection.value, since);
        ghost var entry := probe.issues.value;
        Wait(t2);
        cachedAt := Some(t2);
        StoreTime(entry, since);
      } else {
        GiveUp(since);
      }
    }

    method Invalidate()
      requires Valid()
      modifies this
      ensures Valid() && old(taken) <= taken && forall now :: !FreshAt(now)
    {
      hide Run, OthersIdle;
      cachedIssues := None;
      ClearIssues();
      cachedAt := None;
      ClearTime();
    }
  }

  predicate OthersIdle(s: Probe)
  {
    forall t: nat :: t in s.threads && t != 0 ==> s.threads[t].Idle?
  }

  // Thread 0 is here, and no other thread is inside a call.
  predicate At(s: Probe, pc: Pc)
  {
    PcOf(s, 0) == pc && OthersIdle(s)
  }

  lemma OthersStayIdle(ttl: int, s: Probe, a: Action)
    requires OthersIdle(s) && Step(ttl, s, a).Some? && (a.Tick? || a.thread == 0)
    ensures OthersIdle(Step(ttl, s, a).value)
  {
  }

  // The list a call of the system returned.
  function ListOf(r: Return): seq<string>
  {
    match r
    case Computed(found) => found
    case Cached(entry, _, _, _) => entry.list
  }
}
