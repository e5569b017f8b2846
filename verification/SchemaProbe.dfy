// The schema readiness cache under many threads: a double-checked TTL cache
// whose fast path reads its two fields without the lock, one after the other.
// Every step of a call that touches shared state is one atomic action.

module SchemaProbe {
  import opened Options

  // A cached issue list, tagged with the number of the store that wrote it.
  datatype Entry = Entry(list: seq<string>, gen: nat)

  // A value of `_cached_at`, tagged with the store that wrote it.
  datatype Stamp = Stamp(time: int, gen: nat)

  // Where a thread is; the values are its locals. `since` is the length of the
  // cache log when the call began.
  datatype Pc =
    | Idle
    | FastIssues(now: int, since: nat)
    | FastAt(now: int, seen: Option<Entry>, since: nat)
    | Waiting(since: nat)
    | SlowClock(since: nat)
    | SlowIssues(now: int, since: nat)
    | SlowAt(now: int, seen: Option<Entry>, since: nat)
    | Reflecting(since: nat)
    | Storing(found: seq<string>, since: nat)
    | Stamping(entry: Entry, since: nat)
    | StoringAt(entry: Entry, time: int, since: nat)
    | Releasing(result: Return)
    | InvWaiting
    | InvIssues
    | InvAt
    | InvReleasing

  // What a call returned: its own reflection's list, or a cached one together
  // with the clock value and the stamp its freshness check used.
  datatype Return =
    | Computed(found: seq<string>)
    | Cached(entry: Entry, now: int, stamp: Stamp, since: nat)

  datatype Event = Started(time: int) | Stamped(time: int) | Invalidated

  datatype Probe = Probe(
    clock: int,
    lock: Option<nat>,
    issues: Option<Entry>,          // _cached_issues
    at: Option<Stamp>,              // _cached_at
    threads: map<nat, Pc>,
    nextGen: nat,                   // history from here on
    stampTimes: map<nat, int>,
    cacheLog: seq<Option<Entry>>,   // every value _cached_issues has had
    log: seq<Event>,
    results: seq<Return>)

  datatype Action =
    | Tick(amount: nat)
    | Call(thread: nat)
    | Invalidate(thread: nat)
    | Advance(thread: nat)
    | ReflectionEnds(thread: nat, found: seq<string>)
    | ReflectionFails(thread: nat)

  const START := Probe(0, None, None, None, map[], 0, map[], [None], [], [])

  function PcOf(s: Probe, t: nat): Pc
  {
    if t in s.threads then s.threads[t] else Idle
  }

  function Goto(s: Probe, t: nat, pc: Pc): Probe
  {
    s.(threads := s.threads[t := pc])
  }

  function SetIssues(s: Probe, issues: Option<Entry>): Probe
  {
    s.(issues := issues, cacheLog := s.cacheLog + [issues])
  }

  function LastIndex(s: Probe): nat
  {
    if s.cacheLog == [] then 0 else |s.cacheLog| - 1
  }

  predicate FreshEnough(ttl: int, now: int, seen: Option<Entry>, at: Option<Stamp>)
  {
    seen.Some? && at.Some? && now - at.value.time < ttl
  }

  // One atomic action; None if it is not enabled.
  function Step(ttl: int, s: Probe, a: Action): Option<Probe>
  {
    match a
    case Tick(amount) => Some(s.(clock := s.clock + amount))
    case Call(t) => if PcOf(s, t).Idle? then Some(Goto(s, t, FastIssues(s.clock, LastIndex(s)))) else None
    case Invalidate(t) => if PcOf(s, t).Idle? then Some(Goto(s, t, InvWaiting)) else None
    case ReflectionEnds(t, found) =>
      if PcOf(s, t).Reflecting? then Some(Goto(s, t, Storing(found, PcOf(s, t).since))) else None
    case ReflectionFails(t) =>
      if PcOf(s, t).Reflecting? then Some(Goto(s.(lock := None), t, Idle)) else None
    case Advance(t) => StepThread(ttl, s, t)
  }

  function StepThread(ttl: int, s: Probe, t: nat): Option<Probe>
  {
    match PcOf(s, t)
    case Idle => None
    case Reflecting(_) => None
    case FastIssues(now, since) => Some(Goto(s, t, FastAt(now, s.issues, since)))
    case FastAt(now, seen, since) =>
      if FreshEnough(ttl, now, seen, s.at) then
        Some(Goto(s.(results := s.results + [Cached(seen.value, now, s.at.value, since)]), t, Idle))
      else Some(Goto(s, t, Waiting(since)))
    case Waiting(since) => if s.lock.None? then Some(Goto(s.(lock := Some(t)), t, SlowClock(since))) else None
    case SlowClock(since) => Some(Goto(s, t, SlowIssues(s.clock, since)))
    case SlowIssues(now, since) => Some(Goto(s, t, SlowAt(now, s.issues, since)))
    case SlowAt(now, seen, since) =>
      if FreshEnough(ttl, now, seen, s.at) then Some(Goto(s, t, Releasing(Cached(seen.value, now, s.at.value, since))))
      else Some(Goto(s.(log := s.log + [Started(s.clock)]), t, Reflecting(since)))
    case Storing(found, since) =>
      var entry := Entry(found, s.nextGen);
      Some(Goto(SetIssues(s, Some(entry)).(nextGen := s.nextGen + 1), t, Stamping(entry, since)))
    case Stamping(entry, since) => Some(Goto(s, t, StoringAt(entry, s.clock, since)))
    case StoringAt(entry, time, _) =>
      Some(Goto(s.(at := Some(Stamp(time, entry.gen)), stampTimes := s.stampTimes[entry.gen := time],
                   log := s.log + [Stamped(time)]),
                t, Releasing(Computed(entry.list))))
    case Releasing(result) => Some(Goto(s.(lock := None, results := s.results + [result]), t, Idle))
    case InvWaiting => if s.lock.None? then Some(Goto(s.(lock := Some(t)), t, InvIssues)) else None
    case InvIssues => Some(Goto(SetIssues(s, None), t, InvAt))
    case InvAt => Some(Goto(s.(at := None, log := s.log + [Invalidated]), t, InvReleasing))
    case InvReleasing => Some(Goto(s.(lock := None), t, Idle))
  }

  function Run(ttl: int, actions: seq<Action>): Option<Probe>
  {
    if actions == [] then Some(START)
    else
      match Run(ttl, actions[..|actions| - 1])
      case None => None
      case Some(s) => Step(ttl, s, actions[|actions| - 1])
  }
}
