// Recording one capture as it runs: normalise, hash, lock, look up, insert. The
// method is proved to play one transaction of the interleaved system, so what is
// proved of that system's runs holds of calls made this way.

module CaptureIngress {
  import opened Options
  import opened CaptureNormalize
  import opened CaptureStore

  // The system after some further actions.
  ghost function Play(w: World, s: System, actions: seq<Action>): Option<System>
    decreases |actions|
  {
    if actions == [] then Some(s)
    else
      match Step(w, s, actions[0])
      case None => None
      case Some(next) => Play(w, next, actions[1..])
  }

  lemma {:induction false} PlayOn(w: World, s: System, before: seq<Action>, t: System, a: Action)
    requires Play(w, s, before) == Some(t)
    ensures Play(w, s, before + [a]) == Step(w, t, a)
    decreases |before|
  {
    if before == [] {
      assert before + [a] == [a];
      assert Play(w, s, [a]) == match Step(w, s, a) case None => None case Some(next) => Play(w, next, []);
    } else {
      assert (before + [a])[0] == before[0] && (before + [a])[1..] == before[1..] + [a];
      PlayOn(w, Step(w, s, before[0]).value, before[1..], t, a);
    }
  }

  // A run that plays on is a run.
  lemma {:induction false} RunThenPlay(w: World, before: seq<Action>, more: seq<Action>)
    requires Run(w, before).Some?
    ensures Run(w, before + more) == Play(w, Run(w, before).value, more)
    decreases |more|
  {
    if more == [] {
      assert before + more == before;
    } else {
      var longer := before + [more[0]];
      assert longer[..|before|] == before && longer + more[1..] == before + more;
      assert Run(w, longer) == Step(w, Run(w, before).value, more[0]);
      if Run(w, longer).Some? {
        RunThenPlay(w, longer, more[1..]);
      } else {
        DeadRun(w, longer, more[1..]);
      }
    }
  }

  lemma {:induction false} DeadRun(w: World, before: seq<Action>, more: seq<Action>)
    requires Run(w, before).None?
    ensures Run(w, before + more).None?
  {
    if more == [] {
      assert before + more == before;
    } else {
      DeadRun(w, before, more[..|more| - 1]);
      assert (before + more)[..|before + more| - 1] == before + more[..|more| - 1];
    }
  }

  class CaptureIngress {
    const w: World
    var captures: seq<Capture>
    var turns: seq<nat>
    var events: seq<EventRow>
    var locks: map<int, nat>
    var nextId: nat
    var txs: map<nat, Tx>   // where each call is

    constructor (w: World)
      ensures this.w == w && View() == EMPTY
    {
      this.w := w;
      captures, turns, events, locks, nextId, txs := [], [], [], map[], 0, map[];
    }

    ghost function View(): System
      reads this
    {
      System(Store(captures, turns, events), locks, txs, nextId)
    }

    // One call that no other call interleaves with. `call` names it, `actions`
    // are the steps of the system that it takes.
    method RecordCapture(call: nat, key: Option<string>, request: Request)
      returns (outcome: Outcome, ghost actions: seq<Action>)
      requires call !in txs && locks == map[]
      modifies this
      ensures Play(w, old(View()), actions) == Some(View()) && locks == map[]
      ensures txs.Keys == old(txs).Keys + {call}
      ensures txs[call].Done? && txs[call].key == key && txs[call].outcome == outcome
      ensures !outcome.Lost? && !outcome.Refused? && (outcome.Rejected? <==> !RequestOk(request, w.isHttp))
      ensures !outcome.Rejected? ==> txs[call].hash == w.digest(CanonicalOf(request))
      ensures if outcome.Created? then |captures| == |old(captures)| + 1 else View().store == old(View()).store
    {
      hide RequestOk, CanonicalOf, Play, Step;
      ghost var s := View();
      ghost var begin := Begin(call, key, request);
      var normalized := NormalizeEnvelope(request, w.isHttp);
      Begins(w, s, call, key, request);
      if normalized.Err? {
        txs := txs[call := Done(key, "", Rejected)];
        PlayFirst(w, s, begin, []);
        return Rejected, [begin];
      }
      txs := txs[call := Starting(key, w.digest(normalized.value))];
      outcome, actions := Transact(call, key, w.digest(normalized.value));
      PlayFirst(w, s, begin, actions);
      actions := [begin] + actions;
    }

    // The call's transaction, from its first statement to its commit.
    method Transact(call: nat, key: Option<string>, hash: string)
      returns (outcome: Outcome, ghost actions: seq<Action>)
      requires call in txs && txs[call] == Starting(key, hash) && locks == map[]
      modifies this
      ensures Play(w, old(View()), actions) == Some(View()) && locks == map[]
      ensures txs.Keys == old(txs).Keys && txs[call] == Done(key, hash, outcome)
      ensures outcome.Created? || outcome.Replayed? || outcome.Conflict?
      ensures if outcome.Created? then |captures| == |old(captures)| + 1 else View().store == old(View()).store
    {
      hide Play, Step, Taken, FindByKey;
      ghost var s := View();
      TakeSnapshot(call, key, hash);
      actions := [Advance(call)];
      PlayFirst(w, s, Advance(call), []);
      ghost var t := View();
      AcquireLock(call, key, hash);
      PlayOn(w, s, actions, t, Advance(call));
      actions := actions + [Advance(call)];
      t := View();
      var found := LookUp(call, key, hash);
      PlayOn(w, s, actions, t, Advance(call));
      actions := actions + [Advance(call)];
      if !found {
        t := View();
        Insert(call, key, hash);
        PlayOn(w, s, actions, t, Advance(call));
        actions := actions + [Advance(call)];
      }
      t := View();
      outcome := Finish(call);
      PlayOn(w, s, actions, t, Commit(call));
      actions := actions + [Commit(call)];
    }

    // The first statement starts: it sees every capture committed so far.
    method TakeSnapshot(call: nat, key: Option<string>, hash: string)
      requires call in txs && txs[call] == Starting(key, hash)
      modifies this`txs
      ensures Step(w, old(View()), Advance(call)) == Some(View())
      ensures txs == old(txs)[call := Locking(key, hash, |captures|)]
    {
      txs := txs[call := Locking(key, hash, |captures|)];
    }

    // Wait for nobody: the lock is free.
    method AcquireLock(call: nat, key: Option<string>, hash: string)
      requires call in txs && txs[call] == Locking(key, hash, |captures|) && locks == map[]
      modifies this`locks, this`txs
      ensures Step(w, old(View()), Advance(call)) == Some(View())
      ensures txs == old(txs)[call := Looking(key, hash, |captures|)] && forall id :: id in locks ==> locks[id] == call
    {
      if w.postgres && key.Some? {
        locks := locks[w.lockId(key.value) := call];
      }
      txs := txs[call := Looking(key, hash, |captures|)];
    }

    method LookUp(call: nat, key: Option<string>, hash: string) returns (found: bool)
      requires call in txs && txs[call] == Looking(key, hash, |captures|)
      modifies this`txs
      ensures Step(w, old(View()), Advance(call)) == Some(View()) && txs.Keys == old(txs).Keys
      ensures !found ==> txs[call] == Inserting(key, hash, |captures|) && !Taken(captures, key)
      ensures found ==>
                && txs[call].Finishing? && txs[call].key == key && txs[call].hash == hash && txs[call].pending.None?
                && (txs[call].outcome.Replayed? || txs[call].outcome.Conflict?)
    {
      assert captures[..|captures|] == captures;
      var existing := if key.Some? then FindByKey(captures, key.value) else None;
      if existing.None? {
        txs := txs[call := Inserting(key, hash, |captures|)];
        return false;
      }
      var outcome := if existing.value.hash == hash then Replayed(existing.value.id) else Conflict(existing.value.id);
      txs := txs[call := Finishing(key, hash, |captures|, outcome, None)];
      return true;
    }

    // New rows, not visible to others before the commit.
    method Insert(call: nat, key: Option<string>, hash: string)
      requires call in txs && txs[call] == Inserting(key, hash, |captures|) && !Taken(captures, key)
      modifies this`txs, this`nextId
      ensures Step(w, old(View()), Advance(call)) == Some(View()) && txs.Keys == old(txs).Keys
      ensures txs[call].Finishing? && txs[call].key == key && txs[call].hash == hash
      ensures txs[call].pending.Some? && txs[call].outcome.Created?
    {
      var capture := Capture(nextId, key, hash, nextId + 1);
      txs := txs[call := Finishing(key, hash, |captures|, Created(nextId), Some(capture))];
      nextId := nextId + 2;
    }

    // The commit: the rows become visible and the call's locks go.
    method Finish(call: nat) returns (outcome: Outcome)
      requires call in txs && txs[call].Finishing? && forall id :: id in locks ==> locks[id] == call
      requires txs[call].pending.Some? ==> !Taken(captures, txs[call].key)
      modifies this`captures, this`turns, this`events, this`locks, this`txs
      ensures Step(w, old(View()), Commit(call)) == Some(View()) && locks == map[]
      ensures outcome == old(txs)[call].outcome
      ensures txs == old(txs)[call := Done(old(txs)[call].key, old(txs)[call].hash, outcome)]
      ensures |captures| == |old(captures)| + if old(txs)[call].pending.Some? then 1 else 0
      ensures old(txs)[call].pending.None? ==> View().store == old(View()).store
    {
      ReleasesAll(View(), call);
      var tx := txs[call];
      if tx.pending.Some? {
        var turn := tx.pending.value.turn;
        turns := turns + [turn];
        events := events + [EventRow(turn, 1), EventRow(turn, 2)];
        captures := captures + [tx.pending.value];
      }
      locks := map[];
      txs := txs[call := Done(tx.key, tx.hash, tx.outcome)];
      return tx.outcome;
    }
  }

  lemma ReleasesAll(s: System, call: nat)
    requires forall id :: id in s.locks ==> s.locks[id] == call
    ensures Released(s, call) == map[]
  {
    assert forall id :: id !in Released(s, call);
  }

  lemma PlayFirst(w: World, s: System, a: Action, more: seq<Action>)
    ensures Step(w, s, a).Some? ==> Play(w, s, [a] + more) == Play(w, Step(w, s, a).value, more)
    ensures Step(w, s, a).Some? && more == [] ==> Play(w, s, [a]) == Step(w, s, a)
  {
    assert ([a] + more)[1..] == more;
    if more == [] {
      assert [a] + more == [a];
    }
  }

  lemma Begins(w: World, s: System, call: nat, key: Option<string>, request: Request)
    requires call !in s.txs
    ensures Step(w, s, Begin(call, key, request)) ==
            Some(Set(s, call, if RequestOk(request, w.isHttp) then Starting(key, w.digest(CanonicalOf(request)))
                              else Done(key, "", Rejected)))
  {
    hide RequestOk, CanonicalOf;
  }
}
