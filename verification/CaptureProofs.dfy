// Idempotency of capture ingress over every interleaving of its transactions.

module CaptureProofs {
  import opened Options
  import opened Text
  import opened CaptureNormalize
  import opened CaptureStore

  predicate Holding(tx: Tx)
  {
    (tx.Looking? || tx.Inserting? || tx.Finishing?) && tx.key.Some?
  }

  // A transaction past the lock step of a key owns the lock of that key.
  ghost predicate LocksOk(w: World, s: System)
  {
    forall c :: c in s.txs && Holding(s.txs[c]) ==>
      w.lockId(s.txs[c].key.value) in s.locks && s.locks[w.lockId(s.txs[c].key.value)] == c
  }

  ghost predicate KeysUnique(captures: seq<Capture>)
  {
    forall i, j :: 0 <= i < j < |captures| ==> captures[i].key.None? || captures[i].key != captures[j].key
  }

  ghost predicate IdsOk(s: System)
  {
    && (forall i :: 0 <= i < |s.store.captures| ==> s.store.captures[i].id < s.nextId)
    && (forall i, j :: 0 <= i < j < |s.store.captures| ==> s.store.captures[i].id != s.store.captures[j].id)
    && (forall c :: c in s.txs && s.txs[c].Finishing? && s.txs[c].pending.Some? ==>
                      PendingIdOk(s, c, s.txs[c].pending.value.id))
  }

  // The id of an unpublished capture belongs to no other capture.
  ghost predicate PendingIdOk(s: System, call: nat, id: nat)
  {
    && id < s.nextId
    && (forall i :: 0 <= i < |s.store.captures| ==> s.store.captures[i].id != id)
    && (forall c :: c in s.txs && c != call && s.txs[c].Finishing? && s.txs[c].pending.Some? ==>
                      s.txs[c].pending.value.id != id)
  }

  // One turn and its two events for every capture.
  ghost predicate RowsOk(store: Store)
  {
    && |store.turns| == |store.captures| && |store.events| == 2 * |store.captures|
    && forall i :: 0 <= i < |store.captures| ==>
         && store.turns[i] == store.captures[i].turn
         && store.events[2 * i] == EventRow(store.captures[i].turn, 1)
         && store.events[2 * i + 1] == EventRow(store.captures[i].turn, 2)
  }

  ghost predicate Committed(store: Store, id: nat, key: Option<string>, hash: string)
  {
    exists i :: 0 <= i < |store.captures| && var c := store.captures[i]; c.id == id && c.key == key && c.hash == hash
  }

  // What an outcome says of the committed store.
  ghost predicate OutcomeOk(store: Store, key: Option<string>, hash: string, outcome: Outcome)
  {
    match outcome
    case Created(id) => Committed(store, id, key, hash)
    case Replayed(id) => key.Some? && Committed(store, id, key, hash)
    case Conflict(id) => key.Some? && exists other :: other != hash && Committed(store, id, key, other)
    case _ => true
  }

  // The lookup read the first `seen` captures, and the key was not among them.
  predicate Missed(captures: seq<Capture>, key: Option<string>, seen: nat)
  {
    seen <= |captures| && !Taken(captures[..seen], key)
  }

  ghost predicate TxOk(store: Store, tx: Tx)
  {
    match tx
    case Starting(_, _) => true
    case Locking(_, _, seen) => seen <= |store.captures|
    case Looking(_, _, seen) => seen <= |store.captures|
    case Inserting(key, _, seen) => Missed(store.captures, key, seen)
    case Finishing(key, hash, seen, outcome, pending) =>
      (match pending
       case Some(c) =>
         c.key == key && c.hash == hash && outcome == Created(c.id) && Missed(store.captures, key, seen)
       case None => (outcome.Replayed? || outcome.Conflict?) && OutcomeOk(store, key, hash, outcome))
    case Done(key, hash, outcome) => OutcomeOk(store, key, hash, outcome)
  }

  // What holds on every database.
  ghost predicate Inv(s: System)
  {
    && KeysUnique(s.store.captures) && IdsOk(s) && RowsOk(s.store)
    && forall c :: c in s.txs ==> TxOk(s.store, s.txs[c])
  }

  // No refusal lies behind or ahead of a transaction.
  predicate Unrefused(store: Store, tx: Tx)
  {
    match tx
    case Inserting(key, _, _) => !Taken(store.captures, key)
    case Finishing(key, _, _, outcome, pending) => outcome != Refused && (pending.Some? ==> !Taken(store.captures, key))
    case Done(_, _, outcome) => outcome != Refused
    case _ => true
  }

  // What the advisory lock adds where lookups read the newest commits.
  ghost predicate Guarded(w: World, s: System)
  {
    LocksOk(w, s) && forall c :: c in s.txs ==> Unrefused(s.store, s.txs[c])
  }

  // ------------------------------------------------------------------- lookups

  lemma {:induction false} FindSpec(captures: seq<Capture>, key: string)
    ensures match FindByKey(captures, key)
            case Some(c) => c in captures && c.key == Some(key)
            case None => forall i :: 0 <= i < |captures| ==> captures[i].key != Some(key)
  {
    if captures != [] && captures[0].key != Some(key) {
      FindSpec(captures[1..], key);
      assert forall i :: 1 <= i < |captures| ==> captures[i] == captures[1..][i - 1];
    }
  }

  lemma {:induction false} FindSnoc(captures: seq<Capture>, c: Capture, key: string)
    ensures FindByKey(captures + [c], key) ==
            if FindByKey(captures, key).Some? then FindByKey(captures, key)
            else if c.key == Some(key) then Some(c) else None
  {
    if captures == [] {
      assert captures + [c] == [c];
    } else {
      assert (captures + [c])[1..] == captures[1..] + [c];
      FindSnoc(captures[1..], c, key);
    }
  }

  lemma CommittedKept(store: Store, store': Store, id: nat, key: Option<string>, hash: string)
    requires Committed(store, id, key, hash) && store.captures <= store'.captures
    ensures Committed(store', id, key, hash)
  {
    var i :| 0 <= i < |store.captures| && var c := store.captures[i]; c.id == id && c.key == key && c.hash == hash;
    assert store'.captures[i] == store.captures[i];
  }

  lemma OutcomeKept(store: Store, store': Store, key: Option<string>, hash: string, outcome: Outcome)
    requires OutcomeOk(store, key, hash, outcome) && store.captures <= store'.captures
    ensures OutcomeOk(store', key, hash, outcome)
  {
    match outcome
    case Created(id) => CommittedKept(store, store', id, key, hash);
    case Replayed(id) => CommittedKept(store, store', id, key, hash);
    case Conflict(id) =>
      var other :| other != hash && Committed(store, id, key, other);
      CommittedKept(store, store', id, key, other);
    case _ =>
  }

  // ------------------------------------------------------------ steps keep Inv

  // Everything but a commit leaves the store alone.
  lemma LocalStepInv(w: World, s: System, a: Action)
    requires Inv(s) && Step(w, s, a).Some? && !a.Commit?
    ensures Inv(Step(w, s, a).value) && Step(w, s, a).value.store == s.store
  {
    hide RowsOk, KeysUnique, RequestOk, CanonicalOf, Committed;
    var s' := Step(w, s, a).value;
    if a.Advance? {
      AdvanceTx(w, s, a.call);
    }
    LocalIds(w, s, a);
  }

  lemma CommittedIn(store: Store, visible: seq<Capture>, c: Capture)
    requires visible <= store.captures && c in visible
    ensures Committed(store, c.id, c.key, c.hash)
  {
    var i :| 0 <= i < |visible| && visible[i] == c;
    assert store.captures[i] == c;
  }

  lemma AdvanceTx(w: World, s: System, call: nat)
    requires Inv(s) && call in s.txs && StepTx(w, s, call).Some?
    ensures TxOk(s.store, StepTx(w, s, call).value.txs[call])
  {
    var tx := s.txs[call];
    assert TxOk(s.store, tx);
    if tx.Looking? {
      var visible := Visible(w, s.store.captures, tx.seen);
      assert s.store.captures[..|visible|] == visible;
      if tx.key.Some? {
        FindSpec(visible, tx.key.value);
        var found := FindByKey(visible, tx.key.value);
        if found.Some? {
          CommittedIn(s.store, visible, found.value);
        }
      }
    }
  }

  lemma LocalLocks(w: World, s: System, a: Action)
    requires w.postgres && LocksOk(w, s) && Step(w, s, a).Some?
    ensures LocksOk(w, Step(w, s, a).value)
  {
    hide RequestOk, CanonicalOf;
  }

  lemma LocalIds(w: World, s: System, a: Action)
    requires IdsOk(s) && Step(w, s, a).Some? && !a.Commit?
    ensures IdsOk(Step(w, s, a).value)
  {
    hide RequestOk, CanonicalOf, Taken, Visible, Released;
    var s' := Step(w, s, a).value;
    forall c | c in s'.txs && s'.txs[c].Finishing? && s'.txs[c].pending.Some?
      ensures PendingIdOk(s', c, s'.txs[c].pending.value.id)
    {
      if c in s.txs && s.txs[c].Finishing? {
        assert PendingIdOk(s, c, s'.txs[c].pending.value.id);
      }
    }
  }

  lemma CommitTx(s: System, p: Capture, tx: Tx)
    requires TxOk(s.store, tx)
    ensures TxOk(Publish(s.store, p), tx)
  {
    var store' := Publish(s.store, p);
    match tx
    case Inserting(key, _, seen) => assert store'.captures[..seen] == s.store.captures[..seen];
    case Finishing(key, hash, seen, outcome, pending) =>
      if pending.None? {
        OutcomeKept(s.store, store', key, hash, outcome);
      } else {
        assert store'.captures[..seen] == s.store.captures[..seen];
      }
    case Done(key, hash, outcome) => OutcomeKept(s.store, store', key, hash, outcome);
    case _ =>
  }

  lemma PublishRows(store: Store, c: Capture)
    requires RowsOk(store)
    ensures RowsOk(Publish(store, c))
  {
  }

  lemma PublishKeys(captures: seq<Capture>, c: Capture)
    requires KeysUnique(captures) && (c.key.Some? ==> FindByKey(captures, c.key.value).None?)
    ensures KeysUnique(captures + [c])
  {
    if c.key.Some? {
      FindSpec(captures, c.key.value);
    }
  }

  lemma CommitIds(w: World, s: System, call: nat)
    requires IdsOk(s) && Step(w, s, Commit(call)).Some?
    ensures IdsOk(Step(w, s, Commit(call)).value)
  {
    var s' := Step(w, s, Commit(call)).value;
    if s.txs[call].pending.Some? {
      assert PendingIdOk(s, call, s.txs[call].pending.value.id);
    }
    forall c | c in s'.txs && s'.txs[c].Finishing? && s'.txs[c].pending.Some?
      ensures PendingIdOk(s', c, s'.txs[c].pending.value.id)
    {
      assert PendingIdOk(s, c, s.txs[c].pending.value.id);
    }
  }

  lemma CommitInv(w: World, s: System, call: nat)
    requires Inv(s) && Step(w, s, Commit(call)).Some?
    ensures Inv(Step(w, s, Commit(call)).value)
  {
    var s' := Step(w, s, Commit(call)).value;
    var tx := s.txs[call];
    assert TxOk(s.store, tx);
    CommitIds(w, s, call);
    hide IdsOk;
    if tx.pending.Some? && !Taken(s.store.captures, tx.key) {
      var p := tx.pending.value;
      PublishRows(s.store, p);
      PublishKeys(s.store.captures, p);
      assert s'.store.captures[|s.store.captures|] == p;
      assert Committed(s'.store, p.id, tx.key, tx.hash);
      hide RowsOk, KeysUnique, Committed;
      forall c | c in s'.txs
        ensures TxOk(s'.store, s'.txs[c])
      {
        if c != call {
          CommitTx(s, p, s.txs[c]);
        }
      }
    }
  }

  lemma {:induction false} RunInv(w: World, actions: seq<Action>)
    requires Run(w, actions).Some?
    ensures Inv(Run(w, actions).value)
  {
    if actions != [] {
      RunInv(w, actions[..|actions| - 1]);
      hide Inv, Step;
      var s, a := Run(w, actions[..|actions| - 1]).value, actions[|actions| - 1];
      if a.Commit? {
        CommitInv(w, s, a.call);
      } else {
        LocalStepInv(w, s, a);
      }
    }
  }

  // ------------------------------------------------- what the advisory lock adds

  // Two transactions past the lock step of one key are one transaction.
  lemma SameKeySameCall(w: World, s: System, c: nat, d: nat)
    requires LocksOk(w, s) && c in s.txs && d in s.txs && Holding(s.txs[c]) && Holding(s.txs[d])
    requires s.txs[c].key == s.txs[d].key
    ensures c == d
  {
  }

  lemma CommitUnrefused(w: World, s: System, call: nat, c: nat)
    requires Inv(s) && Guarded(w, s) && c in s.txs && c != call
    requires call in s.txs && s.txs[call].Finishing? && s.txs[call].pending.Some?
    ensures Unrefused(Publish(s.store, s.txs[call].pending.value), s.txs[c])
  {
    var tx, p := s.txs[c], s.txs[call].pending.value;
    assert Unrefused(s.store, tx) && TxOk(s.store, s.txs[call]);
    if Holding(tx) {
      FindSnoc(s.store.captures, p, tx.key.value);
      if tx.key == p.key {
        SameKeySameCall(w, s, c, call);
      }
    }
  }

  lemma GuardedStep(w: World, s: System, a: Action)
    requires w.postgres && !w.snapshot && Inv(s) && Guarded(w, s) && Step(w, s, a).Some?
    ensures Guarded(w, Step(w, s, a).value)
  {
    hide RequestOk, CanonicalOf;
    var s' := Step(w, s, a).value;
    LocalLocks(w, s, a);
    if a.Commit? {
      assert Unrefused(s.store, s.txs[a.call]);
      assert TxOk(s.store, s.txs[a.call]);
    }
    hide LocksOk, Inv;
    forall c | c in s'.txs
      ensures Unrefused(s'.store, s'.txs[c])
    {
      if a.Commit? && s.txs[a.call].pending.Some? && c != a.call {
        CommitUnrefused(w, s, a.call, c);
      }
    }
  }

  lemma {:induction false} RunGuarded(w: World, actions: seq<Action>)
    requires w.postgres && !w.snapshot && Run(w, actions).Some?
    ensures Guarded(w, Run(w, actions).value)
  {
    if actions != [] {
      RunGuarded(w, actions[..|actions| - 1]);
      RunInv(w, actions[..|actions| - 1]);
      hide Guarded, Inv, Step;
      GuardedStep(w, Run(w, actions[..|actions| - 1]).value, actions[|actions| - 1]);
    }
  }

  // ---------------------------------------------------------------- main results

  // Each key owns at most one capture, and the rows of this path stay in step.
  lemma OneCapturePerKey(w: World, actions: seq<Action>)
    requires Run(w, actions).Some?
    ensures var store := Run(w, actions).value.store;
            KeysUnique(store.captures) && RowsOk(store)
  {
    RunInv(w, actions);
  }

  predicate Succeeded(outcome: Outcome)
  {
    outcome.Created? || outcome.Replayed?
  }

  // The call got an answer about its key.
  predicate Answered(outcome: Outcome)
  {
    Succeeded(outcome) || outcome.Conflict?
  }

  // Two finished calls with one key, the first of them a success.
  predicate OfOneKey(txs: map<nat, Tx>, a: nat, b: nat)
  {
    && a in txs && b in txs && txs[a].Done? && txs[b].Done? && txs[a].key.Some? && txs[a].key == txs[b].key
    && Succeeded(txs[a].outcome) && Answered(txs[b].outcome)
  }

  lemma SameCapture(captures: seq<Capture>, i: nat, j: nat)
    requires KeysUnique(captures) && i < |captures| && j < |captures|
    requires captures[i].key.Some? && captures[i].key == captures[j].key
    ensures i == j
  {
  }

  // Every success with a key returns the key's one capture; an answered call
  // conflicts exactly when that capture was made from another payload.
  lemma CallsOfOneKeyAgree(w: World, actions: seq<Action>, a: nat, b: nat)
    requires Run(w, actions).Some? && OfOneKey(Run(w, actions).value.txs, a, b)
    ensures var txs := Run(w, actions).value.txs;
            && txs[b].outcome.capture == txs[a].outcome.capture
            && (txs[b].outcome.Conflict? <==> txs[a].hash != txs[b].hash)
  {
    RunInv(w, actions);
    var s := Run(w, actions).value;
    var ta, tb := s.txs[a], s.txs[b];
    assert TxOk(s.store, ta) && TxOk(s.store, tb);
    var i :| 0 <= i < |s.store.captures|
             && var c := s.store.captures[i]; c.id == ta.outcome.capture && c.key == ta.key && c.hash == ta.hash;
    var other :| Committed(s.store, tb.outcome.capture, tb.key, other) && (tb.outcome.Conflict? <==> other != tb.hash);
    var j :| 0 <= j < |s.store.captures|
             && var c := s.store.captures[j]; c.id == tb.outcome.capture && c.key == tb.key && c.hash == other;
    SameCapture(s.store.captures, i, j);
  }

  // What a call's transaction remembers of its request.
  predicate BegunAs(w: World, tx: Tx, key: Option<string>, canonical: Canonical, accepted: bool)
  {
    tx.key == key && if accepted then tx.hash == w.digest(canonical) else tx == Done(key, "", Rejected)
  }

  lemma StepKeepsRequest(w: World, s: System, a: Action, c: nat)
    requires Step(w, s, a).Some? && c in s.txs
    ensures var txs := Step(w, s, a).value.txs;
            && c in txs && txs[c].key == s.txs[c].key && txs[c].hash == s.txs[c].hash
            && (s.txs[c].Done? ==> txs[c] == s.txs[c])
  {
    hide RequestOk, CanonicalOf;
  }

  lemma {:induction false} BegunKept(w: World, actions: seq<Action>, c: nat, key: Option<string>, r: Request)
    requires Run(w, actions).Some? && Begin(c, key, r) in actions
    ensures var txs := Run(w, actions).value.txs;
            c in txs && BegunAs(w, txs[c], key, CanonicalOf(r), RequestOk(r, w.isHttp))
  {
    hide RequestOk, CanonicalOf;
    var before, a := actions[..|actions| - 1], actions[|actions| - 1];
    var s := Run(w, before).value;
    assert actions == before + [a];
    if Begin(c, key, r) in before {
      BegunKept(w, before, c, key, r);
      StepKeepsRequest(w, s, a, c);
    }
  }

  ghost predicate CollisionFree(digest: Canonical -> string)
  {
    forall c, d :: digest(c) == digest(d) ==> c == d
  }

  // With a collision-free digest, that is when the two calls' requests do not
  // normalise to the same payload.
  lemma ConflictExactly(
    w: World, actions: seq<Action>, a: nat, ka: Option<string>, ra: Request, b: nat, kb: Option<string>, rb: Request)
    requires CollisionFree(w.digest) && Run(w, actions).Some? && OfOneKey(Run(w, actions).value.txs, a, b)
    requires Begin(a, ka, ra) in actions && Begin(b, kb, rb) in actions
    ensures Run(w, actions).value.txs[b].outcome.Conflict? <==> CanonicalOf(ra) != CanonicalOf(rb)
  {
    hide RequestOk, CanonicalOf;
    CallsOfOneKeyAgree(w, actions, a, b);
    BegunKept(w, actions, a, ka, ra);
    BegunKept(w, actions, b, kb, rb);
  }

  // Only the commit of a call that created a capture changes the store, and it
  // adds that capture, one turn and two events.
  lemma StoreChangesOnlyByCreation(w: World, actions: seq<Action>, a: Action)
    requires Run(w, actions).Some? && Step(w, Run(w, actions).value, a).Some?
    ensures var s := Run(w, actions).value; var s' := Step(w, s, a).value;
            if a.Commit? && s'.txs[a.call].outcome.Created? then
              && |s'.store.captures| == |s.store.captures| + 1 && s.store.captures <= s'.store.captures
              && s'.store.captures[|s.store.captures|].id == s'.txs[a.call].outcome.capture
              && |s'.store.turns| == |s.store.turns| + 1 && |s'.store.events| == |s.store.events| + 2
            else s'.store == s.store
  {
    RunInv(w, actions);
    var s := Run(w, actions).value;
    if a.Commit? {
      assert TxOk(s.store, s.txs[a.call]);
    } else {
      LocalStepInv(w, s, a);
    }
  }

  // ---------------------------------------------------------------- refusals

  // The unique index never has to refuse an insert.
  ghost predicate NeverRefuses(w: World)
  {
    forall actions, c ::
      Run(w, actions).Some? && c in Run(w, actions).value.txs ==> !IsRefused(Run(w, actions).value.txs[c])
  }

  predicate IsRefused(tx: Tx)
  {
    tx.Done? && tx.outcome.Refused?
  }

  // The lock keeps calls from failing on the index exactly where it exists and
  // lookups read the newest commits. Where they read a snapshot, a call that
  // waited for the lock does not see the row of the call it waited for.
  lemma RefusalsExactly(w: World)
    ensures NeverRefuses(w) <==> w.postgres && !w.snapshot
  {
    if w.postgres && !w.snapshot {
      forall actions, c | Run(w, actions).Some? && c in Run(w, actions).value.txs
        ensures !IsRefused(Run(w, actions).value.txs[c])
      {
        RunGuarded(w, actions);
        assert Unrefused(Run(w, actions).value.store, Run(w, actions).value.txs[c]);
      }
    } else {
      var actions := RefusedInsert(w);
    }
  }

  // The call is about to put a row in.
  predicate Inserts(tx: Tx)
  {
    tx.Inserting? || (tx.Finishing? && tx.pending.Some?)
  }

  // A capture of the call's key was committed after what its lookup read.
  predicate Overtaken(captures: seq<Capture>, tx: Tx)
    requires Inserts(tx)
  {
    tx.key.Some? && exists i :: tx.seen <= i < |captures| && captures[i].key == tx.key
  }

  lemma TakenSince(captures: seq<Capture>, key: Option<string>, seen: nat)
    requires Missed(captures, key, seen)
    ensures Taken(captures, key) <==> key.Some? && exists i :: seen <= i < |captures| && captures[i].key == key
  {
    if key.Some? {
      FindSpec(captures, key.value);
      FindSpec(captures[..seen], key.value);
      assert forall i :: 0 <= i < seen ==> captures[..seen][i] == captures[i];
      if FindByKey(captures, key.value).Some? {
        var i :| 0 <= i < |captures| && captures[i] == FindByKey(captures, key.value).value;
        assert captures[i].key == key;
      }
    }
  }

  // Exactly when the index refuses a call: another call's capture of its key was
  // committed between what it saw and its insert or its commit.
  lemma RefusedExactly(w: World, actions: seq<Action>, call: nat, a: Action)
    requires Run(w, actions).Some? && a in {Advance(call), Commit(call)}
    requires Step(w, Run(w, actions).value, a).Some?
    ensures var s := Run(w, actions).value;
            call in s.txs &&
            (IsRefused(Step(w, s, a).value.txs[call])
             <==> Inserts(s.txs[call]) && Overtaken(s.store.captures, s.txs[call]))
  {
    hide RequestOk, CanonicalOf, Taken, Missed, Run;
    RunInv(w, actions);
    var s := Run(w, actions).value;
    var tx := s.txs[call];
    assert TxOk(s.store, tx);
    hide Inv;
    if Inserts(tx) {
      TakenSince(s.store.captures, tx.key, tx.seen);
    }
  }

  lemma Go(w: World, actions: seq<Action>, s: System, a: Action)
    requires Run(w, actions) == Some(s)
    ensures Run(w, actions + [a]) == Step(w, s, a)
  {
    assert (actions + [a])[..|actions|] == actions;
  }

  const NOTE_REQUEST := Request(TextContent("x"), None, None)

  lemma NoteIsAccepted(isHttp: string -> bool)
    ensures RequestOk(NOTE_REQUEST, isHttp)
  {
    StripTrimmed("x");
  }

  // Two calls with one key both read before either inserts; the later is refused.
  lemma RefusedInsert(w: World) returns (actions: seq<Action>)
    requires !w.postgres || w.snapshot
    ensures Run(w, actions).Some? && 1 in Run(w, actions).value.txs && IsRefused(Run(w, actions).value.txs[1])
  {
    hide Run, RequestOk, CanonicalOf;
    NoteIsAccepted(w.isHttp);
    EmptyRun(w);
    var s := EMPTY;
    actions := [];
    actions, s := ToLocking(w, actions, s, 0);
    actions, s := ToLocking(w, actions, s, 1);
    if w.postgres {
      actions, s := ToInserting(w, actions, s, 0);
      actions, s := ToCommitted(w, actions, s, 0);
      actions, s := ToInserting(w, actions, s, 1);
    } else {
      actions, s := ToInserting(w, actions, s, 0);
      actions, s := ToInserting(w, actions, s, 1);
      actions, s := ToCommitted(w, actions, s, 0);
    }
    Go(w, actions, s, Advance(1));
    actions := actions + [Advance(1)];
  }

  lemma EmptyRun(w: World)
    ensures Run(w, []) == Some(EMPTY)
  {
  }

  // Everything but this call's own state and the locks is as before.
  ghost predicate OthersKept(s: System, s': System, call: nat)
  {
    forall c :: c != call ==> (c in s'.txs <==> c in s.txs) && (c in s.txs ==> s'.txs[c] == s.txs[c])
  }

  // The call has taken its snapshot of the empty store.
  lemma ToLocking(w: World, actions: seq<Action>, s: System, call: nat) returns (actions': seq<Action>, s': System)
    requires Run(w, actions) == Some(s) && call !in s.txs && s.store == EMPTY.store
    requires RequestOk(NOTE_REQUEST, w.isHttp)
    ensures Run(w, actions') == Some(s') && s'.store == s.store && s'.locks == s.locks && OthersKept(s, s', call)
    ensures call in s'.txs && s'.txs[call] == Locking(Some("k"), w.digest(CanonicalOf(NOTE_REQUEST)), 0)
  {
    hide Run, RequestOk, CanonicalOf;
    var begin := Begin(call, Some("k"), NOTE_REQUEST);
    Go(w, actions, s, begin);
    actions', s' := actions + [begin], Step(w, s, begin).value;
    Go(w, actions', s', Advance(call));
    actions', s' := actions' + [Advance(call)], Step(w, s', Advance(call)).value;
  }

  // It finds nothing: the store is empty, or its snapshot is.
  lemma ToInserting(w: World, actions: seq<Action>, s: System, call: nat) returns (actions': seq<Action>, s': System)
    requires Run(w, actions) == Some(s) && call in s.txs && s.txs[call].Locking?
    requires s.txs[call].key == Some("k") && s.txs[call].seen == 0
    requires s.locks == map[] && (w.snapshot || s.store == EMPTY.store)
    ensures Run(w, actions') == Some(s') && s'.store == s.store && OthersKept(s, s', call)
    ensures call in s'.txs && s'.txs[call] == Inserting(Some("k"), s.txs[call].hash, 0)
    ensures forall id :: id in s'.locks ==> s'.locks[id] == call
    ensures !w.postgres ==> s'.locks == map[]
  {
    hide Run;
    Go(w, actions, s, Advance(call));
    actions', s' := actions + [Advance(call)], Step(w, s, Advance(call)).value;
    assert Visible(w, s'.store.captures, 0) == [];
    Go(w, actions', s', Advance(call));
    actions', s' := actions' + [Advance(call)], Step(w, s', Advance(call)).value;
  }

  lemma ToCommitted(w: World, actions: seq<Action>, s: System, call: nat) returns (actions': seq<Action>, s': System)
    requires Run(w, actions) == Some(s) && call in s.txs && s.txs[call].Inserting? && s.txs[call].key == Some("k")
    requires s.store == EMPTY.store && forall id :: id in s.locks ==> s.locks[id] == call
    ensures Run(w, actions') == Some(s') && Taken(s'.store.captures, Some("k"))
    ensures s'.locks == map[] && OthersKept(s, s', call)
  {
    hide Run;
    Go(w, actions, s, Advance(call));
    actions', s' := actions + [Advance(call)], Step(w, s, Advance(call)).value;
    var inserted := s';
    Go(w, actions', s', Commit(call));
    actions', s' := actions' + [Commit(call)], Step(w, s', Commit(call)).value;
    assert forall id :: id !in Released(inserted, call);
  }
}
