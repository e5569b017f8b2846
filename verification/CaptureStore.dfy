// Capture ingress as interleaved transactions against one committed store: take
// the advisory lock of the key, look the key up, insert, commit. The lock is
// held to the end of the transaction. A unique index on the key refuses a second
// row of one key, at its insert or at the commit of the transaction it waited for.
// Under snapshot isolation a transaction reads the store as of the start of its
// first statement, which is the one that waits for the lock.

module CaptureStore {
  import opened Options
  import opened CaptureNormalize

  datatype Capture = Capture(id: nat, key: Option<string>, hash: string, turn: nat)

  datatype EventRow = EventRow(turn: nat, sequence: nat)

  datatype Store = Store(captures: seq<Capture>, turns: seq<nat>, events: seq<EventRow>)

  // How a call ended. Only Created and Replayed are successes; Refused is the
  // IntegrityError of the unique index.
  datatype Outcome =
    | Created(capture: nat)
    | Replayed(capture: nat)
    | Conflict(capture: nat)
    | Rejected
    | Refused
    | Lost

  // Where a transaction is. `seen` counts the committed captures of its snapshot,
  // and after the lookup those that the lookup read. `Finishing` holds what the
  // commit will publish.
  datatype Tx =
    | Starting(key: Option<string>, hash: string)
    | Locking(key: Option<string>, hash: string, seen: nat)
    | Looking(key: Option<string>, hash: string, seen: nat)
    | Inserting(key: Option<string>, hash: string, seen: nat)
    | Finishing(key: Option<string>, hash: string, seen: nat, outcome: Outcome, pending: Option<Capture>)
    | Done(key: Option<string>, hash: string, outcome: Outcome)

  // The world: whether the database has advisory locks, whether its transactions
  // read a snapshot (REPEATABLE READ, SERIALIZABLE) or the newest commits (READ
  // COMMITTED), the lock id of a key, the digest of a canonical payload, and what
  // URL parsing accepts.
  datatype World = World(
    postgres: bool, snapshot: bool, lockId: string -> int, digest: Canonical -> string, isHttp: string -> bool)

  datatype System = System(store: Store, locks: map<int, nat>, txs: map<nat, Tx>, nextId: nat)

  datatype Action =
    | Begin(call: nat, key: Option<string>, request: Request)
    | Advance(call: nat)
    | Commit(call: nat)
    | Abort(call: nat)

  const EMPTY := System(Store([], [], []), map[], map[], 0)

  function Set(s: System, call: nat, tx: Tx): System
  {
    s.(txs := s.txs[call := tx])
  }

  function FindByKey(captures: seq<Capture>, key: string): Option<Capture>
  {
    if captures == [] then None
    else if captures[0].key == Some(key) then Some(captures[0])
    else FindByKey(captures[1..], key)
  }

  // The unique index already holds this key.
  predicate Taken(captures: seq<Capture>, key: Option<string>)
  {
    key.Some? && FindByKey(captures, key.value).Some?
  }

  // The committed captures that a lookup reads.
  function Visible(w: World, captures: seq<Capture>, seen: nat): (r: seq<Capture>)
    ensures r <= captures
  {
    if w.snapshot && seen <= |captures| then captures[..seen] else captures
  }

  predicate NeedsLock(w: World, key: Option<string>)
  {
    w.postgres && key.Some?
  }

  // The locks a call lets go of at the end of its transaction.
  function Released(s: System, call: nat): map<int, nat>
  {
    map id | id in s.locks && s.locks[id] != call :: s.locks[id]
  }

  function Publish(store: Store, c: Capture): Store
  {
    Store(store.captures + [c], store.turns + [c.turn], store.events + [EventRow(c.turn, 1), EventRow(c.turn, 2)])
  }

  // The index refuses the call's row, and its transaction ends.
  function Refuse(s: System, call: nat): System
    requires call in s.txs
  {
    s.(locks := Released(s, call), txs := s.txs[call := Done(s.txs[call].key, s.txs[call].hash, Refused)])
  }

  ghost function Step(w: World, s: System, a: Action): Option<System>
  {
    match a
    case Begin(call, key, request) =>
      if call in s.txs then None
      else if !RequestOk(request, w.isHttp) then Some(Set(s, call, Done(key, "", Rejected)))
      else Some(Set(s, call, Starting(key, w.digest(CanonicalOf(request)))))
    case Advance(call) => if call in s.txs then StepTx(w, s, call) else None
    case Commit(call) =>
      if call in s.txs && s.txs[call].Finishing? then
        var tx := s.txs[call];
        if tx.pending.Some? && Taken(s.store.captures, tx.key) then Some(Refuse(s, call))
        else
          Some(System(if tx.pending.Some? then Publish(s.store, tx.pending.value) else s.store,
                      Released(s, call), s.txs[call := Done(tx.key, tx.hash, tx.outcome)], s.nextId))
      else None
    case Abort(call) =>
      if call in s.txs && !s.txs[call].Done? then
        Some(s.(locks := Released(s, call), txs := s.txs[call := Done(s.txs[call].key, s.txs[call].hash, Lost)]))
      else None
  }

  function StepTx(w: World, s: System, call: nat): Option<System>
    requires call in s.txs
  {
    match s.txs[call]
    case Starting(key, hash) => Some(Set(s, call, Locking(key, hash, |s.store.captures|)))
    case Locking(key, hash, seen) =>
      if !NeedsLock(w, key) then Some(Set(s, call, Looking(key, hash, seen)))
      else if w.lockId(key.value) in s.locks then None
      else Some(Set(s.(locks := s.locks[w.lockId(key.value) := call]), call, Looking(key, hash, seen)))
    case Looking(key, hash, seen) =>
      var visible := Visible(w, s.store.captures, seen);
      var existing := if key.Some? then FindByKey(visible, key.value) else None;
      match existing {
        case None => Some(Set(s, call, Inserting(key, hash, |visible|)))
        case Some(c) =>
          var outcome := if c.hash == hash then Replayed(c.id) else Conflict(c.id);
          Some(Set(s, call, Finishing(key, hash, |visible|, outcome, None)))
      }
    case Inserting(key, hash, seen) =>
      if Taken(s.store.captures, key) then Some(Refuse(s, call))
      else
        var c := Capture(s.nextId, key, hash, s.nextId + 1);
        Some(Set(s.(nextId := s.nextId + 2), call, Finishing(key, hash, seen, Created(c.id), Some(c))))
    case Finishing(_, _, _, _, _) => None
    case Done(_, _, _) => None
  }

  ghost function Run(w: World, actions: seq<Action>): Option<System>
  {
    if actions == [] then Some(EMPTY)
    else
      match Run(w, actions[..|actions| - 1])
      case None => None
      case Some(s) => Step(w, s, actions[|actions| - 1])
  }

  // ------------------------------------------------------------------- lock ids

  // The unsigned big-endian value of some bytes.
  function BigEndian(bytes: seq<nat>): nat
  {
    if bytes == [] then 0 else BigEndian(bytes[..|bytes| - 1]) * 256 + bytes[|bytes| - 1]
  }

  // The signed 64-bit lock id of a digest.
  function LockIdOf(digest: seq<nat>): int
    requires |digest| >= 8
  {
    var value := BigEndian(digest[..8]);
    if value >= 0x8000_0000_0000_0000 then value - 0x1_0000_0000_0000_0000 else value
  }

  predicate IsBytes(bytes: seq<nat>)
  {
    forall i :: 0 <= i < |bytes| ==> bytes[i] < 256
  }

  function Pow256(n: nat): nat
  {
    if n == 0 then 1 else 256 * Pow256(n - 1)
  }

  lemma {:induction false} BigEndianBound(bytes: seq<nat>)
    requires IsBytes(bytes)
    ensures BigEndian(bytes) < Pow256(|bytes|)
  {
    if bytes != [] {
      BigEndianBound(bytes[..|bytes| - 1]);
    }
  }

  lemma DigitsUnique(x: nat, a: nat, y: nat, b: nat)
    requires a < 256 && b < 256 && x * 256 + a == y * 256 + b
    ensures x == y && a == b
  {
  }

  lemma {:induction false} BigEndianInjective(a: seq<nat>, b: seq<nat>)
    requires IsBytes(a) && IsBytes(b) && |a| == |b| && BigEndian(a) == BigEndian(b)
    ensures a == b
  {
    if a != [] {
      var n := |a| - 1;
      var x, y := BigEndian(a[..n]), BigEndian(b[..n]);
      assert BigEndian(a) == x * 256 + a[n] && BigEndian(b) == y * 256 + b[n];
      hide BigEndian;
      DigitsUnique(x, a[n], y, b[n]);
      BigEndianInjective(a[..n], b[..n]);
      assert a == a[..n] + [a[n]] && b == b[..n] + [b[n]];
    }
  }

  // The first byte counts most.
  lemma {:induction false} BigEndianFirst(first: nat, rest: seq<nat>)
    ensures BigEndian([first] + rest) == first * Pow256(|rest|) + BigEndian(rest)
  {
    var bytes := [first] + rest;
    if rest == [] {
      assert bytes == [first] && BigEndian([first][..0]) == 0;
    } else {
      var n := |rest| - 1;
      assert bytes[..|bytes| - 1] == [first] + rest[..n];
      BigEndianFirst(first, rest[..n]);
      assert BigEndian(bytes) == (first * Pow256(n) + BigEndian(rest[..n])) * 256 + rest[n];
      assert first * Pow256(n) * 256 == first * Pow256(n + 1);
    }
  }

  // Lock ids are the digest prefix read as a signed 64-bit integer, and tell any two
  // prefixes apart.
  lemma LockIdExactly(a: seq<nat>, b: seq<nat>)
    requires IsBytes(a) && IsBytes(b) && |a| >= 8 && |b| >= 8
    ensures var value := BigEndian(a[..8]);
            LockIdOf(a) == value || LockIdOf(a) == value - 0x1_0000_0000_0000_0000
    ensures -0x8000_0000_0000_0000 <= LockIdOf(a) < 0x8000_0000_0000_0000
    ensures LockIdOf(a) == LockIdOf(b) <==> a[..8] == b[..8]
  {
    hide BigEndian;
    BigEndianBound(a[..8]);
    BigEndianBound(b[..8]);
    assert Pow256(8) == 0x1_0000_0000_0000_0000 by {
      assert Pow256(4) == 0x1_0000_0000;
      assert Pow256(8) == 256 * 256 * 256 * 256 * Pow256(4);
    }
    if LockIdOf(a) == LockIdOf(b) {
      BigEndianInjective(a[..8], b[..8]);
    }
  }
}
