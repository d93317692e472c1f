/**
 * The process-wide table of per-key delivery locks. A lock object is created
 * on first use, shared by everyone who asks for the key meanwhile, and
 * forgotten when its reference count returns to zero. Each call of
 * `lockOutboxDelivery` is one participant; the four steps below are the four
 * regions between its lock operations.
 */
module DeliveryLocks {

  type Key = string
  type LockId = nat
  type Call = nat

  datatype Phase =
    | Waiting(key: Key, lock: LockId)    // counted in, waiting for the mutex
    | Holding(key: Key, lock: LockId)    // inside the critical section
    | Leaving(key: Key, lock: LockId)    // mutex released, still counted in

  datatype Table = Table(
    locks: map<Key, LockId>,
    refs: map<LockId, nat>,
    owner: map<LockId, Call>,
    nextLock: LockId,
    calls: map<Call, Phase>)

  const EMPTY := Table(map[], map[], map[], 0, map[])

  datatype Step = Enter(call: Call, key: Key) | Acquire(call: Call) | Unlock(call: Call) | Leave(call: Call)

  predicate Enabled(s: Table, step: Step) {
    match step
    case Enter(c, _) => c !in s.calls
    case Acquire(c) => c in s.calls && s.calls[c].Waiting? && s.calls[c].lock !in s.owner
    case Unlock(c) => c in s.calls && s.calls[c].Holding?
    case Leave(c) => c in s.calls && s.calls[c].Leaving?
  }

  function Refs(s: Table, lock: LockId): nat {
    if lock in s.refs then s.refs[lock] else 0
  }

  function Next(s: Table, step: Step): Table
    requires Enabled(s, step)
  {
    match step
    case Enter(c, key) =>
      var isNew := key !in s.locks;
      var lock := if isNew then s.nextLock else s.locks[key];
      Table(s.locks[key := lock], s.refs[lock := Refs(s, lock) + 1], s.owner,
            if isNew then s.nextLock + 1 else s.nextLock, s.calls[c := Waiting(key, lock)])
    case Acquire(c) =>
      var p := s.calls[c];
      s.(owner := s.owner[p.lock := c], calls := s.calls[c := Holding(p.key, p.lock)])
    case Unlock(c) =>
      var p := s.calls[c];
      s.(owner := s.owner - {p.lock}, calls := s.calls[c := Leaving(p.key, p.lock)])
    case Leave(c) =>
      var p := s.calls[c];
      var left := Refs(s, p.lock) - 1;
      s.(refs := s.refs[p.lock := if left < 0 then 0 else left],
         locks := if left == 0 then s.locks - {p.key} else s.locks,
         calls := s.calls - {c})
  }

  function UsersIn(calls: map<Call, Phase>, lock: LockId): set<Call> {
    set c | c in calls && calls[c].lock == lock
  }

  function Users(s: Table, lock: LockId): set<Call> {
    UsersIn(s.calls, lock)
  }

  ghost predicate CountsOk(s: Table) {
    forall lock :: Refs(s, lock) == |Users(s, lock)|
  }

  ghost predicate TableOk(s: Table) {
    && (forall k | k in s.locks :: s.locks[k] < s.nextLock && Refs(s, s.locks[k]) > 0)
    && (forall j, k | j in s.locks && k in s.locks && s.locks[j] == s.locks[k] :: j == k)
    && (forall c | c in s.calls :: s.calls[c].key in s.locks && s.locks[s.calls[c].key] == s.calls[c].lock)
  }

  ghost predicate OwnersOk(s: Table) {
    && (forall c | c in s.calls && s.calls[c].Holding? :: s.calls[c].lock in s.owner && s.owner[s.calls[c].lock] == c)
    && (forall l | l in s.owner ::
          s.owner[l] in s.calls && s.calls[s.owner[l]].Holding? && s.calls[s.owner[l]].lock == l)
  }

  ghost predicate Inv(s: Table) {
    CountsOk(s) && TableOk(s) && OwnersOk(s)
  }

  /** Counting in one more user, or counting one out. */
  lemma UsersAfter(s: Table, s': Table, c: Call, lock: LockId)
    requires c in s.calls ==> s.calls[c].lock == lock
    requires c in s'.calls ==> s'.calls[c].lock == lock
    requires s'.calls - {c} == s.calls - {c}
    ensures Users(s', lock) == if c in s'.calls then Users(s, lock) + {c} else Users(s, lock) - {c}
    ensures forall l | l != lock :: Users(s', l) == Users(s, l)
  {
    forall d | d != c ensures (d in s.calls <==> d in s'.calls) && (d in s.calls ==> s.calls[d] == s'.calls[d]) {
      assert d in s.calls <==> d in s.calls - {c};
      assert d in s'.calls <==> d in s'.calls - {c};
      assert d in s.calls ==> s.calls[d] == (s.calls - {c})[d] == (s'.calls - {c})[d];
    }
  }

  lemma EnterCounts(s: Table, c: Call, key: Key)
    requires CountsOk(s) && TableOk(s) && c !in s.calls
    ensures CountsOk(Next(s, Enter(c, key)))
  {
    var s' := Next(s, Enter(c, key));
    forall l ensures Refs(s', l) == |Users(s', l)| {
      EnterCountsOne(s, c, key, l);
    }
  }

  lemma EnterCountsOne(s: Table, c: Call, key: Key, l: LockId)
    requires CountsOk(s) && TableOk(s) && c !in s.calls
    ensures Refs(Next(s, Enter(c, key)), l) == |Users(Next(s, Enter(c, key)), l)|
  {
    var s' := Next(s, Enter(c, key));
    assert Refs(s, l) == |Users(s, l)|;
    UsersAfterEnter(s.calls, s'.calls, c, s'.calls[c], l);
  }

  lemma UsersAfterEnter(calls: map<Call, Phase>, calls': map<Call, Phase>, c: Call, p: Phase, l: LockId)
    requires c !in calls && calls' == calls[c := p]
    ensures UsersIn(calls', l) == if p.lock == l then UsersIn(calls, l) + {c} else UsersIn(calls, l)
    ensures c !in UsersIn(calls, l)
  {
  }

  lemma EnterTable(s: Table, c: Call, key: Key)
    requires TableOk(s) && c !in s.calls
    ensures TableOk(Next(s, Enter(c, key)))
  {
  }

  lemma EnterOwners(s: Table, c: Call, key: Key)
    requires OwnersOk(s) && c !in s.calls
    ensures OwnersOk(Next(s, Enter(c, key)))
  {
  }

  lemma LeaveCounts(s: Table, c: Call)
    requires CountsOk(s) && Enabled(s, Leave(c))
    ensures CountsOk(Next(s, Leave(c)))
    ensures Refs(s, s.calls[c].lock) > 0
  {
    var s' := Next(s, Leave(c));
    var lock := s.calls[c].lock;
    UsersAfter(s, s', c, lock);
    assert c in Users(s, lock);
    forall l ensures Refs(s', l) == |Users(s', l)| {
      assert Refs(s, l) == |Users(s, l)|;
    }
  }

  /** A key still in use by another call stays in the table. */
  lemma UsedKeyStays(s: Table, c: Call, d: Call)
    requires CountsOk(s) && TableOk(s) && Enabled(s, Leave(c)) && d in s.calls && d != c
    ensures s.calls[d].key in Next(s, Leave(c)).locks
  {
    var p := s.calls[c];
    if s.calls[d].key == p.key {
      TwoAreCounted(s, p.lock, c, d);
    }
  }

  lemma TwoAreCounted(s: Table, lock: LockId, c: Call, d: Call)
    requires CountsOk(s) && c in Users(s, lock) && d in Users(s, lock) && c != d
    ensures Refs(s, lock) >= 2
  {
    assert {c, d} <= Users(s, lock);
    assert |Users(s, lock)| == |{c, d}| + |Users(s, lock) - {c, d}|;
  }

  lemma LeaveTable(s: Table, c: Call)
    requires CountsOk(s) && TableOk(s) && Enabled(s, Leave(c))
    ensures TableOk(Next(s, Leave(c)))
  {
    var s' := Next(s, Leave(c));
    LeaverIsCounted(s, c);
    forall d | d in s'.calls ensures s'.calls[d].key in s'.locks {
      UsedKeyStays(s, c, d);
    }
  }

  lemma LeaverIsCounted(s: Table, c: Call)
    requires CountsOk(s) && c in s.calls
    ensures Refs(s, s.calls[c].lock) > 0
  {
    assert c in Users(s, s.calls[c].lock);
  }

  lemma LeaveOwners(s: Table, c: Call)
    requires OwnersOk(s) && Enabled(s, Leave(c))
    ensures OwnersOk(Next(s, Leave(c)))
  {
  }

  lemma MutexCounts(s: Table, step: Step)
    requires CountsOk(s) && Enabled(s, step) && (step.Acquire? || step.Unlock?)
    ensures CountsOk(Next(s, step))
  {
    var s' := Next(s, step);
    var c := step.call;
    UsersAfter(s, s', c, s.calls[c].lock);
    assert c in Users(s, s.calls[c].lock);
    forall l ensures Refs(s', l) == |Users(s', l)| {
      assert Refs(s', l) == Refs(s, l) == |Users(s, l)|;
      assert Users(s', l) == Users(s, l);
    }
  }

  lemma AcquireTable(s: Table, c: Call)
    requires TableOk(s) && Enabled(s, Acquire(c))
    ensures TableOk(Next(s, Acquire(c)))
  {
  }

  lemma AcquireOwners(s: Table, c: Call)
    requires OwnersOk(s) && Enabled(s, Acquire(c))
    ensures OwnersOk(Next(s, Acquire(c)))
  {
  }

  lemma UnlockTable(s: Table, c: Call)
    requires TableOk(s) && Enabled(s, Unlock(c))
    ensures TableOk(Next(s, Unlock(c)))
  {
  }

  lemma UnlockOwners(s: Table, c: Call)
    requires OwnersOk(s) && Enabled(s, Unlock(c))
    ensures OwnersOk(Next(s, Unlock(c)))
  {
  }

  lemma NextKeepsInv(s: Table, step: Step)
    requires Inv(s) && Enabled(s, step)
    ensures Inv(Next(s, step))
  {
    match step
    case Enter(c, key) => EnterCounts(s, c, key); EnterTable(s, c, key); EnterOwners(s, c, key);
    case Acquire(c) => MutexCounts(s, step); AcquireTable(s, c); AcquireOwners(s, c);
    case Unlock(c) => MutexCounts(s, step); UnlockTable(s, c); UnlockOwners(s, c);
    case Leave(c) => LeaveCounts(s, c); LeaveTable(s, c); LeaveOwners(s, c);
  }

  ghost predicate IsRun(states: seq<Table>, steps: seq<Step>) {
    && |states| == |steps| + 1
    && states[0] == EMPTY
    && forall i | 0 <= i < |steps| :: Enabled(states[i], steps[i]) && states[i + 1] == Next(states[i], steps[i])
  }

  lemma {:induction false} RunKeepsInv(states: seq<Table>, steps: seq<Step>, i: nat)
    requires IsRun(states, steps) && i < |states|
    ensures Inv(states[i])
  {
    if i > 0 {
      RunKeepsInv(states, steps, i - 1);
      NextKeepsInv(states[i - 1], steps[i - 1]);
      assert Enabled(states[i - 1], steps[i - 1]) && states[i] == Next(states[i - 1], steps[i - 1]);
    } else {
      assert forall l :: Users(EMPTY, l) == {};
    }
  }

  /** Mutual exclusion per key, although lock objects come and go. */
  lemma AtMostOneHolder(states: seq<Table>, steps: seq<Step>, i: nat, c: Call, d: Call)
    requires IsRun(states, steps) && i < |states|
    requires c in states[i].calls && d in states[i].calls
    requires states[i].calls[c].Holding? && states[i].calls[d].Holding?
    requires states[i].calls[c].key == states[i].calls[d].key
    ensures c == d
  {
    RunKeepsInv(states, steps, i);
  }

  /** The table holds exactly the keys somebody is using: nothing leaks, nothing is dropped early. */
  lemma TableHoldsExactlyUsedKeys(states: seq<Table>, steps: seq<Step>, i: nat, key: Key)
    requires IsRun(states, steps) && i < |states|
    ensures key in states[i].locks <==> exists c :: c in states[i].calls && states[i].calls[c].key == key
  {
    RunKeepsInv(states, steps, i);
    var s := states[i];
    if key in s.locks {
      assert |Users(s, s.locks[key])| > 0;
      var c :| c in Users(s, s.locks[key]);
      assert c in s.calls && s.calls[c].key == key;
    }
  }

  // ----------------------------------------------------------- the lock as one step

  /** Who holds which key: all the delivery protocol sees of the lock table. */
  function Held(s: Table): map<Call, Key> {
    map c | c in s.calls && s.calls[c].Holding? :: s.calls[c].key
  }

  predicate IsFree(held: map<Call, Key>, key: Key) {
    forall c | c in held :: held[c] != key
  }

  /** What a step does to who holds what, as one lock per key would. */
  predicate LocksAtomically(s: Table, step: Step, after: map<Call, Key>) {
    match step
    case Acquire(c) => c in s.calls && IsFree(Held(s), s.calls[c].key) && after == Held(s)[c := s.calls[c].key]
    case Unlock(c) => c in Held(s) && after == Held(s) - {c}
    case _ => after == Held(s)
  }

  lemma AcquireTakesFree(s: Table, c: Call)
    requires TableOk(s) && OwnersOk(s) && Enabled(s, Acquire(c))
    ensures IsFree(Held(s), s.calls[c].key)
  {
    forall d | d in Held(s) ensures Held(s)[d] != s.calls[c].key {
      assert s.calls[d].lock in s.owner;
    }
  }

  lemma HeldAfter(s: Table, step: Step)
    requires Enabled(s, step)
    ensures Held(Next(s, step)) ==
            match step
            case Acquire(c) => Held(s)[c := s.calls[c].key]
            case Unlock(c) => Held(s) - {c}
            case _ => Held(s)
  {
  }

  /**
   * Over every run the table behaves as one lock per key: an acquisition takes a
   * key that is free, an unlock gives it back, and no other step changes who holds what.
   */
  lemma RefinesAtomicLocks(states: seq<Table>, steps: seq<Step>, i: nat)
    requires IsRun(states, steps) && i < |steps|
    ensures LocksAtomically(states[i], steps[i], Held(states[i + 1]))
  {
    RunKeepsInv(states, steps, i);
    assert Enabled(states[i], steps[i]) && states[i + 1] == Next(states[i], steps[i]);
    HeldAfter(states[i], steps[i]);
    if steps[i].Acquire? {
      AcquireTakesFree(states[i], steps[i].call);
    }
  }

  /** Over every run a waiting call can get the lock exactly when no call holds its key: a lock is never left taken. */
  lemma AcquirableExactly(states: seq<Table>, steps: seq<Step>, i: nat, c: Call)
    requires IsRun(states, steps) && i < |states|
    requires c in states[i].calls && states[i].calls[c].Waiting?
    ensures Enabled(states[i], Acquire(c)) <==>
            forall d | d in states[i].calls && states[i].calls[d].Holding? :: states[i].calls[d].key != states[i].calls[c].key
  {
    RunKeepsInv(states, steps, i);
    var s := states[i];
    if s.calls[c].lock in s.owner {
      var d := s.owner[s.calls[c].lock];
      assert s.calls[d].key == s.calls[c].key;
    } else {
      AcquireTakesFree(s, c);
    }
  }
}
