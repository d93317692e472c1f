/**
 * The delivery protocol over the outbox buckets: any number of goroutines
 * stage, deliver, flush, reconcile and restart, interleaved at every bbolt
 * transaction, every lock operation and every send.
 */
module OutboxProtocol {
  import opened Common
  import opened OutboxKeys
  import opened OutboxStorage

  /** What a sender carries: where the entry was stored, which key lock guards it, its bytes. */
  datatype Attempt = Attempt(storageId: string, lockId: string, entry: Entry)

  function KeyOf(e: Entry): string {
    OutboxKey(e.peer, e.kind, e.entity)
  }

  /** The lock an entry found under `id` is delivered under. */
  function LockIdFor(id: string, e: Entry): string {
    if e.entity != "" then KeyOf(e) else id
  }

  /** Program counter of one goroutine. */
  datatype Pc =
    | Idle
    | Reserved(entry: Entry)                    // token reserved, entry not yet put
    | PutTried(entry: Entry)                    // put done or refused, release pending
    | Locked(attempt: Attempt)                  // delivery lock taken
    | Matched(attempt: Attempt)                 // stored bytes compared equal, send pending
    | Acked(attempt: Attempt)                   // peer acknowledged, compare-delete pending
    | Inspecting(id: string, raw: Entry)        // reconciler under the key lock
    | Dropping(id: string, raw: Entry)          // the entity no longer exists

  /** The key locks a goroutine holds, where it is, and the entries whose entity it has just found absent. */
  datatype Thread = Thread(held: set<string>, pc: Pc, found: set<Entry>)

  datatype Send = Send(entry: Entry, ok: bool)

  datatype System = System(
    store: Store,
    threads: map<nat, Thread>,
    catalog: map<(string, string), string>,     // current payload of each (kind, entity)
    staged: set<Entry>,                         // history: entries whose put succeeded
    sent: seq<Send>,                            // history: sends in order, with their outcome
    absent: set<Entry>,                         // history: staged entries whose entity a reconcile found absent
    dropped: set<Entry>)                        // history: entries a reconcile deleted

  function Init(catalog: map<(string, string), string>): System {
    System(EMPTY, map[], catalog, {}, [], {}, {})
  }

  function Th(s: System, t: nat): Thread {
    if t in s.threads then s.threads[t] else Thread({}, Idle, {})
  }

  predicate Free(s: System, key: string) {
    forall t | t in s.threads :: key !in s.threads[t].held
  }

  function SetPc(s: System, t: nat, pc: Pc): System {
    s.(threads := s.threads[t := Thread(Th(s, t).held, pc, {})])
  }

  function SetThread(s: System, t: nat, held: set<string>, pc: Pc): System {
    s.(threads := s.threads[t := Thread(held, pc, {})])
  }

  /** Like SetPc, for the steps that follow a finding and may still use it. */
  function SetFound(s: System, t: nat, pc: Pc, found: set<Entry>): System {
    s.(threads := s.threads[t := Thread(Th(s, t).held, pc, found)])
  }

  /** The entries staged so far about one entity of one kind. */
  function About(s: System, subject: (string, string)): set<Entry> {
    set e | e in s.staged && (e.kind, e.entity) == subject
  }

  datatype Step =
    | Reserve(t: nat, peer: string, kind: string, entity: string, payload: string, now: int)
    | Put(t: nat)
    | Release(t: nat)
    | Lock(t: nat, key: string)
    | Unlock(t: nat, key: string)
    | BeginDelivery(t: nat, attempt: Attempt)
    | Match(t: nat)
    | Deliver(t: nat, ok: bool)
    | Acknowledge(t: nat)
    | BeginReconcile(t: nat, id: string, raw: Entry)
    | Inspect(t: nat)
    | DropFound(t: nat, id: string, raw: Entry)            // one finding serves all attempts of a mutation
    | Drop(t: nat)
    | GiveUp(t: nat)                                       // a storage error ends the operation early
    | Mutate(catalog: map<(string, string), string>)       // the catalog changes under everyone
    | Restart

  predicate Enabled(s: System, step: Step) {
    match step
    case Reserve(t, _, _, _, _, _) =>
      (Th(s, t).pc.Idle? || Th(s, t).pc.Inspecting?) && s.store.generation < MAX_UINT64
    case Put(t) => Th(s, t).pc.Reserved?
    case Release(t) => Th(s, t).pc.PutTried?
    case Lock(t, key) => Th(s, t).pc.Idle? && Free(s, key)
    case Unlock(t, key) => Th(s, t).pc.Idle? && key in Th(s, t).held
    case BeginDelivery(t, a) =>
      Th(s, t).pc.Idle? && Free(s, a.lockId) && a.lockId == LockIdFor(a.storageId, a.entry)
    case Match(t) => Th(s, t).pc.Locked?
    case Deliver(t, _) => Th(s, t).pc.Matched?
    case Acknowledge(t) => Th(s, t).pc.Acked?
    case BeginReconcile(t, _, raw) =>
      Th(s, t).pc.Idle? && raw in s.staged && (Free(s, KeyOf(raw)) || KeyOf(raw) in Th(s, t).held)
    case Inspect(t) => Th(s, t).pc.Inspecting?
    case DropFound(t, _, raw) => Th(s, t).pc.Idle? && raw in Th(s, t).found && KeyOf(raw) in Th(s, t).held
    case Drop(t) => Th(s, t).pc.Dropping?
    case GiveUp(t) => true
    case Mutate(_) => true
    case Restart => true
  }

  function Next(s: System, step: Step): System
    requires Enabled(s, step)
  {
    match step
    case Reserve(t, peer, kind, entity, payload, now) =>
      var id := OutboxKey(peer, kind, entity);
      var next := ReserveTx(s.store, id).value;
      SetPc(s, t, Reserved(Entry(id, peer, kind, entity, next.generation, payload, now))).(store := next)
    case Put(t) =>
      var e := Th(s, t).pc.entry;
      var applied := IsCurrent(s.store, e.id, e.generation);
      SetPc(s, t, PutTried(e)).(store := PutTx(s.store, e.id, e.generation, e),
                                staged := if applied then s.staged + {e} else s.staged)
    case Release(t) =>
      var e := Th(s, t).pc.entry;
      SetPc(s, t, Idle).(store := ReleaseTx(s.store, e.id, e.generation))
    case Lock(t, key) => SetThread(s, t, Th(s, t).held + {key}, Idle)
    case Unlock(t, key) => SetThread(s, t, Th(s, t).held - {key}, Idle)
    case BeginDelivery(t, a) => SetThread(s, t, Th(s, t).held + {a.lockId}, Locked(a))
    case Match(t) =>
      var a := Th(s, t).pc.attempt;
      SetPc(s, t, if Stored(s.store, a.storageId, a.entry) then Matched(a) else Idle)
    case Deliver(t, ok) =>
      var a := Th(s, t).pc.attempt;
      SetPc(s, t, if ok then Acked(a) else Idle).(sent := s.sent + [Send(a.entry, ok)])
    case Acknowledge(t) =>
      var a := Th(s, t).pc.attempt;
      SetPc(s, t, Idle).(store := DeleteTx(s.store, a.storageId, a.entry))
    case BeginReconcile(t, id, raw) => SetThread(s, t, Th(s, t).held + {KeyOf(raw)}, Inspecting(id, raw))
    case Inspect(t) =>
      var pc := Th(s, t).pc;
      var subject := (pc.raw.kind, pc.raw.entity);
      if subject in s.catalog then SetPc(s, t, Idle)
      else SetFound(s, t, Dropping(pc.id, pc.raw), About(s, subject)).(absent := s.absent + About(s, subject))
    case DropFound(t, id, raw) => SetFound(s, t, Dropping(id, raw), Th(s, t).found)
    case Drop(t) =>
      var pc := Th(s, t).pc;
      SetFound(s, t, Idle, Th(s, t).found).(store := DeleteTx(s.store, pc.id, pc.raw),
                         dropped := if Stored(s.store, pc.id, pc.raw) then s.dropped + {pc.raw} else s.dropped)
    case GiveUp(t) => SetPc(s, t, Idle)
    case Mutate(catalog) => s.(catalog := catalog)
    case Restart => s.(store := ReopenTx(s.store), threads := map[])
  }

  // ---------------------------------------------------------------- invariant

  ghost predicate StagedOk(s: System) {
    && (forall e | e in s.staged :: e.id == KeyOf(e) && e.generation <= s.store.generation)
    && (forall e, f | e in s.staged && f in s.staged && e.generation == f.generation :: e == f)
  }

  /** A stored entry is the newest one ever put under its key. */
  ghost predicate EntriesOk(s: System) {
    forall k | k in s.store.entries ::
      && s.store.entries[k] in s.staged
      && s.store.entries[k].id == k
      && forall e | e in s.staged && e.id == k :: e.generation <= s.store.entries[k].generation
  }

  /** A live reservation is newer than everything ever put under its key. */
  ghost predicate ReservationsOk(s: System) {
    forall k | k in s.store.reservations ::
      && s.store.reservations[k] <= s.store.generation
      && forall e | e in s.staged && e.id == k :: e.generation < s.store.reservations[k]
  }

  ghost predicate SentUpTo(s: System, e: Entry) {
    forall i | 0 <= i < |s.sent| && s.sent[i].entry.id == e.id :: s.sent[i].entry.generation <= e.generation
  }

  ghost predicate ThreadOk(s: System, th: Thread) {
    th.found <= s.absent &&
    match th.pc
    case Reserved(e) =>
      && e.id == KeyOf(e)
      && e.generation <= s.store.generation
      && forall f | f in s.staged :: f.generation != e.generation
    case PutTried(e) => e.generation <= s.store.generation
    case Locked(a) => a.lockId in th.held && a.lockId == LockIdFor(a.storageId, a.entry)
    case Matched(a) => a.storageId == a.entry.id && a.entry.id in th.held && a.entry in s.staged && SentUpTo(s, a.entry)
    case Acked(a) => Send(a.entry, true) in s.sent
    case Inspecting(_, raw) => raw in s.staged
    case Dropping(_, raw) => raw in s.absent
    case _ => true
  }

  ghost predicate ControlsOk(s: System) {
    forall t | t in s.threads :: ThreadOk(s, s.threads[t])
  }

  /** The delivery lock of a key has at most one holder. */
  ghost predicate LocksOk(s: System) {
    forall t, u | t in s.threads && u in s.threads && t != u :: s.threads[t].held !! s.threads[u].held
  }

  /** The goroutine has a token in hand, put or not. */
  predicate HasToken(pc: Pc) {
    pc.Reserved? || pc.PutTried?
  }

  ghost predicate TokensOk(s: System) {
    forall t, u | t in s.threads && u in s.threads && t != u
                  && HasToken(s.threads[t].pc) && HasToken(s.threads[u].pc) ::
      s.threads[t].pc.entry.generation != s.threads[u].pc.entry.generation
  }

  /** Sends of one key never go back to an older generation. */
  ghost predicate Ordered(sent: seq<Send>) {
    forall i, j | 0 <= i < j < |sent| && sent[i].entry.id == sent[j].entry.id ::
      sent[i].entry.generation <= sent[j].entry.generation
  }

  ghost predicate SentOk(s: System) {
    && Ordered(s.sent)
    && forall i | 0 <= i < |s.sent| :: s.sent[i].entry in s.staged
  }

  ghost predicate Superseded(s: System, e: Entry) {
    exists f :: f in s.staged && f.id == e.id && f.generation > e.generation
  }

  /** Where a staged notification can be: stored, acknowledged, replaced by a newer one, or dropped. */
  ghost predicate Accounted(s: System, e: Entry) {
    || Stored(s.store, e.id, e)
    || Send(e, true) in s.sent
    || Superseded(s, e)
    || e in s.dropped
  }

  ghost predicate NothingLost(s: System) {
    && (forall e | e in s.staged :: Accounted(s, e))
    && s.dropped <= s.absent <= s.staged
  }

  ghost predicate Inv(s: System) {
    && StagedOk(s) && EntriesOk(s) && ReservationsOk(s)
    && ControlsOk(s) && LocksOk(s) && TokensOk(s)
    && SentOk(s) && NothingLost(s)
  }

  // ------------------------------------------------------- preservation lemmas

  /** Accounting survives any step that keeps the stored entry and only extends the history. */
  lemma AccountedFrame(s: System, s': System, e: Entry)
    requires Accounted(s, e)
    requires Stored(s.store, e.id, e) ==> Stored(s'.store, e.id, e)
    requires s.staged <= s'.staged && s.dropped <= s'.dropped
    requires s.sent <= s'.sent
    ensures Accounted(s', e)
  {
    if Send(e, true) in s.sent {
      var i :| 0 <= i < |s.sent| && s.sent[i] == Send(e, true);
      assert s'.sent[i] == Send(e, true);
    }
    if Superseded(s, e) {
      var f :| f in s.staged && f.id == e.id && f.generation > e.generation;
      assert f in s'.staged;
    }
  }

  lemma NothingLostFrame(s: System, s': System)
    requires NothingLost(s)
    requires s.store.entries == s'.store.entries && s.staged == s'.staged && s.dropped == s'.dropped
    requires s.sent <= s'.sent && s.absent <= s'.absent <= s'.staged
    ensures NothingLost(s')
  {
    forall e | e in s'.staged ensures Accounted(s', e) {
      AccountedFrame(s, s', e);
    }
  }

  /** A thread that gives up no lock and takes only free ones keeps mutual exclusion. */
  lemma LocksFrame(s: System, s': System, t: nat)
    requires LocksOk(s)
    requires t in s'.threads && s'.threads == s.threads[t := s'.threads[t]]
    requires forall key | key in s'.threads[t].held && key !in Th(s, t).held :: Free(s, key)
    ensures LocksOk(s')
  {
    var held := s'.threads[t].held;
    forall u | u in s.threads && u != t ensures held !! s.threads[u].held {
      forall key | key in held ensures key !in s.threads[u].held {
        if key in Th(s, t).held {
          assert t in s.threads;
        }
      }
    }
  }

  lemma TokensFrame(s: System, s': System, t: nat)
    requires TokensOk(s)
    requires t in s'.threads && s'.threads == s.threads[t := s'.threads[t]]
    requires HasToken(s'.threads[t].pc) ==>
               HasToken(Th(s, t).pc) && s'.threads[t].pc.entry.generation == Th(s, t).pc.entry.generation
    ensures TokensOk(s')
  {
  }

  /** The other threads' facts depend only on the history and the counter, which only grow. */
  lemma ControlFrame(s: System, s': System, th: Thread)
    requires ThreadOk(s, th)
    requires s.store.generation <= s'.store.generation && s.absent <= s'.absent
    requires s.staged == s'.staged && s.sent == s'.sent
    ensures ThreadOk(s', th)
  {
  }

  /** Steps that touch only one thread's control, the store's reservations or the entities found missing. */
  lemma ControlKeepsInv(s: System, s': System, t: nat)
    requires Inv(s)
    requires t in s'.threads && s'.threads == s.threads[t := s'.threads[t]]
    requires forall key | key in s'.threads[t].held && key !in Th(s, t).held :: Free(s, key)
    requires ThreadOk(s', s'.threads[t]) && !s'.threads[t].pc.Reserved?
    requires s'.threads[t].pc.PutTried? ==> Th(s, t).pc == Reserved(s'.threads[t].pc.entry)
    requires s'.store == s.store.(reservations := s'.store.reservations)
    requires forall k | k in s'.store.reservations ::
               k in s.store.reservations && s'.store.reservations[k] == s.store.reservations[k]
    requires s'.staged == s.staged && s'.sent == s.sent && s'.dropped == s.dropped && s.absent <= s'.absent <= s'.staged
    ensures Inv(s')
  {
    LocksFrame(s, s', t);
    TokensFrame(s, s', t);
    NothingLostFrame(s, s');
    forall u | u in s'.threads ensures ThreadOk(s', s'.threads[u]) {
      if u != t {
        ControlFrame(s, s', s.threads[u]);
      }
    }
    assert ReservationsOk(s');
  }

  lemma ReserveKeepsInv(s: System, step: Step)
    requires Inv(s) && step.Reserve? && Enabled(s, step)
    ensures Inv(Next(s, step))
  {
    var s' := Next(s, step);
    LocksFrame(s, s', step.t);
    NothingLostFrame(s, s');
    forall u | u in s'.threads ensures ThreadOk(s', s'.threads[u]) {
      if u != step.t {
        ControlFrame(s, s', s.threads[u]);
      }
    }
  }

  /** A put is applied only when its entry is strictly newer than everything put under the key. */
  lemma AppliedPutIsNewest(s: System, t: nat, e: Entry)
    requires Inv(s) && Th(s, t).pc == Reserved(e) && IsCurrent(s.store, e.id, e.generation)
    ensures e.id == KeyOf(e) && e.generation <= s.store.generation
    ensures forall f | f in s.staged :: f.generation != e.generation
    ensures forall f | f in s.staged && f.id == e.id :: f.generation < e.generation
  {
    assert ThreadOk(s, s.threads[t]);
  }

  lemma AppliedPutKeepsBuckets(s: System, s': System, e: Entry)
    requires StagedOk(s) && EntriesOk(s) && ReservationsOk(s)
    requires e.id == KeyOf(e) && e.generation <= s.store.generation
    requires forall f | f in s.staged :: f.generation != e.generation
    requires forall f | f in s.staged && f.id == e.id :: f.generation < e.generation
    requires s'.staged == s.staged + {e}
    requires s'.store == s.store.(entries := s.store.entries[e.id := e], reservations := s.store.reservations - {e.id})
    ensures StagedOk(s') && EntriesOk(s') && ReservationsOk(s')
  {
    AppliedPutKeepsEntries(s, s', e);
    forall k | k in s'.store.reservations
      ensures s'.store.reservations[k] <= s'.store.generation
      ensures forall f | f in s'.staged && f.id == k :: f.generation < s'.store.reservations[k]
    {
      assert k in s.store.reservations && k != e.id;
    }
  }

  lemma AppliedPutKeepsEntries(s: System, s': System, e: Entry)
    requires EntriesOk(s)
    requires forall f | f in s.staged && f.id == e.id :: f.generation < e.generation
    requires s'.staged == s.staged + {e} && s'.store.entries == s.store.entries[e.id := e]
    ensures EntriesOk(s')
  {
  }

  lemma AppliedPutLosesNothing(s: System, s': System, e: Entry)
    requires NothingLost(s)
    requires forall f | f in s.staged && f.id == e.id :: f.generation < e.generation
    requires s'.staged == s.staged + {e} && s'.sent == s.sent && s'.dropped == s.dropped && s'.absent == s.absent
    requires s'.store.entries == s.store.entries[e.id := e]
    ensures NothingLost(s')
  {
    forall f | f in s'.staged ensures Accounted(s', f) {
      if f == e {
        assert Stored(s'.store, e.id, e);
      } else if f.id == e.id {
        assert e in s'.staged && Superseded(s', f);
      } else {
        AccountedFrame(s, s', f);
      }
    }
  }

  lemma AppliedPutKeepsThreads(s: System, step: Step)
    requires Inv(s) && step.Put? && Enabled(s, step)
    requires var e := Th(s, step.t).pc.entry; IsCurrent(s.store, e.id, e.generation)
    ensures var s' := Next(s, step); ControlsOk(s') && LocksOk(s') && TokensOk(s') && SentOk(s')
  {
    var s' := Next(s, step);
    var e := Th(s, step.t).pc.entry;
    LocksFrame(s, s', step.t);
    TokensFrame(s, s', step.t);
    forall u | u in s'.threads ensures ThreadOk(s', s'.threads[u]) {
      if u != step.t {
        var th := s.threads[u];
        assert ThreadOk(s, th);
        if th.pc.Reserved? {
          assert th.pc.entry.generation != e.generation;
        }
      }
    }
  }

  lemma PutKeepsInv(s: System, step: Step)
    requires Inv(s) && step.Put? && Enabled(s, step)
    ensures Inv(Next(s, step))
  {
    var e := Th(s, step.t).pc.entry;
    if IsCurrent(s.store, e.id, e.generation) {
      AppliedPutIsNewest(s, step.t, e);
      AppliedPutKeepsBuckets(s, Next(s, step), e);
      AppliedPutLosesNothing(s, Next(s, step), e);
      AppliedPutKeepsThreads(s, step);
    } else {
      assert ThreadOk(s, s.threads[step.t]);
      ControlKeepsInv(s, Next(s, step), step.t);
    }
  }

  /** A matching entry is the newest of its key, and its lock keeps every other sender of the key out. */
  lemma MatchKeepsInv(s: System, step: Step)
    requires Inv(s) && step.Match? && Enabled(s, step)
    ensures Inv(Next(s, step))
  {
    var s' := Next(s, step);
    var a := Th(s, step.t).pc.attempt;
    assert ThreadOk(s, s.threads[step.t]);
    if Stored(s.store, a.storageId, a.entry) {
      assert a.lockId == a.storageId == a.entry.id;
      assert SentUpTo(s', a.entry);
    }
    ControlKeepsInv(s, s', step.t);
  }

  lemma DeliverKeepsControls(s: System, step: Step)
    requires Inv(s) && step.Deliver? && Enabled(s, step)
    ensures ControlsOk(Next(s, step))
  {
    var s' := Next(s, step);
    var a := Th(s, step.t).pc.attempt;
    assert ThreadOk(s, s.threads[step.t]);
    assert s'.sent[|s.sent|] == Send(a.entry, step.ok);
    forall u | u in s'.threads ensures ThreadOk(s', s'.threads[u]) {
      if u != step.t {
        var th := s.threads[u];
        assert ThreadOk(s, th);
        assert th.held !! s.threads[step.t].held;
        assert th.pc.Acked? ==> Send(th.pc.attempt.entry, true) in s'.sent;
      }
    }
  }

  lemma DeliverKeepsOrder(s: System, s': System, e: Entry, ok: bool)
    requires SentOk(s) && e in s.staged && SentUpTo(s, e)
    requires s'.sent == s.sent + [Send(e, ok)] && s'.staged == s.staged
    ensures SentOk(s')
  {
  }

  lemma DeliverKeepsInv(s: System, step: Step)
    requires Inv(s) && step.Deliver? && Enabled(s, step)
    ensures Inv(Next(s, step))
  {
    var s' := Next(s, step);
    assert ThreadOk(s, s.threads[step.t]);
    DeliverKeepsOrder(s, s', Th(s, step.t).pc.attempt.entry, step.ok);
    DeliverKeepsControls(s, step);
    LocksFrame(s, s', step.t);
    TokensFrame(s, s', step.t);
    NothingLostFrame(s, s');
  }

  /** A compare-delete that is justified by `e` being acknowledged or dropped loses nothing. */
  lemma DeleteKeepsInv(s: System, s': System, t: nat, id: string, e: Entry)
    requires Inv(s)
    requires t in s'.threads && s'.threads[t].found <= s.absent
    requires s' == SetFound(s, t, Idle, s'.threads[t].found).(store := DeleteTx(s.store, id, e), dropped := s'.dropped)
    requires s.dropped <= s'.dropped <= s.dropped + {e}
    requires e in s'.dropped && e !in s.dropped ==> Stored(s.store, id, e) && e in s.absent
    requires Stored(s.store, id, e) ==> Send(e, true) in s.sent || e in s'.dropped
    ensures Inv(s')
  {
    LocksFrame(s, s', t);
    TokensFrame(s, s', t);
    DeleteLosesNothing(s, s', id, e);
    forall u | u in s'.threads ensures ThreadOk(s', s'.threads[u]) {
      if u != t {
        ControlFrame(s, s', s.threads[u]);
      }
    }
  }

  lemma DeleteLosesNothing(s: System, s': System, id: string, e: Entry)
    requires NothingLost(s) && EntriesOk(s)
    requires s'.store == DeleteTx(s.store, id, e)
    requires s'.staged == s.staged && s'.sent == s.sent && s'.absent == s.absent
    requires s.dropped <= s'.dropped <= s.dropped + {e}
    requires e in s'.dropped && e !in s.dropped ==> e in s.absent
    requires Stored(s.store, id, e) ==> Send(e, true) in s.sent || e in s'.dropped
    ensures NothingLost(s')
  {
    forall f | f in s'.staged ensures Accounted(s', f) {
      assert Accounted(s, f);
      if f != e || !Stored(s.store, id, e) {
        AccountedFrame(s, s', f);
      }
    }
  }

  lemma LockStepKeepsInv(s: System, step: Step)
    requires Inv(s) && Enabled(s, step)
    requires step.Lock? || step.Unlock? || step.BeginDelivery? || step.BeginReconcile?
    ensures Inv(Next(s, step))
  {
    ControlKeepsInv(s, Next(s, step), step.t);
  }

  lemma QuietStepKeepsInv(s: System, step: Step)
    requires Inv(s) && Enabled(s, step)
    requires step.Release? || step.Inspect? || step.DropFound? || step.GiveUp?
    ensures Inv(Next(s, step))
  {
    assert Th(s, step.t).pc.Inspecting? ==> ThreadOk(s, s.threads[step.t]);
    ControlKeepsInv(s, Next(s, step), step.t);
  }

  lemma DeleteStepKeepsInv(s: System, step: Step)
    requires Inv(s) && Enabled(s, step)
    requires step.Acknowledge? || step.Drop?
    ensures Inv(Next(s, step))
  {
    var pc := Th(s, step.t).pc;
    assert ThreadOk(s, s.threads[step.t]);
    if step.Acknowledge? {
      DeleteKeepsInv(s, Next(s, step), step.t, pc.attempt.storageId, pc.attempt.entry);
    } else {
      DeleteKeepsInv(s, Next(s, step), step.t, pc.id, pc.raw);
    }
  }

  lemma MutateKeepsInv(s: System, catalog: map<(string, string), string>)
    requires Inv(s)
    ensures Inv(s.(catalog := catalog))
  {
    var s' := s.(catalog := catalog);
    NothingLostFrame(s, s');
    forall u | u in s'.threads ensures ThreadOk(s', s'.threads[u]) {
      ControlFrame(s, s', s.threads[u]);
    }
  }

  lemma RestartKeepsInv(s: System)
    requires Inv(s)
    ensures Inv(Next(s, Restart))
  {
    NothingLostFrame(s, Next(s, Restart));
  }

  /** Every step of every thread keeps the invariant. */
  lemma NextKeepsInv(s: System, step: Step)
    requires Inv(s) && Enabled(s, step)
    ensures Inv(Next(s, step))
  {
    match step
    case Reserve(_, _, _, _, _, _) => ReserveKeepsInv(s, step);
    case Put(_) => PutKeepsInv(s, step);
    case Match(_) => MatchKeepsInv(s, step);
    case Deliver(_, _) => DeliverKeepsInv(s, step);
    case Lock(_, _) => LockStepKeepsInv(s, step);
    case Unlock(_, _) => LockStepKeepsInv(s, step);
    case BeginDelivery(_, _) => LockStepKeepsInv(s, step);
    case BeginReconcile(_, _, _) => LockStepKeepsInv(s, step);
    case Release(_) => QuietStepKeepsInv(s, step);
    case Inspect(_) => QuietStepKeepsInv(s, step);
    case DropFound(_, _, _) => QuietStepKeepsInv(s, step);
    case GiveUp(_) => QuietStepKeepsInv(s, step);
    case Acknowledge(_) => DeleteStepKeepsInv(s, step);
    case Drop(_) => DeleteStepKeepsInv(s, step);
    case Mutate(catalog) => MutateKeepsInv(s, catalog);
    case Restart => RestartKeepsInv(s);
  }

  // ------------------------------------------------------------ whole runs

  /** `states` is what `steps` produce from an empty outbox. */
  ghost predicate IsRun(states: seq<System>, steps: seq<Step>) {
    && |states| == |steps| + 1
    && states[0] == Init(states[0].catalog)
    && forall i | 0 <= i < |steps| :: Enabled(states[i], steps[i]) && states[i + 1] == Next(states[i], steps[i])
  }

  lemma {:induction false} RunKeepsInv(states: seq<System>, steps: seq<Step>, i: nat)
    requires IsRun(states, steps) && i < |states|
    ensures Inv(states[i])
  {
    if i > 0 {
      RunKeepsInv(states, steps, i - 1);
      NextKeepsInv(states[i - 1], steps[i - 1]);
      assert Enabled(states[i - 1], steps[i - 1]) && states[i] == Next(states[i - 1], steps[i - 1]);
    }
  }

  /** Ordering: after any run, an older payload of a key was never sent after a newer one. */
  lemma DeliveryOrder(states: seq<System>, steps: seq<Step>, i: nat, j: nat)
    requires IsRun(states, steps)
    requires i < j < |states[|steps|].sent|
    requires var a, b := states[|steps|].sent[i].entry, states[|steps|].sent[j].entry;
             (a.peer, a.kind, a.entity) == (b.peer, b.kind, b.entity)
    ensures var a, b := states[|steps|].sent[i].entry, states[|steps|].sent[j].entry;
            a.generation < b.generation || a == b
  {
    RunKeepsInv(states, steps, |steps|);
  }

  /** At some earlier moment the entry was already staged and its entity was not in the catalog. */
  ghost predicate WasGone(states: seq<System>, i: nat, e: Entry)
    requires i < |states|
  {
    exists k :: 0 <= k < i && e in states[k].staged && (e.kind, e.entity) !in states[k].catalog
  }

  /** What a reconcile finds absent was absent while the entry was staged. */
  lemma {:induction false} AbsentWasGone(states: seq<System>, steps: seq<Step>, i: nat, e: Entry)
    requires IsRun(states, steps) && i < |states| && e in states[i].absent
    ensures WasGone(states, i, e)
  {
    var s := states[i - 1];
    assert Enabled(s, steps[i - 1]) && states[i] == Next(s, steps[i - 1]);
    if e in s.absent {
      AbsentWasGone(states, steps, i - 1, e);
    } else {
      assert e in s.staged && (e.kind, e.entity) !in s.catalog;
    }
  }

  /** No loss: each staged entry is stored, acknowledged, superseded, or dropped after its entity was gone. */
  lemma NoStagedEntryLost(states: seq<System>, steps: seq<Step>, i: nat, e: Entry)
    requires IsRun(states, steps) && i < |states|
    requires e in states[i].staged
    ensures Accounted(states[i], e)
    ensures e in states[i].dropped ==> WasGone(states, i, e)
  {
    RunKeepsInv(states, steps, i);
    if e in states[i].dropped {
      AbsentWasGone(states, steps, i, e);
    }
  }

  /** Once a key has drained, its newest notification was acknowledged, or dropped after its entity was gone. */
  lemma DrainedKeyWasDelivered(states: seq<System>, steps: seq<Step>, i: nat, newest: Entry)
    requires IsRun(states, steps) && i < |states|
    requires newest in states[i].staged && newest.id !in states[i].store.entries
    requires forall f | f in states[i].staged && f.id == newest.id :: f.generation <= newest.generation
    ensures Send(newest, true) in states[i].sent || (newest in states[i].dropped && WasGone(states, i, newest))
  {
    RunKeepsInv(states, steps, i);
    NoStagedEntryLost(states, steps, i, newest);
  }

  lemma StepGrows(states: seq<System>, steps: seq<Step>, i: nat)
    requires IsRun(states, steps) && i < |steps|
    ensures Grows(states[i], states[i + 1])
  {
    assert Enabled(states[i], steps[i]) && states[i + 1] == Next(states[i], steps[i]);
  }

  predicate Grows(s: System, s': System) {
    s.store.generation <= s'.store.generation && s.staged <= s'.staged
  }

  lemma {:induction false} GrowsAlong(states: seq<System>, i: nat, j: nat)
    requires i <= j < |states| && forall k | i <= k < j :: Grows(states[k], states[k + 1])
    ensures Grows(states[i], states[j])
    decreases j
  {
    if i < j {
      GrowsAlong(states, i, j - 1);
      assert Grows(states[j - 1], states[j - 1 + 1]);
    }
  }

  /** The token counter never goes back, over any stretch of any run, restarts included. */
  lemma CounterMonotone(states: seq<System>, steps: seq<Step>, i: nat, j: nat)
    requires IsRun(states, steps) && i <= j < |states|
    ensures states[i].store.generation <= states[j].store.generation
    ensures states[i].staged <= states[j].staged
  {
    forall k | i <= k < j ensures Grows(states[k], states[k + 1]) {
      StepGrows(states, steps, k);
    }
    GrowsAlong(states, i, j);
  }

  /** Tokens are never reused: two reservations of one run always get increasing tokens. */
  lemma TokensNeverReused(states: seq<System>, steps: seq<Step>, i: nat, j: nat)
    requires IsRun(states, steps) && i < j < |steps|
    requires steps[i].Reserve? && steps[j].Reserve?
    ensures Th(states[i + 1], steps[i].t).pc.Reserved? && Th(states[j + 1], steps[j].t).pc.Reserved?
    ensures Th(states[i + 1], steps[i].t).pc.entry.generation < Th(states[j + 1], steps[j].t).pc.entry.generation
  {
    assert Enabled(states[i], steps[i]) && states[i + 1] == Next(states[i], steps[i]);
    assert Enabled(states[j], steps[j]) && states[j + 1] == Next(states[j], steps[j]);
    CounterMonotone(states, steps, i + 1, j);
  }

  // ------------------------------------------------- which puts and attempts get through

  /** The token is in the goroutine's hand, for this key. */
  predicate Carries(pc: Pc, id: string, token: nat) {
    HasToken(pc) && pc.entry.id == id && pc.entry.generation == token
  }

  /** A restart, a newer reservation of the key, or the holder's own put or release ends a reservation. */
  predicate Ends(s: System, step: Step, id: string, token: nat) {
    match step
    case Restart => true
    case Reserve(_, peer, kind, entity, _, _) => OutboxKey(peer, kind, entity) == id
    case Put(t) => Carries(Th(s, t).pc, id, token)
    case Release(t) => Carries(Th(s, t).pc, id, token)
    case _ => false
  }

  lemma ReservationMoves(states: seq<System>, steps: seq<Step>, k: nat, id: string, token: nat)
    requires IsRun(states, steps) && k < |steps| && token <= states[k].store.generation
    ensures StandsAt(states, steps, k, id, token)
  {
    assert Enabled(states[k], steps[k]) && states[k + 1] == Next(states[k], steps[k]);
  }

  /** What a reservation leaves: the newest token of its key, in the hand of its goroutine. */
  lemma ReserveGives(states: seq<System>, steps: seq<Step>, i: nat)
    requires IsRun(states, steps) && i < |steps| && steps[i].Reserve?
    ensures Th(states[i + 1], steps[i].t).pc.Reserved?
    ensures var e, r := Th(states[i + 1], steps[i].t).pc.entry, steps[i];
            && (e.peer, e.kind, e.entity, e.payload, e.createdAt) == (r.peer, r.kind, r.entity, r.payload, r.now)
            && states[i].store.generation < e.generation == states[i + 1].store.generation
            && IsCurrent(states[i + 1].store, e.id, e.generation)
  {
    assert Enabled(states[i], steps[i]) && states[i + 1] == Next(states[i], steps[i]);
  }

  predicate StandsAt(states: seq<System>, steps: seq<Step>, k: nat, id: string, token: nat)
    requires k < |steps| < |states|
  {
    IsCurrent(states[k + 1].store, id, token) <==>
      IsCurrent(states[k].store, id, token) && !Ends(states[k], steps[k], id, token)
  }

  lemma {:induction false} StandsAlong(states: seq<System>, steps: seq<Step>, i: nat, j: nat, id: string, token: nat)
    requires i < j <= |steps| < |states| && IsCurrent(states[i + 1].store, id, token)
    requires forall k: nat | i < k < j :: StandsAt(states, steps, k, id, token)
    ensures IsCurrent(states[j].store, id, token) <==> forall k | i < k < j :: !Ends(states[k], steps[k], id, token)
    decreases j
  {
    if i + 1 < j {
      StandsAlong(states, steps, i, j - 1, id, token);
      assert StandsAt(states, steps, j - 1, id, token);
    }
  }

  /** A reservation of any run stands exactly until the first step that ends it: nobody else's release or put does. */
  lemma ReservationStandsExactly(states: seq<System>, steps: seq<Step>, i: nat, j: nat)
    requires IsRun(states, steps) && i < j < |states| && steps[i].Reserve?
    ensures Th(states[i + 1], steps[i].t).pc.Reserved?
    ensures var e := Th(states[i + 1], steps[i].t).pc.entry;
            IsCurrent(states[j].store, e.id, e.generation) <==>
              forall k | i < k < j :: !Ends(states[k], steps[k], e.id, e.generation)
  {
    ReserveGives(states, steps, i);
    var e := Th(states[i + 1], steps[i].t).pc.entry;
    forall k: nat | i < k < j ensures StandsAt(states, steps, k, e.id, e.generation) {
      CounterMonotone(states, steps, i + 1, k);
      ReservationMoves(states, steps, k, e.id, e.generation);
    }
    StandsAlong(states, steps, i, j, e.id, e.generation);
  }

  /** A token in hand was there before, unless the step reserved it. */
  lemma TokenStays(states: seq<System>, steps: seq<Step>, k: nat, t: nat)
    requires IsRun(states, steps) && k < |steps| && Th(states[k + 1], t).pc.Reserved?
    ensures Th(states[k], t).pc == Th(states[k + 1], t).pc
            || states[k].store.generation < Th(states[k + 1], t).pc.entry.generation
  {
    assert Enabled(states[k], steps[k]) && states[k + 1] == Next(states[k], steps[k]);
  }

  predicate PcAt(s: System, t: nat, pc: Pc) {
    Th(s, t).pc == pc
  }

  lemma {:induction false} PcBackwards(states: seq<System>, t: nat, pc: Pc, k: nat, j: nat)
    requires k <= j < |states| && PcAt(states[j], t, pc)
    requires forall m | k <= m < j :: PcAt(states[m + 1], t, pc) ==> PcAt(states[m], t, pc)
    ensures PcAt(states[k], t, pc)
    decreases j - k
  {
    if k < j {
      PcBackwards(states, t, pc, k + 1, j);
    }
  }

  /** A goroutine that carries the token of its reservation has done nothing else since. */
  lemma ReservedSince(states: seq<System>, steps: seq<Step>, i: nat, j: nat, k: nat)
    requires IsRun(states, steps) && i < k <= j < |states| && steps[i].Reserve?
    requires Th(states[j], steps[i].t).pc == Th(states[i + 1], steps[i].t).pc
    ensures Th(states[k], steps[i].t).pc == Th(states[i + 1], steps[i].t).pc
  {
    var t, pc := steps[i].t, Th(states[i + 1], steps[i].t).pc;
    ReserveGives(states, steps, i);
    forall m | k <= m < j ensures PcAt(states[m + 1], t, pc) ==> PcAt(states[m], t, pc) {
      if PcAt(states[m + 1], t, pc) {
        CounterMonotone(states, steps, i + 1, m);
        TokenStays(states, steps, m, t);
      }
    }
    PcBackwards(states, t, pc, k, j);
  }

  /** While a goroutine carries a token unput, only a newer reservation of the key can end it. */
  lemma OnlyReserveEnds(s: System, step: Step, t: nat, e: Entry)
    requires Inv(s) && Enabled(s, step) && Th(s, t).pc == Reserved(e) && Th(Next(s, step), t).pc == Reserved(e)
    ensures Ends(s, step, e.id, e.generation) <==>
            step.Reserve? && (step.peer, step.kind, step.entity) == (e.peer, e.kind, e.entity)
  {
    assert ThreadOk(s, s.threads[t]);
    if step.Reserve? {
      OutboxKeyInjective(step.peer, step.kind, step.entity, e.peer, e.kind, e.entity);
    }
  }

  /**
   * A put is applied exactly when no other reservation of its triple fell
   * between its own reservation, at step i, and it, at step j. What it stores
   * is what was reserved for, and a refused put leaves the store as it was.
   */
  lemma PutAppliedExactly(states: seq<System>, steps: seq<Step>, i: nat, j: nat)
    requires IsRun(states, steps) && i < j < |steps|
    requires steps[i].Reserve? && steps[j] == Put(steps[i].t)
    requires Th(states[j], steps[i].t).pc == Th(states[i + 1], steps[i].t).pc
    ensures Th(states[j], steps[i].t).pc.Reserved?
    ensures var e, r := Th(states[j], steps[i].t).pc.entry, steps[i];
            && (e.peer, e.kind, e.entity, e.payload, e.createdAt) == (r.peer, r.kind, r.entity, r.payload, r.now)
            && e !in states[j].staged
            && (e in states[j + 1].staged <==> Stored(states[j + 1].store, e.id, e))
            && (e !in states[j + 1].staged ==> states[j + 1].store == states[j].store)
            && (e in states[j + 1].staged <==>
                  forall k | i < k < j && steps[k].Reserve? ::
                    (steps[k].peer, steps[k].kind, steps[k].entity) != (r.peer, r.kind, r.entity))
  {
    var t := steps[i].t;
    ReserveGives(states, steps, i);
    assert Enabled(states[j], steps[j]) && states[j + 1] == Next(states[j], steps[j]);
    var e := Th(states[j], t).pc.entry;
    RunKeepsInv(states, steps, j);
    assert ThreadOk(states[j], states[j].threads[t]);
    ReservationStandsExactly(states, steps, i, j);
    forall k: nat | i < k < j
      ensures Ends(states[k], steps[k], e.id, e.generation) <==>
              steps[k].Reserve? && (steps[k].peer, steps[k].kind, steps[k].entity) == (e.peer, e.kind, e.entity)
    {
      ReservedSince(states, steps, i, j, k);
      ReservedSince(states, steps, i, j, k + 1);
      RunKeepsInv(states, steps, k);
      assert Enabled(states[k], steps[k]) && states[k + 1] == Next(states[k], steps[k]);
      OnlyReserveEnds(states[k], steps[k], t, e);
    }
  }

  /** The step takes the entry out of the queue: a newer put of its key, its acknowledgement, or its drop. */
  predicate Removes(s: System, step: Step, e: Entry) {
    match step
    case Put(t) => Th(s, t).pc.Reserved? && Th(s, t).pc.entry.id == e.id && IsCurrent(s.store, e.id, Th(s, t).pc.entry.generation)
    case Acknowledge(t) => Th(s, t).pc.Acked? && Th(s, t).pc.attempt.storageId == e.id && Th(s, t).pc.attempt.entry == e
    case Drop(t) => Th(s, t).pc == Dropping(e.id, e)
    case _ => false
  }

  /**
   * Over every run a queued entry stays queued exactly until one of the three:
   * its acknowledged send is confirmed, its drop after its entity was gone, or
   * a newer entry of its key is put.
   */
  lemma EntryLeavesExactly(states: seq<System>, steps: seq<Step>, i: nat, e: Entry)
    requires IsRun(states, steps) && i < |steps| && Stored(states[i].store, e.id, e)
    ensures !Stored(states[i + 1].store, e.id, e) <==> Removes(states[i], steps[i], e)
    ensures Removes(states[i], steps[i], e) ==>
              match steps[i]
              case Acknowledge(_) => Send(e, true) in states[i].sent
              case Drop(_) => WasGone(states, i, e)
              case _ => Superseded(states[i + 1], e)
  {
    RunKeepsInv(states, steps, i);
    var s, step := states[i], steps[i];
    assert Enabled(s, step) && states[i + 1] == Next(s, step);
    if Removes(s, step, e) {
      assert ThreadOk(s, s.threads[step.t]);
      if step.Put? {
        var f := Th(s, step.t).pc.entry;
        AppliedPutIsNewest(s, step.t, f);
        assert f in states[i + 1].staged;
      } else if step.Drop? {
        AbsentWasGone(states, steps, i, e);
      }
    }
  }

  /** The step is one of this goroutine's own, or ends all of them. */
  predicate Interrupts(step: Step, t: nat) {
    step.Restart? || (!step.Mutate? && step.t == t)
  }

  lemma PcStays(states: seq<System>, steps: seq<Step>, k: nat, t: nat)
    requires IsRun(states, steps) && k < |steps| && !Interrupts(steps[k], t)
    ensures Th(states[k + 1], t).pc == Th(states[k], t).pc
  {
    assert Enabled(states[k], steps[k]) && states[k + 1] == Next(states[k], steps[k]);
  }

  lemma {:induction false} PcForwards(states: seq<System>, t: nat, pc: Pc, i: nat, j: nat)
    requires i <= j < |states| && PcAt(states[i], t, pc)
    requires forall m | i <= m < j :: PcAt(states[m], t, pc) ==> PcAt(states[m + 1], t, pc)
    ensures PcAt(states[j], t, pc)
    decreases j
  {
    if i < j {
      PcForwards(states, t, pc, i, j - 1);
      assert PcAt(states[j - 1 + 1], t, pc);
    }
  }

  lemma StaysLocked(states: seq<System>, steps: seq<Step>, i: nat, j: nat)
    requires IsRun(states, steps) && i < j < |states| && steps[i].BeginDelivery?
    requires forall k | i < k < j :: !Interrupts(steps[k], steps[i].t)
    ensures Th(states[j], steps[i].t).pc == Locked(steps[i].attempt)
  {
    var t, pc := steps[i].t, Locked(steps[i].attempt);
    assert Enabled(states[i], steps[i]) && states[i + 1] == Next(states[i], steps[i]);
    assert PcAt(states[i + 1], t, pc);
    forall m | i < m < j ensures PcAt(states[m], t, pc) ==> PcAt(states[m + 1], t, pc) {
      PcStays(states, steps, m, t);
    }
    PcForwards(states, t, pc, i + 1, j);
  }

  /** A delivery attempt goes on to the send exactly when the bytes it carries are still what is stored at its match. */
  lemma AttemptGoesOnExactly(states: seq<System>, steps: seq<Step>, i: nat, j: nat)
    requires IsRun(states, steps) && i < j < |steps|
    requires steps[i].BeginDelivery? && steps[j] == Match(steps[i].t)
    requires forall k | i < k < j :: !Interrupts(steps[k], steps[i].t)
    ensures var a, s' := steps[i].attempt, states[j + 1];
            && (Enabled(s', Deliver(steps[i].t, true)) <==>
                  a.storageId in states[j].store.entries && states[j].store.entries[a.storageId] == a.entry)
            && (Enabled(s', Deliver(steps[i].t, true)) ==> Th(s', steps[i].t).pc == Matched(a))
  {
    StaysLocked(states, steps, i, j);
    assert Enabled(states[j], steps[j]) && states[j + 1] == Next(states[j], steps[j]);
  }

  /**
   * After a send its goroutine may confirm exactly if the peer acknowledged;
   * after an inspection it may drop exactly if the entity is not in the catalog.
   */
  lemma DecisionsExactly(states: seq<System>, steps: seq<Step>, k: nat)
    requires IsRun(states, steps) && k < |steps|
    ensures steps[k].Deliver? ==>
              var a := Th(states[k], steps[k].t).pc.attempt;
              && states[k + 1].sent == states[k].sent + [Send(a.entry, steps[k].ok)]
              && (if steps[k].ok then Th(states[k + 1], steps[k].t).pc == Acked(a)
                  else !Enabled(states[k + 1], Acknowledge(steps[k].t)))
    ensures steps[k].Inspect? ==>
              var raw := Th(states[k], steps[k].t).pc.raw;
              if (raw.kind, raw.entity) in states[k].catalog then !Enabled(states[k + 1], Drop(steps[k].t))
              else Th(states[k + 1], steps[k].t).pc == Dropping(Th(states[k], steps[k].t).pc.id, raw)
  {
    assert Enabled(states[k], steps[k]) && states[k + 1] == Next(states[k], steps[k]);
  }

  /** Who holds which key lock moves exactly by the lock steps, the start of a delivery or reconcile, and a restart. */
  lemma HeldMovesExactly(states: seq<System>, steps: seq<Step>, i: nat, t: nat, key: string)
    requires IsRun(states, steps) && i < |steps|
    ensures key in Th(states[i + 1], t).held <==>
            match steps[i]
            case Lock(u, k) => key in Th(states[i], t).held || (u == t && k == key)
            case Unlock(u, k) => key in Th(states[i], t).held && !(u == t && k == key)
            case BeginDelivery(u, a) => key in Th(states[i], t).held || (u == t && LockIdFor(a.storageId, a.entry) == key)
            case BeginReconcile(u, _, raw) => key in Th(states[i], t).held || (u == t && OutboxKey(raw.peer, raw.kind, raw.entity) == key)
            case Restart => false
            case _ => key in Th(states[i], t).held
  {
    assert Enabled(states[i], steps[i]) && states[i + 1] == Next(states[i], steps[i]);
  }
}
