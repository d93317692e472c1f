/** What the blob collector guarantees over every sequence of storage operations. */
module BlobGcRuns {
  import opened Common
  import opened VfsIndex
  import opened BlobGc

  datatype Event =
    | Upsert(entry: Entry, stuck: set<string>)
    | Save(name: string, size: int, hash: string, dbFails: bool, stuck: set<string>)
    | DeleteFile(name: string, stuck: set<string>)
    | DropCache(name: string, stuck: set<string>)
    | Download(file: Entry, stuck: set<string>)
    | StoreRaw(hash: string)
    | Subscribe(name: string, on: bool)
    | Sweep(stuck: set<string>)
    | Prune(id: string, stuck: set<string>)
    | ChangeTasks(tasks: Tasks)

  ghost function SaveStep(d: Disk, name: string, size: int, hash: string, dbFails: bool, stuck: set<string>): Disk {
    if dbFails then d.(blobs := if hash in d.blobs then d.blobs else Removed(d.blobs + {hash}, hash, stuck))
    else Saved(d.(blobs := d.blobs + {hash}), Entry(name, size, hash, 0, false), stuck)
  }

  ghost function Step(d: Disk, e: Event): Disk {
    match e
    case Upsert(entry, stuck) => Written(d, entry, stuck)
    case Save(name, size, hash, dbFails, stuck) => SaveStep(d, name, size, hash, dbFails, stuck)
    case DeleteFile(name, stuck) => if name in d.index then Written(d, Tombstone(d.index[name]), stuck) else d
    case DropCache(name, stuck) => if name in d.index then CacheDropped(d, name, stuck) else d
    case Download(file, stuck) => Downloaded(d, file, stuck)
    case StoreRaw(hash) => d.(blobs := d.blobs + {hash})
    case Subscribe(name, on) => d.(subs := if on then d.subs + {name} else d.subs - {name})
    case Sweep(stuck) => Swept(d, stuck)
    case Prune(id, stuck) => if PruneAllowed(d.tasks, id) then PruneResult(d, id, stuck) else d
    case ChangeTasks(tasks) => d.(tasks := tasks)
  }

  ghost predicate IsRun(states: seq<Disk>, events: seq<Event>) {
    && |states| == |events| + 1
    && forall i | 0 <= i < |events| :: states[i + 1] == Step(states[i], events[i])
  }

  /** Entry `n` is live with hash `h` and subscribed. */
  predicate Pinned(d: Disk, n: string, h: string) {
    n in d.index && !d.index[n].deleted && d.index[n].hash == h && n in d.subs
  }

  // ---------------------------------------------------------------- safety

  /** A sweep never removes a blob that a live entry or a task record names. */
  lemma SweepSparesReferenced(d: Disk, stuck: set<string>, h: string)
    requires h in d.blobs && Referenced(d, h)
    ensures h in Swept(d, stuck).blobs
  {
  }

  lemma WriteSparesPinned(d: Disk, entry: Entry, stuck: set<string>, n: string, h: string)
    requires h in d.blobs && Pinned(Written(d, entry, stuck), n, h)
    ensures h in Written(d, entry, stuck).blobs
  {
    if !Rejected(d.index, entry) {
      var d' := d.(index := Resolve(d.index, entry), pending := d.pending + Superseded(d.index, entry));
      assert LiveRef(d'.index, h);
      SweepSparesReferenced(d', stuck, h);
    }
  }

  lemma PruneSparesPinned(d: Disk, id: string, stuck: set<string>, n: string, h: string)
    requires h in d.blobs && Pinned(PruneResult(d, id, stuck), n, h)
    ensures h in PruneResult(d, id, stuck).blobs
  {
    assert LiveRef(PruneResult(d, id, stuck).index, h);
  }

  /** No single operation removes a blob whose entry is live and subscribed before and after. */
  lemma StepSparesPinned(d: Disk, e: Event, n: string, h: string)
    requires h in d.blobs && Pinned(d, n, h) && Pinned(Step(d, e), n, h)
    ensures h in Step(d, e).blobs
  {
    match e
    case Upsert(entry, stuck) => WriteSparesPinned(d, entry, stuck, n, h);
    case Save(name, size, hash, dbFails, stuck) =>
      if !dbFails {
        var entry := Entry(name, size, hash, 0, false);
        var d' := d.(blobs := d.blobs + {hash});
        if !Rejected(d.index, entry) {
          WriteSparesPinned(d'.(subs := d.subs + {name}), entry, stuck, n, h);
        }
      }
    case DeleteFile(name, stuck) =>
      if name in d.index {
        WriteSparesPinned(d, Tombstone(d.index[name]), stuck, n, h);
      }
    case DropCache(name, stuck) =>
      if name in d.index {
        assert n in d.subs - {name};
        assert SubscribedRef(d.index, d.subs - {name}, h);
      }
    case Download(file, stuck) => assert LiveRef(d.index, h);
    case Sweep(stuck) => assert LiveRef(d.index, h);
    case Prune(id, stuck) =>
      if PruneAllowed(d.tasks, id) {
        PruneSparesPinned(d, id, stuck, n, h);
      }
    case StoreRaw(_) =>
    case Subscribe(_, _) =>
    case ChangeTasks(_) =>
  }

  /** Over any run, a blob on disk stays there as long as some entry keeps it live and subscribed. */
  lemma {:induction false} PinnedBlobIsNeverRemoved(states: seq<Disk>, events: seq<Event>, i: nat, j: nat, n: string, h: string)
    requires IsRun(states, events) && i <= j < |states|
    requires h in states[i].blobs
    requires forall k | i <= k <= j :: Pinned(states[k], n, h)
    ensures h in states[j].blobs
    decreases j - i
  {
    if i < j {
      PinnedBlobIsNeverRemoved(states, events, i, j - 1, n, h);
      assert states[j - 1 + 1] == Step(states[j - 1], events[j - 1]);
      StepSparesPinned(states[j - 1], events[j - 1], n, h);
    }
  }

  // ------------------------------------------------------- no forgotten orphan

  /** A pending hash leaves the pending set only by being gone from disk or referenced at that moment. */
  ghost predicate Settled(d: Disk, h: string) {
    h !in d.blobs || Referenced(d, h)
  }

  lemma SweepSettles(d: Disk, stuck: set<string>, h: string)
    requires h in d.pending
    ensures h in Swept(d, stuck).pending || Settled(Swept(d, stuck), h)
  {
    var d' := Swept(d, stuck);
    assert Referenced(d, h) <==> Referenced(d', h);
  }

  /** The hash an index write leaves behind is pending, gone or referenced right after it. */
  lemma SupersededIsQueued(d: Disk, entry: Entry, stuck: set<string>, h: string)
    requires h in d.pending || h in Superseded(d.index, entry)
    ensures h in Written(d, entry, stuck).pending || Settled(Written(d, entry, stuck), h)
  {
    if !Rejected(d.index, entry) {
      SweepSettles(d.(index := Resolve(d.index, entry), pending := d.pending + Superseded(d.index, entry)), stuck, h);
    }
  }

  lemma StepKeepsPending(d: Disk, e: Event, h: string)
    requires h in d.pending
    ensures h in Step(d, e).pending || Settled(Step(d, e), h)
  {
    match e
    case Upsert(entry, stuck) => SupersededIsQueued(d, entry, stuck, h);
    case Save(name, size, hash, dbFails, stuck) =>
      var entry := Entry(name, size, hash, 0, false);
      if !dbFails && !Rejected(d.index, entry) {
        SupersededIsQueued(d.(blobs := d.blobs + {hash}, subs := d.subs + {name}), entry, stuck, h);
      }
    case DeleteFile(name, stuck) =>
      if name in d.index {
        SupersededIsQueued(d, Tombstone(d.index[name]), stuck, h);
      }
    case Sweep(stuck) => SweepSettles(d, stuck, h);
    case Prune(id, stuck) =>
      if PruneAllowed(d.tasks, id) {
        PruneKeepsPending(d, id, stuck, h);
      }
    case DropCache(_, _) =>
    case Download(_, _) =>
    case StoreRaw(_) =>
    case Subscribe(_, _) =>
    case ChangeTasks(_) =>
  }

  lemma PruneKeepsPending(d: Disk, id: string, stuck: set<string>, h: string)
    requires h in d.pending
    ensures h in PruneResult(d, id, stuck).pending || Settled(PruneResult(d, id, stuck), h)
  {
    var hashes := PruneSet(d.tasks, id);
    var d' := d.(tasks := d.tasks.(journal := PrunedJournal(d.tasks, id)));
    if hashes != {} {
      SweepSettles(d'.(index := Unstaged(d.index, hashes), pending := d.pending + hashes), stuck, h);
    }
  }

  /** Between two disks the entry of `n`, which had hash `h`, was overwritten by one that is deleted or has another hash. */
  predicate LeftBehindBy(d: Disk, d': Disk, n: string, h: string) {
    && n in d.index && d.index[n].hash == h != ""
    && n in d'.index && d'.index[n] != d.index[n] && (d'.index[n].deleted || d'.index[n].hash != h)
  }

  ghost predicate LeftBehind(d: Disk, d': Disk, h: string) {
    exists n :: LeftBehindBy(d, d', n, h)
  }

  /** What a write supersedes is what it leaves behind. */
  lemma SupersededIsLeft(d: Disk, d': Disk, entry: Entry, h: string)
    requires d'.index == Resolve(d.index, entry)
    ensures h in Superseded(d.index, entry) <==> LeftBehind(d, d', h)
  {
    WriteExactly(d.index, entry);
    if entry.name in d.index {
      OrderExactly(entry, d.index[entry.name]);
      EntryOrder(entry, d.index[entry.name]);
    }
    assert forall n | LeftBehindBy(d, d', n, h) :: n == entry.name;
    assert h in Superseded(d.index, entry) <==> LeftBehindBy(d, d', entry.name, h);
  }

  /** The event ends in a sweep of the pending hashes. */
  ghost predicate Sweeps(d: Disk, e: Event) {
    match e
    case Upsert(_, _) => Step(d, e).index != d.index
    case Save(_, _, _, dbFails, _) => !dbFails
    case DeleteFile(_, _) => Step(d, e).index != d.index
    case Sweep(_) => true
    case Prune(id, _) => PruneAllowed(d.tasks, id) && exists h :: Prunable(d.tasks, id, h)
    case _ => false
  }

  /** The hashes that sweep looks at: those pending before, those left behind by the event, those a prune queues. */
  ghost predicate Queued(d: Disk, e: Event, h: string) {
    h in d.pending || LeftBehind(d, Step(d, e), h) || (e.Prune? && Prunable(d.tasks, e.id, h))
  }

  /** What an event does to the pending set and to a blob on disk. */
  ghost predicate CollectsExactly(d: Disk, e: Event, h: string) {
    var d' := Step(d, e);
    && (if Sweeps(d, e) then h in d'.pending <==> Queued(d, e, h) && !Referenced(d', h) && h in e.stuck
        else h in d'.pending <==> h in d.pending)
    && (h in d.blobs ==>
          (h !in d'.blobs <==>
             (Sweeps(d, e) && Queued(d, e, h) && !Referenced(d', h) && h !in e.stuck) || DropsUnasked(d, e, h)))
  }

  lemma WriteCollects(d: Disk, d': Disk, entry: Entry, stuck: set<string>, h: string)
    requires d' == Written(d, entry, stuck)
    ensures d'.index == Resolve(d.index, entry)
    ensures d'.index != d.index <==> !Rejected(d.index, entry)
    ensures !Rejected(d.index, entry) ==>
              && (h in d'.pending <==> (h in d.pending || LeftBehind(d, d', h)) && !Referenced(d', h) && h in stuck)
              && (h in d'.blobs <==> h in d.blobs && !((h in d.pending || LeftBehind(d, d', h)) && !Referenced(d', h) && h !in stuck))
  {
    WriteExactly(d.index, entry);
    if entry.name in d.index {
      OrderExactly(entry, d.index[entry.name]);
      EntryOrder(entry, d.index[entry.name]);
    }
    if !Rejected(d.index, entry) {
      SupersededIsLeft(d, d', entry, h);
      var mid := d.(index := Resolve(d.index, entry), pending := d.pending + Superseded(d.index, entry));
      assert Referenced(mid, h) <==> Referenced(d', h);
    }
  }

  lemma SaveCollects(d: Disk, e: Event, h: string)
    requires e.Save?
    ensures CollectsExactly(d, e, h)
  {
    if !e.dbFails {
      var entry := Entry(e.name, e.size, e.hash, 0, false);
      var d1 := d.(blobs := d.blobs + {e.hash}, subs := d.subs + {e.name});
      WriteCollects(d1, Step(d, e), entry, e.stuck, h);
      assert LeftBehind(d1, Step(d, e), h) <==> LeftBehind(d, Step(d, e), h) by {
        assert forall n :: LeftBehindBy(d1, Step(d, e), n, h) <==> LeftBehindBy(d, Step(d, e), n, h);
      }
    }
  }

  lemma PruneCollects(d: Disk, e: Event, h: string)
    requires e.Prune?
    ensures CollectsExactly(d, e, h)
  {
    var d' := Step(d, e);
    assert forall n :: !LeftBehindBy(d, d', n, h);
    if PruneAllowed(d.tasks, e.id) {
      PruneSetMembers(d.tasks, e.id);
      var hashes := PruneSet(d.tasks, e.id);
      if hashes == {} {
        assert forall x :: x !in hashes;
      } else {
        var x :| x in hashes;
        var mid := d.(tasks := d'.tasks, index := d'.index, pending := d.pending + hashes);
        assert Referenced(mid, h) <==> Referenced(d', h);
      }
    }
  }

  /**
   * For every event: a blob leaves the disk exactly by a sweep that finds it
   * queued, unreferenced and deletable, or by one of the two drops that ask the
   * index alone. Queued are the hashes pending before and exactly those the
   * event left behind or pruned; what cannot be deleted stays pending.
   */
  lemma BlobLeavesExactly(d: Disk, e: Event, h: string)
    ensures CollectsExactly(d, e, h)
  {
    match e
    case Upsert(entry, stuck) => WriteCollects(d, Step(d, e), entry, stuck, h);
    case Save(_, _, _, _, _) => SaveCollects(d, e, h);
    case DeleteFile(name, stuck) =>
      if name in d.index {
        WriteCollects(d, Step(d, e), Tombstone(d.index[name]), stuck, h);
      }
    case Prune(_, _) => PruneCollects(d, e, h);
    case Sweep(_) =>
      assert forall n :: !LeftBehindBy(d, Step(d, e), n, h);
      assert Referenced(d, h) <==> Referenced(Step(d, e), h);
    case DropCache(_, _) =>
    case Download(_, _) =>
    case StoreRaw(_) =>
    case Subscribe(_, _) =>
    case ChangeTasks(_) =>
  }

  /** The hash an event leaves behind is pending, gone or referenced right after it. */
  lemma StepQueuesLeftBehind(d: Disk, e: Event, h: string)
    requires LeftBehind(d, Step(d, e), h)
    ensures h in Step(d, e).pending || Settled(Step(d, e), h)
  {
    BlobLeavesExactly(d, e, h);
  }

  /** The hash is pending in every state of a stretch. */
  predicate PendingThroughout(states: seq<Disk>, i: nat, j: nat, h: string)
    requires j < |states|
  {
    forall m | i < m <= j :: h in states[m].pending
  }

  /** The hash was pending up to a moment at which it left, being gone from disk or referenced right then. */
  ghost predicate LeftSettled(states: seq<Disk>, i: nat, k: nat, h: string)
    requires 0 < k < |states|
  {
    i < k && PendingThroughout(states, i, k - 1, h) && h !in states[k].pending && Settled(states[k], h)
  }

  /** Over any run, a hash left behind stays pending until the moment its deletion succeeds or it is referenced. */
  lemma {:induction false} LeftBehindStaysPendingUntilSettled(
    states: seq<Disk>, events: seq<Event>, i: nat, j: nat, h: string)
    requires IsRun(states, events) && i < j < |states| && LeftBehind(states[i], states[i + 1], h)
    ensures PendingThroughout(states, i, j, h) || exists k :: i < k <= j && LeftSettled(states, i, k, h)
    decreases j - i
  {
    assert states[j - 1 + 1] == Step(states[j - 1], events[j - 1]);
    if i == j - 1 {
      StepQueuesLeftBehind(states[i], events[i], h);
      assert h in states[j].pending || LeftSettled(states, i, j, h);
    } else {
      LeftBehindStaysPendingUntilSettled(states, events, i, j - 1, h);
      if PendingThroughout(states, i, j - 1, h) {
        StepKeepsPending(states[j - 1], events[j - 1], h);
        assert h in states[j].pending || LeftSettled(states, i, j, h);
      }
    }
  }

  /** A sweep in which every deletion succeeds leaves nothing pending and no pending orphan on disk. */
  lemma CleanSweepFinishes(d: Disk, h: string)
    ensures Swept(d, {}).pending == {}
    ensures h in d.pending && !Referenced(d, h) ==> h !in Swept(d, {}).blobs
    ensures h in d.blobs && (h !in d.pending || Referenced(d, h)) ==> h in Swept(d, {}).blobs
  {
  }

  // ------------------------------------------------------------- task records

  /** A prune never queues a hash that a task record or a scanned final checkpoint names, and keeps those of task records. */
  lemma PruneSparesTaskBlobs(d: Disk, id: string, stuck: set<string>, h: string)
    ensures TaskRef(d.tasks, h) || FinalIn(d.tasks, Scanned(d.tasks, id), h) ==> h !in PruneSet(d.tasks, id)
    ensures TaskRef(PruneResult(d, id, stuck).tasks, h) <==> TaskRef(d.tasks, h)
    ensures h in d.blobs && TaskRef(d.tasks, h) ==> h in PruneResult(d, id, stuck).blobs
  {
    assert PruneResult(d, id, stuck).tasks.active == d.tasks.active;
    assert PruneResult(d, id, stuck).tasks.history == d.tasks.history;
  }

  /** The blobs a prune removes: those it queues or finds queued that no task record and no remaining live entry names. */
  lemma PruneRemovesExactly(d: Disk, id: string, stuck: set<string>, h: string)
    requires h in d.blobs
    ensures var hashes := PruneSet(d.tasks, id);
            h !in PruneResult(d, id, stuck).blobs <==>
              && hashes != {} && h !in stuck
              && (h in hashes || h in d.pending)
              && !TaskRef(d.tasks, h) && !LiveRef(Unstaged(d.index, hashes), h)
  {
    var hashes := PruneSet(d.tasks, id);
    var d' := d.(tasks := d.tasks.(journal := PrunedJournal(d.tasks, id)),
                 index := Unstaged(d.index, hashes), pending := d.pending + hashes);
    assert Referenced(d', h) <==> LiveRef(Unstaged(d.index, hashes), h) || TaskRef(d.tasks, h);
  }

  /** The checkpoint is under the prefix of a scan for `id`. */
  predicate UnderPrefix(tasks: Tasks, id: string, o: string, c: Checkpoint) {
    o in tasks.journal && (o == id || id + "/" <= o) && c in tasks.journal[o]
  }

  /**
   * A prune queues exactly the blobs named by a checkpoint it drops, unless a
   * checkpoint under the prefix that ends its task names them as final, or an
   * active or history record names them.
   */
  lemma PruneQueuesExactly(tasks: Tasks, id: string, h: string)
    ensures h in PruneSet(tasks, id) <==>
            && (exists o, c :: UnderPrefix(tasks, id, o, c) && h in c.blobs && !c.kind.SchemaMigrated? && (c.kind.Terminal? ==> c.intermediate))
            && !(exists o, c :: UnderPrefix(tasks, id, o, c) && h in c.finals && c.kind.Terminal? && !c.intermediate)
            && !(exists t :: t in tasks.active && h in tasks.active[t]) && !(exists t :: t in tasks.history && h in tasks.history[t])
  {
    PruneSetMembers(tasks, id);
    DroppedUnderPrefix(tasks, id, h);
    FinalUnderPrefix(tasks, id, h);
  }

  lemma DroppedUnderPrefix(tasks: Tasks, id: string, h: string)
    ensures IntermediateIn(tasks, Scanned(tasks, id), h) <==>
            exists o, c :: UnderPrefix(tasks, id, o, c) && h in c.blobs && !c.kind.SchemaMigrated? && (c.kind.Terminal? ==> c.intermediate)
  {
    forall o | o in tasks.journal
      ensures h in IntermediateBlobs(tasks.journal[o]) <==>
              exists c :: c in tasks.journal[o] && h in c.blobs && !c.kind.SchemaMigrated? && (c.kind.Terminal? ==> c.intermediate)
    {
      PrunedBlobsExactly(tasks.journal[o], h);
    }
    if IntermediateIn(tasks, Scanned(tasks, id), h) {
      var o :| o in Scanned(tasks, id) && o in tasks.journal && h in IntermediateBlobs(tasks.journal[o]);
      var c :| c in tasks.journal[o] && h in c.blobs && !c.kind.SchemaMigrated? && (c.kind.Terminal? ==> c.intermediate);
      assert UnderPrefix(tasks, id, o, c);
    }
  }

  lemma FinalUnderPrefix(tasks: Tasks, id: string, h: string)
    ensures FinalIn(tasks, Scanned(tasks, id), h) <==>
            exists o, c :: UnderPrefix(tasks, id, o, c) && h in c.finals && c.kind.Terminal? && !c.intermediate
  {
    if FinalIn(tasks, Scanned(tasks, id), h) {
      var o :| o in Scanned(tasks, id) && o in tasks.journal && InFinals(tasks.journal[o], h);
      var i :| 0 <= i < |tasks.journal[o]| && IsFinal(tasks.journal[o][i]) && h in tasks.journal[o][i].finals;
      assert UnderPrefix(tasks, id, o, tasks.journal[o][i]);
    }
    if exists o, c :: UnderPrefix(tasks, id, o, c) && h in c.finals && c.kind.Terminal? && !c.intermediate {
      var o, c :| UnderPrefix(tasks, id, o, c) && h in c.finals && c.kind.Terminal? && !c.intermediate;
      var i :| 0 <= i < |tasks.journal[o]| && tasks.journal[o][i] == c;
      assert InFinals(tasks.journal[o], h);
      assert o in Scanned(tasks, id);
    }
  }

  /** So a blob that only a final checkpoint names goes exactly when an earlier operation had queued it. */
  lemma FinalBlobGoesExactlyIfQueued(d: Disk, id: string, h: string)
    requires h in d.blobs && FinalIn(d.tasks, Scanned(d.tasks, id), h) && PruneSet(d.tasks, id) != {}
    requires !TaskRef(d.tasks, h) && !LiveRef(Unstaged(d.index, PruneSet(d.tasks, id)), h)
    ensures h !in PruneResult(d, id, {}).blobs <==> h in d.pending
  {
    PruneSparesTaskBlobs(d, id, {}, h);
    PruneRemovesExactly(d, id, {}, h);
  }

  /** That does happen. */
  lemma FinalBlobCanGo()
    ensures exists d: Disk, id: string, h: string ::
              && PruneAllowed(d.tasks, id) && h in d.blobs && FinalIn(d.tasks, Scanned(d.tasks, id), h)
              && h !in PruneResult(d, id, {}).blobs
  {
    var records := [Checkpoint(Ongoing, true, {"x"}, {}), Checkpoint(Terminal, false, {}, {"h"})];
    var tasks := Tasks(map[], map["t" := {}], map["t" := records]);
    var d := Disk(map[], {}, {"h"}, {"h"}, tasks);
    assert "t" in Scanned(tasks, "t") && InFinals(records, "h") by {
      assert IsFinal(records[1]) && "h" in records[1].finals;
    }
    assert IntermediateBlobs(records) == {"x"} by {
      assert records[..1] == [records[0]] && records[..1][..0] == [];
    }
    assert !InFinals(records, "x");
    assert Scanned(tasks, "t") == {"t"};
    assert Prunable(tasks, "t", "x");
    assert !IsBlank("t") by {
      assert "t"[0] == 't';
    }
    PruneSetMembers(tasks, "t");
    FinalBlobGoesExactlyIfQueued(d, "t", "h");
  }

  /** A prune rewrites exactly the journals its scan meets, active tasks' included. */
  lemma PruneRewritesExactly(d: Disk, id: string, stuck: set<string>, other: string)
    requires other in d.tasks.journal
    ensures var after := PruneResult(d, id, stuck).tasks.journal;
            && other in after
            && (after[other] != d.tasks.journal[other] <==>
                  Scans(id, other) && exists c :: c in d.tasks.journal[other] && IsPruned(c))
  {
    KeptIsSameExactly(d.tasks.journal[other]);
    assert PruneResult(d, id, stuck).tasks.journal == PrunedJournal(d.tasks, id);
  }

  /** So pruning "t" drops a checkpoint of the active task "t/x". */
  lemma PruneReachesActiveTask()
    ensures exists d: Disk, id: string, other: string ::
              && PruneAllowed(d.tasks, id) && other != id && other in d.tasks.active && other in d.tasks.journal
              && other in PruneResult(d, id, {}).tasks.journal
              && PruneResult(d, id, {}).tasks.journal[other] != d.tasks.journal[other]
  {
    var records := [Checkpoint(Ongoing, true, {"b"}, {})];
    var tasks := Tasks(map["t/x" := {"b"}], map["t" := {}], map["t/x" := records]);
    var d := Disk(map[], {}, {}, {"b"}, tasks);
    assert "t" + "/" <= "t/x" && Scans("t", "t/x");
    assert records[0] in records && IsPruned(records[0]);
    assert !IsBlank("t") by {
      assert "t"[0] == 't';
    }
    PruneRewritesExactly(d, "t", {}, "t/x");
  }

  lemma KeptIsSameExactly(records: seq<Checkpoint>)
    ensures Kept(records) != records <==> exists c :: c in records && IsPruned(c)
  {
    PruneKeepsFinalCheckpoints(records);
    if forall c | c in records :: !IsPruned(c) {
      KeptIsSame(records);
    }
  }

  lemma {:induction false} KeptIsSame(records: seq<Checkpoint>)
    requires forall c | c in records :: !IsPruned(c)
    ensures Kept(records) == records
  {
    if records != [] {
      var front, last := records[..|records| - 1], records[|records| - 1];
      assert records == front + [last];
      KeptIsSame(front);
    }
  }

  /**
   * What pruning makes of a journal, list by list: each checkpoint is kept exactly
   * if it is a migration notice or ends the task for good, and the order stays.
   */
  lemma {:induction false} PruneKeepsFinalCheckpoints(records: seq<Checkpoint>)
    ensures forall c :: c in Kept(records) <==>
                        c in records && (c.kind.SchemaMigrated? || (c.kind.Terminal? && !c.intermediate))
    ensures Kept(Kept(records)) == Kept(records)
  {
    if records != [] {
      var front, last := records[..|records| - 1], records[|records| - 1];
      assert records == front + [last];
      PruneKeepsFinalCheckpoints(front);
      if !IsPruned(last) {
        assert (Kept(front) + [last])[..|Kept(front)|] == Kept(front);
      }
    }
  }

  lemma {:induction false} PruneKeepsOrder(a: seq<Checkpoint>, b: seq<Checkpoint>)
    ensures Kept(a + b) == Kept(a) + Kept(b)
  {
    if b == [] {
      assert a + b == a;
    } else {
      var front, last := b[..|b| - 1], b[|b| - 1];
      assert (a + b)[..|a + b| - 1] == a + front;
      PruneKeepsOrder(a, front);
      assert Kept(a) + (Kept(front) + [last]) == Kept(a) + Kept(front) + [last];
    }
  }

  /** The blobs of a journal that pruning may queue are those of the checkpoints it drops. */
  lemma {:induction false} PrunedBlobsExactly(records: seq<Checkpoint>, h: string)
    ensures h in IntermediateBlobs(records) <==>
            exists c :: c in records && h in c.blobs && !c.kind.SchemaMigrated? && (c.kind.Terminal? ==> c.intermediate)
  {
    if records != [] {
      var front, last := records[..|records| - 1], records[|records| - 1];
      assert records == front + [last];
      PrunedBlobsExactly(front, h);
    }
  }

  /** No journal under the prefix holds a terminal checkpoint. */
  ghost predicate NoneEnds(tasks: Tasks, id: string) {
    forall o, c | o in tasks.journal && (o == id || id + "/" <= o) && c in tasks.journal[o] :: !c.kind.Terminal?
  }

  /**
   * A prune waits for the end of the task: it is refused for an active or blank
   * ID and for one without a history record or a terminal checkpoint under its
   * prefix. Otherwise a name leaves the index exactly if it is a staging name
   * and its hash was queued; every other entry, and every subscription, stays.
   */
  lemma PruneUnstagesExactly(d: Disk, id: string, stuck: set<string>, n: string)
    ensures var d' := Step(d, Prune(id, stuck));
            && (IsBlank(id) || id in d.tasks.active ==> d' == d)
            && (id !in d.tasks.history && NoneEnds(d.tasks, id) ==> d' == d)
            && d'.subs == d.subs
            && (n in d'.index ==> n in d.index && d'.index[n] == d.index[n])
            && (n in d.index ==>
                  (n !in d'.index <==> Sweeps(d, Prune(id, stuck)) && Prunable(d.tasks, id, d.index[n].hash) && "stage/" <= d.index[n].name))
  {
    PruneSetMembers(d.tasks, id);
    if TerminatedIn(d.tasks, Scanned(d.tasks, id)) {
      var o :| o in Scanned(d.tasks, id) && o in d.tasks.journal && IsTerminated(d.tasks.journal[o]);
      var k :| 0 <= k < |d.tasks.journal[o]| && d.tasks.journal[o][k].kind.Terminal?;
      assert d.tasks.journal[o][k] in d.tasks.journal[o];
    }
    var hashes := PruneSet(d.tasks, id);
    assert hashes != {} ==> exists h :: h in hashes;
  }

  /** An event that takes a blob off the disk without asking the task records. */
  ghost predicate DropsUnasked(d: Disk, e: Event, h: string) {
    match e
    case DropCache(name, stuck) =>
      name in d.index && d.index[name].hash == h && h !in stuck && !SubscribedRef(d.index, d.subs - {name}, h)
    case Download(file, stuck) =>
      file.hash == h && h !in stuck && !LiveRef(d.index, h)
    case _ => false
  }

  /**
   * A blob a task record names leaves the disk exactly by a cache drop or a
   * discarded download: these two ask only the index.
   */
  lemma TaskBlobGoesExactly(d: Disk, e: Event, h: string, t: string)
    requires h in d.blobs
    requires (t in d.tasks.active && h in d.tasks.active[t]) || (t in d.tasks.history && h in d.tasks.history[t])
    ensures h !in Step(d, e).blobs <==> DropsUnasked(d, e, h)
  {
    assert NamedIn(d.tasks.active, h) || NamedIn(d.tasks.history, h);
    if e.Prune? {
      PruneSparesTaskBlobs(d, e.id, e.stuck, h);
    }
  }

  /** A cache drop can do so. */
  lemma CacheDropIgnoresTasks()
    ensures exists d: Disk, e: Event, h: string :: e.DropCache? && h in d.blobs && TaskRef(d.tasks, h) && DropsUnasked(d, e, h)
  {
    var index := map["f" := Entry("f", 1, "h", 1, false)];
    var d := Disk(index, {}, {}, {"h"}, Tasks(map["t" := {"h"}], map[], map[]));
    assert "t" in d.tasks.active && "h" in d.tasks.active["t"];
    assert NamedIn(d.tasks.active, "h");
    assert DropsUnasked(d, DropCache("f", {}), "h");
  }

  /** A discarded download can do so. */
  lemma DiscardIgnoresTasks()
    ensures exists d: Disk, e: Event, h: string :: e.Download? && h in d.blobs && TaskRef(d.tasks, h) && DropsUnasked(d, e, h)
  {
    var d := Disk(map[], {}, {}, {"h"}, Tasks(map["t" := {"h"}], map[], map[]));
    assert "t" in d.tasks.active && "h" in d.tasks.active["t"];
    assert NamedIn(d.tasks.active, "h");
    assert DropsUnasked(d, Download(Entry("f", 1, "h", 1, false), {}), "h");
  }

  // ------------------------------------------------------------------ saves and loads

  /**
   * A save leaves the file live under its name with the given content, one
   * version up, subscribed and with its blob on disk. If the database write
   * fails everything is as before, but for a new blob that cannot be deleted.
   */
  lemma SaveExactly(d: Disk, name: string, size: int, hash: string, dbFails: bool, stuck: set<string>)
    ensures var d' := Step(d, Save(name, size, hash, dbFails, stuck));
            if dbFails then d' == d.(blobs := if hash in stuck then d.blobs + {hash} else d.blobs)
            else
              && Pinned(d', name, hash) && hash in d'.blobs && d'.subs == d.subs + {name} && d'.tasks == d.tasks
              && d'.index == d.index[name := Entry(name, size, hash, d'.index[name].version, false)]
              && (name in d.index && d.index[name].version < MAX_INT ==> d'.index[name].version == d.index[name].version + 1)
  {
    var e := Save(name, size, hash, dbFails, stuck);
    if !dbFails {
      var entry := Entry(name, size, hash, 0, false);
      WriteExactly(d.index, entry);
      var d1 := d.(blobs := d.blobs + {hash}, subs := d.subs + {name});
      WriteCollects(d1, Step(d, e), entry, stuck, hash);
      assert LiveRef(Step(d, e).index, hash);
    } else {
      assert hash !in d.blobs ==> d.blobs + {hash} - {hash} == d.blobs;
      assert hash in d.blobs ==> d.blobs + {hash} == d.blobs;
    }
  }

  /** A blob appears exactly by a save, a raw store, or a download that is kept or cannot be deleted again. */
  lemma BlobAppearsExactly(d: Disk, e: Event, h: string)
    requires h !in d.blobs
    ensures h in Step(d, e).blobs <==>
            match e
            case Save(_, _, hash, dbFails, stuck) => hash == h && (dbFails ==> h in stuck)
            case StoreRaw(hash) => hash == h
            case Download(file, stuck) => file.hash == h && (LiveRef(d.index, h) || h in stuck)
            case _ => false
  {
    if e.Save? {
      SaveExactly(d, e.name, e.size, e.hash, e.dbFails, e.stuck);
    }
    if e.Download? && StillCurrent(d.index, e.file) {
      assert !d.index[e.file.name].deleted && d.index[e.file.name].hash == e.file.hash;
    }
  }

  /** What an event does to the index and the subscriptions, apart from a prune. */
  lemma IndexExactly(d: Disk, e: Event)
    requires !e.Prune?
    ensures var d' := Step(d, e);
            && d'.index ==
                 (match e
                  case Upsert(entry, _) => Resolve(d.index, entry)
                  case Save(name, size, hash, dbFails, _) =>
                    if dbFails then d.index else Resolve(d.index, Entry(name, size, hash, 0, false))
                  case DeleteFile(name, _) =>
                    if name in d.index then Resolve(d.index, Tombstone(d.index[name])) else d.index
                  case _ => d.index)
            && (forall n :: n in d'.subs <==>
                  (match e
                   case Save(name, _, _, dbFails, _) => n in d.subs || (n == name && !dbFails)
                   case DropCache(name, _) => n in d.subs && !(n == name && name in d.index)
                   case Subscribe(name, on) => if n == name then on else n in d.subs
                   case _ => n in d.subs))
            && d'.tasks == if e.ChangeTasks? then e.tasks else d.tasks
  {
  }
}
