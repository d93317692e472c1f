/**
 * Content-addressed blobs and their garbage collection. Every operation runs
 * under the storage mutation lock, so it is one step here; `stuck` is the set
 * of hashes whose physical deletion fails during that step.
 */
module BlobGc {
  import opened Common
  import opened VfsIndex

  datatype Kind = Terminal | SchemaMigrated | Ongoing

  /** What a journal checkpoint means to the collector. */
  datatype Checkpoint = Checkpoint(kind: Kind, intermediate: bool, blobs: set<string>, finals: set<string>)

  /** Hashes named by active task records, by history records, and the journal of each task. */
  datatype Tasks = Tasks(
    active: map<string, set<string>>,
    history: map<string, set<string>>,
    journal: map<string, seq<Checkpoint>>)

  datatype Disk = Disk(index: Index, subs: set<string>, pending: set<string>, blobs: set<string>, tasks: Tasks)

  // -------------------------------------------------------------- specifications

  ghost predicate LiveRef(index: Index, h: string) {
    exists n :: n in index && !index[n].deleted && index[n].hash == h
  }

  ghost predicate SubscribedRef(index: Index, subs: set<string>, h: string) {
    exists n :: n in index && !index[n].deleted && index[n].hash == h && n in subs
  }

  ghost predicate NamedIn(refs: map<string, set<string>>, h: string) {
    exists t :: t in refs && h in refs[t]
  }

  ghost predicate TaskRef(tasks: Tasks, h: string) {
    NamedIn(tasks.active, h) || NamedIn(tasks.history, h)
  }

  ghost predicate Referenced(d: Disk, h: string) {
    LiveRef(d.index, h) || TaskRef(d.tasks, h)
  }

  ghost function Orphans(d: Disk): set<string> {
    set h | h in d.pending && !Referenced(d, h)
  }

  /** A sweep deletes what it can of the orphans and keeps the rest pending. */
  ghost function Swept(d: Disk, stuck: set<string>): Disk {
    d.(blobs := d.blobs - (Orphans(d) - stuck), pending := Orphans(d) * stuck)
  }

  ghost function Written(d: Disk, entry: Entry, stuck: set<string>): Disk {
    if Rejected(d.index, entry) then d
    else Swept(d.(index := Resolve(d.index, entry), pending := d.pending + Superseded(d.index, entry)), stuck)
  }

  ghost function Saved(d: Disk, entry: Entry, stuck: set<string>): Disk {
    if Rejected(d.index, entry) then d else Written(d.(subs := d.subs + {entry.name}), entry, stuck)
  }

  function Removed(blobs: set<string>, h: string, stuck: set<string>): set<string> {
    if h in stuck then blobs else blobs - {h}
  }

  predicate IsPruned(c: Checkpoint) {
    (c.intermediate || !c.kind.Terminal?) && !c.kind.SchemaMigrated?
  }

  predicate IsFinal(c: Checkpoint) {
    !c.intermediate && c.kind.Terminal?
  }

  /** A scan for one task meets its own journal and those of IDs that continue it with a slash. */
  predicate Scans(id: string, other: string) {
    other == id || id + "/" <= other
  }

  function Scanned(tasks: Tasks, id: string): set<string> {
    set o | o in tasks.journal && Scans(id, o)
  }

  /** Blobs named by the checkpoints a prune removes. */
  function IntermediateBlobs(records: seq<Checkpoint>): set<string> {
    if records == [] then {}
    else
      var last := records[|records| - 1];
      IntermediateBlobs(records[..|records| - 1]) + (if IsPruned(last) then last.blobs else {})
  }

  ghost predicate InFinals(records: seq<Checkpoint>, h: string) {
    exists i :: 0 <= i < |records| && IsFinal(records[i]) && h in records[i].finals
  }

  ghost predicate IsTerminated(records: seq<Checkpoint>) {
    exists k :: 0 <= k < |records| && records[k].kind.Terminal?
  }

  ghost predicate TerminatedIn(tasks: Tasks, ids: set<string>) {
    exists o :: o in ids && o in tasks.journal && IsTerminated(tasks.journal[o])
  }

  ghost predicate FinalIn(tasks: Tasks, ids: set<string>, h: string) {
    exists o :: o in ids && o in tasks.journal && InFinals(tasks.journal[o], h)
  }

  ghost predicate IntermediateIn(tasks: Tasks, ids: set<string>, h: string) {
    exists o :: o in ids && o in tasks.journal && h in IntermediateBlobs(tasks.journal[o])
  }

  /** The hashes a prune of `id` may queue: intermediate and neither final nor named by any task record. */
  ghost predicate Prunable(tasks: Tasks, id: string, h: string) {
    && IntermediateIn(tasks, Scanned(tasks, id), h)
    && !FinalIn(tasks, Scanned(tasks, id), h)
    && !TaskRef(tasks, h)
  }

  /** The journals after a prune: every scanned one without its pruned checkpoints. */
  function PrunedJournal(tasks: Tasks, id: string): map<string, seq<Checkpoint>> {
    map o | o in tasks.journal :: if Scans(id, o) then Kept(tasks.journal[o]) else tasks.journal[o]
  }

  predicate IsStage(name: string) {
    "stage/" <= name
  }

  function Unstaged(index: Index, hashes: set<string>): Index {
    map n | n in index && !(index[n].hash in hashes && IsStage(index[n].name)) :: index[n]
  }

  function Kept(records: seq<Checkpoint>): seq<Checkpoint> {
    if records == [] then []
    else
      var rest := Kept(records[..|records| - 1]);
      if IsPruned(records[|records| - 1]) then rest else rest + [records[|records| - 1]]
  }

  // ------------------------------------------------------------------ the engine

  class StorageEngine {
    const vfs: VFS
    var blobs: set<string>
    var tasks: Tasks

    ghost function State(): Disk
      reads this, vfs
    {
      Disk(vfs.index, vfs.subscriptions, vfs.pendingGc, blobs, tasks)
    }

    constructor ()
      ensures State() == Disk(map[], {}, {}, {}, Tasks(map[], map[], map[])) && fresh(vfs)
    {
      vfs := new VFS();
      blobs := {};
      tasks := Tasks(map[], map[], map[]);
    }

    /** Adds to `found` every wanted hash named by one of the given records. */
    method MarkNamed(refs: map<string, set<string>>, wanted: set<string>, found: set<string>)
      returns (marked: set<string>)
      ensures forall h :: h in marked <==> h in found || (h in wanted && NamedIn(refs, h))
    {
      marked := found;
      var todo := refs.Keys;
      while todo != {}
        invariant todo <= refs.Keys
        invariant forall h :: h in marked <==>
                    h in found || (h in wanted && exists t :: t in refs && t !in todo && h in refs[t])
        decreases |todo|
      {
        var t :| t in todo;
        marked := marked + (refs[t] * wanted);
        todo := todo - {t};
      }
    }

    method MarkLive(wanted: set<string>) returns (marked: set<string>)
      ensures forall h :: h in marked <==> h in wanted && LiveRef(vfs.index, h)
    {
      marked := {};
      var todo := vfs.index.Keys;
      while todo != {}
        invariant todo <= vfs.index.Keys
        invariant forall h :: h in marked <==>
                    h in wanted && exists n :: n in vfs.index && n !in todo && !vfs.index[n].deleted && vfs.index[n].hash == h
        decreases |todo|
      {
        var n :| n in todo;
        var entry := vfs.index[n];
        if !entry.deleted && entry.hash in wanted {
          marked := marked + {entry.hash};
        }
        todo := todo - {n};
      }
    }

    /** Deletes every pending hash that is not referenced, as far as deletion succeeds. */
    method DeletePending(pending: set<string>, referenced: set<string>, stuck: set<string>)
      returns (completed: set<string>)
      modifies this`blobs
      ensures blobs == old(blobs) - ((pending - referenced) - stuck)
      ensures completed == pending - ((pending - referenced) * stuck)
    {
      completed := {};
      var todo := pending;
      while todo != {}
        invariant todo <= pending
        invariant completed == (pending - todo) - ((pending - referenced) * stuck)
        invariant blobs == old(blobs) - (((pending - todo) - referenced) - stuck)
        decreases |todo|
      {
        var h :| h in todo;
        if h in referenced {
          completed := completed + {h};
        } else if h !in stuck {
          blobs := blobs - {h};
          completed := completed + {h};
        }
        todo := todo - {h};
      }
    }

    /** Retries every pending hash: referenced ones are done, the others are deleted if that succeeds. */
    method SweepPendingBlobGC(stuck: set<string>)
      modifies this`blobs, vfs`pendingGc
      ensures State() == Swept(old(State()), stuck)
    {
      var pending := vfs.pendingGc;
      var referenced := MarkLive(pending);
      referenced := MarkNamed(tasks.active, pending, referenced);
      referenced := MarkNamed(tasks.history, pending, referenced);
      assert pending - referenced == Orphans(old(State()));
      var completed := DeletePending(pending, referenced, stuck);
      vfs.pendingGc := vfs.pendingGc - completed;
    }

    method UpsertIndex(entry: Entry, stuck: set<string>) returns (updated: bool)
      modifies this`blobs, vfs`index, vfs`pendingGc
      ensures updated == !Rejected(old(vfs.index), entry)
      ensures State() == Written(old(State()), entry, stuck)
    {
      updated := vfs.Upsert(entry);
      if updated {
        SweepPendingBlobGC(stuck);
      }
    }

    /** A local save: commit the blob, write and subscribe; a failed database write compensates. */
    method SaveLocalFile(name: string, size: int, hash: string, dbFails: bool, stuck: set<string>)
      modifies this`blobs, vfs
      ensures dbFails ==> State() == old(State()).(
                blobs := if hash in old(blobs) then old(blobs) else Removed(old(blobs) + {hash}, hash, stuck))
      ensures !dbFails ==> State() == Saved(old(State()).(blobs := old(blobs) + {hash}), Entry(name, size, hash, 0, false), stuck)
    {
      var created := hash !in blobs;
      blobs := blobs + {hash};
      if dbFails {
        if created && hash !in stuck {
          blobs := blobs - {hash};
        }
        return;
      }
      var _, applied := vfs.UpsertAndSubscribe(Entry(name, size, hash, 0, false));
      if applied {
        SweepPendingBlobGC(stuck);
      }
    }

    method DeleteLocalFile(name: string, stuck: set<string>) returns (found: bool)
      modifies this`blobs, vfs`index, vfs`pendingGc
      ensures found == (name in old(vfs.index))
      ensures State() == if found then Written(old(State()), Tombstone(old(vfs.index)[name]), stuck) else old(State())
    {
      if name !in vfs.index {
        return false;
      }
      var _ := UpsertIndex(Tombstone(vfs.index[name]), stuck);
      return true;
    }

    /** Counts the live entries that name a hash, or only the subscribed ones. */
    method CountHashRefs(hash: string, subscribedOnly: bool) returns (refs: nat)
      ensures refs > 0 <==> if subscribedOnly then SubscribedRef(vfs.index, vfs.subscriptions, hash)
                            else LiveRef(vfs.index, hash)
    {
      refs := 0;
      var todo := vfs.index.Keys;
      while todo != {}
        invariant todo <= vfs.index.Keys
        invariant refs > 0 <==>
                  (exists n :: n in vfs.index && n !in todo && !vfs.index[n].deleted
                               && vfs.index[n].hash == hash && (subscribedOnly ==> n in vfs.subscriptions))
        decreases |todo|
      {
        var n :| n in todo;
        var entry := vfs.index[n];
        if !entry.deleted && entry.hash == hash && (subscribedOnly ==> n in vfs.subscriptions) {
          refs := refs + 1;
        }
        todo := todo - {n};
      }
    }

    method DeleteBlobIfOrphan(hash: string, subscribedOnly: bool, stuck: set<string>)
      modifies this`blobs
      ensures var kept := if subscribedOnly then SubscribedRef(vfs.index, vfs.subscriptions, hash)
                          else LiveRef(vfs.index, hash);
              State() == old(State()).(blobs := if kept then old(blobs) else Removed(old(blobs), hash, stuck))
    {
      var refs := CountHashRefs(hash, subscribedOnly);
      if refs == 0 && hash !in stuck {
        blobs := blobs - {hash};
      }
    }

    method DeleteLocalCache(name: string, stuck: set<string>) returns (found: bool)
      modifies this`blobs, vfs`subscriptions
      ensures found == (name in vfs.index)
      ensures State() == if found then CacheDropped(old(State()), name, stuck) else old(State())
    {
      if name !in vfs.index {
        return false;
      }
      vfs.subscriptions := vfs.subscriptions - {name};
      DeleteBlobIfOrphan(vfs.index[name].hash, true, stuck);
      return true;
    }

    /** A finished download: kept if its metadata is still current, else deleted unless a live entry needs it. */
    method StoreRemoteBlob(file: Entry, stuck: set<string>) returns (kept: bool)
      modifies this`blobs
      ensures kept <==> && file.name in vfs.index && vfs.index[file.name].name == file.name
                        && vfs.index[file.name].version == file.version && vfs.index[file.name].hash == file.hash
                        && !vfs.index[file.name].deleted && !file.deleted
      ensures State() == Downloaded(old(State()), file, stuck)
    {
      blobs := blobs + {file.hash};
      kept := file.name in vfs.index && vfs.index[file.name].version == file.version
              && vfs.index[file.name].hash == file.hash && vfs.index[file.name].deleted == file.deleted
              && vfs.index[file.name].name == file.name && !vfs.index[file.name].deleted;
      if !kept {
        DeleteBlobIfOrphan(file.hash, false, stuck);
      }
    }

    /** Journal pruning of a finished task: drops the scanned intermediate checkpoints and queues their blobs. */
    method PruneIntermediateTaskData(id: string, stuck: set<string>) returns (ok: bool)
      modifies this, vfs`index, vfs`pendingGc
      ensures ok == PruneAllowed(old(tasks), id)
      ensures !ok ==> State() == old(State())
      ensures ok ==> State() == PruneResult(old(State()), id, stuck)
    {
      if IsBlank(id) {
        return false;
      }
      var terminal, finals, inner := ScanJournals(tasks, id);
      if id in tasks.active || (id !in tasks.history && !terminal) {
        return false;
      }
      finals := MarkAll(tasks.active, finals);
      finals := MarkAll(tasks.history, finals);
      inner := inner - finals;
      PruneSetMembers(tasks, id);
      assert inner == PruneSet(tasks, id);
      var keep := DropCheckpoints(tasks, id);
      tasks := tasks.(journal := keep);
      if inner != {} {
        vfs.index := Unstaged(vfs.index, inner);
        vfs.pendingGc := vfs.pendingGc + inner;
        SweepPendingBlobGC(stuck);
      }
      return true;
    }

    method MarkAll(refs: map<string, set<string>>, found: set<string>) returns (marked: set<string>)
      ensures forall h :: h in marked <==> h in found || NamedIn(refs, h)
    {
      marked := found;
      var todo := refs.Keys;
      while todo != {}
        invariant todo <= refs.Keys
        invariant forall h :: h in marked <==> h in found || exists t :: t in refs && t !in todo && h in refs[t]
        decreases |todo|
      {
        var t :| t in todo;
        marked := marked + refs[t];
        todo := todo - {t};
      }
    }
  }

  method SplitCheckpoints(records: seq<Checkpoint>) returns (terminal: bool, finals: set<string>, inner: set<string>)
    ensures terminal <==> IsTerminated(records)
    ensures forall h :: h in finals <==> InFinals(records, h)
    ensures inner == IntermediateBlobs(records)
  {
    terminal, finals, inner := false, {}, {};
    for i := 0 to |records|
      invariant terminal <==> exists k :: 0 <= k < i && records[k].kind.Terminal?
      invariant forall h :: h in finals <==> exists k :: 0 <= k < i && IsFinal(records[k]) && h in records[k].finals
      invariant inner == IntermediateBlobs(records[..i])
    {
      assert records[..i + 1][..i] == records[..i];
      if records[i].kind.Terminal? {
        terminal := true;
      }
      if IsFinal(records[i]) {
        finals := finals + records[i].finals;
      }
      if IsPruned(records[i]) {
        inner := inner + records[i].blobs;
      }
    }
    assert records[..|records|] == records;
  }

  method KeepCheckpoints(records: seq<Checkpoint>) returns (keep: seq<Checkpoint>)
    ensures keep == Kept(records)
  {
    keep := [];
    for i := 0 to |records|
      invariant keep == Kept(records[..i])
    {
      assert records[..i + 1][..i] == records[..i];
      if !IsPruned(records[i]) {
        keep := keep + [records[i]];
      }
    }
    assert records[..|records|] == records;
  }

  lemma DoneGrows(all: set<string>, todo: set<string>, o: string)
    requires o in todo && todo <= all
    ensures all - todo + {o} == all - (todo - {o}) && |todo - {o}| < |todo|
  {
  }

  /** One pass over the journals under the prefix. */
  method ScanJournals(tasks: Tasks, id: string) returns (terminal: bool, finals: set<string>, inner: set<string>)
    ensures Found(tasks, Scanned(tasks, id), terminal, finals, inner)
  {
    terminal, finals, inner := false, {}, {};
    var all := Scanned(tasks, id);
    var todo := all;
    while todo != {}
      invariant todo <= all && Found(tasks, all - todo, terminal, finals, inner)
      decreases |todo|
    {
      var o :| o in todo;
      var t, f, n := SplitCheckpoints(tasks.journal[o]);
      FoundOne(tasks, all - todo, terminal, finals, inner, o, t, f, n);
      DoneGrows(all, todo, o);
      terminal, finals, inner := terminal || t, finals + f, inner + n;
      todo := todo - {o};
    }
    assert all - todo == all;
  }

  /** Deletes the intermediate checkpoints under the prefix. */
  method DropCheckpoints(tasks: Tasks, id: string) returns (keep: map<string, seq<Checkpoint>>)
    ensures keep == PrunedJournal(tasks, id)
  {
    keep := tasks.journal;
    var all := Scanned(tasks, id);
    var todo := all;
    while todo != {}
      invariant todo <= all && PartlyKept(tasks, all - todo, keep)
      decreases |todo|
    {
      var o :| o in todo;
      var k := KeepCheckpoints(tasks.journal[o]);
      KeptOne(tasks, all - todo, keep, o);
      DoneGrows(all, todo, o);
      keep := keep[o := k];
      todo := todo - {o};
    }
    assert all - todo == all;
  }

  ghost function CacheDropped(d: Disk, name: string, stuck: set<string>): Disk
    requires name in d.index
  {
    var subs := d.subs - {name};
    var h := d.index[name].hash;
    d.(subs := subs, blobs := if SubscribedRef(d.index, subs, h) then d.blobs else Removed(d.blobs, h, stuck))
  }

  predicate StillCurrent(index: Index, file: Entry) {
    file.name in index && index[file.name].(size := file.size) == file && !file.deleted
  }

  ghost function Downloaded(d: Disk, file: Entry, stuck: set<string>): Disk {
    var blobs := d.blobs + {file.hash};
    d.(blobs := if StillCurrent(d.index, file) || LiveRef(d.index, file.hash) then blobs
                else Removed(blobs, file.hash, stuck))
  }

  ghost predicate PruneAllowed(tasks: Tasks, id: string) {
    !IsBlank(id) && id !in tasks.active && (id in tasks.history || TerminatedIn(tasks, Scanned(tasks, id)))
  }

  ghost function PruneSet(tasks: Tasks, id: string): set<string> {
    set o, h | o in Scanned(tasks, id) && h in IntermediateBlobs(tasks.journal[o]) && Prunable(tasks, id, h) :: h
  }

  lemma PruneSetMembers(tasks: Tasks, id: string)
    ensures forall h :: h in PruneSet(tasks, id) <==> Prunable(tasks, id, h)
  {
  }

  /** What a scan has collected from the journals it has read. */
  ghost predicate Found(tasks: Tasks, ids: set<string>, terminal: bool, finals: set<string>, inner: set<string>) {
    && (terminal <==> TerminatedIn(tasks, ids))
    && (forall h :: h in finals <==> FinalIn(tasks, ids, h))
    && (forall h :: h in inner <==> IntermediateIn(tasks, ids, h))
  }

  lemma FoundOne(tasks: Tasks, ids: set<string>, terminal: bool, finals: set<string>, inner: set<string>,
                 o: string, t: bool, f: set<string>, n: set<string>)
    requires o in tasks.journal && Found(tasks, ids, terminal, finals, inner)
    requires t <==> IsTerminated(tasks.journal[o])
    requires forall h :: h in f <==> InFinals(tasks.journal[o], h)
    requires n == IntermediateBlobs(tasks.journal[o])
    ensures Found(tasks, ids + {o}, terminal || t, finals + f, inner + n)
  {
    ScanGrows(tasks, ids, o);
  }

  predicate PartlyKept(tasks: Tasks, ids: set<string>, keep: map<string, seq<Checkpoint>>) {
    && keep.Keys == tasks.journal.Keys
    && forall o | o in keep :: keep[o] == if o in ids then Kept(tasks.journal[o]) else tasks.journal[o]
  }

  lemma KeptOne(tasks: Tasks, ids: set<string>, keep: map<string, seq<Checkpoint>>, o: string)
    requires o in tasks.journal && PartlyKept(tasks, ids, keep)
    ensures PartlyKept(tasks, ids + {o}, keep[o := Kept(tasks.journal[o])])
  {
  }

  lemma ScanGrows(tasks: Tasks, ids: set<string>, o: string)
    requires o in tasks.journal
    ensures TerminatedIn(tasks, ids + {o}) <==> TerminatedIn(tasks, ids) || IsTerminated(tasks.journal[o])
    ensures forall h :: FinalIn(tasks, ids + {o}, h) <==> FinalIn(tasks, ids, h) || InFinals(tasks.journal[o], h)
    ensures forall h :: IntermediateIn(tasks, ids + {o}, h) <==> IntermediateIn(tasks, ids, h) || h in IntermediateBlobs(tasks.journal[o])
  {
  }

  ghost function PruneResult(d: Disk, id: string, stuck: set<string>): Disk {
    var hashes := PruneSet(d.tasks, id);
    var d' := d.(tasks := d.tasks.(journal := PrunedJournal(d.tasks, id)));
    if hashes == {} then d'
    else Swept(d'.(index := Unstaged(d.index, hashes), pending := d.pending + hashes), stuck)
  }
}
