/**
 * The replicated VFS index: the total order that resolves writes, the write
 * core shared by every upsert, and replicas that exchange entries in any order.
 */
module VfsIndex {
  import opened Common

  /** Go's int, 64 bits wide. */
  const MAX_INT: int := 0x7FFF_FFFF_FFFF_FFFF
  const MIN_INT: int := -0x8000_0000_0000_0000

  datatype Entry = Entry(name: string, size: int, hash: string, version: int, deleted: bool)

  type Index = map<string, Entry>

  // ------------------------------------------------------------- the total order

  /** Go's byte-wise string order. */
  function CompareStrings(a: string, b: string): int {
    if a == b then 0
    else if a == [] then -1
    else if b == [] then 1
    else if a[0] != b[0] then (if a[0] > b[0] then 1 else -1)
    else CompareStrings(a[1..], b[1..])
  }

  function CompareInts(a: int, b: int): int {
    if a > b then 1 else if a < b then -1 else 0
  }

  function CompareBools(a: bool, b: bool): int {
    if a == b then 0 else if a then 1 else -1
  }

  function CompareIndexEntries(candidate: Entry, current: Entry): int {
    if candidate.version != current.version then CompareInts(candidate.version, current.version)
    else if candidate.deleted != current.deleted then CompareBools(candidate.deleted, current.deleted)
    else if candidate.hash != current.hash then CompareStrings(candidate.hash, current.hash)
    else if candidate.size != current.size then CompareInts(candidate.size, current.size)
    else CompareStrings(candidate.name, current.name)
  }

  lemma {:induction false} StringOrder(a: string, b: string)
    ensures CompareStrings(a, b) == 0 <==> a == b
    ensures CompareStrings(b, a) == -CompareStrings(a, b)
    ensures -1 <= CompareStrings(a, b) <= 1
  {
    if a != [] && b != [] && a[0] == b[0] {
      assert a == [a[0]] + a[1..] && b == [b[0]] + b[1..];
      StringOrder(a[1..], b[1..]);
    }
  }

  lemma {:induction false} StringTransitive(a: string, b: string, c: string)
    requires CompareStrings(a, b) >= 0 && CompareStrings(b, c) >= 0
    ensures CompareStrings(a, c) >= 0
  {
    if a != b && b != c && a != [] && b != [] && c != [] && a[0] == b[0] == c[0] {
      assert a == [a[0]] + a[1..] && b == [b[0]] + b[1..] && c == [c[0]] + c[1..];
      StringTransitive(a[1..], b[1..], c[1..]);
    }
  }

  /** `x` and `y` agree up to `k`, where `x` goes on and `y` ends or has a smaller byte. */
  predicate AboveAt(x: string, y: string, k: nat) {
    k < |x| && k <= |y| && x[..k] == y[..k] && (k == |y| || x[k] > y[k])
  }

  /** `x` follows `y` in a dictionary of bytes. */
  ghost predicate Above(x: string, y: string) {
    exists k: nat :: AboveAt(x, y, k)
  }

  lemma AboveAtStart(x: string, y: string)
    requires x == [] || y == [] || x[0] != y[0]
    ensures Above(x, y) <==> x != [] && (y == [] || x[0] > y[0])
  {
    assert AboveAt(x, y, 0) <==> x != [] && (y == [] || x[0] > y[0]);
    forall k | 0 < k <= |x| && k <= |y| ensures x[..k] != y[..k] {
      assert x[..k][0] == x[0] && y[..k][0] == y[0];
    }
  }

  lemma AboveAtNext(x: string, y: string, k: nat)
    requires x != [] && y != [] && x[0] == y[0]
    ensures AboveAt(x, y, k + 1) <==> AboveAt(x[1..], y[1..], k)
  {
    if k < |x| && k < |y| {
      assert x[..k + 1] == [x[0]] + x[1..][..k] && y[..k + 1] == [y[0]] + y[1..][..k];
      assert x[1..][..k] == x[..k + 1][1..] && y[1..][..k] == y[..k + 1][1..];
    }
  }

  lemma {:induction false} StringOrderExactly(x: string, y: string)
    ensures CompareStrings(x, y) > 0 <==> Above(x, y)
  {
    if x == [] || y == [] || x[0] != y[0] {
      AboveAtStart(x, y);
    } else {
      assert x == [x[0]] + x[1..] && y == [y[0]] + y[1..];
      StringOrderExactly(x[1..], y[1..]);
      assert !AboveAt(x, y, 0);
      if Above(x, y) {
        var k: nat :| AboveAt(x, y, k);
        AboveAtNext(x, y, k - 1);
      }
      if Above(x[1..], y[1..]) {
        var k: nat :| AboveAt(x[1..], y[1..], k);
        AboveAtNext(x, y, k);
      }
    }
  }

  /**
   * Which of two entries wins: the larger version, then the deletion, then the
   * hash that comes later in the dictionary, then the larger size, then the name.
   */
  ghost predicate Beats(a: Entry, b: Entry) {
    || a.version > b.version
    || (a.version == b.version && a.deleted && !b.deleted)
    || (a.version == b.version && a.deleted == b.deleted && Above(a.hash, b.hash))
    || (a.version == b.version && a.deleted == b.deleted && a.hash == b.hash && a.size > b.size)
    || (a == b.(name := a.name) && Above(a.name, b.name))
  }

  lemma OrderExactly(a: Entry, b: Entry)
    ensures CompareIndexEntries(a, b) > 0 <==> Beats(a, b)
  {
    StringOrderExactly(a.hash, b.hash);
    StringOrderExactly(a.name, b.name);
    StringOrder(a.hash, b.hash);
    assert a.version == b.version && a.deleted == b.deleted && a.hash == b.hash && a.size == b.size ==> a == b.(name := a.name);
  }

  /** `a` is at least `b` in the replicated order. */
  predicate Geq(a: Entry, b: Entry) {
    CompareIndexEntries(a, b) >= 0
  }

  lemma EntryOrder(a: Entry, b: Entry)
    ensures CompareIndexEntries(a, b) == 0 <==> a == b
    ensures CompareIndexEntries(b, a) == -CompareIndexEntries(a, b)
    ensures Geq(a, b) || Geq(b, a)
    ensures Geq(a, b) && Geq(b, a) ==> a == b
  {
    StringOrder(a.hash, b.hash);
    StringOrder(a.name, b.name);
  }

  lemma EntryTransitive(a: Entry, b: Entry, c: Entry)
    requires Geq(a, b) && Geq(b, c)
    ensures Geq(a, c)
  {
    StringOrder(a.hash, b.hash);
    StringOrder(b.hash, c.hash);
    StringOrder(a.hash, c.hash);
    if CompareStrings(a.hash, b.hash) >= 0 && CompareStrings(b.hash, c.hash) >= 0 {
      StringTransitive(a.hash, b.hash, c.hash);
    }
    if CompareStrings(a.name, b.name) >= 0 && CompareStrings(b.name, c.name) >= 0 {
      StringTransitive(a.name, b.name, c.name);
    }
  }

  // ------------------------------------------------------------- the write core

  /** Go's `version + 1`. */
  function NextVersion(version: int): int {
    if version >= MAX_INT then MIN_INT else version + 1
  }

  predicate Rejected(index: Index, entry: Entry) {
    entry.version > 0 && entry.name in index && CompareIndexEntries(entry, index[entry.name]) <= 0
  }

  /** The entry a write stands for: explicit versions as given, others bumped past the current one. */
  function Effective(index: Index, entry: Entry): Entry {
    if entry.version > 0 then entry
    else if entry.name in index then entry.(version := NextVersion(index[entry.name].version))
    else entry.(version := 1)
  }

  function Resolve(index: Index, entry: Entry): Index {
    if Rejected(index, entry) then index else index[entry.name := Effective(index, entry)]
  }

  /** The hash a winning write leaves behind, if its blob may now be unreferenced. */
  function Superseded(index: Index, entry: Entry): set<string> {
    if Rejected(index, entry) || entry.name !in index then {}
    else
      var previous := index[entry.name];
      if previous.hash == "" || (!entry.deleted && previous.hash == entry.hash) then {} else {previous.hash}
  }

  /**
   * What a write does. An explicit version is stored as given exactly when it
   * beats the entry under its name; a local write is always stored, one version
   * up; no other name changes.
   */
  lemma WriteExactly(index: Index, entry: Entry)
    ensures var after := Resolve(index, entry);
            && after.Keys == index.Keys + {entry.name}
            && (forall n | n in index && n != entry.name :: after[n] == index[n])
            && (entry.version > 0 ==>
                  after[entry.name] == if entry.name !in index || Beats(entry, index[entry.name]) then entry else index[entry.name])
            && (entry.version <= 0 ==>
                  && after[entry.name] == entry.(version := after[entry.name].version)
                  && after[entry.name].version ==
                       if entry.name !in index then 1
                       else if index[entry.name].version < MAX_INT then index[entry.name].version + 1
                       else MIN_INT)
    ensures Rejected(index, entry) <==> entry.version > 0 && entry.name in index && !Beats(entry, index[entry.name])
  {
    if entry.name in index {
      OrderExactly(entry, index[entry.name]);
    }
  }

  class VFS {
    var index: Index
    var pendingGc: set<string>
    var subscriptions: set<string>

    constructor ()
      ensures index == map[] && pendingGc == {} && subscriptions == {}
    {
      index, pendingGc, subscriptions := map[], {}, {};
    }

    /** Runs inside one transaction: the index write and its GC intent commit together. */
    method ResolveVFSWrite(entry: Entry) returns (written: Entry, previous: Option<Entry>, applied: bool)
      modifies this`index, this`pendingGc
      ensures applied == !Rejected(old(index), entry)
      ensures index == Resolve(old(index), entry)
      ensures pendingGc == old(pendingGc) + Superseded(old(index), entry)
      ensures previous == if entry.name in old(index) then Some(old(index)[entry.name]) else None
      ensures entry.name in index && written == index[entry.name]
    {
      var existed := entry.name in index;
      previous := if existed then Some(index[entry.name]) else None;
      written := entry;
      if entry.version > 0 {
        if existed && CompareIndexEntries(entry, index[entry.name]) <= 0 {
          return index[entry.name], previous, false;
        }
      } else {
        written := written.(version := 1);
        if existed {
          written := written.(version := NextVersion(index[entry.name].version));
        }
      }
      if existed {
        var oldHash := index[entry.name].hash;
        if !(oldHash == "" || (!written.deleted && oldHash == written.hash)) {
          pendingGc := pendingGc + {oldHash};
        }
      }
      index := index[entry.name := written];
      return written, previous, true;
    }

    method Upsert(entry: Entry) returns (updated: bool)
      modifies this`index, this`pendingGc
      ensures updated == !Rejected(old(index), entry)
      ensures index == Resolve(old(index), entry)
      ensures pendingGc == old(pendingGc) + Superseded(old(index), entry)
    {
      var _, _, applied := ResolveVFSWrite(entry);
      return applied;
    }

    method UpsertAndSubscribe(entry: Entry) returns (written: Entry, applied: bool)
      modifies this
      ensures applied == !Rejected(old(index), entry)
      ensures index == Resolve(old(index), entry)
      ensures pendingGc == old(pendingGc) + Superseded(old(index), entry)
      ensures subscriptions == if applied then old(subscriptions) + {entry.name} else old(subscriptions)
      ensures entry.name in index && written == index[entry.name]
    {
      var previous;
      written, previous, applied := ResolveVFSWrite(entry);
      if applied {
        subscriptions := subscriptions + {entry.name};
      }
    }
  }

  /** An auto-bumped write to a name already at the largest int wraps below it. */
  predicate Overflows(index: Index, entry: Entry) {
    entry.version <= 0 && entry.name in index && index[entry.name].version >= MAX_INT
  }

  /** A write keeps the larger of the stored and the effective entry exactly when its bump does not wrap. */
  lemma WriteKeepsLargerExactly(index: Index, entry: Entry)
    requires entry.name in index && index[entry.name].version <= MAX_INT
    ensures var now := Resolve(index, entry)[entry.name];
            (Geq(now, index[entry.name]) && Geq(now, Effective(index, entry))) <==> !Overflows(index, entry)
  {
    EntryOrder(entry, index[entry.name]);
    EntryOrder(Effective(index, entry), index[entry.name]);
    EntryOrder(Effective(index, entry), Effective(index, entry));
  }

  // ------------------------------------------------------------------- replicas

  /** One replica: its index and, as history, every entry it has written or received. */
  datatype Replica = Replica(index: Index, seen: set<Entry>)

  datatype Event =
    | Write(replica: nat, entry: Entry)      // a local write, or the delivery of any peer's entry
    | Delete(replica: nat, name: string)     // a local delete writes the next tombstone

  function At(cluster: map<nat, Replica>, r: nat): Replica {
    if r in cluster then cluster[r] else Replica(map[], {})
  }

  function Tombstone(e: Entry): Entry {
    e.(version := NextVersion(e.version), deleted := true)
  }

  /** A delete is always applied: it leaves the entry as it was, marked deleted and one version up. */
  lemma DeleteExactly(index: Index, name: string)
    requires name in index && index[name].name == name
    ensures var after := Resolve(index, Tombstone(index[name]));
            && after.Keys == index.Keys
            && (forall n | n in index && n != name :: after[n] == index[n])
            && after[name].deleted && after[name] == index[name].(deleted := true, version := after[name].version)
            && after[name].version == if index[name].version < MAX_INT then index[name].version + 1 else MIN_INT
  {
    WriteExactly(index, Tombstone(index[name]));
  }

  function WriteAt(rep: Replica, entry: Entry): Replica {
    Replica(Resolve(rep.index, entry), rep.seen + {Effective(rep.index, entry)})
  }

  function Step(cluster: map<nat, Replica>, e: Event): map<nat, Replica> {
    var rep := At(cluster, e.replica);
    match e
    case Write(r, entry) => cluster[r := WriteAt(rep, entry)]
    case Delete(r, name) =>
      if name in rep.index then cluster[r := WriteAt(rep, Tombstone(rep.index[name]))] else cluster
  }

  function Run(events: seq<Event>): map<nat, Replica> {
    if events == [] then map[] else Step(Run(events[..|events| - 1]), events[|events| - 1])
  }

  /** No version counter of the run wraps around. */
  predicate StepSafe(cluster: map<nat, Replica>, e: Event) {
    var rep := At(cluster, e.replica);
    match e
    case Write(_, entry) => !Overflows(rep.index, entry)
    case Delete(_, name) => name in rep.index ==> rep.index[name].version < MAX_INT
  }

  predicate RunSafe(events: seq<Event>) {
    events == [] ||
    (RunSafe(events[..|events| - 1]) && StepSafe(Run(events[..|events| - 1]), events[|events| - 1]))
  }

  /** The entry of a name is the greatest one seen for it. */
  ghost predicate HoldsMaxima(rep: Replica) {
    && (forall n | n in rep.index :: rep.index[n].name == n && rep.index[n].version > 0 && rep.index[n] in rep.seen)
    && (forall e | e in rep.seen :: e.name in rep.index && Geq(rep.index[e.name], e))
  }

  lemma WriteKeepsMaxima(rep: Replica, entry: Entry)
    requires HoldsMaxima(rep) && !Overflows(rep.index, entry)
    ensures HoldsMaxima(WriteAt(rep, entry))
  {
    var rep' := WriteAt(rep, entry);
    var eff := Effective(rep.index, entry);
    EntryOrder(eff, eff);
    if entry.name in rep.index {
      EntryOrder(entry, rep.index[entry.name]);
      EntryOrder(eff, rep.index[entry.name]);
    }
    forall e | e in rep'.seen ensures e.name in rep'.index && Geq(rep'.index[e.name], e) {
      if e in rep.seen && e.name == entry.name {
        EntryTransitive(rep'.index[e.name], rep.index[e.name], e);
      }
    }
  }

  lemma {:induction false} RunHoldsMaxima(events: seq<Event>, r: nat)
    requires RunSafe(events)
    ensures HoldsMaxima(At(Run(events), r))
  {
    if events != [] {
      var front, e := events[..|events| - 1], events[|events| - 1];
      RunHoldsMaxima(front, r);
      var rep := At(Run(front), r);
      if e.replica == r {
        match e
        case Write(_, entry) => WriteKeepsMaxima(rep, entry);
        case Delete(_, name) =>
          if name in rep.index {
            WriteKeepsMaxima(rep, Tombstone(rep.index[name]));
          }
      }
    }
  }

  /** After any run, each replica holds for a name exactly the maximum of what it has seen. */
  lemma EntryIsMaximumSeen(events: seq<Event>, r: nat, name: string)
    requires RunSafe(events)
    ensures var rep := At(Run(events), r);
            && (name in rep.index <==> exists e :: e in rep.seen && e.name == name)
            && (name in rep.index ==>
                  && rep.index[name] in rep.seen
                  && forall e | e in rep.seen && e.name == name :: Geq(rep.index[name], e))
  {
    RunHoldsMaxima(events, r);
  }

  /** Replicas that have seen the same entries are equal, whatever the order and the duplicates. */
  lemma SameSeenSameIndex(events: seq<Event>, r: nat, q: nat)
    requires RunSafe(events)
    requires At(Run(events), r).seen == At(Run(events), q).seen
    ensures At(Run(events), r).index == At(Run(events), q).index
  {
    RunHoldsMaxima(events, r);
    RunHoldsMaxima(events, q);
    var a, b := At(Run(events), r), At(Run(events), q);
    forall n ensures (n in a.index <==> n in b.index) && (n in a.index ==> a.index[n] == b.index[n]) {
      if n in a.index && n in b.index {
        EntryOrder(a.index[n], b.index[n]);
      }
    }
  }

  /** A tombstone, once seen, is only ever overruled by a strictly higher version. */
  lemma TombstoneSticks(events: seq<Event>, r: nat, t: Entry)
    requires RunSafe(events) && t in At(Run(events), r).seen && t.deleted
    ensures var rep := At(Run(events), r);
            && t.name in rep.index
            && (rep.index[t.name].version > t.version || rep.index[t.name].deleted)
            && rep.index[t.name].version >= t.version
  {
    RunHoldsMaxima(events, r);
  }

  /** Without the guard the claim fails: a local write at the largest version sinks below what was seen. */
  lemma WrappedBumpLosesMaximum()
    ensures exists events: seq<Event>, r: nat :: !HoldsMaxima(At(Run(events), r))
  {
    var top := Entry("f", 0, "h", MAX_INT, false);
    var local := Entry("f", 0, "g", 0, false);
    var first := Write(0, top);
    var second := Write(0, local);
    var events := [first, second];
    assert events[..1] == [first] && [first][..0] == [];
    assert Run([]) == map[];
    assert At(Run([first]), 0) == Replica(map["f" := top], {top});
    var bumped := local.(version := MIN_INT);
    assert At(Run(events), 0) == Replica(map["f" := bumped], {top, bumped});
    assert !Geq(bumped, top);
    assert !HoldsMaxima(At(Run(events), 0));
  }
}
