/**
 * One anti-entropy round against one peer: fetch its manifest, merge it into
 * the local index, then push the local entries the peer lacks or has older.
 */
module VfsSync {
  import opened Common
  import opened VfsIndex

  /** Every stored entry sits under its own name with a version the write core has assigned. */
  predicate Proper(index: Index) {
    forall n | n in index :: index[n].name == n && index[n].version > 0
  }

  /** The entry both sides should end up with. */
  function Winner(a: Index, b: Index, n: string): Entry
    requires n in a || n in b
  {
    if n !in a then b[n] else if n !in b then a[n] else if Geq(a[n], b[n]) then a[n] else b[n]
  }

  function Merged(a: Index, b: Index): Index {
    map n | n in a.Keys + b.Keys :: Winner(a, b, n)
  }

  /** What a round brings into agreement on a name: version and deletion, and the hash of a live entry. */
  predicate Agree(a: Entry, b: Entry) {
    a.version == b.version && a.deleted == b.deleted && (!a.deleted ==> a.hash == b.hash)
  }

  /** The push filter of the sync loop. */
  predicate Skips(local: Entry, remote: Option<Entry>) {
    remote.Some? &&
    (|| (!local.deleted && remote.value.hash == local.hash && remote.value.version >= local.version)
     || (local.deleted && remote.value.deleted && remote.value.version >= local.version))
  }

  function Find(index: Index, n: string): Option<Entry> {
    if n in index then Some(index[n]) else None
  }

  /** After the pull the filter skips exactly the pairs that already agree. */
  lemma SkipsExactlyAgreeing(local: Entry, remote: Entry)
    requires Geq(local, remote)
    ensures Skips(local, Some(remote)) <==> Agree(local, remote)
  {
    StringOrder(local.hash, remote.hash);
  }

  /** Merging keeps one of the two entries of a name, the same one whichever side merges, and never loses the larger. */
  lemma MergedIsUpperBound(a: Index, b: Index, n: string)
    requires n in Merged(a, b)
    ensures (n in a && Merged(a, b)[n] == a[n]) || (n in b && Merged(a, b)[n] == b[n])
    ensures Merged(a, b)[n] == Merged(b, a)[n]
    ensures n in a ==> Geq(Merged(a, b)[n], a[n])
    ensures n in b ==> Geq(Merged(a, b)[n], b[n])
  {
    if n in a {
      EntryOrder(a[n], a[n]);
    }
    if n in b {
      EntryOrder(b[n], b[n]);
    }
    if n in a && n in b {
      EntryOrder(a[n], b[n]);
    }
  }

  /** Delivering an explicit version keeps the larger entry of its name and touches no other. */
  lemma ResolveIsWinner(index: Index, entry: Entry)
    requires entry.version > 0
    ensures Find(Resolve(index, entry), entry.name) ==
            Some(if entry.name in index && Geq(index[entry.name], entry) then index[entry.name] else entry)
    ensures forall n | n != entry.name :: Find(Resolve(index, entry), n) == Find(index, n)
  {
    if entry.name in index {
      EntryOrder(entry, index[entry.name]);
    }
  }

  // -------------------------------------------------------------- lists of writes

  /** What a list of writes makes of an index. */
  function ResolveAll(index: Index, entries: seq<Entry>): Index {
    if entries == [] then index else Resolve(ResolveAll(index, entries[..|entries| - 1]), entries[|entries| - 1])
  }

  predicate DistinctNames(entries: seq<Entry>) {
    forall i, j | 0 <= i < j < |entries| :: entries[i].name != entries[j].name
  }

  ghost predicate Lists(entries: seq<Entry>, wanted: set<Entry>) {
    forall e :: e in entries <==> e in wanted
  }

  /** Writes under distinct names do not meet: each name sees its own write only, in whatever order they come. */
  lemma {:induction false} ResolveAllPointwise(index: Index, entries: seq<Entry>, n: string)
    requires DistinctNames(entries)
    ensures forall e | e in entries && e.name == n :: Find(ResolveAll(index, entries), n) == Find(Resolve(index, e), n)
    ensures (forall e | e in entries :: e.name != n) ==> Find(ResolveAll(index, entries), n) == Find(index, n)
  {
    if entries != [] {
      var front, last := entries[..|entries| - 1], entries[|entries| - 1];
      assert entries == front + [last];
      ResolveAllPointwise(index, front, n);
      assert forall k | 0 <= k < |front| :: front[k].name != last.name;
    }
  }

  /** Merges a peer's manifest, entry by entry, tombstones included; `applied` is the order it was done in. */
  method ProcessRemoteManifest(local: VFS, manifest: Index) returns (ghost applied: seq<Entry>)
    modifies local`index, local`pendingGc
    ensures |applied| == |manifest| && Lists(applied, manifest.Values)
    ensures local.index == ResolveAll(old(local.index), applied)
    ensures Proper(manifest) ==> local.index == Merged(old(local.index), manifest)
  {
    applied := [];
    var todo := manifest.Keys;
    while todo != {}
      invariant todo <= manifest.Keys
      invariant Lists(applied, ValuesAt(manifest, manifest.Keys - todo)) && |applied| == |manifest| - |todo|
      invariant Proper(manifest) ==> DistinctNames(applied)
      invariant local.index == ResolveAll(old(local.index), applied)
      decreases |todo|
    {
      var n :| n in todo;
      var _ := local.Upsert(manifest[n]);
      ListOne(manifest, manifest.Keys, todo, applied, n);
      SnocResolve(old(local.index), applied, manifest[n]);
      applied := applied + [manifest[n]];
      todo := todo - {n};
    }
    assert ValuesAt(manifest, manifest.Keys - todo) == manifest.Values;
    if Proper(manifest) {
      AppliedIsMerged(old(local.index), manifest, applied);
    }
  }

  function ValuesAt(index: Index, names: set<string>): set<Entry> {
    set n | n in names && n in index :: index[n]
  }

  lemma SnocResolve(index: Index, entries: seq<Entry>, e: Entry)
    ensures ResolveAll(index, entries + [e]) == Resolve(ResolveAll(index, entries), e)
  {
    assert (entries + [e])[..|entries|] == entries;
  }

  lemma ListOne(index: Index, all: set<string>, todo: set<string>, listed: seq<Entry>, n: string)
    requires todo <= all <= index.Keys && n in todo && Lists(listed, ValuesAt(index, all - todo))
    ensures Lists(listed + [index[n]], ValuesAt(index, all - (todo - {n})))
    ensures Proper(index) && DistinctNames(listed) ==> DistinctNames(listed + [index[n]])
  {
    var longer := listed + [index[n]];
    assert all - (todo - {n}) == all - todo + {n};
    assert forall e :: e in longer <==> e in listed || e == index[n];
    assert forall k | 0 <= k < |listed| :: listed[k] in listed;
  }

  lemma AppliedIsMerged(start: Index, manifest: Index, applied: seq<Entry>)
    requires Proper(manifest) && Lists(applied, manifest.Values) && DistinctNames(applied)
    ensures ResolveAll(start, applied) == Merged(start, manifest)
  {
    forall n ensures Find(ResolveAll(start, applied), n) == if n in manifest then Some(Winner(start, manifest, n)) else Find(start, n) {
      ResolveAllPointwise(start, applied, n);
      if n in manifest {
        assert manifest[n] in manifest.Values;
        ResolveIsWinner(start, manifest[n]);
      } else {
        forall e | e in applied ensures e.name != n {
          var m :| m in manifest && manifest[m] == e;
        }
      }
    }
    MergedPointwise(ResolveAll(start, applied), start, manifest);
  }

  lemma MergedPointwise(index: Index, start: Index, manifest: Index)
    requires forall n :: Find(index, n) == if n in manifest then Some(Winner(start, manifest, n)) else Find(start, n)
    ensures index == Merged(start, manifest)
  {
    forall n ensures n in index <==> n in Merged(start, manifest) {
      assert Find(index, n) == if n in manifest then Some(Winner(start, manifest, n)) else Find(start, n);
    }
    forall n | n in index ensures index[n] == Merged(start, manifest)[n] {
      assert Find(index, n) == if n in manifest then Some(Winner(start, manifest, n)) else Find(start, n);
    }
  }

  /** What the peer holds of a name after the push, if it held `remote` before. */
  function Pushed(local: Entry, remote: Option<Entry>): Entry {
    if Skips(local, remote) then remote.value else local
  }

  /** The local entries the filter lets through. */
  function ToPush(snapshot: Index, manifest: Index, names: set<string>): set<Entry> {
    set n | n in names && n in snapshot && !Skips(snapshot[n], Find(manifest, n)) :: snapshot[n]
  }

  /** Pushes every local entry the filter does not skip; the peer resolves each like any write. */
  method PushEntries(snapshot: Index, manifest: Index, remote: VFS) returns (ghost pushed: seq<Entry>)
    modifies remote`index, remote`pendingGc
    ensures Lists(pushed, ToPush(snapshot, manifest, snapshot.Keys))
    ensures Proper(snapshot) ==> DistinctNames(pushed)
    ensures remote.index == ResolveAll(old(remote.index), pushed)
  {
    pushed := [];
    var todo := snapshot.Keys;
    while todo != {}
      invariant todo <= snapshot.Keys
      invariant Lists(pushed, ToPush(snapshot, manifest, snapshot.Keys - todo))
      invariant Proper(snapshot) ==> DistinctNames(pushed)
      invariant remote.index == ResolveAll(old(remote.index), pushed)
      decreases |todo|
    {
      var n :| n in todo;
      PushOne(snapshot, manifest, todo, pushed, n);
      if !Skips(snapshot[n], Find(manifest, n)) {
        var _ := remote.Upsert(snapshot[n]);
        SnocResolve(old(remote.index), pushed, snapshot[n]);
        pushed := pushed + [snapshot[n]];
      }
      todo := todo - {n};
    }
    assert snapshot.Keys - todo == snapshot.Keys;
  }

  lemma PushOne(snapshot: Index, manifest: Index, todo: set<string>, pushed: seq<Entry>, n: string)
    requires todo <= snapshot.Keys && n in todo && Lists(pushed, ToPush(snapshot, manifest, snapshot.Keys - todo))
    ensures var more := if Skips(snapshot[n], Find(manifest, n)) then pushed else pushed + [snapshot[n]];
            && Lists(more, ToPush(snapshot, manifest, snapshot.Keys - (todo - {n})))
            && (Proper(snapshot) && DistinctNames(pushed) ==> DistinctNames(more))
  {
    var longer := pushed + [snapshot[n]];
    assert snapshot.Keys - (todo - {n}) == snapshot.Keys - todo + {n};
    assert forall e :: e in longer <==> e in pushed || e == snapshot[n];
    assert forall k | 0 <= k < |pushed| :: pushed[k] in pushed;
  }

  /** The peer ends with the local entry where the filter lets it through and with its own where it does not. */
  lemma PushedPointwise(snapshot: Index, manifest: Index, pushed: seq<Entry>, n: string)
    requires Proper(snapshot) && Lists(pushed, ToPush(snapshot, manifest, snapshot.Keys)) && DistinctNames(pushed)
    requires forall m | m in manifest :: m in snapshot && Geq(snapshot[m], manifest[m])
    ensures Find(ResolveAll(manifest, pushed), n) ==
            if n in snapshot then Some(Pushed(snapshot[n], Find(manifest, n))) else None
  {
    ResolveAllPointwise(manifest, pushed, n);
    if n in snapshot && !Skips(snapshot[n], Find(manifest, n)) {
      assert snapshot[n] in ToPush(snapshot, manifest, snapshot.Keys);
      ResolveIsWinner(manifest, snapshot[n]);
      if n in manifest {
        EntryOrder(snapshot[n], manifest[n]);
      }
    } else {
      forall e | e in pushed ensures e.name != n {
        var m :| m in snapshot && !Skips(snapshot[m], Find(manifest, m)) && snapshot[m] == e;
      }
    }
  }

  // ---------------------------------------------------------------------- a round

  /** After a round a name is left different exactly where the peer's entry agreed already without being equal. */
  lemma LeftApartExactly(local: Entry, remote: Option<Entry>)
    requires remote.Some? ==> Geq(local, remote.value)
    ensures Pushed(local, remote) == local <==> remote.None? || !Agree(local, remote.value) || local == remote.value
    ensures remote.Some? ==> Agree(local, Pushed(local, remote))
  {
    if remote.Some? {
      SkipsExactlyAgreeing(local, remote.value);
    }
  }

  /** How entries of one name that agree can still differ: live ones in size, tombstones in hash or size. */
  lemma AgreeingDifferExactly(a: Entry, b: Entry)
    requires a.name == b.name && Agree(a, b)
    ensures a != b <==> if a.deleted then a.hash != b.hash || a.size != b.size else a.size != b.size
  {
  }

  /** What the peer holds after a round, by what both sides held before. */
  ghost predicate RoundResult(a: Index, b: Index, local: Index, remote: Index) {
    && local == Merged(a, b)
    && remote.Keys == local.Keys
    && (forall n | n in local :: Agree(local[n], remote[n]))
    && (forall n | n in local ::
          remote[n] == local[n] <==> n !in b || !Agree(local[n], b[n]) || local[n] == b[n])
    && (forall n | n in local && remote[n] != local[n] :: n in b && remote[n] == b[n])
  }

  lemma RoundIsPushed(a: Index, b: Index, pushed: seq<Entry>)
    requires Proper(a) && Proper(b)
    requires var local := Merged(a, b); Lists(pushed, ToPush(local, b, local.Keys)) && DistinctNames(pushed)
    ensures RoundResult(a, b, Merged(a, b), ResolveAll(b, pushed))
  {
    var local, remote := Merged(a, b), ResolveAll(b, pushed);
    forall n | n in b ensures n in local && Geq(local[n], b[n]) {
      MergedIsUpperBound(a, b, n);
    }
    forall n ensures Find(remote, n) == if n in local then Some(Pushed(local[n], Find(b, n))) else None {
      PushedPointwise(local, b, pushed, n);
    }
    RoundPointwise(a, b, local, remote);
  }

  lemma RoundPointwise(a: Index, b: Index, local: Index, remote: Index)
    requires local == Merged(a, b) && forall n | n in b :: n in local && Geq(local[n], b[n])
    requires forall n :: Find(remote, n) == if n in local then Some(Pushed(local[n], Find(b, n))) else None
    ensures RoundResult(a, b, local, remote)
  {
    forall n ensures n in remote <==> n in local {
      assert n in remote <==> Find(remote, n).Some?;
    }
    forall n | n in local
      ensures n in remote && remote[n] == Pushed(local[n], Find(b, n)) && Agree(local[n], remote[n])
      ensures remote[n] == local[n] <==> n !in b || !Agree(local[n], b[n]) || local[n] == b[n]
    {
      assert Find(remote, n) == Some(remote[n]);
      LeftApartExactly(local[n], Find(b, n));
    }
  }

  /** One error-free pull-then-push round. */
  method ExecuteSync(local: VFS, remote: VFS) returns (ghost applied: seq<Entry>, ghost pushed: seq<Entry>)
    requires local != remote
    modifies local`index, local`pendingGc, remote`index, remote`pendingGc
    ensures Lists(applied, old(remote.index).Values) && local.index == ResolveAll(old(local.index), applied)
    ensures Lists(pushed, ToPush(local.index, old(remote.index), local.index.Keys))
    ensures remote.index == ResolveAll(old(remote.index), pushed)
    ensures Proper(old(local.index)) && Proper(old(remote.index)) ==>
              RoundResult(old(local.index), old(remote.index), local.index, remote.index)
  {
    var manifest := remote.index;
    applied := ProcessRemoteManifest(local, manifest);
    pushed := PushEntries(local.index, manifest, remote);
    if Proper(old(local.index)) && Proper(manifest) {
      RoundIsPushed(old(local.index), manifest, pushed);
    }
  }

  /** Two live entries of one version and hash that differ in size are left as they are. */
  lemma SizesCanStayApart(e: Entry, bigger: int, local: Index, remote: Index)
    requires !e.deleted && bigger > e.size
    requires var n := e.name; RoundResult(map[n := e.(size := bigger)], map[n := e], local, remote)
    ensures local[e.name] == e.(size := bigger) && remote[e.name] == e
  {
    StringOrder(e.hash, e.hash);
    assert e.name in local;
  }

  /** Two tombstones of one version with different hashes are left as they are. */
  lemma TombstonesCanStayApart(e: Entry, other: string, local: Index, remote: Index)
    requires e.deleted && other != e.hash && Geq(e.(hash := other), e)
    requires var n := e.name; RoundResult(map[n := e.(hash := other)], map[n := e], local, remote)
    ensures local[e.name] == e.(hash := other) && remote[e.name] == e
  {
    assert e.name in local;
  }
}
