/**
 * The bounded cache of task statuses: active statuses and retired ones, with
 * expiry by age and eviction by capacity. Map iteration order is arbitrary, so
 * the operations are specified by relations between the states around them.
 */
module StatusCache {
  import opened Common

  datatype Response = Response(taskId: string, service: string, status: string, error: string, outputs: map<string, string>)
  datatype Meta = Meta(touched: int, sequence: nat, producer: string)
  datatype Candidate = Candidate(taskId: string, terminal: bool, touched: int, sequence: nat)

  /** A limit or lifetime of zero or less switches that rule off. */
  datatype Config = Config(limit: int, pendingTtl: int, terminalTtl: int)

  const EXPIRED := "task expired before reaching a terminal callback"
  const EVICTED := "task failed because status capacity was exhausted"

  const CLOSED := "compute engine closed"

  predicate IsTerminal(status: string) {
    status == "completed" || status == "failed"
  }

  function Failed(r: Response, reason: string): Response {
    r.(status := "failed", error := reason, outputs := map["error" := reason])
  }

  // ------------------------------------------------------------- eviction order

  /** The comparator handed to the sort: oldest first, terminal before pending, the protected task last. */
  predicate Less(a: Candidate, b: Candidate, keep: string) {
    if a.taskId == keep then false
    else if b.taskId == keep then true
    else if a.touched != b.touched then a.touched < b.touched
    else if a.terminal != b.terminal then a.terminal
    else a.sequence < b.sequence
  }

  /** `a` has waited longer than `b`: touched earlier, at one time a finished task before a pending one, then by number. */
  predicate IsOlder(a: Candidate, b: Candidate) {
    || a.touched < b.touched
    || (a.touched == b.touched && a.terminal && !b.terminal)
    || (a.touched == b.touched && a.terminal == b.terminal && a.sequence < b.sequence)
  }

  /** The sort puts older tasks first, whatever their state, and the protected task after every other. */
  lemma EvictionOrderExactly(a: Candidate, b: Candidate, keep: string)
    ensures a.taskId != keep && b.taskId != keep ==> (Less(a, b, keep) <==> IsOlder(a, b))
    ensures a.taskId != keep && b.taskId == keep ==> Less(a, b, keep) && !Less(b, a, keep)
    ensures a.taskId == keep && b.taskId == keep ==> !Less(a, b, keep)
  {
  }

  predicate Sorted(cs: seq<Candidate>, keep: string) {
    forall i, j | 0 <= i < j < |cs| :: !Less(cs[j], cs[i], keep)
  }

  predicate DistinctIds(cs: seq<Candidate>) {
    forall i, j | 0 <= i < j < |cs| :: cs[i].taskId != cs[j].taskId
  }

  function Ids(cs: seq<Candidate>): set<string> {
    set c | c in cs :: c.taskId
  }

  lemma LessIsStrictWeakOrder(a: Candidate, b: Candidate, c: Candidate, keep: string)
    ensures !Less(a, a, keep)
    ensures Less(a, b, keep) && Less(b, c, keep) ==> Less(a, c, keep)
    ensures !Less(a, b, keep) && !Less(b, c, keep) ==> !Less(a, c, keep)
  {
  }

  lemma {:induction false} DistinctCount(cs: seq<Candidate>)
    requires DistinctIds(cs)
    ensures |Ids(cs)| == |cs|
  {
    if cs != [] {
      var n := |cs| - 1;
      DistinctCount(cs[..n]);
      assert cs == cs[..n] + [cs[n]];
      assert Ids(cs) == Ids(cs[..n]) + {cs[n].taskId};
      assert cs[n].taskId !in Ids(cs[..n]);
    }
  }

  lemma InsertKeepsSorted(cs: seq<Candidate>, c: Candidate, i: nat, keep: string)
    requires Sorted(cs, keep) && i <= |cs|
    requires forall k | 0 <= k < i :: !Less(c, cs[k], keep)
    requires i < |cs| ==> Less(c, cs[i], keep)
    ensures Sorted(cs[..i] + [c] + cs[i..], keep)
  {
    var r := cs[..i] + [c] + cs[i..];
    forall a, b | 0 <= a < b < |r| ensures !Less(r[b], r[a], keep) {
      if a == i {
        LessIsStrictWeakOrder(cs[b - 1], cs[i], c, keep);
        assert b - 1 == i || !Less(cs[b - 1], cs[i], keep);
      }
    }
  }

  lemma InsertKeepsDistinct(cs: seq<Candidate>, c: Candidate, i: nat)
    requires DistinctIds(cs) && c.taskId !in Ids(cs) && i <= |cs|
    ensures DistinctIds(cs[..i] + [c] + cs[i..])
  {
    var r := cs[..i] + [c] + cs[i..];
    forall a, b | 0 <= a < b < |r| ensures r[a].taskId != r[b].taskId {
      if a == i || b == i {
        var k := if a == i then b - 1 else a;
        assert cs[k].taskId in Ids(cs);
      }
    }
  }

  method Insert(cs: seq<Candidate>, c: Candidate, keep: string) returns (r: seq<Candidate>)
    requires Sorted(cs, keep) && DistinctIds(cs) && c.taskId !in Ids(cs)
    ensures Sorted(r, keep) && DistinctIds(r) && |r| == |cs| + 1
    ensures forall x :: x in r <==> x == c || x in cs
  {
    var i := 0;
    while i < |cs| && !Less(c, cs[i], keep)
      invariant 0 <= i <= |cs|
      invariant forall k | 0 <= k < i :: !Less(c, cs[k], keep)
    {
      i := i + 1;
    }
    r := cs[..i] + [c] + cs[i..];
    InsertKeepsSorted(cs, c, i, keep);
    InsertKeepsDistinct(cs, c, i);
    assert cs == cs[..i] + cs[i..];
  }

  method SortCandidates(cs: seq<Candidate>, keep: string) returns (r: seq<Candidate>)
    requires DistinctIds(cs)
    ensures Sorted(r, keep) && DistinctIds(r) && |r| == |cs|
    ensures forall x :: x in r <==> x in cs
  {
    r := [];
    for i := 0 to |cs|
      invariant Sorted(r, keep) && DistinctIds(r) && |r| == i
      invariant forall x :: x in r <==> x in cs[..i]
    {
      assert cs[..i + 1] == cs[..i] + [cs[i]];
      assert cs[i].taskId !in Ids(r);
      r := Insert(r, cs[i], keep);
    }
    assert cs[..|cs|] == cs;
  }

  /** What an eviction takes: as many as are over the limit, never the protected task, oldest first. */
  ghost predicate AreVictims(cs: seq<Candidate>, victims: seq<Candidate>, limit: int, keep: string) {
    && DistinctIds(victims)
    && (forall v | v in victims :: v in cs && v.taskId != keep)
    && |victims| == |cs| - limit
    && forall v, k | v in victims && k in cs && k !in victims && k.taskId != keep :: !Less(k, v, keep)
  }

  method SelectVictims(cs: seq<Candidate>, limit: int, keep: string) returns (victims: seq<Candidate>)
    requires DistinctIds(cs) && 0 < limit < |cs|
    ensures AreVictims(cs, victims, limit, keep)
  {
    var sorted := SortCandidates(cs, keep);
    victims := [];
    var toDelete := |cs| - limit;
    var i := 0;
    while i < |sorted| && toDelete > 0
      invariant 0 <= i <= |sorted| && 0 <= toDelete
      invariant |victims| + toDelete == |cs| - limit
      invariant i - 1 <= |victims| <= i
      invariant |victims| < i ==> exists k :: 0 <= k < i && sorted[k].taskId == keep
      invariant DistinctIds(victims)
      invariant forall v :: v in victims <==> v in sorted[..i] && v.taskId != keep
    {
      assert sorted[..i + 1] == sorted[..i] + [sorted[i]];
      if sorted[i].taskId != keep {
        assert forall v | v in victims :: v.taskId != sorted[i].taskId;
        victims := victims + [sorted[i]];
        toDelete := toDelete - 1;
      }
      i := i + 1;
    }
    assert forall x | 0 <= x < i && sorted[x].taskId != keep :: sorted[x] in sorted[..i];
    forall v, k | v in victims && k in cs && k !in victims && k.taskId != keep ensures !Less(k, v, keep) {
      var a :| 0 <= a < i && sorted[a] == v;
      var b :| 0 <= b < |sorted| && sorted[b] == k;
    }
  }

  // ------------------------------------------------------------------- the cache

  datatype Cache = Cache(
    statuses: map<string, Response>, meta: map<string, Meta>,
    retired: map<string, Response>, retiredMeta: map<string, Meta>,
    counter: nat, accepted: set<string>)

  predicate WellFormed(c: Cache) {
    c.statuses.Keys <= c.meta.Keys && c.retired.Keys == c.retiredMeta.Keys
  }

  function Find<V>(m: map<string, V>, id: string): Option<V> {
    if id in m then Some(m[id]) else None
  }

  predicate IsPending(c: Cache, id: string) {
    id in c.statuses && !IsTerminal(c.statuses[id].status)
  }

  /** What dropping an ID, for a reason, does to it: a pending status is retired as failed and no longer accepted. */
  predicate DroppedAt(a: Cache, b: Cache, reason: Option<string>, now: int, id: string) {
    && Find(b.statuses, id) == (if reason.Some? then None else Find(a.statuses, id))
    && Find(b.meta, id) == (if reason.Some? then None else Find(a.meta, id))
    && if reason.Some? && IsPending(a, id) then
         && id !in b.accepted
         && Find(b.retired, id) == Some(Failed(a.statuses[id], reason.value))
         && id in b.retiredMeta && b.retiredMeta[id].touched == now && b.retiredMeta[id].sequence > a.counter
       else
         && (id in b.accepted <==> id in a.accepted)
         && Find(b.retired, id) == Find(a.retired, id)
         && Find(b.retiredMeta, id) == Find(a.retiredMeta, id)
  }

  function Reason(expired: set<string>, evicted: set<string>, id: string): Option<string> {
    if id in expired then Some(EXPIRED) else if id in evicted then Some(EVICTED) else None
  }

  /** The active statuses lose some IDs by age and some by capacity; nothing else changes. */
  ghost predicate Dropped(a: Cache, b: Cache, expired: set<string>, evicted: set<string>, now: int) {
    b.counter >= a.counter && forall id :: DroppedAt(a, b, Reason(expired, evicted, id), now, id)
  }

  lemma DropIsSequential(a: Cache, b: Cache, c: Cache, e1: set<string>, e2: set<string>, v1: set<string>, v2: set<string>,
                         e: set<string>, v: set<string>, now: int)
    requires Dropped(a, b, e1, v1, now) && Dropped(b, c, e2, v2, now)
    requires (e1 + v1) !! (e2 + v2) && e == e1 + e2 && v == v1 + v2
    ensures Dropped(a, c, e, v, now)
  {
    forall id ensures DroppedAt(a, c, Reason(e, v, id), now, id) {
      assert DroppedAt(a, b, Reason(e1, v1, id), now, id);
      assert DroppedAt(b, c, Reason(e2, v2, id), now, id);
    }
  }

  function CandidateOf(c: Cache, id: string): Candidate
    requires id in c.statuses && id in c.meta
  {
    Candidate(id, IsTerminal(c.statuses[id].status), c.meta[id].touched, c.meta[id].sequence)
  }

  function RetiredCandidate(c: Cache, id: string): Candidate
    requires id in c.retiredMeta
  {
    Candidate(id, true, c.retiredMeta[id].touched, c.retiredMeta[id].sequence)
  }

  predicate HasExpired(cfg: Config, c: Cache, id: string, now: int)
    requires id in c.statuses && id in c.meta
  {
    var ttl := if IsTerminal(c.statuses[id].status) then cfg.terminalTtl else cfg.pendingTtl;
    ttl > 0 && now - c.meta[id].touched >= ttl
  }

  predicate RetiredExpired(cfg: Config, c: Cache, id: string, now: int)
    requires id in c.retiredMeta
  {
    cfg.terminalTtl > 0 && now - c.retiredMeta[id].touched >= cfg.terminalTtl
  }

  /** The retired statuses a prune considers for capacity: unexpired ones and the protected one. */
  function RetiredFresh(cfg: Config, c: Cache, now: int, keep: string): set<string>
    requires WellFormed(c)
  {
    set id | id in c.retired && (id == keep || !RetiredExpired(cfg, c, id, now))
  }

  function Fresh(cfg: Config, c: Cache, now: int): set<string>
    requires WellFormed(c)
  {
    set id | id in c.statuses && !HasExpired(cfg, c, id, now)
  }

  predicate FitsLimit(cfg: Config, n: nat) {
    cfg.limit <= 0 || n <= cfg.limit
  }

  /** What a capacity rule leaves of some IDs: all if they fit, else the limit, without losing the protected one. */
  predicate KeepsLimit(cfg: Config, live: set<string>, kept: set<string>, keep: string) {
    && kept <= live
    && (if FitsLimit(cfg, |live|) then kept == live else |kept| == cfg.limit)
    && (keep in live ==> keep in kept)
  }

  /** Pruning the retired statuses drops the expired ones, then the oldest ones over the limit. */
  ghost predicate RetiredPruned(cfg: Config, a: Cache, b: Cache, now: int, keep: string)
    requires WellFormed(a)
  {
    var live, kept := RetiredFresh(cfg, a, now, keep), b.retired.Keys;
    && b == a.(retired := b.retired, retiredMeta := b.retiredMeta)
    && WellFormed(b)
    && KeepsLimit(cfg, live, kept, keep)
    && (forall id | id in kept :: b.retired[id] == a.retired[id] && b.retiredMeta[id] == a.retiredMeta[id])
    && (forall v, k | v in live - kept && k in kept && k != keep ::
          !Less(RetiredCandidate(a, k), RetiredCandidate(a, v), keep))
  }

  /** Pruning the active statuses drops the expired ones, then the oldest ones over the limit. */
  ghost predicate StatusesPruned(cfg: Config, a: Cache, b: Cache, now: int, keep: string)
    requires WellFormed(a)
  {
    var live, kept := Fresh(cfg, a, now), b.statuses.Keys;
    && WellFormed(b)
    && KeepsLimit(cfg, live, kept, keep)
    && (forall id | id in kept :: b.statuses[id] == a.statuses[id] && b.meta[id] == a.meta[id])
    && (forall v, k | v in live - kept && k in kept && k != keep ::
          !Less(CandidateOf(a, k), CandidateOf(a, v), keep))
  }

  /** A pending task that left the active statuses. */
  predicate WasRetired(a: Cache, b: Cache, id: string) {
    IsPending(a, id) && id !in b.statuses
  }

  /** Every retired status was there before or comes from a pending task that left, as a failure with its reason. */
  ghost predicate Accounted(cfg: Config, a: Cache, b: Cache, now: int)
    requires WellFormed(a)
  {
    && (forall id | id in b.retired ::
          if WasRetired(a, b, id) then
            b.retired[id] == Failed(a.statuses[id], if HasExpired(cfg, a, id, now) then EXPIRED else EVICTED)
          else
            id in a.retired && b.retired[id] == a.retired[id])
    && (forall id :: id in b.accepted <==> id in a.accepted && !WasRetired(a, b, id))
  }

  ghost predicate RetiredExplained(cfg: Config, a: Cache, b: Cache, now: int)
    requires WellFormed(a)
  {
    (cfg.limit > 0 ==> |b.retired| <= cfg.limit) && Accounted(cfg, a, b, now)
  }

  /** An older retired status survives only if every task retired by this prune does. */
  ghost predicate NewestSurvive(a: Cache, b: Cache, now: int, keep: string)
    requires WellFormed(a)
  {
    forall k, v | k in b.retired && !WasRetired(a, b, k) && k != keep && k in a.retired
                  && a.retiredMeta[k].touched <= now && a.retiredMeta[k].sequence <= a.counter && WasRetired(a, b, v) ::
      v in b.retired
  }

  /** The pending tasks that left the active statuses. */
  function Left(a: Cache, b: Cache): set<string> {
    set id | id in a.statuses && WasRetired(a, b, id)
  }

  /**
   * A task retired by this prune is in the retired statuses afterwards, if it is
   * the protected one, or if it, the others and the fresh older ones fit the limit.
   */
  ghost predicate RetiredAreKept(cfg: Config, a: Cache, b: Cache, now: int, keep: string)
    requires WellFormed(a)
  {
    forall id | id in Left(a, b) && (id == keep || FitsLimit(cfg, |RetiredFresh(cfg, a, now, keep) + Left(a, b)|)) ::
      id in b.retired
  }

  /**
   * What a prune does to an active status. One that stays is unchanged and has
   * not outlived its lifetime; one that goes has, or the limit was exceeded, is
   * now met exactly, and no status that stays, but the protected one, is older.
   */
  lemma PruneExactly(cfg: Config, a: Cache, b: Cache, now: int, keep: string, id: string)
    requires WellFormed(a) && StatusesPruned(cfg, a, b, now, keep)
    ensures id in b.statuses ==> id in a.statuses && b.statuses[id] == a.statuses[id] && b.meta[id] == a.meta[id]
    ensures id in a.statuses ==>
              var ttl := if a.statuses[id].status in {"completed", "failed"} then cfg.terminalTtl else cfg.pendingTtl;
              if ttl > 0 && now - a.meta[id].touched >= ttl then id !in b.statuses
              else id in b.statuses || (0 < cfg.limit == |b.statuses| && id != keep && NoneOlder(a, b, keep, id))
  {
    assert id in a.statuses ==> (id in Fresh(cfg, a, now) <==> !HasExpired(cfg, a, id, now));
    if id in a.statuses && id !in b.statuses && !HasExpired(cfg, a, id, now) {
      forall k | k in b.statuses && k != keep
        ensures k in a.statuses && !IsOlder(Candidate(k, IsTerminal(a.statuses[k].status), a.meta[k].touched, a.meta[k].sequence),
                                            Candidate(id, IsTerminal(a.statuses[id].status), a.meta[id].touched, a.meta[id].sequence))
      {
        assert k in Fresh(cfg, a, now);
        EvictionOrderExactly(CandidateOf(a, k), CandidateOf(a, id), keep);
      }
    }
  }

  /** No status that stays, other than the protected one, has waited longer than the one that went. */
  predicate NoneOlder(a: Cache, b: Cache, keep: string, gone: string)
    requires WellFormed(a) && gone in a.statuses
  {
    forall k | k in b.statuses && k != keep ::
      && k in a.statuses
      && !IsOlder(Candidate(k, IsTerminal(a.statuses[k].status), a.meta[k].touched, a.meta[k].sequence),
                  Candidate(gone, IsTerminal(a.statuses[gone].status), a.meta[gone].touched, a.meta[gone].sequence))
  }

  /** The same of a retired status, which lives as long as a terminal one; the protected one never expires. */
  lemma PruneRetiredExactly(cfg: Config, a: Cache, b: Cache, now: int, keep: string, id: string)
    requires WellFormed(a) && RetiredPruned(cfg, a, b, now, keep)
    ensures id in b.retired ==> id in a.retired && b.retired[id] == a.retired[id] && b.retiredMeta[id] == a.retiredMeta[id]
    ensures id in a.retired ==>
              var expired := id != keep && cfg.terminalTtl > 0 && now - a.retiredMeta[id].touched >= cfg.terminalTtl;
              if expired then id !in b.retired
              else id in b.retired || (0 < cfg.limit == |b.retired| && id != keep && NoneRetiredOlder(a, b, keep, id))
  {
    if id in a.retired && id in RetiredFresh(cfg, a, now, keep) && id !in b.retired {
      forall k | k in b.retired && k != keep
        ensures k in a.retired && !IsOlder(Candidate(k, true, a.retiredMeta[k].touched, a.retiredMeta[k].sequence),
                                           Candidate(id, true, a.retiredMeta[id].touched, a.retiredMeta[id].sequence))
      {
        EvictionOrderExactly(RetiredCandidate(a, k), RetiredCandidate(a, id), keep);
      }
    }
  }

  predicate NoneRetiredOlder(a: Cache, b: Cache, keep: string, gone: string)
    requires WellFormed(a) && gone in a.retired
  {
    forall k | k in b.retired && k != keep ::
      && k in a.retired
      && !IsOlder(Candidate(k, true, a.retiredMeta[k].touched, a.retiredMeta[k].sequence),
                  Candidate(gone, true, a.retiredMeta[gone].touched, a.retiredMeta[gone].sequence))
  }

  /** A task retired as a failure keeps its names and says why, in its error and in its outputs. */
  lemma FailureExactly(r: Response, reason: string)
    ensures var f := Failed(r, reason);
            && f.status == "failed" && f.error == reason && f.outputs.Keys == {"error"} && f.outputs["error"] == reason
            && (f.taskId, f.service) == (r.taskId, r.service)
  {
  }

  /**
   * Storing a status touches its task alone, and makes it the youngest: every
   * task touched before is older, unless it is pending, was touched at the very
   * same time, and the new status is terminal.
   */
  lemma StoredIsYoungestExactly(c: Cache, response: Response, now: int, other: string)
    requires other != response.taskId && other in c.statuses && other in c.meta
    requires c.meta[other].touched <= now && c.meta[other].sequence <= c.counter
    ensures var id, s := response.taskId, Stored(c, response, now);
            && s.statuses == c.statuses[id := response] && s.meta.Keys == c.meta.Keys + {id}
            && s.meta[id].producer == (if id in c.meta then c.meta[id].producer else "")
            && s.meta[other] == c.meta[other]
            && (s.retired, s.retiredMeta, s.accepted) == (c.retired, c.retiredMeta, c.accepted)
            && (IsOlder(Candidate(other, IsTerminal(s.statuses[other].status), s.meta[other].touched, s.meta[other].sequence),
                        Candidate(id, IsTerminal(response.status), s.meta[id].touched, s.meta[id].sequence)) <==>
                  c.meta[other].touched < now || !IsTerminal(response.status) || IsTerminal(c.statuses[other].status))
  {
  }

  class StatusTable {
    const cfg: Config
    var statuses: map<string, Response>
    var meta: map<string, Meta>
    var retired: map<string, Response>
    var retiredMeta: map<string, Meta>
    var counter: nat
    var accepted: set<string>

    function Value(): Cache
      reads this
    {
      Cache(statuses, meta, retired, retiredMeta, counter, accepted)
    }

    constructor (cfg: Config)
      ensures WellFormed(Value()) && this.cfg == cfg
      ensures statuses == map[] && retired == map[] && accepted == {}
    {
      this.cfg := cfg;
      statuses, meta, retired, retiredMeta, counter, accepted := map[], map[], map[], map[], 0, {};
    }

    method DeleteTaskStatus(id: string)
      modifies this
      ensures Value() == Deleted(old(Value()), id)
    {
      statuses, meta := statuses - {id}, meta - {id};
    }

    method RetireActiveTaskStatus(id: string, response: Response, now: int, reason: string)
      requires id in meta
      modifies this
      ensures Value() == Retired(old(Value()), id, response, now, reason)
    {
      var metadata := meta[id];
      DeleteTaskStatus(id);
      retired := retired[id := Failed(response, reason)];
      retiredMeta := retiredMeta[id := metadata];
      counter := counter + 1;
      retiredMeta := retiredMeta[id := metadata.(touched := now, sequence := counter)];
      accepted := accepted - {id};
    }

    /** Takes one ID out of the active statuses, by age or by capacity. */
    method Drop(id: string, expired: set<string>, evicted: set<string>, now: int)
      requires WellFormed(Value()) && id in statuses && id in expired + evicted && expired + evicted <= {id}
      modifies this
      ensures WellFormed(Value())
      ensures Dropped(old(Value()), Value(), expired, evicted, now)
    {
      var response := statuses[id];
      if IsTerminal(response.status) {
        DeleteTaskStatus(id);
      } else {
        RetireActiveTaskStatus(id, response, now, if id in expired then EXPIRED else EVICTED);
      }
      DropOne(old(Value()), Value(), id, expired, evicted, now);
    }

    method DeleteRetired(id: string)
      modifies this
      ensures Value() == old(Value()).(retired := old(retired) - {id}, retiredMeta := old(retiredMeta) - {id})
    {
      retired, retiredMeta := retired - {id}, retiredMeta - {id};
    }

    method CollectRetired(now: int, keep: string) returns (cs: seq<Candidate>)
      requires WellFormed(Value())
      modifies this
      ensures RetiredIs(old(Value()), Value(), RetiredFresh(cfg, old(Value()), now, keep))
      ensures RetiredCandidates(old(Value()), cs, RetiredFresh(cfg, old(Value()), now, keep))
    {
      cs := [];
      var todo := retired.Keys;
      ghost var a := Value();
      ghost var live := RetiredFresh(cfg, a, now, keep);
      while todo != {}
        invariant Sweeping(a, Value(), cs, live, todo)
        decreases |todo|
      {
        var id :| id in todo;
        var metadata := retiredMeta[id];
        if cfg.terminalTtl > 0 && now - metadata.touched >= cfg.terminalTtl && id != keep {
          SweepDrop(a, Value(), cs, live, todo, id);
          DeleteRetired(id);
        } else {
          SweepCollect(a, Value(), cs, live, todo, id);
          cs := cs + [Candidate(id, true, metadata.touched, metadata.sequence)];
        }
        todo := todo - {id};
      }
      assert todo + live == live && live - todo == live;
    }

    method EvictRetired(victims: seq<Candidate>)
      requires WellFormed(Value())
      modifies this
      ensures RetiredIs(old(Value()), Value(), old(retired).Keys - Ids(victims))
    {
      for i := 0 to |victims|
        invariant RetiredIs(old(Value()), Value(), old(retired).Keys - Ids(victims[..i]))
      {
        assert victims[..i + 1] == victims[..i] + [victims[i]];
        SnocIds(victims[..i], victims[i]);
        RemoveOne(old(Value()), Value(), old(retired).Keys - Ids(victims[..i]), victims[i].taskId);
        DeleteRetired(victims[i].taskId);
        assert old(retired).Keys - Ids(victims[..i]) - {victims[i].taskId} == old(retired).Keys - Ids(victims[..i + 1]);
      }
      assert victims[..|victims|] == victims;
    }

    method PruneRetiredTaskStatuses(now: int, keep: string)
      requires WellFormed(Value())
      modifies this
      ensures RetiredPruned(cfg, old(Value()), Value(), now, keep)
    {
      var cs := CollectRetired(now, keep);
      DistinctCount(cs);
      if cfg.limit > 0 && |cs| > cfg.limit {
        ghost var b := Value();
        var victims := SelectVictims(cs, cfg.limit, keep);
        EvictRetired(victims);
        RetiredEvicted(cfg, old(Value()), b, Value(), cs, victims, now, keep);
      }
    }

    method ExpireStatuses(now: int) returns (cs: seq<Candidate>)
      requires WellFormed(Value())
      modifies this
      ensures WellFormed(Value())
      ensures Dropped(old(Value()), Value(), Stale(cfg, old(Value()), now), {}, now)
      ensures Candidates(old(Value()), cs, Fresh(cfg, old(Value()), now))
    {
      cs := [];
      var todo := statuses.Keys;
      ghost var a := Value();
      StartExpiring(cfg, a, now);
      while todo != {}
        invariant WellFormed(Value()) && Expiring(cfg, a, Value(), cs, todo, now)
        decreases |todo|
      {
        var id :| id in todo;
        ghost var b := Value();
        StillThere(cfg, a, b, cs, todo, now, id);
        var response, metadata := statuses[id], meta[id];
        var terminal := IsTerminal(response.status);
        var ttl := if terminal then cfg.terminalTtl else cfg.pendingTtl;
        if ttl > 0 && now - metadata.touched >= ttl {
          Drop(id, {id}, {}, now);
          ExpireOne(cfg, a, b, Value(), cs, todo, now, id);
        } else {
          KeepOne(cfg, a, b, cs, todo, now, id);
          cs := cs + [Candidate(id, terminal, metadata.touched, metadata.sequence)];
        }
        todo := todo - {id};
      }
      assert Stale(cfg, a, now) - todo == Stale(cfg, a, now) && Fresh(cfg, a, now) - todo == Fresh(cfg, a, now);
    }

    method EvictStatuses(victims: seq<Candidate>, now: int)
      requires WellFormed(Value()) && DistinctIds(victims) && Ids(victims) <= statuses.Keys
      modifies this
      ensures WellFormed(Value())
      ensures Dropped(old(Value()), Value(), {}, Ids(victims), now)
    {
      for i := 0 to |victims|
        invariant WellFormed(Value())
        invariant Dropped(old(Value()), Value(), {}, Ids(victims[..i]), now)
      {
        var id := victims[i].taskId;
        ghost var b := Value();
        assert victims[..i + 1] == victims[..i] + [victims[i]];
        SnocIds(victims[..i], victims[i]);
        assert id in Ids(victims) && id !in Ids(victims[..i]);
        assert DroppedAt(old(Value()), b, Reason({}, Ids(victims[..i]), id), now, id);
        Drop(id, {}, {id}, now);
        DropIsSequential(old(Value()), b, Value(), {}, {}, Ids(victims[..i]), {id}, {}, Ids(victims[..i + 1]), now);
      }
      assert victims[..|victims|] == victims;
    }

    method PruneTaskStatuses(now: int, keep: string)
      requires WellFormed(Value())
      modifies this
      ensures StatusesPruned(cfg, old(Value()), Value(), now, keep)
      ensures RetiredExplained(cfg, old(Value()), Value(), now)
      ensures NewestSurvive(old(Value()), Value(), now, keep)
      ensures RetiredAreKept(cfg, old(Value()), Value(), now, keep)
      ensures keep in old(retired) ==> keep in retired
      ensures old(counter) <= counter
    {
      PruneRetiredTaskStatuses(now, keep);
      ghost var b := Value();
      var cs := ExpireStatuses(now);
      ghost var c, evicted: set<string> := Value(), {};
      DistinctCount(cs);
      if cfg.limit > 0 && |cs| > cfg.limit {
        var victims := SelectVictims(cs, cfg.limit, keep);
        LiveRemain(cfg, b, c, now);
        EvictStatuses(victims, now);
        evicted := Ids(victims);
        CapacityMet(cfg, b, cs, victims, now, keep);
      } else {
        NothingEvicted(cfg, b, c, cs, now, keep);
      }
      ghost var d := Value();
      CombineDrops(cfg, b, c, d, evicted, now);
      PruneRetiredTaskStatuses(now, keep);
      ActivePruned(cfg, old(Value()), b, d, Value(), evicted, now, keep);
      RetiredAccounted(cfg, old(Value()), b, d, Value(), evicted, now, keep);
      OldestRetiredGoFirst(cfg, old(Value()), b, d, Value(), evicted, now, keep);
      RetiredSurvive(cfg, old(Value()), b, d, Value(), evicted, now, keep);
      ProtectedStays(cfg, old(Value()), b, d, Value(), evicted, now, keep);
    }

    method StoreTaskStatus(response: Response, now: int)
      requires WellFormed(Value())
      modifies this
      ensures WellFormed(Value()) && Within(cfg, Value())
      ensures response.taskId in statuses && statuses[response.taskId] == response
      ensures StatusesPruned(cfg, Stored(old(Value()), response, now), Value(), now, response.taskId)
      ensures RetiredExplained(cfg, Stored(old(Value()), response, now), Value(), now)
      ensures RetiredAreKept(cfg, Stored(old(Value()), response, now), Value(), now, response.taskId)
    {
      var id := response.taskId;
      statuses := statuses[id := response];
      counter := counter + 1;
      meta := meta[id := (if id in meta then meta[id] else Meta(0, 0, "")).(touched := now, sequence := counter)];
      assert Value() == Stored(old(Value()), response, now);
      assert id in Fresh(cfg, Value(), now);
      PruneTaskStatuses(now, id);
    }

    /** A terminal or retired status is final: only a task still pending or unknown takes the new one. */
    method SetTaskStatus(response: Response, closed: bool, now: int)
      requires WellFormed(Value())
      modifies this
      ensures WellFormed(Value())
      ensures if response.taskId in old(retired)
                 || (response.taskId in old(statuses) && old(statuses)[response.taskId].status in {"completed", "failed"})
              then Value() == old(Value())
              else Within(cfg, Value())
                   && response.taskId in statuses
                   && statuses[response.taskId] == (if closed then Failed(response, CLOSED) else response)
                   && (IsTerminal(statuses[response.taskId].status) ==> response.taskId !in accepted)
    {
      var r := if closed then Failed(response, CLOSED) else response;
      if r.taskId in retired {
        return;
      }
      if r.taskId in statuses && IsTerminal(statuses[r.taskId].status) {
        return;
      }
      if IsTerminal(r.status) {
        accepted := accepted - {r.taskId};
      }
      StoreTaskStatus(r, now);
    }

    /**
     * An unexpired status is returned as it is and an expired pending one as a
     * failure; a task known only by its retired status gets that. What is
     * returned is touched.
     */
    method GetTaskResponse(id: string, now: int) returns (response: Option<Response>)
      requires WellFormed(Value())
      modifies this
      ensures WellFormed(Value()) && Within(cfg, Value())
      ensures response == if id in statuses then Some(statuses[id]) else Find(retired, id)
      ensures id in statuses <==>
                && id in old(statuses)
                && var ttl := if IsTerminal(old(statuses)[id].status) then cfg.terminalTtl else cfg.pendingTtl;
                ttl <= 0 || now - old(meta)[id].touched < ttl
      ensures id in statuses ==> statuses[id] == old(statuses)[id]
      ensures IsPending(old(Value()), id) && cfg.pendingTtl > 0 && now - old(meta)[id].touched >= cfg.pendingTtl ==>
                response == Some(Failed(old(statuses)[id], EXPIRED))
      ensures id !in old(statuses) ==> response == Find(old(retired), id)
      ensures response.Some? ==>
                && counter > old(counter)
                && var metadata := if id in statuses then Find(meta, id) else Find(retiredMeta, id);
                metadata.Some? && metadata.value.touched == now && metadata.value.sequence == counter
    {
      PruneAround(now, id);
      if id in statuses {
        TouchTaskStatus(id, now);
        return Some(statuses[id]);
      }
      if id !in retired {
        return None;
      }
      TouchRetiredStatus(id, now);
      return Some(retired[id]);
    }

    /** A prune that protects one task, as far as that task is concerned. */
    method PruneAround(now: int, id: string)
      requires WellFormed(Value())
      modifies this
      ensures WellFormed(Value()) && Within(cfg, Value()) && counter >= old(counter)
      ensures FoundAround(cfg, old(Value()), Value(), now, id)
    {
      PruneTaskStatuses(now, id);
      FoundAfterPrune(cfg, old(Value()), Value(), now, id);
    }

    method TouchTaskStatus(id: string, now: int)
      requires id in meta
      modifies this`counter, this`meta
      ensures counter == old(counter) + 1
      ensures meta == old(meta)[id := old(meta)[id].(touched := now, sequence := counter)]
    {
      counter := counter + 1;
      meta := meta[id := meta[id].(touched := now, sequence := counter)];
    }

    method TouchRetiredStatus(id: string, now: int)
      requires id in retiredMeta
      modifies this`counter, this`retiredMeta
      ensures counter == old(counter) + 1
      ensures retiredMeta == old(retiredMeta)[id := old(retiredMeta)[id].(touched := now, sequence := counter)]
    {
      counter := counter + 1;
      retiredMeta := retiredMeta[id := retiredMeta[id].(touched := now, sequence := counter)];
    }
  }

  /** What a prune that protects a task leaves of it. */
  predicate FoundAround(cfg: Config, a: Cache, b: Cache, now: int, id: string)
    requires WellFormed(a)
  {
    && (id in b.statuses <==>
          && id in a.statuses
          && var ttl := if IsTerminal(a.statuses[id].status) then cfg.terminalTtl else cfg.pendingTtl;
          ttl <= 0 || now - a.meta[id].touched < ttl)
    && (id in b.statuses ==> b.statuses[id] == a.statuses[id])
    && (IsPending(a, id) && cfg.pendingTtl > 0 && now - a.meta[id].touched >= cfg.pendingTtl ==>
          id !in b.statuses && Find(b.retired, id) == Some(Failed(a.statuses[id], EXPIRED)))
    && (id !in a.statuses ==> Find(b.retired, id) == Find(a.retired, id))
  }

  lemma FoundAfterPrune(cfg: Config, a: Cache, b: Cache, now: int, id: string)
    requires WellFormed(a) && StatusesPruned(cfg, a, b, now, id) && RetiredExplained(cfg, a, b, now)
    requires RetiredAreKept(cfg, a, b, now, id) && (id in a.retired ==> id in b.retired)
    ensures FoundAround(cfg, a, b, now, id) && Within(cfg, b)
  {
    assert id in b.statuses <==> id in Fresh(cfg, a, now);
    if IsPending(a, id) && id !in b.statuses {
      assert id in Left(a, b);
    }
  }

  /** Both maps are within the limit, if there is one. */
  predicate Within(cfg: Config, c: Cache) {
    cfg.limit > 0 ==> |c.statuses| <= cfg.limit && |c.retired| <= cfg.limit
  }

  function Stored(c: Cache, response: Response, now: int): Cache {
    var id := response.taskId;
    var metadata := if id in c.meta then c.meta[id] else Meta(0, 0, "");
    c.(statuses := c.statuses[id := response],
    meta := c.meta[id := metadata.(touched := now, sequence := c.counter + 1)],
    counter := c.counter + 1)
  }

  /** The retired statuses are those of an earlier state, cut down to some IDs; nothing else changed. */
  ghost predicate RetiredIs(a: Cache, b: Cache, kept: set<string>) {
    && b == a.(retired := b.retired, retiredMeta := b.retiredMeta)
    && b.retired.Keys == kept && b.retiredMeta.Keys == kept
    && kept <= a.retired.Keys && kept <= a.retiredMeta.Keys
    && forall id | id in kept :: b.retired[id] == a.retired[id] && b.retiredMeta[id] == a.retiredMeta[id]
  }

  lemma RemoveOne(a: Cache, b: Cache, kept: set<string>, id: string)
    requires RetiredIs(a, b, kept)
    ensures RetiredIs(a, b.(retired := b.retired - {id}, retiredMeta := b.retiredMeta - {id}), kept - {id})
  {
  }

  ghost predicate RetiredCandidates(a: Cache, cs: seq<Candidate>, ids: set<string>) {
    && Ids(cs) == ids && DistinctIds(cs)
    && forall c | c in cs :: c.taskId in a.retiredMeta && c == RetiredCandidate(a, c.taskId)
  }

  lemma CollectOne(a: Cache, cs: seq<Candidate>, ids: set<string>, id: string)
    requires RetiredCandidates(a, cs, ids) && id in a.retiredMeta && id !in ids
    ensures RetiredCandidates(a, cs + [RetiredCandidate(a, id)], ids + {id})
  {
    SnocIds(cs, RetiredCandidate(a, id));
  }

  ghost predicate Candidates(a: Cache, cs: seq<Candidate>, ids: set<string>) {
    && Ids(cs) == ids && DistinctIds(cs)
    && forall c | c in cs :: c.taskId in a.statuses && c.taskId in a.meta && c == CandidateOf(a, c.taskId)
  }

  function Stale(cfg: Config, c: Cache, now: int): set<string>
    requires WellFormed(c)
  {
    set id | id in c.statuses && HasExpired(cfg, c, id, now)
  }

  /** Part way through the active statuses, with some still to look at. */
  ghost predicate Expiring(cfg: Config, a: Cache, b: Cache, cs: seq<Candidate>, todo: set<string>, now: int)
    requires WellFormed(a)
  {
    && todo <= a.statuses.Keys
    && Dropped(a, b, Stale(cfg, a, now) - todo, {}, now)
    && Candidates(a, cs, Fresh(cfg, a, now) - todo)
  }

  lemma StartExpiring(cfg: Config, a: Cache, now: int)
    requires WellFormed(a)
    ensures Expiring(cfg, a, a, [], a.statuses.Keys, now)
  {
    assert Stale(cfg, a, now) - a.statuses.Keys == {} && Fresh(cfg, a, now) - a.statuses.Keys == {};
  }

  lemma StillThere(cfg: Config, a: Cache, b: Cache, cs: seq<Candidate>, todo: set<string>, now: int, id: string)
    requires WellFormed(a) && Expiring(cfg, a, b, cs, todo, now) && id in todo
    ensures id in b.statuses && b.statuses[id] == a.statuses[id]
    ensures id in b.meta && b.meta[id] == a.meta[id]
  {
    assert DroppedAt(a, b, Reason(Stale(cfg, a, now) - todo, {}, id), now, id);
  }

  lemma ExpireOne(cfg: Config, a: Cache, b: Cache, c: Cache, cs: seq<Candidate>, todo: set<string>, now: int, id: string)
    requires WellFormed(a) && Expiring(cfg, a, b, cs, todo, now) && id in todo && id in Stale(cfg, a, now)
    requires Dropped(b, c, {id}, {}, now)
    ensures Expiring(cfg, a, c, cs, todo - {id}, now)
  {
    var stale := Stale(cfg, a, now);
    DropIsSequential(a, b, c, stale - todo, {id}, {}, {}, stale - (todo - {id}), {}, now);
    assert Fresh(cfg, a, now) - todo == Fresh(cfg, a, now) - (todo - {id});
  }

  lemma KeepOne(cfg: Config, a: Cache, b: Cache, cs: seq<Candidate>, todo: set<string>, now: int, id: string)
    requires WellFormed(a) && Expiring(cfg, a, b, cs, todo, now) && id in todo && id in Fresh(cfg, a, now)
    ensures Expiring(cfg, a, b, cs + [CandidateOf(a, id)], todo - {id}, now)
  {
    SnocIds(cs, CandidateOf(a, id));
    assert Stale(cfg, a, now) - todo == Stale(cfg, a, now) - (todo - {id});
    assert Fresh(cfg, a, now) - todo + {id} == Fresh(cfg, a, now) - (todo - {id});
  }

  lemma LiveRemain(cfg: Config, b: Cache, c: Cache, now: int)
    requires WellFormed(b) && Dropped(b, c, Stale(cfg, b, now), {}, now)
    ensures c.statuses.Keys == Fresh(cfg, b, now)
  {
    forall id ensures id in c.statuses <==> id in Fresh(cfg, b, now) {
      assert DroppedAt(b, c, Reason(Stale(cfg, b, now), {}, id), now, id);
    }
  }

  lemma CombineDrops(cfg: Config, b: Cache, c: Cache, d: Cache, evicted: set<string>, now: int)
    requires WellFormed(b) && evicted <= Fresh(cfg, b, now)
    requires Dropped(b, c, Stale(cfg, b, now), {}, now) && Dropped(c, d, {}, evicted, now)
    ensures Dropped(b, d, Stale(cfg, b, now), evicted, now)
  {
    var stale := Stale(cfg, b, now);
    DropIsSequential(b, c, d, stale, {}, {}, evicted, stale, evicted, now);
  }

  /** The IDs evicted by capacity: enough of them, the oldest ones. */
  ghost predicate Evicts(cfg: Config, b: Cache, evicted: set<string>, now: int, keep: string)
    requires WellFormed(b)
  {
    var live := Fresh(cfg, b, now);
    && evicted <= live
    && KeepsLimit(cfg, live, live - evicted, keep)
    && forall v, k | v in evicted && k in live - evicted && k != keep :: !Less(CandidateOf(b, k), CandidateOf(b, v), keep)
  }

  lemma CapacityMet(cfg: Config, b: Cache, cs: seq<Candidate>, victims: seq<Candidate>, now: int, keep: string)
    requires WellFormed(b) && Candidates(b, cs, Fresh(cfg, b, now))
    requires 0 < cfg.limit < |cs| && AreVictims(cs, victims, cfg.limit, keep)
    ensures Evicts(cfg, b, Ids(victims), now, keep)
  {
    var live := Fresh(cfg, b, now);
    VictimsLeaveLimit(cs, victims, cfg, keep, live);
    forall v, k | v in Ids(victims) && k in live - Ids(victims) && k != keep
      ensures v in live && !Less(CandidateOf(b, k), CandidateOf(b, v), keep)
    {
      assert v in Ids(cs) && k in Ids(cs);
      assert CandidateOf(b, v) in cs && CandidateOf(b, k) in cs;
    }
  }

  lemma NothingEvicted(cfg: Config, b: Cache, c: Cache, cs: seq<Candidate>, now: int, keep: string)
    requires WellFormed(b) && Candidates(b, cs, Fresh(cfg, b, now)) && FitsLimit(cfg, |cs|)
    ensures Evicts(cfg, b, {}, now, keep) && Dropped(c, c, {}, {}, now)
  {
    DistinctCount(cs);
    assert Fresh(cfg, b, now) - {} == Fresh(cfg, b, now);
  }

  /** The states a prune goes through: retired statuses, then active ones, then the retired ones again. */
  ghost predicate PruneStages(cfg: Config, a: Cache, b: Cache, d: Cache, e: Cache, evicted: set<string>, now: int, keep: string) {
    && WellFormed(a) && RetiredPruned(cfg, a, b, now, keep)
    && Evicts(cfg, b, evicted, now, keep)
    && Dropped(b, d, Stale(cfg, b, now), evicted, now)
    && WellFormed(d) && RetiredPruned(cfg, d, e, now, keep)
  }

  lemma ActiveAt(cfg: Config, b: Cache, d: Cache, evicted: set<string>, now: int, id: string)
    requires WellFormed(b) && WellFormed(d) && Dropped(b, d, Stale(cfg, b, now), evicted, now)
    ensures id in d.statuses <==> id in Fresh(cfg, b, now) - evicted
    ensures id in d.statuses ==> d.statuses[id] == b.statuses[id] && d.meta[id] == b.meta[id]
  {
    assert DroppedAt(b, d, Reason(Stale(cfg, b, now), evicted, id), now, id);
  }

  lemma ActiveEvicted(cfg: Config, b: Cache, d: Cache, evicted: set<string>, now: int, keep: string)
    requires WellFormed(b) && Evicts(cfg, b, evicted, now, keep)
    requires WellFormed(d) && Dropped(b, d, Stale(cfg, b, now), evicted, now)
    ensures StatusesPruned(cfg, b, d, now, keep)
  {
    forall id ensures id in d.statuses <==> id in Fresh(cfg, b, now) - evicted
              ensures id in d.statuses ==> d.statuses[id] == b.statuses[id] && d.meta[id] == b.meta[id]
    {
      ActiveAt(cfg, b, d, evicted, now, id);
    }
    assert d.statuses.Keys == Fresh(cfg, b, now) - evicted;
  }

  lemma ActivePruned(cfg: Config, a: Cache, b: Cache, d: Cache, e: Cache, evicted: set<string>, now: int, keep: string)
    requires PruneStages(cfg, a, b, d, e, evicted, now, keep)
    ensures StatusesPruned(cfg, a, e, now, keep)
  {
    ActiveEvicted(cfg, b, d, evicted, now, keep);
    SameActive(cfg, a, b, d, e, now, keep);
  }

  lemma SameActive(cfg: Config, a: Cache, b: Cache, d: Cache, e: Cache, now: int, keep: string)
    requires WellFormed(a) && WellFormed(b) && WellFormed(e)
    requires a.statuses == b.statuses && a.meta == b.meta && d.statuses == e.statuses && d.meta == e.meta
    requires StatusesPruned(cfg, b, d, now, keep)
    ensures StatusesPruned(cfg, a, e, now, keep)
  {
    assert Fresh(cfg, a, now) == Fresh(cfg, b, now);
    assert forall id | id in a.statuses :: CandidateOf(a, id) == CandidateOf(b, id);
  }

  lemma RetiredAt(cfg: Config, b: Cache, d: Cache, evicted: set<string>, now: int, id: string)
    requires WellFormed(b) && evicted <= Fresh(cfg, b, now)
    requires WellFormed(d) && Dropped(b, d, Stale(cfg, b, now), evicted, now)
    ensures id in d.accepted <==> id in b.accepted && !WasRetired(b, d, id)
    ensures id in d.retired ==>
              if WasRetired(b, d, id) then
                d.retired[id] == Failed(b.statuses[id], if HasExpired(cfg, b, id, now) then EXPIRED else EVICTED)
              else
                id in b.retired && d.retired[id] == b.retired[id]
  {
    assert DroppedAt(b, d, Reason(Stale(cfg, b, now), evicted, id), now, id);
  }

  lemma DropAccounted(cfg: Config, b: Cache, d: Cache, evicted: set<string>, now: int)
    requires WellFormed(b) && evicted <= Fresh(cfg, b, now)
    requires WellFormed(d) && Dropped(b, d, Stale(cfg, b, now), evicted, now)
    ensures Accounted(cfg, b, d, now)
  {
    forall id ensures id in d.accepted <==> id in b.accepted && !WasRetired(b, d, id)
              ensures id in d.retired ==>
                        if WasRetired(b, d, id) then
                          d.retired[id] == Failed(b.statuses[id], if HasExpired(cfg, b, id, now) then EXPIRED else EVICTED)
                        else
                          id in b.retired && d.retired[id] == b.retired[id]
    {
      RetiredAt(cfg, b, d, evicted, now, id);
    }
  }

  /** Fewer retired statuses at the end, or more at the start, are still accounted for. */
  lemma AccountedBetween(cfg: Config, a: Cache, b: Cache, d: Cache, e: Cache, now: int)
    requires WellFormed(a) && WellFormed(b) && Accounted(cfg, b, d, now)
    requires a.statuses == b.statuses && a.meta == b.meta && a.accepted == b.accepted
    requires d.statuses == e.statuses && d.accepted == e.accepted
    requires forall id | id in b.retired :: id in a.retired && a.retired[id] == b.retired[id]
    requires forall id | id in e.retired :: id in d.retired && d.retired[id] == e.retired[id]
    ensures Accounted(cfg, a, e, now)
  {
    assert forall id :: WasRetired(a, e, id) <==> WasRetired(b, d, id);
  }

  lemma RetiredAccounted(cfg: Config, a: Cache, b: Cache, d: Cache, e: Cache, evicted: set<string>, now: int, keep: string)
    requires PruneStages(cfg, a, b, d, e, evicted, now, keep)
    ensures RetiredExplained(cfg, a, e, now)
  {
    DropAccounted(cfg, b, d, evicted, now);
    AccountedBetween(cfg, a, b, d, e, now);
  }

  lemma OldestRetiredGoFirst(cfg: Config, a: Cache, b: Cache, d: Cache, e: Cache, evicted: set<string>, now: int, keep: string)
    requires PruneStages(cfg, a, b, d, e, evicted, now, keep)
    ensures NewestSurvive(a, e, now, keep)
  {
    forall k, v | k in e.retired && !WasRetired(a, e, k) && k != keep && k in a.retired
                  && a.retiredMeta[k].touched <= now && a.retiredMeta[k].sequence <= a.counter && WasRetired(a, e, v)
      ensures v in e.retired
    {
      assert DroppedAt(b, d, Reason(Stale(cfg, b, now), evicted, k), now, k);
      assert DroppedAt(b, d, Reason(Stale(cfg, b, now), evicted, v), now, v);
      assert v in RetiredFresh(cfg, d, now, keep);
      assert v == keep || Less(RetiredCandidate(d, k), RetiredCandidate(d, v), keep);
    }
  }

  lemma LeftIsRetired(cfg: Config, b: Cache, d: Cache, evicted: set<string>, now: int, id: string)
    requires WellFormed(b) && WellFormed(d) && Dropped(b, d, Stale(cfg, b, now), evicted, now)
    ensures WasRetired(b, d, id) ==> id in d.retired && d.retiredMeta[id].touched == now
    ensures !WasRetired(b, d, id) && id in d.retired ==> id in b.retired && d.retiredMeta[id] == b.retiredMeta[id]
  {
    assert DroppedAt(b, d, Reason(Stale(cfg, b, now), evicted, id), now, id);
  }

  /** What the last pruning of the retired statuses looks at: older fresh ones and those just retired. */
  lemma LeftAreFresh(cfg: Config, b: Cache, d: Cache, evicted: set<string>, now: int, keep: string)
    requires WellFormed(b) && WellFormed(d) && Dropped(b, d, Stale(cfg, b, now), evicted, now)
    ensures Left(b, d) <= RetiredFresh(cfg, d, now, keep) <= b.retired.Keys + Left(b, d)
  {
    forall id ensures id in Left(b, d) ==> id in RetiredFresh(cfg, d, now, keep)
              ensures id in RetiredFresh(cfg, d, now, keep) ==> id in b.retired.Keys + Left(b, d)
    {
      LeftIsRetired(cfg, b, d, evicted, now, id);
    }
  }

  lemma KeptCovers(cfg: Config, live: set<string>, kept: set<string>, keep: string, left: set<string>, bound: set<string>)
    requires KeepsLimit(cfg, live, kept, keep) && left <= live <= bound
    ensures forall id | id in left && (id == keep || FitsLimit(cfg, |bound|)) :: id in kept
  {
    assert bound == live + (bound - live);
    assert |live| <= |bound|;
  }

  lemma StageFacts(cfg: Config, a: Cache, b: Cache, d: Cache, e: Cache, evicted: set<string>, now: int, keep: string)
    requires PruneStages(cfg, a, b, d, e, evicted, now, keep)
    ensures a.statuses == b.statuses && d.statuses == e.statuses && Left(a, e) == Left(b, d)
    ensures b.retired.Keys <= RetiredFresh(cfg, a, now, keep)
    ensures KeepsLimit(cfg, RetiredFresh(cfg, d, now, keep), e.retired.Keys, keep)
  {
  }

  lemma RetiredSurvive(cfg: Config, a: Cache, b: Cache, d: Cache, e: Cache, evicted: set<string>, now: int, keep: string)
    requires PruneStages(cfg, a, b, d, e, evicted, now, keep)
    ensures RetiredAreKept(cfg, a, e, now, keep)
  {
    StageFacts(cfg, a, b, d, e, evicted, now, keep);
    LeftAreFresh(cfg, b, d, evicted, now, keep);
    KeptCovers(cfg, RetiredFresh(cfg, d, now, keep), e.retired.Keys, keep, Left(a, e), RetiredFresh(cfg, a, now, keep) + Left(a, e));
  }

  lemma ProtectedStays(cfg: Config, a: Cache, b: Cache, d: Cache, e: Cache, evicted: set<string>, now: int, keep: string)
    requires PruneStages(cfg, a, b, d, e, evicted, now, keep)
    ensures keep in a.retired ==> keep in e.retired
    ensures a.counter <= e.counter
  {
    assert DroppedAt(b, d, Reason(Stale(cfg, b, now), evicted, keep), now, keep);
    if keep in a.retired {
      assert keep in RetiredFresh(cfg, a, now, keep) && keep in b.retired;
      assert keep in d.retired;
      assert keep in RetiredFresh(cfg, d, now, keep);
    }
  }

  /** Part way through the retired statuses, with some still to look at. */
  ghost predicate Sweeping(a: Cache, b: Cache, cs: seq<Candidate>, live: set<string>, todo: set<string>) {
    todo <= a.retired.Keys && RetiredIs(a, b, todo + live) && RetiredCandidates(a, cs, live - todo)
  }

  lemma SweepDrop(a: Cache, b: Cache, cs: seq<Candidate>, live: set<string>, todo: set<string>, id: string)
    requires Sweeping(a, b, cs, live, todo) && id in todo && id !in live
    ensures Sweeping(a, b.(retired := b.retired - {id}, retiredMeta := b.retiredMeta - {id}), cs, live, todo - {id})
  {
    RemoveOne(a, b, todo + live, id);
    assert todo + live - {id} == todo - {id} + live;
    assert live - todo == live - (todo - {id});
  }

  lemma SweepCollect(a: Cache, b: Cache, cs: seq<Candidate>, live: set<string>, todo: set<string>, id: string)
    requires Sweeping(a, b, cs, live, todo) && id in todo && id in live
    ensures id in a.retiredMeta && Sweeping(a, b, cs + [RetiredCandidate(a, id)], live, todo - {id})
  {
    CollectOne(a, cs, live - todo, id);
    assert live - todo + {id} == live - (todo - {id});
    assert todo + live == todo - {id} + live;
  }

  lemma RetiredEvicted(cfg: Config, a: Cache, b: Cache, c: Cache, cs: seq<Candidate>, victims: seq<Candidate>, now: int, keep: string)
    requires WellFormed(a) && 0 < cfg.limit < |cs| && AreVictims(cs, victims, cfg.limit, keep)
    requires RetiredIs(a, b, RetiredFresh(cfg, a, now, keep)) && RetiredIs(b, c, b.retired.Keys - Ids(victims))
    requires RetiredCandidates(a, cs, RetiredFresh(cfg, a, now, keep))
    ensures RetiredPruned(cfg, a, c, now, keep)
  {
    var live := RetiredFresh(cfg, a, now, keep);
    VictimsLeaveLimit(cs, victims, cfg, keep, live);
    forall v, k | v in live - c.retired.Keys && k in c.retired.Keys && k != keep
      ensures !Less(RetiredCandidate(a, k), RetiredCandidate(a, v), keep)
    {
      assert v in Ids(cs) && k in Ids(cs);
      assert RetiredCandidate(a, v) in cs && RetiredCandidate(a, k) in cs;
    }
  }

  function Deleted(c: Cache, id: string): Cache {
    c.(statuses := c.statuses - {id}, meta := c.meta - {id})
  }

  function Retired(c: Cache, id: string, response: Response, now: int, reason: string): Cache
    requires id in c.meta
  {
    Deleted(c, id).(
    retired := c.retired[id := Failed(response, reason)],
    retiredMeta := c.retiredMeta[id := c.meta[id].(touched := now, sequence := c.counter + 1)],
    counter := c.counter + 1,
    accepted := c.accepted - {id})
  }

  lemma DropOne(a: Cache, b: Cache, id: string, expired: set<string>, evicted: set<string>, now: int)
    requires WellFormed(a) && id in a.statuses && id in expired + evicted && expired + evicted <= {id}
    requires b == if IsTerminal(a.statuses[id].status) then Deleted(a, id)
                  else Retired(a, id, a.statuses[id], now, if id in expired then EXPIRED else EVICTED)
    ensures WellFormed(b) && Dropped(a, b, expired, evicted, now)
  {
    forall x ensures DroppedAt(a, b, Reason(expired, evicted, x), now, x) {
    }
  }

  lemma SnocIds(cs: seq<Candidate>, c: Candidate)
    ensures Ids(cs + [c]) == Ids(cs) + {c.taskId}
    ensures DistinctIds(cs) && c.taskId !in Ids(cs) ==> DistinctIds(cs + [c])
  {
    assert forall x :: x in cs + [c] <==> x in cs || x == c;
    assert forall k | 0 <= k < |cs| :: cs[k].taskId in Ids(cs);
  }

  /** Removing the victims leaves the limit, and every one left is at least as recent as every victim. */
  lemma VictimsLeaveLimit(cs: seq<Candidate>, victims: seq<Candidate>, cfg: Config, keep: string, live: set<string>)
    requires DistinctIds(cs) && 0 < cfg.limit < |cs| && AreVictims(cs, victims, cfg.limit, keep)
    requires live == Ids(cs)
    ensures KeepsLimit(cfg, live, live - Ids(victims), keep)
    ensures forall v, k | v in cs && k in cs && v.taskId in Ids(victims) && k.taskId !in Ids(victims) && k.taskId != keep ::
              !Less(k, v, keep)
  {
    DistinctCount(cs);
    DistinctCount(victims);
    assert Ids(victims) <= live;
    assert |live - Ids(victims)| == |live| - |Ids(victims)|;
    forall v, k | v in cs && k in cs && v.taskId in Ids(victims) && k.taskId !in Ids(victims) && k.taskId != keep
      ensures !Less(k, v, keep)
    {
      var w :| w in victims && w.taskId == v.taskId;
      assert w == v;
    }
  }
}
