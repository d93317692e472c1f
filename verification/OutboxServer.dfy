/**
 * The outbox operations of one goroutine running alone, on the buckets in
 * place: staging, delivering one attempt, reconciling the stored entries with
 * the current catalog, and a whole flush. OutboxProtocol covers the same
 * operations interleaved with each other.
 */
module OutboxServer {
  import opened Common
  import opened OutboxKeys
  import opened OutboxStorage
  import opened OutboxProtocol

  type Catalog = map<(string, string), string>

  function Subject(e: Entry): (string, string) {
    (e.kind, e.entity)
  }

  /** Every stored entry sits under the key of its own triple. */
  predicate WellKeyed(entries: map<string, Entry>) {
    forall id | id in entries :: entries[id].id == id == KeyOf(entries[id])
  }

  method StageOutbox(b: OutboxBuckets, peer: string, kind: string, entity: string, payload: string, now: int)
    returns (attempt: Option<Attempt>)
    modifies b
    ensures attempt.None? <==> old(b.generation) >= MAX_UINT64
    ensures attempt.None? ==> b.State() == old(b.State())
    ensures attempt.Some? ==>
              var id := OutboxKey(peer, kind, entity);
              var entry := Entry(id, peer, kind, entity, old(b.generation) + 1, payload, now);
              && attempt.value == Attempt(id, id, entry)
              && b.generation == old(b.generation) + 1
              && b.entries == old(b.entries)[id := entry]
              && b.reservations == old(b.reservations) - {id}
  {
    var id := OutboxKey(peer, kind, entity);
    var token := b.ReserveOutboxGeneration(id);
    if token.None? {
      return None;
    }
    var entry := Entry(id, peer, kind, entity, token.value, payload, now);
    var applied := b.PutOutboxRawIfCurrentGeneration(id, token.value, entry);
    b.ReleaseOutboxGeneration(id, token.value);
    attempt := Some(Attempt(id, id, entry));
  }

  /** `reaches` is whether the peer acknowledges the send. */
  method DeliverOutboxAttempt(b: OutboxBuckets, attempt: Attempt, reaches: bool) returns (sent: bool)
    modifies b
    ensures sent == Stored(old(b.State()), attempt.storageId, attempt.entry)
    ensures b.State() == if sent && reaches then DeleteTx(old(b.State()), attempt.storageId, attempt.entry)
                         else old(b.State())
  {
    sent := b.OutboxEntryMatches(attempt.storageId, attempt.entry);
    if sent && reaches {
      var _ := b.DeleteOutboxEntryIfUnchanged(attempt.storageId, attempt.entry);
    }
  }

  function Lookup(entries: map<string, Entry>, id: string): Option<Entry> {
    if id in entries then Some(entries[id]) else None
  }

  /** What reconciliation must leave under a key that held `was`: a restaged entry is newer than the token `floor`. */
  predicate Refreshed(was: Entry, catalog: Catalog, floor: nat, now: int, found: Option<Entry>) {
    if Subject(was) !in catalog then found.None?
    else if was.payload == catalog[Subject(was)] then found == Some(was)
    else
      && found.Some?
      && found.value.payload == catalog[Subject(was)]
      && (found.value.id, found.value.peer, Subject(found.value)) == (was.id, was.peer, Subject(was))
      && found.value.generation > floor && found.value.createdAt == now
  }

  /** Reconciles the entry found under one key; the other keys keep their entries. */
  method ReconcileEntry(b: OutboxBuckets, entry: Entry, catalog: Catalog, now: int) returns (ok: bool)
    requires entry.id in b.entries && b.entries[entry.id] == entry && entry.id == KeyOf(entry)
    modifies b
    ensures !ok ==> b.State() == old(b.State()) && b.generation >= MAX_UINT64
    ensures ok ==> Refreshed(entry, catalog, old(b.generation), now, Lookup(b.entries, entry.id))
    ensures old(b.generation) <= b.generation
    ensures b.entries.Keys <= old(b.entries.Keys)
    ensures WellKeyed(old(b.entries)) ==> WellKeyed(b.entries)
    ensures forall id | id != entry.id :: Lookup(b.entries, id) == Lookup(old(b.entries), id)
  {
    ok := true;
    if Subject(entry) !in catalog {
      var _ := b.DeleteOutboxEntryIfUnchanged(entry.id, entry);
    } else if entry.payload != catalog[Subject(entry)] {
      var staged := StageOutbox(b, entry.peer, entry.kind, entry.entity, catalog[Subject(entry)], now);
      ok := staged.Some?;
    }
  }

  method ReconcileActiveOutbox(b: OutboxBuckets, catalog: Catalog, now: int) returns (ok: bool)
    requires WellKeyed(b.entries)
    modifies b
    ensures WellKeyed(b.entries) && b.entries.Keys <= old(b.entries.Keys)
    ensures ok ==> forall id | id in old(b.entries) ::
              Refreshed(old(b.entries)[id], catalog, old(b.generation), now, Lookup(b.entries, id))
    ensures !ok ==> b.generation >= MAX_UINT64
  {
    var raw := b.entries;
    var todo := raw.Keys;
    while todo != {}
      invariant WellKeyed(b.entries) && Reconciling(raw, todo, catalog, old(b.generation), now, b.entries)
      invariant old(b.generation) <= b.generation
      decreases |todo|
    {
      var id :| id in todo;
      ghost var before := b.entries;
      ok := ReconcileEntry(b, raw[id], catalog, now);
      if !ok {
        return;
      }
      ReconciledOne(raw, todo, catalog, old(b.generation), now, before, b.entries, id);
      todo := todo - {id};
    }
    return true;
  }

  /** The entries still to look at are as listed, the others are as reconciliation must leave them. */
  ghost predicate Reconciling(raw: map<string, Entry>, todo: set<string>, catalog: Catalog, floor: nat, now: int, entries: map<string, Entry>) {
    && todo <= raw.Keys && entries.Keys <= raw.Keys
    && (forall id | id in todo :: Lookup(entries, id) == Some(raw[id]))
    && (forall id | id in raw && id !in todo :: Refreshed(raw[id], catalog, floor, now, Lookup(entries, id)))
  }

  lemma ReconciledOne(raw: map<string, Entry>, todo: set<string>, catalog: Catalog, floor: nat, now: int, before: map<string, Entry>, after: map<string, Entry>, id: string)
    requires Reconciling(raw, todo, catalog, floor, now, before) && id in todo
    requires Refreshed(raw[id], catalog, floor, now, Lookup(after, id)) && after.Keys <= before.Keys
    requires forall x | x != id :: Lookup(after, x) == Lookup(before, x)
    ensures Reconciling(raw, todo - {id}, catalog, floor, now, after)
  {
  }

  /** The sends made so far are those of the listed entries dealt with, each once, and the acknowledged ones are gone. */
  ghost predicate Delivered(raw: map<string, Entry>, todo: set<string>, reachable: set<string>, entries: map<string, Entry>, sent: seq<Entry>) {
    && (forall e :: e in sent <==> e.id !in todo && Lookup(raw, e.id) == Some(e))
    && (forall i, j | 0 <= i < j < |sent| :: sent[i].id != sent[j].id)
    && (forall id :: Lookup(entries, id) == if id in raw && id !in todo && raw[id].peer in reachable then None else Lookup(raw, id))
  }

  lemma DeliveredOne(raw: map<string, Entry>, todo: set<string>, reachable: set<string>, entries: map<string, Entry>, sent: seq<Entry>, id: string)
    requires WellKeyed(raw) && todo <= raw.Keys && id in todo && Delivered(raw, todo, reachable, entries, sent)
    ensures Lookup(entries, id) == Some(raw[id])
    ensures Delivered(raw, todo - {id}, reachable, if raw[id].peer in reachable then entries - {id} else entries, sent + [raw[id]])
  {
    var sent' := sent + [raw[id]];
    assert Lookup(entries, id) == Lookup(raw, id);
    assert forall k | 0 <= k < |sent| :: sent[k] in sent;
    forall e ensures e in sent' <==> e.id !in todo - {id} && Lookup(raw, e.id) == Some(e) {
      assert e in sent' <==> e in sent || e == raw[id];
    }
  }

  /** Attempts every listed entry, and collects those whose attempt answered that it was sent. */
  method DeliverAll(b: OutboxBuckets, raw: map<string, Entry>, reachable: set<string>) returns (sent: seq<Entry>)
    requires WellKeyed(raw) && b.entries == raw
    modifies b
    ensures Delivered(raw, {}, reachable, b.entries, sent)
  {
    sent := [];
    var todo := raw.Keys;
    while todo != {}
      invariant todo <= raw.Keys && Delivered(raw, todo, reachable, b.entries, sent)
      decreases |todo|
    {
      var id :| id in todo;
      var entry := raw[id];
      DeliveredOne(raw, todo, reachable, b.entries, sent, id);
      var answer := DeliverOutboxAttempt(b, Attempt(id, LockIdFor(id, entry), entry), entry.peer in reachable);
      if answer {
        sent := sent + [entry];
      }
      todo := todo - {id};
    }
  }

  /**
   * A flush sent one entry for each listed one whose entity exists, under its key
   * and with the current payload: the listed one itself, or a newer one.
   */
  ghost predicate Flushed(was: map<string, Entry>, catalog: Catalog, floor: nat, sent: seq<Entry>) {
    && (forall e | e in sent ::
          && e.id in was && KeyOf(e) == e.id
          && Subject(e) in catalog && e.payload == catalog[Subject(e)]
          && (e == was[e.id] || (was[e.id].payload != e.payload && e.generation > floor)))
    && (forall id | id in was && Subject(was[id]) in catalog :: SentFor(sent, id))
    && (forall i, j | 0 <= i < j < |sent| :: sent[i].id != sent[j].id)
  }

  ghost predicate SentFor(sent: seq<Entry>, id: string) {
    exists e :: e in sent && e.id == id
  }

  lemma RefreshedIsFlushed(was: map<string, Entry>, catalog: Catalog, floor: nat, now: int, raw: map<string, Entry>, reachable: set<string>, entries: map<string, Entry>, sent: seq<Entry>)
    requires WellKeyed(raw) && raw.Keys <= was.Keys && Delivered(raw, {}, reachable, entries, sent)
    requires forall id | id in was :: Refreshed(was[id], catalog, floor, now, Lookup(raw, id))
    ensures Flushed(was, catalog, floor, sent) && WellKeyed(entries)
    ensures forall e: Entry :: Lookup(entries, e.id) == Some(e) <==> e in sent && e.peer !in reachable
  {
    forall e | e in sent
      ensures e.id in was && KeyOf(e) == e.id && Subject(e) in catalog && e.payload == catalog[Subject(e)]
      ensures e == was[e.id] || (was[e.id].payload != e.payload && e.generation > floor)
    {
      assert Lookup(raw, e.id) == Some(e);
      assert Refreshed(was[e.id], catalog, floor, now, Lookup(raw, e.id));
    }
    forall id | id in was && Subject(was[id]) in catalog ensures SentFor(sent, id) {
      assert Refreshed(was[id], catalog, floor, now, Lookup(raw, id));
      assert raw[id] in sent && raw[id].id == id;
    }
    forall id | id in entries ensures entries[id].id == id == KeyOf(entries[id]) {
      assert Lookup(entries, id) == Lookup(raw, id);
    }
  }

  /**
   * One undisturbed flush: `reachable` are the peers that acknowledge, and
   * `sent` what the delivery attempts answered they sent. Only the sent and
   * unacknowledged entries stay queued.
   */
  method FlushOutbox(b: OutboxBuckets, catalog: Catalog, reachable: set<string>, now: int)
    returns (ok: bool, sent: seq<Entry>)
    requires WellKeyed(b.entries)
    modifies b
    ensures ok ==> Flushed(old(b.entries), catalog, old(b.generation), sent) && WellKeyed(b.entries)
    ensures ok ==> forall e: Entry :: Lookup(b.entries, e.id) == Some(e) <==> e in sent && e.peer !in reachable
    ensures !ok ==> b.generation >= MAX_UINT64 && sent == []
  {
    sent := [];
    ok := ReconcileActiveOutbox(b, catalog, now);
    if ok {
      ghost var raw := b.entries;
      sent := DeliverAll(b, b.entries, reachable);
      RefreshedIsFlushed(old(b.entries), catalog, old(b.generation), now, raw, reachable, b.entries, sent);
    }
  }
}
