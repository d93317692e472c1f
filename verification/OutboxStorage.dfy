/**
 * The three bbolt buckets behind the durable gossip outbox: one global
 * generation counter, transient per-key reservations and the stored entries.
 * Each function is one bbolt transaction; `OutboxBuckets` is the object whose
 * methods run them in place.
 */
module OutboxStorage {
  import opened Common

  /** JSON is injective, so a stored entry stands for its own raw bytes. */
  datatype Entry = Entry(
    id: string,
    peer: string,
    kind: string,
    entity: string,
    generation: nat,
    payload: string,
    createdAt: int)

  datatype Store = Store(
    generation: nat,
    reservations: map<string, nat>,
    entries: map<string, Entry>)

  const EMPTY := Store(0, map[], map[])

  /** Allocates the next global token; the counter refuses to wrap. */
  function ReserveTx(s: Store, id: string): (r: Option<Store>)
    ensures r.Some? ==> r.value.generation == s.generation + 1 <= MAX_UINT64
  {
    if s.generation >= MAX_UINT64 then None
    else Some(Store(s.generation + 1, s.reservations[id := s.generation + 1], s.entries))
  }

  predicate IsCurrent(s: Store, id: string, generation: nat) {
    id in s.reservations && s.reservations[id] == generation
  }

  /** Stores the entry only while its token is still the newest reservation of the key. */
  function PutTx(s: Store, id: string, generation: nat, data: Entry): Store {
    if IsCurrent(s, id, generation)
    then s.(entries := s.entries[id := data], reservations := s.reservations - {id})
    else s
  }

  function ReleaseTx(s: Store, id: string, generation: nat): Store {
    if IsCurrent(s, id, generation) then s.(reservations := s.reservations - {id}) else s
  }

  predicate Stored(s: Store, id: string, expected: Entry) {
    id in s.entries && s.entries[id] == expected
  }

  function DeleteTx(s: Store, id: string, expected: Entry): Store {
    if Stored(s, id, expected) then s.(entries := s.entries - {id}) else s
  }

  /** An entry matches exactly when a compare-delete of it would change the store, and then only that key goes. */
  lemma MatchesExactlyWhenDeletable(s: Store, id: string, e: Entry)
    ensures Stored(s, id, e) <==> DeleteTx(s, id, e) != s
    ensures Stored(s, id, e) ==> DeleteTx(s, id, e).entries.Keys == s.entries.Keys - {id}
    ensures !Stored(DeleteTx(s, id, e), id, e)
    ensures forall other, f | other != id :: Stored(DeleteTx(s, id, e), other, f) <==> Stored(s, other, f)
  {
    if Stored(s, id, e) {
      assert id !in DeleteTx(s, id, e).entries;
    }
  }

  /** A put under the newest reservation is what a match finds afterwards; a put under any older one changes nothing. */
  lemma PutIsMatchedExactly(s: Store, id: string, generation: nat, e: Entry)
    requires !Stored(s, id, e)
    ensures Stored(PutTx(s, id, generation, e), id, e) <==> IsCurrent(s, id, generation)
    ensures !IsCurrent(s, id, generation) ==> PutTx(s, id, generation, e) == s
  {
  }

  /** Opening the database drops every reservation of the previous process. */
  function ReopenTx(s: Store): Store {
    s.(reservations := map[])
  }

  class OutboxBuckets {
    var generation: nat
    var reservations: map<string, nat>
    var entries: map<string, Entry>

    function State(): Store
      reads this
    {
      Store(generation, reservations, entries)
    }

    constructor ()
      ensures State() == EMPTY
    {
      generation, reservations, entries := 0, map[], map[];
    }

    method ReserveOutboxGeneration(id: string) returns (token: Option<nat>)
      modifies this
      ensures token.None? <==> ReserveTx(old(State()), id).None?
      ensures token.None? ==> State() == old(State())
      ensures token.Some? ==> Some(State()) == ReserveTx(old(State()), id) && token.value == generation
    {
      if generation >= MAX_UINT64 {
        return None;
      }
      generation := generation + 1;
      reservations := reservations[id := generation];
      return Some(generation);
    }

    method ReleaseOutboxGeneration(id: string, token: nat)
      modifies this
      ensures State() == ReleaseTx(old(State()), id, token)
    {
      if id !in reservations || reservations[id] != token {
        return;
      }
      reservations := reservations - {id};
    }

    method PutOutboxRawIfCurrentGeneration(id: string, token: nat, data: Entry) returns (applied: bool)
      modifies this
      ensures State() == PutTx(old(State()), id, token, data)
      ensures applied == IsCurrent(old(State()), id, token)
    {
      if id !in reservations || reservations[id] != token {
        return false;
      }
      entries := entries[id := data];
      reservations := reservations - {id};
      return true;
    }

    method DeleteOutboxEntryIfUnchanged(id: string, expected: Entry) returns (deleted: bool)
      modifies this
      ensures State() == DeleteTx(old(State()), id, expected)
      ensures deleted == Stored(old(State()), id, expected)
    {
      if id !in entries || entries[id] != expected {
        return false;
      }
      entries := entries - {id};
      return true;
    }

    method OutboxEntryMatches(id: string, expected: Entry) returns (matches: bool)
      ensures matches == Stored(State(), id, expected)
    {
      matches := id in entries && entries[id] == expected;
    }

    /** Collects every reservation key, then deletes them one by one. */
    method ClearTransientOutboxReservations()
      modifies this
      ensures State() == ReopenTx(old(State()))
    {
      var stale := reservations.Keys;
      while stale != {}
        invariant reservations.Keys == stale
        invariant generation == old(generation) && entries == old(entries)
        decreases |stale|
      {
        var key :| key in stale;
        reservations := reservations - {key};
        stale := stale - {key};
      }
    }
  }
}
