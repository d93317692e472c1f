/**
 * The registry of cluster peers: one entry per peer, created by any setter, and
 * registered once the peer has an address record.
 */
module PeerRegistry {
  import opened Common

  datatype AddressRecord = AddressRecord(addresses: seq<string>, sequence: nat, isSponsor: bool)

  datatype PeerState = PeerState(
    record: Option<AddressRecord>, online: bool, lastError: string, services: map<string, string>, cert: Option<string>)

  type Peers = map<string, PeerState>

  const EMPTY := PeerState(None, false, "", map[], None)

  predicate IsRegistered(peers: Peers, id: string) {
    id in peers && peers[id].record.Some?
  }

  /** A registered peer with at least one address has the first as its primary. */
  function Primary(peers: Peers, id: string): Option<string> {
    if IsRegistered(peers, id) && peers[id].record.value.addresses != [] then Some(peers[id].record.value.addresses[0])
    else None
  }

  function StateOf(peers: Peers, id: string): PeerState {
    if id in peers then peers[id] else EMPTY
  }

  // ---------------------------------------------------------------------- merging

  /** The addresses not seen before, each once, in order of first appearance. */
  function Unseen(addresses: seq<string>, seen: set<string>): seq<string> {
    if addresses == [] then []
    else if addresses[0] in seen then Unseen(addresses[1..], seen)
    else [addresses[0]] + Unseen(addresses[1..], seen + {addresses[0]})
  }

  lemma {:induction false} UnseenMembers(addresses: seq<string>, seen: set<string>)
    ensures forall a :: a in Unseen(addresses, seen) <==> a in addresses && a !in seen
    ensures forall i, j | 0 <= i < j < |Unseen(addresses, seen)| :: Unseen(addresses, seen)[i] != Unseen(addresses, seen)[j]
  {
    if addresses != [] {
      var first, rest := addresses[0], addresses[1..];
      assert addresses == [first] + rest;
      if first in seen {
        UnseenMembers(rest, seen);
      } else {
        UnseenMembers(rest, seen + {first});
        var tail := Unseen(rest, seen + {first});
        assert forall j | 0 <= j < |tail| :: tail[j] in tail;
      }
    }
  }

  method MergeAddresses(existing: seq<string>, update: seq<string>) returns (merged: seq<string>)
    ensures merged == existing + Unseen(update, set a | a in existing)
  {
    var seen: set<string> := {};
    merged := [];
    for i := 0 to |existing|
      invariant merged == existing[..i]
      invariant seen == set a | a in existing[..i]
    {
      assert existing[..i + 1] == existing[..i] + [existing[i]];
      seen := seen + {existing[i]};
      merged := merged + [existing[i]];
    }
    assert existing[..|existing|] == existing;
    for i := 0 to |update|
      invariant merged + Unseen(update[i..], seen) == existing + Unseen(update, set a | a in existing)
    {
      assert update[i..][1..] == update[i + 1..];
      if update[i] !in seen {
        assert merged + ([update[i]] + Unseen(update[i + 1..], seen + {update[i]})) ==
               merged + [update[i]] + Unseen(update[i + 1..], seen + {update[i]});
        seen := seen + {update[i]};
        merged := merged + [update[i]];
      }
    }
    assert merged + [] == merged;
  }

  // --------------------------------------------------------------------- updating

  /** The other registered peers whose primary is this record's. */
  function SameAddress(peers: Peers, id: string, record: AddressRecord): set<string> {
    if record.addresses == [] then {}
    else set other | other in peers && other != id && Primary(peers, other) == Some(record.addresses[0])
  }

  predicate IsOlder(peers: Peers, id: string, record: AddressRecord) {
    IsRegistered(peers, id) && record.sequence < peers[id].record.value.sequence
  }

  function Merged(peers: Peers, id: string, record: AddressRecord): AddressRecord {
    if IsRegistered(peers, id) && record.sequence == peers[id].record.value.sequence then
      var existing := peers[id].record.value.addresses;
      record.(addresses := existing + Unseen(record.addresses, set a | a in existing))
    else record
  }

  function Added(peers: Peers, self: string, id: string, record: AddressRecord): Peers {
    if id == self then peers
    else
      var rest := peers - SameAddress(peers, id, record);
      if IsOlder(peers, id, record) then rest
      else rest[id := StateOf(peers, id).(record := Some(Merged(peers, id, record)), online := true, lastError := "")]
  }

  class Registry {
    const nodeId: string
    var peers: Peers

    constructor (nodeId: string)
      ensures this.nodeId == nodeId && peers == map[]
    {
      this.nodeId := nodeId;
      peers := map[];
    }

    method CollectStale(id: string, record: AddressRecord) returns (evicted: seq<string>)
      requires record.addresses != []
      ensures forall x :: x in evicted <==> x in SameAddress(peers, id, record)
    {
      evicted := [];
      var todo := peers.Keys;
      while todo != {}
        invariant todo <= peers.Keys
        invariant forall x :: x in evicted <==> x in SameAddress(peers, id, record) - todo
        decreases |todo|
      {
        var other :| other in todo;
        var st := peers[other];
        if other != id && st.record.Some? && st.record.value.addresses != []
           && st.record.value.addresses[0] == record.addresses[0] {
          evicted := evicted + [other];
        }
        todo := todo - {other};
      }
    }

    /** The eviction happens whether or not the record is then written. */
    method AddPeer(id: string, record: AddressRecord) returns (updated: bool, evicted: seq<string>)
      modifies this
      ensures peers == Added(old(peers), nodeId, id, record)
      ensures updated == (id != nodeId && !IsOlder(old(peers), id, record))
      ensures forall x :: x in evicted <==> id != nodeId && x in SameAddress(old(peers), id, record)
    {
      evicted := [];
      if id == nodeId {
        return false, [];
      }
      if record.addresses != [] {
        evicted := CollectStale(id, record);
        for i := 0 to |evicted|
          invariant peers == old(peers) - (set x | x in evicted[..i])
        {
          assert evicted[..i + 1] == evicted[..i] + [evicted[i]];
          peers := peers - {evicted[i]};
        }
        assert evicted[..|evicted|] == evicted;
        assert (set x | x in evicted) == SameAddress(old(peers), id, record);
      }
      assert peers == old(peers) - SameAddress(old(peers), id, record);
      var st := StateOf(peers, id);
      if id !in peers {
        peers := peers[id := st];
      }
      var written := record;
      if st.record.Some? {
        var existing := st.record.value;
        if record.sequence < existing.sequence {
          return false, evicted;
        }
        if record.sequence == existing.sequence {
          var merged := MergeAddresses(existing.addresses, record.addresses);
          written := record.(addresses := merged);
        }
      }
      peers := peers[id := st.(record := Some(written), online := true, lastError := "")];
      return true, evicted;
    }

    method RemovePeer(id: string)
      modifies this
      ensures peers == Apply(old(peers), nodeId, Remove(id))
    {
      peers := peers - {id};
    }

    method SetPeerOnline(id: string)
      modifies this
      ensures peers == Apply(old(peers), nodeId, Online(id))
    {
      peers := peers[id := StateOf(peers, id).(online := true, lastError := "")];
    }

    method SetPeerOffline(id: string, cause: Option<string>)
      modifies this
      ensures peers == Apply(old(peers), nodeId, Offline(id, cause))
    {
      peers := peers[id := StateOf(peers, id).(online := false, lastError := OfflineError(cause))];
    }

    method UpdatePeerService(id: string, name: string, schema: Option<string>)
      modifies this
      ensures peers == Apply(old(peers), nodeId, Service(id, name, schema))
    {
      peers := peers[id := WithService(StateOf(peers, id), name, schema)];
    }

    method SetPeerCertificate(id: string, cert: string)
      modifies this
      ensures peers == Apply(old(peers), nodeId, Certificate(id, cert))
    {
      peers := peers[id := StateOf(peers, id).(cert := Some(cert))];
    }
  }

  function OfflineError(cause: Option<string>): string {
    if cause.Some? then "offline or could not reach: " + cause.value else "offline"
  }

  function WithService(st: PeerState, name: string, schema: Option<string>): PeerState {
    st.(services := if schema.Some? then st.services[name := schema.value] else st.services - {name})
  }

  // ------------------------------------------------------------------------- runs

  datatype Operation =
    | Add(id: string, record: AddressRecord)
    | Remove(id: string)
    | Online(id: string)
    | Offline(id: string, cause: Option<string>)
    | Service(id: string, name: string, schema: Option<string>)
    | Certificate(id: string, cert: string)

  /** The state a setter leaves for its peer, from the state it finds. */
  function SetState(st: PeerState, op: Operation): PeerState
    requires !op.Add? && !op.Remove?
  {
    match op
    case Online(_) => st.(online := true, lastError := "")
    case Offline(_, cause) => st.(online := false, lastError := OfflineError(cause))
    case Service(_, name, schema) => WithService(st, name, schema)
    case Certificate(_, cert) => st.(cert := Some(cert))
  }

  function Apply(peers: Peers, self: string, op: Operation): Peers {
    match op
    case Add(id, record) => Added(peers, self, id, record)
    case Remove(id) => peers - {id}
    case _ => peers[op.id := SetState(StateOf(peers, op.id), op)]
  }

  function ApplyAll(self: string, ops: seq<Operation>): Peers {
    if ops == [] then map[] else Apply(ApplyAll(self, ops[..|ops| - 1]), self, ops[|ops| - 1])
  }

  ghost predicate UniquePrimaries(peers: Peers) {
    forall a, b | Primary(peers, a).Some? && Primary(peers, a) == Primary(peers, b) :: a == b
  }

  /** What an operation may do to a peer that is registered before and after. */
  predicate Advances(before: AddressRecord, after: AddressRecord) {
    && before.sequence <= after.sequence
    && (before.sequence == after.sequence ==> before.addresses <= after.addresses)
  }

  lemma PrimaryAfterAdd(peers: Peers, self: string, id: string, record: AddressRecord, x: string)
    ensures var after := Added(peers, self, id, record);
            && (x != id && Primary(after, x).Some? ==>
                  Primary(after, x) == Primary(peers, x)
                  && (id != self && record.addresses != [] ==> Primary(peers, x) != Some(record.addresses[0])))
            && (Primary(after, id).Some? ==>
                  Primary(after, id) == Primary(peers, id)
                  || (id != self && record.addresses != [] && Primary(after, id) == Some(record.addresses[0])))
  {
    if IsRegistered(peers, id) {
      var existing := peers[id].record.value.addresses;
      var merged := existing + Unseen(record.addresses, set a | a in existing);
      assert existing == [] && record.addresses != [] ==> merged[0] == record.addresses[0];
      assert existing != [] ==> merged[0] == existing[0];
    }
  }

  lemma AddKeepsUnique(peers: Peers, self: string, id: string, record: AddressRecord)
    requires UniquePrimaries(peers)
    ensures UniquePrimaries(Added(peers, self, id, record))
  {
    var after := Added(peers, self, id, record);
    forall a, b | Primary(after, a).Some? && Primary(after, a) == Primary(after, b) ensures a == b {
      PrimaryAfterAdd(peers, self, id, record, a);
      PrimaryAfterAdd(peers, self, id, record, b);
    }
  }

  lemma ApplyKeepsUnique(peers: Peers, self: string, op: Operation)
    requires UniquePrimaries(peers)
    ensures UniquePrimaries(Apply(peers, self, op))
  {
    if op.Add? {
      AddKeepsUnique(peers, self, op.id, op.record);
    } else {
      forall a ensures Primary(Apply(peers, self, op), a).Some? ==> Primary(Apply(peers, self, op), a) == Primary(peers, a) {
      }
    }
  }

  /** After any operations no two registered peers share a primary address, and the node itself is not registered. */
  lemma {:induction false} PrimariesStayUnique(self: string, ops: seq<Operation>)
    ensures UniquePrimaries(ApplyAll(self, ops))
    ensures !IsRegistered(ApplyAll(self, ops), self)
    ensures var peers := ApplyAll(self, ops);
            forall a, b | && a in peers && peers[a].record.Some? && peers[a].record.value.addresses != []
                          && b in peers && peers[b].record.Some? && peers[b].record.value.addresses != []
                          && peers[a].record.value.addresses[0] == peers[b].record.value.addresses[0] :: a == b
  {
    if ops != [] {
      PrimariesStayUnique(self, ops[..|ops| - 1]);
      ApplyKeepsUnique(ApplyAll(self, ops[..|ops| - 1]), self, ops[|ops| - 1]);
    }
    var peers := ApplyAll(self, ops);
    assert forall a | a in peers && peers[a].record.Some? && peers[a].record.value.addresses != [] ::
        Primary(peers, a) == Some(peers[a].record.value.addresses[0]);
  }

  lemma ApplyAdvances(peers: Peers, self: string, op: Operation, id: string)
    requires IsRegistered(peers, id) && IsRegistered(Apply(peers, self, op), id)
    ensures Advances(peers[id].record.value, Apply(peers, self, op)[id].record.value)
  {
  }

  /** While a peer stays registered its sequence never drops, and at one sequence its address list only grows at the end. */
  lemma {:induction false} RecordsAdvance(self: string, ops: seq<Operation>, n: nat, id: string)
    requires n <= |ops|
    requires forall k | n <= k <= |ops| :: IsRegistered(ApplyAll(self, ops[..k]), id)
    ensures IsRegistered(ApplyAll(self, ops[..n]), id) && IsRegistered(ApplyAll(self, ops), id)
    ensures Advances(ApplyAll(self, ops[..n])[id].record.value, ApplyAll(self, ops)[id].record.value)
    decreases |ops|
  {
    assert ops[..|ops|] == ops;
    if n < |ops| {
      var front := ops[..|ops| - 1];
      assert forall k | n <= k <= |front| :: front[..k] == ops[..k];
      RecordsAdvance(self, front, n, id);
      ApplyAdvances(ApplyAll(self, front), self, ops[|ops| - 1], id);
    }
  }

  /** The address first appears in the list at this position. */
  predicate FirstAt(list: seq<string>, a: string, p: nat) {
    p < |list| && list[p] == a && a !in list[..p]
  }

  /** Known addresses stay in place; exactly the unseen ones follow, each once, in the order they first appear in. */
  ghost predicate OnlyAppends(before: seq<string>, update: seq<string>, after: seq<string>) {
    && before <= after
    && (forall a :: a in after[|before|..] <==> a in update && a !in before)
    && (forall i, j | |before| <= i < j < |after| :: after[i] != after[j])
    && (forall i, j, p, q | |before| <= i < j < |after| && FirstAt(update, after[i], p) && FirstAt(update, after[j], q) :: p < q)
  }

  lemma {:induction false} UnseenInOrder(addresses: seq<string>, seen: set<string>, i: nat, j: nat, p: nat, q: nat)
    requires i < j < |Unseen(addresses, seen)|
    requires FirstAt(addresses, Unseen(addresses, seen)[i], p) && FirstAt(addresses, Unseen(addresses, seen)[j], q)
    ensures p < q
  {
    var first, rest := addresses[0], addresses[1..];
    var all := Unseen(addresses, seen);
    assert forall m | 0 < m <= |addresses| :: addresses[..m][0] == first;
    if first in seen {
      UnseenMembers(addresses, seen);
      assert all[i] in all && all[j] in all;
      FirstInRest(addresses, all[i], p);
      FirstInRest(addresses, all[j], q);
      UnseenInOrder(rest, seen, i, j, p - 1, q - 1);
    } else {
      UnseenMembers(addresses, seen);
      assert all[0] == first && all[j] != all[0];
      FirstInRest(addresses, all[j], q);
      if i > 0 {
        assert all[i] != all[0];
        FirstInRest(addresses, all[i], p);
        UnseenInOrder(rest, seen + {first}, i - 1, j - 1, p - 1, q - 1);
      }
    }
  }

  lemma FirstInRest(list: seq<string>, a: string, p: nat)
    requires FirstAt(list, a, p) && a != list[0]
    ensures p > 0 && FirstAt(list[1..], a, p - 1)
  {
    assert list[1..][..p - 1] == list[..p][1..];
  }

  lemma MergeOnlyAppends(before: seq<string>, update: seq<string>)
    ensures OnlyAppends(before, update, before + Unseen(update, set a | a in before))
  {
    var tail := Unseen(update, set a | a in before);
    UnseenMembers(update, set a | a in before);
    var after := before + tail;
    assert after[|before|..] == tail;
    forall i, j | |before| <= i < j < |after| ensures after[i] != after[j] {
      assert after[i] == tail[i - |before|] && after[j] == tail[j - |before|];
    }
    forall i, j, p, q | |before| <= i < j < |after| && FirstAt(update, after[i], p) && FirstAt(update, after[j], q)
      ensures p < q
    {
      UnseenInOrder(update, (set a | a in before), i - |before|, j - |before|, p, q);
    }
  }

  /** An update at the same sequence keeps the primary, if there is one, and only appends. */
  lemma SameSequenceOnlyAppends(peers: Peers, self: string, id: string, record: AddressRecord)
    requires id != self && IsRegistered(peers, id) && record.sequence == peers[id].record.value.sequence
    ensures var after := Added(peers, self, id, record);
            && IsRegistered(after, id)
            && OnlyAppends(peers[id].record.value.addresses, record.addresses, after[id].record.value.addresses)
            && (Primary(peers, id).Some? ==> Primary(after, id) == Primary(peers, id))
  {
    MergeOnlyAppends(peers[id].record.value.addresses, record.addresses);
  }

  /** The record a peer has after an update: the newer one as given, the equal one with its unseen addresses added. */
  ghost predicate Updated(was: Option<AddressRecord>, update: AddressRecord, after: Option<AddressRecord>) {
    if was.None? || update.sequence > was.value.sequence then after == Some(update)
    else if update.sequence < was.value.sequence then after == was
    else
      && after.Some? && OnlyAppends(was.value.addresses, update.addresses, after.value.addresses)
      && after.value == update.(addresses := after.value.addresses)
  }

  /**
   * What adding a peer does to every peer: the others at the new primary address
   * go, whatever becomes of the update; the peer itself gets the record it
   * should and, unless the update is older, is online without an error; all
   * else stays, services and certificates included. The node never adds itself.
   */
  lemma AddExactly(peers: Peers, self: string, id: string, record: AddressRecord, x: string)
    requires id != self
    ensures var after := Apply(peers, self, Add(id, record));
            && id in after && Updated(StateOf(peers, id).record, record, after[id].record)
            && after[id].services == StateOf(peers, id).services && after[id].cert == StateOf(peers, id).cert
            && (if IsRegistered(peers, id) && record.sequence < peers[id].record.value.sequence then after[id] == peers[id]
                else after[id].online && after[id].lastError == "")
            && (x != id ==>
                  && (x in after <==>
                        x in peers && !(&& peers[x].record.Some? && peers[x].record.value.addresses != [] && record.addresses != []
                                        && peers[x].record.value.addresses[0] == record.addresses[0]))
                  && (x in after ==> after[x] == peers[x]))
    ensures Apply(peers, id, Add(id, record)) == peers
  {
    if IsRegistered(peers, id) {
      MergeOnlyAppends(peers[id].record.value.addresses, record.addresses);
    }
  }

  /** What a setter sets reads back. */
  lemma SettersReadBack(peers: Peers, self: string, id: string, cause: Option<string>, name: string, schema: Option<string>, cert: string)
    ensures var st := StateOf(Apply(peers, self, Online(id)), id); st.online && st.lastError == ""
    ensures var st := StateOf(Apply(peers, self, Offline(id, cause)), id);
            !st.online && st.lastError == if cause.Some? then "offline or could not reach: " + cause.value else "offline"
    ensures var was, now := StateOf(peers, id).services, StateOf(Apply(peers, self, Service(id, name, schema)), id).services;
            && (name in now <==> schema.Some?) && (schema.Some? ==> now[name] == schema.value)
            && forall n | n != name :: (n in now <==> n in was) && (n in was ==> now[n] == was[n])
    ensures StateOf(Apply(peers, self, Certificate(id, cert)), id).cert == Some(cert)
    ensures forall x :: x in Apply(peers, self, Remove(id)) <==> x in peers && x != id
  {
  }

  /** The attribute an operation sets. */
  datatype Attribute = Status | Catalog | Certificates

  function AttributeOf(op: Operation): Attribute
    requires !op.Add? && !op.Remove?
  {
    match op
    case Service(_, _, _) => Catalog
    case Certificate(_, _) => Certificates
    case _ => Status
  }

  /** Setters never register, unregister or re-address anyone, and touch only their own attribute of their own peer. */
  lemma SettersKeepRecords(peers: Peers, self: string, op: Operation, x: string)
    requires !op.Add? && !op.Remove?
    ensures var after := Apply(peers, self, op);
            && after.Keys == peers.Keys + {op.id}
            && (IsRegistered(after, x) <==> IsRegistered(peers, x))
            && StateOf(after, x).record == StateOf(peers, x).record
            && (x != op.id ==> StateOf(after, x) == StateOf(peers, x))
            && (AttributeOf(op) != Status ==> StateOf(after, x).online == StateOf(peers, x).online && StateOf(after, x).lastError == StateOf(peers, x).lastError)
            && (AttributeOf(op) != Catalog ==> StateOf(after, x).services == StateOf(peers, x).services)
            && (AttributeOf(op) != Certificates ==> StateOf(after, x).cert == StateOf(peers, x).cert)
  {
  }

  /** So setters of different peers, or of different attributes, can be applied in either order. */
  lemma SettersCommute(peers: Peers, self: string, a: Operation, b: Operation)
    requires !a.Add? && !a.Remove? && !b.Add? && !b.Remove?
    requires a.id != b.id || AttributeOf(a) != AttributeOf(b)
    ensures Apply(Apply(peers, self, a), self, b) == Apply(Apply(peers, self, b), self, a)
  {
    var one, two := Apply(Apply(peers, self, a), self, b), Apply(Apply(peers, self, b), self, a);
    assert one.Keys == two.Keys;
    forall x | x in one ensures one[x] == two[x] {
      SetterAt(peers, self, a, x);
      SetterAt(Apply(peers, self, a), self, b, x);
      SetterAt(peers, self, b, x);
      SetterAt(Apply(peers, self, b), self, a, x);
    }
  }

  lemma SetterAt(peers: Peers, self: string, op: Operation, x: string)
    requires !op.Add? && !op.Remove?
    ensures StateOf(Apply(peers, self, op), x) == if x == op.id then SetState(StateOf(peers, x), op) else StateOf(peers, x)
  {
  }

  /** A peer that was removed starts afresh: any later record is written as given, whatever its sequence. */
  lemma RemovedPeerStartsAfresh(peers: Peers, self: string, id: string, record: AddressRecord)
    requires id != self
    ensures !IsRegistered(Apply(peers, self, Remove(id)), id)
    ensures var after := Apply(Apply(peers, self, Remove(id)), self, Add(id, record));
            id in after && after[id] == EMPTY.(record := Some(record), online := true)
    ensures forall x | x != id :: StateOf(Apply(peers, self, Remove(id)), x) == StateOf(peers, x)
  {
  }

  /** A record that is ignored as older still removes the other peer at its primary address. */
  lemma IgnoredUpdateStillEvicts(peers: Peers, self: string, id: string, record: AddressRecord, other: string)
    requires id != self && IsOlder(peers, id, record)
    ensures other in peers && other !in Added(peers, self, id, record) <==>
            other in peers && other != id && record.addresses != [] && Primary(peers, other) == Some(record.addresses[0])
    ensures Added(peers, self, id, record)[id] == peers[id]
  {
  }
}
