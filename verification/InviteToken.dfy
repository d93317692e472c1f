/**
 * The binary packet inside an invite token: a fixed header, then a counted list
 * of addresses and relay information with one-byte lengths.
 */
module InviteToken {
  import opened Common

  type Bytes = seq<byte>

  /** One entry of the packet, in the order host name, relay, IP addresses. */
  datatype Entry = HostName(name: Bytes) | Relay(sponsor: Bytes, address: Bytes) | V4(ip: Bytes) | V6(ip: Bytes)

  predicate IsEntry(e: Entry) {
    && (e.V4? ==> |e.ip| == 4)
    && (e.V6? ==> |e.ip| == 16)
  }

  predicate AreEntries(es: seq<Entry>) {
    forall k | 0 <= k < |es| :: IsEntry(es[k])
  }

  datatype Invite = Invite(
    caHash: Bytes, secret: Bytes, port: nat, host: Option<Bytes>, relay: Option<(Bytes, Bytes)>, ips: seq<Entry>)

  predicate AreIps(ips: seq<Entry>) {
    forall k | 0 <= k < |ips| :: IsEntry(ips[k]) && (ips[k].V4? || ips[k].V6?)
  }

  predicate IsInvite(i: Invite) {
    && |i.caHash| == 32 && |i.secret| == 32 && i.port < 65536
    && AreIps(i.ips)
  }

  /** What a parse returns; the addresses are rendered with the port by the caller. */
  datatype Payload = Payload(
    caHash: Bytes, secret: Bytes, port: nat, sponsor: Bytes, relayAddress: Bytes, addresses: seq<Entry>)

  /** What reading a string or an entry at an index gives: the value and where the next one starts. */
  datatype StringRead = GotString(text: Bytes, next: nat) | NoString
  datatype EntryRead = GotEntry(entry: Entry, next: nat) | NoEntry(error: ParseError)
  datatype Parsed = Accepted(payload: Payload) | Rejected(reason: ParseError)

  datatype ParseError = UnsupportedVersion | TooShort | EntryMissing | IpTruncated | StringTruncated | UnknownType(kind: byte)

  // ---------------------------------------------------------------------- writing

  function Cut(s: Bytes): Bytes {
    if |s| > 255 then s[..255] else s
  }

  function L8(s: Bytes): Bytes {
    [|Cut(s)| as byte] + Cut(s)
  }

  function EncodeEntry(e: Entry): Bytes {
    match e
    case V4(ip) => [1] + ip
    case V6(ip) => [2] + ip
    case HostName(name) => [3] + L8(name)
    case Relay(sponsor, address) => [4] + L8(sponsor) + L8(address)
  }

  function EncodeAll(es: seq<Entry>): Bytes {
    if es == [] then [] else EncodeEntry(es[0]) + EncodeAll(es[1..])
  }

  function HostEntries(i: Invite): seq<Entry> {
    if i.host.Some? then [HostName(i.host.value)] else []
  }

  function RelayEntries(i: Invite): seq<Entry> {
    if i.relay.Some? then [Relay(i.relay.value.0, i.relay.value.1)] else []
  }

  function EntriesOf(i: Invite): seq<Entry> {
    HostEntries(i) + RelayEntries(i) + i.ips
  }

  /** Version, hash, secret, big-endian port and the number of entries modulo 256. */
  function Header(caHash: Bytes, secret: Bytes, port: nat, entries: nat): Bytes
    requires port < 65536
  {
    [2] + caHash + secret + [(port / 256) as byte, (port % 256) as byte] + [(entries % 256) as byte]
  }

  function Encode(i: Invite): Bytes
    requires IsInvite(i)
  {
    Header(i.caHash, i.secret, i.port, |EntriesOf(i)|) + EncodeAll(EntriesOf(i))
  }

  lemma {:induction false} EncodeConcat(a: seq<Entry>, b: seq<Entry>)
    ensures EncodeAll(a + b) == EncodeAll(a) + EncodeAll(b)
  {
    if a == [] {
      assert a + b == b;
    } else {
      assert (a + b)[1..] == a[1..] + b;
      EncodeConcat(a[1..], b);
    }
  }

  lemma EncodeSingle(e: Entry)
    ensures EncodeAll([e]) == EncodeEntry(e)
  {
    assert [e][1..] == [];
  }

  lemma Associate(a: Bytes, b: Bytes, c: Bytes)
    ensures a + (b + c) == a + b + c
  {
  }

  method AppendL8String(buffer: Bytes, s: Bytes) returns (r: Bytes)
    ensures r == buffer + L8(s)
  {
    var b := s;
    if |b| > 255 {
      b := b[..255];
    }
    r := buffer + [|b| as byte];
    r := r + b;
  }

  method AppendEntry(buffer: Bytes, e: Entry) returns (r: Bytes)
    ensures r == buffer + EncodeEntry(e)
  {
    match e
    case HostName(name) =>
      r := AppendL8String(buffer + [3], name);
      Associate(buffer, [3], L8(name));
    case Relay(sponsor, address) =>
      r := AppendL8String(buffer + [4], sponsor);
      r := AppendL8String(r, address);
      Associate(buffer, [4], L8(sponsor));
      Associate(buffer, [4] + L8(sponsor), L8(address));
    case V4(ip) =>
      r := buffer + [1] + ip;
      Associate(buffer, [1], ip);
    case V6(ip) =>
      r := buffer + [2] + ip;
      Associate(buffer, [2], ip);
  }

  method AppendIps(buffer: Bytes, ips: seq<Entry>) returns (r: Bytes)
    requires AreIps(ips)
    ensures r == buffer + EncodeAll(ips)
  {
    r := buffer;
    for k := 0 to |ips|
      invariant r == buffer + EncodeAll(ips[..k])
    {
      EncodeConcat(ips[..k], [ips[k]]);
      EncodeSingle(ips[k]);
      assert ips[..k + 1] == ips[..k] + [ips[k]];
      Associate(buffer, EncodeAll(ips[..k]), EncodeEntry(ips[k]));
      r := AppendEntry(r, ips[k]);
    }
    assert ips[..|ips|] == ips;
  }

  /** Writes everything before the first entry; the entries are counted as they will be written. */
  method BuildHeader(i: Invite) returns (header: Bytes)
    requires IsInvite(i)
    ensures header == Header(i.caHash, i.secret, i.port, |EntriesOf(i)|)
  {
    header := [2] + i.caHash + i.secret;
    header := header + [(i.port / 256) as byte, (i.port % 256) as byte];
    var count := |i.ips|;
    if i.host.Some? {
      count := count + 1;
    }
    if i.relay.Some? {
      count := count + 1;
    }
    header := header + [(count % 256) as byte];
  }

  method BuildPacket(i: Invite) returns (packet: Bytes)
    requires IsInvite(i)
    ensures packet == Encode(i)
  {
    packet := BuildHeader(i);
    ghost var header := packet;
    if i.host.Some? {
      packet := AppendEntry(packet, HostName(i.host.value));
    }
    if i.relay.Some? {
      packet := AppendEntry(packet, Relay(i.relay.value.0, i.relay.value.1));
    }
    packet := AppendIps(packet, i.ips);
    EncodeParts(header, HostEntries(i), RelayEntries(i), i.ips);
  }

  lemma EncodeOptional(header: Bytes, first: seq<Entry>, rest: seq<Entry>)
    requires |first| <= 1
    ensures header + EncodeAll(first + rest) == (if first == [] then header else header + EncodeEntry(first[0])) + EncodeAll(rest)
  {
    if first == [] {
      assert first + rest == rest;
    } else {
      assert (first + rest)[1..] == rest;
      Associate(header, EncodeEntry(first[0]), EncodeAll(rest));
    }
  }

  lemma EncodeParts(header: Bytes, host: seq<Entry>, relay: seq<Entry>, ips: seq<Entry>)
    requires |host| <= 1 && |relay| <= 1
    ensures var b := if host == [] then header else header + EncodeEntry(host[0]);
            var c := if relay == [] then b else b + EncodeEntry(relay[0]);
            c + EncodeAll(ips) == header + EncodeAll(host + relay + ips)
  {
    assert host + relay + ips == host + (relay + ips);
    EncodeOptional(header, host, relay + ips);
    EncodeOptional(if host == [] then header else header + EncodeEntry(host[0]), relay, ips);
  }

  // ---------------------------------------------------------------------- parsing

  function ReadL8(data: Bytes, idx: nat): (r: StringRead)
    ensures r.GotString? ==> idx < r.next <= |data|
  {
    if idx >= |data| then NoString
    else
      var n := data[idx] as nat;
      if idx + 1 + n > |data| then NoString
      else GotString(data[idx + 1..idx + 1 + n], idx + 1 + n)
  }

  function ReadEntry(data: Bytes, idx: nat): (r: EntryRead)
    ensures r.GotEntry? ==> idx < r.next <= |data| && IsEntry(r.entry)
  {
    if idx >= |data| then NoEntry(EntryMissing)
    else if data[idx] == 1 then
      if idx + 5 > |data| then NoEntry(IpTruncated) else GotEntry(V4(data[idx + 1..idx + 5]), idx + 5)
    else if data[idx] == 2 then
      if idx + 17 > |data| then NoEntry(IpTruncated) else GotEntry(V6(data[idx + 1..idx + 17]), idx + 17)
    else if data[idx] == 3 then
      var name := ReadL8(data, idx + 1);
      if name.NoString? then NoEntry(StringTruncated) else GotEntry(HostName(name.text), name.next)
    else if data[idx] == 4 then
      var sponsor := ReadL8(data, idx + 1);
      if sponsor.NoString? then NoEntry(StringTruncated)
      else
        var address := ReadL8(data, sponsor.next);
        if address.NoString? then NoEntry(StringTruncated)
        else GotEntry(Relay(sponsor.text, address.text), address.next)
    else NoEntry(UnknownType(data[idx]))
  }

  function Add(p: Payload, e: Entry): Payload {
    if e.Relay? then p.(sponsor := e.sponsor, relayAddress := e.address)
    else p.(addresses := p.addresses + [e])
  }

  function AddAll(p: Payload, es: seq<Entry>): Payload
    decreases |es|
  {
    if es == [] then p else AddAll(Add(p, es[0]), es[1..])
  }

  function ParseFrom(data: Bytes, idx: nat, n: nat, p: Payload): Parsed
    decreases n
  {
    if n == 0 then Accepted(p)
    else
      var r := ReadEntry(data, idx);
      if r.NoEntry? then Rejected(r.error) else ParseFrom(data, r.next, n - 1, Add(p, r.entry))
  }

  function HeaderPayload(data: Bytes): Payload
    requires |data| >= 68
  {
    Payload(data[1..33], data[33..65], (data[65] as nat) * 256 + data[66] as nat, [], [], [])
  }

  function Parse(data: Bytes): Parsed {
    if data == [] || data[0] != 2 then Rejected(UnsupportedVersion)
    else if |data| < 68 then Rejected(TooShort)
    else ParseFrom(data, 68, data[67] as nat, HeaderPayload(data))
  }

  method ReadL8String(data: Bytes, idx: nat) returns (r: StringRead)
    ensures r == ReadL8(data, idx)
  {
    if idx >= |data| {
      return NoString;
    }
    var n := data[idx] as nat;
    var start := idx + 1;
    if start + n > |data| {
      return NoString;
    }
    return GotString(data[start..start + n], start + n);
  }

  method ReadEntryAt(data: Bytes, idx: nat) returns (r: EntryRead)
    ensures r == ReadEntry(data, idx)
  {
    if idx >= |data| {
      return NoEntry(EntryMissing);
    }
    var kind := data[idx];
    if kind == 1 {
      if idx + 5 > |data| {
        return NoEntry(IpTruncated);
      }
      return GotEntry(V4(data[idx + 1..idx + 5]), idx + 5);
    } else if kind == 2 {
      if idx + 17 > |data| {
        return NoEntry(IpTruncated);
      }
      return GotEntry(V6(data[idx + 1..idx + 17]), idx + 17);
    } else if kind == 3 {
      var name := ReadL8String(data, idx + 1);
      if name.NoString? {
        return NoEntry(StringTruncated);
      }
      return GotEntry(HostName(name.text), name.next);
    } else if kind == 4 {
      var sponsor := ReadL8String(data, idx + 1);
      if sponsor.NoString? {
        return NoEntry(StringTruncated);
      }
      var address := ReadL8String(data, sponsor.next);
      if address.NoString? {
        return NoEntry(StringTruncated);
      }
      return GotEntry(Relay(sponsor.text, address.text), address.next);
    }
    return NoEntry(UnknownType(kind));
  }

  /** The parser loop; every index it uses is in bounds for any bytes whatever. */
  method ParsePacket(data: Bytes) returns (r: Parsed)
    ensures r == Parse(data)
  {
    if data == [] || data[0] != 2 {
      return Rejected(UnsupportedVersion);
    }
    if |data| < 68 {
      return Rejected(TooShort);
    }
    var payload := Payload(data[1..33], data[33..65], (data[65] as nat) * 256 + data[66] as nat, [], [], []);
    var entries := data[67] as nat;
    var idx: nat := 68;
    for i := 0 to entries
      invariant ParseFrom(data, idx, entries - i, payload) == Parse(data)
    {
      var read := ReadEntryAt(data, idx);
      if read.NoEntry? {
        return Rejected(read.error);
      }
      if read.entry.Relay? {
        payload := payload.(sponsor := read.entry.sponsor, relayAddress := read.entry.address);
      } else {
        payload := payload.(addresses := payload.addresses + [read.entry]);
      }
      idx := read.next;
    }
    return Accepted(payload);
  }

  // ------------------------------------------------------------------- round trips

  /** These bytes stand in the data at this index. */
  predicate At(data: Bytes, idx: nat, part: Bytes) {
    idx + |part| <= |data| && data[idx..idx + |part|] == part
  }

  lemma AtSplit(data: Bytes, idx: nat, a: Bytes, b: Bytes)
    requires At(data, idx, a + b)
    ensures At(data, idx, a) && At(data, idx + |a|, b)
  {
    var part := data[idx..idx + |a + b|];
    assert part[..|a|] == a && part[|a|..] == b;
    assert data[idx..idx + |a|] == part[..|a|] && data[idx + |a|..idx + |a| + |b|] == part[|a|..];
  }

  lemma AtByte(data: Bytes, idx: nat, first: byte, rest: Bytes)
    requires At(data, idx, [first] + rest)
    ensures idx < |data| && data[idx] == first && At(data, idx + 1, rest)
  {
    AtSplit(data, idx, [first], rest);
    assert data[idx..idx + 1][0] == first;
  }

  lemma ReadBackL8(data: Bytes, idx: nat, s: Bytes)
    requires At(data, idx, L8(s))
    ensures ReadL8(data, idx) == GotString(Cut(s), idx + |L8(s)|)
  {
    AtByte(data, idx, |Cut(s)| as byte, Cut(s));
  }

  /** An entry with its strings cut to 255 bytes, as the packet carries it. */
  function CutEntry(e: Entry): Entry {
    match e
    case HostName(name) => HostName(Cut(name))
    case Relay(sponsor, address) => Relay(Cut(sponsor), Cut(address))
    case _ => e
  }

  function CutAll(es: seq<Entry>): (r: seq<Entry>)
    ensures |r| == |es| && forall k | 0 <= k < |es| :: r[k] == CutEntry(es[k])
  {
    if es == [] then [] else [CutEntry(es[0])] + CutAll(es[1..])
  }

  lemma ReadBackIp(data: Bytes, idx: nat, kind: byte, ip: Bytes)
    requires (kind == 1 && |ip| == 4) || (kind == 2 && |ip| == 16)
    requires At(data, idx, [kind] + ip)
    ensures ReadEntry(data, idx) == GotEntry(if kind == 1 then V4(ip) else V6(ip), idx + 1 + |ip|)
  {
    AtByte(data, idx, kind, ip);
  }

  lemma ReadBackHost(data: Bytes, idx: nat, name: Bytes)
    requires At(data, idx, [3] + L8(name))
    ensures ReadEntry(data, idx) == GotEntry(HostName(Cut(name)), idx + 1 + |L8(name)|)
  {
    AtByte(data, idx, 3, L8(name));
    ReadBackL8(data, idx + 1, name);
  }

  lemma ReadBackRelay(data: Bytes, idx: nat, sponsor: Bytes, address: Bytes)
    requires At(data, idx, [4] + L8(sponsor) + L8(address))
    ensures ReadEntry(data, idx) ==
            GotEntry(Relay(Cut(sponsor), Cut(address)), idx + 1 + |L8(sponsor)| + |L8(address)|)
  {
    AtSplit(data, idx, [4] + L8(sponsor), L8(address));
    AtByte(data, idx, 4, L8(sponsor));
    ReadBackL8(data, idx + 1, sponsor);
    ReadBackL8(data, idx + 1 + |L8(sponsor)|, address);
  }

  lemma ReadBackEntry(data: Bytes, idx: nat, e: Entry)
    requires IsEntry(e) && At(data, idx, EncodeEntry(e))
    ensures ReadEntry(data, idx) == GotEntry(CutEntry(e), idx + |EncodeEntry(e)|)
  {
    match e
    case V4(ip) => ReadBackIp(data, idx, 1, ip);
    case V6(ip) => ReadBackIp(data, idx, 2, ip);
    case HostName(name) => ReadBackHost(data, idx, name);
    case Relay(sponsor, address) => ReadBackRelay(data, idx, sponsor, address);
  }

  /** The payload after reading the first entries of a written list. */
  function AddCut(p: Payload, es: seq<Entry>, n: nat): Payload
    requires n <= |es|
    decreases n
  {
    if n == 0 then p else AddCut(Add(p, CutEntry(es[0])), es[1..], n - 1)
  }

  lemma ParseStep(data: Bytes, idx: nat, n: nat, p: Payload, e: Entry, next: nat)
    requires n > 0 && ReadEntry(data, idx) == GotEntry(e, next)
    ensures ParseFrom(data, idx, n, p) == ParseFrom(data, next, n - 1, Add(p, e))
  {
  }

  lemma ReadBackPart(data: Bytes, idx: nat, e: Entry, part: Bytes, rest: Bytes)
    requires IsEntry(e) && part == EncodeEntry(e) && At(data, idx, part + rest)
    ensures ReadEntry(data, idx) == GotEntry(CutEntry(e), idx + |part|) && At(data, idx + |part|, rest)
  {
    AtSplit(data, idx, part, rest);
    ReadBackEntry(data, idx, e);
  }

  lemma ReadBackFirst(data: Bytes, idx: nat, es: seq<Entry>) returns (next: nat)
    requires es != [] && AreEntries(es) && At(data, idx, EncodeAll(es))
    ensures At(data, next, EncodeAll(es[1..])) && AreEntries(es[1..])
    ensures ReadEntry(data, idx) == GotEntry(CutEntry(es[0]), next)
  {
    ReadBackPart(data, idx, es[0], EncodeEntry(es[0]), EncodeAll(es[1..]));
    next := idx + |EncodeEntry(es[0])|;
  }

  /** Reading from the index gives these entries one after another. */
  predicate Reads(data: Bytes, idx: nat, es: seq<Entry>)
    decreases |es|
  {
    es == [] ||
    var r := ReadEntry(data, idx);
    r.GotEntry? && r.entry == CutEntry(es[0]) && Reads(data, r.next, es[1..])
  }

  lemma {:induction false} WrittenIsRead(data: Bytes, idx: nat, es: seq<Entry>)
    requires AreEntries(es) && At(data, idx, EncodeAll(es))
    ensures Reads(data, idx, es)
    decreases |es|
  {
    if es != [] {
      var next := ReadBackFirst(data, idx, es);
      WrittenIsRead(data, next, es[1..]);
    }
  }

  lemma {:induction false} ReadIsParsed(data: Bytes, idx: nat, es: seq<Entry>, n: nat, p: Payload)
    requires n <= |es| && Reads(data, idx, es)
    ensures ParseFrom(data, idx, n, p) == Accepted(AddCut(p, es, n))
    decreases n
  {
    if n > 0 {
      var r := ReadEntry(data, idx);
      ReadIsParsed(data, r.next, es[1..], n - 1, Add(p, r.entry));
    }
  }

  /** Parsing reads back as many of the written entries as it is asked for, in order. */
  lemma ReadBackEntries(data: Bytes, idx: nat, es: seq<Entry>, n: nat, p: Payload)
    requires n <= |es| && AreEntries(es) && At(data, idx, EncodeAll(es))
    ensures ParseFrom(data, idx, n, p) == Accepted(AddCut(p, es, n))
  {
    WrittenIsRead(data, idx, es);
    ReadIsParsed(data, idx, es, n, p);
  }

  /** What an invite should come back as: the header, the relay pair, and the addresses in order. */
  function Expected(i: Invite): Payload {
    Payload(
      i.caHash, i.secret, i.port,
      if i.relay.Some? then i.relay.value.0 else [],
      if i.relay.Some? then i.relay.value.1 else [],
      HostEntries(i) + i.ips)
  }

  /** The invite as the packet carries it. */
  function CutInvite(i: Invite): Invite {
    i.(host := if i.host.Some? then Some(Cut(i.host.value)) else None,
    relay := if i.relay.Some? then Some((Cut(i.relay.value.0), Cut(i.relay.value.1))) else None)
  }

  predicate Fits(i: Invite) {
    && |EntriesOf(i)| <= 255
    && (i.host.Some? ==> |i.host.value| <= 255)
    && (i.relay.Some? ==> |i.relay.value.0| <= 255 && |i.relay.value.1| <= 255)
  }

  function Blank(i: Invite): Payload {
    Payload(i.caHash, i.secret, i.port, [], [], [])
  }

  lemma HeaderReadsBack(i: Invite)
    requires IsInvite(i)
    ensures var n := |EntriesOf(i)|;
            var h := Header(i.caHash, i.secret, i.port, n);
            && |h| == 68 && h[0] == 2 && h[67] as nat == n % 256 && HeaderPayload(h) == Blank(i)
  {
    var h := Header(i.caHash, i.secret, i.port, |EntriesOf(i)|);
    assert h[65] as nat == i.port / 256 && h[66] as nat == i.port % 256;
    assert h[1..33] == i.caHash && h[33..65] == i.secret;
  }

  lemma HeaderStays(h: Bytes, rest: Bytes)
    requires |h| == 68
    ensures (h + rest)[0] == h[0] && (h + rest)[67] == h[67]
    ensures HeaderPayload(h + rest) == HeaderPayload(h) && At(h + rest, 68, rest)
  {
    var data := h + rest;
    assert data[1..33] == h[1..33] && data[33..65] == h[33..65] && data[65] == h[65] && data[66] == h[66];
  }

  /** Parsing a written packet reads the first entries, as many as the count byte says. */
  lemma ParseReadsCounted(i: Invite)
    requires IsInvite(i)
    ensures Parse(Encode(i)) == Accepted(AddCut(Blank(i), EntriesOf(i), |EntriesOf(i)| % 256))
  {
    var es := EntriesOf(i);
    var h := Header(i.caHash, i.secret, i.port, |es|);
    HeaderReadsBack(i);
    HeaderStays(h, EncodeAll(es));
    var data := h + EncodeAll(es);
    ReadBackEntries(data, 68, es, |es| % 256, Blank(i));
  }

  lemma {:induction false} AddAllIps(p: Payload, ips: seq<Entry>)
    requires AreIps(ips)
    ensures AddAll(p, ips) == p.(addresses := p.addresses + ips)
    decreases |ips|
  {
    if ips == [] {
      assert p.addresses + [] == p.addresses;
    } else {
      AddAllIps(Add(p, ips[0]), ips[1..]);
      assert p.addresses + [ips[0]] + ips[1..] == p.addresses + ips;
    }
  }

  /** Adding at most one entry and then the rest. */
  lemma AddOptional(p: Payload, first: seq<Entry>, rest: seq<Entry>)
    requires |first| <= 1
    ensures AddAll(p, first + rest) == AddAll(if first == [] then p else Add(p, first[0]), rest)
  {
    if first == [] {
      assert first + rest == rest;
    } else {
      assert (first + rest)[1..] == rest;
    }
  }

  lemma AddAllEntries(i: Invite)
    requires AreIps(i.ips)
    ensures AddAll(Blank(i), EntriesOf(i)) == Expected(i)
  {
    var host, relay := HostEntries(i), RelayEntries(i);
    assert host + relay + i.ips == host + (relay + i.ips);
    AddOptional(Blank(i), host, relay + i.ips);
    var p := if host == [] then Blank(i) else Add(Blank(i), host[0]);
    assert p == Blank(i).(addresses := host);
    AddOptional(p, relay, i.ips);
    AddAllIps(if relay == [] then p else Add(p, relay[0]), i.ips);
  }

  lemma CutEntries(i: Invite)
    requires AreIps(i.ips)
    ensures CutAll(EntriesOf(i)) == EntriesOf(CutInvite(i))
  {
    assert forall k | 0 <= k < |i.ips| :: CutEntry(i.ips[k]) == i.ips[k];
  }

  lemma {:induction false} AddCutAll(p: Payload, es: seq<Entry>)
    ensures AddCut(p, es, |es|) == AddAll(p, CutAll(es))
    decreases |es|
  {
    if es != [] {
      AddCutAll(Add(p, CutEntry(es[0])), es[1..]);
      assert CutAll(es)[1..] == CutAll(es[1..]);
    }
  }

  lemma {:induction false} AddedAddresses(p: Payload, es: seq<Entry>, n: nat)
    requires n <= |es|
    ensures |AddCut(p, es, n).addresses| <= |p.addresses| + n
    decreases n
  {
    if n > 0 {
      AddedAddresses(Add(p, CutEntry(es[0])), es[1..], n - 1);
    }
  }

  lemma CutIsIdentityExactly(i: Invite)
    requires |EntriesOf(i)| <= 255
    ensures Expected(CutInvite(i)) == Expected(i) <==> Fits(i)
  {
    var a, b := Expected(CutInvite(i)), Expected(i);
    if i.host.Some? {
      assert a.addresses[0] == HostName(Cut(i.host.value)) && b.addresses[0] == HostName(i.host.value);
    }
  }

  lemma AllAdded(i: Invite)
    requires AreIps(i.ips)
    ensures AddCut(Blank(i), EntriesOf(i), |EntriesOf(i)|) == Expected(CutInvite(i))
  {
    AddCutAll(Blank(i), EntriesOf(i));
    CutEntries(i);
    AddAllEntries(CutInvite(i));
  }

  lemma FewAreCounted(i: Invite)
    requires AreIps(i.ips) && |EntriesOf(i)| <= 255
    ensures AddCut(Blank(i), EntriesOf(i), |EntriesOf(i)|) == Expected(i) <==> Fits(i)
  {
    AllAdded(i);
    CutIsIdentityExactly(i);
  }

  lemma CountedIsExpectedExactly(i: Invite, counted: Payload)
    requires AreIps(i.ips) && counted == AddCut(Blank(i), EntriesOf(i), |EntriesOf(i)| % 256)
    ensures counted == Expected(i) <==> Fits(i)
  {
    var n := |EntriesOf(i)|;
    if n <= 255 {
      assert n % 256 == n;
      FewAreCounted(i);
    } else {
      ManyAreLost(i, n);
    }
  }

  lemma ManyAreLost(i: Invite, n: nat)
    requires n == |EntriesOf(i)| > 255
    ensures AddCut(Blank(i), EntriesOf(i), n % 256) != Expected(i)
  {
    AddedAddresses(Blank(i), EntriesOf(i), n % 256);
    assert n % 256 <= n - 256;
    assert |Expected(i).addresses| >= n - 1;
  }

  /** An invite survives the round trip exactly when it has at most 255 entries and strings of at most 255 bytes. */
  lemma RoundTripExactly(i: Invite)
    requires IsInvite(i)
    ensures Parse(Encode(i)) == Accepted(Expected(i)) <==> Fits(i)
  {
    ParseReadsCounted(i);
    CountedIsExpectedExactly(i, AddCut(Blank(i), EntriesOf(i), |EntriesOf(i)| % 256));
  }

  // ---------------------------------------------------------------- arbitrary bytes

  lemma ReadL8IsEncoding(data: Bytes, idx: nat)
    requires ReadL8(data, idx).GotString?
    ensures var r := ReadL8(data, idx);
            |r.text| <= 255 && data[idx..r.next] == L8(r.text)
  {
    var n := data[idx] as nat;
    assert data[idx..idx + 1 + n] == [data[idx]] + data[idx + 1..idx + 1 + n];
  }

  lemma Slices(data: Bytes, i: nat, j: nat, k: nat)
    requires i <= j <= k <= |data|
    ensures data[i..k] == data[i..j] + data[j..k]
  {
  }

  lemma ReadEntryIsEncoding(data: Bytes, idx: nat)
    requires ReadEntry(data, idx).GotEntry?
    ensures var r := ReadEntry(data, idx);
            IsEntry(r.entry) && data[idx..r.next] == EncodeEntry(r.entry)
  {
    var e, next := ReadEntry(data, idx).entry, ReadEntry(data, idx).next;
    Slices(data, idx, idx + 1, next);
    assert data[idx..idx + 1] == [data[idx]];
    if e.HostName? {
      ReadL8IsEncoding(data, idx + 1);
    } else if e.Relay? {
      var mid := ReadL8(data, idx + 1).next;
      ReadL8IsEncoding(data, idx + 1);
      ReadL8IsEncoding(data, mid);
      Slices(data, idx + 1, mid, next);
      Associate([data[idx]], L8(e.sponsor), L8(e.address));
    }
  }

  ghost predicate HoldsString(data: Bytes, idx: nat) {
    exists s :: At(data, idx, L8(s))
  }

  ghost predicate HoldsEntry(data: Bytes, idx: nat) {
    exists e :: IsEntry(e) && At(data, idx, EncodeEntry(e))
  }

  lemma StringIsReadExactly(data: Bytes, idx: nat)
    ensures ReadL8(data, idx).GotString? <==> HoldsString(data, idx)
    ensures var r := ReadL8(data, idx);
            r.GotString? ==> |r.text| <= 255 && At(data, idx, L8(r.text)) && r.next == idx + |L8(r.text)|
  {
    if HoldsString(data, idx) {
      var s :| At(data, idx, L8(s));
      ReadBackL8(data, idx, s);
    }
    if ReadL8(data, idx).GotString? {
      ReadL8IsEncoding(data, idx);
    }
  }

  /** Reading succeeds exactly where an encoded entry stands, and gives an entry that encodes to those bytes. */
  lemma EntryIsReadExactly(data: Bytes, idx: nat)
    ensures ReadEntry(data, idx).GotEntry? <==> HoldsEntry(data, idx)
    ensures var r := ReadEntry(data, idx);
            r.GotEntry? ==> IsEntry(r.entry) && At(data, idx, EncodeEntry(r.entry)) && r.next == idx + |EncodeEntry(r.entry)|
  {
    if HoldsEntry(data, idx) {
      var e :| IsEntry(e) && At(data, idx, EncodeEntry(e));
      ReadBackEntry(data, idx, e);
    }
    if ReadEntry(data, idx).GotEntry? {
      ReadEntryIsEncoding(data, idx);
      assert |data[idx..ReadEntry(data, idx).next]| == ReadEntry(data, idx).next - idx;
    }
  }

  /** Whatever the bytes, an accepted packet holds an encoding of the entries it was read as, then unread bytes. */
  lemma {:induction false} AcceptedIsEncoding(data: Bytes, idx: nat, n: nat, p: Payload) returns (es: seq<Entry>, end: nat)
    requires ParseFrom(data, idx, n, p).Accepted? && idx <= |data|
    ensures |es| == n && AreEntries(es) && idx <= end <= |data| && data[idx..end] == EncodeAll(es)
    ensures ParseFrom(data, idx, n, p) == Accepted(AddAll(p, es))
    decreases n
  {
    if n == 0 {
      es, end := [], idx;
    } else {
      var e, next := ReadEntry(data, idx).entry, ReadEntry(data, idx).next;
      ReadEntryIsEncoding(data, idx);
      ParseStep(data, idx, n, p, e, next);
      var rest;
      rest, end := AcceptedIsEncoding(data, next, n - 1, Add(p, e));
      es := [e] + rest;
      assert es[1..] == rest;
      Slices(data, idx, next, end);
    }
  }

  /** The bytes begin with a header and as many encoded entries as it counts. */
  ghost predicate HoldsPacket(data: Bytes) {
    && |data| >= 68 && data[0] == 2
    && exists es :: HoldsEntries(data, es)
  }

  predicate HoldsEntries(data: Bytes, es: seq<Entry>)
    requires |data| >= 68
  {
    |es| == data[67] as nat && AreEntries(es) && At(data, 68, EncodeAll(es))
  }

  /** Bytes are accepted exactly when they begin with a packet; what follows it is not read. */
  lemma AcceptedExactly(data: Bytes)
    ensures Parse(data).Accepted? <==> HoldsPacket(data)
  {
    if |data| >= 68 && data[0] == 2 {
      var n, p := data[67] as nat, HeaderPayload(data);
      if Parse(data).Accepted? {
        var es, end := AcceptedIsEncoding(data, 68, n, p);
        assert HoldsEntries(data, es);
      }
      if HoldsPacket(data) {
        var es :| HoldsEntries(data, es);
        ReadBackEntries(data, 68, es, n, p);
      }
    }
  }

  // ------------------------------------------------------------------- the layout

  /** Where everything stands in a packet: version, hash, secret, big-endian port, count, then the entries in order. */
  lemma PacketLayout(i: Invite)
    requires IsInvite(i)
    ensures var data := Encode(i);
            && |data| >= 68 && data[0] == 2 && data[1..33] == i.caHash && data[33..65] == i.secret
            && data[65] as nat == i.port / 256 && data[66] as nat == i.port % 256
            && data[67] as nat == |EntriesOf(i)| % 256 && data[68..] == EncodeAll(EntriesOf(i))
  {
    var h := Header(i.caHash, i.secret, i.port, |EntriesOf(i)|);
    HeaderReadsBack(i);
    assert h[65] as nat == i.port / 256 && h[66] as nat == i.port % 256;
    assert h[1..33] == i.caHash && h[33..65] == i.secret;
    var data := h + EncodeAll(EntriesOf(i));
    assert data[..68] == h;
    assert data[1..33] == h[1..33] && data[33..65] == h[33..65];
  }

  /** An entry starts with its kind: 1 and 2 for IP addresses, 3 for a host name, 4 for a relay; strings follow their length. */
  lemma EntryLayout(e: Entry)
    requires IsEntry(e)
    ensures var data := EncodeEntry(e);
            match e
            case V4(ip) => |data| == 5 && data[0] == 1 && data[1..] == ip
            case V6(ip) => |data| == 17 && data[0] == 2 && data[1..] == ip
            case HostName(name) => data[0] == 3 && data[1] as nat == |Cut(name)| && data[2..] == Cut(name)
            case Relay(sponsor, address) =>
              var n := |Cut(sponsor)|;
              && |data| == 3 + n + |Cut(address)| && data[0] == 4 && data[1] as nat == n && data[2..2 + n] == Cut(sponsor)
              && data[2 + n] as nat == |Cut(address)| && data[3 + n..] == Cut(address)
    ensures forall text: Bytes :: Cut(text) <= text && |Cut(text)| == if |text| < 255 then |text| else 255
  {
  }

  /** Why an entry is not read: nothing there, an unknown kind, or one that does not fit into what is left. */
  lemma EntryErrorExactly(data: Bytes, idx: nat)
    requires ReadEntry(data, idx).NoEntry?
    ensures ReadEntry(data, idx).error ==
            if idx >= |data| then EntryMissing
            else if data[idx] == 1 || data[idx] == 2 then IpTruncated
            else if data[idx] == 3 || data[idx] == 4 then StringTruncated
            else UnknownType(data[idx])
    ensures !HoldsEntry(data, idx)
  {
    EntryIsReadExactly(data, idx);
  }

  lemma {:induction false} AddAllKeepsHeader(p: Payload, es: seq<Entry>)
    ensures var q := AddAll(p, es); q.caHash == p.caHash && q.secret == p.secret && q.port == p.port
    decreases |es|
  {
    if es != [] {
      AddAllKeepsHeader(Add(p, es[0]), es[1..]);
    }
  }

  /** What an accepted packet says is what stands in its header; a bad version is reported before a short packet. */
  lemma HeaderIsReadExactly(data: Bytes)
    ensures Parse(data).Accepted? ==>
              && |data| >= 68
              && var p := Parse(data).payload;
              p.caHash == data[1..33] && p.secret == data[33..65] && p.port == 256 * (data[65] as nat) + data[66] as nat
    ensures Parse(data) == Rejected(UnsupportedVersion) <==> data == [] || data[0] != 2
    ensures Parse(data) == Rejected(TooShort) <==> 0 < |data| < 68 && data[0] == 2
  {
    if |data| >= 68 && data[0] == 2 {
      if Parse(data).Accepted? {
        var es, end := AcceptedIsEncoding(data, 68, data[67] as nat, HeaderPayload(data));
        AddAllKeepsHeader(HeaderPayload(data), es);
      } else {
        EntryErrors(data, 68, data[67] as nat, HeaderPayload(data));
      }
    }
  }

  lemma {:induction false} EntryErrors(data: Bytes, idx: nat, n: nat, p: Payload)
    requires ParseFrom(data, idx, n, p).Rejected?
    ensures ParseFrom(data, idx, n, p).reason != UnsupportedVersion && ParseFrom(data, idx, n, p).reason != TooShort
    decreases n
  {
    if ReadEntry(data, idx).GotEntry? {
      EntryErrors(data, ReadEntry(data, idx).next, n - 1, Add(p, ReadEntry(data, idx).entry));
    }
  }
}
