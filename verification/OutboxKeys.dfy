/**
 * The storage key of an outbox entry: every part of the (peer, kind, entity)
 * tuple is written as its decimal length, a colon and its bytes.
 * Strings stand for Go byte strings, one char per byte.
 */
module OutboxKeys {

  function DigitChar(d: nat): (c: char)
    requires d < 10
    ensures '0' <= c <= '9'
    ensures c as int - '0' as int == d
  {
    (d + '0' as int) as char
  }

  /** Decimal rendering of a length (strconv.Itoa on a non-negative int). */
  function Digits(n: nat): (s: string)
    ensures |s| > 0
    ensures forall i :: 0 <= i < |s| ==> '0' <= s[i] <= '9'
  {
    if n < 10 then [DigitChar(n)] else Digits(n / 10) + [DigitChar(n % 10)]
  }

  function Value(s: string): int {
    if s == [] then 0 else 10 * Value(s[..|s| - 1]) + (s[|s| - 1] as int - '0' as int)
  }

  function EncodePart(part: string): string {
    Digits(|part|) + [':'] + part
  }

  /** What the tuple encoder means: the encoded parts in order. */
  function Encode(parts: seq<string>): string {
    if parts == [] then [] else EncodePart(parts[0]) + Encode(parts[1..])
  }

  lemma {:induction false} EncodeSnoc(parts: seq<string>, last: string)
    ensures Encode(parts + [last]) == Encode(parts) + EncodePart(last)
  {
    var all := parts + [last];
    if parts == [] {
      assert all[1..] == [];
    } else {
      assert all[1..] == parts[1..] + [last];
      EncodeSnoc(parts[1..], last);
    }
  }

  method EncodeOutboxTuple(parts: seq<string>) returns (b: string)
    ensures b == Encode(parts)
  {
    b := [];
    for i := 0 to |parts|
      invariant b == Encode(parts[..i])
    {
      EncodeSnoc(parts[..i], parts[i]);
      assert parts[..i + 1] == parts[..i] + [parts[i]];
      b := b + Digits(|parts[i]|);
      b := b + [':'];
      b := b + parts[i];
    }
    assert parts[..|parts|] == parts;
  }

  function OutboxKey(peer: string, kind: string, entity: string): string {
    Encode([peer, kind, entity])
  }

  lemma {:induction false} ValueOfDigits(n: nat)
    ensures Value(Digits(n)) == n
  {
    if n >= 10 {
      var s := Digits(n);
      assert s[..|s| - 1] == Digits(n / 10);
      ValueOfDigits(n / 10);
    } else {
      assert Digits(n)[..0] == [];
    }
  }

  /** Two length headers that agree up to a common continuation are the same header. */
  lemma HeaderUnique(a: string, b: string, x: string, y: string)
    requires forall i :: 0 <= i < |a| ==> a[i] != ':'
    requires forall i :: 0 <= i < |b| ==> b[i] != ':'
    requires a + [':'] + x == b + [':'] + y
    ensures a == b && x == y
  {
    var s, t := a + [':'] + x, b + [':'] + y;
    assert forall i :: 0 <= i < |b| ==> t[i] == b[i] != ':';
    assert forall i :: 0 <= i < |a| ==> s[i] == a[i] != ':';
    assert s[|a|] == ':' && t[|b|] == ':';
    assert a == s[..|a|] == t[..|b|] == b;
    assert x == s[|a| + 1..] == t[|b| + 1..] == y;
  }

  lemma {:induction false} NoLeadingZero(n: nat)
    ensures n > 0 ==> Digits(n)[0] != '0'
  {
    if n >= 10 {
      NoLeadingZero(n / 10);
    }
  }

  predicate FirstColon(s: string, n: nat) {
    n < |s| && s[n] == ':' && forall k | 0 <= k < n :: s[k] != ':'
  }

  /**
   * A part can be read back off the front: the decimal number before the first
   * colon is its length, the bytes after the colon are the part, then comes the rest.
   */
  lemma PartReadsBack(part: string, rest: string) returns (n: nat)
    ensures var s := EncodePart(part) + rest;
            && FirstColon(s, n)
            && Value(s[..n]) == |part| && (n > 1 ==> s[0] != '0')
            && |s| == n + 1 + |part| + |rest|
            && s[n + 1..n + 1 + |part|] == part && s[n + 1 + |part|..] == rest
  {
    var d := Digits(|part|);
    var s := EncodePart(part) + rest;
    n := |d|;
    assert s[..n] == d && s[n] == ':';
    assert forall k | 0 <= k < n :: s[k] == d[k];
    ValueOfDigits(|part|);
    NoLeadingZero(|part|);
    assert part == "" ==> d == [DigitChar(0)];
  }

  /** Tuples of any arity never collide: the encoding is injective. */
  lemma {:induction false} EncodeInjective(a: seq<string>, b: seq<string>)
    requires Encode(a) == Encode(b)
    ensures a == b
  {
    if a != [] && b != [] {
      var dx, dy := Digits(|a[0]|), Digits(|b[0]|);
      var x, y := a[0] + Encode(a[1..]), b[0] + Encode(b[1..]);
      assert Encode(a) == dx + [':'] + x;
      assert Encode(b) == dy + [':'] + y;
      HeaderUnique(dx, dy, x, y);
      ValueOfDigits(|a[0]|);
      ValueOfDigits(|b[0]|);
      assert a[0] == x[..|a[0]|] == y[..|b[0]|] == b[0];
      assert Encode(a[1..]) == x[|a[0]|..] == y[|b[0]|..] == Encode(b[1..]);
      EncodeInjective(a[1..], b[1..]);
      assert a == [a[0]] + a[1..] && b == [b[0]] + b[1..];
    }
  }

  /** Distinct (peer, kind, entity) triples have distinct outbox keys. */
  lemma OutboxKeyInjective(p1: string, k1: string, e1: string, p2: string, k2: string, e2: string)
    ensures OutboxKey(p1, k1, e1) == OutboxKey(p2, k2, e2) <==> p1 == p2 && k1 == k2 && e1 == e2
  {
    if OutboxKey(p1, k1, e1) == OutboxKey(p2, k2, e2) {
      var a, b := [p1, k1, e1], [p2, k2, e2];
      EncodeInjective(a, b);
      assert a[0] == b[0] && a[1] == b[1] && a[2] == b[2];
    }
  }
}
