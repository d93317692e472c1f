/**
 * Keys of the task journal bucket: task ID, a slash and the sequence number in
 * twenty decimal digits. Scans go by the prefix "ID/".
 */
module JournalKeys {
  import opened Common
  import opened OutboxKeys

  const WIDTH := 20

  function Zeros(n: nat): (s: string)
    ensures |s| == n && forall i | 0 <= i < n :: s[i] == '0'
  {
    seq(n, _ => '0')
  }

  /** `%020d` */
  function Padded(n: nat): (s: string)
    ensures |s| >= WIDTH
    ensures forall i | 0 <= i < |s| :: '0' <= s[i] <= '9'
  {
    var d := Digits(n);
    if |d| < WIDTH then Zeros(WIDTH - |d|) + d else d
  }

  function JournalKey(id: string, sequence: nat): string {
    id + ['/'] + Padded(sequence)
  }

  predicate HasPrefix(s: string, prefix: string) {
    prefix <= s
  }

  predicate IsDecimal(s: string) {
    s != [] && forall i | 0 <= i < |s| :: '0' <= s[i] <= '9'
  }

  /** parseTaskJournalSeq: the sequence of a key of this task, if it is one. */
  function ParseSequence(key: string, id: string): Option<nat> {
    if !HasPrefix(key, id + ['/']) then None
    else
      var rest := key[|id| + 1..];
      if IsDecimal(rest) && 0 <= Value(rest) <= MAX_UINT64 then Some(Value(rest)) else None
  }

  // ---------------------------------------------------------------- the codec

  function Pow10(k: nat): nat {
    if k == 0 then 1 else 10 * Pow10(k - 1)
  }

  lemma {:induction false} DigitsShort(n: nat, k: nat)
    requires 0 < k && n < Pow10(k)
    ensures |Digits(n)| <= k
  {
    if n >= 10 {
      assert k > 1 by {
        assert Pow10(1) == 10 * Pow10(0) == 10;
      }
      DigitsShort(n / 10, k - 1);
    }
  }

  lemma PaddedWidth(n: nat)
    requires n <= MAX_UINT64
    ensures |Padded(n)| == WIDTH
  {
    assert Pow10(5) == 100000 by {
      assert Pow10(1) == 10 && Pow10(2) == 100 && Pow10(3) == 1000 && Pow10(4) == 10000;
    }
    assert Pow10(10) == 10000000000 by {
      assert Pow10(6) == 1000000 && Pow10(7) == 10000000 && Pow10(8) == 100000000 && Pow10(9) == 1000000000;
    }
    assert Pow10(15) == 1000000000000000 by {
      assert Pow10(11) == 100000000000 && Pow10(12) == 1000000000000;
      assert Pow10(13) == 10000000000000 && Pow10(14) == 100000000000000;
    }
    assert Pow10(20) == 100000000000000000000 by {
      assert Pow10(16) == 10000000000000000 && Pow10(17) == 100000000000000000;
      assert Pow10(18) == 1000000000000000000 && Pow10(19) == 10000000000000000000;
    }
    DigitsShort(n, WIDTH);
  }

  lemma {:induction false} ValueZeros(k: nat)
    ensures Value(Zeros(k)) == 0
  {
    if k > 0 {
      assert Zeros(k)[..k - 1] == Zeros(k - 1);
      ValueZeros(k - 1);
    }
  }

  lemma {:induction false} ValueZeroPrefix(k: nat, s: string)
    ensures Value(Zeros(k) + s) == Value(s)
  {
    if s == [] {
      assert Zeros(k) + s == Zeros(k);
      ValueZeros(k);
    } else {
      var t := Zeros(k) + s;
      assert t[..|t| - 1] == Zeros(k) + s[..|s| - 1];
      ValueZeroPrefix(k, s[..|s| - 1]);
    }
  }

  lemma ValueOfPadded(n: nat)
    ensures Value(Padded(n)) == n
  {
    var d := Digits(n);
    ValueOfDigits(n);
    if |d| < WIDTH {
      ValueZeroPrefix(WIDTH - |d|, d);
    }
  }

  /** A key reads back the sequence it was built from. */
  lemma ParseOwnKey(id: string, n: nat)
    requires n <= MAX_UINT64
    ensures ParseSequence(JournalKey(id, n), id) == Some(n)
  {
    assert JournalKey(id, n)[|id| + 1..] == Padded(n);
    ValueOfPadded(n);
  }

  /** The key is the ID, a slash and exactly twenty digits that read as the sequence. */
  lemma KeyLayout(id: string, n: nat)
    requires n <= MAX_UINT64
    ensures var key := JournalKey(id, n);
            && |key| == |id| + 21 && key[..|id|] == id && key[|id|] == '/'
            && IsDecimal(key[|id| + 1..]) && Value(key[|id| + 1..]) == n
  {
    PaddedWidth(n);
    ValueOfPadded(n);
    assert JournalKey(id, n)[|id| + 1..] == Padded(n);
  }

  lemma KeyInjective(a: string, m: nat, b: string, n: nat)
    requires m <= MAX_UINT64 && n <= MAX_UINT64 && JournalKey(a, m) == JournalKey(b, n)
    ensures a == b && m == n
  {
    PaddedWidth(m);
    PaddedWidth(n);
    assert a == JournalKey(a, m)[..|a|] && b == JournalKey(b, n)[..|b|];
    ParseOwnKey(a, m);
    ParseOwnKey(b, n);
  }

  /** A prefix scan meets exactly the task's own keys and those of IDs that extend it with a slash. */
  lemma ScanMeetsExactly(id: string, other: string, n: nat)
    requires n <= MAX_UINT64
    ensures HasPrefix(JournalKey(other, n), id + ['/']) <==> other == id || HasPrefix(other, id + ['/'])
  {
    var key := JournalKey(other, n);
    var prefix := id + ['/'];
    PaddedWidth(n);
    assert forall i | |other| < i < |key| :: key[i] == Padded(n)[i - |other| - 1] != '/';
    assert forall i | 0 <= i < |other| :: key[i] == other[i];
    if HasPrefix(key, prefix) {
      assert key[|id|] == prefix[|id|] == '/';
      assert |id| <= |other|;
      assert forall i | 0 <= i < |id| :: other[i] == key[i] == prefix[i] == id[i];
      if |id| == |other| {
        assert other == id;
      } else {
        assert other[|id|] == '/';
        assert prefix == other[..|id| + 1];
      }
    }
    if other == id || HasPrefix(other, prefix) {
      assert prefix == key[..|prefix|];
    }
  }

  /** Only the task's own keys parse, whatever slashes other IDs contain. */
  lemma OnlyOwnKeysParse(id: string, other: string, n: nat)
    requires n <= MAX_UINT64
    ensures ParseSequence(JournalKey(other, n), id).Some? ==> other == id
  {
    ScanMeetsExactly(id, other, n);
    if HasPrefix(other, id + ['/']) {
      var key := JournalKey(other, n);
      var rest := key[|id| + 1..];
      assert rest[|other| - |id| - 1] == key[|other|] == '/';
    }
  }

  predicate SlashFree(id: string) {
    forall i | 0 <= i < |id| :: id[i] != '/'
  }

  /** Among slash-free IDs a scan is exact. */
  lemma SlashFreeScan(id: string, other: string, n: nat)
    requires n <= MAX_UINT64 && SlashFree(other)
    ensures HasPrefix(JournalKey(other, n), id + ['/']) <==> other == id
  {
    ScanMeetsExactly(id, other, n);
    assert (id + ['/'])[|id|] == '/';
  }
}
