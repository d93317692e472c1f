/**
 * Newline-delimited frames over a byte stream: the scanner that reassembles
 * them from buffer-sized fragments, and the writer it is meant to invert.
 */
module Ndjson {
  import opened Common

  type Frame = seq<byte>

  const NEWLINE: byte := 10
  const RETURN: byte := 13
  const MAX_FRAME_BYTES := 16 * 1024 * 1024

  datatype Outcome = Done | TooLarge | ReadFailed | InvalidLimit

  /** Asked after each delivery, with all frames delivered so far: whether to go on. */
  type Callback = seq<Frame> -> bool

  // ------------------------------------------------------------------- the reader

  datatype ReadResult = Delimited | BufferFull | EndOfFile | Failure

  function FirstNewline(s: seq<byte>): (i: nat)
    ensures i <= |s|
    ensures NEWLINE !in s[..i]
    ensures i < |s| ==> s[i] == NEWLINE
  {
    if s == [] || s[0] == NEWLINE then 0
    else
      var i := FirstNewline(s[1..]);
      assert s[..i + 1] == [s[0]] + s[1..][..i];
      i + 1
  }

  /** What reading up to a newline may return, whatever the buffer size and the chunks that arrive. */
  ghost predicate IsSlice(before: seq<byte>, after: seq<byte>, fails: bool, fragment: seq<byte>, result: ReadResult) {
    && before == fragment + after
    && match result
       case Delimited => fragment != [] && NEWLINE !in fragment[..|fragment| - 1] && fragment[|fragment| - 1] == NEWLINE
       case BufferFull => fragment != [] && NEWLINE !in fragment
       case EndOfFile => after == [] && NEWLINE !in fragment && !fails
       case Failure => after == [] && NEWLINE !in fragment && fails
  }

  class Reader {
    var remaining: seq<byte>
    const fails: bool
    const bufferSize: nat

    constructor (input: seq<byte>, fails: bool, bufferSize: nat)
      ensures remaining == input && this.fails == fails
    {
      remaining := input;
      this.fails := fails;
      this.bufferSize := bufferSize;
    }

    method ReadSlice() returns (fragment: seq<byte>, result: ReadResult)
      modifies this
      ensures IsSlice(old(remaining), remaining, fails, fragment, result)
    {
      var n := FirstNewline(remaining);
      var endSeenLate: bool := *;
      var size := if bufferSize < 16 then 16 else bufferSize;
      if n < |remaining| && n < size {
        fragment, result := remaining[..n + 1], Delimited;
        remaining := remaining[n + 1..];
      } else if |remaining| > size || (|remaining| == size && endSeenLate) {
        fragment, result := remaining[..size], BufferFull;
        remaining := remaining[size..];
      } else {
        fragment, result := remaining, if fails then Failure else EndOfFile;
        remaining := [];
      }
    }
  }

  // ------------------------------------------------------------------ the scanner

  function TrimReturn(raw: seq<byte>): seq<byte> {
    if raw != [] && raw[|raw| - 1] == RETURN then raw[..|raw| - 1] else raw
  }

  /** The frames of an input, split at its newlines, and how the scan ends. */
  ghost function Scan(input: seq<byte>, fails: bool, max: int, onLine: Callback, got: seq<Frame>): (seq<Frame>, Outcome)
    decreases |input|
  {
    var n := FirstNewline(input);
    if n > max then (got, TooLarge)
    else if n == |input| then
      if fails then (got, ReadFailed)
      else if n == 0 then (got, Done)
      else (got + [input], Done)
    else
      var line := TrimReturn(input[..n]);
      if line == [] then Scan(input[n + 1..], fails, max, onLine, got)
      else if onLine(got + [line]) then Scan(input[n + 1..], fails, max, onLine, got + [line])
      else (got + [line], Done)
  }

  lemma {:induction false} FirstNewlineAfter(clean: seq<byte>, rest: seq<byte>)
    requires NEWLINE !in clean
    ensures FirstNewline(clean + rest) == |clean| + FirstNewline(rest)
  {
    if clean != [] {
      assert (clean + rest)[1..] == clean[1..] + rest;
      FirstNewlineAfter(clean[1..], rest);
    } else {
      assert clean + rest == rest;
    }
  }

  lemma SplitAt(line: seq<byte>, rest: seq<byte>)
    requires NEWLINE !in line
    ensures FirstNewline(line + [NEWLINE] + rest) == |line|
    ensures (line + [NEWLINE] + rest)[..|line|] == line && (line + [NEWLINE] + rest)[|line| + 1..] == rest
  {
    assert line + [NEWLINE] + rest == line + ([NEWLINE] + rest);
    FirstNewlineAfter(line, [NEWLINE] + rest);
  }

  lemma ScanOverlong(line: seq<byte>, rest: seq<byte>, fails: bool, max: int, onLine: Callback, got: seq<Frame>)
    requires NEWLINE !in line && |line| > max
    ensures Scan(line + rest, fails, max, onLine, got) == (got, TooLarge)
  {
    FirstNewlineAfter(line, rest);
  }

  lemma ScanLast(line: seq<byte>, fails: bool, max: int, onLine: Callback, got: seq<Frame>)
    requires NEWLINE !in line && |line| <= max
    ensures Scan(line, fails, max, onLine, got) ==
            if fails then (got, ReadFailed) else if line == [] then (got, Done) else (got + [line], Done)
  {
    FirstNewlineAfter(line, []);
    assert line + [] == line;
  }

  /** The effect of one terminated line on the rest of the scan. */
  ghost function Deliver(line: Frame, rest: seq<byte>, fails: bool, max: int, onLine: Callback, got: seq<Frame>): (seq<Frame>, Outcome) {
    if line == [] then Scan(rest, fails, max, onLine, got)
    else if onLine(got + [line]) then Scan(rest, fails, max, onLine, got + [line])
    else (got + [line], Done)
  }

  lemma ScanTerminated(line: seq<byte>, rest: seq<byte>, fails: bool, max: int, onLine: Callback, got: seq<Frame>)
    requires NEWLINE !in line
    ensures Scan(line + [NEWLINE] + rest, fails, max, onLine, got) ==
            if |line| > max then (got, TooLarge) else Deliver(TrimReturn(line), rest, fails, max, onLine, got)
  {
    SplitAt(line, rest);
  }

  /** What the scan of the held bytes comes to, by how the last read ended. */
  lemma ScanHeld(held: seq<byte>, fragment: seq<byte>, rest: seq<byte>, result: ReadResult, fails: bool, max: int, onLine: Callback, got: seq<Frame>)
    requires NEWLINE !in held && 0 < max && IsSlice(fragment + rest, rest, fails, fragment, result)
    ensures var line := held + fragment;
            Scan(held + (fragment + rest), fails, max, onLine, got) ==
            if |line| > max + 1 || (|line| == max + 1 && line[|line| - 1] != NEWLINE) then (got, TooLarge)
            else if result.BufferFull? then Scan(line + rest, fails, max, onLine, got)
            else if result.Failure? then (got, ReadFailed)
            else if result.EndOfFile? then (if line == [] then (got, Done) else (got + [line], Done))
            else Deliver(TrimReturn(line[..|line| - 1]), rest, fails, max, onLine, got)
  {
    var line := held + fragment;
    assert held + (fragment + rest) == line + rest;
    if result.Delimited? {
      var raw := line[..|line| - 1];
      assert raw == held + fragment[..|fragment| - 1] && line == raw + [NEWLINE];
      ScanTerminated(raw, rest, fails, max, onLine, got);
    } else if |line| > max {
      ScanOverlong(line, rest, fails, max, onLine, got);
    } else if !result.BufferFull? {
      assert line + rest == line;
      ScanLast(line, fails, max, onLine, got);
    }
  }

  /** Removes a newline and one carriage return before it. */
  method StripEnding(line: seq<byte>) returns (r: seq<byte>)
    ensures r == if line != [] && line[|line| - 1] == NEWLINE then TrimReturn(line[..|line| - 1]) else line
  {
    r := line;
    if line != [] && line[|line| - 1] == NEWLINE {
      r := line[..|line| - 1];
      if r != [] && r[|r| - 1] == RETURN {
        r := r[..|r| - 1];
      }
    }
  }

  /** Scanning fragments gives what splitting the whole input gives. */
  method ScanWithLimit(reader: Reader, max: int, onLine: Callback) returns (frames: seq<Frame>, outcome: Outcome)
    modifies reader
    ensures max <= 0 ==> frames == [] && outcome == InvalidLimit && reader.remaining == old(reader.remaining)
    ensures max > 0 ==> (frames, outcome) == Scan(old(reader.remaining), reader.fails, max, onLine, [])
  {
    frames := [];
    if max <= 0 {
      return [], InvalidLimit;
    }
    var line: seq<byte> := [];
    ghost var expected := Scan(reader.remaining, reader.fails, max, onLine, []);
    assert line + reader.remaining == reader.remaining;
    while true
      invariant NEWLINE !in line
      invariant Scan(line + reader.remaining, reader.fails, max, onLine, frames) == expected
      decreases |reader.remaining|
    {
      ghost var held := line;
      var fragment, result := reader.ReadSlice();
      ScanHeld(held, fragment, reader.remaining, result, reader.fails, max, onLine, frames);
      line := line + fragment;
      if |line| > max + 1 || (|line| == max + 1 && line[|line| - 1] != NEWLINE) {
        return frames, TooLarge;
      }
      if result == BufferFull {
        continue;
      }
      if result == Failure {
        return frames, ReadFailed;
      }
      if line == [] && result == EndOfFile {
        return frames, Done;
      }
      line := StripEnding(line);
      if line != [] {
        frames := frames + [line];
        if !onLine(frames) {
          return frames, Done;
        }
      }
      if result == EndOfFile {
        return frames, Done;
      }
      line := [];
      assert line + reader.remaining == reader.remaining;
    }
  }

  // ------------------------------------------------------------------- the writer

  class Writer {
    var written: seq<byte>

    constructor ()
      ensures written == []
    {
      written := [];
    }

    method WriteFrame(frame: Frame) returns (outcome: Outcome)
      modifies this
      ensures outcome == if |frame| > MAX_FRAME_BYTES then TooLarge else Done
      ensures written == old(written) + if outcome == Done then Encoded([frame]) else []
    {
      if |frame| > MAX_FRAME_BYTES {
        return TooLarge;
      }
      written := written + frame;
      written := written + [NEWLINE];
      assert Encoded([frame]) == frame + [NEWLINE];
      return Done;
    }
  }

  function Encoded(frames: seq<Frame>): seq<byte> {
    if frames == [] then [] else frames[0] + [NEWLINE] + Encoded(frames[1..])
  }

  predicate IsFrame(frame: Frame, max: int) {
    frame != [] && NEWLINE !in frame && |frame| <= max
  }

  predicate AreFrames(frames: seq<Frame>, max: int) {
    forall i | 0 <= i < |frames| :: IsFrame(frames[i], max)
  }

  predicate EndsInReturn(frame: Frame) {
    frame != [] && frame[|frame| - 1] == RETURN
  }

  /** Written frames without a final carriage return, as a scan sees them. */
  function Trimmed(frames: seq<Frame>): seq<Frame> {
    if frames == [] then [] else Kept(frames[0]) + Trimmed(frames[1..])
  }

  function Kept(frame: Frame): seq<Frame> {
    if TrimReturn(frame) == [] then [] else [TrimReturn(frame)]
  }

  function Always(): Callback {
    got => true
  }

  /** Whatever the input, a scan delivers only well-formed frames. */
  lemma {:induction false} ScanDeliversFrames(input: seq<byte>, fails: bool, max: int, onLine: Callback, got: seq<Frame>)
    requires forall frame | frame in got :: IsFrame(frame, max)
    ensures forall frame | frame in Scan(input, fails, max, onLine, got).0 :: IsFrame(frame, max)
    decreases |input|
  {
    var n := FirstNewline(input);
    assert input[..|input|] == input;
    if n <= max && n < |input| {
      var line := TrimReturn(input[..n]);
      var more := if line == [] then got else got + [line];
      ScanDeliversFrames(input[n + 1..], fails, max, onLine, more);
    }
  }

  lemma {:induction false} ScanOfWritten(frames: seq<Frame>, max: int, got: seq<Frame>)
    requires 0 < max && AreFrames(frames, max)
    ensures Scan(Encoded(frames), false, max, Always(), got) == (got + Trimmed(frames), Done)
  {
    if frames == [] {
      assert got + [] == got;
    } else {
      var first, rest := frames[0], frames[1..];
      WrittenStep(first, Encoded(rest), max, got);
      ScanOfWritten(rest, max, got + Kept(first));
      Associate(got, Kept(first), Trimmed(rest));
    }
  }

  lemma Associate(a: seq<Frame>, b: seq<Frame>, c: seq<Frame>)
    ensures a + b + c == a + (b + c)
  {
  }

  lemma WrittenStep(frame: Frame, rest: seq<byte>, max: int, got: seq<Frame>)
    requires IsFrame(frame, max)
    ensures Scan(frame + [NEWLINE] + rest, false, max, Always(), got) == Scan(rest, false, max, Always(), got + Kept(frame))
  {
    ScanTerminated(frame, rest, false, max, Always(), got);
    assert got + [] == got;
  }

  lemma {:induction false} TrimmedShrinks(frames: seq<Frame>)
    ensures |Trimmed(frames)| <= |frames|
  {
    if frames != [] {
      TrimmedShrinks(frames[1..]);
    }
  }

  lemma {:induction false} TrimmedIsSame(frames: seq<Frame>)
    requires forall i | 0 <= i < |frames| :: frames[i] != []
    ensures Trimmed(frames) == frames <==> forall i | 0 <= i < |frames| :: !EndsInReturn(frames[i])
  {
    if frames != [] {
      var first, rest := frames[0], frames[1..];
      assert frames == [first] + rest;
      TrimmedIsSame(rest);
      TrimmedShrinks(rest);
      if TrimReturn(first) != [] {
        assert Trimmed(frames)[0] == TrimReturn(first) && Trimmed(frames)[1..] == Trimmed(rest);
      }
      assert EndsInReturn(first) <==> TrimReturn(first) != first;
      assert forall i | 0 < i < |frames| :: frames[i] == rest[i - 1];
      assert (forall i | 0 <= i < |frames| :: !EndsInReturn(frames[i])) <==>
             !EndsInReturn(first) && forall i | 0 <= i < |rest| :: !EndsInReturn(rest[i]);
    }
  }

  /** Scanning what was written gives back exactly the frames that do not end in a carriage return. */
  lemma RoundTripExactly(frames: seq<Frame>, max: int)
    requires 0 < max
    ensures Scan(Encoded(frames), false, max, Always(), []) == (frames, Done) <==>
            forall i | 0 <= i < |frames| :: IsFrame(frames[i], max) && !EndsInReturn(frames[i])
  {
    ScanDeliversFrames(Encoded(frames), false, max, Always(), []);
    if forall i | 0 <= i < |frames| :: IsFrame(frames[i], max) {
      ScanOfWritten(frames, max, []);
      TrimmedIsSame(frames);
      assert [] + Trimmed(frames) == Trimmed(frames);
    }
  }

  // --------------------------------------------------------------- any input at all

  /** One carriage return at the end is taken off, and only one. */
  lemma TrimReturnExactly(raw: seq<byte>)
    ensures TrimReturn(raw + [RETURN]) == raw
    ensures !EndsInReturn(raw) ==> TrimReturn(raw) == raw
  {
    assert (raw + [RETURN])[..|raw|] == raw;
  }

  predicate AreLines(lines: seq<seq<byte>>, max: int) {
    forall i | 0 <= i < |lines| :: NEWLINE !in lines[i] && |lines[i]| <= max
  }

  /** Terminated lines within the limit are delivered, trimmed, the empty ones skipped, and the scan goes on after them. */
  lemma {:induction false} ScanAfterLines(lines: seq<seq<byte>>, rest: seq<byte>, fails: bool, max: int, got: seq<Frame>)
    requires 0 < max && AreLines(lines, max)
    ensures Scan(Encoded(lines) + rest, fails, max, Always(), got) == Scan(rest, fails, max, Always(), got + Trimmed(lines))
  {
    if lines == [] {
      assert Encoded(lines) + rest == rest && got + [] == got;
    } else {
      var first, others := lines[0], lines[1..];
      JoinBytes(first + [NEWLINE], Encoded(others), rest);
      ScanTerminated(first, Encoded(others) + rest, fails, max, Always(), got);
      assert got + [] == got;
      ScanAfterLines(others, rest, fails, max, got + Kept(first));
      Associate(got, Kept(first), Trimmed(others));
    }
  }

  /**
   * How every scan ends. After lines within the limit comes a last stretch
   * without a newline. If it is longer than the limit, whatever follows it, the
   * scan reports that; otherwise, at the end of the input, it reports a failed
   * read, or delivers the stretch as it stands, unless it is empty.
   */
  lemma ScanEndsExactly(lines: seq<seq<byte>>, stretch: seq<byte>, more: seq<byte>, fails: bool, max: int)
    requires 0 < max && AreLines(lines, max) && NEWLINE !in stretch
    ensures |stretch| > max ==> Scan(Encoded(lines) + (stretch + more), fails, max, Always(), []) == (Trimmed(lines), TooLarge)
    ensures |stretch| <= max ==>
              Scan(Encoded(lines) + stretch, fails, max, Always(), []) ==
              if fails then (Trimmed(lines), ReadFailed)
              else (Trimmed(lines) + (if stretch == [] then [] else [stretch]), Done)
  {
    assert [] + Trimmed(lines) == Trimmed(lines);
    assert Trimmed(lines) + [] == Trimmed(lines);
    if |stretch| > max {
      ScanAfterLines(lines, stretch + more, fails, max, []);
      ScanOverlong(stretch, more, fails, max, Always(), Trimmed(lines));
    } else {
      ScanAfterLines(lines, stretch, fails, max, []);
      ScanLast(stretch, fails, max, Always(), Trimmed(lines));
    }
  }

  /** `some` are the frames of `all` from `got` on, cut after the first one the callback refuses. */
  ghost predicate CutAtRefusal(all: (seq<Frame>, Outcome), some: (seq<Frame>, Outcome), onLine: Callback, got: seq<Frame>) {
    && got <= some.0 <= all.0
    && (forall n | |got| < n < |some.0| :: onLine(some.0[..n]))
    && (some == all || (|got| < |some.0| && !onLine(some.0) && some.1 == Done))
  }

  lemma CutStartsEarlier(all: (seq<Frame>, Outcome), some: (seq<Frame>, Outcome), onLine: Callback, got: seq<Frame>, line: Frame)
    requires onLine(got + [line]) && CutAtRefusal(all, some, onLine, got + [line])
    ensures CutAtRefusal(all, some, onLine, got)
  {
    assert some.0[..|got| + 1] == got + [line];
  }

  lemma CutAtOnce(all: (seq<Frame>, Outcome), onLine: Callback, got: seq<Frame>, line: Frame)
    requires !onLine(got + [line]) && got + [line] <= all.0
    ensures CutAtRefusal(all, (got + [line], Done), onLine, got)
  {
  }

  lemma ScanStep(input: seq<byte>, fails: bool, max: int, onLine: Callback, got: seq<Frame>)
    ensures var n := FirstNewline(input);
            Scan(input, fails, max, onLine, got) ==
              if n > max then (got, TooLarge)
              else if n == |input| then ScanTail(input, fails, got)
              else Deliver(TrimReturn(input[..n]), input[n + 1..], fails, max, onLine, got)
  {
  }

  function ScanTail(stretch: seq<byte>, fails: bool, got: seq<Frame>): (seq<Frame>, Outcome) {
    if fails then (got, ReadFailed) else if stretch == [] then (got, Done) else (got + [stretch], Done)
  }

  /**
   * What a callback changes: the frames are those it would be given if it never
   * refused, cut after the first one it refuses; then the scan ends without an error.
   */
  lemma {:induction false} RefusalStopsScan(input: seq<byte>, fails: bool, max: int, onLine: Callback, got: seq<Frame>)
    ensures CutAtRefusal(Scan(input, fails, max, Always(), got), Scan(input, fails, max, onLine, got), onLine, got)
    decreases |input|
  {
    var n := FirstNewline(input);
    ScanStep(input, fails, max, Always(), got);
    ScanStep(input, fails, max, onLine, got);
    if n <= max && n < |input| {
      var line := TrimReturn(input[..n]);
      var more := if line == [] then got else got + [line];
      RefusalStopsScan(input[n + 1..], fails, max, onLine, more);
      var all, some := Scan(input[n + 1..], fails, max, Always(), more), Scan(input[n + 1..], fails, max, onLine, more);
      if line != [] {
        if onLine(more) {
          CutStartsEarlier(all, some, onLine, got, line);
        } else {
          CutAtOnce(all, onLine, got, line);
        }
      }
    }
  }

  // ----------------------------------------------------------- writer and scanner

  lemma {:induction false} EncodedSnoc(frames: seq<Frame>, frame: Frame)
    ensures Encoded(frames + [frame]) == Encoded(frames) + Encoded([frame])
  {
    if frames == [] {
      assert [] + [frame] == [frame];
    } else {
      assert (frames + [frame])[1..] == frames[1..] + [frame];
      EncodedSnoc(frames[1..], frame);
      JoinBytes(frames[0] + [NEWLINE], Encoded(frames[1..]), Encoded([frame]));
    }
  }

  lemma JoinBytes(a: seq<byte>, b: seq<byte>, c: seq<byte>)
    ensures a + (b + c) == a + b + c
  {
  }

  /** Writes frames until one is too large; the ones before it are on the wire in order. */
  method WriteAll(w: Writer, frames: seq<Frame>) returns (outcome: Outcome, ghost n: nat)
    modifies w
    ensures n <= |frames| && w.written == old(w.written) + Encoded(frames[..n])
    ensures forall i | 0 <= i < n :: |frames[i]| <= MAX_FRAME_BYTES
    ensures if n == |frames| then outcome == Done else outcome == TooLarge && |frames[n]| > MAX_FRAME_BYTES
  {
    n := 0;
    assert w.written == old(w.written) + Encoded(frames[..0]);
    for i := 0 to |frames|
      invariant n == i && w.written == old(w.written) + Encoded(frames[..i])
      invariant forall k | 0 <= k < i :: |frames[k]| <= MAX_FRAME_BYTES
    {
      outcome := w.WriteFrame(frames[i]);
      if outcome == TooLarge {
        return;
      }
      EncodedSnoc(frames[..i], frames[i]);
      assert frames[..i + 1] == frames[..i] + [frames[i]];
      JoinBytes(old(w.written), Encoded(frames[..i]), Encoded([frames[i]]));
      n := i + 1;
    }
    return Done, |frames|;
  }

  /** Frames pumped through a writer and scanned at the other end come back exactly when each survives. */
  method Transfer(frames: seq<Frame>, bufferSize: nat) returns (got: seq<Frame>, outcome: Outcome)
    requires forall i | 0 <= i < |frames| :: |frames[i]| <= MAX_FRAME_BYTES
    ensures (got, outcome) == (frames, Done) <==>
            forall i | 0 <= i < |frames| :: IsFrame(frames[i], MAX_FRAME_BYTES) && !EndsInReturn(frames[i])
  {
    var w := new Writer();
    ghost var n;
    outcome, n := WriteAll(w, frames);
    assert frames[..n] == frames && [] + Encoded(frames) == Encoded(frames);
    var reader := new Reader(w.written, false, bufferSize);
    got, outcome := ScanWithLimit(reader, MAX_FRAME_BYTES, Always());
    RoundTripExactly(frames, MAX_FRAME_BYTES);
  }
}
