/** The JSONL reader: lines of any length read through a buffer of fixed size. */
module Jsonl {

  newtype byte = b: int | 0 <= b < 256

  const NEWLINE: byte := 10
  const RETURN: byte := 13

  datatype Line = Line(data: seq<byte>, bytesRead: nat, tooLong: bool)

  datatype Status = Delimited | BufferFull | EndOfFile

  /** `bufio.Reader.ReadSlice` for a newline, over a source that reports its end by an empty read:
      what it returns, what is left, and how it stopped. */
  datatype Slice = Slice(part: seq<byte>, rest: seq<byte>, status: Status)

  /** The index of the first newline, or the length. */
  function FirstNewline(s: seq<byte>): (n: nat)
    ensures n <= |s|
    ensures n < |s| ==> s[n] == NEWLINE
    ensures forall i :: 0 <= i < n ==> s[i] != NEWLINE
  {
    if s == [] || s[0] == NEWLINE then 0 else 1 + FirstNewline(s[1..])
  }

  function ReadSlice(s: seq<byte>, bufferSize: nat): Slice {
    var n := FirstNewline(s);
    if n < |s| && n < bufferSize then Slice(s[..n + 1], s[n + 1..], Delimited)
    else if |s| >= bufferSize then Slice(s[..bufferSize], s[bufferSize..], BufferFull)
    else Slice(s, [], EndOfFile)
  }

  function TrimOne(s: seq<byte>, b: byte): seq<byte> {
    if s != [] && s[|s| - 1] == b then s[..|s| - 1] else s
  }

  function TrimLine(s: seq<byte>): seq<byte> {
    TrimOne(TrimOne(s, NEWLINE), RETURN)
  }

  /** The line for the raw bytes of one segment, its newline included. */
  function MakeLine(raw: seq<byte>, maxLineBytes: int): Line {
    if maxLineBytes > 0 && |raw| > maxLineBytes then Line([], |raw|, true)
    else Line(TrimLine(raw), |raw|, false)
  }

  /** `n` bytes fill a buffer of this size a whole number of times. */
  predicate WholeBuffers(n: nat, bufferSize: nat)
    requires bufferSize > 0
  {
    n == 0 || (n >= bufferSize && WholeBuffers(n - bufferSize, bufferSize))
  }

  datatype Read = Got(line: Line, rest: seq<byte>) | Finished

  /** What one call of Next gives on the bytes still unread. */
  function NextOf(s: seq<byte>, bufferSize: nat, maxLineBytes: int): Read
    requires bufferSize > 0
  {
    var n := FirstNewline(s);
    if n < |s| then Got(MakeLine(s[..n + 1], maxLineBytes), s[n + 1..])
    else if WholeBuffers(|s|, bufferSize) then Finished
    else Got(MakeLine(s, maxLineBytes), [])
  }

  // ---- What a line is, told by its bytes ---------------------------------------------------

  predicate EndsIn(s: seq<byte>, b: byte) {
    s != [] && s[|s| - 1] == b
  }

  /** `data` is `raw` without the newline (10) it ends in, if any, and without the one carriage return (13)
      that then ends it, if any. */
  predicate Stripped(data: seq<byte>, raw: seq<byte>) {
    var nl: seq<byte> := if EndsIn(raw, 10) then [10] else [];
    var cr: seq<byte> := if EndsIn(raw[..|raw| - |nl|], 13) then [13] else [];
    raw == data + cr + nl
  }

  /** What is reported of the bytes `raw` of one line: their number, and either the stripped bytes or, when
      there is a limit and they exceed it, only that. */
  predicate Reports(line: Line, raw: seq<byte>, maxLineBytes: int) {
    && line.bytesRead == |raw|
    && (line.tooLong <==> maxLineBytes > 0 && |raw| > maxLineBytes)
    && (if line.tooLong then line.data == [] else Stripped(line.data, raw))
  }

  lemma MakeLineMeans(raw: seq<byte>, maxLineBytes: int)
    ensures Reports(MakeLine(raw, maxLineBytes), raw, maxLineBytes)
  {
  }

  lemma {:induction false} WholeBuffersMeans(n: nat, bufferSize: nat)
    requires bufferSize > 0
    ensures WholeBuffers(n, bufferSize) <==> n % bufferSize == 0
  {
    if n >= bufferSize {
      WholeBuffersMeans(n - bufferSize, bufferSize);
      OneBufferLess(n, bufferSize);
    } else if n > 0 {
      assert n % bufferSize == n;
    }
  }

  lemma AtLeastOnce(n: int, bufferSize: nat)
    ensures n >= 1 ==> n * bufferSize >= bufferSize
  {
  }

  lemma OneBufferLess(n: nat, bufferSize: nat)
    requires 0 < bufferSize <= n
    ensures (n - bufferSize) % bufferSize == n % bufferSize
  {
    var p, q := (n - bufferSize) / bufferSize, n / bufferSize;
    var d := q - p;
    assert (p + d) * bufferSize == p * bufferSize + d * bufferSize;
    assert d * bufferSize - bufferSize == (d - 1) * bufferSize;
    AtLeastOnce(d - 1, bufferSize);
    AtLeastOnce(1 - d, bufferSize);
    assert (1 - d) * bufferSize == -((d - 1) * bufferSize);
  }

  /** One call on the bytes `s`: it ends the stream iff there is no newline and the bytes fill the buffer a
      whole number of times (as no bytes do); otherwise it takes the bytes up to and including the first
      newline, or all of them if there is none, and reports that line. */
  ghost predicate TakesLine(s: seq<byte>, rest: seq<byte>, line: Line, eof: bool, bufferSize: nat, maxLineBytes: int)
    requires bufferSize > 0
  {
    && (eof <==> 10 !in s && |s| % bufferSize == 0)
    && (eof ==> rest == [])
    && (!eof ==> exists raw :: raw != [] && s == raw + rest && 10 !in raw[..|raw| - 1]
                               && (EndsIn(raw, 10) || rest == []) && Reports(line, raw, maxLineBytes))
  }

  lemma TakesLineBy(s: seq<byte>, raw: seq<byte>, rest: seq<byte>, line: Line, bufferSize: nat, maxLineBytes: int)
    requires bufferSize > 0 && (10 in s || |s| % bufferSize != 0)
    requires raw != [] && s == raw + rest && 10 !in raw[..|raw| - 1] && (EndsIn(raw, 10) || rest == [])
    requires line == MakeLine(raw, maxLineBytes)
    ensures TakesLine(s, rest, line, false, bufferSize, maxLineBytes)
  {
    MakeLineMeans(raw, maxLineBytes);
  }

  lemma NextMeans(s: seq<byte>, rest: seq<byte>, line: Line, eof: bool, bufferSize: nat, maxLineBytes: int)
    requires bufferSize > 0
    requires NextOf(s, bufferSize, maxLineBytes) == if eof then Finished else Got(line, rest)
    requires eof ==> rest == []
    ensures TakesLine(s, rest, line, eof, bufferSize, maxLineBytes)
  {
    var n := FirstNewline(s);
    WholeBuffersMeans(|s|, bufferSize);
    if n < |s| {
      assert s[n] == 10 && s[..n + 1][..n] == s[..n];
      TakesLineBy(s, s[..n + 1], s[n + 1..], MakeLine(s[..n + 1], maxLineBytes), bufferSize, maxLineBytes);
    } else if !WholeBuffers(|s|, bufferSize) {
      assert s + [] == s;
      TakesLineBy(s, s, [], MakeLine(s, maxLineBytes), bufferSize, maxLineBytes);
    }
  }

  class Reader {
    const bufferSize: nat
    const maxLineBytes: int
    var unread: seq<byte>

    ghost predicate Valid() {
      bufferSize > 0
    }

    constructor (stream: seq<byte>, bufferSize: nat, maxLineBytes: int)
      requires bufferSize > 0
      ensures Valid() && unread == stream && this.bufferSize == bufferSize && this.maxLineBytes == maxLineBytes
    {
      this.unread, this.bufferSize, this.maxLineBytes := stream, bufferSize, maxLineBytes;
    }

    method ReadSliceNewline() returns (part: seq<byte>, status: Status)
      modifies this
      ensures Slice(part, unread, status) == ReadSlice(old(unread), bufferSize)
    {
      var slice := ReadSlice(unread, bufferSize);
      part, status, unread := slice.part, slice.status, slice.rest;
    }

    method Next() returns (line: Line, eof: bool)
      requires Valid()
      modifies this
      ensures eof <==> NextOf(old(unread), bufferSize, maxLineBytes).Finished?
      ensures eof ==> unread == []
      ensures !eof ==> NextOf(old(unread), bufferSize, maxLineBytes) == Got(line, unread)
      ensures TakesLine(old(unread), unread, line, eof, bufferSize, maxLineBytes)
    {
      ghost var stream := unread;
      ghost var taken: seq<byte> := [];
      var buf: seq<byte> := [];
      var bytesRead := 0;
      var tooLong := false;
      while true
        invariant Reading(stream, taken, unread, bufferSize)
        invariant bytesRead == |taken| && Holding(buf, tooLong, taken)
        decreases |unread|
      {
        ghost var before := unread;
        var part, status := ReadSliceNewline();
        ghost var raw := taken + part;
        SliceStep(stream, taken, before, bufferSize, maxLineBytes);
        bytesRead := bytesRead + |part|;
        if status == EndOfFile && |part| == 0 {
          line, eof := Line([], 0, false), true;
          break;
        }
        buf, tooLong := Accumulate(buf, tooLong, part, taken);
        taken := raw;
        if status == BufferFull {
          continue;
        }
        line, eof := if tooLong then Line([], bytesRead, true) else Line(TrimLine(buf), bytesRead, false), false;
        break;
      }
      NextMeans(stream, unread, line, eof, bufferSize, maxLineBytes);
    }

    /** What the loop keeps of the bytes taken so far: all of them, or that they are too many. */
    ghost predicate Holding(buf: seq<byte>, tooLong: bool, taken: seq<byte>) {
      && (tooLong <==> maxLineBytes > 0 && |taken| > maxLineBytes)
      && (!tooLong ==> buf == taken)
    }

    method Accumulate(buf: seq<byte>, tooLong: bool, part: seq<byte>, ghost taken: seq<byte>)
      returns (buf': seq<byte>, tooLong': bool)
      requires Holding(buf, tooLong, taken)
      ensures Holding(buf', tooLong', taken + part)
    {
      buf', tooLong' := buf, tooLong;
      if !tooLong {
        if maxLineBytes > 0 && |buf| + |part| > maxLineBytes {
          tooLong' := true;
        } else {
          buf' := buf + part;
        }
      }
    }
  }

  lemma FirstNewlineIs(s: seq<byte>, n: nat)
    requires n <= |s| && (n < |s| ==> s[n] == NEWLINE)
    requires forall i :: 0 <= i < n ==> s[i] != NEWLINE
    ensures FirstNewline(s) == n
  {
  }

  /** With no newline among the bytes already taken, the first one is where the rest has it. */
  lemma SplitNewline(stream: seq<byte>, taken: seq<byte>, rest: seq<byte>)
    requires taken + rest == stream && NEWLINE !in taken
    ensures FirstNewline(stream) == |taken| + FirstNewline(rest)
  {
    FirstNewlineIs(stream, |taken| + FirstNewline(rest));
  }

  /** Whole buffers without a newline have been taken off the stream. */
  ghost predicate Reading(stream: seq<byte>, taken: seq<byte>, rest: seq<byte>, bufferSize: nat)
    requires bufferSize > 0
  {
    && taken + rest == stream && NEWLINE !in taken
    && (WholeBuffers(|stream|, bufferSize) <==> WholeBuffers(|rest|, bufferSize))
  }

  /** One more slice: either it fills the buffer and reading goes on, or it decides the call. */
  lemma SliceStep(stream: seq<byte>, taken: seq<byte>, rest: seq<byte>, bufferSize: nat, maxLineBytes: int)
    requires bufferSize > 0 && Reading(stream, taken, rest, bufferSize)
    ensures var slice, next := ReadSlice(rest, bufferSize), NextOf(stream, bufferSize, maxLineBytes);
            match slice.status
            case BufferFull => Reading(stream, taken + slice.part, slice.rest, bufferSize) && |slice.rest| < |rest|
            case Delimited => next == Got(MakeLine(taken + slice.part, maxLineBytes), slice.rest)
            case EndOfFile =>
              if slice.part == [] then next == Finished
              else next == Got(MakeLine(taken + slice.part, maxLineBytes), slice.rest)
  {
    SplitNewline(stream, taken, rest);
    var slice := ReadSlice(rest, bufferSize);
    var raw := taken + slice.part;
    assert raw + slice.rest == stream;
    assert stream[..|raw|] == raw && stream[|raw|..] == slice.rest;
    if slice.status == BufferFull {
      assert forall b :: b in slice.part ==> b != NEWLINE;
    }
  }

  // ---- The whole stream -------------------------------------------------------------------

  /** The stream cut after every newline; what follows the last one is a segment of its own. */
  function Segments(s: seq<byte>): seq<seq<byte>> {
    var n := FirstNewline(s);
    if s == [] then []
    else if n < |s| then [s[..n + 1]] + Segments(s[n + 1..])
    else [s]
  }

  function Flatten(parts: seq<seq<byte>>): seq<byte> {
    if parts == [] then [] else parts[0] + Flatten(parts[1..])
  }

  predicate Terminated(segment: seq<byte>) {
    EndsIn(segment, 10) && 10 !in segment[..|segment| - 1]
  }

  /** A cut of a stream into lines: each but the last ends in its only newline, and the last does
      too or is non-empty without any. */
  ghost predicate IsLineCut(parts: seq<seq<byte>>, s: seq<byte>) {
    && Flatten(parts) == s
    && (forall i :: 0 <= i < |parts| - 1 ==> Terminated(parts[i]))
    && (parts != [] ==> Terminated(parts[|parts| - 1])
                        || (parts[|parts| - 1] != [] && 10 !in parts[|parts| - 1]))
  }

  lemma {:induction false} SegmentsCut(s: seq<byte>)
    ensures IsLineCut(Segments(s), s)
    decreases |s|
  {
    if s != [] {
      var n := FirstNewline(s);
      var parts := Segments(s);
      if n < |s| {
        SegmentsCut(s[n + 1..]);
        var rest := Segments(s[n + 1..]);
        assert parts[1..] == rest;
        assert s == s[..n + 1] + s[n + 1..];
        assert s[..n + 1][..n] == s[..n];
        forall i | 0 <= i < |parts| - 1 ensures Terminated(parts[i]) {
          if i > 0 { assert parts[i] == rest[i - 1]; }
        }
        if rest != [] { assert parts[|parts| - 1] == rest[|rest| - 1]; }
      } else {
        assert parts[1..] == [];
        assert s + [] == s;
      }
    }
  }

  /** There is only one such cut, so `Segments` is the newline split. */
  lemma {:induction false} LineCutUnique(parts: seq<seq<byte>>, s: seq<byte>)
    requires IsLineCut(parts, s)
    ensures parts == Segments(s)
    decreases |parts|
  {
    if parts != [] {
      var head, rest := parts[0], parts[1..];
      assert s == head + Flatten(rest);
      var n := FirstNewline(s);
      if Terminated(head) {
        assert s[|head| - 1] == NEWLINE;
        forall i | 0 <= i < |head| - 1 ensures s[i] != NEWLINE {
          assert head[..|head| - 1][i] == s[i];
        }
        FirstNewlineIs(s, |head| - 1);
        assert s[..n + 1] == head && s[n + 1..] == Flatten(rest);
        forall i | 0 <= i < |rest| - 1 ensures Terminated(rest[i]) { assert rest[i] == parts[i + 1]; }
        if rest != [] { assert rest[|rest| - 1] == parts[|parts| - 1]; }
        LineCutUnique(rest, Flatten(rest));
        assert parts == [head] + rest;
      } else {
        assert |parts| == 1 && rest == [];
        assert s == head;
        FirstNewlineIs(s, |s|);
      }
    }
  }

  /** Calling Next until it reports the end. */
  function ReadAll(s: seq<byte>, bufferSize: nat, maxLineBytes: int): seq<Line>
    requires bufferSize > 0
    decreases |s|
  {
    match NextOf(s, bufferSize, maxLineBytes)
    case Finished => []
    case Got(line, rest) =>
      NextShrinks(s, bufferSize, maxLineBytes);
      [line] + ReadAll(rest, bufferSize, maxLineBytes)
  }

  lemma NextShrinks(s: seq<byte>, bufferSize: nat, maxLineBytes: int)
    requires bufferSize > 0
    ensures var r := NextOf(s, bufferSize, maxLineBytes); r.Got? ==> |r.rest| < |s|
  {
  }

  function LinesOf(segments: seq<seq<byte>>, maxLineBytes: int): seq<Line> {
    if segments == [] then [] else [MakeLine(segments[0], maxLineBytes)] + LinesOf(segments[1..], maxLineBytes)
  }

  /** What follows the last newline. */
  function Tail(s: seq<byte>): seq<byte>
    decreases |s|
  {
    var n := FirstNewline(s);
    if n < |s| then Tail(s[n + 1..]) else s
  }

  /** The unterminated end of the stream fills the buffer a whole number of times. */
  predicate TailLost(s: seq<byte>, bufferSize: nat)
    requires bufferSize > 0
  {
    Tail(s) != [] && WholeBuffers(|Tail(s)|, bufferSize)
  }

  lemma {:induction false} ReadAllIsSplit(s: seq<byte>, bufferSize: nat, maxLineBytes: int)
    requires bufferSize > 0
    ensures TailLost(s, bufferSize) ==> Segments(s) != [] && Segments(s)[|Segments(s)| - 1] == Tail(s)
    ensures ReadAll(s, bufferSize, maxLineBytes)
            == LinesOf(if TailLost(s, bufferSize) then Segments(s)[..|Segments(s)| - 1] else Segments(s), maxLineBytes)
    decreases |s|
  {
    var n := FirstNewline(s);
    if n < |s| {
      var rest := s[n + 1..];
      ReadAllIsSplit(rest, bufferSize, maxLineBytes);
      var parts := Segments(s);
      assert parts[1..] == Segments(rest);
      if TailLost(s, bufferSize) {
        var front := parts[..|parts| - 1];
        assert front[0] == parts[0] && front[1..] == Segments(rest)[..|Segments(rest)| - 1];
      }
    } else if s != [] {
      assert Segments(s) == [s] && [s][1..] == [] && [s][..0] == [];
    }
  }

  /** Reading to the end gives exactly the lines of the newline split, whatever the buffer size and
      the limit, if and only if the unterminated tail is not a positive multiple of the buffer size;
      in that case the tail, and nothing else, is dropped. */
  lemma ReaderIsNewlineSplit(s: seq<byte>, bufferSize: nat, maxLineBytes: int)
    requires bufferSize > 0
    ensures ReadAll(s, bufferSize, maxLineBytes) == LinesOf(Segments(s), maxLineBytes) <==> !TailLost(s, bufferSize)
    ensures TailLost(s, bufferSize) ==>
              ReadAll(s, bufferSize, maxLineBytes) == LinesOf(Segments(s)[..|Segments(s)| - 1], maxLineBytes)
  {
    ReadAllIsSplit(s, bufferSize, maxLineBytes);
    LinesOfLength(Segments(s), maxLineBytes);
    if TailLost(s, bufferSize) {
      LinesOfLength(Segments(s)[..|Segments(s)| - 1], maxLineBytes);
    }
  }

  /** What reading to the end reports, told by the bytes alone: for a stream cut into its lines, one report
      for each line in turn, except for a last one without newline whose bytes fill the buffer a whole
      number of times. */
  lemma LinesReported(s: seq<byte>, parts: seq<seq<byte>>, bufferSize: nat, maxLineBytes: int)
    requires bufferSize > 0 && IsLineCut(parts, s)
    ensures var lines := ReadAll(s, bufferSize, maxLineBytes);
            var lost := parts != [] && 10 !in parts[|parts| - 1] && |parts[|parts| - 1]| % bufferSize == 0;
            && |lines| == |parts| - (if lost then 1 else 0)
            && forall k :: 0 <= k < |lines| ==> Reports(lines[k], parts[k], maxLineBytes)
  {
    LineCutUnique(parts, s);
    ReadAllIsSplit(s, bufferSize, maxLineBytes);
    TailMeans(s);
    WholeBuffersMeans(|Tail(s)|, bufferSize);
    var read := if TailLost(s, bufferSize) then parts[..|parts| - 1] else parts;
    LinesOfLength(read, maxLineBytes);
    forall k | 0 <= k < |read| ensures Reports(MakeLine(read[k], maxLineBytes), parts[k], maxLineBytes) {
      MakeLineMeans(parts[k], maxLineBytes);
    }
  }

  lemma {:induction false} TailMeans(s: seq<byte>)
    ensures var parts := Segments(s);
            Tail(s) == if parts != [] && 10 !in parts[|parts| - 1] then parts[|parts| - 1] else []
    decreases |s|
  {
    var n := FirstNewline(s);
    if n < |s| {
      var rest := s[n + 1..];
      TailMeans(rest);
      assert Segments(s)[1..] == Segments(rest);
      if Segments(rest) == [] {
        assert s[..n + 1][n] == 10;
      } else {
        assert Segments(s)[|Segments(s)| - 1] == Segments(rest)[|Segments(rest)| - 1];
      }
    }
  }

  /** The drop, concretely: a buffer's worth of letters without a newline is one line, and none is read. */
  lemma TailLostExample(bufferSize: nat, maxLineBytes: int)
    requires bufferSize > 0
    ensures var s: seq<byte> := seq(bufferSize, _ => 65);
            TailLost(s, bufferSize) && ReadAll(s, bufferSize, maxLineBytes) == [] && Segments(s) == [s]
  {
    var s: seq<byte> := seq(bufferSize, _ => 65);
    FirstNewlineIs(s, |s|);
    assert WholeBuffers(0, bufferSize) && WholeBuffers(|s|, bufferSize);
  }

  lemma {:induction false} LinesOfLength(segments: seq<seq<byte>>, maxLineBytes: int)
    ensures |LinesOf(segments, maxLineBytes)| == |segments|
    ensures forall i :: 0 <= i < |segments| ==> LinesOf(segments, maxLineBytes)[i] == MakeLine(segments[i], maxLineBytes)
  {
    if segments != [] {
      LinesOfLength(segments[1..], maxLineBytes);
    }
  }

  function TotalRead(lines: seq<Line>): nat {
    if lines == [] then 0 else lines[0].bytesRead + TotalRead(lines[1..])
  }

  lemma {:induction false} TotalOfLines(segments: seq<seq<byte>>, maxLineBytes: int)
    ensures TotalRead(LinesOf(segments, maxLineBytes)) == |Flatten(segments)|
  {
    if segments != [] {
      TotalOfLines(segments[1..], maxLineBytes);
    }
  }

  /** The bytes reported sum to the length of the stream, short of a lost tail. */
  lemma {:induction false} BytesReadAddUp(s: seq<byte>, bufferSize: nat, maxLineBytes: int)
    requires bufferSize > 0
    ensures TotalRead(ReadAll(s, bufferSize, maxLineBytes))
            == |s| - if TailLost(s, bufferSize) then |Tail(s)| else 0
  {
    ReadAllIsSplit(s, bufferSize, maxLineBytes);
    SegmentsCut(s);
    var parts := Segments(s);
    if TailLost(s, bufferSize) {
      var front := parts[..|parts| - 1];
      assert parts == front + [Tail(s)];
      FlattenSnoc(front, Tail(s));
      TotalOfLines(front, maxLineBytes);
    } else {
      TotalOfLines(parts, maxLineBytes);
    }
  }

  lemma {:induction false} FlattenSnoc(parts: seq<seq<byte>>, last: seq<byte>)
    ensures Flatten(parts + [last]) == Flatten(parts) + last
  {
    if parts != [] {
      FlattenSnoc(parts[1..], last);
      assert (parts + [last])[1..] == parts[1..] + [last];
    } else {
      assert ([] + [last])[1..] == [];
      assert last + [] == last;
    }
  }
}
