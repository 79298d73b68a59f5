// readFrameLine of mcp/main.go: bounded reading of newline-delimited frames, however the buffered
// reader cuts the input into chunks.

module FrameReader {
  import opened ByteSeqs
  import opened ByteText
  import opened JsonGrammar

  const MAX_FRAME_BYTES: nat := 131072

  datatype ReadError = NoError | BufferFull | EndOfInput

  datatype FrameRead = FrameRead(line: Bytes, oversize: bool, error: ReadError)

  // ---------------------------------------------------------------- what a frame is

  // The first line with its newline, or everything when there is none.
  function FirstLine(s: Bytes): Bytes {
    var n := IndexOf(s, LF);
    if n < |s| then s[..n + 1] else s
  }

  function TrimFrameDelimiter(line: Bytes): Bytes {
    if line == [] || line[|line| - 1] != LF then line
    else
      var body := line[..|line| - 1];
      if body != [] && body[|body| - 1] == CR then body[..|body| - 1] else body
  }

  function FrameOf(s: Bytes): FrameRead {
    var body := TrimFrameDelimiter(FirstLine(s));
    var error := if LF in s then NoError else EndOfInput;
    if |body| > MAX_FRAME_BYTES then FrameRead([], true, error) else FrameRead(body, false, error)
  }

  // ---------------------------------------------------------------- reading

  class Input {
    var rest: Bytes

    constructor (s: Bytes)
      ensures rest == s
    {
      rest := s;
    }

    // bufio.Reader.ReadSlice for a newline, with room for `limit` bytes in the buffer.
    method ReadSlice(limit: nat) returns (chunk: Bytes, error: ReadError)
      requires limit > 0
      modifies this
      ensures old(rest) == chunk + rest
      ensures error.NoError? ==> LF in old(rest) && chunk == FirstLine(old(rest))
      ensures error.BufferFull? ==> |chunk| == limit && LF !in chunk
      ensures error.EndOfInput? ==> LF !in chunk && rest == []
    {
      var n := IndexOf(rest, LF);
      if n < |rest| && n < limit {
        chunk, error := rest[..n + 1], NoError;
      } else if limit <= |rest| {
        chunk, error := rest[..limit], BufferFull;
      } else {
        chunk, error := rest, EndOfInput;
      }
      rest := rest[|chunk|..];
    }
  }

  lemma {:induction false} IndexAfterChunk(chunk: Bytes, rest: Bytes)
    requires LF !in chunk
    ensures IndexOf(chunk + rest, LF) == |chunk| + IndexOf(rest, LF)
  {
    if chunk == [] {
      assert chunk + rest == rest;
    } else {
      IndexAfterChunk(chunk[1..], rest);
      assert (chunk + rest)[1..] == chunk[1..] + rest;
    }
  }

  lemma LineAfterChunk(chunk: Bytes, rest: Bytes)
    requires LF !in chunk
    ensures FirstLine(chunk + rest) == chunk + FirstLine(rest)
    ensures LF in chunk + rest <==> LF in rest
  {
    IndexAfterChunk(chunk, rest);
    hide IndexOf;
    var n := IndexOf(rest, LF);
    if n < |rest| {
      assert (chunk + rest)[..|chunk| + n + 1] == chunk + rest[..n + 1];
    }
  }

  // The chunks read so far are a prefix of the line, and all of it once the reader stops for
  // another reason than its buffer.
  lemma ChunkExtends(all: Bytes, seen: Bytes, chunk: Bytes, rest: Bytes, error: ReadError)
    requires all == seen + (chunk + rest) && LF !in seen
    requires error.NoError? ==> LF in chunk + rest && chunk == FirstLine(chunk + rest)
    requires !error.NoError? ==> LF !in chunk
    requires error.EndOfInput? ==> rest == []
    ensures all == seen + chunk + rest
    ensures error.BufferFull? ==> LF !in seen + chunk
    ensures !error.BufferFull? ==>
              seen + chunk == FirstLine(all) && error == if LF in all then NoError else EndOfInput
  {
    LineAfterChunk(seen, chunk + rest);
    if error.EndOfInput? {
      assert chunk + rest == chunk;
      LineAfterChunk(chunk, []);
    }
  }

  // The buffer's room is arbitrary at every chunk. `peak` is the most bytes ever retained.
  method ReadFrameLine(input: Input) returns (frame: FrameRead, ghost peak: nat)
    modifies input
    ensures frame == FrameOf(old(input.rest))
    ensures old(input.rest) == FirstLine(old(input.rest)) + input.rest
    ensures peak <= 131074
  {
    hide FirstLine, IndexOf;
    ghost var all, seen: Bytes := input.rest, [];
    var line: Bytes, oversize := [], false;
    peak := 0;
    while true
      invariant all == seen + input.rest && LF !in seen
      invariant oversize <==> |seen| > MAX_FRAME_BYTES + 2
      invariant line == if oversize then [] else seen
      invariant |line| <= peak <= MAX_FRAME_BYTES + 2
      decreases |input.rest|
    {
      var limit: nat :| limit > 0;
      var chunk, error := input.ReadSlice(limit);
      ChunkExtends(all, seen, chunk, input.rest, error);
      if !oversize {
        if |line| + |chunk| > MAX_FRAME_BYTES + 2 {
          oversize, line := true, [];
        } else {
          line := line + chunk;
        }
      }
      peak := if |line| > peak then |line| else peak;
      seen := seen + chunk;
      if error.BufferFull? {
        continue;
      }
      if !oversize {
        line := TrimFrameDelimiter(line);
        if |line| > MAX_FRAME_BYTES {
          line, oversize := [], true;
        }
      }
      return FrameRead(line, oversize, error), peak;
    }
  }

  // ---------------------------------------------------------------- a whole input

  // Frame after frame until the input ends.
  function Frames(s: Bytes): seq<FrameRead>
    decreases |s|
  {
    if LF !in s then [FrameOf(s)] else [FrameOf(s)] + Frames(s[|FirstLine(s)|..])
  }

  lemma LineEndsHere(s: Bytes)
    ensures if LF in s then |FirstLine(s)| > 0 else FirstLine(s) == s
  {
  }

  lemma FramesNext(s: Bytes, rest: Bytes)
    requires s == FirstLine(s) + rest
    ensures Frames(s) == [FrameOf(s)] + if FrameOf(s).error.EndOfInput? then [] else Frames(rest)
    ensures if FrameOf(s).error.EndOfInput? then rest == [] else |rest| < |s|
  {
    LineEndsHere(s);
    hide TrimFrameDelimiter, FirstLine;
    assert s[|FirstLine(s)|..] == rest;
  }

  method ReadFrames(input: Input) returns (frames: seq<FrameRead>)
    modifies input
    ensures frames == Frames(old(input.rest)) && input.rest == []
  {
    frames := [];
    ghost var all := input.rest;
    while true
      invariant Frames(all) == frames + Frames(input.rest)
      decreases |input.rest|
    {
      ghost var before := input.rest;
      var frame, _ := ReadFrameLine(input);
      FramesNext(before, input.rest);
      hide Frames, FrameOf, FirstLine;
      frames := frames + [frame];
      if frame.error.EndOfInput? {
        return;
      }
    }
  }

  // A line without its carriage return.
  function Line(s: Bytes): Bytes {
    if s != [] && s[|s| - 1] == CR then s[..|s| - 1] else s
  }

  function Bounded(body: Bytes, error: ReadError): FrameRead {
    if |body| > 131072 then FrameRead([], true, error) else FrameRead(body, false, error)
  }

  // The frames are the input split at its newlines, each line without its delimiter; one over the
  // bound is reported and the next still stands where it should.
  lemma {:induction false} FramesAreLines(s: Bytes)
    ensures var lines := Split(s, LF);
            && |Frames(s)| == |lines| > 0
            && (forall k :: 0 <= k < |lines| - 1 ==> Frames(s)[k] == Bounded(Line(lines[k]), NoError))
            && Frames(s)[|lines| - 1] == Bounded(lines[|lines| - 1], EndOfInput)
    decreases |s|
  {
    hide *;
    if IndexOf(s, LF) < |s| {
      var rest := s[IndexOf(s, LF) + 1..];
      SplitUnfolds(s);
      LineFrame(s);
      FramesAreLines(rest);
      assert forall k :: 0 < k < |Split(s, LF)| ==>
        Split(s, LF)[k] == Split(rest, LF)[k - 1] && Frames(s)[k] == Frames(rest)[k - 1];
    } else {
      LastFrame(s);
    }
  }

  lemma SplitUnfolds(s: Bytes)
    requires IndexOf(s, LF) < |s|
    ensures var n := IndexOf(s, LF);
            && Split(s, LF) == [s[..n]] + Split(s[n + 1..], LF)
            && Frames(s) == [FrameOf(s)] + Frames(s[n + 1..])
  {
    hide IndexOf, FrameOf;
  }

  lemma LineFrame(s: Bytes)
    requires IndexOf(s, LF) < |s|
    ensures FrameOf(s) == Bounded(Line(s[..IndexOf(s, LF)]), NoError)
  {
    var n := IndexOf(s, LF);
    EndsWithNewline(s);
    hide *;
    TrimsLine(s[..n]);
    FrameIs(s, s[..n] + [LF]);
  }

  lemma EndsWithNewline(s: Bytes)
    requires IndexOf(s, LF) < |s|
    ensures LF in s && FirstLine(s) == s[..IndexOf(s, LF)] + [LF]
  {
    FirstLineIs(s);
    hide *;
    var n := IndexOf(s, LF);
    TakeNext(s, n);
  }

  lemma FirstLineIs(s: Bytes)
    requires IndexOf(s, LF) < |s|
    ensures FirstLine(s) == s[..IndexOf(s, LF) + 1] && s[IndexOf(s, LF)] == LF
  {
  }

  lemma TakeNext(s: Bytes, n: nat)
    requires n < |s|
    ensures s[..n + 1] == s[..n] + [s[n]] && s[n] in s
  {
  }

  lemma FrameIs(s: Bytes, line: Bytes)
    requires FirstLine(s) == line && LF in s
    ensures FrameOf(s) == Bounded(TrimFrameDelimiter(line), NoError)
  {
  }

  lemma TrimsLine(body: Bytes)
    ensures TrimFrameDelimiter(body + [LF]) == Line(body)
  {
  }

  lemma LastFrame(s: Bytes)
    requires IndexOf(s, LF) == |s|
    ensures Split(s, LF) == [s] && FrameOf(s) == Bounded(s, EndOfInput) && Frames(s) == [FrameOf(s)]
  {
  }
}
