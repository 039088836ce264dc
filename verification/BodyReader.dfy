/**
 The HTTP/1 body readers over a shared buffer and a stream. A reader remembers, as ghosts, all the
 bytes that were before it when it was made and those it has taken off as body; its invariant relates
 the two through the reference parser, so that any mix of reads and a drain is covered by it.
 */
module BodyReader {
  import opened Wrappers
  import opened ByteIO
  import opened ChunkedFormat
  import opened ChunkedWriting

  function Min(a: nat, b: nat): nat {
    if a < b then a else b
  }

  datatype Phase = ReadingSize | ReadingData | Done

  /** Reading has gone from `first` to `input`, with `taken` taken off on the way. */
  ghost predicate Follows(first: seq<Byte>, taken: seq<Byte>, state: State, input: seq<Byte>) {
    && ParseBody(false, ReadSize, first) == Prepend(taken, ParseBody(false, state, input))
    && (ParseBody(true, ReadSize, first).Some? ==>
          ParseBody(true, ReadSize, first) == Prepend(taken, ParseBody(true, state, input)))
  }

  class ChunkedReader {
    const stream: ByteStream
    const buffer: StringBuffer
    var phase: Phase
    var chunkSize: nat
    var chunkRead: nat
    var draining: bool
    ghost var first: seq<Byte>
    ghost var taken: seq<Byte>

    /** The bytes not yet consumed, buffered or still in the stream. */
    ghost function Input(): seq<Byte>
      requires buffer.Valid()
      reads buffer, stream
    {
      buffer.View() + stream.pending
    }

    /** Where the reference parser stands. */
    ghost function At(): State
      requires chunkRead <= chunkSize
      reads this
    {
      match phase
      case ReadingSize => ReadSize
      case ReadingData => ReadData(chunkSize - chunkRead)
      case Done => Complete
    }

    ghost predicate Valid()
      reads this, buffer, stream
    {
      && buffer.Valid()
      && chunkRead <= chunkSize
      && (phase == ReadingData ==> chunkRead < chunkSize)
      && Follows(first, taken, At(), Input())
    }

    constructor (stream: ByteStream, buffer: StringBuffer)
      requires buffer.Valid()
      ensures Valid() && this.stream == stream && this.buffer == buffer
      ensures phase == ReadingSize && !draining && first == Input() && taken == []
    {
      this.stream, this.buffer := stream, buffer;
      phase, chunkSize, chunkRead, draining := ReadingSize, 0, 0, false;
      first, taken := buffer.View() + stream.pending, [];
      PrependTwice([], [], ParseBody(true, ReadSize, buffer.View() + stream.pending));
      PrependTwice([], [], ParseBody(false, ReadSize, buffer.View() + stream.pending));
    }

    /**
     Reads until a line end is buffered. Gives up when `limit` bytes are buffered without one, which
     never happens to a line that fits the limit together with its end; at the end of the stream too.
     */
    method AwaitLine(limit: nat) returns (pos: Option<nat>)
      requires buffer.Valid()
      modifies buffer, stream
      ensures buffer.Valid() && Input() == old(Input())
      ensures pos.Some? ==> FindCrlf(Input()) == pos && pos.value + 2 <= |buffer.View()|
      ensures pos.None? ==> FindCrlf(Input()).None? || FindCrlf(Input()).value + 2 > limit
      ensures FindCrlf(old(buffer.View())).None? && |old(buffer.View())| >= limit ==> pos.None?
      ensures FindCrlf(old(buffer.View())).Some? ==> pos == FindCrlf(old(buffer.View()))
    {
      pos := FindCrlf(buffer.View());
      FindInPart(buffer.View(), stream.pending);
      while pos.None?
        invariant buffer.Valid() && Input() == old(Input())
        invariant pos == FindCrlf(buffer.View())
        invariant pos.Some? ==> FindCrlf(Input()) == pos
        invariant pos.None? && FindCrlf(Input()).Some? ==> FindCrlf(Input()).value + 2 > |buffer.View()|
        invariant |old(buffer.View())| >= limit ==> buffer.View() == old(buffer.View())
        invariant FindCrlf(old(buffer.View())).Some? ==> pos == FindCrlf(old(buffer.View()))
        decreases |stream.pending|
      {
        if buffer.RemainSize() >= limit {
          return;
        }
        var n := buffer.Fill(stream);
        if n == 0 {
          assert buffer.View() == Input();
          return;
        }
        pos := FindCrlf(buffer.View());
        FindInPart(buffer.View(), stream.pending);
      }
    }

    /** Skips the two bytes after a chunk, whatever they are; fails only when the stream ends before them. */
    method SkipCrlf() returns (ok: bool)
      requires buffer.Valid()
      modifies buffer, stream
      ensures buffer.Valid()
      ensures ok <==> |old(Input())| >= 2
      ensures ok ==> Input() == old(Input())[2..]
    {
      while buffer.RemainSize() < 2
        invariant buffer.Valid() && Input() == old(Input())
        decreases |stream.pending|
      {
        var n := buffer.Fill(stream);
        if n == 0 {
          return false;
        }
      }
      buffer.Consume(2);
      return true;
    }

    /**
     Takes the lines up to an empty one. Passes only where the lenient parser does, fails only where
     the strict one does.
     */
    method SkipTrailer() returns (ok: bool)
      requires buffer.Valid()
      modifies buffer, stream
      ensures buffer.Valid()
      ensures ok ==> ParseTrailer(false, 0, old(Input())) == Some(Input())
      ensures !ok ==> ParseTrailer(true, 0, old(Input())).None?
      ensures |Input()| <= |old(Input())|
    {
      hide FindCrlf;
      hide ParseTrailer;
      var lines := 0;
      while true
        invariant buffer.Valid() && lines <= 128 && |Input()| <= |old(Input())|
        invariant ParseTrailer(false, lines, Input()) == ParseTrailer(false, 0, old(Input()))
        invariant ParseTrailer(true, 0, old(Input())).Some? ==> ParseTrailer(true, lines, Input()).Some?
        decreases |Input()|
      {
        var pos := AwaitLine(8192);
        TrailerLine(lines, Input());
        if pos.None? {
          return false;
        }
        ghost var before := Input();
        buffer.Consume(pos.value + 2);
        assert Input() == before[pos.value + 2..];
        if pos.value == 0 {
          return true;
        }
        lines := lines + 1;
        if lines > 128 {
          return false;
        }
      }
    }

    /**
     A size line, and the trailer if the size is zero. A line of up to 62 bytes is taken however it
     arrives; 64 buffered bytes without a line end are refused.
     */
    method ParseChunkSize() returns (ok: bool)
      requires Valid() && phase == ReadingSize
      modifies this`phase, this`chunkSize, this`chunkRead, buffer, stream
      ensures buffer.Valid()
      ensures ok ==> Valid() && phase != ReadingSize
      ensures !ok ==> ParseBody(true, ReadSize, old(Input())).None?
      ensures |Input()| <= |old(Input())|
      ensures |old(buffer.View())| >= 64 && FindCrlf(old(buffer.View())).None? ==> !ok
      ensures FindCrlf(old(buffer.View())).Some? ==>
                var p := FindCrlf(old(buffer.View())).value;
                var size := ParseSize(old(buffer.View())[..p]);
                && (p > 64 || size.None? ==> !ok)
                && (p <= 64 && size.Some? && size.value > 0 ==> ok && phase == ReadingData && chunkSize == size.value)
    {
      hide FindCrlf;
      hide ParseSize;
      hide ParseTrailer;
      hide ParseBody;
      hide Follows;
      LineInPart(buffer.View(), stream.pending);
      var pos := AwaitLine(64);
      SizeLineTaken(first, taken, Input());
      if pos.None? || pos.value > 64 {
        return false;
      }
      ghost var before := Input();
      assert buffer.View()[..pos.value] == before[..pos.value];
      var size := ParseSize(buffer.View()[..pos.value]);
      if size.None? {
        return false;
      }
      chunkSize := size.value;
      buffer.Consume(pos.value + 2);
      assert Input() == before[pos.value + 2..];
      chunkRead := 0;
      if chunkSize == 0 {
        ok := SkipTrailer();
        if ok {
          phase := Done;
          TrailerTaken(first, taken, before, Input());
        }
      } else {
        phase := ReadingData;
        ok := true;
      }
    }

    /** Accounts for `n` more bytes of the chunk, and skips the two bytes that follow the last one. */
    method Advance(n: nat, ghost bytes: seq<Byte>) returns (ok: bool)
      requires buffer.Valid() && phase == ReadingData && n == |bytes| <= chunkSize - chunkRead && chunkRead < chunkSize
      requires Follows(first, taken, At(), bytes + Input())
      modifies this`phase, this`chunkRead, this`taken, buffer, stream
      ensures buffer.Valid()
      ensures ok ==> Valid() && taken == old(taken) + bytes && phase != Done
      ensures ok ==> |Input()| <= |old(Input())|
      ensures !ok ==> ParseBody(true, old(At()), bytes + old(Input())).None?
    {
      ghost var at, before := At(), bytes + Input();
      TakeBytes(first, taken, chunkSize - chunkRead, bytes, Input());
      chunkRead := chunkRead + n;
      taken := taken + bytes;
      ok := true;
      if chunkRead >= chunkSize {
        assert bytes + Input() == before;
        ok := SkipCrlf();
        if ok {
          phase := ReadingSize;
        }
      }
    }

    /** A read within a chunk: from the buffer if it holds anything, else from the stream. */
    method ReadChunk(len: nat) returns (r: Result<seq<Byte>>)
      requires Valid() && phase == ReadingData
      modifies this`phase, this`chunkRead, this`taken, buffer, stream
      ensures buffer.Valid()
      ensures r.Ok? ==> Valid() && |r.value| <= len && taken == old(taken) + r.value && phase != Done
      ensures r.Ok? && len > 0 ==> r.value != []
      ensures r.Ok? ==> |Input()| + |r.value| <= |old(Input())|
      ensures r.Err? ==> len == 0 || ParseBody(true, old(At()), old(Input())).None?
    {
      hide ParseBody;
      hide Follows;
      NothingTaken(first, taken, At(), Input());
      ghost var before := Input();
      var available := buffer.RemainSize();
      var remaining := chunkSize - chunkRead;
      var bytes: seq<Byte>;
      if available > 0 {
        var toRead := Min(available, Min(remaining, len));
        bytes := buffer.View()[..toRead];
        buffer.Consume(toRead);
      } else {
        bytes := stream.Read(Min(len, remaining));
        if |bytes| == 0 {
          return Err;
        }
      }
      assert before == bytes + Input();
      var ok := Advance(|bytes|, bytes);
      return if ok then Ok(bytes) else Err;
    }

    /**
     One read of at most `len` bytes. What it returns is the next part of the body; it returns none,
     when asked for some, only at the end of the body; it fails only on a body the strict parser
     refuses.
     */
    method ReadImpl(len: nat) returns (r: Result<seq<Byte>>)
      requires Valid()
      modifies this`phase, this`chunkSize, this`chunkRead, this`taken, buffer, stream
      ensures buffer.Valid()
      ensures r.Ok? ==> Valid() && |r.value| <= len && taken == old(taken) + r.value
      ensures r.Ok? && len > 0 ==> (r.value == [] <==> phase == Done)
      ensures r.Ok? ==> |Input()| + |r.value| <= |old(Input())|
      ensures r.Err? ==> len == 0 || ParseBody(true, ReadSize, first).None?
    {
      hide FindCrlf;
      hide ParseBody;
      hide Follows;
      NothingTaken(first, taken, At(), Input());
      if phase == Done {
        return Ok([]);
      }
      if phase == ReadingSize {
        var ok := ParseChunkSize();
        if !ok {
          return Err;
        }
        NothingTaken(first, taken, At(), Input());
        if phase == Done {
          return Ok([]);
        }
      }
      r := ReadChunk(len);
    }

    /** A caller's read: nothing once the body is complete or being drained. */
    method Read(len: nat) returns (r: Result<seq<Byte>>)
      requires Valid()
      modifies this`phase, this`chunkSize, this`chunkRead, this`taken, buffer, stream
      ensures buffer.Valid()
      ensures r.Ok? ==> Valid() && |r.value| <= len && taken == old(taken) + r.value
      ensures r.Ok? && len > 0 ==> (r.value == [] <==> phase == Done || draining)
      ensures r.Err? ==> len == 0 || ParseBody(true, ReadSize, first).None?
    {
      if draining || phase == Done {
        assert taken + [] == taken;
        return Ok([]);
      }
      r := ReadImpl(len);
    }

    /**
     Reads on to the end of the body, whatever was read before. Then buffer and stream together stand
     at the first byte after the message, and the bytes taken are the body.
     */
    method Drain() returns (ok: bool)
      requires Valid()
      modifies this, buffer, stream
      ensures draining && first == old(first)
      ensures ok ==> Valid() && phase == Done && old(taken) <= taken
      ensures ok ==> ParseBody(false, ReadSize, first) == Some(Parsed(taken, Input()))
      ensures ok && ParseBody(true, ReadSize, first).Some? ==>
                ParseBody(true, ReadSize, first) == Some(Parsed(taken, Input()))
      ensures !ok ==> ParseBody(true, ReadSize, first).None?
    {
      hide FindCrlf;
      hide ParseBody;
      draining := true;
      while phase != Done
        invariant Valid() && draining && first == old(first) && old(taken) <= taken
        decreases |Input()|, phase != Done
      {
        var r := ReadImpl(4096);
        if r.Err? {
          return false;
        }
        if |r.value| == 0 {
          break;
        }
      }
      CompleteIsEnd(first, taken, Input());
      return true;
    }
  }

  lemma {:induction false} CompleteIsEnd(first: seq<Byte>, taken: seq<Byte>, s: seq<Byte>)
    requires Follows(first, taken, Complete, s)
    ensures ParseBody(false, ReadSize, first) == Some(Parsed(taken, s))
    ensures ParseBody(true, ReadSize, first).Some? ==> ParseBody(true, ReadSize, first) == Some(Parsed(taken, s))
  {
    assert taken + [] == taken;
  }

  /** What a writer's chunks look like to a reader that has been drained: all of them, and the next message. */
  lemma {:induction false} DrainedIsWritten(first: seq<Byte>, taken: seq<Byte>, input: seq<Byte>,
                         writes: seq<seq<Byte>>, beyond: seq<Byte>, rest: seq<Byte>)
    requires |beyond| >= 2 && Small(writes)
    requires first == EncodeAll(writes, beyond) + LAST_CHUNK + rest
    ensures ParseBody(true, ReadSize, first).Some?
    ensures ParseBody(true, ReadSize, first) == Some(Parsed(taken, input)) ==> taken == Concat(writes) && input == rest
  {
    RoundTrip(true, writes, beyond, rest);
  }

  // ------------------------------------------------------------ a body of known length

  class ContentLengthReader {
    const stream: ByteStream
    const buffer: StringBuffer
    const contentLength: nat
    var bytesRead: nat
    var draining: bool
    ghost var first: seq<Byte>

    ghost function Input(): seq<Byte>
      requires buffer.Valid()
      reads buffer, stream
    {
      buffer.View() + stream.pending
    }

    ghost predicate Valid()
      reads this, buffer, stream
    {
      && buffer.Valid()
      && bytesRead <= contentLength && bytesRead <= |first|
      && Input() == first[bytesRead..]
    }

    constructor (stream: ByteStream, buffer: StringBuffer, contentLength: nat)
      requires buffer.Valid()
      ensures Valid() && this.stream == stream && this.buffer == buffer && this.contentLength == contentLength
      ensures bytesRead == 0 && !draining && first == Input()
    {
      this.stream, this.buffer, this.contentLength := stream, buffer, contentLength;
      bytesRead, draining, first := 0, false, buffer.View() + stream.pending;
    }

    method ReadImpl(len: nat) returns (r: Result<seq<Byte>>)
      requires Valid()
      modifies this`bytesRead, buffer, stream
      ensures Valid()
      ensures old(bytesRead) <= bytesRead
      ensures r.Ok? ==> |r.value| <= len && r.value == first[old(bytesRead)..bytesRead]
      ensures r.Ok? && len > 0 ==> (r.value == [] <==> old(bytesRead) == contentLength)
      ensures r.Err? ==> (len == 0 || |first| < contentLength) && bytesRead == old(bytesRead)
    {
      if bytesRead >= contentLength {
        return Ok([]);
      }
      ghost var before := Input();
      var bytes: seq<Byte>;
      var available := buffer.RemainSize();
      if available > 0 {
        var toRead := Min(len, Min(available, contentLength - bytesRead));
        bytes := buffer.View()[..toRead];
        buffer.Consume(toRead);
      } else {
        bytes := stream.Read(Min(len, contentLength - bytesRead));
        if |bytes| == 0 {
          return Err;
        }
      }
      assert before == bytes + Input();
      TakeFirst(first, bytesRead, bytes, Input());
      bytesRead := bytesRead + |bytes|;
      return Ok(bytes);
    }

    method Read(len: nat) returns (r: Result<seq<Byte>>)
      requires Valid()
      modifies this`bytesRead, buffer, stream
      ensures Valid() && old(bytesRead) <= bytesRead
      ensures r.Ok? ==> |r.value| <= len && r.value == first[old(bytesRead)..bytesRead]
      ensures r.Ok? && len > 0 ==> (r.value == [] <==> old(bytesRead) == contentLength || draining)
      ensures r.Err? ==> (len == 0 || |first| < contentLength) && bytesRead == old(bytesRead)
    {
      if draining || bytesRead >= contentLength {
        return Ok([]);
      }
      r := ReadImpl(len);
    }

    /** Succeeds exactly when the stream holds the whole body, and then stands at the next message. */
    method Drain() returns (ok: bool)
      requires Valid()
      modifies this`bytesRead, this`draining, buffer, stream
      ensures Valid() && draining
      ensures ok <==> |first| >= contentLength
      ensures ok ==> bytesRead == contentLength && Input() == first[contentLength..]
    {
      draining := true;
      while bytesRead < contentLength
        invariant Valid() && draining
        decreases contentLength - bytesRead
      {
        var r := ReadImpl(4096);
        if r.Err? {
          return false;
        }
        if |r.value| == 0 {
          break;
        }
      }
      return true;
    }
  }

  lemma {:induction false} LineInPart(part: seq<Byte>, rest: seq<Byte>)
    ensures FindCrlf(part).Some? ==>
              && FindCrlf(part + rest) == FindCrlf(part)
              && (part + rest)[..FindCrlf(part).value] == part[..FindCrlf(part).value]
  {
    FindInPart(part, rest);
  }

  lemma TakeFirst(first: seq<Byte>, n: nat, bytes: seq<Byte>, rest: seq<Byte>)
    requires n <= |first| && first[n..] == bytes + rest
    ensures n + |bytes| <= |first| && first[n..n + |bytes|] == bytes && first[n + |bytes|..] == rest
  {
    assert first[n..][..|bytes|] == bytes && first[n..][|bytes|..] == rest;
  }

  /** The next trailer line, for both parsers at once. */
  lemma TrailerLine(lines: nat, s: seq<Byte>)
    ensures FindCrlf(s).None? || FindCrlf(s).value > 8190 ==> ParseTrailer(true, lines, s).None?
    ensures FindCrlf(s).Some? ==>
              var p := FindCrlf(s).value;
              && (p == 0 ==> ParseTrailer(false, lines, s) == Some(s[2..]))
              && (p > 0 && lines >= 128 ==> ParseTrailer(true, lines, s).None?)
              && (p > 0 && lines < 128 ==> ParseTrailer(false, lines, s) == ParseTrailer(false, lines + 1, s[p + 2..]))
              && (p > 0 && ParseTrailer(true, lines, s).Some? ==> ParseTrailer(true, lines + 1, s[p + 2..]).Some?)
  {
  }

  /** A size line: refused by the strict parser, or followed by data, or by the trailer. */
  lemma {:induction false} SizeLineTaken(first: seq<Byte>, taken: seq<Byte>, s: seq<Byte>)
    requires Follows(first, taken, ReadSize, s)
    ensures FindCrlf(s).None? || FindCrlf(s).value > 62 ==> ParseBody(true, ReadSize, s).None?
    ensures FindCrlf(s).Some? && FindCrlf(s).value <= 64 ==>
              var p := FindCrlf(s).value;
              var size := ParseSize(s[..p]);
              && (size.None? ==> ParseBody(true, ReadSize, s).None?)
              && (size.Some? && size.value > 0 ==> Follows(first, taken, ReadData(size.value), s[p + 2..]))
              && (size == Some(0) && ParseTrailer(true, 0, s[p + 2..]).None? ==> ParseBody(true, ReadSize, s).None?)
  {
    assert ParseBody(true, ReadSize, s) == ParseSizeLine(true, s);
    assert ParseBody(false, ReadSize, s) == ParseSizeLine(false, s);
  }

  lemma {:induction false} TrailerTaken(first: seq<Byte>, taken: seq<Byte>, s: seq<Byte>, rest: seq<Byte>)
    requires Follows(first, taken, ReadSize, s)
    requires FindCrlf(s).Some? && FindCrlf(s).value <= 64 && ParseSize(s[..FindCrlf(s).value]) == Some(0)
    requires ParseTrailer(false, 0, s[FindCrlf(s).value + 2..]) == Some(rest)
    ensures Follows(first, taken, Complete, rest)
  {
    var after := s[FindCrlf(s).value + 2..];
    assert ParseBody(true, ReadSize, s) == ParseSizeLine(true, s);
    assert ParseBody(false, ReadSize, s) == ParseSizeLine(false, s) == Some(Parsed([], rest));
    if ParseTrailer(true, 0, after).Some? {
      StrictTrailerIsLenient(0, after);
    }
  }

  /** Where the strict parser takes the whole body it takes what is left of it. */
  lemma {:induction false} NothingTaken(first: seq<Byte>, taken: seq<Byte>, at: State, s: seq<Byte>)
    requires Follows(first, taken, at, s)
    ensures ParseBody(true, at, s).None? ==> ParseBody(true, ReadSize, first).None?
    ensures at.ReadData? && s == [] ==> ParseBody(true, at, s).None?
    ensures taken + [] == taken
  {
  }

  /** Part of a chunk's data is taken off. */
  lemma {:induction false} TakeBytes(first: seq<Byte>, taken: seq<Byte>, left: nat, bytes: seq<Byte>, input: seq<Byte>)
    requires |bytes| <= left
    requires Follows(first, taken, ReadData(left), bytes + input)
    ensures |bytes| < left ==> Follows(first, taken + bytes, ReadData(left - |bytes|), input)
    ensures |bytes| == left && |input| >= 2 ==> Follows(first, taken + bytes, ReadSize, input[2..])
    ensures |bytes| == left && |input| < 2 ==> ParseBody(true, ReadData(left), bytes + input).None?
  {
    TakeBytesParsed(false, left, bytes, input);
    TakeBytesParsed(true, left, bytes, input);
    var rest := if |bytes| < left then ReadData(left - |bytes|) else ReadSize;
    var after := if |bytes| < left then input else if |input| >= 2 then input[2..] else [];
    PrependTwice(taken, bytes, ParseBody(false, rest, after));
    PrependTwice(taken, bytes, ParseBody(true, rest, after));
  }

  lemma {:induction false} TakeBytesParsed(strict: bool, left: nat, bytes: seq<Byte>, input: seq<Byte>)
    requires |bytes| <= left
    ensures |bytes| < left ==>
              ParseBody(strict, ReadData(left), bytes + input) ==
                  Prepend(bytes, ParseBody(strict, ReadData(left - |bytes|), input))
    ensures |bytes| == left && |input| >= 2 ==>
              ParseBody(strict, ReadData(left), bytes + input) ==
                  Prepend(bytes, ParseBody(strict, ReadSize, input[2..]))
    ensures |bytes| == left && |input| < 2 ==> ParseBody(strict, ReadData(left), bytes + input).None?
  {
    var s, k := bytes + input, left - |bytes|;
    if |s| >= left + 2 {
      assert s[..left] == bytes + input[..k] && s[left + 2..] == input[k + 2..];
      PrependTwice(bytes, input[..k], ParseBody(strict, ReadSize, s[left + 2..]));
      if k == 0 {
        assert s[..left] == bytes;
      }
    }
  }
}
