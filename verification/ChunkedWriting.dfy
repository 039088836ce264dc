/**
 The chunked body writer, and the round trip from it to the reference parser.
 */
module ChunkedWriting {
  import opened Wrappers
  import opened ByteIO
  import opened Arith
  import opened ChunkedFormat

  /**
   The size line as the writer prints it into 16 bytes. Printing stores at most 15 characters and a
   zero, but the length it reports is that of the whole text, and that many bytes are sent; `beyond`
   is whatever follows the 16 bytes in memory.
   */
  function SizeLine(n: nat, beyond: seq<Byte>): seq<Byte>
    requires n < TWO_64 && |beyond| >= 2
  {
    var text := Hex(n) + CRLF;
    assert |text| <= 18 by { HexFits(n); }
    if |text| <= 15 then text else (text[..15] + [0] + beyond)[..|text|]
  }

  /** The size line is right exactly for chunks below 2^52 bytes. */
  lemma {:induction false} SizeLineIsExact(n: nat, beyond: seq<Byte>)
    requires n < TWO_64 && |beyond| >= 2
    ensures SizeLine(n, beyond) == Hex(n) + CRLF <==> n < 0x10_0000_0000_0000
  {
    HexFits(n);
    var text := Hex(n) + CRLF;
    if |text| > 15 {
      assert (text[..15] + [0] + beyond)[..|text|][15] == 0;
      assert forall c | c in Hex(n) :: c != 0;
      assert text[15] != 0;
    }
  }

  /** What one write puts on the wire, and what the end of the body does. */
  function EncodeChunk(data: seq<Byte>, beyond: seq<Byte>): seq<Byte>
    requires |data| < TWO_64 && |beyond| >= 2
  {
    if data == [] then [] else SizeLine(|data|, beyond) + data + CRLF
  }

  const LAST_CHUNK: seq<Byte> := ['0' as int] + CRLF + CRLF

  predicate Small(writes: seq<seq<Byte>>) {
    forall w | w in writes :: |w| < 0x10_0000_0000_0000
  }

  function EncodeAll(writes: seq<seq<Byte>>, beyond: seq<Byte>): seq<Byte>
    requires |beyond| >= 2 && Small(writes)
  {
    if writes == [] then [] else EncodeAll(writes[..|writes| - 1], beyond) + EncodeChunk(writes[|writes| - 1], beyond)
  }

  lemma {:induction false} SizeLineIsParsed(n: nat, s: seq<Byte>)
    requires 0 < n < 0x10_0000_0000_0000
    ensures FindCrlf(Hex(n) + CRLF + s) == Some(|Hex(n)|) && |Hex(n)| <= 13
    ensures (Hex(n) + CRLF + s)[..|Hex(n)|] == Hex(n) && ParseSize(Hex(n)) == Some(n)
    ensures (Hex(n) + CRLF + s)[|Hex(n)| + 2..] == s
  {
    SizeIsRead(n);
    HexFits(n);
    var t := Hex(n) + CRLF + s;
    assert CrlfAt(t, |Hex(n)|);
    assert forall i | 0 <= i < |Hex(n)| :: t[i] == Hex(n)[i] && Hex(n)[i] in Hex(n);
  }

  lemma {:induction false} LastChunkIsParsed(strict: bool, rest: seq<Byte>)
    ensures ParseBody(strict, ReadSize, LAST_CHUNK + rest) == Some(Parsed([], rest))
  {
    var s := LAST_CHUNK + rest;
    assert CrlfAt(s, 1) && !CrlfAt(s, 0);
    assert FindCrlf(s) == Some(1);
    assert s[..1] == ['0' as int];
    assert LeadingHex(s[..1][1..]) == [];
    assert HexValue(s[..1]) == HexValue([]) * 16 + 0;
    assert ParseSize(s[..1]) == Some(0);
    assert s[3..] == CRLF + rest && CrlfAt(s[3..], 0);
    assert FindCrlf(s[3..]) == Some(0);
    assert s[3..][2..] == rest;
  }

  lemma {:induction false} ChunkIsParsed(strict: bool, data: seq<Byte>, beyond: seq<Byte>, s: seq<Byte>)
    requires |data| < 0x10_0000_0000_0000 && |beyond| >= 2
    ensures ParseBody(strict, ReadSize, EncodeChunk(data, beyond) + s) == Prepend(data, ParseBody(strict, ReadSize, s))
  {
    if data == [] {
      assert EncodeChunk(data, beyond) + s == s;
      PrependTwice([], [], ParseBody(strict, ReadSize, s));
    } else {
      var n := |data|;
      var after := data + CRLF + s;
      SizeLineIsExact(n, beyond);
      assert EncodeChunk(data, beyond) + s == Hex(n) + CRLF + after;
      SizeLineIsParsed(n, after);
      assert after[..n] == data && after[n + 2..] == s;
      assert ParseBody(strict, ReadSize, Hex(n) + CRLF + after) == ParseBody(strict, ReadData(n), after);
    }
  }

  lemma {:induction false} ChunksAreParsed(strict: bool, writes: seq<seq<Byte>>, beyond: seq<Byte>, s: seq<Byte>)
    requires |beyond| >= 2 && Small(writes)
    ensures ParseBody(strict, ReadSize, EncodeAll(writes, beyond) + s) ==
            Prepend(Concat(writes), ParseBody(strict, ReadSize, s))
    decreases |writes|
  {
    hide ParseBody;
    hide EncodeChunk;
    PrependTwice([], [], ParseBody(strict, ReadSize, s));
    if writes == [] {
      assert EncodeAll(writes, beyond) + s == s;
    } else {
      var others, last := writes[..|writes| - 1], writes[|writes| - 1];
      ChunksAreParsed(strict, others, beyond, EncodeChunk(last, beyond) + s);
      assert EncodeAll(others, beyond) + (EncodeChunk(last, beyond) + s) == EncodeAll(writes, beyond) + s;
      ChunkIsParsed(strict, last, beyond, s);
      assert writes == others + [last];
      ConcatAdd(others, last);
      PrependTwice(Concat(others), last, ParseBody(strict, ReadSize, s));
    }
  }

  /**
   The round trip: whatever follows it, the encoding of a list of writes parses to their
   concatenation and leaves exactly what follows.
   */
  lemma {:induction false} RoundTrip(strict: bool, writes: seq<seq<Byte>>, beyond: seq<Byte>, rest: seq<Byte>)
    requires |beyond| >= 2 && Small(writes)
    ensures ParseBody(strict, ReadSize, EncodeAll(writes, beyond) + LAST_CHUNK + rest) ==
            Some(Parsed(Concat(writes), rest))
  {
    hide ParseBody;
    LastChunkIsParsed(strict, rest);
    ChunksAreParsed(strict, writes, beyond, LAST_CHUNK + rest);
    assert EncodeAll(writes, beyond) + (LAST_CHUNK + rest) == EncodeAll(writes, beyond) + LAST_CHUNK + rest;
    assert Concat(writes) + [] == Concat(writes);
  }

  /** The writer: `wire` is what it has put on the stream, `writes` what it was given. */
  class ChunkedWriter {
    var wire: seq<Byte>
    const beyond: seq<Byte>
    ghost var writes: seq<seq<Byte>>

    ghost predicate Valid()
      reads this
    {
      |beyond| >= 2 && (Small(writes) ==> wire == EncodeAll(writes, beyond))
    }

    constructor (beyond: seq<Byte>)
      requires |beyond| >= 2
      ensures Valid() && writes == [] && this.beyond == beyond
    {
      wire, this.beyond, writes := [], beyond, [];
    }

    method Write(data: seq<Byte>)
      requires Valid() && |data| < TWO_64
      modifies this
      ensures Valid() && writes == old(writes) + [data]
    {
      writes := writes + [data];
      assert writes[..|writes| - 1] == old(writes);
      assert Small(writes) ==> Small(old(writes));
      if data == [] {
        return;
      }
      var sizeLine := SizeLine(|data|, beyond);
      wire := wire + (sizeLine + data + CRLF);
    }

    /** The body is closed; a reader of the wire gets back the writes and stops before what follows. */
    method End()
      requires Valid()
      modifies this
      ensures writes == old(writes)
      ensures Small(writes) ==>
                forall strict, rest ::
                  ParseBody(strict, ReadSize, wire + rest) == Some(Parsed(Concat(writes), rest))
    {
      wire := wire + LAST_CHUNK;
      if Small(writes) {
        forall strict, rest
          ensures ParseBody(strict, ReadSize, wire + rest) == Some(Parsed(Concat(writes), rest))
        {
          RoundTrip(strict, writes, beyond, rest);
        }
      }
    }
  }
}
