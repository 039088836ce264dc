/**
 HPACK strings, plain or Huffman coded (section 5.2 of RFC 7541), and how they are read back.

 `Coding` holds the Huffman tables. An encoder may choose between the two codings; the relation
 `IsText` says which bytes are right, and all of them are read.
 */
module Hpack {
  import opened Wrappers
  import opened ByteIO
  import opened Arith
  import opened HpackInt
  import opened HpackTable
  import Huffman
  import HuffmanDecoding

  datatype Coding = Coding(codes: seq<Huffman.Sym>, automaton: HuffmanDecoding.Table, pre: seq<Huffman.Bits>)

  ghost predicate IsCoding(c: Coding) {
    Huffman.GoodCodes(c.codes) && HuffmanDecoding.Matches(c.automaton, c.codes, c.pre)
  }

  /** `h` is the Huffman encoding of `s`, padded with ones. */
  ghost predicate IsPacked(c: Coding, h: seq<Byte>, s: Text)
    requires IsCoding(c)
  {
    Huffman.IsPadded(Huffman.AllBits(h), c.codes, s)
  }

  function Unpacked(c: Coding, h: seq<Byte>): Option<Text>
    requires IsCoding(c)
  {
    HuffmanDecoding.Decoded(c.automaton, h)
  }

  lemma UnpackedIsPacked(c: Coding, h: seq<Byte>, s: Text)
    requires IsCoding(c)
    ensures Unpacked(c, h) == Some(s) <==> IsPacked(c, h, s)
  {
    hide Huffman.IsPadded;
    hide HuffmanDecoding.Decoded;
    HuffmanDecoding.DecodesExactly(c.automaton, c.codes, c.pre, h, s);
  }

  // ------------------------------------------------------------ strings

  lemma Prefixes()
    ensures IsHigh(0x80, 7) && IsHigh(0, 7) && IsHigh(0x40, 6) && IsHigh(0x20, 5)
    ensures IsHigh(0, 4) && IsHigh(0x10, 4)
    ensures Pow2(7) == 0x80 && Pow2(6) == 0x40 && Pow2(5) == 0x20 && Pow2(4) == 0x10
  {
  }

  /** A string as a length and either itself or its Huffman encoding. */
  ghost predicate IsText(c: Coding, bytes: seq<Byte>, s: Text)
    requires IsCoding(c)
  {
    Prefixes();
    || bytes == IntBytes(|s|, 7, 0) + s
    || exists h :: IsHuffman(c, bytes, s, h)
  }

  ghost predicate IsHuffman(c: Coding, bytes: seq<Byte>, s: Text, h: seq<Byte>)
    requires IsCoding(c)
  {
    Prefixes();
    |h| < TWO_64 && IsPacked(c, h, s) && bytes == IntBytes(|h|, 7, 0x80) + h
  }

  /** The shorter of the two, and as it is if they are of one length. */
  ghost predicate IsShortText(c: Coding, bytes: seq<Byte>, s: Text)
    requires IsCoding(c)
  {
    Prefixes();
    && IsText(c, bytes, s)
    && ((forall h | IsPacked(c, h, s) :: |h| >= |s|) ==> bytes == IntBytes(|s|, 7, 0) + s)
    && (forall h | IsPacked(c, h, s) && |h| < |s| :: exists h' :: |h'| == |h| && IsHuffman(c, bytes, s, h'))
  }

  /** All Huffman encodings of a string are of one length. */
  lemma PackedLength(c: Coding, s: Text, h: seq<Byte>, h': seq<Byte>)
    requires IsCoding(c) && IsPacked(c, h, s) && IsPacked(c, h', s)
    ensures |h| == |h'|
  {
    assert |Huffman.AllBits(h)| == 8 * |h| && |Huffman.AllBits(h')| == 8 * |h'|;
  }

  function ReadText(c: Coding, data: seq<Byte>): (r: Option<(Text, seq<Byte>)>)
    requires IsCoding(c)
    ensures r.Some? ==> |r.value.1| < |data|
  {
    if data == [] then None
    else
      IntShrinks(data, 7);
      var (n, rest) := ReadInt(data, 7);
      if n > |rest| then None
      else if data[0] < 0x80 then Some((rest[..n], rest[n..]))
      else
        var s := Unpacked(c, rest[..n]);
        if s.None? then None else Some((s.value, rest[n..]))
  }

  lemma {:induction false} GroupsShrink(data: seq<Byte>, value: nat, shift: nat)
    ensures |ReadGroups(data, value, shift).1| <= |data|
    decreases |data|
  {
    if data != [] && data[0] >= 0x80 {
      GroupsShrink(data[1..], (value + Weighted(data[0] % 0x80, shift)) % TWO_64, shift + 7);
    }
  }

  lemma IntShrinks(data: seq<Byte>, bits: nat)
    requires data != [] && 1 <= bits <= 8
    ensures |ReadInt(data, bits).1| < |data|
  {
    GroupsShrink(data[1..], data[0] % Pow2(bits), 0);
  }

  /** A string is read back from any of its right encodings, and what follows it is left. */
  lemma TextRoundTrip(c: Coding, bytes: seq<Byte>, s: Text, rest: seq<Byte>)
    requires IsCoding(c) && |s| < TWO_64 && IsText(c, bytes, s)
    ensures ReadText(c, bytes + rest) == Some((s, rest))
  {
    hide IsCoding;
    Prefixes();
    if bytes == IntBytes(|s|, 7, 0) + s {
      PlainIsRead(c, s, rest);
    } else {
      var h :| IsHuffman(c, bytes, s, h);
      HuffmanIsRead(c, bytes, s, h, rest);
    }
  }

  lemma PlainIsRead(c: Coding, s: Text, rest: seq<Byte>)
    requires IsCoding(c) && |s| < TWO_64
    ensures IsHigh(0, 7) && ReadText(c, IntBytes(|s|, 7, 0) + s + rest) == Some((s, rest))
  {
    hide IsCoding;
    hide Pow2;
    Prefixes();
    var data := IntBytes(|s|, 7, 0) + s + rest;
    assert data == IntBytes(|s|, 7, 0) + (s + rest);
    IntRoundTrip(|s|, 7, 0, s + rest);
    assert (s + rest)[..|s|] == s && (s + rest)[|s|..] == rest;
  }

  lemma HuffmanIsRead(c: Coding, bytes: seq<Byte>, s: Text, h: seq<Byte>, rest: seq<Byte>)
    requires IsCoding(c) && |s| < TWO_64 && IsHuffman(c, bytes, s, h)
    ensures ReadText(c, bytes + rest) == Some((s, rest))
  {
    hide IsCoding;
    hide IsPacked;
    hide Unpacked;
    hide Pow2;
    Prefixes();
    assert bytes + rest == IntBytes(|h|, 7, 0x80) + (h + rest);
    IntRoundTrip(|h|, 7, 0x80, h + rest);
    assert (h + rest)[..|h|] == h && (h + rest)[|h|..] == rest;
    UnpackedIsPacked(c, h, s);
  }
}
