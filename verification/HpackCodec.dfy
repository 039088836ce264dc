/**
 The HPACK encoder and decoder as objects with their own tables. The encoder is shown to write only
 right representations, the decoder to compute the reading of the block.
 */
module HpackCodec {
  import opened Wrappers
  import opened ByteIO
  import opened Arith
  import opened HpackInt
  import opened HpackTable
  import opened Hpack
  import opened HpackBlock
  import opened HpackLockstep
  import Huffman
  import HuffmanDecoding

  function Ascii(s: string): (r: Text)
    ensures |r| == |s|
  {
    if s == "" then [] else [s[0] as int % 256] + Ascii(s[1..])
  }

  const STATUS := Ascii(":status")
  const CONTENT_LENGTH := Ascii("content-length")
  const TRANSFER_ENCODING := Ascii("transfer-encoding")
  const CONNECTION := Ascii("connection")
  const SET_COOKIE := Ascii("set-cookie")

  // ------------------------------------------------------------ strings

  method Pack(c: Coding, s: Text) returns (h: seq<Byte>)
    requires IsCoding(c)
    ensures IsPacked(c, h, s)
  {
    h := Huffman.HuffmanEncode(c.codes, s);
  }

  method Unpack(c: Coding, h: seq<Byte>) returns (r: Option<Text>)
    requires IsCoding(c)
    ensures r == Unpacked(c, h)
  {
    r := HuffmanDecoding.HuffmanDecode(c.automaton, h);
  }

  /** Huffman where that is shorter, else as it is. */
  method EncodeText(c: Coding, out: seq<Byte>, s: Text) returns (out': seq<Byte>, ghost bytes: seq<Byte>)
    requires IsCoding(c) && |s| < TWO_64
    ensures out' == out + bytes && IsText(c, bytes, s) && IsShortText(c, bytes, s)
    ensures |out| <= |out'| && out'[..|out|] == out && IsShortText(c, out'[|out|..], s)
  {
    hide IsCoding;
    hide IsPacked;
    hide Pow2;
    Prefixes();
    var huff := Pack(c, s);
    forall h | IsPacked(c, h, s)
      ensures |h| == |huff|
    {
      PackedLength(c, s, h, huff);
    }
    if |huff| < |s| {
      out' := EncodeInt(out, |huff|, 7, 0x80);
      out' := out' + huff;
      bytes := IntBytes(|huff|, 7, 0x80) + huff;
      assert IsHuffman(c, bytes, s, huff);
    } else {
      out' := EncodeInt(out, |s|, 7, 0);
      out' := out' + s;
      bytes := IntBytes(|s|, 7, 0) + s;
    }
    assert out'[|out|..] == bytes;
  }

  method DecodeText(c: Coding, data: seq<Byte>, pos: nat) returns (r: Option<Text>, pos': nat)
    requires IsCoding(c) && pos <= |data|
    ensures pos <= pos' <= |data|
    ensures r.None? ==> ReadText(c, data[pos..]).None?
    ensures r.Some? ==> ReadText(c, data[pos..]) == Some((r.value, data[pos'..]))
  {
    hide IsCoding;
    hide Unpacked;
    hide Pow2;
    if pos >= |data| {
      return None, pos;
    }
    var n;
    n, pos' := DecodeInt(data, pos, 7);
    if pos' + n > |data| {
      return None, pos';
    }
    assert data[pos'..][..n] == data[pos'..pos' + n] && data[pos'..][n..] == data[pos' + n..];
    if data[pos] >= 0x80 {
      r := Unpack(c, data[pos'..pos' + n]);
    } else {
      r := Some(data[pos'..pos' + n]);
    }
    pos' := pos' + n;
  }

  // ------------------------------------------------------------ the encoder

  /** A literal that names its field in full only if the table does not know the name, in the shorter coding. */
  ghost predicate IsOwnLiteral(c: Coding, t: Table, e: Entry, bytes: seq<Byte>, i: nat, name: seq<Byte>,
                               value: seq<Byte>)
    requires IsCoding(c) && IsTable(t)
  {
    && IsLiteral(c, t, e, bytes, i, name, value)
    && (i == 0 ==> IsShortText(c, name, e.name) && forall x | x in t.fixed + t.dynamic :: x.name != e.name)
    && IsShortText(c, value, e.value)
  }

  class Encoder {
    const coding: Coding
    const table: DynamicTable

    ghost predicate Valid()
      reads this, table
    {
      IsCoding(coding) && table.Valid()
    }

    constructor (coding: Coding, table: DynamicTable)
      requires IsCoding(coding) && table.Valid()
      ensures Valid() && this.coding == coding && this.table == table
    {
      this.coding, this.table := coding, table;
    }

    /** A field by index if the table holds it, else as a literal that enters the table. */
    method EncodeField(out: seq<Byte>, e: Entry) returns (out': seq<Byte>, ghost piece: Piece)
      requires Valid() && IsEntry(e)
      modifies table
      ensures Valid() && piece.field == e && out' == out + piece.bytes
      ensures IsField(coding, old(table.Contents()), e, piece.bytes)
      ensures table.Contents() == AfterField(old(table.Contents()), e)
      ensures !HasEntry(old(table.Contents()), e) ==>
                exists i, name, value :: IsOwnLiteral(coding, old(table.Contents()), e, piece.bytes, i, name, value)
    {
      hide IsCoding;
      hide IsText;
      hide IsShortText;
      hide Pow2;
      Prefixes();
      ghost var t := table.Contents();
      var index := table.Find(e.name, e.value);
      if index > 0 {
        out' := EncodeInt(out, index, 7, 0x80);
        piece := Piece(e, IntBytes(index, 7, 0x80));
        assert IsIndexed(t, e, piece.bytes, index);
        return;
      }
      var nameIndex: nat := -index;
      out' := EncodeInt(out, nameIndex, 6, 0x40);
      ghost var name, value := [], [];
      if nameIndex == 0 {
        out', name := EncodeText(coding, out', e.name);
      }
      out', value := EncodeText(coding, out', e.value);
      piece := Piece(e, IntBytes(nameIndex, 6, 0x40) + (name + value));
      assert IsOwnLiteral(coding, t, e, piece.bytes, nameIndex, name, value);
      table.Insert(e.name, e.value);
    }

    /** A literal with indexing that the encoder does not enter into its own table. */
    method EncodeExtra(out: seq<Byte>, e: Entry) returns (out': seq<Byte>, ghost piece: Piece)
      requires IsCoding(coding) && IsEntry(e)
      ensures piece.field == e && out' == out + piece.bytes && IsExtra(coding, piece)
    {
      hide IsCoding;
      hide IsText;
      hide IsShortText;
      hide Pow2;
      Prefixes();
      ghost var name, value;
      out' := EncodeInt(out, 0, 6, 0x40);
      out', name := EncodeText(coding, out', e.name);
      out', value := EncodeText(coding, out', e.value);
      piece := Piece(e, IntBytes(0, 6, 0x40) + (name + value));
    }

    /** Status and headers, in order but for the skipped ones. */
    method EncodeFields(status: Text, headers: seq<Entry>) returns (out: seq<Byte>, ghost pieces: seq<Piece>)
      requires Valid() && |status| < TWO_64 && forall h | h in headers :: IsEntry(h)
      modifies table
      ensures Valid() && FieldsWritten(coding, old(table.Contents()), table.Contents(), out, pieces)
      ensures Entries(pieces) == [Entry(STATUS, status)] + Sent(headers)
    {
      hide Ascii;
      hide IsCoding;
      hide FieldsWritten;
      hide IsField;
      hide Entries;
      ghost var t := table.Contents();
      ghost var piece;
      pieces := [];
      NothingWritten(coding, t);
      ghost var t' := table.Contents();
      out, piece := EncodeField([], Entry(STATUS, status));
      OneMore(coding, t, t', [], pieces, piece);
      pieces := pieces + [piece];
      assert [Entry(STATUS, status)] + Sent(headers[..0]) == [] + [Entry(STATUS, status)];
      for i := 0 to |headers|
        invariant Valid() && FieldsWritten(coding, t, table.Contents(), out, pieces)
        invariant Entries(pieces) == [Entry(STATUS, status)] + Sent(headers[..i])
      {
        SentAdd(headers, i);
        if IsSkipped(headers[i].name) {
          continue;
        }
        ghost var before := out;
        t' := table.Contents();
        out, piece := EncodeField(out, headers[i]);
        OneMore(coding, t, t', before, pieces, piece);
        pieces := pieces + [piece];
      }
      assert headers[..|headers|] == headers;
    }

    method EncodeExtras(before: seq<Byte>, length: Option<Text>, cookies: seq<Text>)
      returns (out: seq<Byte>, ghost pieces: seq<Piece>)
      requires IsCoding(coding) && (length.Some? ==> |length.value| < TWO_64) && forall v | v in cookies :: |v| < TWO_64
      ensures out == before + Bytes(pieces) && forall p | p in pieces :: IsExtra(coding, p)
      ensures Entries(pieces) == LengthEntry(length) + Cookies(cookies)
    {
      hide Ascii;
      hide IsCoding;
      hide IsExtra;
      hide Bytes;
      hide Entries;
      ghost var piece;
      out, pieces := before, [];
      NoPieces();
      if length.Some? {
        out, piece := EncodeExtra(out, Entry(CONTENT_LENGTH, length.value));
        AddPiece(pieces, piece);
        pieces := pieces + [piece];
      }
      for i := 0 to |cookies|
        invariant out == before + Bytes(pieces) && forall p | p in pieces :: IsExtra(coding, p)
        invariant Entries(pieces) == LengthEntry(length) + Cookies(cookies[..i])
      {
        assert cookies[..i + 1][..i] == cookies[..i];
        out, piece := EncodeExtra(out, Entry(SET_COOKIE, cookies[i]));
        AddPiece(pieces, piece);
        pieces := pieces + [piece];
      }
      assert cookies[..|cookies|] == cookies;
    }

    /**
     A response: its status, its headers but for the skipped ones, then the content length if it has
     one and a cookie each. The bytes are those of a right block of exactly these fields, and the
     table goes through the fields and not the extras.
     */
    method EncodeResponse(status: Text, headers: seq<Entry>, length: Option<Text>, cookies: seq<Text>)
      returns (out: seq<Byte>, ghost block: Block)
      requires Valid() && |status| < TWO_64 && forall h | h in headers :: IsEntry(h)
      requires (length.Some? ==> |length.value| < TWO_64) && forall v | v in cookies :: |v| < TWO_64
      modifies table
      ensures Valid() && out == BlockBytes(block) && IsBlock(coding, old(table.Contents()), block)
      ensures Entries(block.fields) == [Entry(STATUS, status)] + Sent(headers)
      ensures Entries(block.extras) == LengthEntry(length) + Cookies(cookies)
      ensures table.Contents() == AfterFields(old(table.Contents()), block.fields)
    {
      hide IsCoding;
      hide AreFields;
      hide IsExtra;
      ghost var fields, extras;
      out, fields := EncodeFields(status, headers);
      out, extras := EncodeExtras(out, length, cookies);
      block := Block(fields, extras);
    }
  }

  /** The table has gone from `t` to `t'` through the pieces, and `out` is their bytes. */
  ghost predicate FieldsWritten(c: Coding, t: Table, t': Table, out: seq<Byte>, pieces: seq<Piece>)
    requires IsCoding(c) && IsTable(t)
  {
    out == Bytes(pieces) && AreFields(c, t, pieces) && t' == AfterFields(t, pieces)
  }

  lemma NoPieces()
    ensures Bytes([]) == [] && Entries([]) == []
  {
  }

  lemma NothingWritten(c: Coding, t: Table)
    requires IsCoding(c) && IsTable(t)
    ensures FieldsWritten(c, t, t, [], []) && Entries([]) == []
  {
  }

  lemma {:induction false} OneMore(c: Coding, t: Table, t': Table, out: seq<Byte>, pieces: seq<Piece>, p: Piece)
    requires IsCoding(c) && IsTable(t) && IsTable(t') && FieldsWritten(c, t, t', out, pieces)
    requires IsEntry(p.field) && IsField(c, t', p.field, p.bytes)
    ensures FieldsWritten(c, t, AfterField(t', p.field), out + p.bytes, pieces + [p])
    ensures Entries(pieces + [p]) == Entries(pieces) + [p.field]
  {
    hide IsCoding;
    hide IsTable;
    hide IsField;
    hide AreFields;
    AddField(c, t, pieces, p);
    AddPiece(pieces, p);
  }

  lemma SentAdd(headers: seq<Entry>, i: nat)
    requires i < |headers|
    ensures Sent(headers[..i + 1]) ==
            if IsSkipped(headers[i].name) then Sent(headers[..i]) else Sent(headers[..i]) + [headers[i]]
  {
    assert headers[..i + 1][..i] == headers[..i];
  }

  /** Header names that are not sent as they stand. */
  predicate IsSkipped(name: Text) {
    name == CONTENT_LENGTH || name == TRANSFER_ENCODING || name == CONNECTION
  }

  function Sent(headers: seq<Entry>): seq<Entry> {
    if headers == [] then []
    else
      var others := Sent(headers[..|headers| - 1]);
      var h := headers[|headers| - 1];
      if IsSkipped(h.name) then others else others + [h]
  }

  function LengthEntry(length: Option<Text>): seq<Entry> {
    if length.Some? then [Entry(CONTENT_LENGTH, length.value)] else []
  }

  function Cookies(cookies: seq<Text>): seq<Entry> {
    if cookies == [] then [] else Cookies(cookies[..|cookies| - 1]) + [Entry(SET_COOKIE, cookies[|cookies| - 1])]
  }

  // ------------------------------------------------------------ the decoder

  class Decoder {
    const coding: Coding
    const table: DynamicTable

    ghost predicate Valid()
      reads this, table
    {
      IsCoding(coding) && table.Valid()
    }

    constructor (coding: Coding, table: DynamicTable)
      requires IsCoding(coding) && table.Valid()
      ensures Valid() && this.coding == coding && this.table == table
    {
      this.coding, this.table := coding, table;
    }

    method DecodeLiteral(data: seq<Byte>, pos: nat, bits: nat) returns (r: Option<Entry>, pos': nat)
      requires Valid() && pos < |data| && 1 <= bits <= 8
      ensures pos <= pos' <= |data|
      ensures var (index, rest) := ReadInt(data[pos..], bits);
              && (r.None? ==> ReadLiteral(coding, table.Contents(), index, rest).None?)
              && (r.Some? ==> ReadLiteral(coding, table.Contents(), index, rest) == Some((r.value, data[pos'..])))
    {
      hide IsCoding;
      hide ReadInt;
      hide ReadText;
      hide Get;
      var index, name;
      index, pos' := DecodeInt(data, pos, bits);
      if index == 0 {
        name, pos' := DecodeText(coding, data, pos');
      } else {
        var e := table.Lookup(index);
        name := if e.Some? then Some(e.value.name) else None;
      }
      if name.None? {
        return None, pos';
      }
      var value;
      value, pos' := DecodeText(coding, data, pos');
      if value.None? {
        return None, pos';
      }
      r := Some(Entry(name.value, value.value));
    }

    /** One representation, at `pos`. */
    method DecodeField(data: seq<Byte>, pos: nat, late: bool) returns (ok: bool, field: Option<Entry>, pos': nat)
      requires Valid() && pos < |data|
      modifies table
      ensures pos <= pos' <= |data|
      ensures !ok ==> ReadField(coding, old(table.Contents()), late, data[pos..]).None?
      ensures ok ==> Valid()
      ensures ok ==> ReadField(coding, old(table.Contents()), late, data[pos..])
                     == Some(Item(field, table.Contents(), data[pos'..]))
    {
      hide IsCoding;
      hide ReadInt;
      hide ReadLiteral;
      hide Get;
      hide Inserted;
      hide Resized;
      var first := data[pos];
      if first >= 0x80 {
        var index;
        index, pos' := DecodeInt(data, pos, 7);
        field := table.Lookup(index);
        ok := field.Some?;
      } else if first >= 0x40 {
        field, pos' := DecodeLiteral(data, pos, 6);
        ok := field.Some?;
        if ok {
          table.Insert(field.value.name, field.value.value);
        }
      } else if first >= 0x20 {
        var size;
        size, pos' := DecodeInt(data, pos, 5);
        field, ok := None, !late && size <= table.maxSize;
        if ok {
          table.SetMaxSize(size);
        }
      } else {
        field, pos' := DecodeLiteral(data, pos, 4);
        ok := field.Some?;
      }
    }

    /** A whole block; where it is right the table becomes that of the reading. */
    method Decode(data: seq<Byte>) returns (r: Option<seq<Entry>>)
      requires Valid()
      modifies table
      ensures r.None? ==> ReadBlock(coding, old(table.Contents()), data, []).None?
      ensures r.Some? ==> Valid()
      ensures r.Some? ==> ReadBlock(coding, old(table.Contents()), data, []) == Some((r.value, table.Contents()))
    {
      hide IsCoding;
      hide ReadField;
      hide IsLate;
      var fields: seq<Entry> := [];
      var pos := 0;
      assert data[0..] == data;
      while pos < |data|
        invariant pos <= |data| && Valid()
        invariant ReadBlock(coding, table.Contents(), data[pos..], fields) ==
                  ReadBlock(coding, old(table.Contents()), data, [])
      {
        var late := IsLate(fields);
        ghost var before := pos;
        var ok, field;
        ok, field, pos := DecodeField(data, pos, late);
        if !ok {
          return None;
        }
        assert |data[pos..]| < |data[before..]|;
        if field.Some? {
          fields := fields + [field.value];
        }
      }
      return Some(fields);
    }
  }
}
