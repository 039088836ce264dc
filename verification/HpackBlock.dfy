/**
 HPACK header blocks: how the encoder represents a list of fields, how the decoder reads it back, and
 when the two tables stay in step (sections 2.3 and 6 of RFC 7541).
 */
module HpackBlock {
  import opened Wrappers
  import opened ByteIO
  import opened Arith
  import opened HpackInt
  import opened HpackTable
  import opened Hpack

  // ------------------------------------------------------------ reading

  datatype Item = Item(field: Option<Entry>, table: Table, rest: seq<Byte>)

  /** A size update is refused after a regular field or a nonempty method. */
  predicate IsLate(fields: seq<Entry>) {
    exists f :: f in fields && (f.name == [] || f.name[0] != ':' as int || (f.name == METHOD && f.value != []))
  }

  const METHOD: Text := [':' as int, 'm' as int, 'e' as int, 't' as int, 'h' as int, 'o' as int, 'd' as int]

  /** A literal: its name by index or in full, then its value. */
  function ReadLiteral(c: Coding, t: Table, index: nat, data: seq<Byte>): (r: Option<(Entry, seq<Byte>)>)
    requires IsCoding(c) && IsTable(t)
    ensures r.Some? ==> |r.value.1| < |data|
  {
    var named := if index == 0 then ReadText(c, data) else NameAt(t, index, data);
    if named.None? then None
    else
      var value := ReadText(c, named.value.1);
      if value.None? then None else Some((Entry(named.value.0, value.value.0), value.value.1))
  }

  function NameAt(t: Table, index: nat, data: seq<Byte>): (r: Option<(Text, seq<Byte>)>)
    requires IsTable(t)
    ensures r.Some? ==> r.value.1 == data
  {
    var e := Get(t, index);
    if e.None? then None else Some((e.value.name, data))
  }

  /** One representation: indexed, literal with indexing, size update, or literal without indexing. */
  function ReadField(c: Coding, t: Table, late: bool, data: seq<Byte>): (r: Option<Item>)
    requires IsCoding(c) && IsTable(t) && data != []
    ensures r.Some? ==> |r.value.rest| < |data| && IsTable(r.value.table)
  {
    if data[0] >= 0x80 then
      IntShrinks(data, 7);
      var (index, rest) := ReadInt(data, 7);
      var e := Get(t, index);
      if e.None? then None else Some(Item(e, t, rest))
    else if data[0] >= 0x40 then
      IntShrinks(data, 6);
      var (index, rest) := ReadInt(data, 6);
      var l := ReadLiteral(c, t, index, rest);
      if l.None? then None
      else
        InsertedIsTable(t, l.value.0);
        Some(Item(Some(l.value.0), Inserted(t, l.value.0), l.value.1))
    else if data[0] >= 0x20 then
      IntShrinks(data, 5);
      var (size, rest) := ReadInt(data, 5);
      if late || size > t.max then None
      else
        FitIsLongest(t.dynamic, size, 0);
        Some(Item(None, Resized(t, size), rest))
    else
      IntShrinks(data, 4);
      var (index, rest) := ReadInt(data, 4);
      var l := ReadLiteral(c, t, index, rest);
      if l.None? then None else Some(Item(Some(l.value.0), t, l.value.1))
  }

  /** The fields of a block behind those already read, and the table after it. */
  function ReadBlock(c: Coding, t: Table, data: seq<Byte>, fields: seq<Entry>): (r: Option<(seq<Entry>, Table)>)
    requires IsCoding(c) && IsTable(t)
    ensures r.Some? ==> IsTable(r.value.1)
    decreases |data|
  {
    if data == [] then Some((fields, t))
    else
      var item := ReadField(c, t, IsLate(fields), data);
      if item.None? then None
      else
        var more := if item.value.field.Some? then fields + [item.value.field.value] else fields;
        ReadBlock(c, item.value.table, item.value.rest, more)
  }

  // ------------------------------------------------------------ writing

  predicate IsEntry(e: Entry) {
    |e.name| < TWO_64 && |e.value| < TWO_64
  }

  /** A literal with indexing: name by index `i`, or in full where `i` is zero. */
  ghost predicate IsLiteral(c: Coding, t: Table, e: Entry, bytes: seq<Byte>, i: nat, name: seq<Byte>, value: seq<Byte>)
    requires IsCoding(c) && IsTable(t)
  {
    Prefixes();
    && (if i == 0 then IsText(c, name, e.name) else name == [] && Get(t, i).Some? && Get(t, i).value.name == e.name)
    && IsText(c, value, e.value)
    && bytes == IntBytes(i, 6, 0x40) + (name + value)
  }

  ghost predicate IsIndexed(t: Table, e: Entry, bytes: seq<Byte>, i: nat)
    requires IsTable(t)
  {
    Prefixes();
    Get(t, i) == Some(e) && bytes == IntBytes(i, 7, 0x80)
  }

  /** A field the table holds goes by its index, another one as a literal that enters the table. */
  ghost predicate IsField(c: Coding, t: Table, e: Entry, bytes: seq<Byte>)
    requires IsCoding(c) && IsTable(t)
  {
    if HasEntry(t, e) then exists i :: IsIndexed(t, e, bytes, i)
    else exists i, name, value :: IsLiteral(c, t, e, bytes, i, name, value)
  }

  function AfterField(t: Table, e: Entry): (t': Table)
    requires IsTable(t)
    ensures IsTable(t')
  {
    if HasEntry(t, e) then t
    else
      InsertedIsTable(t, e);
      Inserted(t, e)
  }

  lemma IndexBound(t: Table, i: nat)
    requires IsTable(t) && Get(t, i).Some?
    ensures i < TWO_64
  {
    CountBound(t.dynamic);
  }

  lemma IndexedIsRead(c: Coding, t: Table, e: Entry, bytes: seq<Byte>, i: nat, late: bool, rest: seq<Byte>)
    requires IsCoding(c) && IsTable(t) && IsIndexed(t, e, bytes, i)
    ensures bytes != [] && ReadField(c, t, late, bytes + rest) == Some(Item(Some(e), t, rest))
  {
    hide IsCoding;
    hide IsTable;
    hide Pow2;
    hide Get;
    Prefixes();
    IndexBound(t, i);
    IntRoundTrip(i, 7, 0x80, rest);
  }

  lemma LiteralIsRead(c: Coding, t: Table, e: Entry, bytes: seq<Byte>, i: nat, name: seq<Byte>, value: seq<Byte>,
                      late: bool, rest: seq<Byte>)
    requires IsCoding(c) && IsTable(t) && IsEntry(e) && IsLiteral(c, t, e, bytes, i, name, value)
    ensures bytes != [] && ReadField(c, t, late, bytes + rest) == Some(Item(Some(e), Inserted(t, e), rest))
  {
    hide IsCoding;
    hide IsTable;
    hide IsText;
    hide Pow2;
    hide Get;
    hide Inserted;
    hide ReadText;
    Prefixes();
    if i > 0 {
      IndexBound(t, i);
    }
    var after := name + (value + rest);
    assert bytes + rest == IntBytes(i, 6, 0x40) + after;
    IntRoundTrip(i, 6, 0x40, after);
    TextRoundTrip(c, value, e.value, rest);
    if i == 0 {
      TextRoundTrip(c, name, e.name, value + rest);
    } else {
      assert after == value + rest;
    }
    assert ReadLiteral(c, t, i, after) == Some((e, rest));
  }

  /** Every right representation of a field is read back as that field, with the encoder's change to the table. */
  lemma FieldRoundTrip(c: Coding, t: Table, e: Entry, bytes: seq<Byte>, late: bool, rest: seq<Byte>)
    requires IsCoding(c) && IsTable(t) && IsEntry(e) && IsField(c, t, e, bytes)
    ensures bytes != [] && ReadField(c, t, late, bytes + rest) == Some(Item(Some(e), AfterField(t, e), rest))
  {
    hide IsCoding;
    hide IsTable;
    hide IsLiteral;
    hide IsIndexed;
    hide ReadField;
    hide Inserted;
    if HasEntry(t, e) {
      var i :| IsIndexed(t, e, bytes, i);
      IndexedIsRead(c, t, e, bytes, i, late, rest);
    } else {
      var i, name, value :| IsLiteral(c, t, e, bytes, i, name, value);
      LiteralIsRead(c, t, e, bytes, i, name, value, late, rest);
    }
  }
}
