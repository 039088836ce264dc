/**
 What the decoder makes of a block by any encoder: all representations of section 6 of RFC 7541, in any
 order, and the ones it refuses.
 */
module HpackReading {
  import opened Wrappers
  import opened ByteIO
  import opened Arith
  import opened HpackInt
  import opened HpackTable
  import opened Hpack
  import opened HpackBlock

  /** A literal enters the table, or does not, or must not be indexed by anyone on the way either. */
  datatype Indexing = WithIndexing | WithoutIndexing | NeverIndexed

  /** A literal gives its name by index `i`, or in full, as `name`, where `i` is zero. */
  datatype Rep =
    | Indexed(i: nat)
    | Literal(indexing: Indexing, field: Entry, i: nat, name: seq<Byte>, value: seq<Byte>)
    | SizeUpdate(size: nat)

  function LiteralHead(indexing: Indexing, i: nat): (bytes: seq<Byte>)
    ensures bytes != []
  {
    Prefixes();
    match indexing
    case WithIndexing => IntBytes(i, 6, 0x40)
    case WithoutIndexing => IntBytes(i, 4, 0)
    case NeverIndexed => IntBytes(i, 4, 0x10)
  }

  function RepBytes(r: Rep): (bytes: seq<Byte>)
    ensures bytes != []
  {
    Prefixes();
    match r
    case Indexed(i) => IntBytes(i, 7, 0x80)
    case Literal(indexing, _, i, name, value) => LiteralHead(indexing, i) + (name + value)
    case SizeUpdate(size) => IntBytes(size, 5, 0x20)
  }

  /** The texts of a literal are those of its field. */
  ghost predicate HasTexts(c: Coding, r: Rep)
    requires IsCoding(c)
  {
    r.Literal? ==>
      && IsEntry(r.field) && IsText(c, r.value, r.field.value)
      && (if r.i == 0 then IsText(c, r.name, r.field.name) else r.name == [])
  }

  /** Fields that close the part of a block in which the table may be resized. */
  ghost predicate NoneRegular(fields: seq<Entry>) {
    forall f | f in fields :: f.name != [] && f.name[0] == ':' as int && (f.name == METHOD ==> f.value == [])
  }

  /** What the decoder takes: known indices, and size updates within the limit ahead of all that matters. */
  ghost predicate IsTaken(t: Table, fields: seq<Entry>, r: Rep)
    requires IsTable(t)
  {
    match r
    case Indexed(i) => Get(t, i).Some?
    case Literal(_, field, i, _, _) => i == 0 || (Get(t, i).Some? && Get(t, i).value.name == field.name)
    case SizeUpdate(size) => size <= t.max && NoneRegular(fields)
  }

  /** What it refuses; a literal under the name of another index is neither, it stands for another field. */
  ghost predicate IsRefused(t: Table, fields: seq<Entry>, r: Rep)
    requires IsTable(t)
  {
    match r
    case Indexed(i) => Get(t, i).None?
    case Literal(_, field, i, _, _) => i != 0 && Get(t, i).None?
    case SizeUpdate(size) => size > t.max || !NoneRegular(fields)
  }

  /** The field a representation stands for. */
  function FieldOf(t: Table, r: Rep): Option<Entry>
    requires IsTable(t)
  {
    match r
    case Indexed(i) => Get(t, i)
    case Literal(_, field, _, _, _) => Some(field)
    case SizeUpdate(_) => None
  }

  function AfterRep(t: Table, r: Rep): (t': Table)
    requires IsTable(t) && (r.SizeUpdate? ==> r.size <= t.max)
    ensures IsTable(t')
  {
    match r
    case Indexed(_) => t
    case Literal(WithIndexing, field, _, _, _) => InsertedIsTable(t, field); Inserted(t, field)
    case Literal(_, _, _, _, _) => t
    case SizeUpdate(size) => FitIsLongest(t.dynamic, size, 0); Resized(t, size)
  }

  predicate IsSmall(r: Rep) {
    (if r.SizeUpdate? then r.size else r.i) < TWO_64
  }

  lemma LateIs(fields: seq<Entry>)
    ensures IsLate(fields) <==> !NoneRegular(fields)
  {
  }

  lemma HeadIsRead(indexing: Indexing, i: nat, rest: seq<Byte>)
    requires i < TWO_64
    ensures var data := LiteralHead(indexing, i) + rest;
            if indexing.WithIndexing? then 0x40 <= data[0] < 0x80 && ReadInt(data, 6) == (i, rest)
            else data[0] < 0x20 && ReadInt(data, 4) == (i, rest)
  {
    hide Pow2;
    Prefixes();
    match indexing
    case WithIndexing => IntRoundTrip(i, 6, 0x40, rest);
    case WithoutIndexing => IntRoundTrip(i, 4, 0, rest);
    case NeverIndexed => IntRoundTrip(i, 4, 0x10, rest);
  }

  /** A literal behind its head: its texts are read, and its name looked up. */
  lemma BodyIsRead(c: Coding, t: Table, r: Rep, rest: seq<Byte>)
    requires IsCoding(c) && IsTable(t) && r.Literal? && HasTexts(c, r)
    ensures r.i == 0 || (Get(t, r.i).Some? && Get(t, r.i).value.name == r.field.name) ==>
              ReadLiteral(c, t, r.i, r.name + (r.value + rest)) == Some((r.field, rest))
    ensures r.i != 0 && Get(t, r.i).None? ==> ReadLiteral(c, t, r.i, r.name + (r.value + rest)).None?
  {
    hide IsCoding;
    hide IsTable;
    hide IsText;
    hide Get;
    hide ReadText;
    TextRoundTrip(c, r.value, r.field.value, rest);
    if r.i == 0 {
      TextRoundTrip(c, r.name, r.field.name, r.value + rest);
    } else {
      assert r.name + (r.value + rest) == r.value + rest;
    }
  }

  lemma LiteralRepIsRead(c: Coding, t: Table, late: bool, r: Rep, rest: seq<Byte>)
    requires IsCoding(c) && IsTable(t) && r.Literal? && HasTexts(c, r) && r.i < TWO_64
    ensures r.i == 0 || (Get(t, r.i).Some? && Get(t, r.i).value.name == r.field.name) ==>
              ReadField(c, t, late, RepBytes(r) + rest) == Some(Item(Some(r.field), AfterRep(t, r), rest))
    ensures r.i != 0 && Get(t, r.i).None? ==> ReadField(c, t, late, RepBytes(r) + rest).None?
  {
    hide IsCoding;
    hide IsTable;
    hide HasTexts;
    hide LiteralHead;
    hide ReadInt;
    hide ReadLiteral;
    hide Get;
    hide Inserted;
    var after := r.name + (r.value + rest);
    assert RepBytes(r) + rest == LiteralHead(r.indexing, r.i) + after;
    HeadIsRead(r.indexing, r.i, after);
    BodyIsRead(c, t, r, rest);
  }

  lemma OtherRepIsRead(c: Coding, t: Table, late: bool, r: Rep, rest: seq<Byte>)
    requires IsCoding(c) && IsTable(t) && !r.Literal? && IsSmall(r)
    ensures r.Indexed? ==>
              ReadField(c, t, late, RepBytes(r) + rest) ==
              if Get(t, r.i).Some? then Some(Item(Get(t, r.i), t, rest)) else None
    ensures r.SizeUpdate? ==>
              ReadField(c, t, late, RepBytes(r) + rest) ==
              if r.size <= t.max && !late then Some(Item(None, AfterRep(t, r), rest)) else None
  {
    hide IsCoding;
    hide IsTable;
    hide Pow2;
    hide Get;
    hide Resized;
    Prefixes();
    if r.Indexed? {
      IntRoundTrip(r.i, 7, 0x80, rest);
    } else {
      IntRoundTrip(r.size, 5, 0x20, rest);
    }
  }

  /** Every representation that is taken is read as the field it stands for, with its change to the table. */
  lemma RepIsRead(c: Coding, t: Table, fields: seq<Entry>, r: Rep, rest: seq<Byte>)
    requires IsCoding(c) && IsTable(t) && HasTexts(c, r) && IsSmall(r)
    ensures IsTaken(t, fields, r) ==>
              ReadField(c, t, IsLate(fields), RepBytes(r) + rest) == Some(Item(FieldOf(t, r), AfterRep(t, r), rest))
    ensures IsRefused(t, fields, r) ==> ReadField(c, t, IsLate(fields), RepBytes(r) + rest).None?
  {
    hide IsCoding;
    hide IsTable;
    hide ReadField;
    hide IsLate;
    hide NoneRegular;
    hide RepBytes;
    hide Get;
    hide Inserted;
    hide Resized;
    LateIs(fields);
    if r.Literal? {
      LiteralRepIsRead(c, t, IsLate(fields), r, rest);
    } else {
      OtherRepIsRead(c, t, IsLate(fields), r, rest);
    }
  }

  // ------------------------------------------------------------ whole blocks

  function WithField(fields: seq<Entry>, field: Option<Entry>): seq<Entry> {
    if field.Some? then fields + [field.value] else fields
  }

  /** Representations that are taken one after the other, behind the fields already read. */
  ghost predicate AreTaken(c: Coding, t: Table, fields: seq<Entry>, reps: seq<Rep>)
    requires IsCoding(c) && IsTable(t)
    decreases |reps|
  {
    reps == [] ||
    (&& HasTexts(c, reps[0]) && IsSmall(reps[0]) && IsTaken(t, fields, reps[0])
     && AreTaken(c, AfterRep(t, reps[0]), WithField(fields, FieldOf(t, reps[0])), reps[1..]))
  }

  function AllBytes(reps: seq<Rep>): seq<Byte> {
    if reps == [] then [] else RepBytes(reps[0]) + AllBytes(reps[1..])
  }

  /** The fields that they stand for, behind those already read, and the table after them. */
  ghost function Meaning(c: Coding, t: Table, fields: seq<Entry>, reps: seq<Rep>): (seq<Entry>, Table)
    requires IsCoding(c) && IsTable(t) && AreTaken(c, t, fields, reps)
    ensures IsTable(Meaning(c, t, fields, reps).1)
    decreases |reps|
  {
    if reps == [] then (fields, t)
    else Meaning(c, AfterRep(t, reps[0]), WithField(fields, FieldOf(t, reps[0])), reps[1..])
  }

  /** Every block of such representations is read as the fields they stand for, whatever encoder wrote it. */
  lemma {:induction false} AnyBlockIsRead(c: Coding, t: Table, fields: seq<Entry>, reps: seq<Rep>, rest: seq<Byte>)
    requires IsCoding(c) && IsTable(t) && AreTaken(c, t, fields, reps)
    ensures var (fields', t') := Meaning(c, t, fields, reps);
            ReadBlock(c, t, AllBytes(reps) + rest, fields) == ReadBlock(c, t', rest, fields')
    decreases |reps|
  {
    hide IsCoding;
    hide IsTable;
    hide HasTexts;
    hide IsTaken;
    hide ReadField;
    hide IsLate;
    hide AfterRep;
    hide FieldOf;
    hide RepBytes;
    if reps == [] {
      assert AllBytes(reps) + rest == rest;
    } else {
      var r, others := reps[0], reps[1..];
      var later := AllBytes(others) + rest;
      assert AllBytes(reps) + rest == RepBytes(r) + later;
      RepIsRead(c, t, fields, r, later);
      OneRep(c, t, fields, r, later);
      AnyBlockIsRead(c, AfterRep(t, r), WithField(fields, FieldOf(t, r)), others, rest);
    }
  }

  lemma {:induction false} OneRep(c: Coding, t: Table, fields: seq<Entry>, r: Rep, later: seq<Byte>)
    requires IsCoding(c) && IsTable(t) && IsTaken(t, fields, r)
    requires ReadField(c, t, IsLate(fields), RepBytes(r) + later) == Some(Item(FieldOf(t, r), AfterRep(t, r), later))
    ensures ReadBlock(c, t, RepBytes(r) + later, fields)
            == ReadBlock(c, AfterRep(t, r), later, WithField(fields, FieldOf(t, r)))
  {
    hide IsCoding;
    hide IsTable;
    hide ReadField;
    hide IsLate;
    hide AfterRep;
    hide FieldOf;
    hide RepBytes;
  }

  /** And a block is refused as soon as one representation in it is. */
  lemma {:induction false} RefusedBlock(c: Coding, t: Table, reps: seq<Rep>, r: Rep, rest: seq<Byte>)
    requires IsCoding(c) && IsTable(t) && AreTaken(c, t, [], reps) && HasTexts(c, r) && IsSmall(r)
    requires var (fields, t') := Meaning(c, t, [], reps); IsRefused(t', fields, r)
    ensures ReadBlock(c, t, AllBytes(reps) + (RepBytes(r) + rest), []).None?
  {
    hide IsCoding;
    hide IsTable;
    hide HasTexts;
    hide IsRefused;
    hide ReadField;
    hide IsLate;
    hide RepBytes;
    var (fields, t') := Meaning(c, t, [], reps);
    AnyBlockIsRead(c, t, [], reps, RepBytes(r) + rest);
    RepIsRead(c, t', fields, r, rest);
  }
}
