/**
 Whole header blocks and sequences of them: when the encoder's and the decoder's tables run in lockstep.
 Content length and cookies, the extras of a block, enter the decoder's table and not the encoder's.
 */
module HpackLockstep {
  import opened Collections
  import opened Wrappers
  import opened ByteIO
  import opened HpackInt
  import opened HpackTable
  import opened Hpack
  import opened HpackBlock

  /** A field and the bytes sent for it. */
  datatype Piece = Piece(field: Entry, bytes: seq<Byte>)

  /**
   A block: status and headers, and then the content length and cookies, which are sent as literals
   with indexing but do not enter the encoder's own table.
   */
  datatype Block = Block(fields: seq<Piece>, extras: seq<Piece>)

  function Bytes(pieces: seq<Piece>): seq<Byte> {
    if pieces == [] then [] else pieces[0].bytes + Bytes(pieces[1..])
  }

  function Entries(pieces: seq<Piece>): seq<Entry> {
    if pieces == [] then [] else [pieces[0].field] + Entries(pieces[1..])
  }

  function BlockBytes(b: Block): seq<Byte> {
    Bytes(b.fields) + Bytes(b.extras)
  }

  function BlockEntries(b: Block): seq<Entry> {
    Entries(b.fields) + Entries(b.extras)
  }

  // ------------------------------------------------------------ the tables

  function AfterFields(t: Table, pieces: seq<Piece>): (t': Table)
    requires IsTable(t)
    ensures IsTable(t')
    decreases |pieces|
  {
    if pieces == [] then t else AfterFields(AfterField(t, pieces[0].field), pieces[1..])
  }

  /** What the other side does with extras: it enters them all. */
  function AfterExtras(t: Table, pieces: seq<Piece>): (t': Table)
    requires IsTable(t)
    ensures IsTable(t')
    decreases |pieces|
  {
    if pieces == [] then t
    else
      InsertedIsTable(t, pieces[0].field);
      AfterExtras(Inserted(t, pieces[0].field), pieces[1..])
  }

  ghost predicate AreFields(c: Coding, t: Table, pieces: seq<Piece>)
    requires IsCoding(c) && IsTable(t)
    decreases |pieces|
  {
    pieces == [] ||
    (&& IsEntry(pieces[0].field)
     && IsField(c, t, pieces[0].field, pieces[0].bytes)
     && AreFields(c, AfterField(t, pieces[0].field), pieces[1..]))
  }

  /** A literal with indexing and its name in full; the table does not matter. */
  ghost predicate IsExtra(c: Coding, p: Piece)
    requires IsCoding(c)
  {
    Prefixes();
    && IsEntry(p.field)
    && exists name, value ::
      && IsText(c, name, p.field.name)
      && IsText(c, value, p.field.value)
      && p.bytes == IntBytes(0, 6, 0x40) + (name + value)
  }

  ghost predicate IsBlock(c: Coding, t: Table, b: Block)
    requires IsCoding(c) && IsTable(t)
  {
    AreFields(c, t, b.fields) && forall p | p in b.extras :: IsExtra(c, p)
  }

  lemma {:induction false} AddPiece(pieces: seq<Piece>, p: Piece)
    ensures Bytes(pieces + [p]) == Bytes(pieces) + p.bytes && Entries(pieces + [p]) == Entries(pieces) + [p.field]
  {
    if pieces == [] {
      assert [] + [p] == [p] && [p][1..] == [];
      assert Bytes([p]) == p.bytes + [] == p.bytes;
    } else {
      AddPiece(pieces[1..], p);
      assert (pieces + [p])[1..] == pieces[1..] + [p];
    }
  }

  lemma {:induction false} AddField(c: Coding, t: Table, pieces: seq<Piece>, p: Piece)
    requires IsCoding(c) && IsTable(t) && AreFields(c, t, pieces)
    requires IsEntry(p.field) && IsField(c, AfterFields(t, pieces), p.field, p.bytes)
    ensures AreFields(c, t, pieces + [p])
    ensures AfterFields(t, pieces + [p]) == AfterField(AfterFields(t, pieces), p.field)
    decreases |pieces|
  {
    hide IsCoding;
    hide IsTable;
    hide IsField;
    if pieces == [] {
      assert [] + [p] == [p] && [p][1..] == [];
    } else {
      AddField(c, AfterField(t, pieces[0].field), pieces[1..], p);
      assert (pieces + [p])[1..] == pieces[1..] + [p];
    }
  }

  // ------------------------------------------------------------ one block

  lemma {:induction false} ReadOne(c: Coding, t: Table, piece: Piece, t': Table, rest: seq<Byte>, fields: seq<Entry>)
    requires IsCoding(c) && IsTable(t) && IsTable(t') && piece.bytes != []
    requires ReadField(c, t, IsLate(fields), piece.bytes + rest) == Some(Item(Some(piece.field), t', rest))
    ensures ReadBlock(c, t, piece.bytes + rest, fields) == ReadBlock(c, t', rest, fields + [piece.field])
  {
  }

  lemma {:induction false} FieldsAreRead(c: Coding, t: Table, pieces: seq<Piece>, rest: seq<Byte>, fields: seq<Entry>)
    requires IsCoding(c) && IsTable(t) && AreFields(c, t, pieces)
    ensures ReadBlock(c, t, Bytes(pieces) + rest, fields) ==
            ReadBlock(c, AfterFields(t, pieces), rest, fields + Entries(pieces))
    decreases |pieces|
  {
    hide IsCoding;
    hide IsTable;
    hide IsField;
    hide ReadField;
    hide ReadBlock;
    if pieces == [] {
      assert Bytes(pieces) + rest == rest && fields + Entries(pieces) == fields;
    } else {
      var p, others := pieces[0], pieces[1..];
      assert Bytes(pieces) + rest == p.bytes + (Bytes(others) + rest);
      FieldRoundTrip(c, t, p.field, p.bytes, IsLate(fields), Bytes(others) + rest);
      ReadOne(c, t, p, AfterField(t, p.field), Bytes(others) + rest, fields);
      FieldsAreRead(c, AfterField(t, p.field), others, rest, fields + [p.field]);
      assert fields + [p.field] + Entries(others) == fields + Entries(pieces);
    }
  }

  lemma {:induction false} ExtrasAreRead(c: Coding, t: Table, pieces: seq<Piece>, fields: seq<Entry>)
    requires IsCoding(c) && IsTable(t) && forall p | p in pieces :: IsExtra(c, p)
    ensures ReadBlock(c, t, Bytes(pieces), fields) == Some((fields + Entries(pieces), AfterExtras(t, pieces)))
    decreases |pieces|
  {
    hide IsCoding;
    hide IsTable;
    hide IsText;
    hide ReadField;
    hide Inserted;
    if pieces == [] {
      assert fields + Entries(pieces) == fields;
    } else {
      var p, others := pieces[0], pieces[1..];
      assert IsExtra(c, p);
      Prefixes();
      var name, value :| IsText(c, name, p.field.name) && IsText(c, value, p.field.value)
          && p.bytes == IntBytes(0, 6, 0x40) + (name + value);
      LiteralIsRead(c, t, p.field, p.bytes, 0, name, value, IsLate(fields), Bytes(others));
      InsertedIsTable(t, p.field);
      ReadOne(c, t, p, Inserted(t, p.field), Bytes(others), fields);
      ExtrasAreRead(c, Inserted(t, p.field), others, fields + [p.field]);
      assert fields + [p.field] + Entries(others) == fields + Entries(pieces);
    }
  }

  /** A block is read back field by field, whatever the table; the reader's table gains the extras. */
  lemma {:induction false} BlockRoundTrip(c: Coding, t: Table, b: Block)
    requires IsCoding(c) && IsTable(t) && IsBlock(c, t, b)
    ensures ReadBlock(c, t, BlockBytes(b), []) ==
            Some((BlockEntries(b), AfterExtras(AfterFields(t, b.fields), b.extras)))
  {
    hide IsCoding;
    hide IsTable;
    hide AreFields;
    hide ReadBlock;
    hide IsExtra;
    FieldsAreRead(c, t, b.fields, Bytes(b.extras), []);
    ExtrasAreRead(c, AfterFields(t, b.fields), b.extras, [] + Entries(b.fields));
    assert [] + Entries(b.fields) == Entries(b.fields);
  }

  // ------------------------------------------------------------ runs

  /** The blocks one encoder writes, one after the other. */
  ghost predicate AreBlocks(c: Coding, t: Table, blocks: seq<Block>)
    requires IsCoding(c) && IsTable(t)
    decreases |blocks|
  {
    blocks == [] || (IsBlock(c, t, blocks[0]) && AreBlocks(c, AfterFields(t, blocks[0].fields), blocks[1..]))
  }

  function EncoderTable(t: Table, blocks: seq<Block>): (t': Table)
    requires IsTable(t)
    ensures IsTable(t')
    decreases |blocks|
  {
    if blocks == [] then t else EncoderTable(AfterFields(t, blocks[0].fields), blocks[1..])
  }

  /** The lists a decoder returns for a sequence of blocks, and its table after them. */
  function ReadRun(c: Coding, t: Table, wire: seq<seq<Byte>>): (r: Option<(seq<seq<Entry>>, Table)>)
    requires IsCoding(c) && IsTable(t)
    decreases |wire|
  {
    if wire == [] then Some(([], t))
    else
      var first := ReadBlock(c, t, wire[0], []);
      if first.None? then None
      else
        var others := ReadRun(c, first.value.1, wire[1..]);
        if others.None? then None else Some(([first.value.0] + others.value.0, others.value.1))
  }

  function Wire(blocks: seq<Block>): seq<seq<Byte>> {
    if blocks == [] then [] else [BlockBytes(blocks[0])] + Wire(blocks[1..])
  }

  function Lists(blocks: seq<Block>): seq<seq<Entry>> {
    if blocks == [] then [] else [BlockEntries(blocks[0])] + Lists(blocks[1..])
  }

  // ------------------------------------------------------------ content length and cookies

  function Reversed(pieces: seq<Piece>): seq<Entry> {
    if pieces == [] then [] else Reversed(pieces[1..]) + [pieces[0].field]
  }

  /** Where the table has room for the extras the reader's has them all in front. */
  lemma {:induction false} ExtrasWithRoom(t: Table, pieces: seq<Piece>)
    requires IsTable(t) && Sum(t.dynamic) + Sum(Entries(pieces)) <= t.max
    ensures AfterExtras(t, pieces) == t.(dynamic := Reversed(pieces) + t.dynamic)
    decreases |pieces|
  {
    if pieces == [] {
      assert Reversed(pieces) + t.dynamic == t.dynamic;
    } else {
      var e := pieces[0].field;
      var d := [e] + t.dynamic;
      assert Entries(pieces)[1..] == Entries(pieces[1..]) && d[1..] == t.dynamic;
      assert d[..|d|] == d;
      FitIs(d, t.max, |d|);
      ExtrasWithRoom(Inserted(t, e), pieces[1..]);
      assert Reversed(pieces) + t.dynamic == Reversed(pieces[1..]) + d;
    }
  }

  /** In general it has as many of them, newest first, and of the entries behind them, as fit. */
  lemma {:induction false} ExtrasInGeneral(t: Table, pieces: seq<Piece>)
    requires IsTable(t)
    ensures AfterExtras(t, pieces) == t.(dynamic := Fit(Reversed(pieces) + t.dynamic, t.max))
    decreases |pieces|
  {
    if pieces == [] {
      assert Reversed(pieces) + t.dynamic == t.dynamic && t.dynamic[..|t.dynamic|] == t.dynamic;
      FitIs(t.dynamic, t.max, |t.dynamic|);
    } else {
      var e, others := pieces[0].field, pieces[1..];
      InsertedIsTable(t, e);
      ExtrasInGeneral(Inserted(t, e), others);
      FitUnder(Reversed(others), [e] + t.dynamic, t.max);
      assert Reversed(pieces) + t.dynamic == Reversed(others) + ([e] + t.dynamic);
    }
  }

  lemma {:induction false} FitUnder(front: seq<Entry>, entries: seq<Entry>, max: nat)
    ensures Fit(front + Fit(entries, max), max) == Fit(front + entries, max)
  {
    if front == [] {
      assert front + entries == entries && front + Fit(entries, max) == Fit(entries, max);
      FitTwice(entries, max, max);
    } else {
      var e, others := front[0], front[1..];
      FitUnder(others, entries, max);
      assert front + entries == [e] + (others + entries)
             && front + Fit(entries, max) == [e] + (others + Fit(entries, max));
      FitBehind(e, others + entries, max);
      FitBehind(e, others + Fit(entries, max), max);
    }
  }

  /** An encoder's table never holds an entry twice. */
  lemma {:induction false} StaysDistinct(t: Table, pieces: seq<Piece>)
    requires IsTable(t) && NoDuplicates(t.dynamic)
    ensures NoDuplicates(AfterFields(t, pieces).dynamic)
    decreases |pieces|
  {
    if pieces != [] {
      var e := pieces[0].field;
      if !HasEntry(t, e) {
        FitIsLongest([e] + t.dynamic, t.max, 0);
      }
      StaysDistinct(AfterField(t, e), pieces[1..]);
    }
  }

  /**
   Exactly when the tables are equal again after a block: it has no extras, or its newest extras are
   the very entries of the table, in order, and not one entry more fits.
   */
  predicate IsInStep(t: Table, b: Block)
    requires IsTable(t)
  {
    var e := AfterFields(t, b.fields).dynamic;
    var newest := Reversed(b.extras);
    b.extras == [] || (e <= newest && Sum((newest + e)[..|e| + 1]) > t.max)
  }

  lemma {:induction false} InStepExactly(t: Table, b: Block)
    requires IsTable(t) && NoDuplicates(t.dynamic)
    ensures var e := AfterFields(t, b.fields); AfterExtras(e, b.extras) == e <==> IsInStep(t, b)
  {
    var e := AfterFields(t, b.fields);
    var newest := Reversed(b.extras);
    SameLimit(t, b.fields);
    StaysDistinct(t, b.fields);
    ExtrasInGeneral(e, b.extras);
    if b.extras != [] {
      ReversedStarts(b.extras);
      KeepsItself(newest, e.dynamic, e.max);
    }
  }

  /** All blocks of a sequence, as the encoder's table goes. */
  ghost predicate AreInStep(t: Table, blocks: seq<Block>)
    requires IsTable(t)
    decreases |blocks|
  {
    blocks == [] || (IsInStep(t, blocks[0]) && AreInStep(AfterFields(t, blocks[0].fields), blocks[1..]))
  }

  /** After the first k blocks the decoder has returned the lists encoded, and has the encoder's table. */
  ghost predicate Agree(c: Coding, t: Table, blocks: seq<Block>, k: nat)
    requires IsCoding(c) && IsTable(t) && k <= |blocks|
  {
    ReadRun(c, t, Wire(blocks[..k])) == Some((Lists(blocks[..k]), EncoderTable(t, blocks[..k])))
  }

  /** What the decoder makes of a block and those after it. */
  lemma {:induction false} FirstIsRead(c: Coding, t: Table, b: Block, others: seq<Block>)
    requires IsCoding(c) && IsTable(t) && IsBlock(c, t, b)
    ensures var later := ReadRun(c, AfterExtras(AfterFields(t, b.fields), b.extras), Wire(others));
            ReadRun(c, t, Wire([b] + others)) ==
            if later.None? then None else Some(([BlockEntries(b)] + later.value.0, later.value.1))
    ensures Lists([b] + others) == [BlockEntries(b)] + Lists(others)
    ensures EncoderTable(t, [b] + others) == EncoderTable(AfterFields(t, b.fields), others)
  {
    hide IsCoding;
    hide IsTable;
    hide IsBlock;
    hide ReadBlock;
    BlockRoundTrip(c, t, b);
    assert ([b] + others)[1..] == others;
    var wire := Wire([b] + others);
    assert wire == [BlockBytes(b)] + Wire(others) && wire[1..] == Wire(others);
  }

  lemma {:induction false} AgreeOnFirst(c: Coding, t: Table, blocks: seq<Block>)
    requires IsCoding(c) && IsTable(t) && NoDuplicates(t.dynamic) && AreBlocks(c, t, blocks) && blocks != []
    ensures Agree(c, t, blocks, 0) && (Agree(c, t, blocks, 1) <==> IsInStep(t, blocks[0]))
  {
    hide IsCoding;
    hide IsTable;
    hide IsBlock;
    hide IsInStep;
    var b := blocks[0];
    InStepExactly(t, b);
    assert blocks[..1] == [b] + [] && blocks[..0] == [];
    FirstIsRead(c, t, b, []);
    assert Wire([]) == [] && Lists([]) == [];
  }

  lemma {:induction false} AgreeOnLater(c: Coding, t: Table, blocks: seq<Block>, k: nat)
    requires IsCoding(c) && IsTable(t) && NoDuplicates(t.dynamic) && AreBlocks(c, t, blocks) && 0 < k <= |blocks|
    requires IsInStep(t, blocks[0])
    ensures Agree(c, t, blocks, k) <==> Agree(c, AfterFields(t, blocks[0].fields), blocks[1..], k - 1)
  {
    hide IsCoding;
    hide IsTable;
    hide IsBlock;
    hide IsInStep;
    var b, others := blocks[0], blocks[1..][..k - 1];
    assert blocks[..k] == [b] + others;
    InStepExactly(t, b);
    FirstIsRead(c, t, b, others);
    hide ReadRun;
    hide Wire;
    hide Lists;
    hide EncoderTable;
    hide AfterFields;
    hide AfterExtras;
    var later := ReadRun(c, AfterFields(t, b.fields), Wire(others));
    if later.Some? {
      assert ([BlockEntries(b)] + later.value.0)[1..] == later.value.0;
      assert ([BlockEntries(b)] + Lists(others))[1..] == Lists(others);
    }
  }

  /**
   Lockstep: from equal tables, over every sequence of blocks, the decoder returns the lists encoded and
   has the encoder's table at every point if and only if all blocks are in step.
   */
  lemma {:induction false} Lockstep(c: Coding, t: Table, blocks: seq<Block>)
    requires IsCoding(c) && IsTable(t) && NoDuplicates(t.dynamic) && AreBlocks(c, t, blocks)
    ensures AreInStep(t, blocks) <==> forall k | 0 <= k <= |blocks| :: Agree(c, t, blocks, k)
    decreases |blocks|
  {
    hide IsCoding;
    hide IsTable;
    hide IsBlock;
    hide IsInStep;
    hide Agree;
    if blocks == [] {
      NothingSent(c, t);
    } else {
      var b, others := blocks[0], blocks[1..];
      var t' := AfterFields(t, b.fields);
      AgreeOnFirst(c, t, blocks);
      StaysDistinct(t, b.fields);
      Lockstep(c, t', others);
      if IsInStep(t, b) {
        forall k | 0 < k <= |blocks|
          ensures Agree(c, t, blocks, k) <==> Agree(c, t', others, k - 1)
        {
          AgreeOnLater(c, t, blocks, k);
        }
        Shifted(c, t, t', blocks);
      }
    }
  }

  lemma NothingSent(c: Coding, t: Table)
    requires IsCoding(c) && IsTable(t)
    ensures Agree(c, t, [], 0)
  {
  }

  lemma Shifted(c: Coding, t: Table, t': Table, blocks: seq<Block>)
    requires IsCoding(c) && IsTable(t) && IsTable(t') && blocks != [] && Agree(c, t, blocks, 0)
    requires forall k | 0 < k <= |blocks| :: Agree(c, t, blocks, k) <==> Agree(c, t', blocks[1..], k - 1)
    ensures (forall k | 0 <= k <= |blocks| :: Agree(c, t, blocks, k))
            <==> forall k | 0 <= k <= |blocks[1..]| :: Agree(c, t', blocks[1..], k)
  {
    hide IsCoding;
    hide IsTable;
    hide Agree;
    if forall k | 0 <= k <= |blocks| :: Agree(c, t, blocks, k) {
      forall k | 0 <= k <= |blocks[1..]|
        ensures Agree(c, t', blocks[1..], k)
      {
        assert Agree(c, t, blocks, k + 1);
      }
    }
  }

  lemma {:induction false} KeepsItself(newest: seq<Entry>, entries: seq<Entry>, max: nat)
    requires newest != [] && Sum(entries) <= max && NoDuplicates(entries)
    ensures Fit(newest + entries, max) == entries <==>
              entries <= newest && Sum((newest + entries)[..|entries| + 1]) > max
  {
    var all, n := newest + entries, |entries|;
    FitIsLongest(all, max, n);
    FitIsLongest(all, max, n + 1);
    assert entries <= newest ==> all[..n] == entries;
    if entries <= all && |newest| < n {
      RepeatsFirst(newest, entries);
      assert false;
    }
  }

  lemma RepeatsFirst(newest: seq<Entry>, entries: seq<Entry>)
    requires entries <= newest + entries && |newest| < |entries|
    ensures entries[|newest|] == entries[0]
  {
  }

  lemma {:induction false} SameLimit(t: Table, pieces: seq<Piece>)
    requires IsTable(t)
    ensures AfterFields(t, pieces).max == t.max && AfterFields(t, pieces).fixed == t.fixed
    decreases |pieces|
  {
    if pieces != [] {
      SameLimit(AfterField(t, pieces[0].field), pieces[1..]);
    }
  }

  /**
   And then a field can be misread: the newest entry of the encoder's table goes by index 62, which in
   the decoder's table is the last of the extras.
   */
  lemma {:induction false} NewestIsMisread(c: Coding, t: Table, extras: seq<Piece>, late: bool)
    requires IsCoding(c) && IsTable(t) && t.dynamic != [] && extras != []
    requires Sum(t.dynamic) + Sum(Entries(extras)) <= t.max
    ensures IsHigh(0x80, 7) && IsField(c, t, t.dynamic[0], IntBytes(62, 7, 0x80))
    ensures ReadField(c, AfterExtras(t, extras), late, IntBytes(62, 7, 0x80))
            == Some(Item(Some(extras[|extras| - 1].field), AfterExtras(t, extras), []))
  {
    Prefixes();
    var bytes := IntBytes(62, 7, 0x80);
    assert IsIndexed(t, t.dynamic[0], bytes, 62);
    ExtrasWithRoom(t, extras);
    ReversedStarts(extras);
    var t' := AfterExtras(t, extras);
    assert IsIndexed(t', extras[|extras| - 1].field, bytes, 62);
    IndexedIsRead(c, t', extras[|extras| - 1].field, bytes, 62, late, []);
    assert bytes + [] == bytes;
  }

  lemma {:induction false} ReversedStarts(pieces: seq<Piece>)
    requires pieces != []
    ensures Reversed(pieces) != [] && Reversed(pieces)[0] == pieces[|pieces| - 1].field
  {
    if |pieces| > 1 {
      ReversedStarts(pieces[1..]);
    }
  }
}
