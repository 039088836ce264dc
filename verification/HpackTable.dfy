/**
 HPACK's indexing table: 61 static entries and, after them, the dynamic ones, newest first
 (sections 2.3 and 4 of RFC 7541).
 */
module HpackTable {
  import opened Wrappers
  import opened ByteIO

  type Text = seq<Byte>

  datatype Entry = Entry(name: Text, value: Text)

  const STATIC_SIZE: nat := 61

  function EntrySize(e: Entry): nat {
    |e.name| + |e.value| + 32
  }

  function Sum(entries: seq<Entry>): nat {
    if entries == [] then 0 else EntrySize(entries[0]) + Sum(entries[1..])
  }

  /** The longest run of entries from the newest on that fits. */
  function Fit(entries: seq<Entry>, max: nat): seq<Entry> {
    if entries == [] || EntrySize(entries[0]) > max then []
    else [entries[0]] + Fit(entries[1..], max - EntrySize(entries[0]))
  }

  lemma {:induction false} FitIsLongest(entries: seq<Entry>, max: nat, n: nat)
    requires n <= |entries|
    ensures Fit(entries, max) <= entries && Sum(Fit(entries, max)) <= max
    ensures n <= |Fit(entries, max)| <==> Sum(entries[..n]) <= max
  {
    if entries == [] || n == 0 {
      if entries != [] && EntrySize(entries[0]) <= max {
        FitIsLongest(entries[1..], max - EntrySize(entries[0]), 0);
        assert Fit(entries, max)[1..] == Fit(entries[1..], max - EntrySize(entries[0]));
      }
    } else {
      assert entries[..n][1..] == entries[1..][..n - 1];
      if EntrySize(entries[0]) <= max {
        FitIsLongest(entries[1..], max - EntrySize(entries[0]), n - 1);
        assert Fit(entries, max)[1..] == Fit(entries[1..], max - EntrySize(entries[0]));
      }
    }
  }

  lemma {:induction false} FitIs(entries: seq<Entry>, max: nat, n: nat)
    requires n <= |entries| && Sum(entries[..n]) <= max && (n < |entries| ==> Sum(entries[..n + 1]) > max)
    ensures Fit(entries, max) == entries[..n]
  {
    FitIsLongest(entries, max, n);
    if n < |entries| {
      FitIsLongest(entries, max, n + 1);
    }
  }

  /** Fitting twice, and behind a new entry. */
  lemma {:induction false} FitTwice(entries: seq<Entry>, max: nat, less: nat)
    requires less <= max
    ensures Fit(Fit(entries, max), less) == Fit(entries, less)
  {
    if entries != [] && EntrySize(entries[0]) <= less {
      var n := EntrySize(entries[0]);
      assert Fit(entries, max)[1..] == Fit(entries[1..], max - n);
      FitTwice(entries[1..], max - n, less - n);
    }
  }

  lemma {:induction false} FitBehind(e: Entry, entries: seq<Entry>, max: nat)
    ensures Fit([e] + Fit(entries, max), max) == Fit([e] + entries, max)
  {
    assert ([e] + Fit(entries, max))[1..] == Fit(entries, max) && ([e] + entries)[1..] == entries;
    if EntrySize(e) <= max {
      FitTwice(entries, max, max - EntrySize(e));
    }
  }

  lemma {:induction false} SumAdd(a: seq<Entry>, b: seq<Entry>)
    ensures Sum(a + b) == Sum(a) + Sum(b)
  {
    if a == [] {
      assert a + b == b;
    } else {
      SumAdd(a[1..], b);
      assert (a + b)[1..] == a[1..] + b;
    }
  }

  lemma {:induction false} SumLast(entries: seq<Entry>)
    requires entries != []
    ensures Sum(entries) == Sum(entries[..|entries| - 1]) + EntrySize(entries[|entries| - 1])
  {
    var a, b := entries[..|entries| - 1], entries[|entries| - 1..];
    assert entries == a + b;
    SumAdd(a, b);
    assert b[1..] == [];
  }

  // ------------------------------------------------------------ tables as values

  datatype Table = Table(fixed: seq<Entry>, max: nat, dynamic: seq<Entry>)

  /** A limit fits the 32 bits of a setting. */
  predicate IsTable(t: Table) {
    |t.fixed| == STATIC_SIZE && Sum(t.dynamic) <= t.max < 0x1_0000_0000
  }

  function Get(t: Table, index: nat): Option<Entry>
    requires |t.fixed| == STATIC_SIZE
  {
    if index == 0 || index > STATIC_SIZE + |t.dynamic| then None
    else if index <= STATIC_SIZE then Some(t.fixed[index - 1])
    else Some(t.dynamic[index - STATIC_SIZE - 1])
  }

  function Inserted(t: Table, e: Entry): Table {
    t.(dynamic := Fit([e] + t.dynamic, t.max))
  }

  function Resized(t: Table, max: nat): Table {
    t.(max := max, dynamic := Fit(t.dynamic, max))
  }

  lemma InsertedIsTable(t: Table, e: Entry)
    requires IsTable(t)
    ensures IsTable(Inserted(t, e))
  {
    FitIsLongest([e] + t.dynamic, t.max, 0);
  }

  predicate HasEntry(t: Table, e: Entry) {
    e in t.fixed || e in t.dynamic
  }

  /** Indices stay small: every dynamic entry is worth at least 32 bytes. */
  lemma {:induction false} CountBound(entries: seq<Entry>)
    ensures 32 * |entries| <= Sum(entries)
  {
    if entries != [] {
      CountBound(entries[1..]);
    }
  }

  // ------------------------------------------------------------ the table in place

  class DynamicTable {
    const fixed: seq<Entry>
    var maxSize: nat
    var currentSize: nat
    var dynamic: seq<Entry>

    ghost predicate Valid()
      reads this
    {
      currentSize == Sum(dynamic) && IsTable(Contents())
    }

    ghost function Contents(): Table
      reads this
    {
      Table(fixed, maxSize, dynamic)
    }

    constructor (fixed: seq<Entry>, maxSize: nat)
      requires |fixed| == STATIC_SIZE && maxSize < 0x1_0000_0000
      ensures Valid() && Contents() == Table(fixed, maxSize, [])
    {
      this.fixed, this.maxSize := fixed, maxSize;
      currentSize, dynamic := 0, [];
    }

    method Lookup(index: nat) returns (r: Option<Entry>)
      requires Valid()
      ensures r == Get(Contents(), index)
    {
      if index == 0 || index > STATIC_SIZE + |dynamic| {
        return None;
      }
      if index <= STATIC_SIZE {
        return Some(fixed[index - 1]);
      }
      return Some(dynamic[index - STATIC_SIZE - 1]);
    }

    /**
     A positive index is that of the entry itself and found whenever there is one; a negative index is
     that of an entry with the name; zero means the name is in no entry.
     */
    method Find(name: Text, value: Text) returns (index: int)
      requires Valid()
      ensures -0x800_003e < index < 0x800_003e
      ensures index > 0 <==> HasEntry(Contents(), Entry(name, value))
      ensures index > 0 ==> Get(Contents(), index) == Some(Entry(name, value))
      ensures index < 0 ==> Get(Contents(), -index).Some? && Get(Contents(), -index).value.name == name
      ensures index == 0 ==> forall e | e in fixed + dynamic :: e.name != name
    {
      CountBound(dynamic);
      var nameOnly := 0;
      for i := 0 to STATIC_SIZE
        invariant NameOnly(fixed[..i], nameOnly, name) && -i <= nameOnly
        invariant Entry(name, value) !in fixed[..i]
        invariant nameOnly < 0 ==> fixed[-nameOnly - 1].name == name
      {
        if fixed[i].name == name {
          if fixed[i].value == value {
            return i + 1;
          }
          if nameOnly == 0 {
            nameOnly := -(i + 1);
          }
        }
      }
      assert fixed[..STATIC_SIZE] == fixed && fixed + dynamic[..0] == fixed;
      for i := 0 to |dynamic|
        invariant NameOnly(fixed + dynamic[..i], nameOnly, name) && -(STATIC_SIZE + i) <= nameOnly
        invariant Entry(name, value) !in fixed && Entry(name, value) !in dynamic[..i]
        invariant nameOnly < 0 ==> (fixed + dynamic)[-nameOnly - 1].name == name
      {
        if dynamic[i].name == name {
          if dynamic[i].value == value {
            return STATIC_SIZE + i + 1;
          }
          if nameOnly == 0 {
            nameOnly := -(STATIC_SIZE + i + 1);
          }
        }
      }
      return nameOnly;
    }

    method Insert(name: Text, value: Text)
      requires Valid()
      modifies this
      ensures Valid() && Contents() == Inserted(old(Contents()), Entry(name, value))
    {
      var size := |name| + |value| + 32;
      if size > maxSize {
        dynamic, currentSize := [], 0;
        return;
      }
      dynamic := [Entry(name, value)] + dynamic;
      currentSize := currentSize + size;
      Evict();
    }

    method SetMaxSize(max: nat)
      requires Valid() && max < 0x1_0000_0000
      modifies this
      ensures Valid() && Contents() == Resized(old(Contents()), max)
    {
      maxSize := max;
      Evict();
    }

    /** Drops the oldest entries until the rest fit: what stays is the longest run of new ones that does. */
    method Evict()
      requires currentSize == Sum(dynamic) && |fixed| == STATIC_SIZE && maxSize < 0x1_0000_0000
      modifies this`dynamic, this`currentSize
      ensures Valid() && dynamic == Fit(old(dynamic), maxSize)
    {
      ghost var entries := dynamic;
      while currentSize > maxSize && |dynamic| > 0
        invariant currentSize == Sum(dynamic) && |dynamic| <= |entries| && dynamic == entries[..|dynamic|]
        invariant |dynamic| < |entries| ==> Sum(entries[..|dynamic| + 1]) > maxSize
      {
        SumLast(dynamic);
        assert entries[..|dynamic|] == dynamic && entries[..|dynamic| - 1] == dynamic[..|dynamic| - 1];
        currentSize := currentSize - EntrySize(dynamic[|dynamic| - 1]);
        dynamic := dynamic[..|dynamic| - 1];
      }
      FitIs(entries, maxSize, |dynamic|);
    }
  }

  /** Zero while no entry of `seen` has the name. */
  ghost predicate NameOnly(seen: seq<Entry>, index: int, name: Text) {
    index <= 0 && (index == 0 ==> forall e | e in seen :: e.name != name)
  }
}
