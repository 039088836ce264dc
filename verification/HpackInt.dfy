/**
 HPACK's prefixed integers (section 5.1 of RFC 7541), in 64-bit arithmetic.
 */
module HpackInt {
  import opened ByteIO
  import opened Arith

  /** The largest value a prefix of `bits` bits can hold. */
  function Mask(bits: nat): nat
    requires 1 <= bits <= 8
  {
    Pow2(bits) - 1
  }

  lemma MaskBound(bits: nat)
    requires 1 <= bits <= 8
    ensures 1 <= Mask(bits) <= 255
  {
    assert Pow2(1) == 2 && Pow2(2) == 4 && Pow2(3) == 8 && Pow2(4) == 16;
    assert Pow2(5) == 32 && Pow2(6) == 64 && Pow2(7) == 128 && Pow2(8) == 256;
  }

  // ------------------------------------------------------------ what is written

  /** Groups of seven bits, low ones first, all but the last with the top bit set. */
  function Groups(value: nat): seq<Byte> {
    if value >= 0x80 then [value % 0x80 + 0x80] + Groups(value / 0x80) else [value]
  }

  /** `high` is the part of the first byte above the prefix. */
  predicate IsHigh(high: Byte, bits: nat)
    requires 1 <= bits <= 8
  {
    high % Pow2(bits) == 0 && high + Mask(bits) < 256
  }

  function IntBytes(value: nat, bits: nat, high: Byte): (bytes: seq<Byte>)
    requires 1 <= bits <= 8 && IsHigh(high, bits)
    ensures bytes != []
  {
    if value < Mask(bits) then [high + value] else [high + Mask(bits)] + Groups(value - Mask(bits))
  }

  // ------------------------------------------------------------ what is read

  /** What a group read after `shift` bits is worth. */
  function Weighted(x: nat, shift: nat): nat {
    x * Pow2(shift)
  }

  /** The groups read so far add up to `value`; the next is worth 2^shift. A missing last group is not noticed. */
  function ReadGroups(data: seq<Byte>, value: nat, shift: nat): (nat, seq<Byte>)
    decreases |data|
  {
    if data == [] then (value, [])
    else
      var sum := (value + Weighted(data[0] % 0x80, shift)) % TWO_64;
      if data[0] < 0x80 then (sum, data[1..]) else ReadGroups(data[1..], sum, shift + 7)
  }

  /** The value at the head of `data`, and what follows it. */
  function ReadInt(data: seq<Byte>, bits: nat): (nat, seq<Byte>)
    requires 1 <= bits <= 8 && data != []
  {
    var value := data[0] % Pow2(bits);
    if value < Mask(bits) then (value, data[1..]) else ReadGroups(data[1..], value, 0)
  }

  // ------------------------------------------------------------ the round trip

  lemma Pow2Step(shift: nat)
    ensures Pow2(shift + 7) == 0x80 * Pow2(shift)
  {
    assert Pow2(shift + 7) == 2 * Pow2(shift + 6) == 4 * Pow2(shift + 5) == 8 * Pow2(shift + 4);
    assert Pow2(shift + 4) == 2 * Pow2(shift + 3) == 4 * Pow2(shift + 2) == 8 * Pow2(shift + 1);
  }

  lemma WeightedStep(x: nat, shift: nat)
    ensures Weighted(x, shift) == Weighted(x / 0x80, shift + 7) + Weighted(x % 0x80, shift)
  {
    var hi, lo, p := x / 0x80, x % 0x80, Pow2(shift);
    Pow2Step(shift);
    assert x == hi * 0x80 + lo;
    assert (hi * 0x80 + lo) * p == hi * (0x80 * p) + lo * p;
  }

  lemma {:induction false} GroupsAreRead(x: nat, value: nat, shift: nat, rest: seq<Byte>)
    requires value + Weighted(x, shift) < TWO_64
    ensures ReadGroups(Groups(x) + rest, value, shift) == (value + Weighted(x, shift), rest)
    decreases x
  {
    hide Weighted;
    hide Pow2;
    var data := Groups(x) + rest;
    if x < 0x80 {
      assert data[1..] == rest;
    } else {
      GroupsStep(x, rest);
      WeightedStep(x, shift);
      GroupsAreRead(x / 0x80, value + Weighted(x % 0x80, shift), shift + 7, rest);
    }
  }

  lemma {:induction false} GroupsStep(x: nat, rest: seq<Byte>)
    requires x >= 0x80
    ensures var data := Groups(x) + rest;
            data != [] && data[0] >= 0x80 && data[0] % 0x80 == x % 0x80 && data[1..] == Groups(x / 0x80) + rest
  {
  }

  lemma {:induction false} LongIntIsRead(x: nat, mask: nat, data: seq<Byte>, rest: seq<Byte>)
    requires mask + x < TWO_64 && data != [] && data[1..] == Groups(x) + rest
    ensures ReadGroups(data[1..], mask, 0) == (mask + x, rest)
  {
    hide Groups;
    hide ReadGroups;
    UnitShift(x);
    hide Weighted;
    GroupsAreRead(x, mask, 0, rest);
  }

  /**
   Reading inverts writing for every 64-bit value and prefix, takes exactly the bytes written, and
   keeps the high bits.
   */
  lemma {:induction false} IntRoundTrip(value: nat, bits: nat, high: Byte, rest: seq<Byte>)
    requires 1 <= bits <= 8 && IsHigh(high, bits) && value < TWO_64
    ensures ReadInt(IntBytes(value, bits, high) + rest, bits) == (value, rest)
    ensures IntBytes(value, bits, high)[0] - IntBytes(value, bits, high)[0] % Pow2(bits) == high
  {
    hide Pow2;
    hide Groups;
    hide ReadGroups;
    MaskBound(bits);
    var data := IntBytes(value, bits, high) + rest;
    var low := if value < Mask(bits) then value else Mask(bits);
    assert data[0] == high + low;
    LowBits(high, low, Pow2(bits));
    if value < Mask(bits) {
      assert data[1..] == rest;
    } else {
      assert data[1..] == Groups(value - Mask(bits)) + rest;
      LongIntIsRead(value - Mask(bits), Mask(bits), data, rest);
    }
  }

  lemma UnitShift(x: nat)
    ensures Weighted(x, 0) == x
  {
  }

  lemma LowBits(high: nat, low: nat, p: nat)
    requires p > 0 && high % p == 0 && low < p
    ensures (high + low) % p == low
  {
    var q := high / p;
    assert high + low == p * q + low;
    Quotient(high + low, p, q, low);
  }

  // ------------------------------------------------------------ the loops

  /** The encoder's loop; its `|` with the first byte is an addition because the prefix bits of `high` are clear. */
  method EncodeInt(out: seq<Byte>, value: nat, bits: nat, high: Byte) returns (out': seq<Byte>)
    requires 1 <= bits <= 8 && IsHigh(high, bits) && value < TWO_64
    ensures out' == out + IntBytes(value, bits, high)
  {
    hide Pow2;
    var maxVal := Pow2(bits) - 1;
    MaskBound(bits);
    if value < maxVal {
      return out + [high + value];
    }
    out' := out + [high + maxVal];
    var v: nat := value - maxVal;
    assert out' + Groups(v) == out + ([high + maxVal] + Groups(v));
    while v >= 0x80
      invariant out' + Groups(v) == out + IntBytes(value, bits, high)
    {
      assert out' + [v % 0x80 + 0x80] + Groups(v / 0x80) == out' + Groups(v);
      out' := out' + [v % 0x80 + 0x80];
      v := v / 0x80;
    }
    out' := out' + [v];
  }

  /** The decoder's loop, from position `pos`. */
  method DecodeInt(data: seq<Byte>, pos: nat, bits: nat) returns (value: nat, pos': nat)
    requires 1 <= bits <= 8 && pos < |data|
    ensures pos < pos' <= |data|
    ensures ReadInt(data[pos..], bits) == (value, data[pos'..])
  {
    var mask := Pow2(bits) - 1;
    value, pos' := data[pos] % Pow2(bits), pos + 1;
    assert data[pos..][1..] == data[pos + 1..];
    if value < mask {
      return;
    }
    var shift := 0;
    while pos' < |data|
      invariant pos < pos' <= |data|
      invariant ReadGroups(data[pos'..], value, shift) == ReadInt(data[pos..], bits)
    {
      var b := data[pos'];
      assert data[pos'..][1..] == data[pos' + 1..];
      pos' := pos' + 1;
      value := (value + Weighted(b % 0x80, shift)) % TWO_64;
      shift := shift + 7;
      if b < 0x80 {
        break;
      }
    }
  }
}
