/**
 HPACK's Huffman coding of strings (section 5.2 of RFC 7541): the bit packing of the encoder in a
 64-bit accumulator.

 A machine word is the sequence of its bits, most significant first. The code is a parameter; what is
 assumed of it is `GoodCodes`.
 */
module Huffman {
  import opened ByteIO

  type Bits = seq<bool>

  // ------------------------------------------------------------ words and bytes

  function Zeros(n: nat): (w: Bits)
    ensures |w| == n && forall i | 0 <= i < n :: !w[i]
  {
    seq(n, i => false)
  }

  function Ones(n: nat): (w: Bits)
    ensures |w| == n && forall i | 0 <= i < n :: w[i]
  {
    seq(n, i => true)
  }

  /** Shifting left drops the bits that leave the word. */
  function ShiftLeft(w: Bits, k: nat): (r: Bits)
    requires k <= |w|
    ensures |r| == |w|
  {
    w[k..] + Zeros(k)
  }

  function Or(a: Bits, b: Bits): (r: Bits)
    requires |a| == |b|
    ensures |r| == |a| && forall i | 0 <= i < |a| :: r[i] == (a[i] || b[i])
  {
    seq(|a|, i requires 0 <= i < |a| => a[i] || b[i])
  }

  function Value(w: Bits): nat {
    if w == [] then 0 else 2 * Value(w[..|w| - 1]) + if w[|w| - 1] then 1 else 0
  }

  function ToBits(x: nat, n: nat): (w: Bits)
    ensures |w| == n
  {
    if n == 0 then [] else ToBits(x / 2, n - 1) + [x % 2 == 1]
  }

  lemma {:induction false} ToBitsOfValue(w: Bits)
    ensures ToBits(Value(w), |w|) == w
  {
    if w != [] {
      ToBitsOfValue(w[..|w| - 1]);
    }
  }

  lemma {:induction false} ValueAdd(w: Bits, b: bool)
    ensures Value(w + [b]) == 2 * Value(w) + if b then 1 else 0
  {
  }

  lemma {:induction false} ValueAdd4(w: Bits, b: Bits)
    requires |b| == 4
    ensures Value(w + b) == 16 * Value(w) + (if b[0] then 8 else 0) + (if b[1] then 4 else 0)
                            + (if b[2] then 2 else 0) + if b[3] then 1 else 0
  {
    hide Value;
    var w1, w2, w3 := w + [b[0]], w + b[..2], w + b[..3];
    assert w2 == w1 + [b[1]] && w3 == w2 + [b[2]] && w + b == w3 + [b[3]];
    ValueAdd(w, b[0]);
    ValueAdd(w1, b[1]);
    ValueAdd(w2, b[2]);
    ValueAdd(w3, b[3]);
  }

  lemma {:induction false} ValueOfNibble(w: Bits, b: Bits)
    requires |b| == 4
    ensures Value(b) < 16 && Value(w + b) == 16 * Value(w) + Value(b)
  {
    assert [] + b == b;
    ValueAdd4([], b);
    ValueAdd4(w, b);
  }

  lemma {:induction false} ValueOfByte(w: Bits)
    requires |w| == 8
    ensures Value(w) < 256 && Value(w) / 16 == Value(w[..4]) && Value(w) % 16 == Value(w[4..])
  {
    assert w == w[..4] + w[4..] && w[..4] == [] + w[..4];
    ValueOfNibble([], w[..4]);
    ValueOfNibble(w[..4], w[4..]);
  }

  function ByteOf(w: Bits): Byte
    requires |w| == 8
  {
    ValueOfByte(w);
    Value(w)
  }

  /** A byte as the decoder sees it: two nibbles. */
  function Nibbles(c: Byte): (w: Bits)
    ensures |w| == 8
  {
    ToBits(c / 16, 4) + ToBits(c % 16, 4)
  }

  lemma NibblesOfByte(w: Bits)
    requires |w| == 8
    ensures Nibbles(ByteOf(w)) == w
  {
    ValueOfByte(w);
    ToBitsOfValue(w[..4]);
    ToBitsOfValue(w[4..]);
  }

  /** All the bits of a byte string. */
  function AllBits(data: seq<Byte>): (w: Bits)
    ensures |w| == 8 * |data|
  {
    if data == [] then [] else AllBits(data[..|data| - 1]) + Nibbles(data[|data| - 1])
  }

  lemma {:induction false} AllBitsAdd(data: seq<Byte>, c: Byte)
    ensures AllBits(data + [c]) == AllBits(data) + Nibbles(c)
  {
  }

  // ------------------------------------------------------------ the code

  /** A row of the code table: the code stands in the top `nbits` bits of 32, the rest are zero. */
  datatype Sym = Sym(nbits: nat, code: Bits)

  predicate GoodSym(s: Sym) {
    5 <= s.nbits <= 30 && |s.code| == 32 && s.code[s.nbits..] == Zeros(32 - s.nbits)
  }

  predicate HasRows(codes: seq<Sym>) {
    |codes| == 256 && forall c: Byte :: GoodSym(codes[c])
  }

  function CodeOf(codes: seq<Sym>, c: Byte): (w: Bits)
    requires HasRows(codes)
    ensures 5 <= |w| <= 30
  {
    assert GoodSym(codes[c]);
    codes[c].code[..codes[c].nbits]
  }

  /** No code begins another, and none is all ones, which the end-of-string code and padding are. */
  ghost predicate GoodCodes(codes: seq<Sym>) {
    && HasRows(codes)
    && (forall c: Byte, d: Byte :: CodeOf(codes, c) <= CodeOf(codes, d) ==> c == d)
    && (forall c: Byte :: CodeOf(codes, c) != Ones(|CodeOf(codes, c)|))
  }

  function Encoding(codes: seq<Sym>, s: seq<Byte>): Bits
    requires HasRows(codes)
  {
    if s == [] then [] else CodeOf(codes, s[0]) + Encoding(codes, s[1..])
  }

  // ------------------------------------------------------------ packing

  /** The accumulator holds `nbits` bits at its top and zeros below. */
  predicate Holds(acc: Bits, pending: Bits) {
    |acc| == 64 && |pending| <= 64 && acc == pending + Zeros(64 - |pending|)
  }

  lemma PutCode(acc: Bits, pending: Bits, s: Sym)
    requires Holds(acc, pending) && |pending| < 8 && GoodSym(s)
    ensures Holds(Or(acc, ShiftLeft(Zeros(32) + s.code, 32 - |pending|)), pending + s.code[..s.nbits])
  {
    var n := |pending|;
    var shifted := ShiftLeft(Zeros(32) + s.code, 32 - n);
    assert shifted == Zeros(n) + s.code + Zeros(32 - n);
    var r, p' := Or(acc, shifted), pending + s.code[..s.nbits];
    assert s.code == s.code[..s.nbits] + Zeros(32 - s.nbits);
    assert forall i | 0 <= i < 64 :: r[i] == (p' + Zeros(64 - |p'|))[i];
  }

  lemma TakeByte(acc: Bits, pending: Bits)
    requires Holds(acc, pending) && |pending| >= 8
    ensures acc[..8] == pending[..8] && Holds(ShiftLeft(acc, 8), pending[8..])
  {
  }

  /** Whole bytes leave the accumulator until fewer than eight bits are pending. */
  method Flush(out: seq<Byte>, acc: Bits, nbits: nat, ghost pending: Bits)
    returns (out': seq<Byte>, acc': Bits, nbits': nat, ghost pending': Bits)
    requires Holds(acc, pending) && nbits == |pending|
    ensures Holds(acc', pending') && nbits' == |pending'| < 8
    ensures AllBits(out') + pending' == AllBits(out) + pending
  {
    hide AllBits;
    hide Nibbles;
    hide ByteOf;
    hide ShiftLeft;
    out', acc', nbits', pending' := out, acc, nbits, pending;
    while nbits' >= 8
      invariant Holds(acc', pending') && nbits' == |pending'|
      invariant AllBits(out') + pending' == AllBits(out) + pending
    {
      TakeByte(acc', pending');
      NibblesOfByte(acc'[..8]);
      AllBitsAdd(out', ByteOf(acc'[..8]));
      assert AllBits(out') + pending' == AllBits(out') + pending'[..8] + pending'[8..];
      out' := out' + [ByteOf(acc'[..8])];
      acc' := ShiftLeft(acc', 8);
      nbits' := nbits' - 8;
      pending' := pending'[8..];
    }
  }

  /** The last bits are filled up to a byte with ones. */
  method Pad(out: seq<Byte>, acc: Bits, nbits: nat, ghost pending: Bits) returns (out': seq<Byte>)
    requires Holds(acc, pending) && 0 < nbits == |pending| < 8
    ensures AllBits(out') == AllBits(out) + pending + Ones(8 - |pending|)
  {
    var last := Or(acc[..8], Zeros(nbits) + Ones(8 - nbits));
    assert last == pending + Ones(8 - nbits);
    NibblesOfByte(last);
    AllBitsAdd(out, ByteOf(last));
    out' := out + [ByteOf(last)];
  }

  /** The encoding of `s` and then fewer than eight ones. */
  ghost predicate IsPadded(w: Bits, codes: seq<Sym>, s: seq<Byte>)
    requires HasRows(codes)
  {
    var n := |Encoding(codes, s)|;
    n <= |w| < n + 8 && w == Encoding(codes, s) + Ones(|w| - n)
  }

  /** The accumulator never overflows, and what is written is the padded encoding. */
  method HuffmanEncode(codes: seq<Sym>, s: seq<Byte>) returns (out: seq<Byte>)
    requires HasRows(codes)
    ensures IsPadded(AllBits(out), codes, s)
  {
    hide GoodSym;
    hide Holds;
    hide HasRows;
    hide CodeOf;
    hide Encoding;
    hide AllBits;
    out := [];
    var acc, nbits := Zeros(64), 0;
    ghost var pending: Bits := [];
    EmptyHolds(codes, s);
    for i := 0 to |s|
      invariant Holds(acc, pending) && nbits == |pending| < 8
      invariant AllBits(out) + pending == Encoding(codes, s[..i])
    {
      CodeIsGood(codes, s[i]);
      var sym := codes[s[i]];
      PutCode(acc, pending, sym);
      acc := Or(acc, ShiftLeft(Zeros(32) + sym.code, 32 - nbits));
      nbits := nbits + sym.nbits;
      EncodingAdd(codes, s[..i], s[i]);
      assert s[..i + 1] == s[..i] + [s[i]];
      assert AllBits(out) + (pending + CodeOf(codes, s[i])) == AllBits(out) + pending + CodeOf(codes, s[i]);
      pending := pending + CodeOf(codes, s[i]);
      out, acc, nbits, pending := Flush(out, acc, nbits, pending);
    }
    assert s[..|s|] == s;
    if nbits > 0 {
      out := Pad(out, acc, nbits, pending);
    }
  }

  lemma {:induction false} EmptyHolds(codes: seq<Sym>, s: seq<Byte>)
    requires HasRows(codes)
    ensures Holds(Zeros(64), []) && AllBits([]) + [] == Encoding(codes, s[..0])
  {
  }

  lemma {:induction false} EncodingAdd(codes: seq<Sym>, s: seq<Byte>, c: Byte)
    requires HasRows(codes)
    ensures Encoding(codes, s + [c]) == Encoding(codes, s) + CodeOf(codes, c)
  {
    hide CodeOf;
    if s == [] {
      assert [c][1..] == [] && [] + [c] == [c];
    } else {
      EncodingAdd(codes, s[1..], c);
      assert (s + [c])[1..] == s[1..] + [c];
    }
  }

  lemma CodeIsGood(codes: seq<Sym>, c: Byte)
    requires HasRows(codes)
    ensures |codes| == 256
    ensures GoodSym(codes[c]) && |codes[c].code| == 32
    ensures CodeOf(codes, c) == codes[c].code[..codes[c].nbits] && |CodeOf(codes, c)| == codes[c].nbits
  {
  }
}
