/**
 WebSocket frames as bytes (section 5.2 of RFC 6455): three forms of length, and payloads masked by a
 key of four bytes when a client sends them.
 */
module WsFrame {
  import opened Wrappers
  import opened ByteIO
  import opened Arith

  const CONTINUATION := 0x0
  const TEXT := 0x1
  const BINARY := 0x2
  const CLOSE := 0x8
  const PING := 0x9
  const PONG := 0xA

  datatype Frame = Frame(fin: bool, opcode: nat, masked: bool, key: seq<Byte>, payload: seq<Byte>)

  predicate IsFrame(f: Frame) {
    f.opcode < 16 && |f.key| == 4 && |f.payload| < TWO_64
  }

  // ------------------------------------------------------------ masking

  /** Exclusive or of the low `n` bits. */
  function Xor(a: nat, b: nat, n: nat): nat {
    if n == 0 then 0 else 2 * Xor(a / 2, b / 2, n - 1) + if a % 2 != b % 2 then 1 else 0
  }

  function Bit(a: nat, i: nat): nat {
    if i == 0 then a % 2 else Bit(a / 2, i - 1)
  }

  /** Bit by bit: one where exactly one of the two has a one. */
  lemma {:induction false} XorBits(a: nat, b: nat, n: nat, i: nat)
    requires i < n
    ensures Bit(Xor(a, b, n), i) == 1 <==> Bit(a, i) != Bit(b, i)
  {
    if i > 0 {
      XorBits(a / 2, b / 2, n - 1, i - 1);
    }
  }

  lemma {:induction false} XorBound(a: nat, b: nat, n: nat)
    ensures Xor(a, b, n) < Pow2(n)
  {
    if n > 0 {
      XorBound(a / 2, b / 2, n - 1);
    }
  }

  lemma {:induction false} XorTwice(a: nat, b: nat, n: nat)
    requires a < Pow2(n)
    ensures Xor(Xor(a, b, n), b, n) == a
  {
    if n > 0 {
      XorTwice(a / 2, b / 2, n - 1);
    }
  }

  lemma EightBits()
    ensures Pow2(8) == 256
  {
  }

  function XorByte(a: Byte, b: Byte): Byte {
    XorBound(a, b, 8);
    EightBits();
    Xor(a, b, 8)
  }

  function Masked(data: seq<Byte>, key: seq<Byte>): (r: seq<Byte>)
    requires |key| == 4
    ensures |r| == |data| && forall i | 0 <= i < |data| :: r[i] == XorByte(data[i], key[i % 4])
  {
    seq(|data|, i requires 0 <= i < |data| => XorByte(data[i], key[i % 4]))
  }

  lemma MaskedTwice(data: seq<Byte>, key: seq<Byte>)
    requires |key| == 4
    ensures Masked(Masked(data, key), key) == data
  {
    forall i | 0 <= i < |data|
      ensures Masked(Masked(data, key), key)[i] == data[i]
    {
      EightBits();
      XorTwice(data[i], key[i % 4], 8);
    }
  }

  // ------------------------------------------------------------ lengths

  function BigEndian(n: nat, k: nat): (s: seq<Byte>)
    ensures |s| == k
  {
    if k == 0 then [] else BigEndian(n / 0x100, k - 1) + [n % 0x100]
  }

  function FromBigEndian(s: seq<Byte>): nat {
    if s == [] then 0 else FromBigEndian(s[..|s| - 1]) * 0x100 + s[|s| - 1]
  }

  function Pow256(k: nat): (p: nat)
    ensures p > 0
  {
    if k == 0 then 1 else 0x100 * Pow256(k - 1)
  }

  lemma {:induction false} BigEndianRead(n: nat, k: nat)
    requires n < Pow256(k)
    ensures FromBigEndian(BigEndian(n, k)) == n
  {
    if k > 0 {
      BigEndianRead(n / 0x100, k - 1);
      var s := BigEndian(n, k);
      assert s[..|s| - 1] == BigEndian(n / 0x100, k - 1);
    }
  }

  /** The most significant byte comes first. */
  lemma {:induction false} TopByte(n: nat, k: nat)
    ensures BigEndian(n, k + 1) == [n / Pow256(k) % 0x100] + BigEndian(n, k)
  {
    if k > 0 {
      TopByte(n / 0x100, k - 1);
      ShiftTwice(n, Pow256(k - 1));
    }
  }

  /** The writer's loop: one byte after the other, from the top. */
  method PutBigEndian(out: seq<Byte>, n: nat, k: nat) returns (out': seq<Byte>)
    ensures out' == out + BigEndian(n, k)
  {
    out' := out;
    for i := k downto 0
      invariant out' + BigEndian(n, i) == out + BigEndian(n, k)
    {
      TopByte(n, i);
      assert out' + [n / Pow256(i) % 0x100] + BigEndian(n, i) == out' + BigEndian(n, i + 1);
      out' := out' + [n / Pow256(i) % 0x100];
    }
  }

  /** The reader's loop. */
  method GetBigEndian(s: seq<Byte>) returns (n: nat)
    ensures n == FromBigEndian(s)
  {
    n := 0;
    for i := 0 to |s|
      invariant n == FromBigEndian(s[..i])
    {
      assert s[..i + 1][..i] == s[..i];
      n := n * 0x100 + s[i];
    }
    assert s[..|s|] == s;
  }

  /** The masking loop, which serves both directions. */
  method ApplyMask(data: seq<Byte>, key: seq<Byte>) returns (r: seq<Byte>)
    requires |key| == 4
    ensures r == Masked(data, key)
  {
    r := data;
    for i := 0 to |data|
      invariant |r| == |data|
      invariant forall j | 0 <= j < i :: r[j] == XorByte(data[j], key[j % 4])
      invariant forall j | i <= j < |data| :: r[j] == data[j]
    {
      r := r[i := XorByte(r[i], key[i % 4])];
    }
  }

  lemma {:induction false} BigEndianBound(s: seq<Byte>)
    ensures FromBigEndian(s) < Pow256(|s|)
  {
    if s != [] {
      BigEndianBound(s[..|s| - 1]);
    }
  }

  lemma Pow256Values()
    ensures Pow256(2) == 0x1_0000 && Pow256(8) == TWO_64
  {
  }

  /** The second byte and the extended length after it. */
  function LengthBytes(n: nat, maskBit: nat): (s: seq<Byte>)
    requires maskBit == 0 || maskBit == 0x80
    ensures s != []
  {
    if n < 126 then [maskBit + n]
    else if n < 0x1_0000 then [maskBit + 126] + BigEndian(n, 2)
    else [maskBit + 127] + BigEndian(n, 8)
  }

  function FrameBytes(f: Frame): seq<Byte>
    requires IsFrame(f)
  {
    [(if f.fin then 0x80 else 0) + f.opcode] + LengthBytes(|f.payload|, if f.masked then 0x80 else 0)
    + if f.masked then f.key + Masked(f.payload, f.key) else f.payload
  }

  /** A frame as the sender builds it. */
  method BuildFrame(opcode: nat, mask: bool, key: seq<Byte>, data: seq<Byte>) returns (frame: seq<Byte>)
    requires opcode < 16 && |key| == 4 && |data| < TWO_64
    ensures frame == FrameBytes(Frame(true, opcode, mask, key, data))
  {
    hide Masked;
    hide BigEndian;
    frame := [0x80 + opcode];
    var maskBit := if mask then 0x80 else 0;
    var n := |data|;
    if n < 126 {
      frame := frame + [maskBit + n];
    } else if n < 0x1_0000 {
      frame := frame + [maskBit + 126];
      frame := PutBigEndian(frame, n, 2);
    } else {
      frame := frame + [maskBit + 127];
      frame := PutBigEndian(frame, n, 8);
    }
    assert frame == [0x80 + opcode] + LengthBytes(n, maskBit);
    if mask {
      var masked := ApplyMask(data, key);
      frame := frame + (key + masked);
    } else {
      frame := frame + data;
    }
  }

  // ------------------------------------------------------------ reading

  datatype Reading =
    | Cut
    | WrongMask(rest: seq<Byte>)
    | Read(fin: bool, opcode: nat, payload: seq<Byte>, rest: seq<Byte>)

  /** The length that follows the second byte, and what is after it. */
  function ReadLength(low: nat, s: seq<Byte>): (r: Option<(nat, seq<Byte>)>)
    ensures r.Some? ==> |r.value.1| <= |s|
  {
    var k := if low == 126 then 2 else if low == 127 then 8 else 0;
    if |s| < k then None
    else if k == 0 then Some((low, s))
    else Some((FromBigEndian(s[..k]), s[k..]))
  }

  /** One frame. A server wants it masked, a client wants it plain. */
  function ReadFrame(server: bool, s: seq<Byte>): (r: Reading)
    ensures r.Read? ==> |r.rest| < |s|
  {
    if |s| < 2 then Cut
    else
      var masked := s[1] >= 0x80;
      var length := ReadLength(s[1] % 0x80, s[2..]);
      if length.None? then Cut
      else
        var (n, after) := length.value;
        if masked != server then WrongMask(after)
        else
          var k := if masked then 4 else 0;
          if |after| < k + n then Cut
          else
            var data := after[k..k + n];
            Read(s[0] >= 0x80, s[0] % 16, if masked then Masked(data, after[..4]) else data, after[k + n..])
  }

  lemma {:induction false} ExtendedRead(n: nat)
    ensures n < 0x1_0000 ==> FromBigEndian(BigEndian(n, 2)) == n
    ensures n < TWO_64 ==> FromBigEndian(BigEndian(n, 8)) == n
  {
    hide BigEndian;
    hide FromBigEndian;
    Pow256Values();
    if n < 0x1_0000 {
      BigEndianRead(n, 2);
    }
    if n < TWO_64 {
      BigEndianRead(n, 8);
    }
  }

  lemma LengthRead(n: nat, maskBit: nat, rest: seq<Byte>)
    requires n < TWO_64 && (maskBit == 0 || maskBit == 0x80)
    ensures var s := LengthBytes(n, maskBit) + rest;
            (s[0] >= 0x80 <==> maskBit == 0x80) && ReadLength(s[0] % 0x80, s[1..]) == Some((n, rest))
  {
    hide BigEndian;
    hide FromBigEndian;
    var s := LengthBytes(n, maskBit) + rest;
    if n < 126 {
      assert s[1..] == rest;
    } else {
      var k := if n < 0x1_0000 then 2 else 8;
      ExtendedRead(n);
      assert s[1..] == BigEndian(n, k) + rest;
      assert s[1..][..k] == BigEndian(n, k) && s[1..][k..] == rest;
    }
  }

  /**
   Every frame is read back by the side it is meant for, in all three forms and for every key, and
   refused by the other.
   */
  lemma FrameRoundTrip(f: Frame, server: bool, rest: seq<Byte>)
    requires IsFrame(f)
    ensures f.masked == server ==> ReadFrame(server, FrameBytes(f) + rest) == Read(f.fin, f.opcode, f.payload, rest)
    ensures f.masked != server ==> ReadFrame(server, FrameBytes(f) + rest).WrongMask?
  {
    hide LengthBytes;
    hide ReadLength;
    var n, maskBit := |f.payload|, if f.masked then 0x80 else 0;
    var body := if f.masked then f.key + Masked(f.payload, f.key) else f.payload;
    var s := FrameBytes(f) + rest;
    assert s[1..] == LengthBytes(n, maskBit) + (body + rest);
    LengthRead(n, maskBit, body + rest);
    assert s[2..] == s[1..][1..];
    var k := if f.masked then 4 else 0;
    assert (body + rest)[k + n..] == rest;
    if f.masked {
      assert (body + rest)[..4] == f.key && (body + rest)[4..4 + n] == Masked(f.payload, f.key);
      MaskedTwice(f.payload, f.key);
    } else {
      assert (body + rest)[0..n] == f.payload;
    }
  }

  /** What is read of some bytes is read of more bytes too. */
  lemma MoreBytes(server: bool, s: seq<Byte>, t: seq<Byte>)
    ensures ReadFrame(server, s).Read? ==>
              ReadFrame(server, s + t) == ReadFrame(server, s).(rest := ReadFrame(server, s).rest + t)
    ensures ReadFrame(server, s).WrongMask? ==> ReadFrame(server, s + t).WrongMask?
  {
    hide ReadLength;
    hide Masked;
    if |s| >= 2 {
      var low := s[1] % 0x80;
      assert (s + t)[2..] == s[2..] + t;
      MoreLength(low, s[2..], t);
      var length := ReadLength(low, s[2..]);
      if length.Some? && (s[1] >= 0x80 <==> server) {
        MorePayload(length.value.1, t, if server then 4 else 0, length.value.0);
      }
    }
  }

  lemma MorePayload(s: seq<Byte>, t: seq<Byte>, k: nat, n: nat)
    ensures |s| >= k + n ==>
              (s + t)[k..k + n] == s[k..k + n] && (s + t)[k + n..] == s[k + n..] + t && (s + t)[..k] == s[..k]
  {
  }

  lemma MoreLength(low: nat, s: seq<Byte>, t: seq<Byte>)
    ensures ReadLength(low, s).Some? ==>
              ReadLength(low, s + t) == Some((ReadLength(low, s).value.0, ReadLength(low, s).value.1 + t))
  {
    var k := if low == 126 then 2 else if low == 127 then 8 else 0;
    if |s| >= k {
      assert (s + t)[..k] == s[..k] && (s + t)[k..] == s[k..] + t;
    }
  }

  /** A frame that has not arrived completely is not read. */
  lemma Truncated(f: Frame, server: bool, s: seq<Byte>)
    requires IsFrame(f) && f.masked == server && s < FrameBytes(f)
    ensures ReadFrame(server, s).Cut?
  {
    hide FrameBytes;
    hide ReadFrame;
    var t := FrameBytes(f)[|s|..];
    assert s + t == FrameBytes(f) == FrameBytes(f) + [];
    FrameRoundTrip(f, server, []);
    MoreBytes(server, s, t);
    assert t != [];
  }
}
