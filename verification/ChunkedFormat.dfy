/**
 The chunked transfer coding as whole byte strings: the reference parser that the incremental reader
 is measured against, and the grammar of the messages it accepts.

 The reader's line limits depend on how the bytes arrive: it gives up when 64 bytes are buffered with
 no line end among them, but takes a line of 64 when its end happens to be buffered too. So there are
 two parsers: the strict one takes the lines the reader takes however the bytes are split, the lenient
 one those it takes for some split.
 */
module ChunkedFormat {
  import opened Wrappers
  import opened ByteIO
  import opened Arith

  const CR: Byte := 13
  const LF: Byte := 10
  const CRLF: seq<Byte> := [CR, LF]

  // ------------------------------------------------------------ lines

  predicate CrlfAt(s: seq<Byte>, i: nat) {
    i + 2 <= |s| && s[i] == CR && s[i + 1] == LF
  }

  /** The position of the first line end. */
  function FindCrlf(s: seq<Byte>): (p: Option<nat>)
    ensures p.Some? ==> CrlfAt(s, p.value)
    ensures forall i: nat | CrlfAt(s, i) :: p.Some? && p.value <= i
  {
    if |s| < 2 then None
    else if s[0] == CR && s[1] == LF then Some(0)
    else
      var p := FindCrlf(s[1..]);
      assert forall i: nat :: CrlfAt(s, i) ==> i > 0 && CrlfAt(s[1..], i - 1);
      if p.Some? then Some(p.value + 1) else None
  }

  lemma CrlfAtAppend(a: seq<Byte>, b: seq<Byte>, i: nat)
    ensures CrlfAt(a, i) ==> CrlfAt(a + b, i)
    ensures CrlfAt(a + b, i) && i + 2 <= |a| ==> CrlfAt(a, i)
  {
  }

  /** A line end that has arrived stays the first one; one that has not is past all but the last byte. */
  lemma {:induction false} FindInPart(a: seq<Byte>, b: seq<Byte>)
    ensures FindCrlf(a).Some? ==> FindCrlf(a + b) == FindCrlf(a)
    ensures FindCrlf(a).None? && FindCrlf(a + b).Some? ==> FindCrlf(a + b).value + 2 > |a|
  {
    if FindCrlf(a).Some? {
      CrlfAtAppend(a, b, FindCrlf(a).value);
      CrlfAtAppend(a, b, FindCrlf(a + b).value);
    } else if FindCrlf(a + b).Some? {
      CrlfAtAppend(a, b, FindCrlf(a + b).value);
    }
  }

  // ------------------------------------------------------------ numbers

  predicate IsHex(c: Byte) {
    '0' as int <= c <= '9' as int || 'a' as int <= c <= 'f' as int || 'A' as int <= c <= 'F' as int
  }

  function HexDigit(c: Byte): (d: nat)
    requires IsHex(c)
    ensures d < 16
  {
    if c <= '9' as int then c - '0' as int else if c <= 'F' as int then c - 'A' as int + 10 else c - 'a' as int + 10
  }

  /** Digits of either case have their place in the row of digits as value. */
  lemma DigitIs(c: Byte)
    requires IsHex(c)
    ensures c == "0123456789abcdef"[HexDigit(c)] as int || c == "0123456789ABCDEF"[HexDigit(c)] as int
  {
  }

  predicate IsSpace(c: Byte) {
    9 <= c <= 13 || c == 32
  }

  function SkipSpace(s: seq<Byte>): seq<Byte> {
    if s != [] && IsSpace(s[0]) then SkipSpace(s[1..]) else s
  }

  /** The hexadecimal digits that `s` starts with. */
  function LeadingHex(s: seq<Byte>): (d: seq<Byte>)
    ensures forall c | c in d :: IsHex(c)
  {
    if s != [] && IsHex(s[0]) then [s[0]] + LeadingHex(s[1..]) else []
  }

  function HexValue(s: seq<Byte>): nat
    requires forall c | c in s :: IsHex(c)
  {
    if s == [] then 0 else HexValue(s[..|s| - 1]) * 16 + HexDigit(s[|s| - 1])
  }

  predicate IsPrefixed(s: seq<Byte>) {
    |s| >= 3 && s[0] == '0' as int && (s[1] == 'x' as int || s[1] == 'X' as int) && IsHex(s[2])
  }

  function Digits(s: seq<Byte>): (d: seq<Byte>)
    ensures forall c | c in d :: IsHex(c)
  {
    LeadingHex(if IsPrefixed(s) then s[2..] else s)
  }

  /**
   The C library's unsigned conversion in base 16: leading space, a sign (a minus negates modulo
   2^64), an optional 0x, then digits; whatever follows the digits is ignored. No digits, or a value
   of 2^64 or more, is an error.
   */
  function ParseSize(line: seq<Byte>): Option<nat> {
    var t := SkipSpace(line);
    var signed := t != [] && (t[0] == '-' as int || t[0] == '+' as int);
    var u := if signed then t[1..] else t;
    var d := Digits(u);
    if d == [] || HexValue(d) >= TWO_64 then None
    else if signed && t[0] == '-' as int then Some((TWO_64 - HexValue(d)) % TWO_64)
    else Some(HexValue(d))
  }

  const PLUS: seq<Byte> := ['+' as int]
  const MINUS: seq<Byte> := ['-' as int]
  const PREFIXES: set<seq<Byte>> := {['0' as int, 'x' as int], ['0' as int, 'X' as int]}

  predicate IsBlank(spaces: seq<Byte>, sign: seq<Byte>) {
    (forall c | c in spaces :: IsSpace(c)) && sign in {[], PLUS, MINUS}
  }

  /** Every writing of a numeral, with the longest run of digits: its value, or an error from 2^64 on. */
  lemma {:induction false} NumeralIsRead(spaces: seq<Byte>, sign: seq<Byte>, prefix: seq<Byte>, d: seq<Byte>,
                                           after: seq<Byte>)
    requires IsBlank(spaces, sign) && d != [] && (forall c | c in d :: IsHex(c)) && (after == [] || !IsHex(after[0]))
    requires prefix in PREFIXES || (prefix == [] && !IsPrefixed(d + after))
    ensures ParseSize(spaces + (sign + (prefix + (d + after)))) ==
            if HexValue(d) >= TWO_64 then None
            else if sign == MINUS && HexValue(d) > 0 then Some(TWO_64 - HexValue(d))
            else Some(HexValue(d))
  {
    hide SkipSpace;
    hide Digits;
    hide HexValue;
    hide IsPrefixed;
    DigitsAre(prefix, d, after);
    SignIsRead(spaces, sign, prefix + (d + after));
  }

  lemma DigitsAre(prefix: seq<Byte>, d: seq<Byte>, after: seq<Byte>)
    requires d != [] && (forall c | c in d :: IsHex(c)) && (after == [] || !IsHex(after[0]))
    requires prefix in PREFIXES || (prefix == [] && !IsPrefixed(d + after))
    ensures var u := prefix + (d + after); u != [] && IsHex(u[0]) && Digits(u) == d
  {
    var u := prefix + (d + after);
    assert d[0] in d && IsHex(u[0]);
    LeadingHexAll(d, after);
    if prefix == [] {
      assert u == d + after;
    } else {
      assert u[2..] == d + after && IsPrefixed(u);
    }
  }

  /** And without digits there is none. */
  lemma NoNumeral(spaces: seq<Byte>, sign: seq<Byte>, after: seq<Byte>)
    requires IsBlank(spaces, sign) && (after == [] || !IsHex(after[0]))
    requires sign == [] && after != [] ==> !IsSpace(after[0]) && after[0] != PLUS[0] && after[0] != MINUS[0]
    ensures ParseSize(spaces + (sign + after)).None?
  {
    SignIsRead(spaces, sign, after);
  }

  lemma {:induction false} SignIsRead(spaces: seq<Byte>, sign: seq<Byte>, u: seq<Byte>)
    requires IsBlank(spaces, sign)
    requires sign == [] && u != [] ==> !IsSpace(u[0]) && u[0] != PLUS[0] && u[0] != MINUS[0]
    ensures var t := SkipSpace(spaces + (sign + u));
            && t == sign + u && (sign != [] ==> t[1..] == u && t[0] == sign[0])
            && (sign == [] ==> t == u)
  {
    SpaceIsSkipped(spaces, sign + u);
  }

  lemma {:induction false} SpaceIsSkipped(spaces: seq<Byte>, t: seq<Byte>)
    requires (forall c | c in spaces :: IsSpace(c)) && (t == [] || !IsSpace(t[0]))
    ensures SkipSpace(spaces + t) == t
  {
    if spaces == [] {
      assert spaces + t == t;
    } else {
      SpaceIsSkipped(spaces[1..], t);
      assert (spaces + t)[1..] == spaces[1..] + t && spaces[0] in spaces;
    }
  }

  function HexChar(d: nat): (c: Byte)
    requires d < 16
    ensures IsHex(c) && HexDigit(c) == d && !IsSpace(c) && c != '-' as int && c != '+' as int
    ensures c == '0' as int <==> d == 0
  {
    if d < 10 then d + '0' as int else d - 10 + 'a' as int
  }

  function Hex(n: nat): (s: seq<Byte>)
    ensures s != [] && forall c | c in s :: IsHex(c)
  {
    if n < 16 then [HexChar(n)] else Hex(n / 16) + [HexChar(n % 16)]
  }

  lemma {:induction false} HexIsCanonical(n: nat)
    ensures HexValue(Hex(n)) == n
    ensures Hex(n)[0] != '-' as int && Hex(n)[0] != '+' as int && !IsSpace(Hex(n)[0])
    ensures n > 0 ==> Hex(n)[0] != '0' as int
  {
    if n < 16 {
      assert HexValue([HexChar(n)]) == HexValue([]) * 16 + n;
    } else {
      HexIsCanonical(n / 16);
      var s := Hex(n);
      assert s[..|s| - 1] == Hex(n / 16);
    }
  }

  lemma {:induction false} LeadingHexAll(s: seq<Byte>, t: seq<Byte>)
    requires forall c | c in s :: IsHex(c)
    requires t == [] || !IsHex(t[0])
    ensures LeadingHex(s + t) == s
  {
    if s == [] {
      assert s + t == t;
    } else {
      LeadingHexAll(s[1..], t);
      assert (s + t)[1..] == s[1..] + t;
      assert forall c | c in s[1..] :: c in s;
    }
  }

  lemma {:induction false} SizeIsRead(n: nat)
    requires 0 < n < TWO_64
    ensures ParseSize(Hex(n)) == Some(n)
  {
    HexIsCanonical(n);
    LeadingHexAll(Hex(n), []);
    assert Hex(n) + [] == Hex(n);
  }

  function Pow16(k: nat): (p: nat)
    ensures p > 0
  {
    if k == 0 then 1 else 16 * Pow16(k - 1)
  }

  lemma {:induction false} HexLength(n: nat, k: nat)
    requires k > 0
    ensures |Hex(n)| <= k <==> n < Pow16(k)
  {
    assert Pow16(k) == 16 * Pow16(k - 1);
    if n >= 16 && k > 1 {
      HexLength(n / 16, k - 1);
    } else if n >= 16 {
      assert Hex(n / 16) != [] && Pow16(0) == 1;
    }
  }

  lemma {:induction false} HexFits(n: nat)
    ensures |Hex(n)| <= 13 <==> n < 0x10_0000_0000_0000
    ensures |Hex(n)| <= 16 <==> n < TWO_64
  {
    HexLength(n, 13);
    HexLength(n, 16);
    assert Pow16(4) == 16 * Pow16(3) == 256 * Pow16(2) == 0x1_0000;
    assert Pow16(8) == 16 * Pow16(7) == 256 * Pow16(6) == 0x1000 * Pow16(5) == 0x1_0000_0000;
    assert Pow16(12) == 16 * Pow16(11) == 256 * Pow16(10) == 0x1000 * Pow16(9) == 0x1_0000_0000_0000;
    assert Pow16(16) == 16 * Pow16(15) == 256 * Pow16(14) == 0x1000 * Pow16(13) == TWO_64;
  }

  // ------------------------------------------------------------ parsing

  datatype Parsed = Parsed(body: seq<Byte>, rest: seq<Byte>)

  datatype State = ReadSize | ReadData(left: nat) | Complete

  function Prepend(bytes: seq<Byte>, p: Option<Parsed>): Option<Parsed> {
    if p.None? then None else Some(Parsed(bytes + p.value.body, p.value.rest))
  }

  lemma PrependTwice(a: seq<Byte>, b: seq<Byte>, p: Option<Parsed>)
    ensures Prepend(a, Prepend(b, p)) == Prepend(a + b, p)
    ensures Prepend([], p) == p
  {
    if p.Some? {
      assert a + (b + p.value.body) == a + b + p.value.body;
      assert [] + p.value.body == p.value.body;
    }
  }

  predicate SizeLineFits(strict: bool, n: nat) {
    n <= if strict then 62 else 64
  }

  predicate TrailerLineFits(strict: bool, n: nat) {
    strict ==> n <= 8190
  }

  /** What follows the trailer section, after `lines` nonempty lines of it; there may be 128. */
  function ParseTrailer(strict: bool, lines: nat, s: seq<Byte>): (r: Option<seq<Byte>>)
    ensures r.Some? ==> |r.value| < |s|
    decreases |s|
  {
    var p := FindCrlf(s);
    if p.None? || !TrailerLineFits(strict, p.value) then None
    else if p.value == 0 then Some(s[2..])
    else if lines + 1 > 128 then None
    else ParseTrailer(strict, lines + 1, s[p.value + 2..])
  }

  function ParseBody(strict: bool, state: State, s: seq<Byte>): (r: Option<Parsed>)
    ensures r.Some? ==> |r.value.body| + |r.value.rest| <= |s|
    decreases |s|, state.ReadSize?
  {
    match state
    case Complete => Some(Parsed([], s))
    case ReadSize => ParseSizeLine(strict, s)
    case ReadData(left) =>
      if |s| < left + 2 then None else Prepend(s[..left], ParseBody(strict, ReadSize, s[left + 2..]))
  }

  function ParseSizeLine(strict: bool, s: seq<Byte>): (r: Option<Parsed>)
    ensures r.Some? ==> |r.value.body| + |r.value.rest| <= |s|
    decreases |s|, false
  {
    var p := FindCrlf(s);
    if p.None? || !SizeLineFits(strict, p.value) then None
    else
      var size := ParseSize(s[..p.value]);
      if size.None? then None
      else if size.value > 0 then ParseBody(strict, ReadData(size.value), s[p.value + 2..])
      else
        var rest := ParseTrailer(strict, 0, s[p.value + 2..]);
        if rest.None? then None else Some(Parsed([], rest.value))
  }

  lemma {:induction false} StrictTrailerIsLenient(lines: nat, s: seq<Byte>)
    requires ParseTrailer(true, lines, s).Some?
    ensures ParseTrailer(false, lines, s) == ParseTrailer(true, lines, s)
    decreases |s|
  {
    var p := FindCrlf(s).value;
    if p > 0 {
      StrictTrailerIsLenient(lines + 1, s[p + 2..]);
    }
  }

  /** What the strict parser takes the lenient one takes too, with the same result. */
  lemma {:induction false} StrictIsLenient(state: State, s: seq<Byte>)
    requires ParseBody(true, state, s).Some?
    ensures ParseBody(false, state, s) == ParseBody(true, state, s)
    decreases |s|
  {
    match state
    case Complete =>
    case ReadData(left) => StrictIsLenient(ReadSize, s[left + 2..]);
    case ReadSize =>
      var p := FindCrlf(s).value;
      var size := ParseSize(s[..p]).value;
      if size > 0 {
        StrictIsLenient(ReadData(size), s[p + 2..]);
      } else {
        StrictTrailerIsLenient(0, s[p + 2..]);
      }
  }

  // ------------------------------------------------------------ the grammar

  /** A chunk as it stands on the wire: any line that reads as its size, and any two bytes at its end. */
  datatype Chunk = Chunk(line: seq<Byte>, data: seq<Byte>, end: seq<Byte>)

  datatype Message = Last(line: seq<Byte>, trailers: seq<seq<Byte>>) | More(chunk: Chunk, next: Message)

  /** The trailer lines and the empty line, and then `rest`. */
  function TrailerBytes(trailers: seq<seq<Byte>>, rest: seq<Byte>): seq<Byte> {
    if trailers == [] then CRLF + rest else trailers[0] + CRLF + TrailerBytes(trailers[1..], rest)
  }

  /** A message on the wire with `rest` behind it. */
  function MessageBytes(m: Message, rest: seq<Byte>): seq<Byte> {
    match m
    case Last(line, trailers) => line + CRLF + TrailerBytes(trailers, rest)
    case More(c, next) => c.line + CRLF + (c.data + c.end + MessageBytes(next, rest))
  }

  function MessageBody(m: Message): seq<Byte> {
    match m
    case Last(_, _) => []
    case More(c, next) => c.data + MessageBody(next)
  }

  predicate IsSizeLine(strict: bool, line: seq<Byte>, size: nat) {
    FindCrlf(line).None? && SizeLineFits(strict, |line|) && ParseSize(line) == Some(size)
  }

  predicate IsTrailerLine(strict: bool, line: seq<Byte>) {
    line != [] && FindCrlf(line).None? && TrailerLineFits(strict, |line|)
  }

  predicate IsChunk(strict: bool, c: Chunk) {
    c.data != [] && IsSizeLine(strict, c.line, |c.data|) && |c.end| == 2
  }

  predicate IsMessage(strict: bool, m: Message) {
    match m
    case Last(line, trailers) =>
      IsSizeLine(strict, line, 0) && |trailers| <= 128 && forall t | t in trailers :: IsTrailerLine(strict, t)
    case More(c, next) => IsChunk(strict, c) && IsMessage(strict, next)
  }

  lemma {:induction false} LineThenRest(line: seq<Byte>, s: seq<Byte>)
    requires FindCrlf(line).None?
    ensures FindCrlf(line + CRLF + s) == Some(|line|)
    ensures (line + CRLF + s)[..|line|] == line && (line + CRLF + s)[|line| + 2..] == s
  {
    var t := line + CRLF + s;
    assert CrlfAt(t, |line|) && t[|line|] == CR;
    assert t == line + (CRLF + s);
    FindInPart(line, CRLF + s);
  }

  lemma {:induction false} SplitLine(s: seq<Byte>)
    requires FindCrlf(s).Some?
    ensures var p := FindCrlf(s).value; FindCrlf(s[..p]).None? && s == s[..p] + CRLF + s[p + 2..]
  {
    var p := FindCrlf(s).value;
    assert forall i: nat :: CrlfAt(s[..p], i) ==> CrlfAt(s, i);
  }

  lemma {:induction false} TrailersParsed(strict: bool, lines: nat, trailers: seq<seq<Byte>>, rest: seq<Byte>)
    requires lines + |trailers| <= 128 && forall t | t in trailers :: IsTrailerLine(strict, t)
    ensures ParseTrailer(strict, lines, TrailerBytes(trailers, rest)) == Some(rest)
    decreases |trailers|
  {
    hide FindCrlf;
    if trailers == [] {
      assert CRLF + rest == [] + CRLF + rest;
      LineThenRest([], rest);
    } else {
      assert IsTrailerLine(strict, trailers[0]);
      LineThenRest(trailers[0], TrailerBytes(trailers[1..], rest));
      TrailersParsed(strict, lines + 1, trailers[1..], rest);
    }
  }

  lemma {:induction false} TrailersFound(strict: bool, lines: nat, s: seq<Byte>) returns (trailers: seq<seq<Byte>>)
    requires ParseTrailer(strict, lines, s).Some? && lines <= 128
    ensures lines + |trailers| <= 128 && forall t | t in trailers :: IsTrailerLine(strict, t)
    ensures s == TrailerBytes(trailers, ParseTrailer(strict, lines, s).value)
    decreases |s|
  {
    hide FindCrlf;
    SplitLine(s);
    var p := FindCrlf(s).value;
    if p == 0 {
      return [];
    }
    var others := TrailersFound(strict, lines + 1, s[p + 2..]);
    trailers := [s[..p]] + others;
    assert trailers[1..] == others;
  }

  /** Every message of the grammar is parsed to its body, whatever follows it. */
  lemma {:induction false} MessageParsed(strict: bool, m: Message, rest: seq<Byte>)
    requires IsMessage(strict, m)
    ensures ParseBody(strict, ReadSize, MessageBytes(m, rest)) == Some(Parsed(MessageBody(m), rest))
  {
    hide FindCrlf;
    hide ParseSize;
    hide ParseTrailer;
    var s := MessageBytes(m, rest);
    assert ParseBody(strict, ReadSize, s) == ParseSizeLine(strict, s);
    match m
    case Last(line, trailers) =>
      LineThenRest(line, TrailerBytes(trailers, rest));
      TrailersParsed(strict, 0, trailers, rest);
    case More(c, next) =>
      var t := MessageBytes(next, rest);
      var d := c.data + c.end + t;
      LineThenRest(c.line, d);
      assert ParseSizeLine(strict, s) == ParseBody(strict, ReadData(|c.data|), d);
      assert d[..|c.data|] == c.data && d[|c.data| + 2..] == t;
      MessageParsed(strict, next, rest);
  }

  lemma {:induction false} SizeLineFound(strict: bool, s: seq<Byte>)
    requires ParseBody(strict, ReadSize, s).Some?
    ensures FindCrlf(s).Some? && ParseSize(s[..FindCrlf(s).value]).Some?
    ensures var p, rest := FindCrlf(s).value, ParseBody(strict, ReadSize, s).value.rest;
            var size, after := ParseSize(s[..p]).value, s[p + 2..];
            && s == s[..p] + CRLF + after
            && IsSizeLine(strict, s[..p], size)
            && (size == 0 ==> ParseTrailer(strict, 0, after) == Some(rest))
            && (size > 0 ==>
                  && size + 2 <= |after|
                  && ParseBody(strict, ReadSize, after[size + 2..]).Some?
                  && ParseBody(strict, ReadSize, after[size + 2..]).value.rest == rest)
  {
    hide FindCrlf;
    hide ParseSize;
    hide ParseTrailer;
    SplitLine(s);
    assert ParseBody(strict, ReadSize, s) == ParseSizeLine(strict, s);
    var p := FindCrlf(s).value;
    var size := ParseSize(s[..p]).value;
    assert size > 0 ==> ParseSizeLine(strict, s) == ParseBody(strict, ReadData(size), s[p + 2..]);
  }

  lemma ChunkFound(strict: bool, line: seq<Byte>, size: nat, after: seq<Byte>, next: Message, rest: seq<Byte>)
    returns (m: Message)
    requires 0 < size && size + 2 <= |after| && IsSizeLine(strict, line, size)
    requires IsMessage(strict, next) && after[size + 2..] == MessageBytes(next, rest)
    ensures IsMessage(strict, m) && MessageBytes(m, rest) == line + CRLF + after
  {
    hide IsSizeLine;
    var c := Chunk(line, after[..size], after[size..size + 2]);
    m := More(c, next);
    assert c.data + c.end + after[size + 2..] == after;
  }

  lemma {:induction false} LastIs(strict: bool, m: Message, rest: seq<Byte>)
    requires m.Last? && IsSizeLine(strict, m.line, 0)
    requires |m.trailers| <= 128 && forall t | t in m.trailers :: IsTrailerLine(strict, t)
    ensures IsMessage(strict, m) && MessageBytes(m, rest) == m.line + CRLF + TrailerBytes(m.trailers, rest)
  {
  }

  /** And nothing else is parsed: what the parser takes off is a message of the grammar. */
  lemma {:induction false} MessageFound(strict: bool, s: seq<Byte>) returns (m: Message)
    requires ParseBody(strict, ReadSize, s).Some?
    ensures IsMessage(strict, m)
    ensures s == MessageBytes(m, ParseBody(strict, ReadSize, s).value.rest)
    decreases |s|
  {
    hide FindCrlf;
    hide ParseSize;
    hide ParseTrailer;
    hide ParseBody;
    hide MessageBytes;
    hide IsMessage;
    hide IsSizeLine;
    SizeLineFound(strict, s);
    var p := FindCrlf(s).value;
    var size := ParseSize(s[..p]).value;
    if size == 0 {
      var trailers := TrailersFound(strict, 0, s[p + 2..]);
      m := Last(s[..p], trailers);
      LastIs(strict, m, ParseBody(strict, ReadSize, s).value.rest);
    } else {
      var next := MessageFound(strict, s[p + 2..][size + 2..]);
      m := ChunkFound(strict, s[..p], size, s[p + 2..], next, ParseBody(strict, ReadSize, s).value.rest);
    }
  }
}
