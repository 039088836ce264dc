/**
 The Huffman decoder: an automaton over half bytes, whose states stand for the bits read since the
 last complete symbol. For every automaton that matches a prefix-free code it accepts exactly the
 padded encodings, and returns the string encoded.
 */
module HuffmanDecoding {
  import opened Wrappers
  import opened ByteIO
  import opened Huffman

  const ERROR_STATE: nat := 0x100

  datatype Step = Step(fstate: nat, accepted: bool, isSym: bool, sym: Byte)

  type Table = seq<seq<Step>>

  predicate HasShape(table: Table) {
    && |table| >= ERROR_STATE
    && (forall i | 0 <= i < ERROR_STATE :: |table[i]| == 16)
    && (forall i, j | 0 <= i < ERROR_STATE && 0 <= j < 16 :: table[i][j].fstate <= ERROR_STATE)
  }

  // ------------------------------------------------------------ what is assumed of the table

  ghost predicate NoCodeIn(codes: seq<Sym>, w: Bits)
    requires HasRows(codes)
  {
    forall c: Byte :: !(CodeOf(codes, c) <= w)
  }

  /** `w` begins no string of codes and no padding. */
  ghost predicate IsDead(codes: seq<Sym>, w: Bits)
    requires HasRows(codes)
  {
    && NoCodeIn(codes, w)
    && (forall c: Byte :: !(w <= CodeOf(codes, c)))
    && !(w <= Ones(29))
  }

  /** What a step may do when the bits read since the last symbol become `w`. */
  ghost predicate StepIsRight(codes: seq<Sym>, pre: seq<Bits>, step: Step, w: Bits)
    requires HasRows(codes) && |pre| == ERROR_STATE
  {
    if step.fstate >= ERROR_STATE then IsDead(codes, w)
    else
      && (step.isSym ==> CodeOf(codes, step.sym) <= w && pre[step.fstate] == w[|CodeOf(codes, step.sym)|..])
      && (!step.isSym ==> NoCodeIn(codes, w) && pre[step.fstate] == w)
      && (step.accepted <==> pre[step.fstate] == Ones(|pre[step.fstate]|) && |pre[step.fstate]| < 8)
  }

  /** `pre` gives each state its bits: fewer than a code after a symbol, and none at the start. */
  ghost predicate Matches(table: Table, codes: seq<Sym>, pre: seq<Bits>) {
    && HasShape(table)
    && HasRows(codes)
    && |pre| == ERROR_STATE
    && pre[0] == []
    && (forall i, n | 0 <= i < ERROR_STATE && 0 <= n < 16 ::
          StepIsRight(codes, pre, table[i][n], pre[i] + ToBits(n, 4)))
    && (forall i | 0 <= i < ERROR_STATE :: NoCodeIn(codes, pre[i]))
  }

  // ------------------------------------------------------------ the run

  datatype Run = Run(state: nat, accepted: bool, out: seq<Byte>)

  predicate InTable(run: Run) {
    run.state < ERROR_STATE
  }

  function TakeNibble(table: Table, run: Run, n: nat): (r: Option<Run>)
    requires HasShape(table) && InTable(run) && n < 16
    ensures r.Some? ==> InTable(r.value)
  {
    var step := table[run.state][n];
    if step.fstate == ERROR_STATE then None
    else Some(Run(step.fstate, step.accepted, if step.isSym then run.out + [step.sym] else run.out))
  }

  function TakeByte(table: Table, run: Run, c: Byte): (r: Option<Run>)
    requires HasShape(table) && InTable(run)
    ensures r.Some? ==> InTable(r.value)
  {
    var half := TakeNibble(table, run, c / 16);
    if half.None? then None else TakeNibble(table, half.value, c % 16)
  }

  function RunOver(table: Table, data: seq<Byte>): (r: Option<Run>)
    requires HasShape(table)
    ensures r.Some? ==> InTable(r.value)
  {
    if data == [] then Some(Run(0, true, []))
    else
      var run := RunOver(table, data[..|data| - 1]);
      if run.None? then None else TakeByte(table, run.value, data[|data| - 1])
  }

  function Decoded(table: Table, data: seq<Byte>): Option<seq<Byte>>
    requires HasShape(table)
  {
    var run := RunOver(table, data);
    if run.None? || !run.value.accepted then None else Some(run.value.out)
  }

  method HuffmanDecode(table: Table, data: seq<Byte>) returns (result: Option<seq<Byte>>)
    requires HasShape(table)
    ensures result == Decoded(table, data)
  {
    var out: seq<Byte> := [];
    var t := Step(0, true, false, 0);
    for i := 0 to |data|
      invariant t.fstate < ERROR_STATE
      invariant RunOver(table, data[..i]) == Some(Run(t.fstate, t.accepted, out))
    {
      var c := data[i];
      assert data[..i + 1][..i] == data[..i];
      RunAll(table, data, i + 1);
      t := table[t.fstate][c / 16];
      if t.fstate == ERROR_STATE {
        return None;
      }
      if t.isSym {
        out := out + [t.sym];
      }
      t := table[t.fstate][c % 16];
      if t.fstate == ERROR_STATE {
        return None;
      }
      if t.isSym {
        out := out + [t.sym];
      }
    }
    assert data[..|data|] == data;
    result := if t.accepted then Some(out) else None;
  }

  lemma {:induction false} RunAll(table: Table, data: seq<Byte>, i: nat)
    requires HasShape(table) && i <= |data|
    ensures RunOver(table, data[..i]).None? ==> RunOver(table, data).None?
    decreases |data|
  {
    hide TakeByte;
    if i < |data| {
      RunAll(table, data[..|data| - 1], i);
      assert data[..|data| - 1][..i] == data[..i];
    } else {
      assert data[..i] == data;
    }
  }

  // ------------------------------------------------------------ what the run has read

  /** The bits read are the encoding of what is out, and then the bits of the state. */
  ghost predicate Explains(codes: seq<Sym>, pre: seq<Bits>, run: Run, w: Bits)
    requires HasRows(codes) && |pre| == ERROR_STATE && InTable(run)
  {
    && w == Encoding(codes, run.out) + pre[run.state]
    && (run.accepted <==> pre[run.state] == Ones(|pre[run.state]|) && |pre[run.state]| < 8)
  }

  lemma {:induction false} OneMoreSym(codes: seq<Sym>, out: seq<Byte>, sym: Byte, w: Bits, left: Bits)
    requires HasRows(codes) && CodeOf(codes, sym) <= w && left == w[|CodeOf(codes, sym)|..]
    ensures Encoding(codes, out) + w == Encoding(codes, out + [sym]) + left
  {
    hide CodeOf;
    EncodingAdd(codes, out, sym);
    hide Encoding;
    assert w == CodeOf(codes, sym) + left;
  }

  lemma {:induction false} NibbleExplained(table: Table, codes: seq<Sym>, pre: seq<Bits>, run: Run, w: Bits, n: nat)
    requires Matches(table, codes, pre) && InTable(run) && n < 16 && Explains(codes, pre, run, w)
    ensures var r := TakeNibble(table, run, n);
            if r.None? then IsDead(codes, pre[run.state] + ToBits(n, 4))
            else Explains(codes, pre, r.value, w + ToBits(n, 4))
  {
    hide IsDead;
    hide NoCodeIn;
    hide CodeOf;
    hide Encoding;
    hide ToBits;
    hide Ones;
    var w' := pre[run.state] + ToBits(n, 4);
    var step := table[run.state][n];
    assert StepIsRight(codes, pre, step, w');
    assert w + ToBits(n, 4) == Encoding(codes, run.out) + w';
    if step.fstate != ERROR_STATE && step.isSym {
      OneMoreSym(codes, run.out, step.sym, w', pre[step.fstate]);
    }
  }

  /** A run that does not fail has read the encoding of what it put out, up to the bits of its state. */
  lemma {:induction false} RunExplained(table: Table, codes: seq<Sym>, pre: seq<Bits>, data: seq<Byte>)
    requires Matches(table, codes, pre)
    ensures RunOver(table, data).Some? ==> Explains(codes, pre, RunOver(table, data).value, AllBits(data))
  {
    hide TakeNibble;
    hide StepIsRight;
    if data == [] {
      assert Encoding(codes, []) + pre[0] == [];
    } else {
      RunExplained(table, codes, pre, data[..|data| - 1]);
      var run, c := RunOver(table, data[..|data| - 1]), data[|data| - 1];
      if run.Some? {
        var w := AllBits(data[..|data| - 1]);
        ByteExplained(table, codes, pre, run.value, w, c);
      }
    }
  }

  lemma ByteExplained(table: Table, codes: seq<Sym>, pre: seq<Bits>, run: Run, w: Bits, c: Byte)
    requires Matches(table, codes, pre) && InTable(run) && Explains(codes, pre, run, w)
    ensures TakeByte(table, run, c).Some? ==> Explains(codes, pre, TakeByte(table, run, c).value, w + Nibbles(c))
  {
    hide StepIsRight;
    hide Explains;
    NibbleExplained(table, codes, pre, run, w, c / 16);
    var half := TakeNibble(table, run, c / 16);
    if half.Some? {
      NibbleExplained(table, codes, pre, half.value, w + ToBits(c / 16, 4), c % 16);
      assert w + Nibbles(c) == w + ToBits(c / 16, 4) + ToBits(c % 16, 4);
    }
  }

  // ------------------------------------------------------------ which bits can be read

  lemma Comparable(a: Bits, x: Bits, b: Bits, y: Bits)
    requires a + x <= b + y
    ensures a <= b || b <= a
    ensures a == b ==> x <= y
  {
    assert forall i | 0 <= i < |a| && i < |b| :: a[i] == (a + x)[i] == (b + y)[i] == b[i];
    if a == b {
      assert forall i | 0 <= i < |x| :: x[i] == (a + x)[|a| + i] == (b + y)[|b| + i] == y[i];
    }
  }

  /** A code does not begin the padding. */
  lemma NoCodeInOnes(codes: seq<Sym>, c: Byte, y: Bits, k: nat)
    requires GoodCodes(codes)
    ensures !(CodeOf(codes, c) + y <= Ones(k))
  {
    var w := CodeOf(codes, c);
    var ones := Ones(|w|);
    assert forall i | 0 <= i < |w| :: (w + y)[i] == w[i];
    assert w + y <= Ones(k) ==> w == ones;
  }

  /** Where the bits begin a padded encoding, the symbols found are its first ones. */
  lemma {:induction false} FirstSym(codes: seq<Sym>, a: seq<Byte>, w: Bits, s: seq<Byte>, k: nat)
    requires GoodCodes(codes) && a != []
    requires Encoding(codes, a) + w <= Encoding(codes, s) + Ones(k)
    ensures s != [] && a[0] == s[0] && Encoding(codes, a[1..]) + w <= Encoding(codes, s[1..]) + Ones(k)
  {
    hide CodeOf;
    hide Ones;
    var x := CodeOf(codes, a[0]);
    assert Encoding(codes, a) + w == x + (Encoding(codes, a[1..]) + w);
    NoCodeInOnes(codes, a[0], Encoding(codes, a[1..]) + w, k);
    assert Encoding(codes, []) + Ones(k) == Ones(k);
    assert s != [];
    var y := CodeOf(codes, s[0]);
    assert Encoding(codes, s) + Ones(k) == y + (Encoding(codes, s[1..]) + Ones(k));
    Comparable(x, Encoding(codes, a[1..]) + w, y, Encoding(codes, s[1..]) + Ones(k));
  }

  lemma {:induction false} FirstOnes(codes: seq<Sym>, a: seq<Byte>, w: Bits, s: seq<Byte>, k: nat)
    requires GoodCodes(codes)
    requires Encoding(codes, a) + w <= Encoding(codes, s) + Ones(k)
    ensures a <= s && w <= Encoding(codes, s[|a|..]) + Ones(k)
  {
    hide CodeOf;
    hide Ones;
    if a == [] {
      assert Encoding(codes, a) + w == w && s[0..] == s;
    } else {
      FirstSym(codes, a, w, s, k);
      FirstOnes(codes, a[1..], w, s[1..], k);
      assert s[1..][|a| - 1..] == s[|a|..];
    }
  }

  /** What begins a padded encoding is not dead. */
  lemma {:induction false} BeginsIsAlive(codes: seq<Sym>, w: Bits, s: seq<Byte>, k: nat)
    requires GoodCodes(codes) && k < 8 && w <= Encoding(codes, s) + Ones(k)
    ensures !IsDead(codes, w)
  {
  }

  lemma {:induction false} NibbleAlive(table: Table, codes: seq<Sym>, pre: seq<Bits>, run: Run, w: Bits, n: nat,
                                       s: seq<Byte>, k: nat)
    requires Matches(table, codes, pre) && GoodCodes(codes) && InTable(run) && n < 16
    requires Explains(codes, pre, run, w) && k < 8 && w + ToBits(n, 4) <= Encoding(codes, s) + Ones(k)
    ensures TakeNibble(table, run, n).Some? && Explains(codes, pre, TakeNibble(table, run, n).value, w + ToBits(n, 4))
  {
    hide IsDead;
    hide StepIsRight;
    hide TakeNibble;
    hide GoodCodes;
    hide Encoding;
    hide ToBits;
    hide Ones;
    NibbleExplained(table, codes, pre, run, w, n);
    var w' := pre[run.state] + ToBits(n, 4);
    assert w + ToBits(n, 4) == Encoding(codes, run.out) + w';
    FirstOnes(codes, run.out, w', s, k);
    BeginsIsAlive(codes, w', s[|run.out|..], k);
  }

  lemma {:induction false} ByteAlive(table: Table, codes: seq<Sym>, pre: seq<Bits>, run: Run, w: Bits, c: Byte,
                                     s: seq<Byte>, k: nat)
    requires Matches(table, codes, pre) && GoodCodes(codes) && InTable(run)
    requires Explains(codes, pre, run, w) && k < 8 && w + Nibbles(c) <= Encoding(codes, s) + Ones(k)
    ensures TakeByte(table, run, c).Some?
  {
    hide StepIsRight;
    hide Explains;
    hide TakeNibble;
    hide GoodCodes;
    hide Encoding;
    var hi, lo := ToBits(c / 16, 4), ToBits(c % 16, 4);
    assert w + Nibbles(c) == w + hi + lo;
    assert w + hi <= w + hi + lo;
    NibbleAlive(table, codes, pre, run, w, c / 16, s, k);
    NibbleAlive(table, codes, pre, TakeNibble(table, run, c / 16).value, w + hi, c % 16, s, k);
  }

  lemma {:induction false} RunAlive(table: Table, codes: seq<Sym>, pre: seq<Bits>, data: seq<Byte>, s: seq<Byte>,
                                    k: nat)
    requires Matches(table, codes, pre) && GoodCodes(codes)
    requires k < 8 && AllBits(data) <= Encoding(codes, s) + Ones(k)
    ensures RunOver(table, data).Some?
  {
    hide StepIsRight;
    hide TakeByte;
    hide GoodCodes;
    hide Encoding;
    if data != [] {
      var before, c := data[..|data| - 1], data[|data| - 1];
      assert AllBits(before) <= AllBits(data);
      RunAlive(table, codes, pre, before, s, k);
      RunExplained(table, codes, pre, before);
      ByteAlive(table, codes, pre, RunOver(table, before).value, AllBits(before), c, s, k);
    }
  }

  lemma {:induction false} CodeIsIn(codes: seq<Sym>, w: Bits, s: seq<Byte>, k: nat)
    requires HasRows(codes) && s != [] && w <= Encoding(codes, s) + Ones(k) && |w| >= |Encoding(codes, s)|
    ensures CodeOf(codes, s[0]) <= w
  {
  }

  /** With all the bits of a padded encoding read, no symbol is missing. */
  lemma {:induction false} NothingLeft(codes: seq<Sym>, a: seq<Byte>, w: Bits, s: seq<Byte>, k: nat)
    requires GoodCodes(codes) && HasRows(codes) && NoCodeIn(codes, w)
    requires Encoding(codes, a) + w == Encoding(codes, s) + Ones(k)
    ensures a == s && w == Ones(k)
  {
    hide GoodCodes;
    assert Encoding(codes, a) + w <= Encoding(codes, s) + Ones(k);
    FirstOnes(codes, a, w, s, k);
    LengthsAdd(codes, a, s);
    var left := s[|a|..];
    if left != [] {
      CodeIsIn(codes, w, left, k);
      assert false;
    }
  }

  lemma {:induction false} PaddedIsDecoded(table: Table, codes: seq<Sym>, pre: seq<Bits>, data: seq<Byte>, s: seq<Byte>)
    requires Matches(table, codes, pre) && GoodCodes(codes) && IsPadded(AllBits(data), codes, s)
    ensures Decoded(table, data) == Some(s)
  {
    hide StepIsRight;
    hide GoodCodes;
    hide NoCodeIn;
    hide Encoding;
    hide AllBits;
    var k := |AllBits(data)| - |Encoding(codes, s)|;
    RunAlive(table, codes, pre, data, s, k);
    RunExplained(table, codes, pre, data);
    var run := RunOver(table, data).value;
    NothingLeft(codes, run.out, pre[run.state], s, k);
  }

  lemma {:induction false} DecodedIsPadded(table: Table, codes: seq<Sym>, pre: seq<Bits>, data: seq<Byte>, s: seq<Byte>)
    requires Matches(table, codes, pre) && Decoded(table, data) == Some(s)
    ensures IsPadded(AllBits(data), codes, s)
  {
    hide StepIsRight;
    hide NoCodeIn;
    hide Encoding;
    hide AllBits;
    RunExplained(table, codes, pre, data);
    var run := RunOver(table, data).value;
    assert AllBits(data) == Encoding(codes, s) + Ones(|pre[run.state]|);
  }

  /** The decoder accepts exactly the padded encodings, and returns the string encoded. */
  lemma {:induction false} DecodesExactly(table: Table, codes: seq<Sym>, pre: seq<Bits>, data: seq<Byte>, s: seq<Byte>)
    requires Matches(table, codes, pre) && GoodCodes(codes)
    ensures Decoded(table, data) == Some(s) <==> IsPadded(AllBits(data), codes, s)
  {
    hide Decoded;
    hide IsPadded;
    if IsPadded(AllBits(data), codes, s) {
      PaddedIsDecoded(table, codes, pre, data, s);
    }
    if Decoded(table, data) == Some(s) {
      DecodedIsPadded(table, codes, pre, data, s);
    }
  }

  lemma {:induction false} LengthsAdd(codes: seq<Sym>, a: seq<Byte>, s: seq<Byte>)
    requires HasRows(codes) && a <= s
    ensures |Encoding(codes, s)| == |Encoding(codes, a)| + |Encoding(codes, s[|a|..])|
  {
    if a == [] {
      assert s[0..] == s;
    } else {
      LengthsAdd(codes, a[1..], s[1..]);
      assert s[1..][|a| - 1..] == s[|a|..];
    }
  }
}
