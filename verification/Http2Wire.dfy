/**
 HTTP/2 frames as bytes (section 4.1 of RFC 7540): a frame is written as a header and then a payload,
 by whoever holds the write lock, and read back from a stream that delivers bytes in any portions.
 */
module Http2Wire {
  import opened Wrappers
  import opened ByteIO
  import opened Arith

  /** A frame as it is written and read, its kind still a number. */
  datatype RawFrame = RawFrame(kind: Byte, flags: Byte, streamId: nat, payload: seq<Byte>)

  function Low(x: nat): Byte {
    x % 0x100
  }

  /** Nine bytes: the low 24 bits of the length, kind and flags, the low 31 bits of the stream id. */
  function Header(f: RawFrame): (h: seq<Byte>)
    ensures |h| == 9
  {
    var n := |f.payload|;
    [Low(n / 0x1_0000), Low(n / 0x100), Low(n), f.kind, f.flags] + IdBytes(f.streamId)
  }

  function IdBytes(id: nat): (b: seq<Byte>)
    ensures |b| == 4
  {
    [id / 0x100_0000 % 0x80, Low(id / 0x1_0000), Low(id / 0x100), Low(id)]
  }

  function FrameBytes(f: RawFrame): seq<Byte> {
    Header(f) + f.payload
  }

  function Encoded(frames: seq<RawFrame>): seq<Byte> {
    if frames == [] then [] else Encoded(frames[..|frames| - 1]) + FrameBytes(frames[|frames| - 1])
  }

  // ------------------------------------------------------------ reading

  function LengthOf(a: int, b: int, c: int): int {
    a * 0x1_0000 + b * 0x100 + c
  }

  function IdOf(a: int, b: int, c: int, d: int): int {
    a % 0x80 * 0x100_0000 + b * 0x1_0000 + c * 0x100 + d
  }

  /**
   What reading one frame gives: nothing at the end of the stream, or a frame; one that is too long
   comes without its payload.
   */
  datatype Reading = EndOfStream | Oversized(length: nat, rest: seq<Byte>) | Complete(frame: RawFrame, rest: seq<Byte>)

  function Parse(s: seq<Byte>, max: nat): Reading {
    if |s| < 9 then EndOfStream
    else
      var length := LengthOf(s[0], s[1], s[2]);
      if length > max then Oversized(length, s[9..])
      else if |s| < 9 + length then EndOfStream
      else Complete(RawFrame(s[3], s[4], IdOf(s[5], s[6], s[7], s[8]), s[9..9 + length]), s[9 + length..])
  }

  lemma LengthRead(n: nat)
    ensures LengthOf(Low(n / 0x1_0000), Low(n / 0x100), Low(n)) == n % 0x100_0000
  {
    LowByte(n, 0x1_0000);
    LowByte(n / 0x100, 0x100);
    Shifts(n);
  }

  lemma IdRead(id: nat)
    ensures var b := IdBytes(id); IdOf(b[0], b[1], b[2], b[3]) == id % 0x8000_0000
  {
    LowByte(id, 0x80_0000);
    LowByte(id / 0x100, 0x8000);
    LowByte(id / 0x1_0000, 0x80);
    Shifts(id);
  }

  /** The nine bytes at the head of a written frame. */
  lemma HeaderRead(f: RawFrame, rest: seq<Byte>)
    ensures var s := FrameBytes(f) + rest;
            && LengthOf(s[0], s[1], s[2]) == |f.payload| % 0x100_0000
            && s[3] == f.kind && s[4] == f.flags
            && IdOf(s[5], s[6], s[7], s[8]) == f.streamId % 0x8000_0000
            && s[9..] == f.payload + rest
  {
    hide LengthOf;
    hide IdOf;
    hide Low;
    LengthRead(|f.payload|);
    IdRead(f.streamId);
  }

  /**
   A frame that the reader's limit admits is read back exactly if its payload is below 2^24 bytes and
   its stream id below 2^31, and only then.
   */
  lemma FrameRoundTrip(f: RawFrame, rest: seq<Byte>, max: nat)
    requires |f.payload| <= max
    ensures Parse(FrameBytes(f) + rest, max) == Complete(f, rest) <==>
              |f.payload| < 0x100_0000 && f.streamId < 0x8000_0000
  {
    hide LengthOf;
    hide IdOf;
    hide Header;
    HeaderRead(f, rest);
    var s, n := FrameBytes(f) + rest, |f.payload|;
    if n < 0x100_0000 {
      assert s[9..9 + n] == s[9..][..n] == f.payload && s[9 + n..] == s[9..][n..] == rest;
    }
  }

  // ------------------------------------------------------------ the reader

  class FrameReader {
    const stream: ByteStream

    constructor (stream: ByteStream)
      ensures this.stream == stream
    {
      this.stream := stream;
    }

    /** Reads what the parser of whole byte strings finds, and leaves the stream behind it. */
    method ReadFrame(max: nat) returns (r: Reading)
      modifies stream
      ensures r == Parse(old(stream.pending), max)
      ensures !r.EndOfStream? ==> r.rest == stream.pending
    {
      hide LengthOf;
      hide IdOf;
      ghost var s := stream.pending;
      var h := stream.ReadExact(9);
      if h.None? {
        return EndOfStream;
      }
      var hdr := h.value;
      assert forall i | 0 <= i < 9 :: hdr[i] == s[i];
      LengthIsNat(hdr);
      var length: nat := LengthOf(hdr[0], hdr[1], hdr[2]);
      if length > max {
        assert stream.pending == s[9..];
        return Oversized(length, stream.pending);
      }
      var payload: seq<Byte> := [];
      if length > 0 {
        var p := stream.ReadExact(length);
        if p.None? {
          return EndOfStream;
        }
        payload := p.value;
      }
      assert s[9..] == payload + stream.pending;
      assert s[9..9 + length] == s[9..][..length] && s[9 + length..] == s[9..][length..];
      return Complete(RawFrame(hdr[3], hdr[4], IdOf(hdr[5], hdr[6], hdr[7], hdr[8]), payload), stream.pending);
    }
  }

  lemma LengthIsNat(s: seq<Byte>)
    requires |s| == 9
    ensures LengthOf(s[0], s[1], s[2]) >= 0 && IdOf(s[5], s[6], s[7], s[8]) >= 0
  {
  }

  // ------------------------------------------------------------ the writers

  /**
   The holder of the write lock: all its frames, those still to write, of which the header may be
   out, and what it wrote.
   */
  datatype Job = Job(frames: seq<RawFrame>, left: seq<RawFrame>, headerOut: bool, bytes: seq<Byte>)

  /** What a holder had to write and wrote, and whether a write failed. */
  datatype Turn = Turn(frames: seq<RawFrame>, bytes: seq<Byte>, failed: bool)

  /** The wire, the holder, and the turns that are over, in the order in which they got the lock. */
  datatype Writers = Writers(wire: seq<Byte>, holder: Option<Job>, turns: seq<Turn>)

  datatype Step =
    | Lock(frames: seq<RawFrame>)
    | WriteHeader
    | WritePayload
    | Unlock
    | Fail(bytes: seq<Byte>)

  /** What the holder's next write would put out. */
  function NextWrite(j: Job): seq<Byte>
    requires j.left != []
  {
    if j.headerOut then j.left[0].payload else Header(j.left[0])
  }

  predicate Enabled(w: Writers, step: Step) {
    match step
    case Lock(frames) => w.holder.None?
    case WriteHeader => w.holder.Some? && w.holder.value.left != [] && !w.holder.value.headerOut
    case WritePayload => w.holder.Some? && w.holder.value.left != [] && w.holder.value.headerOut
    case Unlock => w.holder.Some? && w.holder.value.left == []
    case Fail(bytes) => w.holder.Some? && w.holder.value.left != [] && bytes <= NextWrite(w.holder.value)
  }

  /** A header, a payload unless it is empty, or part of one in a write that fails and gives up the lock. */
  function Apply(w: Writers, step: Step): Writers
    requires Enabled(w, step)
  {
    match step
    case Lock(frames) => w.(holder := Some(Job(frames, frames, false, [])))
    case WriteHeader | WritePayload =>
      Writers(w.wire + NextWrite(w.holder.value), Some(Wrote(w.holder.value)), w.turns)
    case Unlock => Writers(w.wire, None, w.turns + [Turn(w.holder.value.frames, w.holder.value.bytes, false)])
    case Fail(bytes) =>
      Writers(w.wire + bytes, None, w.turns + [Turn(w.holder.value.frames, w.holder.value.bytes + bytes, true)])
  }

  /** What the holder has still to put out. */
  function Left(j: Job): seq<Byte> {
    if j.left == [] then []
    else NextWrite(j) + (if j.headerOut then [] else j.left[0].payload) + Encoded(j.left[1..])
  }

  function Bytes(turns: seq<Turn>): seq<Byte> {
    if turns == [] then [] else Bytes(turns[..|turns| - 1]) + turns[|turns| - 1].bytes
  }

  function FramesOf(turns: seq<Turn>): seq<RawFrame> {
    if turns == [] then [] else FramesOf(turns[..|turns| - 1]) + turns[|turns| - 1].frames
  }

  /** A turn that wrote all its frames; one whose last write failed may have done so too. */
  predicate IsWhole(t: Turn) {
    t.bytes == Encoded(t.frames)
  }

  /** A turn writes its frames from the first byte on, and all of them unless a write failed. */
  predicate TurnOk(t: Turn) {
    t.bytes <= Encoded(t.frames) && (!t.failed ==> IsWhole(t))
  }

  predicate JobOk(j: Job) {
    (j.headerOut ==> j.left != []) && j.bytes + Left(j) == Encoded(j.frames)
  }

  ghost predicate Inv(w: Writers) {
    && w.wire == Bytes(w.turns) + (if w.holder.Some? then w.holder.value.bytes else [])
    && (forall t | t in w.turns :: TurnOk(t))
    && (w.holder.Some? ==> JobOk(w.holder.value))
  }

  lemma {:induction false} EncodedAdd(a: seq<RawFrame>, b: seq<RawFrame>)
    ensures Encoded(a + b) == Encoded(a) + Encoded(b)
    decreases |b|
  {
    hide FrameBytes;
    if b == [] {
      assert a + b == a;
    } else {
      var c, f := b[..|b| - 1], b[|b| - 1];
      EncodedAdd(a, c);
      assert (a + b)[..|a + b| - 1] == a + c && (a + b)[|a + b| - 1] == f;
      assert Encoded(a) + (Encoded(c) + FrameBytes(f)) == Encoded(a) + Encoded(c) + FrameBytes(f);
    }
  }

  lemma {:induction false} EncodedOne(f: RawFrame, others: seq<RawFrame>)
    ensures Encoded([f] + others) == Header(f) + f.payload + Encoded(others)
  {
    EncodedAdd([f], others);
    assert [f][..0] == [];
    assert Encoded([f]) == [] + FrameBytes(f) == FrameBytes(f);
  }

  lemma LeftOfJob(j: Job)
    requires !j.headerOut
    ensures Left(j) == Encoded(j.left)
  {
    if j.left != [] {
      EncodedOne(j.left[0], j.left[1..]);
      assert j.left == [j.left[0]] + j.left[1..];
    }
  }

  lemma Written(a: seq<Byte>, b: seq<Byte>, c: seq<Byte>, d: seq<Byte>)
    ensures a + (b + c + d) == a + b + (c + [] + d)
    ensures a + (c + [] + d) == a + c + d
    ensures c == [] ==> c + [] + d == d
  {
  }

  /** The holder after a header, and after a payload unless it is empty. */
  function Wrote(j: Job): Job
    requires j.left != []
  {
    var more := !j.headerOut && j.left[0].payload != [];
    Job(j.frames, if more then j.left else j.left[1..], more, j.bytes + NextWrite(j))
  }

  lemma WriteKeepsJob(j: Job)
    requires JobOk(j) && j.left != []
    ensures JobOk(Wrote(j))
  {
    hide Header;
    hide Encoded;
    if !Wrote(j).headerOut {
      LeftOfJob(Wrote(j));
    }
    Written(j.bytes, Header(j.left[0]), j.left[0].payload, Encoded(j.left[1..]));
  }

  lemma WriteKeepsInv(w: Writers, step: Step)
    requires Inv(w) && Enabled(w, step) && (step == WriteHeader || step == WritePayload)
    ensures Inv(Apply(w, step))
  {
    hide JobOk;
    hide TurnOk;
    hide Bytes;
    hide Header;
    var j := w.holder.value;
    WriteKeepsJob(j);
    Follows(Bytes(w.turns), j.bytes, NextWrite(j));
  }

  lemma EndedTurnOk(j: Job, bytes: seq<Byte>, failed: bool)
    requires JobOk(j) && bytes <= Left(j) && (!failed ==> bytes == Left(j))
    ensures TurnOk(Turn(j.frames, j.bytes + bytes, failed))
  {
    hide Encoded;
    hide Left;
    assert j.bytes + bytes <= j.bytes + Left(j);
  }

  lemma {:induction false} BytesAdd(turns: seq<Turn>, t: Turn)
    ensures Bytes(turns + [t]) == Bytes(turns) + t.bytes
  {
    assert (turns + [t])[..|turns|] == turns;
  }

  lemma EndsKeepInv(w: Writers, bytes: seq<Byte>, failed: bool)
    requires Inv(w) && w.holder.Some?
    requires bytes <= Left(w.holder.value) && (!failed ==> bytes == Left(w.holder.value))
    ensures Inv(Writers(w.wire + bytes, None,
                        w.turns + [Turn(w.holder.value.frames, w.holder.value.bytes + bytes, failed)]))
  {
    hide Bytes;
    hide TurnOk;
    var j := w.holder.value;
    EndedTurnOk(j, bytes, failed);
    hide JobOk;
    hide Left;
    BytesAdd(w.turns, Turn(j.frames, j.bytes + bytes, failed));
    Follows(Bytes(w.turns), j.bytes, bytes);
  }

  lemma Follows(a: seq<Byte>, b: seq<Byte>, c: seq<Byte>)
    ensures a + b + c == a + (b + c) == a + (b + c) + []
  {
  }

  lemma {:induction false} StepKeepsInv(w: Writers, step: Step)
    requires Inv(w) && Enabled(w, step)
    ensures Inv(Apply(w, step))
  {
    match step
    case Lock(frames) =>
      LeftOfJob(Job(frames, frames, false, []));
    case WriteHeader => WriteKeepsInv(w, step);
    case WritePayload => WriteKeepsInv(w, step);
    case Unlock =>
      EndsKeepInv(w, [], false);
      assert w.wire + [] == w.wire && w.holder.value.bytes + [] == w.holder.value.bytes;
    case Fail(bytes) => EndsKeepInv(w, bytes, true);
  }

  const START := Writers([], None, [])

  ghost predicate IsRun(run: seq<Writers>) {
    && run != [] && run[0] == START
    && forall i: nat | i + 1 < |run| :: HasStep(run, i)
  }

  ghost predicate HasStep(run: seq<Writers>, i: nat)
    requires i + 1 < |run|
  {
    exists step :: Enabled(run[i], step) && run[i + 1] == Apply(run[i], step)
  }

  lemma {:induction false} RunKeepsInv(run: seq<Writers>, i: nat)
    requires IsRun(run) && i < |run|
    ensures Inv(run[i])
  {
    if i > 0 {
      RunKeepsInv(run, i - 1);
      assert HasStep(run, i - 1);
      var step :| Enabled(run[i - 1], step) && run[i] == Apply(run[i - 1], step);
      StepKeepsInv(run[i - 1], step);
    }
  }

  /** All turns, with the one that is not over. */
  function AllTurns(w: Writers): seq<Turn> {
    w.turns + if w.holder.Some? then [Turn(w.holder.value.frames, w.holder.value.bytes, true)] else []
  }

  /**
   At every moment of every run the wire is what the lock holders wrote, one after another in lock
   order; each wrote its frames from the first byte on, and all of them unless a write of its own failed
   or it still holds the lock.
   */
  lemma WireIsInLockOrder(run: seq<Writers>, i: nat)
    requires IsRun(run) && i < |run|
    ensures run[i].wire == Bytes(AllTurns(run[i]))
    ensures forall t | t in AllTurns(run[i]) :: TurnOk(t)
  {
    RunKeepsInv(run, i);
    var w := run[i];
    if w.holder.Some? {
      var j := w.holder.value;
      assert AllTurns(w)[..|w.turns|] == w.turns;
      assert j.bytes <= j.bytes + Left(j);
    } else {
      assert AllTurns(w) == w.turns;
    }
  }

  // ------------------------------------------------------------ from one end to the other

  /** All the frames a reader gets out of a byte string. */
  function ReadAll(s: seq<Byte>, max: nat): seq<RawFrame>
    decreases |s|
  {
    var r := Parse(s, max);
    if r.Complete? then
      ParseShrinks(s, max);
      [r.frame] + ReadAll(r.rest, max)
    else []
  }

  lemma ParseShrinks(s: seq<Byte>, max: nat)
    requires Parse(s, max).Complete?
    ensures |Parse(s, max).rest| < |s|
  {
  }

  predicate Admits(frames: seq<RawFrame>, max: nat) {
    forall f | f in frames :: |f.payload| < 0x100_0000 && |f.payload| <= max && f.streamId < 0x8000_0000
  }

  /** The reader gets back the frames written, in lock order. */
  lemma {:induction false} ReadsAllBack(frames: seq<RawFrame>, max: nat)
    requires Admits(frames, max)
    ensures ReadAll(Encoded(frames), max) == frames
  {
    hide Parse;
    if frames == [] {
      EmptyParse(max);
    } else {
      var f, others := frames[0], frames[1..];
      assert frames == [f] + others;
      EncodedOne(f, others);
      FrameRoundTrip(f, Encoded(others), max);
      ReadsAllBack(others, max);
    }
  }

  lemma EmptyParse(max: nat)
    ensures Parse([], max).EndOfStream?
  {
  }

  // ------------------------------------------------------------ after a failed write

  /** What the turns wrote is as long as their frames exactly if all are whole, and else shorter. */
  lemma {:induction false} CutIsShorter(turns: seq<Turn>)
    requires forall t | t in turns :: TurnOk(t)
    ensures |Bytes(turns)| <= |Encoded(FramesOf(turns))|
    ensures |Bytes(turns)| == |Encoded(FramesOf(turns))| ==> forall t | t in turns :: IsWhole(t)
    ensures (forall t | t in turns :: IsWhole(t)) ==> Bytes(turns) == Encoded(FramesOf(turns))
  {
    if turns != [] {
      var others, last := turns[..|turns| - 1], turns[|turns| - 1];
      assert last in turns && forall t | t in others :: t in turns;
      CutIsShorter(others);
      EncodedAdd(FramesOf(others), last.frames);
      assert forall t | t in turns :: t in others || t == last;
      hide Encoded;
    }
  }

  /** Reading makes no bytes up. */
  lemma {:induction false} ReadingIsShorter(s: seq<Byte>, max: nat)
    ensures |Encoded(ReadAll(s, max))| <= |s|
    decreases |s|
  {
    var r := Parse(s, max);
    if r.Complete? {
      ParseShrinks(s, max);
      ReadingIsShorter(r.rest, max);
      EncodedOne(r.frame, ReadAll(r.rest, max));
    }
  }

  /**
   At every moment of every run, what is on the wire is all frames in lock order, and is read back as
   them, if and only if every turn is whole.
   */
  lemma {:induction false} ReadBackExactly(run: seq<Writers>, i: nat, max: nat)
    requires IsRun(run) && i < |run|
    ensures var turns := AllTurns(run[i]);
            run[i].wire == Encoded(FramesOf(turns)) <==> forall t | t in turns :: IsWhole(t)
    ensures var turns := AllTurns(run[i]);
            Admits(FramesOf(turns), max) ==>
              (ReadAll(run[i].wire, max) == FramesOf(turns) <==> forall t | t in turns :: IsWhole(t))
  {
    hide TurnOk;
    hide IsWhole;
    var turns := AllTurns(run[i]);
    WireIsInLockOrder(run, i);
    CutIsShorter(turns);
    ReadingIsShorter(run[i].wire, max);
    if Admits(FramesOf(turns), max) {
      ReadsAllBack(FramesOf(turns), max);
    }
  }

  /** From the beginning of some frames a reader gets the first of them, and nothing else. */
  lemma {:induction false} ReadsFirst(frames: seq<RawFrame>, s: seq<Byte>, max: nat)
    requires Admits(frames, max) && s <= Encoded(frames)
    ensures ReadAll(s, max) <= frames
  {
    hide Parse;
    if frames == [] {
      EmptyParse(max);
    } else {
      var f, others := frames[0], frames[1..];
      assert frames == [f] + others;
      EncodedOne(f, others);
      assert Header(f) + f.payload == FrameBytes(f);
      hide FrameBytes;
      if |s| < |FrameBytes(f)| {
        CutParse(f, s, max);
      } else {
        var rest := s[|FrameBytes(f)|..];
        assert s == FrameBytes(f) + rest;
        FrameRoundTrip(f, rest, max);
        ReadsFirst(others, rest, max);
      }
    }
  }

  lemma CutParse(f: RawFrame, s: seq<Byte>, max: nat)
    requires s < FrameBytes(f) && |f.payload| <= max && |f.payload| < 0x100_0000
    ensures Parse(s, max).EndOfStream?
  {
    hide LengthOf;
    hide IdOf;
    HeaderRead(f, []);
    assert FrameBytes(f) + [] == FrameBytes(f);
  }

  lemma {:induction false} LastIsCut(turns: seq<Turn>)
    requires turns != [] && (forall t | t in turns :: TurnOk(t)) && forall t | t in turns[..|turns| - 1] :: IsWhole(t)
    ensures Bytes(turns) <= Encoded(FramesOf(turns))
  {
    var others, last := turns[..|turns| - 1], turns[|turns| - 1];
    assert last in turns && forall t | t in others :: t in turns;
    CutIsShorter(others);
    EncodedAdd(FramesOf(others), last.frames);
    hide Encoded;
  }

  /** So while only the last turn is cut off, the reader gets the first of the frames sent, in lock order. */
  lemma {:induction false} LastTurnCut(run: seq<Writers>, i: nat, max: nat)
    requires IsRun(run) && i < |run| && Admits(FramesOf(AllTurns(run[i])), max)
    requires var turns := AllTurns(run[i]); turns != [] && forall t | t in turns[..|turns| - 1] :: IsWhole(t)
    ensures ReadAll(run[i].wire, max) <= FramesOf(AllTurns(run[i]))
  {
    hide Admits;
    hide HasStep;
    hide ReadAll;
    hide TurnOk;
    hide IsWhole;
    WireIsInLockOrder(run, i);
    hide AllTurns;
    LastIsCut(AllTurns(run[i]));
    ReadsFirst(FramesOf(AllTurns(run[i])), run[i].wire, max);
  }

  /**
   But a frame that is cut off behind its header is filled up with what the next sender writes: for all
   such frames `f` and all `g` that follow, the reader takes the beginning of `g` for the payload of `f`.
   */
  lemma CutFrameIsFilled(f: RawFrame, g: RawFrame, max: nat) returns (run: seq<Writers>)
    requires f.payload != [] && g.payload != [] && Admits([f], max) && |f.payload| <= |FrameBytes(g)|
    ensures IsRun(run)
    ensures run[|run| - 1] ==
            Writers(Header(f) + FrameBytes(g), None, [Turn([f], Header(f), true), Turn([g], FrameBytes(g), false)])
    ensures var read := ReadAll(run[|run| - 1].wire, max);
            && read != [] && read[0] == f.(payload := FrameBytes(g)[..|f.payload|])
            && (Admits([f, g], max) ==> read != [f, g])
  {
    run := CutRun(f, g);
    CutIsNotReadBack(run, f, g, max);
    var n := |f.payload|;
    var filled := f.(payload := FrameBytes(g)[..n]);
    var rest := FrameBytes(g)[n..];
    assert Header(filled) == Header(f);
    assert Header(f) + FrameBytes(g) == FrameBytes(filled) + rest;
    assert f in [f];
    FrameRoundTrip(filled, rest, max);
  }

  lemma {:induction false} CutIsNotReadBack(run: seq<Writers>, f: RawFrame, g: RawFrame, max: nat)
    requires IsRun(run) && f.payload != [] && run[|run| - 1].holder.None?
    requires run[|run| - 1].turns == [Turn([f], Header(f), true), Turn([g], FrameBytes(g), false)]
    ensures Admits([f, g], max) ==> ReadAll(run[|run| - 1].wire, max) != [f, g]
  {
    hide ReadAll;
    hide Header;
    hide HasStep;
    hide Admits;
    var turns := AllTurns(run[|run| - 1]);
    TwoTurns(turns[0], turns[1]);
    assert turns == [turns[0], turns[1]] && [f] + [g] == [f, g];
    EncodedOne(f, []);
    assert [f] + [] == [f];
    assert turns[0] in turns && !IsWhole(turns[0]);
    ReadBackExactly(run, |run| - 1, max);
  }

  lemma {:induction false} TwoTurns(t: Turn, u: Turn)
    ensures FramesOf([t, u]) == t.frames + u.frames
  {
    assert [t, u][..1] == [t] && [t][..0] == [];
    assert FramesOf([t]) == [] + t.frames == t.frames;
  }

  lemma CutRun(f: RawFrame, g: RawFrame) returns (run: seq<Writers>)
    requires f.payload != [] && g.payload != []
    ensures IsRun(run)
    ensures run[|run| - 1] ==
            Writers(Header(f) + FrameBytes(g), None, [Turn([f], Header(f), true), Turn([g], FrameBytes(g), false)])
  {
    hide Header;
    var first := [Turn([f], Header(f), true)];
    assert [] + Header(f) == Header(f) && [] + Header(g) == Header(g);
    run := [START];
    run := OneStep(run, Lock([f]), Writers([], Some(Job([f], [f], false, [])), []));
    run := OneStep(run, WriteHeader, Writers(Header(f), Some(Job([f], [f], true, Header(f))), []));
    assert Header(f) + [] == Header(f);
    run := OneStep(run, Fail([]), Writers(Header(f), None, first));
    run := OneStep(run, Lock([g]), Writers(Header(f), Some(Job([g], [g], false, [])), first));
    run := OneStep(run, WriteHeader, Writers(Header(f) + Header(g), Some(Job([g], [g], true, Header(g))), first));
    assert Header(f) + Header(g) + g.payload == Header(f) + FrameBytes(g) && [g][1..] == [];
    run := OneStep(run, WritePayload,
        Writers(Header(f) + FrameBytes(g), Some(Job([g], [], false, FrameBytes(g))), first));
    run := OneStep(run, Unlock, Writers(Header(f) + FrameBytes(g), None, first + [Turn([g], FrameBytes(g), false)]));
  }

  lemma OneStep(run: seq<Writers>, step: Step, w: Writers) returns (run': seq<Writers>)
    requires IsRun(run) && Enabled(run[|run| - 1], step) && w == Apply(run[|run| - 1], step)
    ensures IsRun(run') && run'[|run'| - 1] == w
  {
    hide Apply;
    hide Enabled;
    run' := run + [w];
    forall i: nat | i + 1 < |run'|
      ensures HasStep(run', i)
    {
      if i + 1 < |run| {
        assert HasStep(run, i);
        var earlier :| Enabled(run[i], earlier) && run[i + 1] == Apply(run[i], earlier);
        assert Enabled(run'[i], earlier) && run'[i + 1] == Apply(run'[i], earlier);
      } else {
        assert Enabled(run'[i], step) && run'[i + 1] == Apply(run'[i], step);
      }
    }
  }
}
