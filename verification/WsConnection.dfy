/**
 A WebSocket connection: frames are sent whole, messages are put together from frames, and pings are
 answered on the way (sections 5.4 and 5.5 of RFC 6455).
 */
module WsConnection {
  import opened Wrappers
  import opened ByteIO
  import opened Arith
  import opened WsFrame

  // ------------------------------------------------------------ what receiving means

  datatype Outcome =
    | Message(binary: bool, payload: seq<Byte>, rest: seq<Byte>)
    | Closed(rest: seq<Byte>)
    | Violation
    | ConnectionLost

  /** The outcome, and the payloads of the pings answered before it. */
  datatype Received = Received(outcome: Outcome, pongs: seq<seq<Byte>>)

  /** Receiving with `payload` already collected and `opcode` the last one that was not a continuation. */
  function Receiving(server: bool, s: seq<Byte>, payload: seq<Byte>, opcode: nat): Received
    decreases |s|
  {
    var r := ReadFrame(server, s);
    if r.Cut? then Received(ConnectionLost, [])
    else if r.WrongMask? then Received(Violation, [])
    else if r.opcode == PING then
      var later := Receiving(server, r.rest, payload, opcode);
      Received(later.outcome, [r.payload] + later.pongs)
    else if r.opcode == CLOSE then Received(Closed(r.rest), [])
    else
      var opcode' := if r.opcode != CONTINUATION then r.opcode else opcode;
      if r.fin then Received(Message(opcode' == BINARY, payload + r.payload, r.rest), [])
      else Receiving(server, r.rest, payload + r.payload, opcode')
  }

  // ------------------------------------------------------------ well-formed messages

  /** Pings, and final pongs that nobody asked for. */
  predicate IsControl(f: Frame) {
    f.opcode == PING || (f.opcode == PONG && f.fin)
  }

  /**
   The frames of a message, or what is left of them once it has started: a first frame that says text
   or binary, continuations, the last of them all final, and control frames anywhere before that.
   */
  predicate IsPart(frames: seq<Frame>, started: bool) {
    frames != [] && IsFrame(frames[0]) &&
    if IsControl(frames[0]) then IsPart(frames[1..], started)
    else
      && (if started then frames[0].opcode == CONTINUATION else frames[0].opcode == TEXT || frames[0].opcode == BINARY)
      && (frames[0].fin <==> |frames| == 1)
      && (!frames[0].fin ==> IsPart(frames[1..], true))
  }

  predicate IsMessage(frames: seq<Frame>) {
    IsPart(frames, false)
  }

  function Wire(frames: seq<Frame>, rest: seq<Byte>): seq<Byte>
    requires forall f | f in frames :: IsFrame(f)
  {
    if frames == [] then rest else FrameBytes(frames[0]) + Wire(frames[1..], rest)
  }

  function DataOf(frames: seq<Frame>): seq<Byte> {
    if frames == [] then []
    else (if IsControl(frames[0]) then [] else frames[0].payload) + DataOf(frames[1..])
  }

  function PingsOf(frames: seq<Frame>): seq<seq<Byte>> {
    if frames == [] then []
    else (if frames[0].opcode == PING then [frames[0].payload] else []) + PingsOf(frames[1..])
  }

  predicate IsBinary(frames: seq<Frame>) {
    frames != [] && if IsControl(frames[0]) then IsBinary(frames[1..]) else frames[0].opcode == BINARY
  }

  /** The position of the first pong, or the number of frames. */
  function FirstPong(frames: seq<Frame>): (k: nat)
    ensures k <= |frames| && (k < |frames| ==> frames[k].opcode == PONG)
    ensures forall i | 0 <= i < k :: frames[i].opcode != PONG
  {
    if frames == [] || frames[0].opcode == PONG then 0 else 1 + FirstPong(frames[1..])
  }

  predicate AllFrames(frames: seq<Frame>) {
    forall f | f in frames :: IsFrame(f)
  }

  /**
   What the rest of a message is received as: all of it, or what comes before the first pong, with
   the pong's payload.
   */
  function Expected(frames: seq<Frame>, rest: seq<Byte>, payload: seq<Byte>, binary: bool): Received
    requires AllFrames(frames)
  {
    var k := FirstPong(frames);
    if k == |frames| then Received(Message(binary, payload + DataOf(frames), rest), PingsOf(frames))
    else Received(Message(false, payload + DataOf(frames[..k]) + frames[k].payload, Wire(frames[k + 1..], rest)),
                  PingsOf(frames[..k]))
  }

  lemma {:induction false} PartReceived(server: bool, frames: seq<Frame>, started: bool, rest: seq<Byte>,
                                        payload: seq<Byte>, opcode: nat)
    requires AllFrames(frames) && (forall f | f in frames :: f.masked == server) && IsPart(frames, started)
    ensures Receiving(server, Wire(frames, rest), payload, opcode)
            == Expected(frames, rest, payload, if started then opcode == BINARY else IsBinary(frames))
    decreases |frames|
  {
    hide FrameBytes;
    hide ReadFrame;
    hide IsFrame;
    hide Expected;
    var f, others := frames[0], frames[1..];
    FrameRoundTrip(f, server, Wire(others, rest));
    var binary := if started then opcode == BINARY else IsBinary(frames);
    ExpectedStep(frames, rest, payload, binary);
    if f.opcode == PING {
      PartReceived(server, others, started, rest, payload, opcode);
    } else if f.opcode != PONG && !f.fin {
      PartReceived(server, others, true, rest, payload + f.payload, if started then opcode else f.opcode);
    }
  }

  /** Frames with which a message can begin that is not complete yet: pings, and data that is not final. */
  predicate IsBeginning(frames: seq<Frame>, started: bool) {
    frames == [] ||
    if frames[0].opcode == PING then IsBeginning(frames[1..], started)
    else
      && !frames[0].fin && IsBeginning(frames[1..], true)
      && (if started then frames[0].opcode == CONTINUATION else frames[0].opcode == TEXT || frames[0].opcode == BINARY)
  }

  /** What comes after a beginning decides; the pings in it are answered in any case. */
  lemma {:induction false} BeginningReceived(server: bool, frames: seq<Frame>, started: bool, s: seq<Byte>,
                                             payload: seq<Byte>, opcode: nat)
    returns (opcode': nat)
    requires AllFrames(frames) && (forall f | f in frames :: f.masked == server) && IsBeginning(frames, started)
    ensures var later := Receiving(server, s, payload + DataOf(frames), opcode');
            Receiving(server, Wire(frames, s), payload, opcode)
            == Received(later.outcome, PingsOf(frames) + later.pongs)
    decreases |frames|
  {
    hide FrameBytes;
    hide Receiving;
    hide IsFrame;
    hide DataOf;
    hide PingsOf;
    if frames == [] {
      opcode' := opcode;
      NoFrames();
      assert payload + [] == payload;
      var later := Receiving(server, s, payload, opcode);
      assert [] + later.pongs == later.pongs;
    } else {
      var f, others := frames[0], frames[1..];
      assert f in frames && forall g | g in others :: g in frames;
      ReceivingStep(server, f, Wire(others, s), payload, opcode);
      FirstOf(frames);
      if f.opcode == PING {
        opcode' := BeginningReceived(server, others, started, s, payload, opcode);
        var later := Receiving(server, s, payload + DataOf(others), opcode');
        Associates([f.payload], PingsOf(others), later.pongs);
      } else {
        opcode' :=
          BeginningReceived(server, others, true, s, payload + f.payload, if started then opcode else f.opcode);
        Associates(payload, f.payload, DataOf(others));
      }
    }
  }

  lemma NoFrames()
    ensures DataOf([]) == [] && PingsOf([]) == []
  {
  }

  lemma Associates<T>(a: seq<T>, b: seq<T>, c: seq<T>)
    ensures a + b + c == a + (b + c)
  {
  }

  lemma {:induction false} FirstOf(frames: seq<Frame>)
    requires frames != []
    ensures var f, others := frames[0], frames[1..];
            && (f.opcode == PING ==>
                  DataOf(frames) == DataOf(others) && PingsOf(frames) == [f.payload] + PingsOf(others))
            && (f.opcode != PING && f.opcode != PONG ==>
                  DataOf(frames) == f.payload + DataOf(others) && PingsOf(frames) == PingsOf(others))
  {
  }

  /** A frame that does not complete a message. */
  lemma {:induction false} ReceivingStep(server: bool, f: Frame, t: seq<Byte>, payload: seq<Byte>, opcode: nat)
    requires IsFrame(f) && f.masked == server
    ensures f.opcode == PING ==>
              var later := Receiving(server, t, payload, opcode);
              Receiving(server, FrameBytes(f) + t, payload, opcode) ==
              Received(later.outcome, [f.payload] + later.pongs)
    ensures f.opcode != PING && f.opcode != CLOSE && !f.fin ==>
              Receiving(server, FrameBytes(f) + t, payload, opcode) ==
              Receiving(server, t, payload + f.payload, if f.opcode != CONTINUATION then f.opcode else opcode)
  {
    hide FrameBytes;
    hide ReadFrame;
    hide IsFrame;
    FrameRoundTrip(f, server, t);
  }

  /**
   A message that is not completed: a close frame ends it as closed, a frame masked for the other side as
   a violation, the end of the stream within a frame as a lost connection; its data is gone.
   */
  lemma {:induction false} Interrupted(server: bool, frames: seq<Frame>, f: Frame, rest: seq<Byte>, s: seq<Byte>)
    requires AllFrames(frames) && (forall g | g in frames :: g.masked == server) && IsBeginning(frames, false)
    requires IsFrame(f)
    ensures f.masked == server && f.opcode == CLOSE ==>
              Receiving(server, Wire(frames, FrameBytes(f) + rest), [], CONTINUATION)
              == Received(Closed(rest), PingsOf(frames))
    ensures f.masked != server ==>
              Receiving(server, Wire(frames, FrameBytes(f) + rest), [], CONTINUATION)
              == Received(Violation, PingsOf(frames))
    ensures f.masked == server && s < FrameBytes(f) ==>
              Receiving(server, Wire(frames, s), [], CONTINUATION) == Received(ConnectionLost, PingsOf(frames))
  {
    hide FrameBytes;
    hide ReadFrame;
    hide IsFrame;
    FrameRoundTrip(f, server, rest);
    assert PingsOf(frames) + [] == PingsOf(frames);
    var opcode := BeginningReceived(server, frames, false, FrameBytes(f) + rest, [], CONTINUATION);
    if f.masked == server && s < FrameBytes(f) {
      Truncated(f, server, s);
      var opcode' := BeginningReceived(server, frames, false, s, [], CONTINUATION);
    }
  }

  lemma {:induction false} ExpectedStep(frames: seq<Frame>, rest: seq<Byte>, payload: seq<Byte>, binary: bool)
    requires AllFrames(frames) && frames != []
    ensures var f, others := frames[0], frames[1..];
            && (f.opcode == PING ==>
                  var later := Expected(others, rest, payload, binary);
                  Expected(frames, rest, payload, binary) == Received(later.outcome, [f.payload] + later.pongs))
            && (f.opcode == PONG ==>
                  Expected(frames, rest, payload, binary)
                  == Received(Message(false, payload + f.payload, Wire(others, rest)), []))
            && (!IsControl(f) && f.opcode != PONG ==>
                  && Expected(frames, rest, payload, binary) == Expected(others, rest, payload + f.payload, binary)
                  && (others == [] ==>
                        Expected(frames, rest, payload, binary)
                        == Received(Message(binary, payload + f.payload, rest), [])))
  {
    hide FrameBytes;
    hide IsFrame;
    var f, others := frames[0], frames[1..];
    var k := FirstPong(frames);
    if f.opcode != PONG {
      assert frames[..k] == [f] + others[..k - 1] && (k < |frames| ==> frames[k + 1..] == others[k..]);
      var data := DataOf(others[..k - 1]);
      assert others[..|others|] == others;
      assert payload + ([] + data) == payload + data && payload + (f.payload + data) == payload + f.payload + data;
      assert payload + f.payload + [] == payload + f.payload;
    } else {
      assert frames[..0] == [] && payload + [] + f.payload == payload + f.payload;
    }
  }

  /** Bytes remain of a message after any pong in it. */
  lemma {:induction false} NotLast(frames: seq<Frame>, started: bool, k: nat, rest: seq<Byte>)
    requires AllFrames(frames) && IsPart(frames, started) && k < |frames| && frames[k].opcode == PONG
    ensures |Wire(frames[k + 1..], rest)| > |rest|
    decreases |frames|
  {
    hide IsFrame;
    if k == 0 {
      WireIsLonger(frames[1..], rest);
    } else {
      NotLast(frames[1..], started || !IsControl(frames[0]), k - 1, rest);
      assert frames[1..][k..] == frames[k + 1..];
    }
  }

  lemma {:induction false} WireIsLonger(frames: seq<Frame>, rest: seq<Byte>)
    requires AllFrames(frames)
    ensures |Wire(frames, rest)| >= |rest| && (frames != [] ==> |Wire(frames, rest)| > |rest|)
  {
    if frames != [] { WireIsLonger(frames[1..], rest); }
  }

  /**
   A well-formed message, in any number of fragments and with any control frames among them, is received
   as the concatenation of its fragments with the type of the first, and each ping answered in order, if
   and only if there is no pong among them.
   */
  lemma {:induction false} MessageReceived(server: bool, frames: seq<Frame>, rest: seq<Byte>)
    requires AllFrames(frames) && (forall f | f in frames :: f.masked == server) && IsMessage(frames)
    ensures Receiving(server, Wire(frames, rest), [], CONTINUATION) ==
            Received(Message(IsBinary(frames), DataOf(frames), rest), PingsOf(frames))
            <==> forall f | f in frames :: f.opcode != PONG
  {
    hide FrameBytes;
    hide IsFrame;
    hide Receiving;
    PartReceived(server, frames, false, rest, [], CONTINUATION);
    var k := FirstPong(frames);
    if k < |frames| {
      NotLast(frames, false, k, rest);
      assert frames[k] in frames;
    } else {
      assert [] + DataOf(frames) == DataOf(frames);
    }
  }

  /** And otherwise as text: what comes before the first pong, and its payload; the frames after it stay on the wire. */
  lemma {:induction false} PongEndsMessage(server: bool, frames: seq<Frame>, rest: seq<Byte>)
    requires AllFrames(frames) && (forall f | f in frames :: f.masked == server) && IsMessage(frames)
    requires exists f :: f in frames && f.opcode == PONG
    ensures var k := FirstPong(frames);
            && k < |frames|
            && Receiving(server, Wire(frames, rest), [], CONTINUATION)
               == Received(Message(false, DataOf(frames[..k]) + frames[k].payload, Wire(frames[k + 1..], rest)),
                           PingsOf(frames[..k]))
  {
    hide FrameBytes;
    hide IsFrame;
    hide Receiving;
    PartReceived(server, frames, false, rest, [], CONTINUATION);
    var k := FirstPong(frames);
    assert [] + DataOf(frames[..k]) == DataOf(frames[..k]);
  }

  // ------------------------------------------------------------ the connection

  /** What a call returns: a message, nothing after a close, or an error. */
  datatype Return = Got(binary: bool, payload: seq<Byte>) | Nothing | Error

  predicate Fits(r: Return, o: Outcome, pending: seq<Byte>) {
    match o
    case Message(binary, payload, rest) => r == Got(binary, payload) && pending == rest
    case Closed(rest) => r == Nothing && pending == rest
    case Violation => r == Error
    case ConnectionLost => r == Error
  }

  /** Pongs with these payloads, masked or not. */
  predicate ArePongs(frames: seq<Frame>, payloads: seq<seq<Byte>>, masked: bool) {
    && |frames| == |payloads|
    && forall i | 0 <= i < |frames| ::
         frames[i].fin && frames[i].opcode == PONG && frames[i].masked == masked && frames[i].payload == payloads[i]
  }

  lemma {:induction false} WireAdd(frames: seq<Frame>, f: Frame)
    requires AllFrames(frames) && IsFrame(f)
    ensures Wire(frames + [f], []) == Wire(frames, []) + FrameBytes(f)
  {
    hide FrameBytes;
    if frames == [] {
      assert [] + [f] == [f] && [f][1..] == [];
    } else {
      WireAdd(frames[1..], f);
      assert (frames + [f])[1..] == frames[1..] + [f];
    }
  }

  class Connection {
    const server: bool
    const stream: ByteStream
    var out: seq<Byte>
    ghost var sent: seq<Frame>

    ghost predicate Valid()
      reads this
    {
      AllFrames(sent) && out == Wire(sent, [])
    }

    constructor (server: bool, stream: ByteStream)
      ensures Valid() && this.server == server && this.stream == stream && sent == []
    {
      this.server, this.stream, out, sent := server, stream, [], [];
    }

    /** A frame goes out whole; a client masks it with a key of its choice. */
    method SendFrame(opcode: nat, data: seq<Byte>)
      requires Valid() && opcode < 16 && |data| < TWO_64
      modifies this
      ensures Valid() && |sent| == |old(sent)| + 1 && sent[..|old(sent)|] == old(sent)
      ensures var f := sent[|old(sent)|]; f.fin && f.opcode == opcode && f.masked == !server && f.payload == data
    {
      var r: int := *;
      var key := [r % 0x100, r / 0x100 % 0x100, r / 0x1_0000 % 0x100, r / 0x100_0000 % 0x100];
      var frame := BuildFrame(opcode, !server, key, data);
      var f := Frame(true, opcode, !server, key, data);
      WireAdd(sent, f);
      out := out + frame;
      sent := sent + [f];
    }

    /** The extended length, if the second byte announces one. */
    method NextLength(low: nat) returns (n: Option<nat>)
      modifies stream
      ensures n.None? <==> ReadLength(low, old(stream.pending)).None?
      ensures n.Some? ==> ReadLength(low, old(stream.pending)) == Some((n.value, stream.pending))
    {
      var k := if low == 126 then 2 else if low == 127 then 8 else 0;
      if k == 0 {
        return Some(low);
      }
      ghost var s := stream.pending;
      var ext := stream.ReadExact(k);
      if ext.None? {
        return None;
      }
      assert s[..k] == ext.value && s[k..] == stream.pending;
      var length := GetBigEndian(ext.value);
      return Some(length);
    }

    /** One frame off the stream, unmasked, as the reader of whole byte strings has it. */
    method NextFrame() returns (r: Reading)
      modifies stream
      ensures r == ReadFrame(server, old(stream.pending))
      ensures !r.Cut? ==> r.rest == stream.pending
    {
      hide ReadLength;
      ghost var s := stream.pending;
      var header := stream.ReadExact(2);
      if header.None? {
        return Cut;
      }
      var h0, h1 := header.value[0], header.value[1];
      assert s[0] == h0 && s[1] == h1 && s[2..] == stream.pending;
      var masked := h1 >= 0x80;
      var n := NextLength(h1 % 0x80);
      if n.None? {
        return Cut;
      }
      if masked != server {
        return WrongMask(stream.pending);
      }
      r := NextPayload(masked, n.value, h0 >= 0x80, h0 % 16);
    }

    method NextPayload(masked: bool, n: nat, fin: bool, opcode: nat) returns (r: Reading)
      modifies stream
      ensures var k := if masked then 4 else 0;
              var after := old(stream.pending);
              if |after| < k + n then r == Cut
              else
                var payload := if masked then Masked(after[4..4 + n], after[..4]) else after[..n];
                r == Read(fin, opcode, payload, stream.pending) && stream.pending == after[k + n..]
    {
      hide Masked;
      ghost var after := stream.pending;
      var key: seq<Byte> := [0, 0, 0, 0];
      if masked {
        var k := stream.ReadExact(4);
        if k.None? {
          return Cut;
        }
        key := k.value;
        assert after[..4] == key && after[4..] == stream.pending;
      }
      var data := stream.ReadExact(n);
      if data.None? {
        return Cut;
      }
      var payload := data.value;
      if masked {
        assert after[4..][..n] == data.value && after[4..][n..] == stream.pending;
        payload := ApplyMask(payload, key);
      }
      r := Read(fin, opcode, payload, stream.pending);
    }

    /**
     Frames are read until a message is complete. The result is the one that receiving means for the
     bytes of the stream, and the frames sent are the pongs, in order, and a close if masking was wrong.
     */
    method Receive() returns (r: Return)
      requires Valid()
      modifies this, stream
      ensures Valid()
      ensures var meaning := Receiving(server, old(stream.pending), [], CONTINUATION);
              && Fits(r, meaning.outcome, stream.pending)
              && (meaning.outcome != Violation ==> Answered(old(sent), sent, meaning.pongs, !server))
              && (meaning.outcome == Violation ==>
                    sent != [] && Answered(old(sent), sent[..|sent| - 1], meaning.pongs, !server)
                        && sent[|sent| - 1].opcode == CLOSE)
    {
      hide ReadFrame;
      hide Receiving;
      hide Continues;
      hide Answered;
      hide AllFrames;
      ghost var meaning := Receiving(server, stream.pending, [], CONTINUATION);
      var payload: seq<Byte> := [];
      var opcode: nat := CONTINUATION;
      ghost var pongs: seq<seq<Byte>> := [];
      NothingAnswered(sent, !server);
      AllToCome(meaning);
      while true
        invariant Valid() && Answered(old(sent), sent, pongs, !server)
        invariant Continues(meaning, pongs, Receiving(server, stream.pending, payload, opcode))
        decreases |stream.pending|
      {
        ReadBounds(server, stream.pending);
        FrameTaken(server, stream.pending, payload, opcode, meaning, pongs);
        var f := NextFrame();
        if f.Cut? {
          return Error;
        }
        if f.WrongMask? {
          SendFrame(CLOSE, [0x03, 0xEA]);
          return Error;
        }
        if f.opcode == PING {
          ghost var was := sent;
          SendFrame(PONG, f.payload);
          AddPong(old(sent), was, pongs, !server, sent, f.payload);
          pongs := pongs + [f.payload];
          continue;
        }
        if f.opcode == CLOSE {
          return Nothing;
        }
        payload := payload + f.payload;
        if f.opcode != CONTINUATION {
          opcode := f.opcode;
        }
        if f.fin {
          return Got(opcode == BINARY, payload);
        }
      }
    }
  }

  /** The whole is what was answered so far and what is still to come. */
  predicate Continues(whole: Received, pongs: seq<seq<Byte>>, later: Received) {
    whole.outcome == later.outcome && whole.pongs == pongs + later.pongs
  }

  lemma AllToCome(whole: Received)
    ensures Continues(whole, [], whole)
  {
  }

  /** What one frame makes of what is to come: the outcome, or less of it. */
  lemma FrameTaken(server: bool, s: seq<Byte>, payload: seq<Byte>, opcode: nat, whole: Received, pongs: seq<seq<Byte>>)
    requires Continues(whole, pongs, Receiving(server, s, payload, opcode))
    ensures var f := ReadFrame(server, s);
            && (f.Cut? ==> whole == Received(ConnectionLost, pongs))
            && (f.WrongMask? ==> whole == Received(Violation, pongs))
            && (f.Read? ==>
                  var opcode' := if f.opcode != CONTINUATION then f.opcode else opcode;
                  if f.opcode == PING then
                    Continues(whole, pongs + [f.payload], Receiving(server, f.rest, payload, opcode))
                  else if f.opcode == CLOSE then whole == Received(Closed(f.rest), pongs)
                  else if f.fin then whole == Received(Message(opcode' == BINARY, payload + f.payload, f.rest), pongs)
                  else Continues(whole, pongs, Receiving(server, f.rest, payload + f.payload, opcode')))
  {
    hide ReadFrame;
    var f := ReadFrame(server, s);
    assert pongs + [] == pongs;
    if f.Read? && f.opcode == PING {
      var later := Receiving(server, f.rest, payload, opcode);
      assert pongs + ([f.payload] + later.pongs) == pongs + [f.payload] + later.pongs;
    }
  }

  /** What was sent beyond `before` is pongs with these payloads, in order. */
  predicate Answered(before: seq<Frame>, after: seq<Frame>, payloads: seq<seq<Byte>>, masked: bool) {
    before <= after && ArePongs(after[|before|..], payloads, masked)
  }

  lemma NothingAnswered(sent: seq<Frame>, masked: bool)
    ensures Answered(sent, sent, [], masked)
  {
  }

  /** What is read of a frame is shorter than 2^64 bytes, and something is left of the stream only behind it. */
  lemma ReadBounds(server: bool, s: seq<Byte>)
    ensures ReadFrame(server, s).Read? ==> |ReadFrame(server, s).payload| < TWO_64 && |ReadFrame(server, s).rest| < |s|
  {
    if ReadFrame(server, s).Read? {
      LengthBound(s[1] % 0x80, s[2..]);
    }
  }

  lemma LengthBound(low: nat, s: seq<Byte>)
    requires low < 0x80
    ensures ReadLength(low, s).Some? ==> ReadLength(low, s).value.0 < TWO_64
  {
    Pow256Values();
    var k := if low == 126 then 2 else if low == 127 then 8 else 0;
    if |s| >= k {
      BigEndianBound(s[..k]);
    }
  }

  lemma AddPong(before: seq<Frame>, sent: seq<Frame>, payloads: seq<seq<Byte>>, masked: bool, sent': seq<Frame>,
                payload: seq<Byte>)
    requires Answered(before, sent, payloads, masked) && |sent'| == |sent| + 1 && sent'[..|sent|] == sent
    requires var f := sent'[|sent|]; f.fin && f.opcode == PONG && f.masked == masked && f.payload == payload
    ensures Answered(before, sent', payloads + [payload], masked)
  {
  }
}
