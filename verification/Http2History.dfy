/**
 What is said of a run of an HTTP/2 server session (RFC 7540): frames and what they carry, header
 blocks, bodies, GOAWAYs and window updates, and the invariants over them.
 */
module Http2History {
  import opened Wrappers
  import opened ByteIO
  import opened Http2Body

  datatype Kind =
    | Data | Headers | Priority | RstStream | Settings | PushPromise | Ping | GoAway | WindowUpdate | Continuation
    | Unknown

  datatype Frame = Frame(length: nat, kind: Kind, flags: Byte, streamId: nat, payload: seq<Byte>)

  datatype Sent =
    | SentGoAway(last: nat, code: nat)
    | SentRst(sid: nat, code: nat)
    | SentWindow(sid: nat, inc: nat)
    | SentAck
    | SentPong(payload: seq<Byte>)
    | SentResponse(sid: nat)

  const PROTOCOL_ERROR := 0x1
  const INTERNAL_ERROR := 0x2
  const FLOW_CONTROL_ERROR := 0x3
  const STREAM_CLOSED := 0x5
  const FRAME_SIZE_ERROR := 0x6
  const COMPRESSION_ERROR := 0x9
  const MAX_FRAME_SIZE := 16384

  predicate HasFlag(f: Frame, bit: nat)
    requires bit > 0
  {
    f.flags / bit % 2 == 1
  }

  predicate EndStream(f: Frame) { HasFlag(f, 0x1) }

  predicate Ack(f: Frame) { HasFlag(f, 0x1) }

  predicate EndHeaders(f: Frame) { HasFlag(f, 0x4) }

  predicate Padded(f: Frame) { HasFlag(f, 0x8) }

  predicate Prioritised(f: Frame) { HasFlag(f, 0x20) }

  // ------------------------------------------------------------ what is inside a frame

  /** A frame's content between its leading fields and its padding, if both fit. */
  function Content(f: Frame, fields: nat): Option<seq<Byte>> {
    var offset := fields + if Padded(f) then 1 else 0;
    if offset > |f.payload| then None
    else
      var pad := if Padded(f) then f.payload[0] else 0;
      if offset + pad > |f.payload| then None else Some(f.payload[offset..|f.payload| - pad])
  }

  function DataOf(f: Frame): Option<seq<Byte>> {
    Content(f, 0)
  }

  function FragmentOf(f: Frame): Option<seq<Byte>> {
    Content(f, if Prioritised(f) then 5 else 0)
  }

  function Uint32(a: int, b: int, c: int, d: int): int {
    a * 0x100_0000 + b * 0x1_0000 + c * 0x100 + d
  }

  function Uint31(s: seq<Byte>): int
    requires |s| >= 4
  {
    Uint32(s[0] % 128, s[1], s[2], s[3])
  }

  function SettingFault(id: nat, value: nat): Option<nat> {
    if id == 0x2 && value > 1 then Some(PROTOCOL_ERROR)
    else if id == 0x4 && value > 0x7fff_ffff then Some(FLOW_CONTROL_ERROR)
    else if id == 0x5 && (value < 16384 || value > 16777215) then Some(PROTOCOL_ERROR)
    else None
  }

  /** The name, two bytes, and the value, four bytes, of the setting at a position. */
  function SettingAt(s: seq<Byte>, i: nat): (nat, nat)
    requires i + 6 <= |s|
  {
    (Uint32(0, 0, s[i], s[i + 1]), Uint32(s[i + 2], s[i + 3], s[i + 4], s[i + 5]))
  }

  /** The first fault in a list of settings. */
  function SettingsFault(s: seq<Byte>): Option<nat> {
    if |s| < 6 then None
    else
      var (id, value) := SettingAt(s, 0);
      if SettingFault(id, value).Some? then SettingFault(id, value) else SettingsFault(s[6..])
  }

  /** The peer's frame size after such a list: the last one named before the first fault. */
  function PeerFrameSize(s: seq<Byte>, size: nat): nat {
    if |s| < 6 then size
    else
      var (id, value) := SettingAt(s, 0);
      if SettingFault(id, value).Some? then size else PeerFrameSize(s[6..], if id == 0x5 then value else size)
  }

  lemma {:induction false} NoSettings(s: seq<Byte>, size: nat)
    requires |s| < 6
    ensures SettingsFault(s) == None && PeerFrameSize(s, size) == size
  {
  }

  lemma {:induction false} SettingTaken(s: seq<Byte>, i: nat, size: nat)
    requires i + 6 <= |s|
    ensures var (id, value) := SettingAt(s, i);
            && SettingsFault(s[i..]) ==
               (if SettingFault(id, value).Some? then SettingFault(id, value) else SettingsFault(s[i + 6..]))
            && PeerFrameSize(s[i..], size) ==
               if SettingFault(id, value).Some? then size
               else PeerFrameSize(s[i + 6..], if id == 0x5 then value else size)
  {
    assert SettingAt(s[i..], 0) == SettingAt(s, i) && s[i..][6..] == s[i + 6..];
  }

  // ------------------------------------------------------------ the same from the writer's side

  /** Padding in front and behind, and leading fields, are not part of the content; and that is all that is not. */
  lemma ContentIs(f: Frame, fields: nat, data: seq<Byte>)
    ensures Content(f, fields) == Some(data) <==>
            exists head, pad :: |head| == fields && IsLaidOut(f, head, data, pad)
  {
    hide Content;
    hide IsLaidOut;
    if Content(f, fields) == Some(data) {
      var head, pad := PartsOf(f, fields, data);
    }
    forall head, pad | |head| == fields && IsLaidOut(f, head, data, pad)
      ensures Content(f, fields) == Some(data)
    {
      LaidOut(f, head, data, pad);
    }
  }

  lemma PartsOf(f: Frame, fields: nat, data: seq<Byte>) returns (head: seq<Byte>, pad: seq<Byte>)
    requires Content(f, fields) == Some(data)
    ensures |head| == fields && IsLaidOut(f, head, data, pad)
  {
    var k := if Padded(f) then 1 else 0;
    head, pad := f.payload[k..k + fields], f.payload[k + fields + |data|..];
    assert f.payload == f.payload[..k] + head + data + pad;
  }

  lemma LaidOut(f: Frame, head: seq<Byte>, data: seq<Byte>, pad: seq<Byte>)
    requires IsLaidOut(f, head, data, pad)
    ensures Content(f, |head|) == Some(data)
  {
    var k := if Padded(f) then 1 else 0;
    assert f.payload[k + |head|..|f.payload| - |pad|] == data;
  }

  predicate IsLaidOut(f: Frame, head: seq<Byte>, data: seq<Byte>, pad: seq<Byte>) {
    if Padded(f) then |pad| < 256 && f.payload == [|pad|] + head + data + pad
    else pad == [] && f.payload == head + data
  }

  datatype Setting = Setting(id: nat, value: nat)

  predicate IsSetting(s: Setting) {
    s.id < 0x1_0000 && s.value < 0x1_0000_0000
  }

  /** ENABLE_PUSH, INITIAL_WINDOW_SIZE and MAX_FRAME_SIZE have limits (section 6.5.2 of RFC 7540). */
  predicate IsFaulty(s: Setting) {
    || (s.id == 2 && s.value != 0 && s.value != 1)
    || (s.id == 4 && s.value >= 0x8000_0000)
    || (s.id == 5 && !(0x4000 <= s.value < 0x100_0000))
  }

  function SettingBytes(s: Setting): (b: seq<Byte>)
    requires IsSetting(s)
    ensures |b| == 6
  {
    var v := s.value;
    [s.id / 256, s.id % 256, v / 256 / 256 / 256, v / 256 / 256 % 256, v / 256 % 256, v % 256]
  }

  function SettingsBytes(list: seq<Setting>): seq<Byte>
    requires forall s | s in list :: IsSetting(s)
  {
    if list == [] then [] else SettingBytes(list[0]) + SettingsBytes(list[1..])
  }

  /** The last frame size in a list, or the one before. */
  function LastFrameSize(list: seq<Setting>, size: nat): nat {
    if list == [] then size
    else LastFrameSize(list[1..], if list[0].id == 5 then list[0].value else size)
  }

  lemma SettingRead(s: Setting, rest: seq<Byte>)
    requires IsSetting(s)
    ensures SettingAt(SettingBytes(s) + rest, 0) == (s.id, s.value) && (SettingBytes(s) + rest)[6..] == rest
    ensures SettingFault(s.id, s.value) ==
            if !IsFaulty(s) then None else if s.id == 4 then Some(FLOW_CONTROL_ERROR) else Some(PROTOCOL_ERROR)
  {
  }

  /** Settings are taken in order up to the first that is faulty, which decides the error. */
  lemma {:induction false} SettingsRead(list: seq<Setting>, rest: seq<Byte>, size: nat)
    requires forall s | s in list :: IsSetting(s) && !IsFaulty(s)
    ensures SettingsFault(SettingsBytes(list) + rest) == SettingsFault(rest)
    ensures PeerFrameSize(SettingsBytes(list) + rest, size) == PeerFrameSize(rest, LastFrameSize(list, size))
    decreases |list|
  {
    hide SettingFault;
    hide SettingAt;
    hide IsFaulty;
    hide SettingBytes;
    if list == [] {
      assert SettingsBytes(list) + rest == rest;
    } else {
      var s, others := list[0], list[1..];
      assert s in list && forall t | t in others :: t in list;
      var later := SettingsBytes(others) + rest;
      assert SettingsBytes(list) + rest == SettingBytes(s) + later;
      SettingRead(s, later);
      SettingsRead(others, rest, if s.id == 5 then s.value else size);
    }
  }

  lemma {:induction false} FaultySetting(list: seq<Setting>, s: Setting, rest: seq<Byte>, size: nat)
    requires IsSetting(s) && IsFaulty(s) && forall t | t in list :: IsSetting(t) && !IsFaulty(t)
    ensures var bytes := SettingsBytes(list) + (SettingBytes(s) + rest);
            && SettingsFault(bytes) == Some(if s.id == 4 then FLOW_CONTROL_ERROR else PROTOCOL_ERROR)
            && PeerFrameSize(bytes, size) == LastFrameSize(list, size)
  {
    hide SettingFault;
    hide SettingAt;
    hide IsFaulty;
    hide SettingBytes;
    SettingsRead(list, SettingBytes(s) + rest, size);
    SettingRead(s, rest);
  }

  // ------------------------------------------------------------ what is said of a run

  /** HEADERS on a stream and then its CONTINUATIONs, of which the last and no other ends the headers. */
  predicate IsHeaderRun(sid: nat, frames: seq<Frame>, done: bool) {
    && frames != []
    && frames[0].kind == Headers && FragmentOf(frames[0]).Some?
    && (forall i | 0 <= i < |frames| :: frames[i].streamId == sid && (i > 0 ==> frames[i].kind == Continuation))
    && (forall i | 0 <= i < |frames| :: EndHeaders(frames[i]) <==> done && i == |frames| - 1)
  }

  /** The header block that such frames carry. */
  function RunBytes(frames: seq<Frame>): seq<Byte>
    requires frames != [] && FragmentOf(frames[0]).Some?
  {
    if |frames| == 1 then FragmentOf(frames[0]).value
    else RunBytes(frames[..|frames| - 1]) + frames[|frames| - 1].payload
  }

  datatype Verdict = Undecodable | Unacceptable | Acceptable

  /**
   A block given to HPACK, what came of it, and the frames it came from: the last ones of the first
   `at` processed.
   */
  datatype Given = Given(sid: nat, bytes: seq<Byte>, frames: seq<Frame>, at: nat, verdict: Verdict)

  /** The streams that acceptable blocks open. */
  function Opened(blocks: seq<Given>): seq<nat> {
    if blocks == [] then []
    else
      var g := blocks[|blocks| - 1];
      Opened(blocks[..|blocks| - 1]) + if g.verdict == Acceptable then [g.sid] else []
  }

  predicate IsLastOf(frames: seq<Frame>, processed: seq<Frame>, at: nat) {
    |frames| <= at <= |processed| && processed[at - |frames|..at] == frames
  }

  predicate GivenOk(g: Given, processed: seq<Frame>) {
    && IsLastOf(g.frames, processed, g.at)
    && (g.sid != 0 ==> IsHeaderRun(g.sid, g.frames, true) && g.bytes == RunBytes(g.frames))
    && (g.sid == 0 ==> |g.frames| == 1 && IsStray(g.frames[0], 0))
  }

  /** The stream that prioritised HEADERS depend on. */
  function Dependency(f: Frame): int
    requires |f.payload| >= (if Padded(f) then 1 else 0) + 4
  {
    Uint31(f.payload[if Padded(f) then 1 else 0..])
  }

  predicate DependsOnItself(f: Frame) {
    Prioritised(f) && |f.payload| >= (if Padded(f) then 1 else 0) + 4 && Dependency(f) == f.streamId
  }

  /** HEADERS on an id that a client may not use, or that is over. */
  predicate Refuses(sid: nat, streams: set<nat>, last: nat) {
    sid % 2 == 0 || (sid <= last && sid !in streams)
  }

  /** A CONTINUATION on stream zero that ends a block while none has begun. */
  predicate IsStray(f: Frame, collecting: nat) {
    collecting == 0 && f.kind == Continuation && f.streamId == 0 && EndHeaders(f)
  }

  /** At most one block more, and one of stream zero exactly if the frame was stray. */
  predicate Gives(before: seq<Given>, after: seq<Given>, stray: bool) {
    || (after == before && !stray)
    || (|after| == |before| + 1 && after[..|before|] == before && (after[|before|].sid == 0 <==> stray))
  }

  /** Exactly the blocks of nonzero streams are one HEADERS and its CONTINUATIONs. */
  lemma RunsAreNonzero(blocks: seq<Given>, processed: seq<Frame>, g: Given, sid: nat)
    requires BlocksOk(blocks, processed) && g in blocks
    ensures IsHeaderRun(sid, g.frames, true) <==> sid == g.sid && g.sid != 0
  {
    assert GivenOk(g, processed);
    assert g.frames[0].kind == Continuation || g.frames[0].streamId == g.sid;
  }

  function GoAways(sent: seq<Sent>): seq<Sent> {
    if sent == [] then []
    else
      var others := GoAways(sent[..|sent| - 1]);
      if sent[|sent| - 1].SentGoAway? then others + [sent[|sent| - 1]] else others
  }

  /** What the window updates written for a stream, or for the connection, add up to. */
  function Windows(sent: seq<Sent>, sid: nat): nat {
    if sent == [] then 0
    else
      var last := sent[|sent| - 1];
      Windows(sent[..|sent| - 1], sid) + if last.SentWindow? && last.sid == sid then last.inc else 0
  }

  /** The body that DATA frames carry on a stream: their contents up to the end of the stream. */
  function BodyOf(frames: seq<Frame>, sid: nat): seq<Byte> {
    if frames == [] then []
    else
      var before, f := frames[..|frames| - 1], frames[|frames| - 1];
      if f.kind == Data && f.streamId == sid && !Ended(before, sid) && DataOf(f).Some?
      then BodyOf(before, sid) + DataOf(f).value
      else BodyOf(before, sid)
  }

  predicate Ended(frames: seq<Frame>, sid: nat) {
    exists f :: f in frames && f.kind == Data && f.streamId == sid && EndStream(f)
  }

  // ------------------------------------------------------------ the invariants

  /** Opened ids: the nonzero ones are odd and only grow. */
  predicate Increasing(ids: seq<nat>) {
    && (forall i | 0 <= i < |ids| && ids[i] != 0 :: ids[i] % 2 == 1)
    && (forall i, j | 0 <= i < j < |ids| && ids[i] != 0 && ids[j] != 0 :: ids[i] < ids[j])
  }

  predicate IdsOk(openedIds: seq<nat>, streams: set<nat>, collecting: nat, last: nat) {
    && Increasing(openedIds)
    && (forall id | id in openedIds :: id <= last)
    && (forall id | id in streams :: id in openedIds)
    && (collecting != 0 ==> collecting == last && collecting % 2 == 1 && forall id | id in openedIds :: id < last)
  }

  predicate CollectOk(collecting: nat, collected: seq<Frame>, block: seq<Byte>, processed: seq<Frame>) {
    collecting != 0 ==>
      && IsHeaderRun(collecting, collected, false)
      && IsLastOf(collected, processed, |processed|)
      && block == RunBytes(collected)
  }

  predicate BlocksOk(blocks: seq<Given>, processed: seq<Frame>) {
    forall g | g in blocks :: GivenOk(g, processed)
  }

  /** At most two GOAWAYs, none before the flag is set, all with the last stream id. */
  predicate ClosingOk(goAwaySent: bool, sent: seq<Sent>, last: nat) {
    && |GoAways(sent)| <= 2
    && (!goAwaySent ==> GoAways(sent) == [])
    && (forall g | g in GoAways(sent) :: g.SentGoAway? && g.last == last)
  }

  /** A stream's body: its reader, and the number of the first frame that can carry some of it. */
  datatype Body = Body(at: nat, headersOnly: bool, reader: Reader)

  /** What has arrived of a body. */
  function Arrived(b: Body, sid: nat, processed: seq<Frame>): seq<Byte>
    requires b.at <= |processed|
  {
    if b.headersOnly then [] else BodyOf(processed[b.at..], sid)
  }

  predicate IsOver(b: Body, sid: nat, processed: seq<Frame>)
    requires b.at <= |processed|
  {
    b.headersOnly || Ended(processed[b.at..], sid)
  }

  /** A reader is pushed what DATA frames carry, and closed only at the end and with nothing missing. */
  predicate BodyOk(b: Body, sid: nat, processed: seq<Frame>) {
    && b.at <= |processed| && IsReader(b.reader)
    && b.reader.pushed <= Arrived(b, sid, processed)
    && (b.reader.closed ==> IsOver(b, sid, processed) && b.reader.pushed == Arrived(b, sid, processed))
  }

  /** While a stream is there nothing is missing, and its reader is open until the end. */
  predicate IsCurrent(b: Body, open: bool, sid: nat, processed: seq<Frame>)
    requires b.at <= |processed|
  {
    && b.reader.pushed == Arrived(b, sid, processed)
    && (open <==> !IsOver(b, sid, processed))
    && (open <==> !b.reader.closed)
  }

  predicate BodiesOk(bodies: map<nat, Body>, openedIds: seq<nat>, processed: seq<Frame>) {
    && (forall sid | sid in bodies :: sid != 0 && sid in openedIds && BodyOk(bodies[sid], sid, processed))
    && (forall sid | sid in openedIds && sid != 0 :: sid in bodies)
  }

  predicate StreamsOk(streams: map<nat, bool>, bodies: map<nat, Body>, processed: seq<Frame>)
    requires forall sid | sid in bodies :: bodies[sid].at <= |processed|
  {
    forall sid | sid in streams && sid in bodies :: IsCurrent(bodies[sid], streams[sid], sid, processed)
  }

  function Size(bodies: map<nat, Body>, sid: nat): nat {
    if sid in bodies then |bodies[sid].reader.pushed| else 0
  }

  /** The bytes pushed on all streams. */
  ghost function Total(bodies: map<nat, Body>): nat {
    if bodies == map[] then 0
    else
      var sid :| sid in bodies;
      Size(bodies, sid) + Total(bodies - {sid})
  }

  /** Window updates: per stream the bytes accepted on it, for the connection those accepted on all. */
  ghost predicate FlowOk(sent: seq<Sent>, bodies: map<nat, Body>) {
    && (forall sid | sid != 0 :: Windows(sent, sid) == Size(bodies, sid))
    && Windows(sent, 0) == Total(bodies)
  }

  // ------------------------------------------------------------ what the invariants say

  lemma {:induction false} GoAwayIsCounted(sent: seq<Sent>, i: nat)
    requires i < |sent| && sent[i].SentGoAway?
    ensures sent[i] in GoAways(sent) && |GoAways(sent[..i])| < |GoAways(sent)|
  {
    var before := sent[..|sent| - 1];
    if i < |before| {
      GoAwayIsCounted(before, i);
      assert before[..i] == sent[..i];
    }
  }

  /** Of all that was ever written no three are GOAWAYs, and every GOAWAY names the last stream. */
  lemma AtMostTwoGoAways(goAwaySent: bool, sent: seq<Sent>, last: nat, i: nat, j: nat, k: nat)
    requires ClosingOk(goAwaySent, sent, last) && i < j < k < |sent|
    ensures !(sent[i].SentGoAway? && sent[j].SentGoAway? && sent[k].SentGoAway?)
    ensures sent[i].SentGoAway? ==> sent[i].last == last
  {
    if sent[i].SentGoAway? {
      GoAwayIsCounted(sent, i);
      GoAwayIsCounted(sent[..j], i);
      assert sent[..j][..i] == sent[..i];
      if sent[j].SentGoAway? {
        GoAwayIsCounted(sent[..k], j);
        assert sent[..k][..j] == sent[..j];
        if sent[k].SentGoAway? {
          GoAwayIsCounted(sent, k);
        }
      }
    }
  }

  lemma Consequences(goAwaySent: bool, sent: seq<Sent>, last: nat, blocks: seq<Given>, processed: seq<Frame>)
    requires ClosingOk(goAwaySent, sent, last) && BlocksOk(blocks, processed)
    ensures forall g, sid | g in blocks :: IsHeaderRun(sid, g.frames, true) <==> sid == g.sid && sid != 0
    ensures forall i, j, k | 0 <= i < j < k < |sent| ::
              !(sent[i].SentGoAway? && sent[j].SentGoAway? && sent[k].SentGoAway?)
  {
    hide ClosingOk;
    hide BlocksOk;
    hide IsHeaderRun;
    forall g, sid | g in blocks
      ensures IsHeaderRun(sid, g.frames, true) <==> sid == g.sid && sid != 0
    {
      RunsAreNonzero(blocks, processed, g, sid);
    }
    forall i, j, k | 0 <= i < j < k < |sent|
      ensures !(sent[i].SentGoAway? && sent[j].SentGoAway? && sent[k].SentGoAway?)
    {
      AtMostTwoGoAways(goAwaySent, sent, last, i, j, k);
    }
  }

  // ------------------------------------------------------------ how the parts change

  lemma {:induction false} SentOne(sent: seq<Sent>, o: Sent)
    ensures GoAways(sent + [o]) == if o.SentGoAway? then GoAways(sent) + [o] else GoAways(sent)
    ensures forall sid: nat ::
              Windows(sent + [o], sid) == Windows(sent, sid) + if o.SentWindow? && o.sid == sid then o.inc else 0
  {
  }

  /** GOAWAY goes out, the first or the second. */
  lemma {:induction false} GoAwayCloses(sent: seq<Sent>, last: nat, code: nat)
    requires |GoAways(sent)| <= 1 && forall g | g in GoAways(sent) :: g.SentGoAway? && g.last == last
    ensures ClosingOk(true, sent, last) && ClosingOk(true, sent + [SentGoAway(last, code)], last)
    ensures |GoAways(sent + [SentGoAway(last, code)])| == |GoAways(sent)| + 1
  {
    SentOne(sent, SentGoAway(last, code));
  }

  /** Another frame goes out that is not a window update either. */
  lemma {:induction false} PlainCloses(goAwaySent: bool, sent: seq<Sent>, last: nat, o: Sent)
    requires ClosingOk(goAwaySent, sent, last) && !o.SentGoAway?
    ensures ClosingOk(goAwaySent, sent + [o], last) && GoAways(sent + [o]) == GoAways(sent)
  {
    SentOne(sent, o);
  }

  lemma PlainFlows(sent: seq<Sent>, bodies: map<nat, Body>, o: Sent)
    requires FlowOk(sent, bodies) && !o.SentWindow?
    ensures FlowOk(sent + [o], bodies)
  {
    SentOne(sent, o);
  }

  lemma {:induction false} TotalPick(bodies: map<nat, Body>, sid: nat)
    requires sid in bodies
    ensures Total(bodies) == Size(bodies, sid) + Total(bodies - {sid})
    decreases bodies
  {
    var first :| first in bodies && Total(bodies) == Size(bodies, first) + Total(bodies - {first});
    if first != sid {
      assert (bodies - {first}) - {sid} == (bodies - {sid}) - {first};
      TotalPick(bodies - {first}, sid);
      TotalPick(bodies - {sid}, first);
      assert Size(bodies - {first}, sid) == Size(bodies, sid) && Size(bodies - {sid}, first) == Size(bodies, first);
    }
  }

  lemma TotalSet(bodies: map<nat, Body>, sid: nat, b: Body)
    ensures Total(bodies[sid := b]) == Total(bodies) - Size(bodies, sid) + |b.reader.pushed|
  {
    TotalPick(bodies[sid := b], sid);
    assert bodies[sid := b] - {sid} == bodies - {sid};
    if sid in bodies {
      TotalPick(bodies, sid);
    } else {
      assert bodies - {sid} == bodies;
    }
  }

  lemma FlowStays(sent: seq<Sent>, bodies: map<nat, Body>, sid: nat, b: Body)
    requires FlowOk(sent, bodies) && |b.reader.pushed| == Size(bodies, sid)
    ensures FlowOk(sent, bodies[sid := b])
  {
    TotalSet(bodies, sid, b);
  }

  /** One more frame: what was given stays given; a body that is not on the frame's stream is as it was. */
  lemma {:induction false} OneMoreFrame(processed: seq<Frame>, f: Frame, at: nat, sid: nat)
    requires at <= |processed|
    ensures (processed + [f])[at..] == processed[at..] + [f]
    ensures BodyOf(processed[at..], sid) <= BodyOf((processed + [f])[at..], sid)
    ensures f.kind != Data || f.streamId != sid ==>
              && BodyOf((processed + [f])[at..], sid) == BodyOf(processed[at..], sid)
              && Ended((processed + [f])[at..], sid) == Ended(processed[at..], sid)
    ensures f.kind == Data && f.streamId == sid ==>
              && (Ended((processed + [f])[at..], sid) <==> Ended(processed[at..], sid) || EndStream(f))
              && BodyOf((processed + [f])[at..], sid) ==
                 BodyOf(processed[at..], sid) +
                 if DataOf(f).Some? && !Ended(processed[at..], sid) then DataOf(f).value else []
  {
  }

  lemma GivenStays(blocks: seq<Given>, processed: seq<Frame>, f: Frame)
    requires BlocksOk(blocks, processed)
    ensures BlocksOk(blocks, processed + [f])
  {
  }

  lemma BodiesStay(bodies: map<nat, Body>, openedIds: seq<nat>, processed: seq<Frame>, f: Frame)
    requires BodiesOk(bodies, openedIds, processed)
    ensures BodiesOk(bodies, openedIds, processed + [f])
  {
    forall sid | sid in bodies
      ensures BodyOk(bodies[sid], sid, processed + [f])
    {
      OneMoreFrame(processed, f, bodies[sid].at, sid);
    }
  }

  /** All streams but the frame's own stay current. */
  lemma OthersStay(streams: map<nat, bool>, bodies: map<nat, Body>, processed: seq<Frame>, f: Frame)
    requires forall sid | sid in bodies :: bodies[sid].at <= |processed|
    requires StreamsOk(streams, bodies, processed)
    ensures forall sid | sid in streams && sid in bodies && !(f.kind == Data && f.streamId == sid) ::
              IsCurrent(bodies[sid], streams[sid], sid, processed + [f])
  {
    forall sid | sid in streams && sid in bodies && !(f.kind == Data && f.streamId == sid)
      ensures IsCurrent(bodies[sid], streams[sid], sid, processed + [f])
    {
      OneMoreFrame(processed, f, bodies[sid].at, sid);
      assert IsCurrent(bodies[sid], streams[sid], sid, processed);
    }
  }

  /** A new id is opened: it is above all nonzero ones, or it is zero. */
  lemma OpenId(ids: seq<nat>, streams: set<nat>, last: nat, sid: nat)
    requires IdsOk(ids, streams, sid, last)
    ensures IdsOk(ids, streams, 0, last) && IdsOk(ids + [sid], streams + {sid}, 0, last)
    ensures sid != 0 ==> sid !in ids
  {
    assert forall i | 0 <= i < |ids| :: (ids + [sid])[i] == ids[i] && ids[i] in ids;
  }

  lemma FewerStreams(ids: seq<nat>, streams: map<nat, bool>, collecting: nat, last: nat, sid: nat)
    requires IdsOk(ids, streams.Keys, collecting, last)
    ensures IdsOk(ids, (streams - {sid}).Keys, collecting, last)
  {
  }

  lemma StreamsFewer(streams: map<nat, bool>, bodies: map<nat, Body>, processed: seq<Frame>, sid: nat)
    requires (forall id | id in bodies :: bodies[id].at <= |processed|) && StreamsOk(streams, bodies, processed)
    ensures StreamsOk(streams - {sid}, bodies, processed)
  {
    hide IsCurrent;
  }

  function Opening(bodies: map<nat, Body>, sid: nat, at: nat, headersOnly: bool): map<nat, Body> {
    if sid == 0 then bodies else bodies[sid := Body(at, headersOnly, NewReader(headersOnly))]
  }

  lemma OpenBody(bodies: map<nat, Body>, ids: seq<nat>, processed: seq<Frame>, sid: nat, headersOnly: bool)
    requires BodiesOk(bodies, ids, processed) && (sid != 0 ==> sid !in ids)
    ensures BodiesOk(Opening(bodies, sid, |processed|, headersOnly), ids + [sid], processed)
    ensures sid !in bodies
  {
  }

  lemma OpenStream(streams: map<nat, bool>, bodies: map<nat, Body>, ids: seq<nat>, processed: seq<Frame>, sid: nat,
                   headersOnly: bool)
    requires BodiesOk(bodies, ids, processed) && StreamsOk(streams, bodies, processed) && sid !in bodies
    ensures var bodies' := Opening(bodies, sid, |processed|, headersOnly);
            && (forall id | id in bodies' :: bodies'[id].at <= |processed|)
            && StreamsOk(streams[sid := !headersOnly], bodies', processed)
  {
  }

  lemma OpenFlow(sent: seq<Sent>, bodies: map<nat, Body>, sid: nat, at: nat, headersOnly: bool)
    requires FlowOk(sent, bodies) && sid !in bodies
    ensures FlowOk(sent, Opening(bodies, sid, at, headersOnly))
  {
    FlowStays(sent, bodies, sid, Body(at, headersOnly, NewReader(headersOnly)));
  }

  lemma {:induction false} GiveBlock(blocks: seq<Given>, g: Given, verdict: Verdict, processed: seq<Frame>)
    requires BlocksOk(blocks, processed) && GivenOk(g, processed)
    ensures BlocksOk(blocks + [g.(verdict := verdict)], processed)
    ensures Opened(blocks + [g.(verdict := verdict)]) == Opened(blocks) + if verdict == Acceptable then [g.sid] else []
  {
  }

  /** HEADERS with a new id: no id is open above it, and no GOAWAY has gone out. */
  lemma StartId(ids: seq<nat>, streams: set<nat>, last: nat, sid: nat)
    requires IdsOk(ids, streams, 0, last) && sid % 2 == 1 && sid > last
    ensures IdsOk(ids, streams, sid, sid) && IdsOk(ids, streams, 0, sid)
  {
  }

  lemma NothingCollected(collected: seq<Frame>, processed: seq<Frame>)
    ensures forall block :: CollectOk(0, collected, block, processed)
  {
  }

  lemma StartRun(f: Frame, processed: seq<Frame>)
    requires f.kind == Headers && FragmentOf(f).Some? && processed != [] && processed[|processed| - 1] == f
    ensures EndHeaders(f) ==>
              GivenOk(Given(f.streamId, FragmentOf(f).value, [f], |processed|, Acceptable), processed)
                  || f.streamId == 0
    ensures !EndHeaders(f) ==> CollectOk(f.streamId, [f], FragmentOf(f).value, processed)
  {
  }

  function Grown(b: Body, data: seq<Byte>): Body {
    b.(reader := Pushed(b.reader, data))
  }

  function Finished(b: Body): Body {
    b.(reader := Shut(b.reader))
  }

  /** Data taken on a stream: an open one's reader is pushed it, the end closes the reader, and nothing else changes. */
  predicate Took(streams: map<nat, bool>, bodies: map<nat, Body>, streams': map<nat, bool>, bodies': map<nat, Body>,
                 sid: nat, data: seq<Byte>, end: bool)
  {
    && sid in streams && sid in bodies
    && var b := if streams[sid] && data != [] then Grown(bodies[sid], data) else bodies[sid];
       var over := end && (streams[sid] || data == []);
       && bodies' == bodies[sid := if over then Finished(b) else b]
       && streams' == if over then streams[sid := false] else streams
  }

  /** DATA on an open stream: its body grows by the frame's content. */
  lemma DataTaken(b: Body, sid: nat, processed: seq<Frame>, f: Frame)
    requires b.at <= |processed| && IsCurrent(b, true, sid, processed) && BodyOk(b, sid, processed + [f])
    requires f.kind == Data && f.streamId == sid && DataOf(f).Some? && DataOf(f).value != []
    ensures var b' := Grown(b, DataOf(f).value);
            && BodyOk(b', sid, processed + [f]) && b'.reader.pushed == Arrived(b', sid, processed + [f])
            && (IsOver(b', sid, processed + [f]) <==> EndStream(f))
            && (!EndStream(f) ==> IsCurrent(b', true, sid, processed + [f]))
  {
    hide IsReader;
    OneMoreFrame(processed, f, b.at, sid);
    PushedIsReader(b.reader, DataOf(f).value);
  }

  /** DATA that carries nothing, or comes after the end, changes no body. */
  lemma NoDataTaken(b: Body, open: bool, sid: nat, processed: seq<Frame>, f: Frame)
    requires b.at <= |processed| && IsCurrent(b, open, sid, processed)
    requires f.kind == Data && f.streamId == sid && DataOf(f).Some? && (open ==> DataOf(f).value == [])
    ensures b.reader.pushed == Arrived(b, sid, processed + [f])
    ensures IsOver(b, sid, processed + [f]) <==> !open || EndStream(f)
    ensures !open || !EndStream(f) ==> IsCurrent(b, open, sid, processed + [f])
  {
    OneMoreFrame(processed, f, b.at, sid);
  }

  /** A reader that has been pushed all is closed at the end. */
  lemma EndTaken(b: Body, sid: nat, processed: seq<Frame>)
    requires BodyOk(b, sid, processed) && b.reader.pushed == Arrived(b, sid, processed) && IsOver(b, sid, processed)
    ensures BodyOk(Finished(b), sid, processed) && IsCurrent(Finished(b), false, sid, processed)
  {
  }

  /**
   What a handler reads of a body is part of what has arrived; nothing more comes only at the end,
   when it has read all.
   */
  lemma BodyRead(b: Body, sid: nat, processed: seq<Frame>, len: nat)
    requires BodyOk(b, sid, processed) && CanRead(b.reader)
    ensures IsReader(b.reader)
    ensures var (r, bytes) := ReadSome(b.reader, len);
            && BodyOk(b.(reader := r), sid, processed) && |bytes| <= len
            && r.taken == b.reader.taken + bytes && r.taken <= Arrived(b, sid, processed)
            && r.pushed == b.reader.pushed && r.closed == b.reader.closed
            && (len > 0 && bytes == [] ==> IsOver(b, sid, processed) && r.taken == Arrived(b, sid, processed))
  {
    hide IsReader;
    hide ReadSome;
    SomeIsRead(b.reader, len);
  }

  lemma {:induction false} WindowsAdded(sent: seq<Sent>, bodies: map<nat, Body>, sid: nat, bytes: seq<Byte>)
    requires FlowOk(sent, bodies) && sid in bodies && sid != 0
    ensures FlowOk(sent + [SentWindow(0, |bytes|)] + [SentWindow(sid, |bytes|)],
                   bodies[sid := Grown(bodies[sid], bytes)])
    ensures GoAways(sent + [SentWindow(0, |bytes|)]) == GoAways(sent)
    ensures GoAways(sent + [SentWindow(0, |bytes|)] + [SentWindow(sid, |bytes|)]) == GoAways(sent)
  {
    TotalSet(bodies, sid, Grown(bodies[sid], bytes));
    SentOne(sent, SentWindow(0, |bytes|));
    SentOne(sent + [SentWindow(0, |bytes|)], SentWindow(sid, |bytes|));
  }

  /** The frames collected, with the CONTINUATION just taken. */
  lemma {:induction false} CollectMore(sid: nat, collected: seq<Frame>, block: seq<Byte>, processed: seq<Frame>,
                                       f: Frame)
    requires sid != 0 && CollectOk(sid, collected, block, processed)
    requires f.kind == Continuation && f.streamId == sid
    ensures IsHeaderRun(sid, collected + [f], EndHeaders(f)) && RunBytes(collected + [f]) == block + f.payload
    ensures IsLastOf(collected + [f], processed + [f], |processed| + 1)
  {
  }

  /** So is the block they make, complete or not; with none begun the frame is the origin of a stray one. */
  lemma Collected(sid: nat, collected: seq<Frame>, block: seq<Byte>, processed: seq<Frame>, f: Frame)
    requires CollectOk(sid, collected, block, processed) && f.kind == Continuation && f.streamId == sid
    ensures var collected' := if sid != 0 then collected + [f] else [f];
            if EndHeaders(f)
            then GivenOk(Given(sid, block + f.payload, collected', |processed| + 1, Acceptable), processed + [f])
            else CollectOk(sid, collected', block + f.payload, processed + [f])
  {
    if sid != 0 {
      CollectedRun(sid, collected, block, processed, f);
    } else {
      assert IsLastOf([f], processed + [f], |processed| + 1);
    }
  }

  lemma CollectedRun(sid: nat, collected: seq<Frame>, block: seq<Byte>, processed: seq<Frame>, f: Frame)
    requires sid != 0 && CollectOk(sid, collected, block, processed) && f.kind == Continuation && f.streamId == sid
    ensures if EndHeaders(f)
            then GivenOk(Given(sid, block + f.payload, collected + [f], |processed| + 1, Acceptable), processed + [f])
            else CollectOk(sid, collected + [f], block + f.payload, processed + [f])
  {
    hide IsHeaderRun;
    hide RunBytes;
    hide IsLastOf;
    CollectMore(sid, collected, block, processed, f);
  }
}
