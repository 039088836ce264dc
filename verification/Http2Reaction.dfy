/**
 What the session does about one frame, as a value: its next state, what it answers, the header block it
 gives to HPACK, and whether it ends. And which blocks the frames of a run carry, read off the frames alone.
 */
module Http2Reaction {
  import opened Wrappers
  import opened ByteIO
  import opened Http2Body
  import opened Http2History

  /** The session's state between frames. */
  datatype View = View(
    streams: map<nat, bool>,
    collecting: nat,
    headersOnly: bool,
    headerBlock: seq<Byte>,
    last: nat,
    peerMaxFrameSize: nat,
    bodies: map<nat, Body>)

  /** What is left open: how HPACK takes to a block, and what is read past the end of a short payload. */
  datatype Chance = Chance(verdict: Verdict, past: int)

  /** A block given to HPACK: its stream, its bytes, what came of it. */
  datatype Block = Block(sid: nat, bytes: seq<Byte>, verdict: Verdict)

  /** `ends` tells that the session is over, `again` that a second GOAWAY, for an internal error, follows. */
  datatype Reaction = Reaction(next: View, answers: seq<Sent>, given: seq<Block>, ends: bool, again: bool)

  function GoesOn(v: View, answers: seq<Sent>): Reaction {
    Reaction(v, answers, [], false, false)
  }

  function Leaves(v: View, code: nat, again: bool): Reaction {
    Reaction(v, [SentGoAway(v.last, code)], [], true, again)
  }

  function ToPing(v: View, f: Frame): Reaction {
    if f.streamId != 0 then Leaves(v, PROTOCOL_ERROR, false)
    else if |f.payload| != 8 then Leaves(v, FRAME_SIZE_ERROR, false)
    else GoesOn(v, if Ack(f) then [] else [SentPong(f.payload)])
  }

  function ToSettings(v: View, f: Frame): Reaction {
    if f.streamId != 0 then Leaves(v, PROTOCOL_ERROR, false)
    else if Ack(f) then if f.payload == [] then GoesOn(v, []) else Leaves(v, FRAME_SIZE_ERROR, false)
    else if |f.payload| % 6 != 0 then Leaves(v, FRAME_SIZE_ERROR, false)
    else
      var v' := v.(peerMaxFrameSize := PeerFrameSize(f.payload, v.peerMaxFrameSize));
      var fault := SettingsFault(f.payload);
      if fault.Some? then Leaves(v', fault.value, false) else GoesOn(v', [SentAck])
  }

  function ToWindowUpdate(v: View, f: Frame): Reaction {
    if |f.payload| != 4 then Leaves(v, FRAME_SIZE_ERROR, true)
    else if (f.streamId != 0 && f.streamId !in v.streams) || Uint31(f.payload) == 0 then Leaves(v, PROTOCOL_ERROR, true)
    else GoesOn(v, [])
  }

  function ToRst(v: View, f: Frame): Reaction {
    if f.streamId != 0 && |f.payload| != 4 then Leaves(v, FRAME_SIZE_ERROR, true)
    else if f.streamId == 0 || f.streamId !in v.streams then Leaves(v, PROTOCOL_ERROR, true)
    else GoesOn(v.(streams := v.streams - {f.streamId}), [])
  }

  function ToPriority(v: View, f: Frame): Reaction {
    if f.streamId == 0 then Leaves(v, PROTOCOL_ERROR, true)
    else if |f.payload| != 5 then GoesOn(v, [SentRst(f.streamId, FRAME_SIZE_ERROR)])
    else GoesOn(v, if Uint31(f.payload) == f.streamId then [SentRst(f.streamId, PROTOCOL_ERROR)] else [])
  }

  function ToData(v: View, f: Frame): Reaction {
    var sid := f.streamId;
    if sid == 0 || (sid !in v.streams && sid > v.last) then Leaves(v, PROTOCOL_ERROR, false)
    else if sid !in v.streams then GoesOn(v, [SentRst(sid, STREAM_CLOSED)])
    else if DataOf(f).None? then Leaves(v, PROTOCOL_ERROR, false)
    else if sid !in v.bodies then GoesOn(v, [])
    else if DataOf(f).value == [] then GoesOn(if EndStream(f) then Closed(v, sid) else v, [])
    else if !v.streams[sid] then GoesOn(v, [SentRst(sid, STREAM_CLOSED)])
    else
      var n := |DataOf(f).value|;
      var v' := v.(bodies := v.bodies[sid := Grown(v.bodies[sid], DataOf(f).value)]);
      GoesOn(if EndStream(f) then Closed(v', sid) else v', [SentWindow(0, n), SentWindow(sid, n)])
  }

  /** The end of a stream's body. */
  function Closed(v: View, sid: nat): View
    requires sid in v.bodies
  {
    v.(streams := v.streams[sid := false], bodies := v.bodies[sid := Finished(v.bodies[sid])])
  }

  predicate SelfDependent(f: Frame, past: int) {
    Prioritised(f) &&
    (if |f.payload| >= (if Padded(f) then 1 else 0) + 4 then Dependency(f) else past) == f.streamId
  }

  /** HEADERS: only a new id begins a block, and it is the last one from then on in any case. */
  function ToHeaders(v: View, f: Frame, n: nat, c: Chance): Reaction {
    var sid := f.streamId;
    if sid % 2 == 0 then Leaves(v, PROTOCOL_ERROR, false)
    else if sid in v.streams then GoesOn(v, [SentRst(sid, STREAM_CLOSED)])
    else if sid <= v.last then Leaves(v, STREAM_CLOSED, false)
    else
      var v' := v.(last := sid);
      if SelfDependent(f, c.past) then GoesOn(v', [SentRst(sid, PROTOCOL_ERROR)])
      else if FragmentOf(f).None? then Leaves(v', PROTOCOL_ERROR, false)
      else
        var v'' := v'.(collecting := sid, headersOnly := EndStream(f), headerBlock := FragmentOf(f).value);
        Collecting(v'', f, n, c.verdict)
  }

  function ToContinuation(v: View, f: Frame, n: nat, c: Chance): Reaction {
    if f.streamId != v.collecting then Leaves(v, PROTOCOL_ERROR, false)
    else Collecting(v.(headerBlock := v.headerBlock + f.payload), f, n, c.verdict)
  }

  /** A block with the frame just taken: it is complete if the frame says so. */
  function Collecting(v: View, f: Frame, n: nat, verdict: Verdict): Reaction {
    if EndHeaders(f) then Completes(v, n, verdict) else GoesOn(v, [])
  }

  function Opens(v: View, sid: nat, n: nat): View {
    v.(streams := v.streams[sid := !v.headersOnly], bodies := Opening(v.bodies, sid, n, v.headersOnly))
  }

  /** A complete block goes to HPACK; exactly an acceptable one opens its stream, with a body to come or none. */
  function Completes(v: View, n: nat, verdict: Verdict): Reaction {
    var sid := v.collecting;
    var v' := v.(collecting := 0, headerBlock := if verdict == Undecodable then v.headerBlock else []);
    var r :=
      match verdict
      case Undecodable => Leaves(v', COMPRESSION_ERROR, false)
      case Unacceptable => GoesOn(v', [SentRst(sid, PROTOCOL_ERROR)])
      case Acceptable =>
        GoesOn(Opens(v', sid, n), []);
    r.(given := [Block(sid, v.headerBlock, verdict)])
  }

  lemma CompletesAs(v: View, n: nat)
    ensures var sid, bytes, v' := v.collecting, v.headerBlock, v.(collecting := 0);
            && Completes(v, n, Undecodable) ==
               Leaves(v', COMPRESSION_ERROR, false).(given := [Block(sid, bytes, Undecodable)])
            && Completes(v, n, Unacceptable) ==
               GoesOn(v'.(headerBlock := []), [SentRst(sid, PROTOCOL_ERROR)])
               .(given := [Block(sid, bytes, Unacceptable)])
            && Completes(v, n, Acceptable) ==
               GoesOn(Opens(v'.(headerBlock := []), sid, n), []).(given := [Block(sid, bytes, Acceptable)])
  {
  }

  /** Data on a stream that is there: what is answered, and what becomes of the stream. */
  lemma TookAs(v: View, f: Frame, data: seq<Byte>)
    requires f.streamId != 0 && f.streamId in v.streams && f.streamId in v.bodies && DataOf(f) == Some(data)
    ensures var sid, r := f.streamId, ToData(v, f);
            && Took(v.streams, v.bodies, r.next.streams, r.next.bodies, sid, data, EndStream(f))
            && r.given == [] && !r.ends
            && (data != [] && !v.streams[sid] ==> r == GoesOn(v, [SentRst(sid, STREAM_CLOSED)]))
            && (data == [] || v.streams[sid] ==>
                  var v' := if data == [] then v else v.(bodies := v.bodies[sid := Grown(v.bodies[sid], data)]);
                  r == GoesOn(if EndStream(f) then Closed(v', sid) else v',
                              if data == [] then [] else [SentWindow(0, |data|), SentWindow(sid, |data|)]))
  {
    hide Content;
    hide HasFlag;
    var sid := f.streamId;
    assert v.bodies[sid := v.bodies[sid]] == v.bodies;
  }

  /** Any frame, the n-th. */
  function React(v: View, f: Frame, n: nat, c: Chance): Reaction {
    match f.kind
    case Headers => ToHeaders(v, f, n, c)
    case Continuation => ToContinuation(v, f, n, c)
    case Data => ToData(v, f)
    case Settings => ToSettings(v, f)
    case WindowUpdate => ToWindowUpdate(v, f)
    case Ping => ToPing(v, f)
    case RstStream => ToRst(v, f)
    case GoAway => Reaction(v, [], [], true, false)
    case Priority => ToPriority(v, f)
    case PushPromise => Leaves(v, PROTOCOL_ERROR, true)
    case Unknown => GoesOn(v, [])
  }

  lemma AgainEnds(v: View, f: Frame, n: nat, c: Chance)
    ensures React(v, f, n, c).again ==> React(v, f, n, c).ends
  {
    hide HasFlag;
    hide Content;
    hide SettingsFault;
    hide PeerFrameSize;
    hide Uint31;
  }

  /** Frames that are not looked into: too long ones, and others than CONTINUATION inside a block. */
  predicate IsUnread(v: View, f: Frame) {
    f.length > MAX_FRAME_SIZE || (v.collecting != 0 && f.kind != Continuation)
  }

  function ReactToAny(v: View, f: Frame, n: nat, c: Chance): Reaction {
    if IsUnread(v, f) then Leaves(v, if f.length > MAX_FRAME_SIZE then FRAME_SIZE_ERROR else PROTOCOL_ERROR, false)
    else React(v, f, n, c)
  }

  // ------------------------------------------------------------ the blocks of a run

  /** How far the frames of a run have brought its header blocks. */
  datatype Progress = Progress(last: nat, sid: nat, bytes: seq<Byte>, given: seq<(nat, seq<Byte>)>)

  function Completed(p: Progress, f: Frame): Progress {
    if EndHeaders(f) then Progress(p.last, 0, [], p.given + [(p.sid, p.bytes)]) else p
  }

  /** HEADERS with the greatest odd id so far begin a block, CONTINUATIONs on the same id continue it. */
  function Advances(p: Progress, f: Frame): Progress {
    if f.length > MAX_FRAME_SIZE then p
    else if f.kind == Continuation && f.streamId == p.sid then Completed(p.(bytes := p.bytes + f.payload), f)
    else if f.kind == Headers && p.sid == 0 && f.streamId % 2 == 1 && f.streamId > p.last then
      var p' := p.(last := f.streamId);
      if DependsOnItself(f) || FragmentOf(f).None? then p'
      else Completed(p'.(sid := f.streamId, bytes := FragmentOf(f).value), f)
    else p
  }

  function ProgressOf(frames: seq<Frame>): Progress {
    if frames == [] then Progress(0, 0, [], []) else Advances(ProgressOf(frames[..|frames| - 1]), frames[|frames| - 1])
  }

  function Carried(blocks: seq<Given>): seq<(nat, seq<Byte>)> {
    if blocks == [] then []
    else Carried(blocks[..|blocks| - 1]) + [(blocks[|blocks| - 1].sid, blocks[|blocks| - 1].bytes)]
  }

  predicate IsAt(v: View, p: Progress) {
    v.last == p.last && v.collecting == p.sid && v.headerBlock == p.bytes
  }

  /** The blocks given so far are those the frames carry; while the session goes on, so is the one begun. */
  ghost predicate ProgressOk(v: View, goAwaySent: bool, blocks: seq<Given>, processed: seq<Frame>) {
    Carried(blocks) == ProgressOf(processed).given && (!goAwaySent ==> IsAt(v, ProgressOf(processed)))
  }

  lemma SameProgress(v: View, v': View, goAwaySent: bool, blocks: seq<Given>, processed: seq<Frame>)
    requires ProgressOk(v, goAwaySent, blocks, processed)
    requires v'.last == v.last && v'.collecting == v.collecting && v'.headerBlock == v.headerBlock
    ensures ProgressOk(v', goAwaySent, blocks, processed)
  {
  }

  /** A reaction gives a block exactly if the frames do. */
  predicate Follows(r: Reaction, p: Progress, p': Progress) {
    && |r.given| <= 1
    && p'.given == p.given + (if r.given == [] then [] else [(r.given[0].sid, r.given[0].bytes)])
    && (!r.ends ==> IsAt(r.next, p'))
  }

  lemma CompletesWith(v: View, p: Progress, f: Frame, n: nat, verdict: Verdict)
    requires IsAt(v, p)
    ensures Follows(Collecting(v, f, n, verdict), p, Completed(p, f))
  {
    hide HasFlag;
  }

  lemma HeadersAdvance(v: View, p: Progress, f: Frame, n: nat, c: Chance)
    requires IsAt(v, p) && p.sid == 0 && f.kind == Headers && f.length <= MAX_FRAME_SIZE
    requires forall sid | sid in v.streams :: sid <= v.last
    ensures Follows(ToHeaders(v, f, n, c), p, Advances(p, f))
  {
    hide Content;
    hide Dependency;
    hide HasFlag;
    hide Collecting;
    hide Completed;
    ShortIsBroken(f);
    if FragmentOf(f).Some? {
      var sid, bytes := f.streamId, FragmentOf(f).value;
      CompletesWith(v.(last := sid, collecting := sid, headersOnly := EndStream(f), headerBlock := bytes),
                    p.(last := sid, sid := sid, bytes := bytes), f, n, c.verdict);
    }
  }

  lemma ContinuationAdvances(v: View, p: Progress, f: Frame, n: nat, c: Chance)
    requires IsAt(v, p) && f.kind == Continuation && f.length <= MAX_FRAME_SIZE
    ensures Follows(ToContinuation(v, f, n, c), p, Advances(p, f))
  {
    hide HasFlag;
    hide Collecting;
    hide Completed;
    CompletesWith(v.(headerBlock := v.headerBlock + f.payload), p.(bytes := p.bytes + f.payload), f, n, c.verdict);
  }

  lemma OthersStand(v: View, p: Progress, f: Frame, n: nat, c: Chance)
    requires IsAt(v, p) && f.kind != Headers && f.kind != Continuation
    ensures Follows(React(v, f, n, c), p, p)
  {
    hide Content;
    hide HasFlag;
    hide SettingsFault;
    hide PeerFrameSize;
  }

  /** One more frame of any kind. */
  lemma AdvancesWith(v: View, p: Progress, f: Frame, n: nat, c: Chance)
    requires IsAt(v, p) && forall sid | sid in v.streams :: sid <= v.last
    ensures Follows(ReactToAny(v, f, n, c), p, Advances(p, f))
  {
    hide ToHeaders;
    hide ToContinuation;
    if !IsUnread(v, f) {
      if f.kind == Headers {
        HeadersAdvance(v, p, f, n, c);
      } else if f.kind == Continuation {
        ContinuationAdvances(v, p, f, n, c);
      } else {
        hide React;
        OthersStand(v, p, f, n, c);
      }
    }
  }

  /** Prioritised HEADERS too short for a dependency carry no fragment. */
  lemma ShortIsBroken(f: Frame)
    ensures Prioritised(f) && |f.payload| < (if Padded(f) then 1 else 0) + 4 ==> FragmentOf(f).None?
  {
  }

  lemma {:induction false} OneMoreCarried(blocks: seq<Given>, g: Given)
    ensures Carried(blocks + [g]) == Carried(blocks) + [(g.sid, g.bytes)]
  {
    assert (blocks + [g])[..|blocks|] == blocks;
  }

  lemma {:induction false} OneMoreProcessed(processed: seq<Frame>, f: Frame)
    ensures ProgressOf(processed + [f]) == Advances(ProgressOf(processed), f)
  {
    assert (processed + [f])[..|processed|] == processed;
  }

  // ------------------------------------------------------------ reactions carried out

  /** The second GOAWAY. */
  function Farewell(r: Reaction): seq<Sent> {
    if r.again then [SentGoAway(r.next.last, INTERNAL_ERROR)] else []
  }

  /** Blocks have been given as a reaction says. */
  predicate Gave(before: seq<Given>, after: seq<Given>, given: seq<Block>) {
    if given == [] then after == before
    else
      && |after| == |before| + 1 && after[..|before|] == before && |given| == 1
      && var g := after[|before|];
         g.sid == given[0].sid && g.bytes == given[0].bytes && g.verdict == given[0].verdict
  }
}
