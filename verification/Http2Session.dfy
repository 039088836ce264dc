/**
 The HTTP/2 server session (RFC 7540): one loop that reads frames and acts on each, beside request
 handlers that end streams and write responses on their own.

 Handlers act between frames here. In the program they also run while the loop waits inside the
 treatment of a frame, and one that ends a stream then can be noticed: DATA holds on to its stream
 across the window updates. Whether a header block decodes, whether its fields are acceptable and
 whether a write succeeds are left open. `sent` is what has been written; `bodies` are the readers that
 handlers read from; `processed`, `openedIds` and `blocks` are history.
 */
module Http2Session {
  import opened Wrappers
  import opened ByteIO
  import opened Http2Body
  import opened Http2History
  import opened Http2Reaction

  class Session {
    var streams: map<nat, bool>
    var collecting: nat
    var headersOnly: bool
    var headerBlock: seq<Byte>
    var lastStreamId: nat
    var goAwaySent: bool
    var peerMaxFrameSize: nat
    var bodies: map<nat, Body>
    var sent: seq<Sent>
    var processed: seq<Frame>
    ghost var failed: bool
    ghost var collected: seq<Frame>
    ghost var openedIds: seq<nat>
    ghost var blocks: seq<Given>

    /** What holds at every moment. */
    ghost predicate Always()
      reads this`openedIds, this`streams, this`collecting, this`lastStreamId, this`blocks, this`processed
      reads this`goAwaySent, this`sent, this`bodies, this`failed
    {
      && IdsOk(openedIds, streams.Keys, collecting, lastStreamId)
      && BlocksOk(blocks, processed)
      && ClosingOk(goAwaySent, sent, lastStreamId)
      && BodiesOk(bodies, openedIds, processed)
      && (!failed ==> FlowOk(sent, bodies))
    }

    ghost function Now(): View
      reads this
    {
      View(streams, collecting, headersOnly, headerBlock, lastStreamId, peerMaxFrameSize, bodies)
    }

    /** What holds between frames. */
    ghost predicate Valid()
      reads this
    {
      Between() && ProgressOk(Now(), goAwaySent, blocks, processed)
    }

    ghost predicate Between()
      reads this
    {
      && Always() && openedIds == Opened(blocks)
      && (!goAwaySent ==>
            && !failed && CollectOk(collecting, collected, headerBlock, processed)
            && StreamsOk(streams, bodies, processed))
    }

    constructor ()
      ensures Valid() && !goAwaySent && processed == [] && openedIds == [] && blocks == [] && peerMaxFrameSize == 16384
    {
      streams, collecting, headersOnly, headerBlock := map[], 0, false, [];
      lastStreamId, goAwaySent, peerMaxFrameSize, bodies := 0, false, 16384, map[];
      sent, processed := [], [];
      failed, collected, openedIds, blocks := false, [], [], [];
    }

    /** A reaction has been carried out, as far as no write failed; the blocks are given in any case. */
    ghost predicate Reacted(r: Reaction, ok: bool, sent: seq<Sent>, blocks: seq<Given>)
      reads this
    {
      && Gave(blocks, this.blocks, r.given) && (goAwaySent <==> r.ends)
      && (failed ==> !ok)
      && (!failed ==> Now() == r.next && this.sent == sent + r.answers && ok == !r.again)
    }

    /** A write: it may fail, and then the handler that made it is abandoned. */
    method Write(o: Sent) returns (ok: bool)
      modifies this`sent, this`failed
      ensures ok ==> sent == old(sent) + [o] && failed == old(failed)
      ensures !ok ==> sent == old(sent) && failed
    {
      if * {
        sent := sent + [o];
        return true;
      } else {
        failed := true;
        return false;
      }
    }

    method SendGoAway(code: nat) returns (ok: bool)
      requires Always() && |GoAways(sent)| <= 1
      modifies this`goAwaySent, this`sent, this`failed
      ensures Always() && goAwaySent && |GoAways(sent)| <= old(|GoAways(sent)|) + 1
      ensures sent == old(sent) || sent == old(sent) + [SentGoAway(lastStreamId, code)]
      ensures ok ==> failed == old(failed) && sent == old(sent) + [SentGoAway(lastStreamId, code)]
      ensures !ok ==> failed
      ensures !old(failed) ==> Reacted(Leaves(Now(), code, false), ok, old(sent), blocks)
      ensures !old(failed) ==> Reacted(Leaves(Now(), code, true), false, old(sent), blocks)
    {
      hide IdsOk;
      hide BlocksOk;
      hide BodiesOk;
      hide GoAways;
      hide FlowOk;
      hide ClosingOk;
      assert forall g | g in GoAways(sent) :: g.SentGoAway? && g.last == lastStreamId by { Closing(); }
      goAwaySent := true;
      GoAwayCloses(sent, lastStreamId, code);
      if !failed {
        PlainFlows(sent, bodies, SentGoAway(lastStreamId, code));
      }
      ok := Write(SentGoAway(lastStreamId, code));
    }

    lemma Closing()
      requires ClosingOk(goAwaySent, sent, lastStreamId)
      ensures forall g | g in GoAways(sent) :: g.SentGoAway? && g.last == lastStreamId
    {
    }

    /** Any other frame that is neither GOAWAY nor WINDOW_UPDATE. */
    method SendPlain(o: Sent) returns (ok: bool)
      requires Always() && !o.SentGoAway? && !o.SentWindow?
      modifies this`sent, this`failed
      ensures Always() && GoAways(sent) == old(GoAways(sent))
      ensures ok ==> failed == old(failed) && sent == old(sent) + [o]
      ensures !ok ==> failed
      ensures !old(failed) && !goAwaySent ==> Reacted(GoesOn(Now(), [o]), ok, old(sent), blocks)
    {
      hide IdsOk;
      hide BlocksOk;
      hide BodiesOk;
      hide GoAways;
      hide FlowOk;
      hide ClosingOk;
      PlainCloses(goAwaySent, sent, lastStreamId, o);
      if !failed {
        PlainFlows(sent, bodies, o);
      }
      ok := Write(o);
    }

    /** A frame has just been taken: all but its own stream is as between frames. */
    ghost predicate Received(f: Frame)
      reads this
    {
      && Always() && !goAwaySent && !failed && openedIds == Opened(blocks)
      && processed != [] && processed[|processed| - 1] == f
      && CollectOk(collecting, collected, headerBlock, processed[..|processed| - 1])
      && (collecting != 0 ==> f.kind == Continuation)
      && (forall sid | sid in streams && sid in bodies && !(f.kind == Data && f.streamId == sid) ::
            IsCurrent(bodies[sid], streams[sid], sid, processed))
      && (f.kind == Data && f.streamId in streams && f.streamId in bodies ==>
            && bodies[f.streamId].at < |processed|
            && IsCurrent(bodies[f.streamId], streams[f.streamId], f.streamId, processed[..|processed| - 1]))
    }

    /** What a handler leaves: one GOAWAY at most, and if none then the session as between frames. */
    ghost predicate Handled(ok: bool)
      reads this
    {
      && Always() && |GoAways(sent)| <= 1 && openedIds == Opened(blocks)
      && (ok && !goAwaySent ==> Between())
    }

    method Receive(f: Frame)
      requires Between() && !goAwaySent && (collecting != 0 ==> f.kind == Continuation)
      modifies this`processed
      ensures Received(f) && processed == old(processed) + [f]
    {
      GivenStays(blocks, processed, f);
      BodiesStay(bodies, openedIds, processed, f);
      OthersStay(streams, bodies, processed, f);
      processed := processed + [f];
      assert processed[..|processed| - 1] == old(processed);
    }

    /** A frame has just been taken that is not data for a stream: all streams are as between frames. */
    lemma Standing(f: Frame)
      requires Received(f)
      ensures Always() && !goAwaySent && !failed && GoAways(sent) == [] && openedIds == Opened(blocks)
      ensures f.kind != Continuation ==> collecting == 0 && CollectOk(collecting, collected, headerBlock, processed)
      ensures forall sid | sid in bodies :: bodies[sid].at <= |processed|
      ensures f.kind != Data || f.streamId !in streams || f.streamId !in bodies ==>
                StreamsOk(streams, bodies, processed)
      ensures f.streamId in streams && f.streamId != 0 ==> f.streamId in bodies
    {
      hide IsCurrent;
      hide BlocksOk;
      hide FlowOk;
      hide IsReader;
      hide Arrived;
      hide IsOver;
      hide Opened;
    }

    method HandlePing(f: Frame) returns (ok: bool)
      requires Received(f) && f.kind == Ping
      modifies this`goAwaySent, this`sent, this`failed
      ensures Handled(ok)
      ensures Reacted(ToPing(old(Now()), f), ok, old(sent), old(blocks))
      ensures goAwaySent <==> f.streamId != 0 || |f.payload| != 8
      ensures ok && !goAwaySent ==> sent == if Ack(f) then old(sent) else old(sent) + [SentPong(f.payload)]
    {
      hide Always;
      hide Received;
      hide CollectOk;
      hide StreamsOk;
      hide Opened;
      hide GoAways;
      hide Reacted;
      Standing(f);
      if f.streamId != 0 {
        ok := SendGoAway(PROTOCOL_ERROR);
      } else if |f.payload| != 8 {
        ok := SendGoAway(FRAME_SIZE_ERROR);
      } else if Ack(f) {
        ok := true;
        NothingDone();
      } else {
        ok := SendPlain(SentPong(f.payload));
      }
    }

    method HandleSettings(f: Frame) returns (ok: bool)
      requires Received(f) && f.kind == Settings
      modifies this`goAwaySent, this`sent, this`failed, this`peerMaxFrameSize
      ensures Handled(ok)
      ensures Reacted(ToSettings(old(Now()), f), ok, old(sent), old(blocks))
      ensures goAwaySent <==>
                || f.streamId != 0
                || (if Ack(f) then f.payload != [] else |f.payload| % 6 != 0 || SettingsFault(f.payload).Some?)
      ensures ok && !goAwaySent ==> sent == if Ack(f) then old(sent) else old(sent) + [SentAck]
      ensures f.streamId != 0 || Ack(f) || |f.payload| % 6 != 0 ==> peerMaxFrameSize == old(peerMaxFrameSize)
      ensures f.streamId == 0 && !Ack(f) && |f.payload| % 6 == 0 ==>
                peerMaxFrameSize == PeerFrameSize(f.payload, old(peerMaxFrameSize))
    {
      hide Always;
      hide Received;
      hide CollectOk;
      hide StreamsOk;
      hide Opened;
      hide GoAways;
      hide Reacted;
      hide SettingsFault;
      hide PeerFrameSize;
      Standing(f);
      if f.streamId != 0 {
        ok := SendGoAway(PROTOCOL_ERROR);
      } else if Ack(f) {
        ok := true;
        NothingDone();
        if f.payload != [] {
          ok := SendGoAway(FRAME_SIZE_ERROR);
        }
      } else if |f.payload| % 6 != 0 {
        ok := SendGoAway(FRAME_SIZE_ERROR);
      } else {
        var fault := ApplySettings(f.payload);
        if fault.Some? {
          ok := SendGoAway(fault.value);
        } else {
          ok := SendPlain(SentAck);
        }
      }
    }

    /** The settings one after another, up to the first fault. */
    method ApplySettings(s: seq<Byte>) returns (fault: Option<nat>)
      requires |s| % 6 == 0
      modifies this`peerMaxFrameSize
      ensures fault == SettingsFault(s) && peerMaxFrameSize == PeerFrameSize(s, old(peerMaxFrameSize))
    {
      assert s[0..] == s;
      hide SettingsFault;
      hide PeerFrameSize;
      hide SettingAt;
      ghost var n, k := |s| / 6, 0;
      assert |s| == 6 * n;
      var i := 0;
      while i < |s|
        invariant k <= n && i == 6 * k
        invariant SettingsFault(s[i..]) == SettingsFault(s)
        invariant PeerFrameSize(s[i..], peerMaxFrameSize) == PeerFrameSize(s, old(peerMaxFrameSize))
      {
        var (id, value) := SettingAt(s, i);
        SettingTaken(s, i, peerMaxFrameSize);
        if id == 0x2 && value > 1 {
          return Some(PROTOCOL_ERROR);
        }
        if id == 0x4 && value > 0x7fff_ffff {
          return Some(FLOW_CONTROL_ERROR);
        }
        if id == 0x5 && (value < 16384 || value > 16777215) {
          return Some(PROTOCOL_ERROR);
        }
        if id == 0x5 {
          peerMaxFrameSize := value;
        }
        i, k := i + 6, k + 1;
      }
      NoSettings(s[i..], peerMaxFrameSize);
      return None;
    }

    method HandleWindowUpdate(f: Frame) returns (ok: bool)
      requires Received(f) && f.kind == WindowUpdate
      modifies this`goAwaySent, this`sent, this`failed
      ensures Handled(ok)
      ensures Reacted(ToWindowUpdate(old(Now()), f), ok, old(sent), old(blocks))
      ensures ok <==> |f.payload| == 4 && (f.streamId == 0 || f.streamId in streams) && Uint31(f.payload) != 0
      ensures goAwaySent <==> !ok
    {
      hide Always;
      hide Received;
      hide CollectOk;
      hide StreamsOk;
      hide Opened;
      hide GoAways;
      hide Reacted;
      hide Uint31;
      Standing(f);
      ok := true;
      NothingDone();
      if |f.payload| != 4 {
        ok := SendGoAway(FRAME_SIZE_ERROR);
        ok := false;
      } else if f.streamId != 0 && f.streamId !in streams {
        ok := SendGoAway(PROTOCOL_ERROR);
        ok := false;
      } else if Uint31(f.payload) == 0 {
        ok := SendGoAway(PROTOCOL_ERROR);
        ok := false;
      }
    }

    method HandleRst(f: Frame) returns (ok: bool)
      requires Received(f) && f.kind == RstStream
      modifies this`goAwaySent, this`sent, this`failed, this`streams
      ensures Handled(ok)
      ensures Reacted(ToRst(old(Now()), f), ok, old(sent), old(blocks))
      ensures ok <==> f.streamId != 0 && |f.payload| == 4 && f.streamId in old(streams)
      ensures streams == if ok then old(streams) - {f.streamId} else old(streams)
      ensures goAwaySent <==> !ok
    {
      hide Always;
      hide Received;
      hide CollectOk;
      hide StreamsOk;
      hide Opened;
      hide GoAways;
      hide Reacted;
      Standing(f);
      ok := false;
      if f.streamId == 0 {
        var _ := SendGoAway(PROTOCOL_ERROR);
      } else if |f.payload| != 4 {
        var _ := SendGoAway(FRAME_SIZE_ERROR);
      } else if f.streamId !in streams {
        var _ := SendGoAway(PROTOCOL_ERROR);
      } else {
        StreamsFewer(streams, bodies, processed, f.streamId);
        DropStream(f.streamId);
        ok := true;
        NothingDone();
      }
    }

    /** A stream is gone. */
    method DropStream(sid: nat)
      requires Always()
      modifies this`streams
      ensures Always() && streams == old(streams) - {sid}
    {
      hide IdsOk;
      hide BlocksOk;
      hide BodiesOk;
      hide FlowOk;
      hide ClosingOk;
      FewerStreams(openedIds, streams, collecting, lastStreamId, sid);
      streams := streams - {sid};
    }

    method HandlePriority(f: Frame) returns (ok: bool)
      requires Received(f) && f.kind == Priority
      modifies this`goAwaySent, this`sent, this`failed
      ensures Handled(ok)
      ensures Reacted(ToPriority(old(Now()), f), ok, old(sent), old(blocks))
      ensures goAwaySent <==> f.streamId == 0
      ensures ok && |f.payload| != 5 ==> sent == old(sent) + [SentRst(f.streamId, FRAME_SIZE_ERROR)]
      ensures ok && |f.payload| == 5 ==>
                sent == old(sent) +
                        if Uint31(f.payload) == f.streamId then [SentRst(f.streamId, PROTOCOL_ERROR)] else []
    {
      hide Always;
      hide Received;
      hide CollectOk;
      hide StreamsOk;
      hide Opened;
      hide GoAways;
      hide Reacted;
      hide Uint31;
      Standing(f);
      ok := true;
      NothingDone();
      if f.streamId == 0 {
        ok := SendGoAway(PROTOCOL_ERROR);
        ok := false;
      } else if |f.payload| != 5 {
        ok := SendPlain(SentRst(f.streamId, FRAME_SIZE_ERROR));
      } else if Uint31(f.payload) == f.streamId {
        ok := SendPlain(SentRst(f.streamId, PROTOCOL_ERROR));
      }
    }

    /** A stream opens, with an empty body that is over at once if the headers were all of the request. */
    method Open(sid: nat) returns (ok: bool)
      requires openedIds + [sid] == Opened(blocks) && IdsOk(openedIds + [sid], streams.Keys + {sid}, 0, lastStreamId)
      requires Always() && StreamsOk(streams, bodies, processed)
      requires !goAwaySent && !failed && collecting == 0 && (sid != 0 ==> sid !in openedIds)
      modifies this`streams, this`openedIds, this`bodies
      ensures Between() && openedIds == old(openedIds) + [sid] && streams == old(streams)[sid := !headersOnly]
      ensures bodies == Opening(old(bodies), sid, |processed|, headersOnly)
      ensures ok && Reacted(GoesOn(Now(), []), ok, sent, blocks)
      ensures Now() == Opens(old(Now()), sid, |processed|)
    {
      hide Reacted;
      hide IdsOk;
      hide BlocksOk;
      hide Opened;
      hide FlowOk;
      hide BodyOk;
      hide IsCurrent;
      hide ClosingOk;
      OpenBody(bodies, openedIds, processed, sid, headersOnly);
      OpenStream(streams, bodies, openedIds, processed, sid, headersOnly);
      OpenFlow(sent, bodies, sid, |processed|, headersOnly);
      openedIds := openedIds + [sid];
      bodies := Opening(bodies, sid, |processed|, headersOnly);
      streams := streams[sid := !headersOnly];
      assert streams.Keys == old(streams.Keys) + {sid};
      ok := true;
      NothingDone();
    }

    /** The frames of a block are complete: it goes to HPACK, and exactly if it is acceptable its stream opens. */
    method Finalise(ghost g: Given) returns (ok: bool, verdict: Verdict)
      requires Always() && !goAwaySent && !failed && openedIds == Opened(blocks)
      requires (forall sid | sid in bodies :: bodies[sid].at <= |processed|) && StreamsOk(streams, bodies, processed)
      requires g.sid == collecting && g.bytes == headerBlock && GivenOk(g, processed)
      modifies this
      ensures Handled(ok) && processed == old(processed) && blocks == old(blocks) + [g.(verdict := verdict)]
      ensures Reacted(Completes(old(Now()), |processed|, verdict), ok, old(sent), old(blocks))
      ensures lastStreamId == old(lastStreamId)
      ensures goAwaySent <==> verdict == Undecodable
      ensures verdict == Acceptable ==>
                ok && openedIds == old(openedIds) + [g.sid] && streams == old(streams)[g.sid := !old(headersOnly)]
      ensures verdict != Acceptable ==> openedIds == old(openedIds) && streams == old(streams)
      ensures ok && verdict == Unacceptable ==> sent == old(sent) + [SentRst(g.sid, PROTOCOL_ERROR)]
    {
      hide Always;
      hide IdsOk;
      hide StreamsOk;
      hide CollectOk;
      hide GoAways;
      hide GivenOk;
      hide Completes;
      hide Opens;
      hide Reacted;
      hide Opened;
      NothingCollected(collected, processed);
      verdict := *;
      ghost var v, sent0, blocks0 := Now(), sent, blocks;
      var sid := collecting;
      NoGoAways();
      Give(g, verdict);
      CompletesAs(v, |processed|);
      match verdict
      case Undecodable =>
        ok := SendGoAway(COMPRESSION_ERROR);
        BlockGiven(blocks0, g, verdict, ok, sent0, Leaves(Now(), COMPRESSION_ERROR, false));
      case Unacceptable =>
        headerBlock := [];
        ok := SendPlain(SentRst(sid, PROTOCOL_ERROR));
        BlockGiven(blocks0, g, verdict, ok, sent0, GoesOn(Now(), [SentRst(sid, PROTOCOL_ERROR)]));
      case Acceptable =>
        headerBlock := [];
        ok := Open(sid);
        BlockGiven(blocks0, g, verdict, ok, sent0, GoesOn(Now(), []));
    }

    lemma NoGoAways()
      requires Always() && !goAwaySent
      ensures GoAways(sent) == []
    {
    }

    /** A block goes to HPACK, and nothing is being collected any more. */
    method Give(ghost g: Given, ghost verdict: Verdict)
      requires Always() && g.sid == collecting && GivenOk(g, processed)
      modifies this`collecting, this`blocks
      ensures Always() && collecting == 0 && blocks == old(blocks) + [g.(verdict := verdict)]
      ensures Opened(blocks) == old(Opened(blocks)) + if verdict == Acceptable then [g.sid] else []
      ensures IdsOk(openedIds + [g.sid], streams.Keys + {g.sid}, 0, lastStreamId)
      ensures g.sid != 0 ==> g.sid !in openedIds
    {
      hide IdsOk;
      hide BlocksOk;
      hide BodiesOk;
      hide Opened;
      hide FlowOk;
      hide GivenOk;
      hide ClosingOk;
      GiveBlock(blocks, g, verdict, processed);
      OpenId(openedIds, streams.Keys, lastStreamId, collecting);
      collecting := 0;
      blocks := blocks + [g.(verdict := verdict)];
    }

    /** What is done about a block, and the block given before. */
    lemma BlockGiven(before: seq<Given>, g: Given, verdict: Verdict, ok: bool, sent: seq<Sent>, r: Reaction)
      requires blocks == before + [g.(verdict := verdict)] && r.given == [] && Reacted(r, ok, sent, blocks)
      ensures Reacted(r.(given := [Block(g.sid, g.bytes, verdict)]), ok, sent, before)
    {
      assert blocks[..|before|] == before;
    }

    method HandleHeaders(f: Frame) returns (ok: bool, ghost c: Chance)
      requires Received(f) && f.kind == Headers
      modifies this
      ensures Handled(ok) && processed == old(processed) && Gives(old(blocks), blocks, false)
      ensures Reacted(ToHeaders(old(Now()), f, |processed|, c), ok, old(sent), old(blocks))
      ensures Refuses(f.streamId, old(streams).Keys, old(lastStreamId)) ==>
                goAwaySent && lastStreamId == old(lastStreamId)
      ensures f.streamId in old(streams) ==> lastStreamId == old(lastStreamId)
      ensures ok && !goAwaySent && f.streamId in old(streams) ==>
                blocks == old(blocks) && sent == old(sent) + [SentRst(f.streamId, STREAM_CLOSED)]
      ensures ok && !goAwaySent && f.streamId !in old(streams) && DependsOnItself(f) ==>
                blocks == old(blocks) && sent == old(sent) + [SentRst(f.streamId, PROTOCOL_ERROR)]
      ensures !Refuses(f.streamId, old(streams).Keys, old(lastStreamId)) && f.streamId !in old(streams) ==>
                lastStreamId == f.streamId
    {
      hide Always;
      hide Received;
      hide CollectOk;
      hide StreamsOk;
      hide Opened;
      hide GoAways;
      hide Reacted;
      hide Uint31;
      hide Content;
      hide Collecting;
      hide HasFlag;
      Standing(f);
      c := Chance(Acceptable, 0);
      var sid := f.streamId;
      if sid == 0 || sid % 2 == 0 {
        ok := SendGoAway(PROTOCOL_ERROR);
        return;
      }
      if sid <= lastStreamId && sid !in streams {
        ok := SendGoAway(STREAM_CLOSED);
        return;
      }
      if sid in streams {
        ok := SendPlain(SentRst(sid, STREAM_CLOSED));
        return;
      }
      NewLast(f);
      if Prioritised(f) {
        var offset := if Padded(f) then 1 else 0;
        var dep: int := *;
        if |f.payload| >= offset + 4 {
          dep := Dependency(f);
        }
        c := Chance(Acceptable, dep);
        if dep == sid {
          ok := SendPlain(SentRst(sid, PROTOCOL_ERROR));
          return;
        }
      }
      if FragmentOf(f).None? {
        ok := SendGoAway(PROTOCOL_ERROR);
        return;
      }
      ghost var verdict;
      ok, verdict := BeginBlock(f);
      c := Chance(verdict, c.past);
    }

    /** A new id is the last one from now on. */
    method NewLast(f: Frame)
      requires Received(f) && f.kind == Headers && f.streamId % 2 == 1 && f.streamId > lastStreamId
      modifies this`lastStreamId
      ensures Received(f) && Always() && lastStreamId == f.streamId
      ensures IdsOk(openedIds, streams.Keys, f.streamId, lastStreamId)
    {
      hide IdsOk;
      hide BlocksOk;
      hide BodiesOk;
      hide FlowOk;
      hide IsCurrent;
      hide GoAways;
      hide Opened;
      StartId(openedIds, streams.Keys, lastStreamId, f.streamId);
      lastStreamId := f.streamId;
    }

    method BeginBlock(f: Frame) returns (ok: bool, ghost verdict: Verdict)
      requires Received(f) && f.kind == Headers && FragmentOf(f).Some?
      requires f.streamId != 0 && IdsOk(openedIds, streams.Keys, f.streamId, lastStreamId)
      modifies this
      ensures Handled(ok) && processed == old(processed) && Gives(old(blocks), blocks, false)
      ensures Reacted(Collecting(old(Now()).(collecting := f.streamId, headersOnly := EndStream(f),
                                              headerBlock := FragmentOf(f).value), f, |processed|, verdict),
                      ok, old(sent), old(blocks))
      ensures lastStreamId == old(lastStreamId)
    {
      hide Always;
      hide Received;
      hide CollectOk;
      hide StreamsOk;
      hide GivenOk;
      hide Opened;
      hide GoAways;
      hide Content;
      hide HasFlag;
      hide Completes;
      hide Reacted;
      Standing(f);
      Begin(f);
      ok, verdict := true, Acceptable;
      NothingDone();
      if EndHeaders(f) {
        ok, verdict := Finalise(Given(f.streamId, headerBlock, collected, |processed|, Acceptable));
      }
    }

    /** A block begins with the fragment of the frame. */
    method Begin(f: Frame)
      requires Received(f) && f.kind == Headers && FragmentOf(f).Some?
      requires f.streamId != 0 && IdsOk(openedIds, streams.Keys, f.streamId, lastStreamId)
      modifies this`collected, this`headerBlock, this`collecting, this`headersOnly
      ensures Always() && headerBlock == FragmentOf(f).value && collecting == f.streamId && headersOnly == EndStream(f)
      ensures EndHeaders(f) ==> GivenOk(Given(collecting, headerBlock, collected, |processed|, Acceptable), processed)
      ensures !EndHeaders(f) ==> CollectOk(collecting, collected, headerBlock, processed)
    {
      hide IdsOk;
      hide BlocksOk;
      hide BodiesOk;
      hide FlowOk;
      hide ClosingOk;
      hide IsCurrent;
      hide CollectOk;
      hide GivenOk;
      hide Content;
      headerBlock, collecting, headersOnly := FragmentOf(f).value, f.streamId, EndStream(f);
      collected := [f];
      StartRun(f, processed);
    }

    /** A CONTINUATION of the block being collected; with none being collected, stream zero passes too. */
    method HandleContinuation(f: Frame) returns (ok: bool, ghost c: Chance)
      requires Received(f) && f.kind == Continuation
      modifies this
      ensures Handled(ok) && processed == old(processed) && Gives(old(blocks), blocks, IsStray(f, old(collecting)))
      ensures Reacted(ToContinuation(old(Now()), f, |processed|, c), ok, old(sent), old(blocks))
    {
      hide Always;
      hide Received;
      hide CollectOk;
      hide StreamsOk;
      hide GivenOk;
      hide Opened;
      hide GoAways;
      hide HasFlag;
      hide Completes;
      hide Reacted;
      Standing(f);
      c := Chance(Acceptable, 0);
      if f.streamId != collecting {
        ok := SendGoAway(PROTOCOL_ERROR);
        return;
      }
      Collect(f);
      ok := true;
      NothingDone();
      if EndHeaders(f) {
        ghost var verdict;
        ok, verdict := Finalise(Given(collecting, headerBlock, collected, |processed|, Acceptable));
        c := Chance(verdict, 0);
      }
    }

    /** The block grows by the frame; with no block begun the frame alone is remembered as its origin. */
    method Collect(f: Frame)
      requires Received(f) && f.kind == Continuation && f.streamId == collecting
      modifies this`collected, this`headerBlock
      ensures Always() && headerBlock == old(headerBlock) + f.payload
      ensures EndHeaders(f) ==> GivenOk(Given(collecting, headerBlock, collected, |processed|, Acceptable), processed)
      ensures !EndHeaders(f) ==> CollectOk(collecting, collected, headerBlock, processed)
    {
      hide IdsOk;
      hide BlocksOk;
      hide BodiesOk;
      hide FlowOk;
      hide ClosingOk;
      hide IsCurrent;
      hide CollectOk;
      hide GivenOk;
      ghost var before := processed[..|processed| - 1];
      assert processed == before + [f];
      Collected(collecting, collected, headerBlock, before, f);
      collected := if collecting != 0 then collected + [f] else [f];
      headerBlock := headerBlock + f.payload;
    }

    method HandleData(f: Frame) returns (ok: bool)
      requires Received(f) && f.kind == Data
      modifies this`goAwaySent, this`sent, this`failed, this`streams, this`bodies
      ensures Handled(ok)
      ensures Reacted(ToData(old(Now()), f), ok, old(sent), old(blocks))
      ensures goAwaySent <==>
                f.streamId == 0 || (if f.streamId in old(streams) then DataOf(f).None? else f.streamId > lastStreamId)
      ensures f.streamId !in old(streams) || f.streamId == 0 || DataOf(f).None? ==> bodies == old(bodies)
      ensures ok && f.streamId in old(streams) && !goAwaySent ==>
                Took(old(streams), old(bodies), streams, bodies, f.streamId, DataOf(f).value, EndStream(f))
    {
      hide Always;
      hide Received;
      hide CollectOk;
      hide StreamsOk;
      hide Opened;
      hide GoAways;
      hide Reacted;
      hide Took;
      hide Content;
      hide HasFlag;
      Standing(f);
      var sid := f.streamId;
      if sid == 0 {
        ok := SendGoAway(PROTOCOL_ERROR);
        return;
      }
      if sid !in streams {
        if sid <= lastStreamId {
          ok := SendPlain(SentRst(sid, STREAM_CLOSED));
        } else {
          ok := SendGoAway(PROTOCOL_ERROR);
        }
        return;
      }
      if DataOf(f).None? {
        ok := SendGoAway(PROTOCOL_ERROR);
        return;
      }
      ok := TakeData(f, DataOf(f).value);
    }

    /** All streams but one are as between frames. */
    ghost predicate OthersCurrent(sid: nat)
      requires forall id | id in bodies :: bodies[id].at <= |processed|
      reads this
    {
      forall id | id in streams && id in bodies && id != sid :: IsCurrent(bodies[id], streams[id], id, processed)
    }

    lemma DataReceived(f: Frame)
      requires Received(f) && f.kind == Data && f.streamId in streams && f.streamId in bodies
      ensures Always() && !goAwaySent && !failed && collecting == 0
      ensures GoAways(sent) == [] && openedIds == Opened(blocks)
      ensures (forall id | id in bodies :: bodies[id].at <= |processed|) && OthersCurrent(f.streamId)
      ensures BodyOk(bodies[f.streamId], f.streamId, processed) && bodies[f.streamId].at < |processed|
      ensures processed == processed[..|processed| - 1] + [f]
      ensures IsCurrent(bodies[f.streamId], streams[f.streamId], f.streamId, processed[..|processed| - 1])
    {
      hide IsCurrent;
      hide IsReader;
      hide IsOver;
      hide Arrived;
      hide IdsOk;
      hide BlocksOk;
      hide Opened;
      hide FlowOk;
      hide GoAways;
      hide CollectOk;
    }

    lemma DataDone(sid: nat)
      requires Always() && !goAwaySent && !failed && collecting == 0 && sid in streams && sid in bodies
      requires openedIds == Opened(blocks)
      requires (forall id | id in bodies :: bodies[id].at <= |processed|) && OthersCurrent(sid)
      requires IsCurrent(bodies[sid], streams[sid], sid, processed)
      ensures Between()
    {
      hide IsCurrent;
      hide Always;
      hide Opened;
    }

    /** The content goes to the stream's reader and is answered by two window updates; the end closes the reader. */
    method TakeData(f: Frame, data: seq<Byte>) returns (ok: bool)
      requires Received(f) && f.kind == Data && DataOf(f) == Some(data)
      requires f.streamId != 0 && f.streamId in streams && f.streamId in bodies
      modifies this`sent, this`failed, this`streams, this`bodies
      ensures Handled(ok)
      ensures Reacted(ToData(old(Now()), f), ok, old(sent), old(blocks))
      ensures ok ==> Took(old(streams), old(bodies), streams, bodies, f.streamId, data, EndStream(f))
    {
      hide Reacted;
      hide Always;
      hide Received;
      hide Between;
      hide IsCurrent;
      hide BodyOk;
      hide GoAways;
      hide Content;
      hide Opened;
      hide Took;
      hide ToData;
      DataReceived(f);
      var sid := f.streamId;
      ghost var before, v := processed[..|processed| - 1], Now();
      TookAs(v, f, data);
      if |data| == 0 || !streams[sid] {
        NoDataTaken(bodies[sid], streams[sid], sid, before, f);
      } else {
        DataTaken(bodies[sid], sid, before, f);
      }
      ok := true;
      if |data| > 0 {
        if !streams[sid] {
          ok := SendPlain(SentRst(sid, STREAM_CLOSED));
          if ok { DataDone(sid); }
          return;
        }
        ok := Push(sid, data);
        if !ok {
          GaveUp(old(sent), ToData(v, f));
          return;
        }
      }
      if EndStream(f) {
        EndTaken(bodies[sid], sid, processed);
        End(sid);
      }
      DataDone(sid);
      Done(old(sent), if |data| > 0 then [SentWindow(0, |data|), SentWindow(sid, |data|)] else []);
    }

    lemma Done(before: seq<Sent>, answers: seq<Sent>)
      requires !goAwaySent && !failed && sent == before + answers
      ensures Reacted(GoesOn(Now(), answers), true, before, blocks)
    {
    }

    lemma GaveUp(before: seq<Sent>, r: Reaction)
      requires !goAwaySent && failed && r.given == [] && !r.ends
      ensures Reacted(r, false, before, blocks)
    {
    }

    /** The stream's reader is closed. */
    method End(sid: nat)
      requires Always() && sid in bodies && sid in streams && BodyOk(Finished(bodies[sid]), sid, processed)
      modifies this`streams, this`bodies
      ensures Always() && streams == old(streams[sid := false]) && bodies == old(bodies[sid := Finished(bodies[sid])])
    {
      hide IdsOk;
      hide BlocksOk;
      hide Opened;
      hide FlowOk;
      hide BodyOk;
      hide ClosingOk;
      if !failed {
        FlowStays(sent, bodies, sid, Finished(bodies[sid]));
      }
      bodies := bodies[sid := Finished(bodies[sid])];
      streams := streams[sid := false];
      assert streams.Keys == old(streams.Keys);
    }

    /** Data for a stream's reader, and a window update each for the connection and the stream. */
    method Push(sid: nat, data: seq<Byte>) returns (ok: bool)
      requires Always() && !failed && sid in bodies && BodyOk(Grown(bodies[sid], data), sid, processed)
      modifies this`sent, this`failed, this`bodies
      ensures Always() && GoAways(sent) == old(GoAways(sent)) && (ok <==> !failed)
      ensures ok ==> sent == old(sent) + [SentWindow(0, |data|), SentWindow(sid, |data|)]
      ensures bodies == old(bodies[sid := Grown(bodies[sid], data)])
    {
      hide IdsOk;
      hide BlocksOk;
      hide Opened;
      hide FlowOk;
      hide BodyOk;
      hide GoAways;
      WindowsAdded(sent, bodies, sid, data);
      bodies := bodies[sid := Grown(bodies[sid], data)];
      ok := Write(SentWindow(0, |data|));
      if ok {
        ok := Write(SentWindow(sid, |data|));
      }
      assert old(sent) + [SentWindow(0, |data|)] + [SentWindow(sid, |data|)] ==
             old(sent) + [SentWindow(0, |data|), SentWindow(sid, |data|)];
    }

    /** The body of the read loop for one frame. It tells whether the loop goes on. */
    method Process(f: Frame) returns (more: bool, ghost c: Chance)
      requires Valid() && !goAwaySent
      modifies this
      ensures Valid() && processed == old(processed) + [f] && (goAwaySent <==> !more)
      ensures Gives(old(blocks), blocks, f.length <= MAX_FRAME_SIZE && IsStray(f, old(collecting)))
      ensures var r := ReactToAny(old(Now()), f, |processed|, c);
              && Gave(old(blocks), blocks, r.given)
              && (more <==> !r.ends && !failed)
              && (!failed ==> Now() == r.next && sent == old(sent) + r.answers + Farewell(r))
    {
      hide IdsOk;
      hide BlocksOk;
      hide BodiesOk;
      hide FlowOk;
      hide StreamsOk;
      hide CollectOk;
      hide Received;
      hide ReactToAny;
      hide Between;
      StreamsBelow();
      c := HandleAny(f);
      ProgressMade(old(Now()), old(blocks), old(processed), f, c);
      more := !goAwaySent;
    }

    lemma ProgressMade(v: View, blocks: seq<Given>, processed: seq<Frame>, f: Frame, c: Chance)
      requires ProgressOk(v, false, blocks, processed) && forall sid | sid in v.streams :: sid <= v.last
      requires this.processed == processed + [f]
      requires var r := ReactToAny(v, f, |this.processed|, c);
               && Gave(blocks, this.blocks, r.given)
               && (!goAwaySent ==> !r.ends && Now() == r.next)
      ensures ProgressOk(Now(), goAwaySent, this.blocks, this.processed)
    {
      hide ReactToAny;
      hide Advances;
      AdvancesWith(v, ProgressOf(processed), f, |this.processed|, c);
      OneMoreProcessed(processed, f);
      if this.blocks != blocks {
        OneMoreCarried(blocks, this.blocks[|blocks|]);
        assert this.blocks == blocks + [this.blocks[|blocks|]];
      }
    }

    lemma StreamsBelow()
      requires Between()
      ensures forall sid | sid in streams :: sid <= lastStreamId
    {
    }

    /** A frame is refused unread, or read and acted on; what fails is reported. */
    method HandleAny(f: Frame) returns (ghost c: Chance)
      requires Between() && !goAwaySent
      modifies this
      ensures Between() && processed == old(processed) + [f]
      ensures Gives(old(blocks), blocks, f.length <= MAX_FRAME_SIZE && IsStray(f, old(collecting)))
      ensures var r := ReactToAny(old(Now()), f, |processed|, c);
              && Gave(old(blocks), blocks, r.given)
              && (goAwaySent <==> r.ends || failed)
              && (!failed ==> Now() == r.next && sent == old(sent) + r.answers + Farewell(r))
    {
      hide IdsOk;
      hide BlocksOk;
      hide BodiesOk;
      hide FlowOk;
      hide StreamsOk;
      hide CollectOk;
      hide Received;
      hide React;
      c := Chance(Acceptable, 0);
      if f.length > MAX_FRAME_SIZE || (collecting != 0 && f.kind != Continuation) {
        Note(f);
        var _ := SendGoAway(if f.length > MAX_FRAME_SIZE then FRAME_SIZE_ERROR else PROTOCOL_ERROR);
        return;
      }
      Receive(f);
      var ok;
      ok, c := Dispatch(f);
      AgainEnds(old(Now()), f, |processed|, c);
      if !ok {
        var _ := SendGoAway(INTERNAL_ERROR);
      }
    }

    /** A frame that ends the session unread. */
    method Note(f: Frame)
      requires Between() && !goAwaySent
      modifies this`processed
      ensures Always() && processed == old(processed) + [f] && GoAways(sent) == []
    {
      GivenStays(blocks, processed, f);
      BodiesStay(bodies, openedIds, processed, f);
      processed := processed + [f];
    }

    method Dispatch(f: Frame) returns (ok: bool, ghost c: Chance)
      requires Received(f)
      modifies this
      ensures Handled(ok) && processed == old(processed)
      ensures Reacted(React(old(Now()), f, |processed|, c), ok, old(sent), old(blocks))
      ensures Gives(old(blocks), blocks, IsStray(f, old(collecting)))
    {
      hide IdsOk;
      hide BlocksOk;
      hide BodiesOk;
      hide FlowOk;
      hide IsCurrent;
      hide GoAways;
      hide Reacted;
      c := Chance(Acceptable, 0);
      match f.kind
      case Headers => ok, c := HandleHeaders(f);
      case Continuation => ok, c := HandleContinuation(f);
      case Data => ok := HandleData(f);
      case Settings => ok := HandleSettings(f);
      case WindowUpdate => ok := HandleWindowUpdate(f);
      case Ping => ok := HandlePing(f);
      case RstStream => ok := HandleRst(f);
      case GoAway => ok := HandleGoAway(f);
      case Priority => ok := HandlePriority(f);
      case PushPromise => ok := HandlePushPromise(f);
      case Unknown =>
        ok := true;
        NothingDone();
    }

    method HandleGoAway(f: Frame) returns (ok: bool)
      requires Received(f) && f.kind == GoAway
      modifies this`goAwaySent
      ensures Handled(ok)
      ensures Reacted(React(old(Now()), f, |processed|, Chance(Acceptable, 0)), ok, old(sent), old(blocks))
    {
      hide IdsOk;
      hide BlocksOk;
      hide BodiesOk;
      hide FlowOk;
      hide GoAways;
      hide Opened;
      goAwaySent := true;
      ok := true;
      assert sent + [] == sent;
    }

    method HandlePushPromise(f: Frame) returns (ok: bool)
      requires Received(f) && f.kind == PushPromise
      modifies this`goAwaySent, this`sent, this`failed
      ensures Handled(ok)
      ensures Reacted(React(old(Now()), f, |processed|, Chance(Acceptable, 0)), ok, old(sent), old(blocks))
    {
      hide Always;
      hide Received;
      hide CollectOk;
      hide StreamsOk;
      hide Opened;
      hide GoAways;
      hide Reacted;
      Standing(f);
      ok := SendGoAway(PROTOCOL_ERROR);
      ok := false;
    }

    lemma NothingDone()
      requires !goAwaySent && !failed
      ensures Reacted(GoesOn(Now(), []), true, sent, blocks)
    {
      assert sent + [] == sent;
    }

    /** A request handler is done, and its stream is dropped. */
    method StreamEnds(sid: nat)
      requires Valid()
      modifies this`streams
      ensures Valid() && streams == old(streams) - {sid}
    {
      hide Always;
      hide CollectOk;
      hide BodyOk;
      hide IsCurrent;
      hide Opened;
      hide ProgressOk;
      SameProgress(Now(), Now().(streams := streams - {sid}), goAwaySent, blocks, processed);
      BodiesBegun();
      DropStream(sid);
    }

    lemma BodiesBegun()
      requires Always()
      ensures forall sid | sid in bodies :: bodies[sid].at <= |processed|
    {
    }

    /** A request handler writes a frame of a response, or resets its stream; the write may fail. */
    method Respond(o: Sent, written: bool)
      requires Valid() && (o.SentResponse? || o.SentRst?)
      modifies this`sent
      ensures Valid() && sent == if written then old(sent) + [o] else old(sent)
    {
      hide IdsOk;
      hide BlocksOk;
      hide BodiesOk;
      hide StreamsOk;
      hide CollectOk;
      hide GoAways;
      hide FlowOk;
      hide ClosingOk;
      hide ProgressOk;
      PlainCloses(goAwaySent, sent, lastStreamId, o);
      if !failed {
        PlainFlows(sent, bodies, o);
      }
      if written {
        sent := sent + [o];
      }
    }

    /** A request handler reads from its body, and has something to read or the end. */
    method ReadBody(sid: nat, len: nat) returns (bytes: seq<Byte>)
      requires Valid() && sid in bodies && CanRead(bodies[sid].reader)
      modifies this`bodies
      ensures Valid() && bodies.Keys == old(bodies.Keys)
              && bodies[sid].reader.taken == old(bodies[sid].reader.taken) + bytes
      ensures forall id | id in bodies && id != sid :: bodies[id] == old(bodies[id])
      ensures bodies[sid].reader.taken <= Arrived(bodies[sid], sid, processed) && |bytes| <= len
      ensures len > 0 && bytes == [] ==>
                IsOver(bodies[sid], sid, processed) && bodies[sid].reader.taken == Arrived(bodies[sid], sid, processed)
    {
      hide IdsOk;
      hide BlocksOk;
      hide Opened;
      hide FlowOk;
      hide BodyOk;
      hide ReadSome;
      hide ClosingOk;
      hide CollectOk;
      hide ProgressOk;
      hide IsReader;
      BodyRead(bodies[sid], sid, processed, len);
      var (r, bytes') := ReadSome(bodies[sid].reader, len);
      bytes := bytes';
      if !failed {
        FlowStays(sent, bodies, sid, bodies[sid].(reader := r));
      }
      SameProgress(Now(), Now().(bodies := bodies[sid := bodies[sid].(reader := r)]), goAwaySent, blocks, processed);
      bodies := bodies[sid := bodies[sid].(reader := r)];
    }

    /** Any number of streams end, bodies are read from and responses go out, in any order. */
    method HandlersRun()
      requires Valid()
      modifies this`sent, this`streams, this`bodies
      ensures Valid()
    {
      hide Valid;
      var ids: seq<(nat, nat, bool)> := *;
      for i := 0 to |ids|
        invariant Valid()
      {
        var (sid, n, written) := ids[i];
        if * {
          StreamEnds(sid);
        } else if * {
          Respond(SentResponse(sid), written);
        } else if * {
          Respond(SentRst(sid, INTERNAL_ERROR), written);
        } else if sid in bodies && CanRead(bodies[sid].reader) {
          var bytes := ReadBody(sid, n);
        }
      }
    }

    lemma RunResult()
      requires Valid()
      ensures forall i, j | 0 <= i < j < |openedIds| && openedIds[i] == openedIds[j] :: openedIds[i] == 0
      ensures forall g, sid | g in blocks :: IsHeaderRun(sid, g.frames, true) <==> sid == g.sid && sid != 0
      ensures forall i, j, k | 0 <= i < j < k < |sent| ::
                !(sent[i].SentGoAway? && sent[j].SentGoAway? && sent[k].SentGoAway?)
      ensures openedIds == Opened(blocks) && Carried(blocks) == ProgressOf(processed).given
      ensures forall sid | sid in bodies :: sid in openedIds && bodies[sid].at <= |processed|
      ensures forall sid | sid in bodies :: bodies[sid].reader.taken <= Arrived(bodies[sid], sid, processed)
      ensures (!goAwaySent ==> !failed) && (!failed ==> Windows(sent, 0) == Total(bodies))
    {
      hide Concat;
      Consequences(goAwaySent, sent, lastStreamId, blocks, processed);
    }

    /**
     The whole run, over any frames, with handlers at work in between: `flags` tells for each frame
     whether the GOAWAY flag was set before it.
     */
    method Run(frames: seq<Frame>) returns (ghost flags: seq<bool>)
      requires Valid() && !goAwaySent && processed == []
      modifies this
      ensures Valid() && processed <= frames && (processed < frames ==> goAwaySent)
      ensures |flags| == |processed| && forall i | 0 <= i < |flags| :: !flags[i]
      ensures forall i, j | 0 <= i < j < |openedIds| && openedIds[i] == openedIds[j] :: openedIds[i] == 0
      ensures forall g, sid | g in blocks :: IsHeaderRun(sid, g.frames, true) <==> sid == g.sid && sid != 0
      ensures forall i, j, k | 0 <= i < j < k < |sent| ::
                !(sent[i].SentGoAway? && sent[j].SentGoAway? && sent[k].SentGoAway?)
      ensures openedIds == Opened(blocks) && Carried(blocks) == ProgressOf(processed).given
      ensures forall sid | sid in bodies :: sid in openedIds && bodies[sid].at <= |processed|
      ensures forall sid | sid in bodies :: bodies[sid].reader.taken <= Arrived(bodies[sid], sid, processed)
      ensures (!goAwaySent ==> !failed) && (!failed ==> Windows(sent, 0) == Total(bodies))
    {
      hide Valid;
      var i, more := 0, true;
      flags := [];
      while more && i < |frames|
        invariant Valid() && i <= |frames| && processed == frames[..i] && (more <==> !goAwaySent)
        invariant |flags| == i && forall k | 0 <= k < i :: !flags[k]
      {
        HandlersRun();
        flags := flags + [goAwaySent];
        ghost var c;
        more, c := Process(frames[i]);
        i := i + 1;
      }
      HandlersRun();
      RunResult();
    }
  }
}
