/** The receiving half of a media session: what src/media/MediaManager.cpp keeps per session and how one
    RTP packet changes it. The imperative receiver in MediaManager is proved against these functions. */
module MediaSessions {
  import opened Common
  import opened RtpPackets
  import PS = ProgramStreams
  import ES = ElementaryStreams
  import opened Text

  datatype MediaFrame = MediaFrame(
    sessionId: string,
    peerId: string,
    codec: ES.VideoCodec,
    timestamp: uint32,
    packets: nat,
    keyFrame: bool,
    data: seq<byte>)

  datatype ReceiveError =
    | SessionNotFound | InvalidRtpPacket | SsrcMismatch
    | InvalidPsPayload | InvalidElementaryStream | MixedVideoCodecs | SinkFailed

  datatype NalTotals = NalTotals(
    nalUnits: nat, h264NalUnits: nat, h265NalUnits: nat,
    h264Sps: nat, h264Pps: nat, h264Idr: nat, h265Vps: nat, h265Sps: nat, h265Pps: nat, h265Idr: nat)
  {
    function Plus(t: NalTotals): NalTotals {
      NalTotals(nalUnits + t.nalUnits, h264NalUnits + t.h264NalUnits, h265NalUnits + t.h265NalUnits,
                h264Sps + t.h264Sps, h264Pps + t.h264Pps, h264Idr + t.h264Idr,
                h265Vps + t.h265Vps, h265Sps + t.h265Sps, h265Pps + t.h265Pps, h265Idr + t.h265Idr)
    }
  }

  const NO_TOTALS := NalTotals(0, 0, 0, 0, 0, 0, 0, 0, 0, 0)

  datatype Counters = Counters(
    receivedRtpPackets: nat,
    receivedRtpBytes: nat,
    receivedPayloadBytes: nat,
    outOfOrderRtpPackets: nat,
    incompleteRtpPayloads: nat,
    receivedPsPacks: nat,
    receivedPesPackets: nat,
    receivedVideoPesPackets: nat,
    receivedAudioPesPackets: nat,
    receivedPsPayloadBytes: nat,
    nals: NalTotals,
    completedVideoFrames: nat)

  /** The payload being reassembled. */
  datatype PayloadBuffer = PayloadBuffer(has: bool, timestamp: uint32, packets: nat, bytes: nat, data: seq<byte>)
  {
    predicate Valid() {
      bytes == |data| && (!has ==> data == [] && packets == 0)
    }
  }

  /** The frame not yet taken by the sink. */
  datatype FrameBuffer = FrameBuffer(
    has: bool, timestamp: uint32, packets: nat, bytes: nat, codec: ES.VideoCodec, key: bool, data: seq<byte>)
  {
    predicate Valid() {
      bytes == |data| && (has <==> data != []) && (!has ==> packets == 0 && !key)
    }
  }

  datatype LastFrame = LastFrame(bytes: nat, packets: nat, codec: ES.VideoCodec, key: bool)

  datatype LastRtp = LastRtp(has: bool, sequenceNumber: uint16, timestamp: uint32, ssrc: uint32)

  datatype Stream = Stream(
    counters: Counters, lastRtp: LastRtp, payload: PayloadBuffer, frame: FrameBuffer, lastFrame: LastFrame)
  {
    predicate Valid() { payload.Valid() && frame.Valid() }
  }

  const EMPTY_PAYLOAD := PayloadBuffer(false, 0, 0, 0, [])
  const IDLE_STREAM := Stream(
    Counters(0, 0, 0, 0, 0, 0, 0, 0, 0, 0, NO_TOTALS, 0), LastRtp(false, 0, 0, 0), EMPTY_PAYLOAD,
    FrameBuffer(false, 0, 0, 0, ES.UnknownCodec, false, []), LastFrame(0, 0, ES.UnknownCodec, false))

  // ---------------------------------------------------------------- taking in a packet

  /** Sequence bookkeeping and byte counts. */
  function CountPacket(s: Stream, p: RtpPacket, wireBytes: nat): Stream {
    var late := s.lastRtp.has && p.sequenceNumber != (s.lastRtp.sequenceNumber + 1) % 0x1_0000;
    s.(lastRtp := LastRtp(true, p.sequenceNumber, p.timestamp, p.ssrc),
       counters := s.counters.(
         outOfOrderRtpPackets := s.counters.outOfOrderRtpPackets + if late then 1 else 0,
         receivedRtpPackets := s.counters.receivedRtpPackets + 1,
         receivedRtpBytes := s.counters.receivedRtpBytes + wireBytes,
         receivedPayloadBytes := s.counters.receivedPayloadBytes + |p.payload|))
  }

  /** A payload left open under another timestamp is given up. */
  function DropStale(s: Stream, timestamp: uint32): Stream {
    if s.payload.has && s.payload.timestamp != timestamp then
      s.(payload := EMPTY_PAYLOAD,
         counters := s.counters.(incompleteRtpPayloads := s.counters.incompleteRtpPayloads + 1))
    else s
  }

  function Append(s: Stream, p: RtpPacket): Stream {
    var timestamp := if s.payload.has then s.payload.timestamp else p.timestamp;
    s.(payload := PayloadBuffer(true, timestamp, s.payload.packets + 1, s.payload.bytes + |p.payload|,
                                s.payload.data + p.payload))
  }

  function Absorb(s: Stream, p: RtpPacket, wireBytes: nat): Stream {
    Append(DropStale(CountPacket(s, p, wireBytes), p.timestamp), p)
  }

  // ---------------------------------------------------------------- inspecting a complete payload

  datatype Video = Video(codec: ES.VideoCodec, key: bool, data: seq<byte>, nals: NalTotals)

  const NO_VIDEO := Video(ES.UnknownCodec, false, [], NO_TOTALS)

  function TotalsOf(info: ES.ElementaryStreamInfo): NalTotals {
    match info.codec
    case UnknownCodec => NO_TOTALS.(nalUnits := info.nalUnits)
    case H264 => NalTotals(info.nalUnits, info.nalUnits, 0, info.h264Sps, info.h264Pps, info.h264Idr, 0, 0, 0, 0)
    case H265 => NalTotals(info.nalUnits, 0, info.nalUnits, 0, 0, 0, info.h265Vps, info.h265Sps, info.h265Pps, info.h265Idr)
  }

  /** The parser's key-frame verdict: an IDR unit of the stream's own codec. */
  predicate IsKey(info: ES.ElementaryStreamInfo) {
    (info.codec == ES.H264 && info.h264Idr > 0) || (info.codec == ES.H265 && info.h265Idr > 0)
  }

  function AddVideo(video: Video, payload: seq<byte>, info: ES.ElementaryStreamInfo): Video {
    Video(info.codec, video.key || IsKey(info), video.data + payload, video.nals.Plus(TotalsOf(info)))
  }

  datatype Gathered = Gathered(video: Video) | Rejected(error: ReceiveError)

  /** One video payload: it must parse and keep to the codec of those before it. */
  function GatherOne(video: Video, payload: seq<byte>, info: Option<ES.ElementaryStreamInfo>): Gathered {
    if info.None? then Rejected(InvalidElementaryStream)
    else if video.codec != ES.UnknownCodec && video.codec != info.value.codec then Rejected(MixedVideoCodecs)
    else Gathered(AddVideo(video, payload, info.value))
  }

  /** All video payloads of one program stream payload, or the first reason to refuse it. */
  function Gather(video: Video, payloads: seq<seq<byte>>): Gathered
    decreases |payloads|
  {
    if payloads == [] then Gathered(video)
    else
      match GatherOne(video, payloads[0], ES.Parse(payloads[0]))
      case Rejected(e) => Rejected(e)
      case Gathered(longer) => Gather(longer, payloads[1..])
  }

  /** The verdict on a complete payload. */
  function Inspect(payload: seq<byte>): Gathered {
    if !PS.Accepted(payload) then Rejected(InvalidPsPayload)
    else Gather(NO_VIDEO, PS.ParseResult(payload).value.videoPayloads)
  }

  // ---------------------------------------------------------------- completing a payload

  function CountPayload(c: Counters, info: PS.ProgramStreamInfo, video: Video): Counters {
    c.(receivedPsPacks := c.receivedPsPacks + info.packHeaders,
       receivedPesPackets := c.receivedPesPackets + info.pesPackets,
       receivedVideoPesPackets := c.receivedVideoPesPackets + info.videoPesPackets,
       receivedAudioPesPackets := c.receivedAudioPesPackets + info.audioPesPackets,
       receivedPsPayloadBytes := c.receivedPsPayloadBytes + info.pesPayloadBytes,
       nals := c.nals.Plus(video.nals))
  }

  function AddToFrame(f: FrameBuffer, video: Video, timestamp: uint32, packets: nat): FrameBuffer {
    if video.data == [] then f
    else FrameBuffer(true, timestamp, f.packets + packets, f.bytes + |video.data|, video.codec,
                     f.key || video.key, f.data + video.data)
  }

  /** Who the session is for, and what the sink would answer. */
  datatype Outlet = Outlet(sessionId: string, peerId: string, installed: bool, accepts: bool)

  datatype Received = Received(stream: Stream, error: Option<ReceiveError>, completed: Option<MediaFrame>)

  function Finished(f: FrameBuffer, outlet: Outlet): MediaFrame {
    MediaFrame(outlet.sessionId, outlet.peerId, f.codec, f.timestamp, f.packets, f.key, f.data)
  }

  /** Offer the frame to the sink; a frame the sink refuses stays for the next try. */
  function Deliver(s: Stream, outlet: Outlet): Received {
    if s.frame.has && s.frame.bytes > 0 then
      if outlet.installed && !outlet.accepts then Received(s, Some(SinkFailed), None)
      else
        Received(s.(frame := FrameBuffer(false, s.frame.timestamp, 0, 0, ES.UnknownCodec, false, []),
                    lastFrame := LastFrame(s.frame.bytes, s.frame.packets, s.frame.codec, s.frame.key),
                    counters := s.counters.(completedVideoFrames := s.counters.completedVideoFrames + 1)),
                 None, Some(Finished(s.frame, outlet)))
    else Received(s, None, None)
  }

  /** An accepted payload is counted, its video joins the frame, and the frame is offered. */
  function Settle(s: Stream, timestamp: uint32, packets: nat, info: PS.ProgramStreamInfo, video: Video, outlet: Outlet): Received {
    Deliver(s.(counters := CountPayload(s.counters, info, video),
               frame := AddToFrame(s.frame, video, timestamp, packets)), outlet)
  }

  function Complete(s: Stream, timestamp: uint32, outlet: Outlet): Received {
    var cleared := s.(payload := EMPTY_PAYLOAD);
    match Inspect(s.payload.data)
    case Rejected(e) => Received(cleared, Some(e), None)
    case Gathered(video) =>
      Settle(cleared, timestamp, s.payload.packets, PS.ParseResult(s.payload.data).value, video, outlet)
  }

  /** One packet of the session's own stream. */
  function Receive(s: Stream, p: RtpPacket, wireBytes: nat, outlet: Outlet): Received {
    var absorbed := Absorb(s, p, wireBytes);
    if p.marker then Complete(absorbed, p.timestamp, outlet) else Received(absorbed, None, None)
  }

  lemma {:induction false} GatherGrows(video: Video, payloads: seq<seq<byte>>)
    requires Gather(video, payloads).Gathered?
    ensures Gather(video, payloads).video.data == video.data + Flatten(payloads)
    decreases |payloads|
  {
    if payloads == [] {
      assert video.data + [] == video.data;
    } else {
      var next := AddVideo(video, payloads[0], ES.Parse(payloads[0]).value);
      GatherGrows(next, payloads[1..]);
      ConcatAssoc(video.data, payloads[0], Flatten(payloads[1..]));
    }
  }

  /** The buffers stay consistent with their counters whatever arrives and whatever the sink answers. */
  lemma {:induction false} ReceiveKeepsValid(s: Stream, p: RtpPacket, wireBytes: nat, outlet: Outlet)
    requires s.Valid()
    ensures Receive(s, p, wireBytes, outlet).stream.Valid()
  {
  }

  // ---------------------------------------------------------------- runs

  datatype Arrival = Arrival(packet: RtpPacket, wireBytes: nat, outlet: Outlet)

  datatype RunResult = RunResult(stream: Stream, completed: seq<MediaFrame>)

  function Run(s: Stream, arrivals: seq<Arrival>): RunResult {
    if arrivals == [] then RunResult(s, [])
    else
      var before := Run(s, arrivals[..|arrivals| - 1]);
      var a := arrivals[|arrivals| - 1];
      var after := Receive(before.stream, a.packet, a.wireBytes, a.outlet);
      RunResult(after.stream, before.completed + if after.completed.Some? then [after.completed.value] else [])
  }

  function Arrived(arrivals: seq<Arrival>): seq<RtpPacket> {
    if arrivals == [] then [] else Arrived(arrivals[..|arrivals| - 1]) + [arrivals[|arrivals| - 1].packet]
  }

  // ---------------------------------------------------------------- what a run should deliver

  /** A maximal group of consecutive packets that belong to one payload. */
  type Segment = s: seq<RtpPacket> | s != [] witness [RtpPacket(false, 0, 0, 0, 0, [])]

  predicate Closed(segment: Segment) { segment[|segment| - 1].marker }

  predicate SamePayload(segment: Segment) {
    && (forall i :: 0 <= i < |segment| ==> segment[i].timestamp == segment[0].timestamp)
    && (forall i :: 0 <= i < |segment| - 1 ==> !segment[i].marker)
  }

  /** Each piece is of one payload, and neighbours are cut apart by a marker or a new timestamp. */
  ghost predicate WellCut(segments: seq<Segment>) {
    && (forall s <- segments :: SamePayload(s))
    && (forall i :: 0 <= i < |segments| - 1 ==>
          Closed(segments[i]) || segments[i + 1][0].timestamp != segments[i][0].timestamp)
  }

  /** The packets cut after every marker and wherever the timestamp changes, and nowhere else. */
  ghost predicate IsSegmentation(segments: seq<Segment>, packets: seq<RtpPacket>) {
    Flatten(segments) == packets && WellCut(segments)
  }

  function Segments(packets: seq<RtpPacket>): seq<Segment> {
    if packets == [] then [] else Extend(Segments(packets[..|packets| - 1]), packets[|packets| - 1])
  }

  function Extend(segments: seq<Segment>, p: RtpPacket): seq<Segment> {
    if segments != [] && Continues(segments[|segments| - 1], p) then
      segments[..|segments| - 1] + [segments[|segments| - 1] + [p]]
    else
      segments + [[p]]
  }

  predicate Continues(segment: Segment, p: RtpPacket) {
    !Closed(segment) && segment[0].timestamp == p.timestamp
  }

  lemma {:induction false} SegmentsAreSegmentation(packets: seq<RtpPacket>)
    ensures IsSegmentation(Segments(packets), packets)
  {
    if packets != [] {
      var p := packets[|packets| - 1];
      var init := Segments(packets[..|packets| - 1]);
      SegmentsAreSegmentation(packets[..|packets| - 1]);
      assert packets == packets[..|packets| - 1] + [p];
      ExtendKeepsSegmentation(init, packets[..|packets| - 1], p);
    }
  }

  lemma {:induction false} LongerSamePayload(last: Segment, p: RtpPacket)
    requires SamePayload(last) && Continues(last, p)
    ensures SamePayload(last + [p]) && (last + [p])[0] == last[0]
  {
    var longer: Segment := last + [p];
    assert forall i :: 0 <= i < |last| ==> longer[i] == last[i];
  }

  lemma {:induction false} ExtendKeepsSegmentation(init: seq<Segment>, packets: seq<RtpPacket>, p: RtpPacket)
    requires IsSegmentation(init, packets)
    ensures IsSegmentation(Extend(init, p), packets + [p])
  {
    if init != [] && Continues(init[|init| - 1], p) {
      var front, last := init[..|init| - 1], init[|init| - 1];
      assert init == front + [last];
      FlattenSnoc(front, last);
      FlattenSnoc(front, last + [p]);
      assert Flatten(front) + (last + [p]) == (Flatten(front) + last) + [p];
      LongerSamePayload(last, p);
      LongerLast(front, last, last + [p]);
    } else {
      FlattenSnoc(init, [p]);
      NewLast(init, [p]);
    }
  }

  lemma {:induction false} LongerLast(front: seq<Segment>, last: Segment, longer: Segment)
    requires WellCut(front + [last]) && SamePayload(longer) && longer[0] == last[0]
    ensures WellCut(front + [longer])
  {
    var before, after := front + [last], front + [longer];
    assert forall s <- front :: s in before;
    forall i | 0 <= i < |after| - 1
      ensures Closed(after[i]) || after[i + 1][0].timestamp != after[i][0].timestamp
    {
      assert after[i] == before[i] && after[i + 1][0] == before[i + 1][0];
    }
  }

  lemma {:induction false} NewLast(init: seq<Segment>, last: Segment)
    requires WellCut(init) && SamePayload(last)
    requires init != [] ==> Closed(init[|init| - 1]) || last[0].timestamp != init[|init| - 1][0].timestamp
    ensures WellCut(init + [last])
  {
    var after := init + [last];
    assert forall i :: 0 <= i < |init| ==> after[i] == init[i];
    forall i | 0 <= i < |after| - 1
      ensures Closed(after[i]) || after[i + 1][0].timestamp != after[i][0].timestamp
    {
      assert i < |init| - 1 ==> after[i + 1] == init[i + 1];
    }
  }

  function PayloadOf(segment: Segment): seq<byte> {
    Flatten(Payloads(segment))
  }

  /** The video bytes a payload contributes: all of them or none. */
  function VideoBytes(segment: Segment): seq<byte> {
    match Inspect(PayloadOf(segment))
    case Gathered(video) => video.data
    case Rejected(_) => []
  }

  function SettledVideo(segments: seq<Segment>): seq<byte> {
    if segments == [] then []
    else
      var last := segments[|segments| - 1];
      SettledVideo(segments[..|segments| - 1]) + if Closed(last) then VideoBytes(last) else []
  }

  function ClosedBytes(segments: seq<Segment>): nat {
    if segments == [] then 0
    else
      var last := segments[|segments| - 1];
      ClosedBytes(segments[..|segments| - 1]) + if Closed(last) then |PayloadOf(last)| else 0
  }

  function OpenBytes(segments: seq<Segment>): nat {
    if segments == [] then 0
    else
      var last := segments[|segments| - 1];
      OpenBytes(segments[..|segments| - 1]) + if Closed(last) then 0 else |PayloadOf(last)|
  }

  function OpenCount(segments: seq<Segment>): nat {
    if segments == [] then 0
    else OpenCount(segments[..|segments| - 1]) + if Closed(segments[|segments| - 1]) then 0 else 1
  }

  /** The segments already decided: all but an open last one. */
  function Settled(segments: seq<Segment>): seq<Segment> {
    if segments != [] && !Closed(segments[|segments| - 1]) then segments[..|segments| - 1] else segments
  }

  function FrameData(frames: seq<MediaFrame>): seq<byte> {
    if frames == [] then [] else FrameData(frames[..|frames| - 1]) + frames[|frames| - 1].data
  }

  /** The reassembly buffer is the payload of the open segment, if there is one. */
  ghost predicate BufferIsOpenSegment(b: PayloadBuffer, segments: seq<Segment>) {
    && b.Valid()
    && (b.has <==> segments != [] && !Closed(segments[|segments| - 1]))
    && (b.has ==>
          var last := segments[|segments| - 1];
          b.timestamp == last[0].timestamp && b.packets == |last| && b.data == PayloadOf(last))
  }

  ghost predicate Accounted(r: RunResult, segments: seq<Segment>) {
    && r.stream.frame.Valid()
    && BufferIsOpenSegment(r.stream.payload, segments)
    && r.stream.counters.receivedPayloadBytes ==
         ClosedBytes(segments) + OpenBytes(Settled(segments)) + r.stream.payload.bytes
    && r.stream.counters.incompleteRtpPayloads == OpenCount(Settled(segments))
    && FrameData(r.completed) + r.stream.frame.data == SettledVideo(segments)
    && r.stream.counters.completedVideoFrames == |r.completed|
  }

  // ---------------------------------------------------------------- conservation over runs

  function Init(segments: seq<Segment>): seq<Segment>
    requires segments != []
  {
    segments[..|segments| - 1]
  }

  function Last(segments: seq<Segment>): Segment
    requires segments != []
  {
    segments[|segments| - 1]
  }

  /** The buffer holds this segment, decided or not. */
  ghost predicate Holds(b: PayloadBuffer, segment: Segment) {
    b.has && b.Valid() && b.timestamp == segment[0].timestamp && b.packets == |segment| && b.data == PayloadOf(segment)
  }

  /** Everything before the last segment is accounted for and the last one is in the buffer. */
  ghost predicate Absorbed(s: Stream, completed: seq<MediaFrame>, segments: seq<Segment>)
    requires segments != []
  {
    && s.frame.Valid() && Holds(s.payload, Last(segments))
    && s.counters.receivedPayloadBytes ==
         ClosedBytes(Init(segments)) + OpenBytes(Init(segments)) + s.payload.bytes
    && s.counters.incompleteRtpPayloads == OpenCount(Init(segments))
    && FrameData(completed) + s.frame.data == SettledVideo(Init(segments))
    && s.counters.completedVideoFrames == |completed|
  }

  lemma {:induction false} PayloadOfSnoc(segment: seq<RtpPacket>, p: RtpPacket)
    ensures Flatten(Payloads(segment + [p])) == Flatten(Payloads(segment)) + p.payload
  {
    assert Payloads(segment + [p]) == Payloads(segment) + [p.payload];
    FlattenSnoc(Payloads(segment), p.payload);
  }

  lemma {:induction false} AbsorbAccounts(r: RunResult, segments: seq<Segment>, p: RtpPacket, wireBytes: nat)
    requires Accounted(r, segments)
    ensures Absorbed(Absorb(r.stream, p, wireBytes), r.completed, Extend(segments, p))
  {
    var extended := Extend(segments, p);
    if segments != [] && Continues(Last(segments), p) {
      assert Init(extended) == Init(segments) == Settled(segments);
      PayloadOfSnoc(Last(segments), p);
    } else {
      assert Init(extended) == segments;
      PayloadOfSnoc([], p);
      assert [] + [p] == [p];
    }
  }

  lemma {:induction false} FrameDataSnoc(frames: seq<MediaFrame>, frame: MediaFrame)
    ensures FrameData(frames + [frame]) == FrameData(frames) + frame.data
  {
    assert (frames + [frame])[..|frames + [frame]| - 1] == frames;
  }

  /** Delivering moves the held bytes to the completed frames or leaves them where they are. */
  lemma {:induction false} DeliverConserves(s: Stream, completed: seq<MediaFrame>, outlet: Outlet)
    requires s.frame.Valid() && s.counters.completedVideoFrames == |completed|
    ensures var d := Deliver(s, outlet);
            var frames := completed + if d.completed.Some? then [d.completed.value] else [];
            && d.stream.frame.Valid() && d.stream.payload == s.payload
            && d.stream.counters.(completedVideoFrames := 0) == s.counters.(completedVideoFrames := 0)
            && d.stream.counters.completedVideoFrames == |frames|
            && FrameData(frames) + d.stream.frame.data == FrameData(completed) + s.frame.data
  {
    if Deliver(s, outlet).completed.Some? {
      FrameDataSnoc(completed, Finished(s.frame, outlet));
    } else {
      assert completed + [] == completed;
    }
  }

  lemma {:induction false} CompleteConserves(s: Stream, completed: seq<MediaFrame>, segment: Segment, timestamp: uint32, outlet: Outlet)
    requires s.frame.Valid() && Holds(s.payload, segment) && s.counters.completedVideoFrames == |completed|
    ensures var d := Complete(s, timestamp, outlet);
            var frames := completed + if d.completed.Some? then [d.completed.value] else [];
            && d.stream.frame.Valid() && d.stream.payload == EMPTY_PAYLOAD
            && d.stream.counters.receivedPayloadBytes == s.counters.receivedPayloadBytes
            && d.stream.counters.incompleteRtpPayloads == s.counters.incompleteRtpPayloads
            && d.stream.counters.completedVideoFrames == |frames|
            && FrameData(frames) + d.stream.frame.data == FrameData(completed) + s.frame.data + VideoBytes(segment)
  {
    var cleared := s.(payload := EMPTY_PAYLOAD);
    match Inspect(s.payload.data)
    case Rejected(_) =>
      assert completed + [] == completed;
    case Gathered(video) =>
      var counted := cleared.(counters := CountPayload(cleared.counters, PS.ParseResult(s.payload.data).value, video),
                              frame := AddToFrame(cleared.frame, video, timestamp, s.payload.packets));
      DeliverConserves(counted, completed, outlet);
      assert counted.frame.data == s.frame.data + video.data;
      ConcatAssoc(FrameData(completed), s.frame.data, video.data);
  }

  lemma {:induction false} ReceiveAccounts(r: RunResult, segments: seq<Segment>, a: Arrival)
    requires Accounted(r, segments)
    ensures var d := Receive(r.stream, a.packet, a.wireBytes, a.outlet);
            Accounted(RunResult(d.stream, r.completed + if d.completed.Some? then [d.completed.value] else []),
                      Extend(segments, a.packet))
  {
    var extended := Extend(segments, a.packet);
    AbsorbAccounts(r, segments, a.packet, a.wireBytes);
    var absorbed := Absorb(r.stream, a.packet, a.wireBytes);
    assert Last(extended)[|Last(extended)| - 1] == a.packet;
    if a.packet.marker {
      CompleteConserves(absorbed, r.completed, Last(extended), a.packet.timestamp, a.outlet);
      assert Settled(extended) == extended;
    } else {
      assert Settled(extended) == Init(extended);
      assert r.completed + [] == r.completed;
    }
  }

  /** Over every run, with the sink failing wherever it likes: the completed frames and the frame still held
      carry exactly the video of the payloads decided so far, in order; the payload byte counter splits into
      bytes closed by a marker, bytes given up on a timestamp change and bytes still buffered; and the buffer
      is the open segment. */
  lemma {:induction false} RunConserves(arrivals: seq<Arrival>)
    ensures Accounted(Run(IDLE_STREAM, arrivals), Segments(Arrived(arrivals)))
  {
    if arrivals != [] {
      var a := arrivals[|arrivals| - 1];
      var before := arrivals[..|arrivals| - 1];
      RunConserves(before);
      assert Arrived(arrivals)[..|Arrived(arrivals)| - 1] == Arrived(before);
      ReceiveAccounts(Run(IDLE_STREAM, before), Segments(Arrived(before)), a);
    }
  }

  // ---------------------------------------------------------------- datagrams

  /** The session takes packets of any SSRC until one is agreed, then only those whose SSRC prints as agreed. */
  predicate SsrcMatches(ssrc: string, packet: RtpPacket) {
    ssrc == "" || ssrc == Decimal(packet.ssrc)
  }

  function ReceiveDatagram(ssrc: string, s: Stream, bytes: seq<byte>, outlet: Outlet): Received {
    match Decode(bytes)
    case None => Received(s, Some(InvalidRtpPacket), None)
    case Some(p) =>
      if !SsrcMatches(ssrc, p) then Received(s, Some(SsrcMismatch), None)
      else Receive(s, p, |bytes|, outlet)
  }

  datatype Datagram = Datagram(bytes: seq<byte>, outlet: Outlet)

  function RunDatagrams(ssrc: string, s: Stream, inputs: seq<Datagram>): RunResult {
    if inputs == [] then RunResult(s, [])
    else
      var before := RunDatagrams(ssrc, s, inputs[..|inputs| - 1]);
      var d := inputs[|inputs| - 1];
      var after := ReceiveDatagram(ssrc, before.stream, d.bytes, d.outlet);
      RunResult(after.stream, before.completed + if after.completed.Some? then [after.completed.value] else [])
  }

  /** The packets of this session's stream among arbitrary datagrams. */
  function Accepted(ssrc: string, inputs: seq<Datagram>): seq<Arrival> {
    if inputs == [] then []
    else
      var d := inputs[|inputs| - 1];
      Accepted(ssrc, inputs[..|inputs| - 1]) +
      match Decode(d.bytes)
      case None => []
      case Some(p) => if SsrcMatches(ssrc, p) then [Arrival(p, |d.bytes|, d.outlet)] else []
  }

  /** Datagrams that are not packets of the stream leave no trace in it. */
  lemma {:induction false} DatagramsRunAsAccepted(ssrc: string, s: Stream, inputs: seq<Datagram>)
    ensures RunDatagrams(ssrc, s, inputs) == Run(s, Accepted(ssrc, inputs))
  {
    if inputs != [] {
      var before := inputs[..|inputs| - 1];
      var d := inputs[|inputs| - 1];
      DatagramsRunAsAccepted(ssrc, s, before);
      var accepted := Accepted(ssrc, before);
      if Decode(d.bytes).Some? && SsrcMatches(ssrc, Decode(d.bytes).value) {
        var a := Arrival(Decode(d.bytes).value, |d.bytes|, d.outlet);
        assert (accepted + [a])[..|accepted|] == accepted;
      } else {
        assert accepted + [] == accepted;
        var r := RunDatagrams(ssrc, s, before);
        assert r.completed + [] == r.completed;
      }
    }
  }

  /** Conservation holds for arbitrary datagrams fed to a fresh session. */
  lemma {:induction false} DatagramRunConserves(ssrc: string, inputs: seq<Datagram>)
    ensures Accounted(RunDatagrams(ssrc, IDLE_STREAM, inputs), Segments(Arrived(Accepted(ssrc, inputs))))
  {
    DatagramsRunAsAccepted(ssrc, IDLE_STREAM, inputs);
    RunConserves(Accepted(ssrc, inputs));
  }

  /** The payload is an elementary stream of the codec. */
  predicate IsOf(payload: seq<byte>, codec: ES.VideoCodec) {
    ES.Parse(payload).Some? && ES.Parse(payload).value.codec == codec
  }

  /** Every payload is an elementary stream, and all have one codec. */
  predicate OneCodec(payloads: seq<seq<byte>>) {
    exists codec :: AllOf(payloads, codec)
  }

  predicate AllOf(payloads: seq<seq<byte>>, codec: ES.VideoCodec) {
    forall i :: 0 <= i < |payloads| ==> IsOf(payloads[i], codec)
  }

  lemma {:induction false} GatheredIffAllOf(video: Video, payloads: seq<seq<byte>>)
    requires video.codec != ES.UnknownCodec
    ensures Gather(video, payloads).Gathered? <==> AllOf(payloads, video.codec)
    decreases |payloads|
  {
    if payloads != [] {
      var first, rest := payloads[0], payloads[1..];
      if IsOf(first, video.codec) {
        var next := AddVideo(video, first, ES.Parse(first).value);
        assert GatherOne(video, first, ES.Parse(first)) == Gathered(next);
        GatheredIffAllOf(next, rest);
        assert forall i :: 0 < i < |payloads| ==> payloads[i] == rest[i - 1];
        assert forall i :: 0 <= i < |rest| ==> rest[i] == payloads[i + 1];
      }
    }
  }

  lemma {:induction false} GatheredIffOneCodec(payloads: seq<seq<byte>>)
    ensures Gather(NO_VIDEO, payloads).Gathered? <==> OneCodec(payloads)
  {
    if payloads == [] {
      assert AllOf(payloads, ES.UnknownCodec);
    } else {
      var first, rest := payloads[0], payloads[1..];
      if ES.Parse(first).Some? {
        var codec := ES.Parse(first).value.codec;
        GatheredIffAllOf(AddVideo(NO_VIDEO, first, ES.Parse(first).value), rest);
        assert forall i :: 0 < i < |payloads| ==> payloads[i] == rest[i - 1];
        assert forall i :: 0 <= i < |rest| ==> rest[i] == payloads[i + 1];
        assert OneCodec(payloads) <==> AllOf(payloads, codec);
      }
    }
  }

  /** A decided payload is taken exactly when the program stream is accepted, each of its video payloads is an
      elementary stream and all have one codec. It then contributes the video payloads, otherwise nothing. */
  lemma {:induction false} VideoBytesMeaning(segment: Segment)
    ensures var payload := PayloadOf(segment);
            Inspect(payload).Gathered? <==>
            PS.Accepted(payload) && OneCodec(PS.ParseResult(payload).value.videoPayloads)
    ensures Inspect(PayloadOf(segment)).Gathered? ==>
              VideoBytes(segment) == Flatten(PS.ParseResult(PayloadOf(segment)).value.videoPayloads)
    ensures Inspect(PayloadOf(segment)).Rejected? ==> VideoBytes(segment) == []
  {
    var payload := PayloadOf(segment);
    if PS.Accepted(payload) {
      GatheredIffOneCodec(PS.ParseResult(payload).value.videoPayloads);
    }
    if Inspect(payload).Gathered? {
      GatherGrows(NO_VIDEO, PS.ParseResult(payload).value.videoPayloads);
    }
  }
}
