/** The media manager of src/media/MediaManager.cpp: every method is proved against the table operations and
    the receive and send functions. */
module MediaManagement {
  import opened Common
  import opened Text
  import opened RtpPackets
  import PS = ProgramStreams
  import ES = ElementaryStreams
  import opened MediaSessions
  import opened MediaTables
  import opened MediaPipeline

  datatype PortRange = PortRange(begin: int, end: int)
  {
    /** The even ports of a usable range. */
    predicate Covers(port: int) {
      begin > 0 && end > 0 && begin <= port <= end && port % 2 == 0
    }
  }

  ghost predicate Ascending(s: seq<int>) {
    forall i, j :: 0 <= i < j < |s| ==> s[i] < s[j]
  }

  /** Insertion into an ordered set. */
  function Insert(ports: seq<int>, port: int): seq<int> {
    if ports == [] || port < ports[0] then [port] + ports
    else if port == ports[0] then ports
    else [ports[0]] + Insert(ports[1..], port)
  }

  lemma {:induction false} InsertMembers(ports: seq<int>, port: int)
    ensures forall x :: x in Insert(ports, port) <==> x in ports || x == port
  {
    if ports != [] && port > ports[0] {
      InsertMembers(ports[1..], port);
      assert ports == [ports[0]] + ports[1..];
    }
  }

  lemma {:induction false} AscendingCons(first: int, rest: seq<int>)
    requires Ascending(rest) && forall x :: x in rest ==> first < x
    ensures Ascending([first] + rest)
  {
    forall i | 0 <= i < |rest| ensures first < rest[i] {
      assert rest[i] in rest;
    }
  }

  lemma {:induction false} InsertOrdered(ports: seq<int>, port: int)
    requires Ascending(ports)
    ensures Ascending(Insert(ports, port))
    ensures forall x :: x in Insert(ports, port) <==> x in ports || x == port
  {
    InsertMembers(ports, port);
    if ports != [] && port > ports[0] {
      InsertOrdered(ports[1..], port);
      AscendingCons(ports[0], Insert(ports[1..], port));
    }
  }

  ghost predicate Covered(ports: seq<int>, endpoints: seq<PortRange>) {
    forall port :: port in ports <==> exists k :: 0 <= k < |endpoints| && endpoints[k].Covers(port)
  }

  /** The even ports of all usable ranges, ordered. */
  method EvenPorts(endpoints: seq<PortRange>) returns (ports: seq<int>)
    ensures Ascending(ports) && Covered(ports, endpoints)
  {
    ports := [];
    for i := 0 to |endpoints|
      invariant Ascending(ports)
      invariant Covered(ports, endpoints[..i])
    {
      var begin, end := endpoints[i].begin, endpoints[i].end;
      assert forall k :: 0 <= k < i ==> endpoints[..i + 1][k] == endpoints[..i][k];
      if begin <= 0 || end <= 0 || begin > end {
        continue;
      }
      if begin % 2 != 0 {
        begin := begin + 1;
      }
      var port := begin;
      ghost var before := ports;
      while port <= end
        invariant port % 2 == 0 && begin <= port
        invariant Ascending(ports)
        invariant forall x :: x in ports <==> x in before || (begin <= x < port && x <= end && x % 2 == 0)
        decreases end - port
      {
        InsertOrdered(ports, port);
        ports := Insert(ports, port);
        port := port + 2;
      }
      assert forall x :: x in ports <==> x in before || endpoints[i].Covers(x);
      CoveredStep(before, ports, endpoints, i);
    }
    assert endpoints[..|endpoints|] == endpoints;
  }

  lemma {:induction false} CoveredStep(before: seq<int>, ports: seq<int>, endpoints: seq<PortRange>, i: nat)
    requires i < |endpoints| && Covered(before, endpoints[..i])
    requires forall x :: x in ports <==> x in before || endpoints[i].Covers(x)
    ensures Covered(ports, endpoints[..i + 1])
  {
    var upto := endpoints[..i + 1];
    assert forall k :: 0 <= k < i ==> upto[k] == endpoints[..i][k];
    forall x | x in ports ensures exists k :: 0 <= k < |upto| && upto[k].Covers(x) {
      if x in before {
        var k :| 0 <= k < i && endpoints[..i][k].Covers(x);
        assert upto[k].Covers(x);
      } else {
        assert upto[i].Covers(x);
      }
    }
    forall k, x | 0 <= k < |upto| && upto[k].Covers(x) ensures x in ports {
      if k < i {
        assert endpoints[..i][k].Covers(x);
      }
    }
  }

  /** What one RTP adapter is asked to send. */
  datatype RtpPayloadPacket = RtpPayloadPacket(payload: seq<byte>, payloadType: PayloadType, marker: bool, timestampIncrement: nat)

  /** A frame's sample cut into adapter packets; only the last has the marker and moves the timestamp. */
  function PayloadPackets(sample: seq<byte>, increment: nat, max: nat): seq<RtpPayloadPacket>
    requires max > 0
    decreases |sample|
  {
    if sample == [] then []
    else if |sample| <= max then [RtpPayloadPacket(sample, 96, true, increment)]
    else [RtpPayloadPacket(sample[..max], 96, false, 0)] + PayloadPackets(sample[max..], increment, max)
  }

  lemma {:induction false} PayloadPacketsStep(sample: seq<byte>, offset: nat, increment: nat, max: nat)
    requires offset < |sample| && max > 0
    ensures var chunkBytes := if |sample| - offset > max then max else |sample| - offset;
            var marker := offset + chunkBytes >= |sample|;
            PayloadPackets(sample[offset..], increment, max) ==
              [RtpPayloadPacket(sample[offset..offset + chunkBytes], 96, marker, if marker then increment else 0)] +
              PayloadPackets(sample[offset + chunkBytes..], increment, max)
  {
    var rest := sample[offset..];
    if |rest| > max {
      assert rest[..max] == sample[offset..offset + max] && rest[max..] == sample[offset + max..];
    } else {
      assert rest == sample[offset..offset + |rest|] && sample[offset + |rest|..] == [];
    }
  }

  /** The adapter path cuts a sample exactly where the datagram path does. */
  lemma {:induction false} SamePackets(sample: seq<byte>, increment: nat, o: PacketizationOptions)
    requires sample != [] && o.maxPayloadBytes > 0
    ensures var sent := PayloadPackets(sample, increment, o.maxPayloadBytes);
            var built := Packets(sample, o);
            && |sent| == |built|
            && forall k :: 0 <= k < |sent| ==> sent[k].payload == built[k].payload && sent[k].marker == built[k].marker
    decreases |sample|
  {
    if |sample| > o.maxPayloadBytes {
      SamePackets(sample[o.maxPayloadBytes..], increment, Next(o));
    }
  }

  class MediaManager {
    var availablePorts: seq<int>
    var availablePortSet: set<int>
    var allocatedPorts: set<int>
    var sessions: map<string, MediaSessionInfo>
    var adapters: set<string>
    var sinkInstalled: bool
    /** What the installed sink has taken. */
    var sinkFrames: seq<MediaFrame>

    function State(): MediaState
      reads this
    {
      MediaState(Pool(availablePorts, availablePortSet, allocatedPorts), sessions, adapters)
    }

    constructor ()
      ensures State() == MediaState(Pool([], {}, {}), map[], {}) && !sinkInstalled && sinkFrames == []
    {
      availablePorts, availablePortSet, allocatedPorts := [], {}, {};
      sessions, adapters := map[], {};
      sinkInstalled, sinkFrames := false, [];
    }

    /** Starts over with the even ports of every usable range, in ascending order, each once. */
    method Configure(endpoints: seq<PortRange>) returns (ok: bool)
      modifies this
      ensures Ascending(availablePorts) && Covered(availablePorts, endpoints)
      ensures Owned(State(), {}) && sessions == map[] && adapters == {} && allocatedPorts == {}
      ensures ok == (availablePorts != [])
      ensures sinkInstalled == old(sinkInstalled) && sinkFrames == old(sinkFrames)
    {
      availablePorts, availablePortSet, allocatedPorts := [], {}, {};
      adapters := {};
      sessions := map[];
      var ports := EvenPorts(endpoints);
      for i := 0 to |ports|
        invariant availablePorts == ports[..i]
        invariant forall port :: port in availablePortSet <==> port in ports[..i]
        invariant allocatedPorts == {} && sessions == map[] && adapters == {}
        invariant sinkInstalled == old(sinkInstalled) && sinkFrames == old(sinkFrames)
      {
        availablePorts := availablePorts + [ports[i]];
        availablePortSet := availablePortSet + {ports[i]};
      }
      assert ports[..|ports|] == ports;
      ok := availablePorts != [];
    }

    /** The next port to hand out; ports no longer available are skipped. */
    method AllocateRtpPort() returns (port: int)
      modifies this`availablePorts, this`availablePortSet, this`allocatedPorts
      ensures State().pool == Allocate(old(State().pool)).pool && port == Allocate(old(State().pool)).port
    {
      while availablePorts != []
        invariant Allocate(State().pool) == Allocate(old(State().pool))
        decreases |availablePorts|
      {
        port := availablePorts[0];
        availablePorts := availablePorts[1..];
        if port !in availablePortSet {
          continue;
        }
        availablePortSet := availablePortSet - {port};
        allocatedPorts := allocatedPorts + {port};
        return port;
      }
      port := 0;
    }

    method ReleaseRtpPort(port: int)
      modifies this`availablePorts, this`availablePortSet, this`allocatedPorts
      ensures State().pool == Release(old(State().pool), port)
    {
      if port <= 0 {
        return;
      }
      if port in allocatedPorts {
        allocatedPorts := allocatedPorts - {port};
        if port !in availablePortSet {
          availablePortSet := availablePortSet + {port};
          availablePorts := availablePorts + [port];
        }
      }
    }

    method CreateMediaSession(session: MediaSessionInfo) returns (ok: bool)
      modifies this`availablePorts, this`availablePortSet, this`allocatedPorts, this`sessions
      ensures Change(State(), ok) == CreateSession(old(State()), session)
    {
      if session.id == "" || session.localRtpPort <= 0 {
        return false;
      }
      if session.localRtpPort !in allocatedPorts {
        return false;
      }
      if session.id in sessions && sessions[session.id].localRtpPort != session.localRtpPort {
        ReleaseRtpPort(sessions[session.id].localRtpPort);
      }
      sessions := sessions[session.id := session];
      ok := true;
    }

    method UpdateMediaSession(session: MediaSessionInfo) returns (ok: bool)
      modifies this`sessions
      ensures Change(State(), ok) == UpdateSession(old(State()), session)
    {
      if session.id !in sessions || session.localRtpPort <= 0 ||
         sessions[session.id].localRtpPort != session.localRtpPort {
        return false;
      }
      sessions := sessions[session.id := session];
      ok := true;
    }

    method UpdateState(id: string, state: string) returns (ok: bool)
      modifies this`sessions
      ensures Change(State(), ok) == UpdateSessionState(old(State()), id, state)
    {
      if id !in sessions {
        return false;
      }
      sessions := sessions[id := sessions[id].(state := state)];
      ok := true;
    }

    method StartRtpSessionAdapter(id: string, starts: bool) returns (ok: bool)
      modifies this`adapters
      ensures Change(State(), ok) == StartAdapter(old(State()), id, starts)
    {
      if id !in sessions {
        return false;
      }
      if id in adapters {
        return false;
      }
      if !starts {
        return false;
      }
      adapters := adapters + {id};
      ok := true;
    }

    method StopRtpSessionAdapter(id: string)
      modifies this`adapters
      ensures State() == StopAdapter(old(State()), id)
    {
      if id !in adapters {
        assert adapters == adapters - {id};
        return;
      }
      adapters := adapters - {id};
    }

    method CloseMediaSession(id: string) returns (ok: bool)
      modifies this`availablePorts, this`availablePortSet, this`allocatedPorts, this`sessions, this`adapters
      ensures Change(State(), ok) == CloseSession(old(State()), id)
    {
      if id !in sessions {
        return false;
      }
      StopRtpSessionAdapter(id);
      ReleaseRtpPort(sessions[id].localRtpPort);
      sessions := sessions - {id};
      ok := true;
    }

    // -------------------------------------------------------------- sending

    method BuildOutboundRtpPackets(sessionId: string, frame: seq<byte>, first: uint16, timestamp: uint32, max: nat)
      returns (packets: Option<seq<seq<byte>>>)
      ensures packets == if sessionId in sessions then Outbound(sessions[sessionId].ssrc, frame, first, timestamp, max)
                         else None
    {
      if frame == [] {
        return None;
      }
      if sessionId !in sessions {
        return None;
      }
      var ssrc := StringToUint32(sessions[sessionId].ssrc);
      if ssrc.None? {
        return None;
      }
      packets := PacketizeRtpPayload(PS.BuildProgramStreamSample(frame), SenderOptions(ssrc.value, first, timestamp, max));
    }

    /** Sends one frame through the session's adapter; `takes` is the adapter's answer to its k-th packet.
        All packets of the sample go out in order, or those before the first refused one and no total moves. */
    method SendAnnexBFrame(sessionId: string, frame: seq<byte>, increment: nat, max: nat, takes: nat -> bool)
      returns (ok: bool, sent: seq<RtpPayloadPacket>)
      modifies this`sessions
      ensures frame == [] || max == 0 || sessionId !in old(sessions) || sessionId !in adapters ==>
                !ok && sent == [] && sessions == old(sessions)
      ensures frame != [] && max > 0 && sessionId in old(sessions) && sessionId in adapters ==>
                var all := PayloadPackets(PS.BuildProgramStreamSample(frame), increment, max);
                var session := old(sessions)[sessionId];
                && (ok <==> forall k :: 0 <= k < |all| ==> takes(k))
                && (ok ==>
                      && sent == all
                      && sessions == old(sessions)[sessionId := session.(sent := SentTotals(
                                       session.sent.payloadPackets + |all|,
                                       session.sent.payloadBytes + 23 + |frame|,
                                       session.sent.videoFrames + 1))])
                && (!ok ==> |sent| < |all| && sent == all[..|sent|] && !takes(|sent|) && sessions == old(sessions))
    {
      sent := [];
      if frame == [] || max == 0 || sessionId !in sessions || sessionId !in adapters {
        return false, sent;
      }
      var psPayload := PS.BuildProgramStreamSample(frame);
      ok, sent := SendPackets(psPayload, increment, max, takes);
      if ok {
        var session := sessions[sessionId];
        sessions := sessions[sessionId := session.(sent := SentTotals(
            session.sent.payloadPackets + |sent|,
            session.sent.payloadBytes + |psPayload|,
            session.sent.videoFrames + 1))];
      }
    }

    /** All packets of a payload go to the adapter in order, up to one it refuses. */
    method SendPackets(psPayload: seq<byte>, increment: nat, max: nat, takes: nat -> bool)
      returns (ok: bool, sent: seq<RtpPayloadPacket>)
      requires max > 0
      ensures var all := PayloadPackets(psPayload, increment, max);
              && (ok <==> forall k :: 0 <= k < |all| ==> takes(k))
              && (ok ==> sent == all)
              && (!ok ==> |sent| < |all| && sent == all[..|sent|] && !takes(|sent|))
    {
      ghost var all := PayloadPackets(psPayload, increment, max);
      sent := [];
      var offset := 0;
      assert psPayload[0..] == psPayload;
      while offset < |psPayload|
        invariant offset <= |psPayload|
        invariant sent + PayloadPackets(psPayload[offset..], increment, max) == all
        invariant forall k :: 0 <= k < |sent| ==> takes(k)
      {
        PayloadPacketsStep(psPayload, offset, increment, max);
        var remaining := |psPayload| - offset;
        var chunkBytes := if remaining > max then max else remaining;
        var marker := offset + chunkBytes >= |psPayload|;
        var packet := RtpPayloadPacket(psPayload[offset..offset + chunkBytes], 96, marker, if marker then increment else 0);
        if !takes(|sent|) {
          return false, sent;
        }
        ConcatAssoc(sent, [packet], PayloadPackets(psPayload[offset + chunkBytes..], increment, max));
        sent := sent + [packet];
        offset := offset + chunkBytes;
      }
      assert sent == sent + PayloadPackets([], increment, max);
      ok := true;
    }

    // -------------------------------------------------------------- receiving

    function OutletOf(session: MediaSessionInfo, sinkAccepts: bool): Outlet
      reads this
    {
      Outlet(session.id, session.peerId, sinkInstalled, sinkAccepts)
    }

    /** One datagram for a session. `sinkAccepts` is what the sink would answer to a write. */
    method ReceiveRtpPacket(sessionId: string, packetBytes: seq<byte>, sinkAccepts: bool)
      returns (error: Option<ReceiveError>)
      modifies this`sessions, this`sinkFrames
      ensures sessionId !in old(sessions) ==>
                error == Some(SessionNotFound) && sessions == old(sessions) && sinkFrames == old(sinkFrames)
      ensures sessionId in old(sessions) ==>
                var session := old(sessions)[sessionId];
                var r := ReceiveDatagram(session.ssrc, session.stream, packetBytes, OutletOf(session, sinkAccepts));
                && error == r.error
                && sessions == old(sessions)[sessionId := session.(
                                 stream := r.stream,
                                 state := if r.error.None? then "stream-receiving" else session.state)]
                && sinkFrames == old(sinkFrames) + if sinkInstalled && r.completed.Some? then [r.completed.value] else []
    {
      if sessionId !in sessions {
        return Some(SessionNotFound);
      }
      var session := sessions[sessionId];
      var outlet := OutletOf(session, sinkAccepts);
      var parsed := ParseRtpPacket(packetBytes);
      if parsed.None? {
        assert sessions == sessions[sessionId := session];
        return Some(InvalidRtpPacket);
      }
      var packet := parsed.value;
      if session.ssrc != "" && session.ssrc != Decimal(packet.ssrc) {
        assert sessions == sessions[sessionId := session];
        return Some(SsrcMismatch);
      }
      var stream := TakePacket(session.stream, packet, |packetBytes|);
      if !packet.marker {
        sessions := sessions[sessionId := session.(stream := stream, state := "stream-receiving")];
        return None;
      }
      var received := CompletePayload(stream, packet.timestamp, outlet);
      error := StoreReceived(sessionId, session, received);
    }

    /** The sink's write and the session's new state. */
    method StoreReceived(sessionId: string, session: MediaSessionInfo, received: Received)
      returns (error: Option<ReceiveError>)
      modifies this`sessions, this`sinkFrames
      ensures error == received.error
      ensures sessions == old(sessions)[sessionId := session.(
                            stream := received.stream,
                            state := if received.error.None? then "stream-receiving" else session.state)]
      ensures sinkFrames ==
              old(sinkFrames) + if sinkInstalled && received.completed.Some? then [received.completed.value] else []
    {
      if received.completed.Some? && sinkInstalled {
        sinkFrames := sinkFrames + [received.completed.value];
      }
      error := received.error;
      sessions := sessions[sessionId := session.(
          stream := received.stream, state := if error.None? then "stream-receiving" else session.state)];
    }
  }

  /** A marker has closed the payload: inspect it, count it, offer its frame. */
  method CompletePayload(before: Stream, timestamp: uint32, outlet: Outlet) returns (received: Received)
    ensures received == Complete(before, timestamp, outlet)
  {
    var stream := before;
    var completePayload := stream.payload.data;
    var rtpPacketsInFrame := stream.payload.packets;
    stream := stream.(payload := EMPTY_PAYLOAD);
    var psInfo, playable := PS.ParseProgramStreamPayload(completePayload);
    if !playable {
      return Received(stream, Some(InvalidPsPayload), None);
    }
    var video := GatherVideo(psInfo.value.videoPayloads);
    if video.Rejected? {
      return Received(stream, Some(video.error), None);
    }
    received := SettlePayload(stream, timestamp, rtpPacketsInFrame, psInfo.value, video.video, outlet);
  }

  /** Sequence bookkeeping, the stale-payload drop and the append, step by step. */
  method TakePacket(before: Stream, packet: RtpPacket, wireBytes: nat) returns (stream: Stream)
    ensures stream == Absorb(before, packet, wireBytes)
  {
    stream := before;
    if stream.lastRtp.has {
      var expected := (stream.lastRtp.sequenceNumber + 1) % 0x1_0000;
      if packet.sequenceNumber != expected {
        stream := stream.(counters := stream.counters.(outOfOrderRtpPackets := stream.counters.outOfOrderRtpPackets + 1));
      }
    }
    stream := stream.(lastRtp := LastRtp(true, packet.sequenceNumber, packet.timestamp, packet.ssrc));
    stream := stream.(counters := stream.counters.(
        receivedRtpPackets := stream.counters.receivedRtpPackets + 1,
        receivedRtpBytes := stream.counters.receivedRtpBytes + wireBytes,
        receivedPayloadBytes := stream.counters.receivedPayloadBytes + |packet.payload|));
    if stream.payload.has && stream.payload.timestamp != packet.timestamp {
      stream := stream.(counters := stream.counters.(incompleteRtpPayloads := stream.counters.incompleteRtpPayloads + 1));
      stream := stream.(payload := EMPTY_PAYLOAD);
    }
    if !stream.payload.has {
      stream := stream.(payload := stream.payload.(timestamp := packet.timestamp, has := true));
    }
    stream := stream.(payload := stream.payload.(
        data := stream.payload.data + packet.payload,
        bytes := stream.payload.bytes + |packet.payload|,
        packets := stream.payload.packets + 1));
  }

  /** What the loop still has to gather. */
  lemma {:induction false} GatherStep(video: Video, payloads: seq<seq<byte>>, i: nat, info: Option<ES.ElementaryStreamInfo>)
    requires i < |payloads| && info == ES.Parse(payloads[i])
    ensures Gather(video, payloads[i..]) ==
            match GatherOne(video, payloads[i], info)
            case Rejected(e) => Rejected(e)
            case Gathered(longer) => Gather(longer, payloads[i + 1..])
  {
    assert payloads[i..][1..] == payloads[i + 1..];
  }

  /** The loop over the video payloads of one program stream payload. */
  method GatherVideo(payloads: seq<seq<byte>>) returns (gathered: Gathered)
    ensures gathered == Gather(NO_VIDEO, payloads)
  {
    var video := NO_VIDEO;
    var i := 0;
    assert payloads[0..] == payloads;
    while i < |payloads|
      invariant i <= |payloads|
      invariant Gather(video, payloads[i..]) == Gather(NO_VIDEO, payloads)
    {
      var info := ES.ParseElementaryStream(payloads[i]);
      GatherStep(video, payloads, i, info);
      if info.None? {
        return Rejected(InvalidElementaryStream);
      }
      if video.codec != ES.UnknownCodec && video.codec != info.value.codec {
        return Rejected(MixedVideoCodecs);
      }
      video := AddVideo(video, payloads[i], info.value);
      i := i + 1;
    }
    gathered := Gathered(video);
  }

  /** Counting an accepted payload and offering the frame to the sink. */
  method SettlePayload(
    before: Stream, timestamp: uint32, packets: nat, info: PS.ProgramStreamInfo, video: Video, outlet: Outlet)
    returns (received: Received)
    ensures received == Settle(before, timestamp, packets, info, video, outlet)
  {
    var stream := before.(counters := CountPayload(before.counters, info, video));
    if |video.data| > 0 {
      stream := stream.(frame := FrameBuffer(
          true, timestamp, stream.frame.packets + packets, stream.frame.bytes + |video.data|, video.codec,
          stream.frame.key || video.key, stream.frame.data + video.data));
    }
    var completed := None;
    if stream.frame.has && stream.frame.bytes > 0 {
      var frame := Finished(stream.frame, outlet);
      if outlet.installed {
        if !outlet.accepts {
          return Received(stream, Some(SinkFailed), None);
        }
      }
      completed := Some(frame);
      stream := stream.(counters := stream.counters.(completedVideoFrames := stream.counters.completedVideoFrames + 1));
      stream := stream.(lastFrame := LastFrame(stream.frame.bytes, stream.frame.packets, stream.frame.codec, stream.frame.key));
      stream := stream.(frame := stream.frame.(
          bytes := 0, packets := 0, codec := ES.UnknownCodec, key := false, data := [], has := false));
    }
    received := Received(stream, None, completed);
  }
}
