/** The media path end to end: Annex-B frame, program stream sample, RTP packets, reassembly, frame sink. */
module MediaPipeline {
  import opened Common
  import opened Text
  import opened RtpPackets
  import PS = ProgramStreams
  import ES = ElementaryStreams
  import opened MediaSessions

  // ---------------------------------------------------------------- sending

  function SenderOptions(ssrc: uint32, first: uint16, timestamp: uint32, max: nat): PacketizationOptions {
    PacketizationOptions(96, first, timestamp, ssrc, max)
  }

  /** The datagrams of one frame for a session with this SSRC text; None where the source reports an error. */
  function Outbound(ssrc: string, frame: seq<byte>, first: uint16, timestamp: uint32, max: nat): Option<seq<seq<byte>>> {
    if frame == [] || StringToUint32(ssrc).None? || max == 0 then None
    else
      Some(Datagrams(Packets(PS.BuildProgramStreamSample(frame),
                             SenderOptions(StringToUint32(ssrc).value, first, timestamp, max))))
  }

  // ---------------------------------------------------------------- one payload's worth of packets

  /** All packets taken in, none completed. */
  function AbsorbAll(s: Stream, arrivals: seq<Arrival>): Stream {
    if arrivals == [] then s
    else
      var a := arrivals[|arrivals| - 1];
      Absorb(AbsorbAll(s, arrivals[..|arrivals| - 1]), a.packet, a.wireBytes)
  }

  lemma {:induction false} UnmarkedRun(s: Stream, arrivals: seq<Arrival>)
    requires forall a <- arrivals :: !a.packet.marker
    ensures Run(s, arrivals) == RunResult(AbsorbAll(s, arrivals), [])
  {
    if arrivals != [] {
      UnmarkedRun(s, arrivals[..|arrivals| - 1]);
      assert !arrivals[|arrivals| - 1].packet.marker;
    }
  }

  /** No payload is open under this timestamp. */
  predicate Fresh(s: Stream, timestamp: uint32) {
    !(s.payload.has && s.payload.timestamp == timestamp)
  }

  lemma {:induction false} AbsorbCollects(s: Stream, arrivals: seq<Arrival>, timestamp: uint32)
    requires s.Valid() && arrivals != [] && Fresh(s, timestamp)
    requires forall a <- arrivals :: a.packet.timestamp == timestamp
    ensures var t := AbsorbAll(s, arrivals);
            && t.payload == PayloadBuffer(true, timestamp, |arrivals|, |t.payload.data|, t.payload.data)
            && t.payload.data == Flatten(Payloads(Arrived(arrivals)))
            && t.frame == s.frame && t.lastFrame == s.lastFrame
            && t.counters.receivedRtpPackets == s.counters.receivedRtpPackets + |arrivals|
            && t.counters.receivedPayloadBytes == s.counters.receivedPayloadBytes + |t.payload.data|
            && t.counters.incompleteRtpPayloads == s.counters.incompleteRtpPayloads + (if s.payload.has then 1 else 0)
            && t.counters.nals == s.counters.nals
            && t.counters.completedVideoFrames == s.counters.completedVideoFrames
    decreases |arrivals|
  {
    var last := arrivals[|arrivals| - 1];
    var before := arrivals[..|arrivals| - 1];
    PayloadOfSnoc(Arrived(before), last.packet);
    assert last.packet.timestamp == timestamp;
    if before == [] {
      assert Flatten(Payloads(Arrived(before))) == [];
    } else {
      AbsorbCollects(s, before, timestamp);
    }
  }

  /** A payload whose packets all arrived is completed by its marker. */
  lemma {:induction false} PayloadRun(s: Stream, arrivals: seq<Arrival>, timestamp: uint32)
    requires s.Valid() && arrivals != [] && Fresh(s, timestamp)
    requires forall a <- arrivals :: a.packet.timestamp == timestamp
    requires forall i :: 0 <= i < |arrivals| ==> arrivals[i].packet.marker == (i == |arrivals| - 1)
    ensures var d := Complete(AbsorbAll(s, arrivals), timestamp, arrivals[|arrivals| - 1].outlet);
            Run(s, arrivals) == RunResult(d.stream, if d.completed.Some? then [d.completed.value] else [])
  {
    var before := arrivals[..|arrivals| - 1];
    UnmarkedRun(s, before);
    assert arrivals[|arrivals| - 1].packet.timestamp == timestamp;
  }

  // ---------------------------------------------------------------- identity

  /** What the receiver makes of one builder sample. */
  lemma {:induction false} InspectSample(frame: seq<byte>)
    requires ES.Parse(frame).Some?
    ensures var sample := PS.BuildProgramStreamSample(frame);
            && PS.Accepted(sample)
            && PS.ParseResult(sample) == Some(PS.ProgramStreamInfo(1, 0, 0, 1, 1, 0, 0, |frame|, [frame]))
            && Inspect(sample) == Gathered(AddVideo(NO_VIDEO, frame, ES.Parse(frame).value))
  {
    SampleParses(frame);
    assert Gather(AddVideo(NO_VIDEO, frame, ES.Parse(frame).value), [frame][1..]).Gathered?;
  }

  lemma {:induction false} SampleParses(frame: seq<byte>)
    ensures var sample := PS.BuildProgramStreamSample(frame);
            && PS.Accepted(sample)
            && PS.ParseResult(sample) == Some(PS.ProgramStreamInfo(1, 0, 0, 1, 1, 0, 0, |frame|, [frame]))
  {
    PS.SamplesRoundTrip([frame]);
    assert PS.Samples([frame][1..]) == [];
    assert PS.Samples([frame]) == PS.BuildProgramStreamSample(frame);
    FlattenSingle(frame);
  }

  lemma {:induction false} ParsedIsNonempty(frame: seq<byte>)
    requires ES.Parse(frame).Some?
    ensures frame != []
  {
    ES.ParseSound(frame);
  }

  /** The arrivals carry exactly these packets. */
  ghost predicate Carries(arrivals: seq<Arrival>, packets: seq<RtpPacket>) {
    |arrivals| == |packets| && forall i :: 0 <= i < |packets| ==> arrivals[i].packet == packets[i]
  }

  lemma {:induction false} CarriesArrived(arrivals: seq<Arrival>, packets: seq<RtpPacket>)
    requires Carries(arrivals, packets)
    ensures Arrived(arrivals) == packets
  {
    if arrivals != [] {
      CarriesArrived(arrivals[..|arrivals| - 1], packets[..|packets| - 1]);
      assert packets == packets[..|packets| - 1] + [packets[|packets| - 1]];
    }
  }

  /** The frame the receiver owes for an input frame: what it still held, then the frame. */
  function Owed(s: Stream, frame: seq<byte>, info: ES.ElementaryStreamInfo, timestamp: uint32, packets: nat, outlet: Outlet): MediaFrame {
    MediaFrame(outlet.sessionId, outlet.peerId, info.codec, timestamp, s.frame.packets + packets,
               s.frame.key || IsKey(info), s.frame.data + frame)
  }

  /** A settled payload with video completes the frame when the sink takes it. */
  lemma {:induction false} SettleCompletes(
    s: Stream, timestamp: uint32, packets: nat, psInfo: PS.ProgramStreamInfo,
    frame: seq<byte>, info: ES.ElementaryStreamInfo, outlet: Outlet)
    requires frame != [] && (outlet.installed ==> outlet.accepts)
    ensures var d := Settle(s, timestamp, packets, psInfo, AddVideo(NO_VIDEO, frame, info), outlet);
            && d.error == None && d.completed == Some(Owed(s, frame, info, timestamp, packets, outlet))
            && d.stream.payload == s.payload && d.stream.frame.data == [] && !d.stream.frame.has
            && d.stream.counters.completedVideoFrames == s.counters.completedVideoFrames + 1
            && d.stream.counters.nals == s.counters.nals.Plus(TotalsOf(info))
            && d.stream.counters.receivedRtpPackets == s.counters.receivedRtpPackets
            && d.stream.counters.receivedPayloadBytes == s.counters.receivedPayloadBytes
  {
    assert NO_VIDEO.data + frame == frame;
  }

  /** The packets of one accepted payload, fed in order, settle that payload. */
  lemma {:induction false} AcceptedPayloadRun(
    s: Stream, payload: seq<byte>, o: PacketizationOptions, arrivals: seq<Arrival>,
    psInfo: PS.ProgramStreamInfo, video: Video)
    requires s.Valid() && Fresh(s, o.timestamp) && payload != [] && o.maxPayloadBytes > 0
    requires Carries(arrivals, Packets(payload, o)) && arrivals != []
    requires Inspect(payload) == Gathered(video) && PS.ParseResult(payload) == Some(psInfo)
    ensures var absorbed := AbsorbAll(s, arrivals).(payload := EMPTY_PAYLOAD);
            var d := Settle(absorbed, o.timestamp, |arrivals|, psInfo, video, arrivals[|arrivals| - 1].outlet);
            && Run(s, arrivals) == RunResult(d.stream, if d.completed.Some? then [d.completed.value] else [])
            && absorbed.frame == s.frame
            && absorbed.counters.receivedRtpPackets == s.counters.receivedRtpPackets + |arrivals|
            && absorbed.counters.receivedPayloadBytes == s.counters.receivedPayloadBytes + |payload|
            && absorbed.counters.nals == s.counters.nals
            && absorbed.counters.completedVideoFrames == s.counters.completedVideoFrames
  {
    var packets := Packets(payload, o);
    PacketsCover(payload, o);
    forall k | 0 <= k < |packets|
      ensures packets[k].timestamp == o.timestamp && packets[k].marker == (k == |packets| - 1)
    {
      PacketHeader(payload, o, k);
    }
    CarriesArrived(arrivals, packets);
    PayloadRun(s, arrivals, o.timestamp);
    AbsorbCollects(s, arrivals, o.timestamp);
  }

  /** What one delivered frame leaves behind. */
  ghost predicate DeliveredOnce(
    s: Stream, r: RunResult, frame: seq<byte>, info: ES.ElementaryStreamInfo,
    timestamp: uint32, packets: nat, payloadBytes: nat, outlet: Outlet)
  {
    && r.completed == [Owed(s, frame, info, timestamp, packets, outlet)]
    && r.stream.payload == EMPTY_PAYLOAD && r.stream.frame.data == [] && !r.stream.frame.has
    && r.stream.counters.receivedRtpPackets == s.counters.receivedRtpPackets + packets
    && r.stream.counters.receivedPayloadBytes == s.counters.receivedPayloadBytes + payloadBytes
    && r.stream.counters.completedVideoFrames == s.counters.completedVideoFrames + 1
    && r.stream.counters.nals == s.counters.nals.Plus(TotalsOf(info))
  }

  lemma {:induction false} SettledOnce(
    s: Stream, absorbed: Stream, r: RunResult, psInfo: PS.ProgramStreamInfo,
    frame: seq<byte>, info: ES.ElementaryStreamInfo, timestamp: uint32, packets: nat, payloadBytes: nat, outlet: Outlet)
    requires frame != [] && (outlet.installed ==> outlet.accepts)
    requires absorbed.payload == EMPTY_PAYLOAD && absorbed.frame == s.frame
    requires absorbed.counters.receivedRtpPackets == s.counters.receivedRtpPackets + packets
    requires absorbed.counters.receivedPayloadBytes == s.counters.receivedPayloadBytes + payloadBytes
    requires absorbed.counters.nals == s.counters.nals
    requires absorbed.counters.completedVideoFrames == s.counters.completedVideoFrames
    requires var d := Settle(absorbed, timestamp, packets, psInfo, AddVideo(NO_VIDEO, frame, info), outlet);
             r == RunResult(d.stream, if d.completed.Some? then [d.completed.value] else [])
    ensures DeliveredOnce(s, r, frame, info, timestamp, packets, payloadBytes, outlet)
  {
    SettleCompletes(absorbed, timestamp, packets, psInfo, frame, info, outlet);
  }

  lemma {:induction false} VideoPayloadRun(
    s: Stream, payload: seq<byte>, o: PacketizationOptions, arrivals: seq<Arrival>,
    psInfo: PS.ProgramStreamInfo, frame: seq<byte>, info: ES.ElementaryStreamInfo)
    requires s.Valid() && Fresh(s, o.timestamp) && payload != [] && frame != [] && o.maxPayloadBytes > 0
    requires Carries(arrivals, Packets(payload, o)) && arrivals != []
    requires Inspect(payload) == Gathered(AddVideo(NO_VIDEO, frame, info)) && PS.ParseResult(payload) == Some(psInfo)
    requires arrivals[|arrivals| - 1].outlet.installed ==> arrivals[|arrivals| - 1].outlet.accepts
    ensures DeliveredOnce(s, Run(s, arrivals), frame, info, o.timestamp, |arrivals|, |payload|,
                          arrivals[|arrivals| - 1].outlet)
  {
    AcceptedPayloadRun(s, payload, o, arrivals, psInfo, AddVideo(NO_VIDEO, frame, info));
    SettledOnce(s, AbsorbAll(s, arrivals).(payload := EMPTY_PAYLOAD), Run(s, arrivals), psInfo, frame, info,
                o.timestamp, |arrivals|, |payload|, arrivals[|arrivals| - 1].outlet);
  }

  /** End-to-end identity. Whatever the receiver went through before, once no payload is open under the new
      timestamp and the sink takes the write, the packets of one frame fed in order complete exactly one
      frame: the bytes still held from a refused write followed by the input, with every packet counted and
      the parser's key verdict. With nothing held that is the input itself. */
  lemma {:induction false} EndToEndIdentity(s: Stream, frame: seq<byte>, o: PacketizationOptions, arrivals: seq<Arrival>)
    requires s.Valid() && Fresh(s, o.timestamp) && ES.Parse(frame).Some? && o.maxPayloadBytes > 0
    requires Carries(arrivals, Packets(PS.BuildProgramStreamSample(frame), o)) && arrivals != []
    requires arrivals[|arrivals| - 1].outlet.installed ==> arrivals[|arrivals| - 1].outlet.accepts
    ensures |arrivals| == PacketCount(23 + |frame|, o.maxPayloadBytes)
    ensures DeliveredOnce(s, Run(s, arrivals), frame, ES.Parse(frame).value, o.timestamp, |arrivals|, 23 + |frame|,
                          arrivals[|arrivals| - 1].outlet)
  {
    var sample := PS.BuildProgramStreamSample(frame);
    InspectSample(frame);
    ParsedIsNonempty(frame);
    PacketsCover(sample, o);
    VideoPayloadRun(s, sample, o, arrivals, PS.ParseResult(sample).value, frame, ES.Parse(frame).value);
  }

  // ---------------------------------------------------------------- the same over datagrams

  ghost predicate CarriesBytes(inputs: seq<Datagram>, datagrams: seq<seq<byte>>) {
    |inputs| == |datagrams| && forall i :: 0 <= i < |inputs| ==> inputs[i].bytes == datagrams[i]
  }

  lemma {:induction false} AcceptedSnoc(ssrc: string, inputs: seq<Datagram>, d: Datagram, p: RtpPacket)
    requires d.bytes == BuildRtpPacket(p) && SsrcMatches(ssrc, p)
    ensures Accepted(ssrc, inputs + [d]) == Accepted(ssrc, inputs) + [Arrival(p, |d.bytes|, d.outlet)]
  {
    BuildThenDecode(p);
    assert (inputs + [d])[..|inputs|] == inputs;
  }

  /** The arrivals of a session's own datagrams. */
  function OwnArrivals(inputs: seq<Datagram>, packets: seq<RtpPacket>): seq<Arrival>
    requires |inputs| == |packets|
  {
    seq(|inputs|, i requires 0 <= i < |inputs| => Arrival(packets[i], |inputs[i].bytes|, inputs[i].outlet))
  }

  lemma {:induction false} OwnArrivalsSnoc(inputs: seq<Datagram>, packets: seq<RtpPacket>, d: Datagram, p: RtpPacket)
    requires |inputs| == |packets|
    ensures OwnArrivals(inputs + [d], packets + [p]) == OwnArrivals(inputs, packets) + [Arrival(p, |d.bytes|, d.outlet)]
  {
  }

  lemma {:induction false} AcceptedOwnDatagrams(ssrc: string, inputs: seq<Datagram>, packets: seq<RtpPacket>)
    requires CarriesBytes(inputs, Datagrams(packets))
    requires forall i :: 0 <= i < |packets| ==> SsrcMatches(ssrc, packets[i])
    ensures Accepted(ssrc, inputs) == OwnArrivals(inputs, packets)
    decreases |inputs|
  {
    if inputs != [] {
      var n := |inputs| - 1;
      var before, d, sent, p := inputs[..n], inputs[n], packets[..n], packets[n];
      assert d.bytes == BuildRtpPacket(p);
      AcceptedOwnDatagrams(ssrc, before, sent);
      assert inputs == before + [d] && packets == sent + [p];
      AcceptedSnoc(ssrc, before, d, p);
      OwnArrivalsSnoc(before, sent, d, p);
    }
  }

  /** A sender and a receiver that share a canonical SSRC text: every frame the parser accepts goes through. */
  lemma {:induction false} DatagramIdentity(
    ssrc: uint32, s: Stream, frame: seq<byte>, first: uint16, timestamp: uint32, max: nat, inputs: seq<Datagram>)
    requires s.Valid() && Fresh(s, timestamp) && ES.Parse(frame).Some? && max > 0
    requires frame != [] && Outbound(Decimal(ssrc), frame, first, timestamp, max).Some?
    requires CarriesBytes(inputs, Outbound(Decimal(ssrc), frame, first, timestamp, max).value) && inputs != []
    requires inputs[|inputs| - 1].outlet.installed ==> inputs[|inputs| - 1].outlet.accepts
    ensures |inputs| == PacketCount(23 + |frame|, max)
    ensures DeliveredOnce(s, RunDatagrams(Decimal(ssrc), s, inputs), frame, ES.Parse(frame).value, timestamp,
                          |inputs|, 23 + |frame|, inputs[|inputs| - 1].outlet)
  {
    var text := Decimal(ssrc);
    CanonicalUint32(ssrc);
    var o := SenderOptions(ssrc, first, timestamp, max);
    var packets := Packets(PS.BuildProgramStreamSample(frame), o);
    OwnSsrc(PS.BuildProgramStreamSample(frame), o);
    AcceptedOwnDatagrams(text, inputs, packets);
    DatagramsRunAsAccepted(text, s, inputs);
    EndToEndIdentity(s, frame, o, Accepted(text, inputs));
  }

  lemma {:induction false} OwnSsrc(payload: seq<byte>, o: PacketizationOptions)
    requires payload != [] && o.maxPayloadBytes > 0
    ensures forall i :: 0 <= i < |Packets(payload, o)| ==> Packets(payload, o)[i].ssrc == o.ssrc
  {
    forall k | 0 <= k < |Packets(payload, o)| ensures Packets(payload, o)[k].ssrc == o.ssrc {
      PacketHeader(payload, o, k);
    }
  }

  /** Sender and receiver of one session agree exactly when its SSRC text consists of digits without a leading
      zero, and so is the canonical decimal: with any other text the sender takes (a sign, white space, 007) the
      receiver refuses every one of the sender's datagrams. */
  lemma {:induction false} SsrcTextMustBeCanonical(ssrc: string, packet: RtpPacket)
    requires StringToUint32(ssrc) == Some(packet.ssrc)
    ensures SsrcMatches(ssrc, packet) <==> CanonicalDigits(ssrc)
    ensures CanonicalDigits(ssrc) <==> ssrc == Decimal(packet.ssrc)
    ensures !CanonicalDigits(ssrc) ==>
              forall s, outlet :: ReceiveDatagram(ssrc, s, BuildRtpPacket(packet), outlet) ==
                                  Received(s, Some(SsrcMismatch), None)
  {
    BuildThenDecode(packet);
    CanonicalUint32Syntax(ssrc);
    assert ReadNumber("").digits == [];
  }

  // ---------------------------------------------------------------- loss

  /** The packets that arrive, in order. */
  function Kept(packets: seq<RtpPacket>, keep: seq<bool>): seq<RtpPacket>
    requires |keep| == |packets|
  {
    if packets == [] then []
    else (if keep[0] then [packets[0]] else []) + Kept(packets[1..], keep[1..])
  }

  /** What is lost is missing from the bytes. */
  lemma {:induction false} KeptLength(packets: seq<RtpPacket>, keep: seq<bool>)
    requires |keep| == |packets|
    requires forall p <- packets :: p.payload != []
    ensures |Flatten(Payloads(Kept(packets, keep)))| <= |Flatten(Payloads(packets))|
    ensures (exists i :: 0 <= i < |keep| && !keep[i]) ==>
              |Flatten(Payloads(Kept(packets, keep)))| < |Flatten(Payloads(packets))|
  {
    if packets != [] {
      var rest, kept := packets[1..], Kept(packets[1..], keep[1..]);
      KeptLength(rest, keep[1..]);
      PayloadsCons(packets[0], rest);
      PayloadsCons(packets[0], kept);
      assert packets == [packets[0]] + rest;
      if keep[0] && exists i :: 0 <= i < |keep| && !keep[i] {
        var i :| 0 <= i < |keep| && !keep[i];
        assert !keep[1..][i - 1];
      }
      assert [] + kept == kept;
    }
  }

  lemma {:induction false} PayloadsCons(p: RtpPacket, rest: seq<RtpPacket>)
    ensures Flatten(Payloads([p] + rest)) == p.payload + Flatten(Payloads(rest))
  {
    assert Payloads([p] + rest) == [p.payload] + Payloads(rest);
    assert Payloads([p] + rest)[1..] == Payloads(rest);
  }

  /** The marker stays on the last packet when only packets before it are lost. */
  lemma {:induction false} KeptMarkers(packets: seq<RtpPacket>, keep: seq<bool>, timestamp: uint32)
    requires |keep| == |packets| > 0 && keep[|keep| - 1]
    requires forall p <- packets :: p.timestamp == timestamp
    requires forall i :: 0 <= i < |packets| ==> packets[i].marker == (i == |packets| - 1)
    ensures var kept := Kept(packets, keep);
            && kept != []
            && (forall p <- kept :: p.timestamp == timestamp)
            && forall i :: 0 <= i < |kept| ==> kept[i].marker == (i == |kept| - 1)
  {
    if |packets| > 1 {
      KeptMarkers(packets[1..], keep[1..], timestamp);
    } else {
      assert Kept(packets[1..], keep[1..]) == [];
    }
  }

  /** A bounded sample cut short behind its headers no longer has room for its PES packet. */
  lemma {:induction false} TruncatedBounded(frame: seq<byte>, received: seq<byte>)
    requires |frame| <= PS.MAX_BOUNDED_PAYLOAD
    requires 20 <= |received| < 23 + |frame|
    requires received[..20] == PS.BuildProgramStreamSample(frame)[..20]
    ensures PS.Units(received).None?
  {
    var sample := PS.BuildProgramStreamSample(frame);
    assert forall i :: 0 <= i < 20 ==> received[i] == received[..20][i] && sample[i] == sample[..20][i];
    assert sample[18..20] == Uint16Bytes(3 + |frame|);
    assert received[18] == sample[18..20][0] && received[19] == sample[18..20][1];
    assert received[4..14] == PS.SAMPLE_PACK.fixed;
    assert PS.FirstUnit(received) == Some(PS.SAMPLE_PACK);
    assert ReadUint16(received[14..], 4) == 3 + |frame|;
  }

  function OpenPes(rest: seq<byte>): PS.Unit {
    PS.Pes(0xe0, false, [0x80, 0x00, 0x00] + rest)
  }

  lemma {:induction false} OpenSampleInfo(rest: seq<byte>)
    ensures OpenPes(rest).Valid() && PS.SAMPLE_PACK.Valid()
    ensures PS.InfoOf([PS.SAMPLE_PACK, OpenPes(rest)]) == PS.ProgramStreamInfo(1, 0, 0, 1, 1, 0, 0, |rest|, [rest])
  {
    var pes := OpenPes(rest);
    assert pes.body[3..] == rest;
    assert pes.Payload() == rest;
    PS.InfoSnoc([], PS.SAMPLE_PACK);
    PS.InfoSnoc([PS.SAMPLE_PACK], pes);
    assert [] + [PS.SAMPLE_PACK] == [PS.SAMPLE_PACK] && [PS.SAMPLE_PACK] + [pes] == [PS.SAMPLE_PACK, pes];
    assert PS.InfoOf([]) == PS.EMPTY_INFO;
    assert PS.InfoOf([PS.SAMPLE_PACK]) == PS.EMPTY_INFO.(packHeaders := 1);
    assert [] + [rest] == [rest];
  }

  lemma {:induction false} OpenSampleUnits(rest: seq<byte>)
    requires OpenPes(rest).Valid() && PS.SAMPLE_PACK.Valid()
    ensures PS.Units(PS.SAMPLE_PACK.Encode() + OpenPes(rest).Encode()) == Some([PS.SAMPLE_PACK, OpenPes(rest)])
  {
    PS.UnitsLast(OpenPes(rest));
    PS.UnitsCons(PS.SAMPLE_PACK, OpenPes(rest).Encode());
    assert [PS.SAMPLE_PACK] + [OpenPes(rest)] == [PS.SAMPLE_PACK, OpenPes(rest)];
  }

  lemma {:induction false} OpenSampleBytes(frame: seq<byte>, rest: seq<byte>)
    requires |frame| > PS.MAX_BOUNDED_PAYLOAD && OpenPes(rest).Valid() && PS.SAMPLE_PACK.Valid()
    ensures PS.BuildProgramStreamSample(frame)[..23] + rest == PS.SAMPLE_PACK.Encode() + OpenPes(rest).Encode()
  {
  }

  /** An unbounded sample takes whatever arrives behind its headers for its payload. */
  lemma {:induction false} TruncatedUnbounded(frame: seq<byte>, rest: seq<byte>)
    requires |frame| > PS.MAX_BOUNDED_PAYLOAD
    ensures var received := PS.BuildProgramStreamSample(frame)[..23] + rest;
            && PS.Accepted(received)
            && PS.ParseResult(received) == Some(PS.ProgramStreamInfo(1, 0, 0, 1, 1, 0, 0, |rest|, [rest]))
  {
    OpenSampleInfo(rest);
    OpenSampleUnits(rest);
    OpenSampleBytes(frame, rest);
  }

  /** A loss between the first and the marker packet of a sample. */
  ghost predicate MiddleLoss(packets: seq<RtpPacket>, keep: seq<bool>) {
    && |keep| == |packets| > 0 && keep[0] && keep[|keep| - 1]
    && exists i :: 0 <= i < |keep| && !keep[i]
  }

  /** What is left of a sample after a middle loss: its first chunk, then less than the rest. */
  lemma {:induction false} LossyPayload(sample: seq<byte>, o: PacketizationOptions, keep: seq<bool>)
    requires sample != [] && o.maxPayloadBytes > 0 && MiddleLoss(Packets(sample, o), keep)
    ensures var received := Flatten(Payloads(Kept(Packets(sample, o), keep)));
            && o.maxPayloadBytes <= |received| < |sample|
            && received[..o.maxPayloadBytes] == sample[..o.maxPayloadBytes]
  {
    var packets := Packets(sample, o);
    forall k | 0 <= k < |packets| ensures packets[k].payload != [] {
      PacketHeader(sample, o, k);
    }
    PacketsCover(sample, o);
    KeptLength(packets, keep);
    PayloadsCons(packets[0], Kept(packets[1..], keep[1..]));
    var i :| 0 <= i < |keep| && !keep[i];
    assert |packets| > 1;
  }

  lemma {:induction false} LossyArrival(sample: seq<byte>, o: PacketizationOptions, keep: seq<bool>, arrivals: seq<Arrival>, s: Stream)
    requires sample != [] && o.maxPayloadBytes > 0 && MiddleLoss(Packets(sample, o), keep)
    requires s.Valid() && Fresh(s, o.timestamp)
    requires Carries(arrivals, Kept(Packets(sample, o), keep))
    ensures arrivals != []
    ensures var absorbed := AbsorbAll(s, arrivals);
            var d := Complete(absorbed, o.timestamp, arrivals[|arrivals| - 1].outlet);
            && Run(s, arrivals) == RunResult(d.stream, if d.completed.Some? then [d.completed.value] else [])
            && absorbed.payload.data == Flatten(Payloads(Kept(Packets(sample, o), keep)))
            && absorbed.payload.packets == |arrivals| && absorbed.frame == s.frame
  {
    var packets := Packets(sample, o);
    forall k | 0 <= k < |packets|
      ensures packets[k].timestamp == o.timestamp && packets[k].marker == (k == |packets| - 1)
    {
      PacketHeader(sample, o, k);
    }
    KeptMarkers(packets, keep, o.timestamp);
    var kept := Kept(packets, keep);
    CarriesArrived(arrivals, kept);
    assert forall i :: 0 <= i < |arrivals| ==> arrivals[i].packet == kept[i];
    PayloadRun(s, arrivals, o.timestamp);
    AbsorbCollects(s, arrivals, o.timestamp);
  }

  /** Loss never delivers a truncated frame: for frames a PES length can bound and chunks that carry the
      headers, losing any packets between the first and the marker makes the receiver refuse the payload,
      write nothing, keep what it held, and go on with an empty reassembly buffer. */
  lemma {:induction false} LossDeliversNothing(
    s: Stream, frame: seq<byte>, o: PacketizationOptions, keep: seq<bool>, arrivals: seq<Arrival>)
    requires s.Valid() && Fresh(s, o.timestamp) && o.maxPayloadBytes >= 20
    requires |frame| <= PS.MAX_BOUNDED_PAYLOAD
    requires MiddleLoss(Packets(PS.BuildProgramStreamSample(frame), o), keep)
    requires Carries(arrivals, Kept(Packets(PS.BuildProgramStreamSample(frame), o), keep))
    ensures var r := Run(s, arrivals);
            r.completed == [] && r.stream.payload == EMPTY_PAYLOAD && r.stream.frame == s.frame
  {
    var sample := PS.BuildProgramStreamSample(frame);
    var received := Flatten(Payloads(Kept(Packets(sample, o), keep)));
    LossyPayload(sample, o, keep);
    assert received[..20] == received[..o.maxPayloadBytes][..20] == sample[..o.maxPayloadBytes][..20] == sample[..20];
    TruncatedBounded(frame, received);
    LossyArrival(sample, o, keep, arrivals, s);
  }

  /** The program stream layer notices a middle loss exactly when the PES packet says its length, that is,
      exactly for frames of at most 65532 bytes. */
  lemma {:induction false} LossNoticedIffBounded(frame: seq<byte>, o: PacketizationOptions, keep: seq<bool>)
    requires o.maxPayloadBytes >= 23
    requires MiddleLoss(Packets(PS.BuildProgramStreamSample(frame), o), keep)
    ensures PS.Accepted(Flatten(Payloads(Kept(Packets(PS.BuildProgramStreamSample(frame), o), keep)))) <==>
            |frame| > PS.MAX_BOUNDED_PAYLOAD
  {
    var sample := PS.BuildProgramStreamSample(frame);
    var received := Flatten(Payloads(Kept(Packets(sample, o), keep)));
    LossyPayload(sample, o, keep);
    if |frame| <= PS.MAX_BOUNDED_PAYLOAD {
      assert received[..20] == received[..o.maxPayloadBytes][..20] == sample[..o.maxPayloadBytes][..20] == sample[..20];
      TruncatedBounded(frame, received);
    } else {
      assert received[..23] == received[..o.maxPayloadBytes][..23] == sample[..o.maxPayloadBytes][..23] == sample[..23];
      assert received == sample[..23] + received[23..];
      TruncatedUnbounded(frame, received[23..]);
    }
  }

  // ---------------------------------------------------------------- a long frame that is delivered truncated

  /** What arrives of a sample with a middle loss behind its 23 header bytes. */
  function Survivors(frame: seq<byte>, o: PacketizationOptions, keep: seq<bool>): seq<byte>
    requires o.maxPayloadBytes > 0 && |keep| == |Packets(PS.BuildProgramStreamSample(frame), o)|
  {
    var received := Flatten(Payloads(Kept(Packets(PS.BuildProgramStreamSample(frame), o), keep)));
    if |received| < 23 then [] else received[23..]
  }

  lemma {:induction false} HeadersSurvive(frame: seq<byte>, o: PacketizationOptions, keep: seq<bool>)
    requires o.maxPayloadBytes >= 23
    requires MiddleLoss(Packets(PS.BuildProgramStreamSample(frame), o), keep)
    ensures var sample := PS.BuildProgramStreamSample(frame);
            Flatten(Payloads(Kept(Packets(sample, o), keep))) == sample[..23] + Survivors(frame, o, keep)
    ensures |Survivors(frame, o, keep)| < |frame|
  {
    var sample := PS.BuildProgramStreamSample(frame);
    var received := Flatten(Payloads(Kept(Packets(sample, o), keep)));
    LossyPayload(sample, o, keep);
    assert received[..23] == received[..o.maxPayloadBytes][..23] == sample[..o.maxPayloadBytes][..23] == sample[..23];
    assert received == received[..23] + received[23..];
  }

  lemma {:induction false} InspectUnbounded(frame: seq<byte>, rest: seq<byte>)
    requires |frame| > PS.MAX_BOUNDED_PAYLOAD
    ensures Inspect(PS.BuildProgramStreamSample(frame)[..23] + rest) ==
            if ES.Parse(rest).Some? then Gathered(AddVideo(NO_VIDEO, rest, ES.Parse(rest).value))
            else Rejected(InvalidElementaryStream)
  {
    TruncatedUnbounded(frame, rest);
    if ES.Parse(rest).Some? {
      TailGathers(rest, ES.Parse(rest).value);
    } else {
      assert GatherOne(NO_VIDEO, rest, ES.Parse(rest)).Rejected?;
    }
  }

  lemma {:induction false} CompleteSettles(s: Stream, timestamp: uint32, video: Video, outlet: Outlet)
    requires Inspect(s.payload.data) == Gathered(video)
    ensures Complete(s, timestamp, outlet) ==
            Settle(s.(payload := EMPTY_PAYLOAD), timestamp, s.payload.packets, PS.ParseResult(s.payload.data).value, video, outlet)
  {
  }

  lemma {:induction false} CompleteRejected(s: Stream, timestamp: uint32, outlet: Outlet)
    requires Inspect(s.payload.data).Rejected?
    ensures Complete(s, timestamp, outlet).completed == None && Complete(s, timestamp, outlet).stream.frame == s.frame
  {
  }

  /** The frame for these bytes if they parse, and otherwise nothing. */
  ghost predicate DeliversIfParsed(
    s: Stream, r: RunResult, rest: seq<byte>, info: Option<ES.ElementaryStreamInfo>,
    timestamp: uint32, packets: nat, outlet: Outlet)
  {
    match info
    case Some(i) => r.completed == [Owed(s, rest, i, timestamp, packets, outlet)]
    case None => r.completed == [] && r.stream.frame == s.frame
  }

  lemma {:induction false} DeliversSettled(
    s: Stream, cleared: Stream, r: RunResult, psInfo: PS.ProgramStreamInfo, rest: seq<byte>,
    info: ES.ElementaryStreamInfo, timestamp: uint32, packets: nat, outlet: Outlet)
    requires cleared.frame == s.frame && (outlet.installed ==> outlet.accepts) && rest != []
    requires var d := Settle(cleared, timestamp, packets, psInfo, AddVideo(NO_VIDEO, rest, info), outlet);
             r == RunResult(d.stream, if d.completed.Some? then [d.completed.value] else [])
    ensures DeliversIfParsed(s, r, rest, Some(info), timestamp, packets, outlet)
  {
    SettleCompletes(cleared, timestamp, packets, psInfo, rest, info, outlet);
  }

  lemma {:induction false} CompleteByVerdict(
    s: Stream, absorbed: Stream, d: Received, rest: seq<byte>, info: Option<ES.ElementaryStreamInfo>,
    timestamp: uint32, outlet: Outlet)
    requires absorbed.frame == s.frame && (outlet.installed ==> outlet.accepts) && (info.Some? ==> rest != [])
    requires Inspect(absorbed.payload.data) ==
             if info.Some? then Gathered(AddVideo(NO_VIDEO, rest, info.value)) else Rejected(InvalidElementaryStream)
    requires d == Complete(absorbed, timestamp, outlet)
    ensures DeliversIfParsed(s, RunResult(d.stream, if d.completed.Some? then [d.completed.value] else []), rest, info,
                             timestamp, absorbed.payload.packets, outlet)
  {
    if info.Some? {
      CompleteSettles(absorbed, timestamp, AddVideo(NO_VIDEO, rest, info.value), outlet);
      DeliversSettled(s, absorbed.(payload := EMPTY_PAYLOAD),
                      RunResult(d.stream, if d.completed.Some? then [d.completed.value] else []),
                      PS.ParseResult(absorbed.payload.data).value, rest, info.value, timestamp,
                      absorbed.payload.packets, outlet);
    } else {
      CompleteRejected(absorbed, timestamp, outlet);
    }
  }

  /** Past 65532 bytes a middle loss is noticed only by the elementary stream parser: a frame is delivered exactly
      when the bytes behind the 23 header bytes still parse, and then it is what was held followed by exactly
      those bytes; otherwise nothing is written and what was held is kept. */
  lemma {:induction false} LongFrameAfterLoss(
    s: Stream, frame: seq<byte>, o: PacketizationOptions, keep: seq<bool>, arrivals: seq<Arrival>)
    requires s.Valid() && Fresh(s, o.timestamp) && o.maxPayloadBytes >= 23
    requires |frame| > PS.MAX_BOUNDED_PAYLOAD
    requires MiddleLoss(Packets(PS.BuildProgramStreamSample(frame), o), keep)
    requires Carries(arrivals, Kept(Packets(PS.BuildProgramStreamSample(frame), o), keep))
    requires arrivals != [] && (arrivals[|arrivals| - 1].outlet.installed ==> arrivals[|arrivals| - 1].outlet.accepts)
    ensures |Survivors(frame, o, keep)| < |frame|
    ensures DeliversIfParsed(s, Run(s, arrivals), Survivors(frame, o, keep), ES.Parse(Survivors(frame, o, keep)),
                             o.timestamp, |arrivals|, arrivals[|arrivals| - 1].outlet)
  {
    var rest := Survivors(frame, o, keep);
    HeadersSurvive(frame, o, keep);
    InspectUnbounded(frame, rest);
    LossyArrival(PS.BuildProgramStreamSample(frame), o, keep, arrivals, s);
    if ES.Parse(rest).Some? {
      ParsedIsNonempty(rest);
    }
    var absorbed, outlet := AbsorbAll(s, arrivals), arrivals[|arrivals| - 1].outlet;
    CompleteByVerdict(s, absorbed, Complete(absorbed, o.timestamp, outlet), rest, ES.Parse(rest), o.timestamp, outlet);
  }

  // ---------------------------------------------------------------- such a frame exists

  predicate Zeros(bytes: seq<byte>) { forall i :: 0 <= i < |bytes| ==> bytes[i] == 0 }

  /** One IDR unit padded with n zeros. */
  function PaddedIdr(n: nat): seq<byte> {
    [0x00, 0x00, 0x01, 0x65] + seq(n, _ => 0)
  }

  lemma {:induction false} PaddedIdrParses(frame: seq<byte>)
    requires |frame| >= 4 && frame[..4] == [0x00, 0x00, 0x01, 0x65] && Zeros(frame[4..])
    ensures ES.Parse(frame).Some? && ES.Parse(frame).value.h264Idr == 1
  {
    var nal := ES.NalUnit(3, frame[3..]);
    assert frame == frame[..4] + frame[4..];
    assert nal.body == [0x65] + frame[4..];
    ES.JoinCons(nal, []);
    assert [nal] + [] == [nal] && ES.Join([]) == [];
    assert frame == nal.Encode() + [];
    ES.AnnexBScanUndoesJoin([nal]);
    assert ES.Headers([nal]) == [0x65] + ES.Headers([nal][1..]);
  }

  lemma {:induction false} ZeroPackets(payload: seq<byte>, o: PacketizationOptions)
    requires payload != [] && o.maxPayloadBytes > 0 && Zeros(payload)
    ensures forall k :: 0 <= k < |Packets(payload, o)| ==> Zeros(Packets(payload, o)[k].payload)
    decreases |payload|
  {
    if |payload| > o.maxPayloadBytes {
      ZeroPackets(payload[o.maxPayloadBytes..], Next(o));
    }
  }

  lemma {:induction false} ZeroKept(packets: seq<RtpPacket>, keep: seq<bool>)
    requires |keep| == |packets| && forall k :: 0 <= k < |packets| ==> Zeros(packets[k].payload)
    ensures Zeros(Flatten(Payloads(Kept(packets, keep))))
  {
    if packets != [] {
      ZeroKept(packets[1..], keep[1..]);
      PayloadsCons(packets[0], Kept(packets[1..], keep[1..]));
      assert [] + Kept(packets[1..], keep[1..]) == Kept(packets[1..], keep[1..]);
    }
  }

  /** What survives of a padded IDR frame behind the 23 header bytes is a shorter padded IDR frame. */
  lemma {:induction false} PaddedIdrSurvives(n: nat, o: PacketizationOptions, keep: seq<bool>)
    requires o.maxPayloadBytes >= 27
    requires MiddleLoss(Packets(PS.BuildProgramStreamSample(PaddedIdr(n)), o), keep)
    ensures var sample := PS.BuildProgramStreamSample(PaddedIdr(n));
            var received := Flatten(Payloads(Kept(Packets(sample, o), keep)));
            && 27 <= |received| < |sample| && received[..27] == sample[..27] && Zeros(received[27..])
  {
    var sample := PS.BuildProgramStreamSample(PaddedIdr(n));
    var max := o.maxPayloadBytes;
    var packets := Packets(sample, o);
    LossyPayload(sample, o, keep);
    assert |sample| > max;
    ZeroPackets(sample[max..], Next(o));
    assert packets == [packets[0]] + Packets(sample[max..], Next(o));
    assert packets[1..] == Packets(sample[max..], Next(o));
    ZeroKept(packets[1..], keep[1..]);
    PayloadsCons(packets[0], Kept(packets[1..], keep[1..]));
    var received := Flatten(Payloads(Kept(packets, keep)));
    assert received == sample[..max] + Flatten(Payloads(Kept(packets[1..], keep[1..])));
    assert received[..27] == received[..max][..27] == sample[..max][..27] == sample[..27];
  }

  /** Truncated frames do get through: of a long padded IDR frame sent in chunks of at least 27 bytes the sink
      gets a shorter frame whatever is lost in the middle. */
  lemma {:induction false} LongFrameDeliveredTruncated(
    s: Stream, n: nat, o: PacketizationOptions, keep: seq<bool>, arrivals: seq<Arrival>)
    requires s.Valid() && Fresh(s, o.timestamp) && o.maxPayloadBytes >= 27
    requires n + 4 > PS.MAX_BOUNDED_PAYLOAD
    requires MiddleLoss(Packets(PS.BuildProgramStreamSample(PaddedIdr(n)), o), keep)
    requires Carries(arrivals, Kept(Packets(PS.BuildProgramStreamSample(PaddedIdr(n)), o), keep))
    requires arrivals != [] && (arrivals[|arrivals| - 1].outlet.installed ==> arrivals[|arrivals| - 1].outlet.accepts)
    ensures var rest := Survivors(PaddedIdr(n), o, keep);
            && 0 < |rest| < |PaddedIdr(n)|
            && |Run(s, arrivals).completed| == 1 && Run(s, arrivals).completed[0].data == s.frame.data + rest
  {
    var frame, rest := PaddedIdr(n), Survivors(PaddedIdr(n), o, keep);
    PaddedIdrSurvives(n, o, keep);
    HeadersSurvive(frame, o, keep);
    SurvivorsStart(PS.BuildProgramStreamSample(frame), frame, rest);
    PaddedIdrParses(rest);
    LongFrameAfterLoss(s, frame, o, keep, arrivals);
  }

  lemma {:induction false} SurvivorsStart(sample: seq<byte>, frame: seq<byte>, rest: seq<byte>)
    requires |sample| == 23 + |frame| && sample[23..] == frame && |frame| >= 4 && |rest| >= 4
    requires (sample[..23] + rest)[..27] == sample[..27] && Zeros((sample[..23] + rest)[27..])
    ensures rest[..4] == frame[..4] && Zeros(rest[4..])
  {
    var received := sample[..23] + rest;
    forall i | 0 <= i < 4 ensures rest[i] == frame[i] {
      assert received[..27][23 + i] == sample[..27][23 + i];
      assert frame[i] == sample[23..][i];
    }
    assert received[27..] == rest[4..];
  }

  lemma {:induction false} TailGathers(tail: seq<byte>, info: ES.ElementaryStreamInfo)
    requires ES.Parse(tail) == Some(info)
    ensures Gather(NO_VIDEO, [tail]) == Gathered(AddVideo(NO_VIDEO, tail, info))
  {
    assert [tail][1..] == [];
    assert Gather(AddVideo(NO_VIDEO, tail, info), []).Gathered?;
  }
}
