/** RTP packets (section 5.1 of RFC 3550): the parser, the builder and the packetizer of
    src/media/RtpPacket.cpp, and the wire format they are measured against. */
module RtpPackets {
  import opened Common

  type PayloadType = n: int | 0 <= n < 0x80

  datatype RtpPacket = RtpPacket(
    marker: bool,
    payloadType: PayloadType,
    sequenceNumber: uint16,
    timestamp: uint32,
    ssrc: uint32,
    payload: seq<byte>)

  datatype PacketizationOptions = PacketizationOptions(
    payloadType: PayloadType,
    firstSequenceNumber: uint16,
    timestamp: uint32,
    ssrc: uint32,
    maxPayloadBytes: nat)

  // ---------------------------------------------------------------- wire format

  datatype Extension = Extension(profile: seq<byte>, words: seq<byte>)

  /** Everything a datagram may carry around the fields the parser reports. */
  datatype Wire = Wire(packet: RtpPacket, csrcs: seq<byte>, extension: Option<Extension>, padding: seq<byte>)
  {
    predicate Valid() {
      && |csrcs| % 4 == 0 && |csrcs| <= 60
      && (extension.Some? ==>
            && |extension.value.profile| == 2
            && |extension.value.words| % 4 == 0
            && |extension.value.words| / 4 < 0x1_0000)
      && (padding != [] ==> padding[|padding| - 1] == |padding|)
    }

    function Flags(): byte
      requires Valid()
    {
      0x80 + (if padding == [] then 0 else 0x20) + (if extension.None? then 0 else 0x10) + |csrcs| / 4
    }

    function ExtensionBytes(): seq<byte>
      requires Valid()
    {
      match extension
      case None => []
      case Some(e) => e.profile + Uint16Bytes(|e.words| / 4) + e.words
    }

    function Prefix(): seq<byte>
      requires Valid()
    {
      FixedHeader(Flags(), packet) + csrcs + ExtensionBytes()
    }

    function Encode(): seq<byte>
      requires Valid()
    {
      Prefix() + packet.payload + padding
    }
  }

  function FixedHeader(flags: byte, packet: RtpPacket): (bytes: seq<byte>)
    ensures |bytes| == 12
  {
    [flags, (if packet.marker then 0x80 else 0) + packet.payloadType] +
    Uint16Bytes(packet.sequenceNumber) + Uint32Bytes(packet.timestamp) + Uint32Bytes(packet.ssrc)
  }

  // ---------------------------------------------------------------- decoding

  function HasPadding(bytes: seq<byte>): bool
    requires |bytes| > 0
  {
    bytes[0] / 0x20 % 2 == 1
  }

  function HasExtension(bytes: seq<byte>): bool
    requires |bytes| > 0
  {
    bytes[0] / 0x10 % 2 == 1
  }

  /** Where the payload starts, if header, CSRC list and extension fit. */
  function PayloadOffset(bytes: seq<byte>): (offset: Option<nat>)
    ensures offset.Some? ==> 12 <= offset.value <= |bytes|
  {
    if |bytes| < 12 || bytes[0] / 0x40 != 2 then None
    else
      var csrcEnd := 12 + bytes[0] % 0x10 * 4;
      if |bytes| < csrcEnd then None
      else if !HasExtension(bytes) then Some(csrcEnd)
      else if |bytes| < csrcEnd + 4 then None
      else
        var extensionEnd := csrcEnd + 4 + ReadUint16(bytes, csrcEnd + 2) * 4;
        if |bytes| < extensionEnd then None else Some(extensionEnd)
  }

  /** Where the payload ends: the last byte counts the padding, itself included. */
  function PayloadEnd(bytes: seq<byte>, offset: nat): (end: Option<nat>)
    requires 12 <= offset <= |bytes|
    ensures end.Some? ==> offset <= end.value <= |bytes|
  {
    if !HasPadding(bytes) then Some(|bytes|)
    else
      var padding := bytes[|bytes| - 1];
      if padding == 0 || padding > |bytes| - offset then None else Some(|bytes| - padding)
  }

  function Decode(bytes: seq<byte>): Option<RtpPacket> {
    match PayloadOffset(bytes)
    case None => None
    case Some(offset) =>
      match PayloadEnd(bytes, offset)
      case None => None
      case Some(end) =>
        Some(RtpPacket(bytes[1] >= 0x80, bytes[1] % 0x80, ReadUint16(bytes, 2),
                       ReadUint32(bytes, 4), ReadUint32(bytes, 8), bytes[offset..end]))
  }

  method ParseRtpPacket(bytes: seq<byte>) returns (packet: Option<RtpPacket>)
    ensures packet == Decode(bytes)
  {
    if |bytes| < 12 {
      return None;
    }
    var first := bytes[0];
    if first / 0x40 != 2 {
      return None;
    }
    var offset := 12 + first % 0x10 * 4;
    if |bytes| < offset {
      return None;
    }
    if HasExtension(bytes) {
      if |bytes| < offset + 4 {
        return None;
      }
      offset := offset + 4 + ReadUint16(bytes, offset + 2) * 4;
      if |bytes| < offset {
        return None;
      }
    }
    var payloadEnd := |bytes|;
    if HasPadding(bytes) {
      var padding := bytes[|bytes| - 1];
      if padding == 0 || padding > payloadEnd - offset {
        return None;
      }
      payloadEnd := payloadEnd - padding;
    }
    packet := Some(RtpPacket(bytes[1] >= 0x80, bytes[1] % 0x80, ReadUint16(bytes, 2),
                             ReadUint32(bytes, 4), ReadUint32(bytes, 8), bytes[offset..payloadEnd]));
  }

  /** The fixed header of `bytes` holds these flags and the fields of this packet. */
  predicate HeaderHolds(bytes: seq<byte>, flags: byte, packet: RtpPacket)
    requires |bytes| >= 12
  {
    && bytes[0] == flags
    && (bytes[1] >= 0x80) == packet.marker && bytes[1] % 0x80 == packet.payloadType
    && ReadUint16(bytes, 2) == packet.sequenceNumber
    && ReadUint32(bytes, 4) == packet.timestamp && ReadUint32(bytes, 8) == packet.ssrc
  }

  lemma {:induction false} FixedHeaderFields(flags: byte, packet: RtpPacket, rest: seq<byte>)
    ensures HeaderHolds(FixedHeader(flags, packet) + rest, flags, packet)
  {
    var bytes := FixedHeader(flags, packet) + rest;
    assert bytes[2..4] == Uint16Bytes(packet.sequenceNumber);
    assert bytes[4..8] == Uint32Bytes(packet.timestamp);
    assert bytes[8..12] == Uint32Bytes(packet.ssrc);
    assert bytes[2] == bytes[2..4][0] && bytes[3] == bytes[2..4][1];
    assert forall i :: 0 <= i < 4 ==> bytes[4 + i] == bytes[4..8][i] && bytes[8 + i] == bytes[8..12][i];
  }

  lemma {:induction false} FlagsFields(w: Wire)
    requires w.Valid()
    ensures var f := w.Flags();
            && f / 0x40 == 2 && f % 0x10 == |w.csrcs| / 4
            && (f / 0x20 % 2 == 1 <==> w.padding != []) && (f / 0x10 % 2 == 1 <==> w.extension.Some?)
  {
  }

  lemma {:induction false} PrefixHeader(w: Wire, body: seq<byte>)
    requires w.Valid()
    ensures HeaderHolds(w.Prefix() + body, w.Flags(), w.packet)
  {
    var rest := w.csrcs + w.ExtensionBytes() + body;
    assert w.Prefix() + body == FixedHeader(w.Flags(), w.packet) + rest;
    FixedHeaderFields(w.Flags(), w.packet, rest);
  }

  lemma {:induction false} ExtensionLength(w: Wire, body: seq<byte>)
    requires w.Valid() && w.extension.Some?
    ensures ReadUint16(w.Prefix() + body, 12 + |w.csrcs| + 2) == |w.extension.value.words| / 4
  {
    var e := w.extension.value;
    var before := FixedHeader(w.Flags(), w.packet) + w.csrcs + e.profile;
    assert w.Prefix() + body == before + Uint16Bytes(|e.words| / 4) + (e.words + body);
    ReadWritten16(before, |e.words| / 4, e.words + body);
  }

  lemma {:induction false} PrefixOffset(w: Wire, body: seq<byte>)
    requires w.Valid()
    ensures PayloadOffset(w.Prefix() + body) == Some(|w.Prefix()|)
  {
    PrefixHeader(w, body);
    FlagsFields(w);
    if w.extension.Some? {
      ExtensionLength(w, body);
    }
  }

  lemma {:induction false} PaddedEnd(w: Wire)
    requires w.Valid()
    ensures PayloadEnd(w.Encode(), |w.Prefix()|) == Some(|w.Prefix()| + |w.packet.payload|)
  {
    PrefixHeader(w, w.packet.payload + w.padding);
    assert w.Encode() == w.Prefix() + (w.packet.payload + w.padding);
    FlagsFields(w);
    if w.padding != [] {
      assert w.Encode()[|w.Encode()| - 1] == w.padding[|w.padding| - 1];
    }
  }

  /** Every datagram the format allows is accepted, and exactly its own fields are reported. */
  lemma {:induction false} DecodeComplete(w: Wire)
    requires w.Valid()
    ensures Decode(w.Encode()) == Some(w.packet)
  {
    var body := w.packet.payload + w.padding;
    assert w.Encode() == w.Prefix() + body;
    PrefixOffset(w, body);
    PaddedEnd(w);
    PrefixHeader(w, body);
    assert (w.Prefix() + body)[|w.Prefix()|..|w.Prefix()| + |w.packet.payload|] == w.packet.payload;
  }

  /** The bytes around an accepted packet, read back as a datagram of the format. */
  function WireOf(bytes: seq<byte>): Wire
    requires Decode(bytes).Some?
  {
    var offset := PayloadOffset(bytes).value;
    var csrcEnd := 12 + bytes[0] % 0x10 * 4;
    Wire(Decode(bytes).value, bytes[12..csrcEnd],
         if HasExtension(bytes) then Some(Extension(bytes[csrcEnd..csrcEnd + 2], bytes[csrcEnd + 4..offset])) else None,
         bytes[PayloadEnd(bytes, offset).value..])
  }

  lemma {:induction false} WireHeader(bytes: seq<byte>)
    requires Decode(bytes).Some?
    ensures WireOf(bytes).Valid() && WireOf(bytes).Flags() == bytes[0]
  {
  }

  lemma {:induction false} WireFixedHeader(bytes: seq<byte>)
    requires Decode(bytes).Some?
    ensures FixedHeader(bytes[0], WireOf(bytes).packet) == bytes[0..12]
  {
    var packet := WireOf(bytes).packet;
    Uint16Canonical(bytes, 2);
    Uint32Canonical(bytes, 4);
    Uint32Canonical(bytes, 8);
    assert [bytes[0], (if packet.marker then 0x80 else 0) + packet.payloadType] == bytes[0..2];
    JoinSlices(bytes, 0, 2, 4);
    JoinSlices(bytes, 0, 4, 8);
    JoinSlices(bytes, 0, 8, 12);
  }

  lemma {:induction false} WireExtension(bytes: seq<byte>)
    requires Decode(bytes).Some? && WireOf(bytes).Valid()
    ensures WireOf(bytes).ExtensionBytes() == bytes[12 + bytes[0] % 0x10 * 4..PayloadOffset(bytes).value]
  {
    var csrcEnd := 12 + bytes[0] % 0x10 * 4;
    if HasExtension(bytes) {
      Uint16Canonical(bytes, csrcEnd + 2);
      var offset := PayloadOffset(bytes).value;
      assert |bytes[csrcEnd + 4..offset]| / 4 == ReadUint16(bytes, csrcEnd + 2);
      JoinSlices(bytes, csrcEnd, csrcEnd + 2, csrcEnd + 4);
      JoinSlices(bytes, csrcEnd, csrcEnd + 4, offset);
    }
  }

  /** Nothing else is accepted. */
  lemma {:induction false} DecodeSound(bytes: seq<byte>)
    requires Decode(bytes).Some?
    ensures WireOf(bytes).Valid() && WireOf(bytes).Encode() == bytes
  {
    WireHeader(bytes);
    WireFixedHeader(bytes);
    WireExtension(bytes);
    var offset := PayloadOffset(bytes).value;
    var csrcEnd := 12 + bytes[0] % 0x10 * 4;
    JoinSlices(bytes, 0, 12, csrcEnd);
    JoinSlices(bytes, 0, csrcEnd, offset);
    var end := PayloadEnd(bytes, offset).value;
    JoinSlices(bytes, 0, offset, end);
    JoinSlices(bytes, 0, end, |bytes|);
    assert bytes == bytes[0..|bytes|];
  }

  /** Acceptance is exactly membership in the format. */
  lemma {:induction false} DecodeIffWire(bytes: seq<byte>, packet: RtpPacket)
    ensures Decode(bytes) == Some(packet) <==> exists w: Wire :: w.Valid() && w.packet == packet && w.Encode() == bytes
  {
    if Decode(bytes) == Some(packet) {
      DecodeSound(bytes);
      assert WireOf(bytes).packet == packet;
    }
    forall w: Wire | w.Valid() && w.packet == packet && w.Encode() == bytes
      ensures Decode(bytes) == Some(packet)
    {
      DecodeComplete(w);
    }
  }

  // ---------------------------------------------------------------- building

  function BuildRtpPacket(packet: RtpPacket): seq<byte> {
    FixedHeader(0x80, packet) + packet.payload
  }

  lemma {:induction false} BuildThenDecode(packet: RtpPacket)
    ensures Decode(BuildRtpPacket(packet)) == Some(packet)
  {
    var w := Wire(packet, [], None, []);
    assert w.Encode() == BuildRtpPacket(packet);
    DecodeComplete(w);
  }

  /** The packets of one payload, in sending order. */
  function Packets(payload: seq<byte>, o: PacketizationOptions): (packets: seq<RtpPacket>)
    requires payload != [] && o.maxPayloadBytes > 0
    decreases |payload|
  {
    if |payload| <= o.maxPayloadBytes then
      [RtpPacket(true, o.payloadType, o.firstSequenceNumber, o.timestamp, o.ssrc, payload)]
    else
      [RtpPacket(false, o.payloadType, o.firstSequenceNumber, o.timestamp, o.ssrc, payload[..o.maxPayloadBytes])] +
      Packets(payload[o.maxPayloadBytes..], Next(o))
  }

  function Next(o: PacketizationOptions): PacketizationOptions {
    o.(firstSequenceNumber := (o.firstSequenceNumber + 1) % 0x1_0000)
  }

  function Payloads(packets: seq<RtpPacket>): seq<seq<byte>> {
    seq(|packets|, i requires 0 <= i < |packets| => packets[i].payload)
  }

  function Datagrams(packets: seq<RtpPacket>): seq<seq<byte>> {
    seq(|packets|, i requires 0 <= i < |packets| => BuildRtpPacket(packets[i]))
  }

  /** What the loop has still to send. */
  function Remaining(payload: seq<byte>, offset: nat, o: PacketizationOptions): seq<RtpPacket>
    requires offset <= |payload| && o.maxPayloadBytes > 0
  {
    if offset == |payload| then [] else Packets(payload[offset..], o)
  }

  lemma {:induction false} RemainingStep(payload: seq<byte>, offset: nat, o: PacketizationOptions)
    requires offset < |payload| && o.maxPayloadBytes > 0
    ensures var remaining := |payload| - offset;
            var chunkBytes := if remaining > o.maxPayloadBytes then o.maxPayloadBytes else remaining;
            Remaining(payload, offset, o) ==
              [RtpPacket(offset + chunkBytes >= |payload|, o.payloadType, o.firstSequenceNumber, o.timestamp, o.ssrc,
                         payload[offset..offset + chunkBytes])] +
              Remaining(payload, offset + chunkBytes, Next(o))
  {
    var rest := payload[offset..];
    if |rest| > o.maxPayloadBytes {
      assert rest[..o.maxPayloadBytes] == payload[offset..offset + o.maxPayloadBytes];
      assert rest[o.maxPayloadBytes..] == payload[offset + o.maxPayloadBytes..];
    } else {
      assert rest == payload[offset..offset + |rest|];
    }
  }

  function ChunkBytes(payload: seq<byte>, offset: nat, max: nat): nat
    requires offset <= |payload|
  {
    if |payload| - offset > max then max else |payload| - offset
  }

  function ChunkPacket(payload: seq<byte>, offset: nat, o: PacketizationOptions): RtpPacket
    requires offset <= |payload|
  {
    var chunkBytes := ChunkBytes(payload, offset, o.maxPayloadBytes);
    RtpPacket(offset + chunkBytes >= |payload|, o.payloadType, o.firstSequenceNumber, o.timestamp, o.ssrc,
              payload[offset..offset + chunkBytes])
  }

  /** The datagrams from `offset` on, as the loop cuts them. */
  function DatagramsFrom(payload: seq<byte>, offset: nat, o: PacketizationOptions): seq<seq<byte>>
    requires offset <= |payload| && o.maxPayloadBytes > 0
    decreases |payload| - offset
  {
    if offset == |payload| then []
    else
      [BuildRtpPacket(ChunkPacket(payload, offset, o))] +
      DatagramsFrom(payload, offset + ChunkBytes(payload, offset, o.maxPayloadBytes), Next(o))
  }

  lemma {:induction false} DatagramsCons(first: RtpPacket, rest: seq<RtpPacket>)
    ensures Datagrams([first] + rest) == [BuildRtpPacket(first)] + Datagrams(rest)
  {
  }

  lemma {:induction false} CutByOffset(payload: seq<byte>, offset: nat, o: PacketizationOptions)
    requires offset <= |payload| && o.maxPayloadBytes > 0
    ensures DatagramsFrom(payload, offset, o) == Datagrams(Remaining(payload, offset, o))
    decreases |payload| - offset
  {
    if offset < |payload| {
      var next := offset + ChunkBytes(payload, offset, o.maxPayloadBytes);
      RemainingStep(payload, offset, o);
      CutByOffset(payload, next, Next(o));
      DatagramsCons(ChunkPacket(payload, offset, o), Remaining(payload, next, Next(o)));
    }
  }

  method PacketizeRtpPayload(payload: seq<byte>, o: PacketizationOptions) returns (packets: Option<seq<seq<byte>>>)
    ensures packets == if payload == [] || o.maxPayloadBytes == 0 then None
                       else Some(Datagrams(Packets(payload, o)))
  {
    if payload == [] || o.maxPayloadBytes == 0 {
      return None;
    }
    CutByOffset(payload, 0, o);
    assert payload[0..] == payload;
    var built := CutPayload(payload, o);
    packets := Some(built);
  }

  method CutPayload(payload: seq<byte>, o: PacketizationOptions) returns (built: seq<seq<byte>>)
    requires o.maxPayloadBytes > 0
    ensures built == DatagramsFrom(payload, 0, o)
  {
    built := [];
    var offset := 0;
    var sequence: int := o.firstSequenceNumber;
    while offset < |payload|
      invariant 0 <= offset <= |payload|
      invariant 0 <= sequence < 0x1_0000
      invariant built + DatagramsFrom(payload, offset, o.(firstSequenceNumber := sequence)) == DatagramsFrom(payload, 0, o)
    {
      ghost var now := o.(firstSequenceNumber := sequence);
      var remaining := |payload| - offset;
      var chunkBytes := if remaining > o.maxPayloadBytes then o.maxPayloadBytes else remaining;
      var marker := offset + chunkBytes >= |payload|;
      var chunk := payload[offset..offset + chunkBytes];
      var datagram := BuildRtpPacket(RtpPacket(marker, o.payloadType, sequence, o.timestamp, o.ssrc, chunk));
      ConcatAssoc(built, [datagram], DatagramsFrom(payload, offset + chunkBytes, Next(now)));
      built := built + [datagram];
      sequence := (sequence + 1) % 0x1_0000;
      offset := offset + chunkBytes;
    }
  }

  /** How many packets a payload of n bytes needs: n / max rounded up. */
  function PacketCount(n: nat, max: nat): nat
    requires max > 0
  {
    (n + max - 1) / max
  }

  lemma {:induction false} PacketCountStep(n: nat, max: nat)
    requires 0 < max < n
    ensures PacketCount(n, max) == 1 + PacketCount(n - max, max)
  {
    var m := n - max + max - 1;
    assert (m + max) / max == m / max + 1 by { DivAddOne(m, max); }
  }

  lemma {:induction false} DivAddOne(m: nat, d: nat)
    requires d > 0
    ensures (m + d) / d == m / d + 1
  {
    var q, r := m / d, m % d;
    assert m + d == (q + 1) * d + r;
    DivUnique(m + d, d, q + 1, r);
  }

  lemma {:induction false} DivUnique(n: nat, d: nat, q: nat, r: nat)
    requires d > 0 && r < d && n == q * d + r
    ensures n / d == q
  {
    var q' := n / d;
    if q' < q {
      MulMonotone(q' + 1, q, d);
    } else if q < q' {
      MulMonotone(q + 1, q', d);
    }
  }

  lemma {:induction false} MulMonotone(a: nat, b: nat, d: nat)
    requires a <= b
    ensures a * d <= b * d
  {
  }

  lemma {:induction false} PacketsCover(payload: seq<byte>, o: PacketizationOptions)
    requires payload != [] && o.maxPayloadBytes > 0
    ensures |Packets(payload, o)| == PacketCount(|payload|, o.maxPayloadBytes) > 0
    ensures Flatten(Payloads(Packets(payload, o))) == payload
    decreases |payload|
  {
    var max := o.maxPayloadBytes;
    var ps := Packets(payload, o);
    if |payload| <= max {
      DivUnique(|payload| + max - 1, max, 1, |payload| - 1);
      assert Payloads(ps) == [payload];
      FlattenSingle(payload);
    } else {
      PacketsCover(payload[max..], Next(o));
      PacketCountStep(|payload|, max);
      assert Payloads(ps) == [payload[..max]] + Payloads(Packets(payload[max..], Next(o)));
      assert Payloads(ps)[1..] == Payloads(Packets(payload[max..], Next(o)));
      assert payload == payload[..max] + payload[max..];
    }
  }

  /** The header of the k-th packet. */
  lemma {:induction false} PacketHeader(payload: seq<byte>, o: PacketizationOptions, k: nat)
    requires payload != [] && o.maxPayloadBytes > 0 && k < |Packets(payload, o)|
    ensures var p := Packets(payload, o)[k];
            && p.marker == (k == |Packets(payload, o)| - 1)
            && p.payloadType == o.payloadType && p.timestamp == o.timestamp && p.ssrc == o.ssrc
            && p.sequenceNumber == (o.firstSequenceNumber + k) % 0x1_0000
            && 0 < |p.payload| <= o.maxPayloadBytes
    decreases |payload|
  {
    if |payload| > o.maxPayloadBytes {
      var rest := payload[o.maxPayloadBytes..];
      assert |Packets(rest, Next(o))| > 0 by { PacketsCover(rest, Next(o)); }
      if k > 0 {
        PacketHeader(rest, Next(o), k - 1);
      }
    }
  }

  /** Packetizing loses and reorders nothing: each datagram decodes to a packet of the stated stream,
      sequence numbers run on modulo 2^16, the marker is on the last packet only, no chunk is empty or
      over the limit, and the chunks concatenate to the payload. */
  lemma {:induction false} PacketizationFaithful(payload: seq<byte>, o: PacketizationOptions)
    requires payload != [] && o.maxPayloadBytes > 0
    ensures var ps := Packets(payload, o);
            && |ps| == PacketCount(|payload|, o.maxPayloadBytes) > 0
            && Flatten(Payloads(ps)) == payload
            && forall k :: 0 <= k < |ps| ==>
                 && Decode(Datagrams(ps)[k]) == Some(ps[k])
                 && ps[k].marker == (k == |ps| - 1)
                 && ps[k].payloadType == o.payloadType && ps[k].timestamp == o.timestamp && ps[k].ssrc == o.ssrc
                 && ps[k].sequenceNumber == (o.firstSequenceNumber + k) % 0x1_0000
                 && 0 < |ps[k].payload| <= o.maxPayloadBytes
  {
    PacketsCover(payload, o);
    forall k | 0 <= k < |Packets(payload, o)|
      ensures var p := Packets(payload, o)[k];
              && Decode(Datagrams(Packets(payload, o))[k]) == Some(p)
              && p.marker == (k == |Packets(payload, o)| - 1)
              && p.payloadType == o.payloadType && p.timestamp == o.timestamp && p.ssrc == o.ssrc
              && p.sequenceNumber == (o.firstSequenceNumber + k) % 0x1_0000
              && 0 < |p.payload| <= o.maxPayloadBytes
    {
      PacketHeader(payload, o, k);
      BuildThenDecode(Packets(payload, o)[k]);
    }
  }
}
