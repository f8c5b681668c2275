/** The MPEG program stream (sections 2.5.3 and 2.4.3.6 of ISO/IEC 13818-1) as src/media/ProgramStream.cpp
    reads and writes it: a grammar of units, the offset-driven parser, and the sample builder. */
module ProgramStreams {
  import opened Common

  // ---------------------------------------------------------------- grammar

  datatype Kind = AnyPack | SystemHeader | StreamMap | AnyPes | VideoPes | AudioPes | PrivatePes

  predicate IsVideoId(id: byte) { 0xe0 <= id <= 0xef }

  predicate IsPesStreamId(id: byte) {
    id == 0xbd || id == 0xbe || id == 0xbf || id == 0xfd || 0xc0 <= id <= 0xdf || IsVideoId(id)
  }

  /** The payload of a PES body: an MPEG-2 PES header is stripped when the body starts with the bits 10
      and has room for one; None when the announced header overruns the body. */
  function PesPayload(id: byte, body: seq<byte>): (payload: Option<seq<byte>>)
    ensures payload.Some? ==> |payload.value| <= |body|
  {
    if id != 0xbe && |body| >= 3 && body[0] / 0x40 == 2 then
      if 3 + body[2] > |body| then None else Some(body[3 + body[2]..])
    else
      Some(body)
  }

  datatype Unit =
    | Pack(fixed: seq<byte>, stuffing: seq<byte>)
    | Section(id: byte, body: seq<byte>)
    | Pes(id: byte, bounded: bool, body: seq<byte>)
  {
    predicate Valid() {
      match this
      case Pack(fixed, stuffing) => |fixed| == 10 && |stuffing| == fixed[9] % 8
      case Section(id, body) => (id == 0xbb || id == 0xbc) && |body| < 0x1_0000
      case Pes(id, bounded, body) =>
        IsPesStreamId(id) && (bounded ==> 0 < |body| < 0x1_0000) && PesPayload(id, body).Some?
    }

    predicate Unbounded() { Pes? && !bounded }

    function Encode(): seq<byte>
      requires Valid()
    {
      match this
      case Pack(fixed, stuffing) => [0, 0, 1, 0xba] + fixed + stuffing
      case Section(id, body) => [0, 0, 1, id] + Uint16Bytes(|body|) + body
      case Pes(id, bounded, body) => [0, 0, 1, id] + Uint16Bytes(if bounded then |body| else 0) + body
    }

    /** The number of bytes the unit takes. */
    function Size(): nat {
      if Pack? then 14 + |stuffing| else 6 + |body|
    }

    predicate Is(kind: Kind) {
      match kind
      case AnyPack => Pack?
      case SystemHeader => Section? && id == 0xbb
      case StreamMap => Section? && id == 0xbc
      case AnyPes => Pes?
      case VideoPes => Pes? && IsVideoId(id)
      case AudioPes => Pes? && 0xc0 <= id <= 0xdf
      case PrivatePes => Pes? && (id == 0xbd || id == 0xbf || id == 0xfd)
    }

    /** What this unit adds to the elementary payload; a padding stream adds nothing. */
    function Payload(): seq<byte>
      requires Valid()
    {
      if Pes? && id != 0xbe then PesPayload(id, body).value else []
    }
  }

  /** A stream: valid units, where only the last may leave its length open. */
  predicate ValidStream(units: seq<Unit>) {
    && (forall u <- units :: u.Valid())
    && (forall i :: 0 <= i < |units| - 1 ==> !units[i].Unbounded())
  }

  function EncodeAll(units: seq<Unit>): seq<byte>
    requires forall u <- units :: u.Valid()
  {
    if units == [] then [] else units[0].Encode() + EncodeAll(units[1..])
  }

  function Count(units: seq<Unit>, kind: Kind): nat {
    if units == [] then 0
    else Count(units[..|units| - 1], kind) + if units[|units| - 1].Is(kind) then 1 else 0
  }

  function PayloadBytes(units: seq<Unit>): nat
    requires forall u <- units :: u.Valid()
  {
    if units == [] then 0 else PayloadBytes(units[..|units| - 1]) + |units[|units| - 1].Payload()|
  }

  function VideoPayloads(units: seq<Unit>): seq<seq<byte>>
    requires forall u <- units :: u.Valid()
  {
    if units == [] then []
    else
      var u := units[|units| - 1];
      VideoPayloads(units[..|units| - 1]) + if u.Is(VideoPes) then [u.Payload()] else []
  }

  datatype ProgramStreamInfo = ProgramStreamInfo(
    packHeaders: nat,
    systemHeaders: nat,
    programStreamMaps: nat,
    pesPackets: nat,
    videoPesPackets: nat,
    audioPesPackets: nat,
    privatePesPackets: nat,
    pesPayloadBytes: nat,
    videoPayloads: seq<seq<byte>>)
  {
    predicate HasMediaPayload() {
      videoPesPackets > 0 || audioPesPackets > 0 || privatePesPackets > 0
    }

    predicate Playable() {
      packHeaders > 0 && HasMediaPayload()
    }
  }

  function InfoOf(units: seq<Unit>): ProgramStreamInfo
    requires forall u <- units :: u.Valid()
  {
    ProgramStreamInfo(Count(units, AnyPack), Count(units, SystemHeader), Count(units, StreamMap),
                      Count(units, AnyPes), Count(units, VideoPes), Count(units, AudioPes), Count(units, PrivatePes),
                      PayloadBytes(units), VideoPayloads(units))
  }

  // ---------------------------------------------------------------- reading units

  predicate StartsUnit(bytes: seq<byte>) {
    |bytes| > 3 && bytes[0] == 0 && bytes[1] == 0 && bytes[2] == 1
  }

  /** The unit at the front of `bytes`, if one fits. */
  function FirstUnit(bytes: seq<byte>): (unit: Option<Unit>)
    ensures unit.Some? ==> unit.value.Valid() && unit.value.Size() <= |bytes|
  {
    if !StartsUnit(bytes) then None
    else if bytes[3] == 0xba then FirstPack(bytes)
    else if |bytes| < 6 then None
    else if bytes[3] == 0xbb || bytes[3] == 0xbc then
      var length := ReadUint16(bytes, 4);
      if 6 + length > |bytes| then None else Some(Section(bytes[3], bytes[6..6 + length]))
    else if !IsPesStreamId(bytes[3]) then None
    else
      var length := ReadUint16(bytes, 4);
      var end := if length == 0 then |bytes| else 6 + length;
      if end > |bytes| || PesPayload(bytes[3], bytes[6..end]).None? then None
      else Some(Pes(bytes[3], length != 0, bytes[6..end]))
  }

  function FirstPack(bytes: seq<byte>): (unit: Option<Unit>)
    requires StartsUnit(bytes)
    ensures unit.Some? ==> unit.value.Valid() && unit.value.Pack? && unit.value.Size() <= |bytes|
  {
    if |bytes| < 14 || 14 + bytes[13] % 8 > |bytes| then None
    else Some(Pack(bytes[4..14], bytes[14..14 + bytes[13] % 8]))
  }

  lemma {:induction false} FirstUnitSound(bytes: seq<byte>)
    requires FirstUnit(bytes).Some?
    ensures var u := FirstUnit(bytes).value;
            && u.Size() <= |bytes| && u.Encode() == bytes[..u.Size()]
            && (u.Unbounded() ==> u.Size() == |bytes|)
  {
    var u := FirstUnit(bytes).value;
    assert bytes[..4] == [0, 0, 1, bytes[3]];
    if u.Pack? {
      assert bytes[..14 + |u.stuffing|] == bytes[..4] + u.fixed + u.stuffing;
    } else {
      Uint16Canonical(bytes, 4);
      assert bytes[..6 + |u.body|] == bytes[..4] + bytes[4..6] + u.body;
    }
  }

  lemma {:induction false} EncodedPack(u: Unit, rest: seq<byte>)
    requires u.Valid() && u.Pack?
    ensures FirstUnit(u.Encode() + rest) == Some(u)
  {
    var bytes := u.Encode() + rest;
    assert bytes[4..14] == u.fixed && bytes[13] == u.fixed[9];
    assert bytes[14..14 + |u.stuffing|] == u.stuffing;
  }

  lemma {:induction false} EncodedLength(id: byte, length: uint16, rest: seq<byte>)
    ensures var bytes := [0, 0, 1, id] + Uint16Bytes(length) + rest;
            StartsUnit(bytes) && bytes[3] == id && ReadUint16(bytes, 4) == length && bytes[6..] == rest
  {
    ReadWritten16([0, 0, 1, id], length, rest);
  }

  lemma {:induction false} EncodedSection(id: byte, body: seq<byte>, rest: seq<byte>)
    requires Section(id, body).Valid()
    ensures FirstUnit(Section(id, body).Encode() + rest) == Some(Section(id, body))
  {
    EncodedLength(id, |body|, body + rest);
    var bytes := Section(id, body).Encode() + rest;
    assert bytes == [0, 0, 1, id] + Uint16Bytes(|body|) + (body + rest);
    assert bytes[6..6 + |body|] == body;
  }

  lemma {:induction false} EncodedPes(id: byte, bounded: bool, body: seq<byte>, rest: seq<byte>)
    requires Pes(id, bounded, body).Valid() && (!bounded ==> rest == [])
    ensures FirstUnit(Pes(id, bounded, body).Encode() + rest) == Some(Pes(id, bounded, body))
  {
    var length, tail := if bounded then |body| else 0, body + rest;
    EncodedLength(id, length, tail);
    var bytes := Pes(id, bounded, body).Encode() + rest;
    assert bytes == [0, 0, 1, id] + Uint16Bytes(length) + tail;
    assert bytes[6..] == tail && tail[..|body|] == body;
    FirstPes(bytes, length, body);
  }

  lemma {:induction false} FirstPes(bytes: seq<byte>, length: uint16, body: seq<byte>)
    requires |bytes| >= 6 && StartsUnit(bytes) && IsPesStreamId(bytes[3]) && ReadUint16(bytes, 4) == length
    requires |bytes| >= 6 + |body| && bytes[6..][..|body|] == body && PesPayload(bytes[3], body).Some?
    requires if length == 0 then 6 + |body| == |bytes| else length == |body|
    ensures FirstUnit(bytes) == Some(Pes(bytes[3], length != 0, body))
  {
    assert bytes[6..6 + |body|] == body;
  }

  lemma {:induction false} FirstUnitComplete(u: Unit, rest: seq<byte>)
    requires u.Valid() && (u.Unbounded() ==> rest == [])
    ensures FirstUnit(u.Encode() + rest) == Some(u)
  {
    match u
    case Pack(_, _) => EncodedPack(u, rest);
    case Section(id, body) => EncodedSection(id, body, rest);
    case Pes(id, bounded, body) => EncodedPes(id, bounded, body, rest);
  }

  /** The whole of `bytes` read as units. */
  function Units(bytes: seq<byte>): (units: Option<seq<Unit>>)
    ensures units.Some? ==> forall u <- units.value :: u.Valid()
    decreases |bytes|
  {
    if bytes == [] then Some([])
    else
      match FirstUnit(bytes)
      case None => None
      case Some(u) =>
        match Units(bytes[u.Size()..])
        case None => None
        case Some(rest) => Some([u] + rest)
  }

  lemma {:induction false} StreamCons(u: Unit, rest: seq<Unit>)
    requires u.Valid() && ValidStream(rest) && (u.Unbounded() ==> rest == [])
    ensures ValidStream([u] + rest) && EncodeAll([u] + rest) == u.Encode() + EncodeAll(rest)
  {
    assert ([u] + rest)[1..] == rest;
  }

  lemma {:induction false} StreamExtends(bytes: seq<byte>, u: Unit, rest: seq<Unit>)
    requires u.Valid() && u.Size() <= |bytes| && u.Encode() == bytes[..u.Size()]
    requires ValidStream(rest) && EncodeAll(rest) == bytes[u.Size()..]
    requires u.Unbounded() ==> rest == []
    ensures ValidStream([u] + rest) && EncodeAll([u] + rest) == bytes
  {
    StreamCons(u, rest);
  }

  lemma {:induction false} UnitsSound(bytes: seq<byte>)
    requires Units(bytes).Some?
    ensures ValidStream(Units(bytes).value) && EncodeAll(Units(bytes).value) == bytes
    decreases |bytes|
  {
    if bytes != [] {
      var u := FirstUnit(bytes).value;
      FirstUnitSound(bytes);
      UnitsSound(bytes[u.Size()..]);
      StreamExtends(bytes, u, Units(bytes[u.Size()..]).value);
    }
  }

  /** Reading on behind one unit, and reading the last one. */
  lemma {:induction false} UnitsCons(u: Unit, rest: seq<byte>)
    requires u.Valid() && (u.Unbounded() ==> rest == [])
    ensures Units(u.Encode() + rest) ==
            match Units(rest) { case None => None case Some(units) => Some([u] + units) }
  {
    FirstUnitComplete(u, rest);
    assert (u.Encode() + rest)[u.Size()..] == rest;
  }

  lemma {:induction false} UnitsComplete(units: seq<Unit>)
    requires ValidStream(units)
    ensures Units(EncodeAll(units)) == Some(units)
  {
    if units != [] {
      var u, rest := units[0], units[1..];
      assert forall i :: 0 <= i < |rest| ==> rest[i] == units[i + 1];
      UnitsComplete(rest);
      UnitsCons(u, EncodeAll(rest));
      assert units == [u] + rest;
    }
  }

  lemma {:induction false} UnitsLast(u: Unit)
    requires u.Valid()
    ensures Units(u.Encode()) == Some([u])
  {
    UnitsCons(u, []);
    assert u.Encode() + [] == u.Encode() && [u] + [] == [u];
  }

  /** The reader accepts exactly the grammar, and the grammar is unambiguous. */
  lemma {:induction false} UnitsIffGrammar(bytes: seq<byte>, units: seq<Unit>)
    ensures Units(bytes) == Some(units) <==> ValidStream(units) && EncodeAll(units) == bytes
  {
    if Units(bytes) == Some(units) {
      UnitsSound(bytes);
    }
    if ValidStream(units) && EncodeAll(units) == bytes {
      UnitsComplete(units);
    }
  }

  // ---------------------------------------------------------------- the parser

  /** What the parser leaves in its output argument: nothing on malformed or empty input. */
  function ParseResult(bytes: seq<byte>): Option<ProgramStreamInfo> {
    if bytes == [] || Units(bytes).None? then None else Some(InfoOf(Units(bytes).value))
  }

  /** What the parser answers: a pack header and some media are required. */
  predicate Accepted(bytes: seq<byte>) {
    ParseResult(bytes).Some? && ParseResult(bytes).value.Playable()
  }

  /** The tally after one more unit. */
  function Plus(info: ProgramStreamInfo, u: Unit): ProgramStreamInfo
    requires u.Valid()
  {
    match u
    case Pack(_, _) => info.(packHeaders := info.packHeaders + 1)
    case Section(id, _) =>
      if id == 0xbb then info.(systemHeaders := info.systemHeaders + 1)
      else info.(programStreamMaps := info.programStreamMaps + 1)
    case Pes(id, _, _) =>
      info.(pesPackets := info.pesPackets + 1,
            videoPesPackets := info.videoPesPackets + if u.Is(VideoPes) then 1 else 0,
            audioPesPackets := info.audioPesPackets + if u.Is(AudioPes) then 1 else 0,
            privatePesPackets := info.privatePesPackets + if u.Is(PrivatePes) then 1 else 0,
            pesPayloadBytes := info.pesPayloadBytes + |u.Payload()|,
            videoPayloads := info.videoPayloads + if u.Is(VideoPes) then [u.Payload()] else [])
  }

  lemma {:induction false} InfoSnoc(done: seq<Unit>, u: Unit)
    requires (forall v <- done :: v.Valid()) && u.Valid()
    ensures InfoOf(done + [u]) == Plus(InfoOf(done), u)
  {
    assert (done + [u])[..|done + [u]| - 1] == done;
  }

  /** Counts a PES packet of this id once, and once more under the kind of its units. */
  method ClassifyPes(streamId: byte, info: ProgramStreamInfo) returns (classified: ProgramStreamInfo)
    ensures var u := Pes(streamId, false, []);
            classified == info.(
              pesPackets := info.pesPackets + 1,
              videoPesPackets := info.videoPesPackets + if u.Is(VideoPes) then 1 else 0,
              audioPesPackets := info.audioPesPackets + if u.Is(AudioPes) then 1 else 0,
              privatePesPackets := info.privatePesPackets + if u.Is(PrivatePes) then 1 else 0)
  {
    classified := info.(pesPackets := info.pesPackets + 1);
    if 0xe0 <= streamId <= 0xef {
      classified := classified.(videoPesPackets := classified.videoPesPackets + 1);
    } else if 0xc0 <= streamId <= 0xdf {
      classified := classified.(audioPesPackets := classified.audioPesPackets + 1);
    } else if streamId == 0xbd || streamId == 0xbf || streamId == 0xfd {
      classified := classified.(privatePesPackets := classified.privatePesPackets + 1);
    }
  }

  lemma {:induction false} UnitsUnfold(bytes: seq<byte>, offset: nat)
    requires offset < |bytes| && FirstUnit(bytes[offset..]).Some?
    ensures var u := FirstUnit(bytes[offset..]).value;
            && offset + u.Size() <= |bytes|
            && Units(bytes[offset..]) == Prepend([u], Units(bytes[offset + u.Size()..]))
  {
    var u := FirstUnit(bytes[offset..]).value;
    assert bytes[offset..][u.Size()..] == bytes[offset + u.Size()..];
  }

  ghost predicate AllValid(units: seq<Unit>) {
    forall u <- units :: u.Valid()
  }

  const EMPTY_INFO := ProgramStreamInfo(0, 0, 0, 0, 0, 0, 0, 0, [])

  /** The tally of `units` on top of `info`. */
  function PlusAll(info: ProgramStreamInfo, units: seq<Unit>): ProgramStreamInfo
    requires forall u <- units :: u.Valid()
    decreases |units|
  {
    if units == [] then info else PlusAll(Plus(info, units[0]), units[1..])
  }

  lemma {:induction false} PlusAllIsInfo(done: seq<Unit>, units: seq<Unit>)
    requires AllValid(done) && AllValid(units)
    ensures AllValid(done + units) && PlusAll(InfoOf(done), units) == InfoOf(done + units)
    decreases |units|
  {
    if units == [] {
      assert done + units == done;
    } else {
      InfoSnoc(done, units[0]);
      PlusAllIsInfo(done + [units[0]], units[1..]);
      assert done + [units[0]] + units[1..] == done + units;
    }
  }

  function Tally(info: ProgramStreamInfo, units: Option<seq<Unit>>): Option<ProgramStreamInfo>
    requires units.Some? ==> forall u <- units.value :: u.Valid()
  {
    match units case None => None case Some(list) => Some(PlusAll(info, list))
  }

  lemma {:induction false} TallyCons(info: ProgramStreamInfo, u: Unit, rest: Option<seq<Unit>>)
    requires u.Valid() && (rest.Some? ==> forall v <- rest.value :: v.Valid())
    ensures Prepend([u], rest).Some? ==> forall v <- Prepend([u], rest).value :: v.Valid()
    ensures Tally(info, Prepend([u], rest)) == Tally(Plus(info, u), rest)
  {
    if rest.Some? {
      assert ([u] + rest.value)[1..] == rest.value;
    }
  }

  /** The tally of what stands from an offset on, on top of what was tallied before it. */
  function TallyFrom(bytes: seq<byte>, offset: nat, info: ProgramStreamInfo): Option<ProgramStreamInfo>
    requires offset <= |bytes|
  {
    Tally(info, Units(bytes[offset..]))
  }

  /** Reading one unit moves the offset behind it and adds it to the tally. */
  lemma {:induction false} TallyStep(bytes: seq<byte>, offset: nat, info: ProgramStreamInfo)
    requires offset < |bytes|
    ensures match FirstUnit(bytes[offset..])
            case None => TallyFrom(bytes, offset, info) == None
            case Some(u) =>
              offset + u.Size() <= |bytes| &&
              TallyFrom(bytes, offset, info) == TallyFrom(bytes, offset + u.Size(), Plus(info, u))
  {
    if FirstUnit(bytes[offset..]).Some? {
      var u := FirstUnit(bytes[offset..]).value;
      UnitsUnfold(bytes, offset);
      TallyCons(info, u, Units(bytes[offset + u.Size()..]));
    }
  }

  lemma {:induction false} TallyIsInfo(units: seq<Unit>)
    requires AllValid(units)
    ensures PlusAll(EMPTY_INFO, units) == InfoOf(units)
  {
    PlusAllIsInfo([], units);
    assert InfoOf([]) == EMPTY_INFO && [] + units == units;
  }

  lemma {:induction false} TallyAll(bytes: seq<byte>)
    requires bytes != []
    ensures TallyFrom(bytes, 0, EMPTY_INFO) == ParseResult(bytes)
  {
    assert bytes[0..] == bytes;
    if Units(bytes).Some? {
      TallyIsInfo(Units(bytes).value);
    }
  }

  lemma {:induction false} TallyEnd(bytes: seq<byte>, info: ProgramStreamInfo)
    ensures TallyFrom(bytes, |bytes|, info) == Some(info)
  {
  }

  lemma {:induction false} PesAt(bytes: seq<byte>, offset: nat, end: nat)
    requires offset + 6 <= |bytes| && StartsUnit(bytes[offset..]) && IsPesStreamId(bytes[offset + 3])
    requires end == if ReadUint16(bytes, offset + 4) == 0 then |bytes| else offset + 6 + ReadUint16(bytes, offset + 4)
    ensures var unit := FirstUnit(bytes[offset..]);
            && unit.Some? == (end <= |bytes| && PesPayload(bytes[offset + 3], bytes[offset + 6..end]).Some?)
            && (unit.Some? ==> && unit.value == Pes(bytes[offset + 3], unit.value.bounded, bytes[offset + 6..end])
                               && unit.value.Size() == end - offset)
  {
    if end <= |bytes| {
      assert bytes[offset..][6..end - offset] == bytes[offset + 6..end];
    }
  }

  lemma {:induction false} PesPayloadAt(id: byte, bytes: seq<byte>, begin: nat, end: nat)
    requires begin <= end <= |bytes|
    ensures var skip := if id != 0xbe && end >= begin + 3 && bytes[begin] / 0x40 == 2 then 3 + bytes[begin + 2] as int else 0;
            PesPayload(id, bytes[begin..end]) == if begin + skip > end then None else Some(bytes[begin + skip..end])
  {
    if end >= begin + 3 && begin + 3 + bytes[begin + 2] <= end {
      assert bytes[begin..end][3 + bytes[begin + 2]..] == bytes[begin + 3 + bytes[begin + 2]..end];
    }
  }

  /** One PES packet at `offset`: where it ends, and the tally with it. */
  method ReadPes(bytes: seq<byte>, offset: nat, info: ProgramStreamInfo)
    returns (packetEnd: nat, parsed: ProgramStreamInfo, ok: bool)
    requires offset + 6 <= |bytes| && StartsUnit(bytes[offset..]) && IsPesStreamId(bytes[offset + 3])
    ensures ok == FirstUnit(bytes[offset..]).Some?
    ensures ok ==> packetEnd == offset + FirstUnit(bytes[offset..]).value.Size() <= |bytes|
    ensures ok ==> parsed == Plus(info, FirstUnit(bytes[offset..]).value)
  {
    var streamId := bytes[offset + 3];
    parsed := ClassifyPes(streamId, info);
    packetEnd := 0;
    ok := false;
    var packetLength := ReadUint16(bytes, offset + 4);
    if packetLength == 0 {
      packetEnd := |bytes|;
      PesAt(bytes, offset, packetEnd);
    } else {
      packetEnd := offset + 6 + packetLength;
      PesAt(bytes, offset, packetEnd);
      if packetEnd > |bytes| {
        return;
      }
    }
    var payloadOffset;
    payloadOffset, ok := SkipPesHeader(streamId, bytes, offset + 6, packetEnd);
    if ok && streamId != 0xbe {
      parsed := parsed.(pesPayloadBytes := parsed.pesPayloadBytes + (packetEnd - payloadOffset));
      if IsVideoId(streamId) {
        parsed := parsed.(videoPayloads := parsed.videoPayloads + [bytes[payloadOffset..packetEnd]]);
      }
    }
  }

  /** Where the payload of a PES body starts, if its header fits. */
  method SkipPesHeader(streamId: byte, bytes: seq<byte>, begin: nat, packetEnd: nat)
    returns (payloadOffset: nat, ok: bool)
    requires begin <= packetEnd <= |bytes|
    ensures ok == PesPayload(streamId, bytes[begin..packetEnd]).Some?
    ensures ok ==> begin <= payloadOffset <= packetEnd
    ensures ok ==> PesPayload(streamId, bytes[begin..packetEnd]).value == bytes[payloadOffset..packetEnd]
  {
    payloadOffset, ok := begin, true;
    PesPayloadAt(streamId, bytes, begin, packetEnd);
    if streamId != 0xbe && packetEnd >= payloadOffset + 3 && bytes[payloadOffset] / 0x40 == 2 {
      var headerDataLength := bytes[payloadOffset + 2];
      payloadOffset := payloadOffset + 3 + headerDataLength;
      ok := payloadOffset <= packetEnd;
    }
  }

  lemma {:induction false} PackAt(bytes: seq<byte>, offset: nat)
    requires offset + 4 <= |bytes| && StartsUnit(bytes[offset..]) && bytes[offset + 3] == 0xba
    ensures var unit := FirstUnit(bytes[offset..]);
            && unit.Some? == (offset + 14 <= |bytes| && offset + 14 + bytes[offset + 13] % 8 <= |bytes|)
            && (unit.Some? ==> unit.value.Pack? && unit.value.Size() == 14 + bytes[offset + 13] % 8)
  {
  }

  lemma {:induction false} SectionAt(bytes: seq<byte>, offset: nat)
    requires offset + 4 <= |bytes| && StartsUnit(bytes[offset..]) && (bytes[offset + 3] == 0xbb || bytes[offset + 3] == 0xbc)
    ensures var unit := FirstUnit(bytes[offset..]);
            && unit.Some? == (offset + 6 <= |bytes| && offset + 6 + ReadUint16(bytes, offset + 4) <= |bytes|)
            && (unit.Some? ==> && unit.value.Section? && unit.value.id == bytes[offset + 3]
                               && unit.value.Size() == 6 + ReadUint16(bytes, offset + 4))
  {
  }

  /** A pack header with its stuffing bytes. */
  method ReadPack(bytes: seq<byte>, offset: nat, info: ProgramStreamInfo)
    returns (next: nat, parsed: ProgramStreamInfo, ok: bool)
    requires offset + 4 <= |bytes| && StartsUnit(bytes[offset..]) && bytes[offset + 3] == 0xba
    ensures ok == FirstUnit(bytes[offset..]).Some?
    ensures ok ==> next == offset + FirstUnit(bytes[offset..]).value.Size() <= |bytes|
    ensures ok ==> parsed == Plus(info, FirstUnit(bytes[offset..]).value)
  {
    PackAt(bytes, offset);
    next, parsed, ok := offset, info, false;
    if offset + 14 > |bytes| {
      return;
    }
    var stuffing := bytes[offset + 13] % 8;
    next := offset + 14 + stuffing;
    if next > |bytes| {
      return;
    }
    parsed := info.(packHeaders := info.packHeaders + 1);
    ok := true;
  }

  /** A system header or program stream map with its length. */
  method ReadSection(bytes: seq<byte>, offset: nat, info: ProgramStreamInfo)
    returns (next: nat, parsed: ProgramStreamInfo, ok: bool)
    requires offset + 4 <= |bytes| && StartsUnit(bytes[offset..])
    requires bytes[offset + 3] == 0xbb || bytes[offset + 3] == 0xbc
    ensures ok == FirstUnit(bytes[offset..]).Some?
    ensures ok ==> next == offset + FirstUnit(bytes[offset..]).value.Size() <= |bytes|
    ensures ok ==> parsed == Plus(info, FirstUnit(bytes[offset..]).value)
  {
    SectionAt(bytes, offset);
    next, parsed, ok := offset, info, false;
    if offset + 6 > |bytes| {
      return;
    }
    var sectionLength := ReadUint16(bytes, offset + 4);
    next := offset + 6 + sectionLength;
    if next > |bytes| {
      return;
    }
    if bytes[offset + 3] == 0xbb {
      parsed := info.(systemHeaders := info.systemHeaders + 1);
    } else {
      parsed := info.(programStreamMaps := info.programStreamMaps + 1);
    }
    ok := true;
  }

  /** One round of the parser's loop: a pack header, a section or a PES packet. */
  method ReadUnit(bytes: seq<byte>, offset: nat, info: ProgramStreamInfo)
    returns (next: nat, parsed: ProgramStreamInfo, ok: bool)
    requires offset < |bytes|
    ensures ok == FirstUnit(bytes[offset..]).Some?
    ensures ok ==> next == offset + FirstUnit(bytes[offset..]).value.Size() <= |bytes|
    ensures ok ==> parsed == Plus(info, FirstUnit(bytes[offset..]).value)
  {
    next, parsed, ok := offset, info, false;
    if !StartsUnit(bytes[offset..]) {
      return;
    }
    var streamId := bytes[offset + 3];
    if streamId == 0xba {
      next, parsed, ok := ReadPack(bytes, offset, info);
    } else if streamId == 0xbb || streamId == 0xbc {
      next, parsed, ok := ReadSection(bytes, offset, info);
    } else if IsPesStreamId(streamId) && offset + 6 <= |bytes| {
      next, parsed, ok := ReadPes(bytes, offset, info);
    }
  }

  /** The offset-driven loop reads exactly the units of the grammar and counts them; it terminates because
      every unit is nonempty. */
  method ParseProgramStreamPayload(bytes: seq<byte>) returns (info: Option<ProgramStreamInfo>, ok: bool)
    ensures info == ParseResult(bytes)
    ensures ok == Accepted(bytes)
  {
    if bytes == [] {
      return None, false;
    }
    TallyAll(bytes);
    var parsed := EMPTY_INFO;
    var offset := 0;
    while offset < |bytes|
      invariant offset <= |bytes|
      invariant TallyFrom(bytes, offset, parsed) == ParseResult(bytes)
      decreases |bytes| - offset
    {
      TallyStep(bytes, offset, parsed);
      var next, fits;
      next, parsed, fits := ReadUnit(bytes, offset, parsed);
      if !fits {
        return None, false;
      }
      offset := next;
    }
    TallyEnd(bytes, parsed);
    info := Some(parsed);
    ok := parsed.packHeaders > 0 && parsed.HasMediaPayload();
  }

  // ---------------------------------------------------------------- the builder

  const MAX_BOUNDED_PAYLOAD := 65532

  function BuildProgramStreamSample(videoPayload: seq<byte>): (bytes: seq<byte>)
    ensures |bytes| == 23 + |videoPayload|
  {
    var pesLength := 3 + |videoPayload|;
    [0x00, 0x00, 0x01, 0xba, 0x44, 0x00, 0x04, 0x00, 0x04, 0x01, 0x00, 0x00, 0x03, 0xf8] +
    [0x00, 0x00, 0x01, 0xe0] + Uint16Bytes(if pesLength <= 0xffff then pesLength else 0) + [0x80, 0x00, 0x00] +
    videoPayload
  }

  const SAMPLE_PACK := Pack([0x44, 0x00, 0x04, 0x00, 0x04, 0x01, 0x00, 0x00, 0x03, 0xf8], [])

  function SamplePes(videoPayload: seq<byte>): Unit {
    Pes(0xe0, |videoPayload| <= MAX_BOUNDED_PAYLOAD, [0x80, 0x00, 0x00] + videoPayload)
  }

  lemma {:induction false} SamplePesPayload(videoPayload: seq<byte>)
    ensures SamplePes(videoPayload).Valid() && SamplePes(videoPayload).Payload() == videoPayload
  {
    var body := [0x80, 0x00, 0x00] + videoPayload;
    assert body[3..] == videoPayload;
    assert PesPayload(0xe0, body) == Some(body[3..]);
  }

  lemma {:induction false} Regroup(a: seq<byte>, b: seq<byte>, c: seq<byte>, d: seq<byte>, e: seq<byte>)
    ensures a + b + c + d + e == a + (b + c + (d + e))
  {
  }

  lemma {:induction false} SampleUnits(videoPayload: seq<byte>)
    ensures SAMPLE_PACK.Valid() && SamplePes(videoPayload).Valid()
    ensures SamplePes(videoPayload).Payload() == videoPayload
    ensures BuildProgramStreamSample(videoPayload) == SAMPLE_PACK.Encode() + SamplePes(videoPayload).Encode()
  {
    SamplePesPayload(videoPayload);
    var length := if 3 + |videoPayload| <= 0xffff then 3 + |videoPayload| else 0;
    SamplePack();
    SamplePesBytes(videoPayload, length);
    Regroup(SAMPLE_PACK.Encode(), [0x00, 0x00, 0x01, 0xe0], Uint16Bytes(length), [0x80, 0x00, 0x00], videoPayload);
  }

  lemma {:induction false} SamplePack()
    ensures SAMPLE_PACK.Valid()
    ensures SAMPLE_PACK.Encode() == [0x00, 0x00, 0x01, 0xba, 0x44, 0x00, 0x04, 0x00, 0x04, 0x01, 0x00, 0x00, 0x03, 0xf8]
  {
  }

  lemma {:induction false} SamplePesBytes(videoPayload: seq<byte>, length: uint16)
    requires length == if 3 + |videoPayload| <= 0xffff then 3 + |videoPayload| else 0
    ensures SamplePes(videoPayload).Valid()
    ensures SamplePes(videoPayload).Encode() ==
            [0x00, 0x00, 0x01, 0xe0] + Uint16Bytes(length) + ([0x80, 0x00, 0x00] + videoPayload)
  {
    SamplePesPayload(videoPayload);
  }

  /** The bytes of several samples, one after the other. */
  function Samples(payloads: seq<seq<byte>>): seq<byte> {
    if payloads == [] then [] else BuildProgramStreamSample(payloads[0]) + Samples(payloads[1..])
  }

  function SamplesUnits(payloads: seq<seq<byte>>): seq<Unit> {
    if payloads == [] then [] else [SAMPLE_PACK, SamplePes(payloads[0])] + SamplesUnits(payloads[1..])
  }

  /** Only the last payload may be too long for a PES length field. */
  predicate Bounded(payloads: seq<seq<byte>>) {
    forall i :: 0 <= i < |payloads| - 1 ==> |payloads[i]| <= MAX_BOUNDED_PAYLOAD
  }

  lemma {:induction false} EncodePair(a: Unit, b: Unit, rest: seq<Unit>)
    requires a.Valid() && b.Valid() && AllValid(rest)
    ensures AllValid([a, b] + rest) && EncodeAll([a, b] + rest) == a.Encode() + b.Encode() + EncodeAll(rest)
  {
    var tail := [b] + rest;
    assert [a, b] + rest == [a] + tail;
    assert ([a] + tail)[1..] == tail && tail[1..] == rest;
    assert EncodeAll(tail) == b.Encode() + EncodeAll(rest);
  }

  lemma {:induction false} SamplesAreUnits(payloads: seq<seq<byte>>)
    requires Bounded(payloads)
    ensures ValidStream(SamplesUnits(payloads)) && |SamplesUnits(payloads)| == 2 * |payloads|
    ensures EncodeAll(SamplesUnits(payloads)) == Samples(payloads)
  {
    if payloads != [] {
      var rest := payloads[1..];
      assert forall i :: 0 <= i < |rest| - 1 ==> rest[i] == payloads[i + 1];
      SamplesAreUnits(rest);
      SampleUnits(payloads[0]);
      assert |payloads| > 1 ==> !SamplePes(payloads[0]).Unbounded();
      EncodePair(SAMPLE_PACK, SamplePes(payloads[0]), SamplesUnits(rest));
    }
  }

  /** The tally after n more samples. */
  function PlusSamples(info: ProgramStreamInfo, payloads: seq<seq<byte>>): ProgramStreamInfo {
    info.(packHeaders := info.packHeaders + |payloads|, pesPackets := info.pesPackets + |payloads|,
          videoPesPackets := info.videoPesPackets + |payloads|,
          pesPayloadBytes := info.pesPayloadBytes + |Flatten(payloads)|,
          videoPayloads := info.videoPayloads + payloads)
  }

  lemma {:induction false} PlusSample(info: ProgramStreamInfo, payload: seq<byte>, rest: seq<Unit>)
    requires AllValid(rest)
    ensures AllValid([SAMPLE_PACK, SamplePes(payload)] + rest)
    ensures PlusAll(info, [SAMPLE_PACK, SamplePes(payload)] + rest) ==
            PlusAll(info.(packHeaders := info.packHeaders + 1, pesPackets := info.pesPackets + 1,
                          videoPesPackets := info.videoPesPackets + 1,
                          pesPayloadBytes := info.pesPayloadBytes + |payload|,
                          videoPayloads := info.videoPayloads + [payload]), rest)
  {
    SampleUnits(payload);
    var pes := [SamplePes(payload)] + rest;
    var units := [SAMPLE_PACK] + pes;
    assert [SAMPLE_PACK, SamplePes(payload)] + rest == units;
    assert units[1..] == pes && pes[1..] == rest;
    assert PlusAll(info, units) == PlusAll(Plus(info, SAMPLE_PACK), pes);
  }

  lemma {:induction false} SamplesTally(payloads: seq<seq<byte>>, info: ProgramStreamInfo)
    requires Bounded(payloads)
    ensures AllValid(SamplesUnits(payloads))
    ensures PlusAll(info, SamplesUnits(payloads)) == PlusSamples(info, payloads)
    decreases |payloads|
  {
    if payloads == [] {
      assert info.videoPayloads + payloads == info.videoPayloads;
    } else {
      var rest := payloads[1..];
      assert forall i :: 0 <= i < |rest| - 1 ==> rest[i] == payloads[i + 1];
      var next := PlusSamples(info, [payloads[0]]);
      FlattenSingle(payloads[0]);
      SamplesTally(rest, next);
      PlusSample(info, payloads[0], SamplesUnits(rest));
      PlusSamplesCons(info, payloads[0], rest);
      assert [payloads[0]] + rest == payloads;
    }
  }

  lemma {:induction false} PlusSamplesCons(info: ProgramStreamInfo, payload: seq<byte>, rest: seq<seq<byte>>)
    ensures PlusSamples(PlusSamples(info, [payload]), rest) == PlusSamples(info, [payload] + rest)
  {
    FlattenSingle(payload);
    FlattenAppend([payload], rest);
    ConcatAssoc(info.videoPayloads, [payload], rest);
  }

  lemma {:induction false} SamplesInfo(payloads: seq<seq<byte>>)
    requires Bounded(payloads)
    ensures AllValid(SamplesUnits(payloads))
    ensures InfoOf(SamplesUnits(payloads)) ==
            ProgramStreamInfo(|payloads|, 0, 0, |payloads|, |payloads|, 0, 0, |Flatten(payloads)|, payloads)
  {
    SamplesTally(payloads, EMPTY_INFO);
    TallyIsInfo(SamplesUnits(payloads));
    assert [] + payloads == payloads;
  }

  /** The parser undoes the builder: samples laid end to end parse back to the list of their payloads. */
  lemma {:induction false} SamplesRoundTrip(payloads: seq<seq<byte>>)
    requires payloads != [] && Bounded(payloads)
    ensures Accepted(Samples(payloads))
    ensures ParseResult(Samples(payloads)) ==
            Some(ProgramStreamInfo(|payloads|, 0, 0, |payloads|, |payloads|, 0, 0, |Flatten(payloads)|, payloads))
  {
    SamplesAreUnits(payloads);
    UnitsComplete(SamplesUnits(payloads));
    SamplesInfo(payloads);
    assert |Samples(payloads)| >= 23;
  }
}
