/** Annex-B elementary streams (Annex B of ITU-T H.264) as src/media/ElementaryStream.cpp scans them. */
module ElementaryStreams {
  import opened Common

  datatype VideoCodec = UnknownCodec | H264 | H265

  datatype ElementaryStreamInfo = ElementaryStreamInfo(
    codec: VideoCodec,
    bytes: nat,
    nalUnits: nat,
    h264Sps: nat, h264Pps: nat, h264Idr: nat,
    h265Vps: nat, h265Sps: nat, h265Pps: nat, h265Idr: nat)
  {
    predicate HasVideo() { nalUnits > 0 && codec != UnknownCodec }
  }

  // ---------------------------------------------------------------- start codes

  function StartCodeSize(bytes: seq<byte>, offset: nat): nat {
    if offset + 3 <= |bytes| && bytes[offset] == 0 && bytes[offset + 1] == 0 && bytes[offset + 2] == 1 then 3
    else if offset + 4 <= |bytes| && bytes[offset] == 0 && bytes[offset + 1] == 0 && bytes[offset + 2] == 0 &&
            bytes[offset + 3] == 1 then 4
    else 0
  }

  /** `next` is the first start code at or after `offset`, or the end of the bytes. */
  predicate IsNextStart(bytes: seq<byte>, offset: nat, next: nat) {
    && offset <= next <= |bytes|
    && (next < |bytes| ==> StartCodeSize(bytes, next) > 0)
    && forall i :: offset <= i < next ==> StartCodeSize(bytes, i) == 0
  }

  /** The same position, as a function of the bytes still to be scanned. */
  function NextStart(bytes: seq<byte>): (next: nat)
    ensures IsNextStart(bytes, 0, next)
  {
    if bytes == [] || StartCodeSize(bytes, 0) > 0 then 0
    else
      var next := NextStart(bytes[1..]);
      assert forall i :: 0 < i < next + 1 ==> StartCodeSize(bytes, i) == StartCodeSize(bytes[1..], i - 1);
      assert next + 1 < |bytes| ==> StartCodeSize(bytes, next + 1) == StartCodeSize(bytes[1..], next);
      next + 1
  }

  lemma {:induction false} NextStartUnique(bytes: seq<byte>, offset: nat, next: nat)
    requires IsNextStart(bytes, offset, next)
    ensures next == offset + NextStart(bytes[offset..])
  {
    NextStartShift(bytes, offset);
  }

  lemma {:induction false} NextStartShift(bytes: seq<byte>, offset: nat)
    requires offset <= |bytes|
    ensures IsNextStart(bytes, offset, offset + NextStart(bytes[offset..]))
  {
    var tail := bytes[offset..];
    assert forall i :: offset <= i < |bytes| ==> StartCodeSize(tail, i - offset) == StartCodeSize(bytes, i);
  }

  method FindStartCode(bytes: seq<byte>, offset: nat) returns (next: nat)
    requires offset <= |bytes|
    ensures IsNextStart(bytes, offset, next)
  {
    var i := offset;
    while i + 3 <= |bytes|
      invariant offset <= i <= |bytes|
      invariant forall j :: offset <= j < i ==> StartCodeSize(bytes, j) == 0
    {
      if StartCodeSize(bytes, i) > 0 {
        return i;
      }
      i := i + 1;
    }
    next := |bytes|;
  }

  // ---------------------------------------------------------------- NAL units

  datatype NalUnit = NalUnit(codeSize: nat, body: seq<byte>)
  {
    function StartCode(): seq<byte> {
      if codeSize == 4 then [0, 0, 0, 1] else [0, 0, 1]
    }

    function Encode(): seq<byte> { StartCode() + body }
  }

  /** The NAL units of bytes that begin with a start code; None when one is empty. */
  function Nals(bytes: seq<byte>): Option<seq<NalUnit>>
    requires bytes != [] ==> StartCodeSize(bytes, 0) > 0
    decreases |bytes|
  {
    if bytes == [] then Some([])
    else
      var body := bytes[StartCodeSize(bytes, 0)..];
      var next := NextStart(body);
      if next == 0 then None
      else
        match Nals(body[next..])
        case None => None
        case Some(rest) => Some([NalUnit(StartCodeSize(bytes, 0), body[..next])] + rest)
  }

  /** The scan starts at the first start code; what precedes it is skipped. */
  function StreamNals(bytes: seq<byte>): Option<seq<NalUnit>> {
    Nals(bytes[NextStart(bytes)..])
  }

  // ---------------------------------------------------------------- classification

  function DetectCodec(header: byte): VideoCodec {
    var h264Type := header % 0x20;
    var h265Type := header / 2 % 0x40;
    if (32 <= h265Type <= 34 || 16 <= h265Type <= 21) &&
       !(h264Type == 1 || h264Type == 5 || h264Type == 6 || h264Type == 7 || h264Type == 8) then H265
    else if 0 < h264Type <= 12 then H264
    else UnknownCodec
  }

  /** One more unit of a codec that fits the stream, counted by its type. */
  function AddNal(info: ElementaryStreamInfo, header: byte): Option<ElementaryStreamInfo> {
    var codec := DetectCodec(header);
    if codec == UnknownCodec || (info.codec != UnknownCodec && info.codec != codec) then None
    else
      var counted := info.(codec := codec, nalUnits := info.nalUnits + 1);
      Some(if codec == H264 then ClassifyH264(counted, header) else ClassifyH265(counted, header))
  }

  function ClassifyH264(info: ElementaryStreamInfo, header: byte): ElementaryStreamInfo {
    var t := header % 0x20;
    if t == 7 then info.(h264Sps := info.h264Sps + 1)
    else if t == 8 then info.(h264Pps := info.h264Pps + 1)
    else if t == 5 then info.(h264Idr := info.h264Idr + 1)
    else info
  }

  function ClassifyH265(info: ElementaryStreamInfo, header: byte): ElementaryStreamInfo {
    var t := header / 2 % 0x40;
    if t == 32 then info.(h265Vps := info.h265Vps + 1)
    else if t == 33 then info.(h265Sps := info.h265Sps + 1)
    else if t == 34 then info.(h265Pps := info.h265Pps + 1)
    else if 16 <= t <= 21 then info.(h265Idr := info.h265Idr + 1)
    else info
  }

  function AddAll(info: ElementaryStreamInfo, headers: seq<byte>): Option<ElementaryStreamInfo>
    decreases |headers|
  {
    if headers == [] then Some(info)
    else
      match AddNal(info, headers[0])
      case None => None
      case Some(added) => AddAll(added, headers[1..])
  }

  predicate AllNonempty(nals: seq<NalUnit>) {
    forall n <- nals :: n.body != []
  }

  function Headers(nals: seq<NalUnit>): seq<byte>
    requires AllNonempty(nals)
  {
    if nals == [] then [] else [nals[0].body[0]] + Headers(nals[1..])
  }

  lemma {:induction false} NalsNonempty(bytes: seq<byte>)
    requires bytes != [] ==> StartCodeSize(bytes, 0) > 0
    requires Nals(bytes).Some?
    ensures AllNonempty(Nals(bytes).value)
    decreases |bytes|
  {
    if bytes != [] {
      var body := bytes[StartCodeSize(bytes, 0)..];
      NalsNonempty(body[NextStart(body)..]);
    }
  }

  const NO_NALS := ElementaryStreamInfo(UnknownCodec, 0, 0, 0, 0, 0, 0, 0, 0, 0)

  /** What the parser reports; None when it answers false. */
  function Parse(bytes: seq<byte>): Option<ElementaryStreamInfo> {
    if StreamNals(bytes).None? then None
    else
      NalsNonempty(bytes[NextStart(bytes)..]);
      match AddAll(NO_NALS.(bytes := |bytes|), Headers(StreamNals(bytes).value))
      case None => None
      case Some(info) => if info.HasVideo() then Some(info) else None
  }

  // ---------------------------------------------------------------- the parser

  /** Scanning on from bytes that begin with a start code. */
  function Scan(bytes: seq<byte>, info: ElementaryStreamInfo): Option<ElementaryStreamInfo>
    requires bytes != [] ==> StartCodeSize(bytes, 0) > 0
    decreases |bytes|
  {
    if bytes == [] then Some(info)
    else
      var body := bytes[StartCodeSize(bytes, 0)..];
      var next := NextStart(body);
      if next == 0 then None
      else
        match AddNal(info, body[0])
        case None => None
        case Some(added) => Scan(body[next..], added)
  }

  lemma {:induction false} ScanIsParse(bytes: seq<byte>, info: ElementaryStreamInfo)
    requires bytes != [] ==> StartCodeSize(bytes, 0) > 0
    ensures Nals(bytes).Some? ==> AllNonempty(Nals(bytes).value)
    ensures Scan(bytes, info) == if Nals(bytes).None? then None else AddAll(info, Headers(Nals(bytes).value))
    decreases |bytes|
  {
    if Nals(bytes).Some? {
      NalsNonempty(bytes);
    }
    if bytes != [] {
      var body := bytes[StartCodeSize(bytes, 0)..];
      var next := NextStart(body);
      if next > 0 && AddNal(info, body[0]).Some? {
        ScanIsParse(body[next..], AddNal(info, body[0]).value);
      }
      if Nals(bytes).Some? {
        var nals := Nals(bytes).value;
        assert nals[1..] == Nals(body[next..]).value;
        assert Headers(nals)[1..] == Headers(nals[1..]);
      }
    }
  }

  function ScanAt(bytes: seq<byte>, start: nat, info: ElementaryStreamInfo): Option<ElementaryStreamInfo>
    requires start <= |bytes| && (start < |bytes| ==> StartCodeSize(bytes, start) > 0)
  {
    assert start < |bytes| ==> StartCodeSize(bytes[start..], 0) == StartCodeSize(bytes, start);
    Scan(bytes[start..], info)
  }

  lemma {:induction false} ScanStep(bytes: seq<byte>, start: nat, next: nat, info: ElementaryStreamInfo)
    requires start < |bytes| && StartCodeSize(bytes, start) > 0
    requires IsNextStart(bytes, start + StartCodeSize(bytes, start), next)
    ensures var nalBegin := start + StartCodeSize(bytes, start);
            ScanAt(bytes, start, info) ==
            if next == nalBegin then None
            else match AddNal(info, bytes[nalBegin])
                 case None => None
                 case Some(added) => ScanAt(bytes, next, added)
  {
    var codeSize := StartCodeSize(bytes, start);
    assert codeSize == StartCodeSize(bytes[start..], 0);
    NextStartUnique(bytes, start + codeSize, next);
    assert bytes[start..][codeSize..] == bytes[start + codeSize..];
    assert bytes[start + codeSize..][next - start - codeSize..] == bytes[next..];
  }

  lemma {:induction false} ScanStart(bytes: seq<byte>, start: nat)
    requires IsNextStart(bytes, 0, start)
    ensures Parse(bytes) == match ScanAt(bytes, start, NO_NALS.(bytes := |bytes|))
                            case None => None
                            case Some(info) => if info.HasVideo() then Some(info) else None
  {
    NextStartUnique(bytes, 0, start);
    assert bytes[0..] == bytes;
    assert start < |bytes| ==> StartCodeSize(bytes[start..], 0) == StartCodeSize(bytes, start);
    ScanIsParse(bytes[start..], NO_NALS.(bytes := |bytes|));
  }

  /** One NAL header: its codec must be known and agree with the units before it. */
  method ClassifyNal(info: ElementaryStreamInfo, header: byte) returns (added: Option<ElementaryStreamInfo>)
    ensures added == AddNal(info, header)
  {
    var parsed := info;
    var codec := DetectCodec(header);
    if codec == UnknownCodec {
      return None;
    }
    if parsed.codec == UnknownCodec {
      parsed := parsed.(codec := codec);
    } else if parsed.codec != codec {
      return None;
    }
    parsed := parsed.(nalUnits := parsed.nalUnits + 1);
    if codec == H264 {
      parsed := ClassifyH264(parsed, header);
    } else if codec == H265 {
      parsed := ClassifyH265(parsed, header);
    }
    added := Some(parsed);
  }

  /** The units from a start code to the end. */
  method ScanUnits(bytes: seq<byte>, first: nat, info: ElementaryStreamInfo) returns (scanned: Option<ElementaryStreamInfo>)
    requires first <= |bytes| && (first < |bytes| ==> StartCodeSize(bytes, first) > 0)
    ensures scanned == ScanAt(bytes, first, info)
  {
    var start, parsed := first, info;
    while start < |bytes|
      invariant start <= |bytes|
      invariant start < |bytes| ==> StartCodeSize(bytes, start) > 0
      invariant ScanAt(bytes, start, parsed) == ScanAt(bytes, first, info)
      decreases |bytes| - start
    {
      var codeSize := StartCodeSize(bytes, start);
      var nalBegin := start + codeSize;
      var next := FindStartCode(bytes, nalBegin);
      ScanStep(bytes, start, next, parsed);
      if nalBegin >= next {
        return None;
      }
      var added := ClassifyNal(parsed, bytes[nalBegin]);
      if added.None? {
        return None;
      }
      parsed := added.value;
      start := next;
    }
    scanned := Some(parsed);
  }

  method ParseElementaryStream(bytes: seq<byte>) returns (info: Option<ElementaryStreamInfo>)
    ensures info == Parse(bytes)
  {
    if bytes == [] {
      return None;
    }
    var start := FindStartCode(bytes, 0);
    ScanStart(bytes, start);
    var scanned := ScanUnits(bytes, start, NO_NALS.(bytes := |bytes|));
    if scanned.Some? && scanned.value.HasVideo() {
      info := scanned;
    } else {
      info := None;
    }
  }

  // ---------------------------------------------------------------- what a parse means

  lemma {:induction false} NoCodeBefore(body: seq<byte>)
    ensures NextStart(body[..NextStart(body)]) == NextStart(body)
  {
    var next := NextStart(body);
    var head := body[..next];
    assert forall i :: 0 <= i < next && StartCodeSize(head, i) > 0 ==> StartCodeSize(body, i) > 0;
    NextStartUnique(head, 0, next);
    assert head[0..] == head;
  }

  /** No body is empty or hides a start code. */
  predicate WellCut(nals: seq<NalUnit>) {
    nals == [] || (nals[0].body != [] && NextStart(nals[0].body) == |nals[0].body| && WellCut(nals[1..]))
  }

  lemma {:induction false} NalsWellCut(bytes: seq<byte>)
    requires bytes != [] ==> StartCodeSize(bytes, 0) > 0
    requires Nals(bytes).Some?
    ensures WellCut(Nals(bytes).value)
    decreases |bytes|
  {
    if bytes != [] {
      var body := bytes[StartCodeSize(bytes, 0)..];
      NalsWellCut(body[NextStart(body)..]);
      NoCodeBefore(body);
      assert Nals(bytes).value[1..] == Nals(body[NextStart(body)..]).value;
    }
  }

  lemma {:induction false} JoinCons(n: NalUnit, rest: seq<NalUnit>)
    ensures Join([n] + rest) == n.Encode() + Join(rest)
  {
    assert ([n] + rest)[1..] == rest;
  }

  lemma {:induction false} SplitAt(bytes: seq<byte>, a: nat, b: nat)
    requires a + b <= |bytes|
    ensures bytes == bytes[..a] + bytes[a..][..b] + bytes[a..][b..]
  {
  }

  /** Nothing is lost between the units: after the skipped lead the bytes are the units' start codes and
      bodies. */
  lemma {:induction false} NalsCover(bytes: seq<byte>)
    requires bytes != [] ==> StartCodeSize(bytes, 0) > 0
    requires Nals(bytes).Some?
    ensures Join(Nals(bytes).value) == bytes
    decreases |bytes|
  {
    if bytes != [] {
      var codeSize := StartCodeSize(bytes, 0);
      var body := bytes[codeSize..];
      var next := NextStart(body);
      NalsCover(body[next..]);
      JoinCons(NalUnit(codeSize, body[..next]), Nals(body[next..]).value);
      StartCodeBytes(bytes);
      SplitAt(bytes, codeSize, next);
    }
  }

  /** What acceptance means: behind a lead without start codes the stream is a nonempty join of nonempty,
      well-cut units, one per counted unit. */
  lemma {:induction false} ParseSound(bytes: seq<byte>)
    requires Parse(bytes).Some?
    ensures StreamNals(bytes).Some?
    ensures var nals := StreamNals(bytes).value;
            && nals != [] && WellCut(nals)
            && bytes == bytes[..NextStart(bytes)] + Join(nals)
            && Parse(bytes).value.nalUnits == |nals| && Parse(bytes).value.bytes == |bytes|
  {
    var start := NextStart(bytes);
    NalsWellCut(bytes[start..]);
    NalsCover(bytes[start..]);
    NalsNonempty(bytes[start..]);
    HeadersOf(StreamNals(bytes).value);
    AddAllCounts(NO_NALS.(bytes := |bytes|), Headers(StreamNals(bytes).value));
  }

  lemma {:induction false} AddAllCounts(info: ElementaryStreamInfo, headers: seq<byte>)
    requires AddAll(info, headers).Some?
    ensures AddAll(info, headers).value.nalUnits == info.nalUnits + |headers|
    ensures AddAll(info, headers).value.bytes == info.bytes
    decreases |headers|
  {
    if headers != [] {
      AddAllCounts(AddNal(info, headers[0]).value, headers[1..]);
    }
  }

  lemma {:induction false} StartCodeBytes(bytes: seq<byte>)
    requires StartCodeSize(bytes, 0) > 0
    ensures bytes[..StartCodeSize(bytes, 0)] == NalUnit(StartCodeSize(bytes, 0), []).StartCode()
  {
  }

  function Join(nals: seq<NalUnit>): seq<byte> {
    if nals == [] then [] else nals[0].Encode() + Join(nals[1..])
  }

  /** A unit a sender may put behind a 3- or 4-byte start code: it has a nonzero header and no start code
      inside; trailing zeros are allowed. */
  predicate Sendable(n: NalUnit) {
    && (n.codeSize == 3 || n.codeSize == 4)
    && n.body != [] && n.body[0] != 0
    && forall i :: 0 <= i < |n.body| - 2 ==> !(n.body[i] == 0 && n.body[i + 1] == 0 && n.body[i + 2] == 1)
  }

  lemma {:induction false} JoinStartsWithCode(nals: seq<NalUnit>)
    requires nals != [] && Sendable(nals[0])
    ensures StartCodeSize(Join(nals), 0) == nals[0].codeSize
    ensures Join(nals)[nals[0].codeSize..] == nals[0].body + Join(nals[1..])
  {
    var n, rest := nals[0], Join(nals[1..]);
    assert n.Encode() == n.StartCode() + n.body;
    assert n.StartCode() + n.body + rest == n.StartCode() + (n.body + rest);
    assert n.codeSize == 4 ==> Join(nals)[..4] == [0, 0, 0, 1];
    assert n.codeSize == 3 ==> Join(nals)[..3] == [0, 0, 1];
  }

  /** A unit's body ends where the next start code begins, except that a body ending in zero gives its last
      zero to a 3-byte start code behind it. */
  lemma {:induction false} BodyEnd(n: NalUnit, rest: seq<NalUnit>)
    requires Sendable(n) && (rest != [] ==> Sendable(rest[0]))
    ensures NextStart(n.body + Join(rest)) ==
            if rest != [] && rest[0].codeSize == 3 && n.body[|n.body| - 1] == 0 then |n.body| - 1 else |n.body|
  {
    var bytes := n.body + Join(rest);
    var lends := rest != [] && rest[0].codeSize == 3 && n.body[|n.body| - 1] == 0;
    var end := if lends then |n.body| - 1 else |n.body|;
    if rest != [] {
      JoinStartsWithCode(rest);
      assert bytes[|n.body|..] == Join(rest);
      assert forall k :: 0 <= k < |Join(rest)| ==> bytes[|n.body| + k] == Join(rest)[k];
    }
    forall i | 0 <= i < end ensures StartCodeSize(bytes, i) == 0 {
      if i < |n.body| - 2 {
        assert !(n.body[i] == 0 && n.body[i + 1] == 0 && n.body[i + 2] == 1);
        assert i + 1 < |n.body| - 2 ==> !(n.body[i + 1] == 0 && n.body[i + 2] == 0 && n.body[i + 3] == 1);
      }
    }
    assert IsNextStart(bytes, 0, end);
    NextStartUnique(bytes, 0, end);
    assert bytes[0..] == bytes;
  }

  predicate AllSendable(nals: seq<NalUnit>) {
    forall n <- nals :: Sendable(n)
  }

  /** Reading one unit off the front of a join. */
  lemma {:induction false} FirstOfJoin(nals: seq<NalUnit>, next: nat)
    requires nals != [] && Sendable(nals[0])
    requires next == NextStart(nals[0].body + Join(nals[1..])) > 0
    ensures var tail := (nals[0].body + Join(nals[1..]))[next..];
            && Join(nals) != [] && StartCodeSize(Join(nals), 0) == nals[0].codeSize
            && (tail != [] ==> StartCodeSize(tail, 0) > 0)
            && (Nals(tail).Some? && AllNonempty(Nals(tail).value) ==>
                 && Nals(Join(nals)).Some? && AllNonempty(Nals(Join(nals)).value)
                 && Headers(Nals(Join(nals)).value) == [nals[0].body[0]] + Headers(Nals(tail).value))
  {
    JoinStartsWithCode(nals);
    var body := nals[0].body + Join(nals[1..]);
    var tail := body[next..];
    NextStartUnique(body, 0, next);
    assert tail != [] ==> StartCodeSize(tail, 0) == StartCodeSize(body, next);
    if Nals(tail).Some? && AllNonempty(Nals(tail).value) {
      var unit := NalUnit(nals[0].codeSize, body[..next]);
      var read := [unit] + Nals(tail).value;
      assert Nals(Join(nals)) == Some(read);
      assert read[1..] == Nals(tail).value;
      HeadersCons(read);
      assert unit.body[0] == body[0] == nals[0].body[0];
    }
  }

  lemma {:induction false} KeepLastZero(body: seq<byte>, rest: seq<byte>)
    requires body != [] && body[|body| - 1] == 0
    ensures (body + rest)[|body| - 1..] == [0] + rest
  {
  }

  lemma {:induction false} LongerCode(first: NalUnit, rest: seq<NalUnit>)
    requires first.codeSize == 3
    ensures Join([NalUnit(4, first.body)] + rest) == [0] + Join([first] + rest)
  {
    var longer := NalUnit(4, first.body);
    JoinCons(first, rest);
    JoinCons(longer, rest);
    assert longer.Encode() == [0] + first.Encode();
    ConcatAssoc([0], first.Encode(), Join(rest));
  }

  /** When a body lends its last zero, what is left reads like the rest behind a longer start code. */
  lemma {:induction false} LentZero(n: NalUnit, rest: seq<NalUnit>)
    requires n.body != [] && n.body[|n.body| - 1] == 0 && rest != [] && rest[0].codeSize == 3
    ensures (n.body + Join(rest))[|n.body| - 1..] == Join([NalUnit(4, rest[0].body)] + rest[1..])
  {
    assert rest == [rest[0]] + rest[1..];
    KeepLastZero(n.body, Join(rest));
    LongerCode(rest[0], rest[1..]);
  }

  /** The scan undoes the join as far as units and headers go. */
  lemma {:induction false} ScanUndoesJoin(nals: seq<NalUnit>)
    requires AllSendable(nals)
    ensures Join(nals) != [] ==> StartCodeSize(Join(nals), 0) > 0
    ensures Nals(Join(nals)).Some? && AllNonempty(Nals(Join(nals)).value)
    ensures AllNonempty(nals) && Headers(Nals(Join(nals)).value) == Headers(nals)
    decreases |nals|
  {
    if nals != [] {
      var n, rest := nals[0], nals[1..];
      BodyEnd(n, rest);
      var next := NextStart(n.body + Join(rest));
      FirstOfJoin(nals, next);
      if next == |n.body| {
        assert (n.body + Join(rest))[next..] == Join(rest);
        ScanUndoesJoin(rest);
      } else {
        LentZero(n, rest);
        var longer := [NalUnit(4, rest[0].body)] + rest[1..];
        ScanUndoesJoin(longer);
        assert longer[1..] == rest[1..];
      }
    }
  }

  lemma {:induction false} HeadersCons(nals: seq<NalUnit>)
    requires nals != [] && AllNonempty(nals[1..]) && nals[0].body != []
    ensures AllNonempty(nals) && Headers(nals) == [nals[0].body[0]] + Headers(nals[1..])
  {
  }

  predicate IsCountedH264Type(t: nat) { t == 1 || t == 5 || t == 6 || t == 7 || t == 8 }

  function CountType(headers: seq<byte>, t: nat): nat {
    if headers == [] then 0 else (if headers[0] % 0x20 == t then 1 else 0) + CountType(headers[1..], t)
  }

  lemma {:induction false} H264Counts(info: ElementaryStreamInfo, headers: seq<byte>)
    requires info.codec != H265 && headers != []
    requires forall h <- headers :: IsCountedH264Type(h % 0x20)
    ensures AddAll(info, headers) == Some(info.(
              codec := H264, nalUnits := info.nalUnits + |headers|,
              h264Sps := info.h264Sps + CountType(headers, 7), h264Pps := info.h264Pps + CountType(headers, 8),
              h264Idr := info.h264Idr + CountType(headers, 5)))
    decreases |headers|
  {
    assert IsCountedH264Type(headers[0] % 0x20);
    assert DetectCodec(headers[0]) == H264;
    if |headers| > 1 {
      H264Counts(AddNal(info, headers[0]).value, headers[1..]);
    } else {
      assert headers[1..] == [];
    }
  }

  /** A nonempty list of H.264 units of type 1, 5, 6, 7 or 8, each behind a 3- or 4-byte start code, is
      reported as exactly that many H.264 units with their parameter sets and IDR slices counted. */
  lemma {:induction false} AnnexBScanUndoesJoin(nals: seq<NalUnit>)
    requires nals != [] && AllSendable(nals)
    requires forall n <- nals :: IsCountedH264Type(n.body[0] % 0x20)
    ensures Parse(Join(nals)) == Some(ElementaryStreamInfo(
              H264, |Join(nals)|, |nals|,
              CountType(Headers(nals), 7), CountType(Headers(nals), 8), CountType(Headers(nals), 5), 0, 0, 0, 0))
  {
    var bytes := Join(nals);
    JoinStartsWithCode(nals);
    assert bytes[0..] == bytes;
    ScanUndoesJoin(nals);
    HeadersOf(nals);
    H264Counts(NO_NALS.(bytes := |bytes|), Headers(nals));
  }

  lemma {:induction false} HeadersOf(nals: seq<NalUnit>)
    requires AllNonempty(nals)
    ensures |Headers(nals)| == |nals|
    ensures forall i :: 0 <= i < |nals| ==> Headers(nals)[i] == nals[i].body[0]
  {
    if nals != [] {
      HeadersOf(nals[1..]);
    }
  }
}
