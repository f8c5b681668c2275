/** The session descriptions of an INVITE and its answer (section 5 of RFC 4566, section 4 of RFC 4145), as
    src/media/SdpSession.cpp parses and prints them. */
module Sdp {
  import opened Common
  import opened Text

  datatype SdpInfo = SdpInfo(
    originUser: string,
    sessionName: string,
    connectionIp: string,
    mediaPort: int,
    transport: string,
    direction: string,
    setup: string,
    ssrc: string,
    startTime: int,
    stopTime: int)
  {
    predicate Valid() { connectionIp != "" && mediaPort > 0 && transport != "" }
  }

  const NO_SDP := SdpInfo("", "", "", 0, "", "", "", "", 0, 0)

  // ---------------------------------------------------------------- lines and fields

  function TrimLeft(text: string): string {
    if text != [] && (text[0] == ' ' || text[0] == '\t') then TrimLeft(text[1..]) else text
  }

  /** White space at the end goes first, then blanks at the front. */
  function TrimLine(text: string): string {
    TrimLeft(TrimRight(text))
  }

  method Trim(value: string) returns (line: string)
    ensures line == TrimLine(value)
  {
    var end := |value|;
    assert value[..end] == value;
    while end > 0 && IsLineSpace(value[end - 1])
      invariant end <= |value|
      invariant TrimRight(value[..end]) == TrimRight(value)
    {
      assert value[..end][..end - 1] == value[..end - 1];
      end := end - 1;
    }
    var begin := 0;
    assert value[0..end] == value[..end];
    while begin < end && (value[begin] == ' ' || value[begin] == '\t')
      invariant begin <= end
      invariant TrimLeft(value[begin..end]) == TrimLine(value)
    {
      assert value[begin..end][1..] == value[begin + 1..end];
      begin := begin + 1;
    }
    line := value[begin..end];
  }

  function NonEmpty(parts: seq<string>): seq<string> {
    if parts == [] then []
    else if parts[0] == "" then NonEmpty(parts[1..])
    else [parts[0]] + NonEmpty(parts[1..])
  }

  /** The nonempty pieces between blanks. */
  function Split(value: string): seq<string> {
    NonEmpty(Pieces(value, ' '))
  }

  method SplitValue(value: string) returns (parts: seq<string>)
    ensures parts == Split(value)
  {
    parts := [];
    var input := value;
    while input != ""
      invariant parts + Split(input) == Split(value)
      decreases |input|
    {
      var i := IndexOf(input, ' ');
      var part := input[..i];
      assert i == |input| ==> part == input;
      ghost var pieces := Pieces(input, ' ');
      input := if i == |input| then "" else input[i + 1..];
      assert pieces[1..] == Pieces(input, ' ');
      if part != "" {
        ConcatAssoc(parts, [part], Split(input));
        parts := parts + [part];
      }
    }
  }

  // ---------------------------------------------------------------- parsing

  function ApplyOrigin(info: SdpInfo, value: string): SdpInfo {
    var parts := Split(value);
    if parts != [] then info.(originUser := parts[0]) else info
  }

  function ApplyConnection(info: SdpInfo, value: string): SdpInfo {
    var parts := Split(value);
    if |parts| >= 3 then info.(connectionIp := parts[2]) else info
  }

  function ApplyTime(info: SdpInfo, value: string): SdpInfo {
    var parts := Split(value);
    if |parts| >= 2 then
      info.(startTime := ExtractInt(parts[0], LONG_MIN, LONG_MAX), stopTime := ExtractInt(parts[1], LONG_MIN, LONG_MAX))
    else info
  }

  function ApplyMedia(info: SdpInfo, value: string): SdpInfo {
    var parts := Split(value);
    if |parts| >= 3 && parts[0] == "video" then
      info.(mediaPort := ExtractInt(parts[1], INT_MIN, INT_MAX), transport := parts[2])
    else info
  }

  function ApplyAttribute(info: SdpInfo, value: string): SdpInfo {
    if value == "recvonly" || value == "sendonly" || value == "sendrecv" then info.(direction := value)
    else if "setup:" <= value then info.(setup := value[6..])
    else info
  }

  function ApplyField(info: SdpInfo, field: char, value: string): SdpInfo {
    if field == 'o' then ApplyOrigin(info, value)
    else if field == 's' then info.(sessionName := value)
    else if field == 'c' then ApplyConnection(info, value)
    else if field == 't' then ApplyTime(info, value)
    else if field == 'm' then ApplyMedia(info, value)
    else if field == 'a' then ApplyAttribute(info, value)
    else if field == 'y' then info.(ssrc := value)
    else info
  }

  function ApplyLine(info: SdpInfo, raw: string): SdpInfo {
    var line := TrimLine(raw);
    if |line| < 2 || line[1] != '=' then info else ApplyField(info, line[0], line[2..])
  }

  function ApplyLines(info: SdpInfo, lines: seq<string>): SdpInfo
    decreases |lines|
  {
    if lines == [] then info else ApplyLines(ApplyLine(info, lines[0]), lines[1..])
  }

  function Parse(body: string): Option<SdpInfo> {
    var parsed := ApplyLines(NO_SDP, Pieces(body, '\n'));
    if body != "" && parsed.Valid() then Some(parsed) else None
  }

  method ParseSdp(body: string) returns (info: Option<SdpInfo>)
    ensures info == Parse(body)
  {
    if body == "" {
      return None;
    }
    var parsed := NO_SDP;
    var input := body;
    while input != ""
      invariant ApplyLines(parsed, Pieces(input, '\n')) == ApplyLines(NO_SDP, Pieces(body, '\n'))
      decreases |input|
    {
      var i := IndexOf(input, '\n');
      var raw := input[..i];
      assert i == |input| ==> raw == input;
      ghost var pieces := Pieces(input, '\n');
      input := if i == |input| then "" else input[i + 1..];
      assert pieces[0] == raw && pieces[1..] == Pieces(input, '\n');
      ghost var before := parsed;
      var line := Trim(raw);
      if |line| >= 2 && line[1] == '=' {
        parsed := ReadField(parsed, line[0], line[2..]);
      }
      assert parsed == ApplyLine(before, raw);
    }
    if !parsed.Valid() {
      return None;
    }
    info := Some(parsed);
  }

  method ReadField(info: SdpInfo, field: char, value: string) returns (parsed: SdpInfo)
    ensures parsed == ApplyField(info, field, value)
  {
    parsed := info;
    if field == 'o' {
      var parts := SplitValue(value);
      if parts != [] {
        parsed := parsed.(originUser := parts[0]);
      }
    } else if field == 's' {
      parsed := parsed.(sessionName := value);
    } else if field == 'c' {
      var parts := SplitValue(value);
      if |parts| >= 3 {
        parsed := parsed.(connectionIp := parts[2]);
      }
    } else if field == 't' {
      var parts := SplitValue(value);
      if |parts| >= 2 {
        parsed := parsed.(startTime := ExtractInt(parts[0], LONG_MIN, LONG_MAX));
        parsed := parsed.(stopTime := ExtractInt(parts[1], LONG_MIN, LONG_MAX));
      }
    } else if field == 'm' {
      var parts := SplitValue(value);
      if |parts| >= 3 && parts[0] == "video" {
        parsed := parsed.(mediaPort := ExtractInt(parts[1], INT_MIN, INT_MAX));
        parsed := parsed.(transport := parts[2]);
      }
    } else if field == 'a' {
      if value == "recvonly" || value == "sendonly" || value == "sendrecv" {
        parsed := parsed.(direction := value);
      } else if "setup:" <= value {
        parsed := parsed.(setup := value[6..]);
      }
    } else if field == 'y' {
      parsed := parsed.(ssrc := value);
    }
  }

  // ---------------------------------------------------------------- printing

  datatype Field = Field(key: char, value: string)
  {
    function Line(): string { [key, '='] + value }
  }

  /** Field lines as they go on the wire. */
  function Render(fields: seq<Field>): string {
    if fields == [] then "" else fields[0].Line() + "\r\n" + Render(fields[1..])
  }

  /** The lines every description starts with. */
  function NameFields(id: string, name: string, ip: string): seq<Field> {
    [Field('v', "0"), Field('o', id + " 0 0 IN IP4 " + ip), Field('s', name), Field('c', "IN IP4 " + ip)]
  }

  function MediaFields(start: int, stop: int, port: int, transport: string): seq<Field> {
    [Field('t', DecimalInt(start) + " " + DecimalInt(stop)),
     Field('m', "video " + DecimalInt(port) + " " + transport + " 96")]
  }

  function HeaderFields(
    id: string, name: string, ip: string, start: int, stop: int, port: int, transport: string): seq<Field>
  {
    NameFields(id, name, ip) + MediaFields(start, stop, port, transport)
  }

  const RTPMAP := "rtpmap:96 PS/90000"

  function OfferFields(ssrc: string): seq<Field> {
    [Field('a', "recvonly"), Field('a', RTPMAP), Field('y', ssrc)]
  }

  function BuildInviteSdp(deviceId: string, localIp: string, localRtpPort: int, ssrc: string): string {
    Render(HeaderFields(deviceId, "Play", localIp, 0, 0, localRtpPort, "RTP/AVP") + OfferFields(ssrc))
  }

  function ResponseSetup(requestSetup: string): string {
    if requestSetup == "active" then "passive"
    else if requestSetup == "passive" then "active"
    else ""
  }

  const MEDIA_FIELDS := [Field('a', RTPMAP), Field('a', "sendonly")]

  function AnswerFields(request: SdpInfo): seq<Field> {
    MEDIA_FIELDS + SetupFields(ResponseSetup(request.setup)) +
    SsrcFields(request.ssrc)
  }

  function SetupFields(setup: string): seq<Field> {
    if setup == "" then [] else [Field('a', "setup:" + setup)]
  }

  function SsrcFields(ssrc: string): seq<Field> {
    if ssrc == "" then [] else [Field('y', ssrc)]
  }

  function SessionNameFor(request: SdpInfo): string {
    if request.sessionName == "" then "Play" else request.sessionName
  }

  function BuildInviteResponseSdp(deviceId: string, localIp: string, localRtpPort: int, request: SdpInfo): string {
    Render(HeaderFields(deviceId, SessionNameFor(request), localIp, request.startTime, request.stopTime, localRtpPort,
                        if request.transport == "" then "RTP/AVP" else request.transport) +
           AnswerFields(request))
  }

  // ---------------------------------------------------------------- reading printed lines back

  /** A whole field value: one line, no white space at its end. */
  predicate CleanValue(value: string) {
    '\n' !in value && (value == "" || !IsLineSpace(value[|value| - 1]))
  }

  predicate PrintableField(f: Field) {
    !IsLineSpace(f.key) && CleanValue(f.value)
  }

  predicate Printable(fields: seq<Field>) {
    forall i :: 0 <= i < |fields| ==> PrintableField(fields[i])
  }

  function ApplyFields(info: SdpInfo, fields: seq<Field>): SdpInfo
    decreases |fields|
  {
    if fields == [] then info else ApplyFields(ApplyField(info, fields[0].key, fields[0].value), fields[1..])
  }

  lemma {:induction false} FieldsCons(info: SdpInfo, f: Field, rest: seq<Field>)
    ensures ApplyFields(info, [f] + rest) == ApplyFields(ApplyField(info, f.key, f.value), rest)
  {
    assert ([f] + rest)[1..] == rest;
  }

  lemma {:induction false} FieldsAppend(info: SdpInfo, a: seq<Field>, b: seq<Field>)
    ensures ApplyFields(info, a + b) == ApplyFields(ApplyFields(info, a), b)
    decreases |a|
  {
    if a == [] {
      assert a + b == b;
    } else {
      assert (a + b)[1..] == a[1..] + b;
      FieldsAppend(ApplyField(info, a[0].key, a[0].value), a[1..], b);
    }
  }

  lemma {:induction false} FieldLineApplies(info: SdpInfo, f: Field)
    requires PrintableField(f)
    ensures ApplyLine(info, f.Line() + "\r") == ApplyField(info, f.key, f.value)
  {
    var line := f.Line();
    var raw := line + "\r";
    assert raw[..|raw| - 1] == line;
    assert TrimRight(raw) == TrimRight(line) == line;
    assert TrimLeft(line) == line;
    assert line[2..] == f.value;
  }

  lemma {:induction false} RenderedFieldsApply(info: SdpInfo, fields: seq<Field>)
    requires Printable(fields)
    ensures ApplyLines(info, Pieces(Render(fields), '\n')) == ApplyFields(info, fields)
    decreases |fields|
  {
    if fields != [] {
      var raw := fields[0].Line() + "\r";
      var rest := Render(fields[1..]);
      assert Render(fields) == raw + ['\n'] + rest;
      PiecesCons(raw, '\n', rest);
      FieldLineApplies(info, fields[0]);
      RenderedFieldsApply(ApplyField(info, fields[0].key, fields[0].value), fields[1..]);
      assert ([raw] + Pieces(rest, '\n'))[1..] == Pieces(rest, '\n');
    }
  }

  /** A token: nonempty and free of blanks and line breaks. */
  predicate Token(text: string) {
    text != "" && forall c <- text :: !IsLineSpace(c)
  }

  /** What one field of a split line may be: nonempty, no blank, no line feed. */
  predicate Part(text: string) {
    text != "" && ' ' !in text && '\n' !in text
  }

  lemma {:induction false} SplitCons(a: string, rest: string)
    requires a != "" && ' ' !in a
    ensures Split(a + " " + rest) == [a] + Split(rest)
    ensures Split(a) == [a]
  {
    PiecesCons(a, ' ', rest);
    PiecesSingle(a, ' ');
    assert NonEmpty([]) == [];
    var pieces := [a] + Pieces(rest, ' ');
    assert pieces[1..] == Pieces(rest, ' ');
    assert NonEmpty([a]) == [a] + NonEmpty([a][1..]);
  }

  lemma {:induction false} DecimalPart(n: int)
    ensures Part(DecimalInt(n)) && !IsLineSpace(DecimalInt(n)[|DecimalInt(n)| - 1])
  {
    var digits := Decimal(if n < 0 then -n else n);
    assert forall c <- digits :: IsDigit(c);
  }

  lemma {:induction false} OriginApplies(info: SdpInfo, id: string, ip: string)
    requires Token(id)
    ensures ApplyOrigin(info, id + " 0 0 IN IP4 " + ip) == info.(originUser := id)
  {
    var rest := "0 0 IN IP4 " + ip;
    assert id + " 0 0 IN IP4 " + ip == id + " " + rest;
    SplitCons(id, rest);
  }

  lemma {:induction false} ConnectionApplies(info: SdpInfo, ip: string)
    requires Token(ip)
    ensures ApplyConnection(info, "IN IP4 " + ip) == info.(connectionIp := ip)
  {
    assert "IN IP4 " + ip == "IN" + " " + ("IP4" + " " + ip);
    SplitCons("IN", "IP4" + " " + ip);
    SplitCons("IP4", ip);
    SplitCons(ip, "");
  }

  lemma {:induction false} TimeApplies(info: SdpInfo, start: int, stop: int)
    requires LONG_MIN <= start <= LONG_MAX && LONG_MIN <= stop <= LONG_MAX
    ensures ApplyTime(info, DecimalInt(start) + " " + DecimalInt(stop)) == info.(startTime := start, stopTime := stop)
  {
    DecimalPart(start);
    DecimalPart(stop);
    SplitCons(DecimalInt(start), DecimalInt(stop));
    SplitCons(DecimalInt(stop), "");
    ExtractPrinted(start, "", LONG_MIN, LONG_MAX);
    ExtractPrinted(stop, "", LONG_MIN, LONG_MAX);
    assert DecimalInt(start) + "" == DecimalInt(start) && DecimalInt(stop) + "" == DecimalInt(stop);
  }

  lemma {:induction false} MediaText(port: string, transport: string)
    ensures "video " + port + " " + transport + " 96" == "video" + " " + (port + " " + (transport + " " + "96"))
  {
  }

  lemma {:induction false} MediaSplits(port: string, transport: string)
    requires Part(port) && Part(transport)
    ensures var parts := Split("video " + port + " " + transport + " 96");
            |parts| >= 3 && parts[0] == "video" && parts[1] == port && parts[2] == transport
  {
    var rest := transport + " " + "96";
    MediaText(port, transport);
    SplitCons("video", port + " " + rest);
    SplitCons(port, rest);
    SplitCons(transport, "96");
  }

  lemma {:induction false} MediaApplies(info: SdpInfo, port: int, transport: string)
    requires 0 < port <= INT_MAX && Part(transport)
    ensures ApplyMedia(info, "video " + DecimalInt(port) + " " + transport + " 96") ==
            info.(mediaPort := port, transport := transport)
  {
    DecimalPart(port);
    MediaSplits(DecimalInt(port), transport);
    ExtractPrinted(port, "", INT_MIN, INT_MAX);
    assert DecimalInt(port) + "" == DecimalInt(port);
  }

  // ---------------------------------------------------------------- what a parsed offer can contain

  predicate CleanInfo(info: SdpInfo) {
    && CleanValue(info.sessionName) && CleanValue(info.ssrc)
    && (info.transport == "" || Part(info.transport))
    && LONG_MIN <= info.startTime <= LONG_MAX && LONG_MIN <= info.stopTime <= LONG_MAX
    && INT_MIN <= info.mediaPort <= INT_MAX
  }

  lemma {:induction false} TrimRightClean(text: string)
    requires '\n' !in text
    ensures CleanValue(TrimRight(text))
  {
    if text != [] && IsLineSpace(text[|text| - 1]) {
      TrimRightClean(text[..|text| - 1]);
    }
  }

  lemma {:induction false} TrimLeftClean(text: string)
    requires CleanValue(text)
    ensures CleanValue(TrimLeft(text))
  {
    if text != [] && (text[0] == ' ' || text[0] == '\t') {
      TrimLeftClean(text[1..]);
    }
  }

  lemma {:induction false} NonEmptyParts(parts: seq<string>)
    requires forall i :: 0 <= i < |parts| ==> ' ' !in parts[i] && '\n' !in parts[i]
    ensures forall i :: 0 <= i < |NonEmpty(parts)| ==> Part(NonEmpty(parts)[i])
  {
    if parts != [] {
      NonEmptyParts(parts[1..]);
    }
  }

  lemma {:induction false} SplitParts(value: string)
    requires '\n' !in value
    ensures forall i :: 0 <= i < |Split(value)| ==> Part(Split(value)[i])
  {
    PiecesFree(value, ' ');
    var pieces := Pieces(value, ' ');
    forall i | 0 <= i < |pieces| ensures ' ' !in pieces[i] && '\n' !in pieces[i] {
      assert pieces[i] in pieces;
    }
    NonEmptyParts(pieces);
  }

  lemma {:induction false} MediaKeepsClean(info: SdpInfo, value: string)
    requires CleanInfo(info) && CleanValue(value)
    ensures CleanInfo(ApplyMedia(info, value))
  {
    SplitParts(value);
  }

  lemma {:induction false} AddressesKeepClean(info: SdpInfo, value: string)
    requires CleanInfo(info) && CleanValue(value)
    ensures CleanInfo(ApplyOrigin(info, value)) && CleanInfo(ApplyConnection(info, value))
  {
  }

  lemma {:induction false} TimesKeepClean(info: SdpInfo, value: string)
    requires CleanInfo(info)
    ensures CleanInfo(ApplyTime(info, value)) && CleanInfo(ApplyAttribute(info, value))
  {
  }

  lemma {:induction false} ApplyFieldKeepsClean(info: SdpInfo, key: char, value: string)
    requires CleanInfo(info) && CleanValue(value)
    ensures CleanInfo(ApplyField(info, key, value))
  {
    if key == 'm' {
      MediaKeepsClean(info, value);
    } else if key == 'o' || key == 'c' {
      AddressesKeepClean(info, value);
    } else {
      TimesKeepClean(info, value);
    }
  }

  lemma {:induction false} ApplyLineKeepsClean(info: SdpInfo, raw: string)
    requires CleanInfo(info) && '\n' !in raw
    ensures CleanInfo(ApplyLine(info, raw))
  {
    TrimRightClean(raw);
    TrimLeftClean(TrimRight(raw));
    var line := TrimLine(raw);
    if |line| >= 2 {
      ApplyFieldKeepsClean(info, line[0], line[2..]);
    }
  }

  lemma {:induction false} ApplyLinesKeepsClean(info: SdpInfo, lines: seq<string>)
    requires CleanInfo(info) && forall i :: 0 <= i < |lines| ==> '\n' !in lines[i]
    ensures CleanInfo(ApplyLines(info, lines))
    decreases |lines|
  {
    if lines != [] {
      ApplyLineKeepsClean(info, lines[0]);
      ApplyLinesKeepsClean(ApplyLine(info, lines[0]), lines[1..]);
    }
  }

  lemma {:induction false} ParsedIsClean(body: string)
    requires Parse(body).Some?
    ensures CleanInfo(Parse(body).value)
  {
    PiecesFree(body, '\n');
    var lines := Pieces(body, '\n');
    forall i | 0 <= i < |lines| ensures '\n' !in lines[i] {
      assert lines[i] in lines;
    }
    ApplyLinesKeepsClean(NO_SDP, lines);
  }

  // ---------------------------------------------------------------- round trips

  lemma {:induction false} NamesApply(id: string, name: string, ip: string)
    requires Token(id) && Token(ip)
    ensures ApplyFields(NO_SDP, NameFields(id, name, ip)) ==
            NO_SDP.(originUser := id, sessionName := name, connectionIp := ip)
  {
    var o, s, c := Field('o', id + " 0 0 IN IP4 " + ip), Field('s', name), Field('c', "IN IP4 " + ip);
    OriginApplies(NO_SDP, id, ip);
    ConnectionApplies(NO_SDP.(originUser := id, sessionName := name), ip);
    TwoFields(NO_SDP, Field('v', "0"), o);
    TwoFields(NO_SDP.(originUser := id), s, c);
    FieldsAppend(NO_SDP, [Field('v', "0"), o], [s, c]);
    assert [Field('v', "0"), o] + [s, c] == [Field('v', "0"), o, s, c];
  }

  lemma {:induction false} MediaFieldsApply(info: SdpInfo, start: int, stop: int, port: int, transport: string)
    requires Part(transport)
    requires LONG_MIN <= start <= LONG_MAX && LONG_MIN <= stop <= LONG_MAX && 0 < port <= INT_MAX
    ensures ApplyFields(info, MediaFields(start, stop, port, transport)) ==
            info.(startTime := start, stopTime := stop, mediaPort := port, transport := transport)
  {
    TimeApplies(info, start, stop);
    MediaApplies(info.(startTime := start, stopTime := stop), port, transport);
    TwoFields(info, Field('t', DecimalInt(start) + " " + DecimalInt(stop)),
              Field('m', "video " + DecimalInt(port) + " " + transport + " 96"));
  }

  lemma {:induction false} HeaderApplies(
    id: string, name: string, ip: string, start: int, stop: int, port: int, transport: string)
    requires Token(id) && Token(ip) && Part(transport)
    requires LONG_MIN <= start <= LONG_MAX && LONG_MIN <= stop <= LONG_MAX && 0 < port <= INT_MAX
    ensures ApplyFields(NO_SDP, HeaderFields(id, name, ip, start, stop, port, transport)) ==
            SdpInfo(id, name, ip, port, transport, "", "", "", start, stop)
  {
    NamesApply(id, name, ip);
    MediaFieldsApply(NO_SDP.(originUser := id, sessionName := name, connectionIp := ip), start, stop, port, transport);
    FieldsAppend(NO_SDP, NameFields(id, name, ip), MediaFields(start, stop, port, transport));
  }

  lemma {:induction false} CleanConcat(a: string, b: string)
    requires '\n' !in a && b != "" && CleanValue(b)
    ensures CleanValue(a + b)
  {
  }

  lemma {:induction false} NameFieldsPrintable(id: string, name: string, ip: string)
    requires Token(id) && Token(ip) && CleanValue(name)
    ensures Printable(NameFields(id, name, ip))
  {
    assert CleanValue(ip);
    CleanConcat(id + " 0 0 IN IP4 ", ip);
    CleanConcat("IN IP4 ", ip);
  }

  lemma {:induction false} TimeMediaPrintable(start: int, stop: int, port: int, transport: string)
    requires Part(transport)
    ensures Printable(MediaFields(start, stop, port, transport))
  {
    DecimalPart(start);
    DecimalPart(stop);
    DecimalPart(port);
    assert CleanValue(" 96");
    CleanConcat(DecimalInt(start) + " ", DecimalInt(stop));
    CleanConcat("video " + DecimalInt(port) + " " + transport, " 96");
  }

  lemma {:induction false} HeaderPrintable(
    id: string, name: string, ip: string, start: int, stop: int, port: int, transport: string)
    requires Token(id) && Token(ip) && CleanValue(name) && Part(transport)
    ensures Printable(HeaderFields(id, name, ip, start, stop, port, transport))
  {
    NameFieldsPrintable(id, name, ip);
    TimeMediaPrintable(start, stop, port, transport);
    PrintableAppend(NameFields(id, name, ip), MediaFields(start, stop, port, transport));
  }

  lemma {:induction false} PrintableAppend(a: seq<Field>, b: seq<Field>)
    requires Printable(a) && Printable(b)
    ensures Printable(a + b)
  {
  }

  lemma {:induction false} RtpmapApplies(info: SdpInfo)
    ensures ApplyField(info, 'a', RTPMAP) == info
  {
    var value := RTPMAP;
    assert |value| == 18 && value[0] == 'r' && |"recvonly"| == |"sendonly"| == |"sendrecv"| == 8;
  }

  lemma {:induction false} MediaFieldsPrintable()
    ensures Printable(MEDIA_FIELDS)
  {
  }

  lemma {:induction false} DirectionApplies(info: SdpInfo)
    ensures Printable(MEDIA_FIELDS) && ApplyFields(info, MEDIA_FIELDS) == info.(direction := "sendonly")
  {
    MediaFieldsPrintable();
    RtpmapApplies(info);
    TwoFields(info, Field('a', RTPMAP), Field('a', "sendonly"));
  }

  lemma {:induction false} SetupApplies(info: SdpInfo, requestSetup: string)
    ensures Printable(SetupFields(ResponseSetup(requestSetup)))
    ensures ApplyFields(info, SetupFields(ResponseSetup(requestSetup))) ==
            if ResponseSetup(requestSetup) == "" then info else info.(setup := ResponseSetup(requestSetup))
  {
    var setup := ResponseSetup(requestSetup);
    if setup != "" {
      var value := "setup:" + setup;
      assert value[6..] == setup;
      assert value[5] == ':';
      OneField(info, Field('a', value));
    }
  }

  lemma {:induction false} SsrcApplies(info: SdpInfo, ssrc: string)
    requires CleanValue(ssrc)
    ensures Printable(SsrcFields(ssrc))
    ensures ApplyFields(info, SsrcFields(ssrc)) == if ssrc == "" then info else info.(ssrc := ssrc)
  {
    if ssrc != "" {
      OneField(info, Field('y', ssrc));
    }
  }

  lemma {:induction false} ThreeParts(info: SdpInfo, a: seq<Field>, b: seq<Field>, c: seq<Field>)
    ensures ApplyFields(info, a + b + c) == ApplyFields(ApplyFields(ApplyFields(info, a), b), c)
    ensures Printable(a) && Printable(b) && Printable(c) ==> Printable(a + b + c)
  {
    FieldsAppend(info, a + b, c);
    FieldsAppend(info, a, b);
  }

  lemma {:induction false} AnswerApplies(info: SdpInfo, request: SdpInfo)
    requires CleanValue(request.ssrc)
    ensures Printable(AnswerFields(request))
    ensures ApplyFields(info, AnswerFields(request)) ==
            info.(direction := "sendonly",
                  setup := if ResponseSetup(request.setup) == "" then info.setup else ResponseSetup(request.setup),
                  ssrc := if request.ssrc == "" then info.ssrc else request.ssrc)
  {
    var setups, ssrcs := SetupFields(ResponseSetup(request.setup)), SsrcFields(request.ssrc);
    ThreeParts(info, MEDIA_FIELDS, setups, ssrcs);
    DirectionApplies(info);
    SetupApplies(info.(direction := "sendonly"), request.setup);
    SsrcApplies(ApplyFields(info.(direction := "sendonly"), setups), request.ssrc);
  }

  lemma {:induction false} TwoFields(info: SdpInfo, f: Field, g: Field)
    ensures ApplyFields(info, [f, g]) == ApplyField(ApplyField(info, f.key, f.value), g.key, g.value)
  {
    assert [f] + [g] == [f, g];
    FieldsCons(info, f, [g]);
    OneField(ApplyField(info, f.key, f.value), g);
  }

  lemma {:induction false} OneField(info: SdpInfo, f: Field)
    ensures ApplyFields(info, [f]) == ApplyField(info, f.key, f.value)
  {
    assert [f] + [] == [f];
    FieldsCons(info, f, []);
  }

  /** The answer to any offer the parser accepts parses: it names the answerer's id, address and port, keeps
      session name (or Play), times, transport and SSRC, is sendonly, and takes the complementary setup role
      when the offer was active or passive and none otherwise. */
  lemma {:induction false} AnswerRoundTrip(offer: string, id: string, ip: string, port: int)
    requires Parse(offer).Some? && Token(id) && Token(ip) && 0 < port <= INT_MAX
    ensures var request := Parse(offer).value;
            Parse(BuildInviteResponseSdp(id, ip, port, request)) ==
            Some(SdpInfo(id, SessionNameFor(request), ip, port, request.transport, "sendonly",
                         ResponseSetup(request.setup), request.ssrc, request.startTime, request.stopTime))
  {
    var request := Parse(offer).value;
    ParsedIsClean(offer);
    var name := SessionNameFor(request);
    var header := HeaderFields(id, name, ip, request.startTime, request.stopTime, port, request.transport);
    HeaderPrintable(id, name, ip, request.startTime, request.stopTime, port, request.transport);
    HeaderApplies(id, name, ip, request.startTime, request.stopTime, port, request.transport);
    AnswerApplies(SdpInfo(id, name, ip, port, request.transport, "", "", "", request.startTime, request.stopTime), request);
    ParseOfFields(header, AnswerFields(request));
  }

  lemma {:induction false} ParseOfFields(header: seq<Field>, tail: seq<Field>)
    requires Printable(header) && Printable(tail)
    ensures var info := ApplyFields(ApplyFields(NO_SDP, header), tail);
            Parse(Render(header + tail)) == if info.Valid() then Some(info) else None
  {
    FieldsAppend(NO_SDP, header, tail);
    RenderedFieldsApply(NO_SDP, header + tail);
  }

  lemma {:induction false} OfferTailApplies(info: SdpInfo, ssrc: string)
    ensures ApplyFields(info, OfferFields(ssrc)) == info.(direction := "recvonly", ssrc := ssrc)
  {
    var received := info.(direction := "recvonly");
    RtpmapApplies(received);
    ThreeFields(info, Field('a', "recvonly"), Field('a', RTPMAP), Field('y', ssrc));
  }

  lemma {:induction false} ThreeFields(info: SdpInfo, f: Field, g: Field, h: Field)
    ensures ApplyFields(info, [f, g, h]) ==
            ApplyField(ApplyField(ApplyField(info, f.key, f.value), g.key, g.value), h.key, h.value)
  {
    assert [f] + [g, h] == [f, g, h];
    FieldsCons(info, f, [g, h]);
    TwoFields(ApplyField(info, f.key, f.value), g, h);
  }

  lemma {:induction false} OfferTailPrintable(ssrc: string)
    requires CleanValue(ssrc)
    ensures Printable(OfferFields(ssrc))
  {
  }

  /** An offer parses back to what it was built from. */
  lemma {:induction false} OfferRoundTrip(id: string, ip: string, port: int, ssrc: string)
    requires Token(id) && Token(ip) && 0 < port <= INT_MAX && CleanValue(ssrc)
    ensures Parse(BuildInviteSdp(id, ip, port, ssrc)) ==
            Some(SdpInfo(id, "Play", ip, port, "RTP/AVP", "recvonly", "", ssrc, 0, 0))
  {
    var header := HeaderFields(id, "Play", ip, 0, 0, port, "RTP/AVP");
    HeaderPrintable(id, "Play", ip, 0, 0, port, "RTP/AVP");
    HeaderApplies(id, "Play", ip, 0, 0, port, "RTP/AVP");
    OfferTailApplies(SdpInfo(id, "Play", ip, port, "RTP/AVP", "", "", "", 0, 0), ssrc);
    OfferTailPrintable(ssrc);
    ParseOfFields(header, OfferFields(ssrc));
  }
}
