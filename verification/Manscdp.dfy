/** Reading MANSCDP bodies (src/core/ManscdpMessage.cpp): elements are found by searching for their tags. */
module Manscdp {
  import opened Common
  import opened Text
  import opened ManscdpItems

  // ---------------------------------------------------------------- the names

  /** The elements the node reads or prints. */
  datatype Tag =
    | QueryTag | NotifyTag | ResponseTag | CmdType | SN | DeviceID | ResultTag | SumNum | DeviceList | RecordList
    | ItemTag | NameTag | Manufacturer | Model | Owner | CivilCode | Parental | Address | ParentID | SafetyWay
    | RegisterWay | Secrecy | Status | Longitude | Latitude | FilePath | StartTime | EndTime

  function Name(tag: Tag): string {
    match tag
    case QueryTag => "Query" case NotifyTag => "Notify" case ResponseTag => "Response"
    case CmdType => "CmdType" case SN => "SN" case DeviceID => "DeviceID" case ResultTag => "Result"
    case SumNum => "SumNum" case DeviceList => "DeviceList" case RecordList => "RecordList" case ItemTag => "Item"
    case NameTag => "Name" case Manufacturer => "Manufacturer" case Model => "Model" case Owner => "Owner"
    case CivilCode => "CivilCode" case Parental => "Parental" case Address => "Address"
    case ParentID => "ParentID" case SafetyWay => "SafetyWay" case RegisterWay => "RegisterWay"
    case Secrecy => "Secrecy" case Status => "Status" case Longitude => "Longitude" case Latitude => "Latitude"
    case FilePath => "FilePath" case StartTime => "StartTime" case EndTime => "EndTime"
  }

  // ---------------------------------------------------------------- searching

  predicate Occurs(text: string, pattern: string, at: nat)
    decreases |pattern|
  {
    if pattern == [] then at <= |text|
    else at < |text| && text[at] == pattern[0] && Occurs(text, pattern[1..], at + 1)
  }

  /** Character by character: the pattern stands in the text. */
  lemma {:induction false} OccursAt(text: string, pattern: string, at: nat, k: nat)
    requires k < |pattern|
    ensures Occurs(text, pattern, at) ==> at + k < |text| && text[at + k] == pattern[k]
    decreases k
  {
    if k > 0 {
      OccursAt(text, pattern[1..], at + 1, k - 1);
    }
  }

  lemma {:induction false} MatchOccurs(text: string, pattern: string, at: nat)
    requires at + |pattern| <= |text| && forall k :: 0 <= k < |pattern| ==> text[at + k] == pattern[k]
    ensures Occurs(text, pattern, at)
    decreases |pattern|
  {
    if pattern != [] {
      assert text[at + 0] == pattern[0];
      forall k | 0 <= k < |pattern[1..]| ensures text[at + 1 + k] == pattern[1..][k] {
        assert text[at + (k + 1)] == pattern[k + 1];
      }
      MatchOccurs(text, pattern[1..], at + 1);
    }
  }

  lemma {:induction false} OccursFits(text: string, pattern: string, at: nat)
    ensures Occurs(text, pattern, at) ==> at + |pattern| <= |text|
    decreases |pattern|
  {
    if pattern != [] {
      OccursFits(text, pattern[1..], at + 1);
    }
  }

  /** Where the pattern first occurs, from a position on. */
  function Find(text: string, pattern: string, from: nat): (at: Option<nat>)
    ensures at.Some? ==> from <= at.value && at.value + |pattern| <= |text|
    decreases |text| - from
  {
    OccursFits(text, pattern, from);
    if Occurs(text, pattern, from) then Some(from)
    else if from >= |text| then None
    else Find(text, pattern, from + 1)
  }

  function FindChar(text: string, c: char, from: nat): (at: Option<nat>)
    ensures at.Some? ==> from <= at.value < |text|
    decreases |text| - from
  {
    if from >= |text| then None else if text[from] == c then Some(from) else FindChar(text, c, from + 1)
  }

  /** Find gives the first occurrence, and None only when there is none. */
  lemma {:induction false} FindIsFirst(text: string, pattern: string, from: nat)
    ensures match Find(text, pattern, from)
            case Some(at) => Occurs(text, pattern, at) && forall i :: from <= i < at ==> !Occurs(text, pattern, i)
            case None => forall i :: from <= i <= |text| ==> !Occurs(text, pattern, i)
    decreases |text| - from
  {
    if !Occurs(text, pattern, from) && from < |text| {
      FindIsFirst(text, pattern, from + 1);
    }
  }

  // ---------------------------------------------------------------- elements

  function TrimFront(text: string): string {
    if text != [] && IsLineSpace(text[0]) then TrimFront(text[1..]) else text
  }

  function Trim(text: string): string { TrimRight(TrimFront(text)) }

  method TrimText(value: string) returns (text: string)
    ensures text == Trim(value)
  {
    var begin := 0;
    while begin < |value| && IsLineSpace(value[begin])
      invariant begin <= |value|
      invariant TrimFront(value[begin..]) == TrimFront(value)
    {
      assert value[begin..][1..] == value[begin + 1..];
      begin := begin + 1;
    }
    var end := |value|;
    assert value[begin..end] == value[begin..];
    while end > begin && IsLineSpace(value[end - 1])
      invariant begin <= end <= |value|
      invariant TrimRight(value[begin..end]) == Trim(value)
    {
      assert value[begin..end][..end - begin - 1] == value[begin..end - 1];
      end := end - 1;
    }
    text := value[begin..end];
  }

  /** What stands between an element's tags: where it starts and ends, and where its end tag ends. */
  datatype Span = Span(from: nat, end: nat, next: nat)

  function SpanToEnd(text: string, from: nat, name: string): (span: Option<Span>)
    ensures span.Some? ==> from == span.value.from <= span.value.end < span.value.next <= |text|
  {
    match Find(text, "</" + name + ">", from)
    case None => None
    case Some(end) => Some(Span(from, end, end + |name| + 3))
  }

  function SpanBehind(text: string, after: nat, name: string): (span: Option<Span>)
    ensures span.Some? ==> after < span.value.from <= span.value.end < span.value.next <= |text|
  {
    match FindChar(text, '>', after) case None => None case Some(close) => SpanToEnd(text, close + 1, name)
  }

  /** The first element, from the cursor on, whose begin tag starts with the name; attributes are skipped. */
  function SpanAt(text: string, cursor: nat, name: string): (span: Option<Span>)
    ensures span.Some? ==> cursor < span.value.from <= span.value.end < span.value.next <= |text|
  {
    match Find(text, "<" + name, cursor)
    case None => None
    case Some(begin) => SpanBehind(text, begin + 1 + |name|, name)
  }

  function Cut(text: string, span: Option<Span>): string
    requires span.Some? ==> span.value.from <= span.value.end <= |text|
  {
    match span case Some(s) => text[s.from..s.end] case None => ""
  }

  function Block(body: string, name: string): string { Cut(body, SpanAt(body, 0, name)) }

  function ElementText(body: string, name: string): string { Trim(Block(body, name)) }

  method ElementBlock(body: string, name: string) returns (block: string)
    ensures block == Block(body, name)
  {
    var beginTag, endTag := "<" + name, "</" + name + ">";
    var begin := Find(body, beginTag, 0);
    if begin == None {
      return "";
    }
    begin := FindChar(body, '>', begin.value + |beginTag|);
    if begin == None {
      return "";
    }
    var from := begin.value + 1;
    var end := Find(body, endTag, from);
    if end == None {
      return "";
    }
    block := body[from..end.value];
  }

  method TextOf(body: string, name: string) returns (text: string)
    ensures text == ElementText(body, name)
  {
    var block := ElementBlock(body, name);
    text := TrimText(block);
  }

  // ---------------------------------------------------------------- the root

  predicate EndsName(c: char) {
    c == ' ' || c == '\t' || c == '\r' || c == '\n' || c == '>' || c == '/'
  }

  /** The first character, from a position on, that ends a name. */
  function FindNameEnd(text: string, from: nat): (at: Option<nat>)
    ensures at.Some? ==> from <= at.value < |text|
    decreases |text| - from
  {
    if from >= |text| then None else if EndsName(text[from]) then Some(from) else FindNameEnd(text, from + 1)
  }

  /** The < opens a declaration, an instruction or a comment. */
  predicate OpensSpecial(body: string, at: nat) {
    at + 1 < |body| && (body[at + 1] == '?' || body[at + 1] == '!')
  }

  function NameAt(body: string, from: nat): string {
    match FindNameEnd(body, from) case Some(end) => body[from..end] case None => ""
  }

  /** The name behind the first < that opens an element, from a position on. */
  function RootFrom(body: string, from: nat): string
    decreases |body| - from
  {
    match FindChar(body, '<', from)
    case None => ""
    case Some(b) => if OpensSpecial(body, b) then RootFrom(body, b + 1) else NameAt(body, b + 1)
  }

  function Root(body: string): string { RootFrom(body, 0) }

  method RootName(body: string) returns (name: string)
    ensures name == Root(body)
  {
    var begin := FindChar(body, '<', 0);
    ghost var from := 0;
    while begin.Some? && OpensSpecial(body, begin.value)
      invariant from <= |body| && begin == FindChar(body, '<', from) && RootFrom(body, from) == Root(body)
      decreases |body| - from
    {
      from := begin.value + 1;
      begin := FindChar(body, '<', begin.value + 1);
    }
    if begin == None {
      return "";
    }
    var end := FindNameEnd(body, begin.value + 1);
    if end == None {
      return "";
    }
    name := body[begin.value + 1..end.value];
  }

  // ---------------------------------------------------------------- items

  /** The fields of an item, in the order of FieldsOf. */
  const ITEM_TAGS: seq<Tag> :=
    [DeviceID, NameTag, Manufacturer, Model, Owner, CivilCode, Address, ParentID, SafetyWay, RegisterWay, Secrecy,
     Status, Longitude, Latitude, FilePath, StartTime, EndTime, Parental]

  function ReadItem(body: string): ManscdpItem {
    ItemOf(seq(18, i requires 0 <= i < 18 => ElementText(body, Name(ITEM_TAGS[i]))))
  }

  /** Item elements are looked for first; only where none is left, item elements in lower case. */
  function ItemName(block: string, cursor: nat): string {
    if Find(block, "<Item", cursor).Some? then "Item" else "item"
  }

  /** The texts of all items from the cursor on. */
  function Bodies(block: string, cursor: nat): seq<string>
    decreases |block| - cursor
  {
    match SpanAt(block, cursor, ItemName(block, cursor))
    case None => []
    case Some(span) => [block[span.from..span.end]] + Bodies(block, span.next)
  }

  function ReadItems(bodies: seq<string>): seq<ManscdpItem> {
    if bodies == [] then [] else [ReadItem(bodies[0])] + ReadItems(bodies[1..])
  }

  function Items(block: string): seq<ManscdpItem> { ReadItems(Bodies(block, 0)) }

  /** A search for > from the begin of a tag passes over the tag's name. */
  lemma {:induction false} TagHasNoEnd(text: string, begin: nat, tag: string)
    requires '>' !in tag && Occurs(text, tag, begin)
    ensures FindChar(text, '>', begin) == FindChar(text, '>', begin + |tag|)
    decreases |tag|
  {
    if tag != [] {
      TagHasNoEnd(text, begin + 1, tag[1..]);
    }
  }

  /** Finds the item from the begin of its tag on, as its text and the place to go on. */
  method FindItem(block: string, cursor: nat, name: string) returns (span: Option<Span>)
    requires '>' !in name
    ensures span == SpanAt(block, cursor, name)
  {
    var beginTag, endTag := "<" + name, "</" + name + ">";
    var begin := Find(block, beginTag, cursor);
    if begin == None {
      return None;
    }
    FindIsFirst(block, beginTag, cursor);
    TagHasNoEnd(block, begin.value, beginTag);
    begin := FindChar(block, '>', begin.value);
    if begin == None {
      return None;
    }
    var from := begin.value + 1;
    var end := Find(block, endTag, from);
    span := if end == None then None else Some(Span(from, end.value, end.value + |endTag|));
  }

  lemma {:induction false} BodiesAre(block: string, cursor: nat, span: Option<Span>)
    requires span == SpanAt(block, cursor, ItemName(block, cursor))
    ensures Bodies(block, cursor) ==
            match span case None => [] case Some(s) => [block[s.from..s.end]] + Bodies(block, s.next)
  {
  }

  lemma {:induction false} ReadStep(had: seq<ManscdpItem>, body: string, more: seq<string>)
    ensures had + ReadItems([body] + more) == had + [ReadItem(body)] + ReadItems(more)
  {
    assert ([body] + more)[1..] == more;
    ConcatAssoc(had, [ReadItem(body)], ReadItems(more));
  }

  lemma {:induction false} ReadNothing(had: seq<ManscdpItem>)
    ensures had + ReadItems([]) == had
  {
  }

  /** The cursor moves past an end tag in every round. */
  method ParseItemsInBlock(block: string) returns (items: seq<ManscdpItem>)
    ensures items == Items(block)
  {
    items := [];
    var cursor := 0;
    while cursor < |block|
      invariant cursor <= |block|
      invariant items + ReadItems(Bodies(block, cursor)) == Items(block)
      decreases |block| - cursor
    {
      var span := FindItem(block, cursor, ItemName(block, cursor));
      BodiesAre(block, cursor, span);
      if span == None {
        ReadNothing(items);
        return;
      }
      var body := block[span.value.from..span.value.end];
      ReadStep(items, body, Bodies(block, span.value.next));
      items := items + [ReadItem(body)];
      cursor := span.value.next;
    }
    BodiesAre(block, cursor, None);
    ReadNothing(items);
  }

  // ---------------------------------------------------------------- messages

  datatype Message = Message(root: string, cmdType: string, sn: string, deviceId: string, result: string,
                             startTime: string, endTime: string, sumNum: int, items: seq<ManscdpItem>)

  function ToInt(text: string): int { if text == "" then 0 else ExtractInt(text, INT_MIN, INT_MAX) }

  function Parse(body: string): Option<Message> {
    var message := Message(
      Root(body), ElementText(body, Name(CmdType)), ElementText(body, Name(SN)), ElementText(body, Name(DeviceID)),
      ElementText(body, Name(ResultTag)), ElementText(body, Name(StartTime)), ElementText(body, Name(EndTime)),
      ToInt(ElementText(body, Name(SumNum))),
      Items(Block(body, Name(DeviceList))) + Items(Block(body, Name(RecordList))));
    if message.root == "" || message.cmdType == "" then None else Some(message)
  }

  method ParseManscdpMessage(body: string) returns (message: Option<Message>)
    ensures message == Parse(body)
  {
    var root := RootName(body);
    var cmdType := TextOf(body, Name(CmdType));
    var sn := TextOf(body, Name(SN));
    var deviceId := TextOf(body, Name(DeviceID));
    var result := TextOf(body, Name(ResultTag));
    var startTime := TextOf(body, Name(StartTime));
    var endTime := TextOf(body, Name(EndTime));
    var sumNum := TextOf(body, Name(SumNum));
    var devices := ElementBlock(body, Name(DeviceList));
    var items := ParseItemsInBlock(devices);
    var records := ElementBlock(body, Name(RecordList));
    var recordItems := ParseItemsInBlock(records);
    if root == "" || cmdType == "" {
      return None;
    }
    message := Some(Message(root, cmdType, sn, deviceId, result, startTime, endTime, ToInt(sumNum),
                            items + recordItems));
  }
}
