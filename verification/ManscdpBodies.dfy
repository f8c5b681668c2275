/** The bodies of src/capabilities/GB28181Capabilities.cpp, one by one, and what a peer reads of them. */
module ManscdpBodies {
  import opened Common
  import opened Text
  import opened ManscdpItems
  import opened Manscdp
  import opened ManscdpPrint
  import opened ManscdpMessages

  // ---------------------------------------------------------------- the printers

  const EPOCH := "1970-01-01T00:00:00"

  function KeepaliveHead(deviceId: string, sn: int): seq<Leaf> {
    [Leaf(CmdType, "keepalive"), Leaf(SN, DecimalInt(sn)), Leaf(DeviceID, deviceId), Leaf(Status, "OK")]
  }

  function KeepaliveBody(deviceId: string, sn: int): string {
    Print(Document(NotifyTag, KeepaliveHead(deviceId, sn), None))
  }

  function QueryHead(cmdType: string, deviceId: string, sn: int): seq<Leaf> {
    [Leaf(CmdType, cmdType), Leaf(SN, DecimalInt(sn)), Leaf(DeviceID, deviceId)] +
    if cmdType == "RecordInfo" then [Leaf(StartTime, EPOCH), Leaf(EndTime, EPOCH)] else []
  }

  function QueryBody(cmdType: string, deviceId: string, sn: int): string {
    Print(Document(QueryTag, QueryHead(cmdType, deviceId, sn), None))
  }

  /** The headings of a response with a list. */
  function ListHead(cmdType: string, deviceId: string, result: string, sn: string, count: nat): seq<Leaf> {
    [Leaf(CmdType, cmdType), Leaf(SN, sn), Leaf(DeviceID, deviceId), Leaf(ResultTag, result),
     Leaf(SumNum, Decimal(count))]
  }

  function AtMostOne(item: seq<Leaf>): seq<seq<Leaf>> { if item == [] then [] else [item] }

  function ListDocument(head: seq<Leaf>, tag: Tag, item: seq<Leaf>): Document {
    Document(ResponseTag, head, Some(Listing(tag, |AtMostOne(item)|, AtMostOne(item))))
  }

  /** The node's own record. */
  function OwnRecord(deviceId: string): seq<Leaf> {
    [Leaf(DeviceID, deviceId), Leaf(NameTag, "self-test-record"), Leaf(FilePath, "/tmp/self-test.ps"),
     Leaf(StartTime, EPOCH), Leaf(EndTime, EPOCH)]
  }

  function OwnRecordBody(deviceId: string, result: string, sn: int): string {
    Print(ListDocument(ListHead("RecordInfo", deviceId, result, DecimalInt(sn), 1), RecordList, OwnRecord(deviceId)))
  }

  /** An entry of the catalogue file. */
  datatype NodeInfo = NodeInfo(deviceId: string, name: string, manufacturer: string, model: string, parental: int,
                               parentId: string, safetyWay: int, registerWay: int, secrecy: int, status: string,
                               longitude: string, latitude: string)

  function OrUnknown(text: string): string { if text == "" then "unknown" else text }

  function CivilCodeOf(deviceId: string): string { if |deviceId| >= 6 then deviceId[..6] else "" }

  const NODE_TAGS: seq<Tag> :=
    [DeviceID, NameTag, Manufacturer, Model, Owner, CivilCode, Parental, ParentID, SafetyWay, RegisterWay, Secrecy,
     Status, Longitude, Latitude]

  function NodeTexts(n: NodeInfo): (texts: seq<string>)
    ensures |texts| == 14
  {
    [n.deviceId, n.name, OrUnknown(n.manufacturer), OrUnknown(n.model), "unknown", CivilCodeOf(n.deviceId),
     DecimalInt(n.parental), n.parentId, DecimalInt(n.safetyWay), DecimalInt(n.registerWay), DecimalInt(n.secrecy),
     n.status, n.longitude, n.latitude]
  }

  function Zip(tags: seq<Tag>, texts: seq<string>): (leaves: seq<Leaf>)
    requires |tags| == |texts|
    ensures |leaves| == |tags|
    ensures forall i :: 0 <= i < |leaves| ==> leaves[i] == Leaf(tags[i], texts[i])
  {
    if tags == [] then [] else [Leaf(tags[0], texts[0])] + Zip(tags[1..], texts[1..])
  }

  function NodeItem(n: NodeInfo): seq<Leaf> { Zip(NODE_TAGS, NodeTexts(n)) }

  /** Responses to a catalogue query: one for every entry, each announcing the whole count, or one without items. */
  function CatalogBody(deviceId: string, sn: string, count: nat, item: seq<Leaf>): string {
    Print(ListDocument(ListHead("Catalog", deviceId, "OK", sn, count), DeviceList, item))
  }

  function OwnTexts(deviceId: string): seq<string> {
    [deviceId, "gb28181-node", "media-fabric", "GB28181Node", "GB28181", "000000", "0", deviceId, "0", "1", "0", "ON"]
  }

  /** The node's own catalogue entry, for want of a catalogue file: no coordinates. */
  function OwnItem(deviceId: string): seq<Leaf> { Zip(NODE_TAGS[..12], OwnTexts(deviceId)) }

  function OwnCatalogBody(deviceId: string, result: string, sn: int): string {
    Print(ListDocument(ListHead("Catalog", deviceId, result, DecimalInt(sn), 1), DeviceList, OwnItem(deviceId)))
  }

  // ---------------------------------------------------------------- texts that stay as they are

  /** No white space at either end. */
  predicate Tight(text: string) {
    text == "" || (!IsLineSpace(text[0]) && !IsLineSpace(text[|text| - 1]))
  }

  lemma {:induction false} TightIsTrimmed(text: string)
    requires Tight(text)
    ensures Trim(text) == text
  {
  }

  predicate Kept(text: string) { Plain(text) && Tight(text) }

  lemma {:induction false} NumbersAreKept(n: int)
    ensures Kept(DecimalInt(n))
  {
    var digits := Decimal(if n < 0 then -n else n);
    assert forall i :: 0 <= i < |digits| ==> digits[i] in digits;
    assert IsDigit(digits[0]) && IsDigit(digits[|digits| - 1]);
  }

  predicate AllKept(leaves: seq<Leaf>) {
    forall i :: 0 <= i < |leaves| ==> IsField(leaves[i].tag) && Kept(leaves[i].text)
  }

  lemma {:induction false} FieldIsKept(leaves: seq<Leaf>, tag: Tag)
    requires AllKept(leaves)
    ensures Trim(Field(leaves, tag)) == Field(leaves, tag)
  {
    if leaves == [] {
      TightIsTrimmed("");
    } else if leaves[0].tag == tag {
      TightIsTrimmed(leaves[0].text);
    } else {
      FieldIsKept(leaves[1..], tag);
    }
  }

  lemma {:induction false} FieldAt(leaves: seq<Leaf>, k: nat)
    requires k < |leaves| && forall j :: 0 <= j < k ==> leaves[j].tag != leaves[k].tag
    ensures Field(leaves, leaves[k].tag) == leaves[k].text
  {
    if k > 0 {
      FieldAt(leaves[1..], k - 1);
    }
  }

  lemma {:induction false} FieldAbsent(leaves: seq<Leaf>, tag: Tag)
    requires forall j :: 0 <= j < |leaves| ==> leaves[j].tag != tag
    ensures Field(leaves, tag) == "" && !HasLeaf(leaves, tag)
  {
    if leaves != [] {
      FieldAbsent(leaves[1..], tag);
    }
  }

  /** Texts without white space at their ends come back unchanged. */
  lemma {:induction false} KeptIsRead(doc: Document, leaves: seq<Leaf>)
    requires doc.Valid() && leaves == doc.Leaves() && AllKept(leaves) && Field(leaves, CmdType) != ""
    ensures Parse(Print(doc)) ==
            Some(Message(Name(doc.root), Field(leaves, CmdType), Field(leaves, SN), Field(leaves, DeviceID),
                         Field(leaves, ResultTag), Field(leaves, StartTime), Field(leaves, EndTime),
                         ToInt(Field(leaves, SumNum)), LeafItems(doc.Items())))
  {
    forall tag ensures FieldText(doc, tag) == Field(leaves, tag) {
      FieldIsKept(leaves, tag);
    }
    ParseUndoesPrint(doc);
  }

  lemma {:induction false} AllKeptAppend(a: seq<Leaf>, b: seq<Leaf>)
    requires AllKept(a) && AllKept(b)
    ensures AllKept(a + b) && Proper(a) && Proper(b)
  {
  }

  // ---------------------------------------------------------------- keepalive and query

  lemma {:induction false} HeadOnly(root: Tag, head: seq<Leaf>)
    ensures var doc := Document(root, head, None); doc.Leaves() == head && LeafItems(doc.Items()) == []
  {
    assert head + [] == head;
  }

  lemma {:induction false} ThreeFields(leaves: seq<Leaf>)
    requires |leaves| >= 3 && leaves[0].tag == CmdType && leaves[1].tag == SN && leaves[2].tag == DeviceID
    ensures Field(leaves, CmdType) == leaves[0].text && Field(leaves, SN) == leaves[1].text
    ensures Field(leaves, DeviceID) == leaves[2].text
  {
    FieldAt(leaves, 0);
    FieldAt(leaves, 1);
    FieldAt(leaves, 2);
  }

  lemma {:induction false} KeepaliveKept(deviceId: string, sn: int)
    requires Kept(deviceId)
    ensures AllKept(KeepaliveHead(deviceId, sn))
  {
    NumbersAreKept(sn);
    assert Kept("keepalive") && Kept("OK");
  }

  lemma {:induction false} KeepaliveFields(deviceId: string, sn: int)
    ensures var head := KeepaliveHead(deviceId, sn);
            && Field(head, CmdType) == "keepalive"
            && Field(head, SN) == DecimalInt(sn) && Field(head, DeviceID) == deviceId
            && Field(head, ResultTag) == Field(head, StartTime) == Field(head, EndTime) == Field(head, SumNum) == ""
  {
    var head := KeepaliveHead(deviceId, sn);
    ThreeFields(head);
    FieldAbsent(head, ResultTag);
    FieldAbsent(head, StartTime);
    FieldAbsent(head, EndTime);
    FieldAbsent(head, SumNum);
  }

  lemma {:induction false} KeepaliveIsRead(deviceId: string, sn: int)
    requires Kept(deviceId)
    ensures Parse(KeepaliveBody(deviceId, sn)) ==
            Some(Message("Notify", "keepalive", DecimalInt(sn), deviceId, "", "", "", 0, []))
  {
    KeepaliveKept(deviceId, sn);
    KeepaliveFields(deviceId, sn);
    HeadIsRead(Document(NotifyTag, KeepaliveHead(deviceId, sn), None));
  }

  lemma {:induction false} HeadIsRead(doc: Document)
    requires doc.Valid() && doc.list == None && AllKept(doc.head) && Field(doc.head, CmdType) != ""
    ensures Parse(Print(doc)) ==
            Some(Message(Name(doc.root), Field(doc.head, CmdType), Field(doc.head, SN), Field(doc.head, DeviceID),
                         Field(doc.head, ResultTag), Field(doc.head, StartTime), Field(doc.head, EndTime),
                         ToInt(Field(doc.head, SumNum)), []))
  {
    HeadOnly(doc.root, doc.head);
    KeptIsRead(doc, doc.head);
  }

  lemma {:induction false} QueryFields(cmdType: string, deviceId: string, sn: int)
    ensures var head := QueryHead(cmdType, deviceId, sn);
            var time := if cmdType == "RecordInfo" then EPOCH else "";
            && Field(head, StartTime) == Field(head, EndTime) == time
            && Field(head, ResultTag) == Field(head, SumNum) == ""
            && Field(head, CmdType) == cmdType && Field(head, SN) == DecimalInt(sn) && Field(head, DeviceID) == deviceId
  {
    var head := QueryHead(cmdType, deviceId, sn);
    ThreeFields(head);
    FieldAbsent(head, ResultTag);
    FieldAbsent(head, SumNum);
    if cmdType == "RecordInfo" {
      FieldAt(head, 3);
      FieldAt(head, 4);
    } else {
      FieldAbsent(head, StartTime);
      FieldAbsent(head, EndTime);
    }
  }

  lemma {:induction false} QueryKept(cmdType: string, deviceId: string, sn: int)
    requires Kept(cmdType) && Kept(deviceId)
    ensures AllKept(QueryHead(cmdType, deviceId, sn))
  {
    NumbersAreKept(sn);
    assert Kept(EPOCH);
  }

  lemma {:induction false} QueryIsRead(cmdType: string, deviceId: string, sn: int)
    requires Kept(cmdType) && cmdType != "" && Kept(deviceId)
    ensures var time := if cmdType == "RecordInfo" then EPOCH else "";
            Parse(QueryBody(cmdType, deviceId, sn)) ==
            Some(Message("Query", cmdType, DecimalInt(sn), deviceId, "", time, time, 0, []))
  {
    QueryKept(cmdType, deviceId, sn);
    QueryFields(cmdType, deviceId, sn);
    HeadIsRead(Document(QueryTag, QueryHead(cmdType, deviceId, sn), None));
  }

  // ---------------------------------------------------------------- responses

  lemma {:induction false} KeptItem(leaves: seq<Leaf>)
    requires AllKept(leaves)
    ensures LeafItem(leaves) == ItemOf(seq(18, i requires 0 <= i < 18 => Field(leaves, ITEM_TAGS[i])))
  {
    var trimmed := seq(18, i requires 0 <= i < 18 => Trim(Field(leaves, ITEM_TAGS[i])));
    var plain := seq(18, i requires 0 <= i < 18 => Field(leaves, ITEM_TAGS[i]));
    forall i | 0 <= i < 18 ensures trimmed[i] == plain[i] {
      FieldIsKept(leaves, ITEM_TAGS[i]);
    }
    assert trimmed == plain;
  }

  /** The item read of an entry of the catalogue file. */
  function ItemOfNode(n: NodeInfo): ManscdpItem {
    NO_ITEM.(deviceId := n.deviceId, name := n.name, manufacturer := OrUnknown(n.manufacturer),
             model := OrUnknown(n.model), owner := "unknown", civilCode := CivilCodeOf(n.deviceId),
             parental := DecimalInt(n.parental), parentId := n.parentId, safetyWay := DecimalInt(n.safetyWay),
             registerWay := DecimalInt(n.registerWay), secrecy := DecimalInt(n.secrecy), status := n.status,
             longitude := n.longitude, latitude := n.latitude)
  }

  predicate NodeKept(n: NodeInfo) {
    && Kept(n.deviceId) && Kept(n.name) && Kept(n.manufacturer) && Kept(n.model) && Kept(n.parentId)
    && Kept(n.status) && Kept(n.longitude) && Kept(n.latitude) && Kept(CivilCodeOf(n.deviceId))
  }

  lemma {:induction false} NodeLeavesKept(n: NodeInfo)
    requires NodeKept(n)
    ensures AllKept(NodeItem(n))
  {
    NumbersAreKept(n.parental);
    NumbersAreKept(n.safetyWay);
    NumbersAreKept(n.registerWay);
    NumbersAreKept(n.secrecy);
    assert Kept("unknown");
    assert NODE_TAGS[..14] == NODE_TAGS;
    EntryKept(14, NodeTexts(n));
  }

  lemma {:induction false} EntryKept(k: nat, texts: seq<string>)
    requires k <= 14 && |texts| == k && forall i :: 0 <= i < k ==> Kept(texts[i])
    ensures AllKept(Zip(NODE_TAGS[..k], texts))
  {
    NodeTagsAreFields();
  }

  lemma {:induction false} NodeTagsAreFields()
    ensures |NODE_TAGS| == 14
    ensures forall i :: 0 <= i < 14 ==> IsField(NODE_TAGS[i]) && NODE_TAGS[i] != StartTime && NODE_TAGS[i] != EndTime
  {
  }

  /** Where the i-th field of an item stands among the printed ones, the end when it is not printed. */
  function Printed(i: nat): nat {
    if i == 17 then 6 else if i == 6 || i > 13 then 14 else i
  }

  predicate NoRepeats(tags: seq<Tag>) {
    forall i, j :: 0 <= i < j < |tags| ==> tags[i] != tags[j]
  }

  lemma {:induction false} PrintedTags(i: nat)
    requires i < 18
    ensures if Printed(i) < 14 then NODE_TAGS[Printed(i)] == ITEM_TAGS[i] else ITEM_TAGS[i] !in NODE_TAGS
  {
  }

  lemma {:induction false} NodeTagsDiffer()
    ensures NoRepeats(NODE_TAGS)
  {
  }

  lemma {:induction false} FieldOfZip(tags: seq<Tag>, texts: seq<string>, tag: Tag, k: nat)
    requires |tags| == |texts| && NoRepeats(tags)
    requires if k < |tags| then tags[k] == tag else tag !in tags
    ensures Field(Zip(tags, texts), tag) == if k < |tags| then texts[k] else ""
  {
    if k < |tags| {
      FieldAt(Zip(tags, texts), k);
    } else {
      FieldAbsent(Zip(tags, texts), tag);
    }
  }

  predicate Places(texts: seq<string>, fields: seq<string>)
    requires |texts| == 14 && |fields| == 18
  {
    forall i :: 0 <= i < 18 ==> fields[i] == if Printed(i) < 14 then texts[Printed(i)] else ""
  }

  lemma {:induction false} SameFields(texts: seq<string>, fields: seq<string>)
    requires |texts| == 14 && |fields| == 18 && Places(texts, fields)
    ensures seq(18, i requires 0 <= i < 18 => Field(Zip(NODE_TAGS, texts), ITEM_TAGS[i])) == fields
  {
    var read := seq(18, i requires 0 <= i < 18 => Field(Zip(NODE_TAGS, texts), ITEM_TAGS[i]));
    NodeTagsDiffer();
    forall i | 0 <= i < 18 ensures read[i] == fields[i] {
      PrintedTags(i);
      FieldOfZip(NODE_TAGS, texts, ITEM_TAGS[i], Printed(i));
    }
    assert read == fields;
  }

  lemma {:induction false} NodePlaces(n: NodeInfo)
    ensures Places(NodeTexts(n), FieldsOf(ItemOfNode(n)))
  {
  }

  lemma {:induction false} NodeItemIsRead(n: NodeInfo)
    requires NodeKept(n)
    ensures LeafItem(NodeItem(n)) == ItemOfNode(n)
  {
    NodeLeavesKept(n);
    NodePlaces(n);
    ItemOfFields(ItemOfNode(n));
    ItemOfTexts(NodeTexts(n), FieldsOf(ItemOfNode(n)));
  }

  lemma {:induction false} ItemOfTexts(texts: seq<string>, fields: seq<string>)
    requires |texts| == 14 && |fields| == 18 && Places(texts, fields) && AllKept(Zip(NODE_TAGS, texts))
    ensures LeafItem(Zip(NODE_TAGS, texts)) == ItemOf(fields)
  {
    KeptItem(Zip(NODE_TAGS, texts));
    SameFields(texts, fields);
  }

  lemma {:induction false} CountIsRead(count: nat)
    requires count <= INT_MAX
    ensures ToInt(Decimal(count)) == count
  {
    ExtractPrinted(count, "", INT_MIN, INT_MAX);
    assert Decimal(count) + "" == Decimal(count);
  }

  lemma {:induction false} ListHeadKept(cmdType: string, deviceId: string, result: string, sn: string, count: nat)
    requires Kept(cmdType) && Kept(deviceId) && Kept(result) && Kept(sn)
    ensures AllKept(ListHead(cmdType, deviceId, result, sn, count))
  {
    NumbersAreKept(count);
  }

  lemma {:induction false} ListFields(head: seq<Leaf>, item: seq<Leaf>)
    requires |head| == 5 && head[0].tag == CmdType && head[1].tag == SN && head[2].tag == DeviceID
    requires head[3].tag == ResultTag && head[4].tag == SumNum
    ensures var leaves := head + item;
            && Field(leaves, CmdType) == head[0].text && Field(leaves, SN) == head[1].text
            && Field(leaves, DeviceID) == head[2].text && Field(leaves, ResultTag) == head[3].text
            && Field(leaves, SumNum) == head[4].text
    ensures Field(head + item, StartTime) == Field(item, StartTime) && Field(head + item, EndTime) == Field(item, EndTime)
  {
    ThreeFields(head + item);
    FieldAt(head + item, 3);
    FieldAt(head + item, 4);
    FieldAbsent(head, StartTime);
    FieldAbsent(head, EndTime);
    FieldAppend(head, item, StartTime);
    FieldAppend(head, item, EndTime);
  }

  lemma {:induction false} ListLeaves(head: seq<Leaf>, tag: Tag, item: seq<Leaf>)
    ensures ListDocument(head, tag, item).Leaves() == head + item
  {
    if item != [] {
      FlattenSingle(item);
    }
  }

  lemma {:induction false} OneItem(item: seq<Leaf>)
    ensures LeafItems(AtMostOne(item)) == if item == [] then [] else [LeafItem(item)]
  {
    assert [item][1..] == [];
  }

  lemma {:induction false} ListDocumentValid(head: seq<Leaf>, tag: Tag, item: seq<Leaf>)
    requires AllKept(head) && AllKept(item) && (tag == DeviceList || tag == RecordList)
    ensures ListDocument(head, tag, item).Valid() && AllKept(head + item)
  {
    AllKeptAppend(head, item);
  }

  /** A response with a list of at most one item is read field by field: its headings, the count it announces and
      its item. The search for a heading does not stop at the list, so its times are those of the item. */
  lemma {:induction false} ListResponseIsRead(cmdType: string, deviceId: string, result: string, sn: string, count: nat,
                                              tag: Tag, item: seq<Leaf>)
    requires Kept(cmdType) && cmdType != "" && Kept(deviceId) && Kept(result) && Kept(sn) && count <= INT_MAX
    requires AllKept(item) && (tag == DeviceList || tag == RecordList)
    ensures Parse(Print(ListDocument(ListHead(cmdType, deviceId, result, sn, count), tag, item))) ==
            Some(Message("Response", cmdType, sn, deviceId, result, Field(item, StartTime), Field(item, EndTime), count,
                         LeafItems(AtMostOne(item))))
  {
    var head := ListHead(cmdType, deviceId, result, sn, count);
    ListHeadKept(cmdType, deviceId, result, sn, count);
    ListDocumentValid(head, tag, item);
    ListLeaves(head, tag, item);
    ListFields(head, item);
    CountIsRead(count);
    KeptIsRead(ListDocument(head, tag, item), head + item);
  }

  /** Entries of a catalogue have no times. */
  lemma {:induction false} EntryHasNoTimes(k: nat, texts: seq<string>)
    requires k <= 14 && |texts| == k
    ensures var item := Zip(NODE_TAGS[..k], texts); Field(item, StartTime) == Field(item, EndTime) == ""
  {
    NodeTagsAreFields();
    FieldAbsent(Zip(NODE_TAGS[..k], texts), StartTime);
    FieldAbsent(Zip(NODE_TAGS[..k], texts), EndTime);
  }

  lemma {:induction false} EntryIsRead(deviceId: string, sn: string, count: nat, leaves: seq<Leaf>)
    requires Kept(deviceId) && Kept(sn) && count <= INT_MAX && AllKept(leaves)
    requires Field(leaves, StartTime) == Field(leaves, EndTime) == ""
    ensures Parse(CatalogBody(deviceId, sn, count, leaves)) ==
            Some(Message("Response", "Catalog", sn, deviceId, "OK", "", "", count, LeafItems(AtMostOne(leaves))))
  {
    ListResponseIsRead("Catalog", deviceId, "OK", sn, count, DeviceList, leaves);
  }

  lemma {:induction false} NodeItems(n: NodeInfo)
    requires NodeKept(n)
    ensures LeafItems(AtMostOne(NodeItem(n))) == [ItemOfNode(n)]
  {
    OneItem(NodeItem(n));
    NodeItemIsRead(n);
  }

  /** A catalogue response carries the count of the whole catalogue and one entry field by field. */
  lemma {:induction false} CatalogIsRead(deviceId: string, sn: string, count: nat, n: NodeInfo)
    requires Kept(deviceId) && Kept(sn) && count <= INT_MAX && NodeKept(n)
    ensures Parse(CatalogBody(deviceId, sn, count, NodeItem(n))) ==
            Some(Message("Response", "Catalog", sn, deviceId, "OK", "", "", count, [ItemOfNode(n)]))
  {
    NodeLeavesKept(n);
    NodeItems(n);
    NodeItemIsEntry(n);
    EntryIsRead(deviceId, sn, count, NodeItem(n));
  }

  lemma {:induction false} NodeItemIsEntry(n: NodeInfo)
    ensures Field(NodeItem(n), StartTime) == Field(NodeItem(n), EndTime) == ""
  {
    assert NODE_TAGS[..14] == NODE_TAGS;
    EntryHasNoTimes(14, NodeTexts(n));
  }

  lemma {:induction false} EmptyCatalogIsRead(deviceId: string, sn: string)
    requires Kept(deviceId) && Kept(sn)
    ensures Parse(CatalogBody(deviceId, sn, 0, [])) ==
            Some(Message("Response", "Catalog", sn, deviceId, "OK", "", "", 0, []))
  {
    ListResponseIsRead("Catalog", deviceId, "OK", sn, 0, DeviceList, []);
  }

  lemma {:induction false} OwnRecordKept(deviceId: string)
    requires Kept(deviceId)
    ensures AllKept(OwnRecord(deviceId))
  {
    assert Kept("self-test-record") && Kept("/tmp/self-test.ps") && Kept(EPOCH);
  }

  lemma {:induction false} OwnRecordTimes(deviceId: string)
    ensures Field(OwnRecord(deviceId), StartTime) == Field(OwnRecord(deviceId), EndTime) == EPOCH
  {
    FieldAt(OwnRecord(deviceId), 3);
    FieldAt(OwnRecord(deviceId), 4);
  }

  /** The node's own record comes back with its times twice: in the item, and as headings nobody printed. */
  lemma {:induction false} OwnRecordIsRead(deviceId: string, result: string, sn: int)
    requires Kept(deviceId) && Kept(result)
    ensures Parse(OwnRecordBody(deviceId, result, sn)) ==
            Some(Message("Response", "RecordInfo", DecimalInt(sn), deviceId, result, EPOCH, EPOCH, 1,
                         LeafItems([OwnRecord(deviceId)])))
  {
    OwnRecordKept(deviceId);
    OwnRecordTimes(deviceId);
    NumbersAreKept(sn);
    ListResponseIsRead("RecordInfo", deviceId, result, DecimalInt(sn), 1, RecordList, OwnRecord(deviceId));
  }

  lemma {:induction false} OwnNamesKept()
    ensures Kept("gb28181-node") && Kept("media-fabric") && Kept("GB28181Node")
    ensures Kept("GB28181") && Kept("000000") && Kept("0") && Kept("1") && Kept("ON")
  {
  }

  lemma {:induction false} OwnItemKept(deviceId: string)
    requires Kept(deviceId)
    ensures AllKept(OwnItem(deviceId))
  {
    OwnNamesKept();
    NodeTagsAreFields();
    EntryKept(12, OwnTexts(deviceId));
  }

  lemma {:induction false} OwnCatalogIsRead(deviceId: string, result: string, sn: int)
    requires Kept(deviceId) && Kept(result)
    ensures Parse(OwnCatalogBody(deviceId, result, sn)) ==
            Some(Message("Response", "Catalog", DecimalInt(sn), deviceId, result, "", "", 1,
                         LeafItems([OwnItem(deviceId)])))
  {
    OwnItemKept(deviceId);
    EntryHasNoTimes(12, OwnTexts(deviceId));
    NumbersAreKept(sn);
    ListResponseIsRead("Catalog", deviceId, result, DecimalInt(sn), 1, DeviceList, OwnItem(deviceId));
  }
}
