/** Whole MANSCDP bodies: what src/capabilities/GB28181Capabilities.cpp prints is what src/core/ManscdpMessage.cpp
    reads back. */
module ManscdpMessages {
  import opened Common
  import opened Text
  import opened ManscdpItems
  import opened Manscdp
  import opened ManscdpPrint

  // ---------------------------------------------------------------- documents

  datatype Listing = Listing(tag: Tag, num: nat, items: seq<seq<Leaf>>)

  datatype Document = Document(root: Tag, head: seq<Leaf>, list: Option<Listing>)
  {
    predicate Valid() {
      && (root.QueryTag? || root.NotifyTag? || root.ResponseTag?)
      && Proper(head)
      && (list.Some? ==> (list.value.tag.DeviceList? || list.value.tag.RecordList?) && AllProper(list.value.items))
    }

    function Items(): seq<seq<Leaf>> { if list.Some? then list.value.items else [] }

    /** All fields in the order in which they are printed. */
    function Leaves(): seq<Leaf> { head + Flatten(Items()) }
  }

  function Line(leaf: Leaf): string {
    "<" + Name(leaf.tag) + ">" + leaf.text + "</" + Name(leaf.tag) + ">\r\n"
  }

  function Lines(leaves: seq<Leaf>): string {
    if leaves == [] then "" else Line(leaves[0]) + Lines(leaves[1..])
  }

  function BeginLine(tag: Tag, attr: string): string { "<" + Name(tag) + attr + ">\r\n" }

  function EndLine(tag: Tag): string { "</" + Name(tag) + ">\r\n" }

  function ItemLines(items: seq<seq<Leaf>>): string {
    if items == [] then ""
    else (BeginLine(ItemTag, "") + (Lines(items[0]) + EndLine(ItemTag))) + ItemLines(items[1..])
  }

  function NumAttribute(num: nat): string { " Num=\"" + Decimal(num) + "\"" }

  function ListLines(list: Option<Listing>): string {
    match list
    case None => ""
    case Some(l) => BeginLine(l.tag, NumAttribute(l.num)) + (ItemLines(l.items) + EndLine(l.tag))
  }

  /** The text of a body. */
  function Print(doc: Document): string {
    "<?xml version=\"1.0\"?>\r\n" +
    (BeginLine(doc.root, "") + (Lines(doc.head) + (ListLines(doc.list) + EndLine(doc.root))))
  }

  // ---------------------------------------------------------------- documents as pieces

  function ListSegs(list: Option<Listing>): seq<Seg> {
    match list
    case None => []
    case Some(l) => [Open(l.tag, NumAttribute(l.num), "\r\n")] + (ItemsSegs(l.items) + [Close(l.tag)])
  }

  function Body(doc: Document): seq<Seg> {
    LeafSegs(doc.head) + (ListSegs(doc.list) + [Close(doc.root)])
  }

  function Segs(doc: Document): seq<Seg> {
    [Decl] + ([Open(doc.root, "", "\r\n")] + Body(doc))
  }

  lemma {:induction false} RenderOne(seg: Seg, rest: seq<Seg>)
    ensures Render([seg] + rest) == "<" + seg.Text() + Render(rest)
    ensures Render([seg]) == "<" + seg.Text()
  {
    assert ([seg] + rest)[1..] == rest;
    assert [seg][1..] == [];
  }

  lemma {:induction false} LineText(name: string, text: string)
    ensures "<" + (name + "" + ">" + text) + ("<" + ("/" + name + ">\r\n")) ==
            "<" + name + ">" + text + "</" + name + ">\r\n"
  {
    assert name + "" == name;
    assert "<" + ("/" + name + ">\r\n") == "</" + name + ">\r\n";
    ConcatAssoc("<" + name + ">" + text, "</" + name, ">\r\n");
    ConcatAssoc("<" + name + ">" + text, "</", name);
  }

  lemma {:induction false} RenderLeaf(leaf: Leaf)
    ensures Render([Open(leaf.tag, "", leaf.text), Close(leaf.tag)]) == Line(leaf)
  {
    var open, close := Open(leaf.tag, "", leaf.text), Close(leaf.tag);
    RenderOne(open, [close]);
    RenderOne(close, []);
    assert [open] + [close] == [open, close];
    LineText(Name(leaf.tag), leaf.text);
  }

  lemma {:induction false} RenderLeaves(leaves: seq<Leaf>)
    ensures Render(LeafSegs(leaves)) == Lines(leaves)
  {
    if leaves != [] {
      RenderLeaf(leaves[0]);
      RenderLeaves(leaves[1..]);
      RenderAppend([Open(leaves[0].tag, "", leaves[0].text), Close(leaves[0].tag)], LeafSegs(leaves[1..]));
    }
  }

  lemma {:induction false} RenderBegin(tag: Tag, attr: string, rest: seq<Seg>)
    ensures Render([Open(tag, attr, "\r\n")] + rest) == BeginLine(tag, attr) + Render(rest)
  {
    RenderOne(Open(tag, attr, "\r\n"), rest);
    BeginText(Name(tag), attr);
  }

  lemma {:induction false} BeginText(name: string, attr: string)
    ensures "<" + (name + attr + ">" + "\r\n") == "<" + name + attr + ">\r\n"
  {
  }

  lemma {:induction false} RenderEnd(tag: Tag)
    ensures Render([Close(tag)]) == EndLine(tag)
  {
    RenderOne(Close(tag), []);
  }

  lemma {:induction false} RenderItems(items: seq<seq<Leaf>>)
    ensures Render(ItemsSegs(items)) == ItemLines(items)
  {
    if items != [] {
      RenderItems(items[1..]);
      RenderAppend(ItemSegs(items[0]), ItemsSegs(items[1..]));
      RenderItemLines(items[0]);
    }
  }

  lemma {:induction false} RenderItemLines(leaves: seq<Leaf>)
    ensures Render(ItemSegs(leaves)) == BeginLine(ItemTag, "") + (Lines(leaves) + EndLine(ItemTag))
  {
    var inside := LeafSegs(leaves) + [Close(ItemTag)];
    assert ItemSegs(leaves) == [Open(ItemTag, "", "\r\n")] + inside;
    RenderLeaves(leaves);
    RenderEnd(ItemTag);
    RenderAppend(LeafSegs(leaves), [Close(ItemTag)]);
    RenderBegin(ItemTag, "", inside);
  }

  lemma {:induction false} RenderList(list: Option<Listing>)
    ensures Render(ListSegs(list)) == ListLines(list)
  {
    if list.Some? {
      var l := list.value;
      RenderItems(l.items);
      RenderEnd(l.tag);
      RenderAppend(ItemsSegs(l.items), [Close(l.tag)]);
      RenderBegin(l.tag, NumAttribute(l.num), ItemsSegs(l.items) + [Close(l.tag)]);
    }
  }

  lemma {:induction false} RenderBody(doc: Document)
    ensures Render(Body(doc)) == Lines(doc.head) + (ListLines(doc.list) + EndLine(doc.root))
  {
    RenderLeaves(doc.head);
    RenderList(doc.list);
    RenderEnd(doc.root);
    RenderAppend(ListSegs(doc.list), [Close(doc.root)]);
    RenderAppend(LeafSegs(doc.head), ListSegs(doc.list) + [Close(doc.root)]);
  }

  lemma {:induction false} PrintIsRender(doc: Document)
    ensures Print(doc) == Render(Segs(doc))
  {
    RenderBody(doc);
    RenderBegin(doc.root, "", Body(doc));
    RenderDecl([Open(doc.root, "", "\r\n")] + Body(doc));
  }

  lemma {:induction false} RenderDecl(rest: seq<Seg>)
    ensures Render([Decl] + rest) == "<?xml version=\"1.0\"?>\r\n" + Render(rest)
  {
    RenderOne(Decl, rest);
  }

  lemma {:induction false} NumAttributeValid(num: nat)
    ensures forall i :: 0 <= i < |NumAttribute(num)| ==> NumAttribute(num)[i] != '<' && NumAttribute(num)[i] != '>'
  {
    var digits := Decimal(num);
    assert forall i :: 0 <= i < |digits| ==> digits[i] in digits;
  }

  lemma {:induction false} SegsValid(doc: Document)
    requires doc.Valid()
    ensures AllValid(Segs(doc))
  {
    LeafSegsValid(doc.head);
    if doc.list.Some? {
      NumAttributeValid(doc.list.value.num);
      ItemsSegsValid(doc.list.value.items);
    }
  }

  // ---------------------------------------------------------------- what a search finds

  lemma {:induction false} ProperHasNot(leaves: seq<Leaf>, tag: Tag)
    requires Proper(leaves) && !IsField(tag)
    ensures !HasLeaf(leaves, tag)
  {
    if leaves != [] {
      ProperHasNot(leaves[1..], tag);
    }
  }

  lemma {:induction false} HasAppend(a: seq<Leaf>, b: seq<Leaf>, tag: Tag)
    ensures HasLeaf(a + b, tag) <==> HasLeaf(a, tag) || HasLeaf(b, tag)
  {
    if a == [] {
      assert a + b == b;
    } else {
      assert (a + b)[1..] == a[1..] + b;
      HasAppend(a[1..], b, tag);
    }
  }

  lemma {:induction false} BlockOver(seg: Seg, more: seq<Seg>, tag: Tag)
    requires !seg.Opens(tag)
    ensures BlockOf([seg] + more, tag) == BlockOf(more, tag)
  {
    assert ([seg] + more)[1..] == more;
  }

  /** Items hold no element of the name but their fields. */
  lemma {:induction false} BlockInItems(items: seq<seq<Leaf>>, more: seq<Seg>, tag: Tag)
    requires AllProper(items) && tag != ItemTag
    ensures IsField(tag) ==>
              BlockOf(ItemsSegs(items) + more, tag) ==
              if HasLeaf(Flatten(items), tag) then Field(Flatten(items), tag) else BlockOf(more, tag)
    ensures !IsField(tag) ==> BlockOf(ItemsSegs(items) + more, tag) == BlockOf(more, tag)
    decreases |items|
  {
    if items == [] {
      assert ItemsSegs(items) + more == more;
    } else {
      var rest := ItemsSegs(items[1..]) + more;
      ItemsLayout(items, more);
      BlockOver(Open(ItemTag, "", "\r\n"), LeafSegs(items[0]) + ([Close(ItemTag)] + rest), tag);
      BlockInLeaves(items[0], [Close(ItemTag)] + rest, tag);
      BlockOver(Close(ItemTag), rest, tag);
      BlockInItems(items[1..], more, tag);
      HasAppend(items[0], Flatten(items[1..]), tag);
      FieldAppend(items[0], Flatten(items[1..]), tag);
      if !IsField(tag) {
        ProperHasNot(items[0], tag);
      }
    }
  }

  lemma {:induction false} ItemsLayout(items: seq<seq<Leaf>>, more: seq<Seg>)
    requires items != []
    ensures ItemsSegs(items) + more ==
            [Open(ItemTag, "", "\r\n")] +
            (LeafSegs(items[0]) + ([Close(ItemTag)] + (ItemsSegs(items[1..]) + more)))
  {
  }

  /** A search for a field finds its first occurrence, in the head or else in an item. */
  lemma {:induction false} DocumentField(doc: Document, tag: Tag)
    requires doc.Valid() && IsField(tag)
    ensures BlockOf(Segs(doc), tag) == Field(doc.Leaves(), tag)
  {
    var close := [Close(doc.root)];
    BlockOver(Decl, [Open(doc.root, "", "\r\n")] + Body(doc), tag);
    BlockOver(Open(doc.root, "", "\r\n"), Body(doc), tag);
    BlockInLeaves(doc.head, ListSegs(doc.list) + close, tag);
    FieldAppend(doc.head, Flatten(doc.Items()), tag);
    BlockOver(close[0], [], tag);
    assert close + [] == close;
    if doc.list.Some? {
      ListField(doc.list.value, close, tag);
      FieldAppend(Flatten(doc.Items()), [], tag);
      assert Flatten(doc.Items()) + [] == Flatten(doc.Items());
    } else {
      assert [] + close == close;
    }
  }

  lemma {:induction false} ListField(l: Listing, close: seq<Seg>, tag: Tag)
    requires !IsField(l.tag) && AllProper(l.items) && IsField(tag)
    requires BlockOf(close, tag) == ""
    ensures BlockOf(ListSegs(Some(l)) + close, tag) ==
            if HasLeaf(Flatten(l.items), tag) then Field(Flatten(l.items), tag) else ""
  {
    var open, end := Open(l.tag, NumAttribute(l.num), "\r\n"), [Close(l.tag)] + close;
    assert ListSegs(Some(l)) + close == [open] + (ItemsSegs(l.items) + end);
    BlockOver(open, ItemsSegs(l.items) + end, tag);
    BlockInItems(l.items, end, tag);
    BlockOver(Close(l.tag), close, tag);
  }

  lemma {:induction false} ItemsDoNotClose(items: seq<seq<Leaf>>, tag: Tag, more: seq<Seg>)
    requires AllProper(items) && !IsField(tag) && tag != ItemTag
    ensures CloseAt(ItemsSegs(items) + ([Close(tag)] + more), tag) == |ItemsSegs(items)|
    decreases |items|
  {
    var tail := [Close(tag)] + more;
    if items == [] {
      assert ItemsSegs(items) + tail == tail;
    } else {
      ItemsLayout(items, tail);
      var rest := ItemsSegs(items[1..]) + tail;
      ItemsDoNotClose(items[1..], tag, more);
      CloseOver([Open(ItemTag, "", "\r\n")], LeafSegs(items[0]) + ([Close(ItemTag)] + rest), tag);
      LeavesAreOver(items[0], tag);
      CloseOver(LeafSegs(items[0]), [Close(ItemTag)] + rest, tag);
      CloseOver([Close(ItemTag)], rest, tag);
    }
  }

  predicate NoClose(segs: seq<Seg>, tag: Tag) {
    forall i :: 0 <= i < |segs| ==> segs[i] != Close(tag)
  }

  lemma {:induction false} CloseOver(a: seq<Seg>, b: seq<Seg>, tag: Tag)
    requires NoClose(a, tag)
    ensures CloseAt(a + b, tag) == |a| + CloseAt(b, tag)
  {
    if a == [] {
      assert a + b == b;
    } else {
      assert (a + b)[0] == a[0] && (a + b)[1..] == a[1..] + b;
      CloseOver(a[1..], b, tag);
    }
  }

  lemma {:induction false} LeavesAreOver(leaves: seq<Leaf>, tag: Tag)
    requires Proper(leaves) && !IsField(tag)
    ensures NoClose(LeafSegs(leaves), tag)
  {
    if leaves != [] {
      LeavesAreOver(leaves[1..], tag);
    }
  }

  /** A search for a list finds the printed items, or nothing. */
  lemma {:induction false} DocumentList(doc: Document, tag: Tag)
    requires doc.Valid() && (tag.DeviceList? || tag.RecordList?)
    ensures BlockOf(Segs(doc), tag) ==
            if doc.list.Some? && doc.list.value.tag == tag then "\r\n" + Render(ItemsSegs(doc.Items())) else ""
  {
    var close := [Close(doc.root)];
    BlockOver(Decl, [Open(doc.root, "", "\r\n")] + Body(doc), tag);
    BlockOver(Open(doc.root, "", "\r\n"), Body(doc), tag);
    BlockInLeaves(doc.head, ListSegs(doc.list) + close, tag);
    ProperHasNot(doc.head, tag);
    BlockOver(close[0], [], tag);
    assert close + [] == close;
    if doc.list.Some? {
      ListBlock(doc.list.value, close, tag);
    } else {
      assert [] + close == close;
    }
  }

  lemma {:induction false} ListBlock(l: Listing, close: seq<Seg>, tag: Tag)
    requires !IsField(l.tag) && l.tag != ItemTag && AllProper(l.items) && !IsField(tag) && tag != ItemTag
    requires BlockOf(close, tag) == ""
    ensures BlockOf(ListSegs(Some(l)) + close, tag) == if l.tag == tag then "\r\n" + Render(ItemsSegs(l.items)) else ""
  {
    var open, end := Open(l.tag, NumAttribute(l.num), "\r\n"), [Close(l.tag)] + close;
    var inside := ItemsSegs(l.items) + end;
    assert ListSegs(Some(l)) + close == [open] + inside;
    if l.tag == tag {
      ItemsDoNotClose(l.items, tag, close);
      assert ([open] + inside)[1..] == inside && inside[..|ItemsSegs(l.items)|] == ItemsSegs(l.items);
    } else {
      BlockOver(open, inside, tag);
      BlockInItems(l.items, end, tag);
      BlockOver(Close(l.tag), close, tag);
    }
  }

  // ---------------------------------------------------------------- the root

  lemma {:induction false} NameEndPast(a: string, b: string, i: nat)
    requires i <= |a| && forall k :: i <= k < |a| ==> !EndsName(a[k])
    requires b != "" && EndsName(b[0])
    ensures FindNameEnd(a + b, i) == Some(|a|)
    decreases |a| - i
  {
    if i < |a| {
      assert (a + b)[i] == a[i];
      NameEndPast(a, b, i + 1);
    } else {
      assert (a + b)[i] == b[0];
    }
  }

  const DECLARATION := "<?xml version=\"1.0\"?>\r\n"

  /** The declaration is passed over: the next < stands right behind it. */
  lemma {:induction false} DeclarationIsPassed(tail: string)
    requires tail != "" && tail[0] == '<'
    ensures var body := DECLARATION + tail;
            FindChar(body, '<', 0) == Some(0) && OpensSpecial(body, 0) && FindChar(body, '<', 1) == Some(|DECLARATION|)
  {
    var d := "?xml version=\"1.0\"?>\r\n";
    var body := DECLARATION + tail;
    assert DECLARATION == "<" + d && body == "<" + (d + tail);
    assert body[0] == '<' && body[1] == '?';
    FindCharPast(d, tail, '<');
    FindCharAppend("<", d + tail, '<', 0);
    assert FindChar(tail, '<', 0) == Some(0);
  }

  /** The first element names the root. */
  lemma {:induction false} RootIsRead(name: string, rest: string)
    requires Letters(name) && rest != "" && rest[0] == '>'
    ensures Root(DECLARATION + ("<" + name + rest)) == name
  {
    var tail := "<" + name + rest;
    var body := DECLARATION + tail;
    DeclarationIsPassed(tail);
    assert body[|DECLARATION| + 1] == tail[1] == name[0];
    NameIsRead(DECLARATION + "<", name, rest);
    assert body == (DECLARATION + "<") + (name + rest);
    RootSteps(body, |DECLARATION|);
  }

  lemma {:induction false} RootSteps(body: string, n: nat)
    requires FindChar(body, '<', 0) == Some(0) && OpensSpecial(body, 0)
    requires FindChar(body, '<', 1) == Some(n) && !OpensSpecial(body, n)
    ensures Root(body) == NameAt(body, n + 1)
  {
    assert RootFrom(body, 1) == NameAt(body, n + 1);
  }

  lemma {:induction false} NameIsRead(before: string, name: string, rest: string)
    requires forall i :: 0 <= i < |name| ==> IsNameChar(name[i])
    requires rest != "" && rest[0] == '>'
    ensures NameAt(before + (name + rest), |before|) == name
  {
    var text := before + (name + rest);
    assert text == (before + name) + rest;
    assert forall k :: |before| <= k < |before + name| ==> (before + name)[k] == name[k - |before|];
    NameEndPast(before + name, rest, |before|);
  }

  lemma {:induction false} DocumentRoot(doc: Document)
    ensures Root(Print(doc)) == Name(doc.root)
  {
    var rest := Lines(doc.head) + (ListLines(doc.list) + EndLine(doc.root));
    NamesAreLetters(doc.root);
    RootIsRead(Name(doc.root), ">\r\n" + rest);
    RootLayout(Name(doc.root), rest);
  }

  lemma {:induction false} RootLayout(name: string, rest: string)
    ensures ("<" + name + "" + ">\r\n") + rest == "<" + name + (">\r\n" + rest)
  {
  }

  // ---------------------------------------------------------------- the whole message

  /** What is read of a field: its first text, in the head or in an item, without white space around it. */
  function FieldText(doc: Document, tag: Tag): string { Trim(Field(doc.Leaves(), tag)) }

  function MessageOf(doc: Document): Message {
    Message(Name(doc.root), FieldText(doc, CmdType), FieldText(doc, SN), FieldText(doc, DeviceID),
            FieldText(doc, ResultTag), FieldText(doc, StartTime), FieldText(doc, EndTime),
            ToInt(FieldText(doc, SumNum)), LeafItems(doc.Items()))
  }

  lemma {:induction false} TextIsRead(doc: Document, tag: Tag)
    requires doc.Valid() && IsField(tag)
    ensures ElementText(Print(doc), Name(tag)) == FieldText(doc, tag)
  {
    BlockIsRead(doc, tag);
    DocumentField(doc, tag);
  }

  lemma {:induction false} BlockIsRead(doc: Document, tag: Tag)
    requires doc.Valid()
    ensures Block(Print(doc), Name(tag)) == BlockOf(Segs(doc), tag)
  {
    PrintIsRender(doc);
    SegsValid(doc);
    BlockOfRender("", Segs(doc), tag);
    assert "" + Print(doc) == Print(doc);
  }

  lemma {:induction false} ListIsRead(doc: Document, tag: Tag)
    requires doc.Valid() && (tag.DeviceList? || tag.RecordList?)
    ensures Items(Block(Print(doc), Name(tag))) ==
            if doc.list.Some? && doc.list.value.tag == tag then LeafItems(doc.Items()) else []
  {
    BlockIsRead(doc, tag);
    DocumentList(doc, tag);
    if doc.list.Some? && doc.list.value.tag == tag {
      ItemsOfPrinted(doc.Items());
    } else {
      assert Bodies("", 0) == [];
    }
  }

  lemma {:induction false} ItemsAreRead(doc: Document)
    requires doc.Valid()
    ensures Items(Block(Print(doc), Name(DeviceList))) + Items(Block(Print(doc), Name(RecordList))) ==
            LeafItems(doc.Items())
  {
    ListIsRead(doc, DeviceList);
    ListIsRead(doc, RecordList);
    assert LeafItems(doc.Items()) + [] == LeafItems(doc.Items());
    assert [] + LeafItems(doc.Items()) == LeafItems(doc.Items());
  }

  /** Reading a printed body gives back its root, its fields and its items, for any number of items and any
      texts without <; white space around a text goes. Without a command type nothing is read. */
  lemma {:induction false} ParseUndoesPrint(doc: Document)
    requires doc.Valid()
    ensures Parse(Print(doc)) == if FieldText(doc, CmdType) == "" then None else Some(MessageOf(doc))
  {
    DocumentRoot(doc);
    NamesAreLetters(doc.root);
    TextIsRead(doc, CmdType);
    TextIsRead(doc, SN);
    TextIsRead(doc, DeviceID);
    TextIsRead(doc, ResultTag);
    TextIsRead(doc, StartTime);
    TextIsRead(doc, EndTime);
    TextIsRead(doc, SumNum);
    ItemsAreRead(doc);
  }
}
