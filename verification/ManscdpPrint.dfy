/** The MANSCDP bodies that src/capabilities/GB28181Capabilities.cpp prints, and the proof that reading them gives
    back what was printed. */
module ManscdpPrint {
  import opened Common
  import opened Text
  import opened ManscdpItems
  import opened Manscdp

  // ---------------------------------------------------------------- names tell each other apart

  function CharAt(text: string, k: nat): char { if k < |text| then text[k] else '\0' }

  /** The name a text starts with, told from its first, second, third, fourth and seventh characters. */
  function Identify(text: string): Tag {
    var c, d, e, f, i := CharAt(text, 0), CharAt(text, 1), CharAt(text, 2), CharAt(text, 3), CharAt(text, 6);
    match c
    case 'Q' => QueryTag
    case 'N' => if d == 'o' then NotifyTag else NameTag
    case 'R' => if e == 'c' then RecordList else if e == 'g' then RegisterWay
                else if f == 'u' then ResultTag else ResponseTag
    case 'C' => if d == 'm' then CmdType else CivilCode
    case 'D' => if i == 'I' then DeviceID else DeviceList
    case 'I' => ItemTag
    case 'M' => if d == 'a' then Manufacturer else Model
    case 'O' => Owner
    case 'P' => if i == 'a' then Parental else ParentID
    case 'A' => Address
    case 'L' => if d == 'o' then Longitude else Latitude
    case 'F' => FilePath
    case 'E' => EndTime
    case _ => if d == 'N' then SN else if d == 'u' then SumNum else if d == 'a' then SafetyWay
              else if d == 'e' then Secrecy else if f == 't' then Status else StartTime
  }

  lemma {:induction false} IdentifyName(text: string, tag: Tag)
    requires Name(tag) <= text
    ensures Identify(text) == tag
  {
    var n := Name(tag);
    assert text[..|n|] == n;
    assert |n| > 0 ==> text[0] == n[0];
    assert |n| > 1 ==> text[1] == n[1];
    assert |n| > 2 ==> text[2] == n[2];
    assert |n| > 3 ==> text[3] == n[3];
    assert |n| > 6 ==> text[6] == n[6];
  }

  /** A text that can stand between tags. */
  predicate Plain(text: string) {
    forall i :: 0 <= i < |text| ==> text[i] != '<'
  }

  predicate IsNameChar(c: char) { 'a' <= c <= 'z' || 'A' <= c <= 'Z' }

  /** Elements that hold a text. */
  predicate IsField(tag: Tag) {
    !(tag.QueryTag? || tag.NotifyTag? || tag.ResponseTag? || tag.DeviceList? || tag.RecordList? || tag.ItemTag?)
  }

  predicate Letters(name: string) {
    name != "" && forall i :: 0 <= i < |name| ==> IsNameChar(name[i])
  }

  lemma {:induction false} HeadingsAreLetters(tag: Tag)
    requires !IsField(tag) || tag.CmdType? || tag.SN? || tag.DeviceID? || tag.ResultTag? || tag.SumNum?
    ensures Letters(Name(tag))
  {
  }

  lemma {:induction false} NamesAreLetters(tag: Tag)
    ensures Letters(Name(tag))
  {
    if !IsField(tag) || tag.CmdType? || tag.SN? || tag.DeviceID? || tag.ResultTag? || tag.SumNum? {
      HeadingsAreLetters(tag);
    }
  }

  // ---------------------------------------------------------------- bodies as tags and texts

  /** A piece of a body: a < and what follows it up to the next one. */
  datatype Seg = Decl | Open(tag: Tag, attr: string, text: string) | Close(tag: Tag)
  {
    predicate Valid() {
      Open? ==> Plain(text) && forall i :: 0 <= i < |attr| ==> attr[i] != '<' && attr[i] != '>'
    }

    predicate Opens(name: Tag) { Open? && tag == name }

    function Text(): string {
      match this
      case Decl => "?xml version=\"1.0\"?>\r\n"
      case Open(tag, attr, text) => Name(tag) + attr + ">" + text
      case Close(tag) => "/" + Name(tag) + ">\r\n"
    }
  }

  function Render(segs: seq<Seg>): string {
    if segs == [] then "" else "<" + segs[0].Text() + Render(segs[1..])
  }

  predicate AllValid(segs: seq<Seg>) {
    forall i :: 0 <= i < |segs| ==> segs[i].Valid()
  }

  lemma {:induction false} RenderAppend(a: seq<Seg>, b: seq<Seg>)
    ensures Render(a + b) == Render(a) + Render(b)
  {
    if a == [] {
      assert a + b == b;
    } else {
      assert (a + b)[1..] == a[1..] + b;
      RenderAppend(a[1..], b);
      ConcatAssoc("<" + a[0].Text(), Render(a[1..]), Render(b));
    }
  }

  lemma {:induction false} ValidTextIsPlain(seg: Seg)
    requires seg.Valid()
    ensures Plain(seg.Text())
  {
    match seg
    case Decl =>
    case Open(tag, attr, text) => NamesAreLetters(tag);
    case Close(tag) => NamesAreLetters(tag);
  }

  // ---------------------------------------------------------------- searching in concatenations

  function Shift(n: nat, at: Option<nat>): Option<nat> {
    match at case Some(i) => Some(n + i) case None => None
  }

  function ShiftSpan(n: nat, span: Option<Span>): Option<Span> {
    match span case Some(s) => Some(Span(n + s.from, n + s.end, n + s.next)) case None => None
  }

  lemma {:induction false} OccursAppend(a: string, b: string, pattern: string, i: nat)
    ensures Occurs(a + b, pattern, |a| + i) == Occurs(b, pattern, i)
    decreases |pattern|
  {
    if pattern != [] && i < |b| {
      assert (a + b)[|a| + i] == b[i];
      OccursAppend(a, b, pattern[1..], i + 1);
    }
  }

  lemma {:induction false} FindAppend(a: string, b: string, pattern: string, i: nat)
    ensures Find(a + b, pattern, |a| + i) == Shift(|a|, Find(b, pattern, i))
    decreases |b| - i
  {
    OccursAppend(a, b, pattern, i);
    if i < |b| {
      FindAppend(a, b, pattern, i + 1);
    }
  }

  lemma {:induction false} FindCharAppend(a: string, b: string, c: char, i: nat)
    ensures FindChar(a + b, c, |a| + i) == Shift(|a|, FindChar(b, c, i))
    decreases |b| - i
  {
    if i < |b| {
      assert (a + b)[|a| + i] == b[i];
      FindCharAppend(a, b, c, i + 1);
    }
  }

  /** A stretch without the pattern's first character is passed over. */
  lemma {:induction false} FindSkip(text: string, pattern: string, from: nat, to: nat)
    requires from <= to <= |text| && pattern != []
    requires forall i :: from <= i < to ==> text[i] != pattern[0]
    ensures Find(text, pattern, from) == Find(text, pattern, to)
    decreases |text| - from
  {
    if from < to {
      OccursAt(text, pattern, from, 0);
      FindSkip(text, pattern, from + 1, to);
    }
  }

  lemma {:induction false} FindPast(a: string, b: string, pattern: string)
    requires pattern != [] && pattern[0] == '<' && Plain(a)
    ensures Find(a + b, pattern, 0) == Shift(|a|, Find(b, pattern, 0))
  {
    FindSkip(a + b, pattern, 0, |a|);
    FindAppend(a, b, pattern, 0);
  }

  lemma {:induction false} FindCharPast(a: string, b: string, c: char)
    requires forall i :: 0 <= i < |a| ==> a[i] != c
    ensures FindChar(a + b, c, 0) == Shift(|a|, FindChar(b, c, 0))
  {
    if a == [] {
      assert a + b == b;
    } else {
      assert (a + b)[0] == a[0] && a + b == [a[0]] + (a[1..] + b);
      FindCharPast(a[1..], b, c);
      FindCharAppend([a[0]], a[1..] + b, c, 0);
    }
  }

  lemma {:induction false} BehindShift(a: string, b: string, name: string, after: nat)
    ensures SpanBehind(a + b, |a| + after, name) == ShiftSpan(|a|, SpanBehind(b, after, name))
  {
    FindCharAppend(a, b, '>', after);
    var close := FindChar(b, '>', after);
    if close.Some? {
      FindAppend(a, b, "</" + name + ">", close.value + 1);
    }
  }

  /** Where the begin tag is found decides: the rest of the search is the same behind anything. */
  lemma {:induction false} SpanShift(a: string, b: string, name: string, from: nat, i: nat)
    requires Find(a + b, "<" + name, from) == Shift(|a|, Find(b, "<" + name, i))
    ensures SpanAt(a + b, from, name) == ShiftSpan(|a|, SpanAt(b, i, name))
  {
    var begin := Find(b, "<" + name, i);
    if begin.Some? {
      BehindShift(a, b, name, begin.value + 1 + |name|);
    }
  }

  // ---------------------------------------------------------------- searching among pieces

  predicate Starts(text: string) { text == "" || text[0] == '<' }

  lemma {:induction false} RenderStarts(segs: seq<Seg>)
    ensures Starts(Render(segs)) && (Render(segs) == "" <==> segs == [])
  {
  }

  lemma {:induction false} NameIsWithin(piece: string, rest: string, name: string)
    requires Starts(rest) && forall i :: 0 <= i < |name| ==> IsNameChar(name[i])
    ensures Occurs(piece + rest, name, 0) ==> name <= piece
  {
    if |name| > |piece| {
      OccursAt(piece + rest, name, 0, |piece|);
    } else {
      OccursIsPrefix(piece + rest, name, "");
      assert name + "" == name;
      PrefixOfFront(name, piece, rest);
    }
  }

  lemma {:induction false} PrefixOfFront(name: string, piece: string, rest: string)
    requires |name| <= |piece|
    ensures name <= piece + rest ==> name <= piece
  {
    if name <= piece + rest {
      assert forall k :: 0 <= k < |name| ==> (piece + rest)[k] == piece[k];
    }
  }

  lemma {:induction false} OccursIsPrefix(text: string, name: string, more: string)
    ensures Occurs(text, name + more, 0) ==> name <= text
    ensures name + more <= text ==> Occurs(text, name + more, 0)
  {
    var pattern := name + more;
    OccursFits(text, pattern, 0);
    if Occurs(text, pattern, 0) {
      forall k | 0 <= k < |name| ensures text[k] == name[k] {
        OccursAt(text, pattern, 0, k);
      }
    }
    if pattern <= text {
      forall k | 0 <= k < |pattern| ensures text[0 + k] == pattern[k] {
      }
      MatchOccurs(text, pattern, 0);
    }
  }

  /** A name that occurs at the front of a piece and what follows it is the one the piece starts with. */
  lemma {:induction false} NameIsIdentified(piece: string, rest: string, tag: Tag)
    requires Starts(rest)
    ensures Occurs(piece + rest, Name(tag), 0) ==> Identify(piece) == tag && Name(tag) <= piece
    ensures Name(tag) <= piece ==> Occurs(piece + rest, Name(tag), 0)
  {
    NamesAreLetters(tag);
    NameIsWithin(piece, rest, Name(tag));
    if Name(tag) <= piece {
      IdentifyName(piece, tag);
      assert Name(tag) <= piece + rest && Name(tag) + "" == Name(tag);
      OccursIsPrefix(piece + rest, Name(tag), "");
    }
  }

  lemma {:induction false} OpenIsIdentified(seg: Seg)
    ensures seg.Open? ==> Identify(seg.Text()) == seg.tag && Name(seg.tag) <= seg.Text()
    ensures !seg.Open? ==> !IsNameChar(CharAt(seg.Text(), 0))
  {
    if seg.Open? {
      IdentifyName(seg.Text(), seg.tag);
    }
  }

  /** A name is found in front exactly at the piece that opens the element. */
  lemma {:induction false} NameOccurs(seg: Seg, rest: string, tag: Tag)
    requires Starts(rest)
    ensures Occurs(seg.Text() + rest, Name(tag), 0) <==> seg.Opens(tag)
  {
    OpenIsIdentified(seg);
    NameIsIdentified(seg.Text(), rest, tag);
    PrefixStarts(Name(tag), seg.Text());
    NamesAreLetters(tag);
  }

  lemma {:induction false} PrefixStarts(name: string, text: string)
    ensures name != "" && name <= text ==> CharAt(text, 0) == name[0]
  {
  }

  /** A begin tag is found exactly at the piece that opens the element. */
  lemma {:induction false} OpenOccurs(seg: Seg, rest: string, tag: Tag)
    requires Starts(rest)
    ensures Occurs("<" + seg.Text() + rest, "<" + Name(tag), 0) <==> seg.Opens(tag)
  {
    ConcatAssoc("<", seg.Text(), rest);
    OccursBehind("<", seg.Text() + rest, Name(tag));
    NameOccurs(seg, rest, tag);
  }

  lemma {:induction false} OccursBehind(first: string, text: string, pattern: string)
    requires |first| == 1
    ensures Occurs(first + text, first + pattern, 0) <==> Occurs(text, pattern, 0)
  {
    assert (first + pattern)[1..] == pattern;
    OccursAppend(first, text, pattern, 0);
  }

  lemma {:induction false} CloseText(a: Tag, rest: string)
    ensures Close(a).Text() + rest == "/" + (Name(a) + (">\r\n" + rest))
  {
  }

  /** An end tag is found exactly at the piece that closes the element. */
  lemma {:induction false} CloseOccurs(seg: Seg, rest: string, tag: Tag)
    requires Starts(rest)
    ensures Occurs("<" + seg.Text() + rest, "</" + Name(tag) + ">", 0) <==> seg == Close(tag)
  {
    ConcatAssoc("<", seg.Text(), rest);
    EndTagText(Name(tag));
    OccursBehind("<", seg.Text() + rest, "/" + (Name(tag) + ">"));
    SlashOccurs(seg, rest, tag);
  }

  lemma {:induction false} EndTagText(name: string)
    ensures "</" + name + ">" == "<" + ("/" + (name + ">"))
  {
  }

  lemma {:induction false} SlashOccurs(seg: Seg, rest: string, tag: Tag)
    ensures Occurs(seg.Text() + rest, "/" + (Name(tag) + ">"), 0) <==> seg == Close(tag)
  {
    if seg.Close? {
      CloseText(seg.tag, rest);
      OccursBehind("/", Name(seg.tag) + (">\r\n" + rest), Name(tag) + ">");
      SameName(seg.tag, tag, ">\r\n" + rest);
    } else {
      NotSlash(seg, rest);
      OccursAt(seg.Text() + rest, "/" + (Name(tag) + ">"), 0, 0);
    }
  }

  lemma {:induction false} NotSlash(seg: Seg, rest: string)
    requires !seg.Close?
    ensures seg.Text() + rest != "" && (seg.Text() + rest)[0] != '/'
  {
    if seg.Open? {
      NamesAreLetters(seg.tag);
    }
  }

  lemma {:induction false} SameName(a: Tag, b: Tag, rest: string)
    requires rest != "" && rest[0] == '>'
    ensures Occurs(Name(a) + rest, Name(b) + ">", 0) <==> a == b
  {
    var text := Name(a) + rest;
    assert Name(a) <= text;
    IdentifyName(text, a);
    OccursIsPrefix(text, Name(b), ">");
    if Name(b) <= text {
      IdentifyName(text, b);
    }
    assert Name(a) + ">" <= text;
  }

  /** The piece that closes the element, or the end. */
  function CloseAt(segs: seq<Seg>, tag: Tag): (k: nat)
    ensures k <= |segs|
  {
    if segs == [] || segs[0] == Close(tag) then 0 else 1 + CloseAt(segs[1..], tag)
  }

  lemma {:induction false} RenderTake(segs: seq<Seg>, k: nat)
    requires 0 < k <= |segs|
    ensures |Render(segs[..k])| == 1 + |segs[0].Text()| + |Render(segs[1..][..k - 1])|
  {
    assert segs[..k][1..] == segs[1..][..k - 1];
  }

  function BeforeClose(segs: seq<Seg>, k: nat): Option<nat> {
    if k < |segs| then Some(|Render(segs[..k])|) else None
  }

  lemma {:induction false} FindClose(segs: seq<Seg>, tag: Tag)
    requires AllValid(segs)
    ensures Find(Render(segs), "</" + Name(tag) + ">", 0) == BeforeClose(segs, CloseAt(segs, tag))
    decreases |segs|
  {
    if segs != [] {
      RenderStarts(segs[1..]);
      ValidTextIsPlain(segs[0]);
      FindClose(segs[1..], tag);
      CloseStep(segs[0], Render(segs[1..]), tag, "</" + Name(tag) + ">");
      BeforeCloseStep(segs, CloseAt(segs, tag), |segs[0].Text()|);
    }
  }

  lemma {:induction false} BeforeCloseStep(segs: seq<Seg>, k: nat, size: nat)
    requires segs != [] && size == |segs[0].Text()|
    ensures BeforeClose(segs, k) == if k == 0 then Some(0) else Shift(1 + size, BeforeClose(segs[1..], k - 1))
  {
    if 0 < k < |segs| {
      RenderTake(segs, k);
    }
  }

  lemma {:induction false} CloseStep(seg: Seg, rest: string, tag: Tag, pattern: string)
    requires Starts(rest) && Plain(seg.Text()) && pattern == "</" + Name(tag) + ">"
    ensures Find("<" + seg.Text() + rest, pattern, 0) ==
            if seg == Close(tag) then Some(0) else Shift(1 + |seg.Text()|, Find(rest, pattern, 0))
  {
    CloseOccurs(seg, rest, tag);
    if seg != Close(tag) {
      FindNext(seg.Text(), rest, pattern);
    }
  }

  /** A search that does not stop at a piece goes on behind it. */
  lemma {:induction false} FindNext(piece: string, rest: string, pattern: string)
    requires Plain(piece) && pattern != [] && pattern[0] == '<'
    requires !Occurs("<" + piece + rest, pattern, 0)
    ensures Find("<" + piece + rest, pattern, 0) == Shift(1 + |piece|, Find(rest, pattern, 0))
  {
    var text := "<" + piece + rest;
    assert forall i :: 1 <= i < 1 + |piece| ==> text[i] == piece[i - 1];
    FindSkip(text, pattern, 1, 1 + |piece|);
    FindAppend("<" + piece, rest, pattern, 0);
  }

  lemma {:induction false} OpenStep(seg: Seg, rest: string, tag: Tag)
    requires Starts(rest) && Plain(seg.Text())
    ensures Find("<" + seg.Text() + rest, "<" + Name(tag), 0) ==
            if seg.Opens(tag) then Some(0) else Shift(1 + |seg.Text()|, Find(rest, "<" + Name(tag), 0))
  {
    OpenOccurs(seg, rest, tag);
    if !seg.Opens(tag) {
      FindNext(seg.Text(), rest, "<" + Name(tag));
    }
  }

  // ---------------------------------------------------------------- an element among pieces

  /** The first > behind a begin tag's name ends the tag. */
  lemma {:induction false} TagEnds(front: string, attr: string, behind: string)
    requires forall i :: 0 <= i < |attr| ==> attr[i] != '>'
    requires behind != "" && behind[0] == '>'
    ensures FindChar(front + (attr + behind), '>', |front|) == Some(|front| + |attr|)
  {
    FindCharAppend(front, attr + behind, '>', 0);
    FindCharPast(attr, behind, '>');
  }

  lemma {:induction false} EndTagBehind(head: string, text: string, rest: string, endTag: string)
    requires Plain(text) && endTag != "" && endTag[0] == '<'
    ensures Find(head + (text + rest), endTag, |head|) == Shift(|head| + |text|, Find(rest, endTag, 0))
  {
    FindAppend(head, text + rest, endTag, 0);
    FindPast(text, rest, endTag);
  }

  lemma {:induction false} BeginTagParts(name: string, attr: string, text: string, rest: string)
    ensures "<" + (name + attr + ">" + text) + rest == ("<" + name) + (attr + (">" + text + rest))
  {
  }

  lemma {:induction false} TagAndText(name: string, attr: string, text: string, rest: string)
    ensures "<" + (name + attr + ">" + text) + rest == ("<" + name + attr + ">") + (text + rest)
  {
  }

  lemma {:induction false} PieceParts(tag: Tag, attr: string, text: string, rest: string)
    ensures "<" + Open(tag, attr, text).Text() + rest == ("<" + Name(tag)) + (attr + (">" + text + rest))
    ensures "<" + Open(tag, attr, text).Text() + rest == ("<" + Name(tag) + attr + ">") + (text + rest)
  {
    BeginTagParts(Name(tag), attr, text, rest);
    TagAndText(Name(tag), attr, text, rest);
  }

  /** The text up to an end tag, empty when there is none. */
  function UpTo(text: string, rest: string, name: string): string {
    match Find(rest, "</" + name + ">", 0) case None => "" case Some(e) => text + rest[..e]
  }

  lemma {:induction false} SpanHere(whole: string, name: string, attr: string, text: string, rest: string)
    requires Find(whole, "<" + name, 0) == Some(0) && Plain(text)
    requires forall i :: 0 <= i < |attr| ==> attr[i] != '>'
    requires whole == ("<" + name) + (attr + (">" + text + rest))
    requires whole == ("<" + name + attr + ">") + (text + rest)
    ensures var head := 2 + |name| + |attr|;
            SpanAt(whole, 0, name) ==
            match Find(rest, "</" + name + ">", 0)
            case None => None
            case Some(e) => Some(Span(head, head + |text| + e, head + |text| + e + |name| + 3))
  {
    TagEnds("<" + name, attr, ">" + text + rest);
    EndTagBehind("<" + name + attr + ">", text, rest, "</" + name + ">");
  }

  /** An element at the front. */
  lemma {:induction false} BlockHere(whole: string, name: string, attr: string, text: string, rest: string)
    requires Find(whole, "<" + name, 0) == Some(0) && Plain(text)
    requires forall i :: 0 <= i < |attr| ==> attr[i] != '>'
    requires whole == ("<" + name) + (attr + (">" + text + rest))
    requires whole == ("<" + name + attr + ">") + (text + rest)
    ensures Block(whole, name) == UpTo(text, rest, name)
  {
    SpanHere(whole, name, attr, text, rest);
    var e := Find(rest, "</" + name + ">", 0);
    if e.Some? {
      SliceOfText("<" + name + attr + ">", text, rest, e.value);
    }
  }

  lemma {:induction false} SliceOfText(head: string, text: string, rest: string, e: nat)
    requires e <= |rest|
    ensures (head + (text + rest))[|head|..|head| + |text| + e] == text + rest[..e]
  {
    SliceBehind(head, text + rest, |text| + e);
    assert (text + rest)[..|text| + e] == text + rest[..e];
  }

  lemma {:induction false} SliceBehind(a: string, b: string, n: nat)
    requires n <= |b|
    ensures (a + b)[|a|..|a| + n] == b[..n]
  {
  }

  lemma {:induction false} SliceShift(a: string, b: string, from: nat, to: nat)
    requires from <= to <= |b|
    ensures (a + b)[|a| + from..|a| + to] == b[from..to]
  {
  }

  lemma {:induction false} CutShift(a: string, b: string, span: Option<Span>)
    requires span.Some? ==> span.value.from <= span.value.end <= |b|
    ensures Cut(a + b, ShiftSpan(|a|, span)) == Cut(b, span)
  {
    if span.Some? {
      SliceShift(a, b, span.value.from, span.value.end);
    }
  }

  /** An element further on. */
  lemma {:induction false} BlockBehind(before: string, rest: string, name: string)
    requires Find(before + rest, "<" + name, 0) == Shift(|before|, Find(rest, "<" + name, 0))
    ensures Block(before + rest, name) == Block(rest, name)
  {
    SpanShift(before, rest, name, 0, 0);
    CutShift(before, rest, SpanAt(rest, 0, name));
  }

  lemma {:induction false} BlockStep(seg: Seg, rest: string, tag: Tag)
    requires Starts(rest) && seg.Valid()
    ensures Block("<" + seg.Text() + rest, Name(tag)) ==
            if seg.Opens(tag) then UpTo(seg.text, rest, Name(tag)) else Block(rest, Name(tag))
  {
    ValidTextIsPlain(seg);
    OpenStep(seg, rest, tag);
    if seg.Opens(tag) {
      PieceParts(tag, seg.attr, seg.text, rest);
      BlockHere("<" + seg.Text() + rest, Name(tag), seg.attr, seg.text, rest);
    } else {
      BlockBehind("<" + seg.Text(), rest, Name(tag));
    }
  }

  /** What a search for an element finds: the text behind its begin tag and all pieces up to its end tag. */
  function BlockOf(segs: seq<Seg>, tag: Tag): string {
    if segs == [] then ""
    else if segs[0].Opens(tag) then PiecesUpTo(segs[0].text, segs[1..], tag)
    else BlockOf(segs[1..], tag)
  }

  function PiecesUpTo(text: string, segs: seq<Seg>, tag: Tag): string {
    var k := CloseAt(segs, tag);
    if k == |segs| then "" else text + Render(segs[..k])
  }

  lemma {:induction false} RenderPrefix(segs: seq<Seg>, k: nat)
    requires k <= |segs|
    ensures |Render(segs[..k])| <= |Render(segs)| && Render(segs)[..|Render(segs[..k])|] == Render(segs[..k])
  {
    RenderFront(segs[..k], segs[k..]);
    assert segs[..k] + segs[k..] == segs;
  }

  lemma {:induction false} RenderFront(a: seq<Seg>, b: seq<Seg>)
    ensures |Render(a)| <= |Render(a + b)| && Render(a + b)[..|Render(a)|] == Render(a)
  {
    RenderAppend(a, b);
    FrontOf(Render(a), Render(b));
  }

  lemma {:induction false} FrontOf(a: string, b: string)
    ensures |a| <= |a + b| && (a + b)[..|a|] == a
  {
  }

  lemma {:induction false} UpToRender(text: string, segs: seq<Seg>, tag: Tag)
    requires AllValid(segs)
    ensures UpTo(text, Render(segs), Name(tag)) == PiecesUpTo(text, segs, tag)
  {
    FindClose(segs, tag);
    RenderPrefix(segs, CloseAt(segs, tag));
  }

  lemma {:induction false} BlockOfPieces(segs: seq<Seg>, tag: Tag)
    requires AllValid(segs)
    ensures Block(Render(segs), Name(tag)) == BlockOf(segs, tag)
    decreases |segs|
  {
    if segs != [] {
      RenderStarts(segs[1..]);
      BlockStep(segs[0], Render(segs[1..]), tag);
      if segs[0].Opens(tag) {
        UpToRender(segs[0].text, segs[1..], tag);
      } else {
        BlockOfPieces(segs[1..], tag);
      }
    }
  }

  /** Searching a printed text for an element finds what the pieces say, behind any plain text. */
  lemma {:induction false} BlockOfRender(before: string, segs: seq<Seg>, tag: Tag)
    requires Plain(before) && AllValid(segs)
    ensures Block(before + Render(segs), Name(tag)) == BlockOf(segs, tag)
  {
    FindPast(before, Render(segs), "<" + Name(tag));
    BlockBehind(before, Render(segs), Name(tag));
    BlockOfPieces(segs, tag);
  }

  // ---------------------------------------------------------------- fields

  datatype Leaf = Leaf(tag: Tag, text: string)

  predicate Proper(leaves: seq<Leaf>) {
    forall i :: 0 <= i < |leaves| ==> IsField(leaves[i].tag) && Plain(leaves[i].text)
  }

  function LeafSegs(leaves: seq<Leaf>): seq<Seg> {
    if leaves == [] then []
    else [Open(leaves[0].tag, "", leaves[0].text), Close(leaves[0].tag)] + LeafSegs(leaves[1..])
  }

  predicate HasLeaf(leaves: seq<Leaf>, tag: Tag) {
    leaves != [] && (leaves[0].tag == tag || HasLeaf(leaves[1..], tag))
  }

  /** The text of the first field of a name, empty when there is none. */
  function Field(leaves: seq<Leaf>, tag: Tag): string {
    if leaves == [] then "" else if leaves[0].tag == tag then leaves[0].text else Field(leaves[1..], tag)
  }

  lemma {:induction false} LeafSegsValid(leaves: seq<Leaf>)
    requires Proper(leaves)
    ensures AllValid(LeafSegs(leaves))
  {
    if leaves != [] {
      LeafSegsValid(leaves[1..]);
    }
  }

  lemma {:induction false} FieldAppend(a: seq<Leaf>, b: seq<Leaf>, tag: Tag)
    ensures Field(a + b, tag) == if HasLeaf(a, tag) then Field(a, tag) else Field(b, tag)
  {
    if a == [] {
      assert a + b == b;
    } else {
      assert (a + b)[1..] == a[1..] + b;
      FieldAppend(a[1..], b, tag);
    }
  }

  /** Among fields the first of the name is found, behind them the search goes on. */
  lemma {:induction false} BlockInLeaves(leaves: seq<Leaf>, more: seq<Seg>, tag: Tag)
    ensures BlockOf(LeafSegs(leaves) + more, tag) ==
            if HasLeaf(leaves, tag) then Field(leaves, tag) else BlockOf(more, tag)
  {
    if leaves == [] {
      assert LeafSegs(leaves) + more == more;
    } else {
      var open, close, rest := Open(leaves[0].tag, "", leaves[0].text), Close(leaves[0].tag), LeafSegs(leaves[1..]) + more;
      assert LeafSegs(leaves) + more == [open] + ([close] + rest);
      assert ([open] + ([close] + rest))[1..] == [close] + rest;
      if leaves[0].tag == tag {
        FirstCloses(open.text, close, rest);
      } else {
        assert ([close] + rest)[1..] == rest;
        BlockInLeaves(leaves[1..], more, tag);
      }
    }
  }

  lemma {:induction false} FirstCloses(text: string, close: Seg, rest: seq<Seg>)
    requires close.Close?
    ensures PiecesUpTo(text, [close] + rest, close.tag) == text
  {
    assert ([close] + rest)[..0] == [];
    assert text + "" == text;
  }

  // ---------------------------------------------------------------- items

  /** The item the fields describe, white space around their texts removed. */
  function LeafItem(leaves: seq<Leaf>): ManscdpItem {
    ItemOf(seq(18, i requires 0 <= i < 18 => Trim(Field(leaves, ITEM_TAGS[i]))))
  }

  lemma {:induction false} FieldOfPrinted(leaves: seq<Leaf>, tag: Tag)
    requires Proper(leaves)
    ensures Block("\r\n" + Render(LeafSegs(leaves)), Name(tag)) == Field(leaves, tag)
  {
    LeafSegsValid(leaves);
    BlockOfRender("\r\n", LeafSegs(leaves), tag);
    BlockInLeaves(leaves, [], tag);
    assert LeafSegs(leaves) + [] == LeafSegs(leaves);
    FieldAppend(leaves, [], tag);
    assert leaves + [] == leaves;
  }

  lemma {:induction false} ItemOfPrinted(leaves: seq<Leaf>)
    requires Proper(leaves)
    ensures ReadItem("\r\n" + Render(LeafSegs(leaves))) == LeafItem(leaves)
  {
    var body := "\r\n" + Render(LeafSegs(leaves));
    var read := seq(18, i requires 0 <= i < 18 => ElementText(body, Name(ITEM_TAGS[i])));
    var printed := seq(18, i requires 0 <= i < 18 => Trim(Field(leaves, ITEM_TAGS[i])));
    forall i | 0 <= i < 18 ensures read[i] == printed[i] {
      FieldOfPrinted(leaves, ITEM_TAGS[i]);
    }
    assert read == printed;
  }

  lemma {:induction false} ItemSpanShift(a: string, b: string, i: nat)
    ensures SpanAt(a + b, |a| + i, ItemName(a + b, |a| + i)) == ShiftSpan(|a|, SpanAt(b, i, ItemName(b, i)))
  {
    FindAppend(a, b, "<Item", i);
    FindAppend(a, b, "<" + ItemName(b, i), i);
    SpanShift(a, b, ItemName(b, i), |a| + i, i);
  }

  function ItemSegs(leaves: seq<Leaf>): seq<Seg> {
    [Open(ItemTag, "", "\r\n")] + LeafSegs(leaves) + [Close(ItemTag)]
  }

  function ItemsSegs(items: seq<seq<Leaf>>): seq<Seg> {
    if items == [] then [] else ItemSegs(items[0]) + ItemsSegs(items[1..])
  }

  function LeafItems(items: seq<seq<Leaf>>): seq<ManscdpItem> {
    if items == [] then [] else [LeafItem(items[0])] + LeafItems(items[1..])
  }

  predicate AllProper(items: seq<seq<Leaf>>) {
    forall i :: 0 <= i < |items| ==> Proper(items[i])
  }

  /** An item at the front of a list. */
  lemma {:induction false} ItemFront(inner: string, after: string)
    requires Find(inner + ("</Item>" + after), "</Item>", 0) == Some(|inner|)
    ensures var text := "\r\n<Item>" + (inner + ("</Item>" + after));
            ItemName(text, 0) == "Item" && SpanAt(text, 0, "Item") == Some(Span(8, 8 + |inner|, 15 + |inner|))
  {
    var rest := inner + ("</Item>" + after);
    var text := "\r\n<Item>" + rest;
    assert "<" + "Item" == "<Item" && "</" + "Item" + ">" == "</Item>";
    FindSkip(text, "<Item", 0, 2);
    assert Occurs(text, "<Item", 2);
    FindCharAppend("\r\n<Item", ">" + rest, '>', 0);
    assert "\r\n<Item" + (">" + rest) == text;
    FindAppend("\r\n<Item>", rest, "</Item>", 0);
  }

  function ItemPlace(done: string, inner: string): Span {
    Span(|done| + 8, |done| + 8 + |inner|, |done| + 15 + |inner|)
  }

  lemma {:induction false} ItemSpan(done: string, inner: string, after: string, text: string)
    requires Find(inner + ("</Item>" + after), "</Item>", 0) == Some(|inner|)
    requires text == done + ("\r\n<Item>" + (inner + ("</Item>" + after)))
    ensures SpanAt(text, |done|, ItemName(text, |done|)) == Some(ItemPlace(done, inner))
  {
    ItemFront(inner, after);
    ItemSpanShift(done, "\r\n<Item>" + (inner + ("</Item>" + after)), 0);
  }

  lemma {:induction false} ItemCuts(done: string, inner: string, after: string, text: string)
    requires text == done + ("\r\n<Item>" + (inner + ("</Item>" + after)))
    ensures text == (done + "\r\n<Item>" + inner + "</Item>") + after
    ensures |text| >= |done| + 8 + |inner| && text[|done| + 8..|done| + 8 + |inner|] == inner
  {
    assert text == (done + "\r\n<Item>") + (inner + ("</Item>" + after));
    SliceShift(done + "\r\n<Item>", inner + ("</Item>" + after), 0, |inner|);
    assert (inner + ("</Item>" + after))[0..|inner|] == inner;
  }

  /** The items that a search finds from n on, one after the other, and no more. */
  predicate Chain(text: string, n: nat, bodies: seq<string>)
    decreases |bodies|
  {
    match SpanAt(text, n, ItemName(text, n))
    case None => bodies == []
    case Some(span) =>
      bodies != [] && text[span.from..span.end] == bodies[0] && Chain(text, span.next, bodies[1..])
  }

  lemma {:induction false} ChainIsBodies(text: string, n: nat, bodies: seq<string>)
    requires Chain(text, n, bodies)
    ensures Bodies(text, n) == bodies
    decreases |bodies|
  {
    if bodies != [] {
      ChainIsBodies(text, SpanAt(text, n, ItemName(text, n)).value.next, bodies[1..]);
    }
  }

  /** An item is found at n, with this text, and the search goes on at next. */
  predicate Link(text: string, n: nat, body: string, next: nat) {
    match SpanAt(text, n, ItemName(text, n))
    case None => false
    case Some(span) => span.next == next && text[span.from..span.end] == body
  }

  lemma {:induction false} ChainCons(text: string, n: nat, body: string, next: nat, bodies: seq<string>)
    requires Link(text, n, body, next) && Chain(text, next, bodies)
    ensures Chain(text, n, [body] + bodies)
  {
    assert ([body] + bodies)[1..] == bodies;
  }

  lemma {:induction false} NoBodies(done: string)
    ensures Chain(done + "\r\n", |done|, [])
  {
    FindSkip("\r\n", "<Item", 0, 2);
    FindSkip("\r\n", "<item", 0, 2);
    ItemSpanShift(done, "\r\n", 0);
  }

  lemma {:induction false} LeavesDoNotClose(leaves: seq<Leaf>, tag: Tag, more: seq<Seg>)
    requires Proper(leaves) && !IsField(tag)
    ensures CloseAt(LeafSegs(leaves) + [Close(tag)] + more, tag) == |LeafSegs(leaves)|
  {
    var segs := LeafSegs(leaves) + [Close(tag)] + more;
    if leaves != [] {
      var rest := LeafSegs(leaves[1..]) + [Close(tag)] + more;
      assert segs[1..][1..] == rest;
      LeavesDoNotClose(leaves[1..], tag, more);
    }
  }

  lemma {:induction false} ItemsSegsValid(items: seq<seq<Leaf>>)
    requires AllProper(items)
    ensures AllValid(ItemsSegs(items))
  {
    if items != [] {
      LeafSegsValid(items[0]);
      ItemsSegsValid(items[1..]);
    }
  }

  lemma {:induction false} RenderOpenItem(rest: seq<Seg>)
    ensures Render([Open(ItemTag, "", "\r\n")] + rest) == "<Item>" + ("\r\n" + Render(rest))
  {
    assert Open(ItemTag, "", "\r\n").Text() == "Item>\r\n";
    assert ([Open(ItemTag, "", "\r\n")] + rest)[1..] == rest;
  }

  lemma {:induction false} RenderCloseItem(rest: seq<Seg>)
    ensures Render([Close(ItemTag)] + rest) == "</Item>" + ("\r\n" + Render(rest))
  {
    assert Close(ItemTag).Text() == "/Item>\r\n";
    assert ([Close(ItemTag)] + rest)[1..] == rest;
  }

  lemma {:induction false} RenderItemBody(leaves: seq<Leaf>, more: seq<Seg>)
    ensures "\r\n" + Render(LeafSegs(leaves) + ([Close(ItemTag)] + more)) ==
            ("\r\n" + Render(LeafSegs(leaves))) + ("</Item>" + ("\r\n" + Render(more)))
  {
    RenderAppend(LeafSegs(leaves), [Close(ItemTag)] + more);
    RenderCloseItem(more);
    ConcatAssoc("\r\n", Render(LeafSegs(leaves)), "</Item>" + ("\r\n" + Render(more)));
  }

  lemma {:induction false} RenderItem(leaves: seq<Leaf>, more: seq<Seg>)
    ensures "\r\n" + Render(ItemSegs(leaves) + more) ==
            "\r\n<Item>" + (("\r\n" + Render(LeafSegs(leaves))) + ("</Item>" + ("\r\n" + Render(more))))
  {
    var rest := LeafSegs(leaves) + ([Close(ItemTag)] + more);
    assert ItemSegs(leaves) + more == [Open(ItemTag, "", "\r\n")] + rest;
    RenderOpenItem(rest);
    RenderItemBody(leaves, more);
    assert "\r\n" + "<Item>" == "\r\n<Item>";
    ConcatAssoc("\r\n", "<Item>", "\r\n" + Render(rest));
  }

  lemma {:induction false} ItemEndPlace(leaves: seq<Leaf>, more: seq<Seg>, segs: seq<Seg>)
    requires Proper(leaves) && AllValid(more) && segs == LeafSegs(leaves) + ([Close(ItemTag)] + more)
    ensures Find(Render(segs), "</Item>", 0) == Some(|Render(LeafSegs(leaves))|)
  {
    LeafSegsValid(leaves);
    assert LeafSegs(leaves) + [Close(ItemTag)] + more == segs;
    LeavesDoNotClose(leaves, ItemTag, more);
    assert "</" + Name(ItemTag) + ">" == "</Item>";
    FindClose(segs, ItemTag);
    assert segs[..|LeafSegs(leaves)|] == LeafSegs(leaves);
  }

  lemma {:induction false} ItemEnds(leaves: seq<Leaf>, more: seq<Seg>)
    requires Proper(leaves) && AllValid(more)
    ensures var inner := "\r\n" + Render(LeafSegs(leaves));
            Find(inner + ("</Item>" + ("\r\n" + Render(more))), "</Item>", 0) == Some(|inner|)
  {
    var segs := LeafSegs(leaves) + ([Close(ItemTag)] + more);
    ItemEndPlace(leaves, more, segs);
    FindPast("\r\n", Render(segs), "</Item>");
    RenderItemBody(leaves, more);
  }

  function PrintedBodies(items: seq<seq<Leaf>>): seq<string> {
    if items == [] then [] else ["\r\n" + Render(LeafSegs(items[0]))] + PrintedBodies(items[1..])
  }

  lemma {:induction false} PrintedLayout(items: seq<seq<Leaf>>, inner: string, after: string)
    requires AllProper(items) && items != []
    requires inner == "\r\n" + Render(LeafSegs(items[0])) && after == "\r\n" + Render(ItemsSegs(items[1..]))
    ensures "\r\n" + Render(ItemsSegs(items)) == "\r\n<Item>" + (inner + ("</Item>" + after))
    ensures Find(inner + ("</Item>" + after), "</Item>", 0) == Some(|inner|)
  {
    ItemsSegsValid(items[1..]);
    RenderItem(items[0], ItemsSegs(items[1..]));
    ItemEnds(items[0], ItemsSegs(items[1..]));
  }

  /** The rest of the text, from n on, is the printed list. */
  predicate ListFrom(text: string, n: nat, items: seq<seq<Leaf>>) {
    n <= |text| && text[n..] == "\r\n" + Render(ItemsSegs(items))
  }

  /** An item, and behind it the rest of the list. */
  lemma {:induction false} ItemFrom(text: string, n: nat, inner: string, after: string)
    requires n <= |text| && text[n..] == "\r\n<Item>" + (inner + ("</Item>" + after))
    requires Find(inner + ("</Item>" + after), "</Item>", 0) == Some(|inner|)
    ensures n + 15 + |inner| <= |text| && text[n + 8..n + 8 + |inner|] == inner && text[n + 15 + |inner|..] == after
    ensures SpanAt(text, n, ItemName(text, n)) == Some(Span(n + 8, n + 8 + |inner|, n + 15 + |inner|))
  {
    var done := text[..n];
    assert text == done + text[n..];
    ItemSpan(done, inner, after, text);
    ItemCuts(done, inner, after, text);
    var before := done + "\r\n<Item>" + inner + "</Item>";
    assert |before| == n + 15 + |inner| && (before + after)[|before|..] == after;
  }

  lemma {:induction false} ListStep(text: string, n: nat, items: seq<seq<Leaf>>, inner: string, next: nat)
    requires AllProper(items) && items != [] && ListFrom(text, n, items)
    requires inner == "\r\n" + Render(LeafSegs(items[0])) && next == n + 15 + |inner|
    ensures ListFrom(text, next, items[1..]) && Link(text, n, inner, next)
  {
    var after := "\r\n" + Render(ItemsSegs(items[1..]));
    PrintedLayout(items, inner, after);
    ItemFrom(text, n, inner, after);
  }

  lemma {:induction false} NoListStep(text: string, n: nat)
    requires ListFrom(text, n, [])
    ensures Chain(text, n, [])
  {
    assert text == text[..n] + "\r\n";
    NoBodies(text[..n]);
  }

  lemma {:induction false} ListIsChain(text: string, n: nat, items: seq<seq<Leaf>>)
    requires AllProper(items) && ListFrom(text, n, items)
    ensures Chain(text, n, PrintedBodies(items))
    decreases |items|
  {
    if items == [] {
      NoListStep(text, n);
    } else {
      var inner := "\r\n" + Render(LeafSegs(items[0]));
      var next := n + 15 + |inner|;
      ListStep(text, n, items, inner, next);
      ListIsChain(text, next, items[1..]);
      ChainCons(text, n, inner, next, PrintedBodies(items[1..]));
    }
  }

  lemma {:induction false} ReadPrintedBodies(items: seq<seq<Leaf>>)
    requires AllProper(items)
    ensures ReadItems(PrintedBodies(items)) == LeafItems(items)
  {
    if items != [] {
      ItemOfPrinted(items[0]);
      ReadStep([], "\r\n" + Render(LeafSegs(items[0])), PrintedBodies(items[1..]));
      ReadPrintedBodies(items[1..]);
    }
  }

  /** A printed list reads back item by item, for any number of items. */
  lemma {:induction false} ItemsOfPrinted(items: seq<seq<Leaf>>)
    requires AllProper(items)
    ensures Items("\r\n" + Render(ItemsSegs(items))) == LeafItems(items)
  {
    var text := "\r\n" + Render(ItemsSegs(items));
    assert text[0..] == text;
    ListIsChain(text, 0, items);
    ChainIsBodies(text, 0, PrintedBodies(items));
    ReadPrintedBodies(items);
  }
}
