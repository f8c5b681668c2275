/** The text form of the business state (src/core/BusinessState.cpp): escaped fields between tabs, one item a line. */
module Snapshots {
  import opened Common
  import opened Text
  import opened ManscdpItems
  import opened ItemMaps

  const HEADER := "GB28181_BUSINESS_STATE_V1"

  // ---------------------------------------------------------------- escaping

  predicate Special(c: char) { c == '\\' || c == '\t' || c == '\n' || c == '\r' }

  function EscapeLetter(c: char): char {
    if c == '\t' then 't' else if c == '\n' then 'n' else if c == '\r' then 'r' else c
  }

  function Escape(value: string): string {
    if value == [] then []
    else (if Special(value[0]) then ['\\', EscapeLetter(value[0])] else [value[0]]) + Escape(value[1..])
  }

  /** The character an escape letter stands for. */
  function Unescaped(letter: char): Option<char> {
    if letter == '\\' then Some('\\')
    else if letter == 't' then Some('\t')
    else if letter == 'n' then Some('\n')
    else if letter == 'r' then Some('\r')
    else None
  }

  function Unescape(text: string): Option<string> {
    if text == [] then Some([])
    else if text[0] != '\\' then Prepend([text[0]], Unescape(text[1..]))
    else if |text| == 1 || Unescaped(text[1]) == None then None
    else Prepend([Unescaped(text[1]).value], Unescape(text[2..]))
  }

  /** A text that fits in a field of a line. */
  predicate FieldSafe(text: string) {
    forall i :: 0 <= i < |text| ==> text[i] != '\t' && text[i] != '\n' && text[i] != '\r'
  }

  lemma {:induction false} UnescapeUndoesEscape(value: string)
    ensures Unescape(Escape(value)) == Some(value)
    ensures FieldSafe(Escape(value))
  {
    if value != [] {
      UnescapeUndoesEscape(value[1..]);
      var rest := Escape(value[1..]);
      if Special(value[0]) {
        assert Escape(value)[2..] == rest;
      } else {
        assert Escape(value)[1..] == rest;
      }
      assert [value[0]] + value[1..] == value;
    }
  }

  method EscapeValue(value: string) returns (result: string)
    ensures result == Escape(value)
  {
    result := "";
    var i := 0;
    while i < |value|
      invariant i <= |value|
      invariant result + Escape(value[i..]) == Escape(value)
    {
      assert value[i..][1..] == value[i + 1..];
      ghost var before := result;
      match value[i] {
        case '\\' => result := result + "\\\\";
        case '\t' => result := result + "\\t";
        case '\n' => result := result + "\\n";
        case '\r' => result := result + "\\r";
        case c => result := result + [c];
      }
      ghost var here := result[|before|..];
      assert result == before + here;
      ConcatAssoc(before, here, Escape(value[i + 1..]));
      i := i + 1;
    }
  }

  method UnescapeValue(text: string) returns (result: Option<string>)
    ensures result == Unescape(text)
  {
    var value: string := "";
    var i := 0;
    assert text[0..] == text;
    PrependNothing(Unescape(text));
    while i < |text|
      invariant i <= |text|
      invariant Prepend(value, Unescape(text[i..])) == Unescape(text)
    {
      ghost var rest := text[i..];
      if text[i] != '\\' {
        assert rest[1..] == text[i + 1..];
        PrependStep(value, text[i], Unescape(text[i + 1..]));
        value := value + [text[i]];
        i := i + 1;
      } else {
        if i + 1 >= |text| {
          return None;
        }
        assert rest[2..] == text[i + 2..];
        var c: char;
        match text[i + 1] {
          case '\\' => c := '\\';
          case 't' => c := '\t';
          case 'n' => c := '\n';
          case 'r' => c := '\r';
          case _ => return None;
        }
        PrependStep(value, c, Unescape(text[i + 2..]));
        value := value + [c];
        i := i + 2;
      }
    }
    assert value + [] == value;
    result := Some(value);
  }

  // ---------------------------------------------------------------- fields

  /** What a line holds between its tabs: always one field more than it has tabs. */
  function Split(line: string): (fields: seq<string>)
    ensures |fields| > 0
  {
    var i := IndexOf(line, '\t');
    if i == |line| then [line] else [line[..i]] + Split(line[i + 1..])
  }

  function Join(fields: seq<string>): string
    requires |fields| > 0
  {
    if |fields| == 1 then fields[0] else fields[0] + ['\t'] + Join(fields[1..])
  }

  lemma {:induction false} SplitUndoesJoin(fields: seq<string>)
    requires |fields| > 0 && forall i :: 0 <= i < |fields| ==> '\t' !in fields[i]
    ensures Split(Join(fields)) == fields
  {
    if |fields| == 1 {
      IndexOfFirst(fields[0], '\t', []);
    } else {
      SplitFirst(fields[0], Join(fields[1..]));
      SplitUndoesJoin(fields[1..]);
    }
  }

  lemma {:induction false} SplitFirst(first: string, rest: string)
    requires '\t' !in first
    ensures Split(first + ['\t'] + rest) == [first] + Split(rest)
  {
    var line := first + ['\t'] + rest;
    IndexOfFirst(first, '\t', rest);
    assert line[..|first|] == first && line[|first| + 1..] == rest;
  }

  lemma {:induction false} SplitSnoc(before: string, line: string, i: nat)
    requires i < |line| && '\t' !in before
    ensures line[i] == '\t' ==> Split(before + line[i..]) == [before] + Split(line[i + 1..])
    ensures line[i] != '\t' ==> before + line[i..] == (before + [line[i]]) + line[i + 1..]
  {
    if line[i] == '\t' {
      assert before + line[i..] == before + ['\t'] + line[i + 1..];
      IndexOfFirst(before, '\t', line[i + 1..]);
      assert (before + line[i..])[..|before|] == before;
      assert (before + line[i..])[|before| + 1..] == line[i + 1..];
    }
  }

  method SplitFields(line: string) returns (fields: seq<string>)
    ensures fields == Split(line)
  {
    fields := [];
    var current: string := "";
    var i := 0;
    assert current + line[0..] == line;
    while i < |line|
      invariant i <= |line| && '\t' !in current
      invariant fields + Split(current + line[i..]) == Split(line)
    {
      SplitSnoc(current, line, i);
      if line[i] == '\t' {
        ConcatAssoc(fields, [current], Split(line[i + 1..]));
        assert "" + line[i + 1..] == line[i + 1..];
        fields := fields + [current];
        current := "";
      } else {
        current := current + [line[i]];
      }
      i := i + 1;
    }
    assert current + line[i..] == current;
    IndexOfFirst(current, '\t', []);
    fields := fields + [current];
  }

  // ---------------------------------------------------------------- items

  function EscapeAll(values: seq<string>): (fields: seq<string>)
    ensures |fields| == |values|
  {
    if values == [] then [] else [Escape(values[0])] + EscapeAll(values[1..])
  }

  function UnescapeAll(fields: seq<string>): (values: Option<seq<string>>)
    ensures values.Some? ==> |values.value| == |fields|
  {
    if fields == [] then Some([])
    else
      match Unescape(fields[0]) case None => None case Some(first) => Prepend([first], UnescapeAll(fields[1..]))
  }

  lemma {:induction false} UnescapeAllUndoes(values: seq<string>)
    ensures UnescapeAll(EscapeAll(values)) == Some(values)
    ensures forall i :: 0 <= i < |values| ==> FieldSafe(EscapeAll(values)[i])
  {
    if values != [] {
      UnescapeUndoesEscape(values[0]);
      UnescapeAllUndoes(values[1..]);
      assert EscapeAll(values)[1..] == EscapeAll(values[1..]);
      assert [values[0]] + values[1..] == values;
    }
  }

  // ---------------------------------------------------------------- lines

  datatype Record = Record(catalog: bool, peer: string, item: ManscdpItem)

  function TypeName(catalog: bool): string { if catalog then "CATALOG" else "RECORD" }

  /** A type and escaped values between tabs. */
  function Line(catalog: bool, values: seq<string>): string {
    Join([TypeName(catalog)] + EscapeAll(values))
  }

  function LineOf(r: Record): string { Line(r.catalog, [r.peer] + FieldsOf(r.item)) }

  datatype Error =
    | EmptySnapshot | UnsupportedHeader | InvalidEscape
    | InvalidFieldCount(line: nat) | UnknownType(line: nat)

  datatype Result<+T> = Ok(value: T) | Failed(error: Error)

  function DecodeFields(fields: seq<string>, n: nat): Result<Record>
    requires |fields| > 0
  {
    if |fields| != 19 && |fields| != 20 then Failed(InvalidFieldCount(n))
    else
      match UnescapeAll(fields[1..])
      case None => Failed(InvalidEscape)
      case Some(values) =>
        if fields[0] == "CATALOG" then Ok(Record(true, values[0], ItemOf(values[1..])))
        else if fields[0] == "RECORD" then Ok(Record(false, values[0], ItemOf(values[1..])))
        else Failed(UnknownType(n))
  }

  lemma {:induction false} SplitLine(catalog: bool, values: seq<string>)
    ensures Split(Line(catalog, values)) == [TypeName(catalog)] + EscapeAll(values)
    ensures UnescapeAll(EscapeAll(values)) == Some(values)
  {
    UnescapeAllUndoes(values);
    SplitUndoesJoin([TypeName(catalog)] + EscapeAll(values));
  }

  lemma {:induction false} DecodeValues(catalog: bool, peer: string, values: seq<string>, n: nat)
    requires |values| == 17 || |values| == 18
    ensures DecodeFields(Split(Line(catalog, [peer] + values)), n) == Ok(Record(catalog, peer, ItemOf(values)))
  {
    SplitLine(catalog, [peer] + values);
    var fields := [TypeName(catalog)] + EscapeAll([peer] + values);
    assert fields[1..] == EscapeAll([peer] + values);
    assert ([peer] + values)[1..] == values;
  }

  /** A line reads back as the item it was printed from. */
  lemma {:induction false} LineRoundTrip(r: Record, n: nat)
    ensures DecodeFields(Split(LineOf(r)), n) == Ok(r)
  {
    DecodeValues(r.catalog, r.peer, FieldsOf(r.item), n);
    ItemOfFields(r.item);
  }

  /** A line of the older form, without the parental flag, still reads back. */
  lemma {:induction false} OldLineRoundTrip(r: Record, n: nat)
    ensures DecodeFields(Split(Line(r.catalog, [r.peer] + FieldsOf(r.item)[..17])), n) ==
            Ok(r.(item := r.item.(parental := "")))
  {
    DecodeValues(r.catalog, r.peer, FieldsOf(r.item)[..17], n);
    ItemOfFields(r.item);
  }

  /** Joined safe fields have no line break, and a joined line of two fields is not empty. */
  lemma {:induction false} JoinIsOneLine(fields: seq<string>)
    requires |fields| > 0 && forall i :: 0 <= i < |fields| ==> FieldSafe(fields[i])
    ensures '\n' !in Join(fields) && '\r' !in Join(fields)
    ensures |fields| > 1 ==> Join(fields) != []
  {
    if |fields| > 1 {
      JoinIsOneLine(fields[1..]);
    }
  }

  lemma {:induction false} LineIsOneLine(r: Record)
    ensures '\n' !in LineOf(r) && '\r' !in LineOf(r) && LineOf(r) != []
  {
    var values := [r.peer] + FieldsOf(r.item);
    UnescapeAllUndoes(values);
    var fields := [TypeName(r.catalog)] + EscapeAll(values);
    forall i | 0 <= i < |fields| ensures FieldSafe(fields[i]) {
      if i > 0 {
        assert fields[i] == EscapeAll(values)[i - 1];
      }
    }
    JoinIsOneLine(fields);
  }

  // ---------------------------------------------------------------- the whole text

  datatype Maps = Maps(catalog: ItemMap, records: ItemMap)

  const NO_MAPS := Maps([], [])

  function RecordsOfItems(catalog: bool, peer: string, items: seq<ManscdpItem>): seq<Record> {
    if items == [] then [] else [Record(catalog, peer, items[0])] + RecordsOfItems(catalog, peer, items[1..])
  }

  function RecordsOfMap(catalog: bool, m: ItemMap): seq<Record> {
    if m == [] then [] else RecordsOfItems(catalog, m[0].peer, m[0].items) + RecordsOfMap(catalog, m[1..])
  }

  function Print(records: seq<Record>): string {
    if records == [] then [] else LineOf(records[0]) + "\n" + Print(records[1..])
  }

  function Records(maps: Maps): seq<Record> {
    RecordsOfMap(true, maps.catalog) + RecordsOfMap(false, maps.records)
  }

  function Serialize(maps: Maps): string {
    HEADER + "\n" + Print(Records(maps))
  }

  function StripCr(line: string): string {
    if line != [] && line[|line| - 1] == '\r' then line[..|line| - 1] else line
  }

  function Add(m: ItemMap, peer: string, item: ManscdpItem): ItemMap { Put(m, peer, Get(m, peer) + [item]) }

  function Apply(maps: Maps, r: Record): Maps {
    if r.catalog then maps.(catalog := Add(maps.catalog, r.peer, r.item))
    else maps.(records := Add(maps.records, r.peer, r.item))
  }

  function ApplyAll(maps: Maps, records: seq<Record>): Maps
    decreases |records|
  {
    if records == [] then maps else ApplyAll(Apply(maps, records[0]), records[1..])
  }

  /** The lines from number n + 1 on. */
  function RestoreLines(maps: Maps, lines: seq<string>, n: nat): Result<Maps>
    decreases |lines|
  {
    if lines == [] then Ok(maps)
    else
      var line := StripCr(lines[0]);
      if line == [] then RestoreLines(maps, lines[1..], n + 1)
      else
        match DecodeFields(Split(line), n + 1)
        case Failed(e) => Failed(e)
        case Ok(r) => RestoreLines(Apply(maps, r), lines[1..], n + 1)
  }

  function Restore(data: string): Result<Maps> {
    var lines := Pieces(data, '\n');
    if lines == [] then Failed(EmptySnapshot)
    else if StripCr(lines[0]) != HEADER then Failed(UnsupportedHeader)
    else RestoreLines(NO_MAPS, lines[1..], 1)
  }

  lemma {:induction false} RestorePrinted(maps: Maps, records: seq<Record>, n: nat)
    ensures RestoreLines(maps, Pieces(Print(records), '\n'), n) == Ok(ApplyAll(maps, records))
    decreases |records|
  {
    if records != [] {
      var line, rest := LineOf(records[0]), Print(records[1..]);
      LineIsOneLine(records[0]);
      LineRoundTrip(records[0], n + 1);
      PiecesCons(line, '\n', rest);
      RestorePrinted(Apply(maps, records[0]), records[1..], n + 1);
      LinesStep(maps, records[0], line, Pieces(rest, '\n'), n);
    }
  }

  lemma {:induction false} LinesStep(maps: Maps, r: Record, line: string, lines: seq<string>, n: nat)
    requires line != [] && '\r' !in line && DecodeFields(Split(line), n + 1) == Ok(r)
    ensures RestoreLines(maps, [line] + lines, n) == RestoreLines(Apply(maps, r), lines, n + 1)
  {
    assert line[|line| - 1] in line;
    assert ([line] + lines)[1..] == lines;
  }

  lemma {:induction false} ApplyAllAppend(maps: Maps, a: seq<Record>, b: seq<Record>)
    ensures ApplyAll(maps, a + b) == ApplyAll(ApplyAll(maps, a), b)
    decreases |a|
  {
    if a == [] {
      assert a + b == b;
    } else {
      assert (a + b)[1..] == a[1..] + b;
      ApplyAllAppend(Apply(maps, a[0]), a[1..], b);
    }
  }

  function DropEmpty(m: ItemMap): ItemMap {
    if m == [] then [] else (if m[0].items == [] then [] else [m[0]]) + DropEmpty(m[1..])
  }

  function With(maps: Maps, catalog: bool, m: ItemMap): Maps {
    if catalog then maps.(catalog := m) else maps.(records := m)
  }

  function LastEntry(peer: string, items: seq<ManscdpItem>): ItemMap {
    if items == [] then [] else [Entry(peer, items)]
  }

  /** The items of one entry, read in order behind smaller keys, make up that entry. */
  lemma {:induction false} EntryRebuilt(maps: Maps, catalog: bool, m: ItemMap, peer: string,
                                        had: seq<ManscdpItem>, items: seq<ManscdpItem>)
    requires AllBelow(m, peer)
    ensures ApplyAll(With(maps, catalog, m + LastEntry(peer, had)), RecordsOfItems(catalog, peer, items)) ==
            With(maps, catalog, m + LastEntry(peer, had + items))
    decreases |items|
  {
    if items == [] {
      assert had + items == had;
    } else {
      PutLast(m, peer, had + [items[0]], LastEntry(peer, had));
      EntryRebuilt(maps, catalog, m, peer, had + [items[0]], items[1..]);
      ConcatAssoc(had, [items[0]], items[1..]);
      assert [items[0]] + items[1..] == items;
      assert RecordsOfItems(catalog, peer, items)[1..] == RecordsOfItems(catalog, peer, items[1..]);
    }
  }

  lemma {:induction false} MapRebuilt(maps: Maps, catalog: bool, done: ItemMap, m: ItemMap)
    requires Sorted(m) && forall i :: 0 <= i < |m| ==> AllBelow(done, m[i].peer)
    ensures ApplyAll(With(maps, catalog, done), RecordsOfMap(catalog, m)) == With(maps, catalog, done + DropEmpty(m))
    decreases |m|
  {
    if m == [] {
      assert done + DropEmpty(m) == done;
    } else {
      var e := m[0];
      var next := done + LastEntry(e.peer, e.items);
      EntryRebuilt(maps, catalog, done, e.peer, [], e.items);
      assert done + LastEntry(e.peer, []) == done && [] + e.items == e.items;
      MapRebuilt(maps, catalog, next, m[1..]);
      ApplyAllAppend(With(maps, catalog, done), RecordsOfItems(catalog, e.peer, e.items), RecordsOfMap(catalog, m[1..]));
      ConcatAssoc(done, LastEntry(e.peer, e.items), DropEmpty(m[1..]));
    }
  }

  lemma {:induction false} RecordsRebuildMaps(maps: Maps)
    requires Sorted(maps.catalog) && Sorted(maps.records)
    ensures ApplyAll(NO_MAPS, Records(maps)) == Maps(DropEmpty(maps.catalog), DropEmpty(maps.records))
  {
    var half := With(NO_MAPS, true, DropEmpty(maps.catalog));
    MapRebuilt(NO_MAPS, true, [], maps.catalog);
    MapRebuilt(half, false, [], maps.records);
    assert [] + DropEmpty(maps.catalog) == DropEmpty(maps.catalog);
    assert [] + DropEmpty(maps.records) == DropEmpty(maps.records);
    ApplyAllAppend(NO_MAPS, RecordsOfMap(true, maps.catalog), RecordsOfMap(false, maps.records));
  }

  lemma {:induction false} HeaderIsOneLine()
    ensures '\n' !in HEADER && StripCr(HEADER) == HEADER
  {
  }

  /** Restoring what was serialized gives the state back, except for lists that were empty; whatever characters
      the texts hold. */
  lemma {:induction false} SnapshotRoundTrip(maps: Maps)
    requires Sorted(maps.catalog) && Sorted(maps.records)
    ensures Restore(Serialize(maps)) == Ok(Maps(DropEmpty(maps.catalog), DropEmpty(maps.records)))
  {
    var text := Print(Records(maps));
    HeaderIsOneLine();
    PiecesCons(HEADER, '\n', text);
    RestorePrinted(NO_MAPS, Records(maps), 1);
    RecordsRebuildMaps(maps);
    HeaderThenLines(Pieces(text, '\n'), Pieces(Serialize(maps), '\n'));
  }

  lemma {:induction false} HeaderThenLines(lines: seq<string>, all: seq<string>)
    requires all == [HEADER] + lines
    ensures all[1..] == lines
  {
  }

  lemma {:induction false} RecordsIgnoreEmpty(catalog: bool, m: ItemMap)
    ensures RecordsOfMap(catalog, DropEmpty(m)) == RecordsOfMap(catalog, m)
  {
    if m != [] {
      RecordsIgnoreEmpty(catalog, m[1..]);
      if m[0].items == [] {
        assert [] + DropEmpty(m[1..]) == DropEmpty(m[1..]);
        assert [] + RecordsOfMap(catalog, m[1..]) == RecordsOfMap(catalog, m[1..]);
      } else {
        assert ([m[0]] + DropEmpty(m[1..]))[1..] == DropEmpty(m[1..]);
      }
    }
  }

  /** So a restored state serializes to the very text it came from. */
  lemma {:induction false} SerializedTextIsStable(maps: Maps)
    requires Sorted(maps.catalog) && Sorted(maps.records)
    ensures Restore(Serialize(maps)).Ok? && Serialize(Restore(Serialize(maps)).value) == Serialize(maps)
  {
    SnapshotRoundTrip(maps);
    RecordsIgnoreEmpty(true, maps.catalog);
    RecordsIgnoreEmpty(false, maps.records);
  }

  // ---------------------------------------------------------------- any text

  predicate NoEmptyLists(m: ItemMap) {
    forall i :: 0 <= i < |m| ==> m[i].items != []
  }

  lemma {:induction false} PutNonEmpty(m: ItemMap, peer: string, items: seq<ManscdpItem>)
    requires NoEmptyLists(m) && items != []
    ensures NoEmptyLists(Put(m, peer, items))
  {
    if m != [] {
      PutNonEmpty(m[1..], peer, items);
    }
  }

  lemma {:induction false} DropNothing(m: ItemMap)
    requires NoEmptyLists(m)
    ensures DropEmpty(m) == m
  {
    if m != [] {
      DropNothing(m[1..]);
    }
  }

  /** Whatever text is accepted, the maps it gives are in key order and hold no empty list. */
  lemma {:induction false} RestoredMapsAreValid(maps: Maps, lines: seq<string>, n: nat)
    requires Sorted(maps.catalog) && Sorted(maps.records)
    requires NoEmptyLists(maps.catalog) && NoEmptyLists(maps.records)
    requires RestoreLines(maps, lines, n).Ok?
    ensures var r := RestoreLines(maps, lines, n).value;
            Sorted(r.catalog) && Sorted(r.records) && NoEmptyLists(r.catalog) && NoEmptyLists(r.records)
    decreases |lines|
  {
    if lines != [] {
      var line := StripCr(lines[0]);
      if line == [] {
        RestoredMapsAreValid(maps, lines[1..], n + 1);
      } else {
        var r := DecodeFields(Split(line), n + 1).value;
        AddKeepsValid(if r.catalog then maps.catalog else maps.records, r.peer, r.item);
        RestoredMapsAreValid(Apply(maps, r), lines[1..], n + 1);
      }
    }
  }

  lemma {:induction false} AddKeepsValid(m: ItemMap, peer: string, item: ManscdpItem)
    requires Sorted(m) && NoEmptyLists(m)
    ensures Sorted(Add(m, peer, item)) && NoEmptyLists(Add(m, peer, item))
  {
    PutThenGet(m, peer, Get(m, peer) + [item]);
    PutNonEmpty(m, peer, Get(m, peer) + [item]);
  }

  /** Any accepted text, however it is laid out, means what its canonical text means. */
  lemma {:induction false} AcceptedTextHasCanonicalForm(data: string)
    requires Restore(data).Ok?
    ensures Restore(Serialize(Restore(data).value)) == Restore(data)
  {
    var lines := Pieces(data, '\n');
    RestoredMapsAreValid(NO_MAPS, lines[1..], 1);
    var maps := Restore(data).value;
    SnapshotRoundTrip(maps);
    DropNothing(maps.catalog);
    DropNothing(maps.records);
  }
}
