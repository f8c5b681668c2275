/** The business state object of src/core/BusinessState.cpp: the catalogue and the records of every peer. */
module BusinessStates {
  import opened Common
  import Text
  import opened ManscdpItems
  import opened ItemMaps
  import opened Catalogs
  import opened Snapshots

  // ---------------------------------------------------------------- printing a line

  function Tabbed(values: seq<string>): string {
    if values == [] then "" else "\t" + Escape(values[0]) + Tabbed(values[1..])
  }

  lemma {:induction false} JoinIsTabbed(first: string, values: seq<string>)
    ensures Join([first] + EscapeAll(values)) == first + Tabbed(values)
    decreases |values|
  {
    var fields := [first] + EscapeAll(values);
    assert fields[1..] == EscapeAll(values);
    if values == [] {
      assert first + Tabbed(values) == first;
    } else {
      JoinIsTabbed(Escape(values[0]), values[1..]);
      assert fields[1..] == [Escape(values[0])] + EscapeAll(values[1..]);
      assert Join(fields) == first + ['\t'] + (Escape(values[0]) + Tabbed(values[1..]));
    }
  }

  method AppendItemLine(output: string, catalog: bool, peer: string, item: ManscdpItem) returns (result: string)
    ensures result == output + LineOf(Record(catalog, peer, item)) + "\n"
  {
    var values := [peer] + FieldsOf(item);
    JoinIsTabbed(TypeName(catalog), values);
    result := output + TypeName(catalog);
    ConcatAssoc(output, TypeName(catalog), Tabbed(values));
    var i := 0;
    while i < |values|
      invariant i <= |values|
      invariant result + Tabbed(values[i..]) == output + LineOf(Record(catalog, peer, item))
    {
      var escaped := EscapeValue(values[i]);
      assert values[i..][1..] == values[i + 1..];
      ConcatAssoc(result, "\t" + escaped, Tabbed(values[i + 1..]));
      result := result + ("\t" + escaped);
      i := i + 1;
    }
    assert result + Tabbed(values[i..]) == result;
    result := result + "\n";
  }

  lemma {:induction false} PrintAppend(a: seq<Record>, b: seq<Record>)
    ensures Print(a + b) == Print(a) + Print(b)
  {
    if a == [] {
      assert a + b == b;
    } else {
      assert (a + b)[1..] == a[1..] + b;
      PrintAppend(a[1..], b);
      ConcatAssoc(LineOf(a[0]) + "\n", Print(a[1..]), Print(b));
    }
  }

  method AppendPeerLines(output: string, catalog: bool, e: Entry) returns (result: string)
    ensures result == output + Print(RecordsOfItems(catalog, e.peer, e.items))
  {
    result := output;
    var j := 0;
    while j < |e.items|
      invariant j <= |e.items|
      invariant result + Print(RecordsOfItems(catalog, e.peer, e.items[j..])) ==
                output + Print(RecordsOfItems(catalog, e.peer, e.items))
    {
      ghost var items := e.items[j..];
      assert items[1..] == e.items[j + 1..];
      PrintCons(result, Record(catalog, e.peer, items[0]), RecordsOfItems(catalog, e.peer, items[1..]));
      result := AppendItemLine(result, catalog, e.peer, e.items[j]);
      j := j + 1;
    }
    assert result + Print([]) == result;
  }

  method AppendItemLines(output: string, catalog: bool, m: ItemMap) returns (result: string)
    ensures result == output + Print(RecordsOfMap(catalog, m))
  {
    result := output;
    var i := 0;
    while i < |m|
      invariant i <= |m|
      invariant result + Print(RecordsOfMap(catalog, m[i..])) == output + Print(RecordsOfMap(catalog, m))
    {
      ghost var here := RecordsOfItems(catalog, m[i].peer, m[i].items);
      ghost var rest := RecordsOfMap(catalog, m[i + 1..]);
      assert m[i..][0] == m[i] && m[i..][1..] == m[i + 1..];
      PrintAppend(here, rest);
      ConcatAssoc(result, Print(here), Print(rest));
      result := AppendPeerLines(result, catalog, m[i]);
      i := i + 1;
    }
    assert result + Print([]) == result;
  }

  lemma {:induction false} PrintCons(before: string, r: Record, rest: seq<Record>)
    ensures before + Print([r] + rest) == (before + LineOf(r) + "\n") + Print(rest)
  {
    assert ([r] + rest)[1..] == rest;
  }

  // ---------------------------------------------------------------- reading a line

  /** Decodes the fields in order and stops at the first bad escape. */
  method DecodeItem(fields: seq<string>) returns (values: Option<seq<string>>)
    ensures values == UnescapeAll(fields)
  {
    var done: seq<string> := [];
    var i := 0;
    assert fields[0..] == fields;
    PrependNothing(UnescapeAll(fields));
    while i < |fields|
      invariant i <= |fields|
      invariant UnescapeAll(fields) == Prepend(done, UnescapeAll(fields[i..]))
    {
      assert fields[i..][1..] == fields[i + 1..];
      var value := UnescapeValue(fields[i]);
      if value == None {
        return None;
      }
      PrependStep(done, value.value, UnescapeAll(fields[i + 1..]));
      done := done + [value.value];
      i := i + 1;
    }
    assert done + [] == done;
    values := Some(done);
  }

  method DecodeLine(line: string, n: nat) returns (result: Result<Record>)
    ensures result == DecodeFields(Split(line), n)
  {
    var fields := SplitFields(line);
    if |fields| != 19 && |fields| != 20 {
      return Failed(InvalidFieldCount(n));
    }
    var values := DecodeItem(fields[1..]);
    if values == None {
      return Failed(InvalidEscape);
    }
    var peer, item := values.value[0], ItemOf(values.value[1..]);
    if fields[0] == "CATALOG" {
      result := Ok(Record(true, peer, item));
    } else if fields[0] == "RECORD" {
      result := Ok(Record(false, peer, item));
    } else {
      result := Failed(UnknownType(n));
    }
  }

  /** The next line and what follows it. */
  method GetLine(data: string) returns (line: string, rest: string)
    requires data != ""
    ensures Text.Pieces(data, '\n') == [line] + Text.Pieces(rest, '\n') && |rest| < |data|
  {
    var i := Text.IndexOf(data, '\n');
    if i == |data| {
      line, rest := data, "";
    } else {
      line, rest := data[..i], data[i + 1..];
    }
  }

  method FindDevice(catalog: seq<ManscdpItem>, id: string) returns (i: nat)
    ensures i == IndexOf(catalog, id)
  {
    i := 0;
    while i < |catalog| && catalog[i].deviceId != id
      invariant i <= |catalog|
      invariant forall j :: 0 <= j < i ==> catalog[j].deviceId != id
    {
      i := i + 1;
    }
  }

  // ---------------------------------------------------------------- the object

  class BusinessState {
    var catalogItems: ItemMap
    var recordItems: ItemMap

    predicate Valid()
      reads this
    {
      Sorted(catalogItems) && Sorted(recordItems)
    }

    constructor ()
      ensures Valid() && catalogItems == [] && recordItems == []
    {
      catalogItems, recordItems := [], [];
    }

    method UpdateCatalog(peer: string, items: seq<ManscdpItem>)
      requires Valid()
      modifies this`catalogItems
      ensures Valid() && catalogItems == Put(old(catalogItems), peer, items)
    {
      PutThenGet(catalogItems, peer, items);
      catalogItems := Put(catalogItems, peer, items);
    }

    method UpdateRecords(peer: string, items: seq<ManscdpItem>)
      requires Valid()
      modifies this`recordItems
      ensures Valid() && recordItems == Put(old(recordItems), peer, items)
    {
      PutThenGet(recordItems, peer, items);
      recordItems := Put(recordItems, peer, items);
    }

    /** A known device is replaced where it stands, a new one goes to the end of the peer's list. */
    method AppendCatalog(peer: string, items: seq<ManscdpItem>)
      requires Valid()
      modifies this`catalogItems
      ensures Valid()
      ensures catalogItems == Put(old(catalogItems), peer, UpsertAll(Get(old(catalogItems), peer), items))
      ensures Get(catalogItems, peer) == UpsertAll(Get(old(catalogItems), peer), items) && Has(catalogItems, peer)
      ensures forall p :: p != peer ==> Get(catalogItems, p) == Get(old(catalogItems), p) &&
                                        (Has(catalogItems, p) <==> Has(old(catalogItems), p))
    {
      var catalog := Get(catalogItems, peer);
      var k := 0;
      while k < |items|
        invariant k <= |items|
        invariant UpsertAll(catalog, items[k..]) == UpsertAll(Get(old(catalogItems), peer), items)
        invariant catalogItems == old(catalogItems)
      {
        assert items[k..][1..] == items[k + 1..];
        var existing := FindDevice(catalog, items[k].deviceId);
        if existing == |catalog| {
          catalog := catalog + [items[k]];
        } else {
          catalog := catalog[existing := items[k]];
        }
        k := k + 1;
      }
      PutThenGet(catalogItems, peer, catalog);
      catalogItems := Put(catalogItems, peer, catalog);
    }

    method CatalogItemCount(peer: string) returns (count: nat)
      ensures count == |Get(catalogItems, peer)|
    {
      count := |Get(catalogItems, peer)|;
    }

    /** A catalogue response: the items join the peer's catalogue; complete when as many as announced are there. */
    method ReceiveCatalogResponse(peer: string, sumNum: int, items: seq<ManscdpItem>)
      returns (accepted: bool, complete: bool)
      requires Valid()
      modifies this`catalogItems
      ensures Valid() && accepted == Consistent(Response(sumNum, items))
      ensures Progress(Get(catalogItems, peer), complete) ==
              Respond(Get(old(catalogItems), peer), Response(sumNum, items))
      ensures !accepted ==> catalogItems == old(catalogItems)
      ensures forall p :: p != peer ==> Get(catalogItems, p) == Get(old(catalogItems), p)
    {
      accepted := sumNum <= 0 || |items| > 0;
      if !accepted {
        return false, false;
      }
      AppendCatalog(peer, items);
      var received := CatalogItemCount(peer);
      complete := sumNum > 0 && received >= sumNum;
    }

    /** A record response: its items replace the peer's records, so of a list that comes in several responses
        only the last part is kept. */
    method ReceiveRecordResponse(peer: string, sumNum: int, items: seq<ManscdpItem>) returns (accepted: bool)
      requires Valid()
      modifies this`recordItems
      ensures Valid() && accepted == Consistent(Response(sumNum, items))
      ensures recordItems == if accepted then Put(old(recordItems), peer, items) else old(recordItems)
      ensures accepted ==> Get(recordItems, peer) == items
      ensures forall p :: p != peer ==> Get(recordItems, p) == Get(old(recordItems), p)
    {
      accepted := sumNum <= 0 || |items| > 0;
      PutThenGet(recordItems, peer, items);
      if accepted {
        UpdateRecords(peer, items);
      }
    }

    /** The peers that hold the device, in key order; none for an empty id. */
    method CatalogOwners(deviceId: string) returns (owners: seq<string>)
      requires Valid()
      ensures deviceId == "" ==> owners == []
      ensures deviceId != "" ==> owners == Owners(catalogItems, deviceId)
    {
      owners := [];
      if deviceId == "" {
        return;
      }
      var i := 0;
      while i < |catalogItems|
        invariant i <= |catalogItems|
        invariant owners + Owners(catalogItems[i..], deviceId) == Owners(catalogItems, deviceId)
      {
        var e := catalogItems[i];
        ghost var before := owners;
        assert catalogItems[i..][0] == e && catalogItems[i..][1..] == catalogItems[i + 1..];
        var j := 0;
        while j < |e.items|
          invariant j <= |e.items| && owners == before
          invariant forall k :: 0 <= k < j ==> e.items[k].deviceId != deviceId
        {
          if e.items[j].deviceId == deviceId {
            owners := owners + [e.peer];
            break;
          }
          j := j + 1;
        }
        OwnersStep(before, e.peer, Holds(e.items, deviceId), Owners(catalogItems[i + 1..], deviceId));
        i := i + 1;
      }
      assert owners + [] == owners;
    }

    method SerializeState() returns (text: string)
      ensures text == Serialize(Maps(catalogItems, recordItems))
    {
      text := HEADER + "\n";
      ghost var a, b := RecordsOfMap(true, catalogItems), RecordsOfMap(false, recordItems);
      PrintAppend(a, b);
      ConcatAssoc(text, Print(a), Print(b));
      text := AppendItemLines(text, true, catalogItems);
      text := AppendItemLines(text, false, recordItems);
    }

    /** Reads a whole snapshot before anything is changed: a text that is refused leaves the state alone. */
    method RestoreState(data: string) returns (error: Option<Error>)
      requires Valid()
      modifies this
      ensures Valid()
      ensures match Restore(data)
              case Failed(e) => error == Some(e) && catalogItems == old(catalogItems) && recordItems == old(recordItems)
              case Ok(maps) => error == None && Maps(catalogItems, recordItems) == maps
    {
      if data == "" {
        return Some(EmptySnapshot);
      }
      var line, input := GetLine(data);
      ghost var lines := Text.Pieces(data, '\n');
      assert lines[1..] == Text.Pieces(input, '\n');
      if StripCr(line) != HEADER {
        return Some(UnsupportedHeader);
      }
      var maps := NO_MAPS;
      var n := 1;
      while input != ""
        invariant RestoreLines(maps, Text.Pieces(input, '\n'), n) == Restore(data)
        invariant Sorted(maps.catalog) && Sorted(maps.records)
        invariant NoEmptyLists(maps.catalog) && NoEmptyLists(maps.records)
        invariant catalogItems == old(catalogItems) && recordItems == old(recordItems)
        decreases |input|
      {
        lines := Text.Pieces(input, '\n');
        line, input := GetLine(input);
        assert lines[1..] == Text.Pieces(input, '\n');
        line := StripCr(line);
        if line != "" {
          var decoded := DecodeLine(line, n + 1);
          match decoded {
            case Failed(e) => return Some(e);
            case Ok(r) =>
              AddKeepsValid(if r.catalog then maps.catalog else maps.records, r.peer, r.item);
              maps := Apply(maps, r);
          }
        }
        n := n + 1;
      }
      catalogItems, recordItems := maps.catalog, maps.records;
      error := None;
    }
  }

  lemma {:induction false} OwnersStep(before: seq<string>, peer: string, holds: bool, rest: seq<string>)
    ensures before + ((if holds then [peer] else []) + rest) == (if holds then before + [peer] else before) + rest
  {
  }
}
