/** The catalogue of a peer, gathered from one-item responses (src/core/BusinessState.cpp, src/core/GB28181Node.cpp,
    src/capabilities/GB28181Capabilities.cpp). */
module Catalogs {
  import opened ManscdpItems
  import opened ItemMaps

  // ---------------------------------------------------------------- gathering

  /** Where the first item of the device is, or the end. */
  function IndexOf(catalog: seq<ManscdpItem>, id: string): (i: nat)
    ensures i <= |catalog| && (i < |catalog| ==> catalog[i].deviceId == id)
    ensures forall j :: 0 <= j < i ==> catalog[j].deviceId != id
  {
    if catalog == [] || catalog[0].deviceId == id then 0
    else
      var i := 1 + IndexOf(catalog[1..], id);
      assert forall j :: 0 < j < i ==> catalog[j] == catalog[1..][j - 1];
      i
  }

  function Upsert(catalog: seq<ManscdpItem>, item: ManscdpItem): seq<ManscdpItem> {
    var i := IndexOf(catalog, item.deviceId);
    if i < |catalog| then catalog[i := item] else catalog + [item]
  }

  function UpsertAll(catalog: seq<ManscdpItem>, items: seq<ManscdpItem>): seq<ManscdpItem>
    decreases |items|
  {
    if items == [] then catalog else UpsertAll(Upsert(catalog, items[0]), items[1..])
  }

  /** How the items are spread over responses does not matter. */
  lemma {:induction false} BatchingIsIrrelevant(catalog: seq<ManscdpItem>, a: seq<ManscdpItem>, b: seq<ManscdpItem>)
    ensures UpsertAll(UpsertAll(catalog, a), b) == UpsertAll(catalog, a + b)
    decreases |a|
  {
    if a == [] {
      assert a + b == b;
    } else {
      assert (a + b)[1..] == a[1..] + b;
      BatchingIsIrrelevant(Upsert(catalog, a[0]), a[1..], b);
    }
  }

  // ---------------------------------------------------------------- what is gathered

  function Ids(items: seq<ManscdpItem>): set<string> {
    set i | 0 <= i < |items| :: items[i].deviceId
  }

  predicate Distinct(items: seq<ManscdpItem>) {
    forall i, j :: 0 <= i < j < |items| ==> items[i].deviceId != items[j].deviceId
  }

  /** The devices in the order in which each was first heard of. */
  function FirstIds(items: seq<ManscdpItem>): seq<string> {
    if items == [] then []
    else
      var before, id := FirstIds(items[..|items| - 1]), items[|items| - 1].deviceId;
      if id in before then before else before + [id]
  }

  /** The last that was heard of a device. */
  function LastOf(items: seq<ManscdpItem>, id: string): ManscdpItem {
    if items == [] then NO_ITEM
    else if items[|items| - 1].deviceId == id then items[|items| - 1]
    else LastOf(items[..|items| - 1], id)
  }

  /** The catalogue lists every device once, in the order of first arrival, with what was heard of it last. */
  predicate Gathers(catalog: seq<ManscdpItem>, items: seq<ManscdpItem>) {
    && |catalog| == |FirstIds(items)|
    && (forall i :: 0 <= i < |catalog| ==> catalog[i].deviceId == FirstIds(items)[i])
    && (forall i :: 0 <= i < |catalog| ==> catalog[i] == LastOf(items, FirstIds(items)[i]))
  }

  lemma {:induction false} IdsSnoc(items: seq<ManscdpItem>, last: ManscdpItem)
    ensures Ids(items + [last]) == Ids(items) + {last.deviceId}
  {
    var all := items + [last];
    assert all[|items|] == last;
    forall i | 0 <= i < |items| ensures items[i].deviceId in Ids(all) {
      assert all[i] == items[i];
    }
  }

  predicate NoRepeats(ids: seq<string>) {
    forall i, j :: 0 <= i < j < |ids| ==> ids[i] != ids[j]
  }

  lemma {:induction false} NoRepeatsSnoc(ids: seq<string>, id: string)
    requires NoRepeats(ids) && id !in ids
    ensures NoRepeats(ids + [id])
  {
    forall i | 0 <= i < |ids| ensures ids[i] != id {
      assert ids[i] in ids;
    }
  }

  lemma {:induction false} FirstIdsAreTheIds(items: seq<ManscdpItem>)
    ensures forall id :: id in FirstIds(items) <==> id in Ids(items)
    ensures NoRepeats(FirstIds(items))
  {
    if items != [] {
      var before, id := items[..|items| - 1], items[|items| - 1].deviceId;
      FirstIdsAreTheIds(before);
      IdsSnoc(before, items[|items| - 1]);
      assert items == before + [items[|items| - 1]];
      if id !in FirstIds(before) {
        NoRepeatsSnoc(FirstIds(before), id);
      }
    }
  }

  lemma {:induction false} UpsertGathers(catalog: seq<ManscdpItem>, items: seq<ManscdpItem>, item: ManscdpItem)
    requires Gathers(catalog, items)
    ensures Gathers(Upsert(catalog, item), items + [item])
  {
    var all := items + [item];
    assert all[..|items|] == items;
    FirstIdsAreTheIds(items);
    var ids, i := FirstIds(items), IndexOf(catalog, item.deviceId);
    forall j | 0 <= j < |ids| && j != i ensures ids[j] != item.deviceId && LastOf(all, ids[j]) == LastOf(items, ids[j]) {
      assert catalog[j].deviceId == ids[j];
      assert i < |catalog| ==> ids[i] == item.deviceId;
    }
    assert LastOf(all, item.deviceId) == item;
    if i < |catalog| {
      assert ids[i] == item.deviceId && ids[i] in ids;
    }
  }

  lemma {:induction false} UpsertAllGathers(catalog: seq<ManscdpItem>, had: seq<ManscdpItem>,
                                            items: seq<ManscdpItem>)
    requires Gathers(catalog, had)
    ensures Gathers(UpsertAll(catalog, items), had + items)
    decreases |items|
  {
    if items == [] {
      assert had + items == had;
    } else {
      UpsertGathers(catalog, had, items[0]);
      UpsertAllGathers(Upsert(catalog, items[0]), had + [items[0]], items[1..]);
      assert had + [items[0]] + items[1..] == had + items;
    }
  }

  /** Starting from the empty snapshot of a query, whatever arrives in whatever order and however often. */
  lemma {:induction false} CatalogFromEmpty(items: seq<ManscdpItem>)
    ensures Gathers(UpsertAll([], items), items)
    ensures Distinct(UpsertAll([], items)) && Ids(UpsertAll([], items)) == Ids(items)
  {
    UpsertAllGathers([], [], items);
    assert [] + items == items;
    FirstIdsAreTheIds(items);
    GatheredIds(UpsertAll([], items), FirstIds(items));
    assert forall id :: id in Ids(UpsertAll([], items)) <==> id in Ids(items);
  }

  lemma {:induction false} GatheredIds(catalog: seq<ManscdpItem>, ids: seq<string>)
    requires |catalog| == |ids| && NoRepeats(ids)
    requires forall i :: 0 <= i < |catalog| ==> catalog[i].deviceId == ids[i]
    ensures Distinct(catalog)
    ensures forall id :: id in Ids(catalog) <==> id in ids
  {
    forall id | id in ids ensures id in Ids(catalog) {
      var i :| 0 <= i < |ids| && ids[i] == id;
      assert catalog[i].deviceId == id;
    }
  }

  // ---------------------------------------------------------------- completion

  lemma {:induction false} DistinctCount(items: seq<ManscdpItem>)
    ensures |Ids(items)| <= |items|
    ensures |Ids(items)| == |items| <==> Distinct(items)
  {
    if items != [] {
      var before, last := items[..|items| - 1], items[|items| - 1];
      DistinctCount(before);
      IdsSnoc(before, last);
      assert items == before + [last];
      if last.deviceId in Ids(before) {
        var i :| 0 <= i < |before| && before[i].deviceId == last.deviceId;
        assert items[i].deviceId == items[|items| - 1].deviceId;
      } else {
        forall i | 0 <= i < |before| ensures items[i].deviceId != last.deviceId {
          assert before[i].deviceId in Ids(before);
        }
        assert Distinct(items) <==> Distinct(before);
      }
    }
  }

  lemma {:induction false} SubsetCount<T>(a: set<T>, b: set<T>)
    requires a <= b
    ensures |a| <= |b| && (|a| == |b| ==> a == b)
  {
    if a != {} {
      var x :| x in a;
      SubsetCount(a - {x}, b - {x});
      assert a == (a - {x}) + {x} && b == (b - {x}) + {x};
    }
  }

  /** Every item received is one of those the peer announced. */
  predicate OnlyFrom(received: seq<ManscdpItem>, all: seq<ManscdpItem>) {
    forall i :: 0 <= i < |received| ==> received[i] in all
  }

  lemma {:induction false} IdsOfSome(received: seq<ManscdpItem>, all: seq<ManscdpItem>)
    requires OnlyFrom(received, all)
    ensures Ids(received) <= Ids(all)
  {
    forall i | 0 <= i < |received| ensures received[i].deviceId in Ids(all) {
      var j :| 0 <= j < |all| && all[j] == received[i];
    }
  }

  // ---------------------------------------------------------------- the responses to a query

  /** A response: the number of items announced, and the items it carries. */
  datatype Response = Response(sumNum: int, items: seq<ManscdpItem>)

  /** A peer's catalogue, and whether the last response completed it. */
  datatype Progress = Progress(catalog: seq<ManscdpItem>, complete: bool)

  /** A response that announces items carries some. */
  predicate Consistent(r: Response) {
    r.sumNum <= 0 || r.items != []
  }

  function Respond(catalog: seq<ManscdpItem>, r: Response): Progress {
    if !Consistent(r) then Progress(catalog, false)
    else
      var gathered := UpsertAll(catalog, r.items);
      Progress(gathered, r.sumNum > 0 && |gathered| >= r.sumNum)
  }

  /** All responses to a query, from its empty snapshot. */
  function Gather(responses: seq<Response>): Progress {
    if responses == [] then Progress([], false)
    else Respond(Gather(responses[..|responses| - 1]).catalog, responses[|responses| - 1])
  }

  function Arrived(responses: seq<Response>): seq<ManscdpItem> {
    if responses == [] then [] else Arrived(responses[..|responses| - 1]) + responses[|responses| - 1].items
  }

  lemma {:induction false} GatherIsUpsertAll(responses: seq<Response>)
    ensures Gather(responses).catalog == UpsertAll([], Arrived(responses))
    decreases |responses|
  {
    if responses != [] {
      var before, last := responses[..|responses| - 1], responses[|responses| - 1];
      GatherIsUpsertAll(before);
      BatchingIsIrrelevant([], Arrived(before), last.items);
    }
  }

  /** The completion test counts devices: after any responses it holds if and only if the last of them carries
      items, announces a positive number, and at least as many different devices have arrived. */
  lemma {:induction false} CompleteIffEnoughDevices(responses: seq<Response>)
    requires responses != []
    ensures var last := responses[|responses| - 1];
            Gather(responses).complete <==>
            last.items != [] && 0 < last.sumNum <= |Ids(Arrived(responses))|
  {
    GatherIsUpsertAll(responses);
    GatherIsUpsertAll(responses[..|responses| - 1]);
    BatchingIsIrrelevant([], Arrived(responses[..|responses| - 1]), responses[|responses| - 1].items);
    CatalogFromEmpty(Arrived(responses));
    DistinctCount(UpsertAll([], Arrived(responses)));
  }

  /** The responses of a peer with these items: all are announced every time, and only they are sent. */
  predicate Announce(responses: seq<Response>, all: seq<ManscdpItem>) {
    forall i :: 0 <= i < |responses| ==> responses[i].sumNum == |all| && OnlyFrom(responses[i].items, all)
  }

  lemma {:induction false} ArrivedOnlyFrom(responses: seq<Response>, all: seq<ManscdpItem>)
    requires Announce(responses, all)
    ensures OnlyFrom(Arrived(responses), all)
    decreases |responses|
  {
    if responses != [] {
      var last := |responses| - 1;
      assert forall i :: 0 <= i < last ==> responses[..last][i] == responses[i];
      ArrivedOnlyFrom(responses[..last], all);
    }
  }

  /** When the last response completes the catalogue of a peer with these items: exactly when that response
      carries an item, every device has been heard of, and no two items share a device id. A catalogue with a
      repeated id is never complete, and neither is an empty one. */
  lemma {:induction false} CompleteIffAllArrived(all: seq<ManscdpItem>, responses: seq<Response>)
    requires Announce(responses, all)
    ensures Gather(responses).complete <==>
            && responses != [] && responses[|responses| - 1].items != []
            && Distinct(all) && Ids(Arrived(responses)) == Ids(all)
  {
    if responses != [] {
      var received := Arrived(responses);
      CompleteIffEnoughDevices(responses);
      ArrivedOnlyFrom(responses, all);
      DistinctCount(all);
      IdsOfSome(received, all);
      SubsetCount(Ids(received), Ids(all));
      if responses[|responses| - 1].items != [] {
        LastIsOneOfAll(responses, all);
      }
    }
  }

  lemma {:induction false} LastIsOneOfAll(responses: seq<Response>, all: seq<ManscdpItem>)
    requires Announce(responses, all) && responses != [] && responses[|responses| - 1].items != []
    ensures all != []
  {
    var items := responses[|responses| - 1].items;
    assert items[0] in all;
  }

  lemma {:induction false} LastOfIsReceived(items: seq<ManscdpItem>, id: string)
    requires id in FirstIds(items)
    ensures LastOf(items, id) in items && LastOf(items, id).deviceId == id
  {
    var before := items[..|items| - 1];
    assert items == before + [items[|items| - 1]];
    if items[|items| - 1].deviceId != id {
      LastOfIsReceived(before, id);
    }
  }

  lemma {:induction false} AllHeardOf(all: seq<ManscdpItem>, received: seq<ManscdpItem>, item: ManscdpItem)
    requires OnlyFrom(received, all) && Distinct(all) && Ids(received) == Ids(all)
    ensures item in UpsertAll([], received) <==> item in all
  {
    var catalog, ids := UpsertAll([], received), FirstIds(received);
    CatalogFromEmpty(received);
    FirstIdsAreTheIds(received);
    if item in catalog {
      var i :| 0 <= i < |catalog| && catalog[i] == item;
      assert ids[i] in ids;
      LastOfIsReceived(received, ids[i]);
    }
    if item in all {
      var j :| 0 <= j < |all| && all[j] == item;
      assert item.deviceId in Ids(all) && item.deviceId in ids;
      var i :| 0 <= i < |ids| && ids[i] == item.deviceId;
      LastOfIsReceived(received, ids[i]);
      var k :| 0 <= k < |all| && all[k] == catalog[i];
      assert all[k].deviceId == all[j].deviceId;
      assert catalog[i] == item;
    }
  }

  /** Complete means the same catalogue, whatever the order and the repetitions. */
  lemma {:induction false} CompleteCatalogHasAllItems(all: seq<ManscdpItem>, responses: seq<Response>,
                                                      item: ManscdpItem)
    requires Announce(responses, all) && Gather(responses).complete
    ensures |Gather(responses).catalog| == |all|
    ensures item in Gather(responses).catalog <==> item in all
  {
    CompleteIffAllArrived(all, responses);
    GatherIsUpsertAll(responses);
    ArrivedOnlyFrom(responses, all);
    CatalogFromEmpty(Arrived(responses));
    DistinctCount(Gather(responses).catalog);
    DistinctCount(all);
    AllHeardOf(all, Arrived(responses), item);
  }

  // ---------------------------------------------------------------- owners

  predicate Holds(items: seq<ManscdpItem>, id: string) {
    exists i :: 0 <= i < |items| && items[i].deviceId == id
  }

  /** The peers with an item of the device, in key order. */
  function Owners(m: ItemMap, id: string): seq<string> {
    if m == [] then []
    else (if Holds(m[0].items, id) then [m[0].peer] else []) + Owners(m[1..], id)
  }

  lemma {:induction false} OwnersAbove(m: ItemMap, id: string, low: string)
    requires AllAbove(low, m)
    ensures forall i :: 0 <= i < |Owners(m, id)| ==> Less(low, Owners(m, id)[i])
  {
    if m != [] {
      OwnersAbove(m[1..], id, low);
    }
  }

  /** Each peer that holds the device is listed once, in key order, and nobody else. */
  lemma {:induction false} OwnersAreTheHolders(m: ItemMap, id: string, peer: string)
    requires Sorted(m)
    ensures peer in Owners(m, id) <==> Has(m, peer) && Holds(Get(m, peer), id)
    ensures var o := Owners(m, id); forall i, j :: 0 <= i < j < |o| ==> Less(o[i], o[j])
    decreases |m|
  {
    if m != [] {
      OwnersAreTheHolders(m[1..], id, peer);
      OwnersAbove(m[1..], id, m[0].peer);
      AboveHasNot(m[0].peer, m[1..]);
      var rest := Owners(m[1..], id);
      assert [] + rest == rest;
    }
  }
}
