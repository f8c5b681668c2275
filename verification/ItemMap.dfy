/** std::map from peer ids to item lists, as the list of its entries in key order. */
module ItemMaps {
  import opened ManscdpItems

  datatype Entry = Entry(peer: string, items: seq<ManscdpItem>)

  type ItemMap = seq<Entry>

  /** The order of std::string. */
  predicate Less(a: string, b: string) {
    b != [] && (a == [] || a[0] < b[0] || (a[0] == b[0] && Less(a[1..], b[1..])))
  }

  lemma {:induction false} LessIsStrict(a: string, b: string)
    ensures !Less(a, a) && !(Less(a, b) && Less(b, a))
    ensures a == b || Less(a, b) || Less(b, a)
  {
    if a != [] && b != [] {
      LessIsStrict(a[1..], b[1..]);
      if a[0] == b[0] && a[1..] == b[1..] {
        assert a == [a[0]] + a[1..] && b == [b[0]] + b[1..];
      }
    } else if a != [] {
      LessIsStrict(a[1..], []);
    }
  }

  lemma {:induction false} LessTransitive(a: string, b: string, c: string)
    requires Less(a, b) && Less(b, c)
    ensures Less(a, c)
  {
    if a != [] && a[0] == b[0] == c[0] {
      LessTransitive(a[1..], b[1..], c[1..]);
    }
  }

  predicate AllAbove(peer: string, m: ItemMap) {
    forall i :: 0 <= i < |m| ==> Less(peer, m[i].peer)
  }

  predicate AllBelow(m: ItemMap, peer: string) {
    forall i :: 0 <= i < |m| ==> Less(m[i].peer, peer)
  }

  predicate Sorted(m: ItemMap) {
    m == [] || (AllAbove(m[0].peer, m[1..]) && Sorted(m[1..]))
  }

  /** The list of a peer, empty when it has no entry. */
  function Get(m: ItemMap, peer: string): seq<ManscdpItem> {
    if m == [] then [] else if m[0].peer == peer then m[0].items else Get(m[1..], peer)
  }

  predicate Has(m: ItemMap, peer: string) {
    m != [] && (m[0].peer == peer || Has(m[1..], peer))
  }

  function Put(m: ItemMap, peer: string, items: seq<ManscdpItem>): ItemMap {
    if m == [] || Less(peer, m[0].peer) then [Entry(peer, items)] + m
    else if m[0].peer == peer then [Entry(peer, items)] + m[1..]
    else [m[0]] + Put(m[1..], peer, items)
  }

  lemma {:induction false} AboveHasNot(peer: string, m: ItemMap)
    requires AllAbove(peer, m)
    ensures !Has(m, peer) && Get(m, peer) == []
  {
    if m != [] {
      LessIsStrict(peer, m[0].peer);
      AboveHasNot(peer, m[1..]);
    }
  }

  lemma {:induction false} PutAbove(low: string, m: ItemMap, peer: string, items: seq<ManscdpItem>)
    requires AllAbove(low, m) && Less(low, peer)
    ensures AllAbove(low, Put(m, peer, items))
  {
    if m != [] {
      PutAbove(low, m[1..], peer, items);
    }
  }

  lemma {:induction false} AboveTransitive(low: string, peer: string, m: ItemMap)
    requires Less(low, peer) && AllAbove(peer, m)
    ensures AllAbove(low, m)
  {
    forall i | 0 <= i < |m| ensures Less(low, m[i].peer) {
      LessTransitive(low, peer, m[i].peer);
    }
  }

  /** Put keeps the order and changes the one list. */
  lemma {:induction false} PutThenGet(m: ItemMap, peer: string, items: seq<ManscdpItem>)
    requires Sorted(m)
    ensures Sorted(Put(m, peer, items))
    ensures forall p :: Get(Put(m, peer, items), p) == if p == peer then items else Get(m, p)
    ensures forall p :: Has(Put(m, peer, items), p) <==> p == peer || Has(m, p)
  {
    if m != [] {
      LessIsStrict(peer, m[0].peer);
      if Less(peer, m[0].peer) {
        AboveTransitive(peer, m[0].peer, m[1..]);
        assert AllAbove(peer, m);
        assert ([Entry(peer, items)] + m)[1..] == m;
      } else if m[0].peer == peer {
        AboveHasNot(peer, m[1..]);
        assert ([Entry(peer, items)] + m[1..])[1..] == m[1..];
      } else {
        PutThenGet(m[1..], peer, items);
        PutAbove(m[0].peer, m[1..], peer, items);
        assert ([m[0]] + Put(m[1..], peer, items))[1..] == Put(m[1..], peer, items);
      }
    }
  }

  /** Past all other keys, Put works on the end of the list. */
  lemma {:induction false} PutLast(m: ItemMap, peer: string, items: seq<ManscdpItem>, last: ItemMap)
    requires AllBelow(m, peer) && (last == [] || (|last| == 1 && last[0].peer == peer))
    ensures Put(m + last, peer, items) == m + [Entry(peer, items)]
    ensures Get(m + last, peer) == if last == [] then [] else last[0].items
  {
    if m == [] {
      assert m + last == last;
      LessIsStrict(peer, peer);
      if last != [] {
        assert last[1..] == [];
      }
    } else {
      LessIsStrict(m[0].peer, peer);
      assert (m + last)[1..] == m[1..] + last;
      PutLast(m[1..], peer, items, last);
    }
  }
}
