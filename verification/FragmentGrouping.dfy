/** The demuxer callback of SipSupService/src/Gb28181Session.cpp: the sending half of PackProcStat collects fragments
    of one codec and presentation time into one packet. */
module FragmentGrouping {
  import opened Common

  const INITIAL_CAPACITY: nat := 10 * 1024
  const HEADROOM: nat := 1024

  /** One call of the callback; the stream number and the decoding time are not looked at. */
  datatype Fragment = Fragment(codec: int, flags: int, pts: int, data: seq<byte>)

  /** A packet, or one in the making: flags are those of its last fragment. */
  datatype Group = Group(codec: int, pts: int, flags: int, bytes: seq<byte>)

  // ---------------------------------------------------------------- the run-grouping

  predicate SameGroup(g: Group, f: Fragment) {
    g.codec == f.codec && g.pts == f.pts
  }

  function Start(f: Fragment): Group { Group(f.codec, f.pts, f.flags, f.data) }

  function Known(fragments: seq<Fragment>): seq<Fragment> {
    if fragments == [] then []
    else (if fragments[0].codec == 0 then [] else [fragments[0]]) + Known(fragments[1..])
  }

  /** The maximal runs of neighbouring fragments of one codec and time, from the right. */
  function Groups(fragments: seq<Fragment>): seq<Group> {
    if fragments == [] then []
    else
      var f, rest := fragments[0], Groups(fragments[1..]);
      if rest != [] && SameGroup(rest[0], f) then [rest[0].(bytes := f.data + rest[0].bytes)] + rest[1..]
      else [Start(f)] + rest
  }

  function Data(fragments: seq<Fragment>): seq<byte> {
    if fragments == [] then [] else fragments[0].data + Data(fragments[1..])
  }

  function Bytes(groups: seq<Group>): seq<byte> {
    if groups == [] then [] else groups[0].bytes + Bytes(groups[1..])
  }

  function NonEmpty(groups: seq<Group>): seq<Group> {
    if groups == [] then []
    else (if groups[0].bytes == [] then [] else [groups[0]]) + NonEmpty(groups[1..])
  }

  /** The grouping keeps every byte in order, and its runs are maximal: neighbours differ in codec or time. */
  lemma {:induction false} GroupsAreMaximalRuns(fragments: seq<Fragment>)
    ensures Bytes(Groups(fragments)) == Data(fragments)
    ensures var g := Groups(fragments); forall i :: 0 < i < |g| ==> (g[i - 1].codec, g[i - 1].pts) != (g[i].codec, g[i].pts)
    ensures fragments != [] ==> Groups(fragments) != [] && SameGroup(Groups(fragments)[0], fragments[0])
  {
    if fragments != [] {
      GroupsAreMaximalRuns(fragments[1..]);
      var f, rest := fragments[0], Groups(fragments[1..]);
      if rest != [] && SameGroup(rest[0], f) {
        ConcatAssoc(f.data, rest[0].bytes, Bytes(rest[1..]));
      }
    }
  }

  /** Grouped from the left: one more fragment joins the last group or starts one. */
  function Extend(groups: seq<Group>, f: Fragment): (r: seq<Group>)
    ensures |r| > 0
  {
    var n := |groups|;
    if n > 0 && SameGroup(groups[n - 1], f) then
      groups[..n - 1] + [groups[n - 1].(bytes := groups[n - 1].bytes + f.data, flags := f.flags)]
    else groups + [Start(f)]
  }

  lemma {:induction false} GroupsExtend(fragments: seq<Fragment>, f: Fragment)
    ensures Groups(fragments + [f]) == Extend(Groups(fragments), f)
  {
    if fragments == [] {
      assert ([] + [f])[1..] == [];
    } else {
      assert (fragments + [f])[1..] == fragments[1..] + [f];
      GroupsExtend(fragments[1..], f);
      PrependExtend(fragments[0], Groups(fragments[1..]), f);
    }
  }

  function Prepend(f: Fragment, rest: seq<Group>): seq<Group> {
    if rest != [] && SameGroup(rest[0], f) then [rest[0].(bytes := f.data + rest[0].bytes)] + rest[1..]
    else [Start(f)] + rest
  }

  lemma {:induction false} PrependExtend(first: Fragment, groups: seq<Group>, last: Fragment)
    ensures Prepend(first, Extend(groups, last)) == Extend(Prepend(first, groups), last)
  {
    if |groups| == 1 && SameGroup(groups[0], first) && SameGroup(groups[0], last) {
      ConcatAssoc(first.data, groups[0].bytes, last.data);
    }
  }

  // ---------------------------------------------------------------- the callback

  /** What the object holds: the group in the making, codec 0 before the first. */
  datatype State = State(pending: Group, sent: seq<Group>)

  const FIRST := State(Group(0, -1, 0, []), [])

  function Collect(s: State, f: Fragment): State {
    if f.codec == 0 then s
    else if SameGroup(s.pending, f) then
      s.(pending := s.pending.(bytes := s.pending.bytes + f.data, flags := f.flags))
    else
      State(Start(f), if s.pending.bytes == [] then s.sent else s.sent + [s.pending])
  }

  function CollectAll(s: State, fragments: seq<Fragment>): State {
    if fragments == [] then s
    else Collect(CollectAll(s, fragments[..|fragments| - 1]), fragments[|fragments| - 1])
  }

  lemma {:induction false} NonEmptySnoc(groups: seq<Group>, last: Group)
    ensures NonEmpty(groups + [last]) == NonEmpty(groups) + if last.bytes == [] then [] else [last]
  {
    if groups == [] {
      assert ([] + [last])[1..] == [];
    } else {
      assert (groups + [last])[1..] == groups[1..] + [last];
      NonEmptySnoc(groups[1..], last);
    }
  }

  lemma {:induction false} KnownSnoc(fragments: seq<Fragment>, last: Fragment)
    ensures Known(fragments + [last]) == Known(fragments) + if last.codec == 0 then [] else [last]
  {
    if fragments == [] {
      assert ([] + [last])[1..] == [];
    } else {
      assert (fragments + [last])[1..] == fragments[1..] + [last];
      KnownSnoc(fragments[1..], last);
    }
  }

  /** groups as the object holds them: the last one pending, the others sent unless empty. */
  predicate Holds(s: State, groups: seq<Group>) {
    if groups == [] then s == FIRST
    else
      var n := |groups| - 1;
      s.pending == groups[n] && s.pending.codec != 0 && s.sent == NonEmpty(groups[..n])
  }

  lemma {:induction false} CollectExtends(s: State, groups: seq<Group>, f: Fragment)
    requires Holds(s, groups) && f.codec != 0
    ensures Holds(Collect(s, f), Extend(groups, f))
  {
    var next := Extend(groups, f);
    if groups == [] {
      assert next[..0] == [];
    } else {
      var n := |groups| - 1;
      if SameGroup(groups[n], f) {
        assert next[..n] == groups[..n];
      } else {
        assert next[..n + 1] == groups && groups == groups[..n] + [groups[n]];
        NonEmptySnoc(groups[..n], groups[n]);
      }
    }
  }

  /** For any sequence of callbacks, what was sent and what is pending are the maximal runs of the fragments of
      known codec, without the empty ones. */
  lemma {:induction false} SentAndPendingAreTheGroups(fragments: seq<Fragment>)
    ensures Holds(CollectAll(FIRST, fragments), Groups(Known(fragments)))
    decreases |fragments|
  {
    if fragments != [] {
      var before, f := fragments[..|fragments| - 1], fragments[|fragments| - 1];
      SentAndPendingAreTheGroups(before);
      KnownSnoc(before, f);
      assert fragments == before + [f];
      if f.codec == 0 {
        assert Known(fragments) == Known(before);
      } else {
        GroupsExtend(Known(before), f);
        CollectExtends(CollectAll(FIRST, before), Groups(Known(before)), f);
      }
    }
  }

  lemma {:induction false} BytesOfNonEmpty(groups: seq<Group>)
    ensures Bytes(NonEmpty(groups)) == Bytes(groups)
  {
    if groups != [] {
      BytesOfNonEmpty(groups[1..]);
      var rest := NonEmpty(groups[1..]);
      if groups[0].bytes == [] {
        assert [] + rest == rest && [] + Bytes(rest) == Bytes(rest);
      } else {
        assert ([groups[0]] + rest)[1..] == rest;
      }
    }
  }

  lemma {:induction false} BytesSnoc(groups: seq<Group>, last: Group)
    ensures Bytes(groups + [last]) == Bytes(groups) + last.bytes
  {
    if groups == [] {
      assert ([] + [last])[1..] == [];
    } else {
      assert (groups + [last])[1..] == groups[1..] + [last];
      BytesSnoc(groups[1..], last);
      ConcatAssoc(groups[0].bytes, Bytes(groups[1..]), last.bytes);
    }
  }

  /** No byte of a known codec is lost, repeated or reordered. */
  lemma {:induction false} BytesAreKept(fragments: seq<Fragment>)
    ensures var s := CollectAll(FIRST, fragments);
            Bytes(s.sent) + s.pending.bytes == Data(Known(fragments))
  {
    var groups := Groups(Known(fragments));
    SentAndPendingAreTheGroups(fragments);
    GroupsAreMaximalRuns(Known(fragments));
    if groups != [] {
      var n := |groups| - 1;
      BytesOfNonEmpty(groups[..n]);
      BytesSnoc(groups[..n], groups[n]);
      assert groups == groups[..n] + [groups[n]];
    }
  }

  // ---------------------------------------------------------------- the object

  class PackProcStat {
    var sCodec: int
    var sPts: int
    var sKeyFrame: int
    var slen: nat
    var sNow: nat
    var sBuf: array<byte>
    /** The packets handed to SendPacket so far. */
    var sent: seq<Group>

    ghost predicate Valid()
      reads this
    {
      slen == sBuf.Length && sNow <= slen
    }

    ghost function Contents(): State
      reads this, sBuf
      requires Valid()
    {
      State(Group(sCodec, sPts, sKeyFrame, sBuf[..sNow]), sent)
    }

    constructor ()
      ensures Valid() && fresh(sBuf) && Contents() == FIRST && slen == INITIAL_CAPACITY
    {
      sCodec, sPts, sKeyFrame, slen, sNow, sent := 0, -1, 0, INITIAL_CAPACITY, 0, [];
      sBuf := new byte[INITIAL_CAPACITY];
    }

    /** Reallocates, with some room to spare, when that many more bytes do not fit. */
    method MakeRoom(count: nat)
      requires Valid()
      modifies this`slen, this`sBuf
      ensures Valid() && (sBuf == old(sBuf) || fresh(sBuf)) && slen >= old(slen) && sNow + count <= slen
      ensures sBuf[..sNow] == old(sBuf[..sNow])
    {
      if slen < count + sNow {
        slen := count + sNow + HEADROOM;
        var grown := new byte[slen];
        forall i | 0 <= i < sNow {
          grown[i] := sBuf[i];
        }
        sBuf := grown;
      }
    }

    /** Appends the fragment's bytes, first reallocating when they do not fit. */
    method Append(data: seq<byte>)
      requires Valid()
      modifies this`slen, this`sNow, this`sBuf, sBuf
      ensures Valid() && (sBuf == old(sBuf) || fresh(sBuf)) && slen >= old(slen)
      ensures sBuf[..sNow] == old(sBuf[..sNow]) + data
    {
      MakeRoom(|data|);
      ghost var before := sBuf[..sNow];
      forall i | 0 <= i < |data| {
        sBuf[sNow + i] := data[i];
      }
      assert forall i :: 0 <= i < sNow ==> sBuf[i] == before[i];
      sNow := sNow + |data|;
      assert sBuf[..sNow] == before + data;
    }

    method OnPacket(codec: int, flags: int, pts: int, data: seq<byte>)
      requires Valid()
      modifies this, sBuf
      ensures Valid() && (sBuf == old(sBuf) || fresh(sBuf)) && slen >= old(slen)
      ensures Contents() == Collect(old(Contents()), Fragment(codec, flags, pts, data))
    {
      if codec == 0 {
        return;
      }
      if sCodec == codec && sPts == pts {
        Append(data);
        sKeyFrame := flags;
        return;
      }
      if sNow > 0 {
        sent := sent + [Group(sCodec, sPts, sKeyFrame, sBuf[..sNow])];
      }
      forall i | 0 <= i < sNow {
        sBuf[i] := 0;
      }
      sNow := 0;
      sKeyFrame := 0;
      Append(data);
      sKeyFrame := flags;
      sPts := pts;
      sCodec := codec;
    }
  }
}
