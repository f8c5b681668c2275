/** The RTP/RTCP pair pool of SipSupService/src/SipLocalConfig.cpp, and its comparison with the port pool of the
    media manager. */
module LegacyPorts {
  import opened Common
  import opened MediaTables
  import opened MediaManagement

  /** Each RTP port followed by its RTCP port. */
  function Pairs(ports: seq<int>): seq<int> {
    if ports == [] then [] else [ports[0], ports[0] + 1] + Pairs(ports[1..])
  }

  lemma {:induction false} PairsAppend(a: seq<int>, b: seq<int>)
    ensures Pairs(a + b) == Pairs(a) + Pairs(b)
  {
    if a == [] {
      assert a + b == b;
    } else {
      assert (a + b)[1..] == a[1..] + b;
      PairsAppend(a[1..], b);
    }
  }

  lemma {:induction false} PairsSnoc(ports: seq<int>, port: int)
    ensures Pairs(ports + [port]) == Pairs(ports) + [port, port + 1]
  {
    PairsAppend(ports, [port]);
    assert [port][1..] == [] && Pairs([port]) == [port, port + 1] + Pairs([]);
  }

  predicate AllEven(ports: seq<int>) {
    forall i :: 0 <= i < |ports| ==> ports[i] % 2 == 0
  }

  /** begin, begin + 2, ... up to end. */
  function EvensFrom(begin: int, end: int): seq<int>
    decreases end - begin
  {
    if begin > end then [] else [begin] + EvensFrom(begin + 2, end)
  }

  lemma {:induction false} EvensSnoc(begin: int, end: int)
    requires begin % 2 == 0 && end % 2 == 0 && begin <= end
    ensures EvensFrom(begin, end) == EvensFrom(begin, end - 2) + [end]
    decreases end - begin
  {
    if begin < end {
      EvensSnoc(begin + 2, end);
    }
  }

  function RoundUp(begin: int): int { if begin % 2 != 0 then begin + 1 else begin }

  function RoundDown(end: int): int { if end % 2 == 0 then end - 1 else end }

  /** The pops below never meet an empty queue. */
  predicate PopFits(queue: seq<int>) {
    queue == [] || |queue| >= if queue[0] % 2 != 0 then 3 else 2
  }

  function PoppedPort(queue: seq<int>): int
    requires PopFits(queue)
  {
    if queue == [] then 0 else if queue[0] % 2 != 0 then queue[1] else queue[0]
  }

  function AfterPop(queue: seq<int>): seq<int>
    requires PopFits(queue)
  {
    if queue == [] then [] else if queue[0] % 2 != 0 then queue[3..] else queue[2..]
  }

  /** A port of the range comes back, with its RTCP port, to the end of the queue. */
  function Push(queue: seq<int>, begin: int, end: int, port: int): seq<int> {
    if port < begin || port > end then queue else queue + [port, port + 1]
  }

  /** On a queue of pairs the unguarded pops never underflow, and the next RTP port comes out. */
  lemma {:induction false} PopOfPairs(ports: seq<int>)
    requires AllEven(ports)
    ensures PopFits(Pairs(ports))
    ensures ports == [] ==> PoppedPort(Pairs(ports)) == 0 && AfterPop(Pairs(ports)) == []
    ensures ports != [] ==> PoppedPort(Pairs(ports)) == ports[0] && AfterPop(Pairs(ports)) == Pairs(ports[1..])
  {
  }

  class SipLocalConfig {
    var rtpPortBegin: int
    var rtpPortEnd: int
    var queue: seq<int>
    /** The RTP ports of the queued pairs. */
    ghost var ports: seq<int>

    /** The queue is a sequence of (even, even + 1) pairs. */
    ghost predicate Valid()
      reads this
    {
      queue == Pairs(ports) && AllEven(ports)
    }

    constructor (begin: int, end: int)
      ensures rtpPortBegin == begin && rtpPortEnd == end && queue == [] && ports == [] && Valid()
    {
      rtpPortBegin, rtpPortEnd, queue, ports := begin, end, [], [];
    }

    /** Fills an empty queue with the range, made to start even and end odd. */
    method InitRandPort()
      requires queue == [] && ports == []
      modifies this
      ensures Valid()
      ensures rtpPortBegin == RoundUp(old(rtpPortBegin)) && rtpPortEnd == RoundDown(old(rtpPortEnd))
      ensures ports == EvensFrom(rtpPortBegin, rtpPortEnd)
    {
      while rtpPortBegin % 2 != 0
        invariant rtpPortBegin == old(rtpPortBegin) || rtpPortBegin == RoundUp(old(rtpPortBegin))
        invariant rtpPortEnd == old(rtpPortEnd) && queue == [] && ports == []
        decreases RoundUp(old(rtpPortBegin)) - rtpPortBegin
      {
        rtpPortBegin := rtpPortBegin + 1;
      }
      while rtpPortEnd % 2 == 0
        invariant rtpPortEnd == old(rtpPortEnd) || rtpPortEnd == RoundDown(old(rtpPortEnd))
        invariant rtpPortBegin == RoundUp(old(rtpPortBegin)) && queue == [] && ports == []
        decreases rtpPortEnd - RoundDown(old(rtpPortEnd))
      {
        rtpPortEnd := rtpPortEnd - 1;
      }
      FillQueue();
    }

    method FillQueue()
      requires rtpPortBegin % 2 == 0 && rtpPortEnd % 2 != 0 && queue == [] && ports == []
      modifies this`queue, this`ports
      ensures Valid()
      ensures ports == EvensFrom(rtpPortBegin, rtpPortEnd)
    {
      var i := rtpPortBegin;
      while i <= rtpPortEnd
        invariant rtpPortBegin <= i && (i <= rtpPortEnd + 1 || i == rtpPortBegin)
        invariant i % 2 == 0 ==> queue == Pairs(ports) && ports == EvensFrom(rtpPortBegin, i - 2)
        invariant i % 2 != 0 ==> queue == Pairs(ports) + [i - 1] && ports == EvensFrom(rtpPortBegin, i - 3)
        invariant AllEven(ports)
        decreases rtpPortEnd - i
      {
        if i % 2 != 0 {
          PairsSnoc(ports, i - 1);
          EvensSnoc(rtpPortBegin, i - 1);
          assert (Pairs(ports) + [i - 1]) + [i] == Pairs(ports) + [i - 1, i - 1 + 1];
          ports := ports + [i - 1];
        }
        queue := queue + [i];
        i := i + 1;
      }
      EvensStop(rtpPortBegin, i);
    }

    /** Takes a port off the queue, and the RTCP port behind it; an odd front is skipped first. */
    method PopOneRandNum() returns (rtpPort: int)
      requires PopFits(queue)
      modifies this`queue, this`ports
      ensures rtpPort == PoppedPort(old(queue)) && queue == AfterPop(old(queue))
      ensures old(Valid()) ==> Valid() && ports == old(ports)[if old(ports) == [] then 0 else 1..]
    {
      if Valid() {
        PopOfPairs(ports);
      }
      rtpPort := 0;
      if |queue| > 0 {
        rtpPort := queue[0];
        queue := queue[1..];
        if rtpPort % 2 != 0 {
          rtpPort := queue[0];
          queue := queue[1..];
        }
        queue := queue[1..];
        ports := if ports == [] then [] else ports[1..];
      }
    }

    /** Only ports of the range come back; an even one leaves the queue a sequence of pairs. */
    method PushOneRandNum(num: int) returns (ok: bool)
      modifies this`queue, this`ports
      ensures ok == (rtpPortBegin <= num <= rtpPortEnd)
      ensures queue == Push(old(queue), rtpPortBegin, rtpPortEnd, num)
      ensures old(Valid()) && num % 2 == 0 ==> Valid() && ports == if ok then old(ports) + [num] else old(ports)
    {
      if num < rtpPortBegin || num > rtpPortEnd {
        return false;
      }
      PairsSnoc(ports, num);
      queue := queue + [num];
      queue := queue + [num + 1];
      ports := ports + [num];
      ok := true;
    }
  }

  lemma {:induction false} EvensStop(begin: int, next: int)
    requires begin % 2 == 0 && begin <= next && next % 2 == 0
    ensures EvensFrom(begin, next - 2) == EvensFrom(begin, next - 1)
    decreases next - begin
  {
    if begin < next {
      EvensStop(begin + 2, next);
    }
  }

  // ---------------------------------------------------------------- the same range in both pools

  /** The queue the media manager's configuration builds is the same list of even ports. */
  lemma {:induction false} AscendingUnique(a: seq<int>, b: seq<int>)
    requires Ascending(a) && Ascending(b) && forall x :: x in a <==> x in b
    ensures a == b
  {
    HasFirst(a);
    HasFirst(b);
    if a != [] && b != [] {
      assert a[0] in a && a[0] in b;
      assert b[0] in b && b[0] in a;
      var a', b' := a[1..], b[1..];
      assert forall x :: x in a' <==> x in a && x != a[0];
      assert forall x :: x in b' <==> x in b && x != b[0];
      AscendingUnique(a', b');
    }
  }

  lemma {:induction false} HasFirst(s: seq<int>)
    ensures s == [] || s[0] in s
  {
  }

  lemma {:induction false} EvensInRange(begin: int, end: int, i: nat)
    requires begin % 2 == 0 && i < |EvensFrom(begin, end)|
    ensures EvensFrom(begin, end)[i] == begin + 2 * i <= end
    decreases end - begin
  {
    if i > 0 {
      EvensInRange(begin + 2, end, i - 1);
    }
  }

  lemma {:induction false} EvensHold(begin: int, end: int, x: int)
    requires begin % 2 == 0 && begin <= x <= end && x % 2 == 0
    ensures x in EvensFrom(begin, end)
    decreases end - begin
  {
    if x > begin {
      EvensHold(begin + 2, end, x);
    }
  }

  lemma {:induction false} EvensMembers(begin: int, end: int)
    requires begin % 2 == 0
    ensures Ascending(EvensFrom(begin, end)) && AllEven(EvensFrom(begin, end))
    ensures forall x :: x in EvensFrom(begin, end) <==> begin <= x <= end && x % 2 == 0
  {
    var evens := EvensFrom(begin, end);
    forall i | 0 <= i < |evens| ensures evens[i] == begin + 2 * i <= end {
      EvensInRange(begin, end, i);
    }
    forall x | begin <= x <= end && x % 2 == 0 ensures x in evens {
      EvensHold(begin, end, x);
    }
  }

  /** What Configure leaves in the queue for one range. */
  lemma {:induction false} ConfiguredQueue(queue: seq<int>, begin: int, end: int)
    requires begin > 0 && end > 0 && Ascending(queue) && Covered(queue, [PortRange(begin, end)])
    ensures queue == EvensFrom(RoundUp(begin), end)
  {
    EvensMembers(RoundUp(begin), end);
    forall x ensures x in queue <==> x in EvensFrom(RoundUp(begin), end) {
      assert [PortRange(begin, end)][0].Covers(x) <==> x in EvensFrom(RoundUp(begin), end);
    }
    AscendingUnique(queue, EvensFrom(RoundUp(begin), end));
  }

  /** The two pools start with the same ports exactly when the range ends odd or has no even port: of a range
      that ends even the legacy pool does not hold the last RTP port. */
  lemma {:induction false} SamePoolsIffOddEnd(begin: int, end: int)
    ensures EvensFrom(RoundUp(begin), end) == EvensFrom(RoundUp(begin), RoundDown(end)) <==>
            end % 2 != 0 || RoundUp(begin) > end
    ensures end % 2 == 0 ==> end !in EvensFrom(RoundUp(begin), RoundDown(end))
  {
    EvensMembers(RoundUp(begin), end);
    EvensMembers(RoundUp(begin), RoundDown(end));
    if end % 2 == 0 && RoundUp(begin) <= end {
      assert end in EvensFrom(RoundUp(begin), end);
    }
  }

  // ---------------------------------------------------------------- runs

  datatype Op = Acquire | Give(port: int)

  /** A run of the media manager's pool: its final state and the ports handed out. */
  datatype NewRun = NewRun(pool: Pool, handed: seq<int>)

  function StepNew(p: Pool, op: Op): NewRun {
    match op
    case Acquire => NewRun(Allocate(p).pool, [Allocate(p).port])
    case Give(port) => NewRun(Release(p, port), [])
  }

  function RunNew(p: Pool, ops: seq<Op>): NewRun
    decreases |ops|
  {
    if ops == [] then NewRun(p, [])
    else
      var step := StepNew(p, ops[0]);
      var rest := RunNew(step.pool, ops[1..]);
      NewRun(rest.pool, step.handed + rest.handed)
  }

  datatype LegacyRun = LegacyRun(queue: seq<int>, handed: seq<int>)

  function StepLegacy(queue: seq<int>, begin: int, end: int, op: Op): Option<LegacyRun> {
    match op
    case Acquire => if PopFits(queue) then Some(LegacyRun(AfterPop(queue), [PoppedPort(queue)])) else None
    case Give(port) => Some(LegacyRun(Push(queue, begin, end, port), []))
  }

  /** The same run of the legacy queue, None where a pop would meet an empty queue. */
  function RunLegacy(queue: seq<int>, begin: int, end: int, ops: seq<Op>): Option<LegacyRun>
    decreases |ops|
  {
    if ops == [] then Some(LegacyRun(queue, []))
    else
      match StepLegacy(queue, begin, end, ops[0])
      case None => None
      case Some(step) =>
        match RunLegacy(step.queue, begin, end, ops[1..])
        case None => None
        case Some(rest) => Some(LegacyRun(rest.queue, step.handed + rest.handed))
  }

  /** A caller that gives a port of the range back holds it. */
  predicate Fair(p: Pool, begin: int, end: int, op: Op) {
    op.Give? && begin <= op.port <= end ==> op.port in p.taken
  }

  predicate Disciplined(p: Pool, begin: int, end: int, ops: seq<Op>)
    decreases |ops|
  {
    ops == [] || (Fair(p, begin, end, ops[0]) && Disciplined(StepNew(p, ops[0]).pool, begin, end, ops[1..]))
  }

  ghost predicate RangePool(p: Pool, begin: int, end: int) {
    PoolValid(p) && AllOfRange(p.available + p.taken, begin, end)
  }

  predicate AllOfRange(ports: set<int>, begin: int, end: int) {
    forall port <- ports :: begin <= port <= end && port % 2 == 0
  }

  lemma {:induction false} RangePoolQueue(p: Pool, begin: int, end: int)
    requires RangePool(p, begin, end)
    ensures AllEven(p.queue)
  {
    forall i | 0 <= i < |p.queue| ensures p.queue[i] % 2 == 0 {
      assert p.queue[i] in p.queue;
      assert p.queue[i] in p.available + p.taken;
    }
  }

  /** A fair operation does the same to both pools. */
  lemma {:induction false} StepsAgree(p: Pool, begin: int, end: int, op: Op)
    requires RangePool(p, begin, end) && Fair(p, begin, end, op)
    ensures var step := StepNew(p, op);
            && RangePool(step.pool, begin, end)
            && StepLegacy(Pairs(p.queue), begin, end, op) == Some(LegacyRun(Pairs(step.pool.queue), step.handed))
  {
    RangePoolQueue(p, begin, end);
    match op
    case Acquire =>
      AllocateFromValid(p);
      PopOfPairs(p.queue);
    case Give(port) =>
      ReleaseToValid(p, port);
      if port in p.taken {
        assert port in p.available + p.taken;
        PairsSnoc(p.queue, port);
      }
  }

  /** The pools are observationally equal: any disciplined run hands out the same ports in the same order, the
      legacy queue stays a sequence of (even, even + 1) pairs throughout, and its pops never underflow. */
  lemma {:induction false} PoolsAgree(p: Pool, begin: int, end: int, ops: seq<Op>)
    requires RangePool(p, begin, end) && Disciplined(p, begin, end, ops)
    ensures var after := RunNew(p, ops);
            && RunLegacy(Pairs(p.queue), begin, end, ops) == Some(LegacyRun(Pairs(after.pool.queue), after.handed))
            && RangePool(after.pool, begin, end) && AllEven(after.pool.queue)
    decreases |ops|
  {
    RangePoolQueue(p, begin, end);
    if ops != [] {
      StepsAgree(p, begin, end, ops[0]);
      PoolsAgree(StepNew(p, ops[0]).pool, begin, end, ops[1..]);
    }
  }

  // ---------------------------------------------------------------- exactly the disciplined runs

  function Acquires(n: nat): seq<Op> { seq(n, _ => Acquire) }

  /** The legacy pool survives the run and hands out what the new one does. */
  predicate SameHanded(p: Pool, queue: seq<int>, begin: int, end: int, ops: seq<Op>) {
    var legacy := RunLegacy(queue, begin, end, ops);
    legacy.Some? && legacy.value.handed == RunNew(p, ops).handed
  }

  lemma {:induction false} CancelLeft(a: seq<int>, b: seq<int>, c: seq<int>)
    requires a + b == a + c
    ensures b == c
  {
    assert b == (a + b)[|a|..] == (a + c)[|a|..] == c;
  }

  /** After a step that does the same in both, only the rest of the run matters. */
  lemma {:induction false} SameHandedCons(p: Pool, queue: seq<int>, begin: int, end: int, op: Op, ops: seq<Op>, next: seq<int>)
    requires StepLegacy(queue, begin, end, op) == Some(LegacyRun(next, StepNew(p, op).handed))
    ensures SameHanded(p, queue, begin, end, [op] + ops) <==> SameHanded(StepNew(p, op).pool, next, begin, end, ops)
  {
    assert ([op] + ops)[1..] == ops;
    var step, legacy := StepNew(p, op), RunLegacy(next, begin, end, ops);
    var handed := RunNew(step.pool, ops).handed;
    if legacy.Some? && step.handed + legacy.value.handed == step.handed + handed {
      CancelLeft(step.handed, legacy.value.handed, handed);
    }
  }

  lemma {:induction false} FirstTakeDiffers(p: Pool, queue: seq<int>, begin: int, end: int, ops: seq<Op>)
    requires !PopFits(queue) || PoppedPort(queue) != Allocate(p).port
    ensures !SameHanded(p, queue, begin, end, [Acquire] + ops)
  {
    assert ([Acquire] + ops)[1..] == ops;
    if PopFits(queue) && RunLegacy(AfterPop(queue), begin, end, ops).Some? {
      assert RunLegacy(queue, begin, end, [Acquire] + ops).value.handed[0] == PoppedPort(queue);
      assert RunNew(p, [Acquire] + ops).handed[0] == Allocate(p).port;
    }
  }

  /** A pair too many in the legacy queue shows once the new pool is empty: an even port is handed out there, an
      odd one makes the pop run past the end. */
  lemma {:induction false} ExtraPairShows(p: Pool, begin: int, end: int, port: int)
    requires RangePool(p, begin, end) && port > 0
    ensures !SameHanded(p, Pairs(p.queue) + [port, port + 1], begin, end, Acquires(|p.queue| + 1))
    decreases |p.queue|
  {
    var queue, n := Pairs(p.queue) + [port, port + 1], |p.queue|;
    assert Acquires(n + 1) == [Acquire] + Acquires(n);
    AllocateFromValid(p);
    RangePoolQueue(p, begin, end);
    if n == 0 {
      assert queue == [port, port + 1];
      FirstTakeDiffers(p, queue, begin, end, Acquires(n));
    } else {
      var next := Pairs(p.queue[1..]) + [port, port + 1];
      assert queue == [p.queue[0], p.queue[0] + 1] + next;
      StepsAgree(p, begin, end, Acquire);
      SameHandedCons(p, queue, begin, end, Acquire, Acquires(n), next);
      ExtraPairShows(StepNew(p, Acquire).pool, begin, end, port);
    }
  }

  /** Where an undisciplined run shows: just behind the first unfair return, when all ports are taken. */
  lemma {:induction false} UnfairReturnShows(p: Pool, begin: int, end: int, ops: seq<Op>) returns (n: nat, m: nat)
    requires begin > 0 && RangePool(p, begin, end) && !Disciplined(p, begin, end, ops)
    ensures n <= |ops| && !SameHanded(p, Pairs(p.queue), begin, end, ops[..n] + Acquires(m))
    decreases |ops|
  {
    var op := ops[0];
    if Fair(p, begin, end, op) {
      StepsAgree(p, begin, end, op);
      var after := StepNew(p, op).pool;
      n, m := UnfairReturnShows(after, begin, end, ops[1..]);
      SameHandedCons(p, Pairs(p.queue), begin, end, op, ops[1..][..n] + Acquires(m), Pairs(after.queue));
      assert ops[..n + 1] + Acquires(m) == [op] + (ops[1..][..n] + Acquires(m));
      n := n + 1;
    } else {
      n, m := 1, |p.queue| + 1;
      ReleaseToValid(p, op.port);
      SameHandedCons(p, Pairs(p.queue), begin, end, op, Acquires(m), Pairs(p.queue) + [op.port, op.port + 1]);
      assert ops[..1] + Acquires(m) == [op] + Acquires(m);
      ExtraPairShows(p, begin, end, op.port);
    }
  }

  lemma {:induction false} StillDisciplined(p: Pool, begin: int, end: int, ops: seq<Op>, n: nat, m: nat)
    requires Disciplined(p, begin, end, ops) && n <= |ops|
    ensures Disciplined(p, begin, end, ops[..n] + Acquires(m))
    decreases n, m
  {
    var all := ops[..n] + Acquires(m);
    if n > 0 {
      StillDisciplined(StepNew(p, ops[0]).pool, begin, end, ops[1..], n - 1, m);
      assert all[1..] == ops[1..][..n - 1] + Acquires(m);
    } else if m > 0 {
      StillDisciplined(StepNew(p, Acquire).pool, begin, end, [], 0, m - 1);
      assert all[1..] == [][..0] + Acquires(m - 1);
    }
  }

  /** The pools can be told apart exactly by a run in which a port of the range comes back that is not held: such
      a run, cut off somewhere and followed by enough takes, gives different ports or runs past the end of the
      legacy queue, and no other run does. */
  lemma {:induction false} SameIffDisciplined(p: Pool, begin: int, end: int, ops: seq<Op>)
    requires begin > 0 && RangePool(p, begin, end)
    ensures Disciplined(p, begin, end, ops) <==>
            forall n: nat, m: nat | n <= |ops| :: SameHanded(p, Pairs(p.queue), begin, end, ops[..n] + Acquires(m))
  {
    if Disciplined(p, begin, end, ops) {
      forall n: nat, m: nat | n <= |ops|
        ensures SameHanded(p, Pairs(p.queue), begin, end, ops[..n] + Acquires(m))
      {
        StillDisciplined(p, begin, end, ops, n, m);
        PoolsAgree(p, begin, end, ops[..n] + Acquires(m));
      }
    } else {
      var n, m := UnfairReturnShows(p, begin, end, ops);
    }
  }

  // ---------------------------------------------------------------- from one configured range

  /** What Configure leaves for one range: its even ports queued, none taken. */
  ghost predicate ConfiguredFor(p: Pool, begin: int, end: int) {
    && PoolValid(p) && p.taken == {}
    && Ascending(p.queue) && Covered(p.queue, [PortRange(begin, end)])
  }

  lemma {:induction false} ConfiguredRange(p: Pool, begin: int, end: int)
    requires begin > 0 && end > 0 && ConfiguredFor(p, begin, end)
    ensures p.queue == EvensFrom(RoundUp(begin), end)
    ensures end % 2 != 0 ==> RangePool(p, RoundUp(begin), end)
  {
    ConfiguredQueue(p.queue, begin, end);
    EvensMembers(RoundUp(begin), end);
    assert forall port :: port in p.available + p.taken <==> port in p.queue;
  }

  /** On the same range the media manager as configured and the legacy pool as filled by InitRandPort serve every
      disciplined run alike, if and only if the range ends odd or holds no even port. */
  lemma {:induction false} SameRunsIffOddEnd(p: Pool, begin: int, end: int)
    requires begin > 0 && end > 0 && ConfiguredFor(p, begin, end)
    ensures var first, last := RoundUp(begin), RoundDown(end);
            (forall ops | Disciplined(p, first, last, ops) ::
               SameHanded(p, Pairs(EvensFrom(first, last)), first, last, ops)) <==>
            end % 2 != 0 || first > end
  {
    var first, last := RoundUp(begin), RoundDown(end);
    ConfiguredRange(p, begin, end);
    if end % 2 != 0 || first > end {
      forall ops | Disciplined(p, first, last, ops)
        ensures SameHanded(p, Pairs(EvensFrom(first, last)), first, last, ops)
      {
        SamePoolsIffOddEnd(begin, end);
        assert RangePool(p, first, last);
        PoolsAgree(p, first, last, ops);
      }
    } else {
      EvenEndShows(p, first, last);
    }
  }

  /** Taking every port of a range that ends even: the legacy pool has none left for the last take. */
  lemma {:induction false} EvenEndShows(p: Pool, first: int, last: int)
    requires PoolValid(p) && first % 2 == 0 && last % 2 != 0 && first <= last + 1 && p.queue == EvensFrom(first, last + 1)
    ensures Disciplined(p, first, last, Acquires(|p.queue|))
    ensures !SameHanded(p, Pairs(EvensFrom(first, last)), first, last, Acquires(|p.queue|))
  {
    EvensSnoc(first, last + 1);
    EvensStop(first, last + 1);
    EvensMembers(first, last);
    assert [][..0] + Acquires(|p.queue|) == Acquires(|p.queue|);
    StillDisciplined(p, first, last, [], 0, |p.queue|);
    MissingPortShows(p, EvensFrom(first, last), last + 1, first, last);
  }

  lemma {:induction false} MissingPortShows(p: Pool, ports: seq<int>, port: int, begin: int, end: int)
    requires PoolValid(p) && p.queue == ports + [port] && AllEven(ports)
    ensures !SameHanded(p, Pairs(ports), begin, end, Acquires(|p.queue|))
  {
    var n := |p.queue|;
    DrainInOrder(p, n);
    LegacyDrain(ports, begin, end, n);
    assert port in p.queue && port in p.available + p.taken;
    assert p.queue[..n][n - 1] == port && (ports + [0])[n - 1] == 0;
  }

  /** The legacy queue gives its ports in order and then 0. */
  lemma {:induction false} LegacyDrain(ports: seq<int>, begin: int, end: int, n: nat)
    requires AllEven(ports) && n == |ports| + 1
    ensures var r := RunLegacy(Pairs(ports), begin, end, Acquires(n));
            r.Some? && r.value.handed == ports + [0]
    decreases |ports|
  {
    assert Acquires(n)[1..] == Acquires(n - 1);
    PopOfPairs(ports);
    if ports == [] {
      assert Acquires(0) == [];
    } else {
      LegacyDrain(ports[1..], begin, end, n - 1);
    }
  }

  /** A caller gives no odd port of the range. */
  predicate GivesEven(begin: int, end: int, ops: seq<Op>) {
    forall i :: 0 <= i < |ops| && ops[i].Give? && begin <= ops[i].port <= end ==> ops[i].port % 2 == 0
  }

  predicate WithinRange(ports: seq<int>, begin: int, end: int) {
    forall i :: 0 <= i < |ports| ==> ports[i] == 0 || begin <= ports[i] <= end
  }

  /** One step on a queue of pairs, and the RTP ports left in it. */
  function PortsAfter(ports: seq<int>, begin: int, end: int, op: Op): seq<int> {
    match op
    case Acquire => if ports == [] then [] else ports[1..]
    case Give(port) => if begin <= port <= end then ports + [port] else ports
  }

  lemma {:induction false} LegacyStep(ports: seq<int>, begin: int, end: int, op: Op)
    requires AllEven(ports) && WithinRange(ports, begin, end)
    requires op.Give? && begin <= op.port <= end ==> op.port % 2 == 0
    ensures var next := PortsAfter(ports, begin, end, op);
            && AllEven(next) && WithinRange(next, begin, end)
            && StepLegacy(Pairs(ports), begin, end, op) ==
               Some(LegacyRun(Pairs(next), if op.Acquire? then [if ports == [] then 0 else ports[0]] else []))
  {
    match op
    case Acquire => PopOfPairs(ports);
    case Give(port) => PairsSnoc(ports, port);
  }

  /** As long as no odd port comes back, whatever else is taken and given, the pops never underflow and only
      ports of the range made to end odd are handed out: of a range that ends even never the last one. */
  lemma {:induction false} LegacyStaysInRange(ports: seq<int>, begin: int, end: int, ops: seq<Op>)
    requires AllEven(ports) && WithinRange(ports, begin, end) && GivesEven(begin, end, ops)
    ensures var r := RunLegacy(Pairs(ports), begin, end, ops);
            r.Some? && WithinRange(r.value.handed, begin, end)
    decreases |ops|
  {
    if ops != [] {
      var rest := ops[1..];
      assert forall i :: 0 <= i < |rest| ==> rest[i] == ops[i + 1];
      LegacyStep(ports, begin, end, ops[0]);
      LegacyStaysInRange(PortsAfter(ports, begin, end, ops[0]), begin, end, rest);
    }
  }

  // ---------------------------------------------------------------- first in, first out

  function NonZero(ports: seq<int>): seq<int> {
    if ports == [] then [] else (if ports[0] == 0 then [] else [ports[0]]) + NonZero(ports[1..])
  }

  lemma {:induction false} NonZeroCons(port: int, ports: seq<int>)
    ensures NonZero([port] + ports) == (if port == 0 then [] else [port]) + NonZero(ports)
  {
    assert ([port] + ports)[1..] == ports;
  }

  /** The ports that come back while they are held, in order. */
  function Returned(p: Pool, ops: seq<Op>): seq<int>
    decreases |ops|
  {
    if ops == [] then []
    else
      (if ops[0].Give? && ops[0].port in p.taken then [ops[0].port] else []) + Returned(StepNew(p, ops[0]).pool, ops[1..])
  }

  /** First in, first out, over any run whatever: the ports handed out and then the ports still queued are the
      ports queued at first and then the ports returned, in order. */
  lemma {:induction false} FirstInFirstOut(p: Pool, ops: seq<Op>)
    requires PoolValid(p)
    ensures PoolValid(RunNew(p, ops).pool)
    ensures NonZero(RunNew(p, ops).handed) + RunNew(p, ops).pool.queue == p.queue + Returned(p, ops)
    decreases |ops|
  {
    if ops != [] {
      var op := ops[0];
      var step := StepNew(p, op);
      var rest := RunNew(step.pool, ops[1..]);
      match op {
        case Acquire =>
          AllocateFromValid(p);
          NonZeroCons(step.handed[0], rest.handed);
        case Give(port) =>
          ReleaseToValid(p, port);
          assert step.handed + rest.handed == rest.handed;
      }
      FirstInFirstOut(step.pool, ops[1..]);
      FifoStep(p, op, rest, Returned(step.pool, ops[1..]));
    }
  }

  lemma {:induction false} Regroup(first: seq<int>, handed: seq<int>, left: seq<int>, queue: seq<int>, returned: seq<int>)
    requires handed + left == queue + returned
    ensures (first + handed) + left == (first + queue) + returned
  {
    assert (first + handed) + left == first + (handed + left);
    assert (first + queue) + returned == first + (queue + returned);
  }

  lemma {:induction false} FifoStep(p: Pool, op: Op, rest: NewRun, returned: seq<int>)
    requires PoolValid(p) && NonZero(rest.handed) + rest.pool.queue == StepNew(p, op).pool.queue + returned
    ensures NonZero(StepNew(p, op).handed + rest.handed) + rest.pool.queue ==
            p.queue + ((if op.Give? && op.port in p.taken then [op.port] else []) + returned)
  {
    match op
    case Acquire =>
      AllocateFromValid(p);
      NonZeroCons(StepNew(p, op).handed[0], rest.handed);
      if p.queue != [] {
        Regroup([p.queue[0]], NonZero(rest.handed), rest.pool.queue, p.queue[1..], returned);
        assert p.queue == [p.queue[0]] + p.queue[1..];
      }
    case Give(port) =>
      ReleaseToValid(p, port);
      assert [] + rest.handed == rest.handed;
  }

  lemma {:induction false} DrainInOrder(p: Pool, n: nat)
    requires PoolValid(p) && n <= |p.queue|
    ensures RunNew(p, Acquires(n)).handed == p.queue[..n]
    ensures PoolValid(RunNew(p, Acquires(n)).pool) && RunNew(p, Acquires(n)).pool.queue == p.queue[n..]
    decreases n
  {
    if n > 0 {
      AllocateFromValid(p);
      assert Acquires(n)[1..] == Acquires(n - 1);
      DrainInOrder(Allocate(p).pool, n - 1);
    }
  }

  /** A released port is handed out only after every port that was available when it came back. */
  lemma {:induction false} ReleasedComesLast(p: Pool, port: int)
    requires PoolValid(p) && port in p.taken
    ensures RunNew(Release(p, port), Acquires(|p.queue| + 1)).handed == p.queue + [port]
  {
    ReleaseToValid(p, port);
    DrainInOrder(Release(p, port), |p.queue| + 1);
  }
}
