/** The loss-aware reassembly of SipSupService/src/Gb28181Session.cpp: the receiving half of PackProcStat, a buffer
    grown by reallocation, and the loop that feeds a demuxer which may take any part of its input. */
module LegacyReceivers {
  import opened Common

  const INITIAL_CAPACITY: nat := 10 * 1024
  const HEADROOM: nat := 1024

  datatype Packet = Packet(mark: bool, seqNo: int, timestamp: int, payload: seq<byte>)

  datatype FrameStat = FrameContinue | FrameCurFinish | FrameNextStart

  /** The fate of received bytes: taken by the demuxer, or thrown away. */
  datatype Fate = Demuxed(bytes: seq<byte>) | Dropped(bytes: seq<byte>)

  /** What the object holds: the last sequence number (-1 before the first) and timestamp, whether a loss is
      being waited out, the unread program stream bytes, and whether a demuxer exists. */
  datatype State = State(seqNo: int, timestamp: int, lossy: bool, buffer: seq<byte>, demuxer: bool)

  const FIRST := State(-1, 0, false, [], false)

  // ---------------------------------------------------------------- the consume loop

  /** The inputs the demuxer was shown, how many bytes it took in all, and whether it failed. */
  datatype Consumption = Consumption(inputs: seq<seq<byte>>, taken: nat, failed: bool)

  /** The demuxer answers its k-th call with answers(k): a count of bytes taken, or anything else. */
  function Consume(data: seq<byte>, k: nat, answers: nat -> int): (c: Consumption)
    ensures c.taken <= |data|
    ensures c.failed ==> c.taken < |data|
    decreases |data|
  {
    if data == [] then Consumption([], 0, false)
    else if answers(k) <= 0 || answers(k) > |data| then Consumption([data], 0, answers(k) < 0)
    else
      var rest := Consume(data[answers(k)..], k + 1, answers);
      Consumption([data] + rest.inputs, answers(k) + rest.taken, rest.failed)
  }

  /** What was shown and taken before, and then this. */
  function Behind(inputs: seq<seq<byte>>, offset: nat, c: Consumption): Consumption {
    Consumption(inputs + c.inputs, offset + c.taken, c.failed)
  }

  lemma {:induction false} ConsumeTakes(data: seq<byte>, offset: nat, k: nat, answers: nat -> int, inputs: seq<seq<byte>>)
    requires offset < |data| && 0 < answers(k) <= |data| - offset
    ensures Behind(inputs, offset, Consume(data[offset..], k, answers)) ==
            Behind(inputs + [data[offset..]], offset + answers(k), Consume(data[offset + answers(k)..], k + 1, answers))
  {
    assert data[offset..][answers(k)..] == data[offset + answers(k)..];
    var rest := Consume(data[offset + answers(k)..], k + 1, answers);
    assert inputs + ([data[offset..]] + rest.inputs) == (inputs + [data[offset..]]) + rest.inputs;
  }

  lemma {:induction false} ConsumeStops(data: seq<byte>, offset: nat, k: nat, answers: nat -> int, inputs: seq<seq<byte>>)
    requires offset < |data| && !(0 < answers(k) <= |data| - offset)
    ensures Behind(inputs, offset, Consume(data[offset..], k, answers)) ==
            Consumption(inputs + [data[offset..]], offset, answers(k) < 0)
  {
  }

  lemma {:induction false} ConsumeBegins(data: seq<byte>, answers: nat -> int)
    ensures Behind([], 0, Consume(data[0..], 0, answers)) == Consume(data, 0, answers)
  {
    assert data[0..] == data;
    assert [] + Consume(data, 0, answers).inputs == Consume(data, 0, answers).inputs;
  }

  lemma {:induction false} ConsumeEnds(data: seq<byte>, k: nat, answers: nat -> int, inputs: seq<seq<byte>>)
    ensures Behind(inputs, |data|, Consume(data[|data|..], k, answers)) == Consumption(inputs, |data|, false)
  {
    assert data[|data|..] == [] && inputs + [] == inputs;
  }

  predicate IsSuffix(a: seq<byte>, b: seq<byte>) {
    |a| <= |b| && b[|b| - |a|..] == a
  }

  predicate AllSuffixes(inputs: seq<seq<byte>>, data: seq<byte>) {
    forall i :: 0 <= i < |inputs| ==> IsSuffix(inputs[i], data)
  }

  lemma {:induction false} SuffixOfSuffix(a: seq<byte>, b: seq<byte>, c: seq<byte>)
    requires IsSuffix(a, b) && IsSuffix(b, c)
    ensures IsSuffix(a, c)
  {
  }

  lemma {:induction false} SuffixExtends(a: seq<byte>, b: seq<byte>, more: seq<byte>)
    requires IsSuffix(a, b)
    ensures IsSuffix(a + more, b + more)
  {
  }

  lemma {:induction false} SuffixesOfSuffix(inputs: seq<seq<byte>>, b: seq<byte>, c: seq<byte>)
    requires AllSuffixes(inputs, b) && IsSuffix(b, c)
    ensures AllSuffixes(inputs, c)
  {
    forall i | 0 <= i < |inputs| ensures IsSuffix(inputs[i], c) {
      SuffixOfSuffix(inputs[i], b, c);
    }
  }

  /** Whatever the demuxer answers, it only ever sees ends of the buffer, each without what it took before. */
  lemma {:induction false} ConsumeShowsSuffixes(data: seq<byte>, k: nat, answers: nat -> int)
    ensures AllSuffixes(Consume(data, k, answers).inputs, data)
    ensures data != [] ==> Consume(data, k, answers).inputs != [] && Consume(data, k, answers).inputs[0] == data
    decreases |data|
  {
    if data != [] && 0 < answers(k) <= |data| {
      var rest := data[answers(k)..];
      ConsumeShowsSuffixes(rest, k + 1, answers);
      SuffixesOfSuffix(Consume(rest, k + 1, answers).inputs, rest, data);
    }
  }

  // ---------------------------------------------------------------- one packet

  function FrameOf(s: State, p: Packet): FrameStat {
    if p.mark then FrameCurFinish
    else if p.timestamp != (if s.timestamp == 0 then p.timestamp else s.timestamp) then FrameNextStart
    else FrameContinue
  }

  predicate Gap(s: State, p: Packet) {
    s.seqNo != -1 && p.seqNo - s.seqNo > 1
  }

  /** The state after a packet, what the demuxer was shown, and the fate of the bytes that left the buffer. */
  datatype Outcome = Outcome(state: State, inputs: seq<seq<byte>>, fates: seq<Fate>)

  function Demux(buffer: seq<byte>, answers: nat -> int): (r: (seq<byte>, seq<seq<byte>>, seq<Fate>, bool)) {
    var c := Consume(buffer, 0, answers);
    (if c.failed then [] else buffer[c.taken..], c.inputs,
     [Demuxed(buffer[..c.taken])] + (if c.failed then [Dropped(buffer[c.taken..])] else []), !c.failed)
  }

  function Receive(s: State, p: Packet, answers: nat -> int): Outcome {
    var frame := FrameOf(s, p);
    if s.lossy || Gap(s, p) then
      if frame == FrameNextStart then
        Outcome(State(p.seqNo, p.timestamp, false, p.payload, s.demuxer), [], [Dropped(s.buffer)])
      else
        Outcome(State(p.seqNo, p.timestamp, true, [], s.demuxer), [], [Dropped(s.buffer + p.payload)])
    else if frame == FrameContinue then
      Outcome(State(p.seqNo, p.timestamp, false, s.buffer + p.payload, s.demuxer), [], [])
    else
      var d := Demux(if frame == FrameCurFinish then s.buffer + p.payload else s.buffer, answers);
      Outcome(State(p.seqNo, p.timestamp, false, d.0 + (if frame == FrameNextStart then p.payload else []), d.3),
              d.1, d.2)
  }

  function Bytes(fates: seq<Fate>): seq<byte> {
    if fates == [] then [] else fates[0].bytes + Bytes(fates[1..])
  }

  lemma {:induction false} BytesAppend(a: seq<Fate>, b: seq<Fate>)
    ensures Bytes(a + b) == Bytes(a) + Bytes(b)
  {
    if a == [] {
      assert a + b == b;
    } else {
      assert (a + b)[1..] == a[1..] + b;
      BytesAppend(a[1..], b);
    }
  }

  lemma {:induction false} BytesOfOne(fate: Fate)
    ensures Bytes([fate]) == fate.bytes
  {
    assert [fate][1..] == [];
  }

  lemma {:induction false} DemuxConserves(buffer: seq<byte>, answers: nat -> int)
    ensures Bytes(Demux(buffer, answers).2) + Demux(buffer, answers).0 == buffer
    ensures AllSuffixes(Demux(buffer, answers).1, buffer) && IsSuffix(Demux(buffer, answers).0, buffer)
  {
    var c := Consume(buffer, 0, answers);
    BytesOfOne(Demuxed(buffer[..c.taken]));
    BytesOfOne(Dropped(buffer[c.taken..]));
    BytesAppend([Demuxed(buffer[..c.taken])], [Dropped(buffer[c.taken..])]);
    ConsumeShowsSuffixes(buffer, 0, answers);
  }

  /** One packet loses and invents nothing: what was buffered and what came in are, in order, what left and what
      is buffered now. */
  lemma {:induction false} ReceiveConserves(s: State, p: Packet, answers: nat -> int)
    ensures var o := Receive(s, p, answers);
            Bytes(o.fates) + o.state.buffer == s.buffer + p.payload
  {
    var frame := FrameOf(s, p);
    BytesOfOne(Dropped(s.buffer));
    BytesOfOne(Dropped(s.buffer + p.payload));
    if !s.lossy && !Gap(s, p) && frame != FrameContinue {
      var data := if frame == FrameCurFinish then s.buffer + p.payload else s.buffer;
      DemuxConserves(data, answers);
      var d := Demux(data, answers);
      ConcatAssoc(Bytes(d.2), d.0, p.payload);
    }
  }

  ghost predicate NeverFails(answers: nat -> int) {
    forall k: nat :: answers(k) >= 0
  }

  predicate AllDemuxed(fates: seq<Fate>) {
    forall i :: 0 <= i < |fates| ==> fates[i].Demuxed?
  }

  lemma {:induction false} ConsumeWithoutFailure(data: seq<byte>, k: nat, answers: nat -> int)
    requires NeverFails(answers)
    ensures !Consume(data, k, answers).failed
    decreases |data|
  {
    if data != [] && 0 < answers(k) <= |data| {
      ConsumeWithoutFailure(data[answers(k)..], k + 1, answers);
    }
  }

  // ---------------------------------------------------------------- runs

  /** A packet and the demuxer's answers while it is handled. */
  datatype Arrival = Arrival(packet: Packet, answers: nat -> int)

  /** The run's final state, what the demuxer was shown in it, and the fates, all in order. */
  function Run(arrivals: seq<Arrival>): Outcome {
    if arrivals == [] then Outcome(FIRST, [], [])
    else
      var before := Run(arrivals[..|arrivals| - 1]);
      var a := arrivals[|arrivals| - 1];
      var o := Receive(before.state, a.packet, a.answers);
      Outcome(o.state, before.inputs + o.inputs, before.fates + o.fates)
  }

  function Payloads(arrivals: seq<Arrival>): seq<byte> {
    if arrivals == [] then [] else Payloads(arrivals[..|arrivals| - 1]) + arrivals[|arrivals| - 1].packet.payload
  }

  predicate Increasing(arrivals: seq<Arrival>) {
    && (forall i :: 0 <= i < |arrivals| ==> arrivals[i].packet.seqNo >= 0)
    && (forall i :: 0 < i < |arrivals| ==> arrivals[i - 1].packet.seqNo < arrivals[i].packet.seqNo)
  }

  /** How many of the last packets are numbered consecutively. */
  function Consecutive(arrivals: seq<Arrival>): (n: nat)
    ensures n <= |arrivals| && (arrivals != [] ==> n > 0)
  {
    if |arrivals| <= 1 then |arrivals|
    else
      var last := |arrivals| - 1;
      if arrivals[last].packet.seqNo == arrivals[last - 1].packet.seqNo + 1 then 1 + Consecutive(arrivals[..last])
      else 1
  }

  /** The last packets that are numbered consecutively. */
  function Recent(arrivals: seq<Arrival>): seq<Arrival> {
    arrivals[|arrivals| - Consecutive(arrivals)..]
  }

  /** Recent is what its name says: consecutive numbers, and a gap before them. */
  lemma {:induction false} RecentIsMaximal(arrivals: seq<Arrival>)
    ensures var from := |arrivals| - Consecutive(arrivals);
            && Recent(arrivals) == arrivals[from..]
            && (forall i :: from < i < |arrivals| ==> arrivals[i].packet.seqNo == arrivals[i - 1].packet.seqNo + 1)
            && (0 < from < |arrivals| ==> arrivals[from].packet.seqNo != arrivals[from - 1].packet.seqNo + 1)
    decreases |arrivals|
  {
    if |arrivals| > 1 {
      var before := arrivals[..|arrivals| - 1];
      RecentIsMaximal(before);
      assert forall i :: 0 <= i < |before| ==> before[i] == arrivals[i];
    }
  }

  lemma {:induction false} RecentGrows(arrivals: seq<Arrival>)
    requires |arrivals| > 0
    ensures var last := |arrivals| - 1;
            var before, a := arrivals[..last], arrivals[last];
            Payloads(Recent(arrivals)) ==
            if last > 0 && a.packet.seqNo != before[last - 1].packet.seqNo + 1 then a.packet.payload
            else Payloads(Recent(before)) + a.packet.payload
  {
    var last := |arrivals| - 1;
    var before, a := arrivals[..last], arrivals[last];
    var r := Recent(arrivals);
    assert Payloads([]) + a.packet.payload == a.packet.payload;
    if Consecutive(arrivals) > 1 || last == 0 {
      assert r == Recent(before) + [a];
      assert r[..|r| - 1] == Recent(before);
    } else {
      assert r == [a] && r[..0] == [];
    }
  }

  /** What the object keeps between packets. */
  predicate Kept(s: State, arrivals: seq<Arrival>) {
    && (s.lossy ==> s.buffer == [])
    && IsSuffix(s.buffer, Payloads(Recent(arrivals)))
    && (if arrivals == [] then s == FIRST else s.seqNo == arrivals[|arrivals| - 1].packet.seqNo >= 0)
  }

  /** One packet behind a stretch: without loss the buffer and every demuxer input stay ends of the stretch; after
      a loss the buffer starts afresh and nothing is demuxed. */
  lemma {:induction false} ReceiveBehind(s: State, p: Packet, answers: nat -> int, all: seq<byte>)
    requires IsSuffix(s.buffer, all)
    ensures var o := Receive(s, p, answers);
            && o.state.seqNo == p.seqNo && (o.state.lossy ==> o.state.buffer == [])
            && (if s.lossy || Gap(s, p) then o.inputs == [] && IsSuffix(o.state.buffer, p.payload)
                else IsSuffix(o.state.buffer, all + p.payload) &&
                     (AllSuffixes(o.inputs, all) || AllSuffixes(o.inputs, all + p.payload)))
  {
    if s.lossy || Gap(s, p) {
      SuffixAtEnd([], p.payload);
    } else {
      SuffixExtends(s.buffer, all, p.payload);
      DemuxKeeps(s.buffer, all, p.payload, answers);
    }
  }

  /** One packet of an increasing run: the buffer stays an end of the payloads of the consecutively numbered
      packets, and every demuxer input is such an end too, so none reaches over a gap. */
  lemma {:induction false} ReceiveKeeps(s: State, arrivals: seq<Arrival>)
    requires |arrivals| > 0 && Increasing(arrivals) && Kept(s, arrivals[..|arrivals| - 1])
    ensures var a := arrivals[|arrivals| - 1];
            var o := Receive(s, a.packet, a.answers);
            && Kept(o.state, arrivals)
            && (o.inputs == [] || !Gap(s, a.packet))
            && (AllSuffixes(o.inputs, Payloads(Recent(arrivals[..|arrivals| - 1]))) ||
                AllSuffixes(o.inputs, Payloads(Recent(arrivals))))
  {
    var last := |arrivals| - 1;
    var before, a := arrivals[..last], arrivals[last];
    var all, payload := Payloads(Recent(before)), a.packet.payload;
    RecentGrows(arrivals);
    ReceiveBehind(s, a.packet, a.answers, all);
    SuffixAtEnd(all, payload);
    var buffer := Receive(s, a.packet, a.answers).state.buffer;
    if IsSuffix(buffer, payload) {
      SuffixOfSuffix(buffer, payload, all + payload);
    }
    assert last > 0 ==> before[last - 1] == arrivals[last - 1];
  }

  lemma {:induction false} SuffixAtEnd(a: seq<byte>, b: seq<byte>)
    ensures IsSuffix(b, a + b) && IsSuffix(b, b) && IsSuffix([], b)
  {
  }

  lemma {:induction false} DemuxKeeps(buffer: seq<byte>, all: seq<byte>, payload: seq<byte>, answers: nat -> int)
    requires IsSuffix(buffer, all)
    ensures AllSuffixes(Demux(buffer, answers).1, all)
    ensures IsSuffix(Demux(buffer, answers).0 + payload, all + payload)
    ensures AllSuffixes(Demux(buffer + payload, answers).1, all + payload)
    ensures IsSuffix(Demux(buffer + payload, answers).0 + [], all + payload)
  {
    DemuxConserves(buffer, answers);
    DemuxConserves(buffer + payload, answers);
    SuffixExtends(buffer, all, payload);
    SuffixesOfSuffix(Demux(buffer, answers).1, buffer, all);
    SuffixesOfSuffix(Demux(buffer + payload, answers).1, buffer + payload, all + payload);
    SuffixOfSuffix(Demux(buffer, answers).0, buffer, all);
    SuffixExtends(Demux(buffer, answers).0, all, payload);
    SuffixOfSuffix(Demux(buffer + payload, answers).0, buffer + payload, all + payload);
    assert Demux(buffer + payload, answers).0 + [] == Demux(buffer + payload, answers).0;
  }

  lemma {:induction false} IncreasingPrefix(arrivals: seq<Arrival>, n: nat)
    requires Increasing(arrivals) && n <= |arrivals|
    ensures Increasing(arrivals[..n])
  {
  }

  /** Gap-free reassembly over any increasing run, for any demuxer. */
  lemma {:induction false} RunKeeps(arrivals: seq<Arrival>)
    requires Increasing(arrivals)
    ensures Kept(Run(arrivals).state, arrivals)
    decreases |arrivals|
  {
    if arrivals != [] {
      IncreasingPrefix(arrivals, |arrivals| - 1);
      RunKeeps(arrivals[..|arrivals| - 1]);
      ReceiveKeeps(Run(arrivals[..|arrivals| - 1]).state, arrivals);
    }
  }

  /** data is an end of the payloads of packets that are numbered consecutively. */
  predicate FromOneStretch(data: seq<byte>, arrivals: seq<Arrival>)
    decreases |arrivals|
  {
    IsSuffix(data, Payloads(Recent(arrivals))) ||
    (arrivals != [] && FromOneStretch(data, arrivals[..|arrivals| - 1]))
  }

  /** No demuxer input of the whole run spans a gap. */
  lemma {:induction false} NoInputSpansAGap(arrivals: seq<Arrival>, i: nat)
    requires Increasing(arrivals) && i < |Run(arrivals).inputs|
    ensures FromOneStretch(Run(arrivals).inputs[i], arrivals)
    decreases |arrivals|
  {
    var last := |arrivals| - 1;
    var before, a := arrivals[..last], arrivals[last];
    IncreasingPrefix(arrivals, last);
    var r := Run(before);
    if i < |r.inputs| {
      NoInputSpansAGap(before, i);
    } else {
      RunKeeps(before);
      ReceiveKeeps(r.state, arrivals);
      LastInput(r.inputs, Receive(r.state, a.packet, a.answers).inputs, arrivals, i);
    }
  }

  lemma {:induction false} LastInput(earlier: seq<seq<byte>>, inputs: seq<seq<byte>>, arrivals: seq<Arrival>, i: nat)
    requires |earlier| <= i < |earlier| + |inputs| && |arrivals| > 0
    requires AllSuffixes(inputs, Payloads(Recent(arrivals[..|arrivals| - 1]))) ||
             AllSuffixes(inputs, Payloads(Recent(arrivals)))
    ensures FromOneStretch((earlier + inputs)[i], arrivals)
  {
    var input := inputs[i - |earlier|];
    assert (earlier + inputs)[i] == input;
    if !IsSuffix(input, Payloads(Recent(arrivals))) {
      assert IsSuffix(input, Payloads(Recent(arrivals[..|arrivals| - 1])));
      assert FromOneStretch(input, arrivals[..|arrivals| - 1]);
    }
  }

  /** Over any run at all, every received byte meets one fate, in order: demuxed, dropped, or still buffered. */
  lemma {:induction false} RunConserves(arrivals: seq<Arrival>)
    ensures Bytes(Run(arrivals).fates) + Run(arrivals).state.buffer == Payloads(arrivals)
    decreases |arrivals|
  {
    if arrivals != [] {
      var before := arrivals[..|arrivals| - 1];
      var a := arrivals[|arrivals| - 1];
      RunConserves(before);
      var r := Run(before);
      var o := Receive(r.state, a.packet, a.answers);
      ReceiveConserves(r.state, a.packet, a.answers);
      BytesAppend(r.fates, o.fates);
      ConcatAssoc(Bytes(r.fates), Bytes(o.fates), o.state.buffer);
      ConcatAssoc(Bytes(r.fates), r.state.buffer, a.packet.payload);
    }
  }

  /** Without a gap and without demuxer errors no byte is dropped: by RunConserves, what the demuxer took and what
      is buffered are then exactly the payloads, in order. */
  lemma {:induction false} GapFreeRunDropsNothing(arrivals: seq<Arrival>)
    requires Increasing(arrivals) && Consecutive(arrivals) == |arrivals|
    requires forall i :: 0 <= i < |arrivals| ==> NeverFails(arrivals[i].answers)
    ensures AllDemuxed(Run(arrivals).fates) && !Run(arrivals).state.lossy
    decreases |arrivals|
  {
    if arrivals != [] {
      var before := arrivals[..|arrivals| - 1];
      var a := arrivals[|arrivals| - 1];
      IncreasingPrefix(arrivals, |arrivals| - 1);
      GapFreeRunDropsNothing(before);
      RunKeeps(before);
      StepDropsNothing(Run(before).state, a.packet, a.answers);
    }
  }

  lemma {:induction false} StepDropsNothing(s: State, p: Packet, answers: nat -> int)
    requires !s.lossy && !Gap(s, p) && NeverFails(answers)
    ensures AllDemuxed(Receive(s, p, answers).fates) && !Receive(s, p, answers).state.lossy
  {
    ConsumeWithoutFailure(s.buffer, 0, answers);
    ConsumeWithoutFailure(s.buffer + p.payload, 0, answers);
  }

  // ---------------------------------------------------------------- what does not hold

  /** A packet received twice is appended twice: increasing numbers are needed. */
  lemma {:induction false} DuplicateIsAppendedAgain(s: State, p: Packet, first: nat -> int, second: nat -> int)
    requires !s.lossy && !Gap(s, p) && FrameOf(s, p) == FrameContinue && p.seqNo >= 0
    ensures Receive(Receive(s, p, first).state, p, second).state.buffer == s.buffer + p.payload + p.payload
  {
  }

  // ---------------------------------------------------------------- where a buffer begins

  /** The i-th packet ends the wait after a loss: the buffer is restarted with it. */
  predicate Restarts(arrivals: seq<Arrival>, i: nat)
    requires i < |arrivals|
  {
    var s, p := Run(arrivals[..i]).state, arrivals[i].packet;
    (s.lossy || Gap(s, p)) && FrameOf(s, p) == FrameNextStart
  }

  /** The i-th packet begins a buffer: as the first of all, behind a marked packet, with a new timestamp, or by a
      restart. */
  predicate Begins(arrivals: seq<Arrival>, i: nat)
    requires i < |arrivals|
  {
    var s, p := Run(arrivals[..i]).state, arrivals[i].packet;
    if s.lossy || Gap(s, p) then Restarts(arrivals, i)
    else i == 0 || arrivals[i - 1].packet.mark || FrameOf(s, p) == FrameNextStart
  }

  /** What the sender sent: packets numbered consecutively. */
  predicate Numbered(sent: seq<Packet>) {
    forall i :: 0 <= i < |sent| ==> sent[i].seqNo == sent[0].seqNo + i
  }

  predicate TakenFrom(arrivals: seq<Arrival>, sent: seq<Packet>) {
    forall i :: 0 <= i < |arrivals| ==> arrivals[i].packet in sent
  }

  /** The packet sent before this one belongs to the same frame. */
  predicate SameFrame(q: Packet, p: Packet) {
    q.seqNo == p.seqNo - 1 && !q.mark && q.timestamp == p.timestamp
  }

  predicate StartsFrame(sent: seq<Packet>, p: Packet) {
    forall q <- sent :: !SameFrame(q, p)
  }

  predicate Lost(arrivals: seq<Arrival>, seqNo: int) {
    forall i :: 0 <= i < |arrivals| ==> arrivals[i].packet.seqNo != seqNo
  }

  lemma {:induction false} RunRemembers(arrivals: seq<Arrival>)
    requires arrivals != []
    ensures Run(arrivals).state.seqNo == arrivals[|arrivals| - 1].packet.seqNo
    ensures Run(arrivals).state.timestamp == arrivals[|arrivals| - 1].packet.timestamp
  {
  }

  lemma {:induction false} IncreasingApart(arrivals: seq<Arrival>, i: nat, j: nat)
    requires Increasing(arrivals) && i < j < |arrivals|
    ensures arrivals[i].packet.seqNo + (j - i) <= arrivals[j].packet.seqNo
    decreases j - i
  {
    if i + 1 < j {
      IncreasingApart(arrivals, i + 1, j);
    }
  }

  /** A packet that begins a buffer right behind its arrived predecessor is the first of its frame. */
  lemma {:induction false} BeginsBehindFrame(arrivals: seq<Arrival>, i: nat)
    requires 0 < i < |arrivals| && Begins(arrivals, i)
    ensures !SameFrame(arrivals[i - 1].packet, arrivals[i].packet)
  {
    RunRemembers(arrivals[..i]);
    assert arrivals[..i][i - 1] == arrivals[i - 1];
  }

  /** Only the packet just before can be the predecessor. */
  lemma {:induction false} PredecessorArrived(arrivals: seq<Arrival>, sent: seq<Packet>, i: nat, q: Packet)
    requires Increasing(arrivals) && Numbered(sent) && TakenFrom(arrivals, sent) && i < |arrivals|
    requires q in sent && q.seqNo == arrivals[i].packet.seqNo - 1 && !Lost(arrivals, q.seqNo)
    ensures i > 0 && arrivals[i - 1].packet == q
  {
    var j :| 0 <= j < |arrivals| && arrivals[j].packet.seqNo == q.seqNo;
    if j > i {
      IncreasingApart(arrivals, i, j);
    } else if j < i {
      IncreasingApart(arrivals, j, i);
    }
    var a :| 0 <= a < |sent| && sent[a] == q;
    var b :| 0 <= b < |sent| && sent[b] == arrivals[j].packet;
    assert sent[a].seqNo == sent[0].seqNo + a && sent[b].seqNo == sent[0].seqNo + b;
  }

  /** Where a buffer begins, over any run: inside a frame if and only if the packet sent before the one it begins
      with belongs to the same frame and was lost. */
  lemma {:induction false} InsideIffPredecessorLost(arrivals: seq<Arrival>, sent: seq<Packet>, i: nat)
    requires Increasing(arrivals) && Numbered(sent) && TakenFrom(arrivals, sent)
    requires i < |arrivals| && Begins(arrivals, i)
    ensures !StartsFrame(sent, arrivals[i].packet) <==>
            exists q :: q in sent && SameFrame(q, arrivals[i].packet) && Lost(arrivals, q.seqNo)
  {
    forall q | q in sent && SameFrame(q, arrivals[i].packet) ensures Lost(arrivals, q.seqNo) {
      if !Lost(arrivals, q.seqNo) {
        PredecessorArrived(arrivals, sent, i, q);
        BeginsBehindFrame(arrivals, i);
        assert false;
      }
    }
  }

  /** The packet with this number as it arrived, or else one of this timestamp. */
  function Guess(arrivals: seq<Arrival>, seqNo: int, timestamp: int): (p: Packet)
    ensures p.seqNo == seqNo
  {
    if arrivals == [] then Packet(false, seqNo, timestamp, [])
    else if arrivals[|arrivals| - 1].packet.seqNo == seqNo then arrivals[|arrivals| - 1].packet
    else Guess(arrivals[..|arrivals| - 1], seqNo, timestamp)
  }

  lemma {:induction false} GuessFits(arrivals: seq<Arrival>, i: nat, timestamp: int)
    requires Increasing(arrivals) && i < |arrivals|
    ensures Guess(arrivals, arrivals[i].packet.seqNo, timestamp) == arrivals[i].packet
    decreases |arrivals|
  {
    var last := |arrivals| - 1;
    if i < last {
      IncreasingApart(arrivals, i, last);
      IncreasingPrefix(arrivals, last);
      GuessFits(arrivals[..last], i, timestamp);
    }
  }

  lemma {:induction false} GuessOfLost(arrivals: seq<Arrival>, seqNo: int, timestamp: int)
    requires Lost(arrivals, seqNo)
    ensures Guess(arrivals, seqNo, timestamp) == Packet(false, seqNo, timestamp, [])
  {
    if arrivals != [] {
      GuessOfLost(arrivals[..|arrivals| - 1], seqNo, timestamp);
    }
  }

  /** A sender's stream up to the last packet that fits what arrived, in which a lost last but one packet is of the
      last packet's frame. */
  lemma {:induction false} SomeStreamFits(arrivals: seq<Arrival>) returns (sent: seq<Packet>)
    requires Increasing(arrivals) && arrivals != []
    ensures Numbered(sent) && TakenFrom(arrivals, sent)
    ensures var p := arrivals[|arrivals| - 1].packet;
            p.seqNo > 0 && Lost(arrivals, p.seqNo - 1) ==> !StartsFrame(sent, p)
  {
    var last := |arrivals| - 1;
    var p := arrivals[last].packet;
    sent := seq(p.seqNo + 1, k => Guess(arrivals, k, p.timestamp));
    forall i | 0 <= i < |arrivals| ensures arrivals[i].packet in sent {
      if i < last {
        IncreasingApart(arrivals, i, last);
      }
      GuessFits(arrivals, i, p.timestamp);
      assert sent[arrivals[i].packet.seqNo] == arrivals[i].packet;
    }
    if p.seqNo > 0 && Lost(arrivals, p.seqNo - 1) {
      GuessOfLost(arrivals, p.seqNo - 1, p.timestamp);
      assert SameFrame(sent[p.seqNo - 1], p);
    }
  }

  /** What the receiver can know: that a restart is at a frame start is certain exactly when the packet's number
      follows the last one's. Otherwise some stream that fits all that arrived has it inside a frame. */
  lemma {:induction false} StartIsCertainIffNext(arrivals: seq<Arrival>)
    requires Increasing(arrivals) && |arrivals| > 1 && Restarts(arrivals, |arrivals| - 1)
    ensures var p := arrivals[|arrivals| - 1].packet;
            (forall sent | Numbered(sent) && TakenFrom(arrivals, sent) :: StartsFrame(sent, p)) <==>
            p.seqNo == arrivals[|arrivals| - 2].packet.seqNo + 1
  {
    var last := |arrivals| - 1;
    var p := arrivals[last].packet;
    if p.seqNo == arrivals[last - 1].packet.seqNo + 1 {
      forall sent | Numbered(sent) && TakenFrom(arrivals, sent) ensures StartsFrame(sent, p) {
        InsideIffPredecessorLost(arrivals, sent, last);
      }
    } else {
      forall i | 0 <= i < |arrivals| ensures arrivals[i].packet.seqNo != p.seqNo - 1 {
        if i < last - 1 {
          IncreasingApart(arrivals, i, last - 1);
        }
      }
      var sent := SomeStreamFits(arrivals);
    }
  }

  /** The next packet of a frame that is not finished yet. */
  predicate Continues(before: Packet, p: Packet) {
    p.seqNo == before.seqNo + 1 && p.timestamp == before.timestamp
  }

  /** The i-th packet restarted the buffer, and those behind it belong to its frame. */
  predicate Collecting(arrivals: seq<Arrival>, i: nat) {
    && i < |arrivals| && Restarts(arrivals, i)
    && forall j :: i < j < |arrivals| ==>
         Continues(arrivals[j - 1].packet, arrivals[j].packet) && !arrivals[j].packet.mark
  }

  lemma {:induction false} RestartStep(s: State, p: Packet, answers: nat -> int)
    requires s.lossy || Gap(s, p)
    requires FrameOf(s, p) == FrameNextStart
    ensures !Receive(s, p, answers).state.lossy && Receive(s, p, answers).state.buffer == p.payload
  {
  }

  lemma {:induction false} ContinueStep(s: State, p: Packet, answers: nat -> int)
    requires !s.lossy && p.seqNo == s.seqNo + 1 && p.timestamp == s.timestamp && !p.mark
    ensures !Receive(s, p, answers).state.lossy && Receive(s, p, answers).state.buffer == s.buffer + p.payload
  {
  }

  /** Behind a restart the buffer collects the frame from there on. */
  lemma {:induction false} RestartCollects(arrivals: seq<Arrival>, i: nat)
    requires Collecting(arrivals, i)
    ensures !Run(arrivals).state.lossy && Run(arrivals).state.buffer == Payloads(arrivals[i..])
    decreases |arrivals|
  {
    var last := |arrivals| - 1;
    var before, a := arrivals[..last], arrivals[last];
    assert arrivals[i..][..last - i] == before[i..];
    if i == last {
      assert Payloads([]) == [] && arrivals[i..] == [a];
      RestartStep(Run(before).state, a.packet, a.answers);
    } else {
      assert before[..i] == arrivals[..i];
      RestartCollects(before, i);
      RunRemembers(before);
      ContinueStep(Run(before).state, a.packet, a.answers);
    }
  }

  lemma {:induction false} MarkedIsShown(s: State, p: Packet, answers: nat -> int)
    requires !s.lossy && p.seqNo == s.seqNo + 1 && p.mark && s.buffer + p.payload != []
    ensures Receive(s, p, answers).inputs != [] && Receive(s, p, answers).inputs[0] == s.buffer + p.payload
  {
    ConsumeShowsSuffixes(s.buffer + p.payload, 0, answers);
  }

  /** A restart inside a frame is not noticed: when the frame's marked packet comes, the demuxer is shown what
      came of the frame from the restart on. */
  lemma {:induction false} RestartIsShown(arrivals: seq<Arrival>, i: nat, end: Packet, answers: nat -> int)
    requires Collecting(arrivals, i) && Continues(arrivals[|arrivals| - 1].packet, end) && end.mark
    requires Payloads(arrivals[i..]) + end.payload != []
    ensures var shown := Receive(Run(arrivals).state, end, answers).inputs;
            shown != [] && shown[0] == Payloads(arrivals[i..]) + end.payload
  {
    RestartCollects(arrivals, i);
    RunRemembers(arrivals);
    MarkedIsShown(Run(arrivals).state, end, answers);
  }

  // ---------------------------------------------------------------- the object

  class PackProcStat {
    var rSeq: int
    var rTimeStamp: int
    var rState: int
    var rlen: nat
    var rNow: nat
    var rBuf: array<byte>
    var unpackHnd: bool

    ghost predicate Valid()
      reads this
    {
      rlen == rBuf.Length && rNow <= rlen && (rState == 1 || rState == 2)
    }

    ghost function Contents(): State
      reads this, rBuf
      requires Valid()
    {
      State(rSeq, rTimeStamp, rState == 2, rBuf[..rNow], unpackHnd)
    }

    constructor ()
      ensures Valid() && fresh(rBuf) && Contents() == FIRST && rlen == INITIAL_CAPACITY
    {
      rSeq, rTimeStamp, rState, rlen, rNow, unpackHnd := -1, 0, 1, INITIAL_CAPACITY, 0, false;
      rBuf := new byte[INITIAL_CAPACITY];
    }

    /** Reallocates, with some room to spare, when that many more bytes do not fit. */
    method MakeRoom(count: nat)
      requires Valid()
      modifies this`rlen, this`rBuf
      ensures Valid() && (rBuf == old(rBuf) || fresh(rBuf)) && rlen >= old(rlen) && rNow + count <= rlen
      ensures rBuf[..rNow] == old(rBuf[..rNow])
    {
      if rlen < count + rNow {
        rlen := count + rNow + HEADROOM;
        var grown := new byte[rlen];
        forall i | 0 <= i < rNow {
          grown[i] := rBuf[i];
        }
        rBuf := grown;
      }
    }

    /** Appends a payload, first reallocating when it does not fit. */
    method Append(payload: seq<byte>)
      requires Valid()
      modifies this`rlen, this`rNow, this`rBuf, rBuf
      ensures Valid() && (rBuf == old(rBuf) || fresh(rBuf)) && rlen >= old(rlen)
      ensures rBuf[..rNow] == old(rBuf[..rNow]) + payload
    {
      MakeRoom(|payload|);
      ghost var before := rBuf[..rNow];
      forall i | 0 <= i < |payload| {
        rBuf[rNow + i] := payload[i];
      }
      assert forall i :: 0 <= i < rNow ==> rBuf[i] == before[i];
      rNow := rNow + |payload|;
      assert rBuf[..rNow] == before + payload;
    }

    /** Shows the demuxer the buffer until it is used up, blocked or in error. */
    method FeedDemuxer(answers: nat -> int) returns (inputs: seq<seq<byte>>, offset: nat, lastRet: int)
      requires Valid()
      ensures Consume(rBuf[..rNow], 0, answers) == Consumption(inputs, offset, offset < rNow && lastRet < 0)
    {
      inputs := [];
      ghost var data := rBuf[..rNow];
      ghost var whole := Consume(data, 0, answers);
      var k := 0;
      offset, lastRet := 0, 0;
      ConsumeBegins(data, answers);
      while offset < rNow
        invariant offset <= rNow == |data| && lastRet >= 0
        invariant whole == Behind(inputs, offset, Consume(data[offset..], k, answers))
        decreases rNow - offset
      {
        ghost var before := inputs;
        inputs := inputs + [rBuf[offset..rNow]];
        assert inputs == before + [data[offset..]];
        lastRet := answers(k);
        if lastRet <= 0 || lastRet > rNow - offset {
          ConsumeStops(data, offset, k, answers, before);
          return;
        }
        ConsumeTakes(data, offset, k, answers, before);
        offset := offset + lastRet;
        k := k + 1;
      }
      ConsumeEnds(data, k, answers, inputs);
    }

    /** Demuxes the buffer and keeps what was not taken; an error drops it and the demuxer. */
    method ConsumeBuffer(answers: nat -> int) returns (inputs: seq<seq<byte>>)
      requires Valid()
      modifies this`rNow, this`unpackHnd, rBuf
      ensures Valid()
      ensures var d := Demux(old(rBuf[..rNow]), answers);
              rBuf[..rNow] == d.0 && inputs == d.1 && unpackHnd == d.3
    {
      unpackHnd := true;
      var offset, lastRet;
      inputs, offset, lastRet := FeedDemuxer(answers);
      if offset < rNow {
        var left := rNow - offset;
        if lastRet < 0 {
          unpackHnd := false;
          rNow := 0;
        } else {
          forall i | 0 <= i < left {
            rBuf[i] := rBuf[offset + i];
          }
          rNow := left;
        }
      } else {
        rNow := 0;
      }
    }

    /** Waiting out a loss: what is buffered cannot be trusted, and only the start of a frame ends the wait. */
    method AwaitFrameStart(frame: FrameStat, payload: seq<byte>)
      requires Valid() && rState == 2
      modifies this`rState, this`rNow, this`rlen, this`rBuf, rBuf
      ensures Valid() && (rBuf == old(rBuf) || fresh(rBuf)) && rlen >= old(rlen)
      ensures rState == if frame == FrameNextStart then 1 else 2
      ensures rBuf[..rNow] == if frame == FrameNextStart then payload else []
    {
      if rNow > 0 {
        forall i | 0 <= i < rNow {
          rBuf[i] := 0;
        }
        rNow := 0;
      }
      if frame == FrameNextStart {
        Append(payload);
        rState := 1;
      }
    }

    /** Without a loss: the packet joins the frame it belongs to, and a finished frame is demuxed. */
    method Collect(frame: FrameStat, payload: seq<byte>, answers: nat -> int) returns (inputs: seq<seq<byte>>)
      requires Valid()
      modifies this`rlen, this`rNow, this`rBuf, this`unpackHnd, rBuf
      ensures Valid() && (rBuf == old(rBuf) || fresh(rBuf)) && rlen >= old(rlen)
      ensures var before := old(rBuf[..rNow]);
              if frame == FrameContinue then
                rBuf[..rNow] == before + payload && inputs == [] && unpackHnd == old(unpackHnd)
              else
                var d := Demux(if frame == FrameCurFinish then before + payload else before, answers);
                && rBuf[..rNow] == d.0 + (if frame == FrameNextStart then payload else [])
                && inputs == d.1 && unpackHnd == d.3
    {
      inputs := [];
      if frame != FrameNextStart {
        Append(payload);
      }
      if frame != FrameContinue {
        inputs := ConsumeBuffer(answers);
        if frame == FrameNextStart {
          Append(payload);
        }
      }
    }

    method OnRtpPacketProcPs(mark: bool, curSeq: int, timestamp: int, payload: seq<byte>, answers: nat -> int)
      returns (inputs: seq<seq<byte>>)
      requires Valid()
      modifies this, rBuf
      ensures Valid() && (rBuf == old(rBuf) || fresh(rBuf)) && rlen >= old(rlen)
      ensures var o := Receive(old(Contents()), Packet(mark, curSeq, timestamp, payload), answers);
              Contents() == o.state && inputs == o.inputs
    {
      inputs := [];
      var frame := if mark then FrameCurFinish else FrameContinue;
      if rSeq == -1 {
        rSeq := curSeq;
      }
      if rTimeStamp == 0 {
        rTimeStamp := timestamp;
      }
      if curSeq - rSeq > 1 {
        rState := 2;
      }
      if frame == FrameContinue && timestamp != rTimeStamp {
        frame := FrameNextStart;
      }
      rSeq := curSeq;
      rTimeStamp := timestamp;
      if rState == 1 {
        inputs := Collect(frame, payload, answers);
      } else {
        AwaitFrameStart(frame, payload);
      }
    }
  }
}
