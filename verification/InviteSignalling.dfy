/** The INVITE / ACK / BYE life cycle: InviteServerCapability and InviteClientCapability of
    src/capabilities/GB28181Capabilities.cpp and the call requests of src/core/GB28181Node.cpp. */
module InviteSignalling {
  import opened Common
  import opened Text
  import Sdp
  import opened MediaSessions
  import opened MediaTables
  import opened MediaManagement

  /** The parts of a SIP request or response the handlers look at. */
  datatype SipMessage = SipMessage(
    fromId: string, toId: string, callId: string, cseq: string, contact: string, statusCode: int, body: string)

  datatype Reply = NoReply | Reply(statusCode: int, body: string)

  datatype Handled = Handled(media: MediaState, ok: bool, reply: Reply)

  const NOTHING_SENT := SentTotals(0, 0, 0)

  // ---------------------------------------------------------------- the answering side

  function ServerSessionId(request: SipMessage): (id: string)
    ensures id != ""
  {
    if request.callId != "" then "InviteServerCapability:dialog:" + request.callId
    else "InviteServerCapability:" + request.fromId
  }

  function ServerSession(request: SipMessage, offer: Sdp.SdpInfo, port: int, localIp: Option<string>): MediaSessionInfo {
    MediaSessionInfo(ServerSessionId(request), request.fromId, "",
                     if localIp.Some? then localIp.value else offer.connectionIp, port,
                     offer.connectionIp, offer.mediaPort, offer.transport, offer.direction, offer.ssrc,
                     request.callId, request.cseq, request.contact, "stream-requested", NOTHING_SENT, IDLE_STREAM)
  }

  /** `localIp` is the address of the endpoint that answers, if one is configured. */
  function ServerInvite(m: MediaState, request: SipMessage, localIp: Option<string>): Handled {
    var a := Allocate(m.pool);
    var held := m.(pool := a.pool);
    if a.port <= 0 then Handled(held, false, NoReply)
    else
      match Sdp.Parse(request.body)
      case None => Handled(held.(pool := Release(held.pool, a.port)), false, Reply(400, ""))
      case Some(offer) =>
        var session := ServerSession(request, offer, a.port, localIp);
        var c := CreateSession(held, session);
        if !c.ok then Handled(c.media.(pool := Release(c.media.pool, a.port)), false, Reply(500, ""))
        else
          Handled(c.media, true,
                  Reply(200, Sdp.BuildInviteResponseSdp(request.toId, session.localIp, a.port, offer)))
  }

  /** `running` is the adapter's report, `starts` its answer to being started. */
  function ServerAck(m: MediaState, request: SipMessage, running: bool, starts: bool, rtpError: string): Handled {
    var id := ServerSessionId(request);
    if id !in m.sessions then Handled(m, false, NoReply)
    else if m.sessions[id].inviteCseq != "" && request.cseq != "" && m.sessions[id].inviteCseq != request.cseq then
      Handled(m, false, NoReply)
    else if id in m.adapters && running then
      Handled(UpdateSessionState(m, id, "stream-confirmed").media, true, NoReply)
    else
      var started := StartAdapter(m, id, starts);
      if !started.ok then Handled(UpdateSessionState(m, id, "rtp-start-failed:" + rtpError).media, false, NoReply)
      else Handled(UpdateSessionState(started.media, id, "stream-confirmed").media, true, NoReply)
  }

  function ServerBye(m: MediaState, request: SipMessage): Handled {
    var c := CloseSession(m, ServerSessionId(request));
    Handled(c.media, c.ok, Reply(if c.ok then 200 else 481, ""))
  }

  // ---------------------------------------------------------------- the calling side

  function ClientSessionId(callId: string): string {
    "InviteClientCapability:dialog:" + callId
  }

  function Confirmed(session: MediaSessionInfo, answer: Sdp.SdpInfo, contact: string): MediaSessionInfo {
    session.(remoteIp := answer.connectionIp, remoteRtpPort := answer.mediaPort, transport := answer.transport,
             direction := answer.direction, remoteContact := contact, state := "stream-confirmed")
  }

  /** A response to an INVITE of ours. `peerFound` tells whether the registry knows the peer, `ackSent`
      whether the ACK went out. */
  function ClientResponse(m: MediaState, response: SipMessage, peerFound: bool, ackSent: bool): Handled {
    var id := ClientSessionId(response.callId);
    var existing := response.callId != "" && id in m.sessions;
    if 200 <= response.statusCode < 300 then
      if !peerFound then Handled(m, false, NoReply)
      else if !existing then Handled(m, ackSent, NoReply)
      else
        match Sdp.Parse(response.body)
        case None => Handled(CloseSession(m, id).media, false, NoReply)
        case Some(answer) =>
          var u := UpdateSession(m, Confirmed(m.sessions[id], answer, response.contact));
          if !u.ok || !ackSent then Handled(CloseSession(u.media, id).media, false, NoReply)
          else Handled(u.media, true, NoReply)
    else Handled(if existing then CloseSession(m, id).media else m, true, NoReply)
  }

  datatype Relation = Upstream | Downstream

  datatype Peer = Peer(relation: Relation, registered: bool, ip: string)

  /** What a node needs to place a call: its own identity, a fresh Call-ID and an SSRC. */
  datatype CallOrder = CallOrder(deviceId: string, localId: string, localIp: string, callId: string, ssrc: string)

  predicate Routable(owners: seq<string>, peers: map<string, Peer>) {
    |owners| == 1 && owners[0] in peers && peers[owners[0]].relation == Downstream && peers[owners[0]].registered
  }

  function ClientSession(order: CallOrder, peerId: string, peerIp: string, port: int): MediaSessionInfo {
    MediaSessionInfo(ClientSessionId(order.callId), peerId, order.deviceId, order.localIp, port, peerIp, 0, "RTP/AVP",
                     "recvonly", order.ssrc, order.callId, "1", "", "invite-requested", NOTHING_SENT, IDLE_STREAM)
  }

  /** Placing a call: the reply is the INVITE body that goes out. `starts` is the adapter's answer, `sends`
      that of the SIP stack. */
  function RequestInvite(
    m: MediaState, order: CallOrder, owners: seq<string>, peers: map<string, Peer>, starts: bool, sends: bool): Handled
  {
    if !Routable(owners, peers) then Handled(m, false, NoReply)
    else
      var a := Allocate(m.pool);
      var held := m.(pool := a.pool);
      if a.port <= 0 then Handled(held, false, NoReply)
      else
        var session := ClientSession(order, owners[0], peers[owners[0]].ip, a.port);
        var c := CreateSession(held, session);
        if !c.ok then Handled(c.media.(pool := Release(c.media.pool, a.port)), false, NoReply)
        else
          var started := StartAdapter(c.media, session.id, starts);
          if !started.ok then Handled(CloseSession(started.media, session.id).media, false, NoReply)
          else if !sends then Handled(CloseSession(started.media, session.id).media, false, NoReply)
          else
            Handled(started.media, true,
                    Reply(0, Sdp.BuildInviteSdp(order.localId, order.localIp, a.port, order.ssrc)))
  }

  function StreamsOf(m: MediaState, deviceId: string): set<string> {
    set id | id in m.sessions && m.sessions[id].targetDeviceId == deviceId
  }

  /** Ending a call is possible when exactly one stream shows the device and its peer is known. */
  predicate Endable(m: MediaState, deviceId: string, peers: map<string, Peer>, id: string) {
    StreamsOf(m, deviceId) == {id} && id in m.sessions && m.sessions[id].peerId in peers
  }

  // ---------------------------------------------------------------- ownership step by step

  lemma {:induction false} ServerInviteKeepsOwned(m: MediaState, request: SipMessage, localIp: Option<string>)
    requires Owned(m, {})
    ensures var h := ServerInvite(m, request, localIp); Owned(h.media, {}) && Ports(h.media) == Ports(m)
  {
    AllocateKeepsOwned(m);
    var a := Allocate(m.pool);
    var held := m.(pool := a.pool);
    if a.port > 0 {
      match Sdp.Parse(request.body)
      case None => ReleaseLooseKeepsOwned(held, a.port);
      case Some(offer) => CreateKeepsOwned(held, ServerSession(request, offer, a.port, localIp));
    }
  }

  lemma {:induction false} StartKeepsOwned(m: MediaState, id: string, starts: bool)
    requires Owned(m, {})
    ensures Owned(StartAdapter(m, id, starts).media, {}) && Ports(StartAdapter(m, id, starts).media) == Ports(m)
  {
  }

  lemma {:induction false} ServerAckKeepsOwned(m: MediaState, request: SipMessage, running: bool, starts: bool, rtpError: string)
    requires Owned(m, {})
    ensures var h := ServerAck(m, request, running, starts, rtpError); Owned(h.media, {}) && Ports(h.media) == Ports(m)
  {
    var id := ServerSessionId(request);
    var started := StartAdapter(m, id, starts);
    StartKeepsOwned(m, id, starts);
    UpdateStateKeepsOwned(m, id, "stream-confirmed", {});
    UpdateStateKeepsOwned(m, id, "rtp-start-failed:" + rtpError, {});
    UpdateStateKeepsOwned(started.media, id, "stream-confirmed", {});
  }

  lemma {:induction false} ClientResponseKeepsOwned(m: MediaState, response: SipMessage, peerFound: bool, ackSent: bool)
    requires Owned(m, {})
    ensures var h := ClientResponse(m, response, peerFound, ackSent); Owned(h.media, {}) && Ports(h.media) == Ports(m)
  {
    var id := ClientSessionId(response.callId);
    CloseKeepsOwned(m, id, {});
    if id in m.sessions && Sdp.Parse(response.body).Some? {
      var confirmed := Confirmed(m.sessions[id], Sdp.Parse(response.body).value, response.contact);
      UpdateKeepsOwned(m, confirmed, {});
      CloseKeepsOwned(UpdateSession(m, confirmed).media, id, {});
    }
  }

  lemma {:induction false} RequestInviteKeepsOwned(
    m: MediaState, order: CallOrder, owners: seq<string>, peers: map<string, Peer>, starts: bool, sends: bool)
    requires Owned(m, {})
    ensures var h := RequestInvite(m, order, owners, peers, starts, sends); Owned(h.media, {}) && Ports(h.media) == Ports(m)
  {
    AllocateKeepsOwned(m);
    var a := Allocate(m.pool);
    var held := m.(pool := a.pool);
    if Routable(owners, peers) && a.port > 0 {
      var session := ClientSession(order, owners[0], peers[owners[0]].ip, a.port);
      CreateKeepsOwned(held, session);
      var c := CreateSession(held, session);
      var started := StartAdapter(c.media, session.id, starts);
      StartKeepsOwned(c.media, session.id, starts);
      CloseKeepsOwned(started.media, session.id, {});
    }
  }

  // ---------------------------------------------------------------- whole runs

  /** One thing that can happen to a node's calls, with the answers of its surroundings. */
  datatype Event =
    | InviteArrives(request: SipMessage, localIp: Option<string>)
    | AckArrives(request: SipMessage, running: bool, starts: bool, rtpError: string)
    | ByeArrives(request: SipMessage)
    | ResponseArrives(response: SipMessage, peerFound: bool, ackSent: bool)
    | CallPlaced(order: CallOrder, owners: seq<string>, peers: map<string, Peer>, starts: bool, sends: bool)
    | CallEnded(id: string)

  function Step(m: MediaState, e: Event): MediaState {
    match e
    case InviteArrives(request, localIp) => ServerInvite(m, request, localIp).media
    case AckArrives(request, running, starts, rtpError) => ServerAck(m, request, running, starts, rtpError).media
    case ByeArrives(request) => ServerBye(m, request).media
    case ResponseArrives(response, peerFound, ackSent) => ClientResponse(m, response, peerFound, ackSent).media
    case CallPlaced(order, owners, peers, starts, sends) => RequestInvite(m, order, owners, peers, starts, sends).media
    case CallEnded(id) => CloseSession(m, id).media
  }

  function RunAll(m: MediaState, events: seq<Event>): MediaState {
    if events == [] then m else Step(RunAll(m, events[..|events| - 1]), events[|events| - 1])
  }

  lemma {:induction false} StepKeepsOwned(m: MediaState, e: Event)
    requires Owned(m, {})
    ensures Owned(Step(m, e), {}) && Ports(Step(m, e)) == Ports(m)
  {
    match e
    case InviteArrives(request, localIp) => ServerInviteKeepsOwned(m, request, localIp);
    case AckArrives(request, running, starts, rtpError) => ServerAckKeepsOwned(m, request, running, starts, rtpError);
    case ByeArrives(request) => CloseKeepsOwned(m, ServerSessionId(request), {});
    case ResponseArrives(response, peerFound, ackSent) => ClientResponseKeepsOwned(m, response, peerFound, ackSent);
    case CallPlaced(order, owners, peers, starts, sends) => RequestInviteKeepsOwned(m, order, owners, peers, starts, sends);
    case CallEnded(id) => CloseKeepsOwned(m, id, {});
  }

  /** Over whole signalling runs, whatever the surroundings answer: the allocated ports are exactly the local
      ports of the live sessions, one session per port, adapters only for live sessions, the set of ports the
      node manages never changes, and available ports plus sessions is the configured count. */
  lemma {:induction false} RunKeepsOwned(m: MediaState, events: seq<Event>)
    requires Owned(m, {})
    ensures var n := RunAll(m, events);
            && Owned(n, {}) && Ports(n) == Ports(m)
            && |n.pool.available| + |n.sessions| == |Ports(m)|
  {
    if events != [] {
      RunKeepsOwned(m, events[..|events| - 1]);
      StepKeepsOwned(RunAll(m, events[..|events| - 1]), events[|events| - 1]);
    }
    OwnedCounts(RunAll(m, events));
  }

  /** What an INVITE comes to: silence when no port is free, 400 for a body that is no offer, and otherwise a
      session on the first free port, answered with that port. The source's 500 branch cannot be taken. */
  lemma {:induction false} ServerInviteOutcome(m: MediaState, request: SipMessage, localIp: Option<string>)
    requires Owned(m, {})
    ensures var h := ServerInvite(m, request, localIp);
            && (m.pool.queue == [] ==> h == Handled(m, false, NoReply))
            && (m.pool.queue != [] && Sdp.Parse(request.body).None? ==>
                  && !h.ok && h.reply == Reply(400, "") && h.media.sessions == m.sessions
                  && h.media.pool == Pool(m.pool.queue[1..] + [m.pool.queue[0]], m.pool.available, m.pool.taken))
            && (m.pool.queue != [] && Sdp.Parse(request.body).Some? ==>
                  var session := ServerSession(request, Sdp.Parse(request.body).value, m.pool.queue[0], localIp);
                  && h.ok && h.media.sessions == m.sessions[session.id := session]
                  && h.reply == Reply(200, Sdp.BuildInviteResponseSdp(request.toId, session.localIp, session.localRtpPort,
                                                                     Sdp.Parse(request.body).value)))
  {
    AllocateFromValid(m.pool);
    if m.pool.queue != [] {
      var port := m.pool.queue[0];
      assert port in m.pool.available;
      var taken := Allocate(m.pool).pool;
      ReleaseToValid(taken, port);
      assert taken.available + {port} == m.pool.available && taken.taken - {port} == m.pool.taken;
    }
  }

  /** A repeated INVITE of the same dialog swaps the session's port and leaves the number of free ports and
      of sessions alone. */
  lemma {:induction false} ReInviteConserves(m: MediaState, request: SipMessage, localIp: Option<string>)
    requires Owned(m, {}) && ServerSessionId(request) in m.sessions && ServerInvite(m, request, localIp).ok
    ensures var h := ServerInvite(m, request, localIp);
            && h.media.sessions.Keys == m.sessions.Keys
            && |h.media.pool.available| == |m.pool.available|
            && h.media.sessions[ServerSessionId(request)].localRtpPort == m.pool.queue[0]
  {
    ServerInviteOutcome(m, request, localIp);
    ServerInviteKeepsOwned(m, request, localIp);
    SameSessionsSamePorts(m, ServerInvite(m, request, localIp).media);
  }

  lemma {:induction false} SameSessionsSamePorts(m: MediaState, n: MediaState)
    requires Owned(m, {}) && Owned(n, {}) && Ports(m) == Ports(n) && m.sessions.Keys == n.sessions.Keys
    ensures |m.pool.available| == |n.pool.available|
  {
    OwnedCounts(m);
    OwnedCounts(n);
    assert |m.sessions| == |m.sessions.Keys| && |n.sessions| == |n.sessions.Keys|;
  }

  lemma {:induction false} SessionUpdates(m: MediaState, session: MediaSessionInfo)
    requires Owned(m, {}) && session.id in m.sessions && m.sessions[session.id].localRtpPort == session.localRtpPort
    ensures UpdateSession(m, session) == Change(m.(sessions := m.sessions[session.id := session]), true)
  {
    assert session.localRtpPort in SessionPorts(m.sessions);
    assert session.localRtpPort in m.pool.available + m.pool.taken;
  }

  /** The response is a success that ends well, or one whose peer the registry no longer knows. */
  predicate KeepsCall(response: SipMessage, peerFound: bool, ackSent: bool) {
    200 <= response.statusCode < 300 && (!peerFound || (Sdp.Parse(response.body).Some? && ackSent))
  }

  /** When a call survives a response to its INVITE: exactly on a success whose peer is unknown, or whose body
      parses and is acknowledged; a session kept for a known peer is confirmed. Any other response closes it, a
      provisional one like 180 included, with its adapter, and frees its port. A response to no call of ours
      changes nothing. */
  lemma {:induction false} ResponseKeepsSession(m: MediaState, response: SipMessage, peerFound: bool, ackSent: bool)
    requires var id := ClientSessionId(response.callId);
             Owned(m, {}) && (id in m.sessions ==> m.sessions[id].id == id)
    ensures var id := ClientSessionId(response.callId);
            var after := ClientResponse(m, response, peerFound, ackSent).media;
            if response.callId == "" || id !in m.sessions then after == m
            else if KeepsCall(response, peerFound, ackSent) then
              && after.pool == m.pool && after.adapters == m.adapters
              && after.sessions ==
                 if peerFound then
                   m.sessions[id := Confirmed(m.sessions[id], Sdp.Parse(response.body).value, response.contact)]
                 else m.sessions
            else
              && after.sessions == m.sessions - {id} && after.adapters == m.adapters - {id}
              && after.pool.available == m.pool.available + {m.sessions[id].localRtpPort}
  {
    var id := ClientSessionId(response.callId);
    if id in m.sessions {
      var session := m.sessions[id];
      assert session.localRtpPort in SessionPorts(m.sessions);
      ReleaseToValid(m.pool, session.localRtpPort);
      if Sdp.Parse(response.body).Some? {
        var confirmed := Confirmed(session, Sdp.Parse(response.body).value, response.contact);
        SessionUpdates(m, confirmed);
        assert m.sessions[id := confirmed] - {id} == m.sessions - {id};
      }
    }
  }

  // ---------------------------------------------------------------- a call between two nodes

  /** The INVITE, its 200 and later the BYE, as the other side sees them. */
  function InviteFrom(order: CallOrder, body: string): SipMessage {
    SipMessage(order.localId, order.deviceId, order.callId, "1", "", 0, body)
  }

  function AnswerTo(order: CallOrder, body: string): SipMessage {
    SipMessage(order.deviceId, order.localId, order.callId, "1", "", 200, body)
  }

  lemma {:induction false} PlacedCall(
    m: MediaState, order: CallOrder, owners: seq<string>, peers: map<string, Peer>)
    requires Owned(m, {}) && m.pool.queue != [] && Routable(owners, peers)
    requires ClientSessionId(order.callId) !in m.sessions
    ensures var h := RequestInvite(m, order, owners, peers, true, true);
            var session := ClientSession(order, owners[0], peers[owners[0]].ip, m.pool.queue[0]);
            && h.ok && h.media.sessions == m.sessions[session.id := session]
            && h.reply == Reply(0, Sdp.BuildInviteSdp(order.localId, order.localIp, m.pool.queue[0], order.ssrc))
  {
    AllocateFromValid(m.pool);
    assert m.pool.queue[0] in m.pool.available;
  }

  lemma {:induction false} AnsweredCall(m: MediaState, response: SipMessage, answer: Sdp.SdpInfo)
    requires Owned(m, {}) && 200 <= response.statusCode < 300 && response.callId != ""
    requires ClientSessionId(response.callId) in m.sessions && Sdp.Parse(response.body) == Some(answer)
    requires m.sessions[ClientSessionId(response.callId)].id == ClientSessionId(response.callId)
    ensures var id := ClientSessionId(response.callId);
            var h := ClientResponse(m, response, true, true);
            h.ok && h.media.sessions == m.sessions[id := Confirmed(m.sessions[id], answer, response.contact)]
  {
    var session := m.sessions[ClientSessionId(response.callId)];
    assert session.localRtpPort in SessionPorts(m.sessions);
    assert session.localRtpPort in m.pool.available + m.pool.taken;
  }

  /** Call set-up across two nodes: when the INVITE body reaches the other side and its 200 comes back, the
      two sessions name each other's address and port, share transport and SSRC, and each records the direction
      the other side wrote: the caller, who asked to receive, ends as "sendonly", the callee as "recvonly". */
  lemma {:induction false} CallSetUp(
    caller: MediaState, callee: MediaState, order: CallOrder, owners: seq<string>, peers: map<string, Peer>,
    calleeIp: string)
    requires Owned(caller, {}) && caller.pool.queue != [] && caller.pool.queue[0] <= INT_MAX
    requires Owned(callee, {}) && callee.pool.queue != [] && callee.pool.queue[0] <= INT_MAX
    requires Routable(owners, peers) && order.callId != "" && ClientSessionId(order.callId) !in caller.sessions
    requires Sdp.Token(order.localId) && Sdp.Token(order.localIp) && Sdp.CleanValue(order.ssrc)
    requires Sdp.Token(order.deviceId) && Sdp.Token(calleeIp)
    ensures var placed := RequestInvite(caller, order, owners, peers, true, true);
            && placed.ok
            && var invited := ServerInvite(callee, InviteFrom(order, placed.reply.body), Some(calleeIp));
               && invited.ok
               && var answered := ClientResponse(placed.media, AnswerTo(order, invited.reply.body), true, true);
                  && answered.ok
                  && ClientSessionId(order.callId) in answered.media.sessions
                  && ServerSessionId(InviteFrom(order, "")) in invited.media.sessions
                  && var mine := answered.media.sessions[ClientSessionId(order.callId)];
                     var theirs := invited.media.sessions[ServerSessionId(InviteFrom(order, ""))];
                     && mine.localRtpPort == theirs.remoteRtpPort && theirs.localRtpPort == mine.remoteRtpPort
                     && mine.localIp == theirs.remoteIp && theirs.localIp == mine.remoteIp
                     && mine.ssrc == theirs.ssrc == order.ssrc && mine.transport == theirs.transport
                     && mine.direction == "sendonly" && theirs.direction == "recvonly"
                     && mine.state == "stream-confirmed"
  {
    var port, theirPort := caller.pool.queue[0], callee.pool.queue[0];
    assert port in caller.pool.available && port in caller.pool.available + caller.pool.taken;
    assert theirPort in callee.pool.available && theirPort in callee.pool.available + callee.pool.taken;
    PlacedCall(caller, order, owners, peers);
    RequestInviteKeepsOwned(caller, order, owners, peers, true, true);
    var placed := RequestInvite(caller, order, owners, peers, true, true);
    Sdp.OfferRoundTrip(order.localId, order.localIp, port, order.ssrc);
    ServerInviteOutcome(callee, InviteFrom(order, placed.reply.body), Some(calleeIp));
    var invited := ServerInvite(callee, InviteFrom(order, placed.reply.body), Some(calleeIp));
    Sdp.AnswerRoundTrip(placed.reply.body, order.deviceId, calleeIp, theirPort);
    AnsweredCall(placed.media, AnswerTo(order, invited.reply.body), Sdp.Parse(invited.reply.body).value);
  }

  /** Hanging up undoes answering: after the BYE of a new dialog the callee has its old sessions and as many
      free ports as before. */
  lemma {:induction false} ByeUndoesInvite(m: MediaState, request: SipMessage, localIp: Option<string>)
    requires Owned(m, {}) && ServerInvite(m, request, localIp).ok && ServerSessionId(request) !in m.sessions
    ensures var after := ServerBye(ServerInvite(m, request, localIp).media, request);
            && after.ok && after.reply == Reply(200, "")
            && after.media.sessions == m.sessions && after.media.pool.available == m.pool.available
            && after.media.adapters == m.adapters
  {
    ServerInviteOutcome(m, request, localIp);
    ServerInviteKeepsOwned(m, request, localIp);
    var h := ServerInvite(m, request, localIp);
    var id := ServerSessionId(request);
    CloseKeepsOwned(h.media, id, {});
    assert h.media.sessions - {id} == m.sessions;
    var after := ServerBye(h.media, request).media;
    assert after.pool.taken - {} == m.pool.taken - {};
    assert after.pool.available == Ports(after) - after.pool.taken == Ports(m) - m.pool.taken == m.pool.available;
  }
}
