/** The INVITE, ACK and BYE handlers and call requests as the source runs them, on a media manager. */
module InviteHandlers {
  import opened Common
  import opened Text
  import Sdp
  import opened MediaSessions
  import opened MediaTables
  import opened MediaManagement
  import opened InviteSignalling

  method HandleInvite(manager: MediaManager, request: SipMessage, localIp: Option<string>) returns (ok: bool, reply: Reply)
    modifies manager
    ensures Handled(manager.State(), ok, reply) == ServerInvite(old(manager.State()), request, localIp)
    ensures manager.sinkInstalled == old(manager.sinkInstalled) && manager.sinkFrames == old(manager.sinkFrames)
  {
    var rtpPort := manager.AllocateRtpPort();
    if rtpPort <= 0 {
      return false, NoReply;
    }
    var offer := Sdp.ParseSdp(request.body);
    if offer.None? {
      manager.ReleaseRtpPort(rtpPort);
      return false, Reply(400, "");
    }
    var session := ServerSession(request, offer.value, rtpPort, localIp);
    var created := manager.CreateMediaSession(session);
    if !created {
      manager.ReleaseRtpPort(rtpPort);
      return false, Reply(500, "");
    }
    ok := true;
    reply := Reply(200, Sdp.BuildInviteResponseSdp(request.toId, session.localIp, rtpPort, offer.value));
  }

  method HandleAck(manager: MediaManager, request: SipMessage, running: bool, starts: bool, rtpError: string)
    returns (ok: bool)
    modifies manager
    ensures Handled(manager.State(), ok, NoReply) == ServerAck(old(manager.State()), request, running, starts, rtpError)
    ensures manager.sinkInstalled == old(manager.sinkInstalled) && manager.sinkFrames == old(manager.sinkFrames)
  {
    var id := ServerSessionId(request);
    if id !in manager.sessions {
      return false;
    }
    var session := manager.sessions[id];
    if session.inviteCseq != "" && request.cseq != "" && session.inviteCseq != request.cseq {
      return false;
    }
    if !(id in manager.adapters && running) {
      var started := manager.StartRtpSessionAdapter(id, starts);
      if !started {
        var recorded := manager.UpdateState(id, "rtp-start-failed:" + rtpError);
        return false;
      }
    }
    ok := manager.UpdateState(id, "stream-confirmed");
  }

  method HandleBye(manager: MediaManager, request: SipMessage) returns (ok: bool, reply: Reply)
    modifies manager
    ensures Handled(manager.State(), ok, reply) == ServerBye(old(manager.State()), request)
    ensures manager.sinkInstalled == old(manager.sinkInstalled) && manager.sinkFrames == old(manager.sinkFrames)
  {
    ok := manager.CloseMediaSession(ServerSessionId(request));
    if !ok {
      return false, Reply(481, "");
    }
    reply := Reply(200, "");
  }

  method HandleInviteResponse(manager: MediaManager, response: SipMessage, peerFound: bool, ackSent: bool)
    returns (ok: bool)
    modifies manager
    ensures Handled(manager.State(), ok, NoReply) == ClientResponse(old(manager.State()), response, peerFound, ackSent)
    ensures manager.sinkInstalled == old(manager.sinkInstalled) && manager.sinkFrames == old(manager.sinkFrames)
  {
    var id := ClientSessionId(response.callId);
    var existing := response.callId != "" && id in manager.sessions;
    if 200 <= response.statusCode < 300 {
      if !peerFound {
        return false;
      }
      if !existing {
        return ackSent;
      }
      var answer := Sdp.ParseSdp(response.body);
      if answer.None? {
        var closed := manager.CloseMediaSession(id);
        return false;
      }
      var session := manager.sessions[id];
      session := session.(remoteIp := answer.value.connectionIp, remoteRtpPort := answer.value.mediaPort);
      session := session.(transport := answer.value.transport, direction := answer.value.direction);
      session := session.(remoteContact := response.contact, state := "stream-confirmed");
      var updated := manager.UpdateMediaSession(session);
      if !updated {
        var closed := manager.CloseMediaSession(id);
        return false;
      }
      if !ackSent {
        var closed := manager.CloseMediaSession(id);
        return false;
      }
      return true;
    }
    if existing {
      var closed := manager.CloseMediaSession(id);
    }
    ok := true;
  }

  /** `body` is the INVITE that goes out when the call is placed. */
  method PlaceCall(
    manager: MediaManager, order: CallOrder, owners: seq<string>, peers: map<string, Peer>, starts: bool, sends: bool)
    returns (ok: bool, body: string)
    modifies manager
    ensures Handled(manager.State(), ok, if ok then Reply(0, body) else NoReply) ==
            RequestInvite(old(manager.State()), order, owners, peers, starts, sends)
    ensures manager.sinkInstalled == old(manager.sinkInstalled) && manager.sinkFrames == old(manager.sinkFrames)
  {
    body := "";
    if owners == [] {
      return false, body;
    }
    if |owners| != 1 {
      return false, body;
    }
    var peerId := owners[0];
    if peerId !in peers || peers[peerId].relation != Downstream {
      return false, body;
    }
    if !peers[peerId].registered {
      return false, body;
    }
    var rtpPort := manager.AllocateRtpPort();
    if rtpPort <= 0 {
      return false, body;
    }
    var session := ClientSession(order, peerId, peers[peerId].ip, rtpPort);
    var created := manager.CreateMediaSession(session);
    if !created {
      manager.ReleaseRtpPort(rtpPort);
      return false, body;
    }
    var started := manager.StartRtpSessionAdapter(session.id, starts);
    if !started {
      var closed := manager.CloseMediaSession(session.id);
      return false, body;
    }
    if !sends {
      var closed := manager.CloseMediaSession(session.id);
      return false, body;
    }
    ok := true;
    body := Sdp.BuildInviteSdp(order.localId, order.localIp, rtpPort, order.ssrc);
  }

  /** Ends the one stream that shows the device. It is refused when no stream or several streams show it, when
      the stream's peer is unknown, or when the BYE cannot be sent. */
  method EndCall(manager: MediaManager, deviceId: string, peers: map<string, Peer>, sends: bool) returns (ok: bool)
    modifies manager
    ensures ok <==> sends && exists id :: Endable(old(manager.State()), deviceId, peers, id)
    ensures forall id :: ok && Endable(old(manager.State()), deviceId, peers, id) ==>
                         manager.State() == CloseSession(old(manager.State()), id).media
    ensures !ok ==> manager.State() == old(manager.State())
    ensures manager.sinkInstalled == old(manager.sinkInstalled) && manager.sinkFrames == old(manager.sinkFrames)
  {
    var remaining := manager.sessions.Keys;
    var active: Option<string> := None;
    ghost var streams := StreamsOf(manager.State(), deviceId);
    while remaining != {}
      invariant remaining <= manager.sessions.Keys
      invariant active.None? ==> streams <= remaining
      invariant active.Some? ==> active.value in streams && active.value !in remaining && streams <= remaining + {active.value}
      invariant manager.State() == old(manager.State())
      invariant manager.sinkInstalled == old(manager.sinkInstalled) && manager.sinkFrames == old(manager.sinkFrames)
      decreases |remaining|
    {
      var id :| id in remaining;
      if manager.sessions[id].targetDeviceId == deviceId {
        if active.Some? {
          assert id in streams && active.value in streams && id != active.value;
          return false;
        }
        active := Some(id);
      }
      remaining := remaining - {id};
    }
    if active.None? {
      return false;
    }
    assert streams == {active.value};
    if manager.sessions[active.value].peerId !in peers {
      assert !Endable(manager.State(), deviceId, peers, active.value);
      return false;
    }
    assert Endable(manager.State(), deviceId, peers, active.value);
    if !sends {
      return false;
    }
    ok := manager.CloseMediaSession(active.value);
  }
}
