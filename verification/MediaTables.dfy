/** The tables of src/media/MediaManager.cpp as values: port pool, media sessions and RTP adapters, the
    operations on them, and who owns which port. */
module MediaTables {
  import opened Common
  import opened MediaSessions

  // ---------------------------------------------------------------- the port pool

  datatype Pool = Pool(queue: seq<int>, available: set<int>, taken: set<int>)

  datatype Allocation = Allocation(pool: Pool, port: int)

  /** The first queued port that is still available; 0 when there is none. */
  function Allocate(p: Pool): Allocation
    decreases |p.queue|
  {
    if p.queue == [] then Allocation(p, 0)
    else
      var port := p.queue[0];
      if port !in p.available then Allocate(p.(queue := p.queue[1..]))
      else Allocation(Pool(p.queue[1..], p.available - {port}, p.taken + {port}), port)
  }

  /** Only an allocated port goes back, once, to the end of the queue. */
  function Release(p: Pool, port: int): Pool {
    if port <= 0 || port !in p.taken then p
    else if port in p.available then p.(taken := p.taken - {port})
    else Pool(p.queue + [port], p.available + {port}, p.taken - {port})
  }

  ghost predicate NoDuplicates(s: seq<int>) {
    forall i, j :: 0 <= i < j < |s| ==> s[i] != s[j]
  }

  ghost predicate PoolValid(p: Pool) {
    && NoDuplicates(p.queue)
    && (forall port :: port in p.queue <==> port in p.available)
    && p.available !! p.taken
    && (forall port <- p.available + p.taken :: port > 0)
  }

  lemma {:induction false} AllocateFromValid(p: Pool)
    requires PoolValid(p)
    ensures PoolValid(Allocate(p).pool)
    ensures Allocate(p).pool.available + Allocate(p).pool.taken == p.available + p.taken
    ensures p.queue == [] ==> Allocate(p) == Allocation(p, 0)
    ensures p.queue != [] ==>
              && Allocate(p).port == p.queue[0] > 0
              && Allocate(p).pool == Pool(p.queue[1..], p.available - {p.queue[0]}, p.taken + {p.queue[0]})
  {
    if p.queue != [] {
      var port := p.queue[0];
      assert port in p.available && port in p.available + p.taken;
      var q := p.queue[1..];
      assert forall x :: x in q <==> x in p.queue && x != port;
    }
  }

  lemma {:induction false} ReleaseToValid(p: Pool, port: int)
    requires PoolValid(p)
    ensures PoolValid(Release(p, port))
    ensures Release(p, port).available + Release(p, port).taken == p.available + p.taken
    ensures port in p.taken ==>
              Release(p, port) == Pool(p.queue + [port], p.available + {port}, p.taken - {port})
    ensures port !in p.taken ==> Release(p, port) == p
  {
    if port in p.taken {
      assert port in p.available + p.taken;
      assert forall x :: x in p.queue + [port] <==> x in p.queue || x == port;
    }
  }

  // ---------------------------------------------------------------- the session table

  datatype SentTotals = SentTotals(payloadPackets: nat, payloadBytes: nat, videoFrames: nat)

  datatype MediaSessionInfo = MediaSessionInfo(
    id: string,
    peerId: string,
    targetDeviceId: string,
    localIp: string,
    localRtpPort: int,
    remoteIp: string,
    remoteRtpPort: int,
    transport: string,
    direction: string,
    ssrc: string,
    callId: string,
    inviteCseq: string,
    remoteContact: string,
    state: string,
    sent: SentTotals,
    stream: Stream)

  datatype MediaState = MediaState(pool: Pool, sessions: map<string, MediaSessionInfo>, adapters: set<string>)

  datatype Change = Change(media: MediaState, ok: bool)

  function CreateSession(m: MediaState, session: MediaSessionInfo): Change {
    if session.id == "" || session.localRtpPort <= 0 || session.localRtpPort !in m.pool.taken then Change(m, false)
    else
      var replaced := session.id in m.sessions && m.sessions[session.id].localRtpPort != session.localRtpPort;
      Change(MediaState(if replaced then Release(m.pool, m.sessions[session.id].localRtpPort) else m.pool,
                   m.sessions[session.id := session], m.adapters), true)
  }

  function UpdateSession(m: MediaState, session: MediaSessionInfo): Change {
    if session.id !in m.sessions || session.localRtpPort <= 0 ||
       m.sessions[session.id].localRtpPort != session.localRtpPort then Change(m, false)
    else Change(m.(sessions := m.sessions[session.id := session]), true)
  }

  function UpdateSessionState(m: MediaState, id: string, state: string): Change {
    if id !in m.sessions then Change(m, false)
    else Change(m.(sessions := m.sessions[id := m.sessions[id].(state := state)]), true)
  }

  /** `starts` is the adapter's own answer; a second adapter for a session is refused. */
  function StartAdapter(m: MediaState, id: string, starts: bool): Change {
    if id !in m.sessions || id in m.adapters || !starts then Change(m, false)
    else Change(m.(adapters := m.adapters + {id}), true)
  }

  function StopAdapter(m: MediaState, id: string): MediaState {
    m.(adapters := m.adapters - {id})
  }

  function CloseSession(m: MediaState, id: string): Change {
    if id !in m.sessions then Change(m, false)
    else
      Change(MediaState(Release(m.pool, m.sessions[id].localRtpPort), m.sessions - {id}, m.adapters - {id}), true)
  }

  // ---------------------------------------------------------------- ownership

  function SessionPorts(sessions: map<string, MediaSessionInfo>): set<int> {
    set id | id in sessions :: sessions[id].localRtpPort
  }

  ghost predicate OneSessionPerPort(sessions: map<string, MediaSessionInfo>) {
    forall a <- sessions, b <- sessions :: sessions[a].localRtpPort == sessions[b].localRtpPort ==> a == b
  }

  /** Apart from the `loose` ports a handler is still holding, the allocated ports are exactly the local
      ports of the live sessions, one session per port, and only live sessions have an adapter. */
  ghost predicate Owned(m: MediaState, loose: set<int>) {
    && PoolValid(m.pool)
    && loose <= m.pool.taken
    && SessionPorts(m.sessions) == m.pool.taken - loose
    && OneSessionPerPort(m.sessions)
    && m.adapters <= m.sessions.Keys
  }

  function Ports(m: MediaState): set<int> {
    m.pool.available + m.pool.taken
  }

  lemma {:induction false} PortsAdded(sessions: map<string, MediaSessionInfo>, session: MediaSessionInfo)
    requires session.id !in sessions && OneSessionPerPort(sessions)
    requires session.localRtpPort !in SessionPorts(sessions)
    ensures SessionPorts(sessions[session.id := session]) == SessionPorts(sessions) + {session.localRtpPort}
    ensures OneSessionPerPort(sessions[session.id := session])
  {
    var after := sessions[session.id := session];
    assert session.id in after;
    forall port | port in SessionPorts(sessions) ensures port in SessionPorts(after) {
      var id :| id in sessions && sessions[id].localRtpPort == port;
      assert id in after && after[id].localRtpPort == port;
    }
    forall id | id in sessions ensures sessions[id].localRtpPort != session.localRtpPort {
      assert sessions[id].localRtpPort in SessionPorts(sessions);
    }
  }

  lemma {:induction false} PortsRemoved(sessions: map<string, MediaSessionInfo>, id: string)
    requires id in sessions && OneSessionPerPort(sessions)
    ensures SessionPorts(sessions - {id}) == SessionPorts(sessions) - {sessions[id].localRtpPort}
    ensures OneSessionPerPort(sessions - {id})
  {
    var after := sessions - {id};
    forall port | port in SessionPorts(sessions) - {sessions[id].localRtpPort} ensures port in SessionPorts(after) {
      var other :| other in sessions && sessions[other].localRtpPort == port;
      assert other in after && after[other].localRtpPort == port;
    }
  }

  lemma {:induction false} PortsKept(sessions: map<string, MediaSessionInfo>, session: MediaSessionInfo, id: string)
    requires id in sessions && sessions[id].localRtpPort == session.localRtpPort && OneSessionPerPort(sessions)
    ensures SessionPorts(sessions[id := session]) == SessionPorts(sessions)
    ensures OneSessionPerPort(sessions[id := session])
  {
    var after := sessions[id := session];
    forall port | port in SessionPorts(sessions) ensures port in SessionPorts(after) {
      var other :| other in sessions && sessions[other].localRtpPort == port;
      assert other in after && after[other].localRtpPort == port;
    }
  }

  /** A new session takes over the loose port; a session it replaces gives its own port back. */
  lemma {:induction false} CreateKeepsOwned(m: MediaState, session: MediaSessionInfo)
    requires Owned(m, {session.localRtpPort})
    ensures var c := CreateSession(m, session);
            && (c.ok <==> session.id != "")
            && (c.ok ==> Owned(c.media, {})) && (!c.ok ==> c.media == m)
            && Ports(c.media) == Ports(m)
  {
    var port := session.localRtpPort;
    assert port in Ports(m);
    var c := CreateSession(m, session);
    if c.ok {
      if session.id in m.sessions {
        var old_ := m.sessions[session.id].localRtpPort;
        assert old_ in SessionPorts(m.sessions);
        ReleaseToValid(m.pool, old_);
        PortsRemoved(m.sessions, session.id);
        PortsAdded(m.sessions - {session.id}, session);
        assert (m.sessions - {session.id})[session.id := session] == m.sessions[session.id := session];
      } else {
        PortsAdded(m.sessions, session);
      }
    }
  }

  lemma {:induction false} CloseKeepsOwned(m: MediaState, id: string, loose: set<int>)
    requires Owned(m, loose)
    ensures Owned(CloseSession(m, id).media, loose) && Ports(CloseSession(m, id).media) == Ports(m)
  {
    if id in m.sessions {
      assert m.sessions[id].localRtpPort in SessionPorts(m.sessions);
      ReleaseToValid(m.pool, m.sessions[id].localRtpPort);
      PortsRemoved(m.sessions, id);
    }
  }

  lemma {:induction false} UpdateKeepsOwned(m: MediaState, session: MediaSessionInfo, loose: set<int>)
    requires Owned(m, loose)
    ensures Owned(UpdateSession(m, session).media, loose) && Ports(UpdateSession(m, session).media) == Ports(m)
  {
    if UpdateSession(m, session).ok {
      PortsKept(m.sessions, session, session.id);
    }
  }

  lemma {:induction false} UpdateStateKeepsOwned(m: MediaState, id: string, state: string, loose: set<int>)
    requires Owned(m, loose)
    ensures var u := UpdateSessionState(m, id, state).media; Owned(u, loose) && Ports(u) == Ports(m)
  {
    if id in m.sessions {
      PortsKept(m.sessions, m.sessions[id].(state := state), id);
    }
  }

  lemma {:induction false} AllocateKeepsOwned(m: MediaState)
    requires Owned(m, {})
    ensures var a := Allocate(m.pool);
            && Ports(m.(pool := a.pool)) == Ports(m)
            && (a.port > 0 ==> Owned(m.(pool := a.pool), {a.port}))
            && (a.port <= 0 ==> a.pool == m.pool)
  {
    AllocateFromValid(m.pool);
    if m.pool.queue != [] {
      assert m.pool.queue[0] in m.pool.available;
      assert Allocate(m.pool).pool.taken - {m.pool.queue[0]} == m.pool.taken;
    }
  }

  lemma {:induction false} ReleaseLooseKeepsOwned(m: MediaState, port: int)
    requires Owned(m, {port})
    ensures Owned(m.(pool := Release(m.pool, port)), {}) && Ports(m.(pool := Release(m.pool, port))) == Ports(m)
  {
    ReleaseToValid(m.pool, port);
  }

  /** Nothing leaks: available ports and live sessions together make up the configured ports. */
  lemma {:induction false} OwnedCounts(m: MediaState)
    requires Owned(m, {})
    ensures |m.pool.available| + |m.sessions| == |Ports(m)|
    ensures |m.pool.queue| == |m.pool.available|
  {
    CountPorts(m.sessions);
    QueueLength(m.pool.queue, m.pool.available);
    assert m.pool.taken - {} == m.pool.taken;
  }

  lemma {:induction false} QueueLength(queue: seq<int>, members: set<int>)
    requires NoDuplicates(queue) && forall x :: x in queue <==> x in members
    ensures |queue| == |members|
  {
    if queue == [] {
      assert forall x :: x in members ==> x in queue;
      assert members == {};
    } else {
      var rest := queue[1..];
      assert forall x :: x in rest <==> x in queue && x != queue[0];
      QueueLength(rest, members - {queue[0]});
    }
  }

  lemma {:induction false} CountPorts(sessions: map<string, MediaSessionInfo>)
    requires OneSessionPerPort(sessions)
    ensures |SessionPorts(sessions)| == |sessions|
    decreases |sessions|
  {
    if sessions.Keys == {} {
      assert sessions == map[];
      assert SessionPorts(sessions) == {};
    } else {
      var id :| id in sessions.Keys;
      PortsRemoved(sessions, id);
      assert (sessions - {id}).Keys == sessions.Keys - {id};
      CountPorts(sessions - {id});
      assert sessions[id].localRtpPort in SessionPorts(sessions);
    }
  }
}
