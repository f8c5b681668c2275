/** What holds over whole runs of the registrar: no replay, no use after expiry, and honest clients get in. */
module RegistrationRuns {
  import opened Common
  import opened DigestAuth
  import opened Registration

  /** A REGISTER arriving at `now`; `nonce` is the value the random source has ready. */
  datatype Event = Event(now: nat, request: RegisterRequest, nonce: string)

  /** An accepted digest response. */
  datatype Acceptance = Acceptance(nonce: string, count: Option<nat>, time: nat)

  /** The server after a run, when each nonce was issued, and the accepted responses in order. */
  datatype Trace = Trace(server: Server, issued: map<string, nat>, accepted: seq<Acceptance>)

  function StepTrace(md5: Md5, t: Trace, endpoints: map<string, Endpoint>, e: Event): Trace {
    var served := Serve(md5, t.server, e.now, e.request, endpoints, e.nonce);
    var issued := if served.answer.Unauthorized? then t.issued[e.nonce := e.now] else t.issued;
    var digest := served.answer == Accepted && e.request.toId in endpoints && endpoints[e.request.toId].RequiresAuth();
    var count := if e.request.auth.qop != "" then NonceCount(e.request.auth.nc) else None;
    Trace(served.server, issued,
          t.accepted + if digest then [Acceptance(e.request.auth.nonce, count, e.now)] else [])
  }

  function Run(md5: Md5, s: Server, endpoints: map<string, Endpoint>, events: seq<Event>): Trace {
    if events == [] then Trace(s, map[], [])
    else StepTrace(md5, Run(md5, s, endpoints, events[..|events| - 1]), endpoints, events[|events| - 1])
  }

  predicate Issues(md5: Md5, t: Trace, endpoints: map<string, Endpoint>, e: Event) {
    Serve(md5, t.server, e.now, e.request, endpoints, e.nonce).answer.Unauthorized?
  }

  /** Every nonce is issued at most once in the run. */
  ghost predicate FreshNonces(md5: Md5, s: Server, endpoints: map<string, Endpoint>, events: seq<Event>) {
    forall i :: 0 <= i < |events| && Issues(md5, Run(md5, s, endpoints, events[..i]), endpoints, events[i]) ==>
      events[i].nonce !in Run(md5, s, endpoints, events[..i]).issued
  }

  /** For one nonce the accepted counts strictly grow, and a response without a count is accepted once. */
  predicate Later(a: Acceptance, b: Acceptance) {
    a.nonce == b.nonce ==>
      && (a.count.Some? && b.count.Some? ==> a.count.value < b.count.value)
      && !(a.count.None? && b.count.None?)
  }

  ghost predicate NoReplay(accepted: seq<Acceptance>) {
    forall i, j :: 0 <= i < j < |accepted| ==> Later(accepted[i], accepted[j])
  }

  ghost predicate InTime(accepted: seq<Acceptance>, issued: map<string, nat>) {
    forall i :: 0 <= i < |accepted| ==>
      accepted[i].nonce in issued && accepted[i].time < issued[accepted[i].nonce] + CHALLENGE_SECONDS
  }

  /** The challenge remembers every accepted use of its nonce. */
  predicate Remembers(c: Challenge, a: Acceptance) {
    a.nonce == c.nonce ==>
      (a.count.Some? ==> a.count.value <= c.lastNonceCount) && (a.count.None? ==> c.usedWithoutNonceCount)
  }

  ghost predicate TableKnown(table: Table, issued: map<string, nat>) {
    && (forall key <- table :: table[key].nonce in issued && table[key].expiresAt == issued[table[key].nonce] + CHALLENGE_SECONDS)
    && (forall a <- table, b <- table :: table[a].nonce == table[b].nonce ==> a == b)
  }

  ghost predicate TableRemembers(table: Table, accepted: seq<Acceptance>) {
    forall key, i :: key in table && 0 <= i < |accepted| ==> Remembers(table[key], accepted[i])
  }

  ghost predicate Sound(t: Trace) {
    && TableKnown(t.server.challenges, t.issued)
    && TableRemembers(t.server.challenges, t.accepted)
    && InTime(t.accepted, t.issued)
    && NoReplay(t.accepted)
  }

  lemma {:induction false} CleanupSound(table: Table, now: nat, issued: map<string, nat>, accepted: seq<Acceptance>)
    requires TableKnown(table, issued) && TableRemembers(table, accepted)
    ensures TableKnown(Cleanup(table, now), issued) && TableRemembers(Cleanup(table, now), accepted)
  {
  }

  lemma {:induction false} InTimeStill(accepted: seq<Acceptance>, issued: map<string, nat>, nonce: string, now: nat)
    requires InTime(accepted, issued) && nonce !in issued
    ensures InTime(accepted, issued[nonce := now])
  {
  }

  lemma {:induction false} NewKnown(table: Table, key: string, c: Challenge, now: nat, issued: map<string, nat>)
    requires TableKnown(table, issued) && c.nonce !in issued && c.expiresAt == now + CHALLENGE_SECONDS
    ensures TableKnown(table[key := c], issued[c.nonce := now])
  {
  }

  lemma {:induction false} NewRemembers(table: Table, key: string, c: Challenge, issued: map<string, nat>, accepted: seq<Acceptance>)
    requires TableRemembers(table, accepted) && InTime(accepted, issued) && c.nonce !in issued
    ensures TableRemembers(table[key := c], accepted)
  {
  }

  lemma {:induction false} IssueSound(
    md5: Md5, table: Table, now: nat, fromId: string, e: Endpoint, nonce: string, issued: map<string, nat>,
    accepted: seq<Acceptance>)
    requires TableKnown(table, issued) && TableRemembers(table, accepted) && InTime(accepted, issued) && nonce !in issued
    ensures var after := Issue(md5, table, now, fromId, e, nonce);
            && TableKnown(after, issued[nonce := now]) && TableRemembers(after, accepted)
            && InTime(accepted, issued[nonce := now])
  {
    CleanupSound(table, now, issued, accepted);
    var c := Challenge(nonce, md5("gb28181-node:" + e.sipId + ":" + e.realm), now + CHALLENGE_SECONDS, 0, false);
    NewKnown(Cleanup(table, now), ChallengeKey(fromId, e), c, now, issued);
    NewRemembers(Cleanup(table, now), ChallengeKey(fromId, e), c, issued, accepted);
    InTimeStill(accepted, issued, nonce, now);
  }

  lemma {:induction false} VerifySound(
    md5: Md5, table: Table, now: nat, request: RegisterRequest, e: Endpoint, issued: map<string, nat>,
    accepted: seq<Acceptance>)
    requires TableKnown(table, issued) && TableRemembers(table, accepted)
    requires InTime(accepted, issued) && NoReplay(accepted) && Verifies(md5, table, now, request, e)
    ensures var after := AfterVerify(md5, table, now, request, e);
            var a := Acceptance(request.auth.nonce, if request.auth.qop != "" then NonceCount(request.auth.nc) else None, now);
            && TableKnown(after, issued) && TableRemembers(after, accepted + [a])
            && InTime(accepted + [a], issued) && NoReplay(accepted + [a])
  {
    var key := ChallengeKey(request.fromId, e);
    CleanupSound(table, now, issued, accepted);
    var a := Acceptance(request.auth.nonce, if request.auth.qop != "" then NonceCount(request.auth.nc) else None, now);
    assert forall i :: 0 <= i < |accepted| ==> Remembers(table[key], accepted[i]);
    assert forall i :: 0 <= i < |accepted| ==> Later(accepted[i], a);
    assert table[key].nonce in issued;
  }

  /** The request is up for digest verification. */
  predicate Challengeable(t: Trace, endpoints: map<string, Endpoint>, e: Event) {
    Known(t.server, e.request.fromId) && e.request.toId in endpoints && endpoints[e.request.toId].RequiresAuth()
  }

  function AcceptanceOf(e: Event): Acceptance {
    Acceptance(e.request.auth.nonce, if e.request.auth.qop != "" then NonceCount(e.request.auth.nc) else None, e.now)
  }

  /** A step challenges, verifies, or only cleans up. */
  lemma {:induction false} StepOutcome(md5: Md5, t: Trace, endpoints: map<string, Endpoint>, e: Event)
    ensures var n := StepTrace(md5, t, endpoints, e);
            var table := t.server.challenges;
            if Challengeable(t, endpoints, e) && e.request.auth.response == "" then
              && Issues(md5, t, endpoints, e)
              && n.server.challenges == Issue(md5, table, e.now, e.request.fromId, endpoints[e.request.toId], e.nonce)
              && n.issued == t.issued[e.nonce := e.now] && n.accepted == t.accepted
            else if Challengeable(t, endpoints, e) && Verifies(md5, table, e.now, e.request, endpoints[e.request.toId]) then
              && n.server.challenges == AfterVerify(md5, table, e.now, e.request, endpoints[e.request.toId])
              && n.issued == t.issued && n.accepted == t.accepted + [AcceptanceOf(e)]
            else
              n.server.challenges == Cleanup(table, e.now) && n.issued == t.issued && n.accepted == t.accepted
  {
  }

  lemma {:induction false} StepSound(md5: Md5, t: Trace, endpoints: map<string, Endpoint>, e: Event)
    requires Sound(t) && (Issues(md5, t, endpoints, e) ==> e.nonce !in t.issued)
    ensures Sound(StepTrace(md5, t, endpoints, e))
  {
    var table := t.server.challenges;
    StepOutcome(md5, t, endpoints, e);
    CleanupSound(table, e.now, t.issued, t.accepted);
    if Challengeable(t, endpoints, e) {
      var endpoint := endpoints[e.request.toId];
      if e.request.auth.response == "" {
        IssueSound(md5, table, e.now, e.request.fromId, endpoint, e.nonce, t.issued, t.accepted);
      } else if Verifies(md5, table, e.now, e.request, endpoint) {
        VerifySound(md5, table, e.now, e.request, endpoint, t.issued, t.accepted);
      }
    }
  }

  /** No replay in any run that starts without challenges, if nonces are fresh: for each nonce the accepted
      nonce-counts strictly increase, a response without qop is accepted at most once, and nothing is accepted
      300 seconds after its nonce was issued or later. */
  lemma {:induction false} NoReplayInAnyRun(md5: Md5, s: Server, endpoints: map<string, Endpoint>, events: seq<Event>)
    requires s.challenges == map[] && FreshNonces(md5, s, endpoints, events)
    ensures var t := Run(md5, s, endpoints, events);
            && NoReplay(t.accepted) && InTime(t.accepted, t.issued) && Sound(t)
  {
    if events != [] {
      var before := events[..|events| - 1];
      assert forall i :: 0 <= i < |before| ==> before[i] == events[i] && before[..i] == events[..i];
      NoReplayInAnyRun(md5, s, endpoints, before);
      StepSound(md5, Run(md5, s, endpoints, before), endpoints, events[|events| - 1]);
    }
  }

  /** Without fresh nonces the table cannot tell: a nonce issued a second time is accepted a second time. */
  lemma {:induction false} RepeatedNonceReplays(md5: Md5, e: Endpoint, request: RegisterRequest, table: Table, t1: nat, t2: nat)
    requires request.auth.qop == "" && DigestMatches(md5, request, e)
    ensures var nonce := request.auth.nonce;
            var once := Issue(md5, table, t1, request.fromId, e, nonce);
            var again := Issue(md5, AfterVerify(md5, once, t1, request, e), t2, request.fromId, e, nonce);
            && Verifies(md5, once, t1, request, e) && Verifies(md5, again, t2, request, e)
  {
  }

  /** A refused request changes no unexpired challenge and no peer. */
  lemma {:induction false} RefusalChangesNothing(
    md5: Md5, s: Server, now: nat, request: RegisterRequest, endpoints: map<string, Endpoint>, nonce: string, key: string)
    requires var a := Serve(md5, s, now, request, endpoints, nonce).answer; a == Forbidden || a == Silence
    ensures var after := Serve(md5, s, now, request, endpoints, nonce).server;
            && after.peers == s.peers
            && (key in after.challenges <==> key in s.challenges && !Expired(s.challenges[key], now))
            && (key in after.challenges ==> key in s.challenges && after.challenges[key] == s.challenges[key])
  {
    if Known(s, request.fromId) && request.toId in endpoints {
      RefusedIsCleaned(md5, s, now, request, endpoints[request.toId]);
    }
  }

  lemma {:induction false} RefusedIsCleaned(md5: Md5, s: Server, now: nat, request: RegisterRequest, e: Endpoint)
    ensures !Verifies(md5, s.challenges, now, request, e) ==>
              AfterVerify(md5, s.challenges, now, request, e) == Cleanup(s.challenges, now)
  {
  }

  // ---------------------------------------------------------------- the honest client

  /** The registrar as the client has it configured, and the address the client names as its Contact. */
  datatype Upstream = Upstream(
    sipId: string, ip: string, port: int, realm: string, username: string, password: string, registerExpires: int,
    contact: Option<Address>)

  /** What the client reads from a 401. */
  datatype ChallengeSeen = ChallengeSeen(realm: string, nonce: string, opaqueText: string, algorithm: string, qop: string)

  function MentionsAuth(qop: string): bool {
    |qop| >= 4 && (qop[..4] == "auth" || MentionsAuth(qop[1..]))
  }

  function SipUri(sipId: string, ip: string, port: string): (uri: string)
    ensures uri != ""
  {
    "sip:" + sipId + "@" + ip + port
  }

  /** The client's digest: `port` is the printed port part of the URI, `cnonce` a fresh md5 value. */
  function MakeRegisterDigest(
    md5: Md5, seen: ChallengeSeen, peer: Upstream, localId: string, port: string, cnonce: string): DigestFields
  {
    var username := if peer.username == "" then localId else peer.username;
    var realm := if seen.realm == "" then peer.realm else seen.realm;
    var uri := SipUri(peer.sipId, peer.ip, port);
    var algorithm := if seen.algorithm == "" then "MD5" else seen.algorithm;
    var auth := MentionsAuth(seen.qop);
    var qop, nc, cn := if auth then "auth" else "", if auth then "00000001" else "", if auth then cnonce else "";
    DigestFields(username, realm, seen.nonce, uri,
                 ComputeDigestResponse(md5, "REGISTER", username, realm, peer.password, seen.nonce, uri, qop, nc, cn),
                 algorithm, seen.opaqueText, qop, nc, cn)
  }

  function RegisterExpires(peer: Upstream): int {
    if peer.registerExpires > 0 then peer.registerExpires else REGISTER_EXPIRES
  }

  function FirstRegister(peer: Upstream, localId: string): RegisterRequest {
    RegisterRequest(localId, peer.sipId, RegisterExpires(peer), peer.contact,
                    DigestFields("", "", "", "", "", "", "", "", "", ""))
  }

  /** The retry a client sends on a 401; None when it has no password or saw no nonce. */
  function Retry(md5: Md5, seen: ChallengeSeen, peer: Upstream, localId: string, port: string, cnonce: string): Option<RegisterRequest> {
    if peer.password == "" || seen.nonce == "" then None
    else
      Some(RegisterRequest(localId, peer.sipId, RegisterExpires(peer), peer.contact,
                           MakeRegisterDigest(md5, seen, peer, localId, port, cnonce)))
  }

  /** Client and registrar agree on the account. */
  predicate SameAccount(peer: Upstream, localId: string, e: Endpoint) {
    && e.RequiresAuth() && peer.password == e.password && localId != ""
    && (if peer.username == "" then localId else peer.username) == (if e.username == "" then localId else e.username)
  }

  /** The client's digest is the one the registrar computes, with or without qop. */
  lemma {:induction false} HonestDigestMatches(
    md5: Md5, e: Endpoint, peer: Upstream, localId: string, port: string, cnonce: string, nonce: string, opaqueText: string, qop: string)
    requires PrintsHex(md5) && SameAccount(peer, localId, e) && nonce != ""
    ensures var seen := ChallengeSeen(e.realm, nonce, opaqueText, "MD5", qop);
            var request := Retry(md5, seen, peer, localId, port, cnonce).value;
            DigestMatches(md5, request, e)
  {
    var seen := ChallengeSeen(e.realm, nonce, opaqueText, "MD5", qop);
    var auth := MakeRegisterDigest(md5, seen, peer, localId, port, cnonce);
    var ha1 := md5(auth.username + ":" + auth.realm + ":" + peer.password);
    var ha2 := md5("REGISTER" + ":" + auth.uri);
    if auth.qop != "" {
      HexIsLower(md5(ha1 + ":" + auth.nonce + ":" + auth.nc + ":" + auth.cnonce + ":" + auth.qop + ":" + ha2));
    } else {
      HexIsLower(md5(ha1 + ":" + auth.nonce + ":" + ha2));
    }
    assert ToLower("MD5") == "md5";
  }

  lemma {:induction false} FirstCount()
    ensures NonceCount("00000001") == Some(1)
  {
    var s := "00000001";
    assert AllHex(s);
    LeadingZeros(7);
    assert s[..7] == seq(7, _ => '0');
    assert HexValue(s) == HexValue(s[..7]) * 16 + 1;
  }

  lemma {:induction false} LeadingZeros(n: nat)
    ensures AllHex(seq(n, _ => '0')) && HexValue(seq(n, _ => '0')) == 0
  {
    if n > 0 {
      LeadingZeros(n - 1);
      assert seq(n, _ => '0')[..n - 1] == seq(n - 1, _ => '0');
    }
  }

  /** While others register, an unexpired challenge stays: each event is refused, is about another key, or is
      about no key at all because it needs no digest. */
  ghost predicate LeavesAlone(md5: Md5, s: Server, endpoints: map<string, Endpoint>, e: Event, key: string) {
    var answer := Serve(md5, s, e.now, e.request, endpoints, e.nonce).answer;
    || answer == Forbidden || answer == Silence
    || e.request.toId !in endpoints || !endpoints[e.request.toId].RequiresAuth()
    || ChallengeKey(e.request.fromId, endpoints[e.request.toId]) != key
  }

  function ServeAll(md5: Md5, s: Server, endpoints: map<string, Endpoint>, events: seq<Event>): Server
    decreases |events|
  {
    if events == [] then s
    else
      ServeAll(md5, Serve(md5, s, events[0].now, events[0].request, endpoints, events[0].nonce).server, endpoints, events[1..])
  }

  ghost predicate AllLeaveAlone(
    md5: Md5, s: Server, endpoints: map<string, Endpoint>, events: seq<Event>, key: string, until: int)
    decreases |events|
  {
    events == [] ||
    (&& events[0].now < until && LeavesAlone(md5, s, endpoints, events[0], key)
     && AllLeaveAlone(md5, Serve(md5, s, events[0].now, events[0].request, endpoints, events[0].nonce).server,
                      endpoints, events[1..], key, until))
  }

  lemma {:induction false} EntryStays(
    md5: Md5, s: Server, endpoints: map<string, Endpoint>, e: Event, key: string, fromId: string)
    requires key in s.challenges && e.now < s.challenges[key].expiresAt && Known(s, fromId)
    requires LeavesAlone(md5, s, endpoints, e, key)
    ensures var after := Serve(md5, s, e.now, e.request, endpoints, e.nonce).server;
            key in after.challenges && after.challenges[key] == s.challenges[key] && Known(after, fromId)
  {
  }

  lemma {:induction false} EntryStaysThrough(
    md5: Md5, s: Server, endpoints: map<string, Endpoint>, events: seq<Event>, key: string, fromId: string)
    requires key in s.challenges && Known(s, fromId)
    requires AllLeaveAlone(md5, s, endpoints, events, key, s.challenges[key].expiresAt)
    ensures var after := ServeAll(md5, s, endpoints, events);
            key in after.challenges && after.challenges[key] == s.challenges[key] && Known(after, fromId)
    decreases |events|
  {
    if events != [] {
      EntryStays(md5, s, endpoints, events[0], key, fromId);
      var next := Serve(md5, s, events[0].now, events[0].request, endpoints, events[0].nonce).server;
      EntryStaysThrough(md5, next, endpoints, events[1..], key, fromId);
    }
  }

  // ---------------------------------------------------------------- a whole attempt

  /** What is given when a REGISTER of the attempt arrives: the traffic served before it, the time, the nonce the
      server has ready, and what the client makes of a 401 to it. */
  datatype Round = Round(traffic: seq<Event>, now: nat, nonce: string, qop: string, port: string, cnonce: string)

  /** The answers to one attempt of the client, one for every REGISTER it sends: it answers every 401 with a
      retry when it can, and stops at any other answer. It has no memory of having retried before. */
  function Attempt(
    md5: Md5, s: Server, endpoints: map<string, Endpoint>, peer: Upstream, localId: string, request: RegisterRequest,
    rounds: seq<Round>): seq<Answer>
    decreases |rounds|
  {
    if rounds == [] then []
    else
      var r := rounds[0];
      var served := Serve(md5, ServeAll(md5, s, endpoints, r.traffic), r.now, request, endpoints, r.nonce);
      [served.answer] +
      match served.answer
      case Unauthorized(realm, nonce, opaqueText) =>
        (match Retry(md5, ChallengeSeen(realm, nonce, opaqueText, "MD5", r.qop), peer, localId, r.port, r.cnonce)
         case None => []
         case Some(retry) => Attempt(md5, served.server, endpoints, peer, localId, retry, rounds[1..]))
      case _ => []
  }

  /** Every retry carries a digest response. */
  lemma {:induction false} RetryHasResponse(
    md5: Md5, seen: ChallengeSeen, peer: Upstream, localId: string, port: string, cnonce: string)
    requires PrintsHex(md5) && Retry(md5, seen, peer, localId, port, cnonce).Some?
    ensures Retry(md5, seen, peer, localId, port, cnonce).value.auth.response != ""
  {
    var auth := MakeRegisterDigest(md5, seen, peer, localId, port, cnonce);
    var ha1 := md5(auth.username + ":" + auth.realm + ":" + peer.password);
    var ha2 := md5("REGISTER" + ":" + auth.uri);
    if auth.qop != "" {
      HexIsLower(md5(ha1 + ":" + auth.nonce + ":" + auth.nc + ":" + auth.cnonce + ":" + auth.qop + ":" + ha2));
    } else {
      HexIsLower(md5(ha1 + ":" + auth.nonce + ":" + ha2));
    }
  }

  /** A REGISTER with a digest response is the last of its attempt. */
  lemma {:induction false} ResponseEndsAttempt(
    md5: Md5, s: Server, endpoints: map<string, Endpoint>, peer: Upstream, localId: string, request: RegisterRequest,
    rounds: seq<Round>)
    requires request.auth.response != "" && rounds != []
    ensures var answers := Attempt(md5, s, endpoints, peer, localId, request, rounds);
            |answers| == 1 && !answers[0].Unauthorized?
  {
  }

  /** Every attempt of a client is short, whatever the server holds, whatever accounts it has, and whatever it
      serves in between: one REGISTER, and a second one exactly when the first is answered with a 401 whose nonce
      is not empty and the client has a password. The second is never answered with a 401. */
  lemma {:induction false} AttemptTakesAtMostTwo(
    md5: Md5, s: Server, endpoints: map<string, Endpoint>, peer: Upstream, localId: string, rounds: seq<Round>)
    requires PrintsHex(md5) && |rounds| > 1
    ensures var answers := Attempt(md5, s, endpoints, peer, localId, FirstRegister(peer, localId), rounds);
            && 1 <= |answers| <= 2
            && (|answers| == 2 <==> answers[0].Unauthorized? && peer.password != "" && answers[0].nonce != "")
            && (|answers| == 2 ==> !answers[1].Unauthorized?)
  {
    var r := rounds[0];
    var before := ServeAll(md5, s, endpoints, r.traffic);
    var served := Serve(md5, before, r.now, FirstRegister(peer, localId), endpoints, r.nonce);
    if served.answer.Unauthorized? {
      var seen := ChallengeSeen(served.answer.realm, served.answer.nonce, served.answer.opaqueText, "MD5", r.qop);
      var retry := Retry(md5, seen, peer, localId, r.port, r.cnonce);
      if retry.Some? {
        RetryHasResponse(md5, seen, peer, localId, r.port, r.cnonce);
        ResponseEndsAttempt(md5, served.server, endpoints, peer, localId, retry.value, rounds[1..]);
      }
    }
  }

  /** Honest registration completes. From any challenge table whatever, a known client with the right account
      is challenged once; its retry within the expiry window, other registrations going on in between, is
      accepted and leaves it registered for the time it asked, at the address it named. */
  lemma {:induction false} HonestRegistrationCompletes(
    md5: Md5, s: Server, endpoints: map<string, Endpoint>, peer: Upstream, localId: string,
    t1: nat, nonce: string, between: seq<Event>, t2: nat, port: string, cnonce: string, qop: string, spare: string)
    requires PrintsHex(md5) && IsHexDigest(nonce) && IsHexDigest(cnonce)
    requires Known(s, localId) && peer.sipId in endpoints && SameAccount(peer, localId, endpoints[peer.sipId])
    requires var challenged := Serve(md5, s, t1, FirstRegister(peer, localId), endpoints, nonce).server;
             AllLeaveAlone(md5, challenged, endpoints, between, ChallengeKey(localId, endpoints[peer.sipId]), t1 + CHALLENGE_SECONDS)
    requires t2 < t1 + CHALLENGE_SECONDS
    ensures var e := endpoints[peer.sipId];
            var first := Serve(md5, s, t1, FirstRegister(peer, localId), endpoints, nonce);
            && first.answer.Unauthorized? && first.answer.nonce == nonce && first.answer.realm == e.realm
            && var seen := ChallengeSeen(first.answer.realm, first.answer.nonce, first.answer.opaqueText, "MD5", qop);
               var retry := Retry(md5, seen, peer, localId, port, cnonce);
               && retry.Some?
               && var second := Serve(md5, ServeAll(md5, first.server, endpoints, between), t2, retry.value, endpoints, spare);
                  && second.answer == Accepted
                  && localId in second.server.peers && second.server.peers[localId].registered
                  && second.server.peers[localId].expires == RegisterExpires(peer)
                  && (peer.contact.Some? && peer.contact.value.ip != "" && peer.contact.value.port > 0 ==>
                        second.server.peers[localId].address == peer.contact.value)
  {
    var e := endpoints[peer.sipId];
    var key := ChallengeKey(localId, e);
    var first := Serve(md5, s, t1, FirstRegister(peer, localId), endpoints, nonce);
    assert first.server.challenges[key].expiresAt == t1 + CHALLENGE_SECONDS;
    EntryStaysThrough(md5, first.server, endpoints, between, key, localId);
    HonestDigestMatches(md5, e, peer, localId, port, cnonce, nonce, first.answer.opaqueText, qop);
    FirstCount();
  }
}
