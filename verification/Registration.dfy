/** REGISTER with digest challenges (section 22.4 of RFC 3261, section 3.2.2 of RFC 2617): the digest of
    src/core/DigestAuth.cpp, the challenge table of RegisterServerCapability, and the client's retry. */
module DigestAuth {

  /** md5Hex, of which only the shape of its result matters here. */
  type Md5 = string -> string

  predicate IsHexDigest(text: string) {
    |text| == 32 && forall c <- text :: '0' <= c <= '9' || 'a' <= c <= 'f'
  }

  ghost predicate PrintsHex(md5: Md5) {
    forall s :: IsHexDigest(md5(s))
  }

  datatype DigestFields = DigestFields(
    username: string, realm: string, nonce: string, uri: string, response: string,
    algorithm: string, opaqueText: string, qop: string, nc: string, cnonce: string)

  function ToLower(text: string): (lower: string)
    ensures |lower| == |text|
  {
    seq(|text|, i requires 0 <= i < |text| =>
      if 'A' <= text[i] <= 'Z' then text[i] - 'A' + 'a' else text[i])
  }

  function ComputeDigestResponse(
    md5: Md5, verb: string, username: string, realm: string, password: string, nonce: string, uri: string,
    qop: string, nc: string, cnonce: string): string
  {
    var ha1 := md5(username + ":" + realm + ":" + password);
    var ha2 := md5(verb + ":" + uri);
    if qop != "" then md5(ha1 + ":" + nonce + ":" + nc + ":" + cnonce + ":" + qop + ":" + ha2)
    else md5(ha1 + ":" + nonce + ":" + ha2)
  }

  function VerifyDigestResponse(
    md5: Md5, verb: string, fields: DigestFields, expectedUsername: string, expectedRealm: string, password: string): bool
  {
    && fields.username != "" && fields.realm != "" && fields.nonce != ""
    && fields.uri != "" && fields.response != "" && password != ""
    && (expectedUsername == "" || fields.username == expectedUsername)
    && fields.realm == expectedRealm
    && (fields.algorithm == "" || ToLower(fields.algorithm) == "md5")
    && ToLower(fields.response) ==
         ComputeDigestResponse(md5, verb, fields.username, fields.realm, password, fields.nonce, fields.uri,
                               fields.qop, fields.nc, fields.cnonce)
  }

  lemma {:induction false} HexIsLower(text: string)
    requires IsHexDigest(text)
    ensures ToLower(text) == text && text != ""
  {
    forall i | 0 <= i < |text| ensures ToLower(text)[i] == text[i] {
      assert text[i] in text;
    }
  }
}

module Registration {
  import opened Common
  import opened DigestAuth

  // ---------------------------------------------------------------- nonce counts

  const ULONG_MAX := 0xffff_ffff_ffff_ffff

  predicate IsHexDigit(c: char) {
    '0' <= c <= '9' || 'a' <= c <= 'f' || 'A' <= c <= 'F'
  }

  function HexDigit(c: char): (digit: nat)
    requires IsHexDigit(c)
    ensures digit < 16
  {
    if '0' <= c <= '9' then c as int - '0' as int
    else if 'a' <= c <= 'f' then 10 + c as int - 'a' as int
    else 10 + c as int - 'A' as int
  }

  predicate AllHex(text: string) {
    forall i :: 0 <= i < |text| ==> IsHexDigit(text[i])
  }

  function HexValue(text: string): nat
    requires AllHex(text)
  {
    if text == "" then 0 else HexValue(text[..|text| - 1]) * 16 + HexDigit(text[|text| - 1])
  }

  /** Exactly the nonempty hex strings whose value fits an unsigned long. */
  function NonceCount(nc: string): Option<nat> {
    if nc != "" && AllHex(nc) && HexValue(nc) <= ULONG_MAX then Some(HexValue(nc)) else None
  }

  lemma {:induction false} HexValueGrows(text: string, n: nat)
    requires AllHex(text) && n <= |text|
    ensures AllHex(text[..n]) && HexValue(text[..n]) <= HexValue(text)
    decreases |text|
  {
    if n < |text| {
      HexValueGrows(text[..|text| - 1], n);
      assert text[..|text| - 1][..n] == text[..n];
    } else {
      assert text[..n] == text;
    }
  }

  /** The digit loop refuses a value before it would overflow, and refuses nothing else. */
  method ParseNonceCount(nc: string) returns (value: Option<nat>)
    ensures value == NonceCount(nc)
  {
    if nc == "" {
      return None;
    }
    var result := 0;
    for i := 0 to |nc|
      invariant AllHex(nc[..i]) && result == HexValue(nc[..i]) <= ULONG_MAX
    {
      var c := nc[i];
      if !IsHexDigit(c) {
        return None;
      }
      var digit := HexDigit(c);
      assert nc[..i + 1][..i] == nc[..i];
      assert HexValue(nc[..i + 1]) == result * 16 + digit;
      if result > (ULONG_MAX - digit) / 16 {
        if AllHex(nc) {
          HexValueGrows(nc, i + 1);
        }
        return None;
      }
      result := result * 16 + digit;
    }
    assert nc[..|nc|] == nc;
    value := Some(result);
  }

  // ---------------------------------------------------------------- the challenge table

  const CHALLENGE_SECONDS := 300
  const REGISTER_EXPIRES := 3600

  datatype Challenge = Challenge(
    nonce: string, opaqueText: string, expiresAt: int, lastNonceCount: nat, usedWithoutNonceCount: bool)

  type Table = map<string, Challenge>

  datatype Endpoint = Endpoint(sipId: string, realm: string, username: string, password: string)
  {
    predicate RequiresAuth() { realm != "" && password != "" }
  }

  datatype Address = Address(ip: string, port: int)

  /** `contact` is the address the Contact header names, if it names one. */
  datatype RegisterRequest = RegisterRequest(
    fromId: string, toId: string, expires: int, contact: Option<Address>, auth: DigestFields)

  function ChallengeKey(fromId: string, e: Endpoint): string {
    fromId + ":" + e.sipId + ":" + e.realm
  }

  predicate Expired(c: Challenge, now: nat) {
    0 < c.expiresAt <= now
  }

  function Cleanup(t: Table, now: nat): Table {
    map key | key in t && !Expired(t[key], now) :: t[key]
  }

  function Issue(md5: Md5, t: Table, now: nat, fromId: string, e: Endpoint, nonce: string): Table {
    Cleanup(t, now)[ChallengeKey(fromId, e) :=
      Challenge(nonce, md5("gb28181-node:" + e.sipId + ":" + e.realm), now + CHALLENGE_SECONDS, 0, false)]
  }

  function DigestMatches(md5: Md5, request: RegisterRequest, e: Endpoint): bool {
    request.auth.response != "" &&
    VerifyDigestResponse(md5, "REGISTER", request.auth, if e.username == "" then request.fromId else e.username,
                         e.realm, e.password)
  }

  /** Whether the challenge lets this response count: a growing nonce-count with qop, one use without. */
  predicate Usable(c: Challenge, auth: DigestFields) {
    && auth.nonce == c.nonce
    && if auth.qop != "" then
         auth.cnonce != "" && NonceCount(auth.nc).Some? && NonceCount(auth.nc).value > c.lastNonceCount
       else !c.usedWithoutNonceCount
  }

  function Used(c: Challenge, auth: DigestFields): Challenge
    requires Usable(c, auth)
  {
    if auth.qop != "" then c.(lastNonceCount := NonceCount(auth.nc).value) else c.(usedWithoutNonceCount := true)
  }

  predicate Verifies(md5: Md5, t: Table, now: nat, request: RegisterRequest, e: Endpoint) {
    var key := ChallengeKey(request.fromId, e);
    && key in Cleanup(t, now) && Usable(t[key], request.auth) && DigestMatches(md5, request, e)
  }

  function AfterVerify(md5: Md5, t: Table, now: nat, request: RegisterRequest, e: Endpoint): Table {
    var key := ChallengeKey(request.fromId, e);
    if Verifies(md5, t, now, request, e) then Cleanup(t, now)[key := Used(t[key], request.auth)] else Cleanup(t, now)
  }

  // ---------------------------------------------------------------- handling a REGISTER

  datatype Relation = Upstream | Downstream

  datatype PeerRecord = PeerRecord(
    relation: Relation, allowRegister: bool, registered: bool, expires: int, address: Address)

  datatype Server = Server(challenges: Table, peers: map<string, PeerRecord>)

  datatype Answer = Silence | Forbidden | Unauthorized(realm: string, nonce: string, opaqueText: string) | Accepted

  datatype Served = Served(server: Server, answer: Answer)

  /** The address a peer is reached at; a Contact without host or port does not change it. */
  function Reached(p: PeerRecord, contact: Option<Address>): Address {
    if contact.Some? && contact.value.ip != "" && contact.value.port > 0 then contact.value else p.address
  }

  function Mark(p: PeerRecord, request: RegisterRequest): PeerRecord {
    if request.expires == 0 then p.(registered := false, expires := 0)
    else p.(registered := true, expires := request.expires, address := Reached(p, request.contact))
  }

  predicate Known(s: Server, fromId: string) {
    fromId != "" && fromId in s.peers && !(s.peers[fromId].relation == Downstream && !s.peers[fromId].allowRegister)
  }

  function Register(s: Server, table: Table, request: RegisterRequest): Served
    requires request.fromId in s.peers
  {
    Served(Server(table, s.peers[request.fromId := Mark(s.peers[request.fromId], request)]), Accepted)
  }

  /** One REGISTER at time `now`; `nonce` is the value the random source would give a new challenge. */
  function Serve(
    md5: Md5, s: Server, now: nat, request: RegisterRequest, endpoints: map<string, Endpoint>, nonce: string): Served
  {
    var cleaned := s.(challenges := Cleanup(s.challenges, now));
    if request.fromId == "" then Served(cleaned, Silence)
    else if !Known(s, request.fromId) then Served(cleaned, Forbidden)
    else if request.toId !in endpoints || !endpoints[request.toId].RequiresAuth() then
      Register(cleaned, cleaned.challenges, request)
    else
      var e := endpoints[request.toId];
      if request.auth.response == "" then
        var table := Issue(md5, s.challenges, now, request.fromId, e, nonce);
        Served(s.(challenges := table), Unauthorized(e.realm, nonce, table[ChallengeKey(request.fromId, e)].opaqueText))
      else if !Verifies(md5, s.challenges, now, request, e) then Served(cleaned, Forbidden)
      else Register(cleaned, AfterVerify(md5, s.challenges, now, request, e), request)
  }

  class RegisterServer {
    var challenges: Table
    var peers: map<string, PeerRecord>

    function State(): Server
      reads this
    {
      Server(challenges, peers)
    }

    constructor (peers: map<string, PeerRecord>)
      ensures State() == Server(map[], peers)
    {
      this.challenges, this.peers := map[], peers;
    }

    method CleanupExpiredChallenges(now: nat)
      modifies this`challenges
      ensures challenges == Cleanup(old(challenges), now)
    {
      var pending := challenges.Keys;
      while pending != {}
        invariant pending <= old(challenges).Keys
        invariant forall key :: key in challenges <==> key in old(challenges) && (key in pending || !Expired(old(challenges)[key], now))
        invariant forall key <- challenges :: challenges[key] == old(challenges)[key]
        decreases |pending|
      {
        var key :| key in pending;
        if challenges[key].expiresAt > 0 && challenges[key].expiresAt <= now {
          challenges := challenges - {key};
        }
        pending := pending - {key};
      }
    }

    method IssueChallenge(md5: Md5, now: nat, fromId: string, e: Endpoint, nonce: string)
      modifies this`challenges
      ensures challenges == Issue(md5, old(challenges), now, fromId, e, nonce)
    {
      CleanupExpiredChallenges(now);
      var challenge := Challenge(nonce, md5("gb28181-node:" + e.sipId + ":" + e.realm), now + CHALLENGE_SECONDS, 0, false);
      challenges := challenges[ChallengeKey(fromId, e) := challenge];
    }

    method VerifyChallenge(md5: Md5, now: nat, request: RegisterRequest, e: Endpoint) returns (ok: bool)
      modifies this`challenges
      ensures ok == Verifies(md5, old(challenges), now, request, e)
      ensures challenges == AfterVerify(md5, old(challenges), now, request, e)
    {
      CleanupExpiredChallenges(now);
      var key := ChallengeKey(request.fromId, e);
      if key !in challenges {
        return false;
      }
      var challenge := challenges[key];
      if request.auth.nonce != challenge.nonce {
        return false;
      }
      var nonceCount: Option<nat> := Some(0);
      if request.auth.qop != "" {
        nonceCount := ParseNonceCount(request.auth.nc);
        if request.auth.cnonce == "" || nonceCount.None? || nonceCount.value <= challenge.lastNonceCount {
          return false;
        }
      } else if challenge.usedWithoutNonceCount {
        return false;
      }
      if !DigestMatches(md5, request, e) {
        return false;
      }
      if request.auth.qop != "" {
        challenge := challenge.(lastNonceCount := nonceCount.value);
      } else {
        challenge := challenge.(usedWithoutNonceCount := true);
      }
      challenges := challenges[key := challenge];
      ok := true;
    }

    method UpdateAddress(sipId: string, contact: Option<Address>)
      requires sipId in peers
      modifies this`peers
      ensures peers == old(peers)[sipId := old(peers)[sipId].(address := Reached(old(peers)[sipId], contact))]
    {
      if contact.None? || contact.value.ip == "" || contact.value.port <= 0 {
        assert peers[sipId].(address := peers[sipId].address) == peers[sipId];
        return;
      }
      peers := peers[sipId := peers[sipId].(address := contact.value)];
    }

    method HandleRegister(
      md5: Md5, now: nat, request: RegisterRequest, endpoints: map<string, Endpoint>, nonce: string)
      returns (answer: Answer)
      modifies this
      ensures Served(State(), answer) == Serve(md5, old(State()), now, request, endpoints, nonce)
    {
      CleanupExpiredChallenges(now);
      CleanupTwice(old(challenges), now);
      if request.fromId == "" {
        return Silence;
      }
      if request.fromId !in peers {
        return Forbidden;
      }
      if peers[request.fromId].relation == Downstream && !peers[request.fromId].allowRegister {
        return Forbidden;
      }
      var requiresAuth := request.toId in endpoints && endpoints[request.toId].RequiresAuth();
      if requiresAuth && request.auth.response == "" {
        var e := endpoints[request.toId];
        IssueChallenge(md5, now, request.fromId, e, nonce);
        return Unauthorized(e.realm, nonce, challenges[ChallengeKey(request.fromId, e)].opaqueText);
      }
      if requiresAuth {
        var ok := VerifyChallenge(md5, now, request, endpoints[request.toId]);
        if !ok {
          return Forbidden;
        }
      }
      if request.expires == 0 {
        peers := peers[request.fromId := peers[request.fromId].(registered := false, expires := 0)];
      } else {
        peers := peers[request.fromId := peers[request.fromId].(registered := true, expires := request.expires)];
        UpdateAddress(request.fromId, request.contact);
      }
      answer := Accepted;
    }
  }

  lemma {:induction false} CleanupTwice(t: Table, now: nat)
    ensures Cleanup(Cleanup(t, now), now) == Cleanup(t, now)
  {
  }
}
