/**
 The queue token: a signed compact token (section 7.1 of RFC 7515) that the waiting room issues and
 that both its own verifier and the storefront's middleware check. The MAC and the JSON printer and
 parser are parameters.
 */
module QueueToken {
  import opened Collections
  import opened Bytes
  import opened Base64Url

  const LEEWAY_SEC := 5
  const DEFAULT_ISSUER := "tiket-waiting-room"
  const DEFAULT_AUDIENCE := "tiket-checkout"
  const JTI_MARGIN_SEC := 10

  /** What a parsed payload says; every claim may be missing. */
  datatype Payload = Payload(
    iss: Option<string>,
    aud: Option<string>,
    exp: Option<int>,
    nbf: Option<int>,
    jti: Option<string>,
    userId: Option<string>,
    eventId: Option<string>)

  datatype Claims = Claims(iss: string, aud: string, iat: int, exp: int, nbf: int, jti: string, userId: string,
      eventId: string)

  function PayloadOf(c: Claims): Payload {
    Payload(Some(c.iss), Some(c.aud), Some(c.exp), Some(c.nbf), Some(c.jti), Some(c.userId), Some(c.eventId))
  }

  /** `header` is the printed header; `mac` maps secret and text to a signature. */
  datatype Library = Library(
    header: seq<Byte>,
    mac: (string, string) -> seq<Byte>,
    print_: Claims -> seq<Byte>,
    parse: seq<Byte> -> Option<Payload>)

  /** Parsing undoes printing. */
  ghost predicate Faithful(lib: Library) {
    forall c :: lib.parse(lib.print_(c)) == Some(PayloadOf(c))
  }

  // ---- Issuing

  function OrDefault(v: Option<string>, default: string): string {
    if v.Some? then v.value else default
  }

  function Issued(now: int, ttl: int, jti: string, user: string, event: string, issuer: Option<string>,
      audience: Option<string>): Claims {
    Claims(OrDefault(issuer, DEFAULT_ISSUER), OrDefault(audience, DEFAULT_AUDIENCE), now, now + ttl, now, jti, user,
        event)
  }

  function Signed(lib: Library, secret: string, c: Claims): string {
    var data := Encode(lib.header) + "." + Encode(lib.print_(c));
    data + "." + Encode(lib.mac(secret, data))
  }

  // ---- Splitting

  /** String.split on full stops. */
  function Split(s: string): (r: seq<string>)
    ensures |r| > 0
  {
    if s == "" then [""]
    else
      var rest := Split(s[1..]);
      if s[0] == '.' then [""] + rest else [[s[0]] + rest[0]] + rest[1..]
  }

  lemma {:induction false} SplitNone(s: string)
    requires '.' !in s
    ensures Split(s) == [s]
  {
    if s != "" {
      SplitNone(s[1..]);
      assert s == [s[0]] + s[1..];
    }
  }

  lemma {:induction false} SplitFirst(a: string, rest: string)
    requires '.' !in a
    ensures Split(a + "." + rest) == [a] + Split(rest)
  {
    if a == "" {
      assert ("" + "." + rest)[1..] == rest;
    } else {
      SplitFirst(a[1..], rest);
      assert (a + "." + rest)[1..] == a[1..] + "." + rest;
      assert a == [a[0]] + a[1..];
    }
  }

  /** A text without full stops in each of its three parts splits into exactly these. */
  lemma SplitThree(h: string, p: string, s: string)
    requires '.' !in h && '.' !in p && '.' !in s
    ensures Split(h + "." + p + "." + s) == [h, p, s]
  {
    SplitNone(s);
    SplitFirst(p, s);
    SplitFirst(h, p + "." + s);
    assert h + "." + p + "." + s == h + "." + (p + "." + s);
  }

  function Joined(parts: seq<string>): string
    requires |parts| > 0
  {
    if |parts| == 1 then parts[0] else parts[0] + "." + Joined(parts[1..])
  }

  /** The parts have no full stops, and joined by full stops they are the text. */
  lemma {:induction false} SplitJoins(s: string)
    ensures Joined(Split(s)) == s && forall i :: 0 <= i < |Split(s)| ==> '.' !in Split(s)[i]
  {
    if s != "" {
      var rest := Split(s[1..]);
      SplitJoins(s[1..]);
      assert s == [s[0]] + s[1..];
      if s[0] == '.' {
        assert Split(s)[1..] == rest;
        assert "" + "." + Joined(rest) == s;
      } else {
        assert Split(s)[1..] == rest[1..];
        if |rest| > 1 {
          assert [s[0]] + rest[0] + "." + Joined(rest[1..]) == [s[0]] + (rest[0] + "." + Joined(rest[1..]));
        }
      }
    }
  }

  // ---- Checking signature and payload

  datatype Reading = Malformed | Throws | BadSignature | BadPayload | Read(payload: Payload)

  /** The common first half of both verifiers. A signature part that does not decode throws. */
  function ReadToken(lib: Library, secret: string, token: string): Reading {
    var parts := Split(token);
    if |parts| != 3 then Malformed
    else
      match Decode(parts[2])
      case None => Throws
      case Some(signature) =>
        if signature != lib.mac(secret, parts[0] + "." + parts[1]) then BadSignature
        else
          match Decode(parts[1])
          case None => BadPayload
          case Some(bytes) =>
            match lib.parse(bytes)
            case None => BadPayload
            case Some(payload) => Read(payload)
  }

  predicate Truthy(v: Option<string>) {
    v.Some? && v.value != ""
  }

  predicate InTime(p: Payload, now: int) {
    && !(p.exp.Some? && now > p.exp.value + LEEWAY_SEC)
    && !(p.nbf.Some? && now + LEEWAY_SEC < p.nbf.value)
  }

  /** What the waiting room asks of a payload; issuer and audience are checked when given. */
  predicate WorkerPolicy(p: Payload, issuer: Option<string>, audience: Option<string>, now: int) {
    && InTime(p, now)
    && (Truthy(issuer) ==> p.iss == issuer)
    && (Truthy(audience) ==> p.aud == audience)
    && Truthy(p.jti) && Truthy(p.userId) && Truthy(p.eventId)
  }

  predicate WorkerAccepts(lib: Library, secret: string, token: string, issuer: Option<string>, audience: Option<string>,
      now: int) {
    var reading := ReadToken(lib, secret, token);
    reading.Read? && WorkerPolicy(reading.payload, issuer, audience, now)
  }

  /**
   What the middleware asks of a payload. `route` is the event id of the route, if it has one, and
   `allowlist` the jti keys of the event that are stored, if a store is configured.
   */
  predicate MiddlewarePolicy(p: Payload, issuer: Option<string>, audience: Option<string>, route: Option<string>,
                             allowlist: Option<set<string>>, now: int) {
    && InTime(p, now)
    && p.iss == Some(OrDefault(issuer, DEFAULT_ISSUER))
    && p.aud == Some(OrDefault(audience, DEFAULT_AUDIENCE))
    && Truthy(p.eventId) && Truthy(p.userId)
    && (Truthy(route) ==> p.eventId == route)
    && (allowlist.Some? && Truthy(p.jti) ==> p.jti.value in allowlist.value)
  }

  /** Without a secret the middleware lets everything pass. */
  predicate MiddlewareAccepts(lib: Library, secret: string, token: string, issuer: Option<string>,
      audience: Option<string>, route: Option<string>, allowlist: Option<set<string>>, now: int)
  {
    var reading := ReadToken(lib, secret, token);
    secret == "" || (reading.Read? && MiddlewarePolicy(reading.payload, issuer, audience, route, allowlist, now))
  }

  /** A jti key stored at `stored` under the issued lifetime and margin is still there. */
  predicate JtiPresent(stored: int, ttl: int, now: int) {
    now < stored + ttl + JTI_MARGIN_SEC
  }

  /** The last part decodes to the MAC of the others under the secret, and the second to bytes that parse. */
  ghost predicate Authentic(lib: Library, secret: string, payload: Payload, h: string, p: string, s: string) {
    && '.' !in h && '.' !in p && '.' !in s
    && Decode(s) == Some(lib.mac(secret, h + "." + p))
    && Decode(p).Some? && lib.parse(Decode(p).value) == Some(payload)
  }

  /** A token is read exactly if it consists of three parts that are authentic; nothing else in it matters. */
  lemma ReadIsAuthentic(lib: Library, secret: string, token: string, payload: Payload)
    ensures ReadToken(lib, secret, token) == Read(payload)
      <==> exists h, p, s :: token == h + "." + p + "." + s && Authentic(lib, secret, payload, h, p, s)
  {
    if ReadToken(lib, secret, token) == Read(payload) {
      var h, p, s := PartsOf(lib, secret, token, payload);
    }
    hide Decode, Split, ReadToken, Authentic;
    if h, p, s :| token == h + "." + p + "." + s && Authentic(lib, secret, payload, h, p, s) {
      AuthenticIsRead(lib, secret, payload, h, p, s);
    }
  }

  lemma PartsOf(lib: Library, secret: string, token: string, payload: Payload) returns (h: string, p: string, s: string)
    requires ReadToken(lib, secret, token) == Read(payload)
    ensures token == h + "." + p + "." + s && Authentic(lib, secret, payload, h, p, s)
  {
    hide Decode, Split;
    var parts := Split(token);
    SplitJoins(token);
    JoinedThree(parts);
    h, p, s := parts[0], parts[1], parts[2];
  }

  lemma AuthenticIsRead(lib: Library, secret: string, payload: Payload, h: string, p: string, s: string)
    requires Authentic(lib, secret, payload, h, p, s)
    ensures ReadToken(lib, secret, h + "." + p + "." + s) == Read(payload)
  {
    hide Decode, Split;
    SplitThree(h, p, s);
  }

  lemma JoinedThree(parts: seq<string>)
    requires |parts| == 3
    ensures Joined(parts) == parts[0] + "." + parts[1] + "." + parts[2]
  {
    assert parts[1..][1..] == [parts[2]];
    assert Joined(parts[1..]) == parts[1] + "." + parts[2];
  }

  // ---- Policies on any payload, issued here or not

  /**
   Asked for the same issuer and audience, the waiting room accepts exactly those payloads that the middleware accepts
   for any route and without a store, and that name a token id.
   */
  lemma PoliciesCompare(p: Payload, issuer: string, audience: string, now: int)
    requires issuer != "" && audience != ""
    ensures WorkerPolicy(p, Some(issuer), Some(audience), now)
      <==> MiddlewarePolicy(p, Some(issuer), Some(audience), None, None, now) && p.jti.Some? && p.jti.value != ""
    ensures WorkerPolicy(p, Some(issuer), Some(audience), now) ==>
              p.userId.Some? && p.userId.value != "" && p.eventId.Some? && p.eventId.value != ""
              && p.iss == Some(issuer) && p.aud == Some(audience)
  {
  }

  /** Acceptance is for a stretch of time: without an end if there is no expiry, and up to 5 seconds after it else. */
  lemma AcceptedThroughout(p: Payload, issuer: Option<string>, audience: Option<string>, since: int, now: int)
    requires WorkerPolicy(p, issuer, audience, since) && since <= now
    ensures WorkerPolicy(p, issuer, audience, now) <==> (p.exp.Some? ==> now <= p.exp.value + 5)
    ensures p.nbf.Some? ==> since >= p.nbf.value - 5
  {
  }

  // ---- Round trip

  /** A signed token splits into its three parts. */
  lemma SignedHasThreeParts(lib: Library, secret: string, c: Claims)
    ensures var h, p := Encode(lib.header), Encode(lib.print_(c));
            Split(Signed(lib, secret, c)) == [h, p, Encode(lib.mac(secret, h + "." + p))]
  {
    var h, p := Encode(lib.header), Encode(lib.print_(c));
    var s := Encode(lib.mac(secret, h + "." + p));
    EncodeHasNoStop(lib.header);
    EncodeHasNoStop(lib.print_(c));
    EncodeHasNoStop(lib.mac(secret, h + "." + p));
    SplitThree(h, p, s);
    hide Encode, Split;
  }

  /** Reading a signed token under the same secret gives back its claims. */
  lemma ReadSigned(lib: Library, secret: string, c: Claims)
    requires Faithful(lib)
    ensures ReadToken(lib, secret, Signed(lib, secret, c)) == Read(PayloadOf(c))
  {
    SignedHasThreeParts(lib, secret, c);
    var h, p := Encode(lib.header), Encode(lib.print_(c));
    DecodeEncode(lib.print_(c));
    DecodeEncode(lib.mac(secret, h + "." + p));
    hide Encode, Decode, Split, Signed;
  }

  /** Under another secret it is read only if the two secrets give the same MAC. */
  lemma ReadUnderOtherSecret(lib: Library, secret: string, other: string, c: Claims)
    requires Faithful(lib)
    ensures var data := Encode(lib.header) + "." + Encode(lib.print_(c));
            ReadToken(lib, other, Signed(lib, secret, c)).Read? <==> lib.mac(other, data) == lib.mac(secret, data)
  {
    SignedHasThreeParts(lib, secret, c);
    var h, p := Encode(lib.header), Encode(lib.print_(c));
    DecodeEncode(lib.print_(c));
    DecodeEncode(lib.mac(secret, h + "." + p));
    hide Encode, Decode, Split, Signed;
  }

  /** The times at which a token is accepted. */
  predicate Window(issued: int, ttl: int, now: int) {
    issued - LEEWAY_SEC <= now <= issued + ttl + LEEWAY_SEC
  }

  /**
   The token round trip: the waiting room's verifier accepts an issued token exactly from 5 seconds before to 5 seconds
   after its lifetime, if it names id, user and event, and was issued for whatever issuer and audience are asked for.
   */
  lemma WorkerAcceptsIssued(lib: Library, secret: string, at: int, ttl: int, jti: string, user: string, event: string,
                            issuer: Option<string>, audience: Option<string>,
                            issuer': Option<string>, audience': Option<string>, now: int)
    requires Faithful(lib)
    ensures WorkerAccepts(lib, secret, Signed(lib, secret, Issued(at, ttl, jti, user, event, issuer, audience)),
        issuer', audience', now)
      <==> && at - 5 <= now <= at + ttl + 5
           && jti != "" && user != "" && event != ""
           && (Truthy(issuer') ==> issuer'.value == OrDefault(issuer, "tiket-waiting-room"))
           && (Truthy(audience') ==> audience'.value == OrDefault(audience, "tiket-checkout"))
  {
    var c := Issued(at, ttl, jti, user, event, issuer, audience);
    ReadSigned(lib, secret, c);
    IssuedTimes(at, ttl, jti, user, event, issuer, audience, now);
    hide ReadToken, Signed, Issued, PayloadOf, InTime, OrDefault;
  }

  lemma IssuedTimes(at: int, ttl: int, jti: string, user: string, event: string, issuer: Option<string>,
      audience: Option<string>, now: int)
    ensures var p := PayloadOf(Issued(at, ttl, jti, user, event, issuer, audience));
            && (InTime(p, now) <==> at - 5 <= now <= at + ttl + 5)
            && p.iss == Some(OrDefault(issuer, "tiket-waiting-room"))
            && p.aud == Some(OrDefault(audience, "tiket-checkout"))
            && p.jti == Some(jti) && p.userId == Some(user) && p.eventId == Some(event)
  {
  }

  /**
   The middleware accepts it in the same window, if it names user and event, its issuer and audience are those expected,
   the route names no other event, and the id is stored, absent, or no store is configured.
   */
  lemma MiddlewareAcceptsIssued(lib: Library, secret: string, at: int, ttl: int, jti: string, user: string,
      event: string, issuer: Option<string>, audience: Option<string>, issuer': Option<string>,
      audience': Option<string>, route: Option<string>, allowlist: Option<set<string>>, now: int)
    requires Faithful(lib)
    ensures MiddlewareAccepts(lib, secret, Signed(lib, secret, Issued(at, ttl, jti, user, event, issuer, audience)),
                              issuer', audience', route, allowlist, now)
      <==> secret == "" ||
           (&& at - 5 <= now <= at + ttl + 5
            && user != "" && event != ""
            && OrDefault(issuer, "tiket-waiting-room") == OrDefault(issuer', "tiket-waiting-room")
            && OrDefault(audience, "tiket-checkout") == OrDefault(audience', "tiket-checkout")
            && (Truthy(route) ==> route == Some(event))
            && (allowlist.Some? && jti != "" ==> jti in allowlist.value))
  {
    var c := Issued(at, ttl, jti, user, event, issuer, audience);
    ReadSigned(lib, secret, c);
    IssuedTimes(at, ttl, jti, user, event, issuer, audience, now);
    hide ReadToken, Signed, Issued, PayloadOf, InTime, OrDefault;
  }

  /**
   The jti entry, stored no earlier than the token was issued, outlives the window, so the allowlist
   never turns away a token of its own that both verifiers would still accept.
   */
  lemma JtiOutlivesWindow(at: int, ttl: int, stored: int, now: int)
    requires stored >= at && Window(at, ttl, now)
    ensures JtiPresent(stored, ttl, now)
  {
  }

  /** With matching configuration, the two verifiers agree on every issued token at every moment. */
  lemma VerifiersAgree(lib: Library, secret: string, at: int, ttl: int, jti: string, user: string, event: string,
                       issuer: Option<string>, audience: Option<string>, stored: int, others: set<string>, now: int)
    requires Faithful(lib) && jti != "" && user != "" && event != "" && secret != "" && stored >= at && jti !in others
    ensures var token := Signed(lib, secret, Issued(at, ttl, jti, user, event, issuer, audience));
            var allowlist := others + (if JtiPresent(stored, ttl, now) then {jti} else {});
            WorkerAccepts(lib, secret, token, issuer, audience, now)
            <==> MiddlewareAccepts(lib, secret, token, issuer, audience, Some(event), Some(allowlist), now)
  {
    var allowlist := others + (if JtiPresent(stored, ttl, now) then {jti} else {});
    WorkerAcceptsIssued(lib, secret, at, ttl, jti, user, event, issuer, audience, issuer, audience, now);
    MiddlewareAcceptsIssued(lib, secret, at, ttl, jti, user, event, issuer, audience, issuer, audience, Some(event),
        Some(allowlist), now);
    if Window(at, ttl, now) {
      JtiOutlivesWindow(at, ttl, stored, now);
    }
    hide Signed, WorkerAccepts, MiddlewareAccepts;
  }
}
