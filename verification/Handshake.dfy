/** The three handshake families: public keys, shared secret and quantum-distributed keys. */
module Handshakes {
  import opened Bytes
  import opened Codec
  import opened Messages
  import opened Sessions
  import opened Timing
  import QixKeyStoring

  // ---- Primitives ----

  type Digest = s: seq<Byte> | |s| == 32 witness seq(32, i => 0)

  datatype Suite = Suite(hash: seq<Byte> -> Digest, hmac: (seq<Byte>, seq<Byte>) -> Digest)

  datatype Dh = Dh(publicOf: seq<Byte> -> Digest, agree: (seq<Byte>, seq<Byte>) -> Option<Digest>)

  ghost predicate Commutes(dh: Dh) {
    forall a, b :: dh.agree(a, dh.publicOf(b)) == dh.agree(b, dh.publicOf(a))
  }

  /** Two session keys out of a salt and input key material. */
  function Hkdf(suite: Suite, salt: seq<Byte>, ikm: seq<Byte>): (Digest, Digest) {
    var prk := suite.hmac(salt, ikm);
    var first := suite.hmac(prk, [0x01]);
    (first, suite.hmac(prk, first + [0x02]))
  }

  /** The n-th block of HKDF-Expand, section 2.3 of RFC 5869. */
  function ExpandBlock(suite: Suite, prk: seq<Byte>, info: seq<Byte>, n: nat): seq<Byte>
    requires n < 256
  {
    if n == 0 then [] else suite.hmac(prk, ExpandBlock(suite, prk, info, n - 1) + info + [n])
  }

  lemma HkdfIsRfc5869(suite: Suite, salt: seq<Byte>, ikm: seq<Byte>)
    ensures var prk := suite.hmac(salt, ikm);
            Hkdf(suite, salt, ikm).0 == ExpandBlock(suite, prk, [], 1) && Hkdf(suite, salt, ikm).1 == ExpandBlock(suite, prk, [], 2)
  {
    var prk := suite.hmac(salt, ikm);
    assert [] + [] + [0x01 as Byte] == [0x01];
    var first := ExpandBlock(suite, prk, [], 1);
    assert first + [] + [0x02 as Byte] == first + [0x02];
  }

  function Transcript(suite: Suite, request: seq<Byte>, reply: seq<Byte>): Digest {
    suite.hash(suite.hash(request) + reply)
  }

  /** One buffer, overwritten twice. */
  method ComputeTranscript(suite: Suite, first: seq<Byte>, second: seq<Byte>) returns (value: Digest)
    ensures value == Transcript(suite, first, second)
  {
    value := suite.hash(first);
    value := suite.hash(value + second);
  }

  /** Ephemeral with ephemeral, ephemeral with the remote static key, static with the remote ephemeral. */
  datatype Shared = Shared(dh1: Digest, dh2: Digest, dh3: Digest)

  function TripleDh(dh: Dh, staticPrivate: seq<Byte>, ephemeralPrivate: seq<Byte>, remoteStatic: seq<Byte>, remoteEphemeral: seq<Byte>)
    : Option<Shared>
  {
    match (dh.agree(ephemeralPrivate, remoteEphemeral), dh.agree(ephemeralPrivate, remoteStatic), dh.agree(staticPrivate, remoteEphemeral))
    case (Some(dh1), Some(dh2), Some(dh3)) => Some(Shared(dh1, dh2, dh3))
    case _ => None
  }

  method ComputeTripleDh(dh: Dh, staticPrivate: seq<Byte>, ephemeralPrivate: seq<Byte>, remoteStatic: seq<Byte>, remoteEphemeral: seq<Byte>)
    returns (r: Option<Shared>)
    ensures r == TripleDh(dh, staticPrivate, ephemeralPrivate, remoteStatic, remoteEphemeral)
  {
    var dh1 := dh.agree(ephemeralPrivate, remoteEphemeral);
    if dh1.None? {
      return None;
    }
    var dh2 := dh.agree(ephemeralPrivate, remoteStatic);
    if dh2.None? {
      return None;
    }
    var dh3 := dh.agree(staticPrivate, remoteEphemeral);
    if dh3.None? {
      return None;
    }
    return Some(Shared(dh1.value, dh2.value, dh3.value));
  }

  // ---- Algorithms ----

  datatype HandshakeError =
    | BadMessageFormat | UnsupportedVersion | UnsupportedEphemeral | UnsupportedHash | UnsupportedKdf
    | UnsupportedSessionMode | UnsupportedNonceMode | BadCertificate | NoPriorHandshakeBegin | KeyNotFound | Unknown

  datatype Platform = Platform(
    suite: Suite, dh: Dh, sha256: bool, gcm: bool, x25519: bool, macMode: Aead, gcmMode: Aead, ticksPerMs: nat, maxPayload: nat)

  datatype Configured = Use(algorithms: Algorithms) | Unsupported(error: HandshakeError)

  function Configure(p: Platform, spec: CryptoSpec): Configured {
    if spec.hash != 0x00 || !p.sha256 then Unsupported(UnsupportedHash)
    else if spec.kdf != 0x00 then Unsupported(UnsupportedKdf)
    else if spec.nonceMode > 0x01 then Unsupported(UnsupportedNonceMode)
    else if spec.cryptoMode > 0x01 || (spec.cryptoMode == 0x01 && !p.gcm) then Unsupported(UnsupportedSessionMode)
    else Use(Algorithms(
      if spec.nonceMode == 0x00 then StrictIncrement else GreaterThanLast,
      if spec.cryptoMode == 0x00 then p.macMode else p.gcmMode))
  }

  const PROTOCOL: Version := Version(0, 1)

  // ---- What each side ends up with ----

  function InitiatorSession(p: Platform, algorithms: Algorithms, requestHash: Digest, reply: seq<Byte>, ikm: seq<Byte>,
                            limits: Constraints, requestTx: int, now: int): State
    requires requestTx <= now
  {
    var keys := Hkdf(p.suite, p.suite.hash(requestHash + reply), ikm);
    Fresh(algorithms,
          Params(EstimatedStart(requestTx, now), limits.maxNonce, limits.maxSessionDuration * p.ticksPerMs),
          Keys(keys.1, keys.0))
  }

  function ResponderSession(p: Platform, algorithms: Algorithms, request: seq<Byte>, reply: seq<Byte>, ikm: seq<Byte>,
                            limits: Constraints, now: int): State
  {
    var keys := Hkdf(p.suite, Transcript(p.suite, request, reply), ikm);
    Fresh(algorithms, Params(now, limits.maxNonce, limits.maxSessionDuration * p.ticksPerMs), Keys(keys.0, keys.1))
  }

  /** What an initiator knows when the reply comes in. Certificates are checked by a function from
      mode data to the peer's static public key. */
  datatype InitiatorSecrets =
    | PublicKeys(staticPrivate: seq<Byte>, ephemeralPrivate: seq<Byte>, check: seq<Byte> -> Option<seq<Byte>>)
    | SharedSecret(key: seq<Byte>, nonce: seq<Byte>)
    | Quantum(quantumKey: Option<seq<Byte>>)

  function InitiatorMaterial(p: Platform, s: InitiatorSecrets, reply: Reply): Option<seq<Byte>> {
    match s
    case PublicKeys(staticPrivate, ephemeralPrivate, check) =>
      (match check(reply.modeData)
       case None => None
       case Some(remote) =>
         match TripleDh(p.dh, staticPrivate, ephemeralPrivate, remote, reply.modeEphemeral)
         case None => None
         case Some(d) => Some(d.dh1 + d.dh3 + d.dh2))
    case SharedSecret(key, nonce) =>
      if |reply.modeEphemeral| != NONCE_LENGTH || reply.modeData != [] then None else Some(key + nonce + reply.modeEphemeral)
    case Quantum(key) =>
      if reply.modeEphemeral != [] || reply.modeData != [] then None else key
  }

  const NONCE_LENGTH: nat := 32
  const X25519_LENGTH: nat := 32

  function Initiate(p: Platform, s: InitiatorSecrets, algorithms: Algorithms, requestHash: Digest, reply: Reply, replyOctets: seq<Byte>,
                    limits: Constraints, requestTx: int, now: int): Option<State>
  {
    match InitiatorMaterial(p, s, reply)
    case None => None
    case Some(ikm) =>
      if now < requestTx then None
      else Some(InitiatorSession(p, algorithms, requestHash, replyOctets, ikm, limits, requestTx, now))
  }

  datatype Checked = Remote(key: seq<Byte>) | Distrusted(error: HandshakeError)

  datatype ResponderSecrets =
    | PublicKeysR(staticPrivate: seq<Byte>, ephemeralPrivate: seq<Byte>, certificate: seq<Byte>, check: (Byte, seq<Byte>) -> Checked)
    | SharedSecretR(key: seq<Byte>, nonce: seq<Byte>)
    | QuantumR(lookup: nat -> Option<seq<Byte>>)

  /** The reply a responder prepares, with the key material behind it when there is any. */
  datatype Prepared = Prepared(algorithms: Algorithms, reply: Reply, ikm: Option<seq<Byte>>) | Declined(error: HandshakeError)

  const KEY_ID_LENGTH: nat := 8

  function Prepare(p: Platform, s: ResponderSecrets, m: Request): Prepared {
    match s
    case PublicKeysR(staticPrivate, ephemeralPrivate, certificate, check) =>
      (match Configure(p, m.spec)
       case Unsupported(e) => Declined(e)
       case Use(algorithms) =>
         if m.spec.ephemeral != 0x00 || !p.x25519 then Declined(UnsupportedEphemeral)
         else if |m.modeEphemeral| != X25519_LENGTH then Declined(BadMessageFormat)
         else
           match check(m.mode, m.modeData)
           case Distrusted(e) => Declined(e)
           case Remote(remote) =>
             var reply := Reply(PROTOCOL, p.dh.publicOf(ephemeralPrivate), certificate);
             match TripleDh(p.dh, staticPrivate, ephemeralPrivate, remote, m.modeEphemeral)
             case None => Prepared(algorithms, reply, None)
             case Some(d) => Prepared(algorithms, reply, Some(d.dh1 + d.dh2 + d.dh3)))
    case SharedSecretR(key, nonce) =>
      if |m.modeEphemeral| != NONCE_LENGTH || m.modeData != [] then Declined(BadMessageFormat)
      else
        (match Configure(p, m.spec)
         case Unsupported(e) => Declined(e)
         case Use(algorithms) => Prepared(algorithms, Reply(PROTOCOL, nonce, []), Some(key + m.modeEphemeral + nonce)))
    case QuantumR(lookup) =>
      if m.modeEphemeral != [] then Declined(BadMessageFormat)
      else
        match Configure(p, m.spec)
        case Unsupported(e) => Declined(e)
        case Use(algorithms) =>
          if |m.modeData| != KEY_ID_LENGTH then Declined(BadMessageFormat)
          else
            match lookup(FromBigEndian(m.modeData))
            case None => Declined(KeyNotFound)
            case Some(key) => Prepared(algorithms, Reply(PROTOCOL, [], []), Some(key))
  }

  predicate CanWrite(r: Reply, capacity: nat) {
    ValidReply(r) && |EncodeReply(r)| <= capacity
  }

  datatype Processed = Replied(reply: seq<Byte>) | Refused(error: HandshakeError)

  /** The answer to a request, and the session it starts. */
  function Respond(p: Platform, s: ResponderSecrets, m: Request, octets: seq<Byte>, now: int): (Processed, Option<State>) {
    match Prepare(p, s, m)
    case Declined(e) => (Refused(e), None)
    case Prepared(algorithms, reply, ikm) =>
      if !CanWrite(reply, p.maxPayload) || ikm.None? then (Refused(Unknown), None)
      else
        (Replied(EncodeReply(reply)),
         Some(ResponderSession(p, algorithms, octets, EncodeReply(reply), ikm.value, m.constraints, now)))
  }

  // ---- The initiator objects ----

  class PublicKeyInitiator {
    const platform: Platform
    const algorithms: Algorithms
    const staticPrivate: seq<Byte>
    const certificate: seq<Byte>
    const check: seq<Byte> -> Option<seq<Byte>>
    var ephemeralPrivate: seq<Byte>
    var requestHash: Digest
    var requestTx: int

    constructor (platform: Platform, algorithms: Algorithms, staticPrivate: seq<Byte>, certificate: seq<Byte>,
                 check: seq<Byte> -> Option<seq<Byte>>)
      ensures this.platform == platform && this.algorithms == algorithms && this.staticPrivate == staticPrivate
      ensures this.certificate == certificate && this.check == check
    {
      this.platform, this.algorithms, this.staticPrivate := platform, algorithms, staticPrivate;
      this.certificate, this.check := certificate, check;
      ephemeralPrivate, requestHash, requestTx := [], seq(32, i => 0), 0;
    }

    ghost function Secrets(): InitiatorSecrets
      reads this
    {
      PublicKeys(staticPrivate, ephemeralPrivate, check)
    }

    /** Start over with a fresh ephemeral key; the result goes into the request. */
    method InitializeNewHandshake(fresh_: seq<Byte>) returns (ephemeral: seq<Byte>, data: seq<Byte>)
      modifies this`ephemeralPrivate
      ensures ephemeralPrivate == fresh_ && ephemeral == platform.dh.publicOf(fresh_) && data == certificate
    {
      ephemeralPrivate := fresh_;
      return platform.dh.publicOf(fresh_), certificate;
    }

    method FinalizeRequestTx(request: seq<Byte>, now: int)
      modifies this`requestTx, this`requestHash
      ensures requestTx == now && requestHash == platform.suite.hash(request)
    {
      requestTx := now;
      requestHash := platform.suite.hash(request);
    }

    method MixHandshakeHash(input: seq<Byte>) returns (salt: Digest)
      modifies this`requestHash
      ensures salt == requestHash == platform.suite.hash(old(requestHash) + input)
    {
      requestHash := platform.suite.hash(requestHash + input);
      return requestHash;
    }

    method InitializeSession(reply: Reply, octets: seq<Byte>, limits: Constraints, now: int, session: Session) returns (ok: bool)
      requires session.Valid() && limits.maxNonce <= MAX_U16
      modifies this`requestHash, session
      ensures session.Valid()
      ensures var r := Initiate(platform, old(Secrets()), algorithms, old(requestHash), reply, octets, limits, requestTx, now);
              ok == r.Some? && session.View() == if ok then r.value else old(session.View())
    {
      var remote := check(reply.modeData);
      if remote.None? {
        return false;
      }
      var salt := MixHandshakeHash(octets);
      var shared := ComputeTripleDh(platform.dh, staticPrivate, ephemeralPrivate, remote.value, reply.modeEphemeral);
      if shared.None? {
        return false;
      }
      var d := shared.value;
      var keys := Hkdf(platform.suite, salt, d.dh1 + d.dh3 + d.dh2);
      if now < requestTx {
        return false;
      }
      ok := session.Initialize(
        algorithms,
        Params(now - (now - requestTx) / 2, limits.maxNonce, limits.maxSessionDuration * platform.ticksPerMs),
        Keys(keys.1, keys.0));
    }
  }

  class SharedSecretInitiator {
    const platform: Platform
    const algorithms: Algorithms
    const key: seq<Byte>
    var nonce: seq<Byte>
    var requestHash: Digest
    var requestTx: int

    constructor (platform: Platform, algorithms: Algorithms, key: seq<Byte>)
      ensures this.platform == platform && this.algorithms == algorithms && this.key == key
    {
      this.platform, this.algorithms, this.key := platform, algorithms, key;
      nonce, requestHash, requestTx := [], seq(32, i => 0), 0;
    }

    ghost function Secrets(): InitiatorSecrets
      reads this
    {
      SharedSecret(key, nonce)
    }

    method InitializeNewHandshake(random: seq<Byte>) returns (ephemeral: seq<Byte>, data: seq<Byte>)
      requires |random| == NONCE_LENGTH
      modifies this`nonce
      ensures nonce == ephemeral == random && data == []
    {
      nonce := random;
      return nonce, [];
    }

    method FinalizeRequestTx(request: seq<Byte>, now: int)
      modifies this`requestTx, this`requestHash
      ensures requestTx == now && requestHash == platform.suite.hash(request)
    {
      requestTx := now;
      requestHash := platform.suite.hash(request);
    }

    method InitializeSession(reply: Reply, octets: seq<Byte>, limits: Constraints, now: int, session: Session) returns (ok: bool)
      requires session.Valid() && limits.maxNonce <= MAX_U16
      modifies this`requestHash, session
      ensures session.Valid()
      ensures var r := Initiate(platform, old(Secrets()), algorithms, old(requestHash), reply, octets, limits, requestTx, now);
              ok == r.Some? && session.View() == if ok then r.value else old(session.View())
    {
      if |reply.modeEphemeral| != NONCE_LENGTH {
        return false;
      }
      if reply.modeData != [] {
        return false;
      }
      requestHash := platform.suite.hash(requestHash + octets);
      var keys := Hkdf(platform.suite, requestHash, key + nonce + reply.modeEphemeral);
      if now < requestTx {
        return false;
      }
      ok := session.Initialize(
        algorithms,
        Params(now - (now - requestTx) / 2, limits.maxNonce, limits.maxSessionDuration * platform.ticksPerMs),
        Keys(keys.1, keys.0));
    }
  }

  class QuantumInitiator {
    const platform: Platform
    const algorithms: Algorithms
    var key: Option<seq<Byte>>
    var requestHash: Digest
    var requestTx: int

    constructor (platform: Platform, algorithms: Algorithms)
      ensures this.platform == platform && this.algorithms == algorithms && key == None
    {
      this.platform, this.algorithms := platform, algorithms;
      key, requestHash, requestTx := None, seq(32, i => 0), 0;
    }

    ghost function Secrets(): InitiatorSecrets
      reads this
    {
      Quantum(key)
    }

    /** Take the newest key of the store, if it has one, and name it by its 64-bit id. */
    method InitializeNewHandshake(store: QixKeyStoring.QixKeyStore) returns (data: Option<seq<Byte>>)
      requires store.Valid()
      modifies this`key, store
      ensures store.Valid()
      ensures var d := old(store.deque);
              if d == [] then key == None && data == None && store.deque == []
              else
                && store.deque == d[..|d| - 1] && key == d[|d| - 1].key
                && data == if key.None? then None else Some(BigEndian(d[|d| - 1].id, KEY_ID_LENGTH))
    {
      key := None;
      var record := store.ConsumeKey();
      if record.None? || record.value.key.None? {
        return None;
      }
      key := record.value.key;
      return Some(BigEndian(record.value.id, KEY_ID_LENGTH));
    }

    method FinalizeRequestTx(request: seq<Byte>, now: int)
      modifies this`requestTx, this`requestHash
      ensures requestTx == now && requestHash == platform.suite.hash(request)
    {
      requestTx := now;
      requestHash := platform.suite.hash(request);
    }

    method InitializeSession(reply: Reply, octets: seq<Byte>, limits: Constraints, now: int, session: Session) returns (ok: bool)
      requires session.Valid() && limits.maxNonce <= MAX_U16
      modifies this`requestHash, session
      ensures session.Valid()
      ensures var r := Initiate(platform, old(Secrets()), algorithms, old(requestHash), reply, octets, limits, requestTx, now);
              ok == r.Some? && session.View() == if ok then r.value else old(session.View())
    {
      if key.None? {
        return false;
      }
      if reply.modeEphemeral != [] {
        return false;
      }
      if reply.modeData != [] {
        return false;
      }
      requestHash := platform.suite.hash(requestHash + octets);
      var keys := Hkdf(platform.suite, requestHash, key.value);
      if now < requestTx {
        return false;
      }
      ok := session.Initialize(
        algorithms,
        Params(now - (now - requestTx) / 2, limits.maxNonce, limits.maxSessionDuration * platform.ticksPerMs),
        Keys(keys.1, keys.0));
    }
  }

  // ---- The responder steps ----

  /** Write the reply, hash both messages, derive the keys and start the session. */
  method FinishResponse(p: Platform, algorithms: Algorithms, m: Request, octets: seq<Byte>, reply: seq<Byte>, ikm: seq<Byte>,
                        now: int, session: Session)
    requires session.Valid() && m.constraints.maxNonce <= MAX_U16
    modifies session
    ensures session.Valid()
    ensures session.View() == ResponderSession(p, algorithms, octets, reply, ikm, m.constraints, now)
  {
    var salt := ComputeTranscript(p.suite, octets, reply);
    var keys := Hkdf(p.suite, salt, ikm);
    var _ := session.Initialize(
      algorithms, Params(now, m.constraints.maxNonce, m.constraints.maxSessionDuration * p.ticksPerMs), Keys(keys.0, keys.1));
  }

  method ProcessPublicKeys(p: Platform, staticPrivate: seq<Byte>, fresh_: seq<Byte>, certificate: seq<Byte>,
                           check: (Byte, seq<Byte>) -> Checked, m: Request, octets: seq<Byte>, now: int, session: Session)
    returns (r: Processed)
    requires session.Valid() && m.constraints.maxNonce <= MAX_U16
    modifies session
    ensures session.Valid()
    ensures var out := Respond(p, PublicKeysR(staticPrivate, fresh_, certificate, check), m, octets, now);
            r == out.0 && session.View() == if out.1.Some? then out.1.value else old(session.View())
  {
    hide ValidReply;
    var configured := Configure(p, m.spec);
    if configured.Unsupported? {
      return Refused(configured.error);
    }
    if m.spec.ephemeral != 0x00 || !p.x25519 {
      return Refused(UnsupportedEphemeral);
    }
    if |m.modeEphemeral| != X25519_LENGTH {
      return Refused(BadMessageFormat);
    }
    var remote := check(m.mode, m.modeData);
    if remote.Distrusted? {
      return Refused(remote.error);
    }
    var reply := Reply(PROTOCOL, p.dh.publicOf(fresh_), certificate);
    if !CanWrite(reply, p.maxPayload) {
      return Refused(Unknown);
    }
    var shared := ComputeTripleDh(p.dh, staticPrivate, fresh_, remote.key, m.modeEphemeral);
    if shared.None? {
      return Refused(Unknown);
    }
    var d := shared.value;
    FinishResponse(p, configured.algorithms, m, octets, EncodeReply(reply), d.dh1 + d.dh2 + d.dh3, now, session);
    return Replied(EncodeReply(reply));
  }

  method ProcessSharedSecret(p: Platform, key: seq<Byte>, nonce: seq<Byte>, m: Request, octets: seq<Byte>, now: int, session: Session)
    returns (r: Processed)
    requires session.Valid() && m.constraints.maxNonce <= MAX_U16
    modifies session
    ensures session.Valid()
    ensures var out := Respond(p, SharedSecretR(key, nonce), m, octets, now);
            r == out.0 && session.View() == if out.1.Some? then out.1.value else old(session.View())
  {
    hide ValidReply;
    if |m.modeEphemeral| != NONCE_LENGTH {
      return Refused(BadMessageFormat);
    }
    if m.modeData != [] {
      return Refused(BadMessageFormat);
    }
    var configured := Configure(p, m.spec);
    if configured.Unsupported? {
      return Refused(configured.error);
    }
    var reply := Reply(PROTOCOL, nonce, []);
    if !CanWrite(reply, p.maxPayload) {
      return Refused(Unknown);
    }
    FinishResponse(p, configured.algorithms, m, octets, EncodeReply(reply), key + m.modeEphemeral + nonce, now, session);
    return Replied(EncodeReply(reply));
  }

  /** The key store as a function from ids to keys. */
  function LookupIn(d: seq<QixKeyStoring.KeyRecord>): nat -> Option<seq<Byte>> {
    id => QixKeyStoring.Found(d, id)
  }

  /** The request is sound enough for its key to be looked up, and used up. */
  predicate AsksForKey(p: Platform, m: Request) {
    m.modeEphemeral == [] && Configure(p, m.spec).Use? && |m.modeData| == KEY_ID_LENGTH
  }

  method ProcessQuantum(p: Platform, store: QixKeyStoring.QixKeyStore, m: Request, octets: seq<Byte>, now: int, session: Session)
    returns (r: Processed)
    requires session.Valid() && store.Valid() && m.constraints.maxNonce <= MAX_U16
    modifies session, store
    ensures session.Valid() && store.Valid()
    ensures var out := Respond(p, QuantumR(LookupIn(old(store.deque))), m, octets, now);
            r == out.0 && session.View() == if out.1.Some? then out.1.value else old(session.View())
    ensures store.deque ==
            if AsksForKey(p, m) then QixKeyStoring.AfterFind(old(store.deque), FromBigEndian(m.modeData)) else old(store.deque)
    ensures r.Replied? ==> AsksForKey(p, m) && QixKeyStoring.Found(old(store.deque), FromBigEndian(m.modeData)).Some?
  {
    hide ValidReply, FromBigEndian, QixKeyStoring.Remove;
    if m.modeEphemeral != [] {
      return Refused(BadMessageFormat);
    }
    var configured := Configure(p, m.spec);
    if configured.Unsupported? {
      return Refused(configured.error);
    }
    if |m.modeData| != KEY_ID_LENGTH {
      return Refused(BadMessageFormat);
    }
    var key := store.FindAndConsumeKey(FromBigEndian(m.modeData));
    if key.None? {
      return Refused(KeyNotFound);
    }
    var reply := Reply(PROTOCOL, [], []);
    if !CanWrite(reply, p.maxPayload) {
      return Refused(Unknown);
    }
    FinishResponse(p, configured.algorithms, m, octets, EncodeReply(reply), key.value, now, session);
    return Replied(EncodeReply(reply));
  }

  /** What reaches a responder of this family: keys and requests. */
  datatype Demand = Feed(record: QixKeyStoring.KeyRecord) | Serve(request: Request, octets: seq<Byte>, at: int)

  predicate Sound(d: Demand) {
    match d
    case Feed(record) => QixKeyStoring.Storable(QixKeyStoring.Add(record))
    case Serve(request, _, _) => request.constraints.maxNonce <= MAX_U16
  }

  function Fed(demands: seq<Demand>): seq<QixKeyStoring.KeyRecord> {
    if demands == [] then []
    else
      var last := demands[|demands| - 1];
      Fed(demands[..|demands| - 1]) + if last.Feed? then [last.record] else []
  }

  /** Over any mix of keys and requests, an id is answered at most as often as a key was added under it. */
  method ServeAll(p: Platform, store: QixKeyStoring.QixKeyStore, session: Session, demands: seq<Demand>) returns (answered: seq<nat>)
    requires store.Valid() && store.deque == [] && session.Valid()
    requires forall n :: 0 <= n < |demands| ==> Sound(demands[n])
    modifies store, session
    ensures multiset(answered) <= multiset(QixKeyStoring.Ids(Fed(demands)))
  {
    hide QixKeyStoring.Ids, QixKeyStoring.Push, QixKeyStoring.Remove, QixKeyStoring.IndexOf, Respond, FromBigEndian, Session.Valid,
         QixKeyStoring.QixKeyStore.Valid;
    answered := [];
    QixKeyStoring.NoIds();
    for n := 0 to |demands|
      invariant store.Valid() && session.Valid()
      invariant multiset(QixKeyStoring.Ids(store.deque)) + multiset(answered) <= multiset(QixKeyStoring.Ids(Fed(demands[..n])))
    {
      assert demands[..n + 1][..n] == demands[..n];
      ghost var d := store.deque;
      match demands[n] {
        case Feed(record) =>
          store.AddKey(record.id, if record.key.Some? then record.key.value else []);
          QixKeyStoring.PushedIds(d, store.maxCachedKeys, record);
          FedIds(demands[..n + 1]);
        case Serve(request, octets, at) =>
          var r := ProcessQuantum(p, store, request, octets, at, session);
          ghost var i := QixKeyStoring.IndexOf(d, FromBigEndian(request.modeData));
          if i < |d| {
            QixKeyStoring.IdsTakenOut(d, i);
          }
          if r.Replied? {
            answered := answered + [FromBigEndian(request.modeData)];
          }
          FedIds(demands[..n + 1]);
      }
    }
    assert demands[..|demands|] == demands;
  }

  lemma FedIds(demands: seq<Demand>)
    requires demands != []
    ensures var front, last := demands[..|demands| - 1], demands[|demands| - 1];
            multiset(QixKeyStoring.Ids(Fed(demands))) ==
              multiset(QixKeyStoring.Ids(Fed(front))) + if last.Feed? then multiset{last.record.id} else multiset{}
  {
    var front, last := demands[..|demands| - 1], demands[|demands| - 1];
    var more := if last.Feed? then [last.record] else [];
    QixKeyStoring.IdsConcat(Fed(front), more);
    assert QixKeyStoring.Ids(more) == if last.Feed? then [last.record.id] else [];
  }

  // ---- Agreement ----

  /** Each side sends with what the other receives with, under the same rules. */
  predicate MirroredKeys(a: State, b: State) {
    a.keys.tx == b.keys.rx && a.keys.rx == b.keys.tx
  }

  ghost predicate Mirrored(a: State, b: State) {
    && MirroredKeys(a, b) && a.algorithms == b.algorithms
    && a.params.maxNonce == b.params.maxNonce && a.params.maxSessionTime == b.params.maxSessionTime
  }

  /** The session follows the request: which codes select which nonce check and which cipher, and what
      the limits are. */
  ghost predicate Negotiated(p: Platform, request: Request, s: State) {
    && s.valid && s.rxNonce == s.txNonce == 0 && ValidKeys(s.keys)
    && s.algorithms.nonceMode == (if request.spec.nonceMode == 0x00 then StrictIncrement else GreaterThanLast)
    && s.algorithms.aead == (if request.spec.cryptoMode == 0x00 then p.macMode else p.gcmMode)
    && s.params.maxNonce == request.constraints.maxNonce
    && s.params.maxSessionTime == request.constraints.maxSessionDuration * p.ticksPerMs
  }

  /** Exactly which algorithms are supported. */
  lemma ConfigureExactly(p: Platform, spec: CryptoSpec)
    ensures Configure(p, spec).Use? <==>
            && p.sha256 && spec.hash == 0x00 && spec.kdf == 0x00 && spec.nonceMode in {0x00, 0x01}
            && (spec.cryptoMode == 0x00 || (spec.cryptoMode == 0x01 && p.gcm))
    ensures Configure(p, spec).Use? ==>
            && Configure(p, spec).algorithms.nonceMode == (if spec.nonceMode == 0x00 then StrictIncrement else GreaterThanLast)
            && Configure(p, spec).algorithms.aead == (if spec.cryptoMode == 0x00 then p.macMode else p.gcmMode)
  {}

  /** The secrets of two peers belong together for a given request and reply. */
  ghost predicate Matching(p: Platform, i: InitiatorSecrets, r: ResponderSecrets, request: Request) {
    match i
    case PublicKeys(staticI, ephemeralI, checkI) =>
      && r.PublicKeysR? && Commutes(p.dh)
      && request.modeEphemeral == p.dh.publicOf(ephemeralI)
      && r.check(request.mode, request.modeData) == Remote(p.dh.publicOf(staticI))
      && checkI(r.certificate) == Some(p.dh.publicOf(r.staticPrivate))
    case SharedSecret(key, nonce) =>
      r.SharedSecretR? && r.key == key && |r.nonce| == NONCE_LENGTH && request.modeEphemeral == nonce
    case Quantum(key) =>
      && r.QuantumR? && key.Some? && |request.modeData| == KEY_ID_LENGTH
      && r.lookup(FromBigEndian(request.modeData)) == key
  }

  /** Two key stores fed the same frames: a key that the initiator's store hands out, named by its id in
      the request, matches what the responder's store finds under that id. */
  lemma QuantumStoresMatch(p: Platform, limitA: nat, opsA: seq<QixKeyStoring.Op>, limitB: nat, before: seq<QixKeyStoring.Op>,
                           after: seq<QixKeyStoring.Op>, record: QixKeyStoring.KeyRecord, record': QixKeyStoring.KeyRecord,
                           request: Request)
    requires record in QixKeyStoring.Run(QixKeyStoring.EMPTY, limitA, opsA).handedOut
    requires QixKeyStoring.Added(opsA) == QixKeyStoring.Added(before + [QixKeyStoring.Add(record')] + after)
    requires QixKeyStoring.Increasing(QixKeyStoring.Added(opsA)) && record.id == record'.id
    requires QixKeyStoring.Spares(after, record.id) && |QixKeyStoring.Added(after)| < limitB
    requires record.key.Some? && record.id < Pow256(KEY_ID_LENGTH) && request.modeData == BigEndian(record.id, KEY_ID_LENGTH)
    ensures var b := QixKeyStoring.Run(QixKeyStoring.EMPTY, limitB, before + [QixKeyStoring.Add(record')] + after);
            Matching(p, Quantum(record.key), QuantumR(LookupIn(b.deque)), request)
  {
    hide QixKeyStoring.Run, QixKeyStoring.Added, QixKeyStoring.Increasing, QixKeyStoring.Spares, FromBigEndian, BigEndian, Pow256,
         QixKeyStoring.Remove, QixKeyStoring.IndexOf;
    QixKeyStoring.StoresAgree(limitA, opsA, limitB, before, after, record, record');
    BigEndianRoundTrip(record.id, KEY_ID_LENGTH);
    var b := QixKeyStoring.Run(QixKeyStoring.EMPTY, limitB, before + [QixKeyStoring.Add(record')] + after);
    var i := QixKeyStoring.IndexOf(b.deque, record.id);
    assert i < |b.deque| ==> (b.handedOut + [b.deque[i]])[|b.handedOut|] == b.deque[i];
    assert (b.handedOut + [record])[|b.handedOut|] == record;
  }

  lemma SameMaterial(p: Platform, i: InitiatorSecrets, r: ResponderSecrets, request: Request)
    requires Matching(p, i, r, request) && Prepare(p, r, request).Prepared?
    ensures var out := Prepare(p, r, request);
            InitiatorMaterial(p, i, out.reply) == out.ikm
  {
    hide FromBigEndian;
    if i.PublicKeys? {
      assert p.dh.agree(i.ephemeralPrivate, p.dh.publicOf(r.ephemeralPrivate)) == p.dh.agree(r.ephemeralPrivate, p.dh.publicOf(i.ephemeralPrivate));
      assert p.dh.agree(i.ephemeralPrivate, p.dh.publicOf(r.staticPrivate)) == p.dh.agree(r.staticPrivate, p.dh.publicOf(i.ephemeralPrivate));
      assert p.dh.agree(i.staticPrivate, p.dh.publicOf(r.ephemeralPrivate)) == p.dh.agree(r.ephemeralPrivate, p.dh.publicOf(i.staticPrivate));
    }
  }

  /** In every family: once a responder answers a request of a peer whose secrets match, that peer
      accepts exactly that answer and both hold mirrored sessions. */
  lemma HandshakeMirrors(p: Platform, i: InitiatorSecrets, r: ResponderSecrets, request: Request, octets: seq<Byte>,
                         algorithms: Algorithms, requestTx: int, replyRx: int, at: int)
    requires Matching(p, i, r, request) && requestTx <= replyRx
    requires Configure(p, request.spec) == Use(algorithms)
    requires Respond(p, r, request, octets, at).0.Replied?
    ensures var reply, sr := Prepare(p, r, request).reply, Respond(p, r, request, octets, at).1;
            var si := Initiate(p, i, algorithms, p.suite.hash(octets), reply, EncodeReply(reply), request.constraints, requestTx, replyRx);
            && CanWrite(reply, p.maxPayload) && Respond(p, r, request, octets, at).0 == Replied(EncodeReply(reply))
            && si.Some? && sr.Some? && Mirrored(si.value, sr.value)
            && Negotiated(p, request, si.value) && Negotiated(p, request, sr.value)
  {
    hide InitiatorMaterial, ValidReply, Hkdf, FromBigEndian, Prepare, Configure;
    SameMaterial(p, i, r, request);
    PreparedAlgorithms(p, r, request);
    ConfigureExactly(p, request.spec);
  }

  /** The initiator sends with the first block of the key derivation and the responder with the second,
      from the hash over request and reply and the key material. */
  lemma DerivedKeys(p: Platform, algorithms: Algorithms, request: seq<Byte>, reply: seq<Byte>, ikm: seq<Byte>, limits: Constraints,
                    requestTx: int, replyRx: int, at: int)
    requires requestTx <= replyRx
    ensures var prk := p.suite.hmac(p.suite.hash(p.suite.hash(request) + reply), ikm);
            var si := InitiatorSession(p, algorithms, p.suite.hash(request), reply, ikm, limits, requestTx, replyRx);
            var sr := ResponderSession(p, algorithms, request, reply, ikm, limits, at);
            && si.keys.tx == sr.keys.rx == ExpandBlock(p.suite, prk, [], 1)
            && si.keys.rx == sr.keys.tx == ExpandBlock(p.suite, prk, [], 2)
  {
    hide Hkdf;
    HkdfIsRfc5869(p.suite, Transcript(p.suite, request, reply), ikm);
  }

  /** The three agreements behind the keys of a public key handshake: ephemeral with ephemeral, the static
      key of the initiator with the ephemeral one of the responder, and the other way round. */
  lemma PublicKeyMaterial(p: Platform, staticI: seq<Byte>, ephemeralI: seq<Byte>, check: seq<Byte> -> Option<seq<Byte>>, reply: Reply)
    ensures var m, remote := InitiatorMaterial(p, PublicKeys(staticI, ephemeralI, check), reply), check(reply.modeData);
            && (m.Some? <==>
                  && remote.Some? && p.dh.agree(ephemeralI, reply.modeEphemeral).Some?
                  && p.dh.agree(staticI, reply.modeEphemeral).Some? && p.dh.agree(ephemeralI, remote.value).Some?)
            && (m.Some? ==> m.value == p.dh.agree(ephemeralI, reply.modeEphemeral).value
                                       + p.dh.agree(staticI, reply.modeEphemeral).value + p.dh.agree(ephemeralI, remote.value).value)
  {}

  lemma PublicKeyMaterialR(p: Platform, staticR: seq<Byte>, ephemeralR: seq<Byte>, certificate: seq<Byte>,
                           check: (Byte, seq<Byte>) -> Checked, m: Request)
    requires Prepare(p, PublicKeysR(staticR, ephemeralR, certificate, check), m).Prepared?
    ensures var out, remote := Prepare(p, PublicKeysR(staticR, ephemeralR, certificate, check), m), check(m.mode, m.modeData);
            && remote.Remote? && out.reply == Reply(PROTOCOL, p.dh.publicOf(ephemeralR), certificate)
            && (out.ikm.Some? <==>
                  && p.dh.agree(ephemeralR, m.modeEphemeral).Some?
                  && p.dh.agree(ephemeralR, remote.key).Some? && p.dh.agree(staticR, m.modeEphemeral).Some?)
            && (out.ikm.Some? ==> out.ikm.value == p.dh.agree(ephemeralR, m.modeEphemeral).value
                                                   + p.dh.agree(ephemeralR, remote.key).value + p.dh.agree(staticR, m.modeEphemeral).value)
  {}

  /** f does not map these two inputs to the same output. */
  predicate NoCollision<T(==)>(f: T -> Digest, a: T, b: T) { f(a) == f(b) ==> a == b }

  /** No two of the values that a pair of handshakes hashes or authenticates collide. */
  ghost predicate CollisionFree(suite: Suite, request: seq<Byte>, reply: seq<Byte>, ikm: seq<Byte>,
                                request': seq<Byte>, reply': seq<Byte>, ikm': seq<Byte>)
  {
    var salt, salt' := Transcript(suite, request, reply), Transcript(suite, request', reply');
    var prk, prk' := suite.hmac(salt, ikm), suite.hmac(salt', ikm');
    && NoCollision(suite.hash, request, request')
    && NoCollision(suite.hash, suite.hash(request) + reply, suite.hash(request') + reply')
    && (prk == prk' ==> salt == salt' && ikm == ikm')
    && (suite.hmac(prk, [0x01]) == suite.hmac(prk', [0x01]) ==> prk == prk')
  }

  /** Mirrored keys pin the transcript: both sides saw the same request, the same reply and the same
      key material. */
  lemma KeysPinTranscript(p: Platform, algI: Algorithms, algR: Algorithms, requestI: seq<Byte>, replyI: seq<Byte>, ikmI: seq<Byte>,
                          requestR: seq<Byte>, replyR: seq<Byte>, ikmR: seq<Byte>, limits: Constraints, limits': Constraints,
                          requestTx: int, replyRx: int, at: int)
    requires requestTx <= replyRx
    requires CollisionFree(p.suite, requestI, replyI, ikmI, requestR, replyR, ikmR)
    requires MirroredKeys(InitiatorSession(p, algI, p.suite.hash(requestI), replyI, ikmI, limits, requestTx, replyRx),
                          ResponderSession(p, algR, requestR, replyR, ikmR, limits', at))
    ensures requestI == requestR && replyI == replyR && ikmI == ikmR
  {
    var a, b := p.suite.hash(requestI) + replyI, p.suite.hash(requestR) + replyR;
    assert p.suite.hash(requestI) == a[..32] && replyI == a[32..];
    assert p.suite.hash(requestR) == b[..32] && replyR == b[32..];
  }

  /** Two peers, each after its own handshake, hold mirrored keys, and no values they hashed collide. */
  ghost predicate HoldMirroredKeys(p: Platform, i: InitiatorSecrets, r: ResponderSecrets, requestI: Request, requestR: Request,
                                   replyI: Reply, octetsI: seq<Byte>, algorithms: Algorithms, requestTx: int, replyRx: int, at: int)
  {
    var out := Prepare(p, r, requestR);
    && ValidRequest(requestI) && ValidRequest(requestR) && Configure(p, requestI.spec) == Use(algorithms)
    && InitiatorMaterial(p, i, replyI).Some? && requestTx <= replyRx
    && out.Prepared? && CanWrite(out.reply, p.maxPayload) && out.ikm.Some?
    && CollisionFree(p.suite, EncodeRequest(requestI), octetsI, InitiatorMaterial(p, i, replyI).value,
                     EncodeRequest(requestR), EncodeReply(out.reply), out.ikm.value)
    && MirroredKeys(
         Initiate(p, i, algorithms, p.suite.hash(EncodeRequest(requestI)), replyI, octetsI, requestI.constraints, requestTx, replyRx).value,
         Respond(p, r, requestR, EncodeRequest(requestR), at).1.value)
  }

  /** So, in every family, mirrored keys mean equal nonce mode, crypto mode, nonce limit and session
      duration, whatever was sent over the wire, and equal key material. */
  lemma MirroredKeysMirrorSessions(p: Platform, i: InitiatorSecrets, r: ResponderSecrets, requestI: Request, requestR: Request,
                                   replyI: Reply, octetsI: seq<Byte>, algorithms: Algorithms, requestTx: int, replyRx: int, at: int)
    requires HoldMirroredKeys(p, i, r, requestI, requestR, replyI, octetsI, algorithms, requestTx, replyRx, at)
    ensures var si := Initiate(p, i, algorithms, p.suite.hash(EncodeRequest(requestI)), replyI, octetsI, requestI.constraints, requestTx, replyRx);
            && requestI == requestR && octetsI == EncodeReply(Prepare(p, r, requestR).reply)
            && Mirrored(si.value, Respond(p, r, requestR, EncodeRequest(requestR), at).1.value)
            && InitiatorMaterial(p, i, replyI) == Prepare(p, r, requestR).ikm
  {
    hide InitiatorMaterial, ValidReply, ValidRequest, EncodeRequest, EncodeReply, Hkdf, Transcript, CollisionFree, InitiatorSession, ResponderSession,
         Prepare;
    var out := Prepare(p, r, requestR);
    PreparedAlgorithms(p, r, requestR);
    KeysPinTranscript(p, algorithms, out.algorithms, EncodeRequest(requestI), octetsI, InitiatorMaterial(p, i, replyI).value,
                      EncodeRequest(requestR), EncodeReply(out.reply), out.ikm.value, requestI.constraints, requestR.constraints,
                      requestTx, replyRx, at);
    EncodeRequestInjective(requestI, requestR);
    SessionsFollowLimits(p, algorithms, EncodeRequest(requestI), octetsI, InitiatorMaterial(p, i, replyI).value, requestI.constraints, requestTx, replyRx, at);
  }

  lemma ThreeParts(a: Digest, b: Digest, c: Digest, a': Digest, b': Digest, c': Digest)
    requires a + b + c == a' + b' + c'
    ensures a == a' && b == b' && c == c'
  {
    var s := a + b + c;
    assert a == s[..32] && b == s[32..64] && c == s[64..];
    assert a' == s[..32] && b' == s[32..64] && c' == s[64..];
  }

  /** And they authenticate the peers to each other. With public keys, what each side made with its own
      static key is what the other side made with the static key it trusts; with a shared secret or a
      distributed key, both hold the same one. */
  lemma MirroredKeysAuthenticate(p: Platform, i: InitiatorSecrets, r: ResponderSecrets, requestI: Request, requestR: Request,
                                 replyI: Reply, octetsI: seq<Byte>, algorithms: Algorithms, requestTx: int, replyRx: int, at: int)
    requires HoldMirroredKeys(p, i, r, requestI, requestR, replyI, octetsI, algorithms, requestTx, replyRx, at)
    ensures i.PublicKeys? && r.PublicKeysR? ==>
              var trustedByI, trustedByR := i.check(replyI.modeData), r.check(requestR.mode, requestR.modeData);
              && trustedByI.Some? && trustedByR.Remote?
              && p.dh.agree(i.ephemeralPrivate, replyI.modeEphemeral) == p.dh.agree(r.ephemeralPrivate, requestR.modeEphemeral)
              && p.dh.agree(i.staticPrivate, replyI.modeEphemeral) == p.dh.agree(r.ephemeralPrivate, trustedByR.key)
              && p.dh.agree(i.ephemeralPrivate, trustedByI.value) == p.dh.agree(r.staticPrivate, requestR.modeEphemeral)
    ensures i.SharedSecret? && r.SharedSecretR? && |i.key| == |r.key| == |i.nonce| == |r.nonce| == 32 ==>
              i.key == r.key && i.nonce == requestR.modeEphemeral && replyI.modeEphemeral == r.nonce
    ensures i.Quantum? && r.QuantumR? ==> i.quantumKey == r.lookup(FromBigEndian(requestR.modeData))
  {
    hide ValidReply, ValidRequest, EncodeRequest, EncodeReply, CollisionFree, Initiate, Respond, FromBigEndian, Configure;
    MirroredKeysMirrorSessions(p, i, r, requestI, requestR, replyI, octetsI, algorithms, requestTx, replyRx, at);
    if i.PublicKeys? && r.PublicKeysR? {
      SamePublicMaterial(p, i, r, requestR, replyI);
    } else if i.SharedSecret? && r.SharedSecretR? && |i.key| == |r.key| == |i.nonce| == |r.nonce| == 32 {
      assert InitiatorMaterial(p, i, replyI).value == i.key + i.nonce + replyI.modeEphemeral;
      assert Prepare(p, r, requestR).ikm.value == r.key + requestR.modeEphemeral + r.nonce;
      ThreeParts(i.key, i.nonce, replyI.modeEphemeral, r.key, requestR.modeEphemeral, r.nonce);
    }
  }

  lemma SamePublicMaterial(p: Platform, i: InitiatorSecrets, r: ResponderSecrets, request: Request, reply: Reply)
    requires i.PublicKeys? && r.PublicKeysR? && Prepare(p, r, request).Prepared?
    requires InitiatorMaterial(p, i, reply).Some? && InitiatorMaterial(p, i, reply) == Prepare(p, r, request).ikm
    ensures var trustedByI, trustedByR := i.check(reply.modeData), r.check(request.mode, request.modeData);
            && trustedByI.Some? && trustedByR.Remote?
            && p.dh.agree(i.ephemeralPrivate, reply.modeEphemeral) == p.dh.agree(r.ephemeralPrivate, request.modeEphemeral)
            && p.dh.agree(i.staticPrivate, reply.modeEphemeral) == p.dh.agree(r.ephemeralPrivate, trustedByR.key)
            && p.dh.agree(i.ephemeralPrivate, trustedByI.value) == p.dh.agree(r.staticPrivate, request.modeEphemeral)
  {
    hide Prepare, InitiatorMaterial;
    PublicKeyMaterial(p, i.staticPrivate, i.ephemeralPrivate, i.check, reply);
    PublicKeyMaterialR(p, r.staticPrivate, r.ephemeralPrivate, r.certificate, r.check, request);
    var si, sr := i.check(reply.modeData).value, r.check(request.mode, request.modeData).key;
    ThreeParts(
      p.dh.agree(i.ephemeralPrivate, reply.modeEphemeral).value, p.dh.agree(i.staticPrivate, reply.modeEphemeral).value,
      p.dh.agree(i.ephemeralPrivate, si).value,
      p.dh.agree(r.ephemeralPrivate, request.modeEphemeral).value, p.dh.agree(r.ephemeralPrivate, sr).value,
      p.dh.agree(r.staticPrivate, request.modeEphemeral).value);
  }

  lemma PreparedAlgorithms(p: Platform, r: ResponderSecrets, request: Request)
    requires Prepare(p, r, request).Prepared?
    ensures Configure(p, request.spec) == Use(Prepare(p, r, request).algorithms)
  {
    hide FromBigEndian, TripleDh;
  }

  lemma SessionsFollowLimits(p: Platform, algorithms: Algorithms, request: seq<Byte>, reply: seq<Byte>, ikm: seq<Byte>, limits: Constraints,
                             requestTx: int, replyRx: int, at: int)
    requires requestTx <= replyRx
    ensures Mirrored(InitiatorSession(p, algorithms, p.suite.hash(request), reply, ikm, limits, requestTx, replyRx),
                     ResponderSession(p, algorithms, request, reply, ikm, limits, at))
  {}

  // ---- Whole handshakes between two objects ----

  predicate CanSend(m: Request, capacity: nat) {
    ValidRequest(m) && |EncodeRequest(m)| <= capacity
  }

  lemma LimitsFit(m: Request)
    requires ValidRequest(m)
    ensures m.constraints.maxNonce <= MAX_U16
  {
    hide HasType;
    TypesByIndex(REQUEST_FIELDS, RequestValues(m));
    var v := RequestValues(m)[2];
    ConstraintsFit(v);
  }

  lemma ConstraintsFit(v: Value)
    requires HasType(CONSTRAINTS, v)
    ensures v.Record? && |v.values| == 2 && v.values[0].Num? && v.values[0].n <= MAX_U16
  {
    Powers();
    TypesByIndex(CONSTRAINTS.fields, v.values);
  }

  lemma ReplyArrives(p: Platform, s: ResponderSecrets, m: Request, octets: seq<Byte>, now: int)
    requires Respond(p, s, m, octets, now).0.Replied?
    ensures Prepare(p, s, m).Prepared? && CanWrite(Prepare(p, s, m).reply, p.maxPayload)
    ensures Respond(p, s, m, octets, now).0.reply == EncodeReply(Prepare(p, s, m).reply)
    ensures ReadReply(Respond(p, s, m, octets, now).0.reply) == Some(Prepare(p, s, m).reply)
  {
    hide Prepare, ValidReply, EncodeReply, ReadReply;
    ReplyReadsBack(Prepare(p, s, m).reply);
  }

  /** An initiator object and a responder with matching key pairs and trusted certificates: when the
      responder answers, the initiator accepts the answer and the two sessions mirror each other;
      otherwise neither session changes. */
  method ExchangePublicKeys(i: PublicKeyInitiator, sessionI: Session, sessionR: Session, freshI: seq<Byte>, spec: CryptoSpec, limits: Constraints,
                            mode: Byte, staticR: seq<Byte>, freshR: seq<Byte>, certificateR: seq<Byte>, checkR: (Byte, seq<Byte>) -> Checked,
                            requestTx: int, at: int, replyRx: int)
    returns (answered: bool, ok: bool)
    requires sessionI != sessionR && sessionI.Valid() && sessionR.Valid() && requestTx <= replyRx
    requires Configure(i.platform, spec) == Use(i.algorithms) && Commutes(i.platform.dh)
    requires checkR(mode, i.certificate) == Remote(i.platform.dh.publicOf(i.staticPrivate))
    requires i.check(certificateR) == Some(i.platform.dh.publicOf(staticR))
    modifies i, sessionI, sessionR
    ensures sessionI.Valid() && sessionR.Valid() && ok == answered
    ensures answered <==>
              var request := Request(PROTOCOL, spec, limits, mode, i.platform.dh.publicOf(freshI), i.certificate);
              && CanSend(request, i.platform.maxPayload)
              && Respond(i.platform, PublicKeysR(staticR, freshR, certificateR, checkR), request, EncodeRequest(request), at).0.Replied?
    ensures ok ==> Mirrored(sessionI.View(), sessionR.View())
    ensures !ok ==> sessionI.View() == old(sessionI.View()) && sessionR.View() == old(sessionR.View())
  {
    hide Prepare, InitiatorMaterial, ValidReply, ValidRequest, EncodeReply, EncodeRequest, ReadRequest, ReadReply, Hkdf, Session.Valid;
    var p := i.platform;
    var ephemeral, data := i.InitializeNewHandshake(freshI);
    var request := Request(PROTOCOL, spec, limits, mode, ephemeral, data);
    if !CanSend(request, p.maxPayload) {
      return false, false;
    }
    var octets := EncodeRequest(request);
    i.FinalizeRequestTx(octets, requestTx);
    RequestReadsBack(request);
    LimitsFit(request);
    var received := ReadRequest(octets).value;
    var r := ProcessPublicKeys(p, staticR, freshR, certificateR, checkR, received, octets, at, sessionR);
    if r.Refused? {
      return false, false;
    }
    ghost var secrets := PublicKeysR(staticR, freshR, certificateR, checkR);
    ReplyArrives(p, secrets, request, octets, at);
    HandshakeMirrors(p, i.Secrets(), secrets, request, octets, i.algorithms, requestTx, replyRx, at);
    ok := i.InitializeSession(ReadReply(r.reply).value, r.reply, limits, replyRx, sessionI);
    return true, ok;
  }

  /** The same for an initiator object and a responder that hold the same secret. */
  method ExchangeSharedSecret(i: SharedSecretInitiator, sessionI: Session, sessionR: Session, nonceI: seq<Byte>, spec: CryptoSpec, limits: Constraints,
                              mode: Byte, nonceR: seq<Byte>, requestTx: int, at: int, replyRx: int)
    returns (answered: bool, ok: bool)
    requires sessionI != sessionR && sessionI.Valid() && sessionR.Valid() && requestTx <= replyRx
    requires Configure(i.platform, spec) == Use(i.algorithms) && |nonceI| == |nonceR| == NONCE_LENGTH
    modifies i, sessionI, sessionR
    ensures sessionI.Valid() && sessionR.Valid() && ok == answered
    ensures answered <==>
              var request := Request(PROTOCOL, spec, limits, mode, nonceI, []);
              && CanSend(request, i.platform.maxPayload)
              && Respond(i.platform, SharedSecretR(i.key, nonceR), request, EncodeRequest(request), at).0.Replied?
    ensures ok ==> Mirrored(sessionI.View(), sessionR.View())
    ensures !ok ==> sessionI.View() == old(sessionI.View()) && sessionR.View() == old(sessionR.View())
  {
    hide Prepare, InitiatorMaterial, ValidReply, ValidRequest, EncodeReply, EncodeRequest, ReadRequest, ReadReply, Hkdf, Session.Valid;
    var p := i.platform;
    var ephemeral, data := i.InitializeNewHandshake(nonceI);
    var request := Request(PROTOCOL, spec, limits, mode, ephemeral, data);
    if !CanSend(request, p.maxPayload) {
      return false, false;
    }
    var octets := EncodeRequest(request);
    i.FinalizeRequestTx(octets, requestTx);
    RequestReadsBack(request);
    LimitsFit(request);
    var received := ReadRequest(octets).value;
    var r := ProcessSharedSecret(p, i.key, nonceR, received, octets, at, sessionR);
    if r.Refused? {
      return false, false;
    }
    ghost var secrets := SharedSecretR(i.key, nonceR);
    ReplyArrives(p, secrets, request, octets, at);
    HandshakeMirrors(p, i.Secrets(), secrets, request, octets, i.algorithms, requestTx, replyRx, at);
    ok := i.InitializeSession(ReadReply(r.reply).value, r.reply, limits, replyRx, sessionI);
    return true, ok;
  }

  /** The same for an initiator object and a responder with a key store each: the newest key of the one
      store is used up on both sides. */
  method ExchangeQuantum(i: QuantumInitiator, storeI: QixKeyStoring.QixKeyStore, storeR: QixKeyStoring.QixKeyStore, sessionI: Session,
                         sessionR: Session, spec: CryptoSpec, limits: Constraints, mode: Byte, requestTx: int, at: int, replyRx: int)
    returns (answered: bool, ok: bool)
    requires sessionI != sessionR && sessionI.Valid() && sessionR.Valid() && requestTx <= replyRx
    requires storeI != storeR && storeI.Valid() && storeR.Valid() && Configure(i.platform, spec) == Use(i.algorithms)
    requires storeI.deque != [] ==> SharedKey(storeI.deque[|storeI.deque| - 1], storeR.deque)
    modifies i, storeI, storeR, sessionI, sessionR
    ensures sessionI.Valid() && sessionR.Valid() && storeI.Valid() && storeR.Valid() && ok == answered
    ensures var d := old(storeI.deque);
            if d == [] then !answered && storeI.deque == []
            else
              var request := Request(PROTOCOL, spec, limits, mode, [], BigEndian(d[|d| - 1].id, KEY_ID_LENGTH));
              var sent := d[|d| - 1].key.Some? && CanSend(request, i.platform.maxPayload);
              && storeI.deque == d[..|d| - 1]
              && storeR.deque == (if sent then QixKeyStoring.AfterFind(old(storeR.deque), d[|d| - 1].id) else old(storeR.deque))
              && (answered <==>
                    sent && Respond(i.platform, QuantumR(LookupIn(old(storeR.deque))), request, EncodeRequest(request), at).0.Replied?)
    ensures ok ==> Mirrored(sessionI.View(), sessionR.View())
    ensures !ok ==> sessionI.View() == old(sessionI.View()) && sessionR.View() == old(sessionR.View())
  {
    hide Prepare, InitiatorMaterial, ValidReply, ValidRequest, EncodeReply, EncodeRequest, ReadRequest, ReadReply, Hkdf, Session.Valid,
         FromBigEndian, BigEndian, Pow256, QixKeyStoring.AfterFind, QixKeyStoring.Found, QixKeyStoring.QixKeyStore.Valid, Respond;
    var p := i.platform;
    ghost var d, e := storeI.deque, storeR.deque;
    var data := i.InitializeNewHandshake(storeI);
    if data.None? {
      return false, false;
    }
    ghost var id := d[|d| - 1].id;
    BigEndianRoundTrip(id, KEY_ID_LENGTH);
    var request := Request(PROTOCOL, spec, limits, mode, [], data.value);
    if !CanSend(request, p.maxPayload) {
      return false, false;
    }
    var octets := EncodeRequest(request);
    i.FinalizeRequestTx(octets, requestTx);
    RequestReadsBack(request);
    LimitsFit(request);
    var received := ReadRequest(octets).value;
    var r := ProcessQuantum(p, storeR, received, octets, at, sessionR);
    if r.Refused? {
      QuantumRefuses(p, LookupIn(e), request, octets, at);
      return false, false;
    }
    ReplyArrives(p, QuantumR(LookupIn(e)), request, octets, at);
    HandshakeMirrors(p, i.Secrets(), QuantumR(LookupIn(e)), request, octets, i.algorithms, requestTx, replyRx, at);
    ok := i.InitializeSession(ReadReply(r.reply).value, r.reply, limits, replyRx, sessionI);
    return true, ok;
  }

  lemma QuantumRefuses(p: Platform, lookup: nat -> Option<seq<Byte>>, m: Request, octets: seq<Byte>, now: int)
    requires Respond(p, QuantumR(lookup), m, octets, now).0.Refused?
    ensures Respond(p, QuantumR(lookup), m, octets, now).1.None?
  {
    hide Prepare, ValidReply;
  }

  /** A record that, if it has a key, has it on both sides, under an id that 64 bits can name. */
  predicate SharedKey(r: QixKeyStoring.KeyRecord, d: seq<QixKeyStoring.KeyRecord>) {
    r.id < Pow256(KEY_ID_LENGTH) && (r.key.Some? ==> QixKeyStoring.Found(d, r.id) == r.key)
  }
}
