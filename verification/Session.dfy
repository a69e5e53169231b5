/** One secure session: nonce counters, time limits and the authenticated encryption of its messages. */
module Sessions {
  import opened Bytes
  import opened Codec
  import opened Messages

  datatype CryptoError =
    | NoValidSession | AuthFail | ClockRollback | MaxSessionTimeExceeded | ExpiredTtl
    | MaxNonceExceeded | NonceReplay | EmptyUserData | BadBufferSize | BadLength | FrameTooBig

  // ---- Primitives ----

  datatype Sealed = Sealed(ciphertext: seq<Byte>, tag: seq<Byte>)

  /** Authenticated encryption over (key, nonce, associated data, text). Opening is also told how
      many octets its destination has room for. */
  datatype Aead = Aead(
    seal: (seq<Byte>, nat, seq<Byte>, seq<Byte>) -> Option<Sealed>,
    open: (seq<Byte>, nat, seq<Byte>, Sealed, nat) -> Option<seq<Byte>>)

  /** Opening undoes sealing, given room for the text. */
  ghost predicate Correct(aead: Aead, key: seq<Byte>, room: nat) {
    forall nonce, ad, text ::
      |text| <= room && aead.seal(key, nonce, ad, text).Some? ==>
        aead.open(key, nonce, ad, aead.seal(key, nonce, ad, text).value, room) == Some(text)
  }

  const TAG_LENGTH: nat := 16

  function Authenticated(ad: seq<Byte>, text: seq<Byte>): seq<Byte> {
    ad + BigEndian(|text| % U16_LIMIT, 2) + text
  }

  /** Authentication only: the tag is a truncated MAC, the ciphertext is the text. */
  function MacSeal(mac: (seq<Byte>, seq<Byte>) -> seq<Byte>, key: seq<Byte>, ad: seq<Byte>, text: seq<Byte>): Option<Sealed> {
    if |text| >= U16_LIMIT then None
    else Some(Sealed(text, Truncate(mac(key, Authenticated(ad, text)))))
  }

  function MacOpen(mac: (seq<Byte>, seq<Byte>) -> seq<Byte>, key: seq<Byte>, ad: seq<Byte>, sealed: Sealed, room: nat)
    : Option<seq<Byte>>
  {
    if room >= U16_LIMIT then None
    else if Truncate(mac(key, Authenticated(ad, sealed.ciphertext))) != sealed.tag then None
    else Some(sealed.ciphertext)
  }

  function Truncate(s: seq<Byte>): seq<Byte> {
    if |s| <= TAG_LENGTH then s else s[..TAG_LENGTH]
  }

  function MacAead(mac: (seq<Byte>, seq<Byte>) -> seq<Byte>): Aead {
    Aead((key, nonce, ad, text) => MacSeal(mac, key, ad, text),
         (key, nonce, ad, sealed, room) => MacOpen(mac, key, ad, sealed, room))
  }

  /** The MAC adapters form a correct AEAD, and what they accept is exactly what they would seal:
      the octets under the MAC determine associated data of a given length and text. */
  lemma MacAeadCorrect(mac: (seq<Byte>, seq<Byte>) -> seq<Byte>, key: seq<Byte>, room: nat)
    requires room < U16_LIMIT
    ensures Correct(MacAead(mac), key, room)
    ensures forall nonce: nat, ad: seq<Byte>, sealed: Sealed ::
              |sealed.ciphertext| < U16_LIMIT && MacAead(mac).open(key, nonce, ad, sealed, room).Some? ==>
                MacAead(mac).seal(key, nonce, ad, sealed.ciphertext) == Some(sealed)
  {}

  lemma AuthenticatedInjective(ad: seq<Byte>, text: seq<Byte>, ad': seq<Byte>, text': seq<Byte>)
    requires |ad| == |ad'| && Authenticated(ad, text) == Authenticated(ad', text')
    ensures ad == ad' && text == text'
  {
    var s := Authenticated(ad, text);
    assert ad == s[..|ad|] && text == s[|ad| + 2..];
    assert ad' == s[..|ad|] && text' == s[|ad| + 2..];
  }

  datatype NonceMode = GreaterThanLast | StrictIncrement

  const MAX_U16: nat := 0xFFFF

  predicate VerifyNonce(mode: NonceMode, last: nat, new_: nat) {
    match mode
    case GreaterThanLast => new_ > last
    case StrictIncrement => last != MAX_U16 && new_ == last + 1
  }

  // ---- State ----

  const KEY_LENGTH: nat := 32

  datatype Keys = Keys(rx: seq<Byte>, tx: seq<Byte>)

  datatype Algorithms = Algorithms(nonceMode: NonceMode, aead: Aead)

  /** Times are ticks of a steady clock. */
  datatype Params = Params(start: int, maxNonce: nat, maxSessionTime: nat)

  datatype State = State(valid: bool, rxNonce: nat, txNonce: nat, algorithms: Algorithms, params: Params, keys: Keys)

  datatype Config = Config(ttlPadMs: nat, ticksPerMs: nat, maxPayload: nat, room: nat)

  predicate ValidConfig(c: Config) { c.ticksPerMs > 0 }

  predicate ValidKeys(k: Keys) { |k.rx| == KEY_LENGTH && |k.tx| == KEY_LENGTH }

  /** Counters fit 16 bits and a valid session has usable keys. */
  predicate ValidState(s: State) {
    && s.rxNonce <= MAX_U16 && s.txNonce <= MAX_U16 && s.params.maxNonce <= MAX_U16
    && (s.valid ==> ValidKeys(s.keys))
  }

  function Fresh(algorithms: Algorithms, params: Params, keys: Keys): State {
    State(true, 0, 0, algorithms, params, keys)
  }

  const NO_KEYS: Keys := Keys([], [])

  // ---- Receiving ----

  datatype Validated = Accepted(payload: seq<Byte>) | Rejected(error: CryptoError)

  function Open(s: State, c: Config, m: SessionData): Option<seq<Byte>> {
    if |s.keys.rx| != KEY_LENGTH then None
    else s.algorithms.aead.open(s.keys.rx, m.metadata.nonce, MetadataOctets(m.metadata), Sealed(m.userData, m.authTag), c.room)
  }

  /** The first time check that a message fails, if any. */
  function TimeError(s: State, c: Config, m: SessionData, now: int): Option<CryptoError> {
    var time := now - s.params.start;
    if time < 0 then Some(ClockRollback)
    else if time > s.params.maxSessionTime then Some(MaxSessionTimeExceeded)
    else if time > m.metadata.validUntilMs * c.ticksPerMs then Some(ExpiredTtl)
    else None
  }

  predicate NonceOk(s: State, nonce: nat, auth: bool) {
    if auth then s.rxNonce == 0 && nonce == 0 else VerifyNonce(s.algorithms.nonceMode, s.rxNonce, nonce)
  }

  function Validate(s: State, c: Config, m: SessionData, now: int, auth: bool): Validated {
    if !s.valid then Rejected(NoValidSession)
    else
      var text := Open(s, c, m);
      if text.None? then Rejected(AuthFail)
      else if TimeError(s, c, m, now).Some? then Rejected(TimeError(s, c, m, now).value)
      else if m.metadata.nonce > s.params.maxNonce then Rejected(MaxNonceExceeded)
      else if !NonceOk(s, m.metadata.nonce, auth) then Rejected(NonceReplay)
      else Accepted(text.value)
  }

  function AfterValidate(s: State, c: Config, m: SessionData, now: int, auth: bool): State {
    if Validate(s, c, m, now, auth).Accepted? then s.(rxNonce := m.metadata.nonce) else s
  }

  /** Session data that authenticates must also carry something. */
  function DataResult(r: Validated): Validated {
    if r == Accepted([]) then Rejected(EmptyUserData) else r
  }

  // ---- Sending ----

  /** What formatting makes of a text: a message and the text left over, or an error. */
  datatype Formatted =
    | Formed(message: SessionData, rest: seq<Byte>)
    | Failed(error: CryptoError, rest: seq<Byte>)

  /** The front part of a text that leaves rest. */
  function Taken(text: seq<Byte>, rest: seq<Byte>): seq<Byte> {
    if |rest| <= |text| then text[..|text| - |rest|] else []
  }

  const MIN_SESSION_DATA: nat := 9
  const MAX_FRAGMENT: nat := 1024

  function EncryptRoom(maxPayload: nat): nat {
    if maxPayload > MIN_SESSION_DATA then maxPayload - MIN_SESSION_DATA else 0
  }

  function Min(a: nat, b: nat): nat { if a < b then a else b }

  function FragmentLength(total: nat, room: nat): nat {
    Min(Min(Min(total, room), MAX_FRAGMENT), MAX_U16)
  }

  /** Whole milliseconds, cut down to 32 bits. */
  function CastTime(ticks: nat, ticksPerMs: nat): nat
    requires ticksPerMs > 0
  {
    ticks / ticksPerMs % U32_LIMIT
  }

  function ValidUntil(s: State, c: Config, now: int): nat
    requires ValidConfig(c) && now >= s.params.start
  {
    CastTime(now - s.params.start + c.ttlPadMs * c.ticksPerMs, c.ticksPerMs)
  }

  predicate Fits(m: SessionData, capacity: nat) {
    ValidSessionData(m) && |EncodeSessionData(m)| <= capacity
  }

  function FormatError(s: State, c: Config, now: int): Option<CryptoError> {
    var time := now - s.params.start;
    if !s.valid then Some(NoValidSession)
    else if time < 0 then Some(ClockRollback)
    else if time > s.params.maxSessionTime then Some(MaxSessionTimeExceeded)
    else if s.params.maxSessionTime - time < c.ttlPadMs * c.ticksPerMs then Some(MaxSessionTimeExceeded)
    else if |s.keys.tx| != KEY_LENGTH then Some(BadBufferSize)
    else if EncryptRoom(c.maxPayload) == 0 then Some(BadBufferSize)
    else None
  }

  function Format(s: State, c: Config, now: int, text: seq<Byte>): Formatted
    requires ValidConfig(c)
  {
    if FormatError(s, c, now).Some? then Failed(FormatError(s, c, now).value, text)
    else
      var metadata := AuthMetadata(s.txNonce, ValidUntil(s, c, now));
      var n := FragmentLength(|text|, EncryptRoom(c.maxPayload));
      match s.algorithms.aead.seal(s.keys.tx, metadata.nonce, MetadataOctets(metadata), text[..n])
      case None => Failed(BadLength, text)
      case Some(sealed) =>
        var m := SessionData(metadata, sealed.ciphertext, sealed.tag);
        if Fits(m, c.maxPayload) then Formed(m, text[n..]) else Failed(FrameTooBig, text[n..])
  }

  function FormatNonced(s: State, c: Config, now: int, text: seq<Byte>, auth: bool): Formatted
    requires ValidConfig(c)
  {
    if (if auth then s.txNonce != 0 else s.txNonce >= s.params.maxNonce) then Failed(MaxNonceExceeded, text)
    else Format(s, c, now, text)
  }

  function AfterFormat(s: State, c: Config, now: int, text: seq<Byte>, auth: bool): State
    requires ValidConfig(c)
  {
    if FormatNonced(s, c, now, text, auth).Formed? then s.(txNonce := (s.txNonce + 1) % U16_LIMIT) else s
  }

  // ---- The session object ----

  class Session {
    const config: Config
    var valid: bool
    var rxNonce: nat
    var txNonce: nat
    var algorithms: Algorithms
    var params: Params
    var keys: Keys

    ghost function View(): State
      reads this
    {
      State(valid, rxNonce, txNonce, algorithms, params, keys)
    }

    ghost predicate Valid()
      reads this
    {
      ValidConfig(config) && ValidState(View())
    }

    constructor (config: Config, algorithms: Algorithms, params: Params)
      requires ValidConfig(config) && params.maxNonce <= MAX_U16
      ensures Valid() && this.config == config && View() == State(false, 0, 0, algorithms, params, NO_KEYS)
    {
      this.config, this.algorithms, this.params := config, algorithms, params;
      valid, rxNonce, txNonce, keys := false, 0, 0, NO_KEYS;
    }

    method Initialize(algorithms: Algorithms, params: Params, keys: Keys) returns (ok: bool)
      requires Valid() && params.maxNonce <= MAX_U16
      modifies this
      ensures Valid() && (ok <==> ValidKeys(keys))
      ensures View() == if ok then Fresh(algorithms, params, keys) else old(View())
    {
      if |keys.rx| != KEY_LENGTH || |keys.tx| != KEY_LENGTH {
        return false;
      }
      rxNonce, txNonce := 0, 0;
      this.algorithms, this.params, this.keys := algorithms, params, keys;
      valid := true;
      return true;
    }

    method Reset()
      requires Valid()
      modifies this
      ensures Valid() && View() == old(View()).(valid := false, keys := NO_KEYS)
    {
      valid, keys := false, NO_KEYS;
    }

    method ValidateWithNonceCheck(m: SessionData, now: int, auth: bool) returns (r: Validated)
      requires Valid()
      modifies this
      ensures Valid()
      ensures r == Validate(old(View()), config, m, now, auth)
      ensures View() == AfterValidate(old(View()), config, m, now, auth)
    {
      if !valid {
        return Rejected(NoValidSession);
      }
      var text := algorithms.aead.open(
        keys.rx, m.metadata.nonce, MetadataOctets(m.metadata), Sealed(m.userData, m.authTag), config.room);
      if text.None? {
        return Rejected(AuthFail);
      }
      if now < params.start {
        return Rejected(ClockRollback);
      }
      var time := now - params.start;
      if time > params.maxSessionTime {
        return Rejected(MaxSessionTimeExceeded);
      }
      if time > m.metadata.validUntilMs * config.ticksPerMs {
        return Rejected(ExpiredTtl);
      }
      if m.metadata.nonce > params.maxNonce {
        return Rejected(MaxNonceExceeded);
      }
      if !(if auth then rxNonce == 0 && m.metadata.nonce == 0 else VerifyNonce(algorithms.nonceMode, rxNonce, m.metadata.nonce)) {
        return Rejected(NonceReplay);
      }
      rxNonce := m.metadata.nonce;
      return Accepted(text.value);
    }

    method ValidateSessionAuth(m: SessionData, now: int) returns (r: Validated)
      requires Valid()
      modifies this
      ensures Valid()
      ensures r == Validate(old(View()), config, m, now, true)
      ensures View() == AfterValidate(old(View()), config, m, now, true)
    {
      r := ValidateWithNonceCheck(m, now, true);
    }

    /** Authentic but empty session data is an error that still uses up its nonce. */
    method ValidateSessionData(m: SessionData, now: int) returns (r: Validated)
      requires Valid()
      modifies this
      ensures Valid()
      ensures r == DataResult(Validate(old(View()), config, m, now, false))
      ensures View() == AfterValidate(old(View()), config, m, now, false)
    {
      r := ValidateWithNonceCheck(m, now, false);
      if r.Accepted? && r.payload == [] {
        r := Rejected(EmptyUserData);
      }
    }

    method FormatNoNonceCheck(now: int, text: seq<Byte>) returns (r: Formatted)
      requires Valid()
      modifies this
      ensures r == Format(old(View()), config, now, text)
      ensures View() == if r.Formed? then old(View()).(txNonce := (old(txNonce) + 1) % U16_LIMIT) else old(View())
    {
      hide CastTime, Fits;
      if !valid {
        return Failed(NoValidSession, text);
      }
      if now < params.start {
        return Failed(ClockRollback, text);
      }
      var time := now - params.start;
      if time > params.maxSessionTime {
        return Failed(MaxSessionTimeExceeded, text);
      }
      if params.maxSessionTime - time < config.ttlPadMs * config.ticksPerMs {
        return Failed(MaxSessionTimeExceeded, text);
      }
      var metadata := AuthMetadata(txNonce, CastTime(time + config.ttlPadMs * config.ticksPerMs, config.ticksPerMs));
      if EncryptRoom(config.maxPayload) == 0 {
        return Failed(BadBufferSize, text);
      }
      var n := FragmentLength(|text|, EncryptRoom(config.maxPayload));
      var sealed := algorithms.aead.seal(keys.tx, txNonce, MetadataOctets(metadata), text[..n]);
      if sealed.None? {
        return Failed(BadLength, text);
      }
      var m := SessionData(metadata, sealed.value.ciphertext, sealed.value.tag);
      if !Fits(m, config.maxPayload) {
        return Failed(FrameTooBig, text[n..]);
      }
      txNonce := (txNonce + 1) % U16_LIMIT;
      return Formed(m, text[n..]);
    }

    method FormatSessionAuth(now: int, text: seq<Byte>) returns (r: Formatted)
      requires Valid()
      modifies this
      ensures Valid()
      ensures r == FormatNonced(old(View()), config, now, text, true)
      ensures View() == AfterFormat(old(View()), config, now, text, true)
    {
      hide Format;
      if txNonce != 0 {
        return Failed(MaxNonceExceeded, text);
      }
      r := FormatNoNonceCheck(now, text);
    }

    method FormatSessionData(now: int, text: seq<Byte>) returns (r: Formatted)
      requires Valid()
      modifies this
      ensures Valid()
      ensures r == FormatNonced(old(View()), config, now, text, false)
      ensures View() == AfterFormat(old(View()), config, now, text, false)
    {
      hide Format;
      if txNonce >= params.maxNonce {
        return Failed(MaxNonceExceeded, text);
      }
      r := FormatNoNonceCheck(now, text);
    }
  }
}
