/** Time limits and space limits of formatted messages. */
module Timing {
  import opened Bytes
  import opened Codec
  import opened Messages
  import opened Sessions

  lemma DivisionBounds(t: nat, rate: nat)
    requires rate > 0
    ensures t / rate * rate <= t < (t / rate + 1) * rate
  {}

  lemma QuotientBound(t: nat, rate: nat, most: nat)
    requires rate > 0 && t <= most * rate
    ensures t / rate <= most
  {
    DivisionBounds(t, rate);
  }

  lemma CastIsExact(t: nat, rate: nat, most: nat)
    requires rate > 0 && t <= most * rate && most < U32_LIMIT
    ensures var v := CastTime(t, rate);
            v == t / rate && v <= most && v * rate <= t < v * rate + rate
  {
    QuotientBound(t, rate, most);
    DivisionBounds(t, rate);
  }

  /** The expiry written in a message is the session time plus the pad in whole milliseconds: the
      cast to 32 bits never loses anything, and expiry never lies beyond the end of the session. */
  lemma ExpiryIsExact(s: State, c: Config, now: int, text: seq<Byte>, maxMs: nat)
    requires ValidConfig(c) && maxMs < U32_LIMIT && s.params.maxSessionTime == maxMs * c.ticksPerMs
    requires Format(s, c, now, text).Formed?
    ensures var v, t := Format(s, c, now, text).message.metadata.validUntilMs, now - s.params.start + c.ttlPadMs * c.ticksPerMs;
            && v == t / c.ticksPerMs && v <= maxMs
            && v * c.ticksPerMs <= t < v * c.ticksPerMs + c.ticksPerMs && t <= s.params.maxSessionTime
  {
    hide Fits, MetadataOctets, CastTime;
    CastIsExact(now - s.params.start + c.ttlPadMs * c.ticksPerMs, c.ticksPerMs, maxMs);
  }

  /** Clocks that run at the same rate: each reads the common time plus an offset of its own. */
  predicate SkewAtMost(txStart: int, txOffset: int, rxStart: int, rxOffset: int, skew: nat) {
    0 - skew <= (txStart - txOffset) - (rxStart - rxOffset) <= skew
  }

  /** A message formatted at common time f passes every time check when it is validated at common
      time g, not before the receiver's session start, within the pad less the skew less one
      millisecond; and after the pad plus the skew it is always refused. */
  lemma LifetimeBounds(tx: State, rx: State, c: Config, d: Config, f: int, g: int, txOffset: int, rxOffset: int,
                       skew: nat, text: seq<Byte>, maxMs: nat)
    requires ValidConfig(c) && d.ticksPerMs == c.ticksPerMs && maxMs < U32_LIMIT
    requires tx.params.maxSessionTime == rx.params.maxSessionTime == maxMs * c.ticksPerMs
    requires SkewAtMost(tx.params.start, txOffset, rx.params.start, rxOffset, skew)
    requires Format(tx, c, f + txOffset, text).Formed?
    ensures var m, pad := Format(tx, c, f + txOffset, text).message, c.ttlPadMs * c.ticksPerMs;
            && (g - f <= pad - skew - c.ticksPerMs && g + rxOffset >= rx.params.start ==>
                  TimeError(rx, d, m, g + rxOffset).None?)
            && (g - f > pad + skew ==>
                  TimeError(rx, d, m, g + rxOffset) in {Some(MaxSessionTimeExceeded), Some(ExpiredTtl)})
  {
    hide Format;
    ExpiryIsExact(tx, c, f + txOffset, text, maxMs);
    assert f + txOffset >= tx.params.start by { FormedAfterStart(tx, c, f + txOffset, text); }
  }

  lemma FormedAfterStart(s: State, c: Config, now: int, text: seq<Byte>)
    requires ValidConfig(c) && Format(s, c, now, text).Formed?
    ensures now >= s.params.start
  {
    hide Fits, MetadataOctets;
  }

  /** Session start as the initiator estimates it from when the request left and the reply arrived. */
  function EstimatedStart(requestTx: int, replyRx: int): int
    requires requestTx <= replyRx
  {
    replyRx - (replyRx - requestTx) / 2
  }

  /** A responder that answers at common time p, somewhere within the round trip, starts its session
      within half a round trip, rounded up, of the initiator's estimate; the estimate is never later
      than the arrival of the reply. */
  lemma HandshakeSkew(requestTx: int, replyRx: int, p: int, initiatorOffset: int, responderOffset: int)
    requires requestTx <= p <= replyRx
    ensures var start := EstimatedStart(requestTx + initiatorOffset, replyRx + initiatorOffset);
            && var half := (replyRx - requestTx + 1) / 2;
            && SkewAtMost(start, initiatorOffset, p + responderOffset, responderOffset, half)
            && SkewAtMost(p + responderOffset, responderOffset, start, initiatorOffset, half)
            && requestTx + initiatorOffset <= start <= replyRx + initiatorOffset
  {}

  // ---- Space ----

  /** Encryption keeps the length and adds a tag of 16 octets. */
  ghost predicate KeepsLength(aead: Aead) {
    forall key, nonce, ad, text :: aead.seal(key, nonce, ad, text).Some? ==>
      var sealed := aead.seal(key, nonce, ad, text).value;
      |sealed.ciphertext| == |text| && |sealed.tag| == TAG_LENGTH
  }

  function PayloadSize(n: nat): nat {
    9 + NumValueBytes(n) + n + NumValueBytes(TAG_LENGTH) + TAG_LENGTH
  }

  const FULL_PAYLOAD: nat := 1051

  lemma FragmentFits(total: nat, capacity: nat)
    ensures capacity >= FULL_PAYLOAD ==> PayloadSize(FragmentLength(total, EncryptRoom(capacity))) <= capacity
    ensures capacity < FULL_PAYLOAD && total >= MAX_FRAGMENT ==>
              EncryptRoom(capacity) == 0 || PayloadSize(FragmentLength(total, EncryptRoom(capacity))) > capacity
    ensures PayloadSize(MAX_FRAGMENT) == FULL_PAYLOAD
  {}

  /** When the text seals, formatting succeeds exactly for a valid session with a nonce left, within its
      time less the pad, when the frame has room for the fragment; room for 1051 octets is enough for
      every text, and for a text of a full fragment or more it is also necessary. */
  lemma FormsExactly(s: State, c: Config, now: int, text: seq<Byte>, auth: bool)
    requires ValidConfig(c) && ValidState(s) && KeepsLength(s.algorithms.aead)
    requires forall nonce, ad, t :: |t| <= MAX_FRAGMENT ==> s.algorithms.aead.seal(s.keys.tx, nonce, ad, t).Some?
    ensures var n := FragmentLength(|text|, EncryptRoom(c.maxPayload));
            var ready := MayFormat(s, c, now, auth);
            var f := FormatNonced(s, c, now, text, auth);
            && (f.Formed? <==> ready && EncryptRoom(c.maxPayload) > 0 && PayloadSize(n) <= c.maxPayload)
            && (ready && c.maxPayload >= FULL_PAYLOAD ==> f.Formed?)
            && (|text| >= MAX_FRAGMENT && f.Formed? ==> c.maxPayload >= FULL_PAYLOAD)
            && (f.Formed? ==> f.rest == text[n..] && n <= MAX_FRAGMENT && (text != [] ==> n >= 1))
  {
    hide MetadataOctets, CastTime, ValidSessionData, EncodeSessionData, NumValueBytes, PayloadSize;
    var n := FragmentLength(|text|, EncryptRoom(c.maxPayload));
    FragmentFits(|text|, c.maxPayload);
    if MayFormat(s, c, now, auth) && EncryptRoom(c.maxPayload) > 0 {
      CastFits(now - s.params.start + c.ttlPadMs * c.ticksPerMs, c.ticksPerMs);
      var metadata := AuthMetadata(s.txNonce, ValidUntil(s, c, now));
      var sealed := s.algorithms.aead.seal(s.keys.tx, s.txNonce, MetadataOctets(metadata), text[..n]);
      assert sealed.Some?;
      var m := SessionData(metadata, sealed.value.ciphertext, sealed.value.tag);
      SessionDataSize(m);
      assert |m.userData| == n && |m.authTag| == TAG_LENGTH;
      assert PayloadSize(n) == |EncodeSessionData(m)| by { SizeUnfolds(n); }
    }
  }

  /** A valid session, a nonce left (the auth message takes the first), and time left for the pad. */
  predicate MayFormat(s: State, c: Config, now: int, auth: bool) {
    && s.valid && (if auth then s.txNonce == 0 else s.txNonce < s.params.maxNonce)
    && s.params.start <= now && now - s.params.start + c.ttlPadMs * c.ticksPerMs <= s.params.maxSessionTime
  }

  lemma SizeUnfolds(n: nat)
    ensures PayloadSize(n) == 9 + NumValueBytes(n) + n + NumValueBytes(TAG_LENGTH) + TAG_LENGTH
  {}

  lemma CastFits(ticks: nat, rate: nat)
    requires rate > 0
    ensures CastTime(ticks, rate) < U32_LIMIT
  {}
}
