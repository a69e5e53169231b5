/** A handshake followed by a conversation: what both ends can rely on. */
module EndToEnd {
  import opened Bytes
  import opened Codec
  import opened Messages
  import opened Sessions
  import opened Timing
  import opened Handshakes
  import Channel

  /** Two fresh sessions that mirror each other and whose starts, in common time, differ by at most skew. */
  ghost predicate Established(a: State, b: State, aOffset: int, bOffset: int, skew: nat) {
    && a == Fresh(a.algorithms, a.params, a.keys) && b == Fresh(b.algorithms, b.params, b.keys)
    && ValidState(a) && ValidState(b) && Mirrored(a, b)
    && SkewAtMost(a.params.start, aOffset, b.params.start, bOffset, skew)
  }

  lemma EstablishedBothWays(a: State, b: State, aOffset: int, bOffset: int, skew: nat)
    requires Established(a, b, aOffset, bOffset, skew)
    ensures Established(b, a, bOffset, aOffset, skew)
  {}

  /** A handshake of any family with matching secrets, whose reply was made within the round trip,
      establishes two sessions at most half a round trip apart. Times are common time; the clocks of
      the peers run at the same rate with offsets of their own. */
  lemma HandshakeEstablishes(p: Platform, i: InitiatorSecrets, r: ResponderSecrets, request: Request, octets: seq<Byte>,
                             algorithms: Algorithms, requestTx: int, at: int, replyRx: int, iOffset: int, rOffset: int)
    requires Matching(p, i, r, request) && requestTx <= at <= replyRx && request.constraints.maxNonce <= MAX_U16
    requires Configure(p, request.spec) == Use(algorithms)
    requires Respond(p, r, request, octets, at + rOffset).0.Replied?
    ensures var reply, sr := Prepare(p, r, request).reply, Respond(p, r, request, octets, at + rOffset).1;
            && CanWrite(reply, p.maxPayload)
            && var si := Initiate(p, i, algorithms, p.suite.hash(octets), reply, EncodeReply(reply), request.constraints,
                                  requestTx + iOffset, replyRx + iOffset);
            && si.Some? && sr.Some? && Established(si.value, sr.value, iOffset, rOffset, (replyRx - requestTx + 1) / 2)
            && Established(sr.value, si.value, rOffset, iOffset, (replyRx - requestTx + 1) / 2)
  {
    hide InitiatorMaterial, ValidReply, Matching, FromBigEndian, TripleDh;
    HandshakeMirrors(p, i, r, request, octets, algorithms, requestTx + iOffset, replyRx + iOffset, at + rOffset);
    HandshakeSkew(requestTx, replyRx, at, iOffset, rOffset);
    var reply, sr := Prepare(p, r, request).reply, Respond(p, r, request, octets, at + rOffset).1;
    var si := Initiate(p, i, algorithms, p.suite.hash(octets), reply, EncodeReply(reply), request.constraints,
                       requestTx + iOffset, replyRx + iOffset);
    EstablishedBothWays(si.value, sr.value, iOffset, rOffset, (replyRx - requestTx + 1) / 2);
  }

  /** Over established sessions, whichever end sends: what the other end accepts as session data over
      an arbitrary channel is sent text, in order, without repetition, and without gaps in strict mode;
      and a message sent at common time f passes the time checks until the pad less the skew less a
      millisecond, and fails them after the pad plus the skew. */
  lemma EstablishedConversation(tx: State, rx: State, txOffset: int, rxOffset: int, skew: nat, c: Config, d: Config,
                                sends: seq<Channel.Op>, ops: seq<Channel.Op>, text: seq<Byte>, f: int, g: int, maxMs: nat)
    requires Established(tx, rx, txOffset, rxOffset, skew)
    requires ValidConfig(c) && ValidConfig(d) && c.ticksPerMs == d.ticksPerMs && MAX_FRAGMENT <= d.room
    requires Correct(rx.algorithms.aead, rx.keys.rx, d.room)
    requires Channel.Unforged(ops, rx.algorithms.aead, rx.keys.rx, d.room, Channel.Emitted(tx, c, sends))
    requires maxMs < U32_LIMIT && tx.params.maxSessionTime == maxMs * c.ticksPerMs
    ensures var sent, got := Channel.Emitted(tx, c, sends), Channel.Received(rx, d, ops);
            && (forall k :: 0 <= k < |got| ==> 1 <= got[k].nonce && Channel.Matches(got[k], sent))
            && (forall j, k :: 0 <= j < k < |got| ==> got[j].nonce < got[k].nonce)
            && (rx.algorithms.nonceMode.StrictIncrement? ==>
                  |got| == 0 || (|got| < |sent| && Channel.ReceivedTexts(got) == Channel.Texts(sent)[1..|got| + 1]))
    ensures var s, pad := Channel.Run(tx, c, sends), c.ttlPadMs * c.ticksPerMs;
            Format(s, c, f + txOffset, text).Formed? ==>
              var m := Format(s, c, f + txOffset, text).message;
              && (g - f <= pad - skew - c.ticksPerMs && g + rxOffset >= rx.params.start ==> TimeError(rx, d, m, g + rxOffset).None?)
              && (g - f > pad + skew ==> TimeError(rx, d, m, g + rxOffset).Some?)
  {
    hide Channel.Emitted, Channel.Received, Channel.Run, Channel.Unforged, Channel.Matches, Correct, Format, TimeError, Fresh;
    assert ValidKeys(tx.keys) && ValidKeys(rx.keys) by { FreshIsValid(tx); FreshIsValid(rx); }
    assert Channel.Connected(tx, rx, c, d, sends, ops);
    Channel.ChannelInOrder(tx, rx, c, d, sends, ops);
    var s := Channel.Run(tx, c, sends);
    Channel.ParamsStay(tx, c, sends);
    if Format(s, c, f + txOffset, text).Formed? {
      LifetimeBounds(s, rx, c, d, f, g, txOffset, rxOffset, skew, text, maxMs);
    }
  }

  lemma FreshIsValid(s: State)
    requires ValidState(s) && s == Fresh(s.algorithms, s.params, s.keys)
    ensures ValidKeys(s.keys)
  {}
}
