/** Whole runs of a session: the nonces it emits and what a receiver accepts over an arbitrary channel. */
module Channel {
  import opened Bytes
  import opened Codec
  import opened Messages
  import opened Sessions
  import opened Timing

  /** Everything that can happen to a session between two initialisations. */
  datatype Op =
    | FormatMessage(now: int, text: seq<Byte>, auth: bool)
    | ValidateMessage(message: SessionData, at: int, isAuth: bool)
    | Reset

  function After(s: State, c: Config, op: Op): (s': State)
    requires ValidConfig(c)
  {
    match op
    case FormatMessage(now, text, auth) => AfterFormat(s, c, now, text, auth)
    case ValidateMessage(m, now, auth) => AfterValidate(s, c, m, now, auth)
    case Reset => s.(valid := false, keys := NO_KEYS)
  }

  function Run(s: State, c: Config, ops: seq<Op>): State
    requires ValidConfig(c)
    decreases |ops|
  {
    if ops == [] then s else Run(After(s, c, ops[0]), c, ops[1..])
  }

  // ---- Sending ----

  /** A message that was emitted and the text it carries. */
  datatype Emission = Emission(message: SessionData, text: seq<Byte>)

  function Emits(s: State, c: Config, op: Op): seq<Emission>
    requires ValidConfig(c)
  {
    if !op.FormatMessage? then []
    else
      match FormatNonced(s, c, op.now, op.text, op.auth)
      case Failed(_, _) => []
      case Formed(m, rest) => [Emission(m, Taken(op.text, rest))]
  }

  function Emitted(s: State, c: Config, ops: seq<Op>): seq<Emission>
    requires ValidConfig(c)
    decreases |ops|
  {
    if ops == [] then [] else Emits(s, c, ops[0]) + Emitted(After(s, c, ops[0]), c, ops[1..])
  }

  /** e was sealed under key with the given nonce. */
  predicate SealedWith(e: Emission, aead: Aead, key: seq<Byte>, nonce: nat) {
    && e.message.metadata.nonce == nonce
    && e.message.metadata.validUntilMs < U32_LIMIT
    && aead.seal(key, nonce, MetadataOctets(e.message.metadata), e.text)
         == Some(Sealed(e.message.userData, e.message.authTag))
  }

  /** A session that just sent has counted the message; nothing else moves the counter. */
  lemma StepEmits(s: State, c: Config, op: Op)
    requires ValidConfig(c) && ValidState(s)
    ensures var s' := After(s, c, op);
            && ValidState(s') && s'.params == s.params && s'.algorithms == s.algorithms
            && (s'.valid ==> s.valid && s'.keys == s.keys)
            && s'.txNonce == s.txNonce + |Emits(s, c, op)|
            && s'.txNonce <= (if s.txNonce > 1 || s.params.maxNonce > 1 then Max(s.txNonce, s.params.maxNonce) else 1)
            && forall e :: e in Emits(s, c, op) ==> s.valid && SealedWith(e, s.algorithms.aead, s.keys.tx, s.txNonce)
  {
    hide MetadataOctets, Fits, FormatError;
    if op.FormatMessage? {
      if FormatNonced(s, c, op.now, op.text, op.auth).Formed? {
        FormedIsSealed(s, c, op.now, op.text);
      }
    }
  }

  function Max(a: nat, b: nat): nat { if a < b then b else a }

  lemma FormedIsSealed(s: State, c: Config, now: int, text: seq<Byte>)
    requires ValidConfig(c) && Format(s, c, now, text).Formed?
    ensures var f := Format(s, c, now, text);
            s.valid && SealedWith(Emission(f.message, Taken(text, f.rest)), s.algorithms.aead, s.keys.tx, s.txNonce)
  {
    hide MetadataOctets, Fits;
    var f := Format(s, c, now, text);
    var n := FragmentLength(|text|, EncryptRoom(c.maxPayload));
    assert Taken(text, f.rest) == text[..n];
  }

  /** Over any mix of calls, successful or not, the messages a session emits carry consecutive nonces,
      all sealed under its one transmit key, and the 16-bit counter never wraps. */
  lemma {:induction false} NoncesCountUp(s: State, c: Config, ops: seq<Op>)
    requires ValidConfig(c) && ValidState(s)
    ensures var sent := Emitted(s, c, ops);
            && ValidState(Run(s, c, ops)) && Run(s, c, ops).txNonce == s.txNonce + |sent|
            && (sent != [] ==> s.valid)
            && forall i :: 0 <= i < |sent| ==> SealedWith(sent[i], s.algorithms.aead, s.keys.tx, s.txNonce + i)
    decreases |ops|
  {
    hide After, Emits, SealedWith, ValidState;
    if ops != [] {
      StepEmits(s, c, ops[0]);
      var s', first := After(s, c, ops[0]), Emits(s, c, ops[0]);
      NoncesCountUp(s', c, ops[1..]);
      var more := Emitted(s', c, ops[1..]);
      assert Emitted(s, c, ops) == first + more;
      if first != [] { assert first[0] in first; AtMostOne(s, c, ops[0]); }
      forall i | 0 <= i < |first + more|
        ensures SealedWith((first + more)[i], s.algorithms.aead, s.keys.tx, s.txNonce + i)
      {
        if i >= |first| { assert (first + more)[i] == more[i - |first|]; }
      }
    }
  }

  lemma AtMostOne(s: State, c: Config, op: Op)
    requires ValidConfig(c)
    ensures |Emits(s, c, op)| <= 1
  {
    hide FormatNonced;
  }

  /** From a fresh session: nonces 0, 1, 2, ... with no pair of key and nonce used twice. */
  lemma NoNonceTwice(algorithms: Algorithms, params: Params, keys: Keys, c: Config, ops: seq<Op>, i: nat, j: nat)
    requires ValidConfig(c) && ValidKeys(keys) && params.maxNonce <= MAX_U16
    requires i < |Emitted(Fresh(algorithms, params, keys), c, ops)|
    requires j < |Emitted(Fresh(algorithms, params, keys), c, ops)|
    ensures var sent := Emitted(Fresh(algorithms, params, keys), c, ops);
            && sent[i].message.metadata.nonce == i <= MAX_U16
            && (sent[i].message.metadata.nonce == sent[j].message.metadata.nonce ==> i == j)
  {
    hide Emitted, Run;
    NoncesCountUp(Fresh(algorithms, params, keys), c, ops);
  }

  lemma {:induction false} ParamsStay(s: State, c: Config, ops: seq<Op>)
    requires ValidConfig(c)
    ensures Run(s, c, ops).params == s.params
    decreases |ops|
  {
    hide FormatNonced, Validate;
    if ops != [] {
      ParamsStay(After(s, c, ops[0]), c, ops[1..]);
    }
  }

  // ---- Receiving ----

  /** A message accepted as session data: its nonce and its text, which may be empty. */
  datatype Receipt = Receipt(nonce: nat, text: seq<Byte>)

  function Receives(s: State, c: Config, op: Op): seq<Receipt> {
    if !op.ValidateMessage? || op.isAuth then []
    else
      match Validate(s, c, op.message, op.at, false)
      case Rejected(_) => []
      case Accepted(text) => [Receipt(op.message.metadata.nonce, text)]
  }

  function Received(s: State, c: Config, ops: seq<Op>): seq<Receipt>
    requires ValidConfig(c)
    decreases |ops|
  {
    if ops == [] then [] else Receives(s, c, ops[0]) + Received(After(s, c, ops[0]), c, ops[1..])
  }

  /** What reaches the user: authentic data that is not empty. */
  function Delivered(receipts: seq<Receipt>): seq<seq<Byte>> {
    if receipts == [] then []
    else (if DataResult(Accepted(receipts[0].text)).Accepted? then [receipts[0].text] else []) + Delivered(receipts[1..])
  }

  /** Sent by the peer, as far as the authenticated encryption can tell. */
  ghost predicate WasSent(sent: seq<Emission>, m: SessionData) {
    exists j :: 0 <= j < |sent| && sent[j].message.metadata.nonce == m.metadata.nonce
      && MetadataOctets(sent[j].message.metadata) == MetadataOctets(m.metadata)
      && sent[j].message.userData == m.userData && sent[j].message.authTag == m.authTag
  }

  /** The channel may drop, repeat, reorder and make up messages, but what opens under the key was
      sealed by the sender. */
  ghost predicate Unforged(ops: seq<Op>, aead: Aead, key: seq<Byte>, room: nat, sent: seq<Emission>) {
    forall k :: 0 <= k < |ops| && ops[k].ValidateMessage? ==> UnforgedMessage(ops[k].message, aead, key, room, sent)
  }

  ghost predicate UnforgedMessage(m: SessionData, aead: Aead, key: seq<Byte>, room: nat, sent: seq<Emission>) {
    aead.open(key, m.metadata.nonce, MetadataOctets(m.metadata), Sealed(m.userData, m.authTag), room).Some? ==> WasSent(sent, m)
  }

  /** In a MAC mode the assumption comes down to the MAC itself: if every input whose tag opens is one
      that the sender authenticated, then what opens was sent. */
  lemma MacUnforged(mac: (seq<Byte>, seq<Byte>) -> seq<Byte>, m: SessionData, key: seq<Byte>, room: nat, sent: seq<Emission>)
    requires ValidSessionData(m)
    requires forall j :: 0 <= j < |sent| ==> SealedWith(sent[j], MacAead(mac), key, j) && j < U16_LIMIT
    requires MacAead(mac).open(key, m.metadata.nonce, MetadataOctets(m.metadata), Sealed(m.userData, m.authTag), room).Some? ==>
               exists j :: 0 <= j < |sent| && Authenticated(MetadataOctets(sent[j].message.metadata), sent[j].text)
                                           == Authenticated(MetadataOctets(m.metadata), m.userData)
    ensures UnforgedMessage(m, MacAead(mac), key, room, sent)
  {
    hide MetadataOctets, Authenticated, HaveTypes;
    if MacAead(mac).open(key, m.metadata.nonce, MetadataOctets(m.metadata), Sealed(m.userData, m.authTag), room).Some? {
      var j :| 0 <= j < |sent| && Authenticated(MetadataOctets(sent[j].message.metadata), sent[j].text)
                               == Authenticated(MetadataOctets(m.metadata), m.userData);
      var e := sent[j];
      AuthenticatedInjective(MetadataOctets(e.message.metadata), e.text, MetadataOctets(m.metadata), m.userData);
      SessionDataSize(m);
      MetadataOctetsInjective(e.message.metadata, m.metadata);
      assert SealedWith(e, MacAead(mac), key, j);
      assert WasSent(sent, m);
    }
  }

  /** The sender's record: the i-th message carries nonce i. */
  ghost predicate Record(sent: seq<Emission>, aead: Aead, key: seq<Byte>, room: nat) {
    forall i :: 0 <= i < |sent| ==> SealedWith(sent[i], aead, key, i) && |sent[i].text| <= room
  }

  /** r is the message that the sender numbered r.nonce. */
  predicate Matches(r: Receipt, sent: seq<Emission>) {
    r.nonce < |sent| && r.text == sent[r.nonce].text
  }

  lemma AcceptedWasSent(s: State, c: Config, m: SessionData, now: int, auth: bool, sent: seq<Emission>)
    requires Validate(s, c, m, now, auth).Accepted?
    requires Correct(s.algorithms.aead, s.keys.rx, c.room) && Record(sent, s.algorithms.aead, s.keys.rx, c.room)
    requires UnforgedMessage(m, s.algorithms.aead, s.keys.rx, c.room, sent)
    ensures Matches(Receipt(m.metadata.nonce, Validate(s, c, m, now, auth).payload), sent)
    ensures ValidSessionData(m) ==> sent[m.metadata.nonce].message == m
  {
    hide MetadataOctets, TimeError, NonceOk, HaveTypes;
    var j :| 0 <= j < |sent| && sent[j].message.metadata.nonce == m.metadata.nonce
      && MetadataOctets(sent[j].message.metadata) == MetadataOctets(m.metadata)
      && sent[j].message.userData == m.userData && sent[j].message.authTag == m.authTag;
    assert SealedWith(sent[j], s.algorithms.aead, s.keys.rx, j);
    if ValidSessionData(m) {
      SessionDataSize(m);
      MetadataOctetsInjective(m.metadata, sent[j].message.metadata);
    }
  }

  /** Each receipt is the sent message of its nonce, and nonces only go up from last: by exactly one
      in strict mode. */
  ghost predicate InOrder(got: seq<Receipt>, last: nat, strict: bool, sent: seq<Emission>) {
    && (forall i :: 0 <= i < |got| ==> Matches(got[i], sent) && got[i].nonce > last)
    && (forall i, j :: 0 <= i < j < |got| ==> got[i].nonce < got[j].nonce)
    && (strict ==> forall i :: 0 <= i < |got| ==> got[i].nonce == last + 1 + i)
  }

  lemma InOrderCons(r: Receipt, more: seq<Receipt>, last: nat, strict: bool, sent: seq<Emission>)
    requires Matches(r, sent) && r.nonce > last && (strict ==> r.nonce == last + 1)
    requires InOrder(more, r.nonce, strict, sent)
    ensures InOrder([r] + more, last, strict, sent)
  {
    hide Matches;
    var got := [r] + more;
    assert forall i :: 1 <= i < |got| ==> got[i] == more[i - 1];
  }

  lemma {:induction false} ReceiptsInOrder(s: State, c: Config, ops: seq<Op>, sent: seq<Emission>)
    requires ValidConfig(c) && ValidState(s)
    requires s.valid ==> Correct(s.algorithms.aead, s.keys.rx, c.room) && Record(sent, s.algorithms.aead, s.keys.rx, c.room)
                         && Unforged(ops, s.algorithms.aead, s.keys.rx, c.room, sent)
    ensures InOrder(Received(s, c, ops), s.rxNonce, s.algorithms.nonceMode.StrictIncrement?, sent)
    decreases |ops|
  {
    hide After, Receives, ValidState, Correct, Record, UnforgedMessage, Matches;
    if ops != [] {
      StepEmits(s, c, ops[0]);
      StepReceives(s, c, ops[0], sent);
      var s', first := After(s, c, ops[0]), Receives(s, c, ops[0]);
      ReceiptsInOrder(s', c, ops[1..], sent);
      var more := Received(s', c, ops[1..]);
      if first == [] {
        assert first + more == more;
      } else {
        assert first == [first[0]];
        InOrderCons(first[0], more, s.rxNonce, s.algorithms.nonceMode.StrictIncrement?, sent);
      }
    }
  }

  lemma StepReceives(s: State, c: Config, op: Op, sent: seq<Emission>)
    requires ValidConfig(c) && ValidState(s)
    requires s.valid && op.ValidateMessage? ==>
               && Correct(s.algorithms.aead, s.keys.rx, c.room) && Record(sent, s.algorithms.aead, s.keys.rx, c.room)
               && UnforgedMessage(op.message, s.algorithms.aead, s.keys.rx, c.room, sent)
    ensures var s', got := After(s, c, op), Receives(s, c, op);
            && |got| <= 1 && s'.rxNonce == (if got == [] then s.rxNonce else got[0].nonce)
            && (got != [] ==> Matches(got[0], sent) && got[0].nonce > s.rxNonce)
            && (got != [] && s.algorithms.nonceMode.StrictIncrement? ==> got[0].nonce == s.rxNonce + 1)
  {
    hide Correct, Record, UnforgedMessage, Matches, FormatNonced;
    if op.ValidateMessage? && Validate(s, c, op.message, op.at, op.isAuth).Accepted? {
      AcceptedWasSent(s, c, op.message, op.at, op.isAuth, sent);
    }
  }

  function Texts(sent: seq<Emission>): seq<seq<Byte>> {
    seq(|sent|, i requires 0 <= i < |sent| => sent[i].text)
  }

  function ReceivedTexts(got: seq<Receipt>): seq<seq<Byte>> {
    seq(|got|, i requires 0 <= i < |got| => got[i].text)
  }

  /** Two fresh sessions whose keys fit together, over a channel that may drop, repeat, reorder and make
      up messages: the sender does `sends`, the receiver does `ops`. */
  ghost predicate Connected(tx: State, rx: State, c: Config, d: Config, sends: seq<Op>, ops: seq<Op>) {
    && ValidConfig(c) && ValidConfig(d) && ValidKeys(tx.keys) && ValidKeys(rx.keys)
    && tx == Fresh(tx.algorithms, tx.params, tx.keys) && tx.params.maxNonce <= MAX_U16
    && rx == Fresh(rx.algorithms, rx.params, rx.keys) && rx.params.maxNonce <= MAX_U16
    && rx.keys.rx == tx.keys.tx && rx.algorithms.aead == tx.algorithms.aead
    && Correct(rx.algorithms.aead, rx.keys.rx, d.room) && MAX_FRAGMENT <= d.room
    && Unforged(ops, rx.algorithms.aead, rx.keys.rx, d.room, Emitted(tx, c, sends))
  }

  /** Two sessions with mirrored keys over an arbitrary channel. What the receiver accepts as session
      data is what the sender put in messages of strictly increasing number, never the first one; in
      strict mode nothing is skipped either. */
  lemma ChannelInOrder(tx: State, rx: State, c: Config, d: Config, sends: seq<Op>, ops: seq<Op>)
    requires Connected(tx, rx, c, d, sends, ops)
    ensures var sent, got := Emitted(tx, c, sends), Received(rx, d, ops);
            && (forall i :: 0 <= i < |got| ==> 1 <= got[i].nonce && Matches(got[i], sent))
            && (forall i, j :: 0 <= i < j < |got| ==> got[i].nonce < got[j].nonce)
            && (rx.algorithms.nonceMode.StrictIncrement? ==>
                  |got| == 0 || (|got| < |sent| && ReceivedTexts(got) == Texts(sent)[1..|got| + 1]))
  {
    hide Received, Emitted, Correct, Unforged, SealedWith, Run;
    var sent, got := Emitted(tx, c, sends), Received(rx, d, ops);
    NoncesCountUp(tx, c, sends);
    FragmentsAreShort(tx, c, sends);
    assert Record(sent, rx.algorithms.aead, rx.keys.rx, d.room) by {
      assert forall i :: 0 <= i < |sent| ==> SealedWith(sent[i], rx.algorithms.aead, rx.keys.rx, 0 + i);
    }
    ReceiptsInOrder(rx, d, ops, sent);
    if rx.algorithms.nonceMode.StrictIncrement? && got != [] {
      assert Matches(got[|got| - 1], sent);
      assert forall i :: 0 <= i < |got| ==> got[i].nonce == i + 1;
    }
  }

  lemma {:induction false} FragmentsAreShort(s: State, c: Config, ops: seq<Op>)
    requires ValidConfig(c)
    ensures forall i :: 0 <= i < |Emitted(s, c, ops)| ==> |Emitted(s, c, ops)[i].text| <= MAX_FRAGMENT
    decreases |ops|
  {
    hide After, MetadataOctets, Fits, FormatError, ValidUntil;
    if ops != [] {
      FragmentsAreShort(After(s, c, ops[0]), c, ops[1..]);
    }
  }

  // ---- What the user sees ----

  function NonEmpty(ts: seq<seq<Byte>>): seq<seq<Byte>> {
    if ts == [] then [] else (if ts[0] != [] then [ts[0]] else []) + NonEmpty(ts[1..])
  }

  lemma {:induction false} DeliveredIsNonEmpty(got: seq<Receipt>)
    ensures Delivered(got) == NonEmpty(ReceivedTexts(got))
    decreases |got|
  {
    if got != [] {
      DeliveredIsNonEmpty(got[1..]);
      assert ReceivedTexts(got)[1..] == ReceivedTexts(got[1..]);
    }
  }

  /** No empty text has a non-empty one behind it. */
  predicate EmptyOnlyAtEnd(ts: seq<seq<Byte>>) {
    forall i, j :: 0 <= i < j < |ts| && ts[i] == [] ==> ts[j] == []
  }

  lemma {:induction false} AllEmpty(ts: seq<seq<Byte>>)
    ensures NonEmpty(ts) == [] <==> forall i :: 0 <= i < |ts| ==> ts[i] == []
    ensures forall i :: 0 <= i < |NonEmpty(ts)| ==> NonEmpty(ts)[i] != []
    ensures |NonEmpty(ts)| <= |ts|
    decreases |ts|
  {
    if ts != [] {
      AllEmpty(ts[1..]);
      assert forall i :: 1 <= i < |ts| ==> ts[i] == ts[1..][i - 1];
    }
  }

  /** Leaving out the empty texts leaves a prefix exactly when they are all at the end. */
  lemma {:induction false} PrefixExactly(ts: seq<seq<Byte>>)
    ensures NonEmpty(ts) <= ts <==> EmptyOnlyAtEnd(ts)
    decreases |ts|
  {
    if ts != [] {
      var rest := ts[1..];
      PrefixExactly(rest);
      AllEmpty(ts);
      AllEmpty(rest);
      assert forall i :: 1 <= i < |ts| ==> ts[i] == rest[i - 1];
      if ts[0] != [] {
        assert ts == [ts[0]] + rest;
        PrefixOfCons(ts[0], NonEmpty(rest), rest);
        assert EmptyOnlyAtEnd(ts) <==> EmptyOnlyAtEnd(rest) by { EmptyBehind(ts); }
      } else {
        assert NonEmpty(ts) == NonEmpty(rest);
      }
    }
  }

  lemma PrefixOfCons(x: seq<Byte>, a: seq<seq<Byte>>, b: seq<seq<Byte>>)
    ensures [x] + a <= [x] + b <==> a <= b
  {
    if [x] + a <= [x] + b {
      assert forall i :: 0 <= i < |a| ==> a[i] == ([x] + a)[i + 1];
      assert forall i :: 0 <= i < |a| ==> b[i] == ([x] + b)[i + 1];
    }
  }

  lemma EmptyBehind(ts: seq<seq<Byte>>)
    requires ts != [] && ts[0] != []
    ensures EmptyOnlyAtEnd(ts) <==> EmptyOnlyAtEnd(ts[1..])
  {
    var rest := ts[1..];
    if EmptyOnlyAtEnd(ts) {
      forall i, j | 0 <= i < j < |rest| && rest[i] == [] ensures rest[j] == [] {
        assert ts[i + 1] == [];
        assert ts[j + 1] == [];
      }
    }
    if EmptyOnlyAtEnd(rest) {
      forall i, j | 0 <= i < j < |ts| && ts[i] == [] ensures ts[j] == [] {
        assert rest[i - 1] == [];
        assert rest[j - 1] == [];
      }
    }
  }

  /** The texts sent behind the auth message. */
  function AfterAuth(sent: seq<Emission>): seq<seq<Byte>> {
    if sent == [] then [] else Texts(sent)[1..]
  }

  /** In strict mode the user sees exactly the texts sent after the auth message, up to the last one
      accepted, without the empty ones; that is a gap-free prefix of what was sent if and only if, up to
      there, no empty text has a non-empty one behind it. */
  lemma StrictModeDeliversPrefix(tx: State, rx: State, c: Config, d: Config, sends: seq<Op>, ops: seq<Op>)
    requires Connected(tx, rx, c, d, sends, ops) && rx.algorithms.nonceMode.StrictIncrement?
    ensures var after, got := AfterAuth(Emitted(tx, c, sends)), Received(rx, d, ops);
            && |got| <= |after| && Delivered(got) == NonEmpty(after[..|got|])
            && (Delivered(got) <= after <==> EmptyOnlyAtEnd(after[..|got|]))
  {
    hide Received, Emitted, Correct, Unforged, Delivered, NonEmpty, ReceivedTexts, EmptyOnlyAtEnd;
    var sent, got := Emitted(tx, c, sends), Received(rx, d, ops);
    ChannelInOrder(tx, rx, c, d, sends, ops);
    ReceivedTextsLength(got);
    var after := AfterAuth(sent);
    assert got != [] ==> Matches(got[0], sent);
    var ts := after[..|got|];
    assert ReceivedTexts(got) == ts;
    DeliveredIsNonEmpty(got);
    AllEmpty(ts);
    PrefixExactly(ts);
    assert NonEmpty(ts) <= after <==> NonEmpty(ts) <= ts;
  }

  lemma ReceivedTextsLength(got: seq<Receipt>)
    ensures |ReceivedTexts(got)| == |got|
  {}

  /** So it is enough that the sender formats nothing after it first formats empty data, or only more of
      that; in particular that it formats no empty data. */
  lemma NoEmptyDataNoGap(tx: State, rx: State, c: Config, d: Config, sends: seq<Op>, ops: seq<Op>)
    requires Connected(tx, rx, c, d, sends, ops) && rx.algorithms.nonceMode.StrictIncrement?
    requires EmptyOnlyAtEnd(AfterAuth(Emitted(tx, c, sends)))
    ensures Delivered(Received(rx, d, ops)) <= AfterAuth(Emitted(tx, c, sends))
  {
    hide Received, Emitted, Correct, Unforged, Delivered;
    StrictModeDeliversPrefix(tx, rx, c, d, sends, ops);
    var after, got := AfterAuth(Emitted(tx, c, sends)), Received(rx, d, ops);
    assert forall i :: 0 <= i < |got| ==> after[..|got|][i] == after[i];
  }

  // ---- Messages that arrive in time and in order are accepted ----

  /** The order a receiver asks for: the first message authenticates; after that each nonce is larger than
      the last, and in strict mode larger by one. */
  predicate NextInOrder(mode: NonceMode, last: nat, nonce: nat, auth: bool) {
    if auth then last == 0 && nonce == 0
    else if mode.StrictIncrement? then nonce == last + 1
    else nonce > last
  }

  /** What one session formats, its peer accepts: the text comes out again, provided the message is
      next in the order the peer asks for and arrives in time. */
  lemma Handover(tx: State, rx: State, c: Config, d: Config, now: int, text: seq<Byte>, at: int, auth: bool)
    requires ValidConfig(c) && ValidState(rx) && rx.valid && FormatNonced(tx, c, now, text, auth).Formed?
    requires rx.keys.rx == tx.keys.tx && rx.algorithms.aead == tx.algorithms.aead && rx.params.maxNonce == tx.params.maxNonce
    requires Correct(rx.algorithms.aead, rx.keys.rx, d.room) && MAX_FRAGMENT <= d.room
    requires NextInOrder(rx.algorithms.nonceMode, rx.rxNonce, tx.txNonce, auth)
    requires InTime(rx, d, FormatNonced(tx, c, now, text, auth).message, at)
    ensures var f := FormatNonced(tx, c, now, text, auth);
            && f.message.metadata.nonce == tx.txNonce
            && Validate(rx, d, f.message, at, auth) == Accepted(Taken(text, f.rest))
  {
    hide MetadataOctets, Fits, FormatError;
    FormedIsSealed(tx, c, now, text);
    var n := FragmentLength(|text|, EncryptRoom(c.maxPayload));
    assert Taken(text, text[n..]) == text[..n];
  }

  /** Within the session and before the message expires. */
  predicate InTime(s: State, c: Config, m: SessionData, at: int) {
    && s.params.start <= at <= s.params.start + s.params.maxSessionTime
    && at <= s.params.start + m.metadata.validUntilMs * c.ticksPerMs
  }

  predicate IsSent(m: SessionData, sent: seq<Emission>) {
    m.metadata.nonce < |sent| && sent[m.metadata.nonce].message == m
  }

  /** What a receiver takes, said without its code: the genuine messages that arrive in time, within the
      nonce limit and in order, whatever else arrives and whatever does not. */
  ghost function Expected(rx: State, d: Config, last: nat, ops: seq<Op>, sent: seq<Emission>): seq<Receipt>
    decreases |ops|
  {
    if ops == [] then []
    else
      match ops[0]
      case Reset => []
      case FormatMessage(_, _, _) => Expected(rx, d, last, ops[1..], sent)
      case ValidateMessage(m, at, auth) =>
        var nonce := m.metadata.nonce;
        if !auth && IsSent(m, sent) && InTime(rx, d, m, at) && nonce <= rx.params.maxNonce
           && NextInOrder(rx.algorithms.nonceMode, last, nonce, false)
        then [Receipt(nonce, sent[nonce].text)] + Expected(rx, d, nonce, ops[1..], sent)
        else Expected(rx, d, last, ops[1..], sent)
  }

  /** A receiver takes a message exactly when it is genuine, in time, within the limit and in order. */
  lemma AcceptsExactly(s: State, c: Config, m: SessionData, at: int, auth: bool, sent: seq<Emission>)
    requires ValidState(s) && s.valid && ValidSessionData(m)
    requires Correct(s.algorithms.aead, s.keys.rx, c.room) && Record(sent, s.algorithms.aead, s.keys.rx, c.room)
    requires UnforgedMessage(m, s.algorithms.aead, s.keys.rx, c.room, sent)
    ensures Validate(s, c, m, at, auth).Accepted? <==>
            && IsSent(m, sent) && InTime(s, c, m, at) && m.metadata.nonce <= s.params.maxNonce
            && NextInOrder(s.algorithms.nonceMode, s.rxNonce, m.metadata.nonce, auth)
    ensures Validate(s, c, m, at, auth).Accepted? ==> Validate(s, c, m, at, auth).payload == sent[m.metadata.nonce].text
  {
    hide MetadataOctets, HaveTypes, UnforgedMessage;
    if Validate(s, c, m, at, auth).Accepted? {
      AcceptedWasSent(s, c, m, at, auth, sent);
    } else if IsSent(m, sent) {
      var e := sent[m.metadata.nonce];
      assert SealedWith(e, s.algorithms.aead, s.keys.rx, m.metadata.nonce);
      assert Open(s, c, m) == Some(e.text);
    }
  }

  lemma {:induction false} ReceivesExpected(s: State, c: Config, ops: seq<Op>, sent: seq<Emission>)
    requires ValidConfig(c) && ValidState(s) && s.valid
    requires Correct(s.algorithms.aead, s.keys.rx, c.room) && Record(sent, s.algorithms.aead, s.keys.rx, c.room)
    requires Unforged(ops, s.algorithms.aead, s.keys.rx, c.room, sent)
    requires forall k :: 0 <= k < |ops| && ops[k].ValidateMessage? ==> ValidSessionData(ops[k].message)
    ensures Received(s, c, ops) == Expected(s, c, s.rxNonce, ops, sent)
    decreases |ops|
  {
    hide Correct, Record, UnforgedMessage, HaveTypes, ValidState, FormatNonced, Validate, InTime;
    if ops != [] {
      var op := ops[0];
      var s' := After(s, c, op);
      StepEmits(s, c, op);
      match op {
        case Reset =>
          NothingAfterReset(s', c, ops[1..]);
        case FormatMessage(_, _, _) =>
          ReceivesExpected(s', c, ops[1..], sent);
          SameExpected(s, s', c, s.rxNonce, ops[1..], sent);
        case ValidateMessage(m, at, auth) =>
          AcceptsExactly(s, c, m, at, auth, sent);
          ReceivesExpected(s', c, ops[1..], sent);
          SameExpected(s, s', c, s'.rxNonce, ops[1..], sent);
      }
    }
  }

  lemma {:induction false} NothingAfterReset(s: State, c: Config, ops: seq<Op>)
    requires ValidConfig(c) && !s.valid
    ensures Received(s, c, ops) == []
    decreases |ops|
  {
    hide FormatNonced;
    if ops != [] {
      NothingAfterReset(After(s, c, ops[0]), c, ops[1..]);
    }
  }

  /** Only the parameters and the nonce mode of the receiver matter. */
  lemma {:induction false} SameExpected(s: State, s': State, c: Config, last: nat, ops: seq<Op>, sent: seq<Emission>)
    requires s.params == s'.params && s.algorithms == s'.algorithms
    ensures Expected(s, c, last, ops, sent) == Expected(s', c, last, ops, sent)
    decreases |ops|
  {
    if ops != [] {
      SameExpected(s, s', c, last, ops[1..], sent);
      if ops[0].ValidateMessage? {
        SameExpected(s, s', c, ops[0].message.metadata.nonce, ops[1..], sent);
      }
    }
  }

  /** Over a channel that drops, repeats, reorders and injects, in either nonce mode, what is received is
      exactly the genuine messages that come in time and in order: a lost one does not block the rest in
      greater-than-last mode. */
  lemma ChannelExactly(tx: State, rx: State, c: Config, d: Config, sends: seq<Op>, ops: seq<Op>)
    requires Connected(tx, rx, c, d, sends, ops)
    requires forall k :: 0 <= k < |ops| && ops[k].ValidateMessage? ==> ValidSessionData(ops[k].message)
    ensures Received(rx, d, ops) == Expected(rx, d, 0, ops, Emitted(tx, c, sends))
  {
    hide Received, Emitted, Correct, Unforged, SealedWith, Run, Expected, HaveTypes;
    var sent := Emitted(tx, c, sends);
    NoncesCountUp(tx, c, sends);
    FragmentsAreShort(tx, c, sends);
    assert Record(sent, rx.algorithms.aead, rx.keys.rx, d.room) by {
      assert forall i :: 0 <= i < |sent| ==> SealedWith(sent[i], rx.algorithms.aead, rx.keys.rx, 0 + i);
    }
    ReceivesExpected(rx, d, ops, sent);
  }

  const DEMO: Config := Config(0, 1, FULL_PAYLOAD, MAX_FRAGMENT)

  function DemoTag(key: seq<Byte>, data: seq<Byte>): seq<Byte> { seq(TAG_LENGTH, i => 0) }

  function DemoState(rxNonce: nat, txNonce: nat): State {
    State(true, rxNonce, txNonce, Algorithms(StrictIncrement, MacAead(DemoTag)), Params(0, 10, 1000),
          Keys(seq(KEY_LENGTH, i => 0), seq(KEY_LENGTH, i => 0)))
  }

  lemma DemoStep(n: nat, text: seq<Byte>, auth: bool)
    requires n < 10 && |text| <= MAX_FRAGMENT && (auth <==> n == 0)
    ensures var f := FormatNonced(DemoState(0, n), DEMO, 0, text, auth);
            && f.Formed? && f.rest == []
            && Validate(DemoState(if auth then 0 else n - 1, 0), DEMO, f.message, 0, auth) == Accepted(text)
            && f.message.metadata.nonce == n
  {
    hide Format, FormatNonced, Validate, Correct;
    var tx, rx := DemoState(0, n), DemoState(if auth then 0 else n - 1, 0);
    MacAeadCorrect(DemoTag, rx.keys.rx, DEMO.room);
    FormsExactly(tx, DEMO, 0, text, auth);
    var f := FormatNonced(tx, DEMO, 0, text, auth);
    assert InTime(rx, DEMO, f.message, 0);
    Handover(tx, rx, DEMO, DEMO, 0, text, 0, auth);
    assert Taken(text, []) == text;
  }

  function DemoMessage(n: nat, text: seq<Byte>, auth: bool): SessionData
    requires n < 10 && |text| <= MAX_FRAGMENT && (auth <==> n == 0)
  {
    DemoStep(n, text, auth);
    FormatNonced(DemoState(0, n), DEMO, 0, text, auth).message
  }

  lemma DemoEmits(n: nat, text: seq<Byte>, auth: bool)
    requires n < 10 && |text| <= MAX_FRAGMENT && (auth <==> n == 0)
    ensures Emits(DemoState(0, n), DEMO, FormatMessage(0, text, auth)) == [Emission(DemoMessage(n, text, auth), text)]
    ensures After(DemoState(0, n), DEMO, FormatMessage(0, text, auth)) == DemoState(0, n + 1)
  {
    hide FormatNonced;
    DemoStep(n, text, auth);
    assert Taken(text, []) == text;
  }

  const DEMO_SENDS: seq<Op> := [FormatMessage(0, [], true), FormatMessage(0, [], false), FormatMessage(0, [7], false)]

  function DemoSent(): (sent: seq<Emission>)
    ensures |sent| == 3 && Texts(sent) == [[], [], [7]]
  {
    [Emission(DemoMessage(0, [], true), []), Emission(DemoMessage(1, [], false), []), Emission(DemoMessage(2, [7], false), [7])]
  }

  function DemoOps(): seq<Op> {
    var sent := DemoSent();
    [ValidateMessage(sent[0].message, 0, true), ValidateMessage(sent[1].message, 0, false), ValidateMessage(sent[2].message, 0, false)]
  }

  lemma DemoEmitted()
    ensures Emitted(DemoState(0, 0), DEMO, DEMO_SENDS) == DemoSent()
  {
    hide Emits, After, DemoMessage, DemoState;
    DemoEmits(0, [], true);
    DemoEmits(1, [], false);
    DemoEmits(2, [7], false);
    var s, sends := DemoSent(), DEMO_SENDS;
    assert sends[1..][1..] == sends[2..] && sends[2..][1..] == sends[3..] == [];
    assert Emitted(DemoState(0, 3), DEMO, sends[3..]) == [];
    assert Emitted(DemoState(0, 2), DEMO, sends[2..]) == [s[2]];
    assert Emitted(DemoState(0, 1), DEMO, sends[1..]) == [s[1]] + [s[2]];
  }

  lemma DemoReceives(n: nat, text: seq<Byte>)
    requires 0 < n < 10 && |text| <= MAX_FRAGMENT
    ensures var op := ValidateMessage(DemoMessage(n, text, false), 0, false);
            && Receives(DemoState(n - 1, 0), DEMO, op) == [Receipt(n, text)]
            && After(DemoState(n - 1, 0), DEMO, op) == DemoState(n, 0)
  {
    hide FormatNonced, Validate;
    DemoStep(n, text, false);
  }

  lemma DemoAuthenticates()
    ensures var op := ValidateMessage(DemoMessage(0, [], true), 0, true);
            && Receives(DemoState(0, 0), DEMO, op) == []
            && After(DemoState(0, 0), DEMO, op) == DemoState(0, 0)
  {
    hide FormatNonced, Validate;
    DemoStep(0, [], true);
  }

  lemma DemoReceived()
    ensures Received(DemoState(0, 0), DEMO, DemoOps()) == [Receipt(1, []), Receipt(2, [7])]
  {
    hide Receives, After, DemoMessage, DemoState;
    DemoAuthenticates();
    DemoReceives(1, []);
    DemoReceives(2, [7]);
    var ops := DemoOps();
    assert ops[1..][1..] == ops[2..] && ops[2..][1..] == ops[3..] == [];
    assert Received(DemoState(2, 0), DEMO, ops[3..]) == [];
    assert Received(DemoState(1, 0), DEMO, ops[2..]) == [Receipt(2, [7])];
    assert Received(DemoState(0, 0), DEMO, ops[1..]) == [Receipt(1, []), Receipt(2, [7])];
  }

  lemma DemoConnected()
    ensures Connected(DemoState(0, 0), DemoState(0, 0), DEMO, DEMO, DEMO_SENDS, DemoOps())
  {
    hide Emitted, DemoMessage, UnforgedMessage, Correct;
    var s, ops := DemoState(0, 0), DemoOps();
    DemoEmitted();
    MacAeadCorrect(DemoTag, s.keys.rx, DEMO.room);
    forall k | 0 <= k < |ops| ensures UnforgedMessage(ops[k].message, s.algorithms.aead, s.keys.rx, DEMO.room, DemoSent()) {
      SentIsUnforged(DemoSent(), k, s.algorithms.aead, s.keys.rx, DEMO.room);
    }
  }

  lemma SentIsUnforged(sent: seq<Emission>, k: nat, aead: Aead, key: seq<Byte>, room: nat)
    requires k < |sent|
    ensures UnforgedMessage(sent[k].message, aead, key, room, sent)
  {}

  /** The failing case: an auth message, an empty text and a non-empty one, all delivered in order and
      in time. The user sees the last text, which is not what was sent first after the auth message. */
  lemma EmptyDataLeavesGap()
    ensures var sent, got := Emitted(DemoState(0, 0), DEMO, DEMO_SENDS), Received(DemoState(0, 0), DEMO, DemoOps());
            Texts(sent) == [[], [], [7]] && Delivered(got) == [[7]] && !(Delivered(got) <= AfterAuth(sent))
    ensures Connected(DemoState(0, 0), DemoState(0, 0), DEMO, DEMO, DEMO_SENDS, DemoOps())
  {
    DemoConnected();
    hide Emitted, Received, DemoMessage;
    DemoEmitted();
    DemoReceived();
    var got := [Receipt(1, []), Receipt(2, [7])];
    assert got[1..] == [Receipt(2, [7])];
    assert Delivered(got[1..]) == [[7]] by { assert got[1..][1..] == []; }
    assert Delivered(got) == Delivered(got[1..]);
    var after := Texts(DemoSent())[1..];
    assert after[0] == [] && Delivered(got)[0] == [7];
  }

  // ---- The session object over a whole run ----

  lemma EmptyIsNoVerdict(s: State, c: Config, m: SessionData, now: int)
    ensures Validate(s, c, m, now, false) != Rejected(EmptyUserData)
  {}

  method Perform(session: Session, op: Op) returns (sent: seq<Emission>, got: seq<Receipt>)
    requires session.Valid()
    modifies session
    ensures session.Valid() && session.View() == After(old(session.View()), session.config, op)
    ensures sent == Emits(old(session.View()), session.config, op)
    ensures got == Receives(old(session.View()), session.config, op)
  {
    hide FormatNonced, Validate;
    sent, got := [], [];
    match op {
      case FormatMessage(now, text, auth) =>
        var r;
        if auth {
          r := session.FormatSessionAuth(now, text);
        } else {
          r := session.FormatSessionData(now, text);
        }
        if r.Formed? {
          sent := [Emission(r.message, Taken(text, r.rest))];
        }
      case ValidateMessage(m, now, auth) =>
        if auth {
          var _ := session.ValidateSessionAuth(m, now);
        } else {
          EmptyIsNoVerdict(session.View(), session.config, m, now);
          var r := session.ValidateSessionData(m, now);
          if r.Accepted? {
            got := [Receipt(m.metadata.nonce, r.payload)];
          } else if r.error == EmptyUserData {
            got := [Receipt(m.metadata.nonce, [])];
          }
        }
      case Reset =>
        session.Reset();
    }
  }

  /** Any sequence of calls on a session object does what the run of its state says. */
  method Drive(session: Session, ops: seq<Op>) returns (sent: seq<Emission>, got: seq<Receipt>)
    requires session.Valid()
    modifies session
    ensures session.Valid() && session.View() == Run(old(session.View()), session.config, ops)
    ensures sent == Emitted(old(session.View()), session.config, ops)
    ensures got == Received(old(session.View()), session.config, ops)
  {
    hide After, Emits, Receives;
    sent, got := [], [];
    ghost var s, c := session.View(), session.config;
    for n := 0 to |ops|
      invariant session.Valid() && Run(s, c, ops) == Run(session.View(), c, ops[n..])
      invariant Emitted(s, c, ops) == sent + Emitted(session.View(), c, ops[n..])
      invariant Received(s, c, ops) == got + Received(session.View(), c, ops[n..])
    {
      assert ops[n..][1..] == ops[n + 1..];
      var more, moreGot := Perform(session, ops[n]);
      sent, got := sent + more, got + moreGot;
    }
  }
}
